/** From one cluster to the whole disk: reading and writing inside a guest cluster, as
    slices of the flat disk. */
module QcowDisk {
  import opened Arith
  import opened Bytes
  import opened QcowImage
  import opened QcowSteps

  /** A guest offset is determined by its two indices and its place in the cluster. */
  lemma ClusterNumber(g: Geometry, x: nat)
    requires GeometryOk(g)
    ensures Div(x, g.cs) == L1Index(g, x) * g.l2n + L2Index(g, x)
    ensures x == Div(x, g.cs) * g.cs + Mod(x, g.cs)
  {
    DivMod(x, g.cs);
    DivMod(Div(x, g.cs), g.l2n);
    DivDiv(x, g.cs, g.l2n, g.l2Span);
  }

  lemma SameCluster(g: Geometry, x: nat, d: nat)
    requires GeometryOk(g) && Mod(x, g.cs) + d < g.cs
    ensures Mod(x + d, g.cs) == Mod(x, g.cs) + d
    ensures L1Index(g, x + d) == L1Index(g, x) && L2Index(g, x + d) == L2Index(g, x)
  {
    DivMod(x, g.cs);
    DivUnique(x + d, g.cs, Div(x, g.cs), Mod(x, g.cs) + d);
    DivDiv(x, g.cs, g.l2n, g.l2Span);
    DivDiv(x + d, g.cs, g.l2n, g.l2Span);
  }

  lemma OtherPlace(g: Geometry, x: nat, y: nat, n: nat)
    requires GeometryOk(g) && Mod(x, g.cs) + n <= g.cs && !(x <= y < x + n)
    requires L1Index(g, y) == L1Index(g, x) && L2Index(g, y) == L2Index(g, x)
    ensures !(Mod(x, g.cs) <= Mod(y, g.cs) < Mod(x, g.cs) + n)
  {
    ClusterNumber(g, x);
    ClusterNumber(g, y);
  }

  lemma ReadByte(m: Image, x: nat, d: nat, pos: nat, h: nat)
    requires GeometryOk(m.g) && |m.l1| == m.g.l1n && x + d < m.g.size && pos == Mod(x, m.g.cs) && pos + d < m.g.cs
    requires L1Index(m.g, x) < |m.l1| && h == Host(m.g, m.file, m.l1, L1Index(m.g, x), L2Index(m.g, x))
    ensures Disk(m)[x + d] == if h == 0 then 0 else ByteAt(m.file, h + pos + d)
  {
    SameCluster(m.g, x, d);
    L1IndexInRange(m.g, x + d);
    assert Disk(m)[x + d] == GuestByte(m, x + d);
  }

  /** What a read inside one cluster must deliver. */
  lemma ReadChunk(m: Image, x: nat, n: nat, pos: nat, h: nat, want: seq<Byte>)
    requires GeometryOk(m.g) && |m.l1| == m.g.l1n && x + n <= m.g.size && pos == Mod(x, m.g.cs) && pos + n <= m.g.cs
    requires L1Index(m.g, x) < |m.l1| && h == Host(m.g, m.file, m.l1, L1Index(m.g, x), L2Index(m.g, x))
    requires want == if h == 0 then Zeros(n) else Slice(m.file, h + pos, n)
    ensures Disk(m)[x..x + n] == want
  {
    var got := Disk(m)[x..x + n];
    forall i | 0 <= i < n ensures got[i] == want[i] {
      ReadByte(m, x, i, pos, h);
    }
  }

  /** The flat disk after `data` has been written at x. */
  function Overwritten(disk: seq<Byte>, x: nat, data: seq<Byte>): (d: seq<Byte>)
    requires x + |data| <= |disk|
    ensures |d| == |disk|
    ensures forall i :: 0 <= i < |d| ==> d[i] == if x <= i < x + |data| then data[i - x] else disk[i]
  {
    seq<Byte>(|disk|, i requires 0 <= i < |disk| => if x <= i < x + |data| then data[i - x] else disk[i])
  }

  lemma OverwrittenNone(disk: seq<Byte>, x: nat)
    requires x <= |disk|
    ensures Overwritten(disk, x, []) == disk
  {
  }

  /** Adjacent writes are one write. */
  lemma OverwrittenTwice(disk: seq<Byte>, x: nat, data: seq<Byte>, c: nat, n: nat)
    requires c + n <= |data| && x + c + n <= |disk|
    ensures Overwritten(Overwritten(disk, x, data[..c]), x + c, data[c..c + n]) == Overwritten(disk, x, data[..c + n])
  {
  }

  /** A write inside one cluster is a splice of the disk. */
  lemma WriteChunk(m: Image, f: seq<Byte>, x: nat, data: seq<Byte>)
    requires GeometryOk(m.g) && |m.l1| == m.g.l1n && x + |data| <= m.g.size && Mod(x, m.g.cs) + |data| <= m.g.cs
    requires Wrote(m.g, m.file, m.l1, f, L1Index(m.g, x), L2Index(m.g, x), Mod(x, m.g.cs), data)
    ensures Disk(m.(file := f)) == Overwritten(Disk(m), x, data)
  {
    var m' := m.(file := f);
    var want := Overwritten(Disk(m), x, data);
    forall y | 0 <= y < m.g.size ensures Disk(m')[y] == want[y] {
      WriteChunkAt(m, f, x, data, y);
    }
  }

  lemma WriteChunkAt(m: Image, f: seq<Byte>, x: nat, data: seq<Byte>, y: nat)
    requires GeometryOk(m.g) && |m.l1| == m.g.l1n && x + |data| <= m.g.size && Mod(x, m.g.cs) + |data| <= m.g.cs
    requires Wrote(m.g, m.file, m.l1, f, L1Index(m.g, x), L2Index(m.g, x), Mod(x, m.g.cs), data) && y < m.g.size
    ensures Disk(m.(file := f))[y] == if x <= y < x + |data| then data[y - x] else Disk(m)[y]
  {
    L1IndexInRange(m.g, y);
    assert Disk(m)[y] == ClusterByte(m.g, m.file, m.l1, L1Index(m.g, y), L2Index(m.g, y), Mod(y, m.g.cs));
    assert Disk(m.(file := f))[y] == ClusterByte(m.g, f, m.l1, L1Index(m.g, y), L2Index(m.g, y), Mod(y, m.g.cs));
    if x <= y < x + |data| {
      SameCluster(m.g, x, y - x);
    } else if L1Index(m.g, y) == L1Index(m.g, x) && L2Index(m.g, y) == L2Index(m.g, x) {
      OtherPlace(m.g, x, y, |data|);
    }
  }

  lemma ScaledPlace(cs: nat, n: nat, sector: nat)
    requires n > 0 && cs == 512 * n
    ensures Mod(sector * 512, cs) == 512 * Mod(sector, n)
  {
    var q, r := Div(sector, n), Mod(sector, n);
    DivMod(sector, n);
    assert q * cs == 512 * (q * n);
    DivUnique(sector * 512, cs, q, 512 * r);
  }

  /** Sectors of 512 bytes inside a cluster. */
  lemma SectorPlace(g: Geometry, sector: nat)
    requires GeometryOk(g)
    ensures g.cs % 512 == 0 && g.cs / 512 > 0
    ensures Mod(sector * 512, g.cs) == 512 * Mod(sector, g.cs / 512)
  {
    PowerDivides(g.clusterBits);
    ScaledPlace(g.cs, g.cs / 512, sector);
  }

  lemma {:induction false} PowerDivides(b: nat)
    requires b >= 9
    ensures Pow2(b) % 512 == 0 && Pow2(b) >= 512
  {
    if b == 9 {
      assert Pow2(9) == 8 * Pow2(6) && Pow2(6) == 8 * Pow2(3);
    } else {
      PowerDivides(b - 1);
    }
  }
}
