/** Each kind of change the driver makes to an image, what it keeps of the
    invariant, and what it does to the guest disk and to the reference counts. */
module QcowSteps {
  import opened Arith
  import opened Bytes
  import opened QcowImage
  import Refcount

  /** No owned byte has changed, except bytes of owner t. */
  predicate Kept(own: Owners, f: seq<Byte>, f': seq<Byte>, t: Owner) {
    && |f| <= |f'|
    && forall x :: x in own && own[x] != t ==> ByteAt(f', x) == ByteAt(f, x)
  }

  lemma KeptSlice(own: Owners, f: seq<Byte>, f': seq<Byte>, t: Owner, off: nat, n: nat, o: Owner)
    requires Kept(own, f, f', t) && Region(own, off, n, o) && o != t
    ensures Slice(f, off, n) == Slice(f', off, n)
    ensures forall p :: off <= p < off + n ==> ByteAt(f, p) == ByteAt(f', p)
  {
  }

  lemma KeptEntry(own: Owners, f: seq<Byte>, f': seq<Byte>, t: Owner, off: nat, n: nat, o: Owner, j: nat)
    requires Kept(own, f, f', t) && Region(own, off, 8 * n, o) && o != t && j < n
    ensures Entry(f, off + 8 * j) == Entry(f', off + 8 * j)
  {
    assert Region(own, off + 8 * j, 8, o);
    KeptSlice(own, f, f', t, off + 8 * j, 8, o);
  }

  // -------------------------------------------------------- frames, by table

  lemma KeptTable(f: seq<Byte>, off: nat, table: seq<nat>, own: Owners, o: Owner, f': seq<Byte>, t: Owner)
    requires TableOk(f, off, table, own, o) && Kept(own, f, f', t) && t != o
    ensures TableOk(f', off, table, own, o)
  {
    forall i | 0 <= i < |table|
      ensures EntryAgrees(f', off, table, i)
    {
      assert EntryAgrees(f, off, table, i);
      KeptEntry(own, f, f', t, off, |table|, o, i);
    }
  }

  lemma KeptL2(g: Geometry, f: seq<Byte>, l1: seq<nat>, own: Owners, f': seq<Byte>, t: Owner, i: nat, j: nat)
    requires L2Ok(g, l1, own) && Kept(own, f, f', t) && i < |l1| && j < g.l2n && t != L2Table(i)
    ensures L2Entry(g, f', l1, i, j) == L2Entry(g, f, l1, i, j)
  {
    assert TableOwned(g, l1, own, i);
    if L2Off(g, l1, i) != 0 {
      KeptEntry(own, f, f', t, L2Off(g, l1, i), g.l2n, L2Table(i), j);
    }
  }

  predicate SameEntries(g: Geometry, f: seq<Byte>, f': seq<Byte>, l1: seq<nat>) {
    forall i, j :: 0 <= i < |l1| && 0 <= j < g.l2n ==> L2Entry(g, f', l1, i, j) == L2Entry(g, f, l1, i, j)
  }

  lemma KeptData(g: Geometry, f: seq<Byte>, l1: seq<nat>, own: Owners, f': seq<Byte>, t: Owner)
    requires L2Ok(g, l1, own) && DataOk(g, f, l1, own) && Kept(own, f, f', t) && !t.L2Table?
    ensures SameEntries(g, f, f', l1)
    ensures DataOk(g, f', l1, own)
  {
    forall i, j | 0 <= i < |l1| && 0 <= j < g.l2n
      ensures L2Entry(g, f', l1, i, j) == L2Entry(g, f, l1, i, j)
    {
      KeptL2(g, f, l1, own, f', t, i, j);
    }
    forall i, j | 0 <= i < |l1| && 0 <= j < g.l2n ensures ClusterOk(g, f', l1, own, i, j) {
      assert ClusterOk(g, f, l1, own, i, j);
    }
  }

  lemma KeptRc(g: Geometry, f: seq<Byte>, rt: seq<nat>, own: Owners, f': seq<Byte>, t: Owner, k: nat)
    requires GeometryOk(g) && g.v2 && BlocksOk(g, rt, own) && Kept(own, f, f', t)
    requires t != RcBlock(Div(k, g.rbn))
    ensures Rc(g, f', rt, k) == Rc(g, f, rt, k)
  {
    var idx := Div(k, g.rbn);
    if idx < |rt| && rt[idx] != 0 {
      assert BlockOwned(g, rt, own, idx);
      KeptSlice(own, f, f', t, rt[idx], g.cs, RcBlock(idx));
    }
  }

  ghost predicate SameCounts(g: Geometry, f: seq<Byte>, rt: seq<nat>, f': seq<Byte>, rt': seq<nat>)
    requires GeometryOk(g)
  {
    g.v2 ==> forall k: nat :: Rc(g, f', rt', k) == Rc(g, f, rt, k)
  }

  lemma KeptCounts(g: Geometry, f: seq<Byte>, rt: seq<nat>, own: Owners, f': seq<Byte>, t: Owner)
    requires GeometryOk(g) && BlocksOk(g, rt, own) && Kept(own, f, f', t) && !t.RcBlock?
    ensures SameCounts(g, f, rt, f', rt)
  {
    if g.v2 {
      forall k: nat ensures Rc(g, f', rt, k) == Rc(g, f, rt, k) {
        KeptRc(g, f, rt, own, f', t, k);
      }
    }
  }

  // ------------------------------------------------------------ guest contents

  /** Two images of one geometry hold the same guest bytes. */
  predicate SameContents(g: Geometry, f: seq<Byte>, l1: seq<nat>, f': seq<Byte>, l1': seq<nat>)
    requires |l1'| == |l1|
  {
    forall i, j, r :: 0 <= i < |l1| && 0 <= j < g.l2n && 0 <= r < g.cs ==>
      ClusterByte(g, f', l1', i, j, r) == ClusterByte(g, f, l1, i, j, r)
  }

  lemma SameDisk(m: Image, m': Image)
    requires GeometryOk(m.g) && m'.g == m.g && |m.l1| == |m'.l1| == m.g.l1n
    requires SameContents(m.g, m.file, m.l1, m'.file, m'.l1)
    ensures Disk(m') == Disk(m)
  {
    forall x | 0 <= x < m.g.size
      ensures Disk(m')[x] == Disk(m)[x]
    {
      L1IndexInRange(m.g, x);
    }
  }

  /** Guest bytes whose entry and host bytes are untouched stay as they are. */
  lemma KeptByte(g: Geometry, f: seq<Byte>, l1: seq<nat>, own: Owners, f': seq<Byte>, t: Owner, i: nat, j: nat, r: nat)
    requires i < |l1| && ClusterOk(g, f, l1, own, i, j) && Kept(own, f, f', t)
    requires L2Entry(g, f', l1, i, j) == L2Entry(g, f, l1, i, j)
    requires r < g.cs && t != Data(i, j) && t != Shared
    ensures ClusterByte(g, f', l1, i, j, r) == ClusterByte(g, f, l1, i, j, r)
  {
    var h := Host(g, f, l1, i, j);
    if h != 0 {
      assert h + r in own;
    }
  }

  lemma KeptContents(g: Geometry, f: seq<Byte>, l1: seq<nat>, own: Owners, f': seq<Byte>, t: Owner)
    requires DataOk(g, f, l1, own) && Kept(own, f, f', t) && SameEntries(g, f, f', l1)
    requires t != Shared && (t.Data? ==> t.i >= |l1|)
    ensures SameContents(g, f, l1, f', l1)
  {
    forall i, j, r | 0 <= i < |l1| && 0 <= j < g.l2n && 0 <= r < g.cs
      ensures ClusterByte(g, f', l1, i, j, r) == ClusterByte(g, f, l1, i, j, r)
    {
      KeptByte(g, f, l1, own, f', t, i, j, r);
    }
  }

  // ------------------------------------------------------- free space and data

  /** A change to nothing but free space and one data cluster keeps the invariant. */
  lemma KeptInv(m: Image, own: Owners, f: seq<Byte>, t: Owner)
    requires Inv(m, own) && Kept(own, m.file, f, t) && t.Data?
    ensures Inv(m.(file := f), own)
    ensures SameEntries(m.g, m.file, f, m.l1) && SameCounts(m.g, m.file, m.rt, f, m.rt)
  {
    KeptTable(m.file, m.g.l1Off, m.l1, own, L1Table, f, t);
    KeptTable(m.file, m.g.rtOff, m.rt, own, RcTable, f, t);
    KeptData(m.g, m.file, m.l1, own, f, t);
    KeptCounts(m.g, m.file, m.rt, own, f, t);
  }

  predicate Untouched(own: Owners, f: seq<Byte>, f': seq<Byte>) {
    |f| <= |f'| && forall x :: x in own ==> ByteAt(f', x) == ByteAt(f, x)
  }

  /** A change to free space alone: allocation, and the copy made for copy-on-write. */
  lemma FreeSpaceStep(m: Image, own: Owners, f: seq<Byte>)
    requires Inv(m, own) && Untouched(own, m.file, f)
    ensures Inv(m.(file := f), own)
    ensures SameEntries(m.g, m.file, f, m.l1)
    ensures SameCounts(m.g, m.file, m.rt, f, m.rt)
    ensures SameContents(m.g, m.file, m.l1, f, m.l1)
  {
    var t := Data(|m.l1|, 0);
    KeptInv(m, own, f, t);
    KeptContents(m.g, m.file, m.l1, own, f, t);
  }

  lemma RaiseFirstFree(m: Image, own: Owners, ff: nat)
    requires Inv(m, own) && m.g.v2 && m.firstFree <= ff && Mod(ff, m.g.cs) == 0
    ensures Inv(m.(firstFree := ff), own)
  {
    DivMono(m.firstFree, ff, m.g.cs);
  }

  /** The guest contents after `data` has been written at `pos` in cluster (i0, j0). */
  predicate Wrote(g: Geometry, f: seq<Byte>, l1: seq<nat>, f': seq<Byte>, i0: nat, j0: nat, pos: nat, data: seq<Byte>) {
    forall i, j, r :: 0 <= i < |l1| && 0 <= j < g.l2n && 0 <= r < g.cs ==>
      ClusterByte(g, f', l1, i, j, r) ==
        if i == i0 && j == j0 && pos <= r < pos + |data| then data[r - pos] else ClusterByte(g, f, l1, i, j, r)
  }

  lemma WroteByte(g: Geometry, f: seq<Byte>, l1: seq<nat>, i0: nat, j0: nat, pos: nat, data: seq<Byte>, f': seq<Byte>, r: nat)
    requires i0 < |l1| && Host(g, f, l1, i0, j0) != 0
    requires f' == Pwrite(f, Host(g, f, l1, i0, j0) + pos, data)
    requires L2Entry(g, f', l1, i0, j0) == L2Entry(g, f, l1, i0, j0)
    ensures ClusterByte(g, f', l1, i0, j0, r) ==
              if pos <= r < pos + |data| then data[r - pos] else ClusterByte(g, f, l1, i0, j0, r)
  {
  }

  lemma WroteAll(g: Geometry, f: seq<Byte>, l1: seq<nat>, own: Owners, i0: nat, j0: nat, pos: nat, data: seq<Byte>, f': seq<Byte>)
    requires DataOk(g, f, l1, own) && i0 < |l1| && Host(g, f, l1, i0, j0) != 0
    requires f' == Pwrite(f, Host(g, f, l1, i0, j0) + pos, data)
    requires Kept(own, f, f', Data(i0, j0)) && SameEntries(g, f, f', l1) && j0 < g.l2n
    ensures Wrote(g, f, l1, f', i0, j0, pos, data)
  {
    forall i, j, r | 0 <= i < |l1| && 0 <= j < g.l2n && 0 <= r < g.cs
      ensures ClusterByte(g, f', l1, i, j, r) ==
                if i == i0 && j == j0 && pos <= r < pos + |data| then data[r - pos] else ClusterByte(g, f, l1, i, j, r)
    {
      if i != i0 || j != j0 {
        KeptByte(g, f, l1, own, f', Data(i0, j0), i, j, r);
      } else {
        WroteByte(g, f, l1, i0, j0, pos, data, f', r);
      }
    }
  }

  /** Guest data written inside a cluster that is this guest cluster's own. */
  lemma DataStep(m: Image, own: Owners, i0: nat, j0: nat, h: nat, pos: nat, data: seq<Byte>, f: seq<Byte>)
    requires Inv(m, own) && Region(own, h, m.g.cs, Data(i0, j0))
    requires f == Pwrite(m.file, h + pos, data) && pos + |data| <= m.g.cs
    ensures Inv(m.(file := f), own) && |f| == |m.file|
    ensures SameEntries(m.g, m.file, f, m.l1) && SameCounts(m.g, m.file, m.rt, f, m.rt)
  {
    InsideOwned(own, m.file, h, m.g.cs, Data(i0, j0), pos, data);
    KeptInv(m, own, f, Data(i0, j0));
  }

  lemma DataContents(g: Geometry, f: seq<Byte>, l1: seq<nat>, own: Owners, i0: nat, j0: nat, h: nat, pos: nat, data: seq<Byte>, f': seq<Byte>)
    requires InFile(f, own) && L2Ok(g, l1, own) && DataOk(g, f, l1, own) && i0 < |l1| && j0 < g.l2n
    requires h == Host(g, f, l1, i0, j0) && h != 0 && Region(own, h, g.cs, Data(i0, j0))
    requires f' == Pwrite(f, h + pos, data) && pos + |data| <= g.cs && g.cs > 0
    ensures Wrote(g, f, l1, f', i0, j0, pos, data)
  {
    InsideOwned(own, f, h, g.cs, Data(i0, j0), pos, data);
    KeptData(g, f, l1, own, f', Data(i0, j0));
    WroteAll(g, f, l1, own, i0, j0, pos, data, f');
  }

  /** A write inside an owned region touches no other owner and does not extend the file. */
  lemma InsideOwned(own: Owners, f: seq<Byte>, off: nat, n: nat, o: Owner, pos: nat, data: seq<Byte>)
    requires InFile(f, own) && Region(own, off, n, o) && pos + |data| <= n && n > 0
    ensures Kept(own, f, Pwrite(f, off + pos, data), o)
    ensures |Pwrite(f, off + pos, data)| == |f|
  {
    assert off + n - 1 in own;
  }

  // ------------------------------------------------------ claiming free space

  function Claim(own: Owners, off: nat, n: nat, o: Owner): (own': Owners)
    ensures forall x :: x in own' <==> x in own || off <= x < off + n
    ensures forall x :: x in own' ==> own'[x] == if off <= x < off + n then o else own[x]
  {
    if n == 0 then own else Claim(own, off, n - 1, o)[off + n - 1 := o]
  }

  lemma ClaimRegion(own: Owners, off: nat, n: nat, o: Owner, a: nat, b: nat, q: Owner)
    requires Fresh(own, off, n) && Region(own, a, b, q)
    ensures Region(Claim(own, off, n, o), a, b, q)
  {
  }

  lemma ClaimData(g: Geometry, f: seq<Byte>, l1: seq<nat>, own: Owners, off: nat, n: nat, o: Owner)
    requires Fresh(own, off, n) && DataOk(g, f, l1, own)
    ensures DataOk(g, f, l1, Claim(own, off, n, o))
  {
    forall i, j | 0 <= i < |l1| && 0 <= j < g.l2n
      ensures ClusterOk(g, f, l1, Claim(own, off, n, o), i, j)
    {
      assert ClusterOk(g, f, l1, own, i, j);
      var h := Host(g, f, l1, i, j);
      if Region(own, h, g.cs, Data(i, j)) {
        ClaimRegion(own, off, n, o, h, g.cs, Data(i, j));
      } else if Region(own, h, g.cs, Shared) {
        ClaimRegion(own, off, n, o, h, g.cs, Shared);
      }
    }
  }

  lemma ClaimTables(g: Geometry, l1: seq<nat>, rt: seq<nat>, own: Owners, off: nat, n: nat, o: Owner)
    requires Fresh(own, off, n) && BlocksOk(g, rt, own) && L2Ok(g, l1, own)
    ensures BlocksOk(g, rt, Claim(own, off, n, o)) && L2Ok(g, l1, Claim(own, off, n, o))
  {
    forall k | 0 <= k < |rt| ensures BlockOwned(g, rt, Claim(own, off, n, o), k) {
      assert BlockOwned(g, rt, own, k);
      if rt[k] != 0 {
        ClaimRegion(own, off, n, o, rt[k], g.cs, RcBlock(k));
      }
    }
    forall i | 0 <= i < |l1| ensures TableOwned(g, l1, Claim(own, off, n, o), i) {
      assert TableOwned(g, l1, own, i);
      if L2Off(g, l1, i) != 0 {
        ClaimRegion(own, off, n, o, L2Off(g, l1, i), 8 * g.l2n, L2Table(i));
      }
    }
  }

  lemma ClaimUsed(g: Geometry, f: seq<Byte>, rt: seq<nat>, ff: nat, own: Owners, off: nat, n: nat, o: Owner)
    requires GeometryOk(g) && g.v2 && UsedOk(g, f, rt, ff, own)
    requires forall x :: off <= x < off + n ==> Div(x, g.cs) < Div(ff, g.cs)
    ensures UsedOk(g, f, rt, ff, Claim(own, off, n, o))
  {
    forall x: nat | Used(Claim(own, off, n, o), x)
      ensures Div(x, g.cs) < Div(ff, g.cs) || Rc(g, f, rt, Div(x, g.cs)) > 0
    {
      assert Used(own, x) || off <= x < off + n;
    }
  }

  /** Free space may be given to any owner. */
  lemma ClaimInv(m: Image, own: Owners, off: nat, n: nat, o: Owner)
    requires Inv(m, own) && Fresh(own, off, n) && off + n <= |m.file|
    requires m.g.v2 ==> forall x :: off <= x < off + n ==> Div(x, m.g.cs) < Div(m.firstFree, m.g.cs)
    ensures Inv(m, Claim(own, off, n, o))
    ensures Region(Claim(own, off, n, o), off, n, o)
  {
    ClaimRegion(own, off, n, o, 0, m.g.headerLen, Header);
    ClaimRegion(own, off, n, o, m.g.l1Off, 8 * |m.l1|, L1Table);
    ClaimRegion(own, off, n, o, m.g.rtOff, 8 * |m.rt|, RcTable);
    ClaimTables(m.g, m.l1, m.rt, own, off, n, o);
    ClaimData(m.g, m.file, m.l1, own, off, n, o);
    if m.g.v2 {
      ClaimUsed(m.g, m.file, m.rt, m.firstFree, own, off, n, o);
    }
  }

  // -------------------------------------------------------- one table entry

  lemma TableEntry(f: seq<Byte>, off: nat, table: seq<nat>, i0: nat, v: nat, f': seq<Byte>, i: nat)
    requires i0 < |table| && i < |table| && v < TWO64 && EntryAgrees(f, off, table, i)
    requires f' == Pwrite(f, off + 8 * i0, PutBE(v, 8))
    ensures EntryAgrees(f', off, table[i0 := v], i)
  {
    if i == i0 {
      PwriteEntry(f, off + 8 * i0, v);
    } else {
      SliceFrame(f, f', off + 8 * i, 8);
    }
  }

  /** A table entry written to memory and to the file. */
  lemma TableStep(f: seq<Byte>, off: nat, table: seq<nat>, own: Owners, o: Owner, i0: nat, v: nat, f': seq<Byte>)
    requires TableOk(f, off, table, own, o) && InFile(f, own) && i0 < |table| && v < TWO64
    requires f' == Pwrite(f, off + 8 * i0, PutBE(v, 8))
    ensures |f'| == |f| && Kept(own, f, f', o)
    ensures TableOk(f', off, table[i0 := v], own, o)
  {
    var table' := table[i0 := v];
    forall i | 0 <= i < |table'|
      ensures EntryAgrees(f', off, table', i)
    {
      assert EntryAgrees(f, off, table, i);
      TableEntry(f, off, table, i0, v, f', i);
    }
    InsideOwned(own, f, off, 8 * |table|, o, 8 * i0, PutBE(v, 8));
  }

  /** The same entry for every guest cluster, under two L1 tables. */
  predicate SameMap(g: Geometry, f: seq<Byte>, l1: seq<nat>, f': seq<Byte>, l1': seq<nat>)
    requires |l1'| == |l1|
  {
    forall i, j :: 0 <= i < |l1| && 0 <= j < g.l2n ==> L2Entry(g, f', l1', i, j) == L2Entry(g, f, l1, i, j)
  }

  lemma NewL2Entries(g: Geometry, f: seq<Byte>, l1: seq<nat>, own: Owners, i0: nat, e: nat, f': seq<Byte>)
    requires i0 < |l1| && L2Off(g, l1, i0) == 0 && Kept(own, f, f', L1Table)
    requires Region(own, Masked(g, e), 8 * g.l2n, L2Table(i0)) && Slice(f, Masked(g, e), 8 * g.l2n) == Zeros(8 * g.l2n)
    ensures forall i, j :: 0 <= i < |l1| && 0 <= j < g.l2n ==>
              L2Entry(g, f', l1[i0 := e], i, j) == L2Entry(g, f', l1, i, j)
  {
    forall i, j | 0 <= i < |l1| && 0 <= j < g.l2n
      ensures L2Entry(g, f', l1[i0 := e], i, j) == L2Entry(g, f', l1, i, j)
    {
      if i == i0 {
        ZeroTable(f, own, Masked(g, e), g.l2n, L2Table(i0), f', L1Table, j);
      }
    }
  }

  lemma SwapL1(g: Geometry, f: seq<Byte>, l1: seq<nat>, l1': seq<nat>, own: Owners)
    requires |l1'| == |l1| && DataOk(g, f, l1, own)
    requires forall i, j :: 0 <= i < |l1| && 0 <= j < g.l2n ==> L2Entry(g, f, l1', i, j) == L2Entry(g, f, l1, i, j)
    ensures DataOk(g, f, l1', own)
    ensures SameContents(g, f, l1, f, l1')
  {
    forall i, j | 0 <= i < |l1| && 0 <= j < g.l2n ensures ClusterOk(g, f, l1', own, i, j) {
      assert ClusterOk(g, f, l1, own, i, j);
    }
  }

  lemma ContentsTrans(g: Geometry, f: seq<Byte>, l1: seq<nat>, f': seq<Byte>, l1': seq<nat>, f'': seq<Byte>, l1'': seq<nat>)
    requires |l1| == |l1'| == |l1''|
    requires SameContents(g, f, l1, f', l1') && SameContents(g, f', l1', f'', l1'')
    ensures SameContents(g, f, l1, f'', l1'')
  {
  }

  /** A fresh, zeroed L2 table hung into the L1 table: nothing is mapped yet. */
  lemma L1Step(m: Image, own: Owners, i0: nat, e: nat, f: seq<Byte>, l1: seq<nat>)
    requires Inv(m, own) && i0 < |m.l1| && L2Off(m.g, m.l1, i0) == 0 && e < TWO64
    requires Region(own, Masked(m.g, e), 8 * m.g.l2n, L2Table(i0))
    requires Slice(m.file, Masked(m.g, e), 8 * m.g.l2n) == Zeros(8 * m.g.l2n)
    requires f == Pwrite(m.file, m.g.l1Off + 8 * i0, PutBE(e, 8)) && l1 == m.l1[i0 := e]
    ensures Inv(m.(file := f, l1 := l1), own) && Kept(own, m.file, f, L1Table)
    ensures SameMap(m.g, m.file, m.l1, f, l1)
    ensures SameContents(m.g, m.file, m.l1, f, l1)
    ensures SameCounts(m.g, m.file, m.rt, f, m.rt)
  {
    TableStep(m.file, m.g.l1Off, m.l1, own, L1Table, i0, e, f);
    KeptTable(m.file, m.g.rtOff, m.rt, own, RcTable, f, L1Table);
    KeptCounts(m.g, m.file, m.rt, own, f, L1Table);
    L1StepMap(m.g, m.file, m.l1, own, i0, e, f);
  }

  lemma L1StepMap(g: Geometry, f: seq<Byte>, l1: seq<nat>, own: Owners, i0: nat, e: nat, f': seq<Byte>)
    requires i0 < |l1| && L2Off(g, l1, i0) == 0 && Kept(own, f, f', L1Table)
    requires L2Ok(g, l1, own) && DataOk(g, f, l1, own)
    requires Region(own, Masked(g, e), 8 * g.l2n, L2Table(i0)) && Slice(f, Masked(g, e), 8 * g.l2n) == Zeros(8 * g.l2n)
    ensures L2Ok(g, l1[i0 := e], own) && DataOk(g, f', l1[i0 := e], own)
    ensures SameMap(g, f, l1, f', l1[i0 := e])
    ensures SameContents(g, f, l1, f', l1[i0 := e])
  {
    var l1' := l1[i0 := e];
    forall i | 0 <= i < |l1'| ensures TableOwned(g, l1', own, i) {
      assert TableOwned(g, l1, own, i);
    }
    KeptData(g, f, l1, own, f', L1Table);
    KeptContents(g, f, l1, own, f', L1Table);
    NewL2Entries(g, f, l1, own, i0, e, f');
    SwapL1(g, f', l1, l1[i0 := e], own);
    ContentsTrans(g, f, l1, f', l1, f', l1[i0 := e]);
  }

  lemma ZeroTable(f: seq<Byte>, own: Owners, off: nat, n: nat, o: Owner, f': seq<Byte>, t: Owner, j: nat)
    requires Kept(own, f, f', t) && Region(own, off, 8 * n, o) && o != t && j < n
    requires Slice(f, off, 8 * n) == Zeros(8 * n)
    ensures Entry(f', off + 8 * j) == 0
  {
    KeptEntry(own, f, f', t, off, n, o, j);
    assert Slice(f, off + 8 * j, 8) == Slice(f, off, 8 * n)[8 * j..8 * j + 8] == Zeros(8);
    GetBEZeros(8);
  }

  /** What writing entry (i0, j0) does to the entries. */
  lemma NewEntry(g: Geometry, f: seq<Byte>, l1: seq<nat>, own: Owners, i0: nat, j0: nat, e: nat, f': seq<Byte>, i: nat, j: nat)
    requires L2Ok(g, l1, own) && i0 < |l1| && j0 < g.l2n && i < |l1| && j < g.l2n && e < TWO64
    requires L2Off(g, l1, i0) != 0 && f' == Pwrite(f, L2Off(g, l1, i0) + 8 * j0, PutBE(e, 8))
    requires Kept(own, f, f', L2Table(i0))
    ensures L2Entry(g, f', l1, i, j) == if i == i0 && j == j0 then e else L2Entry(g, f, l1, i, j)
  {
    if i != i0 {
      KeptL2(g, f, l1, own, f', L2Table(i0), i, j);
    } else if j != j0 {
      SliceFrame(f, f', L2Off(g, l1, i0) + 8 * j, 8);
    } else {
      PwriteEntry(f, L2Off(g, l1, i0) + 8 * j0, e);
    }
  }

  /** The entries after (i0, j0) has been set to e. */
  predicate EntrySet(g: Geometry, f: seq<Byte>, l1: seq<nat>, f': seq<Byte>, i0: nat, j0: nat, e: nat) {
    forall i, j :: 0 <= i < |l1| && 0 <= j < g.l2n ==>
      L2Entry(g, f', l1, i, j) == if i == i0 && j == j0 then e else L2Entry(g, f, l1, i, j)
  }

  lemma NewEntries(g: Geometry, f: seq<Byte>, l1: seq<nat>, own: Owners, i0: nat, j0: nat, e: nat, f': seq<Byte>)
    requires L2Ok(g, l1, own) && i0 < |l1| && j0 < g.l2n && e < TWO64
    requires L2Off(g, l1, i0) != 0 && f' == Pwrite(f, L2Off(g, l1, i0) + 8 * j0, PutBE(e, 8))
    requires Kept(own, f, f', L2Table(i0))
    ensures EntrySet(g, f, l1, f', i0, j0, e)
  {
    forall i, j | 0 <= i < |l1| && 0 <= j < g.l2n
      ensures L2Entry(g, f', l1, i, j) == if i == i0 && j == j0 then e else L2Entry(g, f, l1, i, j)
    {
      NewEntry(g, f, l1, own, i0, j0, e, f', i, j);
    }
  }

  /** The host cluster at h holds the guest bytes of cluster (i0, j0). */
  predicate Holds(g: Geometry, f: seq<Byte>, l1: seq<nat>, i0: nat, j0: nat, h: nat)
    requires i0 < |l1|
  {
    forall r :: 0 <= r < g.cs ==> ByteAt(f, h + r) == ClusterByte(g, f, l1, i0, j0, r)
  }

  lemma MovedByte(g: Geometry, f: seq<Byte>, l1: seq<nat>, own: Owners, i0: nat, j0: nat, e: nat, f': seq<Byte>, r: nat)
    requires i0 < |l1| && Kept(own, f, f', L2Table(i0)) && Region(own, Masked(g, e), g.cs, Data(i0, j0)) && r < g.cs
    requires L2Entry(g, f', l1, i0, j0) == e && Masked(g, e) != 0 && Holds(g, f, l1, i0, j0, Masked(g, e))
    ensures ClusterByte(g, f', l1, i0, j0, r) == ClusterByte(g, f, l1, i0, j0, r)
  {
    assert Masked(g, e) + r in own;
  }

  /** The guest bytes stay when (i0, j0) moves to a host cluster holding the same bytes. */
  lemma MovedContents(g: Geometry, f: seq<Byte>, l1: seq<nat>, own: Owners, i0: nat, j0: nat, e: nat, f': seq<Byte>)
    requires DataOk(g, f, l1, own) && EntrySet(g, f, l1, f', i0, j0, e) && Kept(own, f, f', L2Table(i0))
    requires i0 < |l1| && j0 < g.l2n && Masked(g, e) != 0
    requires Region(own, Masked(g, e), g.cs, Data(i0, j0)) && Holds(g, f, l1, i0, j0, Masked(g, e))
    ensures SameContents(g, f, l1, f', l1)
  {
    forall i, j, r | 0 <= i < |l1| && 0 <= j < g.l2n && 0 <= r < g.cs
      ensures ClusterByte(g, f', l1, i, j, r) == ClusterByte(g, f, l1, i, j, r)
    {
      if i == i0 && j == j0 {
        MovedByte(g, f, l1, own, i0, j0, e, f', r);
      } else {
        KeptByte(g, f, l1, own, f', L2Table(i0), i, j, r);
      }
    }
  }

  lemma MovedData(g: Geometry, f: seq<Byte>, l1: seq<nat>, own: Owners, i0: nat, j0: nat, e: nat, f': seq<Byte>)
    requires DataOk(g, f, l1, own) && EntrySet(g, f, l1, f', i0, j0, e)
    requires Plain(g, e) && Region(own, Masked(g, e), g.cs, Data(i0, j0))
    ensures DataOk(g, f', l1, own)
  {
    forall i, j | 0 <= i < |l1| && 0 <= j < g.l2n ensures ClusterOk(g, f', l1, own, i, j) {
      assert ClusterOk(g, f, l1, own, i, j);
    }
  }

  /** Guest cluster (i0, j0) mapped to a host cluster of its own. */
  lemma L2Step(m: Image, own: Owners, i0: nat, j0: nat, l2: nat, e: nat, h: nat, f: seq<Byte>)
    requires Inv(m, own) && i0 < |m.l1| && j0 < m.g.l2n && l2 == L2Off(m.g, m.l1, i0) && l2 != 0
    requires Plain(m.g, e) && h == Masked(m.g, e) && Region(own, h, m.g.cs, Data(i0, j0))
    requires f == Pwrite(m.file, l2 + 8 * j0, PutBE(e, 8))
    ensures Inv(m.(file := f), own) && |f| == |m.file|
    ensures EntrySet(m.g, m.file, m.l1, f, i0, j0, e)
    ensures SameCounts(m.g, m.file, m.rt, f, m.rt)
  {
    L2StepMap(m.g, m.file, m.l1, own, i0, j0, l2, e, h, f);
    KeptTable(m.file, m.g.l1Off, m.l1, own, L1Table, f, L2Table(i0));
    KeptTable(m.file, m.g.rtOff, m.rt, own, RcTable, f, L2Table(i0));
    KeptCounts(m.g, m.file, m.rt, own, f, L2Table(i0));
  }

  lemma L2StepMap(g: Geometry, f: seq<Byte>, l1: seq<nat>, own: Owners, i0: nat, j0: nat, l2: nat, e: nat, h: nat, f': seq<Byte>)
    requires InFile(f, own) && L2Ok(g, l1, own) && DataOk(g, f, l1, own) && i0 < |l1| && j0 < g.l2n
    requires l2 == L2Off(g, l1, i0) && l2 != 0 && f' == Pwrite(f, l2 + 8 * j0, PutBE(e, 8))
    requires Plain(g, e) && h == Masked(g, e) && Region(own, h, g.cs, Data(i0, j0))
    ensures Kept(own, f, f', L2Table(i0)) && |f'| == |f|
    ensures EntrySet(g, f, l1, f', i0, j0, e) && DataOk(g, f', l1, own)
  {
    assert TableOwned(g, l1, own, i0);
    InsideOwned(own, f, l2, 8 * g.l2n, L2Table(i0), 8 * j0, PutBE(e, 8));
    NewEntries(g, f, l1, own, i0, j0, e, f');
    MovedData(g, f, l1, own, i0, j0, e, f');
  }

  lemma L2Contents(g: Geometry, f: seq<Byte>, l1: seq<nat>, own: Owners, i0: nat, j0: nat, l2: nat, e: nat, f': seq<Byte>)
    requires InFile(f, own) && L2Ok(g, l1, own) && DataOk(g, f, l1, own)
    requires i0 < |l1| && j0 < g.l2n && l2 == L2Off(g, l1, i0) && l2 != 0
    requires Plain(g, e) && Region(own, Masked(g, e), g.cs, Data(i0, j0))
    requires Holds(g, f, l1, i0, j0, Masked(g, e))
    requires f' == Pwrite(f, l2 + 8 * j0, PutBE(e, 8))
    ensures SameContents(g, f, l1, f', l1)
  {
    assert TableOwned(g, l1, own, i0);
    InsideOwned(own, f, l2, 8 * g.l2n, L2Table(i0), 8 * j0, PutBE(e, 8));
    NewEntries(g, f, l1, own, i0, j0, e, f');
    MovedContents(g, f, l1, own, i0, j0, e, f');
  }

  // --------------------------------------------------------------- refcounts

  lemma NewBlockCounts(g: Geometry, f: seq<Byte>, rt: seq<nat>, own: Owners, k0: nat, off: nat, f': seq<Byte>, k: nat)
    requires GeometryOk(g) && g.v2 && BlocksOk(g, rt, own) && Kept(own, f, f', RcTable)
    requires k0 < |rt| && rt[k0] == 0 && Region(own, off, g.cs, RcBlock(k0)) && Slice(f, off, g.cs) == Zeros(g.cs)
    ensures Rc(g, f', rt[k0 := off], k) == Rc(g, f, rt, k)
  {
    var idx := Div(k, g.rbn);
    if idx == k0 {
      KeptSlice(own, f, f', RcTable, off, g.cs, RcBlock(k0));
      BlockFits(g, Mod(k, g.rbn));
      Refcount.GetZeros(g.order, g.cs, Mod(k, g.rbn));
    } else {
      KeptRc(g, f, rt, own, f', RcTable, k);
    }
  }

  lemma FillBlocks(g: Geometry, rt: seq<nat>, own: Owners, k0: nat, off: nat)
    requires BlocksOk(g, rt, own) && k0 < |rt| && Region(own, off, g.cs, RcBlock(k0))
    ensures BlocksOk(g, rt[k0 := off], own)
  {
    var rt' := rt[k0 := off];
    forall k | 0 <= k < |rt'| ensures BlockOwned(g, rt', own, k) {
      assert BlockOwned(g, rt, own, k);
    }
  }

  lemma NewBlockAllCounts(g: Geometry, f: seq<Byte>, rt: seq<nat>, own: Owners, k0: nat, off: nat, f': seq<Byte>, rt': seq<nat>)
    requires GeometryOk(g) && g.v2 && BlocksOk(g, rt, own) && Kept(own, f, f', RcTable)
    requires k0 < |rt| && rt' == rt[k0 := off] && rt[k0] == 0 && Region(own, off, g.cs, RcBlock(k0)) && Slice(f, off, g.cs) == Zeros(g.cs)
    ensures SameCounts(g, f, rt, f', rt')
  {
    forall k: nat ensures Rc(g, f', rt', k) == Rc(g, f, rt, k) {
      NewBlockCounts(g, f, rt, own, k0, off, f', k);
    }
  }

  /** A fresh, zeroed refcount block hung into the refcount table: every count stays. */
  lemma RtStep(m: Image, own: Owners, k0: nat, off: nat, f: seq<Byte>, rt: seq<nat>)
    requires Inv(m, own) && m.g.v2 && k0 < |m.rt| && m.rt[k0] == 0 && off < TWO64
    requires Region(own, off, m.g.cs, RcBlock(k0)) && Slice(m.file, off, m.g.cs) == Zeros(m.g.cs)
    requires f == Pwrite(m.file, m.g.rtOff + 8 * k0, PutBE(off, 8)) && rt == m.rt[k0 := off]
    ensures Inv(m.(file := f, rt := rt), own) && Kept(own, m.file, f, RcTable)
    ensures SameEntries(m.g, m.file, f, m.l1)
    ensures SameContents(m.g, m.file, m.l1, f, m.l1)
    ensures SameCounts(m.g, m.file, m.rt, f, rt)
  {
    TableStep(m.file, m.g.rtOff, m.rt, own, RcTable, k0, off, f);
    KeptTable(m.file, m.g.l1Off, m.l1, own, L1Table, f, RcTable);
    KeptData(m.g, m.file, m.l1, own, f, RcTable);
    KeptContents(m.g, m.file, m.l1, own, f, RcTable);
    FillBlocks(m.g, m.rt, own, k0, off);
    NewBlockAllCounts(m.g, m.file, m.rt, own, k0, off, f, rt);
  }

  /** The counts after host cluster k0 has been given count v. */
  ghost predicate CountSet(g: Geometry, f: seq<Byte>, f': seq<Byte>, rt: seq<nat>, k0: nat, v: nat)
    requires GeometryOk(g) && g.v2
  {
    forall k: nat :: Rc(g, f', rt, k) == if k == k0 then v else Rc(g, f, rt, k)
  }

  lemma NewCount(g: Geometry, f: seq<Byte>, rt: seq<nat>, own: Owners, k0: nat, v: nat, f': seq<Byte>, k: nat)
    requires GeometryOk(g) && g.v2 && BlocksOk(g, rt, own) && v < Refcount.Limit(g.order)
    requires var idx := Div(k0, g.rbn);
             && idx < |rt| && rt[idx] != 0 && Kept(own, f, f', RcBlock(idx))
             && Refcount.Fits(g.order, g.cs, Mod(k0, g.rbn))
             && Slice(f', rt[idx], g.cs) == Refcount.Set(g.order, Slice(f, rt[idx], g.cs), Mod(k0, g.rbn), v)
    ensures Rc(g, f', rt, k) == if k == k0 then v else Rc(g, f, rt, k)
  {
    var idx := Div(k0, g.rbn);
    if Div(k, g.rbn) == idx {
      DivMod(k, g.rbn);
      DivMod(k0, g.rbn);
      BlockFits(g, Mod(k, g.rbn));
      Refcount.GetSet(g.order, Slice(f, rt[idx], g.cs), Mod(k0, g.rbn), Mod(k, g.rbn), v);
    } else {
      KeptRc(g, f, rt, own, f', RcBlock(idx), k);
    }
  }

  lemma NewAllCounts(g: Geometry, f: seq<Byte>, rt: seq<nat>, own: Owners, k0: nat, idx: nat, v: nat, block: seq<Byte>, f': seq<Byte>)
    requires GeometryOk(g) && g.v2 && BlocksOk(g, rt, own) && v < Refcount.Limit(g.order)
    requires idx == Div(k0, g.rbn) && idx < |rt| && rt[idx] != 0 && Kept(own, f, f', RcBlock(idx))
    requires Refcount.Fits(g.order, g.cs, Mod(k0, g.rbn))
    requires block == Refcount.Set(g.order, Slice(f, rt[idx], g.cs), Mod(k0, g.rbn), v) && f' == Pwrite(f, rt[idx], block)
    ensures CountSet(g, f, f', rt, k0, v)
  {
    PwriteSlice(f, rt[idx], block);
    forall k: nat ensures Rc(g, f', rt, k) == if k == k0 then v else Rc(g, f, rt, k) {
      NewCount(g, f, rt, own, k0, v, f', k);
    }
  }

  lemma CountedUsed(g: Geometry, f: seq<Byte>, rt: seq<nat>, ff: nat, own: Owners, k0: nat, v: nat, f': seq<Byte>)
    requires GeometryOk(g) && g.v2 && UsedOk(g, f, rt, ff, own) && CountSet(g, f, f', rt, k0, v)
    requires v != 0 || k0 < Div(ff, g.cs)
    ensures UsedOk(g, f', rt, ff, own)
  {
  }

  /** A refcount block written back with one count changed. */
  lemma RcStep(m: Image, own: Owners, k0: nat, idx: nat, v: nat, block: seq<Byte>, f: seq<Byte>)
    requires Inv(m, own) && m.g.v2 && idx == Div(k0, m.g.rbn) && idx < |m.rt| && m.rt[idx] != 0
    requires v < Refcount.Limit(m.g.order) && Refcount.Fits(m.g.order, m.g.cs, Mod(k0, m.g.rbn))
    requires v != 0 || k0 < Div(m.firstFree, m.g.cs)
    requires block == Refcount.Set(m.g.order, Slice(m.file, m.rt[idx], m.g.cs), Mod(k0, m.g.rbn), v)
    requires f == Pwrite(m.file, m.rt[idx], block)
    ensures Inv(m.(file := f), own) && Kept(own, m.file, f, RcBlock(idx)) && |f| == |m.file|
    ensures SameEntries(m.g, m.file, f, m.l1)
    ensures SameContents(m.g, m.file, m.l1, f, m.l1)
    ensures CountSet(m.g, m.file, f, m.rt, k0, v)
  {
    var t := RcBlock(idx);
    assert BlockOwned(m.g, m.rt, own, idx);
    InsideOwned(own, m.file, m.rt[idx], m.g.cs, t, 0, block);
    NewAllCounts(m.g, m.file, m.rt, own, k0, idx, v, block, f);
    CountedUsed(m.g, m.file, m.rt, m.firstFree, own, k0, v, f);
    KeptTable(m.file, m.g.l1Off, m.l1, own, L1Table, f, t);
    KeptTable(m.file, m.g.rtOff, m.rt, own, RcTable, f, t);
    KeptData(m.g, m.file, m.l1, own, f, t);
    KeptContents(m.g, m.file, m.l1, own, f, t);
  }

  // -------------------------------------------------------------- allocation

  /** A region of free space that later allocations will not hand out again. */
  predicate Reserved(m: Image, own: Owners, off: nat, n: nat)
    requires GeometryOk(m.g)
  {
    && Fresh(own, off, n) && off + n <= |m.file|
    && 0 < off < (if m.g.v2 then BIT62 else BIT63)
    && (m.g.v2 ==>
          && off % 2 == 0 && Mod(off, m.g.cs) == 0 && Div(off, m.g.rcSpan) < |m.rt|
          && forall x :: off <= x < off + n ==> Div(x, m.g.cs) < Div(m.firstFree, m.g.cs))
  }

  /** A cluster at or above first_free_cluster with count zero is used by nobody. */
  lemma UncountedIsFresh(g: Geometry, f: seq<Byte>, rt: seq<nat>, ff: nat, own: Owners, k: nat, c: nat)
    requires GeometryOk(g) && g.v2 && UsedOk(g, f, rt, ff, own) && c == k * g.cs
    requires Div(ff, g.cs) <= k && Rc(g, f, rt, k) == 0
    ensures Fresh(own, c, g.cs)
  {
    forall x | c <= x < c + g.cs ensures !Used(own, x) {
      DivUnique(x, g.cs, k, x - c);
    }
    assert forall x :: c <= x < c + g.cs ==> (x in own ==> Used(own, x));
  }

  lemma BelowLimit(c: nat, span: nat, n: nat, most: nat, limit: nat)
    requires span > 0 && Div(c, span) < n <= most && most * span <= limit
    ensures c < limit
  {
    DivBound(c, span, n);
    MulMono(n, most, span);
  }

  lemma PowerEven(bits: nat)
    requires bits > 0
    ensures Pow2(bits) % 2 == 0
  {
    assert Pow2(bits) == 2 * Pow2(bits - 1);
  }

  lemma ClusterEven(bits: nat, cs: nat, k: nat, c: nat)
    requires bits > 0 && cs == Pow2(bits) && c == k * cs
    ensures c % 2 == 0
  {
    PowerEven(bits);
    EvenMul(k, cs, c);
  }

  lemma ClusterBounds(g: Geometry, k: nat, c: nat, n: nat)
    requires GeometryOk(g) && g.v2 && c == k * g.cs && Div(c, g.rcSpan) < n && n <= g.rtn
    ensures c < BIT62 && c % 2 == 0
  {
    BelowLimit(c, g.rcSpan, n, g.rtn, BIT62);
    ClusterEven(g.clusterBits, g.cs, k, c);
  }

  lemma ClusterDivs(cs: nat, k: nat, c: nat)
    requires cs > 0 && c == k * cs
    ensures Div(c + cs, cs) == k + 1 && Mod(c + cs, cs) == 0
    ensures forall x {:trigger Div(x, cs)} :: c <= x < c + cs ==> Div(x, cs) == k
  {
    Distribute(k, 1, cs);
    DivUnique(c + cs, cs, k + 1, 0);
    forall x | c <= x < c + cs ensures Div(x, cs) == k {
      DivUnique(x, cs, k, x - c);
    }
  }

  lemma AllocStep(m: Image, own: Owners, k: nat, c: nat, f: seq<Byte>, ff: nat)
    requires Inv(m, own) && m.g.v2 && c == k * m.g.cs && Div(m.firstFree, m.g.cs) <= k && m.firstFree <= c
    requires Rc(m.g, m.file, m.rt, k) == 0 && Div(c, m.g.rcSpan) < |m.rt|
    requires f == ZeroRange(m.file, c, m.g.cs) && ff == c + m.g.cs
    ensures Untouched(own, m.file, f)
    ensures Inv(m.(file := f, firstFree := ff), own)
    ensures Reserved(m.(file := f, firstFree := ff), own, c, m.g.cs)
    ensures Slice(f, c, m.g.cs) == Zeros(m.g.cs)
  {
    UncountedIsFresh(m.g, m.file, m.rt, m.firstFree, own, k, c);
    FreeSpaceStep(m, own, f);
    ClusterDivs(m.g.cs, k, c);
    DivUnique(c, m.g.cs, k, 0);
    RaiseFirstFree(m.(file := f), own, ff);
    ClusterBounds(m.g, k, c, |m.rt|);
    assert 0 in own;
  }

  /** qcow1: the end of the file, rounded up, is past everything in use. */
  lemma EndStep(m: Image, own: Owners, off: nat, n: nat, f: seq<Byte>)
    requires Inv(m, own) && !m.g.v2 && |m.file| <= off && off + n < BIT63 && f == Grow(m.file, off + n)
    ensures Untouched(own, m.file, f)
    ensures Inv(m.(file := f), own)
    ensures n > 0 ==> Reserved(m.(file := f), own, off, n)
    ensures Slice(f, off, n) == Zeros(n)
  {
    assert 0 in own;
    FreeSpaceStep(m, own, f);
  }
}
