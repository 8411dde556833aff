/** Opening a qcow image: the geometry that qcow_image_open and qcow2_image_open compute from
    the header, and blank images to which the rest of the model applies. */
module QcowOpen {
  import opened Arith
  import opened Bytes
  import opened QcowImage
  import Refcount

  const QCOW_MAGIC: nat := 0x514649fb

  /** The size of each version's header. */
  const HEADER1: nat := 48
  const HEADER2: nat := 104

  /** The header fields that are used, in host byte order. */
  datatype Fields = Fields(
    magic: nat, version: nat, clusterBits: nat, l2Bits: nat, size: nat, crypt: nat,
    l1Size: nat, l1Off: nat, rtOff: nat, rtClusters: nat, order: nat)

  datatype Opened = Refused | Opened(g: Geometry)

  /** What both open functions check once the header is valid: the configured size and block
      size, and that the L1 table's size is an int. */
  predicate SizeOk(h: Fields, size: nat, blockSize: nat, l2Span: nat)
    requires l2Span > 0
  {
    && size == h.size && blockSize == 512
    && h.size <= TWO64 - 1 - l2Span
    && Div(h.size + l2Span - 1, l2Span) <= INT_MAX / 8
    && h.size % 512 == 0
  }

  /** qcow_image_open */
  function Open1(h: Fields, size: nat, blockSize: nat): (r: Opened)
    ensures r.Opened? ==> GeometryOk(r.g) && !r.g.v2 && r.g.size == size
  {
    if h.magic != QCOW_MAGIC || h.version != 1 || h.clusterBits < 9 || h.clusterBits > 16
       || h.l2Bits < 6 || h.l2Bits > 13 || h.crypt != 0 then Refused
    else
      var cs, l2n := Pow2(h.clusterBits), Pow2(h.l2Bits);
      Power512(h.clusterBits);
      MulGe(cs, l2n);
      if !SizeOk(h, size, blockSize, cs * l2n) then Refused
      else Opened(Geometry(false, size, h.clusterBits, cs, h.l2Bits, l2n, cs * l2n, HEADER1,
                           h.l1Off, Div(size + cs * l2n - 1, cs * l2n), 0, 0, 0, 0, 0))
  }

  function Times(a: nat, b: nat): nat {
    a * b
  }

  /** The geometry of a version 2 image. */
  function Geometry2(h: Fields): Geometry
    requires 9 <= h.clusterBits <= 16
  {
    var cs, l2n := Pow2(h.clusterBits), Pow2(h.clusterBits - 3);
    var rbn := if h.order <= 6 then Pow2(h.clusterBits + 3 - h.order) else 1;
    Geometry(true, h.size, h.clusterBits, cs, h.clusterBits - 3, l2n, Times(cs, l2n), HEADER2,
             h.l1Off, h.l1Size, h.rtOff, Times(h.rtClusters, l2n), h.order, rbn, Times(cs, rbn))
  }

  lemma Geometry2Spans(h: Fields)
    requires 9 <= h.clusterBits <= 16
    ensures var g := Geometry2(h);
            g.cs >= 512 && g.cs == 8 * g.l2n && g.l2Span > 0 && g.rcSpan > 0
  {
    var g := Geometry2(h);
    Power512(h.clusterBits);
    PowerEighth(h.clusterBits);
    MulGe(g.cs, g.l2n);
    MulGe(g.cs, g.rbn);
  }

  /** qcow2_image_open */
  function Open2(h: Fields, size: nat, blockSize: nat): (r: Opened)
    ensures r.Opened? ==> r.g.v2 && r.g.size == size && r.g.l1n == h.l1Size
    ensures r.Opened? ==> r.g.l2Span > 0 && size <= r.g.l1n * r.g.l2Span < size + r.g.l2Span && r.g.l1n <= INT_MAX / 8
  {
    if h.magic != QCOW_MAGIC || h.version < 2 || h.clusterBits < 9 || h.clusterBits > 16 || h.crypt != 0 then Refused
    else
      Geometry2Spans(h);
      var g := Geometry2(h);
      if !SizeOk(h, size, blockSize, g.l2Span) || h.l1Size != Div(size + g.l2Span - 1, g.l2Span) then Refused
      else
        RoundUpBounds(size, g.l2Span);
        Opened(g)
  }

  /** The code takes any refcount order and any table size; the model of the counts is for
      orders up to 6, which are all the code can count with, and tables that count clusters
      below the flag bits. */
  lemma Open2Geometry(h: Fields, size: nat, blockSize: nat)
    requires Open2(h, size, blockSize).Opened? && h.order <= 6
    ensures var g := Open2(h, size, blockSize).g;
            g.rtn * g.rcSpan <= BIT62 ==> GeometryOk(g)
  {
    Geometry2Spans(h);
  }

  lemma {:induction false} Power512(a: nat)
    requires a >= 9
    ensures Pow2(a) >= 512
  {
    if a > 9 {
      Power512(a - 1);
    } else {
      assert Pow2(9) == 512;
    }
  }

  lemma {:induction false} Power65536(a: nat)
    requires a <= 16
    ensures Pow2(a) <= 65536
    decreases 16 - a
  {
    if a < 16 {
      Power65536(a + 1);
    } else {
      assert Pow2(8) == 256 && Pow2(16) == 256 * Pow2(8);
    }
  }

  lemma PowerEighth(bits: nat)
    requires bits >= 3
    ensures Pow2(bits) == 8 * Pow2(bits - 3)
  {
    assert Pow2(bits) == 2 * Pow2(bits - 1) && Pow2(bits - 1) == 2 * Pow2(bits - 2) && Pow2(bits - 2) == 2 * Pow2(bits - 3);
  }

  // ---- Blank images --------------------------------------------------------------------------

  lemma EntryZero(f: seq<Byte>, off: nat)
    requires forall p :: off <= p < off + 8 ==> ByteAt(f, p) == 0
    ensures Entry(f, off) == 0
  {
    assert Slice(f, off, 8) == Zeros(8);
    GetBEZeros(8);
  }

  function NoTables(n: nat): (t: seq<nat>)
    ensures |t| == n && forall i :: 0 <= i < n ==> t[i] == 0
  {
    seq(n, _ => 0)
  }

  /** Without L2 tables nothing is mapped and the disk is all zeros. */
  lemma Unmapped(g: Geometry, f: seq<Byte>, rt: seq<nat>, ff: nat, own: Owners)
    requires GeometryOk(g)
    ensures L2Ok(g, NoTables(g.l1n), own) && DataOk(g, f, NoTables(g.l1n), own)
    ensures Disk(Image(g, f, NoTables(g.l1n), rt, ff)) == Zeros(g.size)
  {
    var l1 := NoTables(g.l1n);
    var d := Disk(Image(g, f, l1, rt, ff));
    forall x | 0 <= x < g.size ensures d[x] == 0 {
      L1IndexInRange(g, x);
    }
  }

  /** Who owns byte x of a blank version 1 image, if anyone. */
  predicate InUse1(g: Geometry, x: nat) {
    x < g.headerLen || g.l1Off <= x < g.l1Off + 8 * g.l1n
  }

  function BlankOwners1(g: Geometry): (own: Owners) {
    map x: nat | x < g.headerLen + g.l1Off + 8 * g.l1n && InUse1(g, x) :: if x < g.headerLen then Header else L1Table
  }

  /** A version 1 image with an L1 table behind the header and nothing else is an image of
      zeros that meets the invariant. */
  lemma Blank1(g: Geometry)
    requires GeometryOk(g) && !g.v2 && g.headerLen <= g.l1Off
    ensures var m := Image(g, Zeros(g.l1Off + 8 * g.l1n), NoTables(g.l1n), [], 0);
            Inv(m, BlankOwners1(g)) && Disk(m) == Zeros(g.size)
  {
    var f, own, l1 := Zeros(g.l1Off + 8 * g.l1n), BlankOwners1(g), NoTables(g.l1n);
    Unmapped(g, f, [], 0, own);
    forall i | 0 <= i < |l1| ensures EntryAgrees(f, g.l1Off, l1, i) {
      EntryZero(f, g.l1Off + 8 * i);
    }
  }

  /** A refcount block in which the first n clusters are counted once. */
  function FirstCounted(g: Geometry, n: nat): (b: seq<Byte>)
    requires GeometryOk(g) && g.v2 && n <= g.rbn
    ensures |b| == g.cs
  {
    if n == 0 then Zeros(g.cs)
    else
      BlockFits(g, n - 1);
      Refcount.Set(g.order, FirstCounted(g, n - 1), n - 1, 1)
  }

  lemma {:induction false} FirstCountedGet(g: Geometry, n: nat, k: nat)
    requires GeometryOk(g) && g.v2 && n <= g.rbn && k < g.rbn
    ensures Refcount.Fits(g.order, g.cs, k)
    ensures Refcount.Get(g.order, FirstCounted(g, n), k) == if k < n then 1 else 0
  {
    BlockFits(g, k);
    if n == 0 {
      Refcount.GetZeros(g.order, g.cs, k);
    } else {
      FirstCountedGet(g, n - 1, k);
      BlockFits(g, n - 1);
      Refcount.GetSet(g.order, FirstCounted(g, n - 1), n - 1, k, 1);
    }
  }

  /** The layout of a blank version 2 image: header, refcount table, one refcount block and
      the L1 table, a cluster each. */
  predicate Layout2(g: Geometry) {
    && g.v2 && g.headerLen <= g.cs && g.rtOff == g.cs && 0 < g.rtn && 8 * g.rtn <= g.cs
    && g.l1Off == 3 * g.cs && 8 * g.l1n <= g.cs && 4 <= g.rbn
  }

  predicate InUse2(g: Geometry, x: nat) {
    || x < g.headerLen || g.cs <= x < g.cs + 8 * g.rtn || 2 * g.cs <= x < 3 * g.cs
    || 3 * g.cs <= x < 3 * g.cs + 8 * g.l1n
  }

  function BlankOwners2(g: Geometry): (own: Owners) {
    map x: nat | x < 4 * g.cs && InUse2(g, x) ::
      if x < g.cs then Header else if x < 2 * g.cs then RcTable else if x < 3 * g.cs then RcBlock(0) else L1Table
  }

  function BlankFile2(g: Geometry): seq<Byte>
    requires GeometryOk(g) && Layout2(g)
  {
    Pwrite(Pwrite(Zeros(4 * g.cs), g.cs, PutBE(2 * g.cs, 8)), 2 * g.cs, FirstCounted(g, 4))
  }

  function BlankTable2(g: Geometry): (rt: seq<nat>)
    requires 0 < g.rtn
    ensures |rt| == g.rtn
  {
    NoTables(g.rtn)[0 := 2 * g.cs]
  }

  lemma BlankEntry(g: Geometry, i: nat)
    requires GeometryOk(g) && Layout2(g) && i < g.rtn
    ensures Entry(BlankFile2(g), g.cs + 8 * i) == if i == 0 then 2 * g.cs else 0
  {
    var f1 := Pwrite(Zeros(4 * g.cs), g.cs, PutBE(2 * g.cs, 8));
    SliceFrame(BlankFile2(g), f1, g.cs + 8 * i, 8);
    if i == 0 {
      Power65536(g.clusterBits);
      PwriteEntry(Zeros(4 * g.cs), g.cs, 2 * g.cs);
    } else {
      EntryZero(f1, g.cs + 8 * i);
    }
  }

  lemma BlankRefTable(g: Geometry, f: seq<Byte>)
    requires GeometryOk(g) && Layout2(g)
    requires forall i :: 0 <= i < g.rtn ==> Entry(f, g.cs + 8 * i) == if i == 0 then 2 * g.cs else 0
    ensures TableOk(f, g.rtOff, BlankTable2(g), BlankOwners2(g), RcTable)
  {
    var rt := BlankTable2(g);
    forall i | 0 <= i < |rt| ensures EntryAgrees(f, g.rtOff, rt, i) {
      assert Entry(f, g.cs + 8 * i) == rt[i];
    }
  }

  lemma BlankL1(g: Geometry)
    requires GeometryOk(g) && Layout2(g)
    ensures TableOk(BlankFile2(g), g.l1Off, NoTables(g.l1n), BlankOwners2(g), L1Table)
  {
    var f, l1 := BlankFile2(g), NoTables(g.l1n);
    forall i | 0 <= i < |l1| ensures EntryAgrees(f, g.l1Off, l1, i) {
      EntryZero(f, g.l1Off + 8 * i);
    }
  }

  lemma BlankCounts(g: Geometry)
    requires GeometryOk(g) && Layout2(g)
    ensures UsedOk(g, BlankFile2(g), BlankTable2(g), 0, BlankOwners2(g))
  {
    var f, rt, own := BlankFile2(g), BlankTable2(g), BlankOwners2(g);
    PwriteSlice(Pwrite(Zeros(4 * g.cs), g.cs, PutBE(2 * g.cs, 8)), 2 * g.cs, FirstCounted(g, 4));
    forall x: nat | Used(own, x) ensures Rc(g, f, rt, Div(x, g.cs)) > 0 {
      DivLess(x, g.cs, 4);
      DivMod(Div(x, g.cs), g.rbn);
      DivUnique(Div(x, g.cs), g.rbn, 0, Div(x, g.cs));
      FirstCountedGet(g, 4, Div(x, g.cs));
    }
  }

  /** A version 2 image laid out so is an image of zeros that meets the invariant, with every
      cluster in use counted once. */
  lemma Blank2(g: Geometry)
    requires GeometryOk(g) && Layout2(g)
    ensures var m := Image(g, BlankFile2(g), NoTables(g.l1n), BlankTable2(g), 0);
            Inv(m, BlankOwners2(g)) && Disk(m) == Zeros(g.size)
  {
    Unmapped(g, BlankFile2(g), BlankTable2(g), 0, BlankOwners2(g));
    forall i | 0 <= i < g.rtn ensures Entry(BlankFile2(g), g.cs + 8 * i) == if i == 0 then 2 * g.cs else 0 {
      BlankEntry(g, i);
    }
    BlankRefTable(g, BlankFile2(g));
    BlankL1(g);
    BlankCounts(g);
  }
}
