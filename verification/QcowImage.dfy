/** What a qcow image file means: the two-level cluster map, the refcount tree,
    the guest disk they denote, and the invariant that keeps the host regions of
    the image apart.  Everything here is a function of the file's bytes and of
    the two tables the driver holds in memory. */
module QcowImage {
  import opened Arith
  import opened Bytes
  import Refcount

  /** QCOW2_OFLAG_COPIED and QCOW_OFLAG_COMPRESSED are both bit 63; QCOW2_OFLAG_COMPRESSED is bit 62. */
  const BIT63: nat := 0x8000_0000_0000_0000
  const BIT62: nat := 0x4000_0000_0000_0000

  /** The fields of struct qcow_state that never change after open.  cs is cluster_size,
      l2n is l2_size, rbn the counts in a refcount block, rtn refcount_table_size;
      l2Span is what one L2 table maps, rcSpan what one refcount block counts, in bytes. */
  datatype Geometry = Geometry(
    v2: bool,
    size: nat,
    clusterBits: nat, cs: nat,
    l2Bits: nat, l2n: nat, l2Span: nat,
    headerLen: nat,
    l1Off: nat, l1n: nat,
    rtOff: nat, rtn: nat,
    order: nat, rbn: nat, rcSpan: nat)

  predicate GeometryOk(g: Geometry) {
    && 9 <= g.clusterBits <= 16 && g.cs == Pow2(g.clusterBits) && g.cs >= 512
    && g.l2n == Pow2(g.l2Bits)
    && g.size % 512 == 0
    && g.l2Span == g.cs * g.l2n && g.l2Span > 0
    && g.l1n == Div(g.size + g.l2Span - 1, g.l2Span)
    && g.headerLen > 0
    && (g.v2 ==>
          && g.cs == 8 * g.l2n
          && g.order <= 6
          && g.rbn == Pow2(g.clusterBits + 3 - g.order)
          && g.rcSpan == g.cs * g.rbn && g.rcSpan > 0
          && g.rtn * g.rcSpan <= BIT62)
  }

  datatype Image = Image(g: Geometry, file: seq<Byte>, l1: seq<nat>, rt: seq<nat>, firstFree: nat)

  /** Who a host byte belongs to.  A data cluster that some other reference may also
      use is Shared; nothing is ever written there. */
  datatype Owner =
    | Header
    | L1Table
    | RcTable
    | RcBlock(idx: nat)
    | L2Table(i: nat)
    | Data(i: nat, j: nat)
    | Shared

  type Owners = map<nat, Owner>

  // ------------------------------------------------------------ table entries

  /** entry & cluster_mask */
  function Masked(g: Geometry, e: nat): nat {
    if g.v2 then e % BIT63 - e % 2 else e % BIT63
  }

  /** entry & ~cluster_copied; version 1 has no such bit */
  function Stripped(g: Geometry, e: nat): nat {
    if g.v2 then e % BIT63 else e
  }

  predicate IsCopied(g: Geometry, e: nat) {
    g.v2 && e / BIT63 % 2 == 1
  }

  predicate IsCompressed(g: Geometry, e: nat) {
    if g.v2 then e / BIT62 % 2 == 1 else e / BIT63 % 2 == 1
  }

  /** offset | cluster_copied, for an offset below the flag bits */
  function Tagged(g: Geometry, off: nat): nat {
    if g.v2 then off + BIT63 else off
  }

  /** A standard cluster: neither compressed nor flagged as reading zero. */
  predicate Plain(g: Geometry, e: nat) {
    && e < TWO64
    && !IsCompressed(g, e)
    && (g.v2 ==> e % 2 == 0)
    && Masked(g, e) != 0
  }

  lemma TaggedPlain(g: Geometry, off: nat)
    requires 0 < off < if g.v2 then BIT62 else BIT63
    requires g.v2 ==> off % 2 == 0
    ensures Plain(g, Tagged(g, off))
    ensures Masked(g, Tagged(g, off)) == Stripped(g, Tagged(g, off)) == off
    ensures g.v2 ==> IsCopied(g, Tagged(g, off))
  {
  }

  lemma PlainStripped(g: Geometry, e: nat)
    requires Plain(g, e)
    ensures Masked(g, e) == Stripped(g, e) == (if IsCopied(g, e) then e - BIT63 else e)
  {
  }

  // -------------------------------------------------------------- cluster map

  function L2Off(g: Geometry, l1: seq<nat>, i: nat): nat
    requires i < |l1|
  {
    Masked(g, l1[i])
  }

  /** The entry for guest cluster (i, j), zero when there is no L2 table. */
  function L2Entry(g: Geometry, f: seq<Byte>, l1: seq<nat>, i: nat, j: nat): nat
    requires i < |l1|
  {
    if L2Off(g, l1, i) == 0 then 0 else Entry(f, L2Off(g, l1, i) + 8 * j)
  }

  /** Host offset of guest cluster (i, j), zero when it is not allocated. */
  function Host(g: Geometry, f: seq<Byte>, l1: seq<nat>, i: nat, j: nat): nat
    requires i < |l1|
  {
    Masked(g, L2Entry(g, f, l1, i, j))
  }

  function ClusterByte(g: Geometry, f: seq<Byte>, l1: seq<nat>, i: nat, j: nat, r: nat): Byte
    requires i < |l1|
  {
    var h := Host(g, f, l1, i, j);
    if h == 0 then 0 else ByteAt(f, h + r)
  }

  function L1Index(g: Geometry, x: nat): nat
    requires GeometryOk(g)
  {
    Div(x, g.l2Span)
  }

  function L2Index(g: Geometry, x: nat): (j: nat)
    requires GeometryOk(g)
    ensures j < g.l2n
  {
    Mod(Div(x, g.cs), g.l2n)
  }

  /** The bound the open code computes is enough for every offset of the disk. */
  lemma L1IndexInRange(g: Geometry, x: nat)
    requires GeometryOk(g) && x < g.size
    ensures L1Index(g, x) < g.l1n
  {
    DivMod(g.size + g.l2Span - 1, g.l2Span);
    Distribute(g.l1n, 1, g.l2Span);
    DivLess(x, g.l2Span, g.l1n);
  }

  function GuestByte(m: Image, x: nat): Byte
    requires GeometryOk(m.g) && L1Index(m.g, x) < |m.l1|
  {
    ClusterByte(m.g, m.file, m.l1, L1Index(m.g, x), L2Index(m.g, x), Mod(x, m.g.cs))
  }

  /** The guest disk the image denotes. */
  function Disk(m: Image): (d: seq<Byte>)
    requires GeometryOk(m.g) && |m.l1| == m.g.l1n
    ensures |d| == m.g.size
  {
    seq<Byte>(m.g.size, x requires 0 <= x < m.g.size => L1IndexInRange(m.g, x); GuestByte(m, x))
  }

  // ---------------------------------------------------------------- refcounts

  lemma CountFits(b: nat, order: nat, index: nat)
    requires b >= 3 && order <= 6 && index < Pow2(b + 3 - order)
    ensures Refcount.Fits(order, Pow2(b), index)
  {
    match order {
      case 0 => assert Pow2(b + 3) == 4 * Pow2(b + 1) == 8 * Pow2(b);
      case 1 => assert Pow2(b + 2) == 4 * Pow2(b);
      case 2 => assert Pow2(b + 1) == 2 * Pow2(b);
      case 3 =>
      case 4 => assert Pow2(b) == 2 * Pow2(b - 1);
      case 5 => assert Pow2(b) == 4 * Pow2(b - 2);
      case 6 => assert Pow2(b) == 4 * Pow2(b - 2) == 8 * Pow2(b - 3);
    }
  }

  lemma BlockFits(g: Geometry, index: nat)
    requires GeometryOk(g) && g.v2 && index < g.rbn
    ensures Refcount.Fits(g.order, g.cs, index)
  {
    CountFits(g.clusterBits, g.order, index);
  }

  /** The reference count of host cluster k; zero where there is no refcount block. */
  function Rc(g: Geometry, f: seq<Byte>, rt: seq<nat>, k: nat): nat
    requires GeometryOk(g) && g.v2
  {
    var idx := Div(k, g.rbn);
    if idx >= |rt| || rt[idx] == 0 then 0
    else
      BlockFits(g, Mod(k, g.rbn));
      Refcount.Get(g.order, Slice(f, rt[idx], g.cs), Mod(k, g.rbn))
  }

  // ---------------------------------------------------------------- invariant

  predicate Region(own: Owners, off: nat, n: nat, o: Owner) {
    forall x :: off <= x < off + n ==> x in own && own[x] == o
  }

  predicate Fresh(own: Owners, off: nat, n: nat) {
    forall x :: off <= x < off + n ==> x !in own
  }

  predicate InFile(f: seq<Byte>, own: Owners) {
    forall x :: x in own ==> x < |f|
  }

  // The quantified bodies below are named so that each fact is used only where it is asked for.

  predicate EntryAgrees(f: seq<Byte>, off: nat, table: seq<nat>, i: nat)
    requires i < |table|
  {
    table[i] == Entry(f, off + 8 * i)
  }

  /** An in-memory table equals the one in the file at off. */
  predicate TableOk(f: seq<Byte>, off: nat, table: seq<nat>, own: Owners, o: Owner) {
    && Region(own, off, 8 * |table|, o)
    && forall i :: 0 <= i < |table| ==> EntryAgrees(f, off, table, i)
  }

  predicate BlockOwned(g: Geometry, rt: seq<nat>, own: Owners, k: nat)
    requires k < |rt|
  {
    rt[k] != 0 ==> Region(own, rt[k], g.cs, RcBlock(k))
  }

  predicate BlocksOk(g: Geometry, rt: seq<nat>, own: Owners) {
    forall k :: 0 <= k < |rt| ==> BlockOwned(g, rt, own, k)
  }

  predicate TableOwned(g: Geometry, l1: seq<nat>, own: Owners, i: nat)
    requires i < |l1|
  {
    L2Off(g, l1, i) != 0 ==> Region(own, L2Off(g, l1, i), 8 * g.l2n, L2Table(i))
  }

  predicate L2Ok(g: Geometry, l1: seq<nat>, own: Owners) {
    forall i :: 0 <= i < |l1| ==> TableOwned(g, l1, own, i)
  }

  /** An allocated guest cluster is a standard cluster; its host cluster is its own,
      or, when the COPIED bit is clear, possibly shared. */
  predicate EntryOk(g: Geometry, e: nat, own: Owners, i: nat, j: nat) {
    e != 0 ==>
      && Plain(g, e)
      && (|| Region(own, Masked(g, e), g.cs, Data(i, j))
          || (!IsCopied(g, e) && Region(own, Masked(g, e), g.cs, Shared)))
  }

  predicate ClusterOk(g: Geometry, f: seq<Byte>, l1: seq<nat>, own: Owners, i: nat, j: nat)
    requires i < |l1|
  {
    EntryOk(g, L2Entry(g, f, l1, i, j), own, i, j)
  }

  predicate DataOk(g: Geometry, f: seq<Byte>, l1: seq<nat>, own: Owners) {
    forall i, j :: 0 <= i < |l1| && 0 <= j < g.l2n ==> ClusterOk(g, f, l1, own, i, j)
  }

  predicate Used(own: Owners, x: nat) {
    x in own
  }

  /** Every host cluster in use is counted, or lies below first_free_cluster. */
  ghost predicate UsedOk(g: Geometry, f: seq<Byte>, rt: seq<nat>, firstFree: nat, own: Owners)
    requires GeometryOk(g) && g.v2
  {
    && Mod(firstFree, g.cs) == 0
    && forall x: nat {:trigger Used(own, x)} :: Used(own, x) ==> Div(x, g.cs) < Div(firstFree, g.cs) || Rc(g, f, rt, Div(x, g.cs)) > 0
  }

  ghost predicate Inv(m: Image, own: Owners) {
    && GeometryOk(m.g)
    && |m.l1| == m.g.l1n
    && |m.rt| == (if m.g.v2 then m.g.rtn else 0)
    && InFile(m.file, own)
    && Region(own, 0, m.g.headerLen, Header)
    && TableOk(m.file, m.g.l1Off, m.l1, own, L1Table)
    && TableOk(m.file, m.g.rtOff, m.rt, own, RcTable)
    && BlocksOk(m.g, m.rt, own)
    && L2Ok(m.g, m.l1, own)
    && DataOk(m.g, m.file, m.l1, own)
    && (m.g.v2 ==> UsedOk(m.g, m.file, m.rt, m.firstFree, own))
  }
}
