/** The qcow block mapper (qcow.c): caches, allocator, refcount setter, cluster
    lookup with copy-on-write, and vectored reads and writes. */
module Qcow {
  import opened Arith
  import opened Bytes
  import opened QcowImage
  import opened QcowSteps
  import opened QcowCounts
  import opened QcowDisk
  import opened Iovec
  import opened TableCache
  import Refcount

  /** Each cached L2 table is one the L1 table refers to. */
  predicate L2Cached(g: Geometry, l1: seq<nat>, offsets: seq<nat>) {
    forall s :: 0 <= s < |offsets| && offsets[s] != 0 ==> exists i :: 0 <= i < |l1| && L2Off(g, l1, i) == offsets[s]
  }

  /** Each cached refcount block is one the refcount table refers to. */
  predicate RcCached(rt: seq<nat>, offsets: seq<nat>) {
    forall s :: 0 <= s < |offsets| && offsets[s] != 0 ==> offsets[s] in rt
  }

  lemma L2CacheKept(g: Geometry, l1: seq<nat>, own: Owners, f: seq<Byte>, f': seq<Byte>, t: Owner, len: nat,
                    offsets: seq<nat>, tables: seq<seq<Byte>>)
    requires L2Ok(g, l1, own) && L2Cached(g, l1, offsets) && Kept(own, f, f', t) && !t.L2Table?
    requires len == 8 * g.l2n && Coherent(f, len, offsets, tables)
    ensures Coherent(f', len, offsets, tables)
  {
    forall s | 0 <= s < |offsets| && offsets[s] != 0
      ensures Slice(f', offsets[s], len) == Slice(f, offsets[s], len)
    {
      var i :| 0 <= i < |l1| && L2Off(g, l1, i) == offsets[s];
      assert TableOwned(g, l1, own, i);
      KeptSlice(own, f, f', t, offsets[s], len, L2Table(i));
    }
    CoherentFrame(f, f', len, offsets, tables);
  }

  lemma RcCacheKept(g: Geometry, rt: seq<nat>, own: Owners, f: seq<Byte>, f': seq<Byte>, t: Owner,
                    offsets: seq<nat>, tables: seq<seq<Byte>>)
    requires BlocksOk(g, rt, own) && RcCached(rt, offsets) && Kept(own, f, f', t) && !t.RcBlock?
    requires Coherent(f, g.cs, offsets, tables)
    ensures Coherent(f', g.cs, offsets, tables)
  {
    forall s | 0 <= s < |offsets| && offsets[s] != 0
      ensures Slice(f', offsets[s], g.cs) == Slice(f, offsets[s], g.cs)
    {
      var k :| 0 <= k < |rt| && rt[k] == offsets[s];
      assert BlockOwned(g, rt, own, k);
      KeptSlice(own, f, f', t, offsets[s], g.cs, RcBlock(k));
    }
    CoherentFrame(f, f', g.cs, offsets, tables);
  }

  /** pread of a whole table, each entry through be64toh */
  function ReadTable(f: seq<Byte>, off: nat, n: nat): (t: seq<nat>)
    ensures |t| == n && forall i :: 0 <= i < n ==> t[i] == Entry(f, off + 8 * i)
  {
    seq(n, i requires 0 <= i => Entry(f, off + 8 * i))
  }

  /** The image that opening a file gives. */
  function Opened(g: Geometry, file: seq<Byte>): Image {
    Image(g, file, ReadTable(file, g.l1Off, g.l1n), ReadTable(file, g.rtOff, if g.v2 then g.rtn else 0), 0)
  }

  /** Both caches, as values. */
  datatype Caches = Caches(l2o: seq<nat>, l2t: seq<seq<Byte>>, rco: seq<nat>, rct: seq<seq<Byte>>)

  predicate CachesOk(g: Geometry, f: seq<Byte>, l1: seq<nat>, rt: seq<nat>, c: Caches) {
    && Coherent(f, 8 * g.l2n, c.l2o, c.l2t) && L2Cached(g, l1, c.l2o)
    && Coherent(f, g.cs, c.rco, c.rct) && RcCached(rt, c.rco)
  }

  /** A write that is confined to one owner, and to no cached table, leaves both caches in step. */
  lemma CachesKept(g: Geometry, f: seq<Byte>, l1: seq<nat>, rt: seq<nat>, c: Caches, own: Owners, f': seq<Byte>, t: Owner)
    requires CachesOk(g, f, l1, rt, c) && L2Ok(g, l1, own) && BlocksOk(g, rt, own)
    requires Kept(own, f, f', t) && !t.L2Table? && !t.RcBlock?
    ensures CachesOk(g, f', l1, rt, c)
  {
    L2CacheKept(g, l1, own, f, f', t, 8 * g.l2n, c.l2o, c.l2t);
    RcCacheKept(g, rt, own, f, f', t, c.rco, c.rct);
  }

  lemma RegionInFile(f: seq<Byte>, own: Owners, off: nat, n: nat, o: Owner)
    requires InFile(f, own) && Region(own, off, n, o) && n > 0
    ensures off + n <= |f|
  {
    assert off + n - 1 in own;
  }

  predicate Extends(own: Owners, own': Owners) {
    forall x :: x in own ==> x in own' && own'[x] == own[x]
  }

  /** Only refcount metadata and free space differ. */
  predicate RcOnly(own: Owners, f: seq<Byte>, f': seq<Byte>) {
    && |f| <= |f'|
    && forall x :: x in own && !own[x].RcTable? && !own[x].RcBlock? ==> ByteAt(f', x) == ByteAt(f, x)
  }

  lemma RcOnlyTrans(own: Owners, f: seq<Byte>, own': Owners, f': seq<Byte>, f'': seq<Byte>)
    requires RcOnly(own, f, f') && Extends(own, own') && RcOnly(own', f', f'')
    ensures RcOnly(own, f, f'')
  {
  }

  lemma ScanStep(g: Geometry, f: seq<Byte>, rt: seq<nat>, lo: nat, cluster: nat)
    requires GeometryOk(g) && g.v2 && Mod(cluster, g.cs) == 0 && Div(cluster, g.rcSpan) < |rt|
    requires Counted(g, f, rt, lo, Div(cluster, g.cs)) && Rc(g, f, rt, Div(cluster, g.cs)) > 0
    ensures Mod(cluster + g.cs, g.cs) == 0 && Counted(g, f, rt, lo, Div(cluster + g.cs, g.cs))
    ensures cluster < |rt| * g.rcSpan
  {
    DivBound(cluster, g.rcSpan, |rt|);
    DivMod(cluster, g.cs);
    ClusterDivs(g.cs, Div(cluster, g.cs), cluster);
  }

  lemma NothingFree(m: Image, cluster: nat)
    requires GeometryOk(m.g) && m.g.v2 && Div(cluster, m.g.rcSpan) >= |m.rt|
    requires Counted(m.g, m.file, m.rt, Div(m.firstFree, m.g.cs), Div(cluster, m.g.cs))
    ensures NoFreeCluster(m)
  {
    DivDiv(cluster, m.g.cs, m.g.rbn, m.g.rcSpan);
    DivMod(Div(cluster, m.g.cs), m.g.rbn);
    MulMono(|m.rt|, Div(cluster, m.g.rcSpan), m.g.rbn);
  }

  lemma InstallBlockCaches(g: Geometry, f: seq<Byte>, l1: seq<nat>, rt: seq<nat>, c: Caches, own: Owners, f': seq<Byte>, k0: nat, off: nat)
    requires CachesOk(g, f, l1, rt, c) && L2Ok(g, l1, own) && BlocksOk(g, rt, own) && Kept(own, f, f', RcTable)
    requires k0 < |rt| && rt[k0] == 0
    ensures CachesOk(g, f', l1, rt[k0 := off], c)
  {
    CachesKept(g, f, l1, rt, c, own, f', RcTable);
    forall s | 0 <= s < |c.rco| && c.rco[s] != 0 ensures c.rco[s] in rt[k0 := off] {
      var k :| 0 <= k < |rt| && rt[k] == c.rco[s];
      assert rt[k0 := off][k] == c.rco[s];
    }
  }

  /** rc_table_update with a fresh, zeroed block: no count and no guest byte changes. */
  lemma InstallBlock(g: Geometry, f: seq<Byte>, l1: seq<nat>, rt: seq<nat>, ff: nat, own: Owners, c: Caches,
                     k0: nat, off: nat, f': seq<Byte>, rt': seq<nat>) returns (own': Owners)
    requires Inv(Image(g, f, l1, rt, ff), own) && g.v2 && k0 < |rt| && rt[k0] == 0 && CachesOk(g, f, l1, rt, c)
    requires Reserved(Image(g, f, l1, rt, ff), own, off, g.cs) && Slice(f, off, g.cs) == Zeros(g.cs)
    requires rt' == rt[k0 := off] && f' == Pwrite(f, g.rtOff + 8 * k0, PutBE(off, 8))
    ensures Inv(Image(g, f', l1, rt', ff), own') && CachesOk(g, f', l1, rt', c)
    ensures Extends(own, own') && RcOnly(own, f, f') && Added(own, own', rt, rt', g.cs)
    ensures SameEntries(g, f, f', l1)
    ensures SameCounts(g, f, rt, f', rt')
    ensures Disk(Image(g, f', l1, rt', ff)) == Disk(Image(g, f, l1, rt, ff))
  {
    var m := Image(g, f, l1, rt, ff);
    own' := Claim(own, off, g.cs, RcBlock(k0));
    ClaimInv(m, own, off, g.cs, RcBlock(k0));
    AddedBlock(own, rt, k0, off, g.cs, RcBlock(k0));
    RtStep(m, own', k0, off, f', rt');
    SameDisk(m, m.(file := f', rt := rt'));
    InstallBlockCaches(g, f, l1, rt, c, own', f', k0, off);
  }

  /** What allocation and refcounting may do: free space and refcount metadata change,
      ownership only grows, and neither the cluster map nor the guest disk moves. */
  ghost predicate RcMove(m: Image, own: Owners, m': Image, own': Owners)
    requires GeometryOk(m.g) && |m.l1| == m.g.l1n
  {
    && m'.g == m.g && m'.l1 == m.l1 && m.firstFree <= m'.firstFree
    && Extends(own, own') && RcOnly(own, m.file, m'.file)
    && SameEntries(m.g, m.file, m'.file, m.l1)
    && Disk(m') == Disk(m)
  }

  lemma RcMoveTrans(m: Image, own: Owners, m': Image, own': Owners, m'': Image, own'': Owners)
    requires GeometryOk(m.g) && |m.l1| == m.g.l1n
    requires RcMove(m, own, m', own') && RcMove(m', own', m'', own'')
    ensures RcMove(m, own, m'', own'')
  {
    RcOnlyTrans(own, m.file, own', m'.file, m''.file);
  }

  /** Writing one refcount block leaves every other cached block as the file has it. */
  lemma OtherBlocks(g: Geometry, rt: seq<nat>, own: Owners, f: seq<Byte>, f': seq<Byte>, idx: nat, offsets: seq<nat>, slot: nat)
    requires BlocksOk(g, rt, own) && RcCached(rt, offsets) && idx < |rt| && Kept(own, f, f', RcBlock(idx))
    requires slot < |offsets| && offsets[slot] == rt[idx]
    requires forall s, t :: 0 <= s < |offsets| && 0 <= t < |offsets| && offsets[s] != 0 && offsets[s] == offsets[t] ==> s == t
    ensures forall s :: 0 <= s < |offsets| && offsets[s] != 0 && s != slot ==>
              Slice(f', offsets[s], g.cs) == Slice(f, offsets[s], g.cs)
  {
    forall s | 0 <= s < |offsets| && offsets[s] != 0 && s != slot
      ensures Slice(f', offsets[s], g.cs) == Slice(f, offsets[s], g.cs)
    {
      var k :| 0 <= k < |rt| && rt[k] == offsets[s];
      assert BlockOwned(g, rt, own, k);
      KeptSlice(own, f, f', RcBlock(idx), offsets[s], g.cs, RcBlock(k));
    }
  }

  /** A refcount block with one count changed, written back: only that count changes. */
  lemma WriteBlock(g: Geometry, f: seq<Byte>, l1: seq<nat>, rt: seq<nat>, ff: nat, own: Owners, c: Caches,
                   k0: nat, idx: nat, v: nat, block: seq<Byte>, f': seq<Byte>, slot: nat)
    requires Inv(Image(g, f, l1, rt, ff), own) && g.v2 && CachesOk(g, f, l1, rt, c)
    requires idx == Div(k0, g.rbn) && idx < |rt| && rt[idx] != 0 && slot < |c.rco| && c.rco[slot] == rt[idx]
    requires v < Refcount.Limit(g.order) && Refcount.Fits(g.order, g.cs, Mod(k0, g.rbn))
    requires v != 0 || k0 < Div(ff, g.cs)
    requires block == Refcount.Set(g.order, Slice(f, rt[idx], g.cs), Mod(k0, g.rbn), v)
    requires f' == Pwrite(f, rt[idx], block)
    ensures Inv(Image(g, f', l1, rt, ff), own)
    ensures CachesOk(g, f', l1, rt, c.(rct := c.rct[slot := block]))
    ensures CountSet(g, f, f', rt, k0, v)
    ensures RcMove(Image(g, f, l1, rt, ff), own, Image(g, f', l1, rt, ff), own)
  {
    var m := Image(g, f, l1, rt, ff);
    RcStep(m, own, k0, idx, v, block, f');
    SameDisk(m, m.(file := f'));
    L2CacheKept(g, l1, own, f, f', RcBlock(idx), 8 * g.l2n, c.l2o, c.l2t);
    OtherBlocks(g, rt, own, f, f', idx, c.rco, slot);
    CoherentStore(f, g.cs, c.rco, c.rct, slot, 0, block, f');
    assert Splice(c.rct[slot], 0, block) == block;
  }

  // ---------------------------------------------------------- the cluster map

  /** No byte of a data cluster, shared or not, and none of the header has changed. */
  predicate Preserved(own: Owners, f: seq<Byte>, f': seq<Byte>) {
    && |f| <= |f'|
    && forall x :: x in own && (own[x].Data? || own[x].Shared? || own[x].Header?) ==> ByteAt(f', x) == ByteAt(f, x)
  }

  /** What a cluster lookup may do: metadata and free space change, ownership only grows,
      and the guest disk does not move. */
  ghost predicate MapMove(m: Image, own: Owners, m': Image, own': Owners)
    requires GeometryOk(m.g) && |m.l1| == m.g.l1n
  {
    && m'.g == m.g && |m'.l1| == |m.l1| && m.firstFree <= m'.firstFree
    && Extends(own, own') && Preserved(own, m.file, m'.file)
    && Disk(m') == Disk(m)
  }

  lemma RcMoveIsMapMove(m: Image, own: Owners, m': Image, own': Owners)
    requires GeometryOk(m.g) && |m.l1| == m.g.l1n && RcMove(m, own, m', own')
    ensures MapMove(m, own, m', own')
  {
  }

  lemma MapMoveTrans(m: Image, own: Owners, m': Image, own': Owners, m'': Image, own'': Owners)
    requires GeometryOk(m.g) && |m.l1| == m.g.l1n
    requires MapMove(m, own, m', own') && MapMove(m', own', m'', own'')
    ensures MapMove(m, own, m'', own'')
  {
  }

  /** What looking up guest cluster (i, j) may have done, and the host cluster it found.  For a
      write that is the guest cluster's own; unless it was so already, nobody used it. */
  ghost predicate Located(m: Image, own: Owners, m': Image, own': Owners, i: nat, j: nat, allocate: bool, off: nat)
    requires GeometryOk(m.g) && |m.l1| == m.g.l1n && i < |m.l1|
  {
    && MapMove(m, own, m', own') && Ahead(m, own, -1, m', own', -1)
    && (!allocate ==> m' == m && own' == own)
    && (allocate && off == 0 ==> Exhausted(m'))
    && (!allocate || off != 0 ==> off == Host(m.g, m'.file, m'.l1, i, j))
    && (allocate && off != 0 ==> Region(own', off, m.g.cs, Data(i, j)))
    && (allocate && off != 0 ==> if IsCopied(m.g, L2Entry(m.g, m.file, m.l1, i, j)) then m' == m else Fresh(own, off, m.g.cs))
  }

  /** The same after an L2 table has been made for it. */
  lemma LocatedAfter(m0: Image, own0: Owners, m: Image, own: Owners, m': Image, own': Owners, i: nat, j: nat, allocate: bool, off: nat)
    requires GeometryOk(m0.g) && |m0.l1| == m0.g.l1n && i < |m0.l1| && j < m0.g.l2n
    requires MapMove(m0, own0, m, own) && Ahead(m0, own0, -1, m, own, -1) && SameMap(m0.g, m0.file, m0.l1, m.file, m.l1)
    requires !allocate || L2Off(m0.g, m0.l1, i) != 0 ==> m == m0 && own == own0
    requires Located(m, own, m', own', i, j, allocate, off)
    ensures Located(m0, own0, m', own', i, j, allocate, off)
  {
    MapMoveTrans(m0, own0, m, own, m', own');
    assert L2Entry(m0.g, m0.file, m0.l1, i, j) == L2Entry(m0.g, m.file, m.l1, i, j);
  }

  lemma InstallTableCaches(g: Geometry, f: seq<Byte>, l1: seq<nat>, rt: seq<nat>, c: Caches, own: Owners, f': seq<Byte>, i0: nat, e: nat)
    requires CachesOk(g, f, l1, rt, c) && L2Ok(g, l1, own) && BlocksOk(g, rt, own) && Kept(own, f, f', L1Table)
    requires i0 < |l1| && L2Off(g, l1, i0) == 0
    ensures CachesOk(g, f', l1[i0 := e], rt, c)
  {
    CachesKept(g, f, l1, rt, c, own, f', L1Table);
    var l1' := l1[i0 := e];
    forall s | 0 <= s < |c.l2o| && c.l2o[s] != 0 ensures exists i :: 0 <= i < |l1'| && L2Off(g, l1', i) == c.l2o[s] {
      var i :| 0 <= i < |l1| && L2Off(g, l1, i) == c.l2o[s];
      assert L2Off(g, l1', i) == c.l2o[s];
    }
  }

  /** l1_table_update with a fresh, zeroed L2 table. */
  lemma InstallTable(g: Geometry, f: seq<Byte>, l1: seq<nat>, rt: seq<nat>, ff: nat, own: Owners, c: Caches,
                     i0: nat, off: nat, f': seq<Byte>, l1': seq<nat>) returns (own': Owners)
    requires Inv(Image(g, f, l1, rt, ff), own) && CachesOk(g, f, l1, rt, c) && i0 < |l1| && L2Off(g, l1, i0) == 0
    requires Reserved(Image(g, f, l1, rt, ff), own, off, 8 * g.l2n) && Slice(f, off, 8 * g.l2n) == Zeros(8 * g.l2n)
    requires l1' == l1[i0 := Tagged(g, off)] && f' == Pwrite(f, g.l1Off + 8 * i0, PutBE(Tagged(g, off), 8))
    ensures Inv(Image(g, f', l1', rt, ff), own') && CachesOk(g, f', l1', rt, c)
    ensures L2Off(g, l1', i0) == off && SameMap(g, f, l1, f', l1')
    ensures MapMove(Image(g, f, l1, rt, ff), own, Image(g, f', l1', rt, ff), own')
    ensures Ahead(Image(g, f, l1, rt, ff), own, Div(off, g.cs), Image(g, f', l1', rt, ff), own', Div(off, g.cs))
  {
    own' := Claim(own, off, 8 * g.l2n, L2Table(i0));
    ClaimInv(Image(g, f, l1, rt, ff), own, off, 8 * g.l2n, L2Table(i0));
    TaggedPlain(g, off);
    SetTable(g, f, l1, rt, ff, own', c, i0, Tagged(g, off), f', l1');
    ClaimStep(Image(g, f, l1, rt, ff), own, off, 8 * g.l2n, L2Table(i0), Image(g, f', l1', rt, ff));
  }

  lemma SetTable(g: Geometry, f: seq<Byte>, l1: seq<nat>, rt: seq<nat>, ff: nat, own: Owners, c: Caches,
                 i0: nat, e: nat, f': seq<Byte>, l1': seq<nat>)
    requires Inv(Image(g, f, l1, rt, ff), own) && CachesOk(g, f, l1, rt, c) && i0 < |l1| && L2Off(g, l1, i0) == 0
    requires Region(own, Masked(g, e), 8 * g.l2n, L2Table(i0)) && Slice(f, Masked(g, e), 8 * g.l2n) == Zeros(8 * g.l2n)
    requires e < TWO64 && l1' == l1[i0 := e] && f' == Pwrite(f, g.l1Off + 8 * i0, PutBE(e, 8))
    ensures Inv(Image(g, f', l1', rt, ff), own) && CachesOk(g, f', l1', rt, c)
    ensures SameMap(g, f, l1, f', l1') && SameCounts(g, f, rt, f', rt)
    ensures MapMove(Image(g, f, l1, rt, ff), own, Image(g, f', l1', rt, ff), own)
  {
    var m := Image(g, f, l1, rt, ff);
    L1Step(m, own, i0, e, f', l1');
    SameDisk(m, m.(file := f', l1 := l1'));
    InstallTableCaches(g, f, l1, rt, c, own, f', i0, e);
    KeptCounts(g, f, rt, own, f', L1Table);
  }

  /** Writing one L2 table leaves every other cached table as the file has it. */
  lemma OtherTables(g: Geometry, l1: seq<nat>, own: Owners, f: seq<Byte>, f': seq<Byte>, i0: nat, offsets: seq<nat>, slot: nat)
    requires L2Ok(g, l1, own) && L2Cached(g, l1, offsets) && i0 < |l1| && Kept(own, f, f', L2Table(i0))
    requires slot < |offsets| && offsets[slot] == L2Off(g, l1, i0)
    requires forall s, t :: 0 <= s < |offsets| && 0 <= t < |offsets| && offsets[s] != 0 && offsets[s] == offsets[t] ==> s == t
    ensures forall s :: 0 <= s < |offsets| && offsets[s] != 0 && s != slot ==>
              Slice(f', offsets[s], 8 * g.l2n) == Slice(f, offsets[s], 8 * g.l2n)
  {
    forall s | 0 <= s < |offsets| && offsets[s] != 0 && s != slot
      ensures Slice(f', offsets[s], 8 * g.l2n) == Slice(f, offsets[s], 8 * g.l2n)
    {
      var i :| 0 <= i < |l1| && L2Off(g, l1, i) == offsets[s];
      assert TableOwned(g, l1, own, i);
      KeptSlice(own, f, f', L2Table(i0), offsets[s], 8 * g.l2n, L2Table(i));
    }
  }

  /** Both caches after entry (i0, j0) has been stored and written through. */
  lemma SetEntryCaches(g: Geometry, f: seq<Byte>, l1: seq<nat>, rt: seq<nat>, c: Caches, own: Owners, f': seq<Byte>,
                       i0: nat, j0: nat, data: seq<Byte>, slot: nat)
    requires CachesOk(g, f, l1, rt, c) && L2Ok(g, l1, own) && BlocksOk(g, rt, own) && Kept(own, f, f', L2Table(i0))
    requires i0 < |l1| && j0 < g.l2n && L2Off(g, l1, i0) != 0 && |data| == 8
    requires f' == Pwrite(f, L2Off(g, l1, i0) + 8 * j0, data) && slot < |c.l2o| && c.l2o[slot] == L2Off(g, l1, i0)
    ensures |c.l2t[slot]| == 8 * g.l2n
    ensures CachesOk(g, f', l1, rt, c.(l2t := c.l2t[slot := Splice(c.l2t[slot], 8 * j0, data)]))
  {
    OtherTables(g, l1, own, f, f', i0, c.l2o, slot);
    CoherentStore(f, 8 * g.l2n, c.l2o, c.l2t, slot, 8 * j0, data, f');
    RcCacheKept(g, rt, own, f, f', L2Table(i0), c.rco, c.rct);
  }

  /** The image after entry (i0, j0) has been written. */
  lemma SetEntryImage(m: Image, own: Owners, i0: nat, j0: nat, l2: nat, e: nat, f': seq<Byte>)
    requires Inv(m, own) && i0 < |m.l1| && j0 < m.g.l2n && l2 == L2Off(m.g, m.l1, i0) && l2 != 0
    requires Plain(m.g, e) && Region(own, Masked(m.g, e), m.g.cs, Data(i0, j0)) && Holds(m.g, m.file, m.l1, i0, j0, Masked(m.g, e))
    requires f' == Pwrite(m.file, l2 + 8 * j0, PutBE(e, 8))
    ensures Inv(m.(file := f'), own) && L2Entry(m.g, f', m.l1, i0, j0) == e && Kept(own, m.file, f', L2Table(i0))
    ensures Disk(m.(file := f')) == Disk(m)
  {
    L2Contents(m.g, m.file, m.l1, own, i0, j0, l2, e, f');
    SameDisk(m, m.(file := f'));
    L2StepMap(m.g, m.file, m.l1, own, i0, j0, l2, e, Masked(m.g, e), f');
    L2Step(m, own, i0, j0, l2, e, Masked(m.g, e), f');
  }

  lemma SetEntry(g: Geometry, f: seq<Byte>, l1: seq<nat>, rt: seq<nat>, ff: nat, own: Owners, c: Caches,
                 i0: nat, j0: nat, l2: nat, e: nat, f': seq<Byte>, slot: nat)
    requires Inv(Image(g, f, l1, rt, ff), own) && CachesOk(g, f, l1, rt, c) && i0 < |l1| && j0 < g.l2n
    requires l2 == L2Off(g, l1, i0) && l2 != 0 && slot < |c.l2o| && c.l2o[slot] == l2
    requires Plain(g, e) && Region(own, Masked(g, e), g.cs, Data(i0, j0)) && Holds(g, f, l1, i0, j0, Masked(g, e))
    requires f' == Pwrite(f, l2 + 8 * j0, PutBE(e, 8))
    ensures |c.l2t[slot]| == 8 * g.l2n
    ensures Inv(Image(g, f', l1, rt, ff), own)
    ensures CachesOk(g, f', l1, rt, c.(l2t := c.l2t[slot := Splice(c.l2t[slot], 8 * j0, PutBE(e, 8))]))
    ensures L2Entry(g, f', l1, i0, j0) == e && SameCounts(g, f, rt, f', rt)
    ensures MapMove(Image(g, f, l1, rt, ff), own, Image(g, f', l1, rt, ff), own)
  {
    SetEntryImage(Image(g, f, l1, rt, ff), own, i0, j0, l2, e, f');
    SetEntryCaches(g, f, l1, rt, c, own, f', i0, j0, PutBE(e, 8), slot);
    KeptCounts(g, f, rt, own, f', L2Table(i0));
  }

  /** l2_table_update with a host cluster that holds the guest's bytes. */
  lemma InstallCluster(g: Geometry, f: seq<Byte>, l1: seq<nat>, rt: seq<nat>, ff: nat, own: Owners, c: Caches,
                       i0: nat, j0: nat, l2: nat, off: nat, f': seq<Byte>, slot: nat) returns (own': Owners)
    requires Inv(Image(g, f, l1, rt, ff), own) && CachesOk(g, f, l1, rt, c) && i0 < |l1| && j0 < g.l2n
    requires l2 == L2Off(g, l1, i0) && l2 != 0 && slot < |c.l2o| && c.l2o[slot] == l2
    requires Reserved(Image(g, f, l1, rt, ff), own, off, g.cs) && Holds(g, f, l1, i0, j0, off)
    requires f' == Pwrite(f, l2 + 8 * j0, PutBE(Tagged(g, off), 8))
    ensures |c.l2t[slot]| == 8 * g.l2n
    ensures Inv(Image(g, f', l1, rt, ff), own') && Region(own', off, g.cs, Data(i0, j0))
    ensures CachesOk(g, f', l1, rt, c.(l2t := c.l2t[slot := Splice(c.l2t[slot], 8 * j0, PutBE(Tagged(g, off), 8))]))
    ensures Host(g, f', l1, i0, j0) == off
    ensures MapMove(Image(g, f, l1, rt, ff), own, Image(g, f', l1, rt, ff), own')
    ensures Ahead(Image(g, f, l1, rt, ff), own, Div(off, g.cs), Image(g, f', l1, rt, ff), own', Div(off, g.cs))
  {
    own' := Claim(own, off, g.cs, Data(i0, j0));
    ClaimInv(Image(g, f, l1, rt, ff), own, off, g.cs, Data(i0, j0));
    TaggedPlain(g, off);
    SetEntry(g, f, l1, rt, ff, own', c, i0, j0, l2, Tagged(g, off), f', slot);
    ClaimStep(Image(g, f, l1, rt, ff), own, off, g.cs, Data(i0, j0), Image(g, f', l1, rt, ff));
  }

  /** The copy made for copy-on-write: free space now holds the guest's bytes. */
  lemma CopyStep(g: Geometry, f: seq<Byte>, l1: seq<nat>, rt: seq<nat>, ff: nat, own: Owners, c: Caches,
                 i0: nat, j0: nat, off: nat, f': seq<Byte>)
    requires Inv(Image(g, f, l1, rt, ff), own) && CachesOk(g, f, l1, rt, c) && i0 < |l1| && j0 < g.l2n
    requires Host(g, f, l1, i0, j0) != 0 && Reserved(Image(g, f, l1, rt, ff), own, off, g.cs)
    requires f' == Pwrite(f, off, Slice(f, Host(g, f, l1, i0, j0), g.cs))
    ensures Inv(Image(g, f', l1, rt, ff), own) && CachesOk(g, f', l1, rt, c)
    ensures Reserved(Image(g, f', l1, rt, ff), own, off, g.cs) && Holds(g, f', l1, i0, j0, off)
    ensures RcMove(Image(g, f, l1, rt, ff), own, Image(g, f', l1, rt, ff), own)
    ensures Ahead(Image(g, f, l1, rt, ff), own, Div(off, g.cs), Image(g, f', l1, rt, ff), own, Div(off, g.cs))
  {
    var m := Image(g, f, l1, rt, ff);
    assert Untouched(own, f, f');
    FreeSpaceStep(m, own, f');
    QuietStep(m, own, m.(file := f'), Div(off, g.cs));
    SameDisk(m, m.(file := f'));
    CachesKept(g, f, l1, rt, c, own, f', Data(|l1|, 0));
    forall r | 0 <= r < g.cs ensures ByteAt(f', off + r) == ClusterByte(g, f', l1, i0, j0, r) {
      assert ClusterByte(g, f', l1, i0, j0, r) == ClusterByte(g, f, l1, i0, j0, r);
    }
  }

  lemma ZeroHolds(g: Geometry, f: seq<Byte>, l1: seq<nat>, i0: nat, j0: nat, off: nat)
    requires i0 < |l1| && L2Entry(g, f, l1, i0, j0) == 0 && Slice(f, off, g.cs) == Zeros(g.cs)
    ensures Holds(g, f, l1, i0, j0, off)
  {
    forall r | 0 <= r < g.cs ensures ByteAt(f, off + r) == ClusterByte(g, f, l1, i0, j0, r) {
      assert Slice(f, off, g.cs)[r] == 0;
    }
  }

  /** The entry as it is read out of the cached table. */
  lemma CachedEntry(f: seq<Byte>, l2: nat, len: nat, j: nat)
    requires 8 * j + 8 <= len
    ensures GetBE(Slice(f, l2, len)[8 * j..8 * j + 8]) == Entry(f, l2 + 8 * j)
  {
    assert Slice(f, l2, len)[8 * j..8 * j + 8] == Slice(f, l2 + 8 * j, 8);
  }

  lemma SliceDistinct(addrs: seq<nat>, lo: nat, hi: nat, n: nat)
    requires lo <= hi <= |addrs| && InMemory(addrs, n) && Distinct(addrs)
    ensures InMemory(addrs[lo..hi], n) && Distinct(addrs[lo..hi])
  {
  }

  lemma PieceStored(m0: seq<Byte>, m1: seq<Byte>, m2: seq<Byte>, addrs: seq<nat>, disk: seq<Byte>, x: nat, off: nat,
                    part: seq<nat>, piece: seq<Byte>, n: nat)
    requires off + n <= |addrs| && x + off + n <= |disk| && Distinct(addrs) && InMemory(addrs, |m0|)
    requires part == addrs[off..off + n] && piece == disk[x + off..x + off + n]
    requires Stored(m0, m1, addrs, disk[x..x + off]) && Stored(m1, m2, part, piece)
    ensures Stored(m0, m2, addrs, disk[x..x + off + n])
  {
    var data := disk[x..x + off + n];
    assert data[..off] == disk[x..x + off] && data[off..] == piece;
    StoredTwice(m0, m1, m2, addrs, data, off);
  }

  /** The top of the loops of qcow_preadv and qcow_pwritev: how many sectors the current
      cluster allows, where they lie in it, and the part of the iovec they use. */
  method Chunk(g: Geometry, iov: seq<Iovec>, sectorNum: nat, sectorCount: nat, off: nat)
    returns (n: nat, pos: nat, seg: seq<Iovec>)
    requires GeometryOk(g)
    requires sectorCount > 0 && off + sectorCount * 512 <= |Addrs(iov)|
    ensures 0 < n <= sectorCount && pos == Mod(sectorNum * 512, g.cs) && pos + n * 512 <= g.cs
    ensures n == sectorCount || pos + n * 512 == g.cs
    ensures Addrs(seg) == Addrs(iov)[off..off + n * 512] && |seg| <= |iov|
  {
    SectorPlace(g, sectorNum);
    var sectorIndex := Mod(sectorNum, g.cs / 512);
    n := Min(sectorCount, g.cs / 512 - sectorIndex);
    pos := sectorIndex * 512;
    seg := Segment(iov, off, n * 512);
  }

  /** The bytes of one turn delivered to memory. */
  method Deliver(a: array<Byte>, seg: seq<Iovec>, piece: seq<Byte>,
                 ghost addrs: seq<nat>, ghost a0: seq<Byte>, ghost disk: seq<Byte>, ghost x: nat, ghost off: nat)
    requires InMemory(addrs, a.Length) && Distinct(addrs) && |a0| == a.Length
    requires off + |piece| <= |addrs| && x + off + |piece| <= |disk| && Addrs(seg) == addrs[off..off + |piece|]
    requires piece == disk[x + off..x + off + |piece|] && Stored(a0, a[..], addrs, disk[x..x + off])
    modifies a
    ensures Stored(a0, a[..], addrs, disk[x..x + off + |piece|])
  {
    ghost var a1 := a[..];
    SliceDistinct(addrs, off, off + |piece|, a.Length);
    Scatter(a, Addrs(seg), piece);
    PieceStored(a0, a1, a[..], addrs, disk, x, off, Addrs(seg), piece, |piece|);
  }

  /** The guest's view of an image in use. */
  datatype View = Broken | Serving(disk: seq<Byte>)

  /** Ownership has only grown, and bytes that other references may share, and the header,
      are as they were. */
  predicate SharedKept(own: Owners, f: seq<Byte>, own': Owners, f': seq<Byte>) {
    && Extends(own, own') && |f| <= |f'|
    && forall p :: p in own && (own[p].Shared? || own[p].Header?) ==> ByteAt(f', p) == ByteAt(f, p)
  }

  /** What a write, or any part of one, may have done. */
  ghost predicate Since(m: Image, own: Owners, m': Image, own': Owners) {
    && GeometryOk(m.g) && Ahead(m, own, -1, m', own', -1)
    && SharedKept(own, m.file, own', m'.file)
  }

  lemma SinceTrans(m: Image, own: Owners, m': Image, own': Owners, m'': Image, own'': Owners)
    requires Since(m, own, m', own') && Since(m', own', m'', own'')
    ensures Since(m, own, m'', own'')
  {
  }

  /** A write inside a guest cluster's own host cluster is a splice of the guest disk. */
  lemma WriteData(g: Geometry, f: seq<Byte>, l1: seq<nat>, rt: seq<nat>, ff: nat, own: Owners, c: Caches,
                  x: nat, pos: nat, h: nat, data: seq<Byte>, f': seq<Byte>, disk: seq<Byte>)
    requires Inv(Image(g, f, l1, rt, ff), own) && CachesOk(g, f, l1, rt, c)
    requires disk == Disk(Image(g, f, l1, rt, ff)) && |disk| == g.size
    requires x + |data| <= g.size && pos == Mod(x, g.cs) && pos + |data| <= g.cs && L1Index(g, x) < |l1|
    requires h == Host(g, f, l1, L1Index(g, x), L2Index(g, x)) && h != 0
    requires Region(own, h, g.cs, Data(L1Index(g, x), L2Index(g, x))) && f' == Pwrite(f, h + pos, data)
    ensures Inv(Image(g, f', l1, rt, ff), own) && CachesOk(g, f', l1, rt, c)
    ensures Since(Image(g, f, l1, rt, ff), own, Image(g, f', l1, rt, ff), own)
    ensures Serving(Disk(Image(g, f', l1, rt, ff))) == Serving(Overwritten(disk, x, data))
  {
    var m, i, j := Image(g, f, l1, rt, ff), L1Index(g, x), L2Index(g, x);
    assert Disk(m.(file := f')) == Overwritten(Disk(m), x, data) by {
      DataContents(g, f, l1, own, i, j, h, pos, data, f');
      WriteChunk(m, f', x, data);
    }
    DataStep(m, own, i, j, h, pos, data, f');
    InsideOwned(own, f, h, g.cs, Data(i, j), pos, data);
    CachesKept(g, f, l1, rt, c, own, f', Data(i, j));
    KeptCounts(g, f, rt, own, f', Data(i, j));
    QuietStep(m, own, m.(file := f'), -1);
  }

  lemma LoadSlice(mem: seq<Byte>, addrs: seq<nat>, lo: nat, hi: nat)
    requires lo <= hi <= |addrs| && InMemory(addrs, |mem|)
    ensures InMemory(addrs[lo..hi], |mem|) && Load(mem, addrs[lo..hi]) == Load(mem, addrs)[lo..hi]
  {
  }

  /** The view once the first `off` bytes of `data` have been written at x. */
  ghost function Progress(disk: seq<Byte>, x: nat, data: seq<Byte>, off: nat): (view: View)
    requires off <= |data| && x + off <= |disk|
  {
    Serving(Overwritten(disk, x, data[..off]))
  }

  lemma ProgressStep(disk: seq<Byte>, x: nat, data: seq<Byte>, off: nat, at: nat, piece: seq<Byte>, end: nat)
    requires at == x + off && end == off + |piece| <= |data| && at + |piece| <= |disk| && piece == data[off..end]
    ensures |Overwritten(disk, x, data[..off])| == |disk|
    ensures Serving(Overwritten(Overwritten(disk, x, data[..off]), at, piece)) == Progress(disk, x, data, end)
  {
    OverwrittenTwice(disk, x, data, off, |piece|);
  }

  /** The bytes of memory for one turn of a write's loop, and the disk before and after. */
  method NextPiece(g: Geometry, mem: seq<Byte>, iov: seq<Iovec>, sectorNum: nat, sectorCount: nat, off: nat, x: nat, at: nat,
                   ghost data: seq<Byte>, ghost disk: seq<Byte>)
    returns (n: nat, pos: nat, piece: seq<Byte>, ghost prev: seq<Byte>, ghost next: View)
    requires GeometryOk(g) && InMemory(Addrs(iov), |mem|) && data == Load(mem, Addrs(iov)) && sectorCount > 0
    requires at == x + off == sectorNum * 512 && off + sectorCount * 512 <= |data|
    requires sectorNum * 512 + sectorCount * 512 <= |disk|
    ensures 0 < n <= sectorCount && |piece| == n * 512 && pos == Mod(at, g.cs) && pos + |piece| <= g.cs
    ensures piece != [] && at + |piece| <= |prev| == |disk| && Progress(disk, x, data, off) == Serving(prev)
    ensures next == Serving(Overwritten(prev, at, piece)) && next == Progress(disk, x, data, off + n * 512)
  {
    var seg;
    n, pos, seg := Chunk(g, iov, sectorNum, sectorCount, off);
    ghost var end := off + n * 512;
    LoadSlice(mem, Addrs(iov), off, end);
    piece := Load(mem, Addrs(seg));
    ProgressStep(disk, x, data, off, at, piece, end);
    prev, next := Overwritten(disk, x, data[..off]), Progress(disk, x, data, end);
  }

  class QcowState {
    const g: Geometry
    var file: seq<Byte>
    var l1Table: seq<nat>
    var refcountTable: seq<nat>
    var firstFreeCluster: nat
    const l2Cache: Cache
    const rcCache: Cache
    ghost var own: Owners

    ghost function Img(): Image
      reads this
    {
      Image(g, file, l1Table, refcountTable, firstFreeCluster)
    }

    ghost function CacheState(): Caches
      reads this, l2Cache.Repr, rcCache.Repr
    {
      Caches(l2Cache.offsets[..], l2Cache.tables[..], rcCache.offsets[..], rcCache.tables[..])
    }

    ghost predicate Shape()
      reads l2Cache.Repr, rcCache.Repr
    {
      && l2Cache.Valid() && rcCache.Valid() && l2Cache.len == 8 * g.l2n && rcCache.len == g.cs
      && l2Cache.Repr !! rcCache.Repr && this !in l2Cache.Repr && this !in rcCache.Repr
    }

    ghost predicate Valid()
      reads this, l2Cache.Repr, rcCache.Repr
    {
      Shape() && Inv(Img(), own) && CachesOk(g, file, l1Table, refcountTable, CacheState())
    }

    /** The tail of qcow_image_open and qcow2_image_open: the tables are read from the
        file, the caches are empty and the allocator starts at offset zero. */
    constructor (g: Geometry, file: seq<Byte>, ghost own: Owners)
      requires Inv(Opened(g, file), own)
      ensures Valid() && this.g == g && this.own == own && Img() == Opened(g, file)
      ensures fresh(l2Cache.Repr) && fresh(rcCache.Repr)
    {
      this.g := g;
      this.file := file;
      this.own := own;
      l1Table := ReadTable(file, g.l1Off, g.l1n);
      refcountTable := ReadTable(file, g.rtOff, if g.v2 then g.rtn else 0);
      firstFreeCluster := 0;
      l2Cache := new Cache(8 * g.l2n);
      rcCache := new Cache(g.cs);
    }

    /** rc_cache_lookup of the block in slot k of the refcount table; it is in the file,
        so the read never falls short. */
    method RcLookup(k: nat) returns (slot: nat)
      requires Valid() && k < |refcountTable| && refcountTable[k] != 0
      modifies rcCache.Repr
      ensures Valid() && slot < CACHE_SIZE && rcCache.offsets[slot] == refcountTable[k]
      ensures rcCache.tables[slot] == Slice(file, refcountTable[k], g.cs)
    {
      assert BlockOwned(g, refcountTable, own, k);
      RegionInFile(file, own, refcountTable[k], g.cs, RcBlock(k));
      var ok;
      ok, slot := rcCache.Lookup(file, refcountTable[k]);
    }

    method GetRefcount(clusterOffset: nat) returns (rc: nat)
      requires Valid() && g.v2 && Div(clusterOffset, g.rcSpan) < |refcountTable|
      modifies rcCache.Repr
      ensures Valid()
      ensures rc == Rc(g, file, refcountTable, Div(clusterOffset, g.cs))
    {
      var rcIndex := Div(clusterOffset, g.rcSpan);
      DivDiv(clusterOffset, g.cs, g.rbn, g.rcSpan);
      if refcountTable[rcIndex] == 0 {
        return 0;
      }
      var slot := RcLookup(rcIndex);
      var refblockIndex := Mod(Div(clusterOffset, g.cs), g.rbn);
      BlockFits(g, refblockIndex);
      rc := Refcount.Get(g.order, rcCache.tables[slot], refblockIndex);
    }

    /** The scan of qcow2_block_alloc: the first cluster from first_free_cluster on whose
        count is zero.  Past the refcount table the scan finds nothing. */
    method FindFree() returns (cluster: nat, found: bool)
      requires Valid() && g.v2
      modifies rcCache.Repr
      ensures Valid()
      ensures Mod(cluster, g.cs) == 0 && firstFreeCluster <= cluster
      ensures found <==> Div(cluster, g.rcSpan) < |refcountTable|
      ensures found ==> Rc(g, file, refcountTable, Div(cluster, g.cs)) == 0
      ensures Counted(g, file, refcountTable, Div(firstFreeCluster, g.cs), Div(cluster, g.cs))
    {
      cluster := firstFreeCluster;
      while Div(cluster, g.rcSpan) < |refcountTable|
        invariant Valid() && firstFreeCluster <= cluster && Mod(cluster, g.cs) == 0
        invariant Counted(g, file, refcountTable, Div(firstFreeCluster, g.cs), Div(cluster, g.cs))
        decreases |refcountTable| * g.rcSpan - cluster
      {
        var rc := GetRefcount(cluster);
        if rc == 0 {
          return cluster, true;
        }
        ScanStep(g, file, refcountTable, Div(firstFreeCluster, g.cs), cluster);
        cluster := cluster + g.cs;
      }
      found := false;
    }

    /** qcow2_block_alloc.  Zero is never a valid cluster, so it means failure. */
    method BlockAlloc2() returns (cluster: nat)
      requires Valid() && g.v2
      modifies this`file, this`firstFreeCluster, rcCache.Repr
      ensures Valid()
      ensures cluster != 0 ==> Reserved(Img(), own, cluster, g.cs) && Slice(file, cluster, g.cs) == Zeros(g.cs)
      ensures cluster != 0 ==> old(firstFreeCluster) <= cluster && Mod(cluster, g.cs) == 0 && firstFreeCluster == cluster + g.cs
      ensures cluster == 0 ==> file == old(file) && firstFreeCluster == old(firstFreeCluster)
      ensures cluster == 0 ==> NoFreeCluster(Img())
      ensures cluster != 0 ==> Took(old(Img()), Img(), cluster)
      ensures Untouched(own, old(file), file)
    {
      var found;
      cluster, found := FindFree();
      if !found {
        NothingFree(Img(), cluster);
        return 0;
      }
      ghost var k := Div(cluster, g.cs);
      DivMod(cluster, g.cs);
      DivMono(firstFreeCluster, cluster, g.cs);
      ghost var m := Img();
      file := ZeroRange(file, cluster, g.cs);
      firstFreeCluster := cluster + g.cs;
      AllocStep(m, own, k, cluster, file, firstFreeCluster);
      CachesKept(g, m.file, l1Table, refcountTable, CacheState(), own, file, Data(|l1Table|, 0));
    }

    /** qcow_block_alloc: version 1 grows the file. */
    method BlockAlloc1(size: nat) returns (offset: nat)
      requires Valid() && !g.v2 && size > 0
      modifies this`file
      ensures Valid()
      ensures offset != 0 ==> Reserved(Img(), own, offset, size) && Slice(file, offset, size) == Zeros(size)
      ensures offset != 0 ==> |old(file)| <= offset < |old(file)| + size && |file| == offset + size
      ensures offset == 0 ==> file == old(file) && |file| + 2 * size >= BIT63
      ensures Untouched(own, old(file), file)
    {
      offset := RoundUp(|file|, size);
      RoundUpBounds(|file|, size);
      if offset + size >= BIT63 {
        return 0;
      }
      ghost var m := Img();
      file := Grow(file, offset + size);
      EndStep(m, own, offset, size, file);
      CachesKept(g, m.file, l1Table, refcountTable, CacheState(), own, file, Data(|l1Table|, 0));
    }

    /** s->block_alloc: the disk and every count stay as they are. */
    method BlockAlloc(size: nat) returns (offset: nat)
      requires Valid() && size > 0 && (size == g.cs || size == 8 * g.l2n)
      modifies this`file, this`firstFreeCluster, rcCache.Repr
      ensures Valid()
      ensures offset != 0 ==> Reserved(Img(), own, offset, size) && Slice(file, offset, size) == Zeros(size)
      ensures offset == 0 ==> file == old(file)
      ensures offset == 0 ==> Exhausted(Img())
      ensures Untouched(own, old(file), file)
      ensures SameCounts(g, old(file), refcountTable, file, refcountTable)
      ensures g.v2 ==> if offset == 0 then Img() == old(Img()) else Took(old(Img()), Img(), offset)
      ensures RcMove(old(Img()), own, Img(), own)
      ensures Ahead(old(Img()), own, -1, Img(), own, if offset == 0 then -1 else Div(offset, g.cs))
    {
      ghost var m := Img();
      if g.v2 {
        offset := BlockAlloc2();
      } else {
        offset := BlockAlloc1(size);
      }
      FreeSpaceStep(m, own, file);
      SameDisk(m, Img());
      TakeStep(m, own, Img(), offset);
    }

    /** rc_table_update with a fresh, zeroed refcount block. */
    method RcTableUpdate(rcIndex: nat, refblockOffset: nat)
      requires Valid() && g.v2 && rcIndex < |refcountTable| && refcountTable[rcIndex] == 0
      requires Reserved(Img(), own, refblockOffset, g.cs) && Slice(file, refblockOffset, g.cs) == Zeros(g.cs)
      modifies this`file, this`refcountTable, this`own
      ensures Valid()
      ensures refcountTable == old(refcountTable)[rcIndex := refblockOffset]
      ensures Added(old(own), own, old(refcountTable), refcountTable, g.cs)
      ensures SameCounts(g, old(file), old(refcountTable), file, refcountTable)
      ensures RcMove(old(Img()), old(own), Img(), own)
    {
      var rt := refcountTable[rcIndex := refblockOffset];
      var f := Pwrite(file, g.rtOff + 8 * rcIndex, PutBE(refblockOffset, 8));
      ghost var own' := InstallBlock(g, file, l1Table, refcountTable, firstFreeCluster, own, CacheState(), rcIndex, refblockOffset, f, rt);
      refcountTable, file, own := rt, f, own';
    }

    /** The tail of qcow2_set_refcount: change the count in the cached block and write
        the block back. */
    method WriteCount(rcIndex: nat, cluster: nat, value: nat)
      requires Valid() && g.v2 && rcIndex == Div(cluster, g.rbn) && rcIndex < |refcountTable| && refcountTable[rcIndex] != 0
      requires value < Refcount.Limit(g.order) && (value != 0 || cluster < Div(firstFreeCluster, g.cs))
      modifies this`file, rcCache.Repr
      ensures Valid()
      ensures CountSet(g, old(file), file, refcountTable, cluster, value)
      ensures RcMove(old(Img()), own, Img(), own)
    {
      var slot := RcLookup(rcIndex);
      BlockFits(g, Mod(cluster, g.rbn));
      var block := Refcount.Set(g.order, rcCache.tables[slot], Mod(cluster, g.rbn), value);
      var f := Pwrite(file, refcountTable[rcIndex], block);
      ghost var c := CacheState();
      WriteBlock(g, file, l1Table, refcountTable, firstFreeCluster, own, c, cluster, rcIndex, value, block, f, slot);
      rcCache.tables[slot] := block;
      file := f;
      assert CacheState() == c.(rct := c.rct[slot := block]);
    }

    /** An empty refcount block, not yet counted itself. */
    method HangRefblock(rcIndex: nat) returns (refblockOffset: nat)
      requires Valid() && g.v2 && rcIndex < |refcountTable| && refcountTable[rcIndex] == 0
      modifies this`file, this`firstFreeCluster, this`refcountTable, this`own, rcCache.Repr
      ensures Valid() && RcMove(old(Img()), old(own), Img(), own)
      ensures refblockOffset == 0 ==> NoFreeCluster(Img()) && own == old(own) && Img() == old(Img())
      ensures refblockOffset != 0 ==> Took(old(Img()), Img(), refblockOffset)
      ensures refcountTable == if refblockOffset == 0 then old(refcountTable) else old(refcountTable)[rcIndex := refblockOffset]
      ensures refblockOffset != 0 ==> Added(old(own), own, old(refcountTable), refcountTable, g.cs)
      ensures refblockOffset != 0 ==> Div(refblockOffset, g.rcSpan) < |refcountTable|
      ensures SameCounts(g, old(file), old(refcountTable), file, refcountTable)
    {
      ghost var m0, own0 := Img(), own;
      refblockOffset := BlockAlloc(g.cs);
      if refblockOffset != 0 {
        ghost var m1 := Img();
        RcTableUpdate(rcIndex, refblockOffset);
        RcMoveTrans(m0, own0, m1, own0, Img(), own);
      }
    }

    /** A missing refcount block: allocated, hung into the table, counted itself. */
    method NewRefblock(rcIndex: nat, ghost cluster: nat) returns (ok: bool, ghost full: bool, ghost f1: seq<Byte>)
      requires Valid() && g.v2 && rcIndex < |refcountTable| && refcountTable[rcIndex] == 0 && rcIndex == Div(cluster, g.rbn)
      modifies this`file, this`firstFreeCluster, this`refcountTable, this`own, rcCache.Repr
      ensures Valid() && RcMove(old(Img()), old(own), Img(), own)
      ensures |refcountTable| == old(|refcountTable|) && Added(old(own), own, old(refcountTable), refcountTable, g.cs)
      ensures !ok ==> !full && refcountTable == old(refcountTable)
      ensures !ok ==> SameCounts(g, old(file), refcountTable, file, refcountTable)
      ensures ok ==> rcIndex < |refcountTable| && refcountTable[rcIndex] != 0
      ensures ok ==> var r := refcountTable[rcIndex];
                     && SameCounts(g, old(file), old(refcountTable), f1, old(refcountTable)[rcIndex := r])
                     && CountsAfter(g, f1, old(refcountTable)[rcIndex := r], file, refcountTable, Div(r, g.cs), full)
                     && (full ==> Rc(g, file, refcountTable, Div(r, g.cs)) == 1)
      ensures !full ==> NoFreeCluster(Img())
      ensures Standing(old(Img()), cluster) ==> ok && full && Standing(Img(), -1)
      decreases Empty(refcountTable), 0
    {
      ghost var m0, own0 := Img(), own;
      var refblockOffset := HangRefblock(rcIndex);
      if refblockOffset == 0 {
        if Standing(m0, cluster) {
          TakesNext(m0, cluster);
        }
        return false, false, file;
      }
      FillSlot(m0.rt, rcIndex, refblockOffset);
      ghost var m2, own2 := Img(), own;
      f1 := file;
      var ok1;
      if Standing(m0, cluster) {
        TookNext(m0, m2, refblockOffset, cluster, rcIndex);
      }
      ok1, full := SetRefcount(refblockOffset, 1);
      RcMoveTrans(m0, own0, m2, own2, Img(), own);
      AddedTrans(own0, own2, own, m0.rt, rcIndex, refblockOffset, refcountTable, g.cs);
      ok := true;
    }

    /** qcow2_set_refcount.  Each recursive call follows an empty slot of the table being
        filled, so the recursion ends.  `full` says that no allocation failed on the way. */
    method SetRefcount(clusterOffset: nat, value: nat) returns (ok: bool, ghost full: bool)
      requires Valid() && g.v2 && Div(clusterOffset, g.rcSpan) < |refcountTable| && value < Refcount.Limit(g.order)
      requires value != 0 || Div(clusterOffset, g.cs) < Div(firstFreeCluster, g.cs)
      modifies this`file, this`firstFreeCluster, this`refcountTable, this`own, rcCache.Repr
      ensures Valid() && RcMove(old(Img()), old(own), Img(), own)
      ensures CountsAfter(g, old(file), old(refcountTable), file, refcountTable, Div(clusterOffset, g.cs), full)
      ensures Added(old(own), own, old(refcountTable), refcountTable, g.cs)
      ensures ok ==> Rc(g, file, refcountTable, Div(clusterOffset, g.cs)) == value
      ensures full ==> ok
      ensures !full ==> NoFreeCluster(Img())
      ensures old(refcountTable[Div(clusterOffset, g.rcSpan)]) != 0 ==>
                full && refcountTable == old(refcountTable) && firstFreeCluster == old(firstFreeCluster)
      ensures Standing(old(Img()), Div(clusterOffset, g.cs)) ==> full && Standing(Img(), -1)
      decreases Empty(refcountTable), 1
    {
      var rcIndex := Div(clusterOffset, g.rcSpan);
      var cluster := Div(clusterOffset, g.cs);
      DivDiv(clusterOffset, g.cs, g.rbn, g.rcSpan);
      if refcountTable[rcIndex] != 0 {
        AfterBlock(g, refcountTable, cluster);
        WriteCount(rcIndex, cluster, value);
        return true, true;
      }
      ghost var m0, own0 := Img(), own;
      ghost var f1;
      ok, full, f1 := NewRefblock(rcIndex, cluster);
      if !ok {
        return;
      }
      ghost var m1, own1 := Img(), own;
      DivMono(m0.firstFree, m1.firstFree, g.cs);
      WriteCount(rcIndex, cluster, value);
      RcMoveTrans(m0, own0, m1, own1, Img(), own);
      CountsChain(g, m0.file, m0.rt, rcIndex, refcountTable[rcIndex], f1, m1.file, refcountTable, full, file, cluster, value);
      if !full {
        StillNoFree(g, m1.file, l1Table, refcountTable, firstFreeCluster, file, cluster, value);
      }
    }

    /** l1_table_update with a fresh, zeroed L2 table. */
    method L1TableUpdate(l1Index: nat, l2Offset: nat)
      requires Valid() && l1Index < |l1Table| && L2Off(g, l1Table, l1Index) == 0
      requires Reserved(Img(), own, l2Offset, 8 * g.l2n) && Slice(file, l2Offset, 8 * g.l2n) == Zeros(8 * g.l2n)
      modifies this`file, this`l1Table, this`own
      ensures Valid() && L2Off(g, l1Table, l1Index) == l2Offset
      ensures |l1Table| == old(|l1Table|) && SameMap(g, old(file), old(l1Table), file, l1Table)
      ensures MapMove(old(Img()), old(own), Img(), own)
      ensures Ahead(old(Img()), old(own), Div(l2Offset, g.cs), Img(), own, Div(l2Offset, g.cs))
    {
      var l1 := l1Table[l1Index := Tagged(g, l2Offset)];
      var f := Pwrite(file, g.l1Off + 8 * l1Index, PutBE(Tagged(g, l2Offset), 8));
      ghost var own' := InstallTable(g, file, l1Table, refcountTable, firstFreeCluster, own, CacheState(), l1Index, l2Offset, f, l1);
      l1Table, file, own := l1, f, own';
    }

    /** s->set_refcount(s, offset, 1): nothing to do in version 1. */
    method CountOnce(offset: nat)
      requires Valid() && (g.v2 ==> Div(offset, g.rcSpan) < |refcountTable|)
      modifies this`file, this`firstFreeCluster, this`refcountTable, this`own, rcCache.Repr
      ensures Valid() && RcMove(old(Img()), old(own), Img(), own)
      ensures Ahead(old(Img()), old(own), Div(offset, g.cs), Img(), own, -1)
    {
      if g.v2 {
        ghost var m0, own0 := Img(), own;
        var ok, full := SetRefcount(offset, 1);
        CountStep(m0, own0, Div(offset, g.cs), full, Img(), own);
      }
    }

    /** The first part of get_cluster_offset: the L2 table for l1_index, allocated on demand. */
    method EnsureL2(l1Index: nat, allocate: bool) returns (l2Offset: nat)
      requires Valid() && l1Index < |l1Table|
      modifies this`file, this`firstFreeCluster, this`refcountTable, this`l1Table, this`own, rcCache.Repr
      ensures Valid() && l1Index < |l1Table|
      ensures l2Offset != 0 ==> l2Offset == L2Off(g, l1Table, l1Index)
      ensures allocate && l2Offset == 0 ==> Exhausted(Img())
      ensures !allocate ==> l2Offset == L2Off(g, l1Table, l1Index)
      ensures !allocate || old(L2Off(g, l1Table, l1Index)) != 0 ==> Img() == old(Img()) && own == old(own)
      ensures |l1Table| == old(|l1Table|) && SameMap(g, old(file), old(l1Table), file, l1Table)
      ensures MapMove(old(Img()), old(own), Img(), own)
      ensures Ahead(old(Img()), old(own), -1, Img(), own, -1)
    {
      l2Offset := L2Off(g, l1Table, l1Index);
      if l2Offset != 0 || !allocate {
        return;
      }
      ghost var m0, own0 := Img(), own;
      l2Offset := BlockAlloc(8 * g.l2n);
      RcMoveIsMapMove(m0, own0, Img(), own);
      if l2Offset == 0 {
        return;
      }
      ghost var m1 := Img();
      L1TableUpdate(l1Index, l2Offset);
      MapMoveTrans(m0, own0, m1, own0, Img(), own);
      ghost var m2, own2 := Img(), own;
      CountOnce(l2Offset);
      RcMoveIsMapMove(m2, own2, Img(), own);
      MapMoveTrans(m0, own0, m2, own2, Img(), own);
    }

    /** l2_cache_lookup of an L2 table; it is in the file, so the read never falls short. */
    method L2Lookup(l1Index: nat) returns (slot: nat)
      requires Valid() && l1Index < |l1Table| && L2Off(g, l1Table, l1Index) != 0
      modifies l2Cache.Repr
      ensures Valid() && slot < CACHE_SIZE && l2Cache.offsets[slot] == L2Off(g, l1Table, l1Index)
      ensures l2Cache.tables[slot] == Slice(file, L2Off(g, l1Table, l1Index), 8 * g.l2n)
    {
      assert TableOwned(g, l1Table, own, l1Index);
      RegionInFile(file, own, L2Off(g, l1Table, l1Index), 8 * g.l2n, L2Table(l1Index));
      var ok;
      ok, slot := l2Cache.Lookup(file, L2Off(g, l1Table, l1Index));
    }

    /** l2_table_update with a host cluster that holds the guest's bytes. */
    method L2TableUpdate(slot: nat, l1Index: nat, l2Index: nat, clusterOffset: nat)
      requires Valid() && l1Index < |l1Table| && l2Index < g.l2n && L2Off(g, l1Table, l1Index) != 0
      requires slot < CACHE_SIZE && l2Cache.offsets[slot] == L2Off(g, l1Table, l1Index)
      requires Reserved(Img(), own, clusterOffset, g.cs) && Holds(g, file, l1Table, l1Index, l2Index, clusterOffset)
      modifies this`file, this`own, l2Cache.tables
      ensures Valid() && Host(g, file, l1Table, l1Index, l2Index) == clusterOffset
      ensures Region(own, clusterOffset, g.cs, Data(l1Index, l2Index))
      ensures MapMove(old(Img()), old(own), Img(), own)
      ensures Ahead(old(Img()), old(own), Div(clusterOffset, g.cs), Img(), own, Div(clusterOffset, g.cs))
    {
      ghost var c := CacheState();
      var l2Offset := L2Off(g, l1Table, l1Index);
      var data := PutBE(Tagged(g, clusterOffset), 8);
      var f := Pwrite(file, l2Offset + 8 * l2Index, data);
      ghost var own' := InstallCluster(g, file, l1Table, refcountTable, firstFreeCluster, own, c, l1Index, l2Index, l2Offset, clusterOffset, f, slot);
      file, own := f, own';
      l2Cache.tables[slot] := Splice(l2Cache.tables[slot], 8 * l2Index, data);
      assert CacheState() == c.(l2t := c.l2t[slot := Splice(c.l2t[slot], 8 * l2Index, data)]);
    }

    /** l2_table_update followed by s->set_refcount. */
    method MapCluster(slot: nat, l1Index: nat, l2Index: nat, clusterOffset: nat)
      requires Valid() && l1Index < |l1Table| && l2Index < g.l2n && L2Off(g, l1Table, l1Index) != 0
      requires slot < CACHE_SIZE && l2Cache.offsets[slot] == L2Off(g, l1Table, l1Index)
      requires Reserved(Img(), own, clusterOffset, g.cs) && Holds(g, file, l1Table, l1Index, l2Index, clusterOffset)
      modifies this`file, this`firstFreeCluster, this`refcountTable, this`own, l2Cache.tables, rcCache.Repr
      ensures Valid() && Host(g, file, l1Table, l1Index, l2Index) == clusterOffset
      ensures Region(own, clusterOffset, g.cs, Data(l1Index, l2Index))
      ensures MapMove(old(Img()), old(own), Img(), own)
      ensures Ahead(old(Img()), old(own), Div(clusterOffset, g.cs), Img(), own, -1)
    {
      ghost var m0, own0 := Img(), own;
      L2TableUpdate(slot, l1Index, l2Index, clusterOffset);
      ghost var m1, own1 := Img(), own;
      CountOnce(clusterOffset);
      RcMoveIsMapMove(m1, own1, Img(), own);
      MapMoveTrans(m0, own0, m1, own1, Img(), own);
    }

    /** The guest cluster is not allocated: give it a zeroed host cluster. */
    method NewCluster(slot: nat, l1Index: nat, l2Index: nat) returns (clusterOffset: nat)
      requires Valid() && l1Index < |l1Table| && l2Index < g.l2n && L2Off(g, l1Table, l1Index) != 0
      requires slot < CACHE_SIZE && l2Cache.offsets[slot] == L2Off(g, l1Table, l1Index)
      requires L2Entry(g, file, l1Table, l1Index, l2Index) == 0
      modifies this`file, this`firstFreeCluster, this`refcountTable, this`own, l2Cache.tables, rcCache.Repr
      ensures Valid() && MapMove(old(Img()), old(own), Img(), own)
      ensures Ahead(old(Img()), old(own), -1, Img(), own, -1)
      ensures clusterOffset == 0 ==> Exhausted(Img())
      ensures clusterOffset != 0 ==> Host(g, file, l1Table, l1Index, l2Index) == clusterOffset
      ensures clusterOffset != 0 ==> Region(own, clusterOffset, g.cs, Data(l1Index, l2Index)) && Fresh(old(own), clusterOffset, g.cs)
    {
      ghost var m0, own0 := Img(), own;
      clusterOffset := BlockAlloc(g.cs);
      RcMoveIsMapMove(m0, own0, Img(), own);
      if clusterOffset == 0 {
        return;
      }
      ghost var m1 := Img();
      ZeroHolds(g, file, l1Table, l1Index, l2Index, clusterOffset);
      MapCluster(slot, l1Index, l2Index, clusterOffset);
      MapMoveTrans(m0, own0, m1, own0, Img(), own);
    }

    /** The bytes of a guest cluster are copied into free space. */
    method CopyCluster(l1Index: nat, l2Index: nat, oldOffset: nat, clusterOffset: nat)
      requires Valid() && l1Index < |l1Table| && l2Index < g.l2n && Reserved(Img(), own, clusterOffset, g.cs)
      requires oldOffset == Host(g, file, l1Table, l1Index, l2Index) && oldOffset != 0
      modifies this`file
      ensures Valid() && Reserved(Img(), own, clusterOffset, g.cs) && Holds(g, file, l1Table, l1Index, l2Index, clusterOffset)
      ensures MapMove(old(Img()), own, Img(), own)
      ensures Ahead(old(Img()), own, Div(clusterOffset, g.cs), Img(), own, Div(clusterOffset, g.cs))
    {
      ghost var m := Img();
      var f := Pwrite(file, clusterOffset, Slice(file, oldOffset, g.cs));
      CopyStep(g, file, l1Table, refcountTable, firstFreeCluster, own, CacheState(), l1Index, l2Index, clusterOffset, f);
      RcMoveIsMapMove(m, own, m.(file := f), own);
      file := f;
    }

    /** The guest cluster may be shared: give it a host cluster with a copy of its bytes. */
    method CopyOnWrite(slot: nat, l1Index: nat, l2Index: nat, oldOffset: nat) returns (clusterOffset: nat)
      requires Valid() && l1Index < |l1Table| && l2Index < g.l2n && L2Off(g, l1Table, l1Index) != 0
      requires slot < CACHE_SIZE && l2Cache.offsets[slot] == L2Off(g, l1Table, l1Index)
      requires oldOffset == Host(g, file, l1Table, l1Index, l2Index) && oldOffset != 0
      modifies this`file, this`firstFreeCluster, this`refcountTable, this`own, l2Cache.tables, rcCache.Repr
      ensures Valid() && MapMove(old(Img()), old(own), Img(), own)
      ensures Ahead(old(Img()), old(own), -1, Img(), own, -1)
      ensures clusterOffset == 0 ==> Exhausted(Img())
      ensures clusterOffset != 0 ==> Host(g, file, l1Table, l1Index, l2Index) == clusterOffset
      ensures clusterOffset != 0 ==> Region(own, clusterOffset, g.cs, Data(l1Index, l2Index)) && Fresh(old(own), clusterOffset, g.cs)
    {
      ghost var m0, own0 := Img(), own;
      clusterOffset := BlockAlloc(g.cs);
      RcMoveIsMapMove(m0, own0, Img(), own);
      if clusterOffset == 0 {
        return;
      }
      ghost var m1 := Img();
      CopyCluster(l1Index, l2Index, oldOffset, clusterOffset);
      ghost var m2 := Img();
      MapMoveTrans(m0, own0, m1, own0, m2, own0);
      MapCluster(slot, l1Index, l2Index, clusterOffset);
      MapMoveTrans(m0, own0, m2, own0, Img(), own);
    }

    /** The entry for a guest cluster, out of the cached L2 table. */
    method EntryIn(l1Index: nat, l2Index: nat) returns (slot: nat, entry: nat)
      requires Valid() && l1Index < |l1Table| && l2Index < g.l2n && L2Off(g, l1Table, l1Index) != 0
      modifies l2Cache.Repr
      ensures Valid() && slot < CACHE_SIZE && l2Cache.offsets[slot] == L2Off(g, l1Table, l1Index)
      ensures entry == L2Entry(g, file, l1Table, l1Index, l2Index)
      ensures entry != 0 ==> Masked(g, entry) == Stripped(g, entry) == Host(g, file, l1Table, l1Index, l2Index) != 0
      ensures entry != 0 && IsCopied(g, entry) ==> Region(own, Masked(g, entry), g.cs, Data(l1Index, l2Index))
    {
      slot := L2Lookup(l1Index);
      CachedEntry(file, L2Off(g, l1Table, l1Index), 8 * g.l2n, l2Index);
      entry := GetBE(l2Cache.tables[slot][8 * l2Index..8 * l2Index + 8]);
      assert ClusterOk(g, file, l1Table, own, l1Index, l2Index);
      if entry != 0 {
        PlainStripped(g, entry);
      }
    }

    /** A host cluster of its own for a guest cluster that has none or may share one. */
    method OwnCluster(slot: nat, l1Index: nat, l2Index: nat, entry: nat) returns (clusterOffset: nat)
      requires Valid() && l1Index < |l1Table| && l2Index < g.l2n && L2Off(g, l1Table, l1Index) != 0
      requires slot < CACHE_SIZE && l2Cache.offsets[slot] == L2Off(g, l1Table, l1Index)
      requires entry == L2Entry(g, file, l1Table, l1Index, l2Index)
      requires entry != 0 ==> Masked(g, entry) == Host(g, file, l1Table, l1Index, l2Index) != 0
      modifies this`file, this`firstFreeCluster, this`refcountTable, this`own, l2Cache.tables, rcCache.Repr
      ensures Valid() && MapMove(old(Img()), old(own), Img(), own)
      ensures Ahead(old(Img()), old(own), -1, Img(), own, -1)
      ensures clusterOffset == 0 ==> Exhausted(Img())
      ensures clusterOffset != 0 ==> Host(g, file, l1Table, l1Index, l2Index) == clusterOffset
      ensures clusterOffset != 0 ==> Region(own, clusterOffset, g.cs, Data(l1Index, l2Index)) && Fresh(old(own), clusterOffset, g.cs)
    {
      if entry == 0 {
        clusterOffset := NewCluster(slot, l1Index, l2Index);
      } else {
        clusterOffset := CopyOnWrite(slot, l1Index, l2Index, Masked(g, entry));
      }
    }

    /** The second part of get_cluster_offset: the host cluster, out of the L2 table. */
    method ClusterIn(l1Index: nat, l2Index: nat, allocate: bool) returns (clusterOffset: nat)
      requires Valid() && l1Index < |l1Table| && l2Index < g.l2n && L2Off(g, l1Table, l1Index) != 0
      modifies this`file, this`firstFreeCluster, this`refcountTable, this`own, l2Cache.Repr, rcCache.Repr
      ensures Valid() && Located(old(Img()), old(own), Img(), own, l1Index, l2Index, allocate, clusterOffset)
    {
      var slot, entry := EntryIn(l1Index, l2Index);
      if allocate && !IsCopied(g, entry) {
        clusterOffset := OwnCluster(slot, l1Index, l2Index, entry);
      } else {
        clusterOffset := if entry == 0 then 0 else Stripped(g, entry);
      }
    }

    /** get_cluster_offset, for an image of standard clusters: zero, or the host cluster of
        guest offset x.  For a write that host cluster is the guest cluster's own; unless it
        was so already, it is one that nobody used. */
    method GetClusterOffset(x: nat, allocate: bool) returns (clusterOffset: nat)
      requires Valid() && x < g.size
      modifies this`file, this`firstFreeCluster, this`refcountTable, this`l1Table, this`own, l2Cache.Repr, rcCache.Repr
      ensures L1Index(g, x) < |l1Table| == old(|l1Table|)
      ensures Valid() && Located(old(Img()), old(own), Img(), own, L1Index(g, x), L2Index(g, x), allocate, clusterOffset)
    {
      L1IndexInRange(g, x);
      var l1Index := L1Index(g, x);
      var l2Index := L2Index(g, x);
      ghost var m0, own0 := Img(), own;
      var l2Offset := EnsureL2(l1Index, allocate);
      if l2Offset == 0 {
        return 0;
      }
      ghost var m1, own1 := Img(), own;
      clusterOffset := ClusterIn(l1Index, l2Index, allocate);
      LocatedAfter(m0, own0, m1, own1, Img(), own, l1Index, l2Index, allocate, clusterOffset);
    }

    /** n bytes from guest offset x, inside one cluster. */
    method ReadPiece(x: nat, pos: nat, n: nat, ghost disk: seq<Byte>) returns (data: seq<Byte>)
      requires Valid() && disk == Disk(Img()) && |disk| == g.size && n > 0 && x + n <= g.size && pos == Mod(x, g.cs) && pos + n <= g.cs
      modifies this`file, this`firstFreeCluster, this`refcountTable, this`l1Table, this`own, l2Cache.Repr, rcCache.Repr
      ensures Valid() && Img() == old(Img()) && own == old(own)
      ensures data == disk[x..x + n]
    {
      var clusterOffset := GetClusterOffset(x, false);
      data := if clusterOffset == 0 then Zeros(n) else Slice(file, clusterOffset + pos, n);
      ReadChunk(Img(), x, n, pos, clusterOffset, data);
    }

    /** One turn of the loop of qcow_preadv: as many sectors as one cluster allows. */
    method ReadTurn(iov: seq<Iovec>, sectorNum: nat, sectorCount: nat, off: nat, ghost disk: seq<Byte>)
      returns (n: nat, seg: seq<Iovec>, data: seq<Byte>)
      requires Valid() && sectorCount > 0 && off + sectorCount * 512 == |Addrs(iov)| && disk == Disk(Img())
      requires sectorNum * 512 + sectorCount * 512 <= g.size == |disk|
      modifies this`file, this`firstFreeCluster, this`refcountTable, this`l1Table, this`own, l2Cache.Repr, rcCache.Repr
      ensures Valid() && Img() == old(Img()) && own == old(own)
      ensures 0 < n <= sectorCount && |data| == n * 512
      ensures Addrs(seg) == Addrs(iov)[off..off + n * 512]
      ensures data == disk[sectorNum * 512..sectorNum * 512 + n * 512]
    {
      var pos;
      n, pos, seg := Chunk(g, iov, sectorNum, sectorCount, off);
      data := ReadPiece(sectorNum * 512, pos, n * 512, disk);
    }

    method ReadInto(a: array<Byte>, iov: seq<Iovec>, sectorNum: nat, sectorCount: nat, off: nat,
                    ghost a0: seq<Byte>, ghost disk: seq<Byte>, ghost x: nat) returns (n: nat)
      requires Valid() && a !in l2Cache.Repr && a !in rcCache.Repr && disk == Disk(Img()) && |disk| == g.size
      requires InMemory(Addrs(iov), a.Length) && Distinct(Addrs(iov)) && |a0| == a.Length
      requires sectorCount > 0 && off + sectorCount * 512 == |Addrs(iov)| && x + off == sectorNum * 512
      requires x + |Addrs(iov)| <= g.size && Stored(a0, a[..], Addrs(iov), disk[x..x + off])
      modifies this`file, this`firstFreeCluster, this`refcountTable, this`l1Table, this`own, l2Cache.Repr, rcCache.Repr, a
      ensures Valid() && Img() == old(Img()) && own == old(own)
      ensures 0 < n <= sectorCount
      ensures Stored(a0, a[..], Addrs(iov), disk[x..x + off + n * 512])
    {
      var seg, data;
      n, seg, data := ReadTurn(iov, sectorNum, sectorCount, off, disk);
      Deliver(a, seg, data, Addrs(iov), a0, disk, x, off);
    }

    /** qcow_preadv, without a backing image: the bytes of the guest disk reach memory. */
    method Preadv(a: array<Byte>, iov: seq<Iovec>, offset: nat) returns (ret: int)
      requires Valid() && a !in l2Cache.Repr && a !in rcCache.Repr
      requires InMemory(Addrs(iov), a.Length) && Distinct(Addrs(iov)) && |Addrs(iov)| % 512 == 0
      requires offset / 512 * 512 + |Addrs(iov)| <= g.size
      modifies this`file, this`firstFreeCluster, this`refcountTable, this`l1Table, this`own, l2Cache.Repr, rcCache.Repr, a
      ensures Valid() && Img() == old(Img()) && own == old(own)
      ensures ret == if |Addrs(iov)| == 0 then -1 else |Addrs(iov)|
      ensures var x := offset / 512 * 512;
              Stored(old(a[..]), a[..], Addrs(iov), Disk(Img())[x..x + |Addrs(iov)|])
    {
      ghost var a0, disk, x := a[..], Disk(Img()), offset / 512 * 512;
      var count := Length(iov);
      var sectorCount: nat, sectorNum: nat, off: nat := count / 512, offset / 512, 0;
      while sectorCount > 0
        invariant off + sectorCount * 512 == count && sectorNum * 512 == x + off
        invariant Valid() && Img() == old(Img()) && own == old(own)
        invariant Stored(a0, a[..], Addrs(iov), disk[x..x + off])
      {
        var n := ReadInto(a, iov, sectorNum, sectorCount, off, a0, disk, x);
        sectorCount := sectorCount - n;
        sectorNum := sectorNum + n;
        off := off + n * 512;
      }
      ret := if off > 0 then off else -1;
    }

    /** What the guest sees part way through a write: a disk, as long as the image is sound
        and what has happened since m0 and own0 is allowed. */
    ghost function View(m0: Image, own0: Owners): (view: View)
      reads this, l2Cache.Repr, rcCache.Repr
    {
      if Valid() && Since(m0, own0, Img(), own) then Serving(Disk(Img())) else Broken
    }

    /** The host cluster to write guest offset x into; finding it leaves the guest disk alone. */
    method Locate(x: nat, ghost disk: seq<Byte>, ghost m0: Image, ghost own0: Owners) returns (clusterOffset: nat)
      requires View(m0, own0) == Serving(disk) && x < g.size
      modifies this`file, this`firstFreeCluster, this`refcountTable, this`l1Table, this`own, l2Cache.Repr, rcCache.Repr
      ensures View(m0, own0) == Serving(disk)
      ensures GeometryOk(g) && L1Index(g, x) < |l1Table|
      ensures if clusterOffset == 0 then Exhausted(Img())
              else && clusterOffset == Host(g, file, l1Table, L1Index(g, x), L2Index(g, x))
                   && Region(own, clusterOffset, g.cs, Data(L1Index(g, x), L2Index(g, x)))
    {
      ghost var m1, own1 := Img(), own;
      clusterOffset := GetClusterOffset(x, true);
      SinceTrans(m0, own0, m1, own1, Img(), own);
    }

    /** Guest bytes written at offset x, inside one cluster. */
    method WritePiece(x: nat, pos: nat, data: seq<Byte>, ghost disk: seq<Byte>, ghost next: View,
                      ghost m0: Image, ghost own0: Owners)
      returns (ok: bool)
      requires View(m0, own0) == Serving(disk) && |disk| == g.size
      requires data != [] && x + |data| <= g.size && pos == Mod(x, g.cs) && pos + |data| <= g.cs
      requires next == Serving(Overwritten(disk, x, data))
      modifies this`file, this`firstFreeCluster, this`refcountTable, this`l1Table, this`own, l2Cache.Repr, rcCache.Repr
      ensures View(m0, own0) == if ok then next else Serving(disk)
      ensures !ok ==> GeometryOk(g) && Exhausted(Img())
    {
      var clusterOffset := Locate(x, disk, m0, own0);
      if clusterOffset == 0 {
        return false;
      }
      ghost var m1, f := Img(), Pwrite(file, clusterOffset + pos, data);
      WriteData(g, file, l1Table, refcountTable, firstFreeCluster, own, CacheState(), x, pos, clusterOffset, data, f, disk);
      SinceTrans(m0, own0, m1, own, m1.(file := f), own);
      file := Pwrite(file, clusterOffset + pos, data);
      ok := true;
    }

    /** One turn of the loop of qcow_pwritev, as many sectors as one cluster allows. */
    method WriteTurn(mem: seq<Byte>, iov: seq<Iovec>, sectorNum: nat, sectorCount: nat, off: nat, x: nat,
                     ghost data: seq<Byte>, ghost disk: seq<Byte>, ghost m0: Image, ghost own0: Owners)
      returns (n: nat, off': nat, ok: bool)
      requires InMemory(Addrs(iov), |mem|) && data == Load(mem, Addrs(iov)) && sectorCount > 0
      requires x + off == sectorNum * 512 && off + sectorCount * 512 <= |data|
      requires sectorNum * 512 + sectorCount * 512 <= g.size == |disk|
      requires View(m0, own0) == Progress(disk, x, data, off)
      modifies this`file, this`firstFreeCluster, this`refcountTable, this`l1Table, this`own, l2Cache.Repr, rcCache.Repr
      ensures 0 < n <= sectorCount && off' == if ok then off + n * 512 else off
      ensures View(m0, own0) == Progress(disk, x, data, off')
      ensures !ok ==> GeometryOk(g) && Exhausted(Img())
    {
      var pos, piece;
      ghost var prev, next;
      var at := sectorNum * 512;
      n, pos, piece, prev, next := NextPiece(g, mem, iov, sectorNum, sectorCount, off, x, at, data, disk);
      ok := WritePiece(at, pos, piece, prev, next, m0, own0);
      off' := if ok then off + n * 512 else off;
    }

    /** The loop of qcow_pwritev. */
    method WriteLoop(mem: seq<Byte>, iov: seq<Iovec>, sectorNum: nat, sectorCount: nat, x: nat,
                     ghost data: seq<Byte>, ghost disk: seq<Byte>, ghost m0: Image, ghost own0: Owners)
      returns (off: nat, ok: bool)
      requires InMemory(Addrs(iov), |mem|) && data == Load(mem, Addrs(iov)) && sectorCount * 512 <= |data|
      requires x == sectorNum * 512 && x + sectorCount * 512 <= g.size == |disk|
      requires View(m0, own0) == Progress(disk, x, data, 0)
      modifies this`file, this`firstFreeCluster, this`refcountTable, this`l1Table, this`own, l2Cache.Repr, rcCache.Repr
      ensures off <= sectorCount * 512 && (ok ==> off == sectorCount * 512)
      ensures View(m0, own0) == Progress(disk, x, data, off)
      ensures !ok ==> off < sectorCount * 512 && GeometryOk(g) && Exhausted(Img())
    {
      var s: nat := 0;
      off, ok := 0, true;
      while s < sectorCount && ok
        invariant s <= sectorCount && off == s * 512
        invariant View(m0, own0) == Progress(disk, x, data, off)
        invariant !ok ==> s < sectorCount && GeometryOk(g) && Exhausted(Img())
        decreases sectorCount - s, ok
      {
        var n;
        n, off, ok := WriteTurn(mem, iov, sectorNum + s, sectorCount - s, off, x, data, disk, m0, own0);
        if ok {
          s := s + n;
        }
      }
    }

    /** qcow_pwritev: the bytes of memory reach the guest disk, up to its end.  `done` bytes
        are written when an allocation fails on the way. */
    method Pwritev(mem: seq<Byte>, iov: seq<Iovec>, offset: nat) returns (ret: int, ghost done: nat)
      requires Valid() && InMemory(Addrs(iov), |mem|) && |Addrs(iov)| % 512 == 0
      modifies this`file, this`firstFreeCluster, this`refcountTable, this`l1Table, this`own, l2Cache.Repr, rcCache.Repr
      ensures Valid() && Since(old(Img()), old(own), Img(), own)
      ensures var x := offset / 512 * 512;
              if x >= g.size then ret == 0 && done == 0
              else var count := Min(|Addrs(iov)|, g.size - x);
                   && done <= count
                   && (|| (ret == count && count > 0 && done == count)
                       || (ret == -1 && (count == 0 || (done < count && Exhausted(Img())))))
      ensures done == 0 ==> Disk(Img()) == old(Disk(Img()))
      ensures done > 0 ==> Disk(Img()) == Overwritten(old(Disk(Img())), offset / 512 * 512, Load(mem, Addrs(iov))[..done])
    {
      var count := Length(iov);
      var sectorNum := offset / 512;
      if sectorNum >= g.size / 512 {
        return 0, 0;
      }
      var sectorCount := Min(count / 512, g.size / 512 - sectorNum);
      ghost var disk, data := Disk(Img()), Load(mem, Addrs(iov));
      OverwrittenNone(disk, sectorNum * 512);
      assert data[..0] == [];
      var off, ok := WriteLoop(mem, iov, sectorNum, sectorCount, sectorNum * 512, data, disk, Img(), own);
      done := off;
      ret := if ok && off > 0 then off else -1;
    }
  }
}
