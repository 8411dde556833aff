/** Reference counts over an operation: what stays counted, and when the file may be opened
    again. */
module QcowCounts {
  import opened Arith
  import opened Bytes
  import opened QcowImage
  import opened QcowSteps

  /** The clusters from lo up to hi all have a count. */
  ghost predicate Counted(g: Geometry, f: seq<Byte>, rt: seq<nat>, lo: nat, hi: nat)
    requires GeometryOk(g) && g.v2
  {
    forall k :: lo <= k < hi ==> Rc(g, f, rt, k) > 0
  }

  /** Every cluster the refcount table covers, from first_free_cluster on, is in use. */
  ghost predicate NoFreeCluster(m: Image)
    requires GeometryOk(m.g) && m.g.v2
  {
    MulMono(0, |m.rt|, m.g.rbn);
    Counted(m.g, m.file, m.rt, Div(m.firstFree, m.g.cs), |m.rt| * m.g.rbn)
  }

  /** Host cluster k became a refcount block between rt and rt'. */
  predicate NewBlock(rt: seq<nat>, rt': seq<nat>, cs: nat, k: nat)
    requires |rt| == |rt'| && cs > 0
  {
    exists i :: 0 <= i < |rt| && rt[i] == 0 && rt'[i] != 0 && Div(rt'[i], cs) == k
  }

  /** No slot of the refcount table is ever emptied or redirected. */
  predicate Filled(rt: seq<nat>, rt': seq<nat>) {
    |rt| == |rt'| && forall i :: 0 <= i < |rt| && rt[i] != 0 ==> rt'[i] == rt[i]
  }

  /** The allocator has nothing left: every counted cluster is in use, or the file is as
      long as an offset allows. */
  ghost predicate Exhausted(m: Image)
    requires GeometryOk(m.g)
  {
    if m.g.v2 then NoFreeCluster(m) else |m.file| + 2 * (m.g.cs + 8 * m.g.l2n) >= BIT63
  }

  /** Apart from k0, the counts that changed are those of blocks added to the refcount
      tree, and these are one when no allocation failed on the way. */
  ghost predicate CountsAfter(g: Geometry, f: seq<Byte>, rt: seq<nat>, f': seq<Byte>, rt': seq<nat>, k0: nat, full: bool)
    requires GeometryOk(g) && g.v2
  {
    && Filled(rt, rt')
    && forall k: nat :: k != k0 ==>
         if NewBlock(rt, rt', g.cs, k) then (full ==> Rc(g, f', rt', k) == 1)
         else Rc(g, f', rt', k) == Rc(g, f, rt, k)
  }

  lemma CountsChain(g: Geometry, f: seq<Byte>, rt: seq<nat>, idx: nat, r: nat, f1: seq<Byte>, f2: seq<Byte>, rt2: seq<nat>,
                    full: bool, f3: seq<Byte>, k0: nat, v: nat)
    requires GeometryOk(g) && g.v2 && idx < |rt| && rt[idx] == 0 && r != 0
    requires SameCounts(g, f, rt, f1, rt[idx := r])
    requires CountsAfter(g, f1, rt[idx := r], f2, rt2, Div(r, g.cs), full)
    requires full ==> Rc(g, f2, rt2, Div(r, g.cs)) == 1
    requires CountSet(g, f2, f3, rt2, k0, v)
    ensures CountsAfter(g, f, rt, f3, rt2, k0, full)
  {
    var rt1 := rt[idx := r];
    forall k: nat | k != k0
      ensures if NewBlock(rt, rt2, g.cs, k) then (full ==> Rc(g, f3, rt2, k) == 1)
              else Rc(g, f3, rt2, k) == Rc(g, f, rt, k)
    {
      NewBlockSplit(rt, idx, r, rt2, g.cs, k);
    }
  }

  lemma NewBlockSplit(rt: seq<nat>, idx: nat, r: nat, rt2: seq<nat>, cs: nat, k: nat)
    requires idx < |rt| && rt[idx] == 0 && r != 0 && Filled(rt[idx := r], rt2) && cs > 0
    ensures NewBlock(rt, rt2, cs, k) <==> k == Div(r, cs) || NewBlock(rt[idx := r], rt2, cs, k)
  {
    var rt1 := rt[idx := r];
    assert rt1[idx] == r == rt2[idx];
    if NewBlock(rt, rt2, cs, k) && k != Div(r, cs) {
      var i :| 0 <= i < |rt| && rt[i] == 0 && rt2[i] != 0 && Div(rt2[i], cs) == k;
      assert rt1[i] == 0;
    }
    if NewBlock(rt1, rt2, cs, k) {
      var i :| 0 <= i < |rt1| && rt1[i] == 0 && rt2[i] != 0 && Div(rt2[i], cs) == k;
      assert rt[i] == 0;
    }
  }

  lemma StillNoFree(g: Geometry, f: seq<Byte>, l1: seq<nat>, rt: seq<nat>, ff: nat, f': seq<Byte>, k0: nat, v: nat)
    requires GeometryOk(g) && g.v2 && NoFreeCluster(Image(g, f, l1, rt, ff)) && CountSet(g, f, f', rt, k0, v)
    requires v != 0 || k0 < Div(ff, g.cs)
    ensures NoFreeCluster(Image(g, f', l1, rt, ff))
  {
  }

  // ------------------------------------------------------ every cluster counted

  /** Every byte that came into use between own and own' belongs to a new refcount block. */
  ghost predicate Added(own: Owners, own': Owners, rt: seq<nat>, rt': seq<nat>, cs: nat)
    requires |rt| == |rt'| && cs > 0
  {
    forall x: nat {:trigger Used(own', x)} :: Used(own', x) ==> Used(own, x) || NewBlock(rt, rt', cs, Div(x, cs))
  }

  lemma AddedBlock(own: Owners, rt: seq<nat>, idx: nat, r: nat, cs: nat, o: Owner)
    requires cs > 0 && idx < |rt| && rt[idx] == 0 && r != 0 && Mod(r, cs) == 0
    ensures Added(own, Claim(own, r, cs, o), rt, rt[idx := r], cs)
  {
    var rt', own' := rt[idx := r], Claim(own, r, cs, o);
    DivMod(r, cs);
    ClusterDivs(cs, Div(r, cs), r);
    forall x: nat | Used(own', x) ensures Used(own, x) || NewBlock(rt, rt', cs, Div(x, cs)) {
      assert rt[idx] == 0 && rt'[idx] == r;
      assert !Used(own, x) ==> Div(rt'[idx], cs) == Div(x, cs);
    }
  }

  lemma AddedTrans(own: Owners, own1: Owners, own2: Owners, rt: seq<nat>, idx: nat, r: nat, rt2: seq<nat>, cs: nat)
    requires cs > 0 && idx < |rt| && rt[idx] == 0 && r != 0 && Filled(rt[idx := r], rt2)
    requires Added(own, own1, rt, rt[idx := r], cs) && Added(own1, own2, rt[idx := r], rt2, cs)
    ensures Added(own, own2, rt, rt2, cs)
  {
    forall x: nat | Used(own2, x) ensures Used(own, x) || NewBlock(rt, rt2, cs, Div(x, cs)) {
      NewBlockSplit(rt, idx, r, rt2, cs, Div(x, cs));
      if !NewBlock(rt[idx := r], rt2, cs, Div(x, cs)) && !Used(own, x) {
        assert Used(own1, x);
        NewBlockOnly(rt, idx, r, cs, Div(x, cs));
      }
    }
  }

  lemma NewBlockOnly(rt: seq<nat>, idx: nat, r: nat, cs: nat, k: nat)
    requires cs > 0 && idx < |rt| && NewBlock(rt, rt[idx := r], cs, k)
    ensures k == Div(r, cs)
  {
  }

  /** Every host cluster in use, except possibly cluster `but`, is counted. */
  ghost predicate AllCounted(g: Geometry, f: seq<Byte>, rt: seq<nat>, own: Owners, but: int)
    requires GeometryOk(g) && g.v2
  {
    forall x: nat {:trigger Used(own, x)} :: Used(own, x) && Div(x, g.cs) != but ==> Rc(g, f, rt, Div(x, g.cs)) > 0
  }

  // --------------------------------------------------------- where the scan stands

  /** If no refcount block counts cluster k, k is the first cluster of its block's span. */
  predicate Steady(g: Geometry, rt: seq<nat>, k: nat)
    requires g.rbn > 0
  {
    Div(k, g.rbn) < |rt| && rt[Div(k, g.rbn)] == 0 ==> Mod(k, g.rbn) == 0
  }

  lemma NextSpan(k: nat, b: nat)
    requires b > 0
    ensures Div(k + 1, b) == Div(k, b) || Mod(k + 1, b) == 0
    ensures Mod(k, b) == 0 && b > 1 ==> Div(k + 1, b) == Div(k, b)
  {
    DivMod(k, b);
    if Mod(k, b) + 1 < b {
      DivUnique(k + 1, b, Div(k, b), Mod(k, b) + 1);
    } else {
      Distribute(Div(k, b), 1, b);
      DivUnique(k + 1, b, Div(k, b) + 1, 0);
    }
  }

  lemma SpansAreLong(g: Geometry)
    requires GeometryOk(g) && g.v2
    ensures g.rbn > 1
  {
    assert g.rbn == 2 * Pow2(g.clusterBits + 2 - g.order);
  }

  /** The scan of the allocator enters a span without a refcount block only at its start. */
  lemma ScanSteady(g: Geometry, f: seq<Byte>, rt: seq<nat>, lo: nat, k: nat)
    requires GeometryOk(g) && g.v2 && lo <= k && Counted(g, f, rt, lo, k) && Steady(g, rt, lo)
    ensures Steady(g, rt, k)
  {
    if lo < k {
      assert Rc(g, f, rt, k - 1) > 0;
      NextSpan(k - 1, g.rbn);
    }
  }

  lemma AfterBlock(g: Geometry, rt: seq<nat>, k: nat)
    requires g.rbn > 0 && Div(k, g.rbn) < |rt| && rt[Div(k, g.rbn)] != 0
    ensures Steady(g, rt, k + 1)
  {
    NextSpan(k, g.rbn);
  }

  /** Cluster k is at the start of a span without a refcount block: k + 1 is free as well, and
      the allocator that stands there hands it out. */
  lemma TakesNext(m: Image, k: nat)
    requires GeometryOk(m.g) && m.g.v2 && Div(m.firstFree, m.g.cs) == k + 1 && Steady(m.g, m.rt, k)
    requires Div(k, m.g.rbn) < |m.rt| && m.rt[Div(k, m.g.rbn)] == 0
    ensures Div(k + 1, m.g.rbn) == Div(k, m.g.rbn) && !NoFreeCluster(m)
    ensures Rc(m.g, m.file, m.rt, k + 1) == 0
  {
    SpansAreLong(m.g);
    NextSpan(k, m.g.rbn);
    assert Rc(m.g, m.file, m.rt, k + 1) == 0;
    DivBound(k + 1, m.g.rbn, |m.rt|);
  }

  /** What an allocation by scanning does: the cluster at off is the first without a count. */
  ghost predicate Took(m: Image, m': Image, off: nat)
    requires GeometryOk(m.g) && m.g.v2
  {
    && Mod(off, m.g.cs) == 0 && m'.firstFree == off + m.g.cs
    && Div(m.firstFree, m.g.cs) <= Div(off, m.g.cs) && Counted(m.g, m.file, m.rt, Div(m.firstFree, m.g.cs), Div(off, m.g.cs))
  }

  lemma TookIs(m: Image, m': Image, off: nat)
    requires GeometryOk(m.g) && m.g.v2 && Took(m, m', off)
    ensures Div(m'.firstFree, m.g.cs) == Div(off, m.g.cs) + 1
  {
    DivMod(off, m.g.cs);
    ClusterDivs(m.g.cs, Div(off, m.g.cs), off);
  }

  /** The refcount block for the span of cluster k, which has just been handed out, is the next
      cluster; with it the span is counted and the scan stands where it should. */
  lemma TookNext(m: Image, m': Image, off: nat, k: nat, idx: nat)
    requires GeometryOk(m.g) && m.g.v2 && Standing(m, k) && Took(m, m', off) && m'.g == m.g
    requires idx == Div(k, m.g.rbn) && idx < |m.rt| && m.rt[idx] == 0 && idx < |m'.rt| && m'.rt[idx] != 0
    ensures Div(off, m.g.rcSpan) == idx && Standing(m', -1)
  {
    TakesNext(m, k);
    TookIs(m, m', off);
    DivDiv(off, m.g.cs, m.g.rbn, m.g.rcSpan);
    AfterBlock(m.g, m'.rt, k + 1);
  }

  // ------------------------------------------------------------- what is kept

  /** Every host cluster in use is counted and the scan stands where it should; `but` is the
      cluster just handed out and not counted yet, or -1. */
  ghost predicate Accounted(m: Image, own: Owners, but: int)
    requires GeometryOk(m.g)
  {
    m.g.v2 ==> AllCounted(m.g, m.file, m.rt, own, but) && Standing(m, but)
  }

  predicate Standing(m: Image, but: int)
    requires GeometryOk(m.g) && m.g.v2
  {
    var k := Div(m.firstFree, m.g.cs);
    if but < 0 then Steady(m.g, m.rt, k) else k == but + 1 && Steady(m.g, m.rt, but)
  }

  /** An operation that keeps an exhausted image exhausted and an accounted one accounted. */
  ghost predicate Ahead(m: Image, own: Owners, but: int, m': Image, own': Owners, but': int)
    requires GeometryOk(m.g)
  {
    && m'.g == m.g
    && (Exhausted(m) ==> Exhausted(m'))
    && (Accounted(m, own, but) ==> Accounted(m', own', but'))
  }

  lemma CountedOn(g: Geometry, f: seq<Byte>, rt: seq<nat>, f': seq<Byte>, rt': seq<nat>, l1: seq<nat>, l1': seq<nat>, ff: nat, ff': nat)
    requires GeometryOk(g) && g.v2 && NoFreeCluster(Image(g, f, l1, rt, ff)) && |rt'| == |rt| && ff <= ff'
    requires forall k: nat :: Rc(g, f, rt, k) > 0 ==> Rc(g, f', rt', k) > 0
    ensures NoFreeCluster(Image(g, f', l1', rt', ff'))
  {
    DivMono(ff, ff', g.cs);
  }

  lemma StillExhausted(m: Image, m': Image)
    requires GeometryOk(m.g) && m'.g == m.g && m'.rt == m.rt && m.firstFree <= m'.firstFree && |m.file| <= |m'.file|
    requires SameCounts(m.g, m.file, m.rt, m'.file, m.rt)
    ensures Exhausted(m) ==> Exhausted(m')
  {
    if m.g.v2 && NoFreeCluster(m) {
      CountedOn(m.g, m.file, m.rt, m'.file, m'.rt, m.l1, m'.l1, m.firstFree, m'.firstFree);
    }
  }

  /** A step that leaves the counts, the owners and the allocator alone. */
  lemma QuietStep(m: Image, own: Owners, m': Image, but: int)
    requires GeometryOk(m.g) && m'.g == m.g && m'.rt == m.rt && m.firstFree == m'.firstFree && |m.file| <= |m'.file|
    requires SameCounts(m.g, m.file, m.rt, m'.file, m.rt)
    ensures Ahead(m, own, but, m', own, but)
  {
    StillExhausted(m, m');
  }

  /** A cluster is handed out, or nothing is. */
  lemma TakeStep(m: Image, own: Owners, m': Image, off: nat)
    requires GeometryOk(m.g) && m'.g == m.g && m'.rt == m.rt && m.firstFree <= m'.firstFree && |m.file| <= |m'.file|
    requires SameCounts(m.g, m.file, m.rt, m'.file, m.rt)
    requires m.g.v2 ==> if off == 0 then m'.firstFree == m.firstFree else Took(m, m', off)
    ensures Ahead(m, own, -1, m', own, if off == 0 then -1 else Div(off, m.g.cs))
  {
    StillExhausted(m, m');
    if m.g.v2 && off != 0 && Accounted(m, own, -1) {
      TookIs(m, m', off);
      ScanSteady(m.g, m.file, m.rt, Div(m.firstFree, m.g.cs), Div(off, m.g.cs));
    }
  }

  /** The cluster handed out is put to use and not yet counted. */
  lemma ClaimStep(m: Image, own: Owners, off: nat, n: nat, o: Owner, m': Image)
    requires GeometryOk(m.g) && m'.g == m.g && m'.rt == m.rt && m.firstFree == m'.firstFree && |m.file| <= |m'.file|
    requires SameCounts(m.g, m.file, m.rt, m'.file, m.rt)
    requires m.g.v2 ==> Mod(off, m.g.cs) == 0 && n == m.g.cs
    ensures Ahead(m, own, Div(off, m.g.cs), m', Claim(own, off, n, o), Div(off, m.g.cs))
  {
    StillExhausted(m, m');
    if m.g.v2 {
      var own', but := Claim(own, off, n, o), Div(off, m.g.cs);
      DivMod(off, m.g.cs);
      ClusterDivs(m.g.cs, but, off);
      if AllCounted(m.g, m.file, m.rt, own, but) {
        forall x: nat | Used(own', x) && Div(x, m.g.cs) != but ensures Rc(m.g, m'.file, m.rt, Div(x, m.g.cs)) > 0 {
          assert Used(own, x);
        }
      }
    }
  }

  /** The cluster put to use is counted. */
  lemma CountStep(m: Image, own: Owners, k0: nat, full: bool, m': Image, own': Owners)
    requires GeometryOk(m.g) && m.g.v2 && m'.g == m.g && m.firstFree <= m'.firstFree
    requires CountsAfter(m.g, m.file, m.rt, m'.file, m'.rt, k0, full) && Added(own, own', m.rt, m'.rt, m.g.cs)
    requires full ==> Rc(m.g, m'.file, m'.rt, k0) == 1
    requires !full ==> NoFreeCluster(m')
    requires Standing(m, k0) ==> full && Standing(m', -1)
    ensures Ahead(m, own, k0, m', own', -1)
  {
    if full {
      forall k: nat | Rc(m.g, m.file, m.rt, k) > 0 ensures Rc(m.g, m'.file, m'.rt, k) > 0 {
      }
      if NoFreeCluster(m) {
        CountedOn(m.g, m.file, m.rt, m'.file, m'.rt, m.l1, m'.l1, m.firstFree, m'.firstFree);
      }
      if AllCounted(m.g, m.file, m.rt, own, k0) {
        forall x: nat | Used(own', x) ensures Rc(m.g, m'.file, m'.rt, Div(x, m.g.cs)) > 0 {
          assert Used(own, x) || NewBlock(m.rt, m'.rt, m.g.cs, Div(x, m.g.cs));
        }
      }
    }
  }
}
