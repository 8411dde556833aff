/** OPEN ALL in file_zbc.c: how many zones it opens, and when it exceeds the budget. */
module ZbcOpenAll {
  import opened Bytes
  import opened Zbc

  /** OPEN ALL can exceed the budget: with room for one open zone, opening the first zone
      evicts the second, which the loop then finds closed and opens as well. */
  lemma OpenAllOverrun() returns (zs: seq<Zone>)
    ensures AllOk(zs) && Tiled(zs, 4, 8) && Count(zs, ImpOpen) + Count(zs, ExpOpen) <= 1 && Count(zs, ExpOpen) + Count(zs, Closed) <= 1
    ensures Count(OpenFrom(zs, 1, 0), ExpOpen) == 2
  {
    var a := Zone(0, 4, 1, SeqRequired, Closed, false, false);
    var b := Zone(4, 4, 5, SeqRequired, ImpOpen, false, false);
    zs := [a, b];
    CountTwo(a, b, ImpOpen);
    CountTwo(a, b, ExpOpen);
    CountTwo(a, b, Closed);
    FirstIs(zs, 1);
    var a', b' := a.(cond := ExpOpen), b.(cond := Closed);
    assert OpenStep(zs, 1, 0) == [a', b'];
    CountTwo(a', b', ImpOpen);
    CountTwo(a', b', ExpOpen);
    assert FirstImpOpen([a', b']) == 2;
    var b'' := b.(cond := ExpOpen);
    assert OpenStep([a', b'], 1, 1) == [a', b''];
    CountTwo(a', b'', ExpOpen);
    assert OpenFrom([a', b''], 1, 2) == [a', b''];
    assert OpenFrom([a', b'], 1, 1) == [a', b''];
  }

  lemma CountTwo(a: Zone, b: Zone, c: Cond)
    ensures Count([a, b], c) == One(a, c) + One(b, c)
  {
    assert [a, b][..1] == [a] && [a][..0] == [];
    assert Count([a], c) == One(a, c);
  }

  // ---- The exact condition -----------------------------------------------------------------

  /** How many implicitly open zones lie before zone i. */
  function Before(zs: seq<Zone>, i: nat): nat
    requires i <= |zs|
  {
    Count(zs[..i], ImpOpen)
  }

  /** How many of the first i zones OPEN ALL opens when f zones may be opened without closing
      another: those that are closed, and those implicitly open and written ones that have
      been closed to make room before their turn. */
  function OpenCount(zs: seq<Zone>, f: nat, i: nat): nat
    requires i <= |zs|
  {
    if i == 0 then 0
    else
      var z, n := zs[i - 1], OpenCount(zs, f, i - 1);
      n + if z.cond == Closed || (z.cond == ImpOpen && z.wp != z.start && n > f + Before(zs, i - 1)) then 1 else 0
  }

  /** How many zones may be opened before one has to be closed. */
  function Room(zs: seq<Zone>, limit: nat): nat {
    if Opens(zs) < limit then limit - Opens(zs) else 0
  }

  /** OPEN ALL opens more zones than the budget has room for. */
  predicate Overruns(zs: seq<Zone>, limit: nat) {
    OpenCount(zs, Room(zs, limit), |zs|) + Count(zs, ExpOpen) > limit
  }

  /** How often a zone was to be closed once n have been opened. */
  function Evictions(n: nat, f: nat): nat {
    if n > f then n - f else 0
  }

  /** Zone k has been closed to make room once e zones have been. */
  predicate Evicted(zs: seq<Zone>, k: nat, e: nat)
    requires k < |zs|
  {
    zs[k].cond == ImpOpen && Before(zs, k) < e
  }

  /** The zones when the loop reaches zone i: from there on only evictions show, and whichever
      zone is still implicitly open was so and has not been evicted. */
  ghost predicate Reached(zs: seq<Zone>, limit: nat, i: nat, now: seq<Zone>)
    requires i <= |zs|
  {
    var f := Room(zs, limit);
    var n := OpenCount(zs, f, i);
    && |now| == |zs|
    && Count(now, ExpOpen) == Count(zs, ExpOpen) + n
    && Count(now, ImpOpen) == Count(zs, ImpOpen) - Min(Count(zs, ImpOpen), Evictions(n, f))
    && Tail(zs, i, now, Evictions(n, f)) && Left(zs, now, Evictions(n, f))
  }

  ghost predicate Tail(zs: seq<Zone>, i: nat, now: seq<Zone>, e: nat)
    requires |now| == |zs|
  {
    forall k :: i <= k < |zs| ==> now[k] == if Evicted(zs, k, e) then CloseZone(zs[k]) else zs[k]
  }

  ghost predicate Left(zs: seq<Zone>, now: seq<Zone>, e: nat)
    requires |now| == |zs|
  {
    forall k :: 0 <= k < |zs| ==>
      && (now[k].cond == ImpOpen <==> zs[k].cond == ImpOpen && !Evicted(zs, k, e))
      && (now[k].cond == ImpOpen ==> now[k] == zs[k])
  }

  lemma {:induction false} BeforeMono(zs: seq<Zone>, i: nat, j: nat)
    requires i < j <= |zs|
    ensures Before(zs, i) + One(zs[i], ImpOpen) <= Before(zs, j)
  {
    assert zs[..j][..j - 1] == zs[..j - 1];
    if i < j - 1 {
      BeforeMono(zs, i, j - 1);
    }
  }

  /** The implicitly open zone with e others before it. */
  lemma {:induction false} Nth(zs: seq<Zone>, e: nat, j: nat) returns (v: nat)
    requires j <= |zs| && e < Before(zs, j)
    ensures v < j && zs[v].cond == ImpOpen && Before(zs, v) == e
  {
    assert zs[..j][..j - 1] == zs[..j - 1];
    if e < Before(zs, j - 1) {
      v := Nth(zs, e, j - 1);
    } else {
      v := j - 1;
    }
  }

  /** The next zone to be closed is the first that is still implicitly open. */
  lemma NextVictim(zs: seq<Zone>, now: seq<Zone>, e: nat) returns (v: nat)
    requires |now| == |zs| && Left(zs, now, e) && e < Count(zs, ImpOpen)
    ensures v < |zs| && v == FirstImpOpen(now) && zs[v].cond == ImpOpen && Before(zs, v) == e
  {
    assert zs[..|zs|] == zs;
    v := Nth(zs, e, |zs|);
    forall k | 0 <= k < v ensures now[k].cond != ImpOpen {
      BeforeMono(zs, k, v);
    }
    FirstIs(now, v);
  }

  /** Nothing is left to be closed. */
  lemma NoVictim(zs: seq<Zone>, now: seq<Zone>, e: nat)
    requires |now| == |zs| && Left(zs, now, e) && e >= Count(zs, ImpOpen)
    ensures FirstImpOpen(now) == |now|
  {
    assert zs[..|zs|] == zs;
    forall k | 0 <= k < |zs| ensures now[k].cond != ImpOpen {
      BeforeMono(zs, k, |zs|);
    }
  }

  lemma EvictedNext(zs: seq<Zone>, e: nat, v: nat, k: nat)
    requires v < |zs| && k < |zs| && zs[v].cond == ImpOpen && Before(zs, v) == e
    ensures Evicted(zs, k, e + 1) <==> Evicted(zs, k, e) || k == v
  {
    if k < v {
      BeforeMono(zs, k, v);
    } else if v < k {
      BeforeMono(zs, v, k);
    }
  }

  /** One more zone is closed to make room. */
  lemma Evict(zs: seq<Zone>, i: nat, now: seq<Zone>, e: nat, v: nat, now': seq<Zone>)
    requires AllOk(zs) && |now| == |zs| && Tail(zs, i, now, e) && Left(zs, now, e)
    requires v < |zs| && zs[v].cond == ImpOpen && Before(zs, v) == e && now' == now[v := CloseZone(now[v])]
    ensures now[v] == zs[v] && Tail(zs, i, now', e + 1) && Left(zs, now', e + 1)
    ensures Count(now', ImpOpen) == Count(now, ImpOpen) - 1 && Count(now', ExpOpen) == Count(now, ExpOpen)
  {
    assert ZoneOk(zs[v]);
    forall k | 0 <= k < |zs| ensures Evicted(zs, k, e + 1) <==> Evicted(zs, k, e) || k == v {
      EvictedNext(zs, e, v, k);
    }
    CountSet(now, v, CloseZone(now[v]), ImpOpen);
    CountSet(now, v, CloseZone(now[v]), ExpOpen);
  }

  /** A closed zone is opened explicitly. */
  lemma OpenOne(zs: seq<Zone>, i: nat, now: seq<Zone>, e: nat, now': seq<Zone>)
    requires i < |zs| == |now| && now[i].cond == Closed && now' == now[i := now[i].(cond := ExpOpen)]
    requires Tail(zs, i, now, e) && Left(zs, now, e)
    ensures Tail(zs, i + 1, now', e) && Left(zs, now', e)
    ensures Count(now', ImpOpen) == Count(now, ImpOpen) && Count(now', ExpOpen) == Count(now, ExpOpen) + 1
  {
    CountSet(now, i, now[i].(cond := ExpOpen), ImpOpen);
    CountSet(now, i, now[i].(cond := ExpOpen), ExpOpen);
  }

  /** OPEN ALL finds zone i closed exactly if OpenCount counts it. */
  lemma Found(zs: seq<Zone>, limit: nat, i: nat, now: seq<Zone>)
    requires AllOk(zs) && i < |zs| && Reached(zs, limit, i, now)
    ensures OpenCount(zs, Room(zs, limit), i + 1) ==
            OpenCount(zs, Room(zs, limit), i) + if now[i].cond == Closed then 1 else 0
  {
    assert ZoneOk(zs[i]);
  }

  /** Once every implicitly open zone has been closed, no more are. */
  lemma Spent(zs: seq<Zone>, i: nat, now: seq<Zone>, e: nat, e': nat)
    requires |now| == |zs| && Count(zs, ImpOpen) <= e <= e' && Tail(zs, i, now, e) && Left(zs, now, e)
    ensures Tail(zs, i, now, e') && Left(zs, now, e')
  {
    assert zs[..|zs|] == zs;
    forall k | 0 <= k < |zs| ensures Evicted(zs, k, e') <==> Evicted(zs, k, e) {
      BeforeMono(zs, k, |zs|);
    }
  }

  /** A turn with room, or with nothing to close, opens the zone; otherwise it closes one. */
  lemma StepIs(zs: seq<Zone>, limit: nat, i: nat, now: seq<Zone>, e: nat) returns (v: nat)
    requires i < |zs| && Reached(zs, limit, i, now) && e == Evictions(OpenCount(zs, Room(zs, limit), i), Room(zs, limit))
    ensures OpenCount(zs, Room(zs, limit), i) >= Room(zs, limit) && e < Count(zs, ImpOpen) ==>
              && v < |zs| && zs[v].cond == ImpOpen && Before(zs, v) == e
              && OpenStep(now, limit, i) == now[v := CloseZone(now[v])][i := now[i].(cond := ExpOpen)]
    ensures !(OpenCount(zs, Room(zs, limit), i) >= Room(zs, limit) && e < Count(zs, ImpOpen)) ==>
              OpenStep(now, limit, i) == now[i := now[i].(cond := ExpOpen)]
  {
    v := 0;
    if e < Count(zs, ImpOpen) {
      v := NextVictim(zs, now, e);
    } else {
      NoVictim(zs, now, e);
    }
  }

  lemma TurnOpens(zs: seq<Zone>, limit: nat, i: nat, now: seq<Zone>)
    requires AllOk(zs) && i < |zs| && Reached(zs, limit, i, now) && now[i].cond == Closed
    ensures Reached(zs, limit, i + 1, OpenStep(now, limit, i))
  {
    var f, now' := Room(zs, limit), OpenStep(now, limit, i);
    var n := OpenCount(zs, f, i);
    var e := Evictions(n, f);
    Found(zs, limit, i, now);
    var v := StepIs(zs, limit, i, now, e);
    if n >= f && e < Count(zs, ImpOpen) {
      var room := now[v := CloseZone(now[v])];
      Evict(zs, i, now, e, v, room);
      OpenOne(zs, i, room, e + 1, now');
    } else {
      OpenOne(zs, i, now, e, now');
      if n >= f {
        Spent(zs, i + 1, now', e, e + 1);
      }
    }
  }

  lemma {:induction false} LoopReaches(zs: seq<Zone>, limit: nat, i: nat, now: seq<Zone>)
    requires AllOk(zs) && i <= |zs| && Reached(zs, limit, i, now)
    ensures Reached(zs, limit, |zs|, OpenFrom(now, limit, i))
    decreases |zs| - i
  {
    if i < |zs| {
      if now[i].cond == Closed {
        TurnOpens(zs, limit, i, now);
        LoopReaches(zs, limit, i + 1, OpenStep(now, limit, i));
      } else {
        Found(zs, limit, i, now);
        LoopReaches(zs, limit, i + 1, now);
      }
    }
  }

  /** OPEN ALL, wherever it starts from: how many zones are then open in either way. */
  lemma OpenAllCounts(zs: seq<Zone>, limit: nat)
    requires AllOk(zs)
    ensures var zs', f := OpenFrom(zs, limit, 0), Room(zs, limit);
            var n := OpenCount(zs, f, |zs|);
            && Count(zs', ExpOpen) == Count(zs, ExpOpen) + n
            && Count(zs', ImpOpen) == Count(zs, ImpOpen) - Min(Count(zs, ImpOpen), Evictions(n, f))
  {
    assert Reached(zs, limit, 0, zs) by {
      assert forall k :: 0 <= k < |zs| ==> !Evicted(zs, k, 0);
    }
    LoopReaches(zs, limit, 0, zs);
  }

  /** OPEN ALL within the budget exceeds it if and only if the scan of the zones before it,
      left to right, counts more zones to be opened than are not explicitly open yet. */
  lemma OpenAllExact(zs: seq<Zone>, limit: nat)
    requires AllOk(zs) && Opens(zs) <= limit
    ensures Opens(OpenFrom(zs, limit, 0)) > limit <==> Overruns(zs, limit)
  {
    OpenAllCounts(zs, limit);
  }

  /** When the open and the closed zones fit the budget, every closed zone is opened and
      nothing else changes. */
  lemma {:induction false} OpenAllFits(zs: seq<Zone>, limit: nat, i: nat)
    requires i <= |zs| && Opens(zs) + Count(zs, Closed) <= limit
    ensures |OpenFrom(zs, limit, i)| == |zs|
    ensures forall k :: 0 <= k < |zs| ==>
              OpenFrom(zs, limit, i)[k] == if k >= i && zs[k].cond == Closed then zs[k].(cond := ExpOpen) else zs[k]
    decreases |zs| - i
  {
    if i < |zs| {
      if zs[i].cond == Closed {
        var z := zs[i].(cond := ExpOpen);
        CountAtLeast(zs, i, Closed);
        CountSet(zs, i, z, Closed);
        CountSet(zs, i, z, ImpOpen);
        CountSet(zs, i, z, ExpOpen);
        assert OpenStep(zs, limit, i) == zs[i := z];
        OpenAllFits(zs[i := z], limit, i + 1);
      } else {
        OpenAllFits(zs, limit, i + 1);
      }
    }
  }

  // ---- Every run --------------------------------------------------------------------------

  /** Command k is an OPEN ALL that is carried out and overruns. */
  ghost predicate OverrunAt(g: Shape, cmds: seq<Command>, statuses: seq<Status>, trace: seq<Media>, k: nat)
    requires k < |cmds| <= |statuses| && |cmds| < |trace|
  {
    cmds[k].OpenAllZones? && statuses[k] == Ok && Overruns(trace[k].zs, g.limit)
  }

  lemma StepBudget(g: Shape, cmds: seq<Command>, statuses: seq<Status>, dones: seq<nat>, trace: seq<Media>, k: nat)
    requires g.zoneSize > 0 && Run(g, cmds, statuses, dones, trace) && k < |cmds|
    requires AllOk(trace[0].zs) && Opens(trace[k].zs) <= g.limit
    ensures Opens(trace[k + 1].zs) <= g.limit <==> !OverrunAt(g, cmds, statuses, trace, k)
  {
    assert AllOk(trace[k].zs) by {
      assert k > 0 ==> StepAt(g, cmds, statuses, dones, trace, k - 1);
    }
    assert StepAt(g, cmds, statuses, dones, trace, k);
    OpenAllExact(trace[k].zs, g.limit);
  }

  lemma {:induction false} NoOverrun(g: Shape, cmds: seq<Command>, statuses: seq<Status>, dones: seq<nat>, trace: seq<Media>, k: nat)
    requires g.zoneSize > 0 && Run(g, cmds, statuses, dones, trace) && k <= |cmds|
    requires AllOk(trace[0].zs) && Opens(trace[0].zs) <= g.limit
    requires forall j :: 0 <= j < k ==> !OverrunAt(g, cmds, statuses, trace, j)
    ensures Opens(trace[k].zs) <= g.limit
  {
    if k > 0 {
      NoOverrun(g, cmds, statuses, dones, trace, k - 1);
      StepBudget(g, cmds, statuses, dones, trace, k - 1);
    }
  }

  /** In every run that begins within the budget, the budget holds throughout if and only if
      no OPEN ALL overruns. */
  lemma RunBudget(g: Shape, cmds: seq<Command>, statuses: seq<Status>, dones: seq<nat>, trace: seq<Media>)
    requires g.zoneSize > 0 && Run(g, cmds, statuses, dones, trace)
    requires AllOk(trace[0].zs) && Opens(trace[0].zs) <= g.limit
    ensures (forall k :: 0 <= k <= |cmds| ==> Opens(trace[k].zs) <= g.limit) <==>
            (forall k :: 0 <= k < |cmds| ==> !OverrunAt(g, cmds, statuses, trace, k))
  {
    if forall k :: 0 <= k <= |cmds| ==> Opens(trace[k].zs) <= g.limit {
      forall k | 0 <= k < |cmds| ensures !OverrunAt(g, cmds, statuses, trace, k) {
        StepBudget(g, cmds, statuses, dones, trace, k);
      }
    }
    if forall k :: 0 <= k < |cmds| ==> !OverrunAt(g, cmds, statuses, trace, k) {
      forall k | 0 <= k <= |cmds| ensures Opens(trace[k].zs) <= g.limit {
        NoOverrun(g, cmds, statuses, dones, trace, k);
      }
    }
  }
}
