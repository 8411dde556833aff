/** In-flight accounting and coalesced kernel wakeups of tcmur_aio.c, for any number of
    threads completing commands at once. */
module Wakeup {

  // ---- The tracking queue ------------------------------------------------------------

  /** struct tcmu_track_aio: operations in flight, wakeups asked for and not yet finished,
      and whether someone waits for the queue to empty. */
  datatype Track = Track(ops: nat, pending: nat, waiter: bool)

  function Started(k: Track): Track {
    k.(ops := k.ops + 1)
  }

  /** track_aio_request_finish, with or without a wakeup. */
  function Finished(k: Track, wake: bool): Track
    requires k.ops > 0
  {
    Track(k.ops - 1, if wake then k.pending + 1 else k.pending, k.waiter && k.ops > 1)
  }

  function WakeupFinished(k: Track): Track
    requires k.pending > 0
  {
    k.(pending := if k.pending > 1 then 1 else 0)
  }

  class AioTrack {
    var trackedAioOps: nat
    var pendingWakeups: nat
    var isEmptyCond: bool

    function Value(): Track
      reads this
    {
      Track(trackedAioOps, pendingWakeups, isEmptyCond)
    }

    constructor ()
      ensures Value() == Track(0, 0, false)
    {
      trackedAioOps, pendingWakeups, isEmptyCond := 0, 0, false;
    }

    method RequestStart()
      modifies this
      ensures Value() == Started(old(Value()))
    {
      trackedAioOps := trackedAioOps + 1;
    }

    /** The caller owns the wakeup exactly when none was pending; a waiter is signalled
        exactly when the last operation finishes. */
    method RequestFinish(wake: bool) returns (wakeUp: bool, signalled: bool)
      requires trackedAioOps > 0
      modifies this
      ensures Value() == Finished(old(Value()), wake)
      ensures wakeUp <==> wake && old(pendingWakeups) == 0
      ensures signalled <==> old(isEmptyCond) && trackedAioOps == 0
    {
      trackedAioOps := trackedAioOps - 1;
      wakeUp, signalled := false, false;
      if wake {
        pendingWakeups := pendingWakeups + 1;
        wakeUp := pendingWakeups == 1;
      }
      if trackedAioOps == 0 && isEmptyCond {
        isEmptyCond, signalled := false, true;
      }
    }

    /** The owner must kick again exactly when a wakeup was asked for meanwhile. */
    method WakeupFinish() returns (wakeUp: bool)
      requires pendingWakeups > 0
      modifies this
      ensures Value() == WakeupFinished(old(Value()))
      ensures wakeUp <==> pendingWakeups > 0
    {
      if pendingWakeups > 1 {
        pendingWakeups, wakeUp := 1, true;
      } else {
        pendingWakeups, wakeUp := 0, false;
      }
    }
  }

  // ---- Threads in aio_command_finish -------------------------------------------------

  /** Where a completing thread stands: outside; with its command put back in the ring; about
      to kick; having kicked and not yet finished the wakeup. */
  datatype Pc = Idle | Returned | ToKick | Kicked

  /** What happened, in order: a command is back in the ring, it is counted, a kick begins. */
  datatype Event = InRing(thread: nat) | Counted(thread: nat) | Kick(thread: nat)

  datatype System = System(track: Track, pcs: seq<Pc>, trace: seq<Event>)

  /** The thread is inside the while loop of aio_command_finish. */
  predicate Owns(pc: Pc) {
    pc.ToKick? || pc.Kicked?
  }

  datatype Move = Begin | Quiet | Return(t: nat) | Count(t: nat) | KickNow(t: nat) | FinishWakeup(t: nat)

  /** A thread returns a command only if one is in flight that no other thread is returning;
      the last conjuncts of Count and FinishWakeup are the assertions in the code. */
  predicate Enabled(s: System, m: Move) {
    match m
    case Begin => true
    case Quiet => Busy(s.pcs) < s.track.ops
    case Return(t) => t < |s.pcs| && s.pcs[t].Idle? && Busy(s.pcs) < s.track.ops
    case Count(t) => t < |s.pcs| && s.pcs[t].Returned? && s.track.ops > 0
    case KickNow(t) => t < |s.pcs| && s.pcs[t].ToKick?
    case FinishWakeup(t) => t < |s.pcs| && s.pcs[t].Kicked? && s.track.pending > 0
  }

  /** One atomic step: a command starts, one ends without a wakeup (completed synchronously), or
      one thread moves on through aio_command_finish. */
  function Step(s: System, m: Move): System
    requires Enabled(s, m)
  {
    match m
    case Begin => s.(track := Started(s.track))
    case Quiet => s.(track := Finished(s.track, false))
    case Return(t) => s.(pcs := s.pcs[t := Returned], trace := s.trace + [InRing(t)])
    case Count(t) =>
      var k := Finished(s.track, true);
      System(k, s.pcs[t := if k.pending == 1 then ToKick else Idle], s.trace + [Counted(t)])
    case KickNow(t) => s.(pcs := s.pcs[t := Kicked], trace := s.trace + [Kick(t)])
    case FinishWakeup(t) =>
      var k := WakeupFinished(s.track);
      s.(track := k, pcs := s.pcs[t := if k.pending > 0 then ToKick else Idle])
  }

  /** The number of completions counted since the last kick began. */
  function Unseen(trace: seq<Event>): nat {
    if trace == [] then 0
    else match trace[|trace| - 1]
      case Kick(_) => 0
      case Counted(_) => 1 + Unseen(trace[..|trace| - 1])
      case InRing(_) => Unseen(trace[..|trace| - 1])
  }

  predicate Excluded(pcs: seq<Pc>, t: nat) {
    forall u :: 0 <= u < |pcs| && u != t ==> !Owns(pcs[u])
  }

  /** The number of threads that hold a command which is back in the ring and not counted. */
  function Busy(pcs: seq<Pc>): nat {
    if pcs == [] then 0 else Busy(pcs[..|pcs| - 1]) + if pcs[|pcs| - 1].Returned? then 1 else 0
  }

  lemma {:induction false} BusySet(pcs: seq<Pc>, t: nat, pc: Pc)
    requires t < |pcs|
    ensures Busy(pcs[t := pc]) == Busy(pcs) - (if pcs[t].Returned? then 1 else 0) + (if pc.Returned? then 1 else 0)
  {
    var n := |pcs| - 1;
    if t < n {
      BusySet(pcs[..n], t, pc);
      assert pcs[t := pc][..n] == pcs[..n][t := pc];
    } else {
      assert pcs[t := pc][..n] == pcs[..n];
    }
  }

  lemma {:induction false} BusyIdle(n: nat)
    ensures Busy(seq(n, _ => Idle)) == 0
  {
    var pcs: seq<Pc> := seq(n, _ => Idle);
    if n > 0 {
      BusyIdle(n - 1);
      assert pcs[..n - 1] == seq(n - 1, _ => Idle);
    }
  }

  ghost predicate Inv(s: System) {
    Busy(s.pcs) <= s.track.ops && WakeInv(s)
  }

  /** A wakeup is pending exactly when one thread owns the kick loop; and what that thread's
      last kick has not seen is still pending. */
  ghost predicate WakeInv(s: System) {
    if s.track.pending == 0 then
      Excluded(s.pcs, |s.pcs|) && Unseen(s.trace) == 0
    else
      exists t :: Owner(s, t)
  }

  predicate Owner(s: System, t: nat) {
    && t < |s.pcs| && Owns(s.pcs[t]) && Excluded(s.pcs, t)
    && (s.pcs[t].Kicked? ==> Unseen(s.trace) <= s.track.pending - 1)
  }

  function Initial(n: nat): System {
    System(Track(0, 0, false), seq(n, _ => Idle), [])
  }

  lemma UnseenPush(trace: seq<Event>, e: Event)
    ensures Unseen(trace + [e]) == match e case Kick(_) => 0 case Counted(_) => 1 + Unseen(trace) case InRing(_) => Unseen(trace)
  {
    assert (trace + [e])[..|trace|] == trace;
  }

  /** Whoever owns the loop is the one owner. */
  lemma TheOwner(s: System, t: nat)
    requires WakeInv(s) && t < |s.pcs| && Owns(s.pcs[t])
    ensures s.track.pending > 0 && Owner(s, t)
  {
    if s.track.pending > 0 {
      var u: nat :| Owner(s, u);
      assert u == t;
    }
  }

  lemma WakeKeeps(s: System, m: Move)
    requires WakeInv(s) && Enabled(s, m)
    ensures WakeInv(Step(s, m))
  {
    var s' := Step(s, m);
    match m
    case Begin => if s.track.pending > 0 { var u: nat :| Owner(s, u); assert Owner(s', u); }
    case Quiet => if s.track.pending > 0 { var u: nat :| Owner(s, u); assert Owner(s', u); }
    case Return(t) =>
      UnseenPush(s.trace, InRing(t));
      if s.track.pending > 0 { var u: nat :| Owner(s, u); assert Owner(s', u); }
    case Count(t) =>
      UnseenPush(s.trace, Counted(t));
      if s.track.pending == 0 {
        assert Owner(s', t);
      } else {
        var u: nat :| Owner(s, u);
        assert Owner(s', u);
      }
    case KickNow(t) =>
      TheOwner(s, t);
      UnseenPush(s.trace, Kick(t));
      assert Owner(s', t);
    case FinishWakeup(t) =>
      TheOwner(s, t);
      if s'.track.pending > 0 { assert Owner(s', t); }
  }

  lemma StepKeeps(s: System, m: Move)
    requires Inv(s) && Enabled(s, m)
    ensures Inv(Step(s, m))
  {
    WakeKeeps(s, m);
    if m != Begin && m != Quiet {
      BusySet(s.pcs, m.t, Step(s, m).pcs[m.t]);
    }
  }

  // ---- Every run ---------------------------------------------------------------------

  function Run(s: System, moves: seq<Move>): System
    requires AllEnabled(s, moves)
    decreases |moves|
  {
    if moves == [] then s else Run(Step(s, moves[0]), moves[1..])
  }

  predicate AllEnabled(s: System, moves: seq<Move>)
    decreases |moves|
  {
    moves != [] ==> Enabled(s, moves[0]) && AllEnabled(Step(s, moves[0]), moves[1..])
  }

  lemma {:induction false} RunKeeps(s: System, moves: seq<Move>)
    requires Inv(s) && AllEnabled(s, moves)
    ensures Inv(Run(s, moves))
    decreases |moves|
  {
    if moves != [] {
      StepKeeps(s, moves[0]);
      RunKeeps(Step(s, moves[0]), moves[1..]);
    }
  }

  /** Completion i of the trace is followed by a kick that began after it. */
  predicate KickedAfter(trace: seq<Event>, i: nat) {
    exists j :: i < j < |trace| && trace[j].Kick?
  }

  lemma {:induction false} SeenIsKicked(trace: seq<Event>, i: nat)
    requires Unseen(trace) == 0 && i < |trace| && trace[i].Counted?
    ensures KickedAfter(trace, i)
  {
    var n := |trace| - 1;
    if trace[n].Kick? {
      assert i < n < |trace| && trace[n].Kick?;
    } else {
      SeenIsKicked(trace[..n], i);
      var j :| i < j < n && trace[..n][j].Kick?;
      assert trace[j].Kick?;
    }
  }

  /** No lost wakeup: in every run of every number of threads a wakeup is pending exactly
      while one thread owns the kick loop, never two; and when none is pending, every
      counted completion is followed by a kick that began after it. */
  lemma NoLostWakeup(n: nat, moves: seq<Move>)
    requires AllEnabled(Initial(n), moves)
    ensures var s := Run(Initial(n), moves);
            && (s.track.pending > 0 <==> exists t :: 0 <= t < |s.pcs| && Owns(s.pcs[t]))
            && (forall t, u :: 0 <= t < |s.pcs| && 0 <= u < |s.pcs| && Owns(s.pcs[t]) && Owns(s.pcs[u]) ==> t == u)
            && (s.track.pending == 0 ==>
                  forall i :: 0 <= i < |s.trace| && s.trace[i].Counted? ==> KickedAfter(s.trace, i))
  {
    BusyIdle(n);
    RunKeeps(Initial(n), moves);
    var s := Run(Initial(n), moves);
    if s.track.pending == 0 {
      forall i | 0 <= i < |s.trace| && s.trace[i].Counted? ensures KickedAfter(s.trace, i) {
        SeenIsKicked(s.trace, i);
      }
    } else {
      var t: nat :| Owner(s, t);
      assert Owns(s.pcs[t]);
    }
  }

  lemma {:induction false} BusyThread(pcs: seq<Pc>, t: nat)
    requires t < |pcs| && pcs[t].Returned?
    ensures Busy(pcs) > 0
  {
    var n := |pcs| - 1;
    if t < n {
      BusyThread(pcs[..n], t);
    }
  }

  /** The two assertions in tcmur_aio.c never fail. */
  lemma AssertionsHold(n: nat, moves: seq<Move>, t: nat)
    requires AllEnabled(Initial(n), moves) && t < |Run(Initial(n), moves).pcs|
    ensures var s := Run(Initial(n), moves);
            (s.pcs[t].Returned? ==> s.track.ops > 0) && (s.pcs[t].Kicked? ==> s.track.pending > 0)
  {
    BusyIdle(n);
    RunKeeps(Initial(n), moves);
    var s := Run(Initial(n), moves);
    if s.pcs[t].Returned? {
      BusyThread(s.pcs, t);
    }
    if s.pcs[t].Kicked? {
      TheOwner(s, t);
    }
  }

  /** A pending wakeup is not stuck: its owner can always move. */
  lemma OwnerMoves(n: nat, moves: seq<Move>)
    requires AllEnabled(Initial(n), moves) && Run(Initial(n), moves).track.pending > 0
    ensures exists t :: Enabled(Run(Initial(n), moves), KickNow(t)) || Enabled(Run(Initial(n), moves), FinishWakeup(t))
  {
    BusyIdle(n);
    RunKeeps(Initial(n), moves);
    var s := Run(Initial(n), moves);
    var t: nat :| Owner(s, t);
    assert Enabled(s, KickNow(t)) || Enabled(s, FinishWakeup(t));
  }
}
