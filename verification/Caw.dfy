/** COMPARE AND WRITE in tcmur_cmd_handler.c: a read, a comparison and a write as a chain of
    callbacks under caw_lock.  Any number of them at once behave like one after the other;
    a plain WRITE does not take the lock, and what it may then do is stated exactly. */
module Caw {
  import opened Blocks

  /** The bytes at `off` are compared with `verify` and, if equal, replaced by `write`. */
  datatype Command = Command(off: nat, verify: seq<Block>, write: seq<Block>)

  /** `begun` says that the write was handed to the handler before the failure. */
  datatype Result = Swapped | Miscompare(at: nat) | Failed(begun: bool)

  /** Waiting for the lock; with the read scheduled; with its bytes; with the write scheduled;
      completed. */
  datatype Phase = Waiting | Reading | Read(bytes: seq<Block>) | Writing | Done(result: Result)

  datatype Holder = Free | Held(t: nat)

  datatype Event = Ended(t: nat) | Wrote(off: nat, data: seq<Block>)

  /** `log` lists the commands as they let go of the lock and the plain writes between them,
      and `past` the contents of the device before the first of these and after each. */
  datatype System =
    System(disk: seq<Block>, holder: Holder, phases: seq<Phase>, log: seq<Event>, past: seq<seq<Block>>)

  predicate WellFormed(c: Command, size: nat) {
    |c.verify| == |c.write| > 0 && c.off + |c.write| <= size
  }

  /** The bytes a command is about. */
  function At(disk: seq<Block>, c: Command): (bytes: seq<Block>)
    requires WellFormed(c, |disk|)
    ensures |bytes| == |c.write|
  {
    disk[c.off..c.off + |c.write|]
  }

  /** tcmu_iovec_compare on one buffer: the first index at which the two differ, or -1. */
  function FirstDifference(a: seq<Block>, b: seq<Block>): (k: int)
    requires |a| == |b|
    ensures k == -1 <==> a == b
    ensures k != -1 ==> 0 <= k < |a| && a[..k] == b[..k] && a[k] != b[k]
  {
    if a == [] then -1
    else
      var n := |a| - 1;
      assert a == a[..n] + [a[n]] && b == b[..n] + [b[n]];
      var k := FirstDifference(a[..n], b[..n]);
      if k != -1 then assert a[..n][..k] == a[..k] && b[..n][..k] == b[..k]; k
      else if a[n] != b[n] then n
      else -1
  }

  /** Answers of the scheduler and the handler are part of a step; a failed write may leave
      anything in its bytes. */
  datatype Move =
    | Lock(t: nat)
    | ReadRefused(t: nat)
    | ReadDone(t: nat, ok: bool)
    | Compared(t: nat, accepted: bool)
    | WriteDone(t: nat, ok: bool, junk: seq<Block>)
    | Plain(off: nat, data: seq<Block>)

  predicate Enabled(s: System, cmds: seq<Command>, m: Move)
    requires |s.phases| == |cmds|
  {
    match m
    case Lock(t) => t < |s.phases| && s.phases[t].Waiting? && s.holder.Free?
    case ReadRefused(t) => t < |s.phases| && s.phases[t].Reading?
    case ReadDone(t, _) => t < |s.phases| && s.phases[t].Reading?
    case Compared(t, _) => t < |s.phases| && s.phases[t].Read?
    case WriteDone(t, _, junk) => t < |s.phases| && s.phases[t].Writing? && |junk| == |cmds[t].write|
    case Plain(off, data) => off + |data| <= |s.disk|
  }

  /** Lets go of the lock and completes the command. */
  function Finish(s: System, t: nat, disk: seq<Block>, r: Result): System
    requires t < |s.phases|
  {
    System(disk, Free, s.phases[t := Done(r)], s.log + [Ended(t)], s.past + [disk])
  }

  function Advance(s: System, t: nat, p: Phase): System
    requires t < |s.phases|
  {
    s.(holder := Held(t), phases := s.phases[t := p])
  }

  function Step(s: System, cmds: seq<Command>, m: Move): System
    requires Shape(s, cmds) && Enabled(s, cmds, m)
  {
    match m
    case Lock(t) => Advance(s, t, Reading)
    case ReadRefused(t) => Finish(s, t, s.disk, Failed(false))
    case ReadDone(t, ok) =>
      if ok then Advance(s, t, Read(At(s.disk, cmds[t]))) else Finish(s, t, s.disk, Failed(false))
    case Compared(t, accepted) =>
      var k := FirstDifference(s.phases[t].bytes, cmds[t].verify);
      if k != -1 then Finish(s, t, s.disk, Miscompare(k))
      else if accepted then Advance(s, t, Writing)
      else Finish(s, t, s.disk, Failed(false))
    case WriteDone(t, ok, junk) =>
      if ok then Finish(s, t, Put(s.disk, cmds[t].off, cmds[t].write), Swapped)
      else Finish(s, t, Put(s.disk, cmds[t].off, junk), Failed(true))
    case Plain(off, data) =>
      var disk := Put(s.disk, off, data);
      s.(disk := disk, log := s.log + [Wrote(off, data)], past := s.past + [disk])
  }

  predicate Shape(s: System, cmds: seq<Command>) {
    && |s.phases| == |cmds| && |s.past| == |s.log| + 1 && s.past[|s.log|] == s.disk
    && (forall t :: 0 <= t < |cmds| ==> WellFormed(cmds[t], |s.disk|))
    && (forall t :: 0 <= t < |cmds| && s.phases[t].Read? ==> |s.phases[t].bytes| == |cmds[t].verify|)
  }

  // ---- What it should mean ---------------------------------------------------------------

  /** One command carried out all at once: it swaps only what is as expected; otherwise it
      reports the first difference and changes nothing; a failure changes nothing unless the
      write had begun, and then only the command's own bytes, which were as expected. */
  ghost predicate Atomic(disk: seq<Block>, c: Command, r: Result, disk': seq<Block>) {
    && WellFormed(c, |disk|) && |disk'| == |disk|
    && match r
       case Swapped => At(disk, c) == c.verify && disk' == Put(disk, c.off, c.write)
       case Miscompare(k) =>
         disk' == disk && k < |c.verify| && At(disk, c)[..k] == c.verify[..k] && At(disk, c)[k] != c.verify[k]
       case Failed(begun) => if begun then At(disk, c) == c.verify && Spares(disk, c, disk') else disk' == disk
  }

  ghost predicate Spares(disk: seq<Block>, c: Command, disk': seq<Block>)
    requires |disk'| == |disk|
  {
    forall i :: 0 <= i < |disk| && !(c.off <= i < c.off + |c.write|) ==> disk'[i] == disk[i]
  }

  /** Entry k of the log, taken alone, leads from past[k] to past[k + 1]. */
  ghost predicate Serial(s: System, cmds: seq<Command>, k: nat)
    requires k < |s.log| && |s.past| == |s.log| + 1 && |s.phases| == |cmds|
  {
    match s.log[k]
    case Ended(t) =>
      t < |cmds| && s.phases[t].Done? && Atomic(s.past[k], cmds[t], s.phases[t].result, s.past[k + 1])
    case Wrote(off, data) => off + |data| <= |s.past[k]| && s.past[k + 1] == Put(s.past[k], off, data)
  }

  // ---- What every step keeps -------------------------------------------------------------

  /** Only the holder is inside, and what it has read is still there. */
  ghost predicate Inside(disk: seq<Block>, holder: Holder, phase: Phase, c: Command, t: nat)
    requires WellFormed(c, |disk|)
  {
    match phase
    case Waiting => holder != Held(t)
    case Reading => holder == Held(t)
    case Read(bytes) => holder == Held(t) && bytes == At(disk, c)
    case Writing => holder == Held(t) && c.verify == At(disk, c)
    case Done(_) => holder != Held(t)
  }

  ghost predicate Settled(s: System, cmds: seq<Command>)
    requires Shape(s, cmds)
  {
    && (forall k :: 0 <= k < |s.log| ==> Serial(s, cmds, k))
    && (forall t :: 0 <= t < |cmds| ==> (s.phases[t].Done? <==> Ended(t) in s.log))
    && (forall j, k :: 0 <= j < k < |s.log| && s.log[j].Ended? ==> s.log[j] != s.log[k])
  }

  ghost predicate Inv(s: System, cmds: seq<Command>) {
    && Shape(s, cmds) && (s.holder.Held? ==> s.holder.t < |cmds|)
    && (forall t :: 0 <= t < |cmds| ==> Inside(s.disk, s.holder, s.phases[t], cmds[t], t))
    && Settled(s, cmds)
  }

  lemma FinishSettles(s: System, cmds: seq<Command>, t: nat, disk: seq<Block>, r: Result)
    requires Shape(s, cmds) && Settled(s, cmds) && t < |cmds| && !s.phases[t].Done?
    requires Atomic(s.disk, cmds[t], r, disk)
    ensures Shape(Finish(s, t, disk, r), cmds) && Settled(Finish(s, t, disk, r), cmds)
  {
    var s', n := Finish(s, t, disk, r), |s.log|;
    assert s'.log[n] == Ended(t);
    forall k | 0 <= k < |s'.log| ensures Serial(s', cmds, k) {
      if k < n {
        assert Serial(s, cmds, k) && s'.log[k] == s.log[k] && s.log[k] != Ended(t);
      }
    }
    forall u | 0 <= u < |cmds| ensures s'.phases[u].Done? <==> Ended(u) in s'.log {
      assert Ended(u) in s'.log <==> Ended(u) in s.log || u == t;
    }
  }

  /** Letting go after one command's own bytes changed concerns nobody else: nobody else is
      inside. */
  lemma FinishKeeps(s: System, cmds: seq<Command>, t: nat, disk: seq<Block>, r: Result)
    requires Inv(s, cmds) && t < |cmds| && !s.phases[t].Waiting? && !s.phases[t].Done?
    requires Atomic(s.disk, cmds[t], r, disk)
    ensures Inv(Finish(s, t, disk, r), cmds)
  {
    assert Inside(s.disk, s.holder, s.phases[t], cmds[t], t);
    FinishSettles(s, cmds, t, disk, r);
    var s' := Finish(s, t, disk, r);
    forall u | 0 <= u < |cmds| ensures Inside(disk, Free, s'.phases[u], cmds[u], u) {
      assert Inside(s.disk, s.holder, s.phases[u], cmds[u], u);
    }
  }

  lemma AdvanceKeeps(s: System, cmds: seq<Command>, t: nat, p: Phase)
    requires Inv(s, cmds) && t < |cmds| && (s.holder == Held(t) || s.holder.Free?)
    requires !s.phases[t].Done? && !p.Done? && Inside(s.disk, Held(t), p, cmds[t], t)
    ensures Inv(Advance(s, t, p), cmds)
  {
    var s' := Advance(s, t, p);
    forall u | 0 <= u < |cmds| ensures Inside(s'.disk, s'.holder, s'.phases[u], cmds[u], u) {
      assert Inside(s.disk, s.holder, s.phases[u], cmds[u], u);
    }
    forall k | 0 <= k < |s'.log| ensures Serial(s', cmds, k) {
      assert Serial(s, cmds, k) && s.log[k] != Ended(t);
    }
  }

  /** A plain write that changes nothing a command has read and not yet acted on. */
  ghost predicate Clear(s: System, cmds: seq<Command>, off: nat, data: seq<Block>)
    requires Shape(s, cmds) && off + |data| <= |s.disk|
  {
    forall t :: 0 <= t < |cmds| && (s.phases[t].Read? || s.phases[t].Writing?) ==>
      At(Put(s.disk, off, data), cmds[t]) == At(s.disk, cmds[t])
  }

  lemma PlainKeeps(s: System, cmds: seq<Command>, off: nat, data: seq<Block>)
    requires Inv(s, cmds) && off + |data| <= |s.disk| && Clear(s, cmds, off, data)
    ensures Inv(Step(s, cmds, Plain(off, data)), cmds)
  {
    var s', n := Step(s, cmds, Plain(off, data)), |s.log|;
    assert s'.log[n] == Wrote(off, data);
    forall u | 0 <= u < |cmds|
      ensures Inside(s'.disk, s'.holder, s'.phases[u], cmds[u], u) && (s'.phases[u].Done? <==> Ended(u) in s'.log)
    {
      assert Inside(s.disk, s.holder, s.phases[u], cmds[u], u);
      assert Ended(u) in s'.log <==> Ended(u) in s.log;
    }
    forall k | 0 <= k < |s'.log| ensures Serial(s', cmds, k) {
      if k < n {
        assert Serial(s, cmds, k) && s'.log[k] == s.log[k];
      }
    }
  }

  lemma PutSpares(disk: seq<Block>, c: Command, data: seq<Block>)
    requires WellFormed(c, |disk|) && |data| == |c.write|
    ensures Spares(disk, c, Put(disk, c.off, data))
  {
    forall i | 0 <= i < |disk| && !(c.off <= i < c.off + |c.write|) ensures Put(disk, c.off, data)[i] == disk[i] {
      PutAt(disk, c.off, data, i);
    }
  }

  lemma StepKeeps(s: System, cmds: seq<Command>, m: Move)
    requires Inv(s, cmds) && Enabled(s, cmds, m)
    requires m.Plain? ==> Clear(s, cmds, m.off, m.data)
    ensures Inv(Step(s, cmds, m), cmds)
  {
    match m
    case Plain(off, data) => PlainKeeps(s, cmds, off, data);
    case Lock(t) =>
      AdvanceKeeps(s, cmds, t, Reading);
    case ReadRefused(t) =>
      FinishKeeps(s, cmds, t, s.disk, Failed(false));
    case ReadDone(t, ok) =>
      if ok {
        assert Inside(s.disk, s.holder, s.phases[t], cmds[t], t);
        AdvanceKeeps(s, cmds, t, Read(At(s.disk, cmds[t])));
      } else {
        FinishKeeps(s, cmds, t, s.disk, Failed(false));
      }
    case Compared(t, accepted) =>
      assert Inside(s.disk, s.holder, s.phases[t], cmds[t], t);
      if FirstDifference(s.phases[t].bytes, cmds[t].verify) == -1 && accepted {
        AdvanceKeeps(s, cmds, t, Writing);
      } else {
        var k := FirstDifference(s.phases[t].bytes, cmds[t].verify);
        FinishKeeps(s, cmds, t, s.disk, if k != -1 then Miscompare(k) else Failed(false));
      }
    case WriteDone(t, ok, junk) =>
      assert Inside(s.disk, s.holder, s.phases[t], cmds[t], t);
      if ok {
        FinishKeeps(s, cmds, t, Put(s.disk, cmds[t].off, cmds[t].write), Swapped);
      } else {
        PutSpares(s.disk, cmds[t], junk);
        FinishKeeps(s, cmds, t, Put(s.disk, cmds[t].off, junk), Failed(true));
      }
  }

  // ---- Every run -------------------------------------------------------------------------

  function Start(disk: seq<Block>, n: nat): System {
    System(disk, Free, seq(n, _ => Waiting), [], [disk])
  }

  /** A run from the start in which the plain writes are clear of the commands. */
  ghost predicate Possible(disk: seq<Block>, cmds: seq<Command>, moves: seq<Move>)
    decreases |moves|, 0
  {
    moves == [] ||
    var n := |moves| - 1;
    Possible(disk, cmds, moves[..n]) &&
    var s := After(disk, cmds, moves[..n]);
    Shape(s, cmds) && Enabled(s, cmds, moves[n]) &&
    (moves[n].Plain? ==> Clear(s, cmds, moves[n].off, moves[n].data))
  }

  ghost function After(disk: seq<Block>, cmds: seq<Command>, moves: seq<Move>): System
    requires Possible(disk, cmds, moves)
    decreases |moves|, 1
  {
    if moves == [] then Start(disk, |cmds|)
    else
      var n := |moves| - 1;
      Step(After(disk, cmds, moves[..n]), cmds, moves[n])
  }

  /** The plain writes of a log, and those of a run. */
  function Writes(log: seq<Event>): seq<Event> {
    if log == [] then []
    else
      var n := |log| - 1;
      Writes(log[..n]) + if log[n].Wrote? then [log[n]] else []
  }

  function Plains(moves: seq<Move>): seq<Event> {
    if moves == [] then []
    else
      var n := |moves| - 1;
      Plains(moves[..n]) + if moves[n].Plain? then [Wrote(moves[n].off, moves[n].data)] else []
  }

  function Rank(p: Phase): nat {
    match p
    case Waiting => 4
    case Reading => 3
    case Read(_) => 2
    case Writing => 1
    case Done(_) => 0
  }

  /** The steps that are left at most. */
  function Work(phases: seq<Phase>): nat {
    if phases == [] then 0
    else
      var n := |phases| - 1;
      Work(phases[..n]) + Rank(phases[n])
  }

  lemma {:induction false} WorkUpdate(phases: seq<Phase>, t: nat, p: Phase)
    requires t < |phases|
    ensures Work(phases[t := p]) == Work(phases) - Rank(phases[t]) + Rank(p)
  {
    var n := |phases| - 1;
    if t == n {
      assert phases[t := p][..n] == phases[..n];
    } else {
      assert phases[t := p][..n] == phases[..n][t := p];
      WorkUpdate(phases[..n], t, p);
    }
  }

  lemma {:induction false} WorkStart(n: nat)
    ensures Work(seq(n, _ => Waiting)) == 4 * n
  {
    if n > 0 {
      assert seq(n, _ => Waiting)[..n - 1] == seq(n - 1, _ => Waiting);
      WorkStart(n - 1);
    }
  }

  lemma StepWorks(s: System, cmds: seq<Command>, m: Move)
    requires Shape(s, cmds) && Enabled(s, cmds, m)
    ensures Work(Step(s, cmds, m).phases) <= Work(s.phases) - if m.Plain? then 0 else 1
  {
    var s' := Step(s, cmds, m);
    if !m.Plain? {
      WorkUpdate(s.phases, m.t, s'.phases[m.t]);
    }
  }

  lemma StepWrites(s: System, cmds: seq<Command>, m: Move)
    requires Shape(s, cmds) && Enabled(s, cmds, m)
    ensures Writes(Step(s, cmds, m).log) == Writes(s.log) + if m.Plain? then [Wrote(m.off, m.data)] else []
    ensures |Step(s, cmds, m).past| > 0 && Step(s, cmds, m).past[0] == s.past[0]
  {
    var s' := Step(s, cmds, m);
    if s'.log != s.log {
      assert s'.log[..|s.log|] == s.log;
    }
  }

  lemma {:induction false} RunKeeps(disk: seq<Block>, cmds: seq<Command>, moves: seq<Move>)
    requires forall t :: 0 <= t < |cmds| ==> WellFormed(cmds[t], |disk|)
    requires Possible(disk, cmds, moves)
    ensures Inv(After(disk, cmds, moves), cmds)
    ensures After(disk, cmds, moves).past[0] == disk && Writes(After(disk, cmds, moves).log) == Plains(moves)
    ensures |moves| - |Plains(moves)| + Work(After(disk, cmds, moves).phases) <= 4 * |cmds|
  {
    if moves == [] {
      WorkStart(|cmds|);
    } else {
      var n := |moves| - 1;
      RunKeeps(disk, cmds, moves[..n]);
      var s := After(disk, cmds, moves[..n]);
      StepKeeps(s, cmds, moves[n]);
      StepWorks(s, cmds, moves[n]);
      StepWrites(s, cmds, moves[n]);
    }
  }

  /** However the chains interleave, what the device holds and what each command reports is
      what the commands give one after the other, each at once, in the order in which they let
      go of the lock, with the plain writes in between; and each is in that order once. */
  lemma EveryRun(disk: seq<Block>, cmds: seq<Command>, moves: seq<Move>, s: System)
    requires forall t :: 0 <= t < |cmds| ==> WellFormed(cmds[t], |disk|)
    requires Possible(disk, cmds, moves) && s == After(disk, cmds, moves)
    ensures |s.phases| == |cmds| && |s.past| == |s.log| + 1 && s.past[0] == disk && s.past[|s.log|] == s.disk
    ensures forall k :: 0 <= k < |s.log| ==> Serial(s, cmds, k)
    ensures forall t :: 0 <= t < |cmds| ==> (s.phases[t].Done? <==> Ended(t) in s.log)
    ensures forall j, k :: 0 <= j < k < |s.log| && s.log[j].Ended? ==> s.log[j] != s.log[k]
    ensures Writes(s.log) == Plains(moves)
  {
    RunKeeps(disk, cmds, moves);
  }

  /** No command waits for ever: while one is not completed some command can move, and all of
      them together move at most four times each. */
  lemma EveryCommandEnds(disk: seq<Block>, cmds: seq<Command>, moves: seq<Move>, t: nat) returns (m: Move)
    requires forall u :: 0 <= u < |cmds| ==> WellFormed(cmds[u], |disk|)
    requires Possible(disk, cmds, moves) && t < |cmds| && |After(disk, cmds, moves).phases| == |cmds|
    requires !After(disk, cmds, moves).phases[t].Done?
    ensures !m.Plain? && Possible(disk, cmds, moves + [m])
    ensures |moves| - |Plains(moves)| < 4 * |cmds|
  {
    RunKeeps(disk, cmds, moves);
    var s := After(disk, cmds, moves);
    var u := if s.holder.Held? then s.holder.t else t;
    assert Inside(s.disk, s.holder, s.phases[u], cmds[u], u);
    assert Inside(s.disk, s.holder, s.phases[t], cmds[t], t);
    m := match s.phases[u]
      case Waiting => Lock(u)
      case Reading => ReadDone(u, true)
      case Read(_) => Compared(u, true)
      case Writing => WriteDone(u, true, cmds[u].write)
      case Done(_) => Lock(u);
    assert (moves + [m])[..|moves|] == moves;
    assert Enabled(s, cmds, m);
    StepWorks(s, cmds, m);
  }

  // ---- A plain write in the middle -------------------------------------------------------

  /** The byte at i of the bytes a placed at x. */
  function Byte(x: nat, a: seq<Block>, i: nat): Block
    requires x <= i < x + |a|
  {
    a[i - x]
  }

  /** Two ranges of bytes that hold the same wherever they meet. */
  ghost predicate Agree(x: nat, a: seq<Block>, y: nat, b: seq<Block>) {
    forall i :: x <= i < x + |a| && y <= i < y + |b| ==> Byte(x, a, i) == Byte(y, b, i)
  }

  lemma AtAt(disk: seq<Block>, c: Command, k: nat)
    requires WellFormed(c, |disk|) && k < |c.write|
    ensures At(disk, c)[k] == disk[c.off + k]
  {
  }

  /** The bytes of a command after a plain write. */
  lemma IntruderAt(disk: seq<Block>, c: Command, off: nat, data: seq<Block>, k: nat, i: nat)
    requires WellFormed(c, |disk|) && off + |data| <= |disk| && k < |c.write| && i == c.off + k
    ensures At(Put(disk, off, data), c)[k] == if off <= i < off + |data| then Byte(off, data, i) else At(disk, c)[k]
  {
    PutAt(disk, off, data, i);
    AtAt(disk, c, k);
    AtAt(Put(disk, off, data), c, k);
  }

  lemma IntruderVerifies(disk: seq<Block>, c: Command, off: nat, data: seq<Block>)
    requires WellFormed(c, |disk|) && At(disk, c) == c.verify && off + |data| <= |disk|
    ensures At(Put(disk, off, data), c) == c.verify <==> Agree(off, data, c.off, c.verify)
  {
    if Agree(off, data, c.off, c.verify) {
      AgreeVerifies(disk, c, off, data);
    }
    if At(Put(disk, off, data), c) == c.verify {
      forall i | off <= i < off + |data| && c.off <= i < c.off + |c.verify|
        ensures Byte(off, data, i) == Byte(c.off, c.verify, i)
      {
        IntruderAt(disk, c, off, data, i - c.off, i);
      }
    }
  }

  lemma AgreeVerifies(disk: seq<Block>, c: Command, off: nat, data: seq<Block>)
    requires WellFormed(c, |disk|) && At(disk, c) == c.verify && off + |data| <= |disk|
    requires Agree(off, data, c.off, c.verify)
    ensures At(Put(disk, off, data), c) == c.verify
  {
    var bytes := At(Put(disk, off, data), c);
    forall k | 0 <= k < |bytes| ensures bytes[k] == c.verify[k] {
      IntruderAt(disk, c, off, data, k, c.off + k);
      assert Byte(c.off, c.verify, c.off + k) == c.verify[k];
    }
  }

  lemma PutsAt(disk: seq<Block>, x: nat, a: seq<Block>, y: nat, b: seq<Block>, i: nat)
    requires x + |a| <= |disk| && y + |b| <= |disk| && i < |disk|
    ensures Put(Put(disk, x, a), y, b)[i] ==
            if y <= i < y + |b| then Byte(y, b, i) else if x <= i < x + |a| then Byte(x, a, i) else disk[i]
  {
    PutAt(disk, x, a, i);
    PutAt(Put(disk, x, a), y, b, i);
  }

  lemma PutsCommute(disk: seq<Block>, x: nat, a: seq<Block>, y: nat, b: seq<Block>)
    requires x + |a| <= |disk| && y + |b| <= |disk|
    ensures Put(Put(disk, x, a), y, b) == Put(Put(disk, y, b), x, a) <==> Agree(x, a, y, b)
  {
    var ab, ba := Put(Put(disk, x, a), y, b), Put(Put(disk, y, b), x, a);
    if Agree(x, a, y, b) {
      forall i | 0 <= i < |disk| ensures ab[i] == ba[i] {
        PutsAt(disk, x, a, y, b, i);
        PutsAt(disk, y, b, x, a, i);
      }
    }
    if ab == ba {
      forall i | x <= i < x + |a| && y <= i < y + |b| ensures Byte(x, a, i) == Byte(y, b, i) {
        PutsAt(disk, x, a, y, b, i);
        PutsAt(disk, y, b, x, a, i);
      }
    }
  }

  /** A plain write between the read and the write of a command that then reports success.
      Doing the write first explains the outcome exactly if the write agrees with what the
      command expects; doing it last, exactly if it agrees with what the command writes.  If
      it agrees with neither the command was not atomic. */
  lemma Intruder(disk: seq<Block>, c: Command, off: nat, data: seq<Block>)
    requires WellFormed(c, |disk|) && At(disk, c) == c.verify && off + |data| <= |disk|
    ensures var s0 := Start(disk, 1);
            var s1 := Step(s0, [c], Lock(0));
            var s2 := Step(s1, [c], ReadDone(0, true));
            var s3 := Step(s2, [c], Plain(off, data));
            var s4 := Step(s3, [c], Compared(0, true));
            var s5 := Step(s4, [c], WriteDone(0, true, c.write));
            && s5.phases == [Done(Swapped)]
            && (Atomic(Put(disk, off, data), c, Swapped, s5.disk) <==> Agree(off, data, c.off, c.verify))
            && (s5.disk == Put(Put(disk, c.off, c.write), off, data) <==> Agree(off, data, c.off, c.write))
  {
    IntruderVerifies(disk, c, off, data);
    PutsCommute(disk, off, data, c.off, c.write);
  }
}
