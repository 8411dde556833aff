/** The lock, reopen and stop protocols of one device (tcmur_device.c, alua.c, main.c), under
    implicit failover: every critical section and every handler callout is one step, and
    the threads that take them interleave freely. */
module DeviceState {

  datatype LockState = Unlocked | Locking | Locked

  /** The handler's own view: closed, being opened, open, being closed. */
  datatype Handler = Closed | Opening | Open | Closing

  /** Who is reopening the device: its port group's recovery thread or its lock thread. */
  datatype Who = Recovery | Locker

  /** __tcmu_reopen_dev, from the moment IN_RECOVERY is set. */
  datatype Reopen =
    | NoReopen
    | Begin(who: Who)
    | AwaitLocker(who: Who)
    | TakeOpenFlag(who: Who)
    | AwaitIdle(who: Who, needsClose: bool)
    | CallClose(who: Who, needsClose: bool)
    | InClose(who: Who)
    | CallOpen(who: Who, first: bool)
    | InOpen(who: Who)

  /** tcmu_acquire_dev_lock, from the moment lock_state is LOCKING. */
  datatype Acquire =
    | NoAcquire
    | AwaitQueue
    | Decide
    | NeedReopen(retries: nat)
    | InReopen(retries: nat)
    | CallLock(retries: nat)
    | DropConnection
    | Conclude(ok: bool)

  /** tcmur_stop_device; dev_removed may have set STOPPING before, while commands still run. */
  datatype Stop =
    | Running
    | Flagged
    | StopAwaitLocker
    | StopAwaitRecovery
    | StopRelease
    | StopUnlock
    | StopTakeOpenFlag
    | StopCallClose(isOpen: bool)
    | StopInClose
    | Stopped

  /** `counted` commands have counted themselves and not yet tested IN_RECOVERY; `passed`
      commands have tested it, found it clear, and are in flight.  `skipped` is history: since
      the last successful open, a reopen by the lock thread met STOPPING while a loss was on
      record, and did nothing. */
  datatype Device = Device(
    lock: LockState, lockLost: bool, isOpen: bool, inRecovery: bool,
    counted: nat, passed: nat,
    reopen: Reopen, acquire: Acquire, stop: Stop, handler: Handler, skipped: bool)

  const INITIAL := Device(Unlocked, false, true, false, 0, 0, NoReopen, NoAcquire, Running, Open, false)

  /** The flag TCMUR_DEV_FLAG_STOPPING. */
  predicate Stopping(s: Device) {
    !s.stop.Running?
  }

  /** The command thread is still taking commands. */
  predicate Serving(s: Device) {
    s.stop.Running? || s.stop.Flagged?
  }

  function Tracked(s: Device): nat {
    s.counted + s.passed
  }

  datatype LockAnswer = LockOk | Fenced | Timeout | LockError

  /** Steps of commands, and what the handler reports. */
  datatype CommandMove = IoStart | IoTest | IoDone | ImplicitTransition(thread: bool) | ConnLost(listed: bool) | LockLost | OutOfSync

  /** Steps of the thread that reopens the device. */
  datatype ReopenMove =
    ReopenBegin | LockerGone | ClaimFlag | QueueEmpty | CloseBegin | CloseEnd | OpenBegin | GiveUp | OpenEnd(ok: bool)

  /** Steps of the lock thread. */
  datatype AcquireMove =
    AcquireQueueEmpty | AcquireDecide | AcquireReopen | LockReturns(answer: LockAnswer) | AcquireDrop(listed: bool) | AcquireDone

  /** Steps of the thread that removes the device. */
  datatype StopMove =
    | Remove | StopBegin | StopLockerGone | StopRecoveryGone | ReleaseBegin | ReleaseEnd
    | StopClaimFlag | StopCloseBegin | StopCloseEnd

  datatype Move = ByCommand(c: CommandMove) | ByReopen(r: ReopenMove) | ByLocker(a: AcquireMove) | ByStop(t: StopMove)

  predicate CommandEnabled(s: Device, m: CommandMove) {
    match m
    case IoStart => Serving(s)
    case IoTest => s.counted > 0
    case IoDone => s.passed > 0
    case ImplicitTransition(_) => s.passed > 0 && Serving(s) && s.lock == Unlocked
    case ConnLost(_) => true
    case LockLost => true
    case OutOfSync => true
  }

  predicate ReopenEnabled(s: Device, m: ReopenMove) {
    match m
    case ReopenBegin => s.reopen.Begin?
    case LockerGone => s.reopen.AwaitLocker?
    case ClaimFlag => s.reopen.TakeOpenFlag?
    case QueueEmpty => s.reopen.AwaitIdle? && Tracked(s) == 0
    case CloseBegin => s.reopen.CallClose?
    case CloseEnd => s.reopen.InClose?
    case OpenBegin => s.reopen.CallOpen? && !Stopping(s)
    case GiveUp => s.reopen.CallOpen? && (Stopping(s) || !s.reopen.first)
    case OpenEnd(_) => s.reopen.InOpen?
  }

  predicate AcquireEnabled(s: Device, m: AcquireMove) {
    match m
    case AcquireQueueEmpty => s.acquire.AwaitQueue? && Tracked(s) == 0
    case AcquireDecide => s.acquire.Decide?
    case AcquireReopen => s.acquire.NeedReopen?
    case LockReturns(_) => s.acquire.CallLock?
    case AcquireDrop(_) => s.acquire.DropConnection?
    case AcquireDone => s.acquire.Conclude?
  }

  predicate StopEnabled(s: Device, m: StopMove) {
    match m
    case Remove => s.stop.Running?
    case StopBegin => Serving(s) && s.counted == 0
    case StopLockerGone => s.stop.StopAwaitLocker? && s.lock != Locking
    case StopRecoveryGone => s.stop.StopAwaitRecovery? && !s.inRecovery
    case ReleaseBegin => s.stop.StopRelease?
    case ReleaseEnd => s.stop.StopUnlock?
    case StopClaimFlag => s.stop.StopTakeOpenFlag?
    case StopCloseBegin => s.stop.StopCallClose?
    case StopCloseEnd => s.stop.StopInClose?
  }

  predicate Enabled(s: Device, m: Move) {
    match m
    case ByCommand(c) => CommandEnabled(s, c)
    case ByReopen(r) => ReopenEnabled(s, r)
    case ByLocker(a) => AcquireEnabled(s, a)
    case ByStop(t) => StopEnabled(s, t)
  }

  /** tcmu_notify_conn_lost; `listed` says that a recovery list took the device. */
  function ConnectionLost(s: Device, listed: bool): Device {
    if Stopping(s) || s.inRecovery || !listed then s
    else s.(inRecovery := true, reopen := Begin(Recovery))
  }

  /** The end of __tcmu_reopen_dev, with its result. */
  function ReopenDone(s: Device, who: Who, ok: bool): Device {
    var s' := s.(inRecovery := false, reopen := NoReopen);
    if who == Locker && s.acquire.InReopen? then
      s'.(acquire := if ok then CallLock(s.acquire.retries) else Conclude(false))
    else s'
  }

  function CommandStep(s: Device, m: CommandMove): Device
    requires CommandEnabled(s, m)
  {
    match m
    case IoStart => s.(counted := s.counted + 1)
    case IoTest =>
      if s.inRecovery then s.(counted := s.counted - 1)
      else s.(counted := s.counted - 1, passed := s.passed + 1)
    case IoDone => s.(passed := s.passed - 1)
    case ImplicitTransition(thread) =>
      if thread then s.(lock := Locking, acquire := AwaitQueue) else s
    case ConnLost(listed) => ConnectionLost(s, listed)
    case LockLost => if s.lock == Locking then s else s.(lock := Unlocked, lockLost := true)
    case OutOfSync => if s.lock == Locked then s.(lock := Unlocked, lockLost := true) else s
  }

  function ReopenStep(s: Device, m: ReopenMove): Device
    requires ReopenEnabled(s, m)
  {
    match m
    case ReopenBegin =>
      var who := s.reopen.who;
      if Stopping(s) then ReopenDone(s.(skipped := s.skipped || (who == Locker && s.lockLost)), who, true)
      else if s.lock == Locking && who == Recovery then s.(reopen := AwaitLocker(who))
      else s.(reopen := TakeOpenFlag(who))
    case LockerGone => s.(reopen := TakeOpenFlag(s.reopen.who))
    case ClaimFlag =>
      s.(lock := if s.lock == Locking then Locking else Unlocked, isOpen := false,
         reopen := AwaitIdle(s.reopen.who, s.isOpen))
    case QueueEmpty => s.(reopen := CallClose(s.reopen.who, s.reopen.needsClose))
    case CloseBegin =>
      if s.reopen.needsClose then s.(reopen := InClose(s.reopen.who), handler := Closing)
      else s.(reopen := CallOpen(s.reopen.who, true))
    case CloseEnd => s.(reopen := CallOpen(s.reopen.who, true), handler := Closed)
    case OpenBegin => s.(reopen := InOpen(s.reopen.who), handler := Opening)
    case GiveUp => ReopenDone(s, s.reopen.who, false)
    case OpenEnd(ok) =>
      if ok then ReopenDone(s.(isOpen := true, lockLost := false, handler := Open, skipped := false), s.reopen.who, true)
      else s.(reopen := CallOpen(s.reopen.who, false), handler := Closed)
  }

  function AcquireStep(s: Device, m: AcquireMove): Device
    requires AcquireEnabled(s, m)
  {
    match m
    case AcquireQueueEmpty => s.(acquire := Decide)
    case AcquireDecide => s.(acquire := if s.lockLost || !s.isOpen then NeedReopen(0) else CallLock(0))
    case AcquireReopen =>
      if s.inRecovery then s.(acquire := Conclude(false))
      else s.(inRecovery := true, reopen := Begin(Locker), acquire := InReopen(s.acquire.retries))
    case LockReturns(answer) =>
      s.(acquire :=
        match answer
        case LockOk => Conclude(true)
        case Fenced => if s.acquire.retries < 1 then NeedReopen(s.acquire.retries + 1) else Conclude(false)
        case Timeout => DropConnection
        case LockError => Conclude(false))
    case AcquireDrop(listed) => ConnectionLost(s, listed).(acquire := Conclude(false))
    case AcquireDone => s.(lock := if s.acquire.ok then Locked else Unlocked, acquire := NoAcquire)
  }

  function StopStep(s: Device, m: StopMove): Device
    requires StopEnabled(s, m)
  {
    match m
    case Remove => s.(stop := Flagged)
    case StopBegin => s.(stop := StopAwaitLocker)
    case StopLockerGone => s.(stop := StopAwaitRecovery)
    case StopRecoveryGone => s.(stop := StopRelease)
    case ReleaseBegin =>
      if s.lock != Locked then s.(stop := StopTakeOpenFlag)
      else if !s.isOpen then s.(lock := Unlocked, stop := StopTakeOpenFlag)
      else s.(stop := StopUnlock)
    case ReleaseEnd => s.(lock := Unlocked, stop := StopTakeOpenFlag)
    case StopClaimFlag => s.(isOpen := false, stop := StopCallClose(s.isOpen))
    case StopCloseBegin =>
      if s.stop.isOpen then s.(stop := StopInClose, handler := Closing) else s.(stop := Stopped)
    case StopCloseEnd => s.(stop := Stopped, handler := Closed)
  }

  function Step(s: Device, m: Move): Device
    requires Enabled(s, m)
  {
    match m
    case ByCommand(c) => CommandStep(s, c)
    case ByReopen(r) => ReopenStep(s, r)
    case ByLocker(a) => AcquireStep(s, a)
    case ByStop(t) => StopStep(s, t)
  }

  // ---- What every step keeps -----------------------------------------------------------

  /** lock_state is LOCKING exactly while an acquisition is in flight. */
  predicate OneAcquisition(s: Device) {
    s.lock == Locking <==> !s.acquire.NoAcquire?
  }

  /** IN_RECOVERY is set exactly while a reopen is in flight, and the lock thread waits
      exactly for its own. */
  predicate OneReopen(s: Device) {
    && (s.inRecovery <==> !s.reopen.NoReopen?)
    && (s.acquire.InReopen? <==> !s.reopen.NoReopen? && s.reopen.who == Locker)
    && (s.reopen.AwaitLocker? ==> s.reopen.who == Recovery)
  }

  /** Stop waits for the lock thread, then for the reopen; neither starts again. */
  predicate StopAlone(s: Device) {
    && (!Serving(s) ==> s.counted == 0)
    && (!Serving(s) && !s.stop.StopAwaitLocker? ==> s.acquire.NoAcquire?)
    && (!Serving(s) && !s.stop.StopAwaitLocker? && !s.stop.StopAwaitRecovery? ==> s.reopen.NoReopen?)
  }

  /** The handler is open exactly when IS_OPEN says so, or someone has taken the flag and is
      about to close it. */
  predicate FlagTellsHandler(s: Device) {
    match s.reopen
    case AwaitIdle(_, nc) => !s.isOpen && s.handler == (if nc then Open else Closed)
    case CallClose(_, nc) => !s.isOpen && s.handler == (if nc then Open else Closed)
    case InClose(_) => !s.isOpen && s.handler == Closing
    case CallOpen(_, _) => !s.isOpen && s.handler == Closed
    case InOpen(_) => !s.isOpen && s.handler == Opening
    case _ =>
      match s.stop
      case StopCallClose(o) => !s.isOpen && s.handler == (if o then Open else Closed)
      case StopInClose => !s.isOpen && s.handler == Closing
      case Stopped => !s.isOpen && s.handler == Closed
      case _ => s.handler == (if s.isOpen then Open else Closed)
  }

  /** Once the reopen has seen an empty queue no command gets past the test. */
  predicate Drained(s: Device) {
    s.reopen.CallClose? || s.reopen.InClose? || s.reopen.CallOpen? || s.reopen.InOpen? ==> s.passed == 0
  }

  /** A lock is held, or about to be, with a loss on record only after a skipped reopen; and
      reopens are skipped only on a device that is being stopped. */
  predicate LockIsGood(s: Device) {
    && (s.skipped ==> s.lockLost && Stopping(s))
    && (s.lock == Locked || s.acquire.CallLock? || s.acquire == Conclude(true) ==> (s.lockLost <==> s.skipped))
  }

  predicate Inv(s: Device) {
    && OneAcquisition(s) && OneReopen(s) && StopAlone(s)
    && FlagTellsHandler(s) && Drained(s) && LockIsGood(s)
  }

  lemma CommandKeeps(s: Device, m: CommandMove)
    requires Inv(s) && CommandEnabled(s, m)
    ensures Inv(CommandStep(s, m))
  {
  }

  lemma ReopenKeepsOrder(s: Device, m: ReopenMove)
    requires OneAcquisition(s) && OneReopen(s) && StopAlone(s) && ReopenEnabled(s, m)
    ensures var s' := ReopenStep(s, m); OneAcquisition(s') && OneReopen(s') && StopAlone(s')
  {
  }

  lemma ReopenKeepsHandler(s: Device, m: ReopenMove)
    requires OneReopen(s) && StopAlone(s) && FlagTellsHandler(s) && ReopenEnabled(s, m)
    ensures FlagTellsHandler(ReopenStep(s, m))
  {
  }

  lemma ReopenKeeps(s: Device, m: ReopenMove)
    requires Inv(s) && ReopenEnabled(s, m)
    ensures Inv(ReopenStep(s, m))
  {
    ReopenKeepsOrder(s, m);
    ReopenKeepsHandler(s, m);
  }

  lemma AcquireKeeps(s: Device, m: AcquireMove)
    requires Inv(s) && AcquireEnabled(s, m)
    ensures Inv(AcquireStep(s, m))
  {
  }

  lemma StopKeeps(s: Device, m: StopMove)
    requires Inv(s) && StopEnabled(s, m)
    ensures Inv(StopStep(s, m))
  {
  }

  lemma StepKeeps(s: Device, m: Move)
    requires Inv(s) && Enabled(s, m)
    ensures Inv(Step(s, m))
  {
    match m
    case ByCommand(c) => CommandKeeps(s, c);
    case ByReopen(r) => ReopenKeeps(s, r);
    case ByLocker(a) => AcquireKeeps(s, a);
    case ByStop(t) => StopKeeps(s, t);
  }

  // ---- Every run -----------------------------------------------------------------------

  predicate AllEnabled(s: Device, moves: seq<Move>)
    decreases |moves|
  {
    moves != [] ==> Enabled(s, moves[0]) && AllEnabled(Step(s, moves[0]), moves[1..])
  }

  function Run(s: Device, moves: seq<Move>): Device
    requires AllEnabled(s, moves)
    decreases |moves|
  {
    if moves == [] then s else Run(Step(s, moves[0]), moves[1..])
  }

  lemma {:induction false} RunKeeps(s: Device, moves: seq<Move>)
    requires Inv(s) && AllEnabled(s, moves)
    ensures Inv(Run(s, moves))
    decreases |moves|
  {
    if moves != [] {
      StepKeeps(s, moves[0]);
      RunKeeps(Step(s, moves[0]), moves[1..]);
    }
  }

  /** When a reopen calls the handler's close, no command that passed the recovery test is in
      flight; and close is called on an open handler, open on a closed one, by reopen and stop
      alike. */
  lemma CalloutsAreSafe(moves: seq<Move>)
    requires AllEnabled(INITIAL, moves)
    ensures var s := Run(INITIAL, moves);
            && (s.reopen.CallClose? || s.reopen.InClose? ==> s.passed == 0)
            && (s.reopen.CallClose? && s.reopen.needsClose ==> s.handler == Open)
            && (s.reopen.CallOpen? ==> s.handler == Closed)
            && (s.stop.StopCallClose? && s.stop.isOpen ==> s.handler == Open)
  {
    RunKeeps(INITIAL, moves);
  }

  /** The handler calls of a run, in order: a close when it is called, an open when it has
      succeeded. */
  datatype Call = CloseCalled | OpenDone

  function Calls(s: Device, moves: seq<Move>): seq<Call>
    requires AllEnabled(s, moves)
    decreases |moves|
  {
    if moves == [] then []
    else
      var s' := Step(s, moves[0]);
      (if s'.handler == Closing && s.handler != Closing then [CloseCalled]
       else if s'.handler == Open && s.handler != Open then [OpenDone] else [])
      + Calls(s', moves[1..])
  }

  predicate Alternate(calls: seq<Call>, next: Call) {
    calls != [] ==> calls[0] == next && Alternate(calls[1..], if next == CloseCalled then OpenDone else CloseCalled)
  }

  function NextCall(h: Handler): Call {
    if h == Open then CloseCalled else OpenDone
  }

  /** The handler only ever goes round open, closing, closed, opening. */
  predicate Goes(h: Handler, h': Handler) {
    || h' == h
    || (h == Open && h' == Closing) || (h == Closing && h' == Closed)
    || (h == Closed && h' == Opening) || (h == Opening && (h' == Open || h' == Closed))
  }

  lemma ReopenGoes(s: Device, m: ReopenMove)
    requires FlagTellsHandler(s) && ReopenEnabled(s, m)
    ensures Goes(s.handler, ReopenStep(s, m).handler)
  {
  }

  lemma StopGoes(s: Device, m: StopMove)
    requires FlagTellsHandler(s) && StopAlone(s) && StopEnabled(s, m)
    ensures Goes(s.handler, StopStep(s, m).handler)
  {
  }

  lemma HandlerCycle(s: Device, m: Move)
    requires Inv(s) && Enabled(s, m)
    ensures Goes(s.handler, Step(s, m).handler)
  {
    match m
    case ByReopen(r) => ReopenGoes(s, r);
    case ByStop(t) => StopGoes(s, t);
    case ByCommand(_) =>
    case ByLocker(_) =>
  }

  lemma {:induction false} CallsAlternate(s: Device, moves: seq<Move>)
    requires Inv(s) && AllEnabled(s, moves)
    ensures Alternate(Calls(s, moves), NextCall(s.handler))
    decreases |moves|
  {
    if moves != [] {
      var s' := Step(s, moves[0]);
      HandlerCycle(s, moves[0]);
      StepKeeps(s, moves[0]);
      CallsAlternate(s', moves[1..]);
      var rest := Calls(s', moves[1..]);
      assert ([CloseCalled] + rest)[1..] == rest && ([OpenDone] + rest)[1..] == rest;
      assert [] + rest == rest;
    }
  }

  /** Open and close alternate in every run, whoever calls them. */
  lemma OpenCloseAlternate(moves: seq<Move>)
    requires AllEnabled(INITIAL, moves)
    ensures Alternate(Calls(INITIAL, moves), CloseCalled)
  {
    CallsAlternate(INITIAL, moves);
  }

  lemma ReopenLeavesLocking(s: Device, m: ReopenMove)
    requires ReopenEnabled(s, m)
    ensures ReopenStep(s, m).lock == Locking <==> s.lock == Locking
  {
  }

  lemma StopLeavesLocking(s: Device, m: StopMove)
    requires OneAcquisition(s) && StopAlone(s) && StopEnabled(s, m)
    ensures StopStep(s, m).lock == Locking <==> s.lock == Locking
  {
  }

  /** LOCKING holds exactly while an acquisition is in flight, and nothing but its end leaves
      that state. */
  lemma LockingIsAcquiring(moves: seq<Move>, m: Move)
    requires AllEnabled(INITIAL, moves) && Enabled(Run(INITIAL, moves), m)
    ensures var s := Run(INITIAL, moves);
            && (s.lock == Locking <==> !s.acquire.NoAcquire?)
            && (s.lock == Locking && Step(s, m).lock != Locking ==> m == ByLocker(AcquireDone))
            && (s.lock != Locking && Step(s, m).lock == Locking ==> m == ByCommand(ImplicitTransition(true)))
  {
    RunKeeps(INITIAL, moves);
    var s := Run(INITIAL, moves);
    match m
    case ByReopen(r) => ReopenLeavesLocking(s, r);
    case ByStop(t) => StopLeavesLocking(s, t);
    case ByCommand(_) =>
    case ByLocker(_) =>
  }

  /** A lock is held while a loss is on record exactly if the lock thread has skipped the
      reopen that would have cleared it, which it only does on a device being stopped. */
  lemma LockedIsNotLost(moves: seq<Move>)
    requires AllEnabled(INITIAL, moves)
    ensures var s := Run(INITIAL, moves);
            && (s.lock == Locked ==> (s.lockLost <==> s.skipped))
            && (s.skipped ==> Stopping(s))
  {
    RunKeeps(INITIAL, moves);
  }

  lemma LostStays(s: Device, m: Move)
    requires Enabled(s, m) && s.lockLost && m != ByReopen(OpenEnd(true))
    ensures Step(s, m).lockLost
  {
  }

  /** After a reported loss the lock is not held again without a successful reopen, unless
      the device is being stopped. */
  lemma {:induction false} LossNeedsReopen(s: Device, moves: seq<Move>)
    requires Inv(s) && s.lockLost && AllEnabled(s, moves)
    requires Run(s, moves).lock == Locked && !Stopping(Run(s, moves))
    ensures ByReopen(OpenEnd(true)) in moves
    decreases |moves|
  {
    if moves != [] {
      if moves[0] != ByReopen(OpenEnd(true)) {
        StepKeeps(s, moves[0]);
        LostStays(s, moves[0]);
        LossNeedsReopen(Step(s, moves[0]), moves[1..]);
      }
    }
  }

  /** moves lead from the initial state to s without a successful open. */
  predicate Reaches(moves: seq<Move>, s: Device) {
    AllEnabled(INITIAL, moves) && Run(INITIAL, moves) == s && ByReopen(OpenEnd(true)) !in moves
  }

  lemma {:induction false} RunAppend(s: Device, a: seq<Move>, m: Move)
    requires AllEnabled(s, a) && Enabled(Run(s, a), m)
    ensures AllEnabled(s, a + [m]) && Run(s, a + [m]) == Step(Run(s, a), m)
    decreases |a|
  {
    if a == [] {
      assert a + [m] == [m] && [m][1..] == [];
    } else {
      RunAppend(Step(s, a[0]), a[1..], m);
      assert (a + [m])[0] == a[0] && (a + [m])[1..] == a[1..] + [m];
    }
  }

  predicate Leads(s: Device, m: Move, s': Device) {
    Enabled(s, m) && s' == Step(s, m) && m != ByReopen(OpenEnd(true))
  }

  lemma Onward(moves: seq<Move>, s: Device, m: Move, s': Device) returns (moves': seq<Move>)
    requires Reaches(moves, s) && Leads(s, m, s')
    ensures Reaches(moves', s')
  {
    RunAppend(INITIAL, moves, m);
    moves' := moves + [m];
  }

  lemma ReachPassed(moves0: seq<Move>, s: Device) returns (moves: seq<Move>)
    requires Reaches(moves0, s) && Serving(s) && !s.inRecovery && s.counted == 0 && s.passed == 0
    ensures Reaches(moves, s.(passed := 1))
  {
    moves := Onward(moves0, s, ByCommand(IoStart), s.(counted := 1));
    moves := Onward(moves, s.(counted := 1), ByCommand(IoTest), s.(passed := 1));
  }

  lemma ReachAcquire(moves0: seq<Move>, s: Device) returns (moves: seq<Move>)
    requires Reaches(moves0, s) && Serving(s) && s.lock == Unlocked && s.passed == 1
    ensures Reaches(moves, s.(lock := Locking, acquire := AwaitQueue, passed := 0))
  {
    var s' := s.(lock := Locking, acquire := AwaitQueue);
    moves := Onward(moves0, s, ByCommand(ImplicitTransition(true)), s');
    moves := Onward(moves, s', ByCommand(IoDone), s'.(passed := 0));
  }

  lemma ReachDecision(moves0: seq<Move>, s: Device) returns (moves: seq<Move>)
    requires Reaches(moves0, s) && s.acquire.AwaitQueue? && Tracked(s) == 0 && s.lockLost
    ensures Reaches(moves, s.(acquire := NeedReopen(0)))
  {
    moves := Onward(moves0, s, ByLocker(AcquireQueueEmpty), s.(acquire := Decide));
    moves := Onward(moves, s.(acquire := Decide), ByLocker(AcquireDecide), s.(acquire := NeedReopen(0)));
  }

  /** The lock thread's reopen meets STOPPING and does nothing. */
  lemma ReachNoReopen(moves0: seq<Move>, s: Device) returns (moves: seq<Move>)
    requires Reaches(moves0, s) && s.acquire == NeedReopen(0) && !s.inRecovery && s.reopen.NoReopen? && Stopping(s) && s.lockLost
    ensures Reaches(moves, s.(acquire := CallLock(0), skipped := true))
  {
    var s' := s.(acquire := InReopen(0), inRecovery := true, reopen := Begin(Locker));
    moves := Onward(moves0, s, ByLocker(AcquireReopen), s');
    moves := Onward(moves, s', ByReopen(ReopenBegin), s.(acquire := CallLock(0), skipped := true));
  }

  lemma ReachLocked(moves0: seq<Move>, s: Device) returns (moves: seq<Move>)
    requires Reaches(moves0, s) && s.acquire == CallLock(0)
    ensures Reaches(moves, s.(acquire := NoAcquire, lock := Locked))
  {
    moves := Onward(moves0, s, ByLocker(LockReturns(LockOk)), s.(acquire := Conclude(true)));
    moves := Onward(moves, s.(acquire := Conclude(true)), ByLocker(AcquireDone), s.(acquire := NoAcquire, lock := Locked));
  }

  /** Without that proviso it is not so: a lock thread whose reopen meets STOPPING goes on as
      if the device had been reopened. */
  lemma StoppingSkipsReopen() returns (moves: seq<Move>, s: Device)
    ensures Reaches(moves, s) && s.lock == Locked && s.lockLost
  {
    var s1 := INITIAL.(lockLost := true);
    moves := Onward([], INITIAL, ByCommand(LockLost), s1);
    var s2 := s1.(stop := Flagged);
    moves := Onward(moves, s1, ByStop(Remove), s2);
    moves := ReachPassed(moves, s2);
    moves := ReachAcquire(moves, s2.(passed := 1));
    s := s2.(lock := Locking, acquire := AwaitQueue);
    moves := ReachDecision(moves, s);
    moves := ReachNoReopen(moves, s.(acquire := NeedReopen(0)));
    moves := ReachLocked(moves, s.(acquire := CallLock(0), skipped := true));
    s := s.(acquire := NoAcquire, lock := Locked, skipped := true);
  }
}
