/** The life of a command between main.c and tcmur_cmd_handler.c: dispatched once, carried by
    the handler, by the work queue or by a chain of callbacks, and completed exactly once. */
module Commands {

  type Id = nat

  /** How a command is carried out once it has passed its checks: by one request, by a chain
      of requests each issued by the callback of the one before, or split into pieces. */
  datatype Kind = Simple | Chain | Split

  datatype Status = Async | NotHandled | Answer(code: int)

  /** The answers that matter here; the rest are any status code. */
  const BUSY := Answer(3)

  /** What the handler's own handle_cmd says about a command. */
  datatype Passthrough = Absent | Declines | Answers | Takes

  /** What happens when a request is scheduled: an asynchronous handler accepts it (and then
      owes one callback) or refuses it (and then owes none); with worker threads, the memory
      for the work item is there or not. */
  datatype Luck = Luck(accepts: bool, memory: bool)

  /** The answers a command meets on its way through tcmur_generic_handle_cmd. */
  datatype Route = Route(pendingUa: bool, formatting: bool, passthrough: Passthrough, emulated: bool,
                         recovering: bool, aluaOk: bool, supported: bool, checksOk: bool, kind: Kind)

  predicate Accepted(nrThreads: nat, luck: Luck) {
    if nrThreads == 0 then luck.accepts else luck.memory
  }

  /** Whether tcmur_cmd_handler leaves the command in flight. */
  predicate Handled(nrThreads: nat, r: Route, luck: Luck) {
    !r.recovering && r.supported && r.aluaOk && r.checksOk && (r.kind == Split || Accepted(nrThreads, luck))
  }

  /** Whether the command is still in flight when the dispatch loop is done with it. */
  predicate Carried(nrThreads: nat, r: Route, luck: Luck) {
    && !r.pendingUa && !r.formatting
    && (r.passthrough.Takes? || ((r.passthrough.Absent? || r.passthrough.Declines?) && !r.emulated && Handled(nrThreads, r, luck)))
  }

  /** What the main thread holds: nothing, or the command it is splitting and, from the moment
      it takes a reference for a piece until that piece is scheduled or refused, the piece. */
  datatype Holder = Nobody | Main(id: Id, piece: bool)

  /** What a command is to the code that carries it. */
  function KindOf(r: Route): Kind {
    if r.passthrough.Takes? then Simple else r.kind
  }

  /** A callback is a command's last: a single request's always, a chain's unless its next
      request is accepted, a piece's when no other piece and no submitter holds the command. */
  predicate Last(kind: Kind, goesOn: bool, others: int) {
    match kind
    case Simple => true
    case Chain => !goesOn
    case Split => others == 0
  }

  // ---- The life of commands, without reference counts ------------------------------------

  /** How often each command has been put back in the ring; who holds it: the handler, for
      each callback it owes, the work queue, the worker threads that have taken a request from
      it, and the main thread while it submits pieces. */
  datatype Desk = Desk(nrThreads: nat, completions: map<Id, nat>, owed: multiset<Id>, queue: seq<Id>,
                       working: multiset<Id>, main: Holder, kinds: map<Id, Kind>)

  /** What can happen next on a device. */
  datatype Event =
    | Fetch(c: Id, route: Route, luck: Luck)
    | HandlerCalls(c: Id, ok: bool, more: bool, luck: Luck)
    | WorkerTakes
    | WorkerCalls(c: Id, ok: bool, more: bool, luck: Luck)
    | PieceBegins
    | PieceEnds(luck: Luck)
    | Submitted

  /** Everyone who holds a command: each drops it once. */
  function Holds(owed: multiset<Id>, queue: seq<Id>, working: multiset<Id>, main: Holder, c: Id): nat {
    owed[c] + multiset(queue)[c] + working[c] + (if main.Main? && main.id == c then if main.piece then 2 else 1 else 0)
  }

  function Held(d: Desk, c: Id): nat {
    Holds(d.owed, d.queue, d.working, d.main, c)
  }

  predicate Enabled(d: Desk, e: Event) {
    match e
    case Fetch(c, _, _) => d.main == Nobody && c !in d.completions
    case HandlerCalls(c, _, _, _) => c in d.owed && c in d.kinds
    case WorkerTakes => d.queue != [] && |d.working| < d.nrThreads
    case WorkerCalls(c, _, _, _) => c in d.working && c in d.kinds
    case PieceBegins => d.main.Main? && !d.main.piece
    case PieceEnds(_) => d.main.Main? && d.main.piece
    case Submitted => d.main.Main? && !d.main.piece
  }

  /** A request of c is with the handler, or in the work queue. */
  function Requested(d: Desk, c: Id): Desk {
    if d.nrThreads == 0 then d.(owed := d.owed + multiset{c}) else d.(queue := d.queue + [c])
  }

  /** A command that passed its checks is given to the handler whole, split by the main
      thread, or begun with a request. */
  function Given(d: Desk, c: Id, r: Route): Desk {
    if r.passthrough.Takes? then d.(owed := d.owed + multiset{c})
    else if r.kind == Split then d.(main := Main(c, false))
    else Requested(d, c)
  }

  /** A request of c has come back: the chain goes on, or the command ends if that was the
      last thing it waited for. */
  function Returned(d: Desk, c: Id, goesOn: bool): Desk
    requires c in d.kinds
  {
    if Last(d.kinds[c], goesOn, Held(d, c)) then d.(completions := d.completions[c := 1])
    else if d.kinds[c] == Chain then Requested(d, c)
    else d
  }

  /** What an event does. */
  function Next(d: Desk, e: Event): Desk
    requires Enabled(d, e)
  {
    match e
    case Fetch(c, r, luck) =>
      var carried := Carried(d.nrThreads, r, luck);
      var d1 := d.(completions := d.completions[c := if carried then 0 else 1], kinds := d.kinds[c := KindOf(r)]);
      if carried then Given(d1, c, r) else d1
    case HandlerCalls(c, ok, more, luck) =>
      Returned(d.(owed := d.owed - multiset{c}), c, ok && more && Accepted(d.nrThreads, luck))
    case WorkerTakes => d.(queue := d.queue[1..], working := d.working + multiset{d.queue[0]})
    case WorkerCalls(c, ok, more, luck) =>
      Returned(d.(working := d.working - multiset{c}), c, ok && more && Accepted(d.nrThreads, luck))
    case PieceBegins => d.(main := Main(d.main.id, true))
    case PieceEnds(luck) =>
      var d1 := d.(main := Main(d.main.id, false));
      if Accepted(d.nrThreads, luck) then Requested(d1, d.main.id) else d1
    case Submitted =>
      var d1 := d.(main := Nobody);
      if Held(d1, d.main.id) == 0 then d1.(completions := d1.completions[d.main.id := 1]) else d1
  }

  function Idle(nrThreads: nat): Desk {
    Desk(nrThreads, map[], multiset{}, [], multiset{}, Nobody, map[])
  }

  /** The events that can happen, one after the other; the others do not. */
  function After(nrThreads: nat, events: seq<Event>): Desk {
    if events == [] then Idle(nrThreads)
    else
      var n := |events| - 1;
      var d := After(nrThreads, events[..n]);
      if Enabled(d, events[n]) then Next(d, events[n]) else d
  }

  /** Fetched but not completed: somebody holds it, and only a split command has more than
      one holder.  Completed: once, and nobody holds it. */
  predicate Fair(d: Desk, c: Id) {
    && (d.main.Main? && d.main.id == c ==> c in d.kinds && d.kinds[c] == Split)
    && if c !in d.completions then Held(d, c) == 0
       else if Held(d, c) == 0 then d.completions[c] == 1
       else d.completions[c] == 0 && c in d.kinds && (d.kinds[c] != Split ==> Held(d, c) == 1)
  }

  lemma RequestedHolds(d: Desk, c: Id, x: Id)
    ensures Held(Requested(d, c), x) == Held(d, x) + if x == c then 1 else 0
  {
  }

  lemma ReturnedKeeps(d0: Desk, d: Desk, c: Id, goesOn: bool, x: Id)
    requires Fair(d0, c) && Fair(d0, x) && Held(d0, c) > 0 && c in d.kinds
    requires d.completions == d0.completions && d.kinds == d0.kinds && d.main == d0.main
    requires Held(d, x) == Held(d0, x) - (if x == c then 1 else 0) && Held(d, c) == Held(d0, c) - 1
    ensures Fair(Returned(d, c, goesOn), x)
  {
    RequestedHolds(d, c, x);
  }

  lemma Dequeued(queue: seq<Id>, x: Id)
    requires queue != []
    ensures multiset(queue[1..])[x] == multiset(queue)[x] - if x == queue[0] then 1 else 0
  {
    assert queue == [queue[0]] + queue[1..];
  }

  lemma GivenHolds(d: Desk, c: Id, r: Route, x: Id)
    requires d.main == Nobody
    ensures Held(Given(d, c, r), x) == Held(d, x) + if x == c then 1 else 0
  {
    RequestedHolds(d, c, x);
  }

  lemma FetchKeeps(d: Desk, e: Event, x: Id)
    requires e.Fetch? && Enabled(d, e) && Fair(d, e.c) && Fair(d, x)
    ensures Fair(Next(d, e), x)
  {
    var carried := Carried(d.nrThreads, e.route, e.luck);
    var d1 := d.(completions := d.completions[e.c := if carried then 0 else 1], kinds := d.kinds[e.c := KindOf(e.route)]);
    assert Held(d1, x) == Held(d, x);
    if carried {
      GivenHolds(d1, e.c, e.route, x);
    }
  }

  lemma CallKeeps(d: Desk, e: Event, c: Id, x: Id)
    requires Enabled(d, e) && Fair(d, c) && Fair(d, x)
    requires (e.HandlerCalls? || e.WorkerCalls?) && c == e.c
    ensures Fair(Next(d, e), x)
  {
    var goesOn := e.ok && e.more && Accepted(d.nrThreads, e.luck);
    if e.WorkerCalls? {
      ReturnedKeeps(d, d.(working := d.working - multiset{c}), c, goesOn, x);
    } else {
      ReturnedKeeps(d, d.(owed := d.owed - multiset{c}), c, goesOn, x);
    }
  }

  /** A request that a worker takes from the queue changes hands. */
  lemma TakingHolds(d: Desk, x: Id)
    requires Enabled(d, WorkerTakes)
    ensures Held(Next(d, WorkerTakes), x) == Held(d, x)
  {
    Dequeued(d.queue, x);
  }

  lemma PieceKeeps(d: Desk, e: Event, x: Id)
    requires e.PieceEnds? && Enabled(d, e) && Fair(d, d.main.id) && Fair(d, x)
    ensures Fair(Next(d, e), x)
  {
    var d1 := d.(main := Main(d.main.id, false));
    assert Held(d1, x) == Held(d, x) - if x == d.main.id then 1 else 0;
    RequestedHolds(d1, d.main.id, x);
  }

  lemma SubmitKeeps(d: Desk, e: Event, x: Id)
    requires (e.PieceBegins? || e.Submitted?) && Enabled(d, e) && Fair(d, d.main.id) && Fair(d, x)
    ensures Fair(Next(d, e), x)
  {
  }

  /** Whom an event concerns. */
  function Concerned(d: Desk, e: Event): Id
    requires Enabled(d, e)
  {
    match e
    case Fetch(c, _, _) => c
    case HandlerCalls(c, _, _, _) => c
    case WorkerTakes => d.queue[0]
    case WorkerCalls(c, _, _, _) => c
    case PieceBegins => d.main.id
    case PieceEnds(_) => d.main.id
    case Submitted => d.main.id
  }

  lemma StepKeeps(d: Desk, e: Event, x: Id)
    requires Enabled(d, e) && Fair(d, Concerned(d, e)) && Fair(d, x)
    ensures Fair(Next(d, e), x)
  {
    if e.Fetch? {
      FetchKeeps(d, e, x);
    } else if e.HandlerCalls? || e.WorkerCalls? {
      CallKeeps(d, e, Concerned(d, e), x);
    } else if e.WorkerTakes? {
      TakingHolds(d, x);
    } else if e.PieceEnds? {
      PieceKeeps(d, e, x);
    } else {
      SubmitKeeps(d, e, x);
    }
  }

  /** Only a fetch puts a command on the books. */
  lemma StepBooks(d: Desk, e: Event, c: Id)
    requires Enabled(d, e) && Fair(d, Concerned(d, e))
    ensures c in Next(d, e).completions <==> c in d.completions || (e.Fetch? && e.c == c)
  {
  }

  /** Event i is the fetch of command c, and it happens. */
  predicate Fetches(nrThreads: nat, events: seq<Event>, c: Id, i: nat) {
    i < |events| && events[i].Fetch? && events[i].c == c && Enabled(After(nrThreads, events[..i]), events[i])
  }

  lemma {:induction false} RunKeeps(nrThreads: nat, events: seq<Event>, c: Id)
    ensures Fair(After(nrThreads, events), c)
  {
    if events != [] {
      var n := |events| - 1;
      var d := After(nrThreads, events[..n]);
      RunKeeps(nrThreads, events[..n], c);
      if Enabled(d, events[n]) {
        RunKeeps(nrThreads, events[..n], Concerned(d, events[n]));
        StepKeeps(d, events[n], c);
      }
    }
  }

  lemma LastBooks(nrThreads: nat, events: seq<Event>, c: Id, n: nat)
    requires |events| == n + 1
    ensures c in After(nrThreads, events).completions <==>
            c in After(nrThreads, events[..n]).completions || Fetches(nrThreads, events, c, n)
  {
    var d := After(nrThreads, events[..n]);
    if Enabled(d, events[n]) {
      RunKeeps(nrThreads, events[..n], Concerned(d, events[n]));
      StepBooks(d, events[n], c);
    }
  }

  lemma SameFetch(nrThreads: nat, events: seq<Event>, c: Id, n: nat, i: nat)
    requires |events| == n + 1 && i < n
    ensures Fetches(nrThreads, events, c, i) <==> Fetches(nrThreads, events[..n], c, i)
  {
    assert events[..n][..i] == events[..i];
  }

  /** Some event fetches c. */
  ghost predicate Met(nrThreads: nat, events: seq<Event>, c: Id) {
    exists i: nat :: Fetches(nrThreads, events, c, i)
  }

  lemma LastMet(nrThreads: nat, events: seq<Event>, c: Id, n: nat)
    requires |events| == n + 1
    ensures Met(nrThreads, events, c) <==> Met(nrThreads, events[..n], c) || Fetches(nrThreads, events, c, n)
  {
    if Met(nrThreads, events, c) {
      var i: nat :| Fetches(nrThreads, events, c, i);
      if i < n {
        SameFetch(nrThreads, events, c, n, i);
      }
    }
    if Met(nrThreads, events[..n], c) {
      var i: nat :| Fetches(nrThreads, events[..n], c, i);
      SameFetch(nrThreads, events, c, n, i);
    }
  }

  lemma {:induction false} RunBooks(nrThreads: nat, events: seq<Event>, c: Id)
    ensures c in After(nrThreads, events).completions <==> Met(nrThreads, events, c)
  {
    if events != [] {
      var n := |events| - 1;
      RunBooks(nrThreads, events[..n], c);
      LastMet(nrThreads, events, c, n);
      LastBooks(nrThreads, events, c, n);
    }
  }

  /** No more requests are being worked on than there are workers, and without workers there is
      no work queue. */
  predicate Staffed(d: Desk, nrThreads: nat) {
    d.nrThreads == nrThreads && |d.working| <= nrThreads && (d.queue != [] ==> nrThreads > 0)
  }

  lemma RequestedStaffed(d: Desk, c: Id)
    requires Staffed(d, d.nrThreads)
    ensures Staffed(Requested(d, c), d.nrThreads)
  {
  }

  lemma ReturnedStaffed(d: Desk, c: Id, goesOn: bool)
    requires Staffed(d, d.nrThreads) && c in d.kinds
    ensures Staffed(Returned(d, c, goesOn), d.nrThreads)
  {
    RequestedStaffed(d, c);
  }

  lemma StepStaffed(d: Desk, e: Event)
    requires Enabled(d, e) && Staffed(d, d.nrThreads)
    ensures Staffed(Next(d, e), d.nrThreads)
  {
    if e.HandlerCalls? {
      ReturnedStaffed(d.(owed := d.owed - multiset{e.c}), e.c, e.ok && e.more && Accepted(d.nrThreads, e.luck));
    } else if e.WorkerCalls? {
      ReturnedStaffed(d.(working := d.working - multiset{e.c}), e.c, e.ok && e.more && Accepted(d.nrThreads, e.luck));
    }
  }

  lemma {:induction false} RunStaffed(nrThreads: nat, events: seq<Event>)
    ensures Staffed(After(nrThreads, events), nrThreads)
  {
    if events != [] {
      var n := |events| - 1;
      var d := After(nrThreads, events[..n]);
      RunStaffed(nrThreads, events[..n]);
      if Enabled(d, events[n]) {
        StepStaffed(d, events[n]);
      }
    }
  }

  /** However callbacks, worker threads and submissions interleave: the commands on the books
      are those that were fetched, each has been completed at most once, and it has been
      completed exactly if nobody holds it any more. */
  lemma EveryRun(nrThreads: nat, events: seq<Event>, c: Id)
    ensures var d := After(nrThreads, events);
            && |d.working| <= nrThreads
            && (c in d.completions <==> Met(nrThreads, events, c))
            && (c in d.completions ==> d.completions[c] <= 1 && (d.completions[c] == 1 <==> Held(d, c) == 0))
            && (c !in d.completions ==> Held(d, c) == 0)
  {
    RunKeeps(nrThreads, events, c);
    RunBooks(nrThreads, events, c);
    RunStaffed(nrThreads, events);
  }

  /** The turn of a worker on whom a command in the queue waits: one that is free takes the
      oldest request, or, if none is free, one that is busy calls back. */
  predicate WorkerTurn(d: Desk, e: Event) {
    e.WorkerTakes? || (e.WorkerCalls? && |d.working| == d.nrThreads)
  }

  /** While a fetched command is not completed, a callback for it, the next step of its
      submission or, if it only waits in the work queue, a worker's turn is still to come. */
  lemma SomethingToCome(nrThreads: nat, events: seq<Event>, c: Id) returns (e: Event)
    requires c in After(nrThreads, events).completions && After(nrThreads, events).completions[c] == 0
    ensures !e.Fetch? && Enabled(After(nrThreads, events), e)
    ensures Concerned(After(nrThreads, events), e) == c
         || (c in After(nrThreads, events).queue && WorkerTurn(After(nrThreads, events), e))
  {
    var d := After(nrThreads, events);
    RunKeeps(nrThreads, events, c);
    RunStaffed(nrThreads, events);
    var luck := Luck(true, true);
    if d.main.Main? && d.main.id == c {
      e := if d.main.piece then PieceEnds(luck) else Submitted;
    } else if c in d.owed {
      e := HandlerCalls(c, true, true, luck);
    } else if c in d.working {
      e := WorkerCalls(c, true, true, luck);
    } else {
      assert c in multiset(d.queue);
      if |d.working| < nrThreads {
        e := WorkerTakes;
      } else {
        var w :| w in d.working;
        RunKeeps(nrThreads, events, w);
        e := WorkerCalls(w, true, true, luck);
      }
    }
  }

  lemma Extend(nrThreads: nat, events: seq<Event>, e: Event, events': seq<Event>)
    requires Enabled(After(nrThreads, events), e) && events' == events + [e]
    ensures After(nrThreads, events') == Next(After(nrThreads, events), e)
  {
    assert events'[..|events|] == events;
  }

  /** Two commands fetched and taken by two workers. */
  lemma BothTaken(r: Route, luck: Luck) returns (events: seq<Event>)
    requires Carried(2, r, luck) && r.kind == Simple && !r.passthrough.Takes?
    ensures After(2, events) == Desk(2, map[0 := 0, 1 := 0], multiset{}, [], multiset{0, 1}, Nobody, map[0 := Simple, 1 := Simple])
  {
    var e0, e1, e2 := Fetch(0, r, luck), Fetch(1, r, luck), WorkerTakes;
    Extend(2, [], e0, [e0]);
    Extend(2, [e0], e1, [e0, e1]);
    assert After(2, [e0, e1]).queue == [0, 1];
    Extend(2, [e0, e1], e2, [e0, e1, e2]);
    assert After(2, [e0, e1, e2]).queue == [1];
    events := [e0, e1, e2, e2];
    Extend(2, [e0, e1, e2], e2, events);
  }

  /** With two workers, the command fetched second can be completed first. */
  lemma SecondFirst(r: Route, luck: Luck) returns (events: seq<Event>)
    requires Carried(2, r, luck) && r.kind == Simple && !r.passthrough.Takes?
    ensures After(2, events) == Desk(2, map[0 := 0, 1 := 1], multiset{}, [], multiset{0}, Nobody, map[0 := Simple, 1 := Simple])
  {
    var taken := BothTaken(r, luck);
    events := taken + [WorkerCalls(1, true, false, luck)];
    Extend(2, taken, WorkerCalls(1, true, false, luck), events);
  }

  // ---- The code --------------------------------------------------------------------------

  /** All that the books say about one command; -1 stands for no entry. */
  datatype Slip = Slip(done: int, live: bool, holders: nat, refs: int, known: bool, kind: Kind)

  /** A command is completed exactly when nobody holds it any more, and then once; the
      reference count of a split command is the number of its holders. */
  predicate Good(s: Slip) {
    if s.done == -1 then s.holders == 0 && !s.live && s.refs == -1
    else if s.live then
      && s.done == 0 && s.known && s.holders > 0
      && (if s.refs != -1 then s.kind == Split && s.refs == s.holders else s.kind != Split && s.holders == 1)
    else s.done == 1 && s.holders == 0 && s.refs == -1
  }

  /** A live command one of whose holders has just let go. */
  predicate OneLess(s: Slip) {
    && s.live && s.done == 0
    && (if s.refs != -1 then s.kind == Split && s.refs == s.holders + 1 else s.kind != Split && s.holders == 0)
  }

  class Runner {
    const nrThreads: nat
    /** tracked_aio_ops */
    var tracked: nat
    /** How often each command has been put back in the ring. */
    var completions: map<Id, nat>
    /** Requests an asynchronous handler owes a callback for, and those in the work queue. */
    var owed: multiset<Id>
    var queue: seq<Id>
    /** Requests that worker threads have taken from the queue and not called back for. */
    var working: multiset<Id>
    /** The reference counts of commands that are being split. */
    var refcount: map<Id, nat>
    /** The command whose pieces the main thread is submitting. */
    var main: Holder
    var kinds: map<Id, Kind>
    /** The commands counted in `tracked`. */
    ghost var live: set<Id>

    ghost function Books(): Desk
      reads this`completions, this`owed, this`queue, this`working, this`main, this`kinds
    {
      Desk(nrThreads, completions, owed, queue, working, main, kinds)
    }

    ghost function SlipOf(c: Id): Slip
      reads this
    {
      Slip(if c in completions then completions[c] else -1, c in live, Holds(owed, queue, working, main, c),
           if c in refcount then refcount[c] else -1, c in kinds, if c in kinds then kinds[c] else Simple)
    }

    ghost predicate Sound(c: Id)
      reads this
    {
      Good(SlipOf(c))
    }

    ghost predicate SoundBut(c: Id)
      reads this
    {
      forall d :: d != c ==> Sound(d)
    }

    ghost predicate Counted()
      reads this
    {
      tracked == |live| && (main.Main? ==> main.id in refcount)
    }

    ghost predicate Valid()
      reads this
    {
      Counted() && forall c :: Sound(c)
    }

    /** Fetched from the ring and in nobody's hands but the main thread's. */
    ghost predicate Fetched(c: Id)
      reads this
    {
      Counted() && SoundBut(c) && c in kinds && SlipOf(c) == Slip(0, false, 0, -1, true, kinds[c])
    }

    /** Fetched, and counted in `tracked`. */
    ghost predicate Started(c: Id)
      reads this
    {
      Counted() && SoundBut(c) && c in kinds && SlipOf(c) == Slip(0, true, 0, -1, true, kinds[c])
    }

    /** One holder of c is gone, and what that means is still to be done. */
    ghost predicate Dropped(c: Id)
      reads this
    {
      Counted() && SoundBut(c) && c in kinds && OneLess(SlipOf(c))
    }

    /** Everything about the other commands is as it was. */
    twostate lemma Others(c: Id)
      requires forall d :: d != c ==> old(Sound(d))
      requires forall d :: d != c ==> SlipOf(d) == old(SlipOf(d))
      ensures SoundBut(c)
    {
      forall d | d != c ensures Sound(d) {
        assert old(Sound(d));
      }
    }

    constructor (nrThreads: nat)
      ensures Valid() && Books() == Idle(nrThreads)
    {
      this.nrThreads := nrThreads;
      tracked, completions, owed, queue, working := 0, map[], multiset{}, [], multiset{};
      refcount, main, kinds := map[], Nobody, map[];
      live := {};
    }

    /** aio_request_schedule for a request of command c. */
    method Schedule(c: Id, luck: Luck) returns (ret: Status)
      modifies this`owed, this`queue
      ensures ret == Async <==> Accepted(nrThreads, luck)
      ensures ret != Async ==> ret.Answer?
      ensures Books() == if ret == Async then Requested(old(Books()), c) else old(Books())
      ensures forall d :: SlipOf(d) == old(SlipOf(d)).(holders := old(SlipOf(d)).holders + if ret == Async && d == c then 1 else 0)
    {
      if nrThreads == 0 {
        if luck.accepts {
          owed := owed + multiset{c};
          ret := Async;
        } else {
          ret := Answer(1);
        }
      } else if luck.memory {
        queue := queue + [c];
        ret := Async;
      } else {
        ret := Answer(2);
      }
      forall d ensures Holds(owed, queue, working, main, d) == old(Holds(owed, queue, working, main, d)) + if ret == Async && d == c then 1 else 0 {
        RequestedHolds(old(Books()), c, d);
      }
    }

    /** aio_command_finish */
    method Finish(c: Id)
      requires Dropped(c) && c !in refcount
      modifies this`tracked, this`completions, this`live
      ensures Valid() && Books() == old(Books()).(completions := old(completions)[c := 1]) && live == old(live) - {c}
    {
      completions := completions[c := completions[c] + 1];
      tracked, live := tracked - 1, live - {c};
      Others(c);
    }

    /** unmap_put */
    method Put(c: Id)
      requires Dropped(c) && c in refcount
      modifies this`tracked, this`completions, this`live, this`refcount
      ensures Valid()
      ensures Books() == if old(SlipOf(c).holders) > 0 then old(Books()) else old(Books()).(completions := old(completions)[c := 1])
    {
      refcount := refcount[c := refcount[c] - 1];
      if refcount[c] == 0 {
        refcount := refcount - {c};
        completions := completions[c := completions[c] + 1];
        tracked, live := tracked - 1, live - {c};
      }
      Others(c);
    }

    /** The done callback of a request of command c: `ok` and `more` say how a chain goes on. */
    method Callback(c: Id, ok: bool, more: bool, luck: Luck)
      requires Dropped(c)
      modifies this`tracked, this`completions, this`live, this`refcount, this`owed, this`queue
      ensures Valid() && Books() == Returned(old(Books()), c, ok && more && Accepted(nrThreads, luck))
    {
      match kinds[c]
      case Simple => Finish(c);
      case Chain =>
        if ok && more {
          var ret := NextRequest(c, luck);
          if ret == Async {
            return;
          }
        }
        Finish(c);
      case Split => Put(c);
    }

    /** The next request of a chain. */
    method NextRequest(c: Id, luck: Luck) returns (ret: Status)
      requires Dropped(c) && kinds[c] == Chain
      modifies this`owed, this`queue
      ensures ret == Async <==> Accepted(nrThreads, luck)
      ensures Books() == if ret == Async then Requested(old(Books()), c) else old(Books())
      ensures if ret == Async then Valid() else Dropped(c)
    {
      ret := Schedule(c, luck);
      Others(c);
    }

    /** An asynchronous handler calls back for a request it owes. */
    method HandlerDone(c: Id, ok: bool, more: bool, luck: Luck)
      requires Valid() && c in owed
      modifies this`tracked, this`completions, this`live, this`refcount, this`owed, this`queue
      ensures Valid() && old(Enabled(Books(), HandlerCalls(c, ok, more, luck)))
      ensures Books() == Next(old(Books()), HandlerCalls(c, ok, more, luck))
    {
      assert Sound(c);
      owed := owed - multiset{c};
      Others(c);
      Callback(c, ok, more, luck);
    }

    /** io_work_queue, under io_lock: a worker thread takes the oldest request. */
    method TakeWork()
      requires Valid() && queue != [] && |working| < nrThreads
      modifies this`queue, this`working
      ensures Valid() && Books() == Next(old(Books()), WorkerTakes)
    {
      queue, working := queue[1..], working + multiset{queue[0]};
      forall d ensures Sound(d) {
        TakingHolds(old(Books()), d);
        assert old(Sound(d)) && SlipOf(d) == old(SlipOf(d));
      }
    }

    /** io_work_queue, after the lock: the worker has carried its request out and calls back. */
    method WorkerDone(c: Id, ok: bool, more: bool, luck: Luck)
      requires Valid() && c in working
      modifies this`tracked, this`completions, this`live, this`refcount, this`owed, this`queue, this`working
      ensures Valid() && old(Enabled(Books(), WorkerCalls(c, ok, more, luck)))
      ensures Books() == Next(old(Books()), WorkerCalls(c, ok, more, luck))
    {
      assert Sound(c);
      working := working - multiset{c};
      Others(c);
      Callback(c, ok, more, luck);
    }

    /** align_and_split_unmap, before a piece is scheduled: a reference is taken for it. */
    method UnmapGet()
      requires Valid() && main.Main? && !main.piece
      modifies this`refcount, this`main
      ensures Valid() && Books() == Next(old(Books()), PieceBegins)
    {
      var c := main.id;
      assert Sound(c);
      refcount, main := refcount[c := refcount[c] + 1], Main(c, true);
      Others(c);
    }

    /** The piece goes out with its reference; a refused one leaves the reference behind. */
    method SendPiece(c: Id, luck: Luck) returns (ret: Status)
      requires Valid() && main == Main(c, true)
      modifies this`owed, this`queue, this`main
      ensures ret == Async <==> Accepted(nrThreads, luck)
      ensures if ret == Async then Valid() else Dropped(c)
      ensures Books() == Next(old(Books()), PieceEnds(luck)) && c in refcount
    {
      assert Sound(c);
      main := Main(c, false);
      ret := Schedule(c, luck);
      Others(c);
    }

    /** The piece is scheduled, or its reference is given back if it is refused. */
    method UnmapPiece(luck: Luck) returns (ret: Status)
      requires Valid() && main.Main? && main.piece
      modifies this`refcount, this`owed, this`queue, this`main
      ensures Valid() && (ret == Async <==> Accepted(nrThreads, luck))
      ensures Books() == Next(old(Books()), PieceEnds(luck))
    {
      var c := main.id;
      ret := SendPiece(c, luck);
      if ret != Async {
        refcount := refcount[c := refcount[c] - 1];
        Others(c);
      }
    }

    /** The end of handle_unmap_internal: the submitter drops its own reference. */
    method UnmapEnd()
      requires Valid() && main.Main? && !main.piece
      modifies this`tracked, this`completions, this`live, this`refcount, this`main
      ensures Valid() && Books() == Next(old(Books()), Submitted)
    {
      var c := main.id;
      assert Sound(c);
      main := Nobody;
      Others(c);
      Put(c);
    }

    /** track_aio_request_start */
    method Track(c: Id)
      requires Fetched(c)
      modifies this`tracked, this`live
      ensures Started(c)
    {
      tracked, live := tracked + 1, live + {c};
      Others(c);
    }

    /** track_aio_request_finish, without a wakeup */
    method Untrack(c: Id)
      requires Started(c)
      modifies this`tracked, this`live
      ensures Fetched(c)
    {
      tracked, live := tracked - 1, live - {c};
      Others(c);
    }

    /** handle_try_passthrough: the command is tracked only while, and if, the handler has it. */
    method TryPassthrough(c: Id, p: Passthrough) returns (ret: Status)
      requires Fetched(c) && (p.Takes? ==> kinds[c] == Simple)
      modifies this`tracked, this`live, this`owed
      ensures ret == NotHandled <==> p.Absent? || p.Declines?
      ensures ret == Async <==> p.Takes?
      ensures if ret == Async then Valid() else Fetched(c)
      ensures Books() == old(Books()).(owed := old(owed) + if ret == Async then multiset{c} else multiset{})
    {
      if p.Absent? {
        return NotHandled;
      }
      Track(c);
      if p.Takes? {
        HandOver(c);
        ret := Async;
      } else {
        Untrack(c);
        ret := if p.Answers? then Answer(0) else NotHandled;
      }
    }

    /** The handler takes a command whole: it owes one callback. */
    method HandOver(c: Id)
      requires Started(c) && kinds[c] == Simple
      modifies this`owed
      ensures Valid() && owed == old(owed) + multiset{c}
    {
      owed := owed + multiset{c};
      Others(c);
    }

    /** The first request of a command that is not split. */
    method FirstRequest(c: Id, luck: Luck) returns (ret: Status)
      requires Started(c) && kinds[c] != Split
      modifies this`owed, this`queue
      ensures ret == Async <==> Accepted(nrThreads, luck)
      ensures ret != Async ==> ret.Answer?
      ensures if ret == Async then Valid() else Started(c)
      ensures Books() == if ret == Async then Requested(old(Books()), c) else old(Books())
    {
      ret := Schedule(c, luck);
      Others(c);
    }

    /** unmap_init: the submitter holds the first reference. */
    method UnmapInit(c: Id)
      requires Started(c) && main == Nobody && kinds[c] == Split
      modifies this`refcount, this`main
      ensures Valid() && main == Main(c, false) && refcount == old(refcount)[c := 1]
    {
      refcount, main := refcount[c := 1], Main(c, false);
      Others(c);
    }

    /** tcmur_cmd_handler */
    method CmdHandler(c: Id, r: Route, luck: Luck) returns (ret: Status)
      requires Fetched(c) && main == Nobody && kinds[c] == r.kind && !r.passthrough.Takes?
      modifies this`tracked, this`live, this`owed, this`queue, this`refcount, this`main
      ensures ret == Async <==> Handled(nrThreads, r, luck)
      ensures if ret == Async then Valid() else Fetched(c)
      ensures Books() == if ret == Async then Given(old(Books()), c, r) else old(Books())
      ensures r.recovering ==> ret == BUSY
      ensures !r.recovering && !r.supported ==> ret == NotHandled
    {
      Track(c);
      if r.recovering {
        ret := BUSY;
      } else if !r.supported {
        ret := NotHandled;
      } else if !r.aluaOk || !r.checksOk {
        ret := Answer(4);
      } else if r.kind == Split {
        UnmapInit(c);
        ret := Async;
      } else {
        ret := FirstRequest(c, luck);
      }
      if ret != Async {
        Untrack(c);
      }
    }

    /** tcmur_generic_handle_cmd */
    method GenericHandle(c: Id, r: Route, luck: Luck) returns (ret: Status)
      requires Fetched(c) && main == Nobody && kinds[c] == KindOf(r)
      modifies this`tracked, this`live, this`owed, this`queue, this`refcount, this`main
      ensures ret == Async <==> Carried(nrThreads, r, luck)
      ensures if ret == Async then Valid() else Fetched(c)
      ensures Books() == if ret == Async then Given(old(Books()), c, r) else old(Books())
    {
      if r.pendingUa || r.formatting {
        return Answer(5);
      }
      ret := TryPassthrough(c, r.passthrough);
      if ret != NotHandled {
        return;
      }
      if r.emulated {
        return Answer(0);
      }
      ret := CmdHandler(c, r, luck);
    }

    /** tcmur_tcmulib_cmd_complete for a command that was answered at once. */
    method CompleteNow(c: Id)
      requires Fetched(c)
      modifies this`completions
      ensures Valid() && completions == old(completions)[c := 1]
    {
      completions := completions[c := completions[c] + 1];
      Others(c);
    }

    /** The body of the loop of tcmur_cmdproc_thread, with tcmur_generic_handle_cmd. */
    method Dispatch(c: Id, r: Route, luck: Luck)
      requires Valid() && main == Nobody && c !in completions
      modifies this
      ensures Valid() && Books() == Next(old(Books()), Fetch(c, r, luck))
    {
      Take(c, KindOf(r));
      var ret := GenericHandle(c, r, luck);
      if ret != Async {
        CompleteNow(c);
      }
    }

    /** The command is fetched from the ring. */
    method Take(c: Id, kind: Kind)
      requires Valid() && main == Nobody && c !in completions
      modifies this`completions, this`kinds
      ensures Fetched(c) && completions == old(completions)[c := 0] && kinds == old(kinds)[c := kind]
    {
      assert Sound(c);
      completions, kinds := completions[c := 0], kinds[c := kind];
      Others(c);
    }

    /** At any moment a dispatched command has been completed at most once, and it has been
        completed exactly when nobody holds it; tracked_aio_ops is the number of commands
        started and not finished. */
    lemma ExactlyOnce(c: Id)
      requires Valid() && c in completions
      ensures completions[c] <= 1 && (completions[c] == 1 <==> Held(Books(), c) == 0)
      ensures tracked == |live| && live == set d | d in completions && completions[d] == 0
      ensures c in refcount ==> completions[c] == 0 && refcount[c] == Held(Books(), c) > 0
    {
      assert Sound(c);
      forall d ensures d in live <==> d in completions && completions[d] == 0 {
        assert Sound(d);
      }
    }

    /** One event, if it can happen. */
    method Do(e: Event)
      requires Valid()
      modifies this
      ensures Valid() && Books() == if old(Enabled(Books(), e)) then Next(old(Books()), e) else old(Books())
    {
      match e
      case Fetch(c, route, luck) =>
        if main == Nobody && c !in completions {
          Dispatch(c, route, luck);
        }
      case HandlerCalls(c, ok, more, luck) =>
        if c in owed {
          HandlerDone(c, ok, more, luck);
        }
      case WorkerTakes =>
        if queue != [] && |working| < nrThreads {
          TakeWork();
        }
      case WorkerCalls(c, ok, more, luck) =>
        if c in working {
          WorkerDone(c, ok, more, luck);
        }
      case PieceBegins =>
        if main.Main? && !main.piece {
          UnmapGet();
        }
      case PieceEnds(luck) =>
        if main.Main? && main.piece {
          var ret := UnmapPiece(luck);
        }
      case Submitted =>
        if main.Main? && !main.piece {
          UnmapEnd();
        }
    }
  }

  /** Any sequence of events from an idle device leaves the books as the rules say, so what
      EveryRun states of them holds of the code; and the commands being tracked are those not
      yet completed. */
  method Serve(events: seq<Event>, nrThreads: nat) returns (r: Runner)
    ensures fresh(r) && r.Valid() && r.Books() == After(nrThreads, events)
    ensures r.tracked == |set c | c in r.completions && r.completions[c] == 0|
  {
    r := new Runner(nrThreads);
    assert events[..|events|] == events;
    for i := 0 to |events|
      invariant fresh(r) && r.Valid() && r.Books() == After(nrThreads, events[..i])
    {
      assert events[..i + 1][..i] == events[..i];
      r.Do(events[i]);
    }
    forall c ensures c in r.live <==> c in r.completions && r.completions[c] == 0 {
      assert r.Sound(c);
    }
    assert r.live == set c | c in r.completions && r.completions[c] == 0;
  }
}
