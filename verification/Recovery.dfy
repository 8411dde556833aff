/** The recovery lists of target.c: a device that loses its connection is put on the list of
    one target port group, whose thread unlinks the group and then reopens its devices. */
module Recovery {

  type Dev = nat

  /** A port of a device: the target port group it belongs to, and whether it is enabled. */
  datatype Port = Port(tpg: nat, enabled: bool)

  datatype Slot = Free | Holding(dev: Dev)

  /** What a group's thread is doing: disabling the group at the target layer, walking its
      devices, or inside __tcmu_reopen_dev for the device it holds. */
  datatype Phase = Disabling | Walking | Reopening

  datatype Group = Group(tpg: nat, devs: seq<Dev>, held: Slot, phase: Phase)

  predicate Distinct(s: seq<nat>) {
    forall i, j :: 0 <= i < j < |s| ==> s[i] != s[j]
  }

  /** Group g and the devices it has: each is at this group, once. */
  ghost predicate GroupOk(g: nat, x: Group, at: map<Dev, nat>, adding: set<Dev>) {
    && Distinct(x.devs)
    && (forall d :: d in x.devs ==> d in at && at[d] == g)
    && (x.held.Holding? ==> x.held.dev in at && at[x.held.dev] == g && x.held.dev !in x.devs)
    && (x.phase.Disabling? ==> x.held.Free?)
    && (x.phase.Reopening? ==> x.held.Holding? && x.held.dev !in adding)
  }

  // ---- What can happen, and what it does ------------------------------------------------

  datatype Event =
    | ConnLost(d: Dev, stopping: bool, ports: seq<Port>, alua: bool, memory: bool)
    | FlagSet(d: Dev)
    | Unlinked(g: nat)
    | Taken(g: nat)
    | ReopenStarts(g: nat)
    | ReopenEnds(g: nat)
    | Freed(g: nat)
    | LockStarts(d: Dev)
    | LockEnds(d: Dev)

  /** The state of recovery: the groups on tpg_recovery_list, all groups, the devices whose
      IN_RECOVERY flag tcmu_notify_conn_lost or a lock thread has set, those being added, the
      group each device is at, and how often it was put on a list and reopened. */
  datatype Board = Board(listed: set<nat>, groups: map<nat, Group>, flagged: set<Dev>, lockers: set<Dev>, adding: set<Dev>,
                         at: map<Dev, nat>, queued: multiset<Dev>, reopened: multiset<Dev>)

  predicate Enabled(b: Board, e: Event) {
    match e
    case ConnLost(d, _, _, _, _) => d !in b.adding
    case FlagSet(d) => d in b.adding
    case Unlinked(g) => g in b.listed && g in b.groups
    case Taken(g) => g in b.groups && b.groups[g].phase.Walking? && b.groups[g].held.Free? && b.groups[g].devs != []
    case ReopenStarts(g) =>
      g in b.groups && b.groups[g].phase.Walking? && b.groups[g].held.Holding? && b.groups[g].held.dev !in b.adding
    case ReopenEnds(g) => g in b.groups && b.groups[g].phase.Reopening? && b.groups[g].held.Holding?
    case Freed(g) => g in b.groups && b.groups[g].phase.Walking? && b.groups[g].held.Free? && b.groups[g].devs == []
    case LockStarts(d) => d !in b.adding
    case LockEnds(d) => d in b.lockers
  }

  function Next(b: Board, e: Event): Board
    requires Enabled(b, e) && !e.ConnLost?
  {
    match e
    case FlagSet(d) => b.(flagged := b.flagged + {d}, adding := b.adding - {d})
    case Unlinked(g) => b.(listed := b.listed - {g}, groups := b.groups[g := b.groups[g].(phase := Walking)])
    case Taken(g) =>
      var x := b.groups[g];
      b.(groups := b.groups[g := x.(held := Holding(x.devs[0]), devs := x.devs[1..])])
    case ReopenStarts(g) => b.(groups := b.groups[g := b.groups[g].(phase := Reopening)])
    case ReopenEnds(g) =>
      var d := b.groups[g].held.dev;
      b.(groups := b.groups[g := b.groups[g].(held := Free, phase := Walking)], flagged := b.flagged - {d},
         at := b.at - {d}, reopened := b.reopened + multiset{d})
    case Freed(g) => b.(groups := b.groups - {g})
    case LockStarts(d) => if d in b.flagged || d in b.lockers then b else b.(lockers := b.lockers + {d})
    case LockEnds(d) => b.(lockers := b.lockers - {d})
  }

  /** Some port of the device belongs to a port group that is being recovered. */
  predicate OnListAlready(b: Board, ports: seq<Port>) {
    exists i, h :: 0 <= i < |ports| && h in b.listed && h in b.groups && b.groups[h].tpg == ports[i].tpg
  }

  /** tcmu_notify_conn_lost puts the device on a list. */
  predicate Adds(b: Board, e: Event)
    requires e.ConnLost?
  {
    && !e.stopping && e.d !in b.flagged && e.d !in b.lockers && e.alua
    && (OnListAlready(b, e.ports) || (e.memory && exists i :: 0 <= i < |e.ports| && e.ports[i].enabled))
  }

  /** The device joins group g, whose other devices stay. */
  function Joined(b: Board, d: Dev, g: nat): Board
    requires g in b.groups
  {
    b.(groups := b.groups[g := b.groups[g].(devs := [d] + b.groups[g].devs)], adding := b.adding + {d},
       at := b.at[d := g], queued := b.queued + multiset{d})
  }

  /** A new group for a port group. */
  function Founded(b: Board, g: nat, tpg: nat): Board {
    b.(listed := b.listed + {g}, groups := b.groups[g := Group(tpg, [], Free, Disabling)])
  }

  /** Port i belongs to group g, and no port before it to a group being recovered. */
  predicate FirstListed(b: Board, ports: seq<Port>, i: nat, g: nat) {
    && i < |ports| && g in b.listed && g in b.groups && b.groups[g].tpg == ports[i].tpg
    && forall k, h :: 0 <= k < i && h in b.listed && h in b.groups ==> b.groups[h].tpg != ports[k].tpg
  }

  /** The last enabled port. */
  predicate LastEnabled(ports: seq<Port>, i: nat) {
    i < |ports| && ports[i].enabled && forall k :: i < k < |ports| ==> !ports[k].enabled
  }

  /** A lost connection: the device joins the group of its first port whose group is being
      recovered, else a new group for its last enabled port. */
  ghost predicate Lost(b: Board, e: Event, b': Board)
    requires e.ConnLost?
  {
    if !Adds(b, e) then b' == b
    else if OnListAlready(b, e.ports) then exists i: nat, g: nat :: FirstListed(b, e.ports, i, g) && b' == Joined(b, e.d, g)
    else exists i: nat, g: nat :: LastEnabled(e.ports, i) && g !in b.groups && b' == Joined(Founded(b, g, e.ports[i].tpg), e.d, g)
  }

  /** One step; an event that cannot happen does not. */
  ghost predicate Step(b: Board, e: Event, b': Board) {
    if !Enabled(b, e) then b' == b else if e.ConnLost? then Lost(b, e, b') else b' == Next(b, e)
  }

  const Quiet := Board({}, map[], {}, {}, {}, map[], multiset{}, multiset{})

  /** A run from the start. */
  ghost predicate Run(events: seq<Event>, trace: seq<Board>) {
    && |trace| == |events| + 1 && trace[0] == Quiet
    && forall k :: 0 <= k < |events| ==> Step(trace[k], events[k], trace[k + 1])
  }

  lemma RunPush(events: seq<Event>, i: nat, trace: seq<Board>, b: Board)
    requires i < |events| && Run(events[..i], trace) && Step(trace[i], events[i], b)
    ensures Run(events[..i + 1], trace + [b])
  {
    var events', trace' := events[..i + 1], trace + [b];
    forall k | 0 <= k < i + 1 ensures Step(trace'[k], events'[k], trace'[k + 1]) {
      if k < i {
        assert events'[k] == events[..i][k];
        assert Step(trace[k], events[..i][k], trace[k + 1]);
      }
    }
  }

  /** Event k puts device d on a list. */
  predicate Queues(b: Board, e: Event, d: Dev) {
    e.ConnLost? && e.d == d && Enabled(b, e) && Adds(b, e)
  }

  /** Event k ends a reopen of device d. */
  predicate Reopens(b: Board, e: Event, d: Dev) {
    e.ReopenEnds? && Enabled(b, e) && b.groups[e.g].held.dev == d
  }

  lemma StepTotals(b: Board, e: Event, b': Board, d: Dev)
    requires Step(b, e, b')
    ensures b'.queued[d] == b.queued[d] + if Queues(b, e, d) then 1 else 0
    ensures b'.reopened[d] == b.reopened[d] + if Reopens(b, e, d) then 1 else 0
  {
  }

  /** How often either happened to d in the first n steps. */
  function TimesQueued(events: seq<Event>, trace: seq<Board>, d: Dev, n: nat): nat
    requires n <= |events| < |trace|
  {
    if n == 0 then 0 else TimesQueued(events, trace, d, n - 1) + if Queues(trace[n - 1], events[n - 1], d) then 1 else 0
  }

  function TimesReopened(events: seq<Event>, trace: seq<Board>, d: Dev, n: nat): nat
    requires n <= |events| < |trace|
  {
    if n == 0 then 0 else TimesReopened(events, trace, d, n - 1) + if Reopens(trace[n - 1], events[n - 1], d) then 1 else 0
  }

  /** The two totals of a board count the steps of the run. */
  lemma {:induction false} Totals(events: seq<Event>, trace: seq<Board>, d: Dev, n: nat)
    requires Run(events, trace) && n <= |events|
    ensures trace[n].queued[d] == TimesQueued(events, trace, d, n)
    ensures trace[n].reopened[d] == TimesReopened(events, trace, d, n)
  {
    if n > 0 {
      Totals(events, trace, d, n - 1);
      StepTotals(trace[n - 1], events[n - 1], trace[n], d);
    }
  }

  class Lists {
    /** tpg_recovery_list: the groups whose threads have not unlinked them. */
    var listed: seq<nat>
    var groups: map<nat, Group>
    var next: nat
    /** Devices whose IN_RECOVERY flag tcmu_notify_conn_lost has set, and those whose flag
        the lock thread has set for a reopen of its own. */
    var flagged: set<Dev>
    var lockers: set<Dev>
    /** Devices whose state_lock is held by a tcmu_notify_conn_lost that has added them. */
    var adding: set<Dev>
    /** The group at which a device waits or is being reopened. */
    ghost var at: map<Dev, nat>
    /** How often each device has been put on a list, and how often it has been reopened. */
    ghost var queued: multiset<Dev>
    ghost var reopened: multiset<Dev>

    ghost function Now(): Board
      reads this
    {
      Board((set g | g in listed), groups, flagged, lockers, adding, at, queued, reopened)
    }

    ghost predicate ListOk()
      reads this
    {
      && Distinct(listed)
      && (forall g :: g in listed <==> g in groups && groups[g].phase.Disabling?)
      && (forall g :: g in groups ==> g < next)
      && (forall g, h :: g in listed && h in listed && groups[g].tpg == groups[h].tpg ==> g == h)
    }

    ghost predicate GroupsOk()
      reads this
    {
      forall g :: g in groups ==> GroupOk(g, groups[g], at, adding)
    }

    /** Every device on its way to a reopen is at exactly one group, on its list or in the
        hands of its thread; and it has been queued once more than it has been reopened. */
    ghost predicate DevOk(d: Dev)
      reads this
    {
      && (d in at <==> d in flagged || d in adding)
      && (d in at ==> at[d] in groups && (d in groups[at[d]].devs || groups[at[d]].held == Holding(d)))
      && queued[d] == reopened[d] + (if d in at then 1 else 0)
    }

    ghost predicate Valid()
      reads this
    {
      && ListOk() && GroupsOk()
      && flagged !! adding && flagged !! lockers && adding !! lockers
      && forall d :: DevOk(d)
    }

    constructor ()
      ensures Valid() && Now() == Quiet
    {
      listed, groups, next := [], map[], 0;
      flagged, lockers, adding := {}, {}, {};
      at, queued, reopened := map[], multiset{}, multiset{};
    }

    /** port_is_on_recovery_list */
    method OnList(tpg: nat) returns (found: bool, g: nat)
      requires Valid()
      ensures found ==> g in listed && g in groups && groups[g].tpg == tpg
      ensures !found ==> forall h :: h in listed ==> groups[h].tpg != tpg
    {
      for i := 0 to |listed|
        invariant forall k :: 0 <= k < i ==> groups[listed[k]].tpg != tpg
      {
        if groups[listed[i]].tpg == tpg {
          return true, listed[i];
        }
      }
      return false, 0;
    }

    /** The search of tcmu_add_dev_to_recovery_list: the first port whose group is being
        recovered, else the last enabled port. */
    method FindGroup(ports: seq<Port>) returns (found: bool, g: nat, port: int)
      requires Valid()
      ensures found <==> OnListAlready(Now(), ports)
      ensures found ==> exists i: nat :: FirstListed(Now(), ports, i, g)
      ensures !found ==> (port >= 0 <==> exists i :: 0 <= i < |ports| && ports[i].enabled)
      ensures !found && port >= 0 ==> LastEnabled(ports, port)
      ensures !found && port >= 0 ==> forall h :: h in listed ==> groups[h].tpg != ports[port].tpg
    {
      port := -1;
      for i := 0 to |ports|
        invariant -1 <= port < i && (port >= 0 ==> ports[port].enabled)
        invariant forall k :: port < k < i ==> !ports[k].enabled
        invariant forall k, h :: 0 <= k < i && h in listed ==> groups[h].tpg != ports[k].tpg
      {
        if ports[i].enabled {
          port := i;
        }
        found, g := OnList(ports[i].tpg);
        if found {
          assert FirstListed(Now(), ports, i, g);
          return;
        }
      }
      found, g := false, 0;
    }

    /** list_add(&tpg->devs, ...): the group has not been unlinked. */
    method AddTo(d: Dev, g: nat)
      requires Valid() && g in listed && d !in flagged && d !in adding && d !in lockers
      modifies this`groups, this`adding, this`at, this`queued
      ensures Valid() && adding == old(adding) + {d} && at == old(at)[d := g] && queued == old(queued) + multiset{d}
      ensures groups == old(groups)[g := old(groups[g]).(devs := [d] + old(groups[g]).devs)]
    {
      assert DevOk(d) && GroupOk(g, groups[g], at, adding);
      ghost var groups0, at0, adding0 := groups, at, adding;
      groups := groups[g := groups[g].(devs := [d] + groups[g].devs)];
      adding := adding + {d};
      at, queued := at[d := g], queued + multiset{d};
      forall h | h in groups ensures GroupOk(h, groups[h], at, adding) {
        assert GroupOk(h, groups0[h], at0, adding0);
        Fresh(h, groups0[h], at0, adding0, d);
        if h == g {
          DistinctPush(groups0[g].devs, d);
        }
      }
      forall e ensures DevOk(e) {
        assert old(DevOk(e));
      }
    }

    /** A new group for the port group tpg, and its thread. */
    method NewGroup(tpg: nat) returns (g: nat)
      requires Valid() && forall h :: h in listed ==> groups[h].tpg != tpg
      modifies this`listed, this`groups, this`next
      ensures Valid() && g !in old(groups) && listed == [g] + old(listed)
      ensures groups == old(groups)[g := Group(tpg, [], Free, Disabling)]
    {
      g := next;
      DistinctPush(listed, g);
      listed, groups, next := [g] + listed, groups[g := Group(tpg, [], Free, Disabling)], next + 1;
      forall h | h in groups ensures GroupOk(h, groups[h], at, adding) {
        assert h != g ==> old(GroupOk(h, groups[h], at, adding));
      }
      forall e ensures DevOk(e) {
        assert old(DevOk(e));
      }
    }

    /** tcmu_notify_conn_lost as far as the recovery list: on success the device's state_lock
        is still held, and IN_RECOVERY is not yet set. */
    method NotifyConnLost(d: Dev, stopping: bool, ports: seq<Port>, alua: bool, memory: bool) returns (added: bool)
      requires Valid() && d !in adding
      modifies this`listed, this`groups, this`next, this`adding, this`at, this`queued
      ensures Valid()
      ensures added <==> old(Adds(Now(), ConnLost(d, stopping, ports, alua, memory)))
      ensures Lost(old(Now()), ConnLost(d, stopping, ports, alua, memory), Now())
    {
      if stopping || d in flagged || d in lockers || !alua {
        return false;
      }
      var found, g, port := FindGroup(ports);
      if !found {
        if port < 0 || !memory {
          return false;
        }
        ghost var b := Now();
        g := NewGroup(ports[port].tpg);
        assert Now() == Founded(b, g, ports[port].tpg);
      }
      AddTo(d, g);
      return true;
    }

    /** The end of tcmu_notify_conn_lost: IN_RECOVERY is set and state_lock released. */
    method SetFlag(d: Dev)
      requires Valid() && d in adding
      modifies this`flagged, this`adding
      ensures Valid() && flagged == old(flagged) + {d} && adding == old(adding) - {d}
    {
      flagged, adding := flagged + {d}, adding - {d};
      forall h | h in groups ensures GroupOk(h, groups[h], at, adding) {
        assert old(GroupOk(h, groups[h], at, adding));
      }
      forall e ensures DevOk(e) {
        assert old(DevOk(e));
      }
    }

    /** The group's thread has disabled the group and takes it off tpg_recovery_list. */
    method Unlink(g: nat)
      requires Valid() && g in listed
      modifies this`listed, this`groups
      ensures Valid() && groups == old(groups)[g := old(groups[g]).(phase := Walking)]
      ensures forall h :: h in listed <==> h in old(listed) && h != g
    {
      var i := 0;
      ghost var k :| 0 <= k < |listed| && listed[k] == g;
      while listed[i] != g
        invariant 0 <= i <= k
        decreases k - i
      {
        i := i + 1;
      }
      Removed(listed, i);
      listed, groups := listed[..i] + listed[i + 1..], groups[g := groups[g].(phase := Walking)];
      forall h | h in groups ensures GroupOk(h, groups[h], at, adding) {
        assert old(GroupOk(h, groups[h], at, adding));
      }
      forall e ensures DevOk(e) {
        assert old(DevOk(e));
      }
    }

    /** One turn of the thread's walk: the first device comes off the list. */
    method TakeDevice(g: nat)
      requires Valid() && g in groups && groups[g].phase.Walking? && groups[g].held.Free? && groups[g].devs != []
      modifies this`groups
      ensures Valid()
      ensures groups == old(groups)[g := old(groups[g]).(held := Holding(old(groups[g].devs[0])), devs := old(groups[g].devs[1..]))]
    {
      var x := groups[g];
      assert GroupOk(g, x, at, adding) && x.devs == [x.devs[0]] + x.devs[1..];
      groups := groups[g := x.(held := Holding(x.devs[0]), devs := x.devs[1..])];
      forall h | h in groups ensures GroupOk(h, groups[h], at, adding) {
        assert old(GroupOk(h, groups[h], at, adding));
      }
      forall e ensures DevOk(e) {
        assert old(DevOk(e));
      }
    }

    /** __tcmu_reopen_dev takes state_lock, which no tcmu_notify_conn_lost holds any more:
        IN_RECOVERY is visible to it. */
    method BeginReopen(g: nat) returns (d: Dev)
      requires Valid() && g in groups && groups[g].phase.Walking? && groups[g].held.Holding? && groups[g].held.dev !in adding
      modifies this`groups
      ensures Valid() && d == old(groups[g].held.dev) && d in flagged && d in at && at[d] == g
      ensures groups == old(groups)[g := old(groups[g]).(phase := Reopening)]
    {
      d := groups[g].held.dev;
      assert GroupOk(g, groups[g], at, adding) && DevOk(d);
      groups := groups[g := groups[g].(phase := Reopening)];
      forall h | h in groups ensures GroupOk(h, groups[h], at, adding) {
        assert old(GroupOk(h, groups[h], at, adding));
      }
      forall e ensures DevOk(e) {
        assert old(DevOk(e));
      }
    }

    /** The reopen ends and clears IN_RECOVERY. */
    method EndReopen(g: nat) returns (d: Dev)
      requires Valid() && g in groups && groups[g].phase.Reopening?
      modifies this`groups, this`flagged, this`at, this`reopened
      ensures GroupOk(g, old(groups[g]), old(at), adding) && d == old(groups[g]).held.dev
      ensures Valid() && flagged == old(flagged) - {d} && reopened == old(reopened) + multiset{d} && at == old(at) - {d}
      ensures groups == old(groups)[g := old(groups[g]).(held := Free, phase := Walking)]
    {
      assert GroupOk(g, groups[g], at, adding);
      d := groups[g].held.dev;
      assert DevOk(d);
      ghost var groups0, at0 := groups, at;
      groups := groups[g := groups[g].(held := Free, phase := Walking)];
      flagged := flagged - {d};
      at, reopened := at - {d}, reopened + multiset{d};
      forall h | h in groups ensures GroupOk(h, groups[h], at, adding) {
        assert GroupOk(h, groups0[h], at0, adding);
      }
      forall e ensures DevOk(e) {
        assert old(DevOk(e));
      }
    }

    /** free_tgt_port_grp: nothing is left at the group. */
    method FreeGroup(g: nat)
      requires Valid() && g in groups && groups[g].phase.Walking? && groups[g].held.Free? && groups[g].devs == []
      modifies this`groups
      ensures Valid() && groups == old(groups) - {g}
    {
      groups := groups - {g};
      forall h | h in groups ensures GroupOk(h, groups[h], at, adding) {
        assert old(GroupOk(h, groups[h], at, adding));
      }
      forall e ensures DevOk(e) {
        assert old(DevOk(e));
      }
    }

    /** tcmu_reopen_dev by a lock thread. */
    method LockerBegins(d: Dev) returns (ok: bool)
      requires Valid() && d !in adding
      modifies this`lockers
      ensures Valid() && (ok <==> d !in flagged && d !in old(lockers))
      ensures lockers == if ok then old(lockers) + {d} else old(lockers)
    {
      ok := d !in flagged && d !in lockers;
      if ok {
        lockers := lockers + {d};
      }
      forall e ensures DevOk(e) {
        assert old(DevOk(e));
      }
    }

    method LockerEnds(d: Dev)
      requires Valid() && d in lockers
      modifies this`lockers
      ensures Valid() && lockers == old(lockers) - {d}
    {
      lockers := lockers - {d};
      forall e ensures DevOk(e) {
        assert old(DevOk(e));
      }
    }
  }

  lemma DistinctPush(s: seq<nat>, x: nat)
    requires Distinct(s) && x !in s
    ensures Distinct([x] + s)
  {
  }

  lemma Removed(s: seq<nat>, i: nat)
    requires Distinct(s) && i < |s|
    ensures Distinct(s[..i] + s[i + 1..])
    ensures forall x :: x in s[..i] + s[i + 1..] <==> x in s && x != s[i]
  {
    var t := s[..i] + s[i + 1..];
    forall x | x in s && x != s[i] ensures x in t {
      var k :| 0 <= k < |s| && s[k] == x;
      assert t[if k < i then k else k - 1] == x;
    }
  }

  /** A device that is at no group is in none. */
  lemma Fresh(g: nat, x: Group, at: map<Dev, nat>, adding: set<Dev>, d: Dev)
    requires GroupOk(g, x, at, adding) && d !in at
    ensures d !in x.devs && x.held != Holding(d)
  {
  }

  // ---- Every run ---------------------------------------------------------------------------

  /** One event, if it can happen. */
  method Do(l: Lists, e: Event)
    requires l.Valid()
    modifies l
    ensures l.Valid() && Step(old(l.Now()), e, l.Now())
  {
    match e
    case ConnLost(d, stopping, ports, alua, memory) =>
      if d !in l.adding {
        var added := l.NotifyConnLost(d, stopping, ports, alua, memory);
      }
    case FlagSet(d) => if d in l.adding { l.SetFlag(d); }
    case LockStarts(d) => if d !in l.adding { var ok := l.LockerBegins(d); }
    case LockEnds(d) => if d in l.lockers { l.LockerEnds(d); }
    case _ => Walk(l, e);
  }

  /** A step of the thread of group e.g. */
  method Walk(l: Lists, e: Event)
    requires l.Valid() && !e.ConnLost? && !e.FlagSet? && !e.LockStarts? && !e.LockEnds?
    modifies l
    ensures l.Valid() && Step(old(l.Now()), e, l.Now())
  {
    match e
    case Unlinked(g) => if g in l.listed { l.Unlink(g); }
    case Taken(g) =>
      if g in l.groups && l.groups[g].phase.Walking? && l.groups[g].held.Free? && l.groups[g].devs != [] {
        l.TakeDevice(g);
      }
    case ReopenStarts(g) =>
      if g in l.groups && l.groups[g].phase.Walking? && l.groups[g].held.Holding? && l.groups[g].held.dev !in l.adding {
        var d := l.BeginReopen(g);
      }
    case ReopenEnds(g) =>
      if g in l.groups && l.groups[g].phase.Reopening? {
        assert GroupOk(g, l.groups[g], l.at, l.adding);
        var d := l.EndReopen(g);
      }
    case Freed(g) =>
      if g in l.groups && l.groups[g].phase.Walking? && l.groups[g].held.Free? && l.groups[g].devs == [] {
        l.FreeGroup(g);
      }
  }

  /** Whatever the interleaving, every device has been reopened as often as it was put on a
      list, but for the one time it may be waiting; and once no group is left, exactly as
      often, with its IN_RECOVERY flag clear. */
  method Serve(events: seq<Event>) returns (l: Lists, ghost trace: seq<Board>)
    ensures fresh(l) && l.Valid() && Run(events, trace) && trace[|events|] == l.Now()
    ensures forall d :: TimesQueued(events, trace, d, |events|) ==
              TimesReopened(events, trace, d, |events|) + if d in l.flagged || d in l.adding then 1 else 0
    ensures l.groups == map[] ==> l.flagged == {} && l.adding == {}
  {
    l := new Lists();
    trace := [l.Now()];
    assert events[..|events|] == events;
    for i := 0 to |events|
      invariant fresh(l) && l.Valid() && Run(events[..i], trace) && trace[i] == l.Now()
    {
      Do(l, events[i]);
      RunPush(events, i, trace, l.Now());
      trace := trace + [l.Now()];
    }
    forall d ensures TimesQueued(events, trace, d, |events|) ==
        TimesReopened(events, trace, d, |events|) + if d in l.flagged || d in l.adding then 1 else 0
    {
      Totals(events, trace, d, |events|);
      assert l.DevOk(d);
    }
    if l.groups == map[] {
      forall d ensures d !in l.flagged && d !in l.adding {
        assert l.DevOk(d);
      }
    }
  }
}
