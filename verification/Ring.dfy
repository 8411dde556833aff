/** The shared command ring between the kernel and libtcmu: variable-length entries, two
    user-space tails and out-of-order completion. */
module Ring {
  import opened Arith

  datatype Op = Pad | Cmd | Unknown(code: nat)

  /** A ring entry.  `known` says that the length of the entry's CDB can be computed;
      `flagged` is TCMU_UFLAG_UNKNOWN_OP. */
  datatype Entry = Entry(op: Op, len: nat, id: nat, known: bool, flagged: bool)

  datatype Fetched = Nothing | Command(id: nat)

  // ---- The ring as a list of entries ----------------------------------------------

  /** Where entry i starts, counted from the first entry. */
  function Start(q: seq<Entry>, i: nat): nat
    requires i <= |q|
  {
    if i == 0 then 0 else Start(q, i - 1) + q[i - 1].len
  }

  /** The ids of the commands among entries lo..hi, in order. */
  function Ids(q: seq<Entry>, lo: nat, hi: nat): seq<nat>
    requires hi <= |q|
  {
    if lo >= hi then []
    else Ids(q, lo, hi - 1) + if q[hi - 1].op.Cmd? then [q[hi - 1].id] else []
  }

  /** The first command that can be handed out at or after entry i. */
  function NextCommand(q: seq<Entry>, i: nat): (j: nat)
    requires i <= |q|
    ensures i <= j <= |q| && (j < |q| ==> q[j].op.Cmd? && q[j].known)
    decreases |q| - i
  {
    if i == |q| || (q[i].op.Cmd? && q[i].known) then i else NextCommand(q, i + 1)
  }

  /** The first command entry at or after entry i, whatever its CDB. */
  function NextSlot(q: seq<Entry>, i: nat): (j: nat)
    requires i <= |q|
    ensures i <= j <= |q| && (j < |q| ==> q[j].op.Cmd?)
    decreases |q| - i
  {
    if i == |q| || q[i].op.Cmd? then i else NextSlot(q, i + 1)
  }

  lemma {:induction false} StartMono(q: seq<Entry>, i: nat, j: nat)
    requires i <= j <= |q|
    ensures Start(q, i) <= Start(q, j)
    ensures i < j ==> Start(q, i) + q[i].len <= Start(q, j)
  {
    if i < j {
      StartMono(q, i, j - 1);
    }
  }

  lemma {:induction false} StartSame(q: seq<Entry>, q': seq<Entry>, i: nat)
    requires i <= |q| && i <= |q'| && forall k :: 0 <= k < i ==> q'[k].len == q[k].len
    ensures Start(q', i) == Start(q, i)
  {
    if i > 0 {
      StartSame(q, q', i - 1);
    }
  }

  lemma {:induction false} StartDrop(q: seq<Entry>, n: nat, i: nat)
    requires n + i <= |q|
    ensures Start(q[n..], i) == Start(q, n + i) - Start(q, n)
  {
    if i > 0 {
      StartDrop(q, n, i - 1);
    }
  }

  lemma {:induction false} IdsSame(q: seq<Entry>, q': seq<Entry>, lo: nat, hi: nat)
    requires hi <= |q| && hi <= |q'|
    requires forall k :: lo <= k < hi ==> q'[k].op == q[k].op && q'[k].id == q[k].id
    ensures Ids(q', lo, hi) == Ids(q, lo, hi)
  {
    if lo < hi {
      IdsSame(q, q', lo, hi - 1);
    }
  }

  lemma {:induction false} IdsSplit(q: seq<Entry>, lo: nat, mid: nat, hi: nat)
    requires lo <= mid <= hi <= |q|
    ensures Ids(q, lo, hi) == Ids(q, lo, mid) + Ids(q, mid, hi)
  {
    if mid < hi {
      IdsSplit(q, lo, mid, hi - 1);
    }
  }

  lemma {:induction false} IdsDrop(q: seq<Entry>, n: nat, lo: nat, hi: nat)
    requires n + hi <= |q|
    ensures Ids(q[n..], lo, hi) == Ids(q, n + lo, n + hi)
  {
    if lo < hi {
      IdsDrop(q, n, lo, hi - 1);
    }
  }

  /** No command lies between i and the next command entry. */
  lemma {:induction false} NextSlotSkips(q: seq<Entry>, i: nat, hi: nat)
    requires i <= |q| && i <= hi <= NextSlot(q, i)
    ensures Ids(q, i, hi) == []
    decreases |q| - i
  {
    if i < hi {
      NextSlotSkips(q, i + 1, hi);
      IdsSplit(q, i, i + 1, hi);
    }
  }

  // ---- The ring as memory ----------------------------------------------------------

  /** Offset k past `base` in a ring of `size` bytes. */
  function Place(size: nat, base: nat, k: nat): (p: nat)
    requires base < size && k < size
    ensures p < size
  {
    Mod(base + k, size)
  }

  lemma PlaceIs(size: nat, base: nat, k: nat)
    requires base < size && k < size
    ensures Place(size, base, k) == if base + k < size then base + k else base + k - size
  {
    var n := base + k;
    if n >= size {
      assert Mod(n - size, size) == n - size;
    }
  }

  lemma PlaceNext(size: nat, base: nat, k: nat, n: nat)
    requires base < size && k + n < size
    ensures Mod(Place(size, base, k) + n, size) == Place(size, base, k + n)
    ensures Place(size, Place(size, base, k), n) == Place(size, base, k + n)
  {
    PlaceIs(size, base, k);
    PlaceIs(size, base, k + n);
    PlaceIs(size, Place(size, base, k), n);
  }

  lemma PlaceInjective(size: nat, base: nat, j: nat, k: nat)
    requires base < size && j < size && k < size && Place(size, base, j) == Place(size, base, k)
    ensures j == k
  {
    PlaceIs(size, base, j);
    PlaceIs(size, base, k);
  }

  ghost predicate EntryAt(entries: map<nat, Entry>, size: nat, base: nat, q: seq<Entry>, i: nat)
    requires i < |q| && base < size
  {
    && q[i].len > 0
    && Start(q, i) < size
    && Place(size, base, Start(q, i)) in entries
    && entries[Place(size, base, Start(q, i))] == q[i]
  }

  /** Starting at offset `base` the ring's memory holds exactly the entries q. */
  ghost predicate Holds(entries: map<nat, Entry>, size: nat, base: nat, q: seq<Entry>) {
    && base < size
    && Start(q, |q|) < size
    && forall i :: 0 <= i < |q| ==> EntryAt(entries, size, base, q, i)
  }

  /** Two positions in the queue are the same byte only if they are the same position. */
  lemma Distinct(entries: map<nat, Entry>, size: nat, base: nat, q: seq<Entry>, i: nat, j: nat)
    requires Holds(entries, size, base, q) && i <= |q| && j <= |q|
    ensures Start(q, i) < size && Start(q, j) < size
    ensures Place(size, base, Start(q, i)) == Place(size, base, Start(q, j)) <==> i == j
  {
    StartMono(q, i, |q|);
    StartMono(q, j, |q|);
    if i != j {
      var a, b := if i < j then i else j, if i < j then j else i;
      assert EntryAt(entries, size, base, q, a);
      StartMono(q, a, b);
      if Place(size, base, Start(q, i)) == Place(size, base, Start(q, j)) {
        PlaceInjective(size, base, Start(q, i), Start(q, j));
      }
    }
  }

  /** Writing an entry after the last one. */
  lemma HoldsPush(entries: map<nat, Entry>, size: nat, base: nat, q: seq<Entry>, e: Entry)
    requires Holds(entries, size, base, q) && e.len > 0 && Start(q, |q|) + e.len < size
    ensures Holds(entries[Place(size, base, Start(q, |q|)) := e], size, base, q + [e])
    ensures Start(q + [e], |q| + 1) == Start(q, |q|) + e.len
  {
    var q' := q + [e];
    var entries' := entries[Place(size, base, Start(q, |q|)) := e];
    StartSame(q, q', |q|);
    forall i | 0 <= i < |q'| ensures EntryAt(entries', size, base, q', i) {
      StartSame(q, q', i);
      if i < |q| {
        assert EntryAt(entries, size, base, q, i);
        Distinct(entries, size, base, q, i, |q|);
      }
    }
  }

  /** Rewriting an entry in place. */
  lemma HoldsWrite(entries: map<nat, Entry>, size: nat, base: nat, q: seq<Entry>, k: nat, e: Entry)
    requires Holds(entries, size, base, q) && k < |q| && e.len == q[k].len
    ensures Start(q, k) < size
    ensures Holds(entries[Place(size, base, Start(q, k)) := e], size, base, q[k := e])
    ensures forall i :: 0 <= i <= |q| ==> Start(q[k := e], i) == Start(q, i)
  {
    var q' := q[k := e];
    assert EntryAt(entries, size, base, q, k);
    var entries' := entries[Place(size, base, Start(q, k)) := e];
    forall i | 0 <= i <= |q| ensures Start(q', i) == Start(q, i) {
      StartSame(q, q', i);
    }
    forall i | 0 <= i < |q| ensures EntryAt(entries', size, base, q', i) {
      assert EntryAt(entries, size, base, q, i);
      Distinct(entries, size, base, q, i, k);
    }
  }

  /** Forgetting the first n entries. */
  lemma HoldsDrop(entries: map<nat, Entry>, size: nat, base: nat, q: seq<Entry>, n: nat)
    requires Holds(entries, size, base, q) && n <= |q|
    ensures Start(q, n) < size && Holds(entries, size, Place(size, base, Start(q, n)), q[n..])
    ensures forall i :: 0 <= i <= |q| - n ==>
              && Start(q[n..], i) < size && Start(q, n + i) < size
              && Place(size, Place(size, base, Start(q, n)), Start(q[n..], i)) == Place(size, base, Start(q, n + i))
  {
    StartMono(q, n, |q|);
    var q', base' := q[n..], Place(size, base, Start(q, n));
    forall i | 0 <= i <= |q'|
      ensures Start(q', i) < size && Start(q, n + i) < size
      ensures Place(size, base', Start(q', i)) == Place(size, base, Start(q, n + i))
    {
      StartMono(q, n + i, |q|);
      StartDrop(q, n, i);
      StartMono(q, n, n + i);
      PlaceNext(size, base, Start(q, n), Start(q', i));
    }
    forall i | 0 <= i < |q'| ensures EntryAt(entries, size, base', q', i) {
      assert EntryAt(entries, size, base, q, n + i);
    }
  }

  // ---- Steps -----------------------------------------------------------------------

  /** The entries from the kernel's cleaning position to the head, how many of them each tail
      has passed, and the run so far: ids passed by the device tail and ids reaped by the
      kernel, in order; ids handed out and not completed; ids dropped for their CDB. */
  datatype Book = Book(q: seq<Entry>, nt: nat, nd: nat, passed: seq<nat>, reaped: seq<nat>,
                       out: multiset<nat>, dropped: multiset<nat>)
  {
    predicate Ordered() {
      nt <= nd <= |q|
    }

    /** Every id enqueued, in order. */
    function Enqueued(): seq<nat>
      requires Ordered()
    {
      passed + Ids(q, nd, |q|)
    }

    /** Every id the mailbox tail has returned to the kernel, in order, as the ring's memory
        has them. */
    function Returned(): seq<nat>
      requires Ordered()
    {
      reaped + Ids(q, 0, nt)
    }

    function Ledger(): Ledger
      requires Ordered()
    {
      InAndOut(Enqueued(), Returned())
    }
  }

  /** What the run looks like from outside: the ids that went in and the ids that came back. */
  datatype Ledger = InAndOut(enqueued: seq<nat>, returned: seq<nat>)

  /** The command entries between the tails number the commands handed out, plus the dropped
      ones; and nothing passed is lost. */
  ghost predicate Accounts(b: Book) {
    && b.Ordered()
    && |Ids(b.q, b.nt, b.nd)| == |b.out| + |b.dropped|
    && multiset(b.passed) == multiset(b.Returned()) + b.out + b.dropped
  }

  /** The memory and the four offsets describe the book, and the mailbox tail is never past
      the device tail. */
  ghost predicate Shaped(entries: map<nat, Entry>, size: nat, cleaned: nat, tail: nat, devTail: nat, head: nat, b: Book) {
    && Holds(entries, size, cleaned, b.q)
    && b.Ordered()
    && Start(b.q, b.nt) < size && tail == Place(size, cleaned, Start(b.q, b.nt))
    && Start(b.q, b.nd) < size && devTail == Place(size, cleaned, Start(b.q, b.nd))
    && head == Place(size, cleaned, Start(b.q, |b.q|))
  }

  /** What one entry adds to a list of ids. */
  function IdOf(e: Entry): seq<nat> {
    if e.op.Cmd? then [e.id] else []
  }

  /** One more entry queued. */
  function Debit(l: Ledger, e: Entry): Ledger {
    l.(enqueued := l.enqueued + IdOf(e))
  }

  /** One more id returned. */
  function Credit(l: Ledger, id: nat): Ledger {
    l.(returned := l.returned + [id])
  }

  /** The kernel enqueues e. */
  function Pushed(b: Book, e: Entry): Book {
    b.(q := b.q + [e])
  }

  lemma Push(entries: map<nat, Entry>, size: nat, cleaned: nat, tail: nat, devTail: nat, head: nat, b: Book, e: Entry, b': Book)
    requires Shaped(entries, size, cleaned, tail, devTail, head, b) && b' == Pushed(b, e)
    requires e.len > 0 && Start(b.q, |b.q|) + e.len < size
    ensures Shaped(entries[head := e], size, cleaned, tail, devTail, Mod(head + e.len, size), b')
  {
    HoldsPush(entries, size, cleaned, b.q, e);
    PlaceNext(size, cleaned, Start(b.q, |b.q|), e.len);
    StartSame(b.q, b'.q, b.nt);
    StartSame(b.q, b'.q, b.nd);
  }

  lemma PushIds(q: seq<Entry>, nt: nat, nd: nat, e: Entry, q': seq<Entry>)
    requires nt <= nd <= |q| && q' == q + [e]
    ensures Ids(q', nd, |q'|) == Ids(q, nd, |q|) + IdOf(e)
    ensures Ids(q', nt, nd) == Ids(q, nt, nd) && Ids(q', 0, nt) == Ids(q, 0, nt)
  {
    IdsSame(q, q', nd, |q|);
    IdsSame(q, q', nt, nd);
    IdsSame(q, q', 0, nt);
  }

  lemma PushAccounts(b: Book, e: Entry, b': Book)
    requires Accounts(b) && b' == Pushed(b, e)
    ensures Accounts(b') && b'.Ledger() == Debit(b.Ledger(), e)
  {
    PushIds(b.q, b.nt, b.nd, e, b'.q);
    assert b'.Returned() == b.Returned();
    assert b'.Enqueued() == b.Enqueued() + IdOf(e);
  }

  /** What tcmulib_get_next_command leaves in an entry it passes. */
  function Seen(e: Entry): Entry {
    if e.op.Unknown? then e.(flagged := true) else e
  }

  /** The device tail passes an entry without handing it out. */
  function Passed(b: Book): Book
    requires b.nd < |b.q|
  {
    var ids := IdOf(b.q[b.nd]);
    b.(q := b.q[b.nd := Seen(b.q[b.nd])], nd := b.nd + 1, passed := b.passed + ids, dropped := b.dropped + multiset(ids))
  }

  /** The device tail passes a command and hands it out. */
  function Taken(b: Book): Book
    requires b.nd < |b.q|
  {
    var id := b.q[b.nd].id;
    b.(nd := b.nd + 1, passed := b.passed + [id], out := b.out + multiset{id})
  }

  /** The mailbox tail passes an entry that is no command. */
  function Skipped(b: Book): Book {
    b.(nt := b.nt + 1)
  }

  /** A completion takes over the command entry at the mailbox tail. */
  function Finished(b: Book, id: nat): Book
    requires b.nt < |b.q|
  {
    b.(q := b.q[b.nt := b.q[b.nt].(id := id)], nt := b.nt + 1, out := b.out - multiset{id})
  }

  /** The kernel takes what the mailbox tail has passed. */
  function Reaped(b: Book): Book
    requires b.Ordered()
  {
    b.(q := b.q[b.nt..], nt := 0, nd := b.nd - b.nt, reaped := b.Returned())
  }

  /** The offset after entry k is entry k's offset plus its length, mod the ring size. */
  lemma Step(entries: map<nat, Entry>, size: nat, base: nat, q: seq<Entry>, k: nat)
    requires Holds(entries, size, base, q) && k < |q|
    ensures Start(q, k) < size && Start(q, k + 1) < size
    ensures Place(size, base, Start(q, k)) in entries && entries[Place(size, base, Start(q, k))] == q[k]
    ensures Mod(Place(size, base, Start(q, k)) + q[k].len, size) == Place(size, base, Start(q, k + 1))
  {
    assert EntryAt(entries, size, base, q, k);
    StartMono(q, k + 1, |q|);
    PlaceNext(size, base, Start(q, k), q[k].len);
  }

  lemma PassShape(entries: map<nat, Entry>, size: nat, cleaned: nat, tail: nat, devTail: nat, head: nat, b: Book, e: Entry, b': Book)
    requires Shaped(entries, size, cleaned, tail, devTail, head, b) && b.nd < |b.q|
    requires e == Seen(b.q[b.nd]) && b' == Passed(b)
    ensures Shaped(entries[devTail := e], size, cleaned, tail, Mod(devTail + e.len, size), head, b')
    ensures Mod(devTail + e.len, size) != head <==> b'.nd < |b'.q|
  {
    HoldsWrite(entries, size, cleaned, b.q, b.nd, e);
    Step(entries[devTail := e], size, cleaned, b'.q, b.nd);
    Distinct(entries[devTail := e], size, cleaned, b'.q, b'.nd, |b'.q|);
  }

  lemma PassIds(q: seq<Entry>, nt: nat, nd: nat, q': seq<Entry>)
    requires nt <= nd < |q| && q' == q[nd := Seen(q[nd])]
    ensures Ids(q', nt, nd + 1) == Ids(q, nt, nd) + IdOf(q[nd])
    ensures IdOf(q[nd]) + Ids(q', nd + 1, |q|) == Ids(q, nd, |q|) && Ids(q', 0, nt) == Ids(q, 0, nt)
  {
    IdsSplit(q, nd, nd + 1, |q|);
    assert Ids(q, nd, nd + 1) == IdOf(q[nd]);
    IdsSame(q, q', nd + 1, |q|);
    IdsSame(q, q', nt, nd);
    IdsSame(q, q', 0, nt);
  }

  /** Moving a list of ids from what is left to what is passed. */
  lemma Moved(passed: seq<nat>, ids: seq<nat>, rest: seq<nat>)
    ensures passed + (ids + rest) == passed + ids + rest
    ensures multiset(passed + ids) == multiset(passed) + multiset(ids) && |multiset(ids)| == |ids|
  {
  }

  lemma PassAccounts(b: Book, b': Book)
    requires Accounts(b) && b.nd < |b.q| && b' == Passed(b)
    ensures Accounts(b') && b'.Ledger() == b.Ledger()
  {
    PassIds(b.q, b.nt, b.nd, b'.q);
    Moved(b.passed, IdOf(b.q[b.nd]), Ids(b'.q, b'.nd, |b'.q|));
  }

  lemma TakeShape(entries: map<nat, Entry>, size: nat, cleaned: nat, tail: nat, devTail: nat, head: nat, b: Book, e: Entry, b': Book)
    requires Shaped(entries, size, cleaned, tail, devTail, head, b) && b.nd < |b.q| && e == b.q[b.nd] && b' == Taken(b)
    ensures Shaped(entries, size, cleaned, tail, Mod(devTail + e.len, size), head, b')
  {
    Step(entries, size, cleaned, b.q, b.nd);
  }

  lemma TakeAccounts(b: Book, b': Book)
    requires Accounts(b) && b.nd < |b.q| && b.q[b.nd].op.Cmd? && b' == Taken(b)
    ensures Accounts(b') && b'.Ledger() == b.Ledger()
  {
    PassIds(b.q, b.nt, b.nd, b.q[b.nd := b.q[b.nd]]);
    assert b.q[b.nd := b.q[b.nd]] == b.q;
    Moved(b.passed, [b.q[b.nd].id], Ids(b.q, b'.nd, |b.q|));
  }

  lemma SkipAccounts(b: Book, b': Book)
    requires Accounts(b) && b.nt < b.nd && !b.q[b.nt].op.Cmd? && b' == Skipped(b)
    ensures Accounts(b') && b'.Ledger() == b.Ledger()
  {
    IdsSplit(b.q, b.nt, b.nt + 1, b.nd);
    assert Ids(b.q, b.nt, b.nt + 1) == [];
  }

  /** The bookkeeping of a completion, once the command counts are known. */
  lemma Settle(passed: seq<nat>, returned: seq<nat>, out: multiset<nat>, dropped: multiset<nat>, id: nat)
    requires multiset(passed) == multiset(returned) + out + dropped && id in out
    ensures multiset(passed) == multiset(returned + [id]) + (out - multiset{id}) + dropped
    ensures |out - multiset{id}| == |out| - 1
  {
    assert multiset(returned + [id]) == multiset(returned) + multiset{id};
    assert out == (out - multiset{id}) + multiset{id};
  }

  lemma FinishIds(q: seq<Entry>, nt: nat, nd: nat, e: Entry, q': seq<Entry>)
    requires nt < nd <= |q| && q[nt].op.Cmd? && e.op.Cmd? && q' == q[nt := e]
    ensures |Ids(q', nt + 1, nd)| == |Ids(q, nt, nd)| - 1
    ensures Ids(q', nd, |q|) == Ids(q, nd, |q|) && Ids(q', 0, nt + 1) == Ids(q, 0, nt) + [e.id]
  {
    IdsSplit(q, nt, nt + 1, nd);
    assert |Ids(q, nt, nt + 1)| == 1;
    IdsSame(q, q', nt + 1, nd);
    IdsSame(q, q', nd, |q|);
    IdsSame(q, q', 0, nt);
  }

  lemma FinishAccounts(b: Book, id: nat, b': Book)
    requires Accounts(b) && b.nt < b.nd && b.q[b.nt].op.Cmd? && id in b.out && b' == Finished(b, id)
    ensures Accounts(b') && b'.Ledger() == Credit(b.Ledger(), id)
  {
    FinishIds(b.q, b.nt, b.nd, b.q[b.nt].(id := id), b'.q);
    assert b'.Returned() == b.Returned() + [id];
    Settle(b.passed, b.Returned(), b.out, b.dropped, id);
  }

  lemma FinishShape(entries: map<nat, Entry>, size: nat, cleaned: nat, tail: nat, devTail: nat, head: nat, b: Book, e: Entry, b': Book)
    requires Shaped(entries, size, cleaned, tail, devTail, head, b) && b.nt < b.nd
    requires e == b.q[b.nt].(id := e.id) && b' == Finished(b, e.id)
    ensures Shaped(entries[tail := e], size, cleaned, Mod(tail + e.len, size), devTail, head, b')
  {
    HoldsWrite(entries, size, cleaned, b.q, b.nt, e);
    Step(entries[tail := e], size, cleaned, b'.q, b.nt);
  }

  lemma ReapIds(q: seq<Entry>, nt: nat, nd: nat, q': seq<Entry>)
    requires nt <= nd <= |q| && q' == q[nt..]
    ensures Ids(q', nd - nt, |q'|) == Ids(q, nd, |q|) && Ids(q', 0, nd - nt) == Ids(q, nt, nd) && Ids(q', 0, 0) == []
  {
    IdsDrop(q, nt, nd - nt, |q| - nt);
    IdsDrop(q, nt, 0, nd - nt);
  }

  lemma ReapAccounts(b: Book, b': Book)
    requires Accounts(b) && b' == Reaped(b)
    ensures Accounts(b') && b'.Ledger() == b.Ledger()
  {
    ReapIds(b.q, b.nt, b.nd, b'.q);
    assert b'.Returned() == b.Returned();
  }

  lemma ReapShape(entries: map<nat, Entry>, size: nat, cleaned: nat, tail: nat, devTail: nat, head: nat, b: Book, b': Book)
    requires Shaped(entries, size, cleaned, tail, devTail, head, b) && b' == Reaped(b)
    ensures Shaped(entries, size, tail, tail, devTail, head, b')
  {
    HoldsDrop(entries, size, cleaned, b.q, b.nt);
    assert Start(b'.q, 0) == 0;
    assert Start(b'.q, b'.nd) < size && Start(b'.q, |b'.q|) < size;
  }

  /** A command is out, so there is a command entry for it before the device tail. */
  lemma SlotForOut(b: Book)
    requires Accounts(b) && |b.out| > 0
    ensures NextSlot(b.q, b.nt) < b.nd
  {
    if NextSlot(b.q, b.nt) >= b.nd {
      NextSlotSkips(b.q, b.nt, b.nd);
    }
  }

  /** tcmulib_get_next_command on the book. */
  function Fetch(b: Book): Book
    requires b.nd <= |b.q|
    decreases |b.q| - b.nd
  {
    if b.nd == |b.q| then b
    else if b.q[b.nd].op.Cmd? && b.q[b.nd].known then Taken(b)
    else Fetch(Passed(b))
  }

  function FetchResult(b: Book): Fetched
    requires b.nd <= |b.q|
  {
    var j := NextCommand(b.q, b.nd);
    if j == |b.q| then Nothing else Command(b.q[j].id)
  }

  /** tcmulib_command_complete on the book. */
  function Complete(b: Book, id: nat): Book
    requires b.nt <= |b.q| && NextSlot(b.q, b.nt) < |b.q|
  {
    Finished(b.(nt := NextSlot(b.q, b.nt)), id)
  }

  lemma {:induction false} NextSame(q: seq<Entry>, q': seq<Entry>, i: nat)
    requires i <= |q| == |q'| && q'[i..] == q[i..]
    ensures NextCommand(q', i) == NextCommand(q, i)
    decreases |q| - i
  {
    if i < |q| {
      assert q'[i] == q'[i..][0] && q[i] == q[i..][0];
      assert q'[i + 1..] == q'[i..][1..] && q[i + 1..] == q[i..][1..];
      NextSame(q, q', i + 1);
    }
  }

  /** An entry that is passed does not change what is fetched. */
  lemma PassResult(b: Book, b': Book)
    requires b.nd < |b.q| && !(b.q[b.nd].op.Cmd? && b.q[b.nd].known) && b' == Passed(b)
    ensures FetchResult(b') == FetchResult(b) && NextCommand(b'.q, b'.nd) == NextCommand(b.q, b.nd)
    ensures NextCommand(b.q, b.nd) < |b.q| ==> b'.q[NextCommand(b.q, b.nd)] == b.q[NextCommand(b.q, b.nd)]
  {
    assert b'.q[b'.nd..] == b.q[b'.nd..];
    NextSame(b.q, b'.q, b'.nd);
  }

  /** Fetching neither queues nor returns anything. */
  lemma {:induction false} FetchAccounts(b: Book)
    requires Accounts(b)
    ensures Accounts(Fetch(b)) && Fetch(b).Ledger() == b.Ledger()
    decreases |b.q| - b.nd
  {
    if b.nd < |b.q| {
      if b.q[b.nd].op.Cmd? && b.q[b.nd].known {
        TakeAccounts(b, Taken(b));
      } else {
        PassAccounts(b, Passed(b));
        FetchAccounts(Passed(b));
      }
    }
  }

  lemma IdsFirst(q: seq<Entry>, k: nat, j: nat, q': seq<Entry>)
    requires k < j <= |q| && q' == q[k := Seen(q[k])]
    ensures Ids(q, k, j) == IdOf(q[k]) + Ids(q', k + 1, j)
  {
    IdsSplit(q, k, k + 1, j);
    assert Ids(q, k, k + 1) == IdOf(q[k]);
    IdsSame(q, q', k + 1, j);
  }

  /** Fetching hands out the first command whose CDB is understood. */
  lemma {:induction false} FetchMeans(b: Book)
    requires b.nd <= |b.q|
    ensures var j, b' := NextCommand(b.q, b.nd), Fetch(b);
            && b'.nd == (if j == |b.q| then j else j + 1) && |b'.q| == |b.q|
            && b'.out == b.out + (if j == |b.q| then multiset{} else multiset{b.q[j].id})
    decreases |b.q| - b.nd
  {
    if b.nd < |b.q| && !(b.q[b.nd].op.Cmd? && b.q[b.nd].known) {
      PassResult(b, Passed(b));
      FetchMeans(Passed(b));
    }
  }

  /** Of the entries it passes, those with an unknown opcode are flagged; no other entry
      changes. */
  lemma {:induction false} FetchFlags(b: Book, i: nat)
    requires b.nd <= |b.q| && i < |b.q|
    ensures |Fetch(b).q| == |b.q|
    ensures Fetch(b).q[i] == if b.nd <= i < NextCommand(b.q, b.nd) && b.q[i].op.Unknown? then b.q[i].(flagged := true) else b.q[i]
    decreases |b.q| - b.nd
  {
    if b.nd < |b.q| && !(b.q[b.nd].op.Cmd? && b.q[b.nd].known) {
      PassResult(b, Passed(b));
      FetchFlags(Passed(b), i);
    }
  }

  lemma Joined(m: multiset<nat>, s: seq<nat>, t: seq<nat>, st: seq<nat>)
    requires st == s + t
    ensures m + multiset(st) == m + multiset(s) + multiset(t)
  {
  }

  /** What will have been dropped once the next command is fetched. */
  function DroppedThen(b: Book): multiset<nat>
    requires b.nd <= |b.q|
  {
    b.dropped + multiset(Ids(b.q, b.nd, NextCommand(b.q, b.nd)))
  }

  lemma PassDrops(b: Book, b': Book)
    requires b.nd < |b.q| && !(b.q[b.nd].op.Cmd? && b.q[b.nd].known) && b' == Passed(b)
    ensures DroppedThen(b') == DroppedThen(b)
  {
    var j := NextCommand(b.q, b.nd);
    PassResult(b, b');
    IdsFirst(b.q, b.nd, j, b'.q);
    Joined(b.dropped, IdOf(b.q[b.nd]), Ids(b'.q, b'.nd, j), Ids(b.q, b.nd, j));
  }

  /** The commands it passes on the way, and only those, are dropped. */
  lemma {:induction false} FetchDrops(b: Book)
    requires b.nd <= |b.q|
    ensures Fetch(b).dropped == b.dropped + multiset(Ids(b.q, b.nd, NextCommand(b.q, b.nd)))
    decreases |b.q| - b.nd
  {
    if b.nd < |b.q| && !(b.q[b.nd].op.Cmd? && b.q[b.nd].known) {
      PassDrops(b, Passed(b));
      FetchDrops(Passed(b));
    }
  }

  lemma {:induction false} SkippedAccounts(b: Book, j: nat)
    requires Accounts(b) && b.nt <= j <= NextSlot(b.q, b.nt) && j <= b.nd
    ensures Accounts(b.(nt := j)) && b.(nt := j).Ledger() == b.Ledger()
    decreases j - b.nt
  {
    if j > b.nt {
      SkipAccounts(b, Skipped(b));
      SkippedAccounts(Skipped(b), j);
    }
  }

  /** A completion returns exactly its own id, and the entry it overwrites has been fetched. */
  lemma CompleteAccounts(b: Book, id: nat)
    requires Accounts(b) && id in b.out
    ensures NextSlot(b.q, b.nt) < b.nd
    ensures Accounts(Complete(b, id)) && Complete(b, id).Ledger() == Credit(b.Ledger(), id)
  {
    SlotForOut(b);
    var j := NextSlot(b.q, b.nt);
    SkippedAccounts(b, j);
    FinishAccounts(b.(nt := j), id, Complete(b, id));
  }

  // ---- Runs ------------------------------------------------------------------------

  /** One step of kernel or library. */
  datatype Act = Queue(e: Entry) | Get | Done(id: nat) | Clean

  const EMPTY := Book([], 0, 0, [], [], multiset{}, multiset{})

  /** A command is only completed while it is out. */
  predicate Enabled(b: Book, a: Act) {
    a.Done? ==> a.id in b.out
  }

  ghost function Apply(b: Book, a: Act): Book
    requires Accounts(b) && Enabled(b, a)
  {
    match a
    case Queue(e) => Pushed(b, e)
    case Get => Fetch(b)
    case Done(id) => CompleteAccounts(b, id); Complete(b, id)
    case Clean => Reaped(b)
  }

  function Posted(l: Ledger, a: Act): Ledger {
    match a
    case Queue(e) => Debit(l, e)
    case Done(id) => Credit(l, id)
    case _ => l
  }

  lemma ApplyAccounts(b: Book, a: Act)
    requires Accounts(b) && Enabled(b, a)
    ensures Accounts(Apply(b, a)) && Apply(b, a).Ledger() == Posted(b.Ledger(), a)
  {
    match a
    case Queue(e) => PushAccounts(b, e, Pushed(b, e));
    case Get => FetchAccounts(b);
    case Done(id) => CompleteAccounts(b, id);
    case Clean => ReapAccounts(b, Reaped(b));
  }

  /** bs is a run of the ring from empty: any interleaving of the four steps. */
  ghost predicate Run(bs: seq<Book>, acts: seq<Act>) {
    && |bs| == |acts| + 1
    && bs[0] == EMPTY
    && forall i :: 0 <= i < |acts| ==> Moves(bs[i], acts[i], bs[i + 1])
  }

  ghost predicate Moves(b: Book, a: Act, b': Book) {
    Accounts(b) ==> Enabled(b, a) && b' == Apply(b, a)
  }

  /** The ids a run's kernel steps queue, and the ids its completions name, in order. */
  function PostedAll(acts: seq<Act>): Ledger {
    if acts == [] then InAndOut([], []) else Posted(PostedAll(acts[..|acts| - 1]), acts[|acts| - 1])
  }

  /** Whatever the interleaving: the mailbox tail is not past the device tail, the command
      entries between them are as many as the commands handed out and not completed (plus
      the dropped ones), the kernel gets back exactly the ids completed, in that order, and
      every id queued is returned, out, dropped or still to be fetched. */
  lemma {:induction false} EveryRun(bs: seq<Book>, acts: seq<Act>)
    requires Run(bs, acts)
    ensures var b := bs[|acts|];
            && Accounts(b) && b.Ledger() == PostedAll(acts)
            && multiset(PostedAll(acts).enqueued)
               == multiset(PostedAll(acts).returned) + b.out + b.dropped + multiset(Ids(b.q, b.nd, |b.q|))
  {
    var n := |acts|;
    if n > 0 {
      EveryRun(bs[..n], acts[..n - 1]);
      assert Moves(bs[n - 1], acts[n - 1], bs[n]);
      ApplyAccounts(bs[n - 1], acts[n - 1]);
    }
    Conserved(bs[n]);
  }

  lemma Conserved(b: Book)
    requires Accounts(b)
    ensures multiset(b.Enqueued()) == multiset(b.Returned()) + b.out + b.dropped + multiset(Ids(b.q, b.nd, |b.q|))
  {
    Moved(b.passed, Ids(b.q, b.nd, |b.q|), []);
  }

  // ---- Commands whose CDB is not understood ------------------------------------------

  /** What an entry adds to the ids that are dropped. */
  function LostId(e: Entry): seq<nat> {
    if e.op.Cmd? && !e.known then [e.id] else []
  }

  /** The ids among entries lo..hi that are dropped when they are passed, in order. */
  function Lost(q: seq<Entry>, lo: nat, hi: nat): seq<nat>
    requires hi <= |q|
  {
    if lo >= hi then [] else Lost(q, lo, hi - 1) + LostId(q[hi - 1])
  }

  lemma {:induction false} LostSame(q: seq<Entry>, q': seq<Entry>, lo: nat, hi: nat)
    requires hi <= |q| && hi <= |q'| && forall k :: lo <= k < hi ==> LostId(q'[k]) == LostId(q[k])
    ensures Lost(q', lo, hi) == Lost(q, lo, hi)
  {
    if lo < hi {
      LostSame(q, q', lo, hi - 1);
    }
  }

  lemma {:induction false} LostFirst(q: seq<Entry>, lo: nat, hi: nat)
    requires lo < hi <= |q|
    ensures Lost(q, lo, hi) == LostId(q[lo]) + Lost(q, lo + 1, hi)
  {
    if lo + 1 < hi {
      LostFirst(q, lo, hi - 1);
    }
  }

  lemma {:induction false} LostDrop(q: seq<Entry>, n: nat, q': seq<Entry>, lo: nat, hi: nat)
    requires n + hi <= |q| && q' == q[n..]
    ensures Lost(q', lo, hi) == Lost(q, n + lo, n + hi)
  {
    if lo < hi {
      LostDrop(q, n, q', lo, hi - 1);
      assert q'[hi - 1] == q[n + hi - 1];
    }
  }

  /** The ids dropped so far and those that will be. */
  function Doomed(b: Book): multiset<nat>
    requires b.nd <= |b.q|
  {
    b.dropped + multiset(Lost(b.q, b.nd, |b.q|))
  }

  /** What an act adds to them. */
  function Dooms(a: Act): seq<nat> {
    if a.Queue? then LostId(a.e) else []
  }

  lemma PushDoomed(b: Book, e: Entry)
    requires b.nd <= |b.q|
    ensures Doomed(Pushed(b, e)) == Doomed(b) + multiset(LostId(e))
  {
    var q' := b.q + [e];
    LostSame(b.q, q', b.nd, |b.q|);
    Joined(b.dropped, Lost(b.q, b.nd, |b.q|), LostId(e), Lost(q', b.nd, |q'|));
  }

  /** Passing or taking an entry moves it from those to come to those that were. */
  lemma TakeDoomed(b: Book, b': Book)
    requires b.nd < |b.q| && b.q[b.nd].op.Cmd? && b.q[b.nd].known && b' == Taken(b)
    ensures Doomed(b') == Doomed(b)
  {
    var rest, all := Lost(b.q, b'.nd, |b.q|), Lost(b.q, b.nd, |b.q|);
    LostFirst(b.q, b.nd, |b.q|);
    assert all == rest;
  }

  lemma PassDoomed(b: Book, b': Book)
    requires b.nd < |b.q| && !(b.q[b.nd].op.Cmd? && b.q[b.nd].known) && b' == Passed(b)
    ensures Doomed(b') == Doomed(b)
  {
    var ids, rest, all := LostId(b.q[b.nd]), Lost(b'.q, b'.nd, |b'.q|), Lost(b.q, b.nd, |b.q|);
    LostFirst(b.q, b.nd, |b.q|);
    LostSame(b.q, b'.q, b'.nd, |b.q|);
    Joined(b.dropped, ids, rest, all);
  }

  lemma {:induction false} FetchDoomed(b: Book)
    requires b.nd <= |b.q|
    ensures Fetch(b).nd <= |Fetch(b).q| && Doomed(Fetch(b)) == Doomed(b)
    decreases |b.q| - b.nd
  {
    if b.nd < |b.q| {
      if b.q[b.nd].op.Cmd? && b.q[b.nd].known {
        TakeDoomed(b, Taken(b));
      } else {
        PassDoomed(b, Passed(b));
        FetchDoomed(Passed(b));
      }
    }
  }

  lemma CompleteDoomed(b: Book, id: nat)
    requires b.nt <= |b.q| && NextSlot(b.q, b.nt) < b.nd <= |b.q|
    ensures Doomed(Complete(b, id)) == Doomed(b)
  {
    LostSame(b.q, Complete(b, id).q, b.nd, |b.q|);
  }

  lemma ReapDoomed(b: Book, b': Book)
    requires b.nt <= b.nd <= |b.q| && b'.q == b.q[b.nt..] && b'.nd == b.nd - b.nt && b'.dropped == b.dropped
    ensures Doomed(b') == Doomed(b)
  {
    LostDrop(b.q, b.nt, b'.q, b'.nd, |b'.q|);
  }

  lemma ApplyDoomed(b: Book, a: Act)
    requires Accounts(b) && Enabled(b, a)
    ensures Accounts(Apply(b, a)) && Doomed(Apply(b, a)) == Doomed(b) + multiset(Dooms(a))
  {
    ApplyAccounts(b, a);
    match a
    case Queue(e) => PushDoomed(b, e);
    case Get => FetchDoomed(b);
    case Done(id) =>
      CompleteAccounts(b, id);
      CompleteDoomed(b, id);
    case Clean => ReapDoomed(b, Reaped(b));
  }

  /** The ids of all commands queued with a CDB of unknown length. */
  function Unreadable(acts: seq<Act>): multiset<nat> {
    if acts == [] then multiset{} else Unreadable(acts[..|acts| - 1]) + multiset(Dooms(acts[|acts| - 1]))
  }

  /** Every command queued with a CDB of unknown length is dropped or will be, and no other. */
  lemma {:induction false} DroppedExactly(bs: seq<Book>, acts: seq<Act>)
    requires Run(bs, acts)
    ensures Accounts(bs[|acts|]) && Doomed(bs[|acts|]) == Unreadable(acts)
  {
    var n := |acts|;
    if n > 0 {
      DroppedExactly(bs[..n], acts[..n - 1]);
      assert Moves(bs[n - 1], acts[n - 1], bs[n]);
      ApplyDoomed(bs[n - 1], acts[n - 1]);
    }
  }

  lemma {:induction false} AllReadable(acts: seq<Act>)
    ensures Unreadable(acts) == multiset{} <==> forall i :: 0 <= i < |acts| && acts[i].Queue? && acts[i].e.op.Cmd? ==> acts[i].e.known
  {
    if acts != [] {
      var n := |acts| - 1;
      AllReadable(acts[..n]);
      assert |multiset(Dooms(acts[n]))| == |Dooms(acts[n])|;
      assert acts == acts[..n] + [acts[n]];
    }
  }

  /** While the kernel queues no such command, none is dropped. */
  lemma NothingDropped(bs: seq<Book>, acts: seq<Act>)
    requires Run(bs, acts) && forall i :: 0 <= i < |acts| && acts[i].Queue? && acts[i].e.op.Cmd? ==> acts[i].e.known
    ensures bs[|acts|].dropped == multiset{}
  {
    DroppedExactly(bs, acts);
    AllReadable(acts);
    assert bs[|acts|].dropped <= Doomed(bs[|acts|]);
  }

  /** In every run, once everything queued has been fetched and everything fetched has been
      completed, the kernel has every id back, each exactly once, if and only if it queued no
      command whose CDB has an unknown length. */
  lemma Drained(bs: seq<Book>, acts: seq<Act>)
    requires Run(bs, acts) && bs[|acts|].nd == |bs[|acts|].q| && bs[|acts|].out == multiset{}
    ensures multiset(PostedAll(acts).returned) == multiset(PostedAll(acts).enqueued) <==>
            forall i :: 0 <= i < |acts| && acts[i].Queue? && acts[i].e.op.Cmd? ==> acts[i].e.known
    ensures bs[|acts|].dropped == Unreadable(acts)
  {
    var b := bs[|acts|];
    EveryRun(bs, acts);
    DroppedExactly(bs, acts);
    AllReadable(acts);
    assert b.dropped == Unreadable(acts);
    if multiset(PostedAll(acts).returned) == multiset(PostedAll(acts).enqueued) {
      assert |multiset(PostedAll(acts).enqueued)| == |multiset(PostedAll(acts).returned)| + |b.dropped|;
    }
  }

  /** A run that loses a command: it is queued, and the fetch passes it for its CDB. */
  lemma OneLost() returns (bs: seq<Book>, acts: seq<Act>)
    ensures Run(bs, acts) && bs[|acts|].nd == |bs[|acts|].q| && bs[|acts|].out == multiset{}
    ensures PostedAll(acts).enqueued == [7] && PostedAll(acts).returned == []
  {
    var e := Entry(Cmd, 8, 7, false, false);
    var b1 := Pushed(EMPTY, e);
    var b2 := Passed(b1);
    acts := [Queue(e), Get];
    bs := [EMPTY, b1, b2];
    assert Fetch(b1) == Fetch(b2) == b2;
    assert Moves(bs[0], acts[0], bs[1]) && Moves(bs[1], acts[1], bs[2]);
    assert acts[..1] == [Queue(e)] && [Queue(e)][..0] == [];
    assert PostedAll([Queue(e)]) == Debit(InAndOut([], []), e);
    assert PostedAll(acts) == Posted(PostedAll(acts[..1]), Get);
  }

  // ---- The device ------------------------------------------------------------------

  /** The mailbox and ring of one device, with the kernel's own end of it. */
  class CommandRing {
    const size: nat
    var entries: map<nat, Entry>
    var head: nat
    var tail: nat
    var devTail: nat
    var cleaned: nat
    ghost var b: Book

    ghost predicate Valid()
      reads this
    {
      Shaped(entries, size, cleaned, tail, devTail, head, b)
    }

    constructor (size: nat)
      requires size > 0
      ensures Valid() && this.size == size && b == EMPTY
    {
      this.size := size;
      entries, head, tail, devTail, cleaned := map[], 0, 0, 0, 0;
      b := EMPTY;
      new;
      assert Place(size, 0, 0) == 0;
    }

    /** The kernel adds an entry; it never fills the ring, so that equal offsets mean empty. */
    method Enqueue(e: Entry)
      requires Valid() && e.len > 0 && Start(b.q, |b.q|) + e.len < size
      modifies this`entries, this`head, this`b
      ensures Valid() && b == Pushed(old(b), e)
    {
      ghost var b' := Pushed(b, e);
      Push(entries, size, cleaned, tail, devTail, head, b, e, b');
      entries, head, b := entries[head := e], Mod(head + e.len, size), b';
    }

    /** One turn of the loop of tcmulib_get_next_command for an entry that is not handed out. */
    method PassEntry()
      requires Valid() && b.nd < |b.q|
      modifies this`entries, this`devTail, this`b
      ensures Valid() && b == Passed(old(b)) && (devTail != head <==> b.nd < |b.q|)
    {
      ghost var b' := Passed(b);
      Step(entries, size, cleaned, b.q, b.nd);
      var ent := Seen(entries[devTail]);
      PassShape(entries, size, cleaned, tail, devTail, head, b, ent, b');
      entries, devTail, b := entries[devTail := ent], Mod(devTail + ent.len, size), b';
    }

    /** The last turn: a command is handed out. */
    method TakeEntry() returns (id: nat)
      requires Valid() && b.nd < |b.q| && b.q[b.nd].op.Cmd?
      modifies this`devTail, this`b
      ensures Valid() && b == Taken(old(b)) && id == old(b.q[b.nd].id)
    {
      ghost var b' := Taken(b);
      Step(entries, size, cleaned, b.q, b.nd);
      var ent := entries[devTail];
      TakeShape(entries, size, cleaned, tail, devTail, head, b, ent, b');
      id := ent.id;
      devTail, b := Mod(devTail + ent.len, size), b';
    }

    /** tcmulib_get_next_command */
    method GetNextCommand() returns (cmd: Fetched)
      requires Valid()
      modifies this`entries, this`devTail, this`b
      ensures Valid() && b == Fetch(old(b)) && cmd == FetchResult(old(b))
    {
      Distinct(entries, size, cleaned, b.q, b.nd, |b.q|);
      while devTail != head
        invariant Valid() && (devTail != head <==> b.nd < |b.q|)
        invariant Fetch(b) == Fetch(old(b)) && FetchResult(b) == FetchResult(old(b))
        decreases |b.q| - b.nd
      {
        Step(entries, size, cleaned, b.q, b.nd);
        var ent := entries[devTail];
        if ent.op.Cmd? && ent.known {
          var id := TakeEntry();
          return Command(id);
        }
        PassResult(b, Passed(b));
        PassEntry();
      }
      cmd := Nothing;
    }

    /** The mailbox tail passes an entry that is no command. */
    method SkipEntry()
      requires Valid() && b.nt < b.nd
      modifies this`tail, this`b
      ensures Valid() && b == Skipped(old(b))
    {
      ghost var b' := Skipped(b);
      Step(entries, size, cleaned, b.q, b.nt);
      tail, b := Mod(tail + entries[tail].len, size), b';
    }

    /** The command entry at the mailbox tail carries `id` back. */
    method FinishEntry(id: nat)
      requires Valid() && b.nt < b.nd
      modifies this`entries, this`tail, this`b
      ensures Valid() && b == Finished(old(b), id)
    {
      ghost var b' := Finished(b, id);
      Step(entries, size, cleaned, b.q, b.nt);
      var ent := entries[tail].(id := id);
      FinishShape(entries, size, cleaned, tail, devTail, head, b, ent, b');
      entries, tail, b := entries[tail := ent], Mod(tail + ent.len, size), b';
    }

    /** tcmulib_command_complete: entries that are no commands are skipped, and the next
        command entry, whichever command it was queued for, carries this one back. */
    method CommandComplete(id: nat)
      requires Valid() && Accounts(b) && id in b.out
      modifies this`entries, this`tail, this`b
      ensures NextSlot(old(b.q), old(b.nt)) < old(b.nd)
      ensures Valid() && b == Complete(old(b), id)
    {
      ghost var b0 := b;
      SlotForOut(b);
      Step(entries, size, cleaned, b.q, b.nt);
      Distinct(entries, size, cleaned, b.q, b.nt, |b.q|);
      while tail != head && !entries[tail].op.Cmd?
        invariant Valid() && b0.nt <= b.nt <= NextSlot(b0.q, b0.nt) && b == b0.(nt := b.nt)
        invariant NextSlot(b0.q, b.nt) == NextSlot(b0.q, b0.nt)
        invariant tail != head && tail in entries && entries[tail] == b.q[b.nt]
        decreases |b.q| - b.nt
      {
        SkipEntry();
        Step(entries, size, cleaned, b.q, b.nt);
        Distinct(entries, size, cleaned, b.q, b.nt, |b.q|);
      }
      FinishEntry(id);
    }

    /** The kernel's side: the ids of the command entries the mailbox tail has passed. */
    method Reap() returns (ids: seq<nat>)
      requires Valid()
      modifies this`cleaned, this`b
      ensures Valid() && b == Reaped(old(b)) && ids == old(Ids(b.q, 0, b.nt)) && cleaned == tail
    {
      ids := Collect();
      ghost var b' := Reaped(b);
      ReapShape(entries, size, cleaned, tail, devTail, head, b, b');
      cleaned, b := tail, b';
    }

    /** The ids between the cleaning position and the mailbox tail. */
    method Collect() returns (ids: seq<nat>)
      requires Valid()
      ensures ids == Ids(b.q, 0, b.nt)
    {
      ids := [];
      var at := cleaned;
      ghost var k: nat := 0;
      Distinct(entries, size, cleaned, b.q, 0, b.nt);
      while at != tail
        invariant k <= b.nt && Start(b.q, k) < size && at == Place(size, cleaned, Start(b.q, k))
        invariant ids == Ids(b.q, 0, k) && (at != tail <==> k < b.nt)
        decreases b.nt - k
      {
        Step(entries, size, cleaned, b.q, k);
        var ent := entries[at];
        ids := ids + if ent.op.Cmd? then [ent.id] else [];
        at := Mod(at + ent.len, size);
        k := k + 1;
        Distinct(entries, size, cleaned, b.q, k, b.nt);
      }
    }
  }
}
