/** Reading a zoned device: __zbc_read of file_zbc.c, over any number of zones. */
module ZbcRead {
  import opened Arith
  import opened Blocks
  import opened Zbc

  /** The kind of zone that the buffers of a command have been read from so far. */
  datatype Seen = NoKind | Of(kind: Kind)

  /** The blocks read; or zones of two kinds in a host managed device; or a turn of the loop
      that asks for more blocks than are left. */
  datatype Result = Got(out: seq<Block>) | Mixed | TooMany

  /** Where the stored data of a zone ends. */
  function Boundary(z: Zone): nat {
    if z.kind != Conventional then z.wp else End(z)
  }

  function Nothing(n: nat): seq<Block> {
    seq(n, _ => 0)
  }

  /** Block x lies at or past the write pointer of a sequential zone. */
  predicate Blank(zs: seq<Zone>, zoneSize: nat, x: nat)
    requires zoneSize > 0
  {
    Div(x, zoneSize) < |zs| && zs[Div(x, zoneSize)].kind != Conventional && x >= zs[Div(x, zoneSize)].wp
  }

  /** The first blank block from x on, or the end. */
  function FirstBlank(zs: seq<Zone>, zoneSize: nat, x: nat, end: nat): (s: nat)
    requires zoneSize > 0 && x <= end
    ensures x <= s <= end
    decreases end - x
  {
    if x == end || Blank(zs, zoneSize, x) then x else FirstBlank(zs, zoneSize, x + 1, end)
  }

  /** Block x is in a zone of another kind. */
  predicate Elsewhere(zs: seq<Zone>, zoneSize: nat, kind: Kind, x: nat)
    requires zoneSize > 0
  {
    Div(x, zoneSize) < |zs| && zs[Div(x, zoneSize)].kind != kind
  }

  /** The kind all zones of the read must have. */
  function Expected(zs: seq<Zone>, zoneSize: nat, lba: nat, seen: Seen): Kind
    requires zoneSize > 0
  {
    if seen.Of? then seen.kind else if Div(lba, zoneSize) < |zs| then zs[Div(lba, zoneSize)].kind else Conventional
  }

  /** Up to and including the first blank block, the read meets a zone of another kind. */
  ghost predicate Mixes(zs: seq<Zone>, zoneSize: nat, kind: Kind, lba: nat, end: nat)
    requires zoneSize > 0 && lba <= end
  {
    exists x :: lba <= x < end && x <= FirstBlank(zs, zoneSize, lba, end) && Elsewhere(zs, zoneSize, kind, x)
  }

  /** Zone z starts inside a read, and its data ends after the read but before the read's
      whole length from the start of the zone. */
  predicate TooLong(z: Zone, lba: nat, n: nat) {
    z.start > lba && lba + n < Boundary(z) < z.start + n
  }

  /** No block of the read is blank, and the zone of the last one is too long for it. */
  predicate Surplus(zs: seq<Zone>, zoneSize: nat, lba: nat, n: nat)
    requires zoneSize > 0
  {
    && n > 0 && FirstBlank(zs, zoneSize, lba, lba + n) == lba + n
    && Div(lba + n - 1, zoneSize) < |zs| && TooLong(zs[Div(lba + n - 1, zoneSize)], lba, n)
  }

  // ---- The loop ------------------------------------------------------------------------

  /** The read has come to block cur: no block so far is blank, and cur is where it began, or
      blank, or the start of a zone, or the end. */
  predicate Reached(zs: seq<Zone>, zoneSize: nat, lba: nat, end: nat, cur: nat)
    requires zoneSize > 0
  {
    && lba <= cur <= end
    && (forall x :: lba <= x < cur ==> !Blank(zs, zoneSize, x))
    && (cur == lba || cur == end || Blank(zs, zoneSize, cur) || (Div(cur, zoneSize) < |zs| && cur == zs[Div(cur, zoneSize)].start))
  }

  /** No block before cur is in a zone of another kind. */
  predicate AllHere(zs: seq<Zone>, zoneSize: nat, kind: Kind, lba: nat, cur: nat)
    requires zoneSize > 0
  {
    forall x :: lba <= x < cur ==> !Elsewhere(zs, zoneSize, kind, x)
  }

  lemma {:induction false} FirstBlankMeans(zs: seq<Zone>, zoneSize: nat, x: nat, end: nat, k: nat)
    requires zoneSize > 0 && x <= end
    ensures FirstBlank(zs, zoneSize, x, end) < end ==> Blank(zs, zoneSize, FirstBlank(zs, zoneSize, x, end))
    ensures x <= k < FirstBlank(zs, zoneSize, x, end) ==> !Blank(zs, zoneSize, k)
    decreases end - x
  {
    if x < end && !Blank(zs, zoneSize, x) {
      FirstBlankMeans(zs, zoneSize, x + 1, end, k);
    }
  }

  lemma {:induction false} FirstBlankFrom(zs: seq<Zone>, zoneSize: nat, x: nat, end: nat, cur: nat)
    requires zoneSize > 0 && x <= cur <= end && forall k :: x <= k < cur ==> !Blank(zs, zoneSize, k)
    ensures FirstBlank(zs, zoneSize, x, end) == FirstBlank(zs, zoneSize, cur, end)
    decreases cur - x
  {
    if x < cur {
      FirstBlankFrom(zs, zoneSize, x + 1, end, cur);
    }
  }

  lemma FirstBlankIs(zs: seq<Zone>, zoneSize: nat, lba: nat, end: nat, cur: nat)
    requires zoneSize > 0 && Reached(zs, zoneSize, lba, end, cur)
    ensures FirstBlank(zs, zoneSize, lba, end) >= cur
    ensures cur == end || Blank(zs, zoneSize, cur) ==> FirstBlank(zs, zoneSize, lba, end) == cur
  {
    FirstBlankFrom(zs, zoneSize, lba, end, cur);
  }

  /** Blocks of the zone of cur, up to the end of its data. */
  lemma SameZone(zs: seq<Zone>, zoneSize: nat, capacity: nat, cur: nat, x: nat)
    requires Tiled(zs, zoneSize, capacity) && AllOk(zs) && cur < capacity && cur <= x < capacity && !Blank(zs, zoneSize, cur)
    ensures Div(cur, zoneSize) < |zs| && zs[Div(cur, zoneSize)].start <= cur < Boundary(zs[Div(cur, zoneSize)])
    ensures x < Boundary(zs[Div(cur, zoneSize)]) ==> Div(x, zoneSize) == Div(cur, zoneSize) && !Blank(zs, zoneSize, x)
  {
    ZoneOf(zs, zoneSize, capacity, cur);
    var i := Div(cur, zoneSize);
    assert ZoneOk(zs[i]);
    if x < Boundary(zs[i]) {
      ZoneOfUnique(zs, zoneSize, capacity, x, i);
    }
  }

  /** What follows the data of a zone is blank, or another zone. */
  lemma AtBoundary(zs: seq<Zone>, zoneSize: nat, capacity: nat, cur: nat)
    requires Tiled(zs, zoneSize, capacity) && AllOk(zs) && cur < capacity && !Blank(zs, zoneSize, cur)
    ensures Div(cur, zoneSize) < |zs|
    ensures var b := Boundary(zs[Div(cur, zoneSize)]);
            b < capacity ==> Blank(zs, zoneSize, b) || (Div(b, zoneSize) < |zs| && b == zs[Div(b, zoneSize)].start)
  {
    var i := Div(cur, zoneSize);
    SameZone(zs, zoneSize, capacity, cur, cur);
    var b := Boundary(zs[i]);
    assert ZoneOk(zs[i]) && Placed(zs[i], i, zoneSize, capacity);
    if b < capacity {
      if b < End(zs[i]) {
        ZoneOfUnique(zs, zoneSize, capacity, b, i);
      } else {
        Distribute(i, 1, zoneSize);
        DivUnique(b, zoneSize, i + 1, 0);
        ZoneOf(zs, zoneSize, capacity, b);
        assert Placed(zs[i + 1], i + 1, zoneSize, capacity);
      }
    }
  }

  /** One turn that copies c blocks of the zone of cur. */
  lemma Turn(zs: seq<Zone>, zoneSize: nat, capacity: nat, lba: nat, end: nat, cur: nat, c: nat, kind: Kind)
    requires Tiled(zs, zoneSize, capacity) && AllOk(zs) && end <= capacity && cur < end
    requires Reached(zs, zoneSize, lba, end, cur) && !Blank(zs, zoneSize, cur) && Div(cur, zoneSize) < |zs|
    requires var b := Boundary(zs[Div(cur, zoneSize)]); cur + c <= b && cur + c <= end && (cur + c == b || cur + c == end)
    ensures Reached(zs, zoneSize, lba, end, cur + c)
    ensures AllHere(zs, zoneSize, kind, lba, cur) && zs[Div(cur, zoneSize)].kind == kind ==> AllHere(zs, zoneSize, kind, lba, cur + c)
  {
    forall x | cur <= x < cur + c ensures Div(x, zoneSize) == Div(cur, zoneSize) && !Blank(zs, zoneSize, x) {
      SameZone(zs, zoneSize, capacity, cur, x);
    }
    AtBoundary(zs, zoneSize, capacity, cur);
  }

  lemma LastZone(zs: seq<Zone>, zoneSize: nat, capacity: nat, lba: nat, n: nat, cur: nat, z: Zone)
    requires Tiled(zs, zoneSize, capacity) && AllOk(zs) && lba + n <= capacity && cur < lba + n
    requires Reached(zs, zoneSize, lba, lba + n, cur) && !Blank(zs, zoneSize, cur) && Div(cur, zoneSize) < |zs| && z == zs[Div(cur, zoneSize)]
    requires lba + n <= Boundary(z)
    ensures Div(lba + n - 1, zoneSize) == Div(cur, zoneSize) && z.start <= cur && (cur == lba || cur == z.start)
    ensures Reached(zs, zoneSize, lba, lba + n, lba + n)
  {
    Turn(zs, zoneSize, capacity, lba, lba + n, cur, lba + n - cur, z.kind);
    SameZone(zs, zoneSize, capacity, cur, lba + n - 1);
  }

  /** The turn that reaches the end, or would go past it. */
  lemma LastTurn(zs: seq<Zone>, zoneSize: nat, capacity: nat, lba: nat, n: nat, cur: nat, z: Zone)
    requires Tiled(zs, zoneSize, capacity) && AllOk(zs) && lba + n <= capacity && cur < lba + n
    requires Reached(zs, zoneSize, lba, lba + n, cur) && !Blank(zs, zoneSize, cur) && Div(cur, zoneSize) < |zs| && z == zs[Div(cur, zoneSize)]
    requires lba + n <= Boundary(z)
    ensures Surplus(zs, zoneSize, lba, n) <==> lba + n < Boundary(z) < cur + n
  {
    LastZone(zs, zoneSize, capacity, lba, n, cur, z);
    FirstBlankIs(zs, zoneSize, lba, lba + n, lba + n);
  }

  /** What happens to a read that has come to block cur. */
  ghost predicate Going(zs: seq<Zone>, zoneSize: nat, managed: bool, lba: nat, n: nat, cur: nat, seen: Seen, seen': Seen)
    requires zoneSize > 0
  {
    && Reached(zs, zoneSize, lba, lba + n, cur) && (cur == lba + n ==> !Surplus(zs, zoneSize, lba, n))
    && (managed ==> AllHere(zs, zoneSize, Expected(zs, zoneSize, lba, seen), lba, cur))
    && seen' == if managed && cur > lba then Of(Expected(zs, zoneSize, lba, seen)) else seen
  }

  lemma MixedHere(zs: seq<Zone>, zoneSize: nat, kind: Kind, lba: nat, end: nat, cur: nat)
    requires zoneSize > 0 && Reached(zs, zoneSize, lba, end, cur) && cur < end && Elsewhere(zs, zoneSize, kind, cur)
    ensures Mixes(zs, zoneSize, kind, lba, end)
  {
    FirstBlankIs(zs, zoneSize, lba, end, cur);
  }

  lemma BlankHere(zs: seq<Zone>, zoneSize: nat, kind: Kind, lba: nat, n: nat, cur: nat)
    requires zoneSize > 0 && Reached(zs, zoneSize, lba, lba + n, cur) && cur < lba + n && Blank(zs, zoneSize, cur)
    ensures FirstBlank(zs, zoneSize, lba, lba + n) == cur && !Surplus(zs, zoneSize, lba, n)
    ensures AllHere(zs, zoneSize, kind, lba, cur) && zs[Div(cur, zoneSize)].kind == kind ==> !Mixes(zs, zoneSize, kind, lba, lba + n)
  {
    FirstBlankIs(zs, zoneSize, lba, lba + n, cur);
  }

  lemma EndHere(zs: seq<Zone>, zoneSize: nat, kind: Kind, lba: nat, end: nat)
    requires zoneSize > 0 && Reached(zs, zoneSize, lba, end, end) && AllHere(zs, zoneSize, kind, lba, end)
    ensures !Mixes(zs, zoneSize, kind, lba, end)
  {
  }

  /** How a turn of the loop ends. */
  datatype Move = Stop(r: Result) | Copy(cur: nat, out: seq<Block>)

  ghost predicate Allowed(zs: seq<Zone>, zoneSize: nat, managed: bool, lba: nat, n: nat, seen: Seen)
    requires zoneSize > 0
  {
    !(managed && Mixes(zs, zoneSize, Expected(zs, zoneSize, lba, seen), lba, lba + n))
  }

  /** The zone of block cur is of the right kind too. */
  ghost predicate Admitted(zs: seq<Zone>, zoneSize: nat, managed: bool, lba: nat, n: nat, cur: nat, seen: Seen, seen': Seen)
    requires zoneSize > 0
  {
    var kind := Expected(zs, zoneSize, lba, seen);
    && Reached(zs, zoneSize, lba, lba + n, cur)
    && (managed ==> AllHere(zs, zoneSize, kind, lba, cur) && !Elsewhere(zs, zoneSize, kind, cur))
    && seen' == if managed then Of(kind) else seen
  }

  /** The check of the zone's kind in a host managed device. */
  method CheckKind(dev: ZonedDevice, i: nat, lba: nat, n: nat, cur: nat, seen: Seen, ghost seen0: Seen) returns (ok: bool, seen': Seen)
    requires dev.Consistent() && i == Div(cur, dev.zoneSize) < dev.zones.Length && cur < lba + n
    requires Going(dev.zones[..], dev.zoneSize, dev.managed, lba, n, cur, seen0, seen)
    ensures if ok then Admitted(dev.zones[..], dev.zoneSize, dev.managed, lba, n, cur, seen0, seen')
            else seen' == NoKind && !Allowed(dev.zones[..], dev.zoneSize, dev.managed, lba, n, seen0)
  {
    ok, seen' := true, seen;
    if dev.managed {
      if seen == NoKind {
        seen' := Of(dev.zones[i].kind);
      } else if seen.kind != dev.zones[i].kind {
        MixedHere(dev.zones[..], dev.zoneSize, seen.kind, lba, lba + n, cur);
        ok, seen' := false, NoKind;
      }
    }
  }

  /** How many blocks of the zone the turn is for; none from its write pointer on. */
  method Measure(dev: ZonedDevice, i: nat, lba: nat, n: nat, cur: nat, count: nat, ghost kind: Kind) returns (reach: nat)
    requires dev.Consistent() && i == Div(cur, dev.zoneSize) < dev.zones.Length && cur + count == lba + n <= dev.capacity && count > 0
    requires Reached(dev.zones[..], dev.zoneSize, lba, lba + n, cur)
    requires dev.managed ==> AllHere(dev.zones[..], dev.zoneSize, kind, lba, cur) && dev.zones[i].kind == kind
    ensures reach == 0 ==> FirstBlank(dev.zones[..], dev.zoneSize, lba, lba + n) == cur
    ensures reach == 0 || reach > count ==> !(dev.managed && Mixes(dev.zones[..], dev.zoneSize, kind, lba, lba + n))
    ensures reach == 0 || reach >= count ==> (Surplus(dev.zones[..], dev.zoneSize, lba, n) <==> reach > count)
    ensures 0 < reach <= count ==> Reached(dev.zones[..], dev.zoneSize, lba, lba + n, cur + reach)
    ensures 0 < reach <= count && dev.managed ==> AllHere(dev.zones[..], dev.zoneSize, kind, lba, cur + reach)
  {
    var z := dev.zones[i];
    ghost var zs := dev.zones[..];
    if z.kind != Conventional && cur >= z.wp {
      BlankHere(zs, dev.zoneSize, kind, lba, n, cur);
      return 0;
    }
    SameZone(zs, dev.zoneSize, dev.capacity, cur, cur);
    var boundary := Boundary(z);
    reach := if cur + n > boundary then boundary - cur else count;
    Turn(zs, dev.zoneSize, dev.capacity, lba, lba + n, cur, if reach > count then count else reach, kind);
    if lba + n <= boundary {
      LastTurn(zs, dev.zoneSize, dev.capacity, lba, n, cur, z);
    }
    if reach > count && dev.managed {
      EndHere(zs, dev.zoneSize, kind, lba, lba + n);
    }
  }

  /** Where the loop is: on its way with what it has read so far. */
  datatype Stage = Under(out: seq<Block>) | Astray

  ghost function StageOf(zs: seq<Zone>, zoneSize: nat, managed: bool, data: seq<Block>, lba: nat, n: nat, cur: nat,
                         seen: Seen, seen': Seen): Stage
    requires zoneSize > 0
  {
    if Going(zs, zoneSize, managed, lba, n, cur, seen, seen') && cur <= |data| then Under(data[lba..cur]) else Astray
  }

  /** What a read must return: the data up to the first blank block and zeros from there on. */
  ghost function Outcome(zs: seq<Zone>, zoneSize: nat, managed: bool, data: seq<Block>, lba: nat, n: nat, seen: Seen): Result
    requires zoneSize > 0 && lba + n <= |data|
  {
    var s := FirstBlank(zs, zoneSize, lba, lba + n);
    if !Allowed(zs, zoneSize, managed, lba, n, seen) then Mixed
    else if Surplus(zs, zoneSize, lba, n) then TooMany
    else Got(data[lba..s] + Nothing(lba + n - s))
  }

  ghost function SeenAfter(zs: seq<Zone>, zoneSize: nat, managed: bool, lba: nat, n: nat, seen: Seen, r: Result): Seen
    requires zoneSize > 0
  {
    if r.Mixed? then NoKind else if managed && n > 0 then Of(Expected(zs, zoneSize, lba, seen)) else seen
  }

  lemma Copied(zs: seq<Zone>, zoneSize: nat, managed: bool, data: seq<Block>, lba: nat, n: nat, cur: nat, c: nat,
               seen: Seen, seen': Seen, out: seq<Block>)
    requires zoneSize > 0 && lba <= cur && 0 < c && cur + c <= lba + n <= |data| && out == data[lba..cur]
    requires Going(zs, zoneSize, managed, lba, n, cur + c, seen, seen')
    ensures StageOf(zs, zoneSize, managed, data, lba, n, cur + c, seen, seen') == Under(out + data[cur..cur + c])
  {
    assert data[lba..cur] + data[cur..cur + c] == data[lba..cur + c];
  }

  lemma Begun(zs: seq<Zone>, zoneSize: nat, managed: bool, data: seq<Block>, lba: nat, n: nat, seen: Seen)
    requires zoneSize > 0 && lba + n <= |data|
    ensures StageOf(zs, zoneSize, managed, data, lba, n, lba, seen, seen) == Under([])
  {
  }

  lemma Zeroed(zs: seq<Zone>, zoneSize: nat, managed: bool, data: seq<Block>, lba: nat, n: nat, cur: nat, seen: Seen, out: seq<Block>)
    requires zoneSize > 0 && lba <= cur < lba + n <= |data| && out == data[lba..cur]
    requires Allowed(zs, zoneSize, managed, lba, n, seen) && !Surplus(zs, zoneSize, lba, n)
    requires FirstBlank(zs, zoneSize, lba, lba + n) == cur
    ensures Outcome(zs, zoneSize, managed, data, lba, n, seen) == Got(out + Nothing(lba + n - cur))
  {
  }

  /** The rest of a turn once the zone's kind has been checked. */
  method Advance(dev: ZonedDevice, i: nat, lba: nat, n: nat, cur: nat, count: nat, out: seq<Block>, ghost seen: Seen, ghost seen': Seen)
    returns (move: Move)
    requires dev.Consistent() && i == Div(cur, dev.zoneSize) < dev.zones.Length && cur + count == lba + n <= dev.capacity && count > 0
    requires Admitted(dev.zones[..], dev.zoneSize, dev.managed, lba, n, cur, seen, seen') && out == dev.data[lba..cur]
    ensures match move
            case Copy(cur', out') =>
              && cur < cur' <= cur + count
              && StageOf(dev.zones[..], dev.zoneSize, dev.managed, dev.data, lba, n, cur', seen, seen') == Under(out')
            case Stop(r) => r == Outcome(dev.zones[..], dev.zoneSize, dev.managed, dev.data, lba, n, seen) && !r.Mixed?
  {
    ghost var zs := dev.zones[..];
    var reach := Measure(dev, i, lba, n, cur, count, Expected(zs, dev.zoneSize, lba, seen));
    if reach == 0 {
      Zeroed(zs, dev.zoneSize, dev.managed, dev.data, lba, n, cur, seen, out);
      move := Stop(Got(out + Nothing(count)));
    } else if reach > count {
      move := Stop(TooMany);
    } else {
      Copied(zs, dev.zoneSize, dev.managed, dev.data, lba, n, cur, reach, seen, seen', out);
      move := Copy(cur + reach, out + dev.data[cur..cur + reach]);
    }
  }

  /** One turn of the loop. */
  method ReadTurn(dev: ZonedDevice, lba: nat, n: nat, cur: nat, count: nat, out: seq<Block>, seen: Seen, ghost seen0: Seen)
    returns (move: Move, seen': Seen)
    requires dev.Consistent() && cur + count == lba + n <= dev.capacity && count > 0
    requires StageOf(dev.zones[..], dev.zoneSize, dev.managed, dev.data, lba, n, cur, seen0, seen) == Under(out)
    ensures match move
            case Copy(cur', out') =>
              && cur < cur' <= cur + count
              && StageOf(dev.zones[..], dev.zoneSize, dev.managed, dev.data, lba, n, cur', seen0, seen') == Under(out')
            case Stop(r) =>
              && r == Outcome(dev.zones[..], dev.zoneSize, dev.managed, dev.data, lba, n, seen0)
              && seen' == SeenAfter(dev.zones[..], dev.zoneSize, dev.managed, lba, n, seen0, r)
  {
    var found, i := dev.GetZone(cur, false);
    var ok;
    ok, seen' := CheckKind(dev, i, lba, n, cur, seen, seen0);
    if ok {
      move := Advance(dev, i, lba, n, cur, count, out, seen0, seen');
    } else {
      move := Stop(Mixed);
    }
  }

  lemma AtEnd(zs: seq<Zone>, zoneSize: nat, managed: bool, data: seq<Block>, lba: nat, n: nat, seen: Seen, seen': Seen, out: seq<Block>)
    requires zoneSize > 0 && lba + n <= |data|
    requires StageOf(zs, zoneSize, managed, data, lba, n, lba + n, seen, seen') == Under(out)
    ensures Got(out) == Outcome(zs, zoneSize, managed, data, lba, n, seen)
    ensures seen' == SeenAfter(zs, zoneSize, managed, lba, n, seen, Got(out))
  {
    FirstBlankIs(zs, zoneSize, lba, lba + n, lba + n);
    if managed {
      EndHere(zs, zoneSize, Expected(zs, zoneSize, lba, seen), lba, lba + n);
    }
  }

  /** __zbc_read: one buffer of n blocks.  It gets the stored data up to the first blank block
      and zeros from there on, unless it is refused for meeting zones of two kinds, or a turn
      of the loop, which compares the whole length and not what is left of it with the end of
      the zone's data, asks for too many blocks. */
  method Read(dev: ZonedDevice, lba: nat, n: nat, seen: Seen) returns (r: Result, seen': Seen)
    requires dev.Consistent() && lba + n <= dev.capacity
    ensures r == Outcome(dev.zones[..], dev.zoneSize, dev.managed, dev.data, lba, n, seen)
    ensures seen' == SeenAfter(dev.zones[..], dev.zoneSize, dev.managed, lba, n, seen, r)
  {
    var count: nat, cur: nat := n, lba;
    var out := [];
    seen' := seen;
    Begun(dev.zones[..], dev.zoneSize, dev.managed, dev.data, lba, n, seen);
    while count > 0
      invariant cur + count == lba + n
      invariant StageOf(dev.zones[..], dev.zoneSize, dev.managed, dev.data, lba, n, cur, seen, seen') == Under(out)
    {
      var move;
      move, seen' := ReadTurn(dev, lba, n, cur, count, out, seen', seen);
      match move
      case Stop(result) =>
        return result, seen';
      case Copy(cur', out') =>
        count := count - (cur' - cur);
        cur, out := cur', out';
    }
    AtEnd(dev.zones[..], dev.zoneSize, dev.managed, dev.data, lba, n, seen, seen', out);
    r := Got(out);
  }

  // ---- What the guest gets ---------------------------------------------------------------

  /** The n blocks from lba on as the guest should see them. */
  function View(zs: seq<Zone>, zoneSize: nat, data: seq<Block>, lba: nat, n: nat): seq<Block>
    requires zoneSize > 0
  {
    seq(n, k requires 0 <= k < n => ViewAt(zs, zoneSize, data, lba + k))
  }

  /** Every block from the first blank one on is to be seen as zero. */
  predicate ZeroAfter(zs: seq<Zone>, zoneSize: nat, data: seq<Block>, lba: nat, n: nat)
    requires zoneSize > 0
  {
    forall x :: FirstBlank(zs, zoneSize, lba, lba + n) <= x < lba + n ==> ViewAt(zs, zoneSize, data, x) == 0
  }

  lemma StoredIsSeen(zs: seq<Zone>, zoneSize: nat, data: seq<Block>, lba: nat, n: nat, x: nat)
    requires zoneSize > 0 && lba + n <= |data| && lba <= x < FirstBlank(zs, zoneSize, lba, lba + n)
    ensures ViewAt(zs, zoneSize, data, x) == data[x]
  {
    FirstBlankMeans(zs, zoneSize, lba, lba + n, x);
  }

  lemma OutIsView(zs: seq<Zone>, zoneSize: nat, data: seq<Block>, lba: nat, n: nat, s: nat)
    requires zoneSize > 0 && lba + n <= |data| && s == FirstBlank(zs, zoneSize, lba, lba + n)
    ensures data[lba..s] + Nothing(lba + n - s) == View(zs, zoneSize, data, lba, n) <==> ZeroAfter(zs, zoneSize, data, lba, n)
  {
    var out, view := data[lba..s] + Nothing(lba + n - s), View(zs, zoneSize, data, lba, n);
    forall k | 0 <= k < s - lba ensures out[k] == view[k] {
      StoredIsSeen(zs, zoneSize, data, lba, n, lba + k);
    }
    if out == view {
      forall x | s <= x < lba + n ensures ViewAt(zs, zoneSize, data, x) == 0 {
        assert view[x - lba] == out[x - lba];
      }
    }
  }

  /** A read delivers what the guest should see if and only if it meets one kind of zone (or
      the device is host aware), its last zone is not too long for it, and nothing that should
      be seen lies after its first blank block. */
  lemma ReadIsView(zs: seq<Zone>, zoneSize: nat, managed: bool, data: seq<Block>, lba: nat, n: nat, seen: Seen)
    requires zoneSize > 0 && lba + n <= |data|
    ensures Outcome(zs, zoneSize, managed, data, lba, n, seen) == Got(View(zs, zoneSize, data, lba, n)) <==>
            Allowed(zs, zoneSize, managed, lba, n, seen) && !Surplus(zs, zoneSize, lba, n) && ZeroAfter(zs, zoneSize, data, lba, n)
  {
    OutIsView(zs, zoneSize, data, lba, n, FirstBlank(zs, zoneSize, lba, lba + n));
  }

  /** Inside one zone that is always so. */
  lemma InsideZone(zs: seq<Zone>, zoneSize: nat, capacity: nat, managed: bool, data: seq<Block>, lba: nat, n: nat, seen: Seen)
    requires Tiled(zs, zoneSize, capacity) && lba + n <= capacity == |data| && n > 0
    requires Div(lba, zoneSize) < |zs| && lba + n <= End(zs[Div(lba, zoneSize)])
    requires seen == NoKind || seen == Of(zs[Div(lba, zoneSize)].kind)
    ensures Outcome(zs, zoneSize, managed, data, lba, n, seen) == Got(View(zs, zoneSize, data, lba, n))
  {
    OneZone(zs, zoneSize, capacity, lba, n);
    ZoneOf(zs, zoneSize, capacity, lba);
    var s := FirstBlank(zs, zoneSize, lba, lba + n);
    FirstBlankMeans(zs, zoneSize, lba, lba + n, lba);
    assert s < lba + n ==> Div(s, zoneSize) == Div(lba, zoneSize);
    ReadIsView(zs, zoneSize, managed, data, lba, n, seen);
  }

  /** Two zones of one kind: nothing is elsewhere. */
  lemma OneKind(zs: seq<Zone>, zoneSize: nat, managed: bool, lba: nat, n: nat)
    requires zoneSize > 0 && Div(lba, zoneSize) < |zs| && forall i :: 0 <= i < |zs| ==> zs[i].kind == zs[0].kind
    ensures Allowed(zs, zoneSize, managed, lba, n, NoKind)
  {
  }

  /** A half written zone and a full one: read together, the second shows zeros. */
  lemma HidesNextZone(managed: bool) returns (zs: seq<Zone>, data: seq<Block>)
    ensures AllOk(zs) && Tiled(zs, 4, 8) && data == [1, 2, 3, 4, 5, 6, 7, 8]
    ensures Outcome(zs, 4, managed, data, 0, 8, NoKind) == Got([1, 2, 0, 0, 0, 0, 0, 0])
    ensures View(zs, 4, data, 0, 8) == [1, 2, 0, 0, 5, 6, 7, 8]
  {
    zs := [Zone(0, 4, 2, SeqRequired, Closed, false, false), Zone(4, 4, 8, SeqRequired, Full, false, false)];
    data := [1, 2, 3, 4, 5, 6, 7, 8];
    OneKind(zs, 4, managed, 0, 8);
    assert Blank(zs, 4, 2) && !Blank(zs, 4, 0) && !Blank(zs, 4, 1);
    FirstBlankFrom(zs, 4, 0, 8, 2);
    assert data[0..2] + Nothing(6) == [1, 2, 0, 0, 0, 0, 0, 0];
  }

  /** Two conventional zones of four blocks: of a read of five, the second turn asks for four. */
  lemma AsksTooMuch(managed: bool) returns (zs: seq<Zone>, data: seq<Block>)
    ensures AllOk(zs) && Tiled(zs, 4, 8) && |data| == 8
    ensures Outcome(zs, 4, managed, data, 0, 5, NoKind) == TooMany
  {
    zs := [Zone(0, 4, 0, Conventional, NotWp, false, false), Zone(4, 4, 0, Conventional, NotWp, false, false)];
    data := [1, 2, 3, 4, 5, 6, 7, 8];
    OneKind(zs, 4, managed, 0, 5);
    FirstBlankFrom(zs, 4, 0, 5, 5);
    assert Div(4, 4) == 1;
  }
}
