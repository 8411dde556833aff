/** The zoned block device of file_zbc.c: zone conditions, write pointers and the budget of
    open zones. */
module Zbc {
  import opened Arith
  import opened Blocks
  import opened Bytes

  datatype Kind = Conventional | SeqRequired | SeqPreferred

  datatype Cond = NotWp | Empty | ImpOpen | ExpOpen | Closed | ReadOnly | Full | Offline

  /** A zone descriptor; lengths and positions are in logical blocks. */
  datatype Zone = Zone(start: nat, len: nat, wp: nat, kind: Kind, cond: Cond, nonSeq: bool, reset: bool)

  /** wp of a conventional zone */
  const ULLONG_MAX: nat := 0xFFFF_FFFF_FFFF_FFFF

  datatype Status = Ok | InvalidField | OutOfRange | NoResources | BoundaryViolation | Unaligned | MediumError

  predicate IsOpen(z: Zone) {
    z.cond == ImpOpen || z.cond == ExpOpen
  }

  function End(z: Zone): nat {
    z.start + z.len
  }

  // ---- Zones one at a time -------------------------------------------------------------

  /** EMPTY has its write pointer at the start, CLOSED strictly inside, open before the end,
      and a sequential zone is FULL exactly when its write pointer is at the end. */
  predicate ZoneOk(z: Zone) {
    && z.len > 0
    && if z.kind == Conventional then z.cond == NotWp
       else
         && z.start <= z.wp <= End(z)
         && z.cond in {Empty, ImpOpen, ExpOpen, Closed, Full}
         && (z.cond == Empty ==> z.wp == z.start)
         && (z.cond == Closed ==> z.start < z.wp < End(z))
         && (IsOpen(z) ==> z.wp < End(z))
         && (z.cond == Full <==> z.wp == End(z))
  }

  /** What a command may change in a zone. */
  predicate SamePlace(z: Zone, z': Zone) {
    z'.start == z.start && z'.len == z.len && z'.kind == z.kind
  }

  /** __zbc_close_zone */
  function CloseZone(z: Zone): (r: Zone)
    ensures ZoneOk(z) ==> ZoneOk(r)
    ensures SamePlace(z, r) && (z.kind != Conventional ==> !IsOpen(r))
  {
    if z.kind == Conventional || !IsOpen(z) then z
    else z.(cond := if z.wp == z.start then Empty else Closed)
  }

  /** __zbc_finish_zone */
  function FinishZone(z: Zone, empty: bool): (r: Zone)
    ensures ZoneOk(z) ==> ZoneOk(r)
    ensures SamePlace(z, r)
  {
    if z.kind == Conventional then z
    else if z.cond == Closed || IsOpen(z) || (empty && z.cond == Empty) then
      z.(wp := End(z), cond := Full, nonSeq := false, reset := false)
    else z
  }

  /** __zbc_reset_wp */
  function ResetZone(z: Zone): (r: Zone)
    ensures ZoneOk(z) ==> ZoneOk(r)
    ensures SamePlace(z, r)
  {
    if z.kind == Conventional then z
    else z.(wp := z.start, cond := Empty, nonSeq := false, reset := false)
  }

  // ---- Counting ------------------------------------------------------------------------

  /** The number of zones in condition c. */
  function Count(zs: seq<Zone>, c: Cond): nat {
    if zs == [] then 0 else Count(zs[..|zs| - 1], c) + if zs[|zs| - 1].cond == c then 1 else 0
  }

  function One(z: Zone, c: Cond): nat {
    if z.cond == c then 1 else 0
  }

  lemma {:induction false} CountSet(zs: seq<Zone>, i: nat, z: Zone, c: Cond)
    requires i < |zs|
    ensures Count(zs[i := z], c) == Count(zs, c) - One(zs[i], c) + One(z, c)
  {
    var n := |zs| - 1;
    if i < n {
      CountSet(zs[..n], i, z, c);
      assert zs[i := z][..n] == zs[..n][i := z];
    } else {
      assert zs[i := z][..n] == zs[..n];
    }
  }

  lemma {:induction false} CountAtLeast(zs: seq<Zone>, i: nat, c: Cond)
    requires i < |zs|
    ensures Count(zs, c) >= One(zs[i], c)
  {
    if i < |zs| - 1 {
      CountAtLeast(zs[..|zs| - 1], i, c);
    }
  }

  lemma {:induction false} CountNone(zs: seq<Zone>, c: Cond)
    requires forall i :: 0 <= i < |zs| ==> zs[i].cond != c
    ensures Count(zs, c) == 0
  {
    if zs != [] {
      CountNone(zs[..|zs| - 1], c);
    }
  }

  predicate AllOk(zs: seq<Zone>) {
    forall i :: 0 <= i < |zs| ==> ZoneOk(zs[i])
  }

  /** The counters count, and the zones are as they should be. */
  predicate Sound(zs: seq<Zone>, imp: nat, exp: nat) {
    AllOk(zs) && imp == Count(zs, ImpOpen) && exp == Count(zs, ExpOpen)
  }

  /** The zones lie where they lay. */
  predicate SameLayout(zs: seq<Zone>, zs': seq<Zone>) {
    |zs'| == |zs| && forall i :: 0 <= i < |zs| ==> SamePlace(zs[i], zs'[i])
  }

  /** One zone changes its condition: what the counters must then be. */
  lemma SetZone(zs: seq<Zone>, imp: nat, exp: nat, i: nat, z: Zone)
    requires Sound(zs, imp, exp) && i < |zs| && ZoneOk(z) && SamePlace(zs[i], z)
    ensures var zs' := zs[i := z];
            && SameLayout(zs, zs')
            && imp - One(zs[i], ImpOpen) >= 0 && exp - One(zs[i], ExpOpen) >= 0
            && Sound(zs', imp - One(zs[i], ImpOpen) + One(z, ImpOpen), exp - One(zs[i], ExpOpen) + One(z, ExpOpen))
  {
    CountSet(zs, i, z, ImpOpen);
    CountSet(zs, i, z, ExpOpen);
    CountAtLeast(zs, i, ImpOpen);
    CountAtLeast(zs, i, ExpOpen);
  }

  // ---- Where zones lie -------------------------------------------------------------------

  /** Zone i starts at i times the zone size; every zone but the last has that size, and
      together they are the capacity. */
  predicate Tiled(zs: seq<Zone>, zoneSize: nat, capacity: nat) {
    && zoneSize > 0
    && |zs| == Div(capacity + zoneSize - 1, zoneSize)
    && forall i :: 0 <= i < |zs| ==> Placed(zs[i], i, zoneSize, capacity)
  }

  lemma TiledKept(zs: seq<Zone>, zs': seq<Zone>, zoneSize: nat, capacity: nat)
    requires Tiled(zs, zoneSize, capacity) && SameLayout(zs, zs')
    ensures Tiled(zs', zoneSize, capacity)
  {
    forall i | 0 <= i < |zs'| ensures Placed(zs'[i], i, zoneSize, capacity) {
      assert Placed(zs[i], i, zoneSize, capacity) && SamePlace(zs[i], zs'[i]);
    }
  }

  /** Every block below the capacity lies in exactly the zone its number divided by the zone
      size names. */
  lemma ZoneOf(zs: seq<Zone>, zoneSize: nat, capacity: nat, lba: nat)
    requires Tiled(zs, zoneSize, capacity) && lba < capacity
    ensures Div(lba, zoneSize) < |zs|
    ensures zs[Div(lba, zoneSize)].start <= lba < End(zs[Div(lba, zoneSize)])
  {
    var n := Div(lba, zoneSize);
    DivMod(lba, zoneSize);
    DivMono(lba + zoneSize, capacity + zoneSize - 1, zoneSize);
    Distribute(n, 1, zoneSize);
    DivUnique(lba + zoneSize, zoneSize, n + 1, Mod(lba, zoneSize));
  }

  lemma ZoneOfUnique(zs: seq<Zone>, zoneSize: nat, capacity: nat, lba: nat, i: nat)
    requires Tiled(zs, zoneSize, capacity) && i < |zs| && zs[i].start <= lba < End(zs[i])
    ensures Div(lba, zoneSize) == i
  {
    DivUnique(lba, zoneSize, i, lba - zs[i].start);
  }

  /** The walk stays in the array: the zone after zone i starts where zone i ends, unless
      zone i ends the device. */
  lemma NextZone(zs: seq<Zone>, zoneSize: nat, capacity: nat, i: nat)
    requires Tiled(zs, zoneSize, capacity) && AllOk(zs) && i < |zs|
    ensures End(zs[i]) < capacity <==> i + 1 < |zs|
    ensures i + 1 < |zs| ==> End(zs[i]) == zs[i + 1].start
  {
    assert Placed(zs[i], i, zoneSize, capacity) && ZoneOk(zs[i]);
    Distribute(i, 1, zoneSize);
    if End(zs[i]) < capacity {
      ZoneOf(zs, zoneSize, capacity, End(zs[i]));
      DivUnique(End(zs[i]), zoneSize, i + 1, 0);
    }
    if i + 1 < |zs| {
      assert Placed(zs[i + 1], i + 1, zoneSize, capacity);
    }
  }

  /** Zone i of a fresh format. */
  predicate Formatted(z: Zone, i: nat, kind: Kind, nrConv: nat) {
    && ZoneOk(z)
    && (if i < nrConv then z.kind == Conventional && z.wp == ULLONG_MAX else z.kind == kind && z.cond == Empty)
    && !z.nonSeq && !z.reset && !IsOpen(z)
  }

  predicate Placed(z: Zone, i: nat, zoneSize: nat, capacity: nat) {
    z.start == i * zoneSize < capacity && z.len == Min(zoneSize, capacity - z.start)
  }

  lemma LastStart(capacity: nat, zoneSize: nat, i: nat)
    requires capacity > 0 && zoneSize > 0 && i < Div(capacity + zoneSize - 1, zoneSize)
    ensures i * zoneSize < capacity
  {
    DivMod(capacity + zoneSize - 1, zoneSize);
    MulMono(i + 1, Div(capacity + zoneSize - 1, zoneSize), zoneSize);
    Distribute(i, 1, zoneSize);
  }

  /** A zone of a fresh format that starts at lba. */
  function FreshZone(kind: Kind, capacity: nat, zoneSize: nat, nrConv: nat, i: nat, lba: nat): Zone
    requires lba <= capacity
  {
    var len := if lba + zoneSize > capacity then capacity - lba else zoneSize;
    if i < nrConv then Zone(lba, len, ULLONG_MAX, Conventional, NotWp, false, false)
    else Zone(lba, len, lba, kind, Empty, false, false)
  }

  lemma FreshZoneOk(kind: Kind, capacity: nat, zoneSize: nat, nrConv: nat, i: nat, lba: nat)
    requires capacity > 0 && zoneSize > 0 && kind != Conventional
    requires i < Div(capacity + zoneSize - 1, zoneSize) && lba == i * zoneSize
    ensures lba < capacity
    ensures var z := FreshZone(kind, capacity, zoneSize, nrConv, i, lba);
            && Formatted(z, i, kind, nrConv) && Placed(z, i, zoneSize, capacity)
            && End(z) == Min(lba + zoneSize, capacity)
  {
    LastStart(capacity, zoneSize, i);
  }

  /** The loop of zbc_format_meta that lays out the zones. */
  method FormatZones(kind: Kind, capacity: nat, zoneSize: nat, nrConv: nat) returns (zones: array<Zone>)
    requires capacity > 0 && zoneSize > 0 && kind != Conventional
    ensures fresh(zones) && zones.Length == Div(capacity + zoneSize - 1, zoneSize)
    ensures forall k :: 0 <= k < zones.Length ==> Formatted(zones[k], k, kind, nrConv) && Placed(zones[k], k, zoneSize, capacity)
  {
    var nrZones := Div(capacity + zoneSize - 1, zoneSize);
    zones := new Zone[nrZones](_ => Zone(0, 0, 0, Conventional, NotWp, false, false));
    var lba := 0;
    ghost var start := 0;
    for i := 0 to nrZones
      invariant start == i * zoneSize && lba == Min(start, capacity)
      invariant forall k :: 0 <= k < i ==> Formatted(zones[k], k, kind, nrConv) && Placed(zones[k], k, zoneSize, capacity)
    {
      LastStart(capacity, zoneSize, i);
      FreshZoneOk(kind, capacity, zoneSize, nrConv, i, lba);
      Distribute(i, 1, zoneSize);
      zones[i] := FreshZone(kind, capacity, zoneSize, nrConv, i, lba);
      lba := lba + zones[i].len;
      start := start + zoneSize;
    }
  }

  // ---- What the commands do ----------------------------------------------------------------

  datatype Shape = Shape(zoneSize: nat, capacity: nat, limit: nat)

  /** What a device holds: its zones, its blocks and its two counters. */
  datatype Media = Media(zs: seq<Zone>, data: seq<Block>, imp: nat, exp: nat)

  /** The number of open zones. */
  function Opens(zs: seq<Zone>): nat {
    Count(zs, ImpOpen) + Count(zs, ExpOpen)
  }

  /** A zone that a management command may name. */
  predicate Manageable(zs: seq<Zone>, lba: nat, k: nat) {
    k < |zs| && zs[k].start == lba && zs[k].kind != Conventional
  }

  /** The answer to a management command that names the zone at lba. */
  ghost function NameStatus(zs: seq<Zone>, capacity: nat, lba: nat): Status {
    if lba > capacity then OutOfRange else if exists k :: Manageable(zs, lba, k) then Ok else InvalidField
  }

  /** CLOSE, FINISH and RESET do one thing to the zones they are for. */
  ghost predicate EachZone(capacity: nat, zs: seq<Zone>, zs': seq<Zone>, all: bool, lba: nat, status: Status, f: Zone -> Zone) {
    && status == (if all then Ok else NameStatus(zs, capacity, lba))
    && |zs'| == |zs|
    && forall k :: 0 <= k < |zs| ==> zs'[k] == if status == Ok && (all || zs[k].start == lba) then f(zs[k]) else zs[k]
  }

  /** OPEN for one zone: it is explicitly open unless it is full, one implicitly open zone may
      have been closed for it, and it is refused when all the budget is explicitly open. */
  ghost predicate OpenDone(g: Shape, zs: seq<Zone>, zs': seq<Zone>, lba: nat, status: Status) {
    if NameStatus(zs, g.capacity, lba) != Ok then status == NameStatus(zs, g.capacity, lba) && zs' == zs
    else forall i :: Manageable(zs, lba, i) ==> OpenedAt(g.limit, zs, zs', i, status)
  }

  predicate OpenedAt(limit: nat, zs: seq<Zone>, zs': seq<Zone>, i: nat, status: Status)
    requires i < |zs|
  {
    if zs[i].cond == ExpOpen || zs[i].cond == Full then status == Ok && zs' == zs
    else if Count(zs, ExpOpen) >= limit then status == NoResources && zs' == zs
    else status == Ok && zs' == OpenStep(zs[i := CloseZone(zs[i])], limit, i)
  }

  ghost predicate OpenAllDone(limit: nat, zs: seq<Zone>, zs': seq<Zone>, status: Status) {
    && status == (if Count(zs, ExpOpen) + Count(zs, Closed) > limit then NoResources else Ok)
    && zs' == if status == Ok then OpenFrom(zs, limit, 0) else zs
  }

  /** Zone i would have to be opened, and explicitly open zones fill the budget. */
  predicate OutOfRoom(zs: seq<Zone>, i: nat, limit: nat) {
    i < |zs| && zs[i].kind != Conventional && !IsOpen(zs[i]) && Count(zs, ExpOpen) >= limit
  }

  /** The zones once zone i has been made ready for a write: it is open, and if it was not the
      first implicitly open zone has been closed for it when the budget was used up. */
  function Prepared(zs: seq<Zone>, limit: nat, i: nat): (r: seq<Zone>)
    requires i < |zs|
    ensures |r| == |zs|
  {
    if zs[i].kind == Conventional || IsOpen(zs[i]) then zs else RoomMade(zs, limit)[i := Opened(zs[i])]
  }

  /** The zones once n blocks have been written at lba to zone i. */
  function AfterWrite(zs: seq<Zone>, limit: nat, i: nat, lba: nat, n: nat): (r: seq<Zone>)
    requires i < |zs|
    ensures |r| == |zs|
  {
    Prepared(zs, limit, i)[i := if n == 0 then Opened(zs[i]) else Wrote(Opened(zs[i]), lba, n)]
  }

  lemma AfterWriteTwice(zs: seq<Zone>, limit: nat, i: nat, lba: nat, a: nat, b: nat)
    requires i < |zs| && ZoneOk(zs[i]) && zs[i].start <= lba && lba + a + b <= End(zs[i]) && Writable(zs[i], lba, a + b) && b > 0
    ensures var zs1 := AfterWrite(zs, limit, i, lba, a);
            zs1[i := Wrote(zs1[i], lba + a, b)] == AfterWrite(zs, limit, i, lba, a + b)
  {
    WroteTwice(zs[i], lba, a, b);
  }

  /** A write of blocks at lba, inside zone i, of which the first `done` reached the zone. */
  ghost predicate ZoneWritten(limit: nat, m: Media, m': Media, i: nat, lba: nat, blocks: seq<Block>, status: Status, done: nat) {
    && i < |m.zs| && done <= |blocks| && lba + |blocks| <= |m.data|
    && if OutOfRoom(m.zs, i, limit) then status == NoResources && done == 0 && m' == m
       else
         && status == (if done == |blocks| then Ok else MediumError)
         && m'.zs == AfterWrite(m.zs, limit, i, lba, done)
         && m'.data == Put(m.data, lba, blocks[..done])
  }

  /** A zone a write of n blocks comes to at lba must be of the first one's kind and must not
      be full; if it has to be written in sequence the write begins at its write pointer and
      does not go beyond its end. */
  function CheckedOne(z: Zone, kind: Kind, lba: nat, n: nat): Status {
    if z.kind != kind then BoundaryViolation
    else if z.cond == Full then InvalidField
    else if z.kind == SeqRequired && lba != z.wp then Unaligned
    else if z.kind == SeqRequired && lba + n > End(z) then BoundaryViolation
    else Ok
  }

  /** The check of all zones from zone i on that a write passes over. */
  function Checked(zs: seq<Zone>, i: nat, kind: Kind, lba: nat, n: nat): (status: Status)
    ensures status in {Ok, InvalidField, Unaligned, BoundaryViolation}
    decreases |zs| - i
  {
    if n == 0 || i >= |zs| then Ok
    else
      var one := CheckedOne(zs[i], kind, lba, n);
      if one != Ok || lba + n <= End(zs[i]) then one else Checked(zs, i + 1, kind, End(zs[i]), lba + n - End(zs[i]))
  }

  /** Whether a write of n blocks at lba may begin: it lies on the device, passes the check of
      its zones and does not leave the first one. */
  function WriteStatus(g: Shape, zs: seq<Zone>, lba: nat, n: nat): (status: Status)
    requires g.zoneSize > 0
    ensures status in {Ok, OutOfRange, InvalidField, Unaligned, BoundaryViolation}
  {
    var i := Div(lba, g.zoneSize);
    if lba + n > g.capacity then OutOfRange
    else if n == 0 || i >= |zs| then Ok
    else if Checked(zs, i, zs[i].kind, lba, n) != Ok then Checked(zs, i, zs[i].kind, lba, n)
    else if lba + n > End(zs[i]) then BoundaryViolation
    else Ok
  }

  /** A write: refused, or for nothing, or carried out in the one zone it is for. */
  ghost predicate WriteDone(g: Shape, m: Media, m': Media, lba: nat, blocks: seq<Block>, status: Status, done: nat)
    requires g.zoneSize > 0
  {
    if WriteStatus(g, m.zs, lba, |blocks|) != Ok then m' == m && status == WriteStatus(g, m.zs, lba, |blocks|) && done == 0
    else if blocks == [] then m' == m && status == Ok && done == 0
    else
      var i := Div(lba, g.zoneSize);
      && i < |m.zs| && m.zs[i].start <= lba && lba + |blocks| <= End(m.zs[i]) && Writable(m.zs[i], lba, |blocks|)
      && ZoneWritten(g.limit, m, m', i, lba, blocks, status, done)
  }

  // ---- The device ------------------------------------------------------------------------

  class ZonedDevice {
    const zoneSize: nat
    const capacity: nat
    const limit: nat
    /** Whether the device is host managed; otherwise it is host aware. */
    const managed: bool
    const zones: array<Zone>
    var nrImpOpen: nat
    var nrExpOpen: nat
    var data: seq<Block>

    /** The counters are right and the zones tile the capacity. */
    ghost predicate Consistent()
      reads this, zones
    {
      && Sound(zones[..], nrImpOpen, nrExpOpen)
      && Tiled(zones[..], zoneSize, capacity) && |data| == capacity
    }

    ghost function Form(): Shape {
      Shape(zoneSize, capacity, limit)
    }

    ghost function Held(): Media
      reads this, zones
    {
      Media(zones[..], data, nrImpOpen, nrExpOpen)
    }

    /** No more zones are open than the budget allows. */
    ghost predicate Valid()
      reads this, zones
    {
      Consistent() && nrImpOpen + nrExpOpen <= limit
    }

    /** No more zones are open than the budget allows, or than were before. */
    ghost predicate WithinBudget(before: nat)
      reads this
    {
      nrImpOpen + nrExpOpen <= limit || nrImpOpen + nrExpOpen <= before
    }

    /** The zones of zbc_format_meta: nrConv conventional zones, then empty sequential ones. */
    constructor Format(kind: Kind, capacity: nat, zoneSize: nat, nrConv: nat, limit: nat, data: seq<Block>)
      requires capacity > 0 && zoneSize > 0 && kind != Conventional && |data| == capacity
      ensures Valid() && fresh(zones) && nrImpOpen == 0 && nrExpOpen == 0
      ensures this.capacity == capacity && this.zoneSize == zoneSize && this.limit == limit && this.data == data
      ensures managed <==> kind == SeqRequired
      ensures zones.Length == Div(capacity + zoneSize - 1, zoneSize)
      ensures forall i :: 0 <= i < zones.Length ==> Formatted(zones[i], i, kind, nrConv)
    {
      this.capacity, this.zoneSize, this.limit, this.data := capacity, zoneSize, limit, data;
      nrImpOpen, nrExpOpen, managed := 0, 0, kind == SeqRequired;
      var layout := FormatZones(kind, capacity, zoneSize, nrConv);
      zones := layout;
      new;
      CountNone(zones[..], ImpOpen);
      CountNone(zones[..], ExpOpen);
      assert forall k :: 0 <= k < zones.Length ==> zones[..][k] == zones[k];
    }

    /** zbc_init_meta: a device that is opened again has no open zone. */
    method InitMeta()
      requires Consistent()
      modifies this`nrImpOpen, this`nrExpOpen, zones
      ensures Valid() && nrImpOpen == 0 && nrExpOpen == 0
      ensures forall k :: 0 <= k < zones.Length ==> zones[k] == CloseZone(old(zones[k]))
    {
      for i := 0 to zones.Length
        invariant Consistent()
        invariant forall k :: 0 <= k < i ==> zones[k] == CloseZone(old(zones[k]))
        invariant forall k :: i <= k < zones.Length ==> zones[k] == old(zones[k])
      {
        Close(i);
        assert forall k :: 0 <= k < zones.Length ==> zones[k] == zones[..][k];
      }
      forall k | 0 <= k < zones.Length ensures !IsOpen(zones[k]) {
        assert ZoneOk(zones[..][k]);
      }
      CountNone(zones[..], ImpOpen);
      CountNone(zones[..], ExpOpen);
      nrImpOpen, nrExpOpen := 0, 0;
    }

    /** Zone i takes a new condition, and the counters follow. */
    method Set(i: nat, z: Zone, imp: nat, exp: nat)
      requires Consistent() && i < zones.Length && ZoneOk(z) && SamePlace(zones[i], z)
      requires imp == nrImpOpen - One(zones[i], ImpOpen) + One(z, ImpOpen)
      requires exp == nrExpOpen - One(zones[i], ExpOpen) + One(z, ExpOpen)
      modifies this`nrImpOpen, this`nrExpOpen, zones
      ensures Consistent() && zones[..] == old(zones[..])[i := z] && nrImpOpen == imp && nrExpOpen == exp
    {
      SetZone(zones[..], nrImpOpen, nrExpOpen, i, z);
      TiledKept(zones[..], zones[..][i := z], zoneSize, capacity);
      ghost var zs := zones[..][i := z];
      zones[i] := z;
      assert zones[..] == zs;
      nrImpOpen, nrExpOpen := imp, exp;
    }

    /** __zbc_close_zone */
    method Close(i: nat)
      requires Consistent() && i < zones.Length
      modifies this`nrImpOpen, this`nrExpOpen, zones
      ensures Consistent() && zones[..] == old(zones[..])[i := CloseZone(old(zones[i]))]
      ensures nrImpOpen == old(nrImpOpen) - One(old(zones[i]), ImpOpen)
      ensures nrExpOpen == old(nrExpOpen) - One(old(zones[i]), ExpOpen)
    {
      var z := zones[i];
      assert ZoneOk(z);
      if z.kind == Conventional || !IsOpen(z) {
        assert zones[..] == zones[..][i := z];
        return;
      }
      SetZone(zones[..], nrImpOpen, nrExpOpen, i, CloseZone(z));
      var cond := if z.wp == z.start then Empty else Closed;
      if z.cond == ImpOpen {
        Set(i, z.(cond := cond), nrImpOpen - 1, nrExpOpen);
      } else {
        Set(i, z.(cond := cond), nrImpOpen, nrExpOpen - 1);
      }
    }

    /** __zbc_close_imp_open_zone: whenever some zone is implicitly open, one is found and
        closed. */
    method CloseImpOpen() returns (closed: bool, ghost victim: nat)
      requires Consistent()
      modifies this`nrImpOpen, this`nrExpOpen, zones
      ensures Consistent() && nrExpOpen == old(nrExpOpen)
      ensures closed <==> old(nrImpOpen) > 0
      ensures !closed ==> zones[..] == old(zones[..]) && nrImpOpen == old(nrImpOpen)
      ensures closed ==> victim < zones.Length && old(zones[victim]).cond == ImpOpen && nrImpOpen == old(nrImpOpen) - 1
      ensures closed ==> zones[..] == old(zones[..])[victim := CloseZone(old(zones[victim]))]
      ensures closed ==> forall k :: 0 <= k < victim ==> old(zones[k]).cond != ImpOpen
    {
      for i := 0 to zones.Length
        invariant forall k :: 0 <= k < i ==> zones[k].cond != ImpOpen
        invariant zones[..] == old(zones[..]) && nrImpOpen == old(nrImpOpen) && nrExpOpen == old(nrExpOpen)
      {
        if zones[i].cond == ImpOpen {
          CountAtLeast(zones[..], i, ImpOpen);
          Close(i);
          return true, i;
        }
      }
      CountNone(zones[..], ImpOpen);
      return false, 0;
    }

    /** __zbc_open_zone: an implicitly open zone makes room when the budget is used up. */
    method Open(i: nat, explicit: bool) returns (ghost evicted: bool, ghost victim: nat)
      requires Consistent() && i < zones.Length && (zones[i].cond == Empty || zones[i].cond == Closed)
      modifies this`nrImpOpen, this`nrExpOpen, zones
      ensures Consistent()
      ensures evicted <==> old(nrImpOpen + nrExpOpen) >= limit && old(nrImpOpen) > 0
      ensures var zs := old(zones[..]);
              var z := zs[i].(cond := if explicit then ExpOpen else ImpOpen);
              if evicted
              then victim < |zs| && victim != i && zs[victim].cond == ImpOpen && zones[..] == zs[victim := CloseZone(zs[victim])][i := z]
              else zones[..] == zs[i := z]
      ensures evicted ==> forall k :: 0 <= k < victim ==> old(zones[k]).cond != ImpOpen
      ensures nrImpOpen + nrExpOpen == old(nrImpOpen + nrExpOpen) + if evicted then 0 else 1
      ensures nrExpOpen == old(nrExpOpen) + if explicit then 1 else 0
    {
      evicted, victim := false, 0;
      if nrImpOpen + nrExpOpen >= limit {
        evicted, victim := CloseImpOpen();
      }
      assert ZoneOk(zones[..][i]);
      if explicit {
        Set(i, zones[i].(cond := ExpOpen), nrImpOpen, nrExpOpen + 1);
      } else {
        Set(i, zones[i].(cond := ImpOpen), nrImpOpen + 1, nrExpOpen);
      }
    }

    /** __zbc_finish_zone */
    method Finish(i: nat, empty: bool)
      requires Consistent() && i < zones.Length
      modifies this`nrImpOpen, this`nrExpOpen, zones
      ensures Consistent() && zones[..] == old(zones[..])[i := FinishZone(old(zones[i]), empty)]
      ensures nrImpOpen <= old(nrImpOpen) && nrExpOpen <= old(nrExpOpen)
    {
      var z := zones[i];
      assert ZoneOk(z);
      if z.kind != Conventional && (z.cond == Closed || IsOpen(z) || (empty && z.cond == Empty)) {
        if IsOpen(z) {
          Close(i);
        }
        Set(i, zones[i].(wp := End(z), cond := Full, nonSeq := false, reset := false), nrImpOpen, nrExpOpen);
      } else {
        assert zones[..] == zones[..][i := z];
      }
    }

    /** __zbc_reset_wp */
    method Reset(i: nat)
      requires Consistent() && i < zones.Length
      modifies this`nrImpOpen, this`nrExpOpen, zones
      ensures Consistent() && zones[..] == old(zones[..])[i := ResetZone(old(zones[i]))]
      ensures nrImpOpen <= old(nrImpOpen) && nrExpOpen <= old(nrExpOpen)
    {
      var z := zones[i];
      assert ZoneOk(z);
      if z.kind == Conventional {
        assert zones[..] == zones[..][i := z];
        return;
      }
      if IsOpen(z) {
        Close(i);
      }
      Set(i, zones[i].(wp := z.start, cond := Empty, nonSeq := false, reset := false), nrImpOpen, nrExpOpen);
    }

    /** zbc_get_zone */
    method GetZone(lba: nat, lowest: bool) returns (found: bool, i: nat)
      requires Consistent()
      ensures found ==> i < zones.Length && i == Div(lba, zoneSize) && (lowest ==> lba == zones[i].start)
      ensures lba < capacity && !lowest ==> found && zones[i].start <= lba < End(zones[i])
      ensures lowest ==> (found <==> exists k :: 0 <= k < zones.Length && zones[k].start == lba)
    {
      i := Div(lba, zoneSize);
      if lba < capacity {
        ZoneOf(zones[..], zoneSize, capacity, lba);
      }
      if lowest {
        forall k | 0 <= k < zones.Length && zones[k].start == lba ensures k == i {
          assert ZoneOk(zones[..][k]);
          ZoneOfUnique(zones[..], zoneSize, capacity, lba, k);
        }
      }
      if i >= zones.Length {
        return false, 0;
      }
      found := !lowest || lba == zones[i].start;
    }

    /** The zone a management command names, if it may name it. */
    method Named(lba: nat) returns (status: Status, i: nat)
      requires Consistent()
      ensures status == NameStatus(zones[..], capacity, lba)
      ensures status == Ok ==> Manageable(zones[..], lba, i)
      ensures forall k :: 0 <= k < zones.Length && zones[k].start == lba && status == Ok ==> k == i
    {
      if lba > capacity {
        return OutOfRange, 0;
      }
      var found;
      found, i := GetZone(lba, true);
      forall k | 0 <= k < zones.Length && zones[k].start == lba ensures found && k == i {
        assert ZoneOk(zones[..][k]);
        ZoneOfUnique(zones[..], zoneSize, capacity, lba, k);
      }
      status := if !found || zones[i].kind == Conventional then InvalidField else Ok;
      assert status == Ok ==> Manageable(zones[..], lba, i);
    }

    /** zbc_close_zone */
    method CloseCommand(all: bool, lba: nat) returns (status: Status)
      requires Consistent()
      modifies this`nrImpOpen, this`nrExpOpen, zones
      ensures Consistent() && WithinBudget(old(nrImpOpen + nrExpOpen))
      ensures EachZone(capacity, old(zones[..]), zones[..], all, lba, status, CloseZone)
    {
      if all {
        for i := 0 to zones.Length
          invariant Consistent() && WithinBudget(old(nrImpOpen + nrExpOpen))
          invariant forall k :: 0 <= k < i ==> zones[k] == CloseZone(old(zones[k]))
          invariant forall k :: i <= k < zones.Length ==> zones[k] == old(zones[k])
        {
          Close(i);
          assert forall k :: 0 <= k < zones.Length ==> zones[k] == zones[..][k];
        }
        return Ok;
      }
      var i;
      status, i := Named(lba);
      if status == Ok {
        Close(i);
        assert forall k :: 0 <= k < zones.Length ==> zones[k] == zones[..][k];
      }
    }

    /** zbc_finish_zone: FINISH ALL leaves empty zones alone. */
    method FinishCommand(all: bool, lba: nat) returns (status: Status)
      requires Consistent()
      modifies this`nrImpOpen, this`nrExpOpen, zones
      ensures Consistent() && WithinBudget(old(nrImpOpen + nrExpOpen))
      ensures EachZone(capacity, old(zones[..]), zones[..], all, lba, status, z => FinishZone(z, !all))
    {
      if all {
        for i := 0 to zones.Length
          invariant Consistent() && WithinBudget(old(nrImpOpen + nrExpOpen))
          invariant forall k :: 0 <= k < i ==> zones[k] == FinishZone(old(zones[k]), false)
          invariant forall k :: i <= k < zones.Length ==> zones[k] == old(zones[k])
        {
          Finish(i, false);
          assert forall k :: 0 <= k < zones.Length ==> zones[k] == zones[..][k];
        }
        return Ok;
      }
      var i;
      status, i := Named(lba);
      if status == Ok {
        Finish(i, true);
        assert forall k :: 0 <= k < zones.Length ==> zones[k] == zones[..][k];
      }
    }

    /** zbc_reset_wp */
    method ResetCommand(all: bool, lba: nat) returns (status: Status)
      requires Consistent()
      modifies this`nrImpOpen, this`nrExpOpen, zones
      ensures Consistent() && WithinBudget(old(nrImpOpen + nrExpOpen))
      ensures EachZone(capacity, old(zones[..]), zones[..], all, lba, status, ResetZone)
    {
      if all {
        for i := 0 to zones.Length
          invariant Consistent() && WithinBudget(old(nrImpOpen + nrExpOpen))
          invariant forall k :: 0 <= k < i ==> zones[k] == ResetZone(old(zones[k]))
          invariant forall k :: i <= k < zones.Length ==> zones[k] == old(zones[k])
        {
          Reset(i);
          assert forall k :: 0 <= k < zones.Length ==> zones[k] == zones[..][k];
        }
        return Ok;
      }
      var i;
      status, i := Named(lba);
      if status == Ok {
        Reset(i);
        assert forall k :: 0 <= k < zones.Length ==> zones[k] == zones[..][k];
      }
    }

    /** zbc_open_zone for one zone; a victim is found whenever one is needed. */
    method OpenOne(lba: nat) returns (status: Status)
      requires Consistent()
      modifies this`nrImpOpen, this`nrExpOpen, zones
      ensures Consistent() && WithinBudget(old(nrImpOpen + nrExpOpen))
      ensures OpenDone(Form(), old(zones[..]), zones[..], lba, status)
    {
      var i;
      status, i := Named(lba);
      if status == Ok {
        status := OpenExplicitly(i);
      }
    }

    method OpenExplicitly(i: nat) returns (status: Status)
      requires Consistent() && i < zones.Length && zones[i].kind != Conventional
      modifies this`nrImpOpen, this`nrExpOpen, zones
      ensures Consistent() && WithinBudget(old(nrImpOpen + nrExpOpen))
      ensures OpenedAt(limit, old(zones[..]), zones[..], i, status)
    {
      assert ZoneOk(zones[..][i]);
      if zones[i].cond == ExpOpen || zones[i].cond == Full {
        return Ok;
      }
      if nrExpOpen + 1 > limit {
        return NoResources;
      }
      if zones[i].cond == ImpOpen {
        Close(i);
      } else {
        assert zones[..] == zones[..][i := CloseZone(zones[i])];
      }
      OpenShut(i);
      status := Ok;
    }

    /** A zone that is empty or closed is opened explicitly. */
    method OpenShut(i: nat)
      requires Consistent() && i < zones.Length && (zones[i].cond == Empty || zones[i].cond == Closed)
      modifies this`nrImpOpen, this`nrExpOpen, zones
      ensures Consistent() && zones[..] == OpenStep(old(zones[..]), limit, i)
      ensures nrExpOpen == old(nrExpOpen) + 1
      ensures nrImpOpen + nrExpOpen == old(nrImpOpen + nrExpOpen) +
                if old(nrImpOpen + nrExpOpen) >= limit && old(nrImpOpen) > 0 then 0 else 1
    {
      ghost var zs := zones[..];
      ghost var v := FirstImpOpen(zs);
      if v < |zs| {
        CountAtLeast(zs, v, ImpOpen);
      } else {
        CountNone(zs, ImpOpen);
      }
      ghost var evicted, victim := Open(i, true);
      if evicted {
        FirstIs(zs, victim);
      }
    }

    /** One turn of the loop of OPEN ALL. */
    method OpenTurn(i: nat, ghost goal: seq<Zone>)
      requires Consistent() && i < zones.Length && OpenFrom(zones[..], limit, i) == goal
      modifies this`nrImpOpen, this`nrExpOpen, zones
      ensures Consistent() && OpenFrom(zones[..], limit, i + 1) == goal
    {
      if zones[i].cond == Closed {
        OpenShut(i);
      }
    }

    /** zbc_open_zone with ALL set: refused when the explicitly open and the closed zones
        exceed the budget. */
    method OpenAll() returns (status: Status)
      requires Consistent()
      modifies this`nrImpOpen, this`nrExpOpen, zones
      ensures Consistent() && OpenAllDone(limit, old(zones[..]), zones[..], status)
    {
      var nrClosed := CountClosed();
      if nrExpOpen + nrClosed > limit {
        return NoResources;
      }
      ghost var goal := OpenFrom(zones[..], limit, 0);
      for i := 0 to zones.Length
        invariant Consistent() && OpenFrom(zones[..], limit, i) == goal
      {
        OpenTurn(i, goal);
      }
      status := Ok;
    }

    method CountClosed() returns (n: nat)
      ensures n == Count(zones[..], Closed)
    {
      n := 0;
      for i := 0 to zones.Length
        invariant n == Count(zones[..i], Closed)
      {
        assert zones[..i + 1][..i] == zones[..i];
        if zones[i].cond == Closed {
          n := n + 1;
        }
      }
      assert zones[..zones.Length] == zones[..];
    }

    /** One turn of the loop of zbc_write_check_zones, for `count` of the n blocks at lba. */
    method CheckTurn(lba: nat, n: nat, kind: Kind) returns (status: Status, lba': nat, n': nat)
      requires Consistent() && n > 0 && lba + n <= capacity
      ensures n' < n && lba' + n' == lba + n
      ensures Checked(zones[..], Div(lba, zoneSize), kind, lba, n) ==
              if status != Ok || n' == 0 then status else Checked(zones[..], Div(lba', zoneSize), kind, lba', n')
    {
      var found, i := GetZone(lba, false);
      var z := zones[i];
      status := CheckedOne(z, kind, lba, n);
      CheckedStep(zones[..], zoneSize, capacity, i, kind, lba, n);
      lba' := if lba + n > End(z) then End(z) else lba + n;
      n' := lba + n - lba';
    }

    /** zbc_write_check_zones */
    method CheckZones(lba0: nat, n0: nat) returns (status: Status)
      requires Consistent() && lba0 + n0 <= capacity
      ensures n0 == 0 ==> status == Ok
      ensures n0 > 0 ==> Div(lba0, zoneSize) < zones.Length &&
                         status == Checked(zones[..], Div(lba0, zoneSize), zones[Div(lba0, zoneSize)].kind, lba0, n0)
    {
      if n0 == 0 {
        return Ok;
      }
      var found, i := GetZone(lba0, false);
      var kind := zones[i].kind;
      var lba: nat, n: nat := lba0, n0;
      ghost var all := Checked(zones[..], i, kind, lba0, n0);
      while n > 0
        invariant lba + n == lba0 + n0
        invariant all == if n == 0 then Ok else Checked(zones[..], Div(lba, zoneSize), kind, lba, n)
        decreases n
      {
        status, lba, n := CheckTurn(lba, n, kind);
        if status != Ok {
          return;
        }
      }
      status := Ok;
    }

    method OpenImplicitly(i: nat)
      requires Consistent() && i < zones.Length && (zones[i].cond == Empty || zones[i].cond == Closed) && nrExpOpen < limit
      modifies this`nrImpOpen, this`nrExpOpen, zones
      ensures Consistent() && WithinBudget(old(nrImpOpen + nrExpOpen))
      ensures zones[..] == RoomMade(old(zones[..]), limit)[i := old(zones[i]).(cond := ImpOpen)]
    {
      ghost var zs := zones[..];
      ghost var v := FirstImpOpen(zs);
      if v < |zs| {
        CountAtLeast(zs, v, ImpOpen);
      } else {
        CountNone(zs, ImpOpen);
      }
      ghost var evicted, victim := Open(i, false);
      if evicted {
        FirstIs(zs, victim);
      }
    }

    /** The part of a turn of zbc_write's loop that makes sure the zone is open. */
    method Prepare(i: nat) returns (status: Status)
      requires Consistent() && i < zones.Length && zones[i].cond != Full
      modifies this`nrImpOpen, this`nrExpOpen, zones
      ensures Consistent() && WithinBudget(old(nrImpOpen + nrExpOpen))
      ensures status == if OutOfRoom(old(zones[..]), i, limit) then NoResources else Ok
      ensures status == NoResources ==> zones[..] == old(zones[..])
      ensures status == Ok ==> zones[..] == Prepared(old(zones[..]), limit, i)
    {
      ghost var zs := zones[..];
      assert ZoneOk(zs[i]);
      if zones[i].kind != Conventional && !IsOpen(zones[i]) {
        if nrExpOpen >= limit {
          return NoResources;
        }
        OpenImplicitly(i);
      }
      status := Ok;
    }

    /** The rest of the turn: the blocks reach the file and the write pointer follows. */
    method Store(i: nat, lba: nat, chunk: seq<Block>)
      requires Consistent() && i < zones.Length && chunk != []
      requires zones[i].kind != Conventional ==> IsOpen(zones[i])
      requires zones[i].start <= lba && lba + |chunk| <= End(zones[i])
      requires zones[i].kind == SeqRequired ==> lba == zones[i].wp
      modifies this`nrImpOpen, this`nrExpOpen, this`data, zones
      ensures Consistent() && WithinBudget(old(nrImpOpen + nrExpOpen))
      ensures zones[..] == old(zones[..])[i := Wrote(old(zones[i]), lba, |chunk|)]
      ensures lba + |chunk| <= |old(data)| && data == Put(old(data), lba, chunk)
    {
      assert Placed(zones[..][i], i, zoneSize, capacity);
      data := Put(data, lba, chunk);
      MovePointer(i, lba, |chunk|);
    }

    /** The write pointer of a sequential zone follows n blocks written at lba. */
    method MovePointer(i: nat, lba: nat, n: nat)
      requires Consistent() && i < zones.Length && n > 0
      requires zones[i].kind != Conventional ==> IsOpen(zones[i])
      requires zones[i].start <= lba && lba + n <= End(zones[i])
      requires zones[i].kind == SeqRequired ==> lba == zones[i].wp
      modifies this`nrImpOpen, this`nrExpOpen, zones
      ensures Consistent() && WithinBudget(old(nrImpOpen + nrExpOpen))
      ensures zones[..] == old(zones[..])[i := Wrote(old(zones[i]), lba, n)]
    {
      var z := zones[i];
      assert ZoneOk(zones[..][i]);
      if z.kind == Conventional {
        assert zones[..] == zones[..][i := z];
        return;
      }
      var wp := if z.kind == SeqRequired then z.wp + n
                else if lba + n >= z.wp then lba + n else z.wp;
      if wp >= End(z) {
        Close(i);
        Set(i, zones[i].(wp := End(z), cond := Full), nrImpOpen, nrExpOpen);
      } else {
        Set(i, z.(wp := wp), nrImpOpen, nrExpOpen);
      }
    }

    /** Part way through a write to zone i: `done` blocks of it have been written. */
    ghost predicate Writing(zs: seq<Zone>, data0: seq<Block>, i: nat, lba: nat, blocks: seq<Block>, done: nat, before: nat)
      reads this, zones
    {
      && Consistent() && WithinBudget(before)
      && i < |zs| && zones[..] == (if done == 0 then zs else AfterWrite(zs, limit, i, lba, done))
      && done <= |blocks| && lba + |blocks| <= |data0| && data == Put(data0, lba, blocks[..done])
    }

    /** The same, with the zone open. */
    ghost predicate Ready(zs: seq<Zone>, data0: seq<Block>, i: nat, lba: nat, blocks: seq<Block>, done: nat, before: nat)
      reads this, zones
    {
      && Consistent() && WithinBudget(before)
      && i < |zs| && zones[..] == AfterWrite(zs, limit, i, lba, done)
      && done <= |blocks| && lba + |blocks| <= |data0| && data == Put(data0, lba, blocks[..done])
    }

    method PrepareTurn(i: nat, lba: nat, blocks: seq<Block>, done: nat, ghost zs: seq<Zone>, ghost data0: seq<Block>, ghost before: nat)
      returns (status: Status)
      requires Writing(zs, data0, i, lba, blocks, done, before) && done < |blocks|
      requires ZoneOk(zs[i]) && zs[i].start <= lba && lba + |blocks| <= End(zs[i]) && Writable(zs[i], lba, |blocks|)
      modifies this`nrImpOpen, this`nrExpOpen, zones
      ensures if status == Ok then Ready(zs, data0, i, lba, blocks, done, before) else Writing(zs, data0, i, lba, blocks, done, before)
      ensures status == if done == 0 && OutOfRoom(zs, i, limit) then NoResources else Ok
    {
      StillOpen(zs[i], lba, done, |blocks|);
      status := Prepare(i);
    }

    method StoreTurn(i: nat, lba: nat, blocks: seq<Block>, done: nat, count: nat, ghost zs: seq<Zone>, ghost data0: seq<Block>, ghost before: nat)
      returns (done': nat)
      requires Ready(zs, data0, i, lba, blocks, done, before) && 0 < count && done + count <= |blocks|
      requires ZoneOk(zs[i]) && zs[i].start <= lba && lba + |blocks| <= End(zs[i]) && Writable(zs[i], lba, |blocks|)
      modifies this`nrImpOpen, this`nrExpOpen, this`data, zones
      ensures done' == done + count && Writing(zs, data0, i, lba, blocks, done', before)
    {
      StillOpen(zs[i], lba, done, |blocks|);
      PutTwice(data0, lba, blocks, done, count);
      AfterWriteTwice(zs, limit, i, lba, done, count);
      Store(i, lba + done, blocks[done..done + count]);
      done' := done + count;
    }

    /** One turn of the loop of zbc_write; `accepted` is what pwrite takes. */
    method Turn(i: nat, lba: nat, blocks: seq<Block>, n: nat, accepted: nat, ghost zs: seq<Zone>, ghost data0: seq<Block>, ghost before: nat)
      returns (status: Status, n': nat)
      requires Writing(zs, data0, i, lba, blocks, n, before) && n < |blocks|
      requires ZoneOk(zs[i]) && zs[i].start <= lba && lba + |blocks| <= End(zs[i]) && Writable(zs[i], lba, |blocks|)
      modifies this`nrImpOpen, this`nrExpOpen, this`data, zones
      ensures status == Ok ==> n < n' <= |blocks| && Writing(zs, data0, i, lba, blocks, n', before)
      ensures status == NoResources ==> n == 0 && Writing(zs, data0, i, lba, blocks, n, before)
      ensures status == MediumError ==> Ready(zs, data0, i, lba, blocks, n, before)
      ensures status == if n == 0 && OutOfRoom(zs, i, limit) then NoResources else if accepted == 0 then MediumError else Ok
    {
      var count := Min(accepted, |blocks| - n);
      n' := n;
      status := PrepareTurn(i, lba, blocks, n, zs, data0, before);
      if status != Ok {
        return;
      }
      if count == 0 {
        return MediumError, n';
      }
      n' := StoreTurn(i, lba, blocks, n, count, zs, data0, before);
    }

    /** The loop of zbc_write. */
    method WriteLoop(i: nat, lba: nat, blocks: seq<Block>, accepted: nat -> nat, ghost zs: seq<Zone>, ghost data0: seq<Block>, ghost before: nat)
      returns (status: Status, ghost done: nat)
      requires Writing(zs, data0, i, lba, blocks, 0, before)
      requires ZoneOk(zs[i]) && zs[i].start <= lba && lba + |blocks| <= End(zs[i]) && Writable(zs[i], lba, |blocks|)
      modifies this`nrImpOpen, this`nrExpOpen, this`data, zones
      ensures (status == Ok <==> done == |blocks|)
      ensures status in {Ok, NoResources, MediumError} && (status == NoResources <==> blocks != [] && OutOfRoom(zs, i, limit))
      ensures status == MediumError ==> exists k :: accepted(k) == 0
      ensures status == NoResources ==> done == 0
      ensures if status == MediumError then Ready(zs, data0, i, lba, blocks, done, before) else Writing(zs, data0, i, lba, blocks, done, before)
    {
      var n, k := 0, 0;
      while n < |blocks|
        invariant Writing(zs, data0, i, lba, blocks, n, before) && (n > 0 ==> !OutOfRoom(zs, i, limit))
      {
        var n';
        status, n' := Turn(i, lba, blocks, n, accepted(k), zs, data0, before);
        if status != Ok {
          done := n;
          return;
        }
        n, k := n', k + 1;
      }
      status, done := Ok, n;
    }

    method WriteZone(i: nat, lba: nat, blocks: seq<Block>, accepted: nat -> nat) returns (status: Status, ghost done: nat)
      requires Consistent() && i < zones.Length && blocks != []
      requires zones[i].start <= lba && lba + |blocks| <= End(zones[i]) && Writable(zones[i], lba, |blocks|)
      modifies this`nrImpOpen, this`nrExpOpen, this`data, zones
      ensures Consistent() && WithinBudget(old(nrImpOpen + nrExpOpen))
      ensures ZoneWritten(limit, old(Held()), Held(), i, lba, blocks, status, done)
      ensures status == MediumError ==> exists k :: accepted(k) == 0
    {
      assert ZoneOk(zones[..][i]) && Placed(zones[..][i], i, zoneSize, capacity);
      assert blocks[..0] == [];
      status, done := WriteLoop(i, lba, blocks, accepted, zones[..], data, nrImpOpen + nrExpOpen);
    }

    /** What zbc_write checks before its loop. */
    method Admits(lba: nat, n: nat) returns (status: Status)
      requires Consistent()
      ensures status == WriteStatus(Form(), zones[..], lba, n)
    {
      if lba + n > capacity {
        return OutOfRange;
      }
      status := CheckZones(lba, n);
      if status != Ok || n == 0 {
        return;
      }
      var found, i := GetZone(lba, false);
      if lba + n > End(zones[i]) {
        status := BoundaryViolation;
      }
    }

    method WriteAdmitted(lba: nat, blocks: seq<Block>, accepted: nat -> nat) returns (status: Status, ghost done: nat)
      requires Consistent() && WriteStatus(Form(), zones[..], lba, |blocks|) == Ok && blocks != []
      modifies this`nrImpOpen, this`nrExpOpen, this`data, zones
      ensures Consistent() && WithinBudget(old(nrImpOpen + nrExpOpen))
      ensures WriteDone(Form(), old(Held()), Held(), lba, blocks, status, done)
      ensures status == MediumError ==> exists k :: accepted(k) == 0
    {
      MayWrite(Form(), zones[..], lba, |blocks|);
      status, done := WriteZone(Div(lba, zoneSize), lba, blocks, accepted);
    }

    /** zbc_write */
    method Write(lba: nat, blocks: seq<Block>, accepted: nat -> nat) returns (status: Status, ghost done: nat)
      requires Consistent()
      modifies this`nrImpOpen, this`nrExpOpen, this`data, zones
      ensures Consistent() && WithinBudget(old(nrImpOpen + nrExpOpen))
      ensures WriteDone(Form(), old(Held()), Held(), lba, blocks, status, done)
      ensures status == MediumError ==> exists k :: accepted(k) == 0
    {
      done := 0;
      status := Admits(lba, |blocks|);
      if status != Ok || blocks == [] {
        return;
      }
      status, done := WriteAdmitted(lba, blocks, accepted);
    }
  }

  /** Where a zone ends the next one begins. */
  lemma NextBegins(zs: seq<Zone>, zoneSize: nat, capacity: nat, i: nat)
    requires Tiled(zs, zoneSize, capacity) && AllOk(zs) && i < |zs| && End(zs[i]) < capacity
    ensures i + 1 < |zs| && Div(End(zs[i]), zoneSize) == i + 1
  {
    NextZone(zs, zoneSize, capacity, i);
    assert ZoneOk(zs[i + 1]);
    ZoneOfUnique(zs, zoneSize, capacity, End(zs[i]), i + 1);
  }

  lemma CheckedStep(zs: seq<Zone>, zoneSize: nat, capacity: nat, i: nat, kind: Kind, lba: nat, n: nat)
    requires Tiled(zs, zoneSize, capacity) && AllOk(zs) && i < |zs| && n > 0 && lba + n <= capacity
    ensures Checked(zs, i, kind, lba, n) ==
            if CheckedOne(zs[i], kind, lba, n) != Ok || lba + n <= End(zs[i]) then CheckedOne(zs[i], kind, lba, n)
            else Checked(zs, Div(End(zs[i]), zoneSize), kind, End(zs[i]), lba + n - End(zs[i]))
  {
    if lba + n > End(zs[i]) {
      NextBegins(zs, zoneSize, capacity, i);
    }
  }

  /** A write that may begin finds its zone writable. */
  lemma MayWrite(g: Shape, zs: seq<Zone>, lba: nat, n: nat)
    requires Tiled(zs, g.zoneSize, g.capacity) && n > 0 && WriteStatus(g, zs, lba, n) == Ok
    ensures var i := Div(lba, g.zoneSize);
            i < |zs| && zs[i].start <= lba && lba + n <= End(zs[i]) && Writable(zs[i], lba, n)
  {
    ZoneOf(zs, g.zoneSize, g.capacity, lba);
  }

  /** Inside one zone a write may begin exactly if the zone is writable. */
  lemma MayWriteExactly(g: Shape, zs: seq<Zone>, lba: nat, n: nat)
    requires Tiled(zs, g.zoneSize, g.capacity) && n > 0 && lba + n <= g.capacity
    ensures Div(lba, g.zoneSize) < |zs|
    ensures lba + n <= End(zs[Div(lba, g.zoneSize)]) ==>
              (WriteStatus(g, zs, lba, n) == Ok <==> Writable(zs[Div(lba, g.zoneSize)], lba, n))
  {
    ZoneOf(zs, g.zoneSize, g.capacity, lba);
  }

  /** A zone with more to be written is open after the first blocks. */
  lemma StillOpen(z: Zone, lba: nat, done: nat, n: nat)
    requires ZoneOk(z) && z.start <= lba && lba + n <= End(z) && Writable(z, lba, n) && done < n
    ensures done > 0 ==> Opened(Wrote(Opened(z), lba, done)) == Wrote(Opened(z), lba, done)
    ensures z.kind == SeqRequired ==> Wrote(Opened(z), lba, done).wp == lba + done
  {
  }

  lemma WroteTwice(z: Zone, lba: nat, a: nat, b: nat)
    requires ZoneOk(z) && z.start <= lba && lba + a + b <= End(z) && Writable(z, lba, a + b) && b > 0
    ensures Wrote(if a == 0 then Opened(z) else Wrote(Opened(z), lba, a), lba + a, b) == Wrote(Opened(z), lba, a + b)
  {
  }

  /** A zone that is about to be written. */
  function Opened(z: Zone): Zone {
    if z.kind == Conventional || IsOpen(z) then z else z.(cond := ImpOpen)
  }

  /** An open zone after n blocks have been written at lba. */
  function Wrote(z: Zone, lba: nat, n: nat): (r: Zone)
    ensures SamePlace(z, r)
  {
    if z.kind == Conventional then z
    else
      var wp := if z.kind == SeqPreferred && z.wp > lba + n then z.wp else lba + n;
      if wp >= End(z) then z.(wp := End(z), cond := Full) else z.(wp := wp)
  }

  /** Every zone but i is as it was, or has been closed to make room. */
  predicate OthersKept(zs: seq<Zone>, zs': seq<Zone>, i: nat) {
    |zs'| == |zs| && forall k :: 0 <= k < |zs| && k != i ==> Bystander(zs[k], zs'[k])
  }

  /** What the guest sees in a block: stored data, or zeros from the write pointer of a
      sequential zone on. */
  function ViewAt(zs: seq<Zone>, zoneSize: nat, data: seq<Block>, lba: nat): Block
    requires zoneSize > 0
  {
    if Div(lba, zoneSize) < |zs| && zs[Div(lba, zoneSize)].kind != Conventional && lba >= zs[Div(lba, zoneSize)].wp then 0
    else if lba < |data| then data[lba] else 0
  }

  lemma OneZone(zs: seq<Zone>, zoneSize: nat, capacity: nat, lba: nat, n: nat)
    requires Tiled(zs, zoneSize, capacity) && 0 < n && lba + n <= capacity
    requires Div(lba, zoneSize) < |zs| && lba + n <= End(zs[Div(lba, zoneSize)])
    ensures forall x :: lba <= x < lba + n ==> Div(x, zoneSize) == Div(lba, zoneSize)
  {
    ZoneOf(zs, zoneSize, capacity, lba);
    forall x | lba <= x < lba + n ensures Div(x, zoneSize) == Div(lba, zoneSize) {
      ZoneOfUnique(zs, zoneSize, capacity, x, Div(lba, zoneSize));
    }
  }

  /** A write of n blocks at lba may go to zone z: the zone is not full, and if sequential
      writes are required it starts at the write pointer and stays in the zone. */
  predicate Writable(z: Zone, lba: nat, n: nat) {
    z.cond != Full && (z.kind == SeqRequired ==> lba == z.wp && lba + n <= End(z))
  }

  /** The first implicitly open zone. */
  function FirstImpOpen(zs: seq<Zone>): (v: nat)
    ensures v <= |zs| && (v < |zs| ==> zs[v].cond == ImpOpen)
    ensures forall k :: 0 <= k < v ==> zs[k].cond != ImpOpen
  {
    if zs == [] then 0
    else
      var v := FirstImpOpen(zs[..|zs| - 1]);
      if v < |zs| - 1 || zs[|zs| - 1].cond == ImpOpen then v else |zs|
  }

  lemma FirstIs(zs: seq<Zone>, v: nat)
    requires v < |zs| && zs[v].cond == ImpOpen && forall k :: 0 <= k < v ==> zs[k].cond != ImpOpen
    ensures FirstImpOpen(zs) == v
  {
  }

  /** The first implicitly open zone is closed if the budget is used up. */
  function RoomMade(zs: seq<Zone>, limit: nat): (r: seq<Zone>)
    ensures |r| == |zs|
  {
    var v := FirstImpOpen(zs);
    if Count(zs, ImpOpen) + Count(zs, ExpOpen) >= limit && v < |zs| then zs[v := CloseZone(zs[v])] else zs
  }

  /** Opening closed zone i explicitly. */
  function OpenStep(zs: seq<Zone>, limit: nat, i: nat): (r: seq<Zone>)
    requires i < |zs|
    ensures |r| == |zs|
  {
    RoomMade(zs, limit)[i := zs[i].(cond := ExpOpen)]
  }

  /** The loop of OPEN ALL from zone i on. */
  function OpenFrom(zs: seq<Zone>, limit: nat, i: nat): seq<Zone>
    requires i <= |zs|
    decreases |zs| - i
  {
    if i == |zs| then zs
    else OpenFrom(if zs[i].cond == Closed then OpenStep(zs, limit, i) else zs, limit, i + 1)
  }

  /** What opening one zone may do to another: it may close it to make room. */
  predicate Bystander(z: Zone, z': Zone) {
    z' == z || (z.cond == ImpOpen && z' == CloseZone(z))
  }

  // ---- What the guest sees ------------------------------------------------------------------

  /** A zone that keeps its kind and its write pointer looks the same: opening, closing and
      eviction change nothing the guest can read. */
  lemma SameView(zs: seq<Zone>, zs': seq<Zone>, zoneSize: nat, data: seq<Block>, x: nat)
    requires zoneSize > 0 && |zs'| == |zs|
    requires Div(x, zoneSize) < |zs| ==>
               zs'[Div(x, zoneSize)].kind == zs[Div(x, zoneSize)].kind && zs'[Div(x, zoneSize)].wp == zs[Div(x, zoneSize)].wp
    ensures ViewAt(zs', zoneSize, data, x) == ViewAt(zs, zoneSize, data, x)
  {
  }

  /** A write past the write pointer of a sequential-write-preferred zone leaves a gap. */
  predicate InGap(z: Zone, lba: nat, x: nat) {
    z.kind == SeqPreferred && z.wp <= x < lba
  }

  /** After a write the guest sees the blocks written, and everything else as before; except
      that a gap it leaves behind shows whatever the file held there. */
  lemma WriteSeen(zs: seq<Zone>, zs': seq<Zone>, zoneSize: nat, capacity: nat, data: seq<Block>, i: nat, lba: nat, blocks: seq<Block>, x: nat)
    requires Tiled(zs, zoneSize, capacity) && AllOk(zs) && |data| == capacity && blocks != []
    requires i == Div(lba, zoneSize) < |zs| && lba + |blocks| <= End(zs[i]) && lba + |blocks| <= capacity
    requires Writable(zs[i], lba, |blocks|)
    requires OthersKept(zs, zs', i) && zs'[i] == Wrote(Opened(zs[i]), lba, |blocks|)
    requires x < capacity
    ensures ViewAt(zs', zoneSize, Put(data, lba, blocks), x)
         == if lba <= x < lba + |blocks| then blocks[x - lba]
            else if Div(x, zoneSize) == i && InGap(zs[i], lba, x) then data[x]
            else ViewAt(zs, zoneSize, data, x)
  {
    PutAt(data, lba, blocks, x);
    ZoneOf(zs, zoneSize, capacity, x);
    ZoneOf(zs, zoneSize, capacity, lba);
    var j := Div(x, zoneSize);
    assert ZoneOk(zs[i]) && ZoneOk(zs[j]);
    if lba <= x < lba + |blocks| {
      ZoneOfUnique(zs, zoneSize, capacity, x, i);
    } else if j != i {
      assert Bystander(zs[j], zs'[j]);
    }
  }

  lemma GapDecides(zs: seq<Zone>, zs': seq<Zone>, zoneSize: nat, capacity: nat, data: seq<Block>, i: nat, lba: nat, blocks: seq<Block>)
    requires Tiled(zs, zoneSize, capacity) && AllOk(zs) && |data| == capacity && blocks != []
    requires i == Div(lba, zoneSize) < |zs| && lba + |blocks| <= End(zs[i]) && lba + |blocks| <= capacity
    requires Writable(zs[i], lba, |blocks|)
    requires OthersKept(zs, zs', i) && zs'[i] == Wrote(Opened(zs[i]), lba, |blocks|)
    ensures (forall x :: 0 <= x < capacity ==> SeenAsWritten(zs, zs', zoneSize, data, lba, blocks, x))
            <==> zs[i].kind != SeqPreferred || forall x :: zs[i].wp <= x < lba ==> data[x] == 0
  {
    forall x | 0 <= x < capacity
      ensures SeenAsWritten(zs, zs', zoneSize, data, lba, blocks, x) <==>
              (Div(x, zoneSize) == i && InGap(zs[i], lba, x) ==> data[x] == 0)
    {
      WriteSeen(zs, zs', zoneSize, capacity, data, i, lba, blocks, x);
    }
    ZoneOf(zs, zoneSize, capacity, lba);
    assert ZoneOk(zs[i]);
    if zs[i].kind == SeqPreferred {
      forall x | zs[i].wp <= x < lba ensures Div(x, zoneSize) == i && (SeenAsWritten(zs, zs', zoneSize, data, lba, blocks, x) <==> data[x] == 0) {
        ZoneOfUnique(zs, zoneSize, capacity, x, i);
      }
    }
  }

  ghost predicate SeenAsWritten(zs: seq<Zone>, zs': seq<Zone>, zoneSize: nat, data: seq<Block>, lba: nat, blocks: seq<Block>, x: nat)
    requires zoneSize > 0 && lba + |blocks| <= |data|
  {
    ViewAt(zs', zoneSize, Put(data, lba, blocks), x) == if lba <= x < lba + |blocks| then blocks[x - lba] else ViewAt(zs, zoneSize, data, x)
  }

  /** Making zone i ready closes at most one other zone. */
  lemma PreparedKeeps(zs: seq<Zone>, limit: nat, i: nat, z: Zone)
    requires i < |zs|
    ensures OthersKept(zs, Prepared(zs, limit, i)[i := z], i)
  {
  }

  /** So what a WRITE stored is seen as exactly that write if and only if it left no gap or the
      file is zero in the gap. */
  lemma WriteIsWrite(g: Shape, m: Media, m': Media, lba: nat, blocks: seq<Block>, status: Status, done: nat)
    requires g.zoneSize > 0 && WriteDone(g, m, m', lba, blocks, status, done) && done > 0
    requires Tiled(m.zs, g.zoneSize, g.capacity) && AllOk(m.zs) && |m.data| == g.capacity
    ensures var i := Div(lba, g.zoneSize);
            && i < |m.zs| && m'.data == Put(m.data, lba, blocks[..done])
            && ((forall x :: 0 <= x < g.capacity ==> SeenAsWritten(m.zs, m'.zs, g.zoneSize, m.data, lba, blocks[..done], x))
                <==> m.zs[i].kind != SeqPreferred || forall x :: m.zs[i].wp <= x < lba ==> m.data[x] == 0)
  {
    var i := Div(lba, g.zoneSize);
    PreparedKeeps(m.zs, g.limit, i, Wrote(Opened(m.zs[i]), lba, done));
    GapDecides(m.zs, m'.zs, g.zoneSize, g.capacity, m.data, i, lba, blocks[..done]);
  }

  /** After a reset a sequential zone reads as zeros; after a finish it shows what the file
      holds from the old write pointer on. */
  lemma ResetAndFinishSeen(zs: seq<Zone>, zoneSize: nat, capacity: nat, data: seq<Block>, i: nat, empty: bool, x: nat)
    requires Tiled(zs, zoneSize, capacity) && AllOk(zs) && |data| == capacity && i < |zs| && x < capacity
    requires zs[i].kind != Conventional
    ensures ViewAt(zs[i := ResetZone(zs[i])], zoneSize, data, x)
         == if Div(x, zoneSize) == i then 0 else ViewAt(zs, zoneSize, data, x)
    ensures ViewAt(zs[i := FinishZone(zs[i], empty)], zoneSize, data, x)
         == if Div(x, zoneSize) == i && (zs[i].cond != Empty || empty) then data[x] else ViewAt(zs, zoneSize, data, x)
  {
    ZoneOf(zs, zoneSize, capacity, x);
    assert ZoneOk(zs[i]);
  }

  // ---- zbc_format_meta --------------------------------------------------------------------

  /** The configured number of conventional zones. */
  datatype Conv = OnePercent | Exactly(n: nat)

  function ConvZones(conv: Conv, nrZones: nat): nat {
    match conv
    case OnePercent => if nrZones / 100 == 0 then 1 else nrZones / 100
    case Exactly(n) => n
  }

  /** The budget of open zones: at most half the sequential zones, but never none. */
  function OpenBudget(openNum: nat, nrSeq: nat): nat {
    if openNum >= nrSeq / 2 then (if nrSeq / 2 == 0 then 1 else nrSeq / 2) else openNum
  }

  method FormatMeta(kind: Kind, capacity: nat, zoneSize: nat, conv: Conv, openNum: nat, data: seq<Block>) returns (dev: ZonedDevice?)
    requires capacity > 0 && zoneSize > 0 && kind != Conventional && openNum > 0 && |data| == capacity
    ensures dev == null <==> conv.Exactly? && conv.n >= Div(capacity + zoneSize - 1, zoneSize)
    ensures dev != null ==>
              && fresh(dev) && fresh(dev.zones) && dev.Valid() && dev.limit > 0 && dev.nrImpOpen == 0 && dev.nrExpOpen == 0
              && forall i :: 0 <= i < dev.zones.Length ==> Formatted(dev.zones[i], i, kind, ConvZones(conv, dev.zones.Length))
  {
    var nrZones := Div(capacity + zoneSize - 1, zoneSize);
    var nrConv := ConvZones(conv, nrZones);
    if conv.Exactly? && nrConv >= nrZones {
      return null;
    }
    var nrSeq := if nrConv <= nrZones then nrZones - nrConv else 0;
    dev := new ZonedDevice.Format(kind, capacity, zoneSize, nrConv, OpenBudget(openNum, nrSeq), data);
  }

  // ---- Every run ------------------------------------------------------------------------------

  datatype Command =
    | OpenZone(lba: nat)
    | OpenAllZones
    | CloseZones(all: bool, lba: nat)
    | FinishZones(all: bool, lba: nat)
    | ResetZones(all: bool, lba: nat)
    | WriteBlocks(lba: nat, blocks: seq<Block>, accepted: nat -> nat)
    | Reopen

  /** What a command does to what the device holds. */
  ghost predicate Does(g: Shape, c: Command, m: Media, m': Media, status: Status, done: nat)
    requires g.zoneSize > 0
  {
    && (c.WriteBlocks? || m'.data == m.data)
    && match c
       case OpenZone(lba) => OpenDone(g, m.zs, m'.zs, lba, status)
       case OpenAllZones => OpenAllDone(g.limit, m.zs, m'.zs, status)
       case CloseZones(all, lba) => EachZone(g.capacity, m.zs, m'.zs, all, lba, status, CloseZone)
       case FinishZones(all, lba) => EachZone(g.capacity, m.zs, m'.zs, all, lba, status, z => FinishZone(z, !all))
       case ResetZones(all, lba) => EachZone(g.capacity, m.zs, m'.zs, all, lba, status, ResetZone)
       case WriteBlocks(lba, blocks, accepted) =>
         WriteDone(g, m, m', lba, blocks, status, done) && (status == MediumError ==> exists k :: accepted(k) == 0)
       case Reopen => EachZone(g.capacity, m.zs, m'.zs, true, 0, status, CloseZone)
  }

  /** One step of a run.  Only OPEN ALL may open more zones than the budget and than were open
      before. */
  ghost predicate Step(g: Shape, c: Command, m: Media, m': Media, status: Status, done: nat)
    requires g.zoneSize > 0
  {
    && Does(g, c, m, m', status, done)
    && Sound(m'.zs, m'.imp, m'.exp) && Tiled(m'.zs, g.zoneSize, g.capacity)
    && (c.OpenAllZones? || Opens(m'.zs) <= g.limit || Opens(m'.zs) <= Opens(m.zs))
  }

  /** Command k leads from trace[k] to trace[k + 1]. */
  ghost predicate StepAt(g: Shape, cmds: seq<Command>, statuses: seq<Status>, dones: seq<nat>, trace: seq<Media>, k: nat)
    requires g.zoneSize > 0 && |statuses| == |dones| == |cmds| && |trace| == |cmds| + 1 && k < |cmds|
  {
    Step(g, cmds[k], trace[k], trace[k + 1], statuses[k], dones[k])
  }

  /** A run: every command does its step. */
  ghost predicate Run(g: Shape, cmds: seq<Command>, statuses: seq<Status>, dones: seq<nat>, trace: seq<Media>)
    requires g.zoneSize > 0
  {
    && |statuses| == |dones| == |cmds| && |trace| == |cmds| + 1
    && forall k :: 0 <= k < |cmds| ==> StepAt(g, cmds, statuses, dones, trace, k)
  }

  lemma RunPush(g: Shape, cmds: seq<Command>, i: nat, statuses: seq<Status>, dones: seq<nat>, trace: seq<Media>,
                status: Status, done: nat, m: Media)
    requires g.zoneSize > 0 && i < |cmds| && Run(g, cmds[..i], statuses, dones, trace)
    requires Step(g, cmds[i], trace[i], m, status, done)
    ensures Run(g, cmds[..i + 1], statuses + [status], dones + [done], trace + [m])
  {
    var cmds', statuses', dones', trace' := cmds[..i + 1], statuses + [status], dones + [done], trace + [m];
    forall k | 0 <= k < i + 1 ensures StepAt(g, cmds', statuses', dones', trace', k) {
      if k < i {
        assert cmds'[k] == cmds[..i][k];
        assert StepAt(g, cmds[..i], statuses, dones, trace, k);
      }
    }
  }

  /** One command. */
  method Carry(dev: ZonedDevice, c: Command) returns (status: Status, ghost done: nat)
    requires dev.Consistent()
    modifies dev`nrImpOpen, dev`nrExpOpen, dev`data, dev.zones
    ensures dev.Consistent()
    ensures Does(dev.Form(), c, old(dev.Held()), dev.Held(), status, done)
    ensures c.OpenAllZones? || dev.WithinBudget(old(dev.nrImpOpen + dev.nrExpOpen))
  {
    status, done := Ok, 0;
    match c
    case OpenZone(lba) => status := dev.OpenOne(lba);
    case OpenAllZones => status := dev.OpenAll();
    case CloseZones(all, lba) => status := dev.CloseCommand(all, lba);
    case FinishZones(all, lba) => status := dev.FinishCommand(all, lba);
    case ResetZones(all, lba) => status := dev.ResetCommand(all, lba);
    case WriteBlocks(lba, blocks, accepted) => status, done := dev.Write(lba, blocks, accepted);
    case Reopen => dev.InitMeta();
  }

  /** Any sequence of commands on a consistent device: each does what it should, and after each
      the counters are right and the zones tile the capacity with their write pointers where
      their conditions say. */
  method Serve(dev: ZonedDevice, cmds: seq<Command>) returns (statuses: seq<Status>, ghost dones: seq<nat>, ghost trace: seq<Media>)
    requires dev.Consistent()
    modifies dev`nrImpOpen, dev`nrExpOpen, dev`data, dev.zones
    ensures dev.Consistent() && Run(dev.Form(), cmds, statuses, dones, trace)
    ensures trace[0] == old(dev.Held()) && trace[|cmds|] == dev.Held()
  {
    statuses, dones, trace := [], [], [dev.Held()];
    assert cmds[..|cmds|] == cmds;
    for i := 0 to |cmds|
      invariant dev.Consistent() && Run(dev.Form(), cmds[..i], statuses, dones, trace)
      invariant trace[0] == old(dev.Held()) && trace[i] == dev.Held()
    {
      var status, done := Carry(dev, cmds[i]);
      RunPush(dev.Form(), cmds, i, statuses, dones, trace, status, done, dev.Held());
      statuses, dones, trace := statuses + [status], dones + [done], trace + [dev.Held()];
    }
  }
}
