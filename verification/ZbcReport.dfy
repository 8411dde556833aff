/** REPORT ZONES in file_zbc.c: one pass over the zones counts for the header, a second one
    emits descriptors. */
module ZbcReport {
  import opened Arith
  import opened Bytes
  import opened Zbc

  datatype Option =
    | All | OptEmpty | OptImpOpen | OptExpOpen | OptClosed | OptFull | OptReadOnly | OptOffline
    | ResetRecommended | NonSequential | OptNotWp

  /** The reporting options of the CDB, without the PARTIAL bit. */
  function OptionOf(code: nat): (o: Maybe) {
    match code
    case 0x00 => Known(All)
    case 0x01 => Known(OptEmpty)
    case 0x02 => Known(OptImpOpen)
    case 0x03 => Known(OptExpOpen)
    case 0x04 => Known(OptClosed)
    case 0x05 => Known(OptFull)
    case 0x06 => Known(OptReadOnly)
    case 0x07 => Known(OptOffline)
    case 0x10 => Known(ResetRecommended)
    case 0x11 => Known(NonSequential)
    case 0x3f => Known(OptNotWp)
    case _ => Reserved
  }

  datatype Maybe = Known(option: Option) | Reserved

  /** zbc_should_report_zone */
  predicate Matches(z: Zone, o: Option) {
    match o
    case All => true
    case OptEmpty => z.cond == Empty
    case OptImpOpen => z.cond == ImpOpen
    case OptExpOpen => z.cond == ExpOpen
    case OptClosed => z.cond == Closed
    case OptFull => z.cond == Full
    case OptReadOnly => z.cond == ReadOnly
    case OptOffline => z.cond == Offline
    case ResetRecommended => z.reset
    case NonSequential => z.nonSeq
    case OptNotWp => z.cond == NotWp
  }

  /** The zones from zone i on that match. */
  function Matching(zs: seq<Zone>, i: nat, o: Option): seq<Zone>
    decreases if i < |zs| then |zs| - i else 0
  {
    if i >= |zs| then [] else (if Matches(zs[i], o) then [zs[i]] else []) + Matching(zs, i + 1, o)
  }

  /** The first pass: how many descriptors the header announces. */
  method CountPass(zs: seq<Zone>, zoneSize: nat, capacity: nat, lba: nat, o: Option, partial: bool, allocLen: nat) returns (nr: nat)
    requires Tiled(zs, zoneSize, capacity) && lba < capacity && AllOk(zs)
    ensures var all := |Matching(zs, Div(lba, zoneSize), o)|;
            nr == if partial then Min(all, Room(allocLen)) else all
  {
    ZoneOf(zs, zoneSize, capacity, lba);
    var len: nat := if allocLen > 64 then allocLen - 64 else 0;
    var cur: nat, i: nat := lba, Div(lba, zoneSize);
    ghost var all := |Matching(zs, i, o)|;
    nr := 0;
    while cur < capacity
      invariant i <= |zs| && (cur < capacity <==> i < |zs|)
      invariant nr + |Matching(zs, i, o)| == all
      invariant partial ==> nr + Div(len, 64) == Room(allocLen)
      decreases |zs| - i
    {
      if Matches(zs[i], o) {
        if partial && len < 64 {
          return;
        }
        len := if len > 64 then len - 64 else 0;
        nr := nr + 1;
      }
      NextZone(zs, zoneSize, capacity, i);
      cur := End(zs[i]);
      i := i + 1;
    }
  }

  /** How many whole descriptors fit behind the header. */
  function Room(len: nat): nat {
    Div(if len > 64 then len - 64 else 0, 64)
  }

  // ---- Descriptors -------------------------------------------------------------------------

  function KindCode(k: Kind): Byte {
    match k case Conventional => 1 case SeqRequired => 2 case SeqPreferred => 3
  }

  function CondCode(c: Cond): (b: Byte)
    ensures b < 16
  {
    match c
    case NotWp => 0x0 case Empty => 0x1 case ImpOpen => 0x2 case ExpOpen => 0x3
    case Closed => 0x4 case ReadOnly => 0xD case Full => 0xE case Offline => 0xF
  }

  /** The 64 bytes that describe a zone. */
  function Descriptor(z: Zone): (d: seq<Byte>)
    ensures |d| == 64
  {
    [KindCode(z.kind), CondCode(z.cond) * 16 + (if z.reset then 1 else 0) + (if z.nonSeq then 2 else 0)]
    + Zeros(6) + PutBE(z.len, 8) + PutBE(z.start, 8) + PutBE(z.wp, 8) + Zeros(32)
  }

  /** The fields of a descriptor, as a host reads them. */
  lemma DescriptorReads(z: Zone)
    requires z.len < TWO64 && z.start < TWO64 && z.wp < TWO64
    ensures var d := Descriptor(z);
            && d[0] == KindCode(z.kind) && d[1] / 16 == CondCode(z.cond)
            && (z.reset <==> d[1] % 2 == 1) && (z.nonSeq <==> d[1] / 2 % 2 == 1)
            && GetBE(d[8..16]) == z.len && GetBE(d[16..24]) == z.start && GetBE(d[24..32]) == z.wp
  {
    var d := Descriptor(z);
    Pow256Of8();
    PutGetBE(z.len, 8);
    PutGetBE(z.start, 8);
    PutGetBE(z.wp, 8);
    assert d[8..16] == PutBE(z.len, 8);
    assert d[16..24] == PutBE(z.start, 8);
    assert d[24..32] == PutBE(z.wp, 8);
  }

  function Flat(zs: seq<Zone>): seq<Byte> {
    if zs == [] then [] else Flat(zs[..|zs| - 1]) + Descriptor(zs[|zs| - 1])
  }

  /** The 64-byte header: the length of the descriptors and the last block. */
  function Header(nr: nat, capacity: nat): (h: seq<Byte>)
    requires capacity > 0
    ensures |h| == 64
  {
    PutBE(nr * 64, 4) + Zeros(4) + PutBE(capacity - 1, 8) + Zeros(48)
  }

  /** The fields of the header, as a host reads them: the length field holds 64 bytes for each
      zone counted, as long as that fits it. */
  lemma HeaderReads(nr: nat, capacity: nat)
    requires 0 < capacity <= TWO64
    ensures nr * 64 < 0x1_0000_0000 ==> GetBE(Header(nr, capacity)[0..4]) == nr * 64
    ensures GetBE(Header(nr, capacity)[8..16]) == capacity - 1
  {
    var h := Header(nr, capacity);
    Pow256Of8();
    PutGetBE(capacity - 1, 8);
    assert h[8..16] == PutBE(capacity - 1, 8);
    if nr * 64 < 0x1_0000_0000 {
      assert Pow256(4) == 0x1_0000_0000;
      PutGetBE(nr * 64, 4);
      assert h[0..4] == PutBE(nr * 64, 4);
    }
  }

  /** The second pass: whole descriptors while the buffer has room for one. */
  method EmitPass(zs: seq<Zone>, zoneSize: nat, capacity: nat, lba: nat, o: Option, room: nat) returns (bytes: seq<Byte>, ghost emitted: seq<Zone>)
    requires Tiled(zs, zoneSize, capacity) && lba < capacity && AllOk(zs)
    ensures var all := Matching(zs, Div(lba, zoneSize), o);
            emitted == all[..Min(|all|, Div(room, 64))] && bytes == Flat(emitted)
  {
    ZoneOf(zs, zoneSize, capacity, lba);
    var len: nat, cur: nat, i: nat := room, lba, Div(lba, zoneSize);
    ghost var all := Matching(zs, i, o);
    bytes, emitted := [], [];
    while cur < capacity && len >= 64
      invariant i <= |zs| && (cur < capacity <==> i < |zs|)
      invariant Emitted(all, zs, i, o, emitted, bytes)
      invariant |emitted| + Div(len, 64) == Div(room, 64)
      decreases |zs| - i
    {
      EmitNext(all, zs, i, o, emitted, bytes);
      if Matches(zs[i], o) {
        bytes, emitted := bytes + Descriptor(zs[i]), emitted + [zs[i]];
        len := len - 64;
      }
      NextZone(zs, zoneSize, capacity, i);
      cur := End(zs[i]);
      i := i + 1;
    }
    EmitEnd(all, zs, i, o, emitted, bytes, Div(room, 64), Div(len, 64));
  }

  /** Part way through the second pass: the zones emitted and the matching ones left are all
      the matching zones. */
  predicate Emitted(all: seq<Zone>, zs: seq<Zone>, i: nat, o: Option, emitted: seq<Zone>, bytes: seq<Byte>) {
    all == emitted + Matching(zs, i, o) && bytes == Flat(emitted)
  }

  lemma EmitNext(all: seq<Zone>, zs: seq<Zone>, i: nat, o: Option, emitted: seq<Zone>, bytes: seq<Byte>)
    requires i < |zs| && Emitted(all, zs, i, o, emitted, bytes)
    ensures if Matches(zs[i], o) then Emitted(all, zs, i + 1, o, emitted + [zs[i]], bytes + Descriptor(zs[i]))
            else Emitted(all, zs, i + 1, o, emitted, bytes)
  {
    if Matches(zs[i], o) {
      FlatPush(emitted, zs[i]);
      assert emitted + ([zs[i]] + Matching(zs, i + 1, o)) == emitted + [zs[i]] + Matching(zs, i + 1, o);
    } else {
      assert [] + Matching(zs, i + 1, o) == Matching(zs, i + 1, o);
    }
  }

  lemma EmitEnd(all: seq<Zone>, zs: seq<Zone>, i: nat, o: Option, emitted: seq<Zone>, bytes: seq<Byte>, room: nat, left: nat)
    requires Emitted(all, zs, i, o, emitted, bytes) && |emitted| + left == room && (i >= |zs| || left == 0)
    ensures emitted == all[..Min(|all|, room)]
  {
  }

  lemma FlatPush(zs: seq<Zone>, z: Zone)
    ensures Flat(zs + [z]) == Flat(zs) + Descriptor(z)
  {
    assert (zs + [z])[..|zs|] == zs;
  }

  /** zbc_report_zones: `bytes` is what reaches the buffer, from its start.  The header counts
      every matching zone, or with PARTIAL those that fit the allocation length; the
      descriptors are the longest prefix of the matching zones that fits the buffer. */
  method Report(zs: seq<Zone>, zoneSize: nat, capacity: nat, lba: nat, code: nat, partial: bool, allocLen: nat, bufLen: nat)
    returns (status: Status, bytes: seq<Byte>, ghost nr: nat, ghost emitted: seq<Zone>)
    requires Tiled(zs, zoneSize, capacity) && AllOk(zs)
    ensures status == Ok <==> OptionOf(code).Known? && lba < capacity
    ensures status != Ok ==> bytes == []
    ensures status == Ok ==>
              var all := Matching(zs, Div(lba, zoneSize), OptionOf(code).option);
              && nr == (if partial then Min(|all|, Room(allocLen)) else |all|)
              && emitted == all[..Min(|all|, if bufLen < 64 then 0 else Room(bufLen))]
              && bytes == Header(nr, capacity)[..Min(64, bufLen)] + Flat(emitted)
    ensures status == Ok && partial && bufLen == allocLen ==> nr == |emitted|
  {
    bytes, nr, emitted := [], 0, [];
    var o := OptionOf(code);
    if o.Reserved? {
      return InvalidField, [], 0, [];
    }
    if lba >= capacity {
      return OutOfRange, [], 0, [];
    }
    var count := CountPass(zs, zoneSize, capacity, lba, o.option, partial, allocLen);
    nr := count;
    bytes := Header(count, capacity)[..Min(64, bufLen)];
    if bufLen < 64 {
      assert bytes == bytes + Flat([]);
      return Ok, bytes, nr, [];
    }
    var more;
    more, emitted := EmitPass(zs, zoneSize, capacity, lba, o.option, bufLen - 64);
    return Ok, bytes + more, nr, emitted;
  }

  /** Every zone reported matches and starts at or after the zone asked for, in order. */
  lemma {:induction false} MatchingOnly(zs: seq<Zone>, i: nat, o: Option, k: nat)
    requires k < |Matching(zs, i, o)|
    ensures exists j :: i <= j < |zs| && Matching(zs, i, o)[k] == zs[j] && Matches(zs[j], o) && |Matching(zs, j, o)| == |Matching(zs, i, o)| - k
    decreases |zs| - i
  {
    if Matches(zs[i], o) {
      if k > 0 {
        MatchingOnly(zs, i + 1, o, k - 1);
      }
    } else {
      MatchingOnly(zs, i + 1, o, k);
    }
  }
}
