/** What the blocks of a zoned device show to the guest, over whole runs of commands. */
module ZbcView {
  import opened Arith
  import opened Blocks
  import opened Zbc

  /** Blocks that command c wrote include x. */
  predicate Covers(c: Command, done: nat, x: nat) {
    c.WriteBlocks? && done <= |c.blocks| && c.lba <= x < c.lba + done
  }

  /** The block last written to x among the first n commands, or what it held before. */
  function LastWritten(cmds: seq<Command>, dones: seq<nat>, x: nat, n: nat, initial: Block): Block
    requires n <= |cmds| == |dones|
  {
    if n == 0 then initial
    else if Covers(cmds[n - 1], dones[n - 1], x) then cmds[n - 1].blocks[x - cmds[n - 1].lba]
    else LastWritten(cmds, dones, x, n - 1, initial)
  }

  /** RESET or FINISH is for this zone. */
  predicate Hits(all: bool, lba: nat, status: Status, z: Zone) {
    status == Ok && (all || lba == z.start)
  }

  predicate Resets(c: Command, status: Status, z: Zone) {
    c.ResetZones? && Hits(c.all, c.lba, status, z)
  }

  /** FINISH ALL passes over empty zones. */
  predicate Finishes(c: Command, status: Status, z: Zone) {
    c.FinishZones? && Hits(c.all, c.lba, status, z) && (!c.all || z.cond != Empty)
  }

  /** A block is shown after a command: a reset of its zone hides it, a finish shows it, and so
      does a write in its zone that goes beyond it. */
  predicate ShownAfter(g: Shape, c: Command, status: Status, done: nat, z: Zone, x: nat, shown: bool)
    requires g.zoneSize > 0
  {
    if Resets(c, status, z) then false
    else if Finishes(c, status, z) then true
    else shown || (c.WriteBlocks? && done > 0 && Div(c.lba, g.zoneSize) == Div(x, g.zoneSize) && x < c.lba + done)
  }

  // ---- One command --------------------------------------------------------------------

  /** Zones that keep place and write pointer. */
  predicate SamePointer(z: Zone, z': Zone) {
    SamePlace(z, z') && z'.wp == z.wp
  }

  lemma OpenStepKeeps(zs: seq<Zone>, limit: nat, j: nat, i: nat)
    requires j < |zs| && i < |zs|
    ensures SamePointer(zs[i], OpenStep(zs, limit, j)[i])
  {
  }

  lemma {:induction false} OpenFromKeeps(zs: seq<Zone>, limit: nat, j: nat, i: nat)
    requires j <= |zs| && i < |zs|
    ensures |OpenFrom(zs, limit, j)| == |zs| && SamePointer(zs[i], OpenFrom(zs, limit, j)[i])
    decreases |zs| - j
  {
    if j < |zs| {
      if zs[j].cond == Closed {
        OpenStepKeeps(zs, limit, j, i);
        OpenFromKeeps(OpenStep(zs, limit, j), limit, j + 1, i);
      } else {
        OpenFromKeeps(zs, limit, j + 1, i);
      }
    }
  }

  lemma OpenDoneKeeps(g: Shape, zs: seq<Zone>, zs': seq<Zone>, lba: nat, status: Status, i: nat)
    requires OpenDone(g, zs, zs', lba, status) && i < |zs|
    ensures |zs'| == |zs| && SamePointer(zs[i], zs'[i])
  {
    if NameStatus(zs, g.capacity, lba) == Ok {
      var k: nat :| Manageable(zs, lba, k);
      assert OpenedAt(g.limit, zs, zs', k, status);
      OpenStepKeeps(zs[k := CloseZone(zs[k])], g.limit, k, i);
    }
  }

  /** A zone's pointer after a write of n blocks to it. */
  lemma WrotePointer(z: Zone, lba: nat, n: nat, x: nat)
    requires ZoneOk(z) && z.kind != Conventional && n > 0 && z.start <= lba && lba + n <= End(z)
    requires z.kind == SeqRequired ==> lba == z.wp
    ensures x < Wrote(Opened(z), lba, n).wp <==> x < z.wp || x < lba + n
  {
  }

  lemma WriteMoves(g: Shape, m: Media, m': Media, lba: nat, blocks: seq<Block>, status: Status, done: nat, i: nat, x: nat)
    requires g.zoneSize > 0 && WriteDone(g, m, m', lba, blocks, status, done) && AllOk(m.zs) && i < |m.zs|
    ensures |m'.zs| == |m.zs| && SamePlace(m.zs[i], m'.zs[i]) && done <= |blocks|
    ensures m.zs[i].kind != Conventional ==>
              (x < m'.zs[i].wp <==> x < m.zs[i].wp || (done > 0 && Div(lba, g.zoneSize) == i && x < lba + done))
  {
    assert ZoneOk(m.zs[i]);
    if done > 0 && Div(lba, g.zoneSize) == i && m.zs[i].kind != Conventional {
      WrotePointer(m.zs[i], lba, done, x);
    }
  }

  lemma ResetMoves(g: Shape, c: Command, m: Media, m': Media, status: Status, i: nat, x: nat)
    requires c.ResetZones? && EachZone(g.capacity, m.zs, m'.zs, c.all, c.lba, status, ResetZone)
    requires i < |m.zs| && m.zs[i].start <= x
    ensures |m'.zs| == |m.zs| && SamePlace(m.zs[i], m'.zs[i])
    ensures m.zs[i].kind != Conventional ==> (x < m'.zs[i].wp <==> !Resets(c, status, m.zs[i]) && x < m.zs[i].wp)
  {
  }

  lemma FinishMoves(g: Shape, c: Command, m: Media, m': Media, status: Status, i: nat, x: nat)
    requires c.FinishZones? && EachZone(g.capacity, m.zs, m'.zs, c.all, c.lba, status, z => FinishZone(z, !c.all))
    requires i < |m.zs| && ZoneOk(m.zs[i]) && x < End(m.zs[i])
    ensures |m'.zs| == |m.zs| && SamePlace(m.zs[i], m'.zs[i])
    ensures m.zs[i].kind != Conventional ==> (x < m'.zs[i].wp <==> Finishes(c, status, m.zs[i]) || x < m.zs[i].wp)
  {
    assert m'.zs[i] == if status == Ok && (c.all || m.zs[i].start == c.lba) then FinishZone(m.zs[i], !c.all) else m.zs[i];
  }

  /** What one command does to the zone of block x, and to the block. */
  lemma StepMoves(g: Shape, c: Command, m: Media, m': Media, status: Status, done: nat, x: nat)
    requires g.zoneSize > 0 && Step(g, c, m, m', status, done) && AllOk(m.zs) && Tiled(m.zs, g.zoneSize, g.capacity) && x < g.capacity
    ensures var i := Div(x, g.zoneSize);
            && i < |m.zs| == |m'.zs| && SamePlace(m.zs[i], m'.zs[i])
            && (m.zs[i].kind != Conventional ==> (x < m'.zs[i].wp <==> ShownAfter(g, c, status, done, m.zs[i], x, x < m.zs[i].wp)))
  {
    ZoneOf(m.zs, g.zoneSize, g.capacity, x);
    var i := Div(x, g.zoneSize);
    assert ZoneOk(m.zs[i]);
    match c
    case OpenZone(lba) => OpenDoneKeeps(g, m.zs, m'.zs, lba, status, i);
    case OpenAllZones => OpenFromKeeps(m.zs, g.limit, 0, i);
    case WriteBlocks(lba, blocks, _) => WriteMoves(g, m, m', lba, blocks, status, done, i, x);
    case ResetZones(_, _) => ResetMoves(g, c, m, m', status, i, x);
    case FinishZones(_, _) => FinishMoves(g, c, m, m', status, i, x);
    case CloseZones(_, _) =>
    case Reopen =>
  }

  lemma StepStores(g: Shape, c: Command, m: Media, m': Media, status: Status, done: nat, x: nat)
    requires g.zoneSize > 0 && Step(g, c, m, m', status, done) && x < |m.data|
    ensures |m'.data| == |m.data|
    ensures m'.data[x] == if Covers(c, done, x) then c.blocks[x - c.lba] else m.data[x]
  {
    if c.WriteBlocks? && done > 0 {
      PutAt(m.data, c.lba, c.blocks[..done], x);
    }
  }

  // ---- Every run ----------------------------------------------------------------------

  /** A run of commands on a device: what each answered and wrote, and what the device held
      before and after each. */
  datatype History = History(g: Shape, cmds: seq<Command>, statuses: seq<Status>, dones: seq<nat>, trace: seq<Media>)

  /** A run on a device that is sound and tiled when it begins. */
  ghost predicate Sane(h: History) {
    && h.g.zoneSize > 0 && Run(h.g, h.cmds, h.statuses, h.dones, h.trace)
    && AllOk(h.trace[0].zs) && Tiled(h.trace[0].zs, h.g.zoneSize, h.g.capacity) && |h.trace[0].data| == h.g.capacity
  }

  lemma SaneAt(h: History, x: nat, k: nat)
    requires Sane(h) && k < |h.trace| && x < h.g.capacity
    ensures AllOk(h.trace[k].zs) && Tiled(h.trace[k].zs, h.g.zoneSize, h.g.capacity) && Div(x, h.g.zoneSize) < |h.trace[k].zs|
  {
    if k > 0 {
      assert StepAt(h.g, h.cmds, h.statuses, h.dones, h.trace, k - 1);
    }
    ZoneOf(h.trace[k].zs, h.g.zoneSize, h.g.capacity, x);
  }

  /** The zone of block x after k commands. */
  ghost function ZoneAt(h: History, x: nat, k: nat): (z: Zone)
    requires Sane(h) && k < |h.trace| && x < h.g.capacity
    ensures Div(x, h.g.zoneSize) < |h.trace[k].zs| && z == h.trace[k].zs[Div(x, h.g.zoneSize)]
  {
    SaneAt(h, x, k);
    h.trace[k].zs[Div(x, h.g.zoneSize)]
  }

  /** What the guest finds in block x after k commands. */
  ghost function Found(h: History, x: nat, k: nat): Block
    requires h.g.zoneSize > 0 && k < |h.trace|
  {
    ViewAt(h.trace[k].zs, h.g.zoneSize, h.trace[k].data, x)
  }

  /** What was last written to block x in the first n commands, or was there before. */
  ghost function Last(h: History, x: nat, n: nat): Block
    requires Sane(h) && x < h.g.capacity && n <= |h.cmds|
  {
    LastWritten(h.cmds, h.dones, x, n, h.trace[0].data[x])
  }

  /** Whether block x is shown after the first n commands. */
  ghost predicate Shown(h: History, x: nat, n: nat)
    requires Sane(h) && x < h.g.capacity && n <= |h.cmds|
  {
    if n == 0 then x < ZoneAt(h, x, 0).wp
    else ShownAfter(h.g, h.cmds[n - 1], h.statuses[n - 1], h.dones[n - 1], ZoneAt(h, x, n - 1), x, Shown(h, x, n - 1))
  }

  lemma {:induction false} Traced(h: History, x: nat, n: nat)
    requires Sane(h) && x < h.g.capacity && n <= |h.cmds|
    ensures |h.trace[n].data| == h.g.capacity && h.trace[n].data[x] == Last(h, x, n)
    ensures SamePlace(ZoneAt(h, x, 0), ZoneAt(h, x, n))
    ensures ZoneAt(h, x, 0).kind != Conventional ==> (x < ZoneAt(h, x, n).wp <==> Shown(h, x, n))
  {
    if n > 0 {
      Traced(h, x, n - 1);
      SaneAt(h, x, n - 1);
      assert StepAt(h.g, h.cmds, h.statuses, h.dones, h.trace, n - 1);
      StepMoves(h.g, h.cmds[n - 1], h.trace[n - 1], h.trace[n], h.statuses[n - 1], h.dones[n - 1], x);
      StepStores(h.g, h.cmds[n - 1], h.trace[n - 1], h.trace[n], h.statuses[n - 1], h.dones[n - 1], x);
    }
  }

  /** After any sequence of commands the guest finds in a block what was last written there,
      resets or not, if the block is shown, and zeros if it is not. */
  lemma EveryBlock(h: History, x: nat, n: nat)
    requires Sane(h) && x < h.g.capacity && n <= |h.cmds|
    ensures Found(h, x, n) == if ZoneAt(h, x, 0).kind == Conventional || Shown(h, x, n) then Last(h, x, n) else 0
  {
    Traced(h, x, n);
  }

  lemma {:induction false} NotRewritten(h: History, x: nat, j: nat, n: nat)
    requires Sane(h) && x < h.g.capacity && j <= n <= |h.cmds| && forall k :: j <= k < n ==> !Covers(h.cmds[k], h.dones[k], x)
    ensures Last(h, x, n) == Last(h, x, j)
  {
    if j < n {
      NotRewritten(h, x, j, n - 1);
    }
  }

  lemma AfterReset(h: History, x: nat, n: nat)
    requires Sane(h) && x < h.g.capacity && n < |h.cmds| && ZoneAt(h, x, 0).kind != Conventional
    requires Resets(h.cmds[n], h.statuses[n], ZoneAt(h, x, n))
    ensures Found(h, x, n + 1) == 0 && Last(h, x, n + 1) == Last(h, x, n)
  {
    assert !Shown(h, x, n + 1);
    EveryBlock(h, x, n + 1);
  }

  lemma AfterFinish(h: History, x: nat, n: nat)
    requires Sane(h) && x < h.g.capacity && n < |h.cmds|
    requires Finishes(h.cmds[n], h.statuses[n], ZoneAt(h, x, n))
    ensures Found(h, x, n + 1) == Last(h, x, n)
  {
    assert Shown(h, x, n + 1) && Last(h, x, n + 1) == Last(h, x, n);
    EveryBlock(h, x, n + 1);
  }

  /** A block of a sequential zone that is reset and later, without being written in between,
      finished: it shows zero after the reset, and after the finish what was written before the
      reset.  So data from before a reset comes back exactly if it is not zero. */
  lemma FinishAfterReset(h: History, x: nat, j: nat, n: nat)
    requires Sane(h) && x < h.g.capacity && j < n < |h.cmds| && ZoneAt(h, x, 0).kind != Conventional
    requires Resets(h.cmds[j], h.statuses[j], ZoneAt(h, x, j)) && Finishes(h.cmds[n], h.statuses[n], ZoneAt(h, x, n))
    requires forall k :: j < k < n ==> !Covers(h.cmds[k], h.dones[k], x)
    ensures Found(h, x, j + 1) == 0 && Found(h, x, n + 1) == Last(h, x, j)
  {
    AfterReset(h, x, j);
    AfterFinish(h, x, n);
    NotRewritten(h, x, j + 1, n);
  }

  // ---- Such a run -----------------------------------------------------------------------

  /** A device with one zone of two blocks. */
  function Single(wp: nat, cond: Cond, data: seq<Block>, imp: nat): Media {
    Media([Zone(0, 2, wp, SeqRequired, cond, false, false)], data, imp, 0)
  }

  lemma SingleSound(m: Media)
    requires |m.zs| == 1 && m.zs[0].start == 0 && m.zs[0].len == 2 && ZoneOk(m.zs[0])
    requires m.imp == One(m.zs[0], ImpOpen) && m.exp == One(m.zs[0], ExpOpen)
    ensures Sound(m.zs, m.imp, m.exp) && Tiled(m.zs, 2, 2) && Opens(m.zs) == m.imp + m.exp
  {
    assert m.zs[..0] == [];
  }

  lemma WrittenOnce(m: Media, m': Media)
    requires m == Single(0, Empty, [0, 0], 0) && m' == Single(1, ImpOpen, [7, 0], 1)
    ensures AfterWrite(m.zs, 1, 0, 0, 1) == m'.zs && Put(m.data, 0, [7]) == m'.data
    ensures WriteStatus(Shape(2, 2, 1), m.zs, 0, 1) == Ok && !OutOfRoom(m.zs, 0, 1)
  {
    SingleSound(m);
    assert Put(m.data, 0, []) == m.data;
    assert [7][..0] == [];
    assert Checked(m.zs, 0, SeqRequired, 0, 1) == Ok;
  }

  lemma WriteStep(accepted: nat -> nat, m: Media, m': Media)
    requires m == Single(0, Empty, [0, 0], 0) && m' == Single(1, ImpOpen, [7, 0], 1)
    ensures Step(Shape(2, 2, 1), WriteBlocks(0, [7], accepted), m, m', Ok, 1)
  {
    WrittenOnce(m, m');
    SingleSound(m');
    assert [7][..1] == [7];
    assert ZoneWritten(1, m, m', 0, 0, [7], Ok, 1);
    assert WriteDone(Shape(2, 2, 1), m, m', 0, [7], Ok, 1);
  }

  lemma ResetStep(m: Media, m': Media)
    requires m == Single(1, ImpOpen, [7, 0], 1) && m' == Single(0, Empty, [7, 0], 0)
    ensures Step(Shape(2, 2, 1), ResetZones(false, 0), m, m', Ok, 0)
  {
    SingleSound(m');
    assert Manageable(m.zs, 0, 0);
  }

  lemma FinishStep(m: Media, m': Media)
    requires m == Single(0, Empty, [7, 0], 0) && m' == Single(2, Full, [7, 0], 0)
    ensures Step(Shape(2, 2, 1), FinishZones(false, 0), m, m', Ok, 0)
  {
    SingleSound(m');
    assert Manageable(m.zs, 0, 0);
  }

  /** A block is written, its zone reset and then finished. */
  function Example(accepted: nat -> nat): History {
    History(Shape(2, 2, 1),
            [WriteBlocks(0, [7], accepted), ResetZones(false, 0), FinishZones(false, 0)], [Ok, Ok, Ok], [1, 0, 0],
            [Single(0, Empty, [0, 0], 0), Single(1, ImpOpen, [7, 0], 1), Single(0, Empty, [7, 0], 0), Single(2, Full, [7, 0], 0)])
  }

  lemma ExampleStep(accepted: nat -> nat, k: nat)
    requires k < 3
    ensures var h := Example(accepted); StepAt(h.g, h.cmds, h.statuses, h.dones, h.trace, k)
  {
    var h := Example(accepted);
    if k == 0 {
      WriteStep(accepted, h.trace[0], h.trace[1]);
    } else if k == 1 {
      ResetStep(h.trace[1], h.trace[2]);
    } else {
      FinishStep(h.trace[2], h.trace[3]);
    }
  }

  /** It shows, is gone, and comes back. */
  lemma ComesBack(accepted: nat -> nat)
    ensures var h := Example(accepted);
            Sane(h) && Found(h, 0, 0) == 0 && Found(h, 0, 1) == 7 && Found(h, 0, 2) == 0 && Found(h, 0, 3) == 7
  {
    var h := Example(accepted);
    forall k | 0 <= k < 3 ensures StepAt(h.g, h.cmds, h.statuses, h.dones, h.trace, k) {
      ExampleStep(accepted, k);
    }
    SingleSound(h.trace[0]);
  }
}
