/** WRITE SAME and EXTENDED COPY in tcmur_cmd_handler.c: chains of callbacks, each of which
    issues the next request until the range is done or a request fails. */
module Compound {
  import opened Arith
  import opened Blocks
  import opened Bytes

  /** What the handler reports for a request, whether the next one is accepted, and what a
      failed write leaves in the blocks it was given. */
  datatype Outcome = Outcome(ok: bool, accepted: bool, junk: nat -> Block)

  // ---- WRITE SAME --------------------------------------------------------------------

  function Repeat(b: Block, n: nat): (s: seq<Block>)
    ensures |s| == n
  {
    seq(n, _ => b)
  }

  /** A disk with n blocks from `start` on all holding b. */
  function Filled(disk: seq<Block>, start: nat, n: nat, b: Block): (d: seq<Block>)
    requires start + n <= |disk|
    ensures |d| == |disk|
  {
    if n == 0 then disk else Filled(disk, start, n - 1, b)[start + n - 1 := b]
  }

  lemma {:induction false} FilledAt(disk: seq<Block>, start: nat, n: nat, b: Block, i: nat)
    requires start + n <= |disk| && i < |disk|
    ensures Filled(disk, start, n, b)[i] == if start <= i < start + n then b else disk[i]
  {
    if n > 0 {
      FilledAt(disk, start, n - 1, b, i);
    }
  }

  /** Writing a buffer of copies of b fills the blocks it covers. */
  lemma {:induction false} PutRepeat(disk: seq<Block>, start: nat, a: nat, n: nat, b: Block)
    requires start + a + n <= |disk|
    ensures Put(Filled(disk, start, a, b), start + a, Repeat(b, n)) == Filled(disk, start, a + n, b)
  {
    if n > 0 {
      assert Repeat(b, n)[..n - 1] == Repeat(b, n - 1);
      PutRepeat(disk, start, a, n - 1, b);
    }
  }

  /** The blocks start, start + 1, ... in order. */
  function Lbas(start: nat, n: nat): (s: seq<nat>)
    ensures |s| == n && forall i :: 0 <= i < n ==> s[i] == start + i
  {
    seq(n, i requires 0 <= i < n => start + i)
  }

  lemma LbasNext(start: nat, a: nat, n: nat)
    ensures Lbas(start, a + n) == Lbas(start, a) + Lbas(start + a, n)
  {
  }

  /** The size of the first request, in blocks: a megabyte rounded up to whole transfers, or
      the whole range if that is less. */
  function WriteLbas(maxXferLen: nat, blockSize: nat, lbaCnt: nat): nat
    requires maxXferLen > 0 && blockSize > 0
  {
    Div(Min(RoundUp(1048576, maxXferLen * blockSize), lbaCnt * blockSize), blockSize)
  }

  lemma WriteLbasInRange(maxXferLen: nat, blockSize: nat, lbaCnt: nat)
    requires maxXferLen > 0 && blockSize > 0 && lbaCnt > 0
    ensures 0 < WriteLbas(maxXferLen, blockSize, lbaCnt) <= lbaCnt
  {
    MulGe(maxXferLen, blockSize);
    MulGe(lbaCnt, blockSize);
    var m := maxXferLen * blockSize;
    var len := RoundUp(1048576, m);
    RoundUpBounds(1048576, m);
    DivMono(m, 1048576 + m - 1, m);
    DivUnique(m, m, 1, 0);
    MulGe(Div(1048576 + m - 1, m), m);
    assert len >= blockSize;
    var n := Min(len, lbaCnt * blockSize);
    DivMono(blockSize, n, blockSize);
    DivUnique(blockSize, blockSize, 1, 0);
    DivMono(n, lbaCnt * blockSize, blockSize);
    DivUnique(lbaCnt * blockSize, blockSize, lbaCnt, 0);
  }

  class WriteSame {
    const block: Block
    const start: nat
    const cnt: nat
    var curLba: nat
    var lbaCnt: nat
    var requested: nat
    var disk: seq<Block>
    ghost const disk0: seq<Block>
    /** Every block written so far by a request that succeeded, in order. */
    ghost var log: seq<nat>

    /** So far exactly the blocks from start to curLba have been written, each once. */
    ghost predicate Progress()
      reads this
    {
      && start <= curLba && curLba + lbaCnt == start + cnt <= |disk0|
      && disk == Filled(disk0, start, curLba - start, block)
      && log == Lbas(start, curLba - start)
    }

    ghost predicate Valid()
      reads this
    {
      Progress() && 0 < requested <= lbaCnt
    }

    /** handle_writesame, after its checks. */
    constructor (disk: seq<Block>, start: nat, cnt: nat, block: Block, maxXferLen: nat, blockSize: nat)
      requires cnt > 0 && start + cnt <= |disk| && maxXferLen > 0 && blockSize > 0
      ensures Valid() && disk0 == disk && curLba == this.start == start && this.cnt == cnt && this.block == block
    {
      this.block, this.start, this.cnt := block, start, cnt;
      this.disk, disk0, log := disk, disk, [];
      curLba, lbaCnt := start, cnt;
      requested := WriteLbas(maxXferLen, blockSize, cnt);
      new;
      WriteLbasInRange(maxXferLen, blockSize, cnt);
    }

    /** Block i is as it must be part way: written if the chain has passed it, untouched if it
        is outside the range. */
    ghost predicate BlockOk(i: nat)
      reads this
      requires i < |disk| == |disk0|
    {
      && (start <= i < curLba ==> disk[i] == block)
      && (!(start <= i < start + cnt) ==> disk[i] == disk0[i])
    }

    ghost predicate Partial()
      reads this
    {
      && start <= curLba <= start + cnt <= |disk0| == |disk|
      && log == Lbas(start, curLba - start)
      && forall i :: 0 <= i < |disk| ==> BlockOk(i)
    }

    /** The first request has failed: what it was given may hold anything. */
    method Spoil(junk: nat -> Block)
      requires Valid()
      modifies this`disk
      ensures Partial()
    {
      disk := Put(disk, curLba, seq(requested, junk));
      forall i | 0 <= i < |disk| ensures BlockOk(i) {
        FilledAt(disk0, start, curLba - start, block, i);
        PutAt(Filled(disk0, start, curLba - start, block), curLba, seq(requested, junk), i);
      }
    }

    lemma ProgressPartial()
      requires Progress()
      ensures Partial()
    {
      forall i | 0 <= i < |disk| ensures BlockOk(i) {
        FilledAt(disk0, start, curLba - start, block, i);
      }
    }

    /** A request that succeeds. */
    method Write()
      requires Valid()
      modifies this`curLba, this`lbaCnt, this`disk, this`log
      ensures Progress() && lbaCnt == old(lbaCnt) - requested
      ensures log == old(log) + Lbas(old(curLba), requested)
    {
      var disk' := Put(disk, curLba, Repeat(block, requested));
      PutRepeat(disk0, start, curLba - start, requested, block);
      LbasNext(start, curLba - start, requested);
      ghost var log' := Lbas(start, curLba - start + requested);
      assert disk' == Filled(disk0, start, curLba - start + requested, block);
      disk, log, curLba, lbaCnt := disk', log', curLba + requested, lbaCnt - requested;
    }

    /** One request and handle_writesame_cbk. */
    method Link(o: Outcome) returns (finished: bool, ok: bool)
      requires Valid()
      modifies this
      ensures if o.ok then Progress() && lbaCnt == old(lbaCnt) - old(requested) else Partial()
      ensures ok <==> o.ok && lbaCnt == 0
      ensures finished <==> !o.ok || lbaCnt == 0 || !o.accepted
      ensures !finished ==> Valid() && requested == Min(old(requested), lbaCnt)
    {
      var writeLbas := requested;
      if !o.ok {
        Spoil(o.junk);
        return true, false;
      }
      Write();
      if lbaCnt == 0 {
        return true, true;
      }
      if lbaCnt <= writeLbas {
        requested := lbaCnt;
      }
      finished, ok := !o.accepted, false;
    }

    /** The whole chain: it ends whatever the handler answers; when it reports success every
        block of the range has been written exactly once, in order, and nothing else. */
    method Run(outcomes: nat -> Outcome) returns (ok: bool)
      requires Valid()
      modifies this
      ensures ok ==> disk == Filled(disk0, start, cnt, block) && log == Lbas(start, cnt)
      ensures Partial()
      ensures (forall k :: outcomes(k).ok && outcomes(k).accepted) ==> ok
    {
      var finished, k := false, 0;
      ok := false;
      while !finished
        invariant !finished ==> Valid()
        invariant finished ==> Partial()
        invariant finished && ok ==> Progress() && lbaCnt == 0
        invariant finished && (forall k :: outcomes(k).ok && outcomes(k).accepted) ==> ok
        decreases if finished then 0 else 1, lbaCnt
      {
        var o := outcomes(k);
        finished, ok := Link(o);
        if o.ok {
          ProgressPartial();
        }
        k := k + 1;
      }
    }
  }

  // ---- EXTENDED COPY -----------------------------------------------------------------

  /** A device is a stretch of one store of blocks; block l of it is block base + l of the
      store, so that one store serves a copy inside a device and one between devices. */
  datatype Device = Device(base: nat, blocks: nat)

  predicate Apart(a: Device, b: Device) {
    a.base + a.blocks <= b.base || b.base + b.blocks <= a.base
  }

  /** The store with the k blocks at d replaced by what the k blocks at s hold. */
  function Copied(store: seq<Block>, s: nat, d: nat, k: nat): (r: seq<Block>)
    requires s + k <= |store| && d + k <= |store|
    ensures |r| == |store|
  {
    if k == 0 then store else Copied(store, s, d, k - 1)[d + k - 1 := store[s + k - 1]]
  }

  lemma {:induction false} CopiedAt(store: seq<Block>, s: nat, d: nat, k: nat, i: nat)
    requires s + k <= |store| && d + k <= |store| && i < |store|
    ensures Copied(store, s, d, k)[i] == if d <= i < d + k then store[s + (i - d)] else store[i]
  {
    if k > 0 {
      CopiedAt(store, s, d, k - 1, i);
    }
  }

  /** Reading k blocks into a buffer and writing the buffer. */
  lemma {:induction false} PutSlice(store: seq<Block>, s: nat, d: nat, k: nat)
    requires s + k <= |store| && d + k <= |store|
    ensures Put(store, d, store[s..s + k]) == Copied(store, s, d, k)
  {
    if k > 0 {
      assert store[s..s + k][..k - 1] == store[s..s + k - 1];
      PutSlice(store, s, d, k - 1);
    }
  }

  /** The chain of handle_xcopy: chunks of at most c blocks until n are copied. */
  function CopyRun(store: seq<Block>, s: nat, d: nat, n: nat, c: nat): (r: seq<Block>)
    requires s + n <= |store| && d + n <= |store| && c > 0
    ensures |r| == |store|
    decreases n
  {
    if n == 0 then store
    else
      var k := Min(c, n);
      CopyRun(Copied(store, s, d, k), s + k, d + k, n - k, c)
  }

  /** Nothing but the destination range changes. */
  lemma {:induction false} CopyFrame(store: seq<Block>, s: nat, d: nat, n: nat, c: nat, i: nat)
    requires s + n <= |store| && d + n <= |store| && c > 0 && i < |store| && !(d <= i < d + n)
    ensures CopyRun(store, s, d, n, c)[i] == store[i]
    decreases n
  {
    if n > 0 {
      var k := Min(c, n);
      CopiedAt(store, s, d, k, i);
      CopyFrame(Copied(store, s, d, k), s + k, d + k, n - k, c, i);
    }
  }

  /** A block that no chunk has overwritten when its turn comes is copied as it was. */
  lemma {:induction false} CopyBlock(store: seq<Block>, s: nat, d: nat, n: nat, c: nat, i: nat)
    requires s + n <= |store| && d + n <= |store| && c > 0 && i < n
    requires d <= s || s + i < d || i < c
    ensures CopyRun(store, s, d, n, c)[d + i] == store[s + i]
    decreases n
  {
    var k := Min(c, n);
    var store' := Copied(store, s, d, k);
    if i < k {
      CopiedAt(store, s, d, k, d + i);
      CopyFrame(store', s + k, d + k, n - k, c, d + i);
    } else {
      CopiedAt(store, s, d, k, s + i);
      CopyBlock(store', s + k, d + k, n - k, c, i - k);
    }
  }

  /** The destination holds what the source held, and nothing else has changed. */
  ghost predicate IsCopy(store: seq<Block>, r: seq<Block>, s: nat, d: nat, n: nat)
    requires s + n <= |store| && d + n <= |store|
  {
    r == Copied(store, s, d, n)
  }

  /** When a chunked forward copy is a copy. */
  predicate Safe(s: nat, d: nat, n: nat, c: nat) {
    d <= s || s + n <= d || n <= c
  }

  lemma SafeCopy(store: seq<Block>, s: nat, d: nat, n: nat, c: nat)
    requires s + n <= |store| && d + n <= |store| && c > 0 && Safe(s, d, n, c)
    ensures IsCopy(store, CopyRun(store, s, d, n, c), s, d, n)
  {
    var got, want := CopyRun(store, s, d, n, c), Copied(store, s, d, n);
    forall i | 0 <= i < |store| ensures got[i] == want[i] {
      CopiedAt(store, s, d, n, i);
      if d <= i < d + n {
        CopyBlock(store, s, d, n, c, i - d);
      } else {
        CopyFrame(store, s, d, n, c, i);
      }
    }
  }

  /** The store whose block i holds i. */
  function Numbered(n: nat): (store: seq<Block>)
    ensures |store| == n && forall i :: 0 <= i < n ==> store[i] == i
  {
    seq(n, i => i)
  }

  lemma FirstChunk(store: seq<Block>, s: nat, d: nat, n: nat, c: nat)
    requires s + n <= |store| && d + n <= |store| && 0 < n && 0 < c
    ensures var k := Min(c, n);
            CopyRun(store, s, d, n, c) == CopyRun(Copied(store, s, d, k), s + k, d + k, n - k, c)
  {
  }

  /** What a chain comes to. */
  datatype Goal = Goal(store: seq<Block>)

  /** What copying n blocks from s to d, c at a time, comes to. */
  function Target(store: seq<Block>, s: nat, d: nat, n: nat, c: nat): Goal
    requires s + n <= |store| && d + n <= |store| && c > 0
  {
    Goal(CopyRun(store, s, d, n, c))
  }

  lemma ChunkDone(store: seq<Block>, s: nat, d: nat, n: nat, c: nat, k: nat, store': seq<Block>)
    requires s + n <= |store| && d + n <= |store| && 0 < n && 0 < c && k == Min(c, n)
    requires store' == Put(store, d, store[s..s + k])
    ensures |store'| == |store| && Target(store', s + k, d + k, n - k, c) == Target(store, s, d, n, c)
  {
    PutSlice(store, s, d, k);
    FirstChunk(store, s, d, n, c);
  }

  /** The other way round: an overlap that is not safe spoils a store of distinct blocks.
      Block y is overwritten by the first chunk before a later one reads it. */
  lemma UnsafeCopy(s: nat, d: nat, n: nat, c: nat)
    requires c > 0 && !Safe(s, d, n, c)
    ensures !CopiesOn(Numbered(d + n), s, d, n, c)
  {
    var store := Numbered(d + n);
    var y := if d > s + c then d else s + c;
    var x := d + (y - s);
    FirstChunk(store, s, d, n, c);
    CopyBlock(Copied(store, s, d, c), s + c, d + c, n - c, c, y - s - c);
    CopiedAt(store, s, d, c, y);
    var got := CopyRun(store, s, d, n, c)[x];
    assert got == store[s + (y - d)] == s + (y - d);
    CopiedAt(store, s, d, n, x);
    assert Copied(store, s, d, n)[x] == store[y] == y;
  }

  ghost predicate CopiesOn(store: seq<Block>, s: nat, d: nat, n: nat, c: nat) {
    s + n <= |store| && d + n <= |store| && c > 0 ==> IsCopy(store, CopyRun(store, s, d, n, c), s, d, n)
  }

  /** handle_xcopy copies, whatever the blocks hold, if and only if the copy is safe. */
  lemma CopyExactly(s: nat, d: nat, n: nat, c: nat)
    requires c > 0
    ensures Safe(s, d, n, c) <==> forall store: seq<Block> :: CopiesOn(store, s, d, n, c)
  {
    if Safe(s, d, n, c) {
      forall store: seq<Block> ensures CopiesOn(store, s, d, n, c) {
        if s + n <= |store| && d + n <= |store| {
          SafeCopy(store, s, d, n, c);
        }
      }
    } else {
      UnsafeCopy(s, d, n, c);
    }
  }

  /** Between two devices every copy is safe. */
  lemma BetweenDevices(src: Device, dst: Device, s: nat, d: nat, n: nat, c: nat)
    requires Apart(src, dst) && s + n <= src.blocks && d + n <= dst.blocks
    ensures Safe(src.base + s, dst.base + d, n, c)
  {
  }

  /** Blocks outside n blocks from d on are as they were. */
  ghost predicate Outside(store: seq<Block>, store': seq<Block>, d: nat, n: nat) {
    |store'| == |store| && forall i :: 0 <= i < |store| && !(d <= i < d + n) ==> store'[i] == store[i]
  }

  lemma PutOutside(store0: seq<Block>, store: seq<Block>, d0: nat, n0: nat, d: nat, data: seq<Block>)
    requires Outside(store0, store, d0, n0) && d0 <= d && d + |data| <= d0 + n0 && d + |data| <= |store|
    ensures Outside(store0, Put(store, d, data), d0, n0)
  {
    forall i | 0 <= i < |store| && !(d0 <= i < d0 + n0) ensures Put(store, d, data)[i] == store0[i] {
      PutAt(store, d, data, i);
    }
  }

  /** What the two devices answer for one chunk: the read, whether the write and the next read
      are accepted, the write, and what a failed write leaves in its blocks. */
  datatype Answers = Answers(read: bool, scheduled: bool, written: bool, again: bool, junk: nat -> Block)

  predicate Moved(a: Answers) {
    a.read && a.scheduled && a.written
  }

  class Xcopy {
    var store: seq<Block>
    var srcLba: nat
    var dstLba: nat
    var lbaCnt: nat
    var copyLbas: nat
    var buffer: seq<Block>
    const src: Device
    const dst: Device
    /** The command as it was given, and what the store will hold when the chain is done. */
    ghost const store0: seq<Block>
    ghost const s0: nat
    ghost const d0: nat
    ghost const n0: nat
    ghost const limit: nat
    ghost const goal: Goal

    /** What the chain comes to if it goes on behind the next `done` blocks. */
    ghost function Rest(done: nat): Goal
      requires done <= lbaCnt && limit > 0 && src.base + srcLba + lbaCnt <= |store| && dst.base + dstLba + lbaCnt <= |store|
      reads this
    {
      Target(store, src.base + srcLba + done, dst.base + dstLba + done, lbaCnt - done, limit)
    }

    ghost predicate Valid()
      reads this
    {
      && s0 + n0 <= |store0| && d0 + n0 <= |store0| && limit > 0 && goal == Target(store0, s0, d0, n0, limit)
      && lbaCnt > 0 && copyLbas == Min(limit, lbaCnt)
      && src.base + srcLba + lbaCnt <= |store| && dst.base + dstLba + lbaCnt <= |store|
      && goal == Rest(0)
      && d0 <= dst.base + dstLba && dst.base + dstLba + lbaCnt == d0 + n0 && Outside(store0, store, d0, n0)
    }

    /** handle_xcopy, after the parameter list has been checked. */
    constructor (store: seq<Block>, src: Device, dst: Device, srcLba: nat, dstLba: nat, lbaCnt: nat, srcMax: nat, dstMax: nat)
      requires lbaCnt > 0 && srcMax > 0 && dstMax > 0
      requires srcLba + lbaCnt <= src.blocks && dstLba + lbaCnt <= dst.blocks
      requires src.base + src.blocks <= |store| && dst.base + dst.blocks <= |store|
      ensures Valid() && limit == Min(srcMax, dstMax)
      ensures store0 == store && s0 == src.base + srcLba && d0 == dst.base + dstLba && n0 == lbaCnt
    {
      this.store, this.src, this.dst := store, src, dst;
      this.srcLba, this.dstLba, this.lbaCnt := srcLba, dstLba, lbaCnt;
      var maxSectors := Min(srcMax, dstMax);
      copyLbas := Min(maxSectors, lbaCnt);
      buffer, limit := [], maxSectors;
      store0, s0, d0, n0 := store, src.base + srcLba, dst.base + dstLba, lbaCnt;
      goal := Target(store, src.base + srcLba, dst.base + dstLba, lbaCnt, maxSectors);
    }

    /** A chunk that is read and written. */
    method Copy()
      requires Valid()
      modifies this`store, this`buffer
      ensures Outside(store0, store, d0, n0)
      ensures goal == Rest(copyLbas)
    {
      var s, d := src.base + srcLba, dst.base + dstLba;
      var chunk := store[s..s + copyLbas];
      var store' := Put(store, d, chunk);
      ChunkDone(store, s, d, lbaCnt, limit, copyLbas, store');
      PutOutside(store0, store, d0, n0, d, chunk);
      buffer, store := chunk, store';
    }

    /** A write that fails may leave anything in the blocks it was given. */
    method Spoil(junk: nat -> Block)
      requires Valid()
      modifies this`store
      ensures Outside(store0, store, d0, n0)
    {
      var d, blocks := dst.base + dstLba, seq(copyLbas, junk);
      PutOutside(store0, store, d0, n0, d, blocks);
      store := Put(store, d, blocks);
    }

    /** A read, handle_xcopy_read_cbk, a write, handle_xcopy_write_cbk. */
    method Link(a: Answers) returns (finished: bool, ok: bool)
      requires Valid()
      modifies this`store, this`srcLba, this`dstLba, this`lbaCnt, this`copyLbas, this`buffer
      ensures Outside(store0, store, d0, n0)
      ensures !a.read || !a.scheduled ==> store == old(store)
      ensures lbaCnt == old(lbaCnt) - if Moved(a) then old(copyLbas) else 0
      ensures ok <==> Moved(a) && lbaCnt == 0
      ensures finished <==> !Moved(a) || lbaCnt == 0 || !a.again
      ensures !finished ==> Valid()
      ensures ok ==> Goal(store) == goal
    {
      if !a.read || !a.scheduled {
        return true, false;
      }
      if !a.written {
        Spoil(a.junk);
        return true, false;
      }
      Copy();
      lbaCnt := lbaCnt - copyLbas;
      if lbaCnt == 0 {
        return true, true;
      }
      srcLba := srcLba + copyLbas;
      dstLba := dstLba + copyLbas;
      copyLbas := Min(lbaCnt, copyLbas);
      finished, ok := !a.again, false;
    }

    /** The whole chain ends whatever the handlers answer.  If it reports success the store is
        what CopyRun says: a copy, when the copy is safe.  In any case nothing outside the
        destination has changed. */
    method Run(answers: nat -> Answers) returns (ok: bool)
      requires Valid()
      modifies this`store, this`srcLba, this`dstLba, this`lbaCnt, this`copyLbas, this`buffer
      ensures s0 + n0 <= |store0| && d0 + n0 <= |store0| && Outside(store0, store, d0, n0) && (ok ==> Goal(store) == goal)
      ensures ok && Safe(s0, d0, n0, limit) ==> IsCopy(store0, store, s0, d0, n0)
      ensures (forall k :: Moved(answers(k)) && answers(k).again) ==> ok
    {
      var finished, k := false, 0;
      ok := false;
      while !finished
        invariant Outside(store0, store, d0, n0) && (!finished ==> Valid())
        invariant finished && ok ==> Goal(store) == goal
        invariant finished && (forall k :: Moved(answers(k)) && answers(k).again) ==> ok
        decreases if finished then 0 else 1, lbaCnt
      {
        finished, ok := Link(answers(k));
        k := k + 1;
      }
      if Safe(s0, d0, n0, limit) {
        SafeCopy(store0, s0, d0, n0, limit);
      }
    }
  }
}
