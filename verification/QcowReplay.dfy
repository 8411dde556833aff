/** Any sequence of reads and writes of an open qcow image behaves like the same sequence on a
    flat disk. */
module QcowReplay {
  import opened Bytes
  import opened Iovec
  import opened QcowImage
  import opened QcowSteps
  import opened QcowCounts
  import opened QcowDisk
  import opened Qcow

  datatype Op = WriteOp(iov: seq<Iovec>, offset: nat) | ReadOp(iov: seq<Iovec>, offset: nat)

  /** The guest's memory and its flat disk between two operations, and whether the allocator
      has anything left to give. */
  datatype Moment = Moment(mem: seq<Byte>, disk: seq<Byte>, full: bool)

  /** Where an operation starts: offsets are in sectors. */
  function Start(op: Op): nat {
    op.offset / 512 * 512
  }

  /** A request the handler may be given: buffers of whole sectors, none used twice, and reads
      inside the disk. */
  predicate Request(op: Op, memory: nat, size: nat) {
    && InMemory(Addrs(op.iov), memory) && Distinct(Addrs(op.iov)) && |Addrs(op.iov)| % 512 == 0
    && (op.ReadOp? ==> Start(op) + |Addrs(op.iov)| <= size)
  }

  /** A read fills exactly its buffers, with the bytes of the flat disk. */
  ghost predicate ReadServed(op: Op, before: Moment, after: Moment, ret: int) {
    var x, addrs := Start(op), Addrs(op.iov);
    && x + |addrs| <= |before.disk| && after.disk == before.disk
    && Stored(before.mem, after.mem, addrs, before.disk[x..x + |addrs|])
    && ret == if |addrs| == 0 then -1 else |addrs|
  }

  /** A write carries its bytes, clipped at the end of the disk, to the flat disk.  When it
      fails a first part of them may be there, and the allocator has nothing left. */
  ghost predicate WriteServed(x: nat, data: seq<Byte>, disk: seq<Byte>, after: Moment, ret: int) {
    if x >= |disk| then ret == 0 && after.disk == disk
    else
      var count := Min(|data|, |disk| - x);
      || (ret == count > 0 && after.disk == Overwritten(disk, x, data[..count]))
      || (ret == -1 && count == 0 && after.disk == disk)
      || (ret == -1 && after.full && exists done :: 0 <= done < count && after.disk == Overwritten(disk, x, data[..done]))
  }

  ghost predicate Served(op: Op, before: Moment, after: Moment, ret: int) {
    && InMemory(Addrs(op.iov), |before.mem|) && |after.mem| == |before.mem| && (before.full ==> after.full)
    && match op
       case ReadOp(_, _) => ReadServed(op, before, after, ret)
       case WriteOp(iov, _) =>
         after.mem == before.mem && WriteServed(Start(op), Load(before.mem, Addrs(iov)), before.disk, after, ret)
  }

  /** The whole run, one moment after the other. */
  ghost predicate Run(ops: seq<Op>, rets: seq<int>, trace: seq<Moment>) {
    && |rets| == |ops| && |trace| == |ops| + 1
    && forall k :: 0 <= k < |ops| ==> Served(ops[k], trace[k], trace[k + 1], rets[k])
  }

  lemma RunPush(ops: seq<Op>, i: nat, rets: seq<int>, trace: seq<Moment>, ret: int, now: Moment)
    requires i < |ops| && Run(ops[..i], rets, trace) && Served(ops[i], trace[i], now, ret)
    ensures Run(ops[..i + 1], rets + [ret], trace + [now])
  {
    var ops', rets', trace' := ops[..i + 1], rets + [ret], trace + [now];
    forall k | 0 <= k < i + 1 ensures Served(ops'[k], trace'[k], trace'[k + 1], rets'[k]) {
      if k < i {
        assert ops'[k] == ops[..i][k];
        assert Served(ops[..i][k], trace[k], trace[k + 1], rets[k]);
      }
    }
  }

  ghost function Now(q: QcowState, mem: seq<Byte>): Moment
    requires q.Valid()
    reads q, q.l2Cache.Repr, q.rcCache.Repr
  {
    Moment(mem, Disk(q.Img()), Exhausted(q.Img()))
  }

  /** A write, seen on the flat disk. */
  method DoWrite(q: QcowState, mem: seq<Byte>, op: Op, ghost before: Moment) returns (ret: int)
    requires q.Valid() && op.WriteOp? && Request(op, |mem|, q.g.size) && before == Now(q, mem)
    modifies q`file, q`firstFreeCluster, q`refcountTable, q`l1Table, q`own, q.l2Cache.Repr, q.rcCache.Repr
    ensures q.Valid() && Since(old(q.Img()), old(q.own), q.Img(), q.own)
    ensures Served(op, before, Now(q, mem), ret)
  {
    ghost var done;
    ret, done := q.Pwritev(mem, op.iov, op.offset);
    Wrote(Start(op), Load(mem, Addrs(op.iov)), before.disk, Now(q, mem), ret, done);
  }

  lemma Wrote(x: nat, data: seq<Byte>, disk: seq<Byte>, after: Moment, ret: int, done: nat)
    requires if x >= |disk| then ret == 0 && done == 0
             else var count := Min(|data|, |disk| - x);
                  && done <= count
                  && (|| (ret == count && count > 0 && done == count)
                      || (ret == -1 && (count == 0 || (done < count && after.full))))
    requires done == 0 ==> after.disk == disk
    requires done > 0 ==> after.disk == Overwritten(disk, x, data[..done])
    ensures WriteServed(x, data, disk, after, ret)
  {
    if x < |disk| && done == 0 {
      OverwrittenNone(disk, x);
      assert data[..0] == [];
    }
  }

  /** A read, seen on the flat disk. */
  method DoRead(q: QcowState, a: array<Byte>, op: Op, ghost before: Moment) returns (ret: int)
    requires q.Valid() && a !in q.l2Cache.Repr && a !in q.rcCache.Repr
    requires op.ReadOp? && Request(op, a.Length, q.g.size) && before == Now(q, a[..])
    modifies q`file, q`firstFreeCluster, q`refcountTable, q`l1Table, q`own, q.l2Cache.Repr, q.rcCache.Repr, a
    ensures q.Valid() && Since(old(q.Img()), old(q.own), q.Img(), q.own)
    ensures Served(op, before, Now(q, a[..]), ret)
  {
    ret := q.Preadv(a, op.iov, op.offset);
  }

  method DoOp(q: QcowState, a: array<Byte>, op: Op, ghost before: Moment) returns (ret: int)
    requires q.Valid() && a !in q.l2Cache.Repr && a !in q.rcCache.Repr
    requires Request(op, a.Length, q.g.size) && before == Now(q, a[..])
    modifies q`file, q`firstFreeCluster, q`refcountTable, q`l1Table, q`own, q.l2Cache.Repr, q.rcCache.Repr, a
    ensures q.Valid() && Since(old(q.Img()), old(q.own), q.Img(), q.own)
    ensures Served(op, before, Now(q, a[..]), ret)
  {
    if op.WriteOp? {
      ghost var mem := a[..];
      ret := DoWrite(q, a[..], op, before);
      assert a[..] == mem;
    } else {
      ret := DoRead(q, a, op, before);
    }
  }

  /** Any sequence of operations, carried out one after the other: what the guest finds on its
      disk and in its memory after each, and what each returns, is what the flat disk gives. */
  method Replay(q: QcowState, a: array<Byte>, ops: seq<Op>) returns (rets: seq<int>, ghost trace: seq<Moment>)
    requires q.Valid() && a !in q.l2Cache.Repr && a !in q.rcCache.Repr
    requires forall k :: 0 <= k < |ops| ==> Request(ops[k], a.Length, q.g.size)
    modifies q`file, q`firstFreeCluster, q`refcountTable, q`l1Table, q`own, q.l2Cache.Repr, q.rcCache.Repr, a
    ensures q.Valid() && Run(ops, rets, trace)
    ensures trace[0] == old(Now(q, a[..])) && trace[|ops|] == Now(q, a[..])
    ensures Since(old(q.Img()), old(q.own), q.Img(), q.own)
  {
    rets, trace := [], [Now(q, a[..])];
    assert ops[..|ops|] == ops;
    for i := 0 to |ops|
      invariant q.Valid() && Since(old(q.Img()), old(q.own), q.Img(), q.own)
      invariant Run(ops[..i], rets, trace) && trace[0] == old(Now(q, a[..])) && trace[i] == Now(q, a[..])
    {
      ghost var m, own := q.Img(), q.own;
      var ret := DoOp(q, a, ops[i], trace[i]);
      SinceTrans(old(q.Img()), old(q.own), m, own, q.Img(), q.own);
      RunPush(ops, i, rets, trace, ret, Now(q, a[..]));
      rets, trace := rets + [ret], trace + [Now(q, a[..])];
    }
  }

  /** Guest byte p is in the range of a write. */
  predicate Writes(op: Op, p: nat) {
    op.WriteOp? && Start(op) <= p < Start(op) + |Addrs(op.iov)|
  }

  lemma ServedByte(op: Op, before: Moment, after: Moment, ret: int, p: nat)
    requires Served(op, before, after, ret) && p < |before.disk|
    ensures |after.disk| == |before.disk|
    ensures !Writes(op, p) ==> after.disk[p] == before.disk[p]
    ensures Writes(op, p) && ret != -1 ==> after.disk[p] == Load(before.mem, Addrs(op.iov))[p - Start(op)]
  {
  }

  lemma {:induction false} ByteStays(ops: seq<Op>, rets: seq<int>, trace: seq<Moment>, j: nat, k: nat, p: nat)
    requires Run(ops, rets, trace) && j <= k <= |ops| && p < |trace[j].disk|
    requires forall i :: j <= i < k ==> !Writes(ops[i], p)
    ensures |trace[k].disk| == |trace[j].disk| && trace[k].disk[p] == trace[j].disk[p]
  {
    if j < k {
      ByteStays(ops, rets, trace, j, k - 1, p);
      assert Served(ops[k - 1], trace[k - 1], trace[k], rets[k - 1]);
      ServedByte(ops[k - 1], trace[k - 1], trace[k], rets[k - 1], p);
    }
  }

  /** A read of guest byte p puts it into memory. */
  lemma ReadGets(op: Op, before: Moment, after: Moment, ret: int, p: nat)
    requires Served(op, before, after, ret) && op.ReadOp? && Start(op) <= p < Start(op) + |Addrs(op.iov)|
    ensures p < |before.disk| && Addrs(op.iov)[p - Start(op)] < |after.mem|
    ensures after.mem[Addrs(op.iov)[p - Start(op)]] == before.disk[p]
  {
    var x, addrs := Start(op), Addrs(op.iov);
    assert before.disk[x..x + |addrs|][p - x] == before.disk[p];
  }

  /** Every read returns the byte that was last written. */
  lemma LastWrite(ops: seq<Op>, rets: seq<int>, trace: seq<Moment>, j: nat, k: nat, p: nat)
    requires Run(ops, rets, trace) && j < k < |ops| && p < |trace[j].disk|
    requires Writes(ops[j], p) && rets[j] != -1 && forall i :: j < i < k ==> !Writes(ops[i], p)
    requires ops[k].ReadOp? && Start(ops[k]) <= p < Start(ops[k]) + |Addrs(ops[k].iov)|
    ensures InMemory(Addrs(ops[j].iov), |trace[j].mem|) && Addrs(ops[k].iov)[p - Start(ops[k])] < |trace[k + 1].mem|
    ensures trace[k + 1].mem[Addrs(ops[k].iov)[p - Start(ops[k])]] == Load(trace[j].mem, Addrs(ops[j].iov))[p - Start(ops[j])]
  {
    assert Served(ops[j], trace[j], trace[j + 1], rets[j]);
    ServedByte(ops[j], trace[j], trace[j + 1], rets[j], p);
    ByteStays(ops, rets, trace, j + 1, k, p);
    assert Served(ops[k], trace[k], trace[k + 1], rets[k]);
    ReadGets(ops[k], trace[k], trace[k + 1], rets[k], p);
  }

  lemma TableRead(f: seq<Byte>, off: nat, table: seq<nat>, own: Owners, o: Owner)
    requires TableOk(f, off, table, own, o)
    ensures ReadTable(f, off, |table|) == table
  {
    forall i | 0 <= i < |table| ensures ReadTable(f, off, |table|)[i] == table[i] {
      assert EntryAgrees(f, off, table, i);
    }
  }

  /** Nothing that only memory knows is needed to open the file again: the guest finds the
      same disk.  The allocator, which then starts at offset zero, is safe exactly if the
      image is of version 1 or every host cluster in use is counted. */
  lemma Reopen(m: Image, own: Owners)
    requires Inv(m, own)
    ensures |Opened(m.g, m.file).l1| == m.g.l1n && Disk(Opened(m.g, m.file)) == Disk(m)
    ensures Inv(Opened(m.g, m.file), own) <==> m.g.v2 ==> AllCounted(m.g, m.file, m.rt, own, -1)
  {
    TableRead(m.file, m.g.l1Off, m.l1, own, L1Table);
    TableRead(m.file, m.g.rtOff, m.rt, own, RcTable);
    assert Opened(m.g, m.file) == m.(firstFree := 0);
    SameDisk(m, m.(firstFree := 0));
  }

  /** An image just opened has every cluster in use counted, and its scan stands at zero. */
  lemma OpenedAccounted(m: Image, own: Owners)
    requires Inv(m, own) && m.firstFree == 0
    ensures Accounted(m, own, -1)
  {
  }

  /** So has it after any run, and it can be opened again with the same disk. */
  lemma ReopenAfter(m: Image, own: Owners, m': Image, own': Owners)
    requires Inv(m', own') && Since(m, own, m', own') && Accounted(m, own, -1)
    ensures |Opened(m'.g, m'.file).l1| == m'.g.l1n && Disk(Opened(m'.g, m'.file)) == Disk(m')
    ensures Inv(Opened(m'.g, m'.file), own')
  {
    Reopen(m', own');
  }

  method UseAndClose(q: QcowState, a: array<Byte>, ops: seq<Op>) returns (rets: seq<int>, ghost trace: seq<Moment>)
    requires q.Valid() && a !in q.l2Cache.Repr && a !in q.rcCache.Repr && q.firstFreeCluster == 0
    requires forall k :: 0 <= k < |ops| ==> Request(ops[k], a.Length, q.g.size)
    modifies q`file, q`firstFreeCluster, q`refcountTable, q`l1Table, q`own, q.l2Cache.Repr, q.rcCache.Repr, a
    ensures q.Valid() && Run(ops, rets, trace)
    ensures trace[0] == old(Now(q, a[..])) && trace[|ops|].mem == a[..] && trace[|ops|].disk == Disk(Opened(q.g, q.file))
    ensures SharedKept(old(q.own), old(q.file), q.own, q.file) && Inv(Opened(q.g, q.file), q.own)
  {
    ghost var m, own := q.Img(), q.own;
    OpenedAccounted(m, own);
    rets, trace := Replay(q, a, ops);
    ReopenAfter(m, own, q.Img(), q.own);
  }

  /** An image opened, used and closed: the file can be opened again, and then shows the disk
      that the last request left. */
  method Session(g: Geometry, file: seq<Byte>, ghost own: Owners, a: array<Byte>, ops: seq<Op>)
    returns (rets: seq<int>, file': seq<Byte>, ghost own': Owners, ghost trace: seq<Moment>)
    requires Inv(Opened(g, file), own)
    requires forall k :: 0 <= k < |ops| ==> Request(ops[k], a.Length, g.size)
    modifies a
    ensures Run(ops, rets, trace) && trace[0].mem == old(a[..]) && trace[|ops|].mem == a[..]
    ensures trace[0].disk == Disk(Opened(g, file)) && trace[|ops|].disk == Disk(Opened(g, file'))
    ensures SharedKept(own, file, own', file') && Inv(Opened(g, file'), own')
  {
    var q := new QcowState(g, file, own);
    rets, trace := UseAndClose(q, a, ops);
    file', own' := q.file, q.own;
  }

  /** Each session is a run, and begins with the memory and the disk the one before left. */
  ghost predicate Chained(runs: seq<seq<Op>>, rets: seq<seq<int>>, traces: seq<seq<Moment>>) {
    && |rets| == |traces| == |runs|
    && (forall i :: 0 <= i < |runs| ==> Run(runs[i], rets[i], traces[i]))
    && (forall i :: 0 < i < |runs| ==> Continues(runs[i - 1], traces[i - 1], traces[i]))
  }

  ghost predicate Continues(ops: seq<Op>, trace: seq<Moment>, next: seq<Moment>) {
    |ops| < |trace| && next != [] && next[0].mem == trace[|ops|].mem && next[0].disk == trace[|ops|].disk
  }

  /** The moment after the sessions so far. */
  ghost predicate EndsAt(runs: seq<seq<Op>>, traces: seq<seq<Moment>>, mem: seq<Byte>, disk: seq<Byte>) {
    var n := |runs| - 1;
    runs != [] ==> n < |traces| && |runs[n]| < |traces[n]| && traces[n][|runs[n]|].mem == mem && traces[n][|runs[n]|].disk == disk
  }

  lemma ChainPush(runs: seq<seq<Op>>, i: nat, rets: seq<seq<int>>, traces: seq<seq<Moment>>, ret: seq<int>, trace: seq<Moment>,
                  mem: seq<Byte>, disk: seq<Byte>)
    requires i < |runs| && Chained(runs[..i], rets, traces) && EndsAt(runs[..i], traces, mem, disk)
    requires Run(runs[i], ret, trace) && trace[0].mem == mem && trace[0].disk == disk
    ensures Chained(runs[..i + 1], rets + [ret], traces + [trace])
    ensures EndsAt(runs[..i + 1], traces + [trace], trace[|runs[i]|].mem, trace[|runs[i]|].disk)
  {
    var runs', rets', traces' := runs[..i + 1], rets + [ret], traces + [trace];
    forall k | 0 <= k < i + 1 ensures Run(runs'[k], rets'[k], traces'[k]) {
      assert k < i ==> Run(runs[..i][k], rets[k], traces[k]) && runs'[k] == runs[..i][k];
    }
    forall k | 0 < k < i + 1 ensures Continues(runs'[k - 1], traces'[k - 1], traces'[k]) {
      if k < i {
        assert Continues(runs[..i][k - 1], traces[k - 1], traces[k]);
      } else {
        assert runs'[i - 1] == runs[..i][i - 1];
      }
    }
  }

  lemma SharedTrans(own: Owners, f: seq<Byte>, own': Owners, f': seq<Byte>, own'': Owners, f'': seq<Byte>)
    requires SharedKept(own, f, own', f') && SharedKept(own', f', own'', f'')
    ensures SharedKept(own, f, own'', f'')
  {
    forall p | p in own && (own[p].Shared? || own[p].Header?) ensures ByteAt(f'', p) == ByteAt(f, p) {
      assert p in own' && own'[p] == own[p];
    }
  }

  /** Any number of sessions, one after the other, on one flat disk; bytes that may be shared
      with a snapshot stay as they were before the first. */
  method Sessions(g: Geometry, file: seq<Byte>, ghost own: Owners, a: array<Byte>, runs: seq<seq<Op>>)
    returns (rets: seq<seq<int>>, file': seq<Byte>, ghost own': Owners, ghost traces: seq<seq<Moment>>)
    requires Inv(Opened(g, file), own)
    requires forall i, k :: 0 <= i < |runs| && 0 <= k < |runs[i]| ==> Request(runs[i][k], a.Length, g.size)
    modifies a
    ensures Chained(runs, rets, traces) && EndsAt(runs, traces, a[..], Disk(Opened(g, file')))
    ensures runs != [] ==> traces[0][0].mem == old(a[..]) && traces[0][0].disk == Disk(Opened(g, file))
    ensures SharedKept(own, file, own', file') && Inv(Opened(g, file'), own')
  {
    rets, file', own', traces := [], file, own, [];
    assert runs[..|runs|] == runs;
    for i := 0 to |runs|
      invariant Inv(Opened(g, file'), own') && Chained(runs[..i], rets, traces)
      invariant EndsAt(runs[..i], traces, a[..], Disk(Opened(g, file'))) && SharedKept(own, file, own', file')
      invariant if i == 0 then file' == file && a[..] == old(a[..])
                else traces[0] != [] && traces[0][0].mem == old(a[..]) && traces[0][0].disk == Disk(Opened(g, file))
    {
      ghost var mem, disk, own1, file1 := a[..], Disk(Opened(g, file')), own', file';
      var ret;
      ghost var trace;
      ret, file', own', trace := Session(g, file', own', a, runs[i]);
      SharedTrans(own, file, own1, file1, own', file');
      ChainPush(runs, i, rets, traces, ret, trace, mem, disk);
      rets, traces := rets + [ret], traces + [trace];
    }
  }
}
