/** The write-through caches of qcow.c: l2_cache_lookup and rc_cache_lookup are the
    same code over tables of different sizes. */
module TableCache {
  import opened Arith
  import opened Bytes

  /** L2_CACHE_SIZE and RC_CACHE_SIZE */
  const CACHE_SIZE: nat := 16

  /** Every used slot equals its table in the file, and no table is held twice. */
  predicate Coherent(f: seq<Byte>, len: nat, offsets: seq<nat>, tables: seq<seq<Byte>>) {
    && |offsets| == |tables|
    && (forall s :: 0 <= s < |offsets| ==> SlotAgrees(f, len, offsets[s], tables[s]))
    && (forall s, t :: 0 <= s < |offsets| && 0 <= t < |offsets| && offsets[s] != 0 && offsets[s] == offsets[t] ==> s == t)
  }

  predicate SlotAgrees(f: seq<Byte>, len: nat, offset: nat, table: seq<Byte>) {
    offset != 0 ==> table == Slice(f, offset, len)
  }

  /** Writes that miss every cached table do not disturb the cache. */
  lemma CoherentFrame(f: seq<Byte>, f': seq<Byte>, len: nat, offsets: seq<nat>, tables: seq<seq<Byte>>)
    requires Coherent(f, len, offsets, tables)
    requires forall s :: 0 <= s < |offsets| && offsets[s] != 0 ==> Slice(f', offsets[s], len) == Slice(f, offsets[s], len)
    ensures Coherent(f', len, offsets, tables)
  {
  }

  /** memcpy of `data` to position pos of a table */
  function Splice(table: seq<Byte>, pos: nat, data: seq<Byte>): (t: seq<Byte>)
    requires pos + |data| <= |table|
    ensures |t| == |table|
  {
    table[..pos] + data + table[pos + |data|..]
  }

  lemma SpliceSlice(f: seq<Byte>, off: nat, len: nat, pos: nat, data: seq<Byte>)
    requires pos + |data| <= len
    ensures Splice(Slice(f, off, len), pos, data) == Slice(Pwrite(f, off + pos, data), off, len)
  {
  }

  lemma SlotStore(f: seq<Byte>, len: nat, offset: nat, table: seq<Byte>, pos: nat, data: seq<Byte>, f': seq<Byte>)
    requires SlotAgrees(f, len, offset, table) && offset != 0 && |table| == len && pos + |data| <= len
    requires f' == Pwrite(f, offset + pos, data)
    ensures SlotAgrees(f', len, offset, Splice(table, pos, data))
  {
    SpliceSlice(f, offset, len, pos, data);
  }

  /** A store into one cached table, written through, keeps the cache in step. */
  lemma CoherentStore(f: seq<Byte>, len: nat, offsets: seq<nat>, tables: seq<seq<Byte>>, slot: nat, pos: nat, data: seq<Byte>, f': seq<Byte>)
    requires Coherent(f, len, offsets, tables) && slot < |offsets| && offsets[slot] != 0
    requires |tables[slot]| == len && pos + |data| <= len && f' == Pwrite(f, offsets[slot] + pos, data)
    requires forall s :: 0 <= s < |offsets| && offsets[s] != 0 && s != slot ==>
               Slice(f', offsets[s], len) == Slice(f, offsets[s], len)
    ensures Coherent(f', len, offsets, tables[slot := Splice(tables[slot], pos, data)])
  {
    var tables' := tables[slot := Splice(tables[slot], pos, data)];
    forall s | 0 <= s < |offsets| ensures SlotAgrees(f', len, offsets[s], tables'[s]) {
      assert SlotAgrees(f, len, offsets[s], tables[s]);
      if s == slot {
        SlotStore(f, len, offsets[s], tables[s], pos, data, f');
      } else if offsets[s] != 0 {
        assert tables'[s] == tables[s] && Slice(f', offsets[s], len) == Slice(f, offsets[s], len);
      }
    }
  }

  /** What pread delivers of a table that runs past the end of the file. */
  function Short(f: seq<Byte>, off: nat): (got: seq<Byte>)
    ensures |got| == if off < |f| then |f| - off else 0
  {
    Slice(f, off, if off < |f| then |f| - off else 0)
  }

  /** A table's buffer overwritten from its start, its offset left in place: the cache still
      agrees with the file exactly if the slot is unused or the bytes happen to be the same. */
  lemma Overwrite(f: seq<Byte>, len: nat, offsets: seq<nat>, tables: seq<seq<Byte>>, slot: nat, got: seq<Byte>)
    requires Coherent(f, len, offsets, tables) && slot < |offsets| && |got| <= |tables[slot]|
    ensures Coherent(f, len, offsets, tables[slot := Splice(tables[slot], 0, got)]) <==>
            offsets[slot] == 0 || got == tables[slot][..|got|]
  {
    var table := Splice(tables[slot], 0, got);
    assert table[..|got|] == got;
    if got == tables[slot][..|got|] {
      assert table == tables[slot];
    }
    var tables' := tables[slot := table];
    if Coherent(f, len, offsets, tables') && offsets[slot] != 0 {
      assert tables'[slot] == Slice(f, offsets[slot], len) == tables[slot];
    }
  }

  /** How many entries are zero: slots of a cache or of a table that are unused. */
  function Empty(s: seq<nat>): nat {
    if s == [] then 0 else (if s[0] == 0 then 1 else 0) + Empty(s[1..])
  }

  lemma {:induction false} FillSlot(s: seq<nat>, k: nat, v: nat)
    requires k < |s| && s[k] == 0 && v != 0
    ensures Empty(s[k := v]) == Empty(s) - 1
  {
    if k != 0 {
      assert s[k := v][1..] == s[1..][k - 1 := v];
      FillSlot(s[1..], k - 1, v);
    } else {
      assert s[k := v][1..] == s[1..];
    }
  }

  lemma {:induction false} EmptyNone(s: seq<nat>)
    ensures Empty(s) == 0 <==> 0 !in s
  {
    if s != [] {
      EmptyNone(s[1..]);
    }
  }

  lemma {:induction false} EmptyAll(s: seq<nat>)
    requires forall k :: 0 <= k < |s| ==> s[k] == 0
    ensures Empty(s) == |s|
  {
    if s != [] {
      EmptyAll(s[1..]);
    }
  }

  class Cache {
    const len: nat
    const offsets: array<nat>
    const counts: array<nat>
    const tables: array<seq<Byte>>

    ghost const Repr: set<object> := {offsets, counts, tables}

    /** A slot is unused exactly if its count is zero. */
    ghost predicate Valid()
      reads Repr
    {
      && offsets.Length == counts.Length == tables.Length == CACHE_SIZE
      && offsets != counts && len > 0
      && (forall s :: 0 <= s < CACHE_SIZE ==> (counts[s] == 0 <==> offsets[s] == 0))
      && forall s :: 0 <= s < tables.Length ==> |tables[s]| == len
    }

    ghost predicate Agrees(f: seq<Byte>)
      reads offsets, tables
    {
      Coherent(f, len, offsets[..], tables[..])
    }

    constructor (len: nat)
      requires len > 0
      ensures this.len == len && Valid() && fresh(Repr)
      ensures forall s :: 0 <= s < offsets.Length ==> offsets[s] == 0 && counts[s] == 0 && tables[s] == Zeros(len)
      ensures forall f :: Agrees(f)
    {
      this.len := len;
      offsets := new nat[CACHE_SIZE](_ => 0);
      counts := new nat[CACHE_SIZE](_ => 0);
      tables := new seq<Byte>[CACHE_SIZE](_ => Zeros(len));
    }

    /** The first loop: the slot that holds the table at `off`, or CACHE_SIZE. */
    method Find(off: nat) returns (slot: nat)
      requires Valid()
      ensures slot <= CACHE_SIZE
      ensures slot < CACHE_SIZE ==> offsets[slot] == off
      ensures slot == CACHE_SIZE ==> forall s :: 0 <= s < CACHE_SIZE ==> offsets[s] != off
    {
      slot := 0;
      while slot < CACHE_SIZE
        invariant slot <= CACHE_SIZE
        invariant forall s :: 0 <= s < slot ==> offsets[s] != off
      {
        if offsets[slot] == off {
          return;
        }
        slot := slot + 1;
      }
    }

    /** The second loop: the least used slot. */
    method Victim() returns (slot: nat)
      requires Valid()
      ensures slot < CACHE_SIZE
      ensures (exists s :: 0 <= s < CACHE_SIZE && counts[s] < INT_MAX) ==>
                forall s :: 0 <= s < CACHE_SIZE ==> counts[slot] <= counts[s]
    {
      slot := 0;
      var least := INT_MAX;
      for i := 0 to CACHE_SIZE
        invariant slot < CACHE_SIZE
        invariant least <= INT_MAX
        invariant least < INT_MAX ==> least == counts[slot]
        invariant forall s :: 0 <= s < i ==> least <= counts[s]
      {
        if counts[i] < least {
          least := counts[i];
          slot := i;
        }
      }
    }

    /** Whatever was looked up before, a successful lookup yields the table as the
        file holds it.  It fails only when the table runs past the end of the file;
        then the victim's buffer has been overwritten under its old offset, and the cache
        agrees with the file exactly if some slot was still unused, which the victim then was,
        or the bytes made no difference. */
    method Lookup(f: seq<Byte>, off: nat) returns (ok: bool, slot: nat)
      requires Valid() && Agrees(f) && off != 0
      modifies Repr
      ensures Valid() && slot < CACHE_SIZE
      ensures ok <==> off in old(offsets[..]) || off + len <= |f|
      ensures ok ==> Agrees(f) && offsets[slot] == off && tables[slot] == Slice(f, off, len)
      ensures ok ==> tables[..] == old(tables[..])[slot := Slice(f, off, len)]
      ensures ok ==> offsets[..] == old(offsets[..])[slot := off]
      ensures !ok ==> |Short(f, off)| < len && offsets[..] == old(offsets[..]) && counts[..] == old(counts[..])
      ensures !ok ==> tables[..] == old(tables[..])[slot := Splice(old(tables[slot]), 0, Short(f, off))]
      ensures old(offsets[slot]) == 0 <==> off !in old(offsets[..]) && 0 in old(offsets[..])
      ensures !ok ==> (Agrees(f) <==> 0 in old(offsets[..]) || Short(f, off) == old(tables[slot])[..|Short(f, off)|])
      ensures off in old(offsets[..]) ==> offsets[..] == old(offsets[..]) && tables[..] == old(tables[..])
      ensures ok ==> counts[..] == old(counts[..])[slot := if off in old(offsets[..]) then old(counts[slot]) + 1 else 1]
      ensures off !in old(offsets[..]) && (exists s :: 0 <= s < CACHE_SIZE && old(counts[s]) < INT_MAX) ==>
                forall s :: 0 <= s < CACHE_SIZE ==> old(counts[slot]) <= old(counts[s])
    {
      slot := Find(off);
      if slot < CACHE_SIZE {
        counts[slot] := counts[slot] + 1;
        ok := true;
        return;
      }
      slot := Victim();
      ok := off + len <= |f|;
      var got := if ok then Slice(f, off, len) else Short(f, off);
      if !ok {
        Overwrite(f, len, offsets[..], tables[..], slot, got);
      }
      tables[slot] := Splice(tables[slot], 0, got);
      assert |got| == len ==> tables[slot] == got;
      if |got| == len {
        offsets[slot] := off;
        counts[slot] := 1;
      }
    }
  }

  // ---- A lookup that fails ------------------------------------------------------------

  /** What a cache holds. */
  datatype Contents = Contents(offsets: seq<nat>, counts: seq<nat>, tables: seq<seq<Byte>>)

  ghost function Held(c: Cache): Contents
    reads c.offsets, c.counts, c.tables
  {
    Contents(c.offsets[..], c.counts[..], c.tables[..])
  }

  ghost predicate Unused(s: Contents, len: nat) {
    && |s.offsets| == |s.counts| == |s.tables| == CACHE_SIZE
    && forall k :: 0 <= k < CACHE_SIZE ==> s.offsets[k] == 0 && s.counts[k] == 0 && s.tables[k] == Zeros(len)
  }

  /** A lookup of the table at `off`, with its slot and its success, leads from s to s'. */
  ghost predicate Turns(f: seq<Byte>, len: nat, off: nat, s: Contents, s': Contents, slot: nat, ok: bool) {
    && slot < |s.offsets| == |s.counts| == |s.tables|
    && if off in s.offsets then ok && s.offsets[slot] == off && s' == s.(counts := s.counts[slot := s.counts[slot] + 1])
       else
         && ((exists k :: 0 <= k < |s.counts| && s.counts[k] < INT_MAX) ==> forall k :: 0 <= k < |s.counts| ==> s.counts[slot] <= s.counts[k])
         && ok == (off + len <= |f|)
         && (ok || |Short(f, off)| <= |s.tables[slot]|)
         && s' == if ok then Contents(s.offsets[slot := off], s.counts[slot := 1], s.tables[slot := Slice(f, off, len)])
                  else s.(tables := s.tables[slot := Splice(s.tables[slot], 0, Short(f, off))])
  }

  /** Lookups one after the other: offsets, slots and answers, and what the cache held before
      and after each. */
  datatype Trail = Trail(offs: seq<nat>, slots: seq<nat>, oks: seq<bool>, states: seq<Contents>)

  ghost predicate Lookups(f: seq<Byte>, len: nat, t: Trail) {
    && |t.slots| == |t.oks| == |t.offs| && |t.states| == |t.offs| + 1 && Unused(t.states[0], len)
    && forall k :: 0 <= k < |t.offs| ==> Turns(f, len, t.offs[k], t.states[k], t.states[k + 1], t.slots[k], t.oks[k])
  }

  ghost function Then(t: Trail, off: nat, slot: nat, ok: bool, s: Contents): Trail {
    Trail(t.offs + [off], t.slots + [slot], t.oks + [ok], t.states + [s])
  }

  lemma LookupsPush(f: seq<Byte>, len: nat, t: Trail, off: nat, slot: nat, ok: bool, s: Contents)
    requires Lookups(f, len, t) && Turns(f, len, off, t.states[|t.offs|], s, slot, ok)
    ensures Lookups(f, len, Then(t, off, slot, ok, s))
  {
    var t' := Then(t, off, slot, ok, s);
    forall k | 0 <= k < |t'.offs| ensures Turns(f, len, t'.offs[k], t'.states[k], t'.states[k + 1], t'.slots[k], t'.oks[k]) {
      assert k < |t.offs| ==> Turns(f, len, t.offs[k], t.states[k], t.states[k + 1], t.slots[k], t.oks[k]);
    }
  }

  /** A lookup is such a turn. */
  method LookupTurn(c: Cache, f: seq<Byte>, off: nat) returns (ok: bool, slot: nat)
    requires c.Valid() && c.Agrees(f) && off != 0
    modifies c.Repr
    ensures c.Valid() && slot < CACHE_SIZE && (ok ==> c.Agrees(f)) && Turns(f, c.len, off, old(Held(c)), Held(c), slot, ok)
    ensures ok <==> off in old(c.offsets[..]) || off + c.len <= |f|
    ensures ok ==> c.offsets[..] == old(c.offsets[..])[slot := off]
    ensures !ok ==> (c.Agrees(f) <==> 0 in old(c.offsets[..]) || Short(f, off) == old(c.tables[slot])[..|Short(f, off)|])
    ensures old(c.offsets[slot]) == 0 <==> off !in old(c.offsets[..]) && 0 in old(c.offsets[..])
  {
    ok, slot := c.Lookup(f, off);
  }

  /** The tables at len, 2 * len, ... have been looked up. */
  ghost predicate InTurn(t: Trail, len: nat) {
    forall k :: 0 <= k < |t.offs| ==> t.offs[k] == (k + 1) * len
  }

  /** They are in slots of their own, and the rest are unused. */
  ghost predicate Filling(c: Cache, len: nat, f: seq<Byte>, t: Trail)
    reads c.Repr
  {
    && c.len == len && c.Valid() && c.Agrees(f) && |t.offs| <= CACHE_SIZE && Empty(c.offsets[..]) == CACHE_SIZE - |t.offs|
    && (forall s :: 0 <= s < CACHE_SIZE ==> c.offsets[s] <= |t.offs| * len)
    && Lookups(f, len, t) && t.states[|t.offs|] == Held(c) && InTurn(t, len)
    && (forall k :: 0 <= k < |t.offs| ==> t.oks[k])
  }

  /** One more table goes into an unused slot. */
  method Admit(c: Cache, len: nat, f: seq<Byte>, ghost t: Trail, off: nat) returns (ghost t': Trail)
    requires Filling(c, len, f, t) && |t.offs| < CACHE_SIZE && |f| == 17 * len + 1 && off == (|t.offs| + 1) * len
    modifies c.Repr
    ensures Filling(c, len, f, t') && |t'.offs| == |t.offs| + 1
  {
    MulMono(|t.offs| + 1, CACHE_SIZE, len);
    Distribute(|t.offs|, 1, len);
    var ok, slot := IntoUnused(c, f, off);
    LookupsPush(f, len, t, off, slot, ok, Held(c));
    t' := Then(t, off, slot, ok, Held(c));
  }

  method IntoUnused(c: Cache, f: seq<Byte>, off: nat) returns (ok: bool, slot: nat)
    requires c.Valid() && c.Agrees(f) && Empty(c.offsets[..]) > 0 && 0 < off && off + c.len <= |f|
    requires forall s :: 0 <= s < CACHE_SIZE ==> c.offsets[s] < off
    modifies c.Repr
    ensures c.Valid() && c.Agrees(f) && ok && Turns(f, c.len, off, old(Held(c)), Held(c), slot, ok)
    ensures Empty(c.offsets[..]) == old(Empty(c.offsets[..])) - 1
    ensures forall s :: 0 <= s < CACHE_SIZE ==> c.offsets[s] <= off
  {
    ghost var offsets := c.offsets[..];
    EmptyNone(offsets);
    ok, slot := LookupTurn(c, f, off);
    FillSlot(offsets, slot, off);
    assert forall s :: 0 <= s < CACHE_SIZE ==> c.offsets[s] == c.offsets[..][s];
  }

  /** Sixteen tables are looked up, and every slot is in use. */
  method Fill(len: nat, f: seq<Byte>) returns (c: Cache, ghost t: Trail)
    requires len > 1 && |f| == 17 * len + 1
    ensures fresh(c) && fresh(c.Repr) && Filling(c, len, f, t) && |t.offs| == CACHE_SIZE
  {
    c := new Cache(len);
    var off := len;
    EmptyAll(c.offsets[..]);
    t := Trail([], [], [], [Held(c)]);
    for i := 0 to CACHE_SIZE
      invariant fresh(c) && fresh(c.Repr) && off == (i + 1) * len && |t.offs| == i && Filling(c, len, f, t)
    {
      t := Admit(c, len, f, t, off);
      Distribute(i + 1, 1, len);
      off := off + len;
    }
  }

  /** Then a seventeenth table is cut short by the end of the file, and the cache no longer
      agrees with it. */
  method LookupLoses(len: nat) returns (c: Cache, f: seq<Byte>, ghost t: Trail)
    requires len > 1
    ensures fresh(c) && c.Valid() && f == Zeros(17 * len) + [9] && Lookups(f, len, t) && t.states[|t.offs|] == Held(c)
    ensures |t.offs| == 17 && InTurn(t, len) && forall k :: 0 <= k < 17 ==> (t.oks[k] <==> k < 16)
    ensures 0 !in c.offsets[..] && !c.Agrees(f)
  {
    f := Zeros(17 * len) + [9];
    ghost var t0;
    c, t0 := Fill(len, f);
    var off := 17 * len;
    ghost var offsets, tables := c.offsets[..], c.tables[..];
    EmptyNone(offsets);
    var ok, slot := LookupTurn(c, f, off);
    assert SlotAgrees(f, len, offsets[slot], tables[slot]);
    assert Short(f, off)[0] == 9 && tables[slot][0] == 0;
    LookupsPush(f, len, t0, off, slot, ok, Held(c));
    t := Then(t0, off, slot, ok, Held(c));
  }
}
