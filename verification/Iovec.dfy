/** Scatter-gather lists (api.c, and iovec_segment of qcow.c).  An iovec array denotes
    the sequence of memory addresses it covers; each helper is a take, a drop or a
    search on that sequence. */
module Iovec {
  import opened Bytes

  datatype Iovec = Iovec(base: nat, len: nat)

  /** The addresses from a up to a + n. */
  function Span(a: nat, n: nat): (s: seq<nat>)
    ensures |s| == n && forall i :: 0 <= i < n ==> s[i] == a + i
  {
    seq(n, i requires 0 <= i => a + i)
  }

  /** The addresses an iovec array covers, in transfer order. */
  function Addrs(v: seq<Iovec>): (s: seq<nat>) {
    if v == [] then [] else Span(v[0].base, v[0].len) + Addrs(v[1..])
  }

  lemma {:induction false} AddrsConcat(v: seq<Iovec>, w: seq<Iovec>)
    ensures Addrs(v + w) == Addrs(v) + Addrs(w)
  {
    if v == [] {
      assert v + w == w;
    } else {
      assert (v + w)[1..] == v[1..] + w;
      AddrsConcat(v[1..], w);
    }
  }

  /** Splitting the array splits the addresses. */
  lemma AddrsAt(v: seq<Iovec>, i: nat)
    requires i < |v|
    ensures Addrs(v) == Addrs(v[..i]) + Span(v[i].base, v[i].len) + Addrs(v[i + 1..])
    ensures Addrs(v[i..]) == Span(v[i].base, v[i].len) + Addrs(v[i + 1..])
  {
    assert v == v[..i] + v[i..];
    assert v[i..][1..] == v[i + 1..];
    AddrsConcat(v[..i], v[i..]);
  }

  lemma AddrsUpTo(v: seq<Iovec>, i: nat)
    requires i < |v|
    ensures Addrs(v[..i + 1]) == Addrs(v[..i]) + Span(v[i].base, v[i].len)
  {
    assert v[..i + 1] == v[..i] + [v[i]];
    assert [v[i]][1..] == [];
    AddrsConcat(v[..i], [v[i]]);
  }

  predicate InMemory(addrs: seq<nat>, n: nat) {
    forall i :: 0 <= i < |addrs| ==> addrs[i] < n
  }

  predicate Distinct(addrs: seq<nat>) {
    forall i, j :: 0 <= i < |addrs| && 0 <= j < |addrs| && addrs[i] == addrs[j] ==> i == j
  }

  /** The bytes found at a sequence of addresses. */
  function Load(mem: seq<Byte>, addrs: seq<nat>): (d: seq<Byte>)
    requires InMemory(addrs, |mem|)
    ensures |d| == |addrs| && forall i :: 0 <= i < |d| ==> d[i] == mem[addrs[i]]
  {
    seq<Byte>(|addrs|, i requires 0 <= i < |addrs| => mem[addrs[i]])
  }

  /** mem' is mem with `data` stored at the first |data| addresses, and nothing else changed. */
  ghost predicate Stored(mem: seq<Byte>, mem': seq<Byte>, addrs: seq<nat>, data: seq<Byte>) {
    && |mem'| == |mem| && |data| <= |addrs|
    && (forall i :: 0 <= i < |data| && addrs[i] < |mem| ==> mem'[addrs[i]] == data[i])
    && (forall p :: 0 <= p < |mem| && p !in addrs[..|data|] ==> mem'[p] == mem[p])
  }

  /** tcmu_iovec_length */
  method Length(iov: seq<Iovec>) returns (length: nat)
    ensures length == |Addrs(iov)|
  {
    length := 0;
    var i := 0;
    while i < |iov|
      invariant i <= |iov|
      invariant length == |Addrs(iov[..i])|
    {
      AddrsUpTo(iov, i);
      length := length + iov[i].len;
      i := i + 1;
    }
    assert iov[..i] == iov;
  }

  /** What tcmu_iovec_seek leaves in the descriptors. */
  function Sought(v: seq<Iovec>, n: nat): (w: seq<Iovec>)
    requires n <= |Addrs(v)|
    ensures |w| == |v|
  {
    if n == 0 then v
    else if n >= v[0].len then [v[0].(len := 0)] + Sought(v[1..], n - v[0].len)
    else [Iovec(v[0].base + n, v[0].len - n)] + v[1..]
  }

  /** The descriptors used up by a seek over n bytes. */
  function UsedUp(v: seq<Iovec>, n: nat): (k: nat)
    requires n <= |Addrs(v)|
    ensures k <= |v|
  {
    if n == 0 || n < v[0].len then 0 else 1 + UsedUp(v[1..], n - v[0].len)
  }

  /** A seek drops exactly n addresses; the descriptors it used up denote nothing. */
  lemma {:induction false} SoughtDrops(v: seq<Iovec>, n: nat)
    requires n <= |Addrs(v)|
    ensures Addrs(Sought(v, n)) == Addrs(v)[n..] == Addrs(Sought(v, n)[UsedUp(v, n)..])
  {
    if n != 0 {
      var w := Sought(v, n);
      assert w == [w[0]] + w[1..];
      if n >= v[0].len {
        SoughtDrops(v[1..], n - v[0].len);
        assert w[1..] == Sought(v[1..], n - v[0].len);
        assert w[UsedUp(v, n)..] == w[1..][UsedUp(v[1..], n - v[0].len)..];
      } else {
        assert w[1..] == v[1..];
        assert w[0..] == w;
      }
    } else {
      assert v[0..] == v;
    }
  }

  /** Part way through a seek: the first k descriptors are done, n bytes are left to drop. */
  ghost predicate Seeking(v: seq<Iovec>, count: nat, w: seq<Iovec>, k: nat, n: nat)
    requires count <= |Addrs(v)|
  {
    && k <= |w| == |v| && n <= |Addrs(w[k..])|
    && w[..k] + Sought(w[k..], n) == Sought(v, count)
    && k + UsedUp(w[k..], n) == UsedUp(v, count)
  }

  lemma SeekStep(v: seq<Iovec>, count: nat, w: seq<Iovec>, k: nat, n: nat)
    requires count <= |Addrs(v)| && Seeking(v, count, w, k, n) && n > 0
    ensures k < |w|
    ensures n >= w[k].len ==> Seeking(v, count, w[k := w[k].(len := 0)], k + 1, n - w[k].len)
    ensures n < w[k].len ==> Seeking(v, count, w[k := Iovec(w[k].base + n, w[k].len - n)], k, 0)
  {
    var tail := w[k..];
    assert tail[1..] == w[k + 1..];
    if n >= w[k].len {
      var w' := w[k := w[k].(len := 0)];
      assert w'[k + 1..] == w[k + 1..];
      assert w'[..k + 1] == w[..k] + [w'[k]];
      assert w[..k] + ([w'[k]] + Sought(w[k + 1..], n - w[k].len)) == w'[..k + 1] + Sought(w[k + 1..], n - w[k].len);
    } else {
      var w' := w[k := Iovec(w[k].base + n, w[k].len - n)];
      assert w'[k..] == [w'[k]] + tail[1..];
    }
  }

  lemma SeekEnd(v: seq<Iovec>, count: nat, w: seq<Iovec>, k: nat)
    requires count <= |Addrs(v)| && Seeking(v, count, w, k, 0)
    ensures w == Sought(v, count) && k == UsedUp(v, count)
    ensures Addrs(w) == Addrs(v)[count..] == Addrs(w[k..])
  {
    assert w == w[..k] + w[k..];
    SoughtDrops(v, count);
  }

  /** tcmu_iovec_seek: the first count bytes are dropped from the front, and the caller can
      go on with the descriptor after the consumed ones. */
  method Seek(iov: array<Iovec>, count: nat) returns (consumed: nat)
    requires count <= |Addrs(iov[..])|
    modifies iov
    ensures iov[..] == Sought(old(iov[..]), count) && consumed == UsedUp(old(iov[..]), count)
    ensures Addrs(iov[..]) == old(Addrs(iov[..]))[count..] == Addrs(iov[..][consumed..])
  {
    ghost var v := iov[..];
    consumed := 0;
    var left: nat := count;
    assert v[0..] == v;
    while left > 0
      invariant consumed <= iov.Length
      invariant Seeking(v, count, iov[..], consumed, left)
      decreases iov.Length - consumed, left
    {
      ghost var w := iov[..];
      SeekStep(v, count, w, consumed, left);
      var here := iov[consumed];
      if left >= here.len {
        left := left - here.len;
        iov[consumed] := here.(len := 0);
        consumed := consumed + 1;
        assert iov[..] == w[consumed - 1 := here.(len := 0)];
      } else {
        iov[consumed] := Iovec(here.base + left, here.len - left);
        assert iov[..] == w[consumed := iov[consumed]];
        left := 0;
      }
    }
    SeekEnd(v, count, iov[..], consumed);
  }

  // ------------------------------------------------------------------ compare

  lemma LoadByte(mem: seq<Byte>, v: seq<Iovec>, i: nat, c: nat, p: nat)
    requires i < |v| && InMemory(Addrs(v), |mem|) && c == |Addrs(v[..i])| && p < v[i].len
    ensures c + p < |Addrs(v)| && v[i].base + p < |mem|
    ensures Load(mem, Addrs(v))[c + p] == mem[v[i].base + p]
  {
    AddrsAt(v, i);
    assert Addrs(v)[c + p] == Span(v[i].base, v[i].len)[p];
  }

  /** tcmu_iovec_compare: the least index at which the buffer and the iovec differ, or -1. */
  method Compare(buf: seq<Byte>, mem: seq<Byte>, iov: seq<Iovec>, size: nat) returns (at: int)
    requires InMemory(Addrs(iov), |mem|) && size <= |buf| && size <= |Addrs(iov)|
    ensures at == -1 ==> buf[..size] == Load(mem, Addrs(iov))[..size]
    ensures at != -1 ==> 0 <= at < size && buf[at] != Load(mem, Addrs(iov))[at]
    ensures at != -1 ==> buf[..at] == Load(mem, Addrs(iov))[..at]
  {
    ghost var data := Load(mem, Addrs(iov));
    var off: nat, left: nat, i := 0, size, 0;
    assert iov[..0] == [];
    while left > 0
      invariant off + left == size && i <= |iov|
      invariant left > 0 ==> off == |Addrs(iov[..i])|
      invariant buf[..off] == data[..off]
      decreases |iov| - i
    {
      assert iov[..|iov|] == iov;
      AddrsUpTo(iov, i);
      var part := Min(left, iov[i].len);
      var pos: nat := 0;
      while pos < part
        invariant pos <= part
        invariant buf[..off + pos] == data[..off + pos]
      {
        LoadByte(mem, iov, i, off, pos);
        if buf[off + pos] != mem[iov[i].base + pos] {
          return off + pos;
        }
        pos := pos + 1;
      }
      left := left - part;
      off := off + part;
      i := i + 1;
    }
    at := -1;
  }

  // --------------------------------------------------------------- copy in, out

  lemma SpanSplit(base: nat, n: nat, len: nat, tail: seq<nat>)
    requires n <= len
    ensures (Span(base, len) + tail)[..n] == Span(base, n)
    ensures (Span(base, len) + tail)[n..] == Span(base + n, len - n) + tail
  {
  }

  /** The first k descriptors are used up. */
  predicate SpentTo(v: seq<Iovec>, k: nat)
    requires k <= |v|
  {
    forall i :: 0 <= i < k ==> v[i].len == 0
  }

  lemma {:induction false} SpentPrefix(v: seq<Iovec>, k: nat)
    requires k <= |v| && SpentTo(v, k)
    ensures Addrs(v) == Addrs(v[k..])
  {
    if k != 0 {
      SpentPrefix(v[1..], k - 1);
      assert v[1..][k - 1..] == v[k..];
    } else {
      assert v[0..] == v;
    }
  }

  lemma HeadAddrs(v: seq<Iovec>, k: nat)
    requires k < |v| && SpentTo(v, k)
    ensures Addrs(v) == Span(v[k].base, v[k].len) + Addrs(v[k + 1..])
  {
    SpentPrefix(v, k);
    assert v[k..][1..] == v[k + 1..];
  }

  /** Consuming n bytes of the first descriptor that is not used up. */
  lemma ConsumeAt(w: seq<Iovec>, k: nat, n: nat, w': seq<Iovec>)
    requires k < |w| && n <= w[k].len && SpentTo(w, k) && w' == w[k := Iovec(w[k].base + n, w[k].len - n)]
    ensures n <= |Addrs(w)| && Addrs(w)[..n] == Span(w[k].base, n) && Addrs(w') == Addrs(w)[n..]
    ensures n == w[k].len ==> SpentTo(w', k + 1)
  {
    HeadAddrs(w, k);
    HeadAddrs(w', k);
    assert w'[k + 1..] == w[k + 1..];
    SpanSplit(w[k].base, n, w[k].len, Addrs(w[k + 1..]));
  }

  /** The same, for an iovec that denotes what is left of addrs after c bytes. */
  lemma ConsumeStep(addrs: seq<nat>, c: nat, w: seq<Iovec>, k: nat, n: nat, w': seq<Iovec>, memory: nat)
    requires c <= |addrs| && Addrs(w) == addrs[c..] && InMemory(addrs, memory)
    requires k < |w| && n <= w[k].len && SpentTo(w, k) && w' == w[k := Iovec(w[k].base + n, w[k].len - n)]
    ensures c + n <= |addrs| && addrs[c..c + n] == Span(w[k].base, n) && Addrs(w') == addrs[c + n..]
    ensures n == w[k].len ==> SpentTo(w', k + 1)
    ensures n > 0 ==> w[k].base + n <= memory
  {
    ConsumeAt(w, k, n, w');
    assert addrs[c..][..n] == addrs[c..c + n] && addrs[c..][n..] == addrs[c + n..];
    if n > 0 {
      assert addrs[c + n - 1] == addrs[c..c + n][n - 1] == w[k].base + n - 1;
    }
  }

  lemma SpanMembers(base: nat, n: nat)
    ensures forall p :: p in Span(base, n) <==> base <= p < base + n
  {
    forall p | base <= p < base + n ensures p in Span(base, n) {
      assert Span(base, n)[p - base] == p;
    }
  }

  lemma DistinctSplit(addrs: seq<nat>, c: nat, n: nat, i: nat)
    requires Distinct(addrs) && i < c && c + n <= |addrs|
    ensures addrs[i] !in addrs[c..c + n]
  {
    var mid := addrs[c..c + n];
    forall q | 0 <= q < |mid| ensures mid[q] != addrs[i] {
      assert mid[q] == addrs[c + q];
    }
  }

  lemma StoreSpan(m0: seq<Byte>, m: seq<Byte>, m': seq<Byte>, addrs: seq<nat>, src: seq<Byte>, c: nat, base: nat, n: nat)
    requires c + n <= |src| && c + n <= |addrs| && Distinct(addrs) && InMemory(addrs, |m0|)
    requires Stored(m0, m, addrs, src[..c]) && addrs[c..c + n] == Span(base, n) && base + n <= |m|
    requires m' == m[..base] + src[c..c + n] + m[base + n..]
    ensures Stored(m0, m', addrs, src[..c + n])
  {
    SpanMembers(base, n);
    assert addrs[..c + n] == addrs[..c] + addrs[c..c + n];
    forall i | 0 <= i < c + n ensures m'[addrs[i]] == src[i] {
      if i < c {
        DistinctSplit(addrs, c, n, i);
        assert addrs[i] !in Span(base, n);
        assert m'[addrs[i]] == m[addrs[i]] == src[..c][i];
      } else {
        assert addrs[i] == addrs[c..c + n][i - c] == base + (i - c);
        assert m'[base + (i - c)] == src[c..c + n][i - c];
      }
    }
  }

  /** memcpy to address base */
  method Memcpy(a: array<Byte>, base: nat, data: seq<Byte>)
    requires base + |data| <= a.Length
    modifies a
    ensures a[..] == old(a[..])[..base] + data + old(a[..])[base + |data|..]
  {
    forall i | 0 <= i < |data| {
      a[base + i] := data[i];
    }
  }

  /** tcmu_memcpy_into_iovec: exactly min(len, capacity) bytes reach memory, at the first
      addresses of the iovec, which are consumed. */
  method MemcpyInto(a: array<Byte>, iov: array<Iovec>, src: seq<Byte>) returns (copied: nat)
    requires InMemory(Addrs(iov[..]), a.Length) && Distinct(Addrs(iov[..]))
    modifies a, iov
    ensures copied == Min(|src|, |old(Addrs(iov[..]))|)
    ensures Stored(old(a[..]), a[..], old(Addrs(iov[..])), src[..copied])
    ensures Addrs(iov[..]) == old(Addrs(iov[..]))[copied..]
  {
    ghost var addrs, m0 := Addrs(iov[..]), a[..];
    copied := 0;
    var k := 0;
    while copied < |src| && k < iov.Length
      invariant k <= iov.Length && copied <= |src| && copied <= |addrs|
      invariant Addrs(iov[..]) == addrs[copied..]
      invariant copied < |src| ==> SpentTo(iov[..], k)
      invariant Stored(m0, a[..], addrs, src[..copied])
    {
      var n := Min(iov[k].len, |src| - copied);
      CopyPiece(m0, addrs, a, iov, src, copied, k, n);
      copied := copied + n;
      k := k + 1;
    }
    if copied < |src| {
      SpentPrefix(iov[..], k);
    }
  }

  /** One turn of the loop of tcmu_memcpy_into_iovec. */
  method CopyPiece(ghost m0: seq<Byte>, ghost addrs: seq<nat>, a: array<Byte>, iov: array<Iovec>, src: seq<Byte>, copied: nat, k: nat, n: nat)
    requires InMemory(addrs, a.Length) && Distinct(addrs) && copied <= |addrs| && Addrs(iov[..]) == addrs[copied..]
    requires k < iov.Length && SpentTo(iov[..], k) && n <= iov[k].len && copied + n <= |src|
    requires |m0| == a.Length && Stored(m0, a[..], addrs, src[..copied])
    modifies a, iov
    ensures copied + n <= |addrs| && Addrs(iov[..]) == addrs[copied + n..]
    ensures n == old(iov[k].len) ==> SpentTo(iov[..], k + 1)
    ensures Stored(m0, a[..], addrs, src[..copied + n])
  {
    ghost var w, m := iov[..], a[..];
    ConsumeStep(addrs, copied, w, k, n, w[k := Iovec(w[k].base + n, w[k].len - n)], a.Length);
    if n > 0 {
      Memcpy(a, iov[k].base, src[copied..copied + n]);
      StoreSpan(m0, m, a[..], addrs, src, copied, w[k].base, n);
    }
    iov[k] := Iovec(iov[k].base + n, iov[k].len - n);
    assert iov[..] == w[k := iov[k]];
  }

  lemma LoadSpan(mem: seq<Byte>, addrs: seq<nat>, c: nat, n: nat, base: nat)
    requires InMemory(addrs, |mem|) && c + n <= |addrs| && addrs[c..c + n] == Span(base, n) && n > 0
    ensures base + n <= |mem| && Load(mem, addrs)[c..c + n] == mem[base..base + n]
  {
    assert addrs[c + n - 1] == addrs[c..c + n][n - 1] == base + n - 1;
    var got, want := Load(mem, addrs)[c..c + n], mem[base..base + n];
    forall q | 0 <= q < n ensures got[q] == want[q] {
      assert addrs[c + q] == addrs[c..c + n][q] == Span(base, n)[q];
    }
  }

  /** The destination after c bytes have been gathered. */
  function Gathered(want: seq<Byte>, d0: seq<Byte>, c: nat): (d: seq<Byte>)
    requires c <= |want| && c <= |d0|
    ensures |d| == |d0|
  {
    want[..c] + d0[c..]
  }

  lemma GatheredMore(want: seq<Byte>, d0: seq<Byte>, c: nat, n: nat)
    requires c + n <= |want| && c + n <= |d0|
    ensures var d := Gathered(want, d0, c);
            d[..c] + want[c..c + n] + d[c + n..] == Gathered(want, d0, c + n)
  {
  }

  /** One turn of the loop of tcmu_memcpy_from_iovec. */
  method GatherPiece(ghost addrs: seq<nat>, ghost want: seq<Byte>, ghost d0: seq<Byte>,
                     dest: array<Byte>, mem: seq<Byte>, iov: array<Iovec>, copied: nat, k: nat, n: nat)
    requires InMemory(addrs, |mem|) && want == Load(mem, addrs) && copied <= |addrs| && Addrs(iov[..]) == addrs[copied..]
    requires k < iov.Length && SpentTo(iov[..], k) && n <= iov[k].len && copied + n <= dest.Length == |d0|
    requires dest[..] == Gathered(want, d0, copied)
    modifies dest, iov
    ensures copied + n <= |addrs| && Addrs(iov[..]) == addrs[copied + n..]
    ensures n == old(iov[k].len) ==> SpentTo(iov[..], k + 1)
    ensures dest[..] == Gathered(want, d0, copied + n)
  {
    ghost var w := iov[..];
    ConsumeStep(addrs, copied, w, k, n, w[k := Iovec(w[k].base + n, w[k].len - n)], |mem|);
    if n > 0 {
      LoadSpan(mem, addrs, copied, n, iov[k].base);
      GatheredMore(want, d0, copied, n);
      Memcpy(dest, copied, mem[iov[k].base..iov[k].base + n]);
    }
    iov[k] := Iovec(iov[k].base + n, iov[k].len - n);
    assert iov[..] == w[k := iov[k]];
  }

  /** tcmu_memcpy_from_iovec: exactly min(len, available) bytes are gathered and consumed. */
  method MemcpyFrom(dest: array<Byte>, mem: seq<Byte>, iov: array<Iovec>) returns (copied: nat)
    requires InMemory(Addrs(iov[..]), |mem|)
    modifies dest, iov
    ensures copied == Min(dest.Length, |old(Addrs(iov[..]))|)
    ensures dest[..] == Load(mem, old(Addrs(iov[..])))[..copied] + old(dest[..])[copied..]
    ensures Addrs(iov[..]) == old(Addrs(iov[..]))[copied..]
  {
    ghost var addrs, d0 := Addrs(iov[..]), dest[..];
    ghost var want := Load(mem, addrs);
    copied := 0;
    var k := 0;
    while copied < dest.Length && k < iov.Length
      invariant k <= iov.Length && copied <= dest.Length && copied <= |addrs|
      invariant Addrs(iov[..]) == addrs[copied..]
      invariant copied < dest.Length ==> SpentTo(iov[..], k)
      invariant dest[..] == Gathered(want, d0, copied)
    {
      var n := Min(iov[k].len, dest.Length - copied);
      GatherPiece(addrs, want, d0, dest, mem, iov, copied, k, n);
      copied := copied + n;
      k := k + 1;
    }
    if copied < dest.Length {
      SpentPrefix(iov[..], k);
    }
  }

  /** The kernel's side of preadv, and iovec_memset: bytes stored at a sequence of addresses. */
  method Scatter(a: array<Byte>, addrs: seq<nat>, data: seq<Byte>)
    requires |data| <= |addrs| && InMemory(addrs, a.Length) && Distinct(addrs)
    modifies a
    ensures Stored(old(a[..]), a[..], addrs, data)
  {
    for i := 0 to |data|
      invariant forall k :: 0 <= k < i ==> a[addrs[k]] == data[k]
      invariant forall p :: 0 <= p < a.Length && p !in addrs[..i] ==> a[p] == old(a[p])
    {
      assert addrs[..i + 1] == addrs[..i] + [addrs[i]];
      a[addrs[i]] := data[i];
    }
  }

  /** Two stores, one after the other along the same addresses, are one store. */
  lemma StoredTwice(m0: seq<Byte>, m1: seq<Byte>, m2: seq<Byte>, addrs: seq<nat>, data: seq<Byte>, c: nat)
    requires c <= |data| <= |addrs| && Distinct(addrs) && InMemory(addrs, |m0|)
    requires Stored(m0, m1, addrs, data[..c]) && Stored(m1, m2, addrs[c..|data|], data[c..])
    ensures Stored(m0, m2, addrs, data)
  {
    var rest := addrs[c..|data|];
    assert rest[..|data| - c] == rest;
    assert addrs[..|data|] == addrs[..c] + rest;
    forall i | 0 <= i < |data| ensures m2[addrs[i]] == data[i] {
      if i < c {
        DistinctSplit(addrs, c, |data| - c, i);
        assert m1[addrs[i]] == data[..c][i];
      } else {
        assert rest[i - c] == addrs[i];
        assert m2[rest[i - c]] == data[c..][i - c];
      }
    }
  }

  // ------------------------------------------------------------------ segments

  lemma AddrsSnoc(v: seq<Iovec>, e: Iovec)
    ensures Addrs(v + [e]) == Addrs(v) + Span(e.base, e.len)
  {
    assert [e][1..] == [];
    AddrsConcat(v, [e]);
  }

  /** Part way through: what seg denotes, followed by the slice still to come, is the slice wanted. */
  ghost predicate Segmenting(want: seq<nat>, seg: seq<Iovec>, iov: seq<Iovec>, i: nat, off: nat, len: nat) {
    && |seg| <= i <= |iov| && off + len <= |Addrs(iov[i..])|
    && Addrs(seg) + Addrs(iov[i..])[off..off + len] == want
  }

  lemma SkipPiece(want: seq<nat>, seg: seq<Iovec>, iov: seq<Iovec>, i: nat, off: nat, len: nat)
    requires Segmenting(want, seg, iov, i, off, len) && i < |iov| && off >= iov[i].len
    ensures Segmenting(want, seg, iov, i + 1, off - iov[i].len, len)
  {
    AddrsAt(iov, i);
    assert Addrs(iov[i..])[off..off + len] == Addrs(iov[i + 1..])[off - iov[i].len..off - iov[i].len + len];
  }

  lemma TakePiece(want: seq<nat>, seg: seq<Iovec>, iov: seq<Iovec>, i: nat, off: nat, len: nat, piece: Iovec)
    requires Segmenting(want, seg, iov, i, off, len) && i < |iov| && off <= iov[i].len
    requires piece == Iovec(iov[i].base + off, Min(iov[i].len - off, len))
    ensures Segmenting(want, seg + [piece], iov, i + 1, 0, len - piece.len)
  {
    AddrsAt(iov, i);
    AddrsSnoc(seg, piece);
    assert Addrs(iov[i..])[off..off + len] == Span(piece.base, piece.len) + Addrs(iov[i + 1..])[..len - piece.len];
  }

  /** iovec_segment: the slice [off, off + len) of what the array denotes, in no more
      descriptors than the array has. */
  method Segment(iov: seq<Iovec>, off: nat, len: nat) returns (seg: seq<Iovec>)
    requires off + len <= |Addrs(iov)|
    ensures Addrs(seg) == Addrs(iov)[off..off + len] && |seg| <= |iov|
  {
    ghost var want := Addrs(iov)[off..off + len];
    var i, o: nat, l: nat := 0, off, len;
    seg := [];
    assert iov[0..] == iov;
    while o > 0
      invariant i <= |iov| && Segmenting(want, seg, iov, i, o, l)
      decreases |iov| - i
    {
      if o >= iov[i].len {
        SkipPiece(want, seg, iov, i, o, l);
        o := o - iov[i].len;
      } else {
        var piece := Iovec(iov[i].base + o, Min(iov[i].len - o, l));
        TakePiece(want, seg, iov, i, o, l, piece);
        seg := seg + [piece];
        o := 0;
        l := l - piece.len;
      }
      i := i + 1;
    }
    while l > 0
      invariant i <= |iov| && Segmenting(want, seg, iov, i, 0, l)
      decreases |iov| - i
    {
      var piece := Iovec(iov[i].base, Min(iov[i].len, l));
      TakePiece(want, seg, iov, i, 0, l, piece);
      seg := seg + [piece];
      l := l - piece.len;
      i := i + 1;
    }
  }
}
