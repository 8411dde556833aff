/** Bytes, big-endian numbers and the host file operations the handlers rest on.
    A host file is a byte sequence; every operation is total and says what a
    successful call leaves behind. */
module Bytes {

  type Byte = x: int | 0 <= x < 256

  function Min(a: nat, b: nat): nat { if a < b then a else b }

  function Zeros(n: nat): (z: seq<Byte>)
    ensures |z| == n && forall i :: 0 <= i < n ==> z[i] == 0
  {
    seq(n, i => 0)
  }

  function Pow256(n: nat): (p: nat)
    ensures p >= 1
  {
    if n == 0 then 1 else 256 * Pow256(n - 1)
  }

  /** The first n bytes as a big-endian number. */
  function Fold(b: seq<Byte>, n: nat): (v: nat)
    requires n <= |b|
  {
    if n == 0 then 0 else Fold(b, n - 1) * 256 + b[n - 1]
  }

  /** be16toh, be32toh and be64toh of 2, 4 or 8 bytes. */
  function GetBE(b: seq<Byte>): nat {
    Fold(b, |b|)
  }

  /** (v >> 8 * k) & 0xff */
  function Digit(v: nat, k: nat): Byte {
    if k == 0 then v % 256 else Digit(v / 256, k - 1)
  }

  /** htobe16, htobe32 and htobe64: the n low bytes, most significant first. */
  function PutBE(v: nat, n: nat): (b: seq<Byte>)
    ensures |b| == n
  {
    seq<Byte>(n, i requires 0 <= i < n => Digit(v, n - 1 - i))
  }

  lemma {:induction false} FoldPrefix(a: seq<Byte>, b: seq<Byte>, n: nat)
    requires n <= |a| && n <= |b| && a[..n] == b[..n]
    ensures Fold(a, n) == Fold(b, n)
  {
    if n != 0 {
      assert a[..n - 1] == a[..n][..n - 1] == b[..n - 1];
      assert a[n - 1] == a[..n][n - 1] == b[n - 1];
      FoldPrefix(a, b, n - 1);
    }
  }

  lemma {:induction false} PutGetBE(v: nat, n: nat)
    requires v < Pow256(n)
    ensures GetBE(PutBE(v, n)) == v
  {
    if n != 0 {
      PutGetBE(v / 256, n - 1);
      forall i | 0 <= i < n - 1 ensures PutBE(v, n)[i] == PutBE(v / 256, n - 1)[i] {
        assert Digit(v, n - 1 - i) == Digit(v / 256, n - 2 - i);
      }
      assert PutBE(v, n)[..n - 1] == PutBE(v / 256, n - 1)[..n - 1];
      assert PutBE(v, n)[n - 1] == Digit(v, 0);
      FoldPrefix(PutBE(v, n), PutBE(v / 256, n - 1), n - 1);
    }
  }

  lemma {:induction false} FoldZeros(b: seq<Byte>, n: nat)
    requires n <= |b| && forall i :: 0 <= i < n ==> b[i] == 0
    ensures Fold(b, n) == 0
  {
    if n != 0 {
      FoldZeros(b, n - 1);
    }
  }

  lemma GetBEZeros(n: nat)
    ensures GetBE(Zeros(n)) == 0
  {
    FoldZeros(Zeros(n), n);
  }

  const TWO64: nat := 0x1_0000_0000_0000_0000

  lemma Pow256Of8()
    ensures Pow256(8) == TWO64
  {
    assert Pow256(4) == 0x1_0000_0000;
    assert Pow256(8) == 256 * 256 * 256 * 256 * Pow256(4);
  }

  // ---------------------------------------------------------------- host files

  /** Reading past the end of a file yields no byte; a hole yields zero. */
  function ByteAt(f: seq<Byte>, p: nat): Byte {
    if p < |f| then f[p] else 0
  }

  function Grow(f: seq<Byte>, n: nat): (g: seq<Byte>)
    ensures |g| == if |f| < n then n else |f|
    ensures f <= g
    ensures forall p: nat :: ByteAt(g, p) == ByteAt(f, p)
  {
    if |f| < n then f + Zeros(n - |f|) else f
  }

  /** pwrite: a write past the end leaves a hole of zeros before it. */
  function Pwrite(f: seq<Byte>, off: nat, data: seq<Byte>): (g: seq<Byte>)
    ensures |g| == if |f| < off + |data| then off + |data| else |f|
    ensures forall p: nat :: ByteAt(g, p) == if off <= p < off + |data| then data[p - off] else ByteAt(f, p)
  {
    var h := Grow(f, off + |data|);
    h[..off] + data + h[off + |data|..]
  }

  /** fallocate with FALLOC_FL_ZERO_RANGE. */
  function ZeroRange(f: seq<Byte>, off: nat, n: nat): (g: seq<Byte>)
    ensures |g| == if |f| < off + n then off + n else |f|
    ensures forall p: nat :: ByteAt(g, p) == if off <= p < off + n then 0 else ByteAt(f, p)
  {
    Pwrite(f, off, Zeros(n))
  }

  /** The n bytes at off, with zeros where the file has ended. */
  function Slice(f: seq<Byte>, off: nat, n: nat): (s: seq<Byte>)
    ensures |s| == n
    ensures forall i :: 0 <= i < n ==> s[i] == ByteAt(f, off + i)
  {
    seq<Byte>(n, i requires 0 <= i => ByteAt(f, off + i))
  }

  /** A big-endian 64-bit table entry of a file. */
  function Entry(f: seq<Byte>, off: nat): nat {
    GetBE(Slice(f, off, 8))
  }

  lemma SliceFrame(f: seq<Byte>, g: seq<Byte>, off: nat, n: nat)
    requires forall p :: off <= p < off + n ==> ByteAt(f, p) == ByteAt(g, p)
    ensures Slice(f, off, n) == Slice(g, off, n)
  {
  }

  lemma PwriteSlice(f: seq<Byte>, off: nat, data: seq<Byte>)
    ensures Slice(Pwrite(f, off, data), off, |data|) == data
  {
  }

  lemma PwriteEntry(f: seq<Byte>, off: nat, v: nat)
    requires v < TWO64
    ensures Entry(Pwrite(f, off, PutBE(v, 8)), off) == v
  {
    PwriteSlice(f, off, PutBE(v, 8));
    Pow256Of8();
    PutGetBE(v, 8);
  }
}
