/** Reference counts packed into a refcount block (get_refcount and set_refcount
    of qcow.c).  A count is 2^order bits wide: for orders 0 to 2 several counts
    share a byte, from order 3 on a count is a big-endian number. */
module Refcount {
  import opened Arith
  import opened Bytes

  /** 2^(2^order), one more than the largest count. */
  function Limit(order: nat): (n: nat)
    requires order <= 6
  {
    match order
    case 0 => 2
    case 1 => 4
    case 2 => 16
    case 3 => 256
    case 4 => 0x1_0000
    case 5 => 0x1_0000_0000
    case _ => TWO64
  }

  /** Counts in one byte, for orders 0 to 2. */
  function PerByte(order: nat): (n: nat)
    requires order <= 2
    ensures n == 8 || n == 4 || n == 2
  {
    if order == 0 then 8 else if order == 1 then 4 else 2
  }

  /** Bytes in one count, from order 3 on. */
  function Width(order: nat): (n: nat)
    requires 3 <= order <= 6
    ensures n == 1 || n == 2 || n == 4 || n == 8
  {
    if order == 3 then 1 else if order == 4 then 2 else if order == 5 then 4 else 8
  }

  /** (b >> (width * i)) & mask, where radix == mask + 1. */
  function Field(b: nat, radix: nat, i: nat): (v: nat)
    requires radix > 1
    ensures v < radix
    decreases i
  {
    if i == 0 then Mod(b, radix) else Field(Div(b, radix), radix, i - 1)
  }

  /** (b & ~(mask << (width * i))) | (v << (width * i)). */
  function PutField(b: nat, radix: nat, i: nat, v: nat): (r: nat)
    requires radix > 1 && v < radix
    decreases i
  {
    if i == 0 then Div(b, radix) * radix + v
    else PutField(Div(b, radix), radix, i - 1, v) * radix + Mod(b, radix)
  }

  lemma PutFieldParts(b: nat, radix: nat, i: nat, v: nat)
    requires radix > 1 && v < radix
    ensures var p := PutField(b, radix, i, v);
            if i == 0 then Div(p, radix) == Div(b, radix) && Mod(p, radix) == v
            else Div(p, radix) == PutField(Div(b, radix), radix, i - 1, v) && Mod(p, radix) == Mod(b, radix)
  {
    var high := if i == 0 then Div(b, radix) else PutField(Div(b, radix), radix, i - 1, v);
    var low := if i == 0 then v else Mod(b, radix);
    DivUnique(high * radix + low, radix, high, low);
  }

  lemma {:induction false} FieldPutField(b: nat, radix: nat, i: nat, j: nat, v: nat)
    requires radix > 1 && v < radix
    ensures Field(PutField(b, radix, i, v), radix, j) == if i == j then v else Field(b, radix, j)
    decreases i
  {
    PutFieldParts(b, radix, i, v);
    if i != 0 && j != 0 {
      FieldPutField(Div(b, radix), radix, i - 1, j - 1, v);
    }
  }

  /** radix^n: what a byte is below when it holds n fields. */
  function Span(radix: nat, n: nat): nat {
    if n == 0 then 1 else Span(radix, n - 1) * radix
  }

  lemma {:induction false} PutFieldBound(b: nat, radix: nat, i: nat, v: nat, n: nat)
    requires radix > 1 && v < radix && i < n && b < Span(radix, n)
    ensures PutField(b, radix, i, v) < Span(radix, n)
    decreases i
  {
    DivLess(b, radix, Span(radix, n - 1));
    var high := if i == 0 then Div(b, radix) else PutField(Div(b, radix), radix, i - 1, v);
    if i != 0 {
      PutFieldBound(Div(b, radix), radix, i - 1, v, n - 1);
    }
    MulMono(high + 1, Span(radix, n - 1), radix);
    Distribute(high, 1, radix);
  }

  lemma SpanOfByte(order: nat)
    requires order <= 2
    ensures Span(Limit(order), PerByte(order)) == 256
  {
    assert Span(2, 2) == 4 && Span(4, 2) == 16 && Span(16, 2) == 256;
    assert Span(2, 4) == 16;
    assert Span(2, 6) == 64;
    assert Span(4, 4) == 256;
  }

  /** Whether count `index` lies inside a block of n bytes. */
  predicate Fits(order: nat, n: nat, index: nat)
    requires order <= 6
  {
    if order <= 2 then index / PerByte(order) < n else (index + 1) * Width(order) <= n
  }

  function Get(order: nat, block: seq<Byte>, index: nat): (v: nat)
    requires order <= 6 && Fits(order, |block|, index)
  {
    if order <= 2 then
      Field(block[index / PerByte(order)], Limit(order), index % PerByte(order))
    else
      GetBE(block[index * Width(order)..index * Width(order) + Width(order)])
  }

  function Set(order: nat, block: seq<Byte>, index: nat, value: nat): (b: seq<Byte>)
    requires order <= 6 && Fits(order, |block|, index) && value < Limit(order)
    ensures |b| == |block|
  {
    if order <= 2 then
      var p := index / PerByte(order);
      SpanOfByte(order);
      PutFieldBound(block[p], Limit(order), index % PerByte(order), value, PerByte(order));
      block[p := PutField(block[p], Limit(order), index % PerByte(order), value)]
    else
      var p := index * Width(order);
      block[..p] + PutBE(value, Width(order)) + block[p + Width(order)..]
  }

  /** A count reads back as it was set, and no other count of the block moves. */
  lemma GetSet(order: nat, block: seq<Byte>, i: nat, j: nat, value: nat)
    requires order <= 6 && Fits(order, |block|, i) && Fits(order, |block|, j) && value < Limit(order)
    ensures Get(order, Set(order, block, i, value), j) == if i == j then value else Get(order, block, j)
  {
    if order <= 2 {
      GetSetPacked(order, block, i, j, value);
    } else {
      GetSetWide(order, block, i, j, value);
    }
  }

  lemma GetSetPacked(order: nat, block: seq<Byte>, i: nat, j: nat, value: nat)
    requires order <= 2 && Fits(order, |block|, i) && Fits(order, |block|, j) && value < Limit(order)
    ensures Get(order, Set(order, block, i, value), j) == if i == j then value else Get(order, block, j)
  {
    var n := PerByte(order);
    if i / n == j / n {
      FieldPutField(block[i / n], Limit(order), i % n, j % n, value);
    }
  }

  lemma GetSetWide(order: nat, block: seq<Byte>, i: nat, j: nat, value: nat)
    requires 3 <= order <= 6 && Fits(order, |block|, i) && Fits(order, |block|, j) && value < Limit(order)
    ensures Get(order, Set(order, block, i, value), j) == if i == j then value else Get(order, block, j)
  {
    var w := Width(order);
    var b := Set(order, block, i, value);
    if i == j {
      assert b[i * w..i * w + w] == PutBE(value, w);
      Pow256Of8();
      assert Pow256(w) == Limit(order);
      PutGetBE(value, w);
    } else {
      assert j < i ==> (j + 1) * w <= i * w;
      assert i < j ==> (i + 1) * w <= j * w;
      assert b[j * w..j * w + w] == block[j * w..j * w + w];
    }
  }

  lemma {:induction false} FieldOfZero(radix: nat, i: nat)
    requires radix > 1
    ensures Field(0, radix, i) == 0
  {
    if i != 0 {
      FieldOfZero(radix, i - 1);
    }
  }

  /** A freshly zeroed block counts nothing. */
  lemma GetZeros(order: nat, n: nat, index: nat)
    requires order <= 6 && Fits(order, n, index)
    ensures Get(order, Zeros(n), index) == 0
  {
    if order <= 2 {
      FieldOfZero(Limit(order), index % PerByte(order));
    } else {
      var w := Width(order);
      assert Zeros(n)[index * w..index * w + w] == Zeros(w);
      GetBEZeros(w);
    }
  }
}
