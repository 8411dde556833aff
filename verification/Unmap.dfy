/** UNMAP in tcmur_cmd_handler.c: how one descriptor is cut into pieces. */
module Unmap {
  import opened Arith
  import opened Bytes

  /** A uint64_t. */
  type U64 = n: nat | n < TWO64

  /** Reduction modulo 2^64 of the sum or difference of two uint64_t. */
  function Wrap(n: int): U64
    requires 0 <= n + TWO64 && n < 2 * TWO64
  {
    if n < 0 then n + TWO64 else if n < TWO64 then n else n - TWO64
  }

  lemma WrapIsMod(n: int)
    requires 0 <= n + TWO64 && n < 2 * TWO64
    ensures Wrap(n) == n % TWO64
  {
    if n < 0 {
      assert (n + TWO64) % TWO64 == n % TWO64;
    }
  }

  /** Bitwise and. */
  function And(a: nat, b: nat): (r: nat)
    ensures r <= a && r <= b
  {
    if a == 0 || b == 0 then 0 else 2 * And(a / 2, b / 2) + (if a % 2 == 1 && b % 2 == 1 then 1 else 0)
  }

  /** What the device says about unmaps: whether the runner splits them, and the limits of
      the block limits VPD page. */
  datatype Limits = Limits(split: bool, maxLen: U64, gran: U64, align: U64)

  function Gran(l: Limits): U64 {
    if l.split then l.gran else l.maxLen
  }

  /** UNMAP GRANULARITY ALIGNMENT - 1, which wraps to all ones for zero. */
  function Mask(l: Limits): U64 {
    if l.split then Wrap(l.align - 1) else 0
  }

  datatype Piece = Piece(lba: U64, n: U64)

  /** The blocks of a range, in order. */
  function Range(lba: U64, n: nat): (s: seq<U64>)
    requires n <= TWO64
    ensures |s| == n
  {
    seq<U64>(n, i requires 0 <= i < n => Wrap(lba + i))
  }

  /** The blocks of a list of pieces, in order. */
  function Blocks(p: seq<Piece>): seq<U64> {
    if p == [] then [] else Blocks(p[..|p| - 1]) + Range(p[|p| - 1].lba, p[|p| - 1].n)
  }

  lemma WrapAdd(a: nat, b: nat)
    requires a < 2 * TWO64 && b <= TWO64 && a + b < 2 * TWO64
    ensures Wrap(Wrap(a) + b) == Wrap(a + b)
  {
  }

  lemma RangeSplit(lba: U64, a: nat, n: nat)
    requires a <= n < TWO64
    ensures Range(lba, n) == Range(lba, a) + Range(Wrap(lba + a), n - a)
  {
    var tail := Range(Wrap(lba + a), n - a);
    forall i | 0 <= i < n - a ensures tail[i] == Wrap(lba + (a + i)) {
      WrapAdd(lba + a, i);
    }
  }

  lemma BlocksPush(p: seq<Piece>, x: Piece)
    ensures Blocks(p + [x]) == Blocks(p) + Range(x.lba, x.n)
  {
    assert (p + [x])[..|p|] == p;
  }

  /** Only the first piece may be empty or exceed the granularity, and every piece between
      the first and the last is exactly that long. */
  predicate Sized(p: seq<Piece>, gran: nat) {
    && (forall i :: 0 < i < |p| ==> 0 < p[i].n <= gran)
    && (forall i :: 0 < i < |p| - 1 ==> p[i].n == gran)
  }

  /** The length of the first piece. */
  function First(l: Limits, lba: U64, nlbas: U64): U64 {
    Min(Wrap(Gran(l) - And(lba, Mask(l))), nlbas)
  }

  function End(x: Piece): U64 {
    Wrap(x.lba + x.n)
  }

  /** Each piece starts where the one before it ends. */
  predicate Follows(p: seq<Piece>) {
    forall i :: 0 < i < |p| ==> Adjacent(p, i)
  }

  predicate Adjacent(p: seq<Piece>, i: nat)
    requires 0 < i < |p|
  {
    p[i].lba == End(p[i - 1])
  }

  /** All the blocks of a range. */
  datatype Cover = Whole(blocks: seq<U64>)

  /** The blocks of the pieces p followed by those that are left. */
  function Cut(p: seq<Piece>, lba: U64, n: U64): Cover {
    Whole(Blocks(p) + Range(lba, n))
  }

  /** Part way: the pieces p are cut, and `n` blocks from `lba` are left, of which the next
      piece takes `lbas`. */
  predicate Cutting(l: Limits, lba0: U64, n0: U64, p: seq<Piece>, lba: U64, n: U64, lbas: U64) {
    && Cut(p, lba, n) == Whole(Range(lba0, n0))
    && Shape(Piece(lba0, First(l, lba0, n0)), Gran(l), p, lba, n, lbas) && (p == [] ==> n == n0)
  }

  predicate Shape(first: Piece, gran: nat, p: seq<Piece>, lba: U64, n: U64, lbas: U64) {
    && Sized(p, gran) && Follows(p)
    && (if p == [] then Piece(lba, lbas) == first
        else && p[0] == first && lba == End(p[|p| - 1]) && lbas == Min(gran, n)
             && (|p| > 1 && n > 0 ==> p[|p| - 1].n == gran))
  }

  lemma CutShape(first: Piece, gran: nat, p: seq<Piece>, lba: U64, n: U64, lbas: U64, p': seq<Piece>)
    requires Shape(first, gran, p, lba, n, lbas) && n > 0 && gran > 0 && lbas <= n && p' == p + [Piece(lba, lbas)]
    ensures Shape(first, gran, p', End(Piece(lba, lbas)), n - lbas, Min(gran, n - lbas))
  {
    assert forall i :: 0 <= i < |p| ==> p'[i] == p[i];
    forall i | 0 < i < |p'| ensures Adjacent(p', i) {
      assert i < |p| ==> Adjacent(p, i);
    }
  }

  lemma CutBlocks(p: seq<Piece>, lba: U64, n: U64, x: Piece)
    requires x.lba == lba && x.n <= n
    ensures Cut(p + [x], End(x), n - x.n) == Cut(p, lba, n)
  {
    RangeSplit(lba, x.n, n);
    BlocksPush(p, x);
    assert Blocks(p) + (Range(lba, x.n) + Range(End(x), n - x.n)) == Blocks(p) + Range(lba, x.n) + Range(End(x), n - x.n);
  }

  lemma CutNext(l: Limits, lba0: U64, n0: U64, p: seq<Piece>, lba: U64, n: U64, lbas: U64, p': seq<Piece>)
    requires Cutting(l, lba0, n0, p, lba, n, lbas) && n > 0 && Gran(l) > 0 && p' == p + [Piece(lba, lbas)]
    ensures lbas <= n && Cutting(l, lba0, n0, p', Wrap(lba + lbas), n - lbas, Min(Gran(l), n - lbas))
  {
    CutBlocks(p, lba, n, Piece(lba, lbas));
    CutShape(Piece(lba0, First(l, lba0, n0)), Gran(l), p, lba, n, lbas, p');
  }

  lemma CutBegin(l: Limits, lba0: U64, n0: U64)
    ensures Cutting(l, lba0, n0, [], lba0, n0, First(l, lba0, n0))
  {
    assert Blocks([]) + Range(lba0, n0) == Range(lba0, n0);
  }

  /** What the pieces are when the loop ends, with or without blocks left. */
  ghost predicate Split(l: Limits, lba0: U64, n0: U64, p: seq<Piece>, all: bool) {
    && (if all then Blocks(p) == Range(lba0, n0) else Blocks(p) <= Range(lba0, n0) && |Blocks(p)| < n0)
    && Sized(p, Gran(l)) && Follows(p) && (p != [] ==> p[0] == Piece(lba0, First(l, lba0, n0)))
  }

  lemma CutEnd(l: Limits, lba0: U64, n0: U64, p: seq<Piece>, lba: U64, n: U64, lbas: U64)
    requires Cutting(l, lba0, n0, p, lba, n, lbas)
    ensures Split(l, lba0, n0, p, n == 0)
  {
    var done := Blocks(p);
    assert (done + Range(lba, n))[..|done|] == done;
    assert n == 0 ==> done + Range(lba, n) == done;
  }

  /** One turn of the loop of align_and_split_unmap. */
  method CutOff(l: Limits, ghost lba0: U64, ghost n0: U64, p: seq<Piece>, lba: U64, n: U64, lbas: U64)
    returns (p': seq<Piece>, lba': U64, n': U64, lbas': U64)
    requires Cutting(l, lba0, n0, p, lba, n, lbas) && n > 0 && Gran(l) > 0
    ensures Cutting(l, lba0, n0, p', lba', n', lbas') && |p'| == |p| + 1
    ensures n' < n || (n' == n && lbas == 0 && lbas' > 0)
  {
    CutNext(l, lba0, n0, p, lba, n, lbas, p + [Piece(lba, lbas)]);
    p', lba', n' := p + [Piece(lba, lbas)], Wrap(lba + lbas), n - lbas;
    lbas' := Min(Gran(l), n');
  }

  /** align_and_split_unmap: `accepted` is the number of pieces aio_request_schedule takes
      before it first refuses one.  In 64-bit wrapping arithmetic the pieces are exactly the
      blocks of the range, in order. */
  method AlignAndSplit(l: Limits, lba0: U64, nlbas0: U64, accepted: nat) returns (p: seq<Piece>, ok: bool)
    requires Gran(l) > 0
    ensures Split(l, lba0, nlbas0, p, ok) && |p| <= accepted && (!ok ==> |p| == accepted)
  {
    var lba: U64, nlbas: U64, lbas: U64 := lba0, nlbas0, First(l, lba0, nlbas0);
    p, ok := [], true;
    CutBegin(l, lba0, nlbas0);
    while nlbas != 0
      invariant Cutting(l, lba0, nlbas0, p, lba, nlbas, lbas) && |p| <= accepted
      decreases nlbas, if lbas == 0 then 1 else 0
    {
      if |p| == accepted {
        CutEnd(l, lba0, nlbas0, p, lba, nlbas, lbas);
        return p, false;
      }
      p, lba, nlbas, lbas := CutOff(l, lba0, nlbas0, p, lba, nlbas, lbas);
    }
    CutEnd(l, lba0, nlbas0, p, lba, nlbas, lbas);
  }

  // ---- Alignment ---------------------------------------------------------------------

  lemma HalfMod(a: nat, p: nat)
    requires p > 0
    ensures Mod(a, 2 * p) == 2 * Mod(a / 2, p) + a % 2
  {
    var q, r := Div(a / 2, p), Mod(a / 2, p);
    DivMod(a / 2, p);
    Twice(q, p);
    DivUnique(a, 2 * p, q, 2 * r + a % 2);
  }

  lemma Twice(q: nat, p: nat)
    ensures q * (2 * p) == 2 * (q * p)
  {
  }

  lemma AndStep(a: nat, b: nat)
    requires b % 2 == 1
    ensures And(a, b) == 2 * And(a / 2, b / 2) + a % 2
  {
  }

  /** Masking with one less than a power of two is taking the remainder. */
  lemma {:induction false} AndMask(a: nat, k: nat)
    ensures And(a, Pow2(k) - 1) == Mod(a, Pow2(k))
    decreases k
  {
    if k == 0 {
      DivMod(a, 1);
    } else {
      var p := Pow2(k - 1);
      assert Pow2(k) == 2 * p;
      AndMask(a / 2, k - 1);
      AndTwice(a, p);
    }
  }

  lemma AndTwice(a: nat, p: nat)
    requires p > 0 && And(a / 2, p - 1) == Mod(a / 2, p)
    ensures And(a, 2 * p - 1) == Mod(a, 2 * p)
  {
    AndStep(a, 2 * p - 1);
    HalfMod(a, p);
  }

  lemma {:induction false} Pow2Sum(a: nat, b: nat)
    ensures Pow2(a + b) == Pow2(a) * Pow2(b)
  {
    if a > 0 {
      Pow2Sum(a - 1, b);
      assert Pow2(a + b) == 2 * Pow2(a + b - 1);
      assert (2 * Pow2(a - 1)) * Pow2(b) == 2 * (Pow2(a - 1) * Pow2(b));
    }
  }

  lemma Pow2Of64()
    ensures Pow2(64) == TWO64
  {
    assert Pow2(8) == 0x100;
    Pow2Sum(8, 8);
    Pow2Sum(16, 16);
    Pow2Sum(32, 32);
  }

  /** Wrapping does not move a block off a power-of-two boundary. */
  lemma WrapMod(x: nat, k: nat, g: nat)
    requires x < 2 * TWO64 && k <= 64 && g == Pow2(k)
    ensures Mod(Wrap(x), g) == Mod(x, g)
  {
    if x >= TWO64 {
      Pow2Of64();
      Pow2Sum(64 - k, k);
      ModShift(x - TWO64, Pow2(64 - k), g);
    }
  }

  lemma ModShift(x: nat, q: nat, g: nat)
    requires g > 0
    ensures Mod(x + q * g, g) == Mod(x, g)
  {
    DivMod(x, g);
    Distribute(Div(x, g), q, g);
    DivUnique(x + q * g, g, Div(x, g) + q, Mod(x, g));
  }

  /** From one boundary to the next. */
  lemma NextBoundary(x: nat, g: nat)
    requires g > 0
    ensures Mod(x + (g - Mod(x, g)), g) == 0
  {
    DivMod(x, g);
    Distribute(Div(x, g), 1, g);
    DivUnique(x + (g - Mod(x, g)), g, Div(x, g) + 1, 0);
  }

  lemma {:induction false} FirstTwo(p: seq<Piece>)
    requires |p| >= 2
    ensures |Blocks(p)| >= p[0].n + p[1].n
  {
    if |p| > 2 {
      FirstTwo(p[..|p| - 1]);
    } else {
      assert p[..1] == [p[0]];
      assert Blocks([p[0]]) == Blocks([]) + Range(p[0].lba, p[0].n);
    }
  }

  predicate OnBoundary(p: seq<Piece>, i: nat, g: nat)
    requires i < |p| && g > 0
  {
    Mod(p[i].lba, g) == 0
  }

  lemma {:induction false} LaterAligned(p: seq<Piece>, k: nat, g: nat, i: nat)
    requires k <= 64 && g == Pow2(k) && Sized(p, g) && Follows(p)
    requires 0 < i < |p| && OnBoundary(p, 1, g)
    ensures OnBoundary(p, i, g)
  {
    if i > 1 {
      LaterAligned(p, k, g, i - 1);
      var x := p[i - 1].lba;
      assert Adjacent(p, i) && p[i - 1].n == g;
      NextBoundary(x, g);
      WrapMod(x + g, k, g);
    }
  }

  lemma FirstAligned(l: Limits, lba0: U64, n0: U64, k: nat, g: nat)
    requires l.split && l.align == l.gran == g == Pow2(k) && k < 64
    ensures First(l, lba0, n0) == Min(g - Mod(lba0, g), n0)
  {
    AndMask(lba0, k);
  }

  lemma SecondAligned(x: Piece, k: nat, g: nat)
    requires k < 64 && g == Pow2(k) && x.n == g - Mod(x.lba, g)
    ensures Mod(End(x), g) == 0
  {
    NextBoundary(x.lba, g);
    WrapMod(x.lba + x.n, k, g);
  }

  /** With an alignment equal to a power-of-two granularity, every piece after the first
      starts on a boundary and no piece crosses one. */
  lemma Aligned(l: Limits, lba0: U64, n0: U64, p: seq<Piece>, k: nat, i: nat)
    requires l.split && l.align == l.gran == Pow2(k) && k < 64
    requires Sized(p, l.gran) && Follows(p) && p != [] && p[0] == Piece(lba0, First(l, lba0, n0)) && |Blocks(p)| <= n0
    requires i < |p|
    ensures i > 0 ==> OnBoundary(p, i, l.gran)
    ensures Mod(p[i].lba, l.gran) + p[i].n <= l.gran
  {
    FirstAligned(l, lba0, n0, k, l.gran);
    if i > 0 {
      FirstTwo(p);
      SecondAligned(p[0], k, l.gran);
      assert Adjacent(p, 1);
      LaterAligned(p, k, l.gran, i);
    }
  }

  /** With alignment zero the mask is all ones: a range that starts past the granularity is
      not split at all. */
  lemma ZeroAlignment(l: Limits, lba0: U64, n0: U64)
    requires l.split && l.align == 0 && lba0 + n0 <= TWO64
    ensures First(l, lba0, n0) == if lba0 <= l.gran then Min(l.gran - lba0, n0) else n0
  {
    Pow2Of64();
    AndMask(lba0, 64);
  }
}
