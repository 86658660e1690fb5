/** 32-bit floats: the nearest one to a number, as `struct.pack` rounds. */
module Float32 {
  type Word = w: nat | w < 0x1_0000_0000

  /** A Python float; a finite one by its sign and its size in units of 2^-149, the smallest 32-bit float. */
  datatype Number = Finite(neg: bool, size: Size) | Infinite(neg: bool) | NotANumber

  type Size = r: real | r >= 0.0

  const FRACTION: nat := 0x80_0000
  const INFINITY: Word := 0x7F80_0000
  const SIGN: Word := 0x8000_0000
  const NAN: Word := 0x7FC0_0000

  function Pow2(n: nat): (p: nat)
    ensures p > 0
  {
    if n == 0 then 1 else 2 * Pow2(n - 1)
  }

  /** How many binary digits `u` has. */
  function Bits(u: nat): (n: nat)
    ensures u < Pow2(n) && (u > 0 ==> n > 0 && Pow2(n - 1) <= u)
  {
    if u == 0 then 0 else 1 + Bits(u / 2)
  }

  /** What the bit pattern of a float without sign stands for, in the same units:
      fraction and exponent, or the fraction alone if the exponent bits are zero. */
  function Value(w: nat): nat {
    Scaled(w / FRACTION, w % FRACTION)
  }

  function Scaled(exponent: nat, fraction: nat): nat {
    if exponent == 0 then fraction else (FRACTION + fraction) * Pow2(exponent - 1)
  }

  /** The step between neighbouring floats at `u`. */
  function Ulp(u: nat): (p: nat)
    ensures p > 0
  {
    Pow2(if Bits(u) < 24 then 0 else Bits(u) - 24)
  }

  /** The pattern of the largest float that is not above `u`: exponent, then significand. */
  function Below(u: nat): nat {
    if u < FRACTION || Bits(u) < 24 then u else (Bits(u) - 24) * FRACTION + Quotient(u, Ulp(u))
  }

  function Quotient(u: nat, p: nat): nat
    requires p > 0
  {
    u / p
  }

  /** The pattern of the nearest float; of two equally near ones the even. */
  function Nearest(size: Size): (w: nat) {
    var w := Below(size.Floor);
    if TakesLow(size, Value(w), Value(w + 1), w % 2 == 0) then w else w + 1
  }

  predicate TakesLow(size: Size, low: nat, high: nat, even: bool) {
    size - low as real < high as real - size || (size - low as real == high as real - size && even)
  }

  // ---------------------------------------------------------------- powers and quotients

  lemma {:induction false} PowAdd(a: nat, b: nat)
    ensures Pow2(a + b) == Pow2(a) * Pow2(b)
  {
    if a > 0 {
      PowAdd(a - 1, b);
      assert Pow2(a) * Pow2(b) == 2 * (Pow2(a - 1) * Pow2(b));
    }
  }

  lemma {:induction false} PowGrows(a: nat, b: nat)
    requires a <= b
    ensures Pow2(a) <= Pow2(b)
  {
    if a < b {
      PowGrows(a, b - 1);
    }
  }

  lemma PowOf24()
    ensures Pow2(23) == FRACTION && Pow2(24) == 2 * FRACTION
  {
    assert Pow2(8) == 0x100;
    PowAdd(8, 8);
    PowAdd(16, 7);
    assert Pow2(7) == 0x80;
  }

  lemma Times(a: nat, b: nat, p: nat)
    requires a <= b
    ensures a * p <= b * p
  {
  }

  lemma Cancel(a: nat, b: nat, p: nat)
    requires a * p < b * p
    ensures a < b
  {
    if b <= a {
      Times(b, a, p);
    }
  }

  lemma Divided(u: nat, p: nat)
    requires p > 0
    ensures u / p * p <= u < (u / p + 1) * p
  {
    assert u == u / p * p + u % p;
  }

  lemma DivMod(q: nat, f: nat, r: nat)
    requires r < f
    ensures (q * f + r) / f == q && (q * f + r) % f == r
  {
    var w := q * f + r;
    Divided(w, f);
    Cancel(q, w / f + 1, f);
    Cancel(w / f, q + 1, f);
  }

  // ---------------------------------------------------------------- patterns are ordered as what they stand for

  lemma ValueOf(w: nat, e: nat, r: nat)
    requires r < FRACTION && w == e * FRACTION + r
    ensures Value(w) == Scaled(e, r)
  {
    DivMod(e, FRACTION, r);
  }

  lemma ScaledWithin(k: nat, s: nat)
    requires FRACTION <= s < 2 * FRACTION
    ensures Scaled(k + 1, s - FRACTION) == s * Pow2(k)
  {
  }

  lemma ScaledCarry(k: nat)
    ensures Scaled(k + 2, 0) == 2 * FRACTION * Pow2(k)
  {
  }

  lemma ValueWithin(w: nat, k: nat, s: nat)
    requires FRACTION <= s < 2 * FRACTION && w == k * FRACTION + s
    ensures Value(w) == s * Pow2(k)
  {
    ValueOf(w, k + 1, s - FRACTION);
    ScaledWithin(k, s);
  }

  lemma ValueCarry(w: nat, k: nat, s: nat)
    requires s == 2 * FRACTION && w == k * FRACTION + s
    ensures Value(w) == s * Pow2(k)
  {
    ValueOf(w, k + 2, 0);
    ScaledCarry(k);
  }

  lemma ValueAt(k: nat, s: nat)
    requires FRACTION <= s <= 2 * FRACTION
    ensures Value(k * FRACTION + s) == s * Pow2(k)
  {
    if s < 2 * FRACTION {
      ValueWithin(k * FRACTION + s, k, s);
    } else {
      ValueCarry(k * FRACTION + s, k, s);
    }
  }

  lemma Split(w: nat) returns (k: nat, s: nat)
    requires w >= FRACTION
    ensures w == k * FRACTION + s && FRACTION <= s < 2 * FRACTION
  {
    k, s := w / FRACTION - 1, FRACTION + w % FRACTION;
  }

  lemma ValueGrows(w: nat)
    ensures Value(w) < Value(w + 1)
  {
    if w >= FRACTION {
      var k, s := Split(w);
      ValueAt(k, s);
      ValueAt(k, s + 1);
      assert (s + 1) * Pow2(k) == s * Pow2(k) + Pow2(k);
    } else if w + 1 == FRACTION {
      ValueAt(0, FRACTION);
    }
  }

  lemma {:induction false} ValueMonotone(v: nat, w: nat)
    requires v < w
    ensures Value(v) < Value(w)
    decreases w
  {
    ValueGrows(w - 1);
    if v < w - 1 {
      ValueMonotone(v, w - 1);
    }
  }

  // ---------------------------------------------------------------- the pattern below a number

  /** The significand has 24 digits. */
  lemma Significand(u: nat)
    requires u >= FRACTION
    ensures Bits(u) >= 24 && FRACTION <= u / Ulp(u) < 2 * FRACTION
  {
    var b := Bits(u);
    PowOf24();
    if b < 24 {
      PowGrows(b, 23);
      assert false;
    }
    var p := Pow2(b - 24);
    PowAdd(24, b - 24);
    PowAdd(23, b - 24);
    assert FRACTION * p <= u < 2 * FRACTION * p;
    QuotientIn(u, p, FRACTION);
  }

  lemma QuotientIn(u: nat, p: nat, f: nat)
    requires p > 0 && f * p <= u < 2 * f * p
    ensures f <= u / p < 2 * f
  {
    Divided(u, p);
    Cancel(f, u / p + 1, p);
    Cancel(u / p, 2 * f, p);
  }

  lemma AtScale(k: nat, s: nat, u: nat)
    requires FRACTION <= s < 2 * FRACTION && s * Pow2(k) <= u < (s + 1) * Pow2(k)
    ensures Value(k * FRACTION + s) <= u < Value(k * FRACTION + s + 1)
  {
    ValueAt(k, s);
    ValueAt(k, s + 1);
  }

  lemma SmallIs(u: nat)
    requires u < FRACTION
    ensures Value(u) == u
  {
    DivMod(0, FRACTION, u);
  }

  lemma BelowIsSmall(u: nat)
    requires u < FRACTION
    ensures Value(Below(u)) <= u < Value(Below(u) + 1)
  {
    SmallIs(u);
    ValueGrows(u);
  }

  lemma AroundQuotient(u: nat, p: nat)
    requires p > 0
    ensures Quotient(u, p) * p <= u < (Quotient(u, p) + 1) * p
  {
    Divided(u, p);
  }

  lemma LargePattern(u: nat)
    requires u >= FRACTION
    ensures Bits(u) >= 24 && FRACTION <= Quotient(u, Ulp(u)) < 2 * FRACTION
    ensures Ulp(u) == Pow2(Bits(u) - 24) && Below(u) == (Bits(u) - 24) * FRACTION + Quotient(u, Ulp(u))
  {
    Significand(u);
  }

  lemma BelowIsLarge(u: nat)
    requires u >= FRACTION
    ensures Value(Below(u)) <= u < Value(Below(u) + 1)
  {
    LargePattern(u);
    AroundQuotient(u, Ulp(u));
    AtScale(Bits(u) - 24, Quotient(u, Ulp(u)), u);
  }

  lemma BelowIs(u: nat)
    ensures Value(Below(u)) <= u < Value(Below(u) + 1)
  {
    if u < FRACTION {
      BelowIsSmall(u);
    } else {
      BelowIsLarge(u);
    }
  }

  /** The pattern is found again from its value. */
  lemma BelowOfValue(w: nat)
    ensures Below(Value(w)) == w
  {
    var b := Below(Value(w));
    BelowIs(Value(w));
    if b < w {
      NotAbove(b + 1, w);
    } else if w < b {
      ValueMonotone(w, b);
    }
  }

  lemma NotAbove(v: nat, w: nat)
    requires v <= w
    ensures Value(v) <= Value(w)
  {
    if v < w {
      ValueMonotone(v, w);
    }
  }

  // ---------------------------------------------------------------- nearest, unchanged, too large

  function Distance(size: Size, value: nat): (d: real) {
    if size < value as real then value as real - size else size - value as real
  }

  lemma ChosenIsNearer(size: Size, low: nat, high: nat, even: bool, other: nat)
    requires low as real <= size < high as real && (other <= low || other >= high)
    ensures
      var chosen := if TakesLow(size, low, high, even) then low else high;
      && Distance(size, chosen) <= Distance(size, other)
      && (other != chosen && (chosen == low <==> !even) ==> Distance(size, chosen) < Distance(size, other))
  {
  }

  /** No pattern stands for a number nearer to `size`, and an odd one is the only nearest. */
  lemma NearestIsNearest(size: Size, w: nat)
    ensures Distance(size, Value(Nearest(size))) <= Distance(size, Value(w))
    ensures w != Nearest(size) && Nearest(size) % 2 == 1 ==>
      Distance(size, Value(Nearest(size))) < Distance(size, Value(w))
  {
    var b := Below(size.Floor);
    BelowIs(size.Floor);
    Around(b, w);
    ChosenIsNearer(size, Value(b), Value(b + 1), b % 2 == 0, Value(w));
  }

  lemma Around(b: nat, w: nat)
    ensures Value(w) < Value(b) || w == b || w == b + 1 || Value(w) > Value(b + 1)
  {
    if w < b {
      ValueMonotone(w, b);
    } else if w > b + 1 {
      ValueMonotone(b + 1, w);
    }
  }

  lemma NearestOfValue(w: nat)
    ensures Nearest(Value(w) as real) == w
  {
    var size: Size := Value(w) as real;
    assert size.Floor == Value(w);
    BelowOfValue(w);
    ValueGrows(w);
  }

  /** A float of any exponent has this size: whole, and a multiple of the step there. */
  predicate OnGrid(size: Size) {
    size == size.Floor as real && size.Floor % Ulp(size.Floor) == 0
  }

  /** Rounding changes nothing exactly on the grid. */
  lemma UnroundedIff(size: Size)
    ensures Value(Nearest(size)) as real == size <==> OnGrid(size)
  {
    var u := size.Floor;
    if Value(Nearest(size)) as real == size {
      assert u == Value(Nearest(size));
      BelowOfValue(Nearest(size));
    }
    BelowOnGrid(u);
    BelowIs(u);
    if OnGrid(size) {
      NearestOfValue(Below(u));
    }
  }

  lemma BelowOnGrid(u: nat)
    ensures Value(Below(u)) == u <==> u % Ulp(u) == 0
  {
    if u >= FRACTION {
      Significand(u);
      ValueAt(Bits(u) - 24, u / Ulp(u));
      OnMultiple(u, Ulp(u));
    } else {
      Few(u);
    }
  }

  lemma OnMultiple(u: nat, p: nat)
    requires p > 0
    ensures u / p * p == u <==> u % p == 0
  {
    assert u == u / p * p + u % p;
  }

  lemma Few(u: nat)
    requires u < FRACTION
    ensures Bits(u) <= 24 && u % Ulp(u) == 0
  {
    if Bits(u) > 24 {
      PowOf24();
      PowGrows(23, Bits(u) - 1);
    }
  }

  /** Packing fails from halfway between the largest float and the next power of two on. */
  lemma TooLargeIff(size: Size)
    ensures Nearest(size) >= INFINITY <==> 2.0 * size >= (Value(INFINITY - 1) + Value(INFINITY)) as real
  {
    Halfway(size, INFINITY - 1);
  }

  lemma Halfway(size: Size, w: nat)
    requires w % 2 == 1
    ensures Nearest(size) > w <==> 2.0 * size >= (Value(w) + Value(w + 1)) as real
  {
    var b := Below(size.Floor);
    BelowIs(size.Floor);
    ValueGrows(w);
    if b < w {
      NotAbove(b + 1, w);
    } else if b > w {
      NotAbove(w + 1, b);
    }
  }

  // ---------------------------------------------------------------- numbers as words

  /** Packing succeeds; for a number that rounds to infinity it raises. */
  predicate Fits(n: Number) {
    n.Finite? ==> Nearest(n.size) < INFINITY
  }

  function WithSign(neg: bool, pattern: nat): Word
    requires pattern < SIGN
  {
    if neg then SIGN + pattern else pattern
  }

  function Packed(n: Number): Word
    requires Fits(n)
  {
    match n
    case Finite(neg, size) => WithSign(neg, Nearest(size))
    case Infinite(neg) => WithSign(neg, INFINITY)
    case NotANumber => NAN
  }

  function Meaning(neg: bool, pattern: nat): Number {
    if pattern < INFINITY then Finite(neg, Value(pattern) as real)
    else if pattern == INFINITY then Infinite(neg)
    else NotANumber
  }

  function Unpacked(w: Word): Number {
    Meaning(w >= SIGN, w % SIGN)
  }

  /** The nearest 32-bit float; what cannot be packed stays. */
  function Rounded(n: Number): Number {
    if n.Finite? && Fits(n) then n.(size := Value(Nearest(n.size)) as real) else n
  }

  lemma SignIsRead(neg: bool, pattern: nat)
    requires pattern < SIGN
    ensures WithSign(neg, pattern) % SIGN == pattern && (WithSign(neg, pattern) >= SIGN <==> neg)
  {
  }

  lemma SignIsWritten(w: Word)
    ensures WithSign(w >= SIGN, w % SIGN) == w
  {
  }

  lemma UnpackedPacked(n: Number)
    requires Fits(n)
    ensures Unpacked(Packed(n)) == Rounded(n)
  {
    match n
    case Finite(neg, size) => SignIsRead(neg, Nearest(size));
    case Infinite(neg) => SignIsRead(neg, INFINITY);
    case NotANumber =>
  }

  lemma PatternKept(neg: bool, pattern: nat)
    requires pattern < SIGN
    ensures Fits(Meaning(neg, pattern))
    ensures Packed(Meaning(neg, pattern)) == if pattern <= INFINITY then WithSign(neg, pattern) else NAN
  {
    if pattern < INFINITY {
      NearestOfValue(pattern);
    }
  }

  /** Every word is found again, except that all words for not-a-number become one. */
  lemma PackedUnpacked(w: Word)
    ensures Fits(Unpacked(w)) && (Packed(Unpacked(w)) == w <==> w % SIGN <= INFINITY || w == NAN)
  {
    PatternKept(w >= SIGN, w % SIGN);
    SignIsWritten(w);
  }

  /** A number that 32 bits hold: one that cannot be packed is left alone as well. */
  predicate Exact(n: Number) {
    n.Finite? && Fits(n) ==> OnGrid(n.size)
  }

  lemma RoundedIff(n: Number)
    ensures Rounded(n) == n <==> Exact(n)
  {
    if n.Finite? {
      UnroundedIff(n.size);
    }
  }

  lemma RoundedTwice(n: Number)
    ensures Rounded(Rounded(n)) == Rounded(n)
  {
    if n.Finite? {
      NearestOfValue(Nearest(n.size));
    }
  }
}
