/** Converting a 64-bit integer to a 32-bit float through 26 of its bits. A float that is
    a whole number is written as that number. */
module FloatRounding {
  import opened Basics

  /** `m` times 2^e. */
  function Shift(m: nat, e: nat): nat {
    if e == 0 then m else 2 * Shift(m, e - 1)
  }

  function ShiftRight(x: nat, n: nat): nat {
    if n == 0 then x else ShiftRight(x / 2, n - 1)
  }

  /** The `n` bits that shifting right loses. */
  function LowBits(x: nat, n: nat): nat {
    if n == 0 then 0 else x % 2 + 2 * LowBits(x / 2, n - 1)
  }

  function Bits(x: nat): nat {
    if x == 0 then 0 else 1 + Bits(x / 2)
  }

  const DATA: nat := 0x100_0000  // 2^24: one more than the largest significand

  // What a conversion has to deliver: section 4.3.4 of the WebAssembly Core
  // Specification, round to nearest, ties to even.

  ghost predicate Scaled(v: nat, m: nat, e: nat) {
    v == Shift(m, e)
  }

  /** Whole numbers that are floats; the exponents of 64-bit integers are all in range. */
  ghost predicate Representable(v: nat) {
    exists m: nat, e: nat :: Scaled(v, m, e) && m < DATA
  }

  ghost predicate EvenSignificand(v: nat) {
    exists m: nat, e: nat :: Scaled(v, m, e) && DATA / 2 <= m < DATA && m % 2 == 0
  }

  function Distance(a: nat, b: nat): nat {
    if a < b then b - a else a - b
  }

  /** `v` is closer to `x` than any other float, or as close as one but even, which that
      one is not. */
  ghost predicate NearestEven(x: nat, v: nat) {
    && Representable(v)
    && forall w :: Representable(w) && w != v ==>
         || Distance(x, v) < Distance(x, w)
         || (Distance(x, v) == Distance(x, w) && EvenSignificand(v) && !EvenSignificand(w))
  }

  lemma NearestEvenUnique(x: nat, v: nat, w: nat)
    requires NearestEven(x, v) && NearestEven(x, w)
    ensures v == w
  {
  }

  // How a correctly rounding conversion computes it.

  predicate GoesUp(q: nat, rest: nat, unit: nat) {
    2 * rest > unit || (2 * rest == unit && q % 2 == 1)
  }

  function Rounded(q: nat, rest: nat, unit: nat): nat {
    if GoesUp(q, rest, unit) then q + 1 else q
  }

  /** `x` to a multiple of 2^k. */
  function RoundAt(x: nat, k: nat): nat {
    Shift(Rounded(ShiftRight(x, k), LowBits(x, k), Shift(1, k)), k)
  }

  function ToFloat(x: nat): nat {
    if Bits(x) <= 24 then x else RoundAt(x, Bits(x) - 24)
  }

  // Shifts.

  lemma {:induction false} ShiftAdd(a: nat, b: nat, e: nat)
    ensures Shift(a + b, e) == Shift(a, e) + Shift(b, e)
  {
    if e == 0 {
    } else {
      ShiftAdd(a, b, e - 1);
    }
  }

  lemma {:induction false} ShiftTwice(m: nat, a: nat, b: nat)
    ensures Shift(m, a + b) == Shift(Shift(m, a), b)
  {
    if b == 0 {
    } else {
      ShiftTwice(m, a, b - 1);
    }
  }

  lemma {:induction false} ShiftOrder(a: nat, b: nat, e: nat)
    ensures a < b <==> Shift(a, e) < Shift(b, e)
  {
    if e == 0 {
    } else {
      ShiftOrder(a, b, e - 1);
    }
  }

  lemma {:induction false} ShiftGrows(m: nat, a: nat, b: nat)
    requires a <= b
    ensures Shift(m, a) <= Shift(m, b)
    decreases b
  {
    if a == b {
    } else {
      ShiftGrows(m, a, b - 1);
    }
  }

  lemma ShiftDouble(m: nat, e: nat)
    ensures Shift(m, e + 1) == Shift(2 * m, e)
  {
    ShiftAdd(m, m, e);
  }

  lemma ShiftQuadruple(m: nat, e: nat)
    ensures Shift(m, e + 2) == Shift(4 * m, e) == 4 * Shift(m, e)
  {
    ShiftDouble(m, e + 1);
    ShiftDouble(2 * m, e);
  }

  /** What is shifted out and what is left make up the whole. */
  lemma {:induction false} Parts(x: nat, n: nat)
    ensures x == Shift(ShiftRight(x, n), n) + LowBits(x, n) && LowBits(x, n) < Shift(1, n)
  {
    if n == 0 {
    } else {
      Parts(x / 2, n - 1);
    }
  }

  lemma {:induction false} RightTwice(x: nat, a: nat, b: nat)
    ensures ShiftRight(x, a + b) == ShiftRight(ShiftRight(x, a), b)
  {
    if a == 0 {
    } else {
      RightTwice(x / 2, a - 1, b);
    }
  }

  lemma {:induction false} LowTwice(x: nat, a: nat, b: nat)
    ensures LowBits(x, a + b) == LowBits(x, a) + Shift(LowBits(ShiftRight(x, a), b), a)
  {
    if a == 0 {
    } else {
      LowTwice(x / 2, a - 1, b);
    }
  }

  lemma {:induction false} BitsExact(x: nat)
    requires x > 0
    ensures Bits(x) > 0 && Shift(1, Bits(x) - 1) <= x < Shift(1, Bits(x))
  {
    if x == 1 {
    } else {
      BitsExact(x / 2);
    }
  }

  lemma {:induction false} BitsBetween(x: nat, n: nat)
    requires n > 0 && Shift(1, n - 1) <= x < Shift(1, n)
    ensures Bits(x) == n
  {
    if n == 1 {
    } else {
      ShiftGrows(1, 0, n - 2);
      BitsBetween(x / 2, n - 1);
    }
  }

  lemma {:induction false} BitsRight(x: nat, n: nat)
    requires n <= Bits(x)
    ensures Bits(ShiftRight(x, n)) == Bits(x) - n
  {
    if n == 0 {
    } else {
      BitsRight(x / 2, n - 1);
    }
  }

  lemma Shift16(m: nat)
    ensures Shift(m, 16) == 0x1_0000 * m && Shift(m, 23) == 0x80_0000 * m
  {
    assert Shift(m, 2) == 2 * Shift(m, 1) == 4 * m;
    assert Shift(m, 4) == 2 * Shift(m, 3) == 16 * m;
    assert Shift(m, 6) == 2 * Shift(m, 5) == 64 * m;
    assert Shift(m, 8) == 2 * Shift(m, 7) == 0x100 * m;
    assert Shift(m, 10) == 2 * Shift(m, 9) == 0x400 * m;
    assert Shift(m, 12) == 2 * Shift(m, 11) == 0x1000 * m;
    assert Shift(m, 14) == 2 * Shift(m, 13) == 0x4000 * m;
    assert Shift(m, 16) == 2 * Shift(m, 15) == 0x1_0000 * m;
    assert Shift(m, 18) == 2 * Shift(m, 17) == 0x4_0000 * m;
    assert Shift(m, 20) == 2 * Shift(m, 19) == 0x10_0000 * m;
    assert Shift(m, 22) == 2 * Shift(m, 21) == 0x40_0000 * m;
  }

  lemma Powers()
    ensures Shift(1, 23) == DATA / 2 && Shift(1, 24) == DATA && Shift(1, 25) == 2 * DATA && Shift(1, 26) == 4 * DATA
  {
    Shift16(1);
    assert Shift(1, 24) == 2 * Shift(1, 23) && Shift(1, 25) == 2 * Shift(1, 24) && Shift(1, 26) == 2 * Shift(1, 25);
  }

  // Rounding at the last place is rounding to nearest, ties to even.

  lemma BelowBinade(m: nat, e: nat, k: nat)
    requires m < DATA && e < k
    ensures Shift(m, e) < Shift(DATA / 2, k)
  {
    ShiftOrder(m, DATA, e);
    ShiftGrows(DATA, e, k - 1);
    ShiftDouble(DATA / 2, k - 1);
  }

  ghost predicate Outside(a: nat, b: nat, w: nat) {
    w <= a || b <= w
  }

  /** No float lies strictly between two neighbours. */
  lemma NoneBetween(q: nat, k: nat, w: nat)
    requires DATA / 2 <= q < DATA && Representable(w)
    ensures Outside(Shift(q, k), Shift(q + 1, k), w)
  {
    var m: nat, e: nat :| Scaled(w, m, e) && m < DATA;
    if k <= e {
      var n := Shift(m, e - k);
      ShiftTwice(m, e - k, k);
      ShiftOrder(q, n, k);
      ShiftOrder(n, q + 1, k);
    } else {
      BelowBinade(m, e, k);
      ShiftOrder(q, DATA / 2, k);
    }
  }

  /** A normal significand is the only one. */
  lemma OneForm(q: nat, k: nat, m: nat, e: nat)
    requires DATA / 2 <= q < DATA && DATA / 2 <= m < DATA && Shift(q, k) == Shift(m, e)
    ensures q == m
  {
    if e < k {
      BelowBinade(m, e, k);
      ShiftOrder(q, DATA / 2, k);
    } else if k < e {
      BelowBinade(q, k, e);
      ShiftOrder(m, DATA / 2, e);
    } else {
      ShiftOrder(q, m, k);
      ShiftOrder(m, q, k);
    }
  }

  lemma OddForm(q: nat, k: nat)
    requires DATA / 2 <= q < DATA && q % 2 == 1
    ensures Representable(Shift(q, k)) && !EvenSignificand(Shift(q, k))
  {
    assert Scaled(Shift(q, k), q, k);
    forall m: nat, e: nat | Scaled(Shift(q, k), m, e) && DATA / 2 <= m < DATA
      ensures m % 2 == 1
    {
      OneForm(q, k, m, e);
    }
  }

  /** The even one of two neighbours may be the first of the next binade. */
  lemma EvenForm(q: nat, k: nat)
    requires DATA / 2 <= q <= DATA && q % 2 == 0
    ensures Representable(Shift(q, k)) && EvenSignificand(Shift(q, k))
  {
    if q == DATA {
      ShiftDouble(DATA / 2, k);
      assert Scaled(Shift(q, k), DATA / 2, k + 1);
    } else {
      assert Scaled(Shift(q, k), q, k);
    }
  }

  ghost predicate NoFloatBetween(a: nat, b: nat) {
    forall w: nat :: Representable(w) ==> Outside(a, b, w)
  }

  /** Of two neighbours one is even and one is not, and both are floats. */
  ghost predicate Neighbours(a: nat, b: nat, even: bool) {
    && a < b && Representable(a) && Representable(b)
    && (if even then EvenSignificand(a) && !EvenSignificand(b) else EvenSignificand(b) && !EvenSignificand(a))
  }

  lemma EvenFirst(q: nat, k: nat, a: nat, b: nat)
    requires DATA / 2 <= q < DATA - 1 && q % 2 == 0 && a == Shift(q, k) && b == Shift(q + 1, k)
    ensures Neighbours(a, b, true)
  {
    ShiftOrder(q, q + 1, k);
    EvenForm(q, k);
    OddForm(q + 1, k);
  }

  lemma EvenSecond(q: nat, k: nat, a: nat, b: nat)
    requires DATA / 2 <= q < DATA && q % 2 == 1 && a == Shift(q, k) && b == Shift(q + 1, k)
    ensures Neighbours(a, b, false)
  {
    ShiftOrder(q, q + 1, k);
    EvenForm(q + 1, k);
    OddForm(q, k);
  }

  lemma NeighboursOf(q: nat, k: nat, a: nat, b: nat)
    requires DATA / 2 <= q < DATA && a == Shift(q, k) && b == Shift(q + 1, k)
    ensures Neighbours(a, b, q % 2 == 0)
  {
    if q % 2 == 0 {
      assert q != DATA - 1;
      EvenFirst(q, k, a, b);
    } else {
      EvenSecond(q, k, a, b);
    }
  }

  lemma NoneBetweenThem(q: nat, k: nat)
    requires DATA / 2 <= q < DATA
    ensures NoFloatBetween(Shift(q, k), Shift(q + 1, k))
  {
    forall w: nat | Representable(w)
      ensures Outside(Shift(q, k), Shift(q + 1, k), w)
    {
      NoneBetween(q, k, w);
    }
  }

  /** The closer of the two neighbours, or the even one of two as close, is the nearest. */
  lemma NearestNeighbour(x: nat, a: nat, b: nat, even: bool, up: bool)
    requires Neighbours(a, b, even) && NoFloatBetween(a, b) && a <= x < b
    requires if up then b - x <= x - a else x - a <= b - x
    requires x - a == b - x ==> up == !even
    ensures NearestEven(x, if up then b else a)
  {
    var v := if up then b else a;
    forall w | Representable(w) && w != v
      ensures || Distance(x, v) < Distance(x, w)
              || (Distance(x, v) == Distance(x, w) && EvenSignificand(v) && !EvenSignificand(w))
    {
      assert Outside(a, b, w);
    }
  }

  lemma RoundedIsNearestEven(x: nat, k: nat)
    requires DATA / 2 <= ShiftRight(x, k) < DATA
    ensures NearestEven(x, RoundAt(x, k))
  {
    var q, rest := ShiftRight(x, k), LowBits(x, k);
    Parts(x, k);
    ShiftAdd(q, 1, k);
    NeighboursOf(q, k, Shift(q, k), Shift(q + 1, k));
    NoneBetweenThem(q, k);
    NearestNeighbour(x, Shift(q, k), Shift(q + 1, k), q % 2 == 0, GoesUp(q, rest, Shift(1, k)));
  }

  /** A correctly rounding conversion delivers what it has to, carry into the next binade
      included. */
  lemma ToFloatIsNearestEven(x: nat)
    ensures NearestEven(x, ToFloat(x))
  {
    Powers();
    if Bits(x) <= 24 {
      ShiftGrows(1, Bits(x), 24);
      if x > 0 {
        BitsExact(x);
      }
      assert Scaled(x, x, 0);
    } else {
      var k := Bits(x) - 24;
      BitsRight(x, k);
      BitsExact(ShiftRight(x, k));
      RoundedIsNearestEven(x, k);
    }
  }

  // What the code does.

  function CountLeadingZeros(x: uint64): nat {
    BitsBelow(x);
    64 - Bits(x)
  }

  lemma Power64()
    ensures Shift(1, 64) == UINT64_LIMIT
  {
    Shift16(1);
    Shift16(0x1_0000);
    Shift16(0x1_0000_0000);
    Shift16(0x1_0000_0000_0000);
    ShiftTwice(1, 16, 16);
    ShiftTwice(1, 32, 16);
    ShiftTwice(1, 48, 16);
  }

  lemma BitsBelow(x: uint64)
    ensures Bits(x) <= 64
  {
    Power64();
    if Bits(x) > 64 {
      BitsExact(x);
      ShiftGrows(1, 64, Bits(x) - 1);
    }
  }

  function CountTrailingZeros(x: uint64): nat {
    if x == 0 then 64 else Trailing(x)
  }

  function Trailing(x: nat): nat
    requires x > 0
  {
    if x % 2 == 1 then 0 else 1 + Trailing(x / 2)
  }

  const EXTRACTED: nat := 25

  predicate Extracts(x: uint64) {
    CountLeadingZeros(x) + CountTrailingZeros(x) + EXTRACTED < 64
  }

  function SetLowBit(n: nat): nat {
    if n % 2 == 0 then n + 1 else n
  }

  function AggregationBits(x: uint64): int {
    64 - EXTRACTED - CountLeadingZeros(x)
  }

  function ExtractedBits(x: uint64): nat
    requires AggregationBits(x) >= 1
  {
    SetLowBit(ShiftRight(x, AggregationBits(x) - 1))
  }

  /** The bits of the float to multiply with. The exponent field wraps around eight bits. */
  function MultiplierBits(x: uint64): nat {
    var shiftBack := AggregationBits(x) - 1 - 2;
    ((shiftBack - 127) % 256) * 0x80_0000
  }

  /** The number `significand` times two to the `exponent`. */
  datatype Dyadic = Dyadic(significand: nat, exponent: int)

  ghost predicate Whole(d: Dyadic, v: nat) {
    if d.exponent >= 0 then Shift(d.significand, d.exponent) == v else d.significand == Shift(v, -d.exponent)
  }

  function Times(a: nat, d: Dyadic): Dyadic {
    Dyadic(a * d.significand, d.exponent)
  }

  /** The value of a normal, positive float given by its bits. */
  function Decode(bits: nat): Dyadic
    requires bits < 0x8000_0000 && 0 < bits / 0x80_0000 < 255
  {
    Dyadic(0x80_0000 + bits % 0x80_0000, bits / 0x80_0000 - 127 - 23)
  }

  /** The extraction path. Its last step multiplies two floats. */
  function Convert(x: uint64): Dyadic
    requires Extracts(x)
  {
    MultiplierExact(x);
    Times(ToFloat(ExtractedBits(x)), Decode(MultiplierBits(x)))
  }

  /** The wrapped-around exponent is right: the multiplier is 2^(aggregation bits - 1),
      which undoes the first shift. */
  lemma MultiplierExact(x: uint64)
    requires Extracts(x)
    ensures 26 <= Bits(x) <= 64 && AggregationBits(x) == Bits(x) - 25
    ensures MultiplierBits(x) < 0x8000_0000 && 0 < MultiplierBits(x) / 0x80_0000 < 255
    ensures Decode(MultiplierBits(x)) == Dyadic(Shift(1, 23), Bits(x) - 26 - 23)
  {
    BitsBelow(x);
    Powers();
    assert MultiplierBits(x) == (Bits(x) - 26 + 127) * 0x80_0000;
  }

  lemma Scales(a: nat, s: nat)
    ensures Whole(Times(a, Dyadic(Shift(1, 23), s - 23)), Shift(a, s))
  {
    Powers();
    Shift16(a);
    if s >= 23 {
      ShiftTwice(a, 23, s - 23);
    } else {
      ShiftTwice(a, s, 23 - s);
    }
  }

  lemma {:induction false} TrailingExact(x: nat, s: nat)
    requires x > 0
    ensures Trailing(x) <= s <==> LowBits(x, s + 1) != 0
  {
    if x % 2 == 1 || s == 0 {
    } else {
      TrailingExact(x / 2, s - 1);
    }
  }

  lemma SmallShift(d: nat, s: nat)
    requires d < 4
    ensures Shift(d, s) ==
            if d == 0 then 0 else if d == 1 then Shift(1, s) else if d == 2 then 2 * Shift(1, s) else 3 * Shift(1, s)
  {
    ShiftAdd(0, 0, s);
    ShiftAdd(1, 1, s);
    ShiftAdd(1, 2, s);
  }

  /** Whether to round up is decided alike by what is left of `x` and by the two bits left
      of its leading ones once the low one stands for whatever was shifted out, provided
      that is not nothing in a tie. */
  lemma SameDirection(c: nat, d: nat, unit: nat, shifted: nat, r: nat)
    requires d < 4 && r < unit && (d == 2 ==> r > 0)
    requires shifted == if d == 0 then 0 else if d == 1 then unit else if d == 2 then 2 * unit else 3 * unit
    ensures Rounded(c, shifted + r, 4 * unit) == Rounded(c, SetLowBit(d), 4)
  {
  }

  lemma TwoBits(y: nat)
    ensures ShiftRight(y, 2) == y / 2 / 2 && LowBits(y, 2) == y % 2 + 2 * (y / 2 % 2) && Shift(1, 2) == 4
  {
    assert ShiftRight(y, 2) == ShiftRight(y / 2, 1);
    assert LowBits(y, 2) == y % 2 + 2 * LowBits(y / 2, 1);
    assert Shift(1, 2) == 2 * Shift(1, 1);
  }

  /** What is left of `x` beyond two more bits, by what is left now. */
  lemma TwoMoreBits(x: nat, s: nat)
    ensures var q, r := ShiftRight(x, s), LowBits(x, s);
            && ShiftRight(x, s + 2) == ShiftRight(q, 2)
            && LowBits(x, s + 2) == Shift(LowBits(q, 2), s) + r
            && Shift(1, s + 2) == 4 * Shift(1, s) && r < Shift(1, s)
  {
    RightTwice(x, s, 2);
    LowTwice(x, s, 2);
    Parts(x, s);
    ShiftQuadruple(1, s);
  }

  /** Rounding at two more bits is rounding the leading bits, with the low one set, at two
      and shifting back. */
  lemma StickyBit(x: nat, s: nat)
    requires LowBits(ShiftRight(x, s), 2) == 2 ==> LowBits(x, s) > 0
    ensures RoundAt(x, s + 2) == Shift(RoundAt(SetLowBit(ShiftRight(x, s)), 2), s)
  {
    var q := ShiftRight(x, s);
    AtTwoMore(x, s, q);
    LeadingAtTwo(q);
    ShiftLast(Rounded(ShiftRight(q, 2), SetLowBit(LowBits(q, 2)), 4), s);
  }

  lemma ShiftLast(m: nat, s: nat)
    ensures Shift(m, s + 2) == Shift(Shift(m, 2), s)
  {
    ShiftTwice(m, 2, s);
  }

  lemma AtTwoMore(x: nat, s: nat, q: nat)
    requires q == ShiftRight(x, s) && (LowBits(q, 2) == 2 ==> LowBits(x, s) > 0)
    ensures RoundAt(x, s + 2) == Shift(Rounded(ShiftRight(q, 2), SetLowBit(LowBits(q, 2)), 4), s + 2)
  {
    var unit, d := Shift(1, s), LowBits(q, 2);
    TwoMoreBits(x, s);
    TwoBits(q);
    SmallShift(d, s);
    SameDirection(ShiftRight(q, 2), d, unit, Shift(d, s), LowBits(x, s));
  }

  lemma LeadingAtTwo(q: nat)
    ensures RoundAt(SetLowBit(q), 2) == Shift(Rounded(ShiftRight(q, 2), SetLowBit(LowBits(q, 2)), 4), 2)
  {
    TwoBits(q);
    TwoBits(SetLowBit(q));
    assert SetLowBit(q) / 2 == q / 2 && SetLowBit(q) % 2 == 1;
  }

  /** A tie among the leading bits has something set behind it. */
  lemma NoEmptyTie(x: uint64)
    requires Extracts(x)
    ensures 26 <= Bits(x)
    ensures LowBits(ShiftRight(x, Bits(x) - 26), 2) == 2 ==> LowBits(x, Bits(x) - 26) > 0
  {
    MultiplierExact(x);
    var s := Bits(x) - 26;
    var q := ShiftRight(x, s);
    TwoBits(q);
    TrailingExact(x, s);
    LowTwice(x, s, 1);
    if LowBits(q, 2) == 2 {
      assert LowBits(q, 1) == q % 2 + 2 * LowBits(q / 2, 0) == 0;
      ShiftAdd(0, 0, s);
    }
  }

  lemma ExtractedHas26Bits(x: nat)
    requires Bits(x) >= 26
    ensures Bits(SetLowBit(ShiftRight(x, Bits(x) - 26))) == 26
  {
    var q := ShiftRight(x, Bits(x) - 26);
    BitsRight(x, Bits(x) - 26);
    BitsExact(q);
    Powers();
    BitsBetween(SetLowBit(q), 26);
  }

  /** Rounding the 26 bits and shifting back is rounding the integer. */
  lemma RoundsAlike(x: uint64)
    requires Extracts(x)
    ensures 26 <= Bits(x) && AggregationBits(x) >= 1
    ensures ToFloat(x) == Shift(ToFloat(ExtractedBits(x)), Bits(x) - 26)
  {
    MultiplierExact(x);
    NoEmptyTie(x);
    RoundsFrom(x, Bits(x) - 26, ExtractedBits(x));
  }

  lemma RoundsFrom(x: nat, s: nat, extracted: nat)
    requires Bits(x) == s + 26 && extracted == SetLowBit(ShiftRight(x, s))
    requires LowBits(ShiftRight(x, s), 2) == 2 ==> LowBits(x, s) > 0
    ensures ToFloat(x) == Shift(ToFloat(extracted), s)
  {
    ExtractedHas26Bits(x);
    StickyBit(x, s);
  }

  /** The path is exact: for every integer taking it, what it computes is the integer
      rounded to nearest, ties to even. The product is a float, so the multiplication does
      not round again. */
  lemma ExtractionRounds(x: uint64)
    requires Extracts(x)
    ensures Whole(Convert(x), ToFloat(x))
    ensures NearestEven(x, ToFloat(x)) && Representable(ToFloat(x))
  {
    ToFloatIsNearestEven(x);
    RoundsAlike(x);
    MultiplierExact(x);
    Scales(ToFloat(ExtractedBits(x)), Bits(x) - 26);
  }

  lemma RoundAtExact(x: nat, k: nat)
    ensures RoundAt(x, k) == x <==> LowBits(x, k) == 0
  {
    var q := ShiftRight(x, k);
    Parts(x, k);
    ShiftAdd(q, 1, k);
  }

  /** An integer is a float exactly when its set bits span at most 24 places. */
  lemma ExactWhen24(x: uint64)
    requires x > 0
    ensures ToFloat(x) == x <==> Bits(x) - Trailing(x) <= 24
  {
    if Bits(x) > 24 {
      TrailingExact(x, Bits(x) - 25);
      RoundAtExact(x, Bits(x) - 24);
    }
  }

  /** Integers that do not take the path span up to 25 places, and those that span
      exactly 25 are not floats, contrary to what the comment in the code says: their
      conversion is a tie. */
  lemma PathMissesTies(x: uint64)
    requires x > 0
    ensures Extracts(x) <==> Bits(x) - Trailing(x) > 25
    ensures !Extracts(x) ==> (ToFloat(x) == x <==> Bits(x) - Trailing(x) != 25)
  {
    BitsBelow(x);
    ExactWhen24(x);
  }

  lemma TieOffThePath()
    ensures !Extracts(DATA + 1) && ToFloat(DATA + 1) == DATA
  {
    Powers();
    BitsBetween(DATA + 1, 25);
    assert Trailing(DATA + 1) == 0;
    assert ShiftRight(DATA + 1, 1) == ShiftRight(DATA / 2, 0) == DATA / 2;
    assert LowBits(DATA + 1, 1) == 1 + 2 * LowBits(DATA / 2, 0) == 1;
    assert Shift(1, 1) == 2 * Shift(1, 0) == 2 && Shift(DATA / 2, 1) == 2 * Shift(DATA / 2, 0) == DATA;
  }
}
