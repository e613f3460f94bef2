/** Round-to-nearest-even into binary64, section 4.3.1 of IEEE 754-2019, defined concretely over the
    reals: normal and subnormal numbers, no infinities and no NaN (every amount here is finite). */
module Binary64 {

  // ---- multiplication by powers of two ----

  /** x times two to the power e. */
  function Shift(x: real, e: int): real
    decreases if e >= 0 then e else -e
  {
    if e == 0 then x else if e > 0 then 2.0 * Shift(x, e - 1) else Shift(x, e + 1) / 2.0
  }

  lemma ShiftUp(x: real, e: int)
    ensures Shift(x, e + 1) == 2.0 * Shift(x, e)
  {
  }

  lemma {:induction false} ShiftCompose(x: real, a: int, b: int)
    ensures Shift(Shift(x, a), b) == Shift(x, a + b)
    decreases if b >= 0 then b else -b
  {
    if b > 0 {
      ShiftCompose(x, a, b - 1);
      ShiftUp(x, a + b - 1);
    } else if b < 0 {
      ShiftCompose(x, a, b + 1);
      ShiftUp(x, a + b);
    }
  }

  lemma {:induction false} ShiftMinus(a: real, b: real, e: int)
    ensures Shift(a - b, e) == Shift(a, e) - Shift(b, e)
    decreases if e >= 0 then e else -e
  {
    if e > 0 {
      ShiftMinus(a, b, e - 1);
    } else if e < 0 {
      ShiftMinus(a, b, e + 1);
    }
  }

  lemma {:induction false} ShiftOrder(a: real, b: real, e: int)
    ensures a < b <==> Shift(a, e) < Shift(b, e)
    ensures a == b <==> Shift(a, e) == Shift(b, e)
    decreases if e >= 0 then e else -e
  {
    if e > 0 {
      ShiftOrder(a, b, e - 1);
    } else if e < 0 {
      ShiftOrder(a, b, e + 1);
    }
  }

  lemma {:induction false} ShiftZero(e: int)
    ensures Shift(0.0, e) == 0.0
    decreases if e >= 0 then e else -e
  {
    if e > 0 {
      ShiftZero(e - 1);
    } else if e < 0 {
      ShiftZero(e + 1);
    }
  }

  lemma {:induction false} ShiftMonotone(x: real, a: int, b: int)
    requires x >= 0.0 && a <= b
    ensures Shift(x, a) <= Shift(x, b)
    decreases b - a
  {
    if a < b {
      ShiftMonotone(x, a, b - 1);
      ShiftUp(x, b - 1);
      ShiftZero(b - 1);
      ShiftOrder(x, 0.0, b - 1);
    }
  }

  // The literals 0x10_0000_0000_0000 and 0x20_0000_0000_0000 are 2^52 and 2^53.

  lemma ShiftBy4(x: real, e: int)
    ensures Shift(x, e + 4) == 16.0 * Shift(x, e)
  {
    ShiftUp(x, e);
    ShiftUp(x, e + 1);
    ShiftUp(x, e + 2);
    ShiftUp(x, e + 3);
  }

  lemma ShiftBy16(x: real, e: int)
    ensures Shift(x, e + 16) == 65536.0 * Shift(x, e)
  {
    ShiftBy4(x, e);
    ShiftBy4(x, e + 4);
    ShiftBy4(x, e + 8);
    ShiftBy4(x, e + 12);
  }

  /** Significands are 53 bits long: 52 places up is a factor 2^52. */
  lemma ShiftBy52(x: real, e: int)
    ensures Shift(x, e + 52) == 4503599627370496.0 * Shift(x, e)
    ensures Shift(x, e + 53) == 9007199254740992.0 * Shift(x, e)
  {
    ShiftBy16(x, e);
    ShiftBy16(x, e + 16);
    ShiftBy16(x, e + 32);
    ShiftBy4(x, e + 48);
    ShiftUp(x, e + 52);
  }

  lemma FullSignificand(e: int)
    ensures Shift(4503599627370496.0, e) == Shift(1.0, e + 52)
    ensures Shift(9007199254740992.0, e) == Shift(1.0, e + 53)
  {
    ShiftBy52(1.0, 0);
    ShiftCompose(1.0, 52, e);
    ShiftCompose(1.0, 53, e);
  }

  // ---- rounding ----

  const MIN_EXPONENT: int := -1022
  const MAX_EXPONENT: int := 1023

  /** The binade of a non-negative x: the least e, from `e` upwards, with x < 2^(e+1). Started at
      the smallest normal exponent, so that subnormal numbers share the exponent -1022. */
  function Exponent(x: real, e: int): (r: int)
    requires MIN_EXPONENT <= e <= MAX_EXPONENT
    ensures e <= r <= MAX_EXPONENT
    ensures r < MAX_EXPONENT ==> x < Shift(1.0, r + 1)
    ensures r > e ==> Shift(1.0, r) <= x
    decreases MAX_EXPONENT - e
  {
    if e == MAX_EXPONENT || x < Shift(1.0, e + 1) then e else Exponent(x, e + 1)
  }

  /** The whole number nearest to y, a tie going to the even one. */
  function RoundHalfEven(y: real): (n: int)
    ensures -0.5 <= n as real - y <= 0.5
    ensures n as real - y == 0.5 || y - n as real == 0.5 ==> n % 2 == 0
  {
    var low := y.Floor;
    var part := y - low as real;
    if part < 0.5 then low
    else if part > 0.5 then low + 1
    else if low % 2 == 0 then low else low + 1
  }

  /** Exponent of the unit in the last place used to round x. */
  function Quantum(x: real): (q: int)
    ensures -1074 <= q <= 971
  {
    Exponent(x, MIN_EXPONENT) - 52
  }

  /** The multiple of 2^q nearest to x, a tie going to the even multiple. */
  function Snap(x: real, q: int): real {
    Shift(RoundHalfEven(Shift(x, -q)) as real, q)
  }

  function Magnitude(x: real): real {
    if x >= 0.0 then x else -x
  }

  function RoundMagnitude(x: real): real {
    Snap(x, Quantum(x))
  }

  /** The double nearest to x. */
  function Round(x: real): real {
    if x >= 0.0 then RoundMagnitude(x) else -RoundMagnitude(-x)
  }

  // ---- the independent description of the format ----

  ghost predicate Represents(v: real, m: int, k: int) {
    -0x20_0000_0000_0000 < m < 0x20_0000_0000_0000 && -1074 <= k <= 971 && v == Shift(m as real, k)
  }

  ghost predicate IsDouble(v: real) {
    exists m: int, k: int :: Represents(v, m, k)
  }

  /** The magnitude of x is below 2^1023, so nothing overflows; see `BelowIsInRange`. */
  ghost predicate InRange(x: real) {
    Quantum(Magnitude(x)) < 971
  }

  /** The magnitude of x is at least 2^-1022; see `AboveIsNormal`. */
  ghost predicate Normal(x: real) {
    Shift(1.0, Quantum(Magnitude(x)) + 52) <= Magnitude(x)
  }

  lemma BelowIsInRange(x: real, e: int)
    requires MIN_EXPONENT <= e <= MAX_EXPONENT && Magnitude(x) < Shift(1.0, e)
    ensures InRange(x)
  {
    var r := Exponent(Magnitude(x), MIN_EXPONENT);
    if r == MAX_EXPONENT {
      ShiftMonotone(1.0, e, r);
      assert false;
    }
  }

  lemma AboveIsNormal(x: real, e: int)
    requires MIN_EXPONENT <= e <= MAX_EXPONENT && Shift(1.0, e) <= Magnitude(x)
    ensures Normal(x)
  {
    var r := Exponent(Magnitude(x), MIN_EXPONENT);
    if r == MIN_EXPONENT {
      ShiftMonotone(1.0, r, e);
    }
  }

  // ---- error bounds ----

  lemma SnapError(x: real, q: int)
    ensures -(Shift(1.0, q) / 2.0) <= Snap(x, q) - x <= Shift(1.0, q) / 2.0
  {
    var y := Shift(x, -q);
    var n := RoundHalfEven(y) as real;
    ShiftCompose(x, -q, q);
    ShiftMinus(n, y, q);
    ShiftOrder(0.5, n - y, q);
    ShiftOrder(n - y, -0.5, q);
    ShiftMinus(1.0, 0.5, q);
    ShiftMinus(0.0, 0.5, q);
    ShiftZero(q);
  }

  /** Half an ulp, relatively: the bound 2^-53 for every normal number. */
  lemma RelativeError(x: real)
    requires x >= 0.0 && Normal(x)
    ensures -(x / 9007199254740992.0) <= Round(x) - x <= x / 9007199254740992.0
  {
    SnapError(x, Quantum(x));
    ShiftBy52(1.0, Quantum(x));
  }

  /** Below the normal range the error is at most half of the smallest double. */
  lemma SubnormalError(x: real)
    requires x >= 0.0 && !Normal(x)
    ensures -(Shift(1.0, -1074) / 2.0) <= Round(x) - x <= Shift(1.0, -1074) / 2.0
  {
    SnapError(x, Quantum(x));
    assert Exponent(x, MIN_EXPONENT) == MIN_EXPONENT;
  }

  // ---- the rounding function against the independent description ----

  lemma BelowNextBinade(x: real)
    requires x >= 0.0 && InRange(x)
    ensures 0.0 <= Shift(x, -Quantum(x)) < 9007199254740992.0
  {
    var q := Quantum(x);
    FullSignificand(q);
    ShiftCompose(1.0, q + 53, -q);
    assert Shift(1.0, 53) == 9007199254740992.0 by { ShiftBy52(1.0, 0); }
    hide Shift;
    ShiftOrder(x, Shift(1.0, q + 53), -q);
    ShiftZero(-q);
    ShiftOrder(x, 0.0, -q);
  }

  lemma MagnitudeIsDouble(x: real) returns (m: int, k: int)
    requires x >= 0.0 && InRange(x)
    ensures Represents(RoundMagnitude(x), m, k)
  {
    BelowNextBinade(x);
    k := Quantum(x);
    m := RoundHalfEven(Shift(x, -k));
    if m == 0x20_0000_0000_0000 {
      FullSignificand(k);
      FullSignificand(k + 1);
      m, k := 0x10_0000_0000_0000, k + 1;
    }
  }

  lemma NegativeRepresents(v: real, m: int, k: int)
    requires Represents(v, m, k)
    ensures Represents(-v, -m, k)
  {
    ShiftMinus(0.0, m as real, k);
    ShiftZero(k);
    assert 0.0 - m as real == (-m) as real;
  }

  /** What Round delivers is a double. */
  lemma RoundIsDouble(x: real)
    requires InRange(x)
    ensures IsDouble(Round(x))
  {
    var m, k := MagnitudeIsDouble(Magnitude(x));
    NegativeRepresents(RoundMagnitude(Magnitude(x)), m, k);
  }

  function Distance(a: real, b: real): real {
    if a <= b then b - a else a - b
  }

  lemma ShiftDistance(a: real, b: real, q: int)
    ensures Distance(Shift(a, q), Shift(b, q)) == Shift(Distance(a, b), q)
  {
    ShiftMinus(a, b, q);
    ShiftMinus(b, a, q);
    ShiftOrder(a, b, q);
  }

  lemma NearestInteger(y: real, j: int)
    ensures Distance(RoundHalfEven(y) as real, y) <= Distance(j as real, y)
    ensures Distance(RoundHalfEven(y) as real, y) == Distance(j as real, y) && j != RoundHalfEven(y)
            ==> RoundHalfEven(y) % 2 == 0
  {
  }

  /** No multiple of 2^q is nearer to x than Snap(x, q); one as near only loses to an even one. */
  lemma SnapIsNearest(x: real, q: int, j: int)
    ensures Distance(Snap(x, q), x) <= Distance(Shift(j as real, q), x)
    ensures Shift(j as real, q) != Snap(x, q) && Distance(Snap(x, q), x) == Distance(Shift(j as real, q), x)
            ==> RoundHalfEven(Shift(x, -q)) % 2 == 0
  {
    var y := Shift(x, -q);
    var n := RoundHalfEven(y);
    ShiftCompose(x, -q, q);
    NearestInteger(y, j);
    ShiftDistance(n as real, y, q);
    ShiftDistance(j as real, y, q);
    ShiftOrder(Distance(j as real, y), Distance(n as real, y), q);
  }

  /** A coarser multiple is a multiple: m * 2^k is a whole number of 2^q for every q <= k. */
  lemma {:induction false} Refine(m: int, k: int, q: int) returns (j: int)
    requires q <= k
    ensures Shift(m as real, k) == Shift(j as real, q)
    decreases k - q
  {
    if k == q {
      j := m;
    } else {
      ShiftCompose(m as real, 1, k - 1);
      assert Shift(m as real, 1) == (2 * m) as real;
      j := Refine(2 * m, k - 1, q);
    }
  }

  /** A double with a smaller quantum lies below the binade that starts at 2^(q+52). */
  lemma BelowBinade(v: real, m: int, k: int, q: int)
    requires Represents(v, m, k) && k < q
    ensures v < Shift(1.0, q + 52)
  {
    ShiftOrder(m as real, 9007199254740992.0, k);
    FullSignificand(k);
    ShiftMonotone(1.0, k + 53, q + 52);
  }

  ghost predicate TieGoesToEven(x: real) {
    var a := Magnitude(x);
    RoundHalfEven(Shift(a, -Quantum(a))) % 2 == 0
  }

  lemma NearestMagnitude(x: real, v: real, m: int, k: int)
    requires x >= 0.0 && InRange(x) && Represents(v, m, k)
    ensures Distance(RoundMagnitude(x), x) <= Distance(v, x)
    ensures v != RoundMagnitude(x) && Distance(RoundMagnitude(x), x) == Distance(v, x) ==> TieGoesToEven(x)
  {
    var q := Quantum(x);
    if k >= q {
      var j := Refine(m, k, q);
      SnapIsNearest(x, q, j);
    } else {
      // the least member of the binade of x is nearer than v, and a multiple of the quantum
      BelowBinade(v, m, k, q);
      FullSignificand(q);
      SnapIsNearest(x, q, 0x10_0000_0000_0000);
    }
  }

  /** Round really is round-to-nearest-even: no double is nearer, and when another double is exactly
      as near, the chosen significand is even. */
  lemma RoundIsNearest(x: real, v: real, m: int, k: int)
    requires InRange(x) && Represents(v, m, k)
    ensures Distance(Round(x), x) <= Distance(v, x)
    ensures v != Round(x) && Distance(Round(x), x) == Distance(v, x) ==> TieGoesToEven(x)
  {
    if x >= 0.0 {
      NearestMagnitude(x, v, m, k);
    } else {
      NegativeRepresents(v, m, k);
      NearestMagnitude(-x, -v, -m, k);
    }
  }

  /** Rounding changes no double. */
  lemma RoundFixesDoubles(v: real, m: int, k: int)
    requires InRange(v) && Represents(v, m, k)
    ensures Round(v) == v
  {
    RoundIsNearest(v, v, m, k);
  }

  /** Whole numbers below 2^53 are doubles. */
  lemma RoundFixesIntegers(n: int)
    requires -0x20_0000_0000_0000 < n < 0x20_0000_0000_0000
    ensures Round(n as real) == n as real
  {
    assert Represents(n as real, n, 0);
    ShiftBy52(1.0, 0);
    BelowIsInRange(n as real, 53);
    RoundFixesDoubles(n as real, n, 0);
  }
}
