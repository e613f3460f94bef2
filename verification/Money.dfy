/** libs/shared/src/database/decimal.transformer.ts: amounts are Numbers in memory and NUMERIC(p, 2) in
    the database. A Number is the real it denotes; a NUMERIC(p, 2) is its whole number of cents. */
module Money {
  import opened Binary64

  /** Math.round of ECMA-262 section 21.3.2.28: the nearest whole Number, ties upwards. */
  function MathRound(x: real): real {
    (x + 0.5).Floor as real
  }

  /** The Number product of two Numbers. */
  function Times(a: real, b: real): real {
    Round(a * b)
  }

  function ToCents(amount: real): real {
    MathRound(Times(amount, 100.0))
  }

  function FromCents(cents: real): real {
    Round(cents / 100.0)
  }

  /** Number(text) for the text of a NUMERIC(p, 2) holding c cents. */
  function ReadNumeric(c: int): real {
    Round(c as real / 100.0)
  }

  /** PostgreSQL rounds the decimal it is sent to scale 2, ties away from zero. */
  function StoreNumeric(text: real): int {
    if text >= 0.0 then (text * 100.0 + 0.5).Floor else -(-text * 100.0 + 0.5).Floor
  }

  /** What the driver may send for Number d: a decimal that reads back as d. */
  ghost predicate TextOf(text: real, d: real) {
    text >= 0.0 && Round(text) == d
  }

  /** The total that OrdersService.create computes. */
  function OrderTotal(ticketPrice: real, quantity: int): real {
    FromCents(Times(ToCents(ticketPrice), quantity as real))
  }

  const NUMERIC_10_2: int := 10000000000
  const NUMERIC_12_2: int := 1000000000000

  // ---- reading, and what the error bound leaves of it ----

  /** Every cent amount from one cent to 2^62 is a normal number, read with relative error 2^-53. */
  lemma ReadError(c: int)
    requires 0 <= c <= 0x4000_0000_0000_0000
    ensures var x := c as real / 100.0;
            -(x / 9007199254740992.0) <= ReadNumeric(c) - x <= x / 9007199254740992.0
  {
    var x := c as real / 100.0;
    if c == 0 {
      BelowIsInRange(0.0, 0);
      assert Represents(0.0, 0, 0);
      RoundFixesDoubles(0.0, 0, 0);
    } else {
      assert Shift(1.0, -7) <= x;
      AboveIsNormal(x, -7);
      RelativeError(x);
    }
  }

  lemma TwoErrors(c: real, p: real, t: real)
    requires 0.0 <= c <= 2251799813685247.0
    requires -(c / 9007199254740992.0) <= p - c <= c / 9007199254740992.0
    requires -(p / 9007199254740992.0) <= t - p <= p / 9007199254740992.0
    ensures -0.5 < t - c < 0.5
  {
  }

  /** One multiplication by 100 on top of the read stays within half a cent. */
  lemma ScaledReadError(c: int)
    requires 0 <= c < 0x8_0000_0000_0000
    ensures -0.5 < Times(ReadNumeric(c), 100.0) - c as real < 0.5
  {
    ReadError(c);
    var p := ReadNumeric(c) * 100.0;
    if c == 0 {
      RoundFixesIntegers(0);
    } else {
      assert Shift(1.0, -1) == 0.5;
      AboveIsNormal(p, -1);
      RelativeError(p);
      TwoErrors(c as real, p, Times(ReadNumeric(c), 100.0));
    }
  }

  /** Cent exactness: toCents undoes the read of every amount below 2^51 cents. */
  lemma ToCentsIsExact(c: int)
    requires 0 <= c < 0x8_0000_0000_0000
    ensures ToCents(ReadNumeric(c)) == c as real
  {
    ScaledReadError(c);
    NearestWhole(Times(ReadNumeric(c), 100.0), c);
  }

  lemma NearestWhole(x: real, c: int)
    requires -0.5 < x - c as real < 0.5
    ensures MathRound(x) == c as real
  {
    var n := (x + 0.5).Floor;
    assert n as real <= x + 0.5 < n as real + 1.0;
    assert n - c < 1 && c - n < 1;
  }

  /** Distinct amounts are distinct Numbers. */
  lemma ReadIsInjective(c: int, d: int)
    requires 0 <= c < 0x8_0000_0000_0000 && 0 <= d < 0x8_0000_0000_0000
    requires ReadNumeric(c) == ReadNumeric(d)
    ensures c == d
  {
    ToCentsIsExact(c);
    ToCentsIsExact(d);
  }

  /** Storage round trip: whatever decimal text of the Number is sent, the column holds c again. */
  lemma StoreUndoesRead(c: int, text: real)
    requires 0 <= c < NUMERIC_12_2
    requires TextOf(text, ReadNumeric(c))
    ensures StoreNumeric(text) == c
  {
    ReadError(c);
    if Normal(text) {
      RelativeError(text);
    } else {
      SubnormalError(text);
      TinyIsTiny();
    }
    assert -0.5 < text * 100.0 - c as real < 0.5;
  }

  lemma TinyIsTiny()
    ensures Shift(1.0, -1074) <= 0.001953125
    ensures forall x :: 0.0 <= x && !Normal(x) ==> x <= 0.001953125
  {
    ShiftMonotone(1.0, -1074, -9);
    forall x | 0.0 <= x && !Normal(x) ensures x <= 0.001953125 {
      if x > 0.001953125 {
        assert Shift(1.0, -9) == 0.001953125;
        AboveIsNormal(x, -9);
      }
    }
  }

  /** The driver always has such a text: a Number is a text of itself. */
  lemma NumberIsItsOwnText(c: int)
    requires 0 <= c < NUMERIC_12_2
    ensures TextOf(ReadNumeric(c), ReadNumeric(c))
  {
    var x := c as real / 100.0;
    ReadError(c);
    ShiftBy52(1.0, 0);
    BelowIsInRange(x, 53);
    var m, k := MagnitudeIsDouble(x);
    BelowIsInRange(ReadNumeric(c), 53);
    RoundFixesDoubles(ReadNumeric(c), m, k);
  }

  // ---- order totals ----

  /** The total is exact: price and quantity multiply in cents, nothing on the way reaches 2^53, the
      result fits NUMERIC(12, 2), both CHECKs hold, and the Number answered is the Number read later. */
  lemma OrderTotalIsExact(price: int, quantity: int)
    requires 0 <= price < NUMERIC_10_2 && 1 <= quantity <= 10
    ensures OrderTotal(ReadNumeric(price), quantity) == ReadNumeric(price * quantity)
    ensures ToCents(ReadNumeric(price)) == price as real
    ensures Times(ToCents(ReadNumeric(price)), quantity as real) == (price * quantity) as real
    ensures 0 <= price * quantity < NUMERIC_12_2 < 0x20_0000_0000_0000
  {
    ToCentsIsExact(price);
    SmallProduct(price, quantity);
    RoundFixesIntegers(price * quantity);
  }

  lemma SmallProduct(price: int, quantity: int)
    requires 0 <= price < NUMERIC_10_2 && 1 <= quantity <= 10
    ensures 0 <= price * quantity < 10 * NUMERIC_10_2
    ensures price as real * quantity as real == (price * quantity) as real
  {
  }

  /** The stored row: both columns hold exact cents whatever texts the driver picks. */
  lemma StoredTotalIsExact(price: int, quantity: int, priceText: real, totalText: real)
    requires 0 <= price < NUMERIC_10_2 && 1 <= quantity <= 10
    requires TextOf(priceText, ReadNumeric(price))
    requires TextOf(totalText, OrderTotal(ReadNumeric(price), quantity))
    ensures StoreNumeric(priceText) == price
    ensures StoreNumeric(totalText) == price * quantity
    ensures 0 <= StoreNumeric(totalText) < NUMERIC_12_2
  {
    OrderTotalIsExact(price, quantity);
    StoreUndoesRead(price, priceText);
    StoreUndoesRead(price * quantity, totalText);
  }

  // ---- why cents: the same total without them ----

  lemma ExponentIs(x: real, e: int, from: int)
    requires MIN_EXPONENT <= from <= e < MAX_EXPONENT
    requires Shift(1.0, e) <= x < Shift(1.0, e + 1)
    ensures Exponent(x, from) == e
    decreases e - from
  {
    if from < e {
      ShiftMonotone(1.0, from + 1, e);
      ExponentIs(x, e, from + 1);
    }
  }

  /** A value known to one binade rounds to the significand n nearest to it there. */
  lemma RoundIn(x: real, e: int, n: int)
    requires MIN_EXPONENT <= e < MAX_EXPONENT && Shift(1.0, e) <= x < Shift(1.0, e + 1)
    requires -0.5 < n as real - Shift(x, 52 - e) < 0.5
    ensures Round(x) == Shift(n as real, e - 52)
  {
    ExponentIs(x, e, MIN_EXPONENT);
    ShiftZero(e);
    ShiftOrder(0.0, 1.0, e);
    SameWhole(RoundHalfEven(Shift(x, 52 - e)), n, Shift(x, 52 - e));
  }

  lemma SameWhole(a: int, b: int, y: real)
    requires -0.5 <= a as real - y <= 0.5 && -0.5 < b as real - y < 0.5
    ensures a == b
  {
  }

  lemma Shift47(x: real)
    ensures Shift(x, 47) == 140737488355328.0 * x && Shift(x, -47) == x / 140737488355328.0
    ensures Shift(x, 49) == 562949953421312.0 * x && Shift(x, -49) == x / 562949953421312.0
    ensures Shift(x, 51) == 2251799813685248.0 * x && Shift(x, -51) == x / 2251799813685248.0
    ensures Shift(x, 52) == 4503599627370496.0 * x && Shift(x, -52) == x / 4503599627370496.0
  {
    ShiftBy52(x, 0);
    ShiftBy52(x, -52);
    forall e | -52 <= e < 52 ensures Shift(x, e + 1) == 2.0 * Shift(x, e) {
      ShiftUp(x, e);
    }
    assert Shift(x, 51 + 1) == 2.0 * Shift(x, 51) && Shift(x, 50 + 1) == 2.0 * Shift(x, 50);
    assert Shift(x, 49 + 1) == 2.0 * Shift(x, 49) && Shift(x, 48 + 1) == 2.0 * Shift(x, 48);
    assert Shift(x, 47 + 1) == 2.0 * Shift(x, 47);
    assert Shift(x, -52 + 1) == 2.0 * Shift(x, -52) && Shift(x, -51 + 1) == 2.0 * Shift(x, -51);
    assert Shift(x, -50 + 1) == 2.0 * Shift(x, -50) && Shift(x, -49 + 1) == 2.0 * Shift(x, -49);
    assert Shift(x, -48 + 1) == 2.0 * Shift(x, -48);
  }

  /** Without cents totals drift: 1.10 * 3 on Numbers is not 3.30. */
  lemma PlainProductDrifts()
    ensures Times(ReadNumeric(110), 3.0) != ReadNumeric(330)
  {
    assert Shift(1.0, 0) == 1.0 && Shift(1.0, 1) == 2.0 && Shift(1.0, 2) == 4.0;
    Shift47(1.1);
    RoundIn(1.1, 0, 4953959590107546);
    Shift47(4953959590107546.0);
    Shift47(3.3);
    RoundIn(3.3, 1, 7430939385161318);
    Shift47(ReadNumeric(110) * 3.0);
    RoundIn(ReadNumeric(110) * 3.0, 1, 7430939385161319);
    ShiftOrder(7430939385161319.0, 7430939385161318.0, -51);
  }

  /** The product quoted in the unit test, 12.99 * 3, is one that happens not to drift. */
  lemma QuotedProductDoesNotDrift()
    ensures Times(ReadNumeric(1299), 3.0) == ReadNumeric(3897)
  {
    assert Shift(1.0, 3) == 8.0 && Shift(1.0, 4) == 16.0 && Shift(1.0, 5) == 32.0 && Shift(1.0, 6) == 64.0;
    Shift47(12.99);
    RoundIn(12.99, 3, 7312719894942843);
    Shift47(7312719894942843.0);
    Shift47(38.97);
    RoundIn(38.97, 5, 5484539921207132);
    Shift47(ReadNumeric(1299) * 3.0);
    RoundIn(ReadNumeric(1299) * 3.0, 5, 5484539921207132);
  }
}
