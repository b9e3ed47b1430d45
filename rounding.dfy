/** Python's `round(x, ndigits)` for a non-negative `ndigits`, taken on the exact value
    of x: the nearest multiple of 10^-ndigits, ties going to the even multiple. */
module Rounding {
  import opened Decimal

  /** The integer nearest to y; of two equally near, the even one. */
  function NearestInt(y: real): (k: int)
    ensures k as real - 0.5 <= y <= k as real + 0.5
    ensures (y == k as real - 0.5 || y == k as real + 0.5) ==> k % 2 == 0
  {
    var f := y.Floor;
    var frac := y - f as real;
    if frac > 0.5 then f + 1
    else if frac < 0.5 then f
    else if f % 2 == 0 then f else f + 1
  }

  lemma NearestIntMonotone(y: real, z: real)
    requires y <= z
    ensures NearestInt(y) <= NearestInt(z)
  {
  }

  /** The number of units in 1.0 when `ndigits` decimal places are kept. */
  function Scale(ndigits: nat): (s: real)
    ensures s >= 1.0
  {
    Pow10(ndigits) as real
  }

  /** Rounding to the nearest multiple of 1/s. */
  function RoundAt(x: real, s: real): real
    requires s >= 1.0
  {
    NearestInt(x * s) as real / s
  }

  /** `round(x, ndigits)`: within half a unit 10^-ndigits of x. */
  function Round(x: real, ndigits: nat): (r: real)
    ensures x - 0.5 / Scale(ndigits) <= r <= x + 0.5 / Scale(ndigits)
  {
    RoundAtError(x, Scale(ndigits));
    RoundAt(x, Scale(ndigits))
  }

  /** Rounding moves a value by at most half a unit. */
  lemma RoundAtError(x: real, s: real)
    requires s >= 1.0
    ensures x - 0.5 / s <= RoundAt(x, s) <= x + 0.5 / s
  {
    var k := NearestInt(x * s) as real;
    assert (k - 0.5) / s <= (x * s) / s <= (k + 0.5) / s by {
      DivPreservesOrder(k - 0.5, x * s, s);
      DivPreservesOrder(x * s, k + 0.5, s);
    }
    assert (x * s) / s == x;
    assert (k - 0.5) / s == k / s - 0.5 / s;
    assert (k + 0.5) / s == k / s + 0.5 / s;
  }

  lemma DivPreservesOrder(a: real, b: real, s: real)
    requires a <= b && s > 0.0
    ensures a / s <= b / s
  {
    assert b / s - a / s == (b - a) / s;
  }

  lemma MulPreservesOrder(a: real, b: real, s: real)
    requires a <= b && s > 0.0
    ensures a * s <= b * s
  {
    assert b * s - a * s == (b - a) * s;
  }

  /** Rounding never reverses the order of two values. */
  lemma RoundAtMonotone(x: real, y: real, s: real)
    requires s >= 1.0 && x <= y
    ensures RoundAt(x, s) <= RoundAt(y, s)
  {
    MulPreservesOrder(x, y, s);
    NearestIntMonotone(x * s, y * s);
    DivPreservesOrder(NearestInt(x * s) as real, NearestInt(y * s) as real, s);
  }

  /** The result of rounding is a whole number of units 1/s. */
  lemma RoundAtOnGrid(x: real, s: real)
    requires s >= 1.0
    ensures (RoundAt(x, s) * s).Floor as real == RoundAt(x, s) * s
  {
    var k := NearestInt(x * s) as real;
    assert RoundAt(x, s) * s == k;
  }

  /** A multiple of 1/s is left as it is. */
  lemma RoundAtGridPoint(v: real, s: real)
    requires s >= 1.0
    requires (v * s).Floor as real == v * s
    ensures RoundAt(v, s) == v
  {
    var k := NearestInt(v * s) as real;
    assert k == v * s;
    assert k / s == v;
  }

  /** Rounding keeps a value inside any interval whose ends it leaves as they are. */
  lemma RoundAtWithin(x: real, lo: real, hi: real, s: real)
    requires s >= 1.0
    requires RoundAt(lo, s) == lo && RoundAt(hi, s) == hi
    ensures lo <= x <= hi ==> lo <= RoundAt(x, s) <= hi
  {
    if lo <= x <= hi {
      RoundAtMonotone(lo, x, s);
      RoundAtMonotone(x, hi, s);
    }
  }
}
