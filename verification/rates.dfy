/**
 Money to points (user_worker/src/rates.rs). Integers are unbounded here; the checks for
 128-bit and 64-bit overflow are written out.
 */
module Rates {
  import opened Arithmetic
  import opened Wrappers
  import opened Config

  const U128 := 0x1_0000_0000_0000_0000_0000_0000_0000_0000
  const I64_MAX := 0x7fff_ffff_ffff_ffff

  function Pow10(n: nat): (r: nat)
    ensures r > 0
  {
    if n == 0 then 1 else 10 * Pow10(n - 1)
  }

  function Div(x: nat, d: nat): (q: nat)
    requires d > 0
    ensures q * d <= x < q * d + d
  {
    assert x / d * d <= x < x / d * d + d;
    x / d
  }

  function CheckedMul(a: nat, b: nat): Option<nat> {
    if a * b < U128 then Some(a * b) else None
  }

  /** Points for an amount in base units, at a price with 8 decimals; no price is one dollar. */
  function PointsFor(amount: nat, decimals: nat, price8: Option<nat>): nat {
    var price := if price8.Some? then price8.value else 100_000_000;
    var scaled := CheckedMul(amount, price);
    if scaled.None? then I64_MAX else
    var usd := Div(scaled.value, Pow10(decimals));
    var num := CheckedMul(usd, POINTS_PER_USD);
    if num.None? then I64_MAX else
    var points := num.value / 100_000_000;
    if points <= I64_MAX then points else I64_MAX
  }

  /** One floor over the exact product, with a ceiling of the largest i64. */
  function Exact(amount: nat, decimals: nat, price: nat): nat {
    Min(Div(amount * price, Pow10(decimals + 4)), I64_MAX)
  }

  // ---- division --------------------------------------------------------------

  lemma Regroup(a: nat, b: nat, r: nat)
    ensures a * (b * r) == r * (a * b) && a * (b * r + b) == r * (a * b) + a * b
  {
    assert a * (b * r) == (a * b) * r;
  }

  lemma OneMore(a: nat, q: nat)
    ensures a * (q + 1) == a * q + a
  {
  }

  lemma DivDiv(x: nat, a: nat, b: nat)
    requires a > 0 && b > 0 && a * b > 0
    ensures x / a / b == x / (a * b)
  {
    var q := Div(x, a);
    var r := Div(q, b);
    MulMonotone(a, b * r, q);
    MulMonotone(a, q + 1, b * r + b);
    OneMore(a, q);
    Regroup(a, b, r);
    DivUnique(x, a * b, r);
  }

  lemma {:induction false} Pow10Adds(a: nat, b: nat)
    ensures Pow10(a + b) == Pow10(a) * Pow10(b)
  {
    if b == 0 {
      assert a + b == a;
    } else {
      Pow10Adds(a, b - 1);
      assert Pow10(a + b) == 10 * Pow10(a + b - 1);
    }
  }

  lemma Pow10Monotone(a: nat, b: nat)
    requires a <= b
    ensures Pow10(a) <= Pow10(b)
  {
    Pow10Adds(a, b - a);
    assert Pow10(a) * 1 <= Pow10(a) * Pow10(b - a);
  }

  /** The two floors are one. */
  lemma NestedFloors(scaled: nat, decimals: nat)
    ensures scaled / Pow10(decimals) * POINTS_PER_USD / 100_000_000 == scaled / Pow10(decimals + 4)
  {
    var usd := scaled / Pow10(decimals);
    assert usd * 10_000 / 100_000_000 == usd / 10_000;
    DivDiv(scaled, Pow10(decimals), 10_000);
    Pow10Adds(decimals, 4);
    assert Pow10(4) == 10_000;
  }

  // ---- exactness -------------------------------------------------------------

  function PriceOf(price8: Option<nat>): nat {
    if price8.Some? then price8.value else 100_000_000
  }

  /** While the product fits 128 bits nothing is lost to the floors or the second overflow. */
  lemma ExactWhenItFits(amount: nat, decimals: nat, price8: Option<nat>)
    requires amount * PriceOf(price8) < U128
    ensures PointsFor(amount, decimals, price8) == Exact(amount, decimals, PriceOf(price8))
  {
    var scaled := amount * PriceOf(price8);
    NestedFloors(scaled, decimals);
    var usd := scaled / Pow10(decimals);
    if usd * POINTS_PER_USD >= U128 {
      DivMonotone(U128, usd * POINTS_PER_USD, 100_000_000);
    }
  }

  /** Exactly when the result is the exact one: the product fits, or would pass the ceiling anyway. */
  lemma ExactIff(amount: nat, decimals: nat, price8: Option<nat>)
    ensures PointsFor(amount, decimals, price8) == Exact(amount, decimals, PriceOf(price8))
       <==> (amount * PriceOf(price8) < U128 || amount * PriceOf(price8) / Pow10(decimals + 4) >= I64_MAX)
  {
    if amount * PriceOf(price8) < U128 {
      ExactWhenItFits(amount, decimals, price8);
    }
  }

  /** With at most 15 decimals, the result is exact for every amount and price; with more it is not. */
  lemma ExactForAllIff(decimals: nat)
    ensures (forall amount: nat, price8: Option<nat> | amount < U128 && PriceOf(price8) < U128 ::
               PointsFor(amount, decimals, price8) == Exact(amount, decimals, PriceOf(price8)))
       <==> decimals <= 15
  {
    var d := Pow10(decimals + 4);
    assert Pow10(19) == 1_0000_000_000_000_000_000 by { Pow10Of19(); }
    assert Pow10(20) == 10 * Pow10(19);
    if decimals <= 15 {
      Pow10Monotone(decimals + 4, 19);
      forall amount: nat, price8: Option<nat> | amount < U128 && PriceOf(price8) < U128
        ensures PointsFor(amount, decimals, price8) == Exact(amount, decimals, PriceOf(price8))
      {
        var x := amount * PriceOf(price8);
        if x >= U128 {
          AtLeast(x, d);
        }
        ExactIff(amount, decimals, price8);
      }
    } else {
      Pow10Monotone(20, decimals + 4);
      TooSmall(d);
      ExactIff(U128 / 2, decimals, Some(2));
      assert U128 / 2 * 2 == U128;
    }
  }

  lemma Pow10Of19()
    ensures Pow10(19) == 10_000_000_000_000_000_000
  {
    Pow10Adds(4, 4);
    Pow10Adds(8, 8);
    Pow10Adds(16, 3);
  }

  lemma DivAntitone(x: nat, c: nat, d: nat)
    requires 0 < c <= d
    ensures x / d <= x / c
  {
    var p, q := Div(x, c), Div(x, d);
    assert q * c <= q * d;
    NextMultiple(p, q, c);
  }

  lemma AtLeast(x: nat, d: nat)
    requires x >= U128 && 0 < d <= 10_000_000_000_000_000_000
    ensures x / d >= I64_MAX
  {
    DivAntitone(x, d, 10_000_000_000_000_000_000);
    DivMonotone(U128, x, 10_000_000_000_000_000_000);
  }

  lemma TooSmall(d: nat)
    requires d >= 100_000_000_000_000_000_000
    ensures U128 / d < I64_MAX
  {
    DivAntitone(U128, 100_000_000_000_000_000_000, d);
  }

  // ---- monotone, and no gain from splitting ------------------------------------

  /** More money, or a higher price, never earns fewer points. */
  lemma Monotone(amount: nat, more: nat, decimals: nat, price: nat, higher: nat)
    requires amount <= more && price <= higher
    ensures PointsFor(amount, decimals, Some(price)) <= PointsFor(more, decimals, Some(higher))
  {
    MulMonotone(price, amount, more);
    MulMonotone(more, price, higher);
    if more * higher < U128 {
      ExactWhenItFits(amount, decimals, Some(price));
      ExactWhenItFits(more, decimals, Some(higher));
      DivMonotone(amount * price, more * higher, Pow10(decimals + 4));
    }
  }

  /** Paying in two parts earns at most as much as paying at once, and at most one point less. */
  lemma SplittingNeverGains(a: nat, b: nat, decimals: nat, price8: Option<nat>)
    requires PointsFor(a + b, decimals, price8) < I64_MAX
    ensures PointsFor(a, decimals, price8) + PointsFor(b, decimals, price8) <= PointsFor(a + b, decimals, price8)
    ensures PointsFor(a + b, decimals, price8) <= PointsFor(a, decimals, price8) + PointsFor(b, decimals, price8) + 1
  {
    var price := PriceOf(price8);
    Distribute(a, b, price);
    ExactWhenItFits(a + b, decimals, price8);
    ExactWhenItFits(a, decimals, price8);
    ExactWhenItFits(b, decimals, price8);
    DivAdds(a * price, b * price, Pow10(decimals + 4));
  }

  lemma Distribute(a: nat, b: nat, c: nat)
    ensures (a + b) * c == a * c + b * c && a * c >= 0 && b * c >= 0
  {
  }

  lemma DivAdds(x: nat, y: nat, d: nat)
    requires d > 0
    ensures x / d + y / d <= (x + y) / d <= x / d + y / d + 1
  {
    var r := x % d + y % d;
    assert x == x / d * d + x % d && y == y / d * d + y % d;
    assert (x / d + y / d) * d == x / d * d + y / d * d;
    if r < d {
      DivUnique(x + y, d, x / d + y / d);
    } else {
      assert (x / d + y / d + 1) * d == x / d * d + y / d * d + d;
      DivUnique(x + y, d, x / d + y / d + 1);
    }
  }

  /** A dollar of a stablecoin is 10,000 points, at any number of decimals. */
  lemma DollarsToPoints(dollars: nat, decimals: nat)
    requires dollars * Pow10(decimals) * 100_000_000 < U128 && dollars * 10_000 <= I64_MAX
    ensures dollars * Pow10(decimals) >= 0 && PointsFor(dollars * Pow10(decimals), decimals, None) == dollars * 10_000
  {
    MulMonotone(Pow10(decimals), 0, dollars);
    var amount := dollars * Pow10(decimals);
    ExactWhenItFits(amount, decimals, None);
    Pow10Adds(decimals, 4);
    assert Pow10(4) == 10_000;
    DollarProduct(dollars, Pow10(decimals));
    DivUnique(amount * 100_000_000, Pow10(decimals + 4), dollars * 10_000);
  }

  lemma DollarProduct(dollars: nat, p: nat)
    ensures dollars * p * 100_000_000 == (dollars * 10_000) * (p * 10_000)
  {
    assert (dollars * 10_000) * (p * 10_000) == (dollars * p) * (10_000 * 10_000);
  }
}
