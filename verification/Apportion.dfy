/** Splitting a stored count over allocation shares, in signed 64-bit arithmetic
    (internal/storage/sqlite/store.go). */
module Apportion {
  import opened Basics
  import opened Calls

  // ---- 64-bit arithmetic ----------------------------------------------------------

  const MODULUS: int := 0x1_0000_0000_0000_0000

  // The value a machine word keeps of an integer.
  function Wrap(x: int): (r: Int64)
    ensures -MAX_INT64 - 1 <= x <= MAX_INT64 ==> r == x
  {
    (x + MAX_INT64 + 1) % MODULUS - MAX_INT64 - 1
  }

  // Division and remainder by 10000 truncate towards zero.
  function Quotient(x: Int64): Int64 {
    var n: int := x;
    if n >= 0 then n / WHOLE else -((0 - n) / WHOLE)
  }

  function Remainder(x: Int64): Int64 {
    x - Quotient(x) * WHOLE
  }

  // share: value/10000*points + value%10000*points/10000, every result a word.
  function ShareUpTo(value: Int64, points: Int64): Int64 {
    Wrap(Wrap(Quotient(value) * points) + Quotient(Wrap(Remainder(value) * points)))
  }

  function ApportionShare(value: Int64, offset: Int64, points: Int64): Int64 {
    Wrap(ShareUpTo(value, Wrap(offset + points)) - ShareUpTo(value, offset))
  }

  // ---- exactness -------------------------------------------------------------------

  lemma SmallProduct(a: int, b: int, m: int, n: int)
    requires 0 <= a <= m && 0 <= b <= n
    ensures 0 <= a * b <= m * n
  {
    assert a * b <= m * b <= m * n;
  }

  // Dividing before multiplying loses nothing when the remainder is added back.
  lemma SplitQuotient(q: int, r: int, p: int)
    requires q >= 0 && r >= 0 && p >= 0
    ensures (q * WHOLE + r) * p / WHOLE == q * p + r * p / WHOLE
  {
    assert (q * WHOLE + r) * p == q * p * WHOLE + r * p;
    DivideSum(q * p, r * p);
  }

  lemma DivideSum(a: int, b: int)
    ensures (a * WHOLE + b) / WHOLE == a + b / WHOLE
  {
  }

  // The share of a count up to some points is the exact floor, and no step of its
  // computation leaves the word.
  lemma ShareUpToExact(value: Int64, points: Int64)
    requires value >= 0 && 0 <= points <= WHOLE
    ensures ShareUpTo(value, points) == value * points / WHOLE
    ensures 0 <= value * points / WHOLE <= value
    ensures Wrap(Quotient(value) * points) == Quotient(value) * points
    ensures Wrap(Remainder(value) * points) == Remainder(value) * points
  {
    var q, r := value / WHOLE, value % WHOLE;
    assert Quotient(value) == q && Remainder(value) == r;
    SmallProduct(q, points, q, WHOLE);
    SmallProduct(r, points, WHOLE, WHOLE);
    SplitQuotient(q, r, points);
    assert value == q * WHOLE + r;
    SmallProduct(r, points, r, WHOLE);
    assert r * points / WHOLE <= r by { DivideBound(r * points, r); }
  }

  lemma DivideBound(x: int, r: int)
    requires 0 <= x <= r * WHOLE
    ensures 0 <= x / WHOLE <= r
  {
  }

  // Main result on one share: it is exactly the difference of two floors, within
  // the count, and nothing overflows.
  lemma ApportionExact(value: Int64, offset: Int64, points: Int64)
    requires value >= 0 && offset >= 0 && points >= 0 && offset + points <= WHOLE
    ensures ApportionShare(value, offset, points) == value * (offset + points) / WHOLE - value * offset / WHOLE
    ensures 0 <= ApportionShare(value, offset, points) <= value
  {
    hide Wrap;
    hide ShareUpTo;
    ShareUpToExact(value, offset + points);
    ShareUpToExact(value, offset);
    Distribute(value, offset, points);
    DivideMonotone(value * offset, value * (offset + points));
  }

  lemma Distribute(v: int, a: int, b: int)
    requires v >= 0 && b >= 0
    ensures v * a <= v * (a + b) == v * a + v * b
  {
  }

  lemma DivideMonotone(a: int, b: int)
    requires a <= b
    ensures a / WHOLE <= b / WHOLE
  {
  }

  // Each share is within one unit of its exact proportion.
  lemma WithinOneUnit(value: Int64, offset: Int64, points: Int64)
    requires value >= 0 && offset >= 0 && points >= 0 && offset + points <= WHOLE
    ensures -WHOLE < ApportionShare(value, offset, points) * WHOLE - value * points < WHOLE
  {
    hide ApportionShare;
    ApportionExact(value, offset, points);
    Distribute(value, offset, points);
    FloorDifference(value * offset, value * points);
  }

  lemma FloorDifference(a: int, b: int)
    ensures -WHOLE < ((a + b) / WHOLE - a / WHOLE) * WHOLE - b < WHOLE
  {
  }

  // ---- successive shares ---------------------------------------------------------------

  function PointsTotal(shares: seq<int>): int {
    if shares == [] then 0 else PointsTotal(shares[..|shares| - 1]) + shares[|shares| - 1]
  }

  predicate Partial(shares: seq<int>) {
    && (forall k :: 0 <= k < |shares| ==> 0 <= shares[k] <= WHOLE)
    && PointsTotal(shares) <= WHOLE
  }

  lemma {:induction false} PartialPrefix(shares: seq<int>)
    requires shares != [] && Partial(shares)
    ensures Partial(shares[..|shares| - 1])
    ensures 0 <= PointsTotal(shares[..|shares| - 1])
  {
    NonNegativePoints(shares[..|shares| - 1]);
  }

  lemma {:induction false} NonNegativePoints(shares: seq<int>)
    requires forall k :: 0 <= k < |shares| ==> 0 <= shares[k]
    ensures PointsTotal(shares) >= 0
  {
    if shares != [] {
      NonNegativePoints(shares[..|shares| - 1]);
    }
  }

  // The shares of one count, each starting where the one before it ended.
  function Successive(value: Int64, shares: seq<int>): int
    requires Partial(shares)
  {
    if shares == [] then 0
    else
      PartialPrefix(shares);
      Successive(value, shares[..|shares| - 1])
        + ApportionShare(value, PointsTotal(shares[..|shares| - 1]), shares[|shares| - 1])
  }

  // Main result on successive shares: they telescope, so shares of a whole add up
  // to the count exactly.
  lemma {:induction false} SuccessiveTelescopes(value: Int64, shares: seq<int>)
    requires value >= 0 && Partial(shares)
    ensures Successive(value, shares) == value * PointsTotal(shares) / WHOLE
    ensures PointsTotal(shares) == WHOLE ==> Successive(value, shares) == value
  {
    hide ApportionShare;
    if shares != [] {
      PartialPrefix(shares);
      SuccessiveTelescopes(value, shares[..|shares| - 1]);
      ApportionExact(value, PointsTotal(shares[..|shares| - 1]), shares[|shares| - 1]);
    }
  }
}
