/** Pro-rata shares of settled proceeds in whole units, and the dust the division leaves. */
module ProRata {
  import opened Wrappers

  datatype RangeError = TotalNotPositive | NegativeInvestment | NegativeProceeds

  /** `investedAmount * settledProceeds / totalFunded`; on these operands truncation is flooring. */
  function ComputeInvestorReturn(invested: int, total: int, proceeds: int): Result<int, RangeError> {
    if total <= 0 then Err(TotalNotPositive)
    else if invested < 0 then Err(NegativeInvestment)
    else if proceeds < 0 then Err(NegativeProceeds)
    else Ok(invested * proceeds / total)
  }

  /** The share of valid operands. */
  function Share(invested: nat, total: nat, proceeds: nat): nat
    requires total > 0
  {
    invested * proceeds / total
  }

  function Sum(xs: seq<nat>): nat {
    if xs == [] then 0 else xs[0] + Sum(xs[1..])
  }

  function Shares(parts: seq<nat>, total: nat, proceeds: nat): seq<nat>
    requires total > 0
  {
    if parts == [] then [] else [Share(parts[0], total, proceeds)] + Shares(parts[1..], total, proceeds)
  }

  /** The share is the whole part of the exact proportion, and fails exactly on the guarded operands. */
  lemma ReturnIsExactFloor(invested: int, total: int, proceeds: int)
    ensures var r := ComputeInvestorReturn(invested, total, proceeds);
            && (r.Ok? <==> total > 0 && invested >= 0 && proceeds >= 0)
            && (r == Err(TotalNotPositive) <==> total <= 0)
            && (r == Err(NegativeInvestment) <==> total > 0 && invested < 0)
            && (r == Err(NegativeProceeds) <==> total > 0 && invested >= 0 && proceeds < 0)
            && (r.Ok? ==> r.value * total <= invested * proceeds < (r.value + 1) * total)
            && (r.Ok? ==> r.value == Share(invested, total, proceeds))
  {
    if total > 0 && invested >= 0 && proceeds >= 0 {
      Mul(invested, proceeds);
      FloorBounds(invested * proceeds, total);
    }
  }

  lemma Mul(a: nat, b: nat)
    ensures a * b >= 0
  {}

  lemma FloorBounds(n: nat, d: nat)
    requires d > 0
    ensures n / d * d <= n < (n / d + 1) * d
  {
    assert n == n / d * d + n % d;
  }

  lemma CancelLess(x: int, y: int, d: nat)
    requires d > 0 && x * d < y * d
    ensures x < y
  {
    assert (y - x) * d > 0;
  }

  /** A quotient between two bounds. */
  lemma FloorUnique(n: nat, d: nat, q: nat)
    requires d > 0 && q * d <= n < (q + 1) * d
    ensures n / d == q
  {
    FloorBounds(n, d);
    CancelLess(q, n / d + 1, d);
    CancelLess(n / d, q + 1, d);
  }

  lemma FloorMonotone(n: nat, m: nat, d: nat)
    requires d > 0 && n <= m
    ensures n / d <= m / d
  {
    FloorBounds(n, d);
    FloorBounds(m, d);
    CancelLess(n / d, m / d + 1, d);
  }

  lemma AddBounds(a: nat, b: nat, p: nat, q: nat, d: nat)
    requires p * d <= a < (p + 1) * d && q * d <= b < (q + 1) * d
    ensures (p + q) * d <= a + b < (p + q + 1) * d + d
    ensures (p + q + 1) * d + d == (p + q + 2) * d
  {
    var x, y := p * d, q * d;
    assert (p + 1) * d == x + d && (q + 1) * d == y + d;
    assert (p + q) * d == x + y && (p + q + 1) * d == x + y + d && (p + q + 2) * d == x + y + d + d;
  }

  /** Splitting a number before dividing never gains and loses at most one unit. */
  lemma FloorOfSum(a: nat, b: nat, d: nat)
    requires d > 0
    ensures a / d + b / d <= (a + b) / d <= a / d + b / d + 1
  {
    var p, q := a / d, b / d;
    FloorBounds(a, d);
    FloorBounds(b, d);
    AddBounds(a, b, p, q, d);
    if a + b < (p + q + 1) * d {
      FloorUnique(a + b, d, p + q);
    } else {
      FloorUnique(a + b, d, p + q + 1);
    }
  }

  lemma ShareOfSum(a: nat, b: nat, total: nat, proceeds: nat)
    requires total > 0
    ensures var parts := Share(a, total, proceeds) + Share(b, total, proceeds);
            parts <= Share(a + b, total, proceeds) <= parts + 1
  {
    Mul(a, proceeds);
    Mul(b, proceeds);
    assert (a + b) * proceeds == a * proceeds + b * proceeds;
    FloorOfSum(a * proceeds, b * proceeds, total);
  }

  /** Main result: paying any split of a position never pays more, and loses less than one unit per part. */
  lemma {:induction false} SplittingLosesLessThanOnePerPart(parts: seq<nat>, total: nat, proceeds: nat)
    requires total > 0 && parts != []
    ensures Sum(Shares(parts, total, proceeds)) <= Share(Sum(parts), total, proceeds)
            < Sum(Shares(parts, total, proceeds)) + |parts|
  {
    hide Share;
    var first, rest := parts[0], parts[1..];
    assert Shares(parts, total, proceeds)[1..] == Shares(rest, total, proceeds);
    if rest == [] {
      assert Sum(parts) == first;
    } else {
      SplittingLosesLessThanOnePerPart(rest, total, proceeds);
      ShareOfSum(first, Sum(rest), total, proceeds);
    }
  }

  /** Conservation: the investors of a fully accounted invoice get the proceeds less at most n - 1 units. */
  lemma ProceedsAreConserved(invested: seq<nat>, total: nat, proceeds: nat)
    requires total > 0 && Sum(invested) == total
    ensures var paid := Sum(Shares(invested, total, proceeds));
            proceeds - |invested| < paid <= proceeds
  {
    assert invested != [];
    SplittingLosesLessThanOnePerPart(invested, total, proceeds);
    FloorUnique(total * proceeds, total, proceeds);
  }

  function Ones(n: nat): seq<nat> {
    if n == 0 then [] else [1] + Ones(n - 1)
  }

  /** The dust bound is reached: n equal positions and n - 1 units pay nobody anything. */
  lemma {:induction false} DustBoundIsReached(n: nat, k: nat)
    requires k <= n && n > 0
    ensures Sum(Ones(k)) == k && |Ones(k)| == k
    ensures Sum(Shares(Ones(k), n, n - 1)) == 0
    decreases k
  {
    if k > 0 {
      DustBoundIsReached(n, k - 1);
      assert Ones(k)[1..] == Ones(k - 1);
      FloorUnique(1 * (n - 1), n, 0);
      assert Shares(Ones(k), n, n - 1)[1..] == Shares(Ones(k - 1), n, n - 1);
    }
  }

  /** A larger position or larger proceeds never pay less. */
  lemma SharesAreMonotone(a: nat, b: nat, total: nat, p: nat, q: nat)
    requires total > 0 && a <= b && p <= q
    ensures Share(a, total, p) <= Share(b, total, q)
  {
    Mul(a, p);
    Mul(b, q);
    assert a * p <= b * p <= b * q;
    FloorMonotone(a * p, b * q, total);
  }
}
