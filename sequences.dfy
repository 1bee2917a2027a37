/** The two auxiliary integer sequences behind the classification maps: the admissible terms
    (OEIS A100982) and the allowable dropping times (OEIS A122437). The source evaluates both with
    floating-point logarithms; here every logarithm test is the exact integer comparison it stands for. */
module Sequences {
  import opened Outcomes
  import opened Rules

  /** Size of the working arrays of the admissible-term generator (`limit`). */
  const Limit: nat := 1000

  function Pow(base: nat, e: nat): (r: nat)
    ensures base >= 1 ==> r >= 1
  {
    if e == 0 then 1 else base * Pow(base, e - 1)
  }

  lemma {:induction false} PowStrictlyIncreasing(base: nat, i: nat, j: nat)
    requires base >= 2 && i < j
    ensures Pow(base, i) < Pow(base, j)
  {
    if j == i + 1 {
      assert Pow(base, j) == base * Pow(base, i);
    } else {
      PowStrictlyIncreasing(base, i, j - 1);
      assert Pow(base, j) == base * Pow(base, j - 1);
    }
  }

  /** The largest m with 2^m <= x. */
  function FloorLog2(x: nat): (m: nat)
    requires x >= 1
    ensures Pow(2, m) <= x < Pow(2, m + 1)
  {
    if x < 2 then 0 else 1 + FloorLog2(x / 2)
  }

  /** FloorLog2 is monotone. */
  lemma {:induction false} FloorLog2Monotone(x: nat, y: nat)
    requires 1 <= x <= y
    ensures FloorLog2(x) <= FloorLog2(y)
  {
    if x >= 2 {
      FloorLog2Monotone(x / 2, y / 2);
    }
  }

  /** Term k (1-based) of the allowable dropping times, `floor(1 + k + k*log(3)/log(2))`. Because
      k*log2(3) is irrational for k >= 1, its floor is the largest m with 2^m <= 3^k, so the term is
      1 + k + m. */
  function DroppingTime(k: nat): (t: nat)
    ensures t >= 1 + k
    ensures Pow(2, t - 1 - k) <= Pow(3, k) < Pow(2, t - k)
  {
    1 + k + FloorLog2(Pow(3, k))
  }

  /** Consecutive dropping times differ by at least 2: one from k, at least one from 3^(k+1) >= 2*3^k. */
  lemma {:induction false} DroppingTimeGap(k: nat)
    ensures DroppingTime(k + 1) >= DroppingTime(k) + 2
  {
    var p := Pow(3, k);
    assert Pow(3, k + 1) == 3 * p;
    assert FloorLog2(2 * p) == 1 + FloorLog2(p) by { assert (2 * p) / 2 == p; }
    FloorLog2Monotone(2 * p, 3 * p);
  }

  /** The dropping times are strictly increasing, so as map keys they are pairwise distinct. */
  lemma {:induction false} DroppingTimesIncreasing(i: nat, j: nat)
    requires i < j
    ensures DroppingTime(i) < DroppingTime(j)
  {
    DroppingTimeGap(j - 1);
    if i < j - 1 {
      DroppingTimesIncreasing(i, j - 1);
    }
  }

  /** Every term from k = 1 on is at least 3, so no term coincides with the seeded length 1. */
  lemma DroppingTimeAtLeast3(k: nat)
    requires k >= 1
    ensures DroppingTime(k) >= 3
  {
    PowStrictlyIncreasing(3, 0, k);
    FloorLog2Monotone(2, Pow(3, k));
    assert FloorLog2(2) == 1 + FloorLog2(1);
  }

  /** `get_allowable_dropping_times`: terms 1..nTerms for the 3x+1 rule, nothing for any other rule. */
  method GetAllowableDroppingTimes(nTerms: int, opts: OrbitOptions) returns (r: seq<int>)
    ensures opts.name != "3x_plus_1" ==> r == []
    ensures opts.name == "3x_plus_1" ==> |r| == (if nTerms < 0 then 0 else nTerms)
    ensures forall i :: 0 <= i < |r| ==> r[i] == DroppingTime(i + 1) && r[i] >= 3
    ensures forall i, j :: 0 <= i < j < |r| ==> r[i] < r[j]
  {
    r := [];
    if opts.name == "3x_plus_1" {
      var n := 1;
      while n < nTerms + 1
        invariant 1 <= n <= (if nTerms < 0 then 1 else nTerms + 1) && |r| == n - 1
        invariant forall i :: 0 <= i < |r| ==> r[i] == DroppingTime(i + 1) && r[i] >= 3
        invariant forall i, j :: 0 <= i < j < |r| ==> r[i] < r[j]
      {
        var term := 1 + n + FloorLog2(Pow(3, n));
        DroppingTimeAtLeast3(n);
        forall i | 0 <= i < |r| ensures r[i] < term {
          DroppingTimesIncreasing(i + 1, n);
        }
        r := r + [term];
        n := n + 1;
      }
    }
  }

  /** Powers of 3 dominate powers of 2. */
  lemma {:induction false} PowThreeDominatesTwo(e: nat)
    ensures Pow(2, e) <= Pow(3, e)
  {
    if e > 0 {
      PowThreeDominatesTwo(e - 1);
      assert Pow(2, e) == 2 * Pow(2, e - 1) && Pow(3, e) == 3 * Pow(3, e - 1);
    }
  }

  /** The harvesting test of the admissible-term generator, `(b+1-c)*log(3) < b*log(2)`, stated
      exactly as 3^(b+1-c) < 2^b. The lowest column c = 1 is never harvested, and the top column
      c = b + 1 always is. */
  function Harvested(b: nat, c: nat): (h: bool)
    requires c <= b + 1
    ensures c == 1 ==> !h
    ensures c == b + 1 && b >= 1 ==> h
  {
    PowThreeDominatesTwo(b);
    Pow(3, b + 1 - c) < Pow(2, b)
  }

  /** The harvested columns of a pass form a suffix: a column above a harvested one is harvested. */
  lemma HarvestedSuffix(b: nat, c: nat, c': nat)
    requires c <= c' <= b + 1 && Harvested(b, c)
    ensures Harvested(b, c')
  {
    if c < c' {
      PowStrictlyIncreasing(3, b + 1 - c', b + 1 - c);
    }
  }

  /** `get_admissible`: the dynamic-programming pass over the arrays x and y. Only positive sums are
      emitted, so on success every term is positive and exactly nTerms are produced for the 3x+1 rule;
      any other rule yields no terms. The arrays have Limit + 2 slots, so step b touches index b + 1 and
      the pass fails with an index error once b exceeds Limit. */
  method GetAdmissible(nTerms: int, opts: OrbitOptions) returns (r: Result<seq<int>>)
    ensures opts.name != "3x_plus_1" ==> r == Success([])
    ensures r.Failure? ==> r.error == IndexOutOfRange
    ensures r.Success? && opts.name == "3x_plus_1" ==> |r.value| == (if nTerms < 0 then 0 else nTerms)
    ensures r.Success? ==> forall i :: 0 <= i < |r.value| ==> r.value[i] > 0
  {
    var results: seq<int> := [];
    if opts.name == "3x_plus_1" {
      var x := new int[Limit + 2](_ => 0);
      var y := new int[Limit + 2](_ => 0);
      x[1] := 1;
      var n := 1;
      var b := 1;
      while |results| < nTerms
        invariant 1 <= b <= Limit && n == |results| + 1
        invariant |results| <= (if nTerms < 0 then 0 else nTerms)
        invariant forall i :: 0 <= i < |results| ==> results[i] > 0
        invariant forall i :: 0 <= i < x.Length ==> x[i] >= 0
        invariant forall i :: 0 <= i < y.Length ==> y[i] >= 0
        decreases Limit - b
      {
        b := b + 1;
        if b + 1 > Limit + 1 {
          return Failure(IndexOutOfRange);
        }
        for c := 2 to b + 2
          invariant forall i :: 0 <= i < x.Length ==> x[i] >= 0
          invariant forall i :: 0 <= i < y.Length ==> y[i] >= 0
        {
          y[c] := x[c] + x[c - 1];
        }
        for c := 2 to b + 2
          invariant forall i :: 0 <= i < x.Length ==> x[i] >= 0
          invariant forall i :: 0 <= i < y.Length ==> y[i] >= 0
        {
          x[c] := y[c];
        }
        var an := 0;
        for c := 1 to b + 2
          invariant an >= 0
          invariant forall i :: 0 <= i < x.Length ==> x[i] >= 0
          invariant forall i :: 0 <= i < y.Length ==> y[i] >= 0
        {
          if Harvested(b, c) {
            an := an + x[c];
            x[c] := 0;
          }
        }
        if an != 0 {
          results := results + [an];
          n := n + 1;
        }
      }
    }
    return Success(results);
  }
}
