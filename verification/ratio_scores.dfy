/** The two deviation-to-score functions of the landmark guide, `scoreRatio` and
    `scoreEquality`, and the clamped linear fall-off they share with the symmetry score. */
module RatioScores {
  import opened JsMath

  /** Default tolerance of `scoreEquality`. */
  const EqualityTolerance: real := 0.12

  /** The clamped linear fall-off: full marks at no deviation, falling linearly to zero
      when the deviation reaches `tolerance`, and never outside [0, 100]. */
  function Falloff(dev: real, tolerance: real): (s: real)
    requires tolerance > 0.0
    ensures 0.0 <= s <= 100.0
    ensures s == 100.0 <==> dev <= 0.0
    ensures s == 0.0 <==> dev >= tolerance
  {
    DivOrder(tolerance, dev, tolerance);
    DivOrder(dev, 0.0, tolerance);
    assert tolerance / tolerance == 1.0;
    Min(100.0, Max(0.0, 100.0 * Max(0.0, 1.0 - dev / tolerance)))
  }

  /** Between the two extremes the score is linear in the deviation. */
  lemma FalloffLinear(dev: real, tolerance: real)
    requires tolerance > 0.0 && 0.0 <= dev <= tolerance
    ensures Falloff(dev, tolerance) * tolerance == 100.0 * (tolerance - dev)
  {
  }

  /** A larger deviation never scores higher. */
  lemma FalloffMonotone(d1: real, d2: real, tolerance: real)
    requires tolerance > 0.0 && d1 <= d2
    ensures Falloff(d1, tolerance) >= Falloff(d2, tolerance)
  {
    DivOrder(d1, d2, tolerance);
  }

  /** `scoreRatio`: 0 for a non-finite or non-positive value, otherwise the fall-off of the
      value's deviation from the ideal, relative to the ideal. The source's default
      tolerance of 0.15 is never used, since every caller passes its own. */
  function ScoreRatio(value: Num, ideal: real, tolerance: real): (s: real)
    requires ideal > 0.0 && tolerance > 0.0
    ensures 0.0 <= s <= 100.0
    ensures !IsPositive(value) ==> s == 0.0
    ensures s == 100.0 <==> value == Finite(ideal)
    ensures IsPositive(value) ==> (s == 0.0 <==> Abs(value.v - ideal) / ideal >= tolerance)
  {
    if !IsPositive(value) then
      0.0
    else
      var dev := Abs(value.v - ideal) / ideal;
      Falloff(dev, tolerance)
  }

  /** The score is non-increasing as the value moves away from the ideal. */
  lemma ScoreRatioMonotone(a: Num, b: Num, ideal: real, tolerance: real)
    requires ideal > 0.0 && tolerance > 0.0
    requires IsPositive(a) && IsPositive(b)
    requires Abs(a.v - ideal) <= Abs(b.v - ideal)
    ensures ScoreRatio(a, ideal, tolerance) >= ScoreRatio(b, ideal, tolerance)
  {
    DivOrder(Abs(a.v - ideal), Abs(b.v - ideal), ideal);
    FalloffMonotone(Abs(a.v - ideal) / ideal, Abs(b.v - ideal) / ideal, tolerance);
  }

  /** No value is non-finite or non-positive: the guard of `scoreEquality` lets the list through. */
  predicate AllPositive(values: seq<Num>) {
    forall i :: 0 <= i < |values| ==> IsPositive(values[i])
  }

  /** The real value of a number; only read once the values are known to be finite. */
  function Val(n: Num): real {
    if n.Finite? then n.v else 0.0
  }

  /** The sum of `f` over a list, starting from zero. */
  function SumOf<T>(xs: seq<T>, f: T -> real): (t: real)
    ensures (forall i :: 0 <= i < |xs| ==> f(xs[i]) >= 0.0) ==> t >= 0.0
    ensures |xs| > 0 && (forall i :: 0 <= i < |xs| ==> f(xs[i]) > 0.0) ==> t > 0.0
  {
    if |xs| == 0 then 0.0 else f(xs[0]) + SumOf(xs[1..], f)
  }

  /** The mean of positive values is positive. */
  function Mean(values: seq<Num>): (m: real)
    requires |values| > 0 && AllPositive(values)
    ensures m > 0.0
  {
    assert forall i :: 0 <= i < |values| ==> Val(values[i]) > 0.0;
    SumOf(values, Val) / |values| as real
  }

  /** The distance of a value from the mean, relative to the mean. */
  function RelDev(n: Num, avg: real): (d: real)
    requires avg > 0.0
    ensures d >= 0.0
    ensures d == 0.0 <==> Val(n) == avg
  {
    Abs(Val(n) - avg) / avg
  }

  /** The largest relative deviation from the mean over a non-empty list. */
  function WorstDev(values: seq<Num>, avg: real): (w: real)
    requires |values| > 0 && avg > 0.0
    ensures exists i :: 0 <= i < |values| && w == RelDev(values[i], avg)
    ensures forall i :: 0 <= i < |values| ==> RelDev(values[i], avg) <= w
  {
    if |values| == 1 then
      RelDev(values[0], avg)
    else
      var rest := WorstDev(values[1..], avg);
      assert forall i :: 1 <= i < |values| ==> values[i] == values[1..][i - 1];
      Max(RelDev(values[0], avg), rest)
  }

  /** `scoreEquality`: 0 if some value is non-finite or non-positive, otherwise the
      fall-off of the worst relative deviation from the mean. An empty list has a worst
      deviation of minus infinity, which saturates the score at 100. */
  function ScoreEquality(values: seq<Num>, tolerance: real): (s: real)
    requires tolerance > 0.0
    ensures 0.0 <= s <= 100.0
    ensures !AllPositive(values) ==> s == 0.0
    ensures |values| == 0 ==> s == 100.0
  {
    if !AllPositive(values) then
      0.0
    else if |values| == 0 then
      100.0
    else
      Falloff(WorstDev(values, Mean(values)), tolerance)
  }

  /** All values are the same. */
  predicate AllEqual(values: seq<Num>) {
    forall i, j :: 0 <= i < |values| && 0 <= j < |values| ==> values[i] == values[j]
  }

  /** Adding up `n` copies of one value. */
  lemma {:induction false} SumOfConstant<T>(xs: seq<T>, f: T -> real, c: real)
    requires forall i :: 0 <= i < |xs| ==> f(xs[i]) == c
    ensures SumOf(xs, f) == |xs| as real * c
  {
    if |xs| > 0 {
      assert forall i :: 0 <= i < |xs[1..]| ==> xs[1..][i] == xs[i + 1];
      SumOfConstant(xs[1..], f, c);
    }
  }

  /** A sum of non-negative terms is zero exactly when every term is. */
  lemma {:induction false} SumOfZero<T>(xs: seq<T>, f: T -> real)
    requires forall i :: 0 <= i < |xs| ==> f(xs[i]) >= 0.0
    ensures SumOf(xs, f) == 0.0 <==> forall i :: 0 <= i < |xs| ==> f(xs[i]) == 0.0
  {
    if |xs| > 0 {
      assert forall i :: 0 <= i < |xs[1..]| ==> xs[1..][i] == xs[i + 1];
      SumOfZero(xs[1..], f);
      if forall i :: 0 <= i < |xs[1..]| ==> f(xs[1..][i]) == 0.0 {
        if f(xs[0]) == 0.0 {
          forall i | 0 <= i < |xs| ensures f(xs[i]) == 0.0 {
            if i > 0 {
              assert xs[i] == xs[1..][i - 1];
            }
          }
        }
      }
    }
  }

  /** The mean of equal values is their common value. */
  lemma MeanOfEqual(values: seq<Num>)
    requires |values| > 0 && AllPositive(values) && AllEqual(values)
    ensures Mean(values) == Val(values[0])
  {
    SumOfConstant(values, Val, Val(values[0]));
  }

  /** Positive values score 100 exactly when they are all equal. */
  lemma ScoreEqualityFullIffEqual(values: seq<Num>, tolerance: real)
    requires tolerance > 0.0 && AllPositive(values) && |values| > 0
    ensures ScoreEquality(values, tolerance) == 100.0 <==> AllEqual(values)
  {
    var avg := Mean(values);
    var worst := WorstDev(values, avg);
    assert ScoreEquality(values, tolerance) == Falloff(worst, tolerance);
    if AllEqual(values) {
      MeanOfEqual(values);
      var i :| 0 <= i < |values| && worst == RelDev(values[i], avg);
      assert values[i] == values[0];
    }
    if worst <= 0.0 {
      AllAtMean(values, avg, worst);
    }
  }

  /** Values none of which deviates from the mean are all equal. */
  lemma AllAtMean(values: seq<Num>, avg: real, worst: real)
    requires |values| > 0 && avg > 0.0 && AllPositive(values)
    requires worst == WorstDev(values, avg) && worst <= 0.0
    ensures AllEqual(values)
  {
    forall i, j | 0 <= i < |values| && 0 <= j < |values|
      ensures values[i] == values[j]
    {
      assert RelDev(values[i], avg) <= worst && RelDev(values[j], avg) <= worst;
      assert Val(values[i]) == avg == Val(values[j]);
      assert IsPositive(values[i]) && IsPositive(values[j]);
    }
  }

  /** Equal positive values score 100 whatever the tolerance. */
  lemma ScoreEqualityOfEqualValues(v: real, n: nat, tolerance: real)
    requires v > 0.0 && n > 0 && tolerance > 0.0
    ensures ScoreEquality(seq(n, _ => Finite(v)), tolerance) == 100.0
  {
    var values := seq(n, _ => Finite(v));
    ScoreEqualityFullIffEqual(values, tolerance);
  }

  /** `SumOf(s)` is one term plus the sum of the others. */
  lemma {:induction false} SumOfRemove<T>(s: seq<T>, j: int, f: T -> real)
    requires 0 <= j < |s|
    ensures SumOf(s, f) == f(s[j]) + SumOf(s[..j] + s[j + 1..], f)
    decreases j
  {
    if j == 0 {
      assert s[..0] + s[1..] == s[1..];
    } else {
      SumOfRemove(s[1..], j - 1, f);
      var rest := s[..j] + s[j + 1..];
      assert rest[0] == s[0];
      assert rest[1..] == s[1..][..j - 1] + s[1..][j..];
    }
  }

  /** Adding up is order-independent. */
  lemma {:induction false} SumOfPermutation<T>(a: seq<T>, b: seq<T>, f: T -> real)
    requires multiset(a) == multiset(b)
    ensures SumOf(a, f) == SumOf(b, f)
    decreases |a|
  {
    if |a| == 0 {
      assert |multiset(b)| == 0;
    } else {
      var x := a[0];
      assert x in multiset(b);
      var j :| 0 <= j < |b| && b[j] == x;
      var b' := b[..j] + b[j + 1..];
      SumOfRemove(b, j, f);
      assert b == b[..j] + [x] + b[j + 1..];
      assert multiset(b') == multiset(b) - multiset{x};
      assert a == [x] + a[1..];
      assert multiset(a[1..]) == multiset(a) - multiset{x};
      SumOfPermutation(a[1..], b', f);
    }
  }

  /** The worst deviation only depends on which values occur. */
  lemma WorstDevBounded(a: seq<Num>, b: seq<Num>, avg: real)
    requires |a| > 0 && |b| > 0 && avg > 0.0
    requires forall i :: 0 <= i < |a| ==> a[i] in b
    ensures WorstDev(a, avg) <= WorstDev(b, avg)
  {
    var i :| 0 <= i < |a| && WorstDev(a, avg) == RelDev(a[i], avg);
    var j :| 0 <= j < |b| && b[j] == a[i];
  }

  /** Two lists with the same elements agree on whether all are positive. */
  lemma AllPositivePermutation(a: seq<Num>, b: seq<Num>)
    requires multiset(a) == multiset(b)
    ensures AllPositive(a) <==> AllPositive(b)
  {
    if AllPositive(a) {
      forall i | 0 <= i < |b| ensures IsPositive(b[i]) {
        assert b[i] in multiset(a);
      }
    }
    if AllPositive(b) {
      forall i | 0 <= i < |a| ensures IsPositive(a[i]) {
        assert a[i] in multiset(b);
      }
    }
  }

  /** `scoreEquality` does not depend on the order of its values. */
  lemma ScoreEqualityPermutation(a: seq<Num>, b: seq<Num>, tolerance: real)
    requires tolerance > 0.0 && multiset(a) == multiset(b)
    ensures ScoreEquality(a, tolerance) == ScoreEquality(b, tolerance)
  {
    assert |a| == |multiset(a)| == |b|;
    AllPositivePermutation(a, b);
    if AllPositive(a) && |a| > 0 {
      SumOfPermutation(a, b, Val);
      var avg := Mean(a);
      assert avg == Mean(b);
      assert forall i :: 0 <= i < |a| ==> a[i] in multiset(b);
      assert forall i :: 0 <= i < |b| ==> b[i] in multiset(a);
      WorstDevBounded(a, b, avg);
      WorstDevBounded(b, a, avg);
    }
  }
}
