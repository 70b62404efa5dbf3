/**
 Averages, extremes and squared deviations over reals, as definitions over all the
 values and as accumulated in one pass.
 */
module Moments {

  function SumOf(g: real -> real, xs: seq<real>): real {
    if xs == [] then 0.0 else SumOf(g, xs[..|xs| - 1]) + g(xs[|xs| - 1])
  }

  function Identity(): real -> real { x => x }
  function Sq(x: real): real { x * x }
  function Square(): real -> real { x => Sq(x) }
  function SquareFrom(a: real): real -> real { x => Sq(x - a) }

  function Sum(xs: seq<real>): real { SumOf(Identity(), xs) }
  function SumSquares(xs: seq<real>): real { SumOf(Square(), xs) }

  function Least(xs: seq<real>): real
    requires xs != []
  {
    var last := xs[|xs| - 1];
    if |xs| == 1 then last
    else var m := Least(xs[..|xs| - 1]); if last < m then last else m
  }

  function Greatest(xs: seq<real>): real
    requires xs != []
  {
    var last := xs[|xs| - 1];
    if |xs| == 1 then last
    else var m := Greatest(xs[..|xs| - 1]); if last > m then last else m
  }

  lemma SumOfOneMore(g: real -> real, xs: seq<real>, x: real)
    ensures SumOf(g, xs + [x]) == SumOf(g, xs) + g(x)
  {
    assert (xs + [x])[..|xs|] == xs;
  }

  lemma ExtremesOfOneMore(xs: seq<real>, x: real)
    ensures Least(xs + [x]) == if xs != [] && Least(xs) <= x then Least(xs) else x
    ensures Greatest(xs + [x]) == if xs != [] && Greatest(xs) >= x then Greatest(xs) else x
  {
    assert (xs + [x])[..|xs|] == xs;
  }

  /** The statistics of a list, as defined: mean, extremes and mean squared deviation. */
  datatype Stat = Stat(avg: real, min: real, max: real, sqrDev: real, count: nat)

  function Mean(xs: seq<real>): real
    requires xs != []
  {
    Sum(xs) / |xs| as real
  }

  function StatOf(xs: seq<real>): Stat
    requires xs != []
  {
    Stat(Mean(xs), Least(xs), Greatest(xs), SumOf(SquareFrom(Mean(xs)), xs) / |xs| as real, |xs|)
  }

  lemma QuotientTimes(x: real, n: real)
    requires n > 0.0
    ensures x / n * n == x
  {
  }

  /** The average and the mean squared deviation, times the number of values. */
  lemma {:induction false} StatTimesCount(xs: seq<real>)
    requires xs != []
    ensures StatOf(xs).avg * |xs| as real == SumOf(Identity(), xs)
    ensures StatOf(xs).sqrDev * |xs| as real == SumOf(SquareFrom(StatOf(xs).avg), xs)
  {
    QuotientTimes(SumOf(Identity(), xs), |xs| as real);
    QuotientTimes(SumOf(SquareFrom(Mean(xs)), xs), |xs| as real);
  }

  // ---------- The one-pass formula ----------

  lemma SquareOfDifference(x: real, a: real)
    ensures (x - a) * (x - a) == x * x - 2.0 * (a * x) + a * a
  {
  }

  lemma Distribute(a: real, x: real, y: real)
    ensures a * (x + y) == a * x + a * y
  {
  }

  /** `f` is a sum of (x - a)^2 whose `n` terms have these sums. */
  predicate Expands(f: real, sq: real, sum: real, n: real, a: real) {
    f == sq - 2.0 * (a * sum) + n * (a * a)
  }

  lemma ExpandOneMore(f: real, sq: real, sum: real, n: real, a: real, x: real)
    requires Expands(f, sq, sum, n, a)
    ensures Expands(f + SquareFrom(a)(x), sq + Square()(x), sum + x, n + 1.0, a)
  {
    SquareOfDifference(x, a);
    Distribute(a, sum, x);
    Distribute(a * a, n, 1.0);
  }

  /** Sum of (x - a)^2 in terms of the two accumulated sums. */
  lemma {:induction false} SquaresExpand(xs: seq<real>, a: real)
    ensures Expands(SumOf(SquareFrom(a), xs), SumSquares(xs), Sum(xs), |xs| as real, a)
  {
    if xs != [] {
      var front, x := xs[..|xs| - 1], xs[|xs| - 1];
      SquaresExpand(front, a);
      ExpandOneMore(SumOf(SquareFrom(a), front), SumSquares(front), Sum(front), |front| as real, a, x);
      assert |xs| as real == |front| as real + 1.0;
    }
  }

  lemma SumIsCountTimesMean(xs: seq<real>)
    requires xs != []
    ensures Sum(xs) == |xs| as real * Mean(xs)
  {
  }

  /** What the accumulated sums give is the mean squared deviation. */
  lemma OnePassVariance(xs: seq<real>)
    requires xs != []
    ensures SumSquares(xs) / |xs| as real - Mean(xs) * Mean(xs) == StatOf(xs).sqrDev
  {
    SquaresExpand(xs, Mean(xs));
    SumIsCountTimesMean(xs);
    DivideExpansion(SumSquares(xs), |xs| as real, Mean(xs));
  }

  lemma DivideExpansion(sq: real, n: real, a: real)
    requires n > 0.0
    ensures (sq - 2.0 * (a * (n * a)) + n * (a * a)) / n == sq / n - a * a
  {
    assert a * (n * a) == n * (a * a);
    var r := sq / n;
    assert sq == n * r;
    Distribute(n, r, - (a * a));
    assert sq - n * (a * a) == n * (r - a * a);
  }

  // ---------- Bounds ----------

  lemma {:induction false} Extremes(xs: seq<real>)
    requires xs != []
    ensures Least(xs) in xs && Greatest(xs) in xs
    ensures Between(xs, Least(xs), Greatest(xs))
  {
    if |xs| > 1 {
      var front := xs[..|xs| - 1];
      Extremes(front);
      assert forall i :: 0 <= i < |front| ==> xs[i] == front[i];
      assert xs == front + [xs[|xs| - 1]];
    }
  }

  predicate Between(xs: seq<real>, low: real, high: real) {
    forall i :: 0 <= i < |xs| ==> low <= xs[i] <= high
  }

  lemma {:induction false} SumBetween(xs: seq<real>, low: real, high: real)
    requires Between(xs, low, high)
    ensures |xs| as real * low <= Sum(xs) <= |xs| as real * high
  {
    if xs != [] {
      var front := xs[..|xs| - 1];
      SumBetween(front, low, high);
      Distribute(low, |front| as real, 1.0);
      Distribute(high, |front| as real, 1.0);
    }
  }

  lemma ProductNonNegative(x: real, y: real)
    requires x >= 0.0 && y >= 0.0
    ensures x * y >= 0.0
  {
  }

  lemma ChordAbove(x: real, low: real, high: real)
    requires low <= x <= high
    ensures x * x <= (low + high) * x - low * high
  {
    ProductNonNegative(high - x, x - low);
    assert (high - x) * (x - low) == (low + high) * x - low * high - x * x;
  }

  /** A square lies below the chord between the extremes. */
  lemma {:induction false} SquaresBetween(xs: seq<real>, low: real, high: real)
    requires Between(xs, low, high)
    ensures SumSquares(xs) <= (low + high) * Sum(xs) - |xs| as real * (low * high)
  {
    if xs != [] {
      var front, x := xs[..|xs| - 1], xs[|xs| - 1];
      SquaresBetween(front, low, high);
      ChordAbove(x, low, high);
      Distribute(low + high, Sum(front), x);
      Distribute(low * high, |front| as real, 1.0);
    }
  }

  lemma SquareNonNegative(y: real)
    ensures Sq(y) >= 0.0
  {
    if y < 0.0 {
      ProductNonNegative(-y, -y);
    }
  }

  lemma {:induction false} SquaresNonNegative(xs: seq<real>, a: real)
    ensures SumOf(SquareFrom(a), xs) >= 0.0
  {
    if xs != [] {
      SquaresNonNegative(xs[..|xs| - 1], a);
      SquareNonNegative(xs[|xs| - 1] - a);
    }
  }

  lemma MeanBounds(xs: seq<real>, low: real, high: real)
    requires xs != [] && Between(xs, low, high)
    ensures low <= Mean(xs) <= high
  {
    SumBetween(xs, low, high);
    SumIsCountTimesMean(xs);
    Scale(|xs| as real, low, Mean(xs));
    Scale(|xs| as real, Mean(xs), high);
  }

  lemma DeviationNonNegative(xs: seq<real>)
    requires xs != []
    ensures StatOf(xs).sqrDev >= 0.0
  {
    SquaresNonNegative(xs, Mean(xs));
  }

  lemma DeviationBounds(xs: seq<real>, low: real, high: real)
    requires xs != [] && Between(xs, low, high)
    ensures 0.0 <= StatOf(xs).sqrDev <= (high - Mean(xs)) * (Mean(xs) - low)
  {
    DeviationNonNegative(xs);
    SquaresBetween(xs, low, high);
    OnePassVariance(xs);
    SumIsCountTimesMean(xs);
    VarianceBound(SumSquares(xs), Sum(xs), |xs| as real, Mean(xs), low, high);
  }

  /** min <= avg <= max, and the variance lies between 0 and (max - avg) * (avg - min). */
  lemma StatBounds(xs: seq<real>)
    requires xs != []
    ensures var s := StatOf(xs);
      && s.min <= s.avg <= s.max
      && 0.0 <= s.sqrDev <= (s.max - s.avg) * (s.avg - s.min)
  {
    Extremes(xs);
    MeanBounds(xs, Least(xs), Greatest(xs));
    DeviationBounds(xs, Least(xs), Greatest(xs));
  }

  lemma {:induction false} EachSquareWithin(xs: seq<real>, a: real, i: nat)
    requires i < |xs|
    ensures SquareFrom(a)(xs[i]) <= SumOf(SquareFrom(a), xs)
  {
    SquareNonNegative(xs[|xs| - 1] - a);
    SquaresNonNegative(xs[..|xs| - 1], a);
    if i < |xs| - 1 {
      EachSquareWithin(xs[..|xs| - 1], a, i);
    }
  }

  lemma SquarePositive(y: real)
    requires y != 0.0
    ensures Sq(y) > 0.0
  {
    SquareNonNegative(y);
    var inverse := 1.0 / y;
    assert y * inverse == 1.0;
    assert y * y * (inverse * inverse) == (y * inverse) * (y * inverse);
  }

  lemma SquareZeroOnly(x: real, a: real)
    requires SquareFrom(a)(x) <= 0.0
    ensures x == a
  {
    if x != a {
      SquarePositive(x - a);
    }
  }

  /** There is no deviation exactly when all the values are equal. */
  lemma NoDeviationIffAllEqual(xs: seq<real>)
    requires xs != []
    ensures StatOf(xs).sqrDev == 0.0 <==> forall i :: 0 <= i < |xs| ==> xs[i] == Mean(xs)
  {
    var a, sum := Mean(xs), SumOf(SquareFrom(Mean(xs)), xs);
    if StatOf(xs).sqrDev == 0.0 {
      assert sum == 0.0;
      forall i | 0 <= i < |xs| ensures xs[i] == a {
        EachSquareWithin(xs, a, i);
        SquareZeroOnly(xs[i], a);
      }
    } else if forall i :: 0 <= i < |xs| ==> xs[i] == Mean(xs) {
      assert Between(xs, a, a);
      DeviationBounds(xs, a, a);
      assert false;
    }
  }

  lemma Scale(n: real, a: real, b: real)
    requires n > 0.0 && n * a <= n * b
    ensures a <= b
  {
  }

  lemma VarianceBound(sq: real, sum: real, n: real, a: real, low: real, high: real)
    requires n > 0.0 && sum == n * a && sq <= (low + high) * sum - n * (low * high)
    ensures sq / n - a * a <= (high - a) * (a - low)
  {
    var r := sq / n;
    assert sq == n * r;
    assert (low + high) * (n * a) == n * ((low + high) * a);
    Distribute(n, (low + high) * a, - (low * high));
    Scale(n, r, (low + high) * a - low * high);
    assert (high - a) * (a - low) == (low + high) * a - low * high - a * a;
  }

  // ---------- The order of the values does not matter ----------

  lemma {:induction false} SumOfJoin(g: real -> real, xs: seq<real>, ys: seq<real>)
    ensures SumOf(g, xs + ys) == SumOf(g, xs) + SumOf(g, ys)
  {
    if ys == [] {
      assert xs + ys == xs;
    } else {
      assert (xs + ys)[..|xs + ys| - 1] == xs + ys[..|ys| - 1];
      SumOfJoin(g, xs, ys[..|ys| - 1]);
    }
  }

  lemma {:induction false} SumOfReordered(g: real -> real, xs: seq<real>, ys: seq<real>)
    requires multiset(xs) == multiset(ys)
    ensures SumOf(g, xs) == SumOf(g, ys)
  {
    if xs == [] {
      assert |multiset(ys)| == 0;
    } else {
      var front, last := xs[..|xs| - 1], xs[|xs| - 1];
      var a, b := TakeLastOut(xs, ys);
      SumOfReordered(g, front, a + b);
      SumOfJoin(g, a, b);
      SumOfJoin(g, a + [last], b);
      SumOfJoin(g, a, [last]);
    }
  }

  /** `x` is somewhere in `ys`. */
  lemma SplitAt<T>(ys: seq<T>, x: T) returns (a: seq<T>, b: seq<T>)
    requires x in multiset(ys)
    ensures ys == a + [x] + b
  {
    var i :| 0 <= i < |ys| && ys[i] == x;
    a, b := ys[..i], ys[i + 1..];
  }

  /** The last element of `xs` stands somewhere in its reordering `ys`. */
  lemma TakeLastOut<T>(xs: seq<T>, ys: seq<T>) returns (a: seq<T>, b: seq<T>)
    requires xs != [] && multiset(xs) == multiset(ys)
    ensures ys == a + [xs[|xs| - 1]] + b && multiset(xs[..|xs| - 1]) == multiset(a + b)
  {
    var front, last := xs[..|xs| - 1], xs[|xs| - 1];
    assert xs == front + [last];
    a, b := SplitAt(ys, last);
    assert multiset(ys) == multiset(a) + multiset{last} + multiset(b);
    assert multiset(front) == multiset(xs) - multiset{last};
    assert multiset(a + b) == multiset(ys) - multiset{last};
  }

  lemma StatReordered(xs: seq<real>, ys: seq<real>)
    requires xs != [] && multiset(xs) == multiset(ys)
    ensures ys != [] && StatOf(xs) == StatOf(ys)
  {
    assert |multiset(xs)| == |multiset(ys)|;
    SumOfReordered(Identity(), xs, ys);
    SumOfReordered(SquareFrom(Mean(xs)), xs, ys);
    Extremes(xs);
    Extremes(ys);
    assert forall x :: x in xs <==> x in multiset(xs);
    assert forall x :: x in ys <==> x in multiset(ys);
  }
}
