/** The pandas Series operations the analytics core is built from, over exact
    reals. A pandas NaN is `None`; a series is a `seq<Option<real>>` when it
    may hold NaN and a `seq<real>` when it cannot. */
module Series {

  datatype Option<T> = None | Some(value: T)

  /** All entries of a price series are strictly positive (the request model
      validates `close > 0`). */
  predicate Positive(P: seq<real>) {
    forall i :: 0 <= i < |P| ==> P[i] > 0.0
  }

  predicate Constant(P: seq<real>, c: real) {
    forall i :: 0 <= i < |P| ==> P[i] == c
  }

  // ---------------------------------------------------------------- sums

  /** Sum of a sequence, folded from its last element. */
  function Sum(s: seq<real>): real
  {
    if |s| == 0 then 0.0 else Sum(s[..|s| - 1]) + s[|s| - 1]
  }

  lemma {:induction false} SumConcat(a: seq<real>, b: seq<real>)
    ensures Sum(a + b) == Sum(a) + Sum(b)
  {
    if |b| == 0 {
      assert a + b == a;
    } else {
      assert (a + b)[..|a + b| - 1] == a + b[..|b| - 1];
      SumConcat(a, b[..|b| - 1]);
    }
  }

  /** Entries between `lo` and `hi` put the sum between `n·lo` and `n·hi`. */
  lemma {:induction false} SumBounds(s: seq<real>, lo: real, hi: real)
    requires forall i :: 0 <= i < |s| ==> lo <= s[i] <= hi
    ensures (|s| as real) * lo <= Sum(s) <= (|s| as real) * hi
  {
    if |s| > 0 {
      SumBounds(s[..|s| - 1], lo, hi);
    }
  }

  lemma {:induction false} SumNonnegative(s: seq<real>)
    requires forall i :: 0 <= i < |s| ==> s[i] >= 0.0
    ensures Sum(s) >= 0.0
  {
    if |s| > 0 {
      SumNonnegative(s[..|s| - 1]);
    }
  }

  /** A sum of non-negative terms is zero only when every term is zero. */
  lemma {:induction false} SumZeroAllZero(s: seq<real>)
    requires forall i :: 0 <= i < |s| ==> s[i] >= 0.0
    requires Sum(s) == 0.0
    ensures forall i :: 0 <= i < |s| ==> s[i] == 0.0
  {
    if |s| > 0 {
      SumNonnegative(s[..|s| - 1]);
      SumZeroAllZero(s[..|s| - 1]);
      forall i | 0 <= i < |s| ensures s[i] == 0.0 {
        if i < |s| - 1 {
          assert s[..|s| - 1][i] == s[i];
        }
      }
    }
  }

  // --------------------------------------------------------------- means

  /** `Series.mean()` of values with no NaN: NaN (None) on an empty series. */
  function Mean(s: seq<real>): (m: Option<real>)
    ensures m.Some? <==> |s| > 0
    ensures m.Some? ==> m.value * (|s| as real) == Sum(s)
  {
    if |s| == 0 then None else Some(Sum(s) / (|s| as real))
  }

  lemma MeanWithin(s: seq<real>, lo: real, hi: real)
    requires |s| > 0
    requires forall i :: 0 <= i < |s| ==> lo <= s[i] <= hi
    ensures lo <= Mean(s).value <= hi
  {
    SumBounds(s, lo, hi);
    var n := |s| as real;
    var m := Mean(s).value;
    assert m * n == Sum(s);
    assert (m - lo) * n >= 0.0;
    assert (hi - m) * n >= 0.0;
  }

  lemma MeanOfConstant(s: seq<real>, c: real)
    requires |s| > 0 && Constant(s, c)
    ensures Mean(s) == Some(c)
  {
    MeanWithin(s, c, c);
  }

  // ------------------------------------------------------------ variance

  /** The identity on reals. `Square` multiplies `x` by `Copy(x)` rather
      than by `x` itself: the solver then reasons about the product like any
      other product of two terms. */
  function Copy(x: real): real { x }

  function Square(x: real): real { x * Copy(x) }

  lemma ProductNonnegative(x: real, y: real)
    requires x >= 0.0 && y >= 0.0
    ensures x * y >= 0.0
  {
  }

  lemma SquareNonnegative(x: real)
    ensures Square(x) >= 0.0
    ensures Square(x) == 0.0 <==> x == 0.0
  {
  }

  function SquaredDeviations(s: seq<real>, m: real): (d: seq<real>)
    ensures |d| == |s|
    ensures forall i :: 0 <= i < |d| ==> d[i] >= 0.0
    ensures forall i :: 0 <= i < |d| ==> (d[i] == 0.0 <==> s[i] == m)
  {
    var d := seq(|s|, i requires 0 <= i < |s| => Square(s[i] - m));
    assert forall i :: 0 <= i < |d| ==> d[i] >= 0.0 && (d[i] == 0.0 <==> s[i] == m) by {
      forall i | 0 <= i < |d| ensures d[i] >= 0.0 && (d[i] == 0.0 <==> s[i] == m) {
        SquareNonnegative(s[i] - m);
      }
    }
    d
  }

  /** `Series.std()`'s variance: the sample variance (divisor n-1, pandas'
      default ddof=1), which is NaN (None) for fewer than two values. */
  function SampleVariance(s: seq<real>): (v: Option<real>)
    ensures v.Some? <==> |s| >= 2
    ensures v.Some? ==> v.value >= 0.0
  {
    if |s| < 2 then None
    else
      var d := SquaredDeviations(s, Sum(s) / (|s| as real));
      SumNonnegative(d);
      Some(Sum(d) / ((|s| - 1) as real))
  }

  /** A constant sample has variance zero. */
  lemma VarianceOfConstant(s: seq<real>, c: real)
    requires |s| >= 2 && Constant(s, c)
    ensures SampleVariance(s) == Some(0.0)
  {
    MeanOfConstant(s, c);
    var d := SquaredDeviations(s, Sum(s) / (|s| as real));
    SumBounds(d, 0.0, 0.0);
  }

  /** A sample with variance zero is constant. */
  lemma VarianceZeroConstant(s: seq<real>)
    requires SampleVariance(s) == Some(0.0)
    ensures Constant(s, s[0])
  {
    var m := Sum(s) / (|s| as real);
    var d := SquaredDeviations(s, m);
    assert Sum(d) / ((|s| - 1) as real) == 0.0;
    SumZeroAllZero(d);
  }

  /** The sample variance vanishes exactly on a constant sample. */
  lemma VarianceZeroIffConstant(s: seq<real>)
    requires |s| >= 2
    ensures SampleVariance(s) == Some(0.0) <==> Constant(s, s[0])
  {
    if Constant(s, s[0]) {
      VarianceOfConstant(s, s[0]);
    }
    if SampleVariance(s) == Some(0.0) {
      VarianceZeroConstant(s);
    }
  }

  // ---------------------------------------------------------- square root

  /** What `np.sqrt` promises on the non-negative reals. The square root is a
      parameter of the model; the lemmas that need its meaning require this. */
  ghost predicate IsSquareRoot(sqrt: real -> real) {
    forall x :: x >= 0.0 ==> sqrt(x) >= 0.0 && Square(sqrt(x)) == x
  }

  lemma SquareRootZero(sqrt: real -> real, x: real)
    requires IsSquareRoot(sqrt) && x >= 0.0
    ensures sqrt(x) == 0.0 <==> x == 0.0
  {
    SquareNonnegative(sqrt(x));
  }

  lemma SquareRootPositive(sqrt: real -> real, x: real)
    requires IsSquareRoot(sqrt) && x > 0.0
    ensures sqrt(x) > 0.0
  {
    SquareRootZero(sqrt, x);
  }

  // ------------------------------------------------------ rolling windows

  /** pandas `rolling(window=period)` with its default `min_periods=period`:
      the window ending at `i` holds `period` observations and is not empty. */
  predicate WindowFull(i: int, period: nat) {
    0 < period <= i + 1
  }

  function Window(P: seq<real>, i: int, period: nat): (w: seq<real>)
    requires 0 <= i < |P| && period <= i + 1
    ensures |w| == period
  {
    P[i + 1 - period .. i + 1]
  }

  /** `rolling(window=period).mean()`. */
  function RollingMean(P: seq<real>, period: nat): (r: seq<Option<real>>)
    ensures |r| == |P|
    ensures forall i :: 0 <= i < |P| ==> (r[i].Some? <==> 0 < period <= i + 1)
    ensures forall i :: 0 <= i < |P| && r[i].Some? ==>
      r[i].value * (period as real) == Sum(P[i + 1 - period .. i + 1])
  {
    seq(|P|, i requires 0 <= i < |P| =>
      if WindowFull(i, period) then Mean(Window(P, i, period)) else None)
  }

  /** `rolling(window=period).std()`: the square root of the window's sample
      variance, NaN where the window is not full or holds a single value. */
  function RollingStd(P: seq<real>, period: nat, sqrt: real -> real): (r: seq<Option<real>>)
    ensures |r| == |P|
    ensures forall i :: 0 <= i < |P| ==> (r[i].Some? <==> 1 < period <= i + 1)
  {
    var r := seq(|P|, i requires 0 <= i < |P| =>
      if WindowFull(i, period) && SampleVariance(Window(P, i, period)).Some?
      then Some(sqrt(SampleVariance(Window(P, i, period)).value))
      else None);
    assert forall i :: 0 <= i < |P| ==> (r[i].Some? <==> 1 < period <= i + 1) by {
      forall i | 0 <= i < |P| ensures r[i].Some? <==> 1 < period <= i + 1 {
        if WindowFull(i, period) {
          var w := Window(P, i, period);
          assert |w| == period;
          assert SampleVariance(w).Some? <==> period >= 2;
          assert r[i] == if SampleVariance(w).Some? then Some(sqrt(SampleVariance(w).value)) else None;
        } else {
          assert r[i] == None;
        }
      }
    }
    r
  }

  // ---------------------------------------------- element-wise arithmetic

  /** Series addition; NaN on either side gives NaN. */
  function Plus(a: seq<Option<real>>, b: seq<Option<real>>): (r: seq<Option<real>>)
    requires |a| == |b|
    ensures |r| == |a|
  {
    seq(|a|, i requires 0 <= i < |a| =>
      if a[i].Some? && b[i].Some? then Some(a[i].value + b[i].value) else None)
  }

  /** Series subtraction; NaN on either side gives NaN. */
  function Minus(a: seq<Option<real>>, b: seq<Option<real>>): (r: seq<Option<real>>)
    requires |a| == |b|
    ensures |r| == |a|
  {
    seq(|a|, i requires 0 <= i < |a| =>
      if a[i].Some? && b[i].Some? then Some(a[i].value - b[i].value) else None)
  }

  /** Multiplication of a series by a scalar. */
  function Scale(a: seq<Option<real>>, k: real): (r: seq<Option<real>>)
    ensures |r| == |a|
  {
    seq(|a|, i requires 0 <= i < |a| =>
      if a[i].Some? then Some(a[i].value * k) else None)
  }

  /** Subtraction of two NaN-free series. */
  function Difference(a: seq<real>, b: seq<real>): (r: seq<real>)
    requires |a| == |b|
    ensures |r| == |a|
  {
    seq(|a|, i requires 0 <= i < |a| => a[i] - b[i])
  }

  // ------------------------------------------------------ missing values

  /** A NaN-free series seen as a series that could hold NaN. */
  function Lift(xs: seq<real>): (r: seq<Option<real>>)
    ensures |r| == |xs|
  {
    seq(|xs|, i requires 0 <= i < |xs| => Some(xs[i]))
  }

  /** `fillna(0)`: every NaN becomes 0, every defined value is kept. */
  function FillNa(xs: seq<Option<real>>): (r: seq<real>)
    ensures |r| == |xs|
    ensures forall i :: 0 <= i < |xs| && xs[i].Some? ==> r[i] == xs[i].value
    ensures forall i :: 0 <= i < |xs| && xs[i].None? ==> r[i] == 0.0
  {
    seq(|xs|, i requires 0 <= i < |xs| => if xs[i].Some? then xs[i].value else 0.0)
  }

  /** On a series without NaN, `fillna(0)` changes nothing. */
  lemma FillNaOfDefined(xs: seq<real>)
    ensures FillNa(Lift(xs)) == xs
  {
  }

  /** The defined values of a series, in order: what `mean()`, `std()` and
      `min()` look at with their default `skipna=True`. */
  function Dropna(xs: seq<Option<real>>): (r: seq<real>)
    ensures |r| <= |xs|
  {
    if |xs| == 0 then []
    else (if xs[0].Some? then [xs[0].value] else []) + Dropna(xs[1..])
  }

  lemma {:induction false} DropnaOfLift(xs: seq<real>)
    ensures Dropna(Lift(xs)) == xs
  {
    if |xs| > 0 {
      assert Lift(xs)[1..] == Lift(xs[1..]);
      DropnaOfLift(xs[1..]);
    }
  }

  /** A leading NaN is dropped. */
  lemma DropnaSkipsNone(xs: seq<Option<real>>)
    ensures Dropna([None] + xs) == Dropna(xs)
  {
    assert ([None] + xs)[1..] == xs;
  }

  /** A prefix of a series that is NaN first and defined afterwards keeps
      the defined values of that prefix. */
  lemma DropnaAfterLeadingNone(xs: seq<real>, k: int)
    requires 0 <= k <= |xs|
    ensures Dropna(([None] + Lift(xs))[..k + 1]) == xs[..k]
  {
    var p := ([None] + Lift(xs))[..k + 1];
    assert p[1..] == Lift(xs[..k]);
    DropnaOfLift(xs[..k]);
  }

  /** Every value Dropna keeps comes from a defined entry. */
  lemma {:induction false} DropnaFrom(xs: seq<Option<real>>, j: int)
    requires 0 <= j < |Dropna(xs)|
    ensures exists i :: 0 <= i < |xs| && xs[i] == Some(Dropna(xs)[j])
  {
    if xs[0].Some? && j == 0 {
      assert xs[0] == Some(Dropna(xs)[0]);
    } else {
      var k := if xs[0].Some? then j - 1 else j;
      assert Dropna(xs)[j] == Dropna(xs[1..])[k];
      DropnaFrom(xs[1..], k);
      var i :| 0 <= i < |xs[1..]| && xs[1..][i] == Some(Dropna(xs[1..])[k]);
      assert xs[i + 1] == Some(Dropna(xs)[j]);
    }
  }

  /** Every defined entry is among the values Dropna keeps. */
  lemma {:induction false} DropnaKeeps(xs: seq<Option<real>>, i: int)
    requires 0 <= i < |xs| && xs[i].Some?
    ensures exists j :: 0 <= j < |Dropna(xs)| && Dropna(xs)[j] == xs[i].value
  {
    if i == 0 {
      assert Dropna(xs)[0] == xs[0].value;
    } else {
      DropnaKeeps(xs[1..], i - 1);
      var j :| 0 <= j < |Dropna(xs[1..])| && Dropna(xs[1..])[j] == xs[1..][i - 1].value;
      var off := if xs[0].Some? then 1 else 0;
      assert Dropna(xs)[j + off] == Dropna(xs[1..])[j];
    }
  }

  // ------------------------------------------------------ minimum, maximum

  function Min(a: real, b: real): real { if a <= b then a else b }
  function Max(a: real, b: real): real { if a >= b then a else b }

  /** `Series.min()` of NaN-free values: None on an empty series. */
  function MinOf(s: seq<real>): (m: Option<real>)
    ensures m.Some? <==> |s| > 0
    ensures m.Some? ==> forall i :: 0 <= i < |s| ==> m.value <= s[i]
    ensures m.Some? ==> exists i :: 0 <= i < |s| && s[i] == m.value
  {
    if |s| == 0 then None
    else if |s| == 1 then Some(s[0])
    else
      var rest := MinOf(s[..|s| - 1]);
      assert forall i :: 0 <= i < |s| - 1 ==> s[..|s| - 1][i] == s[i];
      Some(Min(rest.value, s[|s| - 1]))
  }

  /** The largest element of a non-empty sequence. */
  function Peak(s: seq<real>): (m: real)
    requires |s| > 0
    ensures forall i :: 0 <= i < |s| ==> s[i] <= m
    ensures exists i :: 0 <= i < |s| && s[i] == m
  {
    if |s| == 1 then s[0]
    else
      assert forall i :: 0 <= i < |s| - 1 ==> s[..|s| - 1][i] == s[i];
      Max(Peak(s[..|s| - 1]), s[|s| - 1])
  }
}
