/** The statistics engine (`StatisticalAnalysis`): returns, volatility, the
    Sharpe ratio, maximum drawdown, total return and correlation. */
module Statistics {
  import opened Series

  /** Trading days per year, the annualisation factor used throughout. */
  const TradingDays: real := 252.0

  // ------------------------------------------------------------- returns

  /** `calculate_returns`: `prices.pct_change()`, NaN first and then each
      price's change relative to the one before. */
  function PctChange(P: seq<real>): (r: seq<Option<real>>)
    requires Positive(P)
    ensures |r| == |P|
  {
    seq(|P|, i requires 0 <= i < |P| => if i == 0 then None else Some(P[i] / P[i - 1] - 1.0))
  }

  /** The `n - 1` step returns with the leading NaN left off. A positive
      price series never loses everything in one step. */
  function StepReturns(P: seq<real>): (r: seq<real>)
    requires Positive(P) && |P| > 0
    ensures |r| == |P| - 1
    ensures forall j :: 0 <= j < |r| ==> r[j] > -1.0
  {
    seq(|P| - 1, j requires 0 <= j < |P| - 1 => P[j + 1] / P[j] - 1.0)
  }

  /** The defined returns are exactly the step returns, in order. */
  lemma ReturnsDropFirst(P: seq<real>)
    requires Positive(P) && |P| > 0
    ensures PctChange(P) == [None] + Lift(StepReturns(P))
    ensures Dropna(PctChange(P)) == StepReturns(P)
  {
    var xs := PctChange(P);
    assert xs == [None] + Lift(StepReturns(P));
    assert xs[1..] == Lift(StepReturns(P));
    DropnaOfLift(StepReturns(P));
  }

  // ------------------------------------------------ volatility and Sharpe

  /** The annualised mean return, `returns.mean() * 252`, NaN when no return
      is defined. */
  function MeanReturn(R: seq<Option<real>>): (m: Option<real>)
    ensures m.Some? <==> |Dropna(R)| > 0
    ensures m.Some? ==> m.value * (|Dropna(R)| as real) == TradingDays * Sum(Dropna(R))
  {
    match Mean(Dropna(R))
    case None => None
    case Some(mu) => Some(mu * TradingDays)
  }

  /** Over a price series the annualised mean return is 252 times the mean
      of the `n - 1` step returns. */
  lemma MeanReturnOfPrices(P: seq<real>)
    requires Positive(P) && |P| >= 2
    ensures MeanReturn(PctChange(P)) == Some(Mean(StepReturns(P)).value * TradingDays)
    ensures MeanReturn(PctChange(P)).value * ((|P| - 1) as real) == TradingDays * Sum(StepReturns(P))
  {
    var r := StepReturns(P);
    ReturnsDropFirst(P);
    assert Dropna(PctChange(P)) == r;
    assert MeanReturn(PctChange(P)) == Some(Mean(r).value * TradingDays);
  }

  /** `calculate_volatility`: the sample standard deviation of the defined
      returns, times `sqrt(252)` when annualising; NaN for fewer than two
      returns. */
  function Volatility(R: seq<Option<real>>, annualize: bool, sqrt: real -> real): (v: Option<real>)
    ensures v.Some? <==> |Dropna(R)| >= 2
  {
    match SampleVariance(Dropna(R))
    case None => None
    case Some(variance) =>
      var sd := sqrt(variance);
      Some(if annualize then sd * sqrt(TradingDays) else sd)
  }

  lemma SquareOfProduct(a: real, b: real)
    ensures Square(a * b) == Square(a) * Square(b)
  {
  }

  /** The annualised standard deviation: a non-negative number whose square
      is 252 times the variance, zero exactly when the deviation is. */
  lemma Annualised(sqrt: real -> real, variance: real)
    requires IsSquareRoot(sqrt) && variance >= 0.0
    ensures sqrt(variance) * sqrt(TradingDays) >= 0.0
    ensures Square(sqrt(variance) * sqrt(TradingDays)) == TradingDays * variance
    ensures sqrt(variance) * sqrt(TradingDays) == 0.0 <==> variance == 0.0
  {
    var sd, q := sqrt(variance), sqrt(TradingDays);
    assert Square(sd) == variance && Square(q) == TradingDays;
    SquareRootZero(sqrt, variance);
    SquareRootPositive(sqrt, TradingDays);
    SquareOfProduct(sd, q);
    ProductNonnegative(sd, q);
  }

  /** The volatility is a non-negative number whose square is the sample
      variance (times 252 when annualising), and it is zero exactly when
      every return is the same. */
  lemma VolatilityMeaning(R: seq<Option<real>>, annualize: bool, sqrt: real -> real)
    requires IsSquareRoot(sqrt)
    requires |Dropna(R)| >= 2
    ensures var v := Volatility(R, annualize, sqrt).value;
      var variance := SampleVariance(Dropna(R)).value;
      && v >= 0.0
      && Square(v) == (if annualize then TradingDays * variance else variance)
      && (v == 0.0 <==> Constant(Dropna(R), Dropna(R)[0]))
  {
    var r := Dropna(R);
    var variance := SampleVariance(r).value;
    assert Volatility(R, annualize, sqrt).value
      == if annualize then sqrt(variance) * sqrt(TradingDays) else sqrt(variance);
    VarianceZeroIffConstant(r);
    if annualize {
      Annualised(sqrt, variance);
    } else {
      SquareRootZero(sqrt, variance);
    }
  }

  /** `calculate_sharpe_ratio`: annualised excess return over annualised
      volatility, 0 when the volatility is exactly 0, NaN when it is NaN. */
  function Sharpe(R: seq<Option<real>>, riskFree: real, sqrt: real -> real): (s: Option<real>)
    ensures s.Some? <==> |Dropna(R)| >= 2
    ensures Volatility(R, true, sqrt) == Some(0.0) ==> s == Some(0.0)
    ensures s.Some? && Volatility(R, true, sqrt) != Some(0.0) ==>
      s.value * Volatility(R, true, sqrt).value == MeanReturn(R).value - riskFree
  {
    var volatility := Volatility(R, true, sqrt);
    if volatility.None? then None
    else if volatility.value == 0.0 then Some(0.0)
    else Some((MeanReturn(R).value - riskFree) / volatility.value)
  }

  /** How a reported Sharpe ratio relates to the reported mean return and
      volatility: 0 for a zero volatility, and otherwise the ratio times the
      volatility is the excess of the mean return over `riskFree`. */
  predicate SharpeAgrees(mean: Option<real>, vol: Option<real>, sharpe: Option<real>, riskFree: real) {
    && (vol == Some(0.0) ==> sharpe == Some(0.0))
    && (vol.Some? && vol != Some(0.0) ==>
          sharpe.Some? && mean.Some? && sharpe.value * vol.value == mean.value - riskFree)
  }

  lemma SharpeAgreesWithInputs(R: seq<Option<real>>, riskFree: real, sqrt: real -> real)
    ensures SharpeAgrees(MeanReturn(R), Volatility(R, true, sqrt), Sharpe(R, riskFree, sqrt), riskFree)
  {
  }

  /** Steady returns have zero volatility, so the ratio is 0 however far the
      mean return is from the risk-free rate. */
  lemma SharpeOfSteadyReturns(R: seq<Option<real>>, riskFree: real, sqrt: real -> real, c: real)
    requires IsSquareRoot(sqrt)
    requires |Dropna(R)| >= 2 && Constant(Dropna(R), c)
    ensures Sharpe(R, riskFree, sqrt) == Some(0.0)
  {
    VolatilityMeaning(R, true, sqrt);
  }

  /** With varying returns the volatility is positive. */
  lemma VolatilityPositive(R: seq<Option<real>>, sqrt: real -> real)
    requires IsSquareRoot(sqrt)
    requires |Dropna(R)| >= 2 && !Constant(Dropna(R), Dropna(R)[0])
    ensures Volatility(R, true, sqrt).value > 0.0
  {
    VolatilityMeaning(R, true, sqrt);
  }

  /** With a positive volatility the ratio has the sign of the excess
      return. */
  lemma SharpeSignOf(R: seq<Option<real>>, riskFree: real, sqrt: real -> real)
    requires Volatility(R, true, sqrt).Some? && Volatility(R, true, sqrt).value > 0.0
    ensures Sharpe(R, riskFree, sqrt).Some? && MeanReturn(R).Some?
    ensures Sharpe(R, riskFree, sqrt).value > 0.0 <==> MeanReturn(R).value > riskFree
    ensures Sharpe(R, riskFree, sqrt).value < 0.0 <==> MeanReturn(R).value < riskFree
    ensures Sharpe(R, riskFree, sqrt).value == 0.0 <==> MeanReturn(R).value == riskFree
  {
    var v := Volatility(R, true, sqrt).value;
    var s := Sharpe(R, riskFree, sqrt).value;
    var e := MeanReturn(R).value - riskFree;
    assert s * v == e;
    if s > 0.0 { ProductNonnegative(s, v); }
    if s < 0.0 { ProductNonnegative(-s, v); }
  }

  /** With returns that vary, the ratio has the sign of the excess return. */
  lemma SharpeSign(R: seq<Option<real>>, riskFree: real, sqrt: real -> real)
    requires IsSquareRoot(sqrt)
    requires |Dropna(R)| >= 2 && !Constant(Dropna(R), Dropna(R)[0])
    ensures Sharpe(R, riskFree, sqrt).value > 0.0 <==> MeanReturn(R).value > riskFree
    ensures Sharpe(R, riskFree, sqrt).value < 0.0 <==> MeanReturn(R).value < riskFree
    ensures Sharpe(R, riskFree, sqrt).value == 0.0 <==> MeanReturn(R).value == riskFree
  {
    VolatilityPositive(R, sqrt);
    SharpeSignOf(R, riskFree, sqrt);
  }

  // -------------------------------------------------------- max drawdown

  /** `1 + returns`: NaN stays NaN. */
  function OnePlus(r: seq<Option<real>>): (g: seq<Option<real>>)
    ensures |g| == |r|
  {
    seq(|r|, i requires 0 <= i < |r| => if r[i].Some? then Some(1.0 + r[i].value) else None)
  }

  /** The product of the defined entries: the running state of `cumprod`. */
  function ProductOfDefined(xs: seq<Option<real>>): real {
    if |xs| == 0 then 1.0
    else ProductOfDefined(xs[..|xs| - 1]) * (if xs[|xs| - 1].Some? then xs[|xs| - 1].value else 1.0)
  }

  /** `cumprod()` with its default `skipna=True`: a NaN entry stays NaN and
      does not interrupt the running product. */
  function CumProd(xs: seq<Option<real>>): (c: seq<Option<real>>)
    ensures |c| == |xs|
  {
    seq(|xs|, i requires 0 <= i < |xs| => if xs[i].Some? then Some(ProductOfDefined(xs[..i + 1])) else None)
  }

  /** `expanding().max()` with its default `min_periods=1`: the largest
      defined value so far, NaN until one has been seen. */
  function ExpandingMax(xs: seq<Option<real>>): (m: seq<Option<real>>)
    ensures |m| == |xs|
  {
    seq(|xs|, i requires 0 <= i < |xs| =>
      var d := Dropna(xs[..i + 1]);
      if |d| == 0 then None else Some(Peak(d)))
  }

  /** `(cumulative - running_max) / running_max`. A zero peak (which positive
      prices never produce) is treated as NaN. */
  function Drawdowns(c: seq<Option<real>>, m: seq<Option<real>>): (d: seq<Option<real>>)
    requires |c| == |m|
    ensures |d| == |c|
  {
    seq(|c|, i requires 0 <= i < |c| =>
      if c[i].Some? && m[i].Some? && m[i].value != 0.0
      then Some((c[i].value - m[i].value) / m[i].value)
      else None)
  }

  /** `calculate_max_drawdown`: the smallest drawdown of the compounded
      returns from their running peak. */
  function MaxDrawdown(P: seq<real>): (m: Option<real>)
    requires Positive(P)
    ensures |P| > 0 ==> m == MinOf(PriceDrawdowns(P))
  {
    var c := CumProd(OnePlus(PctChange(P)));
    if |P| > 0 then DrawdownsSeenByMin(P); MinOf(Dropna(Drawdowns(c, ExpandingMax(c))))
    else MinOf(Dropna(Drawdowns(c, ExpandingMax(c))))
  }

  /** Each price relative to the first. */
  function Growth(P: seq<real>): (g: seq<real>)
    requires Positive(P) && |P| > 0
    ensures |g| == |P|
    ensures forall i :: 0 <= i < |P| ==> g[i] > 0.0
  {
    seq(|P|, i requires 0 <= i < |P| => P[i] / P[0])
  }

  lemma DivisionChain(a: real, b: real, c: real)
    requires a != 0.0 && b != 0.0
    ensures (b / a) * (c / b) == c / a
  {
  }

  /** Compounding the returns telescopes to the price ratio. */
  lemma {:induction false} ProductTelescopes(P: seq<real>, i: int)
    requires Positive(P)
    requires 0 <= i < |P|
    ensures ProductOfDefined(OnePlus(PctChange(P))[..i + 1]) == P[i] / P[0]
    decreases i
  {
    var g := OnePlus(PctChange(P));
    if i == 0 {
      assert g[..1][..0] == [];
      assert g[..1][0] == None;
    } else {
      ProductTelescopes(P, i - 1);
      assert g[..i + 1][..i] == g[..i];
      assert g[..i + 1][i] == Some(1.0 + (P[i] / P[i - 1] - 1.0));
      DivisionChain(P[0], P[i - 1], P[i]);
    }
  }

  /** The cumulative product of `1 + returns` is NaN first and then the
      growth of each price relative to the first. */
  lemma CumulativeIsGrowth(P: seq<real>)
    requires Positive(P) && |P| > 0
    ensures CumProd(OnePlus(PctChange(P))) == [None] + Lift(Growth(P)[1..])
  {
    var c := CumProd(OnePlus(PctChange(P)));
    forall i | 0 <= i < |P| ensures c[i] == ([None] + Lift(Growth(P)[1..]))[i] {
      if i > 0 {
        ProductTelescopes(P, i);
      }
    }
  }

  /** The running peak of the compounded R: NaN first, then the largest
      growth among indices 1 to i. The first price itself is never a peak. */
  lemma RunningPeak(P: seq<real>, i: int)
    requires Positive(P) && 0 <= i < |P|
    ensures var m := ExpandingMax(CumProd(OnePlus(PctChange(P))));
      if i == 0 then m[i] == None else m[i] == Some(Peak(Growth(P)[1..i + 1]))
  {
    var G := Growth(P);
    CumulativeIsGrowth(P);
    DropnaAfterLeadingNone(G[1..], i);
    assert G[1..][..i] == G[1..i + 1];
  }

  lemma DivideMonotone(a: real, b: real, k: real)
    requires k > 0.0 && a <= b
    ensures a / k <= b / k
  {
    ProductNonnegative(b - a, 1.0 / k);
  }

  /** Dividing every element by a positive constant divides the peak. */
  lemma {:induction false} PeakScaled(s: seq<real>, k: real)
    requires |s| > 0 && k > 0.0
    ensures Peak(seq(|s|, j requires 0 <= j < |s| => s[j] / k)) == Peak(s) / k
    decreases |s|
  {
    var t := seq(|s|, j requires 0 <= j < |s| => s[j] / k);
    if |s| > 1 {
      var n := |s| - 1;
      assert t[..n] == seq(|s[..n]|, j requires 0 <= j < |s[..n]| => s[..n][j] / k);
      PeakScaled(s[..n], k);
      var a, b := Peak(s[..n]), s[n];
      if a >= b { DivideMonotone(b, a, k); } else { DivideMonotone(a, b, k); }
    }
  }

  /** The running peak of the prices from index 1 to `i`, positive. */
  function PricePeak(P: seq<real>, i: int): (pk: real)
    requires Positive(P) && 1 <= i < |P|
    ensures pk >= P[i] && pk > 0.0
    ensures forall j :: 1 <= j <= i ==> P[j] <= pk
    ensures exists j :: 1 <= j <= i && P[j] == pk
  {
    var s := P[1..i + 1];
    assert s[i - 1] == P[i];
    assert forall j :: 1 <= j <= i ==> s[j - 1] == P[j];
    var pk := Peak(s);
    var w :| 0 <= w < |s| && s[w] == pk;
    assert P[w + 1] == pk;
    pk
  }

  /** Reference definition of the drawdowns in terms of the prices: for each
      index from 1, the price over the running peak since index 1, minus 1. */
  function PriceDrawdowns(P: seq<real>): (d: seq<real>)
    requires Positive(P) && |P| > 0
    ensures |d| == |P| - 1
  {
    seq(|P| - 1, j requires 0 <= j < |P| - 1 => P[j + 1] / PricePeak(P, j + 1) - 1.0)
  }

  lemma RelativeDrop(x: real, y: real, k: real)
    requires y > 0.0 && k > 0.0
    ensures (x / k - y / k) / (y / k) == x / y - 1.0
  {
    assert x / k - y / k == (x - y) / k;
    assert ((x - y) / k) / (y / k) == (x - y) / y;
    assert (x - y) / y == x / y - y / y;
  }

  /** The running peak of the compounded returns is the running price peak
      relative to the first price. */
  lemma PeakOfGrowth(P: seq<real>, i: int)
    requires Positive(P) && 1 <= i < |P|
    ensures ExpandingMax(CumProd(OnePlus(PctChange(P))))[i] == Some(PricePeak(P, i) / P[0])
  {
    RunningPeak(P, i);
    var s := P[1..i + 1];
    assert Growth(P)[1..i + 1] == seq(|s|, j requires 0 <= j < |s| => s[j] / P[0]);
    PeakScaled(s, P[0]);
  }

  /** The compounded return at `i`: NaN at 0, the price ratio after. */
  lemma CumulativeAt(P: seq<real>, i: int)
    requires Positive(P) && 0 <= i < |P|
    ensures CumProd(OnePlus(PctChange(P)))[i] == if i == 0 then None else Some(P[i] / P[0])
  {
    if i > 0 {
      ProductTelescopes(P, i);
    }
  }

  lemma DrawdownAt(P: seq<real>, i: int)
    requires Positive(P) && 0 <= i < |P|
    ensures var c := CumProd(OnePlus(PctChange(P)));
      Drawdowns(c, ExpandingMax(c))[i]
        == if i == 0 then None else Some(P[i] / PricePeak(P, i) - 1.0)
  {
    CumulativeAt(P, i);
    if i > 0 {
      PeakOfGrowth(P, i);
      RelativeDrop(P[i], PricePeak(P, i), P[0]);
    }
  }

  /** The drawdown series the source computes is NaN first and then the
      reference drawdowns. */
  lemma DrawdownsAreRelativeToPeak(P: seq<real>)
    requires Positive(P) && |P| > 0
    ensures var c := CumProd(OnePlus(PctChange(P)));
      Drawdowns(c, ExpandingMax(c)) == [None] + Lift(PriceDrawdowns(P))
  {
    var c := CumProd(OnePlus(PctChange(P)));
    var d := Drawdowns(c, ExpandingMax(c));
    forall i | 0 <= i < |P| ensures d[i] == ([None] + Lift(PriceDrawdowns(P)))[i] {
      DrawdownAt(P, i);
    }
  }

  /** The drawdowns `min()` sees, NaN skipped, are the reference
      drawdowns. */
  lemma DrawdownsSeenByMin(P: seq<real>)
    requires Positive(P) && |P| > 0
    ensures var c := CumProd(OnePlus(PctChange(P)));
      Dropna(Drawdowns(c, ExpandingMax(c))) == PriceDrawdowns(P)
  {
    var c := CumProd(OnePlus(PctChange(P)));
    var pd := PriceDrawdowns(P);
    DrawdownsAreRelativeToPeak(P);
    calc {
      Dropna(Drawdowns(c, ExpandingMax(c)));
      Dropna([None] + Lift(pd));
      { DropnaSkipsNone(Lift(pd)); }
      Dropna(Lift(pd));
      { DropnaOfLift(pd); }
      pd;
    }
  }

  lemma RatioBelowOne(x: real, y: real)
    requires 0.0 < x <= y
    ensures 0.0 < x / y <= 1.0
    ensures x / y == 1.0 <==> x == y
  {
  }

  /** Each reference drawdown lies in (-1, 0] and is 0 exactly at a new
      running peak. */
  lemma DrawdownEntry(P: seq<real>, j: int)
    requires Positive(P) && |P| > 0 && 0 <= j < |P| - 1
    ensures -1.0 < PriceDrawdowns(P)[j] <= 0.0
    ensures PriceDrawdowns(P)[j] == 0.0 <==> P[j + 1] == PricePeak(P, j + 1)
  {
    RatioBelowOne(P[j + 1], PricePeak(P, j + 1));
  }

  /** Maximum drawdown is defined from two prices on, and lies in (-1, 0]. */
  lemma MaxDrawdownBounds(P: seq<real>)
    requires Positive(P)
    ensures MaxDrawdown(P).Some? <==> |P| >= 2
    ensures MaxDrawdown(P).Some? ==> -1.0 < MaxDrawdown(P).value <= 0.0
  {
    if |P| > 0 {
      var d := PriceDrawdowns(P);
      forall j | 0 <= j < |d| ensures -1.0 < d[j] <= 0.0 {
        DrawdownEntry(P, j);
      }
    } else {
      assert CumProd(OnePlus(PctChange(P))) == [];
    }
  }

  /** The minimum of non-positive values is 0 exactly when all are 0. */
  lemma MinOfNonpositiveZeroIff(d: seq<real>)
    requires |d| > 0
    requires forall j :: 0 <= j < |d| ==> d[j] <= 0.0
    ensures MinOf(d) == Some(0.0) <==> forall j :: 0 <= j < |d| ==> d[j] == 0.0
  {
    var w :| 0 <= w < |d| && d[w] == MinOf(d).value;
  }

  /** Every price from index 1 on is its own running peak exactly when the
      prices never fall from index 1 on. */
  lemma AtPeakIffNondecreasing(P: seq<real>)
    requires Positive(P) && |P| >= 2
    ensures (forall i :: 1 <= i < |P| ==> PricePeak(P, i) == P[i])
      <==> (forall j :: 1 <= j < |P| - 1 ==> P[j] <= P[j + 1])
  {
    if forall j :: 1 <= j < |P| - 1 ==> P[j] <= P[j + 1] {
      forall i | 1 <= i < |P| ensures PricePeak(P, i) == P[i] {
        NondecreasingPeak(P, i);
      }
    }
    if forall i :: 1 <= i < |P| ==> PricePeak(P, i) == P[i] {
      forall j | 1 <= j < |P| - 1 ensures P[j] <= P[j + 1] {
        assert P[j] <= PricePeak(P, j + 1);
      }
    }
  }

  /** Maximum drawdown is 0 exactly when the prices never fall from index 1
      on. A fall from the first price to the second is not seen: the first
      compounded value is NaN and never becomes the running peak. */
  lemma MaxDrawdownZeroIff(P: seq<real>)
    requires Positive(P) && |P| >= 2
    ensures MaxDrawdown(P) == Some(0.0) <==> forall j :: 1 <= j < |P| - 1 ==> P[j] <= P[j + 1]
  {
    var d := PriceDrawdowns(P);
    forall j | 0 <= j < |d| ensures d[j] <= 0.0 && (d[j] == 0.0 <==> P[j + 1] == PricePeak(P, j + 1)) {
      DrawdownEntry(P, j);
    }
    MinOfNonpositiveZeroIff(d);
    AtPeakIffNondecreasing(P);
    assert (forall j :: 0 <= j < |d| ==> d[j] == 0.0)
      <==> (forall i :: 1 <= i < |P| ==> PricePeak(P, i) == P[i]) by {
      if forall j :: 0 <= j < |d| ==> d[j] == 0.0 {
        forall i | 1 <= i < |P| ensures PricePeak(P, i) == P[i] {
          assert d[i - 1] == 0.0;
        }
      }
    }
  }

  lemma {:induction false} NondecreasingPeak(P: seq<real>, i: int)
    requires Positive(P) && 1 <= i < |P|
    requires forall j :: 1 <= j < |P| - 1 ==> P[j] <= P[j + 1]
    ensures PricePeak(P, i) == P[i]
    decreases i
  {
    if i > 1 {
      NondecreasingPeak(P, i - 1);
      forall j | 1 <= j <= i ensures P[j] <= P[i] {
        if j < i {
          assert P[j] <= PricePeak(P, i - 1);
        }
      }
    }
  }

  // --------------------------------------------------------- total return

  /** `close[-1] / close[0] - 1`. */
  function TotalReturn(P: seq<real>): (t: real)
    requires Positive(P) && |P| > 0
    ensures t > -1.0
    ensures t == 0.0 <==> P[|P| - 1] == P[0]
  {
    assert P[|P| - 1] / P[0] > 0.0;
    assert P[|P| - 1] / P[0] == 1.0 <==> P[|P| - 1] == P[0];
    P[|P| - 1] / P[0] - 1.0
  }

  /** Total return is the final compounded return, lies above -1, and is 0
      exactly when the last price equals the first. */
  lemma TotalReturnIsCompounded(P: seq<real>)
    requires Positive(P) && |P| > 0
    ensures |P| >= 2 ==> CumProd(OnePlus(PctChange(P)))[|P| - 1] == Some(1.0 + TotalReturn(P))
  {
    ProductTelescopes(P, |P| - 1);
  }

  // -------------------------------------------------- worked examples

  /** A flat price series has only zero returns. */
  lemma StepReturnsOfConstant(P: seq<real>, c: real)
    requires Positive(P) && |P| > 0 && Constant(P, c)
    ensures Constant(StepReturns(P), 0.0)
  {
    var r := StepReturns(P);
    forall j | 0 <= j < |r| ensures r[j] == 0.0 {
      assert P[j + 1] / P[j] == c / c == 1.0;
    }
  }

  /** A flat price series of three or more bars has every statistic 0: no
      mean return, no volatility, a Sharpe ratio guarded to 0, no drawdown
      and no total return. */
  lemma StatisticsOfConstant(P: seq<real>, riskFree: real, sqrt: real -> real, c: real)
    requires IsSquareRoot(sqrt)
    requires Positive(P) && |P| >= 3 && Constant(P, c)
    ensures MeanReturn(PctChange(P)) == Some(0.0)
    ensures Volatility(PctChange(P), true, sqrt) == Some(0.0)
    ensures Sharpe(PctChange(P), riskFree, sqrt) == Some(0.0)
    ensures MaxDrawdown(P) == Some(0.0)
    ensures TotalReturn(P) == 0.0
  {
    var R := PctChange(P);
    StepReturnsOfConstant(P, c);
    ReturnsDropFirst(P);
    MeanReturnOfPrices(P);
    MeanOfConstant(StepReturns(P), 0.0);
    VolatilityMeaning(R, true, sqrt);
    SharpeOfSteadyReturns(R, riskFree, sqrt, 0.0);
    MaxDrawdownZeroIff(P);
    TotalReturnIsCompounded(P);
  }

  /** Two bars at 100 and 110: one return of 10 %, and a total return of
      10 %. */
  lemma TwoBarsExample()
    ensures StepReturns([100.0, 110.0]) == [0.1]
    ensures TotalReturn([100.0, 110.0]) == 0.1
  {
    var P := [100.0, 110.0];
    assert StepReturns(P)[0] == 110.0 / 100.0 - 1.0 == 0.1;
  }

  // ---------------------------------------------------------- correlation

  /** Products of paired deviations from the means. */
  function CrossDeviations(x: seq<real>, y: seq<real>): (d: seq<real>)
    requires |x| == |y| && |x| > 0
    ensures |d| == |x|
  {
    var mx, my := Sum(x) / (|x| as real), Sum(y) / (|y| as real);
    seq(|x|, i requires 0 <= i < |x| => (x[i] - mx) * (y[i] - my))
  }

  /** Sample covariance of two paired series (divisor n-1). */
  function Covariance(x: seq<real>, y: seq<real>): (c: Option<real>)
    requires |x| == |y|
    ensures c.Some? <==> |x| >= 2
  {
    if |x| < 2 then None else Some(Sum(CrossDeviations(x, y)) / ((|x| - 1) as real))
  }

  function Clip(v: real, lo: real, hi: real): (r: real)
    requires lo <= hi
    ensures lo <= r <= hi
    ensures lo <= v <= hi ==> r == v
  {
    if v < lo then lo else if v > hi then hi else v
  }

  /** `calculate_correlation`: `series1.corr(series2)`. The two series are
      aligned on their index labels; the routes' series carry the default
      labels `0 .. n-1`, which this model assumes, so only the first
      `min(n, m)` pairs take part; the Pearson coefficient is the covariance divided by both
      standard deviations, clipped to [-1, 1]; it is NaN for fewer than two
      pairs or a zero standard deviation. */
  function Correlation(X: seq<real>, Y: seq<real>, sqrt: real -> real): (r: Option<real>)
    ensures r.Some? ==> -1.0 <= r.value <= 1.0
    ensures r.Some? ==> |X| >= 2 && |Y| >= 2
  {
    var n := if |X| <= |Y| then |X| else |Y|;
    var x, y := X[..n], Y[..n];
    if n < 2 then None
    else
      var sx, sy := sqrt(SampleVariance(x).value), sqrt(SampleVariance(y).value);
      if sx == 0.0 || sy == 0.0 then None
      else Some(Clip(Covariance(x, y).value / sx / sy, -1.0, 1.0))
  }

  /** Correlation is defined exactly when both aligned prefixes have at least
      two points and neither is constant. */
  lemma CorrelationDefinedIff(X: seq<real>, Y: seq<real>, sqrt: real -> real)
    requires IsSquareRoot(sqrt)
    ensures var n := if |X| <= |Y| then |X| else |Y|;
      Correlation(X, Y, sqrt).Some? <==>
        n >= 2 && !Constant(X[..n], X[0]) && !Constant(Y[..n], Y[0])
  {
    var n := if |X| <= |Y| then |X| else |Y|;
    if n >= 2 {
      var x, y := X[..n], Y[..n];
      VarianceZeroIffConstant(x);
      VarianceZeroIffConstant(y);
      SquareRootZero(sqrt, SampleVariance(x).value);
      SquareRootZero(sqrt, SampleVariance(y).value);
    }
  }

  lemma CovarianceWithItself(x: seq<real>)
    requires |x| >= 2
    ensures Covariance(x, x) == SampleVariance(x)
  {
    var m := Sum(x) / (|x| as real);
    forall i | 0 <= i < |x| ensures CrossDeviations(x, x)[i] == SquaredDeviations(x, m)[i] {
      assert Copy(x[i] - m) == x[i] - m;
    }
    assert CrossDeviations(x, x) == SquaredDeviations(x, m);
  }

  lemma DivideBySquareRoot(v: real, s: real)
    requires s != 0.0 && Square(s) == v
    ensures v / s / s == 1.0
  {
    assert v / s == s;
  }

  /** A non-constant series is perfectly correlated with itself. */
  lemma CorrelationWithItself(X: seq<real>, sqrt: real -> real)
    requires IsSquareRoot(sqrt)
    requires |X| >= 2 && !Constant(X, X[0])
    ensures Correlation(X, X, sqrt) == Some(1.0)
  {
    assert X[..|X|] == X;
    CovarianceWithItself(X);
    VarianceZeroIffConstant(X);
    var v := SampleVariance(X).value;
    SquareRootZero(sqrt, v);
    DivideBySquareRoot(v, sqrt(v));
  }

  lemma CovarianceSymmetric(x: seq<real>, y: seq<real>)
    requires |x| == |y|
    ensures Covariance(x, y) == Covariance(y, x)
  {
    if |x| >= 2 {
      assert CrossDeviations(x, y) == CrossDeviations(y, x);
    }
  }

  lemma DivideTwice(c: real, a: real, b: real)
    requires a != 0.0 && b != 0.0
    ensures c / a / b == c / b / a
  {
    assert c / a / b == c / (a * b);
    assert c / b / a == c / (b * a);
  }

  /** Correlation does not depend on the order of its arguments. */
  lemma CorrelationSymmetric(X: seq<real>, Y: seq<real>, sqrt: real -> real)
    ensures Correlation(X, Y, sqrt) == Correlation(Y, X, sqrt)
  {
    var n := if |X| <= |Y| then |X| else |Y|;
    if n >= 2 {
      var x, y := X[..n], Y[..n];
      CovarianceSymmetric(x, y);
      var sx, sy := sqrt(SampleVariance(x).value), sqrt(SampleVariance(y).value);
      if sx != 0.0 && sy != 0.0 {
        DivideTwice(Covariance(x, y).value, sx, sy);
      }
    }
  }
}
