/** The indicator engine (`TechnicalIndicators`): moving averages, the
    relative strength index, MACD and Bollinger bands over a close-price
    series. Every output is aligned index for index with the prices; NaN
    (None) marks the positions pandas leaves undefined. */
module Indicators {
  import opened Series

  // ================================================================= SMA

  /** `sma`: `prices.rolling(window=period).mean()`. It is defined exactly
      on full windows, where `period` times its value is the sum of the last
      `period` prices. */
  function Sma(P: seq<real>, period: nat): (r: seq<Option<real>>)
    ensures |r| == |P|
    ensures forall i :: 0 <= i < |P| ==> (r[i].Some? <==> 0 < period <= i + 1)
    ensures forall i :: 0 <= i < |P| && r[i].Some? ==>
      r[i].value * (period as real) == Sum(P[i + 1 - period .. i + 1])
  {
    RollingMean(P, period)
  }

  /** A constant series has its constant as SMA on every full window. */
  lemma SmaOfConstant(P: seq<real>, period: nat, c: real, i: int)
    requires Constant(P, c)
    requires 0 < period <= i + 1 <= |P|
    ensures Sma(P, period)[i] == Some(c)
  {
    MeanOfConstant(Window(P, i, period), c);
  }

  /** The trailing mean lies between any bounds of its window. */
  lemma SmaWithinWindow(P: seq<real>, period: nat, i: int, lo: real, hi: real)
    requires 0 < period <= i + 1 <= |P|
    requires forall j :: i + 1 - period <= j <= i ==> lo <= P[j] <= hi
    ensures lo <= Sma(P, period)[i].value <= hi
  {
    var w := Window(P, i, period);
    assert forall j :: 0 <= j < |w| ==> w[j] == P[i + 1 - period + j];
    MeanWithin(w, lo, hi);
  }

  /** Sliding the window one step adds the entering price and drops the
      leaving one: `sma[i] = sma[i-1] + (P[i] - P[i-period]) / period`. */
  lemma SmaSlides(P: seq<real>, period: nat, i: int)
    requires 0 < period <= i < |P|
    ensures Sma(P, period)[i].Some? && Sma(P, period)[i - 1].Some?
    ensures Sma(P, period)[i].value
      == Sma(P, period)[i - 1].value + (P[i] - P[i - period]) / (period as real)
  {
    var inner := P[i + 1 - period .. i];
    assert Window(P, i, period) == inner + [P[i]];
    assert Window(P, i - 1, period) == [P[i - period]] + inner;
    SumConcat(inner, [P[i]]);
    SumConcat([P[i - period]], inner);
    assert Sum([P[i]]) == P[i];
    assert Sum([P[i - period]]) == P[i - period];
    var n := period as real;
    assert Sum(Window(P, i, period)) == Sum(Window(P, i - 1, period)) - P[i - period] + P[i];
    assert Sum(Window(P, i, period)) / n
      == Sum(Window(P, i - 1, period)) / n + (P[i] - P[i - period]) / n;
  }

  // ================================================================= EMA

  /** The smoothing factor of `ewm(span=span)`: `2 / (span + 1)`. */
  function Alpha(span: nat): (a: real)
    requires span >= 1
    ensures 0.0 < a <= 1.0
  {
    2.0 / (span as real + 1.0)
  }

  /** One step of the `adjust=False` recurrence. */
  function EmaStep(alpha: real, previous: real, x: real): real {
    alpha * x + (1.0 - alpha) * previous
  }

  /** The fold behind `ewm(adjust=False).mean()`: carrying the previous
      smoothed value, smooth each element of `xs` in turn. */
  function EmaFrom(xs: seq<real>, alpha: real, previous: real): (r: seq<real>)
    ensures |r| == |xs|
    ensures |xs| > 0 ==> r[0] == EmaStep(alpha, previous, xs[0])
    ensures forall i :: 0 < i < |xs| ==> r[i] == EmaStep(alpha, r[i - 1], xs[i])
  {
    if |xs| == 0 then []
    else
      var y := EmaStep(alpha, previous, xs[0]);
      [y] + EmaFrom(xs[1..], alpha, y)
  }

  /** `ema`: `prices.ewm(span=span, adjust=False).mean()`. It starts at the
      first price and is defined at every index. */
  function Ema(P: seq<real>, span: nat): (r: seq<real>)
    requires span >= 1
    ensures |r| == |P|
    ensures |P| > 0 ==> r[0] == P[0]
    ensures forall i :: 0 < i < |P| ==> r[i] == EmaStep(Alpha(span), r[i - 1], P[i])
  {
    if |P| == 0 then [] else [P[0]] + EmaFrom(P[1..], Alpha(span), P[0])
  }

  /** A constant series is its own EMA. */
  lemma {:induction false} EmaOfConstant(P: seq<real>, span: nat, c: real, i: int)
    requires span >= 1 && Constant(P, c)
    requires 0 <= i < |P|
    ensures Ema(P, span)[i] == c
    decreases i
  {
    if i > 0 {
      EmaOfConstant(P, span, c, i - 1);
      var a := Alpha(span);
      assert EmaStep(a, c, c) == a * c + (1.0 - a) * c == c;
    }
  }

  /** One smoothing step stays between any bounds of its two inputs. */
  lemma StepWithin(a: real, previous: real, x: real, lo: real, hi: real)
    requires 0.0 < a <= 1.0
    requires lo <= previous <= hi && lo <= x <= hi
    ensures lo <= EmaStep(a, previous, x) <= hi
  {
    ProductNonnegative(a, x - lo);
    ProductNonnegative(1.0 - a, previous - lo);
    ProductNonnegative(a, hi - x);
    ProductNonnegative(1.0 - a, hi - previous);
  }

  /** Each EMA value is a convex combination of the prices so far, so it
      stays between any bounds of them. */
  lemma {:induction false} EmaWithin(P: seq<real>, span: nat, lo: real, hi: real, i: int)
    requires span >= 1
    requires 0 <= i < |P|
    requires forall j :: 0 <= j <= i ==> lo <= P[j] <= hi
    ensures lo <= Ema(P, span)[i] <= hi
    decreases i
  {
    if i > 0 {
      EmaWithin(P, span, lo, hi, i - 1);
      StepWithin(Alpha(span), Ema(P, span)[i - 1], P[i], lo, hi);
    }
  }

  /** The `adjust=False` recurrence from the first price, with the smoothing
      factor of `span`. */
  predicate EmaRecurrence(P: seq<real>, span: nat, y: seq<real>)
    requires span >= 1
  {
    && |y| == |P|
    && (|P| > 0 ==> y[0] == P[0])
    && (forall i :: 0 < i < |P| ==> y[i] == EmaStep(Alpha(span), y[i - 1], P[i]))
  }

  /** The EMA is the one series that follows the recurrence. */
  lemma EmaIsRecurrence(P: seq<real>, span: nat, y: seq<real>)
    requires span >= 1
    ensures EmaRecurrence(P, span, y) <==> y == Ema(P, span)
  {
    if EmaRecurrence(P, span, y) {
      forall i | 0 <= i < |P| ensures y[i] == Ema(P, span)[i] {
        RecurrenceAgrees(P, span, y, i);
      }
    }
  }

  lemma {:induction false} RecurrenceAgrees(P: seq<real>, span: nat, y: seq<real>, i: int)
    requires span >= 1 && EmaRecurrence(P, span, y)
    requires 0 <= i < |P|
    ensures y[i] == Ema(P, span)[i]
    decreases i
  {
    if i > 0 {
      RecurrenceAgrees(P, span, y, i - 1);
    }
  }

  /** The EMA is causal: the value at `i` depends only on prices up to `i`. */
  lemma EmaOfPrefix(P: seq<real>, span: nat, k: int)
    requires span >= 1
    requires 0 <= k <= |P|
    ensures Ema(P[..k], span) == Ema(P, span)[..k]
  {
    var short, long := Ema(P[..k], span), Ema(P, span);
    forall i | 0 <= i < k ensures short[i] == long[i] {
      EmaPrefixAt(P, span, k, i);
    }
  }

  lemma {:induction false} EmaPrefixAt(P: seq<real>, span: nat, k: int, i: int)
    requires span >= 1
    requires 0 <= i < k <= |P|
    ensures Ema(P[..k], span)[i] == Ema(P, span)[i]
    decreases i
  {
    if i > 0 {
      EmaPrefixAt(P, span, k, i - 1);
    }
  }

  /** With span 1 the smoothing factor is 1 and the EMA is the series. */
  lemma EmaSpanOne(P: seq<real>)
    ensures Ema(P, 1) == P
  {
    assert Alpha(1) == 1.0;
    forall i | 0 <= i < |P| ensures Ema(P, 1)[i] == P[i] {
      if i > 0 {
        assert EmaStep(1.0, Ema(P, 1)[i - 1], P[i]) == P[i];
      }
    }
  }

  // ================================================================ MACD

  datatype MacdLines = MacdLines(macdLine: seq<real>, signalLine: seq<real>, histogram: seq<real>)

  /** `macd`: fast EMA minus slow EMA, its EMA as signal line, and their
      difference as histogram. */
  function Macd(P: seq<real>, fast: nat, slow: nat, signal: nat): (m: MacdLines)
    requires fast >= 1 && slow >= 1 && signal >= 1
    ensures |m.macdLine| == |m.signalLine| == |m.histogram| == |P|
    ensures forall i :: 0 <= i < |P| ==> m.macdLine[i] == Ema(P, fast)[i] - Ema(P, slow)[i]
    ensures m.signalLine == Ema(m.macdLine, signal)
    ensures forall i :: 0 <= i < |P| ==> m.histogram[i] == m.macdLine[i] - m.signalLine[i]
  {
    var macdLine := Difference(Ema(P, fast), Ema(P, slow));
    var signalLine := Ema(macdLine, signal);
    MacdLines(macdLine, signalLine, Difference(macdLine, signalLine))
  }

  /** All three lines start at zero: both EMAs and the signal line start from
      their first input. */
  lemma MacdStartsAtZero(P: seq<real>, fast: nat, slow: nat, signal: nat)
    requires fast >= 1 && slow >= 1 && signal >= 1
    requires |P| > 0
    ensures Macd(P, fast, slow, signal).macdLine[0] == 0.0
    ensures Macd(P, fast, slow, signal).signalLine[0] == 0.0
    ensures Macd(P, fast, slow, signal).histogram[0] == 0.0
  {
  }

  /** When both EMAs agree at every index (a constant series, or equal fast
      and slow spans) every MACD line is zero. */
  lemma MacdZeroWhenEmasAgree(P: seq<real>, fast: nat, slow: nat, signal: nat)
    requires fast >= 1 && slow >= 1 && signal >= 1
    requires Ema(P, fast) == Ema(P, slow)
    ensures Constant(Macd(P, fast, slow, signal).macdLine, 0.0)
    ensures Constant(Macd(P, fast, slow, signal).signalLine, 0.0)
    ensures Constant(Macd(P, fast, slow, signal).histogram, 0.0)
  {
    var m := Macd(P, fast, slow, signal);
    forall i | 0 <= i < |P| ensures m.signalLine[i] == 0.0 {
      EmaOfConstant(m.macdLine, signal, 0.0, i);
    }
  }

  lemma MacdOfConstant(P: seq<real>, fast: nat, slow: nat, signal: nat, c: real)
    requires fast >= 1 && slow >= 1 && signal >= 1
    requires Constant(P, c)
    ensures Constant(Macd(P, fast, slow, signal).macdLine, 0.0)
    ensures Constant(Macd(P, fast, slow, signal).signalLine, 0.0)
    ensures Constant(Macd(P, fast, slow, signal).histogram, 0.0)
  {
    forall i | 0 <= i < |P| ensures Ema(P, fast)[i] == Ema(P, slow)[i] {
      EmaOfConstant(P, fast, c, i);
      EmaOfConstant(P, slow, c, i);
    }
    MacdZeroWhenEmasAgree(P, fast, slow, signal);
  }

  // ================================================================= RSI

  /** `prices.diff()`: NaN first, then each step's change. */
  function Diff(P: seq<real>): (d: seq<Option<real>>)
    ensures |d| == |P|
  {
    seq(|P|, i requires 0 <= i < |P| => if i == 0 then None else Some(P[i] - P[i - 1]))
  }

  /** `delta.where(delta > 0, 0)`: rises kept; falls, flat steps and the
      leading NaN become 0. */
  function Gains(d: seq<Option<real>>): (g: seq<real>)
    ensures |g| == |d|
    ensures forall i :: 0 <= i < |d| ==> g[i] >= 0.0
  {
    seq(|d|, i requires 0 <= i < |d| => if d[i].Some? && d[i].value > 0.0 then d[i].value else 0.0)
  }

  /** `-delta.where(delta < 0, 0)`: the size of each fall; 0 elsewhere,
      including the leading NaN. */
  function Losses(d: seq<Option<real>>): (l: seq<real>)
    ensures |l| == |d|
    ensures forall i :: 0 <= i < |d| ==> l[i] >= 0.0
  {
    seq(|d|, i requires 0 <= i < |d| => -(if d[i].Some? && d[i].value < 0.0 then d[i].value else 0.0))
  }

  /** Mean gain over the trailing window. */
  function GainMean(P: seq<real>, period: nat): (r: seq<Option<real>>)
    ensures |r| == |P|
    ensures forall i :: 0 <= i < |P| ==> (r[i].Some? <==> 0 < period <= i + 1)
    ensures forall i :: 0 <= i < |P| && r[i].Some? ==> r[i].value >= 0.0
  {
    RollingMeanNonnegative(Gains(Diff(P)), period);
    RollingMean(Gains(Diff(P)), period)
  }

  /** Mean loss over the trailing window. */
  function LossMean(P: seq<real>, period: nat): (r: seq<Option<real>>)
    ensures |r| == |P|
    ensures forall i :: 0 <= i < |P| ==> (r[i].Some? <==> 0 < period <= i + 1)
    ensures forall i :: 0 <= i < |P| && r[i].Some? ==> r[i].value >= 0.0
  {
    RollingMeanNonnegative(Losses(Diff(P)), period);
    RollingMean(Losses(Diff(P)), period)
  }

  lemma RollingMeanNonnegative(xs: seq<real>, period: nat)
    requires forall j :: 0 <= j < |xs| ==> xs[j] >= 0.0
    ensures forall i :: 0 <= i < |xs| && RollingMean(xs, period)[i].Some? ==>
      RollingMean(xs, period)[i].value >= 0.0
  {
    forall i | 0 <= i < |xs| && RollingMean(xs, period)[i].Some?
      ensures RollingMean(xs, period)[i].value >= 0.0
    {
      var w := Window(xs, i, period);
      assert forall j :: 0 <= j < |w| ==> w[j] == xs[i + 1 - period + j];
      MeanWithin(w, 0.0, Peak(w));
    }
  }

  /** `100 - 100 / (1 + rs)` for `rs = gain / loss`, with a positive loss. */
  lemma RsiFormula(g: real, l: real)
    requires g >= 0.0 && l > 0.0
    ensures 1.0 + g / l > 0.0
    ensures 0.0 <= 100.0 - 100.0 / (1.0 + g / l) < 100.0
    ensures (100.0 - 100.0 / (1.0 + g / l)) * (g + l) == 100.0 * g
    ensures 100.0 - 100.0 / (1.0 + g / l) == 0.0 <==> g == 0.0
  {
    var rs := g / l;
    assert rs >= 0.0;
    var q := 100.0 / (1.0 + rs);
    assert q * (1.0 + rs) == 100.0;
    assert q > 0.0;
    assert q * rs >= 0.0;
    assert q <= 100.0;
    assert rs * l == g;
    assert (1.0 + rs) * l == g + l;
    assert q * (g + l) == q * ((1.0 + rs) * l) == 100.0 * l;
    assert (100.0 - q) * (g + l) == 100.0 * (g + l) - 100.0 * l;
    if g == 0.0 {
      assert q == 100.0;
    }
  }

  /** The RSI of one window from its mean gain and mean loss, written as
      `100 - 100 / (1 + gain / loss)` with the IEEE outcomes made explicit:
      a zero loss makes `rs` infinite and the RSI 100, unless the gain is zero
      as well, when `0 / 0` is NaN. */
  function RsiValue(gain: Option<real>, loss: Option<real>): (r: Option<real>)
    requires gain.Some? ==> gain.value >= 0.0
    requires loss.Some? ==> loss.value >= 0.0
    ensures r.Some? <==> gain.Some? && loss.Some? && (gain.value > 0.0 || loss.value > 0.0)
    ensures r.Some? ==> 0.0 <= r.value <= 100.0
    ensures r.Some? ==> r.value * (gain.value + loss.value) == 100.0 * gain.value
    ensures r == Some(100.0) <==> gain.Some? && loss.Some? && gain.value > 0.0 && loss.value == 0.0
  {
    if gain.None? || loss.None? then None
    else if loss.value > 0.0 then
      RsiFormula(gain.value, loss.value);
      Some(100.0 - 100.0 / (1.0 + gain.value / loss.value))
    else if gain.value > 0.0 then Some(100.0)
    else None
  }

  /** `rsi`: relative strength index over a `period`-step window. */
  function Rsi(P: seq<real>, period: nat): (r: seq<Option<real>>)
    ensures |r| == |P|
    ensures forall i :: 0 <= i < |P| && r[i].Some? ==> 0.0 <= r[i].value <= 100.0
  {
    var gain, loss := GainMean(P, period), LossMean(P, period);
    RollingMeanNonnegative(Gains(Diff(P)), period);
    RollingMeanNonnegative(Losses(Diff(P)), period);
    seq(|P|, i requires 0 <= i < |P| => RsiValue(gain[i], loss[i]))
  }

  /** RSI in terms of the two window means: 100 exactly when nothing fell and
      something rose, and otherwise `100 · gain / (gain + loss)`. */
  lemma RsiFromMeans(P: seq<real>, period: nat, i: int)
    requires 0 <= i < |P|
    ensures Rsi(P, period)[i].Some? ==> GainMean(P, period)[i].Some? && LossMean(P, period)[i].Some?
    ensures Rsi(P, period)[i] == Some(100.0) <==>
      LossMean(P, period)[i] == Some(0.0) && GainMean(P, period)[i].Some? && GainMean(P, period)[i].value > 0.0
    ensures Rsi(P, period)[i].Some? ==>
      Rsi(P, period)[i].value * (GainMean(P, period)[i].value + LossMean(P, period)[i].value)
        == 100.0 * GainMean(P, period)[i].value
  {
    RollingMeanNonnegative(Gains(Diff(P)), period);
    RollingMeanNonnegative(Losses(Diff(P)), period);
  }

  /** The prices do not move over the steps that the window ending at `i`
      covers (step `j` goes from `P[j-1]` to `P[j]`). */
  predicate FlatWindow(P: seq<real>, i: int, period: nat)
    requires 0 <= i < |P|
  {
    forall j :: i + 1 - period <= j <= i && j >= 1 ==> P[j] == P[j - 1]
  }

  /** The gain and loss entries of a window are all zero exactly when the
      prices do not move over it. */
  lemma WindowMovesIff(P: seq<real>, period: nat, i: int)
    requires 0 < period <= i + 1 <= |P|
    ensures (forall j :: i + 1 - period <= j <= i ==>
               Gains(Diff(P))[j] == 0.0 && Losses(Diff(P))[j] == 0.0)
      <==> FlatWindow(P, i, period)
  {
    var g, l := Gains(Diff(P)), Losses(Diff(P));
    if FlatWindow(P, i, period) {
      forall j | i + 1 - period <= j <= i ensures g[j] == 0.0 && l[j] == 0.0 {
        if j >= 1 {
          assert P[j] == P[j - 1];
        }
      }
    }
    if forall j :: i + 1 - period <= j <= i ==> g[j] == 0.0 && l[j] == 0.0 {
      forall j | i + 1 - period <= j <= i && j >= 1 ensures P[j] == P[j - 1] {
        assert g[j] == 0.0 && l[j] == 0.0;
      }
    }
  }

  /** A full window has zero mean of non-negative entries exactly when all of
      them are zero. */
  lemma WindowMeanZeroIff(xs: seq<real>, period: nat, i: int)
    requires 0 < period <= i + 1 <= |xs|
    requires forall j :: 0 <= j < |xs| ==> xs[j] >= 0.0
    ensures RollingMean(xs, period)[i] == Some(0.0) <==>
      forall j :: i + 1 - period <= j <= i ==> xs[j] == 0.0
  {
    var w := Window(xs, i, period);
    assert forall j :: 0 <= j < |w| ==> w[j] == xs[i + 1 - period + j];
    if RollingMean(xs, period)[i] == Some(0.0) {
      assert Sum(w) == 0.0;
      SumZeroAllZero(w);
      forall j | i + 1 - period <= j <= i ensures xs[j] == 0.0 {
        assert w[j - (i + 1 - period)] == xs[j];
      }
    }
    if forall j :: i + 1 - period <= j <= i ==> xs[j] == 0.0 {
      SumBounds(w, 0.0, 0.0);
    }
  }

  /** RSI is defined exactly on full windows over which the price moves: the
      window starts counting at index `period - 1`, because the leading NaN of
      `diff` became a zero gain and a zero loss. */
  lemma RsiDefinedIff(P: seq<real>, period: nat, i: int)
    requires 0 <= i < |P|
    ensures Rsi(P, period)[i].Some? <==> 0 < period <= i + 1 && !FlatWindow(P, i, period)
  {
    RollingMeanNonnegative(Gains(Diff(P)), period);
    RollingMeanNonnegative(Losses(Diff(P)), period);
    if 0 < period <= i + 1 {
      WindowMovesIff(P, period, i);
      WindowMeanZeroIff(Gains(Diff(P)), period, i);
      WindowMeanZeroIff(Losses(Diff(P)), period, i);
    }
  }

  /** After `fillna(0)`: RSI is 0 before the first full window and wherever
      the price does not move over the window. */
  lemma RsiFilledPlaceholders(P: seq<real>, period: nat, i: int)
    requires 0 <= i < |P|
    requires i + 1 < period || period == 0 || FlatWindow(P, i, period)
    ensures FillNa(Rsi(P, period))[i] == 0.0
  {
    RsiDefinedIff(P, period, i);
  }

  // =========================================================== Bollinger

  datatype Bands = Bands(upper: seq<Option<real>>, middle: seq<Option<real>>, lower: seq<Option<real>>)

  /** `bollinger_bands`: the SMA as middle band, and the SMA plus and minus
      `k` rolling sample standard deviations. */
  function Bollinger(P: seq<real>, period: nat, k: real, sqrt: real -> real): (b: Bands)
    ensures |b.upper| == |b.middle| == |b.lower| == |P|
    ensures b.middle == Sma(P, period)
    ensures forall i :: 0 <= i < |P| ==> (b.upper[i].Some? <==> 1 < period <= i + 1)
    ensures forall i :: 0 <= i < |P| ==> (b.lower[i].Some? <==> 1 < period <= i + 1)
    ensures forall i :: 0 <= i < |P| && b.upper[i].Some? ==>
      && b.upper[i].value - b.middle[i].value == k * RollingStd(P, period, sqrt)[i].value
      && b.middle[i].value - b.lower[i].value == k * RollingStd(P, period, sqrt)[i].value
  {
    var middle := Sma(P, period);
    var width := Scale(RollingStd(P, period, sqrt), k);
    Bands(Plus(middle, width), middle, Minus(middle, width))
  }

  /** The band half-width is `k` times the square root of the window's sample
      variance; so the bands are `2·k·std` apart and, for `k >= 0`, ordered. */
  lemma BollingerWidth(P: seq<real>, period: nat, k: real, sqrt: real -> real, i: int)
    requires IsSquareRoot(sqrt)
    requires 1 < period <= i + 1 <= |P|
    ensures var b := Bollinger(P, period, k, sqrt);
      var std := RollingStd(P, period, sqrt)[i].value;
      && std >= 0.0
      && Square(std) == SampleVariance(Window(P, i, period)).value
      && b.upper[i].value - b.lower[i].value == 2.0 * k * std
      && (k >= 0.0 ==> b.lower[i].value <= b.middle[i].value <= b.upper[i].value)
  {
    var std := RollingStd(P, period, sqrt)[i].value;
    assert std == sqrt(SampleVariance(Window(P, i, period)).value);
    if k >= 0.0 {
      assert k * std >= 0.0;
    }
  }

  /** On a constant series all three bands meet at the constant once the
      window is full. */
  lemma BollingerOfConstant(P: seq<real>, period: nat, k: real, sqrt: real -> real, c: real, i: int)
    requires IsSquareRoot(sqrt)
    requires Constant(P, c)
    requires 1 < period <= i + 1 <= |P|
    ensures Bollinger(P, period, k, sqrt).upper[i] == Some(c)
    ensures Bollinger(P, period, k, sqrt).middle[i] == Some(c)
    ensures Bollinger(P, period, k, sqrt).lower[i] == Some(c)
  {
    var w := Window(P, i, period);
    VarianceOfConstant(w, c);
    SquareRootZero(sqrt, 0.0);
    SmaOfConstant(P, period, c, i);
  }

  /** After `fillna(0)`: all three bands are 0 before the first full window;
      with `period == 1` the sample deviation of a single price is NaN, so
      upper and lower bands are 0 everywhere while the middle band is the
      series itself. */
  lemma BollingerFilledPlaceholders(P: seq<real>, period: nat, k: real, sqrt: real -> real, i: int)
    requires 0 <= i < |P|
    ensures var b := Bollinger(P, period, k, sqrt);
      (i + 1 < period || period == 0) ==>
        FillNa(b.upper)[i] == 0.0 && FillNa(b.middle)[i] == 0.0 && FillNa(b.lower)[i] == 0.0
    ensures period == 1 ==>
      var b := Bollinger(P, period, k, sqrt);
      FillNa(b.upper)[i] == 0.0 && FillNa(b.lower)[i] == 0.0 && FillNa(b.middle)[i] == P[i]
  {
    if period == 1 {
      assert Window(P, i, 1) == [P[i]];
      assert Sum([P[i]]) == P[i];
    }
  }
}
