/** The computation behind each indicator and statistics endpoint: build the
    frame from the request's bars (an empty request has no `timestamp`
    column and fails), sort it by timestamp, run the engine on the close
    prices, replace NaN by 0 and pair the values with the sorted timestamps
    under an indicator name such as `SMA_20`. */
module Endpoints {
  import opened Series
  import opened Bars
  import opened Indicators
  import opened Statistics

  datatype Request = Request(symbol: string, data: seq<Bar>)

  /** Why an endpoint fails instead of answering. */
  datatype Error =
    | MissingTimestamp  // no bars: the frame has no `timestamp` column
    | InvalidWindow     // `rolling` refuses a negative window
    | InvalidSpan       // `ewm` refuses a span below 1

  datatype Result<T> = Ok(value: T) | Err(error: Error)

  datatype IndicatorResponse =
    IndicatorResponse(symbol: string, indicator: string, values: seq<real>, timestamps: seq<int>)

  datatype MacdResponse = MacdResponse(
    symbol: string, indicator: string,
    macdLine: seq<real>, signalLine: seq<real>, histogram: seq<real>, timestamps: seq<int>)

  datatype BollingerResponse = BollingerResponse(
    symbol: string, indicator: string,
    upperBand: seq<real>, middleBand: seq<real>, lowerBand: seq<real>, timestamps: seq<int>)

  /** NaN (None) stays possible in the scalar statistics: a single return
      has no standard deviation, and a single price has no return. */
  datatype StatisticsResponse = StatisticsResponse(
    symbol: string, meanReturn: Option<real>, volatility: Option<real>,
    sharpeRatio: Option<real>, maxDrawdown: Option<real>, totalReturn: real)

  /** The default risk-free rate of the Sharpe ratio. */
  const RiskFreeRate: real := 0.02

  // ------------------------------------------------------ indicator names

  function DigitChar(d: nat): (c: char)
    requires d < 10
    ensures '0' <= c <= '9'
  {
    "0123456789"[d]
  }

  function DigitValue(c: char): (d: nat)
    requires '0' <= c <= '9'
    ensures d < 10
  {
    c as int - '0' as int
  }

  predicate AllDigits(s: string) {
    forall i :: 0 <= i < |s| ==> '0' <= s[i] <= '9'
  }

  /** `str(n)` for a non-negative integer: its decimal digits, no leading
      zero. */
  function NatToString(n: nat): (s: string)
    ensures |s| > 0 && AllDigits(s)
    ensures s[0] == '0' ==> n == 0
  {
    if n < 10 then [DigitChar(n)]
    else NatToString(n / 10) + [DigitChar(n % 10)]
  }

  /** The value of a string of decimal digits. */
  function ParseDigits(s: string): nat
    requires AllDigits(s)
  {
    if |s| == 0 then 0
    else ParseDigits(s[..|s| - 1]) * 10 + DigitValue(s[|s| - 1])
  }

  /** The digits of `n` read back as `n`. */
  lemma {:induction false} ParseNatToString(n: nat)
    ensures ParseDigits(NatToString(n)) == n
  {
    if n < 10 {
      assert DigitValue(DigitChar(n)) == n;
    } else {
      var s := NatToString(n);
      assert s[..|s| - 1] == NatToString(n / 10);
      ParseNatToString(n / 10);
      assert DigitValue(DigitChar(n % 10)) == n % 10;
    }
  }

  /** `f"{kind}_{period}"`. */
  function IndicatorName(kind: string, period: nat): (name: string)
    ensures |name| > |kind| + 1 && name[..|kind| + 1] == kind + "_"
    ensures AllDigits(name[|kind| + 1..])
  {
    kind + "_" + NatToString(period)
  }

  /** The name carries the kind and, after the underscore, the period in
      decimal, from which the period is recovered. */
  lemma IndicatorNameEncodes(kind: string, period: nat)
    ensures var name := IndicatorName(kind, period);
      && name[..|kind| + 1] == kind + "_"
      && AllDigits(name[|kind| + 1..])
      && ParseDigits(name[|kind| + 1..]) == period
  {
    var name := IndicatorName(kind, period);
    assert name[|kind| + 1..] == NatToString(period);
    ParseNatToString(period);
  }

  // ------------------------------------------------------- normalisation

  /** The close prices the engines see: those of the bars in time order. */
  function PricesOf(req: Request): (P: seq<real>)
    requires AllValid(req.data)
    ensures |P| == |req.data|
    ensures Positive(P)
  {
    SortKeepsValid(req.data);
    Closes(SortByTime(req.data))
  }

  /** The timestamps every endpoint returns: the request's, ascending. */
  function SortedTimes(req: Request): (ts: seq<int>)
    ensures |ts| == |req.data|
    ensures Ascending(ts)
    ensures multiset(ts) == multiset(Timestamps(req.data))
  {
    SortedTimestamps(req.data);
    Timestamps(SortByTime(req.data))
  }

  /** The closes the engines see and the timestamps the routes return come
      from one time ordering of the request's bars, index for index: the
      `i`-th close is the close of a request bar whose timestamp is the
      `i`-th timestamp returned. */
  lemma PricesInTimeOrder(req: Request)
    requires AllValid(req.data)
    ensures exists s :: && SortedByTime(s) && multiset(s) == multiset(req.data)
                        && PricesOf(req) == Closes(s) && SortedTimes(req) == Timestamps(s)
    ensures forall i :: 0 <= i < |req.data| ==>
      exists j :: && 0 <= j < |req.data|
                  && req.data[j].timestamp == SortedTimes(req)[i]
                  && req.data[j].close == PricesOf(req)[i]
  {
    var s := SortByTime(req.data);
    assert PricesOf(req) == Closes(s) && SortedTimes(req) == Timestamps(s);
    forall i | 0 <= i < |req.data|
      ensures exists j :: && 0 <= j < |req.data|
                          && req.data[j].timestamp == SortedTimes(req)[i]
                          && req.data[j].close == PricesOf(req)[i]
    {
      assert s[i] in multiset(req.data);
      var j :| 0 <= j < |req.data| && req.data[j] == s[i];
    }
  }

  /** Bars sent latest first are reordered: the closes follow the time
      order, paired with their timestamps. */
  lemma PricesExample()
    ensures var req := Request("X", [Bar(2, 1.0, 1.0, 1.0, 5.0, 0.0), Bar(1, 1.0, 1.0, 1.0, 7.0, 0.0)]);
      PricesOf(req) == [7.0, 5.0] && SortedTimes(req) == [1, 2]
  {
    var a, b := Bar(2, 1.0, 1.0, 1.0, 5.0, 0.0), Bar(1, 1.0, 1.0, 1.0, 7.0, 0.0);
    assert SortByTime([b]) == [b];
    assert SortByTime([a, b]) == Insert(a, [b]) == [b, a];
  }

  // ------------------------------------------------------------- SMA route

  /** What the SMA route returns for close prices `P`: 0 where the window
      is not full, and otherwise the value whose `period` multiple is the
      sum of the window's prices. */
  predicate FilledSma(P: seq<real>, period: nat, v: seq<real>) {
    && |v| == |P|
    && (forall i :: 0 <= i < |P| && (i + 1 < period || period == 0) ==> v[i] == 0.0)
    && (forall i :: 0 <= i < |P| && 0 < period <= i + 1 ==>
          v[i] * (period as real) == Sum(P[i + 1 - period .. i + 1]))
  }

  lemma SmaFilled(P: seq<real>, period: nat)
    ensures FilledSma(P, period, FillNa(Sma(P, period)))
  {
  }

  /** `/indicators/sma`. */
  function SmaEndpoint(req: Request, period: int): (r: Result<IndicatorResponse>)
    requires AllValid(req.data)
    ensures |req.data| == 0 ==> r == Err(MissingTimestamp)
    ensures |req.data| > 0 && period < 0 ==> r == Err(InvalidWindow)
    ensures r.Ok? ==> var v := r.value;
      && period >= 0
      && v.symbol == req.symbol && v.indicator == IndicatorName("SMA", period)
      && v.timestamps == SortedTimes(req)
      && FilledSma(PricesOf(req), period, v.values)
  {
    if |req.data| == 0 then Err(MissingTimestamp)
    else if period < 0 then Err(InvalidWindow)
    else
      var P := PricesOf(req);
      SmaFilled(P, period);
      Ok(IndicatorResponse(req.symbol, IndicatorName("SMA", period), FillNa(Sma(P, period)), SortedTimes(req)))
  }

  /** Bars that all close at `c` give `c` on every full window. */
  lemma SmaEndpointOfConstant(req: Request, period: int, c: real)
    requires AllValid(req.data) && |req.data| > 0 && period > 0
    requires forall j :: 0 <= j < |req.data| ==> req.data[j].close == c
    ensures forall i :: period - 1 <= i < |req.data| ==> SmaEndpoint(req, period).value.values[i] == c
  {
    var P := PricesOf(req);
    assert Constant(P, c) by {
      forall i | 0 <= i < |P| ensures P[i] == c {
        SortedClosesFromBars(req.data, i);
      }
    }
    forall i | period - 1 <= i < |P| ensures SmaEndpoint(req, period).value.values[i] == c {
      SmaOfConstant(P, period, c, i);
    }
  }

  /** The worked example: over ten closes, the 3-bar SMA starts with two
      placeholders and then 101, the mean of 100, 102 and 101. */
  lemma SmaExample()
    ensures var P := [100.0, 102.0, 101.0, 105.0, 103.0, 108.0, 107.0, 110.0, 109.0, 112.0];
      var v := FillNa(Sma(P, 3));
      v[0] == 0.0 && v[1] == 0.0 && v[2] == 101.0
  {
    var P := [100.0, 102.0, 101.0, 105.0, 103.0, 108.0, 107.0, 110.0, 109.0, 112.0];
    assert P[0..3] == [100.0, 102.0, 101.0];
    assert Sum([100.0, 102.0, 101.0]) == 303.0 by {
      assert [100.0, 102.0, 101.0][..2] == [100.0, 102.0];
      assert [100.0, 102.0][..1] == [100.0];
      assert [100.0][..0] == [];
    }
  }

  // ------------------------------------------------------------- EMA route

  /** `/indicators/ema`: `ewm` refuses a span below 1; the values follow
      the smoothing recurrence from the first close and hold no
      placeholder. */
  function EmaEndpoint(req: Request, period: int): (r: Result<IndicatorResponse>)
    requires AllValid(req.data)
    ensures |req.data| == 0 ==> r == Err(MissingTimestamp)
    ensures |req.data| > 0 && period < 1 ==> r == Err(InvalidSpan)
    ensures r.Ok? ==> var v := r.value;
      && period >= 1
      && v.symbol == req.symbol && v.indicator == IndicatorName("EMA", period)
      && v.timestamps == SortedTimes(req)
      && EmaRecurrence(PricesOf(req), period, v.values)
  {
    if |req.data| == 0 then Err(MissingTimestamp)
    else if period < 1 then Err(InvalidSpan)
    else
      var P := PricesOf(req);
      var ema := Ema(P, period);
      FillNaOfDefined(ema);
      EmaIsRecurrence(P, period, ema);
      Ok(IndicatorResponse(req.symbol, IndicatorName("EMA", period), FillNa(Lift(ema)), SortedTimes(req)))
  }

  // ------------------------------------------------------------- RSI route

  /** The filled RSI `x` at a full window `i`: 100 exactly when the mean
      loss is 0 and the mean gain positive, 0 when the price does not move
      over the window, and `100 · gain / (gain + loss)` otherwise. */
  predicate FilledRsiAt(P: seq<real>, period: nat, i: int, x: real)
    requires 0 < period <= i + 1 <= |P|
  {
    var g, l := GainMean(P, period)[i], LossMean(P, period)[i];
    && g.Some? && l.Some?
    && (x == 100.0 <==> l.value == 0.0 && g.value > 0.0)
    && (FlatWindow(P, i, period) ==> x == 0.0)
    && (!FlatWindow(P, i, period) ==> x * (g.value + l.value) == 100.0 * g.value)
  }

  /** What the RSI route returns for close prices `P`: values in [0, 100],
      0 before the first full window, and the filled RSI of each full
      window. */
  predicate FilledRsi(P: seq<real>, period: nat, v: seq<real>) {
    && |v| == |P|
    && (forall i :: 0 <= i < |P| ==> 0.0 <= v[i] <= 100.0)
    && (forall i :: 0 <= i < |P| && (i + 1 < period || period == 0) ==> v[i] == 0.0)
    && (forall i :: 0 <= i < |P| && 0 < period <= i + 1 ==> FilledRsiAt(P, period, i, v[i]))
  }

  lemma RsiFilled(P: seq<real>, period: nat)
    ensures FilledRsi(P, period, FillNa(Rsi(P, period)))
  {
    var v := FillNa(Rsi(P, period));
    forall i | 0 <= i < |P| && (i + 1 < period || period == 0) ensures v[i] == 0.0 {
      RsiFilledPlaceholders(P, period, i);
    }
    forall i | 0 <= i < |P| && 0 < period <= i + 1 ensures FilledRsiAt(P, period, i, v[i]) {
      RsiFilledValue(P, period, i);
    }
  }

  /** On a window over which the price moves, the mean gain and loss are not
      both 0. */
  lemma MovingWindowMeans(P: seq<real>, period: nat, i: int)
    requires 0 < period <= i + 1 <= |P| && !FlatWindow(P, i, period)
    ensures GainMean(P, period)[i].Some? && LossMean(P, period)[i].Some?
    ensures GainMean(P, period)[i].value + LossMean(P, period)[i].value > 0.0
  {
    RsiDefinedIff(P, period, i);
    RollingMeanNonnegative(Gains(Diff(P)), period);
    RollingMeanNonnegative(Losses(Diff(P)), period);
    assert Rsi(P, period)[i] == RsiValue(GainMean(P, period)[i], LossMean(P, period)[i]);
  }

  /** Two values that both satisfy the full-window description are equal. */
  lemma FilledRsiAtUnique(P: seq<real>, period: nat, i: int, x: real, y: real)
    requires 0 < period <= i + 1 <= |P|
    requires FilledRsiAt(P, period, i, x) && FilledRsiAt(P, period, i, y)
    ensures x == y
  {
    if !FlatWindow(P, i, period) {
      MovingWindowMeans(P, period, i);
      var g, l := GainMean(P, period)[i].value, LossMean(P, period)[i].value;
      assert x == 100.0 * g / (g + l);
      assert y == 100.0 * g / (g + l);
    }
  }

  /** The description of the RSI route admits exactly one series: the filled
      RSI of the closes. */
  lemma FilledRsiUnique(P: seq<real>, period: nat, v: seq<real>)
    ensures FilledRsi(P, period, v) <==> v == FillNa(Rsi(P, period))
  {
    var w := FillNa(Rsi(P, period));
    RsiFilled(P, period);
    if FilledRsi(P, period, v) {
      forall i | 0 <= i < |P| ensures v[i] == w[i] {
        if 0 < period <= i + 1 {
          FilledRsiAtUnique(P, period, i, v[i], w[i]);
        }
      }
    }
  }

  /** Closes 1, 2, 3 with a 2-bar window: the first window is not full, and
      the next two only rise, so the route returns 0, 100, 100. */
  lemma RsiExample()
    ensures FillNa(Rsi([1.0, 2.0, 3.0], 2)) == [0.0, 100.0, 100.0]
  {
    var P := [1.0, 2.0, 3.0];
    RsiFilledPlaceholders(P, 2, 0);
    RisingWindowAt(P, 1);
    RisingWindowAt(P, 2);
  }

  /** On closes 1, 2, 3 every full 2-bar window only rises, so its filled
      RSI is 100. */
  lemma RisingWindowAt(P: seq<real>, i: int)
    requires P == [1.0, 2.0, 3.0] && 1 <= i < 3
    ensures FillNa(Rsi(P, 2))[i] == 100.0
  {
    var losses := Losses(Diff(P));
    assert forall j :: 0 <= j < 3 ==> losses[j] == 0.0;
    assert P[i] != P[i - 1];
    assert !FlatWindow(P, i, 2);
    WindowMeanZeroIff(losses, 2, i);
    MovingWindowMeans(P, 2, i);
    RsiFilledValue(P, 2, i);
  }

  /** `/indicators/rsi`. */
  function RsiEndpoint(req: Request, period: int): (r: Result<IndicatorResponse>)
    requires AllValid(req.data)
    ensures |req.data| == 0 ==> r == Err(MissingTimestamp)
    ensures |req.data| > 0 && period < 0 ==> r == Err(InvalidWindow)
    ensures r.Ok? ==> var v := r.value;
      && period >= 0
      && v.symbol == req.symbol && v.indicator == IndicatorName("RSI", period)
      && v.timestamps == SortedTimes(req)
      && FilledRsi(PricesOf(req), period, v.values)
  {
    if |req.data| == 0 then Err(MissingTimestamp)
    else if period < 0 then Err(InvalidWindow)
    else
      var P := PricesOf(req);
      RsiFilled(P, period);
      Ok(IndicatorResponse(req.symbol, IndicatorName("RSI", period), FillNa(Rsi(P, period)), SortedTimes(req)))
  }

  /** On a full window the filled RSI is 100 exactly when the mean loss is 0
      and the mean gain positive, 0 when the price does not move over the
      window, and `100 · gain / (gain + loss)` otherwise. */
  lemma RsiFilledValue(P: seq<real>, period: nat, i: int)
    requires 0 < period <= i + 1 <= |P|
    ensures var v := FillNa(Rsi(P, period))[i];
      var g, l := GainMean(P, period)[i], LossMean(P, period)[i];
      && g.Some? && l.Some?
      && (v == 100.0 <==> l.value == 0.0 && g.value > 0.0)
      && (FlatWindow(P, i, period) ==> v == 0.0)
      && (!FlatWindow(P, i, period) ==> v * (g.value + l.value) == 100.0 * g.value)
  {
    RsiFromMeans(P, period, i);
    RsiDefinedIff(P, period, i);
  }

  // ------------------------------------------------------------ MACD route

  /** `/indicators/macd`. */
  function MacdEndpoint(req: Request, fast: int, slow: int, signal: int): (r: Result<MacdResponse>)
    requires AllValid(req.data)
    ensures |req.data| == 0 ==> r == Err(MissingTimestamp)
    ensures |req.data| > 0 && (fast < 1 || slow < 1 || signal < 1) ==> r == Err(InvalidSpan)
    ensures r.Ok? ==> var m := r.value; var P := PricesOf(req);
      && fast >= 1 && slow >= 1 && signal >= 1
      && m.symbol == req.symbol && m.indicator == "MACD"
      && m.timestamps == SortedTimes(req)
      && |m.macdLine| == |m.signalLine| == |m.histogram| == |P|
      && (forall i :: 0 <= i < |P| ==> m.macdLine[i] == Ema(P, fast)[i] - Ema(P, slow)[i])
      && m.signalLine == Ema(m.macdLine, signal)
      && (forall i :: 0 <= i < |P| ==> m.histogram[i] == m.macdLine[i] - m.signalLine[i])
  {
    if |req.data| == 0 then Err(MissingTimestamp)
    else if fast < 1 || slow < 1 || signal < 1 then Err(InvalidSpan)
    else
      var m := Macd(PricesOf(req), fast, slow, signal);
      FillNaOfDefined(m.macdLine);
      FillNaOfDefined(m.signalLine);
      FillNaOfDefined(m.histogram);
      Ok(MacdResponse(req.symbol, "MACD",
        FillNa(Lift(m.macdLine)), FillNa(Lift(m.signalLine)), FillNa(Lift(m.histogram)),
        SortedTimes(req)))
  }

  // ------------------------------------------------------- Bollinger route

  /** What the Bollinger route returns for close prices `P`: the filled SMA
      as middle band; upper and lower bands 0 where the sample deviation is
      NaN (window not full, or a single price), and otherwise `k` rolling
      sample deviations above and below the middle band. */
  predicate FilledBands(P: seq<real>, period: nat, k: real, sqrt: real -> real,
                        upper: seq<real>, middle: seq<real>, lower: seq<real>)
  {
    && |upper| == |middle| == |lower| == |P|
    && middle == FillNa(Sma(P, period))
    && (forall i :: 0 <= i < |P| && (i + 1 < period || period <= 1) ==>
          upper[i] == 0.0 && lower[i] == 0.0)
    && (forall i :: 0 <= i < |P| && 1 < period <= i + 1 ==>
          && upper[i] - middle[i] == k * RollingStd(P, period, sqrt)[i].value
          && middle[i] - lower[i] == k * RollingStd(P, period, sqrt)[i].value)
  }

  lemma BollingerFilled(P: seq<real>, period: nat, k: real, sqrt: real -> real)
    ensures var b := Bollinger(P, period, k, sqrt);
      FilledBands(P, period, k, sqrt, FillNa(b.upper), FillNa(b.middle), FillNa(b.lower))
  {
  }

  /** `/indicators/bollinger`. */
  function BollingerEndpoint(req: Request, period: int, k: real, sqrt: real -> real): (r: Result<BollingerResponse>)
    requires AllValid(req.data)
    ensures |req.data| == 0 ==> r == Err(MissingTimestamp)
    ensures |req.data| > 0 && period < 0 ==> r == Err(InvalidWindow)
    ensures r.Ok? ==> var b := r.value;
      && period >= 0
      && b.symbol == req.symbol && b.indicator == "Bollinger Bands"
      && b.timestamps == SortedTimes(req)
      && FilledBands(PricesOf(req), period, k, sqrt, b.upperBand, b.middleBand, b.lowerBand)
  {
    if |req.data| == 0 then Err(MissingTimestamp)
    else if period < 0 then Err(InvalidWindow)
    else
      var P := PricesOf(req);
      var bands := Bollinger(P, period, k, sqrt);
      BollingerFilled(P, period, k, sqrt);
      Ok(BollingerResponse(req.symbol, "Bollinger Bands",
        FillNa(bands.upper), FillNa(bands.middle), FillNa(bands.lower), SortedTimes(req)))
  }

  /** On a full window of at least two prices the returned bands are `2·k`
      sample standard deviations apart, the deviation's square being the
      window's sample variance; before the window fills all three are 0. */
  lemma BollingerEndpointWidth(req: Request, period: int, k: real, sqrt: real -> real, i: int)
    requires AllValid(req.data) && IsSquareRoot(sqrt)
    requires 0 <= period && 0 <= i < |req.data|
    ensures var b := BollingerEndpoint(req, period, k, sqrt).value; var P := PricesOf(req);
      && (i + 1 < period ==> b.upperBand[i] == 0.0 && b.middleBand[i] == 0.0 && b.lowerBand[i] == 0.0)
      && (1 < period <= i + 1 ==>
            var std := RollingStd(P, period, sqrt)[i].value;
            && std >= 0.0
            && Square(std) == SampleVariance(P[i + 1 - period .. i + 1]).value
            && b.upperBand[i] - b.lowerBand[i] == 2.0 * k * std)
  {
    var P := PricesOf(req);
    BollingerFilledPlaceholders(P, period, k, sqrt, i);
    if 1 < period <= i + 1 {
      BollingerWidth(P, period, k, sqrt, i);
    }
  }

  // ------------------------------------------------------ statistics route

  /** The statistics of close prices `P` in time order, with the default
      risk-free rate and annualisation (the body of the summary route). */
  function Summarize(symbol: string, P: seq<real>, sqrt: real -> real): (s: StatisticsResponse)
    requires Positive(P) && |P| > 0
    ensures s.symbol == symbol
    ensures s.meanReturn.Some? <==> |P| >= 2
    ensures s.volatility.Some? <==> |P| >= 3
    ensures s.sharpeRatio.Some? <==> |P| >= 3
    ensures s.maxDrawdown.Some? <==> |P| >= 2
    ensures s.volatility == Some(0.0) ==> s.sharpeRatio == Some(0.0)
    ensures s.maxDrawdown.Some? ==> -1.0 < s.maxDrawdown.value <= 0.0
    ensures |P| >= 2 ==> s.maxDrawdown == MinOf(PriceDrawdowns(P))
    ensures s.totalReturn == P[|P| - 1] / P[0] - 1.0
    ensures s.totalReturn > -1.0
    ensures s.totalReturn == 0.0 <==> P[|P| - 1] == P[0]
  {
    var R := PctChange(P);
    ReturnsDropFirst(P);
    MaxDrawdownBounds(P);
    TotalReturnIsCompounded(P);
    StatisticsResponse(symbol,
      MeanReturn(R), Volatility(R, true, sqrt), Sharpe(R, RiskFreeRate, sqrt),
      MaxDrawdown(P), TotalReturn(P))
  }

  /** The mean return is 252 times the mean of the `n - 1` step returns. */
  lemma SummaryMeanReturn(symbol: string, P: seq<real>, sqrt: real -> real)
    requires Positive(P) && |P| >= 2
    ensures Summarize(symbol, P, sqrt).meanReturn == Some(Mean(StepReturns(P)).value * TradingDays)
  {
    assert Summarize(symbol, P, sqrt).meanReturn == MeanReturn(PctChange(P));
    MeanReturnOfPrices(P);
  }

  /** The reported volatility is the sample deviation of the step returns,
      annualised: non-negative, its square is 252 times their sample
      variance, and it is 0 exactly when every step return is the same. */
  lemma SummaryVolatility(symbol: string, P: seq<real>, sqrt: real -> real)
    requires IsSquareRoot(sqrt)
    requires Positive(P) && |P| >= 3
    ensures var vol := Summarize(symbol, P, sqrt).volatility.value; var r := StepReturns(P);
      && vol >= 0.0
      && Square(vol) == TradingDays * SampleVariance(r).value
      && (vol == 0.0 <==> Constant(r, r[0]))
  {
    assert Summarize(symbol, P, sqrt).volatility == Volatility(PctChange(P), true, sqrt);
    ReturnsDropFirst(P);
    VolatilityMeaning(PctChange(P), true, sqrt);
  }

  /** The reported Sharpe ratio is 0 for a zero volatility and otherwise the
      excess of the reported mean return over the risk-free rate divided by
      the reported volatility. */
  lemma SummarySharpe(symbol: string, P: seq<real>, sqrt: real -> real)
    requires Positive(P) && |P| >= 3
    ensures var s := Summarize(symbol, P, sqrt);
      && s.volatility.Some?
      && SharpeAgrees(s.meanReturn, s.volatility, s.sharpeRatio, RiskFreeRate)
  {
    var R := PctChange(P);
    assert Summarize(symbol, P, sqrt) == StatisticsResponse(symbol, MeanReturn(R), Volatility(R, true, sqrt),
      Sharpe(R, RiskFreeRate, sqrt), MaxDrawdown(P), TotalReturn(P));
    SharpeAgreesWithInputs(R, RiskFreeRate, sqrt);
  }

  /** With step returns that vary, the reported Sharpe ratio is positive,
      negative or 0 exactly as the reported mean return is above, below or at
      the risk-free rate. */
  lemma SummarySharpeSign(symbol: string, P: seq<real>, sqrt: real -> real)
    requires IsSquareRoot(sqrt)
    requires Positive(P) && |P| >= 3 && !Constant(StepReturns(P), StepReturns(P)[0])
    ensures var s := Summarize(symbol, P, sqrt);
      && (s.sharpeRatio.value > 0.0 <==> s.meanReturn.value > RiskFreeRate)
      && (s.sharpeRatio.value < 0.0 <==> s.meanReturn.value < RiskFreeRate)
      && (s.sharpeRatio.value == 0.0 <==> s.meanReturn.value == RiskFreeRate)
  {
    var s := Summarize(symbol, P, sqrt);
    var R := PctChange(P);
    assert s.meanReturn == MeanReturn(R);
    assert s.sharpeRatio == Sharpe(R, RiskFreeRate, sqrt);
    ReturnsDropFirst(P);
    SharpeSign(R, RiskFreeRate, sqrt);
  }

  /** The reported maximum drawdown is 0 exactly when the closes never fall
      from the second bar on. */
  lemma SummaryDrawdownZeroIff(symbol: string, P: seq<real>, sqrt: real -> real)
    requires Positive(P) && |P| >= 2
    ensures Summarize(symbol, P, sqrt).maxDrawdown == Some(0.0)
      <==> forall j :: 1 <= j < |P| - 1 ==> P[j] <= P[j + 1]
  {
    assert Summarize(symbol, P, sqrt).maxDrawdown == MaxDrawdown(P);
    MaxDrawdownZeroIff(P);
  }

  /** Closes flat at `c` over three or more bars summarise to zeros. */
  lemma SummaryOfConstant(symbol: string, P: seq<real>, sqrt: real -> real, c: real)
    requires IsSquareRoot(sqrt)
    requires Positive(P) && |P| >= 3 && Constant(P, c)
    ensures Summarize(symbol, P, sqrt)
      == StatisticsResponse(symbol, Some(0.0), Some(0.0), Some(0.0), Some(0.0), 0.0)
  {
    StatisticsOfConstant(P, RiskFreeRate, sqrt, c);
  }

  /** `/statistics/summary`: fails on an empty request, and otherwise
      summarises the closes in time order. */
  function StatisticsEndpoint(req: Request, sqrt: real -> real): (r: Result<StatisticsResponse>)
    requires AllValid(req.data)
    ensures r.Err? <==> |req.data| == 0
    ensures r.Err? ==> r.error == MissingTimestamp
    ensures r.Ok? ==> r.value == Summarize(req.symbol, PricesOf(req), sqrt)
  {
    if |req.data| == 0 then Err(MissingTimestamp)
    else Ok(Summarize(req.symbol, PricesOf(req), sqrt))
  }
}
