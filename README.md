# Quantitative analysis core, modelled in Dafny

This project models the numeric core of the Quantitative Analysis API
(`app/main.py`): the indicator engine (`TechnicalIndicators`: SMA, EMA, RSI,
MACD, Bollinger bands), the statistics engine (`StatisticalAnalysis`:
returns, volatility, Sharpe ratio, maximum drawdown, correlation) and the
normalisation every endpoint performs around them (build the frame, sort the
bars by timestamp, take the close prices, `fillna(0)`, name the indicator
`SMA_<period>` and so on, and the summary formulas of `/statistics/summary`).

The pandas float code is idealised over exact `real`s:

- a pandas Series is a `seq<real>`, or a `seq<Option<real>>` where it can hold
  NaN (`None`); `fillna(0)` is `Series.FillNa`, and the `skipna` aggregations
  (`mean`, `std`, `min`) look at `Series.Dropna`, while `cumprod` and
  `expanding().max()` keep the NaN positions;
- IEEE outcomes the code relies on are explicit branches: an infinite RS gives
  an RSI of 100, `0/0` gives NaN, a NaN volatility fails the Sharpe zero test;
- the square root (`np.sqrt`, and the one inside `std()`) is a parameter
  `sqrt: real -> real`; the lemmas that need its meaning require
  `Series.IsSquareRoot(sqrt)` (non-negative, squares back to its argument);
- timestamps are integers; a bar is `Bars.Bar`, and the request model's
  `close > 0` (and the other field constraints) is the precondition
  `Bars.AllValid`, which makes every division by a price safe.

Files: `series.dfy` (pandas operations: sums, means, sample variance, rolling
windows, NaN handling, min/max), `indicators.dfy` (module `Indicators`),
`statistics.dfy` (module `Statistics`), `bars.dfy` (bars, sorting,
projections) and `endpoints.dfy` (the per-route computation and its errors).

Behaviour of the code worth noting, which the model follows:

- the bars are sorted with pandas' default quicksort, which is not stable;
  the model sorts stably (`Bars.SortByTime`) and proves that the returned
  timestamps do not depend on the order of ties
  (`Bars.TimestampsIndependentOfTies`), while the values at tied timestamps
  may;
- the first compounded return is NaN, so the running peak of the drawdown
  starts at `P[1]/P[0]`, not at 1: a fall from the first price to the second
  is never seen as a drawdown (`Statistics.MaxDrawdownZeroIff`);
- RSI is 100 when the mean loss is 0 and the mean gain positive, but when both
  are 0 the value is `0/0`, NaN, and the route returns 0;
- Bollinger bands use the sample standard deviation (divisor `n-1`), so a
  window of one price has no deviation: after `fillna` its upper and lower
  bands are 0 and its middle band is the price;
- correlation of a constant series is NaN (`None`), not an error, and is not
  wired to any route;
- no parameter check beyond pandas' own: a negative rolling window and a span
  below 1 fail, `fast >= slow` is accepted, and a single bar gets NaN mean
  return, volatility, Sharpe ratio and drawdown (its total return is 0)
  rather than an error; an empty request fails because the frame has no
  `timestamp` column.

## Model

| member | source | states |
|---|---|---|
| `Series.Mean` | app/main.py:245 | the mean of NaN-free values is defined exactly on a non-empty series and times the count gives the sum |
| `Series.MeanWithin` | app/main.py:61 | a mean lies between any lower and upper bound of its values |
| `Series.SampleVariance` | app/main.py:106 | the `ddof=1` variance is defined exactly from two values on and is non-negative |
| `Series.VarianceZeroIffConstant` | app/main.py:116 | the sample variance is 0 exactly when every value equals the first |
| `Series.RollingStd` | app/main.py:91 | the rolling sample deviation is defined exactly where `1 < period <= i + 1` |
| `Series.FillNa` | app/main.py:162 | `fillna(0)` keeps every defined value and puts 0 in place of each NaN, one entry per entry |
| `Series.RollingMean` | app/main.py:61 | `rolling(window).mean()` is defined exactly on full windows, where `period` times it is the window's sum |
| `Series.FillNaOfDefined` | app/main.py:178 | `fillna(0)` leaves a series without NaN unchanged |
| `Series.DropnaOfLift` | app/main.py:106 | the NaN-skipping aggregations see the whole of a series without NaN |
| `Series.DropnaFrom` | app/main.py:126 | every value kept by NaN-skipping comes from a defined entry |
| `Series.DropnaKeeps` | app/main.py:126 | every defined entry is kept by NaN-skipping |
| `Series.MinOf` | app/main.py:126 | `min()` is defined on a non-empty series, bounds every value from below and is one of them |
| `Series.Peak` | app/main.py:124 | the maximum bounds every value from above and is one of them |
| `Indicators.Sma` | app/main.py:59-61 | one value per price, defined exactly on full windows, where `period` times it is the sum of the last `period` prices |
| `Indicators.SmaOfConstant` | app/main.py:59-61 | a constant series has its constant as SMA on every full window |
| `Indicators.SmaWithinWindow` | app/main.py:59-61 | the SMA lies between any bounds of its window |
| `Indicators.SmaSlides` | app/main.py:59-61 | consecutive SMAs differ by the entering minus the leaving price over `period` |
| `Indicators.Alpha` | app/main.py:66 | the smoothing factor `2/(span+1)` lies in (0, 1] for `span >= 1` |
| `Indicators.Ema` | app/main.py:64-66 | the EMA has length `n`, starts at `P[0]` and follows `y[i] = a·P[i] + (1-a)·y[i-1]` |
| `Indicators.EmaIsRecurrence` | app/main.py:64-66 | a series follows the `adjust=False` recurrence exactly when it is the EMA |
| `Indicators.EmaOfConstant` | app/main.py:64-66 | the EMA of a constant series is that constant at every index |
| `Indicators.EmaWithin` | app/main.py:64-66 | every EMA value lies between any bounds of the prices up to it |
| `Indicators.EmaOfPrefix` | app/main.py:64-66 | the EMA of a prefix is the prefix of the EMA (no look-ahead) |
| `Indicators.EmaSpanOne` | app/main.py:64-66 | with span 1 the EMA is the series itself |
| `Indicators.Macd` | app/main.py:78-85 | MACD line is fast EMA minus slow EMA, signal is its EMA, histogram is line minus signal, all of length `n` |
| `Indicators.MacdStartsAtZero` | app/main.py:78-85 | all three MACD outputs are 0 at the first index |
| `Indicators.MacdZeroWhenEmasAgree` | app/main.py:78-85 | when fast and slow EMAs agree, all three MACD outputs are 0 everywhere |
| `Indicators.MacdOfConstant` | app/main.py:78-85 | a constant series has all three MACD outputs 0 everywhere |
| `Indicators.Diff` | app/main.py:71 | one entry per price; its meaning is stated by `Indicators.WindowMovesIff`: a window's gains and losses are all 0 exactly when the price does not move over it |
| `Indicators.Gains` | app/main.py:72 | the gains of `diff().where(> 0, 0)` are non-negative |
| `Indicators.Losses` | app/main.py:73 | the losses of `-diff().where(< 0, 0)` are non-negative |
| `Indicators.GainMean` | app/main.py:72 | the mean gain is defined exactly on full windows and is non-negative there |
| `Indicators.LossMean` | app/main.py:73 | the mean loss is defined exactly on full windows and is non-negative there |
| `Indicators.RollingMeanNonnegative` | app/main.py:72-73 | rolling means of non-negative values are non-negative |
| `Indicators.RsiFormula` | app/main.py:74-75 | with a positive loss, `100 - 100/(1 + g/l)` lies in [0, 100), equals `100·g/(g+l)` and is 0 exactly when `g` is |
| `Indicators.RsiValue` | app/main.py:74-75 | RSI of one window is defined unless a mean is NaN or both are 0, lies in [0, 100], is `100·g/(g+l)`, and is 100 exactly for zero loss and positive gain |
| `Indicators.Rsi` | app/main.py:69-75 | the RSI series has length `n` and every defined value lies in [0, 100] |
| `Indicators.RsiFromMeans` | app/main.py:69-75 | RSI at `i` is 100 exactly when the loss mean is 0 and the gain mean positive, and otherwise `100·gain/(gain+loss)` |
| `Indicators.WindowMovesIff` | app/main.py:71-73 | a window's gains and losses are all 0 exactly when the price does not move over it |
| `Indicators.WindowMeanZeroIff` | app/main.py:72-73 | a full window of non-negative values has mean 0 exactly when all its values are 0 |
| `Indicators.RsiDefinedIff` | app/main.py:69-75 | RSI is defined exactly on full windows over which the price moves |
| `Indicators.RsiFilledPlaceholders` | app/main.py:194 | after `fillna(0)` RSI is 0 before the first full window and on flat windows |
| `Indicators.Bollinger` | app/main.py:88-94 | middle band is the SMA; upper and lower are defined exactly where the sample deviation is, `k` deviations above and below |
| `Indicators.BollingerWidth` | app/main.py:88-94 | on a full window of two or more prices the deviation squares to the window's sample variance and the bands are `2·k·std` apart, ordered for `k >= 0` |
| `Indicators.BollingerOfConstant` | app/main.py:88-94 | on a constant series all three bands equal the constant on full windows |
| `Indicators.BollingerFilledPlaceholders` | app/main.py:228-230 | after `fillna(0)` all bands are 0 before the first full window; with period 1 upper and lower are 0 and middle is the price |
| `Statistics.PctChange` | app/main.py:99-101 | one entry per price; its values are stated by `Statistics.ReturnsDropFirst`: NaN first, then the step returns |
| `Statistics.StepReturns` | app/main.py:99-101 | there are `n-1` returns `P[j+1]/P[j] - 1`, each above -1 |
| `Statistics.ReturnsDropFirst` | app/main.py:99-101 | `pct_change` is NaN first and then the step returns, which are exactly what NaN-skipping sees |
| `Statistics.MeanReturn` | app/main.py:245 | the annualised mean return is defined when some return is, and times the count is 252 times the sum of returns |
| `Statistics.MeanReturnOfPrices` | app/main.py:245 | over prices the mean return is 252 times the mean of the `n-1` step returns |
| `Statistics.Volatility` | app/main.py:104-109 | volatility is defined exactly from two returns on |
| `Statistics.Annualised` | app/main.py:108 | scaling a deviation by `sqrt(252)` gives a non-negative value whose square is 252 times the variance, 0 exactly for zero variance |
| `Statistics.VolatilityMeaning` | app/main.py:104-109 | volatility is non-negative, squares to the (annualised) sample variance, and is 0 exactly when all returns are equal |
| `Statistics.Sharpe` | app/main.py:112-118 | Sharpe is 0 when volatility is 0, NaN when it is NaN, and otherwise times the volatility gives the excess return |
| `Statistics.SharpeAgreesWithInputs` | app/main.py:112-118 | the ratio, the mean return and the volatility of the same returns stand in the Sharpe relation |
| `Statistics.SharpeOfSteadyReturns` | app/main.py:112-118 | with equal returns the ratio is 0 whatever the risk-free rate |
| `Statistics.VolatilityPositive` | app/main.py:115 | with returns that vary the annualised volatility is positive |
| `Statistics.SharpeSignOf` | app/main.py:112-118 | with positive volatility the ratio has the sign of the excess return |
| `Statistics.SharpeSign` | app/main.py:112-118 | with returns that vary the ratio is positive, negative or 0 exactly as the mean return is above, below or at the risk-free rate |
| `Statistics.OnePlus` | app/main.py:123 | one entry per return; with `Statistics.CumProd` its running product is stated by `Statistics.CumulativeAt` |
| `Statistics.CumProd` | app/main.py:123 | one entry per entry; its values are stated by `Statistics.CumulativeAt`: NaN at 0, then `P[i]/P[0]` |
| `Statistics.ExpandingMax` | app/main.py:124 | one entry per entry; its values are stated by `Statistics.RunningPeak` and `Statistics.PeakOfGrowth`: NaN at 0, then the running price peak over the first price |
| `Statistics.Drawdowns` | app/main.py:125 | one entry per entry; its values are stated by `Statistics.DrawdownAt`: NaN at 0, then price over running peak minus 1 |
| `Statistics.ProductTelescopes` | app/main.py:123 | the running product of `1 + returns` at `i` is `P[i]/P[0]` |
| `Statistics.CumulativeAt` | app/main.py:123 | the cumulative series is NaN at 0 and `P[i]/P[0]` after |
| `Statistics.CumulativeIsGrowth` | app/main.py:123 | the cumulative series is NaN followed by each later price relative to the first |
| `Statistics.RunningPeak` | app/main.py:124 | the expanding maximum is NaN at 0 and then the largest growth from index 1 |
| `Statistics.PricePeak` | app/main.py:124 | the running price peak from index 1 is positive, at least every price in its range and one of them |
| `Statistics.PeakOfGrowth` | app/main.py:124 | the expanding maximum is the running price peak relative to the first price |
| `Statistics.DrawdownAt` | app/main.py:125 | the drawdown at `i > 0` is the price over its running peak minus 1, and NaN at 0 |
| `Statistics.DrawdownsAreRelativeToPeak` | app/main.py:121-125 | the drawdown series equals NaN followed by the price-based reference drawdowns |
| `Statistics.MaxDrawdown` | app/main.py:121-126 | `drawdown.min()` is the minimum of the price-based reference drawdowns; `Statistics.MaxDrawdownBounds` adds that it is defined from two prices on and lies in (-1, 0] |
| `Statistics.DrawdownsSeenByMin` | app/main.py:125-126 | the drawdowns `min()` sees, NaN skipped, are exactly the price-based reference drawdowns |
| `Statistics.DrawdownEntry` | app/main.py:125 | each drawdown lies in (-1, 0] and is 0 exactly at a running peak |
| `Statistics.MaxDrawdownBounds` | app/main.py:121-126 | the maximum drawdown is defined exactly from two prices on and lies in (-1, 0] |
| `Statistics.MaxDrawdownZeroIff` | app/main.py:121-126 | the maximum drawdown is 0 exactly when the prices never fall from index 1 on |
| `Statistics.TotalReturn` | app/main.py:249 | the total return lies above -1 and is 0 exactly when the last price equals the first |
| `Statistics.TotalReturnIsCompounded` | app/main.py:249 | from two prices on, one plus the total return is the last compounded return |
| `Statistics.StepReturnsOfConstant` | app/main.py:101 | a flat price series has only zero returns |
| `Statistics.StatisticsOfConstant` | app/main.py:241-249 | a flat series of three or more prices has mean return, volatility, Sharpe ratio, maximum drawdown and total return all 0 |
| `Statistics.TwoBarsExample` | app/main.py:249 | prices 100 then 110 give the returns `[0.1]` and a total return of 0.1 |
| `Statistics.Covariance` | app/main.py:131 | the sample covariance is defined exactly from two pairs on |
| `Statistics.Correlation` | app/main.py:129-131 | a defined correlation lies in [-1, 1] and needs at least two values in each series |
| `Statistics.CorrelationDefinedIff` | app/main.py:129-131 | correlation is defined exactly when there are two aligned pairs and neither side is constant |
| `Statistics.CovarianceWithItself` | app/main.py:131 | the covariance of a series with itself is its sample variance |
| `Statistics.CorrelationWithItself` | app/main.py:129-131 | a non-constant series has correlation 1 with itself |
| `Statistics.CovarianceSymmetric` | app/main.py:131 | covariance does not depend on argument order |
| `Statistics.CorrelationSymmetric` | app/main.py:129-131 | correlation does not depend on argument order |
| `Bars.Insert` | app/main.py:155 | inserting a bar into a time-ordered sequence keeps it ordered and adds exactly that bar |
| `Bars.SortByTime` | app/main.py:155 | sorting gives the same bars, duplicates kept, in ascending timestamp order |
| `Bars.SortSorted` | app/main.py:155 | bars already in time order are left as they are |
| `Bars.TimestampsIndependentOfTies` | app/main.py:155 | any two time orderings of the same bars list the same timestamps |
| `Bars.Timestamps` | app/main.py:163 | one timestamp per bar; after the sort its values are stated by `Bars.SortedTimestamps` and `Bars.TimestampsIndependentOfTies` |
| `Bars.SortedTimestamps` | app/main.py:163 | the returned timestamps are the request's, ascending, each with its multiplicity |
| `Bars.Closes` | app/main.py:35 | the close prices, one per bar, are all positive for a valid request |
| `Bars.SortedClosesFromBars` | app/main.py:157 | every close after sorting is the close of some bar of the request |
| `Bars.SortKeepsValid` | app/main.py:155 | sorting keeps every bar valid |
| `Endpoints.NatToString` | app/main.py:161 | the decimal form of a period is a non-empty digit string with no leading zero |
| `Endpoints.ParseNatToString` | app/main.py:161 | the decimal form reads back as the period |
| `Endpoints.IndicatorName` | app/main.py:161 | `f"{kind}_{period}"` is the kind, an underscore, and a non-empty string of digits; `Endpoints.IndicatorNameEncodes` adds that the digits read back as the period |
| `Endpoints.IndicatorNameEncodes` | app/main.py:161 | the indicator name is the kind, an underscore and digits that read back as the period |
| `Endpoints.PricesOf` | app/main.py:153-157 | the engines see one positive close per bar; their order is stated by `Endpoints.PricesInTimeOrder` |
| `Endpoints.PricesInTimeOrder` | app/main.py:155-163 | the closes and the returned timestamps come from one time ordering of the request's bars, so the `i`-th close belongs to a bar with the `i`-th timestamp |
| `Endpoints.PricesExample` | app/main.py:155-157 | bars sent with timestamps 2 then 1 and closes 5 then 7 give closes 7, 5 against timestamps 1, 2 |
| `Endpoints.SortedTimes` | app/main.py:163 | the response timestamps have one entry per bar, ascending, with the request's multiplicities |
| `Endpoints.SmaFilled` | app/main.py:157-162 | the filled SMA is 0 before the window fills and otherwise the window's mean |
| `Endpoints.SmaEndpoint` | app/main.py:150-164 | the SMA route fails on an empty request or a negative window, and otherwise names `SMA_<period>`, returns the sorted timestamps and the filled SMA of the sorted closes |
| `Endpoints.SmaEndpointOfConstant` | app/main.py:157-162 | bars that all close at `c` get `c` from index `period-1` on |
| `Endpoints.SmaExample` | app/main.py:59-61 | on the ten-close example the 3-bar SMA is 0, 0, then 101 |
| `Endpoints.EmaEndpoint` | app/main.py:166-180 | the EMA route fails on an empty request or a span below 1, and otherwise names `EMA_<period>` and returns values that follow the smoothing recurrence from the first close |
| `Endpoints.RsiFilled` | app/main.py:189-194 | the filled RSI lies in [0, 100], is 0 before the first full window, and on each full window is 100 exactly for zero loss and positive gain, 0 when flat, and `100·gain/(gain+loss)` otherwise |
| `Endpoints.FilledRsiUnique` | app/main.py:189-194 | that description of the route's values holds of exactly one series, the filled RSI of the closes |
| `Endpoints.RsiEndpoint` | app/main.py:182-196 | the RSI route fails on an empty request or a negative window, and otherwise names `RSI_<period>`, returns the sorted timestamps, and values in [0, 100] that are 0 before the first full window and the filled RSI of each full window |
| `Endpoints.RsiExample` | app/main.py:72-75 | closes 1, 2, 3 with a 2-bar window give the filled RSI 0, 100, 100 |
| `Endpoints.RsiFilledValue` | app/main.py:189-194 | on a full window the filled RSI is 100 exactly for zero loss and positive gain, 0 on a flat window, and otherwise `100·gain/(gain+loss)` |
| `Endpoints.MacdEndpoint` | app/main.py:198-214 | the MACD route fails on an empty request or a span below 1, and otherwise returns three aligned lines of length `n` with histogram equal to line minus signal |
| `Endpoints.BollingerFilled` | app/main.py:223-230 | the filled bands are the filled SMA and `k` deviations around it, with 0 where the deviation is NaN |
| `Endpoints.BollingerEndpoint` | app/main.py:216-232 | the Bollinger route fails on an empty request or a negative window, and otherwise returns the filled bands of the sorted closes |
| `Endpoints.BollingerEndpointWidth` | app/main.py:223-230 | the returned bands are all 0 before the window fills and `2·k` sample deviations apart on full windows of two or more |
| `Endpoints.Summarize` | app/main.py:241-250 | each statistic is defined exactly when enough prices are given, Sharpe is 0 when volatility is, the drawdown is the minimum of the price-based drawdowns and lies in (-1, 0], and the total return is last over first close minus 1, above -1, and 0 exactly for equal first and last closes |
| `Endpoints.SummaryMeanReturn` | app/main.py:245 | the reported mean return is 252 times the mean step return |
| `Endpoints.SummaryVolatility` | app/main.py:246 | the reported volatility is non-negative, squares to 252 times the sample variance of the step returns, and is 0 exactly when those returns are all equal |
| `Endpoints.SummarySharpe` | app/main.py:247 | the reported Sharpe ratio is 0 for a zero volatility and otherwise times the volatility gives the mean return minus the 2% risk-free rate |
| `Endpoints.SummarySharpeSign` | app/main.py:247 | with step returns that vary, the reported Sharpe ratio is positive, negative or 0 exactly as the mean return is above, below or at the risk-free rate |
| `Endpoints.SummaryDrawdownZeroIff` | app/main.py:248 | the reported drawdown is 0 exactly when the closes never fall from the second bar on |
| `Endpoints.SummaryOfConstant` | app/main.py:241-250 | closes flat over three or more bars summarise to all zeros |
| `Endpoints.StatisticsEndpoint` | app/main.py:234-250 | the statistics route fails exactly on an empty request and otherwise summarises the sorted closes |

## Left out

- The HTTP layer: the FastAPI application, CORS middleware, the root and
  health routes and the server start-up are transport, not computation.
- Request validation: the request model's field constraints are the
  precondition `Bars.AllValid`; the rejection response for invalid bars and
  for non-integer query parameters is not modelled.
- Timestamp parsing: timestamps are integers; `pd.to_datetime` is not modelled.
- JSON serialisation: a NaN statistic (volatility and Sharpe ratio of fewer
  than three prices, mean return and drawdown of one price) is returned as
  `None`; how the transport would encode or reject it is not modelled.
- Floating point: values are exact reals, so rounding, signed zeros and
  overflow to infinity are not modelled; the IEEE outcomes the code relies on
  (infinite RS, `0/0`) are explicit branches.
- The square root is a parameter rather than a definition; properties that
  need it require `Series.IsSquareRoot`.
- Bars.SortByTime: a stable sort, where pandas' default quicksort may order
  bars with equal timestamps differently; only the timestamps are proved
  independent of that order, not the values computed from the closes.
- The correlation route listed by the root endpoint does not exist in the
  code; `Statistics.Correlation` models the unused helper only.
- The test suite's sample-data generator (it uses Python's `hash`).
