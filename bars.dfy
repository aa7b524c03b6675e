/** The price bars a request carries, their ordering by timestamp and the
    projection of their close prices: the normalisation every endpoint does
    before it calls the indicator or statistics engine. Timestamps are
    integers (instants after parsing). */
module Bars {
  import opened Series

  datatype Bar = Bar(timestamp: int, open: real, high: real, low: real, close: real, volume: real)

  /** The field constraints of the request model: open, high, low and close
      strictly positive, volume non-negative. */
  predicate ValidBar(b: Bar) {
    b.open > 0.0 && b.high > 0.0 && b.low > 0.0 && b.close > 0.0 && b.volume >= 0.0
  }

  predicate AllValid(bars: seq<Bar>) {
    forall i :: 0 <= i < |bars| ==> ValidBar(bars[i])
  }

  // ------------------------------------------------------------ ordering

  predicate SortedByTime(bars: seq<Bar>) {
    forall i, j :: 0 <= i < j < |bars| ==> bars[i].timestamp <= bars[j].timestamp
  }

  predicate Ascending(xs: seq<int>) {
    forall i, j :: 0 <= i < j < |xs| ==> xs[i] <= xs[j]
  }

  /** A bar no later than every bar of a time-ordered sequence can lead it. */
  lemma SortedCons(x: Bar, s: seq<Bar>)
    requires SortedByTime(s)
    requires forall k :: 0 <= k < |s| ==> x.timestamp <= s[k].timestamp
    ensures SortedByTime([x] + s)
  {
  }

  /** Places `b` in a bar sequence already in time order, after every bar
      with an earlier timestamp and before the others. */
  function Insert(b: Bar, sorted: seq<Bar>): (r: seq<Bar>)
    requires SortedByTime(sorted)
    ensures SortedByTime(r)
    ensures multiset(r) == multiset(sorted) + multiset{b}
  {
    if |sorted| == 0 then [b]
    else if sorted[0].timestamp < b.timestamp then
      var head, tail := sorted[0], sorted[1..];
      var rest := Insert(b, tail);
      assert sorted == [head] + tail;
      assert forall k :: 0 <= k < |rest| ==> head.timestamp <= rest[k].timestamp by {
        forall k | 0 <= k < |rest| ensures head.timestamp <= rest[k].timestamp {
          assert rest[k] in multiset(tail) + multiset{b};
          if rest[k] != b {
            assert rest[k] in multiset(tail);
          }
        }
      }
      SortedCons(head, rest);
      [head] + rest
    else
      SortedCons(b, sorted);
      [b] + sorted
  }

  /** `df.sort_values('timestamp')`: the bars in ascending time order,
      duplicates kept. */
  function SortByTime(bars: seq<Bar>): (r: seq<Bar>)
    ensures SortedByTime(r)
    ensures multiset(r) == multiset(bars)
    ensures |r| == |bars|
  {
    if |bars| == 0 then []
    else
      assert bars == [bars[0]] + bars[1..];
      Insert(bars[0], SortByTime(bars[1..]))
  }

  /** Sorting bars already in time order changes nothing. */
  lemma {:induction false} SortSorted(bars: seq<Bar>)
    requires SortedByTime(bars)
    ensures SortByTime(bars) == bars
  {
    if |bars| > 0 {
      SortSorted(bars[1..]);
      var rest := bars[1..];
      if |rest| > 0 {
        assert bars[0].timestamp <= rest[0].timestamp;
      }
    }
  }

  // ---------------------------------------------------------- projections

  /** `df['timestamp'].tolist()`. */
  function Timestamps(bars: seq<Bar>): (ts: seq<int>)
    ensures |ts| == |bars|
  {
    seq(|bars|, i requires 0 <= i < |bars| => bars[i].timestamp)
  }

  /** `df['close']`: the close price of every bar, in the bars' order. */
  function Closes(bars: seq<Bar>): (P: seq<real>)
    ensures |P| == |bars|
    ensures AllValid(bars) ==> Positive(P)
  {
    seq(|bars|, i requires 0 <= i < |bars| => bars[i].close)
  }

  lemma TimestampsConcat(a: seq<Bar>, b: seq<Bar>)
    ensures Timestamps(a + b) == Timestamps(a) + Timestamps(b)
  {
  }

  /** Bars with the same multiset of entries have the same multiset of
      timestamps. */
  lemma {:induction false} TimestampsPermute(a: seq<Bar>, b: seq<Bar>)
    requires multiset(a) == multiset(b)
    ensures multiset(Timestamps(a)) == multiset(Timestamps(b))
    decreases |a|
  {
    if |a| == 0 {
      assert |b| == |multiset(b)| == 0;
    } else {
      assert a[0] in multiset(b);
      var j :| 0 <= j < |b| && b[j] == a[0];
      var b' := b[..j] + b[j + 1..];
      assert b == b[..j] + [b[j]] + b[j + 1..];
      assert multiset(b) == multiset(b[..j]) + multiset{b[j]} + multiset(b[j + 1..]);
      assert a == [a[0]] + a[1..];
      assert multiset(a) == multiset{a[0]} + multiset(a[1..]);
      assert multiset(b') == multiset(b[..j]) + multiset(b[j + 1..]);
      assert multiset(a[1..]) == multiset(a) - multiset{a[0]};
      assert multiset(b') == multiset(b) - multiset{b[j]};
      TimestampsPermute(a[1..], b');
      TimestampsConcat(b[..j] + [b[j]], b[j + 1..]);
      TimestampsConcat(b[..j], [b[j]]);
      TimestampsConcat(b[..j], b[j + 1..]);
      TimestampsConcat([a[0]], a[1..]);
    }
  }

  /** Two ascending integer sequences with the same elements are equal. */
  lemma {:induction false} AscendingUnique(x: seq<int>, y: seq<int>)
    requires Ascending(x) && Ascending(y)
    requires multiset(x) == multiset(y)
    ensures x == y
    decreases |x|
  {
    assert |x| == |multiset(x)| == |multiset(y)| == |y|;
    if |x| > 0 {
      assert x[0] in multiset(y);
      assert y[0] in multiset(x);
      assert x[0] == y[0];
      assert x == [x[0]] + x[1..];
      assert y == [y[0]] + y[1..];
      assert multiset(x) == multiset{x[0]} + multiset(x[1..]);
      assert multiset(y) == multiset{y[0]} + multiset(y[1..]);
      assert multiset(x[1..]) == multiset(x) - multiset{x[0]};
      assert multiset(y[1..]) == multiset(y) - multiset{y[0]};
      AscendingUnique(x[1..], y[1..]);
    }
  }

  /** Pandas sorts with an unstable quicksort, so bars with equal timestamps
      may come out in another order than this model's. The timestamps the
      endpoints return do not depend on that order: any two time orderings of
      the same bars list the same timestamps. */
  lemma TimestampsIndependentOfTies(a: seq<Bar>, b: seq<Bar>)
    requires SortedByTime(a) && SortedByTime(b)
    requires multiset(a) == multiset(b)
    ensures Timestamps(a) == Timestamps(b)
  {
    TimestampsPermute(a, b);
    AscendingUnique(Timestamps(a), Timestamps(b));
  }

  /** The timestamps of the sorted bars are the request's timestamps in
      ascending order, each with its multiplicity. */
  lemma SortedTimestamps(bars: seq<Bar>)
    ensures Ascending(Timestamps(SortByTime(bars)))
    ensures multiset(Timestamps(SortByTime(bars))) == multiset(Timestamps(bars))
  {
    TimestampsPermute(SortByTime(bars), bars);
  }

  /** Every close price after sorting is the close of some bar of the
      request, so a property shared by all closes survives the sort. */
  lemma {:induction false} SortedClosesFromBars(bars: seq<Bar>, i: int)
    requires 0 <= i < |bars|
    ensures exists j :: 0 <= j < |bars| && Closes(SortByTime(bars))[i] == bars[j].close
  {
    var s := SortByTime(bars);
    assert s[i] in multiset(bars);
    var j :| 0 <= j < |bars| && bars[j] == s[i];
  }

  /** Sorting keeps the request valid. */
  lemma SortKeepsValid(bars: seq<Bar>)
    requires AllValid(bars)
    ensures AllValid(SortByTime(bars))
  {
    var s := SortByTime(bars);
    forall i | 0 <= i < |s| ensures ValidBar(s[i]) {
      assert s[i] in multiset(bars);
    }
  }
}
