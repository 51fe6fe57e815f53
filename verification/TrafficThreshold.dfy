/** The end threshold: five percent of the median busy second, but never below a fixed floor. */
module TrafficThreshold {
  import opened Traffic
  import opened TrafficSearch
  import opened Sequences

  /** The rates of the fully covered seconds in [lo, hi) that reached the start threshold. */
  ghost function BusyRates(c: Collection, b: Buckets, lo: int, hi: int): seq<nat>
    decreases hi - lo
  {
    if hi <= lo then []
    else BusyRates(c, b, lo, hi - 1) + if Busy(c, b, hi - 1) then [At(b, hi - 1)] else []
  }

  /** The rates of the busy seconds of a collection. */
  ghost function AllBusyRates(c: Collection, b: Buckets): seq<nat> {
    BusyRates(c, b, c.FirstSecond(), c.endedAt / NS + 1)
  }

  predicate Busy(c: Collection, b: Buckets, sec: int) {
    c.Coverage(sec) == NS && At(b, sec) >= START_REQUESTS
  }

  /** The seconds that are ranked: those that reach into the collection, end inside it, and have at least ten
      requests. */
  ghost function RankedSeconds(c: Collection, b: Buckets): set<nat> {
    set t | t in b && c.startedAt < (t + 1) * 1_000_000_000 <= c.endedAt && b[t] >= 10
  }

  /** How many of these seconds have fewer than x requests. */
  ghost function SecondsBelow(b: Buckets, secs: set<nat>, x: int): nat
    requires secs <= b.Keys
  {
    |Below(b, secs, x)|
  }

  ghost function Below(b: Buckets, secs: set<nat>, x: int): set<nat>
    requires secs <= b.Keys
  {
    set t | t in secs && b[t] < x
  }

  ghost function CountBelow(s: seq<nat>, x: int): nat {
    if s == [] then 0 else CountBelow(s[..|s|-1], x) + if s[|s|-1] < x then 1 else 0
  }

  lemma {:induction false} CountBelowJoin(s: seq<nat>, t: seq<nat>, x: int)
    ensures CountBelow(s + t, x) == CountBelow(s, x) + CountBelow(t, x)
    decreases |t|
  {
    if t == [] {
      assert s + t == s;
    } else {
      assert (s + t)[..|s+t|-1] == s + t[..|t|-1];
      CountBelowJoin(s, t[..|t|-1], x);
    }
  }

  /** Where a value was inserted does not change how many entries are below a bound. */
  lemma CountBelowInsert(s: seq<nat>, k: nat, v: nat, x: int)
    requires k <= |s|
    ensures CountBelow(s[..k] + [v] + s[k..], x) == CountBelow(s + [v], x)
  {
    CountBelowJoin(s[..k] + [v], s[k..], x);
    CountBelowJoin(s[..k], [v], x);
    CountBelowJoin(s[..k], s[k..], x);
    assert s[..k] + s[k..] == s;
    CountBelowJoin(s, [v], x);
  }

  ghost predicate Sorted(s: seq<nat>) {
    forall i, j :: 0 <= i < j < |s| ==> s[i] <= s[j]
  }

  /** The counts below every bound determine a list up to order. */
  ghost predicate SameRates(s: seq<nat>, t: seq<nat>) {
    |s| == |t| && forall x :: CountBelow(s, x) == CountBelow(t, x)
  }

  method SortRates(rates: seq<nat>) returns (sorted: seq<nat>)
    ensures Sorted(sorted) && SameRates(sorted, rates)
  {
    sorted := [];
    for i := 0 to |rates|
      invariant Sorted(sorted) && SameRates(sorted, rates[..i])
    {
      sorted := InsertRate(sorted, rates[i], rates[..i]);
      TakeOneMore(rates, i);
    }
    TakeAll(rates);
  }

  method InsertRate(s: seq<nat>, v: nat, ghost rates: seq<nat>) returns (r: seq<nat>)
    requires Sorted(s) && SameRates(s, rates)
    ensures Sorted(r) && SameRates(r, rates + [v])
  {
    var k := |s|;
    while k > 0 && v < s[k-1]
      invariant 0 <= k <= |s|
      invariant forall j :: k <= j < |s| ==> v < s[j]
    {
      k := k - 1;
    }
    r := s[..k] + [v] + s[k..];
    InsertedSorted(s, k, v);
    InsertedSame(s, k, v, rates);
  }

  lemma InsertedSorted(s: seq<nat>, k: nat, v: nat)
    requires Sorted(s) && k <= |s|
    requires (k > 0 ==> s[k-1] <= v) && forall j :: k <= j < |s| ==> v < s[j]
    ensures Sorted(s[..k] + [v] + s[k..])
  {
  }

  lemma InsertedSame(s: seq<nat>, k: nat, v: nat, rates: seq<nat>)
    requires k <= |s| && SameRates(s, rates)
    ensures SameRates(s[..k] + [v] + s[k..], rates + [v])
  {
    forall x ensures CountBelow(s[..k] + [v] + s[k..], x) == CountBelow(rates + [v], x) {
      CountBelowInsert(s, k, v, x);
      CountBelowJoin(s, [v], x);
      CountBelowJoin(rates, [v], x);
    }
  }

  lemma {:induction false} FewBelow(s: seq<nat>, k: nat, x: int)
    requires k <= |s| && forall j :: k <= j < |s| ==> s[j] >= x
    ensures CountBelow(s, x) <= k
    decreases |s|
  {
    if |s| > k {
      FewBelow(s[..|s|-1], k, x);
    } else if |s| > 0 {
      FewBelow(s[..|s|-1], k - 1, x);
    }
  }

  lemma {:induction false} ManyBelow(s: seq<nat>, k: nat, x: int)
    requires k <= |s| && forall j :: 0 <= j < k ==> s[j] < x
    ensures CountBelow(s, x) >= k
    decreases |s|
  {
    if |s| > k {
      ManyBelow(s[..|s|-1], k, x);
    } else if |s| > 0 {
      ManyBelow(s[..|s|-1], k - 1, x);
    }
  }

  lemma NothingBelow(b: Buckets, secs: set<nat>, x: int)
    requires secs <= b.Keys && |secs| == 0
    ensures secs == {} && SecondsBelow(b, secs, x) == 0
  {
    assert Below(b, secs, x) == {};
  }

  lemma CountBelowNext(s: seq<nat>, rate: nat, x: int)
    ensures CountBelow(s + [rate], x) == CountBelow(s, x) + if rate < x then 1 else 0
    ensures s + [] == s
  {
    assert (s + [rate])[..|s|] == s;
  }

  ghost function BusySeconds(c: Collection, b: Buckets, lo: int, hi: int): set<nat> {
    set t | t in b && lo <= t < hi && Busy(c, b, t)
  }

  lemma BusySecondsNext(c: Collection, b: Buckets, lo: int, hi: int, x: int)
    requires lo <= hi
    ensures var before, after := BusySeconds(c, b, lo, hi), BusySeconds(c, b, lo, hi + 1);
      && |after| == |before| + (if Busy(c, b, hi) then 1 else 0)
      && SecondsBelow(b, after, x) == SecondsBelow(b, before, x) + if Busy(c, b, hi) && At(b, hi) < x then 1 else 0
  {
    var before, after := BusySeconds(c, b, lo, hi), BusySeconds(c, b, lo, hi + 1);
    if Busy(c, b, hi) {
      var sec: nat := hi;
      assert after == before + {sec};
      OneSecondMore(b, before, sec, x);
    } else {
      assert after == before;
    }
  }

  lemma OneSecondMore(b: Buckets, secs: set<nat>, sec: nat, x: int)
    requires secs + {sec} <= b.Keys && sec !in secs
    ensures SecondsBelow(b, secs + {sec}, x) == SecondsBelow(b, secs, x) + if b[sec] < x then 1 else 0
  {
    assert Below(b, secs + {sec}, x) == if b[sec] < x then Below(b, secs, x) + {sec} else Below(b, secs, x);
  }

  lemma {:induction false} RatesAreOfSeconds(c: Collection, b: Buckets, lo: int, hi: int, x: int)
    ensures |BusyRates(c, b, lo, hi)| == |BusySeconds(c, b, lo, hi)|
    ensures CountBelow(BusyRates(c, b, lo, hi), x) == SecondsBelow(b, BusySeconds(c, b, lo, hi), x)
    decreases hi - lo
  {
    if lo < hi {
      RatesAreOfSeconds(c, b, lo, hi - 1, x);
      BusySecondsNext(c, b, lo, hi - 1, x);
      BusyRatesNext(c, b, lo, hi - 1, x);
    } else {
      assert BusySeconds(c, b, lo, hi) == {};
      NothingBelow(b, BusySeconds(c, b, lo, hi), x);
    }
  }

  lemma BusyRatesNext(c: Collection, b: Buckets, lo: int, hi: int, x: int)
    requires lo <= hi
    ensures var before, after := BusyRates(c, b, lo, hi), BusyRates(c, b, lo, hi + 1);
      && |after| == |before| + (if Busy(c, b, hi) then 1 else 0)
      && CountBelow(after, x) == CountBelow(before, x) + if Busy(c, b, hi) && At(b, hi) < x then 1 else 0
  {
    var before, after := BusyRates(c, b, lo, hi), BusyRates(c, b, lo, hi + 1);
    CountBelowNext(before, At(b, hi), x);
    assert after == if Busy(c, b, hi) then before + [At(b, hi)] else before;
  }

  /** The list of rates that is collected counts the ranked seconds. */
  lemma RatesRankTheSeconds(c: Collection, b: Buckets, x: int)
    requires c.Valid()
    ensures |AllBusyRates(c, b)| == |RankedSeconds(c, b)|
    ensures CountBelow(AllBusyRates(c, b), x) == SecondsBelow(b, RankedSeconds(c, b), x)
  {
    var hi := c.endedAt / NS + 1;
    RatesAreOfSeconds(c, b, c.FirstSecond(), hi, x);
    assert BusySeconds(c, b, c.FirstSecond(), hi) == RankedSeconds(c, b);
  }

  /** The upper median: at most half of the rates are below it, more than half are not above it. */
  ghost predicate IsMedian(rates: seq<nat>, m: nat) {
    CountBelow(rates, m) <= |rates| / 2 < CountBelow(rates, m + 1)
  }

  lemma MiddleIsMedian(sorted: seq<nat>, rates: seq<nat>)
    requires Sorted(sorted) && SameRates(sorted, rates) && |rates| > 0
    ensures IsMedian(rates, sorted[|sorted| / 2])
  {
    FewBelow(sorted, |sorted| / 2, sorted[|sorted| / 2]);
    ManyBelow(sorted, |sorted| / 2 + 1, sorted[|sorted| / 2] + 1);
  }

  method CollectRates(c: Collection, b: Buckets) returns (rates: seq<nat>)
    requires c.Valid()
    ensures rates == AllBusyRates(c, b)
  {
    rates := [];
    var sec := c.FirstSecond();
    while sec <= c.endedAt / NS
      invariant sec <= c.endedAt / NS + 1
      invariant rates == BusyRates(c, b, c.FirstSecond(), sec)
      decreases c.endedAt / NS - sec
    {
      if c.Coverage(sec) == NS && At(b, sec) >= START_REQUESTS {
        rates := rates + [At(b, sec)];
      }
      sec := sec + 1;
    }
  }

  lemma {:induction false} BusyRatesAreHigh(c: Collection, b: Buckets, lo: int, hi: int)
    ensures CountBelow(BusyRates(c, b, lo, hi), START_REQUESTS) == 0
    decreases hi - lo
  {
    if lo < hi {
      BusyRatesAreHigh(c, b, lo, hi - 1);
      var rest, last := BusyRates(c, b, lo, hi - 1), [At(b, hi - 1)];
      CountBelowJoin(rest, last, START_REQUESTS);
      assert last[..0] == [] && rest + [] == rest;
    }
  }

  /** Five percent of the median number of requests in the ranked seconds, rounded up, or five requests if that is
      more or no second is ranked. At most half of the seconds have fewer than the median and more than half do not
      have more. */
  ghost predicate IsEndThreshold(b: Buckets, ranked: set<nat>, threshold: int, median: nat)
    requires ranked <= b.Keys
  {
    if ranked == {} then threshold == 5
    else
      && SecondsBelow(b, ranked, median) <= |ranked| / 2 < SecondsBelow(b, ranked, median + 1)
      && threshold >= 5 && median <= 20 * threshold
      && (threshold > 5 ==> 20 * (threshold - 1) < median)
  }

  /** The end threshold of a collection. It never puts more than half of the ranked seconds below itself. */
  method EndThreshold(c: Collection, b: Buckets) returns (threshold: int, ghost median: nat)
    requires c.Valid()
    ensures IsEndThreshold(b, RankedSeconds(c, b), threshold, median)
    ensures SecondsBelow(b, RankedSeconds(c, b), threshold) <= |RankedSeconds(c, b)| / 2
  {
    var rates := CollectRates(c, b);
    median := 0;
    RatesRankTheSeconds(c, b, END_REQUESTS);
    if |rates| == 0 {
      NothingBelow(b, RankedSeconds(c, b), END_REQUESTS);
      return END_REQUESTS, 0;
    }
    var sorted := SortRates(rates);
    MiddleIsMedian(sorted, rates);
    median := sorted[|sorted| / 2];
    threshold := (sorted[|sorted| / 2] + 19) / 20;
    if threshold < END_REQUESTS {
      threshold := END_REQUESTS;
    }
    BusyRatesAreHigh(c, b, c.FirstSecond(), c.endedAt / NS + 1);
    MedianIsHigh(rates, median);
    FewBelow(sorted, |sorted| / 2, threshold);
    RatesRankTheSeconds(c, b, median);
    RatesRankTheSeconds(c, b, median + 1);
    RatesRankTheSeconds(c, b, threshold);
  }

  lemma MedianIsHigh(rates: seq<nat>, m: nat)
    requires IsMedian(rates, m) && CountBelow(rates, START_REQUESTS) == 0
    ensures m >= START_REQUESTS
  {
    if m < START_REQUESTS {
      CountBelowMonotone(rates, m + 1, START_REQUESTS);
    }
  }

  lemma {:induction false} CountBelowMonotone(s: seq<nat>, x: int, y: int)
    requires x <= y
    ensures CountBelow(s, x) <= CountBelow(s, y)
    decreases |s|
  {
    if s != [] { CountBelowMonotone(s[..|s|-1], x, y); }
  }

  /** The window of a collection under its own threshold. */
  method DetectWindow(c: Collection, b: Buckets)
    returns (best: Detection, threshold: int, ghost median: nat, ghost cs: seq<Detection>, ghost k: nat)
    requires c.Valid()
    ensures IsEndThreshold(b, RankedSeconds(c, b), threshold, median)
    ensures Chain(c, b, threshold, c.FirstSecond(), cs) && Ordered(c, cs)
    ensures best.NotFound? <==> forall t :: !BusyPair(c, b, t)
    ensures BusyPairsAreCovered(c, b, cs)
    ensures best.Found? ==> IsBest(b, cs, k) && best == cs[k]
  {
    threshold, median := EndThreshold(c, b);
    best, cs, k := SearchWindow(c, b, threshold);
  }
}
