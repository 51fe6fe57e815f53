/** The outer search over all intervals, the request statistics it ranks them by, and the end threshold. */
module TrafficSearch {
  import opened Traffic

  // ----- request statistics

  /** Total requests over a set of seconds. */
  ghost function Total(b: Buckets, secs: set<nat>): nat
    requires secs <= b.Keys
  {
    if secs == {} then 0
    else
      var s :| s in secs;
      b[s] + Total(b, secs - {s})
  }

  lemma {:induction false} TotalWithout(b: Buckets, secs: set<nat>, x: nat)
    requires secs <= b.Keys && x in secs
    ensures Total(b, secs) == b[x] + Total(b, secs - {x})
    decreases |secs|
  {
    var s :| s in secs && Total(b, secs) == b[s] + Total(b, secs - {s});
    if s != x {
      TotalWithout(b, secs - {s}, x);
      TotalWithout(b, secs - {x}, s);
      assert secs - {s} - {x} == secs - {x} - {s};
    }
  }

  /** The second begins inside [start, end). A fractional first second does not. */
  predicate Begins(sec: nat, start: int, end: int) {
    start <= sec * NS < end
  }

  /** The seconds that begin inside [start, end). */
  ghost function Inside(b: Buckets, start: int, end: int): set<nat> {
    set s | s in b && start <= s * NS < end
  }

  ghost function Active(b: Buckets, start: int, end: int): set<nat> {
    set s | s in b && start <= s * NS < end && b[s] >= 10
  }

  /** Request count and active seconds of a window, over the buckets in any order. */
  method WindowStats(b: Buckets, start: int, end: int) returns (requests: nat, activeSeconds: nat)
    ensures requests == Total(b, Inside(b, start, end))
    ensures activeSeconds == |Active(b, start, end)|
  {
    requests, activeSeconds := 0, 0;
    var todo := b.Keys;
    assert Inside(b, start, end) - todo == {} && Active(b, start, end) - todo == {};
    while todo != {}
      invariant todo <= b.Keys
      invariant requests == Total(b, Inside(b, start, end) - todo)
      invariant activeSeconds == |Active(b, start, end) - todo|
      decreases todo
    {
      var sec :| sec in todo;
      CountSecond(b, start, end, todo, sec);
      todo := todo - {sec};
      if Begins(sec, start, end) {
        requests := requests + b[sec];
        activeSeconds := activeSeconds + if b[sec] >= START_REQUESTS then 1 else 0;
      }
    }
    NothingLeft(Inside(b, start, end));
    NothingLeft(Active(b, start, end));
  }

  lemma NothingLeft(s: set<nat>)
    ensures s - {} == s
  {
  }

  lemma CountSecond(b: Buckets, start: int, end: int, todo: set<nat>, sec: nat)
    requires sec in todo && todo <= b.Keys
    ensures Total(b, Inside(b, start, end) - (todo - {sec}))
         == Total(b, Inside(b, start, end) - todo) + if Begins(sec, start, end) then b[sec] else 0
    ensures |Active(b, start, end) - (todo - {sec})|
         == |Active(b, start, end) - todo| + if Begins(sec, start, end) && b[sec] >= START_REQUESTS then 1 else 0
  {
    var inside, active := Inside(b, start, end), Active(b, start, end);
    if sec in inside {
      assert inside - (todo - {sec}) == (inside - todo) + {sec};
      TotalWith(b, inside - todo, sec);
    } else {
      assert inside - (todo - {sec}) == inside - todo;
    }
    if sec in active {
      assert active - (todo - {sec}) == (active - todo) + {sec};
    } else {
      assert active - (todo - {sec}) == active - todo;
    }
  }

  lemma TotalWith(b: Buckets, secs: set<nat>, x: nat)
    requires secs <= b.Keys && x in b && x !in secs
    ensures Total(b, secs + {x}) == Total(b, secs) + b[x]
  {
    TotalWithout(b, secs + {x}, x);
    assert secs + {x} - {x} == secs;
  }

  // ----- the search over all intervals

  /** The candidates of a search from `earliest`: each is the interval from the end of the one before,
      and after the last one there is nothing left. */
  ghost predicate Chain(c: Collection, b: Buckets, threshold: int, earliest: int, cs: seq<Detection>)
    decreases |cs|
  {
    if cs == [] then Exhausted(c, b, earliest)
    else
      var r := cs[0];
      && r.Found? && IsInterval(c, b, threshold, earliest, r)
      && (if r.end >= c.endedAt then |cs| == 1 else Chain(c, b, threshold, r.end / NS, cs[1..]))
  }

  /** No busy pair is left from a second on. */
  ghost predicate Exhausted(c: Collection, b: Buckets, earliest: int) {
    forall t :: earliest <= t < c.LastSecond() ==> !Pair(b, t)
  }

  /** What one interval guarantees about its place in the collection. */
  lemma IntervalBounds(c: Collection, b: Buckets, threshold: int, earliest: int, r: Detection)
    requires c.Valid() && c.FirstSecond() <= earliest
    requires r.Found? && IsInterval(c, b, threshold, earliest, r)
    ensures c.startedAt <= r.start < r.end <= c.endedAt && earliest <= r.start / NS
    ensures r.end < c.endedAt ==> r.end == (r.end / NS) * NS && earliest < r.end / NS
  {
  }

  /** The chain is determined by the collection, the counts and the threshold. */
  lemma {:induction false} ChainIsUnique(c: Collection, b: Buckets, threshold: int, earliest: int,
                                         cs: seq<Detection>, ds: seq<Detection>)
    requires Chain(c, b, threshold, earliest, cs) && Chain(c, b, threshold, earliest, ds)
    ensures cs == ds
    decreases |cs|
  {
    if cs != [] && ds != [] {
      IntervalIsUnique(c, b, threshold, earliest, cs[0], ds[0]);
      if cs[0].end < c.endedAt {
        ChainIsUnique(c, b, threshold, cs[0].end / NS, cs[1..], ds[1..]);
      }
      assert cs == [cs[0]] + cs[1..] && ds == [ds[0]] + ds[1..];
    }
  }

  /** The candidates lie inside the collection, in order and without overlap. */
  ghost predicate Ordered(c: Collection, cs: seq<Detection>) {
    && (forall i :: 0 <= i < |cs| ==> cs[i].Found? && c.startedAt <= cs[i].start < cs[i].end <= c.endedAt)
    && (forall i, j :: 0 <= i < j < |cs| ==> cs[i].end <= cs[j].start)
  }

  lemma {:induction false} ChainIsOrdered(c: Collection, b: Buckets, threshold: int, earliest: int, cs: seq<Detection>)
    requires c.Valid() && c.FirstSecond() <= earliest && Chain(c, b, threshold, earliest, cs)
    ensures Ordered(c, cs)
    ensures forall i :: 0 <= i < |cs| ==> earliest * NS <= cs[i].start || c.startedAt <= cs[i].start
    ensures forall i :: 0 <= i < |cs| ==> earliest <= cs[i].start / NS
    decreases |cs|
  {
    if cs != [] {
      var r := cs[0];
      IntervalBounds(c, b, threshold, earliest, r);
      if r.end < c.endedAt {
        ChainIsOrdered(c, b, threshold, r.end / NS, cs[1..]);
        forall j | 1 <= j < |cs| ensures r.end <= cs[j].start && cs[j] == cs[1..][j-1] {
          assert r.end / NS <= cs[1..][j-1].start / NS;
        }
      }
    }
  }

  /** The first second of every busy pair lies in one of the candidates. */
  lemma {:induction false} ChainCovers(c: Collection, b: Buckets, threshold: int, earliest: int, cs: seq<Detection>,
                                       t: int)
    returns (i: nat)
    requires c.Valid() && c.FirstSecond() <= earliest && Chain(c, b, threshold, earliest, cs)
    requires earliest <= t < c.LastSecond() && Pair(b, t)
    ensures i < |cs| && cs[i].Found? && cs[i].start / NS <= t && t * NS < cs[i].end
    decreases |cs|
  {
    var r := cs[0];
    assert r.start / NS <= t;
    IntervalBounds(c, b, threshold, earliest, r);
    if t * NS < r.end {
      i := 0;
    } else {
      var k := ChainCovers(c, b, threshold, r.end / NS, cs[1..], t);
      i := k + 1;
    }
  }

  /** The first second of every busy pair, from the very second in which the collection begins, lies in a candidate. */
  ghost predicate BusyPairsAreCovered(c: Collection, b: Buckets, cs: seq<Detection>) {
    forall t :: BusyPair(c, b, t) ==> IsCovered(cs, t)
  }

  ghost predicate IsCovered(cs: seq<Detection>, t: nat) {
    exists i :: 0 <= i < |cs| && cs[i].Found? && cs[i].start / NS <= t && t * NS < cs[i].end
  }

  lemma ChainCoversBusyPairs(c: Collection, b: Buckets, threshold: int, cs: seq<Detection>)
    requires c.Valid() && Chain(c, b, threshold, c.FirstSecond(), cs)
    ensures BusyPairsAreCovered(c, b, cs)
    ensures cs == [] <==> forall t :: !BusyPair(c, b, t)
  {
    forall t: nat | BusyPair(c, b, t) ensures IsCovered(cs, t) {
      PairsAreBusyPairs(c, b, t);
      var i := ChainCovers(c, b, threshold, c.FirstSecond(), cs, t);
    }
    if cs != [] {
      var s := cs[0].start / NS;
      assert FirstPair(c, b, c.FirstSecond(), s);
      PairsAreBusyPairs(c, b, s);
    }
  }

  /** The candidate with the most requests, the earliest of them on ties. */
  ghost predicate IsBest(b: Buckets, cs: seq<Detection>, k: nat)
    requires forall i :: 0 <= i < |cs| ==> cs[i].Found?
  {
    && k < |cs|
    && (forall i :: 0 <= i < |cs| ==> Requests(b, cs[i]) <= Requests(b, cs[k]))
    && (forall i :: 0 <= i < k ==> Requests(b, cs[i]) < Requests(b, cs[k]))
  }

  ghost function Requests(b: Buckets, r: Detection): nat
    requires r.Found?
  {
    Total(b, Inside(b, r.start, r.end))
  }

  /** A later candidate replaces the best one only when it has strictly more requests. */
  lemma ExtendBest(b: Buckets, cs: seq<Detection>, k: nat, r: Detection)
    requires r.Found? && forall i :: 0 <= i < |cs| ==> cs[i].Found?
    requires cs != [] ==> IsBest(b, cs, k)
    ensures forall i :: 0 <= i < |cs + [r]| ==> (cs + [r])[i].Found?
    ensures IsBest(b, cs + [r], if cs == [] || Requests(b, r) > Requests(b, cs[k]) then |cs| else k)
  {
  }

  /** A chain extended at its end, while the search still has to go on from `earliest`. */
  ghost predicate PartialChain(c: Collection, b: Buckets, threshold: int, from: int, cs: seq<Detection>, earliest: int)
    decreases |cs|
  {
    if cs == [] then from == earliest
    else
      var r := cs[0];
      && r.Found? && IsInterval(c, b, threshold, from, r) && r.end < c.endedAt
      && PartialChain(c, b, threshold, r.end / NS, cs[1..], earliest)
  }

  lemma {:induction false} ExtendChain(c: Collection, b: Buckets, threshold: int, from: int, cs: seq<Detection>,
                                       earliest: int, r: Detection)
    requires PartialChain(c, b, threshold, from, cs, earliest)
    requires r.Found? && IsInterval(c, b, threshold, earliest, r)
    ensures r.end < c.endedAt ==> PartialChain(c, b, threshold, from, cs + [r], r.end / NS)
    ensures r.end >= c.endedAt ==> Chain(c, b, threshold, from, cs + [r])
    decreases |cs|
  {
    if cs != [] {
      ExtendChain(c, b, threshold, cs[0].end / NS, cs[1..], earliest, r);
      assert (cs + [r])[1..] == cs[1..] + [r];
    }
  }

  lemma {:induction false} CloseChain(c: Collection, b: Buckets, threshold: int, from: int, cs: seq<Detection>,
                                      earliest: int)
    requires PartialChain(c, b, threshold, from, cs, earliest) && Exhausted(c, b, earliest)
    ensures Chain(c, b, threshold, from, cs)
    decreases |cs|
  {
    if cs != [] {
      CloseChain(c, b, threshold, cs[0].end / NS, cs[1..], earliest);
    }
  }

  /** The traffic window under a given end threshold. The search terminates, its candidates are the whole
      chain of intervals of the collection, and its result is the best of them; it fails iff no two
      consecutive seconds ever reached the start threshold. */
  method SearchWindow(c: Collection, b: Buckets, threshold: int)
    returns (best: Detection, ghost cs: seq<Detection>, ghost k: nat)
    requires c.Valid()
    ensures Chain(c, b, threshold, c.FirstSecond(), cs) && Ordered(c, cs)
    ensures best.NotFound? <==> forall t :: !BusyPair(c, b, t)
    ensures BusyPairsAreCovered(c, b, cs)
    ensures best.NotFound? ==> cs == [] && best == NotFound(NeverReached)
    ensures best.Found? ==> IsBest(b, cs, k) && best == cs[k]
  {
    var earliest := c.FirstSecond();
    cs, k := [], 0;
    best := NotFound(NeverReached);
    var bestCount: int := -1;
    while true
      invariant c.FirstSecond() <= earliest <= c.LastSecond()
      invariant PartialChain(c, b, threshold, c.FirstSecond(), cs, earliest)
      invariant forall i :: 0 <= i < |cs| ==> cs[i].Found?
      invariant bestCount < 0 <==> cs == []
      invariant cs != [] ==> IsBest(b, cs, k) && best == cs[k] && bestCount == Requests(b, best)
      decreases c.LastSecond() - earliest
    {
      var r := DetectInterval(c, b, earliest, threshold);
      if r.NotFound? {
        CloseChain(c, b, threshold, c.FirstSecond(), cs, earliest);
        ChainIsOrdered(c, b, threshold, c.FirstSecond(), cs);
        ChainCoversBusyPairs(c, b, threshold, cs);
        if bestCount < 0 {
          best := r;
        }
        return;
      }
      var count, active := WindowStats(b, r.start, r.end);
      ExtendChain(c, b, threshold, c.FirstSecond(), cs, earliest, r);
      ExtendBest(b, cs, k, r);
      if count > bestCount {
        best, bestCount, k := r, count, |cs|;
      }
      cs := cs + [r];
      if r.end >= c.endedAt {
        ChainIsOrdered(c, b, threshold, c.FirstSecond(), cs);
        ChainCoversBusyPairs(c, b, threshold, cs);
        return;
      }
      earliest := r.end / NS;
    }
  }
}
