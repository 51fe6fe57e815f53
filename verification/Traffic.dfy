/** Detection of the load window in per-second request counts. Times are integer nanoseconds since the
    epoch, so that a comparison with a fractional coverage becomes an integer comparison. */
module Traffic {

  const NS: int := 1_000_000_000
  const START_REQUESTS: int := 10
  const START_CONSECUTIVES: int := 2
  const END_REQUESTS: int := 5
  const END_CONSECUTIVES: int := 3
  const END_BOUNDARY: int := 500_000_000

  /** Requests that started in each second; seconds without requests are absent. */
  type Buckets = map<nat, nat>

  function At(b: Buckets, sec: int): nat {
    if sec >= 0 && sec in b then b[sec] else 0
  }

  /** The collection markers; loading them guarantees that the end is after the start. */
  datatype Collection = Collection(startedAt: int, endedAt: int) {
    ghost predicate Valid() { startedAt < endedAt }

    /** The second in which the collection begins. */
    function FirstSecond(): (r: int)
      ensures r * NS <= startedAt < (r + 1) * NS
    {
      startedAt / NS
    }

    /** The last second that the collection reaches into. */
    function LastSecond(): (r: int)
      ensures r * NS < endedAt <= (r + 1) * NS
    {
      if endedAt % NS == 0 then endedAt / NS - 1 else endedAt / NS
    }

    /** Nanoseconds of a second inside the collection; only the final second can be cut short. */
    function Coverage(sec: int): (r: int)
      ensures (sec + 1) * NS <= endedAt ==> r == NS
      ensures sec * NS <= endedAt < (sec + 1) * NS ==> r == endedAt - sec * NS
    {
      if sec == endedAt / NS then endedAt % NS else NS
    }
  }

  datatype Reason = LowRun | LowRunAtEnd | EndNotObserved | TooShort | NeverReached | StartAfterEnd

  datatype Detection = Found(start: int, end: int, reason: Reason) | NotFound(reason: Reason)

  // ----- the interval, stated without a loop

  /** A second whose request count, relative to its coverage, is below the end threshold. */
  ghost predicate Low(c: Collection, b: Buckets, threshold: int, sec: int) {
    At(b, sec) * NS < threshold * c.Coverage(sec)
  }

  /** Two consecutive seconds that reach the start threshold. */
  ghost predicate Pair(b: Buckets, sec: int) {
    At(b, sec) >= 10 && At(b, sec + 1) >= 10
  }

  /** Two consecutive seconds with at least ten requests each, of which the first reaches into the collection and
      the second begins inside it. */
  ghost predicate BusyPair(c: Collection, b: Buckets, t: nat) {
    && c.startedAt < (t + 1) * 1_000_000_000 < c.endedAt
    && t in b && t + 1 in b && b[t] >= 10 && b[t+1] >= 10
  }

  /** The pairs that a search of the collection can find are its busy pairs. */
  lemma PairsAreBusyPairs(c: Collection, b: Buckets, t: int)
    ensures c.FirstSecond() <= t < c.LastSecond() && Pair(b, t) <==> t >= 0 && BusyPair(c, b, t)
  {
  }

  /** A second of the collection is low iff it has fewer requests than its share of the threshold, for the part of
      it that the collection covers; without requests it is low under any positive threshold. */
  lemma LowIsBelowTheShare(c: Collection, b: Buckets, threshold: int, sec: nat)
    requires sec * NS < c.endedAt
    ensures var covered := if c.endedAt < (sec + 1) * NS then c.endedAt - sec * NS else NS;
            Low(c, b, threshold, sec) <==> if sec in b then b[sec] * NS < threshold * covered else threshold > 0
  {
    var covered := c.Coverage(sec);
    assert covered > 0;
    if threshold <= 0 {
      assert threshold * covered <= 0;
    } else {
      assert threshold * covered > 0;
    }
  }

  ghost predicate FirstPair(c: Collection, b: Buckets, earliest: int, s: int) {
    && earliest <= s < c.LastSecond() && Pair(b, s)
    && forall t :: earliest <= t < s ==> !Pair(b, t)
  }

  /** A run of at least three low seconds that begins at e, after the start second s. */
  ghost predicate LowRunAt(c: Collection, b: Buckets, threshold: int, s: int, e: int) {
    && s < e && e + 2 <= c.LastSecond() && !Low(c, b, threshold, e - 1)
    && Low(c, b, threshold, e) && Low(c, b, threshold, e + 1) && Low(c, b, threshold, e + 2)
  }

  ghost predicate FirstLowRun(c: Collection, b: Buckets, threshold: int, s: int, e: int) {
    LowRunAt(c, b, threshold, s, e) && forall d :: d < e ==> !LowRunAt(c, b, threshold, s, d)
  }

  /** A low run that begins at e, after the start second, and lasts to the collection end, which it
      precedes by at least half a second. */
  ghost predicate TrailingLow(c: Collection, b: Buckets, threshold: int, s: int, e: int) {
    && s < e <= c.LastSecond() && !Low(c, b, threshold, e - 1)
    && (forall x :: e <= x <= c.LastSecond() ==> Low(c, b, threshold, x))
    && c.endedAt - e * NS >= 500_000_000
  }

  /** The interval that begins at the first busy pair from `earliest` on. */
  ghost predicate IsInterval(c: Collection, b: Buckets, threshold: int, earliest: int, r: Detection)
    requires r.Found?
  {
    var s, e := r.start / NS, r.end / NS;
    && FirstPair(c, b, earliest, s)
    && r.start == (if s * NS < c.startedAt then c.startedAt else s * NS)
    && match r.reason
       case LowRun =>
         r.end == e * NS && FirstLowRun(c, b, threshold, s, e)
       case LowRunAtEnd =>
         r.end == e * NS && TrailingLow(c, b, threshold, s, e)
         && forall d :: !LowRunAt(c, b, threshold, s, d)
       case EndNotObserved =>
         r.end == c.endedAt
         && (forall d :: !LowRunAt(c, b, threshold, s, d))
         && (forall d :: !TrailingLow(c, b, threshold, s, d))
       case _ => false
  }

  /** The statement above leaves no choice. */
  lemma IntervalIsUnique(c: Collection, b: Buckets, threshold: int, earliest: int, r1: Detection, r2: Detection)
    requires r1.Found? && r2.Found?
    requires IsInterval(c, b, threshold, earliest, r1) && IsInterval(c, b, threshold, earliest, r2)
    ensures r1 == r2
  {
    var s1, s2 := r1.start / NS, r2.start / NS;
    assert s1 == s2 by { assert Pair(b, s1) && Pair(b, s2); }
    var e1, e2 := r1.end / NS, r2.end / NS;
    if r1.reason == LowRun || r2.reason == LowRun {
      assert LowRunAt(c, b, threshold, s1, e1) || LowRunAt(c, b, threshold, s1, e2);
    } else if r1.reason == LowRunAtEnd && r2.reason == LowRunAtEnd {
      TrailingIsUnique(c, b, threshold, s1, e1, e2);
    }
  }

  lemma TrailingIsUnique(c: Collection, b: Buckets, threshold: int, s: int, d: int, e: int)
    requires TrailingLow(c, b, threshold, s, d) && TrailingLow(c, b, threshold, s, e)
    ensures d == e
  {
    assert !Low(c, b, threshold, d - 1) && !Low(c, b, threshold, e - 1);
  }

  // ----- the interval finder

  method StartsAt(b: Buckets, sec: int) returns (ok: bool)
    ensures ok <==> Pair(b, sec)
  {
    ok := true;
    var offset := 0;
    while offset < START_CONSECUTIVES
      invariant 0 <= offset <= START_CONSECUTIVES
      invariant ok && (offset >= 1 ==> At(b, sec) >= START_REQUESTS)
      invariant offset >= 2 ==> At(b, sec + 1) >= START_REQUESTS
    {
      if At(b, sec + offset) < START_REQUESTS {
        return false;
      }
      offset := offset + 1;
    }
  }

  method FindStart(c: Collection, b: Buckets, earliest: int) returns (candidate: int)
    ensures candidate >= 0 ==> FirstPair(c, b, earliest, candidate)
    ensures candidate < 0 ==> forall t :: earliest <= t < c.LastSecond() ==> !Pair(b, t)
  {
    candidate := -1;
    var sec := earliest;
    while sec + (START_CONSECUTIVES - 1) <= c.LastSecond()
      invariant earliest <= sec
      invariant forall t :: earliest <= t < sec ==> !Pair(b, t)
      invariant candidate == -1
      decreases c.LastSecond() - sec
    {
      var ok := StartsAt(b, sec);
      if ok {
        return sec;
      }
      sec := sec + 1;
    }
  }

  /** What the scan for the end knows before it looks at second `sec`: the current low run, its covered
      time, and that no earlier run of three could end the interval. */
  ghost predicate Scanned(c: Collection, b: Buckets, threshold: int, s: int, sec: int, lowStart: int, lowTime: int) {
    && s <= sec <= c.LastSecond() + 1
    && (if lowStart < 0 then lowStart == -1 && (sec == s || !Low(c, b, threshold, sec - 1))
        else
          && s <= lowStart < sec && (lowStart == s || !Low(c, b, threshold, lowStart - 1))
          && (forall x :: lowStart <= x < sec ==> Low(c, b, threshold, x))
          && (lowStart > s ==> sec - lowStart < END_CONSECUTIVES)
          && lowTime == (if sec == c.LastSecond() + 1 then c.endedAt else sec * NS) - lowStart * NS)
    && (forall d :: d + 2 < sec ==> !LowRunAt(c, b, threshold, s, d))
  }

  lemma CoverageReachesEnd(c: Collection, sec: int)
    requires sec <= c.LastSecond()
    ensures sec < c.LastSecond() ==> c.Coverage(sec) == NS
    ensures sec == c.LastSecond() ==> c.Coverage(sec) == c.endedAt - sec * NS
    ensures sec * NS < c.endedAt
  {
  }

  /** The scan from the start second on. It returns either the second at which a low run of three
      begins, or the state in which the collection ran out. */
  method ScanForEnd(c: Collection, b: Buckets, threshold: int, s: int, start: int)
    returns (runAt: int, lowStart: int, lowTime: int)
    requires 0 <= s <= c.LastSecond() && s * NS <= start < (s + 1) * NS
    ensures runAt >= 0 ==> FirstLowRun(c, b, threshold, s, runAt)
    ensures runAt < 0 ==> Scanned(c, b, threshold, s, c.LastSecond() + 1, lowStart, lowTime)
  {
    runAt, lowStart, lowTime := -1, -1, 0;
    var sec := s;
    while sec <= c.LastSecond()
      invariant Scanned(c, b, threshold, s, sec, lowStart, lowTime)
      invariant runAt == -1
      decreases c.LastSecond() - sec
    {
      var coverage := c.Coverage(sec);
      if At(b, sec) * NS < threshold * coverage {
        LowSecond(c, b, threshold, s, sec, lowStart, lowTime);
        if lowStart < 0 {
          lowStart, lowTime := sec, 0;
        }
        lowTime := lowTime + coverage;
        if sec - lowStart + 1 >= END_CONSECUTIVES && lowStart * NS > start {
          return lowStart, lowStart, lowTime;
        }
      } else {
        lowStart := -1;
      }
      sec := sec + 1;
    }
  }

  /** A low second extends the current run, or completes the first run of three. */
  lemma LowSecond(c: Collection, b: Buckets, threshold: int, s: int, sec: int, lowStart: int, lowTime: int)
    requires Scanned(c, b, threshold, s, sec, lowStart, lowTime)
    requires 0 <= s && sec <= c.LastSecond() && Low(c, b, threshold, sec)
    ensures var l := if lowStart < 0 then sec else lowStart;
            var t := (if lowStart < 0 then 0 else lowTime) + c.Coverage(sec);
            if l > s && sec - l + 1 >= END_CONSECUTIVES then FirstLowRun(c, b, threshold, s, l)
            else Scanned(c, b, threshold, s, sec + 1, l, t)
  {
    CoverageReachesEnd(c, sec);
  }

  /** The first interval from `earliest` on. The two failures besides a missing busy pair are ruled out:
      a search that begins inside the collection is never too short, and the end always follows the start. */
  method DetectInterval(c: Collection, b: Buckets, earliest: int, threshold: int) returns (r: Detection)
    requires c.Valid() && c.FirstSecond() <= earliest
    ensures r.Found? ==> IsInterval(c, b, threshold, earliest, r)
    ensures r.Found? ==> c.startedAt <= r.start < r.end <= c.endedAt
    ensures r.Found? && r.end < c.endedAt ==> r.end == (r.end / NS) * NS && r.end / NS > earliest
    ensures r.NotFound? <==> forall t :: earliest <= t < c.LastSecond() ==> !Pair(b, t)
    ensures r == NotFound(TooShort) <==> c.LastSecond() < earliest
    ensures r.NotFound? ==> r.reason == TooShort || r.reason == NeverReached
  {
    if c.LastSecond() < earliest {
      return NotFound(TooShort);
    }
    var s := FindStart(c, b, earliest);
    if s < 0 {
      return NotFound(NeverReached);
    }
    var start := s * NS;
    if start < c.startedAt {
      start := c.startedAt;
    }
    assert start / NS == s;
    var runAt, lowStart, lowTime := ScanForEnd(c, b, threshold, s, start);
    if runAt >= 0 {
      return Found(start, runAt * NS, LowRun);
    }
    if lowStart >= 0 && lowTime >= END_BOUNDARY && lowStart * NS > start {
      return Found(start, lowStart * NS, LowRunAtEnd);
    }
    if c.endedAt > start {
      return Found(start, c.endedAt, EndNotObserved);
    }
    return NotFound(StartAfterEnd);
  }
}
