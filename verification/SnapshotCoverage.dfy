/** Judging a recording against the load window that it should cover. */
module SnapshotCoverage {
  import opened Options
  import opened Sequences
  import opened Snapshots
  import opened SnapshotReader

  /** The load window of a run; a bound that cannot be parsed is absent. */
  datatype Window = Window(ok: bool, start: Option<Int64>, end: Option<Int64>)

  datatype Reason = NoReason | Unreadable | NoWindow | TooFew | Uncovered

  datatype Quality = Quality(valid: bool, reason: Reason, rows: nat, monotonic: bool, maxGapMS: int)

  const NS_PER_MS := 1_000_000

  /** Division that truncates toward zero. */
  function Milliseconds(ns: int): (ms: int)
    ensures ns >= 0 ==> ms * 1_000_000 <= ns < (ms + 1) * 1_000_000
    ensures ns <= 0 ==> (ms - 1) * 1_000_000 < ns <= ms * 1_000_000
  {
    if ns >= 0 then ns / NS_PER_MS else -(-ns / NS_PER_MS)
  }

  ghost predicate Usable(w: Window) {
    w.ok && w.start.Some? && w.end.Some? && w.end.value > w.start.value
  }

  /** The observations of a kind begin no later than the window and end no earlier. */
  ghost predicate Spans(times: seq<Int64>, w: Window)
    requires Usable(w)
  {
    times != [] && times[0] <= w.start.value && w.end.value <= times[|times|-1]
  }

  ghost predicate Covers(index: Index, w: Window)
    requires Usable(w)
  {
    Spans(Times(index.entries, Heap), w) && Spans(Times(index.entries, Goroutine), w)
  }

  // ----- what one pass over a kind finds

  /** The state of the scan of one kind after some entries: the times so far, and the largest gap in milliseconds. */
  ghost predicate Scanned(times: seq<Int64>, previous: Int64, count: nat, first0: Int64, first: Int64) {
    && count == |times|
    && (if times == [] then previous == 0 && first == first0
        else previous == times[|times|-1] > 0 && times[0] > 0
             && first == (if times[0] > first0 then times[0] else first0))
  }

  lemma ScannedNext(times: seq<Int64>, previous: Int64, count: nat, first0: Int64, first: Int64, t: Int64)
    requires Scanned(times, previous, count, first0, first) && t > 0
    ensures Scanned(times + [t], t, count + 1, first0, if previous == 0 && t > first then t else first)
  {
  }

  /** The gap in front of the time with index i, in milliseconds. */
  function GapMS(times: seq<Int64>, i: nat): int
    requires 0 < i < |times|
  {
    var earlier: int, later: int := times[i-1], times[i];
    Milliseconds(later - earlier)
  }

  /** The largest gap between neighbours in milliseconds, or the base if none is larger. */
  ghost function LargestGap(times: seq<Int64>, base: int): int {
    if |times| < 2 then base
    else
      var before := LargestGap(times[..|times|-1], base);
      var gap := GapMS(times, |times| - 1);
      if gap > before then gap else before
  }

  lemma {:induction false} LargestGapIsLargest(times: seq<Int64>, base: int, maxGap: int)
    requires Regular(times, maxGap)
    ensures forall i :: 0 < i < |times| ==> GapMS(times, i) <= LargestGap(times, base)
    ensures base <= LargestGap(times, base)
    ensures LargestGap(times, base) == base || LargestGap(times, base) <= Milliseconds(maxGap)
    decreases |times|
  {
    if |times| >= 2 {
      var rest := times[..|times|-1];
      forall i {:trigger Follows(rest, maxGap, i)} | 0 < i < |rest| ensures Follows(rest, maxGap, i) {
        assert Follows(times, maxGap, i);
      }
      LargestGapIsLargest(rest, base, maxGap);
      assert Follows(times, maxGap, |times| - 1);
      forall i | 0 < i < |times| ensures GapMS(times, i) <= LargestGap(times, base) {
        if i < |rest| {
          assert GapMS(times, i) == GapMS(rest, i);
        }
      }
    }
  }

  lemma LargestGapNext(times: seq<Int64>, t: Int64, base: int)
    requires times != []
    ensures var gap := GapMS(times + [t], |times|);
            LargestGap(times + [t], base) == if gap > LargestGap(times, base) then gap else LargestGap(times, base)
  {
    assert (times + [t])[..|times|] == times;
  }

  /** An observation in an accepted recording follows the one before it. */
  lemma GapIsGood(index: Index, kind: Kind, i: nat, previous: Int64)
    requires i < |index.entries| && KindOf(index.entries[i].name) == Some(kind) && WellSpaced(index, kind)
    requires var times := Times(index.entries[..i], kind); times != [] && previous == times[|times|-1]
    ensures previous < index.entries[i].capturedAt
  {
    var n := |Times(index.entries[..i], kind)|;
    var upTo, times := Times(index.entries[..i+1], kind), Times(index.entries, kind);
    TimesNext(index.entries, i, kind);
    TimesGrow(index.entries, i + 1, kind);
    assert upTo[n] == index.entries[i].capturedAt && upTo[n-1] == previous;
    assert times[n] == upTo[n] && times[n-1] == upTo[n-1];
    assert Follows(times, MaxGap(index.intervalNS), n);
  }

  /** The state of the scan after i entries. */
  ghost predicate ScannedUpTo(index: Index, kind: Kind, i: nat, previous: Int64, count: nat, first0: Int64, first: Int64,
                              maxGapMS0: int, maxGapMS: int)
    requires i <= |index.entries|
  {
    && Scanned(Times(index.entries[..i], kind), previous, count, first0, first)
    && maxGapMS == LargestGap(Times(index.entries[..i], kind), maxGapMS0)
  }

  lemma ScanTakes(index: Index, kind: Kind, i: nat, previous: Int64, count: nat, first0: Int64, first: Int64,
                  maxGapMS0: int, maxGapMS: int)
    requires i < |index.entries| && KindOf(index.entries[i].name) == Some(kind) && WellSpaced(index, kind)
    requires index.entries[i].capturedAt > 0
    requires ScannedUpTo(index, kind, i, previous, count, first0, first, maxGapMS0, maxGapMS)
    ensures previous < index.entries[i].capturedAt
    ensures var at := index.entries[i].capturedAt;
            var gap := if previous == 0 then maxGapMS else Milliseconds(at - previous);
            ScannedUpTo(index, kind, i + 1, at, count + 1, first0, if previous == 0 && at > first then at else first,
                        maxGapMS0, if gap > maxGapMS then gap else maxGapMS)
  {
    var times := Times(index.entries[..i], kind);
    TimesNext(index.entries, i, kind);
    ScannedNext(times, previous, count, first0, first, index.entries[i].capturedAt);
    if previous != 0 {
      GapIsGood(index, kind, i, previous);
      LargestGapNext(times, index.entries[i].capturedAt, maxGapMS0);
    }
  }

  /** One observation of the kind; zero stands for no previous time. */
  method ScanOne(index: Index, kind: Kind, i: nat, previous: Int64, ghost count: nat, ghost first0: Int64,
                 firstSoFar: Int64, monotonic0: bool, ghost maxGapMS0: int, maxGapSoFar: int)
    returns (first: Int64, monotonic: bool, maxGapMS: int)
    requires i < |index.entries| && KindOf(index.entries[i].name) == Some(kind) && WellSpaced(index, kind)
    requires index.entries[i].capturedAt > 0
    requires ScannedUpTo(index, kind, i, previous, count, first0, firstSoFar, maxGapMS0, maxGapSoFar)
    ensures ScannedUpTo(index, kind, i + 1, index.entries[i].capturedAt, count + 1, first0, first, maxGapMS0, maxGapMS)
    ensures monotonic == monotonic0
  {
    ScanTakes(index, kind, i, previous, count, first0, firstSoFar, maxGapMS0, maxGapSoFar);
    first, monotonic, maxGapMS := firstSoFar, monotonic0, maxGapSoFar;
    var capturedAt := index.entries[i].capturedAt;
    if previous != 0 {
      var gap := capturedAt - previous;
      if gap <= 0 {
        monotonic := false;
      }
      if Milliseconds(gap) > maxGapMS {
        maxGapMS := Milliseconds(gap);
      }
    } else if capturedAt > first {
      first := capturedAt;
    }
  }

  method ScanEntries(index: Index, kind: Kind, first0: Int64, monotonic0: bool, maxGapMS0: int)
    returns (previous: Int64, count: nat, first: Int64, monotonic: bool, maxGapMS: int)
    requires forall i :: 0 <= i < |index.entries| ==> index.entries[i].capturedAt > 0
    requires WellSpaced(index, kind)
    ensures ScannedUpTo(index, kind, |index.entries|, previous, count, first0, first, maxGapMS0, maxGapMS)
    ensures monotonic == monotonic0
  {
    previous, count, first, monotonic, maxGapMS := 0, 0, first0, monotonic0, maxGapMS0;
    for i := 0 to |index.entries|
      invariant ScannedUpTo(index, kind, i, previous, count, first0, first, maxGapMS0, maxGapMS)
      invariant monotonic == monotonic0
    {
      if KindOf(index.entries[i].name) == Some(kind) {
        first, monotonic, maxGapMS :=
          ScanOne(index, kind, i, previous, count, first0, first, monotonic, maxGapMS0, maxGapMS);
        count := count + 1;
        previous := index.entries[i].capturedAt;
      } else {
        TimesNext(index.entries, i, kind);
      }
    }
  }

  method ScanKind(index: Index, kind: Kind, first0: Int64, last0: Int64, monotonic0: bool, maxGapMS0: int)
    returns (first: Int64, last: Int64, monotonic: bool, maxGapMS: int, count: nat)
    requires forall i :: 0 <= i < |index.entries| ==> index.entries[i].capturedAt > 0
    requires WellSpaced(index, kind)
    ensures var times := Times(index.entries, kind);
            && count == |times| && times[0] > 0 && times[|times|-1] > 0
            && first == (if times[0] > first0 then times[0] else first0)
            && last == (if last0 == 0 || times[|times|-1] < last0 then times[|times|-1] else last0)
    ensures monotonic == monotonic0
    ensures maxGapMS == LargestGap(Times(index.entries, kind), maxGapMS0)
  {
    var previous;
    previous, count, first, monotonic, maxGapMS := ScanEntries(index, kind, first0, monotonic0, maxGapMS0);
    TakeAll(index.entries);
    last := last0;
    if last == 0 || previous < last {
      last := previous;
    }
  }

  // ----- the verdict

  method Inspect(archive: Archive, w: Window) returns (q: Quality)
    ensures q.valid <==> Accepts(archive) && Usable(w) && Covers(IndexOf(archive), w)
    ensures q.reason == if q.valid then NoReason else if !Accepts(archive) then Unreadable
                        else if !Usable(w) then NoWindow else Uncovered
    ensures q.monotonic
    ensures Accepts(archive) ==> q.maxGapMS <= Milliseconds(MaxGap(IndexOf(archive).intervalNS))
    ensures Accepts(archive) && Usable(w) ==> Counted(IndexOf(archive), q)
  {
    q := Quality(false, NoReason, 0, true, 0);
    var accepted := Read(archive);
    if accepted.None? {
      return q.(reason := Unreadable);
    }
    var index := accepted.value;
    GapIsPositive(index, Heap);
    if !w.ok || w.start.None? || w.end.None? || w.end.value <= w.start.value {
      return q.(reason := NoWindow);
    }
    ListedIsPositive(BeforeIndex(archive.items), index.entries);
    q := Judge(index, w);
  }

  /** The numbers of the verdict: all observations, and the largest gap in either kind. */
  ghost predicate Counted(index: Index, q: Quality) {
    var heap, goroutine := Times(index.entries, Heap), Times(index.entries, Goroutine);
    q.rows == |heap| + |goroutine| && q.maxGapMS == LargestGap(goroutine, LargestGap(heap, 0))
  }

  method Judge(index: Index, w: Window) returns (q: Quality)
    requires forall i :: 0 <= i < |index.entries| ==> index.entries[i].capturedAt > 0
    requires WellSpaced(index, Heap) && WellSpaced(index, Goroutine) && index.intervalNS > 0 && Usable(w)
    ensures q.valid <==> Covers(index, w)
    ensures q.reason == if q.valid then NoReason else Uncovered
    ensures q.monotonic && Counted(index, q) && q.maxGapMS <= Milliseconds(MaxGap(index.intervalNS))
  {
    q := Quality(false, NoReason, 0, true, 0);
    GapsAreBounded(index);
    var first, last, monotonic, maxGapMS, count := ScanKind(index, Heap, 0, 0, true, 0);
    q := q.(rows := count, monotonic := monotonic, maxGapMS := maxGapMS);
    if count < 2 {
      return q.(reason := TooFew);
    }
    first, last, monotonic, maxGapMS, count := ScanKind(index, Goroutine, first, last, monotonic, maxGapMS);
    q := q.(rows := q.rows + count, monotonic := monotonic, maxGapMS := maxGapMS);
    if count < 2 {
      return q.(reason := TooFew);
    }
    if !monotonic || first > w.start.value || last < w.end.value || maxGapMS > Milliseconds(MaxGap(index.intervalNS)) {
      return q.(reason := Uncovered);
    }
    return q.(valid := true);
  }

  /** Because observations of an accepted recording really follow each other, three intervals cannot have
      wrapped into a bound that is larger than three intervals, or not positive. */
  lemma GapIsPositive(index: Index, kind: Kind)
    requires WellSpaced(index, kind) && index.intervalNS > 0
    ensures 0 < MaxGap(index.intervalNS) <= 3 * index.intervalNS
  {
    assert Follows(Times(index.entries, kind), MaxGap(index.intervalNS), 1);
    WrapShrinks(3 * index.intervalNS);
  }

  lemma WrapShrinks(x: nat)
    ensures Wrap64(x) <= x
  {
  }

  lemma GapsAreBounded(index: Index)
    requires WellSpaced(index, Heap) && WellSpaced(index, Goroutine) && index.intervalNS > 0
    ensures var heap, goroutine := Times(index.entries, Heap), Times(index.entries, Goroutine);
            LargestGap(goroutine, LargestGap(heap, 0)) <= Milliseconds(MaxGap(index.intervalNS))
  {
    GapIsPositive(index, Heap);
    LargestGapIsLargest(Times(index.entries, Heap), 0, MaxGap(index.intervalNS));
    LargestGapIsLargest(Times(index.entries, Goroutine), LargestGap(Times(index.entries, Heap), 0),
                        MaxGap(index.intervalNS));
  }

  // ----- what a valid verdict means

  lemma {:induction false} Bracket(times: seq<Int64>, t: int, n: nat) returns (i: nat)
    requires 2 <= n <= |times| && times[0] <= t <= times[n-1]
    ensures 0 < i < n && times[i-1] <= t <= times[i]
    decreases n
  {
    if n == 2 || times[n-2] <= t {
      return n - 1;
    }
    i := Bracket(times, t, n - 1);
  }

  lemma {:induction false} Increasing(times: seq<Int64>, maxGap: int, i: nat, j: nat)
    requires Regular(times, maxGap) && i < j < |times|
    ensures times[i] < times[j]
    decreases j
  {
    assert Follows(times, maxGap, j);
    if i < j - 1 {
      Increasing(times, maxGap, i, j - 1);
    }
  }

  /** Every entry of a kind has its place among the times of the kind. */
  lemma {:induction false} TimesHas(entries: seq<Entry>, kind: Kind, i: nat) returns (j: nat)
    requires i < |entries| && KindOf(entries[i].name) == Some(kind)
    ensures j < |Times(entries, kind)| && Times(entries, kind)[j] == entries[i].capturedAt
    decreases |entries|
  {
    if i == |entries| - 1 {
      return |Times(entries, kind)| - 1;
    }
    j := TimesHas(entries[..|entries|-1], kind, i);
  }

  /** Every snapshot of the archive has its place among the times of its kind. */
  lemma SnapshotHasTime(archive: Archive, k: nat, kind: Kind) returns (j: nat)
    requires Accepts(archive) && k < |archive.items| - 1 && KindOf(archive.items[k].name) == Some(kind)
    ensures j < |Times(IndexOf(archive).entries, kind)|
    ensures Times(IndexOf(archive).entries, kind)[j] == archive.items[k].body.profile.value.timeNanos
  {
    var i := EverySnapshotIsListed(archive, k);
    j := TimesHas(IndexOf(archive).entries, kind, i);
  }

  /** The member is a snapshot of the kind, taken between the two times. */
  ghost predicate IsBetween(item: Item, kind: Kind, from: int, to: int) {
    && item.Member? && KindOf(item.name) == Some(kind)
    && item.body.profile.Some? && from < item.body.profile.value.timeNanos < to
  }

  /** With a valid verdict, every instant of the load window lies between two neighbouring snapshots of each
      kind: they are at most three intervals apart, and the archive has no snapshot of the kind between them. */
  lemma WindowIsCovered(archive: Archive, w: Window, kind: Kind, t: int) returns (from: Int64, to: Int64)
    requires Accepts(archive) && Usable(w) && Covers(IndexOf(archive), w)
    requires w.start.value <= t <= w.end.value
    ensures from <= t <= to && 0 < to - from <= 3 * IndexOf(archive).intervalNS
    ensures from in Times(IndexOf(archive).entries, kind) && to in Times(IndexOf(archive).entries, kind)
    ensures forall k :: 0 <= k < |archive.items| - 1 ==> !IsBetween(archive.items[k], kind, from, to)
  {
    var index := IndexOf(archive);
    var times, maxGap := Times(index.entries, kind), MaxGap(index.intervalNS);
    assert WellSpaced(index, kind) && Spans(times, w);
    var i := Bracket(times, t, |times|);
    from, to := times[i-1], times[i];
    assert Follows(times, maxGap, i);
    GapIsPositive(index, kind);
    NoneBetween(archive, kind, i);
  }

  lemma NoneBetween(archive: Archive, kind: Kind, i: nat)
    requires Accepts(archive) && 0 < i < |Times(IndexOf(archive).entries, kind)|
    ensures var times := Times(IndexOf(archive).entries, kind);
            forall k :: 0 <= k < |archive.items| - 1 ==> !IsBetween(archive.items[k], kind, times[i-1], times[i])
  {
    var times := Times(IndexOf(archive).entries, kind);
    forall k | 0 <= k < |archive.items| - 1 ensures !IsBetween(archive.items[k], kind, times[i-1], times[i]) {
      SnapshotNotBetween(archive, kind, i, k);
    }
  }

  lemma SnapshotNotBetween(archive: Archive, kind: Kind, i: nat, k: nat)
    requires Accepts(archive) && 0 < i < |Times(IndexOf(archive).entries, kind)| && k < |archive.items| - 1
    ensures var times := Times(IndexOf(archive).entries, kind); !IsBetween(archive.items[k], kind, times[i-1], times[i])
  {
    if KindOf(archive.items[k].name) == Some(kind) {
      var j := SnapshotHasTime(archive, k, kind);
      assert WellSpaced(IndexOf(archive), kind);
      NotBetween(Times(IndexOf(archive).entries, kind), MaxGap(IndexOf(archive).intervalNS), i, j);
    }
  }

  lemma NotBetween(times: seq<Int64>, maxGap: int, i: nat, j: nat)
    requires Regular(times, maxGap) && 0 < i < |times| && j < |times|
    ensures !(times[i-1] < times[j] < times[i])
  {
    if j < i - 1 {
      Increasing(times, maxGap, j, i - 1);
    } else if i < j {
      Increasing(times, maxGap, i, j);
    }
  }
}
