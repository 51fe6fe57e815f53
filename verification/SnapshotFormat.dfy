/** What a complete recording is, spelled out over the archive alone, and that the reader accepts exactly that. */
module SnapshotFormat {
  import opened Decimals
  import opened Options
  import opened Sequences
  import opened Snapshots
  import opened SnapshotReader

  /** Six digits and the suffix of the kind. */
  ghost predicate NamedAs(name: Name, kind: Kind) {
    && |name.text| >= 6 && (forall i :: 0 <= i < 6 ==> '0' <= name.text[i] <= '9')
    && name.text[6..] == match kind case Heap => "-go-heap.pprof" case Goroutine => "-go-goroutine.pprof"
  }

  ghost predicate IsRegular(item: Item) {
    item.Member? && item.regular && 0 <= item.size <= 8_388_608
  }

  /** A regular member of at most 8 MiB with a consistent profile of the kind that its name says, and a time. */
  ghost predicate IsSnapshotOf(item: Item, kind: Kind) {
    && IsRegular(item) && NamedAs(item.name, kind)
    && item.body.profile.Some? && item.body.profile.value.consistent && item.body.profile.value.timeNanos > 0
    && (match kind case Heap => "inuse_space" case Goroutine => "goroutine") in item.body.profile.value.types
  }

  ghost predicate IsIndexMember(item: Item, index: Index) {
    IsRegular(item) && item.name.text == "index.json" && item.body.index == Some(index)
  }

  /** The index is of the known version, reports no failure and has a positive interval and length. */
  ghost predicate HasGoodHeader(index: Index) {
    && index.version == 1 && index.status == "complete" && index.error == ""
    && index.intervalNS > 0 && index.startedAt < index.endedAt
  }

  /** The member has the name and the time of the entry. */
  ghost predicate Matches(e: Entry, item: Item) {
    item.Member? && item.name == e.name && item.body.profile.Some? && item.body.profile.value.timeNanos == e.capturedAt
  }

  ghost predicate IsListed(entries: seq<Entry>, items: seq<Item>) {
    && |entries| == |items|
    && (forall i, j :: 0 <= i < j < |entries| ==> entries[i].name != entries[j].name)
    && forall i :: 0 <= i < |entries| ==> HasMember(entries[i], items)
  }

  ghost predicate HasMember(e: Entry, items: seq<Item>) {
    exists j :: 0 <= j < |items| && Matches(e, items[j])
  }

  /** Three intervals, or what is left of them after one wrap-around in 64 bits. */
  function Bound(interval: int): int {
    if 3 * interval < 0x8000_0000_0000_0000 then 3 * interval else 3 * interval - 0x1_0000_0000_0000_0000
  }

  /** At least two observations of the kind, each later than the one before by at most the bound. */
  ghost predicate IsSpaced(index: Index, kind: Kind) {
    var times := TimesNamed(index.entries, kind);
    && |times| >= 2
    && forall i :: 0 < i < |times| ==> times[i-1] < times[i] <= times[i-1] + Bound(index.intervalNS)
  }

  /** The times of the entries that are named as this kind. */
  ghost function TimesNamed(entries: seq<Entry>, kind: Kind): seq<int> {
    if entries == [] then []
    else
      var final := entries[|entries|-1];
      TimesNamed(entries[..|entries|-1], kind) + if NamedAs(final.name, kind) then [final.capturedAt] else []
  }

  /** At most 4000 distinct snapshots. */
  ghost predicate AreDistinctSnapshots(items: seq<Item>) {
    && |items| <= 4000
    && (forall i :: 0 <= i < |items| ==> IsSnapshotOf(items[i], Heap) || IsSnapshotOf(items[i], Goroutine))
    && (forall i, j :: 0 <= i < j < |items| ==> items[i].name != items[j].name)
  }

  /** The index lists each snapshot once, with its time, inside the recording, and regularly for each kind. */
  ghost predicate IsIndexOf(index: Index, items: seq<Item>) {
    && HasGoodHeader(index) && IsListed(index.entries, items)
    && (forall i :: 0 <= i < |index.entries| ==>
          index.startedAt <= index.entries[i].capturedAt <= index.endedAt && index.entries[i].durationNS >= 0)
    && IsSpaced(index, Heap) && IsSpaced(index, Goroutine)
  }

  /** An archive of at most 64 MiB with snapshots followed by their index. */
  ghost predicate IsCompleteRecording(archive: Archive, index: Index) {
    var items := archive.items;
    && archive.size <= 67_108_864
    && items != [] && IsIndexMember(items[|items|-1], index)
    && AreDistinctSnapshots(items[..|items|-1]) && IsIndexOf(index, items[..|items|-1])
  }

  // ----- piece by piece

  lemma KindIsByName(name: Name, kind: Kind)
    ensures KindOf(name) == Some(kind) <==> NamedAs(name, kind)
  {
    var s := name.text;
    assert "-go-heap.pprof" != "-go-goroutine.pprof" by {
      assert "-go-heap.pprof"[4] != "-go-goroutine.pprof"[4];
    }
    if |s| >= 6 {
      assert AllDigits(s[..6]) <==> forall i :: 0 <= i < 6 ==> '0' <= s[i] <= '9' by {
        assert forall i :: 0 <= i < 6 ==> s[..6][i] == s[i];
      }
    }
  }

  lemma SnapshotIsByKind(item: Item)
    ensures IsSnapshot(item) <==> IsSnapshotOf(item, Heap) || IsSnapshotOf(item, Goroutine)
  {
    if item.Member? {
      KindIsByName(item.name, Heap);
      KindIsByName(item.name, Goroutine);
    }
  }

  lemma BoundIsMaxGap(interval: Int64)
    requires interval > 0
    ensures MaxGap(interval) == Bound(interval)
  {
  }

  lemma {:induction false} TimesAreByName(entries: seq<Entry>, kind: Kind)
    ensures |Times(entries, kind)| == |TimesNamed(entries, kind)|
    ensures forall i :: 0 <= i < |Times(entries, kind)| ==> Times(entries, kind)[i] == TimesNamed(entries, kind)[i]
    decreases |entries|
  {
    if entries != [] {
      TimesAreByName(entries[..|entries|-1], kind);
      KindIsByName(entries[|entries|-1].name, kind);
    }
  }

  lemma SpacedIsWellSpaced(index: Index, kind: Kind)
    requires index.intervalNS > 0
    ensures WellSpaced(index, kind) <==> IsSpaced(index, kind)
  {
    var times, named := Times(index.entries, kind), TimesNamed(index.entries, kind);
    TimesAreByName(index.entries, kind);
    BoundIsMaxGap(index.intervalNS);
    if WellSpaced(index, kind) {
      forall i | 0 < i < |named| ensures named[i-1] < named[i] <= named[i-1] + Bound(index.intervalNS) {
        assert Follows(times, MaxGap(index.intervalNS), i);
      }
    }
    if IsSpaced(index, kind) {
      forall i | 0 < i < |times| ensures Follows(times, MaxGap(index.intervalNS), i) {
        assert times[i-1] == named[i-1] && times[i] == named[i];
      }
    }
  }

  lemma ListedIsLists(entries: seq<Entry>, items: seq<Item>)
    requires AreSnapshots(items)
    ensures Lists(entries, Recorded(items)) <==> IsListed(entries, items)
  {
    RecordedSize(items, |items|);
    TakeAll(items);
    if Lists(entries, Recorded(items)) {
      forall i | 0 <= i < |entries| ensures HasMember(entries[i], items) {
        var j := RecordedOnly(items, entries[i].name);
        RecordedHas(items, j);
        assert IsSnapshot(items[j]) && Matches(entries[i], items[j]);
      }
    }
    if IsListed(entries, items) {
      forall i | 0 <= i < |entries|
        ensures entries[i].name in Recorded(items) && Recorded(items)[entries[i].name] == entries[i].capturedAt
      {
        assert HasMember(entries[i], items);
        var j :| 0 <= j < |items| && Matches(entries[i], items[j]);
        RecordedHas(items, j);
      }
    }
  }

  lemma MembersAreSnapshots(items: seq<Item>)
    ensures AreSnapshots(items) <==> AreDistinctSnapshots(items)
  {
    forall i | 0 <= i < |items|
      ensures IsSnapshot(items[i]) <==> IsSnapshotOf(items[i], Heap) || IsSnapshotOf(items[i], Goroutine)
    {
      SnapshotIsByKind(items[i]);
    }
  }

  lemma IndexMemberIff(item: Item, index: Index)
    ensures IsIndexMember(item, index) <==> IsIndex(item) && Readable(item) && item.body.index == Some(index)
  {
  }

  lemma DescribedIff(index: Index, items: seq<Item>)
    requires AreSnapshots(items)
    ensures Describes(index, Recorded(items)) <==> IsIndexOf(index, items)
  {
    ListedIsLists(index.entries, items);
    if index.intervalNS > 0 {
      SpacedIsWellSpaced(index, Heap);
      SpacedIsWellSpaced(index, Goroutine);
    }
    if index.entries == [] {
      assert TimesNamed(index.entries, Heap) == [];
    }
  }

  /** The reader accepts an archive and returns this index exactly if they are a complete recording. */
  lemma AcceptedIff(archive: Archive, index: Index)
    ensures Accepts(archive) && IndexOf(archive) == index <==> IsCompleteRecording(archive, index)
  {
    var items := archive.items;
    if items != [] {
      var before, final := items[..|items|-1], items[|items|-1];
      IndexMemberIff(final, index);
      MembersAreSnapshots(before);
      if AreSnapshots(before) {
        DescribedIff(index, before);
      }
    }
  }

  // ----- a recording in full

  /** A written name is six digits that spell its sequence number, and the suffix of its kind. */
  lemma NameSpellsSequence(n: nat, kind: Kind)
    requires n < 1_000_000
    ensures NamedAs(NameOf(n, kind), kind) && Decimal(NameOf(n, kind).text[..6]) == Some(n)
  {
    NamesAreRecognised(n, kind);
    KindIsByName(NameOf(n, kind), kind);
    PaddedIsDecimal(n);
    assert NameOf(n, kind).text[..6] == Padded(n);
  }

  const HEAP_0 := Name("000000" + "-go-heap.pprof")
  const HEAP_1 := Name("000001" + "-go-heap.pprof")
  const GOROUTINE_0 := Name("000000" + "-go-goroutine.pprof")
  const GOROUTINE_1 := Name("000001" + "-go-goroutine.pprof")

  function Snapshot(name: Name, sampleType: string, time: Int64): Item {
    Member(name, true, 100, Body(None, Some(Profile(time, {sampleType}, true))))
  }

  /** The first round is taken at time t, the second one exactly three intervals later. */
  function TwoRoundsMembers(t: Int64, interval: Int64): seq<Item>
    requires 0 < t && 0 < interval && t + 3 * interval + 1 < TWO_TO_63
  {
    [Snapshot(HEAP_0, "inuse_space", t), Snapshot(GOROUTINE_0, "goroutine", t + 1),
     Snapshot(HEAP_1, "inuse_space", t + 3 * interval), Snapshot(GOROUTINE_1, "goroutine", t + 3 * interval + 1)]
  }

  function TwoRoundsEntries(t: Int64, interval: Int64): seq<Entry>
    requires 0 < t && 0 < interval && t + 3 * interval + 1 < TWO_TO_63
  {
    [Entry(HEAP_0, t, 0), Entry(GOROUTINE_0, t + 1, 0),
     Entry(HEAP_1, t + 3 * interval, 0), Entry(GOROUTINE_1, t + 3 * interval + 1, 0)]
  }

  function TwoRoundsIndex(t: Int64, interval: Int64): Index
    requires 0 < t && 0 < interval && t + 3 * interval + 1 < TWO_TO_63
  {
    Index(1, t, t + 3 * interval + 1, interval, "complete", "", TwoRoundsEntries(t, interval))
  }

  function TwoRounds(t: Int64, interval: Int64): Archive
    requires 0 < t && 0 < interval && t + 3 * interval + 1 < TWO_TO_63
  {
    var final := Member(Name("index.json"), true, 500, Body(Some(TwoRoundsIndex(t, interval)), None));
    Archive(8192, TwoRoundsMembers(t, interval) + [final])
  }

  lemma NamesOfRounds(zero: Name, one: Name, suffix: string, kind: Kind)
    requires zero == Name("000000" + suffix) && one == Name("000001" + suffix)
    requires suffix == match kind case Heap => "-go-heap.pprof" case Goroutine => "-go-goroutine.pprof"
    ensures NamedAs(zero, kind) && NamedAs(one, kind) && zero != one
  {
    DigitsAndSuffix("000000", suffix, kind);
    DigitsAndSuffix("000001", suffix, kind);
    assert "000000"[5] != "000001"[5];
    assert zero.text[..6] == "000000" && one.text[..6] == "000001";
  }

  lemma DigitsAndSuffix(digits: string, suffix: string, kind: Kind)
    requires |digits| == 6 && forall i :: 0 <= i < 6 ==> '0' <= digits[i] <= '9'
    requires suffix == match kind case Heap => "-go-heap.pprof" case Goroutine => "-go-goroutine.pprof"
    ensures NamedAs(Name(digits + suffix), kind)
  {
    assert (digits + suffix)[6..] == suffix;
    assert forall i :: 0 <= i < 6 ==> (digits + suffix)[i] == digits[i];
  }

  /** A name has one kind. */
  lemma OneKind(name: Name, kind: Kind, other: Kind)
    requires NamedAs(name, kind) && other != kind
    ensures !NamedAs(name, other)
  {
    KindIsByName(name, kind);
    KindIsByName(name, other);
  }

  lemma TimesNamedNext(entries: seq<Entry>, e: Entry, kind: Kind)
    requires NamedAs(e.name, kind)
    ensures TimesNamed(entries + [e], kind) == TimesNamed(entries, kind) + [e.capturedAt]
    ensures forall other :: other != kind ==> TimesNamed(entries + [e], other) == TimesNamed(entries, other)
  {
    assert (entries + [e])[..|entries|] == entries;
    forall other | other != kind ensures TimesNamed(entries + [e], other) == TimesNamed(entries, other) {
      OneKind(e.name, kind, other);
      assert TimesNamed(entries, other) + [] == TimesNamed(entries, other);
    }
  }

  /** The recording is accepted with its index, whenever it was taken and whatever the interval. */
  lemma TwoRoundsAreAccepted(t: Int64, interval: Int64)
    requires 0 < t && 0 < interval && t + 3 * interval + 1 < TWO_TO_63
    ensures Accepts(TwoRounds(t, interval)) && IndexOf(TwoRounds(t, interval)) == TwoRoundsIndex(t, interval)
  {
    NamesOfRounds(HEAP_0, HEAP_1, "-go-heap.pprof", Heap);
    NamesOfRounds(GOROUTINE_0, GOROUTINE_1, "-go-goroutine.pprof", Goroutine);
    var archive, index := TwoRounds(t, interval), TwoRoundsIndex(t, interval);
    var members := TwoRoundsMembers(t, interval);
    TwoRoundsAreSnapshots(t, interval, members);
    TwoRoundsAreIndexed(t, interval, index, members);
    TwoRoundsAreComplete(t, interval, archive, index, members);
    AcceptedIff(archive, index);
  }

  lemma TwoRoundsAreComplete(t: Int64, interval: Int64, archive: Archive, index: Index, members: seq<Item>)
    requires 0 < t && 0 < interval && t + 3 * interval + 1 < TWO_TO_63
    requires archive == TwoRounds(t, interval) && index == TwoRoundsIndex(t, interval)
    requires members == TwoRoundsMembers(t, interval)
    requires AreDistinctSnapshots(members) && IsIndexOf(index, members)
    ensures IsCompleteRecording(archive, index)
  {
    assert archive.items[..|archive.items|-1] == members;
  }

  lemma TwoRoundsAreIndexed(t: Int64, interval: Int64, index: Index, members: seq<Item>)
    requires 0 < t && 0 < interval && t + 3 * interval + 1 < TWO_TO_63
    requires index == TwoRoundsIndex(t, interval) && members == TwoRoundsMembers(t, interval)
    requires AreDistinctSnapshots(members)
    requires NamedAs(HEAP_0, Heap) && NamedAs(HEAP_1, Heap)
    requires NamedAs(GOROUTINE_0, Goroutine) && NamedAs(GOROUTINE_1, Goroutine)
    ensures IsIndexOf(index, members)
  {
    TwoRoundsAreListed(t, interval, members);
    TwoRoundsAreSpaced(t, interval, index);
    TwoRoundsAreInSpan(t, interval, index);
    assert HasGoodHeader(index);
  }

  lemma TwoRoundsAreInSpan(t: Int64, interval: Int64, index: Index)
    requires 0 < t && 0 < interval && t + 3 * interval + 1 < TWO_TO_63 && index == TwoRoundsIndex(t, interval)
    ensures forall i :: 0 <= i < |index.entries| ==>
              index.startedAt <= index.entries[i].capturedAt <= index.endedAt && index.entries[i].durationNS >= 0
  {
    assert |index.entries| == 4;
  }

  lemma TwoRoundsAreSnapshots(t: Int64, interval: Int64, members: seq<Item>)
    requires 0 < t && 0 < interval && t + 3 * interval + 1 < TWO_TO_63 && members == TwoRoundsMembers(t, interval)
    requires NamedAs(HEAP_0, Heap) && NamedAs(HEAP_1, Heap) && HEAP_0 != HEAP_1
    requires NamedAs(GOROUTINE_0, Goroutine) && NamedAs(GOROUTINE_1, Goroutine) && GOROUTINE_0 != GOROUTINE_1
    ensures AreDistinctSnapshots(members)
  {
    OneKind(HEAP_0, Heap, Goroutine);
    OneKind(HEAP_1, Heap, Goroutine);
    SnapshotOfHeap(HEAP_0, t);
    SnapshotOfHeap(HEAP_1, t + 3 * interval);
    SnapshotOfGoroutine(GOROUTINE_0, t + 1);
    SnapshotOfGoroutine(GOROUTINE_1, t + 3 * interval + 1);
  }

  lemma SnapshotOfHeap(name: Name, time: Int64)
    requires NamedAs(name, Heap) && time > 0
    ensures IsSnapshotOf(Snapshot(name, "inuse_space", time), Heap)
  {
  }

  lemma SnapshotOfGoroutine(name: Name, time: Int64)
    requires NamedAs(name, Goroutine) && time > 0
    ensures IsSnapshotOf(Snapshot(name, "goroutine", time), Goroutine)
  {
  }

  lemma TwoRoundsAreListed(t: Int64, interval: Int64, members: seq<Item>)
    requires 0 < t && 0 < interval && t + 3 * interval + 1 < TWO_TO_63 && members == TwoRoundsMembers(t, interval)
    requires AreDistinctSnapshots(members)
    ensures IsListed(TwoRoundsEntries(t, interval), members)
  {
    var entries := TwoRoundsEntries(t, interval);
    forall i | 0 <= i < |entries| ensures HasMember(entries[i], members) {
      assert Matches(entries[i], members[i]);
    }
    forall i, j | 0 <= i < j < 4 ensures entries[i].name != entries[j].name {
      assert members[i].name != members[j].name;
    }
  }

  lemma TwoRoundsAreSpaced(t: Int64, interval: Int64, index: Index)
    requires 0 < t && 0 < interval && t + 3 * interval + 1 < TWO_TO_63 && index == TwoRoundsIndex(t, interval)
    requires NamedAs(HEAP_0, Heap) && NamedAs(HEAP_1, Heap)
    requires NamedAs(GOROUTINE_0, Goroutine) && NamedAs(GOROUTINE_1, Goroutine)
    ensures IsSpaced(index, Heap) && IsSpaced(index, Goroutine)
  {
    var entries := index.entries;
    TimesOfTwoRounds(entries[0], entries[1], entries[2], entries[3]);
    assert entries == [entries[0], entries[1], entries[2], entries[3]];
  }

  lemma TimesOfRound(entries: seq<Entry>, a: Entry, b: Entry)
    requires NamedAs(a.name, Heap) && NamedAs(b.name, Goroutine)
    ensures TimesNamed(entries + [a] + [b], Heap) == TimesNamed(entries, Heap) + [a.capturedAt]
    ensures TimesNamed(entries + [a] + [b], Goroutine) == TimesNamed(entries, Goroutine) + [b.capturedAt]
  {
    TimesNamedNext(entries, a, Heap);
    TimesNamedNext(entries + [a], b, Goroutine);
  }

  lemma TimesOfTwoRounds(a: Entry, b: Entry, c: Entry, d: Entry)
    requires NamedAs(a.name, Heap) && NamedAs(b.name, Goroutine) && NamedAs(c.name, Heap) && NamedAs(d.name, Goroutine)
    ensures TimesNamed([a, b, c, d], Heap) == [a.capturedAt, c.capturedAt]
    ensures TimesNamed([a, b, c, d], Goroutine) == [b.capturedAt, d.capturedAt]
  {
    var first: seq<Entry> := [] + [a] + [b];
    TimesOfRound([], a, b);
    TimesOfRound(first, c, d);
    assert first + [c] + [d] == [a, b, c, d];
  }
}
