/** Validating a snapshot recording: the members, the index, and the spacing of the observations. */
module SnapshotReader {
  import opened Options
  import opened Sequences
  import opened Snapshots

  // ----- what is accepted

  predicate IsIndex(item: Item) {
    item.Member? && item.name == INDEX_NAME
  }

  predicate Readable(item: Item) {
    item.Member? && item.regular && 0 <= item.size <= MAX_PROFILE_BYTES
  }

  predicate IsSnapshot(item: Item) {
    && Readable(item) && KindOf(item.name).Some? && item.body.profile.Some?
    && var p := item.body.profile.value;
    p.consistent && p.timeNanos > 0 && ExpectedType(KindOf(item.name).value) in p.types
  }

  ghost predicate AreSnapshots(items: seq<Item>) {
    && |items| <= MAX_ENTRIES
    && (forall i :: 0 <= i < |items| ==> IsSnapshot(items[i]))
    && (forall i, j :: 0 <= i < j < |items| ==> items[i].name != items[j].name)
  }

  ghost predicate HasIndex(items: seq<Item>) {
    items != [] && IsIndex(items[|items|-1])
  }

  /** The members in front of the index. */
  ghost function BeforeIndex(items: seq<Item>): seq<Item> {
    if HasIndex(items) then items[..|items|-1] else items
  }

  /** The archive can be read to its end: distinct snapshots, and nothing after an index. */
  ghost predicate WellFormed(items: seq<Item>) {
    && AreSnapshots(BeforeIndex(items))
    && (HasIndex(items) ==> Readable(items[|items|-1]) && items[|items|-1].body.index.Some?)
  }

  /** The timestamp that each snapshot carries. */
  ghost function Recorded(items: seq<Item>): map<Name, Int64>
    requires forall i :: 0 <= i < |items| ==> IsSnapshot(items[i])
  {
    if items == [] then map[]
    else
      var final := items[|items|-1];
      assert IsSnapshot(final);
      Recorded(items[..|items|-1])[final.name := final.body.profile.value.timeNanos]
  }

  lemma {:induction false} RecordedHas(items: seq<Item>, i: nat)
    requires AreSnapshots(items) && i < |items|
    ensures items[i].name in Recorded(items) && Recorded(items)[items[i].name] == items[i].body.profile.value.timeNanos
    decreases |items|
  {
    if i < |items| - 1 {
      RecordedHas(items[..|items|-1], i);
    }
  }

  lemma {:induction false} RecordedOnly(items: seq<Item>, name: Name) returns (i: nat)
    requires AreSnapshots(items) && name in Recorded(items)
    ensures i < |items| && items[i].name == name
    decreases |items|
  {
    if items[|items|-1].name == name {
      return |items| - 1;
    }
    i := RecordedOnly(items[..|items|-1], name);
  }

  lemma {:induction false} RecordedSize(items: seq<Item>, n: nat)
    requires AreSnapshots(items) && n <= |items|
    ensures |Recorded(items[..n])| == n
    decreases n
  {
    if n > 0 {
      var p, q := items[..n], items[..n-1];
      RecordedSize(items, n - 1);
      assert p[..|p|-1] == q;
      if items[n-1].name in Recorded(q) {
        var j := RecordedOnly(q, items[n-1].name);
      }
    }
  }

  predicate IsComplete(index: Index) {
    && index.version == 1 && index.status == "complete" && index.error == ""
    && index.intervalNS > 0 && index.endedAt > index.startedAt && |index.entries| > 0
  }

  predicate InSpan(index: Index, e: Entry) {
    index.startedAt <= e.capturedAt <= index.endedAt && e.durationNS >= 0
  }

  ghost predicate DistinctUpTo(entries: seq<Entry>, n: nat)
    requires n <= |entries|
  {
    forall i, j :: 0 <= i < j < n ==> entries[i].name != entries[j].name
  }

  /** The entries list the recorded snapshots: each one once and with its own timestamp. */
  ghost predicate Lists(entries: seq<Entry>, recorded: map<Name, Int64>) {
    && |entries| == |recorded| && DistinctUpTo(entries, |entries|)
    && forall i :: 0 <= i < |entries| ==>
         entries[i].name in recorded && recorded[entries[i].name] == entries[i].capturedAt
  }

  ghost predicate AllInSpan(index: Index) {
    forall i :: 0 <= i < |index.entries| ==> InSpan(index, index.entries[i])
  }

  ghost predicate WellSpaced(index: Index, kind: Kind) {
    |Times(index.entries, kind)| >= 2 && Regular(Times(index.entries, kind), MaxGap(index.intervalNS))
  }

  ghost predicate Describes(index: Index, recorded: map<Name, Int64>) {
    && IsComplete(index) && Lists(index.entries, recorded)
    && AllInSpan(index)
    && WellSpaced(index, Heap) && WellSpaced(index, Goroutine)
  }

  /** A complete recording. */
  ghost predicate Accepts(archive: Archive) {
    && archive.size <= MAX_BUNDLE_BYTES
    && WellFormed(archive.items) && HasIndex(archive.items)
    && Describes(IndexOf(archive), Recorded(BeforeIndex(archive.items)))
  }

  ghost function IndexOf(archive: Archive): Index
    requires WellFormed(archive.items) && HasIndex(archive.items)
  {
    archive.items[|archive.items|-1].body.index.value
  }

  // ----- the members

  lemma RecordedNext(items: seq<Item>, i: nat)
    requires i < |items| && AreSnapshots(items[..i]) && IsSnapshot(items[i]) && i < MAX_ENTRIES
    requires items[i].name !in Recorded(items[..i])
    ensures AreSnapshots(items[..i+1])
    ensures Recorded(items[..i+1]) == Recorded(items[..i])[items[i].name := items[i].body.profile.value.timeNanos]
  {
    var p, q := items[..i+1], items[..i];
    forall j | 0 <= j < i ensures IsSnapshot(q[j]) && q[j].name != items[i].name {
      RecordedHas(q, j);
    }
    TakeOneMore(items, i);
    assert p[..|p|-1] == q;
  }

  /** A member that is not allowed at its place spoils the archive. */
  lemma Spoiled(items: seq<Item>, i: nat)
    requires i < |items|
    requires !IsIndex(items[i]) && (IsSnapshot(items[i]) ==> !AreSnapshots(items[..i+1]))
    ensures !WellFormed(items)
  {
    var b := BeforeIndex(items);
    assert i < |b| && b[i] == items[i];
    assert items[..i+1] == b[..i+1];
  }

  lemma IndexIsLast(items: seq<Item>, i: nat)
    requires i + 1 < |items| && IsIndex(items[i])
    ensures !WellFormed(items)
  {
    assert BeforeIndex(items)[i] == items[i];
    assert KindOf(INDEX_NAME) == None;
  }

  /** The timestamps in front of position i, and the index if it was there. */
  ghost predicate ReadUpTo(items: seq<Item>, i: nat, seen: map<Name, Int64>, index: Option<Index>)
    requires i <= |items|
  {
    && (index.Some? <==> HasIndex(items[..i]))
    && WellFormed(items[..i])
    && seen == Recorded(BeforeIndex(items[..i]))
    && |seen| == |BeforeIndex(items[..i])|
    && (index.Some? ==> items[i-1].body.index == index)
  }

  lemma BadIndex(items: seq<Item>, i: nat)
    requires i < |items| && IsIndex(items[i])
    requires !Readable(items[i]) || items[i].body.index.None?
    ensures !WellFormed(items)
  {
    if i + 1 < |items| {
      IndexIsLast(items, i);
    }
  }

  lemma NoSnapshot(items: seq<Item>, i: nat, seen: map<Name, Int64>)
    requires i < |items| && !IsIndex(items[i]) && ReadUpTo(items, i, seen, None)
    requires !IsSnapshot(items[i]) || (items[i].name in seen && seen[items[i].name] != 0) || |seen| >= MAX_ENTRIES
    ensures !WellFormed(items)
  {
    if IsSnapshot(items[i]) && items[i].name in seen {
      var j := RecordedOnly(items[..i], items[i].name);
      assert items[..i+1][j].name == items[..i+1][i].name;
    }
    Spoiled(items, i);
  }

  /** Timestamps are positive, so a zero stamp means that the name is new. */
  lemma OneMoreSnapshot(items: seq<Item>, i: nat, seen: map<Name, Int64>)
    requires i < |items| && !IsIndex(items[i]) && ReadUpTo(items, i, seen, None)
    requires IsSnapshot(items[i]) && (items[i].name in seen ==> seen[items[i].name] == 0) && |seen| < MAX_ENTRIES
    ensures ReadUpTo(items, i + 1, seen[items[i].name := items[i].body.profile.value.timeNanos], None)
  {
    assert BeforeIndex(items[..i]) == items[..i];
    if items[i].name in seen {
      var j := RecordedOnly(items[..i], items[i].name);
      RecordedHas(items[..i], j);
    }
    RecordedNext(items, i);
    assert items[..i+1][i] == items[i];
    assert BeforeIndex(items[..i+1]) == items[..i+1];
  }

  lemma OneIndex(items: seq<Item>, i: nat, seen: map<Name, Int64>)
    requires i < |items| && IsIndex(items[i]) && ReadUpTo(items, i, seen, None)
    requires Readable(items[i]) && items[i].body.index.Some?
    ensures ReadUpTo(items, i + 1, seen, items[i].body.index)
  {
    assert items[..i+1][i] == items[i];
    assert BeforeIndex(items[..i+1]) == items[..i];
  }

  method ReadMembers(items: seq<Item>) returns (ok: bool, seen: map<Name, Int64>, index: Option<Index>)
    ensures ok <==> WellFormed(items)
    ensures ok ==> ReadUpTo(items, |items|, seen, index)
  {
    seen, index := map[], None;
    for i := 0 to |items|
      invariant ReadUpTo(items, i, seen, index)
    {
      var item := items[i];
      if index.Some? {
        IndexIsLast(items, i - 1);
        return false, seen, index;
      }
      if IsIndex(item) {
        if !Readable(item) || item.body.index.None? {
          BadIndex(items, i);
          return false, seen, index;
        }
        OneIndex(items, i, seen);
        index := item.body.index;
      } else {
        var stamp := if item.Member? && item.name in seen then seen[item.name] else 0;
        if !IsSnapshot(item) || stamp != 0 || |seen| >= MAX_ENTRIES {
          NoSnapshot(items, i, seen);
          return false, seen, index;
        }
        OneMoreSnapshot(items, i, seen);
        seen := seen[item.name := item.body.profile.value.timeNanos];
      }
    }
    TakeAll(items);
    return true, seen, index;
  }

  // ----- the entries

  /** The names of the first n entries. */
  ghost function Names(entries: seq<Entry>, n: nat): set<Name>
    requires n <= |entries|
  {
    set i | 0 <= i < n :: entries[i].name
  }

  /** A list has at most as many names as entries, and fewer if a name repeats. */
  lemma {:induction false} CountNames(entries: seq<Entry>, n: nat)
    requires n <= |entries|
    ensures |Names(entries, n)| <= n
    ensures |Names(entries, n)| == n <==> DistinctUpTo(entries, n)
    decreases n
  {
    if n > 0 {
      CountNames(entries, n - 1);
      assert Names(entries, n) == Names(entries, n - 1) + {entries[n-1].name};
      OneMore(Names(entries, n - 1), entries[n-1].name);
      DistinctNext(entries, n - 1);
    }
  }

  lemma DistinctNext(entries: seq<Entry>, n: nat)
    requires n < |entries|
    ensures DistinctUpTo(entries, n + 1) <==> DistinctUpTo(entries, n) && entries[n].name !in Names(entries, n)
  {
    assert forall i :: 0 <= i < n ==> entries[i].name in Names(entries, n);
  }

  lemma OneMore<T>(a: set<T>, x: T)
    ensures |a + {x}| == if x in a then |a| else |a| + 1
  {
    if x in a {
      assert a + {x} == a;
    }
  }

  /** The lookup of the original: an absent name has the stamp zero. */
  function Stamp(seen: map<Name, Int64>, name: Name): Int64 {
    if name in seen then seen[name] else 0
  }

  /** The entry with index j was checked against what the entries before it had left. */
  ghost predicate Checked(index: Index, recorded: map<Name, Int64>, j: nat)
    requires j < |index.entries|
  {
    var e := index.entries[j];
    Stamp(recorded - Names(index.entries, j), e.name) == e.capturedAt && InSpan(index, e)
  }

  ghost predicate CheckedUpTo(index: Index, recorded: map<Name, Int64>, i: nat)
    requires i <= |index.entries|
  {
    forall j {:trigger Checked(index, recorded, j)} :: 0 <= j < i ==> Checked(index, recorded, j)
  }

  /** An entry whose name is unknown, or was used by an entry before it, passes its own check iff its timestamp
      is zero, zero lies within the recording, and its duration is not negative. */
  lemma MissingNameIsChecked(index: Index, recorded: map<Name, Int64>, j: nat)
    requires j < |index.entries|
    requires var name := index.entries[j].name; name !in recorded || name in Names(index.entries, j)
    ensures var e := index.entries[j];
            Checked(index, recorded, j) <==>
              e.capturedAt == 0 && index.startedAt <= 0 <= index.endedAt && e.durationNS >= 0
  {
  }

  /** A complete index with as many entries as snapshots, whose only entry is unknown and passes its check. */
  lemma UnknownNameIsChecked() returns (index: Index, recorded: map<Name, Int64>)
    ensures IsComplete(index) && |index.entries| == |recorded| == 1
    ensures index.entries[0].name !in recorded && CheckedUpTo(index, recorded, 1)
    ensures !Lists(index.entries, recorded)
  {
    recorded := map[NameOf(0, Heap) := 1];
    index := Index(1, 0, 2, 1, "complete", "", [Entry(NameOf(1, Heap), 0, 0)]);
    if NameOf(1, Heap) == NameOf(0, Heap) {
      NamesAreDistinct(1, Heap, 0, Heap);
    }
    MissingNameIsChecked(index, recorded, 0);
  }

  method MatchEntries(index: Index, recorded: map<Name, Int64>) returns (ok: bool)
    requires |index.entries| == |recorded|
    ensures ok <==> Lists(index.entries, recorded) && AllInSpan(index)
  {
    var seen := recorded;
    for i := 0 to |index.entries|
      invariant seen == recorded - Names(index.entries, i)
      invariant CheckedUpTo(index, recorded, i)
    {
      var e := index.entries[i];
      if Stamp(seen, e.name) != e.capturedAt || !InSpan(index, e) {
        ListedIsChecked(index, recorded, i);
        return false;
      }
      assert Names(index.entries, i + 1) == Names(index.entries, i) + {e.name};
      seen := seen - {e.name};
    }
    if |seen| == 0 {
      AllCheckedIsListed(index, recorded);
      return true;
    }
    if Lists(index.entries, recorded) {
      ListsAll(index.entries, recorded);
    }
    return false;
  }

  lemma ListedIsChecked(index: Index, recorded: map<Name, Int64>, i: nat)
    requires i < |index.entries|
    ensures Lists(index.entries, recorded) && AllInSpan(index) ==> Checked(index, recorded, i)
  {
  }

  /** Because there are as many entries as snapshots, deleting until nothing is left used every entry for a
      snapshot of its own. An entry that matched only as a missing name with the stamp zero would leave one over. */
  lemma AllCheckedIsListed(index: Index, recorded: map<Name, Int64>)
    requires |index.entries| == |recorded| && recorded.Keys <= Names(index.entries, |index.entries|)
    requires CheckedUpTo(index, recorded, |index.entries|)
    ensures Lists(index.entries, recorded) && AllInSpan(index)
  {
    var entries := index.entries;
    CountNames(entries, |entries|);
    Subset(recorded.Keys, Names(entries, |entries|));
    forall j | 0 <= j < |entries|
      ensures entries[j].name in recorded && recorded[entries[j].name] == entries[j].capturedAt
              && InSpan(index, entries[j])
    {
      assert entries[j].name in Names(entries, |entries|);
      assert Checked(index, recorded, j);
    }
  }

  lemma {:induction false} Subset<T>(a: set<T>, b: set<T>)
    requires a <= b
    ensures |a| <= |b| && (|a| == |b| ==> a == b)
    decreases |a|
  {
    if a == {} {
      assert |b| == 0 ==> b == {};
    } else {
      var x :| x in a;
      Subset(a - {x}, b - {x});
      assert a - {x} + {x} == a && b - {x} + {x} == b;
    }
  }

  /** Every snapshot is listed. */
  lemma ListsAll(entries: seq<Entry>, recorded: map<Name, Int64>)
    requires Lists(entries, recorded)
    ensures Names(entries, |entries|) == recorded.Keys
  {
    CountNames(entries, |entries|);
    Subset(Names(entries, |entries|), recorded.Keys);
  }

  // ----- the spacing

  /** Checks the capture times of one kind; zero stands for no previous time. */
  method CheckSpacing(index: Index, kind: Kind) returns (ok: bool)
    requires forall i :: 0 <= i < |index.entries| ==> index.entries[i].capturedAt > 0
    ensures ok <==> WellSpaced(index, kind)
  {
    var previous: Int64 := 0;
    var count: nat := 0;
    for i := 0 to |index.entries|
      invariant SpacedUpTo(index, kind, i, previous, count)
    {
      var e := index.entries[i];
      if KindOf(e.name) == Some(kind) {
        if previous != 0 && (e.capturedAt <= previous || e.capturedAt - previous > MaxGap(index.intervalNS)) {
          BadGap(index, kind, i, previous, count);
          return false;
        }
        SpacedNext(index, kind, i, previous, count);
        count := count + 1;
        previous := e.capturedAt;
      } else {
        TimesNext(index.entries, i, kind);
      }
    }
    TakeAll(index.entries);
    return count >= 2;
  }

  /** The times of the first i entries are regular; previous is the last of them and count their number. */
  ghost predicate SpacedUpTo(index: Index, kind: Kind, i: nat, previous: Int64, count: int)
    requires i <= |index.entries|
  {
    var times := Times(index.entries[..i], kind);
    && Regular(times, MaxGap(index.intervalNS))
    && count == |times|
    && (if times == [] then previous == 0 else previous == times[|times|-1] > 0)
  }

  lemma SpacedNext(index: Index, kind: Kind, i: nat, previous: Int64, count: nat)
    requires i < |index.entries| && index.entries[i].capturedAt > 0
    requires SpacedUpTo(index, kind, i, previous, count)
    requires previous != 0 ==> 0 < index.entries[i].capturedAt - previous <= MaxGap(index.intervalNS)
    requires KindOf(index.entries[i].name) == Some(kind)
    ensures SpacedUpTo(index, kind, i + 1, index.entries[i].capturedAt, count + 1)
  {
    TimesNext(index.entries, i, kind);
    RegularNext(Times(index.entries[..i], kind), MaxGap(index.intervalNS), index.entries[i].capturedAt);
  }

  lemma BadGap(index: Index, kind: Kind, i: nat, previous: Int64, count: nat)
    requires i < |index.entries| && SpacedUpTo(index, kind, i, previous, count) && previous != 0
    requires index.entries[i].capturedAt <= previous || index.entries[i].capturedAt - previous > MaxGap(index.intervalNS)
    requires KindOf(index.entries[i].name) == Some(kind)
    ensures !WellSpaced(index, kind)
  {
    TimesNext(index.entries, i, kind);
    TimesGrow(index.entries, i + 1, kind);
    var times := Times(index.entries, kind);
    assert times[count] == index.entries[i].capturedAt && times[count-1] == previous;
    assert !Follows(times, MaxGap(index.intervalNS), count);
  }

  lemma TimesNext(entries: seq<Entry>, i: nat, kind: Kind)
    requires i < |entries|
    ensures Times(entries[..i+1], kind)
         == if KindOf(entries[i].name) == Some(kind) then Times(entries[..i], kind) + [entries[i].capturedAt]
            else Times(entries[..i], kind)
  {
    assert entries[..i+1][..i] == entries[..i];
  }

  lemma {:induction false} TimesGrow(entries: seq<Entry>, i: nat, kind: Kind)
    requires i <= |entries|
    ensures Times(entries[..i], kind) <= Times(entries, kind)
    decreases |entries| - i
  {
    if i == |entries| {
      TakeAll(entries);
    } else {
      TimesGrow(entries, i + 1, kind);
      TimesNext(entries, i, kind);
    }
  }

  // ----- the recording

  method Read(archive: Archive) returns (accepted: Option<Index>)
    ensures accepted.Some? <==> Accepts(archive)
    ensures accepted.Some? ==> accepted.value == IndexOf(archive)
  {
    if archive.size > MAX_BUNDLE_BYTES {
      return None;
    }
    var ok, seen, found := ReadMembers(archive.items);
    TakeAll(archive.items);
    if !ok || found.None? || !IsComplete(found.value) || |found.value.entries| != |seen| {
      return None;
    }
    var index := found.value;
    ok := MatchEntries(index, seen);
    if !ok {
      return None;
    }
    ListedIsPositive(BeforeIndex(archive.items), index.entries);
    var heap := CheckSpacing(index, Heap);
    if !heap {
      return None;
    }
    var goroutine := CheckSpacing(index, Goroutine);
    if !goroutine {
      return None;
    }
    return Some(index);
  }

  lemma ListedIsPositive(items: seq<Item>, entries: seq<Entry>)
    requires AreSnapshots(items) && Lists(entries, Recorded(items))
    ensures forall i :: 0 <= i < |entries| ==> entries[i].capturedAt > 0
  {
    forall i | 0 <= i < |entries| ensures entries[i].capturedAt > 0 {
      var j := RecordedOnly(items, entries[i].name);
      RecordedHas(items, j);
    }
  }

  /** In an accepted recording every snapshot has exactly one entry, with the timestamp it carries. */
  lemma EverySnapshotIsListed(archive: Archive, j: nat) returns (i: nat)
    requires Accepts(archive) && j < |archive.items| - 1
    ensures var entries := IndexOf(archive).entries;
            && i < |entries| && entries[i].name == archive.items[j].name
            && entries[i].capturedAt == archive.items[j].body.profile.value.timeNanos
            && (forall k :: 0 <= k < |entries| && entries[k].name == archive.items[j].name ==> k == i)
  {
    var items, entries := BeforeIndex(archive.items), IndexOf(archive).entries;
    RecordedHas(items, j);
    ListsAll(entries, Recorded(items));
    assert items[j].name in Names(entries, |entries|);
    i :| 0 <= i < |entries| && entries[i].name == items[j].name;
  }
}
