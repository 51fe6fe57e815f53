/** Recording snapshots: pairs of profiles are appended to an archive, and an index closes it. */
module SnapshotRecorder {
  import opened Decimals
  import opened Options
  import opened Sequences
  import opened Snapshots
  import opened SnapshotIndexText
  import opened SnapshotReader

  const RESERVE: nat := 1024 * 1024
  const BLOCK: nat := 512

  /** One attempt to take a profile: whether it succeeded, how many bytes it has, how the decoders see the
      bytes, and how long it took. */
  datatype Attempt = Attempt(taken: bool, size: nat, body: Body, durationNS: Int64)

  /** A capture takes a heap profile and then a goroutine profile. */
  datatype Round = Round(heap: Attempt, goroutine: Attempt)

  /** The bytes that a member occupies in the archive: a header block and its data in whole blocks. */
  function Blocks(size: nat): nat {
    (size + BLOCK - 1) / BLOCK * BLOCK
  }

  /** How the first failing attempt fails: its message, and the length of the text of the index that reports it,
      which depends on the escapes of the message. */
  datatype Failure = Failure(message: string, textSize: nat)

  // ----- what the attempts amount to

  function KindAt(k: nat): Kind {
    if k % 2 == 0 then Heap else Goroutine
  }

  function AttemptAt(rounds: seq<Round>, k: nat): Attempt
    requires k < 2 * |rounds|
  {
    if k % 2 == 0 then rounds[k / 2].heap else rounds[k / 2].goroutine
  }

  /** The bytes that the first k attempts occupy. */
  ghost function Written(rounds: seq<Round>, k: nat): nat
    requires k <= 2 * |rounds|
  {
    if k == 0 then 0 else Written(rounds, k - 1) + Blocks(AttemptAt(rounds, k - 1).size) + BLOCK
  }

  /** The attempt with index k succeeds after those before it. */
  ghost predicate Fits(rounds: seq<Round>, k: nat)
    requires k < 2 * |rounds|
  {
    var a := AttemptAt(rounds, k);
    && a.taken && a.body.profile.Some? && k < MAX_ENTRIES
    && a.size <= MAX_PROFILE_BYTES && Written(rounds, k) + a.size + RESERVE <= MAX_BUNDLE_BYTES
  }

  ghost predicate AllFit(rounds: seq<Round>) {
    forall k {:trigger Fits(rounds, k)} :: 0 <= k < 2 * |rounds| ==> Fits(rounds, k)
  }

  function TimeOf(a: Attempt): Int64 {
    if a.body.profile.Some? then a.body.profile.value.timeNanos else 0
  }

  function EntryOf(a: Attempt, k: nat): Entry {
    Entry(NameOf(k / 2, KindAt(k)), TimeOf(a), a.durationNS)
  }

  function ItemOf(a: Attempt, k: nat): Item {
    Member(NameOf(k / 2, KindAt(k)), true, a.size, a.body)
  }

  /** The outcome of the attempt with index i is in its place. */
  ghost predicate Kept(rounds: seq<Round>, entries: seq<Entry>, items: seq<Item>, i: nat)
    requires i < 2 * |rounds| && i < |entries| && i < |items|
  {
    && Fits(rounds, i)
    && entries[i] == EntryOf(AttemptAt(rounds, i), i) && items[i] == ItemOf(AttemptAt(rounds, i), i)
  }

  /** The first k attempts have been written. */
  ghost predicate Holds(rounds: seq<Round>, k: nat, used: nat, entries: seq<Entry>, items: seq<Item>) {
    && k <= 2 * |rounds| && |entries| == |items| == k && used == Written(rounds, k)
    && forall i {:trigger Kept(rounds, entries, items, i)} :: 0 <= i < k ==> Kept(rounds, entries, items, i)
  }

  lemma HoldsNext(rounds: seq<Round>, k: nat, used: nat, entries: seq<Entry>, items: seq<Item>)
    requires Holds(rounds, k, used, entries, items) && k < 2 * |rounds| && Fits(rounds, k)
    ensures var a := AttemptAt(rounds, k);
            Holds(rounds, k + 1, used + Blocks(a.size) + BLOCK, entries + [EntryOf(a, k)], items + [ItemOf(a, k)])
  {
    var a := AttemptAt(rounds, k);
    var moreEntries, moreItems := entries + [EntryOf(a, k)], items + [ItemOf(a, k)];
    forall i {:trigger Kept(rounds, moreEntries, moreItems, i)} | 0 <= i < k + 1
      ensures Kept(rounds, moreEntries, moreItems, i)
    {
      assert i < k ==> Kept(rounds, entries, items, i);
    }
  }

  /** The space that a recording takes leaves the reserve free but for one block. */
  lemma {:induction false} UsedIsBounded(rounds: seq<Round>, k: nat)
    requires k <= 2 * |rounds| && forall i :: 0 <= i < k ==> Fits(rounds, i)
    ensures Written(rounds, k) % BLOCK == 0
    ensures Written(rounds, k) <= MAX_BUNDLE_BYTES - RESERVE + BLOCK
  {
    if k > 0 {
      UsedIsBounded(rounds, k - 1);
      assert Fits(rounds, k - 1);
    }
  }

  ghost function EntriesOf(rounds: seq<Round>): seq<Entry> {
    seq(2 * |rounds|, k requires 0 <= k < 2 * |rounds| => EntryOf(AttemptAt(rounds, k), k))
  }

  ghost function ItemsOf(rounds: seq<Round>): seq<Item> {
    seq(2 * |rounds|, k requires 0 <= k < 2 * |rounds| => ItemOf(AttemptAt(rounds, k), k))
  }

  lemma HoldsPrefix(rounds: seq<Round>, k: nat, used: nat, entries: seq<Entry>, items: seq<Item>)
    requires Holds(rounds, k, used, entries, items)
    ensures entries == EntriesOf(rounds)[..k] && items == ItemsOf(rounds)[..k]
    ensures forall i {:trigger Fits(rounds, i)} :: 0 <= i < k ==> Fits(rounds, i)
  {
    forall i | 0 <= i < k
      ensures Fits(rounds, i) && entries[i] == EntriesOf(rounds)[i] && items[i] == ItemsOf(rounds)[i]
    {
      assert Kept(rounds, entries, items, i);
    }
  }

  lemma HoldsAll(rounds: seq<Round>, used: nat, entries: seq<Entry>, items: seq<Item>)
    requires Holds(rounds, 2 * |rounds|, used, entries, items)
    ensures AllFit(rounds) && entries == EntriesOf(rounds) && items == ItemsOf(rounds)
  {
    HoldsPrefix(rounds, 2 * |rounds|, used, entries, items);
    TakeAll(EntriesOf(rounds));
    TakeAll(ItemsOf(rounds));
  }

  /** The archive with an index behind the snapshots, and with the two blocks that end it. */
  function Closed(used: nat, items: seq<Item>, index: Index, textSize: nat): Archive {
    Archive(used + BLOCK + Blocks(textSize) + 2 * BLOCK,
            items + [Member(INDEX_NAME, true, textSize, Body(Some(index), None))])
  }

  /** The index of a recording without a failure. */
  ghost function IndexFor(rounds: seq<Round>, startedAt: Int64, endedAt: Int64, interval: Int64): Index {
    Index(1, startedAt, endedAt, interval, "complete", "", EntriesOf(rounds))
  }

  ghost function Recording(rounds: seq<Round>, startedAt: Int64, endedAt: Int64, interval: Int64): Archive {
    var index := IndexFor(rounds, startedAt, endedAt, interval);
    Closed(Written(rounds, 2 * |rounds|), ItemsOf(rounds), index, |IndexText(index)|)
  }

  /** The attempt with index k is the first that does not succeed. */
  ghost predicate FailsFirst(rounds: seq<Round>, k: nat) {
    k < 2 * |rounds| && !Fits(rounds, k) && forall i {:trigger Fits(rounds, i)} :: 0 <= i < k ==> Fits(rounds, i)
  }

  /** The archive of a recording that ended at the attempt with index k: what came before it, and an index that
      reports the failure. */
  ghost function FailedRecording(rounds: seq<Round>, k: nat, startedAt: Int64, endedAt: Int64, interval: Int64,
                                 failure: Failure): Archive
    requires k < 2 * |rounds|
  {
    var index := Index(1, startedAt, endedAt, interval, "failed", failure.message, EntriesOf(rounds)[..k]);
    Closed(Written(rounds, k), ItemsOf(rounds)[..k], index, failure.textSize)
  }

  // ----- the bytes of an archive

  /** The least multiple of 512 that is not below the size. */
  ghost predicate IsPadded(size: int, padded: int) {
    size <= padded < size + 512 && padded % 512 == 0
  }

  /** The bytes that members take in an archive: for each a header of 512 bytes and its padded data. */
  ghost predicate Occupies(items: seq<Item>, total: int)
    decreases |items|
  {
    if items == [] then total == 0
    else
      var final := items[|items|-1];
      final.Member? && exists padded :: IsPadded(final.size, padded) && Occupies(items[..|items|-1], total - 512 - padded)
  }

  /** An archive is its members and 1024 bytes that end it. */
  ghost predicate IsSized(archive: Archive) {
    Occupies(archive.items, archive.size - 1024)
  }

  lemma PaddedOnce(size: int, a: int, b: int)
    requires IsPadded(size, a) && IsPadded(size, b)
    ensures a == b
  {
    assert a == 512 * (a / 512) && b == 512 * (b / 512);
  }

  lemma {:induction false} OccupiesOnce(items: seq<Item>, m: int, n: int)
    requires Occupies(items, m) && Occupies(items, n)
    ensures m == n
    decreases |items|
  {
    if items != [] {
      var final := items[|items|-1];
      var a :| IsPadded(final.size, a) && Occupies(items[..|items|-1], m - 512 - a);
      var b :| IsPadded(final.size, b) && Occupies(items[..|items|-1], n - 512 - b);
      PaddedOnce(final.size, a, b);
      OccupiesOnce(items[..|items|-1], m - 512 - a, n - 512 - b);
    }
  }

  lemma OccupiesOneMore(items: seq<Item>, total: nat, item: Item)
    requires Occupies(items, total) && item.Member? && item.size >= 0
    ensures Occupies(items + [item], total + Blocks(item.size) + BLOCK)
  {
    var longer := items + [item];
    assert longer[..|longer|-1] == items;
    assert IsPadded(item.size, Blocks(item.size));
    assert Occupies(items, total + Blocks(item.size) + BLOCK - 512 - Blocks(item.size));
  }

  /** What the recorder counts is what the members occupy. */
  lemma {:induction false} WrittenIsOccupied(rounds: seq<Round>, k: nat)
    requires k <= 2 * |rounds|
    ensures Occupies(ItemsOf(rounds)[..k], Written(rounds, k))
    decreases k
  {
    if k > 0 {
      WrittenIsOccupied(rounds, k - 1);
      var items, a := ItemsOf(rounds), AttemptAt(rounds, k - 1);
      TakeOneMore(items, k - 1);
      assert items[k-1] == ItemOf(a, k - 1);
      OccupiesOneMore(items[..k-1], Written(rounds, k - 1), ItemOf(a, k - 1));
    }
  }

  /** With an index behind the members and 1024 bytes that end it, the archive has exactly its size. */
  lemma ClosedIsOccupied(used: nat, items: seq<Item>, index: Index, textSize: nat)
    requires Occupies(items, used)
    ensures var archive := Closed(used, items, index, textSize); IsSized(archive)
  {
    var final := Member(INDEX_NAME, true, textSize, Body(Some(index), None));
    OccupiesOneMore(items, used, final);
    var archive := Closed(used, items, index, textSize);
    assert archive.items == items + [final];
    assert archive.size - 1024 == used + Blocks(textSize) + BLOCK;
  }

  /** The exact limits: a profile is recorded iff it was taken and decoded, is one of the first 4000, has at most
      8 MiB, and leaves 1 MiB of the 64 MiB free behind the bytes of the members before it. */
  lemma FitsIff(rounds: seq<Round>, k: nat)
    requires k < 2 * |rounds|
    ensures var a := AttemptAt(rounds, k);
            Fits(rounds, k) <==>
              && a.taken && a.body.profile.Some? && k < 4000 && a.size <= 8_388_608
              && forall total :: Occupies(ItemsOf(rounds)[..k], total) ==> total + a.size + 1_048_576 <= 67_108_864
  {
    var before := ItemsOf(rounds)[..k];
    WrittenIsOccupied(rounds, k);
    forall total | Occupies(before, total) ensures total == Written(rounds, k) {
      OccupiesOnce(before, total, Written(rounds, k));
    }
    assert Occupies(before, Written(rounds, k));
  }

  // ----- the recorder

  class Recorder {
    var used: nat
    var sequence: nat
    var entries: seq<Entry>
    var items: seq<Item>

    constructor ()
      ensures used == 0 && sequence == 0 && entries == [] && items == []
    {
      used, sequence, entries, items := 0, 0, [], [];
    }

    /** Takes the profile of one kind. */
    method CaptureKind(ghost rounds: seq<Round>, kind: Kind, a: Attempt) returns (ok: bool)
      requires |entries| < 2 * |rounds| && Holds(rounds, |entries|, used, entries, items)
      requires kind == KindAt(|entries|) && a == AttemptAt(rounds, |entries|) && sequence == |entries| / 2
      modifies this`used, this`entries, this`items
      ensures ok <==> Fits(rounds, old(|entries|))
      ensures ok ==> Holds(rounds, old(|entries|) + 1, used, entries, items)
      ensures !ok ==> used == old(used) && entries == old(entries) && items == old(items)
    {
      if !a.taken {
        return false;
      }
      if a.size > MAX_PROFILE_BYTES || used + a.size + RESERVE > MAX_BUNDLE_BYTES || |entries| >= MAX_ENTRIES {
        return false;
      }
      if a.body.profile.None? {
        return false;
      }
      HoldsNext(rounds, |entries|, used, entries, items);
      var name := NameOf(sequence, kind);
      items := items + [Member(name, true, a.size, a.body)];
      used := used + Blocks(a.size) + BLOCK;
      entries := entries + [Entry(name, a.body.profile.value.timeNanos, a.durationNS)];
      return true;
    }

    /** Takes both profiles of a round. After a failure the round may have been recorded in part. */
    method Capture(ghost rounds: seq<Round>, round: Round) returns (ok: bool)
      requires sequence < |rounds| && round == rounds[sequence]
      requires Holds(rounds, 2 * sequence, used, entries, items)
      modifies this
      ensures ok <==> Fits(rounds, 2 * old(sequence)) && Fits(rounds, 2 * old(sequence) + 1)
      ensures ok ==> sequence == old(sequence) + 1 && Holds(rounds, 2 * sequence, used, entries, items)
      ensures !ok ==> Holds(rounds, |entries|, used, entries, items) && FailsFirst(rounds, |entries|)
    {
      ok := CaptureKind(rounds, Heap, round.heap);
      if !ok {
        HoldsPrefix(rounds, |entries|, used, entries, items);
        return;
      }
      ok := CaptureKind(rounds, Goroutine, round.goroutine);
      if !ok {
        HoldsPrefix(rounds, |entries|, used, entries, items);
        return;
      }
      sequence := sequence + 1;
    }

    /** The captures from the start on, until one fails or the recording is stopped. */
    method CaptureAll(rounds: seq<Round>) returns (ok: bool)
      requires sequence == 0 && used == 0 && entries == [] && items == []
      modifies this
      ensures ok ==> Holds(rounds, 2 * |rounds|, used, entries, items)
      ensures !ok ==> Holds(rounds, |entries|, used, entries, items) && FailsFirst(rounds, |entries|)
    {
      ok := true;
      var next := 0;
      while ok && next < |rounds|
        invariant next <= |rounds|
        invariant ok ==> sequence == next && Holds(rounds, 2 * next, used, entries, items)
        invariant !ok ==> Holds(rounds, |entries|, used, entries, items) && FailsFirst(rounds, |entries|)
        decreases |rounds| - next, ok
      {
        ok := Capture(rounds, rounds[next]);
        next := next + 1;
      }
    }

    /** Records a capture at the start, one at every tick and one at the stop, and closes with the index. A run
        without a failure has at least the captures at its start and its stop. */
    method Record(rounds: seq<Round>, startedAt: Int64, endedAt: Int64, interval: Int64, failure: Failure)
      returns (ok: bool, archive: Archive)
      requires |rounds| >= 1 && (AllFit(rounds) ==> |rounds| >= 2)
      requires sequence == 0 && used == 0 && entries == [] && items == []
      modifies this
      ensures ok <==> AllFit(rounds)
      ensures ok ==> archive == Recording(rounds, startedAt, endedAt, interval)
      ensures !ok ==> FailsFirst(rounds, |entries|)
                      && archive == FailedRecording(rounds, |entries|, startedAt, endedAt, interval, failure)
      ensures !ok ==> !Accepts(archive)
      ensures IsSized(archive)
    {
      ok := CaptureAll(rounds);
      if !ok {
        FailedIsBuilt(rounds, used, entries, items, startedAt, endedAt, interval, failure);
        FailureIsRejected(rounds, |entries|, startedAt, endedAt, interval, failure);
        var failed := Index(1, startedAt, endedAt, interval, "failed", failure.message, entries);
        return false, Closed(used, items, failed, failure.textSize);
      }
      RecordingIsBuilt(rounds, used, entries, items, startedAt, endedAt, interval);
      var index := Index(1, startedAt, endedAt, interval, "complete", "", entries);
      archive := Closed(used, items, index, |IndexText(index)|);
    }
  }

  lemma FailedIsBuilt(rounds: seq<Round>, used: nat, entries: seq<Entry>, items: seq<Item>,
                      startedAt: Int64, endedAt: Int64, interval: Int64, failure: Failure)
    requires Holds(rounds, |entries|, used, entries, items) && |entries| < 2 * |rounds|
    ensures var archive := FailedRecording(rounds, |entries|, startedAt, endedAt, interval, failure);
      && archive == Closed(used, items, Index(1, startedAt, endedAt, interval, "failed", failure.message, entries),
                           failure.textSize)
      && IsSized(archive)
  {
    HoldsPrefix(rounds, |entries|, used, entries, items);
    WrittenIsOccupied(rounds, |entries|);
    ClosedIsOccupied(used, items, Index(1, startedAt, endedAt, interval, "failed", failure.message, entries),
                     failure.textSize);
  }

  lemma RecordingIsBuilt(rounds: seq<Round>, used: nat, entries: seq<Entry>, items: seq<Item>,
                         startedAt: Int64, endedAt: Int64, interval: Int64)
    requires Holds(rounds, 2 * |rounds|, used, entries, items)
    ensures AllFit(rounds)
    ensures var archive := Recording(rounds, startedAt, endedAt, interval);
            var index := Index(1, startedAt, endedAt, interval, "complete", "", entries);
      archive == Closed(used, items, index, |IndexText(index)|) && IsSized(archive)
  {
    HoldsAll(rounds, used, entries, items);
    WrittenIsOccupied(rounds, 2 * |rounds|);
    TakeAll(ItemsOf(rounds));
    var index := IndexFor(rounds, startedAt, endedAt, interval);
    ClosedIsOccupied(used, items, index, |IndexText(index)|);
  }

  /** A recording that failed is never accepted, at whichever attempt it failed. */
  lemma FailureIsRejected(rounds: seq<Round>, k: nat, startedAt: Int64, endedAt: Int64, interval: Int64,
                          failure: Failure)
    requires FailsFirst(rounds, k)
    ensures !Accepts(FailedRecording(rounds, k, startedAt, endedAt, interval, failure))
  {
    assert "failed" != "complete";
  }

  // ----- recordings without a failure are accepted exactly when the clock was sane

  /** The decoders find a profile of the right kind, taken at a positive time within the recording. */
  ghost predicate SaneAt(rounds: seq<Round>, k: nat, startedAt: Int64, endedAt: Int64)
    requires k < 2 * |rounds|
  {
    var a := AttemptAt(rounds, k);
    && GoodProfile(a, KindAt(k)) && startedAt <= TimeOf(a) <= endedAt && a.durationNS >= 0
  }

  ghost predicate AllSane(rounds: seq<Round>, startedAt: Int64, endedAt: Int64) {
    forall k {:trigger SaneAt(rounds, k, startedAt, endedAt)} :: 0 <= k < 2 * |rounds|
      ==> SaneAt(rounds, k, startedAt, endedAt)
  }

  ghost predicate GoodProfile(a: Attempt, kind: Kind) {
    && a.body.profile.Some? && a.body.profile.value.consistent && a.body.profile.value.timeNanos > 0
    && ExpectedType(kind) in a.body.profile.value.types
  }

  ghost predicate AllGood(rounds: seq<Round>) {
    forall k :: 0 <= k < 2 * |rounds| ==> GoodProfile(AttemptAt(rounds, k), KindAt(k))
  }

  function TimesOf(rounds: seq<Round>, kind: Kind): seq<Int64> {
    seq(|rounds|, r requires 0 <= r < |rounds| => TimeOf(if kind == Heap then rounds[r].heap else rounds[r].goroutine))
  }

  /** The snapshots of each kind were taken in order and at most three intervals apart. */
  ghost predicate Sane(rounds: seq<Round>, startedAt: Int64, endedAt: Int64, interval: Int64) {
    && interval > 0 && startedAt < endedAt
    && AllSane(rounds, startedAt, endedAt)
    && Regular(TimesOf(rounds, Heap), MaxGap(interval)) && Regular(TimesOf(rounds, Goroutine), MaxGap(interval))
  }

  /** The reserve is large enough for the index, for all padding and for the end: the archive has at most 64 MiB. */
  lemma RecordingFits(rounds: seq<Round>, startedAt: Int64, endedAt: Int64, interval: Int64)
    requires AllFit(rounds)
    ensures Recording(rounds, startedAt, endedAt, interval).size <= 67_108_864
    ensures var archive := Recording(rounds, startedAt, endedAt, interval); IsSized(archive)
    ensures |IndexText(IndexFor(rounds, startedAt, endedAt, interval))| <= MAX_PROFILE_BYTES
    ensures 2 * |rounds| <= MAX_ENTRIES
  {
    forall i | 0 <= i < 2 * |rounds| ensures Fits(rounds, i) { }
    UsedIsBounded(rounds, 2 * |rounds|);
    if rounds != [] {
      assert Fits(rounds, 2 * |rounds| - 1);
    }
    var index := IndexFor(rounds, startedAt, endedAt, interval);
    forall i | 0 <= i < |index.entries| ensures |index.entries[i].name.text| <= 25 {
      NamesAreRecognised(i / 2, KindAt(i));
    }
    IndexIsShort(index);
    WrittenIsOccupied(rounds, 2 * |rounds|);
    TakeAll(ItemsOf(rounds));
    ClosedIsOccupied(Written(rounds, 2 * |rounds|), ItemsOf(rounds), index, |IndexText(index)|);
  }

  lemma SuffixHasNoQuote(kind: Kind)
    ensures '"' !in Suffix(kind)
  {
  }

  lemma NameHasNoQuote(sequence: nat, kind: Kind)
    ensures '"' !in NameOf(sequence, kind).text
  {
    var padded, suffix := Padded(sequence), Suffix(kind);
    SuffixHasNoQuote(kind);
    assert '"' !in padded by {
      assert forall i :: 0 <= i < |padded| ==> IsDigit(padded[i]);
    }
  }

  /** The index that closes a recording without a failure can be read back from its text. */
  lemma IndexIsReadBack(rounds: seq<Round>, startedAt: Int64, endedAt: Int64, interval: Int64)
    requires rounds != []
    ensures var index := IndexFor(rounds, startedAt, endedAt, interval); ReadIndex(IndexText(index)) == Some(index)
  {
    var index := IndexFor(rounds, startedAt, endedAt, interval);
    forall i | 0 <= i < |index.entries| ensures '"' !in index.entries[i].name.text {
      assert index.entries[i] == EntryOf(AttemptAt(rounds, i), i);
      NameHasNoQuote(i / 2, KindAt(i));
    }
    IndexRoundTrip(index);
  }

  lemma PlacesAreNamed(i: nat, j: nat)
    requires i < j < MAX_ENTRIES
    ensures NameOf(i / 2, KindAt(i)) != NameOf(j / 2, KindAt(j))
  {
    if NameOf(i / 2, KindAt(i)) == NameOf(j / 2, KindAt(j)) {
      NamesAreDistinct(i / 2, KindAt(i), j / 2, KindAt(j));
    }
  }

  lemma ItemIsSnapshot(rounds: seq<Round>, k: nat)
    requires AllFit(rounds) && k < 2 * |rounds|
    ensures IsSnapshot(ItemsOf(rounds)[k]) <==> GoodProfile(AttemptAt(rounds, k), KindAt(k))
  {
    assert Fits(rounds, k);
    NamesAreRecognised(k / 2, KindAt(k));
  }

  lemma ItemsAreSnapshots(rounds: seq<Round>)
    requires AllFit(rounds) && 2 * |rounds| <= MAX_ENTRIES
    requires AllGood(rounds)
    ensures AreSnapshots(ItemsOf(rounds))
  {
    forall k | 0 <= k < 2 * |rounds| ensures IsSnapshot(ItemsOf(rounds)[k]) {
      ItemIsSnapshot(rounds, k);
    }
    forall i, j | 0 <= i < j < 2 * |rounds| ensures ItemsOf(rounds)[i].name != ItemsOf(rounds)[j].name {
      PlacesAreNamed(i, j);
    }
  }

  lemma EntriesAreListed(rounds: seq<Round>)
    requires AreSnapshots(ItemsOf(rounds)) && 2 * |rounds| <= MAX_ENTRIES
    ensures Lists(EntriesOf(rounds), Recorded(ItemsOf(rounds)))
  {
    var entries, items := EntriesOf(rounds), ItemsOf(rounds);
    RecordedSize(items, |items|);
    TakeAll(items);
    forall i, j | 0 <= i < j < |entries| ensures entries[i].name != entries[j].name {
      PlacesAreNamed(i, j);
    }
    forall i | 0 <= i < |entries|
      ensures entries[i].name in Recorded(items) && Recorded(items)[entries[i].name] == entries[i].capturedAt
    {
      RecordedHas(items, i);
      assert IsSnapshot(items[i]);
    }
  }

  ghost predicate IsPair(heap: Entry, goroutine: Entry) {
    KindOf(heap.name) == Some(Heap) && KindOf(goroutine.name) == Some(Goroutine)
  }

  /** Each round puts a heap entry and a goroutine entry into the index. */
  lemma EntriesOfRound(rounds: seq<Round>, n: nat)
    requires n < |rounds| && n < 1_000_000
    ensures var entries := EntriesOf(rounds);
            && IsPair(entries[2 * n], entries[2 * n + 1])
            && entries[2 * n].capturedAt == TimesOf(rounds, Heap)[n]
            && entries[2 * n + 1].capturedAt == TimesOf(rounds, Goroutine)[n]
  {
    assert (2 * n) / 2 == (2 * n + 1) / 2 == n && (2 * n) % 2 == 0 && (2 * n + 1) % 2 == 1;
    NamesAreRecognised(n, Heap);
    NamesAreRecognised(n, Goroutine);
  }

  lemma TimesOfPair(entries: seq<Entry>, i: nat, kind: Kind)
    requires i + 1 < |entries| && IsPair(entries[i], entries[i+1])
    ensures Times(entries[..i+2], kind)
         == Times(entries[..i], kind) + [if kind == Heap then entries[i].capturedAt else entries[i+1].capturedAt]
  {
    TimesNext(entries, i, kind);
    TimesNext(entries, i + 1, kind);
  }

  /** The two entries from position 2 * n on add one time of this kind. */
  ghost predicate AddsTime(entries: seq<Entry>, kind: Kind, n: nat, t: Int64) {
    && 2 * n + 2 <= |entries|
    && Times(entries[..2 * n + 2], kind) == Times(entries[..2 * n], kind) + [t]
  }

  lemma RoundAddsTime(rounds: seq<Round>, entries: seq<Entry>, kind: Kind, n: nat)
    requires entries == EntriesOf(rounds) && n < |rounds| && n < 1_000_000
    ensures AddsTime(entries, kind, n, TimesOf(rounds, kind)[n])
  {
    EntriesOfRound(rounds, n);
    TimesOfPair(entries, 2 * n, kind);
  }

  lemma {:induction false} TimesAddUp(entries: seq<Entry>, kind: Kind, times: seq<Int64>, n: nat)
    requires n <= |times| && 2 * |times| <= |entries|
    requires forall i {:trigger times[i]} :: 0 <= i < |times| ==> AddsTime(entries, kind, i, times[i])
    ensures Times(entries[..2 * n], kind) == times[..n]
    decreases n
  {
    if n > 0 {
      TimesAddUp(entries, kind, times, n - 1);
      assert AddsTime(entries, kind, n - 1, times[n-1]);
      TakeOneMore(times, n - 1);
    }
  }

  lemma TimesOfEntries(rounds: seq<Round>, kind: Kind)
    requires 2 * |rounds| <= MAX_ENTRIES
    ensures Times(EntriesOf(rounds), kind) == TimesOf(rounds, kind)
  {
    var entries, times := EntriesOf(rounds), TimesOf(rounds, kind);
    forall i | 0 <= i < |times| ensures AddsTime(entries, kind, i, times[i]) {
      RoundAddsTime(rounds, entries, kind, i);
    }
    TimesAddUp(entries, kind, times, |times|);
    TakeAll(entries);
    TakeAll(times);
  }

  lemma SpacingOfEntries(rounds: seq<Round>, startedAt: Int64, endedAt: Int64, interval: Int64, kind: Kind)
    requires 2 <= |rounds| && 2 * |rounds| <= MAX_ENTRIES
    ensures WellSpaced(IndexFor(rounds, startedAt, endedAt, interval), kind)
       <==> Regular(TimesOf(rounds, kind), MaxGap(interval))
  {
    TimesOfEntries(rounds, kind);
  }

  lemma SpanOfEntries(rounds: seq<Round>, startedAt: Int64, endedAt: Int64, interval: Int64)
    requires AllGood(rounds)
    ensures AllInSpan(IndexFor(rounds, startedAt, endedAt, interval))
       <==> AllSane(rounds, startedAt, endedAt)
  {
    var index := IndexFor(rounds, startedAt, endedAt, interval);
    forall k | 0 <= k < 2 * |rounds| ensures InSpan(index, index.entries[k]) <==> SaneAt(rounds, k, startedAt, endedAt) {
      assert index.entries[k] == EntryOf(AttemptAt(rounds, k), k);
    }
  }

  lemma PartsOfRecording(rounds: seq<Round>, startedAt: Int64, endedAt: Int64, interval: Int64)
    ensures var archive := Recording(rounds, startedAt, endedAt, interval);
            && HasIndex(archive.items) && BeforeIndex(archive.items) == ItemsOf(rounds)
            && archive.items[|archive.items|-1].body.index == Some(IndexFor(rounds, startedAt, endedAt, interval))
  {
  }

  lemma AcceptedIsGood(rounds: seq<Round>, archive: Archive)
    requires AllFit(rounds) && Accepts(archive) && BeforeIndex(archive.items) == ItemsOf(rounds)
    ensures AllGood(rounds)
  {
    forall k | 0 <= k < 2 * |rounds| ensures GoodProfile(AttemptAt(rounds, k), KindAt(k)) {
      ItemIsSnapshot(rounds, k);
      assert IsSnapshot(ItemsOf(rounds)[k]);
    }
  }

  lemma SaneIsGood(rounds: seq<Round>, startedAt: Int64, endedAt: Int64, interval: Int64)
    requires Sane(rounds, startedAt, endedAt, interval)
    ensures AllGood(rounds)
  {
    forall k | 0 <= k < 2 * |rounds| ensures GoodProfile(AttemptAt(rounds, k), KindAt(k)) {
      assert SaneAt(rounds, k, startedAt, endedAt);
    }
  }

  lemma AcceptedIsSane(rounds: seq<Round>, startedAt: Int64, endedAt: Int64, interval: Int64)
    requires |rounds| >= 2 && AllFit(rounds)
    requires Accepts(Recording(rounds, startedAt, endedAt, interval))
    ensures Sane(rounds, startedAt, endedAt, interval)
  {
    PartsOfRecording(rounds, startedAt, endedAt, interval);
    RecordingFits(rounds, startedAt, endedAt, interval);
    AcceptedIsGood(rounds, Recording(rounds, startedAt, endedAt, interval));
    SpanOfEntries(rounds, startedAt, endedAt, interval);
    SpacingOfEntries(rounds, startedAt, endedAt, interval, Heap);
    SpacingOfEntries(rounds, startedAt, endedAt, interval, Goroutine);
  }

  lemma SaneIsDescribed(rounds: seq<Round>, startedAt: Int64, endedAt: Int64, interval: Int64)
    requires 2 <= |rounds| && 2 * |rounds| <= MAX_ENTRIES && Sane(rounds, startedAt, endedAt, interval)
    requires AllGood(rounds) && AreSnapshots(ItemsOf(rounds))
    ensures Describes(IndexFor(rounds, startedAt, endedAt, interval), Recorded(ItemsOf(rounds)))
  {
    SpanOfEntries(rounds, startedAt, endedAt, interval);
    EntriesAreListed(rounds);
    SpacingOfEntries(rounds, startedAt, endedAt, interval, Heap);
    SpacingOfEntries(rounds, startedAt, endedAt, interval, Goroutine);
  }

  lemma SaneIsAccepted(rounds: seq<Round>, startedAt: Int64, endedAt: Int64, interval: Int64)
    requires |rounds| >= 2 && AllFit(rounds) && Sane(rounds, startedAt, endedAt, interval)
    ensures Accepts(Recording(rounds, startedAt, endedAt, interval))
  {
    PartsOfRecording(rounds, startedAt, endedAt, interval);
    RecordingFits(rounds, startedAt, endedAt, interval);
    SaneIsGood(rounds, startedAt, endedAt, interval);
    ItemsAreSnapshots(rounds);
    SaneIsDescribed(rounds, startedAt, endedAt, interval);
  }

  /** A recording without a failure is accepted exactly when every profile was good and the clock was sane. */
  lemma RecordingIsAccepted(rounds: seq<Round>, startedAt: Int64, endedAt: Int64, interval: Int64)
    requires |rounds| >= 2 && AllFit(rounds)
    ensures Accepts(Recording(rounds, startedAt, endedAt, interval)) <==> Sane(rounds, startedAt, endedAt, interval)
  {
    if Accepts(Recording(rounds, startedAt, endedAt, interval)) {
      AcceptedIsSane(rounds, startedAt, endedAt, interval);
    }
    if Sane(rounds, startedAt, endedAt, interval) {
      SaneIsAccepted(rounds, startedAt, endedAt, interval);
    }
  }
}
