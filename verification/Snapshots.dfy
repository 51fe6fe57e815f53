/** Snapshot recordings: an archive of heap and goroutine profiles followed by an index of them. */
module Snapshots {
  import opened Decimals
  import opened Options

  const MAX_PROFILE_BYTES: nat := 8 * 1024 * 1024
  const MAX_BUNDLE_BYTES: nat := 64 * 1024 * 1024
  const MAX_ENTRIES: nat := 4000
  const TWO_TO_63: int := 0x8000_0000_0000_0000

  /** Signed 64-bit integers: Unix nanoseconds and durations. */
  type Int64 = x: int | -TWO_TO_63 <= x < TWO_TO_63

  /** The 64-bit result of an operation with the mathematical result x. */
  function Wrap64(x: int): (r: Int64)
    ensures -TWO_TO_63 <= x < TWO_TO_63 ==> r == x
  {
    (x + TWO_TO_63) % (2 * TWO_TO_63) - TWO_TO_63
  }

  /** The largest accepted gap between snapshots: three intervals, in 64-bit arithmetic. */
  function MaxGap(interval: Int64): Int64 {
    Wrap64(3 * interval)
  }

  // ----- names

  datatype Kind = Heap | Goroutine

  datatype Name = Name(text: string)

  const INDEX_NAME := Name("index.json")

  /** The text of a name after its sequence number. */
  function Suffix(kind: Kind): string {
    match kind
    case Heap => "-go-heap.pprof"
    case Goroutine => "-go-goroutine.pprof"
  }

  predicate AllDigits(s: string) {
    forall i :: 0 <= i < |s| ==> IsDigit(s[i])
  }

  /** A snapshot name is six digits and a suffix; anything else has no kind. */
  function KindOf(name: Name): Option<Kind> {
    var s := name.text;
    if |s| < 6 || !AllDigits(s[..6]) then None
    else if s[6..] == Suffix(Heap) then Some(Heap)
    else if s[6..] == Suffix(Goroutine) then Some(Goroutine)
    else None
  }

  /** A number padded with zeros to at least six digits. */
  function Padded(n: nat): (s: string)
    ensures |s| >= 6 && AllDigits(s)
  {
    var digits := Itoa(n);
    Zeros(if |digits| < 6 then 6 - |digits| else 0) + digits
  }

  function Zeros(n: nat): (s: string)
    ensures |s| == n && forall i :: 0 <= i < n ==> s[i] == '0'
  {
    seq(n, _ => '0')
  }

  function NameOf(sequence: nat, kind: Kind): Name {
    Name(Padded(sequence) + Suffix(kind))
  }

  lemma {:induction false} ShortNumbers(n: nat, limit: nat, width: nat)
    requires n < limit && width >= 1 && limit == Power10(width)
    ensures |Itoa(n)| <= width
    decreases n
  {
    if n >= 10 {
      ShortNumbers(n / 10, Power10(width - 1), width - 1);
    }
  }

  ghost function Power10(k: nat): nat {
    if k == 0 then 1 else 10 * Power10(k - 1)
  }

  lemma {:induction false} LeadingZeros(zeros: nat, digits: string, n: nat)
    requires Decimal(digits) == Some(n)
    ensures Decimal(Zeros(zeros) + digits) == Some(n)
    decreases |digits|
  {
    var s := Zeros(zeros) + digits;
    if |digits| == 1 {
      ZerosThenDigit(zeros, digits[0]);
      assert digits == [digits[0]];
    } else {
      var k := Decimal(digits[..|digits|-1]);
      LeadingZeros(zeros, digits[..|digits|-1], k.value);
      assert s[..|s|-1] == Zeros(zeros) + digits[..|digits|-1];
    }
  }

  lemma {:induction false} ZerosThenDigit(zeros: nat, c: char)
    requires IsDigit(c)
    ensures Decimal(Zeros(zeros) + [c]) == Some(DigitValue(c))
    decreases zeros
  {
    var s := Zeros(zeros) + [c];
    if zeros == 0 {
      assert s == [c];
    } else {
      ZerosThenDigit(zeros - 1, '0');
      assert s[..|s|-1] == Zeros(zeros - 1) + ['0'];
    }
  }

  /** Every written name is recognised with its kind and names one sequence number only. */
  lemma NamesAreRecognised(n: nat, kind: Kind)
    requires n < 1_000_000
    ensures KindOf(NameOf(n, kind)) == Some(kind)
    ensures |NameOf(n, kind).text| <= 25
  {
    assert Power10(6) == 1_000_000;
    ShortNumbers(n, 1_000_000, 6);
    var s := NameOf(n, kind).text;
    assert s[..6] == Padded(n) && s[6..] == Suffix(kind);
  }

  lemma NamesAreDistinct(m: nat, j: Kind, n: nat, k: Kind)
    requires m < 1_000_000 && n < 1_000_000 && NameOf(m, j) == NameOf(n, k)
    ensures m == n && j == k
  {
    NamesAreRecognised(m, j);
    NamesAreRecognised(n, k);
    PaddedIsDecimal(m);
    PaddedIsDecimal(n);
    assert Padded(m) == NameOf(m, j).text[..6] && Padded(n) == NameOf(n, k).text[..6];
  }

  lemma PaddedIsDecimal(n: nat)
    requires n < 1_000_000
    ensures |Padded(n)| == 6 && Decimal(Padded(n)) == Some(n)
  {
    assert Power10(6) == 1_000_000;
    ShortNumbers(n, 1_000_000, 6);
    DecimalRoundTrip(n);
    LeadingZeros(6 - |Itoa(n)|, Itoa(n), n);
  }

  // ----- recordings

  datatype Entry = Entry(name: Name, capturedAt: Int64, durationNS: Int64)

  datatype Index = Index(version: int, startedAt: Int64, endedAt: Int64, intervalNS: Int64,
                         status: string, error: string, entries: seq<Entry>)

  /** A decoded profile: its timestamp, its sample types, and whether it is consistent. */
  datatype Profile = Profile(timeNanos: Int64, types: set<string>, consistent: bool)

  /** The bytes of a member, as the two decoders see them. */
  datatype Body = Body(index: Option<Index>, profile: Option<Profile>)

  /** What the archive reader yields next; the end of a damaged archive is an error. */
  datatype Item = Damaged | Member(name: Name, regular: bool, size: int, body: Body)

  datatype Archive = Archive(size: nat, items: seq<Item>)

  function ExpectedType(kind: Kind): string {
    match kind
    case Heap => "inuse_space"
    case Goroutine => "goroutine"
  }

  /** The capture times of one kind, in the order of the index. */
  ghost function Times(entries: seq<Entry>, kind: Kind): seq<Int64> {
    if entries == [] then []
    else
      var final := entries[|entries|-1];
      Times(entries[..|entries|-1], kind) + if KindOf(final.name) == Some(kind) then [final.capturedAt] else []
  }

  /** Times increase, by at most maxGap from one to the next. */
  ghost predicate Regular(times: seq<Int64>, maxGap: int) {
    forall i {:trigger Follows(times, maxGap, i)} :: 0 < i < |times| ==> Follows(times, maxGap, i)
  }

  ghost predicate Follows(times: seq<Int64>, maxGap: int, i: nat)
    requires 0 < i < |times|
  {
    times[i-1] < times[i] && times[i] - times[i-1] <= maxGap
  }

  lemma RegularNext(times: seq<Int64>, maxGap: int, t: Int64)
    requires Regular(times, maxGap)
    requires times != [] ==> 0 < t - times[|times|-1] <= maxGap
    ensures Regular(times + [t], maxGap)
  {
    var longer := times + [t];
    forall i {:trigger Follows(longer, maxGap, i)} | 0 < i < |longer| ensures Follows(longer, maxGap, i) {
      assert i < |times| ==> Follows(times, maxGap, i);
    }
  }
}
