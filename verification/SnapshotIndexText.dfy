/** The JSON text of the index of a complete recording: its length, and that it can be read back. */
module SnapshotIndexText {
  import opened Decimals
  import opened Options
  import opened Snapshots

  function IntText(x: int): string {
    if x < 0 then "-" + Itoa(-x) else Itoa(x)
  }

  /** A key with what stands in front of it, a number, and the rest of the text. */
  function IntField(key: string, x: int, rest: string): string {
    key + (IntText(x) + rest)
  }

  /** A key with the quote that opens its value, the value, and the rest of the text behind the closing quote. */
  function TextField(key: string, text: string, rest: string): string {
    key + (text + ("\"" + rest))
  }

  function EntryText(e: Entry, rest: string): string {
    TextField("{\"name\":\"", e.name.text,
    IntField(",\"captured_unix_nano\":", e.capturedAt,
    IntField(",\"capture_duration_ns\":", e.durationNS, "}" + rest)))
  }

  /** The entries with commas between them, and the brackets that close list and index. */
  function EntriesText(entries: seq<Entry>): string {
    if entries == [] then "]}"
    else if |entries| == 1 then EntryText(entries[0], "]}")
    else EntryText(entries[0], "," + EntriesText(entries[1..]))
  }

  /** The text of an index without an error; the status is plain text. */
  function IndexText(index: Index): string {
    IntField("{\"version\":", index.version,
    IntField(",\"started_unix_nano\":", index.startedAt,
    IntField(",\"ended_unix_nano\":", index.endedAt,
    IntField(",\"interval_ns\":", index.intervalNS,
    TextField(",\"status\":\"", index.status, ",\"entries\":[" + EntriesText(index.entries))))))
  }

  // ----- the length

  lemma IntIsShort(x: Int64)
    ensures |IntText(x)| <= 20
  {
    var magnitude: int := x;
    if x < 0 {
      magnitude := -magnitude;
    }
    PowerOf19();
    ShortNumbers(magnitude, Power10(19), 19);
  }

  lemma PowerOf19()
    ensures Power10(19) == 10_000_000_000_000_000_000
  {
    assert Power10(6) == 1_000_000;
    assert Power10(12) == 1_000_000_000_000;
    assert Power10(18) == 1_000_000_000_000_000_000;
  }

  lemma EntryIsShort(e: Entry, rest: string)
    requires |e.name.text| <= 25
    ensures |EntryText(e, rest)| <= 121 + |rest|
  {
    IntIsShort(e.capturedAt);
    IntIsShort(e.durationNS);
  }

  lemma {:induction false} EntriesAreShort(entries: seq<Entry>)
    requires forall i :: 0 <= i < |entries| ==> |entries[i].name.text| <= 25
    ensures |EntriesText(entries)| <= 122 * |entries| + 2
    decreases |entries|
  {
    if |entries| == 1 {
      EntryIsShort(entries[0], "]}");
    } else if entries != [] {
      EntriesAreShort(entries[1..]);
      EntryIsShort(entries[0], "," + EntriesText(entries[1..]));
    }
  }

  /** A full index takes less than half a mebibyte. */
  lemma IndexIsShort(index: Index)
    requires forall i :: 0 <= i < |index.entries| ==> |index.entries[i].name.text| <= 25
    requires |index.entries| <= MAX_ENTRIES && index.version == 1 && index.status == "complete"
    ensures |IndexText(index)| <= 512 * 1024
  {
    IntIsShort(1);
    IntIsShort(index.startedAt);
    IntIsShort(index.endedAt);
    IntIsShort(index.intervalNS);
    EntriesAreShort(index.entries);
  }

  // ----- reading it back

  ghost function Past(s: string, start: string): Option<string> {
    if start <= s then Some(s[|start|..]) else None
  }

  lemma PastStart(start: string, rest: string)
    ensures Past(start + rest, start) == Some(rest)
  {
    assert (start + rest)[|start|..] == rest;
  }

  predicate InNumber(c: char) {
    c == '-' || IsDigit(c)
  }

  /** The length of the number at the start of the text. */
  ghost function NumberLength(s: string): (n: nat)
    ensures n <= |s|
  {
    if s == [] || !InNumber(s[0]) then 0 else 1 + NumberLength(s[1..])
  }

  ghost function ReadInt(key: string, s: string): Option<(int, string)> {
    match Past(s, key)
    case None => None
    case Some(t) =>
      (match Atoi(t[..NumberLength(t)])
       case None => None
       case Some(x) => Some((x, t[NumberLength(t)..])))
  }

  /** The length of the text in front of a quote. */
  ghost function QuoteAt(s: string): (n: nat)
    ensures n <= |s|
  {
    if s == [] || s[0] == '"' then 0 else 1 + QuoteAt(s[1..])
  }

  ghost function ReadText(key: string, s: string): Option<(string, string)> {
    match Past(s, key)
    case None => None
    case Some(t) => if QuoteAt(t) == |t| then None else Some((t[..QuoteAt(t)], t[QuoteAt(t)+1..]))
  }

  lemma {:induction false} DigitsAreRead(digits: string, rest: string)
    requires forall i :: 0 <= i < |digits| ==> InNumber(digits[i])
    requires rest != [] && !InNumber(rest[0])
    ensures NumberLength(digits + rest) == |digits|
    decreases |digits|
  {
    if digits == [] {
      assert digits + rest == rest;
    } else {
      assert (digits + rest)[1..] == digits[1..] + rest;
      DigitsAreRead(digits[1..], rest);
    }
  }

  lemma IntIsAtoi(x: int)
    ensures Atoi(IntText(x)) == Some(x) && forall i :: 0 <= i < |IntText(x)| ==> InNumber(IntText(x)[i])
  {
    if x < 0 {
      DecimalRoundTrip(-x);
      assert IntText(x)[1..] == Itoa(-x);
    } else {
      AtoiRoundTrip(x);
    }
  }

  lemma IntFieldIsRead(key: string, x: int, rest: string)
    requires rest != [] && !InNumber(rest[0])
    ensures ReadInt(key, IntField(key, x, rest)) == Some((x, rest))
  {
    var t := IntText(x) + rest;
    assert IntField(key, x, rest)[|key|..] == t;
    IntIsAtoi(x);
    DigitsAreRead(IntText(x), rest);
    assert t[..|IntText(x)|] == IntText(x) && t[|IntText(x)|..] == rest;
  }

  lemma {:induction false} QuoteIsFound(text: string, rest: string)
    requires '"' !in text
    ensures QuoteAt(text + ("\"" + rest)) == |text|
    decreases |text|
  {
    var s := text + ("\"" + rest);
    if text != [] {
      assert text[0] in text && s[1..] == text[1..] + ("\"" + rest);
      QuoteIsFound(text[1..], rest);
    } else {
      assert s[0] == '"';
    }
  }

  lemma TextFieldIsRead(key: string, text: string, rest: string)
    requires '"' !in text
    ensures ReadText(key, TextField(key, text, rest)) == Some((text, rest))
  {
    var t := text + ("\"" + rest);
    assert TextField(key, text, rest)[|key|..] == t;
    QuoteIsFound(text, rest);
    assert t[..|text|] == text && t[|text|+1..] == rest;
  }

  ghost function ReadEntry(s: string): Option<(Entry, string)> {
    match ReadText("{\"name\":\"", s)
    case None => None
    case Some((name, t)) =>
      match ReadInt(",\"captured_unix_nano\":", t)
      case None => None
      case Some((captured, u)) =>
        match ReadInt(",\"capture_duration_ns\":", u)
        case None => None
        case Some((duration, v)) =>
          match Past(v, "}")
          case None => None
          case Some(rest) =>
            if !(-TWO_TO_63 <= captured < TWO_TO_63) || !(-TWO_TO_63 <= duration < TWO_TO_63) then None
            else Some((Entry(Name(name), captured, duration), rest))
  }

  lemma EntryIsRead(e: Entry, rest: string)
    requires '"' !in e.name.text
    ensures ReadEntry(EntryText(e, rest)) == Some((e, rest))
  {
    var third := IntField(",\"capture_duration_ns\":", e.durationNS, "}" + rest);
    var second := IntField(",\"captured_unix_nano\":", e.capturedAt, third);
    assert ("}" + rest)[0] == '}' && third[0] == ',' && second[0] == ',';
    TextFieldIsRead("{\"name\":\"", e.name.text, second);
    IntFieldIsRead(",\"captured_unix_nano\":", e.capturedAt, third);
    IntFieldIsRead(",\"capture_duration_ns\":", e.durationNS, "}" + rest);
    PastStart("}", rest);
  }

  lemma EntryIsLonger(e: Entry, rest: string)
    ensures |EntryText(e, rest)| > |rest|
  {
  }

  /** The entries up to the brackets that close the index. */
  ghost function ReadEntries(s: string): Option<seq<Entry>>
    decreases |s|
  {
    match ReadEntry(s)
    case None => None
    case Some((e, t)) =>
      if t == "]}" then Some([e])
      else if t == [] || t[0] != ',' || |t| >= |s| then None
      else
        match ReadEntries(t[1..])
        case None => None
        case Some(entries) => Some([e] + entries)
  }

  lemma OneEntryIsRead(s: string, e: Entry)
    requires ReadEntry(s) == Some((e, "]}"))
    ensures ReadEntries(s) == Some([e])
  {
  }

  lemma MoreEntriesAreRead(s: string, e: Entry, later: string, entries: seq<Entry>)
    requires ReadEntry(s) == Some((e, "," + later)) && |s| > |"," + later| && ReadEntries(later) == Some(entries)
    ensures ReadEntries(s) == Some([e] + entries)
  {
    var rest := "," + later;
    assert rest[0] == ',' && "]}"[0] == ']' && rest[1..] == later;
  }

  lemma EntriesTextNext(entries: seq<Entry>)
    requires |entries| > 1
    ensures EntriesText(entries) == EntryText(entries[0], "," + EntriesText(entries[1..]))
  {
  }

  lemma {:induction false} EntriesAreRead(entries: seq<Entry>, text: string)
    requires entries != [] && forall i :: 0 <= i < |entries| ==> '"' !in entries[i].name.text
    requires text == EntriesText(entries)
    ensures ReadEntries(text) == Some(entries)
    decreases |entries|
  {
    if |entries| == 1 {
      LastEntryIsRead(entries, text);
    } else {
      var later := EntriesText(entries[1..]);
      EntriesAreRead(entries[1..], later);
      FirstEntryIsRead(entries, text, later);
    }
  }

  lemma LastEntryIsRead(entries: seq<Entry>, text: string)
    requires |entries| == 1 && '"' !in entries[0].name.text && text == EntriesText(entries)
    ensures ReadEntries(text) == Some(entries)
  {
    EntryIsRead(entries[0], "]}");
    OneEntryIsRead(text, entries[0]);
    assert entries == [entries[0]];
  }

  lemma FirstEntryIsRead(entries: seq<Entry>, text: string, later: string)
    requires |entries| > 1 && '"' !in entries[0].name.text && text == EntriesText(entries)
    requires later == EntriesText(entries[1..]) && ReadEntries(later) == Some(entries[1..])
    ensures ReadEntries(text) == Some(entries)
  {
    EntriesTextNext(entries);
    EntryIsRead(entries[0], "," + later);
    EntryIsLonger(entries[0], "," + later);
    MoreEntriesAreRead(text, entries[0], later, entries[1..]);
    assert [entries[0]] + entries[1..] == entries;
  }

  datatype Numbers = Numbers(version: int, startedAt: int, endedAt: int, intervalNS: int)

  ghost function ReadNumbers(s: string): Option<(Numbers, string)> {
    match ReadInt("{\"version\":", s)
    case None => None
    case Some((version, t)) =>
      match ReadInt(",\"started_unix_nano\":", t)
      case None => None
      case Some((started, u)) =>
        match ReadInt(",\"ended_unix_nano\":", u)
        case None => None
        case Some((ended, v)) =>
          match ReadInt(",\"interval_ns\":", v)
          case None => None
          case Some((interval, rest)) => Some((Numbers(version, started, ended, interval), rest))
  }

  ghost function ReadStatus(s: string): Option<(string, string)> {
    match ReadText(",\"status\":\"", s)
    case None => None
    case Some((status, t)) =>
      match Past(t, ",\"entries\":[")
      case None => None
      case Some(rest) => Some((status, rest))
  }

  /** The index of a recording without a failure, as its text spells it. */
  ghost function ReadIndex(s: string): Option<Index> {
    match ReadNumbers(s)
    case None => None
    case Some((n, t)) =>
      match ReadStatus(t)
      case None => None
      case Some((status, u)) =>
        match ReadEntries(u)
        case None => None
        case Some(entries) => MakeIndex(n, status, entries)
  }

  ghost function MakeIndex(n: Numbers, status: string, entries: seq<Entry>): Option<Index> {
    if -TWO_TO_63 <= n.startedAt < TWO_TO_63 && -TWO_TO_63 <= n.endedAt < TWO_TO_63
       && -TWO_TO_63 <= n.intervalNS < TWO_TO_63
    then Some(Index(n.version, n.startedAt, n.endedAt, n.intervalNS, status, "", entries))
    else None
  }

  lemma NumbersAreRead(index: Index, rest: string)
    requires rest == TextField(",\"status\":\"", index.status, ",\"entries\":[" + EntriesText(index.entries))
    ensures ReadNumbers(IndexText(index))
         == Some((Numbers(index.version, index.startedAt, index.endedAt, index.intervalNS), rest))
  {
    var fourth := IntField(",\"interval_ns\":", index.intervalNS, rest);
    var third := IntField(",\"ended_unix_nano\":", index.endedAt, fourth);
    var second := IntField(",\"started_unix_nano\":", index.startedAt, third);
    IntFieldIsRead("{\"version\":", index.version, second);
    IntFieldIsRead(",\"started_unix_nano\":", index.startedAt, third);
    IntFieldIsRead(",\"ended_unix_nano\":", index.endedAt, fourth);
    IntFieldIsRead(",\"interval_ns\":", index.intervalNS, rest);
  }

  /** Reading the text of an index gives back the index. */
  lemma IndexRoundTrip(index: Index)
    requires index.error == "" && '"' !in index.status && index.entries != []
    requires forall i :: 0 <= i < |index.entries| ==> '"' !in index.entries[i].name.text
    ensures ReadIndex(IndexText(index)) == Some(index)
  {
    var entries := EntriesText(index.entries);
    var numbers := Numbers(index.version, index.startedAt, index.endedAt, index.intervalNS);
    var status := TextField(",\"status\":\"", index.status, ",\"entries\":[" + entries);
    NumbersAreRead(index, status);
    StatusIsRead(index.status, entries);
    EntriesAreRead(index.entries, entries);
    PartsAreRead(IndexText(index), numbers, status, index.status, entries, index.entries);
  }

  lemma StatusIsRead(status: string, entries: string)
    requires '"' !in status
    ensures ReadStatus(TextField(",\"status\":\"", status, ",\"entries\":[" + entries)) == Some((status, entries))
  {
    TextFieldIsRead(",\"status\":\"", status, ",\"entries\":[" + entries);
    PastStart(",\"entries\":[", entries);
  }

  lemma PartsAreRead(s: string, numbers: Numbers, t: string, status: string, u: string, entries: seq<Entry>)
    requires ReadNumbers(s) == Some((numbers, t)) && ReadStatus(t) == Some((status, u)) && ReadEntries(u) == Some(entries)
    ensures ReadIndex(s) == MakeIndex(numbers, status, entries)
  {
  }
}
