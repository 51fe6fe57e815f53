/** Reading a message: its records grouped by field number, in order. */
module ProtoReader {
  import opened Options
  import opened Wire

  type Fields = map<nat, seq<ProtoValue>>

  /** The occurrences of a field, none if it is absent. */
  function Occurrences(fields: Fields, n: nat): seq<ProtoValue> {
    if n in fields then fields[n] else []
  }

  function Append(fields: Fields, n: nat, v: ProtoValue): Fields {
    fields[n := Occurrences(fields, n) + [v]]
  }

  ghost function Group(rs: seq<Record>): Fields {
    if rs == [] then map[] else Append(Group(rs[..|rs|-1]), rs[|rs|-1].field, rs[|rs|-1].value)
  }

  /** The values of one field, in the order of their records. */
  ghost function ValuesOf(rs: seq<Record>, n: nat): seq<ProtoValue> {
    if rs == [] then [] else ValuesOf(rs[..|rs|-1], n) + if rs[|rs|-1].field == n then [rs[|rs|-1].value] else []
  }

  lemma {:induction false} GroupHoldsValuesInOrder(rs: seq<Record>, n: nat)
    ensures Occurrences(Group(rs), n) == ValuesOf(rs, n)
    decreases |rs|
  {
    if rs != [] {
      GroupHoldsValuesInOrder(rs[..|rs|-1], n);
    }
  }

  lemma {:induction false} ValuesOfJoin(rs: seq<Record>, ss: seq<Record>, n: nat)
    ensures ValuesOf(rs + ss, n) == ValuesOf(rs, n) + ValuesOf(ss, n)
    decreases |ss|
  {
    if ss == [] {
      assert rs + ss == rs;
    } else {
      assert (rs + ss)[..|rs + ss|-1] == rs + ss[..|ss|-1];
      ValuesOfJoin(rs, ss[..|ss|-1], n);
    }
  }

  // ----- one record

  /** The payload that follows a tag, and its length prefix if it has one: nothing if it is truncated or
      the wire type is not supported. */
  function ReadPayload(wire: nat, rest: Bytes): (r: Option<(Bytes, Bytes, ProtoValue)>)
    ensures r.Some? ==> r.value.0 + r.value.1 <= rest
  {
    match wire
    case 0 =>
      (match Uvarint(rest, 0)
       case None => None
       case Some(v) => Some(([], rest[..v.1], ProtoValue(0, v.0, []))))
    case 1 =>
      if |rest| < 8 then None else Some(([], rest[..8], ProtoValue(1, LittleEndian(rest[..8]), [])))
    case 2 =>
      (match Uvarint(rest, 0)
       case None => None
       case Some(l) =>
         if l.0 > |rest| - l.1 then None
         else
           assert rest[..l.1] + rest[l.1..l.1+l.0] == rest[..l.1+l.0];
           Some((rest[..l.1], rest[l.1..l.1+l.0], ProtoValue(2, 0, rest[l.1..l.1+l.0]))))
    case 5 =>
      if |rest| < 4 then None else Some(([], rest[..4], ProtoValue(5, LittleEndian(rest[..4]), [])))
    case _ => None
  }

  /** The first record of a body, or nothing if the reader reports an error there. */
  function FirstRecord(body: Bytes): (r: Option<Record>)
    ensures r.Some? ==> RecordBytes(r.value) <= body && |RecordBytes(r.value)| > 0
  {
    match Uvarint(body, 0)
    case None => None
    case Some(t) =>
      if t.0 / 8 == 0 || t.0 / 8 >= TWO_TO_29 then None
      else
        match ReadPayload(t.0 % 8, body[t.1..])
        case None => None
        case Some(p) =>
          TagThenPayload(body, t.1, p.0, p.1);
          Some(Record(body[..t.1], p.0, p.1, t.0 / 8, p.2))
  }

  lemma TagThenPayload(body: Bytes, n: nat, prefix: Bytes, payload: Bytes)
    requires n <= |body| && prefix + payload <= body[n..]
    ensures body[..n] + prefix + payload <= body
  {
    var p := prefix + payload;
    assert body[..n] + prefix + payload == body[..n] + p;
    assert body[n..][..|p|] == p;
    assert body[..n + |p|] == body[..n] + body[n..][..|p|];
  }

  lemma PayloadIsPayload(wire: nat, rest: Bytes)
    requires ReadPayload(wire, rest).Some?
    ensures var p := ReadPayload(wire, rest).value; IsPayload(wire, p.0, p.1, p.2)
  {
    ReadsVarint(rest);
  }

  /** What the reader takes for a record is one. */
  lemma FirstRecordIsRecord(body: Bytes)
    requires FirstRecord(body).Some?
    ensures IsRecord(FirstRecord(body).value)
  {
    ReadsVarint(body);
    var t := Uvarint(body, 0).value;
    PayloadIsPayload(t.0 % 8, body[t.1..]);
  }

  lemma ReadsVarintPayload(payload: Bytes, value: ProtoValue, rest: Bytes)
    requires IsPayload(0, [], payload, value)
    ensures ReadPayload(0, payload + rest) == Some(([], payload, value))
  {
    ReadsThisVarint(payload, value.number, rest);
  }

  lemma ReadsDelimitedPayload(prefix: Bytes, payload: Bytes, value: ProtoValue, rest: Bytes)
    requires IsPayload(2, prefix, payload, value)
    ensures ReadPayload(2, prefix + payload + rest) == Some((prefix, payload, value))
  {
    var body := prefix + payload + rest;
    assert body == prefix + (payload + rest);
    ReadsThisVarint(prefix, |payload|, payload + rest);
    assert body[..|prefix|] == prefix && body[|prefix|..|prefix|+|payload|] == payload;
  }

  lemma ReadsFixedPayload(wire: nat, payload: Bytes, value: ProtoValue, rest: Bytes)
    requires (wire == 1 || wire == 5) && IsPayload(wire, [], payload, value)
    ensures ReadPayload(wire, payload + rest) == Some(([], payload, value))
  {
    assert (payload + rest)[..|payload|] == payload;
  }

  lemma ReadsThisPayload(wire: nat, prefix: Bytes, payload: Bytes, value: ProtoValue, rest: Bytes)
    requires IsPayload(wire, prefix, payload, value)
    ensures ReadPayload(wire, prefix + payload + rest) == Some((prefix, payload, value))
  {
    match wire {
      case 0 =>
        assert prefix + payload + rest == payload + rest;
        ReadsVarintPayload(payload, value, rest);
      case 2 => ReadsDelimitedPayload(prefix, payload, value, rest);
      case _ =>
        assert prefix + payload + rest == payload + rest;
        ReadsFixedPayload(wire, payload, value, rest);
    }
  }

  /** A record in front of anything is read as that record. */
  lemma ReadsThisRecord(r: Record, rest: Bytes)
    requires IsRecord(r)
    ensures FirstRecord(RecordBytes(r) + rest) == Some(r)
  {
    var after := r.prefix + r.payload + rest;
    assert RecordBytes(r) + rest == r.tag + after;
    ReadsThisVarint(r.tag, r.field * 8 + r.value.wire, after);
    ReadsThisPayload(r.value.wire, r.prefix, r.payload, r.value, rest);
    TagSplits(r, after);
  }

  lemma TagSplits(r: Record, after: Bytes)
    requires IsRecord(r) && Uvarint(r.tag + after, 0) == Some((r.field * 8 + r.value.wire, |r.tag|))
    requires ReadPayload(r.value.wire, after) == Some((r.prefix, r.payload, r.value))
    ensures FirstRecord(r.tag + after) == Some(r)
  {
    assert (r.tag + after)[..|r.tag|] == r.tag && (r.tag + after)[|r.tag|..] == after;
    assert r.value.wire < 8;
    assert (r.field * 8 + r.value.wire) / 8 == r.field && (r.field * 8 + r.value.wire) % 8 == r.value.wire;
  }

  // ----- all records

  ghost predicate AllRecords(rs: seq<Record>) {
    forall i :: 0 <= i < |rs| ==> IsRecord(rs[i])
  }

  /** The body is the concatenation of these records. */
  ghost predicate Spells(rs: seq<Record>, body: Bytes) {
    AllRecords(rs) && Join(rs) == body
  }

  lemma RecordsAreNotEmpty(rs: seq<Record>)
    requires AllRecords(rs)
    ensures Join(rs) == [] <==> rs == []
  {
    if rs != [] { assert |rs[0].tag| >= 1; }
  }

  /** A body is the concatenation of at most one list of records. */
  lemma {:induction false} SpellingIsUnique(rs: seq<Record>, ss: seq<Record>, body: Bytes)
    requires Spells(rs, body) && Spells(ss, body)
    ensures rs == ss
    decreases |rs|
  {
    RecordsAreNotEmpty(rs);
    RecordsAreNotEmpty(ss);
    if rs != [] {
      SpellingStarts(rs, body);
      SpellingStarts(ss, body);
      SpellingIsUnique(rs[1..], ss[1..], body[|RecordBytes(rs[0])|..]);
      assert rs == [rs[0]] + rs[1..] && ss == [ss[0]] + ss[1..];
    }
  }

  lemma {:induction false} JoinOfConcat(rs: seq<Record>, ss: seq<Record>)
    ensures Join(rs + ss) == Join(rs) + Join(ss)
    decreases |rs|
  {
    if rs == [] {
      assert rs + ss == ss;
    } else {
      assert (rs + ss)[1..] == rs[1..] + ss;
      JoinOfConcat(rs[1..], ss);
    }
  }

  /** If a body spells records and begins with a record, that record is the first of them. */
  lemma SpellingStarts(rs: seq<Record>, body: Bytes)
    requires Spells(rs, body) && body != []
    ensures rs != [] && FirstRecord(body) == Some(rs[0])
    ensures Spells(rs[1..], body[|RecordBytes(rs[0])|..])
  {
    ReadsThisRecord(rs[0], Join(rs[1..]));
    assert body[|RecordBytes(rs[0])|..] == Join(rs[1..]);
  }

  datatype Parsed = Ok(fields: Fields) | Invalid

  /** Reads a whole message. It accepts exactly the concatenations of records, and groups their values by
      field number in order. */
  method ProtoFields(body0: Bytes) returns (r: Parsed, ghost rs: seq<Record>)
    ensures r.Ok? ==> Spells(rs, body0) && r.fields == Group(rs)
    ensures r.Invalid? ==> forall ss :: !Spells(ss, body0)
  {
    var body := body0;
    var fields: Fields := map[];
    rs := [];
    while |body| > 0
      invariant AllRecords(rs) && Join(rs) + body == body0
      invariant fields == Group(rs)
      invariant forall ss :: Spells(ss, body0) ==> rs <= ss && Spells(ss[|rs|..], body)
      decreases |body|
    {
      var first := FirstRecord(body);
      if first.None? {
        forall ss | Spells(ss, body0) ensures false {
          SpellingStarts(ss[|rs|..], body);
        }
        return Invalid, rs;
      }
      var record := first.value;
      FirstRecordIsRecord(body);
      NextRecord(rs, record, body, body0);
      body := body[|RecordBytes(record)|..];
      fields := Append(fields, record.field, record.value);
      assert (rs + [record])[..|rs|] == rs;
      rs := rs + [record];
    }
    assert Join(rs) + [] == Join(rs);
    r := Ok(fields);
  }

  lemma NextRecord(rs: seq<Record>, record: Record, body: Bytes, body0: Bytes)
    requires body != [] && FirstRecord(body) == Some(record) && IsRecord(record)
    requires AllRecords(rs) && Join(rs) + body == body0
    requires forall ss :: Spells(ss, body0) ==> rs <= ss && Spells(ss[|rs|..], body)
    ensures AllRecords(rs + [record]) && Join(rs + [record]) + body[|RecordBytes(record)|..] == body0
    ensures forall ss :: Spells(ss, body0) ==>
      rs + [record] <= ss && Spells(ss[|rs|+1..], body[|RecordBytes(record)|..])
  {
    JoinOneMore(rs, record, body);
    forall ss | Spells(ss, body0)
      ensures rs + [record] <= ss && Spells(ss[|rs|+1..], body[|RecordBytes(record)|..])
    {
      NextSpelling(rs, record, body, ss);
    }
  }

  lemma JoinOneMore(rs: seq<Record>, record: Record, body: Bytes)
    requires RecordBytes(record) <= body
    ensures Join(rs + [record]) + body[|RecordBytes(record)|..] == Join(rs) + body
  {
    JoinOfConcat(rs, [record]);
    var b := RecordBytes(record);
    assert Join([record]) == b + Join([record][1..]) == b;
    assert b + body[|b|..] == body;
    assert (Join(rs) + b) + body[|b|..] == Join(rs) + (b + body[|b|..]);
  }

  lemma NextSpelling(rs: seq<Record>, record: Record, body: Bytes, ss: seq<Record>)
    requires body != [] && FirstRecord(body) == Some(record)
    requires rs <= ss && Spells(ss[|rs|..], body)
    ensures rs + [record] <= ss && Spells(ss[|rs|+1..], body[|RecordBytes(record)|..])
  {
    SpellingStarts(ss[|rs|..], body);
    assert ss[|rs|..][1..] == ss[|rs|+1..];
    assert ss[|rs|..][0] == ss[|rs|];
  }

  /** After an accepted body a, the concatenation a + b is accepted iff b is. */
  lemma ConcatenationAccepted(rs: seq<Record>, a: Bytes, b: Bytes)
    requires Spells(rs, a)
    ensures (exists ts :: Spells(ts, a + b)) <==> (exists ss :: Spells(ss, b))
  {
    if ss :| Spells(ss, b) {
      JoinOfConcat(rs, ss);
      assert Spells(rs + ss, a + b);
    }
    if ts :| Spells(ts, a + b) {
      RestSpells(rs, a, b, ts);
    }
  }

  /** Then every field's values are those of a followed by those of b. */
  lemma ConcatenationGroups(rs: seq<Record>, a: Bytes, ss: seq<Record>, b: Bytes, ts: seq<Record>, n: nat)
    requires Spells(rs, a) && Spells(ss, b) && Spells(ts, a + b)
    ensures Occurrences(Group(ts), n) == Occurrences(Group(rs), n) + Occurrences(Group(ss), n)
  {
    JoinOfConcat(rs, ss);
    SpellingIsUnique(ts, rs + ss, a + b);
    GroupHoldsValuesInOrder(rs + ss, n);
    GroupHoldsValuesInOrder(rs, n);
    GroupHoldsValuesInOrder(ss, n);
    ValuesOfJoin(rs, ss, n);
  }

  lemma {:induction false} RestSpells(rs: seq<Record>, a: Bytes, b: Bytes, ts: seq<Record>)
    requires Spells(rs, a) && Spells(ts, a + b)
    ensures |rs| <= |ts| && Spells(ts[|rs|..], b)
    decreases |rs|
  {
    if rs == [] {
      assert a + b == b && ts[0..] == ts;
    } else {
      FirstIsShared(rs, a, b, ts);
      RestSpells(rs[1..], Join(rs[1..]), b, ts[1..]);
      assert ts[1..][|rs|-1..] == ts[|rs|..];
    }
  }

  lemma FirstIsShared(rs: seq<Record>, a: Bytes, b: Bytes, ts: seq<Record>)
    requires rs != [] && Spells(rs, a) && Spells(ts, a + b)
    ensures Spells(rs[1..], Join(rs[1..]))
    ensures ts != [] && Spells(ts[1..], Join(rs[1..]) + b)
  {
    var first, rest := RecordBytes(rs[0]), Join(rs[1..]);
    AppendedBytes(first, rest, b);
    ReadsThisRecord(rs[0], rest + b);
    SpellingStarts(ts, a + b);
  }

  lemma AppendedBytes(x: Bytes, y: Bytes, z: Bytes)
    ensures x + y + z == x + (y + z) && (x + y + z)[|x|..] == y + z
  {
  }
}
