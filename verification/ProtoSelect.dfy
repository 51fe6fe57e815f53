/** Selecting one value of a message by a path of field numbers and occurrence indexes. */
module ProtoSelect {
  import opened Wire
  import opened ProtoReader

  /** One step of a parsed path: field numbers are at least one. */
  datatype PathStep = PathStep(number: nat, index: nat)

  datatype Type = Auto | String | BytesType | UInt | Int | SInt | Bool | Float32 | Float64 | Unknown

  /** A selected value before it is turned into text. Floating-point values stay bit patterns. */
  datatype Scalar =
    | Text(text: Bytes) | Raw(raw: Bytes) | Unsigned(unsigned: nat) | Signed(signed: int) | Flag(flag: bool)
    | Bits32(bits32: nat) | Bits64(bits64: nat)

  datatype Fault = MalformedMessage | NotAMessage | InvalidText | TypeMismatch

  datatype Selection<T> = Selected(value: T) | Missing | Fault(fault: Fault)

  // ----- following the path

  /** The value that a path leads to, through any spelling of each message on the way. */
  ghost predicate LeadsTo(body: Bytes, steps: seq<PathStep>, r: Selection<ProtoValue>)
    requires |steps| > 0
    decreases |steps|
  {
    if forall rs :: !Spells(rs, body) then r == Fault(MalformedMessage)
    else
      exists rs :: Spells(rs, body) &&
        var values := ValuesOf(rs, steps[0].number);
        if steps[0].index >= |values| then r == Missing
        else
          var v := values[steps[0].index];
          if |steps| == 1 then r == Selected(v)
          else if v.wire != 2 then r == Fault(NotAMessage)
          else LeadsTo(v.data, steps[1..], r)
  }

  method Follow(body0: Bytes, steps: seq<PathStep>) returns (r: Selection<ProtoValue>)
    requires |steps| > 0
    ensures LeadsTo(body0, steps, r)
  {
    var body := body0;
    for i := 0 to |steps|
      invariant i < |steps|
      invariant forall s :: LeadsTo(body, steps[i..], s) ==> LeadsTo(body0, steps, s)
    {
      var parsed, rs := ProtoFields(body);
      ghost var rest := steps[i..];
      assert rest[0] == steps[i] && rest[1..] == steps[i+1..];
      if parsed.Invalid? {
        assert LeadsTo(body, rest, Fault(MalformedMessage));
        return Fault(MalformedMessage);
      }
      var values := Occurrences(parsed.fields, steps[i].number);
      GroupHoldsValuesInOrder(rs, steps[i].number);
      if steps[i].index >= |values| {
        assert LeadsTo(body, rest, Missing);
        return Missing;
      }
      var value := values[steps[i].index];
      if i + 1 == |steps| {
        assert LeadsTo(body, rest, Selected(value));
        return Selected(value);
      }
      if value.wire != 2 {
        assert LeadsTo(body, rest, Fault(NotAMessage));
        return Fault(NotAMessage);
      }
      forall s | LeadsTo(value.data, steps[i+1..], s) ensures LeadsTo(body0, steps, s) {
        assert LeadsTo(body, rest, s);
      }
      body := value.data;
    }
  }

  /** The path leads to one result only. */
  lemma {:induction false} LeadsToOne(body: Bytes, steps: seq<PathStep>, r: Selection<ProtoValue>,
                                      s: Selection<ProtoValue>)
    requires |steps| > 0 && LeadsTo(body, steps, r) && LeadsTo(body, steps, s)
    ensures r == s
    decreases |steps|
  {
    if rs :| Spells(rs, body) {
      forall ss | Spells(ss, body) ensures ss == rs { SpellingIsUnique(ss, rs, body); }
      var values := ValuesOf(rs, steps[0].number);
      if steps[0].index < |values| && |steps| > 1 && values[steps[0].index].wire == 2 {
        LeadsToOne(values[steps[0].index].data, steps[1..], r, s);
      }
    }
  }

  // ----- turning the selected value into its declared type

  function ToSigned(u: nat): int {
    if u < TWO_TO_63 then u else u - TWO_TO_64
  }

  /** ZigZag decoding: halve, and complement the half if the lowest bit is set. */
  function UnZigZag(u: nat): int {
    if u % 2 == 0 then u / 2 else -(u / 2) - 1
  }

  /** ZigZag encoding of a signed 64-bit number (section "Signed Integers" of the Encoding guide). */
  function ZigZag(i: int): nat {
    if i >= 0 then 2 * i else -2 * i - 1
  }

  /** The declared type applied to a selected value; `validText` stands for the UTF-8 check. */
  function Convert(v: ProtoValue, declared: Type, validText: Bytes -> bool): Selection<Scalar> {
    var typ := if declared == Auto then (if v.wire == 2 then String else UInt) else declared;
    if v.wire == 2 then
      match typ
      case String => if validText(v.data) then Selected(Text(v.data)) else Fault(InvalidText)
      case BytesType => Selected(Raw(v.data))
      case _ => Fault(TypeMismatch)
    else
      match typ
      case UInt => Selected(Unsigned(v.number))
      case Int => Selected(Signed(ToSigned(v.number)))
      case SInt => Selected(Signed(UnZigZag(v.number)))
      case Bool => Selected(Flag(v.number != 0))
      case Float32 => if v.wire == 5 then Selected(Bits32(v.number)) else Fault(TypeMismatch)
      case Float64 => if v.wire == 1 then Selected(Bits64(v.number)) else Fault(TypeMismatch)
      case _ => Fault(TypeMismatch)
  }

  ghost function Converted(r: Selection<ProtoValue>, typ: Type, validText: Bytes -> bool): Selection<Scalar> {
    match r
    case Selected(v) => Convert(v, typ, validText)
    case Missing => Missing
    case Fault(f) => Fault(f)
  }

  /** Selects and converts. */
  method Select(body: Bytes, steps: seq<PathStep>, typ: Type, validText: Bytes -> bool)
    returns (s: Selection<Scalar>)
    requires |steps| > 0
    ensures exists r :: LeadsTo(body, steps, r) && s == Converted(r, typ, validText)
  {
    var found := Follow(body, steps);
    match found
    case Selected(v) => s := Convert(v, typ, validText);
    case Missing => s := Missing;
    case Fault(f) => s := Fault(f);
  }

  // ----- message trees

  /** A message as a tree. `Delimited` is a string or byte field, `Message` a nested message. */
  datatype Value =
    | Varint(u: nat) | Fixed64(u: nat) | Fixed32(u: nat) | Delimited(data: Bytes) | Message(fields: seq<Field>)

  datatype Field = Field(number: nat, value: Value)

  /** The value that the reader reports for an encoded field. */
  ghost function Image(v: Value): ProtoValue
    decreases v
  {
    match v
    case Varint(u) => ProtoValue(0, u, [])
    case Fixed64(u) => ProtoValue(1, u, [])
    case Fixed32(u) => ProtoValue(5, u, [])
    case Delimited(d) => ProtoValue(2, 0, d)
    case Message(fs) => ProtoValue(2, 0, Encode(fs))
  }

  ghost function RecordOf(f: Field): Record
    decreases f
  {
    var v := Image(f.value);
    var tag := AppendUvarint(f.number * 8 + v.wire);
    match f.value
    case Varint(u) => Record(tag, [], AppendUvarint(u), f.number, v)
    case Fixed64(u) => Record(tag, [], ToLittleEndian(u, 8), f.number, v)
    case Fixed32(u) => Record(tag, [], ToLittleEndian(u, 4), f.number, v)
    case _ => Record(tag, AppendUvarint(|v.data|), v.data, f.number, v)
  }

  ghost function RecordsOf(fs: seq<Field>): seq<Record>
    decreases fs, 0
  {
    if fs == [] then [] else RecordsOf(fs[..|fs|-1]) + [RecordOf(fs[|fs|-1])]
  }

  /** The wire form of a message. */
  ghost function Encode(fs: seq<Field>): Bytes
    decreases fs, 1
  {
    Join(RecordsOf(fs))
  }

  /** Field numbers and values are in range, and every length fits the signed length of a Go slice. */
  ghost predicate WellFormed(fs: seq<Field>) {
    forall i :: 0 <= i < |fs| ==> WellFormedField(fs[i])
  }

  ghost predicate WellFormedField(f: Field) {
    && 1 <= f.number < TWO_TO_29
    && match f.value
       case Varint(u) => u < TWO_TO_64
       case Fixed64(u) => u < TWO_TO_64
       case Fixed32(u) => u < TWO_TO_32
       case Delimited(d) => |d| < TWO_TO_63
       case Message(gs) => WellFormed(gs) && |Encode(gs)| < TWO_TO_63
  }

  lemma FieldIsRecord(f: Field)
    requires WellFormedField(f)
    ensures IsRecord(RecordOf(f)) && RecordOf(f).field == f.number && RecordOf(f).value == Image(f.value)
  {
    var v := Image(f.value);
    EncodesVarint(f.number * 8 + v.wire);
    FieldIsPayload(f);
  }

  lemma FieldIsPayload(f: Field)
    requires WellFormedField(f)
    ensures var r := RecordOf(f); IsPayload(r.value.wire, r.prefix, r.payload, r.value)
  {
    match f.value {
      case Varint(u) => EncodesVarint(u);
      case Fixed64(u) => FixedRoundTrips(u, 8);
      case Fixed32(u) => FixedRoundTrips(u, 4);
      case Delimited(d) => EncodesVarint(|d|);
      case Message(gs) => EncodesVarint(|Encode(gs)|);
    }
  }

  lemma FixedRoundTrips(u: nat, width: nat)
    requires (width == 8 && u < TWO_TO_64) || (width == 4 && u < TWO_TO_32)
    ensures LittleEndian(ToLittleEndian(u, width)) == u
  {
    assert Pow256(1) == 0x100 && Pow256(2) == 0x1_0000 && Pow256(3) == 0x100_0000 && Pow256(4) == TWO_TO_32;
    assert Pow256(5) == 0x100_0000_0000 && Pow256(6) == 0x1_0000_0000_0000;
    assert Pow256(7) == 0x100_0000_0000_0000 && Pow256(8) == TWO_TO_64;
    LittleEndianRoundTrip(u, width);
  }

  lemma {:induction false} FieldsAreRecords(fs: seq<Field>)
    requires WellFormed(fs)
    ensures |RecordsOf(fs)| == |fs|
    ensures forall i :: 0 <= i < |fs| ==> RecordsOf(fs)[i] == RecordOf(fs[i]) && IsRecord(RecordsOf(fs)[i])
    decreases |fs|
  {
    if fs != [] {
      FieldsAreRecords(fs[..|fs|-1]);
      FieldIsRecord(fs[|fs|-1]);
    }
  }

  lemma EncodingSpells(fs: seq<Field>)
    requires WellFormed(fs)
    ensures Spells(RecordsOf(fs), Encode(fs))
  {
    FieldsAreRecords(fs);
  }

  /** The occurrences of a field in a message tree. */
  ghost function Children(fs: seq<Field>, n: nat): seq<Value> {
    if fs == [] then []
    else Children(fs[..|fs|-1], n) + if fs[|fs|-1].number == n then [fs[|fs|-1].value] else []
  }

  lemma {:induction false} ChildrenAreWellFormed(fs: seq<Field>, n: nat, k: nat)
    requires WellFormed(fs) && k < |Children(fs, n)|
    ensures WellFormedField(Field(n, Children(fs, n)[k]))
    decreases |fs|
  {
    var last := |fs| - 1;
    if k < |Children(fs[..last], n)| {
      ChildrenAreWellFormed(fs[..last], n, k);
    }
  }

  lemma {:induction false} ValuesAreImages(fs: seq<Field>, n: nat)
    requires WellFormed(fs)
    ensures |ValuesOf(RecordsOf(fs), n)| == |Children(fs, n)|
    ensures forall k :: 0 <= k < |Children(fs, n)| ==> ValuesOf(RecordsOf(fs), n)[k] == Image(Children(fs, n)[k])
    decreases |fs|
  {
    if fs != [] {
      var last := |fs| - 1;
      ValuesAreImages(fs[..last], n);
      FieldIsRecord(fs[last]);
      assert RecordsOf(fs)[..last] == RecordsOf(fs[..last]) by { FieldsAreRecords(fs[..last]); }
    }
  }

  /** The value that a path leads to in a message tree. A string field on the way is read as whatever
      message its bytes happen to spell. */
  ghost predicate InTree(fs: seq<Field>, steps: seq<PathStep>, r: Selection<ProtoValue>)
    requires |steps| > 0
    decreases |steps|
  {
    var values := Children(fs, steps[0].number);
    if steps[0].index >= |values| then r == Missing
    else
      var v := values[steps[0].index];
      if |steps| == 1 then r == Selected(Image(v))
      else match v
        case Message(gs) => InTree(gs, steps[1..], r)
        case Delimited(d) => LeadsTo(d, steps[1..], r)
        case _ => r == Fault(NotAMessage)
  }

  /** Selecting in the encoding of a message is selecting in the message: existing values come back as
      they were encoded, and a path past the occurrences of a field is reported missing. */
  lemma {:induction false} SelectionFollowsTheTree(fs: seq<Field>, steps: seq<PathStep>, r: Selection<ProtoValue>)
    requires WellFormed(fs) && |steps| > 0
    ensures LeadsTo(Encode(fs), steps, r) <==> InTree(fs, steps, r)
    decreases |steps|
  {
    EncodingSpells(fs);
    ValuesAreImages(fs, steps[0].number);
    var values := Children(fs, steps[0].number);
    forall ss | Spells(ss, Encode(fs)) ensures ss == RecordsOf(fs) {
      SpellingIsUnique(ss, RecordsOf(fs), Encode(fs));
    }
    if steps[0].index < |values| {
      ChildrenAreWellFormed(fs, steps[0].number, steps[0].index);
      var v := values[steps[0].index];
      if |steps| > 1 && v.Message? {
        SelectionFollowsTheTree(v.fields, steps[1..], r);
      }
    }
  }

  /** A leaf of the tree is what selecting along its path in the encoding yields. */
  lemma {:induction false} LeafIsSelected(fs: seq<Field>, steps: seq<PathStep>, leaf: Value, r: Selection<ProtoValue>)
    requires WellFormed(fs) && |steps| > 0 && InTree(fs, steps, Selected(Image(leaf)))
    requires LeadsTo(Encode(fs), steps, r)
    ensures r == Selected(Image(leaf))
  {
    SelectionFollowsTheTree(fs, steps, Selected(Image(leaf)));
    LeadsToOne(Encode(fs), steps, r, Selected(Image(leaf)));
  }

  lemma UnZigZagUndoes(i: int)
    requires 0 <= i + TWO_TO_63 < TWO_TO_64
    ensures ZigZag(i) < TWO_TO_64 && UnZigZag(ZigZag(i)) == i
  {
  }

  /** A signed number that is encoded by ZigZag anywhere in a message is selected along its path as `sint`. */
  lemma {:induction false} ZigZagRoundTrip(fs: seq<Field>, steps: seq<PathStep>, i: int,
                                            validText: Bytes -> bool, r: Selection<ProtoValue>)
    requires WellFormed(fs) && |steps| > 0 && 0 <= i + TWO_TO_63 < TWO_TO_64
    requires InTree(fs, steps, Selected(Image(Varint(ZigZag(i))))) && LeadsTo(Encode(fs), steps, r)
    ensures Converted(r, SInt, validText) == Selected(Signed(i))
  {
    UnZigZagUndoes(i);
    LeafIsSelected(fs, steps, Varint(ZigZag(i)), r);
  }

  /** The unsigned number with the same 64 bits. */
  function TwosComplement(i: int): (u: nat)
    requires 0 <= i + TWO_TO_63 < TWO_TO_64
    ensures u < TWO_TO_64 && ToSigned(u) == i
  {
    if i < 0 then i + TWO_TO_64 else i
  }

  /** A signed number that is encoded in two's complement anywhere in a message is selected along its path as
      `int`. */
  lemma {:induction false} SignedRoundTrip(fs: seq<Field>, steps: seq<PathStep>, i: int,
                                            validText: Bytes -> bool, r: Selection<ProtoValue>)
    requires WellFormed(fs) && |steps| > 0 && 0 <= i + TWO_TO_63 < TWO_TO_64
    requires InTree(fs, steps, Selected(Image(Varint(TwosComplement(i))))) && LeadsTo(Encode(fs), steps, r)
    ensures Converted(r, Int, validText) == Selected(Signed(i))
  {
    LeafIsSelected(fs, steps, Varint(TwosComplement(i)), r);
  }

  /** An unsigned number anywhere in a message is selected along its path as `uint`, which is also the default. */
  lemma {:induction false} UnsignedRoundTrip(fs: seq<Field>, steps: seq<PathStep>, n: nat,
                                             validText: Bytes -> bool, r: Selection<ProtoValue>)
    requires WellFormed(fs) && |steps| > 0 && n < TWO_TO_64
    requires InTree(fs, steps, Selected(Image(Varint(n)))) && LeadsTo(Encode(fs), steps, r)
    ensures Converted(r, UInt, validText) == Converted(r, Auto, validText) == Selected(Unsigned(n))
  {
    LeafIsSelected(fs, steps, Varint(n), r);
  }

  /** What a leaf of a message tree means under a declared type: strings and bytes are not numbers, numbers are not
      text, and a floating-point type needs the fixed width of its own. */
  ghost function Meaning(leaf: Value, typ: Type, validText: Bytes -> bool): Selection<Scalar> {
    match leaf
    case Delimited(d) => MeaningOfBytes(d, typ, validText)
    case Message(fs) => MeaningOfBytes(Encode(fs), typ, validText)
    case Varint(u) => MeaningOfNumber(u, typ)
    case Fixed32(u) => if typ == Float32 then Selected(Bits32(u)) else MeaningOfNumber(u, typ)
    case Fixed64(u) => if typ == Float64 then Selected(Bits64(u)) else MeaningOfNumber(u, typ)
  }

  ghost function MeaningOfBytes(d: Bytes, typ: Type, validText: Bytes -> bool): Selection<Scalar> {
    match typ
    case BytesType => Selected(Raw(d))
    case String => if validText(d) then Selected(Text(d)) else Fault(InvalidText)
    case Auto => if validText(d) then Selected(Text(d)) else Fault(InvalidText)
    case _ => Fault(TypeMismatch)
  }

  ghost function MeaningOfNumber(u: nat, typ: Type): Selection<Scalar> {
    match typ
    case UInt => Selected(Unsigned(u))
    case Auto => Selected(Unsigned(u))
    case Int => Selected(Signed(ToSigned(u)))
    case SInt => Selected(Signed(UnZigZag(u)))
    case Bool => Selected(Flag(u > 0))
    case _ => Fault(TypeMismatch)
  }

  lemma BytesAreConverted(d: Bytes, typ: Type, validText: Bytes -> bool)
    ensures Convert(ProtoValue(2, 0, d), typ, validText) == MeaningOfBytes(d, typ, validText)
  {
  }

  lemma NumberIsConverted(v: ProtoValue, typ: Type, validText: Bytes -> bool)
    requires v.wire == 0 || v.wire == 1 || v.wire == 5
    ensures Convert(v, typ, validText)
         == if typ == Float32 && v.wire == 5 then Selected(Bits32(v.number))
            else if typ == Float64 && v.wire == 1 then Selected(Bits64(v.number))
            else MeaningOfNumber(v.number, typ)
  {
  }

  /** Any leaf of any message, selected along its path in the encoding, is converted to its meaning under any type. */
  lemma {:induction false} LeafIsConverted(fs: seq<Field>, steps: seq<PathStep>, leaf: Value, typ: Type,
                                           validText: Bytes -> bool, r: Selection<ProtoValue>)
    requires WellFormed(fs) && |steps| > 0
    requires InTree(fs, steps, Selected(Image(leaf))) && LeadsTo(Encode(fs), steps, r)
    ensures Converted(r, typ, validText) == Meaning(leaf, typ, validText)
  {
    LeafIsSelected(fs, steps, leaf, r);
    match leaf
    case Varint(u) => NumberIsConverted(Image(leaf), typ, validText);
    case Fixed32(u) => NumberIsConverted(Image(leaf), typ, validText);
    case Fixed64(u) => NumberIsConverted(Image(leaf), typ, validText);
    case Delimited(d) => BytesAreConverted(d, typ, validText);
    case Message(gs) => BytesAreConverted(Encode(gs), typ, validText);
  }

  /** The repository's own encoder for an unsigned field: a tag and a number. */
  function ProtoUint(field: nat, n: nat): Bytes {
    AppendUvarint(field * 8) + AppendUvarint(n)
  }

  /** What that encoder writes is selected as the number it was given. */
  lemma ProtoUintRoundTrip(field: nat, n: nat, validText: Bytes -> bool, r: Selection<ProtoValue>)
    requires 1 <= field < TWO_TO_29 && n < TWO_TO_64
    requires LeadsTo(ProtoUint(field, n), [PathStep(field, 0)], r)
    ensures Converted(r, UInt, validText) == Selected(Unsigned(n))
    ensures Converted(r, Auto, validText) == Selected(Unsigned(n))
  {
    var fs := [Field(field, Varint(n))];
    ProtoUintIsAMessage(field, n);
    assert Children(fs, field) == [Varint(n)] by { assert fs[..0] == []; }
    SelectionFollowsTheTree(fs, [PathStep(field, 0)], r);
  }

  lemma ProtoUintIsAMessage(field: nat, n: nat)
    requires 1 <= field < TWO_TO_29 && n < TWO_TO_64
    ensures Encode([Field(field, Varint(n))]) == ProtoUint(field, n)
  {
    var fs := [Field(field, Varint(n))];
    var record := RecordOf(Field(field, Varint(n)));
    assert Image(Varint(n)) == ProtoValue(0, n, []);
    assert record.tag == AppendUvarint(field * 8 + 0) && record.payload == AppendUvarint(n);
    assert fs[..0] == [] && RecordsOf(fs[..0]) == [];
    assert RecordsOf(fs) == [record];
    assert [record][1..] == [] && Join([record][1..]) == [];
    assert RecordBytes(record) == AppendUvarint(field * 8) + [] + AppendUvarint(n);
  }
}
