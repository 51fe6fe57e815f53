/** The protobuf wire format: base-128 varints, little-endian fixed fields and records, as laid down in
    the Protocol Buffers Encoding guide, sections "Base 128 Varints" and "Message Structure". */
module Wire {
  import opened Options

  type Byte = b: nat | b < 256

  type Bytes = seq<Byte>

  const MAX_VARINT_LENGTH: nat := 10
  const TWO_TO_29: nat := 0x2000_0000
  const TWO_TO_32: nat := 0x1_0000_0000
  const TWO_TO_63: nat := 0x8000_0000_0000_0000
  const TWO_TO_64: nat := 0x1_0000_0000_0000_0000

  // ----- varints, as the standard states them

  /** The number that a group of seven-bit digits stands for, least significant digit first. */
  ghost function Digits(bs: Bytes): nat {
    if bs == [] then 0 else bs[0] % 128 + 128 * Digits(bs[1..])
  }

  /** A varint: continuation bits on all bytes but the last, at most ten bytes and 64 bits of payload. */
  ghost predicate IsVarint(bs: Bytes, v: nat) {
    && 1 <= |bs| <= 10
    && (forall i :: 0 <= i < |bs| - 1 ==> bs[i] >= 128)
    && bs[|bs|-1] < 128
    && (|bs| == 10 ==> bs[|bs|-1] <= 1)
    && v == Digits(bs)
  }

  // ----- the reader of the Go library, from the byte with index i of a varint on

  /** The value and the number of bytes read, or nothing if the buffer ends early or overflows. */
  function Uvarint(buf: Bytes, i: nat): (r: Option<(nat, nat)>)
    ensures r.Some? ==> 1 <= r.value.1 <= |buf|
    decreases |buf|
  {
    if buf == [] || i >= MAX_VARINT_LENGTH then None
    else if buf[0] < 128 then
      if i == MAX_VARINT_LENGTH - 1 && buf[0] > 1 then None else Some((buf[0], 1))
    else
      match Uvarint(buf[1..], i + 1)
      case None => None
      case Some(rest) => Some((buf[0] - 128 + 128 * rest.0, rest.1 + 1))
  }

  /** The part of a varint from its byte with index i on. */
  ghost predicate IsVarintTail(bs: Bytes, i: nat, v: nat) {
    && 1 <= |bs| && i + |bs| <= MAX_VARINT_LENGTH
    && (forall k :: 0 <= k < |bs| - 1 ==> bs[k] >= 128)
    && bs[|bs|-1] < 128
    && (i + |bs| == MAX_VARINT_LENGTH ==> bs[|bs|-1] <= 1)
    && v == Digits(bs)
  }

  lemma {:induction false} ReadsVarintTail(buf: Bytes, i: nat)
    ensures match Uvarint(buf, i)
      case Some(r) => IsVarintTail(buf[..r.1], i, r.0)
      case None => forall n, v :: 0 <= n <= |buf| ==> !IsVarintTail(buf[..n], i, v)
    decreases |buf|
  {
    if buf == [] || i >= MAX_VARINT_LENGTH {
    } else if buf[0] < 128 {
      assert buf[..1] == [buf[0]] && Digits([buf[0]][1..]) == 0;
      if i == MAX_VARINT_LENGTH - 1 && buf[0] > 1 {
        forall n, v | 0 <= n <= |buf| ensures !IsVarintTail(buf[..n], i, v) { }
      }
    } else {
      ReadsVarintTail(buf[1..], i + 1);
      match Uvarint(buf[1..], i + 1)
      case Some(rest) =>
        assert buf[..rest.1+1] == [buf[0]] + buf[1..][..rest.1];
        LongerTail(buf[0], buf[1..][..rest.1], i, rest.0);
      case None =>
        NoLongerTail(buf, i, buf[1..], i + 1);
    }
  }

  lemma NoLongerTail(buf: Bytes, i: nat, rest: Bytes, j: nat)
    requires buf != [] && buf[0] >= 128 && rest == buf[1..] && j == i + 1
    requires forall n, v :: 0 <= n <= |rest| ==> !IsVarintTail(rest[..n], j, v)
    ensures forall n, v :: 0 <= n <= |buf| ==> !IsVarintTail(buf[..n], i, v)
  {
    forall n, v | 0 <= n <= |buf| && IsVarintTail(buf[..n], i, v) ensures false {
      assert buf[..n] == [buf[0]] + rest[..n-1];
      ShorterTail(buf[0], rest[..n-1], i, v);
    }
  }

  lemma LongerTail(b: Byte, bs: Bytes, i: nat, v: nat)
    requires b >= 128 && IsVarintTail(bs, i + 1, v)
    ensures IsVarintTail([b] + bs, i, b - 128 + 128 * v)
  {
    assert ([b] + bs)[1..] == bs;
  }

  lemma ShorterTail(b: Byte, bs: Bytes, i: nat, v: nat)
    requires b >= 128 && IsVarintTail([b] + bs, i, v)
    ensures IsVarintTail(bs, i + 1, Digits(bs))
  {
    assert ([b] + bs)[1..] == bs;
    forall k | 0 <= k < |bs| - 1 ensures bs[k] >= 128 { assert ([b] + bs)[k+1] >= 128; }
    assert ([b] + bs)[|bs|] == bs[|bs|-1];
  }

  /** The reader accepts exactly the varints of the standard, and reads their value. */
  lemma ReadsVarint(buf: Bytes)
    ensures match Uvarint(buf, 0)
      case Some(r) => IsVarint(buf[..r.1], r.0)
      case None => forall n, v :: 0 <= n <= |buf| ==> !IsVarint(buf[..n], v)
  {
    ReadsVarintTail(buf, 0);
    forall n, v | 0 <= n <= |buf| && IsVarint(buf[..n], v) ensures IsVarintTail(buf[..n], 0, v) { }
  }

  /** What follows a varint does not change how it is read. */
  lemma {:induction false} VarintThenRest(buf: Bytes, rest: Bytes, i: nat)
    requires Uvarint(buf, i).Some?
    ensures Uvarint(buf + rest, i) == Uvarint(buf, i)
    decreases |buf|
  {
    if buf[0] >= 128 {
      assert (buf + rest)[1..] == buf[1..] + rest;
      VarintThenRest(buf[1..], rest, i + 1);
    }
  }

  lemma {:induction false} TailIsRead(bs: Bytes, i: nat, v: nat)
    requires IsVarintTail(bs, i, v)
    ensures Uvarint(bs, i) == Some((v, |bs|))
    decreases |bs|
  {
    if |bs| > 1 {
      assert bs == [bs[0]] + bs[1..];
      ShorterTail(bs[0], bs[1..], i, v);
      TailIsRead(bs[1..], i + 1, Digits(bs[1..]));
      assert bs[0] % 128 == bs[0] - 128;
    } else {
      assert bs[1..] == [] && Digits(bs[1..]) == 0;
      assert bs[0] % 128 == bs[0] == v;
    }
  }

  /** Reading a varint in front of anything gives back its value and its length. */
  lemma ReadsThisVarint(bs: Bytes, v: nat, rest: Bytes)
    requires IsVarint(bs, v)
    ensures Uvarint(bs + rest, 0) == Some((v, |bs|))
  {
    TailIsRead(bs, 0, v);
    VarintThenRest(bs, rest, 0);
  }

  // ----- the encoder of the Go library

  function AppendUvarint(x: nat): (r: Bytes)
    ensures |r| >= 1
  {
    if x < 128 then [x] else [x % 128 + 128] + AppendUvarint(x / 128)
  }

  /** 2 to the power of the bits that are left from the byte with index i on. */
  ghost function RoomFrom(i: nat): nat
    requires i < MAX_VARINT_LENGTH
    decreases MAX_VARINT_LENGTH - i
  {
    if i == MAX_VARINT_LENGTH - 1 then 2 else 128 * RoomFrom(i + 1)
  }

  lemma RoomIs64Bits()
    ensures RoomFrom(0) == TWO_TO_64
  {
    assert RoomFrom(9) == 2 && RoomFrom(8) == 0x100;
    assert RoomFrom(7) == 0x8000 && RoomFrom(6) == 0x40_0000;
    assert RoomFrom(5) == 0x2000_0000 && RoomFrom(4) == 0x10_0000_0000;
    assert RoomFrom(3) == 0x800_0000_0000 && RoomFrom(2) == 0x4_0000_0000_0000;
    assert RoomFrom(1) == 0x200_0000_0000_0000;
  }

  lemma {:induction false} EncodesTail(x: nat, i: nat)
    requires i < MAX_VARINT_LENGTH && x < RoomFrom(i)
    ensures IsVarintTail(AppendUvarint(x), i, x)
    decreases x
  {
    if x >= 128 {
      EncodesTail(x / 128, i + 1);
      LongerTail(x % 128 + 128, AppendUvarint(x / 128), i, x / 128);
    } else {
      assert [x][1..] == [];
    }
  }

  /** Every unsigned 64-bit number is encoded as a varint. */
  lemma EncodesVarint(x: nat)
    requires x < TWO_TO_64
    ensures IsVarint(AppendUvarint(x), x)
  {
    RoomIs64Bits();
    EncodesTail(x, 0);
  }

  // ----- little-endian numbers

  function LittleEndian(bs: Bytes): nat {
    if bs == [] then 0 else bs[0] + 256 * LittleEndian(bs[1..])
  }

  function ToLittleEndian(u: nat, width: nat): (r: Bytes)
    ensures |r| == width
  {
    if width == 0 then [] else [u % 256] + ToLittleEndian(u / 256, width - 1)
  }

  ghost function Pow256(k: nat): nat {
    if k == 0 then 1 else 256 * Pow256(k - 1)
  }

  lemma {:induction false} LittleEndianRoundTrip(u: nat, width: nat)
    requires u < Pow256(width)
    ensures LittleEndian(ToLittleEndian(u, width)) == u
    decreases width
  {
    if width > 0 {
      assert u / 256 < Pow256(width - 1);
      LittleEndianRoundTrip(u / 256, width - 1);
      assert ToLittleEndian(u, width)[1..] == ToLittleEndian(u / 256, width - 1);
    }
  }

  // ----- records

  datatype ProtoValue = ProtoValue(wire: nat, number: nat, data: Bytes)

  /** One record of a message: its tag, for a length-delimited record its length prefix, and its payload. */
  datatype Record = Record(tag: Bytes, prefix: Bytes, payload: Bytes, field: nat, value: ProtoValue)

  function RecordBytes(r: Record): Bytes {
    r.tag + r.prefix + r.payload
  }

  /** The payload of a record and its value, for the four wire types the reader supports. */
  ghost predicate IsPayload(wire: nat, prefix: Bytes, payload: Bytes, value: ProtoValue) {
    && value.wire == wire
    && match wire
       case 0 => prefix == [] && IsVarint(payload, value.number) && value.data == []
       case 1 => prefix == [] && |payload| == 8 && value.number == LittleEndian(payload) && value.data == []
       case 2 => IsVarint(prefix, |payload|) && value.data == payload && value.number == 0
       case 5 => prefix == [] && |payload| == 4 && value.number == LittleEndian(payload) && value.data == []
       case _ => false
  }

  /** A record as the standard defines it, with a field number of at most 29 bits. */
  ghost predicate IsRecord(r: Record) {
    && 1 <= r.field <= 536_870_911
    && IsVarint(r.tag, r.field * 8 + r.value.wire)
    && IsPayload(r.value.wire, r.prefix, r.payload, r.value)
  }

  function Join(rs: seq<Record>): Bytes {
    if rs == [] then [] else RecordBytes(rs[0]) + Join(rs[1..])
  }
}
