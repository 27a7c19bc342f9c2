/** The octets of the wire format, said independently of the functions that write and read
    them: varints (section "Base 128 Varints" of the Protocol Buffers encoding), UTF-8
    (RFC 3629), records that a parser skips, and whole messages spelt out. */
module WireFormat {
  import opened ByteStrings
  import opened Wire
  import opened Messages

  // ----- Varints -----

  /** Seven bits an octet, the least significant first. */
  function Base128(b: Bytes): nat
  {
    if b == [] then 0 else b[0] as nat % 128 + 128 * Base128(b[1..])
  }

  /** The top bit is set on all octets but the last. */
  predicate Continued(b: Bytes)
  {
    b != [] && forall i :: 0 <= i < |b| ==> (128 <= b[i] <==> i + 1 < |b|)
  }

  lemma {:induction false} VarintValue(n: nat)
    ensures Continued(Varint(n)) && Base128(Varint(n)) == n
    ensures n != 0 ==> Varint(n)[|Varint(n)| - 1] != 0
  {
    var b := Varint(n);
    if n < 128 {
      assert Base128(b[1..]) == 0;
    } else {
      VarintValue(n / 128);
      var rest := Varint(n / 128);
      assert b[1..] == rest;
      assert forall i :: 1 <= i < |b| ==> b[i] == rest[i - 1];
    }
  }

  // ----- UTF-8 -----

  /** The Unicode scalar values. */
  predicate Scalar(c: nat) { c < 0xD800 || 0xE000 <= c < 0x11_0000 }

  function Tail(c: nat): byte { (0x80 + c % 64) as byte }

  /** The octets of a scalar value (section 3 of RFC 3629). */
  function EncodedChar(c: nat): (b: Bytes)
    requires Scalar(c)
    ensures 0 < |b|
  {
    if c < 0x80 then [c as byte]
    else if c < 0x800 then [(0xC0 + c / 64) as byte, Tail(c)]
    else if c < 0x1_0000 then [(0xE0 + c / 4096) as byte, Tail(c / 64), Tail(c)]
    else [(0xF0 + c / 0x4_0000) as byte, Tail(c / 4096), Tail(c / 64), Tail(c)]
  }

  function EncodedText(text: seq<nat>): Bytes
    requires forall c :: c in text ==> Scalar(c)
  {
    if text == [] then [] else EncodedChar(text[0]) + EncodedText(text[1..])
  }

  lemma CharRead(c: nat, rest: Bytes)
    requires Scalar(c)
    ensures Utf8Char(EncodedChar(c) + rest) == |EncodedChar(c)|
  {
    CharWhole(c);
    MoreBehind(EncodedChar(c), rest);
  }

  lemma MoreBehind(a: Bytes, rest: Bytes)
    requires a != [] && Utf8Char(a) == |a|
    ensures Utf8Char(a + rest) == |a|
  {
    assert forall i :: 0 <= i < |a| ==> (a + rest)[i] == a[i];
  }

  lemma CharWhole(c: nat)
    requires Scalar(c)
    ensures Utf8Char(EncodedChar(c)) == |EncodedChar(c)|
  {
    if 0x800 <= c < 0x1_0000 {
      assert c / 4096 == 0 ==> 32 <= c / 64;
      assert c / 4096 == 13 ==> c / 64 % 64 < 32;
    } else if 0x1_0000 <= c {
      assert c / 0x4_0000 == 0 ==> 16 <= c / 4096;
      assert c / 0x4_0000 == 4 ==> c / 4096 % 64 < 16;
    }
  }

  /** The scalar value that the first n octets stand for. */
  function Decoded(b: Bytes, n: nat): nat
    requires n <= |b|
  {
    if n == 1 then b[0] as nat
    else if n == 2 then (b[0] as nat - 0xC0) % 32 * 64 + b[1] as nat % 64
    else if n == 3 then b[0] as nat % 16 * 4096 + b[1] as nat % 64 * 64 + b[2] as nat % 64
    else if n == 4 then b[0] as nat % 8 * 0x4_0000 + b[1] as nat % 64 * 4096 + b[2] as nat % 64 * 64 + b[3] as nat % 64
    else 0
  }

  lemma CharIsEncoded(b: Bytes)
    requires b != [] && 0 < Utf8Char(b)
    ensures var n := Utf8Char(b);
            Scalar(Decoded(b, n)) && b[..n] == EncodedChar(Decoded(b, n))
  {
    var n := Utf8Char(b);
    if n == 2 {
      TwoOctets(b[0], b[1]);
    } else if n == 3 {
      ThreeOctets(b[0], b[1], b[2]);
    } else if n == 4 {
      FourOctets(b[0], b[1], b[2], b[3]);
    }
  }

  lemma TwoOctets(a: byte, b: byte)
    requires 0xC2 <= a <= 0xDF && Continuation(b)
    ensures var c := (a as nat - 0xC0) % 32 * 64 + b as nat % 64;
            0x80 <= c < 0x800 && EncodedChar(c) == [a, b]
  {
  }

  lemma ThreeOctets(a: byte, b: byte, d: byte)
    requires 0xE0 <= a <= 0xEF && Continuation(b) && Continuation(d)
    requires (a == 0xE0 ==> 0xA0 <= b) && (a == 0xED ==> b <= 0x9F)
    ensures var c := a as nat % 16 * 4096 + b as nat % 64 * 64 + d as nat % 64;
            0x800 <= c < 0x1_0000 && Scalar(c) && EncodedChar(c) == [a, b, d]
  {
    var x, y, z := a as nat - 0xE0, b as nat - 0x80, d as nat - 0x80;
    assert a as nat % 16 == x && b as nat % 64 == y && d as nat % 64 == z;
    CharOfThree(x, y, z);
  }

  lemma CharOfThree(x: nat, y: nat, z: nat)
    requires x < 16 && y < 64 && z < 64 && (x == 0 ==> 32 <= y) && (x == 13 ==> y < 32)
    ensures var c := x * 4096 + y * 64 + z;
            && 0x800 <= c < 0x1_0000 && Scalar(c)
            && EncodedChar(c) == [(0xE0 + x) as byte, (0x80 + y) as byte, (0x80 + z) as byte]
  {
    SixBitDigits(0, x, y, z);
  }

  lemma FourOctets(a: byte, b: byte, d: byte, e: byte)
    requires 0xF0 <= a <= 0xF4 && Continuation(b) && Continuation(d) && Continuation(e)
    requires (a == 0xF0 ==> 0x90 <= b) && (a == 0xF4 ==> b <= 0x8F)
    ensures var c := a as nat % 8 * 0x4_0000 + b as nat % 64 * 4096 + d as nat % 64 * 64 + e as nat % 64;
            0x1_0000 <= c < 0x11_0000 && EncodedChar(c) == [a, b, d, e]
  {
    var w, x, y, z := a as nat - 0xF0, b as nat - 0x80, d as nat - 0x80, e as nat - 0x80;
    assert a as nat % 8 == w && b as nat % 64 == x && d as nat % 64 == y && e as nat % 64 == z;
    CharOfFour(w, x, y, z);
  }

  lemma CharOfFour(w: nat, x: nat, y: nat, z: nat)
    requires w < 5 && x < 64 && y < 64 && z < 64 && (w == 0 ==> 16 <= x) && (w == 4 ==> x < 16)
    ensures var c := w * 0x4_0000 + x * 4096 + y * 64 + z;
            && 0x1_0000 <= c < 0x11_0000
            && EncodedChar(c) == [(0xF0 + w) as byte, (0x80 + x) as byte, (0x80 + y) as byte, (0x80 + z) as byte]
  {
    SixBitDigits(w, x, y, z);
  }

  lemma SixBitDigits(w: nat, x: nat, y: nat, z: nat)
    requires x < 64 && y < 64 && z < 64
    ensures var c := w * 0x4_0000 + x * 4096 + y * 64 + z;
            && c % 64 == z && c / 64 % 64 == y && c / 4096 % 64 == x && c / 0x4_0000 == w
  {
    var c := w * 0x4_0000 + x * 4096 + y * 64 + z;
    assert c == 64 * (w * 4096 + x * 64 + y) + z;
    assert c / 64 == w * 4096 + x * 64 + y;
    assert c / 4096 == w * 64 + x;
  }

  /** The check accepts exactly the encodings of sequences of scalar values. */
  lemma Utf8IsEncodedText(b: Bytes)
    ensures Utf8(b) <==> exists text: seq<nat> :: (forall c :: c in text ==> Scalar(c)) && EncodedText(text) == b
  {
    if Utf8(b) {
      var text := TextOf(b);
    }
    forall text: seq<nat> | (forall c :: c in text ==> Scalar(c)) && EncodedText(text) == b ensures Utf8(b) {
      EncodedTextIsUtf8(text);
    }
  }

  lemma {:induction false} TextOf(b: Bytes) returns (text: seq<nat>)
    requires Utf8(b)
    ensures (forall c :: c in text ==> Scalar(c)) && EncodedText(text) == b
    decreases |b|
  {
    if b == [] {
      text := [];
    } else {
      var n := Utf8Char(b);
      CharIsEncoded(b);
      var rest := TextOf(b[n..]);
      text := [Decoded(b, n)] + rest;
      assert text[1..] == rest && b == b[..n] + b[n..];
    }
  }

  lemma {:induction false} EncodedTextIsUtf8(text: seq<nat>)
    requires forall c :: c in text ==> Scalar(c)
    ensures Utf8(EncodedText(text))
  {
    if text != [] {
      EncodedTextIsUtf8(text[1..]);
      CharRead(text[0], EncodedText(text[1..]));
      var b := EncodedText(text);
      assert b[|EncodedChar(text[0])|..] == EncodedText(text[1..]);
    }
  }

  // ----- Records that are skipped -----

  /** A payload of each wire type that a proto3 parser can step over. */
  ghost predicate IsPayload(wireType: nat, b: Bytes)
  {
    || (wireType == 0 && exists n: nat :: n < TWO_64 && b == Varint(n))
    || (wireType == 1 && |b| == 8)
    || (wireType == 2 && exists x: Bytes :: |x| < TWO_31 && b == Varint(|x|) + x)
    || (wireType == 5 && |b| == 4)
  }

  lemma PayloadRead(wireType: nat, b: Bytes, rest: Bytes)
    requires IsPayload(wireType, b)
    ensures ReadPayload(wireType, b + rest).Some? && ReadPayload(wireType, b + rest).value.1 == rest
  {
    if wireType == 0 {
      var n: nat :| n < TWO_64 && b == Varint(n);
      ReadPrintedPayload(Num(n), rest);
    } else if wireType == 2 {
      var x: Bytes :| |x| < TWO_31 && b == Varint(|x|) + x;
      ReadPrintedPayload(Blob(x), rest);
    } else {
      assert (b + rest)[|b|..] == rest;
    }
  }

  /** The field is unknown, or its kind asks for another wire type. */
  predicate Foreign(schema: Schema, number: nat, wireType: nat)
  {
    0 < number <= 16 &&
    (number <= |schema| ==> wireType != if schema[number - 1].UInt32? || schema[number - 1].Int64? then 0 else 2)
  }

  lemma RecordRead(schema: Schema, m: seq<Value>, number: nat, wireType: nat, payload: Bytes, rest: Bytes)
    requires Typed(schema, m) && 0 < number <= 16 && IsPayload(wireType, payload)
    ensures ReadPayload(wireType, payload + rest).Some?
    ensures ReadRecord(schema, m, Varint(Tag(number, wireType)) + payload + rest) ==
            match Store(schema, m, number, ReadPayload(wireType, payload + rest).value.0)
            case None => None
            case Some(m') => Some((m', rest))
  {
    var tag := Tag(number, wireType);
    var body := payload + rest;
    assert Varint(tag) + payload + rest == Varint(tag) + body;
    ReadPrintedTag(number, wireType, body);
    ReadTagged(schema, m, Varint(tag) + body, tag, body);
    PayloadRead(wireType, payload, rest);
  }

  lemma PayloadKind(wireType: nat, b: Bytes, rest: Bytes)
    requires IsPayload(wireType, b)
    ensures ReadPayload(wireType, b + rest).Some?
    ensures var p := ReadPayload(wireType, b + rest).value.0;
            (p.Number? <==> wireType == 0) && (p.Delimited? <==> wireType == 2)
  {
    PayloadRead(wireType, b, rest);
  }

  /** Such a record, of any wire type, changes nothing and is stepped over. */
  lemma ForeignFieldSkipped(schema: Schema, m: seq<Value>, number: nat, wireType: nat, payload: Bytes, rest: Bytes)
    requires Typed(schema, m) && Foreign(schema, number, wireType) && IsPayload(wireType, payload)
    ensures ParseInto(schema, m, Varint(Tag(number, wireType)) + payload + rest) == ParseInto(schema, m, rest)
  {
    RecordRead(schema, m, number, wireType, payload, rest);
    PayloadKind(wireType, payload, rest);
  }

  /** Field number 0 makes the whole message malformed. */
  lemma NumberZeroRefused(schema: Schema, m: seq<Value>, wireType: nat, rest: Bytes)
    requires Typed(schema, m) && wireType < 8
    ensures ParseInto(schema, m, Varint(Tag(0, wireType)) + rest).None?
  {
    ReadPrintedTag(0, wireType, rest);
    ReadTagged(schema, m, Varint(Tag(0, wireType)) + rest, Tag(0, wireType), rest);
  }

  /** A 32-bit field keeps the low 32 bits of whatever number it is sent. */
  lemma NumberTruncated(schema: Schema, m: seq<Value>, i: nat, n: nat, rest: Bytes)
    requires Typed(schema, m) && i < |m| && i < 16 && schema[i].UInt32? && n < TWO_64
    ensures ParseInto(schema, m, Varint(Tag(i + 1, 0)) + Varint(n) + rest) ==
            ParseInto(schema, m[i := Num(n % TWO_32)], rest)
  {
    assert IsPayload(0, Varint(n));
    RecordRead(schema, m, i + 1, 0, Varint(n), rest);
    ReadPrintedPayload(Num(n), rest);
  }

  /** A later record of a field replaces an earlier one. */
  lemma LastRecordWins(schema: Schema, m: seq<Value>, i: nat, v: Value, w: Value, rest: Bytes)
    requires |schema| < 16 && Typed(schema, m) && i < |m| && Matches(schema[i], v) && Matches(schema[i], w)
    requires (v.Blob? ==> |v.b| < TWO_31) && (w.Blob? ==> |w.b| < TWO_31)
    ensures ParseInto(schema, m, Record(i + 1, v) + (Record(i + 1, w) + rest)) == ParseInto(schema, m[i := w], rest)
  {
    ReadPrintedRecord(schema, m, i, v, Record(i + 1, w) + rest);
    ReadPrintedRecord(schema, m[i := v], i, w, rest);
    assert m[i := v][i := w] == m[i := w];
  }

  // ----- Whole messages -----

  /** The octets of a field: nothing for a default, else its key, and its number, or its
      length and its contents. */
  function Field(number: nat, v: Value): Bytes
    requires number < 16
  {
    match v
    case Num(n) => if n == 0 then [] else [(8 * number) as byte] + Varint(n)
    case Blob(x) => if x == [] then [] else [(8 * number + 2) as byte] + Varint(|x|) + x
  }

  lemma KeyOctet(number: nat, wireType: nat)
    requires number < 16 && wireType < 8
    ensures Varint(Tag(number, wireType)) == [(8 * number + wireType) as byte]
  {
  }

  lemma RecordOctets(number: nat, v: Value)
    requires number < 16
    ensures v != Num(0) && v != Blob([]) ==> Record(number, v) == Field(number, v)
  {
    KeyOctet(number, WireType(v));
    if v.Blob? {
      Associate([(8 * number + 2) as byte], Varint(|v.b|), v.b);
    }
  }

  lemma Associate(a: Bytes, b: Bytes, c: Bytes)
    ensures a + (b + c) == a + b + c
  {
  }

  lemma FieldPrinted(m: seq<Value>, i: nat)
    requires i < |m| && i < 15
    ensures PrintFrom(m, i) == Field(i + 1, m[i]) + PrintFrom(m, i + 1)
  {
    RecordOctets(i + 1, m[i]);
  }

  /** Field numbers, wire types and order of every handshake message. */
  lemma HandshakeOctets(h: Handshake)
    ensures Print(HandshakeFields(h)) ==
            Field(1, Blob(h.kem)) + Field(2, Num(h.version)) + Field(3, Blob(h.pub)) + Field(4, Blob(h.sig))
  {
    var m := HandshakeFields(h);
    FieldPrinted(m, 3);
    FieldPrinted(m, 2);
    FieldPrinted(m, 1);
    FieldPrinted(m, 0);
    Assemble(Field(1, m[0]), Field(2, m[1]), Field(3, m[2]), Field(4, m[3]), []);
  }

  lemma Assemble(a: Bytes, b: Bytes, c: Bytes, d: Bytes, e: Bytes)
    ensures a + (b + (c + (d + e))) == a + b + c + d + e
    ensures a + b + c + d + [] == a + b + c + d
    ensures d + [] == d && e + [] == e
  {
  }

  lemma ChatOctets(c: Chat)
    requires Timestamp(c.timestamp)
    ensures Print(ChatFields(c)) ==
            Field(1, Blob(c.sender)) + Field(2, Blob(c.content)) + Field(3, Blob(c.nonce))
            + Field(4, Num(ToTwosComplement(c.timestamp)))
  {
    var m := ChatFields(c);
    FieldPrinted(m, 3);
    FieldPrinted(m, 2);
    FieldPrinted(m, 1);
    FieldPrinted(m, 0);
    Assemble(Field(1, m[0]), Field(2, m[1]), Field(3, m[2]), Field(4, m[3]), []);
  }

  lemma EnvelopeOctets(e: Envelope)
    requires Timestamp(e.timestamp)
    ensures Print(EnvelopeFields(e)) ==
            Field(1, Num(e.version)) + Field(2, Blob(e.to)) + Field(3, Blob(e.senderKey)) + Field(4, Blob(e.payload))
            + Field(5, Num(ToTwosComplement(e.timestamp)))
  {
    var m := EnvelopeFields(e);
    FieldPrinted(m, 4);
    FieldPrinted(m, 3);
    FieldPrinted(m, 2);
    FieldPrinted(m, 1);
    FieldPrinted(m, 0);
    Assemble(Field(1, m[0]), Field(2, m[1]), Field(3, m[2]), Field(4, m[3]), Field(5, m[4]));
  }

  /** An envelope without a sender key, as this program leaves it, and with empty contents. */
  lemma SmallEnvelope(to: byte)
    ensures Print(EnvelopeFields(Envelope(VERSION, [to], [], [], 0))) == [8, 1, 18, 1, to]
  {
    EnvelopeOctets(Envelope(VERSION, [to], [], [], 0));
    SmallFields(to);
    Assemble([8, 1], [18, 1, to], [], [], []);
  }

  lemma SmallFields(to: byte)
    ensures Field(1, Num(VERSION)) == [8, 1] && Field(2, Num(VERSION)) == [16, 1]
    ensures Field(2, Blob([to])) == [18, 1, to]
    ensures Field(3, Blob([])) == Field(4, Blob([])) == Field(5, Num(ToTwosComplement(0))) == []
  {
  }

  /** A negative time takes ten octets, as the two's complement of 64 bits. */
  lemma NegativeTimeOctets()
    ensures Varint(ToTwosComplement(-1)) == [255, 255, 255, 255, 255, 255, 255, 255, 255, 1]
  {
    assert Varint(0x1) == [1];
    assert Varint(0xFF) == [255, 1];
    assert Varint(0x7FFF) == [255] + Varint(0xFF);
    assert Varint(0x3F_FFFF) == [255] + Varint(0x7FFF);
    assert Varint(0x1FFF_FFFF) == [255] + Varint(0x3F_FFFF);
    assert Varint(0xF_FFFF_FFFF) == [255] + Varint(0x1FFF_FFFF);
    assert Varint(0x7FF_FFFF_FFFF) == [255] + Varint(0xF_FFFF_FFFF);
    assert Varint(0x3_FFFF_FFFF_FFFF) == [255] + Varint(0x7FF_FFFF_FFFF);
    assert Varint(0x1FF_FFFF_FFFF_FFFF) == [255] + Varint(0x3_FFFF_FFFF_FFFF);
    assert Varint(0xFFFF_FFFF_FFFF_FFFF) == [255] + Varint(0x1FF_FFFF_FFFF_FFFF);
  }

  // ----- Sizes -----

  /** No message with a field of 2^31 octets or more is serialized. */
  lemma HugeFieldRefused(m: seq<Value>, i: nat)
    requires i < |m| && m[i].Blob? && TWO_31 <= |m[i].b|
    ensures Serialize(m).None?
  {
  }

  /** A frame of 2^31 octets or more is refused, up to 2^32; from there on its size wraps, and
      only its first octets are parsed. */
  lemma HugeFrameParsed(schema: Schema, b: Bytes)
    requires TWO_31 <= |b| < TWO_32 + TWO_31
    ensures ParseArray(schema, b) == if |b| < TWO_32 then None else Parse(schema, b[..|b| - TWO_32])
  {
  }
}
