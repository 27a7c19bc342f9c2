/** The Protocol Buffers wire format as the four messages of this program use it:
    Base 128 Varints, length-delimited records, implicit presence (a field that
    holds its default is not written), last occurrence wins on reading. */
module Wire {
  import opened ByteStrings

  const TAG_BYTES := 5
  const VARINT_BYTES := 10

  // ----- Base 128 Varints -----

  function Varint(n: nat): (b: Bytes)
    ensures 0 < |b|
  {
    if n < 128 then [n as byte] else [(n % 128 + 128) as byte] + Varint(n / 128)
  }

  function ReadVarint(b: Bytes, limit: nat): (r: Option<(nat, Bytes)>)
    ensures r.Some? ==> |r.value.1| < |b|
    decreases |b|
  {
    if limit == 0 || b == [] then None
    else if b[0] < 128 then Some((b[0] as nat, b[1..]))
    else match ReadVarint(b[1..], limit - 1)
         case None => None
         case Some((high, rest)) => Some((b[0] as nat - 128 + 128 * high, rest))
  }

  function Capacity(limit: nat): nat
  {
    if limit == 0 then 1 else 128 * Capacity(limit - 1)
  }

  /** A varint is read back, with the input behind it untouched, exactly when it fits. */
  lemma {:induction false} VarintRoundTrip(n: nat, rest: Bytes, limit: nat)
    requires 0 < limit
    ensures ReadVarint(Varint(n) + rest, limit) == if n < Capacity(limit) then Some((n, rest)) else None
    decreases limit
  {
    var b := Varint(n) + rest;
    if n < 128 {
      assert b[1..] == rest;
      CapacityGrows(limit);
    } else {
      assert b[1..] == Varint(n / 128) + rest;
      if limit > 1 {
        VarintRoundTrip(n / 128, rest, limit - 1);
      }
    }
  }

  lemma {:induction false} CapacityGrows(limit: nat)
    requires 0 < limit
    ensures Capacity(limit) >= 128
  {
    if limit > 1 {
      CapacityGrows(limit - 1);
    }
  }

  lemma CapacityValues()
    ensures Capacity(TAG_BYTES) == 0x8_0000_0000
    ensures TWO_64 <= Capacity(VARINT_BYTES)
  {
  }

  // ----- UTF-8 (RFC 3629), checked when a `string` field is read -----

  predicate Continuation(b: byte) { 0x80 <= b <= 0xBF }

  /** Length of the well-formed character at the front of b, 0 if there is none. */
  function Utf8Char(b: Bytes): (n: nat)
    requires b != []
    ensures n <= |b|
  {
    if b[0] < 0x80 then 1
    else if 0xC2 <= b[0] <= 0xDF && 2 <= |b| && Continuation(b[1]) then 2
    else if 3 <= |b| && Continuation(b[1]) && Continuation(b[2]) && 0xE0 <= b[0] <= 0xEF
            && (b[0] == 0xE0 ==> 0xA0 <= b[1]) && (b[0] == 0xED ==> b[1] <= 0x9F) then 3
    else if 4 <= |b| && Continuation(b[1]) && Continuation(b[2]) && Continuation(b[3])
            && 0xF0 <= b[0] <= 0xF4 && (b[0] == 0xF0 ==> 0x90 <= b[1]) && (b[0] == 0xF4 ==> b[1] <= 0x8F) then 4
    else 0
  }

  predicate Utf8(b: Bytes)
  {
    b == [] || (var n := Utf8Char(b); 0 < n && Utf8(b[n..]))
  }

  lemma {:induction false} AsciiIsUtf8(b: Bytes)
    requires forall i :: 0 <= i < |b| ==> b[i] < 0x80
    ensures Utf8(b)
  {
    if b != [] {
      AsciiIsUtf8(b[1..]);
    }
  }

  // ----- Records -----

  datatype Kind = UInt32 | Int64 | Text | Raw

  /** A field value; a signed 64-bit number is held as its two's complement. */
  datatype Value = Num(n: nat) | Blob(b: Bytes)

  type Schema = seq<Kind>

  predicate Matches(kind: Kind, v: Value)
  {
    match kind
    case UInt32 => v.Num? && v.n < TWO_32
    case Int64 => v.Num? && v.n < TWO_64
    case Text => v.Blob? && Utf8(v.b)
    case Raw => v.Blob?
  }

  /** As Matches, except that text need not be UTF-8. */
  predicate Shaped(kind: Kind, v: Value) { Matches(kind, v) || (kind.Text? && v.Blob?) }

  predicate Typed(schema: Schema, m: seq<Value>)
  {
    |m| == |schema| && forall i :: 0 <= i < |m| ==> Matches(schema[i], m[i])
  }

  /** The right constructor and range in every field; text need not be UTF-8, since
      the serializer does not refuse it. */
  predicate Printable(schema: Schema, m: seq<Value>)
  {
    && |schema| < 16
    && |m| == |schema|
    && forall i :: 0 <= i < |m| ==>
                     && (m[i].Blob? ==> |m[i].b| < TWO_31)
                     && Shaped(schema[i], m[i])
  }

  predicate TextIsUtf8(schema: Schema, m: seq<Value>, i: nat)
    requires |m| == |schema|
  {
    forall j :: i <= j < |m| && schema[j].Text? && m[j].Blob? ==> Utf8(m[j].b)
  }

  function Default(kind: Kind): Value
  {
    if kind.UInt32? || kind.Int64? then Num(0) else Blob([])
  }

  function Defaults(schema: Schema): (m: seq<Value>)
    ensures Typed(schema, m)
  {
    seq(|schema|, i requires 0 <= i < |schema| => Default(schema[i]))
  }

  function WireType(v: Value): nat { if v.Num? then 0 else 2 }

  function PayloadBytes(v: Value): Bytes
  {
    match v
    case Num(n) => Varint(n)
    case Blob(x) => Varint(|x|) + x
  }

  function Record(number: nat, v: Value): (b: Bytes)
  {
    Varint(Tag(number, WireType(v))) + PayloadBytes(v)
  }

  /** The fields from position i on, in field-number order, defaults left out. */
  function PrintFrom(m: seq<Value>, i: nat): (b: Bytes)
    requires i <= |m|
    ensures forall j :: i <= j < |m| && m[j].Blob? ==> |m[j].b| <= |b|
    decreases |m| - i
  {
    if i == |m| then []
    else (if m[i] == Num(0) || m[i] == Blob([]) then [] else Record(i + 1, m[i])) + PrintFrom(m, i + 1)
  }

  function Print(m: seq<Value>): Bytes { PrintFrom(m, 0) }

  datatype Payload = Number(n: nat) | Fixed(b: Bytes) | Delimited(b: Bytes)

  function ReadPayload(wireType: nat, b: Bytes): (r: Option<(Payload, Bytes)>)
    ensures r.Some? ==> |r.value.1| <= |b| && (r.value.0.Number? ==> r.value.0.n < TWO_64)
  {
    if wireType == 0 then
      match ReadVarint(b, VARINT_BYTES)
      case None => None
      case Some((n, rest)) => Some((Number(n % TWO_64), rest))
    else if wireType == 1 then
      if |b| < 8 then None else Some((Fixed(b[..8]), b[8..]))
    else if wireType == 2 then
      match ReadVarint(b, TAG_BYTES)
      case None => None
      case Some((len, rest)) => if |rest| < len then None else Some((Delimited(rest[..len]), rest[len..]))
    else if wireType == 5 then
      if |b| < 4 then None else Some((Fixed(b[..4]), b[4..]))
    else None
  }

  /** A known field with the wire type of its kind replaces the stored value;
      anything else is an unknown field and changes nothing. */
  function Store(schema: Schema, m: seq<Value>, number: nat, p: Payload): (r: Option<seq<Value>>)
    requires Typed(schema, m) && 0 < number && (p.Number? ==> p.n < TWO_64)
    ensures r.Some? ==> Typed(schema, r.value)
  {
    if |schema| < number then Some(m)
    else match (schema[number - 1], p)
         case (UInt32, Number(n)) => Some(m[number - 1 := Num(n % TWO_32)])
         case (Int64, Number(n)) => Some(m[number - 1 := Num(n)])
         case (Text, Delimited(b)) => if Utf8(b) then Some(m[number - 1 := Blob(b)]) else None
         case (Raw, Delimited(b)) => Some(m[number - 1 := Blob(b)])
         case _ => Some(m)
  }

  function Tag(number: nat, wireType: nat): nat { number * 8 + wireType }

  /** A tag is a 32-bit number. */
  function FieldNumber(t: nat): nat { t % TWO_32 / 8 }

  function FieldType(t: nat): nat { t % 8 }

  function ReadRecord(schema: Schema, m: seq<Value>, b: Bytes): (r: Option<(seq<Value>, Bytes)>)
    requires Typed(schema, m)
    ensures r.Some? ==> Typed(schema, r.value.0) && |r.value.1| < |b|
  {
    match ReadVarint(b, TAG_BYTES)
    case None => None
    case Some((t, body)) => ReadBody(schema, m, FieldNumber(t), FieldType(t), body)
  }

  function ReadBody(schema: Schema, m: seq<Value>, number: nat, wireType: nat, body: Bytes)
    : (r: Option<(seq<Value>, Bytes)>)
    requires Typed(schema, m)
    ensures r.Some? ==> Typed(schema, r.value.0) && |r.value.1| <= |body|
  {
    if number == 0 then None
    else match ReadPayload(wireType, body)
         case None => None
         case Some((p, rest)) =>
           match Store(schema, m, number, p)
           case None => None
           case Some(m') => Some((m', rest))
  }

  function ParseInto(schema: Schema, m: seq<Value>, b: Bytes): (r: Option<seq<Value>>)
    requires Typed(schema, m)
    ensures r.Some? ==> Typed(schema, r.value)
    decreases |b|
  {
    if b == [] then Some(m)
    else match ReadRecord(schema, m, b)
         case None => None
         case Some((m', rest)) => ParseInto(schema, m', rest)
  }

  function Parse(schema: Schema, b: Bytes): (r: Option<seq<Value>>)
    ensures r.Some? ==> Typed(schema, r.value)
  {
    ParseInto(schema, Defaults(schema), b)
  }

  function PayloadOf(v: Value): Payload { if v.Num? then Number(v.n) else Delimited(v.b) }

  lemma ReadPrintedPayload(v: Value, rest: Bytes)
    requires if v.Num? then v.n < TWO_64 else |v.b| < TWO_31
    ensures ReadPayload(WireType(v), PayloadBytes(v) + rest) == Some((PayloadOf(v), rest))
  {
    CapacityValues();
    match v
    case Num(n) =>
      VarintRoundTrip(n, rest, VARINT_BYTES);
    case Blob(x) =>
      assert PayloadBytes(v) + rest == Varint(|x|) + (x + rest);
      VarintRoundTrip(|x|, x + rest, TAG_BYTES);
      assert (x + rest)[..|x|] == x && (x + rest)[|x|..] == rest;
  }

  lemma ReadPrintedBody(schema: Schema, m: seq<Value>, i: nat, v: Value, rest: Bytes)
    requires Typed(schema, m) && i < |m| && (v.Blob? ==> |v.b| < TWO_31)
    requires Shaped(schema[i], v)
    ensures ReadBody(schema, m, i + 1, WireType(v), PayloadBytes(v) + rest)
         == if Matches(schema[i], v) then Some((m[i := v], rest)) else None
  {
    ReadPrintedPayload(v, rest);
  }

  lemma ReadPrintedTag(number: nat, wireType: nat, body: Bytes)
    requires number <= 16 && wireType < 8
    ensures ReadVarint(Varint(Tag(number, wireType)) + body, TAG_BYTES) == Some((Tag(number, wireType), body))
    ensures FieldNumber(Tag(number, wireType)) == number && FieldType(Tag(number, wireType)) == wireType
  {
    CapacityValues();
    TagFields(number, wireType);
    VarintRoundTrip(Tag(number, wireType), body, TAG_BYTES);
  }

  lemma TagFields(number: nat, wireType: nat)
    requires number <= 16 && wireType < 8
    ensures Tag(number, wireType) < 256
    ensures FieldNumber(Tag(number, wireType)) == number && FieldType(Tag(number, wireType)) == wireType
  {
    var t := Tag(number, wireType);
    assert t < 256;
    assert t / 8 == number && t % 8 == wireType;
    assert t % TWO_32 == t;
  }

  /** Reading one printed record stores exactly its value and consumes exactly its
      bytes, unless it is text that is not UTF-8. */
  lemma ReadPrintedRecord(schema: Schema, m: seq<Value>, i: nat, v: Value, rest: Bytes)
    requires |schema| < 16 && Typed(schema, m) && i < |m| && (v.Blob? ==> |v.b| < TWO_31)
    requires Shaped(schema[i], v)
    ensures ReadRecord(schema, m, Record(i + 1, v) + rest)
         == if Matches(schema[i], v) then Some((m[i := v], rest)) else None
  {
    var tag := Tag(i + 1, WireType(v));
    var body := PayloadBytes(v) + rest;
    ReadPrintedTag(i + 1, WireType(v), body);
    ReadPrintedBody(schema, m, i, v, rest);
    assert Record(i + 1, v) + rest == Varint(tag) + body;
    ReadTagged(schema, m, Varint(tag) + body, tag, body);
  }

  lemma ReadTagged(schema: Schema, m: seq<Value>, b: Bytes, tag: nat, body: Bytes)
    requires Typed(schema, m) && ReadVarint(b, TAG_BYTES) == Some((tag, body))
    ensures ReadRecord(schema, m, b) == ReadBody(schema, m, FieldNumber(tag), FieldType(tag), body)
  {
  }

  /** Reading one printed field: an elided default costs nothing and keeps what is stored,
      anything else is stored, except text that is not UTF-8. */
  lemma ParsePrintedField(schema: Schema, acc: seq<Value>, m: seq<Value>, i: nat)
    requires Printable(schema, m) && Typed(schema, acc) && i < |m|
    requires acc[i] == Default(schema[i])
    ensures ParseInto(schema, acc, PrintFrom(m, i)) ==
            if Matches(schema[i], m[i]) then ParseInto(schema, acc[i := m[i]], PrintFrom(m, i + 1)) else None
  {
    var rest := PrintFrom(m, i + 1);
    if m[i] == Num(0) || m[i] == Blob([]) {
      assert m[i] == Default(schema[i]);
      assert PrintFrom(m, i) == [] + rest == rest && acc[i := m[i]] == acc;
    } else {
      ReadPrintedRecord(schema, acc, i, m[i], rest);
      assert PrintFrom(m, i) == Record(i + 1, m[i]) + rest;
    }
  }

  lemma Utf8From(schema: Schema, m: seq<Value>, i: nat)
    requires Printable(schema, m) && i < |m|
    ensures TextIsUtf8(schema, m, i) <==> Matches(schema[i], m[i]) && TextIsUtf8(schema, m, i + 1)
  {
  }

  lemma {:induction false} ParsePrintFrom(schema: Schema, acc: seq<Value>, m: seq<Value>, i: nat)
    requires Printable(schema, m) && Typed(schema, acc) && i <= |m|
    requires forall j :: 0 <= j < i ==> acc[j] == m[j]
    requires forall j :: i <= j < |m| ==> acc[j] == Default(schema[j])
    ensures ParseInto(schema, acc, PrintFrom(m, i)) == if TextIsUtf8(schema, m, i) then Some(m) else None
    decreases |m| - i
  {
    if i == |m| {
      assert acc == m;
    } else {
      Utf8From(schema, m, i);
      ParsePrintedField(schema, acc, m, i);
      if Matches(schema[i], m[i]) {
        ParsePrintFrom(schema, acc[i := m[i]], m, i + 1);
      }
    }
  }

  predicate IsDefault(v: Value) { v in {Num(0), Blob([])} }

  /** A field takes no octets exactly when it holds its default. */
  lemma DefaultsElided(m: seq<Value>, i: nat)
    requires i < |m|
    ensures PrintFrom(m, i) == PrintFrom(m, i + 1) <==> IsDefault(m[i])
  {
  }

  /** And a message prints nothing exactly when all fields do. */
  lemma {:induction false} DefaultsPrintNothing(m: seq<Value>, i: nat)
    requires i <= |m|
    ensures PrintFrom(m, i) == [] <==> forall j :: i <= j < |m| ==> IsDefault(m[j])
    decreases |m| - i
  {
    if i < |m| {
      DefaultsPrintNothing(m, i + 1);
    }
  }

  /** Printing loses nothing, default elision included: what is printed is read back
      exactly when its text is UTF-8, and refused otherwise. */
  lemma ParsePrint(schema: Schema, m: seq<Value>)
    requires Printable(schema, m)
    ensures Parse(schema, Print(m)) == if TextIsUtf8(schema, m, 0) then Some(m) else None
  {
    ParsePrintFrom(schema, Defaults(schema), m, 0);
  }
}
