/** The messages of handshake.proto, messages.proto and envelope.proto.
    HandshakeHello and HandshakeResponse have the same field numbers and types,
    so one datatype stands for both shapes. */
module Messages {
  import opened ByteStrings
  import opened Wire

  const VERSION := 1

  datatype Handshake = Handshake(kem: Bytes, version: nat, pub: Bytes, sig: Bytes)
  datatype Chat = Chat(sender: Bytes, content: Bytes, nonce: Bytes, timestamp: int)
  datatype Envelope = Envelope(version: nat, to: Bytes, senderKey: Bytes, payload: Bytes, timestamp: int)

  const HANDSHAKE_SCHEMA: Schema := [Raw, UInt32, Raw, Raw]
  const CHAT_SCHEMA: Schema := [Text, Raw, Raw, Int64]
  const ENVELOPE_SCHEMA: Schema := [UInt32, Text, Raw, Raw, Int64]

  predicate Timestamp(t: int) { -TWO_63 <= t < TWO_63 }

  function ToTwosComplement(t: int): (n: nat)
    requires Timestamp(t)
    ensures n < TWO_64
  {
    if t < 0 then t + TWO_64 else t
  }

  function FromTwosComplement(n: nat): (t: int)
    requires n < TWO_64
    ensures Timestamp(t) && ToTwosComplement(t) == n
  {
    if n < TWO_63 then n else n - TWO_64
  }

  function HandshakeFields(h: Handshake): seq<Value>
  {
    [Blob(h.kem), Num(h.version), Blob(h.pub), Blob(h.sig)]
  }

  function ChatFields(c: Chat): seq<Value>
    requires Timestamp(c.timestamp)
  {
    [Blob(c.sender), Blob(c.content), Blob(c.nonce), Num(ToTwosComplement(c.timestamp))]
  }

  function EnvelopeFields(e: Envelope): seq<Value>
    requires Timestamp(e.timestamp)
  {
    [Num(e.version), Blob(e.to), Blob(e.senderKey), Blob(e.payload), Num(ToTwosComplement(e.timestamp))]
  }

  /** SerializeToString: refuses a message of 2^31 bytes or more. */
  function Serialize(m: seq<Value>): (r: Option<Bytes>)
    ensures r.Some? ==> |r.value| < TWO_31
  {
    if |Print(m)| < TWO_31 then Some(Print(m)) else None
  }

  /** static_cast<int>(size_t) with 32-bit two's complement int. */
  function IntCast(n: nat): (i: int)
    ensures i <= n
  {
    var low := n % TWO_32;
    if low < TWO_31 then low else low - TWO_32
  }

  /** ParseFromArray on the size the callers pass, an int. */
  function ParseArray(schema: Schema, b: Bytes): (r: Option<seq<Value>>)
    ensures r.Some? ==> Typed(schema, r.value)
  {
    var size := IntCast(|b|);
    if size < 0 then None else Parse(schema, b[..size])
  }

  function ParseHandshake(b: Bytes): (r: Option<Handshake>)
  {
    match ParseArray(HANDSHAKE_SCHEMA, b)
    case None => None
    case Some(m) =>
      assert forall i :: 0 <= i < |m| ==> Matches(HANDSHAKE_SCHEMA[i], m[i]);
      assert Matches(Raw, m[0]) && Matches(UInt32, m[1]) && Matches(Raw, m[2]) && Matches(Raw, m[3]);
      Some(Handshake(m[0].b, m[1].n, m[2].b, m[3].b))
  }

  function ParseChat(b: Bytes): (r: Option<Chat>)
  {
    match ParseArray(CHAT_SCHEMA, b)
    case None => None
    case Some(m) =>
      assert forall i :: 0 <= i < |m| ==> Matches(CHAT_SCHEMA[i], m[i]);
      assert Matches(Text, m[0]) && Matches(Raw, m[1]) && Matches(Raw, m[2]) && Matches(Int64, m[3]);
      Some(Chat(m[0].b, m[1].b, m[2].b, FromTwosComplement(m[3].n)))
  }

  function ParseEnvelope(b: Bytes): (r: Option<Envelope>)
  {
    match ParseArray(ENVELOPE_SCHEMA, b)
    case None => None
    case Some(m) =>
      assert forall i :: 0 <= i < |m| ==> Matches(ENVELOPE_SCHEMA[i], m[i]);
      assert Matches(UInt32, m[0]) && Matches(Text, m[1]) && Matches(Raw, m[2]) && Matches(Raw, m[3]);
      assert Matches(Int64, m[4]);
      Some(Envelope(m[0].n, m[1].b, m[2].b, m[3].b, FromTwosComplement(m[4].n)))
  }

  // ----- Round trips -----

  lemma SerializeParse(schema: Schema, m: seq<Value>)
    requires |schema| < 16 && |m| == |schema| && Serialize(m).Some?
    requires forall i :: 0 <= i < |m| ==> Shaped(schema[i], m[i])
    ensures ParseArray(schema, Serialize(m).value) == if TextIsUtf8(schema, m, 0) then Some(m) else None
  {
    var b := Print(m);
    ParsePrint(schema, m);
    assert IntCast(|b|) == |b| && b[..|b|] == b;
  }

  lemma HandshakeRoundTrip(h: Handshake)
    requires h.version < TWO_32 && Serialize(HandshakeFields(h)).Some?
    ensures ParseHandshake(Serialize(HandshakeFields(h)).value) == Some(h)
  {
    SerializeParse(HANDSHAKE_SCHEMA, HandshakeFields(h));
  }

  lemma ChatRoundTrip(c: Chat)
    requires Timestamp(c.timestamp) && Serialize(ChatFields(c)).Some?
    ensures ParseChat(Serialize(ChatFields(c)).value) == if Utf8(c.sender) then Some(c) else None
  {
    var m := ChatFields(c);
    SerializeParse(CHAT_SCHEMA, m);
    assert CHAT_SCHEMA[0].Text? && m[0] == Blob(c.sender);
  }

  lemma EnvelopeRoundTrip(e: Envelope)
    requires e.version < TWO_32 && Timestamp(e.timestamp) && Serialize(EnvelopeFields(e)).Some?
    ensures ParseEnvelope(Serialize(EnvelopeFields(e)).value) == if Utf8(e.to) then Some(e) else None
  {
    var m := EnvelopeFields(e);
    SerializeParse(ENVELOPE_SCHEMA, m);
    assert ENVELOPE_SCHEMA[1].Text? && m[1] == Blob(e.to);
  }

  // ----- Small messages always serialize -----

  lemma {:induction false} VarintSize(n: nat, limit: nat)
    requires 0 < limit && n < Capacity(limit)
    ensures |Varint(n)| <= limit
    decreases limit
  {
    if 128 <= n {
      assert Capacity(limit) == 128 * Capacity(limit - 1);
      assert limit != 1 by { assert Capacity(0) == 1; }
      VarintSize(n / 128, limit - 1);
    }
  }

  function ContentSize(m: seq<Value>, i: nat): nat
    requires i <= |m|
    decreases |m| - i
  {
    if i == |m| then 0 else 20 + (if m[i].Blob? then |m[i].b| else 0) + ContentSize(m, i + 1)
  }

  lemma {:induction false} PrintedSize(m: seq<Value>, i: nat)
    requires i <= |m| < 16
    requires forall j :: 0 <= j < |m| ==> if m[j].Num? then m[j].n < TWO_64 else |m[j].b| < TWO_31
    ensures |PrintFrom(m, i)| <= ContentSize(m, i)
    decreases |m| - i
  {
    if i < |m| {
      CapacityValues();
      VarintSize(Tag(i + 1, WireType(m[i])), TAG_BYTES);
      if m[i].Num? {
        VarintSize(m[i].n, VARINT_BYTES);
      } else {
        VarintSize(|m[i].b|, TAG_BYTES);
      }
      PrintedSize(m, i + 1);
    }
  }

  lemma HandshakeSerializes(h: Handshake)
    requires |h.kem| + |h.pub| + |h.sig| < TWO_31 - 100 && h.version < TWO_32
    ensures Serialize(HandshakeFields(h)).Some?
  {
    var m := HandshakeFields(h);
    PrintedSize(m, 0);
    assert ContentSize(m, 3) == 20 + |h.sig| && ContentSize(m, 2) == 20 + |h.pub| + ContentSize(m, 3);
    assert ContentSize(m, 0) == 20 + |h.kem| + ContentSize(m, 1) && ContentSize(m, 1) == 20 + ContentSize(m, 2);
  }

  lemma ChatSerializes(c: Chat)
    requires Timestamp(c.timestamp) && |c.sender| + |c.content| + |c.nonce| < TWO_31 - 100
    ensures Serialize(ChatFields(c)).Some?
    ensures |Serialize(ChatFields(c)).value| <= 80 + |c.sender| + |c.content| + |c.nonce|
  {
    var m := ChatFields(c);
    PrintedSize(m, 0);
    assert ContentSize(m, 3) == 20 && ContentSize(m, 2) == 20 + |c.nonce| + ContentSize(m, 3);
    assert ContentSize(m, 1) == 20 + |c.content| + ContentSize(m, 2);
    assert ContentSize(m, 0) == 20 + |c.sender| + ContentSize(m, 1);
  }

  lemma EnvelopeSerializes(e: Envelope)
    requires Timestamp(e.timestamp) && e.version < TWO_32 && |e.to| + |e.senderKey| + |e.payload| < TWO_31 - 100
    ensures Serialize(EnvelopeFields(e)).Some?
  {
    var m := EnvelopeFields(e);
    PrintedSize(m, 0);
    assert ContentSize(m, 4) == 20 && ContentSize(m, 3) == 20 + |e.payload| + ContentSize(m, 4);
    assert ContentSize(m, 2) == 20 + |e.senderKey| + ContentSize(m, 3);
    assert ContentSize(m, 0) == 20 + ContentSize(m, 1) && ContentSize(m, 1) == 20 + |e.to| + ContentSize(m, 2);
  }
}
