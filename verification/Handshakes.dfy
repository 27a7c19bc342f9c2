/** What the two handshake roles sign, send and accept (connection_engine.cpp). */
module Handshakes {
  import opened ByteStrings
  import opened Messages
  import opened Crypto

  const CLIENT_LABEL: Bytes := Ascii("E2EE-HANDSHAKE-v1|client|")
  const SERVER_LABEL: Bytes := Ascii("E2EE-HANDSHAKE-v1|server|")

  method Concat(prefix: Bytes, a: Bytes, b: Bytes) returns (out: Bytes)
    ensures out == prefix + (a + b)
  {
    out := [];
    out := out + prefix;
    out := out + a;
    out := out + b;
  }

  function ClientSigned(pk: Bytes): Bytes { CLIENT_LABEL + pk }

  function ServerSigned(ct: Bytes, pk: Bytes): Bytes { SERVER_LABEL + (ct + pk) }

  lemma LabelsDiffer()
    ensures |CLIENT_LABEL| == 25 && |SERVER_LABEL| == 25
    ensures CLIENT_LABEL[18] == 99 && SERVER_LABEL[18] == 115
  {
  }

  /** The labels, octet by octet. */
  lemma LabelOctets()
    ensures CLIENT_LABEL == [69, 50, 69, 69, 45, 72, 65, 78, 68, 83, 72, 65, 75, 69, 45, 118, 49, 124,
                             99, 108, 105, 101, 110, 116, 124]
    ensures SERVER_LABEL == [69, 50, 69, 69, 45, 72, 65, 78, 68, 83, 72, 65, 75, 69, 45, 118, 49, 124,
                             115, 101, 114, 118, 101, 114, 124]
  {
    CommonOctets("E2EE-HANDSHAKE-v1|client|");
    CommonOctets("E2EE-HANDSHAKE-v1|server|");
    var c, s := "E2EE-HANDSHAKE-v1|client|", "E2EE-HANDSHAKE-v1|server|";
    assert c[18] == 'c' && c[19] == 'l' && c[20] == 'i' && c[21] == 'e' && c[22] == 'n' && c[23] == 't' && c[24] == '|';
    assert s[18] == 's' && s[19] == 'e' && s[20] == 'r' && s[21] == 'v' && s[22] == 'e' && s[23] == 'r' && s[24] == '|';
  }

  lemma CommonOctets(text: string)
    requires text in {"E2EE-HANDSHAKE-v1|client|", "E2EE-HANDSHAKE-v1|server|"}
    ensures |text| == 25 && forall i :: 0 <= i < 25 ==> text[i] as int < 256
    ensures Ascii(text)[..18] == [69, 50, 69, 69, 45, 72, 65, 78, 68, 83, 72, 65, 75, 69, 45, 118, 49, 124]
  {
  }

  lemma SamePrefix(l: Bytes, x: Bytes, y: Bytes)
    requires l + x == l + y
    ensures x == y
  {
    assert x == (l + x)[|l|..] && y == (l + y)[|l|..];
  }

  lemma SameSplit(a: Bytes, b: Bytes, c: Bytes, d: Bytes)
    requires a + b == c + d && |b| == |d|
    ensures a == c && b == d
  {
    assert |a| == |c|;
    assert a == (a + b)[..|a|] && c == (c + d)[..|a|];
    assert b == (a + b)[|a|..] && d == (c + d)[|a|..];
  }

  /** No string is signed in both roles, a client string determines the KEM key,
      and two server strings agree exactly when ct and pk do, given that the
      lengths of the KEM keys agree. */
  lemma SignedStringsUnambiguous(ct: Bytes, pk: Bytes, ct': Bytes, pk': Bytes)
    ensures ClientSigned(pk) != ServerSigned(ct', pk')
    ensures ClientSigned(pk) == ClientSigned(pk') <==> pk == pk'
    ensures |pk| == |pk'| ==> (ServerSigned(ct, pk) == ServerSigned(ct', pk') <==> ct == ct' && pk == pk')
  {
    LabelsDiffer();
    assert ClientSigned(pk)[18] == 99 && ServerSigned(ct', pk')[18] == 115;
    if ClientSigned(pk) == ClientSigned(pk') {
      SamePrefix(CLIENT_LABEL, pk, pk');
    }
    if |pk| == |pk'| && ServerSigned(ct, pk) == ServerSigned(ct', pk') {
      SamePrefix(SERVER_LABEL, ct + pk, ct' + pk');
      SameSplit(ct, pk, ct', pk');
    }
  }

  /** Without the length check the server string does not determine its parts. */
  lemma LengthCheckNeeded()
    ensures ServerSigned([1], [2, 3]) == ServerSigned([1, 2], [3])
  {
  }

  type Verifier = (Bytes, Bytes, Bytes) -> bool

  /** The server's checks on an incoming hello, in order. */
  function AcceptHello(verify: Verifier, frame: Bytes): (r: Result<Handshake, Error>)
  {
    match ParseHandshake(frame)
    case None => Err(Malformed)
    case Some(h) =>
      if !verify(h.pub, ClientSigned(h.kem), h.sig) then Err(SignatureRejected)
      else if |h.kem| != PK_LEN then Err(SizeMismatch)
      else Ok(h)
  }

  /** The checks of the client that generated pk on an incoming response, in order. */
  function AcceptResponse(verify: Verifier, pk: Bytes, frame: Bytes): (r: Result<Handshake, Error>)
  {
    match ParseHandshake(frame)
    case None => Err(Malformed)
    case Some(h) =>
      if !verify(h.pub, ServerSigned(h.kem, pk), h.sig) then Err(SignatureRejected)
      else if |h.kem| != CT_LEN then Err(SizeMismatch)
      else Ok(h)
  }
}
