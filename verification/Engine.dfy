/** The connection engine (connection_engine.cpp): the two handshake roles, message
    encryption and decryption, and what a whole history of calls leaves behind. */
module Engine {
  import opened ByteStrings
  import opened Messages
  import opened Crypto
  import opened IdentityStore
  import opened Handshakes
  import Wire

  // ----- What a handshake computes -----

  /** The draws and library outcomes of one client run, whether the hello is sent,
      and the frame received, None if receiving fails. */
  datatype ClientRun = ClientRun(
    available: bool, coins: Option<Bytes>, signs: bool, sends: bool,
    reply: Option<Bytes>, decapsulates: bool, derives: bool)

  datatype ServerRun = ServerRun(
    hello: Option<Bytes>, available: bool, coins: Option<Bytes>, signs: bool,
    sends: bool, derives: bool)

  /** A completed handshake: the session key and the peer's identity key. */
  datatype Established = Established(key: Bytes, peer: Bytes)

  function HelloFrame(p: Primitives, id: Identity, pk: Bytes): Option<Bytes>
  {
    Serialize(HandshakeFields(Handshake(pk, VERSION, id.pub, p.sign(id.priv, ClientSigned(pk)))))
  }

  function ResponseFrame(p: Primitives, id: Identity, ct: Bytes, pk: Bytes): Option<Bytes>
  {
    Serialize(HandshakeFields(Handshake(ct, VERSION, id.pub, p.sign(id.priv, ServerSigned(ct, pk)))))
  }

  /** The hello a client run puts on the wire, None if it does not get that far. */
  function ClientSends(p: Primitives, id: Identity, run: ClientRun): Option<Bytes>
  {
    if id.IsLoaded() && run.available && run.coins.Some? && run.signs && run.sends
    then HelloFrame(p, id, p.kemKeypair(run.coins.value).0) else None
  }

  /** What the client concludes from a response to the hello with its KEM pair. */
  function ClientFinish(p: Primitives, pk: Bytes, sk: Bytes, reply: Bytes): Result<Established, Error>
  {
    match AcceptResponse(p.verify, pk, reply)
    case Err(e) => Err(e)
    case Ok(h) => if |sk| != SK_LEN then Err(SizeMismatch) else Ok(Established(p.hkdf(p.kemDecaps(sk, h.kem)), h.pub))
  }

  /** The response and the session of a server that reads this hello. */
  function ServerAnswer(p: Primitives, id: Identity, hello: Bytes, coins: Bytes): Result<(Bytes, Established), Error>
  {
    match AcceptHello(p.verify, hello)
    case Err(e) => Err(e)
    case Ok(h) =>
      var (ct, ss) := p.kemEncaps(h.kem, coins);
      match ResponseFrame(p, id, ct, h.kem)
      case None => Err(SerializeFailed)
      case Some(frame) => Ok((frame, Established(p.hkdf(ss), h.pub)))
  }

  ghost predicate ClientCompletes(p: Primitives, id: Identity, run: ClientRun)
  {
    && ClientSends(p, id, run).Some? && run.reply.Some? && run.decapsulates && run.derives
    && var (pk, sk) := p.kemKeypair(run.coins.value);
    ClientFinish(p, pk, sk, run.reply.value).Ok?
  }

  ghost function ClientResult(p: Primitives, id: Identity, run: ClientRun): Established
    requires ClientCompletes(p, id, run)
  {
    var (pk, sk) := p.kemKeypair(run.coins.value);
    ClientFinish(p, pk, sk, run.reply.value).value
  }

  /** The response a server run puts on the wire; the run may still fail after that. */
  function ServerSends(p: Primitives, id: Identity, run: ServerRun): Option<Bytes>
  {
    if !id.IsLoaded() || run.hello.None? || !run.available || run.coins.None? || !run.signs || !run.sends then None
    else match ServerAnswer(p, id, run.hello.value, run.coins.value)
         case Err(_) => None
         case Ok((frame, _)) => Some(frame)
  }

  ghost predicate ServerCompletes(p: Primitives, id: Identity, run: ServerRun)
  {
    && id.IsLoaded() && run.hello.Some? && run.available && run.coins.Some? && run.signs && run.sends && run.derives
    && ServerAnswer(p, id, run.hello.value, run.coins.value).Ok?
  }

  ghost function ServerResult(p: Primitives, id: Identity, run: ServerRun): (Bytes, Established)
    requires ServerCompletes(p, id, run)
  {
    ServerAnswer(p, id, run.hello.value, run.coins.value).value
  }

  // ----- Messages -----

  /** The frame of one plaintext under a key; `sent` and `stamped` are the two clock readings. */
  function Sealed(p: Primitives, key: Bytes, plain: Bytes, sender: Bytes, to: Bytes, nonce: Bytes,
                  stamped: int, sent: int)
    : (r: Result<Bytes, Error>)
    requires Timestamp(stamped) && Timestamp(sent)
  {
    match SessionSeal(p, key, nonce, plain)
    case Err(e) => Err(e)
    case Ok(box) =>
      match Serialize(ChatFields(Chat(sender, box, nonce, stamped)))
      case None => Err(SerializeFailed)
      case Some(inner) =>
        match Serialize(EnvelopeFields(Envelope(VERSION, to, [], inner, sent)))
        case None => Err(SerializeFailed)
        case Some(frame) => Ok(frame)
  }

  /** The nonce and the ciphertext a frame carries. */
  function Unwrap(frame: Bytes): (r: Result<Chat, Error>)
  {
    match ParseEnvelope(frame)
    case None => Err(Malformed)
    case Some(env) =>
      match ParseChat(env.payload)
      case None => Err(Malformed)
      case Some(chat) => Ok(chat)
  }

  function Opened(p: Primitives, key: Bytes, frame: Bytes): (r: Result<Bytes, Error>)
  {
    match Unwrap(frame)
    case Err(e) => Err(e)
    case Ok(chat) => SessionOpen(p, key, chat.nonce, chat.content)
  }

  /** Decryption undoes encryption to the byte, through both nested messages, exactly
      when the two ids are UTF-8; otherwise the frame is refused as malformed. */
  lemma OpenedSealed(p: Primitives, key: Bytes, plain: Bytes, sender: Bytes, to: Bytes, nonce: Bytes,
                     stamped: int, sent: int)
    requires GcmLaws(p) && Timestamp(stamped) && Timestamp(sent)
    requires Sealed(p, key, plain, sender, to, nonce, stamped, sent).Ok?
    ensures Opened(p, key, Sealed(p, key, plain, sender, to, nonce, stamped, sent).value)
         == if Wire.Utf8(sender) && Wire.Utf8(to) then Ok(plain) else Err(Malformed)
  {
    var chat := Chat(sender, SessionSeal(p, key, nonce, plain).value, nonce, stamped);
    var inner := Serialize(ChatFields(chat)).value;
    ChatRoundTrip(chat);
    EnvelopeRoundTrip(Envelope(VERSION, to, [], inner, sent));
    OpenSeal(p, key, nonce, plain);
  }

  /** A message under a 32-byte key with a 12-byte nonce is sealed whenever it is not huge. */
  lemma SmallMessagesSealed(p: Primitives, key: Bytes, plain: Bytes, sender: Bytes, to: Bytes, nonce: Bytes,
                            stamped: int, sent: int)
    requires GcmLaws(p) && Timestamp(stamped) && Timestamp(sent)
    requires |key| == KEY_SIZE && |nonce| == NONCE_SIZE && |plain| + |sender| + |to| < TWO_31 - 1000
    ensures Sealed(p, key, plain, sender, to, nonce, stamped, sent).Ok?
  {
    OpenSeal(p, key, nonce, plain);
    var chat := Chat(sender, SessionSeal(p, key, nonce, plain).value, nonce, stamped);
    ChatSerializes(chat);
    EnvelopeSerializes(Envelope(VERSION, to, [], Serialize(ChatFields(chat)).value, sent));
  }

  /** What a frame carries besides the plaintext, in the clear: recipient, version and sending
      time outside; sender, nonce, sealing time and the box itself inside. */
  lemma SealedCarries(p: Primitives, key: Bytes, plain: Bytes, sender: Bytes, to: Bytes, nonce: Bytes,
                      stamped: int, sent: int)
    requires Timestamp(stamped) && Timestamp(sent) && Wire.Utf8(sender) && Wire.Utf8(to)
    requires Sealed(p, key, plain, sender, to, nonce, stamped, sent).Ok?
    ensures var frame := Sealed(p, key, plain, sender, to, nonce, stamped, sent).value;
            && SessionSeal(p, key, nonce, plain).Ok?
            && Unwrap(frame) == Ok(Chat(sender, SessionSeal(p, key, nonce, plain).value, nonce, stamped))
            && ParseEnvelope(frame).Some?
            && var e := ParseEnvelope(frame).value;
            e.version == VERSION && e.to == to && e.senderKey == [] && e.timestamp == sent
  {
    var chat := Chat(sender, SessionSeal(p, key, nonce, plain).value, nonce, stamped);
    ChatRoundTrip(chat);
    EnvelopeRoundTrip(Envelope(VERSION, to, [], Serialize(ChatFields(chat)).value, sent));
  }

  /** One octet that is no UTF-8 as sender id: every such message is sealed and sent, and
      refused by every receiver with the same key. */
  lemma BadIdRefused(p: Primitives, key: Bytes, plain: Bytes, to: Bytes, nonce: Bytes, stamped: int, sent: int)
    requires GcmLaws(p) && Timestamp(stamped) && Timestamp(sent)
    requires |key| == KEY_SIZE && |nonce| == NONCE_SIZE && |plain| + |to| < TWO_31 - 1001
    ensures Sealed(p, key, plain, [0xFF], to, nonce, stamped, sent).Ok?
    ensures Opened(p, key, Sealed(p, key, plain, [0xFF], to, nonce, stamped, sent).value) == Err(Malformed)
  {
    SmallMessagesSealed(p, key, plain, [0xFF], to, nonce, stamped, sent);
    OpenedSealed(p, key, plain, [0xFF], to, nonce, stamped, sent);
    assert !Wire.Utf8([0xFF]);
  }

  /** Two engines that exchange their frames unchanged complete with the same 32-byte key,
      each with the other's identity key as peer. */
  lemma HonestHandshake(p: Primitives, client: Identity, server: Identity, clientCoins: Bytes, serverCoins: Bytes)
    requires Lawful(p) && Genuine(p, client) && Genuine(p, server)
    ensures var (pk, sk) := p.kemKeypair(clientCoins);
            var key := p.hkdf(p.kemEncaps(pk, serverCoins).1);
            && |key| == KEY_SIZE
            && HelloFrame(p, client, pk).Some?
            && var answer := ServerAnswer(p, server, HelloFrame(p, client, pk).value, serverCoins);
            && answer.Ok? && answer.value.1 == Established(key, client.pub)
            && ClientFinish(p, pk, sk, answer.value.0) == Ok(Established(key, server.pub))
  {
    var (pk, sk) := p.kemKeypair(clientCoins);
    var (ct, ss) := p.kemEncaps(pk, serverCoins);
    assert |p.kemKeypair(clientCoins).0| == PK_LEN && |p.kemEncaps(pk, serverCoins).0| == CT_LEN;
    var hello := Handshake(pk, VERSION, client.pub, p.sign(client.priv, ClientSigned(pk)));
    HandshakeSerializes(hello);
    HandshakeRoundTrip(hello);
    var response := Handshake(ct, VERSION, server.pub, p.sign(server.priv, ServerSigned(ct, pk)));
    HandshakeSerializes(response);
    HandshakeRoundTrip(response);
    assert p.kemDecaps(p.kemKeypair(clientCoins).1, p.kemEncaps(p.kemKeypair(clientCoins).0, serverCoins).0) == ss;
  }

  predicate ClientWorks(run: ClientRun)
  {
    run.available && run.coins.Some? && run.signs && run.sends && run.decapsulates && run.derives
  }

  predicate ServerWorks(run: ServerRun) { run.available && run.coins.Some? && run.signs && run.sends && run.derives }

  /** Two calls whose frames reach each other unchanged both return true, with one 32-byte key;
      each reports the other's identity key as its peer. */
  lemma HonestCalls(p: Primitives, client: Identity, server: Identity, mine: ClientRun, theirs: ServerRun)
    requires Lawful(p) && Genuine(p, client) && Genuine(p, server) && ClientWorks(mine) && ServerWorks(theirs)
    requires theirs.hello == ClientSends(p, client, mine) && mine.reply == ServerSends(p, server, theirs)
    ensures ClientCompletes(p, client, mine) && ServerCompletes(p, server, theirs)
    ensures var e := ClientResult(p, client, mine);
            && |e.key| == KEY_SIZE && e.peer == server.pub
            && ServerResult(p, server, theirs).1 == Established(e.key, client.pub)
  {
    HonestHandshake(p, client, server, mine.coins.value, theirs.coins.value);
  }

  /** A call that fails anywhere, or that has not sent its frame or received the other's,
      returns false. */
  lemma SuccessNeedsAll(p: Primitives, id: Identity, mine: ClientRun, theirs: ServerRun)
    ensures ClientCompletes(p, id, mine) ==>
              id.IsLoaded() && ClientWorks(mine) && ClientSends(p, id, mine).Some? && mine.reply.Some?
    ensures ServerCompletes(p, id, theirs) ==>
              id.IsLoaded() && ServerWorks(theirs) && ServerSends(p, id, theirs).Some? && theirs.hello.Some?
  {
  }

  // ----- Histories of calls -----

  datatype EngineState = EngineState(identity: Identity, key: Bytes, ready: bool)

  const NEW_ENGINE := EngineState(EMPTY, [], false)

  /** A call on the engine. An identity call may leave any identity behind. */
  datatype Call =
    | Identify(after: Identity)
    | Client(client: ClientRun)
    | Server(server: ServerRun)
    | Encrypt(plain: Bytes, sender: Bytes, to: Bytes, nonce: Option<Bytes>, works: bool, stamped: int, sent: int)
    | Decrypt(frame: Bytes, works: bool)

  predicate IsHandshake(c: Call) { c.Client? || c.Server? }

  /** What a handshake call derives in a state: the session key, None if it returns false. */
  type Outcomes = (EngineState, Call) -> Option<Bytes>

  ghost function HandshakeOutcome(p: Primitives): Outcomes
  {
    (s: EngineState, c: Call) =>
      if c.Client? && ClientCompletes(p, s.identity, c.client) then Some(ClientResult(p, s.identity, c.client).key)
      else if c.Server? && ServerCompletes(p, s.identity, c.server) then
        Some(ServerResult(p, s.identity, c.server).1.key)
      else None
  }

  ghost function After(o: Outcomes, s: EngineState, c: Call): EngineState
  {
    if c.Identify? then s.(identity := c.after)
    else if !IsHandshake(c) then s
    else match o(s, c)
         case None => s.(ready := false)
         case Some(key) => s.(key := key, ready := true)
  }

  ghost function Reached(o: Outcomes, calls: seq<Call>): EngineState
  {
    if calls == [] then NEW_ENGINE else After(o, Reached(o, calls[..|calls| - 1]), calls[|calls| - 1])
  }

  /** What handshake call i derived when it was made. */
  ghost function OutcomeAt(o: Outcomes, calls: seq<Call>, i: nat): Option<Bytes>
    requires i < |calls|
  {
    o(Reached(o, calls[..i]), calls[i])
  }

  /** Call i is the most recent handshake call. */
  predicate IsLastHandshake(calls: seq<Call>, i: nat)
  {
    i < |calls| && IsHandshake(calls[i]) && forall j :: i < j < |calls| ==> !IsHandshake(calls[j])
  }

  /** Call i is the most recent handshake call that returned true. */
  ghost predicate IsLastSuccess(o: Outcomes, calls: seq<Call>, i: nat)
  {
    && i < |calls| && IsHandshake(calls[i]) && OutcomeAt(o, calls, i).Some?
    && forall j :: i < j < |calls| && IsHandshake(calls[j]) ==> OutcomeAt(o, calls, j).None?
  }

  lemma EarlierCall(o: Outcomes, calls: seq<Call>, n: nat, i: nat)
    requires i < n <= |calls|
    ensures OutcomeAt(o, calls[..n], i) == OutcomeAt(o, calls, i)
  {
    assert calls[..n][..i] == calls[..i];
  }

  /** The session is ready exactly when the most recent handshake call returned true. */
  lemma {:induction false} ReadyAfterLastHandshake(o: Outcomes, calls: seq<Call>, i: nat)
    requires IsLastHandshake(calls, i)
    ensures Reached(o, calls).ready <==> OutcomeAt(o, calls, i).Some?
    decreases |calls|
  {
    var n := |calls| - 1;
    if i < n {
      EarlierCall(o, calls, n, i);
      ReadyAfterLastHandshake(o, calls[..n], i);
    }
  }

  /** The stored key is the one of the most recent successful handshake, through any
      number of later failed handshakes. */
  lemma {:induction false} KeyOfLastSuccess(o: Outcomes, calls: seq<Call>, i: nat)
    requires IsLastSuccess(o, calls, i)
    ensures Some(Reached(o, calls).key) == OutcomeAt(o, calls, i)
    decreases |calls|
  {
    var n := |calls| - 1;
    if i < n {
      forall j: nat | i <= j < n ensures OutcomeAt(o, calls[..n], j) == OutcomeAt(o, calls, j) {
        EarlierCall(o, calls, n, j);
      }
      KeyOfLastSuccess(o, calls[..n], i);
      assert IsHandshake(calls[n]) ==> OutcomeAt(o, calls, n).None?;
    }
  }

  /** Without a handshake call an engine is not ready. */
  lemma {:induction false} ReadyNeedsHandshake(o: Outcomes, calls: seq<Call>) returns (i: nat)
    requires Reached(o, calls).ready
    ensures IsLastHandshake(calls, i)
  {
    var n := |calls| - 1;
    i := n;
    if !IsHandshake(calls[n]) {
      i := ReadyNeedsHandshake(o, calls[..n]);
    }
  }

  lemma DerivedKeySize(p: Primitives, s: EngineState, c: Call)
    requires DigestLaws(p) && HandshakeOutcome(p)(s, c).Some?
    ensures |HandshakeOutcome(p)(s, c).value| == KEY_SIZE
  {
    if c.Client? {
      var run := c.client;
      var (pk, sk) := p.kemKeypair(run.coins.value);
      var h := AcceptResponse(p.verify, pk, run.reply.value).value;
      assert ClientResult(p, s.identity, run).key == p.hkdf(p.kemDecaps(sk, h.kem));
    } else {
      var run := c.server;
      var h := AcceptHello(p.verify, run.hello.value).value;
      assert ServerResult(p, s.identity, run).1.key == p.hkdf(p.kemEncaps(h.kem, run.coins.value).1);
    }
  }

  /** Whether an encryption or decryption call returns true. */
  ghost predicate MessageSucceeds(p: Primitives, s: EngineState, c: Call)
  {
    match c
    case Encrypt(plain, sender, to, nonce, works, stamped, sent) =>
      s.ready && nonce.Some? && works && Timestamp(stamped) && Timestamp(sent)
      && Sealed(p, s.key, plain, sender, to, nonce.value, stamped, sent).Ok?
    case Decrypt(frame, works) => s.ready && works && Opened(p, s.key, frame).Ok?
    case _ => false
  }

  /** In every history a message is encrypted or decrypted only if the most recent
      handshake call returned true, and then under the 32-byte key that call derived. */
  lemma MessagesUseLastHandshake(p: Primitives, calls: seq<Call>, c: Call)
    requires DigestLaws(p)
    requires MessageSucceeds(p, Reached(HandshakeOutcome(p), calls), c)
    ensures exists i: nat ::
              && IsLastHandshake(calls, i)
              && OutcomeAt(HandshakeOutcome(p), calls, i) == Some(Reached(HandshakeOutcome(p), calls).key)
    ensures |Reached(HandshakeOutcome(p), calls).key| == KEY_SIZE
  {
    var o := HandshakeOutcome(p);
    var i := ReadyNeedsHandshake(o, calls);
    ReadyAfterLastHandshake(o, calls, i);
    assert IsLastSuccess(o, calls, i);
    KeyOfLastSuccess(o, calls, i);
    DerivedKeySize(p, Reached(o, calls[..i]), calls[i]);
  }

  // ----- The engine object -----

  class ConnectionEngine {
    var identity: Identity
    var session: Session
    var sessionReady: bool

    function State(): EngineState
      reads this, session
    {
      EngineState(identity, session.key, sessionReady)
    }

    constructor ()
      ensures State() == NEW_ENGINE && fresh(session)
    {
      identity, sessionReady := EMPTY, false;
      session := new Session();
    }

    /** `present` is whether the profile path exists, `file` its contents, None if it cannot
        be opened, and `written` what the path holds after a profile has been created. */
    method LoadOrCreateIdentity(p: Primitives, present: bool, file: Option<Bytes>, password: Bytes, junk: Bytes,
                                works: bool, d: Draws)
      returns (ok: bool, created: bool, fingerprint: string, written: Option<Bytes>)
      requires |junk| == 8 && d.Sized()
      modifies this
      ensures session == old(session)
      ensures State() == After(HandshakeOutcome(p), old(State()), Identify(identity))
      ensures ok <==> if present then Loaded(p, file, password).Some? && works
                      else DrawnProfile(p, password, d).Some? && d.writable && d.good
      ensures !present ==> identity == d.Left(p, old(identity))
      ensures present && ok ==> Some(identity) == Loaded(p, file, password)
      ensures present && !ok ==>
                identity == if file.None? then old(identity) else AfterFailedLoad(file.value, old(identity))
      ensures written == if !present && DrawnProfile(p, password, d).Some? && d.writable
                         then Some(FirstOf(PrintProfile(DrawnProfile(p, password, d).value), d.takes)) else None
      ensures created <==> ok && !present
      ensures ok ==> fingerprint == Fingerprint(p, identity.pub)
    {
      ok, created, fingerprint, written := false, false, "", None;
      var r, out;
      if !present {
        r, out, written := CreateProfile(p, password, identity, d);
      } else {
        r, out := LoadProfile(p, file, password, junk, identity, works);
      }
      identity := out;
      if r.Err? {
        return;
      }
      created := !present;
      fingerprint := FingerprintHex(p, identity.pub);
      ok := true;
    }

    /** The client role up to the hello: the KEM handle with its pair, and the hello. */
    method SendHello(p: Primitives, run: ClientRun) returns (kem: KyberKem, r: Option<((Bytes, Bytes), Bytes)>)
      requires identity.IsLoaded()
      ensures fresh(kem) && (r.Some? ==> kem.ready)
      ensures match ClientSends(p, identity, run)
              case None => r.None?
              case Some(hello) => r == Some((p.kemKeypair(run.coins.value), hello))
    {
      kem := new KyberKem();
      var ready := kem.Init(run.available);
      if ready.Err? {
        return kem, None;
      }
      var pair := kem.Keypair(p, run.coins);
      if pair.Err? || !run.signs {
        return kem, None;
      }
      var (pk, sk) := pair.value;
      var message := Concat(CLIENT_LABEL, pk, []);
      assert message == ClientSigned(pk) by { assert pk + [] == pk; }
      var sig := p.sign(identity.priv, message);
      var bytes := Serialize(HandshakeFields(Handshake(pk, VERSION, identity.pub, sig)));
      if bytes.None? || !run.sends {
        return kem, None;
      }
      return kem, Some(((pk, sk), bytes.value));
    }

    /** The client role from the response on. */
    method FinishClient(p: Primitives, kem: KyberKem, pk: Bytes, sk: Bytes, run: ClientRun)
      returns (r: Result<Established, Error>)
      requires kem.ready
      ensures r.Ok? <==> run.reply.Some? && run.decapsulates && run.derives
                         && ClientFinish(p, pk, sk, run.reply.value).Ok?
      ensures r.Ok? ==> r == ClientFinish(p, pk, sk, run.reply.value)
    {
      if run.reply.None? {
        return Err(ReceiveFailed);
      }
      var resp := ParseHandshake(run.reply.value);
      if resp.None? {
        return Err(Malformed);
      }
      var signed := Concat(SERVER_LABEL, resp.value.kem, pk);
      if !p.verify(resp.value.pub, signed, resp.value.sig) {
        return Err(SignatureRejected);
      }
      var ss := kem.Decapsulate(p, resp.value.kem, sk, run.decapsulates);
      if ss.Err? {
        return Err(ss.error);
      }
      if !run.derives {
        return Err(LibraryFailure);
      }
      return Ok(Established(p.hkdf(ss.value), resp.value.pub));
    }

    method RunClientHandshake(p: Primitives, run: ClientRun)
      returns (ok: bool, hello: Option<Bytes>, fingerprint: string)
      modifies this, session
      ensures session == old(session)
      ensures State() == After(HandshakeOutcome(p), old(State()), Client(run))
      ensures hello == ClientSends(p, identity, run)
      ensures ok <==> ClientCompletes(p, identity, run)
      ensures ok ==> fingerprint == Fingerprint(p, ClientResult(p, identity, run).peer)
    {
      sessionReady := false;
      ok, hello, fingerprint := false, None, "";
      if !identity.IsLoaded() {
        return;
      }
      var kem, sent := SendHello(p, run);
      if sent.None? {
        return;
      }
      var ((pk, sk), bytes) := sent.value;
      hello := Some(bytes);
      var r := FinishClient(p, kem, pk, sk, run);
      if r.Err? {
        return;
      }
      session.SetKey(r.value.key);
      sessionReady := true;
      fingerprint := FingerprintHex(p, r.value.peer);
      ok := true;
    }

    /** The server role up to the response: it and the session, if all goes well so far. */
    method AnswerHello(p: Primitives, run: ServerRun) returns (r: Option<(Bytes, Established)>)
      requires identity.IsLoaded()
      ensures r.Some? <==> ServerSends(p, identity, run).Some?
      ensures r.Some? ==> Ok(r.value) == ServerAnswer(p, identity, run.hello.value, run.coins.value)
    {
      if run.hello.None? {
        return None;
      }
      var hello := ParseHandshake(run.hello.value);
      if hello.None? {
        return None;
      }
      var pk, pub, sig := hello.value.kem, hello.value.pub, hello.value.sig;
      var signed := Concat(CLIENT_LABEL, pk, []);
      assert signed == ClientSigned(pk) by { assert pk + [] == pk; }
      if !p.verify(pub, signed, sig) {
        return None;
      }
      var kem := new KyberKem();
      var ready := kem.Init(run.available);
      if ready.Err? {
        return None;
      }
      var capsule := kem.Encapsulate(p, pk, run.coins);
      if capsule.Err? || !run.signs {
        return None;
      }
      var (ct, ss) := capsule.value;
      var message := Concat(SERVER_LABEL, ct, pk);
      var bytes := Serialize(HandshakeFields(Handshake(ct, VERSION, identity.pub, p.sign(identity.priv, message))));
      if bytes.None? || !run.sends {
        return None;
      }
      return Some((bytes.value, Established(p.hkdf(ss), pub)));
    }

    method RunServerHandshake(p: Primitives, run: ServerRun)
      returns (ok: bool, response: Option<Bytes>, fingerprint: string)
      modifies this, session
      ensures session == old(session)
      ensures State() == After(HandshakeOutcome(p), old(State()), Server(run))
      ensures response == ServerSends(p, identity, run)
      ensures ok <==> ServerCompletes(p, identity, run)
      ensures ok ==> fingerprint == Fingerprint(p, ServerResult(p, identity, run).1.peer)
    {
      sessionReady := false;
      ok, response, fingerprint := false, None, "";
      if !identity.IsLoaded() {
        return;
      }
      var answer := AnswerHello(p, run);
      if answer.None? {
        return;
      }
      var (bytes, e) := answer.value;
      response := Some(bytes);
      if !run.derives {
        return;
      }
      session.SetKey(e.key);
      sessionReady := true;
      fingerprint := FingerprintHex(p, e.peer);
      ok := true;
    }

    /** `nonce` is None when the random generator fails, `works` whether the cipher calls succeed. */
    method EncryptAndSerializeMessage(p: Primitives, plain: Bytes, sender: Bytes, to: Bytes,
                                      nonce: Option<Bytes>, works: bool, stamped: int, sent: int)
      returns (r: Result<Bytes, Error>)
      requires Timestamp(stamped) && Timestamp(sent)
      ensures r.Ok? <==> sessionReady && nonce.Some? && works
                         && Sealed(p, session.key, plain, sender, to, nonce.value, stamped, sent).Ok?
      ensures r.Ok? ==> r == Sealed(p, session.key, plain, sender, to, nonce.value, stamped, sent)
    {
      if !sessionReady {
        return Err(SessionMissing);
      }
      if nonce.None? {
        return Err(LibraryFailure);
      }
      var box := session.Encrypt(p, plain, nonce.value, works);
      if box.Err? {
        return Err(box.error);
      }
      var inner := Serialize(ChatFields(Chat(sender, box.value, nonce.value, stamped)));
      if inner.None? {
        return Err(SerializeFailed);
      }
      var frame := Serialize(EnvelopeFields(Envelope(VERSION, to, [], inner.value, sent)));
      if frame.None? {
        return Err(SerializeFailed);
      }
      return Ok(frame.value);
    }

    method ParseAndDecryptMessage(p: Primitives, frame: Bytes, works: bool) returns (r: Result<Bytes, Error>)
      ensures r == if sessionReady then IfWorks(works, Opened(p, session.key, frame)) else Err(SessionMissing)
    {
      if !sessionReady {
        return Err(SessionMissing);
      }
      var env := ParseEnvelope(frame);
      if env.None? {
        return Err(Malformed);
      }
      var inner := ParseChat(env.value.payload);
      if inner.None? {
        return Err(Malformed);
      }
      r := session.Decrypt(p, inner.value.content, inner.value.nonce, works);
    }
  }
}
