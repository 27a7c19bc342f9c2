/** The engine as the programs around it see it: five functions and the laws they meet. */
module EnginePrograms {
  import opened ByteStrings
  import opened Crypto
  import opened Engine
  import opened IdentityStore
  import opened Messages
  import Wire

  /** The client role's hello, the server role's answer to a frame, the client's conclusion
      from a frame, and sealing and opening under a key. */
  datatype Program = Program(
    hello: Option<Bytes>,
    answer: Bytes -> Result<(Bytes, Established), Error>,
    finish: Bytes -> Result<Established, Error>,
    seal: (Bytes, Bytes, Bytes, int, int) -> Result<Bytes, Error>,
    open: (Bytes, Bytes) -> Result<Bytes, Error>)

  const LONGEST_LINE := 0x4000_0000

  /** Unchanged frames make both roles complete with one key and each other's identity. */
  ghost predicate HandshakeLaws(e: Program, serverPub: Bytes, clientPub: Bytes, response: Bytes, key: Bytes)
  {
    && e.hello.Some?
    && e.answer(e.hello.value) == Ok((response, Established(key, clientPub)))
    && e.finish(response) == Ok(Established(key, serverPub))
  }

  ghost predicate MessageLaws(e: Program, key: Bytes)
  {
    forall line, nonce, stamped, sent ::
      |line| <= LONGEST_LINE && |nonce| == NONCE_SIZE && Timestamp(stamped) && Timestamp(sent) ==>
        var r := e.seal(key, line, nonce, stamped, sent);
        r.Ok? && e.open(key, r.value) == Ok(line)
  }

  /** The connection engine's functions for a server and a client identity, the draws of
      their handshake, and the ids put into messages. */
  function EngineProgram(p: Primitives, server: Identity, client: Identity, clientCoins: Bytes, serverCoins: Bytes,
                         sender: Bytes, to: Bytes): Program
  {
    var (pk, sk) := p.kemKeypair(clientCoins);
    Program(
      HelloFrame(p, client, pk),
      (frame: Bytes) => ServerAnswer(p, server, frame, serverCoins),
      (frame: Bytes) => ClientFinish(p, pk, sk, frame),
      (key: Bytes, line: Bytes, nonce: Bytes, stamped: int, sent: int) =>
        if Timestamp(stamped) && Timestamp(sent) then Sealed(p, key, line, sender, to, nonce, stamped, sent)
        else Err(SerializeFailed),
      (key: Bytes, frame: Bytes) => Opened(p, key, frame))
  }

  function ResponseOf(e: Program): Bytes
  {
    if e.hello.None? then []
    else match e.answer(e.hello.value)
         case Err(_) => []
         case Ok((frame, _)) => frame
  }

  function AgreedKey(p: Primitives, clientCoins: Bytes, serverCoins: Bytes): Bytes
  {
    p.hkdf(p.kemEncaps(p.kemKeypair(clientCoins).0, serverCoins).1)
  }

  /** The engine meets the laws, for all genuine identities, draws and short UTF-8 ids. */
  lemma EngineProgramLawful(p: Primitives, server: Identity, client: Identity, clientCoins: Bytes, serverCoins: Bytes,
                            sender: Bytes, to: Bytes)
    requires Lawful(p) && Genuine(p, server) && Genuine(p, client)
    requires Wire.Utf8(sender) && Wire.Utf8(to) && |sender| + |to| <= 1000
    ensures var e := EngineProgram(p, server, client, clientCoins, serverCoins, sender, to);
            var key := AgreedKey(p, clientCoins, serverCoins);
            && HandshakeLaws(e, server.pub, client.pub, ResponseOf(e), key) && MessageLaws(e, key) && |key| == KEY_SIZE
  {
    var e := EngineProgram(p, server, client, clientCoins, serverCoins, sender, to);
    var key := AgreedKey(p, clientCoins, serverCoins);
    HonestHandshake(p, client, server, clientCoins, serverCoins);
    forall line: Bytes, nonce: Bytes, stamped: int, sent: int
      | |line| <= LONGEST_LINE && |nonce| == NONCE_SIZE && Timestamp(stamped) && Timestamp(sent)
      ensures e.seal(key, line, nonce, stamped, sent).Ok?
      ensures e.open(key, e.seal(key, line, nonce, stamped, sent).value) == Ok(line)
    {
      SmallMessagesSealed(p, key, line, sender, to, nonce, stamped, sent);
      OpenedSealed(p, key, line, sender, to, nonce, stamped, sent);
    }
  }
}
