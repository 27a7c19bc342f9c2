/** Any number of engines run handshakes, in any interleaving, over a network that may
    deliver any frame at all. Signatures, the KEM and AES-GCM are ideal tables.

    A step that is not enabled changes nothing, so the states reached by all action
    lists are exactly the reachable states. */
module Agreement {
  import opened ByteStrings
  import opened Messages
  import opened Crypto
  import opened Handshakes
  import opened IdentityStore
  import Engine
  import Wire

  datatype Role = Client | Server
  datatype Phase = Waiting | Answered | Done | Failed

  /** One handshake call of an engine with the identity key `owner`. `coins` are the draw
      behind its KEM operation. A client's pk is the one it generated; a server's pk and
      ct are set when it encapsulates. */
  datatype Run = Run(
    role: Role, owner: Bytes, phase: Phase, coins: Bytes, pk: Bytes, ct: Bytes, peer: Bytes, key: Bytes)

  /** A message sealed by a run under its session key. */
  datatype Message = Message(run: nat, nonce: Bytes, box: Bytes, plain: Bytes)

  /** `signed` is the signature table, `sealed` the AES-GCM table, `accepted` the
      plaintexts that runs have decrypted. */
  datatype State = State(runs: seq<Run>, signed: set<(Bytes, Bytes)>, sealed: seq<Message>, accepted: seq<(nat, Bytes)>)

  /** `owned` are the identity keys of engines; for all other keys verification is
      the arbitrary `foreign`. */
  datatype Config = Config(p: Primitives, owned: set<Bytes>, foreign: Verifier)

  const INITIAL := State([], {}, [], [])

  datatype Action =
    | StartClient(owner: Bytes, coins: Bytes)
    | StartServer(owner: Bytes)
    | ServerReads(run: nat, frame: Bytes, coins: Bytes)
    | ServerSends(run: nat, ok: bool)
    | ClientReads(run: nat, frame: Bytes)
    | Fail(run: nat)
    | Encrypt(run: nat, nonce: Bytes, box: Bytes, plain: Bytes)
    | Decrypt(run: nat, frame: Bytes, plain: Bytes)

  /** For an engine's key a signature verifies exactly when the engine made it. */
  function Verify(cfg: Config, s: State): Verifier
  {
    (pub: Bytes, message: Bytes, sig: Bytes) =>
      if pub in cfg.owned then (pub, message) in s.signed else cfg.foreign(pub, message, sig)
  }

  predicate HasEncapsulated(r: Run) { r.role.Server? && |r.pk| == PK_LEN && |r.ct| == CT_LEN }

  predicate HasPk(r: Run, pk: Bytes) { r.pk == pk }

  predicate HasCapsule(r: Run, pk: Bytes, ct: Bytes) { HasEncapsulated(r) && r.pk == pk && r.ct == ct }

  /** KEM keys never repeat and are not guessed before they are generated. */
  ghost predicate FreshPk(s: State, pk: Bytes)
  {
    |pk| == PK_LEN && forall r :: r in s.runs ==> !HasPk(r, pk)
  }

  /** Encapsulation never yields the same ciphertext for the same key twice. */
  ghost predicate FreshCt(s: State, pk: Bytes, ct: Bytes)
  {
    |ct| == CT_LEN && forall r :: r in s.runs ==> !HasCapsule(r, pk, ct)
  }

  predicate IsRun(s: State, i: nat, role: Role, phase: Phase)
  {
    i < |s.runs| && s.runs[i].role == role && s.runs[i].phase == phase
  }

  function SetRun(s: State, i: nat, r: Run): State
    requires i < |s.runs|
  {
    s.(runs := s.runs[i := r])
  }

  ghost predicate GeneratedPk(s: State, pk: Bytes)
  {
    exists r :: r in s.runs && r.role.Client? && HasPk(r, pk)
  }

  ghost predicate EncapsulatedCt(s: State, pk: Bytes, ct: Bytes)
  {
    exists r :: r in s.runs && HasCapsule(r, pk, ct)
  }

  /** The secret encapsulated in ct under pk is shared by engines alone: an engine
      generated pk and an engine encapsulated. */
  ghost predicate Protected(s: State, pk: Bytes, ct: Bytes)
  {
    GeneratedPk(s, pk) && EncapsulatedCt(s, pk, ct)
  }

  predicate InSession(s: State, m: Message, pk: Bytes, ct: Bytes)
  {
    m.run < |s.runs| && s.runs[m.run].pk == pk && s.runs[m.run].ct == ct
  }

  predicate IsBox(s: State, m: Message, pk: Bytes, ct: Bytes, nonce: Bytes, box: Bytes)
  {
    InSession(s, m, pk, ct) && m.nonce == nonce && m.box == box
  }

  /** Under a protected key a box opens exactly to what was sealed in it; under any
      other key the network may have made it open to anything. */
  ghost predicate Opens(s: State, pk: Bytes, ct: Bytes, nonce: Bytes, box: Bytes, plain: Bytes)
  {
    Protected(s, pk, ct) ==> exists m :: m in s.sealed && IsBox(s, m, pk, ct, nonce, box) && m.plain == plain
  }

  ghost function Step(cfg: Config, s: State, a: Action): State
  {
    match a
    case StartClient(owner, coins) =>
      var pk := cfg.p.kemKeypair(coins).0;
      if owner in cfg.owned && FreshPk(s, pk) then
        s.(runs := s.runs + [Run(Client, owner, Waiting, coins, pk, [], [], [])],
        signed := s.signed + {(owner, ClientSigned(pk))})
      else s
    case StartServer(owner) =>
      if owner in cfg.owned then s.(runs := s.runs + [Run(Server, owner, Waiting, [], [], [], [], [])]) else s
    case ServerReads(i, frame, coins) =>
      if IsRun(s, i, Server, Waiting) then
        match AcceptHello(Verify(cfg, s), frame)
        case Err(_) => SetRun(s, i, s.runs[i].(phase := Failed))
        case Ok(h) =>
          var (ct, ss) := cfg.p.kemEncaps(h.kem, coins);
          if FreshCt(s, h.kem, ct) then
            var r := s.runs[i].(phase := Answered, coins := coins, pk := h.kem, ct := ct);
            SetRun(s, i, r.(peer := h.pub, key := cfg.p.hkdf(ss)))
            .(signed := s.signed + {(s.runs[i].owner, ServerSigned(ct, h.kem))})
          else s
      else s
    case ServerSends(i, ok) =>
      if IsRun(s, i, Server, Answered) then SetRun(s, i, s.runs[i].(phase := if ok then Done else Failed)) else s
    case ClientReads(i, frame) =>
      if IsRun(s, i, Client, Waiting) then
        match AcceptResponse(Verify(cfg, s), s.runs[i].pk, frame)
        case Err(_) => SetRun(s, i, s.runs[i].(phase := Failed))
        case Ok(h) =>
          var sk := cfg.p.kemKeypair(s.runs[i].coins).1;
          var key := cfg.p.hkdf(cfg.p.kemDecaps(sk, h.kem));
          SetRun(s, i, s.runs[i].(phase := Done, ct := h.kem, peer := h.pub, key := key))
      else s
    case Fail(i) =>
      if i < |s.runs| && !s.runs[i].phase.Done? then SetRun(s, i, s.runs[i].(phase := Failed)) else s
    case Encrypt(i, nonce, box, plain) =>
      if i < |s.runs| && s.runs[i].phase.Done?
         && (forall m :: m in s.sealed ==> !IsBox(s, m, s.runs[i].pk, s.runs[i].ct, nonce, box)) then
        s.(sealed := s.sealed + [Message(i, nonce, box, plain)])
      else s
    case Decrypt(i, frame, plain) =>
      if i < |s.runs| && s.runs[i].phase.Done? then
        match Engine.Unwrap(frame)
        case Err(_) => s
        case Ok(chat) =>
          if Opens(s, s.runs[i].pk, s.runs[i].ct, chat.nonce, chat.content, plain)
          then s.(accepted := s.accepted + [(i, plain)]) else s
      else s
  }

  ghost function Reached(cfg: Config, actions: seq<Action>): State
  {
    if actions == [] then INITIAL
    else Step(cfg, Reached(cfg, actions[..|actions| - 1]), actions[|actions| - 1])
  }

  // ----- What every step keeps -----

  /** A run that accounts for an entry of the signature table. */
  predicate Signed(r: Run, entry: (Bytes, Bytes))
  {
    && r.owner == entry.0
    && (|| (r.role.Client? && entry.1 == ClientSigned(r.pk))
        || (HasEncapsulated(r) && entry.1 == ServerSigned(r.ct, r.pk)))
  }

  ghost predicate TableExplained(s: State)
  {
    forall e :: e in s.signed ==> exists r :: r in s.runs && Signed(r, e)
  }

  predicate RunInOrder(cfg: Config, s: State, r: Run)
  {
    && r.owner in cfg.owned
    && match r.role
       case Client =>
         && |r.pk| == PK_LEN && !r.phase.Answered? && r.pk == cfg.p.kemKeypair(r.coins).0
         && (r.phase.Done? ==> r.key == cfg.p.hkdf(cfg.p.kemDecaps(cfg.p.kemKeypair(r.coins).1, r.ct)))
         && (r.phase.Done? ==> |r.ct| == CT_LEN)
         && (r.phase.Done? && r.peer in cfg.owned ==> (r.peer, ServerSigned(r.ct, r.pk)) in s.signed)
       case Server =>
         && (r.phase.Waiting? ==> r.pk == [] && r.ct == [])
         && (r.phase.Answered? || r.phase.Done? ==> HasEncapsulated(r))
         && (HasEncapsulated(r) ==> r.ct == cfg.p.kemEncaps(r.pk, r.coins).0)
         && (HasEncapsulated(r) ==> r.key == cfg.p.hkdf(cfg.p.kemEncaps(r.pk, r.coins).1))
         && (HasEncapsulated(r) && r.peer in cfg.owned ==> (r.peer, ClientSigned(r.pk)) in s.signed)
  }

  ghost predicate RunsInOrder(cfg: Config, s: State)
  {
    forall r :: r in s.runs ==> RunInOrder(cfg, s, r)
  }

  ghost predicate DrawsDistinct(s: State)
  {
    && (forall i, j :: 0 <= i < j < |s.runs| && s.runs[i].role.Client? && s.runs[j].role.Client?
                       ==> s.runs[i].pk != s.runs[j].pk)
    && (forall i, j :: 0 <= i < j < |s.runs| && HasEncapsulated(s.runs[i]) && HasEncapsulated(s.runs[j])
                       ==> s.runs[i].pk != s.runs[j].pk || s.runs[i].ct != s.runs[j].ct)
  }

  ghost predicate Inv(cfg: Config, s: State)
  {
    TableExplained(s) && RunsInOrder(cfg, s) && DrawsDistinct(s)
  }

  /** One run is replaced by a later stage of itself, with its new signature if any. */
  lemma RunAdvances(cfg: Config, s: State, i: nat, r: Run, entries: set<(Bytes, Bytes)>)
    requires Inv(cfg, s) && i < |s.runs|
    requires r.role == s.runs[i].role && r.owner == s.runs[i].owner
    requires r.role.Client? ==> r.pk == s.runs[i].pk
    requires HasEncapsulated(s.runs[i]) ==> r.pk == s.runs[i].pk && r.ct == s.runs[i].ct
    requires HasEncapsulated(r) && !HasEncapsulated(s.runs[i]) ==> FreshCt(s, r.pk, r.ct)
    requires forall e :: e in entries ==> Signed(r, e)
    requires RunInOrder(cfg, s, r)
    ensures Inv(cfg, SetRun(s, i, r).(signed := s.signed + entries))
  {
    var s' := SetRun(s, i, r).(signed := s.signed + entries);
    StillExplained(s, i, r, entries);
    forall q | q in s'.runs ensures RunInOrder(cfg, s', q) {
      assert q == r || q in s.runs;
    }
    assert forall k :: 0 <= k < |s.runs| ==> s.runs[k] in s.runs;
  }

  lemma StillExplained(s: State, i: nat, r: Run, entries: set<(Bytes, Bytes)>)
    requires TableExplained(s) && i < |s.runs|
    requires r.role == s.runs[i].role && r.owner == s.runs[i].owner
    requires r.role.Client? ==> r.pk == s.runs[i].pk
    requires HasEncapsulated(s.runs[i]) ==> r.pk == s.runs[i].pk && r.ct == s.runs[i].ct
    requires forall e :: e in entries ==> Signed(r, e)
    ensures TableExplained(SetRun(s, i, r).(signed := s.signed + entries))
  {
    var s' := SetRun(s, i, r).(signed := s.signed + entries);
    forall e | e in s'.signed ensures exists q :: q in s'.runs && Signed(q, e) {
      if e in entries {
        assert s'.runs[i] in s'.runs;
      } else {
        var q :| q in s.runs && Signed(q, e);
        var k :| 0 <= k < |s.runs| && s.runs[k] == q;
        assert s'.runs[k] in s'.runs && Signed(s'.runs[k], e);
      }
    }
  }

  lemma RunAdded(cfg: Config, s: State, r: Run, entries: set<(Bytes, Bytes)>)
    requires Inv(cfg, s)
    requires !HasEncapsulated(r) && (r.role.Client? ==> FreshPk(s, r.pk))
    requires forall e :: e in entries ==> Signed(r, e)
    requires RunInOrder(cfg, s, r)
    ensures Inv(cfg, s.(runs := s.runs + [r], signed := s.signed + entries))
  {
    var s' := s.(runs := s.runs + [r], signed := s.signed + entries);
    assert s'.runs[|s.runs|] in s'.runs;
    forall e | e in s'.signed ensures exists q :: q in s'.runs && Signed(q, e) {
      if e !in entries {
        var q :| q in s.runs && Signed(q, e);
        assert q in s'.runs;
      }
    }
    forall q | q in s'.runs ensures RunInOrder(cfg, s', q) {
      assert q == r || q in s.runs;
    }
    assert forall k :: 0 <= k < |s.runs| ==> s.runs[k] in s.runs;
  }

  lemma InvKept(cfg: Config, s: State, a: Action)
    requires Inv(cfg, s)
    ensures Inv(cfg, Step(cfg, s, a))
  {
    match a
    case StartClient(owner, coins) =>
      var pk := cfg.p.kemKeypair(coins).0;
      if owner in cfg.owned && FreshPk(s, pk) {
        RunAdded(cfg, s, Run(Client, owner, Waiting, coins, pk, [], [], []), {(owner, ClientSigned(pk))});
      }
    case StartServer(owner) =>
      if owner in cfg.owned {
        RunAdded(cfg, s, Run(Server, owner, Waiting, [], [], [], [], []), {});
        assert s.signed + {} == s.signed;
      }
    case ServerReads(i, frame, coins) => ServerReadsKeeps(cfg, s, i, frame, coins);
    case ServerSends(i, ok) =>
      if IsRun(s, i, Server, Answered) {
        PhaseAdvances(cfg, s, i, if ok then Done else Failed);
      }
    case ClientReads(i, frame) => ClientReadsKeeps(cfg, s, i, frame);
    case Fail(i) =>
      if i < |s.runs| && !s.runs[i].phase.Done? {
        PhaseAdvances(cfg, s, i, Failed);
      }
    case Encrypt(_, _, _, _) =>
    case Decrypt(_, _, _) =>
  }

  lemma PhaseAdvances(cfg: Config, s: State, i: nat, phase: Phase)
    requires Inv(cfg, s) && i < |s.runs|
    requires phase.Failed? || (phase.Done? && s.runs[i].phase.Answered?)
    ensures Inv(cfg, SetRun(s, i, s.runs[i].(phase := phase)))
  {
    assert s.runs[i] in s.runs;
    RunAdvances(cfg, s, i, s.runs[i].(phase := phase), {});
    assert s.signed + {} == s.signed;
  }

  lemma ServerReadsKeeps(cfg: Config, s: State, i: nat, frame: Bytes, coins: Bytes)
    requires Inv(cfg, s)
    ensures Inv(cfg, Step(cfg, s, ServerReads(i, frame, coins)))
  {
    if IsRun(s, i, Server, Waiting) {
      assert s.runs[i] in s.runs;
      match AcceptHello(Verify(cfg, s), frame)
      case Err(_) => PhaseAdvances(cfg, s, i, Failed);
      case Ok(h) =>
        var (ct, ss) := cfg.p.kemEncaps(h.kem, coins);
        if FreshCt(s, h.kem, ct) {
          var r := s.runs[i].(phase := Answered, coins := coins, pk := h.kem, ct := ct)
          .(peer := h.pub, key := cfg.p.hkdf(ss));
          RunAdvances(cfg, s, i, r, {(r.owner, ServerSigned(ct, h.kem))});
        }
    }
  }

  lemma ClientReadsKeeps(cfg: Config, s: State, i: nat, frame: Bytes)
    requires Inv(cfg, s)
    ensures Inv(cfg, Step(cfg, s, ClientReads(i, frame)))
  {
    if IsRun(s, i, Client, Waiting) {
      assert s.runs[i] in s.runs;
      match AcceptResponse(Verify(cfg, s), s.runs[i].pk, frame)
      case Err(_) => PhaseAdvances(cfg, s, i, Failed);
      case Ok(h) =>
        var sk := cfg.p.kemKeypair(s.runs[i].coins).1;
        var key := cfg.p.hkdf(cfg.p.kemDecaps(sk, h.kem));
        RunAdvances(cfg, s, i, s.runs[i].(phase := Done, ct := h.kem, peer := h.pub, key := key), {});
        assert s.signed + {} == s.signed;
    }
  }

  lemma {:induction false} InvReached(cfg: Config, actions: seq<Action>)
    ensures Inv(cfg, Reached(cfg, actions))
  {
    if actions != [] {
      InvReached(cfg, actions[..|actions| - 1]);
      InvKept(cfg, Reached(cfg, actions[..|actions| - 1]), actions[|actions| - 1]);
    }
  }

  // ----- The steps are the engine's -----

  function Ideal(cfg: Config, s: State): Primitives { cfg.p.(verify := Verify(cfg, s)) }

  /** Starting a client is the engine's hello: what it carries and signs is in the state. */
  lemma StartIsEngine(cfg: Config, s: State, id: Identity, coins: Bytes)
    requires SignatureLaws(cfg.p) && id.pub in cfg.owned && |id.pub| == PUB_LEN
    requires FreshPk(s, cfg.p.kemKeypair(coins).0)
    ensures var pk := cfg.p.kemKeypair(coins).0;
            var s' := Step(cfg, s, StartClient(id.pub, coins));
            var n := |s.runs|;
            && IsRun(s', n, Client, Waiting) && s'.runs[..n] == s.runs && |s'.runs| == n + 1
            && s'.runs[n].owner == id.pub && s'.runs[n].pk == pk && s'.runs[n].coins == coins
            && var hello := Engine.HelloFrame(Ideal(cfg, s), id, pk);
            && hello.Some?
            && ParseHandshake(hello.value) ==
               Some(Handshake(pk, VERSION, id.pub, cfg.p.sign(id.priv, ClientSigned(pk))))
            && s'.signed == s.signed + {(id.pub, ClientSigned(pk))}
  {
    var pk := cfg.p.kemKeypair(coins).0;
    var h := Handshake(pk, VERSION, id.pub, cfg.p.sign(id.priv, ClientSigned(pk)));
    HandshakeSerializes(h);
    HandshakeRoundTrip(h);
  }

  /** A client's reading step is the engine's own reaction to the frame, with the ideal
      table as verifier: it completes exactly when the engine does, with its key and peer. */
  lemma ClientStepIsEngine(cfg: Config, s: State, i: nat, frame: Bytes)
    requires KemLaws(cfg.p) && IsRun(s, i, Client, Waiting)
    ensures var r, r' := s.runs[i], Step(cfg, s, ClientReads(i, frame)).runs[i];
            match Engine.ClientFinish(Ideal(cfg, s), r.pk, cfg.p.kemKeypair(r.coins).1, frame)
            case Ok(e) => r'.phase.Done? && r'.key == e.key && r'.peer == e.peer
            case Err(_) => r'.phase.Failed?
  {
  }

  /** The same for a server: the run fails exactly when the engine refuses the hello;
      otherwise it holds the engine's key and peer, and the response carries the run's
      ciphertext with a signature that is in the table. */
  lemma ServerStepIsEngine(cfg: Config, s: State, i: nat, frame: Bytes, coins: Bytes, id: Identity)
    requires KemLaws(cfg.p) && SignatureLaws(cfg.p)
    requires IsRun(s, i, Server, Waiting) && id.pub == s.runs[i].owner && |id.pub| == PUB_LEN
    requires var h := AcceptHello(Verify(cfg, s), frame);
             h.Ok? ==> FreshCt(s, h.value.kem, cfg.p.kemEncaps(h.value.kem, coins).0)
    ensures var s' := Step(cfg, s, ServerReads(i, frame, coins));
            match Engine.ServerAnswer(Ideal(cfg, s), id, frame, coins)
            case Err(_) => s'.runs[i].phase.Failed? && s'.signed == s.signed
            case Ok((response, e)) =>
              && s'.runs[i].phase.Answered? && s'.runs[i].key == e.key && s'.runs[i].peer == e.peer
              && Responds(cfg, s'.runs[i], id, response)
              && s'.signed == s.signed + {(id.pub, ServerSigned(s'.runs[i].ct, s'.runs[i].pk))}
  {
    var h := AcceptHello(Verify(cfg, s), frame);
    if h.Ok? {
      var pk := h.value.kem;
      var ct := cfg.p.kemEncaps(pk, coins).0;
      var response := Handshake(ct, VERSION, id.pub, cfg.p.sign(id.priv, ServerSigned(ct, pk)));
      HandshakeSerializes(response);
      HandshakeRoundTrip(response);
    }
  }

  predicate Responds(cfg: Config, r: Run, id: Identity, response: Bytes)
  {
    ParseHandshake(response) ==
    Some(Handshake(r.ct, VERSION, id.pub, cfg.p.sign(id.priv, ServerSigned(r.ct, r.pk))))
  }

  // ----- Agreement -----

  ghost predicate Agrees(s: State, i: nat, j: nat)
    requires i < |s.runs|
  {
    && j < |s.runs|
    && HasCapsule(s.runs[j], s.runs[i].pk, s.runs[i].ct)
    && s.runs[j].owner == s.runs[i].peer
  }

  lemma AgreementFromInv(cfg: Config, s: State, i: nat) returns (j: nat)
    requires Inv(cfg, s)
    requires IsRun(s, i, Client, Done) && s.runs[i].peer in cfg.owned
    ensures Agrees(s, i, j) && forall k :: Agrees(s, i, k) ==> k == j
    ensures Protected(s, s.runs[i].pk, s.runs[i].ct)
  {
    var c := s.runs[i];
    assert c in s.runs && RunInOrder(cfg, s, c);
    var e := (c.peer, ServerSigned(c.ct, c.pk));
    var r :| r in s.runs && Signed(r, e);
    SignedStringsUnambiguous(c.ct, r.pk, c.ct, c.pk);
    SignedStringsUnambiguous(c.ct, c.pk, r.ct, r.pk);
    j :| 0 <= j < |s.runs| && s.runs[j] == r;
    assert HasPk(c, c.pk) && HasCapsule(r, c.pk, c.ct);
  }

  /** Client agreement. When a client run returns true with an engine's identity key as
      peer, that engine ran the server role on exactly this client's KEM key and made
      exactly the ciphertext that was decapsulated, in exactly one run; the two runs hold
      the same session key, and no other client run agrees with that server run. */
  lemma ClientAgreement(cfg: Config, actions: seq<Action>, i: nat)
    requires KemLaws(cfg.p)
    requires var s := Reached(cfg, actions); IsRun(s, i, Client, Done) && s.runs[i].peer in cfg.owned
    ensures var s := Reached(cfg, actions);
            exists j: nat ::
              && Agrees(s, i, j)
              && s.runs[i].key == s.runs[j].key
              && (forall k: nat :: Agrees(s, i, k) ==> k == j)
              && (forall k: nat :: k < |s.runs| && s.runs[k].role.Client? && Agrees(s, k, j) ==> k == i)
  {
    var s := Reached(cfg, actions);
    InvReached(cfg, actions);
    var j := AgreementFromInv(cfg, s, i);
    var c, d := s.runs[i], s.runs[j];
    assert c in s.runs && RunInOrder(cfg, s, c) && d in s.runs && RunInOrder(cfg, s, d);
    assert cfg.p.kemDecaps(cfg.p.kemKeypair(c.coins).1, cfg.p.kemEncaps(cfg.p.kemKeypair(c.coins).0, d.coins).0)
        == cfg.p.kemEncaps(cfg.p.kemKeypair(c.coins).0, d.coins).1;
  }

  ghost predicate Originates(s: State, j: nat, i: nat)
    requires j < |s.runs|
  {
    i < |s.runs| && s.runs[i].role.Client? && s.runs[i].owner == s.runs[j].peer && s.runs[i].pk == s.runs[j].pk
  }

  lemma OriginFromInv(cfg: Config, s: State, j: nat) returns (i: nat)
    requires Inv(cfg, s)
    requires j < |s.runs| && HasEncapsulated(s.runs[j]) && s.runs[j].peer in cfg.owned
    ensures Originates(s, j, i) && forall k :: Originates(s, j, k) ==> k == i
    ensures Protected(s, s.runs[j].pk, s.runs[j].ct)
  {
    var q := s.runs[j];
    assert q in s.runs && RunInOrder(cfg, s, q);
    var e := (q.peer, ClientSigned(q.pk));
    var r :| r in s.runs && Signed(r, e);
    SignedStringsUnambiguous(r.ct, q.pk, r.ct, r.pk);
    i :| 0 <= i < |s.runs| && s.runs[i] == r;
    assert HasPk(r, q.pk) && HasCapsule(q, q.pk, q.ct);
  }

  /** Server-side origin. When a server run completes with an engine's identity key as
      peer, that engine generated and signed that KEM key as client, in exactly one run. */
  lemma ServerOrigin(cfg: Config, actions: seq<Action>, j: nat)
    requires var s := Reached(cfg, actions); IsRun(s, j, Server, Done) && s.runs[j].peer in cfg.owned
    ensures var s := Reached(cfg, actions);
            exists i: nat :: Originates(s, j, i) && forall k: nat :: Originates(s, j, k) ==> k == i
  {
    var s := Reached(cfg, actions);
    InvReached(cfg, actions);
    assert s.runs[j] in s.runs && RunInOrder(cfg, s, s.runs[j]);
    var i := OriginFromInv(cfg, s, j);
  }

  /** A hello under an engine's key, reflected or fanned out to any client in any reachable
      state, already fails signature verification: no engine signs a server string
      around something as long as a KEM public key. */
  lemma HelloIsNoResponse(cfg: Config, actions: seq<Action>, pk: Bytes, frame: Bytes, h: Handshake)
    requires ParseHandshake(frame) == Some(h) && |h.kem| == PK_LEN == |pk| && h.pub in cfg.owned
    ensures AcceptResponse(Verify(cfg, Reached(cfg, actions)), pk, frame) == Err(SignatureRejected)
  {
    InvReached(cfg, actions);
  }

  /** Agreement on identity, exactly: the partner of a client run takes it for the run's own
      engine if and only if it takes it for any engine at all. */
  lemma PartnerNamesClient(cfg: Config, actions: seq<Action>, i: nat, j: nat)
    requires var s := Reached(cfg, actions);
             IsRun(s, i, Client, Done) && s.runs[i].peer in cfg.owned && Agrees(s, i, j)
    ensures var s := Reached(cfg, actions);
            s.runs[j].peer == s.runs[i].owner <==> s.runs[j].peer in cfg.owned
  {
    var s := Reached(cfg, actions);
    InvReached(cfg, actions);
    assert s.runs[i] in s.runs && RunInOrder(cfg, s, s.runs[i]);
    if s.runs[j].peer in cfg.owned {
      var k := OriginFromInv(cfg, s, j);
      assert k == i;
    }
  }

  // A run in which it does not: somebody else signs an engine's KEM key with a foreign key.

  lemma Next(cfg: Config, actions: seq<Action>, a: Action)
    ensures Reached(cfg, actions + [a]) == Step(cfg, Reached(cfg, actions), a)
  {
    assert (actions + [a])[..|actions|] == actions;
  }

  lemma BothStart(cfg: Config, client: Bytes, server: Bytes, coins: Bytes) returns (actions: seq<Action>)
    requires KemLaws(cfg.p) && client in cfg.owned && server in cfg.owned
    ensures var s := Reached(cfg, actions);
            var pk := cfg.p.kemKeypair(coins).0;
            && s.runs == [Run(Client, client, Waiting, coins, pk, [], [], []),
                          Run(Server, server, Waiting, [], [], [], [], [])]
            && s.signed == {(client, ClientSigned(pk))}
  {
    Next(cfg, [], StartClient(client, coins));
    Next(cfg, [StartClient(client, coins)], StartServer(server));
    assert [] + [StartClient(client, coins)] == [StartClient(client, coins)];
    assert |cfg.p.kemKeypair(coins).0| == PK_LEN;
    actions := [StartClient(client, coins)] + [StartServer(server)];
  }

  lemma ForeignHelloAnswered(cfg: Config, s: State, hello: Handshake, frame: Bytes, draw: Bytes)
    requires KemLaws(cfg.p) && |s.runs| == 2 && s.runs[0].role.Client?
    requires IsRun(s, 1, Server, Waiting) && s.runs[1].pk == []
    requires ParseHandshake(frame) == Some(hello) && |hello.kem| == PK_LEN
    requires hello.pub !in cfg.owned && cfg.foreign(hello.pub, ClientSigned(hello.kem), hello.sig)
    ensures var s' := Step(cfg, s, ServerReads(1, frame, draw));
            var (ct, ss) := cfg.p.kemEncaps(hello.kem, draw);
            && s'.runs == [s.runs[0],
                           Run(Server, s.runs[1].owner, Answered, draw, hello.kem, ct, hello.pub, cfg.p.hkdf(ss))]
            && s'.signed == s.signed + {(s.runs[1].owner, ServerSigned(ct, hello.kem))}
  {
    var ct := cfg.p.kemEncaps(hello.kem, draw).0;
    assert |cfg.p.kemEncaps(hello.kem, draw).0| == CT_LEN;
    forall r | r in s.runs ensures !HasCapsule(r, hello.kem, ct) {
      assert r == s.runs[0] || r == s.runs[1];
    }
  }

  lemma ResponseAccepted(cfg: Config, s: State, response: Handshake, frame: Bytes)
    requires IsRun(s, 0, Client, Waiting) && ParseHandshake(frame) == Some(response) && |response.kem| == CT_LEN
    requires response.pub in cfg.owned && (response.pub, ServerSigned(response.kem, s.runs[0].pk)) in s.signed
    ensures var s' := Step(cfg, s, ClientReads(0, frame));
            && IsRun(s', 0, Client, Done) && s'.runs[1..] == s.runs[1..] && |s'.runs| == |s.runs|
            && s'.runs[0].peer == response.pub && s'.runs[0].ct == response.kem
            && s'.runs[0].pk == s.runs[0].pk && s'.runs[0].owner == s.runs[0].owner
  {
  }

  lemma Wrapped(h: Handshake) returns (frame: Bytes)
    requires |h.kem| + |h.pub| + |h.sig| < TWO_31 - 100 && h.version < TWO_32
    ensures ParseHandshake(frame) == Some(h)
  {
    HandshakeSerializes(h);
    HandshakeRoundTrip(h);
    frame := Serialize(HandshakeFields(h)).value;
  }

  /** The server's part of that run. */
  lemma ForeignHelloServed(cfg: Config, client: Bytes, server: Bytes, hello: Handshake, coins: Bytes, draw: Bytes)
    returns (actions: seq<Action>)
    requires KemLaws(cfg.p) && client in cfg.owned && server in cfg.owned
    requires hello.kem == cfg.p.kemKeypair(coins).0 && hello.version == VERSION && |hello.pub| + |hello.sig| < 1000
    requires hello.pub !in cfg.owned && cfg.foreign(hello.pub, ClientSigned(hello.kem), hello.sig)
    ensures var s := Reached(cfg, actions);
            var (ct, ss) := cfg.p.kemEncaps(hello.kem, draw);
            && s.runs == [Run(Client, client, Waiting, coins, hello.kem, [], [], []),
                          Run(Server, server, Done, draw, hello.kem, ct, hello.pub, cfg.p.hkdf(ss))]
            && (server, ServerSigned(ct, hello.kem)) in s.signed
  {
    assert |cfg.p.kemKeypair(coins).0| == PK_LEN;
    var frame := Wrapped(hello);
    actions := BothStart(cfg, client, server, coins);
    ForeignHelloAnswered(cfg, Reached(cfg, actions), hello, frame, draw);
    Next(cfg, actions, ServerReads(1, frame, draw));
    actions := actions + [ServerReads(1, frame, draw)];
    Next(cfg, actions, ServerSends(1, true));
    actions := actions + [ServerSends(1, true)];
  }

  /** For every two engines and every foreign key that can sign: the client ends with the
      server's engine as peer and the two agree, while the server holds the foreign key for
      its peer. So no lemma can promise agreement on the client's identity. */
  lemma IdentityNotAgreed(cfg: Config, client: Bytes, server: Bytes, foreign: Bytes, sig: Bytes,
                          coins: Bytes, draw: Bytes)
    returns (actions: seq<Action>)
    requires KemLaws(cfg.p) && client in cfg.owned && server in cfg.owned && foreign !in cfg.owned
    requires |client| == PUB_LEN == |server| && |foreign| == PUB_LEN && |sig| == 64
    requires cfg.foreign(foreign, ClientSigned(cfg.p.kemKeypair(coins).0), sig)
    ensures var s := Reached(cfg, actions);
            && IsRun(s, 0, Client, Done) && s.runs[0].peer == server && s.runs[0].owner == client
            && Agrees(s, 0, 1) && IsRun(s, 1, Server, Done) && s.runs[1].peer == foreign != client
  {
    var pk := cfg.p.kemKeypair(coins).0;
    var ct := cfg.p.kemEncaps(pk, draw).0;
    assert |cfg.p.kemKeypair(coins).0| == PK_LEN && |cfg.p.kemEncaps(pk, draw).0| == CT_LEN;
    var response := Handshake(ct, VERSION, server, sig);
    var frame := Wrapped(response);
    actions := ForeignHelloServed(cfg, client, server, Handshake(pk, VERSION, foreign, sig), coins, draw);
    ResponseAccepted(cfg, Reached(cfg, actions), response, frame);
    Next(cfg, actions, ClientReads(0, frame));
    actions := actions + [ClientReads(0, frame)];
  }

  // ----- Messages -----

  predicate SameSession(a: Run, b: Run) { a.pk == b.pk && a.ct == b.ct }

  /** A plaintext accepted by a run with an engine as peer was sealed by a completed run
      of the same session (possibly this one: a box carries no direction). */
  ghost predicate Authentic(cfg: Config, s: State, i: nat, plain: Bytes)
  {
    i < |s.runs| && s.runs[i].phase.Done? &&
    (s.runs[i].peer in cfg.owned ==>
       exists m :: m in s.sealed && m.plain == plain && m.run < |s.runs| && SameSession(s.runs[m.run], s.runs[i]))
  }

  ghost predicate MessagesInOrder(cfg: Config, s: State)
  {
    && (forall m :: m in s.sealed ==> m.run < |s.runs| && s.runs[m.run].phase.Done?)
    && (forall e :: e in s.accepted ==> Authentic(cfg, s, e.0, e.1))
  }

  lemma {:induction false} MessagesReached(cfg: Config, actions: seq<Action>)
    ensures MessagesInOrder(cfg, Reached(cfg, actions))
  {
    if actions != [] {
      var before := actions[..|actions| - 1];
      MessagesReached(cfg, before);
      InvReached(cfg, before);
      MessagesKept(cfg, Reached(cfg, before), actions[|actions| - 1]);
    }
  }

  /** A run that has not completed can fail at any time, and a failed run never completes. */
  lemma FailureIsFinal(cfg: Config, s: State, a: Action, i: nat)
    requires i < |s.runs|
    ensures !s.runs[i].phase.Done? ==> Step(cfg, s, Fail(i)).runs[i].phase.Failed?
    ensures s.runs[i].phase.Failed? ==> i < |Step(cfg, s, a).runs| && Step(cfg, s, a).runs[i].phase.Failed?
  {
  }

  /** What a run seals enters the table: its own number, the nonce, the box and the plaintext.
      The frame that the engine makes of it is then accepted, as that plaintext, by every
      completed run of the session. */
  lemma SealedIsAccepted(cfg: Config, s: State, i: nat, j: nat, plain: Bytes, sender: Bytes, to: Bytes, nonce: Bytes,
                         stamped: int, sent: int)
    requires GcmLaws(cfg.p) && Timestamp(stamped) && Timestamp(sent) && Wire.Utf8(sender) && Wire.Utf8(to)
    requires i < |s.runs| && j < |s.runs| && s.runs[i].phase.Done? && s.runs[j].phase.Done?
    requires SameSession(s.runs[i], s.runs[j])
    requires Engine.Sealed(cfg.p, s.runs[i].key, plain, sender, to, nonce, stamped, sent).Ok?
    requires var box := SessionSeal(cfg.p, s.runs[i].key, nonce, plain).value;
             forall m :: m in s.sealed ==> !IsBox(s, m, s.runs[i].pk, s.runs[i].ct, nonce, box)
    ensures var frame := Engine.Sealed(cfg.p, s.runs[i].key, plain, sender, to, nonce, stamped, sent).value;
            var box := SessionSeal(cfg.p, s.runs[i].key, nonce, plain).value;
            var s' := Step(cfg, s, Encrypt(i, nonce, box, plain));
            && s'.sealed == s.sealed + [Message(i, nonce, box, plain)] && s'.runs == s.runs
            && Step(cfg, s', Decrypt(j, frame, plain)).accepted == s'.accepted + [(j, plain)]
  {
    Engine.SealedCarries(cfg.p, s.runs[i].key, plain, sender, to, nonce, stamped, sent);
    MessageAccepted(cfg, s, i, j, nonce, SessionSeal(cfg.p, s.runs[i].key, nonce, plain).value, plain,
                    Engine.Sealed(cfg.p, s.runs[i].key, plain, sender, to, nonce, stamped, sent).value);
  }

  lemma MessageAccepted(cfg: Config, s: State, i: nat, j: nat, nonce: Bytes, box: Bytes, plain: Bytes, frame: Bytes)
    requires i < |s.runs| && j < |s.runs| && s.runs[i].phase.Done? && s.runs[j].phase.Done?
    requires SameSession(s.runs[i], s.runs[j])
    requires Engine.Unwrap(frame).Ok?
    requires Engine.Unwrap(frame).value.nonce == nonce && Engine.Unwrap(frame).value.content == box
    requires forall m :: m in s.sealed ==> !IsBox(s, m, s.runs[i].pk, s.runs[i].ct, nonce, box)
    ensures var s' := Step(cfg, s, Encrypt(i, nonce, box, plain));
            && s'.sealed == s.sealed + [Message(i, nonce, box, plain)] && s'.runs == s.runs
            && Step(cfg, s', Decrypt(j, frame, plain)).accepted == s'.accepted + [(j, plain)]
  {
    var s' := Step(cfg, s, Encrypt(i, nonce, box, plain));
    assert Message(i, nonce, box, plain) in s'.sealed;
    DecryptAccepts(cfg, s', j, frame, Message(i, nonce, box, plain));
  }

  /** A completed run accepts every frame with the nonce and the box of a sealed message of
      its session. */
  lemma DecryptAccepts(cfg: Config, s: State, i: nat, frame: Bytes, m: Message)
    requires i < |s.runs| && s.runs[i].phase.Done?
    requires m in s.sealed && InSession(s, m, s.runs[i].pk, s.runs[i].ct)
    requires Engine.Unwrap(frame).Ok?
    requires Engine.Unwrap(frame).value.nonce == m.nonce && Engine.Unwrap(frame).value.content == m.box
    ensures Step(cfg, s, Decrypt(i, frame, m.plain)).accepted == s.accepted + [(i, m.plain)]
  {
    assert IsBox(s, m, s.runs[i].pk, s.runs[i].ct, m.nonce, m.box);
  }

  /** Completed runs never change. */
  lemma DoneIsFinal(cfg: Config, s: State, a: Action, i: nat)
    requires i < |s.runs| && s.runs[i].phase.Done?
    ensures i < |Step(cfg, s, a).runs| && Step(cfg, s, a).runs[i] == s.runs[i]
  {
  }

  lemma PeerEngineProtects(cfg: Config, s: State, i: nat)
    requires Inv(cfg, s) && i < |s.runs| && s.runs[i].phase.Done? && s.runs[i].peer in cfg.owned
    ensures Protected(s, s.runs[i].pk, s.runs[i].ct)
  {
    assert s.runs[i] in s.runs && RunInOrder(cfg, s, s.runs[i]);
    if s.runs[i].role.Client? {
      var j := AgreementFromInv(cfg, s, i);
    } else {
      var j := OriginFromInv(cfg, s, i);
    }
  }

  lemma AuthenticKept(cfg: Config, s: State, a: Action, i: nat, plain: Bytes)
    requires MessagesInOrder(cfg, s) && Authentic(cfg, s, i, plain)
    ensures Authentic(cfg, Step(cfg, s, a), i, plain)
  {
    DoneIsFinal(cfg, s, a, i);
    if s.runs[i].peer in cfg.owned {
      var m :| m in s.sealed && m.plain == plain && m.run < |s.runs| && SameSession(s.runs[m.run], s.runs[i]);
      DoneIsFinal(cfg, s, a, m.run);
      assert m in Step(cfg, s, a).sealed;
    }
  }

  lemma MessagesKept(cfg: Config, s: State, a: Action)
    requires Inv(cfg, s) && MessagesInOrder(cfg, s)
    ensures MessagesInOrder(cfg, Step(cfg, s, a))
  {
    var s' := Step(cfg, s, a);
    forall m | m in s'.sealed ensures m.run < |s'.runs| && s'.runs[m.run].phase.Done? {
      assert m in s.sealed || (a.Encrypt? && m.run == a.run);
      DoneIsFinal(cfg, s, a, m.run);
    }
    forall e | e in s'.accepted ensures Authentic(cfg, s', e.0, e.1) {
      if e in s.accepted {
        AuthenticKept(cfg, s, a, e.0, e.1);
      } else {
        NewlyAccepted(cfg, s, a, e);
      }
    }
  }

  lemma NewlyAccepted(cfg: Config, s: State, a: Action, e: (nat, Bytes))
    requires Inv(cfg, s) && MessagesInOrder(cfg, s)
    requires e in Step(cfg, s, a).accepted && e !in s.accepted
    ensures Authentic(cfg, Step(cfg, s, a), e.0, e.1)
  {
    assert a.Decrypt? && e == (a.run, a.plain);
    if s.runs[e.0].peer in cfg.owned {
      PeerEngineProtects(cfg, s, e.0);
    }
  }

  /** Message authenticity: over the same network, every plaintext that a run with an
      engine as verified peer ever accepts was sealed in a completed run of the same
      session, hence under the same key. */
  lemma AcceptedWasSealed(cfg: Config, actions: seq<Action>, e: (nat, Bytes))
    requires var s := Reached(cfg, actions);
             e in s.accepted && e.0 < |s.runs| && s.runs[e.0].peer in cfg.owned
    ensures var s := Reached(cfg, actions);
            exists m :: m in s.sealed && m.plain == e.1 && m.run < |s.runs|
                        && s.runs[m.run].phase.Done? && SameSession(s.runs[m.run], s.runs[e.0])
  {
    MessagesReached(cfg, actions);
    var s := Reached(cfg, actions);
    assert Authentic(cfg, s, e.0, e.1);
  }
}
