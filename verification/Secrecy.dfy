/** What an observer of all frames can derive. Octets of every kind are free; private
    keys, shared secrets, session keys and the lines users type are atoms or built
    from atoms, and the closure rules are those of the primitives. */
module Secrecy {
  import opened ByteStrings
  import opened Handshakes
  import opened Agreement

  datatype Term =
    | Octets(b: Bytes)                  // anything written out: keys, ciphertexts, labels, nonces
    | SigningKey(pub: Bytes)            // the private half of an identity key
    | DecapsKey(pk: Bytes)              // the private half of a KEM key
    | Secret(pk: Bytes, ct: Bytes)      // what ct encapsulates under pk
    | Key(secret: Term)                 // HKDF of a secret
    | Line(index: nat)                  // the plaintext of the index-th sealed message
    | Signature(pub: Bytes, message: Bytes)
    | Box(key: Term, nonce: Bytes, plain: Term)
    | Pair(first: Term, second: Term)

  function SessionKey(r: Run): Term { Key(Secret(r.pk, r.ct)) }

  function HelloTerm(r: Run): Term
  {
    Pair(Octets(r.pk), Pair(Octets(r.owner), Signature(r.owner, ClientSigned(r.pk))))
  }

  function ResponseTerm(r: Run): Term
  {
    Pair(Octets(r.ct), Pair(Octets(r.owner), Signature(r.owner, ServerSigned(r.ct, r.pk))))
  }

  /** The contents of all frames engines have sent, whether or not they arrived. */
  ghost predicate OnWire(s: State, t: Term)
  {
    || (exists i :: 0 <= i < |s.runs| && s.runs[i].role.Client? && t == HelloTerm(s.runs[i]))
    || (exists i :: 0 <= i < |s.runs| && HasEncapsulated(s.runs[i]) && t == ResponseTerm(s.runs[i]))
    || (exists k :: 0 <= k < |s.sealed| && s.sealed[k].run < |s.runs|
                    && t == Box(SessionKey(s.runs[s.sealed[k].run]), s.sealed[k].nonce, Line(k)))
  }

  /** What the observer starts with: all octets, the frames, the private half of every
      identity key that is not among the `kept` ones, every KEM key that is not an engine's,
      and every secret that no engine encapsulated. */
  ghost predicate Given(kept: set<Bytes>, s: State, t: Term)
  {
    || t.Octets?
    || OnWire(s, t)
    || (t.SigningKey? && t.pub !in kept)
    || (t.DecapsKey? && !GeneratedPk(s, t.pk))
    || (t.Secret? && !EncapsulatedCt(s, t.pk, t.ct))
  }

  /** Derivable with at most n nested uses of the rules. */
  ghost predicate Derives(kept: set<Bytes>, s: State, n: nat, t: Term)
  {
    if n == 0 then Given(kept, s, t)
    else
      || Derives(kept, s, n - 1, t)
      || (t.Pair? && Derives(kept, s, n - 1, t.first) && Derives(kept, s, n - 1, t.second))
      || (t.Signature? && Derives(kept, s, n - 1, SigningKey(t.pub)))
      || (t.Secret? && Derives(kept, s, n - 1, DecapsKey(t.pk)))
      || (t.Key? && Derives(kept, s, n - 1, t.secret))
      || (t.Box? && Derives(kept, s, n - 1, t.key) && Derives(kept, s, n - 1, t.plain))
      || (exists u :: Derives(kept, s, n - 1, u) && u.Pair? && (u.first == t || u.second == t))
      || (exists u :: Derives(kept, s, n - 1, u) && u.Box? && u.plain == t && Derives(kept, s, n - 1, u.key))
  }

  ghost predicate LineExposed(s: State, k: nat)
  {
    k < |s.sealed| ==>
      s.sealed[k].run < |s.runs| && !Protected(s, s.runs[s.sealed[k].run].pk, s.runs[s.sealed[k].run].ct)
  }

  /** The terms that may be known without giving away a protected secret. */
  ghost predicate Harmless(kept: set<Bytes>, s: State, t: Term)
  {
    match t
    case Octets(_) => true
    case SigningKey(pub) => pub !in kept
    case DecapsKey(pk) => !GeneratedPk(s, pk)
    case Secret(pk, ct) => !Protected(s, pk, ct)
    case Key(secret) => Harmless(kept, s, secret)
    case Line(k) => LineExposed(s, k)
    case Signature(_, _) => true
    case Box(k, _, plain) => Harmless(kept, s, k) ==> Harmless(kept, s, plain)
    case Pair(a, b) => Harmless(kept, s, a) && Harmless(kept, s, b)
  }

  lemma GivenHarmless(cfg: Config, kept: set<Bytes>, s: State, t: Term)
    requires MessagesInOrder(cfg, s) && Given(kept, s, t)
    ensures Harmless(kept, s, t)
  {
    if t.Pair? {
      FramesHarmless(kept, s, t);
    } else if t.Box? {
      BoxesHarmless(cfg, kept, s, t);
    }
  }

  lemma FramesHarmless(kept: set<Bytes>, s: State, t: Term)
    requires OnWire(s, t) && t.Pair?
    ensures Harmless(kept, s, t)
  {
    assert t.first.Octets? && t.second.Pair? && t.second.first.Octets? && t.second.second.Signature?;
  }

  lemma BoxesHarmless(cfg: Config, kept: set<Bytes>, s: State, t: Term)
    requires MessagesInOrder(cfg, s) && OnWire(s, t) && t.Box?
    ensures Harmless(kept, s, t)
  {
    var k :| 0 <= k < |s.sealed| && s.sealed[k].run < |s.runs|
             && t == Box(SessionKey(s.runs[s.sealed[k].run]), s.sealed[k].nonce, Line(k));
    var r := s.runs[s.sealed[k].run];
    assert Harmless(kept, s, t.key) == Harmless(kept, s, Secret(r.pk, r.ct));
  }

  lemma {:induction false} DerivedHarmless(cfg: Config, kept: set<Bytes>, s: State, n: nat, t: Term)
    requires MessagesInOrder(cfg, s) && Derives(kept, s, n, t)
    ensures Harmless(kept, s, t)
  {
    if n == 0 {
      GivenHarmless(cfg, kept, s, t);
    } else {
      forall u | Derives(kept, s, n - 1, u) ensures Harmless(kept, s, u) {
        DerivedHarmless(cfg, kept, s, n - 1, u);
      }
      if u: Term :| Derives(kept, s, n - 1, u) && u.Pair? && (u.first == t || u.second == t) {
        assert Harmless(kept, s, u);
      } else if u: Term :| Derives(kept, s, n - 1, u) && u.Box? && u.plain == t && Derives(kept, s, n - 1, u.key) {
        assert Harmless(kept, s, u) && Harmless(kept, s, u.key);
      } else if t.Secret? && Derives(kept, s, n - 1, DecapsKey(t.pk)) {
        assert Harmless(kept, s, DecapsKey(t.pk));
      }
    }
  }

  /** Key secrecy, forward secrecy included: in every reachable state, the session key of a
      completed run whose verified peer key is an engine's is not derivable from all that was
      sent, however long the derivation and whichever identity keys are lost afterwards, be
      it all of them; neither is the shared secret, nor any signing key that is kept. */
  lemma SessionKeySecret(cfg: Config, actions: seq<Action>, kept: set<Bytes>, i: nat, n: nat)
    requires var s := Reached(cfg, actions);
             i < |s.runs| && s.runs[i].phase.Done? && s.runs[i].peer in cfg.owned
    ensures var s := Reached(cfg, actions);
            && !Derives(kept, s, n, SessionKey(s.runs[i]))
            && !Derives(kept, s, n, Secret(s.runs[i].pk, s.runs[i].ct))
            && (forall pub :: pub in kept ==> !Derives(kept, s, n, SigningKey(pub)))
  {
    var s := Reached(cfg, actions);
    InvReached(cfg, actions);
    MessagesReached(cfg, actions);
    PeerEngineProtects(cfg, s, i);
    var r := s.runs[i];
    assert Harmless(kept, s, SessionKey(r)) == Harmless(kept, s, Secret(r.pk, r.ct));
    if Derives(kept, s, n, SessionKey(r)) {
      DerivedHarmless(cfg, kept, s, n, SessionKey(r));
    }
    if Derives(kept, s, n, Secret(r.pk, r.ct)) {
      DerivedHarmless(cfg, kept, s, n, Secret(r.pk, r.ct));
    }
    forall pub | pub in kept ensures !Derives(kept, s, n, SigningKey(pub)) {
      if Derives(kept, s, n, SigningKey(pub)) {
        DerivedHarmless(cfg, kept, s, n, SigningKey(pub));
      }
    }
  }

  /** End-to-end confidentiality: no line sealed by a run with an engine as peer is ever
      derivable, by the relay or anyone else on the network, also with every identity key. */
  lemma LinesSecret(cfg: Config, actions: seq<Action>, kept: set<Bytes>, k: nat, n: nat)
    requires var s := Reached(cfg, actions);
             k < |s.sealed| && s.sealed[k].run < |s.runs| && s.runs[s.sealed[k].run].peer in cfg.owned
    ensures !Derives(kept, Reached(cfg, actions), n, Line(k))
  {
    var s := Reached(cfg, actions);
    InvReached(cfg, actions);
    MessagesReached(cfg, actions);
    assert s.sealed[k] in s.sealed;
    PeerEngineProtects(cfg, s, s.sealed[k].run);
    if Derives(kept, s, n, Line(k)) {
      DerivedHarmless(cfg, kept, s, n, Line(k));
    }
  }

  // ----- Exactly what can be derived -----

  lemma Longer(kept: set<Bytes>, s: State, n: nat, t: Term)
    requires Derives(kept, s, n, t)
    ensures Derives(kept, s, n + 1, t)
  {
  }

  lemma UnprotectedKey(kept: set<Bytes>, s: State, pk: Bytes, ct: Bytes)
    requires !Protected(s, pk, ct)
    ensures Derives(kept, s, 2, Key(Secret(pk, ct)))
  {
    if EncapsulatedCt(s, pk, ct) {
      assert Derives(kept, s, 0, DecapsKey(pk));
    } else {
      Longer(kept, s, 0, Secret(pk, ct));
    }
    assert Derives(kept, s, 1, Secret(pk, ct));
  }

  ghost predicate Derivable(kept: set<Bytes>, s: State, t: Term) { exists n :: Derives(kept, s, n, t) }

  /** A session key can be derived exactly when not both of its ends are engines'. */
  lemma KeysExposedExactly(cfg: Config, actions: seq<Action>, kept: set<Bytes>, pk: Bytes, ct: Bytes)
    ensures var s := Reached(cfg, actions);
            Derivable(kept, s, Key(Secret(pk, ct))) <==> !Protected(s, pk, ct)
  {
    var s := Reached(cfg, actions);
    MessagesReached(cfg, actions);
    if Derivable(kept, s, Key(Secret(pk, ct))) {
      var n :| Derives(kept, s, n, Key(Secret(pk, ct)));
      DerivedHarmless(cfg, kept, s, n, Key(Secret(pk, ct)));
      assert Harmless(kept, s, Key(Secret(pk, ct))) == Harmless(kept, s, Secret(pk, ct));
    }
    if !Protected(s, pk, ct) {
      UnprotectedKey(kept, s, pk, ct);
      Witness(kept, s, 2, Key(Secret(pk, ct)));
    }
  }

  lemma Witness(kept: set<Bytes>, s: State, n: nat, t: Term)
    requires Derives(kept, s, n, t)
    ensures Derivable(kept, s, t)
  {
  }

  /** And a line exactly when its session key can. */
  lemma LinesExposedExactly(cfg: Config, actions: seq<Action>, kept: set<Bytes>, k: nat)
    requires var s := Reached(cfg, actions); k < |s.sealed| && s.sealed[k].run < |s.runs|
    ensures var s := Reached(cfg, actions);
            var r := s.runs[s.sealed[k].run];
            Derivable(kept, s, Line(k)) <==> !Protected(s, r.pk, r.ct)
  {
    var s := Reached(cfg, actions);
    var r := s.runs[s.sealed[k].run];
    MessagesReached(cfg, actions);
    if Derivable(kept, s, Line(k)) {
      var n :| Derives(kept, s, n, Line(k));
      DerivedHarmless(cfg, kept, s, n, Line(k));
    }
    if !Protected(s, r.pk, r.ct) {
      UnprotectedKey(kept, s, r.pk, r.ct);
      LineOpens(kept, s, k);
      Witness(kept, s, 3, Line(k));
    }
  }

  lemma LineOpens(kept: set<Bytes>, s: State, k: nat)
    requires k < |s.sealed| && s.sealed[k].run < |s.runs|
    requires Derives(kept, s, 2, SessionKey(s.runs[s.sealed[k].run]))
    ensures Derives(kept, s, 3, Line(k))
  {
    var box := Box(SessionKey(s.runs[s.sealed[k].run]), s.sealed[k].nonce, Line(k));
    assert OnWire(s, box) && Derives(kept, s, 0, box);
    Longer(kept, s, 0, box);
    Longer(kept, s, 1, box);
    assert box.Box? && box.plain == Line(k) && Derives(kept, s, 2, box.key);
  }

  /** The terms that hold no signature under a kept key but those engines have made. */
  ghost predicate Unforged(kept: set<Bytes>, s: State, t: Term)
  {
    match t
    case SigningKey(pub) => pub !in kept
    case Signature(pub, message) => pub !in kept || exists r :: r in s.runs && Signed(r, (pub, message))
    case Pair(a, b) => Unforged(kept, s, a) && Unforged(kept, s, b)
    case Box(_, _, plain) => Unforged(kept, s, plain)
    case _ => true
  }

  lemma FramesUnforged(kept: set<Bytes>, s: State, t: Term)
    requires OnWire(s, t)
    ensures Unforged(kept, s, t)
  {
    if i :| 0 <= i < |s.runs| && s.runs[i].role.Client? && t == HelloTerm(s.runs[i]) {
      assert Signed(s.runs[i], (s.runs[i].owner, ClientSigned(s.runs[i].pk)));
    } else if i :| 0 <= i < |s.runs| && HasEncapsulated(s.runs[i]) && t == ResponseTerm(s.runs[i]) {
      assert Signed(s.runs[i], (s.runs[i].owner, ServerSigned(s.runs[i].ct, s.runs[i].pk)));
    }
  }

  lemma {:induction false} DerivedUnforged(kept: set<Bytes>, s: State, n: nat, t: Term)
    requires Derives(kept, s, n, t)
    ensures Unforged(kept, s, t)
  {
    if n == 0 {
      if OnWire(s, t) {
        FramesUnforged(kept, s, t);
      }
    } else {
      forall u | Derives(kept, s, n - 1, u) ensures Unforged(kept, s, u) {
        DerivedUnforged(kept, s, n - 1, u);
      }
      if u: Term :| Derives(kept, s, n - 1, u) && u.Pair? && (u.first == t || u.second == t) {
        assert Unforged(kept, s, u);
      } else if u: Term :| Derives(kept, s, n - 1, u) && u.Box? && u.plain == t {
        assert Unforged(kept, s, u);
      } else if t.Signature? && Derives(kept, s, n - 1, SigningKey(t.pub)) {
        assert Unforged(kept, s, SigningKey(t.pub));
      }
    }
  }

  /** What the ideal signature table takes for granted holds of the closure: a signature under
      a kept key can be derived only if a run has made it. */
  lemma SignaturesNotForged(kept: set<Bytes>, s: State, n: nat, pub: Bytes, message: Bytes)
    requires pub in kept && Derives(kept, s, n, Signature(pub, message))
    ensures exists r :: r in s.runs && Signed(r, (pub, message))
  {
    DerivedUnforged(kept, s, n, Signature(pub, message));
  }

  lemma SentSignatureKnown(kept: set<Bytes>, s: State, r: Run, entry: (Bytes, Bytes))
    requires r in s.runs && Signed(r, entry)
    ensures Derives(kept, s, 2, Signature(entry.0, entry.1))
  {
    var i :| 0 <= i < |s.runs| && s.runs[i] == r;
    var frame := if r.role.Client? && entry.1 == ClientSigned(r.pk) then HelloTerm(r) else ResponseTerm(r);
    assert OnWire(s, frame) && Derives(kept, s, 0, frame);
    assert Derives(kept, s, 1, frame.second);
    assert frame.second.Pair? && frame.second.second == Signature(entry.0, entry.1);
  }

  /** A signature can be derived exactly when its key is lost or a run has made it. */
  lemma SignaturesExactly(kept: set<Bytes>, s: State, pub: Bytes, message: Bytes)
    ensures Derivable(kept, s, Signature(pub, message)) <==>
            pub !in kept || exists r :: r in s.runs && Signed(r, (pub, message))
  {
    if pub !in kept {
      assert Derives(kept, s, 0, SigningKey(pub));
      Witness(kept, s, 1, Signature(pub, message));
    }
    if pub in kept && Derivable(kept, s, Signature(pub, message)) {
      var n :| Derives(kept, s, n, Signature(pub, message));
      SignaturesNotForged(kept, s, n, pub, message);
    }
    if r: Run :| r in s.runs && Signed(r, (pub, message)) {
      SentSignatureKnown(kept, s, r, (pub, message));
      Witness(kept, s, 2, Signature(pub, message));
    }
  }
}
