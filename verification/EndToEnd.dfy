/** Two command-line clients in one relay room (relay_cli.cpp over relay_server.cpp):
    one hosts, one connects, both talk at the same time, and other rooms do as they
    please. Every interleaving of the relay's threads, of the two handshakes, and of the
    send and receive loops of both clients is a list of actions. */
module EndToEnd {
  import opened ByteStrings
  import opened Crypto
  import opened Engine
  import opened IdentityStore
  import opened Messages
  import opened EnginePrograms
  import Wire
  import R = Relay
  import RI = RelayInvariants

  datatype Side = Host | Guest

  function Other(x: Side): Side { if x.Host? then Guest else Host }

  /** The room, the two session numbers, the two identity keys, the lines each user
      types, and the response and the key the two handshakes are due to end in. */
  datatype Setup = Setup(
    program: Program, room: string, host: R.Sid, guest: R.Sid, hostPub: Bytes, guestPub: Bytes,
    hostLines: seq<Bytes>, guestLines: seq<Bytes>, response: Bytes, key: Bytes)

  ghost predicate Valid(u: Setup)
  {
    && HandshakeLaws(u.program, u.hostPub, u.guestPub, u.response, u.key) && MessageLaws(u.program, u.key)
    && u.host != u.guest
    && (forall l :: l in u.hostLines + u.guestLines ==> |l| <= LONGEST_LINE)
  }

  function Sid(u: Setup, x: Side): R.Sid { if x.Host? then u.host else u.guest }
  function Lines(u: Setup, x: Side): seq<Bytes> { if x.Host? then u.hostLines else u.guestLines }
  function Pub(u: Setup, x: Side): Bytes { if x.Host? then u.hostPub else u.guestPub }

  /** Idle: connected, handshake not begun. Waiting: in the handshake's receive. */
  datatype Phase = Idle | Waiting | Chatting | Broken

  /** One client. `sent` are all frames it has sent, `got` how many it has received,
      `todo` the lines still to come, `said` the non-empty lines sent, `shown` what it
      has printed for its peer and `dropped` how many frames it could not decrypt. */
  datatype Cli = Cli(phase: Phase, key: Bytes, peer: Bytes, sent: seq<Bytes>, got: nat,
                     todo: seq<Bytes>, said: seq<Bytes>, shown: seq<Bytes>, dropped: nat)

  datatype State = State(relay: R.State, host: Cli, guest: Cli)

  function Of(st: State, x: Side): Cli { if x.Host? then st.host else st.guest }

  function Set(st: State, x: Side, c: Cli): State
  {
    if x.Host? then st.(host := c) else st.(guest := c)
  }

  function Start(u: Setup): State
  {
    State(R.INITIAL,
          Cli(Waiting, [], [], [], 0, u.hostLines, [], [], 0),
          Cli(Idle, [], [], [], 0, u.guestLines, [], [], 0))
  }

  datatype Action =
    | Relay(a: R.Action)
    | SendHello
    | Receive(x: Side)
    | Say(x: Side, nonce: Bytes, stamped: int, sent: int)

  function Attempts(st: State, s: R.Sid): seq<R.Attempt>
  {
    if s < |st.relay.sessions| then st.relay.sessions[s].attempts else []
  }

  /** The k-th frame written to session s is there to be received. */
  predicate Arrived(st: State, s: R.Sid, k: nat)
  {
    && k < |Attempts(st, s)|
    && var a := Attempts(st, s)[k];
    a.from < |st.relay.sessions| && 0 <= a.index < |st.relay.sessions[a.from].frames|
  }

  function Frame(st: State, s: R.Sid, k: nat): Bytes
    requires Arrived(st, s, k)
  {
    var a := Attempts(st, s)[k];
    st.relay.sessions[a.from].frames[a.index]
  }

  /** The relay reads from a client what that client sent, in order. */
  predicate ReadAllowed(u: Setup, st: State, x: Side, frame: Bytes)
    requires Sid(u, x) < |st.relay.sessions|
  {
    var read := |st.relay.sessions[Sid(u, x)].frames|;
    read < |Of(st, x).sent| && frame == Of(st, x).sent[read]
  }

  predicate HostJoined(u: Setup, st: State)
  {
    u.host < |st.relay.sessions| && !st.relay.sessions[u.host].pc.Starting?
  }

  /** Exactly the two clients are in the room, they stay, and their threads' writes succeed;
      the host is in the room table before the guest's thread takes its first snapshot of it. */
  predicate RelayAllowed(u: Setup, st: State, a: R.Action)
  {
    R.Enabled(st.relay, a) &&
    match a
    case Accept(room) => (room == u.room <==> |st.relay.sessions| == u.host || |st.relay.sessions| == u.guest)
    case Read(s, frame) =>
      && (s == u.host ==> ReadAllowed(u, st, Host, frame))
      && (s == u.guest ==> ReadAllowed(u, st, Guest, frame))
    case Snapshot(s) => s == u.guest ==> HostJoined(u, st)
    case ReadFails(s) => s != u.host && s != u.guest
    case Write(s, ok) => s == u.host || s == u.guest ==> ok
    case _ => true
  }

  predicate Enabled(u: Setup, st: State, a: Action)
  {
    match a
    case Relay(r) => RelayAllowed(u, st, r)
    case SendHello => u.guest < |st.relay.sessions| && st.guest.phase.Idle?
    case Receive(x) => (Of(st, x).phase.Waiting? || Of(st, x).phase.Chatting?) && Arrived(st, Sid(u, x), Of(st, x).got)
    case Say(x, nonce, stamped, sent) =>
      Of(st, x).phase.Chatting? && Of(st, x).todo != []
      && |nonce| == NONCE_SIZE && Timestamp(stamped) && Timestamp(sent)
  }

  function Finished(c: Cli, e: Established): Cli
  {
    c.(phase := Chatting, key := e.key, peer := e.peer)
  }

  /** The host's answer to a hello, and the guest's reaction to the answer. */
  function HostHears(u: Setup, c: Cli, frame: Bytes): Cli
  {
    match u.program.answer(frame)
    case Err(_) => c.(phase := Broken)
    case Ok((response, e)) => Finished(c, e).(sent := c.sent + [response])
  }

  function GuestHears(u: Setup, c: Cli, frame: Bytes): Cli
  {
    match u.program.finish(frame)
    case Err(_) => c.(phase := Broken)
    case Ok(e) => Finished(c, e)
  }

  function ChatHears(u: Setup, c: Cli, frame: Bytes): Cli
  {
    match u.program.open(c.key, frame)
    case Err(_) => c.(dropped := c.dropped + 1)
    case Ok(plain) => c.(shown := c.shown + [plain])
  }

  function Hears(u: Setup, x: Side, c: Cli, frame: Bytes): Cli
  {
    var c' := c.(got := c.got + 1);
    if c.phase.Chatting? then ChatHears(u, c', frame)
    else if x.Host? then HostHears(u, c', frame)
    else GuestHears(u, c', frame)
  }

  function Says(u: Setup, c: Cli, nonce: Bytes, stamped: int, sent: int): Cli
    requires c.todo != []
  {
    var line := c.todo[0];
    var c' := c.(todo := c.todo[1..]);
    if line == [] then c'
    else match u.program.seal(c.key, line, nonce, stamped, sent)
         case Err(_) => c'.(phase := Broken)
         case Ok(frame) => c'.(sent := c.sent + [frame], said := c.said + [line])
  }

  function Hello(u: Setup, c: Cli): Cli
  {
    match u.program.hello
    case None => c.(phase := Broken)
    case Some(frame) => c.(phase := Waiting, sent := c.sent + [frame])
  }

  function Apply(u: Setup, st: State, a: Action): (st': State)
    requires Enabled(u, st, a)
  {
    match a
    case Relay(r) => st.(relay := R.Apply(st.relay, r))
    case SendHello => st.(guest := Hello(u, st.guest))
    case Receive(x) => Set(st, x, Hears(u, x, Of(st, x), Frame(st, Sid(u, x), Of(st, x).got)))
    case Say(x, nonce, stamped, sent) => Set(st, x, Says(u, Of(st, x), nonce, stamped, sent))
  }

  function Reached(u: Setup, actions: seq<Action>): (st: State)
  {
    if actions == [] then Start(u)
    else
      var st := Reached(u, actions[..|actions| - 1]);
      var a := actions[|actions| - 1];
      if Enabled(u, st, a) then Apply(u, st, a) else st
  }

  // ----- What the two sides agree on -----

  /** The first frame of each side: the hello and the response to it. */
  function Opening(u: Setup, x: Side): Bytes
    requires u.program.hello.Some?
  {
    if x.Guest? then u.program.hello.value else u.response
  }

  function NonEmpty(lines: seq<Bytes>): seq<Bytes>
  {
    if lines == [] then []
    else if lines[0] == [] then NonEmpty(lines[1..])
    else [lines[0]] + NonEmpty(lines[1..])
  }

  lemma NonEmptyStep(line: Bytes, behind: seq<Bytes>)
    ensures NonEmpty([line] + behind) == if line == [] then NonEmpty(behind) else [line] + NonEmpty(behind)
  {
    assert ([line] + behind)[1..] == behind;
  }

  lemma Regroup(line: seq<Bytes>, a: seq<Bytes>, b: seq<Bytes>)
    ensures line + (a + b) == line + a + b
  {
  }

  lemma {:induction false} NonEmptyAppend(a: seq<Bytes>, b: seq<Bytes>)
    ensures NonEmpty(a + b) == NonEmpty(a) + NonEmpty(b)
  {
    if a == [] {
      assert a + b == b;
    } else {
      NonEmptyAppend(a[1..], b);
      AppendBehindLine(a[0], a[1..], b);
      assert a == [a[0]] + a[1..];
    }
  }

  lemma AppendBehindLine(line: Bytes, rest: seq<Bytes>, b: seq<Bytes>)
    requires NonEmpty(rest + b) == NonEmpty(rest) + NonEmpty(b)
    ensures NonEmpty([line] + rest + b) == NonEmpty([line] + rest) + NonEmpty(b)
  {
    NonEmptyStep(line, rest + b);
    NonEmptyStep(line, rest);
    Regroup([line], NonEmpty(rest), NonEmpty(b));
    Regroup([line], rest, b);
  }

  /** What is left of a list of lines: all that are not empty, in place. */
  lemma NonEmptyInPlace(before: seq<Bytes>, line: Bytes, behind: seq<Bytes>)
    ensures NonEmpty(before + [line] + behind) ==
            NonEmpty(before) + (if line == [] then [] else [line]) + NonEmpty(behind)
  {
    NonEmptyAppend(before + [line], behind);
    NonEmptyAppend(before, [line]);
    NonEmptyStep(line, []);
    assert [line] + [] == [line];
  }

  /** A side's frames: its opening, then its lines under the shared key. */
  ghost predicate SentInOrder(u: Setup, x: Side, c: Cli)
    requires Valid(u)
  {
    && |c.sent| == |c.said| + (if c.phase.Idle? || (c.phase.Waiting? && x.Host?) then 0 else 1)
    && (c.sent != [] ==> c.sent[0] == Opening(u, x))
    && (forall k :: 0 <= k < |c.said| && k + 1 < |c.sent| ==> u.program.open(u.key, c.sent[k + 1]) == Ok(c.said[k]))
    && NonEmpty(Lines(u, x)) == c.said + NonEmpty(c.todo)
    && (forall l :: l in c.todo ==> |l| <= LONGEST_LINE)
  }

  /** What a side has of the other: before the handshake nothing, then the shared key,
      the peer's identity, and a prefix of what the peer said. */
  ghost predicate HeardInOrder(u: Setup, x: Side, c: Cli, other: Cli)
  {
    && !c.phase.Broken? && c.dropped == 0 && (x.Host? ==> !c.phase.Idle?)
    && (if c.phase.Chatting?
        then c.key == u.key && c.peer == Pub(u, Other(x))
             && 1 <= c.got <= |other.said| + 1 && c.shown == other.said[..c.got - 1]
        else c.got == 0 && c.shown == [] && c.said == [])
  }

  ghost predicate Talk(u: Setup, st: State)
    requires Valid(u)
  {
    forall x: Side :: SentInOrder(u, x, Of(st, x)) && HeardInOrder(u, x, Of(st, x), Of(st, Other(x)))
  }

  // ----- The relay's part -----

  ghost predicate RoomExact(u: Setup, ss: seq<R.Session>)
  {
    forall i :: 0 <= i < |ss| ==> (ss[i].room == u.room <==> i == u.host || i == u.guest)
  }

  predicate Staying(pc: R.Pc) { pc.Starting? || pc.Reading? || pc.Holding? || pc.Writing? }

  /** x's thread has read a prefix of what x sent, and x joined before the other's first snapshot. */
  predicate ThreadInOrder(u: Setup, st: State, x: Side)
  {
    Sid(u, x) < |st.relay.sessions| ==>
      var s := st.relay.sessions[Sid(u, x)];
      && Staying(s.pc) && s.frames <= Of(st, x).sent
      && RI.MarkAt(s.atJoin, Sid(u, Other(x))) == 0
  }

  predicate HostFirst(u: Setup, st: State)
  {
    u.guest < |st.relay.sessions| && 0 < st.relay.sessions[u.guest].snaps ==> HostJoined(u, st)
  }

  predicate GuestFirst(u: Setup, st: State)
  {
    && (st.guest.sent != [] ==> u.guest < |st.relay.sessions|)
    && (st.host.sent != [] ==> u.guest < |st.relay.sessions| && !st.relay.sessions[u.guest].pc.Starting?)
  }

  /** A side has received no more than was written to it. */
  predicate Caught(u: Setup, st: State, x: Side) { Of(st, x).got <= |Attempts(st, Sid(u, x))| }

  ghost predicate Transport(u: Setup, st: State)
  {
    && RI.Inv(st.relay) && RoomExact(u, st.relay.sessions)
    && (forall x: Side :: ThreadInOrder(u, st, x) && Caught(u, st, x))
    && HostFirst(u, st) && GuestFirst(u, st)
  }

  // ----- Deliveries between the two sides -----

  lemma {:induction false} AllFrom(attempts: seq<R.Attempt>, s: R.Sid)
    requires forall a :: a in attempts ==> a.from == s
    ensures |RI.From(attempts, s)| == |attempts|
    ensures forall k :: 0 <= k < |attempts| ==> RI.From(attempts, s)[k] == attempts[k].index
  {
    if attempts != [] {
      AllFrom(attempts[..|attempts| - 1], s);
    }
  }

  /** The k-th frame written to x is the k-th frame the other side sent. */
  lemma Delivered(u: Setup, st: State, x: Side)
    requires u.host != u.guest && Transport(u, st)
    ensures var n := |Attempts(st, Sid(u, x))|;
            && n <= |Of(st, Other(x)).sent|
            && forall k :: 0 <= k < n ==>
                             && Attempts(st, Sid(u, x))[k].from == Sid(u, Other(x))
                             && Attempts(st, Sid(u, x))[k].index == k
                             && Arrived(st, Sid(u, x), k) && Frame(st, Sid(u, x), k) == Of(st, Other(x)).sent[k]
  {
    var i, j := Sid(u, x), Sid(u, Other(x));
    var ss := st.relay.sessions;
    if Attempts(st, i) != [] {
      var attempts := ss[i].attempts;
      forall a | a in attempts ensures a.from == j {
        RI.WritesStayInRoom(st.relay, i, a);
      }
      assert attempts[0] in attempts && RI.WritersKnown(ss, i);
      AllFrom(attempts, j);
      assert RI.Delivery(ss, j, i) && RI.FanOutInOrder(ss, j);
      assert ThreadInOrder(u, st, x) && ThreadInOrder(u, st, Other(x));
      var indices := RI.From(attempts, j);
      assert indices + RI.Pending(ss, j, i) == RI.Range(0, ss[j].snaps);
      forall k | 0 <= k < |attempts|
        ensures attempts[k].from == j && attempts[k].index == k < |ss[j].frames|
        ensures ss[j].frames[k] == Of(st, Other(x)).sent[k]
      {
        assert attempts[k] in attempts;
        assert indices[k] == (indices + RI.Pending(ss, j, i))[k] == k;
      }
    }
  }

  // ----- Every step keeps the transport -----

  lemma QuietBeforeJoin(u: Setup, st: State, x: Side)
    requires Transport(u, st) && Sid(u, x) < |st.relay.sessions| && st.relay.sessions[Sid(u, x)].pc.Starting?
    ensures var j := Sid(u, Other(x)); j < |st.relay.sessions| ==> st.relay.sessions[j].snaps == 0
  {
    var j := Sid(u, Other(x));
    if j < |st.relay.sessions| {
      assert ThreadInOrder(u, st, Other(x)) && RI.FanOutInOrder(st.relay.sessions, j);
    }
  }

  lemma ThreadAfterOwnStep(u: Setup, st: State, r: R.Action, x: Side)
    requires u.host != u.guest && Transport(u, st) && RelayAllowed(u, st, r)
    requires !r.Accept? && r.s == Sid(u, x)
    ensures ThreadInOrder(u, Apply(u, st, Relay(r)), x)
  {
    if r.Snapshot? {
      ThreadAfterSnapshot(u, st, x);
    } else if r.Write? {
      ThreadAfterWrite(u, st, r.ok, x);
    } else {
      ThreadAfterOther(u, st, r, x);
    }
  }

  lemma ThreadAfterSnapshot(u: Setup, st: State, x: Side)
    requires Transport(u, st) && RelayAllowed(u, st, R.Snapshot(Sid(u, x)))
    ensures ThreadInOrder(u, Apply(u, st, Relay(R.Snapshot(Sid(u, x)))), x)
  {
    assert ThreadInOrder(u, st, x);
    RI.SnapshotIs(st.relay, Sid(u, x));
  }

  lemma ThreadAfterWrite(u: Setup, st: State, ok: bool, x: Side)
    requires Transport(u, st) && RelayAllowed(u, st, R.Write(Sid(u, x), ok))
    ensures ThreadInOrder(u, Apply(u, st, Relay(R.Write(Sid(u, x), ok))), x)
  {
    assert ThreadInOrder(u, st, x) && RI.FanOutInOrder(st.relay.sessions, Sid(u, x));
    RI.WriteIs(st.relay, Sid(u, x), ok);
  }

  lemma ThreadAfterOther(u: Setup, st: State, r: R.Action, x: Side)
    requires u.host != u.guest && Transport(u, st) && RelayAllowed(u, st, r)
    requires !r.Accept? && !r.Snapshot? && !r.Write? && r.s == Sid(u, x)
    ensures ThreadInOrder(u, Apply(u, st, Relay(r)), x)
  {
    assert ThreadInOrder(u, st, x);
    if r.Join? {
      QuietBeforeJoin(u, st, x);
    } else {
      RI.FirstMarksKept(st.relay, r);
    }
  }

  lemma ThreadAfterRelay(u: Setup, st: State, r: R.Action, x: Side)
    requires u.host != u.guest && Transport(u, st) && RelayAllowed(u, st, r)
    ensures ThreadInOrder(u, Apply(u, st, Relay(r)), x)
  {
    var i := Sid(u, x);
    if i < |st.relay.sessions| {
      if !r.Accept? && r.s == i {
        ThreadAfterOwnStep(u, st, r, x);
      } else {
        assert ThreadInOrder(u, st, x);
        RI.OthersKeep(st.relay, r, i);
      }
    }
  }

  lemma TransportAfterRelay(u: Setup, st: State, r: R.Action)
    requires u.host != u.guest && Transport(u, st) && RelayAllowed(u, st, r)
    ensures Transport(u, Apply(u, st, Relay(r)))
  {
    var st' := Apply(u, st, Relay(r));
    RI.InvKept(st.relay, r);
    RI.StepGrows(st.relay, r);
    forall x: Side ensures ThreadInOrder(u, st', x) && Caught(u, st', x) {
      ThreadAfterRelay(u, st, r, x);
      assert Caught(u, st, x);
      if Sid(u, x) < |st.relay.sessions| {
        RI.AttemptsOf(st.relay, r, Sid(u, x));
      }
    }
    forall i | 0 <= i < |st'.relay.sessions|
      ensures st'.relay.sessions[i].room == u.room <==> i == u.host || i == u.guest
    {
    }
    FirstsAfterRelay(u, st, r);
  }

  lemma FirstsAfterRelay(u: Setup, st: State, r: R.Action)
    requires u.host != u.guest && Transport(u, st) && RelayAllowed(u, st, r)
    ensures HostFirst(u, Apply(u, st, Relay(r))) && GuestFirst(u, Apply(u, st, Relay(r)))
  {
    RI.StepGrows(st.relay, r);
    HostStillFirst(u, st, r);
  }

  lemma HostStillFirst(u: Setup, st: State, r: R.Action)
    requires u.host != u.guest && Transport(u, st) && RelayAllowed(u, st, r)
    ensures HostFirst(u, Apply(u, st, Relay(r)))
  {
    RI.StepGrows(st.relay, r);
    if u.guest < |st.relay.sessions| && !r.Snapshot? {
      RI.OnlySnapshotsCount(st.relay, r, u.guest);
    }
  }

  /** A client step leaves the relay alone and only appends to what the client has sent. */
  lemma TransportAfterClient(u: Setup, st: State, x: Side, c: Cli)
    requires Transport(u, st)
    requires Of(st, x).sent <= c.sent && c.got <= |Attempts(st, Sid(u, x))|
    requires Of(st, x).sent == [] && c.sent != [] ==>
               u.guest < |st.relay.sessions| && (x.Host? ==> !st.relay.sessions[u.guest].pc.Starting?)
    ensures Transport(u, Set(st, x, c))
  {
    forall y: Side ensures ThreadInOrder(u, Set(st, x, c), y) && Caught(u, Set(st, x, c), y) {
      assert ThreadInOrder(u, st, y) && Caught(u, st, y);
    }
  }

  // ----- Every step keeps the conversation -----

  ghost predicate Inv(u: Setup, st: State)
    requires Valid(u)
  {
    Transport(u, st) && Talk(u, st)
  }

  lemma TalkOf(u: Setup, st: State, x: Side)
    requires Valid(u) && Talk(u, st)
    ensures SentInOrder(u, x, Of(st, x)) && HeardInOrder(u, x, Of(st, x), Of(st, Other(x)))
    ensures SentInOrder(u, Other(x), Of(st, Other(x))) && HeardInOrder(u, Other(x), Of(st, Other(x)), Of(st, x))
  {
    assert Other(Other(x)) == x;
  }

  lemma TalkFromBoth(u: Setup, st: State, x: Side)
    requires Valid(u)
    requires SentInOrder(u, x, Of(st, x)) && HeardInOrder(u, x, Of(st, x), Of(st, Other(x)))
    requires SentInOrder(u, Other(x), Of(st, Other(x))) && HeardInOrder(u, Other(x), Of(st, Other(x)), Of(st, x))
    ensures Talk(u, st)
  {
    forall y: Side ensures SentInOrder(u, y, Of(st, y)) && HeardInOrder(u, y, Of(st, y), Of(st, Other(y))) {
      assert y == x || y == Other(x);
    }
  }

  lemma GuestJoinedWhenHeard(u: Setup, st: State)
    requires u.host != u.guest && Transport(u, st) && Arrived(st, u.host, 0)
    ensures u.guest < |st.relay.sessions| && !st.relay.sessions[u.guest].pc.Starting?
  {
    Delivered(u, st, Host);
    assert RI.FanOutInOrder(st.relay.sessions, u.guest);
  }

  lemma HostHearsHello(u: Setup, c: Cli, other: Cli)
    requires Valid(u) && SentInOrder(u, Host, c) && HeardInOrder(u, Host, c, other) && c.phase.Waiting?
    ensures var c' := Hears(u, Host, c, Opening(u, Guest));
            SentInOrder(u, Host, c') && HeardInOrder(u, Host, c', other) && c.sent <= c'.sent
  {
  }

  lemma GuestHearsResponse(u: Setup, c: Cli, other: Cli)
    requires Valid(u) && SentInOrder(u, Guest, c) && HeardInOrder(u, Guest, c, other) && c.phase.Waiting?
    ensures var c' := Hears(u, Guest, c, Opening(u, Host));
            SentInOrder(u, Guest, c') && HeardInOrder(u, Guest, c', other) && c.sent <= c'.sent
  {
  }

  lemma ChatHearsLine(u: Setup, x: Side, c: Cli, other: Cli)
    requires Valid(u) && SentInOrder(u, x, c) && HeardInOrder(u, x, c, other) && c.phase.Chatting?
    requires SentInOrder(u, Other(x), other) && c.got < |other.sent|
    ensures var c' := Hears(u, x, c, other.sent[c.got]);
            SentInOrder(u, x, c') && HeardInOrder(u, x, c', other) && c.sent <= c'.sent
  {
    assert u.program.open(u.key, other.sent[c.got - 1 + 1]) == Ok(other.said[c.got - 1]);
    assert other.said[..c.got] == other.said[..c.got - 1] + [other.said[c.got - 1]];
  }

  lemma HearsNext(u: Setup, x: Side, c: Cli, other: Cli)
    requires Valid(u) && SentInOrder(u, x, c) && HeardInOrder(u, x, c, other)
    requires SentInOrder(u, Other(x), other) && HeardInOrder(u, Other(x), other, c)
    requires (c.phase.Waiting? || c.phase.Chatting?) && c.got < |other.sent|
    ensures var c' := Hears(u, x, c, other.sent[c.got]);
            && SentInOrder(u, x, c') && HeardInOrder(u, x, c', other) && HeardInOrder(u, Other(x), other, c')
            && c.sent <= c'.sent && c'.got == c.got + 1
  {
    if c.phase.Chatting? {
      ChatHearsLine(u, x, c, other);
    } else if x.Host? {
      HostHearsHello(u, c, other);
    } else {
      GuestHearsResponse(u, c, other);
    }
    HearsShape(u, x, c, other.sent[c.got]);
  }

  lemma TalkAfterReceive(u: Setup, st: State, x: Side)
    requires Valid(u) && Inv(u, st) && Enabled(u, st, Receive(x))
    ensures Inv(u, Apply(u, st, Receive(x)))
  {
    var c, other := Of(st, x), Of(st, Other(x));
    Delivered(u, st, x);
    TalkOf(u, st, x);
    HearsNext(u, x, c, other);
    var c' := Hears(u, x, c, other.sent[c.got]);
    if x.Host? && c.sent == [] {
      GuestJoinedWhenHeard(u, st);
    }
    TransportAfterClient(u, st, x, c');
    TalkFromBoth(u, Set(st, x, c'), x);
  }

  lemma TalkAfterHello(u: Setup, st: State)
    requires Valid(u) && Inv(u, st) && Enabled(u, st, SendHello)
    ensures Inv(u, Apply(u, st, SendHello))
  {
    TalkOf(u, st, Guest);
    assert Caught(u, st, Guest);
    TransportAfterClient(u, st, Guest, Hello(u, st.guest));
    TalkFromBoth(u, Apply(u, st, SendHello), Guest);
  }

  lemma SaysLine(u: Setup, x: Side, c: Cli, other: Cli, nonce: Bytes, stamped: int, sent: int)
    requires Valid(u) && SentInOrder(u, x, c) && HeardInOrder(u, x, c, other) && c.phase.Chatting?
    requires c.todo != [] && |nonce| == NONCE_SIZE && Timestamp(stamped) && Timestamp(sent)
    ensures var c' := Says(u, c, nonce, stamped, sent);
            && SentInOrder(u, x, c') && HeardInOrder(u, x, c', other)
            && c.sent <= c'.sent && c.said <= c'.said && c'.phase == c.phase && c'.got == c.got
  {
    var line := c.todo[0];
    if line != [] {
      assert line in c.todo;
      assert NonEmpty(c.todo) == [line] + NonEmpty(c.todo[1..]);
      assert c.said + NonEmpty(c.todo) == (c.said + [line]) + NonEmpty(c.todo[1..]);
    }
  }

  lemma HeardWhileMoreIsSaid(u: Setup, x: Side, c: Cli, other: Cli, other': Cli)
    requires HeardInOrder(u, x, c, other) && other.said <= other'.said
    ensures HeardInOrder(u, x, c, other')
  {
  }

  lemma TalkAfterSay(u: Setup, st: State, x: Side, nonce: Bytes, stamped: int, sent: int)
    requires Valid(u) && Inv(u, st) && Enabled(u, st, Say(x, nonce, stamped, sent))
    ensures Inv(u, Apply(u, st, Say(x, nonce, stamped, sent)))
  {
    var c' := Says(u, Of(st, x), nonce, stamped, sent);
    TalkOf(u, st, x);
    assert Caught(u, st, x);
    SaysLine(u, x, Of(st, x), Of(st, Other(x)), nonce, stamped, sent);
    HeardWhileMoreIsSaid(u, Other(x), Of(st, Other(x)), Of(st, x), c');
    TransportAfterClient(u, st, x, c');
    TalkFromBoth(u, Set(st, x, c'), x);
  }

  lemma InvKept(u: Setup, st: State, a: Action)
    requires Valid(u) && Inv(u, st) && Enabled(u, st, a)
    ensures Inv(u, Apply(u, st, a))
  {
    match a
    case Relay(r) =>
      TransportAfterRelay(u, st, r);
      TalkOf(u, st, Host);
      TalkFromBoth(u, Apply(u, st, a), Host);
    case SendHello => TalkAfterHello(u, st);
    case Receive(x) => TalkAfterReceive(u, st, x);
    case Say(x, nonce, stamped, sent) => TalkAfterSay(u, st, x, nonce, stamped, sent);
  }

  lemma {:induction false} InvReached(u: Setup, actions: seq<Action>)
    requires Valid(u)
    ensures Inv(u, Reached(u, actions))
  {
    if actions == [] {
      TalkFromBoth(u, Start(u), Host);
    } else {
      var st := Reached(u, actions[..|actions| - 1]);
      var a := actions[|actions| - 1];
      InvReached(u, actions[..|actions| - 1]);
      if Enabled(u, st, a) {
        InvKept(u, st, a);
      }
    }
  }

  /** Safety in every interleaving: neither handshake ever returns false; once a side
      chats it has the shared key and the other's identity key; nothing is dropped; and
      what a side shows is a prefix of the other's non-empty lines, in order. */
  lemma ConversationSafe(u: Setup, actions: seq<Action>, x: Side)
    requires Valid(u)
    ensures var c := Of(Reached(u, actions), x);
            && !c.phase.Broken? && c.dropped == 0
            && (c.phase.Chatting? ==> c.key == u.key && c.peer == Pub(u, Other(x)))
            && c.shown <= NonEmpty(Lines(u, Other(x)))
  {
    var st := Reached(u, actions);
    InvReached(u, actions);
    TalkOf(u, st, x);
    var other := Of(st, Other(x));
    assert other.said <= NonEmpty(Lines(u, Other(x)));
  }

  // ----- Progress -----

  predicate Connected(u: Setup, st: State) { u.host < |st.relay.sessions| && u.guest < |st.relay.sessions| }

  /** A step of one of the two clients or of one of their threads in the relay. */
  predicate Ours(u: Setup, a: Action)
  {
    a.Relay? ==> !a.a.Accept? && (a.a.s == u.host || a.a.s == u.guest)
  }

  function PcWeight(pc: R.Pc): nat
  {
    match pc
    case Starting => 1
    case Holding => 3
    case Writing(_, _) => 2
    case _ => 0
  }

  function PhaseWeight(phase: Phase): nat
  {
    match phase
    case Idle => 10
    case Waiting => 5
    case _ => 0
  }

  /** What is left to do for the lines and frames of side x. */
  function Load(u: Setup, st: State, x: Side): int
    requires Connected(u, st)
  {
    var c, s := Of(st, x), st.relay.sessions[Sid(u, x)];
    6 * |c.todo| + PhaseWeight(c.phase) + 4 * (|c.sent| - |s.frames|) + PcWeight(s.pc)
    + (|s.attempts| - c.got) + (if R.Acceptor in s.holders then 1 else 0)
  }

  function Measure(u: Setup, st: State): int
    requires Connected(u, st)
  {
    Load(u, st, Host) + Load(u, st, Guest)
  }

  /** In the room each thread fans out to the other side alone. */
  lemma OnlyPeer(u: Setup, st: State, x: Side)
    requires Transport(u, st) && Connected(u, st) && u.host != u.guest
    requires st.relay.sessions[Sid(u, x)].pc.Writing?
    ensures st.relay.sessions[Sid(u, x)].pc.peers == [Sid(u, Other(x))]
  {
    var ss := st.relay.sessions;
    assert RI.FanOutInOrder(ss, Sid(u, x));
    var peers := ss[Sid(u, x)].pc.peers;
    if 1 < |peers| {
      TwoDiffer(peers);
    }
    forall k | 0 <= k < |peers| ensures peers[k] == Sid(u, Other(x)) {
      assert peers[k] in peers;
    }
  }

  lemma TwoDiffer(v: seq<R.Sid>)
    requires RI.Distinct(v) && 1 < |v|
    ensures v[0] != v[1]
  {
  }

  lemma OtherLoadKept(u: Setup, st: State, r: R.Action, x: Side)
    requires Connected(u, st) && u.host != u.guest
    requires RelayAllowed(u, st, r) && (r.Accept? || r.s != Sid(u, x))
    ensures Load(u, Apply(u, st, Relay(r)), x) - |Apply(u, st, Relay(r)).relay.sessions[Sid(u, x)].attempts|
         == Load(u, st, x) - |st.relay.sessions[Sid(u, x)].attempts|
  {
    RI.OthersKeep(st.relay, r, Sid(u, x));
    if !r.Accept? {
      AcceptorUntouched(st.relay, r, Sid(u, x));
    }
  }

  lemma SnapshotLoad(u: Setup, st: State, x: Side)
    requires Connected(u, st) && RelayAllowed(u, st, R.Snapshot(Sid(u, x)))
    ensures Load(u, Apply(u, st, Relay(R.Snapshot(Sid(u, x)))), x) < Load(u, st, x)
  {
  }

  lemma SessionLoad(u: Setup, st: State, st': State, x: Side)
    requires Connected(u, st) && Connected(u, st') && Of(st', x) == Of(st, x)
    requires var s, s' := st.relay.sessions[Sid(u, x)], st'.relay.sessions[Sid(u, x)];
             && s'.frames == s.frames && s'.attempts == s.attempts
             && (R.Acceptor in s'.holders <==> R.Acceptor in s.holders)
    ensures Load(u, st', x) - Load(u, st, x)
         == PcWeight(st'.relay.sessions[Sid(u, x)].pc) - PcWeight(st.relay.sessions[Sid(u, x)].pc)
  {
  }

  lemma WriteLoad(u: Setup, st: State, ok: bool, x: Side)
    requires Transport(u, st) && Connected(u, st) && u.host != u.guest && RelayAllowed(u, st, R.Write(Sid(u, x), ok))
    ensures Load(u, Apply(u, st, Relay(R.Write(Sid(u, x), ok))), x) == Load(u, st, x) - 2
  {
    OnlyPeer(u, st, x);
    RI.WriteIs(st.relay, Sid(u, x), ok);
    AcceptorUntouched(st.relay, R.Write(Sid(u, x), ok), Sid(u, x));
    SessionLoad(u, st, Apply(u, st, Relay(R.Write(Sid(u, x), ok))), x);
  }

  lemma OwnLoadDrops(u: Setup, st: State, r: R.Action, x: Side)
    requires Transport(u, st) && Connected(u, st) && u.host != u.guest
    requires RelayAllowed(u, st, r) && !r.Accept? && r.s == Sid(u, x)
    ensures Load(u, Apply(u, st, Relay(r)), x) <= Load(u, st, x) - (if r.Write? then 2 else 1)
  {
    assert ThreadInOrder(u, st, x);
    match r
    case Snapshot(_) => SnapshotLoad(u, st, x);
    case Write(_, ok) => WriteLoad(u, st, ok, x);
    case _ =>
  }

  lemma RelayStepDecreases(u: Setup, st: State, r: R.Action, x: Side)
    requires Transport(u, st) && Connected(u, st) && u.host != u.guest
    requires RelayAllowed(u, st, r) && !r.Accept? && r.s == Sid(u, x)
    ensures Measure(u, Apply(u, st, Relay(r))) < Measure(u, st)
  {
    OwnLoadDrops(u, st, r, x);
    OtherLoadKept(u, st, r, Other(x));
    RI.AttemptsOf(st.relay, r, Sid(u, Other(x)));
  }

  lemma AcceptorUntouched(relay: R.State, r: R.Action, i: R.Sid)
    requires R.Enabled(relay, r) && i < |relay.sessions| && (r.AcceptorReturns? ==> r.s != i)
    ensures R.Acceptor in R.Apply(relay, r).sessions[i].holders <==> R.Acceptor in relay.sessions[i].holders
  {
  }

  /** Every step of the two sides brings the end nearer. */
  lemma OursDecreases(u: Setup, st: State, a: Action)
    requires Valid(u) && Inv(u, st) && Connected(u, st) && Ours(u, a) && Enabled(u, st, a)
    ensures Measure(u, Apply(u, st, a)) < Measure(u, st)
  {
    match a
    case Relay(r) => RelayStepDecreases(u, st, r, if r.s == u.host then Host else Guest);
    case SendHello => HelloDecreases(u, st);
    case Receive(x) =>
      ReceiveDecreases(u, st, x);
    case Say(x, nonce, stamped, sent) => SayDecreases(u, st, a);
  }

  lemma HelloDecreases(u: Setup, st: State)
    requires Connected(u, st) && Enabled(u, st, SendHello)
    ensures Measure(u, Apply(u, st, SendHello)) < Measure(u, st)
  {
  }

  lemma SayDecreases(u: Setup, st: State, a: Action)
    requires Connected(u, st) && Enabled(u, st, a) && a.Say?
    ensures Measure(u, Apply(u, st, a)) < Measure(u, st)
  {
    LoadAfterClient(u, st, a.x, Says(u, Of(st, a.x), a.nonce, a.stamped, a.sent));
  }

  lemma HearsShape(u: Setup, x: Side, c: Cli, frame: Bytes)
    requires c.phase.Waiting? || c.phase.Chatting?
    ensures var c' := Hears(u, x, c, frame);
            && c'.got == c.got + 1 && c'.todo == c.todo && c'.said == c.said && c.sent <= c'.sent
            && 4 * |c'.sent| + PhaseWeight(c'.phase) <= 4 * |c.sent| + PhaseWeight(c.phase)
  {
  }

  lemma ReceiveDecreases(u: Setup, st: State, x: Side)
    requires Connected(u, st) && Enabled(u, st, Receive(x))
    ensures Measure(u, Apply(u, st, Receive(x))) < Measure(u, st)
  {
    var c := Of(st, x);
    HearsShape(u, x, c, Frame(st, Sid(u, x), c.got));
    LoadAfterClient(u, st, x, Hears(u, x, c, Frame(st, Sid(u, x), c.got)));
  }

  /** Only the client's own counters enter the load when the relay does not move. */
  lemma LoadAfterClient(u: Setup, st: State, x: Side, c: Cli)
    requires Connected(u, st)
    ensures Measure(u, Set(st, x, c)) - Measure(u, st)
         == 6 * (|c.todo| - |Of(st, x).todo|) + PhaseWeight(c.phase) - PhaseWeight(Of(st, x).phase)
            + 4 * (|c.sent| - |Of(st, x).sent|) - (c.got - Of(st, x).got)
  {
  }

  lemma MeasureNatural(u: Setup, st: State)
    requires Valid(u) && Inv(u, st) && Connected(u, st)
    ensures 0 <= Measure(u, st)
  {
    forall x: Side ensures 0 <= Load(u, st, x) {
      assert ThreadInOrder(u, st, x) && Caught(u, st, x);
      TalkOf(u, st, x);
    }
  }

  lemma TheirsKeepLoad(u: Setup, st: State, r: R.Action, x: Side)
    requires Transport(u, st) && Connected(u, st) && u.host != u.guest
    requires RelayAllowed(u, st, r) && !Ours(u, Relay(r))
    ensures Load(u, Apply(u, st, Relay(r)), x) == Load(u, st, x)
  {
    OtherLoadKept(u, st, r, x);
    RI.OtherRoomUntouched(st.relay, r, Sid(u, x));
  }

  /** Steps in other rooms leave the measure alone. */
  lemma TheirsNeutral(u: Setup, st: State, a: Action)
    requires Valid(u) && Inv(u, st) && Connected(u, st) && !Ours(u, a) && Enabled(u, st, a)
    ensures Measure(u, Apply(u, st, a)) == Measure(u, st)
  {
    TheirsKeepLoad(u, st, a.a, Host);
    TheirsKeepLoad(u, st, a.a, Guest);
  }

  /** Both sides chat, all lines are sent, and all frames received. */
  predicate Done(st: State)
  {
    && st.host.phase.Chatting? && st.guest.phase.Chatting? && st.host.todo == [] && st.guest.todo == []
    && st.host.got == |st.guest.sent| && st.guest.got == |st.host.sent|
  }

  lemma DoneMeansShown(u: Setup, st: State)
    requires Valid(u) && Inv(u, st) && Done(st)
    ensures st.host.shown == NonEmpty(u.guestLines) && st.guest.shown == NonEmpty(u.hostLines)
  {
    TalkOf(u, st, Host);
  }

  /** A thread of ours that is not idle can take a step. */
  lemma ThreadCanStep(u: Setup, st: State, x: Side) returns (a: Action)
    requires Valid(u) && Inv(u, st) && Connected(u, st)
    requires var s := st.relay.sessions[Sid(u, x)];
             !s.pc.Reading? || |s.frames| < |Of(st, x).sent|
    requires x.Guest? ==> HostJoined(u, st)
    ensures Ours(u, a) && Enabled(u, st, a)
  {
    var i := Sid(u, x);
    assert ThreadInOrder(u, st, x) && RI.FanOutInOrder(st.relay.sessions, i);
    if st.relay.sessions[i].pc.Reading? {
      a := ThreadCanRead(u, st, x);
    } else if st.relay.sessions[i].pc.Writing? {
      a := ThreadCanWrite(u, st, i);
    } else {
      a := Relay(if st.relay.sessions[i].pc.Starting? then R.Join(i) else R.Snapshot(i));
    }
  }

  lemma ThreadCanRead(u: Setup, st: State, x: Side) returns (a: Action)
    requires Connected(u, st) && u.host != u.guest && ThreadInOrder(u, st, x)
    requires var s := st.relay.sessions[Sid(u, x)];
             s.pc.Reading? && |s.frames| < |Of(st, x).sent|
    ensures Ours(u, a) && Enabled(u, st, a)
  {
    var i := Sid(u, x);
    a := Relay(R.Read(i, Of(st, x).sent[|st.relay.sessions[i].frames|]));
  }

  lemma ThreadCanWrite(u: Setup, st: State, i: R.Sid) returns (a: Action)
    requires Connected(u, st) && (i == u.host || i == u.guest)
    requires RI.FanOutInOrder(st.relay.sessions, i) && st.relay.sessions[i].pc.Writing?
    ensures Ours(u, a) && Enabled(u, st, a)
  {
    var pc := st.relay.sessions[i].pc;
    assert pc.peers[pc.next] in pc.peers;
    a := Relay(R.Write(i, true));
  }

  /** When x's thread has read, snapshotted and written everything, it has all arrived. */
  lemma AllArrived(u: Setup, st: State, x: Side)
    requires Valid(u) && Inv(u, st) && Connected(u, st)
    requires var s := st.relay.sessions[Sid(u, Other(x))]; s.pc.Reading? && |s.frames| == |Of(st, Other(x)).sent|
    requires !st.relay.sessions[Sid(u, x)].pc.Starting?
    ensures |Attempts(st, Sid(u, x))| == |Of(st, Other(x)).sent|
  {
    var i, j := Sid(u, x), Sid(u, Other(x));
    var ss := st.relay.sessions;
    assert RI.Delivery(ss, j, i) && RI.FanOutInOrder(ss, j);
    assert ThreadInOrder(u, st, x) && ThreadInOrder(u, st, Other(x));
    Delivered(u, st, x);
    forall a | a in ss[i].attempts ensures a.from == j {
      RI.WritesStayInRoom(st.relay, i, a);
    }
    AllFrom(ss[i].attempts, j);
    assert RI.Pending(ss, j, i) == [];
    assert RI.From(ss[i].attempts, j) == RI.Range(0, ss[j].snaps);
  }

  /** No deadlock: as long as anything is left to do, one of our steps is enabled. */
  lemma Progress(u: Setup, st: State) returns (a: Action)
    requires Valid(u) && Inv(u, st) && Connected(u, st) && !Done(st)
    ensures Ours(u, a) && Enabled(u, st, a)
  {
    var h, g := st.relay.sessions[u.host], st.relay.sessions[u.guest];
    TalkOf(u, st, Host);
    assert ThreadInOrder(u, st, Host) && ThreadInOrder(u, st, Guest);
    if !h.pc.Reading? || |h.frames| < |st.host.sent| {
      a := ThreadCanStep(u, st, Host);
    } else if !g.pc.Reading? || |g.frames| < |st.guest.sent| {
      a := ThreadCanStep(u, st, Guest);
    } else {
      AllArrived(u, st, Host);
      AllArrived(u, st, Guest);
      a := ClientCanStep(u, st);
    }
  }

  lemma ClientCanStep(u: Setup, st: State) returns (a: Action)
    requires Valid(u) && Inv(u, st) && Connected(u, st) && !Done(st)
    requires |Attempts(st, u.host)| == |st.guest.sent| && |Attempts(st, u.guest)| == |st.host.sent|
    ensures Ours(u, a) && Enabled(u, st, a)
  {
    TalkOf(u, st, Host);
    Delivered(u, st, Host);
    Delivered(u, st, Guest);
    if st.guest.phase.Idle? {
      a := SendHello;
    } else if st.host.got < |st.guest.sent| {
      a := Receive(Host);
    } else if st.guest.got < |st.host.sent| {
      a := Receive(Guest);
    } else if st.host.todo != [] {
      a := Say(Host, seq(NONCE_SIZE, _ => 0), 0, 0);
    } else {
      a := Say(Guest, seq(NONCE_SIZE, _ => 0), 0, 0);
    }
  }

  /** Liveness in every interleaving. From the moment both clients are connected, every
      step of theirs or of their threads lowers a natural number that no other room can
      change, some such step is enabled until all is done, and when all is done each side
      has shown exactly the other's non-empty lines, in order. */
  lemma ConversationCompletes(u: Setup, actions: seq<Action>, a: Action)
    requires Valid(u) && Connected(u, Reached(u, actions))
    ensures var st := Reached(u, actions);
            && 0 <= Measure(u, st)
            && (Enabled(u, st, a) ==>
                  if Ours(u, a) then Measure(u, Apply(u, st, a)) < Measure(u, st)
                  else Measure(u, Apply(u, st, a)) == Measure(u, st))
            && ((exists b :: Ours(u, b) && Enabled(u, st, b)) || Done(st))
            && (Done(st) ==> st.host.shown == NonEmpty(u.guestLines) && st.guest.shown == NonEmpty(u.hostLines))
  {
    var st := Reached(u, actions);
    InvReached(u, actions);
    MeasureNatural(u, st);
    if Enabled(u, st, a) {
      if Ours(u, a) {
        OursDecreases(u, st, a);
      } else {
        TheirsNeutral(u, st, a);
      }
    }
    if Done(st) {
      DoneMeansShown(u, st);
    } else {
      var b := Progress(u, st);
    }
  }

  // ----- Whole runs -----

  type Moves = (seq<Action>, Action) -> bool

  /** How many actions of `more`, after `before`, are moves in question. */
  function Count(moves: Moves, before: seq<Action>, more: seq<Action>): nat
  {
    if more == [] then 0
    else
      var n := |more| - 1;
      Count(moves, before, more[..n]) + if moves(before + more[..n], more[n]) then 1 else 0
  }

  /** A weight that every action leaves or lowers, and moves lower, bounds the moves. */
  lemma {:induction false} MovesAreFew(moves: Moves, ok: seq<Action> -> bool, weight: seq<Action> -> int,
                                       before: seq<Action>, more: seq<Action>)
    requires ok(before)
    requires forall b, a :: ok(b) ==> ok(b + [a]) && weight(b + [a]) + (if moves(b, a) then 1 else 0) <= weight(b)
    ensures ok(before + more) && Count(moves, before, more) + weight(before + more) <= weight(before)
  {
    if more == [] {
      assert before + more == before;
    } else {
      var n := |more| - 1;
      MovesAreFew(moves, ok, weight, before, more[..n]);
      var b, a := before + more[..n], more[n];
      assert moves(b, a) || !moves(b, a);
      assert before + more == b + [a];
    }
  }

  /** If the weight can be lowered until all is done, all can be done. */
  lemma {:induction false} CanFinish(ok: seq<Action> -> bool, done: seq<Action> -> bool, weight: seq<Action> -> int,
                                     before: seq<Action>) returns (more: seq<Action>)
    requires ok(before) && forall b :: ok(b) ==> 0 <= weight(b)
    requires forall b :: ok(b) && !done(b) ==> exists a :: ok(b + [a]) && weight(b + [a]) < weight(b)
    ensures done(before + more)
    decreases weight(before)
  {
    if done(before) {
      more := [];
      assert before + more == before;
    } else {
      var a :| ok(before + [a]) && weight(before + [a]) < weight(before);
      var rest := CanFinish(ok, done, weight, before + [a]);
      more := [a] + rest;
      assert before + [a] + rest == before + more;
    }
  }

  ghost function OurMoves(u: Setup): Moves
  {
    (b: seq<Action>, a: Action) => Ours(u, a) && Enabled(u, Reached(u, b), a)
  }

  lemma OneAction(u: Setup, before: seq<Action>, a: Action)
    requires Valid(u) && Connected(u, Reached(u, before))
    ensures Connected(u, Reached(u, before + [a]))
    ensures Measure(u, Reached(u, before + [a])) <= Measure(u, Reached(u, before))
    ensures OurMoves(u)(before, a) ==> Measure(u, Reached(u, before + [a])) < Measure(u, Reached(u, before))
  {
    var st := Reached(u, before);
    InvReached(u, before);
    ReachedStep(u, before, a);
    if Enabled(u, st, a) {
      StepCosts(u, st, a);
    }
  }

  lemma StepCosts(u: Setup, st: State, a: Action)
    requires Valid(u) && Inv(u, st) && Connected(u, st) && Enabled(u, st, a)
    ensures Connected(u, Apply(u, st, a))
    ensures Measure(u, Apply(u, st, a)) <= Measure(u, st) - (if Ours(u, a) then 1 else 0)
  {
    StaysConnected(u, st, a);
    if Ours(u, a) {
      OursDecreases(u, st, a);
    } else {
      TheirsNeutral(u, st, a);
    }
  }

  lemma StaysConnected(u: Setup, st: State, a: Action)
    requires Connected(u, st) && Enabled(u, st, a)
    ensures Connected(u, Apply(u, st, a))
  {
    if a.Relay? {
      RI.StepGrows(st.relay, a.a);
    }
  }

  lemma ReachedStep(u: Setup, actions: seq<Action>, a: Action)
    ensures var st := Reached(u, actions);
            Reached(u, actions + [a]) == if Enabled(u, st, a) then Apply(u, st, a) else st
  {
    assert (actions + [a])[..|actions|] == actions;
  }

  /** Until all is done there is an action that is a move of ours. */
  lemma SomeMove(u: Setup, before: seq<Action>) returns (a: Action)
    requires Valid(u) && Connected(u, Reached(u, before)) && !Done(Reached(u, before))
    ensures OurMoves(u)(before, a)
  {
    InvReached(u, before);
    a := Progress(u, Reached(u, before));
  }

  lemma MeasureReached(u: Setup, before: seq<Action>)
    requires Valid(u) && Connected(u, Reached(u, before))
    ensures 0 <= Measure(u, Reached(u, before))
  {
    InvReached(u, before);
    MeasureNatural(u, Reached(u, before));
  }

  /** Termination of whole runs. Once both clients are connected, whatever happens next holds
      at most as many moves of ours as the measure says, and from wherever it has got to the
      conversation can still be finished. */
  lemma ConversationTerminates(u: Setup, before: seq<Action>, more: seq<Action>)
    requires Valid(u) && Connected(u, Reached(u, before))
    ensures Count(OurMoves(u), before, more) <= Measure(u, Reached(u, before))
    ensures exists finish :: Done(Reached(u, before + more + finish))
  {
    var ok := (b: seq<Action>) => Connected(u, Reached(u, b));
    var done := (b: seq<Action>) => Done(Reached(u, b));
    var weight := (b: seq<Action>) => if Connected(u, Reached(u, b)) then Measure(u, Reached(u, b)) else 0;
    forall b, a | ok(b) ensures ok(b + [a]) && weight(b + [a]) + (if OurMoves(u)(b, a) then 1 else 0) <= weight(b) {
      OneAction(u, b, a);
    }
    forall b | ok(b) ensures 0 <= weight(b) {
      MeasureReached(u, b);
    }
    forall b | ok(b) && !done(b) ensures exists a :: ok(b + [a]) && weight(b + [a]) < weight(b) {
      var a := SomeMove(u, b);
      OneAction(u, b, a);
    }
    MovesAreFew(OurMoves(u), ok, weight, before, more);
    var finish := CanFinish(ok, done, weight, before + more);
    assert ok(before + more) && done(before + more + finish);
  }

  /** The other half of the assumption about the host: if it is not in the room table when
      the guest's thread takes its first snapshot of it, no hello ever gets to it. */
  lemma LateHostMissesHello(u: Setup, before: seq<R.Action>, more: seq<R.Action>)
    requires var ss := R.Reached(before).sessions;
             u.guest < |ss| && 0 < ss[u.guest].snaps && (u.host < |ss| ==> ss[u.host].pc.Starting?)
    ensures var ss := R.Reached(before + more).sessions;
            u.host < |ss| ==> forall a :: a in ss[u.host].attempts && a.from == u.guest ==> a.index != 0
  {
    RI.LateJoinerMisses(before, more, u.guest, u.host, 0);
  }

  // ----- The clients of this program -----

  const CLI: Bytes := Ascii("cli")
  const PEER: Bytes := Ascii("peer")

  /** Two clients with these identities, draws and lines, in this room. */
  function EngineSetup(p: Primitives, host: Identity, guest: Identity, guestCoins: Bytes, hostCoins: Bytes,
                       room: string, hostSid: R.Sid, guestSid: R.Sid,
                       hostLines: seq<Bytes>, guestLines: seq<Bytes>): Setup
  {
    var program := EngineProgram(p, host, guest, guestCoins, hostCoins, CLI, PEER);
    Setup(program, room, hostSid, guestSid, host.pub, guest.pub, hostLines, guestLines,
          ResponseOf(program), AgreedKey(p, guestCoins, hostCoins))
  }

  /** The engine's own functions meet the laws, so the two theorems above hold of this
      program: for all identities, draws, lines and rooms. */
  lemma EngineSetupValid(p: Primitives, host: Identity, guest: Identity, guestCoins: Bytes, hostCoins: Bytes,
                         room: string, hostSid: R.Sid, guestSid: R.Sid, hostLines: seq<Bytes>, guestLines: seq<Bytes>)
    requires Lawful(p) && Genuine(p, host) && Genuine(p, guest) && hostSid != guestSid
    requires forall l :: l in hostLines + guestLines ==> |l| <= LONGEST_LINE
    ensures Valid(EngineSetup(p, host, guest, guestCoins, hostCoins, room, hostSid, guestSid, hostLines, guestLines))
  {
    Wire.AsciiIsUtf8(CLI);
    Wire.AsciiIsUtf8(PEER);
    EngineProgramLawful(p, host, guest, guestCoins, hostCoins, CLI, PEER);
  }
}
