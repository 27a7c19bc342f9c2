/** The in-memory loopback (tools/engine_loopback_test.cpp): two threads, two blocking
    channels with a close flag, closing both on failure, then one message. */
module Loopback {
  import opened ByteStrings
  import opened Crypto
  import opened Engine
  import opened EnginePrograms
  import opened IdentityStore
  import opened Messages
  import opened Wire

  // ----- Channels -----

  datatype Chan = Chan(q: seq<Bytes>, closed: bool)

  function Sent(ch: Chan, frame: Bytes): Chan { if ch.closed then ch else ch.(q := ch.q + [frame]) }

  /** The wait condition of recv_from. */
  predicate Readable(ch: Chan) { ch.q != [] || ch.closed }

  function Taken(ch: Chan): Chan { if ch.q == [] then ch else ch.(q := ch.q[1..]) }

  function SentAll(ch: Chan, frames: seq<Bytes>): Chan
    decreases |frames|
  {
    if frames == [] then ch else SentAll(Sent(ch, frames[0]), frames[1..])
  }

  function TakenAll(ch: Chan): seq<Bytes>
    decreases |ch.q|
  {
    if ch.q == [] then [] else [ch.q[0]] + TakenAll(Taken(ch))
  }

  /** First in, first out; what is queued when the channel closes can still be taken, and
      nothing more gets in. */
  lemma {:induction false} FirstInFirstOut(ch: Chan, frames: seq<Bytes>)
    ensures SentAll(ch, frames) == if ch.closed then ch else ch.(q := ch.q + frames)
    ensures TakenAll(ch) == ch.q && TakenAll(ch.(closed := true)) == ch.q
    decreases |frames|
  {
    AllTaken(ch);
    AllTaken(ch.(closed := true));
    if frames == [] {
      assert ch.q + frames == ch.q;
    } else {
      FirstInFirstOut(Sent(ch, frames[0]), frames[1..]);
      assert ch.q + [frames[0]] + frames[1..] == ch.q + frames;
    }
  }

  lemma {:induction false} AllTaken(ch: Chan)
    ensures TakenAll(ch) == ch.q
    decreases |ch.q|
  {
    if ch.q != [] {
      AllTaken(Taken(ch));
    }
  }

  class Channel {
    var q: seq<Bytes>
    var closed: bool

    function View(): Chan
      reads this
    {
      Chan(q, closed)
    }

    constructor ()
      ensures View() == Chan([], false)
    {
      q, closed := [], false;
    }

    method SendTo(frame: Bytes) returns (ok: bool)
      modifies this
      ensures ok == !old(closed)
      ensures View() == Sent(old(View()), frame)
    {
      if closed {
        return false;
      }
      q := q + [frame];
      return true;
    }

    /** The part of recv_from after the wait has been satisfied. */
    method ReceiveFrom() returns (r: Option<Bytes>)
      requires Readable(View())
      modifies this
      ensures View() == Taken(old(View()))
      ensures r == if old(q) == [] then None else Some(old(q)[0])
    {
      if q == [] {
        return None;
      }
      r := Some(q[0]);
      q := q[1..];
    }

    method Close()
      modifies this
      ensures View() == old(View()).(closed := true)
    {
      closed := true;
    }
  }

  // ----- The two threads -----

  /** Where a thread is. Checking: holds its channel's lock in recv_from. Asleep: in the
      condition variable, perhaps already notified. */
  datatype Pc =
    | Starting
    | Sending(frame: Bytes, session: Option<Established>)
    | Checking
    | Asleep(notified: bool)
    | Deciding(frame: Bytes)
    | Deriving(session: Option<Established>)
    | ClosingFirst
    | ClosingSecond
    | Joining(session: Option<Established>)
    | Ended(session: Option<Established>)

  /** c2s carries client to server. `faults` tells whether any library call was made to
      fail; `spurious` bounds the spurious wake-ups to come; `plain` is the message that
      main decrypts at the end, if it gets there. */
  datatype State = State(
    c2s: Chan, s2c: Chan, client: Pc, server: Pc, faults: bool, spurious: nat, plain: Option<Bytes>)

  datatype Setup = Setup(
    program: Program, serverPub: Bytes, clientPub: Bytes, response: Bytes, key: Bytes, message: Bytes)

  ghost predicate Valid(u: Setup)
  {
    && HandshakeLaws(u.program, u.serverPub, u.clientPub, u.response, u.key) && MessageLaws(u.program, u.key)
    && |u.message| <= LONGEST_LINE
  }

  function Start(spurious: nat): State
  {
    State(Chan([], false), Chan([], false), Starting, Checking, false, spurious, None)
  }

  /** `works` is whether the library calls of the step succeed. */
  datatype Action = Client(works: bool) | Server(works: bool) | WakeClient | WakeServer
                  | RoundTrip(nonce: Bytes, stamped: int, sent: int)

  function Notify(pc: Pc): Pc { if pc.Asleep? then Asleep(true) else pc }

  function ClientStep(u: Setup, st: State, works: bool): State
  {
    match st.client
    case Starting =>
      if works && u.program.hello.Some? then st.(client := Sending(u.program.hello.value, None))
      else st.(client := ClosingFirst)
    case Sending(frame, _) =>
      if st.c2s.closed then st.(client := ClosingFirst)
      else st.(c2s := Sent(st.c2s, frame), client := Checking, server := Notify(st.server))
    case Checking =>
      if !Readable(st.s2c) then st.(client := Asleep(false))
      else if st.s2c.q == [] then st.(client := ClosingFirst)
      else st.(client := Deciding(st.s2c.q[0]), s2c := Taken(st.s2c))
    case Asleep(_) => st.(client := Checking)
    case Deciding(frame) =>
      var r := u.program.finish(frame);
      if r.Err? || !works then st.(client := ClosingFirst) else st.(client := Joining(Some(r.value)))
    case ClosingFirst => st.(c2s := st.c2s.(closed := true), client := ClosingSecond, server := Notify(st.server))
    case ClosingSecond => st.(s2c := st.s2c.(closed := true), client := Joining(None))
    case Joining(e) => st.(client := Ended(e))
    case _ => st
  }

  function ServerStep(u: Setup, st: State, works: bool): State
  {
    match st.server
    case Checking =>
      if !Readable(st.c2s) then st.(server := Asleep(false))
      else if st.c2s.q == [] then st.(server := ClosingFirst)
      else st.(server := Deciding(st.c2s.q[0]), c2s := Taken(st.c2s))
    case Asleep(_) => st.(server := Checking)
    case Deciding(frame) =>
      var r := u.program.answer(frame);
      if r.Err? || !works then st.(server := ClosingFirst) else st.(server := Sending(r.value.0, Some(r.value.1)))
    case Sending(frame, e) =>
      if st.s2c.closed then st.(server := ClosingFirst)
      else st.(s2c := Sent(st.s2c, frame), server := Deriving(e), client := Notify(st.client))
    case Deriving(e) => st.(server := if works then Ended(e) else ClosingFirst)
    case ClosingFirst => st.(c2s := st.c2s.(closed := true), server := ClosingSecond)
    case ClosingSecond => st.(s2c := st.s2c.(closed := true), server := Ended(None), client := Notify(st.client))
    case _ => st
  }

  /** Main after the join: seal under the client's session, through c2s, open under the server's. */
  function RoundTripStep(u: Setup, st: State, nonce: Bytes, stamped: int, sent: int): State
    requires st.client.Ended? && st.client.session.Some?
  {
    match u.program.seal(st.client.session.value.key, u.message, nonce, stamped, sent)
    case Err(_) => st
    case Ok(frame) =>
      if st.c2s.closed then st
      else
        var c := Sent(st.c2s, frame);
        var r := if st.server.Ended? && st.server.session.Some?
                 then u.program.open(st.server.session.value.key, c.q[0]) else Err(SessionMissing);
        st.(c2s := Taken(c), plain := if r.Ok? then Some(r.value) else None)
  }

  /** A thread can run unless it sleeps unnotified, waits in join, or has ended. */
  predicate Runnable(st: State, pc: Pc)
  {
    match pc
    case Asleep(notified) => notified
    case Joining(_) => st.server.Ended?
    case Ended(_) => false
    case _ => true
  }

  predicate Enabled(st: State, a: Action)
  {
    match a
    case Client(_) => Runnable(st, st.client)
    case Server(_) => Runnable(st, st.server)
    case WakeClient => st.client == Asleep(false) && 0 < st.spurious
    case WakeServer => st.server == Asleep(false) && 0 < st.spurious
    case RoundTrip(nonce, stamped, sent) =>
      st.client.Ended? && st.client.session.Some? && st.plain.None?
      && |nonce| == NONCE_SIZE && Timestamp(stamped) && Timestamp(sent)
  }

  function Apply(u: Setup, st: State, a: Action): State
    requires Enabled(st, a)
  {
    match a
    case Client(works) => ClientStep(u, st, works).(faults := st.faults || !works)
    case Server(works) => ServerStep(u, st, works).(faults := st.faults || !works)
    case WakeClient => st.(client := Checking, spurious := st.spurious - 1)
    case WakeServer => st.(server := Checking, spurious := st.spurious - 1)
    case RoundTrip(nonce, stamped, sent) => RoundTripStep(u, st, nonce, stamped, sent)
  }

  function Reached(u: Setup, spurious: nat, actions: seq<Action>): State
  {
    if actions == [] then Start(spurious)
    else
      var st := Reached(u, spurious, actions[..|actions| - 1]);
      var a := actions[|actions| - 1];
      if Enabled(st, a) then Apply(u, st, a) else st
  }

  // ----- What every step keeps -----

  predicate BeforeSend(pc: Pc) { pc.Starting? || pc.Sending? }
  predicate InReceive(pc: Pc) { pc.Checking? || pc.Asleep? }
  predicate Failing(pc: Pc)
  {
    pc.ClosingFirst? || pc.ClosingSecond? || ((pc.Ended? || pc.Joining?) && pc.session.None?)
  }

  predicate Answered(pc: Pc) { pc.Deciding? || (pc.Joining? && pc.session.Some?) || (pc.Ended? && pc.session.Some?) }

  /** The close flags come from failing threads, and a thread that is through has set both. */
  predicate ClosedInOrder(st: State)
  {
    && (st.c2s.closed || st.s2c.closed ==> Failing(st.client) || Failing(st.server))
    && (st.client.ClosingSecond? || st.server.ClosingSecond? ==> st.c2s.closed)
    && ((st.client.Joining? || st.client.Ended?) && st.client.session.None? ==> st.c2s.closed && st.s2c.closed)
    && (st.server.Ended? && st.server.session.None? ==> st.c2s.closed && st.s2c.closed)
  }

  /** Nobody sleeps through a frame or a close: no lost wake-up. */
  predicate SleepersNotified(st: State)
  {
    && (st.client == Asleep(false) ==> !Readable(st.s2c))
    && (st.server == Asleep(false) ==> !Readable(st.c2s))
  }

  /** A frame that has been sent is in its channel until it is taken. */
  predicate FramesInOrder(u: Setup, st: State)
  {
    && !st.client.Deriving? && !st.server.Starting? && !st.server.Joining?
    && (st.client.Sending? ==> Some(st.client.frame) == u.program.hello)
    && (st.server.Sending? || st.server.Deriving? ==> st.server.session.Some?)
    && (BeforeSend(st.client) ==> InReceive(st.server) && st.c2s.q == [])
    && (InReceive(st.server) ==> |st.c2s.q| <= 1)
    && (InReceive(st.server) || st.server.Deciding? || st.server.Sending? ==> st.s2c.q == [])
    && (!InReceive(st.server) ==> st.c2s.q == [])
    && (InReceive(st.server) && (InReceive(st.client) || Answered(st.client)) ==>
          u.program.hello.Some? && st.c2s.q == [u.program.hello.value])
    && (InReceive(st.client) && (st.server.Deriving? || (st.server.Ended? && st.server.session.Some?)) ==>
          st.s2c.q != [])
    && (Answered(st.client) ==> !InReceive(st.server) && !st.server.Deciding? && !st.server.Sending?)
  }

  predicate Order(u: Setup, st: State)
  {
    ClosedInOrder(st) && SleepersNotified(st) && FramesInOrder(u, st) && (st.client.Ended? ==> st.server.Ended?)
  }

  lemma ClosedKept(u: Setup, st: State, a: Action)
    requires Order(u, st) && Enabled(st, a)
    ensures ClosedInOrder(Apply(u, st, a)) && (Apply(u, st, a).client.Ended? ==> Apply(u, st, a).server.Ended?)
  {
    match a
    case Client(works) => ClosedAfterClient(u, st, works);
    case Server(works) => ClosedAfterServer(u, st, works);
    case _ =>
  }

  lemma ClosedAfterClient(u: Setup, st: State, works: bool)
    requires Order(u, st) && Enabled(st, Action.Client(works))
    ensures var st' := Apply(u, st, Action.Client(works));
            ClosedInOrder(st') && (st'.client.Ended? ==> st'.server.Ended?)
  {
  }

  lemma ClosedAfterServer(u: Setup, st: State, works: bool)
    requires Order(u, st) && Enabled(st, Action.Server(works))
    ensures var st' := Apply(u, st, Action.Server(works));
            ClosedInOrder(st') && (st'.client.Ended? ==> st'.server.Ended?)
  {
  }

  lemma SleepersKept(u: Setup, st: State, a: Action)
    requires Order(u, st) && Enabled(st, a)
    ensures SleepersNotified(Apply(u, st, a))
  {
  }

  lemma FramesKept(u: Setup, st: State, a: Action)
    requires Order(u, st) && Enabled(st, a)
    ensures FramesInOrder(u, Apply(u, st, a))
  {
    match a
    case Client(works) => FramesAfterClient(u, st, works);
    case Server(works) => FramesAfterServer(u, st, works);
    case RoundTrip(nonce, stamped, sent) => assert st.server.Ended?;
    case _ =>
  }

  lemma FramesAfterClient(u: Setup, st: State, works: bool)
    requires Order(u, st) && Enabled(st, Action.Client(works))
    ensures FramesInOrder(u, Apply(u, st, Action.Client(works)))
  {
    if BeforeSend(st.client) {
      FramesAfterClientSends(u, st, works);
    } else if InReceive(st.client) {
      FramesAfterClientReceives(u, st, works);
    } else {
      FramesAfterClientEnds(u, st, works);
    }
  }

  lemma FramesAfterClientSends(u: Setup, st: State, works: bool)
    requires Order(u, st) && Enabled(st, Action.Client(works)) && BeforeSend(st.client)
    ensures FramesInOrder(u, Apply(u, st, Action.Client(works)))
  {
  }

  lemma FramesAfterClientReceives(u: Setup, st: State, works: bool)
    requires Order(u, st) && Enabled(st, Action.Client(works)) && InReceive(st.client)
    ensures FramesInOrder(u, Apply(u, st, Action.Client(works)))
  {
  }

  lemma FramesAfterClientEnds(u: Setup, st: State, works: bool)
    requires Order(u, st) && Enabled(st, Action.Client(works)) && !BeforeSend(st.client) && !InReceive(st.client)
    ensures FramesInOrder(u, Apply(u, st, Action.Client(works)))
  {
  }

  lemma FramesAfterServer(u: Setup, st: State, works: bool)
    requires Order(u, st) && Enabled(st, Action.Server(works))
    ensures FramesInOrder(u, Apply(u, st, Action.Server(works)))
  {
    match st.server
    case Checking =>
    case Deciding(_) =>
    case Sending(_, _) =>
    case _ =>
  }

  lemma OrderKept(u: Setup, st: State, a: Action)
    requires Order(u, st) && Enabled(st, a)
    ensures Order(u, Apply(u, st, a))
  {
    ClosedKept(u, st, a);
    SleepersKept(u, st, a);
    FramesKept(u, st, a);
  }

  lemma {:induction false} OrderReached(u: Setup, spurious: nat, actions: seq<Action>)
    ensures Order(u, Reached(u, spurious, actions))
  {
    if actions != [] {
      var st := Reached(u, spurious, actions[..|actions| - 1]);
      OrderReached(u, spurious, actions[..|actions| - 1]);
      if Enabled(st, actions[|actions| - 1]) {
        OrderKept(u, st, actions[|actions| - 1]);
      }
    }
  }

  // ----- Termination -----

  function ClientWeight(pc: Pc): nat
  {
    match pc
    case Starting => 40
    case Sending(_, _) => 35
    case Checking => 24
    case Asleep(notified) => if notified then 25 else 23
    case Deciding(_) => 20
    case ClosingFirst => 15
    case ClosingSecond => 10
    case Joining(_) => 5
    case _ => 0
  }

  function ServerWeight(pc: Pc): nat
  {
    match pc
    case Checking => 44
    case Asleep(notified) => if notified then 45 else 43
    case Deciding(_) => 40
    case Sending(_, _) => 35
    case Deriving(_) => 20
    case ClosingFirst => 15
    case ClosingSecond => 10
    case _ => 0
  }

  function Measure(st: State): nat { ClientWeight(st.client) + ServerWeight(st.server) + 2 * st.spurious }

  predicate Threads(a: Action) { !a.RoundTrip? }

  lemma MeasureDrops(u: Setup, st: State, a: Action)
    requires Order(u, st) && Enabled(st, a) && Threads(a)
    ensures Measure(Apply(u, st, a)) < Measure(st)
  {
    match a
    case Client(works) => ClientLowers(u, st, works);
    case Server(works) => ServerLowers(u, st, works);
    case _ =>
  }

  lemma ClientLowers(u: Setup, st: State, works: bool)
    requires Order(u, st) && Enabled(st, Action.Client(works))
    ensures Measure(Apply(u, st, Action.Client(works))) < Measure(st)
  {
  }

  lemma ServerLowers(u: Setup, st: State, works: bool)
    requires Order(u, st) && Enabled(st, Action.Server(works))
    ensures Measure(Apply(u, st, Action.Server(works))) < Measure(st)
  {
  }

  /** Both threads finish: with any failures, any scheduling and any finite number of
      spurious wake-ups, every step of a thread lowers a natural number, and until both
      have ended one of them can run without a spurious wake-up; so neither stays blocked. */
  lemma BothThreadsFinish(u: Setup, spurious: nat, actions: seq<Action>, a: Action, works: bool)
    ensures var st := Reached(u, spurious, actions);
            && (Enabled(st, a) && Threads(a) ==> Measure(Apply(u, st, a)) < Measure(st))
            && ((st.client.Ended? && st.server.Ended?)
                || Enabled(st, Action.Client(works)) || Enabled(st, Action.Server(works)))
  {
    var st := Reached(u, spurious, actions);
    OrderReached(u, spurious, actions);
    if Enabled(st, a) && Threads(a) {
      MeasureDrops(u, st, a);
    }
  }

  // ----- When nothing fails -----

  /** Without faults no thread fails and every frame and session is the expected one. */
  predicate Faultless(u: Setup, st: State)
  {
    && !Failing(st.client) && !Failing(st.server) && !st.c2s.closed && !st.s2c.closed
    && (forall f :: f in st.c2s.q ==> Some(f) == u.program.hello)
    && (forall f :: f in st.s2c.q ==> f == u.response)
    && (st.client.Deciding? ==> st.client.frame == u.response)
    && (st.server.Deciding? ==> Some(st.server.frame) == u.program.hello)
    && (st.server.Sending? ==> st.server.frame == u.response)
    && ((st.client.Joining? || st.client.Ended?) ==> st.client.session == Some(Established(u.key, u.serverPub)))
    && ((st.server.Sending? || st.server.Deriving? || st.server.Ended?) ==>
          st.server.session == Some(Established(u.key, u.clientPub)))
    && (st.plain.Some? ==> st.plain == Some(u.message))
  }

  lemma FaultlessKept(u: Setup, st: State, a: Action)
    requires Valid(u) && Order(u, st) && Enabled(st, a)
    requires Faultless(u, st) && !Apply(u, st, a).faults
    ensures Faultless(u, Apply(u, st, a))
  {
    match a
    case Client(works) =>
      assert st.s2c.q != [] ==> st.s2c.q[0] in st.s2c.q && forall f :: f in st.s2c.q[1..] ==> f in st.s2c.q;
    case Server(works) =>
      assert st.c2s.q != [] ==> st.c2s.q[0] in st.c2s.q && forall f :: f in st.c2s.q[1..] ==> f in st.c2s.q;
    case RoundTrip(nonce, stamped, sent) =>
      var r := u.program.seal(u.key, u.message, nonce, stamped, sent);
      assert r.Ok? && u.program.open(u.key, r.value) == Ok(u.message);
      assert ([] + [r.value])[0] == r.value && st.c2s.q == [];
    case _ =>
  }

  lemma {:induction false} FaultlessReached(u: Setup, spurious: nat, actions: seq<Action>)
    requires Valid(u) && !Reached(u, spurious, actions).faults
    ensures Faultless(u, Reached(u, spurious, actions))
  {
    if actions != [] {
      var st := Reached(u, spurious, actions[..|actions| - 1]);
      OrderReached(u, spurious, actions[..|actions| - 1]);
      FaultlessReached(u, spurious, actions[..|actions| - 1]);
      if Enabled(st, actions[|actions| - 1]) {
        FaultlessKept(u, st, actions[|actions| - 1]);
      }
    }
  }

  /** If no library call fails, then whatever the scheduling both handshakes return true
      with equal keys, each peer is the other's identity, and the message main sends
      through c2s afterwards is decrypted to itself, at any times. */
  lemma LoopbackSucceeds(u: Setup, spurious: nat, actions: seq<Action>, nonce: Bytes, stamped: int, sent: int)
    requires Valid(u) && |nonce| == NONCE_SIZE && Timestamp(stamped) && Timestamp(sent)
    requires var st := Reached(u, spurious, actions); !st.faults && st.client.Ended? && st.plain.None?
    ensures var st := Reached(u, spurious, actions);
            && st.client.session == Some(Established(u.key, u.serverPub))
            && st.server == Ended(Some(Established(u.key, u.clientPub)))
            && Apply(u, st, RoundTrip(nonce, stamped, sent)).plain == Some(u.message)
  {
    var st := Reached(u, spurious, actions);
    OrderReached(u, spurious, actions);
    FaultlessReached(u, spurious, actions);
    var r := u.program.seal(u.key, u.message, nonce, stamped, sent);
    assert r.Ok? && u.program.open(u.key, r.value) == Ok(u.message);
    assert ([] + [r.value])[0] == r.value && st.c2s.q == [];
  }

  // ----- Whatever fails -----

  /** Also in runs with faults every frame and every session is the expected one. */
  predicate Expected(u: Setup, st: State)
  {
    && (forall f :: f in st.c2s.q ==> Some(f) == u.program.hello)
    && (forall f :: f in st.s2c.q ==> f == u.response)
    && (st.client.Deciding? ==> st.client.frame == u.response)
    && (st.server.Deciding? ==> Some(st.server.frame) == u.program.hello)
    && (st.server.Sending? ==> st.server.frame == u.response)
    && ((st.client.Joining? || st.client.Ended?) ==>
          st.client.session in {None, Some(Established(u.key, u.serverPub))})
    && ((st.server.Sending? || st.server.Deriving? || st.server.Ended?) ==>
          st.server.session in {None, Some(Established(u.key, u.clientPub))})
  }

  lemma ExpectedKept(u: Setup, st: State, a: Action)
    requires Valid(u) && Order(u, st) && Enabled(st, a) && Expected(u, st)
    ensures Expected(u, Apply(u, st, a))
  {
    match a
    case Client(works) => ExpectedAfterClient(u, st, works);
    case Server(works) => ExpectedAfterServer(u, st, works);
    case RoundTrip(nonce, stamped, sent) => assert st.c2s.q == [];
    case _ =>
  }

  lemma ExpectedAfterClient(u: Setup, st: State, works: bool)
    requires Valid(u) && Order(u, st) && Enabled(st, Action.Client(works)) && Expected(u, st)
    ensures Expected(u, Apply(u, st, Action.Client(works)))
  {
    if st.s2c.q != [] {
      assert st.s2c.q[0] in st.s2c.q && forall f :: f in st.s2c.q[1..] ==> f in st.s2c.q;
    }
  }

  lemma ExpectedAfterServer(u: Setup, st: State, works: bool)
    requires Valid(u) && Order(u, st) && Enabled(st, Action.Server(works)) && Expected(u, st)
    ensures Expected(u, Apply(u, st, Action.Server(works)))
  {
    if st.c2s.q != [] {
      assert st.c2s.q[0] in st.c2s.q && forall f :: f in st.c2s.q[1..] ==> f in st.c2s.q;
    }
  }

  /** A thread that returns true has, whatever failed anywhere, the key and the peer it should. */
  lemma {:induction false} ExpectedReached(u: Setup, spurious: nat, actions: seq<Action>)
    requires Valid(u)
    ensures Expected(u, Reached(u, spurious, actions))
  {
    if actions != [] {
      var st := Reached(u, spurious, actions[..|actions| - 1]);
      OrderReached(u, spurious, actions[..|actions| - 1]);
      ExpectedReached(u, spurious, actions[..|actions| - 1]);
      if Enabled(st, actions[|actions| - 1]) {
        ExpectedKept(u, st, actions[|actions| - 1]);
      }
    }
  }

  /** Where library calls are made, a failed one makes the handshake return false. */
  lemma FaultsFail(u: Setup, st: State)
    ensures st.client.Starting? || st.client.Deciding? ==> Failing(ClientStep(u, st, false).client)
    ensures st.server.Deciding? || st.server.Deriving? ==> Failing(ServerStep(u, st, false).server)
  {
  }

  /** A handshake that has returned false stays so, to the end of its thread. */
  lemma FailureIsFinal(u: Setup, st: State, a: Action)
    requires Enabled(st, a)
    ensures Failing(st.client) ==> Failing(Apply(u, st, a).client)
    ensures Failing(st.server) ==> Failing(Apply(u, st, a).server)
  {
  }

  // ----- The engines of this program -----

  const CLIENT: Bytes := Ascii("client")
  const SERVER: Bytes := Ascii("server")
  const GREETING: Bytes := Ascii("hello loopback")

  function EngineSetup(p: Primitives, server: Identity, client: Identity, clientCoins: Bytes, serverCoins: Bytes): Setup
  {
    var program := EngineProgram(p, server, client, clientCoins, serverCoins, CLIENT, SERVER);
    Setup(program, server.pub, client.pub, ResponseOf(program), AgreedKey(p, clientCoins, serverCoins), GREETING)
  }

  /** The results above hold of two connection engines with any genuine identities. */
  lemma EngineSetupValid(p: Primitives, server: Identity, client: Identity, clientCoins: Bytes, serverCoins: Bytes)
    requires Lawful(p) && Genuine(p, server) && Genuine(p, client)
    ensures Valid(EngineSetup(p, server, client, clientCoins, serverCoins))
  {
    AsciiIsUtf8(CLIENT);
    AsciiIsUtf8(SERVER);
    EngineProgramLawful(p, server, client, clientCoins, serverCoins, CLIENT, SERVER);
  }
}
