/** The relay (relay_server.cpp): the room table and its three critical sections, then
    all session threads as a machine whose steps are those sections, the blocking
    reads, and the single writes made outside the lock. */
module Relay {
  import opened ByteStrings

  /** A session object; sessions are numbered in the order they are accepted. */
  type Sid = nat

  type Rooms = map<string, seq<Sid>>

  // ----- The critical sections, as functions of the room table -----

  /** remove_if: what is not in `gone`, in order. */
  function Without(v: seq<Sid>, gone: set<Sid>): (r: seq<Sid>)
    ensures forall x :: x in r <==> x in v && x !in gone
  {
    if v == [] then []
    else var rest := Without(v[..|v| - 1], gone);
         if v[|v| - 1] in gone then rest else rest + [v[|v| - 1]]
  }

  function Members(rooms: Rooms, room: string): seq<Sid>
  {
    if room in rooms then rooms[room] else []
  }

  function Joined(rooms: Rooms, room: string, me: Sid, expired: set<Sid>): Rooms
  {
    rooms[room := Without(Members(rooms, room), expired) + [me]]
  }

  function Swept(rooms: Rooms, room: string, expired: set<Sid>): Rooms
  {
    if room in rooms then rooms[room := Without(rooms[room], expired)] else rooms
  }

  function Peers(rooms: Rooms, room: string, me: Sid, expired: set<Sid>): seq<Sid>
  {
    Without(Members(rooms, room), expired + {me})
  }

  function Departed(rooms: Rooms, room: string, me: Sid, expired: set<Sid>): Rooms
  {
    if room !in rooms then rooms
    else
      var left := Without(rooms[room], expired + {me});
      if left == [] then rooms - {room} else rooms[room := left]
  }

  /** g_rooms. The weak pointers that are expired are an argument of each section. */
  class RoomTable {
    var rooms: Rooms

    constructor ()
      ensures rooms == map[]
    {
      rooms := map[];
    }

    /** vec.erase(remove_if(...)) over a copy of one room's vector. */
    static method Erase(v: seq<Sid>, gone: set<Sid>) returns (r: seq<Sid>)
      ensures r == Without(v, gone)
    {
      r := [];
      for i := 0 to |v|
        invariant r == Without(v[..i], gone)
      {
        if v[i] !in gone {
          r := r + [v[i]];
        }
        assert v[..i + 1][..i] == v[..i];
      }
      assert v[..|v|] == v;
    }

    method Join(room: string, me: Sid, expired: set<Sid>)
      modifies this
      ensures rooms == Joined(old(rooms), room, me, expired)
    {
      if room !in rooms {
        rooms := rooms[room := []];
      }
      var kept := Erase(rooms[room], expired);
      rooms := rooms[room := kept];
      rooms := rooms[room := rooms[room] + [me]];
    }

    method Snapshot(room: string, me: Sid, expired: set<Sid>) returns (peers: seq<Sid>)
      modifies this
      ensures peers == Peers(old(rooms), room, me, expired)
      ensures rooms == Swept(old(rooms), room, expired)
    {
      peers := [];
      if room in rooms {
        var v := rooms[room];
        for i := 0 to |v|
          invariant peers == Without(v[..i], expired + {me})
        {
          if v[i] !in expired && v[i] != me {
            peers := peers + [v[i]];
          }
          assert v[..i + 1][..i] == v[..i];
        }
        assert v[..|v|] == v;
        var kept := Erase(v, expired);
        rooms := rooms[room := kept];
      }
    }

    method Leave(room: string, me: Sid, expired: set<Sid>)
      modifies this
      ensures rooms == Departed(old(rooms), room, me, expired)
    {
      if room in rooms {
        var kept := Erase(rooms[room], expired + {me});
        rooms := rooms[room := kept];
        if rooms[room] == [] {
          rooms := rooms - {room};
        }
      }
    }
  }

  // ----- What the sections do to any table, reachable or not -----

  lemma {:induction false} WithoutAppend(v: seq<Sid>, w: seq<Sid>, gone: set<Sid>)
    ensures Without(v + w, gone) == Without(v, gone) + Without(w, gone)
  {
    if w == [] {
      assert v + w == v;
    } else {
      var n := |w| - 1;
      WithoutAppend(v, w[..n], gone);
      assert (v + w)[..|v + w| - 1] == v + w[..n] && (v + w)[|v + w| - 1] == w[n];
    }
  }

  /** Order and repetitions stay: each entry alone decides about itself. */
  lemma WithoutKeepsPlace(v: seq<Sid>, x: Sid, w: seq<Sid>, gone: set<Sid>)
    ensures Without(v + [x] + w, gone) ==
            Without(v, gone) + (if x in gone then [] else [x]) + Without(w, gone)
  {
    WithoutAppend(v + [x], w, gone);
    WithoutAppend(v, [x], gone);
    assert [x][..0] == [];
  }

  /** Each section touches one room only, drops the expired entries there and no other, and
      joining adds the session at the end, leaving removes it. */
  lemma SectionsTouchOneRoom(rooms: Rooms, room: string, other: string, me: Sid, expired: set<Sid>, s: Sid)
    ensures other != room ==> Members(Joined(rooms, room, me, expired), other) == Members(rooms, other)
                           == Members(Swept(rooms, room, expired), other)
                           == Members(Departed(rooms, room, me, expired), other)
    ensures var v := Members(Joined(rooms, room, me, expired), room); v != [] && v[|v| - 1] == me
    ensures s in Members(Joined(rooms, room, me, expired), room) <==>
            s == me || (s in Members(rooms, room) && s !in expired)
    ensures s in Members(Swept(rooms, room, expired), room) <==> s in Members(rooms, room) && s !in expired
    ensures s in Members(Departed(rooms, room, me, expired), room) <==>
            s in Members(rooms, room) && s !in expired && s != me
    ensures s in Peers(rooms, room, me, expired) <==> s in Members(rooms, room) && s !in expired && s != me
    ensures room !in Departed(rooms, room, me, expired) || Members(Departed(rooms, room, me, expired), room) != []
  {
  }

  // ----- The machine -----

  /** Who owns a session object: the accepting function, its own thread, or the peer
      vector of a thread that is fanning out. */
  datatype Holder = Acceptor | Thread | Vector(of: Sid)

  datatype Pc =
    | Starting                                 // thread created, not yet in the room table
    | Reading                                  // in the read call
    | Holding                                  // has read a frame, snapshot not taken
    | Writing(peers: seq<Sid>, next: nat)      // writing to peers[next]
    | Leaving                                  // read loop over, still in the table
    | Returned                                 // out of the table, thread not yet ended
    | Ended

  /** A write call on a session's socket: which frame of whose thread, and its outcome. */
  datatype Attempt = Attempt(from: Sid, index: int, ok: bool)

  /** `frames` are the frames read so far and `snaps` how many of them have been
      snapshotted. `attempts` are the writes made to this session. `atJoin` and
      `atLeave` record every session's snaps at the moment of joining and leaving. */
  datatype Session = Session(
    room: string, pc: Pc, holders: set<Holder>, frames: seq<Bytes>, snaps: nat,
    attempts: seq<Attempt>, atJoin: seq<nat>, atLeave: seq<nat>)

  /** `log` lists the sessions in the order they joined. */
  datatype State = State(rooms: Rooms, sessions: seq<Session>, log: seq<Sid>)

  const INITIAL := State(map[], [], [])

  datatype Action =
    | Accept(room: string)          // upgrade accepted, detached thread created
    | AcceptorReturns(s: Sid)
    | Join(s: Sid)
    | Read(s: Sid, frame: Bytes)
    | ReadFails(s: Sid)
    | Snapshot(s: Sid)
    | Write(s: Sid, ok: bool)
    | Leave(s: Sid)
    | ThreadEnds(s: Sid)

  function Expired(st: State): set<Sid>
  {
    set s | 0 <= s < |st.sessions| && st.sessions[s].holders == {}
  }

  function Snaps(st: State): seq<nat>
  {
    seq(|st.sessions|, i requires 0 <= i < |st.sessions| => st.sessions[i].snaps)
  }

  /** Copies of shared pointers to ps are made by, respectively destroyed with, t's vector. */
  function Hold(ss: seq<Session>, ps: seq<Sid>, t: Sid): (r: seq<Session>)
    ensures |r| == |ss|
    ensures forall i :: 0 <= i < |r| ==>
                          r[i] == if i in ps then ss[i].(holders := ss[i].holders + {Vector(t)}) else ss[i]
  {
    seq(|ss|, i requires 0 <= i < |ss| => if i in ps then ss[i].(holders := ss[i].holders + {Vector(t)}) else ss[i])
  }

  function Release(ss: seq<Session>, ps: seq<Sid>, t: Sid): (r: seq<Session>)
    ensures |r| == |ss|
    ensures forall i :: 0 <= i < |r| ==>
                          r[i] == if i in ps then ss[i].(holders := ss[i].holders - {Vector(t)}) else ss[i]
  {
    seq(|ss|, i requires 0 <= i < |ss| => if i in ps then ss[i].(holders := ss[i].holders - {Vector(t)}) else ss[i])
  }

  predicate At(st: State, s: Sid) { s < |st.sessions| }

  function Put(st: State, s: Sid, x: Session): State
    requires At(st, s)
  {
    st.(sessions := st.sessions[s := x])
  }

  predicate Enabled(st: State, a: Action)
  {
    match a
    case Accept(_) => true
    case AcceptorReturns(s) => At(st, s) && Acceptor in st.sessions[s].holders
    case Join(s) => At(st, s) && st.sessions[s].pc.Starting?
    case Read(s, _) => At(st, s) && st.sessions[s].pc.Reading?
    case ReadFails(s) => At(st, s) && st.sessions[s].pc.Reading?
    case Snapshot(s) => At(st, s) && st.sessions[s].pc.Holding?
    case Write(s, _) =>
      At(st, s) && st.sessions[s].pc.Writing? && st.sessions[s].pc.next < |st.sessions[s].pc.peers|
      && At(st, st.sessions[s].pc.peers[st.sessions[s].pc.next])
    case Leave(s) => At(st, s) && st.sessions[s].pc.Leaving?
    case ThreadEnds(s) => At(st, s) && st.sessions[s].pc.Returned?
  }

  /** After a snapshot or a write: the vector goes out of scope after its last peer. */
  function Continue(ss: seq<Session>, s: Sid): (r: seq<Session>)
    requires s < |ss| && ss[s].pc.Writing?
    ensures |r| == |ss|
    ensures forall i :: 0 <= i < |r| ==>
                          r[i] == ss[i].(pc := r[i].pc, holders := r[i].holders) && (i != s ==> r[i].pc == ss[i].pc)
    ensures r[s].pc == if ss[s].pc.next < |ss[s].pc.peers| then ss[s].pc else Reading
  {
    if ss[s].pc.next < |ss[s].pc.peers| then ss
    else var rs := Release(ss, ss[s].pc.peers, s); rs[s := rs[s].(pc := Reading)]
  }

  function Apply(st: State, a: Action): State
    requires Enabled(st, a)
  {
    match a
    case Accept(room) =>
      st.(sessions := st.sessions + [Session(room, Starting, {Acceptor, Thread}, [], 0, [], [], [])])
    case AcceptorReturns(s) =>
      Put(st, s, st.sessions[s].(holders := st.sessions[s].holders - {Acceptor}))
    case Join(s) =>
      var x := st.sessions[s];
      Put(st, s, x.(pc := Reading, atJoin := Snaps(st)))
      .(rooms := Joined(st.rooms, x.room, s, Expired(st)), log := st.log + [s])
    case Read(s, frame) =>
      var x := st.sessions[s];
      Put(st, s, x.(pc := Holding, frames := x.frames + [frame]))
    case ReadFails(s) =>
      Put(st, s, st.sessions[s].(pc := Leaving))
    case Snapshot(s) =>
      var x := st.sessions[s];
      var peers := Peers(st.rooms, x.room, s, Expired(st));
      var ss := st.sessions[s := x.(pc := Writing(peers, 0), snaps := x.snaps + 1)];
      st.(sessions := Continue(Hold(ss, peers, s), s), rooms := Swept(st.rooms, x.room, Expired(st)))
    case Write(s, ok) =>
      var x := st.sessions[s];
      var p := x.pc.peers[x.pc.next];
      var y := st.sessions[p];
      var ss := st.sessions[p := y.(attempts := y.attempts + [Attempt(s, x.snaps - 1, ok)])];
      st.(sessions := Continue(ss[s := ss[s].(pc := Writing(x.pc.peers, x.pc.next + 1))], s))
    case Leave(s) =>
      var x := st.sessions[s];
      Put(st, s, x.(pc := Returned, atLeave := Snaps(st)))
      .(rooms := Departed(st.rooms, x.room, s, Expired(st)))
    case ThreadEnds(s) =>
      Put(st, s, st.sessions[s].(pc := Ended, holders := st.sessions[s].holders - {Thread}))
  }

  /** A disabled action changes nothing, so all action lists give exactly the reachable states. */
  function Step(st: State, a: Action): State
  {
    if Enabled(st, a) then Apply(st, a) else st
  }

  function Reached(actions: seq<Action>): State
  {
    if actions == [] then INITIAL else Step(Reached(actions[..|actions| - 1]), actions[|actions| - 1])
  }
}
