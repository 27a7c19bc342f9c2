/** What holds in every reachable state of the relay: the room table is the list of
    present sessions in join order, no pointer in it is expired, and each pair of
    sessions sees one contiguous block of frames. */
module RelayInvariants {
  import opened ByteStrings
  import opened Relay

  /** In the room table: from Join until Leave. */
  predicate InTable(pc: Pc) { pc.Reading? || pc.Holding? || pc.Writing? || pc.Leaving? }

  predicate HasLeft(pc: Pc) { pc.Returned? || pc.Ended? }

  predicate PresentIn(ss: seq<Session>, s: Sid, room: string)
  {
    s < |ss| && ss[s].room == room && InTable(ss[s].pc)
  }

  /** The sessions of the log that are in the room now, in join order. */
  function Present(log: seq<Sid>, ss: seq<Session>, room: string): (r: seq<Sid>)
    ensures forall s :: s in r <==> s in log && PresentIn(ss, s, room)
  {
    if log == [] then []
    else
      var rest := Present(log[..|log| - 1], ss, room);
      if PresentIn(ss, log[|log| - 1], room) then rest + [log[|log| - 1]] else rest
  }

  predicate Distinct(v: seq<Sid>) { forall i, j :: 0 <= i < j < |v| ==> v[i] != v[j] }

  // ----- The invariants -----

  ghost predicate LogInOrder(st: State)
  {
    && Distinct(st.log)
    && (forall s: Sid :: s in st.log <==> s < |st.sessions| && !st.sessions[s].pc.Starting?)
  }

  ghost predicate RegistryExact(st: State)
  {
    && (forall room :: Members(st.rooms, room) == Present(st.log, st.sessions, room))
    && (forall room :: room in st.rooms ==> st.rooms[room] != [])
  }

  /** What session s's thread holds on to while it fans out. */
  predicate FanOutInOrder(ss: seq<Session>, s: Sid)
    requires s < |ss|
  {
    var x := ss[s];
    && |x.frames| == x.snaps + (if x.pc.Holding? then 1 else 0)
    && (x.pc.Starting? ==> x.snaps == 0)
    && (x.pc.Writing? ==>
          && 0 < x.snaps && x.pc.next < |x.pc.peers| && Distinct(x.pc.peers)
          && forall p :: p in x.pc.peers ==> p < |ss| && p != s && ss[p].room == x.room && !ss[p].pc.Starting?)
  }

  predicate Owns(ss: seq<Session>, p: Sid, h: Holder)
    requires p < |ss|
  {
    match h
    case Acceptor => true
    case Thread => !ss[p].pc.Ended?
    case Vector(t) => t < |ss| && ss[t].pc.Writing? && p in ss[t].pc.peers
  }

  /** Every holder is accounted for, and threads and vectors do hold. */
  ghost predicate HoldersExact(ss: seq<Session>, p: Sid)
    requires p < |ss|
  {
    forall h: Holder :: !h.Acceptor? ==> (h in ss[p].holders <==> Owns(ss, p, h))
  }

  ghost predicate Base(st: State)
  {
    && LogInOrder(st) && RegistryExact(st)
    && (forall s :: 0 <= s < |st.sessions| ==> FanOutInOrder(st.sessions, s))
    && (forall p :: 0 <= p < |st.sessions| ==> HoldersExact(st.sessions, p))
  }

  // ----- Lemmas on the filters -----

  lemma {:induction false} WithoutNothing(v: seq<Sid>, gone: set<Sid>)
    requires forall x :: x in v ==> x !in gone
    ensures Without(v, gone) == v
  {
    if v != [] {
      WithoutNothing(v[..|v| - 1], gone);
      assert v == v[..|v| - 1] + [v[|v| - 1]];
    }
  }

  lemma {:induction false} SamePresent(log: seq<Sid>, ss: seq<Session>, ss': seq<Session>, room: string)
    requires forall s :: s in log ==> (PresentIn(ss, s, room) <==> PresentIn(ss', s, room))
    ensures Present(log, ss, room) == Present(log, ss', room)
  {
    if log != [] {
      SamePresent(log[..|log| - 1], ss, ss', room);
    }
  }

  lemma {:induction false} PresentWithout(log: seq<Sid>, ss: seq<Session>, ss': seq<Session>,
                                          room: string, gone: set<Sid>)
    requires forall s :: s in log ==> (PresentIn(ss', s, room) <==> PresentIn(ss, s, room) && s !in gone)
    ensures Present(log, ss', room) == Without(Present(log, ss, room), gone)
  {
    if log != [] {
      var n := |log| - 1;
      PresentWithout(log[..n], ss, ss', room, gone);
      var rest := Present(log[..n], ss, room);
      assert (rest + [log[n]])[..|rest|] == rest;
    }
  }

  lemma {:induction false} PresentDistinct(log: seq<Sid>, ss: seq<Session>, room: string)
    requires Distinct(log)
    ensures Distinct(Present(log, ss, room))
  {
    if log != [] {
      PresentDistinct(log[..|log| - 1], ss, room);
    }
  }

  lemma {:induction false} WithoutDistinct(v: seq<Sid>, gone: set<Sid>)
    requires Distinct(v)
    ensures Distinct(Without(v, gone))
  {
    if v != [] {
      WithoutDistinct(v[..|v| - 1], gone);
    }
  }

  // ----- Lifetime -----

  /** No session in the table is expired: its own thread holds it. */
  lemma TableAlive(st: State, room: string)
    requires Base(st)
    ensures forall s :: s in Members(st.rooms, room) ==>
                          s < |st.sessions| && Thread in st.sessions[s].holders && s !in Expired(st)
  {
    forall s | s in Members(st.rooms, room)
      ensures s < |st.sessions| && Thread in st.sessions[s].holders && s !in Expired(st)
    {
      assert s in Present(st.log, st.sessions, room);
      assert HoldersExact(st.sessions, s) && Owns(st.sessions, s, Thread);
    }
  }

  /** Hence each clean-up of expired pointers removes nothing. */
  lemma CleanUpIsIdle(st: State, room: string, me: Sid)
    requires Base(st)
    ensures Without(Members(st.rooms, room), Expired(st)) == Members(st.rooms, room)
    ensures Swept(st.rooms, room, Expired(st)) == st.rooms
    ensures Peers(st.rooms, room, me, Expired(st)) == Without(Members(st.rooms, room), {me})
  {
    var v := Members(st.rooms, room);
    TableAlive(st, room);
    WithoutNothing(v, Expired(st));
    WithoutAlso(v, Expired(st), me);
  }

  lemma {:induction false} WithoutAlso(v: seq<Sid>, gone: set<Sid>, me: Sid)
    requires forall x :: x in v ==> x !in gone
    ensures Without(v, gone + {me}) == Without(v, {me})
  {
    if v != [] {
      WithoutAlso(v[..|v| - 1], gone, me);
    }
  }

  lemma PeersAre(st: State, s: Sid)
    requires Base(st) && s < |st.sessions|
    ensures var peers := Peers(st.rooms, st.sessions[s].room, s, Expired(st));
            && Distinct(peers)
            && forall p: Sid :: p in peers <==> p != s && PresentIn(st.sessions, p, st.sessions[s].room)
  {
    var room := st.sessions[s].room;
    CleanUpIsIdle(st, room, s);
    PresentDistinct(st.log, st.sessions, room);
    WithoutDistinct(Members(st.rooms, room), {s});
    forall p: Sid ensures p in Without(Members(st.rooms, room), {s}) <==> p != s && PresentIn(st.sessions, p, room) {
      assert p in Members(st.rooms, room) <==> p in Present(st.log, st.sessions, room);
    }
  }

  // ----- Preservation -----

  /** What no step but Join and Leave changes for the room table. */
  ghost predicate SameTable(st: State, st': State)
  {
    && |st.sessions| <= |st'.sessions| && st'.rooms == st.rooms && st'.log == st.log
    && forall i, room :: 0 <= i < |st.sessions| ==>
                           (PresentIn(st'.sessions, i, room) <==> PresentIn(st.sessions, i, room))
  }

  lemma RegistryOfSameTable(st: State, st': State)
    requires LogInOrder(st) && RegistryExact(st) && SameTable(st, st')
    ensures RegistryExact(st')
  {
    forall room ensures Members(st'.rooms, room) == Present(st'.log, st'.sessions, room) {
      SamePresent(st.log, st.sessions, st'.sessions, room);
    }
  }

  lemma RegistryAfterJoin(st: State, s: Sid)
    requires Base(st) && Enabled(st, Join(s))
    ensures RegistryExact(Apply(st, Join(s)))
  {
    var st' := Apply(st, Join(s));
    var mine := st.sessions[s].room;
    CleanUpIsIdle(st, mine, s);
    assert s !in st.log;
    forall room ensures Members(st'.rooms, room) == Present(st'.log, st'.sessions, room) {
      assert st'.log[..|st.log|] == st.log;
      SamePresent(st.log, st.sessions, st'.sessions, room);
      assert Members(st.rooms, room) == Present(st.log, st.sessions, room);
    }
  }

  lemma RegistryAfterLeave(st: State, s: Sid)
    requires Base(st) && Enabled(st, Leave(s))
    ensures RegistryExact(Apply(st, Leave(s)))
  {
    var st' := Apply(st, Leave(s));
    var mine := st.sessions[s].room;
    CleanUpIsIdle(st, mine, s);
    assert PresentIn(st.sessions, s, mine) && s in st.log;
    assert s in Members(st.rooms, mine);
    forall room ensures Members(st'.rooms, room) == Present(st'.log, st'.sessions, room) {
      assert Members(st.rooms, room) == Present(st.log, st.sessions, room);
      if room == mine {
        PresentWithout(st.log, st.sessions, st'.sessions, room, {s});
      } else {
        SamePresent(st.log, st.sessions, st'.sessions, room);
      }
    }
  }

  /** Steps that only change one session, and not whether it is in the table. */
  predicate Local(a: Action) { a.AcceptorReturns? || a.Read? || a.ReadFails? || a.ThreadEnds? }

  lemma LocalShape(st: State, a: Action)
    requires Enabled(st, a) && Local(a)
    ensures SameTable(st, Apply(st, a)) && |Apply(st, a).sessions| == |st.sessions|
  {
  }

  lemma WriteShape(st: State, s: Sid, ok: bool)
    requires Enabled(st, Write(s, ok))
    ensures SameTable(st, Apply(st, Write(s, ok))) && |Apply(st, Write(s, ok)).sessions| == |st.sessions|
  {
  }

  lemma SnapshotShape(st: State, s: Sid)
    requires Base(st) && Enabled(st, Snapshot(s))
    ensures SameTable(st, Apply(st, Snapshot(s))) && |Apply(st, Snapshot(s)).sessions| == |st.sessions|
  {
    CleanUpIsIdle(st, st.sessions[s].room, s);
  }

  lemma LogOfSameTable(st: State, st': State)
    requires LogInOrder(st) && st'.log == st.log && |st'.sessions| == |st.sessions|
    requires forall i :: 0 <= i < |st.sessions| ==> st'.sessions[i].pc.Starting? == st.sessions[i].pc.Starting?
    ensures LogInOrder(st')
  {
  }

  lemma RegistryKept(st: State, a: Action)
    requires Base(st) && Enabled(st, a)
    ensures RegistryExact(Apply(st, a))
  {
    match a
    case Accept(_) => RegistryOfSameTable(st, Apply(st, a));
    case Join(s) => RegistryAfterJoin(st, s);
    case Leave(s) => RegistryAfterLeave(st, s);
    case Snapshot(s) =>
      SnapshotShape(st, s);
      RegistryOfSameTable(st, Apply(st, a));
    case Write(s, ok) =>
      WriteShape(st, s, ok);
      RegistryOfSameTable(st, Apply(st, a));
    case _ =>
      LocalShape(st, a);
      RegistryOfSameTable(st, Apply(st, a));
  }

  lemma TableSame(st: State, a: Action, i: Sid)
    requires Enabled(st, a) && !a.Accept? && !a.Join? && i < |st.sessions|
    ensures Apply(st, a).log == st.log && |Apply(st, a).sessions| == |st.sessions|
    ensures Apply(st, a).sessions[i].pc.Starting? == st.sessions[i].pc.Starting?
  {
  }

  lemma LogKept(st: State, a: Action)
    requires Base(st) && Enabled(st, a)
    ensures LogInOrder(Apply(st, a))
  {
    if !a.Accept? && !a.Join? {
      TableSame(st, a, a.s);
      forall i: Sid | i < |st.sessions|
        ensures Apply(st, a).sessions[i].pc.Starting? == st.sessions[i].pc.Starting?
      {
        TableSame(st, a, i);
      }
      LogOfSameTable(st, Apply(st, a));
    }
  }

  /** Sessions keep their room and stay started. */
  ghost predicate Grows(ss: seq<Session>, ss': seq<Session>)
  {
    |ss| <= |ss'| &&
    forall i :: 0 <= i < |ss| ==> ss'[i].room == ss[i].room && (ss'[i].pc.Starting? ==> ss[i].pc.Starting?)
  }

  lemma StepGrows(st: State, a: Action)
    requires Enabled(st, a)
    ensures Grows(st.sessions, Apply(st, a).sessions)
  {
  }

  lemma FanOutFrame(ss: seq<Session>, ss': seq<Session>, i: Sid)
    requires i < |ss| && FanOutInOrder(ss, i) && Grows(ss, ss')
    requires ss'[i].pc == ss[i].pc && ss'[i].frames == ss[i].frames && ss'[i].snaps == ss[i].snaps
    ensures FanOutInOrder(ss', i)
  {
  }

  lemma FanOutAfterSnapshot(st: State, s: Sid)
    requires Base(st) && Enabled(st, Snapshot(s))
    ensures FanOutInOrder(Apply(st, Snapshot(s)).sessions, s)
  {
    PeersAre(st, s);
    StepGrows(st, Snapshot(s));
    assert FanOutInOrder(st.sessions, s);
  }

  lemma FanOutAfterWrite(st: State, s: Sid, ok: bool)
    requires Base(st) && Enabled(st, Write(s, ok))
    ensures FanOutInOrder(Apply(st, Write(s, ok)).sessions, s)
  {
    StepGrows(st, Write(s, ok));
    assert FanOutInOrder(st.sessions, s);
  }

  /** A step changes no other session's program counter, frames or marks. */
  lemma OthersKeep(st: State, a: Action, i: Sid)
    requires Enabled(st, a) && i < |st.sessions| && (a.Accept? || a.s != i)
    ensures var x, x' := st.sessions[i], Apply(st, a).sessions[i];
            x' == x.(holders := x'.holders, attempts := x'.attempts)
  {
  }

  lemma FanOutAfterOwn(st: State, a: Action)
    requires Base(st) && Enabled(st, a) && !a.Accept?
    ensures FanOutInOrder(Apply(st, a).sessions, a.s)
  {
    if a.Snapshot? {
      FanOutAfterSnapshot(st, a.s);
    } else if a.Write? {
      FanOutAfterWrite(st, a.s, a.ok);
    } else {
      assert FanOutInOrder(st.sessions, a.s);
    }
  }

  lemma FanOutKept(st: State, a: Action, i: Sid)
    requires Base(st) && Enabled(st, a) && i < |Apply(st, a).sessions|
    ensures FanOutInOrder(Apply(st, a).sessions, i)
  {
    if !a.Accept? && i == a.s {
      FanOutAfterOwn(st, a);
    } else if i < |st.sessions| {
      StepGrows(st, a);
      OthersKeep(st, a, i);
      assert FanOutInOrder(st.sessions, i);
      FanOutFrame(st.sessions, Apply(st, a).sessions, i);
    }
  }

  lemma HoldersAfterAccept(st: State, room: string, p: Sid, h: Holder)
    requires Base(st) && p <= |st.sessions| && !h.Acceptor?
    ensures h in Apply(st, Accept(room)).sessions[p].holders <==> Owns(Apply(st, Accept(room)).sessions, p, h)
  {
    if p < |st.sessions| {
      assert HoldersExact(st.sessions, p);
    }
    match h
    case Vector(t) =>
      if t < |st.sessions| {
        assert FanOutInOrder(st.sessions, t);
      }
    case _ =>
  }

  lemma HoldersAfterSnapshot(st: State, s: Sid, p: Sid, h: Holder)
    requires Base(st) && Enabled(st, Snapshot(s)) && p < |st.sessions| && !h.Acceptor?
    ensures h in Apply(st, Snapshot(s)).sessions[p].holders <==> Owns(Apply(st, Snapshot(s)).sessions, p, h)
  {
    assert HoldersExact(st.sessions, p);
    SnapshotHolds(st, s, p, h);
    SnapshotOwns(st, s, p, h);
  }

  /** Taking a snapshot adds the thread's vector to the holders of its peers. */
  lemma SnapshotHolds(st: State, s: Sid, p: Sid, h: Holder)
    requires Enabled(st, Snapshot(s)) && p < |st.sessions|
    ensures var peers := Peers(st.rooms, st.sessions[s].room, s, Expired(st));
            h in Apply(st, Snapshot(s)).sessions[p].holders <==>
                 h in st.sessions[p].holders || (h == Vector(s) && p in peers)
  {
  }

  lemma SnapshotOwns(st: State, s: Sid, p: Sid, h: Holder)
    requires Enabled(st, Snapshot(s)) && p < |st.sessions| && !h.Acceptor?
    ensures var peers := Peers(st.rooms, st.sessions[s].room, s, Expired(st));
            Owns(Apply(st, Snapshot(s)).sessions, p, h) <==>
            if h == Vector(s) then p in peers else Owns(st.sessions, p, h)
  {
  }

  lemma HoldersAfterWrite(st: State, s: Sid, ok: bool, p: Sid, h: Holder)
    requires Base(st) && Enabled(st, Write(s, ok)) && p < |st.sessions| && !h.Acceptor?
    ensures h in Apply(st, Write(s, ok)).sessions[p].holders <==> Owns(Apply(st, Write(s, ok)).sessions, p, h)
  {
    assert HoldersExact(st.sessions, p);
  }

  lemma HoldersKept(st: State, a: Action, p: Sid)
    requires Base(st) && Enabled(st, a) && p < |Apply(st, a).sessions|
    ensures HoldersExact(Apply(st, a).sessions, p)
  {
    var ss, ss' := st.sessions, Apply(st, a).sessions;
    forall h: Holder | !h.Acceptor? ensures h in ss'[p].holders <==> Owns(ss', p, h) {
      match a
      case Accept(room) => HoldersAfterAccept(st, room, p, h);
      case Snapshot(s) => HoldersAfterSnapshot(st, s, p, h);
      case Write(s, ok) => HoldersAfterWrite(st, s, ok, p, h);
      case _ => assert HoldersExact(ss, p);
    }
  }

  lemma BaseKept(st: State, a: Action)
    requires Base(st) && Enabled(st, a)
    ensures Base(Apply(st, a))
  {
    LogKept(st, a);
    RegistryKept(st, a);
    forall i | 0 <= i < |Apply(st, a).sessions| ensures FanOutInOrder(Apply(st, a).sessions, i) {
      FanOutKept(st, a, i);
    }
    forall p | 0 <= p < |Apply(st, a).sessions| ensures HoldersExact(Apply(st, a).sessions, p) {
      HoldersKept(st, a, p);
    }
  }

  // ----- Delivery -----

  /** The frames of s that were written to a session, by index, in order of the writes. */
  function From(attempts: seq<Attempt>, s: Sid): seq<int>
  {
    if attempts == [] then []
    else
      var rest := From(attempts[..|attempts| - 1], s);
      var a := attempts[|attempts| - 1];
      if a.from == s then rest + [a.index] else rest
  }

  /** The frame that s's thread has yet to write to p in the current fan-out. */
  function Pending(ss: seq<Session>, s: Sid, p: Sid): seq<int>
    requires s < |ss|
  {
    var x := ss[s];
    if x.pc.Writing? && x.pc.next <= |x.pc.peers| && p in x.pc.peers[x.pc.next..] then [x.snaps - 1] else []
  }

  function MarkAt(marks: seq<nat>, s: Sid): nat { if s < |marks| then marks[s] else 0 }

  /** How many of s's frames had been snapshotted when p joined, and when it left. */
  function First(ss: seq<Session>, s: Sid, p: Sid): nat
    requires p < |ss|
  {
    MarkAt(ss[p].atJoin, s)
  }

  function Last(ss: seq<Session>, s: Sid, p: Sid): nat
    requires s < |ss| && p < |ss|
  {
    if HasLeft(ss[p].pc) then MarkAt(ss[p].atLeave, s) else ss[s].snaps
  }

  function Range(lo: nat, hi: nat): (r: seq<int>)
    requires lo <= hi
    ensures |r| == hi - lo && forall i :: 0 <= i < |r| ==> r[i] == lo + i
  {
    seq(hi - lo, i => lo + i)
  }

  predicate Reaches(ss: seq<Session>, s: Sid, p: Sid)
    requires s < |ss| && p < |ss|
  {
    s != p && ss[s].room == ss[p].room && !ss[p].pc.Starting?
  }

  /** What p gets from s: the block of s's frames snapshotted between p's Join and Leave,
      each exactly once and in order, up to the one still pending; nothing from itself
      or from another room. */
  predicate Delivery(ss: seq<Session>, s: Sid, p: Sid)
    requires s < |ss| && p < |ss|
  {
    && |ss[p].atJoin| <= |ss| && |ss[p].atLeave| <= |ss|
    && (if Reaches(ss, s, p)
        then First(ss, s, p) <= Last(ss, s, p) <= ss[s].snaps
             && From(ss[p].attempts, s) + Pending(ss, s, p) == Range(First(ss, s, p), Last(ss, s, p))
        else From(ss[p].attempts, s) == [] && Pending(ss, s, p) == [])
  }

  /** Only existing sessions write. */
  ghost predicate WritersKnown(ss: seq<Session>, p: Sid)
    requires p < |ss|
  {
    forall a :: a in ss[p].attempts ==> a.from < |ss| && 0 <= a.index < ss[a.from].snaps
  }

  ghost predicate Inv(st: State)
  {
    && Base(st)
    && (forall s, p :: 0 <= s < |st.sessions| && 0 <= p < |st.sessions| ==> Delivery(st.sessions, s, p))
    && (forall p :: 0 <= p < |st.sessions| ==> WritersKnown(st.sessions, p))
  }

  lemma {:induction false} FromNobody(attempts: seq<Attempt>, s: Sid)
    requires forall a :: a in attempts ==> a.from != s
    ensures From(attempts, s) == []
  {
    if attempts != [] {
      FromNobody(attempts[..|attempts| - 1], s);
    }
  }

  lemma DeliveryAfterAccept(st: State, room: string, s: Sid, p: Sid)
    requires Inv(st) && s <= |st.sessions| && p <= |st.sessions|
    ensures Delivery(Apply(st, Accept(room)).sessions, s, p)
  {
    var ss := st.sessions;
    if s < |ss| && p < |ss| {
      assert Delivery(ss, s, p);
    } else if p < |ss| {
      assert WritersKnown(ss, p) && Delivery(ss, p, p);
      FromNobody(ss[p].attempts, s);
    } else if s < |ss| {
      assert FanOutInOrder(ss, s);
    }
  }

  lemma DeliveryAfterJoin(st: State, me: Sid, s: Sid, p: Sid)
    requires Inv(st) && Enabled(st, Join(me)) && s < |st.sessions| && p < |st.sessions|
    ensures Delivery(Apply(st, Join(me)).sessions, s, p)
  {
    assert Delivery(st.sessions, s, p);
  }

  lemma DeliveryAfterLeave(st: State, me: Sid, s: Sid, p: Sid)
    requires Inv(st) && Enabled(st, Leave(me)) && s < |st.sessions| && p < |st.sessions|
    ensures Delivery(Apply(st, Leave(me)).sessions, s, p)
  {
    assert Delivery(st.sessions, s, p);
  }

  /** Delivery from s to p depends on few things. */
  lemma DeliveryFrame(ss: seq<Session>, ss': seq<Session>, s: Sid, p: Sid)
    requires s < |ss| && p < |ss| && |ss| <= |ss'| && Delivery(ss, s, p)
    requires ss'[p].atJoin == ss[p].atJoin && ss'[p].atLeave == ss[p].atLeave
    requires From(ss'[p].attempts, s) == From(ss[p].attempts, s) && Pending(ss', s, p) == Pending(ss, s, p)
    requires ss'[s].room == ss[s].room && ss'[p].room == ss[p].room && ss'[s].snaps == ss[s].snaps
    requires ss'[p].pc.Starting? == ss[p].pc.Starting? && HasLeft(ss'[p].pc) == HasLeft(ss[p].pc)
    ensures Delivery(ss', s, p)
  {
  }

  lemma DeliveryAfterLocal(st: State, a: Action, s: Sid, p: Sid)
    requires Inv(st) && Enabled(st, a) && Local(a) && s < |st.sessions| && p < |st.sessions|
    ensures Delivery(Apply(st, a).sessions, s, p)
  {
    assert Delivery(st.sessions, s, p);
    LocalKeeps(st, a, s, p);
    LocalKeeps(st, a, p, p);
    DeliveryFrame(st.sessions, Apply(st, a).sessions, s, p);
  }

  lemma LocalKeeps(st: State, a: Action, i: Sid, p: Sid)
    requires Enabled(st, a) && Local(a) && i < |st.sessions|
    ensures var x, x' := st.sessions[i], Apply(st, a).sessions[i];
            && x' == x.(pc := x'.pc, holders := x'.holders, frames := x'.frames)
            && (x'.pc == x.pc || !(x.pc.Writing? || x'.pc.Writing? || x.pc.Starting? || x'.pc.Starting?))
            && HasLeft(x'.pc) == HasLeft(x.pc)
            && Pending(Apply(st, a).sessions, i, p) == Pending(st.sessions, i, p)
  {
  }

  /** What a snapshot does to the sessions, besides ownership. */
  ghost predicate SnapshotOf(ss: seq<Session>, ss': seq<Session>, me: Sid, peers: seq<Sid>)
    requires me < |ss|
  {
    && |ss'| == |ss|
    && (forall p: Sid :: p in peers <==> p != me && PresentIn(ss, p, ss[me].room))
    && forall i :: 0 <= i < |ss| ==>
                     && ss'[i] == ss[i].(pc := ss'[i].pc, holders := ss'[i].holders, snaps := ss'[i].snaps)
                     && ss'[i].snaps == (if i == me then ss[i].snaps + 1 else ss[i].snaps)
                     && ss'[i].pc == (if i != me then ss[i].pc else if peers == [] then Reading else Writing(peers, 0))
  }

  lemma SnapshotIs(st: State, me: Sid)
    requires Base(st) && Enabled(st, Snapshot(me))
    ensures var peers := Peers(st.rooms, st.sessions[me].room, me, Expired(st));
            SnapshotOf(st.sessions, Apply(st, Snapshot(me)).sessions, me, peers)
  {
    PeersAre(st, me);
  }

  lemma DeliveryOfSnapshotter(ss: seq<Session>, ss': seq<Session>, me: Sid, peers: seq<Sid>, p: Sid)
    requires me < |ss| && ss[me].pc.Holding? && SnapshotOf(ss, ss', me, peers)
    requires p < |ss| && Delivery(ss, me, p)
    ensures Delivery(ss', me, p)
  {
    assert peers[0..] == peers;
    if p in peers {
      DeliveryOfPeer(ss, ss', me, p);
    }
  }

  /** One more frame is pending for a peer. */
  lemma DeliveryOfPeer(ss: seq<Session>, ss': seq<Session>, me: Sid, p: Sid)
    requires me < |ss| == |ss'| && p < |ss| && p != me && Delivery(ss, me, p)
    requires PresentIn(ss, p, ss[me].room) && ss'[p] == ss[p].(holders := ss'[p].holders)
    requires ss'[me].room == ss[me].room && ss'[me].snaps == ss[me].snaps + 1
    requires Pending(ss, me, p) == [] && Pending(ss', me, p) == [ss[me].snaps as int]
    ensures Delivery(ss', me, p)
  {
    var k := ss[me].snaps;
    assert Range(First(ss, me, p), k + 1) == Range(First(ss, me, p), k) + [k];
  }

  lemma DeliveryAfterSnapshot(ss: seq<Session>, ss': seq<Session>, me: Sid, peers: seq<Sid>, s: Sid, p: Sid)
    requires me < |ss| && ss[me].pc.Holding? && SnapshotOf(ss, ss', me, peers)
    requires s < |ss| && p < |ss| && Delivery(ss, s, p)
    ensures Delivery(ss', s, p)
  {
    if s == me {
      DeliveryOfSnapshotter(ss, ss', me, peers, p);
    } else {
      DeliveryFrame(ss, ss', s, p);
    }
  }

  /** What a write does to the sessions, besides ownership. */
  ghost predicate WriteOf(ss: seq<Session>, ss': seq<Session>, me: Sid, ok: bool)
    requires me < |ss| && ss[me].pc.Writing? && ss[me].pc.next < |ss[me].pc.peers|
  {
    var w := ss[me];
    && |ss'| == |ss|
    && forall i :: 0 <= i < |ss| ==>
                     && ss'[i] == ss[i].(pc := ss'[i].pc, holders := ss'[i].holders, attempts := ss'[i].attempts)
                     && ss'[i].attempts == (if i != w.pc.peers[w.pc.next] then ss[i].attempts
                                            else ss[i].attempts + [Attempt(me, w.snaps - 1, ok)])
                     && ss'[i].pc == (if i != me then ss[i].pc
                                      else if w.pc.next + 1 == |w.pc.peers| then Reading
                                      else Writing(w.pc.peers, w.pc.next + 1))
  }

  lemma WriteIs(st: State, me: Sid, ok: bool)
    requires Base(st) && Enabled(st, Write(me, ok))
    ensures WriteOf(st.sessions, Apply(st, Write(me, ok)).sessions, me, ok)
  {
    assert FanOutInOrder(st.sessions, me);
    assert Apply(st, Write(me, ok)).sessions == Written(st.sessions, me, ok);
    WriteOfWritten(st.sessions, me, ok);
  }

  function Written(ss: seq<Session>, me: Sid, ok: bool): seq<Session>
    requires me < |ss| && ss[me].pc.Writing? && ss[me].pc.next < |ss[me].pc.peers|
    requires ss[me].pc.peers[ss[me].pc.next] < |ss|
  {
    var x := ss[me];
    var p := x.pc.peers[x.pc.next];
    var marked := ss[p := ss[p].(attempts := ss[p].attempts + [Attempt(me, x.snaps - 1, ok)])];
    Continue(marked[me := marked[me].(pc := Writing(x.pc.peers, x.pc.next + 1))], me)
  }

  lemma WriteOfWritten(ss: seq<Session>, me: Sid, ok: bool)
    requires me < |ss| && ss[me].pc.Writing? && ss[me].pc.next < |ss[me].pc.peers|
    requires ss[me].pc.peers[ss[me].pc.next] < |ss| && ss[me].pc.peers[ss[me].pc.next] != me
    ensures WriteOf(ss, Written(ss, me, ok), me, ok)
  {
  }

  lemma FromAppend(attempts: seq<Attempt>, a: Attempt, s: Sid)
    ensures From(attempts + [a], s) == From(attempts, s) + (if a.from == s then [a.index] else [])
  {
  }

  lemma DeliveryOfWriter(ss: seq<Session>, ss': seq<Session>, me: Sid, ok: bool, p: Sid)
    requires me < |ss| && FanOutInOrder(ss, me) && ss[me].pc.Writing? && WriteOf(ss, ss', me, ok)
    requires p < |ss| && Delivery(ss, me, p)
    ensures Delivery(ss', me, p)
  {
    var x := ss[me];
    var q := x.pc.peers[x.pc.next];
    var later := x.pc.peers[x.pc.next + 1..];
    assert x.pc.peers[x.pc.next..] == [q] + later && q !in later;
    assert Pending(ss', me, p) == if p in later then [x.snaps - 1] else [];
    FromAppend(ss[p].attempts, Attempt(me, x.snaps - 1, ok), me);
    if p == q {
      assert From(ss'[p].attempts, me) + Pending(ss', me, p) == From(ss[p].attempts, me) + Pending(ss, me, p);
    } else {
      DeliveryFrame(ss, ss', me, p);
    }
  }

  lemma WriteOfOther(ss: seq<Session>, ss': seq<Session>, me: Sid, ok: bool, s: Sid, p: Sid)
    requires me < |ss| && FanOutInOrder(ss, me) && ss[me].pc.Writing? && WriteOf(ss, ss', me, ok)
    requires s < |ss| && p < |ss| && s != me
    ensures From(ss'[p].attempts, s) == From(ss[p].attempts, s) && Pending(ss', s, p) == Pending(ss, s, p)
  {
  }

  lemma DeliveryAfterWrite(ss: seq<Session>, ss': seq<Session>, me: Sid, ok: bool, s: Sid, p: Sid)
    requires me < |ss| && FanOutInOrder(ss, me) && ss[me].pc.Writing? && WriteOf(ss, ss', me, ok)
    requires s < |ss| && p < |ss| && Delivery(ss, s, p)
    ensures Delivery(ss', s, p)
  {
    if s == me {
      DeliveryOfWriter(ss, ss', me, ok, p);
    } else {
      WriteOfOther(ss, ss', me, ok, s, p);
      DeliveryFrame(ss, ss', s, p);
    }
  }

  lemma DeliveryKept(st: State, a: Action, s: Sid, p: Sid)
    requires Inv(st) && Enabled(st, a) && s < |Apply(st, a).sessions| && p < |Apply(st, a).sessions|
    ensures Delivery(Apply(st, a).sessions, s, p)
  {
    var ss, ss' := st.sessions, Apply(st, a).sessions;
    match a
    case Accept(room) => DeliveryAfterAccept(st, room, s, p);
    case Join(me) => DeliveryAfterJoin(st, me, s, p);
    case Leave(me) => DeliveryAfterLeave(st, me, s, p);
    case Snapshot(me) =>
      SnapshotIs(st, me);
      assert Delivery(ss, s, p);
      DeliveryAfterSnapshot(ss, ss', me, Peers(st.rooms, ss[me].room, me, Expired(st)), s, p);
    case Write(me, ok) =>
      WriteIs(st, me, ok);
      assert Delivery(ss, s, p) && FanOutInOrder(ss, me);
      DeliveryAfterWrite(ss, ss', me, ok, s, p);
    case _ => DeliveryAfterLocal(st, a, s, p);
  }

  lemma SnapsGrow(st: State, a: Action, i: Sid)
    requires Enabled(st, a) && i < |st.sessions|
    ensures i < |Apply(st, a).sessions| && st.sessions[i].snaps <= Apply(st, a).sessions[i].snaps
    ensures !a.Write? ==> Apply(st, a).sessions[i].attempts == st.sessions[i].attempts
  {
  }

  lemma WritersFrame(ss: seq<Session>, ss': seq<Session>, p: Sid)
    requires p < |ss| <= |ss'| && WritersKnown(ss, p)
    requires forall i :: 0 <= i < |ss| ==> ss[i].snaps <= ss'[i].snaps
    requires forall a :: a in ss'[p].attempts ==>
                           a in ss[p].attempts || (a.from < |ss| && 0 <= a.index < ss[a.from].snaps)
    ensures WritersKnown(ss', p)
  {
  }

  lemma WritersAfterWrite(st: State, s: Sid, ok: bool, p: Sid)
    requires Inv(st) && Enabled(st, Write(s, ok)) && p < |st.sessions|
    ensures WritersKnown(Apply(st, Write(s, ok)).sessions, p)
  {
    WriteIs(st, s, ok);
    assert FanOutInOrder(st.sessions, s);
    WritersFrame(st.sessions, Apply(st, Write(s, ok)).sessions, p);
  }

  lemma WritersKept(st: State, a: Action, p: Sid)
    requires Inv(st) && Enabled(st, a) && p < |Apply(st, a).sessions|
    ensures WritersKnown(Apply(st, a).sessions, p)
  {
    if |st.sessions| <= p {
      assert Apply(st, a).sessions[p].attempts == [];
    } else if a.Write? {
      WritersAfterWrite(st, a.s, a.ok, p);
    } else {
      forall i: Sid | i < |st.sessions| ensures st.sessions[i].snaps <= Apply(st, a).sessions[i].snaps {
        SnapsGrow(st, a, i);
      }
      SnapsGrow(st, a, p);
      WritersFrame(st.sessions, Apply(st, a).sessions, p);
    }
  }

  lemma InvKept(st: State, a: Action)
    requires Inv(st) && Enabled(st, a)
    ensures Inv(Apply(st, a))
  {
    var ss' := Apply(st, a).sessions;
    BaseKept(st, a);
    forall s, p | 0 <= s < |ss'| && 0 <= p < |ss'| ensures Delivery(ss', s, p) {
      DeliveryKept(st, a, s, p);
    }
    forall p | 0 <= p < |ss'| ensures WritersKnown(ss', p) {
      WritersKept(st, a, p);
    }
  }

  lemma {:induction false} InvReached(actions: seq<Action>)
    ensures Inv(Reached(actions))
  {
    if actions != [] {
      InvReached(actions[..|actions| - 1]);
      if Enabled(Reached(actions[..|actions| - 1]), actions[|actions| - 1]) {
        InvKept(Reached(actions[..|actions| - 1]), actions[|actions| - 1]);
      }
    }
  }

  lemma OnlySnapshotsCount(st: State, a: Action, i: Sid)
    requires Enabled(st, a) && i < |st.sessions| && !a.Snapshot?
    ensures Apply(st, a).sessions[i].snaps == st.sessions[i].snaps
  {
  }

  lemma FirstMarksKept(st: State, a: Action)
    requires Enabled(st, a) && !a.Accept? && !a.Join?
    ensures Apply(st, a).sessions[a.s].atJoin == st.sessions[a.s].atJoin
  {
  }

  /** A write in one room adds nothing to a session of another. */
  lemma OtherRoomUntouched(st: State, a: Action, i: Sid)
    requires Base(st) && Enabled(st, a) && i < |st.sessions|
    requires a.Write? ==> st.sessions[a.s].room != st.sessions[i].room
    ensures Apply(st, a).sessions[i].attempts == st.sessions[i].attempts
  {
    if a.Write? {
      assert FanOutInOrder(st.sessions, a.s);
      assert st.sessions[a.s].pc.peers[st.sessions[a.s].pc.next] in st.sessions[a.s].pc.peers;
    }
  }

  /** A step appends at most one write attempt to a session, and only a write does so. */
  lemma AttemptsOf(st: State, a: Action, i: Sid)
    requires Enabled(st, a) && i < |st.sessions|
    ensures var n, n' := |st.sessions[i].attempts|, |Apply(st, a).sessions[i].attempts|;
            n <= n' <= n + (if a.Write? then 1 else 0)
  {
  }

  /** Every write to p is by another session of its room, of a frame its thread has read. */
  lemma WritesStayInRoom(st: State, p: Sid, a: Attempt)
    requires Inv(st) && p < |st.sessions| && a in st.sessions[p].attempts
    ensures var ss := st.sessions;
            a.from < |ss| && a.from != p && ss[a.from].room == ss[p].room && 0 <= a.index < |ss[a.from].frames|
  {
    var ss := st.sessions;
    assert WritersKnown(ss, p);
    assert Delivery(ss, a.from, p) && FanOutInOrder(ss, a.from);
    FromSomebody(ss[p].attempts, a);
  }

  // ----- The main results -----

  /** Registry: whenever the lock is free, each room's vector lists exactly the sessions
      that have joined and not left, each once, in join order, and no room is empty. */
  lemma RegistryReached(actions: seq<Action>, room: string)
    ensures var st := Reached(actions);
            && (room in st.rooms <==> exists s: Sid :: s in st.log && PresentIn(st.sessions, s, room))
            && (room in st.rooms ==>
                  && st.rooms[room] == Present(st.log, st.sessions, room)
                  && Distinct(st.rooms[room])
                  && forall s: Sid :: s in st.rooms[room] <==> PresentIn(st.sessions, s, room))
  {
    InvReached(actions);
    var st := Reached(actions);
    assert Members(st.rooms, room) == Present(st.log, st.sessions, room);
    PresentDistinct(st.log, st.sessions, room);
    if room in st.rooms {
      assert st.rooms[room][0] in Present(st.log, st.sessions, room);
    }
  }

  /** Lifetime: no pointer in the table is ever expired, so the clean-ups remove nothing,
      and whoever is being written to is kept alive by the writer's own vector, also
      after its thread has ended. */
  lemma LifetimeReached(actions: seq<Action>, room: string, me: Sid)
    ensures var st := Reached(actions);
            && (forall s :: s in Members(st.rooms, room) ==> s !in Expired(st))
            && Swept(st.rooms, room, Expired(st)) == st.rooms
            && (me < |st.sessions| && st.sessions[me].pc.Writing? ==>
                  forall p :: p in st.sessions[me].pc.peers ==>
                                p < |st.sessions| && Vector(me) in st.sessions[p].holders && p !in Expired(st))
  {
    InvReached(actions);
    var st := Reached(actions);
    TableAlive(st, room);
    CleanUpIsIdle(st, room, me);
    if me < |st.sessions| && st.sessions[me].pc.Writing? {
      assert FanOutInOrder(st.sessions, me);
      forall p | p in st.sessions[me].pc.peers ensures p < |st.sessions| && Vector(me) in st.sessions[p].holders {
        assert HoldersExact(st.sessions, p) && Owns(st.sessions, p, Vector(me));
      }
    }
  }

  /** Delivery: for every pair the frames of s written to p are a contiguous block of the
      frames read from s, each attempted once and in order; every write to p is by another
      session of its room, of a frame that session's thread has read. */
  lemma DeliveryReached(actions: seq<Action>, s: Sid, p: Sid)
    requires s < |Reached(actions).sessions| && p < |Reached(actions).sessions|
    ensures var ss := Reached(actions).sessions;
            && Delivery(ss, s, p)
            && ss[s].snaps <= |ss[s].frames|
            && forall a :: a in ss[p].attempts ==>
                             a.from < |ss| && a.from != p && ss[a.from].room == ss[p].room
                             && 0 <= a.index < |ss[a.from].frames|
  {
    InvReached(actions);
    var ss := Reached(actions).sessions;
    assert FanOutInOrder(ss, s);
    forall a | a in ss[p].attempts
      ensures a.from < |ss| && a.from != p && ss[a.from].room == ss[p].room && 0 <= a.index < |ss[a.from].frames|
    {
      WritesStayInRoom(Reached(actions), p, a);
    }
  }

  /** A failed read ends the loop: afterwards nothing is read any more and the session can
      leave; once it has, it is in no room, its room is gone exactly when it was the last in
      it, and all other rooms are as they were. */
  lemma DisconnectedLeaves(actions: seq<Action>, s: Sid, frame: Bytes, room: string)
    requires Enabled(Reached(actions), ReadFails(s))
    ensures var st := Reached(actions);
            var failed := Apply(st, ReadFails(s));
            var mine := st.sessions[s].room;
            && !Enabled(failed, Read(s, frame)) && Enabled(failed, Leave(s))
            && var left := Apply(failed, Leave(s));
            && s !in Members(left.rooms, room)
            && (mine !in left.rooms <==> Members(st.rooms, mine) == [s])
            && (room != mine ==> Members(left.rooms, room) == Members(st.rooms, room))
  {
    var st := Reached(actions);
    InvReached(actions);
    BaseKept(st, ReadFails(s));
    LeavesTable(Apply(st, ReadFails(s)), s, room);
  }

  lemma LeavesTable(st: State, s: Sid, room: string)
    requires Base(st) && Enabled(st, Leave(s))
    ensures var left := Apply(st, Leave(s));
            var mine := st.sessions[s].room;
            && s !in Members(left.rooms, room)
            && (mine !in left.rooms <==> Members(st.rooms, mine) == [s])
            && (room != mine ==> Members(left.rooms, room) == Members(st.rooms, room))
  {
    var mine := st.sessions[s].room;
    CleanUpIsIdle(st, mine, s);
    BaseKept(st, Leave(s));
    var left := Apply(st, Leave(s));
    assert Members(left.rooms, room) == Present(left.log, left.sessions, room);
    assert Members(st.rooms, mine) == Present(st.log, st.sessions, mine);
    PresentDistinct(st.log, st.sessions, mine);
    OnlyMember(Members(st.rooms, mine), s);
  }

  lemma OnlyMember(v: seq<Sid>, s: Sid)
    requires s in v && Distinct(v)
    ensures Without(v, {s}) == [] <==> v == [s]
  {
    if Without(v, {s}) == [] {
      forall i | 0 <= i < |v| ensures v[i] == s {
        assert v[i] in v;
      }
    }
  }

  /** A thread whose read has failed stays at the way out, whatever other threads do, until it
      leaves the table itself; then it ends. */
  lemma OnlyWayOut(st: State, a: Action, s: Sid)
    requires Enabled(st, a) && s < |st.sessions| && (st.sessions[s].pc.Leaving? || st.sessions[s].pc.Returned?)
    ensures var pc, pc' := st.sessions[s].pc, Apply(st, a).sessions[s].pc;
            pc' == if a == Leave(s) then Returned else if a == ThreadEnds(s) then Ended else pc
  {
    if a.Accept? || a.s != s {
      OthersKeep(st, a, s);
    }
  }

  /** No thread is ever stuck: unless it waits in its read, where a frame or an error can
      come, or has ended, its next step is enabled. */
  lemma NeverStuck(actions: seq<Action>, s: Sid, frame: Bytes, ok: bool)
    requires s < |Reached(actions).sessions|
    ensures var st := Reached(actions);
            match st.sessions[s].pc
            case Starting => Enabled(st, Join(s))
            case Reading => Enabled(st, Read(s, frame)) && Enabled(st, ReadFails(s))
            case Holding => Enabled(st, Snapshot(s))
            case Writing(_, _) => Enabled(st, Write(s, ok))
            case Leaving => Enabled(st, Leave(s))
            case Returned => Enabled(st, ThreadEnds(s))
            case Ended => true
  {
    InvReached(actions);
    var st := Reached(actions);
    assert FanOutInOrder(st.sessions, s);
    if st.sessions[s].pc.Writing? {
      var pc := st.sessions[s].pc;
      assert pc.peers[pc.next] in pc.peers;
    }
  }

  /** A fan-out goes on to its last peer, failed writes or not, and the thread then reads
      again. */
  lemma FanOutGoesOn(st: State, s: Sid, ok: bool)
    requires Base(st) && Enabled(st, Write(s, ok))
    ensures var pc := st.sessions[s].pc;
            Apply(st, Write(s, ok)).sessions[s].pc ==
            if pc.next + 1 < |pc.peers| then Writing(pc.peers, pc.next + 1) else Reading
  {
    assert FanOutInOrder(st.sessions, s);
    WriteIs(st, s, ok);
  }

  /** A session object is freed exactly when its acceptor has let go of it, its thread has
      ended, and nobody is writing to it. */
  lemma FreedExactly(actions: seq<Action>, s: Sid)
    requires s < |Reached(actions).sessions|
    ensures var st := Reached(actions);
            s in Expired(st) <==>
                 && Acceptor !in st.sessions[s].holders && st.sessions[s].pc.Ended?
                 && forall t: Sid :: t < |st.sessions| && st.sessions[t].pc.Writing? ==> s !in st.sessions[t].pc.peers
  {
    InvReached(actions);
    var st := Reached(actions);
    assert HoldersExact(st.sessions, s);
    if s in Expired(st) {
      assert !Owns(st.sessions, s, Thread);
      forall t: Sid | t < |st.sessions| && st.sessions[t].pc.Writing? ensures s !in st.sessions[t].pc.peers {
        assert !Owns(st.sessions, s, Vector(t));
      }
    } else {
      var h :| h in st.sessions[s].holders;
      assert h.Acceptor? || Owns(st.sessions, s, h);
    }
  }

  lemma ReachedStep(actions: seq<Action>, a: Action)
    ensures Reached(actions + [a]) == Step(Reached(actions), a)
  {
    assert (actions + [a])[..|actions|] == actions;
  }

  /** From the way out a session comes to its end: it leaves, its thread ends, the acceptor
      returns, and it is freed unless somebody is still writing to it. */
  lemma LifeEnds(actions: seq<Action>, s: Sid)
    requires Enabled(Reached(actions), Leave(s))
    ensures var st := Reached(actions + [Leave(s)] + [ThreadEnds(s)] + [AcceptorReturns(s)]);
            && s < |st.sessions| && st.sessions[s].pc.Ended? && Acceptor !in st.sessions[s].holders
            && (s in Expired(st) <==>
                forall t: Sid :: t < |st.sessions| && st.sessions[t].pc.Writing? ==> s !in st.sessions[t].pc.peers)
  {
    ReachedStep(actions, Leave(s));
    ReachedStep(actions + [Leave(s)], ThreadEnds(s));
    ReachedStep(actions + [Leave(s)] + [ThreadEnds(s)], AcceptorReturns(s));
    FreedExactly(actions + [Leave(s)] + [ThreadEnds(s)] + [AcceptorReturns(s)], s);
  }

  /** Frame k of s has been snapshotted, and p was not in the table then. */
  predicate Missed(ss: seq<Session>, s: Sid, p: Sid, k: nat)
  {
    && s < |ss| && k < ss[s].snaps
    && (p < |ss| ==> ss[p].pc.Starting? || k < MarkAt(ss[p].atJoin, s))
  }

  lemma MissedKept(st: State, a: Action, s: Sid, p: Sid, k: nat)
    requires Enabled(st, a) && Missed(st.sessions, s, p, k)
    ensures Missed(Apply(st, a).sessions, s, p, k)
  {
    SnapsGrow(st, a, s);
    if p < |st.sessions| && (a.Accept? || a.s != p) {
      OthersKeep(st, a, p);
    } else if p < |st.sessions| && !a.Join? {
      TableSame(st, a, p);
      FirstMarksKept(st, a);
    }
  }

  lemma {:induction false} StaysMissed(before: seq<Action>, more: seq<Action>, s: Sid, p: Sid, k: nat)
    requires Missed(Reached(before).sessions, s, p, k)
    ensures Missed(Reached(before + more).sessions, s, p, k)
  {
    if more == [] {
      assert before + more == before;
    } else {
      var n := |more| - 1;
      StaysMissed(before, more[..n], s, p, k);
      assert (before + more)[..|before + more| - 1] == before + more[..n];
      var st := Reached(before + more[..n]);
      if Enabled(st, more[n]) {
        MissedKept(st, more[n], s, p, k);
      }
    }
  }

  lemma {:induction false} FromHolds(attempts: seq<Attempt>, a: Attempt)
    requires a in attempts
    ensures a.index in From(attempts, a.from)
  {
    if a != attempts[|attempts| - 1] {
      FromHolds(attempts[..|attempts| - 1], a);
    }
  }

  /** A session that is not yet in the table when a frame is snapshotted, not even accepted
      perhaps, never gets that frame or one before it, whatever happens afterwards. */
  lemma LateJoinerMisses(before: seq<Action>, more: seq<Action>, s: Sid, p: Sid, k: nat)
    requires var ss := Reached(before).sessions;
             s < |ss| && k < ss[s].snaps && (p < |ss| ==> ss[p].pc.Starting?)
    ensures var ss := Reached(before + more).sessions;
            p < |ss| ==> forall a :: a in ss[p].attempts && a.from == s ==> k < a.index
  {
    StaysMissed(before, more, s, p, k);
    InvReached(before + more);
    var ss := Reached(before + more).sessions;
    if p < |ss| {
      assert Delivery(ss, s, p);
      forall a | a in ss[p].attempts && a.from == s ensures k < a.index {
        FromHolds(ss[p].attempts, a);
        var whole := From(ss[p].attempts, s) + Pending(ss, s, p);
        assert a.index in whole;
      }
    }
  }

  lemma {:induction false} FromSomebody(attempts: seq<Attempt>, a: Attempt)
    requires a in attempts
    ensures From(attempts, a.from) != []
  {
    if a != attempts[|attempts| - 1] {
      FromSomebody(attempts[..|attempts| - 1], a);
    }
  }
}
