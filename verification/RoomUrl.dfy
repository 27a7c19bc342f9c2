/** The way of a room name from the command line to the relay: ws_join and url_host
    (relay_cli.cpp), parse_ws_url (beast_ws_transport.cpp), the accept path (relay_server.cpp). */
module RoomUrl {
  import opened ByteStrings
  import opened Text
  import opened Query

  predicate StartsWith(s: string, prefix: string) { At(s, prefix, 0) }

  function Rescheme(url: string): string
  {
    if StartsWith(url, "http://") then "ws" + url[4..]
    else if StartsWith(url, "https://") then "wss" + url[5..]
    else url
  }

  /** Where ws_join looks for a path: behind "://", or at index 2 if there is none. */
  function PathStart(url: string): nat { (Find(url, "://", 0) + 3) as nat }

  function AddPath(url: string): string
  {
    if Find(url, "/", PathStart(url)) == NPOS then url + "/ws" else url
  }

  /** The second look at the path. */
  function AddPathAgain(url: string): string
  {
    if Find(url, "/ws", PathStart(url)) == NPOS && Find(url, "/", PathStart(url)) == NPOS then url + "/ws" else url
  }

  function JoinedUrl(base: string, room: string): string
  {
    var url := AddPathAgain(AddPath(Rescheme(base)));
    url + (if Find(url, "?", 0) == NPOS then "?" else "&") + "room=" + room
  }

  method WsJoin(base: string, room: string) returns (url: string)
    ensures url == JoinedUrl(base, room)
  {
    url := base;
    if StartsWith(url, "http://") {
      url := "ws" + url[4..];
    } else if StartsWith(url, "https://") {
      url := "wss" + url[5..];
    }
    if Find(url, "/", PathStart(url)) == NPOS {
      url := url + "/ws";
    }
    if Find(url, "/ws", PathStart(url)) == NPOS {
      var slash := Find(url, "://", 0);
      var hostEnd := Find(url, "/", slash + 3);
      if hostEnd == NPOS {
        url := url + "/ws";
      }
    }
    url := url + (if Find(url, "?", 0) == NPOS then "?" else "&");
    url := url + "room=" + room;
  }

  function UrlHost(url: string): string
  {
    var pos := Find(url, "://", 0);
    var rest := if pos == NPOS then url else url[pos + 3..];
    Cut(rest, '/').0
  }

  datatype ParsedUrl = ParsedUrl(scheme: string, host: string, port: string, target: string)

  /** The host and the port of an authority: split at its last colon. */
  function HostPort(hostport: string, secure: bool): (string, string)
  {
    var colon := RFind(hostport, ':');
    if colon == NPOS then (hostport, if secure then "443" else "80")
    else (hostport[..colon], hostport[colon + 1..])
  }

  /** With a colon, what stands before and behind the last one; without, the default port of
      the scheme. */
  lemma HostAndPort(host: string, port: string, secure: bool)
    requires ':' !in port
    ensures HostPort(host + ":" + port, secure) == (host, port)
    ensures ':' !in host ==> HostPort(host, true) == (host, "443") && HostPort(host, false) == (host, "80")
  {
    var s := host + ":" + port;
    assert s[|host|] == ':' && s[..|host|] == host && s[|host| + 1..] == port;
    assert forall i :: |host| < i < |s| ==> s[i] == port[i - |host| - 1];
    assert RFind(s, ':') == |host|;
  }

  /** What stands before and what from the first slash on, which is there in any target. */
  function AuthorityTarget(rest: string): (string, string)
  {
    var (hostport, path) := Cut(rest, '/');
    (hostport, "/" + (if path.None? then "" else path.value))
  }

  lemma AuthorityEnds(rest: string)
    ensures var slash := Find(rest, "/", 0);
            AuthorityTarget(rest) == if slash == NPOS then (rest, "/") else (rest[..slash], rest[slash..])
  {
    var slash := Find(rest, "/", 0);
    CutFound(rest, '/', 0);
    assert rest[0..] == rest;
    if slash == NPOS {
      assert "/" + "" == "/";
    } else {
      assert rest[slash..slash + 1] == "/";
      assert rest[slash..] == "/" + rest[slash + 1..];
    }
  }

  function Parsed(url: string): Option<ParsedUrl>
  {
    var pos := Find(url, "://", 0);
    if pos == NPOS then None
    else
      var scheme := url[..pos];
      var (hostport, target) := AuthorityTarget(url[pos + 3..]);
      var (host, port) := HostPort(hostport, scheme == "wss");
      if host == "" then None else Some(ParsedUrl(scheme, host, port, target))
  }

  method ParseWsUrl(url: string) returns (out: Option<ParsedUrl>)
    ensures out == Parsed(url)
  {
    var pos := Find(url, "://", 0);
    if pos == NPOS {
      return None;
    }
    var scheme := url[..pos];
    var rest := url[pos + 3..];
    var slash := Find(rest, "/", 0);
    AuthorityEnds(rest);
    var hostport := if slash == NPOS then rest else rest[..slash];
    var target := if slash == NPOS then "/" else rest[slash..];
    var host, port := SplitHostPort(hostport, scheme);
    if target == "" {
      target := "/";
    }
    return if host == "" then None else Some(ParsedUrl(scheme, host, port, target));
  }

  method SplitHostPort(hostport: string, scheme: string) returns (host: string, port: string)
    ensures (host, port) == HostPort(hostport, scheme == "wss")
  {
    var colon := RFind(hostport, ':');
    if colon != NPOS {
      host := hostport[..colon];
      port := hostport[colon + 1..];
    } else {
      host := hostport;
      port := if scheme == "wss" then "443" else "80";
    }
  }

  /** The room in which the relay puts a WebSocket whose request has this target, None if
      it refuses the request. */
  function RelayRoom(target: string): Option<string>
  {
    if !StartsWith(target, "/ws") then None
    else
      var room := QueryValue(target, "room");
      Some(if room == "" then "default" else room)
  }

  /** Any target that starts with "/ws" is taken, and no other. */
  lemma TargetsTaken(rest: string, target: string)
    ensures RelayRoom("/ws" + rest).Some?
    ensures RelayRoom(target).Some? ==> 3 <= |target| && target == "/ws" + target[3..]
  {
    assert ("/ws" + rest)[0..3] == "/ws";
    if RelayRoom(target).Some? {
      assert target == target[0..3] + target[3..];
    }
  }

  method AcceptTarget(target: string) returns (room: Option<string>)
    ensures room == RelayRoom(target)
  {
    if !StartsWith(target, "/ws") {
      return None;
    }
    var name := GetQueryValue(target, "room");
    if name == "" {
      name := "default";
    }
    return Some(name);
  }

  // ---- The request line

  /** What may stand in an HTTP request target: neither white space nor a control character. */
  predicate PathChar(c: char) { '!' <= c <= '~' || 128 <= c as int }

  predicate Carried(s: string) { PathLength(s) == |s| }

  /** How many characters of the target stand at the front. */
  function PathLength(s: string): (n: nat)
    ensures n <= |s|
    ensures n < |s| ==> !PathChar(s[n])
  {
    if s == "" || !PathChar(s[0]) then 0 else 1 + PathLength(s[1..])
  }

  /** What the WebSocket client puts behind the target. */
  const LINE_END := " HTTP/1.1\r\n"

  /** The target that the relay reads from a request line, None if the line is malformed, in
      which case it goes on without a request and no upgrade takes place. */
  function RequestTarget(line: string): Option<string> { TargetBefore(line, LINE_END) }

  function TargetBefore(line: string, end: string): Option<string>
  {
    var n := PathLength(line);
    if n == 0 || !(end <= line[n..]) then None else Some(line[..n])
  }

  /** Where a command-line client with this base and room ends up: the URL is joined, parsed,
      its target put into a request line, and that line read by the relay. */
  function RoomReached(base: string, room: string): Option<string>
  {
    match Parsed(JoinedUrl(base, room))
    case None => None
    case Some(url) => RoomOfLine(url.target + LINE_END)
  }

  function RoomOfLine(line: string): Option<string>
  {
    match RequestTarget(line)
    case None => None
    case Some(target) => RelayRoom(target)
  }

  // ---- Bases with a scheme and an authority, and nothing else

  datatype Scheme = Http | Https | Ws | Wss {
    function Name(): string {
      match this case Http => "http" case Https => "https" case Ws => "ws" case Wss => "wss"
    }

    function WsName(): string { if Http? || Ws? then "ws" else "wss" }
  }

  function Base(scheme: Scheme, hostport: string): string { scheme.Name() + "://" + hostport }

  predicate Bare(hostport: string) { '/' !in hostport && '?' !in hostport }

  lemma SchemeEnds(name: string, rest: string)
    requires ':' !in name
    ensures Find(name + "://" + rest, "://", 0) == |name|
  {
    var s := name + "://" + rest;
    assert s[|name|..|name| + 3] == "://";
    assert At(s, "://", |name|);
    forall i | 0 <= i < |name| ensures !At(s, "://", i) {
      assert s[i] == name[i] && s[i..i + 3][0] == s[i];
    }
  }

  lemma FirstIsW(url: string)
    requires url != "" && url[0] == 'w'
    ensures Rescheme(url) == url
  {
  }

  lemma Rescheming(scheme: Scheme, hostport: string)
    ensures Rescheme(Base(scheme, hostport)) == scheme.WsName() + "://" + hostport
  {
    match scheme
    case Http => ReschemeHttp(hostport);
    case Https => ReschemeHttps(hostport);
    case _ => FirstIsW(Base(scheme, hostport));
  }

  lemma ReschemeHttp(hostport: string)
    ensures Rescheme("http" + "://" + hostport) == "ws" + "://" + hostport
  {
    var base := "http" + "://" + hostport;
    assert "http" + "://" == "http://";
    assert base[0..7] == "http://" && base[4..] == "://" + hostport;
    assert "ws" + ("://" + hostport) == "ws" + "://" + hostport;
  }

  lemma ReschemeHttps(hostport: string)
    ensures Rescheme("https" + "://" + hostport) == "wss" + "://" + hostport
  {
    var base := "https" + "://" + hostport;
    assert "https" + "://" == "https://";
    assert base[0..8] == "https://" && base[5..] == "://" + hostport;
    assert base[0..7][4] == 's' && "http://"[4] == ':';
    assert "wss" + ("://" + hostport) == "wss" + "://" + hostport;
  }

  lemma PathAdded(name: string, hostport: string)
    requires ':' !in name && '/' !in hostport
    ensures var url := name + "://" + hostport; AddPathAgain(AddPath(url)) == url + "/ws"
  {
    var url := name + "://" + hostport;
    SchemeEnds(name, hostport);
    assert url[|name| + 3..] == hostport;
    FindNone(url, '/', |name| + 3);
    var joined := url + "/ws";
    SchemeEnds(name, hostport + "/ws");
    assert joined == name + "://" + (hostport + "/ws");
    assert joined[|url|..|url| + 3] == "/ws";
    assert At(joined, "/ws", |url|);
  }

  lemma QueryAdded(base: string, room: string, url: string)
    requires AddPathAgain(AddPath(Rescheme(base))) == url && '?' !in url
    ensures JoinedUrl(base, room) == url + "?" + "room=" + room
  {
  }

  lemma Regroup(a: string, b: string, c: string, d: string, e: string, f: string)
    ensures a + b + c + (d + e) + f == a + b + (c + d + (e + f))
    ensures d + (e + f) == d + e + f
    ensures c + d + e + f == c + (d + e + f)
  {
  }

  /** The URL that such a base and a room should give. */
  function RoomUrl(name: string, hostport: string, room: string): string
  {
    name + "://" + hostport + "/ws?room=" + room
  }

  lemma RoomUrlText(url: string, room: string)
    ensures url + "/ws" + "?" + "room=" + room == url + "/ws?room=" + room
  {
  }

  /** ws_join gives such a base the path "/ws", once, and the room as its only query. */
  lemma JoinedBare(scheme: Scheme, hostport: string, room: string)
    requires Bare(hostport)
    ensures JoinedUrl(Base(scheme, hostport), room) == RoomUrl(scheme.WsName(), hostport, room)
  {
    Rescheming(scheme, hostport);
    var url := scheme.WsName() + "://" + hostport;
    PathAdded(scheme.WsName(), hostport);
    QueryAdded(Base(scheme, hostport), room, url + "/ws");
    RoomUrlText(url, room);
  }

  lemma PathKept(name: string, hostport: string, path: string)
    requires ':' !in name && '/' !in hostport
    ensures var url := name + "://" + (hostport + "/" + path); AddPathAgain(AddPath(url)) == url
  {
    var url := name + "://" + (hostport + "/" + path);
    SchemeEnds(name, hostport + "/" + path);
    var i := |name| + 3 + |hostport|;
    assert url == (name + "://" + hostport) + "/" + path && |name + "://" + hostport| == i;
    assert url[i..i + 1] == "/";
    assert At(url, "/", i);
  }

  lemma QueryFound(url: string)
    ensures Find(url, "?", 0) == NPOS <==> '?' !in url
  {
    if '?' in url {
      var i :| 0 <= i < |url| && url[i] == '?';
      assert url[i..i + 1] == "?";
      assert At(url, "?", i);
    } else {
      assert url[0..] == url;
      FindNone(url, '?', 0);
    }
  }

  /** A base that already has a path keeps it, and a query it already has is continued. */
  lemma JoinedPathed(scheme: Scheme, hostport: string, path: string, room: string)
    requires '/' !in hostport
    ensures var url := scheme.WsName() + "://" + (hostport + "/" + path);
            JoinedUrl(Base(scheme, hostport + "/" + path), room) ==
            url + (if '?' in url then "&" else "?") + "room=" + room
  {
    var url := scheme.WsName() + "://" + (hostport + "/" + path);
    Rescheming(scheme, hostport + "/" + path);
    PathKept(scheme.WsName(), hostport, path);
    QueryFound(url);
  }

  lemma ParsedParts(name: string, hostport: string, path: string)
    requires ':' !in name && '/' !in hostport
    ensures Parsed(name + "://" + (hostport + "/" + path)) ==
            var (host, port) := HostPort(hostport, name == "wss");
            if host == "" then None else Some(ParsedUrl(name, host, port, "/" + path))
  {
    var rest := hostport + "/" + path;
    var url := name + "://" + rest;
    SchemeEnds(name, rest);
    CutJoined(hostport, '/', path);
    assert url[..|name|] == name && url[|name| + 3..] == rest;
  }

  /** And the transport then connects to that authority, with that room in the target. */
  lemma ParsedRoomUrl(name: string, hostport: string, room: string)
    requires ':' !in name && '/' !in hostport
    ensures Parsed(RoomUrl(name, hostport, room)) ==
            var (host, port) := HostPort(hostport, name == "wss");
            if host == "" then None else Some(ParsedUrl(name, host, port, "/ws?room=" + room))
  {
    ParsedParts(name, hostport, "ws?room=" + room);
    Regroup(name, "://", hostport, "/", "ws?room=", room);
    assert "/" + "ws?room=" == "/ws?room=";
  }

  /** The pin of such a base is kept under the authority connected to. */
  lemma UrlHostBare(scheme: Scheme, hostport: string)
    requires Bare(hostport)
    ensures UrlHost(Base(scheme, hostport)) == hostport
  {
    SchemeEnds(scheme.Name(), hostport);
    assert Base(scheme, hostport)[|scheme.Name()| + 3..] == hostport;
    CutWhole(hostport, '/');
  }

  /** The host of any URL: what stands between "://", if there, and the next slash. */
  lemma UrlHostOf(name: string, hostport: string, path: string)
    requires ':' !in name && '/' !in hostport
    ensures UrlHost(name + "://" + (hostport + "/" + path)) == hostport
    ensures ':' !in hostport ==> UrlHost(hostport) == hostport
  {
    var rest := hostport + "/" + path;
    SchemeEnds(name, rest);
    assert (name + "://" + rest)[|name| + 3..] == rest;
    CutJoined(hostport, '/', path);
    CutWhole(hostport, '/');
    forall i | 0 <= i && At(hostport, "://", i) ensures ':' in hostport {
      assert hostport[i..i + 3][0] == hostport[i];
    }
  }

  /** The relay takes the room up to its first '&', decoded. */
  lemma RoomOfTarget(room: string)
    ensures RelayRoom("/ws?room=" + room) ==
            var name := Decoded(Cut(room, '&').0);
            Some(if name == "" then "default" else name)
  {
    var query := "room=" + room;
    assert "/ws?room=" + room == "/ws" + "?" + query;
    assert ("/ws" + "?" + query)[0..3] == "/ws";
    CutJoined("/ws", '?', query);
    RoomOfQuery(room);
  }

  lemma RoomOfQuery(room: string)
    ensures ValueIn("room=" + room, "room") == Decoded(Cut(room, '&').0)
  {
    CutPrefix("room=", room, '&');
    RoomPart(Cut(room, '&').0);
  }

  lemma RoomPart(head: string)
    ensures PartValue("room=" + head, "room") == Some(Decoded(head))
  {
    assert "room" + "=" + head == "room=" + head;
    CutJoined("room", '=', head);
    DecodedIsSame("room");
  }

  lemma {:induction false} PathAppend(a: string, b: string)
    requires Carried(a)
    ensures PathLength(a + b) == |a| + PathLength(b)
  {
    if a == "" {
      assert a + b == b;
    } else {
      PathAppend(a[1..], b);
      assert (a + b)[1..] == a[1..] + b && (a + b)[0] == a[0];
    }
  }

  /** A line that ends too early is not completed by the end put behind it. */
  lemma EarlyEnd(rest: string)
    requires 1 <= |rest| < |LINE_END|
    ensures !(LINE_END <= rest + LINE_END)
  {
    assert (rest + LINE_END)[|rest|] == ' ';
    assert forall k :: 1 <= k < |LINE_END| ==> LINE_END[k] != ' ';
  }

  lemma LineEnds(rest: string)
    ensures LINE_END <= rest + LINE_END <==> rest == "" || LINE_END <= rest
  {
    if rest == "" {
      assert rest + LINE_END == LINE_END;
    } else if |rest| < |LINE_END| {
      EarlyEnd(rest);
    } else {
      assert (rest + LINE_END)[..|LINE_END|] == rest[..|LINE_END|];
    }
  }

  lemma LineRead(front: string, rest: string, end: string)
    requires Carried(front) && front != "" && (rest == "" || !PathChar(rest[0])) && end != "" && !PathChar(end[0])
    ensures TargetBefore(front + rest + end, end) == if end <= rest + end then Some(front) else None
  {
    var tail := rest + end;
    assert !PathChar(tail[0]);
    PathAppend(front, tail);
    assert front + rest + end == front + tail;
    assert (front + tail)[..|front|] == front && (front + tail)[|front|..] == tail;
  }

  /** The request line is read as far as the room can stand in a target. */
  lemma RoomInLine(path: string, room: string)
    requires Carried(path) && path != ""
    ensures var n := PathLength(room);
            RequestTarget(path + room + LINE_END) ==
            if n == |room| || LINE_END <= room[n..] then Some(path + room[..n]) else None
  {
    var head, rest := room[..PathLength(room)], room[PathLength(room)..];
    CarriedPrefix(room);
    FrontCarried(path, head);
    LineRead(path + head, rest, LINE_END);
    LineEnds(rest);
    Regrouped(path, room, PathLength(room));
  }

  lemma Regrouped(a: string, b: string, n: nat)
    requires n <= |b|
    ensures a + b == a + b[..n] + b[n..]
  {
  }

  lemma FrontCarried(a: string, b: string)
    requires Carried(a) && Carried(b)
    ensures Carried(a + b)
  {
    PathAppend(a, b);
  }

  lemma {:induction false} CarriedPrefix(s: string)
    ensures Carried(s[..PathLength(s)])
  {
    if s != "" && PathChar(s[0]) {
      CarriedPrefix(s[1..]);
      assert s[..PathLength(s)][1..] == s[1..][..PathLength(s[1..])];
    }
  }

  /** The room that a name asks for once it is in a target. */
  function Effective(room: string): string
  {
    var name := Decoded(Cut(room, '&').0);
    if name == "" then "default" else name
  }

  /** The room a name leads to, None if the relay cannot read the request line. Behind a line
      break of its own a name only adds header lines. */
  function Asked(room: string): Option<string>
  {
    var n := PathLength(room);
    if n == |room| || LINE_END <= room[n..] then Some(Effective(room[..n])) else None
  }

  /** Every name, from any base of scheme and authority, ends where it asks for. */
  lemma RoomOf(scheme: Scheme, hostport: string, room: string)
    requires Bare(hostport) && HostPort(hostport, scheme.WsName() == "wss").0 != ""
    ensures RoomReached(Base(scheme, hostport), room) == Asked(room)
  {
    JoinedBare(scheme, hostport, room);
    ParsedRoomUrl(scheme.WsName(), hostport, room);
    LineLeads(room);
  }

  lemma LineLeads(room: string)
    ensures RoomOfLine("/ws?room=" + room + LINE_END) == Asked(room)
  {
    PathCarried();
    RoomInLine("/ws?room=", room);
    RoomOfTarget(room[..PathLength(room)]);
  }

  lemma PathCarried()
    ensures Carried("/ws?room=")
  {
    AllCarried("/ws?room=");
  }

  /** Two clients on one authority share a room exactly when both names lead to one, and to
      the same, whichever schemes they use and whatever characters the names hold. */
  lemma RoomsShared(first: Scheme, second: Scheme, hostport: string, a: string, b: string)
    requires Bare(hostport) && HostPort(hostport, false).0 != ""
    ensures var x, y := RoomReached(Base(first, hostport), a), RoomReached(Base(second, hostport), b);
            (x.Some? && x == y) <==> (Asked(a).Some? && Asked(a) == Asked(b))
  {
    RoomOf(first, hostport, a);
    RoomOf(second, hostport, b);
  }

  /** The names that decoding leaves alone. */
  predicate Plain(room: string) { '&' !in room && Unescaped(room) }

  /** A non-empty name is its own effective room exactly when it is plain. */
  lemma PlainIsEffective(room: string)
    requires room != ""
    ensures Effective(room) == room <==> Plain(room)
  {
    CutLength(room, '&');
    DecodedIsSame(room);
    if '&' !in room {
      CutWhole(room, '&');
    }
  }

  lemma CutLength(s: string, c: char)
    ensures |Cut(s, c).0| <= |s|
    ensures c in s ==> |Cut(s, c).0| < |s| && (Cut(s, c).0 == "" ==> s[0] == c)
  {
  }

  lemma EffectiveLength(room: string)
    ensures Effective(room) == "default" || |Effective(room)| <= |room|
  {
    CutLength(room, '&');
  }

  /** A non-empty name asks for itself exactly when it is plain and a target can carry it. */
  lemma AskedIsSame(room: string)
    requires room != ""
    ensures Asked(room) == Some(room) <==> Plain(room) && Carried(room)
  {
    var n := PathLength(room);
    if n == |room| {
      assert room[..n] == room;
      PlainIsEffective(room);
    } else {
      EffectiveLength(room[..n]);
      DefaultIsCarried();
    }
  }

  /** A target can carry a string exactly when it can carry each character. */
  lemma {:induction false} CarriedIff(s: string)
    ensures Carried(s) <==> forall c :: c in s ==> PathChar(c)
  {
    if s != "" {
      CarriedIff(s[1..]);
      assert s == [s[0]] + s[1..];
    }
  }

  lemma DefaultIsCarried()
    ensures Carried("default")
  {
    assert forall c :: c in "default" ==> PathChar(c);
    AllCarried("default");
  }

  lemma {:induction false} AllCarried(s: string)
    requires forall i :: 0 <= i < |s| ==> PathChar(s[i])
    ensures Carried(s)
  {
    if s != "" {
      AllCarried(s[1..]);
    }
  }

  /** A non-empty room name survives the way exactly when it is plain and carried. */
  lemma RoomSurvives(scheme: Scheme, hostport: string, room: string)
    requires Bare(hostport) && HostPort(hostport, scheme.WsName() == "wss").0 != ""
    requires room != ""
    ensures RoomReached(Base(scheme, hostport), room) == Some(room) <==> Plain(room) && Carried(room)
  {
    RoomOf(scheme, hostport, room);
    AskedIsSame(room);
  }

  /** Among such names, two share a room exactly when they are equal. */
  lemma PlainRoomsShared(first: Scheme, second: Scheme, hostport: string, a: string, b: string)
    requires Bare(hostport) && HostPort(hostport, false).0 != ""
    requires a != "" && b != "" && Plain(a) && Plain(b) && Carried(a) && Carried(b)
    ensures RoomReached(Base(first, hostport), a) == RoomReached(Base(second, hostport), b) <==> a == b
    ensures RoomReached(Base(first, hostport), a).Some?
  {
    RoomSurvives(first, hostport, a);
    RoomSurvives(second, hostport, b);
  }

  /** Other names can meet in one room, and a name with a space in it reaches none. */
  lemma DifferentNamesMeet(first: Scheme, second: Scheme, hostport: string)
    requires Bare(hostport) && HostPort(hostport, false).0 != ""
    ensures RoomReached(Base(first, hostport), "a+b") == RoomReached(Base(second, hostport), "a%20b") == Some("a b")
    ensures RoomReached(Base(first, hostport), "a b") == None
  {
    RoomOf(first, hostport, "a+b");
    RoomOf(second, hostport, "a%20b");
    RoomOf(first, hostport, "a b");
    EscapesMeet();
    SpaceNotCarried();
  }

  lemma EscapesMeet()
    ensures Asked("a+b") == Asked("a%20b") == Some("a b")
  {
    AllCarried("a+b");
    AllCarried("a%20b");
    assert "a+b"[..3] == "a+b" && "a%20b"[..5] == "a%20b";
    PlusIsSpace();
    EscapeIsSpace();
  }

  lemma PlusIsSpace()
    ensures Effective("a+b") == "a b"
  {
    CutWhole("a+b", '&');
    DecodedAt("", "a+b", 0);
  }

  lemma EscapeIsSpace()
    ensures Effective("a%20b") == "a b"
  {
    CutWhole("a%20b", '&');
    var rest := "%20b";
    assert "a%20b"[1..] == rest && rest[3..] == "b";
    assert Escape('2', '0') == 32;
    assert Decoded("b") == "b";
    assert Decoded(rest) == " b";
  }

  lemma SpaceNotCarried()
    ensures Asked("a b") == None
  {
    var s := "a b";
    assert s[1..][0] == ' ' && PathLength(s[1..]) == 0 && PathLength(s) == 1;
    assert |s[1..]| < |LINE_END|;
  }
}
