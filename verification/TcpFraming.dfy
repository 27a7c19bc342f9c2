/** Length-prefixed frames over a byte stream (tcp_transport.cpp). */
module TcpFraming {
  import opened ByteStrings

  /** What send writes: the size as a 32-bit number, then the frame unless that number is 0. */
  function Framed(frame: Bytes): (b: Bytes)
  {
    Be32(|frame|) + (if |frame| % TWO_32 == 0 then [] else frame)
  }

  /** What recv takes off the front of the stream, None if it ends too early. */
  function Unframed(b: Bytes): (r: Option<(Bytes, Bytes)>)
    ensures r.Some? ==> |r.value.1| < |b| && |r.value.0| < TWO_32
  {
    if |b| < 4 then None
    else
      var n := FromBe32(b[..4]);
      if |b| < 4 + n then None else Some((b[4..4 + n], b[4 + n..]))
  }

  function FramedAll(frames: seq<Bytes>): Bytes
  {
    if frames == [] then [] else Framed(frames[0]) + FramedAll(frames[1..])
  }

  /** What repeated recv returns before it first fails. */
  function UnframedAll(b: Bytes): seq<Bytes>
    decreases |b|
  {
    match Unframed(b)
    case None => []
    case Some((frame, rest)) => [frame] + UnframedAll(rest)
  }

  predicate Short(frames: seq<Bytes>) { forall f :: f in frames ==> |f| < TWO_32 }

  /** A frame comes back, with the stream right behind it, exactly when its size fits in
      32 bits; the static_cast makes any longer frame come back as another one. */
  lemma UnframedFramed(frame: Bytes, rest: Bytes)
    ensures Unframed(Framed(frame) + rest) == Some((frame, rest)) <==> |frame| < TWO_32
  {
    if |frame| < TWO_32 {
      Be32RoundTrip(|frame|);
      assert Framed(frame) == Be32(|frame|) + frame;
      HeaderRead(Be32(|frame|), frame, rest);
    }
  }

  lemma HeaderRead(header: Bytes, frame: Bytes, rest: Bytes)
    requires |header| == 4 && FromBe32(header) == |frame|
    ensures Unframed(header + frame + rest) == Some((frame, rest))
  {
    var b := header + frame + rest;
    assert b[..4] == header && b[4..4 + |frame|] == frame && b[4 + |frame|..] == rest;
  }

  /** On the wire: four octets of length, the most significant first, and nothing in between. */
  lemma FramedOctets(frame: Bytes, a: byte, b: byte, c: byte, d: byte)
    requires |frame| == ((a as nat * 256 + b as nat) * 256 + c as nat) * 256 + d as nat
    ensures Framed(frame) == [a, b, c, d] + frame
  {
    NetworkOrder(a, b, c, d);
  }

  /** Every list of frames comes back, empty ones included, and nothing after it. */
  lemma {:induction false} AllFramesReturn(frames: seq<Bytes>)
    requires Short(frames)
    ensures UnframedAll(FramedAll(frames)) == frames
  {
    if frames != [] {
      UnframedFramed(frames[0], FramedAll(frames[1..]));
      AllFramesReturn(frames[1..]);
    }
  }

  lemma FramingInjective(a: seq<Bytes>, b: seq<Bytes>)
    requires Short(a) && Short(b) && FramedAll(a) == FramedAll(b)
    ensures a == b
  {
    AllFramesReturn(a);
    AllFramesReturn(b);
  }

  /** A stream cut anywhere yields a prefix of the frames: no partial or altered frame. */
  lemma {:induction false} CutStream(frames: seq<Bytes>, cut: Bytes)
    requires Short(frames) && cut <= FramedAll(frames)
    ensures UnframedAll(cut) <= frames
  {
    if frames != [] {
      var first := Framed(frames[0]);
      UnframedFramed(frames[0], FramedAll(frames[1..]));
      if |first| <= |cut| {
        assert cut == first + cut[|first|..];
        UnframedFramed(frames[0], cut[|first|..]);
        CutStream(frames[1..], cut[|first|..]);
      } else {
        CutInFrame(frames[0], cut);
      }
    }
  }

  /** And it yields exactly the frames that are wholly inside the cut. */
  lemma {:induction false} WholeFramesReturn(frames: seq<Bytes>, cut: Bytes, k: nat)
    requires Short(frames) && cut <= FramedAll(frames) && k <= |frames|
    ensures FramedAll(frames[..k]) <= cut <==> k <= |UnframedAll(cut)|
    decreases k
  {
    if k > 0 {
      var first, rest := Framed(frames[0]), frames[1..];
      FirstOfSome(frames, k);
      if |first| <= |cut| {
        var behind := cut[|first|..];
        assert cut == first + behind;
        WholeFramesReturn(rest, behind, k - 1);
        FirstReturned(frames[0], behind);
        SamePrefix(first, FramedAll(rest[..k - 1]), behind);
      } else {
        CutInFrame(frames[0], cut);
      }
    }
  }

  lemma FirstOfSome(frames: seq<Bytes>, k: nat)
    requires 0 < k <= |frames|
    ensures FramedAll(frames[..k]) == Framed(frames[0]) + FramedAll(frames[1..][..k - 1])
  {
    assert frames[..k][1..] == frames[1..][..k - 1];
  }

  lemma FirstReturned(frame: Bytes, behind: Bytes)
    requires |frame| < TWO_32
    ensures UnframedAll(Framed(frame) + behind) == [frame] + UnframedAll(behind)
  {
    UnframedFramed(frame, behind);
  }

  lemma SamePrefix(a: Bytes, b: Bytes, c: Bytes)
    ensures a + b <= a + c <==> b <= c
  {
    if a + b <= a + c {
      assert b == (a + b)[|a|..] && (a + b)[|a|..] == (a + c)[|a|..|a| + |b|];
    }
  }

  /** A send that fails midway leaves the frames before it, and no other, to the receiver. */
  lemma FailedSend(frames: seq<Bytes>, frame: Bytes, takes: nat)
    requires Short(frames) && |frame| < TWO_32 && takes < |Framed(frame)|
    ensures UnframedAll(FramedAll(frames) + Framed(frame)[..takes]) == frames
  {
    var all, cut := frames + [frame], FramedAll(frames) + Framed(frame)[..takes];
    FramedAppend(frames, frame);
    PartBehind(FramedAll(frames), Framed(frame), takes);
    ReturnedLength(all, cut, |frames|);
  }

  lemma PartBehind(a: Bytes, b: Bytes, takes: nat)
    requires takes < |b|
    ensures a <= a + b[..takes] <= a + b && !(a + b <= a + b[..takes])
  {
    assert a + b == a + b[..takes] + b[takes..];
  }

  /** A cut that holds n frames and not all of the next returns n frames. */
  lemma ReturnedLength(all: seq<Bytes>, cut: Bytes, n: nat)
    requires Short(all) && cut <= FramedAll(all) && n + 1 == |all|
    requires FramedAll(all[..n]) <= cut && !(FramedAll(all) <= cut)
    ensures UnframedAll(cut) == all[..n]
  {
    CutStream(all, cut);
    WholeFramesReturn(all, cut, n);
    WholeFramesReturn(all, cut, n + 1);
    assert all[..n + 1] == all;
  }

  lemma {:induction false} FramedAppend(frames: seq<Bytes>, frame: Bytes)
    ensures FramedAll(frames + [frame]) == FramedAll(frames) + Framed(frame)
  {
    if frames != [] {
      FramedAppend(frames[1..], frame);
      assert (frames + [frame])[1..] == frames[1..] + [frame];
    }
  }

  lemma CutInFrame(frame: Bytes, cut: Bytes)
    requires |frame| < TWO_32 && cut <= Framed(frame) && |cut| < |Framed(frame)|
    ensures Unframed(cut).None?
  {
    Be32RoundTrip(|frame|);
    if 4 <= |cut| {
      assert cut[..4] == Be32(|frame|);
    }
  }

  function Flatten(chunks: seq<Bytes>): Bytes
  {
    if chunks == [] then [] else chunks[0] + Flatten(chunks[1..])
  }

  /** One end of a connection: the chunks that are still to arrive before the peer closes,
      and the octets written so far. */
  class TcpTransport {
    var incoming: seq<Bytes>
    var outgoing: Bytes

    function Stream(): Bytes
      reads this
    {
      Flatten(incoming)
    }

    constructor (chunks: seq<Bytes>)
      ensures incoming == chunks && outgoing == []
    {
      incoming, outgoing := chunks, [];
    }

    /** asio::write, on a connection that takes so many more octets before it fails. */
    method WriteAll(b: Bytes, takes: nat) returns (ok: bool)
      modifies this
      ensures incoming == old(incoming)
      ensures ok <==> |b| <= takes
      ensures outgoing == old(outgoing) + if ok then b else b[..takes]
    {
      ok := |b| <= takes;
      outgoing := outgoing + (if ok then b else b[..takes]);
    }

    method Send(frame: Bytes, takes: nat) returns (ok: bool)
      modifies this
      ensures incoming == old(incoming)
      ensures ok <==> |Framed(frame)| <= takes
      ensures outgoing == old(outgoing) + if ok then Framed(frame) else Framed(frame)[..takes]
    {
      var len := |frame| % TWO_32;
      var header := Be32(len);
      assert header == Be32(|frame|) by { SameHeader(|frame|); }
      ok := WriteAll(header, takes);
      if ok && len != 0 {
        ok := WriteAll(frame, takes - 4);
        assert !ok ==> header + frame[..takes - 4] == Framed(frame)[..takes];
      }
    }

    static lemma SameHeader(n: nat)
      ensures Be32(n % TWO_32) == Be32(n)
    {
      FromBe32RoundTrip(Be32(n));
      Be32RoundTrip(n);
    }

    static lemma ChunkTaken(chunks: seq<Bytes>, take: nat)
      requires chunks != [] && take <= |chunks[0]|
      ensures var rest := if take == |chunks[0]| then chunks[1..] else [chunks[0][take..]] + chunks[1..];
              Flatten(chunks) == chunks[0][..take] + Flatten(rest)
    {
      if take < |chunks[0]| {
        assert ([chunks[0][take..]] + chunks[1..])[1..] == chunks[1..];
      }
    }

    /** asio::read: keeps reading until n octets are there, or fails at end of stream. */
    method ReadExactly(n: nat) returns (r: Option<Bytes>)
      modifies this
      ensures outgoing == old(outgoing)
      ensures n <= |old(Stream())| ==> r == Some(old(Stream())[..n]) && Stream() == old(Stream())[n..]
      ensures |old(Stream())| < n ==> r.None? && Stream() == []
    {
      var buffer := [];
      while |buffer| < n
        invariant |buffer| <= n && buffer + Stream() == old(Stream())
        invariant outgoing == old(outgoing)
        decreases |Stream()| + |incoming|
      {
        if incoming == [] {
          return None;
        }
        var chunk := incoming[0];
        var take := if |chunk| <= n - |buffer| then |chunk| else n - |buffer|;
        ChunkTaken(incoming, take);
        buffer := buffer + chunk[..take];
        incoming := if take == |chunk| then incoming[1..] else [chunk[take..]] + incoming[1..];
      }
      assert buffer == old(Stream())[..n] && Stream() == old(Stream())[n..];
      return Some(buffer);
    }

    method Recv() returns (r: Option<Bytes>)
      modifies this
      ensures outgoing == old(outgoing)
      ensures match Unframed(old(Stream()))
              case None => r.None? && Stream() == []
              case Some((frame, rest)) => r == Some(frame) && Stream() == rest
    {
      ghost var all := Stream();
      var header := ReadExactly(4);
      if header.None? {
        return None;
      }
      var len := FromBe32(header.value);
      assert all[4..][..0] == [];
      assert 4 + len <= |all| ==> all[4..][..len] == all[4..4 + len] && all[4..][len..] == all[4 + len..];
      if len == 0 {
        return Some([]);
      }
      r := ReadExactly(len);
    }

    /** Receiving until recv fails gives the list that was sent, whatever the chunking. */
    method RecvAll() returns (frames: seq<Bytes>)
      modifies this
      ensures frames == UnframedAll(old(Stream())) && Stream() == []
      ensures forall sent :: Short(sent) && old(Stream()) == FramedAll(sent) ==> frames == sent
    {
      frames := [];
      while true
        invariant frames + UnframedAll(Stream()) == UnframedAll(old(Stream()))
        decreases |Stream()|
      {
        var r := Recv();
        if r.None? {
          forall sent | Short(sent) && old(Stream()) == FramedAll(sent) ensures frames == sent {
            AllFramesReturn(sent);
          }
          return;
        }
        frames := frames + [r.value];
      }
    }
  }
}
