/**
 The wire protocol between the qemu backend and the agent in its appliance: length-prefixed
 frames, their reading and writing, and the agent's serve loop.
 */
module AgentProtocol {
  import opened Bytes
  import opened Results
  import opened Streams

  const MAX_MESSAGE_SIZE := 512 * 1024 * 1024

  // ---- Frames ----

  predicate Framable(payload: seq<Byte>)
  {
    |payload| <= MAX_MESSAGE_SIZE
  }

  predicate AllFramable(ps: seq<seq<Byte>>)
  {
    forall i :: 0 <= i < |ps| ==> Framable(ps[i])
  }

  function FrameOf(payload: seq<Byte>): (f: seq<Byte>)
    ensures |f| == 4 + |payload|
  {
    ToBE(|payload|, 4) + payload
  }

  function FramesOf(ps: seq<seq<Byte>>): seq<Byte>
  {
    if ps == [] then [] else FrameOf(ps[0]) + FramesOf(ps[1..])
  }

  /** Eof is io.EOF itself; the others are what errors.Is may or may not take for it. */
  datatype ReadError = Eof | HeaderCut | Connection | TooLarge | PayloadCut | BadMessage

  /** A frame read off the front of a stream, or the reason why not, and what is left. */
  datatype Reading = Got(payload: seq<Byte>, rest: seq<Byte>) | Failed(error: ReadError, rest: seq<Byte>)

  /** Reading one frame of a stream that ends in a failure of the connection, or just ends. */
  function ReadFrame(s: seq<Byte>, broken: bool): Reading
  {
    if |s| < 4 then Failed(if broken then Connection else if s == [] then Eof else HeaderCut, [])
    else
      var n := FromBE(s[..4]);
      if n > MAX_MESSAGE_SIZE then Failed(TooLarge, s[4..])
      else if |s| - 4 < n then Failed(if broken then Connection else PayloadCut, [])
      else Got(s[4..4 + n], s[4 + n..])
  }

  /** All frames up to the first that cannot be read, and why it cannot. */
  function ReadFrames(s: seq<Byte>, broken: bool): (seq<seq<Byte>>, ReadError)
    decreases |s|
  {
    match ReadFrame(s, broken)
    case Failed(e, _) => ([], e)
    case Got(p, rest) =>
      var (ps, e) := ReadFrames(rest, broken);
      ([p] + ps, e)
  }

  lemma ReadFramesStep(s: seq<Byte>, broken: bool)
    ensures match ReadFrame(s, broken)
            case Failed(e, _) => ReadFrames(s, broken) == ([], e)
            case Got(p, rest) =>
              ReadFrames(s, broken) == ([p] + ReadFrames(rest, broken).0, ReadFrames(rest, broken).1)
  {
    hide ReadFrame;
  }

  lemma FrameReadsBack(p: seq<Byte>, rest: seq<Byte>, broken: bool)
    requires Framable(p)
    ensures ReadFrame(FrameOf(p) + rest, broken) == Got(p, rest)
  {
    Widths();
    FromBEToBE(|p|, 4);
    var s := FrameOf(p) + rest;
    assert s[..4] == ToBE(|p|, 4);
    assert s[4..4 + |p|] == p && s[4 + |p|..] == rest;
  }

  /** Nothing but the frame of a payload reads as that payload. */
  lemma ReadIsFrame(s: seq<Byte>, broken: bool)
    requires ReadFrame(s, broken).Got?
    ensures var g := ReadFrame(s, broken); Framable(g.payload) && s == FrameOf(g.payload) + g.rest
  {
    ToBEFromBE(s[..4]);
    var n := FromBE(s[..4]);
    assert s == s[..4] + s[4..4 + n] + s[4 + n..];
  }

  /** A stream reads as payloads up to a clean end exactly if it is the frames of those payloads. */
  lemma {:induction false} FramesReadBackIff(s: seq<Byte>, ps: seq<seq<Byte>>)
    ensures ReadFrames(s, false) == (ps, Eof) <==> AllFramable(ps) && s == FramesOf(ps)
    decreases |s|, |ps|
  {
    hide ReadFrame, FrameOf;
    var g := ReadFrame(s, false);
    if g.Got? {
      ReadIsFrame(s, false);
      if ps != [] {
        FramesReadBackIff(g.rest, ps[1..]);
        if AllFramable(ps) && s == FramesOf(ps) {
          FrameReadsBack(ps[0], FramesOf(ps[1..]), false);
        }
        assert ps == [ps[0]] + ps[1..];
      }
    } else if ps == [] {
      EmptyIsEof(s);
    } else if AllFramable(ps) && s == FramesOf(ps) {
      FrameReadsBack(ps[0], FramesOf(ps[1..]), false);
    }
  }

  lemma EmptyIsEof(s: seq<Byte>)
    ensures ReadFrame(s, false) == Failed(Eof, []) <==> s == []
    ensures ReadFrame(s, false).Failed? && ReadFrame(s, false).error.Eof? ==> s == []
  {
  }

  /** The number of frames that are complete in the first n bytes. */
  function WholeFrames(ps: seq<seq<Byte>>, n: nat): (k: nat)
    ensures k <= |ps|
  {
    if ps == [] || n < |FrameOf(ps[0])| then 0 else 1 + WholeFrames(ps[1..], n - |FrameOf(ps[0])|)
  }

  /** A cut stream reads as the frames complete before the cut, and ends cleanly only between frames. */
  lemma {:induction false} FramesCut(ps: seq<seq<Byte>>, n: nat, broken: bool)
    requires AllFramable(ps) && n <= |FramesOf(ps)|
    ensures var k := WholeFrames(ps, n);
            && ReadFrames(FramesOf(ps)[..n], broken).0 == ps[..k]
            && |FramesOf(ps[..k])| <= n
            && (ReadFrames(FramesOf(ps)[..n], broken).1 == Eof <==> !broken && n == |FramesOf(ps[..k])|)
    decreases |ps|
  {
    hide ReadFrame, FrameOf, ReadFrames;
    var s := FramesOf(ps)[..n];
    if ps == [] {
      NoFrame(s, broken);
      ReadFramesStep(s, broken);
    } else if n < |FrameOf(ps[0])| {
      assert s == FrameOf(ps[0])[..n];
      FrameCut(ps[0], n, broken);
      ReadFramesStep(s, broken);
      assert ps[..0] == [];
    } else {
      var f := FrameOf(ps[0]);
      var rest := FramesOf(ps[1..])[..n - |f|];
      assert s == f + rest;
      FrameReadsBack(ps[0], rest, broken);
      ReadFramesStep(s, broken);
      FramesCut(ps[1..], n - |f|, broken);
      var k := WholeFrames(ps[1..], n - |f|);
      assert ps[..k + 1] == [ps[0]] + ps[1..][..k];
      assert ps[..k + 1][1..] == ps[1..][..k];
    }
  }

  lemma NoFrame(s: seq<Byte>, broken: bool)
    requires s == []
    ensures ReadFrame(s, broken) == Failed(if broken then Connection else Eof, [])
  {
  }

  lemma FrameCut(p: seq<Byte>, n: nat, broken: bool)
    requires Framable(p) && n < |FrameOf(p)|
    ensures var r := ReadFrame(FrameOf(p)[..n], broken);
            r.Failed? && (r.error == Eof <==> !broken && n == 0)
  {
    Widths();
    FromBEToBE(|p|, 4);
    var s := FrameOf(p)[..n];
    if n >= 4 {
      assert s[..4] == ToBE(|p|, 4);
    }
  }

  // ---- Messages ----

  /** The JSON form of a type, which is not modelled: what can be marshalled, and how it reads. */
  datatype Codec<!T> = Codec(marshal: T -> Option<seq<Byte>>, unmarshal: seq<Byte> -> Option<T>)

  /** What is marshalled is unmarshalled as itself. */
  ghost predicate Faithful<T(!new)>(codec: Codec<T>)
  {
    forall v :: codec.marshal(v).Some? ==> codec.unmarshal(codec.marshal(v).value) == Some(v)
  }

  datatype WriteOutcome = Written | NotMarshalled | Oversized | WriteFailed

  /** Whether the value is written as a frame; if not, how much of one may have been is told by WriteMsg. */
  function FrameFor<T>(codec: Codec<T>, v: T): Option<seq<Byte>>
  {
    match codec.marshal(v)
    case None => None
    case Some(p) => if Framable(p) then Some(FrameOf(p)) else None
  }

  /** A message that is refused leaves the stream alone; a failed write leaves part of the frame. */
  method WriteMsg<T>(w: ByteWriter, codec: Codec<T>, v: T) returns (r: WriteOutcome)
    modifies w
    ensures r == NotMarshalled <==> codec.marshal(v).None?
    ensures r == Oversized <==> codec.marshal(v).Some? && !Framable(codec.marshal(v).value)
    ensures r.NotMarshalled? || r.Oversized? ==> w.sent == old(w.sent)
    ensures r.Written? ==> FrameFor(codec, v).Some? && w.sent == old(w.sent) + FrameFor(codec, v).value
    ensures r.WriteFailed? ==> FrameFor(codec, v).Some? && old(w.sent) <= w.sent
                               && w.sent < old(w.sent) + FrameFor(codec, v).value
    ensures w.room == old(w.room) - (|w.sent| - |old(w.sent)|)
    ensures r.WriteFailed? ==> w.room == 0
  {
    var payload := codec.marshal(v);
    if payload.None? {
      return NotMarshalled;
    }
    if |payload.value| > MAX_MESSAGE_SIZE {
      return Oversized;
    }
    var hdr := ToBE(|payload.value|, 4);
    ghost var before, frame := w.sent, FrameOf(payload.value);
    var ok := w.Write(hdr);
    assert hdr + payload.value == frame && frame[..|hdr|] == hdr && hdr[..|hdr|] == hdr;
    if !ok {
      return WriteFailed;
    }
    ok := w.Write(payload.value);
    assert payload.value[..|payload.value|] == payload.value;
    assert before + hdr + payload.value == before + frame;
    if !ok {
      return WriteFailed;
    }
    return Written;
  }

  /** A message read, or why none was; either way the stream is where ReadFrame leaves it. */
  method ReadMsg<T>(r: ByteReader, codec: Codec<T>) returns (res: Result<T, ReadError>)
    requires r.Valid()
    modifies r
    ensures r.Valid()
    ensures var g := ReadFrame(old(r.Rest()), r.broken);
            && r.Rest() == g.rest
            && res == if g.Failed? then Failure(g.error)
                      else if codec.unmarshal(g.payload).None? then Failure(BadMessage)
                      else Success(codec.unmarshal(g.payload).value)
  {
    ghost var s := r.Rest();
    var hdr := new Byte[4];
    var st := r.ReadFull(hdr, 4);
    if st == EndOfFile {
      return Failure(Eof);
    } else if st == UnexpectedEnd {
      return Failure(HeaderCut);
    } else if st == Transport {
      return Failure(Connection);
    }
    assert hdr[..4] == s[..4] && r.Rest() == s[4..];
    var n := FromBE(hdr[..4]);
    if n > MAX_MESSAGE_SIZE {
      return Failure(TooLarge);
    }
    var payload := new Byte[n];
    st := r.ReadFull(payload, n);
    if st == Transport {
      return Failure(Connection);
    } else if st != Full {
      return Failure(PayloadCut);
    }
    assert payload[..n] == s[4..][..n] == s[4..4 + n] && r.Rest() == s[4 + n..];
    var v := codec.unmarshal(payload[..n]);
    if v.None? {
      return Failure(BadMessage);
    }
    return Success(v.value);
  }

  // ---- The agent ----

  datatype Op =
    | Ping | Exec | ReadFile | WriteFile | Stat | ReadDir | MkDir | Remove
    | Rename | Symlink | Readlink | Chmod | PRead | PWrite | StatFS | Unknown(name: string)

  datatype Request = Request(op: Op, args: seq<string>, data: seq<Byte>, offset: int, length: int)

  datatype Response = Response(err: string, exitCode: int, data: seq<Byte>, text: seq<string>)

  /** What the agent's operations act on. */
  datatype Appliance = Appliance(files: map<string, seq<Byte>>, other: seq<int>)

  type Handle = (Appliance, Request) -> (Appliance, Response)

  /** The answers to requests handled one after the other. */
  function Answers(handle: Handle, a: Appliance, reqs: seq<Request>): (rs: seq<Response>)
    ensures |rs| == |reqs|
    decreases |reqs|
  {
    if reqs == [] then []
    else var (b, resp) := handle(a, reqs[0]); [resp] + Answers(handle, b, reqs[1..])
  }

  function ApplianceAfter(handle: Handle, a: Appliance, reqs: seq<Request>): Appliance
    decreases |reqs|
  {
    if reqs == [] then a else ApplianceAfter(handle, handle(a, reqs[0]).0, reqs[1..])
  }

  lemma {:induction false} AnswersSnoc(handle: Handle, a: Appliance, reqs: seq<Request>, req: Request)
    ensures var (b, resp) := handle(ApplianceAfter(handle, a, reqs), req);
            && Answers(handle, a, reqs + [req]) == Answers(handle, a, reqs) + [resp]
            && ApplianceAfter(handle, a, reqs + [req]) == b
    decreases |reqs|
  {
    if reqs == [] {
      assert [req][1..] == [] && [] + [req] == [req];
    } else {
      assert (reqs + [req])[1..] == reqs[1..] + [req];
      AnswersSnoc(handle, handle(a, reqs[0]).0, reqs[1..], req);
    }
  }

  /** The payloads are the marshalled forms of the values, and can be framed. */
  ghost predicate Marshals<T>(codec: Codec<T>, vs: seq<T>, ps: seq<seq<Byte>>)
  {
    |vs| == |ps| && forall i :: 0 <= i < |vs| ==> codec.marshal(vs[i]) == Some(ps[i]) && Framable(ps[i])
  }

  ghost predicate Unmarshals<T>(codec: Codec<T>, ps: seq<seq<Byte>>, vs: seq<T>)
  {
    |vs| == |ps| && forall i :: 0 <= i < |vs| ==> codec.unmarshal(ps[i]) == Some(vs[i])
  }

  lemma {:induction false} FramesSnoc(ps: seq<seq<Byte>>, p: seq<Byte>)
    ensures FramesOf(ps + [p]) == FramesOf(ps) + FrameOf(p)
    decreases |ps|
  {
    if ps == [] {
      assert [] + [p] == [p] && [p][1..] == [];
    } else {
      assert (ps + [p])[1..] == ps[1..] + [p];
      FramesSnoc(ps[1..], p);
    }
  }

  /**
   Serve answers the requests on the stream in order, each once, and stops at the first it
   cannot read or answer. It returns cleanly if the stream ends, within a frame or not.
   */
  method Serve(r: ByteReader, w: ByteWriter, reqCodec: Codec<Request>, respCodec: Codec<Response>, handle: Handle, a: Appliance)
    returns (clean: bool, b: Appliance, ghost reqs: seq<Request>, ghost replies: seq<seq<Byte>>)
    requires r.Valid()
    modifies r, w
    ensures var (ps, e) := ReadFrames(old(r.Rest()), r.broken);
            && |reqs| <= |ps| && Unmarshals(reqCodec, ps[..|reqs|], reqs)
            && b == ApplianceAfter(handle, a, reqs)
            && |replies| <= |reqs| <= |replies| + 1
            && Marshals(respCodec, Answers(handle, a, reqs)[..|replies|], replies)
            && old(w.sent) + FramesOf(replies) <= w.sent
            && (clean ==> |replies| == |reqs| == |ps| && (e.Eof? || e.HeaderCut? || e.PayloadCut?)
                          && w.sent == old(w.sent) + FramesOf(replies))
            && (!clean ==> || |replies| < |reqs|
                           || (|reqs| < |ps| && reqCodec.unmarshal(ps[|reqs|]).None?)
                           || (|reqs| == |ps| && (e.TooLarge? || e.Connection?)))
  {
    hide ReadFrame, ReadFrames, FrameOf, FramesOf, Answers, ApplianceAfter, Marshals, Unmarshals;
    b, reqs, replies := a, [], [];
    NothingYet(handle, a);
    NothingMarshalled(reqCodec, respCodec);
    ghost var ps, e := ReadFrames(r.Rest(), r.broken).0, ReadFrames(r.Rest(), r.broken).1;
    ghost var sent0 := w.sent;
    assert w.sent == sent0 + [];
    while true
      invariant r.Valid() && |replies| == |reqs| <= |ps| && Unmarshals(reqCodec, ps[..|reqs|], reqs)
      invariant ReadFrames(r.Rest(), r.broken) == (ps[|reqs|..], e)
      invariant b == ApplianceAfter(handle, a, reqs)
      invariant Marshals(respCodec, Answers(handle, a, reqs), replies)
      invariant w.sent == sent0 + FramesOf(replies)
      decreases |r.Rest()|
    {
      ghost var n := |reqs|;
      ghost var rest := r.Rest();
      OneFrame(rest, r.broken);
      assert Answers(handle, a, reqs)[..|replies|] == Answers(handle, a, reqs);
      assert ps[n..] != [] ==> ps[n..][0] == ps[n];
      var req := ReadMsg(r, reqCodec);
      if req.Failure? {
        clean := req.error.Eof? || req.error.HeaderCut? || req.error.PayloadCut?;
        return;
      }
      assert ps[n..][0] == ps[n] && ps[n..][1..] == ps[n + 1..] && ps[..n + 1] == ps[..n] + [ps[n]];
      AnswersSnoc(handle, a, reqs, req.value);
      ghost var answers := Answers(handle, a, reqs);
      var (b', resp) := handle(b, req.value);
      UnmarshalsSnoc(reqCodec, ps[..n], reqs, ps[n], req.value);
      b := b';
      reqs := reqs + [req.value];
      var out := WriteMsg(w, respCodec, resp);
      if !out.Written? {
        clean := false;
        assert (answers + [resp])[..n] == answers;
        return;
      }
      FramesFollow(sent0, replies, respCodec.marshal(resp).value);
      MarshalsSnoc(respCodec, answers, replies, resp);
      replies := replies + [respCodec.marshal(resp).value];
    }
  }

  // ---- Replies that are too large ----

  /** The length of a reply that is nothing but n bytes of data: {"data":"..."}, in base64. */
  function DataReplyLength(n: nat): nat
  {
    if n == 0 then 2 else 11 + (n + 2) / 3 * 4
  }

  /** What a pread may ask for. A file read whole may be of any size. */
  predicate PReadAllowed(length: int)
  {
    0 <= length <= MAX_MESSAGE_SIZE
  }

  /** The bound on a pread lets through a quarter of its range that no reply can carry. */
  lemma DataReplyFitsIff(n: nat)
    ensures DataReplyLength(n) <= MAX_MESSAGE_SIZE <==> n <= 402653175
    ensures PReadAllowed(n) && DataReplyLength(n) > MAX_MESSAGE_SIZE <==> 402653175 < n <= MAX_MESSAGE_SIZE
  {
    if n > 0 {
      var groups := (n + 2) / 3;
      assert 3 * groups <= n + 2 < 3 * groups + 3;
    }
  }

  lemma FramesFollow(sent: seq<Byte>, ps: seq<seq<Byte>>, p: seq<Byte>)
    ensures sent + FramesOf(ps) + FrameOf(p) == sent + FramesOf(ps + [p])
  {
    hide FramesOf, FrameOf;
    FramesSnoc(ps, p);
    assert sent + FramesOf(ps) + FrameOf(p) == sent + (FramesOf(ps) + FrameOf(p));
  }

  lemma NothingMarshalled(a: Codec<Request>, b: Codec<Response>)
    ensures Unmarshals(a, [], []) && Marshals(b, [], [])
  {
  }

  lemma UnmarshalsSnoc<T>(codec: Codec<T>, ps: seq<seq<Byte>>, vs: seq<T>, p: seq<Byte>, v: T)
    requires Unmarshals(codec, ps, vs) && codec.unmarshal(p) == Some(v)
    ensures Unmarshals(codec, ps + [p], vs + [v])
  {
  }

  lemma MarshalsSnoc<T>(codec: Codec<T>, vs: seq<T>, ps: seq<seq<Byte>>, v: T)
    requires Marshals(codec, vs, ps) && codec.marshal(v).Some? && Framable(codec.marshal(v).value)
    ensures Marshals(codec, vs + [v], ps + [codec.marshal(v).value])
  {
  }

  lemma NothingYet(handle: Handle, a: Appliance)
    ensures FramesOf([]) == [] && Answers(handle, a, []) == [] && ApplianceAfter(handle, a, []) == a
  {
  }

  lemma OneFrame(s: seq<Byte>, broken: bool)
    ensures var g := ReadFrame(s, broken); var (ps, e) := ReadFrames(s, broken);
            if g.Failed? then ps == [] && e == g.error && !e.BadMessage?
            else |g.rest| < |s| && ps != [] && ps[0] == g.payload && ReadFrames(g.rest, broken) == (ps[1..], e)
  {
  }
}
