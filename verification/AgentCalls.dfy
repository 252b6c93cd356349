/**
 Calls of several goroutines to the agent over one connection: a client whose mutex lets one
 call at a time write its request and read the next response, and the agent at the other
 end, over a connection that may fail at any moment.
 */
module AgentCalls {
  import opened Bytes
  import opened Results
  import opened Streams
  import opened AgentProtocol

  // ---- One call ----

  datatype CallError = Closed | WriteError(w: WriteOutcome) | ReadFailed(e: ReadError) | Remote(resp: Response)

  class AgentClient {
    const reqCodec: Codec<Request>
    const respCodec: Codec<Response>
    const r: ByteReader
    const w: ByteWriter
    var open: bool

    constructor (reqCodec: Codec<Request>, respCodec: Codec<Response>, r: ByteReader, w: ByteWriter)
      ensures open && this.r == r && this.w == w && this.reqCodec == reqCodec && this.respCodec == respCodec
    {
      this.reqCodec, this.respCodec, this.r, this.w := reqCodec, respCodec, r, w;
      open := true;
    }

    /**
     call, holding the mutex: the request is written whole, then one response is read,
     whichever comes next. The connection stays open whatever happens.
     */
    method Call(req: Request) returns (res: Result<Response, CallError>)
      requires r.Valid()
      modifies r, w
      ensures r.Valid()
      ensures !open ==> res == Failure(Closed)
      ensures !open || (res.Failure? && res.error.WriteError?) ==> r.Rest() == old(r.Rest())
      ensures res.Success? || (res.Failure? && (res.error.Remote? || res.error.ReadFailed?)) ==>
                && FrameFor(reqCodec, req).Some?
                && w.sent == old(w.sent) + FrameFor(reqCodec, req).value
                && r.Rest() == ReadFrame(old(r.Rest()), r.broken).rest
      ensures res.Success? || (res.Failure? && res.error.Remote?) ==>
                && var g := ReadFrame(old(r.Rest()), r.broken);
                && var resp := if res.Success? then res.value else res.error.resp;
                && g.Got? && respCodec.unmarshal(g.payload) == Some(resp) && (res.Success? <==> resp.err == "")
    {
      hide ReadFrame, FrameOf;
      if !open {
        return Failure(Closed);
      }
      var out := WriteMsg(w, reqCodec, req);
      if !out.Written? {
        return Failure(WriteError(out));
      }
      var resp := ReadMsg(r, respCodec);
      if resp.Failure? {
        return Failure(ReadFailed(resp.error));
      }
      if resp.value.err != "" {
        return Failure(Remote(resp.value));
      }
      return Success(resp.value);
    }
  }

  // ---- Many callers ----

  datatype Peer = Peer(reqCodec: Codec<Request>, respCodec: Codec<Response>, handle: Handle)

  ghost predicate Sound(peer: Peer)
  {
    Faithful(peer.reqCodec) && Faithful(peer.respCodec)
  }

  /** What a call came to; an answer is the reply of that number among all the agent sent. */
  datatype Outcome = Answered(resp: Response, number: nat) | Refused | Broken

  /** Holding the mutex a caller is about to write its request, or waits for a response. */
  datatype Phase = Idle | Entered(req: Request) | Waiting(req: Request)

  datatype Call = Call(req: Request, outcome: Outcome)

  datatype Caller = Caller(todo: seq<Request>, phase: Phase, done: seq<Call>)

  datatype Agent = Reading | Replying(resp: Response)

  datatype Served = Served(req: Request, resp: Response)

  /**
   Up and down are the bytes on their way to and from the agent. Without a deadline on a call
   a connection fails for good: alive is false from then on, what was on its way may be lost,
   and nothing more goes into it.
   */
  datatype State = State(
    callers: seq<Caller>,
    lock: Option<nat>,
    up: seq<Byte>,
    down: seq<Byte>,
    agent: Agent,
    appliance: Appliance,
    served: seq<Served>,
    delivered: nat,
    alive: bool)

  datatype Step =
    | Enter(i: nat)
    | Refuse
    | Write
    | WriteFault(k: nat)
    | AgentRead
    | AgentWrite
    | AgentGivesUp
    | AgentFault(k: nat)
    | Read
    | ReadFault
    | Disconnect(k: nat, j: nat)

  function Start(scripts: seq<seq<Request>>, a: Appliance): State
  {
    State(seq(|scripts|, i requires 0 <= i < |scripts| => Caller(scripts[i], Idle, [])), None, [], [], Reading, a, [], 0, true)
  }

  /** The holder of the mutex. */
  predicate Held(s: State)
  {
    s.lock.Some? && s.lock.value < |s.callers| && !s.callers[s.lock.value].phase.Idle?
  }

  function Holder(s: State): Caller
    requires Held(s)
  {
    s.callers[s.lock.value]
  }

  function WithHolder(s: State, c: Caller): State
    requires Held(s)
  {
    s.(callers := s.callers[s.lock.value := c])
  }

  /** The call of the holder is over, and the mutex given back. */
  function Finish(s: State, outcome: Outcome): State
    requires Held(s)
  {
    var c := Holder(s);
    WithHolder(s, Caller(c.todo, Idle, c.done + [Call(c.phase.req, outcome)])).(lock := None)
  }

  /**
   What may happen next. An agent that cannot write a reply gives it up, opens its end again
   and reads the next request; the caller learns nothing of that. A read fails when the
   connection does and no whole response has arrived before.
   */
  predicate Enabled(s: State, step: Step, peer: Peer)
  {
    match step
    case Enter(i) => s.lock.None? && i < |s.callers| && s.callers[i].phase.Idle? && s.callers[i].todo != []
    case Refuse => Held(s) && Holder(s).phase.Entered? && FrameFor(peer.reqCodec, Holder(s).phase.req).None?
    case Write => s.alive && Held(s) && Holder(s).phase.Entered? && FrameFor(peer.reqCodec, Holder(s).phase.req).Some?
    case WriteFault(k) =>
      && Held(s) && Holder(s).phase.Entered? && FrameFor(peer.reqCodec, Holder(s).phase.req).Some?
      && k < |FrameFor(peer.reqCodec, Holder(s).phase.req).value|
    case AgentRead =>
      && s.agent.Reading? && ReadFrame(s.up, false).Got?
      && peer.reqCodec.unmarshal(ReadFrame(s.up, false).payload).Some?
    case AgentWrite => s.agent.Replying? && FrameFor(peer.respCodec, s.agent.resp).Some?
    case AgentGivesUp => s.agent.Replying? && FrameFor(peer.respCodec, s.agent.resp).None?
    case AgentFault(k) =>
      && s.agent.Replying? && FrameFor(peer.respCodec, s.agent.resp).Some?
      && k < |FrameFor(peer.respCodec, s.agent.resp).value|
    case Read =>
      && Held(s) && Holder(s).phase.Waiting? && ReadFrame(s.down, false).Got?
      && peer.respCodec.unmarshal(ReadFrame(s.down, false).payload).Some?
    case ReadFault => !s.alive && Held(s) && Holder(s).phase.Waiting? && ReadFrame(s.down, false).Failed?
    case Disconnect(k, j) => s.alive && k <= |s.up| && j <= |s.down|
  }

  function Next(s: State, step: Step, peer: Peer): State
    requires Enabled(s, step, peer)
  {
    match step
    case Enter(i) =>
      var c := s.callers[i];
      s.(callers := s.callers[i := Caller(c.todo[1..], Entered(c.todo[0]), c.done)], lock := Some(i))
    case Refuse => Finish(s, Refused)
    case Write =>
      var c := Holder(s);
      WithHolder(s, c.(phase := Waiting(c.phase.req))).(up := s.up + FrameFor(peer.reqCodec, c.phase.req).value)
    case WriteFault(k) =>
      var part := if s.alive then FrameFor(peer.reqCodec, Holder(s).phase.req).value[..k] else [];
      Finish(s, Broken).(up := s.up + part, alive := false)
    case AgentRead =>
      var g := ReadFrame(s.up, false);
      var req := peer.reqCodec.unmarshal(g.payload).value;
      var (b, resp) := peer.handle(s.appliance, req);
      s.(up := g.rest, agent := Replying(resp), appliance := b, served := s.served + [Served(req, resp)])
    case AgentWrite =>
      s.(down := s.down + (if s.alive then FrameFor(peer.respCodec, s.agent.resp).value else []), agent := Reading)
    case AgentGivesUp => s.(agent := Reading)
    case AgentFault(k) =>
      s.(down := s.down + (if s.alive then FrameFor(peer.respCodec, s.agent.resp).value[..k] else []), agent := Reading)
    case Read =>
      var g := ReadFrame(s.down, false);
      Finish(s, Answered(peer.respCodec.unmarshal(g.payload).value, s.delivered)).(down := g.rest, delivered := s.delivered + 1)
    case ReadFault => Finish(s, Broken).(down := [])
    case Disconnect(k, j) => s.(up := s.up[..k], down := s.down[..j], alive := false)
  }

  /** The state after the steps, if each is possible in turn. */
  function After(s: State, steps: seq<Step>, peer: Peer): Option<State>
    decreases |steps|
  {
    if steps == [] then Some(s)
    else if Enabled(s, steps[0], peer) then After(Next(s, steps[0], peer), steps[1..], peer)
    else None
  }

  // ---- The invariant ----

  /** Nothing is in flight. */
  predicate Quiet(s: State)
  {
    s.up == [] && s.down == [] && s.agent.Reading? && s.delivered == |s.served|
  }

  /** The agent has handled the request that is waited for, and its reply will not come. */
  predicate ReplyLost(s: State)
  {
    s.agent.Reading? && s.up == [] && s.delivered + 1 == |s.served| && ReadFrame(s.down, false).Failed?
  }

  /** The request of the waiting caller is on its way, being handled, answered, or lost. */
  predicate InFlight(s: State, req: Request, peer: Peer)
  {
    || (s.agent.Reading? && s.down == [] && s.delivered == |s.served|
        && FrameFor(peer.reqCodec, req) == Some(s.up))
    || (s.up == [] && s.delivered + 1 == |s.served| && s.served[s.delivered].req == req
        && ((s.agent == Replying(s.served[s.delivered].resp) && s.down == [])
            || (s.agent.Reading? && FrameFor(peer.respCodec, s.served[s.delivered].resp) == Some(s.down))
            || ReplyLost(s)))
  }

  /** After the connection failed: if a whole response has arrived, it is the one waited for. */
  predicate Stranded(s: State, req: Request, peer: Peer)
  {
    var g := ReadFrame(s.down, false);
    g.Got? ==>
      && s.delivered < |s.served| && s.served[s.delivered].req == req
      && peer.respCodec.unmarshal(g.payload) == Some(s.served[s.delivered].resp)
  }

  predicate OthersIdle(s: State)
  {
    forall j :: 0 <= j < |s.callers| && s.lock != Some(j) ==> s.callers[j].phase.Idle?
  }

  /** No request is followed by another before it is read. */
  predicate OneRequest(s: State)
  {
    (s.agent.Replying? ==> s.up == []) && (ReadFrame(s.up, false).Got? ==> ReadFrame(s.up, false).rest == [])
  }

  predicate InStep(s: State, peer: Peer)
  {
    && OthersIdle(s) && OneRequest(s)
    && (s.lock.Some? ==> Held(s))
    && (s.alive ==> if Held(s) && Holder(s).phase.Waiting? then InFlight(s, Holder(s).phase.req, peer) else Quiet(s))
    && (!s.alive && Held(s) && Holder(s).phase.Waiting? ==> Stranded(s, Holder(s).phase.req, peer))
  }

  /** Every answer given to a call of the caller is the agent's reply to that very request. */
  predicate OwnAnswers(c: Caller, served: seq<Served>, delivered: nat)
  {
    forall k :: 0 <= k < |c.done| && c.done[k].outcome.Answered? ==>
      var o := c.done[k].outcome; o.number < delivered && o.number < |served| && served[o.number] == Served(c.done[k].req, o.resp)
  }

  predicate AllOwnAnswers(s: State)
  {
    forall i :: 0 <= i < |s.callers| ==> OwnAnswers(s.callers[i], s.served, s.delivered)
  }

  /** No reply was given to two calls. */
  predicate NoReplyTwice(s: State)
  {
    forall i, k, j, l ::
      0 <= i < |s.callers| && 0 <= k < |s.callers[i].done| && 0 <= j < |s.callers| && 0 <= l < |s.callers[j].done|
      && s.callers[i].done[k].outcome.Answered? && s.callers[j].done[l].outcome.Answered?
      && s.callers[i].done[k].outcome.number == s.callers[j].done[l].outcome.number
      ==> i == j && k == l
  }

  function Requests(served: seq<Served>): (r: seq<Request>)
    ensures |r| == |served| && forall k :: 0 <= k < |r| ==> r[k] == served[k].req
  {
    seq(|served|, k requires 0 <= k < |served| => served[k].req)
  }

  function Replies(served: seq<Served>): (r: seq<Response>)
    ensures |r| == |served| && forall k :: 0 <= k < |r| ==> r[k] == served[k].resp
  {
    seq(|served|, k requires 0 <= k < |served| => served[k].resp)
  }

  /** The agent handled the requests it served one after the other. */
  predicate HandledInOrder(s: State, a0: Appliance, peer: Peer)
  {
    && Replies(s.served) == Answers(peer.handle, a0, Requests(s.served))
    && s.appliance == ApplianceAfter(peer.handle, a0, Requests(s.served))
  }

  /** All requests of a caller, made, being made and still to make. */
  function Script(c: Caller): seq<Request>
  {
    seq(|c.done|, k requires 0 <= k < |c.done| => c.done[k].req) + (if c.phase.Idle? then [] else [c.phase.req]) + c.todo
  }

  predicate Following(s: State, scripts: seq<seq<Request>>)
  {
    |s.callers| == |scripts| && forall i :: 0 <= i < |scripts| ==> Script(s.callers[i]) == scripts[i]
  }

  predicate Invariant(s: State, scripts: seq<seq<Request>>, a0: Appliance, peer: Peer)
  {
    && Following(s, scripts)
    && HandledInOrder(s, a0, peer)
    && InStep(s, peer) && AllOwnAnswers(s) && NoReplyTwice(s)
  }

  // ---- It is kept ----

  lemma FrameReads<T(!new)>(codec: Codec<T>, v: T, s: seq<Byte>)
    requires Faithful(codec) && FrameFor(codec, v) == Some(s)
    ensures var g := ReadFrame(s, false); g.Got? && g.rest == [] && codec.unmarshal(g.payload) == Some(v)
  {
    hide FrameOf, ReadFrame;
    var p := codec.marshal(v).value;
    assert s == FrameOf(p) + [];
    FrameReadsBack(p, [], false);
  }

  lemma NothingToRead()
    ensures ReadFrame([], false).Failed?
  {
  }

  /** A part of a frame cannot be read, and behind a whole one nothing is left. */
  lemma FramePart<T(!new)>(codec: Codec<T>, v: T, n: nat)
    requires FrameFor(codec, v).Some? && n <= |FrameFor(codec, v).value|
    ensures var f := FrameFor(codec, v).value;
            if n < |f| then ReadFrame(f[..n], false).Failed? else f[..n] == f && ReadFrame(f, false).Got? && ReadFrame(f, false).rest == []
  {
    hide FrameOf, ReadFrame;
    var p := codec.marshal(v).value;
    if n < |FrameOf(p)| {
      FrameCut(p, n, false);
    } else {
      assert FrameOf(p)[..n] == FrameOf(p) == FrameOf(p) + [];
      FrameReadsBack(p, [], false);
    }
  }

  /** While the connection lives, what the agent reads is the holder's request, and what the holder reads its response. */
  lemma InFlightReads(s: State, peer: Peer)
    requires Sound(peer) && InStep(s, peer) && s.alive
    ensures s.agent.Reading? && ReadFrame(s.up, false).Got? ==>
              && Held(s) && Holder(s).phase.Waiting? && s.down == [] && s.delivered == |s.served|
              && ReadFrame(s.up, false).rest == []
              && peer.reqCodec.unmarshal(ReadFrame(s.up, false).payload) == Some(Holder(s).phase.req)
    ensures ReadFrame(s.down, false).Got? ==>
              && Held(s) && Holder(s).phase.Waiting? && s.up == [] && s.agent.Reading? && s.delivered + 1 == |s.served|
              && s.served[s.delivered].req == Holder(s).phase.req
              && FrameFor(peer.respCodec, s.served[s.delivered].resp) == Some(s.down)
              && ReadFrame(s.down, false).rest == []
              && peer.respCodec.unmarshal(ReadFrame(s.down, false).payload) == Some(s.served[s.delivered].resp)
  {
    hide ReadFrame, FrameFor, Faithful;
    NothingToRead();
    if Held(s) && Holder(s).phase.Waiting? {
      var req := Holder(s).phase.req;
      if FrameFor(peer.reqCodec, req) == Some(s.up) {
        FrameReads(peer.reqCodec, req, s.up);
      }
      if s.delivered + 1 == |s.served| && FrameFor(peer.respCodec, s.served[s.delivered].resp) == Some(s.down) {
        FrameReads(peer.respCodec, s.served[s.delivered].resp, s.down);
      }
    }
  }

  /** Whatever the holder reads is the agent's response to its request. */
  lemma ReadsOwn(s: State, peer: Peer)
    requires Sound(peer) && InStep(s, peer) && Held(s) && Holder(s).phase.Waiting? && ReadFrame(s.down, false).Got?
    ensures s.delivered < |s.served| && s.served[s.delivered].req == Holder(s).phase.req
    ensures peer.respCodec.unmarshal(ReadFrame(s.down, false).payload) == Some(s.served[s.delivered].resp)
  {
    hide ReadFrame, FrameFor, Faithful, InFlight, Quiet;
    if s.alive {
      InFlightReads(s, peer);
    }
  }

  /** Every step keeps the callers, the agent and what is on its way in step, whatever fails. */
  lemma InStepKept(s: State, step: Step, peer: Peer)
    requires Sound(peer) && InStep(s, peer) && Enabled(s, step, peer)
    ensures InStep(Next(s, step, peer), peer)
  {
    hide ReadFrame, FrameFor, Faithful;
    NothingToRead();
    if s.alive {
      InFlightReads(s, peer);
      match step
      case Write => WriteKept(s, peer);
      case WriteFault(k) => FramePart(peer.reqCodec, Holder(s).phase.req, k); assert [] + FrameFor(peer.reqCodec, Holder(s).phase.req).value[..k] == FrameFor(peer.reqCodec, Holder(s).phase.req).value[..k];
      case AgentWrite => assert [] + FrameFor(peer.respCodec, s.agent.resp).value == FrameFor(peer.respCodec, s.agent.resp).value;
      case AgentFault(k) => FramePart(peer.respCodec, s.agent.resp, k); assert [] + FrameFor(peer.respCodec, s.agent.resp).value[..k] == FrameFor(peer.respCodec, s.agent.resp).value[..k];
      case Disconnect(k, j) => DisconnectKept(s, k, j, peer);
      case _ =>
    } else {
      assert s.up + [] == s.up && s.down + [] == s.down;
    }
  }

  lemma WriteKept(s: State, peer: Peer)
    requires Sound(peer) && InStep(s, peer) && s.alive && Enabled(s, Write, peer)
    ensures InStep(Next(s, Write, peer), peer)
  {
    hide ReadFrame, FrameFor, Faithful;
    var f := FrameFor(peer.reqCodec, Holder(s).phase.req).value;
    assert [] + f == f;
    FrameReads(peer.reqCodec, Holder(s).phase.req, f);
  }

  /** What cannot be read whole cannot be read in part. */
  lemma PartUnread(s: seq<Byte>, n: nat)
    requires n <= |s| && ReadFrame(s, false).Failed?
    ensures ReadFrame(s[..n], false).Failed?
  {
    if n >= 4 {
      assert s[..n][..4] == s[..4];
    }
  }

  lemma DisconnectKept(s: State, k: nat, j: nat, peer: Peer)
    requires Sound(peer) && InStep(s, peer) && s.alive && Enabled(s, Disconnect(k, j), peer)
    ensures InStep(Next(s, Disconnect(k, j), peer), peer)
  {
    hide ReadFrame, FrameFor, Faithful;
    NothingToRead();
    InFlightReads(s, peer);
    if Held(s) && Holder(s).phase.Waiting? {
      var req := Holder(s).phase.req;
      if FrameFor(peer.reqCodec, req) == Some(s.up) {
        FramePart(peer.reqCodec, req, k);
      }
      if s.delivered + 1 == |s.served| && FrameFor(peer.respCodec, s.served[s.delivered].resp) == Some(s.down) {
        FramePart(peer.respCodec, s.served[s.delivered].resp, j);
      }
      if ReadFrame(s.down, false).Failed? {
        PartUnread(s.down, j);
      }
    }
  }

  lemma OwnAnswersGrow(c: Caller, d: Caller, served0: seq<Served>, served1: seq<Served>, delivered0: nat, delivered1: nat)
    requires OwnAnswers(c, served0, delivered0) && served0 <= served1 && delivered0 <= delivered1 && c.done <= d.done
    requires forall k :: |c.done| <= k < |d.done| && d.done[k].outcome.Answered? ==>
               var o := d.done[k].outcome;
               o.number < delivered1 && o.number < |served1| && served1[o.number] == Served(d.done[k].req, o.resp)
    ensures OwnAnswers(d, served1, delivered1)
  {
  }

  lemma OwnAnswersKept(s: State, step: Step, peer: Peer, i: nat)
    requires Sound(peer) && InStep(s, peer) && AllOwnAnswers(s) && i < |s.callers|
    requires Enabled(s, step, peer)
    ensures var t := Next(s, step, peer); OwnAnswers(t.callers[i], t.served, t.delivered)
  {
    hide ReadFrame, FrameFor, Faithful, InStep, InFlight, OwnAnswers;
    if step.Read? {
      ReadsOwn(s, peer);
    }
    var t := Next(s, step, peer);
    OwnAnswersGrow(s.callers[i], t.callers[i], s.served, t.served, s.delivered, t.delivered);
  }

  lemma AnswersKept(s: State, step: Step, peer: Peer)
    requires Sound(peer) && InStep(s, peer) && AllOwnAnswers(s) && NoReplyTwice(s)
    requires Enabled(s, step, peer)
    ensures AllOwnAnswers(Next(s, step, peer)) && NoReplyTwice(Next(s, step, peer))
  {
    hide ReadFrame, FrameFor, Faithful, InStep, InFlight, OwnAnswers, NoReplyTwice;
    var t := Next(s, step, peer);
    forall i | 0 <= i < |t.callers| ensures OwnAnswers(t.callers[i], t.served, t.delivered) {
      OwnAnswersKept(s, step, peer, i);
    }
    if step.Read? {
      FreshAnswer(s, peer);
    } else {
      NoNewAnswer(s, t);
    }
  }

  lemma NoNewAnswer(s: State, t: State)
    requires NoReplyTwice(s) && |s.callers| == |t.callers|
    requires forall i :: 0 <= i < |s.callers| ==> s.callers[i].done <= t.callers[i].done
    requires forall i, k :: 0 <= i < |s.callers| && |s.callers[i].done| <= k < |t.callers[i].done| ==>
               !t.callers[i].done[k].outcome.Answered?
    ensures NoReplyTwice(t)
  {
  }

  /** The reply read now has a number no earlier answer has. */
  lemma FreshAnswer(s: State, peer: Peer)
    requires AllOwnAnswers(s) && NoReplyTwice(s) && Enabled(s, Read, peer)
    ensures NoReplyTwice(Next(s, Read, peer))
  {
    hide ReadFrame, FrameFor;
    var t := Next(s, Read, peer);
    forall i, k | 0 <= i < |s.callers| && 0 <= k < |s.callers[i].done| && s.callers[i].done[k].outcome.Answered?
      ensures s.callers[i].done[k].outcome.number < s.delivered
    {
      assert OwnAnswers(s.callers[i], s.served, s.delivered);
    }
  }

  lemma ServedSnoc(s: State, t: State, a0: Appliance, peer: Peer, req: Request)
    requires HandledInOrder(s, a0, peer)
    requires var (b, resp) := peer.handle(s.appliance, req); t.served == s.served + [Served(req, resp)] && t.appliance == b
    ensures HandledInOrder(t, a0, peer)
  {
    hide Answers, ApplianceAfter;
    AnswersSnoc(peer.handle, a0, Requests(s.served), req);
    assert Requests(t.served) == Requests(s.served) + [req];
    assert Replies(t.served) == Replies(s.served) + [t.served[|s.served|].resp];
  }

  lemma ScriptKept(s: State, step: Step, peer: Peer, scripts: seq<seq<Request>>)
    requires Following(s, scripts) && Enabled(s, step, peer)
    ensures Following(Next(s, step, peer), scripts)
  {
    hide ReadFrame, FrameFor;
    var t := Next(s, step, peer);
    forall i | 0 <= i < |scripts| ensures Script(t.callers[i]) == scripts[i] {
      assert Script(s.callers[i]) == scripts[i];
    }
  }

  lemma InvariantKept(s: State, step: Step, peer: Peer, scripts: seq<seq<Request>>, a0: Appliance)
    requires Sound(peer) && Invariant(s, scripts, a0, peer) && Enabled(s, step, peer)
    ensures Invariant(Next(s, step, peer), scripts, a0, peer)
  {
    hide ReadFrame, FrameFor, Faithful, InStep, AllOwnAnswers, NoReplyTwice, Following, HandledInOrder;
    var t := Next(s, step, peer);
    ScriptKept(s, step, peer, scripts);
    if step.AgentRead? {
      ServedSnoc(s, t, a0, peer, peer.reqCodec.unmarshal(ReadFrame(s.up, false).payload).value);
    } else {
      SameServed(s, t, a0, peer);
    }
    InStepKept(s, step, peer);
    AnswersKept(s, step, peer);
  }

  lemma SameServed(s: State, t: State, a0: Appliance, peer: Peer)
    requires HandledInOrder(s, a0, peer) && t.served == s.served && t.appliance == s.appliance
    ensures HandledInOrder(t, a0, peer)
  {
  }

  lemma StartInvariant(scripts: seq<seq<Request>>, a0: Appliance, peer: Peer)
    ensures Invariant(Start(scripts, a0), scripts, a0, peer)
  {
    NothingToRead();
    var s := Start(scripts, a0);
    forall i | 0 <= i < |scripts| ensures Script(s.callers[i]) == scripts[i] {
    }
  }

  lemma {:induction false} ReachableInvariant(s: State, steps: seq<Step>, peer: Peer, scripts: seq<seq<Request>>, a0: Appliance)
    requires Sound(peer) && Invariant(s, scripts, a0, peer) && After(s, steps, peer).Some?
    ensures Invariant(After(s, steps, peer).value, scripts, a0, peer)
    decreases |steps|
  {
    hide Invariant, Enabled, Next;
    if steps != [] {
      InvariantKept(s, steps[0], peer, scripts, a0);
      ReachableInvariant(Next(s, steps[0], peer), steps[1..], peer, scripts, a0);
    }
  }

  /**
   However the calls of the goroutines and the agent's work interleave, and whatever fails at
   whatever moment, the agent handles the requests it reads one after the other, every call
   answered got the agent's reply to its own request, no reply went to two calls, and every
   caller made its requests in its own order.
   */
  lemma CallsGetOwnAnswers(scripts: seq<seq<Request>>, a0: Appliance, steps: seq<Step>, peer: Peer)
    requires Sound(peer) && After(Start(scripts, a0), steps, peer).Some?
    ensures var s := After(Start(scripts, a0), steps, peer).value;
            HandledInOrder(s, a0, peer) && Following(s, scripts) && AllOwnAnswers(s) && NoReplyTwice(s)
  {
    hide HandledInOrder, Following, AllOwnAnswers, NoReplyTwice, InStep, Enabled, Next;
    StartInvariant(scripts, a0, peer);
    ReachableInvariant(Start(scripts, a0), steps, peer, scripts, a0);
  }

  // ---- Where calls get stuck ----

  predicate AllDone(s: State)
  {
    forall i :: 0 <= i < |s.callers| ==> s.callers[i].phase.Idle? && s.callers[i].todo == []
  }

  /** A caller holds the mutex and waits, over a live connection, for a reply that will not come. */
  predicate Stuck(s: State)
  {
    s.alive && Held(s) && Holder(s).phase.Waiting? && ReplyLost(s)
  }

  /** A caller that is stuck, and with it every other one, gets on only if the connection fails. */
  lemma StuckForGood(s: State, step: Step, peer: Peer)
    requires Sound(peer) && InStep(s, peer) && Stuck(s) && Enabled(s, step, peer)
    ensures step.Disconnect?
  {
    hide ReadFrame, FrameFor, Faithful;
    NothingToRead();
  }

  /** A step gets a caller stuck exactly if with it the agent does not write a reply, or not all of it. */
  lemma GetsStuckIff(s: State, step: Step, peer: Peer)
    requires Sound(peer) && InStep(s, peer) && s.alive && Enabled(s, step, peer)
    ensures Stuck(Next(s, step, peer)) <==> step.AgentGivesUp? || step.AgentFault?
  {
    hide ReadFrame, FrameFor, Faithful;
    NothingToRead();
    InFlightReads(s, peer);
    InStepKept(s, step, peer);
    match step
    case Write => FrameNotEmpty(peer.reqCodec, Holder(s).phase.req);
    case AgentWrite =>
      FramePart(peer.respCodec, s.agent.resp, |FrameFor(peer.respCodec, s.agent.resp).value|);
      assert [] + FrameFor(peer.respCodec, s.agent.resp).value == FrameFor(peer.respCodec, s.agent.resp).value;
    case AgentFault(k) =>
      FramePart(peer.respCodec, s.agent.resp, k);
      assert [] + FrameFor(peer.respCodec, s.agent.resp).value[..k] == FrameFor(peer.respCodec, s.agent.resp).value[..k];
    case _ =>
  }

  predicate IsFault(step: Step)
  {
    step.Disconnect? || step.AgentFault? || step.WriteFault? || step.ReadFault?
  }

  /**
   Until every call is made a step is possible that is no failure, or over a failed connection
   at least none of the agent's, unless a caller is stuck.
   */
  lemma NoDeadlock(s: State, peer: Peer) returns (step: Step)
    requires Sound(peer) && InStep(s, peer) && !AllDone(s) && !Stuck(s)
    ensures Enabled(s, step, peer) && !step.Disconnect? && !step.AgentFault?
    ensures s.alive ==> !IsFault(step)
  {
    hide ReadFrame, FrameFor, Faithful;
    if s.lock.None? {
      var i :| 0 <= i < |s.callers| && (!s.callers[i].phase.Idle? || s.callers[i].todo != []);
      return Enter(i);
    }
    var c := Holder(s);
    if s.delivered < |s.served| && FrameFor(peer.respCodec, s.served[s.delivered].resp) == Some(s.down) {
      FrameReads(peer.respCodec, s.served[s.delivered].resp, s.down);
    }
    if c.phase.Entered? {
      if FrameFor(peer.reqCodec, c.phase.req).None? { return Refuse; }
      FrameNotEmpty(peer.reqCodec, c.phase.req);
      return if s.alive then Write else WriteFault(0);
    }
    if ReadFrame(s.down, false).Got? {
      ReadsOwn(s, peer);
      return Read;
    }
    if !s.alive { return ReadFault; }
    if s.agent.Replying? {
      return if FrameFor(peer.respCodec, s.agent.resp).Some? then AgentWrite else AgentGivesUp;
    }
    FrameReads(peer.reqCodec, c.phase.req, s.up);
    return AgentRead;
  }

  function Pending(cs: seq<Caller>): nat
  {
    if cs == [] then 0 else |cs[0].todo| + Pending(cs[1..])
  }

  /** How many steps are left, at most. */
  function Work(s: State): nat
  {
    5 * Pending(s.callers)
    + (if !Held(s) then 0 else if Holder(s).phase.Entered? then 4 else 1)
    + (if s.agent.Replying? then 1 else if s.up != [] then 2 else 0)
    + (if s.alive then 1 else 0)
  }

  lemma {:induction false} PendingUpdate(cs: seq<Caller>, i: nat, c: Caller)
    requires i < |cs|
    ensures Pending(cs[i := c]) + |cs[i].todo| == Pending(cs) + |c.todo|
    decreases |cs|
  {
    if i == 0 {
      assert cs[0 := c][1..] == cs[1..];
    } else {
      assert cs[i := c][1..] == cs[1..][i - 1 := c];
      PendingUpdate(cs[1..], i - 1, c);
    }
  }

  /** Every step, failures too, leaves less to do. */
  lemma StepUsesWork(s: State, step: Step, peer: Peer)
    requires Sound(peer) && InStep(s, peer) && Enabled(s, step, peer)
    ensures Work(Next(s, step, peer)) < Work(s)
  {
    hide ReadFrame, FrameFor, Faithful, Pending;
    NothingToRead();
    if s.alive {
      InFlightReads(s, peer);
    }
    var t := Next(s, step, peer);
    match step
    case Enter(i) => PendingUpdate(s.callers, i, t.callers[i]);
    case AgentRead => assert s.up != [];
    case AgentWrite =>
    case AgentGivesUp =>
    case AgentFault(_) =>
    case Disconnect(_, _) =>
    case _ => PendingUpdate(s.callers, s.lock.value, t.callers[s.lock.value]);
  }

  lemma {:induction false} RunUsesWork(s: State, steps: seq<Step>, peer: Peer)
    requires Sound(peer) && InStep(s, peer) && After(s, steps, peer).Some?
    ensures var t := After(s, steps, peer).value; InStep(t, peer) && |steps| + Work(t) <= Work(s)
    decreases |steps|
  {
    hide InStep, Enabled, Next, Work;
    if steps != [] {
      InStepKept(s, steps[0], peer);
      StepUsesWork(s, steps[0], peer);
      RunUsesWork(Next(s, steps[0], peer), steps[1..], peer);
    }
  }

  /**
   Every run ends after at most five steps for each call and one more, and one that cannot go
   on but for a loss of the connection has made all calls, or a caller is stuck for good.
   */
  lemma RunsEnd(scripts: seq<seq<Request>>, a0: Appliance, steps: seq<Step>, peer: Peer)
    requires Sound(peer) && After(Start(scripts, a0), steps, peer).Some?
    ensures var s := After(Start(scripts, a0), steps, peer).value;
            && |steps| <= 5 * Pending(Start(scripts, a0).callers) + 1
            && ((forall step :: Enabled(s, step, peer) ==> step.Disconnect? || step.AgentFault?) ==> AllDone(s) || Stuck(s))
            && (Stuck(s) ==> forall step :: Enabled(s, step, peer) ==> step.Disconnect?)
  {
    hide InStep, Enabled, Next, AllDone, Stuck;
    StartInvariant(scripts, a0, peer);
    var s0 := Start(scripts, a0);
    var s := After(s0, steps, peer).value;
    RunUsesWork(s0, steps, peer);
    NothingHeld(scripts, a0);
    if Stuck(s) {
      forall step | Enabled(s, step, peer) ensures step.Disconnect? {
        StuckForGood(s, step, peer);
      }
    } else if !AllDone(s) {
      var step := NoDeadlock(s, peer);
      assert Enabled(s, step, peer);
    }
  }

  lemma NothingHeld(scripts: seq<seq<Request>>, a0: Appliance)
    ensures Work(Start(scripts, a0)) == 5 * Pending(Start(scripts, a0).callers) + 1
  {
  }

  /**
   A reply that cannot be written, one that is too large say, stops everything: its caller
   waits for good, and the other one never comes to make its call.
   */
  lemma LostReplyStops(a0: Appliance, q1: Request, q2: Request, peer: Peer) returns (steps: seq<Step>)
    requires Sound(peer) && FrameFor(peer.reqCodec, q1).Some? && FrameFor(peer.respCodec, peer.handle(a0, q1).1).None?
    ensures var s := After(Start([[q1], [q2]], a0), steps, peer);
            && s.Some? && Stuck(s.value) && s.value.callers == [Caller([], Waiting(q1), []), Caller([q2], Idle, [])]
  {
    hide ReadFrame, FrameFor, Faithful, After;
    NothingToRead();
    var f1 := FrameFor(peer.reqCodec, q1).value;
    var s0 := Start([[q1], [q2]], a0);
    var s1 := Next(s0, Enter(0), peer);
    var s2 := Next(s1, Write, peer);
    assert s2.up == f1;
    FrameReads(peer.reqCodec, q1, f1);
    var s3 := Next(s2, AgentRead, peer);
    var s4 := Next(s3, AgentGivesUp, peer);
    assert [q1][1..] == [] && s0.callers == [Caller([q1], Idle, []), Caller([q2], Idle, [])];
    assert s1.callers == [Caller([], Entered(q1), []), Caller([q2], Idle, [])];
    assert s4.callers == [Caller([], Waiting(q1), []), Caller([q2], Idle, [])];
    var t3 := [AgentGivesUp];
    var t2 := [AgentRead] + t3;
    var t1 := [Write] + t2;
    steps := [Enter(0)] + t1;
    assert t3 == [AgentGivesUp] + [];
    FirstStep(s3, AgentGivesUp, [], peer);
    FirstStep(s2, AgentRead, t3, peer);
    FirstStep(s1, Write, t2, peer);
    FirstStep(s0, Enter(0), t1, peer);
    NoStep(s4, peer);
  }

  lemma FirstStep(s: State, step: Step, rest: seq<Step>, peer: Peer)
    requires Enabled(s, step, peer)
    ensures After(s, [step] + rest, peer) == After(Next(s, step, peer), rest, peer)
  {
    assert ([step] + rest)[1..] == rest;
  }

  lemma NoStep(s: State, peer: Peer)
    ensures After(s, [], peer) == Some(s)
  {
  }

  lemma FrameNotEmpty<T>(codec: Codec<T>, v: T)
    ensures FrameFor(codec, v).Some? ==> FrameFor(codec, v).value != []
  {
  }
}
