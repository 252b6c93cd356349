/**
 The orchestration of a conversion: stages run as subprocesses around a shared listener that
 may die and be restarted, deferred cleanup, and the overlay transaction around all of it.
 Everything outside the orchestrator's control is an answer drawn from world, or a file drawn
 from docs, in order; what it does is recorded as a trace.
 */
module Pipeline {
  import opened Results
  import Overlay

  datatype Stage = Prepare | Convert | Finalize

  /** The environment of a stage: the listener it is to use, and whether it gets networking. */
  datatype StageEnv = StageEnv(listener: nat, network: bool)

  datatype Event =
    | Start(id: nat)
    | Close(id: nat)
    | Ran(stage: Stage, env: Option<StageEnv>, ok: bool)
    | Teardown(env: Option<StageEnv>)
    | Resolved(ending: Overlay.Ending)

  // ---- The pipeline file ----

  /** What the prepare section says: that the stage failed, and that roots could be chosen from. */
  datatype Section = Section(failed: bool, candidates: bool)

  /** A prepare section as a file has it: some of its fields, null, or not there at all. */
  datatype Update = Absent | Null | Fields(failed: Option<bool>, candidates: Option<bool>)

  datatype Document = Unreadable | Readable(prepare: Update)

  /** What unmarshalling over a section makes of it: what a file does not mention is kept. */
  function Unmarshalled(sec: Option<Section>, u: Update): Option<Section>
  {
    match u
    case Absent => sec
    case Null => None
    case Fields(failed, candidates) =>
      Some(Section(if failed.Some? then failed.value else sec.Some? && sec.value.failed,
                   if candidates.Some? then candidates.value else sec.Some? && sec.value.candidates))
  }

  /** The first file asks for a second try, and there is a root to choose. */
  predicate Retries(first: Document, rootChosen: bool)
  {
    first.Readable? && rootChosen && Unmarshalled(None, first.prepare) == Some(Section(true, true))
  }

  /** How the prepare stage ends, from the files it reads, when nothing else goes wrong. */
  function PrepareEnding(first: Document, second: Document, rootChosen: bool): (r: Overlay.Work)
    ensures r.Panics? <==> Retries(first, rootChosen) && second == Readable(Null)
  {
    if first.Unreadable? then Overlay.ReturnsError
    else
      var sec := Unmarshalled(None, first.prepare);
      if sec.None? then Overlay.ReturnsError
      else if !Retries(first, rootChosen) then if sec.value.failed then Overlay.ReturnsError else Overlay.Succeeds
      else if second.Unreadable? then Overlay.ReturnsError
      else
        var again := Unmarshalled(sec, second.prepare);
        if again.None? then Overlay.Panics
        else if again.value.failed then Overlay.ReturnsError
        else Overlay.Succeeds
  }

  // ---- Traces ----

  /** The listeners started and not yet closed. */
  function Open(t: seq<Event>): set<nat>
  {
    if t == [] then {}
    else
      var before, e := Open(t[..|t| - 1]), t[|t| - 1];
      After(before, e)
  }

  /** The listeners open after the event, from those open before it. */
  function After(open: set<nat>, e: Event): set<nat>
  {
    if e.Start? then open + {e.id}
    else if e.Close? then open - {e.id}
    else open
  }

  function Started(t: seq<Event>): set<nat>
  {
    set e | e in t && e.Start? :: e.id
  }

  /** The environment is that of the one open listener, or empty when there is none. */
  predicate Fits(env: Option<StageEnv>, open: set<nat>, network: bool)
  {
    match env
    case None => open == {}
    case Some(e) => open == {e.listener} && e.network == network
  }

  /** The event may follow the trace t. */
  predicate Follows(t: seq<Event>, e: Event, network: bool)
  {
    match e
    case Start(id) => id !in Started(t)
    case Close(id) => id in Open(t)
    case Ran(_, env, _) => Fits(env, Open(t), network)
    case Teardown(env) => Fits(env, Open(t), network)
    case Resolved(_) => Open(t) == {}
  }

  predicate Legal(t: seq<Event>, network: bool)
  {
    forall i :: 0 <= i < |t| ==> Follows(t[..i], t[i], network)
  }

  function Count(t: seq<Event>, e: Event): nat
  {
    if t == [] then 0 else Count(t[..|t| - 1], e) + if t[|t| - 1] == e then 1 else 0
  }

  lemma LegalInit(t: seq<Event>, e: Event, network: bool)
    requires Legal(t + [e], network)
    ensures Legal(t, network) && Follows(t, e, network)
    ensures Open(t + [e]) == After(Open(t), e)
    ensures Started(t + [e]) == Started(t) + (if e.Start? then {e.id} else {})
  {
    hide Follows;
    var u := t + [e];
    assert u[..|t|] == t;
    forall i | 0 <= i < |t| ensures Follows(t[..i], t[i], network) {
      assert u[..i] == t[..i] && u[i] == t[i];
    }
    assert Follows(u[..|t|], u[|t|], network);
  }

  /** In a legal trace a listener is started at most once, and closed once unless still open. */
  lemma {:induction false} LegalCounts(t: seq<Event>, network: bool, id: nat)
    requires Legal(t, network)
    ensures Count(t, Start(id)) == (if id in Started(t) then 1 else 0)
    ensures Count(t, Close(id)) == (if id in Started(t) && id !in Open(t) then 1 else 0)
    ensures Open(t) <= Started(t)
    decreases |t|
  {
    if t != [] {
      hide Legal, Started, Open;
      var init, e := t[..|t| - 1], t[|t| - 1];
      assert t == init + [e];
      LegalInit(init, e, network);
      LegalCounts(init, network, id);
      if e.Start? {
        LegalCounts(init, network, e.id);
      }
    }
  }

  /** When none is left open, every listener started has been closed exactly once, and no other. */
  lemma EachClosedOnce(t: seq<Event>, network: bool, id: nat)
    requires Legal(t, network) && Open(t) == {}
    ensures Count(t, Start(id)) == Count(t, Close(id)) <= 1
  {
    LegalCounts(t, network, id);
  }

  /** Whatever is resolved, every listener started before it was closed before it. */
  lemma ClosedBeforeResolved(t: seq<Event>, network: bool, id: nat, n: nat)
    requires Legal(t, network) && n < |t| && t[n].Resolved?
    ensures Count(t[..n], Start(id)) == Count(t[..n], Close(id)) <= 1
  {
    assert forall i :: 0 <= i < n ==> t[..n][..i] == t[..i];
    assert Follows(t[..n], t[n], network);
    EachClosedOnce(t[..n], network, id);
  }

  /** A listener is closed only after it was started, at any cut through a legal trace. */
  lemma ClosedAfterStarted(t: seq<Event>, network: bool, id: nat, n: nat)
    requires Legal(t, network) && n <= |t|
    ensures Count(t[..n], Close(id)) <= Count(t[..n], Start(id))
  {
    assert forall i :: 0 <= i < n ==> t[..n][..i] == t[..i];
    LegalCounts(t[..n], network, id);
  }

  /** The stages run, in order, with how they ended. */
  function StagesOf(t: seq<Event>): seq<(Stage, bool)>
  {
    if t == [] then []
    else
      var rest, e := StagesOf(t[..|t| - 1]), t[|t| - 1];
      if e.Ran? then rest + [(e.stage, e.ok)] else rest
  }

  function Teardowns(t: seq<Event>): nat
  {
    if t == [] then 0 else Teardowns(t[..|t| - 1]) + if t[|t| - 1].Teardown? then 1 else 0
  }

  lemma LegalSnoc(t: seq<Event>, e: Event, network: bool)
    requires Legal(t, network) && Follows(t, e, network)
    ensures Legal(t + [e], network)
    ensures Open(t + [e]) == After(Open(t), e)
    ensures Started(t + [e]) == Started(t) + (if e.Start? then {e.id} else {})
    ensures StagesOf(t + [e]) == StagesOf(t) + (if e.Ran? then [(e.stage, e.ok)] else [])
    ensures Teardowns(t + [e]) == Teardowns(t) + (if e.Teardown? then 1 else 0)
  {
    var u := t + [e];
    assert u[..|t|] == t;
    forall i | 0 <= i < |u| ensures Follows(u[..i], u[i], network) {
      if i < |t| {
        assert u[..i] == t[..i];
      }
    }
  }

  /** Prepare, perhaps a second time with a chosen root, then convert and finalize, all well. */
  predicate AllStagesWell(s: seq<(Stage, bool)>)
  {
    || s == [(Prepare, true), (Convert, true), (Finalize, true)]
    || s == [(Prepare, true), (Prepare, true), (Convert, true), (Finalize, true)]
  }

  // ---- The orchestrator ----

  class Orchestrator {
    const world: nat -> bool
    const docs: nat -> Document
    const shared: bool
    const network: bool
    const rootChosen: bool
    var asked: nat
    var filesRead: nat
    var nextId: nat
    var trace: seq<Event>
    var listener: Option<nat>
    var stageEnv: Option<StageEnv>

    constructor (world: nat -> bool, docs: nat -> Document, shared: bool, network: bool, rootChosen: bool)
      ensures this.world == world && this.docs == docs
      ensures this.shared == shared && this.network == network && this.rootChosen == rootChosen
      ensures trace == [] && listener == None && stageEnv == None && nextId == filesRead == 0 && Valid()
    {
      this.world, this.docs, this.shared, this.network, this.rootChosen := world, docs, shared, network, rootChosen;
      asked, filesRead, nextId, trace, listener, stageEnv := 0, 0, 0, [], None, None;
    }

    /** Commands work and listeners stay alive. */
    ghost predicate Smooth()
    {
      forall k: nat :: world(k)
    }

    /** The trace so far is legal and no identifier in it is to be given out again. */
    predicate Sound()
      reads `trace, `nextId
    {
      Legal(trace, network) && forall id <- Started(trace) :: id < nextId
    }

    /** The listener held is the one open, and the stages are told of it. */
    predicate Valid()
      reads `trace, `nextId, `listener, `stageEnv
    {
      && Sound()
      && Open(trace) == (if listener.Some? then {listener.value} else {})
      && stageEnv == (if listener.Some? then Some(StageEnv(listener.value, network)) else None)
    }

    method Ask() returns (yes: bool)
      modifies this`asked
      ensures Smooth() ==> yes
    {
      yes := world(asked);
      asked := asked + 1;
    }

    /** readJSON of the pipeline file. */
    method ReadPipeline() returns (d: Document)
      modifies this`filesRead
      ensures d == docs(old(filesRead)) && filesRead == old(filesRead) + 1
    {
      d := docs(filesRead);
      filesRead := filesRead + 1;
    }

    method Record(e: Event)
      requires Sound() && Follows(trace, e, network) && (e.Start? ==> e.id < nextId)
      modifies this`trace
      ensures Sound() && trace == old(trace) + [e]
      ensures Open(trace) == After(Open(old(trace)), e)
      ensures StagesOf(trace) == StagesOf(old(trace)) + (if e.Ran? then [(e.stage, e.ok)] else [])
      ensures Teardowns(trace) == Teardowns(old(trace)) + (if e.Teardown? then 1 else 0)
    {
      hide Legal, Started, Open, StagesOf, Teardowns, Follows;
      LegalSnoc(trace, e, network);
      trace := trace + [e];
    }

    /** Starts a listener, if that works, and leaves it to the caller to take it over. */
    method StartSharedListener() returns (id: Option<nat>)
      requires Sound()
      modifies this`asked, this`nextId, this`trace
      ensures Sound()
      ensures id == None ==> trace == old(trace)
      ensures Smooth() ==> id.Some?
      ensures id.Some? ==>
                && id.value == old(nextId) && trace == old(trace) + [Start(id.value)] && id.value !in Open(old(trace))
                && Open(trace) == Open(old(trace)) + {id.value}
      ensures StagesOf(trace) == StagesOf(old(trace)) && Teardowns(trace) == Teardowns(old(trace))
    {
      hide Legal, Started, Open, StagesOf, Teardowns;
      var ok := Ask();
      if !ok {
        return None;
      }
      id := Some(nextId);
      LegalCounts(trace, network, nextId);
      nextId := nextId + 1;
      Record(Start(id.value));
    }

    method SetupSharedListener() returns (ok: bool)
      requires Valid() && listener == None
      modifies this
      ensures Valid() && Grown(old(trace), trace)
      ensures !ok ==> trace == old(trace) && listener == None
      ensures ok ==> (listener.Some? <==> shared)
      ensures filesRead == old(filesRead)
      ensures Smooth() ==>
                && ok && listener == (if shared then Some(old(nextId)) else None)
                && trace == old(trace) + (if shared then [Start(old(nextId))] else [])
    {
      hide Legal, Started, Open, StagesOf, Teardowns;
      if !shared {
        return true;
      }
      if network {
        ok := Ask();
        if !ok {
          return;
        }
      }
      var id := StartSharedListener();
      if id.None? {
        return false;
      }
      listener := id;
      stageEnv := Some(StageEnv(id.value, network));
      return true;
    }

    /** Restarts a listener that died, closing the dead one only once the new one runs. */
    method EnsureSharedListener() returns (ok: bool)
      requires Valid()
      modifies this
      ensures Valid() && Grown(old(trace), trace)
      ensures listener.Some? <==> old(listener).Some?
      ensures || (trace == old(trace) && listener == old(listener))
              || (listener.Some? && trace == old(trace) + [Start(listener.value)] + [Close(old(listener).value)])
      ensures filesRead == old(filesRead)
      ensures Smooth() ==> ok && trace == old(trace) && listener == old(listener)
    {
      hide Legal, Started, Open, StagesOf, Teardowns;
      if listener.None? {
        return true;
      }
      var alive := Ask();
      if alive {
        return true;
      }
      var keepNetwork := stageEnv.Some? && stageEnv.value.network;
      var id := StartSharedListener();
      if id.None? {
        return false;
      }
      Record(Close(listener.value));
      listener := id;
      stageEnv := Some(StageEnv(id.value, keepNetwork));
      return true;
    }

    method RunStage(stage: Stage) returns (ok: bool)
      requires Valid()
      modifies this`asked, this`trace
      ensures Valid() && trace == old(trace) + [Ran(stage, stageEnv, ok)]
      ensures Smooth() ==> ok
      ensures StagesOf(trace) == StagesOf(old(trace)) + [(stage, ok)] && Teardowns(trace) == Teardowns(old(trace))
    {
      hide Legal, Started, Open, StagesOf, Teardowns;
      ok := Ask();
      Record(Ran(stage, stageEnv, ok));
    }

    /** One try at the prepare stage, and the file it leaves; Unreadable stands for any error. */
    method TryPrepare() returns (d: Document)
      requires Valid()
      modifies this
      ensures Valid() && old(trace) <= trace && Teardowns(trace) == Teardowns(old(trace))
      ensures listener.Some? <==> old(listener).Some?
      ensures exists b :: StagesOf(trace) == StagesOf(old(trace)) + [(Prepare, b)]
      ensures d.Readable? ==>
                && d == docs(old(filesRead)) && filesRead == old(filesRead) + 1
                && StagesOf(trace) == StagesOf(old(trace)) + [(Prepare, true)]
      ensures Smooth() ==>
                && d == docs(old(filesRead)) && filesRead == old(filesRead) + 1 && listener == old(listener)
                && trace == old(trace) + [Ran(Prepare, old(stageEnv), true)]
    {
      hide Legal, Started, Open, StagesOf, Teardowns, Orchestrator.Sound;
      var ok := RunStage(Prepare);
      if !ok { return Unreadable; }
      ok := EnsureSharedListener();
      if !ok { return Unreadable; }
      d := ReadPipeline();
    }

    /** The prepare stage with its second try; what that leaves in the file is used without another look. */
    method RunPrepareStage() returns (r: Overlay.Work)
      requires Valid()
      modifies this
      ensures Valid() && old(trace) <= trace && Teardowns(trace) == Teardowns(old(trace))
      ensures |StagesOf(trace)| > |StagesOf(old(trace))|
      ensures listener.Some? <==> old(listener).Some?
      ensures || (exists b :: StagesOf(trace) == StagesOf(old(trace)) + [(Prepare, b)])
              || (exists b :: StagesOf(trace) == StagesOf(old(trace)) + [(Prepare, true)] + [(Prepare, b)])
      ensures r.Succeeds? ==>
                || StagesOf(trace) == StagesOf(old(trace)) + [(Prepare, true)]
                || StagesOf(trace) == StagesOf(old(trace)) + [(Prepare, true)] + [(Prepare, true)]
      ensures r.Panics? ==> StagesOf(trace) == StagesOf(old(trace)) + [(Prepare, true)] + [(Prepare, true)]
      ensures r.ReturnsError? || r == PrepareEnding(docs(old(filesRead)), docs(old(filesRead) + 1), rootChosen)
      ensures Smooth() ==>
                && r == PrepareEnding(docs(old(filesRead)), docs(old(filesRead) + 1), rootChosen) && listener == old(listener)
                && trace == old(trace) + [Ran(Prepare, old(stageEnv), true)]
                            + (if Retries(docs(old(filesRead)), rootChosen) then [Ran(Prepare, old(stageEnv), true)] else [])
    {
      hide Legal, Started, Open, StagesOf, Teardowns, Orchestrator.Sound;
      var d := TryPrepare();
      if d.Unreadable? { return Overlay.ReturnsError; }
      var sec := Unmarshalled(None, d.prepare);
      if sec.None? { return Overlay.ReturnsError; }
      if sec.value.failed && sec.value.candidates && rootChosen {
        var ok := Ask();                 // the changed input can be written
        if !ok { return Overlay.ReturnsError; }
        d := TryPrepare();
        if d.Unreadable? { return Overlay.ReturnsError; }
        sec := Unmarshalled(sec, d.prepare);
      }
      if sec.None? { return Overlay.Panics; }
      return if sec.value.failed then Overlay.ReturnsError else Overlay.Succeeds;
    }

    method RunConvertStage() returns (ok: bool)
      requires Valid()
      modifies this
      ensures Valid() && old(trace) <= trace && Teardowns(trace) == Teardowns(old(trace))
      ensures |StagesOf(trace)| > |StagesOf(old(trace))|
      ensures listener.Some? <==> old(listener).Some?
      ensures exists b :: StagesOf(trace) == StagesOf(old(trace)) + [(Convert, b)]
      ensures ok ==> StagesOf(trace) == StagesOf(old(trace)) + [(Convert, true)]
    {
      hide Legal, Started, Open, StagesOf, Teardowns, Orchestrator.Valid;
      ok := RunStage(Convert);
      if !ok { return; }
      ok := EnsureSharedListener();
    }

    method RunFinalizeStage() returns (ok: bool)
      requires Valid()
      modifies this
      ensures Valid() && old(trace) <= trace && Teardowns(trace) == Teardowns(old(trace))
      ensures |StagesOf(trace)| > |StagesOf(old(trace))|
      ensures listener.Some? <==> old(listener).Some?
      ensures exists b :: StagesOf(trace) == StagesOf(old(trace)) + [(Finalize, b)]
      ensures ok ==> StagesOf(trace) == StagesOf(old(trace)) + [(Finalize, true)]
    {
      hide Legal, Started, Open, StagesOf, Teardowns, Orchestrator.Valid;
      ok := RunStage(Finalize);
      if !ok { return; }
      var d := ReadPipeline();
      ok := d.Readable?;
    }

    /** The three stages, stopping at the first that does not succeed. */
    method RunStages() returns (r: Overlay.Work)
      requires Valid()
      modifies this
      ensures Valid() && old(trace) <= trace && Teardowns(trace) == Teardowns(old(trace))
      ensures |StagesOf(trace)| > |StagesOf(old(trace))|
      ensures listener.Some? <==> old(listener).Some?
      ensures r.Succeeds? ==> Well(old(trace), trace)
      ensures r.Panics? ==>
                && StagesOf(trace) == StagesOf(old(trace)) + [(Prepare, true)] + [(Prepare, true)]
                && PrepareEnding(docs(old(filesRead)), docs(old(filesRead) + 1), rootChosen).Panics?
      ensures Smooth() && PrepareEnding(docs(old(filesRead)), docs(old(filesRead) + 1), rootChosen).Panics? ==>
                && r.Panics? && listener == old(listener)
                && trace == old(trace) + [Ran(Prepare, old(stageEnv), true)] + [Ran(Prepare, old(stageEnv), true)]
    {
      hide Legal, Started, Open, StagesOf, Teardowns, Orchestrator.Valid;
      ghost var s := StagesOf(trace);
      r := RunPrepareStage();
      if !r.Succeeds? { return; }
      var ok := RunConvertStage();
      if !ok { return Overlay.ReturnsError; }
      ok := RunFinalizeStage();
      if !ok { return Overlay.ReturnsError; }
      ghost var once := [(Prepare, true), (Convert, true), (Finalize, true)];
      ghost var twice := [(Prepare, true), (Prepare, true), (Convert, true), (Finalize, true)];
      assert AllStagesWell(once) && AllStagesWell(twice);
      assert StagesOf(trace) == s + once || StagesOf(trace) == s + twice;
    }

    /**
     runPipelineOnceBody with its deferred calls: after the listener is set up, the stages run;
     if one fails the guest is torn down once, but not after a panic, when no error was noted;
     then, in any case, the listener is closed.
     */
    method RunPipelineOnceBody() returns (r: Overlay.Work)
      requires Valid() && listener == None
      modifies this
      ensures Valid() && listener == None && old(trace) <= trace
      ensures r.Succeeds? ==> Well(old(trace), trace)
      ensures r.ReturnsError? ==> trace == old(trace) || TornDown(old(trace), trace)
      ensures !r.ReturnsError? ==> Teardowns(trace) == Teardowns(old(trace))
      ensures r.Panics? ==>
                && StagesOf(trace) == StagesOf(old(trace)) + [(Prepare, true)] + [(Prepare, true)]
                && PrepareEnding(docs(old(filesRead)), docs(old(filesRead) + 1), rootChosen).Panics?
      ensures Smooth() && PrepareEnding(docs(old(filesRead)), docs(old(filesRead) + 1), rootChosen).Panics? ==>
                var env := if shared then Some(StageEnv(old(nextId), network)) else None;
                && r.Panics?
                && trace == old(trace) + (if shared then [Start(old(nextId))] else [])
                            + [Ran(Prepare, env, true)] + [Ran(Prepare, env, true)]
                            + (if shared then [Close(old(nextId))] else [])
    {
      hide Legal, Started, Open, StagesOf, Teardowns;
      var ok := SetupSharedListener();
      if !ok { return Overlay.ReturnsError; }
      r := RunStages();
      if r.ReturnsError? {
        // deferred: best-effort guest cleanup
        Record(Teardown(stageEnv));
      }
      // deferred: close the shared listener
      if listener.Some? {
        Record(Close(listener.value));
        listener, stageEnv := None, None;
      }
    }

    /** Reading the source metadata and writing the input can fail before anything is set up. */
    method RunPipelineOnce() returns (r: Overlay.Work)
      requires Valid() && listener == None
      modifies this
      ensures Valid() && listener == None && old(trace) <= trace
      ensures r.Succeeds? ==> Well(old(trace), trace)
      ensures r.ReturnsError? ==> trace == old(trace) || TornDown(old(trace), trace)
      ensures !r.ReturnsError? ==> Teardowns(trace) == Teardowns(old(trace))
      ensures r.Panics? ==> PrepareEnding(docs(old(filesRead)), docs(old(filesRead) + 1), rootChosen).Panics?
    {
      hide Legal, Started, Open, StagesOf, Teardowns;
      var ok := Ask();
      if !ok { return Overlay.ReturnsError; }
      ok := Ask();
      if !ok { return Overlay.ReturnsError; }
      ok := Ask();
      if !ok { return Overlay.ReturnsError; }
      r := RunPipelineOnceBody();
    }

    /**
     runPipeline. With overlays, the writes ws of the stages go to the overlays, and how the
     transaction ended is the last thing recorded, when no listener is open any more.
     */
    method RunPipeline(overlay: bool, store: Overlay.ImageStore, workdir: string, disks: seq<Overlay.Disk>,
                       ws: seq<Overlay.GuestWrite>, ghost l: Overlay.Layout)
      returns (r: Overlay.Work)
      requires Valid() && trace == []
      requires l.Valid() && l.workdir == workdir && Overlay.Matches([], disks, l)
      requires forall i :: 0 <= i < |disks| ==> Overlay.OnBacking(disks[i], l, i) && disks[i].backingPath in {"", l.backings[i]}
      modifies this, store, disks
      ensures Legal(trace, network) && Open(trace) == {}
      ensures r.Panics? ==> PrepareEnding(docs(old(filesRead)), docs(old(filesRead) + 1), rootChosen).Panics?
      ensures overlay ==>
                && trace != [] && trace[|trace| - 1].Resolved?
                && var e := trace[|trace| - 1].ending;
                && (r.Succeeds? <==> e.Committed?) && (r.Panics? <==> e.WorkPanicked?)
                && Overlay.Cleared(store.files, old(store.files), l, store.stuck)
                && Overlay.BackingsAfter(e, store.files, old(store.files), l, ws)
                && (e.Committed? || e.CommitFailed? ==> Well([], trace) && Teardowns(trace) == 0)
                && (e.WorkFailed? ==> Failed(trace[..|trace| - 1]))
                && (e.WorkPanicked? ==> Teardowns(trace) == 0)
      ensures overlay ==> forall i :: 0 <= i < |disks| ==> Overlay.OnBacking(disks[i], l, i)
      ensures !overlay ==>
                && store.files == old(store.files)
                && (r.Succeeds? ==> Well([], trace) && Teardowns(trace) == 0)
                && (r.ReturnsError? ==> Failed(trace)) && (r.Panics? ==> Teardowns(trace) == 0)
    {
      hide Legal, Started, Open, StagesOf, Teardowns, Overlay.WithOverlays, Overlay.Cleared, Overlay.BackingsAfter, Overlay.OverlayPath,
           Overlay.Layout.Valid, Overlay.Layout.PathOf;
      NothingYet();
      if !overlay {
        r := RunPipelineOnce();
        return;
      }
      ghost var before := store.files;
      var os, created := Overlay.CreateOverlays(store, workdir, disks, l);
      var ending := Overlay.CreateFailed;
      if created {
        r := RunPipelineOnce();
        Overlay.RunWrites(store, disks, ws, before, l);
        ending := Overlay.FinishTransaction(store, os, r, disks, before, ws, l);
      } else {
        CreationLeaves(store.files, before, l, ws);
      }
      Record(Resolved(ending));
      r := if ending.Committed? then Overlay.Succeeds else if ending.WorkPanicked? then Overlay.Panics else Overlay.ReturnsError;
    }
  }

  /**
   A run that panics: prepare fails and names roots, it is tried again with the root chosen,
   and then the file says null where its section should be. Nothing is torn down.
   */
  method PanicRun() returns (o: Orchestrator, r: Overlay.Work)
    ensures fresh(o) && r.Panics? && Teardowns(o.trace) == 0
    ensures var ran := Ran(Prepare, Some(StageEnv(0, false)), true);
            o.trace == [Start(0), ran, ran, Close(0)]
  {
    hide Legal, Started, Open, StagesOf, Teardowns;
    NothingYet();
    o := new Orchestrator(_ => true, n => Readable(if n == 0 then Fields(Some(true), Some(true)) else Null), true, false, true);
    r := o.RunPipelineOnceBody();
  }

  lemma CreationLeaves(now: Overlay.Files, before: Overlay.Files, l: Overlay.Layout, ws: seq<Overlay.GuestWrite>)
    requires Overlay.Untouched(now, before, l, 0, |l.backings|)
    ensures Overlay.BackingsAfter(Overlay.CreateFailed, now, before, l, ws)
  {
    hide Overlay.OverlayPath;
  }

  lemma NothingYet()
    ensures StagesOf([]) == [] && Teardowns([]) == 0 && Open([]) == {}
  {
  }

  /** The trace grew, but not by a stage or a teardown. */
  predicate Grown(before: seq<Event>, after: seq<Event>)
  {
    before <= after && StagesOf(after) == StagesOf(before) && Teardowns(after) == Teardowns(before)
  }

  /** The stages run since before are all there are, in order and each ending well. */
  ghost predicate Well(before: seq<Event>, after: seq<Event>)
  {
    exists s :: AllStagesWell(s) && StagesOf(after) == StagesOf(before) + s
  }

  /** The trace grew by a run that failed: a stage ran, then one teardown, and after it at most the close. */
  predicate TornDown(before: seq<Event>, after: seq<Event>)
  {
    && before <= after && |after| > |before|
    && |StagesOf(after)| > |StagesOf(before)|
    && Teardowns(after) == Teardowns(before) + 1
    && (|| after[|after| - 1].Teardown?
        || (after[|after| - 1].Close? && |after| > |before| + 1 && after[|after| - 2].Teardown?))
  }

  /** A whole failed run: nothing was set up, or it was and has been torn down. */
  predicate Failed(t: seq<Event>)
  {
    t == [] || TornDown([], t)
  }
}
