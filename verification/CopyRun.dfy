/**
 The concurrent disk copy: one goroutine per disk, a semaphore, cancellation on the first
 error, a mutex around the progress list and a lease resolved at the end. Every statement
 that another goroutine can observe is one step, so a run is any interleaving of the steps.
 */
module CopyRun {
  import opened Results

  const DEFAULT_CONCURRENCY: int := 4

  type Source(==, !new) = string
  type Error(==, !new) = string

  datatype Target = InDir(dir: string, index: int) | Found(path: string, block: bool, index: int)

  /** What the target of a disk holds. */
  datatype Content = Untouched | Partial | Holds(source: Source)

  datatype Outcome = Succeeded | Errored(error: Error) | Skipped

  /** Where a worker is. Everything from Admitted to Leaving happens with a semaphore slot held. */
  datatype Phase =
    | Unborn
    | Waiting
    | Admitted
    | Copying
    | Failing(error: Error)
    | Cancelling(error: Error)
    | Copied
    | Recording
    | Recorded
    | Leaving(outcome: Outcome)
    | Exiting(outcome: Outcome)
    | Gone(outcome: Outcome)

  datatype Main = Spawning(next: nat) | Joining | Returned(error: Option<Error>)

  /** The state of the sync.Once around the first error. */
  datatype Once = Unused | Busy(who: nat) | Done(who: nat)

  datatype LeaseCall = Complete | Abort

  datatype Config = Config(targets: seq<Target>, selected: seq<Source>, concurrency: nat) {
    predicate Valid() {
      |targets| == |selected| && concurrency >= 1
    }
  }

  datatype State = State(
    main: Main,
    workers: seq<Phase>,
    slots: nat,
    cancelled: bool,
    once: Once,
    firstErr: Option<Error>,
    lock: Option<nat>,
    progress: seq<nat>,
    contents: seq<Content>,
    lease: seq<LeaseCall>)

  // ---- Before the workers start ----

  function ClampConcurrency(n: int, disks: int): (c: int)
    ensures c >= 1
    ensures disks >= 1 ==> c <= disks
    ensures disks >= 1 && n > 0 && c != n ==> c == disks < n
  {
    var n := if n <= 0 then DEFAULT_CONCURRENCY else n;
    if disks < 1 then 1 else if n > disks then disks else n
  }

  /** What Run finds out between taking the lease and starting the copies. */
  datatype Input = Input(
    selected: Result<seq<Source>, Error>,
    targetDir: Option<string>,
    mkdir: Option<Error>,
    discovered: seq<Target>,
    concurrency: int)

  function Plan(i: Input): (r: Result<Config, Error>)
    ensures r.Success? ==> r.value.Valid()
  {
    match i.selected
    case Failure(e) => Failure("filter NFC disks: " + e)
    case Success(selected) =>
      match i.targetDir
      case Some(dir) =>
        if |selected| == 0 then Failure("no disks in NFC lease")
        else if i.mkdir.Some? then Failure("create target_dir: " + i.mkdir.value)
        else
          var targets := seq(|selected|, (k: nat) => InDir(dir, k));
          Success(Config(targets, selected, ClampConcurrency(i.concurrency, |targets|)))
      case None =>
        if |selected| != |i.discovered| then Failure("disk count mismatch")
        else Success(Config(i.discovered, selected, ClampConcurrency(i.concurrency, |i.discovered|)))
  }

  function NextMain(next: nat, total: nat): Main
  {
    if next < total then Spawning(next) else Joining
  }

  /** The state right after the lease is taken and the plan made: a bad plan aborts at once. */
  function Init(i: Input): State
  {
    match Plan(i)
    case Failure(e) => State(Returned(Some(e)), [], 0, false, Unused, None, None, [], [], [Abort])
    case Success(cfg) =>
      var n := |cfg.targets|;
      State(NextMain(0, n), seq(n, _ => Unborn), 0, false, Unused, None, None, [], seq(n, _ => Untouched), [])
  }

  // ---- Steps ----

  /** One step. Worker steps name the worker. CopyDisk may end either way. */
  datatype Event =
    | Spawn
    | GiveUp(i: nat)
    | Acquire(i: nat)
    | LookAtContext(i: nat)
    | CopyOk(i: nat)
    | CopyFails(i: nat, error: Error)
    | WinOnce(i: nat)
    | Cancel(i: nat)
    | LoseOnce(i: nat)
    | Lock(i: nat)
    | Record(i: nat)
    | Unlock(i: nat)
    | Release(i: nat)
    | WaitGroupDone(i: nat)
    | Resolve

  function Move(s: State, i: nat, p: Phase): State
    requires i < |s.workers|
  {
    s.(workers := s.workers[i := p])
  }

  predicate AllGone(workers: seq<Phase>)
  {
    forall i :: 0 <= i < |workers| ==> workers[i].Gone?
  }

  /** The state after the event, if the event can happen in s. */
  function Step(cfg: Config, s: State, e: Event): Option<State>
  {
    match e
    case Spawn =>
      if s.main.Spawning? && s.main.next < |s.workers| then
        Some(Move(s, s.main.next, Waiting).(main := NextMain(s.main.next + 1, |s.workers|)))
      else None
    case Resolve =>
      if s.main.Joining? && AllGone(s.workers) then
        Some(s.(main := Returned(s.firstErr), lease := s.lease + [if s.firstErr.Some? then Abort else Complete]))
      else None
    case _ =>
      if e.i < |s.workers| && e.i < |s.contents| && e.i < |cfg.selected| then WorkerStep(cfg, s, e, e.i, s.workers[e.i]) else None
  }

  function WorkerStep(cfg: Config, s: State, e: Event, i: nat, p: Phase): Option<State>
    requires !e.Spawn? && !e.Resolve?
    requires i < |s.workers| && i < |s.contents| && i < |cfg.selected|
  {
    match e
    case GiveUp(_) =>
      if p.Waiting? && s.cancelled then Some(Move(s, i, Exiting(Skipped))) else None
    case Acquire(_) =>
      if p.Waiting? && s.slots < cfg.concurrency then Some(Move(s, i, Admitted).(slots := s.slots + 1)) else None
    case LookAtContext(_) =>
      if p.Admitted? then Some(Move(s, i, if s.cancelled then Leaving(Skipped) else Copying)) else None
    case CopyOk(_) =>
      if p.Copying? then Some(Move(s, i, Copied).(contents := s.contents[i := Holds(cfg.selected[i])])) else None
    case CopyFails(_, error) =>
      if p.Copying? then Some(Move(s, i, Failing(error)).(contents := s.contents[i := Partial])) else None
    case WinOnce(_) =>
      if p.Failing? && s.once.Unused? then
        Some(Move(s, i, Cancelling(p.error)).(once := Busy(i), firstErr := Some(p.error)))
      else None
    case Cancel(_) =>
      if p.Cancelling? then Some(Move(s, i, Leaving(Errored(p.error))).(once := Done(i), cancelled := true)) else None
    case LoseOnce(_) =>
      if p.Failing? && s.once.Done? then Some(Move(s, i, Leaving(Errored(p.error)))) else None
    case Lock(_) =>
      if p.Copied? && s.lock.None? then Some(Move(s, i, Recording).(lock := Some(i))) else None
    case Record(_) =>
      if p.Recording? then Some(Move(s, i, Recorded).(progress := s.progress + [i])) else None
    case Unlock(_) =>
      if p.Recorded? then Some(Move(s, i, Leaving(Succeeded)).(lock := None)) else None
    case Release(_) =>
      if p.Leaving? && s.slots > 0 then Some(Move(s, i, Exiting(p.outcome)).(slots := s.slots - 1)) else None
    case WaitGroupDone(_) =>
      if p.Exiting? then Some(Move(s, i, Gone(p.outcome))) else None
  }

  /** The state a run reaches: the events must be possible one after the other. */
  function RunFrom(cfg: Config, s: State, es: seq<Event>): Option<State>
    decreases |es|
  {
    if es == [] then Some(s)
    else match Step(cfg, s, es[0])
      case None => None
      case Some(t) => RunFrom(cfg, t, es[1..])
  }

  // ---- Counting workers ----

  function Total(ws: seq<Phase>, f: Phase -> nat): nat
  {
    if ws == [] then 0 else f(ws[0]) + Total(ws[1..], f)
  }

  lemma {:induction false} TotalUpdate(ws: seq<Phase>, f: Phase -> nat, i: nat, p: Phase)
    requires i < |ws|
    ensures Total(ws[i := p], f) + f(ws[i]) == Total(ws, f) + f(p)
    decreases |ws|
  {
    if i > 0 {
      assert ws[i := p][1..] == ws[1..][i - 1 := p];
      TotalUpdate(ws[1..], f, i - 1, p);
    } else {
      assert ws[i := p][1..] == ws[1..];
    }
  }

  lemma {:induction false} TotalPositive(ws: seq<Phase>, f: Phase -> nat) returns (i: nat)
    requires Total(ws, f) > 0
    ensures i < |ws| && f(ws[i]) > 0
    decreases |ws|
  {
    if f(ws[0]) > 0 {
      i := 0;
    } else {
      var j := TotalPositive(ws[1..], f);
      i := j + 1;
    }
  }

  lemma {:induction false} TotalZeros(ws: seq<Phase>, f: Phase -> nat, c: nat)
    requires forall i :: 0 <= i < |ws| ==> f(ws[i]) == c
    ensures Total(ws, f) == c * |ws|
    decreases |ws|
  {
    if ws != [] {
      TotalZeros(ws[1..], f, c);
    }
  }

  /** Whether a worker holds a semaphore slot. */
  function SlotsOf(p: Phase): nat
  {
    if p.Unborn? || p.Waiting? || p.Exiting? || p.Gone? then 0 else 1
  }

  /** Whether a worker is inside CopyDisk. */
  function CopyingOf(p: Phase): nat
  {
    if p.Copying? then 1 else 0
  }

  /** How many steps a worker can still take. */
  function StepsLeft(p: Phase): nat
  {
    match p
    case Unborn => 10
    case Waiting => 9
    case Admitted => 8
    case Copying => 7
    case Failing(_) => 4
    case Cancelling(_) => 3
    case Copied => 6
    case Recording => 5
    case Recorded => 4
    case Leaving(_) => 2
    case Exiting(_) => 1
    case Gone(_) => 0
  }

  // ---- The invariant ----

  /** The copy of this disk has succeeded. */
  predicate Good(p: Phase)
  {
    p.Copied? || p.Recording? || p.Recorded? || (Ended(p) && p.outcome.Succeeded?)
  }

  predicate Ended(p: Phase)
  {
    p.Leaving? || p.Exiting? || p.Gone?
  }

  /** The disk is in the progress list. */
  predicate Listed(p: Phase)
  {
    p.Recorded? || (Ended(p) && p.outcome.Succeeded?)
  }

  predicate Distinct(s: seq<nat>)
  {
    forall i, j :: 0 <= i < j < |s| ==> s[i] != s[j]
  }

  predicate Shape(cfg: Config, s: State)
  {
    && cfg.Valid()
    && |s.workers| == |s.contents| == |cfg.selected|
    && (s.main.Spawning? ==> s.main.next < |s.workers|)
    && (forall i :: 0 <= i < |s.workers| ==> (s.workers[i].Unborn? <==> s.main.Spawning? && s.main.next <= i))
    && (s.main.Returned? ==> AllGone(s.workers))
  }

  predicate OnceInv(s: State)
  {
    && (s.once.Unused? ==> s.firstErr.None?)
    && (s.once.Unused? || s.once.Busy? <==> !s.cancelled)
    && (s.once.Busy? ==> s.once.who < |s.workers| && s.workers[s.once.who].Cancelling?
                         && s.firstErr == Some(s.workers[s.once.who].error))
    && (s.once.Done? ==> s.once.who < |s.workers| && Ended(s.workers[s.once.who]) && s.workers[s.once.who].outcome.Errored?
                         && s.firstErr == Some(s.workers[s.once.who].outcome.error))
    && (forall i :: 0 <= i < |s.workers| && s.workers[i].Cancelling? ==> s.once == Busy(i))
    && (forall i :: 0 <= i < |s.workers| && Ended(s.workers[i]) && !s.workers[i].outcome.Succeeded? ==> s.once.Done?)
  }

  predicate LockInv(s: State)
  {
    && (s.lock.Some? ==> s.lock.value < |s.workers|)
    && forall i :: 0 <= i < |s.workers| ==> (s.workers[i].Recording? || s.workers[i].Recorded? <==> s.lock == Some(i))
  }

  predicate ProgressInv(s: State)
  {
    && Distinct(s.progress)
    && (forall i <- s.progress :: i < |s.workers|)
    && (forall i :: 0 <= i < |s.workers| ==> (i in s.progress <==> Listed(s.workers[i])))
  }

  predicate ContentInv(cfg: Config, s: State)
  {
    && |s.workers| == |s.contents| == |cfg.selected|
    && (forall i :: 0 <= i < |s.workers| && Good(s.workers[i]) ==> s.contents[i] == Holds(cfg.selected[i]))
  }

  predicate SlotInv(cfg: Config, s: State)
  {
    s.slots == Total(s.workers, SlotsOf) && s.slots <= cfg.concurrency
  }

  predicate LeaseInv(s: State)
  {
    if s.main.Returned? then
      s.main.error == s.firstErr && s.lease == [if s.firstErr.Some? then Abort else Complete]
    else s.lease == []
  }

  predicate Inv(cfg: Config, s: State)
  {
    Shape(cfg, s) && OnceInv(s) && LockInv(s) && ProgressInv(s) && ContentInv(cfg, s) && SlotInv(cfg, s) && LeaseInv(s)
  }

  lemma StepKeepsShape(cfg: Config, s: State, e: Event)
    requires Inv(cfg, s) && Step(cfg, s, e).Some?
    ensures Shape(cfg, Step(cfg, s, e).value)
  {
    hide OnceInv, LockInv, ProgressInv, ContentInv, SlotInv, LeaseInv;
  }

  /** A worker that neither takes nor gives back the once leaves its invariant alone. */
  lemma OnceUndisturbed(s: State, t: State, i: nat, p: Phase)
    requires OnceInv(s) && i < |s.workers| && t.workers == s.workers[i := p]
    requires t.once == s.once && t.firstErr == s.firstErr && t.cancelled == s.cancelled
    requires !s.workers[i].Cancelling? && !p.Cancelling?
    requires Ended(s.workers[i]) ==> Ended(p) && p.outcome == s.workers[i].outcome
    requires Ended(p) && !p.outcome.Succeeded? ==> s.once.Done?
    ensures OnceInv(t)
  {
  }

  lemma OnceTaken(cfg: Config, s: State, e: Event)
    requires Inv(cfg, s) && Step(cfg, s, e).Some? && (e.WinOnce? || e.Cancel?)
    ensures OnceInv(Step(cfg, s, e).value)
  {
    hide LockInv, ProgressInv, ContentInv, SlotInv, LeaseInv, Shape;
  }

  lemma CancelledMeansDone(s: State)
    requires OnceInv(s)
    ensures s.cancelled ==> s.once.Done?
    ensures forall i :: 0 <= i < |s.workers| && Ended(s.workers[i]) && !s.workers[i].outcome.Succeeded? ==> s.once.Done?
  {
  }

  lemma StepKeepsOnce(cfg: Config, s: State, e: Event)
    requires Inv(cfg, s) && Step(cfg, s, e).Some?
    ensures OnceInv(Step(cfg, s, e).value)
  {
    hide OnceInv, LockInv, ProgressInv, ContentInv, SlotInv, LeaseInv;
    var t := Step(cfg, s, e).value;
    CancelledMeansDone(s);
    if e.Resolve? {
      OnceSame(s, t);
    } else if e.Spawn? {
      OnceUndisturbed(s, t, s.main.next, Waiting);
    } else if e.WinOnce? || e.Cancel? {
      OnceTaken(cfg, s, e);
    } else {
      OnceUndisturbed(s, t, e.i, t.workers[e.i]);
    }
  }

  lemma OnceSame(s: State, t: State)
    requires OnceInv(s) && t.workers == s.workers && t.once == s.once && t.firstErr == s.firstErr && t.cancelled == s.cancelled
    ensures OnceInv(t)
  {
  }

  lemma StepKeepsLock(cfg: Config, s: State, e: Event)
    requires Inv(cfg, s) && Step(cfg, s, e).Some?
    ensures LockInv(Step(cfg, s, e).value)
  {
    hide OnceInv, ProgressInv, ContentInv, SlotInv, LeaseInv;
  }

  /** A worker's step that leaves it listed or not, as it was, leaves the list right. */
  lemma ProgressUndisturbed(s: State, t: State, i: nat, p: Phase)
    requires ProgressInv(s) && i < |s.workers| && t.workers == s.workers[i := p] && t.progress == s.progress
    requires Listed(p) <==> Listed(s.workers[i])
    ensures ProgressInv(t)
  {
    hide Distinct, Listed;
  }

  lemma ProgressRecorded(s: State, t: State, i: nat, p: Phase)
    requires ProgressInv(s) && i < |s.workers| && t.workers == s.workers[i := p] && t.progress == s.progress + [i]
    requires Listed(p) && !Listed(s.workers[i])
    ensures ProgressInv(t)
  {
    hide Listed;
  }

  lemma StepKeepsProgress(cfg: Config, s: State, e: Event)
    requires Inv(cfg, s) && Step(cfg, s, e).Some?
    ensures ProgressInv(Step(cfg, s, e).value)
  {
    hide OnceInv, LockInv, ProgressInv, ContentInv, SlotInv, LeaseInv;
    var t := Step(cfg, s, e).value;
    if e.Resolve? {
      ProgressSame(s, t);
    } else if e.Spawn? {
      ProgressUndisturbed(s, t, s.main.next, Waiting);
    } else if e.Record? {
      ProgressRecorded(s, t, e.i, t.workers[e.i]);
    } else {
      ProgressUndisturbed(s, t, e.i, t.workers[e.i]);
    }
  }

  lemma ProgressSame(s: State, t: State)
    requires ProgressInv(s) && t.workers == s.workers && t.progress == s.progress
    ensures ProgressInv(t)
  {
  }

  lemma StepKeepsContents(cfg: Config, s: State, e: Event)
    requires Inv(cfg, s) && Step(cfg, s, e).Some?
    ensures ContentInv(cfg, Step(cfg, s, e).value)
  {
    hide OnceInv, LockInv, ProgressInv, SlotInv, LeaseInv;
  }

  lemma StepKeepsSlots(cfg: Config, s: State, e: Event)
    requires Inv(cfg, s) && Step(cfg, s, e).Some?
    ensures SlotInv(cfg, Step(cfg, s, e).value)
  {
    hide OnceInv, LockInv, ProgressInv, ContentInv, LeaseInv, Total, AllGone;
    var t := Step(cfg, s, e).value;
    if e.Spawn? {
      TotalUpdate(s.workers, SlotsOf, s.main.next, Waiting);
    } else if !e.Resolve? {
      TotalUpdate(s.workers, SlotsOf, e.i, t.workers[e.i]);
    }
  }

  lemma StepKeepsLease(cfg: Config, s: State, e: Event)
    requires Inv(cfg, s) && Step(cfg, s, e).Some?
    ensures LeaseInv(Step(cfg, s, e).value)
  {
    hide OnceInv, LockInv, ProgressInv, ContentInv, SlotInv;
  }

  lemma StepKeepsInv(cfg: Config, s: State, e: Event)
    requires Inv(cfg, s) && Step(cfg, s, e).Some?
    ensures Inv(cfg, Step(cfg, s, e).value)
  {
    StepKeepsShape(cfg, s, e);
    StepKeepsOnce(cfg, s, e);
    StepKeepsLock(cfg, s, e);
    StepKeepsProgress(cfg, s, e);
    StepKeepsContents(cfg, s, e);
    StepKeepsSlots(cfg, s, e);
    StepKeepsLease(cfg, s, e);
  }

  // ---- Whole runs ----

  lemma {:induction false} RunKeepsInv(cfg: Config, s: State, es: seq<Event>)
    requires Inv(cfg, s) && RunFrom(cfg, s, es).Some?
    ensures Inv(cfg, RunFrom(cfg, s, es).value)
    decreases |es|
  {
    hide Inv, Step;
    if es != [] {
      StepKeepsInv(cfg, s, es[0]);
      RunKeepsInv(cfg, Step(cfg, s, es[0]).value, es[1..]);
    }
  }

  lemma InitInv(i: Input)
    requires Plan(i).Success?
    ensures Inv(Plan(i).value, Init(i))
  {
    TotalZeros(Init(i).workers, SlotsOf, 0);
  }

  /** Every state of every interleaving, after a plan was made, satisfies the invariant. */
  lemma ReachableInv(i: Input, es: seq<Event>)
    requires Plan(i).Success? && RunFrom(Plan(i).value, Init(i), es).Some?
    ensures Inv(Plan(i).value, RunFrom(Plan(i).value, Init(i), es).value)
  {
    InitInv(i);
    RunKeepsInv(Plan(i).value, Init(i), es);
  }

  lemma {:induction false} CopyingAtMostSlots(ws: seq<Phase>)
    ensures Total(ws, CopyingOf) <= Total(ws, SlotsOf)
    decreases |ws|
  {
    if ws != [] {
      CopyingAtMostSlots(ws[1..]);
    }
  }

  /** At no moment are more than the clamped number of workers inside CopyDisk. */
  lemma BoundedConcurrency(i: Input, es: seq<Event>)
    requires Plan(i).Success? && RunFrom(Plan(i).value, Init(i), es).Some?
    ensures var cfg := Plan(i).value;
            && Total(RunFrom(cfg, Init(i), es).value.workers, CopyingOf) <= cfg.concurrency
            && cfg.concurrency == ClampConcurrency(i.concurrency, |cfg.targets|)
  {
    ReachableInv(i, es);
    CopyingAtMostSlots(RunFrom(Plan(i).value, Init(i), es).value.workers);
  }

  // ---- Termination ----

  function Measure(s: State): nat
  {
    Total(s.workers, StepsLeft) + if s.main.Returned? then 0 else 1
  }

  lemma StepDecreases(cfg: Config, s: State, e: Event)
    requires Inv(cfg, s) && Step(cfg, s, e).Some?
    ensures Measure(Step(cfg, s, e).value) < Measure(s)
  {
    hide OnceInv, LockInv, ProgressInv, ContentInv, SlotInv, LeaseInv, Total, AllGone;
    var t := Step(cfg, s, e).value;
    if e.Spawn? {
      TotalUpdate(s.workers, StepsLeft, s.main.next, Waiting);
    } else if !e.Resolve? {
      TotalUpdate(s.workers, StepsLeft, e.i, t.workers[e.i]);
    }
  }

  lemma {:induction false} RunLength(cfg: Config, s: State, es: seq<Event>)
    requires Inv(cfg, s) && RunFrom(cfg, s, es).Some?
    ensures |es| + Measure(RunFrom(cfg, s, es).value) <= Measure(s)
    decreases |es|
  {
    hide Inv, Step, Measure;
    if es != [] {
      StepKeepsInv(cfg, s, es[0]);
      StepDecreases(cfg, s, es[0]);
      RunLength(cfg, Step(cfg, s, es[0]).value, es[1..]);
    }
  }

  /** Some step is possible until Run returns: no interleaving gets stuck. */
  lemma NoDeadlock(cfg: Config, s: State) returns (e: Event)
    requires Inv(cfg, s) && !s.main.Returned?
    ensures Step(cfg, s, e).Some?
  {
    if s.main.Spawning? {
      return Spawn;
    }
    if AllGone(s.workers) {
      return Resolve;
    }
    var i :| 0 <= i < |s.workers| && !s.workers[i].Gone?;
    if s.workers[i].Waiting? && !s.cancelled && s.slots >= cfg.concurrency {
      i := TotalPositive(s.workers, SlotsOf);
    }
    e := Unblocked(cfg, s, i);
  }

  /** A worker that is not kept out by a full semaphore can move, or whoever it waits for can. */
  lemma Unblocked(cfg: Config, s: State, i: nat) returns (e: Event)
    requires Inv(cfg, s) && !s.main.Returned? && !s.main.Spawning? && i < |s.workers| && !s.workers[i].Gone?
    requires s.workers[i].Waiting? ==> s.cancelled || s.slots < cfg.concurrency
    ensures Step(cfg, s, e).Some?
  {
    hide ProgressInv, ContentInv, LeaseInv;
    match s.workers[i]
    case Unborn =>
    case Waiting => e := if s.cancelled then GiveUp(i) else Acquire(i);
    case Admitted => e := LookAtContext(i);
    case Copying => e := CopyOk(i);
    case Failing(_) =>
      e := match s.once
        case Unused => WinOnce(i)
        case Busy(j) => Cancel(j)
        case Done(_) => LoseOnce(i);
    case Cancelling(_) => e := Cancel(i);
    case Copied =>
      if s.lock.None? {
        e := Lock(i);
      } else {
        var j := s.lock.value;
        e := if s.workers[j].Recording? then Record(j) else Unlock(j);
      }
    case Recording => e := Record(i);
    case Recorded => e := Unlock(i);
    case Leaving(_) =>
      if s.slots == 0 {
        TotalUpdate(s.workers, SlotsOf, i, Unborn);
      }
      e := Release(i);
    case Exiting(_) => e := WaitGroupDone(i);
  }

  /** Runs are bounded, and one that cannot go on has returned: Run terminates under any scheduler. */
  lemma EveryRunTerminates(i: Input, es: seq<Event>)
    requires Plan(i).Success? && RunFrom(Plan(i).value, Init(i), es).Some?
    ensures var cfg := Plan(i).value; var s := RunFrom(cfg, Init(i), es).value;
            && |es| <= 10 * |cfg.targets| + 1
            && ((forall e :: Step(cfg, s, e).None?) ==> s.main.Returned?)
  {
    var cfg := Plan(i).value;
    var s := RunFrom(cfg, Init(i), es).value;
    ReachableInv(i, es);
    InitInv(i);
    RunLength(cfg, Init(i), es);
    TotalZeros(Init(i).workers, StepsLeft, 10);
    if !s.main.Returned? {
      var e := NoDeadlock(cfg, s);
      assert Step(cfg, s, e).Some?;
    }
  }

  // ---- What Run returns ----

  /** Target k holds a complete copy of the k-th selected disk, for every k. */
  predicate AllCopied(cfg: Config, s: State)
  {
    |s.contents| == |cfg.selected| && forall k :: 0 <= k < |cfg.selected| ==> s.contents[k] == Holds(cfg.selected[k])
  }

  /** The progress list has one entry for each disk, and no other. */
  predicate OneEntryEach(cfg: Config, s: State)
  {
    && Distinct(s.progress)
    && (forall k <- s.progress :: k < |cfg.selected|)
    && (forall k :: 0 <= k < |cfg.selected| ==> k in s.progress)
  }

  /**
   When Run returns after taking a lease, it either returns nil, everything is copied and
   recorded, and the lease was completed once; or it returns an error, some disk's own if the
   copies had started, and the lease was aborted once.
   */
  lemma LeaseResolvedOnce(i: Input, cfg: Config, es: seq<Event>)
    requires RunFrom(cfg, Init(i), es).Some? && (Plan(i).Success? ==> cfg == Plan(i).value)
    requires RunFrom(cfg, Init(i), es).value.main.Returned?
    ensures var s := RunFrom(cfg, Init(i), es).value;
            if s.main.error.None? then
              Plan(i).Success? && s.lease == [Complete] && AllCopied(cfg, s) && OneEntryEach(cfg, s)
            else
              && s.lease == [Abort]
              && (if Plan(i).Failure? then s.main.error == Some(Plan(i).error)
                  else exists k :: 0 <= k < |s.workers| && s.workers[k] == Gone(Errored(s.main.error.value)))
  {
    var s := RunFrom(cfg, Init(i), es).value;
    if Plan(i).Success? {
      ReachableInv(i, es);
      ReturnedWith(cfg, s);
    }
  }

  lemma ReturnedWith(cfg: Config, s: State)
    requires Inv(cfg, s) && s.main.Returned?
    ensures s.main.error.None? ==> s.lease == [Complete] && AllCopied(cfg, s) && OneEntryEach(cfg, s)
    ensures s.main.error.Some? ==>
              && s.lease == [Abort]
              && exists k :: 0 <= k < |s.workers| && s.workers[k] == Gone(Errored(s.main.error.value))
  {
    hide LockInv, SlotInv;
    if s.main.error.None? {
      forall k | 0 <= k < |s.workers| ensures Good(s.workers[k]) && Listed(s.workers[k]) {
        assert s.workers[k].Gone?;
      }
    } else {
      assert s.workers[s.once.who] == Gone(Errored(s.main.error.value));
    }
  }

  /** While copies may still be running the lease is left alone. */
  lemma LeaseUntouchedBefore(i: Input, es: seq<Event>)
    requires Plan(i).Success? && RunFrom(Plan(i).value, Init(i), es).Some?
    requires !RunFrom(Plan(i).value, Init(i), es).value.main.Returned?
    ensures RunFrom(Plan(i).value, Init(i), es).value.lease == []
  {
    ReachableInv(i, es);
  }
}
