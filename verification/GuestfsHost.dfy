/**
 The guestfish listeners of a host. Every command sent to one works, fails or kills it, as
 oracles say, those that start an appliance apart from the others; and a listener may also die
 between commands.
 */
module GuestfsHost {
  import opened Results
  import opened MountPlans

  datatype Fate = Works | Fails | Dies

  datatype Command =
    | ListDevices
    | AddDrive(path: string)
    | Launch
    | UmountAll
    | Mount(plan: MountPlan)
    | Inspect
    | Body(id: nat, needs: seq<MountPlan>)
    | Other

  /** An appliance: whether it was launched, and its mounts in order. */
  datatype Guest = Guest(ran: bool, mounts: seq<MountPlan>)

  /** A command of a caller reached a live appliance that had these mounts. */
  datatype Reach = Reach(id: nat, needs: seq<MountPlan>, mounts: seq<MountPlan>)

  /** What becomes of a script: its listener survives, perhaps reporting errors, or dies. */
  datatype Run = Survived(guest: Guest, failed: bool, reached: seq<Reach>) | Died(reached: seq<Reach>)

  /** A run preceded by commands that reached seen, and of which one failed, or none. */
  function Before(seen: seq<Reach>, failed: bool, rest: Run): Run
  {
    if rest.Died? then Died(seen + rest.reached)
    else Survived(rest.guest, failed || rest.failed, seen + rest.reached)
  }

  lemma BeforeTwice(seen: seq<Reach>, failed: bool, more: seq<Reach>, f: bool, rest: Run)
    ensures Before(seen, failed, Before(more, f, rest)) == Before(seen + more, failed || f, rest)
  {
    assert seen + (more + rest.reached) == seen + more + rest.reached;
  }

  lemma NothingBefore(r: Run)
    ensures Before([], false, r) == r
  {
  }

  lemma BeforeDeath(seen: seq<Reach>, failed: bool, more: seq<Reach>)
    ensures Before(seen, failed, Died(more)) == Died(seen + more)
  {
  }

  class Host {
    const fate: nat -> Fate
    const boot: nat -> Fate
    const left: (nat, seq<MountPlan>) -> seq<MountPlan>
    const found: nat -> seq<MountPlan>
    const drifts: nat -> bool
    const roots: seq<string>
    const tableOf: string -> seq<MountPlan>
    var step: nat
    var nextPid: nat
    var live: map<nat, Guest>
    var log: seq<Reach>

    constructor (fate: nat -> Fate, boot: nat -> Fate, left: (nat, seq<MountPlan>) -> seq<MountPlan>, found: nat -> seq<MountPlan>,
                 drifts: nat -> bool, roots: seq<string>, tableOf: string -> seq<MountPlan>, live: map<nat, Guest>, nextPid: nat)
      requires nextPid > 0 && forall p <- live :: 0 < p < nextPid
      ensures this.fate == fate && this.boot == boot && this.left == left && this.drifts == drifts && this.roots == roots
      ensures this.live == live && this.nextPid == nextPid && log == [] && step == 0 && Valid()
    {
      this.fate, this.boot, this.left, this.found := fate, boot, left, found;
      this.drifts, this.roots, this.tableOf := drifts, roots, tableOf;
      step, this.nextPid, this.live, log := 0, nextPid, live, [];
    }

    predicate Valid()
      reads `live, `nextPid
    {
      nextPid > 0 && forall p <- live :: 0 < p < nextPid
    }

    // ---- What may be assumed of a host ----

    /** An umount-all that fails and does not kill the listener has unmounted nothing. */
    ghost predicate AtomicUnmounts()
    {
      forall at: nat, ms :: left(at, ms) == ms
    }

    /** The commands that start an appliance work or kill its listener. */
    ghost predicate LaunchesOrDies()
    {
      forall at: nat :: !boot(at).Fails?
    }

    /** Nothing fails or dies, but for the commands that start an appliance, which may fail. */
    ghost predicate Obliging()
    {
      forall at: nat :: fate(at).Works? && !drifts(at) && !boot(at).Dies?
    }

    ghost predicate BootWorks(lo: nat, hi: nat)
    {
      forall at: nat :: lo <= at < hi ==> boot(at).Works?
    }

    ghost predicate BootFails(lo: nat, hi: nat)
    {
      forall at: nat :: lo <= at < hi ==> boot(at).Fails?
    }

    lemma Sub(lo: nat, hi: nat, lo': nat, hi': nat)
      requires lo <= lo' && hi' <= hi
      ensures BootWorks(lo, hi) ==> BootWorks(lo', hi')
      ensures BootFails(lo, hi) ==> BootFails(lo', hi')
    {
    }

    // ---- Commands ----

    function FateOf(c: Command, at: nat): Fate
    {
      if c.ListDevices? || c.AddDrive? || c.Launch? then boot(at) else fate(at)
    }

    /** A command works if the oracle lets it and the appliance runs, when it needs one. */
    predicate Succeeds(g: Guest, c: Command, at: nat)
    {
      FateOf(c, at).Works? && (g.ran || c.AddDrive? || c.Launch?)
    }

    /** Commands that fail leave things as they are, except an umount-all, which may leave anything. */
    function Effect(g: Guest, c: Command, at: nat): Guest
    {
      var ok := Succeeds(g, c, at);
      match c
      case Launch => if ok && !g.ran then Guest(true, []) else g
      case UmountAll => if !g.ran then g else g.(mounts := if ok then [] else left(at, g.mounts))
      case Mount(plan) => if ok then g.(mounts := g.mounts + [plan]) else g
      case Inspect => if g.ran then g.(mounts := found(at)) else g
      case _ => g
    }

    function Trace(g: Guest, c: Command): seq<Reach>
    {
      if c.Body? then [Reach(c.id, c.needs, g.mounts)] else []
    }

    function Exec(g: Guest, script: seq<Command>, at: nat): Run
      decreases |script|
    {
      if script == [] then Survived(g, false, [])
      else
        var seen := Trace(g, script[0]);
        if FateOf(script[0], at).Dies? then Died(seen)
        else
          Before(seen, !Succeeds(g, script[0], at), Exec(Effect(g, script[0], at), script[1..], at + 1))
    }

    // ---- Scripts ----

    predicate Silent(script: seq<Command>)
    {
      forall i :: 0 <= i < |script| ==> !script[i].Body?
    }

    /** Scripts without commands of callers reach nothing, and no script undoes the launch. */
    lemma {:induction false} SilentReachesNothing(g: Guest, script: seq<Command>, at: nat)
      requires Silent(script)
      ensures Exec(g, script, at).reached == []
      ensures var r := Exec(g, script, at); r.Survived? && g.ran ==> r.guest.ran
      decreases |script|
    {
      if script != [] {
        SilentReachesNothing(Effect(g, script[0], at), script[1..], at + 1);
      }
    }

    predicate Launches(script: seq<Command>)
    {
      forall i :: 0 <= i < |script| ==> script[i].ListDevices? || script[i].AddDrive? || script[i].Launch?
    }

    /** Launching an appliance mounts nothing. */
    lemma {:induction false} LaunchMountsNothing(g: Guest, script: seq<Command>, at: nat)
      requires Launches(script)
      ensures var r := Exec(g, script, at); r.Survived? ==> r.guest.mounts == g.mounts || r.guest.mounts == []
      decreases |script|
    {
      if script != [] {
        LaunchMountsNothing(Effect(g, script[0], at), script[1..], at + 1);
      }
    }

    /** A launch script: the drives, and the launch last. */
    predicate IsLaunch(script: seq<Command>)
    {
      script != [] && script[|script| - 1].Launch? && forall i :: 0 <= i < |script| - 1 ==> script[i].AddDrive?
    }

    lemma {:induction false} LaunchOutcome(g: Guest, script: seq<Command>, at: nat)
      requires IsLaunch(script)
      ensures var r := Exec(g, script, at);
              && (r.Survived? && !r.failed ==> r.guest.ran)
              && (LaunchesOrDies() && r.Survived? ==> !r.failed)
              && (BootWorks(at, at + |script|) ==> r.Survived? && !r.failed)
              && (BootFails(at, at + |script|) ==> r.Survived? && r.failed)
      decreases |script|
    {
      if |script| == 1 {
        assert script[1..] == [];
      } else {
        LaunchOutcome(Effect(g, script[0], at), script[1..], at + 1);
      }
    }

    lemma {:induction false} ObligingSurvives(g: Guest, script: seq<Command>, at: nat)
      requires Obliging()
      ensures Exec(g, script, at).Survived?
      decreases |script|
    {
      if script != [] {
        ObligingSurvives(Effect(g, script[0], at), script[1..], at + 1);
      }
    }

    predicate Ordinary(script: seq<Command>)
    {
      forall i :: 0 <= i < |script| ==> !script[i].ListDevices? && !script[i].AddDrive? && !script[i].Launch?
    }

    /** On an obliging host ordinary scripts work, once the appliance runs. */
    lemma {:induction false} OrdinaryWorks(g: Guest, script: seq<Command>, at: nat)
      requires Obliging() && g.ran && Ordinary(script)
      ensures var r := Exec(g, script, at); r.Survived? && !r.failed && r.guest.ran
      decreases |script|
    {
      if script != [] {
        OrdinaryWorks(Effect(g, script[0], at), script[1..], at + 1);
      }
    }

    function MountAll(plans: seq<MountPlan>): (script: seq<Command>)
      ensures |script| == |plans| && Silent(script) && Ordinary(script)
    {
      if plans == [] then [] else [Mount(plans[0])] + MountAll(plans[1..])
    }

    lemma {:induction false} MountAllMounts(g: Guest, plans: seq<MountPlan>, at: nat)
      ensures var r := Exec(g, MountAll(plans), at);
              r.Survived? && !r.failed ==> r.guest == g.(mounts := g.mounts + plans) && (plans != [] ==> g.ran)
      decreases |plans|
    {
      if plans == [] {
        assert g.mounts + plans == g.mounts;
      } else {
        var script := MountAll(plans);
        assert script[0] == Mount(plans[0]) && script[1..] == MountAll(plans[1..]);
        MountAllMounts(Effect(g, script[0], at), plans[1..], at + 1);
        assert g.mounts + [plans[0]] + plans[1..] == g.mounts + plans;
      }
    }

    /** mountScriptPrefix: everything is unmounted, then the plans are mounted in order. */
    function MountScript(plans: seq<MountPlan>): (script: seq<Command>)
      ensures |script| == |plans| + 1 && Silent(script) && Ordinary(script)
    {
      [UmountAll] + MountAll(plans)
    }

    /** When the mount script reports no error, exactly the plans are mounted. */
    lemma MountScriptMounts(g: Guest, plans: seq<MountPlan>, at: nat)
      ensures var r := Exec(g, MountScript(plans), at);
              r.Survived? && !r.failed ==> r.guest == Guest(true, plans)
    {
      var script := MountScript(plans);
      assert script[1..] == MountAll(plans);
      MountAllMounts(Effect(g, UmountAll, at), plans, at + 1);
      assert [] + plans == plans;
    }

    /** A caller's command changes no mounts, and reaches the appliance with those it has. */
    lemma BodyReaches(g: Guest, id: nat, needs: seq<MountPlan>, at: nat)
      ensures var r := Exec(g, [Body(id, needs)], at);
              r.reached == [Reach(id, needs, g.mounts)] && (r.Survived? ==> r.guest == g)
    {
      assert [Body(id, needs)][1..] == [];
    }

    /** A probe that works found a launched appliance, and left it alone. */
    lemma ProbeTells(g: Guest, at: nat)
      ensures var r := Exec(g, [ListDevices], at);
              && (r.Survived? ==> r.guest == g && (!r.failed ==> g.ran))
              && (LaunchesOrDies() && r.Survived? && g.ran ==> !r.failed)
              && (boot(at).Works? ==> r.Survived? && (r.failed <==> !g.ran))
              && (boot(at).Fails? ==> r.Survived? && r.failed)
    {
      assert [ListDevices][1..] == [];
    }

    /** Where umount-all is atomic, one that fails leaves the appliance as it was, if alive. */
    lemma FailedUnmountKeeps(g: Guest, at: nat)
      requires AtomicUnmounts()
      ensures var r := Exec(g, MountScript([]), at); r.Survived? && r.failed ==> r.guest == g
    {
      assert MountScript([])[1..] == [];
    }

    /**
     What there is after a script was sent to a listener, which may have been found dead: the
     script's effect on that listener, and nothing else.
     */
    predicate Delivered(live0: map<nat, Guest>, log0: seq<Reach>, at: nat, pid: nat, script: seq<Command>, soft: bool, fine: bool)
      reads `live, `log
    {
      || (pid !in live && !fine && live == live0 - {pid} && log == log0)
      || (pid in live0
          && var run := Exec(live0[pid], script, at);
          && log == log0 + run.reached
          && live == (if run.Died? then live0 - {pid} else live0[pid := run.guest])
          && fine == (run.Survived? && (soft || !run.failed)))
    }

    lemma DeliveredSilently(live0: map<nat, Guest>, log0: seq<Reach>, at: nat, pid: nat, script: seq<Command>, soft: bool, fine: bool)
      requires Silent(script) && Delivered(live0, log0, at, pid, script, soft, fine)
      ensures log == log0 && live.Keys <= live0.Keys && (fine ==> pid in live)
      ensures pid in live ==> pid in live0 && (live0[pid].ran ==> live[pid].ran)
      ensures forall p <- live :: p != pid ==> live[p] == live0[p]
    {
      hide Exec, Silent;
      if pid in live0 {
        SilentReachesNothing(live0[pid], script, at);
        assert log0 + [] == log0;
      }
    }

    lemma LaunchDelivered(live0: map<nat, Guest>, log0: seq<Reach>, at: nat, pid: nat, script: seq<Command>, soft: bool, fine: bool)
      requires Launches(script) && Delivered(live0, log0, at, pid, script, soft, fine)
      ensures pid in live ==> pid in live0 && (live[pid].mounts == live0[pid].mounts || live[pid].mounts == [])
    {
      hide Exec;
      if pid in live0 {
        LaunchMountsNothing(live0[pid], script, at);
      }
    }

    /** A launch script that was reported fine has launched the appliance. */
    lemma FineLaunch(live0: map<nat, Guest>, log0: seq<Reach>, at: nat, pid: nat, script: seq<Command>, fine: bool)
      requires IsLaunch(script) && Delivered(live0, log0, at, pid, script, false, fine)
      ensures fine ==> pid in live && live[pid].ran
      ensures LaunchesOrDies() && !fine ==> pid !in live
    {
      hide Exec, IsLaunch, LaunchesOrDies;
      if pid in live0 {
        LaunchOutcome(live0[pid], script, at);
      }
    }

    lemma MountsDelivered(live0: map<nat, Guest>, log0: seq<Reach>, at: nat, pid: nat, plans: seq<MountPlan>, fine: bool)
      requires Delivered(live0, log0, at, pid, MountScript(plans), false, fine) && fine
      ensures pid in live && live[pid] == Guest(true, plans)
    {
      hide Exec, MountScript;
      MountScriptMounts(live0[pid], plans, at);
    }

    lemma UnmountKept(live0: map<nat, Guest>, log0: seq<Reach>, at: nat, pid: nat, fine: bool)
      requires AtomicUnmounts() && Delivered(live0, log0, at, pid, MountScript([]), false, fine) && !fine
      ensures pid in live ==> pid in live0 && live[pid] == live0[pid]
    {
      hide Exec, MountScript, AtomicUnmounts;
      if pid in live0 {
        FailedUnmountKeeps(live0[pid], at);
      }
    }

    lemma BodyDelivered(live0: map<nat, Guest>, log0: seq<Reach>, at: nat, pid: nat, id: nat, needs: seq<MountPlan>, fine: bool)
      requires Delivered(live0, log0, at, pid, [Body(id, needs)], false, fine)
      ensures log == log0 || (pid in live0 && log == log0 + [Reach(id, needs, live0[pid].mounts)])
      ensures live == live0 || live == live0 - {pid}
      ensures fine ==> pid in live && |log| == |log0| + 1
    {
      hide Exec;
      if pid in live0 {
        BodyReaches(live0[pid], id, needs, at);
        assert live0[pid := live0[pid]] == live0;
      } else {
        assert live0 - {pid} == live0;
      }
    }

    lemma ProbeDelivered(live0: map<nat, Guest>, log0: seq<Reach>, at: nat, pid: nat, fine: bool)
      requires Delivered(live0, log0, at, pid, [ListDevices], false, fine)
      ensures log == log0 && (live == live0 || live == live0 - {pid})
      ensures fine ==> pid in live && live[pid].ran
      ensures LaunchesOrDies() && !fine && pid in live ==> !live[pid].ran
    {
      hide Exec, LaunchesOrDies;
      DeliveredSilently(live0, log0, at, pid, [ListDevices], false, fine);
      if pid in live0 {
        ProbeTells(live0[pid], at);
        assert live0[pid := live0[pid]] == live0;
      } else {
        assert live0 - {pid} == live0;
      }
    }

    // ---- What processes do ----

    /** sessionAlive. The listener may have died unnoticed. */
    method SessionAlive(pid: nat) returns (alive: bool)
      requires Valid()
      modifies this`step, this`live
      ensures Valid() && step == old(step) + 1
      ensures live == old(live) || (live == old(live) - {pid} && drifts(old(step)))
      ensures alive <==> pid in live
      ensures pid !in old(live) ==> live == old(live)
    {
      if drifts(step) {
        live := live - {pid};
      }
      step := step + 1;
      alive := pid in live;
    }

    /** Sends the lines of a script to a live listener, each after the other. */
    method RunLines(pid: nat, script: seq<Command>) returns (run: Run)
      requires Valid() && pid in live
      modifies this`step, this`live, this`log
      ensures Valid() && run == Exec(old(live)[pid], script, old(step)) && old(step) <= step <= old(step) + |script|
      ensures log == old(log) + run.reached
      ensures live == if run.Died? then old(live) - {pid} else old(live)[pid := run.guest]
    {
      hide Exec, Effect, Succeeds, Trace, Before, FateOf;
      var g, failed, seen := live[pid], false, [];
      ghost var start := step;
      assert script[0..] == script;
      NothingBefore(Exec(g, script, step));
      for i := 0 to |script|
        invariant Valid() && pid in live && live == old(live)[pid := g] && log == old(log) + seen
        invariant step == start + i
        invariant Exec(old(live)[pid], script, start) == Before(seen, failed, Exec(g, script[i..], step))
      {
        var c := script[i];
        assert script[i..][0] == c && script[i..][1..] == script[i + 1..];
        var now := Trace(g, c);
        ExecStep(g, script[i..], step);
        BeforeTwice(seen, failed, now, !Succeeds(g, c, step), Exec(Effect(g, c, step), script[i + 1..], step + 1));
        log := log + now;
        var f := FateOf(c, step);
        if f.Dies? {
          live := live - {pid};
          BeforeDeath(seen, failed, now);
          return Died(seen + now);
        }
        failed := failed || !Succeeds(g, c, step);
        g := Effect(g, c, step);
        seen := seen + now;
        live := live[pid := g];
        step := step + 1;
      }
      run := Survived(g, failed, seen);
      ExecNothing(g, seen, failed, script[|script|..], step);
    }

    lemma ExecStep(g: Guest, script: seq<Command>, at: nat)
      requires script != []
      ensures Exec(g, script, at) ==
              if FateOf(script[0], at).Dies? then Died(Trace(g, script[0]))
              else Before(Trace(g, script[0]), !Succeeds(g, script[0], at), Exec(Effect(g, script[0], at), script[1..], at + 1))
    {
    }

    lemma ExecNothing(g: Guest, seen: seq<Reach>, failed: bool, script: seq<Command>, at: nat)
      requires script == []
      ensures Before(seen, failed, Exec(g, script, at)) == Survived(g, failed, seen)
    {
    }

    /** remoteScript, and with soft remoteScriptSoft, which takes no failing command for an error. */
    method RemoteScript(pid: nat, script: seq<Command>, soft: bool) returns (fine: bool)
      requires Valid()
      modifies this`step, this`live, this`log
      ensures Valid() && Delivered(old(live), old(log), old(step) + 1, pid, script, soft, fine)
      ensures old(step) < step <= old(step) + 1 + |script|
      ensures pid in old(live) && !drifts(old(step)) ==>
                var run := Exec(old(live)[pid], script, old(step) + 1);
                && (pid in live <==> run.Survived?) && (run.Survived? ==> live[pid] == run.guest)
                && (fine <==> run.Survived? && (soft || !run.failed))
    {
      hide Exec;
      ghost var live0, log0 := live, log;
      var alive := SessionAlive(pid);
      if !alive {
        assert live == live0 - {pid};
        return false;
      }
      var run := RunLines(pid, script);
      fine := run.Survived? && (soft || !run.failed);
    }

    /** startGuestfishListen: a new listener without an appliance, if one starts. */
    method StartListen() returns (pid: Option<nat>)
      requires Valid()
      modifies this`step, this`live, this`nextPid
      ensures Valid()
      ensures pid.Some? ==> pid.value == old(nextPid) && live == old(live)[pid.value := Guest(false, [])]
      ensures pid.None? ==> live == old(live)
      ensures nextPid == old(nextPid) + (if pid.Some? then 1 else 0) && step == old(step) + 1
      ensures fate(old(step)).Works? ==> pid.Some?
    {
      var f := fate(step);
      step := step + 1;
      if !f.Works? {
        return None;
      }
      pid := Some(nextPid);
      live := live[nextPid := Guest(false, [])];
      nextPid := nextPid + 1;
    }

    /** The listener is told to exit, and killed if it does not. */
    method Stop(pid: nat)
      requires Valid()
      modifies this`live
      ensures Valid() && live == old(live) - {pid}
    {
      live := live - {pid};
    }
  }
}
