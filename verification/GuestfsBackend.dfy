/**
 The guestfs backend: what it wants mounted, when it believes that it is, and how it keeps
 that true through probes, crashes and restarts of its listener.
 */
module GuestfsBackend {
  import opened Results
  import opened Paths
  import opened MountPlans
  import opened GuestfsSpecs
  import opened GuestfsHost
  import opened GuestfsSession

  /** The guest path of a host mount point; "/" for the mount root and for what Rel refuses. */
  function GuestMountOf(mountRoot: string, hostMountPoint: string): string
  {
    if hostMountPoint == mountRoot then "/"
    else
      match Rel(mountRoot, hostMountPoint)
      case None => "/"
      case Some(rel) => "/" + rel
  }

  class Backend {
    const host: Host
    const envPid: Option<nat>
    const diskPaths: seq<string>
    const mountRoot: string
    const diskInfos: seq<DiskInfo>
    const filesFine: nat -> bool
    var asked: nat
    var mountSpecs: seq<MountPlan>
    var mounted: bool
    var mountsActive: bool
    var inspectDone: bool
    var probeActive: string
    var session: GuestfishSession?

    constructor (host: Host, envPid: Option<nat>, diskPaths: seq<string>, mountRoot: string, diskInfos: seq<DiskInfo>, filesFine: nat -> bool)
      requires host.Valid() && (envPid.Some? ==> 0 < envPid.value < host.nextPid)
      ensures this.host == host && fresh(this) && Valid() && Consistent() && mountSpecs == [] && session == null
      ensures this.envPid == envPid && this.diskPaths == diskPaths && this.diskInfos == diskInfos
    {
      this.host, this.envPid, this.diskPaths, this.mountRoot := host, envPid, diskPaths, mountRoot;
      this.diskInfos, this.filesFine := diskInfos, filesFine;
      asked, mountSpecs, mounted, mountsActive, inspectDone, probeActive, session := 0, [], false, false, false, "", null;
    }

    predicate Valid()
      reads this, host, session
    {
      && host.Valid()
      && (envPid.Some? ==> 0 < envPid.value < host.nextPid)
      && (session != null ==> session.host == host && session.Valid() && session.pid > 0)
    }

    /** What is to be mounted, in order. */
    function Effective(): seq<MountPlan>
      reads `mountSpecs
    {
      SortByLength(if mountSpecs == [] then SpecsFromDiskInfos(diskInfos) else mountSpecs)
    }

    /** If the backend believes its mounts active, a live appliance holds exactly what is to be mounted. */
    predicate Consistent()
      reads this, host, session
    {
      && (session == null ==> !mountsActive)
      && (mountsActive ==> inspectDone)
      && (session != null && session.pid in host.live && mountsActive ==>
            session.launched && host.live[session.pid] == Guest(true, Effective()))
    }

    /** The listener was replaced, but its appliance not launched, and the flag was left standing. */
    predicate HalfRestarted()
      reads this, host, session
    {
      session != null && session.pid in host.live && mountsActive && !session.launched && host.live[session.pid].mounts == []
    }

    /** The session's listener is alive, and its appliance runs. */
    predicate Healthy()
      reads this, host, session
    {
      session != null && session.launched && session.pid in host.live
    }

    /** A session can be had without a shared listener: there is none yet, or a live one. */
    predicate Reachable()
      reads this, host, session
    {
      if session == null then envPid.None? else session.pid in host.live
    }

    /** Nothing stands in the way of mounting: the host obliges, and inspection finds nothing to add. */
    ghost predicate EasyGoing(reachable: bool, from: nat)
    {
      reachable && host.Obliging() && host.roots == [] && host.BootWorks(from, from + |diskPaths| + 7)
    }

    /** The session has the listener it had, with the mounts it had, or with none. */
    predicate SameListener(live0: map<nat, Guest>, pid: nat)
      reads this, host, session
    {
      && session != null && session.pid == pid
      && (pid in host.live ==>
            pid in live0 && (host.live[pid].mounts == live0[pid].mounts || host.live[pid].mounts == []))
    }

    // ---- Sessions ----

    /** openGuestfishSession: adopts the shared listener when there is one, else starts one. */
    method OpenGuestfishSession() returns (s: GuestfishSession?)
      requires Valid()
      modifies host
      ensures Valid() && host.log == old(host.log)
      ensures s != null ==> fresh(s) && s.host == host && s.Valid() && s.pid > 0 && !s.launched
      ensures host.step == old(host.step) + 1
      ensures host.Obliging() && envPid.None? ==> s != null && s.pid in host.live
      ensures session != null && session.pid in host.live ==>
                session.pid in old(host.live) && host.live[session.pid] == old(host.live[session.pid])
    {
      if envPid.Some? {
        var alive := host.SessionAlive(envPid.value);
        if !alive {
          return null;
        }
        s := new GuestfishSession(host, envPid.value, true);
        return;
      }
      var pid := host.StartListen();
      if pid.None? {
        return null;
      }
      s := new GuestfishSession(host, pid.value, false);
    }

    method EnsureSession() returns (ok: bool)
      requires Valid()
      modifies `session, session, host
      ensures Valid() && host.log == old(host.log)
      ensures if ok then session != null && session.launched else session == null || !session.launched
      ensures session == old(session) || (old(session) == null && fresh(session))
      ensures old(session) != null ==> session.pid == old(session.pid)
      ensures old(session) != null && old(session.launched) ==> ok && host.live == old(host.live) && host.step == old(host.step)
      ensures old(host.step) <= host.step <= old(host.step) + |diskPaths| + 7
      ensures host.Obliging() && old(Reachable()) && host.BootWorks(old(host.step), old(host.step) + |diskPaths| + 7) ==> ok && Healthy()
      ensures old(session) != null && session.pid in host.live ==>
                && session.pid in old(host.live)
                && (host.live[session.pid].mounts == old(host.live[session.pid].mounts) || host.live[session.pid].mounts == [])
      ensures old(Consistent()) ==> Consistent()
    {
      hide Host.BootWorks, Host.BootFails, Host.LaunchesOrDies;
      ghost var step0 := host.step;
      if session == null {
        var s := OpenGuestfishSession();
        if s == null {
          return false;
        }
        session := s;
      }
      host.Sub(step0, step0 + |diskPaths| + 7, host.step, host.step + |diskPaths| + 6);
      ok := session.EnsureLaunched(diskPaths);
    }

    /** Restarts a dead session; one still alive is none of its business. */
    method TryRestart() returns (ok: bool)
      requires Valid()
      modifies `mountsActive, session, host
      ensures Valid() && host.log == old(host.log)
      ensures ok ==> session != null && !mountsActive && session.launched && session.pid > old(session.pid)
      ensures old(session) != null ==> session == old(session) && session.pid >= old(session.pid)
      ensures !ok ==> mountsActive == old(mountsActive)
      ensures session != null && session.pid == old(session.pid) && session.pid in host.live ==>
                host.live == old(host.live) && session.launched == old(session.launched)
      ensures old(Consistent()) ==> (Consistent() <==> !HalfRestarted())
      ensures old(Consistent()) && host.LaunchesOrDies() ==> Consistent()
      ensures old(host.step) <= host.step <= old(host.step) + |diskPaths| + 8
      ensures host.Obliging() && old(session != null && session.pid !in host.live && mountsActive)
              && host.BootFails(old(host.step), old(host.step) + |diskPaths| + 8) ==>
                !ok && HalfRestarted()
    {
      hide Host.BootWorks, Host.BootFails, Host.LaunchesOrDies;
      ghost var step0 := host.step;
      if session == null {
        return false;
      }
      var alive := host.SessionAlive(session.pid);
      if alive {
        return false;
      }
      host.Sub(step0, step0 + |diskPaths| + 8, host.step, host.step + |diskPaths| + 7);
      var restarted := session.Restart(diskPaths);
      if !restarted {
        return false;
      }
      mountsActive := false;
      return true;
    }

    method EnsureSessionWithRecovery() returns (ok: bool)
      requires Valid()
      modifies `mountsActive, `session, session, host
      ensures Valid() && host.log == old(host.log)
      ensures session == old(session) || (old(session) == null && fresh(session))
      ensures ok ==> session != null && session.launched
      ensures mountsActive ==> old(mountsActive)
      ensures ok && old(session) != null ==> (mountsActive == old(mountsActive) && SameListener(old(host.live), old(session.pid)))
                                             || (!mountsActive && session.pid > old(session.pid))
      ensures old(session) != null ==> session.pid >= old(session.pid)
      ensures old(Consistent()) ==> (Consistent() <==> !HalfRestarted())
      ensures old(Consistent()) && host.LaunchesOrDies() ==> Consistent()
      ensures old(session) != null && old(session.launched) ==>
                ok && host.live == old(host.live) && host.step == old(host.step) && mountsActive == old(mountsActive)
      ensures host.Obliging() && old(Reachable()) && host.BootWorks(old(host.step), old(host.step) + |diskPaths| + 7) ==>
                && ok && Healthy() && mountsActive == old(mountsActive) && host.step <= old(host.step) + |diskPaths| + 7
                && (old(session) != null ==> session.pid == old(session.pid))
    {
      hide Host.BootWorks, Host.BootFails, Host.LaunchesOrDies, Host.Obliging;
      ok := EnsureSession();
      if ok {
        return;
      }
      ok := TryRestart();
    }

    // ---- Finding out what to mount ----

    /** discoverMountpoints. Inspection that fails finds nothing; a root it does not know is an error. */
    method DiscoverMountpoints(preferred: string) returns (r: Result<seq<MountPlan>, string>)
      requires Valid() && session != null
      modifies host
      ensures Valid() && host.log == old(host.log) && host.live.Keys <= old(host.live.Keys)
      ensures r.Success? ==> r.value == [] || exists root <- host.roots :: r.value == host.tableOf(root)
      ensures old(host.step) <= host.step <= old(host.step) + 4
      ensures host.roots == [] ==> r == Success([])
      ensures host.Obliging() && old(Healthy()) && host.roots == [] ==> Healthy()
    {
      hide Host.Delivered, Host.Exec, FirstEqual, Effective, Consistent;
      ghost var live0, log0, at := host.live, host.log, host.step + 1;
      var fine := session.host.RemoteScript(session.pid, [Inspect], false);
      host.DeliveredSilently(live0, log0, at, session.pid, [Inspect], false, fine);
      if host.Obliging() && session.pid in live0 && live0[session.pid].ran {
        host.OrdinaryWorks(live0[session.pid], [Inspect], at);
      }
      if !fine {
        return Success([]);
      }
      var root := SelectInspectRoot(host.roots, preferred);
      if root.Failure? {
        return Failure(root.error);
      }
      if root.value == "" {
        return Success([]);
      }
      live0, log0, at := host.live, host.log, host.step + 1;
      fine := session.host.RemoteScript(session.pid, [Inspect], false);
      host.DeliveredSilently(live0, log0, at, session.pid, [Inspect], false, fine);
      r := Success(if fine then host.tableOf(root.value) else []);
    }

    /** The specs are those of before, or of the disk infos, merged with the mounts of an inspected root. */
    predicate Inspected(before: seq<MountPlan>)
      reads `mountSpecs
    {
      exists root <- host.roots ::
        mountSpecs == Merged(if before == [] then SpecsFromDiskInfos(diskInfos) else before, host.tableOf(root))
    }

    /** effectiveMountSpecs. The first time, what inspection finds is added for good. */
    method EffectiveMountSpecs() returns (specs: Option<seq<MountPlan>>)
      requires Valid() && session != null
      modifies `mountSpecs, `inspectDone, host
      ensures Valid() && host.log == old(host.log) && host.live.Keys <= old(host.live.Keys)
      ensures specs.Some? ==> inspectDone && specs.value == Effective()
      ensures old(inspectDone) ==> inspectDone && mountSpecs == old(mountSpecs) && specs.Some?
      ensures mountSpecs == old(mountSpecs) || Inspected(old(mountSpecs))
      ensures host.roots == [] ==> mountSpecs == old(mountSpecs) && specs.Some?
      ensures old(host.step) <= host.step <= old(host.step) + 4
      ensures host.Obliging() && old(Healthy()) && host.roots == [] ==> Healthy()
    {
      hide SpecsFromDiskInfos, Merged;
      var all := mountSpecs;
      if |all| == 0 {
        all := MountSpecsFromDiskInfos(diskInfos);
      }
      if !inspectDone {
        var extra := DiscoverMountpoints(PreferredRoot(all));
        if extra.Failure? {
          return None;
        }
        inspectDone := true;
        if |extra.value| > 0 {
          MergedNotEmpty(all, extra.value);
          all := MergeMountSpecs(all, extra.value);
          mountSpecs := all;
        }
      }
      return Some(SortByLength(all));
    }

    // ---- Mounting ----

    /** ensureMounted. */
    method EnsureMounted() returns (ok: bool)
      requires Valid()
      modifies `mountsActive, `mountSpecs, `inspectDone, `session, session, host
      ensures Valid() && host.log == old(host.log)
      ensures session == old(session) || (old(session) == null && fresh(session))
      ensures old(session) != null ==> session.pid >= old(session.pid)
      ensures ok ==> mountsActive && session != null
      ensures old(inspectDone) ==> inspectDone && mountSpecs == old(mountSpecs)
      ensures ok && old(session) != null && old(mountsActive) && session.pid == old(session.pid) ==>
                SameListener(old(host.live), old(session.pid)) && mountSpecs == old(mountSpecs)
      ensures old(Consistent()) ==> (Consistent() <==> !HalfRestarted())
      ensures old(Consistent()) && ok ==> Consistent()
      ensures old(Consistent()) && host.LaunchesOrDies() ==> Consistent()
      ensures old(session != null && session.launched && mountsActive) ==>
                && ok && host.live == old(host.live) && host.step == old(host.step) && mountSpecs == old(mountSpecs)
                && session == old(session) && session.pid == old(session.pid)
      ensures host.roots == [] ==> mountSpecs == old(mountSpecs)
      ensures EasyGoing(old(Reachable()), old(host.step)) ==>
                && ok && Healthy() && host.step <= old(host.step) + |diskPaths| + 13 + |Effective()|
                && (old(session) != null ==> session.pid == old(session.pid))
    {
      hide SortByLength, SpecsFromDiskInfos, Host.BootWorks, Host.LaunchesOrDies, Host.Obliging;
      ok := EnsureSessionWithRecovery();
      if !ok {
        return;
      }
      if mountsActive {
        return;
      }
      ok := RunMountScript();
    }

    method RunMountScript() returns (ok: bool)
      requires Valid() && session != null && session.launched && !mountsActive
      modifies `mountsActive, `mountSpecs, `inspectDone, host
      ensures Valid() && host.log == old(host.log) && mountsActive == ok && Consistent()
      ensures old(inspectDone) ==> inspectDone && mountSpecs == old(mountSpecs)
      ensures host.roots == [] ==> mountSpecs == old(mountSpecs)
      ensures host.Obliging() && old(Healthy()) && host.roots == [] ==>
                ok && Healthy() && host.step <= old(host.step) + 6 + |Effective()|
    {
      hide Host.Delivered, Host.MountScript, Host.Exec, SortByLength, SpecsFromDiskInfos;
      var specs := EffectiveMountSpecs();
      if specs.None? {
        return false;
      }
      SortIdempotent(if mountSpecs == [] then SpecsFromDiskInfos(diskInfos) else mountSpecs);
      var script := host.MountScript(SortByLength(specs.value));
      ghost var live0, log0, at := host.live, host.log, host.step + 1;
      ok := host.RemoteScript(session.pid, script, false);
      host.DeliveredSilently(live0, log0, at, session.pid, script, false, ok);
      if host.Obliging() && session.pid in live0 && live0[session.pid].ran {
        host.OrdinaryWorks(live0[session.pid], script, at);
      }
      if !ok {
        return;
      }
      host.MountsDelivered(live0, log0, at, session.pid, specs.value, ok);
      mountsActive := true;
    }

    // ---- Commands of callers ----

    /** One attempt at a caller's command. */
    method Attempt(id: nat, needs: seq<MountPlan>) returns (ok: bool)
      requires Valid() && session != null
      modifies host
      ensures Valid() && (old(Consistent()) ==> Consistent()) && (HalfRestarted() ==> old(HalfRestarted()))
      ensures host.log == old(host.log)
              || (session.pid in old(host.live) && host.log == old(host.log) + [Reach(id, needs, old(host.live[session.pid].mounts))])
      ensures ok ==> |host.log| > |old(host.log)|
      ensures old(host.step) <= host.step <= old(host.step) + 2
      ensures session.pid !in old(host.live) ==> !ok && host.live == old(host.live)
      ensures host.Obliging() && old(Healthy()) ==> ok && Healthy()
    {
      hide Host.Delivered, Host.Exec, SortByLength, SpecsFromDiskInfos;
      ghost var live0, log0, at := host.live, host.log, host.step + 1;
      ok := host.RemoteScript(session.pid, [Body(id, needs)], false);
      host.BodyDelivered(live0, log0, at, session.pid, id, needs, ok);
      if host.Obliging() && session.pid in live0 && live0[session.pid].ran {
        host.OrdinaryWorks(live0[session.pid], [Body(id, needs)], at);
      }
    }

    /** withRecovery: a second attempt, after a restart, if the listener died under the first. */
    method WithRecovery(id: nat, needs: seq<MountPlan>) returns (ok: bool)
      requires Valid() && session != null && mountsActive
      modifies `mountsActive, `mountSpecs, `inspectDone, `session, session, host
      ensures Valid() && old(host.log) <= host.log && |host.log| <= |old(host.log)| + 2
      ensures session == old(session) && session.pid >= old(session.pid)
      ensures ok ==> |host.log| > |old(host.log)|
      ensures old(Consistent()) ==> Effective() == old(Effective())
      ensures old(Consistent()) && needs == old(Effective()) ==>
                forall k :: |old(host.log)| <= k < |host.log| ==> host.log[k] == Reach(id, needs, needs)
      ensures old(Consistent()) ==> (Consistent() <==> !HalfRestarted())
      ensures old(Consistent()) && host.LaunchesOrDies() ==> Consistent()
      ensures ok && session.pid == old(session.pid) ==>
                && session.pid in old(host.live)
                && host.log == old(host.log) + [Reach(id, needs, old(host.live[session.pid].mounts))]
      ensures host.Obliging() && old(Healthy()) ==>
                && ok && Healthy() && session.pid == old(session.pid) && host.step <= old(host.step) + 2
                && mountSpecs == old(mountSpecs) && mountsActive
      ensures host.Obliging() && old(session.pid !in host.live) && host.BootFails(old(host.step), old(host.step) + |diskPaths| + 11) ==>
                && !ok && HalfRestarted() && mountSpecs == old(mountSpecs) && host.log == old(host.log)
                && host.step <= old(host.step) + |diskPaths| + 11
      ensures session.pid == old(session.pid) ==> mountSpecs == old(mountSpecs)
    {
      hide SortByLength, SpecsFromDiskInfos, Host.BootWorks, Host.BootFails, Host.LaunchesOrDies;
      ghost var step0 := host.step;
      ok := Attempt(id, needs);
      if ok {
        return;
      }
      var alive := host.SessionAlive(session.pid);
      if alive {
        return false;
      }
      host.Sub(step0, step0 + |diskPaths| + 11, host.step, host.step + |diskPaths| + 8);
      var restarted := TryRestart();
      if !restarted {
        return false;
      }
      var again := EnsureMounted();
      if !again {
        return false;
      }
      ok := Attempt(id, needs);
    }

    /**
     withMounted: a command of a caller, sent a second time if the listener died under the
     first. It never reaches an appliance without the mounts, if the flag could be trusted
     before; afterwards it can be, unless a restart got only half way.
     */
    method WithMounted(id: nat) returns (ok: bool)
      requires Valid()
      modifies `mountsActive, `mountSpecs, `inspectDone, `session, session, host
      ensures Valid() && old(host.log) <= host.log && |host.log| <= |old(host.log)| + 2
      ensures session == old(session) || (old(session) == null && fresh(session))
      ensures ok ==> |host.log| > |old(host.log)|
      ensures old(Consistent()) ==>
                forall k :: |old(host.log)| <= k < |host.log| ==> host.log[k] == Reach(id, Effective(), Effective())
      ensures old(Consistent()) ==> (Consistent() <==> !HalfRestarted())
      ensures old(Consistent()) && host.LaunchesOrDies() ==> Consistent()
      ensures ok && old(session) != null && old(mountsActive) && session.pid == old(session.pid) ==>
                && session.pid in old(host.live) && |host.log| == |old(host.log)| + 1 && mountSpecs == old(mountSpecs)
                && host.log[|old(host.log)|].id == id && host.log[|old(host.log)|].needs == Effective()
                && host.log[|old(host.log)|].mounts in [old(host.live[session.pid].mounts), []]
      ensures EasyGoing(old(Reachable()), old(host.step)) ==>
                && ok && Healthy() && mountsActive && mountSpecs == old(mountSpecs) && |host.log| == |old(host.log)| + 1
                && host.step <= old(host.step) + |diskPaths| + 15 + |Effective()|
                && (old(session) != null ==> session.pid == old(session.pid))
      ensures host.Obliging() && old(session != null && session.launched && mountsActive && session.pid !in host.live)
              && host.BootFails(old(host.step), old(host.step) + |diskPaths| + 11) ==>
                && !ok && HalfRestarted() && mountSpecs == old(mountSpecs) && host.log == old(host.log)
                && host.step <= old(host.step) + |diskPaths| + 11
    {
      hide SortByLength, SpecsFromDiskInfos, Host.BootWorks, Host.BootFails, Host.LaunchesOrDies, Host.Obliging;
      ok := EnsureMounted();
      if !ok {
        return;
      }
      ok := WithRecovery(id, Effective());
    }

    // ---- The other operations ----

    method FilesFine() returns (ok: bool)
      modifies `asked
      ensures ok == filesFine(old(asked)) && asked == old(asked) + 1
    {
      ok := filesFine(asked);
      asked := asked + 1;
    }

    /** Records a mount, the first for its mount point; it is made when next needed. */
    method Mount(device: string, hostMountPoint: string)
      requires Valid()
      modifies `mountSpecs, `mounted, `mountsActive
      ensures Valid() && (old(Consistent()) ==> Consistent())
      ensures var g := GuestMountOf(mountRoot, hostMountPoint);
              if g in Points(old(mountSpecs)) then mountSpecs == old(mountSpecs) && mountsActive == old(mountsActive)
              else mountSpecs == old(mountSpecs) + [MountPlan(device, g)] && mounted && !mountsActive
      ensures DistinctPoints(old(mountSpecs)) ==> DistinctPoints(mountSpecs)
    {
      var guestMount := GuestMountOf(mountRoot, hostMountPoint);
      for i := 0 to |mountSpecs|
        invariant guestMount !in Points(mountSpecs[..i])
        modifies {}
      {
        if mountSpecs[i].mount == guestMount {
          return;
        }
        assert mountSpecs[..i + 1] == mountSpecs[..i] + [mountSpecs[i]];
      }
      assert mountSpecs[..|mountSpecs|] == mountSpecs;
      mountSpecs := mountSpecs + [MountPlan(device, guestMount)];
      mounted := true;
      mountsActive := false;
    }

    /** The flag goes stale exactly if a failed umount-all leaves a live appliance other mounts. */
    method UnmountAll() returns (ok: bool)
      requires Valid()
      modifies `mountSpecs, `mounted, `mountsActive, `session, session, host
      ensures Valid() && host.log == old(host.log)
      ensures session == old(session) || (old(session) == null && fresh(session))
      ensures old(mounted) && ok ==> mountSpecs == [] && !mounted && !mountsActive
                                     && session != null && session.pid in host.live && host.live[session.pid].mounts == []
      ensures old(Consistent()) ==> (!Consistent() <==> TornUnmount(ok))
      ensures old(Consistent()) ==>
                (!Consistent() <==>
                  && !ok && mountsActive && session != null && session.pid in old(host.live) && session.pid in host.live
                  && host.live[session.pid].mounts != old(host.live)[session.pid].mounts)
      ensures old(Consistent()) && host.AtomicUnmounts() ==> Consistent()
    {
      hide Host.AtomicUnmounts, SortByLength, SpecsFromDiskInfos;
      if !mounted {
        return true;
      }
      ok := EnsureSession();
      if !ok {
        return;
      }
      ok := UmountAllScript();
      if !ok {
        return;
      }
      mountSpecs := [];
      mounted := false;
      mountsActive := false;
    }

    method UmountAllScript() returns (ok: bool)
      requires Valid() && session != null
      modifies host
      ensures Valid() && host.log == old(host.log) && host.live.Keys <= old(host.live.Keys)
      ensures session.pid in host.live && old(host.live[session.pid].ran) ==> host.live[session.pid].ran
      ensures session.pid in host.live ==> session.pid in old(host.live)
      ensures ok ==> session.pid in host.live && host.live[session.pid].mounts == []
      ensures host.AtomicUnmounts() && !ok && session.pid in host.live ==> host.live[session.pid] == old(host.live[session.pid])
    {
      hide Host.Delivered, Host.Exec, Host.AtomicUnmounts;
      ghost var live0, log0, at := host.live, host.log, host.step + 1;
      var script := host.MountScript([]);
      ok := host.RemoteScript(session.pid, script, false);
      host.DeliveredSilently(live0, log0, at, session.pid, script, false, ok);
      if ok {
        host.MountsDelivered(live0, log0, at, session.pid, [], ok);
      } else if host.AtomicUnmounts() {
        host.UnmountKept(live0, log0, at, session.pid, ok);
      }
    }

    /** An umount-all failed and left a live appliance with some but not all of its mounts, or others. */
    predicate TornUnmount(ok: bool)
      reads this, host, session
    {
      !ok && mountsActive && session != null && session.pid in host.live && host.live[session.pid].mounts != Effective()
    }

    method ProbeUnmount(hostMountPoint: string) returns (ok: bool)
      modifies `asked, `probeActive
      ensures asked == old(asked) + if hostMountPoint == "" then 0 else 1
      ensures probeActive == old(probeActive) || (probeActive == "" && old(probeActive) == hostMountPoint)
    {
      if hostMountPoint == "" {
        return true;
      }
      ok := FilesFine();
      if probeActive == hostMountPoint {
        probeActive := "";
      }
    }

    /** Looks into a device, taking down all mounts for that. */
    method ProbeMount(device: string, hostMountPoint: string) returns (ok: bool)
      requires Valid()
      modifies `asked, `probeActive, `mountsActive, `session, session, host
      ensures Valid() && host.log == old(host.log) && (old(Consistent()) ==> Consistent())
      ensures session == old(session) || (old(session) == null && fresh(session))
      ensures ok ==> !mountsActive && probeActive == hostMountPoint
      ensures var place := filesFine(old(asked) + if old(probeActive) == "" then 0 else 1);
              mountsActive == (old(mountsActive) && !(place && session != null && session.launched))
    {
      hide Host.Delivered, Host.MountAll, SortByLength, SpecsFromDiskInfos;
      if probeActive != "" {
        var _ := ProbeUnmount(probeActive);
      }
      ok := FilesFine();                  // the directory is there, is cleared, and has its subdirectories
      if !ok {
        return;
      }
      ok := EnsureSession();
      if !ok {
        return;
      }
      var script := [UmountAll, GuestfsHost.Mount(MountPlan(device, "/")), Other, UmountAll];
      ghost var live0, log0, at := host.live, host.log, host.step + 1;
      ok := host.RemoteScript(session.pid, script, true);
      host.DeliveredSilently(live0, log0, at, session.pid, script, true, ok);
      if !ok {
        mountsActive := false;
        return;
      }
      probeActive := hostMountPoint;
      mountsActive := false;
    }

    /** Forgets all mounts, whether or not they could be taken down. */
    method UnmountFilesystems() returns (ok: bool)
      requires Valid()
      modifies `asked, `probeActive, `mountSpecs, `mounted, `mountsActive, host
      ensures Valid() && host.log == old(host.log) && Consistent()
      ensures mountSpecs == [] && !mounted && !mountsActive
      ensures ok && session != null ==> session.pid in host.live && host.live[session.pid].mounts == []
    {
      ok := true;
      if probeActive != "" {
        ok := ProbeUnmount(probeActive);
      }
      if session != null {
        var unmounted := UmountAllScript();
        ok := ok && unmounted;
      }
      mounted := false;
      mountsActive := false;
      mountSpecs := [];
    }

    /** Forgets all mounts and asks again what to mount; the inspection is not made again. */
    method SpecsAfterUnmount() returns (before: Option<seq<MountPlan>>, after: Option<seq<MountPlan>>, ghost found: seq<MountPlan>)
      requires Valid() && session != null && mountSpecs == []
      modifies `asked, `probeActive, `mountSpecs, `mounted, `mountsActive, `inspectDone, host
      ensures before.Some? ==>
                var planned := SpecsFromDiskInfos(diskInfos);
                && (found == [] || exists root <- host.roots :: found == host.tableOf(root))
                && before.value == SortByLength(Merged(planned, found)) && after == Some(SortByLength(planned))
                && (after == before <==> Points(found) <= Points(planned))
    {
      hide SpecsFromDiskInfos, Merged, SortByLength, Points;
      var planned := SpecsFromDiskInfos(diskInfos);
      found := [];
      MergedNothing(planned);
      before := EffectiveMountSpecs();
      if mountSpecs != [] {
        ghost var root :| root in host.roots && mountSpecs == Merged(planned, host.tableOf(root));
        found := host.tableOf(root);
      }
      var _ := UnmountFilesystems();
      InspectionForgottenIff(planned, found);
      after := EffectiveMountSpecs();
    }

    /** Gives up the session. The flag is trusted again only if it was taken back before. */
    method ReleaseDevices()
      requires Valid()
      modifies `session, session, host
      ensures Valid() && host.log == old(host.log) && session == null
      ensures old(Consistent()) ==> (!Consistent() <==> mountsActive)
    {
      if session != null {
        session.Close();
        session := null;
      }
    }

    method Teardown()
      requires Valid()
      modifies `asked, `probeActive, `mountSpecs, `mounted, `mountsActive, `session, session, host
      ensures Valid() && host.log == old(host.log) && Consistent() && session == null && !mountsActive
    {
      var _ := UnmountFilesystems();
      ReleaseDevices();
    }

    // ---- Runs ----

    /**
     A run of operations, up to the first incident that makes the flag go stale. Until then
     a live appliance holds what the flag says, and every command that reached a live
     appliance found there exactly the mounts it was meant to.
     */
    method RunOps(ops: seq<Op>) returns (incident: Option<Incident>)
      requires Valid() && Consistent()
      modifies this, session, host
      ensures Valid() && old(host.log) <= host.log && |host.log| <= |old(host.log)| + 2 * |ops|
      ensures forall k :: |old(host.log)| <= k < |host.log| ==> host.log[k].mounts == host.log[k].needs
      ensures match incident
              case None => Consistent()
              case Some(HalfRestart) => HalfRestarted()
              case Some(TornUmount) => TornUnmount(false)
              case Some(ReleasedEarly) => session == null && mountsActive
      ensures host.LaunchesOrDies() && host.AtomicUnmounts() && ReleasedAfterUnmount(ops) ==> incident.None?
    {
      hide SortByLength, SpecsFromDiskInfos, GuestMountOf, Points, DistinctPoints, Host.LaunchesOrDies, Host.AtomicUnmounts, Host.Obliging;
      for i := 0 to |ops|
        invariant Valid() && Consistent() && (session == old(session) || session == null || fresh(session))
        invariant old(host.log) <= host.log && |host.log| <= |old(host.log)| + 2 * i
        invariant forall k :: |old(host.log)| <= k < |host.log| ==> host.log[k].mounts == host.log[k].needs
        invariant i > 0 && Unmounts(ops[i - 1]) ==> !mountsActive
      {
        match ops[i] {
          case MountOp(device, point) => Mount(device, point);
          case ProbeOp(device, point) => var _ := ProbeMount(device, point);
          case CommandOp(id) =>
            var _ := WithMounted(id);
            if HalfRestarted() {
              return Some(HalfRestart);
            }
          case UnmountAllOp =>
            var ok := UnmountAll();
            if TornUnmount(ok) {
              return Some(TornUmount);
            }
          case UnmountFilesystemsOp => var _ := UnmountFilesystems();
          case ReleaseOp =>
            ReleaseDevices();
            if mountsActive {
              return Some(ReleasedEarly);
            }
          case TeardownOp => Teardown();
        }
      }
      return None;
    }

    /**
     What becomes of a command after half a restart: unless the new listener dies in turn,
     the command succeeds on an appliance where nothing is mounted.
     */
    method CommandAfterHalfRestart(id: nat) returns (ok: bool)
      requires Valid() && HalfRestarted()
      modifies `mountsActive, `mountSpecs, `inspectDone, `session, session, host
      ensures old(host.log) <= host.log
      ensures ok && session == old(session) && session.pid == old(session.pid) ==>
                |host.log| == |old(host.log)| + 1 && host.log[|old(host.log)|].mounts == []
      ensures EasyGoing(true, old(host.step)) ==>
                && ok && |host.log| == |old(host.log)| + 1
                && host.log[|old(host.log)|] == Reach(id, Effective(), []) && mountSpecs == old(mountSpecs)
    {
      hide SortByLength, SpecsFromDiskInfos, Host.BootWorks, Host.Obliging;
      ok := WithMounted(id);
    }

    /** Nothing happens on an obliging host until the step is reached. */
    method Wait(until: nat)
      requires Valid() && host.Obliging() && host.step <= until
      modifies host`step, host`live
      ensures Valid() && host.step == until && host.live == old(host.live)
    {
      while host.step < until
        invariant Valid() && host.step <= until && host.live == old(host.live)
      {
        var _ := host.SessionAlive(0);
      }
    }
  }

  // ---- A run with half a restart in it ----

  /** A backend with one disk and no shared listener, on a host that obliges but for one time when nothing starts. */
  ghost predicate Scene(b: Backend)
    reads b, b.host, b.session
  {
    && b.Valid() && b.envPid.None? && |b.diskPaths| == 1 && b.mountSpecs == [] && |b.Effective()| == 1
    && b.host.Obliging() && b.host.roots == []
    && b.host.BootWorks(0, 100) && b.host.BootFails(100, 200) && b.host.BootWorks(200, 300)
  }

  /** A first command works and finds its mount; then the listener dies. */
  method FirstAct(b: Backend)
    requires Scene(b) && b.Consistent() && b.session == null && b.host.step == 0 && b.host.log == []
    modifies b, b.host
    ensures Scene(b) && b.session != null && fresh(b.session) && b.host.step == 100
    ensures b.session.launched && b.mountsActive && b.session.pid !in b.host.live
    ensures b.host.log == [Reach(0, b.Effective(), b.Effective())]
  {
    hide SortByLength, SpecsFromDiskInfos, Host.BootWorks, Host.BootFails, Host.Obliging;
    b.host.Sub(0, 100, 0, 8);
    var ok := b.WithMounted(0);
    assert |b.host.log| >= 1;
    b.Wait(100);
    b.host.Stop(b.session.pid);
  }

  /** The second command gets a new listener, whose appliance does not start in time, and fails. */
  method SecondAct(b: Backend)
    requires Scene(b) && b.session != null && b.host.step == 100
    requires b.session.launched && b.mountsActive && b.session.pid !in b.host.live
    modifies b, b.session, b.host
    ensures Scene(b) && b.session == old(b.session) && b.host.step == 200 && b.HalfRestarted() && b.host.log == old(b.host.log)
  {
    hide SortByLength, SpecsFromDiskInfos, Host.BootWorks, Host.BootFails, Host.Obliging;
    b.host.Sub(100, 200, 100, 112);
    var ok := b.WithMounted(1);
    b.Wait(200);
  }

  /**
   A first command works and finds its mount; the listener dies; the second gets a new one,
   whose appliance does not start in time, and fails; and the third works, on an appliance
   where nothing is mounted.
   */
  method HalfRestartRun() returns (host: Host, b: Backend)
    ensures fresh(host) && fresh(b)
    ensures var plans := [MountPlan("/dev/sda1", "/")];
            host.log == [Reach(0, plans, plans), Reach(2, plans, [])]
  {
    hide SortByLength, SpecsFromDiskInfos, Host.BootWorks, Host.BootFails, Host.Obliging;
    var boot: nat -> Fate := at => if 100 <= at < 200 then Fails else Works;
    host := new Host(_ => Works, boot, (_, ms) => ms, _ => [], _ => false, [], _ => [], map[], 1);
    b := new Backend(host, None, ["/disk.img"], "/mnt/v2v", [DiskInfo([Partition("/dev/sda1", "/", "ext4")])], _ => true);
    BootPhases(host);
    OneMount(b);
    FirstAct(b);
    SecondAct(b);
    b.host.Sub(200, 300, 200, 208);
    var ok := b.CommandAfterHalfRestart(2);
  }

  lemma BootPhases(host: Host)
    requires forall at: nat :: host.boot(at) == if 100 <= at < 200 then Fails else Works
    requires forall at: nat :: host.fate(at) == Works && !host.drifts(at)
    ensures host.Obliging() && host.BootWorks(0, 100) && host.BootFails(100, 200) && host.BootWorks(200, 300)
  {
  }

  lemma OneMount(b: Backend)
    requires b.diskInfos == [DiskInfo([Partition("/dev/sda1", "/", "ext4")])] && b.mountSpecs == []
    ensures b.Effective() == [MountPlan("/dev/sda1", "/")]
  {
    var p := Partition("/dev/sda1", "/", "ext4");
    assert [p][1..] == [] && [DiskInfo([p])][1..] == [];
    assert PartitionPlans([p]) == [MountPlan("/dev/sda1", "/")];
    assert DiskPlans([DiskInfo([p])]) == [MountPlan("/dev/sda1", "/")];
    assert [MountPlan("/dev/sda1", "/")][1..] == [];
  }

  datatype Op =
    | MountOp(device: string, hostMountPoint: string)
    | ProbeOp(device: string, hostMountPoint: string)
    | CommandOp(id: nat)
    | UnmountAllOp
    | UnmountFilesystemsOp
    | ReleaseOp
    | TeardownOp

  /** Operations after which nothing is believed mounted, whatever became of them. */
  predicate Unmounts(op: Op)
  {
    op.UnmountFilesystemsOp? || op.TeardownOp?
  }

  /** Devices are given up only right after the file systems were unmounted. */
  predicate ReleasedAfterUnmount(ops: seq<Op>)
  {
    forall i :: 0 <= i < |ops| && ops[i].ReleaseOp? ==> i > 0 && Unmounts(ops[i - 1])
  }

  datatype Incident = HalfRestart | TornUmount | ReleasedEarly
}
