/**
 The guestfs backend's session with a guestfish listener: launching its appliance, replacing a
 listener that died, and giving the listener up.
 */
module GuestfsSession {
  import opened GuestfsHost

  class GuestfishSession {
    const host: Host
    var pid: nat
    var ownedExternally: bool
    var launched: bool

    constructor (host: Host, pid: nat, ownedExternally: bool)
      ensures this.host == host && this.pid == pid && this.ownedExternally == ownedExternally && !launched
    {
      this.host, this.pid, this.ownedExternally, launched := host, pid, ownedExternally, false;
    }

    /** A session said to be launched is, while it lives. */
    predicate Valid()
      reads this, host`live, host`nextPid
    {
      host.Valid() && pid < host.nextPid && (launched && pid in host.live ==> host.live[pid].ran)
    }

    method ProbeReady() returns (ready: bool)
      requires Valid()
      modifies host`step, host`live, host`log
      ensures Valid() && host.log == old(host.log) && old(host.step) <= host.step <= old(host.step) + 2
      ensures host.live == old(host.live) || host.live == old(host.live) - {pid}
      ensures ready ==> pid in host.live && host.live[pid].ran
      ensures host.LaunchesOrDies() && !ready && pid in host.live ==> !host.live[pid].ran
      ensures host.Obliging() && pid in old(host.live) ==>
                && host.live == old(host.live)
                && (host.BootWorks(old(host.step), old(host.step) + 2) ==> (ready <==> host.live[pid].ran))
                && (host.BootFails(old(host.step), old(host.step) + 2) ==> !ready)
    {
      hide Host.Delivered;
      ghost var live0, log0, at := host.live, host.log, host.step + 1;
      ready := host.RemoteScript(pid, [ListDevices], false);
      host.ProbeDelivered(live0, log0, at, pid, ready);
      if pid in live0 {
        host.ProbeTells(live0[pid], at);
        assert pid in host.live ==> host.live == live0;
      }
    }

    method LaunchScript(diskPaths: seq<string>) returns (script: seq<Command>)
      ensures |script| == |diskPaths| + 1 && host.IsLaunch(script) && host.Silent(script) && host.Launches(script)
    {
      script := [];
      for i := 0 to |diskPaths|
        modifies {}
        invariant |script| == i && forall k :: 0 <= k < i ==> script[k].AddDrive?
      {
        script := script + [AddDrive(diskPaths[i])];
      }
      script := script + [Launch];
    }

    /** Launches the appliance unless that was done; other listeners are left alone. */
    method EnsureLaunched(diskPaths: seq<string>) returns (ok: bool)
      requires Valid()
      modifies this`launched, host`step, host`live, host`log
      ensures Valid() && launched == ok && host.log == old(host.log) && host.live.Keys <= old(host.live.Keys)
      ensures old(host.step) <= host.step <= old(host.step) + |diskPaths| + 6
      ensures old(launched) ==> ok && host.live == old(host.live) && host.step == old(host.step)
      ensures ok && !old(launched) ==> pid in host.live
      ensures pid in host.live ==> host.live[pid].mounts == old(host.live[pid].mounts) || host.live[pid].mounts == []
      ensures forall p <- host.live :: p != pid ==> host.live[p] == old(host.live[p])
      ensures host.LaunchesOrDies() && !ok ==> pid !in host.live
      ensures host.Obliging() && pid in old(host.live) ==> pid in host.live
      ensures host.Obliging() && pid in old(host.live) ==>
                && (host.BootWorks(old(host.step), old(host.step) + |diskPaths| + 6) ==> ok)
                && (!old(launched) && host.BootFails(old(host.step), old(host.step) + |diskPaths| + 6) ==> !ok)
    {
      hide Host.Delivered, Host.BootWorks, Host.BootFails, Host.LaunchesOrDies, Host.IsLaunch, Host.Silent, Host.Launches;
      ghost var step0 := host.step;
      ghost var until := step0 + |diskPaths| + 6;
      if launched {
        return true;
      }
      host.Sub(step0, until, host.step, host.step + 2);
      var ready := ProbeReady();
      if ready {
        launched := true;
        return true;
      }
      var script := LaunchScript(diskPaths);
      ghost var live0, log0, at := host.live, host.log, host.step + 1;
      host.Sub(step0, until, at, at + |script|);
      var fine := host.RemoteScript(pid, script, false);
      host.DeliveredSilently(live0, log0, at, pid, script, false, fine);
      host.LaunchDelivered(live0, log0, at, pid, script, false, fine);
      host.FineLaunch(live0, log0, at, pid, script, fine);
      if pid in live0 {
        host.LaunchOutcome(live0[pid], script, at);
        if host.Obliging() {
          host.ObligingSurvives(live0[pid], script, at);
        }
      }
      if !fine {
        return false;
      }
      host.Sub(step0, until, host.step, host.step + 2);
      ready := ProbeReady();
      launched := ready;
      ok := ready;
    }

    /**
     Replaces a session that died. If no new listener starts it stays dead and is still said
     to be launched; if one starts but its appliance does not, it is not.
     */
    method Restart(diskPaths: seq<string>) returns (ok: bool)
      requires Valid()
      modifies this, host
      ensures Valid() && host.log == old(host.log) && host.nextPid >= old(host.nextPid)
      ensures old(host.step) <= host.step <= old(host.step) + |diskPaths| + 7
      ensures ok ==> launched && pid == old(host.nextPid) && pid in host.live
      ensures !ok ==> (pid == old(pid) && pid !in host.live && launched == old(launched))
                      || (pid == old(host.nextPid) && !launched)
      ensures pid in host.live ==> host.live[pid].mounts == []
      ensures host.LaunchesOrDies() && !ok ==> pid !in host.live
      ensures host.Obliging() && host.BootFails(old(host.step), old(host.step) + |diskPaths| + 7) ==> !ok && !launched && pid in host.live
    {
      hide Host.BootFails, Host.BootWorks, Host.LaunchesOrDies;
      ghost var step0 := host.step;
      host.Stop(pid);
      var started := host.StartListen();
      if started.None? {
        return false;
      }
      pid := started.value;
      launched := false;
      ownedExternally := false;
      host.Sub(step0, step0 + |diskPaths| + 7, host.step, host.step + |diskPaths| + 6);
      ok := EnsureLaunched(diskPaths);
    }

    method Close()
      requires Valid()
      modifies this, host`live
      ensures host.Valid() && pid == 0
      ensures host.live == if old(ownedExternally) then old(host.live) else old(host.live) - {old(pid)}
    {
      if pid == 0 {
        return;
      }
      if ownedExternally {
        pid := 0;
        return;
      }
      host.Stop(pid);
      pid := 0;
      launched := false;
    }
  }
}
