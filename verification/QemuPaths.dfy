/** How the qemu backend maps guest and host mount paths to paths inside the appliance. */
module QemuPaths {
  import opened Text
  import opened Paths

  const APPLIANCE_ROOT: string := "/mnt/guest"

  function TrimPrefix(s: string, prefix: string): string
  {
    if prefix <= s then s[|prefix|..] else s
  }

  function HostMountFromGuest(mountRoot: string, guestMount: string): string
  {
    if guestMount == "/" || guestMount == "" then mountRoot
    else
      var confined := Clean("/" + guestMount);
      var rel := TrimPrefix(confined, "/");
      if rel == "" then mountRoot else JoinPath(mountRoot, rel)
  }

  function ApplianceMountPath(mountRoot: string, hostMountPoint: string): string
  {
    if hostMountPoint == mountRoot || mountRoot == "" then APPLIANCE_ROOT
    else
      match Rel(mountRoot, hostMountPoint)
      case None => APPLIANCE_ROOT
      case Some(rel) => if rel == "." then APPLIANCE_ROOT else JoinPath(APPLIANCE_ROOT, rel)
  }

  function GuestToAppliance(guestPath: string): string
  {
    JoinPath(APPLIANCE_ROOT, Clean("/" + guestPath))
  }

  /** The names a guest path goes through, with every way above the guest's root cut off. */
  function GuestParts(guestPath: string): seq<string>
  {
    Parts("/" + guestPath)
  }

  /** The appliance path of a file reached from the guest's root through the given names. */
  function Below(cs: seq<string>): string
  {
    "/" + Join(["mnt", "guest"] + cs, '/')
  }

  lemma ApplianceRootParts()
    ensures Rooted(APPLIANCE_ROOT) && Parts(APPLIANCE_ROOT) == ["mnt", "guest"]
    ensures AllNormal(["mnt", "guest"]) && APPLIANCE_ROOT == Below([])
  {
    var cs := ["mnt", "guest"];
    assert cs[1..] == ["guest"];
    assert "/" + Join(cs, '/') == "/mnt/guest";
    PartsOfAbsolute(cs);
    assert cs + [] == cs;
  }

  lemma JoinBelow(cs: seq<string>)
    requires AllNormal(cs) && cs != []
    ensures JoinPath(APPLIANCE_ROOT, Join(cs, '/')) == Below(cs)
  {
    ApplianceRootParts();
    JoinNames(APPLIANCE_ROOT, cs);
  }

  /** Going on from a place through an absolute path of names leads to those names below it. */
  lemma ResolveBelow(cs: seq<string>, onto: seq<string>)
    requires AllNormal(cs)
    ensures Resolve(Split("/" + Join(cs, '/'), '/'), true, onto) == onto + cs
  {
    hide Join, Split;
    var j := Join(cs, '/');
    assert "" + ['/'] + j == "/" + j;
    SplitAppend("", j, '/');
    SplitNone("", '/');
    assert ([""] + Split(j, '/'))[1..] == Split(j, '/');
    if cs == [] {
      assert j == "" by { NothingJoined(); }
      assert [""][1..] == [] && onto + [] == onto;
    } else {
      SplitJoin(cs, '/');
      ResolveNormal(cs, true, onto);
    }
  }

  lemma NothingJoined()
    ensures Join([], '/') == ""
  {
  }

  lemma GuestToApplianceBelow(guestPath: string)
    ensures AllNormal(GuestParts(guestPath)) && GuestToAppliance(guestPath) == Below(GuestParts(guestPath))
  {
    hide Join, Split, Resolve, Normal;
    var cs := GuestParts(guestPath);
    RootedParts("/" + guestPath);
    ApplianceRootParts();
    var confined := "/" + Join(cs, '/');
    PartsOfJoin(APPLIANCE_ROOT, confined);
    RootedParts(APPLIANCE_ROOT + "/" + confined);
    ResolveBelow(cs, ["mnt", "guest"]);
  }

  /** The host mount point names the guest's names below the mount root. */
  lemma HostMountNames(mountRoot: string, guestMount: string)
    requires Rooted(mountRoot)
    ensures var cs := GuestParts(guestMount);
            && AllNormal(cs) && AllNormal(Parts(mountRoot) + cs)
            && HostMountFromGuest(mountRoot, guestMount) ==
                 if cs == [] then mountRoot else "/" + Join(Parts(mountRoot) + cs, '/')
  {
    var cs := GuestParts(guestMount);
    RootedParts("/" + guestMount);
    RootedParts(mountRoot);
    if guestMount == "" {
      assert "/" + guestMount == "/";
      assert cs == [] by { PartsOfAbsolute([]); }
    } else if guestMount == "/" {
      SplitAppend("", "/", '/');
      assert "" + ['/'] + "/" == "/" + guestMount;
      assert Split("/", '/') == ["", ""];
      assert ([""] + ["", ""])[1..] == ["", ""] && ["", ""][1..] == [""] && [""][1..] == [];
      assert Resolve(["", ""], true, []) == Resolve([""], true, []) == Resolve([], true, []) == [];
      assert cs == Resolve([""] + ["", ""], true, []) == Resolve(["", ""], true, []);
    } else if cs != [] {
      assert Join(cs, '/') != "" by { assert cs[0] != ""; }
      assert TrimPrefix("/" + Join(cs, '/'), "/") == Join(cs, '/');
      JoinNames(mountRoot, cs);
    }
  }

  /**
   For every guest path and every absolute mount root, going through the host mount point
   leads to the same place in the appliance as mapping the guest path itself.
   */
  lemma RebaseAgrees(mountRoot: string, guestMount: string)
    requires Rooted(mountRoot)
    ensures ApplianceMountPath(mountRoot, HostMountFromGuest(mountRoot, guestMount)) == GuestToAppliance(guestMount)
  {
    var cs := GuestParts(guestMount);
    HostMountNames(mountRoot, guestMount);
    GuestToApplianceBelow(guestMount);
    ApplianceRootParts();
    if cs != [] {
      RelBelow(mountRoot, cs);
      assert Join(cs, '/') != "." by { JoinIsNotDot(cs); }
      JoinBelow(cs);
      var host := "/" + Join(Parts(mountRoot) + cs, '/');
      PartsOfAbsolute(Parts(mountRoot) + cs);
      assert |Parts(mountRoot) + cs| != |Parts(mountRoot)|;
      assert host != mountRoot;
    }
  }

  lemma JoinIsNotDot(cs: seq<string>)
    requires AllNormal(cs) && cs != []
    ensures Join(cs, '/') != "."
  {
    if |cs| > 1 {
      assert cs[0] <= Join(cs, '/') && |Join(cs, '/')| > |cs[0]|;
    }
  }

  /** No guest path, however many ".." it holds, leads out of the guest's tree. */
  lemma GuestPathsConfined(guestPath: string)
    ensures PathUnderRoot(APPLIANCE_ROOT, GuestToAppliance(guestPath))
  {
    GuestToApplianceBelow(guestPath);
    ApplianceRootParts();
    UnderRootIff(APPLIANCE_ROOT, GuestParts(guestPath));
  }

  /**
   The host mount point passes the check that it is under the mount root, except when the
   mount root is "/" itself: then every mount point but the root's own is refused.
   */
  lemma HostMountUnderRootIff(mountRoot: string, guestMount: string)
    requires Rooted(mountRoot)
    ensures PathUnderRoot(mountRoot, HostMountFromGuest(mountRoot, guestMount))
       <==> Clean(mountRoot) != "/" || GuestParts(guestMount) == []
  {
    var cs := GuestParts(guestMount);
    HostMountNames(mountRoot, guestMount);
    RootedParts(mountRoot);
    assert Clean(mountRoot) == "/" <==> Parts(mountRoot) == [] by {
      if Parts(mountRoot) != [] {
        assert Parts(mountRoot)[0] != "";
      }
    }
    if cs == [] {
      assert Parts(mountRoot) + cs == Parts(mountRoot);
    } else {
      UnderRootIff(mountRoot, cs);
    }
  }
}
