/**
 The qemu backend's table of eager mounts against the mounts that are live in the appliance:
 mounting, unmounting in reverse with refusals kept, remounting a recorded plan, and adopting
 the mounts of an earlier stage.
 */
module QemuMounts {
  import opened Results
  import opened Text
  import opened Paths
  import opened QemuPaths
  import opened MountPlans

  datatype MountEntry = MountEntry(device: string, target: string)

  datatype MountError = Conflict | MkdirFailed | MountFailed | Escapes

  // ---- Tables of mounts ----

  predicate StrictlyUnder(p: string, q: string)
  {
    q + "/" <= p
  }

  function Targets(ms: seq<MountEntry>): set<string>
  {
    set m | m in ms :: m.target
  }

  function Entries(ms: seq<MountEntry>): set<MountEntry>
  {
    set m | m in ms
  }

  predicate DistinctTargets(ms: seq<MountEntry>)
  {
    forall i, j :: 0 <= i < j < |ms| ==> ms[i].target != ms[j].target
  }

  /** Nothing was mounted at a place that a later mount of a directory above it hides. */
  predicate Nested(ms: seq<MountEntry>)
  {
    forall i, j :: 0 <= i < j < |ms| ==> !StrictlyUnder(ms[i].target, ms[j].target)
  }

  /** The mounts whose targets are in s, in order. */
  function Kept(ms: seq<MountEntry>, s: set<string>): (r: seq<MountEntry>)
    ensures forall m :: m in r <==> m in ms && m.target in s
  {
    if ms == [] then []
    else if ms[0].target in s then [ms[0]] + Kept(ms[1..], s)
    else Kept(ms[1..], s)
  }

  lemma {:induction false} KeptAll(ms: seq<MountEntry>, s: set<string>)
    requires Targets(ms) <= s
    ensures Kept(ms, s) == ms
  {
    if ms != [] {
      assert forall m :: m in ms[1..] ==> m in ms;
      assert Targets(ms[1..]) <= Targets(ms);
      assert ms[0] in ms && ms[0].target in Targets(ms);
      KeptAll(ms[1..], s);
    }
  }

  lemma {:induction false} KeptTwice(ms: seq<MountEntry>, s: set<string>, t: set<string>)
    ensures Kept(Kept(ms, s), t) == Kept(ms, s * t)
  {
    if ms != [] {
      KeptTwice(ms[1..], s, t);
      if ms[0].target in s {
        assert Kept(ms, s)[1..] == Kept(ms[1..], s);
      }
    }
  }

  lemma {:induction false} KeptOrder(ms: seq<MountEntry>, s: set<string>)
    ensures DistinctTargets(ms) ==> DistinctTargets(Kept(ms, s))
    ensures Nested(ms) ==> Nested(Kept(ms, s))
  {
    hide DistinctTargets, Nested;
    if ms != [] {
      var rest := Kept(ms[1..], s);
      KeptOrder(ms[1..], s);
      assert forall m <- rest :: m in ms[1..];
      assert [ms[0]] + ms[1..] == ms;
      DistinctCons(ms[0], ms[1..]);
      DistinctCons(ms[0], rest);
      NestedCons(ms[0], ms[1..]);
      NestedCons(ms[0], rest);
    } else {
      assert Kept(ms, s) == ms;
    }
  }

  lemma DistinctCons(m: MountEntry, rest: seq<MountEntry>)
    ensures DistinctTargets([m] + rest) <==> DistinctTargets(rest) && forall r <- rest :: m.target != r.target
  {
    var ms := [m] + rest;
    if DistinctTargets(ms) {
      forall i, j | 0 <= i < j < |rest| ensures rest[i].target != rest[j].target {
        assert ms[i + 1] == rest[i] && ms[j + 1] == rest[j];
      }
      forall r <- rest ensures m.target != r.target {
        var i :| 0 <= i < |rest| && rest[i] == r;
        assert ms[0] == m && ms[i + 1] == r;
      }
    }
  }

  lemma NestedCons(m: MountEntry, rest: seq<MountEntry>)
    ensures Nested([m] + rest) <==> Nested(rest) && forall r <- rest :: !StrictlyUnder(m.target, r.target)
  {
    hide StrictlyUnder;
    var ms := [m] + rest;
    if Nested(ms) {
      forall i, j | 0 <= i < j < |rest| ensures !StrictlyUnder(rest[i].target, rest[j].target) {
        assert ms[i + 1] == rest[i] && ms[j + 1] == rest[j];
      }
      forall r <- rest ensures !StrictlyUnder(m.target, r.target) {
        var i :| 0 <= i < |rest| && rest[i] == r;
        assert ms[0] == m && ms[i + 1] == r;
      }
    }
  }

  /** Two tables list the same mounts, each target once, perhaps in different orders. */
  predicate SameMounts(a: seq<MountEntry>, b: seq<MountEntry>)
  {
    DistinctTargets(a) && DistinctTargets(b) && Entries(a) == Entries(b)
  }

  lemma SameMountsSnoc(a: seq<MountEntry>, b: seq<MountEntry>, e: MountEntry)
    requires SameMounts(a, b) && e.target !in Targets(a)
    ensures SameMounts(a + [e], b + [e])
  {
    forall m <- b ensures m in a {
      assert m in Entries(b);
    }
    assert forall m <- a :: m.target in Targets(a);
    assert Entries(a + [e]) == Entries(a) + {e};
    assert Entries(b + [e]) == Entries(b) + {e};
  }

  lemma OneEntryPerTarget(a: seq<MountEntry>, b: seq<MountEntry>, i: nat, e: MountEntry)
    requires SameMounts(a, b) && i < |a| && a[i].target == e.target && a[i] != e
    ensures e !in a
  {
  }

  // ---- The appliance's kernel ----

  /**
   A mount cannot be undone when there is none at its target, when a later mount sits below
   it, or when a later mount of a directory above it hides it.
   */
  predicate Blocked(live: seq<MountEntry>, target: string)
  {
    || target !in Targets(live)
    || exists i, j :: 0 <= i < j < |live| && live[i].target == target
         && (StrictlyUnder(live[j].target, target) || StrictlyUnder(target, live[j].target))
  }

  /** The appliance: any command may fail, as fine says of each call in turn. */
  class ApplianceKernel {
    const fine: nat -> bool
    var calls: nat
    var live: seq<MountEntry>

    constructor (fine: nat -> bool, live: seq<MountEntry>)
      ensures this.fine == fine && calls == 0 && this.live == live
    {
      this.fine, calls, this.live := fine, 0, live;
    }

    method Mkdir(target: string) returns (ok: bool)
      modifies this
      ensures ok == fine(old(calls)) && calls == old(calls) + 1 && live == old(live)
    {
      ok := fine(calls);
      calls := calls + 1;
    }

    method Mount(device: string, target: string) returns (ok: bool)
      modifies this
      ensures ok == fine(old(calls)) && calls == old(calls) + 1
      ensures live == old(live) + if ok then [MountEntry(device, target)] else []
    {
      ok := fine(calls);
      calls := calls + 1;
      if ok {
        live := live + [MountEntry(device, target)];
      }
    }

    method Umount(target: string) returns (ok: bool)
      modifies this
      ensures ok == (fine(old(calls)) && !Blocked(old(live), target)) && calls == old(calls) + 1
      ensures live == if ok then Kept(old(live), Targets(old(live)) - {target}) else old(live)
    {
      ok := fine(calls) && !Blocked(live, target);
      calls := calls + 1;
      if ok {
        live := Kept(live, Targets(live) - {target});
      }
    }
  }

  lemma SameTargets(a: seq<MountEntry>, b: seq<MountEntry>)
    requires SameMounts(a, b)
    ensures Targets(a) == Targets(b) && DistinctTargets(a)
  {
    assert forall m <- a :: m in Entries(a);
    assert forall m <- b :: m in Entries(b);
  }

  lemma EmptyTable(s: set<string>)
    ensures Targets([]) == {} && Kept([], s) == []
  {
  }

  lemma TargetsAround(ms: seq<MountEntry>, i: nat)
    requires i < |ms| && DistinctTargets(ms)
    ensures Targets(ms[..i + 1]) == Targets(ms[..i]) + {ms[i].target}
    ensures Targets(ms[i..]) == {ms[i].target} + Targets(ms[i + 1..])
    ensures ms[i].target !in Targets(ms[..i]) && ms[i].target !in Targets(ms[i + 1..])
  {
    assert ms[..i + 1] == ms[..i] + [ms[i]];
    assert ms[i..] == [ms[i]] + ms[i + 1..];
  }

  /**
   Taking down the table's last remaining entry is never blocked, if the table and the live
   mounts are in the same order or both have parents before children.
   */
  lemma NotBlocked(table: seq<MountEntry>, live: seq<MountEntry>, i: nat)
    requires SameMounts(table, live) && i < |table|
    requires table == live || (Nested(table) && Nested(live))
    ensures !Blocked(Kept(live, Targets(table[..i + 1])), table[i].target)
  {
    hide Kept, Nested, StrictlyUnder, Targets;
    var now := Kept(live, Targets(table[..i + 1]));
    var e := table[i];
    assert e in Entries(table) && e in live;
    TargetsAround(table, i);
    assert e in now;
    if table == live {
      KeptPrefix(table, i + 1);
      assert now == table[..i + 1];
      LastNotBlocked(table[..i + 1]);
    } else {
      KeptOrder(live, Targets(table[..i + 1]));
      NestedNotBlocked(table, now, i);
    }
  }

  /** A place that is taken down before one below it is blocked by that one, if the live mounts have parents first. */
  lemma ChildBlocks(table: seq<MountEntry>, live: seq<MountEntry>, s: set<string>, child: nat, parent: nat)
    requires SameMounts(table, live) && Nested(live) && child < |table| && parent < |table|
    requires StrictlyUnder(table[child].target, table[parent].target)
    requires table[child].target in s && table[parent].target in s
    ensures Blocked(Kept(live, s), table[parent].target)
  {
    hide Kept, StrictlyUnder;
    var now, c, p := Kept(live, s), table[child], table[parent];
    assert c in Entries(table) && p in Entries(table) && c in live && p in live;
    assert c in now && p in now;
    KeptOrder(live, s);
    var a :| 0 <= a < |now| && now[a] == c;
    var b :| 0 <= b < |now| && now[b] == p;
    if a == b {
      NotUnderItself(c.target);
    }
    assert b < a;
  }

  lemma NotUnderItself(p: string)
    ensures !StrictlyUnder(p, p)
  {
    assert |p + "/"| > |p|;
  }

  /** A child's mount at i and its parent's at j, if the table has such a pair in that order. */
  ghost predicate Inverted(table: seq<MountEntry>, i: nat, j: nat)
  {
    i < j < |table| && StrictlyUnder(table[i].target, table[j].target)
  }

  lemma NestedOrInverted(table: seq<MountEntry>) returns (i: nat, j: nat)
    ensures Nested(table) || Inverted(table, i, j)
  {
    hide StrictlyUnder;
    i, j := 0, 0;
    if !Nested(table) {
      var a, b :| 0 <= a < b < |table| && StrictlyUnder(table[a].target, table[b].target);
      i, j := a, b;
    }
  }

  lemma LastNotBlocked(ms: seq<MountEntry>)
    requires DistinctTargets(ms) && ms != []
    ensures !Blocked(ms, ms[|ms| - 1].target)
  {
    hide StrictlyUnder;
    assert ms[|ms| - 1] in ms;
  }

  lemma NestedNotBlocked(table: seq<MountEntry>, now: seq<MountEntry>, i: nat)
    requires i < |table| && Nested(table) && Nested(now) && DistinctTargets(now) && table[i] in now
    requires forall m <- now :: m.target in Targets(table[..i + 1])
    ensures !Blocked(now, table[i].target)
  {
    hide StrictlyUnder;
    var e := table[i];
    forall a, b | 0 <= a < b < |now| && now[a].target == e.target
      ensures !StrictlyUnder(now[b].target, e.target) && !StrictlyUnder(e.target, now[b].target)
    {
      assert now[b] in now;
      var m :| m in table[..i + 1] && m.target == now[b].target;
      var k :| 0 <= k < i + 1 && table[..i + 1][k] == m;
      assert k != i;
    }
  }

  lemma StillToCome(ms: seq<MountEntry>, i: nat, j: nat)
    requires Inverted(ms, i, j)
    ensures ms[i].target in Targets(ms[..j + 1]) && ms[j].target in Targets(ms[..j + 1])
    ensures StrictlyUnder(ms[i].target, ms[j].target)
  {
    hide StrictlyUnder;
    assert ms[..j + 1][i] == ms[i] && ms[..j + 1][j] == ms[j];
  }

  lemma KeptNothing(ms: seq<MountEntry>)
    ensures Kept(ms, {}) == []
  {
    KeptNone(ms, {});
  }

  lemma {:induction false} KeptNone(ms: seq<MountEntry>, s: set<string>)
    requires Targets(ms) !! s
    ensures Kept(ms, s) == []
  {
    if ms != [] {
      assert ms[0].target in Targets(ms);
      assert forall m :: m in ms[1..] ==> m in ms;
      KeptNone(ms[1..], s);
    }
  }

  lemma {:induction false} KeptSame(ms: seq<MountEntry>, s: set<string>, t: set<string>)
    requires forall m <- ms :: m.target in s <==> m.target in t
    ensures Kept(ms, s) == Kept(ms, t)
  {
    if ms != [] {
      assert forall m :: m in ms[1..] ==> m in ms;
      KeptSame(ms[1..], s, t);
    }
  }

  /** What an unmount leaves of mounts that were already thinned out. */
  lemma UmountDrops(live: seq<MountEntry>, s: set<string>, target: string)
    ensures Kept(Kept(live, s), Targets(Kept(live, s)) - {target}) == Kept(live, s - {target})
  {
    var now := Kept(live, s);
    KeptTwice(live, s, Targets(now) - {target});
    forall m <- live
      ensures m.target in s * (Targets(now) - {target}) <==> m.target in s - {target}
    {
      if m.target in s {
        assert m in now;
      }
    }
    KeptSame(live, s * (Targets(now) - {target}), s - {target});
  }

  /** What is still mounted after entry i was tried, as it went or stayed. */
  lemma OneDown(table: seq<MountEntry>, live: seq<MountEntry>, i: nat, stuck: set<string>)
    requires i < |table| && DistinctTargets(table) && stuck <= Targets(table[i + 1..])
    ensures var tried, target := Targets(table[..i + 1]) + stuck, table[i].target;
            && Kept(Kept(live, tried), Targets(Kept(live, tried)) - {target}) == Kept(live, Targets(table[..i]) + stuck)
            && tried == Targets(table[..i]) + (stuck + {target})
  {
    hide Kept, Targets;
    TargetsAround(table, i);
    var tried, target := Targets(table[..i + 1]) + stuck, table[i].target;
    UmountDrops(live, tried, target);
    assert tried - {target} == Targets(table[..i]) + stuck;
  }

  lemma KeptSnoc(ms: seq<MountEntry>, n: nat, s: set<string>)
    requires n < |ms|
    ensures Kept(ms[..n + 1], s) == Kept(ms[..n], s) + if ms[n].target in s then [ms[n]] else []
  {
    assert ms[..n + 1] == ms[..n] + [ms[n]];
    KeptConcat(ms[..n], [ms[n]], s);
    assert [ms[n]][1..] == [];
  }

  lemma KeptBoth(a: seq<MountEntry>, b: seq<MountEntry>, s: set<string>)
    requires SameMounts(a, b) && s <= Targets(a)
    ensures SameMounts(Kept(a, s), Kept(b, s))
    ensures Kept(a, s) == [] <==> s == {}
  {
    KeptOrder(a, s);
    KeptOrder(b, s);
    assert forall m :: m in a <==> m in Entries(a);
    assert forall m :: m in b <==> m in Entries(b);
    assert Entries(Kept(a, s)) == Entries(Kept(b, s));
    if s != {} {
      var t :| t in s;
      var m :| m in a && m.target == t;
      assert m in Kept(a, s);
    }
  }

  lemma {:induction false} KeptConcat(a: seq<MountEntry>, b: seq<MountEntry>, s: set<string>)
    ensures Kept(a + b, s) == Kept(a, s) + Kept(b, s)
    decreases |a|
  {
    if a == [] {
      assert a + b == b;
    } else {
      assert (a + b)[1..] == a[1..] + b;
      KeptConcat(a[1..], b, s);
    }
  }

  lemma KeptPrefix(ms: seq<MountEntry>, n: nat)
    requires DistinctTargets(ms) && n <= |ms|
    ensures Kept(ms, Targets(ms[..n])) == ms[..n]
  {
    hide Kept;
    var s := Targets(ms[..n]);
    assert ms == ms[..n] + ms[n..];
    KeptConcat(ms[..n], ms[n..], s);
    KeptAll(ms[..n], s);
    forall m | m in ms[n..] ensures m.target !in s {
      var j :| n <= j < |ms| && ms[j] == m;
    }
    KeptNone(ms[n..], s);
  }

  // ---- Recorded plans ----

  function OrderedPlans(ds: seq<DiskInfo>): seq<MountPlan>
  {
    SortByLength(DiskPlans(ds))
  }

  /** orderMountPlans. */
  method OrderMountPlans(diskInfos: seq<DiskInfo>) returns (plans: seq<MountPlan>)
    ensures plans == OrderedPlans(diskInfos)
  {
    plans := [];
    for d := 0 to |diskInfos|
      invariant plans == DiskPlans(diskInfos[..d])
    {
      ghost var before := plans;
      var ps := diskInfos[d].partitions;
      for k := 0 to |ps|
        invariant plans == before + PartitionPlans(ps[..k])
      {
        PlansSnoc(ps, k);
        var p := ps[k];
        if p.mountPoint == "" || p.devicePath == "" || p.fsType == "" || p.fsType == "swap" {
          continue;
        }
        plans := plans + [MountPlan(p.devicePath, p.mountPoint)];
      }
      assert ps[..|ps|] == ps;
      DisksSnoc(diskInfos, d);
    }
    assert diskInfos[..|diskInfos|] == diskInfos;
    plans := SortByLength(plans);
  }

  function PlanTarget(root: string, p: MountPlan): string
  {
    ApplianceMountPath(root, HostMountFromGuest(root, p.mount))
  }

  /** The table a remount of the plans makes of a table, when the appliance refuses nothing. */
  function Remounted(ms: seq<MountEntry>, plans: seq<MountPlan>, root: string): Result<seq<MountEntry>, MountError>
    decreases |plans|
  {
    if plans == [] then Success(ms)
    else
      var p, t := plans[0], PlanTarget(root, plans[0]);
      if !PathUnderRoot(root, HostMountFromGuest(root, p.mount)) then Failure(Escapes)
      else if t !in Targets(ms) then Remounted(ms + [MountEntry(p.device, t)], plans[1..], root)
      else if MountEntry(p.device, t) in ms then Remounted(ms, plans[1..], root)
      else Failure(Conflict)
  }

  /** The table that stands for mounts another process has made from the plans. */
  function Adopted(plans: seq<MountPlan>, root: string): seq<MountEntry>
  {
    if plans == [] then []
    else
      var p, t := plans[0], PlanTarget(root, plans[0]);
      (if !PathUnderRoot(root, HostMountFromGuest(root, p.mount)) then []
       else if t != APPLIANCE_ROOT && !PathUnderRoot(APPLIANCE_ROOT, t) then []
       else [MountEntry(p.device, t)]) + Adopted(plans[1..], root)
  }

  lemma NothingAdopted(root: string)
    ensures Adopted([], root) == []
  {
  }

  lemma AdoptedOne(p: MountPlan, root: string)
    ensures var t := PlanTarget(root, p);
            Adopted([p], root) ==
            if !PathUnderRoot(root, HostMountFromGuest(root, p.mount)) then []
            else if t != APPLIANCE_ROOT && !PathUnderRoot(APPLIANCE_ROOT, t) then []
            else [MountEntry(p.device, t)]
  {
    hide PathUnderRoot, PlanTarget, HostMountFromGuest;
    assert [p][1..] == [];
  }

  lemma {:induction false} AdoptedSnoc(plans: seq<MountPlan>, root: string, n: nat)
    requires n < |plans|
    ensures Adopted(plans[..n + 1], root) == Adopted(plans[..n], root) + Adopted([plans[n]], root)
    decreases n
  {
    hide PlanTarget, PathUnderRoot, ApplianceMountPath, HostMountFromGuest;
    if n > 0 {
      assert plans[..n + 1][1..] == plans[1..][..n] && plans[..n][1..] == plans[1..][..n - 1];
      AdoptedSnoc(plans[1..], root, n - 1);
    } else {
      assert plans[..1] == [plans[0]];
    }
  }

  // ---- The backend ----

  class Backend {
    const mountRoot: string
    const kernel: ApplianceKernel
    var diskInfos: seq<DiskInfo>
    var mounts: seq<MountEntry>

    constructor (mountRoot: string, kernel: ApplianceKernel, diskInfos: seq<DiskInfo>)
      ensures this.mountRoot == mountRoot && this.kernel == kernel && this.diskInfos == diskInfos && mounts == []
    {
      this.mountRoot, this.kernel, this.diskInfos, mounts := mountRoot, kernel, diskInfos, [];
    }

    /** The table names each target once, and exactly the mounts that are live. */
    predicate InStep()
      reads this, kernel
    {
      SameMounts(mounts, kernel.live)
    }

    predicate NothingElseFails(from: nat)
      reads kernel
    {
      forall k :: from <= k < kernel.calls ==> kernel.fine(k)
    }

    method Mount(device: string, hostMountPoint: string) returns (err: Option<MountError>)
      requires InStep()
      modifies this`mounts, kernel
      ensures InStep() && (old(mounts == kernel.live) ==> mounts == kernel.live)
      ensures kernel.calls >= old(kernel.calls)
      ensures var target := ApplianceMountPath(mountRoot, hostMountPoint);
              if target in old(Targets(mounts)) then
                && mounts == old(mounts) && kernel.live == old(kernel.live) && kernel.calls == old(kernel.calls)
                && err == if MountEntry(device, target) in old(mounts) then None else Some(Conflict)
              else
                var added := if err.None? then [MountEntry(device, target)] else [];
                && mounts == old(mounts) + added && kernel.live == old(kernel.live) + added
                && (err.None? <==> kernel.calls == old(kernel.calls) + 2 && NothingElseFails(old(kernel.calls)))
                && (err.Some? ==> !NothingElseFails(old(kernel.calls)))
    {
      hide ApplianceMountPath, SameMounts;
      var target := ApplianceMountPath(mountRoot, hostMountPoint);
      for i := 0 to |mounts|
        invariant forall k :: 0 <= k < i ==> mounts[k].target != target
      {
        if mounts[i].target == target {
          assert mounts[i] in mounts;
          if mounts[i].device == device {
            return None;
          }
          OneEntryPerTarget(mounts, kernel.live, i, MountEntry(device, target));
          return Some(Conflict);
        }
      }
      var ok := kernel.Mkdir(target);
      if !ok {
        return Some(MkdirFailed);
      }
      ok := kernel.Mount(device, target);
      if !ok {
        assert kernel.live == old(kernel.live);
        return Some(MountFailed);
      }
      mounts := mounts + [MountEntry(device, target)];
      SameMountsSnoc(old(mounts), old(kernel.live), MountEntry(device, target));
      return None;
    }

    /**
     Unmounts everything recorded, last first. The targets in stuck are the ones refused: they
     are what stays in the table and what stays mounted, each in its own old order.
     */
    method UnmountAll() returns (ok: bool, ghost stuck: set<string>)
      requires InStep()
      modifies this`mounts, kernel
      ensures InStep() && kernel.calls == old(kernel.calls) + |old(mounts)|
      ensures mounts == Kept(old(mounts), stuck) && kernel.live == Kept(old(kernel.live), stuck)
      ensures stuck <= Targets(old(mounts)) && (ok <==> stuck == {}) && (ok <==> mounts == [])
      ensures NothingElseFails(old(kernel.calls)) && old(mounts == kernel.live || (Nested(mounts) && Nested(kernel.live))) ==> ok
      ensures old(Nested(kernel.live) && !Nested(mounts)) ==> !ok
    {
      hide Blocked, Nested, SameMounts, Targets, Kept, StrictlyUnder;
      ghost var table, live := mounts, kernel.live;
      ok, stuck := true, {};
      var failed := new bool[|mounts|](_ => false);
      var i := |mounts|;
      ghost var child, parent := NestedOrInverted(table);
      SameTargets(table, live);
      KeptAll(live, Targets(table));
      assert table[..|table|] == table;
      assert Targets(table) + {} == Targets(table);
      while i > 0
        invariant 0 <= i <= |mounts| && mounts == table && failed.Length == |table|
        invariant kernel.calls == old(kernel.calls) + |table| - i
        invariant stuck <= Targets(table[i..])
        invariant forall k :: 0 <= k < i ==> !failed[k]
        invariant forall k :: i <= k < |table| ==> (failed[k] <==> table[k].target in stuck)
        invariant ok <==> stuck == {}
        invariant kernel.live == Kept(live, Targets(table[..i]) + stuck)
        invariant NothingElseFails(old(kernel.calls)) && (table == live || (Nested(table) && Nested(live))) ==> ok
        invariant Nested(live) && Inverted(table, child, parent) && i <= parent ==> !ok
      {
        i := i - 1;
        var target := mounts[i].target;
        ghost var tried := Targets(table[..i + 1]) + stuck;
        TargetsAround(table, i);
        OneDown(table, live, i, stuck);
        if stuck == {} && (table == live || (Nested(table) && Nested(live))) {
          NotBlocked(table, live, i);
          assert tried == Targets(table[..i + 1]);
        }
        if Nested(live) && Inverted(table, child, parent) && i == parent {
          StillToCome(table, child, parent);
          ChildBlocks(table, live, tried, child, parent);
        }
        var done := kernel.Umount(target);
        if !done {
          failed[i] := true;
          ok, stuck := false, stuck + {target};
        }
      }
      assert table[..0] == [];
      EmptyTable(stuck);
      assert Targets(table[..0]) + stuck == stuck;
      mounts := Remaining(failed, stuck);
      KeptBoth(table, live, stuck);
    }

    /** The entries whose unmount failed, in order. */
    method Remaining(failed: array<bool>, ghost stuck: set<string>) returns (remaining: seq<MountEntry>)
      requires failed.Length == |mounts| && forall k :: 0 <= k < |mounts| ==> (failed[k] <==> mounts[k].target in stuck)
      ensures remaining == Kept(mounts, stuck)
    {
      hide Kept;
      remaining := [];
      EmptyTable(stuck);
      assert mounts[..0] == [];
      for k := 0 to |mounts|
        invariant remaining == Kept(mounts[..k], stuck)
      {
        KeptSnoc(mounts, k, stuck);
        if failed[k] {
          remaining := remaining + [mounts[k]];
        }
      }
      assert mounts[..|mounts|] == mounts;
    }

    method RemountFromDiskInfos() returns (err: Option<MountError>)
      requires InStep()
      modifies this`mounts, kernel
      ensures InStep() && (old(mounts == kernel.live) ==> mounts == kernel.live)
      ensures kernel.calls >= old(kernel.calls)
      ensures NothingElseFails(old(kernel.calls)) ==>
                match Remounted(old(mounts), OrderedPlans(diskInfos), mountRoot)
                case Success(ms) => err == None && mounts == ms
                case Failure(e) => err == Some(e)
    {
      hide PathUnderRoot, HostMountFromGuest, OrderedPlans, SameMounts;
      var plans := OrderMountPlans(diskInfos);
      var i := 0;
      while i < |plans|
        invariant 0 <= i <= |plans| && InStep() && (old(mounts == kernel.live) ==> mounts == kernel.live)
        invariant kernel.calls >= old(kernel.calls)
        invariant NothingElseFails(old(kernel.calls)) ==>
                    Remounted(old(mounts), plans, mountRoot) == Remounted(mounts, plans[i..], mountRoot)
      {
        var hostMountPoint := HostMountFromGuest(mountRoot, plans[i].mount);
        if !PathUnderRoot(mountRoot, hostMountPoint) {
          return Some(Escapes);
        }
        assert plans[i..][1..] == plans[i + 1..];
        err := Mount(plans[i].device, hostMountPoint);
        if err.Some? {
          return;
        }
        i := i + 1;
      }
      return None;
    }

    method MountEntriesFromDiskInfos() returns (out: seq<MountEntry>)
      ensures out == Adopted(OrderedPlans(diskInfos), mountRoot)
    {
      hide PathUnderRoot, HostMountFromGuest, ApplianceMountPath, OrderedPlans, Adopted;
      NothingAdopted(mountRoot);
      out := [];
      var plans := OrderMountPlans(diskInfos);
      for i := 0 to |plans|
        invariant out == Adopted(plans[..i], mountRoot)
      {
        AdoptedSnoc(plans, mountRoot, i);
        AdoptedOne(plans[i], mountRoot);
        var host := HostMountFromGuest(mountRoot, plans[i].mount);
        if !PathUnderRoot(mountRoot, host) {
          continue;
        }
        var app := ApplianceMountPath(mountRoot, host);
        if app != APPLIANCE_ROOT && !PathUnderRoot(APPLIANCE_ROOT, app) {
          continue;
        }
        out := out + [MountEntry(plans[i].device, app)];
      }
      assert plans[..|plans|] == plans;
    }

    /** Fills an empty table from the recorded plans, without mounting anything. */
    method RecordAdoptedMounts()
      modifies this`mounts
      ensures mounts == if old(mounts) != [] then old(mounts) else Adopted(OrderedPlans(diskInfos), mountRoot)
    {
      if |mounts| > 0 {
        return;
      }
      mounts := MountEntriesFromDiskInfos();
    }

    /**
     A table adopted while a parent process's mounts are live, made in an order that mounting
     allows: if the kernel refuses nothing but what is blocked, one UnmountAll empties both
     exactly if the plans have parents first.
     */
    method AdoptAndUnmount() returns (ok: bool)
      requires Rooted(mountRoot) && Clean(mountRoot) != "/" && mounts == []
      requires SameMounts(Adopted(OrderedPlans(diskInfos), mountRoot), kernel.live) && Nested(kernel.live)
      modifies this`mounts, kernel
      ensures InStep()
      ensures NothingElseFails(old(kernel.calls)) ==> (ok <==> ParentsFirst(OrderedPlans(diskInfos)))
      ensures if ok then mounts == kernel.live == [] else mounts != []
    {
      hide Kept, Adopted, OrderedPlans, Clean, Nested, ParentsFirst, SameMounts, Targets;
      ParentsFirstIff(OrderedPlans(diskInfos), mountRoot);
      RecordAdoptedMounts();
      ghost var live := kernel.live;
      var done, stuck := UnmountAll();
      ok := done;
      KeptNothing(live);
    }

    /** Over any run of calls the table names each target once and is the live mounts, in order. */
    method RunCalls(calls: seq<Call>)
      requires InStep() && mounts == kernel.live
      modifies this`mounts, kernel
      ensures DistinctTargets(mounts) && mounts == kernel.live
    {
      hide Kept, Targets;
      for i := 0 to |calls|
        invariant InStep() && mounts == kernel.live
      {
        match calls[i] {
          case MountCall(device, point) => var _ := Mount(device, point);
          case UnmountAllCall => var _, _ := UnmountAll();
          case RemountCall => var _ := RemountFromDiskInfos();
        }
      }
    }

    /**
     A remount of clean mount points and one UnmountAll: if the kernel refuses nothing but
     what is blocked, both work, and nothing is left in the table or mounted.
     */
    method RemountAndUnmount() returns (err: Option<MountError>, ok: bool)
      requires Rooted(mountRoot) && Clean(mountRoot) != "/" && CleanPlans(OrderedPlans(diskInfos))
      requires mounts == kernel.live == []
      modifies this`mounts, kernel
      ensures NothingElseFails(old(kernel.calls)) ==> err == None && ok && mounts == kernel.live == []
    {
      hide Kept, Remounted, Adopted, OrderedPlans, CleanPlans, Clean, Nested;
      AdoptionMatchesRemount(diskInfos, mountRoot);
      NothingRecorded();
      err := RemountFromDiskInfos();
      var done, _ := UnmountAll();
      ok := done;
    }
  }

  datatype Call = MountCall(device: string, hostMountPoint: string) | UnmountAllCall | RemountCall

  lemma NothingRecorded()
    ensures SameMounts([], [])
  {
  }

  // ---- Clean mount points ----

  predicate CleanMount(m: string)
  {
    Rooted(m) && Clean(m) == m
  }

  /** The recorded mount points are clean absolute paths, each recorded once. */
  predicate CleanPlans(plans: seq<MountPlan>)
  {
    && (forall i :: 0 <= i < |plans| ==> CleanMount(plans[i].mount))
    && (forall i, j :: 0 <= i < j < |plans| ==> plans[i].mount != plans[j].mount)
  }

  lemma CleanParts(m: string)
    requires CleanMount(m)
    ensures var cs := Parts(m);
            AllNormal(cs) && m == "/" + Join(cs, '/') && GuestParts(m) == cs && (cs == [] <==> m == "/")
  {
    hide Clean, Join;
    RootedParts(m);
    SplitAppend("", m, '/');
    assert "" + ['/'] + m == "/" + m && ([""] + Split(m, '/'))[1..] == Split(m, '/');
    if Parts(m) != [] {
      JoinNotEmpty(Parts(m));
    } else {
      assert Join([], '/') == "" by { JoinNothing(); }
    }
  }

  lemma JoinNothing()
    ensures Join([], '/') == ""
  {
  }

  lemma JoinNotEmpty(cs: seq<string>)
    requires AllNormal(cs) && cs != []
    ensures Join(cs, '/') != ""
  {
    assert cs[0] != "" && cs[0] <= Join(cs, '/');
  }

  lemma MntGuest()
    ensures Join(["mnt", "guest"], '/') == "mnt/guest"
  {
    assert ["mnt", "guest"][1..] == ["guest"];
  }

  lemma BelowText(cs: seq<string>)
    requires cs != []
    ensures Below(cs) == APPLIANCE_ROOT + ("/" + Join(cs, '/'))
  {
    hide Join;
    MntGuest();
    JoinAppend(["mnt", "guest"], cs);
    Regroup("/", "mnt/guest", "/", Join(cs, '/'));
    assert "/" + "mnt/guest" == APPLIANCE_ROOT;
  }

  lemma Regroup(a: string, b: string, c: string, d: string)
    ensures a + (b + c + d) == (a + b) + (c + d)
  {
  }

  // ---- The adopted table ----

  lemma TargetBelow(root: string, p: MountPlan)
    requires Rooted(root)
    ensures AllNormal(GuestParts(p.mount)) && PlanTarget(root, p) == Below(GuestParts(p.mount))
  {
    hide ApplianceMountPath, HostMountFromGuest, GuestToAppliance, GuestParts, Below;
    RebaseAgrees(root, p.mount);
    GuestToApplianceBelow(p.mount);
  }

  /** Every plan is adopted, at its names below the appliance's root, however it spells them. */
  lemma {:induction false} AdoptedEntries(plans: seq<MountPlan>, root: string)
    requires Rooted(root) && Clean(root) != "/"
    ensures |Adopted(plans, root)| == |plans|
    ensures forall i :: 0 <= i < |plans| ==> Adopted(plans, root)[i] == MountEntry(plans[i].device, Below(GuestParts(plans[i].mount)))
    ensures forall i :: 0 <= i < |plans| ==> AllNormal(GuestParts(plans[i].mount))
  {
    hide ApplianceMountPath, HostMountFromGuest, GuestToAppliance, GuestParts, PathUnderRoot, Clean, Below, AllNormal, PlanTarget;
    if plans != [] {
      var p := plans[0];
      TargetBelow(root, p);
      HostMountUnderRootIff(root, p.mount);
      AlwaysUnderRoot(root, p);
      AdoptedEntries(plans[1..], root);
    }
  }

  lemma AlwaysUnderRoot(root: string, p: MountPlan)
    requires Rooted(root)
    ensures PathUnderRoot(APPLIANCE_ROOT, PlanTarget(root, p))
  {
    hide ApplianceMountPath, HostMountFromGuest, GuestToAppliance, PathUnderRoot;
    RebaseAgrees(root, p.mount);
    GuestPathsConfined(p.mount);
  }

  lemma BelowParts(cs: seq<string>)
    requires AllNormal(cs)
    ensures Split(Below(cs), '/') == ["", "mnt", "guest"] + cs
  {
    hide Join, Split;
    var all := ["mnt", "guest"] + cs;
    SplitJoin(all, '/');
    SplitAppend("", Join(all, '/'), '/');
    assert "" + ['/'] + Join(all, '/') == Below(cs);
    assert Split("", '/') == [""] by { SplitNone("", '/'); }
    assert [""] + all == ["", "mnt", "guest"] + cs;
  }

  lemma BelowInjective(a: seq<string>, b: seq<string>)
    requires AllNormal(a) && AllNormal(b)
    ensures Below(a) == Below(b) <==> a == b
  {
    hide Below;
    BelowParts(a);
    BelowParts(b);
    var m := ["", "mnt", "guest"];
    assert (m + a)[3..] == a && (m + b)[3..] == b;
  }

  /** One place is strictly under another exactly if its names go on from the other's. */
  lemma BelowUnder(a: seq<string>, b: seq<string>)
    requires AllNormal(a) && AllNormal(b)
    ensures StrictlyUnder(Below(a), Below(b)) <==> b < a
  {
    hide Split, Join;
    var m := ["", "mnt", "guest"];
    BelowParts(a);
    BelowParts(b);
    if b < a {
      var rest := a[|b|..];
      var mb := ["mnt", "guest"] + b;
      assert ["mnt", "guest"] + a == mb + rest;
      JoinAppend(mb, rest);
      assert Below(a) == Below(b) + "/" + Join(rest, '/');
    }
    if Below(b) + "/" <= Below(a) {
      var t := Below(a)[|Below(b)| + 1..];
      assert Below(a) == Below(b) + ['/'] + t;
      SplitAppend(Below(b), t, '/');
      assert m + a == m + b + Split(t, '/');
      assert (m + a)[3..] == a && (m + b + Split(t, '/'))[3..] == b + Split(t, '/');
    }
  }

  /** No plan names a place above one named before it. */
  predicate ParentsFirst(plans: seq<MountPlan>)
  {
    forall i, j :: 0 <= i < j < |plans| ==> !(GuestParts(plans[j].mount) < GuestParts(plans[i].mount))
  }

  /** No two plans name one place. */
  predicate DistinctPlaces(plans: seq<MountPlan>)
  {
    forall i, j :: 0 <= i < j < |plans| ==> GuestParts(plans[i].mount) != GuestParts(plans[j].mount)
  }

  /**
   The adopted table has parents before children, as the reverse unmount needs it, exactly if
   the plans do once the ways up and doubled slashes in their mount points are resolved.
   */
  lemma ParentsFirstIff(plans: seq<MountPlan>, root: string)
    requires Rooted(root) && Clean(root) != "/"
    ensures Nested(Adopted(plans, root)) <==> ParentsFirst(plans)
  {
    hide Adopted, StrictlyUnder, Below, GuestParts, Clean;
    AdoptedEntries(plans, root);
    var table := Adopted(plans, root);
    forall i, j | 0 <= i < j < |plans|
      ensures StrictlyUnder(table[i].target, table[j].target) <==> GuestParts(plans[j].mount) < GuestParts(plans[i].mount)
    {
      BelowUnder(GuestParts(plans[i].mount), GuestParts(plans[j].mount));
    }
  }

  /** It names each target once exactly if no two plans name one place. */
  lemma DistinctTargetsIff(plans: seq<MountPlan>, root: string)
    requires Rooted(root) && Clean(root) != "/"
    ensures DistinctTargets(Adopted(plans, root)) <==> DistinctPlaces(plans)
  {
    hide Adopted, Below, GuestParts, Clean;
    AdoptedEntries(plans, root);
    var table := Adopted(plans, root);
    forall i, j | 0 <= i < j < |plans|
      ensures table[i].target == table[j].target <==> GuestParts(plans[i].mount) == GuestParts(plans[j].mount)
    {
      BelowInjective(GuestParts(plans[i].mount), GuestParts(plans[j].mount));
    }
  }

  lemma StillFree(ms: seq<MountEntry>, plans: seq<MountPlan>, root: string)
    requires Rooted(root) && Clean(root) != "/" && plans != [] && DistinctPlaces(plans)
    requires Targets(Adopted(plans, root)) !! Targets(ms)
    ensures var e := MountEntry(plans[0].device, Below(GuestParts(plans[0].mount)));
            && Adopted(plans, root) == [e] + Adopted(plans[1..], root) && e.target !in Targets(ms)
            && Targets(Adopted(plans[1..], root)) !! Targets(ms + [e]) && DistinctPlaces(plans[1..])
  {
    hide Adopted, Below, GuestParts, Clean, Targets;
    AdoptedEntries(plans, root);
    AdoptedEntries(plans[1..], root);
    DistinctTargetsIff(plans, root);
    var table, rest := Adopted(plans, root), Adopted(plans[1..], root);
    var e := table[0];
    assert forall i :: 0 <= i < |rest| ==> rest[i] == table[i + 1];
    assert table == [e] + rest;
    FreeOnce(e, rest, ms);
  }

  lemma FreeOnce(e: MountEntry, rest: seq<MountEntry>, ms: seq<MountEntry>)
    requires DistinctTargets([e] + rest) && Targets([e] + rest) !! Targets(ms)
    ensures e.target !in Targets(ms) && Targets(rest) !! Targets(ms + [e])
  {
    hide DistinctTargets;
    DistinctCons(e, rest);
    assert Targets(ms + [e]) == Targets(ms) + {e.target};
    assert Targets([e] + rest) == {e.target} + Targets(rest);
  }

  lemma {:induction false} RemountOntoTable(ms: seq<MountEntry>, plans: seq<MountPlan>, root: string)
    requires Rooted(root) && Clean(root) != "/" && DistinctPlaces(plans)
    requires Targets(Adopted(plans, root)) !! Targets(ms)
    ensures Remounted(ms, plans, root) == Success(ms + Adopted(plans, root))
    decreases |plans|
  {
    hide ApplianceMountPath, HostMountFromGuest, GuestParts, PathUnderRoot, Clean, Targets, Below, PlanTarget, DistinctPlaces;
    if plans == [] {
      assert ms + [] == ms;
    } else {
      var p := plans[0];
      TargetBelow(root, p);
      HostMountUnderRootIff(root, p.mount);
      StillFree(ms, plans, root);
      var e := MountEntry(p.device, Below(GuestParts(p.mount)));
      RemountOntoTable(ms + [e], plans[1..], root);
      assert ms + [e] + Adopted(plans[1..], root) == ms + Adopted(plans, root);
    }
  }

  lemma {:induction false} RemountKeepsDistinct(ms: seq<MountEntry>, plans: seq<MountPlan>, root: string)
    requires DistinctTargets(ms) && Remounted(ms, plans, root).Success?
    ensures DistinctTargets(Remounted(ms, plans, root).value)
    decreases |plans|
  {
    hide PathUnderRoot, HostMountFromGuest, PlanTarget;
    if plans != [] {
      var e := MountEntry(plans[0].device, PlanTarget(root, plans[0]));
      if e.target in Targets(ms) {
        RemountKeepsDistinct(ms, plans[1..], root);
      } else {
        assert forall m <- ms :: m.target in Targets(ms);
        RemountKeepsDistinct(ms + [e], plans[1..], root);
      }
    }
  }

  /** The adopted table is the one a remount builds from nothing exactly if no two plans name one place. */
  lemma AdoptionIsRemountIff(plans: seq<MountPlan>, root: string)
    requires Rooted(root) && Clean(root) != "/"
    ensures Remounted([], plans, root) == Success(Adopted(plans, root)) <==> DistinctPlaces(plans)
  {
    hide Adopted, Remounted, Clean, DistinctPlaces;
    DistinctTargetsIff(plans, root);
    if DistinctPlaces(plans) {
      RemountOntoTable([], plans, root);
      assert [] + Adopted(plans, root) == Adopted(plans, root);
    }
    if Remounted([], plans, root) == Success(Adopted(plans, root)) {
      RemountKeepsDistinct([], plans, root);
    }
  }

  lemma CleanOrder(a: string, b: string)
    requires CleanMount(a) && CleanMount(b)
    ensures GuestParts(a) == GuestParts(b) ==> a == b
    ensures GuestParts(b) < GuestParts(a) ==> |b| < |a|
  {
    hide Clean, GuestParts, Parts;
    CleanParts(a);
    CleanParts(b);
    var x, y := Parts(a), Parts(b);
    if y < x {
      if y == [] {
        assert Join([], '/') == "" by { JoinNothing(); }
        JoinNotEmpty(x);
      } else {
        assert x == y + x[|y|..];
        JoinAppend(y, x[|y|..]);
      }
    }
  }

  /**
   For clean mount points under a mount root other than "/", the table adopted from recorded
   disk infos is the one a remount of them builds from nothing, names each target once, and
   has parents before children, which is what UnmountAll needs to take all of it down.
   */
  lemma AdoptionMatchesRemount(ds: seq<DiskInfo>, root: string)
    requires Rooted(root) && Clean(root) != "/" && CleanPlans(OrderedPlans(ds))
    ensures var table := Adopted(OrderedPlans(ds), root);
            Remounted([], OrderedPlans(ds), root) == Success(table) && DistinctTargets(table) && Nested(table)
  {
    hide Adopted, Remounted, Clean, GuestParts, CleanMount, DistinctTargets, Nested;
    var plans := OrderedPlans(ds);
    SortIsStable(DiskPlans(ds), 0);
    forall i, j | 0 <= i < j < |plans|
      ensures GuestParts(plans[i].mount) != GuestParts(plans[j].mount) && !(GuestParts(plans[j].mount) < GuestParts(plans[i].mount))
    {
      CleanOrder(plans[i].mount, plans[j].mount);
    }
    ParentsFirstIff(plans, root);
    DistinctTargetsIff(plans, root);
    AdoptionIsRemountIff(plans, root);
  }

  /** Under the mount root "/" a remount of any plan but the root's own is refused. */
  lemma SlashRootRefuses(p: MountPlan)
    requires GuestParts(p.mount) != []
    ensures Remounted([], [p], "/") == Failure(Escapes) && Adopted([p], "/") == []
  {
    assert Clean("/") == "/" by { PartsOfAbsolute([]); }
    HostMountUnderRootIff("/", p.mount);
  }

  lemma GuestPartsOf(m: string, ps: seq<string>)
    requires ps != [] && (forall i :: 0 <= i < |ps| ==> '/' !in ps[i]) && m == Join(ps, '/')
    ensures GuestParts(m) == Resolve(ps, true, [])
  {
    hide Join;
    SplitAppend("", m, '/');
    SplitJoin(ps, '/');
    assert "" + ['/'] + m == "/" + m && ([""] + ps)[1..] == ps;
  }

  lemma Usr()
    ensures GuestParts("/usr/../usr") == ["usr"] && Below(["usr"]) == "/mnt/guest/usr"
  {
    hide GuestParts, Below, Resolve;
    UsrParts();
    UsrResolved();
    BelowText(["usr"]);
    assert Join(["usr"], '/') == "usr";
  }

  lemma UsrUpUsr()
    ensures Join(["", "usr", "..", "usr"], '/') == "/usr/../usr"
  {
    var a, b, c := ["", "usr", "..", "usr"], ["usr", "..", "usr"], ["..", "usr"];
    assert a[1..] == b && b[1..] == c && c[1..] == ["usr"];
    assert Join(c, '/') == "../usr" && Join(b, '/') == "usr/../usr";
  }

  lemma UsrParts()
    ensures GuestParts("/usr/../usr") == Resolve(["", "usr", "..", "usr"], true, [])
  {
    hide GuestParts, Join, Resolve;
    UsrUpUsr();
    GuestPartsOf("/usr/../usr", ["", "usr", "..", "usr"]);
  }

  lemma UsrResolved()
    ensures Resolve(["", "usr", "..", "usr"], true, []) == ["usr"]
  {
    var a, b, c := ["", "usr", "..", "usr"], ["usr", "..", "usr"], ["..", "usr"];
    assert a[1..] == b && b[1..] == c && c[1..] == ["usr"] && ["usr"][1..] == [];
    assert Resolve(b, true, []) == Resolve(c, true, ["usr"]);
    assert Resolve(c, true, ["usr"]) == Resolve(["usr"], true, []);
  }

  lemma UsrX()
    ensures GuestParts("/usr/x") == ["usr", "x"] && Below(["usr", "x"]) == "/mnt/guest/usr/x"
  {
    hide GuestParts, Below;
    var a, b := ["", "usr", "x"], ["usr", "x"];
    assert a[1..] == b && b[1..] == ["x"];
    assert Join(b, '/') == "usr/x" && Join(a, '/') == "/usr/x";
    GuestPartsOf("/usr/x", a);
    ResolveNormal(b, true, []);
    BelowText(b);
  }

  lemma PlansOfTwo(a: Partition, b: Partition)
    requires Mountable(a) && Mountable(b) && |b.mountPoint| < |a.mountPoint|
    ensures OrderedPlans([DiskInfo([a, b])]) == [MountPlan(b.devicePath, b.mountPoint), MountPlan(a.devicePath, a.mountPoint)]
  {
    var p, q := MountPlan(a.devicePath, a.mountPoint), MountPlan(b.devicePath, b.mountPoint);
    assert [a, b][1..] == [b] && [b][1..] == [];
    assert PartitionPlans([b]) == [q] && PartitionPlans([a, b]) == [p] + [q];
    assert [DiskInfo([a, b])][1..] == [];
    assert DiskPlans([DiskInfo([a, b])]) == [p, q];
    assert [p, q][1..] == [q] && [q][1..] == [];
    assert SortByLength([q]) == [q];
    assert SortByLength([p, q]) == Insert(p, [q]) == [q] + Insert(p, [q][1..]);
  }

  /**
   Mount points that are not clean can be ordered the wrong way round: here the table adopted
   lists /usr after /usr/x, and undoing it in reverse starts with a mount that is still busy.
   */
  lemma UncleanPlansMisordered(ds: seq<DiskInfo>, root: string)
    requires Rooted(root) && Clean(root) != "/"
    requires ds == [DiskInfo([Partition("/dev/a", "/usr/../usr", "ext4"), Partition("/dev/b", "/usr/x", "ext4")])]
    ensures var usr, x := MountEntry("/dev/a", "/mnt/guest/usr"), MountEntry("/dev/b", "/mnt/guest/usr/x");
            Adopted(OrderedPlans(ds), root) == [x, usr] && !Nested([x, usr]) && Blocked([usr, x], usr.target)
  {
    hide Adopted, OrderedPlans, GuestParts, Below, Clean, Nested, Blocked;
    var a, b := MountPlan("/dev/a", "/usr/../usr"), MountPlan("/dev/b", "/usr/x");
    var usr, x := MountEntry("/dev/a", "/mnt/guest/usr"), MountEntry("/dev/b", "/mnt/guest/usr/x");
    PlansOfTwo(ds[0].partitions[0], ds[0].partitions[1]);
    assert ds[0].partitions == [ds[0].partitions[0], ds[0].partitions[1]] && ds == [ds[0]];
    Usr();
    UsrX();
    AdoptedEntries([b, a], root);
    assert Adopted([b, a], root) == [x, usr];
    assert usr.target + "/" <= x.target;
    ChildFirst(x, usr);
  }

  lemma ChildFirst(child: MountEntry, parent: MountEntry)
    requires StrictlyUnder(child.target, parent.target)
    ensures !Nested([child, parent]) && Blocked([parent, child], parent.target)
  {
    hide StrictlyUnder;
    var ms, back := [child, parent], [parent, child];
    assert ms[0] == child && ms[1] == parent && back[0] == parent && back[1] == child;
  }
}
