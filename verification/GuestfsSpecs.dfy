/** The guestfs backend's mount specs: where they come from, how they merge, and their order. */
module GuestfsSpecs {
  import opened Results
  import opened Text
  import opened MountPlans
  import opened LvmAliases

  // ---- From disk infos ----

  predicate Usable(p: Partition)
  {
    p.devicePath != "" && p.fsType != "" && p.fsType != "swap"
  }

  /** The first partition that could be mounted at all, mounted as the root. */
  function RootOf(ps: seq<Partition>): seq<MountPlan>
  {
    if ps == [] then []
    else if Usable(ps[0]) then [MountPlan(ps[0].devicePath, "/")]
    else RootOf(ps[1..])
  }

  function FallbackRoot(ds: seq<DiskInfo>): seq<MountPlan>
  {
    if ds == [] then []
    else if RootOf(ds[0].partitions) != [] then RootOf(ds[0].partitions)
    else FallbackRoot(ds[1..])
  }

  function SpecsFromDiskInfos(ds: seq<DiskInfo>): seq<MountPlan>
  {
    if DiskPlans(ds) != [] then DiskPlans(ds) else FallbackRoot(ds)
  }

  /** mountSpecsFromDiskInfos. */
  method MountSpecsFromDiskInfos(disks: seq<DiskInfo>) returns (specs: seq<MountPlan>)
    ensures specs == SpecsFromDiskInfos(disks)
  {
    specs := [];
    for d := 0 to |disks|
      invariant specs == DiskPlans(disks[..d])
    {
      ghost var before := specs;
      var ps := disks[d].partitions;
      for k := 0 to |ps|
        invariant specs == before + PartitionPlans(ps[..k])
      {
        PlansSnoc(ps, k);
        var p := ps[k];
        if p.devicePath == "" || p.fsType == "" || p.fsType == "swap" {
          continue;
        }
        if p.mountPoint == "" {
          continue;
        }
        specs := specs + [MountPlan(p.devicePath, p.mountPoint)];
      }
      assert ps[..|ps|] == ps;
      DisksSnoc(disks, d);
    }
    assert disks[..|disks|] == disks;
    if |specs| == 0 {
      for d := 0 to |disks|
        invariant FallbackRoot(disks) == FallbackRoot(disks[d..])
      {
        var ps := disks[d].partitions;
        assert disks[d..][1..] == disks[d + 1..];
        for k := 0 to |ps|
          invariant RootOf(ps) == RootOf(ps[k..])
        {
          assert ps[k..][1..] == ps[k + 1..];
          var p := ps[k];
          if p.devicePath != "" && p.fsType != "" && p.fsType != "swap" {
            return [MountPlan(p.devicePath, "/")];
          }
        }
      }
    }
  }

  // ---- Merging what inspection found ----

  function Points(specs: seq<MountPlan>): set<string>
  {
    set s | s in specs :: s.mount
  }

  predicate DistinctPoints(specs: seq<MountPlan>)
  {
    forall i, j :: 0 <= i < j < |specs| ==> specs[i].mount != specs[j].mount
  }

  /** The specs of extra whose mount points are not taken, each mount point once. */
  function Additions(taken: set<string>, extra: seq<MountPlan>): seq<MountPlan>
    decreases |extra|
  {
    if extra == [] then []
    else if extra[0].mount in taken then Additions(taken, extra[1..])
    else [extra[0]] + Additions(taken + {extra[0].mount}, extra[1..])
  }

  function Merged(specs: seq<MountPlan>, extra: seq<MountPlan>): seq<MountPlan>
  {
    specs + Additions(Points(specs), extra)
  }

  /** mergeMountSpecs, with its index from mount points to specs. */
  method MergeMountSpecs(specs: seq<MountPlan>, extra: seq<MountPlan>) returns (merged: seq<MountPlan>)
    ensures merged == Merged(specs, extra)
  {
    var have: map<string, MountPlan> := map[];
    for i := 0 to |specs|
      invariant have.Keys == Points(specs[..i])
    {
      assert specs[..i + 1] == specs[..i] + [specs[i]];
      have := have[specs[i].mount := specs[i]];
    }
    assert specs[..|specs|] == specs;
    merged := specs;
    for i := 0 to |extra|
      invariant merged + Additions(have.Keys, extra[i..]) == Merged(specs, extra)
    {
      assert extra[i..][1..] == extra[i + 1..];
      var s := extra[i];
      if s.mount in have {
        continue;
      }
      ghost var keys := have.Keys;
      merged := merged + [s];
      have := have[s.mount := s];
      assert have.Keys == keys + {s.mount};
    }
  }

  /** The spec is the first of them with its mount point. */
  predicate FirstFor(a: MountPlan, extra: seq<MountPlan>)
  {
    exists i :: 0 <= i < |extra| && extra[i] == a && forall k :: 0 <= k < i ==> extra[k].mount != a.mount
  }

  lemma FirstForCons(a: MountPlan, extra: seq<MountPlan>)
    requires extra != [] && extra[0].mount != a.mount && FirstFor(a, extra[1..])
    ensures FirstFor(a, extra)
  {
    var i :| 0 <= i < |extra[1..]| && extra[1..][i] == a && forall k :: 0 <= k < i ==> extra[1..][k].mount != a.mount;
    assert extra[i + 1] == a;
    forall k | 0 < k < i + 1 ensures extra[k].mount != a.mount {
      assert extra[k] == extra[1..][k - 1];
    }
  }

  lemma PointsCons(e: MountPlan, rest: seq<MountPlan>)
    ensures Points([e] + rest) == {e.mount} + Points(rest)
    ensures e.mount !in Points(rest) && DistinctPoints(rest) ==> DistinctPoints([e] + rest)
  {
    assert forall s <- rest :: s.mount in Points(rest);
    assert Points([e] + rest) == {e.mount} + Points(rest);
  }

  /** What is added has the mount points not taken, each once, as extra first has them. */
  lemma {:induction false} AdditionsAre(taken: set<string>, extra: seq<MountPlan>)
    ensures DistinctPoints(Additions(taken, extra))
    ensures Points(Additions(taken, extra)) == Points(extra) - taken
    ensures forall a <- Additions(taken, extra) :: FirstFor(a, extra)
    decreases |extra|
  {
    hide DistinctPoints, Points, FirstFor;
    NoAdditions();
    if extra != [] {
      var e := extra[0];
      assert extra == [e] + extra[1..];
      var now := if e.mount in taken then taken else taken + {e.mount};
      var rest := Additions(now, extra[1..]);
      AdditionsAre(now, extra[1..]);
      PointsCons(e, extra[1..]);
      PointsCons(e, rest);
      forall a <- rest ensures FirstFor(a, extra) {
        PointOf(a, rest);
        FirstForCons(a, extra);
      }
      assert FirstFor(e, extra) by { FirstForHead(extra); }
    }
  }

  lemma NoAdditions()
    ensures Points([]) == {} && DistinctPoints([])
  {
  }

  lemma PointOf(a: MountPlan, specs: seq<MountPlan>)
    requires a in specs
    ensures a.mount in Points(specs)
  {
  }

  lemma FirstForHead(extra: seq<MountPlan>)
    requires extra != []
    ensures FirstFor(extra[0], extra)
  {
    assert extra[0] == extra[0];
  }

  /** The recorded specs win; inspection adds its first spec for each mount point not recorded. */
  lemma MergeKeepsRecorded(specs: seq<MountPlan>, extra: seq<MountPlan>)
    ensures var m := Merged(specs, extra);
            && specs <= m
            && Points(m) == Points(specs) + Points(extra)
            && (DistinctPoints(specs) ==> DistinctPoints(m))
            && forall a <- m[|specs|..] :: FirstFor(a, extra) && a.mount !in Points(specs)
  {
    AdditionsAre(Points(specs), extra);
    var m := Merged(specs, extra);
    var added := Additions(Points(specs), extra);
    assert m[|specs|..] == added;
    assert forall a <- added :: a.mount in Points(added);
    assert forall s <- specs :: s.mount in Points(specs);
    assert Points(m) == Points(specs) + Points(added);
  }

  /**
   What inspection added is not known any more once the specs fall back to those it was added
   to: they come to the same exactly if every mount point it found was among them already.
   */
  lemma InspectionForgottenIff(base: seq<MountPlan>, found: seq<MountPlan>)
    ensures SortByLength(base) == SortByLength(Merged(base, found)) <==> Points(found) <= Points(base)
  {
    hide SortByLength, Merged, Points, Additions;
    var m := Merged(base, found);
    SortIsStable(base, 0);
    SortIsStable(m, 0);
    SortKeepsLength(base);
    SortKeepsLength(m);
    MergeKeepsRecorded(base, found);
    assert base == m[..|base|] && (|m| == |base| ==> m == m[..|base|]);
    if Points(found) <= Points(base) {
      NothingAdded(Points(base), found);
      MergedIs(base, found);
    }
  }

  lemma SortKeepsLength(specs: seq<MountPlan>)
    ensures |SortByLength(specs)| == |specs|
  {
    SortIsStable(specs, 0);
    assert |multiset(SortByLength(specs))| == |multiset(specs)|;
  }

  lemma MergedIs(specs: seq<MountPlan>, extra: seq<MountPlan>)
    ensures Merged(specs, extra) == specs + Additions(Points(specs), extra)
  {
  }

  lemma {:induction false} NothingAdded(taken: set<string>, extra: seq<MountPlan>)
    requires Points(extra) <= taken
    ensures Additions(taken, extra) == []
    decreases |extra|
  {
    if extra != [] {
      assert extra[0] in extra && extra[0].mount in Points(extra);
      assert forall e <- extra[1..] :: e in extra;
      NothingAdded(taken, extra[1..]);
    }
  }

  lemma MergedNothing(specs: seq<MountPlan>)
    ensures Merged(specs, []) == specs
  {
  }

  lemma MergedNotEmpty(specs: seq<MountPlan>, extra: seq<MountPlan>)
    requires extra != []
    ensures Merged(specs, extra) != []
  {
    MergeKeepsRecorded(specs, extra);
    assert extra[0].mount in Points(extra);
  }

  // ---- Order ----

  lemma {:induction false} SortOfSorted(specs: seq<MountPlan>)
    requires SortedByLength(specs)
    ensures SortByLength(specs) == specs
  {
    if specs != [] {
      SortOfSorted(specs[1..]);
    }
  }

  /** Sorting the specs again, as the mount script does, changes nothing. */
  lemma SortIdempotent(specs: seq<MountPlan>)
    ensures SortByLength(SortByLength(specs)) == SortByLength(specs)
  {
    SortIsStable(specs, 0);
    SortOfSorted(SortByLength(specs));
  }

  /** A mount point never comes before a different one above it. */
  lemma ParentsComeFirst(specs: seq<MountPlan>, i: nat, j: nat)
    requires i < j < |specs|
    ensures var s := SortByLength(specs); |s| == |specs| && !(s[j].mount < s[i].mount)
  {
    SortIsStable(specs, 0);
    assert |multiset(SortByLength(specs))| == |multiset(specs)|;
  }

  // ---- The root to inspect ----

  function PreferredRoot(specs: seq<MountPlan>): string
  {
    if specs == [] then ""
    else if specs[0].mount == "/" && specs[0].device != "" then specs[0].device
    else PreferredRoot(specs[1..])
  }

  /** The first of the roots taken for the device wanted. */
  predicate FirstEqual(roots: seq<string>, wanted: string, root: string)
  {
    exists i :: 0 <= i < |roots| && roots[i] == root && DeviceEqual(wanted, root)
                && forall k :: 0 <= k < i ==> !DeviceEqual(wanted, roots[k])
  }

  /** selectInspectRoot; the empty string when there is no root at all. */
  method SelectInspectRoot(roots: seq<string>, preferred: string) returns (r: Result<string, string>)
    ensures roots == [] ==> r == Success("")
    ensures r.Success? && r.value != "" ==> r.value in roots
    ensures roots != [] && TrimSpace(preferred) == "" ==> r == Success(roots[0])
    ensures roots != [] && TrimSpace(preferred) != "" ==>
              if r.Success? then FirstEqual(roots, TrimSpace(preferred), r.value)
              else forall k :: 0 <= k < |roots| ==> !DeviceEqual(TrimSpace(preferred), roots[k])
  {
    hide DeviceEqual, TrimSpace;
    if |roots| == 0 {
      return Success("");
    }
    var wanted := TrimSpace(preferred);
    if wanted == "" {
      return Success(roots[0]);
    }
    for i := 0 to |roots|
      invariant forall k :: 0 <= k < i ==> !DeviceEqual(wanted, roots[k])
    {
      if DeviceEqual(wanted, roots[i]) {
        return Success(roots[i]);
      }
    }
    return Failure(wanted);
  }
}
