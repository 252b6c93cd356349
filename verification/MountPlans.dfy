/** The mounts recorded for the disks of a guest, and their order: shorter mount points first. */
module MountPlans {
  datatype Partition = Partition(devicePath: string, mountPoint: string, fsType: string)
  datatype DiskInfo = DiskInfo(partitions: seq<Partition>)
  datatype MountPlan = MountPlan(device: string, mount: string)

  predicate Mountable(p: Partition)
  {
    !(p.mountPoint == "" || p.devicePath == "" || p.fsType == "" || p.fsType == "swap")
  }

  function PartitionPlans(ps: seq<Partition>): seq<MountPlan>
  {
    if ps == [] then []
    else (if Mountable(ps[0]) then [MountPlan(ps[0].devicePath, ps[0].mountPoint)] else []) + PartitionPlans(ps[1..])
  }

  function DiskPlans(ds: seq<DiskInfo>): seq<MountPlan>
  {
    if ds == [] then [] else PartitionPlans(ds[0].partitions) + DiskPlans(ds[1..])
  }

  function Insert(p: MountPlan, ps: seq<MountPlan>): seq<MountPlan>
  {
    if ps == [] || |p.mount| <= |ps[0].mount| then [p] + ps else [ps[0]] + Insert(p, ps[1..])
  }

  /** sort.SliceStable by the length of the mount point. */
  function SortByLength(ps: seq<MountPlan>): seq<MountPlan>
  {
    if ps == [] then [] else Insert(ps[0], SortByLength(ps[1..]))
  }

  predicate SortedByLength(ps: seq<MountPlan>)
  {
    forall i, j :: 0 <= i < j < |ps| ==> |ps[i].mount| <= |ps[j].mount|
  }

  /** The plans whose mount points have length n, in order. */
  function OfLength(ps: seq<MountPlan>, n: nat): seq<MountPlan>
  {
    if ps == [] then []
    else (if |ps[0].mount| == n then [ps[0]] else []) + OfLength(ps[1..], n)
  }

  lemma {:induction false} InsertContents(p: MountPlan, ps: seq<MountPlan>)
    ensures multiset(Insert(p, ps)) == multiset{p} + multiset(ps)
    ensures forall q :: q in Insert(p, ps) <==> q == p || q in ps
  {
    if ps != [] && |p.mount| > |ps[0].mount| {
      InsertContents(p, ps[1..]);
      assert ps == [ps[0]] + ps[1..];
    }
  }

  lemma {:induction false} InsertSorted(p: MountPlan, ps: seq<MountPlan>)
    requires SortedByLength(ps)
    ensures SortedByLength(Insert(p, ps))
  {
    if ps != [] && |p.mount| > |ps[0].mount| {
      InsertSorted(p, ps[1..]);
      InsertContents(p, ps[1..]);
      var rest := Insert(p, ps[1..]);
      forall i | 0 <= i < |rest| ensures |ps[0].mount| <= |rest[i].mount| {
        assert rest[i] in rest;
      }
    }
  }

  lemma {:induction false} InsertStable(p: MountPlan, ps: seq<MountPlan>, n: nat)
    requires SortedByLength(ps)
    ensures OfLength(Insert(p, ps), n) == (if |p.mount| == n then [p] else []) + OfLength(ps, n)
  {
    if ps != [] && |p.mount| > |ps[0].mount| {
      InsertStable(p, ps[1..], n);
      assert ([ps[0]] + Insert(p, ps[1..]))[1..] == Insert(p, ps[1..]);
    } else {
      assert ([p] + ps)[1..] == ps;
    }
  }

  /** The sort puts shorter mount points first, loses nothing, and keeps equals in order. */
  lemma {:induction false} SortIsStable(ps: seq<MountPlan>, n: nat)
    ensures SortedByLength(SortByLength(ps)) && multiset(SortByLength(ps)) == multiset(ps)
    ensures OfLength(SortByLength(ps), n) == OfLength(ps, n)
  {
    if ps != [] {
      var rest := SortByLength(ps[1..]);
      SortIsStable(ps[1..], n);
      InsertContents(ps[0], rest);
      InsertSorted(ps[0], rest);
      InsertStable(ps[0], rest, n);
      assert ps == [ps[0]] + ps[1..];
    }
  }

  lemma {:induction false} PlansSnoc(ps: seq<Partition>, n: nat)
    requires n < |ps|
    ensures PartitionPlans(ps[..n + 1]) ==
              PartitionPlans(ps[..n]) + if Mountable(ps[n]) then [MountPlan(ps[n].devicePath, ps[n].mountPoint)] else []
    decreases n
  {
    if n > 0 {
      assert ps[..n + 1][1..] == ps[1..][..n] && ps[..n][1..] == ps[1..][..n - 1];
      PlansSnoc(ps[1..], n - 1);
    } else {
      assert ps[..1][1..] == [];
    }
  }

  lemma {:induction false} DisksSnoc(ds: seq<DiskInfo>, n: nat)
    requires n < |ds|
    ensures DiskPlans(ds[..n + 1]) == DiskPlans(ds[..n]) + PartitionPlans(ds[n].partitions)
    decreases n
  {
    if n > 0 {
      assert ds[..n + 1][1..] == ds[1..][..n] && ds[..n][1..] == ds[1..][..n - 1];
      DisksSnoc(ds[1..], n - 1);
    } else {
      assert ds[..1][1..] == [];
    }
  }
}
