/**
 The overlay transaction: qcow2 overlays created over the disks, the work done on them, and
 their commit or discard, with every external command and removal able to fail.
 */
module Overlay {
  import opened Text
  import opened Paths

  type Block = int

  /** The blocks that differ from an agreed initial content. */
  type Blocks = map<nat, Block>

  /** A raw image, or an overlay file: the blocks written over its backing image. */
  datatype File = Raw(blocks: Blocks) | Qcow(backing: string, delta: Blocks)

  type Files = map<string, File>

  // ---- Overlay file names ----

  function ReplaceChars(s: string): string
  {
    if s == "" then "" else [if s[0] == '/' || s[0] == ':' then '_' else s[0]] + ReplaceChars(s[1..])
  }

  function OverlayFilename(backing: string, index: nat): string
  {
    var base := ReplaceChars(Base(backing));
    "overlay-" + Itoa(index) + "-" + if base == "" then "disk" else base
  }

  function OverlayPath(workdir: string, backing: string, index: nat): string
  {
    JoinPath(workdir, OverlayFilename(backing, index) + ".qcow2")
  }

  lemma {:induction false} ReplacedHasNoSlash(s: string)
    ensures '/' !in ReplaceChars(s)
  {
    if s != "" {
      ReplacedHasNoSlash(s[1..]);
    }
  }

  lemma FilenameNormal(backing: string, index: nat)
    ensures Normal(OverlayFilename(backing, index) + ".qcow2")
  {
    ReplacedHasNoSlash(Base(backing));
    var name := OverlayFilename(backing, index) + ".qcow2";
    assert name[0] == 'o';
    assert '/' !in Itoa(index);
  }

  lemma SameUpToDash(a: string, b: string, x: string, y: string)
    requires '-' !in a && '-' !in b && a + "-" + x == b + "-" + y
    ensures a == b
  {
    var s := a + "-" + x;
    assert forall i :: 0 <= i < |a| ==> s[i] == a[i];
    assert forall i :: 0 <= i < |b| ==> s[i] == b[i];
    assert s[|a|] == '-' && s[|b|] == '-';
    assert a == s[..|a|] && b == s[..|b|];
  }

  lemma FilenameShape(backing: string, index: nat) returns (rest: string)
    ensures OverlayFilename(backing, index) + ".qcow2" == "overlay-" + (Itoa(index) + "-" + rest)
    ensures '-' !in Itoa(index)
  {
    hide ReplaceChars, Base, Itoa;
    var base := ReplaceChars(Base(backing));
    rest := (if base == "" then "disk" else base) + ".qcow2";
  }

  /** Disks with different indices get different overlay files, whatever their images are called. */
  lemma OverlayPathsDistinct(workdir: string, b1: string, i1: nat, b2: string, i2: nat)
    requires OverlayPath(workdir, b1, i1) == OverlayPath(workdir, b2, i2)
    ensures i1 == i2
  {
    hide OverlayFilename, Itoa, Normal, JoinPath;
    FilenameNormal(b1, i1);
    FilenameNormal(b2, i2);
    JoinNameInjective(workdir, OverlayFilename(b1, i1) + ".qcow2", OverlayFilename(b2, i2) + ".qcow2");
    var x1 := FilenameShape(b1, i1);
    var x2 := FilenameShape(b2, i2);
    var t1, t2 := Itoa(i1) + "-" + x1, Itoa(i2) + "-" + x2;
    assert t1 == ("overlay-" + t1)[8..] && t2 == ("overlay-" + t2)[8..];
    SameUpToDash(Itoa(i1), Itoa(i2), x1, x2);
    ItoaInjective(i1, i2);
  }

  // ---- External commands ----

  /** The file system, with qemu-img and os.Remove. Each command may fail, as told per call. */
  class ImageStore {
    var files: Files
    const stuck: set<string>
    const creates: nat -> bool
    const partial: nat -> bool
    const commits: nat -> bool
    const wreck: nat -> Blocks
    var created: nat
    var committed: nat

    constructor (files: Files, stuck: set<string>, creates: nat -> bool, partial: nat -> bool, commits: nat -> bool, wreck: nat -> Blocks)
      ensures this.files == files && this.stuck == stuck
    {
      this.files, this.stuck := files, stuck;
      this.creates, this.partial, this.commits, this.wreck := creates, partial, commits, wreck;
      created, committed := 0, 0;
    }

    /** qemu-img create over an existing raw image. A failed one may leave a file behind. */
    method QemuCreate(backing: string, path: string) returns (ok: bool)
      modifies this
      ensures ok ==> IsRaw(old(files), backing) && files == old(files)[path := Qcow(backing, map[])]
      ensures !ok ==> files == old(files) || files == old(files)[path := Qcow(backing, map[])]
    {
      ok := creates(created) && IsRaw(files, backing);
      if ok || partial(created) {
        files := files[path := Qcow(backing, map[])];
      }
      created := created + 1;
    }

    /** qemu-img commit. A failed one leaves the backing image in any state. */
    method QemuCommit(path: string) returns (ok: bool)
      modifies this
      ensures ok ==> IsOverlay(old(files), path) && files == Committing(old(files), path)
      ensures !ok ==> if IsOverlay(old(files), path) then
                        exists b :: files == old(files)[old(files)[path].backing := Raw(b)]
                      else files == old(files)
    {
      ok := commits(committed) && IsOverlay(files, path);
      if IsOverlay(files, path) {
        files := files[files[path].backing := Raw(if ok then View(files, path) else wreck(committed))];
      }
      committed := committed + 1;
    }

    /** os.Remove with its error ignored: the paths in stuck cannot be removed. */
    method Remove(path: string)
      modifies this
      ensures files == old(files) - ({path} - stuck)
    {
      if path !in stuck {
        files := files - {path};
      }
    }

    /** A block written to the image at path, by whoever has it open. */
    method WriteBlock(path: string, block: nat, value: Block)
      modifies this
      ensures files == Written(old(files), path, block, value)
    {
      files := Written(files, path, block, value);
    }
  }

  predicate IsRaw(files: Files, path: string)
  {
    path in files && files[path].Raw?
  }

  predicate IsOverlay(files: Files, path: string)
  {
    path in files && files[path].Qcow? && IsRaw(files, files[path].backing)
  }

  /** What is read through an overlay: its own blocks over those of its backing image. */
  function View(files: Files, path: string): Blocks
    requires IsOverlay(files, path)
  {
    files[files[path].backing].blocks + files[path].delta
  }

  /** The files after an overlay is merged into its backing image. */
  function Committing(files: Files, path: string): Files
    requires IsOverlay(files, path)
  {
    files[files[path].backing := Raw(View(files, path))]
  }

  /** The blocks of m are in all, with the same values. */
  predicate Agrees(m: Blocks, all: Blocks)
  {
    forall k <- m :: k in all && all[k] == m[k]
  }

  /**
   Two disks on one image: what is left there after both commits is what the first disk read
   exactly if the second wrote only what that says anyway, and what the second disk read
   exactly if the first wrote only that. Otherwise a disk comes back changed.
   */
  lemma SharedImageIff(files: Files, p: string, q: string)
    requires IsOverlay(files, p) && IsOverlay(files, q) && p != q && files[p].backing == files[q].backing
    ensures var after := Committing(Committing(files, p), q)[files[p].backing].blocks;
            && after == View(files, p) + files[q].delta
            && (after == View(files, p) <==> Agrees(files[q].delta, View(files, p)))
            && (after == View(files, q) <==> Agrees(files[p].delta - files[q].delta.Keys, View(files, q)))
  {
    var b, d, e := files[files[p].backing].blocks, files[p].delta, files[q].delta;
    var after := Committing(Committing(files, p), q)[files[p].backing].blocks;
    assert after == b + d + e;
    if Agrees(e, b + d) {
      assert b + d + e == b + d;
    }
    if b + d + e == b + d {
      forall k <- e ensures k in b + d && (b + d)[k] == e[k] {
        assert (b + d + e)[k] == e[k];
      }
    }
    if Agrees(d - e.Keys, b + e) {
      assert b + d + e == b + e;
    }
    if b + d + e == b + e {
      forall k <- d - e.Keys ensures k in b + e && (b + e)[k] == d[k] {
        assert (b + d + e)[k] == d[k];
      }
    }
  }

  function Written(files: Files, path: string, block: nat, value: Block): Files
  {
    if path !in files then files
    else
      match files[path]
      case Raw(b) => files[path := Raw(b[block := value])]
      case Qcow(backing, d) => files[path := Qcow(backing, d[block := value])]
  }

  // ---- Disks and overlays ----

  class Disk {
    var backingPath: string
    var path: string
    var overlayPath: string

    constructor (path: string)
      ensures backingPath == this.path == path && overlayPath == ""
    {
      backingPath, this.path, overlayPath := path, path, "";
    }
  }

  datatype OverlayRef = OverlayRef(path: string, backingPath: string, disk: Disk)

  /** The backing images and the place for overlays of a transaction. */
  datatype Layout = Layout(workdir: string, backings: seq<string>) {
    function PathOf(i: nat): string
      requires i < |backings|
    {
      OverlayPath(workdir, backings[i], i)
    }

    /** No backing image is where an overlay goes. Several disks may have the same one. */
    predicate Valid() {
      forall i, j :: 0 <= i < |backings| && 0 <= j < |backings| ==> backings[i] != PathOf(j)
    }

    lemma PathsDiffer(i: nat, j: nat)
      requires Valid() && i < |backings| && j < |backings| && i != j
      ensures PathOf(i) != PathOf(j)
    {
      if PathOf(i) == PathOf(j) {
        OverlayPathsDistinct(workdir, backings[i], i, backings[j], j);
      }
    }

    /** The paths of the first n overlays. */
    function Paths(n: nat): set<string>
      requires n <= |backings|
    {
      set i: nat | i < n :: PathOf(i)
    }
  }

  function OverlayPaths(os: seq<OverlayRef>): set<string>
  {
    set o | o in os :: o.path
  }

  /** Each overlay in turn is of the disk in its place, and no disk occurs twice. */
  ghost predicate Matches(os: seq<OverlayRef>, disks: seq<Disk>, l: Layout)
  {
    && |os| <= |disks| == |l.backings|
    && (forall i, j :: 0 <= i < j < |disks| ==> disks[i] != disks[j])
    && forall i :: 0 <= i < |os| ==> os[i] == OverlayRef(l.PathOf(i), l.backings[i], disks[i])
  }

  /** Disk i is on its overlay. */
  predicate OnOverlay(d: Disk, l: Layout, i: nat)
    requires i < |l.backings|
    reads d
  {
    d.backingPath == l.backings[i] && d.path == l.PathOf(i) == d.overlayPath
  }

  /** Disk i is on its backing image. */
  predicate OnBacking(d: Disk, l: Layout, i: nat)
    requires i < |l.backings|
    reads d
  {
    d.path == l.backings[i] && d.overlayPath == ""
  }

  method RestorePaths(os: seq<OverlayRef>)
    modifies set o | o in os :: o.disk
    ensures forall i :: 0 <= i < |os| ==> old(os[i].disk.backingPath) == os[i].disk.backingPath
    ensures (forall i, j :: 0 <= i < j < |os| ==> os[i].disk != os[j].disk) ==>
              forall i :: 0 <= i < |os| ==> os[i].disk.path == os[i].backingPath && os[i].disk.overlayPath == ""
  {
    for k := 0 to |os|
      invariant forall i :: 0 <= i < |os| ==> old(os[i].disk.backingPath) == os[i].disk.backingPath
      invariant (forall i, j :: 0 <= i < j < |os| ==> os[i].disk != os[j].disk) ==>
                  forall i :: 0 <= i < k ==> os[i].disk.path == os[i].backingPath && os[i].disk.overlayPath == ""
    {
      os[k].disk.path := os[k].backingPath;
      os[k].disk.overlayPath := "";
    }
  }

  method DiscardOverlays(store: ImageStore, os: seq<OverlayRef>)
    modifies store, set o | o in os :: o.disk
    ensures store.files == old(store.files) - (OverlayPaths(os) - store.stuck)
    ensures forall i :: 0 <= i < |os| ==> old(os[i].disk.backingPath) == os[i].disk.backingPath
    ensures (forall i, j :: 0 <= i < j < |os| ==> os[i].disk != os[j].disk) ==>
              forall i :: 0 <= i < |os| ==> os[i].disk.path == os[i].backingPath && os[i].disk.overlayPath == ""
  {
    if |os| == 0 {
      return;
    }
    for k := 0 to |os|
      modifies store
      invariant store.files == old(store.files) - (OverlayPaths(os[..k]) - store.stuck)
    {
      store.Remove(os[k].path);
      assert os[..k + 1] == os[..k] + [os[k]];
      assert OverlayPaths(os[..k + 1]) == OverlayPaths(os[..k]) + {os[k].path};
    }
    assert os[..|os|] == os;
    RestorePaths(os);
  }

  // ---- Creation ----

  /** A block the guest writes to a disk while the overlays are in place. */
  datatype GuestWrite = GuestWrite(disk: nat, block: nat, value: Block)

  /** The blocks of disk i that the writes leave changed. */
  function Delta(ws: seq<GuestWrite>, i: nat): Blocks
  {
    if ws == [] then map[]
    else
      var w, d := ws[|ws| - 1], Delta(ws[..|ws| - 1], i);
      if w.disk == i then d[w.block := w.value] else d
  }

  /** The files after the first n overlays were created over them and the writes made. */
  ghost predicate WithOverlays(now: Files, before: Files, l: Layout, n: nat, ws: seq<GuestWrite>)
    requires n <= |l.backings|
  {
    && (forall p :: p !in l.Paths(n) ==> (p in now <==> p in before) && (p in now ==> now[p] == before[p]))
    && (forall i: nat :: i < n ==> IsRaw(before, l.backings[i]) && l.PathOf(i) in now && now[l.PathOf(i)] == Qcow(l.backings[i], Delta(ws, i)))
  }

  /** Apart from files that could not be removed, the overlays' paths are as they were before. */
  ghost predicate Cleared(now: Files, before: Files, l: Layout, stuck: set<string>)
  {
    && (forall p <- l.Paths(|l.backings|) :: p in now && p !in stuck ==> p in before && now[p] == before[p])
    && (forall p :: p !in l.Paths(|l.backings|) && p !in l.backings ==> (p in now <==> p in before) && (p in now ==> now[p] == before[p]))
  }

  /** Backing images lo to hi are as before. */
  ghost predicate Untouched(now: Files, before: Files, l: Layout, lo: nat, hi: nat)
    requires hi <= |l.backings|
  {
    forall i :: lo <= i < hi ==>
      (l.backings[i] in now <==> l.backings[i] in before) && (l.backings[i] in now ==> now[l.backings[i]] == before[l.backings[i]])
  }

  lemma PathsSucc(l: Layout, n: nat)
    requires l.Valid() && n < |l.backings|
    ensures l.Paths(n + 1) == l.Paths(n) + {l.PathOf(n)} && l.PathOf(n) !in l.Paths(n)
    ensures l.Paths(n + 1) <= l.Paths(|l.backings|)
    ensures forall i :: 0 <= i < |l.backings| ==> l.backings[i] !in l.Paths(n) && l.backings[i] != l.PathOf(n)
    ensures forall i: nat :: i < n ==> l.PathOf(i) in l.Paths(n) && l.PathOf(i) != l.PathOf(n)
  {
    hide OverlayPath;
    if l.PathOf(n) in l.Paths(n) {
      var i: nat :| i < n && l.PathOf(i) == l.PathOf(n);
      l.PathsDiffer(i, n);
    }
  }

  lemma NoOverlaysYet(f: Files, l: Layout)
    ensures WithOverlays(f, f, l, 0, [])
  {
  }

  lemma OneMoreOverlay(f0: Files, f1: Files, f2: Files, l: Layout, n: nat)
    requires l.Valid() && n < |l.backings| && WithOverlays(f1, f0, l, n, [])
    requires IsRaw(f1, l.backings[n]) && f2 == f1[l.PathOf(n) := Qcow(l.backings[n], map[])]
    ensures WithOverlays(f2, f0, l, n + 1, [])
  {
    hide OverlayPath, Layout.Valid, Layout.PathOf, Layout.Paths;
    PathsSucc(l, n);
    assert l.backings[n] in f0 && f0[l.backings[n]] == f1[l.backings[n]];
  }

  lemma RefPaths(os: seq<OverlayRef>, disks: seq<Disk>, l: Layout)
    requires Matches(os, disks, l)
    ensures OverlayPaths(os) == l.Paths(|os|)
  {
    hide OverlayPath;
    forall i: nat | i < |os| ensures l.PathOf(i) in OverlayPaths(os) {
      assert os[i] in os;
    }
  }

  /** Removing the overlay that failed and those before it puts everything back. */
  lemma CreationUndone(f0: Files, f1: Files, f2: Files, l: Layout, n: nat, stuck: set<string>)
    requires l.Valid() && n < |l.backings| && WithOverlays(f1, f0, l, n, [])
    requires f2 == f1 || f2 == f1[l.PathOf(n) := Qcow(l.backings[n], map[])]
    ensures var f3 := f2 - ({l.PathOf(n)} - stuck) - (l.Paths(n) - stuck);
            Cleared(f3, f0, l, stuck) && Untouched(f3, f0, l, 0, |l.backings|)
  {
    hide OverlayPath, Layout.Valid, Layout.PathOf, IsRaw, Cleared, Untouched;
    CreationCleared(f0, f1, f2, l, n, stuck);
    CreationUntouched(f0, f1, f2, l, n, stuck);
  }

  lemma CreationCleared(f0: Files, f1: Files, f2: Files, l: Layout, n: nat, stuck: set<string>)
    requires l.Valid() && n < |l.backings| && WithOverlays(f1, f0, l, n, [])
    requires f2 == f1 || f2 == f1[l.PathOf(n) := Qcow(l.backings[n], map[])]
    ensures Cleared(f2 - ({l.PathOf(n)} - stuck) - (l.Paths(n) - stuck), f0, l, stuck)
  {
    hide OverlayPath, Layout.Valid, Layout.PathOf, IsRaw;
    PathsSucc(l, n);
  }

  lemma CreationUntouched(f0: Files, f1: Files, f2: Files, l: Layout, n: nat, stuck: set<string>)
    requires l.Valid() && n < |l.backings| && WithOverlays(f1, f0, l, n, [])
    requires f2 == f1 || f2 == f1[l.PathOf(n) := Qcow(l.backings[n], map[])]
    ensures Untouched(f2 - ({l.PathOf(n)} - stuck) - (l.Paths(n) - stuck), f0, l, 0, |l.backings|)
  {
    hide OverlayPath, Layout.Valid, Layout.PathOf, IsRaw;
    PathsSucc(l, n);
  }

  /** What is done when the overlay of disk i cannot be created. */
  method UndoCreation(store: ImageStore, os: seq<OverlayRef>, overlayPath: string, ghost disks: seq<Disk>, ghost i: nat,
                      ghost before: Files, ghost now: Files, ghost l: Layout)
    requires l.Valid() && Matches(os, disks, l) && |os| == i < |disks| && overlayPath == l.PathOf(i)
    requires WithOverlays(now, before, l, i, [])
    requires store.files == now || store.files == now[overlayPath := Qcow(l.backings[i], map[])]
    modifies store, disks
    ensures Cleared(store.files, before, l, store.stuck) && Untouched(store.files, before, l, 0, |disks|)
    ensures forall k :: 0 <= k < i ==> OnBacking(disks[k], l, k)
    ensures forall k :: i <= k < |disks| ==> disks[k].path == old(disks[k].path) && disks[k].overlayPath == old(disks[k].overlayPath)
  {
    hide WithOverlays, Cleared, Untouched, OverlayPath;
    CreationUndone(before, now, store.files, l, i, store.stuck);
    RefPaths(os, disks, l);
    store.Remove(overlayPath);
    DiscardOverlays(store, os);
  }

  method CreateOverlays(store: ImageStore, workdir: string, disks: seq<Disk>, ghost l: Layout)
    returns (os: seq<OverlayRef>, ok: bool)
    requires l.Valid() && l.workdir == workdir && Matches([], disks, l)
    requires forall i :: 0 <= i < |disks| ==> OnBacking(disks[i], l, i) && disks[i].backingPath in {"", l.backings[i]}
    modifies store, disks
    ensures ok ==> Matches(os, disks, l) && |os| == |disks| && WithOverlays(store.files, old(store.files), l, |disks|, [])
    ensures ok ==> forall i :: 0 <= i < |disks| ==> OnOverlay(disks[i], l, i)
    ensures !ok ==> Cleared(store.files, old(store.files), l, store.stuck) && Untouched(store.files, old(store.files), l, 0, |disks|)
    ensures !ok ==> forall i :: 0 <= i < |disks| ==> OnBacking(disks[i], l, i)
  {
    hide WithOverlays, Cleared, Untouched, OverlayPath;
    os := [];
    ghost var before := store.files;
    NoOverlaysYet(before, l);
    for i := 0 to |disks|
      invariant |os| == i && Matches(os, disks, l)
      invariant WithOverlays(store.files, before, l, i, [])
      invariant forall k :: 0 <= k < i ==> OnOverlay(disks[k], l, k)
      invariant forall k :: i <= k < |disks| ==> OnBacking(disks[k], l, k) && disks[k].backingPath in {"", l.backings[k]}
    {
      var disk := disks[i];
      if disk.backingPath == "" {
        disk.backingPath := disk.path;
      }
      var overlayPath := OverlayPath(workdir, disk.backingPath, i);
      ghost var now := store.files;
      var done := store.QemuCreate(disk.backingPath, overlayPath);
      if !done {
        UndoCreation(store, os, overlayPath, disks, i, before, now, l);
        return [], false;
      }
      OneMoreOverlay(before, now, store.files, l, i);
      os := os + [OverlayRef(overlayPath, disk.backingPath, disk)];
      disk.overlayPath := overlayPath;
      disk.path := overlayPath;
    }
    return os, true;
  }

  // ---- The work done on the overlays ----

  lemma WriteLands(f0: Files, f1: Files, l: Layout, ws: seq<GuestWrite>, w: GuestWrite)
    requires l.Valid() && WithOverlays(f1, f0, l, |l.backings|, ws) && w.disk < |l.backings|
    ensures WithOverlays(Written(f1, l.PathOf(w.disk), w.block, w.value), f0, l, |l.backings|, ws + [w])
  {
    hide OverlayPath, Layout.Valid, Layout.PathOf, IsRaw;
    assert l.PathOf(w.disk) in l.Paths(|l.backings|);
    assert (ws + [w])[..|ws|] == ws;
    forall i: nat | i < |l.backings| && i != w.disk ensures l.PathOf(i) != l.PathOf(w.disk) {
      l.PathsDiffer(i, w.disk);
    }
  }

  lemma WriteElsewhere(f0: Files, f1: Files, l: Layout, ws: seq<GuestWrite>, w: GuestWrite)
    requires WithOverlays(f1, f0, l, |l.backings|, ws) && w.disk >= |l.backings|
    ensures WithOverlays(f1, f0, l, |l.backings|, ws + [w])
  {
    hide OverlayPath, IsRaw;
    assert (ws + [w])[..|ws|] == ws;
  }

  /** The guest writes to the paths the disks have now, which are those of their overlays. */
  method RunWrites(store: ImageStore, disks: seq<Disk>, ws: seq<GuestWrite>, ghost before: Files, ghost l: Layout)
    requires l.Valid() && Matches([], disks, l) && WithOverlays(store.files, before, l, |disks|, [])
    requires forall i :: 0 <= i < |disks| ==> OnOverlay(disks[i], l, i)
    modifies store
    ensures WithOverlays(store.files, before, l, |disks|, ws)
    ensures forall i :: 0 <= i < |disks| ==> OnOverlay(disks[i], l, i)
  {
    hide WithOverlays, OverlayPath;
    assert ws[..0] == [];
    for k := 0 to |ws|
      invariant WithOverlays(store.files, before, l, |disks|, ws[..k])
      invariant forall i :: 0 <= i < |disks| ==> OnOverlay(disks[i], l, i)
    {
      var w := ws[k];
      assert ws[..k + 1] == ws[..k] + [w];
      if w.disk < |disks| {
        WriteLands(before, store.files, l, ws[..k], w);
        store.WriteBlock(disks[w.disk].path, w.block, w.value);
      } else {
        WriteElsewhere(before, store.files, l, ws[..k], w);
      }
    }
    assert ws[..|ws|] == ws;
  }

  /** While the overlays are in place the backings are as before and the disks read as written. */
  lemma OverlaysReadThrough(f0: Files, f1: Files, l: Layout, ws: seq<GuestWrite>, i: nat)
    requires l.Valid() && WithOverlays(f1, f0, l, |l.backings|, ws) && i < |l.backings|
    ensures Untouched(f1, f0, l, 0, |l.backings|)
    ensures IsOverlay(f1, l.PathOf(i)) && View(f1, l.PathOf(i)) == f0[l.backings[i]].blocks + Delta(ws, i)
  {
    hide OverlayPath;
    forall k | 0 <= k < |l.backings| ensures l.backings[k] !in l.Paths(|l.backings|) {
    }
  }

  // ---- Commit ----

  /** The writes of the first n disks that go to the image, those of later disks on top. */
  function Merged(l: Layout, ws: seq<GuestWrite>, n: nat, image: string): Blocks
    requires n <= |l.backings|
  {
    if n == 0 then map[]
    else Merged(l, ws, n - 1, image) + if l.backings[n - 1] == image then Delta(ws, n - 1) else map[]
  }

  /** Backing image i has the writes of the first n disks merged into it, as far as they are on it. */
  ghost predicate MergedInto(now: Files, before: Files, l: Layout, ws: seq<GuestWrite>, n: nat, i: nat)
    requires i < |l.backings| && n <= |l.backings|
  {
    IsRaw(before, l.backings[i]) && l.backings[i] in now
    && now[l.backings[i]] == Raw(before[l.backings[i]].blocks + Merged(l, ws, n, l.backings[i]))
  }

  /** All images hold the writes of the first n disks, but for the image of disk n, which may hold anything. */
  ghost predicate MergedUpTo(now: Files, before: Files, l: Layout, ws: seq<GuestWrite>, n: nat)
    requires n < |l.backings|
  {
    forall i: nat :: i < |l.backings| && l.backings[i] != l.backings[n] ==> MergedInto(now, before, l, ws, n, i)
  }

  /** A disk alone on its image finds there its own writes, once its overlay is committed, and nothing else. */
  lemma {:induction false} MergedAlone(l: Layout, ws: seq<GuestWrite>, n: nat, i: nat)
    requires n <= |l.backings| && i < |l.backings|
    requires forall j :: 0 <= j < |l.backings| && j != i ==> l.backings[j] != l.backings[i]
    ensures Merged(l, ws, n, l.backings[i]) == if i < n then Delta(ws, i) else map[]
    decreases n
  {
    hide Delta;
    if n > 0 {
      MergedAlone(l, ws, n - 1, i);
    }
  }

  lemma {:induction false} MergedHas(l: Layout, ws: seq<GuestWrite>, n: nat, i: nat)
    requires i < n <= |l.backings|
    ensures Delta(ws, i).Keys <= Merged(l, ws, n, l.backings[i]).Keys
    decreases n
  {
    hide Delta;
    if i < n - 1 {
      MergedHas(l, ws, n - 1, i);
    }
  }

  /**
   After all commits the image of a disk is what the disk read before them exactly if what
   all the disks on that image wrote agrees with it.
   */
  lemma CommittedReadsAsIff(l: Layout, ws: seq<GuestWrite>, i: nat, before: Blocks)
    requires i < |l.backings|
    ensures var all := Merged(l, ws, |l.backings|, l.backings[i]);
            before + all == before + Delta(ws, i) <==> Agrees(all, before + Delta(ws, i))
  {
    hide Delta, Merged;
    var all, own := Merged(l, ws, |l.backings|, l.backings[i]), Delta(ws, i);
    MergedHas(l, ws, |l.backings|, i);
    if before + all == before + own {
      assert forall k <- all :: (before + all)[k] == all[k];
    }
  }

  /** The first n overlays are committed and gone, or stuck; the rest are as they were. */
  ghost predicate CommittedTo(now: Files, before: Files, l: Layout, ws: seq<GuestWrite>, stuck: set<string>, n: nat)
    requires n <= |l.backings|
  {
    && (forall i: nat :: i < |l.backings| ==> MergedInto(now, before, l, ws, n, i))
    && (forall i: nat :: i < n ==> (l.PathOf(i) in now <==> l.PathOf(i) in stuck))
    && (forall i: nat :: n <= i < |l.backings| ==>
          IsRaw(before, l.backings[i]) && l.PathOf(i) in now && now[l.PathOf(i)] == Qcow(l.backings[i], Delta(ws, i)))
    && (forall p :: p !in l.Paths(|l.backings|) && p !in l.backings ==> (p in now <==> p in before) && (p in now ==> now[p] == before[p]))
  }

  lemma CommitStarts(f0: Files, f1: Files, l: Layout, ws: seq<GuestWrite>, stuck: set<string>)
    requires l.Valid() && WithOverlays(f1, f0, l, |l.backings|, ws)
    ensures CommittedTo(f1, f0, l, ws, stuck, 0)
  {
    hide OverlayPath;
    forall i: nat | i < |l.backings| ensures MergedInto(f1, f0, l, ws, 0, i) {
      assert l.backings[i] !in l.Paths(|l.backings|) && l.PathOf(i) in f1 && IsRaw(f0, l.backings[i]);
      assert f0[l.backings[i]].blocks + map[] == f0[l.backings[i]].blocks;
    }
  }

  /** Which paths a commit of overlay n and its removal leave alone. */
  lemma Apart(l: Layout, n: nat)
    requires l.Valid() && n < |l.backings|
    ensures l.PathOf(n) in l.Paths(|l.backings|) && l.PathOf(n) !in l.backings
    ensures forall i: nat :: i < |l.backings| ==>
              l.PathOf(i) in l.Paths(|l.backings|) && l.PathOf(i) != l.backings[n] && l.backings[i] !in l.Paths(|l.backings|)
    ensures forall i: nat :: i < |l.backings| && i != n ==> l.PathOf(i) != l.PathOf(n)
  {
    hide OverlayPath, Layout.PathOf;
    forall i: nat | i < |l.backings| && i != n ensures l.PathOf(i) != l.PathOf(n) {
      l.PathsDiffer(i, n);
    }
  }

  lemma CommitStep(f0: Files, f1: Files, l: Layout, ws: seq<GuestWrite>, stuck: set<string>, n: nat)
    requires l.Valid() && n < |l.backings| && CommittedTo(f1, f0, l, ws, stuck, n)
    ensures IsOverlay(f1, l.PathOf(n)) && f1[l.PathOf(n)].backing == l.backings[n]
    ensures CommittedTo(f1[l.backings[n] := Raw(View(f1, l.PathOf(n)))] - ({l.PathOf(n)} - stuck), f0, l, ws, stuck, n + 1)
  {
    hide OverlayPath, Layout.PathOf, Layout.Valid, Layout.Paths, Delta, Merged, MergedInto;
    Apart(l, n);
    assert IsRaw(f1, l.backings[n]) by { ImageThere(f0, f1, l, ws, n, n); }
    var f2 := f1[l.backings[n] := Raw(View(f1, l.PathOf(n)))] - ({l.PathOf(n)} - stuck);
    var m := n + 1;
    forall i: nat | i < |l.backings| ensures MergedInto(f2, f0, l, ws, m, i) {
      ImageThere(f0, f1, l, ws, n, i);
      MergedOneMore(f0, f1, f2, l, ws, n, i);
    }
  }

  lemma ImageThere(f0: Files, f1: Files, l: Layout, ws: seq<GuestWrite>, n: nat, i: nat)
    requires n <= |l.backings| && i < |l.backings| && MergedInto(f1, f0, l, ws, n, i)
    ensures IsRaw(f1, l.backings[i])
  {
  }

  lemma MergedOneMore(f0: Files, f1: Files, f2: Files, l: Layout, ws: seq<GuestWrite>, n: nat, i: nat)
    requires n < |l.backings| && i < |l.backings| && MergedInto(f1, f0, l, ws, n, i) && MergedInto(f1, f0, l, ws, n, n)
    requires l.PathOf(n) in f1 && f1[l.PathOf(n)] == Qcow(l.backings[n], Delta(ws, n))
    requires l.backings[n] in f2 && f2[l.backings[n]] == Raw(View(f1, l.PathOf(n)))
    requires l.backings[i] in f2 && (l.backings[i] != l.backings[n] ==> f2[l.backings[i]] == f1[l.backings[i]])
    ensures MergedInto(f2, f0, l, ws, n + 1, i)
  {
    hide OverlayPath, Layout.PathOf, Delta, Merged;
    MergedNext(l, ws, n, l.backings[i], f0[l.backings[i]].blocks);
  }

  lemma MergedNext(l: Layout, ws: seq<GuestWrite>, n: nat, image: string, before: Blocks)
    requires n < |l.backings|
    ensures before + Merged(l, ws, n + 1, image) ==
              if l.backings[n] == image then before + Merged(l, ws, n, image) + Delta(ws, n) else before + Merged(l, ws, n, image)
  {
    hide Delta;
  }

  /** A failed commit, and the discard of all overlays after it. */
  lemma CommitFails(f0: Files, f1: Files, b: Blocks, l: Layout, ws: seq<GuestWrite>, stuck: set<string>, n: nat)
    requires l.Valid() && n < |l.backings| && CommittedTo(f1, f0, l, ws, stuck, n)
    ensures var f2 := f1[l.backings[n] := Raw(b)] - (l.Paths(|l.backings|) - stuck);
            Cleared(f2, f0, l, stuck) && MergedUpTo(f2, f0, l, ws, n)
  {
    hide OverlayPath, Layout.PathOf, Layout.Valid, Layout.Paths, Delta, Merged;
    Apart(l, n);
    var f2 := f1[l.backings[n] := Raw(b)] - (l.Paths(|l.backings|) - stuck);
    forall i: nat | i < |l.backings| && l.backings[i] != l.backings[n] ensures MergedInto(f2, f0, l, ws, n, i) {
      assert MergedInto(f1, f0, l, ws, n, i);
    }
  }

  /** Returns the number of overlays committed; all of them on success. */
  method CommitOverlays(store: ImageStore, os: seq<OverlayRef>, ghost disks: seq<Disk>, ghost before: Files,
                        ghost ws: seq<GuestWrite>, ghost l: Layout)
    returns (n: nat, ok: bool)
    requires l.Valid() && Matches(os, disks, l) && |os| == |disks| && WithOverlays(store.files, before, l, |disks|, ws)
    modifies store, disks
    ensures n <= |disks| && (ok <==> n == |disks|)
    ensures Cleared(store.files, before, l, store.stuck)
    ensures ok ==> forall i: nat :: i < |disks| ==> MergedInto(store.files, before, l, ws, |disks|, i)
    ensures !ok ==> MergedUpTo(store.files, before, l, ws, n)
    ensures forall i :: 0 <= i < |disks| ==> OnBacking(disks[i], l, i)
  {
    hide WithOverlays, CommittedTo, MergedInto, MergedUpTo, Cleared, Untouched, OverlayPath;
    CommitStarts(before, store.files, l, ws, store.stuck);
    n := 0;
    while n < |os|
      invariant 0 <= n <= |os| && CommittedTo(store.files, before, l, ws, store.stuck, n)
    {
      ghost var now := store.files;
      CommitStep(before, now, l, ws, store.stuck, n);
      ok := store.QemuCommit(os[n].path);
      if !ok {
        ghost var b :| store.files == now[l.backings[n] := Raw(b)];
        CommitFails(before, now, b, l, ws, store.stuck, n);
        RefPaths(os, disks, l);
        DiscardOverlays(store, os);
        return;
      }
      store.Remove(os[n].path);
      n := n + 1;
    }
    CommitEnds(before, store.files, l, ws, store.stuck);
    RestorePaths(os);
    ok := true;
  }

  lemma CommitEnds(f0: Files, f1: Files, l: Layout, ws: seq<GuestWrite>, stuck: set<string>)
    requires CommittedTo(f1, f0, l, ws, stuck, |l.backings|)
    ensures Cleared(f1, f0, l, stuck) && forall i: nat :: i < |l.backings| ==> MergedInto(f1, f0, l, ws, |l.backings|, i)
  {
    hide OverlayPath, MergedInto;
  }

  // ---- The whole transaction ----

  /** How the work on the overlays ends. */
  datatype Work = Succeeds | ReturnsError | Panics

  datatype Ending = Committed | CreateFailed | WorkFailed | WorkPanicked | CommitFailed(merged: nat)

  lemma DiscardClears(f0: Files, f1: Files, l: Layout, ws: seq<GuestWrite>, stuck: set<string>)
    requires l.Valid() && WithOverlays(f1, f0, l, |l.backings|, ws)
    ensures var f2 := f1 - (l.Paths(|l.backings|) - stuck);
            Cleared(f2, f0, l, stuck) && Untouched(f2, f0, l, 0, |l.backings|)
  {
    hide OverlayPath, Layout.PathOf, Layout.Paths, Layout.Valid;
    forall i: nat | i < |l.backings| ensures l.backings[i] !in l.Paths(|l.backings|) {
      Apart(l, i);
    }
  }

  /** The deferred second discard after a failed commit changes nothing more. */
  lemma DiscardedAgain(f0: Files, f1: Files, l: Layout, ws: seq<GuestWrite>, stuck: set<string>, n: nat)
    requires l.Valid() && n < |l.backings| && Cleared(f1, f0, l, stuck) && MergedUpTo(f1, f0, l, ws, n)
    ensures var f2 := f1 - (l.Paths(|l.backings|) - stuck);
            Cleared(f2, f0, l, stuck) && MergedUpTo(f2, f0, l, ws, n)
  {
    hide OverlayPath, Layout.PathOf, Layout.Paths, Layout.Valid, Merged;
    forall i: nat | i < |l.backings| ensures l.backings[i] !in l.Paths(|l.backings|) {
      Apart(l, i);
    }
    var f2 := f1 - (l.Paths(|l.backings|) - stuck);
    forall i: nat | i < |l.backings| && l.backings[i] != l.backings[n] ensures MergedInto(f2, f0, l, ws, n, i) {
      assert MergedInto(f1, f0, l, ws, n, i);
    }
  }

  /** What the backing images hold after each ending. */
  ghost predicate BackingsAfter(e: Ending, now: Files, before: Files, l: Layout, ws: seq<GuestWrite>)
  {
    match e
    case Committed => forall i: nat :: i < |l.backings| ==> MergedInto(now, before, l, ws, |l.backings|, i)
    case CommitFailed(n) => n < |l.backings| && MergedUpTo(now, before, l, ws, n)
    case _ => Untouched(now, before, l, 0, |l.backings|)
  }

  /** What happens once the work on the overlays is over, deferred calls included. */
  method FinishTransaction(store: ImageStore, os: seq<OverlayRef>, work: Work, ghost disks: seq<Disk>, ghost before: Files,
                           ghost ws: seq<GuestWrite>, ghost l: Layout)
    returns (e: Ending)
    requires l.Valid() && Matches(os, disks, l) && |os| == |disks| && WithOverlays(store.files, before, l, |disks|, ws)
    modifies store, disks
    ensures Cleared(store.files, before, l, store.stuck) && BackingsAfter(e, store.files, before, l, ws)
    ensures forall i :: 0 <= i < |disks| ==> OnBacking(disks[i], l, i)
    ensures e.Committed? ==> work.Succeeds?
    ensures work.ReturnsError? ==> e.WorkFailed?
    ensures work.Panics? ==> e.WorkPanicked?
    ensures work.Succeeds? ==> e.Committed? || e.CommitFailed?
  {
    hide WithOverlays, CommittedTo, MergedInto, MergedUpTo, Cleared, Untouched, OverlayPath;
    RefPaths(os, disks, l);
    match work
    case ReturnsError =>
      DiscardClears(before, store.files, l, ws, store.stuck);
      DiscardOverlays(store, os);
      e := WorkFailed;
    case Panics =>
      DiscardClears(before, store.files, l, ws, store.stuck);
      DiscardOverlays(store, os);
      e := WorkPanicked;
    case Succeeds =>
      var n, ok := CommitOverlays(store, os, disks, before, ws, l);
      if ok {
        return Committed;
      }
      DiscardedAgain(before, store.files, l, ws, store.stuck, n);
      DiscardOverlays(store, os);
      e := CommitFailed(n);
  }

  /**
   RunWithOverlay. However it ends, every disk is back on its backing image and no overlay
   file it made is left, but for files that cannot be removed. If the work succeeded, the
   backing images carry all the writes, or those of exactly the disks before the one whose
   commit failed; otherwise, or if the overlays could not be made, none.
   */
  method RunWithOverlay(store: ImageStore, workdir: string, disks: seq<Disk>, ws: seq<GuestWrite>, work: Work, ghost l: Layout)
    returns (e: Ending)
    requires l.Valid() && l.workdir == workdir && Matches([], disks, l)
    requires forall i :: 0 <= i < |disks| ==> OnBacking(disks[i], l, i) && disks[i].backingPath in {"", l.backings[i]}
    modifies store, disks
    ensures Cleared(store.files, old(store.files), l, store.stuck) && BackingsAfter(e, store.files, old(store.files), l, ws)
    ensures forall i :: 0 <= i < |disks| ==> OnBacking(disks[i], l, i)
    ensures work.Succeeds? ==> e.Committed? || e.CommitFailed? || e.CreateFailed?
    ensures work.ReturnsError? ==> e.WorkFailed? || e.CreateFailed?
    ensures work.Panics? ==> e.WorkPanicked? || e.CreateFailed?
  {
    hide WithOverlays, CommittedTo, MergedInto, MergedUpTo, Cleared, Untouched, OverlayPath;
    ghost var before := store.files;
    var os, ok := CreateOverlays(store, workdir, disks, l);
    if !ok {
      return CreateFailed;
    }
    RunWrites(store, disks, ws, before, l);
    e := FinishTransaction(store, os, work, disks, before, ws, l);
  }
}
