/** When two spellings of a guest block device are taken for the same device. */
module LvmAliases {
  import opened Results
  import opened Text
  import opened Paths

  function Escape(s: string): string
  {
    if s == "" then "" else (if s[0] == '-' then "--" else [s[0]]) + Escape(s[1..])
  }

  /** mapperAlias; None when the path is not of an LVM style. */
  function MapperAlias(dev: string): Option<string>
  {
    var d := Clean(dev);
    if "/dev/mapper/" <= d then Some(d)
    else if !("/dev/" <= d) || d == "/dev/" then None
    else
      var parts := Split(d[5..], '/');
      if |parts| != 2 || parts[0] == "" || parts[1] == "" then None
      else Some("/dev/mapper/" + MapperName(parts[0], parts[1]))
  }

  function MapperName(vg: string, lv: string): string
  {
    Escape(vg) + "-" + Escape(lv)
  }

  function LvmAliasesEqual(a: string, b: string): bool
  {
    var ma, mb := MapperAlias(a), MapperAlias(b);
    if ma.Some? && mb.Some? then ma == mb
    else if ma.Some? then ma.value == b || ma.value == Base(b)
    else if mb.Some? then mb.value == a || mb.value == Base(a)
    else false
  }

  predicate IsDevLeaf(dev: string)
  {
    if "/dev/mapper/" <= dev then dev[12..] != "" && '/' !in dev[12..]
    else "/dev/" <= dev && dev[5..] != "" && '/' !in dev[5..]
  }

  /** deviceEqual. */
  function DeviceEqual(a0: string, b0: string): bool
  {
    var a, b := Clean(TrimSpace(a0)), Clean(TrimSpace(b0));
    if a == "" || b == "" then false
    else if a == b then true
    else if LvmAliasesEqual(a, b) then true
    else IsDevLeaf(a) && IsDevLeaf(b) && Base(a) == Base(b)
  }

  // ---- Mapper names decoded ----

  /** Takes doubled hyphens for hyphens, up to the first one left single. */
  function Decode(s: string): (string, string)
  {
    if s == "" then ("", "")
    else if s[0] != '-' then (([s[0]] + Decode(s[1..]).0), Decode(s[1..]).1)
    else if |s| > 1 && s[1] == '-' then ("-" + Decode(s[2..]).0, Decode(s[2..]).1)
    else ("", s[1..])
  }

  function Unescape(s: string): string
  {
    if s == "" then ""
    else if s[0] == '-' && |s| > 1 then "-" + Unescape(s[2..])
    else [s[0]] + Unescape(s[1..])
  }

  /** The pair with the hyphens at the front of the LV moved to the end of the VG. */
  function Shift(vg: string, lv: string): (string, string)
    decreases |lv|
  {
    if lv != "" && lv[0] == '-' then Shift(vg + "-", lv[1..]) else (vg, lv)
  }

  lemma {:induction false} UnescapeEscape(s: string)
    ensures Unescape(Escape(s)) == s
  {
    if s != "" {
      UnescapeEscape(s[1..]);
      if s[0] == '-' {
        assert Escape(s)[2..] == Escape(s[1..]);
      } else {
        assert Escape(s)[1..] == Escape(s[1..]);
      }
    }
  }

  lemma {:induction false} EscapeSnoc(s: string)
    ensures Escape(s + "-") == Escape(s) + "--"
  {
    if s == "" {
      assert ("-")[1..] == "";
    } else {
      assert (s + "-")[1..] == s[1..] + "-";
      EscapeSnoc(s[1..]);
    }
  }

  lemma {:induction false} DecodeEscaped(vg: string, lv: string)
    requires lv != "" ==> lv[0] != '-'
    ensures Decode(MapperName(vg, lv)) == (vg, Escape(lv))
    decreases |vg|
  {
    var s := MapperName(vg, lv);
    if vg == "" {
      assert s[0] == '-' && s[1..] == Escape(lv);
      assert lv != "" ==> s[1] == lv[0];
    } else {
      DecodeEscaped(vg[1..], lv);
      if vg[0] == '-' {
        assert s == "--" + MapperName(vg[1..], lv);
        assert s[0] == '-' && s[1] == '-' && s[2..] == MapperName(vg[1..], lv);
        assert "-" + vg[1..] == vg;
      } else {
        assert s == [vg[0]] + MapperName(vg[1..], lv);
        assert s[0] == vg[0] && s[1..] == MapperName(vg[1..], lv);
        assert [vg[0]] + vg[1..] == vg;
      }
    }
  }

  lemma MoveHyphen(vg: string, lv: string)
    requires lv != "" && lv[0] == '-'
    ensures MapperName(vg + "-", lv[1..]) == MapperName(vg, lv)
  {
    EscapeSnoc(vg);
    var v, l := Escape(vg), Escape(lv[1..]);
    assert v + "--" + "-" + l == v + "-" + ("--" + l);
  }

  lemma {:induction false} ShiftKeepsName(vg: string, lv: string)
    ensures var (v, l) := Shift(vg, lv); MapperName(v, l) == MapperName(vg, lv) && (l != "" ==> l[0] != '-')
    decreases |lv|
  {
    hide MapperName;
    if lv != "" && lv[0] == '-' {
      MoveHyphen(vg, lv);
      ShiftKeepsName(vg + "-", lv[1..]);
    }
  }

  /** Mapper names tell VG and LV apart, but for hyphens at the front of the LV. */
  lemma MapperNameIff(vg1: string, lv1: string, vg2: string, lv2: string)
    ensures MapperName(vg1, lv1) == MapperName(vg2, lv2) <==> Shift(vg1, lv1) == Shift(vg2, lv2)
  {
    hide MapperName, Shift;
    var p1, p2 := Shift(vg1, lv1), Shift(vg2, lv2);
    ShiftKeepsName(vg1, lv1);
    ShiftKeepsName(vg2, lv2);
    DecodeEscaped(p1.0, p1.1);
    DecodeEscaped(p2.0, p2.1);
    UnescapeEscape(p1.1);
    UnescapeEscape(p2.1);
  }

  // ---- /dev/VG/LV paths ----

  predicate LvmName(n: string)
  {
    Normal(n) && NoSpace(n)
  }

  /** Names that a /dev/VG/LV path can be made of and still be read as one. */
  predicate LvmPair(vg: string, lv: string)
  {
    LvmName(vg) && LvmName(lv) && vg != "mapper"
  }

  function LvPath(vg: string, lv: string): string
  {
    "/dev/" + vg + "/" + lv
  }

  lemma DevPathClean(cs: seq<string>)
    requires AllNormal(cs) && cs != [] && forall i :: 0 <= i < |cs| ==> NoSpace(cs[i])
    ensures var p := "/" + Join(cs, '/'); TrimSpace(p) == p && Clean(p) == p
  {
    hide Clean, TrimSpace, Join, AllNormal;
    var j := Join(cs, '/');
    CleanOfAbsolute(cs);
    if j != "" && IsSpace(j[|j| - 1]) {
      JoinChars(cs, '/', j[|j| - 1]);
      assert false;
    }
    TrimmedUnchanged("/" + j);
  }

  lemma LvPathClean(vg: string, lv: string)
    requires LvmPair(vg, lv)
    ensures TrimSpace(LvPath(vg, lv)) == LvPath(vg, lv) && Clean(LvPath(vg, lv)) == LvPath(vg, lv)
  {
    var cs := ["dev", vg, lv];
    assert cs[1..] == [vg, lv] && cs[1..][1..] == [lv];
    assert Join([vg, lv], '/') == vg + "/" + lv;
    assert "/" + Join(cs, '/') == LvPath(vg, lv);
    DevPathClean(cs);
  }

  lemma PrefixMapper(vg: string, rest: string)
    requires '/' !in vg && "/dev/mapper/" <= "/dev/" + vg + "/" + rest
    ensures vg == "mapper"
  {
    var s := "/dev/" + vg + "/" + rest;
    assert forall i :: 5 <= i < 5 + |vg| ==> s[i] == vg[i - 5];
    assert forall i :: 5 <= i < 12 ==> s[i] == "mapper/"[i - 5];
    assert s[11] == '/' && s[5 + |vg|] == '/';
    assert |vg| == 6;
    assert forall i :: 0 <= i < 6 ==> vg[i] == s[5 + i];
  }

  lemma LvPathAlias(vg: string, lv: string)
    requires LvmPair(vg, lv)
    ensures MapperAlias(LvPath(vg, lv)) == Some("/dev/mapper/" + MapperName(vg, lv))
    ensures !IsDevLeaf(LvPath(vg, lv)) && !("/dev/mapper/" <= LvPath(vg, lv))
  {
    hide Clean, MapperName, Split;
    LvPathClean(vg, lv);
    var p := LvPath(vg, lv);
    if "/dev/mapper/" <= p {
      PrefixMapper(vg, lv);
    }
    assert p[..5] == "/dev/" && p[5..] == vg + "/" + lv;
    assert p[5..][|vg|] == '/';
    SplitCons(vg, lv, '/');
    SplitNone(lv, '/');
  }

  /** Two /dev/VG/LV paths are taken for one device exactly when they spell the same mapper name. */
  lemma LvPathsEqualIff(vg1: string, lv1: string, vg2: string, lv2: string)
    requires LvmPair(vg1, lv1) && LvmPair(vg2, lv2)
    ensures DeviceEqual(LvPath(vg1, lv1), LvPath(vg2, lv2)) <==> Shift(vg1, lv1) == Shift(vg2, lv2)
  {
    hide Clean, TrimSpace, MapperAlias, MapperName, Shift, IsDevLeaf;
    LvPathClean(vg1, lv1);
    LvPathClean(vg2, lv2);
    LvPathAlias(vg1, lv1);
    LvPathAlias(vg2, lv2);
    MapperNameIff(vg1, lv1, vg2, lv2);
    var a, b := "/dev/mapper/" + MapperName(vg1, lv1), "/dev/mapper/" + MapperName(vg2, lv2);
    assert MapperName(vg1, lv1) == a[12..] && MapperName(vg2, lv2) == b[12..];
  }

  /** For names LVM allows, where no LV starts with a hyphen, that is when VG and LV are the same. */
  lemma LvPathsEqualSamePair(vg1: string, lv1: string, vg2: string, lv2: string)
    requires LvmPair(vg1, lv1) && LvmPair(vg2, lv2) && lv1[0] != '-' && lv2[0] != '-'
    ensures DeviceEqual(LvPath(vg1, lv1), LvPath(vg2, lv2)) <==> vg1 == vg2 && lv1 == lv2
  {
    hide DeviceEqual, LvPath;
    LvPathsEqualIff(vg1, lv1, vg2, lv2);
  }

  /** A path below /dev/mapper is taken for a /dev/VG/LV path exactly when it names its mapper. */
  lemma MapperPathIff(dev: string, vg: string, lv: string)
    requires LvmPair(vg, lv) && "/dev/mapper/" <= Clean(TrimSpace(dev)) && Rooted(TrimSpace(dev))
    ensures DeviceEqual(dev, LvPath(vg, lv)) <==> Clean(TrimSpace(dev)) == "/dev/mapper/" + MapperName(vg, lv)
  {
    hide Clean, TrimSpace, MapperName, Shift, IsDevLeaf;
    LvPathClean(vg, lv);
    LvPathAlias(vg, lv);
    CleanIdempotent(TrimSpace(dev));
  }

  /** So it is taken for at most one pair, if LVs do not start with a hyphen. */
  lemma MapperPathUnique(dev: string, vg1: string, lv1: string, vg2: string, lv2: string)
    requires LvmPair(vg1, lv1) && LvmPair(vg2, lv2) && lv1[0] != '-' && lv2[0] != '-'
    requires "/dev/mapper/" <= Clean(TrimSpace(dev)) && Rooted(TrimSpace(dev))
    requires DeviceEqual(dev, LvPath(vg1, lv1)) && DeviceEqual(dev, LvPath(vg2, lv2))
    ensures vg1 == vg2 && lv1 == lv2
  {
    hide DeviceEqual, LvPath, Clean, TrimSpace, MapperName;
    MapperPathIff(dev, vg1, lv1);
    MapperPathIff(dev, vg2, lv2);
    var a, b := "/dev/mapper/" + MapperName(vg1, lv1), "/dev/mapper/" + MapperName(vg2, lv2);
    assert MapperName(vg1, lv1) == a[12..] && MapperName(vg2, lv2) == b[12..];
    MapperNameIff(vg1, lv1, vg2, lv2);
  }

  /** A hyphen may change sides: any VG ending in one collides with the VG without it. */
  lemma HyphenCollision(vg: string, lv: string)
    requires LvmPair(vg + "-", lv) && LvmPair(vg, "-" + lv)
    ensures DeviceEqual(LvPath(vg + "-", lv), LvPath(vg, "-" + lv))
  {
    hide DeviceEqual, LvPath;
    LvPathsEqualIff(vg + "-", lv, vg, "-" + lv);
    assert ("-" + lv)[1..] == lv;
  }

  // ---- The relation as a whole ----

  /** What deviceEqual compares: a clean rooted path, or one that is not rooted. */
  predicate Canonical(p: string)
  {
    Rooted(p) ==> Clean(p) == p
  }

  lemma CleanIsCanonical(p: string)
    ensures Canonical(Clean(p))
  {
    if Rooted(p) {
      CleanIdempotent(p);
    } else if p != "" && Parts(p) != [] {
      RelativeParts(Split(p, '/'), []);
      assert Clean(p)[0] == Parts(p)[0][0];
    }
  }

  /** The cases comparing an alias with the other path's spelling never apply. */
  lemma OneSidedAliasNever(a: string, b: string)
    requires Canonical(a) && Canonical(b)
    ensures LvmAliasesEqual(a, b) <==> MapperAlias(a).Some? && MapperAlias(a) == MapperAlias(b)
  {
    hide Clean, MapperName, AfterLastSlash;
    var m := "/dev/mapper/";
    if MapperAlias(a).Some? {
      assert m <= MapperAlias(a).value && MapperAlias(a).value[4] == '/';
    }
    if MapperAlias(b).Some? {
      assert m <= MapperAlias(b).value && MapperAlias(b).value[4] == '/';
    }
  }

  lemma DeviceEqualSymmetric(a: string, b: string)
    ensures DeviceEqual(a, b) == DeviceEqual(b, a)
  {
    hide Clean, TrimSpace, MapperAlias, IsDevLeaf, Base;
  }

  lemma {:induction false} CleanNotEmpty(p: string)
    ensures Clean(p) != ""
  {
    if p != "" && !Rooted(p) && Parts(p) != [] {
      RelativeParts(Split(p, '/'), []);
    }
  }

  /** Every device is taken for itself, the empty one too: cleaning makes "." of it. */
  lemma DeviceEqualReflexive(a: string)
    ensures DeviceEqual(a, a)
  {
    CleanNotEmpty(TrimSpace(a));
  }

  /**
   The relation is not transitive: the mapper path of an LV is taken for the LV's path, and
   for a device of the mapper's name directly in /dev, but these two are not taken for one.
   */
  lemma NotTransitive(vg: string, lv: string)
    requires LvmPair(vg, lv)
    ensures var name := MapperName(vg, lv);
            && DeviceEqual("/dev/" + name, "/dev/mapper/" + name)
            && DeviceEqual("/dev/mapper/" + name, LvPath(vg, lv))
            && !DeviceEqual("/dev/" + name, LvPath(vg, lv))
  {
    hide Clean, TrimSpace, MapperAlias, IsDevLeaf, Base, Shift, MapperName, LvPath, Normal;
    var name := MapperName(vg, lv);
    MapperNameIsName(vg, lv);
    LeafPath(name);
    LvPathClean(vg, lv);
    LvPathAlias(vg, lv);
    MapperPathIff("/dev/mapper/" + name, vg, lv);
  }

  lemma {:induction false} EscapeChars(s: string, c: char)
    requires c in Escape(s)
    ensures c in s || c == '-'
  {
    if s != "" && c !in s {
      EscapeChars(s[1..], c);
    }
  }

  lemma MapperNameIsName(vg: string, lv: string)
    requires LvmPair(vg, lv)
    ensures LvmName(MapperName(vg, lv))
  {
    var name := MapperName(vg, lv);
    assert name[|Escape(vg)|] == '-' && '-' in name;
    forall c <- name ensures c != '/' && !IsSpace(c) {
      if c in Escape(vg) {
        EscapeChars(vg, c);
      } else if c in Escape(lv) {
        EscapeChars(lv, c);
      }
    }
  }

  // ---- When the relation is transitive ----

  predicate OnMapper(p: string)
  {
    "/dev/mapper/" <= p
  }

  /** The name of a device directly in /dev or /dev/mapper. */
  function LeafName(p: string): string
    requires IsDevLeaf(p)
  {
    if OnMapper(p) then p[12..] else p[5..]
  }

  /** When two canonical paths are taken for one device. */
  predicate Same(p: string, q: string)
  {
    || p == q
    || (MapperAlias(p).Some? && MapperAlias(p) == MapperAlias(q))
    || (IsDevLeaf(p) && IsDevLeaf(q) && LeafName(p) == LeafName(q))
  }

  lemma LeafShapes(p: string)
    requires IsDevLeaf(p)
    ensures LeafName(p) != "" && '/' !in LeafName(p) && Base(p) == LeafName(p)
    ensures p == (if OnMapper(p) then "/dev/mapper/" else "/dev/") + LeafName(p)
  {
    hide Base;
    var dir := if OnMapper(p) then "/dev/mapper" else "/dev";
    assert p == dir + "/" + LeafName(p);
    LeafBase(dir, LeafName(p));
  }

  /** What the cases exclude: mapper paths are their own aliases, and devices in /dev have none. */
  lemma AliasShapes(p: string)
    requires Canonical(p)
    ensures OnMapper(p) ==> MapperAlias(p) == Some(p)
    ensures MapperAlias(p).Some? ==> OnMapper(MapperAlias(p).value)
    ensures IsDevLeaf(p) && !OnMapper(p) ==> MapperAlias(p) == None
  {
    hide Clean, MapperName, Split;
    if IsDevLeaf(p) && !OnMapper(p) {
      SplitNone(p[5..], '/');
    }
  }

  lemma DeviceEqualIsSame(a: string, b: string)
    ensures DeviceEqual(a, b) <==> Same(Clean(TrimSpace(a)), Clean(TrimSpace(b)))
  {
    hide Clean, TrimSpace, MapperAlias, IsDevLeaf, Base, LvmAliasesEqual, LeafName;
    var p, q := Clean(TrimSpace(a)), Clean(TrimSpace(b));
    CleanNotEmpty(TrimSpace(a));
    CleanNotEmpty(TrimSpace(b));
    CleanIsCanonical(TrimSpace(a));
    CleanIsCanonical(TrimSpace(b));
    OneSidedAliasNever(p, q);
    if IsDevLeaf(p) {
      LeafShapes(p);
    }
    if IsDevLeaf(q) {
      LeafShapes(q);
    }
  }

  /** The middle one is the mapper path of an LV, seen once by its name and once by its LV. */
  predicate Breaks(p: string, q: string, r: string)
  {
    OnMapper(q) && IsDevLeaf(q) && p == "/dev/" + q[12..] && !OnMapper(r) && MapperAlias(r) == Some(q)
  }

  lemma DevLeaf(name: string)
    requires name != "" && '/' !in name
    ensures IsDevLeaf("/dev/" + name) && !OnMapper("/dev/" + name) && LeafName("/dev/" + name) == name
  {
    var p := "/dev/" + name;
    assert p[5..] == name && forall i :: 5 <= i < |p| ==> p[i] == name[i - 5];
    assert "/dev/mapper/"[11] == '/';
  }

  lemma SameTransitiveIff(p: string, q: string, r: string)
    requires Canonical(p) && Canonical(q) && Canonical(r) && Same(p, q) && Same(q, r)
    ensures !Same(p, r) <==> Breaks(p, q, r) || Breaks(r, q, p)
  {
    hide Canonical, MapperAlias, IsDevLeaf, OnMapper, LeafName;
    AliasShapes(p);
    AliasShapes(q);
    AliasShapes(r);
    LeafFacts(p);
    LeafFacts(q);
    LeafFacts(r);
  }

  lemma LeafFacts(p: string)
    ensures IsDevLeaf(p) ==> p == (if OnMapper(p) then "/dev/mapper/" else "/dev/") + LeafName(p)
    ensures IsDevLeaf(p) && OnMapper(p) ==> p[12..] == LeafName(p)
    ensures IsDevLeaf(p) ==> IsDevLeaf("/dev/" + LeafName(p)) && !OnMapper("/dev/" + LeafName(p))
                             && LeafName("/dev/" + LeafName(p)) == LeafName(p)
  {
    hide Base;
    if IsDevLeaf(p) {
      LeafShapes(p);
      DevLeaf(LeafName(p));
    }
  }

  /**
   For any three names of which the first two and the last two are taken for one device each,
   the first and the last are not exactly if the middle one is a mapper path, one of the
   others the device of its name directly in /dev, and the other the VG/LV path it is for.
   */
  lemma TransitiveIff(a: string, b: string, c: string)
    requires DeviceEqual(a, b) && DeviceEqual(b, c)
    ensures var (p, q, r) := (Clean(TrimSpace(a)), Clean(TrimSpace(b)), Clean(TrimSpace(c)));
            !DeviceEqual(a, c) <==> Breaks(p, q, r) || Breaks(r, q, p)
  {
    hide DeviceEqual, Clean, TrimSpace, Same, Breaks, Canonical;
    DeviceEqualIsSame(a, b);
    DeviceEqualIsSame(b, c);
    DeviceEqualIsSame(a, c);
    CleanIsCanonical(TrimSpace(a));
    CleanIsCanonical(TrimSpace(b));
    CleanIsCanonical(TrimSpace(c));
    SameTransitiveIff(Clean(TrimSpace(a)), Clean(TrimSpace(b)), Clean(TrimSpace(c)));
  }

  lemma LeafBase(dir: string, name: string)
    requires name != "" && '/' !in name
    ensures Base(dir + "/" + name) == name
  {
    var p := dir + "/" + name;
    assert p[|p| - 1] == name[|name| - 1] && p[|p| - 1] != '/';
    SplitAppend(dir, name, '/');
    SplitNone(name, '/');
  }

  lemma DevNames()
    ensures LvmName("dev") && LvmName("mapper")
  {
  }

  lemma LeafShape(name: string)
    requires Normal(name)
    ensures var p, m := "/dev/" + name, "/dev/mapper/" + name;
            && p[5..] == name && m[12..] == name && '/' !in name && name != ""
            && "/dev/" <= p && "/dev/mapper/" <= m && !("/dev/mapper/" <= p)
  {
    var p := "/dev/" + name;
    assert forall i :: 5 <= i < |p| ==> p[i] == name[i - 5];
    assert "/dev/mapper/"[11] == '/';
  }

  lemma LeafPath(name: string)
    requires LvmName(name)
    ensures var p, m := "/dev/" + name, "/dev/mapper/" + name;
            && TrimSpace(p) == p && Clean(p) == p && TrimSpace(m) == m && Clean(m) == m
            && IsDevLeaf(p) && IsDevLeaf(m) && Base(p) == Base(m) == name
            && MapperAlias(p) == None && MapperAlias(m) == Some(m) && Rooted(m)
  {
    hide Clean, TrimSpace, Base, Normal, Split;
    var p, m := "/dev/" + name, "/dev/mapper/" + name;
    DevNames();
    assert ["dev", name][1..] == [name] && ["dev", "mapper", name][1..] == ["mapper", name] && ["mapper", name][1..] == [name];
    assert p == "/" + Join(["dev", name], '/');
    assert m == "/" + Join(["dev", "mapper", name], '/');
    DevPathClean(["dev", name]);
    DevPathClean(["dev", "mapper", name]);
    LeafShape(name);
    LeafBase("/dev", name);
    LeafBase("/dev/mapper", name);
    assert "/dev" + "/" + name == p && "/dev/mapper" + "/" + name == m;
    SplitNone(name, '/');
  }
}
