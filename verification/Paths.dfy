/** Go's path/filepath on Unix, as far as the mount tables need it: Clean, Join, Rel, Base. */
module Paths {
  import opened Results
  import opened Text

  /** A path element that names something. */
  predicate Normal(c: string)
  {
    c != "" && c != "." && c != ".." && '/' !in c
  }

  predicate AllNormal(cs: seq<string>)
  {
    forall i :: 0 <= i < |cs| ==> Normal(cs[i])
  }

  predicate Rooted(p: string)
  {
    p != "" && p[0] == '/'
  }

  /** Takes path elements one by one onto those in front of them. */
  function Resolve(cs: seq<string>, rooted: bool, onto: seq<string>): seq<string>
    decreases |cs|
  {
    if cs == [] then onto
    else
      var next :=
        if cs[0] == "" || cs[0] == "." then onto
        else if cs[0] != ".." then onto + [cs[0]]
        else if onto != [] && onto[|onto| - 1] != ".." then onto[..|onto| - 1]
        else if rooted then onto
        else onto + [".."];
      Resolve(cs[1..], rooted, next)
  }

  /** The elements of the cleaned form of a path. */
  function Parts(p: string): seq<string>
  {
    Resolve(Split(p, '/'), Rooted(p), [])
  }

  function Clean(p: string): string
  {
    if p == "" then "."
    else if Rooted(p) then "/" + Join(Parts(p), '/')
    else if Parts(p) == [] then "."
    else Join(Parts(p), '/')
  }

  /** filepath.Join of two elements. */
  function JoinPath(a: string, b: string): string
  {
    if a != "" then Clean(a + "/" + b)
    else if b != "" then Clean(b)
    else ""
  }

  function CommonPrefix(a: seq<string>, b: seq<string>): (n: nat)
    ensures n <= |a| && n <= |b|
    ensures a[..n] == b[..n]
  {
    if a == [] || b == [] || a[0] != b[0] then 0 else 1 + CommonPrefix(a[1..], b[1..])
  }

  function Ups(n: nat): seq<string>
  {
    if n == 0 then [] else [".."] + Ups(n - 1)
  }

  /** filepath.Rel; None stands for its error. */
  function Rel(base: string, targ: string): Option<string>
  {
    var b, t := Clean(base), Clean(targ);
    if t == b then Some(".")
    else if Rooted(b) != Rooted(t) then None
    else
      var bs, ts := Parts(b), Parts(t);
      var n := CommonPrefix(bs, ts);
      if n < |bs| && bs[n] == ".." then None
      else Some(Join(Ups(|bs| - n) + ts[n..], '/'))
  }

  function DropSlashes(p: string): string
  {
    if p != "" && p[|p| - 1] == '/' then DropSlashes(p[..|p| - 1]) else p
  }

  function AfterLastSlash(p: string): (r: string)
    ensures '/' !in r
  {
    var parts := Split(p, '/');
    parts[|parts| - 1]
  }

  /** filepath.Base. */
  function Base(p: string): string
  {
    if p == "" then "."
    else
      var last := AfterLastSlash(DropSlashes(p));
      if last == "" then "/" else last
  }

  // ---- Splitting at a separator that is really there ----

  lemma {:induction false} ResolveAppend(a: seq<string>, b: seq<string>, rooted: bool, onto: seq<string>)
    ensures Resolve(a + b, rooted, onto) == Resolve(b, rooted, Resolve(a, rooted, onto))
    decreases |a|
  {
    if a == [] {
      assert a + b == b;
    } else {
      assert (a + b)[1..] == a[1..] + b;
      var next :=
        if a[0] == "" || a[0] == "." then onto
        else if a[0] != ".." then onto + [a[0]]
        else if onto != [] && onto[|onto| - 1] != ".." then onto[..|onto| - 1]
        else if rooted then onto
        else onto + [".."];
      ResolveAppend(a[1..], b, rooted, next);
    }
  }

  lemma {:induction false} ResolveNormal(cs: seq<string>, rooted: bool, onto: seq<string>)
    requires AllNormal(cs)
    ensures Resolve(cs, rooted, onto) == onto + cs
    decreases |cs|
  {
    if cs == [] {
      assert onto + cs == onto;
    } else {
      ResolveNormal(cs[1..], rooted, onto + [cs[0]]);
      assert onto + [cs[0]] + cs[1..] == onto + cs;
    }
  }

  /** What is left of a rooted path after cleaning are names, with no way up. */
  lemma {:induction false} ResolveRooted(cs: seq<string>, onto: seq<string>)
    requires AllNormal(onto) && forall i :: 0 <= i < |cs| ==> '/' !in cs[i]
    ensures AllNormal(Resolve(cs, true, onto))
    decreases |cs|
  {
    if cs != [] {
      var next :=
        if cs[0] == "" || cs[0] == "." then onto
        else if cs[0] != ".." then onto + [cs[0]]
        else if onto != [] && onto[|onto| - 1] != ".." then onto[..|onto| - 1]
        else onto;
      ResolveRooted(cs[1..], next);
    }
  }

  lemma RootedParts(p: string)
    requires Rooted(p)
    ensures AllNormal(Parts(p)) && Clean(p) == "/" + Join(Parts(p), '/')
  {
    ResolveRooted(Split(p, '/'), []);
  }

  /** The parts of names strung together after the root. */
  lemma PartsOfAbsolute(cs: seq<string>)
    requires AllNormal(cs)
    ensures Parts("/" + Join(cs, '/')) == cs
  {
    var j := Join(cs, '/');
    assert "" + "/" + j == "/" + j;
    SplitAppend("", j, '/');
    if cs == [] {
      assert "/" + j == "/" && Split(j, '/') == [""];
      assert Split("/", '/') == ["", ""];
      assert ["", ""][1..] == [""] && [""][1..] == [];
    } else {
      SplitJoin(cs, '/');
      assert Split("/" + j, '/') == [""] + cs;
      assert ([""] + cs)[1..] == cs;
      ResolveNormal(cs, true, []);
    }
  }

  lemma CleanOfAbsolute(cs: seq<string>)
    requires AllNormal(cs)
    ensures Clean("/" + Join(cs, '/')) == "/" + Join(cs, '/')
  {
    PartsOfAbsolute(cs);
  }

  /** Cleaning does not change what a rooted path names, and is done after one pass. */
  lemma CleanIdempotent(p: string)
    requires Rooted(p)
    ensures Parts(Clean(p)) == Parts(p) && Clean(Clean(p)) == Clean(p)
  {
    RootedParts(p);
    PartsOfAbsolute(Parts(p));
  }

  /** Joining a rooted path and a further one goes on from where the first one leads. */
  lemma PartsOfJoin(root: string, b: string)
    requires Rooted(root)
    ensures JoinPath(root, b) == Clean(root + "/" + b) && Rooted(root + "/" + b)
    ensures Parts(root + "/" + b) == Resolve(Split(b, '/'), true, Parts(root))
  {
    SplitAppend(root, b, '/');
    ResolveAppend(Split(root, '/'), Split(b, '/'), true, []);
  }

  lemma JoinNames(root: string, cs: seq<string>)
    requires Rooted(root) && AllNormal(cs) && cs != []
    ensures JoinPath(root, Join(cs, '/')) == "/" + Join(Parts(root) + cs, '/')
    ensures AllNormal(Parts(root) + cs)
  {
    PartsOfJoin(root, Join(cs, '/'));
    SplitJoin(cs, '/');
    RootedParts(root);
    ResolveNormal(cs, true, Parts(root));
  }

  lemma {:induction false} JoinAbsoluteInjective(a: seq<string>, b: seq<string>)
    requires AllNormal(a) && AllNormal(b) && "/" + Join(a, '/') == "/" + Join(b, '/')
    ensures a == b
  {
    PartsOfAbsolute(a);
    PartsOfAbsolute(b);
  }

  lemma {:induction false} RelativeParts(cs: seq<string>, onto: seq<string>)
    requires forall i :: 0 <= i < |onto| ==> onto[i] != "" && '/' !in onto[i]
    requires forall i :: 0 <= i < |cs| ==> '/' !in cs[i]
    ensures forall i :: 0 <= i < |Resolve(cs, false, onto)| ==>
              Resolve(cs, false, onto)[i] != "" && '/' !in Resolve(cs, false, onto)[i]
    decreases |cs|
  {
    if cs != [] {
      var next :=
        if cs[0] == "" || cs[0] == "." then onto
        else if cs[0] != ".." then onto + [cs[0]]
        else if onto != [] && onto[|onto| - 1] != ".." then onto[..|onto| - 1]
        else onto + [".."];
      RelativeParts(cs[1..], next);
    }
  }

  lemma ResolvedParts(cs: seq<string>, name: string)
    requires (forall i :: 0 <= i < |cs| ==> '/' !in cs[i]) && Normal(name)
    ensures var parts := Resolve(cs + [name], false, []);
            parts == Resolve(cs, false, []) + [name] && forall i :: 0 <= i < |parts| ==> '/' !in parts[i]
  {
    ResolveAppend(cs, [name], false, []);
    ResolveNormal([name], false, Resolve(cs, false, []));
    RelativeParts(cs, []);
  }

  /** The path of a name in a directory that is not rooted, or in no directory. */
  lemma RelativeJoin(dir: string, name: string) returns (parts: seq<string>)
    requires !Rooted(dir) && Normal(name)
    ensures parts != [] && parts[|parts| - 1] == name && Split(JoinPath(dir, name), '/') == parts
  {
    hide Resolve;
    if dir == "" {
      SplitNone(name, '/');
      assert [] + [name] == [name];
      ResolvedParts([], name);
      assert Resolve([], false, []) == [] by { ResolveNothing(); }
      parts := [name];
    } else {
      var p := dir + "/" + name;
      assert p[0] == dir[0];
      SplitAppend(dir, name, '/');
      SplitNone(name, '/');
      ResolvedParts(Split(dir, '/'), name);
      parts := Resolve(Split(dir, '/') + [name], false, []);
      assert Parts(p) == parts;
    }
    SplitJoin(parts, '/');
  }

  lemma ResolveNothing()
    ensures Resolve([], false, []) == []
  {
  }

  /** Distinct names in one directory make distinct paths. */
  lemma JoinNameInjective(dir: string, x: string, y: string)
    requires Normal(x) && Normal(y) && JoinPath(dir, x) == JoinPath(dir, y)
    ensures x == y
  {
    hide JoinPath, Normal, Parts, AllNormal;
    if Rooted(dir) {
      JoinRootedInjective(dir, x, y);
    } else {
      var a := RelativeJoin(dir, x);
      var b := RelativeJoin(dir, y);
    }
  }

  lemma JoinRootedInjective(root: string, x: string, y: string)
    requires Rooted(root) && Normal(x) && Normal(y) && JoinPath(root, x) == JoinPath(root, y)
    ensures x == y
  {
    assert Join([x], '/') == x && Join([y], '/') == y;
    JoinNames(root, [x]);
    JoinNames(root, [y]);
    JoinAbsoluteInjective(Parts(root) + [x], Parts(root) + [y]);
    assert (Parts(root) + [x])[|Parts(root)|] == x;
    assert (Parts(root) + [y])[|Parts(root)|] == y;
  }

  lemma {:induction false} CommonPrefixOfExtension(a: seq<string>, b: seq<string>)
    ensures CommonPrefix(a, a + b) == |a|
    decreases |a|
  {
    if a != [] {
      assert (a + b)[1..] == a[1..] + b;
      CommonPrefixOfExtension(a[1..], b);
    }
  }

  /** The way from a rooted path to something below it. */
  lemma RelBelow(root: string, cs: seq<string>)
    requires Rooted(root) && AllNormal(cs) && cs != []
    ensures AllNormal(Parts(root) + cs)
    ensures Rel(root, "/" + Join(Parts(root) + cs, '/')) == Some(Join(cs, '/'))
  {
    RootedParts(root);
    var ps := Parts(root);
    CleanOfAbsolute(ps);
    CleanOfAbsolute(ps + cs);
    PartsOfAbsolute(ps);
    PartsOfAbsolute(ps + cs);
    assert |ps + cs| != |ps|;
    assert Clean(root) != Clean("/" + Join(ps + cs, '/'));
    CommonPrefixOfExtension(ps, cs);
    assert Ups(0) + (ps + cs)[|ps|..] == cs;
  }

  // ---- Being at or under a directory ----

  /** pathUnderRoot: whether p is root or a descendant of it, by their cleaned spelling. */
  function PathUnderRoot(root: string, p: string): bool
  {
    var r, q := Clean(root), Clean(p);
    if r == "" || r == "." then false
    else if q == r then true
    else r + "/" <= q
  }

  lemma {:induction false} JoinAppend(a: seq<string>, b: seq<string>)
    requires a != [] && b != []
    ensures Join(a + b, '/') == Join(a, '/') + "/" + Join(b, '/')
    decreases |a|
  {
    if |a| == 1 {
      assert (a + b)[1..] == b;
    } else {
      assert (a + b)[1..] == a[1..] + b;
      JoinAppend(a[1..], b);
    }
  }

  /** Everything named below a root is under it, except that nothing but "/" is under "/". */
  lemma UnderRootIff(root: string, cs: seq<string>)
    requires Rooted(root) && AllNormal(cs)
    ensures AllNormal(Parts(root) + cs)
    ensures PathUnderRoot(root, "/" + Join(Parts(root) + cs, '/')) <==> cs == [] || Parts(root) != []
  {
    RootedParts(root);
    var ps := Parts(root);
    CleanOfAbsolute(ps + cs);
    if cs == [] {
      assert ps + cs == ps;
    } else if ps != [] {
      JoinAppend(ps, cs);
      assert "/" + Join(ps + cs, '/') == "/" + Join(ps, '/') + "/" + Join(cs, '/');
    } else {
      assert ps + cs == cs;
      assert Join(cs, '/')[0] == cs[0][0];
      assert ("/" + Join(cs, '/'))[1] != '/';
    }
  }
}
