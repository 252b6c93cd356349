/** Names of the disks attached to the appliance: letters a to z, then aa, ab and so on. */
module DiskNames {

  predicate Letter(c: char)
  {
    'a' <= c <= 'z'
  }

  predicate IsSuffix(s: string)
  {
    s != "" && forall c <- s :: Letter(c)
  }

  function LetterOf(k: nat): (c: char)
    requires k < 26
    ensures Letter(c) && LetterIndex(c) == k
  {
    "abcdefghijklmnopqrstuvwxyz"[k]
  }

  function LetterIndex(c: char): (k: nat)
    requires Letter(c)
    ensures k < 26
  {
    (c - 'a') as nat
  }

  /** The suffix of the i-th disk; numbers below 0 have none. */
  function Suffix(i: int): (s: string)
    ensures forall c <- s :: Letter(c)
    ensures i >= 0 <==> s != ""
    decreases if i < 0 then 0 else i + 1
  {
    if i < 0 then "" else Suffix(i / 26 - 1) + [LetterOf(i % 26)]
  }

  /** The number a suffix stands for, in bijective base 26 less one. */
  function IndexOf(s: string): (i: int)
    requires forall c <- s :: Letter(c)
    ensures i >= -1 && (i == -1 <==> s == "")
  {
    if s == "" then -1 else 26 * (IndexOf(s[..|s| - 1]) + 1) + LetterIndex(s[|s| - 1])
  }

  /** diskDevice. */
  method DiskDevice(i: int) returns (device: string)
    ensures device == "/dev/vd" + Suffix(i)
  {
    hide Suffix, LetterOf;
    var name, n := "", i;
    while n >= 0
      invariant n >= -1 || n == i
      invariant Suffix(i) == Suffix(n) + name
      decreases n
    {
      SuffixLast(n);
      name := [LetterOf(n % 26)] + name;
      n := n / 26 - 1;
    }
    device := "/dev/vd" + name;
  }

  lemma {:induction false} IndexOfSuffix(i: int)
    requires i >= -1
    ensures IndexOf(Suffix(i)) == i
    decreases i + 1
  {
    if i >= 0 {
      IndexOfSuffix(i / 26 - 1);
      assert Suffix(i)[..|Suffix(i)| - 1] == Suffix(i / 26 - 1);
    }
  }

  lemma LetterBack(c: char)
    requires Letter(c)
    ensures LetterOf(LetterIndex(c)) == c
  {
    var k := LetterIndex(c);
    assert LetterIndex(LetterOf(k)) == k;
  }

  lemma SuffixStep(n: int, k: nat)
    requires n >= -1 && k < 26
    ensures Suffix(26 * (n + 1) + k) == Suffix(n) + [LetterOf(k)]
  {
    hide LetterOf;
    var i := 26 * (n + 1) + k;
    assert i / 26 == n + 1 && i % 26 == k;
  }

  lemma {:induction false} SuffixOfIndex(s: string)
    requires forall c <- s :: Letter(c)
    ensures Suffix(IndexOf(s)) == s
    decreases |s|
  {
    hide Suffix, LetterOf, LetterIndex;
    if s != "" {
      var init, c := s[..|s| - 1], s[|s| - 1];
      var n, k := IndexOf(init), LetterIndex(c);
      assert c in s;
      SuffixOfIndex(init);
      LetterBack(c);
      assert IndexOf(s) == 26 * (n + 1) + k;
      SuffixStep(n, k);
      assert s == init + [c];
    }
  }

  /** Indices and non-empty suffixes of small letters stand for each other, one for one. */
  lemma SuffixBijection(i: nat, s: string)
    requires IsSuffix(s)
    ensures Suffix(i) == s <==> i == IndexOf(s)
  {
    IndexOfSuffix(i);
    SuffixOfIndex(s);
  }

  /** Shorter first, and letter by letter among those of one length. */
  predicate Before(s: string, t: string)
  {
    |s| < |t| || (|s| == |t| && exists k :: 0 <= k < |s| && s[..k] == t[..k] && s[k] < t[k])
  }

  lemma SuffixLast(i: nat)
    ensures Suffix(i) == Suffix(i / 26 - 1) + [LetterOf(i % 26)]
  {
  }

  lemma SameStart(s: string, t: string, c: char, d: char)
    ensures |s| == |t| && Before(s, t) ==> Before(s + [c], t + [d])
    ensures s == t && c < d ==> Before(s + [c], t + [d])
  {
    if |s| == |t| && Before(s, t) {
      var k :| 0 <= k < |s| && s[..k] == t[..k] && s[k] < t[k];
      assert (s + [c])[..k] == s[..k] && (t + [d])[..k] == t[..k];
      assert (s + [c])[k] < (t + [d])[k];
    } else if s == t && c < d {
      assert (s + [c])[..|s|] == (t + [d])[..|s|] && (s + [c])[|s|] < (t + [d])[|s|];
    }
  }

  /** Disks attached later have names that come later. */
  lemma {:induction false} LaterIsAfter(i: int, j: int)
    requires -1 <= i < j
    ensures Before(Suffix(i), Suffix(j))
    decreases j
  {
    hide Suffix, LetterOf;
    if i >= 0 {
      var a, b := i / 26 - 1, j / 26 - 1;
      SuffixLast(i);
      SuffixLast(j);
      SameStart(Suffix(a), Suffix(b), LetterOf(i % 26), LetterOf(j % 26));
      if a < b {
        LaterIsAfter(a, b);
      } else {
        assert i % 26 < j % 26;
        assert LetterIndex(LetterOf(i % 26)) < LetterIndex(LetterOf(j % 26));
      }
    }
  }

  function Devices(n: nat): (d: seq<string>)
    ensures |d| == n && forall i :: 0 <= i < n ==> d[i] == "/dev/vd" + Suffix(i)
  {
    seq(n, i => "/dev/vd" + Suffix(i))
  }

  /** assignDiskDevices. */
  method AssignDiskDevices(diskPaths: seq<string>) returns (devices: array<string>)
    ensures fresh(devices) && devices[..] == Devices(|diskPaths|)
  {
    devices := new string[|diskPaths|];
    for i := 0 to |diskPaths|
      invariant devices[..i] == Devices(|diskPaths|)[..i]
    {
      devices[i] := DiskDevice(i);
    }
    assert devices[..|diskPaths|] == devices[..];
  }

  /** No two disks are given one device. */
  lemma DevicesDiffer(n: nat, i: nat, j: nat)
    requires i < n && j < n && Devices(n)[i] == Devices(n)[j]
    ensures i == j
  {
    assert ("/dev/vd" + Suffix(i))[7..] == Suffix(i) && ("/dev/vd" + Suffix(j))[7..] == Suffix(j);
    IndexOfSuffix(i);
    IndexOfSuffix(j);
  }
}
