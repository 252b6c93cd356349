/** Renaming of block devices to virtio ones in fstab, crypttab, grub defaults and BLS entries. */
module Remap {
  import opened Results
  import opened Text
  import Fstab
  import Bls
  import Grub

  datatype Rule = Rule(oldPrefix: string, newPrefix: string)

  const REMAP_PREFIXES := [
    Rule("/dev/hd", "/dev/vd"),
    Rule("/dev/sd", "/dev/vd"),
    Rule("/dev/xvd", "/dev/vd"),
    Rule("/dev/nvme0n1p", "/dev/vda"),
    Rule("/dev/cciss/c0d0p", "/dev/vda")
  ]

  // ---- Rules applied in turn ----

  function Apply(rule: Rule, s: string): string
  {
    Fstab.ReplacePrefix(s, rule.oldPrefix, rule.newPrefix)
  }

  function InTurn(rules: seq<Rule>, s: string): string
    decreases |rules|
  {
    if rules == [] then s else InTurn(rules[1..], Apply(rules[0], s))
  }

  function FirstMatch(rules: seq<Rule>, s: string): string
  {
    if rules == [] then s
    else if rules[0].oldPrefix <= s then Apply(rules[0], s)
    else FirstMatch(rules[1..], s)
  }

  predicate NoMatch(rules: seq<Rule>, s: string)
  {
    forall i :: 0 <= i < |rules| ==> !(rules[i].oldPrefix <= s)
  }

  /** No rule can match what another rule, or the rule itself, has made. */
  predicate Settled(rules: seq<Rule>)
  {
    forall i, j :: 0 <= i < |rules| && 0 <= j < |rules| ==> Apart(rules[i].newPrefix, rules[j].oldPrefix)
  }

  predicate Apart(a: string, b: string)
  {
    !(a <= b) && !(b <= a)
  }

  lemma ApartExtended(a: string, b: string, rest: string)
    requires Apart(a, b)
    ensures !(b <= a + rest)
  {
    assert (a + rest)[..|a|] == a;
    assert |b| <= |a| ==> (a + rest)[..|b|] == a[..|b|];
  }

  lemma {:induction false} InTurnNoMatch(rules: seq<Rule>, s: string)
    requires NoMatch(rules, s)
    ensures InTurn(rules, s) == s && FirstMatch(rules, s) == s
    decreases |rules|
  {
    if rules != [] {
      InTurnNoMatch(rules[1..], s);
    }
  }

  lemma Replaced(rules: seq<Rule>, i: nat, s: string)
    requires Settled(rules) && i < |rules| && rules[i].oldPrefix <= s
    ensures NoMatch(rules, Apply(rules[i], s))
  {
    hide Apart;
    var rest := s[|rules[i].oldPrefix|..];
    forall j | 0 <= j < |rules| ensures !(rules[j].oldPrefix <= rules[i].newPrefix + rest) {
      ApartExtended(rules[i].newPrefix, rules[j].oldPrefix, rest);
    }
  }

  /** Applying settled rules one after the other is applying the first that matches, and once is enough. */
  lemma {:induction false} InTurnIsFirstMatch(rules: seq<Rule>, s: string)
    requires Settled(rules)
    ensures InTurn(rules, s) == FirstMatch(rules, s)
    ensures FirstMatch(rules, s) == s || NoMatch(rules, FirstMatch(rules, s))
    decreases |rules|
  {
    hide Apart, Apply;
    if rules != [] {
      if rules[0].oldPrefix <= s {
        Replaced(rules, 0, s);
        InTurnNoMatch(rules[1..], Apply(rules[0], s));
      } else {
        assert Apply(rules[0], s) == s by { ApplyNothing(rules[0], s); }
        InTurnIsFirstMatch(rules[1..], s);
        if FirstMatch(rules, s) != s {
          FirstMatchSettles(rules, s);
        }
      }
    }
  }

  lemma ApplyNothing(rule: Rule, s: string)
    requires !(rule.oldPrefix <= s)
    ensures Apply(rule, s) == s
  {
  }

  lemma {:induction false} MatchAt(rules: seq<Rule>, s: string) returns (i: nat)
    requires FirstMatch(rules, s) != s
    ensures i < |rules| && rules[i].oldPrefix <= s && FirstMatch(rules, s) == Apply(rules[i], s)
    decreases |rules|
  {
    if rules[0].oldPrefix <= s {
      return 0;
    }
    var k := MatchAt(rules[1..], s);
    return k + 1;
  }

  lemma FirstMatchSettles(rules: seq<Rule>, s: string)
    requires Settled(rules) && FirstMatch(rules, s) != s
    ensures NoMatch(rules, FirstMatch(rules, s))
  {
    hide Settled, NoMatch, Apply, FirstMatch;
    var i := MatchAt(rules, s);
    Replaced(rules, i, s);
  }

  lemma FirstMatchTwice(rules: seq<Rule>, s: string)
    requires Settled(rules)
    ensures FirstMatch(rules, FirstMatch(rules, s)) == FirstMatch(rules, s)
  {
    hide Settled, FirstMatch, InTurn;
    InTurnIsFirstMatch(rules, s);
    if FirstMatch(rules, s) != s {
      InTurnNoMatch(rules, FirstMatch(rules, s));
    }
  }

  lemma PrefixesSettled()
    ensures Settled(REMAP_PREFIXES)
  {
    forall i, j | 0 <= i < 5 && 0 <= j < 5
      ensures Apart(REMAP_PREFIXES[i].newPrefix, REMAP_PREFIXES[j].oldPrefix)
    {
      FifthCharacter(i);
      FifthCharacter(j);
      DifferAt(REMAP_PREFIXES[i].newPrefix, REMAP_PREFIXES[j].oldPrefix, 5);
    }
  }

  lemma FifthCharacter(i: nat)
    requires i < 5
    ensures var r := REMAP_PREFIXES[i];
            && |r.oldPrefix| > 5 && |r.newPrefix| > 5 && r.newPrefix[5] == 'v' && r.oldPrefix[5] != 'v'
            && NoSpace(r.newPrefix) && r.newPrefix[0] == '/'
  {
    hide NoSpace;
    VirtioPrefix(REMAP_PREFIXES[i].newPrefix);
    OldPrefix(REMAP_PREFIXES[i].oldPrefix);
  }

  lemma VirtioPrefix(p: string)
    requires p == "/dev/vd" || p == "/dev/vda"
    ensures |p| > 5 && p[5] == 'v' && p[0] == '/' && NoSpace(p)
  {
  }

  lemma OldPrefix(p: string)
    requires p in ["/dev/hd", "/dev/sd", "/dev/xvd", "/dev/nvme0n1p", "/dev/cciss/c0d0p"]
    ensures |p| > 5 && p[5] != 'v'
  {
  }

  lemma DifferAt(a: string, b: string, k: nat)
    requires k < |a| && k < |b| && a[k] != b[k]
    ensures Apart(a, b)
  {
  }

  /** The name a device has afterwards. */
  function Remapped(device: string): string
  {
    FirstMatch(REMAP_PREFIXES, device)
  }

  /** The repository's five rules in turn are the first that matches, and remapping twice is remapping once. */
  lemma RemappedOnce(device: string)
    ensures InTurn(REMAP_PREFIXES, device) == Remapped(device)
    ensures Remapped(Remapped(device)) == Remapped(device)
  {
    hide InTurn, FirstMatch, Settled;
    PrefixesSettled();
    InTurnIsFirstMatch(REMAP_PREFIXES, device);
    FirstMatchTwice(REMAP_PREFIXES, device);
  }

  /** A word stays a word. */
  lemma RemappedWord(device: string)
    requires device != "" && NoSpace(device)
    ensures Remapped(device) != "" && NoSpace(Remapped(device)) && (device[0] != '#' ==> Remapped(device)[0] != '#')
  {
    hide FirstMatch;
    if Remapped(device) != device {
      var i := MatchAt(REMAP_PREFIXES, device);
      FifthCharacter(i);
    }
  }

  // ---- fstab ----

  function RemappedEntry(e: Fstab.Entry): Fstab.Entry
  {
    if e.comment != "" || e.device == "" then e else e.(device := Remapped(e.device))
  }

  function RemappedEntries(es: seq<Fstab.Entry>): (rs: seq<Fstab.Entry>)
    ensures |rs| == |es| && forall i :: 0 <= i < |rs| ==> rs[i] == RemappedEntry(es[i])
  {
    seq(|es|, i requires 0 <= i < |es| => RemappedEntry(es[i]))
  }

  function EntryInTurn(rules: seq<Rule>, e: Fstab.Entry): Fstab.Entry
    decreases |rules|
  {
    if rules == [] then e
    else EntryInTurn(rules[1..], Fstab.RemapEntry(e, rules[0].oldPrefix, rules[0].newPrefix))
  }

  lemma {:induction false} EntryInTurnIs(rules: seq<Rule>, e: Fstab.Entry)
    requires forall i :: 0 <= i < |rules| ==> rules[i].newPrefix != ""
    ensures EntryInTurn(rules, e) == if e.comment != "" || e.device == "" then e else e.(device := InTurn(rules, e.device))
    decreases |rules|
  {
    if rules != [] {
      EntryInTurnIs(rules[1..], Fstab.RemapEntry(e, rules[0].oldPrefix, rules[0].newPrefix));
    }
  }

  /** remapFile on the text of a file. */
  method RemapFstab(content: string) returns (out: string)
    ensures out == Fstab.Print(RemappedEntries(Fstab.Parsed(content)))
  {
    hide Fstab.Print, Fstab.Parsed, EntryInTurn, FirstMatch;
    var f := new Fstab.File.Parse(content);
    ghost var es := f.entries;
    for i := 0 to |REMAP_PREFIXES|
      invariant |f.entries| == |es|
      invariant forall k :: 0 <= k < |es| ==> EntryInTurn(REMAP_PREFIXES, es[k]) == EntryInTurn(REMAP_PREFIXES[i..], f.entries[k])
    {
      assert REMAP_PREFIXES[i..][1..] == REMAP_PREFIXES[i + 1..];
      ghost var before := f.entries;
      f.RemapDevice(REMAP_PREFIXES[i].oldPrefix, REMAP_PREFIXES[i].newPrefix);
      forall k | 0 <= k < |es|
        ensures EntryInTurn(REMAP_PREFIXES[i..], before[k]) == EntryInTurn(REMAP_PREFIXES[i + 1..], f.entries[k])
      {
        EntryTurn(REMAP_PREFIXES[i..], before[k]);
      }
    }
    forall k | 0 <= k < |es| ensures f.entries[k] == RemappedEntry(es[k]) {
      EntryDone(f.entries[k]);
      EntryRemapped(es[k]);
    }
    assert f.entries == RemappedEntries(es);
    out := f.String();
  }

  lemma EntryTurn(rules: seq<Rule>, e: Fstab.Entry)
    requires rules != []
    ensures EntryInTurn(rules, e) == EntryInTurn(rules[1..], Fstab.RemapEntry(e, rules[0].oldPrefix, rules[0].newPrefix))
  {
  }

  lemma EntryDone(e: Fstab.Entry)
    ensures EntryInTurn(REMAP_PREFIXES[|REMAP_PREFIXES|..], e) == e
  {
  }

  lemma EntryRemapped(e: Fstab.Entry)
    ensures EntryInTurn(REMAP_PREFIXES, e) == RemappedEntry(e)
  {
    hide EntryInTurn, InTurn, FirstMatch;
    forall i | 0 <= i < |REMAP_PREFIXES| ensures REMAP_PREFIXES[i].newPrefix != "" {
      FifthCharacter(i);
    }
    EntryInTurnIs(REMAP_PREFIXES, e);
    RemappedOnce(e.device);
  }

  lemma RemappedAsParsed(e: Fstab.Entry)
    requires Fstab.AsParsed(e)
    ensures Fstab.AsParsed(RemappedEntry(e))
  {
    hide FirstMatch;
    if e.device != "" {
      RemappedWord(e.device);
    }
  }

  /**
   A remapped fstab parses to the entries it was, with devices renamed, defaults filled in
   and one blank entry more, exactly if every entry had at least three columns; remapping
   those entries again renames nothing.
   */
  lemma FstabRemapReadsBackIff(content: string)
    ensures var es := Fstab.Parsed(content); var rs := RemappedEntries(es);
            && (Fstab.Parsed(Fstab.Print(rs)) == Fstab.AllDefaulted(rs) + [Fstab.BLANK] <==> Fstab.ThreeColumns(es))
            && RemappedEntries(rs) == rs
  {
    hide Fstab.Print, Fstab.Parsed, Fstab.AsParsed, FirstMatch;
    var es := Fstab.Parsed(content);
    var rs := RemappedEntries(es);
    Fstab.ParsedFile(content);
    forall i | 0 <= i < |es|
      ensures Fstab.AsParsed(rs[i]) && RemappedEntry(rs[i]) == rs[i]
      ensures rs[i].device == "" <==> es[i].device == ""
    {
      RemappedAsParsed(es[i]);
      RemappedOnce(es[i].device);
      StillNamed(es[i]);
    }
    Fstab.ReadsBackIff(rs);
  }

  lemma StillNamed(e: Fstab.Entry)
    requires Fstab.AsParsed(e)
    ensures RemappedEntry(e).device == "" <==> e.device == ""
  {
    hide FirstMatch;
    if e.device != "" {
      RemappedWord(e.device);
    }
  }

  // ---- crypttab ----

  /** A crypttab entry, whose device is its second column; uuid answers for a device or with "". */
  function CrypttabEntry(e: Fstab.Entry, uuid: string -> string): Fstab.Entry
  {
    if e.comment != "" || e.mountPoint == "" then e
    else if "/dev/sd" <= e.mountPoint && uuid(e.mountPoint) != "" then e.(mountPoint := "UUID=" + uuid(e.mountPoint))
    else e.(mountPoint := Remapped(e.mountPoint))
  }

  method RemapCrypttab(f: Fstab.File, uuid: string -> string)
    modifies f
    ensures |f.entries| == |old(f.entries)|
    ensures forall i :: 0 <= i < |f.entries| ==> f.entries[i] == CrypttabEntry(old(f.entries)[i], uuid)
  {
    hide FirstMatch;
    for i := 0 to |f.entries|
      invariant |f.entries| == |old(f.entries)|
      invariant forall k :: 0 <= k < i ==> f.entries[k] == CrypttabEntry(old(f.entries)[k], uuid)
      invariant forall k :: i <= k < |f.entries| ==> f.entries[k] == old(f.entries)[k]
    {
      var e := f.entries[i];
      if e.comment != "" || e.mountPoint == "" {
        continue;
      }
      var dev := e.mountPoint;
      if "/dev/sd" <= dev {
        var id := uuid(dev);
        if id != "" {
          f.entries := f.entries[i := e.(mountPoint := "UUID=" + id)];
          continue;
        }
      }
      var found := FindMatch(REMAP_PREFIXES, dev);
      f.entries := f.entries[i := e.(mountPoint := found)];
    }
  }

  /** The loop over the rules that stops at the first match. */
  method FindMatch(rules: seq<Rule>, s: string) returns (r: string)
    ensures r == FirstMatch(rules, s)
  {
    for j := 0 to |rules|
      invariant FirstMatch(rules, s) == FirstMatch(rules[j..], s)
    {
      assert rules[j..][1..] == rules[j + 1..];
      var p := rules[j];
      if p.oldPrefix <= s {
        return p.newPrefix + s[|p.oldPrefix|..];
      }
    }
    return s;
  }

  // ---- Kernel arguments ----

  function RemapValue(arg: string, prefix: string): string
    requires prefix <= arg
  {
    prefix + Remapped(arg[|prefix|..])
  }

  function RemapKernelArg(arg: string): string
  {
    if "resume=" <= arg then RemapValue(arg, "resume=")
    else if "root=" <= arg then RemapValue(arg, "root=")
    else arg
  }

  function RemapAll(args: seq<string>): (out: seq<string>)
    ensures |out| == |args| && forall i :: 0 <= i < |out| ==> out[i] == RemapKernelArg(args[i])
  {
    seq(|args|, i requires 0 <= i < |args| => RemapKernelArg(args[i]))
  }

  method RemapArgValue(arg: string, prefix: string) returns (r: string)
    requires prefix <= arg
    ensures r == RemapValue(arg, prefix)
  {
    hide FirstMatch;
    var value := FindMatch(REMAP_PREFIXES, arg[|prefix|..]);
    return prefix + value;
  }

  method RemapKernelArgs(args: seq<string>) returns (out: seq<string>, changed: bool)
    ensures out == RemapAll(args) && (changed <==> out != args)
  {
    hide RemapValue;
    out, changed := [], false;
    for i := 0 to |args|
      invariant |out| == i && out == RemapAll(args)[..i] && (changed <==> out != args[..i])
    {
      var remapped := args[i];
      if "resume=" <= args[i] {
        remapped := RemapArgValue(args[i], "resume=");
      } else if "root=" <= args[i] {
        remapped := RemapArgValue(args[i], "root=");
      }
      assert args[..i + 1] == args[..i] + [args[i]] && args[..i + 1][i] == args[i];
      assert (out + [remapped])[..i] == out && args[..i + 1][..i] == args[..i];
      if remapped != args[i] {
        changed := true;
      }
      out := out + [remapped];
    }
    assert args[..|args|] == args && RemapAll(args)[..|args|] == RemapAll(args);
  }

  lemma RemapArgTwice(arg: string)
    ensures RemapKernelArg(RemapKernelArg(arg)) == RemapKernelArg(arg)
  {
    hide FirstMatch, Remapped;
    if "resume=" <= arg {
      RemapValueTwice(arg, "resume=");
    } else if "root=" <= arg {
      RemapValueTwice(arg, "root=");
      NotResume(RemapValue(arg, "root="));
    }
  }

  lemma RemapValueTwice(arg: string, prefix: string)
    requires prefix <= arg
    ensures prefix <= RemapValue(arg, prefix) && RemapValue(RemapValue(arg, prefix), prefix) == RemapValue(arg, prefix)
  {
    hide FirstMatch, Remapped;
    var value := arg[|prefix|..];
    RemappedOnce(value);
    assert (prefix + Remapped(value))[|prefix|..] == Remapped(value);
  }

  lemma NotResume(s: string)
    requires "root=" <= s
    ensures !("resume=" <= s)
  {
    assert s[1] == "root="[1] == 'o' && "resume="[1] == 'e';
  }

  lemma RemapArgWord(arg: string)
    requires arg != "" && NoSpace(arg)
    ensures RemapKernelArg(arg) != "" && NoSpace(RemapKernelArg(arg))
  {
    hide FirstMatch;
    var prefix := if "resume=" <= arg then "resume=" else "root=";
    if prefix <= arg {
      assert forall c <- arg[|prefix|..] :: c in arg;
      assert forall c <- prefix :: c in arg by { assert prefix == arg[..|prefix|]; }
      if arg[|prefix|..] != "" {
        RemappedWord(arg[|prefix|..]);
      } else {
        EmptyRemapped();
      }
    }
  }

  lemma EmptyRemapped()
    ensures Remapped("") == ""
  {
    hide FirstMatch;
    forall i | 0 <= i < 5 ensures !(REMAP_PREFIXES[i].oldPrefix <= "") {
      FifthCharacter(i);
    }
    InTurnNoMatch(REMAP_PREFIXES, "");
  }

  lemma AllWordsRemapped(args: seq<string>)
    requires AllWords(args)
    ensures AllWords(RemapAll(args)) && RemapAll(RemapAll(args)) == RemapAll(args)
  {
    hide RemapKernelArg;
    forall i | 0 <= i < |args|
      ensures RemapAll(args)[i] != "" && NoSpace(RemapAll(args)[i]) && RemapKernelArg(RemapAll(args)[i]) == RemapAll(args)[i]
    {
      RemapArgWord(args[i]);
      RemapArgTwice(args[i]);
    }
  }

  /** The arguments written out as one value are the remapped arguments, which remapping keeps. */
  lemma ArgumentsReadBack(value: string)
    ensures var out := RemapAll(Fields(value));
            Fields(Join(out, ' ')) == out && RemapAll(Fields(Join(out, ' '))) == out
  {
    hide RemapKernelArg, Fields, Join;
    AllWordsRemapped(Fields(value));
    FieldsJoin(RemapAll(Fields(value)), ' ');
  }

  // ---- BLS entries ----

  function RemappedFields(fs: seq<Bls.Field>): seq<Bls.Field>
  {
    var args := Fields(Bls.ValueOf(fs, "options"));
    if RemapAll(args) == args then fs else Bls.WithValue(fs, "options", Join(RemapAll(args), ' '))
  }

  /** What becomes of one entry file; None when it is not written. */
  method RemapBlsEntry(content: string) returns (out: Option<string>)
    ensures var fs := Bls.Parsed(content); var args := Fields(Bls.ValueOf(fs, "options"));
            out == if RemapAll(args) == args then None else Some(Bls.Print(RemappedFields(fs)))
  {
    hide Bls.Parsed, Bls.Print, Bls.WithValue, Fields, Join, RemapKernelArg;
    var parsed := new Bls.Entry.Parse(content);
    var options := parsed.Get("options");
    var args := Fields(options);
    if |args| == 0 {
      return None;
    }
    var remappedArgs, changed := RemapKernelArgs(args);
    if !changed {
      return None;
    }
    parsed.Set("options", Join(remappedArgs, ' '));
    return Some(parsed.String());
  }

  lemma OptionsStorable(words: seq<string>)
    requires AllWords(words) && words != []
    ensures var f := Bls.Field("options", Join(words, ' ')); Bls.Storable(f) && '\n' !in Bls.PrintField(f)
  {
    hide Join;
    var v := Join(words, ' ');
    var w := words[|words| - 1];
    Fstab.LastOfJoin(words, ' ');
    assert !IsSpace(w[|w| - 1]);
    assert IsSpace('\n');
    if '\n' in v {
      JoinChars(words, ' ', '\n');
    }
    OptionsKey();
  }

  lemma OptionsKey()
    ensures var k := "options"; !IsSpace(k[0]) && k[0] != '#' && ' ' !in k && '\n' !in k && k != ""
  {
  }

  /** An entry written reads back as the remapped fields, of which only the options differ. */
  lemma BlsRemapReadsBack(content: string, other: string)
    requires other != "options"
    ensures var fs := Bls.Parsed(content); var rs := RemappedFields(fs);
            && Bls.Parsed(Bls.Print(rs)) == rs
            && Bls.ValueOf(rs, other) == Bls.ValueOf(fs, other)
            && Fields(Bls.ValueOf(rs, "options")) == RemapAll(Fields(Bls.ValueOf(fs, "options")))
  {
    hide Bls.Print, Bls.WithValue, Bls.ValueOf, Bls.AllStorable, Bls.OneLineEach, Bls.ParseLines, Bls.Storable, Bls.PrintField,
         Fields, Join, RemapKernelArg;
    var fs := Bls.Parsed(content);
    Bls.ParsedFields(Split(content, '\n'));
    var args := Fields(Bls.ValueOf(fs, "options"));
    var value := Join(RemapAll(args), ' ');
    if RemapAll(args) != args {
      AllWordsRemapped(args);
      OptionsStorable(RemapAll(args));
      ArgumentsReadBack(Bls.ValueOf(fs, "options"));
      Bls.GetSet(fs, "options", value, other);
      Bls.GetSet(fs, "options", value, "options");
    }
    Bls.ReadsBackIff(RemappedFields(fs));
  }

  // ---- grub defaults ----

  const CMDLINE_DEFAULT := "GRUB_CMDLINE_LINUX_DEFAULT"

  function ValueIn(kv: map<string, string>, key: string): string
  {
    if key in kv then kv[key] else ""
  }

  function RemappedSetting(d: Grub.Doc, key: string): Grub.Doc
  {
    var args := Fields(ValueIn(d.kv, key));
    if RemapAll(args) == args then d else Grub.PutIn(d, key, Join(RemapAll(args), ' '))
  }

  /** Some argument of the setting is remapped. */
  predicate ArgsChange(d: Grub.Doc, key: string)
  {
    RemapAll(Fields(ValueIn(d.kv, key))) != Fields(ValueIn(d.kv, key))
  }

  lemma TwoKeys()
    ensures Grub.CMDLINE != CMDLINE_DEFAULT && Grub.GoodKey(Grub.CMDLINE) && Grub.GoodKey(CMDLINE_DEFAULT)
  {
    assert |Grub.CMDLINE| != |CMDLINE_DEFAULT|;
  }

  method RemapGrubDefaults(cfg: Grub.Config) returns (changed: bool)
    modifies cfg
    ensures cfg.Contents() == RemappedSetting(RemappedSetting(old(cfg.Contents()), Grub.CMDLINE), CMDLINE_DEFAULT)
    ensures !changed ==> cfg.Contents() == old(cfg.Contents())
    ensures changed <==> ArgsChange(old(cfg.Contents()), Grub.CMDLINE) || ArgsChange(old(cfg.Contents()), CMDLINE_DEFAULT)
  {
    hide Grub.SetLine, Fields, Join, RemapKernelArg;
    TwoKeys();
    var first := RemapSetting(cfg, Grub.CMDLINE);
    var second := RemapSetting(cfg, CMDLINE_DEFAULT);
    changed := first || second;
  }

  /** One turn of the loop over the two keys. */
  method RemapSetting(cfg: Grub.Config, key: string) returns (changed: bool)
    modifies cfg
    ensures cfg.Contents() == RemappedSetting(old(cfg.Contents()), key)
    ensures changed <==> ArgsChange(old(cfg.Contents()), key)
  {
    hide Grub.SetLine, Fields, Join, RemapKernelArg;
    var args := Fields(cfg.Get(key));
    if |args| == 0 {
      return false;
    }
    var remappedArgs, remapped := RemapKernelArgs(args);
    if remapped {
      cfg.Set(key, Join(remappedArgs, ' '));
    }
    return remapped;
  }

  /** The arguments of the key are remapped, other settings are not, and doing it again changes nothing. */
  lemma SettingRemapped(d: Grub.Doc, key: string, other: string)
    requires other != key
    ensures var r := RemappedSetting(d, key);
            && Fields(ValueIn(r.kv, key)) == RemapAll(Fields(ValueIn(d.kv, key)))
            && ValueIn(r.kv, other) == ValueIn(d.kv, other)
            && RemappedSetting(r, key) == r
  {
    hide Grub.SetLine, Fields, Join, RemapKernelArg;
    ArgumentsReadBack(ValueIn(d.kv, key));
    AllWordsRemapped(Fields(ValueIn(d.kv, key)));
  }

  // ---- The file written for grub ----

  /** The setting is left alone, or what is stored for it reads back. */
  predicate FineToStore(d: Grub.Doc, key: string)
  {
    !ArgsChange(d, key) || Grub.Storable(Join(RemapAll(Fields(ValueIn(d.kv, key))), ' '))
  }

  /** Text and index agree on the key. */
  predicate Agree(d: Grub.Doc, key: string)
  {
    && (key in Grub.IndexOf(d.lines) <==> key in d.kv)
    && (key in d.kv && key in Grub.IndexOf(d.lines) ==> Grub.IndexOf(d.lines)[key] == d.kv[key])
  }

  lemma AllAgreeIff(d: Grub.Doc)
    requires Grub.SingleLines(d.lines)
    ensures Grub.ReadsBack(d) <==> forall k :: Agree(d, k)
  {
    hide Grub.IndexOf;
    SplitJoin(d.lines, '\n');
    var i := Grub.IndexOf(d.lines);
    if forall k :: Agree(d, k) {
      forall k ensures (k in i <==> k in d.kv) && (k in i ==> i[k] == d.kv[k]) {
        assert Agree(d, k);
      }
      assert i == d.kv;
    }
  }

  /** Kernel arguments written out have no line break in them. */
  lemma StoredOnOneLine(value: string)
    ensures '\n' !in Join(RemapAll(Fields(value)), ' ')
  {
    hide RemapKernelArg, Fields, Join;
    var out := RemapAll(Fields(value));
    AllWordsRemapped(Fields(value));
    assert IsSpace('\n');
    if '\n' in Join(out, ' ') {
      JoinChars(out, ' ', '\n');
    }
  }

  /** Remapping one setting keeps the lines in shape, and keeps agreement on all other keys. */
  lemma SettingShape(d: Grub.Doc, key: string, other: string)
    requires Grub.SingleLines(d.lines) && Grub.DistinctKeys(d.lines) && Grub.GoodKey(key)
    ensures var r := RemappedSetting(d, key);
            && Grub.SingleLines(r.lines) && Grub.DistinctKeys(r.lines)
            && (other != key ==> (Agree(r, other) <==> Agree(d, other)))
  {
    hide Grub.SetLine, Grub.IndexOf, Grub.DistinctKeys, Grub.SingleLines, Grub.GoodKey, Fields, Join, RemapKernelArg;
    var value := Join(RemapAll(Fields(ValueIn(d.kv, key))), ' ');
    StoredOnOneLine(ValueIn(d.kv, key));
    Grub.SetLineSingle(d.lines, key, value);
    Grub.WrittenCounts(d.lines, key, value);
    if other != key {
      Grub.OthersKept(d.lines, key, value, other);
    }
  }

  /** On its own key text and index agree afterwards exactly if the value can be stored. */
  lemma SettingAgreesIff(d: Grub.Doc, key: string)
    requires Grub.SingleLines(d.lines) && Grub.DistinctKeys(d.lines) && Grub.GoodKey(key) && Agree(d, key)
    ensures Agree(RemappedSetting(d, key), key) <==> FineToStore(d, key)
  {
    hide Grub.SetLine, Grub.IndexOf, Grub.DistinctKeys, Grub.SingleLines, Grub.GoodKey, Grub.SettingOf, Grub.LineFor, Grub.CountingLine,
         Grub.TrimQuotes, Fields, Join, RemapKernelArg;
    if ArgsChange(d, key) {
      var value := Join(RemapAll(Fields(ValueIn(d.kv, key))), ' ');
      StoredOnOneLine(ValueIn(d.kv, key));
      Grub.WrittenCounts(d.lines, key, value);
      Grub.EditedKey(d.lines, key, value);
      Grub.LineSets(key, value);
    }
  }

  /**
   A clean defaults file remapped reads back exactly if each of the two settings is left alone
   or has a value that can be stored; a quote at an end of the arguments is what prevents it.
   */
  lemma GrubRemapReadsBackIff(d: Grub.Doc)
    requires Grub.Clean(d)
    ensures Grub.ReadsBack(RemappedSetting(RemappedSetting(d, Grub.CMDLINE), CMDLINE_DEFAULT))
            <==> FineToStore(d, Grub.CMDLINE) && FineToStore(d, CMDLINE_DEFAULT)
  {
    hide RemappedSetting, Agree, Grub.ReadsBack, Grub.DistinctKeys, Grub.SingleLines, Grub.GoodKey;
    var k1, k2 := Grub.CMDLINE, CMDLINE_DEFAULT;
    var d1 := RemappedSetting(d, k1);
    var d2 := RemappedSetting(d1, k2);
    TwoKeys();
    forall k ensures Agree(d, k) {
      CleanAgrees(d, k);
    }
    SettingAgreesIff(d, k1);
    forall k ensures k != k1 ==> Agree(d1, k) {
      SettingShape(d, k1, k);
    }
    SettingShape(d, k1, k2);
    SettingAgreesIff(d1, k2);
    SettingShape(d1, k2, k1);
    SameFine(d, k1, k2);
    forall k ensures k != k1 && k != k2 ==> Agree(d2, k) {
      SettingShape(d1, k2, k);
    }
    AllAgreeIff(d2);
  }

  lemma CleanAgrees(d: Grub.Doc, k: string)
    requires Grub.Clean(d)
    ensures Agree(d, k)
  {
    hide Grub.IndexOf;
  }

  lemma SameFine(d: Grub.Doc, key: string, other: string)
    requires key != other
    ensures FineToStore(RemappedSetting(d, key), other) <==> FineToStore(d, other)
  {
    hide Grub.SetLine, Grub.Storable, Fields, Join, RemapKernelArg;
  }
}
