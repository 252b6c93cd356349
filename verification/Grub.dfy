/**
 /etc/default/grub as lines of text together with an index of the settings in them, which
 the edits keep up to date side by side.
 */
module Grub {
  import opened Results
  import opened Text

  const CMDLINE := "GRUB_CMDLINE_LINUX"

  predicate IsQuote(c: char)
  {
    c == '"' || c == '\''
  }

  /** strings.Trim of quotes of either kind. */
  function TrimQuotes(s: string): string
    decreases |s|
  {
    if s != "" && IsQuote(s[0]) then TrimQuotes(s[1..])
    else if s != "" && IsQuote(s[|s| - 1]) then TrimQuotes(s[..|s| - 1])
    else s
  }

  datatype Setting = Setting(key: string, value: string)

  /** The setting a line makes, if it is not blank, a comment or without a key. */
  function SettingOf(line: string): Option<Setting>
  {
    var trimmed := TrimSpace(line);
    if trimmed == "" || trimmed[0] == '#' || Index(trimmed, '=') <= 0 then None
    else Some(Setting(trimmed[..Index(trimmed, '=')], TrimQuotes(trimmed[Index(trimmed, '=') + 1..])))
  }

  /** The settings lines make; of settings repeated the last one counts. */
  function IndexOf(lines: seq<string>): map<string, string>
  {
    if lines == [] then map[]
    else
      var n := |lines| - 1;
      match SettingOf(lines[n])
      case None => IndexOf(lines[..n])
      case Some(s) => IndexOf(lines[..n])[s.key := s.value]
  }

  /** The line an edit writes. */
  function LineFor(key: string, value: string): string
  {
    key + "=\"" + value + "\""
  }

  /** The line sets the key, as an edit looks for it. */
  predicate Sets(line: string, key: string)
  {
    key + "=" <= TrimSpace(line)
  }

  /** The first line that sets the key, or the number of lines. */
  function FirstSetting(lines: seq<string>, key: string): (i: nat)
    ensures i <= |lines| && (i < |lines| ==> Sets(lines[i], key)) && forall k :: 0 <= k < i ==> !Sets(lines[k], key)
  {
    if lines == [] || Sets(lines[0], key) then 0
    else
      var i := FirstSetting(lines[1..], key);
      assert forall k :: 0 < k < i + 1 ==> lines[k] == lines[1..][k - 1];
      i + 1
  }

  function SetLine(lines: seq<string>, key: string, value: string): seq<string>
  {
    var i := FirstSetting(lines, key);
    if i < |lines| then lines[i := LineFor(key, value)] else lines + [LineFor(key, value)]
  }

  // ---- Keys and values that can be written ----

  predicate GoodKey(key: string)
  {
    key != "" && !IsSpace(key[0]) && key[0] != '#' && '=' !in key && '\n' !in key
  }

  /** A value that a line written for it is read back as. */
  predicate Storable(value: string)
  {
    '\n' !in value && TrimQuotes(value) == value
  }

  lemma SetsIff(line: string, key: string)
    requires GoodKey(key)
    ensures Sets(line, key) <==> SettingOf(line).Some? && SettingOf(line).value.key == key
  {
    var t := TrimSpace(line);
    if Sets(line, key) {
      assert t[|key|] == '=' && t[..|key|] == key && t[0] == key[0];
      IndexIs(t, '=', |key|);
    }
    var i := Index(t, '=');
    assert i > 0 ==> t[..i + 1] == t[..i] + "=";
  }

  lemma QuotedTrims(value: string)
    ensures TrimQuotes("\"" + value + "\"") == TrimQuotes(value + "\"")
    ensures TrimQuotes(value) == value ==> TrimQuotes(value + "\"") == value
  {
    var s := "\"" + value + "\"";
    assert s[1..] == value + "\"";
    var t := value + "\"";
    if value != "" && TrimQuotes(value) == value {
      TrimmedEnds(value);
      assert t[..|t| - 1] == value;
    } else if value == "" {
      assert t == "\"" && t[1..] == "";
    }
  }

  lemma {:induction false} TrimShrinks(s: string)
    ensures |TrimQuotes(s)| <= |s|
    ensures TrimQuotes(TrimQuotes(s)) == TrimQuotes(s)
    decreases |s|
  {
    if s != "" && IsQuote(s[0]) {
      TrimShrinks(s[1..]);
    } else if s != "" && IsQuote(s[|s| - 1]) {
      TrimShrinks(s[..|s| - 1]);
    }
  }

  lemma TrimmedEnds(s: string)
    requires s != "" && TrimQuotes(s) == s
    ensures !IsQuote(s[0]) && !IsQuote(s[|s| - 1])
  {
    if IsQuote(s[0]) {
      TrimShrinks(s[1..]);
    } else if IsQuote(s[|s| - 1]) {
      TrimShrinks(s[..|s| - 1]);
    }
  }

  /** The line written for a key sets it, to the value without quotes at its ends. */
  lemma LineSets(key: string, value: string)
    requires GoodKey(key)
    ensures var s := SettingOf(LineFor(key, value));
            && Sets(LineFor(key, value), key) && s.Some? && s.value.key == key
            && TrimQuotes(s.value.value) == s.value.value
            && (TrimQuotes(value) == value <==> s.value.value == value)
  {
    var line := LineFor(key, value);
    assert line[0] == key[0] && line[|line| - 1] == '"';
    TrimmedUnchanged(line);
    assert line[|key|] == '=' && line[..|key|] == key;
    IndexIs(line, '=', |key|);
    assert key + "=" <= line;
    var rest := "\"" + value + "\"";
    assert line[|key| + 1..] == rest;
    TrimShrinks(rest);
    QuotedTrims(value);
  }

  // ---- The index under edits ----

  /** No key is set by two lines. */
  predicate DistinctKeys(lines: seq<string>)
  {
    forall i, j :: 0 <= i < j < |lines| && SettingOf(lines[i]).Some? && SettingOf(lines[j]).Some? ==>
      SettingOf(lines[i]).value.key != SettingOf(lines[j]).value.key
  }

  /** The last line that sets the key, or -1. */
  function LastSetting(lines: seq<string>, key: string): (i: int)
    ensures -1 <= i < |lines|
    ensures i >= 0 ==> SettingOf(lines[i]).Some? && SettingOf(lines[i]).value.key == key
    ensures forall k :: i < k < |lines| && SettingOf(lines[k]).Some? ==> SettingOf(lines[k]).value.key != key
  {
    if lines == [] then -1
    else
      var n := |lines| - 1;
      if SettingOf(lines[n]).Some? && SettingOf(lines[n]).value.key == key then n else LastSetting(lines[..n], key)
  }

  lemma {:induction false} IndexHas(lines: seq<string>, key: string)
    ensures var i := LastSetting(lines, key);
            (key in IndexOf(lines) <==> i >= 0) && (i >= 0 ==> IndexOf(lines)[key] == SettingOf(lines[i]).value.value)
    decreases |lines|
  {
    if lines != [] {
      IndexHas(lines[..|lines| - 1], key);
    }
  }

  lemma LastIs(lines: seq<string>, key: string, i: nat)
    requires i < |lines| && SettingOf(lines[i]).Some? && SettingOf(lines[i]).value.key == key
    requires forall k :: i < k < |lines| && SettingOf(lines[k]).Some? ==> SettingOf(lines[k]).value.key != key
    ensures LastSetting(lines, key) == i
  {
  }

  /** An edit of one key leaves what is indexed for the others. */
  lemma OthersKept(lines: seq<string>, key: string, value: string, other: string)
    requires GoodKey(key) && other != key
    ensures var now := SetLine(lines, key, value);
            (other in IndexOf(now) <==> other in IndexOf(lines))
            && (other in IndexOf(now) ==> IndexOf(now)[other] == IndexOf(lines)[other])
  {
    hide SettingOf, Sets, LineFor;
    var now := SetLine(lines, key, value);
    LineSets(key, value);
    var i := FirstSetting(lines, key);
    if i < |lines| {
      SetsIff(lines[i], key);
    }
    IndexHas(lines, other);
    IndexHas(now, other);
    var a := LastSetting(lines, other);
    if a >= 0 {
      LastIs(now, other, a);
    }
    var b := LastSetting(now, other);
    if b >= 0 {
      LastIs(lines, other, b);
    }
  }

  predicate Indexed(lines: seq<string>, key: string, value: string)
  {
    key in IndexOf(lines) && IndexOf(lines)[key] == value
  }

  function ValueOf(line: string): string
  {
    if SettingOf(line).Some? then SettingOf(line).value.value else ""
  }

  /** The line whose setting of the key counts after an edit: a later one, or the one written. */
  function CountingLine(lines: seq<string>, key: string, value: string): string
  {
    if LastSetting(lines, key) > FirstSetting(lines, key) then lines[LastSetting(lines, key)] else LineFor(key, value)
  }

  lemma EditedKey(lines: seq<string>, key: string, value: string)
    requires GoodKey(key)
    ensures Indexed(SetLine(lines, key, value), key, ValueOf(CountingLine(lines, key, value)))
  {
    hide SettingOf, Sets, LineFor, IndexOf;
    var now := SetLine(lines, key, value);
    LineSets(key, value);
    var i, j := FirstSetting(lines, key), LastSetting(lines, key);
    if j >= 0 {
      SetsIff(lines[j], key);
    }
    if i < |lines| {
      SetsIff(lines[i], key);
    }
    IndexHas(lines, key);
    IndexHas(now, key);
    if j > i {
      LastIs(now, key, j);
    } else {
      LastIs(now, key, if i < |lines| then i else |lines|);
    }
  }

  /** After an edit the index of the lines is the index edited, exactly if the line that counts says so. */
  lemma IndexFollowsIff(lines: seq<string>, key: string, value: string)
    requires GoodKey(key)
    ensures IndexOf(SetLine(lines, key, value)) == IndexOf(lines)[key := value]
            <==> ValueOf(CountingLine(lines, key, value)) == value
  {
    hide SetLine, CountingLine, IndexOf;
    EditedKey(lines, key, value);
    var now, want := IndexOf(SetLine(lines, key, value)), IndexOf(lines)[key := value];
    forall other | other != key
      ensures (other in now <==> other in want) && (other in now ==> now[other] == want[other])
    {
      OthersKept(lines, key, value, other);
    }
    if now[key] == value {
      assert now == want;
    } else {
      assert want[key] != now[key];
    }
  }

  /** When no key repeats, only the line written counts. */
  lemma WrittenCounts(lines: seq<string>, key: string, value: string)
    requires GoodKey(key) && DistinctKeys(lines)
    ensures CountingLine(lines, key, value) == LineFor(key, value)
    ensures DistinctKeys(SetLine(lines, key, value))
  {
    hide SettingOf, Sets, LineFor;
    LineSets(key, value);
    var i, j := FirstSetting(lines, key), LastSetting(lines, key);
    if i < |lines| {
      SetsIff(lines[i], key);
    }
    forall k | 0 <= k < |lines| ensures Sets(lines[k], key) <==> SettingOf(lines[k]).Some? && SettingOf(lines[k]).value.key == key {
      SetsIff(lines[k], key);
    }
  }

  // ---- Printing and parsing again ----

  predicate SingleLines(lines: seq<string>)
  {
    lines != [] && forall i :: 0 <= i < |lines| ==> '\n' !in lines[i]
  }

  /** The index made by parsing what the lines print. */
  function Reparsed(lines: seq<string>): map<string, string>
  {
    IndexOf(Split(Join(lines, '\n'), '\n'))
  }

  lemma {:induction false} TrimQuotesChars(s: string)
    ensures forall c <- TrimQuotes(s) :: c in s
    decreases |s|
  {
    if s != "" && IsQuote(s[0]) {
      TrimQuotesChars(s[1..]);
    } else if s != "" && IsQuote(s[|s| - 1]) {
      TrimQuotesChars(s[..|s| - 1]);
    }
  }

  /** No value read from lines of text has a line break in it. */
  lemma {:induction false} ValuesSingleLine(lines: seq<string>, key: string)
    requires forall i :: 0 <= i < |lines| ==> '\n' !in lines[i]
    ensures key in IndexOf(lines) ==> '\n' !in IndexOf(lines)[key]
  {
    hide SettingOf;
    IndexHas(lines, key);
    var i := LastSetting(lines, key);
    if i >= 0 {
      ValueChars(lines[i]);
    }
  }

  lemma ValueChars(line: string)
    ensures SettingOf(line).Some? ==> forall c <- SettingOf(line).value.value :: c in line
  {
    var t := TrimSpace(line);
    TrimSpaceChars(line);
    if SettingOf(line).Some? {
      TrimQuotesChars(t[Index(t, '=') + 1..]);
    }
  }

  lemma SetLineSingle(lines: seq<string>, key: string, value: string)
    requires SingleLines(lines) && GoodKey(key) && '\n' !in value
    ensures SingleLines(SetLine(lines, key, value))
  {
  }

  /**
   Starting from lines that set no key twice, an edit leaves lines that read back as the
   edited index exactly if the value can be stored.
   */
  lemma ReadsBackIff(lines: seq<string>, key: string, value: string)
    requires GoodKey(key) && SingleLines(lines) && DistinctKeys(lines)
    ensures Reparsed(SetLine(lines, key, value)) == IndexOf(lines)[key := value] <==> Storable(value)
  {
    hide SetLine, DistinctKeys, IndexOf, TrimQuotes, CountingLine, SettingOf, LineFor;
    var now := SetLine(lines, key, value);
    if '\n' in value {
      var parts := Split(Join(now, '\n'), '\n');
      ValuesSingleLine(parts, key);
      assert IndexOf(lines)[key := value][key] == value;
    } else {
      SetLineSingle(lines, key, value);
      SplitJoin(now, '\n');
      WrittenCounts(lines, key, value);
      IndexFollowsIff(lines, key, value);
      LineSets(key, value);
    }
  }

  // ---- Kernel arguments ----

  function UpToEquals(arg: string): string
  {
    if Index(arg, '=') < 0 then arg else arg[..Index(arg, '=')]
  }

  /** The argument is there, or one that sets the same parameter. */
  predicate Present(args: seq<string>, arg: string)
  {
    exists i :: 0 <= i < |args| && (args[i] == arg || UpToEquals(arg) + "=" <= args[i])
  }

  predicate Matches(a: string, prefix: string)
  {
    a == prefix || prefix + "=" <= a
  }

  function Without(args: seq<string>, prefix: string): (r: seq<string>)
    ensures forall i :: 0 <= i < |r| ==> r[i] in args && !Matches(r[i], prefix)
  {
    if args == [] then []
    else (if Matches(args[0], prefix) then [] else [args[0]]) + Without(args[1..], prefix)
  }

  lemma {:induction false} WithoutTwice(args: seq<string>, prefix: string)
    ensures Without(Without(args, prefix), prefix) == Without(args, prefix)
  {
    if args != [] {
      WithoutTwice(args[1..], prefix);
      var rest := Without(args[1..], prefix);
      assert ([args[0]] + rest)[1..] == rest;
      assert Without(args, prefix) == if Matches(args[0], prefix) then rest else [args[0]] + rest;
    }
  }

  lemma {:induction false} WithoutSnoc(args: seq<string>, prefix: string, n: nat)
    requires n < |args|
    ensures Without(args[..n + 1], prefix) == Without(args[..n], prefix) + if Matches(args[n], prefix) then [] else [args[n]]
    decreases n
  {
    if n == 0 {
      assert args[..1][1..] == [];
    } else {
      assert args[..n + 1][1..] == args[1..][..n] && args[..n][1..] == args[1..][..n - 1];
      WithoutSnoc(args[1..], prefix, n - 1);
    }
  }

  lemma GoodCmdline()
    ensures GoodKey(CMDLINE)
  {
  }

  lemma SetsMeans(line: string, key: string)
    ensures Sets(line, key) <==> key + "=" <= TrimSpace(line)
  {
  }

  lemma LineForMeans(key: string, value: string)
    ensures LineFor(key, value) == key + "=\"" + value + "\""
  {
  }

  lemma CleanAfter(lines: seq<string>, key: string, value: string)
    requires GoodKey(key) && SingleLines(lines) && DistinctKeys(lines) && Storable(value)
    ensures var now := SetLine(lines, key, value);
            SingleLines(now) && DistinctKeys(now) && IndexOf(now) == IndexOf(lines)[key := value]
  {
    hide SetLine, DistinctKeys, IndexOf, CountingLine, SettingOf, LineFor, TrimQuotes;
    SetLineSingle(lines, key, value);
    WrittenCounts(lines, key, value);
    IndexFollowsIff(lines, key, value);
    LineSets(key, value);
  }

  // ---- Edits ----

  /** The text and the index, side by side. */
  datatype Doc = Doc(lines: seq<string>, kv: map<string, string>)

  datatype Edit = Put(key: string, value: string) | AddArg(arg: string) | RemoveArg(prefix: string)

  function KernelArgs(kv: map<string, string>): (args: seq<string>)
    ensures AllWords(args)
  {
    Fields(if CMDLINE in kv then kv[CMDLINE] else "")
  }

  function PutIn(d: Doc, key: string, value: string): Doc
  {
    Doc(SetLine(d.lines, key, value), d.kv[key := value])
  }

  /** The setting an edit makes, if any. */
  function SettingFor(kv: map<string, string>, e: Edit): Option<Setting>
  {
    match e
    case Put(key, value) => Some(Setting(key, value))
    case AddArg(arg) =>
      if Present(KernelArgs(kv), arg) then None else Some(Setting(CMDLINE, Join(KernelArgs(kv) + [arg], ' ')))
    case RemoveArg(prefix) => Some(Setting(CMDLINE, Join(Without(KernelArgs(kv), prefix), ' ')))
  }

  function Edited(d: Doc, e: Edit): Doc
  {
    match SettingFor(d.kv, e)
    case None => d
    case Some(s) => PutIn(d, s.key, s.value)
  }

  function AllEdited(d: Doc, es: seq<Edit>): Doc
    decreases |es|
  {
    if es == [] then d else AllEdited(Edited(d, es[0]), es[1..])
  }

  /** The edits set only good keys, and only to values that can be stored. */
  predicate AllStorable(kv: map<string, string>, es: seq<Edit>)
    decreases |es|
  {
    es == [] ||
    match SettingFor(kv, es[0])
    case None => AllStorable(kv, es[1..])
    case Some(s) => GoodKey(s.key) && Storable(s.value) && AllStorable(kv[s.key := s.value], es[1..])
  }

  /** The lines set no key twice and read back as the index. */
  predicate Clean(d: Doc)
  {
    SingleLines(d.lines) && DistinctKeys(d.lines) && IndexOf(d.lines) == d.kv
  }

  /** Parsing the printed text gives the index held in memory. */
  predicate ReadsBack(d: Doc)
  {
    Reparsed(d.lines) == d.kv
  }

  lemma CleanReadsBack(d: Doc)
    requires Clean(d)
    ensures ReadsBack(d)
  {
    hide IndexOf;
    SplitJoin(d.lines, '\n');
  }

  /** One edit of a clean file leaves it reading back exactly if what it stores can be stored. */
  lemma EditReadsBackIff(d: Doc, e: Edit)
    requires Clean(d)
    ensures match SettingFor(d.kv, e)
            case None => ReadsBack(Edited(d, e))
            case Some(s) => GoodKey(s.key) ==> (ReadsBack(Edited(d, e)) <==> Storable(s.value)) && (Storable(s.value) ==> Clean(Edited(d, e)))
  {
    hide SettingFor, SetLine, Reparsed, Storable, IndexOf, DistinctKeys, SingleLines, GoodKey;
    CleanReadsBack(d);
    match SettingFor(d.kv, e)
    case None =>
    case Some(s) =>
      if GoodKey(s.key) {
        ReadsBackIff(d.lines, s.key, s.value);
        if Storable(s.value) {
          CleanAfter(d.lines, s.key, s.value);
        }
      }
  }

  /** After any edits that store only what can be stored, parsing the printed text gives the index. */
  lemma {:induction false} EditsReadBack(d: Doc, es: seq<Edit>)
    requires Clean(d) && AllStorable(d.kv, es)
    ensures Clean(AllEdited(d, es)) && ReadsBack(AllEdited(d, es))
    decreases |es|
  {
    hide SettingFor, SetLine, Clean, ReadsBack;
    if es == [] {
      CleanReadsBack(d);
    } else {
      EditReadsBackIff(d, es[0]);
      EditsReadBack(Edited(d, es[0]), es[1..]);
    }
  }

  // ---- Doing an edit twice ----

  lemma FieldsOfStored(args: seq<string>)
    requires AllWords(args)
    ensures Fields(Join(args, ' ')) == args
  {
    FieldsJoin(args, ' ');
  }

  lemma SetLineTwice(lines: seq<string>, key: string, value: string)
    requires GoodKey(key)
    ensures SetLine(SetLine(lines, key, value), key, value) == SetLine(lines, key, value)
  {
    hide Sets, LineFor;
    LineSets(key, value);
    var now := SetLine(lines, key, value);
    var i, j := FirstSetting(lines, key), FirstSetting(now, key);
    assert Sets(now[if i < |lines| then i else |lines|], key);
    assert j == if i < |lines| then i else |lines|;
  }

  lemma NameChars(arg: string)
    ensures UpToEquals(arg) <= arg && (UpToEquals(arg) == arg || UpToEquals(arg) + "=" <= arg)
  {
    var i := Index(arg, '=');
    assert i >= 0 ==> arg[..i + 1] == arg[..i] + "=";
  }

  /** Only an argument without white space in its name can be found among words. */
  lemma PresentHasPlainName(args: seq<string>, arg: string)
    requires AllWords(args) && Present(args, arg)
    ensures NoSpace(UpToEquals(arg))
  {
    NameChars(arg);
    var name := UpToEquals(arg);
    var i :| 0 <= i < |args| && (args[i] == arg || name + "=" <= args[i]);
    assert NoSpace(args[i]) && name <= args[i];
    forall c <- name ensures !IsSpace(c) {
      var k :| 0 <= k < |name| && name[k] == c;
      assert args[i][k] == c && args[i][k] in args[i];
    }
  }

  /** What the fields of an added argument are found by. */
  lemma AddedIsPresent(args: seq<string>, arg: string)
    requires NoSpace(UpToEquals(arg)) && arg != ""
    ensures Present(args + Fields(arg), arg)
  {
    hide Fields;
    NameChars(arg);
    var name := UpToEquals(arg);
    if name == arg {
      FirstField(arg, |arg|);
      assert arg[..|arg|] == arg;
    } else {
      assert arg[..|name| + 1] == name + "=" && !IsSpace('=');
      FirstField(arg, |name| + 1);
    }
    assert (args + Fields(arg))[|args|] == Fields(arg)[0];
  }

  /** The two ways an argument that is not there is stored the second time. */
  lemma AddedAgain(d: Doc, arg: string)
    requires !Present(KernelArgs(d.kv), arg)
    ensures var args := KernelArgs(d.kv); var once := Edited(d, AddArg(arg));
            && KernelArgs(once.kv) == args + Fields(arg)
            && Edited(once, AddArg(arg)) ==
                 if Present(args + Fields(arg), arg) then once else PutIn(once, CMDLINE, Join(args + Fields(arg) + [arg], ' '))
  {
    hide Fields, Join, SetLine, Present;
    FieldsJoinLast(KernelArgs(d.kv), arg, ' ');
  }

  /**
   Adding an argument a second time changes nothing exactly if there is no white space in its
   name, or it is nothing but white space.
   */
  lemma AddTwiceIff(d: Doc, arg: string)
    ensures Edited(Edited(d, AddArg(arg)), AddArg(arg)) == Edited(d, AddArg(arg))
            <==> NoSpace(UpToEquals(arg)) || Fields(arg) == []
  {
    hide Fields, Join, SetLine, Present, UpToEquals;
    var args := KernelArgs(d.kv);
    var once := Edited(d, AddArg(arg));
    if Present(args, arg) {
      PresentHasPlainName(args, arg);
    } else {
      AddedAgain(d, arg);
      if Fields(arg) == [] {
        assert args + Fields(arg) == args;
        GoodCmdline();
        SetLineTwice(d.lines, CMDLINE, Join(args + [arg], ' '));
      } else if NoSpace(UpToEquals(arg)) {
        assert Fields("") == [] by { Text.NoFields(); }
        AddedIsPresent(args, arg);
      } else {
        AddedTwiceDiffers(args, arg);
      }
    }
  }

  lemma AddedTwiceDiffers(args: seq<string>, arg: string)
    requires AllWords(args) && Fields(arg) != [] && !NoSpace(UpToEquals(arg))
    ensures !Present(args + Fields(arg), arg)
    ensures Join(args + Fields(arg) + [arg], ' ') != Join(args + [arg], ' ')
  {
    hide Fields, Join, Present;
    var more := args + Fields(arg);
    if Present(more, arg) {
      PresentHasPlainName(more, arg);
    }
    FieldsJoinLast(args, arg, ' ');
    FieldsJoinLast(more, arg, ' ');
    assert |more + Fields(arg)| > |more|;
  }

  /** A one-word argument is found afterwards. */
  lemma AddedArgumentPresent(d: Doc, arg: string)
    requires NoSpace(UpToEquals(arg)) && arg != ""
    ensures Present(KernelArgs(Edited(d, AddArg(arg)).kv), arg)
  {
    hide Fields, Join, SetLine, Present, UpToEquals;
    if !Present(KernelArgs(d.kv), arg) {
      AddedAgain(d, arg);
      AddedIsPresent(KernelArgs(d.kv), arg);
    }
  }

  /** Removing an argument a second time changes nothing, and after the first none of its kind is left. */
  lemma RemoveTwice(d: Doc, prefix: string)
    ensures Edited(Edited(d, RemoveArg(prefix)), RemoveArg(prefix)) == Edited(d, RemoveArg(prefix))
    ensures KernelArgs(Edited(d, RemoveArg(prefix)).kv) == Without(KernelArgs(d.kv), prefix)
  {
    hide Fields, Join, SetLine;
    var left := Without(KernelArgs(d.kv), prefix);
    FieldsOfStored(left);
    WithoutTwice(KernelArgs(d.kv), prefix);
    GoodCmdline();
    SetLineTwice(d.lines, CMDLINE, Join(left, ' '));
  }

  /** An argument with white space in its name is never found again, and so added every time. */
  lemma SpacedAlwaysAdded(d: Doc, arg: string)
    requires exists c <- UpToEquals(arg) :: IsSpace(c)
    ensures SettingFor(d.kv, AddArg(arg)) == Some(Setting(CMDLINE, Join(KernelArgs(d.kv) + [arg], ' ')))
  {
    hide Fields, Join;
    var args := KernelArgs(d.kv);
    var name := UpToEquals(arg);
    var i :| 0 <= i < |name| && IsSpace(name[i]);
    forall k | 0 <= k < |args| ensures !(args[k] == arg || name + "=" <= args[k]) {
      assert name[i] == arg[i] && NoSpace(args[k]);
      assert (name + "=")[i] == name[i];
    }
  }

  /**
   A key set on two lines: the edit changes the first, and the text goes on saying what the
   second says, unless that is the new value.
   */
  lemma RepeatedKeyIff(old1: string, old2: string, key: string, value: string)
    requires GoodKey(key)
    ensures var lines := [LineFor(key, old1), LineFor(key, old2)];
            IndexOf(SetLine(lines, key, value)) == IndexOf(lines)[key := value] <==> ValueOf(LineFor(key, old2)) == value
  {
    hide IndexOf, SetLine, SettingOf, Sets, LineFor;
    var lines := [LineFor(key, old1), LineFor(key, old2)];
    LineSets(key, old1);
    LineSets(key, old2);
    IndexFollowsIff(lines, key, value);
    assert FirstSetting(lines, key) == 0;
    LastIs(lines, key, 1);
  }

  // ---- The config ----

  class Config {
    var lines: seq<string>
    var kv: map<string, string>

    function Contents(): Doc
      reads this
    {
      Doc(lines, kv)
    }

    constructor Parse(content: string)
      ensures lines == Split(content, '\n') && kv == IndexOf(lines)
      ensures String() == content && ReadsBack(Contents())
    {
      lines := Split(content, '\n');
      kv := map[];
      new;
      hide TrimSpace, TrimQuotes, Split, Join;
      for i := 0 to |lines|
        invariant lines == Split(content, '\n') && kv == IndexOf(lines[..i])
      {
        assert lines[..i + 1][..i] == lines[..i];
        var trimmed := TrimSpace(lines[i]);
        if trimmed == "" || trimmed[0] == '#' {
          continue;
        }
        var idx := Index(trimmed, '=');
        if idx > 0 {
          var key := trimmed[..idx];
          var val := TrimQuotes(trimmed[idx + 1..]);
          kv := kv[key := val];
        }
      }
      assert lines[..|lines|] == lines;
      JoinSplit(content, '\n');
    }

    function String(): (s: string)
      reads this
    {
      Join(lines, '\n')
    }

    function Get(key: string): string
      reads this
    {
      if key in kv then kv[key] else ""
    }

    method Set(key: string, value: string)
      modifies this
      ensures Contents() == Edited(old(Contents()), Put(key, value))
    {
      hide Sets, LineFor;
      kv := kv[key := value];
      var found := false;
      for i := 0 to |lines|
        modifies this`lines
        invariant !found && lines == old(lines) && forall k :: 0 <= k < i ==> !Sets(lines[k], key)
      {
        var trimmed := TrimSpace(lines[i]);
        SetsMeans(lines[i], key);
        if key + "=" <= trimmed {
          LineForMeans(key, value);
          lines := lines[i := key + "=\"" + value + "\""];
          found := true;
          break;
        }
      }
      if !found {
        LineForMeans(key, value);
        lines := lines + [key + "=\"" + value + "\""];
      }
    }

    method AddKernelArg(arg: string)
      modifies this
      ensures Contents() == Edited(old(Contents()), AddArg(arg))
    {
      hide SetLine, Fields, Join;
      var args := Fields(Get(CMDLINE));
      for i := 0 to |args|
        modifies {}
        invariant forall k :: 0 <= k < i ==> !(args[k] == arg || UpToEquals(arg) + "=" <= args[k])
      {
        if args[i] == arg || UpToEquals(arg) + "=" <= args[i] {
          return;
        }
      }
      Set(CMDLINE, Join(args + [arg], ' '));
    }

    method RemoveKernelArg(prefix: string)
      modifies this
      ensures Contents() == Edited(old(Contents()), RemoveArg(prefix))
    {
      hide SetLine, Fields, Join;
      var args := Fields(Get(CMDLINE));
      var filtered := [];
      for i := 0 to |args|
        modifies {}
        invariant filtered == Without(args[..i], prefix)
      {
        WithoutSnoc(args, prefix, i);
        if args[i] != prefix && !(prefix + "=" <= args[i]) {
          filtered := filtered + [args[i]];
        }
      }
      assert args[..|args|] == args;
      Set(CMDLINE, Join(filtered, ' '));
    }
  }
}
