/**
 Command lines for the guest: arguments quoted for the shell, as section 2.3 of the Shell
 Command Language of IEEE Std 1003.1-2017 splits them again, and the guestfish script line
 that carries them.
 */
module ShellQuote {
  import opened Results
  import opened Text

  const SPECIAL := " \t\n\"'\\$`!#&|;(){}[]<>?*~"

  predicate IsSpecial(c: char)
  {
    c in SPECIAL
  }

  // ---- Quoting ----

  function EscapeQuotes(s: string): string
  {
    if s == "" then "" else (if s[0] == '\'' then "'\\''" else [s[0]]) + EscapeQuotes(s[1..])
  }

  /** shellQuote. */
  function Quoted(s: string): string
  {
    if s == "" then "''"
    else if forall c <- s :: !IsSpecial(c) then s
    else "'" + EscapeQuotes(s) + "'"
  }

  function QuotedAll(args: seq<string>): (r: seq<string>)
    ensures |r| == |args| && forall i :: 0 <= i < |r| ==> r[i] == Quoted(args[i])
  {
    seq(|args|, i requires 0 <= i < |args| => Quoted(args[i]))
  }

  // ---- Token recognition ----

  function OrEmpty(cur: Option<string>): string
  {
    if cur.None? then "" else cur.value
  }

  function Ended(cur: Option<string>): seq<string>
  {
    if cur.None? then [] else [cur.value]
  }

  /**
   The words of a command line, quotes removed: blanks delimit them, backslash quotes one
   character (section 2.2.1) and single quotes all up to the next one (section 2.2.2). None
   if a quote is not closed, or if an unquoted character means anything but itself.
   */
  function Words(s: string, cur: Option<string>): Option<seq<string>>
    decreases |s|
  {
    if s == "" then Some(Ended(cur))
    else if s[0] == ' ' || s[0] == '\t' then
      var rest := Words(s[1..], None);
      if rest.None? then None else Some(Ended(cur) + rest.value)
    else if s[0] == '\'' then
      var j := Index(s[1..], '\'');
      if j < 0 then None else Words(s[j + 2..], Some(OrEmpty(cur) + s[1..j + 1]))
    else if s[0] == '\\' then
      if |s| == 1 then None
      else if s[1] == '\n' then Words(s[2..], cur)
      else Words(s[2..], Some(OrEmpty(cur) + [s[1]]))
    else if s[0] == '#' && cur.Some? then Words(s[1..], Some(cur.value + "#"))
    else if IsSpecial(s[0]) then None
    else Words(s[1..], Some(OrEmpty(cur) + [s[0]]))
  }

  lemma PlainStep(c: char, rest: string, cur: Option<string>)
    requires !IsSpecial(c)
    ensures Words([c] + rest, cur) == Words(rest, Some(OrEmpty(cur) + [c]))
  {
    hide IsSpecial, OrEmpty, Ended, Index;
    SpecialHas();
    assert c != ' ' && c != '\t' && c != '\'' && c != '\\' && c != '#';
    var s := [c] + rest;
    assert s[0] == c && s[1..] == rest;
  }

  /** Characters that mean nothing else go into the word as they are. */
  lemma {:induction false} PlainWord(a: string, rest: string, cur: Option<string>)
    requires a != "" && forall c <- a :: !IsSpecial(c)
    ensures Words(a + rest, cur) == Words(rest, Some(OrEmpty(cur) + a))
    decreases |a|
  {
    hide Words, OrEmpty;
    assert a + rest == [a[0]] + (a[1..] + rest);
    PlainStep(a[0], a[1..] + rest, cur);
    var next := Some(OrEmpty(cur) + [a[0]]);
    OrEmptyIs(next);
    if |a| == 1 {
      assert a[1..] + rest == rest && a == [a[0]];
    } else {
      PlainWord(a[1..], rest, next);
      assert OrEmpty(cur) + [a[0]] + a[1..] == OrEmpty(cur) + a;
    }
  }

  lemma SpecialHas()
    ensures IsSpecial(' ') && IsSpecial('\t') && IsSpecial('\'') && IsSpecial('\\') && IsSpecial('#')
  {
    assert SPECIAL[0] == ' ' && SPECIAL[1] == '\t' && SPECIAL[2] == '\n';
    assert SPECIAL[4] == '\'' && SPECIAL[5] == '\\' && SPECIAL[9] == '#';
  }

  /** Up to the next quote everything is taken literally. */
  lemma QuotedPart(part: string, rest: string, cur: Option<string>)
    requires '\'' !in part
    ensures Words("'" + part + "'" + rest, cur) == Words(rest, Some(OrEmpty(cur) + part))
  {
    var s := "'" + part + "'" + rest;
    assert s[1..] == part + "'" + rest;
    IndexIs(s[1..], '\'', |part|) by { assert s[1..][..|part|] == part; }
    assert s[1..|part| + 1] == part && s[|part| + 2..] == rest;
  }

  lemma EscapedQuote(rest: string, cur: Option<string>)
    ensures Words("\\'" + rest, cur) == Words(rest, Some(OrEmpty(cur) + "'"))
  {
    var s := "\\'" + rest;
    assert s[0] == '\\' && s[1] == '\'' && s[2..] == rest;
  }

  lemma {:induction false} EscapePlain(s: string)
    requires '\'' !in s
    ensures EscapeQuotes(s) == s
  {
    if s != "" {
      EscapePlain(s[1..]);
      assert s == [s[0]] + s[1..];
    }
  }

  lemma {:induction false} EscapeAt(a: string, b: string)
    requires '\'' !in a
    ensures EscapeQuotes(a + "'" + b) == a + "'\\''" + EscapeQuotes(b)
  {
    var s := a + "'" + b;
    if a == "" {
      assert s[0] == '\'' && s[1..] == b;
    } else {
      assert s[0] == a[0] && s[1..] == a[1..] + "'" + b;
      EscapeAt(a[1..], b);
      assert [a[0]] + (a[1..] + "'\\''" + EscapeQuotes(b)) == a + "'\\''" + EscapeQuotes(b) by {
        assert [a[0]] + a[1..] == a;
      }
    }
  }

  lemma {:induction false} EscapedWord(a: string, rest: string, cur: Option<string>)
    ensures Words("'" + EscapeQuotes(a) + "'" + rest, cur) == Words(rest, Some(OrEmpty(cur) + a))
    decreases |a|
  {
    hide Words, EscapeQuotes, OrEmpty;
    var k := Index(a, '\'');
    if k < 0 {
      EscapePlain(a);
      QuotedPart(a, rest, cur);
    } else {
      var a1, a2 := a[..k], a[k + 1..];
      assert a == a1 + "'" + a2;
      EscapeAt(a1, a2);
      var tail := "'" + EscapeQuotes(a2) + "'" + rest;
      assert "'" + EscapeQuotes(a) + "'" + rest == "'" + a1 + "'" + ("\\'" + tail);
      QuotedPart(a1, "\\'" + tail, cur);
      var cur1 := Some(OrEmpty(cur) + a1);
      EscapedQuote(tail, cur1);
      var cur2 := Some(OrEmpty(cur1) + "'");
      EscapedWord(a2, rest, cur2);
      OrEmptyIs(cur1);
      OrEmptyIs(cur2);
      assert OrEmpty(cur) + a1 + "'" + a2 == OrEmpty(cur) + a;
    }
  }

  lemma OrEmptyIs(cur: Option<string>)
    ensures cur.Some? ==> OrEmpty(cur) == cur.value
    ensures OrEmpty(None) == ""
  {
  }

  /** A quoted argument is read as one word, that argument. */
  lemma QuotedWord(a: string, rest: string)
    ensures Words(Quoted(a) + rest, None) == Words(rest, Some(a))
  {
    hide Words, EscapeQuotes, OrEmpty;
    OrEmptyIs(None);
    assert "" + a == a;
    if a == "" {
      QuotedPart("", rest, None);
      assert "'" + "" + "'" + rest == "''" + rest;
    } else if forall c <- a :: !IsSpecial(c) {
      PlainWord(a, rest, None);
    } else {
      EscapedWord(a, rest, None);
    }
  }

  /** Splitting the quoted arguments of any command gives back exactly those arguments. */
  lemma {:induction false} QuotedArgumentsReadBack(args: seq<string>)
    ensures Words(Join(QuotedAll(args), ' '), None) == Some(args)
    decreases |args|
  {
    hide Words, Quoted, Join;
    NoWords();
    ReadBackBefore(args, "");
    assert Join(QuotedAll(args), ' ') + "" == Join(QuotedAll(args), ' ');
    assert args + [] == args;
  }

  lemma NoWords()
    ensures Words("", None) == Some([]) && Join([], ' ') == ""
    ensures forall a :: Words("", Some(a)) == Some([a])
  {
  }

  lemma BlankEnds(rest: string, cur: Option<string>)
    ensures Words(" " + rest, cur) == if Words(rest, None).None? then None else Some(Ended(cur) + Words(rest, None).value)
  {
    assert (" " + rest)[1..] == rest;
  }

  /** The same with more to come after a blank. */
  lemma {:induction false} ReadBackBefore(args: seq<string>, more: string)
    requires more == "" || more[0] == ' '
    requires Words(more, None).Some?
    ensures Words(Join(QuotedAll(args), ' ') + more, None) == Some(args + Words(more, None).value)
    decreases |args|
  {
    hide Words, Quoted;
    var words := QuotedAll(args);
    NoWords();
    if args == [] {
      assert Join(words, ' ') + more == more;
      assert args + Words(more, None).value == Words(more, None).value;
    } else if |args| == 1 {
      QuotedWord(args[0], more);
      WordEnds(args[0], more);
      assert [args[0]] == args;
    } else {
      assert words[1..] == QuotedAll(args[1..]);
      var tail := Join(words[1..], ' ') + more;
      assert Join(words, ' ') + more == words[0] + (" " + tail);
      QuotedWord(args[0], " " + tail);
      BlankEnds(tail, Some(args[0]));
      ReadBackBefore(args[1..], more);
      assert [args[0]] + (args[1..] + Words(more, None).value) == args + Words(more, None).value;
    }
  }

  lemma WordEnds(a: string, more: string)
    requires more == "" || more[0] == ' '
    ensures Words(more, Some(a)) == if Words(more, None).None? then None else Some([a] + Words(more, None).value)
  {
    if more != "" {
      assert more == " " + more[1..];
      BlankEnds(more[1..], Some(a));
      BlankEnds(more[1..], None);
      var r := Words(more[1..], None);
      if r.Some? {
        assert Ended(None) + r.value == r.value;
      }
    } else {
      assert [a] + [] == [a];
    }
  }

  // ---- The command script ----

  /** The shell command of shCommandScript. */
  function ShellLine(cmd: seq<string>): string
  {
    Join(QuotedAll(cmd), ' ') + " 2>&1"
  }

  predicate NeedsQuotes(path: string)
  {
    exists c <- path :: c in " \t\"'\\"
  }

  function Backslashed(s: string): string
  {
    if s == "" then "" else (if s[0] == '\\' || s[0] == '"' then ['\\', s[0]] else [s[0]]) + Backslashed(s[1..])
  }

  function QuotedForGuestfish(path: string): string
  {
    if NeedsQuotes(path) then "\"" + Backslashed(path) + "\"" else path
  }

  method ShCommandScript(cmd: seq<string>) returns (script: string)
    ensures script == "sh " + QuotedForGuestfish(ShellLine(cmd)) + "\n"
  {
    hide QuotedForGuestfish, Join;
    var words := [];
    var shell := "";
    NoWords();
    for i := 0 to |cmd|
      invariant |words| == i && words == QuotedAll(cmd)[..i] && shell == Join(words, ' ')
    {
      JoinSnoc(words, Quoted(cmd[i]), ' ');
      if i > 0 {
        shell := shell + " ";
      }
      words := words + [Quoted(cmd[i])];
      shell := shell + Quoted(cmd[i]);
    }
    assert QuotedAll(cmd)[..|cmd|] == QuotedAll(cmd);
    shell := shell + " 2>&1";
    script := "sh " + QuotedForGuestfish(shell) + "\n";
  }

  lemma {:induction false} JoinSnoc(parts: seq<string>, p: string, sep: char)
    ensures Join(parts + [p], sep) == if parts == [] then p else Join(parts, sep) + [sep] + p
    decreases |parts|
  {
    if |parts| == 0 {
      assert [] + [p] == [p];
    } else {
      assert (parts + [p])[1..] == parts[1..] + [p];
      JoinSnoc(parts[1..], p, sep);
    }
  }

  /** The shell's words are the command's, followed by the redirection. */
  lemma ShellLineReadsBack(cmd: seq<string>)
    ensures Words(Join(QuotedAll(cmd), ' ') + " ", None) == Some(cmd)
    ensures ShellLine(cmd) == Join(QuotedAll(cmd), ' ') + " " + "2>&1"
  {
    hide Words, Quoted, Join;
    BlankEnds("", None);
    NoWords();
    assert " " + "" == " ";
    ReadBackBefore(cmd, " ");
    assert cmd + [] == cmd;
  }

  // ---- Script lines ----

  /** The lines of a script that prefixDash keeps. */
  function Kept(lines: seq<string>): (r: seq<string>)
    ensures forall i :: 0 <= i < |r| ==> r[i] != "" && r[i][0] == '-'
    ensures |r| <= |lines|
  {
    if lines == [] then []
    else
      var t := TrimSpace(lines[0]);
      (if t == "" then [] else [if t[0] == '-' then t else "-" + t]) + Kept(lines[1..])
  }

  /** Every line ends in a line break. */
  function Terminated(lines: seq<string>): string
  {
    if lines == [] then "" else lines[0] + "\n" + Terminated(lines[1..])
  }

  method PrefixDash(script: string) returns (out: string)
    ensures out == Terminated(Kept(Split(script, '\n')))
  {
    hide TrimSpace, Kept, Terminated, Split;
    out := "";
    var lines := Split(script, '\n');
    assert lines[0..] == lines;
    KeptNothing(lines[|lines|..]);
    for i := 0 to |lines|
      invariant out + Terminated(Kept(lines[i..])) == Terminated(Kept(lines))
    {
      assert lines[i..][1..] == lines[i + 1..];
      KeptCons(lines[i..]);
      var trimmed := TrimSpace(lines[i]);
      if trimmed == "" {
        continue;
      }
      var line := if trimmed[0] != '-' then "-" + trimmed else trimmed;
      TerminatedCons(line, Kept(lines[i + 1..]));
      assert out + (line + "\n" + Terminated(Kept(lines[i + 1..]))) == out + line + "\n" + Terminated(Kept(lines[i + 1..]));
      out := out + line + "\n";
    }
  }

  lemma KeptCons(lines: seq<string>)
    requires lines != []
    ensures var t := TrimSpace(lines[0]);
            Kept(lines) == if t == "" then Kept(lines[1..]) else [if t[0] == '-' then t else "-" + t] + Kept(lines[1..])
  {
  }

  lemma KeptNothing(lines: seq<string>)
    requires lines == []
    ensures Terminated(Kept(lines)) == ""
  {
  }

  lemma TerminatedCons(line: string, rest: seq<string>)
    ensures Terminated([line] + rest) == line + "\n" + Terminated(rest)
  {
    assert ([line] + rest)[1..] == rest;
  }

  // ---- Line breaks in arguments ----

  lemma {:induction false} EscapeChars(s: string, c: char)
    requires c != '\'' && c != '\\'
    ensures c in EscapeQuotes(s) <==> c in s
  {
    if s != "" {
      EscapeChars(s[1..], c);
    }
  }

  lemma QuotedChars(a: string)
    ensures '\n' in Quoted(a) <==> '\n' in a
  {
    EscapeChars(a, '\n');
  }

  lemma {:induction false} JoinHas(parts: seq<string>, sep: char, c: char)
    requires c != sep
    ensures c in Join(parts, sep) <==> exists i :: 0 <= i < |parts| && c in parts[i]
    decreases |parts|
  {
    if |parts| > 1 {
      JoinHas(parts[1..], sep, c);
      assert forall i :: 0 < i < |parts| ==> parts[i] == parts[1..][i - 1];
      if c in Join(parts[1..], sep) {
        var i :| 0 <= i < |parts[1..]| && c in parts[1..][i];
        assert c in parts[i + 1];
      }
    }
  }

  lemma {:induction false} BackslashedChars(s: string, c: char)
    requires c != '\\'
    ensures c in Backslashed(s) <==> c in s
  {
    if s != "" {
      BackslashedChars(s[1..], c);
    }
  }

  /** The shell's line has a line break exactly if an argument has; it has a blank in any case. */
  lemma ShellLineBreaks(cmd: seq<string>)
    ensures '\n' in ShellLine(cmd) <==> exists i :: 0 <= i < |cmd| && '\n' in cmd[i]
    ensures ShellLine(cmd) != "" && NeedsQuotes(ShellLine(cmd))
  {
    hide Join, Quoted;
    var q := QuotedAll(cmd);
    forall i | 0 <= i < |cmd| ensures '\n' in q[i] <==> '\n' in cmd[i] {
      QuotedChars(cmd[i]);
    }
    JoinHas(q, ' ', '\n');
    var shell := ShellLine(cmd);
    assert '\n' in shell <==> '\n' in Join(q, ' ');
    assert shell[|Join(q, ' ')|] == ' ' && " \t\"'\\"[0] == ' ';
    assert ' ' in shell && ' ' in " \t\"'\\";
  }

  /** A command is sent as one script line exactly if no argument has a line break in it. */
  lemma OneLineIff(cmd: seq<string>)
    ensures |Split("sh " + QuotedForGuestfish(ShellLine(cmd)), '\n')| == 1
            <==> forall i :: 0 <= i < |cmd| ==> '\n' !in cmd[i]
  {
    hide Backslashed, Join, Quoted, ShellLine;
    ShellLineBreaks(cmd);
    var shell := ShellLine(cmd);
    BackslashedChars(shell, '\n');
    var line := "sh " + QuotedForGuestfish(shell);
    assert '\n' in line <==> '\n' in shell;
    SplitOneIff(line, '\n');
  }

  lemma {:induction false} SplitOneIff(s: string, sep: char)
    ensures |Split(s, sep)| == 1 <==> sep !in s
  {
    if s != "" {
      SplitOneIff(s[1..], sep);
    }
  }
}
