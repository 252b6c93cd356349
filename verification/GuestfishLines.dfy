/**
 How guestfish reads the lines of a script that were quoted by quoteGuestfish and prepared by
 prefixDash: which paths arrive as they were given, and which do not.
 */
module GuestfishLines {
  import opened Results
  import opened Text
  import opened ShellQuote

  // ---- How guestfish reads a line ----

  /** The rest of a double-quoted argument and what follows it; a backslash quotes a backslash or a quote. */
  function Unquote(s: string): Option<(string, string)>
    ensures Unquote(s).Some? ==> |Unquote(s).value.1| < |s|
    decreases |s|
  {
    if s == "" then None
    else if s[0] == '"' then Some(("", s[1..]))
    else if s[0] != '\\' then Onto([s[0]], Unquote(s[1..]))
    else if |s| > 1 && (s[1] == '\\' || s[1] == '"') then Onto([s[1]], Unquote(s[2..]))
    else None
  }

  function Onto(front: string, r: Option<(string, string)>): (out: Option<(string, string)>)
    ensures out.Some? <==> r.Some?
    ensures out.Some? ==> out.value == (front + r.value.0, r.value.1)
  {
    if r.None? then None else Some((front + r.value.0, r.value.1))
  }

  predicate Blank(c: char)
  {
    c == ' ' || c == '\t'
  }

  function BareLength(s: string): (n: nat)
    ensures n <= |s| && (forall i :: 0 <= i < n ==> !Blank(s[i])) && (n < |s| ==> Blank(s[n]))
  {
    if s == "" || Blank(s[0]) then 0 else 1 + BareLength(s[1..])
  }

  /**
   The arguments of a script line: blanks separate them and double quotes hold them together.
   None if a quote is not closed, or if an argument begins with a character that is not taken
   as it is: a single quote, a tilde or a pipe.
   */
  function GuestfishArgs(s: string): Option<seq<string>>
    decreases |s|
  {
    if s == "" then Some([])
    else if Blank(s[0]) then GuestfishArgs(s[1..])
    else if s[0] == '\'' || s[0] == '~' || s[0] == '|' then None
    else if s[0] == '"' then
      var u := Unquote(s[1..]);
      if u.None? || (u.value.1 != "" && !Blank(u.value.1[0])) then None
      else Prefixed(u.value.0, GuestfishArgs(u.value.1))
    else Prefixed(s[..BareLength(s)], GuestfishArgs(s[BareLength(s)..]))
  }

  function Prefixed(arg: string, rest: Option<seq<string>>): Option<seq<string>>
  {
    if rest.None? then None else Some([arg] + rest.value)
  }

  lemma {:induction false} UnquoteBackslashed(s: string, rest: string)
    ensures Unquote(Backslashed(s) + "\"" + rest) == Some((s, rest))
    decreases |s|
  {
    hide Unquote;
    var t := Backslashed(s) + "\"" + rest;
    if s == "" {
      assert t == "\"" + rest;
      UnquoteEnd(rest);
    } else {
      var tail := Backslashed(s[1..]) + "\"" + rest;
      UnquoteBackslashed(s[1..], rest);
      assert [s[0]] + s[1..] == s;
      assert t == (if s[0] == '\\' || s[0] == '"' then ['\\', s[0]] else [s[0]]) + tail;
      UnquoteStep(s[0], tail);
    }
  }

  lemma UnquoteEnd(rest: string)
    ensures Unquote("\"" + rest) == Some(("", rest))
  {
    assert ("\"" + rest)[1..] == rest;
  }

  lemma UnquoteStep(c: char, tail: string)
    ensures Unquote((if c == '\\' || c == '"' then ['\\', c] else [c]) + tail) == Onto([c], Unquote(tail))
  {
    if c == '\\' || c == '"' {
      var t := ['\\', c] + tail;
      assert t[0] == '\\' && t[1] == c && t[2..] == tail;
    } else {
      assert ([c] + tail)[1..] == tail;
    }
  }

  // ---- Lines as they are sent ----

  /** The arguments read from each line sent for a script, without the hyphen in front. */
  function SentArgs(script: string): seq<Option<seq<string>>>
  {
    ArgsOf(Kept(Split(script, '\n')))
  }

  function ArgsOf(lines: seq<string>): (r: seq<Option<seq<string>>>)
    requires forall i :: 0 <= i < |lines| ==> lines[i] != ""
    ensures |r| == |lines| && forall i :: 0 <= i < |r| ==> r[i] == GuestfishArgs(lines[i][1..])
  {
    seq(|lines|, i requires 0 <= i < |lines| => GuestfishArgs(lines[i][1..]))
  }

  /** A command with quoted paths behind it. */
  function CommandLine(cmd: string, paths: seq<string>): string
  {
    cmd + Arguments(paths)
  }

  function Arguments(paths: seq<string>): string
  {
    if paths == [] then "" else " " + QuotedForGuestfish(paths[0]) + Arguments(paths[1..])
  }

  /** The name of a command: one word, in which nothing has a meaning of its own. */
  predicate Plain(cmd: string)
  {
    cmd != "" && NoSpace(cmd) && !NeedsQuotes(cmd) && cmd[0] != '-' && !Expands(cmd)
  }

  /** Not quoted, and not taken as it is. */
  predicate Expands(path: string)
  {
    path != "" && !NeedsQuotes(path) && (path[0] == '~' || path[0] == '|')
  }

  /** What is read from quoted paths: empty ones are lost. */
  function ReadPaths(paths: seq<string>): Option<seq<string>>
  {
    if paths == [] then Some([])
    else if paths[0] == "" then ReadPaths(paths[1..])
    else if Expands(paths[0]) then None
    else Prefixed(paths[0], ReadPaths(paths[1..]))
  }

  /** What is left of the paths when white space at the end of their line is trimmed. */
  function TrimPaths(paths: seq<string>): (r: seq<string>)
    ensures |r| <= |paths|
  {
    if paths == [] then []
    else
      var init, last := paths[..|paths| - 1], paths[|paths| - 1];
      if NeedsQuotes(last) then paths
      else if TrimRight(last) == "" then TrimPaths(init)
      else init + [TrimRight(last)]
  }

  /** The line ends in a quote, in the last path's own last character, or in the command's. */
  predicate EndsWell(paths: seq<string>)
  {
    paths == [] || NeedsQuotes(paths[|paths| - 1]) || (paths[|paths| - 1] != "" && !EndsInSpace(paths[|paths| - 1]))
  }

  predicate EndsInSpace(s: string)
  {
    s != "" && IsSpace(s[|s| - 1])
  }

  /** The paths arrive as they are. */
  predicate Sendable(paths: seq<string>)
  {
    && (forall i :: 0 <= i < |paths| ==> paths[i] != "" && '\n' !in paths[i] && !Expands(paths[i]))
    && EndsWell(paths)
  }

  // ---- Reading a line ----

  lemma EmptyIsBare()
    ensures !NeedsQuotes("")
  {
  }

  lemma NothingToRead()
    ensures GuestfishArgs("") == Some([])
  {
  }

  lemma BlankSkipped(s: string)
    ensures GuestfishArgs(" " + s) == GuestfishArgs(s)
  {
    assert (" " + s)[1..] == s;
  }

  lemma NotQuoted(w: string, c: char)
    requires !NeedsQuotes(w) && c in w
    ensures !Blank(c) && c != '"' && c != '\''
  {
    var special := " \t\"'\\";
    assert special[0] == ' ' && special[1] == '\t' && special[2] == '"' && special[3] == '\'';
    assert c !in special;
  }

  /** A word without quotes and blanks in front of a blank or the end. */
  lemma BareWord(w: string, rest: string)
    requires w != "" && !NeedsQuotes(w) && (rest == "" || Blank(rest[0]))
    ensures GuestfishArgs(w + rest) == if Expands(w) then None else Prefixed(w, GuestfishArgs(rest))
  {
    hide Unquote;
    forall c <- w ensures !Blank(c) && c != '"' && c != '\'' {
      NotQuoted(w, c);
    }
    var s := w + rest;
    assert s[0] == w[0] && w[0] in w;
    assert forall i :: 0 <= i < |w| ==> s[i] == w[i] && w[i] in w;
    var n := BareLength(s);
    assert n >= |w|;
    assert rest != "" ==> s[|w|] == rest[0];
    assert s[..n] == w && s[n..] == rest;
  }

  lemma QuotedPath(path: string, rest: string)
    requires NeedsQuotes(path) && (rest == "" || Blank(rest[0]))
    ensures GuestfishArgs(QuotedForGuestfish(path) + rest) == Prefixed(path, GuestfishArgs(rest))
  {
    hide Unquote, Backslashed, NeedsQuotes;
    var s := QuotedForGuestfish(path) + rest;
    assert s == "\"" + (Backslashed(path) + "\"" + rest);
    assert s[1..] == Backslashed(path) + "\"" + rest;
    UnquoteBackslashed(path, rest);
  }

  lemma {:induction false} ArgumentsRead(paths: seq<string>)
    ensures GuestfishArgs(Arguments(paths)) == ReadPaths(paths)
  {
    hide GuestfishArgs, NeedsQuotes, Backslashed;
    NothingToRead();
    if paths != [] {
      var p, rest := paths[0], Arguments(paths[1..]);
      ArgumentsRead(paths[1..]);
      var q := QuotedForGuestfish(p);
      assert Arguments(paths) == " " + (q + rest);
      BlankSkipped(q + rest);
      EmptyIsBare();
      if NeedsQuotes(p) {
        QuotedPath(p, rest);
      } else if p == "" {
        assert q + rest == rest;
      } else {
        BareWord(p, rest);
      }
    }
  }

  lemma LineRead(cmd: string, paths: seq<string>)
    requires Plain(cmd)
    ensures GuestfishArgs(CommandLine(cmd, paths)) == Prefixed(cmd, ReadPaths(paths))
  {
    hide GuestfishArgs, NeedsQuotes;
    ArgumentsRead(paths);
    BareWord(cmd, Arguments(paths));
  }

  /** As many paths are read as were given exactly if none is lost. */
  lemma {:induction false} ReadPathsIff(paths: seq<string>, want: seq<string>)
    requires |paths| <= |want|
    ensures ReadPaths(paths) == Some(want) <==>
              paths == want && forall i :: 0 <= i < |paths| ==> paths[i] != "" && !Expands(paths[i])
    decreases |paths|
  {
    hide Expands;
    if paths != [] {
      assert [paths[0]] + paths[1..] == paths && [want[0]] + want[1..] == want;
      assert forall i :: 0 < i < |paths| ==> paths[i] == paths[1..][i - 1];
      if paths[0] == "" {
        ReadPathsIff(paths[1..], want);
      } else {
        ReadPathsIff(paths[1..], want[1..]);
      }
    }
  }

  // ---- Trimming a line ----

  lemma {:induction false} ArgumentsSnoc(paths: seq<string>, p: string)
    ensures Arguments(paths + [p]) == Arguments(paths) + " " + QuotedForGuestfish(p)
  {
    if paths == [] {
      assert [] + [p] == [p] && [p][1..] == [];
    } else {
      assert (paths + [p])[1..] == paths[1..] + [p];
      ArgumentsSnoc(paths[1..], p);
    }
  }

  /** White space behind a text that does not end in it is all that goes. */
  lemma {:induction false} TrimRightAppend(a: string, b: string)
    ensures TrimRight(a + b) == if TrimRight(b) == "" then TrimRight(a) else a + TrimRight(b)
    decreases |b|
  {
    hide IsSpace;
    if b == "" {
      assert a + b == a;
    } else if IsSpace(b[|b| - 1]) {
      assert (a + b)[..|a + b| - 1] == a + b[..|b| - 1];
      TrimRightAppend(a, b[..|b| - 1]);
    }
  }

  lemma {:induction false} TrimRightPlain(s: string)
    ensures !NeedsQuotes(s) ==> !NeedsQuotes(TrimRight(s))
    ensures TrimRight(s) == s <==> !EndsInSpace(s)
    ensures forall c <- TrimRight(s) :: c in s
    ensures |TrimRight(s)| <= |s|
  {
    hide IsSpace;
    if s != "" && IsSpace(s[|s| - 1]) {
      TrimRightPlain(s[..|s| - 1]);
    }
  }

  lemma QuoteEnds(path: string)
    requires NeedsQuotes(path)
    ensures var q := QuotedForGuestfish(path); q != "" && !IsSpace(q[|q| - 1]) && TrimRight(q) == q
  {
    var q := QuotedForGuestfish(path);
    assert q[|q| - 1] == '"';
  }

  lemma BlankTrimmed()
    ensures TrimRight(" ") == ""
  {
    assert " "[..0] == "";
  }

  lemma {:induction false} TrimmedLine(cmd: string, paths: seq<string>)
    requires Plain(cmd)
    ensures TrimRight(CommandLine(cmd, paths)) == CommandLine(cmd, TrimPaths(paths))
    decreases |paths|
  {
    hide NeedsQuotes, QuotedForGuestfish, IsSpace, TrimRight;
    if paths == [] {
      assert cmd + "" == cmd && cmd[|cmd| - 1] in cmd;
      TrimRightPlain(cmd);
    } else {
      var init, last := paths[..|paths| - 1], paths[|paths| - 1];
      assert paths == init + [last];
      ArgumentsSnoc(init, last);
      LastTrimmed(CommandLine(cmd, init), last);
      assert CommandLine(cmd, paths) == CommandLine(cmd, init) + (" " + QuotedForGuestfish(last));
      if !NeedsQuotes(last) {
        if TrimRight(last) == "" {
          TrimmedLine(cmd, init);
        } else {
          ArgumentsSnoc(init, TrimRight(last));
        }
      }
    }
  }

  lemma LastTrimmed(line: string, last: string)
    ensures var t := TrimRight(last);
            TrimRight(line + (" " + QuotedForGuestfish(last))) ==
              if NeedsQuotes(last) then line + (" " + QuotedForGuestfish(last))
              else if t == "" then TrimRight(line)
              else line + (" " + QuotedForGuestfish(t))
  {
    hide NeedsQuotes, Backslashed, IsSpace, TrimRight;
    var q := QuotedForGuestfish(last);
    TrimRightAppend(" ", q);
    TrimRightAppend(line, " " + q);
    BlankTrimmed();
    if NeedsQuotes(last) {
      QuoteEnds(last);
    } else {
      TrimRightPlain(last);
    }
  }

  lemma TrimPathsIff(paths: seq<string>)
    ensures TrimPaths(paths) == paths <==> EndsWell(paths)
  {
    hide NeedsQuotes, TrimRight;
    if paths != [] {
      var init, last := paths[..|paths| - 1], paths[|paths| - 1];
      TrimRightPlain(last);
      assert paths == init + [last];
      assert (init + [TrimRight(last)])[|init|] == TrimRight(last);
    }
  }

  // ---- What is sent ----

  lemma {:induction false} ArgumentsBreak(paths: seq<string>)
    ensures '\n' in Arguments(paths) <==> exists i :: 0 <= i < |paths| && '\n' in paths[i]
  {
    hide NeedsQuotes;
    if paths != [] {
      ArgumentsBreak(paths[1..]);
      BackslashedChars(paths[0], '\n');
      assert forall i :: 0 < i < |paths| ==> paths[i] == paths[1..][i - 1];
      if '\n' in Arguments(paths[1..]) {
        var i :| 0 <= i < |paths[1..]| && '\n' in paths[1..][i];
        assert '\n' in paths[i + 1];
      }
    }
  }

  /** A line without line breaks is sent as it is but for white space at its end. */
  lemma OneLineSent(line: string)
    requires '\n' !in line && line != "" && !IsSpace(line[0]) && line[0] != '-'
    ensures SentArgs(line + "\n") == [GuestfishArgs(TrimRight(line))]
  {
    hide GuestfishArgs, IsSpace, TrimRight, Split;
    assert line + ['\n'] + "" == line + "\n";
    SplitCons(line, "", '\n');
    NoLines();
    TrimRightKeepsHead(line);
    var t := TrimRight(line);
    assert TrimSpace(line) == t by { assert TrimLeft(line) == line; }
    assert Split(line + "\n", '\n') == [line] + [""];
    KeptCons([line] + [""]);
    assert ([line] + [""])[1..] == [""];
    assert Kept([line] + [""]) == ["-" + t];
    assert ("-" + t)[1..] == t;
  }

  lemma NoLines()
    ensures Split("", '\n') == [""] && Kept([""]) == []
  {
    assert [""][1..] == [];
    assert TrimSpace("") == "" by { TrimmedUnchanged(""); }
  }

  /** Without line breaks in the paths, what is read is what trimming and reading leave of them. */
  lemma PathsSent(cmd: string, paths: seq<string>)
    requires Plain(cmd) && forall i :: 0 <= i < |paths| ==> '\n' !in paths[i]
    ensures SentArgs(CommandLine(cmd, paths) + "\n") == [Prefixed(cmd, ReadPaths(TrimPaths(paths)))]
  {
    hide NeedsQuotes, Arguments, TrimPaths, ReadPaths, SentArgs, GuestfishArgs, TrimRight;
    ArgumentsBreak(paths);
    var line := CommandLine(cmd, paths);
    assert line[0] == cmd[0] && cmd[0] in cmd;
    assert '\n' !in cmd by { BreakIsSpace(); }
    OneLineSent(line);
    TrimmedLine(cmd, paths);
    LineRead(cmd, TrimPaths(paths));
  }

  lemma BreakIsSpace()
    ensures IsSpace('\n')
  {
    assert "\t\n\r "[1] == '\n';
  }

  lemma {:induction false} UnquoteHas(s: string)
    ensures Unquote(s).Some? ==> forall c :: c in Unquote(s).value.0 || c in Unquote(s).value.1 ==> c in s
    decreases |s|
  {
    if s != "" && s[0] != '"' {
      if s[0] != '\\' {
        UnquoteHas(s[1..]);
      } else if |s| > 1 && (s[1] == '\\' || s[1] == '"') {
        UnquoteHas(s[2..]);
      }
    }
  }

  /** Nothing is read that is not in the line. */
  lemma {:induction false} ArgsHave(s: string, i: nat, c: char)
    requires GuestfishArgs(s).Some? && i < |GuestfishArgs(s).value| && c in GuestfishArgs(s).value[i]
    ensures c in s
    decreases |s|
  {
    hide Unquote;
    if Blank(s[0]) {
      ArgsHave(s[1..], i, c);
    } else if s[0] == '"' {
      UnquoteHas(s[1..]);
      if i > 0 {
        ArgsHave(Unquote(s[1..]).value.1, i - 1, c);
      }
    } else if i > 0 {
      ArgsHave(s[BareLength(s)..], i - 1, c);
    }
  }

  lemma {:induction false} KeptBreaks(lines: seq<string>, i: nat)
    requires (forall k :: 0 <= k < |lines| ==> '\n' !in lines[k]) && i < |Kept(lines)|
    ensures '\n' !in Kept(lines)[i]
    decreases |lines|
  {
    hide TrimSpace;
    var t := TrimSpace(lines[0]);
    TrimSpaceChars(lines[0]);
    if t == "" {
      KeptBreaks(lines[1..], i);
    } else if i > 0 {
      KeptBreaks(lines[1..], i - 1);
    }
  }

  /** What prefixDash writes for a script is those lines, one after the other. */
  lemma LinesSent(script: string)
    ensures var lines := Kept(Split(script, '\n')); Split(Terminated(lines), '\n') == lines + [""]
  {
    hide Split, Kept;
    var lines := Kept(Split(script, '\n'));
    forall i | 0 <= i < |lines| ensures '\n' !in lines[i] {
      KeptBreaks(Split(script, '\n'), i);
    }
    SplitTerminated(lines);
  }

  lemma {:induction false} SplitTerminated(lines: seq<string>)
    requires forall i :: 0 <= i < |lines| ==> '\n' !in lines[i]
    ensures Split(Terminated(lines), '\n') == lines + [""]
  {
    hide Split;
    if lines == [] {
      SplitNone("", '\n');
    } else {
      SplitTerminated(lines[1..]);
      SplitCons(lines[0], Terminated(lines[1..]), '\n');
      assert Terminated(lines) == lines[0] + ['\n'] + Terminated(lines[1..]);
    }
  }

  /** No line sent has a line break in it, so none is read. */
  lemma NoBreakRead(script: string, i: nat, args: seq<string>, k: nat)
    requires i < |SentArgs(script)| && SentArgs(script)[i] == Some(args) && k < |args|
    ensures '\n' !in args[k]
  {
    hide GuestfishArgs, Kept, Split;
    var lines := Split(script, '\n');
    KeptBreaks(lines, i);
    var line := Kept(lines)[i];
    if '\n' in args[k] {
      ArgsHave(line[1..], k, '\n');
    }
  }

  /**
   A script line of a command and paths is read as that command with those paths exactly if
   none is empty or has a line break, none that is not quoted begins with a tilde or a pipe,
   and the last, if not quoted, does not end in white space.
   */
  lemma PathsReadBackIff(cmd: string, paths: seq<string>)
    requires Plain(cmd)
    ensures SentArgs(CommandLine(cmd, paths) + "\n") == [Some([cmd] + paths)] <==> Sendable(paths)
  {
    hide SentArgs, CommandLine, TrimPaths, ReadPaths, Expands, Plain, EndsWell;
    var sent := SentArgs(CommandLine(cmd, paths) + "\n");
    if exists i :: 0 <= i < |paths| && '\n' in paths[i] {
      var i :| 0 <= i < |paths| && '\n' in paths[i];
      if sent == [Some([cmd] + paths)] {
        NoBreakRead(CommandLine(cmd, paths) + "\n", 0, [cmd] + paths, i + 1);
      }
    } else {
      PathsSent(cmd, paths);
      TrimPathsIff(paths);
      var trimmed := TrimPaths(paths);
      ReadPathsIff(trimmed, paths);
      if ReadPaths(trimmed).Some? {
        var read := ReadPaths(trimmed).value;
        assert ([cmd] + read)[1..] == read && ([cmd] + paths)[1..] == paths;
      }
    }
  }

  /** The same for one path. */
  lemma QuotedPathReadsBackIff(cmd: string, path: string)
    requires Plain(cmd)
    ensures SentArgs(cmd + " " + QuotedForGuestfish(path) + "\n") == [Some([cmd, path])] <==>
              && path != "" && '\n' !in path
              && (NeedsQuotes(path) || (path[0] != '~' && path[0] != '|' && !IsSpace(path[|path| - 1])))
  {
    hide SentArgs, Plain, NeedsQuotes, QuotedForGuestfish, IsSpace;
    PathsReadBackIff(cmd, [path]);
    assert [path][1..] == [] && [cmd] + [path] == [cmd, path];
    assert Arguments([path]) == " " + QuotedForGuestfish(path);
    assert CommandLine(cmd, [path]) == cmd + " " + QuotedForGuestfish(path);
  }

  lemma ShIsPlain()
    ensures Plain("sh")
  {
    assert forall c <- "sh" :: c == 's' || c == 'h';
  }

  /**
   What is sent for a command is one line that reads as sh with the shell's line, whose words
   are the command's arguments, exactly if no argument has a line break in it.
   */
  lemma CommandReadsBackIff(cmd: seq<string>)
    ensures var line := ShellLine(cmd);
            && (SentArgs("sh " + QuotedForGuestfish(line) + "\n") == [Some(["sh", line])]
                <==> forall i :: 0 <= i < |cmd| ==> '\n' !in cmd[i])
            && line == line[..|line| - 4] + "2>&1" && Words(line[..|line| - 4], None) == Some(cmd)
  {
    hide Words, Quoted, Join, QuotedForGuestfish, SentArgs, NeedsQuotes, QuotedAll;
    var line := ShellLine(cmd);
    ShellLineReadsBack(cmd);
    assert line[..|line| - 4] == Join(QuotedAll(cmd), ' ') + " ";
    ShIsPlain();
    assert "sh" + " " + QuotedForGuestfish(line) + "\n" == "sh " + QuotedForGuestfish(line) + "\n";
    QuotedPathReadsBackIff("sh", line);
    ShellLineBreaks(cmd);
  }
}
