/** /etc/fstab as a list of entries: parsed from lines, remapped in place, printed in columns. */
module Fstab {
  import opened Text

  datatype Entry = Entry(
    device: string,
    mountPoint: string,
    fsType: string,
    options: string,
    dump: string,
    pass: string,
    comment: string)

  const BLANK := Entry("", "", "", "", "", "", "")

  // ---- Parsing ----

  function Column(fields: seq<string>, i: nat): string
  {
    if i < |fields| then fields[i] else ""
  }

  function EntryOf(fields: seq<string>): Entry
  {
    Entry(Column(fields, 0), Column(fields, 1), Column(fields, 2), Column(fields, 3), Column(fields, 4), Column(fields, 5), "")
  }

  function ParseLine(line: string): Entry
  {
    var trimmed := TrimSpace(line);
    if trimmed == "" then BLANK
    else if trimmed[0] == '#' then BLANK.(comment := line)
    else EntryOf(Fields(trimmed))
  }

  function ParseLines(lines: seq<string>): (es: seq<Entry>)
    ensures |es| == |lines| && forall i :: 0 <= i < |es| ==> es[i] == ParseLine(lines[i])
  {
    seq(|lines|, i requires 0 <= i < |lines| => ParseLine(lines[i]))
  }

  // ---- Printing ----

  function OrElse(s: string, default: string): string
  {
    if s == "" then default else s
  }

  /** An entry with the columns filled in that printing fills in. */
  function Defaulted(e: Entry): Entry
  {
    if e.comment != "" || e.device == "" then e
    else e.(options := OrElse(e.options, "defaults"), dump := OrElse(e.dump, "0"), pass := OrElse(e.pass, "0"))
  }

  function Columns(e: Entry): seq<string>
  {
    [e.device, e.mountPoint, e.fsType, e.options, e.dump, e.pass]
  }

  function PrintEntry(e: Entry): string
  {
    if e.comment != "" then e.comment
    else if e.device == "" then ""
    else Join(Columns(Defaulted(e)), '\t')
  }

  function PrintAll(es: seq<Entry>): (lines: seq<string>)
    ensures |lines| == |es| && forall i :: 0 <= i < |es| ==> lines[i] == PrintEntry(es[i])
  {
    seq(|es|, i requires 0 <= i < |es| => PrintEntry(es[i]))
  }

  function Print(es: seq<Entry>): string
  {
    Join(PrintAll(es), '\n') + "\n"
  }

  function Parsed(content: string): seq<Entry>
  {
    ParseLines(Split(content, '\n'))
  }

  // ---- One entry ----

  /** Entries as parsing makes them: blank, a comment line, or columns filled from the left. */
  predicate AsParsed(e: Entry)
  {
    || e == BLANK
    || (e == BLANK.(comment := e.comment) && e.comment != "" && TrimSpace(e.comment) != "" && TrimSpace(e.comment)[0] == '#'
        && '\n' !in e.comment)
    || (e.comment == "" && e.device != "" && e.device[0] != '#' && AllNoSpace(e)
        && (e.mountPoint == "" ==> e.fsType == "") && (e.fsType == "" ==> e.options == "")
        && (e.options == "" ==> e.dump == "") && (e.dump == "" ==> e.pass == ""))
  }

  predicate AllNoSpace(e: Entry)
  {
    NoSpace(e.device) && NoSpace(e.mountPoint) && NoSpace(e.fsType) && NoSpace(e.options) && NoSpace(e.dump) && NoSpace(e.pass)
  }

  lemma FieldsOfTrimmed(s: string)
    requires s != "" && !IsSpace(s[0])
    ensures Fields(s) != [] && Fields(s)[0][0] == s[0]
  {
    assert s[..WordLength(s)][0] == s[0];
  }

  lemma ParsedAs(line: string)
    requires '\n' !in line
    ensures AsParsed(ParseLine(line))
  {
    hide Fields, TrimSpace;
    var t := TrimSpace(line);
    TrimSpaceTrimmed(line);
    if t != "" && t[0] != '#' {
      FieldsOfTrimmed(t);
    }
  }

  lemma ColumnsPrinted(e: Entry)
    requires AsParsed(e) && e.device != ""
    ensures ParseLine(PrintEntry(e)) == EntryOf(NonEmpty(Columns(Defaulted(e))))
  {
    hide Fields, TrimSpace, NonEmpty, Join, EntryOf;
    var cols := Columns(Defaulted(e));
    var s := Join(cols, '\t');
    WordsAndTabs(cols);
    DefaultsAreWords();
    FieldsJoinNonEmpty(cols, '\t');
    TrimmedUnchanged(s);
  }

  lemma DefaultsAreWords()
    ensures NoSpace("defaults") && NoSpace("0") && IsSpace('\t')
  {
  }

  /** Six columns joined begin and end as the first and last of them do. */
  lemma WordsAndTabs(cols: seq<string>)
    requires |cols| == 6 && cols[0] != "" && cols[5] != ""
    ensures var s := Join(cols, '\t'); s != "" && s[0] == cols[0][0] && s[|s| - 1] == cols[5][|cols[5]| - 1]
  {
    hide Join;
    var tail := cols[1..];
    LastOfJoin(cols, '\t');
    FirstOfJoin(cols, '\t');
  }

  lemma FirstOfJoin(cols: seq<string>, sep: char)
    requires cols != [] && cols[0] != ""
    ensures Join(cols, sep) != "" && Join(cols, sep)[0] == cols[0][0]
  {
  }

  lemma {:induction false} LastOfJoin(cols: seq<string>, sep: char)
    requires cols != [] && cols[|cols| - 1] != ""
    ensures var s, w := Join(cols, sep), cols[|cols| - 1]; s != "" && s[|s| - 1] == w[|w| - 1]
    decreases |cols|
  {
    if |cols| > 1 {
      LastOfJoin(cols[1..], sep);
    }
  }

  /** An entry printed reads back, with its defaults, exactly if it is not one of fewer than three columns. */
  lemma EntryReadsBackIff(e: Entry)
    requires AsParsed(e)
    ensures ParseLine(PrintEntry(e)) == Defaulted(e) <==> (e.device == "" || e.fsType != "")
  {
    hide Fields, TrimSpace;
    if e.device != "" {
      ColumnsPrinted(e);
      SixColumns(Defaulted(e));
    } else if e == BLANK {
      assert TrimSpace("") == "" by { TrimmedUnchanged(""); }
    }
  }

  lemma SixColumns(e: Entry)
    requires e.device != "" && e.options != "" && e.dump != "" && e.pass != "" && e.comment == ""
    requires e.mountPoint == "" ==> e.fsType == ""
    ensures EntryOf(NonEmpty(Columns(e))) == e <==> e.fsType != ""
  {
    hide NonEmpty;
    var cols := Columns(e);
    Cons(e.device, cols[1..]);
    Cons(e.mountPoint, cols[2..]);
    Cons(e.fsType, cols[3..]);
    Cons(e.options, cols[4..]);
    Cons(e.dump, cols[5..]);
    Cons(e.pass, []);
    assert cols == [e.device] + cols[1..] && cols[1..] == [e.mountPoint] + cols[2..] && cols[2..] == [e.fsType] + cols[3..];
    assert cols[3..] == [e.options] + cols[4..] && cols[4..] == [e.dump] + cols[5..] && cols[5..] == [e.pass] + [];
    NoneNonEmpty();
  }

  lemma NoneNonEmpty()
    ensures NonEmpty([]) == []
  {
  }

  lemma Cons(c: string, rest: seq<string>)
    ensures NonEmpty([c] + rest) == (if c == "" then [] else [c]) + NonEmpty(rest)
  {
    assert ([c] + rest)[1..] == rest;
  }

  // ---- A whole file ----

  function AllDefaulted(es: seq<Entry>): (ds: seq<Entry>)
    ensures |ds| == |es| && forall i :: 0 <= i < |ds| ==> ds[i] == Defaulted(es[i])
  {
    seq(|es|, i requires 0 <= i < |es| => Defaulted(es[i]))
  }

  predicate AllAsParsed(es: seq<Entry>)
  {
    es != [] && forall i :: 0 <= i < |es| ==> AsParsed(es[i])
  }

  /** Every entry that names a device has at least three columns. */
  predicate ThreeColumns(es: seq<Entry>)
  {
    forall i :: 0 <= i < |es| ==> es[i].device == "" || es[i].fsType != ""
  }

  lemma ParsedFile(content: string)
    ensures AllAsParsed(Parsed(content))
  {
    hide AsParsed, ParseLine;
    var lines := Split(content, '\n');
    forall i | 0 <= i < |lines| ensures AsParsed(ParseLine(lines[i])) {
      ParsedAs(lines[i]);
    }
  }

  lemma PrintedOnOneLine(e: Entry)
    requires AsParsed(e)
    ensures '\n' !in PrintEntry(e)
  {
    hide Join, TrimSpace;
    if e.comment == "" && e.device != "" {
      var cols := Columns(Defaulted(e));
      DefaultsAreWords();
      assert IsSpace('\n');
      forall i | 0 <= i < |cols| ensures '\n' !in cols[i] {
        assert NoSpace(cols[i]);
      }
      if '\n' in Join(cols, '\t') {
        JoinChars(cols, '\t', '\n');
      }
    }
  }

  /**
   A file printed and parsed again has the same entries with their defaults, and one blank
   entry more, exactly if every entry that names a device has at least three columns.
   */
  lemma ReadsBackIff(es: seq<Entry>)
    requires AllAsParsed(es)
    ensures Parsed(Print(es)) == AllDefaulted(es) + [BLANK] <==> ThreeColumns(es)
  {
    hide AsParsed, ParseLine, PrintEntry, Defaulted, Split, Join, Print;
    var lines := PrintAll(es);
    forall i | 0 <= i < |es|
      ensures '\n' !in lines[i]
      ensures ParseLine(lines[i]) == Defaulted(es[i]) <==> (es[i].device == "" || es[i].fsType != "")
    {
      PrintedOnOneLine(es[i]);
      EntryReadsBackIff(es[i]);
    }
    PrintedLines(es);
    assert ParseLine("") == BLANK by { BlankLine(); }
    var got, want := ParseLines(lines + [""]), AllDefaulted(es) + [BLANK];
    assert forall i :: 0 <= i < |es| ==> got[i] == ParseLine(lines[i]) && want[i] == Defaulted(es[i]);
    assert got[|es|] == want[|es|] == BLANK;
    if ThreeColumns(es) {
      assert got == want;
    } else {
      var i :| 0 <= i < |es| && !(es[i].device == "" || es[i].fsType != "");
      assert got[i] != want[i];
    }
  }

  lemma PrintedLines(es: seq<Entry>)
    requires es != [] && forall i :: 0 <= i < |es| ==> '\n' !in PrintAll(es)[i]
    ensures Split(Print(es), '\n') == PrintAll(es) + [""]
  {
    hide PrintEntry;
    var lines := PrintAll(es);
    SplitJoin(lines, '\n');
    var text := Join(lines, '\n');
    SplitAppend(text, "", '\n');
    assert text + ['\n'] + "" == text + "\n" && Split("", '\n') == [""];
  }

  lemma BlankLine()
    ensures ParseLine("") == BLANK
  {
    TrimmedUnchanged("");
  }

  // ---- The file in memory ----

  /** A column with a leading prefix replaced. */
  function ReplacePrefix(s: string, oldPrefix: string, newPrefix: string): string
  {
    if oldPrefix <= s then newPrefix + s[|oldPrefix|..] else s
  }

  function RemapEntry(e: Entry, oldPrefix: string, newPrefix: string): Entry
  {
    if e.comment != "" || e.device == "" then e else e.(device := ReplacePrefix(e.device, oldPrefix, newPrefix))
  }

  class File {
    var entries: seq<Entry>

    constructor Parse(content: string)
      ensures entries == Parsed(content)
    {
      entries := [];
      new;
      hide TrimSpace, Fields;
      var lines := Split(content, '\n');
      for i := 0 to |lines|
        invariant |entries| == i && entries == ParseLines(lines)[..i]
      {
        var trimmed := TrimSpace(lines[i]);
        if trimmed == "" {
          entries := entries + [Entry("", "", "", "", "", "", "")];
          continue;
        }
        if trimmed[0] == '#' {
          entries := entries + [Entry("", "", "", "", "", "", lines[i])];
          continue;
        }
        var fields := Fields(trimmed);
        var e := BLANK;
        if |fields| >= 1 { e := e.(device := fields[0]); }
        if |fields| >= 2 { e := e.(mountPoint := fields[1]); }
        if |fields| >= 3 { e := e.(fsType := fields[2]); }
        if |fields| >= 4 { e := e.(options := fields[3]); }
        if |fields| >= 5 { e := e.(dump := fields[4]); }
        if |fields| >= 6 { e := e.(pass := fields[5]); }
        entries := entries + [e];
      }
      assert ParseLines(lines)[..|lines|] == ParseLines(lines);
    }

    method RemapDevice(oldPrefix: string, newPrefix: string)
      modifies this
      ensures |entries| == |old(entries)|
      ensures forall i :: 0 <= i < |entries| ==> entries[i] == RemapEntry(old(entries)[i], oldPrefix, newPrefix)
    {
      for i := 0 to |entries|
        invariant |entries| == |old(entries)|
        invariant forall k :: 0 <= k < i ==> entries[k] == RemapEntry(old(entries)[k], oldPrefix, newPrefix)
        invariant forall k :: i <= k < |entries| ==> entries[k] == old(entries)[k]
      {
        if entries[i].comment != "" || entries[i].device == "" {
          continue;
        }
        if oldPrefix <= entries[i].device {
          entries := entries[i := entries[i].(device := newPrefix + entries[i].device[|oldPrefix|..])];
        }
      }
    }

    method String() returns (s: string)
      ensures s == Print(entries)
    {
      var lines := [];
      for i := 0 to |entries|
        modifies {}
        invariant |lines| == i && lines == PrintAll(entries)[..i]
      {
        var e := entries[i];
        if e.comment != "" {
          lines := lines + [e.comment];
          continue;
        }
        if e.device == "" {
          lines := lines + [""];
          continue;
        }
        var dump := if e.dump == "" then "0" else e.dump;
        var pass := if e.pass == "" then "0" else e.pass;
        var opts := if e.options == "" then "defaults" else e.options;
        lines := lines + [Join([e.device, e.mountPoint, e.fsType, opts, dump, pass], '\t')];
      }
      assert PrintAll(entries)[..|entries|] == PrintAll(entries);
      s := Join(lines, '\n') + "\n";
    }

    /** The entries that name a device, in order. */
    method DeviceEntries() returns (r: seq<Entry>)
      ensures r == Naming(entries)
    {
      r := [];
      for i := 0 to |entries|
        modifies {}
        invariant r == Naming(entries[..i])
      {
        NamingSnoc(entries, i);
        if entries[i].device != "" && entries[i].comment == "" {
          r := r + [entries[i]];
        }
      }
      assert entries[..|entries|] == entries;
    }
  }

  predicate Names(e: Entry)
  {
    e.device != "" && e.comment == ""
  }

  function Naming(es: seq<Entry>): (r: seq<Entry>)
    ensures forall e :: e in r <==> e in es && Names(e)
  {
    if es == [] then [] else (if Names(es[0]) then [es[0]] else []) + Naming(es[1..])
  }

  lemma {:induction false} NamingSnoc(es: seq<Entry>, n: nat)
    requires n < |es|
    ensures Naming(es[..n + 1]) == Naming(es[..n]) + if Names(es[n]) then [es[n]] else []
    decreases n
  {
    hide Names;
    if n == 0 {
      assert es[..1][1..] == [];
    } else {
      assert es[..n + 1][1..] == es[1..][..n] && es[..n][1..] == es[1..][..n - 1];
      NamingSnoc(es[1..], n - 1);
      assert es[..n + 1][0] == es[0] == es[..n][0];
    }
  }
}
