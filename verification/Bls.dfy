/** Boot Loader Specification entries: one key and value a line, in order. */
module Bls {
  import opened Results
  import opened Text

  datatype Field = Field(key: string, value: string)

  function ParseLine(line: string): Option<Field>
  {
    var trimmed := TrimSpace(line);
    if trimmed == "" || trimmed[0] == '#' then None
    else
      var i := Index(trimmed, ' ');
      if i < 0 then Some(Field(trimmed, "")) else Some(Field(trimmed[..i], trimmed[i + 1..]))
  }

  function ParseLines(lines: seq<string>): (fs: seq<Field>)
    ensures |fs| <= |lines|
  {
    if lines == [] then []
    else
      match ParseLine(lines[0])
      case None => ParseLines(lines[1..])
      case Some(f) => [f] + ParseLines(lines[1..])
  }

  function Parsed(content: string): seq<Field>
  {
    ParseLines(Split(content, '\n'))
  }

  function PrintField(f: Field): string
  {
    f.key + " " + f.value
  }

  function PrintAll(fs: seq<Field>): (lines: seq<string>)
    ensures |lines| == |fs| && forall i :: 0 <= i < |fs| ==> lines[i] == PrintField(fs[i])
  {
    seq(|fs|, i requires 0 <= i < |fs| => PrintField(fs[i]))
  }

  function Print(fs: seq<Field>): string
  {
    Join(PrintAll(fs), '\n') + "\n"
  }

  // ---- One field ----

  /** A key that can stand at the start of a line, and a last character that is not trimmed away. */
  predicate Storable(f: Field)
  {
    && f.key != "" && !IsSpace(f.key[0]) && f.key[0] != '#' && ' ' !in f.key
    && if f.value != "" then !IsSpace(f.value[|f.value| - 1]) else !IsSpace(f.key[|f.key| - 1])
  }

  lemma TrimTrailingSpace(s: string)
    requires s != "" && !IsSpace(s[0]) && !IsSpace(s[|s| - 1])
    ensures TrimSpace(s + " ") == s
  {
    var t := s + " ";
    assert t[0] == s[0] && t[|t| - 1] == ' ' && t[..|t| - 1] == s;
    assert TrimRight(t) == TrimRight(s) == s;
  }

  lemma FieldReadsBack(f: Field)
    requires Storable(f)
    ensures ParseLine(PrintField(f)) == Some(f)
  {
    hide TrimSpace;
    var line := PrintField(f);
    assert line[0] == f.key[0] && line[|f.key|] == ' ' && line[..|f.key|] == f.key;
    if f.value != "" {
      assert line[|line| - 1] == f.value[|f.value| - 1];
      TrimmedUnchanged(line);
      IndexIs(line, ' ', |f.key|);
      assert line[|f.key| + 1..] == f.value;
    } else {
      assert line == f.key + " ";
      TrimTrailingSpace(f.key);
    }
  }

  lemma OnlyStorableReadsBack(f: Field)
    requires ParseLine(PrintField(f)) == Some(f)
    ensures Storable(f)
  {
    hide TrimSpace;
    var line := PrintField(f);
    var t := TrimSpace(line);
    TrimSpaceTrimmed(line);
    var i := Index(t, ' ');
    if i >= 0 {
      assert t == t[..i] + " " + t[i + 1..];
      assert t == line;
    }
  }

  /** What parsing makes of a line can be stored, on one line. */
  lemma ParsedStorable(line: string)
    requires '\n' !in line && ParseLine(line).Some?
    ensures Storable(ParseLine(line).value) && '\n' !in PrintField(ParseLine(line).value)
  {
    hide TrimSpace;
    var t := TrimSpace(line);
    TrimSpaceTrimmed(line);
    TrimSpaceChars(line);
    var i := Index(t, ' ');
    assert i >= 0 ==> t[..i][0] == t[0] && i + 1 < |t|;
  }

  // ---- A whole entry ----

  predicate AllStorable(fs: seq<Field>)
  {
    forall i :: 0 <= i < |fs| ==> Storable(fs[i])
  }

  predicate OneLineEach(fs: seq<Field>)
  {
    forall i :: 0 <= i < |fs| ==> '\n' !in PrintField(fs[i])
  }

  lemma {:induction false} LinesReadBackIff(lines: seq<string>, fs: seq<Field>)
    requires |lines| == |fs| && forall i :: 0 <= i < |fs| ==> lines[i] == PrintField(fs[i])
    ensures ParseLines(lines + [""]) == fs <==> AllStorable(fs)
    decreases |lines|
  {
    hide ParseLine, PrintField, Storable;
    assert ParseLine("") == None by { BlankLine(); }
    if lines == [] {
      assert [] + [""] == [""] && [""][1..] == [];
    } else {
      assert (lines + [""])[1..] == lines[1..] + [""];
      LinesReadBackIff(lines[1..], fs[1..]);
      OneLeft(lines[1..]);
      if Storable(fs[0]) {
        FieldReadsBack(fs[0]);
      }
      if ParseLine(lines[0]) == Some(fs[0]) {
        OnlyStorableReadsBack(fs[0]);
        assert fs == [fs[0]] + fs[1..];
      }
    }
  }

  lemma BlankLine()
    ensures ParseLine("") == None
  {
    TrimmedUnchanged("");
  }

  /** A blank line at the end adds no field. */
  lemma {:induction false} OneLeft(lines: seq<string>)
    ensures |ParseLines(lines + [""])| <= |lines|
    decreases |lines|
  {
    BlankLine();
    if lines == [] {
      assert [] + [""] == [""] && [""][1..] == [];
    } else {
      assert (lines + [""])[1..] == lines[1..] + [""];
      OneLeft(lines[1..]);
    }
  }

  /** Fields that print on one line each read back exactly if each of them can be stored. */
  lemma ReadsBackIff(fs: seq<Field>)
    requires OneLineEach(fs)
    ensures Parsed(Print(fs)) == fs <==> AllStorable(fs)
  {
    hide ParseLine, PrintField, Storable, ParseLines;
    var lines := PrintAll(fs);
    var text := Join(lines, '\n');
    if fs == [] {
      assert text + "\n" == "\n" && Split("\n", '\n') == ["", ""] by { JustNewline(); }
      NothingParsed();
    } else {
      SplitJoin(lines, '\n');
      SplitAppend(text, "", '\n');
      assert text + ['\n'] + "" == text + "\n" && Split("", '\n') == [""];
      LinesReadBackIff(lines, fs);
    }
  }

  lemma JustNewline()
    ensures Split("\n", '\n') == ["", ""]
  {
    assert "\n"[1..] == "";
  }

  lemma NothingParsed()
    ensures ParseLines(["", ""]) == []
  {
    BlankLine();
    assert ["", ""][1..] == [""] && [""][1..] == [];
  }

  lemma {:induction false} ParsedFields(lines: seq<string>)
    requires forall i :: 0 <= i < |lines| ==> '\n' !in lines[i]
    ensures AllStorable(ParseLines(lines)) && OneLineEach(ParseLines(lines))
    decreases |lines|
  {
    hide ParseLine, PrintField, Storable;
    if lines != [] {
      ParsedFields(lines[1..]);
      if ParseLine(lines[0]).Some? {
        ParsedStorable(lines[0]);
      }
    }
  }

  /** Printing a parsed entry and parsing it again gives the same fields. */
  lemma ParsePrintParse(content: string)
    ensures Parsed(Print(Parsed(content))) == Parsed(content)
  {
    hide AllStorable, OneLineEach, ParseLines;
    ParsedFields(Split(content, '\n'));
    ReadsBackIff(Parsed(content));
  }

  // ---- The entry in memory ----

  function ValueOf(fs: seq<Field>, key: string): string
  {
    if fs == [] then "" else if fs[0].key == key then fs[0].value else ValueOf(fs[1..], key)
  }

  /** The first field of the key has the value; a field is added if there is none. */
  function WithValue(fs: seq<Field>, key: string, value: string): seq<Field>
  {
    if fs == [] then [Field(key, value)]
    else if fs[0].key == key then [Field(key, value)] + fs[1..]
    else [fs[0]] + WithValue(fs[1..], key, value)
  }

  lemma WithValueStep(fs: seq<Field>, key: string, value: string)
    ensures WithValue(fs, key, value) ==
            if fs == [] then [Field(key, value)]
            else if fs[0].key == key then [Field(key, value)] + fs[1..]
            else [fs[0]] + WithValue(fs[1..], key, value)
  {
  }

  /** What is set is got, and nothing else is different. */
  lemma {:induction false} GetSet(fs: seq<Field>, key: string, value: string, other: string)
    ensures ValueOf(WithValue(fs, key, value), other) == if other == key then value else ValueOf(fs, other)
    ensures Storable(Field(key, value)) && AllStorable(fs) ==> AllStorable(WithValue(fs, key, value))
    ensures '\n' !in PrintField(Field(key, value)) && OneLineEach(fs) ==> OneLineEach(WithValue(fs, key, value))
    decreases |fs|
  {
    hide PrintField, Storable;
    if fs != [] {
      GetSet(fs[1..], key, value, other);
      assert ([fs[0]] + WithValue(fs[1..], key, value))[1..] == WithValue(fs[1..], key, value);
      assert ([Field(key, value)] + fs[1..])[1..] == fs[1..];
    } else {
      assert [Field(key, value)][1..] == [];
    }
  }

  lemma ParseLineIs(line: string)
    ensures var t := TrimSpace(line);
            var i := Index(t, ' ');
            ParseLine(line) ==
              if t == "" || t[0] == '#' then None
              else Some(Field(if i < 0 then t else t[..i], if i < 0 then "" else t[i + 1..]))
  {
    hide TrimSpace, Index;
  }

  lemma NothingLeft(lines: seq<string>)
    requires lines == []
    ensures ParseLines(lines) == []
  {
  }

  /** One line more read into the fields, and one less to come. */
  lemma OneLineOn(fields: seq<Field>, lines: seq<string>, n: nat, all: seq<Field>)
    requires n < |lines| && fields + ParseLines(lines[n..]) == all
    ensures match ParseLine(lines[n])
            case None => fields + ParseLines(lines[n + 1..]) == all
            case Some(f) => fields + [f] + ParseLines(lines[n + 1..]) == all
  {
    hide ParseLine;
    assert lines[n..][1..] == lines[n + 1..] && lines[n..][0] == lines[n];
  }

  class Entry {
    var fields: seq<Field>

    constructor Parse(content: string)
      ensures fields == Parsed(content)
    {
      fields := [];
      new;
      hide TrimSpace, Index, Split, ParseLine, ParseLines;
      var lines := Split(content, '\n');
      assert lines[0..] == lines;
      NothingLeft(lines[|lines|..]);
      for n := 0 to |lines|
        invariant fields + ParseLines(lines[n..]) == Parsed(content)
      {
        OneLineOn(fields, lines, n, Parsed(content));
        ParseLineIs(lines[n]);
        var trimmed := TrimSpace(lines[n]);
        if trimmed == "" || trimmed[0] == '#' {
          continue;
        }
        var i := Index(trimmed, ' ');
        var key := if i < 0 then trimmed else trimmed[..i];
        var val := "";
        if i >= 0 {
          val := trimmed[i + 1..];
        }
        fields := fields + [Field(key, val)];
      }
    }

    method Get(key: string) returns (value: string)
      ensures value == ValueOf(fields, key)
    {
      for i := 0 to |fields|
        modifies {}
        invariant ValueOf(fields, key) == ValueOf(fields[i..], key)
      {
        assert fields[i..][1..] == fields[i + 1..];
        if fields[i].key == key {
          return fields[i].value;
        }
      }
      return "";
    }

    method Set(key: string, value: string)
      modifies this
      ensures fields == WithValue(old(fields), key, value)
    {
      hide WithValue;
      assert fields[0..] == fields;
      for i := 0 to |fields|
        invariant fields == old(fields)
        invariant WithValue(fields, key, value) == fields[..i] + WithValue(fields[i..], key, value)
      {
        assert fields[i..][1..] == fields[i + 1..];
        WithValueStep(fields[i..], key, value);
        if fields[i].key == key {
          assert fields[..i] + ([Field(key, value)] + fields[i + 1..]) == fields[i := Field(key, value)];
          fields := fields[i := Field(key, value)];
          return;
        }
        assert fields[..i] + ([fields[i]] + WithValue(fields[i + 1..], key, value)) == fields[..i + 1] + WithValue(fields[i + 1..], key, value);
      }
      assert fields[|fields|..] == [];
      WithValueStep([], key, value);
      assert fields[..|fields|] == fields;
      fields := fields + [Field(key, value)];
    }

    function String(): (s: string)
      reads this
    {
      Print(fields)
    }
  }
}
