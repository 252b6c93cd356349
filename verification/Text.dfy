/** The string functions of Go's strings and strconv packages that the repository relies on. */
module Text {
  import opened Results

  // ---- White space ----

  /** unicode.IsSpace. */
  predicate IsSpace(c: char)
  {
    || c in "\t\n\r "
    || c == '\U{0B}' || c == '\U{0C}' || c == '\U{85}' || c == '\U{A0}' || c == '\U{1680}'
    || '\U{2000}' <= c <= '\U{200a}'
    || c == '\U{2028}' || c == '\U{2029}' || c == '\U{202f}' || c == '\U{205f}' || c == '\U{3000}'
  }

  predicate NoSpace(s: string)
  {
    forall c <- s :: !IsSpace(c)
  }

  /** No white space at either end. */
  predicate Trimmed(s: string)
  {
    s != "" ==> !IsSpace(s[0]) && !IsSpace(s[|s| - 1])
  }

  function TrimLeft(s: string): string
  {
    if s != "" && IsSpace(s[0]) then TrimLeft(s[1..]) else s
  }

  function TrimRight(s: string): string
  {
    if s != "" && IsSpace(s[|s| - 1]) then TrimRight(s[..|s| - 1]) else s
  }

  function TrimSpace(s: string): string
  {
    TrimRight(TrimLeft(s))
  }

  lemma {:induction false} TrimRightKeepsHead(s: string)
    requires s != "" && !IsSpace(s[0])
    ensures TrimRight(s) != "" && TrimRight(s)[0] == s[0] && !IsSpace(TrimRight(s)[|TrimRight(s)| - 1])
    ensures TrimRight(s) <= s
    decreases |s|
  {
    if IsSpace(s[|s| - 1]) {
      TrimRightKeepsHead(s[..|s| - 1]);
    }
  }

  lemma {:induction false} TrimLeftHead(s: string)
    ensures TrimLeft(s) == "" || !IsSpace(TrimLeft(s)[0])
  {
    if s != "" && IsSpace(s[0]) {
      TrimLeftHead(s[1..]);
    }
  }

  lemma TrimSpaceTrimmed(s: string)
    ensures Trimmed(TrimSpace(s))
  {
    TrimLeftHead(s);
    if TrimLeft(s) != "" {
      TrimRightKeepsHead(TrimLeft(s));
    }
  }

  lemma TrimmedUnchanged(s: string)
    requires Trimmed(s)
    ensures TrimSpace(s) == s
  {
  }

  lemma {:induction false} TrimLeftSuffix(s: string)
    ensures |TrimLeft(s)| <= |s| && TrimLeft(s) == s[|s| - |TrimLeft(s)|..]
  {
    if s != "" && IsSpace(s[0]) {
      TrimLeftSuffix(s[1..]);
    }
  }

  lemma {:induction false} TrimRightPrefix(s: string)
    ensures TrimRight(s) <= s
    decreases |s|
  {
    if s != "" && IsSpace(s[|s| - 1]) {
      TrimRightPrefix(s[..|s| - 1]);
    }
  }

  /** Trimming only takes characters away. */
  lemma TrimSpaceChars(s: string)
    ensures forall c <- TrimSpace(s) :: c in s
  {
    TrimLeftSuffix(s);
    TrimRightPrefix(TrimLeft(s));
  }

  // ---- Splitting and joining ----

  /** strings.Split on a one-character separator. */
  function Split(s: string, sep: char): (parts: seq<string>)
    ensures |parts| >= 1
    ensures forall i :: 0 <= i < |parts| ==> sep !in parts[i]
    ensures forall i :: 0 <= i < |parts| ==> forall c <- parts[i] :: c in s
  {
    if s == "" then [""]
    else
      var rest := Split(s[1..], sep);
      if s[0] == sep then [""] + rest else Push(s[0], rest)
  }

  /** Puts a character in front of the first part. */
  function Push(c: char, parts: seq<string>): seq<string>
    requires parts != []
  {
    [[c] + parts[0]] + parts[1..]
  }

  lemma {:induction false} SplitAppend(a: string, b: string, sep: char)
    ensures Split(a + [sep] + b, sep) == Split(a, sep) + Split(b, sep)
  {
    hide Push;
    var s := a + [sep] + b;
    if a == "" {
      assert s[1..] == b;
    } else {
      assert s[0] == a[0] && s[1..] == a[1..] + [sep] + b;
      SplitAppend(a[1..], b, sep);
      PushAppend(a[0], Split(a[1..], sep), Split(b, sep));
      assert [""] + (Split(a[1..], sep) + Split(b, sep)) == [""] + Split(a[1..], sep) + Split(b, sep);
    }
  }

  lemma PushAppend(c: char, a: seq<string>, b: seq<string>)
    requires a != []
    ensures Push(c, a + b) == Push(c, a) + b
  {
  }

  /** strings.Join with a one-character separator. */
  function Join(parts: seq<string>, sep: char): string
  {
    if parts == [] then ""
    else if |parts| == 1 then parts[0]
    else parts[0] + [sep] + Join(parts[1..], sep)
  }

  lemma {:induction false} JoinSplit(s: string, sep: char)
    ensures Join(Split(s, sep), sep) == s
  {
    if s != "" {
      var rest := Split(s[1..], sep);
      JoinSplit(s[1..], sep);
      if s[0] == sep {
        assert ([""] + rest)[1..] == rest;
      } else {
        var parts := [[s[0]] + rest[0]] + rest[1..];
        assert parts[1..] == rest[1..];
        assert s == [s[0]] + s[1..];
      }
    }
  }

  lemma {:induction false} SplitNone(s: string, sep: char)
    requires sep !in s
    ensures Split(s, sep) == [s]
  {
    if s != "" {
      SplitNone(s[1..], sep);
      assert [s[0]] + s[1..] == s;
    }
  }

  lemma {:induction false} SplitCons(a: string, b: string, sep: char)
    requires sep !in a
    ensures Split(a + [sep] + b, sep) == [a] + Split(b, sep)
  {
    var s := a + [sep] + b;
    if a == "" {
      assert s[1..] == b;
    } else {
      SplitCons(a[1..], b, sep);
      assert s[1..] == a[1..] + [sep] + b;
      assert [a[0]] + a[1..] == a;
      assert ([a[1..]] + Split(b, sep))[1..] == Split(b, sep);
    }
  }

  lemma {:induction false} SplitJoin(parts: seq<string>, sep: char)
    requires parts != [] && forall i :: 0 <= i < |parts| ==> sep !in parts[i]
    ensures Split(Join(parts, sep), sep) == parts
    decreases |parts|
  {
    if |parts| == 1 {
      SplitNone(parts[0], sep);
    } else {
      SplitJoin(parts[1..], sep);
      SplitCons(parts[0], Join(parts[1..], sep), sep);
    }
  }

  // ---- Finding ----

  /** strings.IndexByte. */
  function Index(s: string, c: char): (i: int)
    ensures -1 <= i < |s|
    ensures if i < 0 then c !in s else s[i] == c && c !in s[..i]
  {
    if s == "" then -1
    else if s[0] == c then 0
    else
      var i := Index(s[1..], c);
      assert s == [s[0]] + s[1..];
      if i < 0 then -1
      else
        assert s[..i + 1] == [s[0]] + s[1..][..i];
        i + 1
  }

  lemma IndexIs(s: string, c: char, i: nat)
    requires i < |s| && s[i] == c && c !in s[..i]
    ensures Index(s, c) == i
  {
    var j := Index(s, c);
    assert j >= 0;
    assert forall k :: 0 <= k < i ==> s[k] == s[..i][k] != c;
    assert forall k :: 0 <= k < j ==> s[k] == s[..j][k] != c;
  }

  // ---- Fields ----

  function WordLength(s: string): (n: nat)
    ensures n <= |s| && (forall i :: 0 <= i < n ==> !IsSpace(s[i])) && (n < |s| ==> IsSpace(s[n]))
  {
    if s == "" || IsSpace(s[0]) then 0 else 1 + WordLength(s[1..])
  }

  /** strings.Fields. */
  function Fields(s: string): (words: seq<string>)
    ensures forall i :: 0 <= i < |words| ==> words[i] != "" && NoSpace(words[i])
    ensures forall i :: 0 <= i < |words| ==> forall c <- words[i] :: c in s
    decreases |s|
  {
    if s == "" then []
    else if IsSpace(s[0]) then Fields(s[1..])
    else [s[..WordLength(s)]] + Fields(s[WordLength(s)..])
  }

  predicate AllWords(words: seq<string>)
  {
    forall i :: 0 <= i < |words| ==> words[i] != "" && NoSpace(words[i])
  }

  lemma FieldsHead(w: string, rest: string)
    requires w != "" && NoSpace(w) && (rest == "" || IsSpace(rest[0]))
    ensures Fields(w + rest) == [w] + Fields(rest)
  {
    var s := w + rest;
    var n := WordLength(s);
    assert forall i :: 0 <= i < |w| ==> s[i] == w[i] && !IsSpace(s[i]);
    assert rest != "" ==> IsSpace(s[|w|]);
    assert s[..n] == w && s[n..] == rest;
  }

  lemma NoFields()
    ensures Fields("") == []
  {
  }

  /** Words put together with any white-space separator are the fields of the result. */
  lemma {:induction false} FieldsJoin(words: seq<string>, sep: char)
    requires AllWords(words) && IsSpace(sep)
    ensures Fields(Join(words, sep)) == words
    decreases |words|
  {
    hide Fields;
    NoFields();
    if |words| == 1 {
      FieldsHead(words[0], "");
      assert words[0] + "" == words[0] && [words[0]] + [] == words;
    } else if |words| > 1 {
      var tail := Join(words[1..], sep);
      FieldsHead(words[0], [sep] + tail);
      assert words[0] + [sep] + tail == words[0] + ([sep] + tail);
      FieldsSpace(sep, tail);
      FieldsJoin(words[1..], sep);
    }
  }

  /** White space at the front does not change the fields. */
  lemma FieldsSpace(c: char, rest: string)
    requires IsSpace(c)
    ensures Fields([c] + rest) == Fields(rest)
  {
    assert ([c] + rest)[1..] == rest;
  }

  /** Words and anything after them: the words, and the fields of what comes last. */
  lemma {:induction false} FieldsJoinLast(words: seq<string>, last: string, sep: char)
    requires AllWords(words) && IsSpace(sep)
    ensures Fields(Join(words + [last], sep)) == words + Fields(last)
    decreases |words|
  {
    hide Fields;
    if words == [] {
      assert [] + [last] == [last];
      assert words + Fields(last) == Fields(last);
    } else {
      var tail := Join(words[1..] + [last], sep);
      assert (words + [last])[1..] == words[1..] + [last];
      assert Join(words + [last], sep) == words[0] + ([sep] + tail);
      FieldsHead(words[0], [sep] + tail);
      FieldsSpace(sep, tail);
      FieldsJoinLast(words[1..], last, sep);
      assert [words[0]] + (words[1..] + Fields(last)) == words + Fields(last);
    }
  }

  /** The first field goes on as long as the text has no white space. */
  lemma FirstField(s: string, n: nat)
    requires 0 < n <= |s| && NoSpace(s[..n])
    ensures Fields(s) != [] && s[..n] <= Fields(s)[0]
    ensures n == |s| ==> Fields(s) == [s]
  {
    hide Fields, IsSpace, NoSpace, WordLength;
    WordIsOne(s, n);
    var k := WordLength(s);
    var w, rest := s[..k], s[k..];
    assert s == w + rest;
    FieldsHead(w, rest);
    assert w[..n] == s[..n] && s[..n] <= w;
    assert Fields(s)[0] == w;
    if n == |s| {
      assert rest == "" && w == s;
      NoFields();
    }
  }

  lemma WordIsOne(s: string, n: nat)
    requires n <= |s| && NoSpace(s[..n])
    ensures n <= WordLength(s) && NoSpace(s[..WordLength(s)])
  {
    hide IsSpace;
    var k := WordLength(s);
    var w := s[..k];
    forall c <- w ensures !IsSpace(c) {
      var i :| 0 <= i < |w| && w[i] == c;
      assert s[i] == c;
    }
    assert forall i :: 0 <= i < n ==> s[..n][i] == s[i] && s[i] in s[..n];
  }

  /** The parts that are not empty. */
  function NonEmpty(parts: seq<string>): (r: seq<string>)
    ensures |r| <= |parts|
  {
    if parts == [] then [] else (if parts[0] == "" then [] else [parts[0]]) + NonEmpty(parts[1..])
  }

  /** Empty parts of a join leave no trace among its fields. */
  lemma {:induction false} FieldsJoinNonEmpty(parts: seq<string>, sep: char)
    requires IsSpace(sep) && forall i :: 0 <= i < |parts| ==> NoSpace(parts[i])
    ensures Fields(Join(parts, sep)) == NonEmpty(parts)
    decreases |parts|
  {
    if parts != [] {
      var w, tail := parts[0], Join(parts[1..], sep);
      FieldsJoinNonEmpty(parts[1..], sep);
      var rest := if |parts| == 1 then "" else [sep] + tail;
      assert Join(parts, sep) == w + rest;
      assert rest != "" ==> rest[1..] == tail;
      if w == "" {
        assert w + rest == rest;
      } else {
        FieldsHead(w, rest);
      }
    }
  }

  /** Only the characters of the words and the separator occur in a join. */
  lemma {:induction false} JoinChars(parts: seq<string>, sep: char, c: char)
    requires c in Join(parts, sep)
    ensures c == sep || exists i :: 0 <= i < |parts| && c in parts[i]
    decreases |parts|
  {
    if |parts| > 1 {
      if c !in parts[0] && c != sep {
        JoinChars(parts[1..], sep, c);
        var i :| 0 <= i < |parts[1..]| && c in parts[1..][i];
        assert c in parts[i + 1];
      }
    }
  }

  // ---- Decimal numbers ----

  function Digit(d: nat): char
    requires d < 10
  {
    "0123456789"[d]
  }

  predicate IsDigit(c: char) {
    '0' <= c <= '9'
  }

  function DigitValue(c: char): nat
    requires IsDigit(c)
  {
    (c - '0') as nat
  }

  /** The decimal digits of a natural number, as strconv.Itoa writes them. */
  function Itoa(n: nat): (s: string)
    ensures s != "" && forall c <- s :: IsDigit(c)
  {
    if n < 10 then [Digit(n)] else Itoa(n / 10) + [Digit(n % 10)]
  }

  /** The number a non-empty string of digits denotes. */
  function DigitsValue(s: string): nat
    requires forall c <- s :: IsDigit(c)
  {
    if s == "" then 0 else 10 * DigitsValue(s[..|s| - 1]) + DigitValue(s[|s| - 1])
  }

  lemma {:induction false} DigitsValueItoa(n: nat)
    ensures DigitsValue(Itoa(n)) == n
  {
    assert DigitValue(Digit(n % 10)) == n % 10;
    if n < 10 {
      assert Itoa(n)[..0] == "";
    } else {
      DigitsValueItoa(n / 10);
      assert Itoa(n)[..|Itoa(n)| - 1] == Itoa(n / 10);
    }
  }

  lemma ItoaInjective(m: nat, n: nat)
    requires Itoa(m) == Itoa(n)
    ensures m == n
  {
    DigitsValueItoa(m);
    DigitsValueItoa(n);
  }

  predicate AllDigits(s: string)
  {
    forall c <- s :: IsDigit(c)
  }

  /** strconv.Atoi on a platform with 64-bit ints. */
  function Atoi(s: string): Option<int>
  {
    var digits := if s != "" && (s[0] == '-' || s[0] == '+') then s[1..] else s;
    if digits == "" || !AllDigits(digits) then None
    else
      var v: int := DigitsValue(digits);
      var n := if s[0] == '-' then -v else v;
      if -0x8000_0000_0000_0000 <= n <= 0x7fff_ffff_ffff_ffff then Some(n) else None
  }

  lemma AtoiItoa(n: nat)
    requires n <= 0x7fff_ffff_ffff_ffff
    ensures Atoi(Itoa(n)) == Some(n)
  {
    var s := Itoa(n);
    assert s[0] in s && IsDigit(s[0]);
    DigitsValueItoa(n);
  }
}
