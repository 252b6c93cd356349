/** Static addresses of a guest's network cards: the lines written for them and how they are read. */
module StaticIps {
  import opened Results
  import opened Text

  datatype StaticIP = StaticIP(mac: string, ip: string, gateway: string, netmask: string, dns: seq<string>)

  // ---- Netmasks ----

  function Pow2(n: nat): (r: nat)
    ensures r >= 1
  {
    if n == 0 then 1 else 2 * Pow2(n - 1)
  }

  /** How many of the lowest k bits of a two's complement number are set. */
  function OnesIn(n: int, k: nat): (ones: nat)
    ensures ones <= k
  {
    if k == 0 then 0 else (n / Pow2(k - 1)) % 2 + OnesIn(n, k - 1)
  }

  function OnesInAll(parts: seq<string>): Option<nat>
  {
    if parts == [] then Some(0)
    else
      var n, rest := Atoi(parts[0]), OnesInAll(parts[1..]);
      if n.None? || rest.None? then None else Some(OnesIn(n.value, 8) + rest.value)
  }

  /** The number of bits set in a mask of four parts, whatever their order. */
  function NetmaskBits(mask: string): Option<nat>
  {
    var parts := Split(mask, '.');
    if |parts| != 4 then None else OnesInAll(parts)
  }

  lemma {:induction false} OnesSnoc(parts: seq<string>, n: nat)
    requires n < |parts| && OnesInAll(parts[..n]).Some?
    ensures OnesInAll(parts[..n + 1]) ==
            if Atoi(parts[n]).None? then None else Some(OnesInAll(parts[..n]).value + OnesIn(Atoi(parts[n]).value, 8))
    decreases n
  {
    hide Atoi, OnesIn;
    if n == 0 {
      assert parts[..1][1..] == [];
    } else {
      assert parts[..n + 1][1..] == parts[1..][..n] && parts[..n][1..] == parts[1..][..n - 1];
      OnesSnoc(parts[1..], n - 1);
    }
  }

  lemma {:induction false} OnesStop(parts: seq<string>, n: nat)
    requires n < |parts| && Atoi(parts[n]).None?
    ensures OnesInAll(parts) == None
    decreases n
  {
    hide Atoi, OnesIn;
    if n > 0 {
      OnesStop(parts[1..], n - 1);
    }
  }

  /** netmaskPrefix, which counts bits from the highest to the lowest. */
  method NetmaskPrefix(mask: string) returns (prefix: Option<string>)
    ensures prefix == if NetmaskBits(mask).None? then None else Some(Itoa(NetmaskBits(mask).value))
  {
    hide Atoi, Itoa;
    var parts := Split(mask, '.');
    if |parts| != 4 {
      return None;
    }
    var bits := 0;
    for k := 0 to |parts|
      invariant OnesInAll(parts[..k]) == Some(bits)
    {
      var n := Atoi(parts[k]);
      OnesSnoc(parts, k);
      if n.None? {
        OnesStop(parts, k);
        return None;
      }
      ghost var before := bits;
      var i := 8;
      while i > 0
        invariant 0 <= i <= 8 && bits + OnesIn(n.value, i) == before + OnesIn(n.value, 8)
      {
        i := i - 1;
        if (n.value / Pow2(i)) % 2 != 0 {
          bits := bits + 1;
        }
      }
    }
    assert parts[..|parts|] == parts;
    return Some(Itoa(bits));
  }

  /** The octet with b leading ones. */
  function LeadingOnes(b: nat): (n: nat)
    requires b <= 8
    ensures n <= 255
  {
    if b == 0 then 0
    else if b == 1 then 128
    else if b == 2 then 192
    else if b == 3 then 224
    else if b == 4 then 240
    else if b == 5 then 248
    else if b == 6 then 252
    else if b == 7 then 254
    else 255
  }

  /** One of the four octets of a mask with p leading ones. */
  function Octet(p: int, j: nat): (n: nat)
    ensures n <= 255
  {
    var b := p - 8 * j;
    LeadingOnes(if b <= 0 then 0 else if b >= 8 then 8 else b)
  }

  function Dotted(a: nat, b: nat, c: nat, d: nat): string
  {
    Itoa(a) + "." + (Itoa(b) + "." + (Itoa(c) + "." + Itoa(d)))
  }

  /** prefixLengthToNetmask. */
  function PrefixToMask(p: int): string
  {
    if p <= 0 || p > 32 then "255.255.255.0"
    else Dotted(Octet(p, 0), Octet(p, 1), Octet(p, 2), Octet(p, 3))
  }

  /** The mask is written as that of some length from 1 to 32. */
  predicate Canonical(mask: string)
  {
    exists p :: 1 <= p <= 32 && mask == PrefixToMask(p)
  }

  lemma Powers()
    ensures Pow2(0) == 1 && Pow2(1) == 2 && Pow2(2) == 4 && Pow2(3) == 8
    ensures Pow2(4) == 16 && Pow2(5) == 32 && Pow2(6) == 64 && Pow2(7) == 128
  {
    assert Pow2(1) == 2;
    assert Pow2(2) == 4;
    assert Pow2(3) == 8;
    assert Pow2(4) == 16;
    assert Pow2(5) == 32;
    assert Pow2(6) == 64;
  }

  lemma EightBits(n: int)
    ensures OnesIn(n, 8) == (n / 128) % 2 + (n / 64) % 2 + (n / 32) % 2 + (n / 16) % 2
                            + (n / 8) % 2 + (n / 4) % 2 + (n / 2) % 2 + n % 2
  {
    Powers();
    assert OnesIn(n, 1) == n % 2;
    assert OnesIn(n, 2) == (n / 2) % 2 + OnesIn(n, 1);
    assert OnesIn(n, 3) == (n / 4) % 2 + OnesIn(n, 2);
    assert OnesIn(n, 4) == (n / 8) % 2 + OnesIn(n, 3);
    assert OnesIn(n, 5) == (n / 16) % 2 + OnesIn(n, 4);
    assert OnesIn(n, 6) == (n / 32) % 2 + OnesIn(n, 5);
    assert OnesIn(n, 7) == (n / 64) % 2 + OnesIn(n, 6);
  }

  lemma LeadingOnesCount(b: nat)
    requires b <= 8
    ensures OnesIn(LeadingOnes(b), 8) == b
  {
    hide OnesIn;
    if b <= 4 {
      EightBits(LeadingOnes(b));
    } else {
      ManyOnes(b);
    }
  }

  lemma ManyOnes(b: nat)
    requires 4 < b <= 8
    ensures OnesIn(LeadingOnes(b), 8) == b
  {
    hide OnesIn;
    EightBits(LeadingOnes(b));
  }

  lemma OctetOnes(p: int, j: nat)
    ensures var b := p - 8 * j; OnesIn(Octet(p, j), 8) == if b <= 0 then 0 else if b >= 8 then 8 else b
  {
    hide OnesIn, LeadingOnes;
    var b := p - 8 * j;
    LeadingOnesCount(if b <= 0 then 0 else if b >= 8 then 8 else b);
  }

  lemma DottedParts(a: nat, b: nat, c: nat, d: nat)
    ensures Split(Dotted(a, b, c, d), '.') == [Itoa(a), Itoa(b), Itoa(c), Itoa(d)]
  {
    hide Itoa, Split;
    var rest2 := Itoa(c) + "." + Itoa(d);
    var rest1 := Itoa(b) + "." + rest2;
    NoDot(a);
    NoDot(b);
    NoDot(c);
    NoDot(d);
    SplitCons(Itoa(a), rest1, '.');
    SplitCons(Itoa(b), rest2, '.');
    SplitCons(Itoa(c), Itoa(d), '.');
    SplitNone(Itoa(d), '.');
    assert [Itoa(a)] + ([Itoa(b)] + ([Itoa(c)] + [Itoa(d)])) == [Itoa(a), Itoa(b), Itoa(c), Itoa(d)];
  }

  lemma NoDot(n: nat)
    ensures '.' !in Itoa(n)
  {
    assert AllDigits(Itoa(n));
  }

  lemma DottedOnes(a: nat, b: nat, c: nat, d: nat)
    requires a <= 255 && b <= 255 && c <= 255 && d <= 255
    ensures NetmaskBits(Dotted(a, b, c, d)) == Some(OnesIn(a, 8) + OnesIn(b, 8) + OnesIn(c, 8) + OnesIn(d, 8))
  {
    hide Itoa, Atoi, OnesIn, Dotted, Split, OnesInAll;
    DottedParts(a, b, c, d);
    NoOnes();
    OnesCons(d, []);
    assert [Itoa(d)] + [] == [Itoa(d)];
    OnesCons(c, [Itoa(d)]);
    assert [Itoa(c)] + [Itoa(d)] == [Itoa(c), Itoa(d)];
    OnesCons(b, [Itoa(c), Itoa(d)]);
    assert [Itoa(b)] + [Itoa(c), Itoa(d)] == [Itoa(b), Itoa(c), Itoa(d)];
    OnesCons(a, [Itoa(b), Itoa(c), Itoa(d)]);
    assert [Itoa(a)] + [Itoa(b), Itoa(c), Itoa(d)] == [Itoa(a), Itoa(b), Itoa(c), Itoa(d)];
  }

  lemma NoOnes()
    ensures OnesInAll([]) == Some(0)
  {
  }

  lemma OnesCons(n: nat, rest: seq<string>)
    requires n <= 255 && OnesInAll(rest).Some?
    ensures OnesInAll([Itoa(n)] + rest) == Some(OnesIn(n, 8) + OnesInAll(rest).value)
  {
    hide Itoa, Atoi, OnesIn;
    AtoiItoa(n);
    assert ([Itoa(n)] + rest)[1..] == rest;
  }

  /** A mask of p leading ones counts as p, for every length from 1 to 32. */
  lemma MaskBits(p: int)
    requires 1 <= p <= 32
    ensures NetmaskBits(PrefixToMask(p)) == Some(p)
  {
    hide NetmaskBits, Octet, OnesIn, Dotted;
    OctetOnes(p, 0);
    OctetOnes(p, 1);
    OctetOnes(p, 2);
    OctetOnes(p, 3);
    DottedOnes(Octet(p, 0), Octet(p, 1), Octet(p, 2), Octet(p, 3));
  }

  lemma DefaultMask()
    ensures PrefixToMask(24) == "255.255.255.0"
  {
    assert Itoa(2) == "2" && Itoa(25) == "25" && Itoa(255) == "255" && Itoa(0) == "0";
    assert Octet(24, 0) == 255 && Octet(24, 1) == 255 && Octet(24, 2) == 255 && Octet(24, 3) == 0;
  }

  /** The length a mask is written as. */
  function PrefixOf(netmask: string): nat
  {
    if netmask != "" && NetmaskBits(netmask).Some? then NetmaskBits(netmask).value else 24
  }

  /** Written as a length and read again a mask is what it was, exactly if it is canonical or absent. */
  lemma MaskReadsBackIff(netmask: string)
    ensures PrefixToMask(PrefixOf(netmask)) == (if netmask == "" then "255.255.255.0" else netmask)
            <==> netmask == "" || Canonical(netmask)
  {
    hide PrefixToMask, NetmaskBits;
    DefaultMask();
    if Canonical(netmask) {
      var p :| 1 <= p <= 32 && netmask == PrefixToMask(p);
      MaskBits(p);
      MaskNotEmpty(p);
    }
    if netmask != "" && PrefixToMask(PrefixOf(netmask)) == netmask {
      FallsBack(PrefixOf(netmask));
    }
  }

  lemma MaskNotEmpty(p: int)
    ensures PrefixToMask(p) != ""
  {
  }

  /** Whatever the number, the mask made is that of a length from 1 to 32. */
  lemma FallsBack(p: int)
    ensures Canonical(PrefixToMask(p))
  {
    hide Dotted;
    DefaultMask();
    if p <= 0 || p > 32 {
      assert PrefixToMask(p) == PrefixToMask(24);
    }
  }

  // ---- Lines ----

  /** MacToIPLine. */
  function Line(s: StaticIP): string
  {
    s.mac + ":ip:" + (s.ip + "," + (s.gateway + "," + (Itoa(PrefixOf(s.netmask)) + "," + Join(s.dns, ','))))
  }

  method MacToIPLine(s: StaticIP) returns (line: string)
    ensures line == Line(s)
  {
    hide NetmaskBits, Itoa, Join;
    var prefix := "24";
    assert Itoa(24) == "24" by { TwentyFour(); }
    if s.netmask != "" {
      var ones := NetmaskPrefix(s.netmask);
      if ones.Some? {
        prefix := ones.value;
      }
    }
    var dns := Join(s.dns, ',');
    line := s.mac + ":ip:" + (s.ip + "," + (s.gateway + "," + (prefix + "," + dns)));
  }

  lemma TwentyFour()
    ensures Itoa(24) == "24"
  {
    assert Itoa(2) == "2";
  }

  /** The first ":ip:" of a segment, or -1. */
  function SeparatorAt(s: string): (i: int)
    ensures -1 <= i < |s|
    ensures i >= 0 ==> i + 4 <= |s| && s[i..i + 4] == ":ip:"
  {
    if |s| < 4 then -1
    else if ":ip:" <= s then 0
    else
      var i := SeparatorAt(s[1..]);
      if i < 0 then -1
      else
        assert s[i + 1..i + 5] == s[1..][i..i + 4];
        i + 1
  }

  lemma {:induction false} SeparatorAfter(mac: string, rest: string)
    requires 'i' !in mac
    ensures SeparatorAt(mac + ":ip:" + rest) == |mac|
  {
    var s := mac + ":ip:" + rest;
    if mac == "" {
      assert s[..4] == ":ip:";
    } else {
      assert s[1..] == mac[1..] + ":ip:" + rest;
      SeparatorAfter(mac[1..], rest);
      assert s[1] == if |mac| > 1 then mac[1] else ':';
      assert ":ip:"[1] == 'i';
    }
  }

  /** What a segment says; None for an invalid one. */
  function ParseSegment(seg: string): Option<StaticIP>
  {
    var i := SeparatorAt(seg);
    if i < 0 then None
    else
      var parts := Split(seg[i + 4..], ',');
      if parts[0] == "" then None
      else
        Some(StaticIP(seg[..i], parts[0],
                      if |parts| > 1 then parts[1] else "",
                      if |parts| > 2 && parts[2] != "" && Atoi(parts[2]).Some? then PrefixToMask(Atoi(parts[2]).value) else "",
                      if |parts| > 3 && parts[3] != "" then parts[3..] else []))
  }

  /** All segments that are not empty, or None if one of them is invalid. */
  function ParseSegments(segs: seq<string>): Option<seq<StaticIP>>
  {
    if segs == [] then Some([])
    else if segs[0] == "" then ParseSegments(segs[1..])
    else
      var s, rest := ParseSegment(segs[0]), ParseSegments(segs[1..]);
      if s.None? || rest.None? then None else Some([s.value] + rest.value)
  }

  function Parse(raw: string): Option<seq<StaticIP>>
  {
    if raw == "" then Some([]) else ParseSegments(Split(raw, '_'))
  }

  function Onto(ips: seq<StaticIP>, rest: Option<seq<StaticIP>>): Option<seq<StaticIP>>
  {
    if rest.None? then None else Some(ips + rest.value)
  }

  lemma OntoTwice(ips: seq<StaticIP>, s: StaticIP, rest: Option<seq<StaticIP>>)
    ensures Onto([], rest) == rest
    ensures Onto(ips, Onto([s], rest)) == Onto(ips + [s], rest)
  {
    if rest.Some? {
      assert [] + rest.value == rest.value;
      assert ips + ([s] + rest.value) == ips + [s] + rest.value;
    }
  }

  /** The segment at the front of a list. */
  lemma FirstSegment(segs: seq<string>)
    requires segs != []
    ensures ParseSegments(segs) ==
            if segs[0] == "" then ParseSegments(segs[1..])
            else if ParseSegment(segs[0]).None? then None
            else Onto([ParseSegment(segs[0]).value], ParseSegments(segs[1..]))
  {
    hide ParseSegment;
  }

  method ParseStaticIPs(raw: string) returns (out: Option<seq<StaticIP>>)
    ensures out == Parse(raw)
  {
    hide ParseSegment, ParseSegments, Onto;
    if raw == "" {
      return Some([]);
    }
    var segments := Split(raw, '_');
    var ips := [];
    assert segments[0..] == segments;
    OntoTwice([], StaticIP("", "", "", "", []), ParseSegments(segments));
    for k := 0 to |segments|
      invariant Parse(raw) == Onto(ips, ParseSegments(segments[k..]))
    {
      assert segments[k..][1..] == segments[k + 1..];
      FirstSegment(segments[k..]);
      var seg := segments[k];
      if seg == "" {
        continue;
      }
      var sip := ReadSegment(seg);
      if sip.None? {
        OntoNone(ips);
        return None;
      }
      OntoTwice(ips, sip.value, ParseSegments(segments[k + 1..]));
      ips := ips + [sip.value];
    }
    OntoEnd(ips);
    return Some(ips);
  }

  lemma OntoNone(ips: seq<StaticIP>)
    ensures Onto(ips, None) == None
  {
  }

  lemma OntoEnd(ips: seq<StaticIP>)
    ensures Onto(ips, ParseSegments([])) == Some(ips)
  {
    assert ips + [] == ips;
  }

  /** One turn of the parse loop. */
  method ReadSegment(seg: string) returns (r: Option<StaticIP>)
    ensures r == ParseSegment(seg)
  {
    hide SeparatorAt, PrefixToMask, Atoi, Split;
    var i := SeparatorAt(seg);
    if i < 0 {
      return None;
    }
    var parts := Split(seg[i + 4..], ',');
    if |parts| < 1 || parts[0] == "" {
      return None;
    }
    var sip := StaticIP(seg[..i], parts[0], "", "", []);
    if |parts| > 1 && parts[1] != "" {
      sip := sip.(gateway := parts[1]);
    }
    if |parts| > 2 && parts[2] != "" {
      var prefix := Atoi(parts[2]);
      if prefix.Some? {
        sip := sip.(netmask := PrefixToMask(prefix.value));
      }
    }
    if |parts| > 3 && parts[3] != "" {
      sip := sip.(dns := parts[3..]);
    }
    return Some(sip);
  }

  // ---- Round trips ----

  /** None of the characters that separate occurs in what is separated. */
  predicate Plain(s: StaticIP)
  {
    && 'i' !in s.mac && '_' !in s.mac
    && ',' !in s.ip && '_' !in s.ip
    && ',' !in s.gateway && '_' !in s.gateway
    && forall k :: 0 <= k < |s.dns| ==> ',' !in s.dns[k] && '_' !in s.dns[k]
  }

  /** An absent mask is read back as that of length 24. */
  function Reread(s: StaticIP): StaticIP
  {
    s.(netmask := if s.netmask == "" then "255.255.255.0" else s.netmask)
  }

  predicate ReadsBack(s: StaticIP)
  {
    s.ip != "" && (s.dns == [] || s.dns[0] != "") && (s.netmask == "" || Canonical(s.netmask))
  }

  lemma LineParts(s: StaticIP)
    requires Plain(s)
    ensures var line := Line(s); var i := SeparatorAt(line);
            && i == |s.mac| && line[..i] == s.mac
            && Split(line[i + 4..], ',')
               == [s.ip, s.gateway, Itoa(PrefixOf(s.netmask))] + (if s.dns == [] then [""] else s.dns)
  {
    hide Itoa, PrefixOf, Join, SeparatorAt;
    var p, d := Itoa(PrefixOf(s.netmask)), Join(s.dns, ',');
    var rest3 := p + "," + d;
    var rest2 := s.gateway + "," + rest3;
    var rest1 := s.ip + "," + rest2;
    SeparatorAfter(s.mac, rest1);
    assert Line(s) == s.mac + ":ip:" + rest1;
    assert Line(s)[..|s.mac|] == s.mac && Line(s)[|s.mac| + 4..] == rest1;
    assert ',' !in p by { assert AllDigits(p); }
    SplitCons(s.ip, rest2, ',');
    SplitCons(s.gateway, rest3, ',');
    SplitCons(p, d, ',');
    if s.dns == [] {
      assert d == "" by { EmptyJoin(); }
      assert Split("", ',') == [""];
    } else {
      SplitJoin(s.dns, ',');
    }
    var ds := Split(d, ',');
    assert [s.ip] + ([s.gateway] + ([p] + ds)) == [s.ip, s.gateway, p] + ds;
  }

  lemma EmptyJoin()
    ensures Join([], ',') == ""
  {
  }

  lemma PrefixRead(netmask: string)
    ensures var p := Itoa(PrefixOf(netmask)); p != "" && Atoi(p) == Some(PrefixOf(netmask))
  {
    hide Itoa, Atoi;
    BitsBound(netmask);
    AtoiItoa(PrefixOf(netmask));
  }

  lemma BitsBound(netmask: string)
    ensures PrefixOf(netmask) <= 32
  {
    hide Split, OnesInAll;
    if NetmaskBits(netmask).Some? {
      OnesBound(Split(netmask, '.'));
    }
  }

  lemma {:induction false} OnesBound(parts: seq<string>)
    ensures OnesInAll(parts).Some? ==> OnesInAll(parts).value <= 8 * |parts|
    decreases |parts|
  {
    hide Atoi, OnesIn;
    if parts != [] {
      OnesBound(parts[1..]);
    }
  }

  /**
   A line written for a card is read back as that card, an absent mask as 255.255.255.0,
   exactly if it has an address, its first DNS server is not empty, and its mask is absent
   or has between 1 and 32 leading ones and no others.
   */
  lemma LineReadsBackIff(s: StaticIP)
    requires Plain(s)
    ensures ParseSegment(Line(s)) == Some(Reread(s)) <==> ReadsBack(s)
  {
    hide Line, SeparatorAt, Split, Itoa, Atoi, PrefixOf, PrefixToMask, Canonical;
    LineParts(s);
    PrefixRead(s.netmask);
    MaskReadsBackIff(s.netmask);
    var parts := [s.ip, s.gateway, Itoa(PrefixOf(s.netmask))] + (if s.dns == [] then [""] else s.dns);
    assert parts[3..] == if s.dns == [] then [""] else s.dns;
    assert parts[3] == parts[3..][0];
    assert parts[2] == Itoa(PrefixOf(s.netmask));
  }

  function Lines(ips: seq<StaticIP>): (lines: seq<string>)
    ensures |lines| == |ips| && forall i :: 0 <= i < |lines| ==> lines[i] == Line(ips[i])
  {
    seq(|ips|, i requires 0 <= i < |ips| => Line(ips[i]))
  }

  function AllReread(ips: seq<StaticIP>): (out: seq<StaticIP>)
    ensures |out| == |ips| && forall i :: 0 <= i < |out| ==> out[i] == Reread(ips[i])
  {
    seq(|ips|, i requires 0 <= i < |ips| => Reread(ips[i]))
  }

  lemma {:induction false} SegmentsReadBackIff(lines: seq<string>, out: seq<StaticIP>)
    requires |lines| == |out| && forall i :: 0 <= i < |lines| ==> lines[i] != ""
    ensures ParseSegments(lines) == Some(out) <==> forall i :: 0 <= i < |lines| ==> ParseSegment(lines[i]) == Some(out[i])
    decreases |lines|
  {
    hide ParseSegment;
    if lines != [] {
      SegmentsReadBackIff(lines[1..], out[1..]);
      assert out == [out[0]] + out[1..];
      assert forall i :: 0 < i < |lines| ==> lines[i] == lines[1..][i - 1] && out[i] == out[1..][i - 1];
      assert (forall i :: 0 <= i < |lines[1..]| ==> ParseSegment(lines[1..][i]) == Some(out[1..][i]))
        <==> (forall i :: 0 < i < |lines| ==> ParseSegment(lines[i]) == Some(out[i]));
    }
  }

  lemma LinePlain(s: StaticIP)
    requires Plain(s)
    ensures '_' !in Line(s) && Line(s) != ""
  {
    hide Itoa, PrefixOf, Join;
    var p := Itoa(PrefixOf(s.netmask));
    assert '_' !in p by { assert AllDigits(p); }
    if '_' in Join(s.dns, ',') {
      JoinChars(s.dns, ',', '_');
    }
  }

  /** Any list of cards joined with underscores is read back as that list exactly if each of them would be. */
  lemma ListReadsBackIff(ips: seq<StaticIP>)
    requires forall i :: 0 <= i < |ips| ==> Plain(ips[i])
    ensures Parse(Join(Lines(ips), '_')) == Some(AllReread(ips)) <==> forall i :: 0 <= i < |ips| ==> ReadsBack(ips[i])
  {
    hide Line, ParseSegment, Reread, Plain, ReadsBack, ParseSegments;
    var lines, out := Lines(ips), AllReread(ips);
    if ips != [] {
      forall i | 0 <= i < |ips|
        ensures '_' !in lines[i] && lines[i] != ""
        ensures ParseSegment(lines[i]) == Some(out[i]) <==> ReadsBack(ips[i])
      {
        LinePlain(ips[i]);
        LineReadsBackIff(ips[i]);
      }
      SplitJoin(lines, '_');
      assert Join(lines, '_') != "";
      SegmentsReadBackIff(lines, out);
    }
  }
}
