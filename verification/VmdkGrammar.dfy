/**
 A declarative grammar of stream-optimized VMDK bodies, and proofs that the decoder's loop
 accepts exactly the strings of this grammar, with exactly the writes the grammar names.
 */
module VmdkGrammar {
  import opened Bytes
  import opened VmdkFormat

  /** A record of the body. The padding bytes are part of it, and may be anything. */
  datatype Record =
    | Grain(lba: nat, comp: seq<Byte>, pad: seq<Byte>)
    | Metadata(lba: nat, kind: nat, pad: seq<Byte>, body: seq<Byte>)

  /** What may follow the records: an end marker, or one of the places a stream may just stop. */
  datatype Tail =
    | EndMarker(lba: nat, rest: seq<Byte>)
    | CutMarker(bytes: seq<Byte>)
    | CutType(lba: nat, bytes: seq<Byte>)
    | CutPadding(lba: nat, comp: seq<Byte>, pad: seq<Byte>)

  function Marker(lba: nat, size: nat): (s: seq<Byte>)
    ensures |s| == MARKER
  {
    ToLE(lba, 8) + ToLE(size, 4)
  }

  function RecordBytes(r: Record): (s: seq<Byte>)
    ensures |s| == if r.Grain? then MARKER + |r.comp| + |r.pad| else META_MARKER + |r.pad| + |r.body|
  {
    match r
    case Grain(lba, comp, pad) => Marker(lba, |comp|) + (comp + pad)
    case Metadata(lba, kind, pad, body) => Marker(lba, 0) + (ToLE(kind, 4) + (pad + body))
  }

  function TailBytes(t: Tail): seq<Byte>
  {
    match t
    case EndMarker(lba, rest) => Marker(lba, 0) + (ToLE(0, 4) + rest)
    case CutMarker(bytes) => bytes
    case CutType(lba, bytes) => Marker(lba, 0) + bytes
    case CutPadding(lba, comp, pad) => Marker(lba, |comp|) + (comp + pad)
  }

  function AllBytes(rs: seq<Record>): seq<Byte>
  {
    if rs == [] then [] else RecordBytes(rs[0]) + AllBytes(rs[1..])
  }

  /** A grain marker's claims and its data are acceptable, and stay inside the capacity. */
  predicate ValidGrain(lba: nat, comp: seq<Byte>, p: Params)
  {
    && 0 < |comp| <= p.Limit()
    && Payload(p.inflate(comp), p.grainBytes).Some?
    && lba * SECTOR < p.totalBytes
    && lba * SECTOR + |Payload(p.inflate(comp), p.grainBytes).value| <= p.totalBytes
  }

  predicate ValidRecord(r: Record, p: Params)
  {
    match r
    case Grain(lba, comp, pad) => ValidGrain(lba, comp, p) && |pad| == PadLength(|comp|)
    case Metadata(lba, kind, pad, body) =>
      lba < TWO_64 && 0 < kind < TWO_32 && |pad| == SECTOR - META_MARKER && |body| == SkipLength(lba)
  }

  /** Over a connection that fails instead of ending, only an end marker may follow. */
  predicate ValidTail(t: Tail, p: Params, broken: bool)
  {
    match t
    case EndMarker(lba, rest) => lba < TWO_64
    case CutMarker(bytes) => !broken && |bytes| < MARKER
    case CutType(lba, bytes) => !broken && lba < TWO_64 && |bytes| < META_MARKER - MARKER
    case CutPadding(lba, comp, pad) => !broken && ValidGrain(lba, comp, p) && |pad| < PadLength(|comp|)
  }

  predicate AllValid(rs: seq<Record>, p: Params)
  {
    forall i :: 0 <= i < |rs| ==> ValidRecord(rs[i], p)
  }

  function GrainExtent(lba: nat, comp: seq<Byte>, p: Params): Extent
    requires ValidGrain(lba, comp, p)
  {
    Extent(lba * SECTOR, Payload(p.inflate(comp), p.grainBytes).value)
  }

  /** The writes the records stand for. Metadata stands for none. */
  function RecordExtents(rs: seq<Record>, p: Params): seq<Extent>
    requires AllValid(rs, p)
  {
    if rs == [] then []
    else
      match rs[0]
      case Grain(lba, comp, _) => [GrainExtent(lba, comp, p)] + RecordExtents(rs[1..], p)
      case Metadata(_, _, _, _) => RecordExtents(rs[1..], p)
  }

  function TailExtents(t: Tail, p: Params, broken: bool): seq<Extent>
    requires ValidTail(t, p, broken)
  {
    match t
    case CutPadding(lba, comp, _) => [GrainExtent(lba, comp, p)]
    case _ => []
  }

  /** The bytes s read as the records rs followed by the tail t. */
  predicate ReadsAs(s: seq<Byte>, rs: seq<Record>, t: Tail, p: Params, broken: bool)
  {
    AllValid(rs, p) && ValidTail(t, p, broken) && s == AllBytes(rs) + TailBytes(t)
  }

  ghost predicate Never(cancelled: nat -> bool) {
    forall k: nat :: !cancelled(k)
  }

  // ---- int64 tests against unbounded arithmetic ----

  /** The overflow-checked range test accepts exactly what unbounded arithmetic would. */
  lemma PlaceExact(lba: nat, len: nat, total: nat)
    requires total <= MAX_SECTORS * SECTOR && len <= MAX_GRAIN_BYTES
    ensures Place(lba, len, total).Success? <==> lba * SECTOR < total && lba * SECTOR + len <= total
    ensures Place(lba, len, total).Success? ==> Place(lba, len, total).value == lba * SECTOR
  {
    if lba <= MAX_SECTORS {
      assert lba * SECTOR <= MAX_SECTORS * SECTOR <= MAX_INT64;
      var end := lba * SECTOR + len;
      if end > MAX_INT64 {
        assert Int64(end) == end - TWO_64 by { assert 0 <= end + TWO_63 - TWO_64 < TWO_64; }
      }
    } else {
      assert lba * SECTOR > MAX_SECTORS * SECTOR;
    }
  }

  lemma SkipLengthAligned(sectors: int)
    ensures SkipLength(sectors) % SECTOR == 0
  {
    var x := Int64(sectors) * SECTOR;
    var q := (x - Int64(x)) / TWO_64;
    assert x - Int64(x) == q * TWO_64;
    assert Int64(x) == (Int64(sectors) - q * (TWO_64 / SECTOR)) * SECTOR;
  }

  /**
   The overhead skip is the one the header declares exactly when its byte length fits int64;
   otherwise the product wraps and the decoder reads markers from inside the overhead area.
   */
  lemma OverheadSkipExact(overHead: nat)
    requires overHead < TWO_64
    ensures OverheadLength(overHead) == (if overHead == 0 then 0 else (overHead - 1) * SECTOR)
       <==> overHead <= MAX_SECTORS + 1
  {
    if overHead <= MAX_SECTORS + 1 {
      assert Int64(overHead) == overHead;
      if overHead > 1 {
        assert 0 < (overHead - 1) * SECTOR <= MAX_INT64;
      }
    } else {
      assert (overHead - 1) * SECTOR > MAX_INT64;
    }
  }

  /** The same for the sector count of a metadata marker. */
  lemma MetadataSkipExact(sectors: nat)
    requires sectors < TWO_64
    ensures SkipLength(sectors) == sectors * SECTOR <==> sectors <= MAX_SECTORS
  {
    if sectors <= MAX_SECTORS {
      assert 0 <= sectors * SECTOR <= MAX_INT64;
    } else {
      assert sectors * SECTOR > MAX_INT64;
    }
  }

  // ---- Records against turns of the loop ----

  lemma ReadMarker(lba: nat, size: nat, rest: seq<Byte>)
    requires lba < TWO_64 && size < TWO_32
    ensures var s := Marker(lba, size) + rest;
            FromLE(s[..8]) == lba && FromLE(s[8..MARKER]) == size && s[MARKER..] == rest
  {
    Widths();
    FromLEToLE(lba, 8);
    FromLEToLE(size, 4);
    var s := Marker(lba, size) + rest;
    assert s[..8] == ToLE(lba, 8);
    assert s[8..MARKER] == ToLE(size, 4);
  }

  lemma MarkerRead(s: seq<Byte>)
    requires MARKER <= |s|
    ensures var lba := FromLE(s[..8]); var size := FromLE(s[8..MARKER]);
            lba < TWO_64 && size < TWO_32 && s == Marker(lba, size) + s[MARKER..]
  {
    Widths();
    FromLEBound(s[..8]);
    FromLEBound(s[8..MARKER]);
    ToLEFromLE(s[..8]);
    ToLEFromLE(s[8..MARKER]);
    assert s == s[..8] + s[8..MARKER] + s[MARKER..];
  }

  /** The step taken on a grain whose data is all there, whatever follows it. */
  lemma StepGrain(lba: nat, comp: seq<Byte>, after: seq<Byte>, p: Params, broken: bool)
    requires p.Valid() && ValidGrain(lba, comp, p)
    requires broken ==> PadLength(|comp|) <= |after|
    ensures var s := Marker(lba, |comp|) + (comp + after);
            StepOf(s, p, broken) ==
              Write(MARKER + |comp| + (if |after| < PadLength(|comp|) then |after| else PadLength(|comp|)),
                    GrainExtent(lba, comp, p))
  {
    var s := Marker(lba, |comp|) + (comp + after);
    var data := Payload(p.inflate(comp), p.grainBytes).value;
    PlaceExact(lba, |data|, p.totalBytes);
    ReadMarker(lba, |comp|, comp + after);
    assert s[MARKER..MARKER + |comp|] == comp;
    assert |s| == MARKER + |comp| + |after|;
  }

  /** The grain is not the whole of a sound zlib stream: it is cut, too long, or its checksum is wrong. */
  predicate Loose(inf: Inflated, p: Params)
  {
    inf.Inflated? && (|inf.out| > p.grainBytes || inf.end.Truncated? || (|inf.out| == p.grainBytes && inf.end.Corrupt?))
  }

  predicate InRange(lba: nat, len: nat, p: Params)
  {
    lba * SECTOR < p.totalBytes && lba * SECTOR + len <= p.totalBytes
  }

  /**
   The decoder is content with less than a zlib stream, and with more than a grain: what
   inflates is written as far as it goes or as a grain takes, and a whole grain without a
   look at the checksum behind it.
   */
  lemma LooseInflate(lba: nat, comp: seq<Byte>, after: seq<Byte>, p: Params, broken: bool)
    requires p.Valid() && 0 < |comp| <= p.Limit() && Loose(p.inflate(comp), p)
    requires broken ==> PadLength(|comp|) <= |after|
    requires var out := p.inflate(comp).out; InRange(lba, if |out| < p.grainBytes then |out| else p.grainBytes, p)
    ensures var out := p.inflate(comp).out;
            var step := StepOf(Marker(lba, |comp|) + (comp + after), p, broken);
            step.Write? && step.extent == Extent(lba * SECTOR, if |out| < p.grainBytes then out else out[..p.grainBytes])
  {
    var out := p.inflate(comp).out;
    assert out[..|out|] == out;
    StepGrain(lba, comp, after, p, broken);
  }

  /** Those are exactly the grains written that are not what a sound zlib stream holds. */
  lemma UnsoundGrainIff(lba: nat, comp: seq<Byte>, after: seq<Byte>, p: Params, broken: bool)
    requires p.Valid() && lba < TWO_64 && 0 < |comp| <= p.Limit()
    requires broken ==> PadLength(|comp|) <= |after|
    ensures var inf := p.inflate(comp);
            var step := StepOf(Marker(lba, |comp|) + (comp + after), p, broken);
            step.Write? && inf != Inflated(step.extent.data, Clean) <==>
              Loose(inf, p) && InRange(lba, if |inf.out| < p.grainBytes then |inf.out| else p.grainBytes, p)
  {
    hide Marker, PadLength, FromLE, Place, GrainLength;
    var inf := p.inflate(comp);
    var s := Marker(lba, |comp|) + (comp + after);
    if ValidGrain(lba, comp, p) {
      StepGrain(lba, comp, after, p, broken);
      assert inf.out[..|inf.out|] == inf.out;
    } else {
      ReadMarker(lba, |comp|, comp + after);
      assert s[MARKER..MARKER + |comp|] == comp;
      if Payload(inf, p.grainBytes).Some? {
        PlaceExact(lba, |Payload(inf, p.grainBytes).value|, p.totalBytes);
      }
    }
  }

  lemma StepMetadata(lba: nat, kind: nat, after: seq<Byte>, p: Params, broken: bool)
    requires lba < TWO_64 && 0 < kind < TWO_32
    requires SECTOR - META_MARKER + SkipLength(lba) <= |after|
    ensures var s := Marker(lba, 0) + (ToLE(kind, 4) + after);
            StepOf(s, p, broken) == Skip(SECTOR + SkipLength(lba))
  {
    var s := Marker(lba, 0) + (ToLE(kind, 4) + after);
    ReadMarker(lba, 0, ToLE(kind, 4) + after);
    Widths();
    FromLEToLE(kind, 4);
    assert s[MARKER..META_MARKER] == ToLE(kind, 4);
  }

  lemma StepRecord(r: Record, rest: seq<Byte>, p: Params, broken: bool)
    requires p.Valid() && ValidRecord(r, p)
    ensures RecordBytes(r) <= RecordBytes(r) + rest
    ensures (RecordBytes(r) + rest)[|RecordBytes(r)|..] == rest
    ensures StepOf(RecordBytes(r) + rest, p, broken) ==
              if r.Grain? then Write(|RecordBytes(r)|, GrainExtent(r.lba, r.comp, p)) else Skip(|RecordBytes(r)|)
  {
    hide StepOf, ValidGrain, Payload, Marker, PadLength, SkipLength, GrainExtent, ToLE;
    match r
    case Grain(lba, comp, pad) =>
      StepGrain(lba, comp, pad + rest, p, broken);
      assert RecordBytes(r) + rest == Marker(lba, |comp|) + (comp + (pad + rest));
    case Metadata(lba, kind, pad, body) =>
      StepMetadata(lba, kind, pad + body + rest, p, broken);
      assert RecordBytes(r) + rest == Marker(lba, 0) + (ToLE(kind, 4) + (pad + body + rest));
  }

  // ---- Completeness ----

  lemma {:induction false} DecodeRecords(rs: seq<Record>, rest: seq<Byte>, p: Params, broken: bool, cancelled: nat -> bool, k: nat)
    requires p.Valid() && AllValid(rs, p) && Never(cancelled)
    ensures var o := Decode(rest, p, broken, cancelled, k + |rs|);
            Decode(AllBytes(rs) + rest, p, broken, cancelled, k) == Outcome(RecordExtents(rs, p) + o.extents, o.end)
    decreases |rs|
  {
    hide StepOf, RecordBytes, ValidGrain, Payload, PadLength, SkipLength, GrainExtent, Decode;
    if rs == [] {
      assert AllBytes(rs) + rest == rest;
    } else {
      var after := AllBytes(rs[1..]) + rest;
      assert AllBytes(rs) + rest == RecordBytes(rs[0]) + after;
      DecodeRecord(rs[0], after, p, broken, cancelled, k);
      DecodeRecords(rs[1..], rest, p, broken, cancelled, k + 1);
      var o := Decode(rest, p, broken, cancelled, k + |rs|);
      if rs[0].Grain? {
        assert [GrainExtent(rs[0].lba, rs[0].comp, p)] + (RecordExtents(rs[1..], p) + o.extents) == RecordExtents(rs, p) + o.extents;
      }
    }
  }

  /** Decoding goes on behind a record, whose extent comes first if it is a grain. */
  lemma DecodeRecord(r: Record, after: seq<Byte>, p: Params, broken: bool, cancelled: nat -> bool, k: nat)
    requires p.Valid() && ValidRecord(r, p) && Never(cancelled)
    ensures var o := Decode(after, p, broken, cancelled, k + 1);
            Decode(RecordBytes(r) + after, p, broken, cancelled, k)
            == if r.Grain? then Prepend(GrainExtent(r.lba, r.comp, p), o) else o
  {
    hide StepOf, RecordBytes, ValidRecord, ValidGrain, Payload, PadLength, SkipLength, GrainExtent;
    StepRecord(r, after, p, broken);
  }

  lemma DecodeTail(t: Tail, p: Params, broken: bool, cancelled: nat -> bool, k: nat)
    requires p.Valid() && ValidTail(t, p, broken) && Never(cancelled)
    ensures Decode(TailBytes(t), p, broken, cancelled, k) == Outcome(TailExtents(t, p, broken), Finished)
  {
    match t
    case EndMarker(lba, rest) =>
      ReadMarker(lba, 0, ToLE(0, 4) + rest);
      FromLEToLE(0, 4);
      assert TailBytes(t)[MARKER..META_MARKER] == ToLE(0, 4);
    case CutMarker(bytes) =>
    case CutType(lba, bytes) =>
      ReadMarker(lba, 0, bytes);
    case CutPadding(lba, comp, pad) =>
      StepGrain(lba, comp, pad, p, broken);
      var s := TailBytes(t);
      assert StepOf(s, p, broken) == Write(|s|, GrainExtent(lba, comp, p));
      assert s[|s|..] == [];
      DecodeNothing(p, cancelled, k + 1);
  }

  // ---- Soundness ----

  lemma MetadataStepReads(s: seq<Byte>, p: Params, broken: bool) returns (r: Record)
    requires StepOf(s, p, broken).Skip?
    ensures var n := StepOf(s, p, broken).n;
            r.Metadata? && ValidRecord(r, p) && s == RecordBytes(r) + s[n..] && |RecordBytes(r)| == n
  {
    hide FromLE, ToLE, Payload, PadLength;
    var lba, kind := FromLE(s[..8]), FromLE(s[MARKER..META_MARKER]);
    var n := StepOf(s, p, broken).n;
    MarkerRead(s);
    Widths();
    FromLEBound(s[MARKER..META_MARKER]);
    ToLEFromLE(s[MARKER..META_MARKER]);
    r := Metadata(lba, kind, s[META_MARKER..SECTOR], s[SECTOR..n]);
    assert s[MARKER..] == ToLE(kind, 4) + (s[META_MARKER..SECTOR] + s[SECTOR..n]) + s[n..];
    assert s == RecordBytes(r) + s[n..];
  }

  lemma GrainStepReads(s: seq<Byte>, p: Params, broken: bool) returns (r: Record)
    requires p.Valid() && StepOf(s, p, broken).Write?
    ensures var t := StepOf(s, p, broken);
            && r.Grain? && s == RecordBytes(r) + s[t.n..] && |RecordBytes(r)| == t.n
            && ValidGrain(r.lba, r.comp, p) && t.extent == GrainExtent(r.lba, r.comp, p)
            && (|r.pad| == PadLength(|r.comp|) || (!broken && t.n == |s| && |r.pad| < PadLength(|r.comp|)))
  {
    hide FromLE, ToLE, Payload, PadLength, Place;
    var lba, size := FromLE(s[..8]), FromLE(s[8..MARKER]);
    var n := StepOf(s, p, broken).n;
    MarkerRead(s);
    var comp := s[MARKER..MARKER + size];
    PlaceExact(lba, |Payload(p.inflate(comp), p.grainBytes).value|, p.totalBytes);
    r := Grain(lba, comp, s[MARKER + size..n]);
    assert s[MARKER..] == comp + s[MARKER + size..n] + s[n..];
    assert s == RecordBytes(r) + s[n..];
  }

  /** The step that ends the loop without an error read a valid tail. */
  lemma StopReads(s: seq<Byte>, p: Params, broken: bool) returns (t: Tail)
    requires StepOf(s, p, broken).Stop?
    ensures ValidTail(t, p, broken) && !t.CutPadding? && s == TailBytes(t)
  {
    if |s| < MARKER {
      t := CutMarker(s);
    } else {
      var lba := FromLE(s[..8]);
      MarkerRead(s);
      if |s| < META_MARKER {
        t := CutType(lba, s[MARKER..]);
      } else {
        ToLEFromLE(s[MARKER..META_MARKER]);
        t := EndMarker(lba, s[META_MARKER..]);
        assert s[MARKER..] == s[MARKER..META_MARKER] + s[META_MARKER..];
      }
    }
  }

  lemma Cons(r: Record, rs: seq<Record>, p: Params, t: Tail, broken: bool, s: seq<Byte>, rest: seq<Byte>)
    requires ReadsAs(rest, rs, t, p, broken) && ValidRecord(r, p) && s == RecordBytes(r) + rest
    ensures ReadsAs(s, [r] + rs, t, p, broken)
  {
    hide RecordBytes, ValidRecord, TailBytes, ValidTail;
    assert ([r] + rs)[1..] == rs;
    assert AllBytes([r] + rs) + TailBytes(t) == RecordBytes(r) + (AllBytes(rs) + TailBytes(t));
  }

  lemma {:induction false} ParseAccepted(s: seq<Byte>, p: Params, broken: bool, cancelled: nat -> bool, k: nat)
    returns (rs: seq<Record>, t: Tail)
    requires p.Valid() && Never(cancelled)
    requires Decode(s, p, broken, cancelled, k).end == Finished
    ensures ReadsAs(s, rs, t, p, broken)
    decreases |s|
  {
    hide StepOf, ValidGrain, Payload, PadLength, Marker;
    var step := StepOf(s, p, broken);
    match step
    case Stop =>
      t := StopReads(s, p, broken);
      rs := [];
    case Fail(_) =>
    case Skip(n) =>
      var r := MetadataStepReads(s, p, broken);
      rs, t := ParseAccepted(s[n..], p, broken, cancelled, k + 1);
      Cons(r, rs, p, t, broken, s, s[n..]);
      rs := [r] + rs;
    case Write(n, _) =>
      var r := GrainStepReads(s, p, broken);
      if |r.pad| == PadLength(|r.comp|) {
        rs, t := ParseAccepted(s[n..], p, broken, cancelled, k + 1);
        Cons(r, rs, p, t, broken, s, s[n..]);
        rs := [r] + rs;
      } else {
        rs, t := [], CutPadding(r.lba, r.comp, r.pad);
        assert s == AllBytes(rs) + TailBytes(t);
      }
  }

  // ---- Main results on the body ----

  /**
   The decoder finishes exactly on the strings of the grammar, and whatever way a string reads
   as records and a tail, the writes issued are the ones those records stand for, in order.
   */
  lemma FinishesIffReads(s: seq<Byte>, p: Params, broken: bool, cancelled: nat -> bool, k: nat)
    requires p.Valid() && Never(cancelled)
    ensures Decode(s, p, broken, cancelled, k).end == Finished <==> exists rs, t :: ReadsAs(s, rs, t, p, broken)
    ensures forall rs, t | ReadsAs(s, rs, t, p, broken) ::
              Decode(s, p, broken, cancelled, k).extents == RecordExtents(rs, p) + TailExtents(t, p, broken)
  {
    hide Decode, RecordBytes, TailBytes, ValidRecord, ValidTail;
    var o := Decode(s, p, broken, cancelled, k);
    if o.end == Finished {
      var rs, t := ParseAccepted(s, p, broken, cancelled, k);
    }
    forall rs, t | ReadsAs(s, rs, t, p, broken)
      ensures o == Outcome(RecordExtents(rs, p) + TailExtents(t, p, broken), Finished)
    {
      DecodeRecords(rs, TailBytes(t), p, broken, cancelled, k);
      DecodeTail(t, p, broken, cancelled, k + |rs|);
    }
  }

  /** Over a failing connection the decoder finishes only if it has read an end marker. */
  lemma BrokenFinishesAtEndMarker(s: seq<Byte>, p: Params, cancelled: nat -> bool, k: nat)
    requires p.Valid() && Never(cancelled)
    ensures Decode(s, p, true, cancelled, k).end == Finished
       <==> exists rs, lba, rest :: ReadsAs(s, rs, EndMarker(lba, rest), p, true)
  {
    FinishesIffReads(s, p, true, cancelled, k);
    if Decode(s, p, true, cancelled, k).end == Finished {
      var rs, t := ParseAccepted(s, p, true, cancelled, k);
      assert ReadsAs(s, rs, EndMarker(t.lba, t.rest), p, true);
    }
  }

  // ---- Truncation ----

  /** The writes of the grains whose data ends within the first n bytes of the records. */
  function Kept(rs: seq<Record>, n: nat, p: Params): seq<Extent>
    requires AllValid(rs, p)
    decreases |rs|
  {
    if rs == [] then []
    else
      var len := |RecordBytes(rs[0])|;
      var next := if n < len then [] else Kept(rs[1..], n - len, p);
      match rs[0]
      case Grain(lba, comp, _) => if n < MARKER + |comp| then [] else [GrainExtent(lba, comp, p)] + next
      case Metadata(_, _, _, _) => next
  }

  /** The cut falls where the decoder takes the end of input for the end of the stream. */
  predicate QuietCut(rs: seq<Record>, n: nat)
  {
    rs == [] ||
    var len := |RecordBytes(rs[0])|;
    if n >= len then QuietCut(rs[1..], n - len)
    else n < MARKER || (if rs[0].Grain? then MARKER + |rs[0].comp| <= n else n < META_MARKER)
  }

  lemma DecodeNothing(p: Params, cancelled: nat -> bool, k: nat)
    requires Never(cancelled)
    ensures Decode([], p, false, cancelled, k) == Outcome([], Finished)
  {
  }

  lemma CutStep(r: Record, n: nat, p: Params, cancelled: nat -> bool, k: nat)
    requires p.Valid() && ValidRecord(r, p) && Never(cancelled) && n < |RecordBytes(r)|
    ensures var o := Decode(RecordBytes(r)[..n], p, false, cancelled, k);
            && (o.end == Finished <==> QuietCut([r], n))
            && o.extents == Kept([r], n, p)
  {
    assert [r][1..] == [];
    if n >= MARKER {
      if r.Grain? {
        CutGrain(r, n, p, cancelled, k);
      } else {
        CutMetadata(r, n, p, cancelled, k);
      }
    }
  }

  lemma CutGrain(r: Record, n: nat, p: Params, cancelled: nat -> bool, k: nat)
    requires p.Valid() && ValidRecord(r, p) && r.Grain? && Never(cancelled) && MARKER <= n < |RecordBytes(r)|
    ensures var o := Decode(RecordBytes(r)[..n], p, false, cancelled, k);
            && (o.end == Finished <==> MARKER + |r.comp| <= n)
            && o.extents == if n < MARKER + |r.comp| then [] else [GrainExtent(r.lba, r.comp, p)]
  {
    var s := RecordBytes(r)[..n];
    var lba, comp, pad := r.lba, r.comp, r.pad;
    if MARKER + |comp| <= n {
      assert s == TailBytes(CutPadding(lba, comp, pad[..n - MARKER - |comp|]));
      DecodeTail(CutPadding(lba, comp, pad[..n - MARKER - |comp|]), p, false, cancelled, k);
    } else {
      ReadMarker(lba, |comp|, comp[..n - MARKER]);
      assert s == Marker(lba, |comp|) + comp[..n - MARKER];
    }
  }

  lemma CutMetadata(r: Record, n: nat, p: Params, cancelled: nat -> bool, k: nat)
    requires p.Valid() && ValidRecord(r, p) && r.Metadata? && Never(cancelled) && MARKER <= n < |RecordBytes(r)|
    ensures var o := Decode(RecordBytes(r)[..n], p, false, cancelled, k);
            (o.end == Finished <==> n < META_MARKER) && o.extents == []
  {
    var s := RecordBytes(r)[..n];
    var all := ToLE(r.kind, 4) + (r.pad + r.body);
    assert s == Marker(r.lba, 0) + all[..n - MARKER];
    ReadMarker(r.lba, 0, all[..n - MARKER]);
    if META_MARKER <= n {
      Widths();
      FromLEToLE(r.kind, 4);
      assert s[MARKER..META_MARKER] == ToLE(r.kind, 4);
    }
  }

  /**
   Cutting a stream of records anywhere leaves exactly the grains complete before the cut (a
   grain cut only in its padding is complete), and the decoder reports an error exactly when
   the cut is not one it takes for an end.
   */
  lemma {:induction false} TruncatedRecords(rs: seq<Record>, n: nat, p: Params, cancelled: nat -> bool, k: nat)
    requires p.Valid() && AllValid(rs, p) && Never(cancelled) && n <= |AllBytes(rs)|
    ensures var o := Decode(AllBytes(rs)[..n], p, false, cancelled, k);
            && o.extents == Kept(rs, n, p)
            && (o.end == Finished <==> QuietCut(rs, n))
    decreases |rs|
  {
    hide StepOf, RecordBytes, ValidGrain, Payload, PadLength, SkipLength;
    if rs == [] {
      DecodeNothing(p, cancelled, k);
    } else {
      var len := |RecordBytes(rs[0])|;
      if n < len {
        assert AllBytes(rs)[..n] == RecordBytes(rs[0])[..n];
        CutStep(rs[0], n, p, cancelled, k);
      } else {
        var rest := AllBytes(rs[1..])[..n - len];
        assert AllBytes(rs)[..n] == RecordBytes(rs[0]) + rest;
        StepRecord(rs[0], rest, p, false);
        TruncatedRecords(rs[1..], n - len, p, cancelled, k + 1);
      }
    }
  }

  /** What is kept of the first n bytes is a prefix of what all the records stand for. */
  lemma {:induction false} KeptIsPrefix(rs: seq<Record>, n: nat, p: Params)
    requires AllValid(rs, p)
    ensures Kept(rs, n, p) <= RecordExtents(rs, p)
    ensures n >= |AllBytes(rs)| ==> Kept(rs, n, p) == RecordExtents(rs, p)
    decreases |rs|
  {
    hide RecordBytes, ValidGrain, Payload, PadLength, SkipLength;
    if rs != [] {
      var len := |RecordBytes(rs[0])|;
      if n >= len {
        KeptIsPrefix(rs[1..], n - len, p);
      }
    }
  }
}
