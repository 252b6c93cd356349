/** What a decoded VMDK leaves on its target, and where the decoder looks for markers. */
module VmdkTarget {
  import opened Bytes
  import opened Results
  import opened VmdkFormat
  import opened VmdkGrammar

  // ---- Marker positions ----

  /** The offsets at which the loop reads a marker, for a body that starts at offset at. */
  function MarkerOffsets(s: seq<Byte>, p: Params, broken: bool, cancelled: nat -> bool, k: nat, at: nat): seq<nat>
    decreases |s|
  {
    if cancelled(k) then []
    else
      [at] +
      match StepOf(s, p, broken)
      case Stop => []
      case Fail(_) => []
      case Skip(n) => MarkerOffsets(s[n..], p, broken, cancelled, k + 1, at + n)
      case Write(n, _) => MarkerOffsets(s[n..], p, broken, cancelled, k + 1, at + n)
  }

  lemma StepAligned(s: seq<Byte>, p: Params, broken: bool)
    requires var t := StepOf(s, p, broken); t.Skip? || t.Write?
    ensures var n := StepOf(s, p, broken).n; n % SECTOR == 0 || n == |s|
  {
    if MARKER <= |s| {
      SkipLengthAligned(FromLE(s[..8]));
    }
  }

  /** On any input, every marker is read at a sector boundary or at the end of the input. */
  lemma {:induction false} MarkersAligned(s: seq<Byte>, p: Params, broken: bool, cancelled: nat -> bool, k: nat, at: nat)
    requires at % SECTOR == 0 || s == []
    ensures forall m <- MarkerOffsets(s, p, broken, cancelled, k, at) :: m % SECTOR == 0 || m == at + |s|
    decreases |s|
  {
    hide StepOf;
    var t := StepOf(s, p, broken);
    if !cancelled(k) && (t.Skip? || t.Write?) {
      StepAligned(s, p, broken);
      MarkersAligned(s[t.n..], p, broken, cancelled, k + 1, at + t.n);
    }
  }

  /** The first marker of a stream is read right after a skip of whole sectors. */
  lemma FirstMarkerAligned(overHead: nat)
    ensures (SECTOR + OverheadLength(overHead)) % SECTOR == 0
  {
    SkipLengthAligned(Int64(Int64(overHead) - 1));
  }

  // ---- Writes stay inside the capacity ----

  predicate Inside(e: Extent, p: Params)
  {
    e.off < p.totalBytes && e.off + |e.data| <= p.totalBytes && |e.data| <= p.grainBytes
  }

  lemma StepInside(s: seq<Byte>, p: Params, broken: bool)
    requires p.Valid() && StepOf(s, p, broken).Write?
    ensures Inside(StepOf(s, p, broken).extent, p)
  {
    var lba, size := FromLE(s[..8]), FromLE(s[8..MARKER]);
    var data := Payload(p.inflate(s[MARKER..MARKER + size]), p.grainBytes).value;
    PlaceExact(lba, |data|, p.totalBytes);
  }

  /** Whatever the input, no write the decoder issues leaves the declared capacity. */
  lemma {:induction false} WritesInsideCapacity(s: seq<Byte>, p: Params, broken: bool, cancelled: nat -> bool, k: nat)
    requires p.Valid()
    ensures forall e <- Decode(s, p, broken, cancelled, k).extents :: Inside(e, p)
    decreases |s|
  {
    hide StepOf;
    if !cancelled(k) {
      match StepOf(s, p, broken)
      case Stop =>
      case Fail(_) =>
      case Skip(n) => WritesInsideCapacity(s[n..], p, broken, cancelled, k + 1);
      case Write(n, e) =>
        StepInside(s, p, broken);
        WritesInsideCapacity(s[n..], p, broken, cancelled, k + 1);
    }
  }

  // ---- The image is decided by the last write over each byte ----

  function LastByte(es: seq<Extent>, o: nat): Option<Byte>
    decreases |es|
  {
    if es == [] then None
    else
      var e := es[|es| - 1];
      if e.Covers(o) then Some(e.data[o - e.off]) else LastByte(es[..|es| - 1], o)
  }

  lemma {:induction false} ImageIsLastByte(img: Image, es: seq<Extent>, o: nat)
    ensures o in PaintAll(img, es) <==> o in img || LastByte(es, o).Some?
    ensures o in PaintAll(img, es) ==>
              PaintAll(img, es)[o] == if LastByte(es, o).Some? then LastByte(es, o).value else img[o]
    decreases |es|
  {
    if es != [] {
      var init, e := es[..|es| - 1], es[|es| - 1];
      assert es == init + [e];
      PaintAllAppend(img, init, [e]);
      assert [e][1..] == [];
      assert PaintAll(img, es) == Paint(PaintAll(img, init), e);
      ImageIsLastByte(img, init, o);
    }
  }

  /** What a reader of the target sees at offset o, given what the target held before. */
  function View(img: Image, base: nat -> Byte, o: nat): Byte
  {
    if o in img then img[o] else base(o)
  }

  predicate Covered(es: seq<Extent>, o: nat)
  {
    exists i :: 0 <= i < |es| && es[i].Covers(o)
  }

  /** Every write puts down bytes of the disk at their own place. */
  predicate Agrees(es: seq<Extent>, disk: seq<Byte>)
  {
    forall i :: 0 <= i < |es| ==>
      es[i].off + |es[i].data| <= |disk| && es[i].data == disk[es[i].off..es[i].off + |es[i].data|]
  }

  lemma {:induction false} LastByteOfDisk(es: seq<Extent>, disk: seq<Byte>, o: nat)
    requires Agrees(es, disk) && o < |disk|
    ensures LastByte(es, o) == if Covered(es, o) then Some(disk[o]) else None
    decreases |es|
  {
    if es != [] {
      var init, e := es[..|es| - 1], es[|es| - 1];
      if e.Covers(o) {
        assert es[|es| - 1].Covers(o);
      } else {
        LastByteOfDisk(init, disk, o);
        if Covered(es, o) {
          var i :| 0 <= i < |es| && es[i].Covers(o);
          assert init[i].Covers(o);
        }
        if Covered(init, o) {
          var i :| 0 <= i < |init| && init[i].Covers(o);
          assert es[i].Covers(o);
        }
      }
    }
  }

  /**
   Writes that agree with a disk reproduce it exactly when the target already held the
   disk's bytes wherever nothing was written.
   */
  lemma ReproducesIff(es: seq<Extent>, disk: seq<Byte>, base: nat -> Byte)
    requires Agrees(es, disk)
    ensures (forall o :: 0 <= o < |disk| ==> View(PaintAll(map[], es), base, o) == disk[o])
       <==> (forall o :: 0 <= o < |disk| && !Covered(es, o) ==> base(o) == disk[o])
  {
    forall o | 0 <= o < |disk|
      ensures View(PaintAll(map[], es), base, o) == if Covered(es, o) then disk[o] else base(o)
    {
      ImageIsLastByte(map[], es, o);
      LastByteOfDisk(es, disk, o);
    }
  }

  // ---- A whole disk through the format ----

  predicate AllZero(s: seq<Byte>)
  {
    forall i :: 0 <= i < |s| ==> s[i] == 0
  }

  function Zeros(n: nat): (s: seq<Byte>)
    ensures |s| == n
  {
    seq(n, _ => 0)
  }

  /** compress undoes inflate, and does not blow a grain up past the marker limit. */
  ghost predicate Codec(p: Params, compress: seq<Byte> -> seq<Byte>)
  {
    forall d: seq<Byte> :: 0 < |d| <= p.grainBytes ==>
      p.inflate(compress(d)) == Inflated(d, Clean) && 0 < |compress(d)| <= p.Limit()
  }

  /** The grain of the disk that starts at offset at. */
  function Chunk(disk: seq<Byte>, at: nat, p: Params): seq<Byte>
    requires at <= |disk|
  {
    disk[at..if at + p.grainBytes <= |disk| then at + p.grainBytes else |disk|]
  }

  /** The records of a sparse export of the disk from offset at on: zero grains are left out. */
  function DiskRecords(disk: seq<Byte>, at: nat, p: Params, compress: seq<Byte> -> seq<Byte>): seq<Record>
    requires p.Valid()
    decreases |disk| - at
  {
    if at >= |disk| then []
    else
      var chunk := Chunk(disk, at, p);
      var rest := DiskRecords(disk, at + p.grainBytes, p, compress);
      if AllZero(chunk) then rest
      else [Grain(at / SECTOR, compress(chunk), Zeros(PadLength(|compress(chunk)|)))] + rest
  }

  lemma ConsCovered(e: Extent, es: seq<Extent>, o: nat)
    ensures Covered([e] + es, o) <==> e.Covers(o) || Covered(es, o)
  {
    var all := [e] + es;
    assert all[0] == e;
    if Covered(es, o) {
      var i :| 0 <= i < |es| && es[i].Covers(o);
      assert all[i + 1].Covers(o);
    }
    if Covered(all, o) {
      var i :| 0 <= i < |all| && all[i].Covers(o);
      assert i > 0 ==> es[i - 1].Covers(o);
    }
  }

  lemma ChunkGrainValid(disk: seq<Byte>, at: nat, p: Params, compress: seq<Byte> -> seq<Byte>)
    requires p.Valid() && Codec(p, compress) && |disk| == p.totalBytes
    requires at % SECTOR == 0 && at < |disk|
    ensures var chunk := Chunk(disk, at, p);
            ValidGrain(at / SECTOR, compress(chunk), p)
            && GrainExtent(at / SECTOR, compress(chunk), p) == Extent(at, chunk)
  {
    var chunk := Chunk(disk, at, p);
    assert p.inflate(compress(chunk)) == Inflated(chunk, Clean);
    assert chunk[..|chunk|] == chunk;
    assert at / SECTOR * SECTOR == at;
  }

  lemma {:induction false} DiskRecordsAgree(disk: seq<Byte>, at: nat, p: Params, compress: seq<Byte> -> seq<Byte>)
    requires p.Valid() && Codec(p, compress) && |disk| == p.totalBytes
    requires at % SECTOR == 0 && p.grainBytes % SECTOR == 0
    ensures var rs := DiskRecords(disk, at, p, compress);
            && AllValid(rs, p)
            && Agrees(RecordExtents(rs, p), disk)
            && forall o :: at <= o < |disk| && !Covered(RecordExtents(rs, p), o) ==> disk[o] == 0
    decreases |disk| - at
  {
    hide Codec, Covered, AllValid, AllZero, RecordExtents, DiskRecords, Agrees;
    NoRecords(p);
    if at >= |disk| {
      assert DiskRecords(disk, at, p, compress) == [] by { NoDiskRecords(disk, at, p, compress); }
    } else {
      var next := at + p.grainBytes;
      DiskRecordsAgree(disk, next, p, compress);
      DiskRecordsStep(disk, at, p, compress);
      var chunk := Chunk(disk, at, p);
      var tail := RecordExtents(DiskRecords(disk, next, p, compress), p);
      assert forall o :: at <= o < |disk| && o < next ==> disk[o] == chunk[o - at];
      if AllZero(chunk) {
        ZeroAt(chunk);
      } else {
        AgreesCons(Extent(at, chunk), tail, disk);
        forall o: nat | at <= o < |disk| && !Covered([Extent(at, chunk)] + tail, o) ensures next <= o && !Covered(tail, o) {
          ConsCovered(Extent(at, chunk), tail, o);
        }
      }
    }
  }

  lemma NoRecords(p: Params)
    ensures AllValid([], p) && RecordExtents([], p) == [] && forall disk :: Agrees([], disk)
  {
  }

  lemma NoDiskRecords(disk: seq<Byte>, at: nat, p: Params, compress: seq<Byte> -> seq<Byte>)
    requires p.Valid() && at >= |disk|
    ensures DiskRecords(disk, at, p, compress) == []
  {
  }

  lemma ZeroAt(chunk: seq<Byte>)
    requires AllZero(chunk)
    ensures forall i :: 0 <= i < |chunk| ==> chunk[i] == 0
  {
  }

  lemma AgreesCons(e: Extent, es: seq<Extent>, disk: seq<Byte>)
    requires Agrees(es, disk) && e.off + |e.data| <= |disk| && e.data == disk[e.off..e.off + |e.data|]
    ensures Agrees([e] + es, disk)
  {
  }

  /** A chunk of zeros makes no record; any other makes a valid one that stands for it. */
  lemma DiskRecordsStep(disk: seq<Byte>, at: nat, p: Params, compress: seq<Byte> -> seq<Byte>)
    requires p.Valid() && Codec(p, compress) && |disk| == p.totalBytes && at % SECTOR == 0 && at < |disk|
    requires AllValid(DiskRecords(disk, at + p.grainBytes, p, compress), p)
    ensures var rest := DiskRecords(disk, at + p.grainBytes, p, compress);
            var rs, chunk := DiskRecords(disk, at, p, compress), Chunk(disk, at, p);
            if AllZero(chunk) then rs == rest
            else
              && AllValid(rs, p)
              && RecordExtents(rs, p) == [Extent(at, chunk)] + RecordExtents(rest, p)
  {
    hide ValidGrain, Codec, PadLength, GrainExtent, SkipLength, Payload, AllZero, Chunk;
    var rs, chunk := DiskRecords(disk, at, p, compress), Chunk(disk, at, p);
    if !AllZero(chunk) {
      ChunkGrainValid(disk, at, p, compress);
      assert rs[1..] == DiskRecords(disk, at + p.grainBytes, p, compress);
    }
  }

  /** A header followed by an overhead area of the declared length leaves the body to Decode. */
  lemma StreamIsDecode(h: seq<Byte>, over: seq<Byte>, body: seq<Byte>, p: Params, broken: bool, cancelled: nat -> bool)
    requires |h| == SECTOR && ParseHeader(h, p.inflate) == Success((p, |over|))
    ensures Stream(h + over + body, broken, p.inflate, cancelled) == Decode(body, p, broken, cancelled, 0)
  {
    var data := h + over + body;
    assert data[..SECTOR] == h;
    assert data[SECTOR + |over|..] == body;
  }

  /**
   A whole stream cut anywhere: in the header or the overhead area it is an error and writes
   nothing; in the records it is as TruncatedRecords says; and once they are complete it
   makes no difference where in the end marker, or behind it, the cut is.
   */
  lemma CutStream(h: seq<Byte>, over: seq<Byte>, rs: seq<Record>, lba: nat, rest: seq<Byte>, n: nat, p: Params, cancelled: nat -> bool)
    requires |h| == SECTOR && ParseHeader(h, p.inflate) == Success((p, |over|))
    requires p.Valid() && AllValid(rs, p) && lba < TWO_64 && Never(cancelled)
    requires n <= |h + over + (AllBytes(rs) + TailBytes(EndMarker(lba, rest)))|
    ensures var o := Stream((h + over + (AllBytes(rs) + TailBytes(EndMarker(lba, rest))))[..n], false, p.inflate, cancelled);
            if n < SECTOR then o == Outcome([], Failed(ReadHeader))
            else if n < SECTOR + |over| then o == Outcome([], Failed(SkipOverhead))
            else
              var m := n - SECTOR - |over|;
              o.extents == Kept(rs, m, p) && (o.end == Finished <==> QuietCut(rs, m))
  {
    hide Decode, ParseHeader, TailBytes, AllBytes, Kept, QuietCut;
    var tail := TailBytes(EndMarker(lba, rest));
    var data := h + over + (AllBytes(rs) + tail);
    if SECTOR <= n {
      assert data[..n][..SECTOR] == h;
      if SECTOR + |over| <= n {
        var m := n - SECTOR - |over|;
        var body := (AllBytes(rs) + tail)[..m];
        assert data[..n] == h + over + body;
        StreamIsDecode(h, over, body, p, false, cancelled);
        CutBody(rs, lba, rest, m, p, cancelled);
      }
    }
  }

  lemma CutBody(rs: seq<Record>, lba: nat, rest: seq<Byte>, m: nat, p: Params, cancelled: nat -> bool)
    requires p.Valid() && AllValid(rs, p) && lba < TWO_64 && Never(cancelled)
    requires m <= |AllBytes(rs) + TailBytes(EndMarker(lba, rest))|
    ensures var o := Decode((AllBytes(rs) + TailBytes(EndMarker(lba, rest)))[..m], p, false, cancelled, 0);
            o.extents == Kept(rs, m, p) && (o.end == Finished <==> QuietCut(rs, m))
  {
    hide Decode, TailBytes, AllBytes, Kept, QuietCut;
    var tail := TailBytes(EndMarker(lba, rest));
    var all := AllBytes(rs);
    if m <= |all| {
      assert (all + tail)[..m] == all[..m];
      TruncatedRecords(rs, m, p, cancelled, 0);
    } else {
      var t := CutEndMarker(lba, rest, m - |all|, p);
      assert (all + tail)[..m] == all + TailBytes(t);
      DecodeRecords(rs, TailBytes(t), p, false, cancelled, 0);
      DecodeTail(t, p, false, cancelled, |rs|);
      KeptIsPrefix(rs, m, p);
      QuietWhenComplete(rs, m);
    }
  }

  /** An end marker cut anywhere is one of the tails. */
  lemma CutEndMarker(lba: nat, rest: seq<Byte>, n: nat, p: Params) returns (t: Tail)
    requires lba < TWO_64 && n <= |TailBytes(EndMarker(lba, rest))|
    ensures ValidTail(t, p, false) && !t.CutPadding? && TailBytes(t) == TailBytes(EndMarker(lba, rest))[..n]
  {
    hide Marker, ToLE;
    var m, body := Marker(lba, 0), ToLE(0, 4) + rest;
    if n < MARKER {
      t := CutMarker(m[..n]);
      assert (m + body)[..n] == m[..n];
    } else if n < META_MARKER {
      t := CutType(lba, body[..n - MARKER]);
      assert (m + body)[..n] == m + body[..n - MARKER];
    } else {
      t := EndMarker(lba, rest[..n - META_MARKER]);
      assert body[..n - MARKER] == ToLE(0, 4) + rest[..n - META_MARKER];
      assert (m + body)[..n] == m + body[..n - MARKER];
    }
  }

  lemma {:induction false} QuietWhenComplete(rs: seq<Record>, n: nat)
    requires |AllBytes(rs)| <= n
    ensures QuietCut(rs, n)
    decreases |rs|
  {
    if rs != [] {
      QuietWhenComplete(rs[1..], n - |RecordBytes(rs[0])|);
    }
  }

  /**
   Exporting a disk sparsely and decoding the stream reproduces the disk, on a target that
   held zeros wherever a zero grain was left out, and on no other target.
   */
  lemma DiskRoundTrip(disk: seq<Byte>, h: seq<Byte>, over: seq<Byte>, p: Params, compress: seq<Byte> -> seq<Byte>,
                      cancelled: nat -> bool, base: nat -> Byte)
    requires |h| == SECTOR && ParseHeader(h, p.inflate) == Success((p, |over|))
    requires p.Valid() && Codec(p, compress) && Never(cancelled)
    requires |disk| == p.totalBytes && p.grainBytes % SECTOR == 0
    ensures var rs := DiskRecords(disk, 0, p, compress);
            var o := Stream(h + over + (AllBytes(rs) + TailBytes(EndMarker(0, []))), false, p.inflate, cancelled);
            && o.end == Finished
            && ((forall i :: 0 <= i < |disk| ==> View(PaintAll(map[], o.extents), base, i) == disk[i])
                <==> (forall i :: 0 <= i < |disk| && !Covered(o.extents, i) ==> base(i) == 0))
  {
    var rs := DiskRecords(disk, 0, p, compress);
    var body := AllBytes(rs) + TailBytes(EndMarker(0, []));
    DiskRecordsAgree(disk, 0, p, compress);
    StreamIsDecode(h, over, body, p, false, cancelled);
    FinishesIffReads(body, p, false, cancelled, 0);
    assert ReadsAs(body, rs, EndMarker(0, []), p, false);
    var es := RecordExtents(rs, p);
    assert es + [] == es;
    ReproducesIff(es, disk, base);
  }

  /** A header that declares the given sizes, with the header sector as the whole overhead. */
  function MakeHeader(capacity: nat, grain: nat): (h: seq<Byte>)
    ensures |h| == SECTOR
  {
    ToLE(MAGIC, 4) + ToLE(3, 4) + Zeros(4) + ToLE(capacity, 8) + ToLE(grain, 8) + Zeros(36) + ToLE(1, 8) + Zeros(440)
  }

  /** The decoder reads back what a header declares, and its grains are whole sectors. */
  lemma MadeHeaderParses(capacity: nat, grain: nat, inflate: Inflate)
    requires capacity <= MAX_SECTORS && 0 < grain * SECTOR <= MAX_GRAIN_BYTES
    ensures ParseHeader(MakeHeader(capacity, grain), inflate) ==
              Success((Params(inflate, grain * SECTOR, capacity * SECTOR), 0))
  {
    hide FromLE, ToLE, OverheadLength;
    var h := MakeHeader(capacity, grain);
    Widths();
    assert OverheadLength(1) == 0 by { OverheadSkipExact(1); }
    assert h[0..4] == ToLE(MAGIC, 4);
    assert h[4..8] == ToLE(3, 4);
    assert h[12..20] == ToLE(capacity, 8);
    assert h[20..28] == ToLE(grain, 8);
    assert h[64..72] == ToLE(1, 8);
    FromLEToLE(MAGIC, 4);
    FromLEToLE(3, 4);
    FromLEToLE(capacity, 8);
    FromLEToLE(grain, 8);
    FromLEToLE(1, 8);
  }

  // ---- The length of a file target ----

  /** The length of a file that was empty before these writes. A write of nothing extends nothing. */
  function FileLength(es: seq<Extent>): nat
  {
    if es == [] then 0
    else
      var rest := FileLength(es[1..]);
      var end := es[0].off + |es[0].data|;
      if es[0].data != [] && end > rest then end else rest
  }

  /**
   The decoder never sets the length of a file target, so the file has the length of the
   disk exactly when some write reaches the disk's last byte (or the disk is empty).
   */
  lemma {:induction false} FileLengthIsCapacityIff(es: seq<Extent>, total: nat)
    requires forall e <- es :: e.off + |e.data| <= total
    ensures FileLength(es) <= total
    ensures FileLength(es) == total <==> total == 0 || Covered(es, total - 1)
  {
    if es != [] {
      FileLengthIsCapacityIff(es[1..], total);
      if total > 0 {
        assert es == [es[0]] + es[1..];
        ConsCovered(es[0], es[1..], total - 1);
      }
    }
  }
}
