/**
 The decoder itself: a byte source with a cursor, a seekable target, reused buffers and the
 read loop, each proved against the functions of VmdkFormat.
 */
module VmdkStream {
  import opened Bytes
  import opened Streams
  import opened Results
  import opened VmdkFormat
  import opened Progress

  /** A seekable target that accepts room more bytes before a write on it fails. */
  class SparseTarget {
    var image: Image
    var offset: nat
    var room: nat

    constructor (room: nat)
      ensures image == map[] && this.room == room
    {
      image, offset, this.room := map[], 0, room;
    }

    method Seek(offset: nat)
      modifies this
      ensures this.offset == offset && image == old(image) && room == old(room)
    {
      this.offset := offset;
    }

    /** Writes the first n bytes of buf at the offset, or as many as there is room for. */
    method Write(buf: array<Byte>, n: nat) returns (ok: bool)
      requires n <= buf.Length
      modifies this
      ensures ok <==> n <= old(room)
      ensures var put := if ok then n else old(room);
              image == Paint(old(image), Extent(old(offset), buf[..put])) && room == old(room) - put
    {
      ok := n <= room;
      var put := if ok then n else room;
      image := Paint(image, Extent(offset, buf[..put]));
      offset, room := offset + put, room - put;
    }
  }

  /** The state shared by the turns of the read loop. */
  class VmdkStreamReader {
    const r: ByteReader
    const w: SparseTarget
    const inflate: Inflate
    const compBufLimit: nat
    const totalBytes: nat
    const meter: ProgressMeter?
    var compBuf: array<Byte>
    var grainBuf: array<Byte>
    var written: int

    constructor (r: ByteReader, w: SparseTarget, inflate: Inflate, grainBytes: nat, totalBytes: nat, meter: ProgressMeter?)
      ensures this.r == r && this.w == w && this.inflate == inflate && this.totalBytes == totalBytes && this.meter == meter
      ensures compBufLimit == grainBytes * 2 && grainBuf.Length == grainBytes && written == 0
      ensures compBuf != grainBuf && fresh(compBuf) && fresh(grainBuf)
    {
      this.r, this.w, this.inflate, this.meter := r, w, inflate, meter;
      compBuf := new Byte[grainBytes];
      grainBuf := new Byte[grainBytes];
      compBufLimit := grainBytes * 2;
      this.totalBytes := totalBytes;
      written := 0;
    }

    function ParamsOf(): Params
      reads this
    {
      Params(inflate, grainBuf.Length, totalBytes)
    }

    ghost predicate Valid()
      reads this, r
    {
      && compBuf != grainBuf
      && ParamsOf().Valid() && compBufLimit == ParamsOf().Limit()
      && r.Valid()
    }

    ghost function Meter(): Meter
      reads meter
    {
      if meter == null then FRESH else meter.State()
    }

    predicate Listening() {
      meter != null && meter.listening
    }

    /** The bytes of the record whose marker has just been read. */
    ghost function Record(): seq<Byte>
      reads r
      requires MARKER <= r.pos <= |r.data|
    {
      r.data[r.pos - MARKER..]
    }

    /** Reads a metadata or end marker, whose first 12 bytes have been read. */
    method ProcessMetadataMarker(lba: nat) returns (eos: bool, err: Option<Error>)
      requires Valid() && MARKER <= r.pos
      modifies r
      ensures Valid()
      ensures match MetadataStep(old(Record()), lba, r.broken)
              case Stop => eos && err == None
              case Fail(e) => !eos && err == Some(e)
              case Skip(n) => !eos && err == None && r.pos == old(r.pos) - MARKER + n
              case Write(_, _) => false
    {
      ghost var s := Record();
      var typeBuf := new Byte[META_MARKER - MARKER];
      var st := r.ReadFull(typeBuf, META_MARKER - MARKER);
      if st != Full {
        if AtEnd(st) {
          return true, None;
        }
        return false, Some(ReadMarkerType);
      }
      assert typeBuf[..] == s[MARKER..META_MARKER];
      var markerType := FromLE(typeBuf[..]);
      if markerType == 0 {
        return true, None;
      }
      var markerPad := SECTOR - META_MARKER;
      var ok := r.Discard(markerPad);
      if !ok {
        return false, Some(SkipMarkerPadding);
      }
      var metaBytes := Int64(Int64(lba) * SECTOR);
      if metaBytes > 0 {
        ok := r.Discard(metaBytes);
        if !ok {
          return false, Some(SkipMetadata);
        }
      }
      return false, None;
    }

    /** Fills grainBuf from the zlib stream comp, as the reused decompressor does. */
    method Decompress(comp: seq<Byte>) returns (n: nat, ok: bool)
      requires grainBuf.Length > 0
      modifies grainBuf
      ensures var d := Payload(inflate(comp), grainBuf.Length);
              ok == d.Some? && (ok ==> n == |d.value| && grainBuf[..n] == d.value)
    {
      n, ok := 0, false;
      var inf := inflate(comp);
      if inf.BadHeader? {
        return;
      }
      while n < grainBuf.Length && n < |inf.out|
        invariant n <= grainBuf.Length && n <= |inf.out|
        invariant grainBuf[..n] == inf.out[..n]
      {
        grainBuf[n] := inf.out[n];
        n := n + 1;
      }
      if n == grainBuf.Length {
        ok := true;
      } else {
        ok := match inf.end
          case Clean => n > 0
          case Truncated => true
          case Corrupt => false;
      }
    }

    /** Reads and decompresses one grain into the first n bytes of grainBuf. */
    method ReadGrainData(size: nat) returns (n: nat, err: Option<Error>)
      requires Valid() && MARKER <= r.pos && size > 0
      modifies this`compBuf, compBuf, grainBuf, r
      ensures Valid() && grainBuf == old(grainBuf) && (compBuf == old(compBuf) || fresh(compBuf))
      ensures var s := old(Record());
              match GrainData(s, size, ParamsOf(), r.broken)
              case Failure(e) => err == Some(e)
              case Success(data) =>
                && err == None && n == |data| && grainBuf[..n] == data
                && r.pos == old(r.pos) - MARKER + GrainLength(|s|, size)
    {
      hide Payload;
      n := 0;
      ghost var s := Record();
      assert r.Rest() == s[MARKER..];
      if size > compBufLimit {
        return n, Some(GrainClaim);
      }
      if size > compBuf.Length {
        compBuf := new Byte[size];
      }
      var st := r.ReadFull(compBuf, size);
      if st != Full {
        return n, Some(ReadGrain);
      }
      var comp := compBuf[..size];
      assert comp == s[MARKER..MARKER + size];
      var padBytes := (SECTOR - (MARKER + size) % SECTOR) % SECTOR;
      if padBytes > 0 {
        var padBuf := new Byte[SECTOR];
        st := r.ReadFull(padBuf, padBytes);
        if st != Full && !AtEnd(st) {
          return n, Some(ReadPadding);
        }
      }
      var ok;
      n, ok := Decompress(comp);
      err := if ok then None else Some(Error.Decompress);
    }

    /** Writes the first n bytes of grainBuf at sector lba, if the target's capacity allows. */
    method WriteGrain(lba: nat, n: nat) returns (err: Option<Error>)
      requires Valid() && n <= grainBuf.Length
      modifies this`written, w, meter
      ensures Valid()
      ensures match Place(lba, n, totalBytes)
              case Failure(e) =>
                && err == Some(e) && w.image == old(w.image) && w.room == old(w.room)
                && written == old(written) && Meter() == old(Meter())
              case Success(off) =>
                var data := old(grainBuf[..n]);
                if n <= old(w.room) then
                  && err == None && w.image == Paint(old(w.image), Extent(off, data)) && w.room == old(w.room) - n
                  && written == Int64(old(written) + n)
                  && Meter() == (if Listening() then Tick(old(Meter()), written, totalBytes) else old(Meter()))
                else
                  && err == Some(WriteFailed) && w.image == Paint(old(w.image), Extent(off, data[..old(w.room)]))
                  && written == old(written) && Meter() == old(Meter())
    {
      hide Paint, Tick;
      if lba > MAX_SECTORS {
        return Some(LbaOverflow);
      }
      var offset := Int64(lba * SECTOR);
      var end := Int64(offset + n);
      if end < offset {
        return Some(RangeOverflow);
      }
      if offset >= totalBytes || end > totalBytes {
        return Some(BeyondCapacity);
      }
      w.Seek(offset);
      var ok := w.Write(grainBuf, n);
      if !ok {
        assert grainBuf[..n][..old(w.room)] == grainBuf[..old(w.room)];
        return Some(WriteFailed);
      }
      written := Int64(written + n);
      if meter != null {
        meter.Report(written, totalBytes);
      }
      return None;
    }

    /** Reads, decompresses and writes one grain, whose marker has been read. */
    method ProcessCompressedGrain(lba: nat, size: nat) returns (err: Option<Error>)
      requires Valid() && MARKER <= r.pos && size > 0
      modifies this, compBuf, grainBuf, r, w, meter
      ensures Valid() && grainBuf == old(grainBuf) && (compBuf == old(compBuf) || fresh(compBuf))
      ensures match GrainStep(old(Record()), lba, size, ParamsOf(), r.broken)
              case Fail(e) =>
                && err == Some(e) && w.image == old(w.image) && w.room == old(w.room)
                && written == old(written) && Meter() == old(Meter())
              case Write(n, e) =>
                if |e.data| <= old(w.room) then
                  && err == None && r.pos == old(r.pos) - MARKER + n
                  && w.image == Paint(old(w.image), e) && w.room == old(w.room) - |e.data|
                  && written == Int64(old(written) + |e.data|)
                  && Meter() == (if Listening() then Tick(old(Meter()), written, totalBytes) else old(Meter()))
                else
                  && err == Some(WriteFailed) && w.image == Paint(old(w.image), e.(data := e.data[..old(w.room)]))
                  && written == old(written) && Meter() == old(Meter())
              case _ => false
    {
      hide GrainData, Place, Paint, Tick, Int64;
      var n;
      n, err := ReadGrainData(size);
      if err.None? {
        err := WriteGrain(lba, n);
      }
    }

    /** Which of the record readers decides the turn on s. */
    static lemma TurnOf(s: seq<Byte>, p: Params, broken: bool)
      ensures |s| < MARKER ==> StepOf(s, p, broken) == if broken then Fail(Error.ReadMarker) else Stop
      ensures MARKER <= |s| ==>
                var lba, size := FromLE(s[..8]), FromLE(s[8..MARKER]);
                StepOf(s, p, broken) == if size == 0 then MetadataStep(s, lba, broken) else GrainStep(s, lba, size, p, broken)
    {
    }

    /** One turn of the read loop. */
    method Turn(ctx: Context) returns (eos: bool, err: Option<Error>)
      requires Valid()
      modifies this, compBuf, grainBuf, ctx, r, w, meter
      ensures Valid() && grainBuf == old(grainBuf) && (compBuf == old(compBuf) || fresh(compBuf))
      ensures ctx.polls == old(ctx.polls) + 1
      ensures !(old(!ctx.cancelled(ctx.polls) && StepOf(r.Rest(), ParamsOf(), r.broken).Write?)) ==>
                w.image == old(w.image) && w.room == old(w.room) && written == old(written) && Meter() == old(Meter())
      ensures old(ctx.cancelled(ctx.polls)) ==> err == Some(Cancelled)
      ensures old(!ctx.cancelled(ctx.polls)) ==>
                match old(StepOf(r.Rest(), ParamsOf(), r.broken))
                case Stop => eos && err == None
                case Fail(e) => err == Some(e)
                case Skip(n) => !eos && err == None && r.pos == old(r.pos) + n
                case Write(n, e) =>
                  if |e.data| <= old(w.room) then
                    && !eos && err == None && r.pos == old(r.pos) + n
                    && w.image == Paint(old(w.image), e) && w.room == old(w.room) - |e.data|
                    && written == Int64(old(written) + |e.data|)
                    && Meter() == (if Listening() then Tick(old(Meter()), written, totalBytes) else old(Meter()))
                  else
                    && err == Some(WriteFailed) && w.image == Paint(old(w.image), e.(data := e.data[..old(w.room)]))
                    && written == old(written) && Meter() == old(Meter())
    {
      hide StepOf, MetadataStep, GrainStep, Paint, Tick, FromLE, Int64;
      eos := false;
      ghost var s := r.Rest();
      TurnOf(s, ParamsOf(), r.broken);
      var done := ctx.Done();
      if done {
        return eos, Some(Cancelled);
      }
      var markerBuf := new Byte[MARKER];
      var st := r.ReadFull(markerBuf, MARKER);
      if st != Full {
        if AtEnd(st) {
          return true, None;
        }
        return eos, Some(Error.ReadMarker);
      }
      assert markerBuf[..8] == s[..8] && markerBuf[8..] == s[8..MARKER];
      assert Record() == s;
      var lba := FromLE(markerBuf[..8]);
      var size := FromLE(markerBuf[8..]);
      if size == 0 {
        eos, err := ProcessMetadataMarker(lba);
      } else {
        err := ProcessCompressedGrain(lba, size);
      }
    }

    /** What the specification says of the bytes still unread. */
    ghost function Ahead(ctx: Context): Outcome
      reads this, r, w, ctx
      requires r.Valid()
    {
      Deliver(Decode(r.Rest(), ParamsOf(), r.broken, ctx.cancelled, ctx.polls), w.room)
    }

    /** The target, the byte count and the meter are those after the writes made. */
    ghost predicate After(made: seq<Extent>, img: Image, count: int, m: Meter)
      reads this, w, meter
    {
      && w.image == PaintAll(img, made)
      && written == CountAfter(count, made)
      && Meter() == MeterAfter(m, Listening(), Counts(count, made), totalBytes)
    }

    /** A turn of the loop against what was ahead: the end of it, or one turn less of it. */
    method FoldedTurn(ctx: Context, ghost made: seq<Extent>, ghost img: Image, ghost count: int, ghost m: Meter)
      returns (stop: bool, err: Option<Error>, ghost next: seq<Extent>)
      requires Valid() && After(made, img, count, m)
      modifies this, compBuf, grainBuf, ctx, r, w, meter
      ensures Valid() && grainBuf == old(grainBuf) && (compBuf == old(compBuf) || fresh(compBuf))
      ensures var o := old(Ahead(ctx));
              if stop then
                var all := Outcome(made + o.extents, o.end);
                && err == (if o.end == Finished then None else Some(o.end.error))
                && w.image == PaintAll(img, all.extents)
                && written == CountAfter(count, Reported(all))
                && Meter() == MeterAfter(m, Listening(), Counts(count, Reported(all)), totalBytes)
              else
                && r.pos > old(r.pos) && After(next, img, count, m)
                && made + o.extents == next + Ahead(ctx).extents && o.end == Ahead(ctx).end
    {
      hide StepOf, Decode, Deliver, Paint, PaintAll, Tick, Ticks, Percent, ShouldLog, Int64, Counts, CountAfter, MeterAfter;
      ghost var s, k, room := r.Rest(), ctx.polls, w.room;
      ghost var step := StepOf(s, ParamsOf(), r.broken);
      ghost var o := Ahead(ctx);
      DeliverTurn(s, ParamsOf(), r.broken, ctx.cancelled, k, room);
      next := made;
      stop, err := Turn(ctx);
      stop := stop || err.Some?;
      if !ctx.cancelled(k) && step.Write? {
        ghost var e := if |step.extent.data| <= room then step.extent else step.extent.(data := step.extent.data[..room]);
        OneMore(img, made, e, count, m, Listening(), totalBytes);
        if err.None? {
          assert r.Rest() == s[step.n..];
          next := made + [e];
        } else {
          assert Reported(Outcome(made + o.extents, o.end)) == made;
        }
      } else if stop {
        assert made + o.extents == made;
      } else {
        assert r.Rest() == s[step.n..];
      }
    }

    /** The read loop, from the cursor to the end of the stream or the first error. */
    method Run(ctx: Context) returns (err: Option<Error>)
      requires Valid()
      modifies this, compBuf, grainBuf, ctx, r, w, meter
      ensures var o := old(Ahead(ctx));
              && err == (if o.end == Finished then None else Some(o.end.error))
              && w.image == PaintAll(old(w.image), o.extents)
              && written == CountAfter(old(written), Reported(o))
              && Meter() == MeterAfter(old(Meter()), Listening(), Counts(old(written), Reported(o)), totalBytes)
    {
      hide Ahead, After, PaintAll, Counts, CountAfter, MeterAfter;
      ghost var made: seq<Extent> := [];
      ghost var img, count, m, o := w.image, written, Meter(), Ahead(ctx);
      NothingYet();
      var stop := false;
      err := None;
      while !stop
        invariant !stop ==> Valid() && After(made, img, count, m)
        invariant grainBuf == old(grainBuf) && (compBuf == old(compBuf) || fresh(compBuf))
        invariant !stop ==> o == Outcome(made + Ahead(ctx).extents, Ahead(ctx).end)
        invariant stop ==>
                    && err == (if o.end == Finished then None else Some(o.end.error))
                    && w.image == PaintAll(img, o.extents)
                    && written == CountAfter(count, Reported(o))
                    && Meter() == MeterAfter(m, Listening(), Counts(count, Reported(o)), totalBytes)
        decreases !stop, |r.data| - r.pos
      {
        stop, err, made := FoldedTurn(ctx, made, img, count, m);
      }
    }

    lemma NothingYet()
      ensures After([], w.image, written, Meter())
    {
    }
  }

  /** One turn of the specified loop, with the target's room taken into account. */
  lemma DeliverTurn(s: seq<Byte>, p: Params, broken: bool, cancelled: nat -> bool, k: nat, room: nat)
    ensures var o := Deliver(Decode(s, p, broken, cancelled, k), room);
            if cancelled(k) then o == Outcome([], Failed(Cancelled))
            else
              match StepOf(s, p, broken)
              case Stop => o == Outcome([], Finished)
              case Fail(e) => o == Outcome([], Failed(e)) && e != WriteFailed
              case Skip(n) => o == Deliver(Decode(s[n..], p, broken, cancelled, k + 1), room)
              case Write(n, e) =>
                if |e.data| <= room then
                  o == Prepend(e, Deliver(Decode(s[n..], p, broken, cancelled, k + 1), room - |e.data|))
                else o == Outcome([e.(data := e.data[..room])], Failed(WriteFailed))
  {
    hide Payload, FromLE, PadLength, SkipLength, Int64;
    var o := Decode(s, p, broken, cancelled, k);
    if !cancelled(k) && StepOf(s, p, broken).Write? {
      var n := StepOf(s, p, broken).n;
      var rest := Decode(s[n..], p, broken, cancelled, k + 1);
      assert o.(extents := o.extents[1..]) == rest;
    }
  }

  lemma NothingPainted(img: Image)
    ensures PaintAll(img, []) == img
  {
  }

  lemma OneMore(img: Image, made: seq<Extent>, e: Extent, count: int, m: Meter, heard: bool, total: int)
    ensures PaintAll(img, made + [e]) == Paint(PaintAll(img, made), e)
    ensures CountAfter(count, made + [e]) == Int64(CountAfter(count, made) + |e.data|)
    ensures var before := MeterAfter(m, heard, Counts(count, made), total);
            MeterAfter(m, heard, Counts(count, made + [e]), total) ==
              if heard then Tick(before, CountAfter(count, made + [e]), total) else before
  {
    PaintAllAppend(img, made, [e]);
    assert [e][1..] == [];
    CountsSnoc(count, made, e, m, total);
  }

  /** The meter after the given byte counts, if anyone listens. */
  function MeterAfter(m: Meter, listening: bool, counts: seq<int>, total: int): Meter
  {
    if listening then Ticks(m, counts, total) else m
  }

  /** The byte counts reported after each of the writes es, from the count so far. */
  function Counts(from: int, es: seq<Extent>): seq<int>
    decreases |es|
  {
    if es == [] then [] else [Int64(from + |es[0].data|)] + Counts(Int64(from + |es[0].data|), es[1..])
  }

  /** A context that may be cancelled: what each look at it, in turn, finds. */
  class Context {
    const cancelled: nat -> bool
    var polls: nat

    constructor (cancelled: nat -> bool)
      ensures this.cancelled == cancelled && polls == 0
    {
      this.cancelled, polls := cancelled, 0;
    }

    method Done() returns (done: bool)
      modifies this
      ensures done == cancelled(old(polls)) && polls == old(polls) + 1
    {
      done := cancelled(polls);
      polls := polls + 1;
    }
  }

  /** Folding one more callback in after those for the writes es. */
  lemma {:induction false} CountsSnoc(from: int, es: seq<Extent>, e: Extent, m: Meter, total: int)
    ensures CountAfter(from, es + [e]) == Int64(CountAfter(from, es) + |e.data|)
    ensures Ticks(m, Counts(from, es + [e]), total) == Tick(Ticks(m, Counts(from, es), total), CountAfter(from, es + [e]), total)
    decreases |es|
  {
    if es == [] {
      assert (es + [e])[1..] == [];
      assert Counts(from, [e])[1..] == [];
    } else {
      var next := Int64(from + |es[0].data|);
      assert (es + [e])[1..] == es[1..] + [e];
      assert Counts(from, es)[1..] == Counts(next, es[1..]);
      assert Counts(from, es + [e])[1..] == Counts(next, es[1..] + [e]);
      CountsSnoc(next, es[1..], e, Tick(m, next, total), total);
    }
  }

  /** The byte count after the writes es. */
  function CountAfter(from: int, es: seq<Extent>): int
    decreases |es|
  {
    if es == [] then from else CountAfter(Int64(from + |es[0].data|), es[1..])
  }

  /** The writes that completed: all of them, but for one the target could not take whole. */
  function Reported(o: Outcome): seq<Extent>
  {
    if o.end == Failed(WriteFailed) && o.extents != [] then o.extents[..|o.extents| - 1] else o.extents
  }

  /** The bytes the header declares, or 0 for one that is refused. */
  function DeclaredBytes(data: seq<Byte>, inflate: Inflate): nat
  {
    if |data| < SECTOR then 0
    else
      match ParseHeader(data[..SECTOR], inflate)
      case Failure(_) => 0
      case Success((p, _)) => p.totalBytes
  }

  /**
   Decodes all of r onto w. The return value, the bytes put on the target and the progress
   reported are those of Stream on the same bytes, cut where the target ran out of room.
   */
  method StreamToRaw(ctx: Context, r: ByteReader, w: SparseTarget, inflate: Inflate, meter: ProgressMeter?)
    returns (err: Option<Error>)
    requires r.pos == 0 && ctx.polls == 0 && (meter != null ==> meter.State() == FRESH)
    modifies ctx, r, w, meter
    ensures var o := Deliver(Stream(r.data, r.broken, inflate, ctx.cancelled), old(w.room));
            && err == (if o.end == Finished then None else Some(o.end.error))
            && w.image == PaintAll(old(w.image), o.extents)
            && (meter != null ==>
                  meter.State() == MeterAfter(FRESH, meter.listening, Counts(0, Reported(o)), DeclaredBytes(r.data, inflate)))
  {
    hide ParseHeader, Decode, PaintAll, Int64;
    NothingPainted(w.image);
    assert r.Rest() == r.data;
    var hdrBuf := new Byte[SECTOR];
    var st := r.ReadFull(hdrBuf, SECTOR);
    if st != Full {
      return Some(Error.ReadHeader);
    }
    assert hdrBuf[..] == r.data[..SECTOR];
    var header := ParseHeader(hdrBuf[..], inflate);
    if header.Failure? {
      return Some(header.error);
    }
    var (p, skip) := header.value;
    var ok := r.Discard(skip);
    if !ok {
      return Some(SkipOverhead);
    }
    assert p.inflate == inflate by { HeaderKeepsInflate(hdrBuf[..], inflate); }
    var sr := new VmdkStreamReader(r, w, inflate, p.grainBytes, p.totalBytes, meter);
    assert r.Rest() == r.data[SECTOR + skip..];
    err := sr.Run(ctx);
  }

  lemma HeaderKeepsInflate(h: seq<Byte>, inflate: Inflate)
    requires |h| == SECTOR && ParseHeader(h, inflate).Success?
    ensures ParseHeader(h, inflate).value.0.inflate == inflate
  {
  }

  /** The byte count is the sum of the lengths written, and each count reported is a partial sum. */
  lemma {:induction false} CountsArePartialSums(from: nat, es: seq<Extent>)
    requires from + TotalLength(es) <= MAX_INT64
    ensures CountAfter(from, es) == from + TotalLength(es)
    ensures |Counts(from, es)| == |es|
    ensures forall i :: 0 <= i < |es| ==> Counts(from, es)[i] == from + TotalLength(es[..i + 1])
    decreases |es|
  {
    if es != [] {
      var next := from + |es[0].data|;
      CountsArePartialSums(next, es[1..]);
      forall i | 0 <= i < |es|
        ensures Counts(from, es)[i] == from + TotalLength(es[..i + 1])
      {
        assert es[..i + 1][1..] == es[1..][..i];
        if i > 0 {
          assert es[1..][..i - 1 + 1] == es[1..][..i];
        }
      }
    }
  }

  lemma {:induction false} TotalLengthMonotone(es: seq<Extent>, i: nat, j: nat)
    requires i <= j <= |es|
    ensures TotalLength(es[..i]) <= TotalLength(es[..j])
    decreases |es|
  {
    if i > 0 {
      assert es[..i][1..] == es[1..][..i - 1] && es[..j][1..] == es[1..][..j - 1];
      TotalLengthMonotone(es[1..], i - 1, j - 1);
    }
  }

  /** However many grains a decode writes, its progress percentages climb, and are at most 21. */
  lemma DecodeProgress(es: seq<Extent>, total: nat)
    requires total > 0 && TotalLength(es) * 100 <= MAX_INT64
    ensures var shown := MeterAfter(FRESH, true, Counts(0, es), total).emitted;
            StrictlyIncreasing(shown) && (forall pct <- shown :: 0 <= pct <= 100) && |shown| <= 21
  {
    CountsArePartialSums(0, es);
    var counts := Counts(0, es);
    assert es[..|es|] == es;
    forall i, j | 0 <= i <= j < |counts|
      ensures 0 <= counts[i] <= counts[j] && counts[j] <= TotalLength(es)
    {
      TotalLengthMonotone(es, i + 1, j + 1);
      TotalLengthMonotone(es, j + 1, |es|);
    }
    AtMost21Callbacks(FRESH, 0, counts, total);
  }
}
