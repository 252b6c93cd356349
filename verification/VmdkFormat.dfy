/**
 The stream-optimized VMDK format and the meaning of decoding it, as pure functions of the
 bytes read: what one turn of the decoder's loop does (StepOf), what the whole loop does
 (Decode), and what the writes it issues make of the target (PaintAll).
 */
module VmdkFormat {
  import opened Bytes
  import opened Results

  const SECTOR: nat := 512
  const MARKER: nat := 12
  const META_MARKER: nat := 16
  const MAGIC: nat := 0x564d444b
  const MAX_GRAIN_BYTES: nat := 64 * 1024 * 1024
  const MAX_SECTORS: nat := MAX_INT64 / SECTOR

  datatype Error =
    | ReadHeader | BadMagic | BadVersion | CapacityOverflow
    | ZeroGrain | GrainOverflow | GrainTooBig | SkipOverhead
    | Cancelled | ReadMarker | ReadMarkerType | SkipMarkerPadding | SkipMetadata
    | GrainClaim | ReadGrain | ReadPadding | Decompress
    | LbaOverflow | RangeOverflow | BeyondCapacity | WriteFailed

  /** How a zlib stream ends once all its output has been produced. */
  datatype InflateEnd = Clean | Truncated | Corrupt

  /** What zlib makes of a byte string: a refused header, or output and the way it ends. */
  datatype Inflated = BadHeader | Inflated(out: seq<Byte>, end: InflateEnd)

  type Inflate = seq<Byte> -> Inflated

  /**
   The bytes a grain contributes: the decompressor fills a buffer of cap bytes and accepts a
   stream that stops early, even one cut in the middle, but not an empty or a corrupt one.
   */
  function Payload(inf: Inflated, cap: nat): (r: Option<seq<Byte>>)
    ensures r.Some? ==> |r.value| <= cap
  {
    match inf
    case BadHeader => None
    case Inflated(out, end) =>
      if |out| >= cap then Some(out[..cap])
      else match end
        case Clean => if |out| == 0 then None else Some(out)
        case Truncated => Some(out)
        case Corrupt => None
  }

  /** Parameters fixed by the header, with the zlib implementation in use. */
  datatype Params = Params(inflate: Inflate, grainBytes: nat, totalBytes: nat) {
    predicate Valid() {
      && 0 < grainBytes <= MAX_GRAIN_BYTES
      && totalBytes <= MAX_SECTORS * SECTOR
    }

    /** The largest compressed size a grain marker may claim. */
    function Limit(): nat { grainBytes * 2 }
  }

  /** A run of bytes written at a byte offset of the target. */
  datatype Extent = Extent(off: nat, data: seq<Byte>) {
    predicate Covers(o: nat) { off <= o < off + |data| }
  }

  /** Bytes between the end of a grain's data and the next sector boundary. */
  function PadLength(size: nat): (n: nat)
    ensures n < SECTOR
    ensures (MARKER + size + n) % SECTOR == 0
  {
    var n := (SECTOR - (MARKER + size) % SECTOR) % SECTOR;
    assert n == 0 || n == SECTOR - (MARKER + size) % SECTOR;
    n
  }

  /** How many bytes a skip of the given uint64 sector count consumes in int64 arithmetic. */
  function SkipLength(sectors: int): nat
  {
    var n := Int64(Int64(sectors) * SECTOR);
    if n > 0 then n else 0
  }

  /** The overhead area after the header: overHead - 1 sectors, when that is positive. */
  function OverheadLength(overHead: nat): nat
  {
    var sectors := Int64(Int64(overHead) - 1);
    if sectors > 0 then SkipLength(sectors) else 0
  }

  /** The range test before a grain of len bytes is written at sector lba. */
  function Place(lba: nat, len: nat, total: nat): Result<nat, Error>
  {
    if lba > MAX_SECTORS then Failure(LbaOverflow)
    else
      var off := Int64(lba * SECTOR);
      var end := Int64(off + len);
      if end < off then Failure(RangeOverflow)
      else if off >= total || end > total then Failure(BeyondCapacity)
      else Success(off)
  }

  // ---- One turn of the decoder's loop ----

  datatype Step =
    | Stop
    | Fail(error: Error)
    | Skip(n: nat)
    | Write(n: nat, extent: Extent)

  /** The effect of the bytes s that are left; broken says the connection fails at their end. */
  function StepOf(s: seq<Byte>, p: Params, broken: bool): (r: Step)
    ensures r.Skip? || r.Write? ==> MARKER <= r.n <= |s|
  {
    if |s| < MARKER then
      if broken then Fail(ReadMarker) else Stop
    else
      var lba := FromLE(s[..8]);
      var size := FromLE(s[8..MARKER]);
      if size == 0 then MetadataStep(s, lba, broken) else GrainStep(s, lba, size, p, broken)
  }

  function MetadataStep(s: seq<Byte>, lba: nat, broken: bool): (r: Step)
    requires MARKER <= |s|
    ensures r.Skip? ==> SECTOR <= r.n <= |s|
    ensures !r.Write?
  {
    if |s| < META_MARKER then
      if broken then Fail(ReadMarkerType) else Stop
    else if FromLE(s[MARKER..META_MARKER]) == 0 then Stop
    else if |s| < SECTOR then Fail(SkipMarkerPadding)
    else if |s| - SECTOR < SkipLength(lba) then Fail(SkipMetadata)
    else Skip(SECTOR + SkipLength(lba))
  }

  /** The data of the grain whose record starts s, once it is read and decompressed. */
  function GrainData(s: seq<Byte>, size: nat, p: Params, broken: bool): (r: Result<seq<Byte>, Error>)
    requires MARKER <= |s|
    ensures r.Success? ==> MARKER + size <= |s| && |r.value| <= p.grainBytes
  {
    if size > p.Limit() then Failure(GrainClaim)
    else if |s| < MARKER + size then Failure(ReadGrain)
    else if |s| < MARKER + size + PadLength(size) && broken then Failure(ReadPadding)
    else
      match Payload(p.inflate(s[MARKER..MARKER + size]), p.grainBytes)
      case None => Failure(Decompress)
      case Some(data) => Success(data)
  }

  /** How many bytes a grain's record takes up: its padding may be cut by the end of input. */
  function GrainLength(left: nat, size: nat): nat
  {
    if left < MARKER + size + PadLength(size) then left else MARKER + size + PadLength(size)
  }

  function GrainStep(s: seq<Byte>, lba: nat, size: nat, p: Params, broken: bool): (r: Step)
    requires MARKER <= |s|
    ensures r.Write? ==> MARKER + size <= r.n <= |s|
    ensures !r.Skip?
  {
    match GrainData(s, size, p, broken)
    case Failure(e) => Fail(e)
    case Success(data) =>
      match Place(lba, |data|, p.totalBytes)
      case Failure(e) => Fail(e)
      case Success(off) => Write(GrainLength(|s|, size), Extent(off, data))
  }

  // ---- The whole stream ----

  datatype Ending = Finished | Failed(error: Error)

  /** The writes issued, in order, and how the decoder returns. */
  datatype Outcome = Outcome(extents: seq<Extent>, end: Ending)

  function Prepend(e: Extent, o: Outcome): Outcome
  {
    o.(extents := [e] + o.extents)
  }

  /** The decoder's loop from the bytes s on; cancelled(k) says the context is done at turn k. */
  function Decode(s: seq<Byte>, p: Params, broken: bool, cancelled: nat -> bool, k: nat): Outcome
    decreases |s|
  {
    if cancelled(k) then Outcome([], Failed(Cancelled))
    else
      match StepOf(s, p, broken)
      case Stop => Outcome([], Finished)
      case Fail(e) => Outcome([], Failed(e))
      case Skip(n) => Decode(s[n..], p, broken, cancelled, k + 1)
      case Write(n, e) => Prepend(e, Decode(s[n..], p, broken, cancelled, k + 1))
  }

  /** What a target that accepts only room more bytes makes of the issued writes. */
  function Deliver(o: Outcome, room: nat): Outcome
    decreases |o.extents|
  {
    if o.extents == [] then o
    else
      var e := o.extents[0];
      if |e.data| <= room then
        Prepend(e, Deliver(o.(extents := o.extents[1..]), room - |e.data|))
      else Outcome([e.(data := e.data[..room])], Failed(WriteFailed))
  }

  /** The fields of the sparse header the decoder uses, or why it refuses them. */
  function ParseHeader(h: seq<Byte>, inflate: Inflate): (r: Result<(Params, nat), Error>)
    requires |h| == SECTOR
    ensures r.Success? ==> r.value.0.Valid()
  {
    var version := FromLE(h[4..8]);
    var capacity := FromLE(h[12..20]);
    var grain := FromLE(h[20..28]);
    if FromLE(h[0..4]) != MAGIC then Failure(BadMagic)
    else if version < 1 || version > 3 then Failure(BadVersion)
    else if capacity > MAX_SECTORS then Failure(CapacityOverflow)
    else if grain == 0 then Failure(ZeroGrain)
    else if grain > MAX_SECTORS then Failure(GrainOverflow)
    else if grain * SECTOR > MAX_GRAIN_BYTES then Failure(GrainTooBig)
    else
      Success((Params(inflate, grain * SECTOR, capacity * SECTOR), OverheadLength(FromLE(h[64..72]))))
  }

  /** Everything StreamToRaw does with a source that holds data. */
  function Stream(data: seq<Byte>, broken: bool, inflate: Inflate, cancelled: nat -> bool): Outcome
  {
    if |data| < SECTOR then Outcome([], Failed(ReadHeader))
    else
      match ParseHeader(data[..SECTOR], inflate)
      case Failure(e) => Outcome([], Failed(e))
      case Success((p, skip)) =>
        if |data| - SECTOR < skip then Outcome([], Failed(SkipOverhead))
        else Decode(data[SECTOR + skip..], p, broken, cancelled, 0)
  }

  // ---- The target ----

  /** The bytes written so far, by offset. Offsets not in the map were never written. */
  type Image = map<nat, Byte>

  function Paint(img: Image, e: Extent): Image
  {
    img + map o: nat | e.off <= o < e.off + |e.data| && e.Covers(o) :: e.data[o - e.off]
  }

  function PaintAll(img: Image, es: seq<Extent>): Image
    decreases |es|
  {
    if es == [] then img else PaintAll(Paint(img, es[0]), es[1..])
  }

  lemma {:induction false} PaintAllAppend(img: Image, a: seq<Extent>, b: seq<Extent>)
    ensures PaintAll(img, a + b) == PaintAll(PaintAll(img, a), b)
    decreases |a|
  {
    if a == [] {
      assert a + b == b;
    } else {
      assert (a + b)[1..] == a[1..] + b;
      PaintAllAppend(Paint(img, a[0]), a[1..], b);
    }
  }

  /** The sum of the lengths written. */
  function TotalLength(es: seq<Extent>): nat
  {
    if es == [] then 0 else |es[0].data| + TotalLength(es[1..])
  }
}
