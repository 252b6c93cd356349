/** Byte streams: a reader whose bytes arrive in order, and a writer that may fail. */
module Streams {
  import opened Bytes

  datatype ReadStatus = Full | EndOfFile | UnexpectedEnd | Transport

  predicate AtEnd(st: ReadStatus) {
    st == EndOfFile || st == UnexpectedEnd
  }

  /** A download: its bytes arrive in order and then it ends, or its connection fails. */
  class ByteReader {
    const data: seq<Byte>
    const broken: bool
    var pos: nat

    constructor (data: seq<Byte>, broken: bool)
      ensures this.data == data && this.broken == broken && pos == 0
    {
      this.data, this.broken, this.pos := data, broken, 0;
    }

    predicate Valid()
      reads this
    {
      pos <= |data|
    }

    function Rest(): seq<Byte>
      reads this
      requires Valid()
    {
      data[pos..]
    }

    /** io.ReadFull into the first n bytes of buf. */
    method ReadFull(buf: array<Byte>, n: nat) returns (st: ReadStatus)
      requires Valid() && n <= buf.Length
      modifies this, buf
      ensures Valid()
      ensures var got := if n <= |old(Rest())| then n else |old(Rest())|;
              && pos == old(pos) + got
              && buf[..got] == old(Rest())[..got]
              && st == (if got == n then Full else if broken then Transport
                        else if got == 0 then EndOfFile else UnexpectedEnd)
    {
      var got := 0;
      while got < n && pos < |data|
        invariant Valid() && got <= n && pos == old(pos) + got
        invariant buf[..got] == data[old(pos)..pos]
      {
        buf[got] := data[pos];
        pos, got := pos + 1, got + 1;
      }
      st := if got == n then Full else if broken then Transport
            else if got == 0 then EndOfFile else UnexpectedEnd;
    }

    /** io.CopyN to a sink that keeps nothing. A count that is not positive reads nothing. */
    method Discard(n: int) returns (ok: bool)
      requires Valid()
      modifies this
      ensures Valid()
      ensures ok <==> n <= |old(Rest())|
      ensures ok ==> pos == old(pos) + (if n > 0 then n else 0)
    {
      if n <= 0 {
        return true;
      }
      ok := n <= |data| - pos;
      pos := if ok then pos + n else |data|;
    }
  }

  /** A stream that accepts room more bytes before a write on it fails. */
  class ByteWriter {
    var sent: seq<Byte>
    var room: nat

    constructor (room: nat)
      ensures sent == [] && this.room == room
    {
      sent, this.room := [], room;
    }

    /** Writes the bytes, or as many as there is room for. */
    method Write(bytes: seq<Byte>) returns (ok: bool)
      modifies this
      ensures ok <==> |bytes| <= old(room)
      ensures var put := if ok then |bytes| else old(room);
              sent == old(sent) + bytes[..put] && room == old(room) - put
    {
      ok := |bytes| <= room;
      var put := if ok then |bytes| else room;
      sent, room := sent + bytes[..put], room - put;
    }
  }
}
