/** Bytes, fixed-width integers and Go's int64 arithmetic. */
module Bytes {

  type Byte = b: int | 0 <= b < 256

  const TWO_32: int := 0x1_0000_0000
  const TWO_63: int := 0x8000_0000_0000_0000
  const TWO_64: int := 0x1_0000_0000_0000_0000
  const MAX_INT64: int := 0x7fff_ffff_ffff_ffff

  /** The int64 that Go's wrap-around arithmetic makes of the mathematical integer x. */
  function Int64(x: int): (r: int)
    ensures -TWO_63 <= r <= MAX_INT64
    ensures -TWO_63 <= x <= MAX_INT64 ==> r == x
    ensures (x - r) % TWO_64 == 0
  {
    var r := (x + TWO_63) % TWO_64 - TWO_63;
    assert x - r == (x + TWO_63) / TWO_64 * TWO_64;
    r
  }

  /** 256 to the power n. */
  function Pow256(n: nat): (r: nat)
    ensures r >= 1
  {
    if n == 0 then 1 else 256 * Pow256(n - 1)
  }

  /** The number a little-endian byte string denotes. */
  function FromLE(s: seq<Byte>): nat
  {
    if s == [] then 0 else s[0] + 256 * FromLE(s[1..])
  }

  /** The width-byte little-endian form of v. */
  function ToLE(v: nat, width: nat): (s: seq<Byte>)
    ensures |s| == width
  {
    if width == 0 then [] else [v % 256] + ToLE(v / 256, width - 1)
  }

  /** The number a big-endian byte string denotes. */
  function FromBE(s: seq<Byte>): nat
  {
    if s == [] then 0 else 256 * FromBE(s[..|s| - 1]) + s[|s| - 1]
  }

  /** The width-byte big-endian form of v. */
  function ToBE(v: nat, width: nat): (s: seq<Byte>)
    ensures |s| == width
  {
    if width == 0 then [] else ToBE(v / 256, width - 1) + [v % 256]
  }

  lemma {:induction false} FromLEBound(s: seq<Byte>)
    ensures FromLE(s) < Pow256(|s|)
  {
    if s != [] {
      FromLEBound(s[1..]);
    }
  }

  lemma {:induction false} FromLEToLE(v: nat, width: nat)
    requires v < Pow256(width)
    ensures FromLE(ToLE(v, width)) == v
  {
    if width != 0 {
      FromLEToLE(v / 256, width - 1);
      assert ToLE(v, width)[1..] == ToLE(v / 256, width - 1);
    }
  }

  lemma {:induction false} ToLEFromLE(s: seq<Byte>)
    ensures ToLE(FromLE(s), |s|) == s
  {
    if s != [] {
      ToLEFromLE(s[1..]);
      var v := FromLE(s);
      assert v % 256 == s[0] && v / 256 == FromLE(s[1..]);
    }
  }

  lemma FromBENothing()
    ensures FromBE([]) == 0
  {
  }

  lemma FromBESnoc(s: seq<Byte>, b: Byte)
    ensures FromBE(s + [b]) == 256 * FromBE(s) + b
  {
    assert (s + [b])[..|s|] == s;
  }

  lemma {:induction false} FromBEToBE(v: nat, width: nat)
    requires v < Pow256(width)
    ensures FromBE(ToBE(v, width)) == v
  {
    hide FromBE;
    if width == 0 {
      assert FromBE([]) == 0 by { FromBENothing(); }
    } else {
      FromBEToBE(v / 256, width - 1);
      FromBESnoc(ToBE(v / 256, width - 1), v % 256);
      assert v == 256 * (v / 256) + v % 256;
    }
  }

  lemma {:induction false} ToBEFromBE(s: seq<Byte>)
    ensures FromBE(s) < Pow256(|s|) && ToBE(FromBE(s), |s|) == s
  {
    if s != [] {
      ToBEFromBE(s[..|s| - 1]);
      var v := FromBE(s);
      assert v % 256 == s[|s| - 1] && v / 256 == FromBE(s[..|s| - 1]);
      assert s == s[..|s| - 1] + [s[|s| - 1]];
    }
  }

  lemma Widths()
    ensures Pow256(4) == TWO_32 && Pow256(8) == TWO_64
  {
    assert Pow256(2) == 0x1_0000;
    assert Pow256(4) == 256 * (256 * Pow256(2));
    assert Pow256(6) == 256 * (256 * Pow256(4));
    assert Pow256(8) == 256 * (256 * Pow256(6));
  }
}
