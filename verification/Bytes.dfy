/** Byte-order helpers (src/util/io_bytes.c and the put/get pairs repeated in the codecs).
    A byte is a machine byte; sizes, offsets and wire integers are mathematical integers with
    their C width spelled out. */
module Bytes {
  type byte = bv8
  type word = bv16
  type u16 = x: int | 0 <= x < 0x1_0000
  type u32 = x: int | 0 <= x < 0x1_0000_0000

  const U16_MOD := 0x1_0000
  const U32_MOD := 0x1_0000_0000

  /** Truncation of an unsigned value to one byte, as in `(uint8_t)v`. */
  function ToByte(v: nat): byte {
    (v % 256) as byte
  }

  lemma NextByte(b: byte)
    requires b != 255
    ensures (b + 1) as int == b as int + 1
  {
  }

  lemma {:induction false} ByteOf(r: nat) returns (b: byte)
    requires r < 256
    ensures b as int == r
  {
    if r == 0 {
      b := 0;
    } else {
      b := ByteOf(r - 1);
      assert b != 255;
      NextByte(b);
      b := b + 1;
    }
  }

  lemma CastThere(b: byte)
    ensures (b as int) as byte == b
  {
  }

  lemma CastBack(r: nat)
    requires r < 256
    ensures (r as byte) as int == r
  {
    var b := ByteOf(r);
    CastThere(b);
  }

  lemma ToByteValue(v: nat)
    ensures Val(ToByte(v)) == v % 256
  {
    CastBack(v % 256);
  }

  lemma ToByteIs(v: nat, b: byte)
    requires v % 256 == Val(b)
    ensures ToByte(v) == b
  {
    assert (b as int) as byte == b;
  }

  function Val(b: byte): (v: nat)
    ensures v < 256
  {
    b as int
  }

  function Pow256(n: nat): nat {
    if n == 0 then 1 else 256 * Pow256(n - 1)
  }

  // ---- little endian ----

  function Le(b: seq<byte>): nat {
    if b == [] then 0 else Val(b[0]) + 256 * Le(b[1..])
  }

  lemma LeNothing()
    ensures Le([]) == 0
  {
  }

  lemma LeHead(b: seq<byte>)
    requires b != []
    ensures Le(b) == Val(b[0]) + 256 * Le(b[1..])
  {
  }

  function PutLe(n: nat, v: nat): seq<byte> {
    if n == 0 then [] else [ToByte(v)] + PutLe(n - 1, v / 256)
  }

  lemma {:induction false} PutLeLength(n: nat, v: nat)
    ensures |PutLe(n, v)| == n
  {
    if n > 0 {
      PutLeLength(n - 1, v / 256);
    }
  }

  // ---- big endian ----

  function Be(b: seq<byte>): nat {
    if b == [] then 0 else 256 * Be(b[..|b| - 1]) + Val(b[|b| - 1])
  }

  function PutBe(n: nat, v: nat): seq<byte> {
    if n == 0 then [] else PutBe(n - 1, v / 256) + [ToByte(v)]
  }

  /** The n low bytes of v, read back, give v modulo 256^n. */
  lemma {:induction false} LeRoundTrip(n: nat, v: nat)
    requires v < Pow256(n)
    ensures |PutLe(n, v)| == n && Le(PutLe(n, v)) == v
  {
    hide Val, ToByte;
    if n > 0 {
      LeRoundTrip(n - 1, v / 256);
      ToByteValue(v);
      assert PutLe(n, v)[1..] == PutLe(n - 1, v / 256);
    }
  }

  lemma {:induction false} BeRoundTrip(n: nat, v: nat)
    requires v < Pow256(n)
    ensures |PutBe(n, v)| == n && Be(PutBe(n, v)) == v
  {
    hide Val, ToByte;
    if n > 0 {
      BeRoundTrip(n - 1, v / 256);
      ToByteValue(v);
      assert PutBe(n, v)[..n - 1] == PutBe(n - 1, v / 256);
    }
  }

  lemma {:induction false} PutBeLength(n: nat, v: nat)
    ensures |PutBe(n, v)| == n
  {
    if n > 0 {
      PutBeLength(n - 1, v / 256);
    }
  }

  lemma Digits(q: nat, r: nat)
    requires r < 256
    ensures (r + 256 * q) % 256 == r && (r + 256 * q) / 256 == q
  {
  }

  /** Bytes are determined by their value: nothing else encodes to the same number. */
  lemma {:induction false} LeBytes(b: seq<byte>)
    ensures Le(b) < Pow256(|b|) && PutLe(|b|, Le(b)) == b
  {
    hide Val, ToByte, Le;
    if b == [] {
      LeNothing();
    } else {
      var q := Le(b[1..]);
      LeHead(b);
      LeBytes(b[1..]);
      Digits(q, Val(b[0]));
      ToByteIs(Le(b), b[0]);
    }
  }

  lemma {:induction false} BeBytes(b: seq<byte>)
    ensures Be(b) < Pow256(|b|) && PutBe(|b|, Be(b)) == b
  {
    hide Val, ToByte;
    if b != [] {
      var q := Be(b[..|b| - 1]);
      BeBytes(b[..|b| - 1]);
      Digits(q, Val(b[|b| - 1]));
      ToByteIs(Be(b), b[|b| - 1]);
    }
  }

  lemma Widths()
    ensures Pow256(1) == 0x100 && Pow256(2) == U16_MOD && Pow256(4) == U32_MOD
    ensures Pow256(8) == 0x1_0000_0000_0000_0000
  {
  }

  /** io_get_le32 / io_put_le32. */
  function GetLe32(b: seq<byte>): u32
    requires |b| >= 4
  {
    LeBytes(b[..4]);
    Widths();
    Le(b[..4])
  }

  function PutLe32(v: u32): seq<byte> {
    PutLe(4, v)
  }

  function GetLe16(b: seq<byte>): u16
    requires |b| >= 2
  {
    LeBytes(b[..2]);
    Widths();
    Le(b[..2])
  }

  function PutLe16(v: u16): seq<byte> {
    PutLe(2, v)
  }

  /** io_get_be16 / io_put_be16. */
  function GetBe16(b: seq<byte>): u16
    requires |b| >= 2
  {
    BeBytes(b[..2]);
    Widths();
    Be(b[..2])
  }

  function PutBe16(v: u16): seq<byte> {
    PutBe(2, v)
  }

  lemma Le32RoundTrip(v: u32)
    ensures |PutLe32(v)| == 4 && GetLe32(PutLe32(v)) == v
  {
    Widths();
    LeRoundTrip(4, v);
    assert PutLe32(v)[..4] == PutLe32(v);
  }

  lemma Le16RoundTrip(v: u16)
    ensures |PutLe16(v)| == 2 && GetLe16(PutLe16(v)) == v
  {
    Widths();
    LeRoundTrip(2, v);
    assert PutLe16(v)[..2] == PutLe16(v);
  }

  lemma Be16RoundTrip(v: u16)
    ensures |PutBe16(v)| == 2 && GetBe16(PutBe16(v)) == v
  {
    Widths();
    BeRoundTrip(2, v);
    assert PutBe16(v)[..2] == PutBe16(v);
  }
}
