/** Base64 as src/web/ws.c does it (section 4 of RFC 4648): three bytes at a time through a 24-bit word,
    and back through a 32-bit accumulator that keeps shifting left. */
module Base64 {
  import opened Bytes
  import opened Common

  type reg = bv32

  // ---- the alphabet ----

  /** b64_tab: A-Z, a-z, 0-9, plus, slash. */
  function Letter(s: byte): byte {
    if s < 26 then s + 0x41
    else if s < 52 then s - 26 + 0x61
    else if s < 62 then s - 52 + 0x30
    else if s == 62 then 0x2B
    else 0x2F
  }

  /** b64_val; None is its -1. */
  function Value(ch: byte): Option<byte> {
    if 0x41 <= ch <= 0x5A then Some(ch - 0x41)
    else if 0x61 <= ch <= 0x7A then Some(ch - 0x61 + 26)
    else if 0x30 <= ch <= 0x39 then Some(ch - 0x30 + 52)
    else if ch == 0x2B then Some(62)
    else if ch == 0x2F then Some(63)
    else None
  }

  const PAD: byte := 0x3D

  predicate Ignored(ch: byte) {
    ch == PAD || ch == 0x20 || ch == 0x0D || ch == 0x0A
  }

  lemma LetterValue(s: byte)
    requires s < 64
    ensures Value(Letter(s)) == Some(s)
  {
  }

  // ---- encoding ----

  function Triple(a: byte, b: byte, c: byte): reg {
    ((a as reg) << 16) | ((b as reg) << 8) | (c as reg)
  }

  function Six0(v: reg): byte { ((v >> 18) & 0x3F) as byte }
  function Six1(v: reg): byte { ((v >> 12) & 0x3F) as byte }
  function Six2(v: reg): byte { ((v >> 6) & 0x3F) as byte }
  function Six3(v: reg): byte { (v & 0x3F) as byte }

  function Group(a: byte, b: byte, c: byte): seq<byte> {
    var v := Triple(a, b, c);
    [Letter(Six0(v)), Letter(Six1(v)), Letter(Six2(v)), Letter(Six3(v))]
  }

  function Tail1(a: byte): seq<byte> {
    var v := Triple(a, 0, 0);
    [Letter(Six0(v)), Letter(Six1(v)), PAD, PAD]
  }

  function Tail2(a: byte, b: byte): seq<byte> {
    var v := Triple(a, b, 0);
    [Letter(Six0(v)), Letter(Six1(v)), Letter(Six2(v)), PAD]
  }

  function Encode(src: seq<byte>): seq<byte> {
    if |src| == 0 then []
    else if |src| == 1 then Tail1(src[0])
    else if |src| == 2 then Tail2(src[0], src[1])
    else Group(src[0], src[1], src[2]) + Encode(src[3..])
  }

  // ---- decoding ----

  function Push(acc: reg, v: byte): reg {
    (acc << 6) | (v as reg)
  }

  /** acc >> nbits, as a byte. After every output nbits is 0, 2 or 4. */
  function Out(acc: reg, nbits: nat): byte {
    if nbits == 0 then (acc & 0xFF) as byte
    else if nbits == 2 then ((acc >> 2) & 0xFF) as byte
    else ((acc >> 4) & 0xFF) as byte
  }

  /** The decoder from a state on. None: a foreign character, or the destination is full. */
  function DecodeFrom(src: seq<byte>, acc: reg, nbits: nat, out: seq<byte>, room: nat): Option<seq<byte>>
    decreases |src|
  {
    if src == [] then Some(out)
    else
      match Value(src[0])
      case None => if Ignored(src[0]) then DecodeFrom(src[1..], acc, nbits, out, room) else None
      case Some(v) =>
        var a := Push(acc, v);
        if nbits + 6 < 8 then DecodeFrom(src[1..], a, nbits + 6, out, room)
        else if |out| >= room then None
        else DecodeFrom(src[1..], a, nbits - 2, out + [Out(a, nbits - 2)], room)
  }

  function Decode(src: seq<byte>, room: nat): Option<seq<byte>> {
    DecodeFrom(src, 0, 0, [], room)
  }

  // ---- the round trip ----

  lemma SixesSmall(v: reg)
    ensures Six0(v) < 64 && Six1(v) < 64 && Six2(v) < 64 && Six3(v) < 64
  {
  }

  /** Whatever older bits the accumulator still holds, the first two sextets give the first byte. */
  lemma FirstOut(acc: reg, a: byte, b: byte, c: byte)
    ensures var v := Triple(a, b, c); Out(Push(Push(acc, Six0(v)), Six1(v)), 4) == a
  {
  }

  lemma SecondOut(acc: reg, a: byte, b: byte, c: byte)
    ensures var v := Triple(a, b, c); Out(Push(Push(acc, Six1(v)), Six2(v)), 2) == b
  {
  }

  lemma ThirdOut(acc: reg, a: byte, b: byte, c: byte)
    ensures var v := Triple(a, b, c); Out(Push(Push(acc, Six2(v)), Six3(v)), 0) == c
  {
  }

  lemma PadSkipped(src: seq<byte>, acc: reg, nbits: nat, out: seq<byte>, room: nat)
    requires src == [PAD] || src == [PAD, PAD]
    ensures DecodeFrom(src, acc, nbits, out, room) == Some(out)
  {
    assert Value(PAD) == None;
    if src == [PAD, PAD] {
      assert src[1..] == [PAD];
      assert DecodeFrom([PAD], acc, nbits, out, room) == Some(out) by {
        assert [PAD][1..] == [];
      }
    } else {
      assert src[1..] == [];
    }
  }

  /** One letter. */
  lemma LetterStep(s: byte, rest: seq<byte>, acc: reg, nbits: nat, out: seq<byte>, room: nat)
    requires s < 64
    ensures var a := Push(acc, s);
            DecodeFrom([Letter(s)] + rest, acc, nbits, out, room)
            == if nbits + 6 < 8 then DecodeFrom(rest, a, nbits + 6, out, room)
               else if |out| >= room then None
               else DecodeFrom(rest, a, nbits - 2, out + [Out(a, nbits - 2)], room)
  {
    LetterValue(s);
    assert ([Letter(s)] + rest)[1..] == rest;
  }

  /** The accumulator after the four letters of a group. */
  function Pushed(acc: reg, v: reg): reg {
    Push(Push(Push(Push(acc, Six0(v)), Six1(v)), Six2(v)), Six3(v))
  }

  lemma GroupRead(a: byte, b: byte, c: byte, rest: seq<byte>, acc: reg, out: seq<byte>, room: nat)
    requires |out| <= room
    ensures DecodeFrom(Group(a, b, c) + rest, acc, 0, out, room)
            == if |out| + 3 <= room then DecodeFrom(rest, Pushed(acc, Triple(a, b, c)), 0, out + [a, b, c], room)
               else None
  {
    var v := Triple(a, b, c);
    var s0, s1, s2, s3 := Six0(v), Six1(v), Six2(v), Six3(v);
    SixesSmall(v);
    FirstOut(acc, a, b, c);
    SecondOut(Push(acc, s0), a, b, c);
    ThirdOut(Push(Push(acc, s0), s1), a, b, c);
    hide Letter, Push, Out, Six0, Six1, Six2, Six3, Triple;
    var l3 := [Letter(s3)] + rest;
    var l2 := [Letter(s2)] + l3;
    var l1 := [Letter(s1)] + l2;
    assert Group(a, b, c) + rest == [Letter(s0)] + l1;
    LetterStep(s0, l1, acc, 0, out, room);
    LetterStep(s1, l2, Push(acc, s0), 6, out, room);
    LetterStep(s2, l3, Push(Push(acc, s0), s1), 4, out + [a], room);
    LetterStep(s3, rest, Push(Push(Push(acc, s0), s1), s2), 2, out + [a] + [b], room);
    hide DecodeFrom;
    assert out + [a] + [b] + [c] == out + [a, b, c];
  }

  lemma Tail1Read(a: byte, acc: reg, out: seq<byte>, room: nat)
    requires |out| <= room
    ensures DecodeFrom(Tail1(a), acc, 0, out, room) == if |out| + 1 <= room then Some(out + [a]) else None
  {
    var v := Triple(a, 0, 0);
    var s0, s1 := Six0(v), Six1(v);
    SixesSmall(v);
    FirstOut(acc, a, 0, 0);
    hide Letter, Push, Out, Six0, Six1, Triple;
    var l1 := [Letter(s1)] + [PAD, PAD];
    assert Tail1(a) == [Letter(s0)] + l1;
    LetterStep(s0, l1, acc, 0, out, room);
    LetterStep(s1, [PAD, PAD], Push(acc, s0), 6, out, room);
    PadSkipped([PAD, PAD], Push(Push(acc, s0), s1), 4, out + [a], room);
  }

  lemma Tail2Read(a: byte, b: byte, acc: reg, out: seq<byte>, room: nat)
    requires |out| <= room
    ensures DecodeFrom(Tail2(a, b), acc, 0, out, room) == if |out| + 2 <= room then Some(out + [a, b]) else None
  {
    var v := Triple(a, b, 0);
    var s0, s1, s2 := Six0(v), Six1(v), Six2(v);
    SixesSmall(v);
    FirstOut(acc, a, b, 0);
    SecondOut(Push(acc, s0), a, b, 0);
    hide Letter, Push, Out, Six0, Six1, Six2, Triple;
    var l2 := [Letter(s2)] + [PAD];
    var l1 := [Letter(s1)] + l2;
    assert Tail2(a, b) == [Letter(s0)] + l1;
    LetterStep(s0, l1, acc, 0, out, room);
    LetterStep(s1, l2, Push(acc, s0), 6, out, room);
    LetterStep(s2, [PAD], Push(Push(acc, s0), s1), 4, out + [a], room);
    PadSkipped([PAD], Push(Push(Push(acc, s0), s1), s2), 2, out + [a] + [b], room);
    assert out + [a] + [b] == out + [a, b];
  }

  /** Decoding an encoding gives the original back whenever it fits, and fails otherwise. */
  lemma {:induction false} RoundTripFrom(src: seq<byte>, acc: reg, out: seq<byte>, room: nat)
    requires |out| <= room
    ensures DecodeFrom(Encode(src), acc, 0, out, room)
            == if |out| + |src| <= room then Some(out + src) else None
    decreases |src|
  {
    hide Group, Tail1, Tail2, Pushed, Triple;
    if src == [] {
      assert out + src == out;
    } else if |src| == 1 {
      Tail1Read(src[0], acc, out, room);
      assert src == [src[0]];
    } else if |src| == 2 {
      Tail2Read(src[0], src[1], acc, out, room);
      assert src == [src[0], src[1]];
    } else {
      var g := [src[0], src[1], src[2]];
      GroupRead(src[0], src[1], src[2], Encode(src[3..]), acc, out, room);
      if |out| + 3 <= room {
        RoundTripFrom(src[3..], Pushed(acc, Triple(src[0], src[1], src[2])), out + g, room);
        assert out + g + src[3..] == out + src;
      }
    }
  }

  lemma RoundTrip(src: seq<byte>, room: nat)
    ensures Decode(Encode(src), room) == if |src| <= room then Some(src) else None
  {
    RoundTripFrom(src, 0, [], room);
    assert [] + src == src;
  }

  // ---- the loops ----

  lemma EncodeMore(src: seq<byte>, i: nat, dst: seq<byte>)
    requires i + 3 <= |src| && dst + Encode(src[i..]) == Encode(src)
    ensures dst + Group(src[i], src[i + 1], src[i + 2]) + Encode(src[i + 3..]) == Encode(src)
  {
    hide Group;
    var rest, g := src[i..], Group(src[i], src[i + 1], src[i + 2]);
    assert rest[3..] == src[i + 3..];
    assert Encode(rest) == g + Encode(src[i + 3..]);
    assert dst + g + Encode(src[i + 3..]) == dst + (g + Encode(src[i + 3..]));
  }

  /** b64_encode */
  method B64Encode(src: seq<byte>) returns (dst: seq<byte>)
    ensures dst == Encode(src)
  {
    hide Letter, Six0, Six1, Six2, Six3, Triple;
    var i := 0;
    dst := [];
    assert src[0..] == src;
    while i + 3 <= |src|
      invariant 0 <= i <= |src| && dst + Encode(src[i..]) == Encode(src)
    {
      var v := Triple(src[i], src[i + 1], src[i + 2]);
      EncodeMore(src, i, dst);
      dst := dst + [Letter(Six0(v)), Letter(Six1(v)), Letter(Six2(v)), Letter(Six3(v))];
      i := i + 3;
    }
    if |src| - i == 1 {
      var v := Triple(src[i], 0, 0);
      dst := dst + [Letter(Six0(v)), Letter(Six1(v)), PAD, PAD];
    } else if |src| - i == 2 {
      var v := Triple(src[i], src[i + 1], 0);
      dst := dst + [Letter(Six0(v)), Letter(Six1(v)), Letter(Six2(v)), PAD];
    }
  }

  /** b64_decode: at most dst.Length bytes; -1 for a foreign character or no room. */
  method B64Decode(src: seq<byte>, dst: array<byte>) returns (n: int)
    modifies dst
    ensures match Decode(src, dst.Length)
            case None => n == -1
            case Some(bytes) => n == |bytes| <= dst.Length && dst[..n] == bytes
  {
    hide Value, Push, Out, Ignored;
    var acc: reg := 0;
    var nbits, o := 0, 0;
    assert src[0..] == src && dst[..0] == [];
    for i := 0 to |src|
      invariant 0 <= o <= dst.Length && (nbits == 0 || nbits == 2 || nbits == 4 || nbits == 6)
      invariant Decode(src, dst.Length) == DecodeFrom(src[i..], acc, nbits, dst[..o], dst.Length)
    {
      var v := Value(src[i]);
      assert src[i..][1..] == src[i + 1..];
      if v == None {
        if Ignored(src[i]) {
          continue;
        }
        return -1;
      }
      acc := Push(acc, v.value);
      nbits := nbits + 6;
      if nbits >= 8 {
        nbits := nbits - 8;
        if o >= dst.Length {
          return -1;
        }
        dst[o] := Out(acc, nbits);
        assert dst[..o + 1] == dst[..o] + [dst[o]];
        o := o + 1;
      }
    }
    n := o;
  }
}
