/** What the CRCs protect against: every burst as wide as the register, every odd number of
    flipped bits (Modbus polynomial), and two values of one 4-byte field never share a CRC-32. */
module CrcDetection {
  import opened Bytes
  import opened RegBits
  import opened Crc
  import Lfsr

  /** The acceptance test of a serial frame: its last two bytes are the CRC of the rest, low
      byte first. */
  predicate FrameOk(f: seq<byte>) {
    |f| >= 2 && Pair16(f[|f| - 2], f[|f| - 1]) == Crc16(f[..|f| - 2])
  }

  /** A body with its CRC appended, as the reply path does. */
  function Sealed(body: seq<byte>): seq<byte> {
    body + [Lo16(Crc16(body)), Hi16(Crc16(body))]
  }

  lemma SealedOk(body: seq<byte>)
    ensures FrameOk(Sealed(body))
  {
    hide Crc16, Pair16, Lo16, Hi16;
    PairHalves(Crc16(body));
    assert Sealed(body)[..|body|] == body;
  }

  const POLY := Bits16(MODBUS)
  const INIT := Bits16(0xFFFF)

  lemma PolyTop()
    ensures POLY[15]
  {
    DownBit16(0xA001, 11);
    assert Down16(0xA001) == 0xA00;
    assert Bit16(0xA00, 11);
  }

  lemma OneByte(b: byte)
    ensures MessageBits([b]) == Bits8(b)
  {
    hide Bits8;
    assert [b][..0] == [];
    assert MessageBits([]) == [];
  }

  lemma TwoBytes(x: byte, y: byte)
    ensures MessageBits([x, y]) == Bits8(x) + Bits8(y)
  {
    hide Bits8;
    assert [x, y][..1] == [x];
    OneByte(x);
  }

  lemma SplitBits(a: seq<byte>, b: seq<byte>, c: seq<byte>)
    ensures MessageBits(a + b + c) == MessageBits(a) + MessageBits(b) + MessageBits(c)
  {
    hide MessageBits;
    MessageBitsAppend(a + b, c);
    MessageBitsAppend(a, b);
  }

  /** A frame is accepted exactly when the whole of it, CRC included, divides evenly. */
  lemma AcceptedIffResidueZero(f: seq<byte>)
    requires |f| >= 2
    ensures FrameOk(f) <==> Lfsr.Run(POLY, INIT, MessageBits(f)) == Lfsr.Zeros(16)
  {
    hide Bits16, Bits8, Crc.Fold, Pair16, Lfsr.Shift, Lfsr.Run, MessageBits;
    var n := |f| - 2;
    var body, lo, hi := f[..n], f[n], f[n + 1];
    assert f == body + [lo, hi];
    MessageBitsAppend(body, [lo, hi]);
    TwoBytes(lo, hi);
    PairBits16(lo, hi);
    var tail := Bits8(lo) + Bits8(hi);
    Lfsr.RunAppend(POLY, INIT, MessageBits(body), tail);
    FoldIsDivision(MODBUS, 0xFFFF, body);
    PolyTop();
    Lfsr.ResidueZero(POLY, Bits16(Crc16(body)), tail);
    if tail == Bits16(Crc16(body)) {
      BitsInjective16(Pair16(lo, hi), Crc16(body));
    }
  }

  /** No valid frame turns into another valid frame by an error burst of up to 16 consecutive
      bits on the line, wherever it falls: payload, CRC or across the boundary. */
  lemma BurstRejected(f: seq<byte>, g: seq<byte>,
                      before: Lfsr.bits, u: Lfsr.bits, v: Lfsr.bits, after: Lfsr.bits)
    requires FrameOk(f) && |g| == |f|
    requires MessageBits(f) == before + u + after && MessageBits(g) == before + v + after
    requires |u| == |v| <= 16 && u != v
    ensures !FrameOk(g)
  {
    hide Bits16, Crc16, Pair16, Lfsr.Shift, Lfsr.Run;
    PolyTop();
    AcceptedIffResidueZero(f);
    AcceptedIffResidueZero(g);
    Lfsr.BurstDetected(POLY, INIT, before, u, v, after);
  }

  /** In bytes: a frame that differs from a valid one only inside two adjacent bytes is
      rejected. */
  lemma TwoByteErrorRejected(f: seq<byte>, g: seq<byte>, i: nat)
    requires FrameOk(f) && |g| == |f| && i + 2 <= |f| && f != g
    requires f[..i] == g[..i] && f[i + 2..] == g[i + 2..]
    ensures !FrameOk(g)
  {
    hide FrameOk, MessageBits;
    var x, y := f[i..i + 2], g[i..i + 2];
    assert f == f[..i] + x + f[i + 2..] && g == f[..i] + y + f[i + 2..];
    SplitBits(f[..i], x, f[i + 2..]);
    SplitBits(f[..i], y, f[i + 2..]);
    MessageBitsLength(x);
    MessageBitsLength(y);
    MessageBitsInjective(x, y);
    BurstRejected(f, g, MessageBits(f[..i]), MessageBits(x), MessageBits(y),
                  MessageBits(f[i + 2..]));
  }

  lemma BitsInjective8(x: byte, y: byte)
    requires Bits8(x) == Bits8(y)
    ensures x == y
  {
    WideBits16(x);
    WideBits16(y);
    BitsInjective16(Wide16(x), Wide16(y));
    WideInjective16(x, y);
  }

  lemma WideInjective16(x: byte, y: byte)
    requires Wide16(x) == Wide16(y)
    ensures x == y
  {
  }

  lemma PolyOdd()
    ensures Lfsr.Odd(POLY)
  {
    var p := [true] + Lfsr.Zeros(12) + [true, false, true];
    PolyBits();
    assert POLY == p;
    Lfsr.NotOdd(12);
    Lfsr.OddCons(true, Lfsr.Zeros(12));
    assert p[..15] == [true] + Lfsr.Zeros(12) + [true, false];
    assert p[..15][..14] == [true] + Lfsr.Zeros(12) + [true];
    assert p[..15][..14][..13] == [true] + Lfsr.Zeros(12);
  }

  lemma PolyBits()
    ensures forall i: nat :: i < 16 ==> Bit16(0xA001, i) == (i == 0 || i == 13 || i == 15)
  {
    assert Down16(0xA001) == 0xA00 && Down16(0xA00) == 0xA0 && Down16(0xA0) == 0xA;
    forall i: nat | i < 16
      ensures Bit16(0xA001, i) == (i == 0 || i == 13 || i == 15)
    {
      if i >= 4 {
        DownBit16(0xA001, i - 4);
      }
      if i >= 8 {
        DownBit16(0xA00, i - 8);
      }
      if i >= 12 {
        DownBit16(0xA0, i - 12);
      }
      assert Bit16(0xA001, 0) && !Bit16(0xA001, 1) && !Bit16(0xA001, 2) && !Bit16(0xA001, 3);
      assert !Bit16(0xA00, 0) && !Bit16(0xA00, 1) && !Bit16(0xA00, 2) && !Bit16(0xA00, 3);
      assert !Bit16(0xA0, 0) && !Bit16(0xA0, 1) && !Bit16(0xA0, 2) && !Bit16(0xA0, 3);
      assert !Bit16(0xA, 0) && Bit16(0xA, 1) && !Bit16(0xA, 2) && Bit16(0xA, 3);
    }
  }

  lemma EvenStart()
    ensures !Lfsr.Odd(INIT)
  {
    StartBits();
    assert INIT == seq(16, i => true);
    AllOnes(8);
  }

  lemma StartBits()
    ensures forall i: nat :: i < 16 ==> Bit16(0xFFFF, i)
  {
    assert Down16(0xFFFF) == 0xFFF && Down16(0xFFF) == 0xFF && Down16(0xFF) == 0xF;
    forall i: nat | i < 16
      ensures Bit16(0xFFFF, i)
    {
      if i >= 4 {
        DownBit16(0xFFFF, i - 4);
      }
      if i >= 8 {
        DownBit16(0xFFF, i - 8);
      }
      if i >= 12 {
        DownBit16(0xFF, i - 12);
      }
      assert Bit16(0xFFFF, 0) && Bit16(0xFFFF, 1) && Bit16(0xFFFF, 2) && Bit16(0xFFFF, 3);
      assert Bit16(0xFFF, 0) && Bit16(0xFFF, 1) && Bit16(0xFFF, 2) && Bit16(0xFFF, 3);
      assert Bit16(0xFF, 0) && Bit16(0xFF, 1) && Bit16(0xFF, 2) && Bit16(0xFF, 3);
      assert Bit16(0xF, 0) && Bit16(0xF, 1) && Bit16(0xF, 2) && Bit16(0xF, 3);
    }
  }

  lemma {:induction false} AllOnes(k: nat)
    ensures !Lfsr.Odd(seq(2 * k, i => true))
  {
    if k > 0 {
      var s: Lfsr.bits := seq(2 * k, i => true);
      assert s[..2 * k - 1][..2 * k - 2] == seq(2 * (k - 1), i => true);
      AllOnes(k - 1);
    }
  }

  /** Every valid frame has an even number of one bits. */
  lemma ValidFrameEven(f: seq<byte>)
    requires FrameOk(f)
    ensures !Lfsr.Odd(MessageBits(f))
  {
    hide Bits16, Crc16, Pair16, Lfsr.Shift, Lfsr.Run;
    AcceptedIffResidueZero(f);
    PolyOdd();
    EvenStart();
    Lfsr.ParityKept(POLY, INIT, MessageBits(f));
    Lfsr.NotOdd(16);
  }

  /** A frame that differs from a valid one in an odd number of bits is rejected. */
  lemma OddFlipsRejected(f: seq<byte>, g: seq<byte>)
    requires FrameOk(f) && |g| == |f| && |MessageBits(f)| == |MessageBits(g)|
    requires Lfsr.Odd(Lfsr.Xor(MessageBits(f), MessageBits(g)))
    ensures !FrameOk(g)
  {
    hide FrameOk;
    var x, y := MessageBits(f), MessageBits(g);
    Lfsr.OddXor(x, y, Lfsr.Xor(x, y));
    ValidFrameEven(f);
    if FrameOk(g) {
      ValidFrameEven(g);
      assert false;
    }
  }

  // ---- CRC-32 ----

  lemma IeeeTop()
    ensures Bits32(IEEE)[31]
  {
    assert Down32(0xEDB8_8320) == 0xEDB_8832 && Down32(0xEDB_8832) == 0xED_B883;
    assert Down32(0xED_B883) == 0xE_DB88 && Down32(0xE_DB88) == 0xEDB8;
    assert Down32(0xEDB8) == 0xEDB;
    DownBit32(0xEDB8_8320, 27);
    DownBit32(0xEDB_8832, 23);
    DownBit32(0xED_B883, 19);
    DownBit32(0xE_DB88, 15);
    DownBit32(0xEDB8, 11);
    assert Bit32(0xEDB, 11);
  }

  lemma CancelXor32(x: bv32, y: bv32, k: bv32)
    requires x ^ k == y ^ k
    ensures x == y
  {
  }

  /** Of all values a 4-byte field can take while the rest of a record stays fixed, no two
      give the record the same CRC-32. */
  lemma Crc32WindowInjective(before: seq<byte>, x: seq<byte>, y: seq<byte>, after: seq<byte>)
    requires |x| == |y| == 4
    requires Crc32(before + x + after) == Crc32(before + y + after)
    ensures x == y
  {
    if x != y {
      WindowBits(before, x, y, after);
      var all: reg := 0xFFFF_FFFF;
      CancelXor32(FoldIeee(all, before + x + after), FoldIeee(all, before + y + after), all);
      assert false;
    }
  }

  lemma WindowBits(before: seq<byte>, x: seq<byte>, y: seq<byte>, after: seq<byte>)
    requires |x| == |y| == 4 && x != y
    ensures FoldIeee(0xFFFF_FFFF, before + x + after) != FoldIeee(0xFFFF_FFFF, before + y + after)
  {
    hide Bits32, MessageBits, FoldIeee, Lfsr.Shift, Lfsr.Run;
    var all: reg := 0xFFFF_FFFF;
    FoldIeeeIsDivision(all, before + x + after);
    FoldIeeeIsDivision(all, before + y + after);
    SplitBits(before, x, after);
    SplitBits(before, y, after);
    MessageBitsLength(x);
    MessageBitsLength(y);
    MessageBitsInjective(x, y);
    IeeeTop();
    Lfsr.BurstDetected(Bits32(IEEE), Bits32(all), MessageBits(before),
                       MessageBits(x), MessageBits(y), MessageBits(after));
  }

  lemma {:induction false} MessageBitsInjective(x: seq<byte>, y: seq<byte>)
    requires |x| == |y|
    ensures MessageBits(x) == MessageBits(y) ==> x == y
  {
    hide Bits8;
    if x != [] && MessageBits(x) == MessageBits(y) {
      var n := |x| - 1;
      MessageBitsLength(x[..n]);
      MessageBitsLength(y[..n]);
      var p, q := MessageBits(x[..n]), MessageBits(y[..n]);
      assert MessageBits(x)[..8 * n] == p && MessageBits(y)[..8 * n] == q;
      assert MessageBits(x)[8 * n..] == Bits8(x[n]) && MessageBits(y)[8 * n..] == Bits8(y[n]);
      MessageBitsInjective(x[..n], y[..n]);
      BitsInjective8(x[n], y[n]);
      assert x == x[..n] + [x[n]] && y == y[..n] + [y[n]];
    }
  }
}
