/** The three CRCs (src/util/io_crc.c, and the byte-parallel CCITT loop of src/fw/fw_upg.c,
    src/web/ws.c and tools/firmware_upgrade.py), each proved to be division by its polynomial. */
module Crc {
  import opened Bytes
  import opened RegBits
  import Lfsr

  type reg = bv32

  const MODBUS: word := 0xA001
  const CCITT: word := 0x8408
  const IEEE: reg := 0xEDB8_8320

  // ---- what the loops compute ----

  function Step(poly: word, x: word): word {
    if Low16(x) then Xor16(Half16(x), poly) else Half16(x)
  }

  function Steps(poly: word, x: word, n: nat): word {
    if n == 0 then x else Step(poly, Steps(poly, x, n - 1))
  }

  function Fold(poly: word, seed: word, m: seq<byte>): word {
    if m == [] then seed
    else Steps(poly, Xor16(Fold(poly, seed, m[..|m| - 1]), Wide16(m[|m| - 1])), 8)
  }

  function Crc16(m: seq<byte>): word {
    Fold(MODBUS, 0xFFFF, m)
  }

  function Ccitt(seed: word, m: seq<byte>): word {
    Fold(CCITT, seed, m)
  }

  function StepIeee(x: reg): reg {
    if Low32(x) then Xor32(Half32(x), IEEE) else Half32(x)
  }

  function StepsIeee(x: reg, n: nat): reg {
    if n == 0 then x else StepIeee(StepsIeee(x, n - 1))
  }

  function FoldIeee(seed: reg, m: seq<byte>): reg {
    if m == [] then seed
    else StepsIeee(Xor32(FoldIeee(seed, m[..|m| - 1]), Wide32(m[|m| - 1])), 8)
  }

  function Crc32(m: seq<byte>): reg {
    FoldIeee(0xFFFF_FFFF, m) ^ 0xFFFF_FFFF
  }

  /** Folding a message in chunks gives the CRC of the whole, whatever the chunks. */
  lemma {:induction false} FoldAppend(poly: word, seed: word, a: seq<byte>, b: seq<byte>)
    ensures Fold(poly, seed, a + b) == Fold(poly, Fold(poly, seed, a), b)
  {
    hide Steps, Xor16, Wide16;
    if b == [] {
      assert a + b == a;
    } else {
      var m := a + b;
      assert m[..|m| - 1] == a + b[..|b| - 1];
      FoldAppend(poly, seed, a, b[..|b| - 1]);
    }
  }

  // ---- the loops ----

  lemma FoldSnoc(poly: word, seed: word, m: seq<byte>, i: nat)
    requires i < |m|
    ensures Fold(poly, seed, m[..i + 1])
         == Steps(poly, Xor16(Fold(poly, seed, m[..i]), Wide16(m[i])), 8)
  {
    hide Steps, Xor16, Wide16;
    assert m[..i + 1][..i] == m[..i];
  }

  lemma FoldIeeeSnoc(seed: reg, m: seq<byte>, i: nat)
    requires i < |m|
    ensures FoldIeee(seed, m[..i + 1])
         == StepsIeee(Xor32(FoldIeee(seed, m[..i]), Wide32(m[i])), 8)
  {
    hide StepsIeee, Xor32, Wide32;
    assert m[..i + 1][..i] == m[..i];
  }

  /** crc16_modbus: bit-serial. */
  method Crc16Modbus(data: seq<byte>) returns (crc: word)
    ensures crc == Crc16(data)
  {
    hide Step, Fold, Xor16, Wide16;
    crc := 0xFFFF;
    FoldEmpty(MODBUS, 0xFFFF);
    for i := 0 to |data|
      invariant crc == Fold(MODBUS, 0xFFFF, data[..i])
    {
      FoldSnoc(MODBUS, 0xFFFF, data, i);
      crc := Xor16(crc, Wide16(data[i]));
      ghost var start := crc;
      for b := 0 to 8
        invariant crc == Steps(MODBUS, start, b)
      {
        crc := Step(MODBUS, crc);
      }
    }
    assert data[..|data|] == data;
  }

  lemma FoldEmpty(poly: word, seed: word)
    ensures Fold(poly, seed, []) == seed
  {
  }

  /** crc32_ieee. */
  method Crc32Ieee(data: seq<byte>) returns (crc: reg)
    ensures crc == Crc32(data)
  {
    hide StepIeee, FoldIeee, Xor32, Wide32;
    crc := 0xFFFF_FFFF;
    FoldIeeeEmpty(0xFFFF_FFFF);
    for i := 0 to |data|
      invariant crc == FoldIeee(0xFFFF_FFFF, data[..i])
    {
      FoldIeeeSnoc(0xFFFF_FFFF, data, i);
      crc := Xor32(crc, Wide32(data[i]));
      ghost var start := crc;
      for b := 0 to 8
        invariant crc == StepsIeee(start, b)
      {
        crc := StepIeee(crc);
      }
    }
    assert data[..|data|] == data;
    crc := crc ^ 0xFFFF_FFFF;
  }

  lemma FoldIeeeEmpty(seed: reg)
    ensures FoldIeee(seed, []) == seed
  {
  }

  /** crc16_ccitt / ws_crc16: one byte at a time, the eight shifts done in parallel. */
  method Crc16Ccitt(start: word, src: seq<byte>) returns (seed: word)
    ensures seed == Ccitt(start, src)
  {
    hide Steps, Fold, Xor16, Wide16, Parallel;
    seed := start;
    FoldEmpty(CCITT, start);
    for i := 0 to |src|
      invariant seed == Fold(CCITT, start, src[..i])
    {
      ParallelStep(seed, src[i]);
      FoldSnoc(CCITT, start, src, i);
      seed := Parallel(seed, src[i]);
    }
    assert src[..|src|] == src;
  }

  /** One byte of the parallel update, as written in C. */
  function Parallel(seed: word, b: byte): word {
    var e := ((seed ^ (b as word)) & 0xFF) as byte;
    var f := e ^ (e << 4);
    Mix(seed >> 8, f as word, (f >> 4) as word)
  }

  function Mix(high: word, f: word, g: word): word {
    high ^ (f << 8) ^ (f << 3) ^ g
  }

  function ParallelWord(x: word): word {
    var f := ((x & 0xFF) ^ ((x & 0xFF) << 4)) & 0xFF;
    Mix(x >> 8, f, f >> 4)
  }

  /** Four shifts at once. */
  function Nibble(x: word): word {
    var n := x & 0xF;
    (x >> 4) ^ (n << 12) ^ (n << 7) ^ n
  }

  function FourSteps(x: word): word {
    Step(CCITT, Step(CCITT, Step(CCITT, Step(CCITT, x))))
  }

  /** One shift, without the branch. */
  function Single(x: word): word {
    var n := x & 1;
    (x >> 1) ^ (n << 15) ^ (n << 10) ^ (n << 3)
  }

  /** Two shifts at once. */
  function Double(x: word): word {
    var n := x & 3;
    (x >> 2) ^ (n << 14) ^ (n << 9) ^ (n << 2)
  }

  lemma StepIsSingle(x: word)
    ensures Step(CCITT, x) == Single(x)
  {
    if x & 1 == 1 {
      assert Single(x) == (x >> 1) ^ CCITT;
    } else {
      assert x & 1 == 0;
    }
  }

  lemma SinglePair(x: word)
    ensures Single(Single(x)) == Double(x)
  {
  }

  lemma DoublePair(x: word)
    ensures Double(Double(x)) == Nibble(x)
  {
  }

  lemma FourStepsParallel(x: word)
    ensures FourSteps(x) == Nibble(x)
  {
    hide Step, Single, Double, Nibble;
    StepIsSingle(x);
    StepIsSingle(Single(x));
    SinglePair(x);
    StepIsSingle(Double(x));
    StepIsSingle(Single(Double(x)));
    SinglePair(Double(x));
    DoublePair(x);
  }

  lemma FourStepsSteps(x: word, n: nat)
    ensures Steps(CCITT, x, n + 4) == FourSteps(Steps(CCITT, x, n))
  {
    hide Step;
    assert Steps(CCITT, x, n + 2) == Step(CCITT, Step(CCITT, Steps(CCITT, x, n)));
  }

  lemma NarrowParallel(seed: word, b: byte)
    ensures Parallel(seed, b) == ParallelWord(Xor16(seed, Wide16(b)))
  {
    HighSame(seed, b);
    NarrowXor(seed, b);
    hide Mix, Xor16, Wide16;
  }

  lemma HighSame(seed: word, b: byte)
    ensures Xor16(seed, Wide16(b)) >> 8 == seed >> 8
  {
  }

  lemma NarrowXor(seed: word, b: byte)
    ensures var e := ((seed ^ (b as word)) & 0xFF) as byte;
            var f := e ^ (e << 4);
            var x := Xor16(seed, Wide16(b));
            var g := ((x & 0xFF) ^ ((x & 0xFF) << 4)) & 0xFF;
            f as word == g && (f >> 4) as word == g >> 4
  {
  }

  lemma NibblePair(x: word)
    ensures ParallelWord(x) == Nibble(Nibble(x))
  {
  }

  /** The byte-parallel update is eight bit-serial steps, for every register and byte. */
  lemma ParallelStep(seed: word, b: byte)
    ensures Parallel(seed, b) == Steps(CCITT, Xor16(seed, Wide16(b)), 8)
  {
    hide Step, FourSteps, Parallel, ParallelWord, Nibble, Xor16, Wide16;
    var x := Xor16(seed, Wide16(b));
    FourStepsSteps(x, 0);
    FourStepsSteps(x, 4);
    FourStepsParallel(x);
    FourStepsParallel(Nibble(x));
    NarrowParallel(seed, b);
    NibblePair(x);
  }

  // ---- the loops divide by the polynomial ----

  lemma StepIsShift(poly: word, x: word)
    ensures Bits16(Step(poly, x)) == Lfsr.Shift(Bits16(poly), Bits16(x), false)
  {
    hide Half16, Low16, Xor16;
    HalfBits16(x);
    XorBits16(Half16(x), poly);
    assert Bits16(x)[0] == Low16(x);
  }

  lemma {:induction false} StepsAreShifts(poly: word, x: word, n: nat)
    ensures Bits16(Steps(poly, x, n)) == Lfsr.Shifts(Bits16(poly), Bits16(x), n)
  {
    hide Step, Bits16;
    if n > 0 {
      StepsAreShifts(poly, x, n - 1);
      StepIsShift(poly, Steps(poly, x, n - 1));
    }
  }

  /** A 16-bit CRC loop leaves the remainder of the polynomial division. */
  lemma {:induction false} FoldIsDivision(poly: word, seed: word, m: seq<byte>)
    ensures Bits16(Fold(poly, seed, m)) == Lfsr.Run(Bits16(poly), Bits16(seed), MessageBits(m))
  {
    hide Steps, Xor16, Wide16, Bits16, Bits8, Lfsr.Shift, Lfsr.Shifts;
    if m != [] {
      var n := |m| - 1;
      var c := Fold(poly, seed, m[..n]);
      FoldIsDivision(poly, seed, m[..n]);
      StepsAreShifts(poly, Xor16(c, Wide16(m[n])), 8);
      XorBits16(c, Wide16(m[n]));
      WideBits16(m[n]);
      Lfsr.FeedWhole(Bits16(poly), Bits16(c), Bits8(m[n]));
      Lfsr.RunAppend(Bits16(poly), Bits16(seed), MessageBits(m[..n]), Bits8(m[n]));
    }
  }

  lemma StepIeeeIsShift(x: reg)
    ensures Bits32(StepIeee(x)) == Lfsr.Shift(Bits32(IEEE), Bits32(x), false)
  {
    hide Half32, Low32, Xor32;
    HalfBits32(x);
    XorBits32(Half32(x), IEEE);
    assert Bits32(x)[0] == Low32(x);
  }

  lemma {:induction false} StepsIeeeAreShifts(x: reg, n: nat)
    ensures Bits32(StepsIeee(x, n)) == Lfsr.Shifts(Bits32(IEEE), Bits32(x), n)
  {
    hide StepIeee, Bits32;
    if n > 0 {
      StepsIeeeAreShifts(x, n - 1);
      StepIeeeIsShift(StepsIeee(x, n - 1));
    }
  }

  /** The CRC-32 loop leaves the remainder of the polynomial division. */
  lemma {:induction false} FoldIeeeIsDivision(seed: reg, m: seq<byte>)
    ensures Bits32(FoldIeee(seed, m)) == Lfsr.Run(Bits32(IEEE), Bits32(seed), MessageBits(m))
  {
    hide StepsIeee, Xor32, Wide32, Bits32, Bits8, Lfsr.Shift, Lfsr.Shifts;
    if m != [] {
      var n := |m| - 1;
      var c := FoldIeee(seed, m[..n]);
      FoldIeeeIsDivision(seed, m[..n]);
      StepsIeeeAreShifts(Xor32(c, Wide32(m[n])), 8);
      XorBits32(c, Wide32(m[n]));
      WideBits32(m[n]);
      Lfsr.FeedWhole(Bits32(IEEE), Bits32(c), Bits8(m[n]));
      Lfsr.RunAppend(Bits32(IEEE), Bits32(seed), MessageBits(m[..n]), Bits8(m[n]));
    }
  }
}
