/** Setting, clearing, testing and packing single bits with masks, as the register map and the
    Modbus coil functions do it, stated in terms of RegBits' bits. */
module BitOps {
  import opened Bytes
  import opened RegBits

  // ---- 16-bit registers ----

  const MASKS: seq<word> :=
    [0x1, 0x2, 0x4, 0x8, 0x10, 0x20, 0x40, 0x80,
     0x100, 0x200, 0x400, 0x800, 0x1000, 0x2000, 0x4000, 0x8000]

  /** BIT(i) */
  function Mask(i: nat): word
    requires i < 16
  {
    MASKS[i]
  }

  function Or(x: word, y: word): word { x | y }
  function Both(x: word, y: word): word { x & y }
  function Without(x: word, m: word): word { x & !m }

  /** WRITE_BIT */
  function SetBit(v: word, i: nat, s: bool): word
    requires i < 16
  {
    if s then Or(v, Mask(i)) else Without(v, Mask(i))
  }

  function TestBit(v: word, i: nat): bool
    requires i < 16
  {
    Both(v, Mask(i)) != 0
  }

  lemma OrFacts(x: word, y: word)
    ensures Half16(Or(x, y)) == Or(Half16(x), Half16(y))
    ensures Low16(Or(x, y)) == (Low16(x) || Low16(y))
  {
  }

  lemma BothHalf(x: word, y: word)
    ensures Half16(Both(x, y)) == Both(Half16(x), Half16(y))
  {
  }

  lemma BothLow(x: word, y: word)
    ensures Low16(Both(x, y)) == (Low16(x) && Low16(y))
  {
  }

  lemma WithoutHalf(x: word, y: word)
    ensures Half16(Without(x, y)) == Without(Half16(x), Half16(y))
  {
  }

  lemma WithoutLow(x: word, y: word)
    ensures Low16(Without(x, y)) == (Low16(x) && !Low16(y))
  {
  }

  lemma {:induction false} BinaryBits(x: word, y: word, i: nat)
    ensures Bit16(Or(x, y), i) == (Bit16(x, i) || Bit16(y, i))
    ensures Bit16(Both(x, y), i) == (Bit16(x, i) && Bit16(y, i))
    ensures Bit16(Without(x, y), i) == (Bit16(x, i) && !Bit16(y, i))
    decreases i
  {
    hide Half16, Low16, Or, Both, Without;
    OrFacts(x, y);
    BothHalf(x, y);
    BothLow(x, y);
    WithoutHalf(x, y);
    WithoutLow(x, y);
    if i > 0 {
      BinaryBits(Half16(x), Half16(y), i - 1);
    }
  }

  lemma MaskFacts(i: nat)
    requires i < 16
    ensures Low16(Mask(i)) == (i == 0)
    ensures Half16(Mask(i)) == if i == 0 then 0 else Mask(i - 1)
  {
  }

  lemma {:induction false} MaskBit(i: nat, j: nat)
    requires i < 16
    ensures Bit16(Mask(i), j) == (i == j)
    decreases j
  {
    hide Half16, Low16, Mask;
    MaskFacts(i);
    if j > 0 {
      if i == 0 {
        Zero16(j - 1);
      } else {
        MaskBit(i - 1, j - 1);
      }
    }
  }

  lemma TestIsBit(v: word, i: nat)
    requires i < 16
    ensures TestBit(v, i) == Bit16(v, i)
  {
    if Bit16(v, i) {
      SomeLeft(v, i);
    } else {
      NoneLeft(v, i);
    }
    hide Half16, Low16, Both, Mask, Bits16, Bit16;
  }

  lemma SomeLeft(v: word, i: nat)
    requires i < 16 && Bit16(v, i)
    ensures Both(v, Mask(i)) != 0
  {
    hide Half16, Low16, Both, Mask, Bits16, Bit16;
    BinaryBits(v, Mask(i), i);
    MaskBit(i, i);
    Zero16(i);
  }

  lemma NoneLeft(v: word, i: nat)
    requires i < 16 && !Bit16(v, i)
    ensures Both(v, Mask(i)) == 0
  {
    hide Half16, Low16, Both, Mask, Bits16, Bit16;
    var b := Both(v, Mask(i));
    forall j: nat | j < 16
      ensures Bit16(b, j) == Bit16(0, j)
    {
      BinaryBits(v, Mask(i), j);
      MaskBit(i, j);
      Zero16(j);
    }
    AllWithin16(b);
    AllWithin16(0);
    SameBits16(b, 0, 16);
  }

  /** The words of n low ones. */
  const LOWS: seq<word> := [0, 0x1, 0x3, 0x7, 0xF, 0x1F, 0x3F, 0x7F, 0xFF]

  lemma LowsFacts(n: nat)
    requires 0 < n <= 8
    ensures Low16(LOWS[n]) && Half16(LOWS[n]) == LOWS[n - 1]
  {
  }

  lemma {:induction false} LowsBit(n: nat, j: nat)
    requires j < n <= 8
    ensures Bit16(LOWS[n], j)
    decreases n
  {
    LowsFacts(n);
    hide Half16, Low16;
    if j > 0 {
      LowsBit(n - 1, j - 1);
    }
  }

  /** Writing one output bit: that bit is as written, the other seven are as before. */
  lemma SetBitThenTest(v: word, i: nat, s: bool, j: nat)
    requires i < 8 && j < 8
    ensures TestBit(Both(SetBit(v, i, s), 0xFF), j) == if i == j then s else TestBit(v, j)
  {
    hide Half16, Low16, Both, Or, Without, Mask, TestBit;
    TestIsBit(Both(SetBit(v, i, s), 0xFF), j);
    TestIsBit(v, j);
    BinaryBits(SetBit(v, i, s), 0xFF, j);
    BinaryBits(v, Mask(i), j);
    MaskBit(i, j);
    LowsBit(8, j);
  }

  // ---- bits packed into bytes, low bit first ----

  function Or8(x: byte, y: byte): byte { x | y }
  function Double8(x: byte): byte { x << 1 }

  const MASKS8: seq<byte> := [0x1, 0x2, 0x4, 0x8, 0x10, 0x20, 0x40, 0x80]

  lemma OrFacts8(x: byte, y: byte)
    ensures Half8(Or8(x, y)) == Or8(Half8(x), Half8(y)) && Low8(Or8(x, y)) == (Low8(x) || Low8(y))
  {
  }

  lemma {:induction false} OrBit8(x: byte, y: byte, i: nat)
    ensures Bit8(Or8(x, y), i) == (Bit8(x, i) || Bit8(y, i))
    decreases i
  {
    hide Half8, Low8, Or8;
    OrFacts8(x, y);
    if i > 0 {
      OrBit8(Half8(x), Half8(y), i - 1);
    }
  }

  lemma MaskFacts8(i: nat)
    requires i < 8
    ensures Low8(MASKS8[i]) == (i == 0)
    ensures Half8(MASKS8[i]) == if i == 0 then 0 else MASKS8[i - 1]
    ensures i < 7 ==> Double8(MASKS8[i]) == MASKS8[i + 1]
  {
  }

  lemma {:induction false} Zero8(i: nat)
    ensures !Bit8(0, i)
  {
    assert Half8(0) == 0 && !Low8(0);
    if i > 0 {
      Zero8(i - 1);
    }
  }

  lemma {:induction false} MaskBit8(i: nat, j: nat)
    requires i < 8
    ensures Bit8(MASKS8[i], j) == (i == j)
    decreases j
  {
    hide Half8, Low8;
    MaskFacts8(i);
    if j > 0 {
      if i == 0 {
        Zero8(j - 1);
      } else {
        MaskBit8(i - 1, j - 1);
      }
    }
  }

  /** Bit k of a byte string, counting from the low bit of its first byte. */
  predicate BitAt(b: seq<byte>, k: nat)
    requires k < 8 * |b|
  {
    Bit8(b[k / 8], k % 8)
  }

  /** b holds the bits `states` and nothing else. */
  predicate Packs(b: seq<byte>, states: seq<bool>) {
    |states| <= 8 * |b| && forall k :: 0 <= k < 8 * |b| ==> BitAt(b, k) == (k < |states| && states[k])
  }
}
