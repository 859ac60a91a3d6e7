/** Machine words as bit sequences, least significant bit first: the bridge between the shift
    registers of the C code and the reference register.
    Each width has three primitive facts (how halving, the low bit and xor interact) that the
    solver checks on bit-vectors; every other proof hides the operations and uses those facts. */
module RegBits {
  import opened Bytes
  import Lfsr

  // ---- 8 bits ----

  function Half8(x: bv8): bv8 { x >> 1 }
  predicate Low8(x: bv8) { x & 1 == 1 }

  predicate Bit8(x: bv8, i: nat)
    decreases i
  {
    if i == 0 then Low8(x) else Bit8(Half8(x), i - 1)
  }

  function Bits8(x: bv8): (b: Lfsr.bits)
    ensures |b| == 8
  {
    seq(8, i requires 0 <= i => Bit8(x, i))
  }

  /** The bits of a message in the order they enter the register (and leave a UART). */
  function MessageBits(m: seq<byte>): Lfsr.bits {
    if m == [] then [] else MessageBits(m[..|m| - 1]) + Bits8(m[|m| - 1])
  }

  lemma {:induction false} MessageBitsLength(m: seq<byte>)
    ensures |MessageBits(m)| == 8 * |m|
  {
    if m != [] {
      MessageBitsLength(m[..|m| - 1]);
    }
  }

  lemma {:induction false} MessageBitsAppend(a: seq<byte>, b: seq<byte>)
    ensures MessageBits(a + b) == MessageBits(a) + MessageBits(b)
  {
    if b == [] {
      assert a + b == a;
    } else {
      var m := a + b;
      assert m[..|m| - 1] == a + b[..|b| - 1];
      MessageBitsAppend(a, b[..|b| - 1]);
    }
  }

  // ---- 16 bits ----

  function Half16(x: bv16): bv16 { x >> 1 }
  predicate Low16(x: bv16) { x & 1 == 1 }
  function Xor16(x: bv16, y: bv16): bv16 { x ^ y }
  function Wide16(b: bv8): bv16 { b as bv16 }

  predicate Bit16(x: bv16, i: nat)
    decreases i
  {
    if i == 0 then Low16(x) else Bit16(Half16(x), i - 1)
  }

  function Bits16(x: bv16): (b: Lfsr.bits)
    ensures |b| == 16
  {
    seq(16, i requires 0 <= i => Bit16(x, i))
  }

  lemma Facts16(x: bv16, y: bv16)
    ensures Half16(Xor16(x, y)) == Xor16(Half16(x), Half16(y))
    ensures Low16(Xor16(x, y)) == (Low16(x) != Low16(y))
    ensures Half16(x) == Half16(y) && Low16(x) == Low16(y) ==> x == y
  {
  }

  lemma {:induction false} XorBit16(x: bv16, y: bv16, i: nat)
    ensures Bit16(Xor16(x, y), i) == (Bit16(x, i) != Bit16(y, i))
    decreases i
  {
    hide Half16, Low16, Xor16;
    Facts16(x, y);
    if i > 0 {
      XorBit16(Half16(x), Half16(y), i - 1);
    }
  }

  lemma XorBits16(x: bv16, y: bv16)
    ensures Bits16(Xor16(x, y)) == Lfsr.Xor(Bits16(x), Bits16(y))
  {
    hide Half16, Low16, Xor16;
    forall i: nat | i < 16
      ensures Bit16(Xor16(x, y), i) == (Bit16(x, i) != Bit16(y, i))
    {
      XorBit16(x, y, i);
    }
  }

  /** x has at most n significant bits. */
  predicate Within16(x: bv16, n: nat)
    decreases n
  {
    if n == 0 then x == 0 else Within16(Half16(x), n - 1)
  }

  function Down16(x: bv16): bv16 {
    Half16(Half16(Half16(Half16(x))))
  }

  lemma DownFacts16(x: bv16, b: byte)
    ensures Down16(Down16(Down16(Down16(x)))) == 0
    ensures Down16(Down16(Wide16(b))) == 0
  {
  }

  lemma FourWithin16(x: bv16, n: nat)
    requires Within16(Down16(x), n)
    ensures Within16(x, n + 4)
  {
    hide Half16;
    assert Within16(Half16(Half16(Half16(x))), n + 1);
    assert Within16(Half16(Half16(x)), n + 2);
    assert Within16(Half16(x), n + 3);
  }

  lemma AllWithin16(x: bv16)
    ensures Within16(x, 16)
  {
    hide Half16, Down16, Wide16;
    DownFacts16(x, 0);
    var a := Down16(x);
    var b := Down16(a);
    var c := Down16(b);
    FourWithin16(c, 0);
    FourWithin16(b, 4);
    FourWithin16(a, 8);
    FourWithin16(x, 12);
  }

  lemma ByteWithin16(b: byte)
    ensures Within16(Wide16(b), 8)
  {
    hide Half16, Down16, Wide16;
    DownFacts16(0, b);
    FourWithin16(Down16(Wide16(b)), 0);
    FourWithin16(Wide16(b), 4);
  }

  lemma {:induction false} Above16(x: bv16, n: nat, i: nat)
    requires Within16(x, n) && n <= i
    ensures !Bit16(x, i)
    decreases i
  {
    if n == 0 {
      Zero16(i);
    } else {
      Above16(Half16(x), n - 1, i - 1);
    }
  }

  lemma {:induction false} Zero16(i: nat)
    ensures !Bit16(0, i)
  {
    assert Half16(0) == 0 && !Low16(0);
    if i > 0 {
      Zero16(i - 1);
    }
  }

  lemma HalfBits16(x: bv16)
    ensures Bits16(Half16(x)) == Bits16(x)[1..] + [false]
  {
    hide Half16, Low16;
    AllWithin16(x);
    Above16(x, 16, 16);
    forall i: nat | i < 16
      ensures Bit16(Half16(x), i) == Bit16(x, i + 1)
    {
    }
  }

  lemma WideFacts16(b: byte)
    ensures Half16(Wide16(b)) == Wide16(Half8(b)) && Low16(Wide16(b)) == Low8(b)
  {
  }

  lemma {:induction false} WideBit16(b: byte, i: nat)
    ensures Bit16(Wide16(b), i) == Bit8(b, i)
    decreases i
  {
    hide Half16, Low16, Half8, Low8, Wide16;
    WideFacts16(b);
    if i > 0 {
      WideBit16(Half8(b), i - 1);
    }
  }

  lemma WideBits16(b: byte)
    ensures Bits16(Wide16(b)) == Bits8(b) + Lfsr.Zeros(8)
  {
    hide Half16, Low16, Half8, Low8, Wide16;
    var x, y := Bits16(Wide16(b)), Bits8(b) + Lfsr.Zeros(8);
    forall i: nat | i < 16
      ensures x[i] == y[i]
    {
      WideBit16(b, i);
      if i >= 8 {
        ByteWithin16(b);
        Above16(Wide16(b), 8, i);
      }
    }
  }

  lemma {:induction false} SameBits16(x: bv16, y: bv16, n: nat)
    requires Within16(x, n) && Within16(y, n)
    requires forall i: nat :: i < n ==> Bit16(x, i) == Bit16(y, i)
    ensures x == y
    decreases n
  {
    hide Half16, Low16, Xor16;
    if n > 0 {
      forall i: nat | i < n - 1
        ensures Bit16(Half16(x), i) == Bit16(Half16(y), i)
      {
        assert Bit16(x, i + 1) == Bit16(y, i + 1);
      }
      SameBits16(Half16(x), Half16(y), n - 1);
      assert Bit16(x, 0) == Bit16(y, 0);
      Facts16(x, y);
    }
  }

  lemma BitsInjective16(x: bv16, y: bv16)
    requires Bits16(x) == Bits16(y)
    ensures x == y
  {
    hide Half16, Low16;
    AllWithin16(x);
    AllWithin16(y);
    forall i: nat | i < 16
      ensures Bit16(x, i) == Bit16(y, i)
    {
      assert Bits16(x)[i] == Bits16(y)[i];
    }
    SameBits16(x, y, 16);
  }

  /** The bytes of a 16-bit word. */
  function Lo16(c: bv16): byte { (c & 0xFF) as byte }
  function Hi16(c: bv16): byte { (c >> 8) as byte }

  lemma PairHalves(c: bv16)
    ensures Pair16(Lo16(c), Hi16(c)) == c
  {
  }

  lemma HalvesPair(lo: byte, hi: byte)
    ensures Lo16(Pair16(lo, hi)) == lo && Hi16(Pair16(lo, hi)) == hi
  {
  }

  function Pair16(lo: byte, hi: byte): bv16 {
    Wide16(lo) | (Wide16(hi) << 8)
  }

  function Down8(x: bv8): bv8 {
    Half8(Half8(Half8(Half8(x))))
  }

  lemma PairHigh(lo: byte, hi: byte)
    ensures Down16(Down16(Pair16(lo, hi))) == Wide16(hi)
  {
  }

  lemma PairLow(lo: byte, hi: byte)
    ensures LowFour(Pair16(lo, hi), lo)
  {
  }

  lemma PairMiddle(lo: byte, hi: byte)
    ensures LowFour(Down16(Pair16(lo, hi)), Down8(lo))
  {
  }

  predicate LowFour(w: bv16, lo: bv8) {
    && Low16(w) == Low8(lo)
    && Low16(Half16(w)) == Low8(Half8(lo))
    && Low16(Half16(Half16(w))) == Low8(Half8(Half8(lo)))
    && Low16(Half16(Half16(Half16(w)))) == Low8(Half8(Half8(Half8(lo))))
  }

  lemma LowFourBits(w: bv16, lo: bv8, i: nat)
    requires LowFour(w, lo) && i < 4
    ensures Bit16(w, i) == Bit8(lo, i)
  {
    hide Half16, Low16, Half8, Low8;
    assert Bit16(Half16(Half16(w)), 1) == Low16(Half16(Half16(Half16(w))));
    assert Bit8(Half8(Half8(lo)), 1) == Low8(Half8(Half8(Half8(lo))));
    assert Bit16(Half16(w), 1) == Low16(Half16(Half16(w)));
    assert Bit8(Half8(lo), 1) == Low8(Half8(Half8(lo)));
    assert Bit16(Half16(w), 2) == Bit16(Half16(Half16(w)), 1);
    assert Bit8(Half8(lo), 2) == Bit8(Half8(Half8(lo)), 1);
    assert i == 0 || i == 1 || i == 2 || i == 3;
  }

  lemma DownBit16(w: bv16, i: nat)
    ensures Bit16(w, i + 4) == Bit16(Down16(w), i)
  {
    hide Half16, Low16;
    assert Bit16(w, i + 4) == Bit16(Half16(w), i + 3);
    assert Bit16(Half16(w), i + 3) == Bit16(Half16(Half16(w)), i + 2);
    assert Bit16(Half16(Half16(w)), i + 2) == Bit16(Half16(Half16(Half16(w))), i + 1);
  }

  lemma DownBit8(b: bv8, i: nat)
    ensures Bit8(b, i + 4) == Bit8(Down8(b), i)
  {
    hide Half8, Low8;
    assert Bit8(b, i + 4) == Bit8(Half8(b), i + 3);
    assert Bit8(Half8(b), i + 3) == Bit8(Half8(Half8(b)), i + 2);
    assert Bit8(Half8(Half8(b)), i + 2) == Bit8(Half8(Half8(Half8(b))), i + 1);
  }

  /** A word received low byte first has the bits of its two bytes in order. */
  lemma PairBits16(lo: byte, hi: byte)
    ensures Bits16(Pair16(lo, hi)) == Bits8(lo) + Bits8(hi)
  {
    hide Half16, Low16, Half8, Low8, Wide16, Pair16, Down16, Down8, LowFour;
    var w := Pair16(lo, hi);
    var x, y := Bits16(w), Bits8(lo) + Bits8(hi);
    PairHigh(lo, hi);
    PairLow(lo, hi);
    PairMiddle(lo, hi);
    forall i: nat | i < 16
      ensures x[i] == y[i]
    {
      if i < 4 {
        LowFourBits(w, lo, i);
      } else {
        DownBit16(w, i - 4);
        if i < 8 {
          LowFourBits(Down16(w), Down8(lo), i - 4);
          DownBit8(lo, i - 4);
        } else {
          DownBit16(Down16(w), i - 8);
          WideBit16(hi, i - 8);
        }
      }
    }
  }

  // ---- 32 bits ----

  function Half32(x: bv32): bv32 { x >> 1 }
  predicate Low32(x: bv32) { x & 1 == 1 }
  function Xor32(x: bv32, y: bv32): bv32 { x ^ y }
  function Wide32(b: bv8): bv32 { b as bv32 }

  predicate Bit32(x: bv32, i: nat)
    decreases i
  {
    if i == 0 then Low32(x) else Bit32(Half32(x), i - 1)
  }

  function Bits32(x: bv32): (b: Lfsr.bits)
    ensures |b| == 32
  {
    seq(32, i requires 0 <= i => Bit32(x, i))
  }

  lemma Facts32(x: bv32, y: bv32)
    ensures Half32(Xor32(x, y)) == Xor32(Half32(x), Half32(y))
    ensures Low32(Xor32(x, y)) == (Low32(x) != Low32(y))
  {
  }

  lemma {:induction false} XorBit32(x: bv32, y: bv32, i: nat)
    ensures Bit32(Xor32(x, y), i) == (Bit32(x, i) != Bit32(y, i))
    decreases i
  {
    hide Half32, Low32, Xor32;
    Facts32(x, y);
    if i > 0 {
      XorBit32(Half32(x), Half32(y), i - 1);
    }
  }

  lemma XorBits32(x: bv32, y: bv32)
    ensures Bits32(Xor32(x, y)) == Lfsr.Xor(Bits32(x), Bits32(y))
  {
    hide Half32, Low32, Xor32;
    forall i: nat | i < 32
      ensures Bit32(Xor32(x, y), i) == (Bit32(x, i) != Bit32(y, i))
    {
      XorBit32(x, y, i);
    }
  }

  predicate Within32(x: bv32, n: nat)
    decreases n
  {
    if n == 0 then x == 0 else Within32(Half32(x), n - 1)
  }

  function Down32(x: bv32): bv32 {
    Half32(Half32(Half32(Half32(x))))
  }

  lemma FourWithin32(x: bv32, n: nat)
    requires Within32(Down32(x), n)
    ensures Within32(x, n + 4)
  {
    hide Half32;
    assert Within32(Half32(Half32(Half32(x))), n + 1);
    assert Within32(Half32(Half32(x)), n + 2);
    assert Within32(Half32(x), n + 3);
  }

  lemma DownFacts32(x: bv32, b: byte)
    ensures Down32(Down32(Down32(Down32(Down32(Down32(Down32(Down32(x)))))))) == 0
    ensures Down32(Down32(Wide32(b))) == 0
  {
  }

  lemma AllWithin32(x: bv32)
    ensures Within32(x, 32)
  {
    hide Half32, Down32, Wide32;
    DownFacts32(x, 0);
    var a := Down32(x);
    var b := Down32(a);
    var c := Down32(b);
    var d := Down32(c);
    var e := Down32(d);
    var f := Down32(e);
    var g := Down32(f);
    FourWithin32(g, 0);
    FourWithin32(f, 4);
    FourWithin32(e, 8);
    FourWithin32(d, 12);
    FourWithin32(c, 16);
    FourWithin32(b, 20);
    FourWithin32(a, 24);
    FourWithin32(x, 28);
  }

  lemma ByteWithin32(b: byte)
    ensures Within32(Wide32(b), 8)
  {
    hide Half32, Down32, Wide32;
    DownFacts32(0, b);
    FourWithin32(Down32(Wide32(b)), 0);
    FourWithin32(Wide32(b), 4);
  }

  lemma DownBit32(w: bv32, i: nat)
    ensures Bit32(w, i + 4) == Bit32(Down32(w), i)
  {
    hide Half32, Low32;
    assert Bit32(w, i + 4) == Bit32(Half32(w), i + 3);
    assert Bit32(Half32(w), i + 3) == Bit32(Half32(Half32(w)), i + 2);
    assert Bit32(Half32(Half32(w)), i + 2) == Bit32(Half32(Half32(Half32(w))), i + 1);
  }

  lemma {:induction false} Above32(x: bv32, n: nat, i: nat)
    requires Within32(x, n) && n <= i
    ensures !Bit32(x, i)
    decreases i
  {
    if n == 0 {
      Zero32(i);
    } else {
      Above32(Half32(x), n - 1, i - 1);
    }
  }

  lemma {:induction false} Zero32(i: nat)
    ensures !Bit32(0, i)
  {
    assert Half32(0) == 0 && !Low32(0);
    if i > 0 {
      Zero32(i - 1);
    }
  }

  lemma HalfBits32(x: bv32)
    ensures Bits32(Half32(x)) == Bits32(x)[1..] + [false]
  {
    hide Half32, Low32;
    AllWithin32(x);
    Above32(x, 32, 32);
    forall i: nat | i < 32
      ensures Bit32(Half32(x), i) == Bit32(x, i + 1)
    {
    }
  }

  lemma WideFacts32(b: byte)
    ensures Half32(Wide32(b)) == Wide32(Half8(b)) && Low32(Wide32(b)) == Low8(b)
  {
  }

  lemma {:induction false} WideBit32(b: byte, i: nat)
    ensures Bit32(Wide32(b), i) == Bit8(b, i)
    decreases i
  {
    hide Half32, Low32, Half8, Low8, Wide32;
    WideFacts32(b);
    if i > 0 {
      WideBit32(Half8(b), i - 1);
    }
  }

  lemma WideBits32(b: byte)
    ensures Bits32(Wide32(b)) == Bits8(b) + Lfsr.Zeros(24)
  {
    hide Half32, Low32, Half8, Low8, Wide32;
    var x, y := Bits32(Wide32(b)), Bits8(b) + Lfsr.Zeros(24);
    forall i: nat | i < 32
      ensures x[i] == y[i]
    {
      WideBit32(b, i);
      if i >= 8 {
        ByteWithin32(b);
        Above32(Wide32(b), 8, i);
      }
    }
  }

  // ---- a 32-bit word and its four bytes, low byte first ----

  function Quad32(b0: byte, b1: byte, b2: byte, b3: byte): bv32 {
    (b0 as bv32) | ((b1 as bv32) << 8) | ((b2 as bv32) << 16) | ((b3 as bv32) << 24)
  }

  function Quarter0(c: bv32): byte { (c & 0xFF) as byte }
  function Quarter1(c: bv32): byte { ((c >> 8) & 0xFF) as byte }
  function Quarter2(c: bv32): byte { ((c >> 16) & 0xFF) as byte }
  function Quarter3(c: bv32): byte { (c >> 24) as byte }

  function Quarters32(c: bv32): seq<byte> {
    [Quarter0(c), Quarter1(c), Quarter2(c), Quarter3(c)]
  }

  lemma QuadQuarters(c: bv32)
    ensures Quad32(Quarter0(c), Quarter1(c), Quarter2(c), Quarter3(c)) == c
  {
  }

  lemma QuarterOf0(b0: byte, b1: byte, b2: byte, b3: byte)
    ensures Quarter0(Quad32(b0, b1, b2, b3)) == b0
  {
  }

  lemma QuarterOf1(b0: byte, b1: byte, b2: byte, b3: byte)
    ensures Quarter1(Quad32(b0, b1, b2, b3)) == b1
  {
  }

  lemma QuarterOf2(b0: byte, b1: byte, b2: byte, b3: byte)
    ensures Quarter2(Quad32(b0, b1, b2, b3)) == b2
  {
  }

  lemma QuarterOf3(b0: byte, b1: byte, b2: byte, b3: byte)
    ensures Quarter3(Quad32(b0, b1, b2, b3)) == b3
  {
  }

  lemma QuartersQuad(b0: byte, b1: byte, b2: byte, b3: byte)
    ensures Quarters32(Quad32(b0, b1, b2, b3)) == [b0, b1, b2, b3]
  {
    hide Quarter0, Quarter1, Quarter2, Quarter3, Quad32;
    QuarterOf0(b0, b1, b2, b3);
    QuarterOf1(b0, b1, b2, b3);
    QuarterOf2(b0, b1, b2, b3);
    QuarterOf3(b0, b1, b2, b3);
  }
}
