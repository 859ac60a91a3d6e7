/** The one generation number for which a config slot holding nothing but a header passes its own
    CRC check. */
module TornHeader {
  import opened Bytes
  import opened RegBits
  import opened Crc
  import opened ConfigRecord
  import CrcDetection

  /** 0xC95AE817 */
  const FATAL_GEN: u32 := 3378178071
  const ALL_ONES: reg := 0xFFFF_FFFF

  /** What the check covers when only the header has been written. */
  function HeaderOnly(g: u32): (b: seq<byte>)
    ensures |b| == CRC_OFF
  {
    Head(g) + Ones(CFG_LEN)
  }

  // ---- the CRC register over HeaderOnly(FATAL_GEN), byte by byte ----

  const FATAL_HEAD: seq<byte> := [0x49, 0x4F, 0x43, 0x46, 0x17, 0xE8, 0x5A, 0xC9, 0x1A, 0x00]

  predicate IsFatal(m: seq<byte>) {
    |m| == CRC_OFF && (forall i :: 0 <= i < CRC_OFF ==> m[i] == if i < 10 then FATAL_HEAD[i] else 0xFF)
  }

  function Flat(x: reg): reg {
    if x & 1 == 1 then (x >> 1) ^ 0xEDB8_8320 else x >> 1
  }

  function Eight(x: reg): reg {
    Flat(Flat(Flat(Flat(Flat(Flat(Flat(Flat(x))))))))
  }

  lemma FlatIs(x: reg)
    ensures Flat(x) == StepIeee(x)
  {
  }

  lemma EightIs(x: reg)
    ensures Eight(x) == StepsIeee(x, 8)
  {
    var y1 := NextStep(x, x, 0);
    var y2 := NextStep(x, y1, 1);
    var y3 := NextStep(x, y2, 2);
    var y4 := NextStep(x, y3, 3);
    var y5 := NextStep(x, y4, 4);
    var y6 := NextStep(x, y5, 5);
    var y7 := NextStep(x, y6, 6);
    var y8 := NextStep(x, y7, 7);
    hide Flat;
  }

  lemma NextStep(x: reg, y: reg, n: nat) returns (z: reg)
    requires StepsIeee(x, n) == y
    ensures z == Flat(y) && StepsIeee(x, n + 1) == z
  {
    z := Flat(y);
    FlatIs(y);
    hide Flat, StepIeee;
  }

  lemma Feed(m: seq<byte>, i: nat, b: byte, x: reg, y: reg)
    requires i < |m| && m[i] == b && FoldIeee(ALL_ONES, m[..i]) == x
    requires Eight(x ^ (b as reg)) == y
    ensures FoldIeee(ALL_ONES, m[..i + 1]) == y
  {
    hide Eight, StepsIeee, FoldIeee, Xor32, Wide32;
    EightIs(x ^ (b as reg));
    FoldIeeeSnoc(ALL_ONES, m, i);
    XorWide(x, b);
  }

  lemma XorWide(x: reg, b: byte)
    ensures Xor32(x, Wide32(b)) == x ^ (b as reg)
  {
  }

  lemma Trace1(m: seq<byte>)
    requires IsFatal(m)
    ensures FoldIeee(ALL_ONES, m[..9]) == 0x70E2_1487
  {
    FoldIeeeEmpty(ALL_ONES);
    hide FoldIeee;
    assert m[..0] == [];
    Feed(m, 0, 0x49, 0xFFFF_FFFF, 0x22FD_E946);
    Feed(m, 1, 0x4F, 0x22FD_E946, 0x79FE_454D);
    Feed(m, 2, 0x43, 0x79FE_454D, 0xE7C1_D342);
    Feed(m, 3, 0x46, 0xE7C1_D342, 0x078A_05CA);
    Feed(m, 4, 0x17, 0x078A_05CA, 0xF865_246C);
    Feed(m, 5, 0xE8, 0xF865_246C, 0xEA2D_221D);
    Feed(m, 6, 0x5A, 0xEA2D_221D, 0xE852_F911);
    Feed(m, 7, 0xC9, 0xE852_F911, 0x88E0_081F);
    Feed(m, 8, 0x1A, 0x88E0_081F, 0x70E2_1487);
  }

  lemma Trace2(m: seq<byte>)
    requires IsFatal(m)
    requires FoldIeee(ALL_ONES, m[..9]) == 0x70E2_1487
    ensures FoldIeee(ALL_ONES, m[..18]) == 0x21BE_E8DD
  {
    hide FoldIeee;
    Feed(m, 9, 0x00, 0x70E2_1487, 0x73AC_F497);
    Feed(m, 10, 0xFF, 0x73AC_F497, 0x431A_459E);
    Feed(m, 11, 0xFF, 0x431A_459E, 0x3AF6_4B8B);
    Feed(m, 12, 0xFF, 0x3AF6_4B8B, 0x5752_436E);
    Feed(m, 13, 0xFF, 0x5752_436E, 0x875F_F191);
    Feed(m, 14, 0xFF, 0x875F_F191, 0xAA8D_13AE);
    Feed(m, 15, 0xFF, 0xAA8D_13AE, 0x1CC6_EC71);
    Feed(m, 16, 0xFF, 0x1CC6_EC71, 0x0A1C_68CB);
    Feed(m, 17, 0xFF, 0x0A1C_68CB, 0x21BE_E8DD);
  }

  lemma Trace3(m: seq<byte>)
    requires IsFatal(m)
    requires FoldIeee(ALL_ONES, m[..18]) == 0x21BE_E8DD
    ensures FoldIeee(ALL_ONES, m[..27]) == 0x04EE_76EA
  {
    hide FoldIeee;
    Feed(m, 18, 0xFF, 0x21BE_E8DD, 0xD541_FF0C);
    Feed(m, 19, 0xFF, 0xD541_FF0C, 0x2461_E259);
    Feed(m, 20, 0xFF, 0x2461_E259, 0x3F91_673F);
    Feed(m, 21, 0xFF, 0x3F91_673F, 0x9B5B_53D7);
    Feed(m, 22, 0xFF, 0x9B5B_53D7, 0x352E_F3A9);
    Feed(m, 23, 0xFF, 0x352E_F3A9, 0x823D_DA32);
    Feed(m, 24, 0xFF, 0x823D_DA32, 0xE557_83D7);
    Feed(m, 25, 0xFF, 0xE557_83D7, 0x3550_FF79);
    Feed(m, 26, 0xFF, 0x3550_FF79, 0x04EE_76EA);
  }

  lemma Trace4(m: seq<byte>)
    requires IsFatal(m)
    requires FoldIeee(ALL_ONES, m[..27]) == 0x04EE_76EA
    ensures FoldIeee(ALL_ONES, m[..36]) == 0x0000_0000
  {
    hide FoldIeee;
    Feed(m, 27, 0xFF, 0x04EE_76EA, 0x6DD9_0A9D);
    Feed(m, 28, 0xFF, 0x6DD9_0A9D, 0xA3D1_D97E);
    Feed(m, 29, 0xFF, 0xA3D1_D97E, 0x9A1C_626F);
    Feed(m, 30, 0xFF, 0x9A1C_626F, 0xF095_8F26);
    Feed(m, 31, 0xFF, 0xF095_8F26, 0xFFFF_FFFF);
    Feed(m, 32, 0xFF, 0xFFFF_FFFF, 0x00FF_FFFF);
    Feed(m, 33, 0xFF, 0x00FF_FFFF, 0x0000_FFFF);
    Feed(m, 34, 0xFF, 0x0000_FFFF, 0x0000_00FF);
    Feed(m, 35, 0xFF, 0x0000_00FF, 0x0000_0000);
  }

  lemma FatalCollides(m: seq<byte>)
    requires IsFatal(m)
    ensures Crc32(m) == 0xFFFF_FFFF
  {
    hide FoldIeee;
    Trace1(m);
    Trace2(m);
    Trace3(m);
    Trace4(m);
    assert m[..36] == m;
  }

  lemma FatalValues()
    ensures Val(0x17) == 23 && Val(0xE8) == 232 && Val(0x5A) == 90 && Val(0xC9) == 201
    ensures Val(0x1A) == 26 && Val(0) == 0
  {
  }

  lemma FatalNumbers()
    ensures Le([0x17, 0xE8, 0x5A, 0xC9]) == FATAL_GEN && Le([0x1A, 0x00]) == CFG_LEN
  {
    FatalValues();
    LeNothing();
    hide Val, Le;
    Prefixed(0xC9, [], [0xC9]);
    Prefixed(0x5A, [0xC9], [0x5A, 0xC9]);
    Prefixed(0xE8, [0x5A, 0xC9], [0xE8, 0x5A, 0xC9]);
    Prefixed(0x17, [0xE8, 0x5A, 0xC9], [0x17, 0xE8, 0x5A, 0xC9]);
    Prefixed(0x00, [], [0x00]);
    Prefixed(0x1A, [0x00], [0x1A, 0x00]);
  }

  lemma Prefixed(b: byte, rest: seq<byte>, all: seq<byte>)
    requires all == [b] + rest
    ensures Le(all) == Val(b) + 256 * Le(rest)
  {
    assert all[1..] == rest;
  }

  lemma FatalBytes()
    ensures IsFatal(HeaderOnly(FATAL_GEN))
  {
    FatalNumbers();
    LeBytes([0x17, 0xE8, 0x5A, 0xC9]);
    LeBytes([0x1A, 0x00]);
    hide PutLe, Le;
    var m := HeaderOnly(FATAL_GEN);
    assert m == FATAL_HEAD + Ones(CFG_LEN);
  }

  /** The window of the generation field decides: one value, and only one, passes. */
  lemma HeaderPassesIff(g: u32)
    ensures Crc32(HeaderOnly(g)) == 0xFFFF_FFFF <==> g == FATAL_GEN
  {
    FatalBytes();
    FatalCollides(HeaderOnly(FATAL_GEN));
    if Crc32(HeaderOnly(g)) == 0xFFFF_FFFF {
      var x, y, after := PutLe(4, g), PutLe(4, FATAL_GEN), PutLe(2, CFG_LEN) + Ones(CFG_LEN);
      Widths();
      LeRoundTrip(4, g);
      LeRoundTrip(4, FATAL_GEN);
      hide Crc32, PutLe, Le;
      assert HeaderOnly(g) == MAGIC + x + after && HeaderOnly(FATAL_GEN) == MAGIC + y + after;
      CrcDetection.Crc32WindowInjective(MAGIC, x, y, after);
    }
  }

  /** A save cut between two flash operations leaves nothing, the header, header and body, or the
      whole record. Only the header can deceive, and exactly when this says. */
  lemma OperationCutCollides(g: u32, c: Cfg)
    ensures Collides(g, c, HDR_LEN) <==> g == FATAL_GEN && Native(c) != Ones(CFG_LEN)
    ensures !Collides(g, c, 0) && !Collides(g, c, CRC_OFF)
  {
    HeaderPassesIff(g);
    hide Crc32, Head, Native;
    assert Covered(g, c)[..HDR_LEN] == Head(g);
    assert Native(c)[0..] == Native(c);
  }
}
