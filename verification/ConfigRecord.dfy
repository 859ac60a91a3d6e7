/** The config slot record (src/storage/config_store.c): 40 bytes, written header, body, CRC. What
    a slot holds when the writing stops part way, and when such a torn record still passes. */
module ConfigRecord {
  import opened Bytes
  import opened RegBits
  import opened Crc

  const MAGIC: seq<byte> := [0x49, 0x4F, 0x43, 0x46]
  const FIELDS := 13
  const CFG_LEN := 26
  const HDR_LEN := 10
  const CRC_OFF := 36
  const REC_LEN := 40

  /** struct io_cfg: thirteen 16-bit fields, packed. */
  type Cfg = c: seq<word> | |c| == FIELDS witness seq(FIELDS, _ => 0)

  // ---- the native bytes of a config ----

  function Native(c: seq<word>): (b: seq<byte>)
    ensures |b| == 2 * |c|
  {
    if c == [] then [] else [Lo16(c[0]), Hi16(c[0])] + Native(c[1..])
  }

  function FromNative(b: seq<byte>): (c: seq<word>)
    requires |b| % 2 == 0
    ensures |c| == |b| / 2
  {
    if b == [] then [] else [Pair16(b[0], b[1])] + FromNative(b[2..])
  }

  lemma {:induction false} NativeRoundTrip(c: seq<word>)
    ensures FromNative(Native(c)) == c
  {
    if c != [] {
      hide Lo16, Hi16, Pair16;
      PairHalves(c[0]);
      NativeRoundTrip(c[1..]);
      assert Native(c)[2..] == Native(c[1..]);
    }
  }

  lemma {:induction false} NativeCovers(b: seq<byte>)
    requires |b| % 2 == 0
    ensures Native(FromNative(b)) == b
  {
    if b != [] {
      hide Lo16, Hi16, Pair16;
      HalvesPair(b[0], b[1]);
      NativeCovers(b[2..]);
      assert FromNative(b)[1..] == FromNative(b[2..]);
      assert b == [b[0], b[1]] + b[2..];
    }
  }

  // ---- the record ----

  function Head(g: u32): (h: seq<byte>)
    ensures |h| == HDR_LEN
  {
    PutLeLength(4, g);
    PutLeLength(2, CFG_LEN);
    MAGIC + PutLe(4, g) + PutLe(2, CFG_LEN)
  }

  function Covered(g: u32, c: Cfg): (b: seq<byte>)
    ensures |b| == CRC_OFF
  {
    Head(g) + Native(c)
  }

  function Record(g: u32, c: Cfg): (r: seq<byte>)
    ensures |r| == REC_LEN
  {
    Covered(g, c) + Quarters32(Crc32(Covered(g, c)))
  }

  /** What slot_read accepts. */
  predicate SlotValid(r: seq<byte>)
    requires |r| == REC_LEN
  {
    && r[..4] == MAGIC && GetLe16(r[8..]) == CFG_LEN
    && Quad32(r[36], r[37], r[38], r[39]) == Crc32(r[..CRC_OFF])
  }

  function SlotGen(r: seq<byte>): u32
    requires |r| == REC_LEN
  {
    GetLe32(r[4..])
  }

  function SlotCfg(r: seq<byte>): Cfg
    requires |r| == REC_LEN
  {
    FromNative(r[HDR_LEN..CRC_OFF])
  }

  lemma RecordParts(g: u32, c: Cfg)
    ensures var r := Record(g, c);
            && |r| == REC_LEN && r[..4] == MAGIC && r[4..8] == PutLe(4, g) && r[8..10] == PutLe(2, CFG_LEN)
            && r[..10] == Head(g) && r[10..36] == Native(c) && r[..36] == Covered(g, c)
            && r[36..] == Quarters32(Crc32(Covered(g, c)))
  {
    PutLeLength(4, g);
    PutLeLength(2, CFG_LEN);
    hide PutLe, Native, Quarter0, Quarter1, Quarter2, Quarter3, Crc32;
  }

  /** A written record is accepted and read back as it was. */
  lemma RecordReadsBack(g: u32, c: Cfg)
    ensures |Record(g, c)| == REC_LEN && SlotValid(Record(g, c))
    ensures SlotGen(Record(g, c)) == g && SlotCfg(Record(g, c)) == c
  {
    var r := Record(g, c);
    RecordParts(g, c);
    QuadQuarters(Crc32(Covered(g, c)));
    NativeRoundTrip(c);
    Widths();
    LeRoundTrip(4, g);
    LeRoundTrip(2, CFG_LEN);
    assert r[4..][..4] == PutLe(4, g) && r[8..][..2] == PutLe(2, CFG_LEN);
    assert [r[36], r[37], r[38], r[39]] == r[36..];
    hide PutLe, Native, FromNative, Record, Covered, Crc32;
    hide Quarter0, Quarter1, Quarter2, Quarter3, Quad32;
  }

  /** Nothing else is accepted: an accepted slot is the record of what it reads as. */
  lemma AcceptedIsRecord(r: seq<byte>)
    requires |r| == REC_LEN && SlotValid(r)
    ensures r == Record(SlotGen(r), SlotCfg(r))
  {
    hide PutLe, Le, Native, FromNative, Crc32, Quad32;
    hide Quarter0, Quarter1, Quarter2, Quarter3;
    LeBytes(r[4..][..4]);
    LeBytes(r[8..][..2]);
    NativeCovers(r[10..36]);
    QuartersQuad(r[36], r[37], r[38], r[39]);
    assert r[4..][..4] == r[4..8] && r[8..][..2] == r[8..10];
    assert r[..36] == r[..4] + r[4..8] + r[8..10] + r[10..36];
    assert Covered(SlotGen(r), SlotCfg(r)) == r[..36];
    assert r == r[..36] + [r[36], r[37], r[38], r[39]];
  }

  // ---- torn records ----

  function Ones(n: nat): (b: seq<byte>)
    ensures |b| == n
  {
    seq(n, _ => 0xFF)
  }

  /** A record whose writing stopped after j bytes, in an erased slot. */
  function Torn(r: seq<byte>, j: nat): (t: seq<byte>)
    requires j <= |r| == REC_LEN
    ensures |t| == REC_LEN
  {
    r[..j] + Ones(REC_LEN - j)
  }

  /** The cut after j bytes leaves something that is not the record and yet passes its CRC check. */
  predicate Collides(g: u32, c: Cfg, j: nat)
    requires j <= CRC_OFF
  {
    HDR_LEN <= j < CRC_OFF && Native(c)[j - HDR_LEN..] != Ones(CRC_OFF - j)
    && Crc32(Covered(g, c)[..j] + Ones(CRC_OFF - j)) == 0xFFFF_FFFF
  }

  lemma OnesQuad()
    ensures Quad32(0xFF, 0xFF, 0xFF, 0xFF) == 0xFFFF_FFFF
    ensures Quarters32(0xFFFF_FFFF) == [0xFF, 0xFF, 0xFF, 0xFF]
  {
  }

  lemma LengthBlank(lo: byte)
    ensures GetLe16([lo, 0xFF]) != CFG_LEN
  {
    ByteValues();
    assert [lo, 0xFF][..2] == [lo, 0xFF];
    LeHead([lo, 0xFF]);
    LeHead([0xFF]);
    hide Val, Le;
    assert [lo, 0xFF][1..] == [0xFF];
  }

  lemma ByteValues()
    ensures Val(0xFF) == 255
  {
  }

  /** Before the header is complete a torn record is rejected. */
  lemma TornHead(g: u32, c: Cfg, j: nat)
    requires j < HDR_LEN
    ensures !SlotValid(Torn(Record(g, c), j))
  {
    var t := Torn(Record(g, c), j);
    hide GetLe16, Record, Crc32, Quad32;
    if j < 4 {
      assert t[3] == 0xFF && t[..4][3] == t[3];
      assert MAGIC[3] == 0x46;
    } else {
      LengthBlank(t[8]);
      assert t[9] == 0xFF;
      FirstTwo(t[8..]);
    }
  }

  lemma FirstTwo(b: seq<byte>)
    requires |b| >= 2
    ensures GetLe16(b) == GetLe16([b[0], b[1]])
  {
    hide Le;
    assert b[..2] == [b[0], b[1]];
    assert [b[0], b[1]][..2] == [b[0], b[1]];
  }

  /** What a torn record covers, once its header is complete. */
  lemma TornBody(g: u32, c: Cfg, j: nat)
    requires HDR_LEN <= j <= CRC_OFF
    ensures var t := Torn(Record(g, c), j);
            && t[..4] == MAGIC && GetLe16(t[8..]) == CFG_LEN
            && t[..CRC_OFF] == Covered(g, c)[..j] + Ones(CRC_OFF - j)
            && t[36] == t[37] == t[38] == t[39] == 0xFF
  {
    var r, t := Record(g, c), Torn(Record(g, c), j);
    RecordParts(g, c);
    Widths();
    LeRoundTrip(2, CFG_LEN);
    assert t[8..][..2] == r[8..10] == PutLe(2, CFG_LEN);
    hide Record, Covered, Crc32, PutLe, Le;
    assert t[..CRC_OFF] == r[..j] + Ones(CRC_OFF - j);
    assert r[..j] == r[..36][..j];
  }

  /** A slot that covers the same bytes is accepted only as the whole record. */
  lemma SameCover(g: u32, c: Cfg, t: seq<byte>)
    requires |t| == REC_LEN && t[..CRC_OFF] == Covered(g, c)
    ensures SlotValid(t) <==> t == Record(g, c)
  {
    RecordReadsBack(g, c);
    if SlotValid(t) {
      var r := Record(g, c);
      RecordParts(g, c);
      AcceptedIsRecord(t);
      hide Record, Covered, SlotValid, FromNative;
      assert t[..36][4..][..4] == t[4..][..4] && r[..36][4..][..4] == r[4..][..4];
      assert t[10..36] == t[..36][10..] && r[10..36] == r[..36][10..];
      assert SlotGen(t) == SlotGen(r) && SlotCfg(t) == SlotCfg(r);
    }
  }

  /** Exactly when a torn record is accepted: when nothing is missing from it, or when it collides. */
  lemma TornVerdict(g: u32, c: Cfg, j: nat)
    requires j <= REC_LEN
    ensures SlotValid(Torn(Record(g, c), j))
            <==> Torn(Record(g, c), j) == Record(g, c) || (j <= CRC_OFF && Collides(g, c, j))
  {
    var t := Torn(Record(g, c), j);
    RecordParts(g, c);
    if j < HDR_LEN {
      TornHead(g, c, j);
      RecordReadsBack(g, c);
    } else if j > CRC_OFF {
      hide Record, Covered, SlotValid, Crc32;
      assert t[..36] == Record(g, c)[..36];
      SameCover(g, c, t);
    } else {
      TornBody(g, c, j);
      CoverSplit(g, c, j);
      if Native(c)[j - HDR_LEN..] == Ones(CRC_OFF - j) {
        SameCover(g, c, t);
      } else {
        OnesQuad();
        hide Record, Crc32, Covered, Native, Quad32, GetLe16;
        assert t != Record(g, c) by {
          assert t[..36] != Record(g, c)[..36];
        }
      }
    }
  }

  lemma CoverSplit(g: u32, c: Cfg, j: nat)
    requires HDR_LEN <= j <= CRC_OFF
    ensures Covered(g, c)[..j] + Ones(CRC_OFF - j) == Covered(g, c)
            <==> Native(c)[j - HDR_LEN..] == Ones(CRC_OFF - j)
  {
    hide Head, Native;
    var v := Covered(g, c);
    assert v[j..] == Native(c)[j - HDR_LEN..];
    assert v == v[..j] + v[j..];
    if v[..j] + Ones(CRC_OFF - j) == v {
      assert (v[..j] + Ones(CRC_OFF - j))[j..] == Ones(CRC_OFF - j);
    }
  }
}
