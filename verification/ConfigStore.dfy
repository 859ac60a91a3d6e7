/** The config store itself (src/storage/config_store.c) over the NOR flash. Every call is tied to
    ConfigRuns: what it loads, and how far a save got when it did not return 0. */
module ConfigStore {
  import opened Bytes
  import opened RegBits
  import opened NorFlash
  import opened ConfigRecord
  import opened ConfigRuns
  import Crc
  import W25q

  const SLOT_A := 0xE_0000
  const SLOT_B := 0xE_8000
  const SLOT_SIZE := 0x8000

  function DiskOf(m: seq<byte>): Disk
    requires |m| == CHIP
  {
    Disk(m[SLOT_A..SLOT_A + REC_LEN], m[SLOT_B..SLOT_B + REC_LEN])
  }

  function SlotAt(addr: nat): Slot {
    if addr == SLOT_A then A else if addr == SLOT_B then B else Nowhere
  }

  /** Everything in the flash except the two slots. */
  function Outside(m: seq<byte>): (seq<byte>, seq<byte>)
    requires |m| == CHIP
  {
    (m[..SLOT_A], m[SLOT_B + SLOT_SIZE..])
  }

  class Store {
    const iof: W25q.Flash
    var inited: bool
    var cur: Cfg
    var cur_gen: u32
    var cur_slot: nat

    ghost predicate Valid()
      reads this
    {
      iof.Valid() && (cur_slot == 0 || cur_slot == SLOT_A || cur_slot == SLOT_B)
    }

    ghost function RamView(): (r: Ram)
      reads this
    {
      Ram(cur, cur_gen, SlotAt(cur_slot))
    }

    constructor (iof: W25q.Flash)
      requires iof.Valid()
      ensures Valid() && !inited && this.iof == iof
    {
      this.iof := iof;
      inited, cur, cur_gen, cur_slot := false, DEFAULTS, 0, 0;
    }

    /** slot_read: 0 valid, 1 invalid content, -1 flash error. */
    method SlotRead(addr: u32) returns (rc: int, out: Cfg, gen: u32)
      requires iof.Valid() && addr + REC_LEN <= CHIP
      modifies iof`powered
      ensures rc == 0 || rc == 1 || rc == -1
      ensures rc != -1 ==> (rc == 0 <==> SlotValid(iof.Image()[addr..addr + REC_LEN]))
      ensures rc == 0 ==> out == SlotCfg(iof.Image()[addr..addr + REC_LEN])
                          && gen == SlotGen(iof.Image()[addr..addr + REC_LEN])
      ensures iof.powered ==> old(iof.powered)
      ensures iof.reliable ==> iof.powered == old(iof.powered)
      ensures iof.reliable && old(iof.powered) ==> rc != -1
    {
      out, gen := DEFAULTS, 0;
      var rec;
      rc, rec := iof.Read(addr, REC_LEN);
      if rc != 0 {
        return -1, out, gen;
      }
      hide Crc.Crc32, Quad32;
      if rec[..4] != MAGIC {
        return 1, out, gen;
      }
      if GetLe16(rec[8..]) != CFG_LEN {
        return 1, out, gen;
      }
      var crc := Crc.Crc32Ieee(rec[..CRC_OFF]);
      if Quad32(rec[36], rec[37], rec[38], rec[39]) != crc {
        return 1, out, gen;
      }
      out := FromNative(rec[HDR_LEN..CRC_OFF]);
      gen := GetLe32(rec[4..]);
      return 0, out, gen;
    }

    /** config_store_init */
    method Init() returns (rc: int)
      requires Valid()
      modifies this, iof`powered
      ensures Valid() && inited && (rc == 0 || rc == -1)
      ensures rc == 0 ==> RamView() == Load(DiskOf(iof.Image()))
      ensures rc == -1 ==> RamView() == UNREAD
      ensures iof.reliable && old(iof.powered) ==> rc == 0
    {
      inited := true;
      cur, cur_gen, cur_slot := DEFAULTS, 0, 0;
      hide SlotValid, SlotCfg, SlotGen;
      var ra, ca, ga := SlotRead(SLOT_A);
      var rb, cb, gb := SlotRead(SLOT_B);
      if ra < 0 || rb < 0 {
        return -1;
      }
      if ra == 0 && (rb != 0 || ga >= gb) {
        cur, cur_gen, cur_slot := ca, ga, SLOT_A;
      } else if rb == 0 {
        cur, cur_gen, cur_slot := cb, gb, SLOT_B;
      }
      return 0;
    }

    /** write_pages: page by page, which together is one unrestricted program. */
    method WritePages(addr: u32, buf: seq<byte>) returns (rc: int, ghost stored: nat)
      requires iof.Valid() && addr + |buf| < U32_MOD
      modifies iof`powered, iof.mem
      ensures rc == 0 || rc == -1
      ensures stored <= |buf| && iof.Image() == Programmed(old(iof.Image()), addr, buf[..stored])
      ensures rc == 0 ==> stored == |buf|
      ensures iof.powered ==> old(iof.powered)
      ensures iof.reliable ==> iof.powered == old(iof.powered)
      ensures iof.reliable && old(iof.powered) && addr + |buf| <= CHIP ==> rc == 0
    {
      hide Programmed;
      var off := 0;
      ProgrammedNothing(iof.Image(), addr);
      assert buf[..0] == [];
      while off < |buf|
        invariant 0 <= off <= |buf|
        invariant iof.Image() == Programmed(old(iof.Image()), addr, buf[..off])
        invariant iof.powered ==> old(iof.powered)
        invariant iof.reliable ==> iof.powered == old(iof.powered)
      {
        var room := PAGE - (addr + off) % PAGE;
        var n := |buf| - off;
        if n > room {
          n := room;
        }
        ghost var k;
        rc, k := iof.Write(addr + off, buf[off..off + n]);
        ProgrammedSplit(old(iof.Image()), addr, buf[..off], buf[off..off + n][..k]);
        JoinSlices(buf, off, off + n, k);
        if rc != 0 {
          return -1, off + k;
        }
        off := off + n;
      }
      return 0, off;
    }

    /** One part of a record, into a slot that holds what comes before it and is blank after. */
    method WritePart(ghost rec: Rec, tgt: u32, j: nat, part: seq<byte>) returns (rc: int, ghost got: nat)
      requires iof.Valid() && (tgt == SLOT_A || tgt == SLOT_B)
      requires j + |part| <= REC_LEN && part == rec[j..j + |part|]
      requires iof.Image()[tgt..tgt + REC_LEN] == Torn(rec, j)
      modifies iof`powered, iof.mem
      ensures (rc == 0 || rc == -1) && got <= |part| && (rc == 0 ==> got == |part|)
      ensures iof.Image()[tgt..tgt + REC_LEN] == Torn(rec, j + got)
      ensures OnlySlot(old(iof.Image()), iof.Image(), tgt)
      ensures iof.powered ==> old(iof.powered)
      ensures iof.reliable ==> iof.powered == old(iof.powered)
      ensures iof.reliable && old(iof.powered) ==> rc == 0
    {
      hide Torn;
      rc, got := WritePages(tgt + j, part);
      PartStored(old(iof.Image()), tgt, rec, j, got);
      assert part[..got] == rec[j..j + got];
    }

    method Assemble(gen: u32, cfg: Cfg) returns (rec: seq<byte>)
      ensures rec == Record(gen, cfg)
    {
      rec := MAGIC + PutLe(4, gen) + PutLe(2, CFG_LEN) + Native(cfg);
      var crc := Crc.Crc32Ieee(rec);
      rec := rec + Quarters32(crc);
    }

    /** config_store_save: erase, header, body, CRC. `cut` says how far it got. */
    method Save(cfg: Cfg) returns (rc: int, ghost cut: Cut)
      requires Valid()
      modifies this, iof`powered, iof.mem
      ensures Valid() && inited == old(inited) && (rc == 0 || rc == -1) && CutOk(cut)
      ensures !inited ==> rc == -1 && unchanged(iof.mem)
      ensures DiskOf(iof.Image()) == Saved(DiskOf(old(iof.Image())), old(RamView()), cfg, cut)
      ensures Outside(iof.Image()) == Outside(old(iof.Image()))
      ensures rc == 0 ==> cut == COMPLETE && RamView() == Committed(old(RamView()), cfg)
      ensures rc == -1 ==> RamView() == old(RamView())
      ensures iof.reliable && inited && old(iof.powered) ==> rc == 0
    {
      hide Record, Torn, Programmed, Erased, Ones, DiskOf, Saved, Outside;
      cut := Untouched;
      ghost var m, ram := iof.Image(), RamView();
      SavedNothing(DiskOf(m), ram, cfg);
      if !inited {
        return -1, cut;
      }
      var tgt := if cur_slot == SLOT_A then SLOT_B else SLOT_A;
      var gen := (cur_gen + 1) % U32_MOD;
      var rec := Assemble(gen, cfg);
      ghost var n;
      rc, n := Erase(tgt, rec);
      if n > 0 {
        StoredCut(m, iof.Image(), ram, cfg, 0);
        cut := Stored(0);
      }
      if rc != 0 {
        return -1, cut;
      }
      rc, n := WritePart(rec, tgt, 0, rec[..HDR_LEN]);
      StoredCut(m, iof.Image(), ram, cfg, n);
      if rc != 0 {
        return -1, Stored(n);
      }
      rc, n := WritePart(rec, tgt, HDR_LEN, rec[HDR_LEN..CRC_OFF]);
      StoredCut(m, iof.Image(), ram, cfg, HDR_LEN + n);
      if rc != 0 {
        return -1, Stored(HDR_LEN + n);
      }
      rc, n := WritePart(rec, tgt, CRC_OFF, rec[CRC_OFF..]);
      StoredCut(m, iof.Image(), ram, cfg, CRC_OFF + n);
      if rc != 0 {
        return -1, Stored(CRC_OFF + n);
      }
      cut := COMPLETE;
      cur, cur_gen, cur_slot := cfg, gen, tgt;
    }

    /** The erase that begins a save. */
    method Erase(tgt: u32, ghost rec: Rec) returns (rc: int, ghost done: nat)
      requires iof.Valid() && (tgt == SLOT_A || tgt == SLOT_B)
      modifies iof`powered, iof.mem
      ensures rc == 0 || rc == -1
      ensures rc == 0 ==> done > 0
      ensures done == 0 ==> iof.Image() == old(iof.Image())
      ensures done > 0 ==> iof.Image()[tgt..tgt + REC_LEN] == Torn(rec, 0)
      ensures OnlySlot(old(iof.Image()), iof.Image(), tgt)
      ensures iof.powered ==> old(iof.powered)
      ensures iof.reliable ==> iof.powered == old(iof.powered)
      ensures iof.reliable && old(iof.powered) ==> rc == 0
    {
      rc, done := iof.Erase(tgt, SLOT_SIZE);
      ghost var m := old(iof.Image());
      ErasedElsewhere(m, tgt, done, 0, tgt);
      ErasedElsewhere(m, tgt, done, tgt + SLOT_SIZE, CHIP);
      assert iof.Image()[..tgt] == iof.Image()[0..tgt];
      if done > 0 {
        SectorErased(m, tgt, done, rec);
      }
    }

    /** config_store_erase_all */
    method EraseAll()
      requires Valid()
      modifies this, iof`powered, iof.mem
      ensures Valid() && inited == old(inited) && RamView() == Ram(DEFAULTS, 0, Nowhere)
      ensures !inited ==> unchanged(iof.mem)
      ensures Outside(iof.Image()) == Outside(old(iof.Image()))
      ensures iof.reliable && inited && old(iof.powered) ==>
        Load(DiskOf(iof.Image())) == Ram(DEFAULTS, 0, Nowhere)
    {
      hide SlotValid, Torn;
      if inited {
        var rc, n := Erase(SLOT_A, Ones(REC_LEN));
        ghost var m := iof.Image();
        rc, n := Erase(SLOT_B, Ones(REC_LEN));
        BothBlank(old(iof.Image()), m, iof.Image());
      }
      cur, cur_gen, cur_slot := DEFAULTS, 0, 0;
    }

    /** config_store_get */
    method Get() returns (out: Cfg)
      ensures out == if inited then cur else DEFAULTS
    {
      if !inited {
        return DEFAULTS;
      }
      out := cur;
    }
  }

  /** An erase blanks whole sectors, and so the place of the record. */
  lemma SectorErased(m: seq<byte>, tgt: nat, done: nat, rec: Rec)
    requires |m| == CHIP && done >= SECTOR && tgt + SECTOR <= CHIP
    ensures Erased(m, tgt, done)[tgt..tgt + REC_LEN] == Torn(rec, 0)
  {
    var r := Erased(m, tgt, done);
    assert rec[..0] == [];
    forall i | 0 <= i < REC_LEN
      ensures r[tgt..tgt + REC_LEN][i] == Torn(rec, 0)[i]
    {
      assert r[tgt + i] == 0xFF;
    }
  }

  /** Nothing but the slot at tgt differs. */
  predicate OnlySlot(m: seq<byte>, w: seq<byte>, tgt: nat)
    requires |m| == |w| == CHIP && tgt + SLOT_SIZE <= CHIP
  {
    m[..tgt] == w[..tgt] && m[tgt + SLOT_SIZE..] == w[tgt + SLOT_SIZE..]
  }

  lemma SavedNothing(d: Disk, r: Ram, c: Cfg)
    ensures Saved(d, r, c, Untouched) == d
  {
  }

  lemma PartStored(m: seq<byte>, tgt: nat, rec: Rec, j: nat, n: nat)
    requires |m| == CHIP && tgt + SLOT_SIZE <= CHIP && j + n <= REC_LEN
    requires m[tgt..tgt + REC_LEN] == Torn(rec, j)
    ensures Programmed(m, tgt + j, rec[j..j + n])[tgt..tgt + REC_LEN] == Torn(rec, j + n)
    ensures OnlySlot(m, Programmed(m, tgt + j, rec[j..j + n]), tgt)
  {
    hide Programmed, Torn;
    var a, d, end := tgt + j, rec[j..j + n], tgt + REC_LEN;
    var w := Programmed(m, a, d);
    ProgrammedElsewhere(m, a, d, 0, tgt);
    ProgrammedElsewhere(m, a, d, tgt + SLOT_SIZE, CHIP);
    assert m[0..tgt] == m[..tgt] && w[0..tgt] == w[..tgt];
    assert m[tgt + SLOT_SIZE..CHIP] == m[tgt + SLOT_SIZE..];
    assert w[tgt + SLOT_SIZE..CHIP] == w[tgt + SLOT_SIZE..];
    RecordGrows(m, tgt, rec, j, n);
  }

  lemma RecordGrows(m: seq<byte>, tgt: nat, rec: Rec, j: nat, n: nat)
    requires |m| == CHIP && tgt + SLOT_SIZE <= CHIP && j + n <= REC_LEN
    requires m[tgt..tgt + REC_LEN] == Torn(rec, j)
    ensures Programmed(m, tgt + j, rec[j..j + n])[tgt..tgt + REC_LEN] == Torn(rec, j + n)
  {
    hide Programmed, Torn;
    var a, d, end := tgt + j, rec[j..j + n], tgt + REC_LEN;
    var w := Programmed(m, a, d);
    SubSlice(m, tgt, end, j, j + n);
    SubSlice(m, tgt, end, 0, j);
    SubSlice(m, tgt, end, j + n, REC_LEN);
    TornRest(rec, j, n);
    ProgrammedBlank(m, a, d);
    ProgrammedElsewhere(m, a, d, tgt, a);
    ProgrammedElsewhere(m, a, d, a + n, end);
    assert w[tgt..end] == w[tgt..a] + w[a..a + n] + w[a + n..end];
  }

  lemma TornRest(rec: Rec, j: nat, n: nat)
    requires j + n <= REC_LEN
    ensures var t := Torn(rec, j);
            Blank(t[j..j + n]) && Torn(rec, j + n) == t[0..j] + rec[j..j + n] + t[j + n..REC_LEN]
  {
  }

  lemma StoredCut(m: seq<byte>, w: seq<byte>, r: Ram, c: Cfg, j: nat)
    requires |m| == |w| == CHIP && j <= REC_LEN
    requires var tgt := if r.slot == A then SLOT_B else SLOT_A;
             OnlySlot(m, w, tgt) && w[tgt..tgt + REC_LEN] == Torn(SaveRecord(r, c), j)
    ensures DiskOf(w) == Saved(DiskOf(m), r, c, Stored(j)) && Outside(w) == Outside(m)
  {
    hide Torn, SaveRecord;
    if r.slot == A {
      Lower(m, w);
    } else {
      assert w[SLOT_B..SLOT_B + REC_LEN] == w[SLOT_B..][..REC_LEN];
      assert w[SLOT_B + SLOT_SIZE..] == w[SLOT_B..][SLOT_SIZE..];
      assert m[SLOT_B + SLOT_SIZE..] == m[SLOT_B..][SLOT_SIZE..];
    }
  }

  lemma BothBlank(m: seq<byte>, w: seq<byte>, z: seq<byte>)
    requires |m| == |w| == |z| == CHIP && OnlySlot(m, w, SLOT_A) && OnlySlot(w, z, SLOT_B)
    ensures Outside(z) == Outside(m)
    ensures (w[SLOT_A..SLOT_A + REC_LEN] == Torn(Ones(REC_LEN), 0)
             && z[SLOT_B..SLOT_B + REC_LEN] == Torn(Ones(REC_LEN), 0))
        ==> Load(DiskOf(z)) == Ram(DEFAULTS, 0, Nowhere)
  {
    BlankInvalid();
    assert Torn(Ones(REC_LEN), 0) == Ones(REC_LEN);
    hide SlotValid, Torn, Ones;
    Lower(w, z);
    assert w[SLOT_B + SLOT_SIZE..] == w[SLOT_B..][SLOT_SIZE..];
    assert m[SLOT_B + SLOT_SIZE..] == m[SLOT_B..][SLOT_SIZE..];
  }

  lemma Lower(w: seq<byte>, z: seq<byte>)
    requires |w| == |z| == CHIP && w[..SLOT_B] == z[..SLOT_B]
    ensures w[..SLOT_A] == z[..SLOT_A]
    ensures w[SLOT_A..SLOT_A + REC_LEN] == z[SLOT_A..SLOT_A + REC_LEN]
  {
    SubSlice(z, 0, SLOT_B, SLOT_A, SLOT_A + REC_LEN);
    SubSlice(w, 0, SLOT_B, SLOT_A, SLOT_A + REC_LEN);
    assert w[0..SLOT_B] == w[..SLOT_B] && z[0..SLOT_B] == z[..SLOT_B];
    assert z[..SLOT_A] == z[..SLOT_B][..SLOT_A] && w[..SLOT_A] == w[..SLOT_B][..SLOT_A];
  }
}
