/** The users of the NOR flash that split what they write by pages: the littlefs port
    (src/storage/lfs_port.c) and MCUboot's flash map (src/boot/mcuboot/flash_map_backend.c); and the
    sectors the flash map reports. */
module FlashAreas {
  import opened Bytes
  import opened NorFlash
  import IntFlash
  import W25q

  const BLOCK_SIZE := 0x1000
  const LFS_OFFSET := 0xF_0000
  const LFS_BLOCKS := (CHIP - LFS_OFFSET) / BLOCK_SIZE
  const EIO := -5

  /** How many bytes of `len` from addr on a working chip takes: it refuses what lies beyond its end. */
  function Reach(addr: nat, len: nat): (n: nat) {
    if addr >= CHIP then 0 else if len <= CHIP - addr then len else CHIP - addr
  }

  /** The loop of both: pages up to the end of the data. Together they are one unrestricted program, up to
      the end of the chip. */
  method WriteByPages(flash: W25q.Flash, addr0: u32, data: seq<byte>) returns (rc: int, ghost stored: nat)
    requires flash.Valid() && |data| < U32_MOD
    modifies flash`powered, flash.mem
    ensures (rc == 0 || rc == -1) && stored <= Reach(addr0, |data|) && (rc == 0 ==> stored == |data|)
    ensures flash.Image() == Programmed(old(flash.Image()), addr0, data[..stored])
    ensures flash.reliable ==> flash.powered == old(flash.powered)
    ensures flash.reliable && old(flash.powered) ==>
      stored == Reach(addr0, |data|) && (rc == 0 <==> stored == |data|)
  {
    hide Programmed;
    var addr, p, size: nat := addr0, 0, |data|;
    ProgrammedNothing(flash.Image(), addr0);
    assert data[..0] == [];
    while size > 0
      invariant 0 <= size && p + size == |data| && addr == addr0 + p && (p > 0 ==> addr <= CHIP)
      invariant flash.Image() == Programmed(old(flash.Image()), addr0, data[..p])
      invariant flash.reliable ==> flash.powered == old(flash.powered)
    {
      var chunk := PAGE - addr % PAGE;
      if chunk > size {
        chunk := size;
      }
      PageEnd(addr, chunk);
      ghost var k;
      rc, k := flash.Write(addr, data[p..p + chunk]);
      ProgrammedSplit(old(flash.Image()), addr0, data[..p], data[p..p + chunk][..k]);
      JoinSlices(data, p, p + chunk, k);
      if rc != 0 {
        return -1, p + k;
      }
      addr := (addr + chunk) % U32_MOD;
      p := p + chunk;
      size := size - chunk;
    }
    return 0, p;
  }

  /** The chip ends with a page: no page is half inside it. */
  lemma PageEnd(addr: nat, chunk: nat)
    requires 0 < chunk <= PAGE - addr % PAGE
    ensures addr < CHIP ==> addr + chunk <= CHIP
  {
    assert CHIP % PAGE == 0;
  }

  // ---- littlefs ----

  function BlockAddr(block: nat, off: nat): nat {
    LFS_OFFSET + block * BLOCK_SIZE + off
  }

  /** m and w differ only between lo and hi. */
  predicate OnlyBetween(m: seq<byte>, w: seq<byte>, lo: nat, hi: nat)
    requires |m| == |w| && lo <= hi <= |m|
  {
    m[..lo] == w[..lo] && m[hi..] == w[hi..]
  }

  lemma ProgrammedBetween(m: seq<byte>, a: nat, d: seq<byte>, lo: nat, hi: nat)
    requires lo <= a && a + |d| <= hi <= |m|
    ensures OnlyBetween(m, Programmed(m, a, d), lo, hi)
  {
    var r := Programmed(m, a, d);
    ProgrammedElsewhere(m, a, d, 0, lo);
    ProgrammedElsewhere(m, a, d, hi, |m|);
    hide Programmed;
    assert m[0..lo] == m[..lo] && r[0..lo] == r[..lo];
    assert m[hi..|m|] == m[hi..] && r[hi..|m|] == r[hi..];
  }

  lemma BlockBounds(block: nat)
    requires block < LFS_BLOCKS
    ensures LFS_OFFSET <= BlockAddr(block, 0) && BlockAddr(block, 0) + BLOCK_SIZE <= CHIP
    ensures BlockAddr(block, 0) % SECTOR == 0
  {
    assert BlockAddr(block, 0) == SECTOR * (LFS_OFFSET / SECTOR + block);
  }

  /** lf_prog: nothing outside its own block is touched, whatever littlefs asks for. */
  method LfProg(flash: W25q.Flash, block: u32, off: u32, data: seq<byte>) returns (rc: int, ghost stored: nat)
    requires flash.Valid() && |data| < U32_MOD
    modifies flash`powered, flash.mem
    ensures (rc == 0 || rc == EIO) && stored <= |data| && (rc == 0 ==> stored == |data|)
    ensures flash.Image() == Programmed(old(flash.Image()), BlockAddr(block, off), data[..stored])
    ensures block >= LFS_BLOCKS || off + |data| > BLOCK_SIZE ==> rc == EIO && flash.Image() == old(flash.Image())
    ensures block < LFS_BLOCKS ==>
      OnlyBetween(old(flash.Image()), flash.Image(), BlockAddr(block, 0), BlockAddr(block, 0) + BLOCK_SIZE)
    ensures flash.reliable && old(flash.powered) ==>
      (rc == 0 <==> block < LFS_BLOCKS && off + |data| <= BLOCK_SIZE)
  {
    hide Programmed;
    stored := 0;
    ProgrammedNothing(flash.Image(), BlockAddr(block, off));
    if block >= LFS_BLOCKS || off > BLOCK_SIZE || |data| > BLOCK_SIZE - off {
      return EIO, 0;
    }
    BlockBounds(block);
    var addr := BlockAddr(block, off);
    rc, stored := WriteByPages(flash, addr, data);
    ProgrammedBetween(old(flash.Image()), addr, data[..stored], BlockAddr(block, 0), BlockAddr(block, 0) + BLOCK_SIZE);
    rc := if rc == 0 then 0 else EIO;
  }

  /** lf_erase */
  method LfErase(flash: W25q.Flash, block: u32) returns (rc: int)
    requires flash.Valid()
    modifies flash`powered, flash.mem
    ensures rc == 0 || rc == EIO
    ensures block < LFS_BLOCKS ==>
      OnlyBetween(old(flash.Image()), flash.Image(), BlockAddr(block, 0), BlockAddr(block, 0) + BLOCK_SIZE)
    ensures block >= LFS_BLOCKS ==> rc == EIO && flash.Image() == old(flash.Image())
    ensures rc == 0 ==> flash.Image() == Erased(old(flash.Image()), BlockAddr(block, 0), BLOCK_SIZE)
    ensures flash.reliable && old(flash.powered) ==> (rc == 0 <==> block < LFS_BLOCKS)
  {
    hide Erased;
    if block >= LFS_BLOCKS {
      return EIO;
    }
    BlockBounds(block);
    var at := BlockAddr(block, 0);
    ghost var m := flash.Image();
    ghost var done;
    rc, done := flash.Erase(at, BLOCK_SIZE);
    ErasedElsewhere(m, at, done, 0, at);
    ErasedElsewhere(m, at, done, at + BLOCK_SIZE, CHIP);
    ghost var r := flash.Image();
    assert m[0..at] == m[..at] && r[0..at] == r[..at];
    assert m[at + BLOCK_SIZE..CHIP] == m[at + BLOCK_SIZE..] && r[at + BLOCK_SIZE..CHIP] == r[at + BLOCK_SIZE..];
    rc := if rc == 0 then 0 else EIO;
  }

  // ---- MCUboot's flash areas ----

  datatype AreaId = Primary | Secondary | Scratch

  const AREA_SIZE := 0x7_0000

  /** Where the area begins: in the address space for slot0, in the NOR flash for the others. */
  function AreaOff(id: AreaId): nat {
    match id
    case Primary => IntFlash.BASE + 0x1_0000
    case Secondary => 0
    case Scratch => 0x7_0000
  }

  /** Where a write or an erase in an area begins; the sum wraps at 2^32. */
  function AreaAddr(id: AreaId, off: u32): u32 {
    (AreaOff(id) + off) % U32_MOD
  }

  /** The guard of flash_area_write and flash_area_erase, whose sum wraps too. */
  predicate Accepted(off: u32, len: u32) {
    (off + len) % U32_MOD <= AREA_SIZE
  }

  /** flash_area_write to an area of the NOR flash: one unrestricted program. Without a wrap of the sum it
      never leaves the area. */
  method AreaWrite(flash: W25q.Flash, id: AreaId, off: u32, data: seq<byte>) returns (rc: int, ghost stored: nat)
    requires flash.Valid() && id != Primary && |data| < U32_MOD
    modifies flash`powered, flash.mem
    ensures (rc == 0 || rc == -1) && stored <= |data| && (rc == 0 ==> stored == |data|)
    ensures flash.Image() == Programmed(old(flash.Image()), AreaAddr(id, off), data[..stored])
    ensures !Accepted(off, |data|) ==> rc == -1 && stored == 0
    ensures Accepted(off, |data|) ==> stored <= Reach(AreaAddr(id, off), |data|)
    ensures flash.reliable && old(flash.powered) && Accepted(off, |data|) ==>
      stored == Reach(AreaAddr(id, off), |data|) && (rc == 0 <==> stored == |data|)
    ensures off + |data| < U32_MOD ==>
      OnlyBetween(old(flash.Image()), flash.Image(), AreaOff(id), AreaOff(id) + AREA_SIZE)
    ensures flash.reliable && old(flash.powered) && off + |data| < U32_MOD ==>
      (rc == 0 <==> off + |data| <= AREA_SIZE)
  {
    hide Programmed;
    stored := 0;
    ProgrammedNothing(flash.Image(), AreaAddr(id, off));
    if (off + |data|) % U32_MOD > AREA_SIZE {
      return -1, 0;
    }
    rc, stored := WriteByPages(flash, AreaAddr(id, off), data);
    if off + |data| < U32_MOD {
      ProgrammedBetween(old(flash.Image()), AreaOff(id) + off, data[..stored], AreaOff(id), AreaOff(id) + AREA_SIZE);
    }
  }

  /** flash_area_write to slot0, where what the wrapped sum addresses is in the flash at all. */
  method AreaWriteSlot0(flash: IntFlash.Flash, off: u32, data: seq<byte>) returns (rc: int, ghost stored: nat)
    requires flash.Valid() && |data| < U32_MOD
    requires Accepted(off, |data|) ==>
      IntFlash.BASE <= AreaAddr(Primary, off) && AreaAddr(Primary, off) + |data| <= IntFlash.END
    modifies flash.mem
    ensures (rc == 0 || rc == -1) && stored <= |data| && (rc == 0 ==> stored == |data|)
    ensures !Accepted(off, |data|) ==> rc == -1 && flash.Image() == old(flash.Image())
    ensures Accepted(off, |data|) ==>
      flash.Image() == Programmed(old(flash.Image()), AreaAddr(Primary, off) - IntFlash.BASE, data[..stored])
    ensures flash.sure_write ==> (rc == 0 <==> Accepted(off, |data|))
    ensures off + |data| < U32_MOD ==>
      OnlyBetween(old(flash.Image()), flash.Image(), AreaOff(Primary) - IntFlash.BASE, IntFlash.SIZE)
  {
    hide Programmed;
    stored := 0;
    if (off + |data|) % U32_MOD > AREA_SIZE {
      return -1, 0;
    }
    rc, stored := flash.Write(AreaAddr(Primary, off), data);
    if off + |data| < U32_MOD {
      ProgrammedBetween(old(flash.Image()), AreaAddr(Primary, off) - IntFlash.BASE, data[..stored],
                        AreaOff(Primary) - IntFlash.BASE, IntFlash.SIZE);
    }
  }

  /** The n bytes from addr lie between lo and hi. */
  predicate Inside(addr: nat, n: nat, lo: nat, hi: nat) {
    n == 0 || (lo <= addr && addr + n <= hi)
  }

  /** How many bytes an accepted write programs: the NOR flash refuses what lies beyond its end, the flash
      of the chip refuses nothing. */
  function Touched(id: AreaId, off: u32, len: u32): nat {
    if id == Primary then len else Reach(AreaAddr(id, off), len)
  }

  /** An accepted write stays inside its area exactly when the true end of it does, or when the chip refuses
      its first page. */
  lemma AreaBoundIff(id: AreaId, off: u32, len: u32)
    requires Accepted(off, len)
    ensures Inside(AreaAddr(id, off), Touched(id, off, len), AreaOff(id), AreaOff(id) + AREA_SIZE)
            <==> off + len <= AREA_SIZE || (id != Primary && AreaAddr(id, off) >= CHIP) || len == 0
  {
  }

  /** For instance 512 bytes at offset 0xFFFFFF00. Of the scratch area: accepted, and half of them go to the
      end of slot1. Of slot0: accepted, and half of them go to the boot loader's last sector. */
  lemma AreaWraps()
    ensures Accepted(0xFFFF_FF00, 0x200) && AreaAddr(Scratch, 0xFFFF_FF00) == 0x6_FF00
    ensures AreaOff(Secondary) + AREA_SIZE == AreaOff(Scratch) == 0x7_0000
    ensures Reach(AreaAddr(Scratch, 0xFFFF_FF00), 0x200) == 0x200
    ensures !Inside(AreaAddr(Scratch, 0xFFFF_FF00), 0x200, AreaOff(Scratch), AreaOff(Scratch) + AREA_SIZE)
    ensures AreaAddr(Primary, 0xFFFF_FF00) == 0x0800_FF00 && IntFlash.SectorOf(0xFF00) == 3
    ensures !Inside(AreaAddr(Primary, 0xFFFF_FF00), 0x200, AreaOff(Primary), AreaOff(Primary) + AREA_SIZE)
  {
    AreaBoundIff(Scratch, 0xFFFF_FF00, 0x200);
    AreaBoundIff(Primary, 0xFFFF_FF00, 0x200);
  }

  /** flash_area_erase in an area of the NOR flash. */
  method AreaErase(flash: W25q.Flash, id: AreaId, off: u32, len: u32) returns (rc: int, ghost done: nat)
    requires flash.Valid() && id != Primary
    modifies flash`powered, flash.mem
    ensures (rc == 0 || rc == -1) && done <= len && (rc == 0 ==> done == len)
    ensures flash.Image() == Erased(old(flash.Image()), AreaAddr(id, off), done)
    ensures !Accepted(off, len) ==> rc == -1 && done == 0
    ensures flash.reliable && old(flash.powered) ==>
      (rc == 0 <==> && Accepted(off, len) && len > 0 && AreaAddr(id, off) % SECTOR == 0 && len % SECTOR == 0
                    && AreaAddr(id, off) + len <= CHIP)
    ensures off + len < U32_MOD ==>
      OnlyBetween(old(flash.Image()), flash.Image(), AreaOff(id), AreaOff(id) + AREA_SIZE)
  {
    hide Erased;
    ErasedNothing(flash.Image(), AreaAddr(id, off));
    if (off + len) % U32_MOD > AREA_SIZE {
      return -1, 0;
    }
    ghost var m := flash.Image();
    rc, done := flash.Erase(AreaAddr(id, off), len);
    if off + len < U32_MOD {
      ErasedBetween(m, AreaOff(id) + off, done, AreaOff(id), AreaOff(id) + AREA_SIZE);
    }
  }

  lemma ErasedNothing(m: seq<byte>, a: nat)
    ensures Erased(m, a, 0) == m
  {
  }

  lemma ErasedBetween(m: seq<byte>, a: nat, n: nat, lo: nat, hi: nat)
    requires lo <= a && a + n <= hi <= |m|
    ensures OnlyBetween(m, Erased(m, a, n), lo, hi)
  {
    var r := Erased(m, a, n);
    ErasedElsewhere(m, a, n, 0, lo);
    ErasedElsewhere(m, a, n, hi, |m|);
    hide Erased;
    assert m[0..lo] == m[..lo] && r[0..lo] == r[..lo];
    assert m[hi..|m|] == m[hi..] && r[hi..|m|] == r[hi..];
  }

  /** flash_area_erase in slot0. */
  method AreaEraseSlot0(flash: IntFlash.Flash, off: u32, len: u32) returns (rc: int, ghost swept: nat)
    requires flash.Valid()
    modifies flash.mem
    ensures (rc == 0 || rc == -1) && swept <= 8
    ensures !Accepted(off, len) ==> rc == -1 && swept == 0
    ensures flash.Image() == IntFlash.Swept(old(flash.Image()), AreaAddr(Primary, off),
                                            IntFlash.RangeEnd(AreaAddr(Primary, off), len), swept)
    ensures rc == 0 ==> len == 0 || swept == 8
  {
    if (off + len) % U32_MOD > AREA_SIZE {
      return -1, 0;
    }
    rc, swept := flash.Erase(AreaAddr(Primary, off), len);
  }

  /** An accepted erase of slot0 that the flash does not refuse leaves the boot loader's sectors alone if and
      only if the address does not wrap; a plain range never does. */
  lemma BootErasedIff(off: u32, len: u32)
    requires Accepted(off, len) && len > 0
    requires IntFlash.BASE <= AreaAddr(Primary, off)
    requires IntFlash.RangeEnd(AreaAddr(Primary, off), len) <= IntFlash.END
    ensures (forall m: seq<byte> :: |m| == IntFlash.SIZE ==> BootKept(m, off, len))
            <==> AreaOff(Primary) + off < U32_MOD
    ensures off + len <= AREA_SIZE ==> AreaOff(Primary) + off < U32_MOD
  {
    var addr, end := AreaAddr(Primary, off), IntFlash.RangeEnd(AreaAddr(Primary, off), len);
    if AreaOff(Primary) + off < U32_MOD {
      forall m: seq<byte> | |m| == IntFlash.SIZE
        ensures BootKept(m, off, len)
      {
        forall i: nat | i < 0x1_0000
          ensures IntFlash.Swept(m, addr, end, 8)[i] == m[i]
        {
          IntFlash.SweptAt(m, addr, end, 8, i);
        }
      }
    } else {
      var m: seq<byte> := seq(IntFlash.SIZE, _ => 0);
      var i := addr - IntFlash.BASE;
      EndsInSlot(off, len);
      IntFlash.SweptAt(m, addr, end, 8, i);
      assert IntFlash.Swept(m, addr, end, 8)[..0x1_0000][i] == 0xFF;
      assert !BootKept(m, off, len);
    }
  }

  predicate BootKept(m: seq<byte>, off: u32, len: u32)
    requires |m| == IntFlash.SIZE
  {
    IntFlash.Swept(m, AreaAddr(Primary, off), IntFlash.RangeEnd(AreaAddr(Primary, off), len), 8)[..0x1_0000]
    == m[..0x1_0000]
  }

  /** A wrapped begin lies below slot0 and the end is not before it. */
  lemma EndsInSlot(off: u32, len: u32)
    requires Accepted(off, len) && len > 0 && AreaOff(Primary) + off >= U32_MOD
    requires IntFlash.BASE <= AreaAddr(Primary, off)
    ensures AreaAddr(Primary, off) < AreaOff(Primary) <= IntFlash.RangeEnd(AreaAddr(Primary, off), len)
  {
    assert off + len >= U32_MOD;
    var r := (len + 0xFFF) / 0x1000 * 0x1000;
    assert len <= r < len + 0x1000;
  }

  /** For instance 8 KB at offset 0xFFFFF000: of slot0 it takes the boot loader's last sector with it, of the
      scratch area the end of slot1. */
  lemma EraseWraps()
    ensures Accepted(0xFFFF_F000, 0x2000)
    ensures AreaAddr(Primary, 0xFFFF_F000) == 0x0800_F000
    ensures IntFlash.RangeEnd(0x0800_F000, 0x2000) == 0x0801_1000
    ensures exists m: seq<byte> :: |m| == IntFlash.SIZE && !BootKept(m, 0xFFFF_F000, 0x2000)
    ensures AreaAddr(Scratch, 0xFFFF_F000) == 0x6_F000 && 0x6_F000 % SECTOR == 0 && 0x2000 % SECTOR == 0
  {
    BootErasedIff(0xFFFF_F000, 0x2000);
  }

  /** The sectors, addressed from the start of their area, follow each other without gap and end at `end`. */
  predicate Tiles(s: seq<IntFlash.Sector>, begin: nat, end: nat) {
    if s == [] then begin == end
    else s[|s| - 1].size > 0 && s[|s| - 1].addr + s[|s| - 1].size == end
         && Tiles(s[..|s| - 1], begin, s[|s| - 1].addr)
  }

  /** flash_area_get_sectors: the sectors tile the area exactly. For slot0 each is a sector of the
      chip; elsewhere each is one 4 KB erase. */
  method GetSectors(id: AreaId) returns (s: seq<IntFlash.Sector>)
    ensures Tiles(s, 0, AREA_SIZE)
    ensures id == Primary ==> |s| == 4 && forall i :: 0 <= i < 4 ==>
      IntFlash.TABLE[4 + i] == IntFlash.Sector(AreaOff(Primary) + s[i].addr, s[i].size)
    ensures id != Primary ==> forall i :: 0 <= i < |s| ==> s[i] == IntFlash.Sector(SECTOR * i, SECTOR)
  {
    s := [];
    if id == Primary {
      var sz: seq<nat>, off: nat := [0x1_0000, 0x2_0000, 0x2_0000, 0x2_0000], 0;
      for i := 0 to 4
        invariant |s| == i && off == (if i == 0 then 0 else 0x2_0000 * i - 0x1_0000)
        invariant Tiles(s, 0, off)
        invariant forall j :: 0 <= j < i ==>
          IntFlash.TABLE[4 + j] == IntFlash.Sector(AreaOff(Primary) + s[j].addr, s[j].size)
      {
        TileMore(s, off, sz[i]);
        s := s + [IntFlash.Sector(off, sz[i])];
        off := off + sz[i];
      }
    } else {
      var n := AREA_SIZE / 4096;
      for i := 0 to n
        invariant |s| == i && Tiles(s, 0, SECTOR * i)
        invariant forall j :: 0 <= j < i ==> s[j] == IntFlash.Sector(SECTOR * j, SECTOR)
      {
        TileMore(s, SECTOR * i, SECTOR);
        s := s + [IntFlash.Sector(i * 4096, 4096)];
      }
    }
  }

  lemma TileMore(s: seq<IntFlash.Sector>, end: nat, size: nat)
    requires Tiles(s, 0, end) && size > 0
    ensures Tiles(s + [IntFlash.Sector(end, size)], 0, end + size)
  {
    assert (s + [IntFlash.Sector(end, size)])[..|s|] == s;
  }
}
