/** The on-chip flash of the STM32F407 (src/storage/intflash.c): sectors of three sizes, erased whole;
    programming by words and bytes, which can only clear bits. */
module IntFlash {
  import opened Bytes
  import opened NorFlash

  const BASE := 0x0800_0000
  const SIZE := 0x8_0000
  const END := BASE + SIZE
  const ROUND := 0x1000

  datatype Sector = Sector(addr: nat, size: nat)

  /** f4_sector_tab */
  const TABLE: seq<Sector> := [
    Sector(0x0800_0000, 0x4000), Sector(0x0800_4000, 0x4000), Sector(0x0800_8000, 0x4000),
    Sector(0x0800_C000, 0x4000), Sector(0x0801_0000, 0x1_0000), Sector(0x0802_0000, 0x2_0000),
    Sector(0x0804_0000, 0x2_0000), Sector(0x0806_0000, 0x2_0000)
  ]

  predicate Meets(s: Sector, addr: nat, end: nat) {
    !(s.addr + s.size <= addr || s.addr >= end)
  }

  /** The sector a byte belongs to. */
  function SectorOf(i: nat): (k: nat)
    requires i < SIZE
    ensures k < 8 && TABLE[k].addr <= BASE + i < TABLE[k].addr + TABLE[k].size
  {
    if i < 0x4000 then 0 else if i < 0x8000 then 1 else if i < 0xC000 then 2 else if i < 0x1_0000 then 3
    else if i < 0x2_0000 then 4 else if i < 0x4_0000 then 5 else if i < 0x6_0000 then 6 else 7
  }

  /** m after the first n sectors of the table were erased, those that meet the range. */
  function Swept(m: seq<byte>, addr: nat, end: nat, n: nat): (r: seq<byte>)
    requires |m| == SIZE && n <= 8
    ensures |r| == SIZE
  {
    if n == 0 then m
    else
      var s, before := TABLE[n - 1], Swept(m, addr, end, n - 1);
      if Meets(s, addr, end) then Erased(before, s.addr - BASE, s.size) else before
  }

  lemma OnlySector(i: nat, k: nat)
    requires i < SIZE && k < 8
    ensures TABLE[k].addr <= BASE + i < TABLE[k].addr + TABLE[k].size <==> k == SectorOf(i)
  {
  }

  /** A byte is blank afterwards exactly when its sector meets the range, and as before otherwise. */
  lemma {:induction false} SweptAt(m: seq<byte>, addr: nat, end: nat, n: nat, i: nat)
    requires |m| == SIZE && n <= 8 && i < SIZE
    ensures Swept(m, addr, end, n)[i]
            == if SectorOf(i) < n && Meets(TABLE[SectorOf(i)], addr, end) then 0xFF else m[i]
  {
    hide SectorOf;
    if n > 0 {
      SweptAt(m, addr, end, n - 1, i);
      OnlySector(i, n - 1);
    }
  }

  /** The whole range is blank, and nothing outside the sectors it meets has changed. */
  lemma SweptCovers(m: seq<byte>, addr: nat, end: nat)
    requires |m| == SIZE && BASE <= addr <= end <= END
    ensures Blank(Swept(m, addr, end, 8)[addr - BASE..end - BASE])
    ensures forall i :: 0 <= i < SIZE && !Meets(TABLE[SectorOf(i)], addr, end) ==>
      Swept(m, addr, end, 8)[i] == m[i]
  {
    var r := Swept(m, addr, end, 8);
    hide Swept, SectorOf;
    forall i: nat | i < SIZE
      ensures r[i] == if Meets(TABLE[SectorOf(i)], addr, end) then 0xFF else m[i]
    {
      SweptAt(m, addr, end, 8, i);
    }
    forall i: nat | addr - BASE <= i < end - BASE
      ensures r[i] == 0xFF
    {
      OnlySector(i, SectorOf(i));
    }
  }

  class Flash {
    const mem: array<byte>
    /** Erase commands succeed. */
    const sure_erase: bool
    /** Program commands succeed. */
    const sure_write: bool

    ghost predicate Valid()
    {
      mem.Length == SIZE
    }

    ghost function Image(): (m: seq<byte>)
      reads mem
    {
      mem[..]
    }

    constructor (sure_erase: bool, sure_write: bool)
      ensures Valid() && fresh(mem) && this.sure_erase == sure_erase && this.sure_write == sure_write
    {
      mem := new byte[SIZE];
      this.sure_erase, this.sure_write := sure_erase, sure_write;
    }

    /** HAL_FLASHEx_Erase of one sector; when it fails the sector is as before or blank. */
    method EraseSector(k: nat) returns (ok: bool)
      requires Valid() && k < 8
      modifies mem
      ensures sure_erase ==> ok
      ensures Image() == Erased(old(Image()), TABLE[k].addr - BASE, TABLE[k].size)
           || (!ok && Image() == old(Image()))
    {
      var fails: bool, starts: bool := *, *;
      ok := sure_erase || !fails;
      if ok || starts {
        var base := TABLE[k].addr - BASE;
        forall i | base <= i < base + TABLE[k].size {
          mem[i] := 0xFF;
        }
      }
      assert ok ==> Image() == Erased(old(Image()), TABLE[k].addr - BASE, TABLE[k].size);
    }

    /** HAL_FLASH_Program of a word or a byte; when it fails, some first bytes may be stored. */
    method Program(addr: nat, data: seq<byte>) returns (ok: bool, ghost n: nat)
      requires Valid() && BASE <= addr && addr + |data| <= END && (|data| == 4 || |data| == 1)
      modifies mem
      ensures n <= |data| && (ok ==> n == |data|) && (sure_write ==> ok)
      ensures Image() == Programmed(old(Image()), addr - BASE, data[..n])
    {
      hide And;
      var fails: bool := *;
      var stored: nat :| stored <= |data|;
      ok := sure_write || !fails;
      if ok {
        stored := |data|;
      }
      n := stored;
      forall i | 0 <= i < stored {
        mem[addr - BASE + i] := And(mem[addr - BASE + i], data[i]);
      }
      assert Image() == Programmed(old(Image()), addr - BASE, data[..n]);
    }

    /** intflash_erase. The end is computed in 32 bits, as in the code. */
    method Erase(addr: u32, len: u32) returns (rc: int, ghost swept: nat)
      requires Valid()
      modifies mem
      ensures (rc == 0 || rc == -1) && swept <= 8
      ensures Image() == Swept(old(Image()), addr, RangeEnd(addr, len), swept)
      ensures rc == 0 ==> len == 0 || (swept == 8 && BASE <= addr && RangeEnd(addr, len) <= END)
      ensures len == 0 ==> swept == 0
      ensures sure_erase && BASE <= addr && RangeEnd(addr, len) <= END ==> rc == 0
    {
      hide Meets, Erased;
      swept := 0;
      if len == 0 {
        return 0, 0;
      }
      var end := RangeEnd(addr, len);
      if addr < BASE || end > END {
        return -1, 0;
      }
      for i := 0 to 8
        invariant swept == i && Image() == Swept(old(Image()), addr, end, i)
      {
        if !Meets(TABLE[i], addr, end) {
          swept := i + 1;
          continue;
        }
        var ok := EraseSector(i);
        if Image() != Swept(old(Image()), addr, end, i) {
          swept := i + 1;
        }
        if !ok {
          return -1, swept;
        }
        swept := i + 1;
      }
      return 0, 8;
    }

    /** intflash_write: words where the address is aligned and four bytes are left, bytes otherwise;
        together one program of the whole buffer. */
    method Write(addr: u32, buf: seq<byte>) returns (rc: int, ghost n: nat)
      requires Valid() && BASE <= addr && addr + |buf| <= END
      modifies mem
      ensures (rc == 0 || rc == -1) && n <= |buf| && (rc == 0 ==> n == |buf|)
      ensures Image() == Programmed(old(Image()), addr - BASE, buf[..n])
      ensures sure_write ==> rc == 0
    {
      hide Programmed;
      var off := 0;
      ghost var at := addr - BASE;
      ProgrammedNothing(Image(), at);
      assert buf[..0] == [];
      while off < |buf|
        invariant 0 <= off <= |buf| && Image() == Programmed(old(Image()), at, buf[..off])
      {
        var size := if (addr + off) % 4 == 0 && |buf| - off >= 4 then 4 else 1;
        var ok;
        ok, n := Program(addr + off, buf[off..off + size]);
        ProgrammedSplit(old(Image()), at, buf[..off], buf[off..off + size][..n]);
        JoinSlices(buf, off, off + size, n);
        if !ok {
          return -1, off + n;
        }
        off := off + size;
      }
      return 0, off;
    }
  }

  /** len is rounded up to 4 KB; both sums wrap at 2^32. */
  function RangeEnd(addr: u32, len: u32): u32 {
    (addr + (len + 0xFFF) % U32_MOD / ROUND * ROUND) % U32_MOD
  }

  function RoundedLen(len: u32): nat {
    (len + 0xFFF) / ROUND * ROUND
  }

  /** What a call that passes the range check leaves in the flash. If the true end of the range is in the
      flash, the range is blank. Otherwise the sums have wrapped round, the end computed is not beyond
      addr, and 0 is returned although nothing is erased - or, when that end is still inside the sector
      of addr, exactly that sector is, with bytes nobody asked for. */
  lemma EraseCoversIff(m: seq<byte>, addr: u32, len: u32)
    requires |m| == SIZE && len > 0 && BASE <= addr && RangeEnd(addr, len) <= END
    ensures addr + RoundedLen(len) <= END ==>
      addr + len <= END && Blank(Swept(m, addr, RangeEnd(addr, len), 8)[addr - BASE..addr + len - BASE])
    ensures addr + RoundedLen(len) > END ==>
      Swept(m, addr, RangeEnd(addr, len), 8)
      == if HitsOwnSector(addr, RangeEnd(addr, len))
         then Erased(m, Own(addr).addr - BASE, Own(addr).size) else m
  {
    hide Swept, RoundedLen, RangeEnd, SectorOf;
    RoundedBounds(addr, len);
    if addr + RoundedLen(len) <= END {
      SweptCovers(m, addr, RangeEnd(addr, len));
      BlankBegin(Swept(m, addr, RangeEnd(addr, len), 8), addr - BASE, addr + len - BASE, RangeEnd(addr, len) - BASE);
    } else {
      SweptBackwards(m, addr, RangeEnd(addr, len));
    }
  }

  lemma BlankBegin(m: seq<byte>, a: nat, b: nat, c: nat)
    requires a <= b <= c <= |m| && Blank(m[a..c])
    ensures Blank(m[a..b])
  {
    SubSlice(m, a, c, 0, b - a);
    assert forall i :: 0 <= i < b - a ==> m[a..b][i] == m[a..c][i];
  }

  lemma RoundedBounds(addr: u32, len: u32)
    requires len > 0 && BASE <= addr && RangeEnd(addr, len) <= END
    ensures addr + RoundedLen(len) <= END ==> RangeEnd(addr, len) == addr + RoundedLen(len) >= addr + len
    ensures addr + RoundedLen(len) > END ==> RangeEnd(addr, len) <= addr
  {
    var r := RoundedLen(len);
    assert len <= r < len + ROUND;
    if len + 0xFFF >= U32_MOD {
      assert (len + 0xFFF) % U32_MOD == len + 0xFFF - U32_MOD;
    }
  }

  /** The sector addr lies in. */
  function Own(addr: nat): Sector
    requires BASE <= addr < END
  {
    TABLE[SectorOf(addr - BASE)]
  }

  /** An end at or before addr is still inside the sector of addr. */
  predicate HitsOwnSector(addr: nat, end: nat)
    requires BASE <= addr
  {
    addr < END && Own(addr).addr < end
  }

  /** A sweep whose end is not beyond its begin. */
  lemma SweptBackwards(m: seq<byte>, addr: nat, end: nat)
    requires |m| == SIZE && BASE <= addr && end <= addr
    ensures Swept(m, addr, end, 8)
            == if HitsOwnSector(addr, end) then Erased(m, Own(addr).addr - BASE, Own(addr).size) else m
  {
    var r := Swept(m, addr, end, 8);
    var want := if HitsOwnSector(addr, end) then Erased(m, Own(addr).addr - BASE, Own(addr).size) else m;
    forall i: nat | i < SIZE
      ensures r[i] == want[i]
    {
      SweptAt(m, addr, end, 8, i);
      hide Swept;
      if addr < END {
        OnlySector(addr - BASE, SectorOf(i));
        OnlySector(i, SectorOf(addr - BASE));
      }
    }
  }

  /** A wrapped call leaves every flash as it is if and only if the end computed is not inside the sector
      of addr. */
  lemma WrappedHarmlessIff(addr: u32, len: u32)
    requires len > 0 && BASE <= addr && RangeEnd(addr, len) <= END < addr + RoundedLen(len)
    ensures (forall m: seq<byte> :: |m| == SIZE ==> Swept(m, addr, RangeEnd(addr, len), 8) == m)
            <==> addr >= END || RangeEnd(addr, len) <= Own(addr).addr
  {
    hide Swept, RangeEnd, RoundedLen, SectorOf, Erased;
    forall m: seq<byte> | |m| == SIZE
      ensures Swept(m, addr, RangeEnd(addr, len), 8)
              == if HitsOwnSector(addr, RangeEnd(addr, len))
                 then Erased(m, Own(addr).addr - BASE, Own(addr).size) else m
    {
      EraseCoversIff(m, addr, len);
    }
    if HitsOwnSector(addr, RangeEnd(addr, len)) {
      ZerosErased(Own(addr));
      assert Swept(seq(SIZE, _ => 0), addr, RangeEnd(addr, len), 8) != seq(SIZE, _ => 0);
    }
  }

  lemma ZerosErased(s: Sector)
    requires BASE <= s.addr < END && s.size > 0
    ensures Erased(seq(SIZE, _ => 0), s.addr - BASE, s.size) != seq(SIZE, _ => 0)
  {
    var m: seq<byte> := seq(SIZE, _ => 0);
    assert Erased(m, s.addr - BASE, s.size)[s.addr - BASE] == 0xFF;
  }

  /** For instance this call erases the 128 KB around its begin, also below it, and returns 0. */
  lemma WrappedErases(m: seq<byte>)
    requires |m| == SIZE
    ensures RangeEnd(0x0803_0000, 0xFFFF_F000) == 0x0802_F000
    ensures Swept(m, 0x0803_0000, RangeEnd(0x0803_0000, 0xFFFF_F000), 8) == Erased(m, 0x2_0000, 0x2_0000)
  {
    EraseCoversIff(m, 0x0803_0000, 0xFFFF_F000);
  }
}
