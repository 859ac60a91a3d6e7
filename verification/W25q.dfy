/** The W25Q128 driver (src/storage/w25qxx.c) over a model of the chip: 64K, 32K and 4K block
    erase commands that erase the whole block an address lies in, and a page program command
    whose address wraps inside its 256-byte page. SPI transfers may fail and power may be lost
    between or inside programs; nothing is assumed about when, unless the part is `reliable`. */
module W25q {
  import opened Bytes
  import opened NorFlash

  /** The chip's own page program: bytes past the end of the page wrap to its start. */
  function PageProgrammed(m: seq<byte>, a: nat, d: seq<byte>): (r: seq<byte>)
    requires a < |m| && |d| <= PAGE
    ensures |r| == |m|
  {
    var page, col := a - a % PAGE, a % PAGE;
    seq(|m|, i requires 0 <= i < |m| =>
      if page <= i < page + PAGE && (i - page - col) % PAGE < |d|
      then And(m[i], d[(i - page - col) % PAGE]) else m[i])
  }

  /** A program the io_flash contract allows: at most one page, not crossing its end. */
  predicate Legal(addr: nat, len: nat) {
    len <= PAGE && addr % PAGE + len <= PAGE && addr + len <= CHIP && addr < CHIP
  }

  lemma NoWrap(m: seq<byte>, a: nat, d: seq<byte>)
    requires |m| == CHIP && Legal(a, |d|)
    ensures PageProgrammed(m, a, d) == Programmed(m, a, d)
  {
    hide And;
    var page, col := a - a % PAGE, a % PAGE;
    var r, s := PageProgrammed(m, a, d), Programmed(m, a, d);
    forall i | 0 <= i < |m|
      ensures r[i] == s[i]
    {
      if page <= i < page + PAGE {
        assert (i - page - col) % PAGE == if i >= page + col then i - a else i - a + PAGE;
      }
    }
  }

  /** The largest erase block that starts at `at` and fits in `left`. */
  function Biggest(at: nat, left: nat): nat {
    if at % 0x1_0000 == 0 && left >= 0x1_0000 then 0x1_0000
    else if at % 0x8000 == 0 && left >= 0x8000 then 0x8000
    else 0x1000
  }

  lemma BiggestFits(at: nat, left: nat)
    requires at % SECTOR == 0 && left % SECTOR == 0 && left > 0
    ensures var n := Biggest(at, left);
            && (n == 0x1000 || n == 0x8000 || n == 0x1_0000) && n <= left
            && at % n == 0 && n % SECTOR == 0 && (at + n) % SECTOR == 0 && (left - n) % SECTOR == 0
  {
    var q, p := at / SECTOR, left / SECTOR;
    assert at == SECTOR * q && left == SECTOR * p;
    var n := Biggest(at, left);
    var k := if n == 0x1000 then 1 else if n == 0x8000 then 8 else 16;
    assert at + n == SECTOR * (q + k) && left - n == SECTOR * (p - k);
  }

  lemma SectorSum(a: nat, b: nat)
    requires a % SECTOR == 0 && b % SECTOR == 0
    ensures (a + b) % SECTOR == 0
  {
    assert a == SECTOR * (a / SECTOR) && b == SECTOR * (b / SECTOR);
    assert a + b == SECTOR * (a / SECTOR + b / SECTOR);
  }

  class Flash {
    const mem: array<byte>
    const reliable: bool
    var powered: bool

    ghost predicate Valid()
    {
      mem.Length == CHIP
    }

    ghost function Image(): (m: seq<byte>)
      reads mem
    {
      mem[..]
    }

    constructor (reliable: bool)
      ensures Valid() && fresh(mem) && powered && this.reliable == reliable
      ensures Blank(Image())
    {
      mem := new byte[CHIP](_ => 0xFF);
      this.reliable := reliable;
      powered := true;
    }

    // ---- chip commands ----

    /** Whether an operation gets through, fails on the bus, or meets the loss of power. */
    method Attempt() returns (ok: bool)
      modifies this`powered
      ensures ok ==> old(powered) && powered
      ensures powered ==> old(powered)
      ensures reliable ==> powered == old(powered) && ok == powered
    {
      ok := powered;
      if !reliable {
        var fails: bool := *;
        var off: bool := *;
        if off {
          powered := false;
        }
        ok := ok && !fails && !off;
      }
    }

    /** A block erase command: the block of `size` bytes that holds addr. When it is not
        acknowledged the block is either as before or erased. */
    method EraseCommand(addr: nat, size: nat) returns (ok: bool)
      requires Valid() && addr < CHIP && (size == 0x1000 || size == 0x8000 || size == 0x1_0000)
      modifies this`powered, mem
      ensures ok ==> old(powered) && powered
      ensures powered ==> old(powered)
      ensures reliable ==> powered == old(powered) && ok == powered
      ensures !old(powered) ==> Image() == old(Image())
      ensures Image() == Erased(old(Image()), addr - addr % size, size)
           || (!ok && Image() == old(Image()))
    {
      var alive := powered;
      ok := Attempt();
      var starts: bool := *;
      if ok || (alive && starts) {
        FillBlock(addr - addr % size, size);
      }
    }

    method FillBlock(base: nat, size: nat)
      requires Valid() && base + size <= CHIP
      modifies mem
      ensures Image() == Erased(old(Image()), base, size)
    {
      forall i | base <= i < base + size {
        mem[i] := 0xFF;
      }
      assert forall i :: 0 <= i < CHIP ==> mem[i] == Erased(old(Image()), base, size)[i];
    }

    /** A page program command. When it is not acknowledged some first bytes are stored. */
    method ProgramCommand(addr: nat, buf: seq<byte>) returns (ok: bool, ghost n: nat)
      requires Valid() && addr < CHIP && |buf| <= PAGE
      modifies this`powered, mem
      ensures ok ==> old(powered) && powered && n == |buf|
      ensures powered ==> old(powered)
      ensures reliable ==> powered == old(powered) && ok == powered
      ensures n <= |buf| && Image() == PageProgrammed(old(Image()), addr, buf[..n])
      ensures !old(powered) ==> n == 0
    {
      var alive := powered;
      ok := Attempt();
      var stored: nat :| stored <= |buf|;
      if ok {
        stored := |buf|;
      } else if !alive {
        stored := 0;
      }
      n := stored;
      var page, col := addr - addr % PAGE, addr % PAGE;
      forall i | page <= i < page + PAGE && (i - page - col) % PAGE < stored {
        mem[i] := And(mem[i], buf[(i - page - col) % PAGE]);
      }
      assert Image() == PageProgrammed(old(Image()), addr, buf[..n]);
    }

    // ---- driver ----

    /** w25_read: bursts of at most 65535 bytes. */
    method Read(addr: u32, len: u32) returns (rc: int, buf: seq<byte>)
      requires Valid()
      modifies this`powered
      ensures rc == 0 || rc == -1
      ensures powered ==> old(powered)
      ensures rc == 0 ==> len == 0 || addr + len <= CHIP
      ensures rc == 0 ==> buf == if len == 0 then [] else Image()[addr..addr + len]
      ensures reliable ==> powered == old(powered)
      ensures reliable && old(powered) ==> (rc == 0 <==> len == 0 || addr + len <= CHIP)
    {
      rc, buf := -1, [];
      if len == 0 {
        return 0, [];
      }
      if addr >= CHIP || CHIP - addr < len {
        return;
      }
      var at, left := addr as int, len as int;
      while left > 0
        invariant addr <= at && 0 <= left && at + left == addr + len
        invariant buf == Image()[addr..at]
        invariant powered ==> old(powered)
        invariant reliable ==> powered == old(powered)
      {
        var chunk := if left > 0xFFFF then 0xFFFF else left;
        var ok := Attempt();
        if !ok {
          return;
        }
        buf := buf + mem[at..at + chunk];
        at := at + chunk;
        left := left - chunk;
      }
      rc := 0;
    }

    /** w25_write: one page program, refused when it would leave its page. */
    method Write(addr: u32, buf: seq<byte>) returns (rc: int, ghost n: nat)
      requires Valid()
      modifies this`powered, mem
      ensures rc == 0 || rc == -1
      ensures powered ==> old(powered)
      ensures n <= |buf| && Image() == Programmed(old(Image()), addr, buf[..n])
      ensures rc == 0 ==> n == |buf| && (buf == [] || (Legal(addr, |buf|) && powered))
      ensures !Legal(addr, |buf|) ==> n == 0
      ensures !old(powered) ==> n == 0 && (buf != [] ==> rc != 0)
      ensures reliable ==> powered == old(powered)
      ensures reliable && old(powered) ==> (rc == 0 <==> buf == [] || Legal(addr, |buf|))
    {
      n := 0;
      ProgrammedNothing(Image(), addr);
      assert buf[..0] == [];
      if |buf| == 0 {
        return 0, 0;
      }
      rc := -1;
      if |buf| > PAGE {
        return;
      }
      if addr % PAGE + |buf| > PAGE {
        return;
      }
      if addr >= CHIP || CHIP - addr < |buf| {
        return;
      }
      var ok;
      ok, n := ProgramCommand(addr, buf);
      NoWrap(old(Image()), addr, buf[..n]);
      rc := if ok then 0 else -1;
    }

    /** w25_erase: a greedy cover of the range by 64K, 32K and 4K commands, each aligned to its
        own size, so that no command reaches outside the range. */
    method Erase(addr: u32, len: u32) returns (rc: int, ghost done: nat)
      requires Valid()
      modifies this`powered, mem
      ensures rc == 0 || rc == -1
      ensures powered ==> old(powered)
      ensures done <= len && done % SECTOR == 0 && Image() == Erased(old(Image()), addr, done)
      ensures rc == 0 ==> done == len && powered && len > 0 && addr + len <= CHIP
      ensures rc == 0 ==> addr % SECTOR == 0 && len % SECTOR == 0
      ensures !old(powered) ==> done == 0 && rc != 0
      ensures reliable ==> powered == old(powered)
      ensures reliable && old(powered) ==>
        (rc == 0 <==> len > 0 && addr % SECTOR == 0 && len % SECTOR == 0 && addr + len <= CHIP)
    {
      rc, done := -1, 0;
      assert Image() == Erased(Image(), addr, 0);
      if len == 0 || addr % SECTOR != 0 || len % SECTOR != 0 {
        return;
      }
      if addr >= CHIP || CHIP - addr < len {
        return;
      }
      var at, left := addr as int, len as int;
      while left > 0
        invariant addr <= at && 0 <= left && at + left == addr + len
        invariant at % SECTOR == 0 && left % SECTOR == 0
        invariant done == at - addr && done % SECTOR == 0
        invariant Image() == Erased(old(Image()), addr, done)
        invariant powered ==> old(powered)
        invariant reliable ==> powered == old(powered)
        invariant done > 0 ==> powered
        invariant !old(powered) ==> done == 0
      {
        var chunk := Biggest(at, left);
        BiggestFits(at, left);
        SectorSum(done, chunk);
        hide Biggest;
        ErasedSplit(old(Image()), addr, done, chunk);
        var ok := EraseCommand(at, chunk);
        if Image() != Erased(old(Image()), addr, done) {
          done := done + chunk;
        }
        if !ok {
          return;
        }
        done := at - addr + chunk;
        at := at + chunk;
        left := left - chunk;
      }
      rc := 0;
    }
  }
}
