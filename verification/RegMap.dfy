/** The register map (src/modbus/regmap.c): holding and input registers, the side effects of writing
    them, and the saving of the parameter registers. Outputs, history, clock, saving and reboot are
    recorded as events. */
module RegMap {
  import opened Bytes
  import opened Common
  import opened BitOps

  const HOLDING := 18
  const INPUT := 6
  const DO_NUM := 8
  const DI_NUM := 16
  const DO := 0x00
  const HISTORY := 0x05
  const TIME_HI := 0x0E
  const TIME_LO := 0x0F
  const SAVE := 0x10
  const REBOOT := 0x11
  const DI := 5

  datatype Event =
    | Outputs(v: word)
    | History(on: bool)
    | SetClock(hi: word, lo: word)
    | Saved(regs: seq<word>)
    | Rebooted

  datatype Bank = Bank(holding: seq<word>, input: seq<word>, events: seq<Event>)

  predicate BankOk(b: Bank) {
    |b.holding| == HOLDING && |b.input| == INPUT
  }

  /** What the clock shows when the high and the low half are read. */
  datatype Clock = Clock(hi: word, lo: word)

  // ---- reading ----

  /** io_read_holding, for an address in range */
  function ReadHolding(b: Bank, clock: Clock, addr: nat): word
    requires BankOk(b) && addr < HOLDING
  {
    if addr == TIME_HI then clock.hi else if addr == TIME_LO then clock.lo else b.holding[addr]
  }

  // ---- writing ----

  /** What is left in a register after v is written to it. */
  function Settled(addr: nat, before: word, v: word): word {
    if (addr == SAVE || addr == REBOOT) && v != before then 0 else v
  }

  /** The events of a write of v, `regs` being the registers with v in place. */
  function Effects(regs: seq<word>, addr: nat, v: word): seq<Event>
    requires |regs| == HOLDING && addr < HOLDING
  {
    if addr == DO then [Outputs(Both(v, 0xFF))]
    else if addr == HISTORY then [History(v != 0)]
    else if addr == TIME_LO then [SetClock(regs[TIME_HI], v)]
    else if addr == SAVE then [Saved(regs[addr := 0])]
    else if addr == REBOOT && v != 0 then [Rebooted]
    else []
  }

  /** io_write_holding. None is its -1. */
  function WriteHolding(b: Bank, addr: nat, v: word): (r: Option<Bank>)
    requires BankOk(b)
    ensures r.Some? ==> BankOk(r.value)
  {
    if addr >= HOLDING then None
    else if b.holding[addr] == v then Some(b)
    else
      Some(b.(holding := b.holding[addr := Settled(addr, b.holding[addr], v)],
              events := b.events + Effects(b.holding[addr := v], addr, v)))
  }

  /** io_write_do_bit */
  function WriteDoBit(b: Bank, bit: nat, s: bool): (r: Option<Bank>)
    requires BankOk(b)
    ensures r.Some? ==> BankOk(r.value)
  {
    if bit >= DO_NUM then None
    else
      var v := Both(SetBit(b.holding[DO], bit, s), 0xFF);
      Some(b.(holding := b.holding[DO := v], events := b.events + [Outputs(v)]))
  }

  /** The outputs, as the coil functions see them. */
  function Coil(b: Bank, i: nat): bool
    requires BankOk(b) && i < DO_NUM
  {
    TestBit(b.holding[DO], i)
  }

  // ---- writing several ----

  /** Registers written one after the other, as far as the map reaches. */
  function WriteRegs(b: Bank, addr: nat, vs: seq<word>): (r: (Bank, bool))
    requires BankOk(b)
    ensures BankOk(r.0)
    decreases |vs|
  {
    if vs == [] then (b, true)
    else
      match WriteHolding(b, addr, vs[0])
      case None => (b, false)
      case Some(c) => WriteRegs(c, addr + 1, vs[1..])
  }

  function WriteCoils(b: Bank, addr: nat, ss: seq<bool>): (r: (Bank, bool))
    requires BankOk(b)
    ensures BankOk(r.0)
    decreases |ss|
  {
    if ss == [] then (b, true)
    else
      match WriteDoBit(b, addr, ss[0])
      case None => (b, false)
      case Some(c) => WriteCoils(c, addr + 1, ss[1..])
  }

  /** Success is a matter of the range alone; a failing write has done exactly its part in range. */
  lemma {:induction false} WriteRegsRange(b: Bank, addr: nat, vs: seq<word>)
    requires BankOk(b)
    ensures WriteRegs(b, addr, vs).1 <==> vs == [] || addr + |vs| <= HOLDING
    ensures !WriteRegs(b, addr, vs).1 ==>
      var n := if addr < HOLDING then HOLDING - addr else 0;
      n < |vs| && WriteRegs(b, addr, vs[..n]) == (WriteRegs(b, addr, vs).0, true)
    decreases |vs|
  {
    if vs != [] && addr < HOLDING {
      var c := WriteHolding(b, addr, vs[0]).value;
      WriteRegsRange(c, addr + 1, vs[1..]);
      var n := HOLDING - addr;
      if n < |vs| {
        assert vs[..n][1..] == vs[1..][..n - 1];
      }
    }
  }

  lemma {:induction false} WriteCoilsRange(b: Bank, addr: nat, ss: seq<bool>)
    requires BankOk(b)
    ensures WriteCoils(b, addr, ss).1 <==> ss == [] || addr + |ss| <= DO_NUM
    ensures !WriteCoils(b, addr, ss).1 ==>
      var n := if addr < DO_NUM then DO_NUM - addr else 0;
      n < |ss| && WriteCoils(b, addr, ss[..n]) == (WriteCoils(b, addr, ss).0, true)
    decreases |ss|
  {
    hide SetBit, Both;
    if ss != [] && addr < DO_NUM {
      var c := WriteDoBit(b, addr, ss[0]).value;
      WriteCoilsRange(c, addr + 1, ss[1..]);
      var n := DO_NUM - addr;
      if n < |ss| {
        assert ss[..n][1..] == ss[1..][..n - 1];
      }
    }
  }

  /** After a successful write every register in the range holds what it settles to, and no other
      register has changed. */
  lemma {:induction false} WriteRegsStores(b: Bank, addr: nat, vs: seq<word>, k: nat)
    requires BankOk(b) && k < HOLDING && WriteRegs(b, addr, vs).1
    ensures WriteRegs(b, addr, vs).0.input == b.input
    ensures WriteRegs(b, addr, vs).0.holding[k]
            == if addr <= k < addr + |vs| then Settled(k, b.holding[k], vs[k - addr]) else b.holding[k]
    decreases |vs|
  {
    if vs != [] {
      var c := WriteHolding(b, addr, vs[0]).value;
      assert c.holding[addr] == Settled(addr, b.holding[addr], vs[0]);
      WriteRegsStores(c, addr + 1, vs[1..], k);
    }
  }

  lemma {:induction false} WriteCoilsStores(b: Bank, addr: nat, ss: seq<bool>, k: nat)
    requires BankOk(b) && k < DO_NUM && WriteCoils(b, addr, ss).1
    ensures Coil(WriteCoils(b, addr, ss).0, k) == if addr <= k < addr + |ss| then ss[k - addr] else Coil(b, k)
    decreases |ss|
  {
    hide SetBit, Both, TestBit;
    if ss != [] {
      var c := WriteDoBit(b, addr, ss[0]).value;
      SetBitThenTest(b.holding[DO], addr, ss[0], k);
      WriteCoilsStores(c, addr + 1, ss[1..], k);
    }
  }

  /** Writing what is there already does nothing at all. */
  lemma {:induction false} SameWriteSilent(b: Bank, addr: nat, vs: seq<word>)
    requires BankOk(b) && addr + |vs| <= HOLDING
    requires forall i :: 0 <= i < |vs| ==> vs[i] == b.holding[addr + i]
    ensures WriteRegs(b, addr, vs) == (b, true)
    decreases |vs|
  {
    if vs != [] {
      assert vs[0] == b.holding[addr + 0];
      forall i | 0 <= i < |vs[1..]|
        ensures vs[1..][i] == b.holding[addr + 1 + i]
      {
        assert vs[i + 1] == b.holding[addr + (i + 1)];
      }
      SameWriteSilent(b, addr + 1, vs[1..]);
    }
  }

  // ---- the map itself ----

  class Regs {
    const holding_reg: array<word>
    const input_reg: array<word>
    ghost var events: seq<Event>

    ghost predicate Valid()
    {
      holding_reg.Length == HOLDING && input_reg.Length == INPUT && holding_reg != input_reg
    }

    ghost function View(): (b: Bank)
      reads this, holding_reg, input_reg
    {
      Bank(holding_reg[..], input_reg[..], events)
    }

    constructor ()
      ensures Valid() && fresh(holding_reg) && fresh(input_reg) && events == []
      ensures View().holding == [0, 0xFFFF, 0x000F, 200, 200, 0, 0x0111, 250, 9600, 1,
                                 192, 168, 12, 101, 0, 0, 0, 0]
    {
      holding_reg := new word[HOLDING] [0, 0xFFFF, 0x000F, 200, 200, 0, 0x0111, 250, 9600, 1,
                                        192, 168, 12, 101, 0, 0, 0, 0];
      input_reg := new word[INPUT];
      events := [];
    }

    method Read(addr: nat, clock: Clock) returns (v: word)
      requires Valid()
      ensures v == if addr < HOLDING then ReadHolding(View(), clock, addr) else 0
    {
      if addr == TIME_HI {
        return clock.hi;
      }
      if addr == TIME_LO {
        return clock.lo;
      }
      if addr >= HOLDING {
        return 0;
      }
      v := holding_reg[addr];
    }

    method Write(addr: nat, reg: word) returns (rc: int)
      requires Valid()
      modifies `events, holding_reg
      ensures rc == (if addr < HOLDING then 0 else -1)
      ensures View() == if rc == 0 then WriteHolding(old(View()), addr, reg).value else old(View())
    {
      hide Effects, Both;
      if addr >= HOLDING {
        return -1;
      }
      if holding_reg[addr] == reg {
        return 0;
      }
      holding_reg[addr] := reg;
      assert holding_reg[..] == old(holding_reg[..])[addr := reg];
      SideEffects(addr, reg);
      assert old(holding_reg[..])[addr := reg][addr := 0] == old(holding_reg[..])[addr := 0];
      return 0;
    }

    /** The switch of io_write_holding, once the register is set. */
    method SideEffects(addr: nat, reg: word)
      requires Valid() && addr < HOLDING && holding_reg[addr] == reg
      modifies `events, holding_reg
      ensures events == old(events) + Effects(old(holding_reg[..]), addr, reg)
      ensures holding_reg[..] == if addr == SAVE || addr == REBOOT then old(holding_reg[..])[addr := 0]
                                 else old(holding_reg[..])
    {
      hide Both;
      if addr == DO {
        events := events + [Outputs(Both(reg, 0xFF))];
      } else if addr == HISTORY {
        events := events + [History(reg != 0)];
      } else if addr == TIME_LO {
        events := events + [SetClock(holding_reg[TIME_HI], reg)];
      } else if addr == SAVE {
        holding_reg[addr] := 0;
        assert holding_reg[..] == old(holding_reg[..])[addr := 0];
        events := events + [Saved(holding_reg[..])];
      } else if addr == REBOOT {
        holding_reg[addr] := 0;
        assert holding_reg[..] == old(holding_reg[..])[addr := 0];
        if reg != 0 {
          events := events + [Rebooted];
        }
      }
    }

    method WriteBit(bit: nat, state: bool) returns (rc: int)
      requires Valid()
      modifies `events, holding_reg
      ensures rc == (if bit < DO_NUM then 0 else -1)
      ensures View() == if rc == 0 then WriteDoBit(old(View()), bit, state).value else old(View())
    {
      hide Both, SetBit;
      if bit >= DO_NUM {
        return -1;
      }
      var val := SetBit(holding_reg[DO], bit, state);
      events := events + [Outputs(Both(val, 0xFF))];
      holding_reg[DO] := Both(val, 0xFF);
      assert holding_reg[..] == old(holding_reg[..])[DO := Both(val, 0xFF)];
      return 0;
    }

    /** io_coil_rd */
    method CoilRead(addr: nat) returns (rc: int, state: bool)
      requires Valid()
      ensures rc == (if addr < DO_NUM then 0 else -1)
      ensures rc == 0 ==> state == Coil(View(), addr)
    {
      if addr >= DO_NUM {
        return -1, false;
      }
      return 0, TestBit(holding_reg[DO], addr);
    }

    /** io_discrete_rd */
    method DiscreteRead(addr: nat) returns (rc: int, state: bool)
      requires Valid()
      ensures rc == (if addr < DI_NUM then 0 else -1)
      ensures rc == 0 ==> state == TestBit(input_reg[DI], addr)
    {
      if addr >= DI_NUM {
        return -1, false;
      }
      return 0, TestBit(input_reg[DI], addr);
    }
  }
}
