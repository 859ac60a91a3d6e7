/** The Modbus decoder itself (src/modbus/mb_server.c): it fills the caller's reply buffer in place,
    writes the registers one by one and keeps the diagnostic counters. Proved against MbPdu. */
module MbServer {
  import opened Bytes
  import opened Common
  import opened RegBits
  import opened BitOps
  import opened RegMap
  import opened MbPdu

  const PDU_MAX := 256

  /** The buffer and the length say what the reply says. */
  ghost predicate Answers(rsp: bool, buf: seq<byte>, len: nat, r: Reply) {
    match r
    case Silent => !rsp
    case Pdu(bytes) => rsp && len == |bytes| <= |buf| && buf[..len] == bytes
  }

  function AfterReply(d: Diag, fc: byte, r: Reply): Diag {
    if IsException(fc, r) then Count(d, EXC) else d
  }

  class Server {
    const regs: Regs
    const diag_ctr: array<u16>

    ghost predicate Valid()
    {
      regs.Valid() && diag_ctr.Length == 5
    }

    ghost function DiagView(): Diag
      requires Valid()
      reads diag_ctr
    {
      diag_ctr[..]
    }

    constructor (regs: Regs)
      requires regs.Valid()
      ensures Valid() && this.regs == regs && fresh(diag_ctr) && DiagView() == CLEARED
    {
      this.regs := regs;
      diag_ctr := new u16[5] [0, 0, 0, 0, 0];
    }

    /** mb_server_diag_count */
    method DiagCount(c: nat)
      requires Valid() && c < 5
      modifies diag_ctr
      ensures DiagView() == Count(old(DiagView()), c)
    {
      diag_ctr[c] := (diag_ctr[c] + 1) % U16_MOD;
      assert diag_ctr[..] == Count(old(diag_ctr[..]), c);
    }

    method ExcRsp(fc: byte, code: byte, out: array<byte>) returns (rsp: bool, out_len: nat)
      requires Valid() && out.Length >= PDU_MAX
      modifies diag_ctr, out
      ensures Answers(rsp, out[..], out_len, Exception(fc, code))
      ensures DiagView() == Count(old(DiagView()), EXC)
    {
      hide HighBit;
      DiagCount(EXC);
      out[0] := HighBit(fc);
      out[1] := code;
      rsp, out_len := true, 2;
      assert out[..2] == [HighBit(fc), code];
    }

    /** FC01 and FC02: bits packed low bit first, a fresh byte after every eighth. */
    method ReadBitsRsp(fc: byte, d: seq<byte>, out: array<byte>, ghost clock: Clock)
      returns (rsp: bool, out_len: nat)
      requires Valid() && out.Length >= PDU_MAX && (fc == 1 || fc == 2)
      modifies diag_ctr, out
      ensures Answers(rsp, out[..], out_len, Read(fc, regs.View(), clock, d))
      ensures DiagView() == AfterReply(old(DiagView()), fc, Read(fc, regs.View(), clock, d))
    {
      hide HighBit, GetBe16, ToByte, PackBits, Coils, Discretes, HoldingValues;
      if |d| != 4 {
        return false, 0;
      }
      var addr: nat, qty: nat := GetBe16(d), GetBe16(d[2..]);
      if qty == 0 || qty > COILS_LIMIT {
        rsp, out_len := ExcRsp(fc, ILLEGAL_VALUE, out);
        return;
      }
      var num_bytes := (qty - 1) / 8 + 1;
      out[0] := fc;
      out[1] := ToByte(num_bytes);
      assert out[..2] == [fc, ToByte(num_bytes)];
      ghost var all := if fc == 1 then Coils(regs.View()) else Discretes(regs.View());
      var found := FillBits(fc, addr, qty, out, all);
      if !found {
        rsp, out_len := ExcRsp(fc, ILLEGAL_ADDR, out);
        return;
      }
      rsp, out_len := true, num_bytes + 2;
      TwoAndRest(out[..], fc, ToByte(num_bytes), out_len);
    }

    /** The bit loop. The address is a uint16_t and wraps, but no bit is found beyond the map. */
    method FillBits(fc: byte, addr: u16, qty: nat, out: array<byte>, ghost all: seq<bool>)
      returns (found: bool)
      requires Valid() && out.Length >= PDU_MAX && 0 < qty <= COILS_LIMIT
      requires (fc == 1 && all == Coils(regs.View())) || (fc == 2 && all == Discretes(regs.View()))
      modifies out
      ensures out[..2] == old(out[..2])
      ensures found <==> addr + qty <= |all|
      ensures found ==> out[2..2 + BytesFor(qty)] == PackBits(all[addr..addr + qty])
    {
      hide Bit8, PackByte, PackBits, TestBit, Coil, Coils, Discretes, PieceOf, Bump, Or8, Double8, Row, Col;
      var num_bytes := (qty - 1) / 8 + 1;
      forall i | 0 <= i < num_bytes {
        out[2 + i] := 0;
      }
      ghost var got: seq<bool> := [];
      FilledNone(out[..], num_bytes);
      hide Filled;
      FirstMask();
      var at, bit_mask, cntr, cur: nat := 2, MASKS8[0], 0, addr;
      while cntr < qty
        invariant 0 <= cntr <= qty && cur == addr + cntr && |got| == cntr
        invariant cntr > 0 ==> cur <= |all| && got == all[addr..cur]
        invariant at == 2 + Row(cntr) && bit_mask == MASKS8[Col(cntr)]
        invariant out[..2] == old(out[..2])
        invariant Filled(out[..], got, num_bytes)
      {
        var rc, state := ReadBit(fc, cur, all);
        if rc != 0 {
          return false;
        }
        PutBit(out, at, bit_mask, state, got, num_bytes);
        NextMask(cntr);
        SliceMore(all, addr, cur);
        got := got + [state];
        BumpSmall(cur);
        cur := Bump(cur);
        cntr := cntr + 1;
        if Col(cntr) == 0 {
          bit_mask := MASKS8[0];
          at := at + 1;
        } else {
          bit_mask := Double8(bit_mask);
        }
      }
      FilledAll(out[..], got);
      return true;
    }

    method PutBit(out: array<byte>, at: nat, bit_mask: byte, state: bool,
                  ghost got: seq<bool>, ghost num_bytes: nat)
      requires Filled(out[..], got, num_bytes) && |got| < 8 * num_bytes
      requires at == 2 + Row(|got|) && bit_mask == MASKS8[Col(|got|)]
      modifies out
      ensures out[..2] == old(out[..2]) && Filled(out[..], got + [state], num_bytes)
    {
      hide Or8, PackByte, PieceOf;
      if state {
        out[at] := Or8(out[at], bit_mask);
      }
      FilledMore(old(out[..]), out[..], got, state, num_bytes);
    }

    method ReadBit(fc: byte, addr: nat, ghost all: seq<bool>) returns (rc: int, state: bool)
      requires Valid()
      requires (fc == 1 && all == Coils(regs.View())) || (fc == 2 && all == Discretes(regs.View()))
      ensures rc == (if addr < |all| then 0 else -1)
      ensures rc == 0 ==> state == all[addr]
    {
      hide TestBit;
      if fc == 1 {
        rc, state := regs.CoilRead(addr);
      } else {
        rc, state := regs.DiscreteRead(addr);
      }
    }

    /** FC03 and FC04. */
    method ReadWordsRsp(fc: byte, d: seq<byte>, out: array<byte>, clock: Clock)
      returns (rsp: bool, out_len: nat)
      requires Valid() && out.Length >= PDU_MAX && (fc == 3 || fc == 4)
      modifies diag_ctr, out
      ensures Answers(rsp, out[..], out_len, Read(fc, regs.View(), clock, d))
      ensures DiagView() == AfterReply(old(DiagView()), fc, Read(fc, regs.View(), clock, d))
    {
      hide HighBit, GetBe16, ToByte, PutWords, Coils, Discretes, HoldingValues;
      if |d| != 4 {
        return false, 0;
      }
      var addr: nat, qty: nat := GetBe16(d), GetBe16(d[2..]);
      if qty == 0 || qty > REGS_LIMIT {
        rsp, out_len := ExcRsp(fc, ILLEGAL_VALUE, out);
        return;
      }
      if addr >= FP_ADDR {
        rsp, out_len := ExcRsp(fc, ILLEGAL_FC, out);
        return;
      }
      out[0] := fc;
      out[1] := ToByte(2 * qty);
      assert out[..2] == [fc, ToByte(2 * qty)];
      ghost var all := if fc == 3 then HoldingValues(regs.View(), clock) else regs.View().input;
      var found := FillWords(fc, addr, qty, out, clock, all);
      if !found {
        rsp, out_len := ExcRsp(fc, ILLEGAL_ADDR, out);
        return;
      }
      rsp, out_len := true, 2 * qty + 2;
      TwoAndRest(out[..], fc, ToByte(2 * qty), out_len);
    }

    /** The register loop. */
    method FillWords(fc: byte, addr: nat, qty: nat, out: array<byte>, clock: Clock, ghost all: seq<word>)
      returns (found: bool)
      requires Valid() && out.Length >= PDU_MAX && 0 < qty <= REGS_LIMIT && addr < FP_ADDR
      requires (fc == 3 && all == HoldingValues(regs.View(), clock)) || (fc == 4 && all == regs.View().input)
      modifies out
      ensures out[..2] == old(out[..2])
      ensures found <==> addr + qty <= |all|
      ensures found ==> out[2..2 + 2 * qty] == PutWords(all[addr..addr + qty])
    {
      hide Hi16, Lo16, PutWords, HoldingValues;
      var at, cur, left: nat := 2, addr, qty;
      PutNothing();
      while left > 0
        invariant 0 <= left <= qty && cur == addr + (qty - left) && at == 2 + 2 * (qty - left)
        invariant out[..2] == old(out[..2])
        invariant left < qty ==> cur <= |all|
        invariant left == qty ==> out[2..at] == PutWords([])
        invariant left < qty ==> out[2..at] == PutWords(all[addr..cur])
        decreases left
      {
        var rc, reg := ReadReg(fc, cur, clock, all);
        if rc != 0 {
          return false;
        }
        out[at], out[at + 1] := Hi16(reg), Lo16(reg);
        assert out[2..at + 2] == out[2..at] + [Hi16(reg), Lo16(reg)];
        WordsMore(all, addr, cur);
        at := at + 2;
        cur := cur + 1;
        left := left - 1;
      }
      return true;
    }

    method ReadReg(fc: byte, addr: nat, clock: Clock, ghost all: seq<word>) returns (rc: int, reg: word)
      requires Valid()
      requires (fc == 3 && all == HoldingValues(regs.View(), clock)) || (fc == 4 && all == regs.View().input)
      ensures rc == (if addr < |all| then 0 else -1)
      ensures rc == 0 ==> reg == all[addr]
    {
      if fc == 3 {
        if addr >= HOLDING {
          return -1, 0;
        }
        reg := regs.Read(addr, clock);
      } else {
        if addr >= INPUT {
          return -1, 0;
        }
        reg := regs.input_reg[addr];
      }
      rc := 0;
    }

    /** FC05 and FC06: the request comes back, written with io_put_be16. */
    method WriteOneRsp(fc: byte, d: seq<byte>, out: array<byte>) returns (rsp: bool, out_len: nat)
      requires Valid() && out.Length >= PDU_MAX && (fc == 5 || fc == 6)
      modifies diag_ctr, out, regs`events, regs.holding_reg
      ensures Answers(rsp, out[..], out_len, WriteOne(fc, old(regs.View()), d).0)
      ensures regs.View() == WriteOne(fc, old(regs.View()), d).1
      ensures DiagView() == AfterReply(old(DiagView()), fc, WriteOne(fc, old(regs.View()), d).0)
    {
      hide HighBit, GetBe16, WriteHolding, WriteDoBit, Pair16;
      if |d| != 4 {
        return false, 0;
      }
      var addr, v := GetBe16(d), WordAt(d, 2);
      var rc;
      if fc == 5 {
        rc := regs.WriteBit(addr, v != 0);
        BitRange(old(regs.View()), addr, v != 0);
      } else {
        rc := regs.Write(addr, v);
        RegRange(old(regs.View()), addr, v);
      }
      if rc != 0 {
        rsp, out_len := ExcRsp(fc, ILLEGAL_ADDR, out);
        return;
      }
      Echo(fc, d, out);
      rsp, out_len := true, 5;
    }

    /** [fc][address be16][value be16] */
    method Echo(fc: byte, d: seq<byte>, out: array<byte>)
      requires out.Length >= PDU_MAX && |d| >= 4
      modifies out
      ensures out[..5] == [fc] + d[..4]
    {
      BeBytes(d[..2]);
      BeBytes(d[2..][..2]);
      hide Be, PutBe;
      var a, v := PutBe16(GetBe16(d)), PutBe16(GetBe16(d[2..]));
      out[0], out[1], out[2], out[3], out[4] := fc, a[0], a[1], v[0], v[1];
      assert out[..5] == [fc] + a + v;
    }

    /** FC08 */
    method DiagnosticsRsp(d: seq<byte>, out: array<byte>) returns (rsp: bool, out_len: nat)
      requires Valid() && out.Length >= PDU_MAX
      modifies diag_ctr, out
      ensures Answers(rsp, out[..], out_len, Diagnose(d, old(DiagView())).0)
      ensures DiagView() == AfterReply(Diagnose(d, old(DiagView())).1, 8, Diagnose(d, old(DiagView())).0)
    {
      hide HighBit, GetBe16, PutBe;
      if |d| != 4 {
        return false, 0;
      }
      var sfunc: nat, data: seq<byte> := GetBe16(d), d[2..4];
      if sfunc == 0x0A {
        forall i | 0 <= i < 5 {
          diag_ctr[i] := 0;
        }
        assert diag_ctr[..] == CLEARED;
      } else if 0x0B <= sfunc <= 0x0F {
        data := PutBe16(diag_ctr[CounterOf(sfunc)]);
        PutBeLength(2, diag_ctr[CounterOf(sfunc)]);
      } else if sfunc != 0 {
        rsp, out_len := ExcRsp(8, ILLEGAL_FC, out);
        return;
      }
      Echo(8, d[..2] + data, out);
      assert (d[..2] + data)[..4] == d[..2] + data;
      assert d[..2] + d[2..4] == d;
      rsp, out_len := true, 5;
    }

    /** FC15 */
    method WriteCoilsRsp(d: seq<byte>, out: array<byte>) returns (rsp: bool, out_len: nat)
      requires Valid() && out.Length >= PDU_MAX
      modifies diag_ctr, out, regs`events, regs.holding_reg
      ensures Answers(rsp, out[..], out_len, WriteManyCoils(old(regs.View()), d).0)
      ensures regs.View() == WriteManyCoils(old(regs.View()), d).1
      ensures DiagView() == AfterReply(old(DiagView()), 0x0F, WriteManyCoils(old(regs.View()), d).0)
    {
      hide HighBit, GetBe16, WriteCoils, UnpackBits, Val;
      if |d| < 6 {
        return false, 0;
      }
      var addr, qty, num_bytes := GetBe16(d), GetBe16(d[2..]), Val(d[4]);
      if qty == 0 || qty > COILS_LIMIT {
        rsp, out_len := ExcRsp(0x0F, ILLEGAL_VALUE, out);
        return;
      }
      if (qty - 1) / 8 + 1 != num_bytes || |d| != num_bytes + 5 {
        rsp, out_len := ExcRsp(0x0F, ILLEGAL_VALUE, out);
        return;
      }
      var ok := SetCoils(d, addr, qty);
      if !ok {
        rsp, out_len := ExcRsp(0x0F, ILLEGAL_ADDR, out);
        return;
      }
      Echo(0x0F, d, out);
      rsp, out_len := true, 5;
    }

    /** The coil loop: a byte is taken every eighth coil and shifted down in between. */
    method SetCoils(d: seq<byte>, addr: u16, qty: nat) returns (ok: bool)
      requires Valid() && 0 < qty && 5 + BytesFor(qty) <= |d|
      modifies regs`events, regs.holding_reg
      ensures WriteCoils(old(regs.View()), addr, UnpackBits(d, 5, qty)) == (regs.View(), ok)
    {
      hide WriteDoBit, Bit8, Shifted, Half8, Low8, Bump, WriteCoils;
      ghost var states := UnpackBits(d, 5, qty);
      var cntr, cur: nat, temp: byte := 0, addr, 0;
      assert states[0..] == states;
      while cntr < qty
        invariant 0 <= cntr <= qty && cur == addr + cntr
        invariant WriteCoils(old(regs.View()), addr, states) == WriteCoils(regs.View(), cur, states[cntr..])
        invariant cntr % 8 != 0 ==> temp == Shifted(d[5 + cntr / 8], cntr % 8)
        invariant cntr > 0 ==> cur <= DO_NUM
      {
        ShiftedLow(d[5 + cntr / 8], cntr % 8);
        if cntr % 8 == 0 {
          temp := d[5 + cntr / 8];
        }
        var coil_state := Low8(temp);
        ghost var before := regs.View();
        var rc := regs.WriteBit(cur, coil_state);
        CoilsStep(before, cur, states[cntr..]);
        if rc != 0 {
          return false;
        }
        assert states[cntr..][1..] == states[cntr + 1..];
        temp := Half8(temp);
        NextColumn(cntr);
        BumpSmall(cur);
        cur := Bump(cur);
        cntr := cntr + 1;
      }
      CoilsDone(regs.View(), cur, states[cntr..]);
      return true;
    }

    /** FC16 */
    method WriteRegsRsp(d: seq<byte>, out: array<byte>) returns (rsp: bool, out_len: nat)
      requires Valid() && out.Length >= PDU_MAX
      modifies diag_ctr, out, regs`events, regs.holding_reg
      ensures Answers(rsp, out[..], out_len, WriteManyRegs(old(regs.View()), d).0)
      ensures regs.View() == WriteManyRegs(old(regs.View()), d).1
      ensures DiagView() == AfterReply(old(DiagView()), 0x10, WriteManyRegs(old(regs.View()), d).0)
    {
      hide HighBit, GetBe16, WriteRegs, Words, Val;
      if |d| < 6 {
        return false, 0;
      }
      var addr, qty, num_bytes := GetBe16(d), GetBe16(d[2..]), Val(d[4]);
      if qty == 0 || qty > REGS_LIMIT {
        rsp, out_len := ExcRsp(0x10, ILLEGAL_VALUE, out);
        return;
      }
      if addr >= FP_ADDR {
        rsp, out_len := ExcRsp(0x10, ILLEGAL_FC, out);
        return;
      }
      if |d| - 5 != num_bytes {
        rsp, out_len := ExcRsp(0x10, ILLEGAL_VALUE, out);
        return;
      }
      if num_bytes / qty != 2 {
        rsp, out_len := ExcRsp(0x10, ILLEGAL_VALUE, out);
        return;
      }
      BytesSuffice(num_bytes, qty);
      var ok := SetRegs(d, addr, qty);
      if !ok {
        rsp, out_len := ExcRsp(0x10, ILLEGAL_ADDR, out);
        return;
      }
      Echo(0x10, d, out);
      rsp, out_len := true, 5;
    }

    /** The register loop of FC16. */
    method SetRegs(d: seq<byte>, addr: u16, qty: nat) returns (ok: bool)
      requires Valid() && 0 < qty && 5 + 2 * qty <= |d|
      modifies regs`events, regs.holding_reg
      ensures WriteRegs(old(regs.View()), addr, Words(d, 5, qty)) == (regs.View(), ok)
    {
      hide WriteHolding, Pair16, WriteRegs;
      ghost var vs := Words(d, 5, qty);
      var at := 5;
      assert vs[0..] == vs;
      for cntr := 0 to qty
        invariant at == 5 + 2 * cntr
        invariant WriteRegs(old(regs.View()), addr, vs) == WriteRegs(regs.View(), addr + cntr, vs[cntr..])
      {
        var reg_val := WordAt(d, at);
        at := at + 2;
        ghost var before := regs.View();
        var rc := regs.Write(addr + cntr, reg_val);
        RegsStep(before, addr + cntr, vs[cntr..]);
        if rc != 0 {
          return false;
        }
        assert vs[cntr..][1..] == vs[cntr + 1..];
      }
      RegsDone(regs.View(), addr + qty, vs[qty..]);
      return true;
    }

    /** mb_server_process */
    method Process(pdu: seq<byte>, out: array<byte>, clock: Clock) returns (rsp: bool, out_len: nat)
      requires Valid() && out.Length >= PDU_MAX
      modifies diag_ctr, out, regs`events, regs.holding_reg
      ensures var s := MbPdu.Process(old(regs.View()), old(DiagView()), clock, pdu);
              Answers(rsp, out[..], out_len, s.reply) && regs.View() == s.bank && DiagView() == s.diag
    {
      hide Read, WriteOne, WriteManyCoils, WriteManyRegs, Diagnose, HighBit, Count;
      if |pdu| == 0 {
        return false, 0;
      }
      var fc, d := pdu[0], pdu[1..];
      DiagCount(BUS_MSG);
      DiagCount(SRV_MSG);
      if fc == 1 || fc == 2 {
        rsp, out_len := ReadBitsRsp(fc, d, out, clock);
      } else if fc == 3 || fc == 4 {
        rsp, out_len := ReadWordsRsp(fc, d, out, clock);
      } else if fc == 5 || fc == 6 {
        rsp, out_len := WriteOneRsp(fc, d, out);
      } else if fc == 8 {
        rsp, out_len := DiagnosticsRsp(d, out);
      } else if fc == 0x0F {
        rsp, out_len := WriteCoilsRsp(d, out);
      } else if fc == 0x10 {
        rsp, out_len := WriteRegsRsp(d, out);
      } else {
        rsp, out_len := ExcRsp(fc, ILLEGAL_FC, out);
      }
    }
  }

  /** b shifted down n times. */
  function Shifted(b: byte, n: nat): byte {
    if n == 0 then b else Half8(Shifted(b, n - 1))
  }

  lemma {:induction false} ShiftedBit(b: byte, n: nat, j: nat)
    ensures Bit8(Shifted(b, n), j) == Bit8(b, n + j)
    decreases n
  {
    hide Half8, Low8;
    if n > 0 {
      ShiftedBit(b, n - 1, j + 1);
    }
  }

  lemma ShiftedLow(b: byte, n: nat)
    ensures Low8(Shifted(b, n)) == Bit8(b, n) && Half8(Shifted(b, n)) == Shifted(b, n + 1)
    ensures Shifted(b, 0) == b
  {
    hide Half8, Low8;
    ShiftedBit(b, n, 0);
  }

  lemma NextColumn(cntr: nat)
    ensures (cntr + 1) % 8 != 0 ==> (cntr + 1) / 8 == cntr / 8 && (cntr + 1) % 8 == cntr % 8 + 1
  {
  }

  lemma CoilsStep(b: Bank, addr: nat, ss: seq<bool>)
    requires BankOk(b) && ss != []
    ensures WriteCoils(b, addr, ss)
            == if addr >= DO_NUM then (b, false)
               else WriteCoils(WriteDoBit(b, addr, ss[0]).value, addr + 1, ss[1..])
  {
  }

  lemma CoilsDone(b: Bank, addr: nat, ss: seq<bool>)
    requires BankOk(b) && ss == []
    ensures WriteCoils(b, addr, ss) == (b, true)
  {
  }

  lemma RegsStep(b: Bank, addr: nat, vs: seq<word>)
    requires BankOk(b) && vs != []
    ensures WriteRegs(b, addr, vs)
            == if addr >= HOLDING then (b, false)
               else WriteRegs(WriteHolding(b, addr, vs[0]).value, addr + 1, vs[1..])
  {
  }

  lemma RegsDone(b: Bank, addr: nat, vs: seq<word>)
    requires BankOk(b) && vs == []
    ensures WriteRegs(b, addr, vs) == (b, true)
  {
  }

  lemma TwoAndRest(buf: seq<byte>, x: byte, y: byte, n: nat)
    requires 2 <= n <= |buf| && buf[..2] == [x, y]
    ensures buf[..n] == [x, y] + buf[2..n]
  {
    assert buf[..n] == buf[..2] + buf[2..n];
  }

  lemma PutNothing()
    ensures PutWords([]) == []
  {
  }

  lemma WordsMore(all: seq<word>, a: nat, b: nat)
    requires a <= b < |all|
    ensures PutWords(all[a..b + 1]) == PutWords(all[a..b]) + [Hi16(all[b]), Lo16(all[b])]
  {
    hide Hi16, Lo16;
    assert all[a..b + 1][..b - a] == all[a..b];
  }

  lemma BitRange(b: Bank, bit: nat, s: bool)
    requires BankOk(b)
    ensures WriteDoBit(b, bit, s).Some? <==> bit < DO_NUM
  {
  }

  lemma RegRange(b: Bank, addr: nat, v: word)
    requires BankOk(b)
    ensures WriteHolding(b, addr, v).Some? <==> addr < HOLDING
  {
  }

  /** A uint16_t address, one further. */
  function Bump(a: nat): nat {
    (a + 1) % U16_MOD
  }

  lemma BumpSmall(a: nat)
    requires a < U16_MOD - 1
    ensures Bump(a) == a + 1
  {
  }

  lemma SliceMore(all: seq<bool>, a: nat, b: nat)
    requires a <= b < |all|
    ensures all[a..b] + [all[b]] == all[a..b + 1]
  {
  }

  lemma FilledNone(buf: seq<byte>, num_bytes: nat)
    requires |buf| >= 2 + num_bytes && forall i :: 2 <= i < 2 + num_bytes ==> buf[i] == 0
    ensures Filled(buf, [], num_bytes)
  {
  }

  /** The bytes from index 2 on hold `done`, the rest of them are still zero. */
  ghost predicate Filled(buf: seq<byte>, done: seq<bool>, num_bytes: nat) {
    && |buf| >= 2 + num_bytes && |done| <= 8 * num_bytes
    && forall i :: 0 <= i < num_bytes ==> buf[2 + i] == PackByte(PieceOf(done, i))
  }

  function PieceOf(done: seq<bool>, i: nat): (p: seq<bool>)
    ensures |p| <= 8
  {
    done[Min(8 * i, |done|)..Min(8 * i + 8, |done|)]
  }

  lemma FilledMore(buf: seq<byte>, after: seq<byte>, done: seq<bool>, s: bool, num_bytes: nat)
    requires Filled(buf, done, num_bytes) && |done| < 8 * num_bytes && 2 + |done| / 8 < |buf|
    requires var at := 2 + |done| / 8;
             after == if s then buf[at := Or8(buf[at], MASKS8[|done| % 8])] else buf
    ensures Filled(after, done + [s], num_bytes)
  {
    hide Or8, PackByte;
    var k, more := |done| / 8, done + [s];
    forall i | 0 <= i < num_bytes
      ensures after[2 + i] == PackByte(PieceOf(more, i))
    {
      if i == k {
        assert PieceOf(more, i) == PieceOf(done, i) + [s];
        PackByteSnoc(PieceOf(done, i), s);
      } else {
        assert PieceOf(more, i) == PieceOf(done, i);
      }
    }
  }

  lemma PackByteSnoc(p: seq<bool>, s: bool)
    requires |p| < 8
    ensures PackByte(p + [s]) == if s then Or8(PackByte(p), MASKS8[|p|]) else PackByte(p)
  {
    assert (p + [s])[..|p|] == p;
  }

  lemma FilledAll(buf: seq<byte>, done: seq<bool>)
    requires Filled(buf, done, BytesFor(|done|))
    ensures buf[2..2 + BytesFor(|done|)] == PackBits(done)
  {
    hide PackByte;
    forall i | 0 <= i < BytesFor(|done|)
      ensures buf[2 + i] == PackBits(done)[i]
    {
      assert PieceOf(done, i) == Piece(done, i);
    }
  }

  /** The byte and the bit of a coil in a packed sequence. */
  function Row(cntr: nat): nat {
    cntr / 8
  }

  function Col(cntr: nat): (i: nat)
    ensures i < 8
  {
    cntr % 8
  }

  lemma FirstMask()
    ensures Row(0) == 0 && Col(0) == 0
  {
  }

  lemma NextMask(cntr: nat)
    ensures if Col(cntr + 1) == 0 then Row(cntr + 1) == Row(cntr) + 1
            else Row(cntr + 1) == Row(cntr) && Double8(MASKS8[Col(cntr)]) == MASKS8[Col(cntr + 1)]
  {
    MaskFacts8(cntr % 8);
    hide Double8;
  }
}
