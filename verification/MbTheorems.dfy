/** What a Modbus master can rely on: what it writes it reads back, a request succeeds exactly when its
    range lies in the map, a failing write has done exactly the part in range, and the counters. */
module MbTheorems {
  import opened Bytes
  import opened RegBits
  import opened BitOps
  import opened RegMap
  import opened MbPdu

  function Header(fc: byte, addr: u16, qty: u16): seq<byte> {
    [fc] + PutBe16(addr) + PutBe16(qty)
  }

  function WriteRegsRequest(addr: u16, vs: seq<word>): seq<byte>
    requires |vs| <= REGS_LIMIT
  {
    Header(0x10, addr, |vs|) + [ToByte(2 * |vs|)] + PutWords(vs)
  }

  function WriteCoilsRequest(addr: u16, ss: seq<bool>): seq<byte>
    requires |ss| <= COILS_LIMIT
  {
    Header(0x0F, addr, |ss|) + [ToByte(BytesFor(|ss|))] + PackBits(ss)
  }

  lemma HeaderFields(fc: byte, addr: u16, qty: u16, rest: seq<byte>)
    ensures var p := Header(fc, addr, qty) + rest;
            && |p| == 5 + |rest| && p[0] == fc && p[1..][..4] == PutBe16(addr) + PutBe16(qty)
            && GetBe16(p[1..]) == addr && GetBe16(p[1..][2..]) == qty && p[1..][4..] == rest
            && [fc] + p[1..][..4] == Header(fc, addr, qty)
  {
    Be16RoundTrip(addr);
    Be16RoundTrip(qty);
    var p := Header(fc, addr, qty) + rest;
    assert p[1..][..2] == PutBe16(addr) && p[1..][2..][..2] == PutBe16(qty);
    FirstTwo(p[1..], PutBe16(addr));
    FirstTwo(p[1..][2..], PutBe16(qty));
  }

  lemma CountAndBody(d: seq<byte>, count: byte, body: seq<byte>)
    requires |d| >= 4 && d[4..] == [count] + body
    ensures |d| == 5 + |body| && d[4] == count && d[5..5 + |body|] == body
  {
    assert d[4] == d[4..][0];
    var x := d[5..5 + |body|];
    forall i | 0 <= i < |body|
      ensures x[i] == body[i]
    {
      assert d[4..][1 + i] == body[i];
    }
  }

  lemma BytesForSmall(n: nat)
    requires 1 <= n <= COILS_LIMIT
    ensures 1 <= BytesFor(n) <= 250
  {
  }

  lemma FirstTwo(b: seq<byte>, c: seq<byte>)
    requires |b| >= 2 && |c| == 2 && b[..2] == c
    ensures GetBe16(b) == GetBe16(c)
  {
    assert c[..2] == c;
  }

  lemma {:induction false} PutWordsAt(vs: seq<word>, k: nat)
    requires k < |vs|
    ensures PutWords(vs)[2 * k] == Hi16(vs[k]) && PutWords(vs)[2 * k + 1] == Lo16(vs[k])
    decreases |vs|
  {
    hide Hi16, Lo16;
    if k < |vs| - 1 {
      PutWordsAt(vs[..|vs| - 1], k);
    }
  }

  /** Words laid out on the wire are read from it unchanged. */
  lemma WordsRoundTrip(d: seq<byte>, at: nat, vs: seq<word>)
    requires at + 2 * |vs| <= |d| && d[at..at + 2 * |vs|] == PutWords(vs)
    ensures Words(d, at, |vs|) == vs
  {
    hide Hi16, Lo16, Pair16, PutWords;
    forall k | 0 <= k < |vs|
      ensures WordAt(d, at + 2 * k) == vs[k]
    {
      PutWordsAt(vs, k);
      assert d[at + 2 * k] == d[at..at + 2 * |vs|][2 * k];
      assert d[at + 2 * k + 1] == d[at..at + 2 * |vs|][2 * k + 1];
      PairHalves(vs[k]);
    }
  }

  lemma BitsRoundTrip(d: seq<byte>, at: nat, ss: seq<bool>)
    requires at + BytesFor(|ss|) <= |d| && d[at..at + BytesFor(|ss|)] == PackBits(ss)
    ensures UnpackBits(d, at, |ss|) == ss
  {
    hide Bit8;
    PackBitsPacks(ss);
    hide PackBits;
    forall k | 0 <= k < |ss|
      ensures UnpackBits(d, at, |ss|)[k] == ss[k]
    {
      assert BitAt(PackBits(ss), k) == ss[k];
      assert d[at + k / 8] == d[at..at + BytesFor(|ss|)][k / 8];
    }
  }

  lemma SmallByte(n: nat)
    requires n < 256
    ensures Val(ToByte(n)) == n
  {
    ToByteValue(n);
  }

  // ---- the dispatch, one code at a time ----

  lemma Answered(b: Bank, diag: Diag, clock: Clock, pdu: seq<byte>)
    requires BankOk(b) && pdu != []
    ensures var s := Process(b, diag, clock, pdu);
            var t := Dispatch(b, Count(Count(diag, BUS_MSG), SRV_MSG), clock, pdu[0], pdu[1..]);
            s.reply == t.reply && s.bank == t.bank
  {
    hide Dispatch, Count, IsException;
  }

  lemma ByCode(b: Bank, diag: Diag, clock: Clock, d: seq<byte>)
    requires BankOk(b)
    ensures Dispatch(b, diag, clock, 1, d) == Served(Read(1, b, clock, d), b, diag)
    ensures Dispatch(b, diag, clock, 3, d) == Served(Read(3, b, clock, d), b, diag)
    ensures Dispatch(b, diag, clock, 0x0F, d) == Served(WriteManyCoils(b, d).0, WriteManyCoils(b, d).1, diag)
    ensures Dispatch(b, diag, clock, 0x10, d) == Served(WriteManyRegs(b, d).0, WriteManyRegs(b, d).1, diag)
  {
    hide Read, WriteManyCoils, WriteManyRegs, WriteOne, Diagnose;
  }

  // ---- FC16, then FC03 ----

  /** The request, taken apart as the decoder does. */
  lemma RegsRequestFields(addr: u16, vs: seq<word>)
    requires 1 <= |vs| <= REGS_LIMIT
    ensures var p := WriteRegsRequest(addr, vs);
            && |p| == 6 + 2 * |vs| && p[0] == 0x10
            && GetBe16(p[1..]) == addr && GetBe16(p[1..][2..]) == |vs| && Val(p[1..][4]) == 2 * |vs|
            && Words(p[1..], 5, |vs|) == vs && [0x10] + p[1..][..4] == Header(0x10, addr, |vs|)
  {
    hide Val, ToByte, PutWords, GetBe16, PutBe16, Words, Header;
    var count, body := ToByte(2 * |vs|), PutWords(vs);
    var p := WriteRegsRequest(addr, vs);
    assert p == Header(0x10, addr, |vs|) + ([count] + body);
    HeaderFields(0x10, addr, |vs|, [count] + body);
    SmallByte(2 * |vs|);
    CountAndBody(p[1..], count, body);
    WordsRoundTrip(p[1..], 5, vs);
  }

  lemma OutOfReach(b: Bank, addr: nat, vs: seq<word>)
    requires BankOk(b) && addr >= HOLDING && vs != []
    ensures WriteRegs(b, addr, vs) == (b, false)
  {
  }

  /** FC16 succeeds exactly when the range lies in the map; either way the registers are what writing
      the values one by one, as far as the map reaches, leaves. */
  lemma WriteRegsExact(b: Bank, diag: Diag, clock: Clock, addr: u16, vs: seq<word>)
    requires BankOk(b) && 1 <= |vs| <= REGS_LIMIT
    ensures var s := Process(b, diag, clock, WriteRegsRequest(addr, vs));
            && s.bank == WriteRegs(b, addr, vs).0
            && s.reply == if addr + |vs| <= HOLDING then Pdu(Header(0x10, addr, |vs|))
                          else Exception(0x10, if addr >= FP_ADDR then ILLEGAL_FC else ILLEGAL_ADDR)
  {
    var p := WriteRegsRequest(addr, vs);
    RegsRequestFields(addr, vs);
    Answered(b, diag, clock, p);
    ByCode(b, Count(Count(diag, BUS_MSG), SRV_MSG), clock, p[1..]);
    hide Process, Dispatch, Count;
    ManyRegs(b, p[1..], addr, vs);
    hide WriteManyRegs, Header, WriteRegsRequest, WriteRegs;
  }

  lemma ManyRegs(b: Bank, d: seq<byte>, addr: nat, vs: seq<word>)
    requires BankOk(b) && 1 <= |vs| <= REGS_LIMIT && |d| == 5 + 2 * |vs|
    requires GetBe16(d) == addr && GetBe16(d[2..]) == |vs| && Val(d[4]) == 2 * |vs| && Words(d, 5, |vs|) == vs
    ensures WriteManyRegs(b, d)
            == (if addr + |vs| <= HOLDING then Pdu([0x10] + d[..4])
                else Exception(0x10, if addr >= FP_ADDR then ILLEGAL_FC else ILLEGAL_ADDR),
                WriteRegs(b, addr, vs).0)
  {
    WriteRegsRange(b, addr, vs);
    if addr >= FP_ADDR {
      OutOfReach(b, addr, vs);
    }
    Twice(|vs|);
    hide Val, GetBe16, WriteRegs, Words, HighBit;
  }

  lemma Twice(n: nat)
    requires n > 0
    ensures 2 * n / n == 2
  {
  }

  /** What a master reads back at address k after writing v where `before` was. */
  function ReadBack(clock: Clock, k: nat, before: word, v: word): word {
    if k == TIME_HI then clock.hi else if k == TIME_LO then clock.lo else Settled(k, before, v)
  }

  /** FC03 of any range. */
  lemma ReadRegsExact(b: Bank, diag: Diag, clock: Clock, addr: u16, n: u16)
    requires BankOk(b)
    ensures var s := Process(b, diag, clock, Header(3, addr, n));
            && s.bank == b
            && s.reply == if n == 0 || n > REGS_LIMIT then Exception(3, ILLEGAL_VALUE)
                          else if addr >= FP_ADDR then Exception(3, ILLEGAL_FC)
                          else if addr + n <= HOLDING
                          then Pdu([3, ToByte(2 * n)] + PutWords(HoldingValues(b, clock)[addr..addr + n]))
                          else Exception(3, ILLEGAL_ADDR)
  {
    var p := Header(3, addr, n);
    HeaderFields(3, addr, n, []);
    assert p + [] == p;
    Answered(b, diag, clock, p);
    ByCode(b, Count(Count(diag, BUS_MSG), SRV_MSG), clock, p[1..]);
    hide Process, Dispatch, ToByte, PutWords, GetBe16, HighBit, Count, Header, HoldingValues;
  }

  /** FC16 and then FC03 over the same range: every register reads back as written, except that the
      clock registers show the time and the two triggers have gone back to 0. */
  lemma WrittenRegsReadBack(b: Bank, diag: Diag, clock: Clock, later: Clock, addr: u16, vs: seq<word>)
    requires BankOk(b) && 1 <= |vs| && addr + |vs| <= HOLDING
    ensures var s := Process(b, diag, clock, WriteRegsRequest(addr, vs));
            var read := seq(|vs|, i requires 0 <= i < |vs| =>
                              ReadBack(later, addr + i, b.holding[addr + i], vs[i]));
            && Process(s.bank, s.diag, later, Header(3, addr, |vs|)).reply
               == Pdu([3, ToByte(2 * |vs|)] + PutWords(read))
            && (addr + |vs| <= TIME_HI ==> read == vs)
  {
    hide Process, PutWords, ToByte, Header, WriteRegsRequest, HoldingValues, WriteRegs;
    WriteRegsExact(b, diag, clock, addr, vs);
    var s := Process(b, diag, clock, WriteRegsRequest(addr, vs));
    ReadRegsExact(s.bank, s.diag, later, addr, |vs|);
    StoredValues(b, later, addr, vs);
  }

  lemma StoredValues(b: Bank, later: Clock, addr: nat, vs: seq<word>)
    requires BankOk(b) && addr + |vs| <= HOLDING
    ensures HoldingValues(WriteRegs(b, addr, vs).0, later)[addr..addr + |vs|]
            == seq(|vs|, i requires 0 <= i < |vs| => ReadBack(later, addr + i, b.holding[addr + i], vs[i]))
    ensures addr + |vs| <= TIME_HI ==>
      seq(|vs|, i requires 0 <= i < |vs| => ReadBack(later, addr + i, b.holding[addr + i], vs[i])) == vs
  {
    hide WriteRegs, Settled;
    WriteRegsRange(b, addr, vs);
    var c := WriteRegs(b, addr, vs).0;
    var read := HoldingValues(c, later)[addr..addr + |vs|];
    forall i: nat | i < |vs|
      ensures read[i] == ReadBack(later, addr + i, b.holding[addr + i], vs[i])
      ensures addr + |vs| <= TIME_HI ==> ReadBack(later, addr + i, b.holding[addr + i], vs[i]) == vs[i]
    {
      WriteRegsStores(b, addr, vs, addr + i);
      assert read[i] == HoldingValues(c, later)[addr + i];
      PlainSettles(addr + i, b.holding[addr + i], vs[i]);
    }
  }

  lemma PlainSettles(k: nat, before: word, v: word)
    ensures k < TIME_HI ==> Settled(k, before, v) == v
  {
  }

  // ---- FC15, then FC01 ----

  lemma CoilsRequestFields(addr: u16, ss: seq<bool>)
    requires 1 <= |ss| <= COILS_LIMIT
    ensures var p := WriteCoilsRequest(addr, ss);
            && |p| == 6 + BytesFor(|ss|) && p[0] == 0x0F
            && GetBe16(p[1..]) == addr && GetBe16(p[1..][2..]) == |ss|
            && Val(p[1..][4]) == BytesFor(|ss|)
            && UnpackBits(p[1..], 5, |ss|) == ss && [0x0F] + p[1..][..4] == Header(0x0F, addr, |ss|)
  {
    hide Val, ToByte, PackBits, GetBe16, PutBe16, UnpackBits, Header, BytesFor;
    var count, body := ToByte(BytesFor(|ss|)), PackBits(ss);
    var p := WriteCoilsRequest(addr, ss);
    BytesForSmall(|ss|);
    assert p == Header(0x0F, addr, |ss|) + ([count] + body);
    HeaderFields(0x0F, addr, |ss|, [count] + body);
    SmallByte(BytesFor(|ss|));
    CountAndBody(p[1..], count, body);
    BitsRoundTrip(p[1..], 5, ss);
  }

  lemma WriteCoilsExact(b: Bank, diag: Diag, clock: Clock, addr: u16, ss: seq<bool>)
    requires BankOk(b) && 1 <= |ss| <= COILS_LIMIT
    ensures var s := Process(b, diag, clock, WriteCoilsRequest(addr, ss));
            && s.bank == WriteCoils(b, addr, ss).0
            && s.reply == if addr + |ss| <= DO_NUM then Pdu(Header(0x0F, addr, |ss|))
                          else Exception(0x0F, ILLEGAL_ADDR)
  {
    var p := WriteCoilsRequest(addr, ss);
    CoilsRequestFields(addr, ss);
    WriteCoilsRange(b, addr, ss);
    Answered(b, diag, clock, p);
    ByCode(b, Count(Count(diag, BUS_MSG), SRV_MSG), clock, p[1..]);
    hide Process, Dispatch, Val, PackBits, GetBe16, WriteCoils, UnpackBits, HighBit, Count, Header;
    hide WriteCoilsRequest;
  }

  lemma ReadCoilsExact(b: Bank, diag: Diag, clock: Clock, addr: u16, n: u16)
    requires BankOk(b)
    ensures var s := Process(b, diag, clock, Header(1, addr, n));
            && s.bank == b
            && s.reply == if n == 0 || n > COILS_LIMIT then Exception(1, ILLEGAL_VALUE)
                          else if addr + n <= DO_NUM
                          then Pdu([1, ToByte(BytesFor(n))] + PackBits(Coils(b)[addr..addr + n]))
                          else Exception(1, ILLEGAL_ADDR)
  {
    var p := Header(1, addr, n);
    HeaderFields(1, addr, n, []);
    assert p + [] == p;
    Answered(b, diag, clock, p);
    ByCode(b, Count(Count(diag, BUS_MSG), SRV_MSG), clock, p[1..]);
    hide Process, Dispatch, ToByte, PackBits, GetBe16, HighBit, Count, Header, Coils;
  }

  /** FC15 and then FC01 over the same coils: the reply holds exactly the bits that were sent. */
  lemma WrittenCoilsReadBack(b: Bank, diag: Diag, clock: Clock, later: Clock, addr: u16, ss: seq<bool>)
    requires BankOk(b) && 1 <= |ss| && addr + |ss| <= DO_NUM
    ensures var s := Process(b, diag, clock, WriteCoilsRequest(addr, ss));
            Process(s.bank, s.diag, later, Header(1, addr, |ss|)).reply
            == Pdu([1, ToByte(BytesFor(|ss|))] + PackBits(ss))
  {
    hide Process, PackBits, ToByte, Header, WriteCoilsRequest, Coils, WriteCoils;
    WriteCoilsExact(b, diag, clock, addr, ss);
    var s := Process(b, diag, clock, WriteCoilsRequest(addr, ss));
    ReadCoilsExact(s.bank, s.diag, later, addr, |ss|);
    StoredCoils(b, addr, ss);
  }

  lemma StoredCoils(b: Bank, addr: nat, ss: seq<bool>)
    requires BankOk(b) && addr + |ss| <= DO_NUM
    ensures Coils(WriteCoils(b, addr, ss).0)[addr..addr + |ss|] == ss
  {
    hide WriteCoils, Coil;
    WriteCoilsRange(b, addr, ss);
    var c := WriteCoils(b, addr, ss).0;
    forall i: nat | i < |ss|
      ensures Coil(c, addr + i) == ss[i]
    {
      WriteCoilsStores(b, addr, ss, addr + i);
    }
    forall i: nat | i < |ss|
      ensures Coils(c)[addr..addr + |ss|][i] == ss[i]
    {
      assert Coils(c)[addr + i] == Coil(c, addr + i);
    }
  }

  // ---- the shape of replies, and the counters ----

  lemma ReadShape(fc: byte, b: Bank, clock: Clock, d: seq<byte>)
    requires BankOk(b) && (fc == 1 || fc == 2 || fc == 3 || fc == 4)
    ensures Shaped(fc, Read(fc, b, clock, d)) && (Read(fc, b, clock, d).Silent? <==> |d| != 4)
  {
    hide PutWords, PackBits, HighBit, ToByte, GetBe16, HoldingValues, Coils, Discretes;
  }

  /** An answer begins with the function code, or is a two-byte exception; it fits any frame. */
  predicate Shaped(fc: byte, r: Reply) {
    r.Pdu? ==> (IsException(fc, r) || (3 <= |r.bytes| <= 252 && r.bytes[0] == fc))
  }

  lemma WriteShapes(b: Bank, d: seq<byte>)
    requires BankOk(b)
    ensures Shaped(5, WriteOne(5, b, d).0) && Shaped(6, WriteOne(6, b, d).0)
    ensures Shaped(0x0F, WriteManyCoils(b, d).0) && Shaped(0x10, WriteManyRegs(b, d).0)
    ensures BankOk(WriteOne(5, b, d).1) && BankOk(WriteOne(6, b, d).1)
  {
    hide HighBit, GetBe16, WriteRegs, WriteCoils, WriteHolding, WriteDoBit, UnpackBits, Words, Val, WordAt;
  }

  lemma DiagnoseShape(d: seq<byte>, diag: Diag)
    ensures Shaped(8, Diagnose(d, diag).0)
  {
    hide HighBit, GetBe16, PutBe;
    if |d| == 4 && 0x0B <= GetBe16(d) <= 0x0F {
      PutBeLength(2, diag[CounterOf(GetBe16(d))]);
    }
  }

  lemma ReplyShape(b: Bank, diag: Diag, clock: Clock, pdu: seq<byte>)
    requires BankOk(b) && pdu != []
    ensures var s := Process(b, diag, clock, pdu);
            && BankOk(s.bank) && Shaped(pdu[0], s.reply)
            && (s.reply.Pdu? ==> 2 <= |s.reply.bytes| <= 252)
  {
    var fc, d, g := pdu[0], pdu[1..], Count(Count(diag, BUS_MSG), SRV_MSG);
    Answered(b, diag, clock, pdu);
    hide Process;
    if fc == 1 || fc == 2 || fc == 3 || fc == 4 {
      ReadShape(fc, b, clock, d);
    }
    WriteShapes(b, d);
    DiagnoseShape(d, g);
    hide Read, WriteOne, WriteManyCoils, WriteManyRegs, Diagnose, HighBit, Count;
  }

  predicate ClearsCounters(pdu: seq<byte>) {
    |pdu| == 5 && pdu[0] == 8 && GetBe16(pdu[1..]) == 0x0A
  }

  /** Every message the decoder sees, other than the one that clears them, adds one to the message
      counters, one to the exception counter if it is answered by an exception, and nothing else. */
  lemma DecoderCounts(b: Bank, diag: Diag, clock: Clock, pdu: seq<byte>)
    requires BankOk(b) && pdu != []
    ensures var s := Process(b, diag, clock, pdu);
            if ClearsCounters(pdu) then s.diag == CLEARED
            else
              var counted := Count(Count(diag, BUS_MSG), SRV_MSG);
              s.diag == if IsException(pdu[0], s.reply) then Count(counted, EXC) else counted
  {
    hide PutWords, PackBits, HighBit, ToByte, GetBe16, Read, WriteOne, WriteManyRegs, WriteManyCoils;
    hide Count;
    if ClearsCounters(pdu) {
      assert |pdu[1..]| == 4;
    }
  }
}
