/** What the Modbus decoder (src/modbus/mb_server.c) answers to a PDU and does to the registers and
    the diagnostic counters. */
module MbPdu {
  import opened Bytes
  import opened Common
  import opened RegBits
  import opened BitOps
  import opened RegMap

  const FP_ADDR := 5000
  const COILS_LIMIT := 2000
  const REGS_LIMIT := 125
  const ILLEGAL_FC: byte := 1
  const ILLEGAL_ADDR: byte := 2
  const ILLEGAL_VALUE: byte := 3

  // diagnostic counters, by index
  const BUS_MSG := 0
  const CRC_ERR := 1
  const EXC := 2
  const SRV_MSG := 3
  const NO_RESP := 4

  type Diag = d: seq<u16> | |d| == 5 witness [0, 0, 0, 0, 0]

  const CLEARED: Diag := [0, 0, 0, 0, 0]

  function Count(d: Diag, c: nat): Diag
    requires c < 5
  {
    d[c := (d[c] + 1) % U16_MOD]
  }

  /** Silent: wrong length, no answer at all. */
  datatype Reply = Silent | Pdu(bytes: seq<byte>)

  datatype Served = Served(reply: Reply, bank: Bank, diag: Diag)

  function HighBit(fc: byte): byte { fc | 0x80 }

  function Exception(fc: byte, code: byte): Reply {
    Pdu([HighBit(fc), code])
  }

  // ---- big-endian words ----

  function WordAt(d: seq<byte>, i: nat): word
    requires i + 2 <= |d|
  {
    Pair16(d[i + 1], d[i])
  }

  function PutWord(v: word): seq<byte> {
    [Hi16(v), Lo16(v)]
  }

  function PutWords(vs: seq<word>): (b: seq<byte>)
    ensures |b| == 2 * |vs|
  {
    if vs == [] then [] else PutWords(vs[..|vs| - 1]) + PutWord(vs[|vs| - 1])
  }

  function Words(d: seq<byte>, at: nat, n: nat): (vs: seq<word>)
    requires at + 2 * n <= |d|
    ensures |vs| == n
  {
    seq(n, i requires 0 <= i < n => WordAt(d, at + 2 * i))
  }

  // ---- bits ----

  function PackByte(states: seq<bool>): byte
    requires |states| <= 8
  {
    if states == [] then 0
    else
      var n := |states| - 1;
      if states[n] then Or8(PackByte(states[..n]), MASKS8[n]) else PackByte(states[..n])
  }

  function BytesFor(n: nat): nat {
    (n + 7) / 8
  }

  function Piece(states: seq<bool>, i: nat): (p: seq<bool>)
    requires i < BytesFor(|states|)
    ensures |p| <= 8
  {
    states[8 * i..Min(8 * i + 8, |states|)]
  }

  function PackBits(states: seq<bool>): (b: seq<byte>)
    ensures |b| == BytesFor(|states|)
  {
    seq(BytesFor(|states|), i requires 0 <= i < BytesFor(|states|) => PackByte(Piece(states, i)))
  }

  function UnpackBits(d: seq<byte>, at: nat, n: nat): (states: seq<bool>)
    requires at + BytesFor(n) <= |d|
    ensures |states| == n
  {
    seq(n, k requires 0 <= k < n => Bit8(d[at + k / 8], k % 8))
  }

  lemma {:induction false} PackByteBits(states: seq<bool>, j: nat)
    requires |states| <= 8 && j < 8
    ensures Bit8(PackByte(states), j) == (j < |states| && states[j])
    decreases |states|
  {
    hide Or8, Half8, Low8, Bit8;
    if states == [] {
      Zero8(j);
    } else {
      var n := |states| - 1;
      PackByteBits(states[..n], j);
      OrBit8(PackByte(states[..n]), MASKS8[n], j);
      MaskBit8(n, j);
    }
  }

  /** Packing puts every state in its bit and pads with zeros. */
  lemma PackBitsPacks(states: seq<bool>)
    ensures Packs(PackBits(states), states)
  {
    hide Bit8, PackByte;
    var b := PackBits(states);
    forall k | 0 <= k < 8 * |b|
      ensures BitAt(b, k) == (k < |states| && states[k])
    {
      PackByteBits(Piece(states, k / 8), k % 8);
      assert 8 * (k / 8) + k % 8 == k;
    }
  }

  // ---- the function codes ----

  function ReadWords(fc: byte, values: seq<word>, reach: nat, addr: nat, qty: nat): Reply
    requires |values| == reach
  {
    if qty == 0 || qty > REGS_LIMIT then Exception(fc, ILLEGAL_VALUE)
    else if addr >= FP_ADDR then Exception(fc, ILLEGAL_FC)
    else if addr + qty > reach then Exception(fc, ILLEGAL_ADDR)
    else Pdu([fc, ToByte(2 * qty)] + PutWords(values[addr..addr + qty]))
  }

  function ReadBits(fc: byte, states: seq<bool>, addr: nat, qty: nat): Reply {
    if qty == 0 || qty > COILS_LIMIT then Exception(fc, ILLEGAL_VALUE)
    else if addr + qty > |states| then Exception(fc, ILLEGAL_ADDR)
    else Pdu([fc, ToByte(BytesFor(qty))] + PackBits(states[addr..addr + qty]))
  }

  /** The register, coil and input values as they read. */
  function HoldingValues(b: Bank, clock: Clock): (vs: seq<word>)
    requires BankOk(b)
    ensures |vs| == HOLDING
  {
    seq(HOLDING, i requires 0 <= i < HOLDING => ReadHolding(b, clock, i))
  }

  function Coils(b: Bank): (ss: seq<bool>)
    requires BankOk(b)
    ensures |ss| == DO_NUM
  {
    seq(DO_NUM, i requires 0 <= i < DO_NUM => Coil(b, i))
  }

  function Discretes(b: Bank): (ss: seq<bool>)
    requires BankOk(b)
    ensures |ss| == DI_NUM
  {
    seq(DI_NUM, i requires 0 <= i < DI_NUM => TestBit(b.input[DI], i))
  }

  /** FC01, 02, 03, 04: the data must be exactly an address and a quantity. */
  function Read(fc: byte, b: Bank, clock: Clock, d: seq<byte>): Reply
    requires BankOk(b)
  {
    if |d| != 4 then Silent
    else
      var addr, qty := GetBe16(d), GetBe16(d[2..]);
      if fc == 1 then ReadBits(fc, Coils(b), addr, qty)
      else if fc == 2 then ReadBits(fc, Discretes(b), addr, qty)
      else if fc == 3 then ReadWords(fc, HoldingValues(b, clock), HOLDING, addr, qty)
      else ReadWords(fc, b.input, INPUT, addr, qty)
  }

  /** FC05, 06: echo, or address exception. */
  function WriteOne(fc: byte, b: Bank, d: seq<byte>): (Reply, Bank)
    requires BankOk(b)
  {
    if |d| != 4 then (Silent, b)
    else
      var addr, v := GetBe16(d), WordAt(d, 2);
      match (if fc == 5 then WriteDoBit(b, addr, v != 0) else WriteHolding(b, addr, v))
      case None => (Exception(fc, ILLEGAL_ADDR), b)
      case Some(c) => (Pdu([fc] + d), c)
  }

  /** FC15 */
  function WriteManyCoils(b: Bank, d: seq<byte>): (Reply, Bank)
    requires BankOk(b)
  {
    if |d| < 6 then (Silent, b)
    else
      var addr, qty, bytes := GetBe16(d), GetBe16(d[2..]), Val(d[4]);
      if qty == 0 || qty > COILS_LIMIT || BytesFor(qty) != bytes || |d| != bytes + 5
      then (Exception(0x0F, ILLEGAL_VALUE), b)
      else
        var (c, ok) := WriteCoils(b, addr, UnpackBits(d, 5, qty));
        (if ok then Pdu([0x0F] + d[..4]) else Exception(0x0F, ILLEGAL_ADDR), c)
  }

  /** FC16. The byte count is only divided by the quantity, so one odd byte at the end passes. */
  function WriteManyRegs(b: Bank, d: seq<byte>): (Reply, Bank)
    requires BankOk(b)
  {
    if |d| < 6 then (Silent, b)
    else
      var addr, qty, bytes := GetBe16(d), GetBe16(d[2..]), Val(d[4]);
      if qty == 0 || qty > REGS_LIMIT then (Exception(0x10, ILLEGAL_VALUE), b)
      else if addr >= FP_ADDR then (Exception(0x10, ILLEGAL_FC), b)
      else if |d| - 5 != bytes || bytes / qty != 2 then (Exception(0x10, ILLEGAL_VALUE), b)
      else
        BytesSuffice(bytes, qty);
        var (c, ok) := WriteRegs(b, addr, Words(d, 5, qty));
        (if ok then Pdu([0x10] + d[..4]) else Exception(0x10, ILLEGAL_ADDR), c)
  }

  lemma BytesSuffice(bytes: nat, qty: nat)
    requires qty > 0 && bytes / qty == 2
    ensures 2 * qty <= bytes < 3 * qty
  {
    assert bytes == qty * (bytes / qty) + bytes % qty;
  }

  /** FC08: echo, clear, or one counter; the counters are those after this message was counted. */
  function Diagnose(d: seq<byte>, diag: Diag): (Reply, Diag) {
    if |d| != 4 then (Silent, diag)
    else
      var sub := GetBe16(d);
      if sub == 0 then (Pdu([0x08] + d), diag)
      else if sub == 0x0A then (Pdu([0x08] + d), CLEARED)
      else if 0x0B <= sub <= 0x0F then
        (Pdu([0x08] + d[..2] + PutBe16(diag[CounterOf(sub)])), diag)
      else (Exception(0x08, ILLEGAL_FC), diag)
  }

  function CounterOf(sub: nat): nat
    requires 0x0B <= sub <= 0x0F
  {
    if sub == 0x0B then BUS_MSG else if sub == 0x0C then CRC_ERR else if sub == 0x0D then EXC
    else if sub == 0x0E then SRV_MSG else NO_RESP
  }

  predicate IsException(fc: byte, r: Reply) {
    r.Pdu? && |r.bytes| == 2 && r.bytes[0] == HighBit(fc)
  }

  /** The dispatch, once the message is counted; exceptions are not counted yet. */
  function Dispatch(b: Bank, diag: Diag, clock: Clock, fc: byte, d: seq<byte>): Served
    requires BankOk(b)
  {
    if fc == 1 || fc == 2 || fc == 3 || fc == 4 then Served(Read(fc, b, clock, d), b, diag)
    else if fc == 5 || fc == 6 then var (r, c) := WriteOne(fc, b, d); Served(r, c, diag)
    else if fc == 8 then var (r, g) := Diagnose(d, diag); Served(r, b, g)
    else if fc == 0x0F then var (r, c) := WriteManyCoils(b, d); Served(r, c, diag)
    else if fc == 0x10 then var (r, c) := WriteManyRegs(b, d); Served(r, c, diag)
    else Served(Exception(fc, ILLEGAL_FC), b, diag)
  }

  /** mb_server_process */
  function Process(b: Bank, diag: Diag, clock: Clock, pdu: seq<byte>): Served
    requires BankOk(b)
  {
    if pdu == [] then Served(Silent, b, diag)
    else
      var s := Dispatch(b, Count(Count(diag, BUS_MSG), SRV_MSG), clock, pdu[0], pdu[1..]);
      if IsException(pdu[0], s.reply) then s.(diag := Count(s.diag, EXC)) else s
  }
}
