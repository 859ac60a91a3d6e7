/** The Modbus RTU slave (src/modbus/rtu_frame.c): bytes collected until 3.5 characters of silence,
    then length, CRC and address checks, the decoder, and a sealed reply. */
module RtuFrame {
  import opened Bytes
  import opened Common
  import opened RegBits
  import opened RegMap
  import opened MbPdu
  import CrcDetection
  import Crc
  import Lfsr
  import MbServer
  import MbTheorems

  const FRAME_MAX := 256
  const FRAME_MIN := 4

  // ---- what one silence does ----

  /** tx is what goes out on the line. */
  datatype Outcome = Outcome(tx: Option<seq<byte>>, bank: Bank, diag: Diag)

  function Ignored(b: Bank, diag: Diag): Outcome {
    Outcome(None, b, Count(Count(diag, BUS_MSG), NO_RESP))
  }

  /** rtu_t35_expired, when the line has carried `got` since the last silence. */
  function Expiry(b: Bank, diag: Diag, clock: Clock, srv_unit: byte, got: seq<byte>): Outcome
    requires BankOk(b)
  {
    if got == [] then Outcome(None, b, diag)
    else if |got| > FRAME_MAX || |got| < FRAME_MIN then Ignored(b, diag)
    else if !CrcDetection.FrameOk(got) then
      Outcome(None, b, Count(Count(Count(diag, BUS_MSG), CRC_ERR), NO_RESP))
    else if got[0] != 0 && got[0] != srv_unit then Ignored(b, diag)
    else
      var s := Process(b, diag, clock, got[1..|got| - 2]);
      if s.reply.Silent? || got[0] == 0 then Outcome(None, s.bank, Count(s.diag, NO_RESP))
      else Outcome(Some(CrcDetection.Sealed([got[0]] + s.reply.bytes)), s.bank, s.diag)
  }

  /** The frame reaches the decoder. */
  predicate Delivered(srv_unit: byte, got: seq<byte>) {
    FRAME_MIN <= |got| <= FRAME_MAX && CrcDetection.FrameOk(got) && (got[0] == 0 || got[0] == srv_unit)
  }

  /** A frame that corrupts a valid one inside two adjacent bytes - payload, CRC or across the boundary -
      changes no register and is not answered; it is counted as a CRC error. */
  lemma CorruptedFrameInert(b: Bank, diag: Diag, clock: Clock, srv_unit: byte,
                            sent: seq<byte>, got: seq<byte>, i: nat)
    requires BankOk(b) && CrcDetection.FrameOk(sent) && FRAME_MIN <= |sent| <= FRAME_MAX
    requires |got| == |sent| && got != sent && i + 2 <= |sent|
    requires sent[..i] == got[..i] && sent[i + 2..] == got[i + 2..]
    ensures Expiry(b, diag, clock, srv_unit, got)
            == Outcome(None, b, Count(Count(Count(diag, BUS_MSG), CRC_ERR), NO_RESP))
  {
    CrcDetection.TwoByteErrorRejected(sent, got, i);
    hide CrcDetection.FrameOk, Process, Count;
  }

  /** The same for any burst of up to 16 consecutive bits on the line. */
  lemma BurstInert(b: Bank, diag: Diag, clock: Clock, srv_unit: byte, sent: seq<byte>, got: seq<byte>,
                   before: Lfsr.bits, u: Lfsr.bits, v: Lfsr.bits, after: Lfsr.bits)
    requires BankOk(b) && CrcDetection.FrameOk(sent) && FRAME_MIN <= |sent| <= FRAME_MAX && |got| == |sent|
    requires MessageBits(sent) == before + u + after && MessageBits(got) == before + v + after
    requires |u| == |v| <= 16 && u != v
    ensures Expiry(b, diag, clock, srv_unit, got)
            == Outcome(None, b, Count(Count(Count(diag, BUS_MSG), CRC_ERR), NO_RESP))
  {
    CrcDetection.BurstRejected(sent, got, before, u, v, after);
    hide CrcDetection.FrameOk, Process, Count, MessageBits;
  }

  predicate BadCrc(got: seq<byte>) {
    FRAME_MIN <= |got| <= FRAME_MAX && !CrcDetection.FrameOk(got)
  }

  /** The decoder answers with an exception, whether or not that goes out. */
  predicate Refused(b: Bank, diag: Diag, clock: Clock, srv_unit: byte, got: seq<byte>)
    requires BankOk(b)
  {
    Delivered(srv_unit, got) && IsException(got[1], Process(b, diag, clock, got[1..|got| - 2]).reply)
  }

  /** Every silence after at least one byte, unless it delivers a counter clear, adds one to the bus
      message counter, and is either answered or counted as not answered - never both, never neither,
      whatever the decoder has counted itself. */
  lemma ExpiryAccounts(b: Bank, diag: Diag, clock: Clock, srv_unit: byte, got: seq<byte>)
    requires BankOk(b) && got != []
    requires !(Delivered(srv_unit, got) && MbTheorems.ClearsCounters(got[1..|got| - 2]))
    ensures var o := Expiry(b, diag, clock, srv_unit, got);
            && o.diag[BUS_MSG] == (diag[BUS_MSG] + 1) % U16_MOD
            && o.diag[NO_RESP] == (if o.tx.Some? then diag[NO_RESP] else (diag[NO_RESP] + 1) % U16_MOD)
            && o.diag[SRV_MSG] == (if Delivered(srv_unit, got) then (diag[SRV_MSG] + 1) % U16_MOD
                                   else diag[SRV_MSG])
            && o.diag[CRC_ERR] == (if BadCrc(got) then (diag[CRC_ERR] + 1) % U16_MOD else diag[CRC_ERR])
            && o.diag[EXC] == (if Refused(b, diag, clock, srv_unit, got) then (diag[EXC] + 1) % U16_MOD
                               else diag[EXC])
  {
    if Delivered(srv_unit, got) {
      MbTheorems.DecoderCounts(b, diag, clock, got[1..|got| - 2]);
    }
    hide CrcDetection.FrameOk, CrcDetection.Sealed, Process, HighBit;
  }

  // ---- many silences ----

  /** A silence: the time, and what the line has carried since the last. */
  datatype Silence = Silence(clock: Clock, got: seq<byte>)

  /** How many silences were not empty, reached the decoder, failed the CRC, were refused and were
      answered; and the registers and counters after them. */
  datatype Tally = Tally(heard: nat, served: nat, broken: nat, refused: nat, answered: nat, bank: Bank, diag: Diag)

  function One(c: bool): nat {
    if c then 1 else 0
  }

  function Tallied(b: Bank, diag: Diag, unit: byte, ss: seq<Silence>): (t: Tally)
    requires BankOk(b)
    ensures BankOk(t.bank)
  {
    if ss == [] then Tally(0, 0, 0, 0, 0, b, diag)
    else
      var t, s := Tallied(b, diag, unit, ss[..|ss| - 1]), ss[|ss| - 1];
      var o := Expiry(t.bank, t.diag, s.clock, unit, s.got);
      ExpiryOk(t.bank, t.diag, s.clock, unit, s.got);
      Tally(t.heard + One(s.got != []), t.served + One(Delivered(unit, s.got)), t.broken + One(BadCrc(s.got)),
            t.refused + One(Refused(t.bank, t.diag, s.clock, unit, s.got)), t.answered + One(o.tx.Some?),
            o.bank, o.diag)
  }

  lemma ExpiryOk(b: Bank, diag: Diag, clock: Clock, unit: byte, got: seq<byte>)
    requires BankOk(b)
    ensures BankOk(Expiry(b, diag, clock, unit, got).bank)
  {
    if FRAME_MIN <= |got| <= FRAME_MAX {
      MbTheorems.ReplyShape(b, diag, clock, got[1..|got| - 2]);
    }
    hide CrcDetection.FrameOk, CrcDetection.Sealed, Process, Count;
  }

  /** None of them clears the counters. */
  predicate NoClear(unit: byte, ss: seq<Silence>) {
    forall i :: 0 <= i < |ss| ==> !Clears(unit, ss[i].got)
  }

  predicate Clears(unit: byte, got: seq<byte>) {
    Delivered(unit, got) && MbTheorems.ClearsCounters(got[1..|got| - 2])
  }

  function Plus(c: u16, n: int): u16 {
    (c + n) % U16_MOD
  }

  lemma PlusPlus(c: u16, n: int)
    ensures Plus(Plus(c, n), 1) == Plus(c, n + 1) && Plus(c, 0) == c
  {
  }

  /** Over every run of silences the bus counter counts the non-empty ones, the no-response counter those
      that were not answered, and the other three exactly the events they are named for. */
  lemma {:induction false} RunAccounts(b: Bank, diag: Diag, unit: byte, ss: seq<Silence>)
    requires BankOk(b) && NoClear(unit, ss)
    ensures var t := Tallied(b, diag, unit, ss);
            && t.answered <= t.heard
            && t.diag[BUS_MSG] == Plus(diag[BUS_MSG], t.heard)
            && t.diag[NO_RESP] == Plus(diag[NO_RESP], t.heard - t.answered)
            && t.diag[SRV_MSG] == Plus(diag[SRV_MSG], t.served)
            && t.diag[CRC_ERR] == Plus(diag[CRC_ERR], t.broken)
            && t.diag[EXC] == Plus(diag[EXC], t.refused)
  {
    hide Expiry, Refused, Delivered, BadCrc, Clears, Plus;
    if ss == [] {
      PlusPlus(diag[BUS_MSG], 0);
      PlusPlus(diag[NO_RESP], 0);
      PlusPlus(diag[SRV_MSG], 0);
      PlusPlus(diag[CRC_ERR], 0);
      PlusPlus(diag[EXC], 0);
    } else {
      var before, s := ss[..|ss| - 1], ss[|ss| - 1];
      assert !Clears(unit, s.got);
      RunAccounts(b, diag, unit, before);
      TallyStep(diag, Tallied(b, diag, unit, before), unit, s);
    }
  }

  lemma TallyStep(diag: Diag, t: Tally, unit: byte, s: Silence)
    requires BankOk(t.bank) && !Clears(unit, s.got)
    requires t.answered <= t.heard && t.diag[BUS_MSG] == Plus(diag[BUS_MSG], t.heard)
    requires t.diag[NO_RESP] == Plus(diag[NO_RESP], t.heard - t.answered)
    requires t.diag[SRV_MSG] == Plus(diag[SRV_MSG], t.served) && t.diag[CRC_ERR] == Plus(diag[CRC_ERR], t.broken)
    requires t.diag[EXC] == Plus(diag[EXC], t.refused)
    ensures var o := Expiry(t.bank, t.diag, s.clock, unit, s.got);
            && (o.tx.Some? ==> s.got != [])
            && o.diag[BUS_MSG] == Plus(diag[BUS_MSG], t.heard + One(s.got != []))
            && o.diag[NO_RESP]
               == Plus(diag[NO_RESP], t.heard + One(s.got != []) - (t.answered + One(o.tx.Some?)))
            && o.diag[SRV_MSG] == Plus(diag[SRV_MSG], t.served + One(Delivered(unit, s.got)))
            && o.diag[CRC_ERR] == Plus(diag[CRC_ERR], t.broken + One(BadCrc(s.got)))
            && o.diag[EXC] == Plus(diag[EXC], t.refused + One(Refused(t.bank, t.diag, s.clock, unit, s.got)))
  {
    PlusPlus(diag[BUS_MSG], t.heard);
    PlusPlus(diag[NO_RESP], t.heard - t.answered);
    PlusPlus(diag[SRV_MSG], t.served);
    PlusPlus(diag[CRC_ERR], t.broken);
    PlusPlus(diag[EXC], t.refused);
    if s.got == [] {
      assert Expiry(t.bank, t.diag, s.clock, unit, s.got) == Outcome(None, t.bank, t.diag);
    } else {
      ExpiryAccounts(t.bank, t.diag, s.clock, unit, s.got);
      hide Expiry, Refused, Delivered, BadCrc;
    }
  }

  /** Only frames for this unit are answered; the answer is a valid frame from it that fits the line. */
  lemma AnswerSealed(b: Bank, diag: Diag, clock: Clock, srv_unit: byte, got: seq<byte>)
    requires BankOk(b) && Expiry(b, diag, clock, srv_unit, got).tx.Some?
    ensures var tx := Expiry(b, diag, clock, srv_unit, got).tx.value;
            && Delivered(srv_unit, got) && got[0] == srv_unit != 0
            && CrcDetection.FrameOk(tx) && tx[0] == srv_unit && 5 <= |tx| <= FRAME_MAX
  {
    var s := Process(b, diag, clock, got[1..|got| - 2]);
    MbTheorems.ReplyShape(b, diag, clock, got[1..|got| - 2]);
    CrcDetection.SealedOk([got[0]] + s.reply.bytes);
    hide CrcDetection.FrameOk, Process, Count, Crc.Crc16, Lo16, Hi16;
  }

  /** A broadcast does to the registers what the same PDU does when addressed to this unit. */
  lemma BroadcastActs(b: Bank, diag: Diag, clock: Clock, srv_unit: byte, got: seq<byte>, uni: seq<byte>)
    requires BankOk(b) && Delivered(srv_unit, got) && Delivered(srv_unit, uni)
    requires got[0] == 0 && uni[0] == srv_unit && |got| == |uni|
    requires got[1..|got| - 2] == uni[1..|uni| - 2]
    ensures Expiry(b, diag, clock, srv_unit, got).bank == Expiry(b, diag, clock, srv_unit, uni).bank
    ensures Expiry(b, diag, clock, srv_unit, got).tx == None
  {
    hide CrcDetection.FrameOk, CrcDetection.Sealed, Process, Count;
  }

  // ---- the slave itself ----

  class Rtu {
    const server: MbServer.Server
    const rx_buf: array<byte>
    const rsp_pdu: array<byte>
    var rx_len: nat
    var rx_overflow: bool
    var srv_unit: byte
    /** All bytes of the line since the last silence. */
    ghost var got: seq<byte>

    ghost predicate Valid()
      reads this, rx_buf
    {
      && server.Valid() && rx_buf.Length == FRAME_MAX && rsp_pdu.Length == MbServer.PDU_MAX
      && rx_buf != rsp_pdu && Buffered()
    }

    /** The buffer holds what came, up to its size; whether more came is all else that is known. */
    ghost predicate Buffered()
      requires rx_buf.Length == FRAME_MAX
      reads this, rx_buf
    {
      && rx_len == Min(|got|, FRAME_MAX) && rx_buf[..rx_len] == got[..rx_len]
      && rx_overflow == (|got| > FRAME_MAX)
    }

    constructor (server: MbServer.Server)
      requires server.Valid()
      ensures Valid() && this.server == server && got == [] && fresh(rx_buf) && fresh(rsp_pdu)
    {
      this.server := server;
      rx_buf := new byte[FRAME_MAX];
      rsp_pdu := new byte[MbServer.PDU_MAX];
      rx_len, rx_overflow, srv_unit, got := 0, false, 0, [];
    }

    /** rtu_frame_bind */
    method Bind(unit: byte)
      requires Valid()
      modifies this
      ensures Valid() && srv_unit == unit && got == []
    {
      srv_unit := unit;
      Reset();
    }

    /** rtu_reset */
    method Reset()
      requires Valid()
      modifies this`rx_len, this`rx_overflow, this`got
      ensures Valid() && got == []
    {
      rx_len, rx_overflow, got := 0, false, [];
    }

    /** rtu_rx_feed, in the receive interrupt */
    method Feed(bytes: seq<byte>)
      requires Valid() && |bytes| < U16_MOD
      modifies this`rx_len, this`rx_overflow, this`got, rx_buf
      ensures Valid() && got == old(got) + bytes
    {
      got := got + bytes;
      if |bytes| == 0 {
        assert got == old(got);
        return;
      }
      if !rx_overflow {
        var space := FRAME_MAX - rx_len;
        var take := if |bytes| <= space then |bytes| else space;
        forall i | 0 <= i < take {
          rx_buf[rx_len + i] := bytes[i];
        }
        rx_len := rx_len + take;
        if take < |bytes| {
          rx_overflow := true;
        }
      }
    }

    /** rtu_t35_expired. None: nothing is sent. */
    method Expired(clock: Clock) returns (tx: Option<seq<byte>>)
      requires Valid()
      modifies this`rx_len, this`rx_overflow, this`got, rsp_pdu,
               server.diag_ctr, server.regs`events, server.regs.holding_reg
      ensures Valid() && got == []
      ensures Outcome(tx, server.regs.View(), server.DiagView())
              == Expiry(old(server.regs.View()), old(server.DiagView()), clock, srv_unit, old(got))
    {
      hide Process, Count, Crc.Crc16, Lo16, Hi16, Pair16;
      var len, overflow := rx_len, rx_overflow;
      var frame := rx_buf[..len];
      rx_len, rx_overflow, got := 0, false, [];
      if len == 0 {
        return None;
      }
      if overflow || len < FRAME_MIN {
        server.DiagCount(BUS_MSG);
        server.DiagCount(NO_RESP);
        return None;
      }
      assert frame == old(got);
      var unit := frame[0];
      var crc_rx := Pair16(frame[len - 2], frame[len - 1]);
      var crc_calc := Crc.Crc16Modbus(frame[..len - 2]);
      if crc_rx != crc_calc {
        server.DiagCount(BUS_MSG);
        server.DiagCount(CRC_ERR);
        server.DiagCount(NO_RESP);
        return None;
      }
      if unit != 0 && unit != srv_unit {
        server.DiagCount(BUS_MSG);
        server.DiagCount(NO_RESP);
        return None;
      }
      var rsp, rsp_len := server.Process(frame[1..len - 2], rsp_pdu, clock);
      if !rsp || unit == 0 {
        server.DiagCount(NO_RESP);
        return None;
      }
      var tx_frame := [unit] + rsp_pdu[..rsp_len];
      crc_calc := Crc.Crc16Modbus(tx_frame);
      return Some(tx_frame + [Lo16(crc_calc), Hi16(crc_calc)]);
    }
  }

  // ---- the length of the silence ----

  /** rtu_t35_ms */
  function T35Ms(baud: u32): nat {
    if baud == 0 || baud > 19200 then 2
    else
      var us := (38_500_000 + baud - 1) / baud;
      (us + 999) / 1000
  }

  /** ms milliseconds at `baud` are at least 3.5 characters of 11 bits. */
  predicate Covers(ms: nat, baud: nat) {
    ms * baud * 1000 >= 38_500_000
  }

  lemma CeilDiv(a: nat, b: nat)
    requires b > 0
    ensures var q := (a + b - 1) / b; q * b >= a && (a > 0 ==> (q - 1) * b < a)
  {
    var q := (a + b - 1) / b;
    assert a + b - 1 == q * b + (a + b - 1) % b;
  }

  /** Up to 19200 baud the timer is the fewest whole milliseconds that cover 3.5 characters. */
  lemma T35IsLeast(baud: u32)
    requires 0 < baud <= 19200
    ensures Covers(T35Ms(baud), baud) && !Covers(T35Ms(baud) - 1, baud)
  {
    var us := (38_500_000 + baud - 1) / baud;
    CeilDiv(38_500_000, baud);
    CeilDiv(us, 1000);
    var r := T35Ms(baud);
    assert r * 1000 >= us && (r - 1) * 1000 <= us - 1;
    Times(us, r * 1000, baud);
    Times((r - 1) * 1000, us - 1, baud);
  }

  lemma Times(a: int, b: int, k: nat)
    requires a <= b
    ensures a * k <= b * k
  {
  }
}
