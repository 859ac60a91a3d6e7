/** Modbus TCP (src/modbus/tcp.c and mbtcp_adu.c): frames cut out of a byte stream however it is
    segmented, and the MBAP layer around the decoder. */
module MbTcp {
  import opened Bytes
  import opened Common
  import opened RegMap
  import opened MbPdu
  import opened TcpReplies
  import MbServer
  import MbTheorems

  const HEADER := 8
  const MBAP_LEN_CLAMP := 256
  const RX_MAX := 6 + MBAP_LEN_CLAMP
  const OFF_FC := 7
  const ADU_TX_MAX := OFF_FC + MbServer.PDU_MAX

  // ---- the one-shot framer ----

  /** frame_need: the length field is clamped. */
  function Need(rx: seq<byte>): nat
    requires |rx| >= 6
  {
    6 + Min(GetBe16(rx[4..]), MBAP_LEN_CLAMP)
  }

  /** The length of the frame that begins here, once its header is there. */
  function FrameLength(rx: seq<byte>): (n: nat)
    requires |rx| >= HEADER
    ensures HEADER <= n <= RX_MAX
  {
    if Need(rx) < HEADER then HEADER else Need(rx)
  }

  predicate Complete(rx: seq<byte>) {
    |rx| >= HEADER && |rx| >= FrameLength(rx)
  }

  datatype Framed = Framed(frames: seq<seq<byte>>, rest: seq<byte>)

  /** The frames of a stream, and what is left for the next one. */
  function Frames(stream: seq<byte>): Framed
    decreases |stream|
  {
    if !Complete(stream) then Framed([], stream)
    else
      var n := FrameLength(stream);
      var more := Frames(stream[n..]);
      Framed([stream[..n]] + more.frames, more.rest)
  }

  lemma {:induction false} RestIncomplete(stream: seq<byte>)
    ensures !Complete(Frames(stream).rest)
    decreases |stream|
  {
    hide GetBe16;
    if Complete(stream) {
      RestIncomplete(stream[FrameLength(stream)..]);
    }
  }

  /** Nothing is lost and nothing invented: frames and rest, put together, are the stream. */
  function Joined(frames: seq<seq<byte>>): seq<byte> {
    if frames == [] then [] else frames[0] + Joined(frames[1..])
  }

  lemma {:induction false} FramesCover(stream: seq<byte>)
    ensures Joined(Frames(stream).frames) + Frames(stream).rest == stream
    decreases |stream|
  {
    hide GetBe16, Need, FrameLength, Joined;
    if Complete(stream) {
      var n := FrameLength(stream);
      FramesCover(stream[n..]);
      CoverStep(stream, n, Frames(stream[n..]));
    } else {
      CoverNone(stream);
    }
  }

  lemma CoverNone(stream: seq<byte>)
    ensures Joined([]) + stream == stream
  {
  }

  lemma CoverStep(stream: seq<byte>, n: nat, more: Framed)
    requires n <= |stream| && Joined(more.frames) + more.rest == stream[n..]
    ensures Joined([stream[..n]] + more.frames) + more.rest == stream
  {
    JoinedCons(stream[..n], more.frames);
    hide Joined;
    Assoc(stream[..n], Joined(more.frames), more.rest);
  }

  lemma JoinedCons(f: seq<byte>, fs: seq<seq<byte>>)
    ensures Joined([f] + fs) == f + Joined(fs)
  {
    assert ([f] + fs)[1..] == fs;
  }

  lemma Assoc(a: seq<byte>, b: seq<byte>, c: seq<byte>)
    ensures a + b + c == a + (b + c)
  {
  }

  lemma SameLength(s: seq<byte>, t: seq<byte>)
    requires |s| >= HEADER && s <= t
    ensures FrameLength(s) == FrameLength(t)
  {
    assert s[4..][..2] == t[4..][..2];
  }

  /** More of the stream is framed as what was left over, followed by the more. */
  lemma {:induction false} FramesAppend(s: seq<byte>, t: seq<byte>)
    ensures var a, b := Frames(s), Frames(Frames(s).rest + t);
            Frames(s + t) == Framed(a.frames + b.frames, b.rest)
    decreases |s|
  {
    hide GetBe16, Need;
    if Complete(s) {
      var n := FrameLength(s);
      SameLength(s, s + t);
      assert (s + t)[n..] == s[n..] + t && (s + t)[..n] == s[..n];
      FramesAppend(s[n..], t);
      var a, b := Frames(s[n..]), Frames(Frames(s).rest + t);
      assert [s[..n]] + (a.frames + b.frames) == [s[..n]] + a.frames + b.frames;
    } else {
      assert Frames(s).frames + Frames(s + t).frames == Frames(s + t).frames;
    }
  }

  // ---- the MBAP layer ----

  datatype Handled = Handled(reply: Option<seq<byte>>, bank: Bank, diag: Diag)

  function ProtocolError(f: seq<byte>): seq<byte>
    requires |f| >= HEADER
  {
    f[..4] + PutBe(2, 3) + [f[6], HighBit(f[OFF_FC]), 4]
  }

  function PduLength(f: seq<byte>): nat
    requires |f| >= HEADER
  {
    var len := Min(GetBe16(f[4..]), MBAP_LEN_CLAMP);
    Min(if len >= 2 then len - 1 else 1, |f| - OFF_FC)
  }

  function Adu(f: seq<byte>, pdu: seq<byte>): seq<byte>
    requires |f| >= HEADER
  {
    f[..2] + PutBe(2, 0) + PutBe(2, |pdu| + 1) + [f[6]] + pdu
  }

  /** mbtcp_adu_process, on a whole frame. */
  function Serve(b: Bank, diag: Diag, clock: Clock, f: seq<byte>): Handled
    requires BankOk(b)
  {
    if |f| < HEADER then Handled(None, b, diag)
    else if GetBe16(f[2..]) != 0 then Handled(Some(ProtocolError(f)), b, diag)
    else
      var s := Process(b, diag, clock, f[OFF_FC..OFF_FC + PduLength(f)]);
      if f[6] == 0 || s.reply.Silent?
      then Handled(None, s.bank, Count(s.diag, NO_RESP))
      else Handled(Some(Adu(f, s.reply.bytes)), s.bank, s.diag)
  }

  /** The decoder gets everything after the unit of a framed message: the clamps of the framer and of
      the MBAP layer agree. */
  lemma PduIsTheRest(f: seq<byte>)
    requires |f| >= HEADER && |f| == FrameLength(f)
    ensures PduLength(f) == |f| - OFF_FC
  {
    hide GetBe16;
  }

  lemma Be16Twice(f: seq<byte>, v: u16)
    requires |f| >= 2 && f[..2] == PutBe16(v)
    ensures GetBe16(f) == v
  {
    Be16RoundTrip(v);
    assert PutBe16(v)[..2] == PutBe16(v);
  }

  /** Every reply is itself exactly one frame of this framer, with transaction and unit of the request,
      and fits the transmit buffer. */
  lemma ReplyIsOneFrame(b: Bank, diag: Diag, clock: Clock, f: seq<byte>)
    requires BankOk(b) && |f| >= HEADER && Serve(b, diag, clock, f).reply.Some?
    ensures var r := Serve(b, diag, clock, f).reply.value;
            && Frames(r) == Framed([r], []) && r[..2] == f[..2] && r[6] == f[6]
            && 9 <= |r| <= ADU_TX_MAX && GetBe16(r[2..]) == GetBe16(f[2..])
  {
    var r := Serve(b, diag, clock, f).reply.value;
    hide HighBit, Process, Count, GetBe16, PutBe;
    if GetBe16(f[2..]) != 0 {
      ErrorFields(f);
    } else {
      var pdu := f[OFF_FC..OFF_FC + PduLength(f)];
      var bytes := Process(b, diag, clock, pdu).reply.bytes;
      hide PduLength;
      MbTheorems.ReplyShape(b, diag, clock, pdu);
      AduFields(f, bytes);
    }
    OneFrame(r);
  }

  lemma ErrorFields(f: seq<byte>)
    requires |f| >= HEADER
    ensures var r := ProtocolError(f);
            && |r| == 9 && r[..2] == f[..2] && r[6] == f[6] && GetBe16(r[4..]) == 3
            && GetBe16(r[2..]) == GetBe16(f[2..])
  {
    Be16RoundTrip(3);
    hide HighBit, PutBe, GetBe16;
    var two, tail := PutBe(2, 3), [f[6], HighBit(f[OFF_FC]), 4];
    var r := f[..4] + two + tail;
    Laid(f[..4], two, tail);
    Be16Twice(r[4..], 3);
    assert f[..4][2..] == f[2..][..2];
    SameBe16(r[2..], f[2..]);
  }

  lemma Laid(head: seq<byte>, two: seq<byte>, tail: seq<byte>)
    requires |head| == 4 && |two| == 2 && |tail| >= 1
    ensures var r := head + two + tail;
            r[..2] == head[..2] && r[2..][..2] == head[2..] && r[4..][..2] == two && r[6] == tail[0]
  {
  }

  lemma SameBe16(a: seq<byte>, b: seq<byte>)
    requires |a| >= 2 && |b| >= 2 && a[..2] == b[..2]
    ensures GetBe16(a) == GetBe16(b)
  {
  }

  lemma AduFields(f: seq<byte>, pdu: seq<byte>)
    requires |f| >= HEADER && 2 <= |pdu| <= 252
    ensures var r := Adu(f, pdu);
            && |r| == 7 + |pdu| && r[..2] == f[..2] && r[6] == f[6]
            && GetBe16(r[4..]) == |pdu| + 1 && GetBe16(r[2..]) == 0
  {
    Be16RoundTrip(0);
    Be16RoundTrip(|pdu| + 1);
    var r := Adu(f, pdu);
    hide PutBe, GetBe16;
    LaidOut(f[..2], PutBe(2, 0), PutBe(2, |pdu| + 1), [f[6]], pdu);
    Be16Twice(r[4..], |pdu| + 1);
    Be16Twice(r[2..], 0);
  }

  lemma LaidOut(a: seq<byte>, b: seq<byte>, c: seq<byte>, d: seq<byte>, e: seq<byte>)
    requires |a| == 2 && |b| == 2 && |c| == 2 && |d| == 1
    ensures var r := a + b + c + d + e;
            |r| == 7 + |e| && r[..2] == a && r[2..][..2] == b && r[4..][..2] == c && r[6] == d[0]
  {
    var r := a + b + c + d + e;
    assert r[2..][..2] == r[2..4] && r[4..][..2] == r[4..6];
  }

  lemma OneFrame(r: seq<byte>)
    requires 9 <= |r| <= RX_MAX && GetBe16(r[4..]) == |r| - 6
    ensures Frames(r) == Framed([r], [])
  {
    hide GetBe16;
    assert r[..|r|] == r && r[|r|..] == [];
    assert Frames([]) == Framed([], []);
  }

  // ---- several frames ----

  /** What a number of frames do, one after the other. */
  datatype Aftermath = Aftermath(replies: seq<seq<byte>>, bank: Bank, diag: Diag)

  function ServeAll(b: Bank, diag: Diag, clock: Clock, frames: seq<seq<byte>>): (e: Aftermath)
    requires BankOk(b)
    ensures BankOk(e.bank)
  {
    if frames == [] then Aftermath([], b, diag)
    else
      var e := ServeAll(b, diag, clock, frames[..|frames| - 1]);
      var h := Serve(e.bank, e.diag, clock, frames[|frames| - 1]);
      ServeOk(e.bank, e.diag, clock, frames[|frames| - 1]);
      Aftermath(e.replies + (if h.reply.Some? then [h.reply.value] else []), h.bank, h.diag)
  }

  lemma ServeOk(b: Bank, diag: Diag, clock: Clock, f: seq<byte>)
    requires BankOk(b)
    ensures BankOk(Serve(b, diag, clock, f).bank)
  {
    if |f| >= HEADER {
      MbTheorems.ReplyShape(b, diag, clock, f[OFF_FC..OFF_FC + PduLength(f)]);
    }
    hide Process, Count, GetBe16, PutBe, HighBit;
  }

  lemma ServeOneMore(b: Bank, diag: Diag, clock: Clock, frames: seq<seq<byte>>, f: seq<byte>)
    requires BankOk(b)
    ensures var e := ServeAll(b, diag, clock, frames);
            var h := Serve(e.bank, e.diag, clock, f);
            ServeAll(b, diag, clock, frames + [f])
            == Aftermath(e.replies + (if h.reply.Some? then [h.reply.value] else []), h.bank, h.diag)
  {
    hide Serve;
    assert (frames + [f])[..|frames + [f]| - 1] == frames;
  }

  lemma {:induction false} ServeAllAppend(b: Bank, diag: Diag, clock: Clock, x: seq<seq<byte>>, y: seq<seq<byte>>)
    requires BankOk(b)
    ensures var e := ServeAll(b, diag, clock, x);
            var f := ServeAll(e.bank, e.diag, clock, y);
            ServeAll(b, diag, clock, x + y) == Aftermath(e.replies + f.replies, f.bank, f.diag)
    decreases |y|
  {
    hide Serve;
    if y == [] {
      assert x + y == x;
      assert ServeAll(b, diag, clock, x).replies + [] == ServeAll(b, diag, clock, x).replies;
    } else {
      var z, l := y[..|y| - 1], y[|y| - 1];
      assert z + [l] == y && x + y == x + z + [l];
      ServeAllAppend(b, diag, clock, x, z);
      ServeOneMore(b, diag, clock, x + z, l);
    }
  }

  /** However a stretch of the stream is cut in two, the frames served, the bytes kept, the replies, the
      registers and the counters are those of the whole stretch. */
  lemma SegmentationInert(b: Bank, diag: Diag, clock: Clock, kept: seq<byte>, s: seq<byte>, t: seq<byte>)
    requires BankOk(b)
    ensures var first := Frames(kept + s);
            var second := Frames(first.rest + t);
            var whole := Frames(kept + (s + t));
            var e := ServeAll(b, diag, clock, first.frames);
            var f := ServeAll(e.bank, e.diag, clock, second.frames);
            && whole == Framed(first.frames + second.frames, second.rest)
            && ServeAll(b, diag, clock, whole.frames) == Aftermath(e.replies + f.replies, f.bank, f.diag)
  {
    hide Frames, ServeAll;
    FramesAppend(kept + s, t);
    assert kept + s + t == kept + (s + t);
    ServeAllAppend(b, diag, clock, Frames(kept + s).frames, Frames(Frames(kept + s).rest + t).frames);
  }

  // ---- a connection ----

  class Conn {
    const server: MbServer.Server
    const rx: array<byte>
    const rsp: array<byte>
    var rx_len: nat
    var open: bool
    /** A reply tcp_write had no memory for, kept for the next poll. */
    var tx_pending: seq<byte>
    ghost var stream: seq<byte>
    ghost var frames: seq<seq<byte>>
    /** Every call of tcp_write. */
    ghost var writes: seq<Write>

    ghost predicate Valid()
      reads this, rx
    {
      && server.Valid() && rx.Length == RX_MAX && rsp.Length == MbServer.PDU_MAX && rx != rsp
      && rx_len < RX_MAX && !Complete(rx[..rx_len])
      && (open ==> Frames(stream) == Framed(frames, rx[..rx_len]))
      && frames <= Frames(stream).frames
      && (open ==> Pending())
      && (!open ==> tx_pending == [])
    }

    /** tx_pending holds the reply kept, if there is one. */
    ghost predicate Pending()
      reads this
    {
      tx_pending == Kept(writes) && (tx_pending != [] <==> After(writes).kept.Some?)
    }

    /** mb_accept_cb, for a free slot */
    constructor (server: MbServer.Server)
      requires server.Valid()
      ensures Valid() && open && stream == [] && frames == [] && writes == [] && this.server == server
      ensures fresh(rx) && fresh(rsp)
    {
      this.server := server;
      rx := new byte[RX_MAX];
      rsp := new byte[MbServer.PDU_MAX];
      rx_len, open, tx_pending, stream, frames, writes := 0, true, [], [], [], [];
    }

    /** mbtcp_adu_process */
    method AduProcess(f: seq<byte>, clock: Clock) returns (reply: Option<seq<byte>>)
      requires server.Valid() && rsp.Length == MbServer.PDU_MAX
      modifies rsp, server.diag_ctr, server.regs`events, server.regs.holding_reg
      ensures Handled(reply, server.regs.View(), server.DiagView())
              == Serve(old(server.regs.View()), old(server.DiagView()), clock, f)
    {
      hide Process, Count, HighBit, GetBe16, PutBe;
      if |f| < OFF_FC + 1 {
        return None;
      }
      if GetBe16(f[2..]) != 0 {
        return Some(f[..4] + PutBe(2, 3) + [f[6], HighBit(f[OFF_FC]), 4]);
      }
      var mbap_len: nat := GetBe16(f[4..]);
      if mbap_len > MBAP_LEN_CLAMP {
        mbap_len := MBAP_LEN_CLAMP;
      }
      var pdu_len := if mbap_len >= 2 then mbap_len - 2 + 1 else 1;
      if pdu_len > |f| - OFF_FC {
        pdu_len := |f| - OFF_FC;
      }
      var ok, rsp_len := server.Process(f[OFF_FC..OFF_FC + pdu_len], rsp, clock);
      if f[6] == 0 || !ok {
        server.DiagCount(NO_RESP);
        return None;
      }
      return Some(f[..2] + PutBe(2, 0) + PutBe(2, rsp_len + 1) + [f[6]] + rsp[..rsp_len]);
    }

    /** process_frame: the reply is given to tcp_write once. */
    method ProcessFrame(clock: Clock) returns (ok: bool)
      requires server.Valid() && rx.Length == RX_MAX && rsp.Length == MbServer.PDU_MAX && rx != rsp
      requires rx_len <= RX_MAX && open && Pending()
      modifies this`rx_len, this`open, this`tx_pending, this`frames, this`writes, rsp,
               server.diag_ctr, server.regs`events, server.regs.holding_reg
      ensures rx_len == 0 && open == ok && frames == old(frames) + [rx[..old(rx_len)]]
      ensures if open then Pending() else tx_pending == []
      ensures var h := Serve(old(server.regs.View()), old(server.DiagView()), clock, rx[..old(rx_len)]);
              && server.regs.View() == h.bank && server.DiagView() == h.diag
              && (h.reply.None? ==> writes == old(writes) && ok)
              && (h.reply.Some? ==> exists e :: writes == old(writes) + [Write(h.reply.value, e)]
                                                && (ok <==> e != Failed))
    {
      ghost var bank0, diag0 := server.regs.View(), server.DiagView();
      var reply := AduProcess(rx[..rx_len], clock);
      ReplySome(bank0, diag0, clock, rx[..rx_len]);
      hide Serve, RepliesOf, After;
      frames := frames + [rx[..rx_len]];
      rx_len := 0;
      if reply == None {
        return true;
      }
      var e: Written := *;
      KeptMore(writes, Write(reply.value, e));
      hide Kept;
      writes := writes + [Write(reply.value, e)];
      match e {
        case Taken =>
          return true;
        case NoMemory =>
          tx_pending := reply.value;
          return true;
        case Failed =>
          Close();
          return false;
      }
    }

    /** mb_poll_cb: the reply kept is given to tcp_write again, and a half frame that has seen no byte for
        500 ms ends the connection. */
    method Poll(stale: bool)
      requires Valid() && open
      modifies this`rx_len, this`open, this`tx_pending, this`writes
      ensures Valid()
      ensures After(old(writes)).kept.None? ==> writes == old(writes)
      ensures After(old(writes)).kept.Some? ==> exists e :: writes == old(writes) + [Retry(e)]
      ensures open <==> (forall w :: w in writes[|old(writes)|..] ==> w.answer != Failed)
                        && !(stale && old(rx_len) > 0)
      ensures open ==> rx_len == old(rx_len)
    {
      hide Frames, Complete, Kept, After, RepliesOf;
      if tx_pending != [] {
        var e: Written := *;
        KeptMore(writes, Retry(e));
        writes := writes + [Retry(e)];
        if e == Taken {
          tx_pending := [];
        } else if e != NoMemory {
          Close();
          NothingThere();
          return;
        }
      }
      if rx_len > 0 && stale {
        Close();
        NothingThere();
      }
    }

    /** mb_conn_close */
    method Close()
      modifies this`rx_len, this`open, this`tx_pending
      ensures !open && rx_len == 0 && tx_pending == []
    {
      open, rx_len, tx_pending := false, 0, [];
    }

    /** The frames handed over since then have had exactly their effects: registers, counters and, in
        order, the replies given to tcp_write. */
    ghost predicate Brought(b: Bank, diag: Diag, clock: Clock, before: seq<seq<byte>>, ws: seq<Write>)
      requires server.Valid() && BankOk(b)
      reads this, server, server.diag_ctr, server.regs, server.regs.holding_reg, server.regs.input_reg
    {
      && before <= frames && ws <= writes
      && Aftermath(RepliesOf(writes[|ws|..]), server.regs.View(), server.DiagView())
         == ServeAll(b, diag, clock, frames[|before|..])
    }

    /** mb_recv_cb, for one pbuf of a chain. However the stream is cut into pieces, the frames handed
        over and the bytes kept are those of the one-shot framer, and registers, counters and replies are
        what those frames make of them, until a write error closes the connection. */
    method Receive(src: seq<byte>, clock: Clock)
      requires Valid() && open && |src| < U16_MOD
      modifies this, rx, rsp, server.diag_ctr, server.regs`events, server.regs.holding_reg
      ensures Valid() && stream == old(stream) + src
      ensures open ==> Frames(stream) == Framed(frames, rx[..rx_len])
      ensures !open ==> frames <= Frames(stream).frames
      ensures Brought(old(server.regs.View()), old(server.DiagView()), clock, old(frames), old(writes))
      ensures open <==> forall w :: w in writes[|old(writes)|..] ==> w.answer != Failed
    {
      hide Frames, GetBe16, Serve, Complete, ServeAll, Kept, After, RepliesOf;
      ghost var before, frames0, writes0 := stream, frames, writes;
      ghost var bank0, diag0 := server.regs.View(), server.DiagView();
      var rem := 0;
      assert stream + src[..0] == stream;
      NothingBrought(bank0, diag0, clock, frames, writes);
      while rem < |src|
        invariant 0 <= rem <= |src| && stream == before + src[..rem]
        invariant Valid() && open && Brought(bank0, diag0, clock, frames0, writes0)
        invariant forall w :: w in writes[|writes0|..] ==> w.answer != Failed
      {
        ghost var frames1, writes1 := frames, writes;
        ghost var bank1, diag1 := server.regs.View(), server.DiagView();
        var n := Consume(src[rem..], clock);
        BroughtJoin(bank0, diag0, bank1, diag1, clock, frames0, frames1, frames, writes0, writes1, writes);
        assert src[rem..][..n] == src[rem..rem + n];
        assert before + src[..rem] + src[rem..rem + n] == before + src[..rem + n];
        assert writes[|writes0|..] == writes1[|writes0|..] + writes[|writes1|..];
        rem := rem + n;
        if !open {
          MoreFrames(stream, src[rem..]);
          stream := stream + src[rem..];
          assert before + src[..rem] + src[rem..] == before + src;
          return;
        }
      }
      assert src[..rem] == src;
    }

    /** One round: as much as the frame under way still wants. */
    method Consume(src: seq<byte>, clock: Clock) returns (n: nat)
      requires Valid() && open && src != []
      modifies this, rx, rsp, server.diag_ctr, server.regs`events, server.regs.holding_reg
      ensures Valid() && 0 < n <= |src| && stream == old(stream) + src[..n]
      ensures Brought(old(server.regs.View()), old(server.DiagView()), clock, old(frames), old(writes))
      ensures open <==> forall w :: w in writes[|old(writes)|..] ==> w.answer != Failed
    {
      hide Frames, GetBe16, Serve, Complete, ServeAll, Kept, After, RepliesOf;
      var want := if rx_len < HEADER then HEADER else Need(rx[..rx_len]);
      ghost var kept := rx[..rx_len];
      RoomLeft(kept, want);
      n := if |src| < want - rx_len then |src| else want - rx_len;
      Take(src[..n]);
      FramesAppend(stream, src[..n]);
      AfterPiece(kept, src[..n], want);
      stream := stream + src[..n];
      NothingBrought(server.regs.View(), server.DiagView(), clock, frames, writes);
      if rx_len >= HEADER && rx_len >= Need(rx[..rx_len]) {
        OneBrought(server.regs.View(), server.DiagView(), clock, rx[..rx_len]);
        var ok := ProcessFrame(clock);
        OneReply(writes[|old(writes)|..]);
        assert rx[..0] == [];
        NothingThere();
      } else {
        StillIncomplete(rx[..rx_len]);
        assert frames + [] == frames;
      }
    }

    /** memcpy into the receive buffer */
    method Take(piece: seq<byte>)
      requires rx.Length == RX_MAX && rx_len + |piece| <= RX_MAX
      modifies this`rx_len, rx
      ensures rx_len == old(rx_len) + |piece| && rx[..rx_len] == old(rx[..rx_len]) + piece
    {
      forall i | 0 <= i < |piece| {
        rx[rx_len + i] := piece[i];
      }
      rx_len := rx_len + |piece|;
    }
  }

  lemma NothingBrought(b: Bank, diag: Diag, clock: Clock, frames: seq<seq<byte>>, ws: seq<Write>)
    requires BankOk(b)
    ensures Aftermath(RepliesOf(ws[|ws|..]), b, diag) == ServeAll(b, diag, clock, frames[|frames|..])
  {
    assert frames[|frames|..] == [] && ws[|ws|..] == [];
  }

  lemma ReplySome(b: Bank, diag: Diag, clock: Clock, f: seq<byte>)
    requires BankOk(b)
    ensures var h := Serve(b, diag, clock, f); h.reply.Some? ==> h.reply.value != []
  {
    if |f| >= HEADER && Serve(b, diag, clock, f).reply.Some? {
      ReplyIsOneFrame(b, diag, clock, f);
    }
  }

  lemma OneBrought(b: Bank, diag: Diag, clock: Clock, f: seq<byte>)
    requires BankOk(b)
    ensures var h := Serve(b, diag, clock, f);
            ServeAll(b, diag, clock, [f])
            == Aftermath(if h.reply.Some? then [h.reply.value] else [], h.bank, h.diag)
  {
    hide Serve;
    ServeOneMore(b, diag, clock, [], f);
    assert [] + [f] == [f];
  }

  lemma BroughtJoin(b0: Bank, d0: Diag, b1: Bank, d1: Diag, clock: Clock, f0: seq<seq<byte>>, f1: seq<seq<byte>>,
                    f2: seq<seq<byte>>, w0: seq<Write>, w1: seq<Write>, w2: seq<Write>)
    requires BankOk(b0) && BankOk(b1) && f0 <= f1 <= f2 && w0 <= w1 <= w2
    requires Aftermath(RepliesOf(w1[|w0|..]), b1, d1) == ServeAll(b0, d0, clock, f1[|f0|..])
    ensures var e := ServeAll(b1, d1, clock, f2[|f1|..]);
            ServeAll(b0, d0, clock, f2[|f0|..])
            == Aftermath(RepliesOf(w1[|w0|..]) + e.replies, e.bank, e.diag)
    ensures RepliesOf(w2[|w0|..]) == RepliesOf(w1[|w0|..]) + RepliesOf(w2[|w1|..])
  {
    hide Serve, ServeAll, RepliesOf;
    ServeAllAppend(b0, d0, clock, f1[|f0|..], f2[|f1|..]);
    assert f2[|f0|..] == f1[|f0|..] + f2[|f1|..];
    assert w2[|w0|..] == w1[|w0|..] + w2[|w1|..];
    RepliesAppend(w1[|w0|..], w2[|w1|..]);
  }

  /** The piece taken fits the buffer and is not empty: every round makes progress. */
  lemma RoomLeft(kept: seq<byte>, want: nat)
    requires !Complete(kept) && want == if |kept| < HEADER then HEADER else Need(kept)
    ensures |kept| < want <= RX_MAX
  {
  }

  /** After a piece of at most what was wanted: still incomplete, or exactly one frame. */
  lemma AfterPiece(kept: seq<byte>, piece: seq<byte>, want: nat)
    requires !Complete(kept) && want == if |kept| < HEADER then HEADER else Need(kept)
    requires |kept + piece| <= want
    ensures var r := kept + piece;
            if |r| >= HEADER && |r| >= Need(r) then Frames(r) == Framed([r], []) else Frames(r) == Framed([], r)
  {
    var r := kept + piece;
    if |kept| >= HEADER {
      SameLength(kept, r);
      assert r[4..][..2] == kept[4..][..2];
    }
    hide GetBe16;
    if Complete(r) {
      assert |r| == FrameLength(r);
      assert r[..|r|] == r && r[|r|..] == [];
      assert Frames([]) == Framed([], []);
    }
  }

  lemma NothingThere()
    ensures !Complete([])
  {
  }

  lemma StillIncomplete(r: seq<byte>)
    requires |r| < HEADER || |r| < Need(r)
    ensures !Complete(r)
  {
  }

  lemma MoreFrames(s: seq<byte>, t: seq<byte>)
    ensures Frames(s).frames <= Frames(s + t).frames
  {
    FramesAppend(s, t);
  }
}
