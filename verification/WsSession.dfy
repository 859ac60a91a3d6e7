/** The WebSocket session of src/web/ws.c: ws_feed on its own buffers, and ws_send. */
module WsSession {
  import opened Bytes
  import opened WsFrame

  class Session {
    const hdr: array<byte>
    const mask: array<byte>
    const payload: array<byte>
    var active: bool
    var state: Phase
    var hdr_got: nat
    var fin: bool
    var op: byte
    var masked: bool
    var plen: nat
    var got: nat
    ghost var out: seq<Message>

    ghost predicate Valid()
      reads this
    {
      && hdr.Length == 10 && mask.Length == 4 && payload.Length == RX_MAX
      && hdr != mask && hdr != payload && mask != payload
      && (active ==> hdr_got < (match state
                                case Hdr => 2
                                case Len16 => 2
                                case Len64 => 8
                                case Mask => 4
                                case Payload => 4))
      && got <= RX_MAX && (state != Payload ==> state == Hdr || got == 0)
      && (state == Mask ==> masked)
    }

    ghost function View(): (r: Rx)
      requires Valid()
      reads this, hdr, mask, payload
    {
      if !active then Closed(out)
      else
        match state
        case Hdr => Idle(out).(pre := hdr[..hdr_got])
        case Len16 => Rx(Len16, hdr[..hdr_got], fin, op, masked, [], 126, [], out, true)
        case Len64 => Rx(Len64, hdr[..hdr_got], fin, op, masked, [], 127, [], out, true)
        case Mask => Rx(Mask, [], fin, op, masked, mask[..hdr_got], plen, [], out, true)
        case Payload =>
          Rx(Payload, [], fin, op, masked, if masked then mask[..] else [], plen, payload[..got], out, true)
    }

    /** ws_attach, without bytes pending */
    constructor ()
      ensures Valid() && View() == Idle([]) && fresh(hdr) && fresh(mask) && fresh(payload)
    {
      hdr, mask, payload := new byte[10], new byte[4], new byte[RX_MAX];
      active, state, hdr_got, fin, op, masked, plen, got, out := true, Hdr, 0, false, 0, false, 0, 0, [];
    }

    /** ws_feed */
    method Feed(data: seq<byte>)
      requires Valid()
      modifies this, hdr, mask, payload
      ensures Valid() && View() == WsFrame.Feed(old(View()), data)
    {
      if !active {
        StaysClosed(View(), data);
        return;
      }
      hide Step, WsFrame.Feed, View;
      var i := 0;
      assert data[..0] == [];
      FeedNone(View());
      while i < |data|
        invariant 0 <= i <= |data| && Valid() && active
        invariant View() == WsFrame.Feed(old(View()), data[..i])
      {
        FeedAppend(old(View()), data[..i], [data[i]]);
        FeedOne(View(), data[i]);
        FeedByte(data[i]);
        assert data[..i] + [data[i]] == data[..i + 1];
        i := i + 1;
        if !active {
          FeedAppend(old(View()), data[..i], data[i..]);
          ClosedView();
          StaysClosed(View(), data[i..]);
          assert data[..i] + data[i..] == data;
          return;
        }
      }
      assert data[..i] == data;
    }

    lemma ClosedView()
      requires Valid() && !active
      ensures !View().open
    {
    }

    /** One round of the switch. */
    method FeedByte(b: byte)
      requires Valid() && active
      modifies this, hdr, mask, payload
      ensures Valid() && View() == Step(old(View()), b)
    {
      match state {
        case Hdr => HeaderByte(b);
        case Len16 => LengthByte(b, 2);
        case Len64 => LengthByte(b, 8);
        case Mask => MaskByte(b);
        case Payload => PayloadByte(b);
      }
    }

    method HeaderByte(b: byte)
      requires Valid() && active && state == Hdr
      modifies this, hdr
      ensures Valid() && View() == Step(old(View()), b)
    {
      hdr[hdr_got] := b;
      hdr_got := hdr_got + 1;
      if hdr_got < 2 {
        hide Top, Nibble, Seven, Val;
        assert hdr[..hdr_got] == [b];
        return;
      }
      assert old(hdr[..hdr_got]) == [hdr[0]];
      Flags(hdr[0], b);
      ghost var h := Rx(Hdr, [], Top(hdr[0]), Nibble(hdr[0]), Top(b), [], Val(Seven(b)), [], out, true);
      assert old(View()) == Idle(out).(pre := [hdr[0]]);
      hide Top, Nibble, Seven, Val, View;
      assert Step(old(View()), b) == HeaderStep(h);
    }

    /** What the two header bytes say. */
    method Flags(h0: byte, h1: byte)
      requires hdr.Length == 10 && mask.Length == 4 && payload.Length == RX_MAX
      requires hdr != mask && hdr != payload && mask != payload && active
      modifies this`fin, this`op, this`masked, this`plen, this`got, this`hdr_got, this`state
      ensures Valid()
      ensures View() == HeaderStep(Rx(Hdr, [], Top(h0), Nibble(h0), Top(h1), [], Val(Seven(h1)), [], out, true))
    {
      hide Top, Nibble, Seven, Val;
      fin, op, masked := Top(h0), Nibble(h0), Top(h1);
      plen, got, hdr_got := Val(Seven(h1)), 0, 0;
      SevenBits(h1);
      if plen == 126 {
        state := Len16;
      } else if plen == 127 {
        state := Len64;
      } else {
        state := if masked then Mask else Payload;
      }
      KeyNow();
    }

    /** Where the payload or the key begins, nothing of it has come yet. */
    lemma KeyNow()
      requires Valid() && got == 0 && hdr_got == 0
      ensures payload[..got] == [] && mask[..hdr_got] == [] && hdr[..hdr_got] == []
    {
    }

    /** WS_LEN16 and WS_LEN64. */
    method LengthByte(b: byte, n: nat)
      requires Valid() && active && ((state == Len16 && n == 2) || (state == Len64 && n == 8))
      modifies this, hdr
      ensures Valid() && View() == Step(old(View()), b)
    {
      hide Be;
      hdr[hdr_got] := b;
      hdr_got := hdr_got + 1;
      assert hdr[..hdr_got] == old(hdr[..hdr_got]) + [b];
      if hdr_got == n {
        var v := Combine(n);
        if v > RX_MAX {
          active := false;
          return;
        }
        plen, hdr_got := v, 0;
        state := if masked then Mask else Payload;
        KeyNow();
      }
    }

    /** The extended length, byte by byte. */
    method Combine(n: nat) returns (v: nat)
      requires hdr.Length == 10 && n <= 8
      ensures v == Be(hdr[..n])
    {
      v := 0;
      for i := 0 to n
        invariant v == Be(hdr[..i])
      {
        assert hdr[..i + 1][..i] == hdr[..i];
        v := 256 * v + Val(hdr[i]);
      }
    }

    method MaskByte(b: byte)
      requires Valid() && active && state == Mask
      modifies this, mask
      ensures Valid() && View() == Step(old(View()), b)
    {
      mask[hdr_got] := b;
      hdr_got := hdr_got + 1;
      assert mask[..hdr_got] == old(mask[..hdr_got]) + [b];
      if hdr_got == 4 {
        assert mask[..4] == mask[..];
        hdr_got := 0;
        state := Payload;
        KeyNow();
      }
    }

    method PayloadByte(b: byte)
      requires Valid() && active && state == Payload
      modifies this, payload
      ensures Valid() && View() == Step(old(View()), b)
    {
      hide Flip;
      var idx := got;
      if idx >= RX_MAX {
        active := false;
        return;
      }
      payload[idx] := if masked then Flip(b, mask[idx % 4]) else b;
      got := idx + 1;
      assert payload[..got] == old(payload[..got]) + [payload[idx]];
      if got == plen {
        FrameDone();
      }
    }

    /** ws_frame_done, and the return to the header state. What a message does is its handler's affair. */
    method FrameDone()
      requires Valid() && active && state == Payload
      modifies this
      ensures Valid() && View() == Done(old(View()))
    {
      if !fin {
        active := false;
        return;
      }
      if op == 1 {
        if got < RX_MAX {
          out := out + [Message(op, payload[..got])];
        }
      } else if op == 2 || op == 9 || op == 0x0A {
        out := out + [Message(op, payload[..got])];
      } else {
        active := false;
        return;
      }
      state, hdr_got := Hdr, 0;
      assert hdr[..0] == [];
    }

    /** ws_send. `snd` is the room in the send window; tcp_write may refuse the header, or take it and
        refuse the payload. */
    method Send(opcode: byte, data: seq<byte>, snd: u16) returns (wire: seq<byte>, whole: bool)
      requires Valid() && FrameOk(ServerFrame(opcode, data))
      ensures wire == [] || wire == HeaderOf(opcode, |data|) || wire == Encode(ServerFrame(opcode, data))
      ensures whole <==> active && wire == Encode(ServerFrame(opcode, data))
      ensures !active || snd < |Encode(ServerFrame(opcode, data))| ==> wire == []
    {
      hide First, ToByte;
      ServerHeader(opcode, data);
      if !active {
        return [], false;
      }
      if |data| > 0xFFFF {
        // no window of 16 bits has room for it
        return [], false;
      }
      var h := [First(true, opcode)];
      if |data| < 126 {
        h := h + [ToByte(|data|)];
      } else {
        h := h + [126];
        h := h + [ToByte(|data| / 256)];
        h := h + [ToByte(|data|)];
        TwoBytes(|data|);
      }
      assert h == HeaderOf(opcode, |data|);
      if snd < |h| + |data| {
        return [], false;
      }
      var taken: bool := *;
      if !taken {
        return [], false;
      }
      if |data| == 0 {
        return h, true;
      }
      var rest: bool := *;
      wire := if rest then h + data else h;
      whole := rest;
    }
  }

  /** The second header byte, its flags taken apart. */
  function HeaderStep(h: Rx): Rx {
    if h.plen == 126 then h.(phase := Len16)
    else if h.plen == 127 then h.(phase := Len64)
    else AfterLength(h, h.plen)
  }

  lemma SevenBits(b: byte)
    ensures Val(Seven(b)) <= 127
  {
    assert Seven(b) <= 127;
  }

  lemma TwoBytes(n: nat)
    ensures PutBe(2, n) == [ToByte(n / 256), ToByte(n)]
  {
    hide ToByte;
    assert PutBe(0, n / 256 / 256) == [];
    assert PutBe(1, n / 256) == [ToByte(n / 256)];
  }
}
