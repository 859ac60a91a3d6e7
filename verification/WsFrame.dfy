/** WebSocket frames (src/web/ws.c): the format of sections 5.2 and 5.3 of RFC 6455, and the byte-driven
    receiver that takes them apart however the stream is cut. */
module WsFrame {
  import opened Bytes
  import opened Common

  /** A 10 KB upload piece and the widest header. */
  const RX_MAX := 10 * 1024 + 16

  // ---- the format ----

  datatype Form = Short | Medium | Long

  datatype Frame = Frame(fin: bool, op: byte, masked: bool, key: seq<byte>, payload: seq<byte>, form: Form)

  function First(fin: bool, op: byte): byte {
    if fin then op | 0x80 else op
  }

  function Second(masked: bool, len: byte): byte {
    if masked then len | 0x80 else len
  }

  function Top(b: byte): bool { b & 0x80 != 0 }
  function Nibble(b: byte): byte { b & 0x0F }
  function Seven(b: byte): byte { b & 0x7F }
  function Flip(b: byte, k: byte): byte { b ^ k }

  /** Each payload byte is combined with the key byte of its position modulo 4. */
  function Masked(key: seq<byte>, data: seq<byte>): (r: seq<byte>)
    requires |key| == 4
    ensures |r| == |data|
  {
    seq(|data|, i requires 0 <= i < |data| => Flip(data[i], key[i % 4]))
  }

  function LengthCode(f: Frame): byte {
    match f.form
    case Short => ToByte(|f.payload|)
    case Medium => 126
    case Long => 127
  }

  function Extended(f: Frame): seq<byte> {
    match f.form
    case Short => []
    case Medium => PutBe(2, |f.payload|)
    case Long => PutBe(8, |f.payload|)
  }

  predicate FrameOk(f: Frame) {
    && Nibble(f.op) == f.op && !Top(f.op)
    && |f.key| == (if f.masked then 4 else 0)
    && match f.form
       case Short => |f.payload| < 126
       case Medium => |f.payload| < U16_MOD
       case Long => |f.payload| < U16_MOD * U16_MOD * U32_MOD
  }

  function Body(f: Frame): seq<byte>
    requires FrameOk(f)
  {
    if f.masked then Masked(f.key, f.payload) else f.payload
  }

  function Encode(f: Frame): seq<byte>
    requires FrameOk(f)
  {
    [First(f.fin, f.op), Second(f.masked, LengthCode(f))] + Extended(f) + f.key + Body(f)
  }

  function EncodeAll(fs: seq<Frame>): seq<byte>
    requires forall i :: 0 <= i < |fs| ==> FrameOk(fs[i])
  {
    if fs == [] then [] else Encode(fs[0]) + EncodeAll(fs[1..])
  }

  lemma FirstByte(fin: bool, op: byte)
    requires Nibble(op) == op && !Top(op)
    ensures Top(First(fin, op)) == fin && Nibble(First(fin, op)) == op
  {
  }

  lemma SecondByte(masked: bool, len: byte)
    requires Seven(len) == len
    ensures Top(Second(masked, len)) == masked && Seven(Second(masked, len)) == len
  {
  }

  lemma SmallLength(n: nat)
    requires n < 128
    ensures Seven(ToByte(n)) == ToByte(n) && Val(ToByte(n)) == n
  {
    ToByteValue(n);
    SmallSeven(ToByte(n));
  }

  lemma SmallSeven(b: byte)
    requires Val(b) < 128
    ensures Seven(b) == b
  {
    assert b < 128;
  }

  lemma FlipTwice(b: byte, k: byte)
    ensures Flip(Flip(b, k), k) == b
  {
  }

  // ---- the receiver ----

  datatype Phase = Hdr | Len16 | Len64 | Mask | Payload
  datatype Message = Message(op: byte, payload: seq<byte>)

  /** `out` is what has been handed to the dispatcher. */
  datatype Rx = Rx(phase: Phase, pre: seq<byte>, fin: bool, op: byte, masked: bool, key: seq<byte>,
                   plen: nat, body: seq<byte>, out: seq<Message>, open: bool)

  function Idle(out: seq<Message>): Rx {
    Rx(Hdr, [], false, 0, false, [], 0, [], out, true)
  }

  /** A closed session remembers only what it has handed over. */
  function Closed(out: seq<Message>): Rx {
    Idle(out).(open := false)
  }

  function AfterLength(r: Rx, plen: nat): Rx {
    if plen > RX_MAX then Closed(r.out)
    else r.(pre := [], plen := plen, phase := if r.masked then Mask else Payload)
  }

  /** ws_frame_done: fragments, close and unknown opcodes end the session. A text frame that fills the
      whole buffer leaves no room for its terminator and is passed over. */
  function Done(r: Rx): Rx {
    if !r.fin then Closed(r.out)
    else if r.op == 1 then
      Idle(if |r.body| < RX_MAX then r.out + [Message(r.op, r.body)] else r.out)
    else if r.op == 2 || r.op == 9 || r.op == 0x0A then Idle(r.out + [Message(r.op, r.body)])
    else Closed(r.out)
  }

  function Step(r: Rx, b: byte): Rx {
    if !r.open then r
    else
      match r.phase
      case Hdr =>
        if |r.pre| == 0 then r.(pre := [b])
        else
          var h := Rx(Hdr, [], Top(r.pre[0]), Nibble(r.pre[0]), Top(b), [], Val(Seven(b)), [], r.out, true);
          if h.plen == 126 then h.(phase := Len16)
          else if h.plen == 127 then h.(phase := Len64)
          else AfterLength(h, h.plen)
      case Len16 =>
        var pre := r.pre + [b];
        if |pre| == 2 then AfterLength(r, Be(pre)) else r.(pre := pre)
      case Len64 =>
        var pre := r.pre + [b];
        if |pre| == 8 then AfterLength(r, Be(pre)) else r.(pre := pre)
      case Mask =>
        var key := r.key + [b];
        if |key| == 4 then r.(key := key, phase := Payload) else r.(key := key)
      case Payload =>
        if |r.body| >= RX_MAX then Closed(r.out)
        else
          var c := if r.masked && |r.key| == 4 then Flip(b, r.key[|r.body| % 4]) else b;
          var next := r.(body := r.body + [c]);
          if |next.body| == r.plen then Done(next) else next
  }

  /** ws_feed */
  function Feed(r: Rx, data: seq<byte>): Rx
    decreases |data|
  {
    if data == [] then r else Feed(Step(r, data[0]), data[1..])
  }

  /** However the stream is cut, the receiver ends in the same state. */
  lemma {:induction false} FeedAppend(r: Rx, a: seq<byte>, b: seq<byte>)
    ensures Feed(r, a + b) == Feed(Feed(r, a), b)
    decreases |a|
  {
    hide Step;
    if a == [] {
      assert a + b == b;
    } else {
      assert (a + b)[1..] == a[1..] + b;
      FeedAppend(Step(r, a[0]), a[1..], b);
    }
  }

  lemma FeedOne(r: Rx, b: byte)
    ensures Feed(r, [b]) == Step(r, b)
  {
    var s := Step(r, b);
    assert [b][1..] == [] && Feed(s, []) == s;
  }

  // ---- one frame ----

  /** The receiver after the header of f. */
  function Ready(f: Frame, out: seq<Message>): Rx {
    Rx(Payload, [], f.fin, f.op, f.masked, f.key, |f.payload|, [], out, true)
  }

  lemma HeaderRead(f: Frame, out: seq<Message>)
    requires FrameOk(f)
    ensures Feed(Idle(out), [First(f.fin, f.op), Second(f.masked, LengthCode(f))])
            == Rx(match f.form
                  case Short => if f.masked then Mask else Payload
                  case Medium => Len16
                  case Long => Len64,
                  [], f.fin, f.op, f.masked, [], match f.form
                                                 case Short => |f.payload|
                                                 case Medium => 126
                                                 case Long => 127,
                  [], out, true)
  {
    FirstByte(f.fin, f.op);
    SmallLength(126);
    SmallLength(127);
    LengthCodes();
    if f.form.Short? {
      SmallLength(|f.payload|);
    }
    SecondByte(f.masked, LengthCode(f));
    var h := [First(f.fin, f.op), Second(f.masked, LengthCode(f))];
    hide First, Second, Top, Nibble, Seven, ToByte, Val;
    assert h == [h[0]] + [h[1]];
    FeedAppend(Idle(out), [h[0]], [h[1]]);
    FeedOne(Idle(out), h[0]);
    FeedOne(Step(Idle(out), h[0]), h[1]);
  }

  lemma LengthCodes()
    ensures Seven(126) == 126 && Seven(127) == 127 && Val(126) == 126 && Val(127) == 127
  {
  }

  /** Feeding the bytes of a big-endian length of n bytes. */
  lemma {:induction false} LengthRead(r: Rx, bytes: seq<byte>, n: nat)
    requires r.open && ((r.phase == Len16 && n == 2) || (r.phase == Len64 && n == 8))
    requires |r.pre| + |bytes| == n && |bytes| > 0
    ensures Feed(r, bytes) == AfterLength(r.(pre := r.pre + bytes), Be(r.pre + bytes))
    decreases |bytes|
  {
    hide Be;
    assert bytes == [bytes[0]] + bytes[1..];
    if |bytes| == 1 {
      assert r.pre + bytes == r.pre + [bytes[0]];
      FeedOne(r, bytes[0]);
    } else {
      var s := Step(r, bytes[0]);
      assert r.pre + bytes == r.pre + [bytes[0]] + bytes[1..];
      LengthRead(s, bytes[1..], n);
    }
  }

  lemma {:induction false} MaskRead(r: Rx, key: seq<byte>)
    requires r.open && r.phase == Mask && |r.key| + |key| == 4 && |key| > 0
    ensures Feed(r, key) == r.(phase := Payload, key := r.key + key)
    decreases |key|
  {
    assert key == [key[0]] + key[1..];
    if |key| == 1 {
      FeedOne(r, key[0]);
    } else {
      assert r.key + key == r.key + [key[0]] + key[1..];
      MaskRead(Step(r, key[0]), key[1..]);
    }
  }

  /** The receiver after flags and length of f. */
  function Sized(f: Frame, out: seq<Message>): Rx {
    Ready(f, out).(phase := if f.masked then Mask else Payload, key := [])
  }

  lemma ExtendedRead(f: Frame, out: seq<Message>)
    requires FrameOk(f) && |f.payload| <= RX_MAX
    ensures Feed(Feed(Idle(out), [First(f.fin, f.op), Second(f.masked, LengthCode(f))]), Extended(f))
            == Sized(f, out)
  {
    hide First, Second, LengthCode, Feed, PutBe;
    HeaderRead(f, out);
    var r := Feed(Idle(out), [First(f.fin, f.op), Second(f.masked, LengthCode(f))]);
    match f.form
    case Medium => LengthPart(r, 2, |f.payload|);
    case Long => LengthPart(r, 8, |f.payload|);
    case Short => FeedNone(r);
  }

  lemma FeedNone(r: Rx)
    ensures Feed(r, []) == r
  {
  }

  lemma LengthPart(r: Rx, n: nat, len: nat)
    requires r.open && r.pre == [] && ((r.phase == Len16 && n == 2) || (r.phase == Len64 && n == 8))
    requires if n == 2 then len < U16_MOD else len < U16_MOD * U16_MOD * U32_MOD
    ensures Feed(r, PutBe(n, len)) == AfterLength(r, len)
  {
    Widths();
    BeRoundTrip(n, len);
    hide Feed, Be, PutBe;
    LengthRead(r, PutBe(n, len), n);
    assert [] + PutBe(n, len) == PutBe(n, len);
  }

  lemma KeyRead(f: Frame, out: seq<Message>)
    requires FrameOk(f)
    ensures Feed(Sized(f, out), f.key) == Ready(f, out)
  {
    if f.masked {
      MaskRead(Sized(f, out), f.key);
      assert [] + f.key == f.key;
    } else {
      assert f.key == [];
    }
  }

  /** The whole header: flags, length in any of its three forms, key. */
  lemma HeadRead(f: Frame, out: seq<Message>)
    requires FrameOk(f) && |f.payload| <= RX_MAX
    ensures var head := [First(f.fin, f.op), Second(f.masked, LengthCode(f))] + Extended(f) + f.key;
            Feed(Idle(out), head) == Ready(f, out)
  {
    var two, ext := [First(f.fin, f.op), Second(f.masked, LengthCode(f))], Extended(f);
    ExtendedRead(f, out);
    KeyRead(f, out);
    hide First, Second, LengthCode, Extended, Feed, Ready, Sized, Idle;
    FeedAppend(Idle(out), two + ext, f.key);
    FeedAppend(Idle(out), two, ext);
  }

  /** Payload bytes are unmasked as they come; the last one completes the frame. */
  lemma {:induction false} BodyRead(f: Frame, out: seq<Message>, k: nat)
    requires FrameOk(f) && |f.payload| <= RX_MAX && k < |f.payload|
    ensures Feed(Ready(f, out).(body := f.payload[..k]), Body(f)[k..])
            == Done(Ready(f, out).(body := f.payload))
    decreases |f.payload| - k
  {
    var r, rest := Ready(f, out).(body := f.payload[..k]), Body(f)[k..];
    var c := f.payload[k];
    if f.masked {
      FlipTwice(c, f.key[k % 4]);
    }
    hide Flip, Done;
    assert f.payload[..k] + [c] == f.payload[..k + 1];
    assert rest[0] == Body(f)[k] && rest[1..] == Body(f)[k + 1..];
    assert f.payload[..|f.payload|] == f.payload;
    var s := Step(r, rest[0]);
    assert s == if k + 1 == |f.payload| then Done(Ready(f, out).(body := f.payload))
                else Ready(f, out).(body := f.payload[..k + 1]);
    hide Step, Body, Ready;
    if k + 1 == |f.payload| {
      assert rest == [rest[0]];
      FeedOne(r, rest[0]);
    } else {
      BodyRead(f, out, k + 1);
    }
  }

  /** One frame with a payload, in any of its length forms, masked or not. */
  lemma FrameRead(f: Frame, out: seq<Message>)
    requires FrameOk(f) && 1 <= |f.payload| <= RX_MAX
    ensures Feed(Idle(out), Encode(f)) == Done(Ready(f, out).(body := f.payload))
  {
    var head := [First(f.fin, f.op), Second(f.masked, LengthCode(f))] + Extended(f) + f.key;
    HeadRead(f, out);
    BodyRead(f, out, 0);
    hide First, Second, LengthCode, Extended, Body, Done;
    FeedAppend(Idle(out), head, Body(f));
    assert Encode(f) == head + Body(f);
    assert Body(f)[0..] == Body(f) && f.payload[..0] == [];
  }

  /** A frame with more payload than the buffer holds ends the session. */
  lemma TooLong(f: Frame, out: seq<Message>)
    requires FrameOk(f) && |f.payload| > RX_MAX
    ensures Feed(Idle(out), Encode(f)) == Closed(out)
  {
    hide First, Second, LengthCode, Feed, PutBe, Extended, Body, Encode;
    HeaderRead(f, out);
    var two := [First(f.fin, f.op), Second(f.masked, LengthCode(f))];
    var r := Feed(Idle(out), two);
    LengthPart(r, if f.form.Medium? then 2 else 8, |f.payload|);
    FeedAppend(Idle(out), two, Extended(f));
    assert Extended(f) == PutBe(if f.form.Medium? then 2 else 8, |f.payload|) by { ExtendedIs(f); }
    assert Feed(Idle(out), two + Extended(f)) == Closed(out);
    FeedAppend(Idle(out), two + Extended(f), f.key + Body(f));
    StaysClosed(Closed(out), f.key + Body(f));
    Parts(f);
  }

  lemma ExtendedIs(f: Frame)
    requires !f.form.Short?
    ensures Extended(f) == PutBe(if f.form.Medium? then 2 else 8, |f.payload|)
  {
  }

  lemma Parts(f: Frame)
    requires FrameOk(f)
    ensures Encode(f) == [First(f.fin, f.op), Second(f.masked, LengthCode(f))] + Extended(f) + (f.key + Body(f))
  {
  }

  /** A frame without payload never completes: everything after it is swallowed, until the buffer is
      full and the session is closed. */
  lemma {:induction false} Swallow(r: Rx, rest: seq<byte>)
    requires r.open && r.phase == Payload && r.plen == 0
    ensures Feed(r, rest).out == r.out
    ensures |r.body| <= RX_MAX ==> (Feed(r, rest).open <==> |r.body| + |rest| <= RX_MAX)
    decreases |rest|
  {
    hide Done, Flip;
    if rest != [] {
      var s := Step(r, rest[0]);
      if s.open {
        Swallow(s, rest[1..]);
      } else {
        StaysClosed(s, rest[1..]);
      }
    }
  }

  lemma {:induction false} StaysClosed(r: Rx, rest: seq<byte>)
    requires !r.open
    ensures Feed(r, rest) == r
    decreases |rest|
  {
    if rest != [] {
      StaysClosed(r, rest[1..]);
    }
  }

  // ---- streams of frames ----

  /** A frame this server handles: whole, of a known kind, and not too long. */
  predicate Handled(f: Frame) {
    && FrameOk(f) && f.fin && (f.op == 1 || f.op == 2 || f.op == 9 || f.op == 0x0A)
    && |f.payload| <= RX_MAX && (f.op == 1 ==> |f.payload| < RX_MAX)
  }

  predicate AllHandled(fs: seq<Frame>) {
    forall i :: 0 <= i < |fs| ==> Handled(fs[i])
  }

  function Messages(fs: seq<Frame>): (ms: seq<Message>)
    ensures |ms| == |fs|
  {
    seq(|fs|, i requires 0 <= i < |fs| => Message(fs[i].op, fs[i].payload))
  }

  lemma Delivered(f: Frame, out: seq<Message>)
    requires Handled(f) && f.payload != []
    ensures Feed(Idle(out), Encode(f)) == Idle(out + [Message(f.op, f.payload)])
  {
    FrameRead(f, out);
    hide Encode, Feed;
  }

  lemma {:induction false} StreamRead(fs: seq<Frame>, out: seq<Message>)
    requires AllHandled(fs) && forall i :: 0 <= i < |fs| ==> fs[i].payload != []
    ensures Feed(Idle(out), EncodeAll(fs)) == Idle(out + Messages(fs))
    decreases |fs|
  {
    hide Encode, Step, FrameOk;
    if fs == [] {
      assert out + Messages(fs) == out;
    } else {
      var f, m := fs[0], Message(fs[0].op, fs[0].payload);
      Delivered(f, out);
      FeedAppend(Idle(out), Encode(f), EncodeAll(fs[1..]));
      assert AllHandled(fs[1..]);
      hide Feed, Idle;
      StreamRead(fs[1..], out + [m]);
      assert out + [m] + Messages(fs[1..]) == out + Messages(fs);
    }
  }

  /** A stream of frames delivers exactly its messages, in order, if and only if none of them is
      empty; after an empty one nothing is delivered any more. */
  lemma {:induction false} StreamReadIff(fs: seq<Frame>, out: seq<Message>)
    requires AllHandled(fs)
    ensures Feed(Idle(out), EncodeAll(fs)).out == out + Messages(fs)
            <==> forall i :: 0 <= i < |fs| ==> fs[i].payload != []
  {
    if exists i :: 0 <= i < |fs| && fs[i].payload == [] {
      var i: nat := FirstEmpty(fs);
      EmptyStops(fs, i, out);
      assert |Messages(fs[..i])| < |Messages(fs)|;
    } else {
      StreamRead(fs, out);
    }
  }

  lemma EmptyStops(fs: seq<Frame>, i: nat, out: seq<Message>)
    requires AllHandled(fs) && i < |fs| && fs[i].payload == [] && forall j :: 0 <= j < i ==> fs[j].payload != []
    ensures Feed(Idle(out), EncodeAll(fs)).out == out + Messages(fs[..i])
  {
    hide Encode, EncodeAll, Step, Feed, Idle, FrameOk, Messages;
    EncodeAround(fs, i);
    StreamRead(fs[..i], out);
    EmptyRead(fs[i], out + Messages(fs[..i]));
    SwallowAfter(Idle(out), EncodeAll(fs[..i]), Encode(fs[i]), EncodeAll(fs[i + 1..]), fs[i], out + Messages(fs[..i]));
  }

  lemma PartsHandled(fs: seq<Frame>, i: nat)
    requires AllHandled(fs) && i < |fs|
    ensures AllHandled(fs[..i]) && AllHandled(fs[i + 1..]) && Handled(fs[i]) && AllHandled(fs[1..])
  {
    hide Handled;
  }

  lemma {:induction false} EncodeAround(fs: seq<Frame>, i: nat)
    requires AllHandled(fs) && i < |fs|
    ensures AllHandled(fs[..i]) && AllHandled(fs[i + 1..])
    ensures EncodeAll(fs) == EncodeAll(fs[..i]) + (Encode(fs[i]) + EncodeAll(fs[i + 1..]))
    decreases i
  {
    hide Encode, FrameOk;
    PartsHandled(fs, i);
    if i == 0 {
      assert fs[..0] == [];
    } else {
      EncodeAround(fs[1..], i - 1);
      assert fs[1..][..i - 1] == fs[..i][1..] && fs[1..][i..] == fs[i + 1..];
      var e, f, l := EncodeAll(fs[..i][1..]), Encode(fs[i]), EncodeAll(fs[i + 1..]);
      assert Encode(fs[0]) + (e + (f + l)) == Encode(fs[0]) + e + (f + l);
    }
  }

  lemma SwallowAfter(r: Rx, a: seq<byte>, e: seq<byte>, l: seq<byte>, f: Frame, had: seq<Message>)
    requires f.payload == [] && Feed(r, a) == Idle(had) && Feed(Idle(had), e) == Ready(f, had)
    ensures Feed(r, a + (e + l)).out == had
  {
    FeedAppend(r, a, e + l);
    FeedAppend(Idle(had), e, l);
    Swallow(Ready(f, had), l);
    hide Feed, Step;
  }

  lemma EmptyRead(f: Frame, out: seq<Message>)
    requires FrameOk(f) && f.payload == []
    ensures Feed(Idle(out), Encode(f)) == Ready(f, out)
  {
    HeadRead(f, out);
    assert Body(f) == [];
    hide First, Second, LengthCode, Extended;
    var head := [First(f.fin, f.op), Second(f.masked, LengthCode(f))] + Extended(f) + f.key;
    assert Encode(f) == head;
  }

  lemma {:induction false} FirstEmpty(fs: seq<Frame>) returns (i: nat)
    requires exists i :: 0 <= i < |fs| && fs[i].payload == []
    ensures i < |fs| && fs[i].payload == [] && forall j :: 0 <= j < i ==> fs[j].payload != []
  {
    i := 0;
    while fs[i].payload != []
      invariant i < |fs| && forall j :: 0 <= j < i ==> fs[j].payload != []
      decreases |fs| - i
    {
      i := i + 1;
    }
  }

  // ---- the sender ----

  /** What ws_send puts on the wire: final, unmasked, the shortest length form. */
  function ServerFrame(op: byte, payload: seq<byte>): Frame {
    Frame(true, op, false, [], payload,
          if |payload| < 126 then Short else if |payload| <= 0xFFFF then Medium else Long)
  }

  /** The receiver, fed whatever the sender sends: a data, ping or pong frame is delivered with its opcode
      and payload; close and unknown opcodes, and more than the buffer holds, end the session; an empty
      frame is not completed, whatever its opcode. */
  lemma SendRoundTrip(op: byte, payload: seq<byte>, out: seq<Message>)
    requires FrameOk(ServerFrame(op, payload))
    ensures Feed(Idle(out), Encode(ServerFrame(op, payload)))
            == if payload == [] then Ready(ServerFrame(op, payload), out)
               else if |payload| > RX_MAX || !(op == 1 || op == 2 || op == 9 || op == 0x0A) then Closed(out)
               else if op == 1 && |payload| == RX_MAX then Idle(out)
               else Idle(out + [Message(op, payload)])
  {
    var f := ServerFrame(op, payload);
    if payload == [] {
      EmptyRead(f, out);
    } else if |payload| > RX_MAX {
      TooLong(f, out);
    } else {
      FrameRead(f, out);
    }
    hide Encode, Feed;
  }

  /** A frame without mask as a client takes it apart in one go, and what follows it. */
  datatype Decoded = Decoded(fin: bool, op: byte, payload: seq<byte>, rest: seq<byte>)

  /** Where the payload begins and how long it is, once the header is there. */
  function PlainHeader(b: seq<byte>): Option<(nat, nat)> {
    if |b| < 2 || Top(b[1]) then None
    else if Seven(b[1]) == 126 then if |b| < 4 then None else Some((4, Be(b[2..4])))
    else if Seven(b[1]) == 127 then if |b| < 10 then None else Some((10, Be(b[2..10])))
    else Some((2, Val(Seven(b[1]))))
  }

  function DecodePlain(b: seq<byte>): Option<Decoded> {
    match PlainHeader(b)
    case None => None
    case Some((at, len)) =>
      if |b| < 2 || |b| < at + len then None
      else Some(Decoded(Top(b[0]), Nibble(b[0]), b[at..at + len], b[at + len..]))
  }

  function HeaderOf(op: byte, len: nat): seq<byte> {
    [First(true, op)] + if len < 126 then [ToByte(len)] else if len <= 0xFFFF then [126] + PutBe(2, len)
                        else [127] + PutBe(8, len)
  }

  lemma ServerHeader(op: byte, payload: seq<byte>)
    requires FrameOk(ServerFrame(op, payload))
    ensures Encode(ServerFrame(op, payload)) == HeaderOf(op, |payload|) + payload
  {
    SecondIs(ToByte(|payload|));
    SecondIs(126);
    SecondIs(127);
    hide First, Second, ToByte, PutBe;
  }

  lemma SecondIs(len: byte)
    ensures Second(false, len) == len
  {
  }

  /** Whatever the server sends - any opcode, close included, any payload, empty included - is taken apart
      into that opcode and payload, whatever follows. */
  lemma SendDecodes(op: byte, payload: seq<byte>, rest: seq<byte>)
    requires FrameOk(ServerFrame(op, payload))
    ensures DecodePlain(Encode(ServerFrame(op, payload)) + rest) == Some(Decoded(true, op, payload, rest))
  {
    var len := |payload|;
    var h := HeaderOf(op, len);
    ServerHeader(op, payload);
    HeaderDecodes(op, len, payload + rest);
    FirstByte(true, op);
    assert h[0] == First(true, op);
    hide HeaderOf, PlainHeader, First, Encode, Top, Nibble;
    assert h + (payload + rest) == h + payload + rest;
    Sliced(h, payload, rest);
  }

  lemma Sliced(h: seq<byte>, payload: seq<byte>, rest: seq<byte>)
    ensures var b := h + payload + rest;
            b[|h|..|h| + |payload|] == payload && b[|h| + |payload|..] == rest
  {
  }

  /** The header says how long it is and how long the payload. */
  lemma HeaderDecodes(op: byte, len: nat, after: seq<byte>)
    requires len < U16_MOD * U16_MOD * U32_MOD
    ensures PlainHeader(HeaderOf(op, len) + after) == Some((|HeaderOf(op, len)|, len))
  {
    var h := HeaderOf(op, len);
    LengthCodes();
    Widths();
    PlainCodes();
    hide First, Top, Seven, ToByte, Val, PutBe, Be;
    if len < 126 {
      SmallLength(len);
      NotCode(len);
      assert (h + after)[1] == ToByte(len);
    } else if len <= 0xFFFF {
      BeRoundTrip(2, len);
      assert (h + after)[1] == 126 && (h + after)[2..4] == PutBe(2, len);
    } else {
      BeRoundTrip(8, len);
      assert (h + after)[1] == 127 && (h + after)[2..10] == PutBe(8, len);
    }
  }

  lemma PlainCodes()
    ensures !Top(126) && !Top(127)
  {
  }

  lemma NotCode(n: nat)
    requires n < 126 && Val(ToByte(n)) == n && Seven(ToByte(n)) == ToByte(n)
    ensures ToByte(n) != 126 && ToByte(n) != 127 && !Top(ToByte(n))
  {
    var b := ToByte(n);
    hide ToByte;
    ByteBelow(b);
  }

  lemma ByteBelow(b: byte)
    requires Val(b) < 126
    ensures b != 126 && b != 127 && !Top(b)
  {
    assert b < 126;
  }

  /** A header that goes out alone makes the next bytes, whatever frames they are, its payload. */
  lemma HeaderAlone(op: byte, payload: seq<byte>, late: seq<byte>, out: seq<Message>)
    requires Handled(ServerFrame(op, payload)) && payload != [] && |late| >= |payload|
    ensures Feed(Idle(out), HeaderOf(op, |payload|) + late)
            == Feed(Idle(out + [Message(op, late[..|payload|])]), late[|payload|..])
  {
    hide Encode, Feed, HeaderOf, Idle, Nibble, Top;
    var taken := late[..|payload|];
    SendRoundTrip(op, taken, out);
    ServerHeader(op, taken);
    hide Handled, ServerFrame, FrameOk;
    FeedAppend(Idle(out), HeaderOf(op, |payload|) + taken, late[|payload|..]);
    assert HeaderOf(op, |payload|) + late == HeaderOf(op, |payload|) + taken + late[|payload|..];
  }
}
