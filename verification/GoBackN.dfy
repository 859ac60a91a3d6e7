/** Go-back-N between the upgrade tool (tools/firmware_upgrade.py, send_v2) and the device, as a
    system of steps. The network keeps every datagram ever sent and may deliver any of them at any
    time, any number of times or never: loss, duplication and reordering in one. The device drops
    what its queue cannot hold, may fail to post a reply, and may send a reply buffer while it is
    being refilled. */
module GoBackN {
  import opened Bytes
  import opened Common
  import opened FwProtocol

  const WINDOW := 8
  const MAX_RETRIES := 8

  // ---- the network and the device behind it ----

  datatype Net = Net(frames: set<seq<byte>>, dev: Device, replies: set<seq<byte>>)
  datatype Action = Deliver(p: seq<byte>) | Serve(posted: bool) | Answer(slot: nat, copied: nat)

  predicate Possible(n: Net, a: Action) {
    match a
    case Deliver(p) => p in n.frames
    case Serve(_) => Busy(n.dev)
    case Answer(i, _) => CanAnswer(n.dev, i)
  }

  function After(n: Net, a: Action): Net
    requires Possible(n, a)
  {
    match a
    case Deliver(p) => n.(dev := Accept(n.dev, p))
    case Serve(posted) => n.(dev := Work(n.dev, posted))
    case Answer(i, k) =>
      var s := n.dev.slots[i];
      n.(dev := Answered(n.dev, i), replies := n.replies + {Torn(s.prev, s.cur, k)})
  }

  // ---- the host ----

  datatype Phase = Sending | Waiting | Done | Stalled
  datatype Host = Host(phase: Phase, off: nat, w: nat, confirmed: nat, retries: nat)

  function WinEnd(img: seq<byte>, chunk: nat, off: nat): nat {
    Min(off + WINDOW * chunk, |img|)
  }

  /** The top of the outer loop: a new window at off, or the end of the transfer. */
  function Window(img: seq<byte>, off: nat, retries: nat): Host {
    Host(if off < |img| then Sending else Done, off, off, off, retries)
  }

  /** One round of the send loop; after the last frame the host waits. */
  function Sent(img: seq<byte>, chunk: nat, h: Host): Host {
    var w := FrameEnd(img, chunk, h.w);
    if w < WinEnd(img, chunk, h.off) then h.(w := w)
    else h.(phase := Waiting, w := w, confirmed := h.off)
  }

  predicate IsV2(r: seq<byte>) {
    |r| >= 5 && r[0] == DATA_V2
  }

  /** A datagram received while waiting. */
  function Heard(img: seq<byte>, h: Host, r: seq<byte>): Host {
    if IsV2(r) && GetLe32(r[1..]) > h.confirmed
    then h.(confirmed := Min(GetLe32(r[1..]), |img|), retries := 0) else h
  }

  /** The deadline of a window that is not confirmed. */
  function Missed(img: seq<byte>, h: Host): Host {
    if h.retries + 1 > MAX_RETRIES then h.(phase := Stalled, retries := h.retries + 1)
    else Window(img, h.confirmed, h.retries + 1)
  }

  // ---- the whole system ----

  datatype World = World(host: Host, net: Net)
  datatype Step = Send | Hear(r: seq<byte>) | Confirmed | Deadline | Remote(a: Action)

  predicate Enabled(img: seq<byte>, chunk: nat, x: World, s: Step) {
    match s
    case Send => x.host.phase == Sending && x.host.w < |img|
    case Hear(r) =>
      x.host.phase == Waiting && x.host.confirmed < WinEnd(img, chunk, x.host.off) && r in x.net.replies
    case Confirmed => x.host.phase == Waiting && x.host.confirmed >= WinEnd(img, chunk, x.host.off)
    case Deadline => x.host.phase == Waiting && x.host.confirmed < WinEnd(img, chunk, x.host.off)
    case Remote(a) => Possible(x.net, a)
  }

  function Next(img: seq<byte>, chunk: nat, x: World, s: Step): World
    requires Enabled(img, chunk, x, s)
  {
    match s
    case Send =>
      World(Sent(img, chunk, x.host), x.net.(frames := x.net.frames + {Frame(img, chunk, x.host.w)}))
    case Hear(r) => x.(host := Heard(img, x.host, r))
    case Confirmed => x.(host := Window(img, x.host.confirmed, x.host.retries))
    case Deadline => x.(host := Missed(img, x.host))
    case Remote(a) => x.(net := After(x.net, a))
  }

  /** steps can be taken one after the other from x. */
  predicate Run(img: seq<byte>, chunk: nat, x: World, steps: seq<Step>)
    decreases |steps|
  {
    steps == [] ||
    (Enabled(img, chunk, x, steps[0]) && Run(img, chunk, Next(img, chunk, x, steps[0]), steps[1..]))
  }

  function Outcome(img: seq<byte>, chunk: nat, x: World, steps: seq<Step>): World
    requires Run(img, chunk, x, steps)
    decreases |steps|
  {
    if steps == [] then x else Outcome(img, chunk, Next(img, chunk, x, steps[0]), steps[1..])
  }

  /** START has been answered: the session is fresh, no reply is on its way, and nothing but copies
      of START datagrams may still be in the network. */
  predicate Initial(img: seq<byte>, x: World) {
    && x.host == Window(img, 0, 0)
    && (forall p :: p in x.net.frames ==> p != [] && p[0] == START)
    && (forall r :: r in x.net.replies ==> !IsV2(r))
    && x.net.dev.queue == [] && |x.net.dev.slots| == 2
    && x.net.dev.slots[0].pending == 0 && x.net.dev.slots[1].pending == 0
    && x.net.dev.transfer == Transfer(|img|, false, [])
  }

  /** What START admits, and a chunk the device takes. */
  predicate Job(img: seq<byte>, chunk: nat) {
    0 < |img| < U32_MOD && 1 <= chunk <= V2_CHUNK
  }

  // ---- the invariant ----

  predicate KnownFrame(img: seq<byte>, chunk: nat, p: seq<byte>) {
    p != [] && (p[0] == START || exists w :: 0 <= w < |img| && p == Frame(img, chunk, w))
  }

  predicate KnownMsg(img: seq<byte>, chunk: nat, m: Msg) {
    m.cmd == START || (m.cmd == DATA_V2 && exists w :: 0 <= w < |img| && m.data == Payload(img, chunk, w))
  }

  predicate Multiple(n: int, chunk: nat)
    requires chunk > 0
  {
    n == 0 || (n >= chunk && Multiple(n - chunk, chunk))
  }

  /** The offsets at which frames sent from 0 begin and end. */
  predicate OnGrid(img: seq<byte>, chunk: nat, n: nat)
    requires chunk > 0
  {
    n == |img| || Multiple(n, chunk)
  }

  /** A reply of the device, acknowledging no more than n bytes. */
  predicate Acks(r: seq<byte>, n: nat) {
    IsV2(r) ==> GetLe32(r[1..]) <= n
  }

  predicate Shaped(r: seq<byte>) {
    if |r| == 5 then r[0] == DATA_V2 else 1 <= |r| < 5 && r[0] != DATA_V2
  }

  predicate SlotOk(s: Slot, n: nat) {
    s.pending > 0 ==>
      && Shaped(s.prev) && Shaped(s.cur) && Acks(s.prev, n) && Acks(s.cur, n)
      && (|s.prev| == 5 && |s.cur| == 5 ==> GetLe32(s.prev[1..]) <= GetLe32(s.cur[1..]))
  }

  predicate TransferOk(img: seq<byte>, chunk: nat, t: Transfer)
    requires chunk > 0
  {
    t.total == |img| && !t.failed && t.stored <= img && OnGrid(img, chunk, |t.stored|)
  }

  predicate NetOk(img: seq<byte>, chunk: nat, n: Net)
    requires chunk > 0
  {
    && (forall p :: p in n.frames ==> KnownFrame(img, chunk, p))
    && (forall i :: 0 <= i < |n.dev.queue| ==> KnownMsg(img, chunk, n.dev.queue[i]))
    && |n.dev.slots| == 2
    && SlotOk(n.dev.slots[0], |n.dev.transfer.stored|) && SlotOk(n.dev.slots[1], |n.dev.transfer.stored|)
    && TransferOk(img, chunk, n.dev.transfer)
    && (forall r :: r in n.replies ==> Acks(r, |n.dev.transfer.stored|))
  }

  function Spent(h: Host): nat {
    (MAX_RETRIES + 1) * h.confirmed + h.retries + h.off
  }

  predicate HostOk(img: seq<byte>, chunk: nat, h: Host, stored: nat) {
    && h.off <= stored && h.confirmed <= stored && h.off <= h.confirmed && h.w <= |img|
    && h.retries <= MAX_RETRIES + 1 && (h.retries > MAX_RETRIES ==> h.phase == Stalled)
    && (h.confirmed > h.off ==> h.retries == 0)
    && (h.phase == Sending ==> h.off <= h.w < WinEnd(img, chunk, h.off) && h.confirmed == h.off)
    && (h.phase == Waiting ==> h.off < |img|)
    && (h.phase == Done ==> h.off == |img|)
  }

  /** The first frame of the present window has been sent if any has, and so has the very first. */
  predicate FramesSent(img: seq<byte>, chunk: nat, x: World) {
    && (x.host.off < |img| && (x.host.phase == Waiting || x.host.w > x.host.off) ==>
          Frame(img, chunk, x.host.off) in x.net.frames)
    && (0 < |img| && x.host.off > 0 ==> Frame(img, chunk, 0) in x.net.frames)
  }

  predicate Inv(img: seq<byte>, chunk: nat, x: World)
    requires chunk > 0
  {
    && NetOk(img, chunk, x.net) && HostOk(img, chunk, x.host, |x.net.dev.transfer.stored|)
    && FramesSent(img, chunk, x)
  }

  // ---- each step keeps it ----

  /** What a frame of the image does to a transfer of the image. */
  lemma FrameStored(img: seq<byte>, chunk: nat, t: Transfer, w: nat)
    requires Job(img, chunk) && w < |img| && !t.failed && t.total == |img| && t.stored <= img
    ensures var u := Store(t, Msg(DATA_V2, Payload(img, chunk, w)));
            u == if w == |t.stored| then t.(stored := img[..FrameEnd(img, chunk, w)]) else t
  {
    PayloadFields(img, chunk, w);
    hide GetLe32, Payload;
    assert img[..w] + img[w..FrameEnd(img, chunk, w)] == img[..FrameEnd(img, chunk, w)];
  }

  /** Storing a known command extends the stored prefix of the image, or changes nothing. */
  lemma StoreKeeps(img: seq<byte>, chunk: nat, t: Transfer, m: Msg)
    requires Job(img, chunk) && TransferOk(img, chunk, t) && KnownMsg(img, chunk, m)
    ensures TransferOk(img, chunk, Store(t, m)) && t.stored <= Store(t, m).stored
  {
    if m.cmd != START {
      var w :| 0 <= w < |img| && m.data == Payload(img, chunk, w);
      assert m == Msg(DATA_V2, Payload(img, chunk, w));
      FrameStored(img, chunk, t, w);
      hide GetLe32, Payload, Store;
      assert img[..w] <= img[..FrameEnd(img, chunk, w)];
    }
  }

  /** Copying a larger little-endian number over a smaller one, byte by byte from the low end, never
      shows a number larger than the new one. */
  lemma {:induction false} TornValue(a: seq<byte>, b: seq<byte>, k: nat)
    requires |a| == |b| && k <= |b| && Le(a) <= Le(b)
    ensures Le(b[..k] + a[k..]) <= Le(b)
  {
    hide Val, Le;
    if k == 0 {
      assert b[..k] + a[k..] == a;
    } else {
      var mix := b[..k] + a[k..];
      assert mix[1..] == b[1..][..k - 1] + a[1..][k - 1..];
      LeHead(a);
      LeHead(b);
      LeHead(mix);
      TornValue(a[1..], b[1..], k - 1);
    }
  }

  /** Whatever mixture goes out, it acknowledges no more than has been stored. */
  lemma TornAcks(s: Slot, k: nat, n: nat)
    requires s.pending > 0 && SlotOk(s, n)
    ensures Acks(Torn(s.prev, s.cur, k), n)
  {
    var r := Torn(s.prev, s.cur, k);
    if k <= |s.cur| && |s.prev| == 5 {
      if k == 0 {
        assert r == s.prev;
      } else {
        assert r[0] == s.cur[0];
        if s.cur[0] == DATA_V2 {
          var a, b := s.prev[1..], s.cur[1..];
          assert r[1..] == b[..k - 1] + a[k - 1..];
          assert a[..4] == a && b[..4] == b && r[1..][..4] == r[1..];
          TornValue(a, b, k - 1);
        }
      }
    }
  }

  lemma ReplyShape(t: Transfer, m: Msg)
    requires |Store(t, m).stored| < U32_MOD
    ensures Shaped(ReplyTo(t, m)) && Acks(ReplyTo(t, m), |Store(t, m).stored|)
    ensures IsV2(ReplyTo(t, m)) <==> m.cmd != START
    ensures m.cmd != START ==> GetLe32(ReplyTo(t, m)[1..]) == |Store(t, m).stored|
  {
    hide Store;
    StartReplyShape(0);
    V2ReplyValue(|Store(t, m).stored|);
  }

  /** What the network and the device do keeps the invariant, and never loses a stored byte. */
  lemma ActionKeeps(img: seq<byte>, chunk: nat, n: Net, a: Action)
    requires Job(img, chunk) && NetOk(img, chunk, n) && Possible(n, a)
    ensures NetOk(img, chunk, After(n, a))
    ensures n.dev.transfer.stored <= After(n, a).dev.transfer.stored
  {
    match a
    case Deliver(p) =>
      assert KnownFrame(img, chunk, p);
      if p[0] != START {
        var w :| 0 <= w < |img| && p == Frame(img, chunk, w);
        FrameParses(img, chunk, w);
      }
    case Serve(posted) =>
      ServeKeeps(img, chunk, n, posted);
    case Answer(i, k) =>
      TornAcks(n.dev.slots[i], k, |n.dev.transfer.stored|);
  }

  lemma FilledOk(s: Slot, rep: seq<byte>, posted: bool, before: nat, n: nat)
    requires SlotOk(s, before) && before <= n && Shaped(rep) && Acks(rep, n)
    requires |rep| == 5 ==> GetLe32(rep[1..]) == n
    ensures SlotOk(s, n) && SlotOk(Filled(s, rep, posted), n)
  {
    hide GetLe32;
  }

  lemma ServeKeeps(img: seq<byte>, chunk: nat, n: Net, posted: bool)
    requires Job(img, chunk) && NetOk(img, chunk, n) && Busy(n.dev)
    ensures NetOk(img, chunk, After(n, Serve(posted)))
    ensures n.dev.transfer.stored <= After(n, Serve(posted)).dev.transfer.stored
  {
    var m, t := n.dev.queue[0], n.dev.transfer;
    StoreKeeps(img, chunk, t, m);
    ReplyShape(t, m);
    var d := Work(n.dev, posted);
    assert forall i :: 0 <= i < |d.queue| ==> d.queue[i] == n.dev.queue[i + 1];
    hide Store, ReplyTo, GetLe32, KnownMsg, Multiple, TransferOk, KnownFrame;
    var s, stored := n.dev.slots[n.dev.idx % 2], |Store(t, m).stored|;
    FilledOk(s, ReplyTo(t, m), posted, |t.stored|, stored);
    hide Shaped;
  }

  lemma InitialHolds(img: seq<byte>, chunk: nat, x: World)
    requires Job(img, chunk) && Initial(img, x)
    ensures Inv(img, chunk, x)
  {
  }

  lemma SentOk(img: seq<byte>, chunk: nat, h: Host, n: nat)
    requires Job(img, chunk) && HostOk(img, chunk, h, n) && h.phase == Sending
    ensures HostOk(img, chunk, Sent(img, chunk, h), n)
  {
  }

  lemma HeardOk(img: seq<byte>, chunk: nat, h: Host, r: seq<byte>, n: nat)
    requires HostOk(img, chunk, h, n) && h.phase == Waiting && n <= |img| && Acks(r, n)
    ensures HostOk(img, chunk, Heard(img, h, r), n) && Spent(Heard(img, h, r)) >= Spent(h)
    ensures Heard(img, h, r) == h || (IsV2(r) && Heard(img, h, r).confirmed == GetLe32(r[1..]))
  {
    hide GetLe32;
  }

  lemma WindowOk(img: seq<byte>, chunk: nat, h: Host, n: nat)
    requires Job(img, chunk) && HostOk(img, chunk, h, n) && h.phase == Waiting && n <= |img|
    ensures h.confirmed >= WinEnd(img, chunk, h.off) ==>
      HostOk(img, chunk, Window(img, h.confirmed, h.retries), n) && h.confirmed > h.off
    ensures HostOk(img, chunk, Missed(img, h), n)
  {
  }

  lemma StepKeeps(img: seq<byte>, chunk: nat, x: World, s: Step)
    requires Job(img, chunk) && Inv(img, chunk, x) && Enabled(img, chunk, x, s)
    ensures Inv(img, chunk, Next(img, chunk, x, s))
    ensures x.net.dev.transfer.stored <= Next(img, chunk, x, s).net.dev.transfer.stored
  {
    hide GetLe32, Multiple, Frame, IsV2, WinEnd, HostOk, KnownMsg;
    var n := |x.net.dev.transfer.stored|;
    match s
    case Send =>
      SentOk(img, chunk, x.host, n);
      FrameIsKnown(img, chunk, x.host.w);
      SentFrames(img, chunk, x);
    case Hear(r) =>
      HeardOk(img, chunk, x.host, r, n);
    case Confirmed =>
      WindowOk(img, chunk, x.host, n);
      FirstFrame(img, chunk, x);
    case Deadline =>
      WindowOk(img, chunk, x.host, n);
      FirstFrame(img, chunk, x);
    case Remote(a) =>
      hide NetOk;
      ActionKeeps(img, chunk, x.net, a);
      StoredGrows(img, chunk, x, a);
  }

  lemma FrameIsKnown(img: seq<byte>, chunk: nat, w: nat)
    requires w < |img|
    ensures KnownFrame(img, chunk, Frame(img, chunk, w))
  {
  }

  lemma FirstFrame(img: seq<byte>, chunk: nat, x: World)
    requires Job(img, chunk) && Inv(img, chunk, x) && x.host.phase == Waiting
    ensures Frame(img, chunk, 0) in x.net.frames
  {
    hide NetOk, Frame, WinEnd;
  }

  lemma SentFrames(img: seq<byte>, chunk: nat, x: World)
    requires Job(img, chunk) && Inv(img, chunk, x) && Enabled(img, chunk, x, Send)
    ensures FramesSent(img, chunk, Next(img, chunk, x, Send))
  {
    hide NetOk, Frame;
  }

  lemma StoredGrows(img: seq<byte>, chunk: nat, x: World, a: Action)
    requires chunk > 0 && Inv(img, chunk, x) && Possible(x.net, a)
    requires x.net.dev.transfer.stored <= After(x.net, a).dev.transfer.stored
    ensures HostOk(img, chunk, x.host, |After(x.net, a).dev.transfer.stored|)
    ensures After(x.net, a).frames == x.net.frames
  {
    hide NetOk, Frame, WinEnd, Store, Torn, Parse, FramesSent;
  }

  lemma {:induction false} RunKeeps(img: seq<byte>, chunk: nat, x: World, steps: seq<Step>)
    requires Job(img, chunk) && Inv(img, chunk, x) && Run(img, chunk, x, steps)
    ensures Inv(img, chunk, Outcome(img, chunk, x, steps))
    ensures x.net.dev.transfer.stored <= Outcome(img, chunk, x, steps).net.dev.transfer.stored
    decreases |steps|
  {
    if steps != [] {
      StepKeeps(img, chunk, x, steps[0]);
      RunKeeps(img, chunk, Next(img, chunk, x, steps[0]), steps[1..]);
    }
  }

  /** Safety of every run: what the device has accepted is a prefix of the image, ends where a frame
      ends, is never behind what the host believes, and is the whole image when the host is done. */
  lemma Safety(img: seq<byte>, chunk: nat, x: World, steps: seq<Step>)
    requires Job(img, chunk) && Initial(img, x) && Run(img, chunk, x, steps)
    ensures var y := Outcome(img, chunk, x, steps);
            var t := y.net.dev.transfer;
            && !t.failed && t.stored <= img && OnGrid(img, chunk, |t.stored|)
            && y.host.off <= y.host.confirmed <= |t.stored|
            && (y.host.phase == Done ==> y.host.off == |img| && t.stored == img)
  {
    InitialHolds(img, chunk, x);
    RunKeeps(img, chunk, x, steps);
  }

  // ---- progress ----

  /** The commands the device has worked off during a run, in order. */
  function Handled(img: seq<byte>, chunk: nat, x: World, steps: seq<Step>): seq<Msg>
    requires Run(img, chunk, x, steps)
    decreases |steps|
  {
    if steps == [] then []
    else
      (match steps[0]
       case Remote(Serve(_)) => [x.net.dev.queue[0]]
       case _ => [])
      + Handled(img, chunk, Next(img, chunk, x, steps[0]), steps[1..])
  }

  /** The frames from w up to end are among msgs, in order, with anything in between. */
  predicate Among(img: seq<byte>, chunk: nat, msgs: seq<Msg>, w: nat, end: nat)
    requires end <= |img|
    decreases |msgs|
  {
    w >= end ||
    (msgs != [] &&
     Among(img, chunk, msgs[1..],
           if msgs[0] == Msg(DATA_V2, Payload(img, chunk, w)) then FrameEnd(img, chunk, w) else w, end))
  }

  lemma {:induction false} MultipleGap(s: int, w: int, chunk: nat)
    requires chunk > 0 && Multiple(s, chunk) && Multiple(w, chunk) && s > w
    ensures s >= w + chunk
    decreases w
  {
    if w != 0 {
      MultipleGap(s - chunk, w - chunk, chunk);
    }
  }

  /** However the device got here, the frame at w takes it to the end of that frame or finds it
      there already. */
  lemma FrameAdvances(img: seq<byte>, chunk: nat, t: Transfer, w: nat)
    requires Job(img, chunk) && TransferOk(img, chunk, t) && w < |img|
    requires OnGrid(img, chunk, w) && w <= |t.stored|
    ensures |Store(t, Msg(DATA_V2, Payload(img, chunk, w))).stored| >= FrameEnd(img, chunk, w)
    ensures OnGrid(img, chunk, FrameEnd(img, chunk, w))
  {
    FrameStored(img, chunk, t, w);
    if w < |t.stored| < |img| {
      MultipleGap(|t.stored|, w, chunk);
    }
  }

  /** Once the device has worked off the frames of a window in order - in whatever company, and from
      whatever state the losses before left it in - it holds everything up to the window's end. */
  lemma {:induction false} WindowStored(img: seq<byte>, chunk: nat, x: World, steps: seq<Step>, w: nat, end: nat)
    requires Job(img, chunk) && Inv(img, chunk, x) && Run(img, chunk, x, steps)
    requires end <= |img| && OnGrid(img, chunk, w) && w <= |x.net.dev.transfer.stored|
    requires Among(img, chunk, Handled(img, chunk, x, steps), w, end)
    ensures |Outcome(img, chunk, x, steps).net.dev.transfer.stored| >= end
    decreases |steps|
  {
    if w >= end {
      RunKeeps(img, chunk, x, steps);
    } else {
      var y := Next(img, chunk, x, steps[0]);
      StepKeeps(img, chunk, x, steps[0]);
      var rest := Handled(img, chunk, y, steps[1..]);
      match steps[0]
      case Remote(Serve(_)) =>
        var m := x.net.dev.queue[0];
        assert Handled(img, chunk, x, steps)[1..] == rest;
        if m == Msg(DATA_V2, Payload(img, chunk, w)) {
          FrameAdvances(img, chunk, x.net.dev.transfer, w);
          WindowStored(img, chunk, y, steps[1..], FrameEnd(img, chunk, w), end);
        } else {
          WindowStored(img, chunk, y, steps[1..], w, end);
        }
      case _ =>
        assert Handled(img, chunk, x, steps) == rest;
        WindowStored(img, chunk, y, steps[1..], w, end);
    }
  }

  // ---- one round ----

  /** As long as no window ends the host stays in the one it is in. */
  lemma {:induction false} SameWindow(img: seq<byte>, chunk: nat, x: World, steps: seq<Step>)
    requires Run(img, chunk, x, steps) && Rounds(steps) == 0
    requires x.host.phase == Sending || x.host.phase == Waiting
    ensures var h := Outcome(img, chunk, x, steps).host;
            h.off == x.host.off && (h.phase == Sending || h.phase == Waiting)
    decreases |steps|
  {
    if steps != [] {
      hide GetLe32, After, Frame;
      SameWindow(img, chunk, Next(img, chunk, x, steps[0]), steps[1..]);
    }
  }

  /** a, one command worked off, b, and the reply r heard. */
  function Round(a: seq<Step>, posted: bool, b: seq<Step>, r: seq<byte>): seq<Step> {
    a + [Remote(Serve(posted))] + (b + [Hear(r)])
  }

  /** The round goes well: the frames of the window are worked off in order, in whatever company, and what
      the host hears before its deadline is the whole reply to the command worked off last. */
  predicate GoesWell(img: seq<byte>, chunk: nat, x: World, a: seq<Step>, posted: bool, b: seq<Step>, r: seq<byte>) {
    && Run(img, chunk, x, Round(a, posted, b, r)) && Rounds(a) == 0 && Rounds(b) == 0
    && Run(img, chunk, x, a + [Remote(Serve(posted))])
    && Among(img, chunk, Handled(img, chunk, x, a + [Remote(Serve(posted))]), x.host.off,
             WinEnd(img, chunk, x.host.off))
    && Run(img, chunk, x, a)
    && var d := Outcome(img, chunk, x, a).net.dev;
       d.queue != [] && d.queue[0].cmd != START && r == ReplyTo(d.transfer, d.queue[0])
  }

  /** Whatever state the losses before have left - the device behind the window, in it or past it, its
      queue full of old frames - a round that goes well confirms the window up to its end at least, and
      the next window begins where it is confirmed. */
  lemma RoundConfirms(img: seq<byte>, chunk: nat, x: World, a: seq<Step>, posted: bool, b: seq<Step>, r: seq<byte>)
    requires Job(img, chunk) && Inv(img, chunk, x) && OnGrid(img, chunk, x.host.off)
    requires x.host == Window(img, x.host.off, x.host.retries) && x.host.off < |img|
    requires GoesWell(img, chunk, x, a, posted, b, r)
    ensures ConfirmedTo(img, chunk, Outcome(img, chunk, x, Round(a, posted, b, r)), x.host.off)
  {
    var serve := [Remote(Serve(posted))];
    WindowStored(img, chunk, x, a + serve, x.host.off, WinEnd(img, chunk, x.host.off));
    ReplyValue(img, chunk, x, a, posted, r);
    RoundsAppend(a, serve);
    SameWindow(img, chunk, x, a + serve);
    SplitRun(img, chunk, x, a + serve, b + [Hear(r)]);
    hide Inv, GetLe32, Run, Outcome, OnGrid, Handled, Among, WinEnd, ConfirmedTo, ReplyTo;
    HeardAtEnd(img, chunk, Outcome(img, chunk, x, a + serve), b, r);
  }

  /** The window from off is confirmed up to its end, and the next begins there. */
  predicate ConfirmedTo(img: seq<byte>, chunk: nat, y: World, off: nat) {
    && y.host.off == off && y.host.confirmed >= WinEnd(img, chunk, off)
    && Enabled(img, chunk, y, Confirmed)
    && Next(img, chunk, y, Confirmed).host == Window(img, y.host.confirmed, y.host.retries)
  }

  lemma HeardAtEnd(img: seq<byte>, chunk: nat, y: World, b: seq<Step>, r: seq<byte>)
    requires Run(img, chunk, y, b + [Hear(r)]) && Rounds(b) == 0
    requires y.host.phase == Sending || y.host.phase == Waiting
    requires IsV2(r) && WinEnd(img, chunk, y.host.off) <= GetLe32(r[1..])
    ensures ConfirmedTo(img, chunk, Outcome(img, chunk, y, b + [Hear(r)]), y.host.off)
  {
    SplitRun(img, chunk, y, b, [Hear(r)]);
    SameWindow(img, chunk, y, b);
    var z := Outcome(img, chunk, y, b);
    Unfold(img, chunk, z, [Hear(r)]);
    Unfold(img, chunk, Next(img, chunk, z, Hear(r)), [Hear(r)][1..]);
    hide GetLe32, Run, Outcome;
  }

  /** The reply to a data command carries what is stored once it has been worked off. */
  lemma ReplyValue(img: seq<byte>, chunk: nat, x: World, a: seq<Step>, posted: bool, r: seq<byte>)
    requires Job(img, chunk) && Inv(img, chunk, x)
    requires Run(img, chunk, x, a) && Run(img, chunk, x, a + [Remote(Serve(posted))])
    requires var d := Outcome(img, chunk, x, a).net.dev;
             d.queue != [] && d.queue[0].cmd != START && r == ReplyTo(d.transfer, d.queue[0])
    ensures IsV2(r) && GetLe32(r[1..]) == |Outcome(img, chunk, x, a + [Remote(Serve(posted))]).net.dev.transfer.stored|
  {
    var serve := Remote(Serve(posted));
    var y := Outcome(img, chunk, x, a);
    SplitRun(img, chunk, x, a, [serve]);
    RunKeeps(img, chunk, x, a);
    StepKeeps(img, chunk, y, serve);
    Unfold(img, chunk, y, [serve]);
    Unfold(img, chunk, Next(img, chunk, y, serve), [serve][1..]);
    StoredBounded(img, chunk, Next(img, chunk, y, serve));
    ReplyShape(y.net.dev.transfer, y.net.dev.queue[0]);
    hide Inv, GetLe32, Run, Outcome, ReplyTo, Store;
  }

  lemma StoredBounded(img: seq<byte>, chunk: nat, x: World)
    requires chunk > 0 && Inv(img, chunk, x)
    ensures |x.net.dev.transfer.stored| <= |img|
  {
  }

  lemma {:induction false} RoundsAppend(a: seq<Step>, b: seq<Step>)
    ensures Rounds(a + b) == Rounds(a) + Rounds(b)
  {
    if a == [] {
      assert a + b == b;
    } else {
      assert (a + b)[1..] == a[1..] + b;
      RoundsAppend(a[1..], b);
    }
  }

  lemma {:induction false} SplitRun(img: seq<byte>, chunk: nat, x: World, a: seq<Step>, b: seq<Step>)
    requires Run(img, chunk, x, a + b)
    ensures Run(img, chunk, x, a) && Run(img, chunk, Outcome(img, chunk, x, a), b)
    ensures Outcome(img, chunk, x, a + b) == Outcome(img, chunk, Outcome(img, chunk, x, a), b)
    decreases |a|
  {
    if a == [] {
      assert a + b == b;
    } else {
      assert (a + b)[1..] == a[1..] + b;
      hide Next, Enabled;
      SplitRun(img, chunk, Next(img, chunk, x, a[0]), a[1..], b);
    }
  }

  // ---- the rounds end ----

  function Rounds(steps: seq<Step>): nat {
    if steps == [] then 0
    else Ends(steps[0]) + Rounds(steps[1..])
  }

  function Ends(s: Step): nat {
    if s.Confirmed? || s.Deadline? then 1 else 0
  }

  lemma StepCost(img: seq<byte>, chunk: nat, x: World, s: Step)
    requires Job(img, chunk) && Inv(img, chunk, x) && Enabled(img, chunk, x, s)
    ensures Spent(x.host) + Ends(s) <= Spent(Next(img, chunk, x, s).host)
  {
    hide GetLe32, NetOk, FramesSent, After, Frame;
    var n := |x.net.dev.transfer.stored|;
    match s
    case Send =>
    case Hear(r) =>
      HearAcks(img, chunk, x, r);
      HeardOk(img, chunk, x.host, r, n);
    case Confirmed =>
    case Deadline =>
    case Remote(a) =>
  }

  lemma HearAcks(img: seq<byte>, chunk: nat, x: World, r: seq<byte>)
    requires chunk > 0 && Inv(img, chunk, x) && r in x.net.replies
    ensures Acks(r, |x.net.dev.transfer.stored|) && |x.net.dev.transfer.stored| <= |img|
  {
    hide Acks, KnownFrame, KnownMsg, HostOk, FramesSent, SlotOk;
  }

  lemma {:induction false} RoundsCost(img: seq<byte>, chunk: nat, x: World, steps: seq<Step>)
    requires Job(img, chunk) && Inv(img, chunk, x) && Run(img, chunk, x, steps)
    ensures Spent(x.host) + Rounds(steps) <= Spent(Outcome(img, chunk, x, steps).host)
    decreases |steps|
  {
    if steps != [] {
      StepKeeps(img, chunk, x, steps[0]);
      StepCost(img, chunk, x, steps[0]);
      hide Inv, Spent, Next, Enabled, Ends;
      RoundsCost(img, chunk, Next(img, chunk, x, steps[0]), steps[1..]);
    }
  }

  /** No run, however hostile, goes through more windows than this. The bound counts bytes, not frames: a
      reply sent in the middle of a refill can confirm any byte (OffGrid). */
  lemma RoundsBounded(img: seq<byte>, chunk: nat, x: World, steps: seq<Step>)
    requires Job(img, chunk) && Initial(img, x) && Run(img, chunk, x, steps)
    ensures Rounds(steps) <= (MAX_RETRIES + 2) * |img| + MAX_RETRIES + 1
  {
    InitialHolds(img, chunk, x);
    RunKeeps(img, chunk, x, steps);
    RoundsCost(img, chunk, x, steps);
  }

  // ---- no reachable state is a dead end ----

  lemma Prepend(img: seq<byte>, chunk: nat, x: World, s: Step, rest: seq<Step>)
    requires Enabled(img, chunk, x, s) && Run(img, chunk, Next(img, chunk, x, s), rest)
    ensures Run(img, chunk, x, [s] + rest)
    ensures Outcome(img, chunk, x, [s] + rest) == Outcome(img, chunk, Next(img, chunk, x, s), rest)
  {
    assert ([s] + rest)[1..] == rest;
  }

  lemma Unfold(img: seq<byte>, chunk: nat, x: World, a: seq<Step>)
    requires Run(img, chunk, x, a)
    ensures a == [] ==> Outcome(img, chunk, x, a) == x
    ensures a != [] ==>
      && Enabled(img, chunk, x, a[0]) && Run(img, chunk, Next(img, chunk, x, a[0]), a[1..])
      && Outcome(img, chunk, x, a) == Outcome(img, chunk, Next(img, chunk, x, a[0]), a[1..])
  {
  }

  lemma {:induction false} Join(img: seq<byte>, chunk: nat, x: World, a: seq<Step>, b: seq<Step>)
    requires Run(img, chunk, x, a) && Run(img, chunk, Outcome(img, chunk, x, a), b)
    ensures Run(img, chunk, x, a + b)
    ensures Outcome(img, chunk, x, a + b) == Outcome(img, chunk, Outcome(img, chunk, x, a), b)
    decreases |a|
  {
    hide Next, Enabled;
    Unfold(img, chunk, x, a);
    hide Run, Outcome;
    if a == [] {
      assert a + b == b;
    } else {
      Join(img, chunk, Next(img, chunk, x, a[0]), a[1..], b);
      Prepend(img, chunk, x, a[0], a[1..] + b);
      assert a + b == [a[0]] + (a[1..] + b);
    }
  }

  /** The device can always work off its queue. */
  lemma {:induction false} Drain(img: seq<byte>, chunk: nat, x: World) returns (steps: seq<Step>)
    requires Job(img, chunk) && Inv(img, chunk, x)
    ensures Run(img, chunk, x, steps)
    ensures var y := Outcome(img, chunk, x, steps);
            Inv(img, chunk, y) && y.host == x.host && y.net.dev.queue == []
    decreases |x.net.dev.queue|
  {
    if x.net.dev.queue == [] {
      return [];
    }
    var s := Remote(Serve(false));
    assert KnownMsg(img, chunk, x.net.dev.queue[0]);
    StepKeeps(img, chunk, x, s);
    hide Inv, KnownMsg, Store;
    var rest := Drain(img, chunk, Next(img, chunk, x, s));
    Prepend(img, chunk, x, s, rest);
    steps := [s] + rest;
  }

  /** With an empty queue, a frame still in the network is served and its reply goes out. */
  lemma Acknowledged(img: seq<byte>, chunk: nat, x: World, w: nat)
    returns (steps: seq<Step>, r: seq<byte>)
    requires Job(img, chunk) && Inv(img, chunk, x) && x.net.dev.queue == []
    requires w < |img| && w <= |x.net.dev.transfer.stored| && Frame(img, chunk, w) in x.net.frames
    ensures Run(img, chunk, x, steps)
    ensures var y := Outcome(img, chunk, x, steps);
            && Inv(img, chunk, y) && y.host == x.host && r in y.net.replies
            && IsV2(r) && GetLe32(r[1..]) > w && r == V2Reply(|y.net.dev.transfer.stored|)
  {
    var t := x.net.dev.transfer;
    var s1, s2, s3 := Remote(Deliver(Frame(img, chunk, w))), Remote(Serve(true)),
                      Remote(Answer(x.net.dev.idx % 2, 6));
    FrameServed(img, chunk, x.net, w);
    FrameStored(img, chunk, t, w);
    ReplyShape(t, Msg(DATA_V2, Payload(img, chunk, w)));
    r := ReplyTo(t, Msg(DATA_V2, Payload(img, chunk, w)));
    assert GetLe32(r[1..]) > w && r == V2Reply(|Store(t, Msg(DATA_V2, Payload(img, chunk, w))).stored|);
    hide Possible, After, Payload, Frame, GetLe32, IsV2, ReplyTo, Store, V2Reply;
    StepKeeps(img, chunk, x, s1);
    var x1 := Next(img, chunk, x, s1);
    StepKeeps(img, chunk, x1, s2);
    var x2 := Next(img, chunk, x1, s2);
    StepKeeps(img, chunk, x2, s3);
    hide Inv;
    Prepend(img, chunk, x2, s3, []);
    Prepend(img, chunk, x1, s2, [s3] + []);
    Prepend(img, chunk, x, s1, [s2] + ([s3] + []));
    steps := [s1] + ([s2] + ([s3] + []));
  }

  /** Delivering a frame to an idle device, serving it and sending the reply. */
  lemma FrameServed(img: seq<byte>, chunk: nat, n: Net, w: nat)
    requires Job(img, chunk) && w < |img| && Frame(img, chunk, w) in n.frames
    requires n.dev.queue == [] && |n.dev.slots| == 2
    ensures var m := Msg(DATA_V2, Payload(img, chunk, w));
            var a1, a2, a3 := Deliver(Frame(img, chunk, w)), Serve(true), Answer(n.dev.idx % 2, 6);
            && Possible(n, a1) && Possible(After(n, a1), a2) && Possible(After(After(n, a1), a2), a3)
            && var z := After(After(After(n, a1), a2), a3);
               z.dev.transfer == Store(n.dev.transfer, m) && ReplyTo(n.dev.transfer, m) in z.replies
  {
    var m := Msg(DATA_V2, Payload(img, chunk, w));
    FrameParses(img, chunk, w);
    ReplyLength(n.dev.transfer, m);
    hide Payload, Frame, Parse, Store, ReplyTo, V2Reply;
    var n1 := After(n, Deliver(Frame(img, chunk, w)));
    assert n1.dev.queue == [m];
    var n2 := After(n1, Serve(true));
    assert n2.dev.slots[n.dev.idx % 2].cur == ReplyTo(n.dev.transfer, m);
  }

  lemma ReplyLength(t: Transfer, m: Msg)
    ensures |ReplyTo(t, m)| < 6
  {
    hide Store;
    PutLeLength(4, |Store(t, m).stored|);
    PutLeLength(2, V2_CHUNK);
  }

  function Left(img: seq<byte>, chunk: nat, h: Host): nat {
    match h.phase
    case Sending => 3
    case Waiting => if h.confirmed == h.off then 2 else 1
    case _ => 0
  }

  /** From every state that can arise, short of the host having given up, the transfer can still be
      completed. */
  lemma {:induction false} Completable(img: seq<byte>, chunk: nat, x: World) returns (steps: seq<Step>)
    requires Job(img, chunk) && Inv(img, chunk, x) && x.host.phase != Stalled
    ensures Run(img, chunk, x, steps) && Outcome(img, chunk, x, steps).host.phase == Done
    ensures Outcome(img, chunk, x, steps).net.dev.transfer.stored == img
    decreases |img| - x.host.off, Left(img, chunk, x.host), |img| - x.host.w
  {
    if x.host.phase == Done {
      return [];
    }
    if x.host.phase == Waiting && x.host.confirmed == x.host.off {
      steps := Exchange(img, chunk, x);
      var rest := Completable(img, chunk, Outcome(img, chunk, x, steps));
      Join(img, chunk, x, steps, rest);
      steps := steps + rest;
    } else {
      var s := if x.host.phase == Sending then Send
               else if x.host.confirmed >= WinEnd(img, chunk, x.host.off) then Confirmed else Deadline;
      StepKeeps(img, chunk, x, s);
      var rest := Completable(img, chunk, Next(img, chunk, x, s));
      Prepend(img, chunk, x, s, rest);
      steps := [s] + rest;
    }
  }

  lemma Exchange(img: seq<byte>, chunk: nat, x: World) returns (steps: seq<Step>)
    requires Job(img, chunk) && Inv(img, chunk, x)
    requires x.host.phase == Waiting && x.host.confirmed == x.host.off
    ensures Run(img, chunk, x, steps)
    ensures var y := Outcome(img, chunk, x, steps);
            && Inv(img, chunk, y) && y.host.phase == Waiting
            && y.host.off == x.host.off && y.host.confirmed > x.host.off
  {
    steps := Drain(img, chunk, x);
    var y := Outcome(img, chunk, x, steps);
    var more, r := Acknowledged(img, chunk, y, x.host.off);
    Join(img, chunk, x, steps, more);
    var z := Outcome(img, chunk, y, more);
    HearAcks(img, chunk, z, r);
    StepKeeps(img, chunk, z, Hear(r));
    Prepend(img, chunk, z, Hear(r), []);
    Join(img, chunk, x, steps + more, [Hear(r)] + []);
    steps := steps + more + ([Hear(r)] + []);
  }

  /** Every run that has not given up can be continued to a complete transfer. */
  lemma NoDeadEnd(img: seq<byte>, chunk: nat, x: World, steps: seq<Step>) returns (more: seq<Step>)
    requires Job(img, chunk) && Initial(img, x) && Run(img, chunk, x, steps)
    requires Outcome(img, chunk, x, steps).host.phase != Stalled
    ensures Run(img, chunk, x, steps + more)
    ensures var y := Outcome(img, chunk, x, steps + more);
            y.host.phase == Done && y.net.dev.transfer.stored == img
  {
    InitialHolds(img, chunk, x);
    RunKeeps(img, chunk, x, steps);
    more := Completable(img, chunk, Outcome(img, chunk, x, steps));
    Join(img, chunk, x, steps, more);
  }
}
