/** The data phase of a CAN upgrade: send_data of tools/firmware_upgrade_can.py against the data handler
    of the device, on a bus that loses and reorders nothing but delivers as late as it likes. */
module CanLockstep {
  import opened Bytes
  import opened Common
  import opened CanProtocol

  const ACK_FRAMES := 64

  datatype Phase = Sending | Waiting | Done | Failed
  datatype Host = Host(phase: Phase, off: nat, n: nat)

  /** Frames under way, what the device has stored, and its replies under way. */
  datatype World = World(host: Host, bus: seq<seq<byte>>, stored: seq<byte>, replies: seq<Reply>)

  datatype Step = Send | Handle | Receive

  predicate Enabled(img: seq<byte>, x: World, s: Step) {
    match s
    case Send => x.host.phase == Sending && x.host.off < |img|
    case Handle => x.bus != []
    case Receive => x.host.phase == Waiting && x.replies != []
  }

  function Next(img: seq<byte>, x: World, s: Step): World
    requires Enabled(img, x, s)
  {
    match s
    case Send =>
      var end := Min(x.host.off + FRAME, |img|);
      var wait := end >= |img| || x.host.n + 1 >= ACK_FRAMES;
      x.(host := Host(if wait then Waiting else Sending, end, x.host.n + 1),
         bus := x.bus + [img[x.host.off..end]])
    case Handle =>
      var stored := x.stored + x.bus[0];
      World(x.host, x.bus[1..], stored,
            match DataReply(|stored|, |img|) case None => x.replies case Some(r) => x.replies + [r])
    case Receive =>
      var r := x.replies[0];
      var h := if r.code == UpdateSuccess then x.host.(phase := Done)
               else if r.code != Offset then x.host.(phase := Failed)
               else if x.host.off < |img| then Host(Sending, x.host.off, 0)
               else x.host.(phase := Done);
      x.(host := h, replies := x.replies[1..])
  }

  /** START has been answered. */
  predicate Initial(x: World) {
    x == World(Host(Sending, 0, 0), [], [], [])
  }

  predicate Run(img: seq<byte>, x: World, steps: seq<Step>)
    decreases |steps|
  {
    steps == [] || (Enabled(img, x, steps[0]) && Run(img, Next(img, x, steps[0]), steps[1..]))
  }

  function Outcome(img: seq<byte>, x: World, steps: seq<Step>): World
    requires Run(img, x, steps)
    decreases |steps|
  {
    if steps == [] then x else Outcome(img, Next(img, x, steps[0]), steps[1..])
  }

  // ---- the invariant ----

  function Flat(bus: seq<seq<byte>>): seq<byte> {
    if bus == [] then [] else bus[0] + Flat(bus[1..])
  }

  /** Frames of one to eight bytes; only the last of the image may be shorter than eight. */
  predicate Frames(img: seq<byte>, from: nat, bus: seq<seq<byte>>)
    decreases |bus|
  {
    bus == [] ||
    (|bus[0]| == Min(FRAME, |img| - from) && |bus[0]| > 0 && Frames(img, from + |bus[0]|, bus[1..]))
  }

  /** Where the block of 512 bytes under way begins. */
  function Base(h: Host): int {
    RoundUp(h.off) - FRAME * h.n
  }

  /** To the next multiple of eight. */
  function RoundUp(off: nat): nat {
    (off + FRAME - 1) / FRAME * FRAME
  }

  predicate OnBlock(n: int) {
    n % ACK_INTERVAL == 0
  }

  /** Stored and still under way, the bytes are those sent so far. */
  predicate StreamOk(img: seq<byte>, x: World) {
    x.host.off <= |img| && x.stored + Flat(x.bus) == img[..x.host.off] && Frames(img, |x.stored|, x.bus)
  }

  predicate Inv(img: seq<byte>, x: World) {
    var h, s := x.host, |x.stored|;
    && img != [] && StreamOk(img, x) && (h.off < |img| ==> h.off % FRAME == 0)
    && 0 <= Base(h) <= s <= h.off && OnBlock(Base(h)) && h.n <= ACK_FRAMES
    && match h.phase
       case Sending => h.off < |img| && h.n < ACK_FRAMES && x.replies == []
       case Waiting =>
         && (h.off == |img| || h.n == ACK_FRAMES) && h.n > 0
         && if x.bus == [] then DataReply(s, |img|).Some? && x.replies == [DataReply(s, |img|).value]
            else x.replies == []
       case Done => h.off == |img| && x.bus == [] && x.replies == []
       case Failed => false
  }

  lemma {:induction false} FlatSnoc(bus: seq<seq<byte>>, f: seq<byte>)
    ensures Flat(bus + [f]) == Flat(bus) + f
  {
    if bus == [] {
      assert [] + [f] == [f];
      assert [f][1..] == [];
    } else {
      assert (bus + [f])[1..] == bus[1..] + [f];
      FlatSnoc(bus[1..], f);
    }
  }

  lemma {:induction false} FramesSnoc(img: seq<byte>, from: nat, bus: seq<seq<byte>>, f: seq<byte>)
    requires Frames(img, from, bus)
    requires |f| == Min(FRAME, |img| - (from + |Flat(bus)|)) && |f| > 0
    ensures Frames(img, from, bus + [f])
    decreases |bus|
  {
    if bus == [] {
      assert [] + [f] == [f];
      assert [f][1..] == [];
    } else {
      assert (bus + [f])[1..] == bus[1..] + [f];
      FramesSnoc(img, from + |bus[0]|, bus[1..], f);
    }
  }

  /** In a block of 512 the only multiple of 512 past its begin is its end. */
  lemma BlockEnd(base: nat, s: nat)
    requires OnBlock(base) && base < s <= base + ACK_INTERVAL
    ensures OnBlock(s) <==> s == base + ACK_INTERVAL
  {
    var q := base / ACK_INTERVAL;
    assert base == ACK_INTERVAL * q && s == ACK_INTERVAL * q + (s - base);
  }

  lemma SendStream(img: seq<byte>, x: World)
    requires StreamOk(img, x) && Enabled(img, x, Send)
    ensures StreamOk(img, Next(img, x, Send))
  {
    var h := x.host;
    var end := Min(h.off + FRAME, |img|);
    var f := img[h.off..end];
    FlatSnoc(x.bus, f);
    assert |x.stored + Flat(x.bus)| == h.off;
    FramesSnoc(img, |x.stored|, x.bus, f);
    hide Flat, Frames;
    assert img[..h.off] + f == img[..end];
    assert x.stored + Flat(x.bus) + f == x.stored + (Flat(x.bus) + f);
  }

  lemma SendKeeps(img: seq<byte>, x: World)
    requires Inv(img, x) && Enabled(img, x, Send)
    ensures Inv(img, Next(img, x, Send))
  {
    SendStream(img, x);
    RoundedUp(x.host.off, Min(x.host.off + FRAME, |img|));
    hide StreamOk, DataReply, RoundUp, OnBlock;
  }

  lemma RoundedUp(off: nat, end: nat)
    requires off % FRAME == 0 && off < end <= off + FRAME
    ensures RoundUp(end) == off + FRAME && RoundUp(off) == off
    ensures end == off + FRAME ==> end % FRAME == 0
  {
  }

  lemma HandleStream(img: seq<byte>, x: World)
    requires StreamOk(img, x) && Enabled(img, x, Handle)
    ensures StreamOk(img, Next(img, x, Handle))
    ensures |x.stored| < |x.stored + x.bus[0]| <= x.host.off
    ensures |x.stored + x.bus[0]| == x.host.off <==> x.bus[1..] == []
  {
    var f, rest := x.bus[0], x.bus[1..];
    assert x.stored + f + Flat(rest) == x.stored + (f + Flat(rest));
    RestEmpty(img, |x.stored + f|, rest);
    assert |x.stored + f| + |Flat(rest)| == x.host.off;
    hide DataReply;
  }

  lemma HandleKeeps(img: seq<byte>, x: World)
    requires Inv(img, x) && Enabled(img, x, Handle)
    ensures Inv(img, Next(img, x, Handle))
  {
    var s := |x.stored + x.bus[0]|;
    HandleStream(img, x);
    RoundUpBounds(x.host.off);
    BlockEnd(Base(x.host), s);
    ReplyWhen(s, |img|);
    hide StreamOk, DataReply, RoundUp, OnBlock;
  }

  lemma ReplyWhen(s: nat, total: nat)
    ensures DataReply(s, total).Some? <==> s == total || OnBlock(s)
  {
  }

  lemma RoundUpBounds(off: nat)
    ensures off <= RoundUp(off) < off + FRAME && (off % FRAME == 0 ==> RoundUp(off) == off)
  {
  }

  lemma RestEmpty(img: seq<byte>, from: nat, bus: seq<seq<byte>>)
    requires Frames(img, from, bus)
    ensures Flat(bus) == [] <==> bus == []
  {
  }

  lemma ReceiveKeeps(img: seq<byte>, x: World)
    requires Inv(img, x) && Enabled(img, x, Receive)
    ensures Inv(img, Next(img, x, Receive))
    ensures x.replies[0] == if x.host.off == |img| then Reply(UpdateSuccess, |img|) else Reply(Offset, x.host.off)
  {
    var h := x.host;
    assert x.bus == [];
    AllStored(img, x);
    hide StreamOk;
    RoundUpBounds(h.off);
    if h.off < |img| {
      NextBlock(h.off, Base(h));
    }
    hide RoundUp;
  }

  lemma AllStored(img: seq<byte>, x: World)
    requires StreamOk(img, x) && x.bus == []
    ensures x.stored == img[..x.host.off]
  {
    assert x.stored + [] == x.stored;
  }

  lemma NextBlock(off: nat, base: int)
    requires off % FRAME == 0 && OnBlock(base) && base == RoundUp(off) - FRAME * ACK_FRAMES
    ensures OnBlock(off) && RoundUp(off) == off
  {
    RoundUpBounds(off);
    var q := base / ACK_INTERVAL;
    assert off == ACK_INTERVAL * (q + 1);
  }

  lemma {:induction false} RunKeeps(img: seq<byte>, x: World, steps: seq<Step>)
    requires Inv(img, x) && Run(img, x, steps)
    ensures Inv(img, Outcome(img, x, steps))
    decreases |steps|
  {
    if steps != [] {
      match steps[0] {
        case Send => SendKeeps(img, x);
        case Handle => HandleKeeps(img, x);
        case Receive => ReceiveKeeps(img, x);
      }
      hide Inv, Enabled, Next;
      RunKeeps(img, Next(img, x, steps[0]), steps[1..]);
    }
  }

  lemma StoredPrefix(img: seq<byte>, y: World)
    requires StreamOk(img, y)
    ensures y.stored <= img
  {
    assert y.stored == img[..y.host.off][..|y.stored|];
  }

  /** The whole run, in every interleaving: the tool never sees a reply it does not wait for and never
      an error; while it waits, either frames are still on the bus or exactly its reply is; when it is
      done the device holds the image and no reply is left. */
  lemma Safety(img: seq<byte>, x: World, steps: seq<Step>)
    requires img != [] && Initial(x) && Run(img, x, steps)
    ensures var y := Outcome(img, x, steps);
            && y.stored <= img && y.host.phase != Failed
            && (y.host.phase == Sending ==> y.replies == [])
            && (y.host.phase == Waiting ==> (y.bus == [] <==> |y.replies| == 1) && |y.replies| <= 1)
            && (y.host.phase == Done ==> y.stored == img && y.host.off == |img| && y.replies == [])
  {
    RunKeeps(img, x, steps);
    var y := Outcome(img, x, steps);
    StoredPrefix(img, y);
    if y.host.phase == Done {
      AllStored(img, y);
      assert img[..|img|] == img;
    }
    hide StreamOk, Run, Outcome;
  }

  /** No deadlock: until the tool is done, someone can move. */
  lemma Progress(img: seq<byte>, x: World, steps: seq<Step>)
    requires img != [] && Initial(x) && Run(img, x, steps) && Outcome(img, x, steps).host.phase != Done
    ensures exists s :: Enabled(img, Outcome(img, x, steps), s)
  {
    RunKeeps(img, x, steps);
    var y := Outcome(img, x, steps);
    hide StreamOk, DataReply, Base;
    if y.host.phase == Sending {
      assert Enabled(img, y, Send);
    } else if y.bus != [] {
      assert Enabled(img, y, Handle);
    } else {
      assert Enabled(img, y, Receive);
    }
  }

  function Work(img: seq<byte>, x: World): int {
    3 * (|img| - x.host.off) + 2 * |x.bus| + |x.replies|
  }

  lemma {:induction false} RunShrinks(img: seq<byte>, x: World, steps: seq<Step>)
    requires Inv(img, x) && Run(img, x, steps)
    ensures Work(img, Outcome(img, x, steps)) + |steps| <= Work(img, x)
    decreases |steps|
  {
    if steps != [] {
      match steps[0] {
        case Send => SendKeeps(img, x);
        case Handle => HandleKeeps(img, x);
        case Receive => ReceiveKeeps(img, x);
      }
      assert Work(img, Next(img, x, steps[0])) < Work(img, x);
      hide Inv, Enabled, Next, Work;
      RunShrinks(img, Next(img, x, steps[0]), steps[1..]);
    }
  }

  /** And every run is finite; together with Progress, every maximal run ends with the image installed
      and UPDATE_SUCCESS read. */
  lemma Terminates(img: seq<byte>, x: World, steps: seq<Step>)
    requires img != [] && Initial(x) && Run(img, x, steps)
    ensures |steps| <= 3 * |img|
  {
    RunKeeps(img, x, steps);
    RunShrinks(img, x, steps);
  }
}
