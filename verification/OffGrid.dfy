/** What a half-refilled reply buffer does to the progress of go-back-N. Such a reply can acknowledge a
    number of bytes at which no frame ends; the window the host then sends fits none of the frames the
    device is waiting for, and even a round without losses does not move it. */
module OffGrid {
  import opened Bytes
  import opened FwProtocol
  import opened GoBackN

  /** A frame of the window that begins at off. */
  predicate OfWindow(img: seq<byte>, chunk: nat, m: Msg, off: nat, end: nat)
    requires chunk > 0
  {
    exists v: nat :: off <= v < end && FrameAt(img, chunk, off, end, v) && m == Msg(DATA_V2, Payload(img, chunk, v))
  }

  predicate FrameAt(img: seq<byte>, chunk: nat, off: nat, end: nat, v: nat)
    requires chunk > 0
  {
    off <= v < end && v < |img| && Multiple(v - off, chunk)
  }

  /** The device works off frames of this window and nothing else. */
  predicate Alone(img: seq<byte>, chunk: nat, msgs: seq<Msg>, off: nat, end: nat)
    requires chunk > 0
  {
    forall i :: 0 <= i < |msgs| ==> OfWindow(img, chunk, msgs[i], off, end)
  }

  lemma {:induction false} MultipleDiff(s: int, off: int, chunk: nat)
    requires chunk > 0 && 0 <= off <= s && Multiple(s, chunk) && Multiple(s - off, chunk)
    ensures Multiple(off, chunk)
    decreases s
  {
    if s != off {
      MultipleDiff(s - chunk, off, chunk);
    }
  }

  /** Off the grid, no frame of the window is the one the device waits for. */
  lemma Misfit(img: seq<byte>, chunk: nat, t: Transfer, m: Msg, off: nat, end: nat)
    requires Job(img, chunk) && TransferOk(img, chunk, t) && OfWindow(img, chunk, m, off, end)
    requires !OnGrid(img, chunk, off) && off <= |t.stored| < |img|
    ensures Store(t, m) == t
  {
    var v: nat :| off <= v < end && FrameAt(img, chunk, off, end, v) && m == Msg(DATA_V2, Payload(img, chunk, v));
    FrameStored(img, chunk, t, v);
    if v == |t.stored| {
      MultipleDiff(v, off, chunk);
      assert false;
    }
  }

  lemma {:induction false} NothingStored(img: seq<byte>, chunk: nat, x: World, steps: seq<Step>, off: nat, end: nat)
    requires Job(img, chunk) && Inv(img, chunk, x) && Run(img, chunk, x, steps)
    requires Alone(img, chunk, Handled(img, chunk, x, steps), off, end)
    requires !OnGrid(img, chunk, off) && off <= |x.net.dev.transfer.stored| < |img|
    ensures Outcome(img, chunk, x, steps).net.dev.transfer == x.net.dev.transfer
    decreases |steps|
  {
    if steps != [] {
      StepKeeps(img, chunk, x, steps[0]);
      StoresNothing(img, chunk, x, steps, off, end);
      hide Inv, Alone, OnGrid, Next, Enabled, Handled;
      NothingStored(img, chunk, Next(img, chunk, x, steps[0]), steps[1..], off, end);
    }
  }

  lemma StoresNothing(img: seq<byte>, chunk: nat, x: World, steps: seq<Step>, off: nat, end: nat)
    requires Job(img, chunk) && Inv(img, chunk, x) && Run(img, chunk, x, steps) && steps != []
    requires Alone(img, chunk, Handled(img, chunk, x, steps), off, end)
    requires !OnGrid(img, chunk, off) && off <= |x.net.dev.transfer.stored| < |img|
    ensures var y := Next(img, chunk, x, steps[0]);
            && y.net.dev.transfer == x.net.dev.transfer
            && Alone(img, chunk, Handled(img, chunk, y, steps[1..]), off, end)
  {
    Transferring(img, chunk, x);
    NextTransfer(img, chunk, x, steps[0]);
    hide Inv, OnGrid, Store, TransferOk, Next, Enabled, Handled, Run;
    if steps[0].Remote? && steps[0].a.Serve? {
      HandledServe(img, chunk, x, steps);
      AloneFirst(img, chunk, x.net.dev.queue[0], Handled(img, chunk, Next(img, chunk, x, steps[0]), steps[1..]),
                 off, end);
      Misfit(img, chunk, x.net.dev.transfer, x.net.dev.queue[0], off, end);
    } else {
      HandledOther(img, chunk, x, steps);
    }
  }

  lemma AloneFirst(img: seq<byte>, chunk: nat, m: Msg, rest: seq<Msg>, off: nat, end: nat)
    requires chunk > 0 && Alone(img, chunk, [m] + rest, off, end)
    ensures OfWindow(img, chunk, m, off, end) && Alone(img, chunk, rest, off, end)
  {
    hide OfWindow;
    var all := [m] + rest;
    assert all[0] == m;
    forall i | 0 <= i < |rest|
      ensures OfWindow(img, chunk, rest[i], off, end)
    {
      assert all[i + 1] == rest[i];
    }
  }

  lemma NextTransfer(img: seq<byte>, chunk: nat, x: World, s: Step)
    requires Enabled(img, chunk, x, s)
    ensures Next(img, chunk, x, s).net.dev.transfer
            == if s.Remote? && s.a.Serve? then Store(x.net.dev.transfer, x.net.dev.queue[0]) else x.net.dev.transfer
    ensures s.Remote? && s.a.Serve? ==> x.net.dev.queue != []
  {
    hide Store, ReplyTo, Parse, Frame, Heard, Torn;
  }

  lemma Transferring(img: seq<byte>, chunk: nat, x: World)
    requires chunk > 0 && Inv(img, chunk, x)
    ensures TransferOk(img, chunk, x.net.dev.transfer)
  {
  }

  lemma HandledServe(img: seq<byte>, chunk: nat, x: World, steps: seq<Step>)
    requires Run(img, chunk, x, steps) && steps != [] && steps[0].Remote? && steps[0].a.Serve?
    ensures Handled(img, chunk, x, steps)
            == [x.net.dev.queue[0]] + Handled(img, chunk, Next(img, chunk, x, steps[0]), steps[1..])
  {
    hide Next;
  }

  lemma HandledOther(img: seq<byte>, chunk: nat, x: World, steps: seq<Step>)
    requires Run(img, chunk, x, steps) && steps != [] && !(steps[0].Remote? && steps[0].a.Serve?)
    ensures Handled(img, chunk, x, steps) == Handled(img, chunk, Next(img, chunk, x, steps[0]), steps[1..])
  {
    hide Next;
  }

  /** A round without losses - the device works off the frames of the window in order, and nothing else -
      takes the device to the end of the window exactly when the window begins on the frame grid, or the
      device is there already. */
  lemma WindowStoredIff(img: seq<byte>, chunk: nat, x: World, steps: seq<Step>, off: nat)
    requires Job(img, chunk) && Inv(img, chunk, x) && Run(img, chunk, x, steps)
    requires off <= |x.net.dev.transfer.stored| && off < |img|
    requires Among(img, chunk, Handled(img, chunk, x, steps), off, WinEnd(img, chunk, off))
    requires Alone(img, chunk, Handled(img, chunk, x, steps), off, WinEnd(img, chunk, off))
    ensures |Outcome(img, chunk, x, steps).net.dev.transfer.stored| >= WinEnd(img, chunk, off)
            <==> OnGrid(img, chunk, off) || |x.net.dev.transfer.stored| >= WinEnd(img, chunk, off)
  {
    var end := WinEnd(img, chunk, off);
    RunKeeps(img, chunk, x, steps);
    if OnGrid(img, chunk, off) {
      WindowStored(img, chunk, x, steps, off, end);
    } else if |x.net.dev.transfer.stored| < end {
      NothingStored(img, chunk, x, steps, off, end);
    }
  }

  // ---- such a state is reached ----

  const TORN: seq<byte> := [DATA_V2, 0x68, 0x05, 0x00, 0x00]

  /** The low byte of 4200 over the rest of 1400 is 1384. */
  lemma TornAcks1384()
    ensures Torn(V2Reply(1400), V2Reply(4200), 2) == TORN
    ensures IsV2(TORN) && GetLe32(TORN[1..]) == 1384
  {
    V2ReplyIs(1400, 0x78, 0x05, 120, 5);
    V2ReplyIs(4200, 0x68, 0x10, 104, 16);
    Quad(0x68, 0x05, 104, 5);
    hide Le, PutLe, V2Reply;
    var b := TORN[1..];
    assert b == [0x68, 0x05, 0x00, 0x00] && b[..4] == b;
  }

  lemma V2ReplyIs(n: nat, lo: byte, hi: byte, a: nat, b: nat)
    requires Val(lo) == a && Val(hi) == b && n == a + 256 * b
    ensures V2Reply(n) == [DATA_V2, lo, hi, 0x00, 0x00]
  {
    hide Le, PutLe, Val;
    var q := [lo, hi, 0x00, 0x00];
    Quad(lo, hi, a, b);
    LeBytes(q);
    assert |q| == 4 && PutLe(4, n) == q;
  }

  lemma Quad(lo: byte, hi: byte, a: nat, b: nat)
    requires Val(lo) == a && Val(hi) == b
    ensures Le([lo, hi, 0, 0]) == a + 256 * b
  {
    ZeroIs();
    LeNothing();
    hide Val;
    assert [lo, hi, 0, 0][1..] == [hi, 0, 0] && [hi, 0, 0][1..] == [0, 0];
    LeHead([lo, hi, 0, 0]);
    LeHead([hi, 0, 0]);
    assert Le([0, 0]) == 0 by {
      LeHead([0, 0]);
      assert [0, 0][1..] == [0];
      LeHead([0]);
      assert [0][1..] == [];
    }
  }

  lemma ZeroIs()
    ensures Val(0) == 0
  {
  }

  /** Everything the network and the device do in turn. */
  predicate AllPossible(n: Net, acts: seq<Action>)
    decreases |acts|
  {
    acts == [] || (Possible(n, acts[0]) && AllPossible(After(n, acts[0]), acts[1..]))
  }

  function AfterAll(n: Net, acts: seq<Action>): Net
    requires AllPossible(n, acts)
    decreases |acts|
  {
    if acts == [] then n else AfterAll(After(n, acts[0]), acts[1..])
  }

  function Remotes(acts: seq<Action>): (steps: seq<Step>)
    ensures |steps| == |acts|
  {
    if acts == [] then [] else [Remote(acts[0])] + Remotes(acts[1..])
  }

  lemma {:induction false} RemotesRun(img: seq<byte>, chunk: nat, x: World, acts: seq<Action>)
    requires AllPossible(x.net, acts)
    ensures Run(img, chunk, x, Remotes(acts))
    ensures Outcome(img, chunk, x, Remotes(acts)) == x.(net := AfterAll(x.net, acts))
    decreases |acts|
  {
    if acts != [] {
      hide After, Possible;
      var y := Next(img, chunk, x, Remote(acts[0]));
      RemotesRun(img, chunk, y, acts[1..]);
      Prepend(img, chunk, x, Remote(acts[0]), Remotes(acts[1..]));
    }
  }

  /** The frame at w is delivered to an idle device and served. */
  lemma ServedOnce(img: seq<byte>, n: Net, w: nat)
    requires Job(img, V2_CHUNK) && w < |img| && Frame(img, V2_CHUNK, w) in n.frames
    requires n.dev.queue == [] && |n.dev.slots| == 2
    requires n.dev.transfer == Transfer(|img|, false, img[..w])
    ensures var acts, e := [Deliver(Frame(img, V2_CHUNK, w)), Serve(true)], FrameEnd(img, V2_CHUNK, w);
            && AllPossible(n, acts)
            && AfterAll(n, acts).frames == n.frames && AfterAll(n, acts).replies == n.replies
            && AfterAll(n, acts).dev
               == Device([], n.dev.slots[n.dev.idx % 2 := Filled(n.dev.slots[n.dev.idx % 2], V2Reply(e), true)],
                         (n.dev.idx + 1) % 256, Transfer(|img|, false, img[..e]))
  {
    var m := Msg(DATA_V2, Payload(img, V2_CHUNK, w));
    FrameParses(img, V2_CHUNK, w);
    FrameStored(img, V2_CHUNK, n.dev.transfer, w);
    hide Payload, Frame, Parse, Store, V2Reply, Filled;
    var a1, a2 := Deliver(Frame(img, V2_CHUNK, w)), Serve(true);
    assert After(n, a1).dev.queue == [m];
    TwoActions(n, a1, a2);
  }

  lemma TwoActions(n: Net, a1: Action, a2: Action)
    requires Possible(n, a1) && Possible(After(n, a1), a2)
    ensures AllPossible(n, [a1, a2]) && AfterAll(n, [a1, a2]) == After(After(n, a1), a2)
  {
    hide Possible, After;
    var n1, n2 := After(n, a1), After(After(n, a1), a2);
    var both, one := [a1, a2], [a2];
    assert both[1..] == one && one[1..] == [];
    assert AllPossible(n2, []) && AfterAll(n2, []) == n2;
    assert AllPossible(n1, one) && AfterAll(n1, one) == n2;
  }

  // ---- the run ----

  predicate ThreeSent(img: seq<byte>, frames: set<seq<byte>>)
    requires 4200 < |img|
  {
    && Frame(img, V2_CHUNK, 0) in frames && Frame(img, V2_CHUNK, 1400) in frames
    && Frame(img, V2_CHUNK, 2800) in frames
  }

  /** All frames have been sent and w bytes stored; the device is idle. */
  predicate Stage(img: seq<byte>, x: World, w: nat)
    requires 4200 < |img|
  {
    && w <= |img| && x.host == Host(Waiting, 0, |img|, 0, 0) && ThreeSent(img, x.net.frames)
    && x.net.dev.queue == [] && |x.net.dev.slots| == 2
    && x.net.dev.transfer == Transfer(|img|, false, img[..w])
  }

  function Held(d: Device, i: nat): Slot
    requires |d.slots| == 2
  {
    d.slots[i % 2]
  }

  lemma SendNext(img: seq<byte>, x: World, w: nat)
    requires w < |img| && 4200 < |img| <= 5600 && x.host == Host(Sending, 0, w, 0, 0)
    ensures Enabled(img, V2_CHUNK, x, Send)
    ensures var y := Next(img, V2_CHUNK, x, Send);
            && y.host == (if w + V2_CHUNK < |img| then Host(Sending, 0, w + V2_CHUNK, 0, 0)
                          else Host(Waiting, 0, |img|, 0, 0))
            && y.net == x.net.(frames := x.net.frames + {Frame(img, V2_CHUNK, w)})
  {
    hide Frame;
  }

  lemma SendFirst(img: seq<byte>, x: World) returns (steps: seq<Step>)
    requires 4200 < |img| <= 5600 && Initial(img, x)
    ensures Run(img, V2_CHUNK, x, steps)
    ensures var y := Outcome(img, V2_CHUNK, x, steps);
            Stage(img, y, 0) && y.net.dev == x.net.dev
  {
    SendNext(img, x, 0);
    var x1 := Next(img, V2_CHUNK, x, Send);
    SendNext(img, x1, 1400);
    var x2 := Next(img, V2_CHUNK, x1, Send);
    SendNext(img, x2, 2800);
    var x3 := Next(img, V2_CHUNK, x2, Send);
    SendNext(img, x3, 4200);
    var x4 := Next(img, V2_CHUNK, x3, Send);
    Unfold(img, V2_CHUNK, x4, []);
    assert Run(img, V2_CHUNK, x4, []);
    assert img[..0] == [];
    hide Frame, Run, Outcome, Next, Enabled;
    Prepend(img, V2_CHUNK, x3, Send, []);
    Prepend(img, V2_CHUNK, x2, Send, [Send] + []);
    Prepend(img, V2_CHUNK, x1, Send, [Send] + ([Send] + []));
    Prepend(img, V2_CHUNK, x, Send, [Send] + ([Send] + ([Send] + [])));
    steps := [Send] + ([Send] + ([Send] + ([Send] + [])));
  }

  lemma ServeNext(img: seq<byte>, x: World, w: nat) returns (steps: seq<Step>)
    requires Job(img, V2_CHUNK) && 4200 < |img| && Stage(img, x, w) && (w == 0 || w == 1400 || w == 2800)
    ensures Run(img, V2_CHUNK, x, steps)
    ensures Fills(x, Outcome(img, V2_CHUNK, x, steps), V2Reply(w + V2_CHUNK))
    ensures Stage(img, Outcome(img, V2_CHUNK, x, steps), w + V2_CHUNK)
  {
    hide AfterAll, AllPossible, After, Possible, Remotes, Run, Outcome, Frame, V2Reply, Filled, Fills;
    var acts := [Deliver(Frame(img, V2_CHUNK, w)), Serve(true)];
    ServedOnce(img, x.net, w);
    StageMoved(img, x, w, AfterAll(x.net, acts));
    hide Stage;
    RemotesRun(img, V2_CHUNK, x, acts);
    steps := Remotes(acts);
  }

  lemma StageMoved(img: seq<byte>, x: World, w: nat, n: Net)
    requires 4200 < |img| && Stage(img, x, w) && w + V2_CHUNK <= |img| && n.frames == x.net.frames
    requires var i := x.net.dev.idx % 2;
             n.dev == Device([], x.net.dev.slots[i := Filled(x.net.dev.slots[i], V2Reply(w + V2_CHUNK), true)],
                             (x.net.dev.idx + 1) % 256, Transfer(|img|, false, img[..w + V2_CHUNK]))
    ensures Stage(img, x.(net := n), w + V2_CHUNK) && Fills(x, x.(net := n), V2Reply(w + V2_CHUNK))
  {
    hide Frame, V2Reply, Filled;
    OtherSlot(x.net.dev.idx);
  }

  lemma OtherSlot(i: nat)
    ensures (i + 1) % 256 % 2 == 1 - i % 2
  {
  }

  /** The next slot of the pool has been filled, the other left alone. */
  predicate Fills(x: World, y: World, rep: seq<byte>) {
    && |x.net.dev.slots| == 2 && |y.net.dev.slots| == 2
    && var i := x.net.dev.idx % 2;
       && y.net.dev.idx % 2 == 1 - i && y.net.dev.slots[i] == Filled(x.net.dev.slots[i], rep, true)
       && y.net.dev.slots[1 - i] == x.net.dev.slots[1 - i]
  }

  /** The host begins a window where no frame ends. */
  predicate OffBeat(img: seq<byte>, y: World)
    requires 4200 < |img|
  {
    && y.host == Window(img, 1384, 1) && !OnGrid(img, V2_CHUNK, y.host.off)
    && y.net.dev.transfer.stored == img[..4200]
  }

  /** A stale callback sends the torn reply; the host hears it, and its deadline passes. */
  lemma HearTorn(img: seq<byte>, x: World, i: nat) returns (steps: seq<Step>)
    requires Job(img, V2_CHUNK) && 4200 < |img| <= 5600 && Stage(img, x, 4200)
    requires Held(x.net.dev, i) == Slot(V2Reply(1400), V2Reply(4200), 2)
    ensures Run(img, V2_CHUNK, x, steps)
    ensures OffBeat(img, Outcome(img, V2_CHUNK, x, steps))
  {
    TornAcks1384();
    Off1384(img);
    hide V2Reply, Torn, GetLe32, IsV2, OnGrid;
    var s1, s2, s3 := Remote(Answer(i % 2, 2)), Hear(TORN), Deadline;
    var x1 := Next(img, V2_CHUNK, x, s1);
    var x2 := Next(img, V2_CHUNK, x1, s2);
    var x3 := Next(img, V2_CHUNK, x2, s3);
    Unfold(img, V2_CHUNK, x3, []);
    hide Run, Outcome;
    Prepend(img, V2_CHUNK, x2, s3, []);
    Prepend(img, V2_CHUNK, x1, s2, [s3] + []);
    Prepend(img, V2_CHUNK, x, s1, [s2] + ([s3] + []));
    steps := [s1] + ([s2] + ([s3] + []));
  }

  lemma Off1384(img: seq<byte>)
    requires 4200 < |img|
    ensures !OnGrid(img, V2_CHUNK, 1384)
  {
  }

  lemma ThreeServed(img: seq<byte>, x: World) returns (steps: seq<Step>)
    requires 4200 < |img| <= 5600 && Stage(img, x, 0) && Held(x.net.dev, x.net.dev.idx).pending == 0
    ensures Run(img, V2_CHUNK, x, steps) && Stage(img, Outcome(img, V2_CHUNK, x, steps), 4200)
    ensures Held(Outcome(img, V2_CHUNK, x, steps).net.dev, x.net.dev.idx) == Slot(V2Reply(1400), V2Reply(4200), 2)
  {
    hide Run, Outcome, V2Reply;
    var c := V2_CHUNK;
    var b := ServeNext(img, x, 0);
    var x1 := Outcome(img, c, x, b);
    var d := ServeNext(img, x1, 1400);
    var x2 := Outcome(img, c, x1, d);
    var e := ServeNext(img, x2, 2800);
    var x3 := Outcome(img, c, x2, e);
    hide Stage;
    FillTwice(x, x1, x2, x3);
    hide Held, Fills;
    Join(img, c, x1, d, e);
    Join(img, c, x, b, d + e);
    steps := b + (d + e);
  }

  lemma FillTwice(x: World, x1: World, x2: World, x3: World)
    requires Fills(x, x1, V2Reply(1400)) && Fills(x1, x2, V2Reply(2800)) && Fills(x2, x3, V2Reply(4200))
    requires Held(x.net.dev, x.net.dev.idx).pending == 0
    ensures Held(x3.net.dev, x.net.dev.idx) == Slot(V2Reply(1400), V2Reply(4200), 2)
  {
    hide V2Reply;
  }

  lemma PoolEmpty(img: seq<byte>, x: World)
    requires Initial(img, x)
    ensures Held(x.net.dev, x.net.dev.idx).pending == 0
  {
  }

  /** For every image of four frames there is a run, in which datagrams are late but none is lost, after
      which the host begins a window at offset 1384, where no frame ends, although the device has 4200
      bytes. */
  lemma OffGridReached(img: seq<byte>, x: World) returns (steps: seq<Step>)
    requires 4200 < |img| <= 5600 && Initial(img, x)
    ensures Run(img, V2_CHUNK, x, steps) && OffBeat(img, Outcome(img, V2_CHUNK, x, steps))
  {
    hide Stage, Run, Outcome, V2Reply, Initial, Held, OffBeat;
    var c := V2_CHUNK;
    PoolEmpty(img, x);
    var a := SendFirst(img, x);
    var x0 := Outcome(img, c, x, a);
    var b := ThreeServed(img, x0);
    var x1 := Outcome(img, c, x0, b);
    var d := HearTorn(img, x1, x0.net.dev.idx);
    Join(img, c, x0, b, d);
    Join(img, c, x, a, b + d);
    steps := a + (b + d);
  }
}
