/** When the windows of go-back-N begin where frames end. Only a reply sent in the middle of a refill can
    take the host off that grid (OffGrid); one round in which it hears whole replies brings it back. */
module BackOnGrid {
  import opened Bytes
  import opened FwProtocol
  import opened GoBackN

  /** If this acknowledges data, then up to the end of a frame. */
  predicate GridAck(img: seq<byte>, chunk: nat, r: seq<byte>)
    requires chunk > 0
  {
    IsV2(r) ==> OnGrid(img, chunk, GetLe32(r[1..]))
  }

  /** What waits in a reply buffer, before and after its last refill. */
  predicate SlotGrid(img: seq<byte>, chunk: nat, s: Slot)
    requires chunk > 0
  {
    s.pending > 0 ==> GridAck(img, chunk, s.prev) && GridAck(img, chunk, s.cur)
  }

  predicate PoolGrid(img: seq<byte>, chunk: nat, d: Device)
    requires chunk > 0
  {
    |d.slots| == 2 && SlotGrid(img, chunk, d.slots[0]) && SlotGrid(img, chunk, d.slots[1])
  }

  /** If this step sends a reply, the reply is one the device made, not a mixture of two. */
  predicate Whole(x: World, s: Step) {
    s.Remote? && s.a.Answer? && CanAnswer(x.net.dev, s.a.slot) ==>
      var t := x.net.dev.slots[s.a.slot];
      Torn(t.prev, t.cur, s.a.copied) == t.prev || Torn(t.prev, t.cur, s.a.copied) == t.cur
  }

  predicate AllWhole(img: seq<byte>, chunk: nat, x: World, steps: seq<Step>)
    requires Run(img, chunk, x, steps)
    decreases |steps|
  {
    steps == [] || (Whole(x, steps[0]) && AllWhole(img, chunk, Next(img, chunk, x, steps[0]), steps[1..]))
  }

  lemma ReplyOnGrid(img: seq<byte>, chunk: nat, t: Transfer, m: Msg)
    requires Job(img, chunk) && TransferOk(img, chunk, t) && KnownMsg(img, chunk, m)
    ensures GridAck(img, chunk, ReplyTo(t, m))
  {
    StoreKeeps(img, chunk, t, m);
    PrefixShort(Store(t, m).stored, img);
    ReplyShape(t, m);
    hide Store, GetLe32, ReplyTo, KnownMsg, Multiple;
  }

  lemma PrefixShort(a: seq<byte>, b: seq<byte>)
    requires a <= b
    ensures |a| <= |b|
  {
  }

  lemma PoolKeeps(img: seq<byte>, chunk: nat, n: Net, a: Action)
    requires Job(img, chunk) && NetOk(img, chunk, n) && Possible(n, a) && PoolGrid(img, chunk, n.dev)
    ensures PoolGrid(img, chunk, After(n, a).dev)
  {
    match a
    case Deliver(p) =>
    case Serve(posted) =>
      ReplyOnGrid(img, chunk, n.dev.transfer, n.dev.queue[0]);
      hide GridAck, ReplyTo, Store, KnownMsg, KnownFrame, TransferOk, SlotOk, Acks;
    case Answer(i, k) =>
      hide GridAck, KnownMsg, KnownFrame, TransferOk, SlotOk, Acks, Torn;
  }

  // ---- as long as no reply is torn ----

  ghost predicate Grid(img: seq<byte>, chunk: nat, x: World)
    requires chunk > 0
  {
    && PoolGrid(img, chunk, x.net.dev) && (forall r :: r in x.net.replies ==> GridAck(img, chunk, r))
    && OnGrid(img, chunk, x.host.off) && OnGrid(img, chunk, x.host.confirmed)
  }

  lemma HeardOnGrid(img: seq<byte>, chunk: nat, h: Host, r: seq<byte>)
    requires chunk > 0 && GridAck(img, chunk, r)
    ensures var g := Heard(img, h, r);
            && g.off == h.off && h.confirmed <= g.confirmed
            && (g.confirmed == h.confirmed || OnGrid(img, chunk, g.confirmed))
    requires h.confirmed <= |img|
  {
    hide Multiple, GetLe32;
  }

  lemma GridStep(img: seq<byte>, chunk: nat, x: World, s: Step)
    requires Job(img, chunk) && Inv(img, chunk, x) && Enabled(img, chunk, x, s)
    requires Grid(img, chunk, x) && Whole(x, s)
    ensures Grid(img, chunk, Next(img, chunk, x, s))
  {
    hide Multiple, GetLe32, Frame, Torn, SlotOk, Acks, KnownMsg, KnownFrame, FramesSent;
    match s
    case Send =>
      hide GridAck;
    case Hear(r) =>
      ConfirmedShort(img, chunk, x);
      HeardOnGrid(img, chunk, x.host, r);
      hide GridAck, Heard;
    case Confirmed =>
      hide GridAck;
    case Deadline =>
      hide GridAck;
    case Remote(a) =>
      PoolKeeps(img, chunk, x.net, a);
      hide Inv, Store, Parse, OnGrid;
      if a.Answer? {
        var t := x.net.dev.slots[a.slot];
        assert x.net.dev.slots[a.slot] == x.net.dev.slots[0] || x.net.dev.slots[a.slot] == x.net.dev.slots[1];
        assert GridAck(img, chunk, t.prev) && GridAck(img, chunk, t.cur);
      }
      hide GridAck, SlotGrid;
  }

  lemma ConfirmedShort(img: seq<byte>, chunk: nat, x: World)
    requires chunk > 0 && Inv(img, chunk, x)
    ensures x.host.confirmed <= |x.net.dev.transfer.stored| <= |img|
  {
  }

  lemma {:induction false} GridRun(img: seq<byte>, chunk: nat, x: World, steps: seq<Step>)
    requires Job(img, chunk) && Inv(img, chunk, x) && Run(img, chunk, x, steps)
    requires Grid(img, chunk, x) && AllWhole(img, chunk, x, steps)
    ensures Grid(img, chunk, Outcome(img, chunk, x, steps))
    decreases |steps|
  {
    if steps != [] {
      StepKeeps(img, chunk, x, steps[0]);
      GridStep(img, chunk, x, steps[0]);
      hide Inv, Grid, Whole, Next, Enabled;
      GridRun(img, chunk, Next(img, chunk, x, steps[0]), steps[1..]);
    }
  }

  /** In a run in which no reply is torn - whatever is lost, doubled or out of order - every window begins
      on the grid. */
  lemma WholeStaysOnGrid(img: seq<byte>, chunk: nat, x: World, steps: seq<Step>)
    requires Job(img, chunk) && Initial(img, x) && Run(img, chunk, x, steps) && AllWhole(img, chunk, x, steps)
    ensures OnGrid(img, chunk, Outcome(img, chunk, x, steps).host.off)
    ensures OnGrid(img, chunk, Outcome(img, chunk, x, steps).host.confirmed)
  {
    InitialHolds(img, chunk, x);
    GridRun(img, chunk, x, steps);
  }

  // ---- back again ----

  /** No reply the host hears acknowledges a part of a frame. */
  predicate HearsWhole(img: seq<byte>, chunk: nat, steps: seq<Step>)
    requires chunk > 0
  {
    forall i :: 0 <= i < |steps| && steps[i].Hear? ==> GridAck(img, chunk, steps[i].r)
  }

  /** Nothing has been confirmed in this window, or something up to the end of a frame. */
  predicate Aligned(img: seq<byte>, chunk: nat, h: Host)
    requires chunk > 0
  {
    (h.phase == Sending || h.phase == Waiting) && (h.confirmed == h.off || OnGrid(img, chunk, h.confirmed))
  }

  lemma AlignedStep(img: seq<byte>, chunk: nat, x: World, s: Step)
    requires Job(img, chunk) && Inv(img, chunk, x) && Enabled(img, chunk, x, s) && Ends(s) == 0
    requires Aligned(img, chunk, x.host) && (s.Hear? ==> GridAck(img, chunk, s.r))
    ensures Aligned(img, chunk, Next(img, chunk, x, s).host)
  {
    ConfirmedShort(img, chunk, x);
    hide NetOk, FramesSent, Multiple, GetLe32, Frame, After, Possible;
    if s.Hear? {
      HeardOnGrid(img, chunk, x.host, s.r);
    }
  }

  lemma {:induction false} AlignedRun(img: seq<byte>, chunk: nat, x: World, steps: seq<Step>)
    requires Job(img, chunk) && Inv(img, chunk, x) && Run(img, chunk, x, steps) && Rounds(steps) == 0
    requires Aligned(img, chunk, x.host) && HearsWhole(img, chunk, steps)
    ensures Aligned(img, chunk, Outcome(img, chunk, x, steps).host)
    decreases |steps|
  {
    if steps != [] {
      var y := Next(img, chunk, x, steps[0]);
      StepKeeps(img, chunk, x, steps[0]);
      HearsRest(img, chunk, steps);
      AlignedStep(img, chunk, x, steps[0]);
      hide Inv, Aligned, HearsWhole, GridAck, Next, Enabled, Ends;
      AlignedRun(img, chunk, y, steps[1..]);
    }
  }

  lemma HearsRest(img: seq<byte>, chunk: nat, steps: seq<Step>)
    requires chunk > 0 && steps != [] && HearsWhole(img, chunk, steps)
    ensures HearsWhole(img, chunk, steps[1..]) && (steps[0].Hear? ==> GridAck(img, chunk, steps[0].r))
  {
    hide GridAck;
    forall i | 0 <= i < |steps[1..]| && steps[1..][i].Hear? ensures GridAck(img, chunk, steps[1..][i].r) {
      assert steps[1..][i] == steps[i + 1];
    }
  }

  /** The host hears the whole reply to a command just worked off, and no torn one: from whatever offset
      its window was sent, and whether or not any frame of it fits, the next window begins where a frame
      ends, and no earlier than what the device had then. */
  lemma RoundRealigns(img: seq<byte>, chunk: nat, x: World, a: seq<Step>, posted: bool, b: seq<Step>, r: seq<byte>)
    requires Job(img, chunk) && Inv(img, chunk, x)
    requires x.host == Window(img, x.host.off, x.host.retries) && x.host.off < |img|
    requires Run(img, chunk, x, Round(a, posted, b, r)) && Rounds(a) == 0 && Rounds(b) == 0
    requires Run(img, chunk, x, a + [Remote(Serve(posted))]) && Run(img, chunk, x, a)
    requires var d := Outcome(img, chunk, x, a).net.dev;
             d.queue != [] && d.queue[0].cmd != START && r == ReplyTo(d.transfer, d.queue[0])
    requires HearsWhole(img, chunk, Round(a, posted, b, r))
    ensures var had := Outcome(img, chunk, x, a + [Remote(Serve(posted))]).net.dev.transfer.stored;
            var y := Outcome(img, chunk, x, Round(a, posted, b, r));
            && y.host.off == x.host.off && |had| <= y.host.confirmed
            && OnGrid(img, chunk, y.host.confirmed) && NextBegins(img, chunk, y, y.host.confirmed)
  {
    hide Inv, GetLe32, Run, Outcome, HearsWhole, ReplyTo, OnGrid, IsV2, Rounds, NextBegins, GridAck, Enabled, Next;
    var serve, steps := [Remote(Serve(posted))], Round(a, posted, b, r);
    var s, y := Outcome(img, chunk, x, a + serve), Outcome(img, chunk, x, steps);
    RoundsNone(a, posted, b, r);
    SameWindow(img, chunk, x, steps);
    SameWindow(img, chunk, x, a + serve);
    AlignedRun(img, chunk, x, steps);
    ReplyValue(img, chunk, x, a, posted, r);
    RunKeeps(img, chunk, x, a + serve);
    HadOnGrid(img, chunk, s);
    SplitRun(img, chunk, x, a + serve, b + [Hear(r)]);
    HeardLast(img, chunk, s, b, r);
    NextOff(img, chunk, y);
  }

  lemma NextOff(img: seq<byte>, chunk: nat, y: World)
    ensures NextBegins(img, chunk, y, y.host.confirmed)
  {
  }

  /** Whichever way the round ends, the next window begins at off, unless the host gives up. */
  predicate NextBegins(img: seq<byte>, chunk: nat, y: World, off: nat) {
    && (Enabled(img, chunk, y, Confirmed) ==> Next(img, chunk, y, Confirmed).host.off == off)
    && (Enabled(img, chunk, y, Deadline) ==>
          var h := Next(img, chunk, y, Deadline).host;
          h.phase == Stalled || h.off == off)
  }

  lemma RoundsNone(a: seq<Step>, posted: bool, b: seq<Step>, r: seq<byte>)
    requires Rounds(a) == 0 && Rounds(b) == 0
    ensures Rounds(Round(a, posted, b, r)) == 0 && Rounds(a + [Remote(Serve(posted))]) == 0
  {
    RoundsAppend(a, [Remote(Serve(posted))]);
    RoundsAppend(b, [Hear(r)]);
    RoundsAppend(a + [Remote(Serve(posted))], b + [Hear(r)]);
  }

  lemma HadOnGrid(img: seq<byte>, chunk: nat, s: World)
    requires chunk > 0 && Inv(img, chunk, s)
    ensures OnGrid(img, chunk, |s.net.dev.transfer.stored|) && s.host.off <= |s.net.dev.transfer.stored| <= |img|
  {
  }

  lemma HeardLast(img: seq<byte>, chunk: nat, s: World, b: seq<Step>, r: seq<byte>)
    requires Run(img, chunk, s, b + [Hear(r)]) && IsV2(r) && GetLe32(r[1..]) <= |img|
    ensures Outcome(img, chunk, s, b + [Hear(r)]).host.confirmed >= GetLe32(r[1..])
  {
    SplitRun(img, chunk, s, b, [Hear(r)]);
    var z := Outcome(img, chunk, s, b);
    Unfold(img, chunk, z, [Hear(r)]);
    Unfold(img, chunk, Next(img, chunk, z, Hear(r)), [Hear(r)][1..]);
    hide GetLe32, Run, Outcome;
  }
}
