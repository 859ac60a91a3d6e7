/** The data phase of a CAN upgrade against the application (src/fw/fw_can.c), whose receive interrupt puts
    frames into a queue of 32 while its worker may be slow: a frame that meets a full queue is lost. */
module CanQueue {
  import opened Bytes
  import opened Common
  import opened CanProtocol
  import opened CanLockstep
  import FwCan

  /** The lockstep's world, its bus being the queue, and whether a frame has been lost. */
  datatype State = State(x: World, lost: bool)

  function QueueStep(img: seq<byte>, q: State, s: Step): State
    requires Enabled(img, q.x, s)
  {
    var y := Next(img, q.x, s);
    if s.Send? && |q.x.bus| >= FwCan.Q_DEPTH then State(y.(bus := q.x.bus), true) else q.(x := y)
  }

  predicate QueueRun(img: seq<byte>, q: State, steps: seq<Step>)
    decreases |steps|
  {
    steps == [] || (Enabled(img, q.x, steps[0]) && QueueRun(img, QueueStep(img, q, steps[0]), steps[1..]))
  }

  function QueueOutcome(img: seq<byte>, q: State, steps: seq<Step>): State
    requires QueueRun(img, q, steps)
    decreases |steps|
  {
    if steps == [] then q else QueueOutcome(img, QueueStep(img, q, steps[0]), steps[1..])
  }

  predicate Stopped(img: seq<byte>, q: State) {
    forall s :: !Enabled(img, q.x, s)
  }

  /** A frame of this block has been lost: what has come and will come ends short of the block and of the
      image, so no reply will follow. */
  predicate Short(img: seq<byte>, x: World) {
    var h := x.host;
    && h.off <= |img| && h.n <= ACK_FRAMES && (h.off < |img| ==> h.off % FRAME == 0) && 0 <= Base(h) <= |x.stored|
    && OnBlock(Base(h)) && Pieces(x.bus) && x.replies == []
    && |x.stored| + |Flat(x.bus)| < h.off && h.off - Base(h) <= FRAME * h.n
    && match h.phase
       case Sending => h.off < |img| && h.n < ACK_FRAMES
       case Waiting => true
       case _ => false
  }

  predicate Pieces(bus: seq<seq<byte>>) {
    forall i :: 0 <= i < |bus| ==> bus[i] != []
  }

  predicate QueueInv(img: seq<byte>, q: State) {
    if q.lost then Short(img, q.x) else Inv(img, q.x)
  }

  lemma BlockLength(img: seq<byte>, h: Host)
    requires OnBlock(Base(h)) && h.n <= ACK_FRAMES
    ensures h.off - Base(h) <= FRAME * h.n
  {
    RoundUpBounds(h.off);
  }

  lemma {:induction false} FramesPieces(img: seq<byte>, from: nat, bus: seq<seq<byte>>)
    requires Frames(img, from, bus)
    ensures Pieces(bus)
    decreases |bus|
  {
    if bus != [] {
      FramesPieces(img, from + |bus[0]|, bus[1..]);
      assert forall i :: 0 < i < |bus| ==> bus[i] == bus[1..][i - 1];
    }
  }

  /** The first loss. */
  lemma LosesFirst(img: seq<byte>, x: World)
    requires Inv(img, x) && Enabled(img, x, Send)
    ensures Short(img, Next(img, x, Send).(bus := x.bus))
  {
    var h := x.host;
    FramesPieces(img, |x.stored|, x.bus);
    assert |x.stored + Flat(x.bus)| == h.off;
    RoundedUp(h.off, Min(h.off + FRAME, |img|));
    var y := Next(img, x, Send);
    BlockLength(img, y.host);
    hide StreamOk, DataReply, RoundUp, OnBlock, Flat, Frames, Pieces;
  }

  /** Short of its block's end the device does not reply. */
  lemma NoReply(base: nat, s: nat, n: nat, off: nat, total: nat)
    requires OnBlock(base) && base < s < off <= total && off - base <= FRAME * n && n <= ACK_FRAMES
    ensures DataReply(s, total) == None
  {
    BlockEnd(base, s);
    ReplyWhen(s, total);
  }

  lemma ShortKeeps(img: seq<byte>, x: World, s: Step)
    requires Short(img, x) && Enabled(img, x, s)
    ensures !s.Receive?
    ensures s.Handle? ==> Short(img, Next(img, x, s))
    ensures s.Send? ==> Short(img, Next(img, x, s)) && Short(img, Next(img, x, s).(bus := x.bus))
  {
    hide DataReply;
    match s
    case Receive =>
    case Handle =>
      HandleShort(img, x);
    case Send =>
      SendShort(img, x);
  }

  lemma HandleShort(img: seq<byte>, x: World)
    requires Short(img, x) && Enabled(img, x, Handle)
    ensures Short(img, Next(img, x, Handle))
  {
    var s := |x.stored + x.bus[0]|;
    FlatHead(x.bus);
    assert x.bus[0] != [];
    NoReply(Base(x.host), s, x.host.n, x.host.off, |img|);
    assert forall i :: 0 <= i < |x.bus[1..]| ==> x.bus[1..][i] == x.bus[i + 1];
    hide DataReply, OnBlock, Base, Flat;
  }

  lemma FlatHead(bus: seq<seq<byte>>)
    requires bus != []
    ensures |Flat(bus)| == |bus[0]| + |Flat(bus[1..])|
  {
  }

  lemma SendShort(img: seq<byte>, x: World)
    requires Short(img, x) && Enabled(img, x, Send)
    ensures Short(img, Next(img, x, Send)) && Short(img, Next(img, x, Send).(bus := x.bus))
  {
    var h := x.host;
    var end := Min(h.off + FRAME, |img|);
    var f := img[h.off..end];
    FlatSnoc(x.bus, f);
    RoundedUp(h.off, end);
    var y := Next(img, x, Send);
    BlockLength(img, y.host);
    assert y.bus == x.bus + [f];
    hide OnBlock, Flat, RoundUp, DataReply;
  }

  lemma QueueKeeps(img: seq<byte>, q: State, s: Step)
    requires QueueInv(img, q) && Enabled(img, q.x, s)
    ensures QueueInv(img, QueueStep(img, q, s))
  {
    hide Inv, Short, Next, Enabled;
    if q.lost {
      ShortKeeps(img, q.x, s);
    } else {
      match s {
        case Send =>
          SendKeeps(img, q.x);
          LosesFirst(img, q.x);
        case Handle => HandleKeeps(img, q.x);
        case Receive => ReceiveKeeps(img, q.x);
      }
    }
  }

  lemma {:induction false} QueueRunKeeps(img: seq<byte>, q: State, steps: seq<Step>)
    requires QueueInv(img, q) && QueueRun(img, q, steps)
    ensures QueueInv(img, QueueOutcome(img, q, steps))
    decreases |steps|
  {
    if steps != [] {
      QueueKeeps(img, q, steps[0]);
      hide QueueInv, QueueStep, Enabled;
      QueueRunKeeps(img, QueueStep(img, q, steps[0]), steps[1..]);
    }
  }

  function Fresh(): State {
    State(World(Host(Sending, 0, 0), [], [], []), false)
  }

  /** Every run that can go no further is complete - the tool done, the image stored - if and only if no
      frame has met a full queue; otherwise the tool waits for a reply that never comes. */
  lemma CompleteIff(img: seq<byte>, steps: seq<Step>)
    requires img != [] && QueueRun(img, Fresh(), steps) && Stopped(img, QueueOutcome(img, Fresh(), steps))
    ensures var q := QueueOutcome(img, Fresh(), steps);
            && (q.x.host.phase == Done <==> !q.lost)
            && (q.lost ==> q.x.host.phase == Waiting && |q.x.stored| < q.x.host.off)
            && (!q.lost ==> q.x.stored == img)
  {
    var q := QueueOutcome(img, Fresh(), steps);
    QueueRunKeeps(img, Fresh(), steps);
    hide QueueRun, QueueOutcome;
    assert !Enabled(img, q.x, Send) && !Enabled(img, q.x, Handle) && !Enabled(img, q.x, Receive);
    if !q.lost {
      DoneWhenStopped(img, q.x);
    }
  }

  lemma DoneWhenStopped(img: seq<byte>, x: World)
    requires Inv(img, x) && forall s :: !Enabled(img, x, s)
    ensures x.host.phase == Done && x.stored == img
  {
    assert !Enabled(img, x, Send) && !Enabled(img, x, Handle) && !Enabled(img, x, Receive);
    hide DataReply, Base, RoundUp;
    AllStored(img, x);
    assert img[..|img|] == img;
  }

  function Sends(k: nat): seq<Step> {
    if k == 0 then [] else Sends(k - 1) + [Send]
  }

  lemma {:induction false} OneMore(img: seq<byte>, q: State, a: seq<Step>, s: Step)
    requires QueueRun(img, q, a) && Enabled(img, QueueOutcome(img, q, a).x, s)
    ensures QueueRun(img, q, a + [s])
    ensures QueueOutcome(img, q, a + [s]) == QueueStep(img, QueueOutcome(img, q, a), s)
    decreases |a|
  {
    if a == [] {
      assert [] + [s] == [s] && [s][1..] == [];
      var y := QueueStep(img, q, s);
      assert QueueRun(img, y, []) && QueueOutcome(img, y, []) == y;
    } else {
      assert (a + [s])[1..] == a[1..] + [s];
      hide QueueStep, Enabled;
      OneMore(img, QueueStep(img, q, a[0]), a[1..], s);
    }
  }

  lemma {:induction false} SendsRun(img: seq<byte>, k: nat)
    requires k <= FwCan.Q_DEPTH && FRAME * (FwCan.Q_DEPTH + 1) <= |img|
    ensures QueueRun(img, Fresh(), Sends(k))
    ensures var q := QueueOutcome(img, Fresh(), Sends(k));
            q.x.host == Host(Sending, FRAME * k, k) && |q.x.bus| == k && !q.lost
  {
    if k > 0 {
      SendsRun(img, k - 1);
      hide QueueRun, QueueOutcome;
      OneMore(img, Fresh(), Sends(k - 1), Send);
    }
  }

  /** A worker that takes nothing while 33 frames come loses one: the tool, which reads a reply only after
      64, then waits in vain. */
  lemma SlowWorkerLoses(img: seq<byte>)
    requires FRAME * (FwCan.Q_DEPTH + 1) <= |img|
    ensures QueueRun(img, Fresh(), Sends(FwCan.Q_DEPTH + 1))
    ensures QueueOutcome(img, Fresh(), Sends(FwCan.Q_DEPTH + 1)).lost
  {
    SendsRun(img, FwCan.Q_DEPTH);
    hide QueueRun, QueueOutcome, Sends;
    OneMore(img, Fresh(), Sends(FwCan.Q_DEPTH), Send);
    SendsMore(FwCan.Q_DEPTH);
  }

  lemma SendsMore(k: nat)
    ensures Sends(k + 1) == Sends(k) + [Send]
  {
  }
}
