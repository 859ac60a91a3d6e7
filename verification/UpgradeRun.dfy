/** A whole upgrade: main() of tools/firmware_upgrade.py against the real device code, from START to the
    reboot. Network and device do whatever they like all the time, also between END and its answer and
    after that: late copies of any datagram are worked off, and any reply may be the one the tool takes
    for END's. */
module UpgradeRun {
  import opened Bytes
  import opened Common
  import opened FwProtocol
  import opened GoBackN
  import opened StaleReply
  import opened UpgradeTool
  import Crc
  import FwUdp
  import FwUpg
  import NorFlash
  import RegBits

  /** The END datagram: [03][test][crc LE16]. */
  function EndCommand(trial: bool, crc: word): (p: seq<byte>)
    ensures |p| == 4
  {
    [END, if trial then 1 else 0, RegBits.Lo16(crc), RegBits.Hi16(crc)]
  }

  /** What the network can hold once END has been sent. */
  predicate LateFrame(img: seq<byte>, start: seq<byte>, end: seq<byte>, p: seq<byte>) {
    p == start || p == end || exists w :: 0 <= w < |img| && p == Frame(img, V2_CHUNK, w)
  }

  predicate LateMsg(img: seq<byte>, start: seq<byte>, end: seq<byte>, m: Msg)
    requires start != [] && end != []
  {
    || m == Msg(START, start[1..]) || m == Msg(END, end[1..])
    || (m.cmd == DATA_V2 && exists w :: 0 <= w < |img| && m.data == Payload(img, V2_CHUNK, w))
  }

  predicate Datagrams(start: seq<byte>, end: seq<byte>) {
    5 <= |start| <= 1 + V2_MAX && start[0] == START && |end| == 4 && end[0] == END
  }

  lemma LateParse(img: seq<byte>, start: seq<byte>, end: seq<byte>, p: seq<byte>)
    requires 0 < |img| < U32_MOD && Datagrams(start, end) && LateFrame(img, start, end, p)
    ensures Parse(p).Some? && LateMsg(img, start, end, Parse(p).value)
  {
    if p != start && p != end {
      var w :| 0 <= w < |img| && p == Frame(img, V2_CHUNK, w);
      FrameParses(img, V2_CHUNK, w);
    }
  }

  /** A reply that can be taken for END's success only if END has succeeded, or by an accident of the
      length. */
  predicate Fair(img: seq<byte>, verdict: Option<bool>, r: seq<byte>) {
    ReadsAsSuccess(r) ==> verdict == Some(true) || |img| % 256 == 1
  }

  predicate FairSlot(img: seq<byte>, verdict: Option<bool>, s: Slot) {
    s.pending > 0 ==> Fair(img, verdict, s.prev) && Fair(img, verdict, s.cur)
  }

  lemma TornFair(img: seq<byte>, verdict: Option<bool>, s: Slot, k: nat)
    requires s.pending > 0 && FairSlot(img, verdict, s)
    ensures Fair(img, verdict, Torn(s.prev, s.cur, k))
  {
  }

  lemma FilledFair(img: seq<byte>, verdict: Option<bool>, s: Slot, rep: seq<byte>, posted: bool)
    requires FairSlot(img, verdict, s) && Fair(img, verdict, rep)
    ensures FairSlot(img, verdict, Filled(s, rep, posted))
  {
  }

  /** The answers to late commands, as main() reads them: a START that is not refused reads as END's
      success, data and a second END as its rejection. */
  lemma LateAnswers(n: nat)
    ensures ReadsAsSuccess(StartReply(1)) && !ReadsAsSuccess(StartReply(0))
    ensures !ReadsAsSuccess(FwUdp.EndReply(false)) && ReadsAsSuccess(FwUdp.EndReply(true))
    ensures ReadsAsSuccess(V2Reply(n)) <==> n % 256 == 1
  {
    LowByte(n);
    StartReplyShape(0);
    StartReplyShape(1);
    assert StartReply(0)[1] == 0 && StartReply(1)[1] == 1;
    assert FwUdp.EndReply(false)[1] == 0 && FwUdp.EndReply(true)[1] == 1;
  }

  lemma LateFair(img: seq<byte>, verdict: Option<bool>)
    ensures Fair(img, None, StartReply(0)) && Fair(img, None, V2Reply(|img|))
    ensures Fair(img, verdict, V2Reply(0)) && Fair(img, verdict, FwUdp.EndReply(false))
    ensures Fair(img, Some(true), FwUdp.EndReply(true))
  {
    LateAnswers(0);
    LateAnswers(|img|);
  }

  /** From the moment END is sent. */
  class Epilogue {
    const link: Link
    const trial: bool
    /** What boot_set_pending answers. */
    const boot_ok: bool
    const end: seq<byte>
    ghost const img: seq<byte>
    /** The swap request before END. */
    ghost const earlier: Option<bool>
    /** What END was answered, once it has been worked off. */
    var verdict: Option<bool>
    /** A copy of START has been worked off since. */
    var started: bool
    /** After an accepted END: image and swap request have been in slot1 all the time. */
    ghost var kept: bool

    ghost predicate Valid()
      reads this, link, link.task, link.task.replies, link.task.session, link.task.session.page,
            link.task.session.flash, link.task.session.flash.mem
    {
      && link.task.Valid() && link.task.session.flash.reliable && link.task.session.flash.powered
      && 0 < |img| <= FwUpg.SLOT1_SIZE && Datagrams(link.start, end) && link.task.Admits(link.start[1..])
      && end == EndCommand(trial, Crc.Ccitt(0, img))
      && (forall p :: p in link.frames ==> LateFrame(img, link.start, end, p))
      && (forall i :: 0 <= i < |link.task.queue| ==> LateMsg(img, link.start, end, link.task.queue[i]))
      && Phase() && (!started ==> AllFair())
    }

    ghost predicate AllFair()
      reads this, link, link.task.replies
    {
      && (forall r :: r in link.replies ==> r in link.early || Fair(img, verdict, r))
      && link.task.replies.Length == 2
      && FairSlot(img, verdict, link.task.replies[0]) && FairSlot(img, verdict, link.task.replies[1])
    }

    ghost predicate Phase()
      requires link.task.session.flash.Valid() && |img| <= FwUpg.SLOT1_SIZE
      reads this, link.task, link.task.session, link.task.session.flash, link.task.session.flash.mem
    {
      if verdict.None? then
        && !started && kept && link.task.swap == earlier && link.task.Steady() && !link.task.session.failed
        && link.task.session.accepted == img && link.task.session.total == |img|
      else
        && (!started ==> Settled())
        && (verdict.value ==> (kept <==> !started))
        && (!verdict.value ==> !(boot_ok && Right()))
    }

    /** The image is signed, with the device's key. */
    ghost predicate Right() {
      Signed(img) && ToolKeyhash(img) == Some(link.task.session.keyhash)
    }

    /** END has been worked off: the transfer is over, slot1 is as END found it. */
    ghost predicate Settled()
      requires link.task.session.flash.Valid() && |img| <= FwUpg.SLOT1_SIZE && verdict.Some?
      reads this, link.task, link.task.session, link.task.session.flash.mem
    {
      && !link.task.session.active && link.task.session.Received() == 0
      && link.task.session.flash.Image()[..|img|] == img
      && link.task.swap == (if verdict.value then Some(!trial) else earlier)
      && (verdict.value <==> boot_ok && FwUpg.ImageKeyhash(link.task.session.flash.Image())
                                        == Some(link.task.session.keyhash))
    }

    /** Image and request are there. */
    ghost predicate Held()
      requires link.task.session.flash.Valid() && |img| <= FwUpg.SLOT1_SIZE
      reads this, link.task, link.task.session.flash.mem
    {
      link.task.session.flash.Image()[..|img|] == img && link.task.swap == Some(!trial)
    }

    /** The transfer is complete. */
    constructor (link: Link, trial: bool, boot_ok: bool, end: seq<byte>, ghost img: seq<byte>)
      requires Job(img, V2_CHUNK) && link.Carries(img, V2_CHUNK) && link.task.session.accepted == img
      requires end == EndCommand(trial, Crc.Ccitt(0, img)) && link.task.Admits(link.start[1..])
      ensures Valid() && this.link == link && this.img == img && this.trial == trial && this.boot_ok == boot_ok
      ensures this.end == end && earlier == link.task.swap && verdict == None && !started && kept
    {
      this.link, this.trial, this.boot_ok, this.end, this.img := link, trial, boot_ok, end, img;
      earlier, verdict, started, kept := link.task.swap, None, false, true;
      new;
      CarriedIsLate(img, link.start, end, link.early, link.View());
      hide NetCarries, LateFrame, LateMsg, FairSlot, Fair;
    }

    /** The tool sends END. */
    method SendEnd()
      requires Valid()
      modifies link`frames
      ensures Valid()
    {
      hide LateMsg, FairSlot, Fair, EndCommand, Right, FwUpg.ImageKeyhash;
      link.frames := link.frames + {end};
    }

    /** One event of the network or the device, or none. */
    method Event()
      requires Valid()
      modifies this`verdict, this`started, this`kept, link`replies, link.task, link.task.replies,
               link.task.session, link.task.session.page, link.task.session.flash`powered,
               link.task.session.flash.mem
      ensures Valid() && link.frames == old(link.frames) && old(link.replies) <= link.replies
      ensures old(verdict).Some? ==> verdict == old(verdict)
      ensures old(started) ==> started
    {
      var what: nat, slot: nat, copied: nat := *, *, *;
      if what == 0 && link.frames != {} {
        var p :| p in link.frames;
        Deliver(p);
      } else if what == 1 && link.task.queue != [] {
        WorkOff();
      } else if what == 2 && slot < 2 && link.task.replies[slot].pending > 0 {
        Answer(slot, copied);
      }
    }

    method Deliver(p: seq<byte>)
      requires Valid() && p in link.frames
      modifies link.task`queue
      ensures Valid()
      ensures old(link.task.queue) == [] ==> Parse(p).Some? && link.task.queue == [Parse(p).value]
    {
      hide LateFrame, LateMsg, FairSlot, Fair, EndCommand, FwUpg.ImageKeyhash, Parse, Right;
      LateParse(img, link.start, end, p);
      var taken := link.task.Cmd(p);
    }

    method Answer(slot: nat, copied: nat)
      requires Valid() && slot < 2 && link.task.replies[slot].pending > 0
      modifies link`replies, link.task.replies
      ensures Valid() && old(link.replies) <= link.replies
    {
      hide LateFrame, LateMsg, Fair, EndCommand, Right, FwUpg.ImageKeyhash, Torn;
      if !started {
        TornFair(img, verdict, link.task.replies[slot], copied);
      }
      var r := link.task.SendReply(slot, copied);
      link.replies := link.replies + {r};
    }

    /** The worker takes the oldest command. */
    method WorkOff()
      requires Valid() && link.task.queue != []
      modifies this`verdict, this`started, this`kept, link.task, link.task.replies,
               link.task.session, link.task.session.page, link.task.session.flash`powered,
               link.task.session.flash.mem
      ensures Valid() && (old(verdict).Some? ==> verdict == old(verdict))
      ensures started == (old(started) || (old(verdict).Some? && old(link.task.queue)[0].cmd == START))
    {
      hide Valid;
      if started {
        WorkLost();
      } else if verdict.None? {
        if link.task.queue[0].cmd == END {
          WorkEnd();
        } else if link.task.queue[0].cmd == START {
          StartBefore();
        } else {
          KnownKind();
          DataBefore();
        }
      } else if link.task.queue[0].cmd == START {
        var rep := WorkStart();
      } else {
        WorkAfter();
      }
    }

    lemma KnownKind()
      requires Valid() && link.task.queue != []
      ensures var c := link.task.queue[0].cmd; c == START || c == DATA_V2 || c == END
    {
      hide FairSlot, Fair, EndCommand, Right, FwUpg.ImageKeyhash, LateFrame, Payload;
      assert LateMsg(img, link.start, end, link.task.queue[0]);
    }

    /** While the transfer is open, a copy of START changes nothing. */
    method StartBefore()
      requires Valid() && link.task.queue != [] && verdict.None? && link.task.queue[0].cmd == START
      modifies this`verdict, this`started, this`kept, link.task, link.task.replies,
               link.task.session, link.task.session.page, link.task.session.flash`powered,
               link.task.session.flash.mem
      ensures Valid() && verdict.None? && started == old(started)
    {
      hide LateFrame, Fair, EndCommand, Right, FwUpg.ImageKeyhash, Filled, FwUpg.Emptied, Crc.Ccitt, GetLe32;
      hide V2Reply, Payload;
      ghost var slots, i := link.task.replies[..], link.task.reply_idx % 2;
      LateFair(img, None);
      hide LateMsg, FairSlot, FwProtocol.Work, Store, ReplyTo;
      var posted, rep := link.task.Work(boot_ok);
      PoolFair(img, None, slots, i, rep, posted);
    }

    /** Nor does data, all of which has come. */
    method DataBefore()
      requires Valid() && link.task.queue != [] && verdict.None? && link.task.queue[0].cmd == DATA_V2
      modifies this`verdict, this`started, this`kept, link.task, link.task.replies,
               link.task.session, link.task.session.page, link.task.session.flash`powered,
               link.task.session.flash.mem
      ensures Valid() && verdict.None? && started == old(started)
    {
      hide LateFrame, Fair, EndCommand, Right, FwUpg.ImageKeyhash, Filled, FwUpg.Emptied, Crc.Ccitt, GetLe32;
      hide V2Reply, Payload;
      ghost var slots, i := link.task.replies[..], link.task.reply_idx % 2;
      LateOffset(img, link.start, end, link.task.queue[0]);
      LateFair(img, None);
      hide LateMsg, FairSlot, FwProtocol.Work, Store, ReplyTo;
      var posted, rep := link.task.Work(boot_ok);
      PoolFair(img, None, slots, i, rep, posted);
    }

    /** END itself: the verdict falls. */
    method WorkEnd()
      requires Valid() && link.task.queue != [] && verdict.None? && link.task.queue[0].cmd == END
      modifies this`verdict, this`started, this`kept, link.task, link.task.replies,
               link.task.session, link.task.session.page, link.task.session.flash`powered,
               link.task.session.flash.mem
      ensures Valid() && verdict.Some? && started == old(started)
    {
      hide LateFrame, Fair, FwUpg.ImageKeyhash, Filled, FwUpg.Emptied, Crc.Ccitt, GetLe32, V2Reply, Payload;
      hide RegBits.Pair16, RegBits.Lo16, RegBits.Hi16, Signed, ToolKeyhash;
      ghost var slots, i := link.task.replies[..], link.task.reply_idx % 2;
      RegBits.PairHalves(Crc.Ccitt(0, img));
      assert end[1..][0] == end[1] && end[1..][1] == end[2] && end[1..][2] == end[3];
      assert (end[1] == 0) == !trial;
      assert RegBits.Pair16(end[2], end[3]) == Crc.Ccitt(0, img);
      assert link.task.queue[0] == Msg(END, end[1..]);
      hide EndCommand, LateMsg, FairSlot, FwProtocol.Work, Store, ReplyTo;
      var posted, rep := link.task.Work(boot_ok);
      verdict := Some(rep == FwUdp.EndReply(true));
      LateFair(img, verdict);
      if Right() {
        FingerprintsAgree(img, link.task.session.flash.Image(), link.task.session.keyhash);
      }
      VerdictFair(img, verdict, slots, link.replies, link.early);
      PoolFair(img, verdict, slots, i, rep, posted);
    }

    /** After END, data and another END change nothing. */
    method WorkAfter()
      requires Valid() && link.task.queue != [] && verdict.Some? && !started && link.task.queue[0].cmd != START
      modifies this`verdict, this`started, this`kept, link.task, link.task.replies,
               link.task.session, link.task.session.page, link.task.session.flash`powered,
               link.task.session.flash.mem
      ensures Valid() && verdict == old(verdict) && !started
    {
      hide LateFrame, Fair, EndCommand, Right, FwUpg.ImageKeyhash, Filled, FwUpg.Emptied, Crc.Ccitt, GetLe32;
      hide V2Reply, Payload;
      ghost var slots, i := link.task.replies[..], link.task.reply_idx % 2;
      LateFair(img, verdict);
      hide LateMsg, FairSlot, FwProtocol.Work, Store, ReplyTo;
      var posted, rep := link.task.Work(boot_ok);
      PoolFair(img, verdict, slots, i, rep, posted);
    }

    /** After END, a copy of START begins a new session: it is answered with success, slot1 is blank, and
        the swap request is gone. */
    method WorkStart() returns (rep: seq<byte>)
      requires Valid() && link.task.queue != [] && verdict.Some? && !started && link.task.queue[0].cmd == START
      modifies this`verdict, this`started, this`kept, link.task, link.task.replies,
               link.task.session, link.task.session.page, link.task.session.flash`powered,
               link.task.session.flash.mem
      ensures Valid() && verdict == old(verdict) && started
      ensures rep == StartReply(1) && ReadsAsSuccess(rep)
      ensures FwUpg.Emptied(link.task.session.flash.Image()) && link.task.swap == None
    {
      hide LateFrame, Fair, EndCommand, Right, FwUpg.ImageKeyhash, Filled, FwUpg.Emptied, Crc.Ccitt, GetLe32;
      hide V2Reply, Payload;
      LateAnswers(0);
      hide FairSlot, FwProtocol.Work, Store, ReplyTo;
      var posted;
      posted, rep := link.task.Work(boot_ok);
      started := true;
      kept := kept && Held();
    }

    /** Once a START has been worked off anything goes. */
    method WorkLost()
      requires Valid() && link.task.queue != [] && started
      modifies this`verdict, this`started, this`kept, link.task, link.task.replies,
               link.task.session, link.task.session.page, link.task.session.flash`powered,
               link.task.session.flash.mem
      ensures Valid() && verdict == old(verdict) && started
    {
      hide LateFrame, Fair, EndCommand, Right, FwUpg.ImageKeyhash, Filled, FwUpg.Emptied, Crc.Ccitt, GetLe32;
      hide V2Reply, Payload;
      var posted, rep := link.task.Work(boot_ok);
    }
  }

  /** A data command of the image is not for its end. */
  lemma LateOffset(img: seq<byte>, start: seq<byte>, end: seq<byte>, m: Msg)
    requires 0 < |img| < U32_MOD && Datagrams(start, end) && LateMsg(img, start, end, m) && m.cmd == DATA_V2
    ensures |m.data| >= 5 && GetLe32(m.data) < |img|
  {
    var w :| 0 <= w < |img| && m.data == Payload(img, V2_CHUNK, w);
    PayloadFields(img, V2_CHUNK, w);
  }

  lemma PoolFair(img: seq<byte>, verdict: Option<bool>, slots: seq<Slot>, i: nat, rep: seq<byte>, posted: bool)
    requires |slots| == 2 && i < 2 && FairSlot(img, verdict, slots[0]) && FairSlot(img, verdict, slots[1])
    requires Fair(img, verdict, rep)
    ensures var now := slots[i := Filled(slots[i], rep, posted)];
            FairSlot(img, verdict, now[0]) && FairSlot(img, verdict, now[1])
  {
    hide FairSlot, Fair, Filled;
    FilledFair(img, verdict, slots[i], rep, posted);
  }

  /** What is fair before the verdict is fair after it. */
  lemma VerdictFair(img: seq<byte>, verdict: Option<bool>, slots: seq<Slot>, replies: set<seq<byte>>,
                    early: set<seq<byte>>)
    requires |slots| == 2 && FairSlot(img, None, slots[0]) && FairSlot(img, None, slots[1])
    requires forall r :: r in replies ==> r in early || Fair(img, None, r)
    ensures FairSlot(img, verdict, slots[0]) && FairSlot(img, verdict, slots[1])
    ensures forall r :: r in replies ==> r in early || Fair(img, verdict, r)
  {
  }

  lemma CarriedIsLate(img: seq<byte>, start: seq<byte>, end: seq<byte>, early: set<seq<byte>>, n: Net)
    requires Job(img, V2_CHUNK) && NetCarries(img, V2_CHUNK, start, early, n) && |end| == 4
    ensures start != [] && forall p :: p in n.frames ==> LateFrame(img, start, end, p)
    ensures forall i :: 0 <= i < |n.dev.queue| ==> LateMsg(img, start, end, n.dev.queue[i])
    ensures forall r :: r in n.replies ==> r in early || Fair(img, None, r)
    ensures |n.dev.slots| == 2 && FairSlot(img, None, n.dev.slots[0]) && FairSlot(img, None, n.dev.slots[1])
  {
    hide Frame, Payload;
  }

  // ---- the late START ----

  lemma SignedNotBlank(img: seq<byte>)
    requires Signed(img)
    ensures exists i :: 0 <= i < 4 && img[i] != 0xFF
  {
    hide EntriesInside, GetLe16, ToolTlv;
    if forall i :: 0 <= i < 4 ==> img[i] == 0xFF {
      assert img[..4] == [0xFF, 0xFF, 0xFF, 0xFF];
      OnesValue();
      assert false;
    }
  }

  lemma OnesValue()
    ensures Le([0xFF, 0xFF, 0xFF, 0xFF]) == 0xFFFF_FFFF
  {
    OneByte();
    LeNothing();
    hide Val, Le;
    assert [0xFF, 0xFF, 0xFF, 0xFF][1..] == [0xFF, 0xFF, 0xFF] && [0xFF, 0xFF, 0xFF][1..] == [0xFF, 0xFF];
    assert [0xFF, 0xFF][1..] == [0xFF] && [0xFF][1..] == [];
    LeHead([0xFF, 0xFF, 0xFF, 0xFF]);
    LeHead([0xFF, 0xFF, 0xFF]);
    LeHead([0xFF, 0xFF]);
    LeHead([0xFF]);
  }

  lemma OneByte()
    ensures Val(0xFF) == 255
  {
  }

  /** After an accepted END one copy of START, still in the network, undoes the upgrade: slot1 is blank,
      the swap request is gone, and the answer reads as success. */
  method LateStart(e: Epilogue) returns (rep: seq<byte>)
    requires e.Valid() && e.verdict == Some(true) && !e.started && Signed(e.img)
    requires e.link.task.queue == [] && e.link.start in e.link.frames
    modifies e`verdict, e`started, e`kept, e.link.task, e.link.task.replies, e.link.task.session,
             e.link.task.session.page, e.link.task.session.flash`powered, e.link.task.session.flash.mem
    ensures e.Valid() && e.verdict == Some(true) && !e.kept
    ensures rep == StartReply(1) && ReadsAsSuccess(rep)
    ensures e.link.task.session.flash.Image()[..|e.img|] != e.img && e.link.task.swap == None
  {
    hide Signed, ToolKeyhash, FwUpg.ImageKeyhash, LateFrame, FairSlot, Fair, EndCommand, FwUpg.Emptied, Crc.Ccitt;
    hide GetLe32, Parse;
    StartParses(e.link.start, e.end);
    e.Deliver(e.link.start);
    rep := e.WorkStart();
    ImageLost(e.img, e.link.task.session.flash.Image());
  }

  lemma StartParses(start: seq<byte>, end: seq<byte>)
    requires Datagrams(start, end)
    ensures Parse(start) == Some(Msg(START, start[1..]))
  {
    assert start[1..1 + (|start| - 1)] == start[1..];
  }

  lemma ImageLost(img: seq<byte>, m: seq<byte>)
    requires Signed(img) && |m| == NorFlash.CHIP && FwUpg.Emptied(m)
    ensures |img| <= FwUpg.SLOT1_SIZE && m[..|img|] != img
  {
    SignedNotBlank(img);
    var i :| 0 <= i < 4 && img[i] != 0xFF;
    hide EntriesInside, ToolTlv, GetLe32, GetLe16;
    assert m[..FwUpg.SLOT1_SIZE][i] == 0xFF;
    assert m[..|img|][i] == 0xFF;
  }

  // ---- the tool ----

  /** NoAnswer: START or END, or the answer to it, was lost. */
  datatype Result = NoAnswer | GaveUp | Rejected | Installed

  /** Any number of events. */
  method Linger(e: Epilogue)
    requires e.Valid()
    modifies e`verdict, e`started, e`kept, e.link`replies, e.link.task, e.link.task.replies, e.link.task.session,
             e.link.task.session.page, e.link.task.session.flash`powered, e.link.task.session.flash.mem
    ensures e.Valid() && (old(e.verdict).Some? ==> e.verdict == old(e.verdict)) && (old(e.started) ==> e.started)
    ensures old(e.link.replies) <= e.link.replies
  {
    var n: nat := *;
    while n > 0
      invariant e.Valid() && (old(e.verdict).Some? ==> e.verdict == old(e.verdict)) && (old(e.started) ==> e.started)
      invariant old(e.link.replies) <= e.link.replies
    {
      e.Event();
      n := n - 1;
    }
  }

  /** What the tool reports, and when the report is true: the answer is not from before the transfer, no
      START had been worked off when it came, and the length is not 1 modulo 256. */
  ghost predicate Reported(r: Result, e: Epilogue, answer: Option<seq<byte>>, late: bool)
    reads e, e.link
  {
    && (answer.None? ==> r == NoAnswer) && (late ==> e.started)
    && (answer.Some? ==>
          && answer.value in e.link.replies
          && r == (if ReadsAsSuccess(answer.value) then Installed else Rejected))
    && (r == Installed && answer.value !in e.link.early && !late && |e.img| % 256 != 1 ==> e.verdict == Some(true))
  }

  /** The answer to END, before and after which anything may happen. */
  method Await(e: Epilogue) returns (r: Result, answer: Option<seq<byte>>, late: bool)
    requires e.Valid()
    modifies e`verdict, e`started, e`kept, e.link`replies, e.link.task, e.link.task.replies, e.link.task.session,
             e.link.task.session.page, e.link.task.session.flash`powered, e.link.task.session.flash.mem
    ensures e.Valid() && r != GaveUp && Reported(r, e, answer, late)
  {
    hide FwUpg.ImageKeyhash, Signed, ToolKeyhash, LateFrame, LateMsg, FairSlot, EndCommand, ReadsAsSuccess;
    r, answer, late := NoAnswer, None, false;
    Linger(e);
    var heard: bool := *;
    if heard && e.link.replies != {} {
      var x :| x in e.link.replies;
      r := if ReadsAsSuccess(x) then Installed else Rejected;
      answer, late := Some(x), e.started;
    }
    Linger(e);
  }

  /** After an accepted START: the transfer, END, whatever datagram comes first, and the time until the
      reboot. */
  method Deploy(link: Link, img: seq<byte>, trial: bool, boot_ok: bool)
    returns (r: Result, e: Epilogue?, answer: Option<seq<byte>>, late: bool)
    requires Job(img, V2_CHUNK) && link.Carries(img, V2_CHUNK) && link.task.Admits(link.start[1..])
    modifies link, link.task, link.task.replies, link.task.session, link.task.session.page,
             link.task.session.flash`powered, link.task.session.flash.mem
    ensures link.task.Valid() && (r == GaveUp <==> e == null)
    ensures e != null ==>
      && fresh(e) && e.Valid() && e.link == link && e.img == img && e.trial == trial && e.boot_ok == boot_ok
      && Reported(r, e, answer, late)
  {
    hide NetCarries, FwUpg.ImageKeyhash, RegBits.Lo16, RegBits.Hi16, Crc.Ccitt, ToolKeyhash, Signed, GetLe32;
    r, e, answer, late := GaveUp, null, None, false;
    var off := SendV2(link, img, V2_CHUNK);
    if off.None? {
      return;
    }
    Settle(link, img, V2_CHUNK);
    StoredOk(img, V2_CHUNK, link.start, link.early, link.View());
    assert link.task.session.accepted == img;
    var crc := Crc.Crc16Ccitt(0, img);
    e := new Epilogue(link, trial, boot_ok, EndCommand(trial, crc), img);
    e.SendEnd();
    r, answer, late := Await(e);
  }

  lemma StartFields(n: u32, kh: seq<byte>)
    ensures |PutLe(4, n) + kh| == 4 + |kh| && GetLe32(PutLe(4, n) + kh) == n
    ensures (PutLe(4, n) + kh)[4..] == kh
  {
    Widths();
    LeRoundTrip(4, n);
    assert (PutLe(4, n) + kh)[..4] == PutLe(4, n);
  }

  /** main(), from an idle device. Every exchange may be lost, every datagram may come late or again. A
      report of success is true unless the answer was START's, or a START had been worked off by then, or
      by an accident of the length. Once the device has accepted END, image and swap request are in slot1
      until the reboot exactly if no copy of START has been worked off since. And a signed image with the
      device's key is not refused by END. */
  method Upgrade(task: FwUdp.Task, img: seq<byte>, trial: bool, boot_ok: bool)
    returns (r: Result, e: Epilogue?, answer: Option<seq<byte>>, late: bool)
    requires task.Valid() && !task.session.active && task.queue == []
    requires task.session.flash.reliable && task.session.flash.powered
    requires task.replies[0].pending == 0 && task.replies[1].pending == 0
    requires |img| < U32_MOD
    modifies task, task.replies, task.session, task.session.page,
             task.session.flash`powered, task.session.flash.mem
    ensures task.Valid()
    ensures r == Installed ==> e != null
    ensures e != null ==>
      && e.Valid() && e.link.task == task && e.img == img && e.trial == trial && e.boot_ok == boot_ok
      && e.link.early == {StartReply(1)} && Reported(r, e, answer, late)
      && (e.verdict == Some(true) ==> (e.kept <==> !e.started))
      && (e.verdict == Some(true) && !e.started ==>
            && boot_ok && task.swap == Some(!trial)
            && |img| <= FwUpg.SLOT1_SIZE && task.session.flash.Image()[..|img|] == img
            && FwUpg.ImageKeyhash(task.session.flash.Image()) == Some(task.session.keyhash))
      && (Signed(img) && ToolKeyhash(img) == Some(task.session.keyhash) && boot_ok ==> e.verdict != Some(false))
    ensures (e == null && r == Rejected) ==>
      !(64 <= |img| && Signed(img) && ToolKeyhash(img) == Some(task.session.keyhash))
  {
    hide NetCarries, FwUpg.ImageKeyhash, ToolKeyhash, GetLe32, EntriesInside, Datagrams;
    r, e, answer, late := Rejected, null, None, false;
    var kh := KeyhashFromImage(img);
    if kh.None? {
      return;
    }
    StartFields(|img|, kh.value);
    var whole := PutLe(4, |img|) + kh.value;
    // what the device's message buffer takes of it
    var start := whole[..Min(|whole|, V2_MAX)];
    KeptFields(whole, start);
    var arrives, heard: bool := *, *;
    if !arrives {
      return NoAnswer, null, None, false;
    }
    var rep := task.OnStart(start);
    assert StartReply(0)[1] == 0 && StartReply(1)[1] == 1 && StartReply(2)[1] == 2;
    if !heard {
      return NoAnswer, null, None, false;
    }
    if rep[1] != 1 {
      return;
    }
    StartReplyShape(1);
    var link := new Link(task, [START] + start, {rep});
    Fresh(img, link.start, link.early, link.View());
    r, e, answer, late := Deploy(link, img, trial, boot_ok);
  }

  lemma KeptFields(all: seq<byte>, kept: seq<byte>)
    requires |all| >= 4 && kept == all[..Min(|all|, V2_MAX)]
    ensures GetLe32(kept) == GetLe32(all) && (|kept| >= 36 ==> kept[4..36] == all[4..][..32])
    ensures |all| >= 36 <==> |kept| >= 36
  {
    assert kept[..4] == all[..4];
  }

  lemma Fresh(img: seq<byte>, start: seq<byte>, early: set<seq<byte>>, n: Net)
    requires Job(img, V2_CHUNK) && n.dev.queue == []
    requires 5 <= |start| <= 1 + V2_MAX && start[0] == START && n.frames == {start}
    requires n.replies == early && forall r :: r in early ==> !IsV2(r)
    requires |n.dev.slots| == 2 && n.dev.slots[0].pending == 0 && n.dev.slots[1].pending == 0
    requires n.dev.transfer == Transfer(|img|, false, [])
    ensures NetCarries(img, V2_CHUNK, start, early, n)
  {
  }
}
