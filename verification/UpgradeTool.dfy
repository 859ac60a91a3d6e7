/** The upgrade tool's transfer (tools/firmware_upgrade.py, send_v2) against the real device code. Between
    any two actions of the tool the network and the device do whatever they like, as in GoBackN. */
module UpgradeTool {
  import opened Bytes
  import opened Common
  import opened FwProtocol
  import opened GoBackN
  import FwUdp
  import FwUpg
  import NorFlash
  import StaleReply

  /** What START datagrams there are are copies of one. */
  predicate StartsAre(start: seq<byte>, n: Net) {
    && 5 <= |start| <= 1 + V2_MAX && start[0] == START
    && (forall p :: p in n.frames && p != [] && p[0] == START ==> p == start)
    && (forall i :: 0 <= i < |n.dev.queue| && n.dev.queue[i].cmd == START ==> n.dev.queue[i].data == start[1..])
  }

  /** What is known of the network and the device behind it while a transfer of img runs. */
  predicate NetCarries(img: seq<byte>, chunk: nat, start: seq<byte>, early: set<seq<byte>>, n: Net)
    requires chunk > 0
  {
    && NetOk(img, chunk, n) && StartsAre(start, n)
    && (chunk == V2_CHUNK ==> StaleReply.NetHarmless(img, early, n))
  }

  class Link {
    const task: FwUdp.Task
    /** The START datagram the transfer began with. */
    const start: seq<byte>
    var frames: set<seq<byte>>
    var replies: set<seq<byte>>
    /** The replies that were on their way before the transfer. */
    const early: set<seq<byte>>

    ghost function View(): Net
      reads this, task, task.replies, task.session
    {
      Net(frames, task.View(), replies)
    }

    /** A transfer of img is running and nothing has gone wrong with it. */
    ghost predicate Carries(img: seq<byte>, chunk: nat)
      reads this, task, task.replies, task.session, task.session.page, task.session.flash,
            task.session.flash.mem
    {
      chunk > 0 && task.Valid() && task.Steady() && NetCarries(img, chunk, start, early, View())
    }

    /** The network may still hold the START exchange. */
    constructor (task: FwUdp.Task, start: seq<byte>, replies: set<seq<byte>>)
      ensures this.task == task && this.start == start && this.frames == {start}
      ensures this.replies == replies == early
    {
      this.task, this.start, this.frames, this.replies, early := task, start, {start}, replies, replies;
    }

    /** sendto */
    method Send(p: seq<byte>, ghost img: seq<byte>, ghost chunk: nat)
      requires Carries(img, chunk) && KnownFrame(img, chunk, p) && p[0] != START
      modifies this`frames
      ensures Carries(img, chunk) && frames == old(frames) + {p}
    {
      frames := frames + {p};
    }

    /** recvfrom: some reply, or nothing before the timeout. */
    method Receive() returns (r: Option<seq<byte>>)
      ensures r.Some? ==> r.value in replies
    {
      var arrives: bool := *;
      if arrives && replies != {} {
        var x :| x in replies;
        return Some(x);
      }
      return None;
    }

    /** One event of the network or the device, or none. */
    method Event(ghost img: seq<byte>, ghost chunk: nat)
      requires Job(img, chunk) && Carries(img, chunk)
      modifies this`replies, task, task.replies, task.session, task.session.page,
               task.session.flash`powered, task.session.flash.mem
      ensures Carries(img, chunk) && frames == old(frames) && task.swap == old(task.swap)
      ensures old(View()).dev.transfer.stored <= View().dev.transfer.stored
    {
      hide NetCarries, Torn, Store, ReplyTo, Parse, Filled;
      ghost var before := View();
      var what: nat, slot: nat, copied: nat := *, *, *;
      if what == 0 && frames != {} {
        var p :| p in frames;
        CarriedOn(img, chunk, start, early, before, Deliver(p));
        var taken := task.Cmd(p);
      } else if what == 1 && task.queue != [] && task.queue[0].cmd != END {
        CarriedOn(img, chunk, start, early, before, Serve(true));
        CarriedOn(img, chunk, start, early, before, Serve(false));
        var posted, rep := task.Work(true);
      } else if what == 2 && slot < 2 && task.replies[slot].pending > 0 {
        CarriedOn(img, chunk, start, early, before, Answer(slot, copied));
        var r := task.SendReply(slot, copied);
        replies := replies + {r};
      }
      StoredOk(img, chunk, start, early, View());
    }
  }

  lemma CarriedOn(img: seq<byte>, chunk: nat, start: seq<byte>, early: set<seq<byte>>, n: Net, a: Action)
    requires Job(img, chunk) && NetCarries(img, chunk, start, early, n) && Possible(n, a)
    ensures NetCarries(img, chunk, start, early, After(n, a))
    ensures n.dev.transfer.stored <= After(n, a).dev.transfer.stored
  {
    hide NetOk, StartsAre, StaleReply.NetHarmless, After, Possible;
    ActionKeeps(img, chunk, n, a);
    StartsKept(start, n, a);
    if chunk == V2_CHUNK {
      StaleReply.ActionHarmless(img, early, n, a);
    }
  }

  lemma StartsKept(start: seq<byte>, n: Net, a: Action)
    requires StartsAre(start, n) && Possible(n, a)
    ensures StartsAre(start, After(n, a))
  {
    hide Store, ReplyTo, Torn, Filled;
  }

  lemma StoredOk(img: seq<byte>, chunk: nat, start: seq<byte>, early: set<seq<byte>>, n: Net)
    requires chunk > 0 && NetCarries(img, chunk, start, early, n)
    ensures TransferOk(img, chunk, n.dev.transfer)
  {
  }

  /** Any number of events. */
  method Settle(link: Link, ghost img: seq<byte>, ghost chunk: nat)
    requires Job(img, chunk) && link.Carries(img, chunk)
    modifies link`replies, link.task, link.task.replies, link.task.session, link.task.session.page,
             link.task.session.flash`powered, link.task.session.flash.mem
    ensures link.Carries(img, chunk) && link.frames == old(link.frames) && link.task.swap == old(link.task.swap)
    ensures |old(link.task.session.accepted)| <= |link.task.session.accepted|
  {
    hide NetCarries;
    var n: nat := *;
    while n > 0
      invariant link.Carries(img, chunk) && link.frames == old(link.frames) && link.task.swap == old(link.task.swap)
      invariant |old(link.task.session.accepted)| <= |link.task.session.accepted|
    {
      link.Event(img, chunk);
      n := n - 1;
    }
  }

  /** send_v2. None is its exit with "window stalled". */
  method SendV2(link: Link, img: seq<byte>, chunk: nat) returns (r: Option<nat>)
    requires Job(img, chunk) && link.Carries(img, chunk)
    modifies link, link.task, link.task.replies, link.task.session, link.task.session.page,
             link.task.session.flash`powered, link.task.session.flash.mem
    ensures link.Carries(img, chunk)
    ensures r.Some? ==> r.value == |img| && link.task.session.accepted == img
  {
    hide NetCarries, GetLe32;
    var total, off, retries := |img|, 0, 0;
    while off < total
      invariant link.Carries(img, chunk) && off <= |link.task.session.accepted|
      invariant off <= total && 0 <= retries <= MAX_RETRIES
      decreases total - off, MAX_RETRIES - retries
    {
      var win_end := Min(off + WINDOW * chunk, total);
      SendWindow(link, img, chunk, off, win_end);
      var confirmed;
      confirmed, retries := Collect(link, img, chunk, off, win_end, retries);
      if confirmed >= win_end {
        off := confirmed;
        continue;
      }
      retries := retries + 1;
      if retries > MAX_RETRIES {
        return None;
      }
      off := confirmed;
    }
    StoredOk(img, chunk, link.start, link.early, link.View());
    return Some(off);
  }

  method SendFrame(link: Link, img: seq<byte>, chunk: nat, w: nat) returns (n: nat)
    requires Job(img, chunk) && link.Carries(img, chunk) && w < |img|
    modifies link`frames
    ensures link.Carries(img, chunk) && n == Min(chunk, |img| - w)
    ensures link.frames == old(link.frames) + {Frame(img, chunk, w)}
  {
    hide NetCarries;
    n := Min(chunk, |img| - w);
    FrameIsKnown(img, chunk, w);
    link.Send([DATA_V2] + (PutLe(4, w) + img[w..w + n]), img, chunk);
  }

  /** A frame begins at v when frames are sent from off. */
  predicate Begins(off: nat, chunk: nat, v: nat)
    requires chunk > 0
  {
    v >= off && Multiple(v - off, chunk)
  }

  /** The frames of a window from off, those that begin before w, have been sent. */
  predicate WindowSent(img: seq<byte>, chunk: nat, frames: set<seq<byte>>, off: nat, w: nat)
    requires chunk > 0
  {
    forall v: nat :: v < w && v < |img| && Begins(off, chunk, v) ==> Frame(img, chunk, v) in frames
  }

  /** The send loop of one window. */
  method SendWindow(link: Link, img: seq<byte>, chunk: nat, off: nat, win_end: nat)
    requires Job(img, chunk) && link.Carries(img, chunk) && off < win_end <= |img|
    modifies link, link.task, link.task.replies, link.task.session, link.task.session.page,
             link.task.session.flash`powered, link.task.session.flash.mem
    ensures link.Carries(img, chunk)
    ensures |old(link.task.session.accepted)| <= |link.task.session.accepted|
    ensures old(link.frames) <= link.frames && WindowSent(img, chunk, link.frames, off, win_end)
  {
    hide NetCarries, Frame, WindowSent;
    var w := off;
    NothingSent(img, chunk, link.frames, off);
    while w < win_end
      invariant off <= w <= |img| && link.Carries(img, chunk)
      invariant |old(link.task.session.accepted)| <= |link.task.session.accepted|
      invariant old(link.frames) <= link.frames
      invariant WindowSent(img, chunk, link.frames, off, w) && (w < |img| ==> Begins(off, chunk, w))
      decreases win_end - w
    {
      OneSent(img, chunk, link.frames, off, w);
      var n := SendFrame(link, img, chunk, w);
      Settle(link, img, chunk);
      w := w + n;
    }
    EarlierSent(img, chunk, link.frames, off, win_end, w);
  }

  lemma NothingSent(img: seq<byte>, chunk: nat, frames: set<seq<byte>>, off: nat)
    requires chunk > 0
    ensures WindowSent(img, chunk, frames, off, off)
  {
  }

  lemma EarlierSent(img: seq<byte>, chunk: nat, frames: set<seq<byte>>, off: nat, w: nat, later: nat)
    requires chunk > 0 && w <= later && WindowSent(img, chunk, frames, off, later)
    ensures WindowSent(img, chunk, frames, off, w)
  {
    hide Frame;
  }

  /** Between one frame and the next no other frame of the window begins. */
  lemma OneSent(img: seq<byte>, chunk: nat, before: set<seq<byte>>, off: nat, w: nat)
    requires chunk > 0 && w < |img| && Begins(off, chunk, w) && WindowSent(img, chunk, before, off, w)
    ensures WindowSent(img, chunk, before + {Frame(img, chunk, w)}, off, FrameEnd(img, chunk, w))
    ensures FrameEnd(img, chunk, w) < |img| ==> Begins(off, chunk, FrameEnd(img, chunk, w))
  {
    hide Frame;
    forall v: nat | v < FrameEnd(img, chunk, w) && Begins(off, chunk, v)
      ensures v <= w
    {
      if v > w {
        MultipleGap(v - off, w - off, chunk);
      }
    }
  }

  /** The receive loop of one window: it ends when the window is confirmed, on a timeout, or when
      the deadline leaves no time for another datagram. */
  method Collect(link: Link, img: seq<byte>, chunk: nat, off: nat, win_end: nat, retries0: nat)
    returns (confirmed: nat, retries: nat)
    requires Job(img, chunk) && link.Carries(img, chunk) && off < win_end <= |img|
    requires off <= |link.task.session.accepted| && retries0 <= MAX_RETRIES
    modifies link`replies, link.task, link.task.replies, link.task.session, link.task.session.page,
             link.task.session.flash`powered, link.task.session.flash.mem
    ensures link.Carries(img, chunk)
    ensures off <= confirmed <= |link.task.session.accepted| <= |img|
    ensures retries == if confirmed > off then 0 else retries0
  {
    hide NetCarries, GetLe32;
    confirmed, retries := off, retries0;
    var time_left: nat := *;
    StoredOk(img, chunk, link.start, link.early, link.View());
    while confirmed < win_end && time_left > 0
      invariant link.Carries(img, chunk)
      invariant off <= confirmed <= |link.task.session.accepted| <= |img|
      invariant retries == if confirmed > off then 0 else retries0
      decreases time_left
    {
      Settle(link, img, chunk);
      StoredOk(img, chunk, link.start, link.early, link.View());
      var got := link.Receive();
      if got.None? {
        return;
      }
      var r := got.value;
      HeardAcks(img, chunk, link.start, link.early, link.View(), r);
      if |r| >= 5 && r[0] == DATA_V2 {
        var roff := GetLe32(r[1..]);
        if roff > confirmed {
          confirmed := Min(roff, |img|);
          retries := 0;
        }
      }
      time_left := time_left - 1;
    }
  }

  lemma HeardAcks(img: seq<byte>, chunk: nat, start: seq<byte>, early: set<seq<byte>>, n: Net, r: seq<byte>)
    requires chunk > 0 && NetCarries(img, chunk, start, early, n) && r in n.replies
    ensures Acks(r, |n.dev.transfer.stored|)
  {
  }

  // ---- the key fingerprint the tool announces ----

  /** The first entry with the KEYHASH tag. Reading past the image is an error of the tool. */
  function ToolWalk(img: seq<byte>, off: nat, end: nat): Option<seq<byte>>
    decreases end - off
  {
    if off + 4 > end || off + 4 > |img| then None
    else
      var tag, ln := GetLe16(img[off..]), GetLe16(img[off + 2..]);
      if tag == FwUpg.KEYHASH_TAG then Some(img[Min(off + 4, |img|)..Min(off + 4 + ln, |img|)])
      else ToolWalk(img, off + 4 + FwUpg.Round4(ln), end)
  }

  function ToolTlv(img: seq<byte>): nat
    requires |img| >= 16
  {
    GetLe16(img[8..]) + GetLe32(img[12..])
  }

  function ToolKeyhash(img: seq<byte>): Option<seq<byte>> {
    if |img| < 16 then None
    else
      var off := ToolTlv(img);
      if off + 4 > |img| || GetLe16(img[off..]) != FwUpg.TLV_MAGIC then None
      else ToolWalk(img, off + 4, off + GetLe16(img[off + 2..]))
  }

  /** keyhash_from_image */
  method KeyhashFromImage(img: seq<byte>) returns (kh: Option<seq<byte>>)
    ensures kh == ToolKeyhash(img)
  {
    hide GetLe16, GetLe32;
    if |img| < 16 {
      return None;
    }
    var off: nat := GetLe16(img[8..]) + GetLe32(img[12..]);
    if off + 4 > |img| || GetLe16(img[off..]) != FwUpg.TLV_MAGIC {
      return None;
    }
    var end := off + GetLe16(img[off + 2..]);
    off := off + 4;
    while off + 4 <= end
      invariant ToolKeyhash(img) == ToolWalk(img, off, end)
      decreases end - off
    {
      if off + 4 > |img| {
        return None;
      }
      var tag, ln := GetLe16(img[off..]), GetLe16(img[off + 2..]);
      if tag == FwUpg.KEYHASH_TAG {
        return Some(img[off + 4..Min(off + 4 + ln, |img|)]);
      }
      off := off + 4 + FwUpg.Round4(ln);
    }
    return None;
  }

  /** An image as the signing tool lays it out: MCUboot's magic and header size, an aligned TLV list
      that lies inside the file. */
  predicate Signed(img: seq<byte>) {
    && 32 <= |img| <= FwUpg.SLOT1_SIZE && GetLe32(img) == FwUpg.IMG_MAGIC
    && GetLe16(img[8..]) == FwUpg.IMG_HDR_SIZE
    && ToolTlv(img) % 4 == 0 && ToolTlv(img) + 4 <= |img|
    && ToolTlv(img) + GetLe16(img[ToolTlv(img) + 2..]) <= |img|
    && EntriesInside(img, ToolTlv(img) + 4, ToolTlv(img) + GetLe16(img[ToolTlv(img) + 2..]))
  }

  lemma SameFields(img: seq<byte>, m: seq<byte>, off: nat)
    requires img <= m && off + 4 <= |img|
    ensures GetLe16(m[off..]) == GetLe16(img[off..]) && GetLe16(m[off + 2..]) == GetLe16(img[off + 2..])
    ensures GetLe32(m[off..]) == GetLe32(img[off..])
  {
    assert m[off..][..2] == img[off..][..2];
    assert m[off + 2..][..2] == img[off + 2..][..2];
    assert m[off..][..4] == img[off..][..4];
  }

  lemma SameSlice(a: seq<byte>, b: seq<byte>, i: nat, j: nat)
    requires a <= b && i <= j <= |a|
    ensures b[i..j] == a[i..j]
  {
    assert b[i..j] == b[..|a|][i..j];
  }

  /** Every TLV between off and end lies inside the file. */
  predicate EntriesInside(img: seq<byte>, off: nat, end: nat)
    requires end <= |img|
    decreases end - off
  {
    off + 4 <= end ==>
      var ln := GetLe16(img[off + 2..]);
      off + 4 + ln <= |img| && EntriesInside(img, off + 4 + FwUpg.Round4(ln), end)
  }

  lemma {:induction false} WalksAgree(img: seq<byte>, m: seq<byte>, off: nat, end: nat, kh: seq<byte>)
    requires img <= m && |m| == NorFlash.CHIP && end <= |img| <= FwUpg.SLOT1_SIZE
    requires EntriesInside(img, off, end)
    requires ToolWalk(img, off, end) == Some(kh) && |kh| == FwUpg.KEYHASH_LEN
    ensures FwUpg.KeyhashAmong(m, off, end) == Some(kh)
    decreases end - off
  {
    hide GetLe16, GetLe32, FwUpg.KeyhashAmong;
    SameFields(img, m, off);
    FwUpg.KeyhashAmongStep(m, off, end);
    var tag, ln := GetLe16(img[off..]), GetLe16(img[off + 2..]);
    if tag == FwUpg.KEYHASH_TAG {
      SameSlice(img, m, off + 4, off + 4 + ln);
    } else {
      WalksAgree(img, m, off + 4 + FwUpg.Round4(ln), end, kh);
    }
  }

  /** For a signed image the fingerprint the tool announces in START is the one the device finds in
      the slot once the image is there. */
  lemma FingerprintsAgree(img: seq<byte>, m: seq<byte>, kh: seq<byte>)
    requires img <= m && |m| == NorFlash.CHIP && Signed(img)
    requires ToolKeyhash(img) == Some(kh) && |kh| == FwUpg.KEYHASH_LEN
    ensures FwUpg.ImageKeyhash(m) == Some(kh)
  {
    hide GetLe16, GetLe32, FwUpg.KeyhashAmong;
    var tlv := ToolTlv(img);
    SameFields(img, m, 0);
    SameFields(img, m, 8);
    SameFields(img, m, 12);
    SameFields(img, m, tlv);
    assert m[0..] == m && img[0..] == img;
    WalksAgree(img, m, tlv + 4, tlv + GetLe16(img[tlv + 2..]), kh);
  }
}
