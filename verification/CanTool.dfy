/** The data phase of the CAN upgrade tool (tools/firmware_upgrade_can.py, send_data) run against the boot
    loader's own code. The bus loses and reorders nothing; the device works off what is on it as late as
    it likes. */
module CanTool {
  import opened Bytes
  import opened Common
  import opened NorFlash
  import opened CanProtocol
  import opened CanLockstep
  import BootCan
  import BootRescue
  import IntFlash
  import KeyBuffer

  /** On the wire a short frame is padded with anything. */
  function DataFrame(piece: seq<byte>): Frame
    requires |piece| <= FRAME
  {
    CanFrame(ID_DATA, piece + seq(FRAME - |piece|, _ => 0), |piece|)
  }

  /** The session has taken `stored` of an image of `total` bytes, and the rest of its place is blank. */
  predicate Holds(s: BootRescue.Rescue, stored: seq<byte>, total: nat) {
    && BootRescue.Good(s) && s.active && s.total == total && s.written == |stored|
    && forall p: nat :: p < total ==>
         BootRescue.At(s.image, p) == if p < |stored| then stored[p] else 0xFF
  }

  class Link {
    const session: BootCan.Session
    var bus: seq<seq<byte>>
    var replies: seq<Reply>
    ghost var stored: seq<byte>

    ghost function View(h: Host): (x: World)
      reads this
    {
      World(h, bus, stored, replies)
    }

    /** A transfer of img goes on, with the tool as far as h. */
    ghost predicate Carries(img: seq<byte>, h: Host)
      reads this, session, session.keys, session.keys.keybuf, session.flash.mem
    {
      && session.Valid() && session.flash.sure_write && Holds(session.View(), stored, |img|)
      && Inv(img, View(h))
    }

    ghost function Boot(): seq<byte>
      requires session.flash.Valid()
      reads session.flash.mem
    {
      session.flash.Image()[..BootRescue.SLOT0_OFFSET]
    }

    /** START has been answered. */
    constructor (session: BootCan.Session, ghost img: seq<byte>)
      requires session.Valid() && session.flash.sure_write && img != [] && Holds(session.View(), [], |img|)
      ensures this.session == session && Carries(img, Host(Sending, 0, 0))
    {
      this.session := session;
      bus, replies, stored := [], [], [];
      new;
      InitialInv(img);
    }

    /** The device takes a frame off the bus. */
    method Handle(ghost img: seq<byte>, ghost h: Host)
      requires Carries(img, h) && bus != []
      modifies this, session`active, session`written, session.flash.mem
      ensures Carries(img, h) && View(h) == Next(img, old(View(h)), CanLockstep.Step.Handle) && Boot() == old(Boot())
    {
      hide DataReply, StreamOk, Base, RoundUp, BootRescue.Taken;
      HandleKeeps(img, View(h));
      FitsBus(img, View(h));
      var reply;
      ghost var o;
      ghost var was := session.View();
      reply, o := session.HandleData(DataFrame(bus[0]));
      HandleIsTaken(was, stored, |img|, bus[0]);
      stored := stored + bus[0];
      bus := bus[1..];
      if reply.Some? {
        replies := replies + [reply.value];
      }
    }

    /** It takes some of them, or none. */
    method Settle(ghost img: seq<byte>, ghost h: Host)
      requires Carries(img, h)
      modifies this, session`active, session`written, session.flash.mem
      ensures Carries(img, h) && Boot() == old(Boot())
    {
      hide Inv, Holds;
      var n: nat := *;
      while n > 0 && bus != []
        invariant Carries(img, h) && Boot() == old(Boot())
      {
        Handle(img, h);
        n := n - 1;
      }
    }

    /** Dev.send */
    method Send(piece: seq<byte>, ghost img: seq<byte>, ghost h: Host)
      requires Carries(img, h) && h.phase == Sending && piece == img[h.off..Min(h.off + FRAME, |img|)]
      modifies this, session`active, session`written, session.flash.mem
      ensures Carries(img, AfterSend(img, h)) && Boot() == old(Boot())
    {
      hide StreamOk, Base, RoundUp, Holds, Inv;
      assert h.off < |img| by {
        SendingMore(img, View(h));
      }
      SendKeeps(img, View(h));
      bus := bus + [piece];
      assert View(AfterSend(img, h)) == Next(img, old(View(h)), CanLockstep.Step.Send);
      Settle(img, AfterSend(img, h));
    }

    /** fw_reply: the answer comes, and it is the one that is due. */
    method FwReply(ghost img: seq<byte>, ghost h: Host) returns (r: Reply)
      requires Carries(img, h) && h.phase == Waiting
      modifies this, session`active, session`written, session.flash.mem
      ensures r == if h.off == |img| then Reply(UpdateSuccess, |img|) else Reply(Offset, h.off)
      ensures Boot() == old(Boot())
      ensures Carries(img, if h.off == |img| then h.(phase := Done) else Host(Sending, h.off, 0))
    {
      hide StreamOk, Base, RoundUp, Holds, Inv, OnBlock;
      while replies == []
        invariant Carries(img, h) && Boot() == old(Boot())
        decreases |bus|
      {
        WaitingBusy(img, View(h));
        Handle(img, h);
      }
      ReceiveKeeps(img, View(h));
      WaitingBusy(img, View(h));
      r := replies[0];
      replies := replies[1..];
    }
  }

  function AfterSend(img: seq<byte>, h: Host): Host {
    var end := Min(h.off + FRAME, |img|);
    Host(if end >= |img| || h.n + 1 >= ACK_FRAMES then Waiting else Sending, end, h.n + 1)
  }

  lemma InitialInv(img: seq<byte>)
    requires img != []
    ensures Inv(img, World(Host(Sending, 0, 0), [], [], []))
  {
  }

  lemma SendingMore(img: seq<byte>, x: World)
    requires Inv(img, x) && x.host.phase == Sending
    ensures x.host.off < |img|
  {
  }

  lemma WaitingBusy(img: seq<byte>, x: World)
    requires Inv(img, x) && x.host.phase == Waiting
    ensures x.replies == [] ==> x.bus != []
    ensures x.host.off <= |img|
  {
    hide DataReply, Base, RoundUp;
  }

  lemma FitsBus(img: seq<byte>, x: World)
    requires Inv(img, x) && x.bus != []
    ensures 0 < |x.bus[0]| <= FRAME && |x.stored| + |x.bus[0]| <= |img|
  {
    HandleStream(img, x);
    hide DataReply, Base, RoundUp;
  }

  /** What the device does with a frame is what the protocol says. */
  lemma HandleIsTaken(s: BootRescue.Rescue, stored: seq<byte>, total: nat, piece: seq<byte>)
    requires Holds(s, stored, total) && 0 < |piece| <= FRAME && |stored| + |piece| <= total
    ensures var t := BootRescue.Taken(s, DataFrame(piece), BootRescue.Works);
            && Holds(t.0, stored + piece, total) && t.1 == DataReply(|stored + piece|, total)
            && t.0.image[..BootRescue.SLOT0_OFFSET] == s.image[..BootRescue.SLOT0_OFFSET]
  {
    var f := DataFrame(piece);
    BootRescue.TakenStores(s, f, BootRescue.Works);
    hide Programmed, And;
    var t := BootRescue.Taken(s, f, BootRescue.Works).0;
    assert Piece(f) == piece;
    hide BootRescue.At;
    forall p: nat | p < total
      ensures BootRescue.At(t.image, p) == if p < |stored + piece| then (stored + piece)[p] else 0xFF
    {
      if |stored| <= p < |stored + piece| {
        AndBlank(piece[p - |stored|]);
      }
    }
  }

  /** send_data, for every image: it ends, none of its error exits is taken, the last answer is
      UPDATE_SUCCESS, no answer is left over, and slot0 holds the image. */
  method SendData(link: Link, img: seq<byte>) returns (sent: Option<nat>)
    requires link.Carries(img, Host(Sending, 0, 0))
    modifies link, link.session`active, link.session`written, link.session.flash.mem
    ensures sent == Some(|img|) && link.replies == [] && link.bus == []
    ensures link.session.Valid() && link.session.written == link.session.total == |img| <= BootRescue.SLOT0_SIZE
    ensures BootRescue.Slot(link.session.View(), |img|) == img && link.session.active
    ensures link.Boot() == old(link.Boot())
  {
    hide Inv, Holds;
    var off, n_in_block := 0, 0;
    while off + 8 <= |img|
      invariant link.Carries(img, Host(Sending, off, n_in_block)) && link.Boot() == old(link.Boot())
      decreases |img| - off
    {
      ghost var h := Host(Sending, off, n_in_block);
      SendingMore(img, link.View(h));
      link.Send(img[off..off + 8], img, h);
      off := off + 8;
      n_in_block := n_in_block + 1;
      if n_in_block >= ACK_FRAMES || off >= |img| {
        var r := link.FwReply(img, AfterSend(img, h));
        if r.code == UpdateSuccess {
          AllThere(link, img, off, n_in_block);
          return Some(off);
        }
        if r.code != Offset {
          return None;
        }
        n_in_block := 0;
      }
    }
    ghost var h := Host(Sending, off, n_in_block);
    SendingMore(img, link.View(h));
    if off < |img| {
      link.Send(img[off..], img, h);
      off := |img|;
      var r := link.FwReply(img, AfterSend(img, h));
      if r.code != UpdateSuccess && r.code != Offset {
        return None;
      }
      AllThere(link, img, off, n_in_block + 1);
    }
    return Some(off);
  }

  lemma AllThere(link: Link, img: seq<byte>, off: nat, n: nat)
    requires link.Carries(img, Host(Done, off, n))
    ensures off == |img| && link.replies == [] && link.bus == []
    ensures link.session.written == link.session.total == |img| <= BootRescue.SLOT0_SIZE
    ensures BootRescue.Slot(link.session.View(), |img|) == img && link.session.active
  {
    AllStored(img, link.View(Host(Done, off, n)));
    var s := link.session.View();
    assert img[..|img|] == img;
    forall p: nat | p < |img|
      ensures BootRescue.Slot(s, |img|)[p] == img[p]
    {
      assert BootRescue.At(s.image, p) == img[p];
    }
  }

  // ---- the whole rescue ----

  /** Chunk s of the fingerprint, padded with zeros (send_keyhash). */
  function KeyFrame(kh: seq<byte>, s: nat): Frame
    requires |kh| == KEYHASH_LEN && s < CHUNKS
  {
    var piece := kh[s * CHUNK..s * CHUNK + ChunkLength(s)];
    CanFrame(ID_KEYHASH, [ToByte(s)] + piece + seq(CHUNK - |piece|, _ => 0), 8)
  }

  lemma KeyFrameTaken(kh: seq<byte>, s: nat, keys: map<nat, seq<byte>>)
    requires |kh| == KEYHASH_LEN && s < CHUNKS
    ensures KeyFrame(kh, s).id == ID_KEYHASH
    ensures KeysAfter(keys, KeyFrame(kh, s)) == keys[s := KeyBuffer.ChunkIn(kh, s)]
  {
    hide ToByte, Val, KeyFrame, KeyBuffer.ChunkIn, KeysAfter;
    KeyFields(kh, s);
    ToByteValue(s);
    ChunkTaken(KeyFrame(kh, s), s, keys);
  }

  lemma ChunkTaken(f: Frame, s: nat, keys: map<nat, seq<byte>>)
    requires f.id == ID_KEYHASH && f.dlc == 8 && s < CHUNKS && Val(f.data[0]) == s
    ensures KeysAfter(keys, f) == keys[s := f.data[1..1 + ChunkLength(s)]]
  {
    hide Val, GetLe32;
  }

  lemma KeyFields(kh: seq<byte>, s: nat)
    requires |kh| == KEYHASH_LEN && s < CHUNKS
    ensures var f := KeyFrame(kh, s);
            && f.id == ID_KEYHASH && f.dlc == 8 && f.data[0] == ToByte(s) && 1 <= ChunkLength(s) <= CHUNK
            && f.data[1..1 + ChunkLength(s)] == KeyBuffer.ChunkIn(kh, s)
  {
    hide ToByte;
    var piece := kh[s * CHUNK..s * CHUNK + ChunkLength(s)];
    Within([ToByte(s)], piece, seq(CHUNK - |piece|, _ => 0));
  }

  lemma Within(a: seq<byte>, b: seq<byte>, c: seq<byte>)
    ensures (a + b + c)[|a|..|a| + |b|] == b
  {
  }

  /** send_keyhash */
  method SendKeyhash(session: BootCan.Session, kh: seq<byte>)
    requires session.Valid() && |kh| == KEYHASH_LEN
    modifies session, session.keys, session.keys.keybuf, session.flash.mem
    ensures session.Valid() && AllChunks(session.View().keys) && Assembled(session.View().keys) == kh
    ensures session.View() == old(session.View()).(keys := session.View().keys)
  {
    hide Val, ToByte, GetLe32, KeysAfter, BootRescue.Step, KeyBuffer.ChunkIn, AllChunks, Assembled, KeyFrame;
    ghost var was := session.View();
    var s := 0;
    while s < CHUNKS
      invariant 0 <= s <= CHUNKS && session.Valid() && session.View() == was.(keys := session.View().keys)
      invariant FirstChunks(session.View().keys, kh, s)
    {
      KeyFrameTaken(kh, s, session.View().keys);
      KeyStep(session.fw_keyhash, session.View(), KeyFrame(kh, s));
      var reply;
      ghost var o;
      reply, o := session.HandleFrame(KeyFrame(kh, s));
      s := s + 1;
    }
    Complete(session.View().keys, kh);
  }

  predicate FirstChunks(keys: map<nat, seq<byte>>, kh: seq<byte>, n: nat)
    requires |kh| == KEYHASH_LEN && n <= CHUNKS
  {
    forall i: nat :: i < n ==> i in keys && keys[i] == KeyBuffer.ChunkIn(kh, i)
  }

  lemma KeyStep(key: seq<byte>, s: BootRescue.Rescue, f: Frame)
    requires BootRescue.Good(s) && f.id == ID_KEYHASH
    ensures forall o :: BootRescue.Step(key, s, f, o) == (s.(keys := KeysAfter(s.keys, f)), None)
  {
    hide KeysAfter;
  }

  lemma Complete(keys: map<nat, seq<byte>>, kh: seq<byte>)
    requires |kh| == KEYHASH_LEN && FirstChunks(keys, kh, CHUNKS)
    ensures AllChunks(keys) && Assembled(keys) == kh
  {
    hide KeyBuffer.ChunkIn;
    KeyBuffer.ChunksCover(kh);
  }

  /** Installed, or the exit the tool takes. */
  datatype Result = Installed | KeyRefused | StartRefused | NotConfirmed

  /** bootupgrade on a quiet bus with a working flash, from any state of the session: fingerprint, START,
      image, CONFIRM. It ends with the image installed exactly when the fingerprint is the built-in one
      and the length fits the slot. */
  method Install(session: BootCan.Session, img: seq<byte>, kh: seq<byte>, permanent: bool) returns (r: Result)
    requires session.Valid() && |kh| == KEYHASH_LEN && |img| < U32_MOD
    requires session.flash.sure_erase && session.flash.sure_write
    modifies session, session.keys, session.keys.keybuf, session.flash.mem
    ensures session.Valid()
    ensures r == Installed <==> kh == session.fw_keyhash && 64 <= |img| <= BootRescue.SLOT0_SIZE
    ensures r == KeyRefused <==> kh != session.fw_keyhash
    ensures r == Installed ==>
      && session.installed && session.confirmed && session.total == |img|
      && BootRescue.Slot(session.View(), |img|) == img
    ensures r != Installed ==>
      && session.installed == old(session.installed) && session.active == old(session.active)
      && session.flash.Image() == old(session.flash.Image())
    ensures session.flash.Image()[..BootRescue.SLOT0_OFFSET] == old(session.flash.Image()[..BootRescue.SLOT0_OFFSET])
  {
    hide IntFlash.Swept, GetLe32, KeysAfter, Holds, Inv;
    SendKeyhash(session, kh);
    var start := BootRescue.Command(CMD_START, |img|);
    BootRescue.CommandFields(CMD_START, |img|);
    ghost var was := session.View();
    var reply;
    ghost var o;
    reply, o := session.HandleFrame(start);
    if reply.value.code == KeyhashError {
      return KeyRefused;
    }
    if reply.value.code == FlashError {
      return StartRefused;
    }
    StartedHolds(was, |img|, session.View());
    var link := new Link(session, img);
    var sent := SendData(link, img);
    var confirm := BootRescue.Command(CMD_CONFIRM, if permanent then 1 else 0);
    BootRescue.CommandFields(CMD_CONFIRM, if permanent then 1 else 0);
    reply, o := session.HandleFrame(confirm);
    r := if reply == Some(Reply(Confirm, CONFIRM_MAGIC)) then Installed else NotConfirmed;
  }

  lemma StartedHolds(s: BootRescue.Rescue, n: nat, t: BootRescue.Rescue)
    requires BootRescue.Good(s) && BootRescue.Good(t) && 64 <= n <= BootRescue.SLOT0_SIZE
    requires t.active && t.total == n && t.written == 0
    requires t.image == IntFlash.Swept(s.image, BootRescue.SLOT0_ADDR, BootRescue.EraseEnd(n), 8)
    ensures Holds(t, [], n) && t.image[..BootRescue.SLOT0_OFFSET] == s.image[..BootRescue.SLOT0_OFFSET]
  {
    BootRescue.SlotSwept(s.image, n, 8);
    hide IntFlash.Swept;
  }
}
