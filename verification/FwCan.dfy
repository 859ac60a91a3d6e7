/** The application's CAN upgrade channel (src/fw/fw_can.c): the protocol of the boot rescue over the
    slot1 session, fed through a queue by the receive interrupt. */
module FwCan {
  import opened Bytes
  import opened Common
  import opened CanProtocol
  import FwUpg
  import KeyBuffer

  const Q_DEPTH := 32

  class Channel {
    const session: FwUpg.Session
    const keys: KeyBuffer.Chunks
    var queue: seq<Frame>
    /** What boot_set_pending has been asked for. */
    var swap: Option<bool>

    ghost predicate Valid()
      reads this, keys, keys.keybuf, session, session.page, session.flash.mem
    {
      && session.Valid() && keys.Valid() && |queue| <= Q_DEPTH
      && keys.keybuf != session.page && keys.keybuf != session.flash.mem
    }

    constructor (session: FwUpg.Session)
      requires session.Valid()
      ensures Valid() && this.session == session && swap == None && queue == []
      ensures fresh(keys) && fresh(keys.keybuf) && keys.chunks == map[]
    {
      this.session, swap, queue := session, None, [];
      keys := new KeyBuffer.Chunks();
    }

    /** fw_can_frame_isr: a full queue drops the frame. */
    method Arrived(f: Frame)
      requires Valid()
      modifies this`queue
      ensures Valid() && queue == if |old(queue)| < Q_DEPTH then old(queue) + [f] else old(queue)
    {
      if |queue| < Q_DEPTH {
        queue := queue + [f];
      }
    }

    /** What START does: whatever was going on is dropped first, and a complete fingerprint is used up. On
        success the frames that came in while the slot was erased are dropped too, and so is an earlier
        swap request, which lay in the slot. */
    twostate predicate Started(f: Frame, reply: Reply)
      requires old(session.Valid()) && session.Valid()
      reads this`queue, this`swap, keys, session, session.page, session.flash, session.flash.mem
    {
      && keys.chunks == KeysAfter(old(keys.chunks), f)
      && (reply == Reply(Offset, 0) || reply == Reply(KeyhashError, 0) || reply == Reply(FlashError, 0))
      && (reply.code == Offset <==> session.active)
      && (session.active ==>
            && !session.failed && session.total == Arg(f) && session.accepted == []
            && FwUpg.Emptied(session.flash.Image()) && queue == [] && swap == None
            && 64 <= Arg(f) <= FwUpg.SLOT1_SIZE && !WrongKey(session.keyhash, old(keys.chunks)))
      && (!session.active ==> queue == old(queue) && (swap == old(swap) || swap == None))
      && (reply.code == KeyhashError <==>
            64 <= Arg(f) <= FwUpg.SLOT1_SIZE && WrongKey(session.keyhash, old(keys.chunks)))
      && (session.flash.reliable && old(session.flash.powered) ==>
            (session.active <==> 64 <= Arg(f) <= FwUpg.SLOT1_SIZE && !WrongKey(session.keyhash, old(keys.chunks))))
    }

    /** FW_CMD_START_UPDATE */
    method Start(f: Frame) returns (reply: Reply)
      requires Valid() && IsCommand(f, CMD_START)
      modifies this`queue, this`swap, keys, session, session.flash`powered, session.flash.mem
      ensures Valid() && Started(f, reply)
    {
      hide GetLe32, KeysAfter, Assembled, AllChunks, FwUpg.Emptied;
      session.Abort();
      var kh := keys.TakeKey(f);
      var rc := session.Start(Arg(f), kh);
      var reached: bool := *;
      if rc == 0 || (rc == -1 && reached) {
        swap := None;
      }
      if rc == -2 {
        return Reply(KeyhashError, 0);
      }
      if rc != 0 {
        return Reply(FlashError, 0);
      }
      queue := [];
      return Reply(Offset, 0);
    }

    /** What a data frame does: the same flow control as the boot loader's. */
    twostate predicate Took(f: Frame, new reply: Option<Reply>)
      requires old(session.Valid()) && session.Valid()
      reads session, session.page, session.flash, session.flash.mem
    {
      && session.total == old(session.total) && session.active == old(session.active)
      && (!old(session.active) ==> reply == Some(Reply(TransferError, 0)) && unchanged(session))
      && (old(session.active) && reply != Some(Reply(FlashError, 0)) ==>
            && !session.failed && session.accepted == old(session.accepted) + Piece(f)
            && reply == DataReply(|session.accepted|, session.total))
      && (session.flash.reliable && old(session.flash.powered && session.active && !session.failed) ==>
            (reply == Some(Reply(FlashError, 0)) <==> |old(session.accepted)| + f.dlc > session.total))
    }

    /** handle_fw_data */
    method Data(f: Frame) returns (reply: Option<Reply>)
      requires Valid()
      modifies session, session.page, session.flash`powered, session.flash.mem
      ensures Valid() && Took(f, reply)
    {
      if !session.active {
        return Some(Reply(TransferError, 0));
      }
      var rc := session.Write(Piece(f));
      if rc != 0 {
        return Some(Reply(FlashError, 0));
      }
      var got := session.Received();
      if got == session.total {
        return Some(Reply(UpdateSuccess, got));
      } else if got % ACK_INTERVAL == 0 {
        return Some(Reply(Offset, got));
      }
      return None;
    }

    /** What CONFIRM does: an open session is closed without a CRC, and frames still queued are dropped. */
    twostate predicate Closed(arg: nat, boot_ok: bool, reply: Reply)
      requires old(session.Valid()) && session.Valid()
      reads this`queue, this`swap, session, session.page, session.flash, session.flash.mem
    {
      && !session.active && queue == (if old(session.active) then [] else old(queue))
      && (reply == Reply(TransferError, 0) || reply == Reply(Confirm, CONFIRM_MAGIC))
      && (reply.code == Confirm ==>
            && old(session.active && !session.failed) && |old(session.accepted)| == session.total
            && session.total <= FwUpg.SLOT1_SIZE
            && session.flash.Image()[..session.total] == old(session.accepted)
            && FwUpg.ImageKeyhash(session.flash.Image()) == Some(session.keyhash)
            && swap == Some(arg != 0))
      && (reply.code != Confirm ==> swap == old(swap))
      && (session.flash.reliable && old(session.flash.powered && session.active && !session.failed) ==>
            (reply.code == Confirm <==>
               && boot_ok && |old(session.accepted)| == session.total
               && FwUpg.ImageKeyhash(session.flash.Image()) == Some(session.keyhash)))
    }

    /** FW_CMD_CONFIRM; `boot_ok` is what boot_set_pending answers. */
    method ConfirmUpdate(arg: nat, boot_ok: bool) returns (reply: Reply)
      requires Valid()
      modifies this`swap, this`queue, session, session.flash`powered, session.flash.mem
      ensures Valid() && Closed(arg, boot_ok, reply)
    {
      hide FwUpg.ImageKeyhash;
      if !session.active {
        return Reply(TransferError, 0);
      }
      queue := [];
      var rc := session.Finish(0, false);
      if rc != 0 || !boot_ok {
        return Reply(TransferError, 0);
      }
      swap := Some(arg != 0);
      return Reply(Confirm, CONFIRM_MAGIC);
    }

    /** One round of fw_task: the oldest frame leaves the queue and is handled. Version and reboot are left
        to their helpers. */
    method Work(boot_ok: bool) returns (f: Frame, reply: Option<Reply>)
      requires Valid() && queue != []
      modifies this`queue, this`swap, keys, keys.keybuf, session, session.page, session.flash`powered, session.flash.mem
      ensures Valid() && f == old(queue)[0]
      ensures queue == old(queue)[1..] || queue == []
      ensures keys.chunks == KeysAfter(old(keys.chunks), f)
      ensures IsCommand(f, CMD_START) ==>
        && reply.Some? && (reply.value.code == Offset <==> session.active)
        && (if session.active then queue == [] && swap == None else queue == old(queue)[1..])
        && (session.active ==> session.total == Arg(f) && session.accepted == [] && !session.failed
                               && !WrongKey(session.keyhash, old(keys.chunks)))
        && reply.value.code != Confirm
      ensures IsCommand(f, CMD_CONFIRM) ==>
        && !session.active && queue == (if old(session.active) then [] else old(queue)[1..])
        && (reply == Some(Reply(TransferError, 0)) || reply == Some(Reply(Confirm, CONFIRM_MAGIC)))
      ensures reply == Some(Reply(Confirm, CONFIRM_MAGIC)) ==>
        && IsCommand(f, CMD_CONFIRM) && old(session.active && !session.failed)
        && |old(session.accepted)| == session.total <= FwUpg.SLOT1_SIZE
        && session.flash.Image()[..session.total] == old(session.accepted)
        && FwUpg.ImageKeyhash(session.flash.Image()) == Some(session.keyhash)
        && swap == Some(Arg(f) != 0)
      ensures f.id == ID_DATA ==> queue == old(queue)[1..] && swap == old(swap) && Took(f, reply)
      ensures f.id == ID_CMD && f.dlc != 8 ==>
        reply == Some(Reply(FlashError, 0)) && queue == old(queue)[1..] && unchanged(session) && swap == old(swap)
      ensures f.id != ID_DATA && !IsCommand(f, CMD_START) && !IsCommand(f, CMD_CONFIRM) ==>
        queue == old(queue)[1..] && unchanged(session) && unchanged(session.flash.mem) && swap == old(swap)
        && (f.id != ID_CMD || f.dlc == 8 ==> reply == None)
    {
      hide GetLe32, FwUpg.ImageKeyhash, WrongKey, KeysAfter, FwUpg.Emptied;
      f := queue[0];
      queue := queue[1..];
      reply := None;
      if f.id != ID_KEYHASH && !IsCommand(f, CMD_START) {
        OtherFrames(keys.chunks, f);
      }
      if f.id == ID_CMD {
        var cmd, arg := GetLe32(f.data), Arg(f);
        if f.dlc != 8 {
          return f, Some(Reply(FlashError, 0));
        }
        if cmd == CMD_START {
          var r := Start(f);
          return f, Some(r);
        } else if cmd == CMD_CONFIRM {
          var r := ConfirmUpdate(arg, boot_ok);
          return f, Some(r);
        }
      } else if f.id == ID_DATA {
        reply := Data(f);
      } else if f.id == ID_KEYHASH {
        keys.HandleKeyhash(f);
      }
    }
  }

  lemma OtherFrames(chunks: map<nat, seq<byte>>, f: Frame)
    requires f.id != ID_KEYHASH && !IsCommand(f, CMD_START)
    ensures KeysAfter(chunks, f) == chunks
  {
  }
}
