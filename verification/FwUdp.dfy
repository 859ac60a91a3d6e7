/** The UDP firmware channel of the device (src/fw/fw_udp.c): commands are queued by the network
    thread, worked off one at a time against the upgrade session, and answered through a pool of two
    reply buffers that the network thread reads later. */
module FwUdp {
  import opened Bytes
  import opened Common
  import opened FwProtocol
  import FwUpg
  import Crc
  import RegBits

  /** fw_udp_cmd lets nothing shorter than these into the queue. */
  predicate Queued(m: Msg) {
    || (m.cmd == START && 4 <= |m.data| <= V2_MAX)
    || (m.cmd == DATA_V2 && 5 <= |m.data| <= V2_MAX)
    || (m.cmd == END && |m.data| >= 3)
  }

  function EndReply(ok: bool): seq<byte> {
    [END, if ok then 1 else 0]
  }

  class Task {
    const session: FwUpg.Session
    const replies: array<Slot>
    var queue: seq<Msg>
    var reply_idx: nat
    /** The swap boot_set_pending has asked the boot loader for: permanent or for a trial. The request lies
        in slot1 behind the image, so erasing slot1 takes it back. */
    var swap: Option<bool>

    ghost predicate Valid()
      reads this, replies, session, session.page, session.flash.mem
    {
      && session.Valid() && replies.Length == 2
      && |queue| <= Q_DEPTH && reply_idx < 256
      && (forall i :: 0 <= i < |queue| ==> Queued(queue[i]))
    }

    /** A transfer is running on a flash that works. */
    ghost predicate Steady()
      reads this, session, session.flash
    {
      && session.active && session.flash.reliable && session.flash.powered
      && session.Received() == |session.accepted|
    }

    ghost function View(): (d: Device)
      reads this, replies, session
    {
      Device(queue, replies[..], reply_idx, Transfer(session.total, session.failed, session.accepted))
    }

    constructor (session: FwUpg.Session)
      requires session.Valid()
      ensures Valid() && this.session == session && queue == [] && swap == None && fresh(replies)
      ensures replies[0].pending == 0 && replies[1].pending == 0
    {
      this.session := session;
      replies := new Slot[2](_ => Slot([], [], 0));
      queue, reply_idx, swap := [], 0, None;
    }

    /** fw_udp_cmd, on the network thread */
    method Cmd(rx: seq<byte>) returns (taken: bool)
      requires Valid()
      modifies this`queue
      ensures Valid() && View() == Accept(old(View()), rx) && taken == Parse(rx).Some?
    {
      if |rx| < 1 {
        return false;
      }
      var cmd, data := rx[0], [];
      if cmd == START {
        if |rx| < 5 {
          return false;
        }
        var dlen := if |rx| - 1 > V2_MAX then V2_MAX else |rx| - 1;
        data := rx[1..1 + dlen];
      } else if cmd == DATA_V2 {
        if |rx| < 6 || |rx| - 1 > V2_MAX {
          return false;
        }
        data := rx[1..];
      } else if cmd == END {
        if |rx| < 4 {
          return false;
        }
        data := rx[1..];
      } else {
        return false;
      }
      if |queue| < Q_DEPTH {
        queue := queue + [Msg(cmd, data)];
      }
      taken := true;
    }

    /** fw_reply: the next buffer of the pool, whatever it still holds. */
    method Reply(rep: seq<byte>) returns (posted: bool)
      requires Valid()
      modifies this`reply_idx, replies
      ensures Valid()
      ensures replies[..] == old(replies[..])[old(reply_idx) % 2 :=
                                              Filled(old(replies[reply_idx % 2]), rep, posted)]
      ensures reply_idx == (old(reply_idx) + 1) % 256
    {
      var i := reply_idx % 2;
      reply_idx := (reply_idx + 1) % 256;
      posted := *;
      replies[i] := Filled(replies[i], rep, posted);
    }

    /** fw_send_reply_cb, on the network thread, with `copied` bytes of a later reply copied over
        the buffer, or all of them. */
    method SendReply(i: nat, copied: nat) returns (sent: seq<byte>)
      requires Valid() && CanAnswer(View(), i)
      modifies replies
      ensures Valid() && View() == Answered(old(View()), i)
      ensures sent == Torn(old(replies[i].prev), old(replies[i].cur), copied)
    {
      var s := replies[i];
      sent := Torn(s.prev, s.cur, copied);
      replies[i] := s.(pending := s.pending - 1);
    }

    /** The START case of fw_task. A failed erase may have reached the swap request. */
    method OnStart(data: seq<byte>) returns (rep: seq<byte>)
      requires Valid() && |data| >= 4
      modifies this`swap, session, session.flash`powered, session.flash.mem
      ensures Valid()
      ensures rep == StartReply(1) ==> swap == None && FwUpg.Emptied(session.flash.Image()) && Admits(data)
      ensures swap == old(swap) || swap == None
      ensures old(session.active) ==> swap == old(swap) && session.flash.Image() == old(session.flash.Image())
      ensures session.flash.reliable ==> session.flash.powered == old(session.flash.powered)
      ensures rep == StartReply(0) || rep == StartReply(1) || rep == StartReply(2)
      ensures old(session.active) ==> rep == StartReply(0) && unchanged(session)
      ensures rep != StartReply(1) ==> unchanged(session)
      ensures rep == StartReply(1) ==> session.active && !session.failed && session.accepted == []
                                       && session.total == GetLe32(data)
      ensures old(Steady()) ==> Steady()
      ensures rep == StartReply(1) && session.flash.reliable && old(session.flash.powered) ==> Steady()
      ensures (!old(session.active) && old(session.flash.powered) && session.flash.reliable
               && 64 <= GetLe32(data) <= FwUpg.SLOT1_SIZE
               && (|data| >= 36 ==> data[4..36] == session.keyhash))
          ==> rep == StartReply(1)
    {
      var total := GetLe32(data);
      var kh := if |data| >= 4 + 32 then Some(data[4..36]) else None;
      var rc := session.Start(total, kh);
      rep := StartReply(if rc == 0 then 1 else if rc == -2 then 2 else 0);
      var reached: bool := *;
      if rc == 0 || (rc == -1 && reached) {
        swap := None;
      }
      assert StartReply(0)[1] == 0 && StartReply(1)[1] == 1 && StartReply(2)[1] == 2;
    }

    /** The DATA_V2 case of fw_task. */
    method OnData(data: seq<byte>) returns (rep: seq<byte>)
      requires Valid() && 5 <= |data| <= V2_MAX
      modifies session, session.page, session.flash`powered, session.flash.mem
      ensures Valid() && rep == V2Reply(session.Received())
      ensures session.flash.reliable ==> session.flash.powered == old(session.flash.powered)
      ensures session.active == old(session.active) && session.total == old(session.total)
      ensures (!old(session.active) || old(session.failed) || GetLe32(data) != old(session.Received()))
          ==> unchanged(session) && unchanged(session.flash.mem)
      ensures session.active && !session.failed ==>
        session.accepted == old(session.accepted)
        || (GetLe32(data) == |old(session.accepted)| && session.accepted == old(session.accepted) + data[4..])
      ensures old(Steady()) ==>
        Steady() && View().transfer == Store(old(View()).transfer, Msg(DATA_V2, data))
    {
      if |data| >= 5 && GetLe32(data) == session.Received() {
        hide GetLe32;
        var rc := session.Write(data[4..]);
      }
      hide GetLe32;
      rep := V2Reply(session.Received());
    }

    /** The END case of fw_task. `boot_ok` is what boot_set_pending answers. */
    method OnEnd(data: seq<byte>, boot_ok: bool) returns (rep: seq<byte>)
      requires Valid() && |data| >= 3
      modifies this`swap, session, session.flash`powered, session.flash.mem
      ensures Valid() && !session.active && session.total == old(session.total)
      ensures rep == EndReply(true) || rep == EndReply(false)
      ensures !old(session.active) ==>
        rep == EndReply(false) && unchanged(session) && unchanged(session.flash.mem)
      ensures old(session.active && !session.failed) ==> session.Received() == 0
      ensures rep == EndReply(true) ==>
        && old(session.active && !session.failed)
        && session.flash.Image()[..session.total] == old(session.accepted)
        && |old(session.accepted)| == session.total
        && Crc.Ccitt(0, old(session.accepted)) == RegBits.Pair16(data[1], data[2])
        && FwUpg.ImageKeyhash(session.flash.Image()) == Some(session.keyhash)
        && swap == Some(data[0] == 0)
      ensures rep == EndReply(false) ==> swap == old(swap)
      ensures old(Steady() && !session.failed) ==>
        (rep == EndReply(true) <==>
           && boot_ok && |old(session.accepted)| == session.total
           && Crc.Ccitt(0, old(session.accepted)) == RegBits.Pair16(data[1], data[2])
           && FwUpg.ImageKeyhash(session.flash.Image()) == Some(session.keyhash))
      ensures session.flash.reliable ==> session.flash.powered == old(session.flash.powered)
      ensures (old(Steady() && !session.failed) && |old(session.accepted)| == session.total)
          ==> session.flash.Image()[..session.total] == old(session.accepted)
    {
      var crc := RegBits.Pair16(data[1], data[2]);
      hide RegBits.Pair16, Crc.Ccitt, FwUpg.ImageKeyhash;
      var permanent := data[0] == 0;
      var rc := session.Finish(crc, true);
      assert EndReply(true)[1] == 1 && EndReply(false)[1] == 0;
      rep := EndReply(false);
      if rc == 0 && boot_ok {
        swap := Some(permanent);
        rep := EndReply(true);
      }
    }

    /** What the worker has done with m, apart from posting `rep`: the three cases, whatever state the
        session was in and however the flash fared. `boot_ok` is what boot_set_pending answers. */
    twostate predicate Executed(m: Msg, boot_ok: bool, rep: seq<byte>)
      requires old(session.Valid()) && session.Valid() && Queued(m)
      reads this`swap, session, session.page, session.flash, session.flash.mem
    {
      if m.cmd == START then StartExecuted(m.data, rep)
      else if m.cmd == DATA_V2 then DataExecuted(m.data, rep)
      else EndExecuted(m.data, boot_ok, rep)
    }

    twostate predicate StartExecuted(data: seq<byte>, rep: seq<byte>)
      requires old(session.Valid()) && session.Valid() && |data| >= 4
      reads this`swap, session, session.page, session.flash, session.flash.mem
    {
      && (rep == StartReply(0) || rep == StartReply(1) || rep == StartReply(2))
      && (swap == old(swap) || swap == None)
      && (old(session.active) ==>
            && rep == StartReply(0) && unchanged(session) && swap == old(swap)
            && session.flash.Image() == old(session.flash.Image()))
      && (rep == StartReply(1) ==>
            && session.active && !session.failed && session.accepted == [] && session.total == GetLe32(data)
            && swap == None && FwUpg.Emptied(session.flash.Image()) && Admits(data))
      && (Admits(data) && !old(session.active) && session.flash.reliable && old(session.flash.powered) ==>
            rep == StartReply(1))
    }

    /** START announces a possible length and, if any, the built-in key. */
    ghost predicate Admits(data: seq<byte>)
      requires |data| >= 4
    {
      && 64 <= GetLe32(data) <= FwUpg.SLOT1_SIZE && (|data| >= 36 ==> data[4..36] == session.keyhash)
    }

    twostate predicate DataExecuted(data: seq<byte>, rep: seq<byte>)
      requires old(session.Valid()) && session.Valid() && |data| >= 5
      reads this`swap, session, session.page, session.flash, session.flash.mem
    {
      && swap == old(swap) && rep == V2Reply(session.Received()) && session.active == old(session.active)
      && (!old(session.active) || old(session.failed) || GetLe32(data) != old(session.Received()) ==>
            unchanged(session) && unchanged(session.flash.mem))
      && (session.active && !session.failed ==>
            session.accepted == old(session.accepted)
            || (GetLe32(data) == |old(session.accepted)|
                && session.accepted == old(session.accepted) + data[4..]))
    }

    twostate predicate EndExecuted(data: seq<byte>, boot_ok: bool, rep: seq<byte>)
      requires old(session.Valid()) && session.Valid() && |data| >= 3
      reads this`swap, session, session.page, session.flash, session.flash.mem
    {
      && !session.active && session.total == old(session.total)
      && (rep == EndReply(true) || (rep == EndReply(false) && swap == old(swap)))
      && (!old(session.active) ==>
            rep == EndReply(false) && unchanged(session) && unchanged(session.flash.mem))
      && (old(session.active && !session.failed) ==> session.Received() == 0)
      && (rep == EndReply(true) ==>
            && old(session.active && !session.failed) && |old(session.accepted)| == session.total
            && session.flash.Image()[..session.total] == old(session.accepted)
            && Crc.Ccitt(0, old(session.accepted)) == RegBits.Pair16(data[1], data[2])
            && FwUpg.ImageKeyhash(session.flash.Image()) == Some(session.keyhash)
            && swap == Some(data[0] == 0))
      && (old(Steady() && !session.failed) && |old(session.accepted)| == session.total ==>
            && session.flash.Image()[..session.total] == old(session.accepted)
            && (rep == EndReply(true) <==>
                  && boot_ok && Crc.Ccitt(0, old(session.accepted)) == RegBits.Pair16(data[1], data[2])
                  && FwUpg.ImageKeyhash(session.flash.Image()) == Some(session.keyhash)))
    }

    /** The switch of fw_task. */
    method Execute(m: Msg, boot_ok: bool) returns (rep: seq<byte>)
      requires Valid() && Queued(m)
      modifies this`swap, session, session.page, session.flash`powered, session.flash.mem
      ensures Valid() && Executed(m, boot_ok, rep)
      ensures session.flash.reliable ==> session.flash.powered == old(session.flash.powered)
      ensures (old(Steady()) && m.cmd != END)
          ==> (Steady() && View().transfer == Store(old(View()).transfer, m)
               && rep == ReplyTo(old(View()).transfer, m))
    {
      hide GetLe32, RegBits.Pair16, FwUpg.ImageKeyhash, Crc.Ccitt, FwUpg.Emptied;
      if m.cmd == START {
        rep := OnStart(m.data);
      } else if m.cmd == DATA_V2 {
        rep := OnData(m.data);
      } else {
        rep := OnEnd(m.data, boot_ok);
      }
    }

    /** One round of fw_task: the oldest command is executed and its reply put into the next buffer. On a
        transfer that runs on working flash, one device step of the protocol. */
    method Work(boot_ok: bool) returns (posted: bool, rep: seq<byte>)
      requires Valid() && queue != []
      modifies this, replies, session, session.page, session.flash`powered, session.flash.mem
      ensures Valid() && queue == old(queue)[1..] && Executed(old(queue)[0], boot_ok, rep)
      ensures session.flash.reliable ==> session.flash.powered == old(session.flash.powered)
      ensures replies[..] == old(replies[..])[old(reply_idx) % 2 :=
                                              Filled(old(replies[reply_idx % 2]), rep, posted)]
      ensures reply_idx == (old(reply_idx) + 1) % 256
      ensures (old(Steady()) && old(queue)[0].cmd != END)
          ==> Steady() && View() == FwProtocol.Work(old(View()), posted)
    {
      hide Store, ReplyTo, Filled, GetLe32, RegBits.Pair16, FwUpg.ImageKeyhash, Crc.Ccitt, FwUpg.Emptied, V2Reply;
      var m := queue[0];
      queue := queue[1..];
      rep := Execute(m, boot_ok);
      posted := Reply(rep);
    }
  }
}
