/** The boot loader's CAN rescue (src/boot/boot_can.c): an image written straight into slot0. Proved
    against BootRescue. */
module BootCan {
  import opened Bytes
  import opened Common
  import opened NorFlash
  import opened CanProtocol
  import opened BootRescue
  import IntFlash
  import KeyBuffer

  class Session {
    const flash: IntFlash.Flash
    const fw_keyhash: seq<byte>
    const keys: KeyBuffer.Chunks
    var active: bool
    var total: u32
    var written: u32
    var confirmed: bool
    var installed: bool

    ghost predicate Valid()
      reads this, keys, keys.keybuf
    {
      && flash.Valid() && keys.Valid() && keys.keybuf != flash.mem && |fw_keyhash| == KEYHASH_LEN
      && (active ==> written <= total <= SLOT0_SIZE)
    }

    ghost function View(): (s: Rescue)
      requires Valid()
      reads this, keys, keys.keybuf, flash.mem
      ensures Good(s)
    {
      Rescue(active, total, written, keys.chunks, installed, confirmed, flash.Image())
    }

    constructor (flash: IntFlash.Flash, fw_keyhash: seq<byte>)
      requires flash.Valid() && |fw_keyhash| == KEYHASH_LEN
      ensures Valid() && Fresh(View()) && this.flash == flash && this.fw_keyhash == fw_keyhash
      ensures View().image == flash.Image() && fresh(keys) && fresh(keys.keybuf)
    {
      this.flash, this.fw_keyhash := flash, fw_keyhash;
      keys := new KeyBuffer.Chunks();
      active, total, written, confirmed, installed := false, 0, 0, false, false;
    }

    /** FW_CMD_START. A failed erase leaves the session as it was. */
    method Start(f: Frame) returns (reply: Reply, ghost o: FlashResult)
      requires Valid() && IsCommand(f, CMD_START)
      modifies this, keys, flash.mem
      ensures Valid() && (View(), reply) == Started(fw_keyhash, old(View()), f, o)
      ensures flash.sure_erase ==> o.Works?
    {
      hide IntFlash.Swept, GetLe32, KeysAfter, Assembled, AllChunks;
      o := Works;
      var arg := Arg(f);
      var kh := keys.TakeKey(f);
      if kh.Some? && kh.value != fw_keyhash {
        return Reply(KeyhashError, 0), Works;
      }
      if arg < 64 || arg > SLOT0_SIZE {
        return Reply(FlashError, 0), Works;
      }
      var erase_len := (arg + 0xFFF) / 0x1000 * 0x1000;
      RangeOfSlot(arg, erase_len);
      var rc, swept := flash.Erase(SLOT0_ADDR, erase_len);
      if rc != 0 {
        return Reply(FlashError, 0), Fails(swept);
      }
      active := true;
      total := arg;
      written := 0;
      return Reply(Offset, 0), Works;
    }

    /** FW_CMD_CONFIRM. Frames still waiting in the receive buffer are dropped. */
    method ConfirmSession() returns (reply: Reply)
      requires Valid()
      modifies this`active, this`installed, this`confirmed
      ensures Valid() && (View(), reply) == Confirmed(old(View()))
    {
      if !active {
        return Reply(TransferError, 0);
      }
      active := false;
      if written != total {
        return Reply(TransferError, 0);
      }
      installed := true;
      confirmed := true;
      return Reply(Confirm, CONFIRM_MAGIC);
    }

    /** handle_data */
    method HandleData(f: Frame) returns (reply: Option<Reply>, ghost o: FlashResult)
      requires Valid()
      modifies this`active, this`written, flash.mem
      ensures Valid() && (View(), reply) == Taken(old(View()), f, o)
      ensures flash.sure_write ==> o.Works?
    {
      hide Programmed;
      o := Works;
      if !active {
        return Some(Reply(TransferError, 0)), Works;
      }
      if f.dlc == 0 || (written + f.dlc) % U32_MOD > total {
        active := false;
        return Some(Reply(TransferError, 0)), Works;
      }
      var rc;
      ghost var n;
      rc, n := flash.Write(SLOT0_ADDR + written, Piece(f));
      if rc != 0 {
        active := false;
        return Some(Reply(FlashError, 0)), Fails(n);
      }
      assert Piece(f)[..n] == Piece(f);
      written := written + f.dlc;
      if written == total {
        return Some(Reply(UpdateSuccess, total)), Works;
      } else if written % ACK_INTERVAL == 0 {
        return Some(Reply(Offset, written)), Works;
      }
      return None, Works;
    }

    /** handle_frame. The version query is left to its own helpers. */
    method HandleFrame(f: Frame) returns (reply: Option<Reply>, ghost o: FlashResult)
      requires Valid()
      modifies this, keys, keys.keybuf, flash.mem
      ensures Valid() && (View(), reply) == Step(fw_keyhash, old(View()), f, o)
      ensures flash.sure_erase && IsCommand(f, CMD_START) ==> o.Works?
      ensures flash.sure_write && f.id == ID_DATA ==> o.Works?
    {
      hide GetLe32, IntFlash.Swept, Programmed, Val;
      reply, o := None, Works;
      if f.id == ID_CMD {
        if f.dlc >= 4 {
          var cmd := GetLe32(f.data);
          if f.dlc != 8 {
            return Some(Reply(FlashError, 0)), Works;
          }
          if cmd == CMD_START {
            var r;
            r, o := Start(f);
            return Some(r), o;
          } else if cmd == CMD_CONFIRM {
            var r := ConfirmSession();
            return Some(r), Works;
          } else if cmd == CMD_REBOOT {
            confirmed := true;
          }
        }
      } else if f.id == ID_DATA {
        reply, o := HandleData(f);
      } else if f.id == ID_KEYHASH {
        if f.dlc >= 1 {
          keys.HandleKeyhash(f);
        }
      }
    }

    /** The loop of boot_can_wait, for any frames, whatever the flash does, until a confirmation or until
        the bus has been idle too long. `n` frames are consumed; the session is what they make of it. If
        it ends with an image installed, slot0 is exactly what the data frames since the last accepted
        START brought, but for bytes a failed erase has blanked since - on a flash that erases, with no
        exception - and the boot sectors are as they were. */
    method Serve(frames: seq<Frame>) returns (n: nat, idle: bool, ghost es: seq<Event>)
      requires Valid() && Fresh(View())
      modifies this, keys, keys.keybuf, flash.mem
      ensures Valid() && View() == Run(fw_keyhash, old(View()), es)
      ensures n <= |frames| && FramesOf(es) == Heard(frames[..n])
      ensures n == |frames| || confirmed || idle
      ensures installed ==> confirmed && Delivered(fw_keyhash, es, View())
      ensures installed && flash.sure_erase ==> Slot(View(), total) == Stream(fw_keyhash, es)
      ensures View().image[..SLOT0_OFFSET] == old(View()).image[..SLOT0_OFFSET]
    {
      hide Run, Step, Delivered, Stream, IsCommand;
      ghost var s := View();
      n, idle, es := 0, false, [];
      RunNone(fw_keyhash, s);
      assert frames[..0] == [];
      while n < |frames| && !confirmed && !idle
        invariant Valid() && View() == Run(fw_keyhash, s, es)
        invariant n <= |frames| && FramesOf(es) == Heard(frames[..n])
        invariant installed ==> confirmed && Delivered(fw_keyhash, es, View())
        invariant flash.sure_erase ==> ErasesWork(es)
        decreases |frames| - n, !idle
      {
        idle := *;
        if !idle {
          HeardMore(frames, n);
          if frames[n].dlc != 0 {
            var reply;
            ghost var o;
            reply, o := HandleFrame(frames[n]);
            ghost var e := Event(frames[n], o);
            RunMore(fw_keyhash, s, es, e);
            if installed {
              InstalledDelivered(fw_keyhash, s, es, e);
            }
            es := es + [e];
          }
          n := n + 1;
        }
      }
      RunHolds(fw_keyhash, s, es);
      if installed && flash.sure_erase {
        ErasesWorkIntact(fw_keyhash, es);
        hide ErasesWork;
        IntactSound(fw_keyhash, es, View());
      }
    }
  }

  function FramesOf(es: seq<Event>): seq<Frame> {
    seq(|es|, i requires 0 <= i < |es| => es[i].f)
  }

  /** A frame without data counts as none. */
  function Heard(frames: seq<Frame>): seq<Frame> {
    if frames == [] then []
    else
      var last := frames[|frames| - 1];
      Heard(frames[..|frames| - 1]) + if last.dlc != 0 then [last] else []
  }

  lemma HeardMore(frames: seq<Frame>, n: nat)
    requires n < |frames|
    ensures Heard(frames[..n + 1]) == Heard(frames[..n]) + if frames[n].dlc != 0 then [frames[n]] else []
  {
    assert frames[..n + 1][..n] == frames[..n];
  }

  lemma RangeOfSlot(arg: u32, erase_len: nat)
    requires 64 <= arg <= SLOT0_SIZE && erase_len == (arg + 0xFFF) / 0x1000 * 0x1000
    ensures 0 < erase_len <= SLOT0_SIZE && erase_len < U32_MOD
    ensures IntFlash.RangeEnd(SLOT0_ADDR, erase_len) == EraseEnd(arg)
  {
  }
}
