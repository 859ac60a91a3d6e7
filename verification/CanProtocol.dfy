/** The CAN upgrade protocol shared by the boot loader (src/boot/boot_can.c), the application
    (src/fw/fw_can.c) and the tool (tools/firmware_upgrade_can.py). */
module CanProtocol {
  import opened Bytes
  import opened Common

  const ID_CMD := 0x101
  const ID_DATA := 0x103
  const ID_KEYHASH := 0x104

  const CMD_START := 0
  const CMD_CONFIRM := 1
  const CMD_REBOOT := 3

  const CONFIRM_MAGIC := 0x55AA_55AA
  const ACK_INTERVAL := 512
  const FRAME := 8

  const KEYHASH_LEN := 32
  const CHUNK := 7
  const CHUNKS := 5

  datatype Code = Offset | UpdateSuccess | Version | Confirm | FlashError | TransferError | KeyhashError

  /** A received frame: eight data bytes, of which the first dlc count. */
  datatype CanFrame = CanFrame(id: nat, data: seq<byte>, dlc: nat)
  type Frame = f: CanFrame | |f.data| == 8 && f.dlc <= 8 witness CanFrame(0, [0, 0, 0, 0, 0, 0, 0, 0], 0)

  predicate IsCommand(f: Frame, cmd: nat) {
    f.id == ID_CMD && f.dlc == 8 && GetLe32(f.data) == cmd
  }

  function Arg(f: Frame): u32 {
    GetLe32(f.data[4..])
  }

  function Piece(f: Frame): seq<byte> {
    f.data[..f.dlc]
  }

  /** A 0x102 frame. */
  datatype Reply = Reply(code: Code, arg: nat)

  /** The answer to a data frame that was stored: one at every 512 bytes, one at the end. */
  function DataReply(written: nat, total: nat): Option<Reply> {
    if written == total then Some(Reply(UpdateSuccess, written))
    else if written % ACK_INTERVAL == 0 then Some(Reply(Offset, written))
    else None
  }

  // ---- the key fingerprint in five chunks ----

  function ChunkLength(s: nat): nat
    requires s < CHUNKS
  {
    Min(KEYHASH_LEN - s * CHUNK, CHUNK)
  }

  /** The chunks put together, once all are there. */
  function Assembled(chunks: map<nat, seq<byte>>): seq<byte>
    requires forall s: nat :: s < CHUNKS ==> s in chunks
  {
    chunks[0] + chunks[1] + chunks[2] + chunks[3] + chunks[4]
  }

  predicate AllChunks(chunks: map<nat, seq<byte>>) {
    forall s: nat :: s < CHUNKS ==> s in chunks
  }

  /** The key chunks that are there after a frame. A START uses up a complete fingerprint. */
  function KeysAfter(keys: map<nat, seq<byte>>, f: Frame): map<nat, seq<byte>> {
    if f.id == ID_KEYHASH && SoundChunk(f) then keys[Val(f.data[0]) := f.data[1..1 + ChunkLength(Val(f.data[0]))]]
    else if IsCommand(f, CMD_START) && AllChunks(keys) then map[]
    else keys
  }

  predicate SoundChunk(f: Frame) {
    f.dlc >= 1 && Val(f.data[0]) < CHUNKS && f.dlc >= 1 + ChunkLength(Val(f.data[0]))
  }

  predicate WrongKey(key: seq<byte>, keys: map<nat, seq<byte>>) {
    AllChunks(keys) && Assembled(keys) != key
  }
}
