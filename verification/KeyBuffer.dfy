/** The buffer in which the key fingerprint arrives in five chunks; boot loader (src/boot/boot_can.c) and
    application (src/fw/fw_can.c) have the same one. */
module KeyBuffer {
  import opened Bytes
  import opened Common
  import opened CanProtocol

  /** Chunk k of a key buffer. */
  function ChunkIn(b: seq<byte>, k: nat): seq<byte>
    requires |b| == KEYHASH_LEN && k < CHUNKS
  {
    b[k * CHUNK..k * CHUNK + ChunkLength(k)]
  }

  lemma ChunksCover(b: seq<byte>)
    requires |b| == KEYHASH_LEN
    ensures b == ChunkIn(b, 0) + ChunkIn(b, 1) + ChunkIn(b, 2) + ChunkIn(b, 3) + ChunkIn(b, 4)
  {
    assert b == b[0..7] + b[7..14] + b[14..21] + b[21..28] + b[28..32];
  }

  lemma ChunksApart(s: nat, k: nat)
    requires s < CHUNKS && k < CHUNKS && s != k
    ensures k * CHUNK + ChunkLength(k) <= s * CHUNK || s * CHUNK + ChunkLength(s) <= k * CHUNK
  {
  }

  class Chunks {
    const keybuf: array<byte>
    /** key_mask: the chunks that have come. */
    var key_mask: set<nat>
    /** Their latest copies. */
    ghost var chunks: map<nat, seq<byte>>

    ghost predicate Valid()
      reads this, keybuf
    {
      && keybuf.Length == KEYHASH_LEN
      && (forall s :: s in key_mask <==> s in chunks)
      && (forall s :: s in chunks ==> s < CHUNKS && |chunks[s]| == ChunkLength(s)
                                      && ChunkIn(keybuf[..], s) == chunks[s])
    }

    constructor ()
      ensures Valid() && chunks == map[] && fresh(keybuf)
    {
      keybuf := new byte[KEYHASH_LEN];
      key_mask, chunks := {}, map[];
    }

    /** handle_keyhash: a sound chunk replaces its earlier copy, any other is ignored. */
    method HandleKeyhash(f: Frame)
      requires Valid() && f.id == ID_KEYHASH
      modifies this, keybuf
      ensures Valid() && chunks == KeysAfter(old(chunks), f)
    {
      hide Val;
      var s := Val(f.data[0]);
      if s >= CHUNKS || f.dlc < 1 + ChunkLength(s) {
        return;
      }
      StoreChunk(s, f.data[1..1 + ChunkLength(s)]);
      key_mask := key_mask + {s};
      chunks := chunks[s := f.data[1..1 + ChunkLength(s)]];
    }

    /** The memcpy into keybuf: the other chunks stay. */
    method StoreChunk(s: nat, piece: seq<byte>)
      requires keybuf.Length == KEYHASH_LEN && s < CHUNKS && |piece| == ChunkLength(s)
      modifies keybuf
      ensures ChunkIn(keybuf[..], s) == piece
      ensures forall k: nat :: k < CHUNKS && k != s ==> ChunkIn(keybuf[..], k) == ChunkIn(old(keybuf[..]), k)
    {
      forall i | 0 <= i < |piece| {
        keybuf[s * CHUNK + i] := piece[i];
      }
      forall k: nat | k < CHUNKS && k != s
        ensures ChunkIn(keybuf[..], k) == ChunkIn(old(keybuf[..]), k)
      {
        ChunksApart(s, k);
      }
    }

    /** What START does: the fingerprint, if it is complete; it is used up. */
    method TakeKey(ghost f: Frame) returns (kh: Option<seq<byte>>)
      requires Valid() && IsCommand(f, CMD_START)
      modifies this
      ensures Valid() && chunks == KeysAfter(old(chunks), f)
      ensures kh == if AllChunks(old(chunks)) then Some(Assembled(old(chunks))) else None
      ensures kh.Some? ==> |kh.value| == KEYHASH_LEN
    {
      hide ChunkIn, GetLe32;
      kh := None;
      if 0 in key_mask && 1 in key_mask && 2 in key_mask && 3 in key_mask && 4 in key_mask {
        KeybufAssembled();
        kh := Some(keybuf[..]);
        key_mask := {};
        chunks := map[];
      }
    }

    /** All five chunks in the buffer are the whole buffer. */
    lemma KeybufAssembled()
      requires Valid() && forall s: nat :: s < CHUNKS ==> s in key_mask
      ensures AllChunks(chunks) && keybuf[..] == Assembled(chunks)
    {
      hide ChunkIn;
      ChunksCover(keybuf[..]);
      assert 0 in chunks && 1 in chunks && 2 in chunks && 3 in chunks && 4 in chunks;
    }
  }
}
