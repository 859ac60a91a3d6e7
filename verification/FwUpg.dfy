/** The firmware upgrade session (src/fw/fw_upg.c): a page-buffered stream into slot1, closed by
    a size check, a CRC over what was read back, and the keyhash found in the image's TLVs. */
module FwUpg {
  import opened Bytes
  import opened Common
  import opened NorFlash
  import Crc
  import W25q

  const SLOT1_SIZE := 0x7_0000
  const IMG_HDR_SIZE := 0x200
  const IMG_MAGIC := 0x96F3_B83D
  const TLV_MAGIC := 0x6907
  const KEYHASH_TAG := 1
  const KEYHASH_LEN := 32
  const READ_CHUNK := 64

  // ---- the image's TLV list, as MCUboot lays it out ----

  datatype Entry = Entry(tag: u16, len: u16, at: nat)

  function Round4(n: nat): nat {
    (n + 3) / 4 * 4
  }

  /** The entries between off and end, in order. */
  function Entries(m: seq<byte>, off: nat, end: nat): seq<Entry>
    requires end <= |m|
    decreases end - off
  {
    if off + 4 > end then []
    else
      var tag, len := GetLe16(m[off..]), GetLe16(m[off + 2..]);
      [Entry(tag, len, off + 4)] + Entries(m, off + 4 + Round4(len), end)
  }

  predicate IsKeyhash(e: Entry) {
    e.tag == KEYHASH_TAG && e.len == KEYHASH_LEN
  }

  function FirstKeyhash(es: seq<Entry>): Option<Entry> {
    if es == [] then None else if IsKeyhash(es[0]) then Some(es[0]) else FirstKeyhash(es[1..])
  }

  /** FirstKeyhash is the earliest entry that is a 32-byte KEYHASH, if there is one. */
  lemma {:induction false} FirstKeyhashIsFirst(es: seq<Entry>)
    ensures FirstKeyhash(es).None? <==> forall i :: 0 <= i < |es| ==> !IsKeyhash(es[i])
    ensures FirstKeyhash(es).Some? ==>
      exists i :: 0 <= i < |es| && es[i] == FirstKeyhash(es).value && IsKeyhash(es[i])
                  && forall j :: 0 <= j < i ==> !IsKeyhash(es[j])
  {
    if es != [] && !IsKeyhash(es[0]) {
      FirstKeyhashIsFirst(es[1..]);
      if FirstKeyhash(es).Some? {
        var i :| 0 <= i < |es[1..]| && es[1..][i] == FirstKeyhash(es).value && IsKeyhash(es[1..][i])
                 && forall j :: 0 <= j < i ==> !IsKeyhash(es[1..][j]);
        assert es[i + 1] == FirstKeyhash(es).value;
        forall j | 0 <= j < i + 1
          ensures !IsKeyhash(es[j])
        {
          if j > 0 {
            assert !IsKeyhash(es[1..][j - 1]);
          }
        }
      } else {
        forall i | 0 <= i < |es|
          ensures !IsKeyhash(es[i])
        {
          if i > 0 {
            assert !IsKeyhash(es[1..][i - 1]);
          }
        }
      }
    }
  }

  /** The 32 bytes of the first KEYHASH entry between off and end. */
  function KeyhashAmong(m: seq<byte>, off: nat, end: nat): Option<seq<byte>>
    requires |m| == CHIP && end <= SLOT1_SIZE
  {
    match FirstKeyhash(Entries(m, off, end))
    case None => None
    case Some(e) => if e.at + KEYHASH_LEN <= CHIP then Some(m[e.at..e.at + KEYHASH_LEN]) else None
  }

  lemma KeyhashAmongStep(m: seq<byte>, off: nat, end: nat)
    requires |m| == CHIP && off + 4 <= end <= SLOT1_SIZE
    ensures var tag, len := GetLe16(m[off..]), GetLe16(m[off + 2..]);
            KeyhashAmong(m, off, end)
            == if tag == KEYHASH_TAG && len == KEYHASH_LEN then Some(m[off + 4..off + 4 + KEYHASH_LEN])
               else KeyhashAmong(m, off + 4 + Round4(len), end)
  {
    hide GetLe16;
    var es := Entries(m, off, end);
    assert es[1..] == Entries(m, off + 4 + Round4(es[0].len), end);
  }

  /** Where the TLV list of the image at the start of m begins. The sum is 32-bit in the code. */
  function TlvOffset(m: seq<byte>): u32
    requires |m| >= 32
  {
    (GetLe16(m[8..]) + GetLe32(m[12..])) % U32_MOD
  }

  /** The key fingerprint the image in slot1 carries, if its header and TLV header are sound. */
  function ImageKeyhash(m: seq<byte>): Option<seq<byte>>
    requires |m| == CHIP
  {
    var tlv := TlvOffset(m);
    if GetLe32(m) != IMG_MAGIC || GetLe16(m[8..]) != IMG_HDR_SIZE then None
    else if tlv + 4 > SLOT1_SIZE || tlv % 4 != 0 then None
    else
      var size := GetLe16(m[tlv + 2..]);
      if GetLe16(m[tlv..]) != TLV_MAGIC || size == 0 || tlv + size > SLOT1_SIZE then None
      else
        KeyhashAmong(m, tlv + 4, tlv + size)
  }

  /** Slot1 is blank. */
  predicate Emptied(m: seq<byte>)
    requires |m| == CHIP
  {
    Blank(m[..SLOT1_SIZE])
  }

  // ---- the session ----

  class Session {
    const flash: W25q.Flash
    const keyhash: seq<byte>
    const page: array<byte>
    var active: bool
    var failed: bool
    var total: u32
    var written: nat
    var page_len: nat
    ghost var accepted: seq<byte>

    ghost predicate Valid()
      reads this, page, flash.mem
    {
      && flash.Valid() && page.Length == PAGE && page != flash.mem
      && |keyhash| == KEYHASH_LEN
      && page_len < PAGE && written <= SLOT1_SIZE + PAGE
      && (failed ==> active)
      && (active ==> 64 <= total <= SLOT1_SIZE)
      && (active && !failed ==> Streaming())
    }

    /** Slot1 and the page buffer together hold exactly what was accepted so far. */
    ghost predicate Streaming()
      requires flash.Valid() && page.Length == PAGE && page_len < PAGE
      reads this, page, flash.mem
    {
      && written % PAGE == 0 && written + page_len <= total <= SLOT1_SIZE
      && accepted == flash.Image()[..written] + page[..page_len]
      && Blank(flash.Image()[written..SLOT1_SIZE])
    }

    constructor (flash: W25q.Flash, keyhash: seq<byte>)
      requires flash.Valid() && |keyhash| == KEYHASH_LEN
      ensures Valid() && !active && this.flash == flash && this.keyhash == keyhash
      ensures fresh(page) && written == 0 && page_len == 0
    {
      this.flash := flash;
      this.keyhash := keyhash;
      page := new byte[PAGE];
      active, failed, total, written, page_len, accepted := false, false, 0, 0, 0, [];
    }

    /** fw_upg_received */
    function Received(): nat
      reads this
    {
      written + page_len
    }

    /** What lies beyond slot1; the session must leave it alone. */
    ghost function Beyond(): seq<byte>
      requires flash.Valid()
      reads flash.mem
    {
      flash.Image()[SLOT1_SIZE..]
    }

    /** page_flush: one program command, never across a page. */
    method PageFlush() returns (rc: int)
      requires flash.Valid() && page.Length == PAGE && page != flash.mem
      requires page_len <= PAGE && written % PAGE == 0 && written + page_len <= SLOT1_SIZE
      requires Blank(flash.Image()[written..SLOT1_SIZE])
      modifies this`page_len, flash`powered, flash.mem
      ensures page_len == 0 && Beyond() == old(Beyond())
      ensures rc == 0 ==>
        flash.Image()[..written + old(page_len)] == old(flash.Image()[..written] + page[..page_len])
      ensures rc == 0 ==> Blank(flash.Image()[written + old(page_len)..SLOT1_SIZE])
      ensures flash.reliable ==> flash.powered == old(flash.powered)
      ensures flash.reliable && old(flash.powered) ==> rc == 0
    {
      rc := 0;
      if page_len > 0 {
        ghost var image, data := flash.Image(), page[..page_len];
        ghost var n;
        rc, n := flash.Write(written, page[..page_len]);
        page_len := 0;
        ProgrammedElsewhere(image, written, data[..n], SLOT1_SIZE, CHIP);
        if rc == 0 {
          assert data[..n] == data;
          FlushedPage(image, written, data);
        }
      }
    }

    /** fw_upg_start */
    method Start(total: u32, kh: Option<seq<byte>>) returns (rc: int)
      requires Valid() && (kh.Some? ==> |kh.value| == KEYHASH_LEN)
      modifies this, flash`powered, flash.mem
      ensures Valid() && Beyond() == old(Beyond())
      ensures rc == (if old(active) then -3
                     else if total < 64 || total > SLOT1_SIZE then -1
                     else if kh.Some? && kh.value != keyhash then -2
                     else if rc == 0 then 0 else -1)
      ensures rc == 0 ==> active && !failed && this.total == total && accepted == [] && Emptied(flash.Image())
      ensures rc != 0 ==> unchanged(this)
      ensures (old(active) || total < 64 || total > SLOT1_SIZE || (kh.Some? && kh.value != keyhash))
          ==> flash.Image() == old(flash.Image())
      ensures (flash.reliable && old(flash.powered) && !old(active) && 64 <= total <= SLOT1_SIZE
               && (kh.Some? ==> kh.value == keyhash))
          ==> rc == 0
      ensures flash.reliable ==> flash.powered == old(flash.powered)
    {
      if active {
        return -3;
      }
      if total < 64 || total > SLOT1_SIZE {
        return -1;
      }
      if kh.Some? && kh.value != keyhash {
        return -2;
      }
      ghost var before := flash.Image();
      ghost var done;
      rc, done := flash.Erase(0, SLOT1_SIZE);
      ErasedElsewhere(before, 0, done, SLOT1_SIZE, CHIP);
      if rc != 0 {
        return -1;
      }
      active := true;
      failed := false;
      this.total := total;
      written := 0;
      page_len := 0;
      accepted := [];
    }

    /** fw_upg_abort */
    method Abort()
      requires Valid()
      modifies this
      ensures Valid() && !active && !failed && Received() == 0 && total == old(total)
    {
      active := false;
      failed := false;
      page_len := 0;
      written := 0;
    }

    /** One round of the copy loop of fw_upg_write. */
    method StoreChunk(piece: seq<byte>) returns (rc: int)
      requires flash.Valid() && page.Length == PAGE && page != flash.mem && page_len < PAGE
      requires Streaming() && 0 < |piece| <= PAGE - page_len && Received() + |piece| <= total
      modifies this`page_len, this`written, this`accepted, page, flash`powered, flash.mem
      ensures page_len < PAGE && written <= total && Beyond() == old(Beyond())
      ensures rc == 0 || rc == -1
      ensures Received() == old(Received()) + |piece| || rc != 0
      ensures rc == 0 ==> Streaming() && accepted == old(accepted) + piece
      ensures flash.reliable ==> flash.powered == old(flash.powered)
      ensures flash.reliable && old(flash.powered) ==> rc == 0
    {
      rc := 0;
      ghost var had, image := page[..page_len], flash.Image();
      var at := page_len;
      forall i | 0 <= i < |piece| {
        page[at + i] := piece[i];
      }
      page_len := page_len + |piece|;
      accepted := accepted + piece;
      assert page[..page_len] == had + piece;
      assert image[..written] + page[..page_len] == accepted;
      if page_len == PAGE {
        FullPageFits(written, total);
        rc := PageFlush();
        written := written + PAGE;
        rc := if rc == 0 then 0 else -1;
      }
    }

    /** The copy loop of fw_upg_write. */
    method StoreAll(data: seq<byte>) returns (rc: int)
      requires flash.Valid() && page.Length == PAGE && page != flash.mem && page_len < PAGE
      requires Streaming() && Received() + |data| <= total
      modifies this`page_len, this`written, this`accepted, page, flash`powered, flash.mem
      ensures page_len < PAGE && written <= total && Beyond() == old(Beyond())
      ensures rc == 0 || rc == -1
      ensures rc == 0 ==> Streaming() && accepted == old(accepted) + data
      ensures flash.reliable ==> flash.powered == old(flash.powered)
      ensures flash.reliable && old(flash.powered) ==> rc == 0
    {
      rc := 0;
      hide Streaming, Beyond;
      var done := 0;
      assert data[..0] == [];
      while done < |data| && rc == 0
        invariant 0 <= done <= |data| && (rc == 0 || rc == -1)
        invariant page_len < PAGE && written <= total && Beyond() == old(Beyond())
        invariant rc == 0 ==> Received() == old(Received()) + done
        invariant rc == 0 ==> Streaming() && accepted == old(accepted) + data[..done]
        invariant flash.reliable ==> flash.powered == old(flash.powered)
        invariant flash.reliable && old(flash.powered) ==> rc == 0
        decreases |data| - done
      {
        var chunk := PAGE - page_len;
        if chunk > |data| - done {
          chunk := |data| - done;
        }
        rc := StoreChunk(data[done..done + chunk]);
        assert data[..done + chunk] == data[..done] + data[done..done + chunk];
        done := done + chunk;
      }
      assert rc == 0 ==> data[..done] == data;
    }

    /** fw_upg_write */
    method Write(data: seq<byte>) returns (rc: int)
      requires Valid() && |data| < U32_MOD - SLOT1_SIZE
      modifies this, page, flash`powered, flash.mem
      ensures Valid() && Beyond() == old(Beyond())
      ensures active == old(active) && total == old(total)
      ensures (!old(active) || old(failed)) ==> rc == -1 && unchanged(this) && unchanged(flash.mem)
      ensures (old(active && !failed) && old(Received()) + |data| > total)
          ==> rc == -1 && failed && Received() == old(Received()) && accepted == old(accepted)
              && unchanged(flash.mem)
      ensures old(active) && rc != 0 ==> failed
      ensures rc == 0 ==> old(active && !failed) && !failed && accepted == old(accepted) + data
      ensures (flash.reliable && old(flash.powered && active && !failed)
               && old(Received()) + |data| <= total)
          ==> rc == 0
      ensures flash.reliable ==> flash.powered == old(flash.powered)
    {
      rc := 0;
      if !active {
        return -1;
      }
      if failed {
        return -1;
      }
      if (written + page_len + |data|) % U32_MOD > total {
        failed := true;
        return -1;
      }
      rc := StoreAll(data);
      if rc != 0 {
        failed := true;
      }
    }

    /** tlv_keyhash_get: the walk ends on any slot content, and finds what ImageKeyhash says. */
    method TlvKeyhashGet() returns (rc: int, out: seq<byte>)
      requires flash.Valid()
      modifies flash`powered
      ensures rc == 0 || rc == -1
      ensures rc == 0 ==> ImageKeyhash(flash.Image()) == Some(out)
      ensures flash.reliable ==> flash.powered == old(flash.powered)
      ensures (flash.reliable && old(flash.powered))
          ==> (rc == 0 <==> ImageKeyhash(flash.Image()).Some?)
    {
      hide GetLe16, GetLe32, KeyhashAmong, TlvOffset;
      ghost var m := flash.Image();
      out := [];
      var hdr, info;
      rc, hdr := flash.Read(0, 32);
      if rc != 0 {
        return;
      }
      HeaderFields(m, hdr);
      if GetLe32(hdr) != IMG_MAGIC || GetLe16(hdr[8..]) != IMG_HDR_SIZE {
        return -1, [];
      }
      var tlv_off := TlvOffset(hdr);
      if (tlv_off + 4) % U32_MOD > SLOT1_SIZE || tlv_off % 4 != 0 {
        return -1, [];
      }
      rc, info := flash.Read(tlv_off, 4);
      if rc != 0 {
        return;
      }
      EntryFields(m, info, tlv_off);
      var tlv_size := GetLe16(info[2..]);
      if GetLe16(info) != TLV_MAGIC || tlv_size == 0 || tlv_off + tlv_size > SLOT1_SIZE {
        return -1, [];
      }
      rc, out := WalkEntries(tlv_off + 4, tlv_off + tlv_size);
    }

    /** The entry loop of tlv_keyhash_get. */
    method WalkEntries(first: nat, tlv_end: nat) returns (rc: int, out: seq<byte>)
      requires flash.Valid() && tlv_end <= SLOT1_SIZE
      modifies flash`powered
      ensures rc == 0 || rc == -1
      ensures rc == 0 ==> KeyhashAmong(flash.Image(), first, tlv_end) == Some(out)
      ensures flash.reliable ==> flash.powered == old(flash.powered)
      ensures (flash.reliable && old(flash.powered))
          ==> (rc == 0 <==> KeyhashAmong(flash.Image(), first, tlv_end).Some?)
    {
      hide GetLe16, KeyhashAmong;
      ghost var m := flash.Image();
      var off, ent := first, [];
      while off + 4 <= tlv_end
        invariant KeyhashAmong(m, first, tlv_end) == KeyhashAmong(m, off, tlv_end)
        invariant flash.reliable ==> flash.powered == old(flash.powered)
        decreases tlv_end - off
      {
        KeyhashAmongStep(m, off, tlv_end);
        rc, ent := flash.Read(off, 4);
        if rc != 0 {
          return rc, [];
        }
        EntryFields(m, ent, off);
        var tag, len := GetLe16(ent), GetLe16(ent[2..]);
        if tag == KEYHASH_TAG && len == KEYHASH_LEN {
          rc, out := flash.Read(off + 4, KEYHASH_LEN);
          return;
        }
        off := off + 4 + Round4(len);
      }
      KeyhashAmongNone(m, off, tlv_end);
      return -1, [];
    }

    /** fw_upg_finish_ex */
    method Finish(crc_expect: word, check_crc: bool) returns (rc: int)
      requires Valid()
      modifies this, flash`powered, flash.mem
      ensures Valid() && !active && Beyond() == old(Beyond()) && total == old(total)
      ensures rc == 0 || rc == -1
      ensures old(active) ==> !failed && written == 0
      ensures old(active && !failed) ==> Received() == 0
      ensures !old(active) ==> rc == -1 && unchanged(this) && unchanged(flash.mem)
      ensures rc == 0 ==> old(active && !failed) && |old(accepted)| == old(total)
      ensures rc == 0 ==> flash.Image()[..total] == old(accepted)
      ensures rc == 0 && check_crc ==> Crc.Ccitt(0, flash.Image()[..total]) == crc_expect
      ensures rc == 0 ==> ImageKeyhash(flash.Image()) == Some(keyhash)
      ensures flash.reliable ==> flash.powered == old(flash.powered)
      ensures (flash.reliable && old(flash.powered && active && !failed))
          ==> (rc == 0 <==> |old(accepted)| == old(total)
                            && (check_crc ==> Crc.Ccitt(0, old(accepted)) == crc_expect)
                            && ImageKeyhash(flash.Image()) == Some(keyhash))
      ensures (flash.reliable && old(flash.powered && active && !failed) && |old(accepted)| == total)
          ==> flash.Image()[..total] == old(accepted)
    {
      if !active {
        return -1;
      }
      active := false;
      rc := Close(crc_expect, check_crc);
      failed := false;
      written := 0;
    }

    /** The checks of fw_upg_finish_ex, between clearing `active` and resetting the session. */
    method Close(crc_expect: word, check_crc: bool) returns (rc: int)
      requires flash.Valid() && page.Length == PAGE && page != flash.mem && page_len < PAGE
      requires 64 <= total <= SLOT1_SIZE && (!failed ==> Streaming())
      modifies this`page_len, this`written, flash`powered, flash.mem
      ensures page_len < PAGE && Beyond() == old(Beyond()) && (!failed ==> page_len == 0)
      ensures rc == 0 || rc == -1
      ensures rc == 0 ==> !failed && |accepted| == total && flash.Image()[..total] == accepted
      ensures rc == 0 && check_crc ==> Crc.Ccitt(0, flash.Image()[..total]) == crc_expect
      ensures rc == 0 ==> ImageKeyhash(flash.Image()) == Some(keyhash)
      ensures flash.reliable ==> flash.powered == old(flash.powered)
      ensures (flash.reliable && old(flash.powered) && !failed)
          ==> (rc == 0 <==> |accepted| == total
                            && (check_crc ==> Crc.Ccitt(0, accepted) == crc_expect)
                            && ImageKeyhash(flash.Image()) == Some(keyhash))
      ensures (flash.reliable && old(flash.powered) && !failed && |accepted| == total)
          ==> flash.Image()[..total] == accepted
    {
      var tail := page_len;
      if failed {
        return -1;
      }
      rc := PageFlush();
      if rc != 0 {
        return -1;
      }
      written := written + tail;
      assert flash.Image()[..written] == accepted;
      if written != total {
        return -1;
      }
      if check_crc {
        var match_ := ReadBackCrc(crc_expect);
        if !match_ {
          return -1;
        }
      }
      var kh;
      rc, kh := TlvKeyhashGet();
      if rc != 0 || kh != keyhash {
        return -1;
      }
    }

    /** The CRC over slot1 as it reads back, in 64-byte pieces. */
    method ReadBackCrc(crc_expect: word) returns (same: bool)
      requires flash.Valid() && total <= SLOT1_SIZE
      modifies flash`powered
      ensures same ==> Crc.Ccitt(0, flash.Image()[..total]) == crc_expect
      ensures flash.reliable ==> flash.powered == old(flash.powered)
      ensures flash.reliable && old(flash.powered)
          ==> same == (Crc.Ccitt(0, flash.Image()[..total]) == crc_expect)
    {
      ghost var m := flash.Image();
      var crc: word := 0;
      var off: nat := 0;
      while off < total
        invariant 0 <= off <= total && crc == Crc.Ccitt(0, m[..off])
        invariant flash.reliable ==> flash.powered == old(flash.powered)
      {
        var n := total - off;
        if n > READ_CHUNK {
          n := READ_CHUNK;
        }
        var rc, buf := flash.Read(off, n);
        if rc != 0 {
          return false;
        }
        Crc.FoldAppend(Crc.CCITT, 0, m[..off], m[off..off + n]);
        assert m[..off] + m[off..off + n] == m[..off + n];
        crc := Crc.Crc16Ccitt(crc, buf);
        off := off + n;
      }
      same := crc == crc_expect;
    }
  }

  lemma KeyhashAmongNone(m: seq<byte>, off: nat, end: nat)
    requires |m| == CHIP && end <= SLOT1_SIZE && off + 4 > end
    ensures KeyhashAmong(m, off, end) == None
  {
  }

  lemma HeaderFields(m: seq<byte>, hdr: seq<byte>)
    requires |m| >= 32 && hdr == m[0..32]
    ensures GetLe32(hdr) == GetLe32(m) && GetLe16(hdr[8..]) == GetLe16(m[8..])
    ensures TlvOffset(hdr) == TlvOffset(m)
  {
    assert hdr[..4] == m[..4];
    assert hdr[8..][..2] == m[8..][..2];
    assert hdr[12..][..4] == m[12..][..4];
  }

  lemma EntryFields(m: seq<byte>, ent: seq<byte>, off: nat)
    requires off + 4 <= |m| && ent == m[off..off + 4]
    ensures GetLe16(ent) == GetLe16(m[off..]) && GetLe16(ent[2..]) == GetLe16(m[off + 2..])
  {
    assert ent[..2] == m[off..][..2];
    assert ent[2..][..2] == m[off + 2..][..2];
  }

  lemma FullPageFits(written: nat, total: nat)
    requires written % PAGE == 0 && written < total <= SLOT1_SIZE
    ensures written + PAGE <= SLOT1_SIZE
  {
  }

  /** Data programmed at the start of the blank part extends what is stored and leaves the rest
      of the slot blank. */
  lemma FlushedPage(m: seq<byte>, at: nat, d: seq<byte>)
    requires |m| == CHIP && at + |d| <= SLOT1_SIZE
    requires Blank(m[at..SLOT1_SIZE])
    ensures Programmed(m, at, d)[..at + |d|] == m[..at] + d
    ensures Blank(Programmed(m, at, d)[at + |d|..SLOT1_SIZE])
  {
    hide Programmed;
    var r, end := Programmed(m, at, d), at + |d|;
    assert m[at..SLOT1_SIZE][..|d|] == m[at..end];
    ProgrammedBlank(m, at, d);
    ProgrammedElsewhere(m, at, d, 0, at);
    ProgrammedElsewhere(m, at, d, end, SLOT1_SIZE);
    assert r[..end] == r[0..at] + r[at..end];
    assert m[at..SLOT1_SIZE][|d|..] == m[end..SLOT1_SIZE];
  }
}
