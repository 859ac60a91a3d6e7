/** The rescue session of the boot loader (src/boot/boot_can.c) as values: what one frame does to it,
    and what a whole conversation leaves in slot0. BootCan.Session is the code that behaves this way. */
module BootRescue {
  import opened Bytes
  import opened Common
  import opened NorFlash
  import opened CanProtocol
  import IntFlash

  const SLOT0_OFFSET := 0x1_0000
  const SLOT0_SIZE := 0x7_0000
  const SLOT0_ADDR := IntFlash.BASE + SLOT0_OFFSET

  /** What the flash does with the erase or program a frame asks for. A failure has swept the first
      `done` sectors of the table, or stored the first `done` bytes. */
  datatype FlashResult = Works | Fails(done: nat)

  datatype Rescue = Rescue(active: bool, total: nat, written: nat, keys: map<nat, seq<byte>>,
                           installed: bool, confirmed: bool, image: seq<byte>)

  predicate Good(s: Rescue) {
    |s.image| == IntFlash.SIZE && (s.active ==> s.written <= s.total <= SLOT0_SIZE)
  }

  /** Byte p of slot0. */
  function At(m: seq<byte>, p: nat): byte
    requires |m| == IntFlash.SIZE && p < SLOT0_SIZE
  {
    m[SLOT0_OFFSET + p]
  }

  // ---- one frame ----

  function EraseEnd(arg: nat): nat {
    SLOT0_ADDR + (arg + 0xFFF) / 0x1000 * 0x1000
  }

  /** FW_CMD_START */
  function Started(key: seq<byte>, s: Rescue, f: Frame, o: FlashResult): (Rescue, Reply)
    requires Good(s)
  {
    var t := s.(keys := KeysAfter(s.keys, f));
    if WrongKey(key, s.keys) then (t, Reply(KeyhashError, 0))
    else if Arg(f) < 64 || Arg(f) > SLOT0_SIZE then (t, Reply(FlashError, 0))
    else
      match o
      case Works =>
        (t.(active := true, total := Arg(f), written := 0,
            image := IntFlash.Swept(s.image, SLOT0_ADDR, EraseEnd(Arg(f)), 8)), Reply(Offset, 0))
      case Fails(n) =>
        (t.(image := IntFlash.Swept(s.image, SLOT0_ADDR, EraseEnd(Arg(f)), Min(n, 8))), Reply(FlashError, 0))
  }

  /** FW_CMD_CONFIRM */
  function Confirmed(s: Rescue): (Rescue, Reply) {
    if !s.active then (s, Reply(TransferError, 0))
    else if s.written != s.total then (s.(active := false), Reply(TransferError, 0))
    else (s.(active := false, installed := true, confirmed := true), Reply(Confirm, CONFIRM_MAGIC))
  }

  /** handle_data */
  function Taken(s: Rescue, f: Frame, o: FlashResult): (Rescue, Option<Reply>)
    requires Good(s)
  {
    if !s.active then (s, Some(Reply(TransferError, 0)))
    else if f.dlc == 0 || s.written + f.dlc > s.total then (s.(active := false), Some(Reply(TransferError, 0)))
    else
      match o
      case Works =>
        (s.(written := s.written + f.dlc, image := Programmed(s.image, SLOT0_OFFSET + s.written, Piece(f))),
         DataReply(s.written + f.dlc, s.total))
      case Fails(n) =>
        (s.(active := false, image := Programmed(s.image, SLOT0_OFFSET + s.written, Piece(f)[..Min(n, f.dlc)])),
         Some(Reply(FlashError, 0)))
  }

  /** handle_frame. The answer to a version query is left out. */
  function Step(key: seq<byte>, s: Rescue, f: Frame, o: FlashResult): (r: (Rescue, Option<Reply>))
    requires Good(s)
    ensures Good(r.0)
  {
    if f.id == ID_CMD then
      if f.dlc < 4 then (s, None)
      else if f.dlc != 8 then (s, Some(Reply(FlashError, 0)))
      else if IsCommand(f, CMD_START) then var r := Started(key, s, f, o); (r.0, Some(r.1))
      else if IsCommand(f, CMD_CONFIRM) then var r := Confirmed(s); (r.0, Some(r.1))
      else if IsCommand(f, CMD_REBOOT) then (s.(confirmed := true), None)
      else (s, None)
    else if f.id == ID_DATA then Taken(s, f, o)
    else (s.(keys := KeysAfter(s.keys, f)), None)
  }

  // ---- a conversation ----

  /** A frame that came, and how the flash fared with it. */
  datatype Event = Event(f: Frame, o: FlashResult)

  function Run(key: seq<byte>, s: Rescue, es: seq<Event>): (r: Rescue)
    requires Good(s)
    ensures Good(r)
  {
    if es == [] then s
    else var e := es[|es| - 1]; Step(key, Run(key, s, es[..|es| - 1]), e.f, e.o).0
  }

  /** boot_can_wait clears the session first. */
  predicate Fresh(s: Rescue) {
    Good(s) && !s.active && s.keys == map[] && !s.installed && !s.confirmed
  }

  // ---- what the frames say ----

  /** The chunks that came and no START has used up. */
  function Keys(es: seq<Event>): map<nat, seq<byte>> {
    if es == [] then map[] else KeysAfter(Keys(es[..|es| - 1]), es[|es| - 1].f)
  }

  /** After es: a START for a possible length, and no wrong fingerprint has come in full. */
  predicate Admitted(key: seq<byte>, es: seq<Event>, f: Frame) {
    IsCommand(f, CMD_START) && 64 <= Arg(f) <= SLOT0_SIZE && !WrongKey(key, Keys(es))
  }

  /** An accepted START. */
  predicate Opens(key: seq<byte>, es: seq<Event>, e: Event) {
    Admitted(key, es, e.f) && e.o.Works?
  }

  /** A START whose erase has failed. */
  predicate Misses(key: seq<byte>, es: seq<Event>, e: Event) {
    Admitted(key, es, e.f) && e.o.Fails?
  }

  /** The START that was accepted last. */
  function LastStart(key: seq<byte>, es: seq<Event>): (i: Option<nat>)
    ensures i.Some? ==> i.value < |es| && Opens(key, es[..i.value], es[i.value])
  {
    if es == [] then None
    else
      var before, e := es[..|es| - 1], es[|es| - 1];
      if Opens(key, before, e) then Some(|before|)
      else
        var i := LastStart(key, before);
        assert i.Some? ==> before[..i.value] == es[..i.value];
        i
  }

  /** The payloads of all data frames. */
  function Payloads(es: seq<Event>): seq<byte> {
    if es == [] then []
    else
      var e := es[|es| - 1];
      Payloads(es[..|es| - 1]) + if e.f.id == ID_DATA then Piece(e.f) else []
  }

  /** The data since the last accepted START. */
  function Stream(key: seq<byte>, es: seq<Event>): seq<byte> {
    match LastStart(key, es) case None => [] case Some(i) => Payloads(es[i + 1..])
  }

  /** The erase of a failed START has got as far as byte p of the slot. */
  predicate Reached(e: Event, p: nat) {
    e.o.Fails? && p < SLOT0_SIZE && SweepHits(p, Arg(e.f), Min(e.o.done, 8))
  }

  predicate SweepHits(p: nat, arg: nat, n: nat)
    requires p < SLOT0_SIZE
  {
    var k := IntFlash.SectorOf(SLOT0_OFFSET + p);
    k < n && IntFlash.Meets(IntFlash.TABLE[k], SLOT0_ADDR, EraseEnd(arg))
  }

  /** Byte p had come when a later START, whose erase failed, blanked it. */
  predicate Blanked(key: seq<byte>, es: seq<Event>, p: nat) {
    es != [] &&
    var before, e := es[..|es| - 1], es[|es| - 1];
    && !Opens(key, before, e)
    && (Blanked(key, before, p) || (Misses(key, before, e) && p < |Stream(key, before)| && Reached(e, p)))
  }

  /** No START since the last accepted one has failed its erase. */
  predicate Intact(key: seq<byte>, es: seq<Event>) {
    es != [] ==>
      var before, e := es[..|es| - 1], es[|es| - 1];
      Opens(key, before, e) || (!Misses(key, before, e) && Intact(key, before))
  }

  /** Slot0 holds what came since the last accepted START - as many bytes as that announced, after a
      fingerprint that, if it was complete, was the right one - but for what a failed erase has blanked. */
  predicate Delivered(key: seq<byte>, es: seq<Event>, s: Rescue)
    requires Good(s)
  {
    && LastStart(key, es).Some?
    && var i := LastStart(key, es).value;
       && s.total == Arg(es[i].f) <= SLOT0_SIZE && |Payloads(es[i + 1..])| == s.total
       && (AllChunks(Keys(es[..i])) ==> Assembled(Keys(es[..i])) == key)
       && (forall p: nat :: p < s.total ==>
             At(s.image, p) == if Blanked(key, es, p) then 0xFF else Payloads(es[i + 1..])[p])
  }

  // ---- one more frame ----

  lemma PayloadsMore(es: seq<Event>, i: nat)
    requires i < |es|
    ensures Payloads(es[i..]) == Payloads(es[..|es| - 1][i..])
                                 + if es[|es| - 1].f.id == ID_DATA then Piece(es[|es| - 1].f) else []
  {
    var since := es[i..];
    assert since[..|since| - 1] == es[..|es| - 1][i..] && since[|since| - 1] == es[|es| - 1];
  }

  lemma Snoc(key: seq<byte>, es: seq<Event>, e: Event)
    ensures var now := es + [e];
            && Keys(now) == KeysAfter(Keys(es), e.f)
            && LastStart(key, now) == (if Opens(key, es, e) then Some(|es|) else LastStart(key, es))
            && Stream(key, now) == (if Opens(key, es, e) then []
                                    else if e.f.id == ID_DATA && LastStart(key, es).Some?
                                    then Stream(key, es) + Piece(e.f) else Stream(key, es))
  {
    var now := es + [e];
    assert now[..|now| - 1] == es && now[|now| - 1] == e;
    hide Opens, KeysAfter;
    if Opens(key, es, e) {
      assert now[|es| + 1..] == [];
    } else if LastStart(key, es).Some? {
      PayloadsMore(now, LastStart(key, es).value + 1);
    }
  }

  lemma SnocBlanked(key: seq<byte>, es: seq<Event>, e: Event, p: nat)
    ensures Blanked(key, es + [e], p)
            <==> !Opens(key, es, e)
                 && (Blanked(key, es, p) || (Misses(key, es, e) && p < |Stream(key, es)| && Reached(e, p)))
  {
    var now := es + [e];
    assert now[..|now| - 1] == es && now[|now| - 1] == e;
    hide Opens, Misses, Stream, Reached;
  }

  /** Only what has come can have been blanked. */
  lemma {:induction false} BlankedCame(key: seq<byte>, es: seq<Event>, p: nat)
    requires Blanked(key, es, p)
    ensures p < |Stream(key, es)|
  {
    var before, e := es[..|es| - 1], es[|es| - 1];
    assert before + [e] == es;
    Snoc(key, before, e);
    hide Stream, LastStart, Opens, Misses, Reached;
    if Blanked(key, before, p) {
      BlankedCame(key, before, p);
    }
  }

  // ---- the invariant ----

  function Expected(key: seq<byte>, es: seq<Event>, p: nat): byte {
    if p < |Stream(key, es)| && !Blanked(key, es, p) then Stream(key, es)[p] else 0xFF
  }

  predicate Tracks(key: seq<byte>, es: seq<Event>, s: Rescue)
    requires Good(s)
  {
    && LastStart(key, es).Some? && s.total == Arg(es[LastStart(key, es).value].f) <= SLOT0_SIZE
    && s.written == |Stream(key, es)| <= s.total
    && forall p: nat :: p < s.total ==> At(s.image, p) == Expected(key, es, p)
  }

  predicate Holds(key: seq<byte>, es: seq<Event>, s: Rescue, boot: seq<byte>) {
    && Good(s) && s.keys == Keys(es) && s.image[..SLOT0_OFFSET] == boot
    && (s.active ==> Tracks(key, es, s))
  }

  // ---- each frame keeps it ----

  lemma EraseLength(arg: nat)
    requires 64 <= arg <= SLOT0_SIZE
    ensures SLOT0_ADDR + arg <= EraseEnd(arg) <= IntFlash.END
  {
  }

  /** A sweep of slot0 blanks the bytes it reaches and no other, and no boot sector. */
  lemma SlotSwept(m: seq<byte>, arg: nat, n: nat)
    requires |m| == IntFlash.SIZE && 64 <= arg <= SLOT0_SIZE && n <= 8
    ensures var r := IntFlash.Swept(m, SLOT0_ADDR, EraseEnd(arg), n);
            && r[..SLOT0_OFFSET] == m[..SLOT0_OFFSET]
            && (forall p: nat :: p < SLOT0_SIZE ==>
                  At(r, p) == if SweepHits(p, arg, n) then 0xFF else At(m, p))
            && (n == 8 ==> forall p: nat :: p < arg ==> At(r, p) == 0xFF)
  {
    var end := EraseEnd(arg);
    EraseLength(arg);
    var r := IntFlash.Swept(m, SLOT0_ADDR, end, n);
    forall i: nat | i < SLOT0_OFFSET
      ensures r[i] == m[i]
    {
      IntFlash.SweptAt(m, SLOT0_ADDR, end, n, i);
    }
    forall p: nat | p < SLOT0_SIZE
      ensures At(r, p) == if SweepHits(p, arg, n) then 0xFF else At(m, p)
      ensures n == 8 && p < arg ==> At(r, p) == 0xFF
    {
      IntFlash.SweptAt(m, SLOT0_ADDR, end, n, SLOT0_OFFSET + p);
      hide IntFlash.Swept;
      IntFlash.OnlySector(SLOT0_OFFSET + p, IntFlash.SectorOf(SLOT0_OFFSET + p));
    }
  }

  lemma StartKeeps(key: seq<byte>, es: seq<Event>, s: Rescue, boot: seq<byte>, e: Event)
    requires Holds(key, es, s, boot) && IsCommand(e.f, CMD_START)
    ensures Holds(key, es + [e], Started(key, s, e.f, e.o).0, boot)
  {
    hide Keys, LastStart, Stream, Blanked, IntFlash.Swept, KeysAfter, WrongKey, EraseEnd;
    if Opens(key, es, e) {
      SlotSwept(s.image, Arg(e.f), 8);
      StartOpens(key, es, s, boot, e, Started(key, s, e.f, e.o).0);
    } else if Misses(key, es, e) {
      SlotSwept(s.image, Arg(e.f), Min(e.o.done, 8));
      StartFails(key, es, s, boot, e, Started(key, s, e.f, e.o).0);
    } else {
      StartRefused(key, es, s, boot, e, Started(key, s, e.f, e.o).0);
    }
  }

  lemma StartOpens(key: seq<byte>, es: seq<Event>, s: Rescue, boot: seq<byte>, e: Event, t: Rescue)
    requires Holds(key, es, s, boot) && Opens(key, es, e) && Good(t) && t.keys == KeysAfter(s.keys, e.f)
    requires t.active && t.total == Arg(e.f) && t.written == 0
    requires t.image[..SLOT0_OFFSET] == boot && forall p: nat :: p < t.total ==> At(t.image, p) == 0xFF
    ensures Holds(key, es + [e], t, boot)
  {
    Snoc(key, es, e);
    hide Keys, LastStart, Stream, Blanked, KeysAfter, At, WrongKey, IsCommand;
  }

  lemma StartFails(key: seq<byte>, es: seq<Event>, s: Rescue, boot: seq<byte>, e: Event, t: Rescue)
    requires Holds(key, es, s, boot) && Misses(key, es, e) && Good(t) && t.keys == KeysAfter(s.keys, e.f)
    requires t.active == s.active && t.total == s.total && t.written == s.written
    requires t.image[..SLOT0_OFFSET] == boot
    requires forall p: nat :: p < SLOT0_SIZE ==>
      At(t.image, p) == if SweepHits(p, Arg(e.f), Min(e.o.done, 8)) then 0xFF else At(s.image, p)
    ensures Holds(key, es + [e], t, boot)
  {
    Snoc(key, es, e);
    hide Keys, LastStart, Stream, Blanked, KeysAfter, At, WrongKey, SweepHits;
    assert e.f.id != ID_DATA;
    hide IsCommand;
    if t.active {
      forall p: nat | p < t.total
        ensures At(t.image, p) == Expected(key, es + [e], p)
      {
        SnocBlanked(key, es, e, p);
      }
    }
  }

  lemma StartRefused(key: seq<byte>, es: seq<Event>, s: Rescue, boot: seq<byte>, e: Event, t: Rescue)
    requires Holds(key, es, s, boot) && IsCommand(e.f, CMD_START) && !Admitted(key, es, e.f)
    requires t == s.(keys := KeysAfter(s.keys, e.f))
    ensures Holds(key, es + [e], t, boot)
  {
    assert e.f.id != ID_DATA;
    Unblanked(key, es, s, t, e);
    Snoc(key, es, e);
    hide Keys, Tracks, KeysAfter, WrongKey;
  }

  /** A frame that neither is a START let through nor brings data changes nothing that is tracked. */
  lemma Unblanked(key: seq<byte>, es: seq<Event>, s: Rescue, t: Rescue, e: Event)
    requires Good(s) && Good(t) && !Admitted(key, es, e.f) && e.f.id != ID_DATA
    requires t.total == s.total && t.written == s.written && t.image == s.image
    ensures Tracks(key, es, s) ==> Tracks(key, es + [e], t)
  {
    Snoc(key, es, e);
    hide Keys, LastStart, Stream, Blanked, At, Admitted;
    forall p: nat
      ensures Blanked(key, es + [e], p) == Blanked(key, es, p)
    {
      SnocBlanked(key, es, e, p);
    }
  }

  lemma DataKeeps(key: seq<byte>, es: seq<Event>, s: Rescue, boot: seq<byte>, e: Event)
    requires Holds(key, es, s, boot) && e.f.id == ID_DATA
    ensures Holds(key, es + [e], Taken(s, e.f, e.o).0, boot)
  {
    assert !IsCommand(e.f, CMD_START) && KeysAfter(s.keys, e.f) == s.keys;
    TakenStores(s, e.f, e.o);
    Snoc(key, es, e);
    hide Keys, KeysAfter, Taken, Tracks, LastStart, Stream, At, IsCommand;
    if Taken(s, e.f, e.o).0.active {
      DataTracked(key, es, s, Taken(s, e.f, e.o).0, e);
    }
  }

  /** A data frame leaves the boot sectors alone, and if the session goes on, its payload is stored. */
  lemma TakenStores(s: Rescue, f: Frame, o: FlashResult)
    requires Good(s)
    ensures var t := Taken(s, f, o).0;
            && Good(t) && t.keys == s.keys && t.image[..SLOT0_OFFSET] == s.image[..SLOT0_OFFSET]
            && (t.active ==>
                  && s.active && t.total == s.total && t.written == s.written + f.dlc <= s.total
                  && forall p: nat :: p < SLOT0_SIZE ==>
                       At(t.image, p) == if s.written <= p < s.written + f.dlc
                                         then And(At(s.image, p), Piece(f)[p - s.written]) else At(s.image, p))
  {
    hide Programmed, At, And;
    if s.active && s.written + f.dlc <= s.total {
      StoredAt(s, Piece(f), match o case Works => f.dlc case Fails(n) => Min(n, f.dlc));
      assert Piece(f)[..f.dlc] == Piece(f);
    }
  }

  lemma DataTracked(key: seq<byte>, es: seq<Event>, s: Rescue, t: Rescue, e: Event)
    requires Good(s) && Good(t) && Tracks(key, es, s) && e.f.id == ID_DATA
    requires t.total == s.total && t.written == s.written + e.f.dlc <= s.total
    requires forall p: nat :: p < SLOT0_SIZE ==>
      At(t.image, p) == if s.written <= p < s.written + e.f.dlc
                        then And(At(s.image, p), Piece(e.f)[p - s.written]) else At(s.image, p)
    ensures Tracks(key, es + [e], t)
  {
    Snoc(key, es, e);
    assert !Admitted(key, es, e.f);
    hide Stream, LastStart, Blanked, Admitted, Keys, And, At;
    forall p: nat | p < t.total
      ensures At(t.image, p) == Expected(key, es + [e], p)
    {
      SnocBlanked(key, es, e, p);
      if Blanked(key, es, p) {
        BlankedCame(key, es, p);
      }
      if s.written <= p < s.written + e.f.dlc {
        AndBlank(Piece(e.f)[p - s.written]);
      }
    }
  }

  /** A piece, or its first n bytes, programmed into the slot. */
  lemma StoredAt(s: Rescue, d: seq<byte>, n: nat)
    requires Good(s) && n <= |d| && s.written + |d| <= SLOT0_SIZE
    ensures var r := Programmed(s.image, SLOT0_OFFSET + s.written, d[..n]);
            && r[..SLOT0_OFFSET] == s.image[..SLOT0_OFFSET]
            && forall p: nat :: p < SLOT0_SIZE ==>
                 At(r, p)
                 == if s.written <= p < s.written + n then And(At(s.image, p), d[p - s.written])
                    else At(s.image, p)
  {
    hide And;
  }

  /** Any other frame may end the session or bring a key chunk; it does not touch the flash. */
  lemma OtherStep(key: seq<byte>, s: Rescue, f: Frame, o: FlashResult)
    requires Good(s) && !IsCommand(f, CMD_START) && f.id != ID_DATA
    ensures var t := Step(key, s, f, o).0;
            && t.keys == KeysAfter(s.keys, f) && t.image == s.image
            && (t.active ==> s.active) && t.total == s.total && t.written == s.written
    ensures Step(key, s, f, o).1 == Some(Reply(Confirm, CONFIRM_MAGIC)) ==>
      s.active && s.written == s.total && Step(key, s, f, o).0.installed
  {
    hide GetLe32, Val;
  }

  lemma OtherKeeps(key: seq<byte>, es: seq<Event>, s: Rescue, boot: seq<byte>, e: Event)
    requires Holds(key, es, s, boot) && !IsCommand(e.f, CMD_START) && e.f.id != ID_DATA
    ensures Holds(key, es + [e], Step(key, s, e.f, e.o).0, boot)
  {
    OtherStep(key, s, e.f, e.o);
    Snoc(key, es, e);
    Unblanked(key, es, s, Step(key, s, e.f, e.o).0, e);
    hide Step, Stream, LastStart, KeysAfter, Keys, Tracks;
  }

  lemma StepKeeps(key: seq<byte>, es: seq<Event>, s: Rescue, boot: seq<byte>, e: Event)
    requires Holds(key, es, s, boot)
    ensures Holds(key, es + [e], Step(key, s, e.f, e.o).0, boot)
  {
    if IsCommand(e.f, CMD_START) {
      StartKeeps(key, es, s, boot, e);
    } else if e.f.id == ID_DATA {
      DataKeeps(key, es, s, boot, e);
    } else {
      OtherKeeps(key, es, s, boot, e);
    }
  }

  lemma {:induction false} RunHolds(key: seq<byte>, s: Rescue, es: seq<Event>)
    requires Fresh(s)
    ensures Holds(key, es, Run(key, s, es), s.image[..SLOT0_OFFSET])
  {
    if es != [] {
      var e := es[|es| - 1];
      RunHolds(key, s, es[..|es| - 1]);
      assert es[..|es| - 1] + [e] == es;
      StepKeeps(key, es[..|es| - 1], Run(key, s, es[..|es| - 1]), s.image[..SLOT0_OFFSET], e);
    }
  }

  // ---- what a confirmation means ----

  /** Whatever frames came and however the flash fared: when CONFIRM is answered with the magic, slot0 is
      exactly what the data frames since the last accepted START brought, but for the bytes a failed erase
      has blanked since; and the boot sectors are as they were. */
  lemma ConfirmExact(key: seq<byte>, s: Rescue, es: seq<Event>, e: Event)
    requires Fresh(s) && Step(key, Run(key, s, es), e.f, e.o).1 == Some(Reply(Confirm, CONFIRM_MAGIC))
    ensures var t := Step(key, Run(key, s, es), e.f, e.o).0;
            Delivered(key, es + [e], t) && t.installed && t.image[..SLOT0_OFFSET] == s.image[..SLOT0_OFFSET]
  {
    var a, now := Run(key, s, es), es + [e];
    RunHolds(key, s, es);
    hide Run;
    OnlyConfirm(key, a, e.f, e.o);
    OtherStep(key, a, e.f, e.o);
    Snoc(key, es, e);
    Unblanked(key, es, a, Step(key, a, e.f, e.o).0, e);
    var i := LastStart(key, es).value;
    assert now[..i] == es[..i] && now[i] == es[i];
    hide Step, KeysAfter, LastStart, Keys, Blanked;
  }

  lemma OnlyConfirm(key: seq<byte>, s: Rescue, f: Frame, o: FlashResult)
    requires Good(s) && Step(key, s, f, o).1 == Some(Reply(Confirm, CONFIRM_MAGIC))
    ensures !IsCommand(f, CMD_START) && f.id != ID_DATA
  {
    hide GetLe32, IntFlash.Swept, Programmed;
  }

  lemma {:induction false} IntactIsWhole(key: seq<byte>, es: seq<Event>, p: nat)
    requires Intact(key, es)
    ensures !Blanked(key, es, p)
  {
    if es != [] {
      var before := es[..|es| - 1];
      hide Opens, Misses, Stream, Reached;
      if Intact(key, before) {
        IntactIsWhole(key, before, p);
      }
    }
  }

  function Slot(s: Rescue, n: nat): (r: seq<byte>)
    requires Good(s) && n <= SLOT0_SIZE
  {
    s.image[SLOT0_OFFSET..SLOT0_OFFSET + n]
  }

  /** The rescue is sound - slot0 is the data since the last accepted START - exactly when every byte a
      failed erase has blanked was 0xFF to begin with. */
  lemma SoundIff(key: seq<byte>, es: seq<Event>, s: Rescue)
    requires Good(s) && Delivered(key, es, s)
    ensures Slot(s, s.total) == Stream(key, es)
            <==> forall p: nat :: p < s.total && Blanked(key, es, p) ==> Stream(key, es)[p] == 0xFF
  {
    hide LastStart, Blanked, Keys;
    var d, slot := Stream(key, es), Slot(s, s.total);
    assert forall p: nat :: p < s.total ==> slot[p] == At(s.image, p) == if Blanked(key, es, p) then 0xFF else d[p];
    if forall p: nat :: p < s.total && Blanked(key, es, p) ==> d[p] == 0xFF {
      assert slot == d;
    }
  }

  /** In particular it is sound if no START since has failed its erase. */
  lemma IntactSound(key: seq<byte>, es: seq<Event>, s: Rescue)
    requires Good(s) && Delivered(key, es, s) && Intact(key, es)
    ensures Slot(s, s.total) == Stream(key, es)
  {
    forall p: nat
      ensures !Blanked(key, es, p)
    {
      IntactIsWhole(key, es, p);
    }
    SoundIff(key, es, s);
  }

  /** On a flash whose erases succeed. */
  predicate ErasesWork(es: seq<Event>) {
    forall i :: 0 <= i < |es| && IsCommand(es[i].f, CMD_START) ==> es[i].o.Works?
  }

  lemma {:induction false} ErasesWorkIntact(key: seq<byte>, es: seq<Event>)
    requires ErasesWork(es)
    ensures Intact(key, es)
  {
    if es != [] {
      assert ErasesWork(es[..|es| - 1]);
      ErasesWorkIntact(key, es[..|es| - 1]);
      assert !Misses(key, es[..|es| - 1], es[|es| - 1]);
    }
  }

  lemma RunNone(key: seq<byte>, s: Rescue)
    requires Good(s)
    ensures Run(key, s, []) == s
  {
  }

  lemma RunMore(key: seq<byte>, s: Rescue, es: seq<Event>, e: Event)
    requires Good(s)
    ensures Run(key, s, es + [e]) == Step(key, Run(key, s, es), e.f, e.o).0
  {
    assert (es + [e])[..|es + [e]| - 1] == es;
  }

  /** An image becomes installed only by a confirmation. */
  lemma InstalledDelivered(key: seq<byte>, s: Rescue, es: seq<Event>, e: Event)
    requires Fresh(s) && !Run(key, s, es).installed && Run(key, s, es + [e]).installed
    ensures Delivered(key, es + [e], Run(key, s, es + [e])) && Run(key, s, es + [e]).confirmed
  {
    RunMore(key, s, es, e);
    InstalledByConfirm(key, Run(key, s, es), e.f, e.o);
    hide Run, Step, Fresh, Delivered;
    ConfirmExact(key, s, es, e);
  }

  lemma InstalledByConfirm(key: seq<byte>, s: Rescue, f: Frame, o: FlashResult)
    requires Good(s) && Step(key, s, f, o).0.installed && !s.installed
    ensures Step(key, s, f, o).1 == Some(Reply(Confirm, CONFIRM_MAGIC)) && Step(key, s, f, o).0.confirmed
  {
    hide GetLe32, IntFlash.Swept, Programmed, KeysAfter;
  }

  // ---- where it is not sound ----

  /** After es, CONFIRM is answered with the magic although slot0 is not what came. */
  predicate Unsound(key: seq<byte>, s: Rescue, es: seq<Event>, c: Event)
    requires Good(s)
  {
    var r := Step(key, Run(key, s, es), c.f, c.o);
    && r.1 == Some(Reply(Confirm, CONFIRM_MAGIC)) && r.0.total <= SLOT0_SIZE
    && Slot(r.0, r.0.total) != Stream(key, es + [c])
  }

  /** A failed erase leaves the old session open: if it was complete, CONFIRM still answers the magic, over
      a slot whose begin is gone. */
  lemma FailedEraseDamages(key: seq<byte>, s: Rescue, es: seq<Event>, e: Event, c: Event)
    requires Fresh(s) && Misses(key, es, e) && e.o.done >= 5 && IsCommand(c.f, CMD_CONFIRM)
    requires Run(key, s, es).active && Run(key, s, es).written == Run(key, s, es).total
    requires Stream(key, es) != [] && Stream(key, es)[0] != 0xFF
    ensures Unsound(key, s, es + [e], c)
  {
    var now := es + [e];
    StillAnswers(key, s, es, e, c);
    BeginGone(key, es, e, c);
    hide Run, Stream, Blanked, Misses, Step, Fresh;
    ConfirmExact(key, s, now, c);
    SoundIff(key, now + [c], Step(key, Run(key, s, now), c.f, c.o).0);
  }

  lemma StillAnswers(key: seq<byte>, s: Rescue, es: seq<Event>, e: Event, c: Event)
    requires Fresh(s) && Misses(key, es, e) && IsCommand(c.f, CMD_CONFIRM)
    requires Run(key, s, es).active && Run(key, s, es).written == Run(key, s, es).total
    ensures Step(key, Run(key, s, es + [e]), c.f, c.o).1 == Some(Reply(Confirm, CONFIRM_MAGIC))
  {
    RunHolds(key, s, es);
    RunMore(key, s, es, e);
    hide Run, Keys, LastStart, Stream, IntFlash.Swept, KeysAfter, WrongKey, Tracks;
  }

  lemma BeginGone(key: seq<byte>, es: seq<Event>, e: Event, c: Event)
    requires Misses(key, es, e) && e.o.done >= 5 && IsCommand(c.f, CMD_CONFIRM)
    requires Stream(key, es) != [] && Stream(key, es)[0] != 0xFF
    ensures var all := es + [e] + [c];
            Blanked(key, all, 0) && Stream(key, all) == Stream(key, es)
  {
    Snoc(key, es, e);
    SnocBlanked(key, es, e, 0);
    Snoc(key, es + [e], c);
    SnocBlanked(key, es + [e], c, 0);
    assert SweepHits(0, Arg(e.f), Min(e.o.done, 8));
    hide Keys, LastStart, Stream, Blanked, KeysAfter, WrongKey, SweepHits;
    assert e.f.id == ID_CMD && !IsCommand(c.f, CMD_START);
  }

  function Command(cmd: u32, arg: u32): Frame {
    PutLeLength(4, cmd);
    PutLeLength(4, arg);
    CanFrame(ID_CMD, PutLe(4, cmd) + PutLe(4, arg), 8)
  }

  lemma CommandFields(cmd: u32, arg: u32)
    ensures IsCommand(Command(cmd, arg), cmd) && Arg(Command(cmd, arg)) == arg
  {
    Widths();
    LeRoundTrip(4, cmd);
    LeRoundTrip(4, arg);
    hide PutLe, Le;
    var d := Command(cmd, arg).data;
    assert d[..4] == PutLe(4, cmd) && d[4..][..4] == PutLe(4, arg);
  }

  const ZEROS: seq<byte> := [0, 0, 0, 0, 0, 0, 0, 0]

  const START64 := Event(Command(CMD_START, 64), Works)
  const DATA8 := Event(CanFrame(ID_DATA, ZEROS, 8), Works)

  /** START for 64 bytes, and n data frames. */
  function Transfer(n: nat): seq<Event> {
    if n == 0 then [START64] else Transfer(n - 1) + [DATA8]
  }

  /** n data frames have been taken, and no key chunk. */
  predicate Taking(key: seq<byte>, s: Rescue, es: seq<Event>, n: nat)
    requires Good(s)
  {
    && Run(key, s, es).active && Run(key, s, es).total == 64 && Run(key, s, es).written == 8 * n
    && Keys(es) == map[] && LastStart(key, es).Some? && |Stream(key, es)| == 8 * n
    && (n > 0 ==> Stream(key, es)[0] == 0)
  }

  lemma FirstRuns(key: seq<byte>, s: Rescue)
    requires Fresh(s)
    ensures Taking(key, s, [START64], 0)
  {
    CommandFields(CMD_START, 64);
    assert Run(key, s, []) == s && Keys([]) == map[] && [] + [START64] == [START64];
    RunMore(key, s, [], START64);
    Snoc(key, [], START64);
    hide Run, Keys, Stream, LastStart, Command, GetLe32, IntFlash.Swept, EraseEnd;
    assert Opens(key, [], START64);
  }

  lemma DataRuns(key: seq<byte>, s: Rescue, es: seq<Event>, n: nat)
    requires Fresh(s) && n < 8 && Taking(key, s, es, n)
    ensures Taking(key, s, es + [DATA8], n + 1)
  {
    RunMore(key, s, es, DATA8);
    Snoc(key, es, DATA8);
    hide Run, Keys, Stream, LastStart, Programmed;
  }

  lemma {:induction false} TransferRuns(key: seq<byte>, s: Rescue, n: nat)
    requires Fresh(s) && n <= 8
    ensures Taking(key, s, Transfer(n), n)
  {
    if n == 0 {
      FirstRuns(key, s);
    } else {
      TransferRuns(key, s, n - 1);
      hide Taking, Fresh;
      DataRuns(key, s, Transfer(n - 1), n - 1);
    }
  }

  lemma DamagedAfter(key: seq<byte>, s: Rescue, es: seq<Event>, e: Event, c: Event)
    requires Fresh(s) && Taking(key, s, es, 8)
    requires IsCommand(e.f, CMD_START) && Arg(e.f) == 64 && e.o == Fails(5) && IsCommand(c.f, CMD_CONFIRM)
    ensures Unsound(key, s, es + [e], c)
  {
    hide Run, Keys, Stream, LastStart, Unsound, IsCommand, Arg;
    assert Misses(key, es, e);
    FailedEraseDamages(key, s, es, e, c);
  }

  const FAILED64 := Event(Command(CMD_START, 64), Fails(5))
  const CONFIRM_NOW := Event(Command(CMD_CONFIRM, 0), Works)

  /** Such a run: 64 bytes arrive, a second START fails after erasing their sector, CONFIRM is answered. */
  lemma DamagedRun(key: seq<byte>, s: Rescue)
    requires Fresh(s)
    ensures Unsound(key, s, Transfer(8) + [FAILED64], CONFIRM_NOW)
  {
    TransferRuns(key, s, 8);
    CommandFields(CMD_START, 64);
    CommandFields(CMD_CONFIRM, 0);
    hide Taking, Command, Unsound, Transfer, IsCommand, Arg, Fresh;
    DamagedAfter(key, s, Transfer(8), FAILED64, CONFIRM_NOW);
  }
}
