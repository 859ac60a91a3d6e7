/** Power-fail safety of the A/B config slots: what a boot loads after any sequence of completed,
    interrupted and failed saves. */
module ConfigRuns {
  import opened Bytes
  import opened Crc
  import opened RegBits
  import opened ConfigRecord
  import TornHeader

  datatype Slot = Nowhere | A | B

  /** What is in use: cur, cur_gen, cur_slot. */
  datatype Ram = Ram(cfg: Cfg, gen: u32, slot: Slot)

  type Rec = r: seq<byte> | |r| == REC_LEN witness Ones(REC_LEN)

  /** The record areas of the two slots. */
  datatype Disk = Disk(a: Rec, b: Rec)

  const DEFAULTS: Cfg := [0xFFFF, 0x000F, 200, 200, 0, 0x0111, 250, 9600, 1, 192, 168, 12, 101]

  /** config_store_init */
  function Load(d: Disk): Ram {
    if SlotValid(d.a) && (!SlotValid(d.b) || SlotGen(d.a) >= SlotGen(d.b))
    then Ram(SlotCfg(d.a), SlotGen(d.a), A)
    else if SlotValid(d.b) then Ram(SlotCfg(d.b), SlotGen(d.b), B)
    else Ram(DEFAULTS, 0, Nowhere)
  }

  // ---- saving ----

  function Target(r: Ram): Slot {
    if r.slot == A then B else A
  }

  function NextGen(r: Ram): u32 {
    (r.gen + 1) % U32_MOD
  }

  function Put(d: Disk, s: Slot, rec: Rec): Disk {
    if s == B then d.(b := rec) else d.(a := rec)
  }

  /** How far a save got: not even the erase, or the erase and the first j bytes of the record. */
  datatype Cut = Untouched | Stored(j: nat)

  predicate CutOk(cut: Cut) {
    cut.Stored? ==> cut.j <= REC_LEN
  }

  function SaveRecord(r: Ram, c: Cfg): Rec {
    Record(NextGen(r), c)
  }

  function Saved(d: Disk, r: Ram, c: Cfg, cut: Cut): Disk
    requires CutOk(cut)
  {
    match cut
    case Untouched => d
    case Stored(j) => Put(d, Target(r), Torn(SaveRecord(r, c), j))
  }

  const COMPLETE := Stored(REC_LEN)

  function Committed(r: Ram, c: Cfg): Ram {
    Ram(c, NextGen(r), Target(r))
  }

  lemma CompleteIsRecord(r: Ram, c: Cfg)
    ensures Torn(SaveRecord(r, c), REC_LEN) == SaveRecord(r, c)
  {
    hide Record;
  }

  /** An accepted torn record carries the generation of the save it comes from. */
  lemma TornGen(g: u32, c: Cfg, j: nat)
    requires j <= REC_LEN && SlotValid(Torn(Record(g, c), j))
    ensures SlotGen(Torn(Record(g, c), j)) == g
  {
    var t, r := Torn(Record(g, c), j), Record(g, c);
    TornVerdict(g, c, j);
    RecordReadsBack(g, c);
    if t != r {
      assert j >= HDR_LEN;
      hide Record, SlotValid, Covered, Le;
      assert t[4..][..4] == r[4..][..4];
    }
  }

  /** The other slot alone still gives what is in use: the target may be erased at any time. */
  predicate Backed(d: Disk, r: Ram) {
    Load(Put(d, Target(r), Ones(REC_LEN))) == r
  }

  lemma BlankInvalid()
    ensures !SlotValid(Ones(REC_LEN))
  {
    hide Crc32, Quad32, GetLe16;
    assert Ones(REC_LEN)[..4][0] == 0xFF;
  }

  lemma LoadedIsBacked(d: Disk)
    ensures Backed(d, Load(d))
  {
    BlankInvalid();
    hide SlotValid, SlotGen, SlotCfg;
  }

  /** What a boot finds after a save got as far as `cut`: the config in use, or what the torn record
      reads as if it is accepted. */
  lemma AfterCut(d: Disk, r: Ram, c: Cfg, cut: Cut)
    requires CutOk(cut) && Backed(d, r) && r.gen < U32_MOD - 1 && cut.Stored?
    ensures var t := Torn(SaveRecord(r, c), cut.j);
            Load(Saved(d, r, c, cut))
            == if SlotValid(t) then Ram(SlotCfg(t), NextGen(r), Target(r)) else r
  {
    hide SlotValid, SlotGen, SlotCfg, Record, Torn, Load;
    var t := Torn(SaveRecord(r, c), cut.j);
    if SlotValid(t) {
      TornGen(NextGen(r), c, cut.j);
    }
    LoadPut(d, r, t);
  }

  lemma LoadPut(d: Disk, r: Ram, t: Rec)
    requires Backed(d, r) && (SlotValid(t) ==> SlotGen(t) == r.gen + 1)
    ensures Load(Put(d, Target(r), t))
            == if SlotValid(t) then Ram(SlotCfg(t), SlotGen(t), Target(r)) else r
  {
    BlankInvalid();
    hide SlotValid, SlotGen, SlotCfg, Ones;
  }

  lemma AfterComplete(d: Disk, r: Ram, c: Cfg)
    requires Backed(d, r) && r.gen < U32_MOD - 1
    ensures Load(Saved(d, r, c, COMPLETE)) == Committed(r, c)
  {
    AfterCut(d, r, c, COMPLETE);
    CompleteIsRecord(r, c);
    RecordReadsBack(NextGen(r), c);
    hide SlotValid, SlotGen, SlotCfg, Record, Torn;
  }

  // ---- one save ----

  /** No cut of this save leaves a blend that passes. */
  predicate Clean(g: u32, c: Cfg) {
    forall j :: HDR_LEN <= j < CRC_OFF ==> !Collides(g, c, j)
  }

  predicate OldOrNew(d: Disk, r: Ram, c: Cfg, cut: Cut)
    requires CutOk(cut)
  {
    Load(Saved(d, r, c, cut)) == r || Load(Saved(d, r, c, cut)) == Committed(r, c)
  }

  lemma CutVerdict(d: Disk, r: Ram, c: Cfg, j: nat)
    requires j <= REC_LEN && Load(d) == r && r.gen < U32_MOD - 1
    ensures OldOrNew(d, r, c, Stored(j)) <==> !(j <= CRC_OFF && Collides(NextGen(r), c, j))
  {
    var t, g := Torn(SaveRecord(r, c), j), NextGen(r);
    LoadedIsBacked(d);
    AfterCut(d, r, c, Stored(j));
    TornVerdict(g, c, j);
    RecordReadsBack(g, c);
    if j <= CRC_OFF && Collides(g, c, j) {
      if SlotCfg(t) == c {
        TornGen(g, c, j);
        AcceptedIsRecord(t);
        CollidesDiffers(g, c, j);
        assert false;
      }
    }
    hide SlotValid, SlotGen, SlotCfg, Record, Torn, Collides, Load;
  }

  lemma CollidesDiffers(g: u32, c: Cfg, j: nat)
    requires j <= CRC_OFF && Collides(g, c, j)
    ensures Torn(Record(g, c), j) != Record(g, c)
  {
    TornBody(g, c, j);
    CoverSplit(g, c, j);
    RecordParts(g, c);
    hide Record, Covered, Native, Crc32;
  }

  /** Cut anywhere, down to single bytes, a save leaves exactly the old config or exactly the new
      one, if and only if no cut collides under the CRC. */
  lemma SaveAtomicIff(d: Disk, r: Ram, c: Cfg)
    requires Load(d) == r && r.gen < U32_MOD - 1
    ensures (forall cut :: CutOk(cut) ==> OldOrNew(d, r, c, cut)) <==> Clean(NextGen(r), c)
  {
    hide Load, Collides, SaveRecord;
    forall cut | CutOk(cut)
      ensures OldOrNew(d, r, c, cut)
           <==> !(cut.Stored? && cut.j <= CRC_OFF && Collides(NextGen(r), c, cut.j))
    {
      if cut.Stored? {
        CutVerdict(d, r, c, cut.j);
      }
    }
    if !Clean(NextGen(r), c) {
      var j :| HDR_LEN <= j < CRC_OFF && Collides(NextGen(r), c, j);
      CutVerdict(d, r, c, j);
      assert CutOk(Stored(j)) && !OldOrNew(d, r, c, Stored(j));
    } else {
      forall cut | CutOk(cut)
        ensures OldOrNew(d, r, c, cut)
      {
        if cut.Stored? && cut.j <= CRC_OFF {
          CleanCut(NextGen(r), c, cut.j);
        }
      }
    }
  }

  lemma CleanCut(g: u32, c: Cfg, j: nat)
    requires Clean(g, c) && j <= CRC_OFF
    ensures !Collides(g, c, j)
  {
    if HDR_LEN <= j < CRC_OFF {
      assert !Collides(g, c, j);
    }
  }

  /** The states between the flash operations of a save. */
  predicate BetweenOperations(cut: Cut) {
    cut.Untouched? || cut.j == 0 || cut.j == HDR_LEN || cut.j == CRC_OFF || cut.j == REC_LEN
  }

  /** With power lost between flash operations, every save is atomic but one: that of generation
      0xC95AE817, whose bare header passes the check. */
  lemma OperationAtomicIff(d: Disk, r: Ram, c: Cfg)
    requires Load(d) == r && r.gen < U32_MOD - 1
    ensures (forall cut :: CutOk(cut) && BetweenOperations(cut) ==> OldOrNew(d, r, c, cut))
            <==> !(NextGen(r) == TornHeader.FATAL_GEN && Native(c) != Ones(CFG_LEN))
  {
    TornHeader.OperationCutCollides(NextGen(r), c);
    CutVerdict(d, r, c, 0);
    CutVerdict(d, r, c, HDR_LEN);
    CutVerdict(d, r, c, CRC_OFF);
    CutVerdict(d, r, c, REC_LEN);
    hide Load, Collides, SaveRecord, Native;
    if Collides(NextGen(r), c, HDR_LEN) {
      assert CutOk(Stored(HDR_LEN)) && BetweenOperations(Stored(HDR_LEN));
      assert !OldOrNew(d, r, c, Stored(HDR_LEN));
    }
  }

  /** A completed save survives a reboot unless its generation number has wrapped round. */
  lemma SaveSurvivesIff(d: Disk, r: Ram, c: Cfg)
    requires Load(d) == r
    ensures Load(Saved(d, r, c, COMPLETE)) == Committed(r, c) <==> r.gen != U32_MOD - 1
  {
    hide Load, SlotValid, SlotGen, SlotCfg, Record, Torn;
    LoadedIsBacked(d);
    if r.gen != U32_MOD - 1 {
      AfterComplete(d, r, c);
    } else {
      CompleteIsRecord(r, c);
      RecordReadsBack(NextGen(r), c);
      WrappedLoses(d, r, SaveRecord(r, c));
    }
  }

  lemma WrappedLoses(d: Disk, r: Ram, t: Rec)
    requires Load(d) == r && r.gen == U32_MOD - 1 && SlotGen(t) == 0
    ensures Load(Put(d, Target(r), t)) == r
  {
    hide SlotValid, SlotGen, SlotCfg, Record;
  }

  // ---- a boot that could not read the flash ----

  /** What is in use when config_store_init returns -1: as if both slots were invalid. */
  const UNREAD := Ram(DEFAULTS, 0, Nowhere)

  /** A save after such a boot goes to slot A with generation 1. It survives the next boot if and only if
      slot B does not hold a later one. */
  lemma SaveUnreadIff(d: Disk, c: Cfg)
    ensures Load(Saved(d, UNREAD, c, COMPLETE)) == Committed(UNREAD, c)
            <==> !SlotValid(d.b) || SlotGen(d.b) <= 1
  {
    hide SlotValid, SlotGen, SlotCfg, Record, Torn, Load;
    CompleteIsRecord(UNREAD, c);
    RecordReadsBack(1, c);
    LoadTwo(Record(1, c), d.b);
  }

  lemma LoadTwo(a: Rec, b: Rec)
    requires SlotValid(a)
    ensures Load(Disk(a, b)) == if SlotValid(b) && SlotGen(b) > SlotGen(a) then Ram(SlotCfg(b), SlotGen(b), B)
                                else Ram(SlotCfg(a), SlotGen(a), A)
  {
    hide SlotValid, SlotGen, SlotCfg;
  }

  /** For instance, over generations 5 and 4 the save is acknowledged and lost, and what the next boot loads
      is neither the config saved nor the one in use before. */
  lemma SaveUnreadLost(x: Cfg, y: Cfg, c: Cfg)
    ensures var d := Disk(Record(5, x), Record(4, y));
            Load(d) == Ram(x, 5, A) && Load(Saved(d, UNREAD, c, COMPLETE)) == Ram(y, 4, B)
  {
    hide SlotValid, SlotGen, SlotCfg, Record, Torn, Load;
    CompleteIsRecord(UNREAD, c);
    RecordReadsBack(1, c);
    RecordReadsBack(5, x);
    RecordReadsBack(4, y);
    LoadTwo(Record(5, x), Record(4, y));
    LoadTwo(Record(1, c), Record(4, y));
  }

  // ---- whole runs ----

  /** Done: a save returned 0. Cut: power was lost during a save, and the device booted again. Failed: a
      save returned -1 and the device ran on. Reboot: it booted again. `read` tells whether the boot could
      read both slots. */
  datatype Event = Done(c: Cfg) | Cut(c: Cfg, cut: Cut, read: bool) | Failed(c: Cfg, cut: Cut) | Reboot(read: bool)

  /** `acked` is the config last reported as in use; `tried` are those of failed saves since; `ok` says
      that the last boot could read the flash, so that config_store_init returned 0. */
  datatype World = World(disk: Disk, ram: Ram, acked: Cfg, tried: set<Cfg>, ok: bool)

  /** What this cut leaves is not a blend that passes. */
  predicate NoBlend(g: u32, c: Cfg, cut: Cut) {
    cut.Stored? && cut.j <= CRC_OFF ==> !Collides(g, c, cut.j)
  }

  /** The hypotheses on an event: nothing is saved after a boot that could not read the flash, the
      generation does not wrap, and what an interrupted save has left does not collide. */
  predicate Guarded(w: World, e: Event) {
    match e
    case Reboot(_) => true
    case Done(c) => w.ok && w.ram.gen < U32_MOD - 1
    case Cut(c, cut, _) => w.ok && w.ram.gen < U32_MOD - 1 && CutOk(cut) && NoBlend(NextGen(w.ram), c, cut)
    case Failed(c, cut) => w.ok && w.ram.gen < U32_MOD - 1 && CutOk(cut) && NoBlend(NextGen(w.ram), c, cut)
  }

  function Boot(d: Disk, acked: Cfg, tried: set<Cfg>, read: bool): World {
    if read then World(d, Load(d), Load(d).cfg, {}, true) else World(d, UNREAD, acked, tried, false)
  }

  /** The first boot, from whatever a flash holds. */
  function Booted(d: Disk, read: bool): World {
    Boot(d, Load(d).cfg, {}, read)
  }

  predicate Possible(e: Event) {
    e.Cut? || e.Failed? ==> CutOk(e.cut)
  }

  function Next(w: World, e: Event): World
    requires Possible(e)
  {
    match e
    case Done(c) => World(Saved(w.disk, w.ram, c, COMPLETE), Committed(w.ram, c), c, {}, w.ok)
    case Cut(c, cut, read) => Boot(Saved(w.disk, w.ram, c, cut), w.acked, w.tried + {c}, read)
    case Failed(c, cut) => w.(disk := Saved(w.disk, w.ram, c, cut), tried := w.tried + {c})
    case Reboot(read) => Boot(w.disk, w.acked, w.tried, read)
  }

  /** What the event must bring about. */
  predicate Right(w: World, e: Event)
    requires Possible(e)
  {
    var now := Next(w, e).ram.cfg;
    match e
    case Done(c) => now == c
    case Cut(c, _, read) => if read then now == w.acked || now == c || now in w.tried else now == DEFAULTS
    case Failed(_, _) => now == w.acked
    case Reboot(read) => if read then now == w.acked || now in w.tried else now == DEFAULTS
  }

  predicate RunGuarded(w: World, es: seq<Event>)
    decreases |es|
  {
    es == [] || (Possible(es[0]) && Guarded(w, es[0]) && RunGuarded(Next(w, es[0]), es[1..]))
  }

  predicate RunRight(w: World, es: seq<Event>)
    decreases |es|
  {
    es == [] || (Possible(es[0]) && Right(w, es[0]) && RunRight(Next(w, es[0]), es[1..]))
  }

  /** The slot not in use is invalid, loses to the one in use, or holds a whole config whose save was
      reported as failed. After a boot that read nothing the flash still holds what it held. */
  predicate Inv(w: World) {
    if w.ok then
      && w.acked == w.ram.cfg && Backed(w.disk, w.ram)
      && (Load(w.disk) == w.ram ||
          (Load(w.disk).gen == w.ram.gen + 1 && Load(w.disk).slot == Target(w.ram)
           && Load(w.disk).cfg in w.tried))
    else w.ram == UNREAD && (Load(w.disk).cfg == w.acked || Load(w.disk).cfg in w.tried)
  }

  lemma BootInv(d: Disk, acked: Cfg, tried: set<Cfg>, read: bool)
    requires Load(d).cfg == acked || Load(d).cfg in tried
    ensures Inv(Boot(d, acked, tried, read))
  {
    LoadedIsBacked(d);
    hide Load;
  }

  lemma NoBlendOldOrNew(d: Disk, r: Ram, c: Cfg, cut: Cut)
    requires CutOk(cut) && cut.Stored? && Backed(d, r) && r.gen < U32_MOD - 1 && NoBlend(NextGen(r), c, cut)
    ensures OldOrNew(d, r, c, cut)
  {
    var g := NextGen(r);
    AfterCut(d, r, c, cut);
    TornVerdict(g, c, cut.j);
    RecordReadsBack(g, c);
    hide SlotValid, SlotGen, SlotCfg, Record, Torn, Collides, Load, Backed;
  }

  lemma SavedBacked(d: Disk, r: Ram, c: Cfg, cut: Cut)
    requires CutOk(cut) && Backed(d, r)
    ensures Backed(Saved(d, r, c, cut), r)
  {
    hide Load, Torn, SaveRecord, Ones;
  }

  lemma CommittedBacked(d: Disk, r: Ram, c: Cfg)
    ensures Backed(Saved(d, r, c, COMPLETE), Committed(r, c))
  {
    BlankInvalid();
    CompleteIsRecord(r, c);
    RecordReadsBack(NextGen(r), c);
    hide SlotValid, SlotGen, SlotCfg, Record, Torn, Ones;
  }

  lemma EventRight(w: World, e: Event)
    requires Inv(w) && Possible(e) && Guarded(w, e)
    ensures Right(w, e) && Inv(Next(w, e))
  {
    hide Load, Backed, NoBlend, Saved;
    match e
    case Reboot(read) =>
      BootInv(w.disk, w.acked, w.tried, read);
    case Done(c) =>
      CommittedBacked(w.disk, w.ram, c);
      AfterComplete(w.disk, w.ram, c);
    case Cut(c, cut, read) =>
      SaveSettles(w, c, cut);
      BootInv(Saved(w.disk, w.ram, c, cut), w.acked, w.tried + {c}, read);
    case Failed(c, cut) =>
      SaveSettles(w, c, cut);
      SavedBacked(w.disk, w.ram, c, cut);
  }

  /** What a boot would find after an interrupted save. */
  lemma SaveSettles(w: World, c: Cfg, cut: Cut)
    requires Inv(w) && w.ok && CutOk(cut) && w.ram.gen < U32_MOD - 1 && NoBlend(NextGen(w.ram), c, cut)
    ensures var l := Load(Saved(w.disk, w.ram, c, cut));
            l == w.ram || (l.gen == w.ram.gen + 1 && l.slot == Target(w.ram) && (l.cfg in w.tried || l.cfg == c))
  {
    hide Load, Backed, NoBlend;
    if cut.Stored? {
      NoBlendOldOrNew(w.disk, w.ram, c, cut);
    }
  }

  /** Every run: after any sequence of saves that complete, fail or are cut by power loss at any byte, and
      of boots that can or cannot read the flash, a boot that can loads exactly a config that was saved -
      the last acknowledged one, or one whose save was under way since - never a blend; one that cannot
      uses the defaults and loses nothing. */
  lemma {:induction false} RunSafe(w: World, es: seq<Event>)
    requires Inv(w) && RunGuarded(w, es)
    ensures RunRight(w, es)
    decreases |es|
  {
    if es != [] {
      EventRight(w, es[0]);
      hide Inv, Right, Guarded, Next;
      RunSafe(Next(w, es[0]), es[1..]);
    }
  }

  /** The same from whatever a flash holds when it is first read. */
  lemma BootSafe(d: Disk, read: bool, es: seq<Event>)
    requires RunGuarded(Booted(d, read), es)
    ensures RunRight(Booted(d, read), es)
  {
    BootInv(d, Load(d).cfg, {}, read);
    RunSafe(Booted(d, read), es);
  }

  // ---- runs in which power goes between flash operations ----

  /** Here nothing is asked of the CRC but that generation 0xC95AE817 is not cut after its header. */
  predicate OperationGuarded(w: World, e: Event) {
    && (e.Reboot? || (w.ok && w.ram.gen < U32_MOD - 1))
    && (e.Cut? || e.Failed? ==>
          && CutOk(e.cut) && BetweenOperations(e.cut)
          && !(e.cut == Stored(HDR_LEN) && NextGen(w.ram) == TornHeader.FATAL_GEN
               && Native(e.c) != Ones(CFG_LEN)))
  }

  predicate RunOperationGuarded(w: World, es: seq<Event>)
    decreases |es|
  {
    es == [] || (Possible(es[0]) && OperationGuarded(w, es[0]) && RunOperationGuarded(Next(w, es[0]), es[1..]))
  }

  /** Between operations that is the same as the hypothesis of the runs above. */
  lemma OperationGuardedIff(w: World, e: Event)
    requires e.Cut? || e.Failed? ==> CutOk(e.cut) && BetweenOperations(e.cut)
    ensures OperationGuarded(w, e) <==> Guarded(w, e)
  {
    if e.Cut? || e.Failed? {
      TornHeader.OperationCutCollides(NextGen(w.ram), e.c);
      hide Native;
    }
    hide Collides;
  }

  /** Every run with power lost, or saves failing, between flash operations, with no other hypothesis. */
  lemma {:induction false} OperationRunSafe(w: World, es: seq<Event>)
    requires Inv(w) && RunOperationGuarded(w, es)
    ensures RunRight(w, es)
    decreases |es|
  {
    if es != [] {
      OperationGuardedIff(w, es[0]);
      EventRight(w, es[0]);
      hide Inv, Right, Guarded, OperationGuarded, Next, Possible;
      OperationRunSafe(Next(w, es[0]), es[1..]);
    }
  }

  /** The same from whatever a flash holds when it is first read. */
  lemma OperationBootSafe(d: Disk, read: bool, es: seq<Event>)
    requires RunOperationGuarded(Booted(d, read), es)
    ensures RunRight(Booted(d, read), es)
  {
    BootInv(d, Load(d).cfg, {}, read);
    OperationRunSafe(Booted(d, read), es);
  }
}
