/** log_push and the logger (src/sys/log.c) on the shared ring itself. Between any two accesses
    that log_push makes to shared memory the logger may take any number of its own steps. */
module LogTask {
  import opened Bytes
  import opened LogRing

  class Log {
    const log_ring: array<byte>
    var ring_head: u32
    var ring_tail: u32
    var log_dropped: u32
    /** Where the logger is, with its local variables. */
    var logger: Logger
    ghost var prod: Producer
    ghost var out: seq<Item>
    ghost var accepted: seq<seq<byte>>
    ghost var taken: nat

    ghost function View(): (s: State)
      reads this, log_ring
    {
      State(log_ring[..], ring_head, ring_tail, log_dropped, prod, logger, out, accepted, taken)
    }

    ghost predicate Valid()
      reads this, log_ring
    {
      log_ring.Length == SIZE && Inv(View())
    }

    constructor ()
      ensures Valid() && Initial(View())
    {
      log_ring := new byte[SIZE];
      ring_head, ring_tail, log_dropped, logger := 0, 0, 0, Top;
      prod, out, accepted, taken := Free, [], [], 0;
      new;
      InitialHolds(View());
    }

    /** The logger's next action on shared memory or the UART. */
    method LoggerStep()
      requires Valid()
      modifies this`ring_tail, this`log_dropped, this`logger, this`out, this`taken
      ensures Valid() && View() == Logged(old(View()))
    {
      hide Inv, Place, Trunc, Sub32;
      CanAlwaysLog(View());
      LoggedKeeps(View());
      match logger {
        case Top =>
          var tail := ring_tail;
          var used := Sub32(ring_head, tail);
          if used == 0 {
            logger := CaughtUp;
          } else {
            var chunk := SIZE - Place(tail);
            if chunk > used {
              chunk := used;
            }
            logger := Emitting(tail, chunk, 0);
          }
        case Emitting(tail, chunk, i) =>
          if i < chunk {
            out := out + [Byte(log_ring[Place(tail) + i])];
            logger := Emitting(tail, chunk, i + 1);
          } else {
            ring_tail := Trunc(tail + chunk);
            taken := taken + chunk;
            logger := Top;
          }
        case CaughtUp =>
          var d := log_dropped;
          logger := if d != 0 then Clearing(d) else Top;
        case Clearing(d) =>
          log_dropped := 0;
          logger := Telling(d);
        case Telling(d) =>
          out := out + [Notice(d)];
          logger := Top;
      }
    }

    /** The logger takes any number of steps. */
    method LoggerRuns()
      requires Valid()
      modifies this`ring_tail, this`log_dropped, this`logger, this`out, this`taken
      ensures Valid() && taken >= old(taken)
    {
      var n: nat := *;
      while n > 0
        invariant Valid() && taken >= old(taken)
      {
        CanAlwaysLog(View());
        LoggerStep();
        n := n - 1;
      }
    }

    /** One access of the lock holder to shared memory has been made. */
    lemma Advanced(before: State)
      requires Inv(before) && !before.prod.Free? && CanProduce(before) && View() == Produced(before)
      ensures Valid()
    {
      ProducedKeeps(before);
    }

    /** log_push. The line goes in whole, or is dropped because it did not fit when the lock was
        taken. */
    method Push(buf: seq<byte>) returns (queued: bool)
      requires Valid() && prod == Free && |buf| < U16_MOD
      modifies this, log_ring
      ensures Valid() && prod == Free
      ensures accepted == if queued then old(accepted) + [buf] else old(accepted)
      ensures buf == [] ==> !queued
      ensures !queued && buf != [] ==> |Flat(old(accepted))| + |buf| > old(taken) + SIZE
    {
      hide Inv, View, Place;
      if |buf| == 0 {
        return false;
      }
      var head := TakeLock(buf);
      LoggerRuns();
      var fits := Measure(buf, head);
      LoggerRuns();
      if !fits {
        CountDrop(buf);
        return false;
      }
      var first := SIZE - Place(head);
      if first > |buf| {
        first := |buf|;
      }
      CopyIn(buf, head, 0, first);
      CopyIn(buf, head, first, |buf|);
      Publish(buf, head);
      queued := true;
    }

    /** The lock is taken and head loaded. */
    method TakeLock(buf: seq<byte>) returns (head: u32)
      requires Valid() && prod == Free && 0 < |buf| < U16_MOD
      modifies this`ring_tail, this`log_dropped, this`logger, this`out, this`taken, this`prod
      ensures Valid() && prod == Headed(buf, head) && taken >= old(taken)
    {
      hide Inv;
      Entered(View(), buf);
      prod := Locked(buf);
      LoggerRuns();
      ghost var s := View();
      head := ring_head;
      prod := Headed(buf, head);
      Advanced(s);
    }

    /** Tail is loaded and the space compared. */
    method Measure(buf: seq<byte>, head: u32) returns (fits: bool)
      requires Valid() && prod == Headed(buf, head)
      modifies this`prod
      ensures Valid() && prod == if fits then Copying(buf, head, 0) else Full(buf)
      ensures fits <==> |Flat(accepted)| + |buf| <= taken + SIZE
    {
      hide Inv, Place, Trunc, Sub32, Flat;
      ghost var s := View();
      SpaceExact(s);
      var space := (SIZE - Sub32(head, ring_tail)) % U32_MOD;
      fits := |buf| <= space;
      prod := if fits then Copying(buf, head, 0) else Full(buf);
      Advanced(s);
    }

    /** The store to head. */
    method Publish(buf: seq<byte>, head: u32)
      requires Valid() && prod == Copying(buf, head, |buf|)
      modifies this`ring_head, this`accepted, this`prod
      ensures Valid() && prod == Free && accepted == old(accepted) + [buf]
    {
      hide Inv, Trunc;
      ghost var s := View();
      ring_head := Trunc(head + |buf|);
      accepted := accepted + [buf];
      prod := Free;
      Advanced(s);
    }

    /** log_dropped++, a load and a store that the logger may come between. */
    method CountDrop(ghost buf: seq<byte>)
      requires Valid() && prod == Full(buf)
      modifies this`ring_tail, this`log_dropped, this`logger, this`out, this`taken, this`prod
      ensures Valid() && prod == Free
    {
      hide Inv, Trunc;
      var d: nat := log_dropped;
      ghost var s := View();
      prod := Counting(buf, d);
      Advanced(s);
      LoggerRuns();
      s := View();
      log_dropped := Trunc(d + 1);
      prod := Free;
      Advanced(s);
    }

    /** memcpy of buf[from..to], to the ring from off on or, past its end, from its start on. */
    method CopyIn(buf: seq<byte>, head: u32, from: nat, to: nat)
      requires Valid() && prod == Copying(buf, head, from) && from <= to <= |buf|
      modifies this`ring_tail, this`log_dropped, this`logger, this`out, this`taken, this`prod, log_ring
      ensures Valid() && prod == Copying(buf, head, to)
      ensures taken >= old(taken)
    {
      hide Inv;
      var i := from;
      while i < to
        invariant from <= i <= to && Valid() && prod == Copying(buf, head, i)
        invariant taken >= old(taken)
      {
        ghost var s := View();
        var at := if i < SIZE - Place(head) then Place(head) + i else i - (SIZE - Place(head));
        CopyFits(s);
        PlaceOf(head, i);
        log_ring[at] := buf[i];
        i := i + 1;
        prod := Copying(buf, head, i);
        Advanced(s);
        LoggerRuns();
      }
    }
  }

  lemma CanAlwaysLog(s: State)
    requires Inv(s)
    ensures CanLog(s)
  {
  }

  lemma Entered(s: State, msg: seq<byte>)
    requires Inv(s) && s.prod == Free && 0 < |msg| < U16_MOD
    ensures Inv(s.(prod := Locked(msg)))
  {
    StepKeeps(s, Take(msg));
  }

  lemma CopyFits(s: State)
    requires Inv(s) && s.prod.Copying?
    ensures |s.prod.msg| <= SIZE
  {
  }

  lemma PlaceOf(h: nat, i: nat)
    requires i <= SIZE
    ensures Place(h + i) == if i < SIZE - Place(h) then Place(h) + i else i - (SIZE - Place(h))
  {
    if i < SIZE - Place(h) {
      assert h + i == SIZE * (h / SIZE) + (Place(h) + i);
    } else {
      assert h + i == SIZE * (h / SIZE + 1) + (i - (SIZE - Place(h)));
    }
  }
}
