/** The asynchronous log (src/sys/log.c) as interleaved atomic steps: any number of producers,
    serialised by a lock, against one logger. A producer loads head, loads tail, copies byte by
    byte and stores head; the logger looks at head, emits byte by byte, stores tail, and reports the
    drops it has counted. Either side may run between any two steps of the other. */
module LogRing {
  import opened Bytes

  const SIZE := 4096

  /** What the UART carries: bytes of pushed lines, or a notice that lines were dropped. */
  datatype Item = Byte(b: byte) | Notice(lines: nat)

  datatype Producer =
    | Free
    | Locked(msg: seq<byte>)
    | Headed(msg: seq<byte>, h: u32)
    | Copying(msg: seq<byte>, h: u32, k: nat)
    | Full(msg: seq<byte>)
    | Counting(msg: seq<byte>, d: u32)

  datatype Logger =
    | Top
    | Emitting(t: u32, chunk: nat, i: nat)
    | CaughtUp
    | Clearing(d: u32)
    | Telling(d: u32)

  /** `accepted` are the lines that went in, in lock order; `taken` counts the bytes released. */
  datatype State = State(ring: seq<byte>, head: u32, tail: u32, dropped: u32, prod: Producer,
                         logger: Logger, out: seq<Item>, accepted: seq<seq<byte>>, taken: nat)

  datatype Step = Take(msg: seq<byte>) | Produce | Log

  function Flat(lines: seq<seq<byte>>): seq<byte> {
    if lines == [] then [] else Flat(lines[..|lines| - 1]) + lines[|lines| - 1]
  }

  function Sub32(a: u32, b: u32): u32 {
    (a - b) % U32_MOD
  }

  /** A stream position as an index of the ring, and as a 32-bit counter. */
  function Place(n: nat): (i: nat)
    ensures i < SIZE
  {
    n % SIZE
  }

  function Trunc(n: nat): u32 {
    n % U32_MOD
  }

  predicate CanProduce(s: State) {
    && !s.prod.Free? && |s.ring| == SIZE
    && (s.prod.Copying? ==> s.prod.k <= |s.prod.msg|)
  }

  /** The lock holder's next step. */
  function Produced(s: State): State
    requires CanProduce(s)
  {
    match s.prod
    case Locked(msg) => s.(prod := Headed(msg, s.head))
    case Headed(msg, h) =>
      if |msg| > (SIZE - Sub32(h, s.tail)) % U32_MOD then s.(prod := Full(msg))
      else s.(prod := Copying(msg, h, 0))
    case Copying(msg, h, k) =>
      if k < |msg| then
        s.(ring := s.ring[Place(h + k) := msg[k]], prod := Copying(msg, h, k + 1))
      else
        s.(head := Trunc(h + |msg|), accepted := s.accepted + [msg], prod := Free)
    case Full(msg) => s.(prod := Counting(msg, s.dropped))
    case Counting(msg, d) => s.(dropped := Trunc(d + 1), prod := Free)
  }

  predicate CanLog(s: State) {
    && |s.ring| == SIZE
    && (s.logger.Emitting? ==> Place(s.logger.t) + s.logger.chunk <= SIZE && s.logger.i <= s.logger.chunk)
  }

  function Chunk(t: u32, used: u32): nat {
    if SIZE - Place(t) > used then used else SIZE - Place(t)
  }

  /** The logger's next step. */
  function Logged(s: State): State
    requires CanLog(s)
  {
    match s.logger
    case Top =>
      var used := Sub32(s.head, s.tail);
      s.(logger := if used == 0 then CaughtUp else Emitting(s.tail, Chunk(s.tail, used), 0))
    case Emitting(t, chunk, i) =>
      if i < chunk then
        s.(out := s.out + [Byte(s.ring[Place(t) + i])], logger := Emitting(t, chunk, i + 1))
      else
        s.(tail := Trunc(t + chunk), taken := s.taken + chunk, logger := Top)
    case CaughtUp => s.(logger := if s.dropped == 0 then Top else Clearing(s.dropped))
    case Clearing(d) => s.(dropped := 0, logger := Telling(d))
    case Telling(d) => s.(out := s.out + [Notice(d)], logger := Top)
  }

  /** An empty push never reaches the lock; a length is a uint16_t. */
  predicate Enabled(s: State, a: Step) {
    match a
    case Take(msg) => s.prod.Free? && 0 < |msg| < U16_MOD
    case Produce => CanProduce(s)
    case Log => CanLog(s)
  }

  function Next(s: State, a: Step): State
    requires Enabled(s, a)
  {
    match a
    case Take(msg) => s.(prod := Locked(msg))
    case Produce => Produced(s)
    case Log => Logged(s)
  }

  predicate Initial(s: State) {
    && |s.ring| == SIZE && s.head == s.tail == 0 && s.prod == Free && s.logger == Top
    && s.out == [] && s.accepted == [] && s.taken == 0
  }

  predicate Run(s: State, steps: seq<Step>)
    decreases |steps|
  {
    steps == [] || (Enabled(s, steps[0]) && Run(Next(s, steps[0]), steps[1..]))
  }

  function Outcome(s: State, steps: seq<Step>): State
    requires Run(s, steps)
    decreases |steps|
  {
    if steps == [] then s else Outcome(Next(s, steps[0]), steps[1..])
  }

  // ---- the invariant, in unbounded stream positions ----

  function Payload(out: seq<Item>): seq<byte> {
    if out == [] then []
    else
      var rest := Payload(out[..|out| - 1]);
      if out[|out| - 1].Byte? then rest + [out[|out| - 1].b] else rest
  }

  /** Position n of the stream is where one line ends and the next begins. */
  predicate Boundary(lines: seq<seq<byte>>, n: nat) {
    exists k :: 0 <= k <= |lines| && |Flat(lines[..k])| == n
  }

  predicate NoticesBetweenLines(out: seq<Item>, lines: seq<seq<byte>>) {
    forall i :: 0 <= i < |out| && out[i].Notice? ==> Boundary(lines, |Payload(out[..i])|)
  }

  /** Positions from `from` up to `to` of the stream are in the ring. */
  predicate Holds(ring: seq<byte>, stream: seq<byte>, from: nat, to: nat)
    requires |ring| == SIZE && to <= |stream|
  {
    forall n :: from <= n < to ==> ring[Place(n)] == stream[n]
  }

  function Emitted(s: State): nat {
    s.taken + if s.logger.Emitting? then s.logger.i else 0
  }

  predicate ProducerOk(s: State)
    requires |s.ring| == SIZE
  {
    var stream := Flat(s.accepted);
    match s.prod
    case Headed(msg, h) => h == s.head && 0 < |msg| < U16_MOD
    case Copying(msg, h, k) =>
      && h == s.head && 0 < |msg| && k <= |msg|
      && |stream| + |msg| - s.taken <= SIZE
      && Holds(s.ring, stream + msg, |stream|, |stream| + k)
    case Locked(msg) => 0 < |msg| < U16_MOD
    case _ => true
  }

  predicate LoggerOk(s: State) {
    match s.logger
    case Emitting(t, chunk, i) =>
      && t == s.tail && i <= chunk && Place(t) + chunk <= SIZE
      && s.taken + chunk <= |Flat(s.accepted)|
    case Top => true
    case _ => Boundary(s.accepted, s.taken)
  }

  /** The ring holds what is accepted and not yet released, and never more than fits. */
  predicate RingOk(s: State) {
    Consistent(s.ring, Flat(s.accepted), s.head, s.tail, s.taken)
  }

  predicate Consistent(ring: seq<byte>, stream: seq<byte>, head: u32, tail: u32, taken: nat) {
    && |ring| == SIZE
    && taken <= |stream| <= taken + SIZE
    && head == Trunc(|stream|) && tail == Trunc(taken)
    && Holds(ring, stream, taken, |stream|)
  }

  predicate OutOk(s: State) {
    && Emitted(s) <= |Flat(s.accepted)| && Payload(s.out) == Flat(s.accepted)[..Emitted(s)]
    && NoticesBetweenLines(s.out, s.accepted)
  }

  predicate Inv(s: State) {
    RingOk(s) && ProducerOk(s) && LoggerOk(s) && OutOk(s)
  }

  // ---- arithmetic of the free-running indices ----

  /** 2^32 is a multiple of the ring size, so truncation does not move a position in the ring. */
  lemma SamePlace(n: nat)
    ensures Place(Trunc(n)) == Place(n)
  {
    var q := n / U32_MOD;
    assert n == SIZE * (0x10_0000 * q) + n % U32_MOD;
  }

  lemma SamePlaceAfter(n: nat, k: nat)
    ensures Place(Trunc(n) + k) == Place(n + k)
  {
    var q := n / U32_MOD;
    assert n + k == SIZE * (0x10_0000 * q) + (n % U32_MOD + k);
  }

  lemma OtherPlace(a: nat, b: nat)
    requires a < b < a + SIZE
    ensures Place(a) != Place(b)
  {
    assert a == SIZE * (a / SIZE) + a % SIZE && b == SIZE * (b / SIZE) + b % SIZE;
  }

  /** Distances survive the truncation of both ends. */
  lemma Distance(a: nat, b: nat)
    requires b <= a < b + U32_MOD
    ensures Sub32(Trunc(a), Trunc(b)) == a - b
  {
    var p, q := a / U32_MOD, b / U32_MOD;
    assert a == U32_MOD * p + a % U32_MOD && b == U32_MOD * q + b % U32_MOD;
    assert p == q || p == q + 1;
  }

  // ---- every step keeps the invariant ----

  lemma FlatSnoc(lines: seq<seq<byte>>, msg: seq<byte>)
    ensures Flat(lines + [msg]) == Flat(lines) + msg
  {
    assert (lines + [msg])[..|lines|] == lines;
  }

  lemma PayloadSnoc(out: seq<Item>, x: Item)
    ensures Payload(out + [x]) == Payload(out) + if x.Byte? then [x.b] else []
  {
    assert (out + [x])[..|out|] == out;
  }

  /** Where a line ended, it still ends when more lines are accepted. */
  lemma NoticesStay(out: seq<Item>, lines: seq<seq<byte>>, msg: seq<byte>)
    requires NoticesBetweenLines(out, lines)
    ensures NoticesBetweenLines(out, lines + [msg])
  {
    forall i | 0 <= i < |out| && out[i].Notice?
      ensures Boundary(lines + [msg], |Payload(out[..i])|)
    {
      BoundaryStays(lines, msg, |Payload(out[..i])|);
    }
  }

  lemma BoundaryStays(lines: seq<seq<byte>>, msg: seq<byte>, n: nat)
    requires Boundary(lines, n)
    ensures Boundary(lines + [msg], n)
  {
    var k :| 0 <= k <= |lines| && |Flat(lines[..k])| == n;
    assert (lines + [msg])[..k] == lines[..k];
  }

  lemma NoticesAppend(out: seq<Item>, lines: seq<seq<byte>>, x: Item)
    requires NoticesBetweenLines(out, lines)
    requires x.Notice? ==> Boundary(lines, |Payload(out)|)
    ensures NoticesBetweenLines(out + [x], lines)
  {
    var all := out + [x];
    assert all[..|out|] == out;
    forall i | 0 <= i < |all| && all[i].Notice?
      ensures Boundary(lines, |Payload(all[..i])|)
    {
      if i < |out| {
        assert all[..i] == out[..i];
      }
    }
  }

  /** One copied byte: it lands on no position that is still to be read. */
  lemma CopyKeeps(s: State)
    requires Inv(s) && s.prod.Copying? && s.prod.k < |s.prod.msg|
    ensures Inv(Produced(s))
  {
    hide Place, Trunc, Flat, Payload, Boundary, NoticesBetweenLines;
    var stream, msg, h, k := Flat(s.accepted), s.prod.msg, s.prod.h, s.prod.k;
    var t := Produced(s);
    var n := |stream| + k;
    SamePlaceAfter(|stream|, k);
    forall m | s.taken <= m < n
      ensures t.ring[Place(m)] == s.ring[Place(m)]
    {
      OtherPlace(m, n);
    }
    assert (stream + msg)[n] == msg[k];
  }

  /** The head moves: the line is part of the stream. */
  lemma PublishKeeps(s: State)
    requires Inv(s) && s.prod.Copying? && s.prod.k == |s.prod.msg|
    ensures Inv(Produced(s))
  {
    FlatSnoc(s.accepted, s.prod.msg);
    PublishRing(s);
    PublishOut(s);
    if !s.logger.Top? && !s.logger.Emitting? {
      BoundaryStays(s.accepted, s.prod.msg, s.taken);
    }
    hide Place, Trunc, Flat, Boundary, RingOk, OutOk;
    assert |Flat(Produced(s).accepted)| == |Flat(s.accepted)| + |s.prod.msg|;
  }

  lemma PublishRing(s: State)
    requires RingOk(s) && ProducerOk(s) && s.prod.Copying? && s.prod.k == |s.prod.msg|
    ensures RingOk(Produced(s))
  {
    hide Place, Trunc, Flat, Holds;
    FlatSnoc(s.accepted, s.prod.msg);
    Extended(s.ring, Flat(s.accepted), s.prod.msg, s.head, s.tail, s.taken);
  }

  lemma Extended(ring: seq<byte>, stream: seq<byte>, msg: seq<byte>, head: u32, tail: u32, taken: nat)
    requires Consistent(ring, stream, head, tail, taken) && |stream| + |msg| - taken <= SIZE
    requires Holds(ring, stream + msg, |stream|, |stream| + |msg|)
    ensures Consistent(ring, stream + msg, Trunc(head + |msg|), tail, taken)
  {
    hide Place, Trunc, Holds;
    HoldsMore(ring, stream, msg, taken);
    WrapSum(|stream|, |msg|);
  }

  lemma PublishOut(s: State)
    requires OutOk(s) && CanProduce(s) && s.prod.Copying? && s.prod.k == |s.prod.msg|
    ensures OutOk(Produced(s))
  {
    var stream, msg := Flat(s.accepted), s.prod.msg;
    FlatSnoc(s.accepted, msg);
    NoticesStay(s.out, s.accepted, msg);
    hide Place, Trunc, Flat, Payload, NoticesBetweenLines;
    assert (stream + msg)[..Emitted(s)] == stream[..Emitted(s)];
  }

  lemma HoldsMore(ring: seq<byte>, stream: seq<byte>, msg: seq<byte>, from: nat)
    requires |ring| == SIZE && Holds(ring, stream, from, |stream|)
    requires Holds(ring, stream + msg, |stream|, |stream + msg|)
    ensures Holds(ring, stream + msg, from, |stream + msg|)
  {
  }

  lemma WrapSum(n: nat, k: nat)
    ensures Trunc(Trunc(n) + k) == Trunc(n + k)
  {
  }

  lemma ProducedKeeps(s: State)
    requires Inv(s) && CanProduce(s)
    ensures Inv(Produced(s))
  {
    if s.prod.Copying? {
      if s.prod.k < |s.prod.msg| {
        CopyKeeps(s);
      } else {
        PublishKeeps(s);
      }
    } else {
      hide Place, Trunc, Flat, Payload, Boundary, NoticesBetweenLines;
      Distance(|Flat(s.accepted)|, s.taken);
    }
  }

  lemma EmitKeeps(s: State)
    requires Inv(s) && s.logger.Emitting? && s.logger.i < s.logger.chunk
    ensures Inv(Logged(s))
  {
    hide Place, Trunc;
    var t, i, stream := s.logger.t, s.logger.i, Flat(s.accepted);
    var x := Byte(s.ring[Place(t) + i]);
    var n := s.taken + i;
    SamePlace(s.taken);
    Within(s.taken, i, s.logger.chunk);
    assert s.ring[Place(n)] == stream[n];
    PayloadSnoc(s.out, x);
    NoticesAppend(s.out, s.accepted, x);
    hide Place, Trunc, Flat, Payload, Boundary, NoticesBetweenLines, Holds;
    assert stream[..n + 1] == stream[..n] + [stream[n]];
  }

  lemma Within(a: nat, i: nat, chunk: nat)
    requires i < chunk && Place(a) + chunk <= SIZE
    ensures Place(a + i) == Place(a) + i
  {
    assert a + i == SIZE * (a / SIZE) + (Place(a) + i);
  }

  lemma LoggedKeeps(s: State)
    requires Inv(s) && CanLog(s)
    ensures Inv(Logged(s))
  {
    match s.logger
    case Emitting(t, chunk, i) =>
      if i < chunk {
        EmitKeeps(s);
      } else {
        WrapSum(s.taken, chunk);
        hide Place, Trunc, Flat, Payload, Boundary, NoticesBetweenLines;
      }
    case Top =>
      Distance(|Flat(s.accepted)|, s.taken);
      SamePlace(s.taken);
      assert s.accepted[..|s.accepted|] == s.accepted;
      assert s.taken == |Flat(s.accepted)| ==> Boundary(s.accepted, s.taken);
      hide Place, Trunc, Flat, Payload, Boundary, NoticesBetweenLines, Holds;
    case Telling(d) =>
      PayloadSnoc(s.out, Notice(d));
      NoticesAppend(s.out, s.accepted, Notice(d));
      hide Place, Trunc, Flat, Payload, Boundary, NoticesBetweenLines, Holds;
    case CaughtUp =>
      hide Place, Trunc, Flat, Payload, Boundary, NoticesBetweenLines, Holds;
    case Clearing(d) =>
      hide Place, Trunc, Flat, Payload, Boundary, NoticesBetweenLines, Holds;
  }

  lemma StepKeeps(s: State, a: Step)
    requires Inv(s) && Enabled(s, a)
    ensures Inv(Next(s, a))
  {
    match a
    case Take(msg) =>
      hide Place, Trunc, Flat, Payload, Boundary, NoticesBetweenLines, Holds;
    case Produce => ProducedKeeps(s);
    case Log => LoggedKeeps(s);
  }

  lemma {:induction false} RunKeeps(s: State, steps: seq<Step>)
    requires Inv(s) && Run(s, steps)
    ensures Inv(Outcome(s, steps))
    decreases |steps|
  {
    if steps != [] {
      StepKeeps(s, steps[0]);
      hide Inv, Enabled, Next;
      RunKeeps(Next(s, steps[0]), steps[1..]);
    }
  }

  /** What is in the ring and has not gone out yet. */
  function Unsent(s: State): (u: seq<byte>)
    requires Inv(s)
  {
    seq(|Flat(s.accepted)| - Emitted(s), j requires 0 <= j => s.ring[Place(Emitted(s) + j)])
  }

  /** In every interleaving, and however often the indices wrap: what has gone out, followed by what
      is in the ring, is the accepted lines in lock order; drop notices stand between whole lines. */
  lemma Safety(s: State, steps: seq<Step>)
    requires Initial(s) && Run(s, steps)
    ensures var t := Outcome(s, steps);
            && Inv(t) && Payload(t.out) + Unsent(t) == Flat(t.accepted)
            && NoticesBetweenLines(t.out, t.accepted)
  {
    InitialHolds(s);
    RunKeeps(s, steps);
    SplitStream(Outcome(s, steps));
  }

  lemma InitialHolds(s: State)
    requires Initial(s)
    ensures Inv(s)
  {
  }

  lemma SplitStream(t: State)
    requires Inv(t)
    ensures Payload(t.out) + Unsent(t) == Flat(t.accepted)
  {
    hide Place, Trunc, Flat, Payload, NoticesBetweenLines, Boundary;
    var stream, e, u := Flat(t.accepted), Emitted(t), Unsent(t);
    assert forall j :: 0 <= j < |u| ==> u[j] == stream[e + j];
    assert stream == stream[..e] + stream[e..];
  }

  /** No producer step touches a byte that is still to go out. */
  lemma UnreadKept(s: State, n: nat)
    requires Inv(s) && CanProduce(s) && Emitted(s) <= n < |Flat(s.accepted)|
    ensures Produced(s).ring[Place(n)] == s.ring[Place(n)]
  {
    hide Place, Trunc, Flat, Payload, Boundary, NoticesBetweenLines, Holds;
    if s.prod.Copying? && s.prod.k < |s.prod.msg| {
      SamePlaceAfter(|Flat(s.accepted)|, s.prod.k);
      OtherPlace(n, |Flat(s.accepted)| + s.prod.k);
    }
  }

  /** The space test, made in 32-bit arithmetic on wrapping indices, is the true one. */
  lemma SpaceExact(s: State)
    requires Inv(s) && s.prod.Headed?
    ensures Produced(s).prod.Copying? <==> |Flat(s.accepted)| + |s.prod.msg| <= s.taken + SIZE
  {
    Distance(|Flat(s.accepted)|, s.taken);
    hide Trunc, Flat, Payload, Boundary, NoticesBetweenLines, Holds;
  }

  lemma {:induction false} RunGrows(s: State, steps: seq<Step>)
    requires Inv(s) && Run(s, steps)
    ensures var t := Outcome(s, steps);
            Inv(t) && Flat(s.accepted) <= Flat(t.accepted) && s.taken <= t.taken
    decreases |steps|
  {
    if steps != [] {
      StepKeeps(s, steps[0]);
      StepGrows(s, steps[0]);
      hide Inv, Enabled, Next, Flat;
      RunGrows(Next(s, steps[0]), steps[1..]);
    }
  }

  lemma StepGrows(s: State, a: Step)
    requires Inv(s) && Enabled(s, a)
    ensures Flat(s.accepted) <= Flat(Next(s, a).accepted) && s.taken <= Next(s, a).taken
  {
    hide Inv, Flat, Place, Trunc, Sub32, Chunk;
    match a
    case Take(_) =>
    case Log =>
    case Produce =>
      if s.prod.Copying? {
        FlatSnoc(s.accepted, s.prod.msg);
      }
  }

  /** log_flush: it loads head, then - any number of steps later - tail. If they are equal, all that
      had been accepted when it loaded head has gone out, unless 2^32 - 4096 more bytes came in
      between the two loads. */
  lemma FlushSees(s: State, steps: seq<Step>)
    requires Inv(s) && Run(s, steps)
    requires s.head == Outcome(s, steps).tail
    requires |Flat(Outcome(s, steps).accepted)| < |Flat(s.accepted)| + U32_MOD - SIZE
    ensures Flat(s.accepted) <= Payload(Outcome(s, steps).out)
  {
    var t := Outcome(s, steps);
    RunGrows(s, steps);
    hide Run, Outcome, Flat, Payload, Boundary, NoticesBetweenLines, Holds, ProducerOk, Place;
    SameCount(|Flat(s.accepted)|, t.taken);
    assert Payload(t.out)[..t.taken] == Flat(t.accepted)[..t.taken] == Flat(s.accepted);
  }

  lemma SameCount(a: nat, b: nat)
    requires Trunc(a) == Trunc(b) && a < b + U32_MOD && b < a + U32_MOD
    ensures a == b
  {
  }
}
