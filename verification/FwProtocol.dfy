/** The UDP firmware channel as values: the datagrams, the bounded command queue, the pool of two
    reply buffers, and what one command does to a running transfer. FwUdp.Task is the code that
    behaves this way; GoBackN runs it against the host. */
module FwProtocol {
  import opened Bytes
  import opened Common

  const Q_DEPTH := 8
  const V2_CHUNK := 1400
  const V2_MAX := 4 + V2_CHUNK
  const START: byte := 0x01
  const END: byte := 0x03
  const DATA_V2: byte := 0x06

  datatype Msg = Msg(cmd: byte, data: seq<byte>)

  // ---- fw_udp_cmd ----

  /** The command a datagram carries, if the firmware channel takes it. */
  function Parse(rx: seq<byte>): Option<Msg> {
    if rx == [] then None
    else if rx[0] == START then
      if |rx| < 5 then None else Some(Msg(START, rx[1..1 + Min(|rx| - 1, V2_MAX)]))
    else if rx[0] == DATA_V2 then
      if |rx| < 6 || |rx| - 1 > V2_MAX then None else Some(Msg(DATA_V2, rx[1..]))
    else if rx[0] == END then
      if |rx| < 4 then None else Some(Msg(END, rx[1..]))
    else None
  }

  const RX_BYTES := 1408

  /** What udp_cfg_recv (src/net/udp_task.c:81-83) hands over of a datagram. */
  function PassedOn(p: seq<byte>): seq<byte> {
    p[..Min(|p|, RX_BYTES)]
  }

  /** What fw_udp_cmd copies into the message buffer of V2_MAX bytes: a datagram fits unless it is an END
      longer than 1405 bytes, whose length is not checked. What then runs over is as much of the datagram
      as was handed over: at most three bytes. */
  lemma CopyFitsIff(p: seq<byte>)
    requires Parse(PassedOn(p)).Some?
    ensures var copied := Parse(PassedOn(p)).value.data;
            && (|copied| <= V2_MAX <==> p[0] != END || |p| <= 1405)
            && (|copied| > V2_MAX ==> copied == p[1..Min(|p|, RX_BYTES)] && |copied| <= V2_MAX + 3)
  {
    assert PassedOn(p)[0] == p[0];
    assert PassedOn(p)[1..] == p[1..Min(|p|, RX_BYTES)];
  }

  /** An END datagram of 1408 bytes runs three bytes over. */
  lemma LongestEnd(p: seq<byte>)
    requires |p| == RX_BYTES && p[0] == END
    ensures Parse(PassedOn(p)) == Some(Msg(END, p[1..])) && |p[1..]| == V2_MAX + 3
  {
    assert PassedOn(p) == p;
  }

  // ---- a transfer in progress ----

  datatype Transfer = Transfer(total: nat, failed: bool, stored: seq<byte>)

  /** A START is refused while a transfer runs; data counts only at the expected offset. */
  function Store(t: Transfer, m: Msg): Transfer {
    if m.cmd != DATA_V2 || |m.data| < 5 || GetLe32(m.data) != |t.stored| || t.failed then t
    else if |t.stored| + |m.data| - 4 > t.total then t.(failed := true)
    else t.(stored := t.stored + m.data[4..])
  }

  function StartReply(status: byte): seq<byte> {
    [START, status] + PutLe(2, V2_CHUNK)
  }

  function V2Reply(received: nat): seq<byte> {
    [DATA_V2] + PutLe(4, received)
  }

  function ReplyTo(t: Transfer, m: Msg): seq<byte> {
    if m.cmd == START then StartReply(0) else V2Reply(|Store(t, m).stored|)
  }

  // ---- the reply pool ----

  /** A reply buffer. A send callback still pending when the buffer is filled again may run during
      the copy, so it can see a first part of `cur` over the rest of `prev`. */
  datatype Slot = Slot(prev: seq<byte>, cur: seq<byte>, pending: nat)

  function Filled(s: Slot, rep: seq<byte>, posted: bool): Slot {
    Slot(if s.pending == 0 then rep else s.cur, rep, if posted then s.pending + 1 else s.pending)
  }

  /** What goes out when the callback runs with k bytes copied, or with the copy complete. */
  function Torn(prev: seq<byte>, cur: seq<byte>, k: nat): seq<byte> {
    if k > |cur| then cur else (cur[..k] + prev[Min(k, |prev|)..])[..|prev|]
  }

  // ---- the device ----

  datatype Device = Device(queue: seq<Msg>, slots: seq<Slot>, idx: nat, transfer: Transfer)

  /** A datagram arrives: queued, or dropped when the queue is full. */
  function Accept(d: Device, rx: seq<byte>): Device {
    var m := Parse(rx);
    if m.None? || |d.queue| >= Q_DEPTH then d else d.(queue := d.queue + [m.value])
  }

  predicate Busy(d: Device) {
    |d.slots| == 2 && d.queue != [] && d.queue[0].cmd != END
  }

  /** The worker takes the oldest command. `posted` is false when tcpip_callback fails. */
  function Work(d: Device, posted: bool): Device
    requires Busy(d)
  {
    var m, i := d.queue[0], d.idx % 2;
    Device(d.queue[1..], d.slots[i := Filled(d.slots[i], ReplyTo(d.transfer, m), posted)],
           (d.idx + 1) % 256, Store(d.transfer, m))
  }

  predicate CanAnswer(d: Device, i: nat) {
    |d.slots| == 2 && i < 2 && d.slots[i].pending > 0
  }

  /** A send callback has run. */
  function Answered(d: Device, i: nat): Device
    requires CanAnswer(d, i)
  {
    d.(slots := d.slots[i := d.slots[i].(pending := d.slots[i].pending - 1)])
  }

  // ---- the host's datagrams ----

  function FrameEnd(img: seq<byte>, chunk: nat, w: nat): nat {
    Min(w + chunk, |img|)
  }

  /** The 0x06 payload for offset w: [offset LE32][data]. */
  function Payload(img: seq<byte>, chunk: nat, w: nat): seq<byte>
    requires w < |img|
  {
    PutLe(4, w) + img[w..FrameEnd(img, chunk, w)]
  }

  function Frame(img: seq<byte>, chunk: nat, w: nat): seq<byte>
    requires w < |img|
  {
    [DATA_V2] + Payload(img, chunk, w)
  }

  lemma FrameParses(img: seq<byte>, chunk: nat, w: nat)
    requires w < |img| < U32_MOD && 1 <= chunk <= V2_CHUNK
    ensures Parse(Frame(img, chunk, w)) == Some(Msg(DATA_V2, Payload(img, chunk, w)))
  {
    Widths();
    LeRoundTrip(4, w);
    assert Frame(img, chunk, w)[1..] == Payload(img, chunk, w);
  }

  lemma PayloadFields(img: seq<byte>, chunk: nat, w: nat)
    requires w < |img| < U32_MOD && 1 <= chunk <= V2_CHUNK
    ensures |Payload(img, chunk, w)| >= 5 && GetLe32(Payload(img, chunk, w)) == w
    ensures Payload(img, chunk, w)[4..] == img[w..FrameEnd(img, chunk, w)]
  {
    Widths();
    LeRoundTrip(4, w);
    assert Payload(img, chunk, w)[..4] == PutLe(4, w);
  }

  lemma V2ReplyValue(n: nat)
    requires n < U32_MOD
    ensures |V2Reply(n)| == 5 && V2Reply(n)[0] == DATA_V2 && GetLe32(V2Reply(n)[1..]) == n
  {
    Widths();
    LeRoundTrip(4, n);
    assert V2Reply(n)[1..] == PutLe(4, n);
    assert V2Reply(n)[1..][..4] == PutLe(4, n);
  }

  lemma StartReplyShape(status: byte)
    ensures |StartReply(status)| == 4 && StartReply(status)[0] == START
  {
    Widths();
    LeRoundTrip(2, V2_CHUNK);
  }
}
