/** After the transfer the tool sends END and takes the first datagram that arrives as its answer,
    looking only at the second byte (tools/firmware_upgrade.py, main). A copy of START's answer can be
    that datagram, and reads as success; so can a late data reply, which reads as success exactly when
    the image length is 1 modulo 256. */
module StaleReply {
  import opened Bytes
  import opened FwProtocol
  import opened GoBackN

  /** What main() takes for "the device has accepted the image". */
  predicate ReadsAsSuccess(r: seq<byte>) {
    |r| >= 2 && r[1] == 1
  }

  /** Read as success only by an accident of the length. */
  predicate Harmless(img: seq<byte>, r: seq<byte>) {
    ReadsAsSuccess(r) ==> |img| % 256 == 1
  }

  /** Of the replies, those in `early` were there before the transfer. */
  predicate NetHarmless(img: seq<byte>, early: set<seq<byte>>, n: Net) {
    && (forall r :: r in n.replies ==> r in early || Harmless(img, r))
    && |n.dev.slots| == 2
    && (forall i :: 0 <= i < 2 && n.dev.slots[i].pending > 0 ==>
          Harmless(img, n.dev.slots[i].prev) && Harmless(img, n.dev.slots[i].cur))
  }

  lemma {:induction false} MultipleOfChunk(n: int)
    requires Multiple(n, V2_CHUNK)
    ensures n % 8 == 0
    decreases n
  {
    if n != 0 {
      MultipleOfChunk(n - V2_CHUNK);
    }
  }

  lemma LowByte(n: nat)
    ensures |V2Reply(n)| == 5 && (V2Reply(n)[1] == 1 <==> n % 256 == 1)
  {
    PutLeLength(4, n);
    ToByteValue(n);
    OneIsOne(ToByte(n));
    hide ToByte;
    assert V2Reply(n)[1] == PutLe(4, n)[0];
  }

  lemma OneIsOne(b: byte)
    ensures b == 1 <==> Val(b) == 1
  {
  }

  lemma ReplyHarmless(img: seq<byte>, t: Transfer, m: Msg)
    requires Job(img, V2_CHUNK) && TransferOk(img, V2_CHUNK, t) && KnownMsg(img, V2_CHUNK, m)
    ensures Harmless(img, ReplyTo(t, m))
  {
    StoreKeeps(img, V2_CHUNK, t, m);
    var n := |Store(t, m).stored|;
    LowByte(n);
    assert StartReply(0)[1] == 0;
    hide Store, V2Reply, StartReply;
    if Multiple(n, V2_CHUNK) {
      MultipleOfChunk(n);
    }
  }

  lemma ActionHarmless(img: seq<byte>, early: set<seq<byte>>, n: Net, a: Action)
    requires Job(img, V2_CHUNK) && NetOk(img, V2_CHUNK, n) && Possible(n, a) && NetHarmless(img, early, n)
    ensures NetHarmless(img, early, After(n, a)) && n.replies <= After(n, a).replies
  {
    match a
    case Deliver(p) =>
    case Serve(posted) =>
      ReplyHarmless(img, n.dev.transfer, n.dev.queue[0]);
    case Answer(i, k) =>
      TornHarmless(img, n.dev.slots[i], k);
  }

  /** The second byte of a mixture is the second byte of one of its parts. */
  lemma TornHarmless(img: seq<byte>, s: Slot, k: nat)
    requires Harmless(img, s.prev) && Harmless(img, s.cur)
    ensures Harmless(img, Torn(s.prev, s.cur, k))
  {
  }

  lemma {:induction false} RunHarmless(img: seq<byte>, early: set<seq<byte>>, x: World, steps: seq<Step>)
    requires Job(img, V2_CHUNK) && Inv(img, V2_CHUNK, x) && Run(img, V2_CHUNK, x, steps)
    requires NetHarmless(img, early, x.net)
    ensures NetHarmless(img, early, Outcome(img, V2_CHUNK, x, steps).net)
    ensures x.net.replies <= Outcome(img, V2_CHUNK, x, steps).net.replies
    decreases |steps|
  {
    if steps != [] {
      StepKeeps(img, V2_CHUNK, x, steps[0]);
      if steps[0].Remote? {
        ActionHarmless(img, early, x.net, steps[0].a);
      }
      hide Inv, Heard, Sent, After, Window, Missed;
      RunHarmless(img, early, Next(img, V2_CHUNK, x, steps[0]), steps[1..]);
    }
  }

  /** steps complete the transfer and leave a reply in the network that main() takes for END's success
      although END has not been sent. */
  predicate Deceives(img: seq<byte>, x: World, steps: seq<Step>, r: seq<byte>) {
    && Run(img, V2_CHUNK, x, steps) && Outcome(img, V2_CHUNK, x, steps).host.phase == Done
    && r in Outcome(img, V2_CHUNK, x, steps).net.replies && ReadsAsSuccess(r)
  }

  /** The tool can be deceived exactly when a reply left over from before the transfer reads as success,
      or the image length is 1 modulo 256. */
  lemma DeceivedIff(img: seq<byte>, x: World)
    requires Job(img, V2_CHUNK) && Initial(img, x)
    ensures (exists steps, r :: Deceives(img, x, steps, r))
            <==> |img| % 256 == 1 || exists r :: r in x.net.replies && ReadsAsSuccess(r)
  {
    InitialHolds(img, V2_CHUNK, x);
    forall steps, r | Deceives(img, x, steps, r)
      ensures |img| % 256 == 1 || (r in x.net.replies && ReadsAsSuccess(r))
    {
      RunHarmless(img, x.net.replies, x, steps);
      assert r in x.net.replies || Harmless(img, r);
    }
    if |img| % 256 == 1 {
      var steps, r := Deception(img, x);
    } else if r :| r in x.net.replies && ReadsAsSuccess(r) {
      var steps := Completable(img, V2_CHUNK, x);
      RunHarmless(img, x.net.replies, x, steps);
      assert Deceives(img, x, steps, r);
    }
  }

  /** The answer to START is such a reply: a second copy of it deceives the tool for every image. */
  lemma StartAnswerDeceives(img: seq<byte>, x: World)
    requires Job(img, V2_CHUNK) && Initial(img, x) && StartReply(1) in x.net.replies
    ensures exists steps, r :: Deceives(img, x, steps, r)
  {
    StartReplyShape(1);
    assert ReadsAsSuccess(StartReply(1));
    DeceivedIff(img, x);
  }

  lemma Deception(img: seq<byte>, x: World) returns (steps: seq<Step>, r: seq<byte>)
    requires Job(img, V2_CHUNK) && Inv(img, V2_CHUNK, x) && x.host.phase != Stalled
    requires |img| % 256 == 1
    ensures Deceives(img, x, steps, r)
  {
    var c := V2_CHUNK;
    var done := Completable(img, c, x);
    RunKeeps(img, c, x, done);
    var y := Outcome(img, c, x, done);
    var idle := Drain(img, c, y);
    var z := Outcome(img, c, y, idle);
    var late;
    late, r := Acknowledged(img, c, z, 0);
    RunKeeps(img, c, y, idle);
    RunKeeps(img, c, z, late);
    Join(img, c, x, done, idle);
    Join(img, c, x, done + idle, late);
    steps := done + idle + late;
    LowByte(|img|);
  }
}
