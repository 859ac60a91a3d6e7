/** The way of the Modbus TCP replies through tcp_write (src/modbus/tcp.c:100-111 and 167-178). There is
    room for one reply that there was no memory for: a reply made meanwhile is not held back behind it,
    and takes its place when there is no memory for that one either. */
module TcpReplies {
  import opened Bytes
  import opened Common

  /** What tcp_write answers. */
  datatype Written = Taken | NoMemory | Failed

  /** A call of tcp_write: with a reply just made, or by the poll with the one kept. */
  datatype Write = Write(reply: seq<byte>, answer: Written) | Retry(answer: Written)

  function RepliesOf(ws: seq<Write>): seq<seq<byte>> {
    if ws == [] then []
    else RepliesOf(ws[..|ws| - 1]) + (if ws[|ws| - 1].Write? then [ws[|ws| - 1].reply] else [])
  }

  /** The replies, by number: the ones tcp_write took, in order, and the one kept. */
  datatype Tx = Tx(sent: seq<nat>, kept: Option<nat>) {
    /** process_frame, with reply number n */
    function Write(n: nat, answer: Written): Tx {
      match answer
      case Taken => Tx(sent + [n], kept)
      case NoMemory => Tx(sent, Some(n))
      case Failed => Tx(sent, None)
    }

    /** mb_poll_cb */
    function Retry(answer: Written): Tx {
      match (kept, answer)
      case (Some(n), Taken) => Tx(sent + [n], None)
      case (Some(n), NoMemory) => this
      case (Some(n), Failed) => Tx(sent, None)
      case (None, _) => this
    }

    function Call(n: nat, w: Write): Tx {
      if w.Write? then Write(n, w.answer) else Retry(w.answer)
    }

    /** What the master has, once the reply kept has followed. */
    function Out(): seq<nat> {
      if kept.Some? then sent + [kept.value] else sent
    }

    /** Of n replies, none has gone out and is kept. */
    ghost predicate Apart(n: nat) {
      && (forall i :: 0 <= i < |sent| ==> sent[i] < n)
      && (kept.Some? ==> kept.value < n && kept.value !in sent)
    }

    ghost predicate InOrder(n: nat) {
      Out() == seq(n, i => i)
    }
  }

  function After(ws: seq<Write>): Tx {
    if ws == [] then Tx([], None)
    else After(ws[..|ws| - 1]).Call(|RepliesOf(ws[..|ws| - 1])|, ws[|ws| - 1])
  }

  lemma AfterMore(ws: seq<Write>, w: Write)
    ensures After(ws + [w]) == After(ws).Call(|RepliesOf(ws)|, w)
    ensures RepliesOf(ws + [w]) == RepliesOf(ws) + (if w.Write? then [w.reply] else [])
  {
    assert (ws + [w])[..|ws + [w]| - 1] == ws;
  }

  lemma OneReply(ws: seq<Write>)
    requires |ws| <= 1 && forall w :: w in ws ==> w.Write?
    ensures RepliesOf(ws) == if ws == [] then [] else [ws[0].reply]
  {
    if ws != [] {
      assert ws[..|ws| - 1] == [];
    }
  }

  lemma {:induction false} RepliesAppend(a: seq<Write>, b: seq<Write>)
    ensures RepliesOf(a + b) == RepliesOf(a) + RepliesOf(b)
    decreases |b|
  {
    if b == [] {
      assert a + b == a;
    } else {
      var c, w := b[..|b| - 1], b[|b| - 1];
      assert c + [w] == b && a + b == a + c + [w];
      RepliesAppend(a, c);
      AfterMore(a + c, w);
      AfterMore(c, w);
    }
  }

  /** tx_pending: the bytes of the reply kept. */
  function Kept(ws: seq<Write>): seq<byte> {
    StaysApart(ws);
    match After(ws).kept
    case Some(n) => RepliesOf(ws)[n]
    case None => []
  }

  lemma {:induction false} StaysApart(ws: seq<Write>)
    ensures After(ws).Apart(|RepliesOf(ws)|)
  {
    if ws != [] {
      StaysApart(ws[..|ws| - 1]);
    }
  }

  lemma KeptMore(ws: seq<Write>, w: Write)
    ensures Kept(ws + [w]) ==
            match (w, After(ws).kept)
            case (Write(reply, NoMemory), _) => reply
            case (Write(_, Taken), _) => Kept(ws)
            case (Retry(NoMemory), _) => Kept(ws)
            case (_, _) => []
    ensures After(ws + [w]).kept.Some?
            <==> match w.answer
                 case Taken => w.Write? && After(ws).kept.Some?
                 case NoMemory => w.Write? || After(ws).kept.Some?
                 case Failed => false
  {
    AfterMore(ws, w);
    StaysApart(ws);
  }

  // ---- which replies go out ----

  /** No call failed, and no reply was made while another was kept. */
  ghost predicate Patient(ws: seq<Write>) {
    forall k :: 0 <= k < |ws| ==> PatientAt(ws, k)
  }

  predicate PatientAt(ws: seq<Write>, k: nat)
    requires k < |ws|
  {
    var kept := After(ws[..k]).kept;
    if ws[k].Write? then kept.None? && ws[k].answer != Failed else kept.Some? ==> ws[k].answer != Failed
  }

  lemma PatientMore(ws: seq<Write>)
    requires ws != []
    ensures Patient(ws) <==> Patient(ws[..|ws| - 1]) && PatientAt(ws, |ws| - 1)
  {
    var front := ws[..|ws| - 1];
    hide After;
    forall k | 0 <= k < |front| ensures PatientAt(front, k) == PatientAt(ws, k) {
      assert front[..k] == ws[..k];
    }
    if Patient(ws) {
      forall k | 0 <= k < |front| ensures PatientAt(front, k) {
        assert PatientAt(ws, k);
      }
    }
  }

  lemma OneMissing(t: Tx, n: nat)
    requires t.Apart(n)
    ensures t.kept.Some? ==> t.sent != seq(n, i => i)
  {
    if t.kept.Some? {
      assert seq(n, i => i)[t.kept.value] == t.kept.value;
    }
  }

  /** One call keeps the replies in order exactly when it is none of these. */
  lemma CallInOrder(t: Tx, n: nat, w: Write)
    requires t.Apart(n)
    ensures var m := if w.Write? then n + 1 else n;
            t.Call(n, w).InOrder(m)
            <==> t.InOrder(n) && if w.Write? then t.kept.None? && w.answer != Failed
                                 else t.kept.Some? ==> w.answer != Failed
  {
    var m := if w.Write? then n + 1 else n;
    var u := t.Call(n, w);
    OneMissing(t, n);
    if u.InOrder(m) {
      assert |u.Out()| == m && forall i :: 0 <= i < m ==> u.Out()[i] == i;
      assert forall i :: 0 <= i < |t.sent| ==> t.sent[i] == u.Out()[i];
      if w.Write? {
        // the new reply is the last of them, and nothing was kept that it could have overtaken
        assert u.Out()[n] == n;
        assert t.sent == seq(n, i => i);
      }
    }
  }

  /** Every reply goes out, once and in the order in which they were made, exactly when no call of
      tcp_write failed and no reply was made while another was kept. */
  lemma {:induction false} OrderIff(ws: seq<Write>)
    ensures After(ws).InOrder(|RepliesOf(ws)|) <==> Patient(ws)
  {
    if ws != [] {
      var front, w := ws[..|ws| - 1], ws[|ws| - 1];
      OrderIff(front);
      StaysApart(front);
      PatientMore(ws);
      CallInOrder(After(front), |RepliesOf(front)|, w);
    }
  }

  /** A reply that is neither out nor kept never goes out: one that another took the place of, and one
      whose write failed. */
  lemma {:induction false} NeverSent(ws: seq<Write>, more: seq<Write>, n: nat)
    requires n < |RepliesOf(ws)| && n !in After(ws).Out()
    ensures n < |RepliesOf(ws + more)| && n !in After(ws + more).Out()
    decreases |more|
  {
    if more == [] {
      assert ws + more == ws;
    } else {
      var c, w := more[..|more| - 1], more[|more| - 1];
      assert ws + more == ws + c + [w];
      NeverSent(ws, c, n);
      AfterMore(ws + c, w);
      hide After;
      var t := After(ws + c);
      assert forall k :: k in t.sent ==> k in t.Out();
      assert t.kept.Some? ==> t.Out()[|t.sent|] == t.kept.value;
    }
  }
}
