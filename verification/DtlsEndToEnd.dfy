/** From the sender's flight to the receiver's messages. */
module DtlsEndToEnd {
  import opened Wrappers
  import opened DtlsFragment
  import opened DtlsReceive
  import opened DtlsRuns
  import opened DtlsSend
  import opened DtlsSeal

  /** A flight that carries messages of `sent`, each under its number. */
  ghost predicate FlightOf(sent: seq<Message>, messages: seq<OutMessage>) {
    forall j :: 0 <= j < |messages| && !messages[j].isCcs ==> Carries(sent, messages[j])
  }

  predicate Carries(sent: seq<Message>, m: OutMessage) {
    Whole(m).Some? && var f := Whole(m).value;
    f.seqNum < |sent| && sent[f.seqNum] == Message(f.typ, f.body)
  }

  /** The fragment in a handshake record. */
  function Carried(r: Record): Option<Fragment> {
    if r.typ != RT_HANDSHAKE then None
    else match ParseFragment(r.payload)
      case Malformed => None
      case Parsed(f, rest) => if rest == [] then Some(f) else None
  }

  /** What is sealed next from a message is a genuine fragment of it, starting at the offset. */
  lemma {:induction false} AdvanceCarries(sent: seq<Message>, messages: seq<OutMessage>, p: Pos, r: Record)
    requires FlightOf(sent, messages) && Advance(messages, p, r).Some? && !messages[p.written].isCcs
    ensures Carried(r).Some? && Genuine(sent, Carried(r).value)
    ensures var q, f := Advance(messages, p, r).value, Carried(r).value;
            && f.seqNum == Whole(messages[p.written]).value.seqNum && f.off == p.offset
            && (q == Pos(p.written, p.offset + |f.body|)
                 || (q == Pos(p.written + 1, 0) && f.off + |f.body| == f.msgLen))
  {
    hide Serialize, ParseFragment;
    var m := messages[p.written];
    assert Carries(sent, m);
    var f := Whole(m).value;
    var piece := Slice(f, p.offset, |r.payload| - 12);
    SerializeParsed(m.data);
    ParseSerialized(piece, []);
    assert Serialize(piece) + [] == Serialize(piece);
  }

  /** Every handshake record of a flight carries a genuine fragment, whatever the MTUs and
      wherever writing was resumed. */
  lemma {:induction false} EmittedGenuine(sent: seq<Message>, messages: seq<OutMessage>, p: Pos, rs: seq<Record>,
                                          i: nat)
    requires FlightOf(sent, messages) && Follow(messages, p, rs).Some? && i < |rs| && rs[i].typ == RT_HANDSHAKE
    ensures Carried(rs[i]).Some? && Genuine(sent, Carried(rs[i]).value)
    decreases |rs|
  {
    hide Genuine, Carried;
    if i < |rs| - 1 {
      EmittedGenuine(sent, messages, p, rs[..|rs| - 1], i);
    } else {
      AdvanceCarries(sent, messages, Follow(messages, p, rs[..i]).value, rs[i]);
    }
  }

  /** Position k of message j lies before q. */
  predicate Passed(q: Pos, j: nat, k: nat) {
    j < q.written || (j == q.written && k < q.offset)
  }

  /** Written up to q, everything before q was in some record: fragments leave no gap. */
  lemma {:induction false} FlightCovers(sent: seq<Message>, messages: seq<OutMessage>, rs: seq<Record>, j: nat, k: nat)
    returns (i: nat)
    requires FlightOf(sent, messages) && Follow(messages, Pos(0, 0), rs).Some?
    requires j < |messages| && !messages[j].isCcs && k < BodyLen(messages[j])
    requires Passed(Follow(messages, Pos(0, 0), rs).value, j, k)
    ensures i < |rs| && Carried(rs[i]).Some? && k in Carried(rs[i]).value.Covers()
    ensures Carried(rs[i]).value.seqNum == Whole(messages[j]).value.seqNum
    decreases |rs|
  {
    hide Genuine, Carried;
    assert Carries(sent, messages[j]);
    var n := |rs| - 1;
    var p := Follow(messages, Pos(0, 0), rs[..n]).value;
    if Passed(p, j, k) {
      i := FlightCovers(sent, messages, rs[..n], j, k);
    } else {
      i := n;
      AdvanceCarries(sent, messages, p, rs[n]);
      GenuineLength(sent, messages[j], Carried(rs[n]).value);
    }
  }

  lemma GenuineLength(sent: seq<Message>, m: OutMessage, f: Fragment)
    requires Carries(sent, m) && !m.isCcs && Genuine(sent, f) && f.seqNum == Whole(m).value.seqNum
    ensures f.msgLen == BodyLen(m)
  {
  }

  /** Written past message j, at least one record carried some of it, were it empty. */
  lemma {:induction false} FlightMentions(sent: seq<Message>, messages: seq<OutMessage>, rs: seq<Record>, j: nat)
    returns (i: nat)
    requires FlightOf(sent, messages) && Follow(messages, Pos(0, 0), rs).Some?
    requires j < Follow(messages, Pos(0, 0), rs).value.written && j < |messages| && !messages[j].isCcs
    ensures i < |rs| && Carried(rs[i]).Some?
    ensures Whole(messages[j]).Some? && Carried(rs[i]).value.seqNum == Whole(messages[j]).value.seqNum
    decreases |rs|
  {
    hide Genuine, Carried;
    assert Carries(sent, messages[j]);
    var n := |rs| - 1;
    var p := Follow(messages, Pos(0, 0), rs[..n]).value;
    if j < p.written {
      i := FlightMentions(sent, messages, rs[..n], j);
    } else {
      i := n;
      AdvanceCarries(sent, messages, p, rs[n]);
    }
  }

  // ---------------------------------------------------------------- delivery

  /** A fragment arrives, at some point of the run, while its message is in the window. */
  ghost predicate Delivered(es: seq<Event>, f: Fragment) {
    exists t :: 0 <= t < |es| && DeliveredAt(es, f, t)
  }

  predicate DeliveredAt(es: seq<Event>, f: Fragment, t: nat)
    requires t < |es|
  {
    && es[t].Arrive? && es[t].f == f
    && Run(es[..t]).Next? && InWindow(Run(es[..t]).ring, f.seqNum)
  }

  lemma {:induction false} DeliveredIsHeard(es: seq<Event>, f: Fragment, t: nat)
    requires t < |es| && DeliveredAt(es, f, t)
    ensures Heard(es, f.seqNum).Some? && f.Covers() <= Heard(es, f.seqNum).value
    decreases |es|
  {
    hide Run;
    var n := |es| - 1;
    if t < n {
      assert es[..n][..t] == es[..t];
      DeliveredIsHeard(es[..n], f, t);
    }
  }

  /** If every record of one complete pass over the flight that carries a piece of the message
      expected next gets through once, in any order, among any duplicates and pieces from other
      passes, then the message is complete, and it is the one sent. */
  lemma {:induction false} CompletePassSuffices(sent: seq<Message>, messages: seq<OutMessage>, rs: seq<Record>,
                                                es: seq<Event>, j: nat)
    requires FlightOf(sent, messages) && Follow(messages, Pos(0, 0), rs) == Some(Pos(|messages|, 0))
    requires AllGenuine(sent, es) && Run(es).Next?
    requires j < |messages| && !messages[j].isCcs && Whole(messages[j]).Some?
    requires Whole(messages[j]).value.seqNum == |HandedUp(es)|
    requires forall i :: 0 <= i < |rs| && Carried(rs[i]).Some? && Carried(rs[i]).value.seqNum == |HandedUp(es)| ==>
               Delivered(es, Carried(rs[i]).value)
    ensures Ready(Run(es).ring).Some?
    ensures Ready(Run(es).ring).value.Body() == Whole(messages[j]).value.body
  {
    hide Run, Heard, HandedUp, Carried, Follow, Genuine, Ready, Whole;
    var s := |HandedUp(es)|;
    assert Carries(sent, messages[j]);
    HeardWithin(sent, es, s);
    var first := FlightMentions(sent, messages, rs, j);
    RecordHeard(es, Carried(rs[first]).value);
    assert BodyLen(messages[j]) == |sent[s].body|;
    forall k | k in Range(0, |sent[s].body|)
      ensures k in Heard(es, s).value
    {
      var i := FlightCovers(sent, messages, rs, j, k);
      RecordHeard(es, Carried(rs[i]).value);
    }
    assert Heard(es, s).value == Range(0, |sent[s].body|);
    ReadyIffCovered(sent, es);
  }

  lemma RecordHeard(es: seq<Event>, f: Fragment)
    requires Delivered(es, f)
    ensures Heard(es, f.seqNum).Some? && f.Covers() <= Heard(es, f.seqNum).value
  {
    var t :| 0 <= t < |es| && DeliveredAt(es, f, t);
    DeliveredIsHeard(es, f, t);
  }

  /** Nothing is heard of a message past its end. */
  lemma {:induction false} HeardWithin(sent: seq<Message>, es: seq<Event>, s: nat)
    requires AllGenuine(sent, es) && s < |sent|
    ensures Heard(es, s).Some? ==> Heard(es, s).value <= Range(0, |sent[s].body|)
  {
    hide Run;
    if es != [] {
      assert AllGenuine(sent, es[..|es| - 1]);
      HeardWithin(sent, es[..|es| - 1], s);
    }
  }
}
