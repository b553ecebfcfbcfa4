/** Whole runs of the DTLS receiver over a network that drops, duplicates and reorders: any
    sequence of fragments may arrive, interleaved with messages being handed up. */
module DtlsRuns {
  import opened Wrappers
  import opened Bits
  import opened DtlsFragment
  import opened DtlsReceive

  datatype Event = Arrive(f: Fragment, encrypted: bool, maxLen: nat) | Pop

  function EmptyRing(): (r: Ring)
    ensures |r.slots| == MAX_FLIGHT
  {
    Ring(0, seq(MAX_FLIGHT, _ => None))
  }

  /** A pop without a complete message, which the source's assertion forbids, does nothing. */
  function Step(r: Ring, e: Event): Outcome
    requires |r.slots| == MAX_FLIGHT
  {
    match e
    case Arrive(f, encrypted, maxLen) => Deliver(r, encrypted, maxLen, f)
    case Pop => Next(if Ready(r).Some? then Popped(r) else r)
  }

  function Run(es: seq<Event>): (o: Outcome)
    ensures o.Next? ==> |o.ring.slots| == MAX_FLIGHT
  {
    if es == [] then Next(EmptyRing())
    else
      match Run(es[..|es| - 1])
      case Fatal(a) => Fatal(a)
      case Next(r) => Step(r, es[|es| - 1])
  }

  /** The messages handed up in the course of a run. */
  function HandedUp(es: seq<Event>): seq<Partial> {
    if es == [] then []
    else
      var before, o := HandedUp(es[..|es| - 1]), Run(es[..|es| - 1]);
      if o.Next? && es[|es| - 1].Pop? && Ready(o.ring).Some? then before + [Ready(o.ring).value] else before
  }

  lemma StepKeepsRing(r: Ring, e: Event)
    requires r.Valid()
    ensures Step(r, e).Next? ==> Step(r, e).ring.Valid() && r.readSeq <= Step(r, e).ring.readSeq <= r.readSeq + 1
  {
    match e
    case Arrive(f, encrypted, maxLen) => DeliverKeepsRing(r, encrypted, maxLen, f);
    case Pop =>
      if Ready(r).Some? {
        PopKeepsRing(r);
      }
  }

  /** In every reachable state each occupied slot i holds a message with number congruent to i
      within the window. */
  lemma {:induction false} RingReachable(es: seq<Event>)
    requires Run(es).Next?
    ensures Run(es).ring.Valid()
  {
    if es == [] {
      forall i | 0 <= i < MAX_FLIGHT
        ensures EmptyRing().SlotValid(i)
      {
      }
    } else {
      RingReachable(es[..|es| - 1]);
      StepKeepsRing(Run(es[..|es| - 1]).ring, es[|es| - 1]);
    }
  }

  /** Whatever arrives, messages 0, 1, 2, ... are handed up, each once, in this order, and only
      when complete. */
  lemma {:induction false} InOrderExactlyOnce(es: seq<Event>)
    requires Run(es).Next?
    ensures Run(es).ring.readSeq == |HandedUp(es)|
    ensures forall i :: 0 <= i < |HandedUp(es)| ==> HandedUp(es)[i].seqNum == i && HandedUp(es)[i].Complete()
  {
    hide Deliver, Ring.Valid;
    if es != [] {
      var before := es[..|es| - 1];
      InOrderExactlyOnce(before);
      RingReachable(before);
      var r := Run(before).ring;
      if es[|es| - 1].Pop? {
        if Ready(r).Some? {
          PopKeepsRing(r);
        }
      } else {
        DeliverKeepsSeq(r, es[|es| - 1]);
      }
    }
  }

  lemma DeliverKeepsSeq(r: Ring, e: Event)
    requires |r.slots| == MAX_FLIGHT && e.Arrive?
    ensures Step(r, e).Next? ==> Step(r, e).ring.readSeq == r.readSeq
  {
  }

  // ---------------------------------------------------------------- genuine fragments

  datatype Message = Message(typ: byte, body: seq<byte>)

  /** A piece of message number f.seqNum of those sent. */
  predicate Genuine(sent: seq<Message>, f: Fragment) {
    && f.seqNum < |sent| && f.typ == sent[f.seqNum].typ && f.msgLen == |sent[f.seqNum].body|
    && f.off + |f.body| <= f.msgLen
    && f.body == sent[f.seqNum].body[f.off..f.off + |f.body|]
  }

  ghost predicate AllGenuine(sent: seq<Message>, es: seq<Event>) {
    forall i :: 0 <= i < |es| && es[i].Arrive? ==> Genuine(sent, es[i].f)
  }

  predicate InWindow(r: Ring, s: nat) {
    r.readSeq <= s < r.readSeq + MAX_FLIGHT
  }

  /** The positions of message s that arrived while it was in the window, if anything did. */
  function Heard(es: seq<Event>, s: nat): Option<set<nat>> {
    if es == [] then None
    else
      var before, o, e := Heard(es[..|es| - 1], s), Run(es[..|es| - 1]), es[|es| - 1];
      if o.Next? && e.Arrive? && e.f.seqNum == s && InWindow(o.ring, s) then Some(before.GetOr({}) + e.f.Covers())
      else before
  }

  /** What the ring has of message s is what was heard of it, byte for byte as sent. */
  ghost predicate Faithful(r: Ring, sent: seq<Message>, heard: Option<set<nat>>, s: nat)
    requires |r.slots| == MAX_FLIGHT
  {
    match r.At(s)
    case None => heard == None
    case Some(p) => heard == Some(p.bytes.Keys) && Copy(p, sent, s)
  }

  /** A partial copy of message s. */
  ghost predicate Copy(p: Partial, sent: seq<Message>, s: nat) {
    && s < |sent| && p.seqNum == s && p.typ == sent[s].typ && p.msgLen == |sent[s].body|
    && p.bytes.Keys <= Range(0, p.msgLen)
    && forall k :: k in p.bytes ==> p.bytes[k] == sent[s].body[k]
  }

  lemma AddedCopy(p: Partial, sent: seq<Message>, f: Fragment)
    requires Copy(p, sent, f.seqNum) && Genuine(sent, f)
    ensures Copy(Added(p, f), sent, f.seqNum)
    ensures Added(p, f).bytes.Keys == p.bytes.Keys + f.Covers()
  {
    if !p.Complete() {
      forall k | k in f.Covers()
        ensures Piece(f)[k] == sent[f.seqNum].body[k]
      {
      }
    }
  }

  /** Nothing is heard of messages beyond the window. */
  lemma {:induction false} HeardBeyond(es: seq<Event>, s: nat)
    requires Run(es).Next? && s >= Run(es).ring.readSeq + MAX_FLIGHT
    ensures Heard(es, s) == None
  {
    hide Step, Ring.Valid;
    if es != [] {
      var before := es[..|es| - 1];
      RingReachable(before);
      StepKeepsRing(Run(before).ring, es[|es| - 1]);
      HeardBeyond(before, s);
    }
  }

  /** A genuine fragment in the window is always accepted. */
  lemma {:induction false} ArriveFaithful(r: Ring, sent: seq<Message>, f: Fragment, heard: Option<set<nat>>)
    requires r.Valid() && Genuine(sent, f) && InWindow(r, f.seqNum) && Faithful(r, sent, heard, f.seqNum)
    ensures Refusal(r, f) == None
    ensures Faithful(Accept(r, f), sent, Some(heard.GetOr({}) + f.Covers()), f.seqNum)
  {
    hide Added, Piece;
    var p := r.At(f.seqNum).GetOr(Blank(f));
    assert Copy(p, sent, f.seqNum);
    AddedCopy(p, sent, f);
    assert p.bytes.Keys == heard.GetOr({});
  }

  lemma OtherSlot(r: Ring, f: Fragment, s: nat)
    requires r.Valid() && InWindow(r, f.seqNum) && InWindow(r, s) && s != f.seqNum
    ensures Accept(r, f).At(s) == r.At(s)
  {
    if s % 7 == f.seqNum % 7 {
      SameWindow(s, f.seqNum, r.readSeq);
    }
  }

  lemma {:induction false} ArriveStep(r: Ring, sent: seq<Message>, e: Event, heard: Option<set<nat>>, s: nat)
    requires r.Valid() && e.Arrive? && Genuine(sent, e.f) && Step(r, e).Next? && InWindow(r, s)
    requires Faithful(r, sent, heard, s)
    ensures Faithful(Step(r, e).ring, sent, if e.f.seqNum == s then Some(heard.GetOr({}) + e.f.Covers()) else heard, s)
  {
    hide Faithful;
    if e.f.seqNum == s {
      ArriveFaithful(r, sent, e.f, heard);
    } else if InWindow(r, e.f.seqNum) {
      OtherSlot(r, e.f, s);
      SameSlot(r, Accept(r, e.f), sent, heard, s);
    }
  }

  lemma SameSlot(r: Ring, r': Ring, sent: seq<Message>, heard: Option<set<nat>>, s: nat)
    requires |r.slots| == |r'.slots| == MAX_FLIGHT && r'.At(s) == r.At(s) && Faithful(r, sent, heard, s)
    ensures Faithful(r', sent, heard, s)
  {
  }

  lemma {:induction false} PopStep(r: Ring, es: seq<Event>, sent: seq<Message>, s: nat)
    requires Run(es) == Next(r) && r.Valid() && Ready(r).Some? && InWindow(Popped(r), s)
    requires InWindow(r, s) ==> Faithful(r, sent, Heard(es, s), s)
    ensures Faithful(Popped(r), sent, Heard(es, s), s)
  {
    hide Ring.Valid, Heard, Run;
    if InWindow(r, s) {
      if s % 7 == r.readSeq % 7 {
        SameWindow(s, r.readSeq, r.readSeq);
      }
    } else {
      HeardBeyond(es, s);
    }
  }

  /** End to end: after any run on genuine fragments, however cut, dropped, repeated and
      reordered, the ring holds of every message in its window exactly the bytes that were
      heard of it, as they were sent. */
  lemma {:induction false} Reassembly(sent: seq<Message>, es: seq<Event>, s: nat)
    requires AllGenuine(sent, es) && Run(es).Next? && InWindow(Run(es).ring, s)
    ensures Faithful(Run(es).ring, sent, Heard(es, s), s)
    decreases |es|
  {
    hide Ring.Valid, Faithful, Step;
    if es == [] {
      assert EmptyRing().At(s) == None;
      NothingYet(sent, s);
    } else {
      var before, e := es[..|es| - 1], es[|es| - 1];
      assert AllGenuine(sent, before);
      RingReachable(before);
      var r := Run(before).ring;
      StepKeepsRing(r, e);
      if InWindow(r, s) {
        Reassembly(sent, before, s);
      }
      ReassemblyStep(sent, before, e, s);
    }
  }

  lemma NothingYet(sent: seq<Message>, s: nat)
    ensures Faithful(EmptyRing(), sent, None, s)
  {
  }

  lemma {:induction false} ReassemblyStep(sent: seq<Message>, before: seq<Event>, e: Event, s: nat)
    requires AllGenuine(sent, before + [e]) && Run(before).Next? && Run(before).ring.Valid()
    requires Step(Run(before).ring, e).Next? && InWindow(Step(Run(before).ring, e).ring, s)
    requires InWindow(Run(before).ring, s) ==> Faithful(Run(before).ring, sent, Heard(before, s), s)
    ensures Faithful(Step(Run(before).ring, e).ring, sent, Heard(before + [e], s), s)
  {
    hide Ring.Valid, Faithful, Deliver, Run;
    var r := Run(before).ring;
    assert (before + [e])[..|before|] == before && (before + [e])[|before|] == e;
    if e.Arrive? {
      DeliverKeepsSeq(r, e);
      ArriveStep(r, sent, e, Heard(before, s), s);
    } else if Ready(r).Some? {
      PopStep(r, before, sent, s);
    }
  }

  /** The next message is complete exactly if the fragments heard of it cover its body; then its
      body is the one sent. */
  lemma {:induction false} ReadyIffCovered(sent: seq<Message>, es: seq<Event>)
    requires AllGenuine(sent, es) && Run(es).Next?
    ensures var n := |HandedUp(es)|;
            Ready(Run(es).ring).Some? <==> n < |sent| && Heard(es, n) == Some(Range(0, |sent[n].body|))
    ensures var n := |HandedUp(es)|;
            Ready(Run(es).ring).Some? ==>
              Ready(Run(es).ring).value.Body() == sent[n].body && Ready(Run(es).ring).value.typ == sent[n].typ
  {
    hide Run, Heard, HandedUp;
    InOrderExactlyOnce(es);
    var r := Run(es).ring;
    Reassembly(sent, es, r.readSeq);
    if Ready(r).Some? {
      CompleteCopy(Ready(r).value, sent, r.readSeq);
    }
  }

  lemma CompleteCopy(p: Partial, sent: seq<Message>, s: nat)
    requires Copy(p, sent, s) && p.Complete()
    ensures p.Body() == sent[s].body
  {
  }

  /** Every message handed up has the type and the body of the message sent under its number. */
  lemma {:induction false} HandedUpAsSent(sent: seq<Message>, es: seq<Event>)
    requires AllGenuine(sent, es) && Run(es).Next?
    ensures |HandedUp(es)| <= |sent|
    ensures forall i :: 0 <= i < |HandedUp(es)| ==>
              HandedUp(es)[i].Complete() && HandedUp(es)[i].Body() == sent[i].body && HandedUp(es)[i].typ == sent[i].typ
  {
    hide Step, Heard, Run, HandedUp, Partial.Complete, Partial.Body, Ready;
    HandedUpGrows(es);
    if es != [] {
      var before := es[..|es| - 1];
      assert AllGenuine(sent, before);
      HandedUpAsSent(sent, before);
      ReadyIffCovered(sent, before);
      if Ready(Run(before).ring).Some? {
        ReadyIsComplete(Run(before).ring);
      }
    }
  }

  lemma {:induction false} HandedUpGrows(es: seq<Event>)
    ensures es == [] ==> HandedUp(es) == []
    ensures es != [] && Run(es).Next? ==>
              var before := es[..|es| - 1];
              && Run(before).Next?
              && (|| HandedUp(es) == HandedUp(before)
                  || (Ready(Run(before).ring).Some?
                       && HandedUp(es) == HandedUp(before) + [Ready(Run(before).ring).value]))
  {
    hide Step, Ready;
  }

  lemma ReadyIsComplete(r: Ring)
    requires |r.slots| == MAX_FLIGHT && Ready(r).Some?
    ensures Ready(r).value.Complete()
  {
  }

  /** A genuine fragment ends the connection exactly if its message is too long, or another than
      the one expected in the encrypted epoch, or one message further ahead than the window
      reaches: the filter before it lets that one through. */
  lemma {:induction false} GenuineFatal(sent: seq<Message>, es: seq<Event>, f: Fragment, encrypted: bool, maxLen: nat)
    requires AllGenuine(sent, es) && Run(es).Next? && Genuine(sent, f)
    ensures var r := Run(es).ring;
            Deliver(r, encrypted, maxLen, f).Fatal? <==>
              f.msgLen > maxLen || (encrypted && f.seqNum != r.readSeq) || f.seqNum == r.readSeq + MAX_FLIGHT
    ensures Deliver(Run(es).ring, encrypted, maxLen, f).Fatal? ==>
              Deliver(Run(es).ring, encrypted, maxLen, f).alert ==
              if f.msgLen > maxLen then IllegalParameter
              else if encrypted && f.seqNum != Run(es).ring.readSeq then UnexpectedMessage
              else InternalError
  {
    hide Run, Heard;
    RingReachable(es);
    if InWindow(Run(es).ring, f.seqNum) {
      Reassembly(sent, es, f.seqNum);
      ArriveFaithful(Run(es).ring, sent, f, Heard(es, f.seqNum));
    }
  }

  /** The concrete case: before anything was received, the first byte of message 7 is fatal,
      while one of message 8 is ignored. */
  lemma TooFarAhead()
    ensures Run([Arrive(Fragment(1, 1, 7, 0, [0]), false, 1)]) == Fatal(InternalError)
    ensures Run([Arrive(Fragment(1, 1, 8, 0, [0]), false, 1)]) == Next(EmptyRing())
  {
    assert Run([]) == Next(EmptyRing());
    assert [Arrive(Fragment(1, 1, 7, 0, [0]), false, 1)][..0] == [];
    assert [Arrive(Fragment(1, 1, 8, 0, [0]), false, 1)][..0] == [];
  }
}
