/** The DTLS receiver: a ring of partly assembled messages (RFC 6347, sections 4.2.2 and 4.2.3). */
module DtlsReceive {
  import opened Wrappers
  import opened Bits
  import opened Wire
  import opened DtlsFragment

  /** SSL_MAX_HANDSHAKE_FLIGHT. */
  const MAX_FLIGHT: nat := 7

  datatype Alert = IllegalParameter | UnexpectedMessage | InternalError | DecodeError

  /** The messages being put together, message s in slot s % MAX_FLIGHT, and the number of the
      message to be handed up next. */
  datatype Ring = Ring(readSeq: nat, slots: seq<Option<Partial>>) {
    ghost predicate Valid() {
      |slots| == MAX_FLIGHT && forall i :: 0 <= i < MAX_FLIGHT ==> SlotValid(i)
    }

    /** An occupied slot holds a message of the right number within the window. */
    ghost predicate SlotValid(i: nat)
      requires i < |slots|
    {
      slots[i].Some? ==>
        var p := slots[i].value;
        p.seqNum % 7 == i && readSeq <= p.seqNum < readSeq + MAX_FLIGHT && p.bytes.Keys <= Range(0, p.msgLen)
    }

    /** What is there of message s. */
    function At(s: nat): Option<Partial>
      requires |slots| == MAX_FLIGHT
    {
      slots[s % 7]
    }
  }

  datatype Outcome = Next(ring: Ring) | Fatal(alert: Alert)

  /** Why a fragment that is not from the past has no place in the ring: it is too far ahead, or
      disagrees with earlier fragments of its message. */
  function Refusal(r: Ring, f: Fragment): Option<Alert>
    requires |r.slots| == MAX_FLIGHT
  {
    var p := r.At(f.seqNum).GetOr(Blank(f));
    if f.seqNum - r.readSeq >= MAX_FLIGHT then Some(InternalError)
    else if p.typ != f.typ || p.msgLen != f.msgLen then Some(IllegalParameter)
    else None
  }

  /** The ring with one more fragment. */
  function Accept(r: Ring, f: Fragment): Ring
    requires |r.slots| == MAX_FLIGHT
  {
    r.(slots := r.slots[f.seqNum % 7 := Some(Added(r.At(f.seqNum).GetOr(Blank(f)), f))])
  }

  /** One fragment. `encrypted` is epoch 1, `maxLen` the longest message accepted. */
  function Deliver(r: Ring, encrypted: bool, maxLen: nat, f: Fragment): Outcome
    requires |r.slots| == MAX_FLIGHT
  {
    if f.off > f.msgLen || f.off + |f.body| > f.msgLen || f.msgLen > maxLen then Fatal(IllegalParameter)
    else if encrypted && f.seqNum != r.readSeq then Fatal(UnexpectedMessage)
    else if f.seqNum < r.readSeq || f.seqNum > r.readSeq + MAX_FLIGHT then Next(r)
    else if Refusal(r, f).Some? then Fatal(Refusal(r, f).value)
    else Next(Accept(r, f))
  }

  /** dtls1_get_message: the next message, if it is complete. */
  function Ready(r: Ring): Option<Partial>
    requires |r.slots| == MAX_FLIGHT
  {
    var p := r.At(r.readSeq);
    if p.Some? && p.value.Complete() then p else None
  }

  /** dtls1_next_message: drops the message handed up. */
  function Popped(r: Ring): Ring
    requires |r.slots| == MAX_FLIGHT
  {
    Ring(r.readSeq + 1, r.slots[r.readSeq % 7 := None])
  }

  /** Accepting a fragment keeps every slot's message number congruent to the slot and in the
      window, and never takes back a complete message. */
  lemma AcceptKeepsRing(r: Ring, f: Fragment)
    requires r.Valid() && r.readSeq <= f.seqNum && Refusal(r, f) == None && f.off + |f.body| <= f.msgLen
    ensures Accept(r, f).Valid()
    ensures Ready(r).Some? ==> Ready(Accept(r, f)) == Ready(r)
  {
    var r' := Accept(r, f);
    forall i | 0 <= i < MAX_FLIGHT
      ensures r'.SlotValid(i)
    {
      assert r.SlotValid(i);
      if i == f.seqNum % 7 {
        SlotMatches(r, f.seqNum);
      }
    }
  }

  /** An occupied slot holds the very message a fragment in the window belongs to. */
  lemma SlotMatches(r: Ring, s: nat)
    requires r.Valid() && r.readSeq <= s < r.readSeq + MAX_FLIGHT
    ensures r.At(s).Some? ==> r.At(s).value.seqNum == s
  {
    assert r.SlotValid(s % 7);
    if r.At(s).Some? {
      SameWindow(r.At(s).value.seqNum, s, r.readSeq);
    }
  }

  /** Every delivery keeps the ring. */
  lemma DeliverKeepsRing(r: Ring, encrypted: bool, maxLen: nat, f: Fragment)
    requires r.Valid()
    ensures Deliver(r, encrypted, maxLen, f).Next? ==> Deliver(r, encrypted, maxLen, f).ring.Valid()
  {
    if Deliver(r, encrypted, maxLen, f) == Next(Accept(r, f)) && f.seqNum >= r.readSeq && Refusal(r, f) == None {
      AcceptKeepsRing(r, f);
    }
  }

  lemma SameWindow(s: nat, t: nat, lo: nat)
    requires lo <= s < lo + 7 && lo <= t < lo + 7 && s % 7 == t % 7
    ensures s == t
  {
  }

  /** The message handed up is always the one expected, and dropping it moves the window on. */
  lemma PopKeepsRing(r: Ring)
    requires r.Valid() && Ready(r).Some?
    ensures Ready(r).value.seqNum == r.readSeq && Popped(r).Valid()
  {
    assert r.SlotValid(r.readSeq % 7);
    SameWindow(Ready(r).value.seqNum, r.readSeq, r.readSeq);
    forall i | 0 <= i < MAX_FLIGHT
      ensures Popped(r).SlotValid(i)
    {
      assert r.SlotValid(i);
    }
  }

  /** The fragments of one record, in order. */
  function DeliverAll(r: Ring, encrypted: bool, maxLen: nat, record: seq<byte>): Outcome
    requires |r.slots| == MAX_FLIGHT
    decreases |record|
  {
    if record == [] then Next(r)
    else
      match ParseFragment(record)
      case Malformed => Fatal(DecodeError)
      case Parsed(f, rest) =>
        match Deliver(r, encrypted, maxLen, f)
        case Fatal(a) => Fatal(a)
        case Next(r') => DeliverAll(r', encrypted, maxLen, rest)
  }

  /** The receiving half of DTLS1_STATE. */
  class Receiver {
    var incoming: seq<HmFragment?>
    var readSeq: nat
    var hasMessage: bool
    ghost var ring: Ring
    ghost var Repr: set<object>

    ghost predicate Valid()
      reads this, Repr
    {
      && this in Repr && |incoming| == MAX_FLIGHT && ring.Valid() && ring.readSeq == readSeq
      && (forall i :: 0 <= i < MAX_FLIGHT ==> SlotIs(i, incoming[i]))
      && (forall i, j :: 0 <= i < j < MAX_FLIGHT && incoming[i] != null && incoming[j] != null ==>
            incoming[i].Repr !! incoming[j].Repr)
      && (hasMessage ==> Ready(ring).Some?)
    }

    /** Slot i of the ring says what the fragment in it holds. */
    ghost predicate SlotIs(i: nat, frag: HmFragment?)
      requires i < |ring.slots|
      reads this, Repr
    {
      if frag == null then ring.slots[i] == None
      else
        && frag in Repr && frag.Repr <= Repr && this !in frag.Repr
        && frag.Valid() && ring.slots[i] == Some(frag.Now())
    }

    constructor ()
      ensures Valid() && fresh(Repr) && ring == Ring(0, seq(MAX_FLIGHT, _ => None)) && !hasMessage
    {
      incoming := seq(MAX_FLIGHT, _ => null);
      readSeq, hasMessage := 0, false;
      ring, Repr := Ring(0, seq(MAX_FLIGHT, _ => None)), {this};
    }

    /** dtls1_get_incoming_message: the message the fragment belongs to, new if it is the first
        heard of it. */
    method GetIncomingMessage(f: Fragment) returns (frag: HmFragment?, alert: Alert)
      requires Valid() && Encodable(f) && f.seqNum >= readSeq
      modifies this`incoming, this`ring, this`Repr
      ensures Valid() && fresh(Repr - old(Repr)) && ring.readSeq == old(ring.readSeq)
      ensures frag == null ==> ring == old(ring) && Refusal(old(ring), f) == Some(alert)
      ensures frag != null ==> Refusal(old(ring), f) == None
      ensures frag != null ==> frag == incoming[f.seqNum % 7] && frag.typ == f.typ && frag.msgLen == f.msgLen
      ensures frag != null ==>
                var p := old(ring).At(f.seqNum).GetOr(Blank(f));
                ring == old(ring).(slots := old(ring).slots[f.seqNum % 7 := Some(p)])
    {
      if f.seqNum - readSeq >= MAX_FLIGHT {
        return null, InternalError;
      }
      var idx := f.seqNum % 7;
      frag, alert := incoming[idx], IllegalParameter;
      assert SlotIs(idx, frag);
      SlotMatches(ring, f.seqNum);
      if frag != null {
        if frag.typ != f.typ || frag.msgLen != f.msgLen {
          return null, IllegalParameter;
        }
        return;
      }
      frag := new HmFragment(f);
      ghost var before := ring;
      incoming := incoming[idx := frag];
      ring := ring.(slots := ring.slots[idx := Some(Blank(f))]);
      Repr := Repr + frag.Repr;
      forall i | 0 <= i < MAX_FLIGHT
        ensures ring.SlotValid(i) && SlotIs(i, incoming[i])
      {
        assert before.SlotValid(i);
      }
    }

    /** One round of the loop of dtls1_open_handshake, after the fragment was parsed. */
    method DeliverFragment(f: Fragment, encrypted: bool, maxLen: nat) returns (ok: bool, alert: Alert)
      requires Valid() && Encodable(f)
      modifies Repr
      ensures Valid() && fresh(Repr - old(Repr))
      ensures Deliver(old(ring), encrypted, maxLen, f) == if ok then Next(ring) else Fatal(alert)
    {
      ok, alert := false, IllegalParameter;
      if f.off > f.msgLen || f.off + |f.body| > f.msgLen || f.msgLen > maxLen {
        return;
      }
      if encrypted && f.seqNum != readSeq {
        return false, UnexpectedMessage;
      }
      if f.seqNum < readSeq || f.seqNum > readSeq + MAX_FLIGHT {
        return true, alert;
      }
      ok, alert := AcceptFragment(f);
    }

    method AcceptFragment(f: Fragment) returns (ok: bool, alert: Alert)
      requires Valid() && Encodable(f) && f.off + |f.body| <= f.msgLen && readSeq <= f.seqNum
      modifies Repr
      ensures Valid() && fresh(Repr - old(Repr))
      ensures if ok then Refusal(old(ring), f) == None && ring == Accept(old(ring), f)
              else Refusal(old(ring), f) == Some(alert)
    {
      hide Added, Piece, Ready;
      ghost var before := ring;
      var frag;
      frag, alert := GetIncomingMessage(f);
      if frag == null {
        return false, alert;
      }
      ghost var idx := f.seqNum % 7;
      AcceptKeepsRing(before, f);
      assert SlotIs(idx, frag);
      frag.Receive(f);
      ring := Accept(before, f);
      forall i | 0 <= i < MAX_FLIGHT
        ensures SlotIs(i, incoming[i])
      {
        if i != idx {
          assert incoming[i] != null ==> incoming[i].Repr !! frag.Repr;
        }
      }
      ok := true;
    }

    /** The handshake branch of dtls1_open_handshake: all fragments in a record. */
    method DeliverRecord(record: seq<byte>, encrypted: bool, maxLen: nat) returns (ok: bool, alert: Alert)
      requires Valid()
      modifies Repr
      ensures Valid() && fresh(Repr - old(Repr))
      ensures DeliverAll(old(ring), encrypted, maxLen, record) == if ok then Next(ring) else Fatal(alert)
    {
      var cbs := record;
      while cbs != []
        invariant Valid() && fresh(Repr - old(Repr))
        invariant DeliverAll(old(ring), encrypted, maxLen, record) == DeliverAll(ring, encrypted, maxLen, cbs)
        decreases |cbs|
      {
        match ParseFragment(cbs) {
          case Malformed => return false, DecodeError;
          case Parsed(f, rest) =>
            SerializeParsed(cbs);
            ok, alert := DeliverFragment(f, encrypted, maxLen);
            if !ok {
              return;
            }
            cbs := rest;
        }
      }
      ok, alert := true, DecodeError;
    }

    /** dtls1_get_message. */
    method GetMessage() returns (ok: bool, typ: byte, body: seq<byte>)
      requires Valid()
      modifies this`hasMessage
      ensures Valid() && (ok ==> hasMessage)
      ensures ok <==> Ready(ring).Some?
      ensures ok ==> typ == Ready(ring).value.typ && body == Ready(ring).value.Body()
    {
      var frag := incoming[readSeq % 7];
      assert SlotIs(readSeq % 7, frag);
      if frag == null || frag.reassembly != null {
        return false, 0, [];
      }
      hasMessage := true;
      ok, typ, body := true, frag.typ, frag.data[HEADER_LENGTH..];
    }

    /** dtls1_next_message. */
    method NextMessage()
      requires Valid() && hasMessage
      modifies this
      ensures Valid() && Repr == old(Repr) && ring == Popped(old(ring)) && !hasMessage
    {
      PopKeepsRing(ring);
      ghost var before := ring;
      incoming := incoming[readSeq % 7 := null];
      ring := Popped(ring);
      readSeq := readSeq + 1;
      hasMessage := false;
      forall i | 0 <= i < MAX_FLIGHT
        ensures SlotIs(i, incoming[i])
      {
        assert i != before.readSeq % 7 ==> ring.slots[i] == before.slots[i];
      }
    }

    /** dtls_has_unprocessed_handshake_data, apart from a pending ChangeCipherSpec. */
    method HasUnprocessed() returns (yes: bool)
      requires Valid()
      ensures yes <==> exists i :: 0 <= i < MAX_FLIGHT && ring.slots[i].Some? && !(hasMessage && i == readSeq % 7)
    {
      var i := 0;
      while i < MAX_FLIGHT
        invariant i <= MAX_FLIGHT
        invariant forall j :: 0 <= j < i && ring.slots[j].Some? ==> hasMessage && j == readSeq % 7
      {
        assert SlotIs(i, incoming[i]);
        if incoming[i] != null && !(hasMessage && i == readSeq % 7) {
          return true;
        }
        i := i + 1;
      }
      return false;
    }
  }
}
