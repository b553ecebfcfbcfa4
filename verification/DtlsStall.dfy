/** A flight whose sealing fails in the middle of a packet, and how it recovers. */
module DtlsStall {
  import opened Wrappers
  import opened Bits
  import opened AeadNonce
  import opened DtlsSeal
  import opened DtlsSend
  import F = DtlsFragment

  /** A ChangeCipherSpec in epoch 0 and a message in epoch 1. */
  predicate LastFlight(messages: seq<OutMessage>) {
    && |messages| == 2 && messages[0].isCcs && messages[0].epoch == 0
    && !messages[1].isCcs && messages[1].epoch == 1 && Whole(messages[1]).Some?
  }

  /** Without records of epoch 1 a flight gets no further than past the ChangeCipherSpec. */
  lemma {:induction false} OnlyFirst(messages: seq<OutMessage>, rs: seq<Record>)
    requires LastFlight(messages) && Follow(messages, Pos(0, 0), rs).Some?
    requires forall i :: 0 <= i < |rs| ==> rs[i].epoch != 1
    ensures var q := Follow(messages, Pos(0, 0), rs).value;
            (rs == [] && q == Pos(0, 0)) || (|rs| == 1 && q == Pos(1, 0) && |rs[0].payload| == 1)
    decreases |rs|
  {
    hide F.Serialize, Whole;
    if rs != [] {
      OnlyFirst(messages, rs[..|rs| - 1]);
    }
  }

  function Rank(messages: seq<OutMessage>, q: Pos): nat
    requires |messages| == 2
  {
    if q.written == 0 then 0 else if q.written == 1 then 1 + q.offset else 2 + BodyLen(messages[1])
  }

  /** Each record gets the flight on by at least one byte or message. */
  lemma {:induction false} RecordsBound(messages: seq<OutMessage>, rs: seq<Record>)
    requires LastFlight(messages) && Follow(messages, Pos(0, 0), rs).Some?
    ensures var q := Follow(messages, Pos(0, 0), rs).value;
            && |rs| <= Rank(messages, q) && q.written <= 2
            && (q.written == 0 ==> q.offset == 0) && (q.written == 1 ==> q.offset <= BodyLen(messages[1]))
    decreases |rs|
  {
    hide F.Serialize, Whole;
    if rs != [] {
      RecordsBound(messages, rs[..|rs| - 1]);
    }
  }

  lemma {:induction false} LastIsSmall(packets: seq<seq<Record>>, overhead: nat)
    requires |Flat(packets)| <= 1 && Within(Flat(packets), overhead)
    requires forall i :: 0 <= i < |Flat(packets)| ==> |Flat(packets)[i].payload| == 1
    ensures packets != [] ==> Size(packets[|packets| - 1]) <= 1 + overhead
  {
    if packets != [] {
      var last := packets[|packets| - 1];
      assert Flat(packets) == Flat(packets[..|packets| - 1]) + last;
      if last != [] {
        assert last == [Flat(packets)[|Flat(packets)| - 1]] && last[..0] == [];
      }
    }
  }

  /** The keys leave room for a message in a packet of the usual size. */
  ghost predicate Roomy(s: Sender)
    requires s.Valid()
    reads s, s.writer, s.writer.writeSequence, s.writer.lastWriteSequence
  {
    s.mtu == DEFAULT_MTU && s.Widest() <= 200 && s.writer.writeEpoch == 1
  }

  /** With a roomy packet, a fresh counter and an AEAD that seals it the next message can go out. */
  lemma {:induction false} NotStuck(s: Sender, refuses: Refusals, unsent: seq<Record>)
    requires s.Valid() && LastFlight(s.messages) && Roomy(s) && |s.writer.history| <= MAX_SEQ
    requires s.written < 2 ==> !refuses(s.messages[s.written].epoch, s.writer.Counter(s.written == 0))
    ensures !s.Stuck(refuses, unsent)
  {
    hide WriterAfter, AllWf, Overhead, Whole;
    EndIsFar(s.writer.first, s.writer.history);
  }

  /** Before the AEAD refuses the second message nothing has gone out, and one record is sealed. */
  lemma {:induction false} OneUnsent(s: Sender, sent: Report, refuses: Refusals)
    requires s.Valid() && LastFlight(s.messages) && Roomy(s) && |s.writer.history| <= |sent.Records()| + 2
    requires Delivers(s.messages, Pos(0, 0), sent, s.Now(), s.mtu, refuses, s.Widest())
    requires forall e, n :: refuses(e, n) <==> e == 1
    requires s.Stuck(refuses, sent.unsent) && s.Crammed(sent.taken, sent.packets, s.mtu)
    ensures sent.packets == [] && sent.taken == Pos(0, 0) && |sent.unsent| == |sent.Records()| == 1
            && s.Now() == Pos(1, 0)
  {
    hide Follow, Whole, WriterAfter, AllWf, Overhead, RecordWriter.Valid, RecordWriter.Uses;
    s.KeysKnown();
    FollowConcat(s.messages, Pos(0, 0), Flat(sent.packets), sent.unsent);
    assert forall i :: 0 <= i < |Flat(sent.packets)| ==> sent.Records()[i] == Flat(sent.packets)[i];
    OnlyFirst(s.messages, sent.Records());
    OnlyFirst(s.messages, Flat(sent.packets));
    if s.Now() == Pos(0, 0) {
      NotStuck(s, refuses, sent.unsent);
    }
    LastIsSmall(sent.packets, s.Widest());
    NoRoomIsSmall(s, sent.taken, sent.packets);
    assert Flat([]) == [];
    NothingSent(s.messages, Pos(0, 0));
  }

  lemma {:induction false} NoRoomIsSmall(s: Sender, p: Pos, packets: seq<seq<Record>>)
    requires s.Valid() && LastFlight(s.messages) && Roomy(s) && p.written < 2
    requires packets != [] ==> Size(packets[|packets| - 1]) <= 201
    requires s.Crammed(p, packets, s.mtu)
    ensures packets == []
  {
    hide Overhead, Size, Whole, RecordWriter.Valid;
    s.KeysKnown();
  }

  /** A client's last flight, not yet sent. */
  method BuildFlight(first: Aead, second: Aead, body: seq<byte>) returns (s: Sender)
    requires first.Wf() && second.Wf() && Overhead(first) <= 200 && Overhead(second) <= 200 && |body| < 0x100_0000
    ensures fresh(s) && fresh(s.writer) && fresh(s.writer.writeSequence) && fresh(s.writer.lastWriteSequence)
    ensures s.Valid() && LastFlight(s.messages) && Roomy(s) && |s.writer.history| == 1
            && BodyLen(s.messages[1]) == |body|
    ensures s.wire == [] && s.Now() == Pos(0, 0)
  {
    hide F.Serialize, F.ParseFragment, WriterAfter, AllWf, Overhead, RecordWriter.Valid, RecordWriter.Counter,
      RecordWriter.Uses,
      RecordWriter.Holds;
    var writer := new RecordWriter(first);
    s := new Sender(writer);
    var added := s.AddOutgoing(true, []);
    writer.SetWriteState(second);
    var built, data := s.BuildMessage(20, body);
    added := s.AddOutgoing(false, data);
    s.mtu := DEFAULT_MTU;
  }

  /** The AEAD seals the ChangeCipherSpec of that flight but not the message after it. The call
      fails, nothing went out, and yet the position is past the ChangeCipherSpec. */
  method SealFailsInPacket(first: Aead, second: Aead, body: seq<byte>) returns (s: Sender)
    requires first.Wf() && second.Wf() && Overhead(first) <= 200 && Overhead(second) <= 200 && |body| < 0x100_0000
    ensures fresh(s) && fresh(s.writer) && fresh(s.writer.writeSequence) && fresh(s.writer.lastWriteSequence)
    ensures s.Valid() && LastFlight(s.messages) && Roomy(s) && |s.writer.history| <= 3
            && BodyLen(s.messages[1]) == |body|
    ensures s.wire == [] && s.Now() == Pos(1, 0)
  {
    hide F.Serialize, F.ParseFragment, RecordWriter.Valid, RecordWriter.Uses, Follow, Flat, Delivers, Overhead, Whole,
      BodyLen,
      Sender.Stuck, Sender.Crammed;
    s := BuildFlight(first, second, body);
    var refuses := (epoch: nat, n: nat) => epoch == 1;
    var result, sent := s.FlushFlight(false, true, 0, refuses, true);
    if result == Sent {
      SentIsRefused(s, sent, refuses);
    }
    OneUnsent(s, sent, refuses);
  }

  lemma {:induction false} SentIsRefused(s: Sender, sent: Report, refuses: Refusals)
    requires LastFlight(s.messages) && forall e, n :: refuses(e, n) <==> e == 1
    requires Delivers(s.messages, Pos(0, 0), sent, s.Now(), s.mtu, refuses, s.Widest())
    ensures s.written < 2
  {
    hide Follow, Whole;
    FollowConcat(s.messages, Pos(0, 0), Flat(sent.packets), sent.unsent);
    OnlyFirst(s.messages, sent.Records());
  }

  /** Going back to the start, a retransmission puts the whole flight on the wire. */
  method RetransmitRecovers(first: Aead, second: Aead, body: seq<byte>) returns (s: Sender)
    requires first.Wf() && second.Wf() && Overhead(first) <= 200 && Overhead(second) <= 200 && |body| < 0x100_0000
    ensures fresh(s) && LastFlight(s.messages) && BodyLen(s.messages[1]) == |body|
    ensures Follow(s.messages, Pos(0, 0), Flat(s.wire)) == Some(Pos(2, 0))
  {
    hide F.Serialize, F.ParseFragment, WriterAfter, AllWf, Follow, Flat, Overhead, Sender.Stuck, Sender.Crammed;
    s := SealFailsInPacket(first, second, body);
    var refuses := (epoch: nat, n: nat) => false;
    var result, sent := s.Retransmit(false, true, 0, refuses, true);
    FollowConcat(s.messages, Pos(0, 0), Flat(sent.packets), sent.unsent);
    RecordsBound(s.messages, sent.Records());
    if result == Failed {
      NotStuck(s, refuses, sent.unsent);
    }
    assert [] + sent.packets == sent.packets;
    NothingSent(s.messages, sent.taken);
  }
}
