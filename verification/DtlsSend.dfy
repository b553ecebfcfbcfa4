/** Sending a flight of handshake messages over DTLS: fragmentation, packing, rollback on a
    blocked write, retransmission (RFC 6347, sections 4.2.3 and 4.2.4). */
module DtlsSend {
  import opened Wrappers
  import opened Bits
  import opened Wire
  import opened AeadNonce
  import opened DtlsSeal
  import F = DtlsFragment

  const MIN_MTU: nat := 228
  const DEFAULT_MTU: nat := 1472
  const MAX_FLIGHT: nat := 7
  const RT_CHANGE_CIPHER_SPEC: byte := 20
  const RT_HANDSHAKE: byte := 22
  const MT_CCS: byte := 1

  /** DTLS_OUTGOING_MESSAGE: a handshake message serialised as a single fragment, or a
      ChangeCipherSpec, and the epoch it is to be sent in. */
  datatype OutMessage = OutMessage(data: seq<byte>, epoch: nat, isCcs: bool)

  /** The message in a buffer, if it is a whole one. */
  function Whole(m: OutMessage): Option<F.Fragment> {
    match F.ParseFragment(m.data)
    case Malformed => None
    case Parsed(f, rest) => if f.off == 0 && f.msgLen == |f.body| && rest == [] then Some(f) else None
  }

  function BodyLen(m: OutMessage): nat {
    if m.isCcs || Whole(m).None? then 0 else |Whole(m).value.body|
  }

  /** How far a flight has been written: messages, and bytes of the next one's body. */
  datatype Pos = Pos(written: nat, offset: nat) {
    predicate Valid(messages: seq<OutMessage>) {
      && written <= |messages|
      && (offset == 0 || (written < |messages| && offset < BodyLen(messages[written])))
    }

    predicate Before(p: Pos) {
      written < p.written || (written == p.written && offset < p.offset)
    }
  }

  /** The piece of a message from `off` on, n bytes long. */
  function Slice(f: F.Fragment, off: nat, n: nat): F.Fragment
    requires off + n <= |f.body|
  {
    f.(off := off, body := f.body[off..off + n])
  }

  /** Where a record leads that carries what comes next at p, in the epoch of that message: a
      ChangeCipherSpec, or a piece of the message that starts exactly at the offset and is empty
      only if nothing is left. */
  function Advance(messages: seq<OutMessage>, p: Pos, r: Record): Option<Pos> {
    if p.written >= |messages| then None
    else
      var m := messages[p.written];
      if r.epoch != m.epoch then None
      else if m.isCcs then
        if r.typ == RT_CHANGE_CIPHER_SPEC && r.payload == [MT_CCS] then Some(Pos(p.written + 1, 0)) else None
      else
        var n := |r.payload| - F.HEADER_LENGTH;
        if Whole(m).None? || n < 0 || p.offset + n > BodyLen(m) || (n == 0 && p.offset < BodyLen(m)) then None
        else if r.typ != RT_HANDSHAKE || r.payload != F.Serialize(Slice(Whole(m).value, p.offset, n)) then None
        else if p.offset + n == BodyLen(m) then Some(Pos(p.written + 1, 0))
        else Some(Pos(p.written, p.offset + n))
  }

  /** Where a sequence of records leads. */
  function Follow(messages: seq<OutMessage>, p: Pos, rs: seq<Record>): Option<Pos> {
    if rs == [] then Some(p)
    else
      match Follow(messages, p, rs[..|rs| - 1])
      case None => None
      case Some(q) => Advance(messages, q, rs[|rs| - 1])
  }

  lemma AdvanceCcs(messages: seq<OutMessage>, p: Pos, r: Record)
    requires p.written < |messages| && messages[p.written].isCcs && r.epoch == messages[p.written].epoch
    requires r.typ == RT_CHANGE_CIPHER_SPEC && r.payload == [MT_CCS]
    ensures Advance(messages, p, r) == Some(Pos(p.written + 1, 0))
  {
  }

  lemma {:induction false} AdvancePiece(messages: seq<OutMessage>, p: Pos, r: Record, n: nat)
    requires p.written < |messages| && !messages[p.written].isCcs && r.epoch == messages[p.written].epoch
    requires Whole(messages[p.written]).Some? && p.offset + n <= BodyLen(messages[p.written])
    requires n > 0 || p.offset == BodyLen(messages[p.written])
    requires r.typ == RT_HANDSHAKE && r.payload == F.Serialize(Slice(Whole(messages[p.written]).value, p.offset, n))
    ensures Advance(messages, p, r) ==
            var all := p.offset + n == BodyLen(messages[p.written]);
            Some(if all then Pos(p.written + 1, 0) else Pos(p.written, p.offset + n))
  {
    hide F.ParseFragment;
  }

  /** Records are as long as their overhead says at most, and longer than what they carry. */
  lemma SizeWithin(a: Aead, len: nat, tagLen: nat)
    requires tagLen <= MaxTag(a)
    ensures Prefix(a) <= Overhead(a) && len < RecordSize(a, len, tagLen) <= len + Overhead(a)
  {
  }

  lemma {:induction false} FollowConcat(messages: seq<OutMessage>, p: Pos, a: seq<Record>, b: seq<Record>)
    requires Follow(messages, p, a).Some?
    ensures Follow(messages, p, a + b) == Follow(messages, Follow(messages, p, a).value, b)
  {
    hide Advance;
    if b == [] {
      assert a + b == a;
    } else {
      FollowConcat(messages, p, a, b[..|b| - 1]);
      assert (a + b)[..|a + b| - 1] == a + b[..|b| - 1];
    }
  }

  function Size(packet: seq<Record>): nat {
    if packet == [] then 0 else Size(packet[..|packet| - 1]) + packet[|packet| - 1].size
  }

  /** All records of a sequence of packets. */
  function Flat(packets: seq<seq<Record>>): seq<Record> {
    if packets == [] then [] else Flat(packets[..|packets| - 1]) + packets[|packets| - 1]
  }

  function MaxTag(a: Aead): nat {
    if a.nullCipher then 0 else a.maxTag
  }

  datatype SealResult = SealError | NoProgress | PartialMessage | WholeMessage

  datatype FlightResult = Sent | Blocked | Failed

  /** The sending half of DTLS1_STATE. */
  class Sender {
    const writer: RecordWriter
    var messages: seq<OutMessage>
    var written: nat
    var offset: nat
    var complete: bool
    var writeSeq: nat
    var mtu: nat
    /** The packets the transport has accepted. */
    ghost var wire: seq<seq<Record>>

    ghost predicate Valid()
      reads this, writer, writer.writeSequence, writer.lastWriteSequence
    {
      && writer.Valid() && Now().Valid(messages) && |messages| <= MAX_FLIGHT
    }

    function Now(): Pos
      reads this
    {
      Pos(written, offset)
    }

    constructor (writer: RecordWriter)
      requires writer.Valid()
      ensures Valid() && this.writer == writer && messages == [] && wire == [] && writeSeq == 0
      ensures !complete && Now() == Pos(0, 0)
    {
      this.writer := writer;
      messages, written, offset, complete, writeSeq, mtu, wire := [], 0, 0, false, 0, 0, [];
    }

    /** dtls1_init_message and dtls1_finish_message: the header is written with an empty total
        length, which is then copied from the fragment length. */
    method BuildMessage(typ: byte, body: seq<byte>) returns (ok: bool, data: seq<byte>)
      ensures ok <==> |body| < 0x100_0000 && writeSeq < 0x1_0000
      ensures ok ==> data == F.Serialize(F.Fragment(typ, |body|, writeSeq, 0, body))
      ensures ok ==> Whole(OutMessage(data, 0, false)) == Some(F.Fragment(typ, |body|, writeSeq, 0, body))
    {
      if |body| >= 0x100_0000 || writeSeq >= 0x1_0000 {
        return false, [];
      }
      data := F.Serialize(F.Fragment(typ, 0, writeSeq, 0, body));
      FixUpHeader(typ, writeSeq, body);
      data := data[..1] + data[9..12] + data[4..];
      ok := true;
    }

    /** add_outgoing. */
    method AddOutgoing(isCcs: bool, data: seq<byte>) returns (ok: bool)
      requires Valid()
      modifies this
      ensures Valid() && wire == old(wire)
      ensures ok <==> old(complete) || |old(messages)| < MAX_FLIGHT
      ensures ok ==>
                messages == (if old(complete) then [] else old(messages)) + [OutMessage(data, writer.writeEpoch, isCcs)]
      ensures ok ==> writeSeq == old(writeSeq) + if isCcs then 0 else 1
      ensures ok ==> !complete && Now() == if old(complete) then Pos(0, 0) else old(Now())
      ensures !ok ==> messages == old(messages) && Now() == old(Now()) && writeSeq == old(writeSeq)
    {
      if complete {
        messages, written, offset, complete := [], 0, 0, false;
      }
      if |messages| >= MAX_FLIGHT {
        return false;
      }
      if !isCcs {
        writeSeq := writeSeq + 1;
      }
      messages := messages + [OutMessage(data, writer.writeEpoch, isCcs)];
      return true;
    }

    /** dtls1_update_mtu; the transport may be asked for its MTU. */
    method UpdateMtu(noQuery: bool, queried: int)
      requires noQuery ==> mtu >= MIN_MTU
      modifies this`mtu
      ensures mtu >= MIN_MTU && (old(mtu) >= MIN_MTU ==> mtu == old(mtu))
    {
      if mtu < MIN_MTU && !noQuery {
        mtu := if 0 <= queried <= 0x4000_0000 && queried >= MIN_MTU then queried else DEFAULT_MTU;
      }
    }

    /** The key a message is to be sealed with, if its epoch is the current or previous one. */
    function KeyFor(m: OutMessage): Option<Aead>
      requires writer.writeEpoch >= 1 ==> writer.lastAead.Some?
      reads writer`writeEpoch, writer`aead, writer`lastAead
    {
      if writer.writeEpoch >= 1 && m.epoch == writer.writeEpoch - 1 then writer.lastAead
      else if m.epoch == writer.writeEpoch then Some(writer.aead)
      else None
    }

    /** There is no room for even one byte of a message, or for the ChangeCipherSpec. */
    ghost predicate NoRoom(m: OutMessage, room: nat)
      requires writer.writeEpoch >= 1 ==> writer.lastAead.Some?
      reads writer`writeEpoch, writer`aead, writer`lastAead
    {
      KeyFor(m).Some? && room < (if m.isCcs then 1 else F.HEADER_LENGTH + 1) + Overhead(KeyFor(m).value)
    }

    lemma KeysKnown()
      requires Valid()
      ensures writer.writeEpoch >= 1 ==> writer.lastAead.Some?
      ensures writer.writeSequence.Length == 8 == writer.lastWriteSequence.Length
    {
    }

    /** The greater overhead of the two keys. */
    ghost function Widest(): nat
      reads writer`writeEpoch, writer`aead, writer`lastAead
    {
      if writer.lastAead.Some? && Overhead(writer.lastAead.value) > Overhead(writer.aead)
      then Overhead(writer.lastAead.value) else Overhead(writer.aead)
    }

    /** The last packet left no room for any of the message at p. */
    ghost predicate Crammed(p: Pos, packets: seq<seq<Record>>, room: nat)
      requires writer.writeEpoch >= 1 ==> writer.lastAead.Some?
      reads this`messages, writer`writeEpoch, writer`aead, writer`lastAead
    {
      packets != [] && p.written < |messages| ==>
        Size(packets[|packets| - 1]) <= room && NoRoom(messages[p.written], room - Size(packets[|packets| - 1]))
    }

    lemma StartsCrammed(p: Pos, room: nat)
      requires Valid()
      ensures Crammed(p, [], room)
    {
    }

    lemma StaysCrammed(packets: seq<seq<Record>>, packet: seq<Record>, room: nat)
      requires Valid() && Size(packet) <= room
      requires written == |messages| || NoRoom(messages[written], room - Size(packet))
      ensures Crammed(Now(), packets + [packet], room)
    {
    }

    /** Why a flight cannot go on: the next message cannot be sealed, or not even one byte of it
        fits an empty packet. */
    ghost predicate Stuck(refuses: Refusals, unsent: seq<Record>)
      requires Valid()
      reads this, writer, writer.writeSequence, writer.lastWriteSequence
    {
      Unsealable(refuses, mtu) || (unsent == [] && written < |messages| && NoRoom(messages[written], mtu))
    }

    /** What makes sealing the next message fail: no key, no whole message, an AEAD that refuses,
        a counter at its end, or so much room that the record's length would not fit its field. */
    ghost predicate Unsealable(refuses: Refusals, room: nat)
      requires Valid()
      reads this, writer, writer.writeSequence, writer.lastWriteSequence
    {
      && written < |messages|
      && var m := messages[written];
         || KeyFor(m).None? || (!m.isCcs && Whole(m).None?) || room > MAX_RECORD
         || refuses(m.epoch, writer.Counter(m.epoch != writer.writeEpoch)) || AtEnd(writer.Uses())
    }

    /** A message for which not one record can be sealed under number n: its epoch has no key, it is
        not whole, there is no room for a byte of it, the AEAD refuses it, or the number is the last. */
    ghost predicate Fails(m: OutMessage, room: nat, refuses: Refusals, n: nat)
      requires writer.writeEpoch >= 1 ==> writer.lastAead.Some?
      reads writer`writeEpoch, writer`aead, writer`lastAead
    {
      KeyFor(m).None? || (!m.isCcs && Whole(m).None?) || NoRoom(m, room) || refuses(m.epoch, n) || n == MAX_SEQ
    }

    /** The numbers that the next records of the current and the previous epoch take. */
    ghost function Numbers(): Numbering
      requires writer.writeSequence.Length == 8 == writer.lastWriteSequence.Length
      reads writer.writeSequence, writer.lastWriteSequence
    {
      Numbering(writer.Counter(false), writer.Counter(true))
    }

    ghost predicate NextFails(room: nat, refuses: Refusals)
      requires Valid() && written < |messages|
      reads this, writer, writer.writeSequence, writer.lastWriteSequence
    {
      Fails(messages[written], room, refuses, Numbers().In(messages[written].epoch, writer.writeEpoch))
    }

    /** Not one record can be sealed for the message at p under the numbers that are next once the
        packets are sealed. */
    ghost predicate FailsAt(p: Pos, packets: seq<seq<Record>>, room: nat, refuses: Refusals, before: Numbering)
      requires writer.writeEpoch >= 1 ==> writer.lastAead.Some?
      reads this`messages, writer`writeEpoch, writer`aead, writer`lastAead
    {
      && p.written < |messages|
      && var m := messages[p.written];
         Fails(m, room, refuses, before.Past(Flat(packets), writer.writeEpoch).In(m.epoch, writer.writeEpoch))
    }

    lemma FailsThere(packets: seq<seq<Record>>, refuses: Refusals, before: Numbering)
      requires Valid() && written < |messages| && Numbers() == before.Past(Flat(packets), writer.writeEpoch)
      ensures NextFails(mtu, refuses) == FailsAt(Now(), packets, mtu, refuses, before)
    {
    }

    /** The epoch and key of a message, as seal_next_message calls dtls_seal_record with them. It
        fails only if the AEAD refuses, the counter is at its end, or the length does not fit. */
    method SealAs(typ: byte, payload: seq<byte>, maxOut: nat, previous: bool, refuses: Refusals)
      returns (ok: bool, record: Record)
      requires Valid() && (previous ==> writer.writeEpoch >= 1)
      requires |payload| + Overhead(writer.WriteAead(previous)) <= maxOut
      modifies writer`history, writer.writeSequence, writer.lastWriteSequence
      ensures Valid() && Seals(old(writer.history), writer.history, 1)
      ensures var epoch := if previous then writer.writeEpoch - 1 else writer.writeEpoch;
              if ok then
                && record.typ == typ && record.payload == payload && record.epoch == epoch && !refuses(epoch, record.n)
                && record.size <= |payload| + Overhead(writer.WriteAead(previous))
                && record.size <= |payload| + Widest()
                && |payload| < record.size
              else refuses(epoch, writer.Counter(previous)) || AtEnd(writer.Uses()) || maxOut > MAX_RECORD
      ensures var epoch := if previous then writer.writeEpoch - 1 else writer.writeEpoch;
              maxOut <= MAX_RECORD ==>
                (ok <==> !refuses(epoch, old(writer.Counter(previous))) && old(writer.Counter(previous)) < MAX_SEQ)
      ensures ok ==> Numbers() == old(Numbers()).Next(previous) && record.n == old(writer.Counter(previous))
    {
      hide WriterAfter, AllWf, Overhead, Prefix, RecordSize, MaxTag;
      var ctx := writer.WriteAead(previous);
      var tagLen: nat :| tagLen <= MaxTag(ctx);
      SizeWithin(ctx, |payload|, tagLen);
      RunOneMore(writer.first, writer.history, Sealed(previous));
      var sealOk := !refuses(if previous then writer.writeEpoch - 1 else writer.writeEpoch, writer.Counter(previous));
      ok, record := writer.SealRecord(typ, payload, maxOut, previous, sealOk, tagLen);
    }

    lemma NextFailsIs(room: nat, refuses: Refusals)
      requires Valid() && written < |messages|
      ensures var m := messages[written];
              NextFails(room, refuses) <==>
                || KeyFor(m).None? || (!m.isCcs && Whole(m).None?) || NoRoom(m, room)
                || refuses(m.epoch, writer.Counter(m.epoch != writer.writeEpoch))
                || writer.Counter(m.epoch != writer.writeEpoch) == MAX_SEQ
    {
    }

    lemma KeyIs(m: OutMessage)
      requires Valid()
      ensures KeyFor(m) ==
              if writer.writeEpoch >= 1 && m.epoch == writer.writeEpoch - 1 then Some(writer.WriteAead(true))
              else if m.epoch == writer.writeEpoch then Some(writer.WriteAead(false))
              else None
    {
    }

    lemma WhyUnsealable(refuses: Refusals, room: nat)
      requires Valid() && written < |messages|
      ensures var m := messages[written];
              || KeyFor(m).None? || (!m.isCcs && Whole(m).None?) || room > MAX_RECORD
              || refuses(m.epoch, writer.Counter(m.epoch != writer.writeEpoch)) || AtEnd(writer.Uses()) ==>
                Unsealable(refuses, room)
    {
    }

    lemma NoRoomIs(m: OutMessage, room: nat)
      requires Valid() && KeyFor(m).Some?
      ensures NoRoom(m, room) <==> room < (if m.isCcs then 1 else F.HEADER_LENGTH + 1) + Overhead(KeyFor(m).value)
    {
    }

    /** seal_next_message. `refuses` says which records, by epoch and number, the AEAD does not seal. */
    method SealNextMessage(maxOut: nat, refuses: Refusals) returns (result: SealResult, record: Record)
      requires Valid() && written < |messages|
      modifies this`offset, writer`history, writer.writeSequence, writer.lastWriteSequence
      ensures writer.Valid() && Seals(old(writer.history), writer.history, 1)
      ensures result == PartialMessage ==> Valid() && Advance(messages, old(Now()), record) == Some(Now())
      ensures result == WholeMessage ==>
                offset == 0 && Advance(messages, old(Now()), record) == Some(Pos(written + 1, 0))
      ensures result == PartialMessage || result == WholeMessage ==>
                && KeyFor(messages[written]).Some? && record.size <= maxOut && !refuses(record.epoch, record.n)
                && record.size <= |record.payload| + Widest()
      ensures result == PartialMessage ==> maxOut < record.size + Overhead(KeyFor(messages[written]).value)
      ensures result == SealError || result == NoProgress ==> offset == old(offset) && Valid()
      ensures result == NoProgress ==>
                writer.history == old(writer.history) && Seals(old(writer.history), writer.history, 0)
      ensures result == NoProgress ==> NoRoom(messages[written], maxOut)
      ensures result == SealError ==> Unsealable(refuses, maxOut)
      ensures maxOut <= MAX_RECORD ==>
                (result == SealError || result == NoProgress <==> old(NextFails(maxOut, refuses)))
      ensures result == PartialMessage || result == WholeMessage ==>
                && record.epoch == messages[written].epoch
                && Numbers() == old(Numbers()).Next(record.epoch != writer.writeEpoch)
                && (record.epoch == writer.writeEpoch || record.epoch + 1 == writer.writeEpoch)
      ensures result == NoProgress ==> Numbers() == old(Numbers())
    {
      hide F.ParseFragment, F.Serialize, RecordWriter.Uses, RecordWriter.Valid, Overhead, Prefix, Advance, Whole,
        Widest, Seals, AtEnd,
        Fails, NextFails, NoRoom, Unsealable, Numbering.Next, KeyFor, RecordWriter.WriteAead, RecordWriter.Counter,
          Numbers;
      KeysKnown();
      KeyIs(messages[written]);
      NoSeals(writer.history);
      NextFailsIs(maxOut, refuses);
      var msg := messages[written];
      var previous := false;
      record := Record(RT_HANDSHAKE, 0, 0, [], 0);
      if writer.writeEpoch >= 1 && msg.epoch == writer.writeEpoch - 1 {
        previous := true;
      } else if msg.epoch != writer.writeEpoch {
        WhyUnsealable(refuses, maxOut);
        return SealError, record;
      }
      NoRoomIs(msg, maxOut);
      var ctx := writer.WriteAead(previous);
      var overhead, prefix := Overhead(ctx), Prefix(ctx);
      SizeWithin(ctx, 0, 0);
      var ok;
      if msg.isCcs {
        if maxOut < 1 + overhead {
          return NoProgress, record;
        }
        ok, record := SealAs(RT_CHANGE_CIPHER_SPEC, [MT_CCS], maxOut, previous, refuses);
        if !ok {
          WhyUnsealable(refuses, maxOut);
          return SealError, record;
        }
        AdvanceCcs(messages, Now(), record);
        return WholeMessage, record;
      }
      if Whole(msg).None? || offset > BodyLen(msg) {
        WhyUnsealable(refuses, maxOut);
        return SealError, record;
      }
      var f := Whole(msg).value;
      if maxOut < F.HEADER_LENGTH + 1 + overhead || maxOut < prefix {
        return NoProgress, record;
      }
      var left := |f.body| - offset;
      var todo := Least(left, maxOut - F.HEADER_LENGTH - overhead);
      ok, record := SealAs(RT_HANDSHAKE, F.Serialize(Slice(f, offset, todo)), maxOut, previous, refuses);
      if !ok {
        WhyUnsealable(refuses, maxOut);
        return SealError, record;
      }
      AdvancePiece(messages, Now(), record, todo);
      if todo == left {
        offset := 0;
        return WholeMessage, record;
      }
      offset := offset + todo;
      return PartialMessage, record;
    }

    lemma UnsealableInMore(refuses: Refusals, room: nat, more: nat)
      requires Valid() && Unsealable(refuses, room) && room <= more
      ensures Unsealable(refuses, more)
    {
    }

    lemma NoRoomBehind(m: OutMessage, room: nat)
      requires Valid() && KeyFor(m).Some? && room < Overhead(KeyFor(m).value)
      ensures NoRoom(m, room)
    {
    }

    /** seal_next_packet. Whatever it returns, the records it sealed lead from the old position to
        the new one. On success there is at least one, and no room for more; it fails only if the
        next message cannot be sealed, or there was no room for any of it. */
    method SealNextPacket(maxOut: nat, refuses: Refusals) returns (ok: bool, packet: seq<Record>)
      requires Valid() && written < |messages|
      modifies this`offset, this`written, writer`history, writer.writeSequence, writer.lastWriteSequence
      ensures Valid() && Seals(old(writer.history), writer.history, |packet| + if ok then 0 else 1)
      ensures Follow(messages, old(Now()), packet) == Some(Now()) && Size(packet) <= maxOut
              && NoneRefused(packet, refuses)
      ensures Within(packet, Widest())
      ensures maxOut <= MAX_RECORD ==> (packet == [] <==> old(NextFails(maxOut, refuses)))
      ensures ok ==> Numbers() == old(Numbers()).Past(packet, writer.writeEpoch)
      ensures ok ==> packet != [] && (written == |messages| || NoRoom(messages[written], maxOut - Size(packet)))
      ensures !ok ==>
                || Unsealable(refuses, maxOut)
                || (packet == [] && written < |messages| && NoRoom(messages[written], maxOut))
    {
      hide Advance, Follow, Size, RecordWriter.Valid, RecordWriter.Uses, NextFails, Numbering.Past, Numbering.Next,
        Unsealable, NoRoom, NoneRefused,
        Seals, Within, Widest, Overhead, Whole, BodyLen, KeyFor;
      NoSeals(writer.history);
      KeysKnown();
      ghost var start, numbers := Now(), Numbers();
      ghost var fails := NextFails(maxOut, refuses);
      NothingSent(messages, start);
      NothingRefused(refuses, Widest());
      PastNothing(numbers, writer.writeEpoch);
      packet := [];
      var room: nat := maxOut;
      while written < |messages|
        invariant Valid() && room + Size(packet) == maxOut && NoneRefused(packet, refuses)
        invariant Seals(old(writer.history), writer.history, |packet|) && Within(packet, Widest())
        invariant Follow(messages, start, packet) == Some(Now()) && Numbers() == numbers.Past(packet, writer.writeEpoch)
        invariant packet == [] ==> written < |messages| && NextFails(room, refuses) == fails
        invariant packet != [] && maxOut <= MAX_RECORD ==> !fails
        decreases |messages| - written
      {
        ghost var sealed := writer.history;
        var result, record := SealNextMessage(room, refuses);
        SealsThen(old(writer.history), sealed, writer.history, |packet|, if result == NoProgress then 0 else 1);
        match result {
          case SealError =>
            UnsealableInMore(refuses, room, maxOut);
            return false, packet;
          case NoProgress => return packet != [], packet;
          case PartialMessage =>
            Appended(messages, start, packet, record);
            PastOneMore(numbers, packet, record, writer.writeEpoch);
            OneMoreFits(packet, record, refuses, Widest());
            NoRoomBehind(messages[written], room - record.size);
            packet, room := packet + [record], room - record.size;
            return true, packet;
          case WholeMessage =>
            Appended(messages, start, packet, record);
            PastOneMore(numbers, packet, record, writer.writeEpoch);
            OneMoreFits(packet, record, refuses, Widest());
            packet, room := packet + [record], room - record.size;
            written := written + 1;
        }
      }
      ok := true;
    }

    /** One round of the loop of send_flight: a packet is sealed and given to the transport. If that
        refuses it, the position goes back. */
    method SendPacket(refuses: Refusals, accepts: bool) returns (result: FlightResult, ghost packet: seq<Record>)
      requires Valid() && written < |messages|
      modifies this`written, this`offset, this`wire
      modifies writer`history, writer.writeSequence, writer.lastWriteSequence
      ensures Valid() && Size(packet) <= mtu && NoneRefused(packet, refuses) && Within(packet, Widest())
      ensures Seals(old(writer.history), writer.history, |packet| + if result == Failed then 1 else 0)
      ensures if result == Blocked then Now() == old(Now()) else Follow(messages, old(Now()), packet) == Some(Now())
      ensures wire == if result == Sent then old(wire) + [packet] else old(wire)
      ensures result == Sent ==>
                packet != [] && (written == |messages| || NoRoom(messages[written], mtu - Size(packet)))
      ensures result == Blocked ==> !accepts
      ensures result == Failed ==> Stuck(refuses, packet)
      ensures result == Sent ==> Numbers() == old(Numbers()).Past(packet, writer.writeEpoch)
      ensures mtu <= MAX_RECORD ==> (packet == [] <==> old(NextFails(mtu, refuses)))
    {
      hide Follow, NextFails, Numbering.Past, Size, RecordWriter.Valid, RecordWriter.Uses, NoRoom, Seals, NoneRefused,
        Within, Widest;
      var oldWritten, oldOffset := written, offset;
      var ok;
      ok, packet := SealNextPacket(mtu, refuses);
      if !ok {
        return Failed, packet;
      }
      var accepted: bool :| accepts ==> accepted;
      if !accepted {
        written, offset := oldWritten, oldOffset;
        return Blocked, packet;
      }
      wire := wire + [packet];
      return Sent, packet;
    }

    /** send_flight. The transport takes or refuses each packet; a refused one is prepared anew
        the next time, from the same place but under fresh sequence numbers. What the transport has
        taken leads from the old position to `sent.taken`, and from there the unsent records of a
        packet that was not finished lead to the new position. It fails only if the connection is
        shut down, the next message cannot be sealed, or the MTU has no room for any of it. After a
        failure the position is where the transport has been brought exactly if the message there
        fails by itself, so that nothing was sealed before it. */
    method SendFlight(shutdown: bool, noQuery: bool, queried: int, refuses: Refusals, accepts: bool)
      returns (result: FlightResult, ghost sent: Report)
      requires Valid() && (noQuery ==> mtu >= MIN_MTU)
      modifies this`mtu, this`written, this`offset, this`wire
      modifies writer`history, writer.writeSequence, writer.lastWriteSequence
      ensures Valid() && wire == old(wire) + sent.packets && (!shutdown && old(mtu) >= MIN_MTU ==> mtu == old(mtu))
      ensures Delivers(messages, old(Now()), sent, Now(), mtu, refuses, Widest())
      ensures Seals(old(writer.history), writer.history, |writer.history|)
      ensures result != Blocked ==> Seals(old(writer.history), writer.history, |sent.Records()| + 1)
      ensures result == Sent ==> Now() == Pos(|messages|, 0)
      ensures result == Blocked ==> !accepts
      ensures result != Failed ==> sent.unsent == []
      ensures result == Failed && !shutdown ==> Stuck(refuses, sent.unsent) && Crammed(sent.taken, sent.packets, mtu)
      ensures result == Failed && !shutdown && mtu <= MAX_RECORD ==>
                var fails := FailsAt(sent.taken, sent.packets, mtu, refuses, old(Numbers()));
                (Now() == sent.taken <==> fails) && (sent.unsent == [] <==> fails)
    {
      hide Advance, Follow, Size, Flat, RecordWriter.Valid, RecordWriter.Uses, Delivers, NoRoom, Seals, Crammed,
        NoneRefused,
        Within, Widest, Unsealable, FailsAt;
      KeysKnown();
      ghost var start := Now();
      sent := Report([], start, []);
      NothingDelivered(messages, start, mtu, refuses, Widest(), writer.history);
      if shutdown {
        return Failed, sent;
      }
      UpdateMtu(noQuery, queried);
      NothingDelivered(messages, start, mtu, refuses, Widest(), writer.history);
      result, sent := SendPackets(refuses, accepts);
      if result == Sent {
        var flushed: bool :| accepts ==> flushed;
        result := if flushed then Sent else Blocked;
      }
    }

    /** The loop of send_flight. */
    method SendPackets(refuses: Refusals, accepts: bool) returns (result: FlightResult, ghost sent: Report)
      requires Valid()
      modifies this`written, this`offset, this`wire
      modifies writer`history, writer.writeSequence, writer.lastWriteSequence
      ensures Valid() && wire == old(wire) + sent.packets
      ensures Delivers(messages, old(Now()), sent, Now(), mtu, refuses, Widest())
      ensures Seals(old(writer.history), writer.history, |writer.history|)
      ensures result != Blocked ==> Seals(old(writer.history), writer.history, |sent.Records()| + 1)
      ensures result == Sent ==> Now() == Pos(|messages|, 0)
      ensures result == Blocked ==> !accepts
      ensures result != Failed ==> sent.unsent == []
      ensures result == Failed ==> Stuck(refuses, sent.unsent) && Crammed(sent.taken, sent.packets, mtu)
      ensures result == Failed && mtu <= MAX_RECORD ==>
                var fails := FailsAt(sent.taken, sent.packets, mtu, refuses, old(Numbers()));
                (Now() == sent.taken <==> fails) && (sent.unsent == [] <==> fails)
    {
      hide Advance, Follow, Size, Flat, RecordWriter.Valid, RecordWriter.Uses, Delivers, NoRoom, Seals, Crammed,
        NoneRefused,
        Within, Widest, Unsealable, Stuck, BodyLen, Whole, NextFails, FailsAt, Numbering.Past, RecordWriter.Counter;
      KeysKnown();
      ghost var numbers := Numbers();
      PastNothing(numbers, writer.writeEpoch);
      ghost var start := Now();
      sent := Report([], start, []);
      NothingDelivered(messages, start, mtu, refuses, Widest(), writer.history);
      StartsCrammed(start, mtu);
      NothingSent(messages, start);
      while written < |messages|
        invariant Valid() && wire == old(wire) + sent.packets && sent.unsent == [] && sent.taken == Now()
        invariant Crammed(Now(), sent.packets, mtu) && Seals(old(writer.history), writer.history, |Flat(sent.packets)|)
        invariant Delivers(messages, start, sent, Now(), mtu, refuses, Widest())
        invariant Numbers() == numbers.Past(Flat(sent.packets), writer.writeEpoch)
        decreases |messages| - written, if written < |messages| then BodyLen(messages[written]) - offset else 0
      {
        FailsThere(sent.packets, refuses, numbers);
        ghost var sealed := writer.history;
        ghost var packet;
        result, packet := SendPacket(refuses, accepts);
        SealsMore(old(writer.history), sealed, writer.history, sent.packets, packet, result != Failed);
        if result == Blocked {
          return;
        }
        OnePacketMore(messages, start, sent, packet, Now(), mtu, refuses, Widest());
        if result == Failed {
          RightIffNothingUnsent(messages, sent.taken, packet, Now());
          sent := sent.(unsent := packet);
          return;
        }
        StaysCrammed(sent.packets, packet, mtu);
        PastConcat(numbers, sent.packets, packet, writer.writeEpoch);
        sent := Report(sent.packets + [packet], Now(), []);
      }
      NoSeals(writer.history);
      SealsMore(old(writer.history), writer.history, writer.history, sent.packets, [], true);
      result := Sent;
    }

    /** dtls1_flush_flight. */
    method FlushFlight(shutdown: bool, noQuery: bool, queried: int, refuses: Refusals, accepts: bool)
      returns (result: FlightResult, ghost sent: Report)
      requires Valid() && (noQuery ==> mtu >= MIN_MTU)
      modifies this`mtu, this`written, this`offset, this`wire, this`complete
      modifies writer`history, writer.writeSequence, writer.lastWriteSequence
      ensures complete
      ensures Valid() && wire == old(wire) + sent.packets && (!shutdown && old(mtu) >= MIN_MTU ==> mtu == old(mtu))
      ensures Delivers(messages, old(Now()), sent, Now(), mtu, refuses, Widest())
      ensures Seals(old(writer.history), writer.history, |writer.history|)
      ensures result != Blocked ==> Seals(old(writer.history), writer.history, |sent.Records()| + 1)
      ensures result == Sent ==> Now() == Pos(|messages|, 0)
      ensures result == Blocked ==> !accepts
      ensures result != Failed ==> sent.unsent == []
      ensures result == Failed && !shutdown ==> Stuck(refuses, sent.unsent) && Crammed(sent.taken, sent.packets, mtu)
      ensures result == Failed && !shutdown && mtu <= MAX_RECORD ==>
                var fails := FailsAt(sent.taken, sent.packets, mtu, refuses, old(Numbers()));
                (Now() == sent.taken <==> fails) && (sent.unsent == [] <==> fails)
    {
      complete := true;
      result, sent := SendFlight(shutdown, noQuery, queried, refuses, accepts);
    }

    /** dtls1_retransmit_outgoing_messages: the whole flight once more, wherever an earlier call
        left the position. */
    method Retransmit(shutdown: bool, noQuery: bool, queried: int, refuses: Refusals, accepts: bool)
      returns (result: FlightResult, ghost sent: Report)
      requires Valid() && (noQuery ==> mtu >= MIN_MTU)
      modifies this`mtu, this`written, this`offset, this`wire
      modifies writer`history, writer.writeSequence, writer.lastWriteSequence
      ensures Valid() && wire == old(wire) + sent.packets && (!shutdown && old(mtu) >= MIN_MTU ==> mtu == old(mtu))
      ensures Delivers(messages, Pos(0, 0), sent, Now(), mtu, refuses, Widest())
      ensures Seals(old(writer.history), writer.history, |writer.history|)
      ensures result != Blocked ==> Seals(old(writer.history), writer.history, |sent.Records()| + 1)
      ensures result == Sent ==> Now() == Pos(|messages|, 0)
      ensures result == Blocked ==> !accepts
      ensures result != Failed ==> sent.unsent == []
      ensures result == Failed && !shutdown ==> Stuck(refuses, sent.unsent) && Crammed(sent.taken, sent.packets, mtu)
      ensures result == Failed && !shutdown && mtu <= MAX_RECORD ==>
                var fails := FailsAt(sent.taken, sent.packets, mtu, refuses, old(Numbers()));
                (Now() == sent.taken <==> fails) && (sent.unsent == [] <==> fails)
    {
      written, offset := 0, 0;
      result, sent := SendFlight(shutdown, noQuery, queried, refuses, accepts);
    }
  }

  /** The numbers of the next records of the current and the previous epoch. */
  datatype Numbering = Numbering(current: nat, last: nat) {
    function In(epoch: nat, writeEpoch: nat): nat {
      if epoch == writeEpoch then current else last
    }

    function Next(previous: bool): Numbering {
      if previous then Numbering(current, last + 1) else Numbering(current + 1, last)
    }

    /** After these records were sealed. */
    function Past(rs: seq<Record>, writeEpoch: nat): Numbering {
      Numbering(current + InEpoch(rs, writeEpoch), last + if writeEpoch > 0 then InEpoch(rs, writeEpoch - 1) else 0)
    }
  }

  function InEpoch(rs: seq<Record>, epoch: nat): nat {
    if rs == [] then 0 else InEpoch(rs[..|rs| - 1], epoch) + if rs[|rs| - 1].epoch == epoch then 1 else 0
  }

  lemma PastNothing(n: Numbering, writeEpoch: nat)
    ensures n.Past([], writeEpoch) == n
  {
  }

  lemma PastOneMore(n: Numbering, rs: seq<Record>, r: Record, writeEpoch: nat)
    requires r.epoch == writeEpoch || r.epoch + 1 == writeEpoch
    ensures n.Past(rs + [r], writeEpoch) == n.Past(rs, writeEpoch).Next(r.epoch != writeEpoch)
  {
    assert (rs + [r])[..|rs|] == rs;
  }

  lemma {:induction false} InEpochConcat(a: seq<Record>, b: seq<Record>, epoch: nat)
    ensures InEpoch(a + b, epoch) == InEpoch(a, epoch) + InEpoch(b, epoch)
  {
    if b == [] {
      assert a + b == a;
    } else {
      InEpochConcat(a, b[..|b| - 1], epoch);
      assert (a + b)[..|a + b| - 1] == a + b[..|b| - 1];
    }
  }

  /** What a call of send_flight brought about: the packets the transport took, the position they
      led to, and the records of a packet that was not finished. */
  datatype Report = Report(packets: seq<seq<Record>>, taken: Pos, unsent: seq<Record>) {
    function Records(): seq<Record> {
      Flat(packets) + unsent
    }
  }

  /** The packets lead from p to `taken`, and the records of an unfinished one from there to q;
      each packet fits the MTU, and each record is one the AEAD sealed, no longer than its payload
      and overhead. */
  ghost predicate Delivers(messages: seq<OutMessage>, p: Pos, r: Report, q: Pos, mtu: nat, refuses: Refusals,
                           overhead: nat) {
    && Follow(messages, p, Flat(r.packets)) == Some(r.taken) && Follow(messages, r.taken, r.unsent) == Some(q)
    && (forall i :: 0 <= i < |r.packets| ==> Size(r.packets[i]) <= mtu)
    && NoneRefused(r.Records(), refuses) && Within(r.Records(), overhead)
  }

  ghost predicate NoneRefused(rs: seq<Record>, refuses: Refusals) {
    forall i :: 0 <= i < |rs| ==> !refuses(rs[i].epoch, rs[i].n)
  }

  /** No record is longer than what it carries and this overhead. */
  ghost predicate Within(rs: seq<Record>, overhead: nat) {
    forall i :: 0 <= i < |rs| ==> rs[i].size <= |rs[i].payload| + overhead
  }

  lemma NothingDelivered(messages: seq<OutMessage>, p: Pos, mtu: nat, refuses: Refusals, overhead: nat,
                         h: seq<WriteEvent>)
    ensures Delivers(messages, p, Report([], p, []), p, mtu, refuses, overhead)
    ensures Seals(h, h, |Flat([])|) && Seals(h, h, |h|) && Seals(h, h, |Report([], p, []).Records()| + 1)
  {
  }

  lemma NoSeals(h: seq<WriteEvent>)
    ensures Seals(h, h, 0) && Seals(h, h, 1)
  {
  }

  lemma SealsThen(a: seq<WriteEvent>, b: seq<WriteEvent>, c: seq<WriteEvent>, m: nat, n: nat)
    requires Seals(a, b, m) && Seals(b, c, n)
    ensures Seals(a, c, m + n) && Seals(a, c, m + n + 1)
  {
  }

  lemma NothingRefused(refuses: Refusals, overhead: nat)
    ensures NoneRefused([], refuses) && Within([], overhead)
  {
  }

  lemma OneMoreFits(rs: seq<Record>, r: Record, refuses: Refusals, overhead: nat)
    requires NoneRefused(rs, refuses) && Within(rs, overhead)
    requires !refuses(r.epoch, r.n) && r.size <= |r.payload| + overhead
    ensures NoneRefused(rs + [r], refuses) && Within(rs + [r], overhead)
  {
  }

  lemma {:induction false} PastConcat(n: Numbering, packets: seq<seq<Record>>, packet: seq<Record>, writeEpoch: nat)
    ensures n.Past(Flat(packets + [packet]), writeEpoch) == n.Past(Flat(packets), writeEpoch).Past(packet, writeEpoch)
  {
    hide InEpoch, Flat;
    FlatAppend(packets, packet);
    InEpochConcat(Flat(packets), packet, writeEpoch);
    if writeEpoch > 0 {
      InEpochConcat(Flat(packets), packet, writeEpoch - 1);
    }
  }

  lemma {:induction false} SealsMore(before: seq<WriteEvent>, here: seq<WriteEvent>, after: seq<WriteEvent>,
                                     packets: seq<seq<Record>>, packet: seq<Record>, ok: bool)
    requires Seals(before, here, |Flat(packets)|) && Seals(here, after, |packet| + if ok then 0 else 1)
    ensures Seals(before, after, |after|) && Seals(before, after, |Flat(packets) + packet| + 1)
    ensures ok ==> Seals(before, after, |Flat(packets + [packet])|)
  {
    hide Flat;
    FlatAppend(packets, packet);
  }

  lemma {:induction false} OnePacketMore(messages: seq<OutMessage>, start: Pos, sent: Report, packet: seq<Record>,
                                         there: Pos,
                                         mtu: nat, refuses: Refusals, overhead: nat)
    requires Delivers(messages, start, sent, sent.taken, mtu, refuses, overhead) && sent.unsent == []
    requires Follow(messages, sent.taken, packet) == Some(there) && Size(packet) <= mtu
    requires NoneRefused(packet, refuses) && Within(packet, overhead)
    ensures Delivers(messages, start, sent.(unsent := packet), there, mtu, refuses, overhead)
    ensures Delivers(messages, start, Report(sent.packets + [packet], there, []), there, mtu, refuses, overhead)
    ensures packet != [] ==> sent.taken.Before(there)
  {
    hide Follow, Flat, Size;
    var packets := sent.packets;
    assert Flat(packets) + [] == Flat(packets);
    FollowConcat(messages, start, Flat(packets), packet);
    FlatAppend(packets, packet);
    assert Flat(packets + [packet]) + [] == Flat(packets) + packet;
    NothingSent(messages, there);
    FollowBefore(messages, sent.taken, packet);
  }

  lemma {:induction false} FollowBefore(messages: seq<OutMessage>, p: Pos, rs: seq<Record>)
    requires Follow(messages, p, rs).Some?
    ensures rs == [] || p.Before(Follow(messages, p, rs).value)
    decreases |rs|
  {
    hide Advance;
    if rs != [] {
      FollowBefore(messages, p, rs[..|rs| - 1]);
      Appended(messages, p, rs[..|rs| - 1], rs[|rs| - 1]);
    }
  }

  /** The position is where the transport has been brought if and only if no record of an
      unfinished packet was sealed; otherwise it is past messages that were never sent. */
  lemma {:induction false} RightIffNothingUnsent(messages: seq<OutMessage>, taken: Pos, unsent: seq<Record>, q: Pos)
    requires Follow(messages, taken, unsent) == Some(q)
    ensures q == taken <==> unsent == []
    ensures unsent != [] ==> taken.Before(q)
  {
    hide Advance;
    FollowBefore(messages, taken, unsent);
  }

  /** Which records, by epoch and number, the AEAD does not seal. */
  type Refusals = (nat, nat) -> bool

  /** All that happened since is at most n seals. */
  ghost predicate Seals(before: seq<WriteEvent>, after: seq<WriteEvent>, n: nat) {
    before <= after && |after| <= |before| + n && forall k :: |before| <= k < |after| ==> after[k].Sealed?
  }

  /** Copying the fragment length over the total length makes the header of a whole message. */
  lemma {:induction false} FixUpHeader(typ: byte, seqNum: nat, body: seq<byte>)
    requires |body| < 0x100_0000 && seqNum < 0x1_0000
    ensures var s, f := F.Serialize(F.Fragment(typ, 0, seqNum, 0, body)), F.Fragment(typ, |body|, seqNum, 0, body);
            s[..1] + s[9..12] + s[4..] == F.Serialize(f) && Whole(OutMessage(F.Serialize(f), 0, false)) == Some(f)
  {
    hide BigEndian, F.ParseFragment;
    var s, f := F.Serialize(F.Fragment(typ, 0, seqNum, 0, body)), F.Fragment(typ, |body|, seqNum, 0, body);
    assert s[9..12] == BigEndian(|body|, 3);
    assert s[..1] == [typ] && s[4..] == BigEndian(seqNum, 2) + BigEndian(0, 3) + BigEndian(|body|, 3) + body;
    F.ParseSerialized(f, []);
    assert F.Serialize(f) + [] == F.Serialize(f);
  }

  lemma NothingSent(messages: seq<OutMessage>, p: Pos)
    ensures Follow(messages, p, []) == Some(p) && Size([]) == 0 && Flat([]) == []
  {
  }

  lemma FlatAppend(packets: seq<seq<Record>>, packet: seq<Record>)
    ensures Flat(packets + [packet]) == Flat(packets) + packet
  {
    assert (packets + [packet])[..|packets|] == packets;
  }

  lemma Appended(messages: seq<OutMessage>, p: Pos, packet: seq<Record>, r: Record)
    ensures Size(packet + [r]) == Size(packet) + r.size
    ensures Follow(messages, p, packet).Some? ==>
              Follow(messages, p, packet + [r]) == Advance(messages, Follow(messages, p, packet).value, r)
    ensures forall q: Pos, q': Pos :: Advance(messages, q, r) == Some(q') ==> q.Before(q')
  {
    assert (packet + [r])[..|packet|] == packet;
  }
}
