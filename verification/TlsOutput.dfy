/** The TLS output path: pending flight, write buffer and half-finished application writes over
    a transport that takes any prefix or nothing. */
module TlsOutput {
  import opened Wrappers
  import opened Bits
  import opened TlsBuffer

  const RT_CHANGE_CIPHER_SPEC: byte := 20
  const RT_HANDSHAKE: byte := 22
  const RT_APPLICATION_DATA: byte := 23
  const MAX_PLAIN_LENGTH: nat := 16384

  /** One call of tls_seal_record: what was sealed, and the bytes it became. */
  datatype Sealing = Sealing(typ: byte, plaintext: seq<byte>, bytes: seq<byte>)

  /** All sealed bytes in sealing order. */
  function WireOf(log: seq<Sealing>): seq<byte> {
    if log == [] then [] else WireOf(log[..|log| - 1]) + log[|log| - 1].bytes
  }

  /** All plaintext of one type, in sealing order. */
  function PlainOf(log: seq<Sealing>, typ: byte): seq<byte> {
    if log == [] then []
    else
      var s := log[|log| - 1];
      PlainOf(log[..|log| - 1], typ) + if s.typ == typ then s.plaintext else []
  }

  lemma OneMore(log: seq<Sealing>, s: Sealing)
    ensures WireOf(log + [s]) == WireOf(log) + s.bytes
    ensures PlainOf(log + [s], s.typ) == PlainOf(log, s.typ) + s.plaintext
    ensures forall t :: t != s.typ ==> PlainOf(log + [s], t) == PlainOf(log, t)
  {
    assert (log + [s])[..|log|] == log;
  }

  /** Conservation: what was taken, what is buffered and what is left of the flight are together
      exactly what was sealed, in sealing order. */
  ghost predicate Conserves(wire: seq<byte>, buffered: seq<byte>, rest: seq<byte>, log: seq<Sealing>) {
    wire + buffered + rest == WireOf(log)
  }

  lemma TakeBuffered(wire: seq<byte>, b: seq<byte>, rest: seq<byte>, log: seq<Sealing>, took: nat)
    requires took <= |b| && Conserves(wire, b, rest, log)
    ensures Conserves(wire + b[..took], b[took..], rest, log)
  {
    assert b == b[..took] + b[took..];
    assert wire + b == (wire + b[..took]) + b[took..];
  }

  lemma TakeFlight(wire: seq<byte>, rest: seq<byte>, log: seq<Sealing>, took: nat)
    requires took <= |rest| && Conserves(wire, [], rest, log)
    ensures Conserves(wire + rest[..took], [], rest[took..], log)
  {
    assert rest == rest[..took] + rest[took..];
    assert wire + [] + rest == (wire + rest[..took]) + [] + rest[took..];
  }

  lemma SealIntoFlight(wire: seq<byte>, b: seq<byte>, rest: seq<byte>, log: seq<Sealing>, s: Sealing)
    requires Conserves(wire, b, rest, log)
    ensures Conserves(wire, b, rest + s.bytes, log + [s])
  {
    OneMore(log, s);
    assert wire + b + (rest + s.bytes) == (wire + b + rest) + s.bytes;
  }

  lemma MoveFlight(wire: seq<byte>, rest: seq<byte>, log: seq<Sealing>)
    requires Conserves(wire, [], rest, log)
    ensures Conserves(wire, [] + rest, [], log)
  {
    assert wire + [] + rest == wire + ([] + rest) + [];
  }

  lemma SealIntoBuffer(wire: seq<byte>, b: seq<byte>, log: seq<Sealing>, s: Sealing)
    requires Conserves(wire, b, [], log)
    ensures Conserves(wire, b + s.bytes, [], log + [s])
  {
    OneMore(log, s);
    assert wire + (b + s.bytes) + [] == (wire + b + []) + s.bytes;
  }

  lemma AllTaken(wire: seq<byte>, log: seq<Sealing>)
    requires Conserves(wire, [], [], log)
    ensures wire == WireOf(log)
  {
    assert wire + [] + [] == wire;
  }

  lemma NothingBuffered(wire: seq<byte>, b: seq<byte>, log: seq<Sealing>)
    requires Conserves(wire, b, [], log)
    ensures wire == WireOf(log) <==> b == []
  {
    assert wire + b + [] == wire + b;
  }

  /** What is known beforehand of allocator, AEAD and transport: nothing; that all work, and the
      transport takes all it is offered; that it takes nothing; or that the AEAD refuses. */
  datatype Luck = Any | Works | Blocks | Refuses

  /** A half-finished write: its plaintext is sealed, its bytes are in the write buffer. */
  datatype Pending = Pending(tot: nat, addr: nat, typ: byte)

  class Output {
    const buf: SSLBuffer
    var flight: Option<seq<byte>>
    var flightOffset: nat
    var pending: Option<Pending>
    var wnum: nat
    var maxSendFragment: nat
    var maxOverhead: nat
    var writeShutdown: bool
    const partialWrite: bool
    const movingBuffer: bool
    /** What the transport has taken, what was sealed, and the application data sealed before the
        write in progress. */
    ghost var wire: seq<byte>
    ghost var log: seq<Sealing>
    ghost var appBase: seq<byte>
    /** No buffer request was ever placed where its offset could wrap. */
    ghost var intact: bool

    ghost predicate Valid()
      reads this`flight, this`flightOffset, this`wire, this`log, this`intact, buf, buf.mem
    {
      && buf.Valid() && flightOffset <= |Flight()| && (flight == None ==> flightOffset == 0)
      && (intact ==> buf.Safe() && Conserves(wire, buf.Contents(), Flight()[flightOffset..], log))
    }

    function Flight(): seq<byte>
      reads this`flight
    {
      flight.GetOr([])
    }

    constructor (maxSendFragment: nat, maxOverhead: nat, partialWrite: bool, movingBuffer: bool)
      ensures Valid() && fresh(buf) && intact && log == [] && wire == [] && pending == None && wnum == 0
      ensures buf.mem == null && flight == None && flightOffset == 0 && appBase == [] && !writeShutdown
      ensures this.maxSendFragment == maxSendFragment && this.maxOverhead == maxOverhead
      ensures this.partialWrite == partialWrite && this.movingBuffer == movingBuffer
    {
      buf := new SSLBuffer();
      flight, flightOffset, pending, wnum, writeShutdown := None, 0, None, 0, false;
      this.maxSendFragment, this.maxOverhead := maxSendFragment, maxOverhead;
      this.partialWrite, this.movingBuffer := partialWrite, movingBuffer;
      wire, log, appBase, intact := [], [], [], true;
    }

    // -------------------------------------------------------------- handshake flights

    /** add_record_to_flight: never while the flight is being written out. */
    method AddRecordToFlight(typ: byte, input: seq<byte>) returns (ok: bool)
      requires Valid() && flightOffset == 0
      modifies this`flight, this`log
      ensures Valid() && flightOffset == 0
      ensures !ok ==> log == old(log)
      ensures ok ==> SealedNow(old(log), log, typ, input)
    {
      hide Conserves, WireOf;
      var reserved: bool, sealOk: bool := *, *;
      if !reserved {
        return false;
      }
      flight := Some(Flight());
      if !sealOk {
        return false;
      }
      var bytes: seq<byte> :| |bytes| <= |input| + maxOverhead;
      ghost var s := Sealing(typ, input, bytes);
      assert Flight()[0..] == Flight() && (Flight() + bytes)[0..] == Flight() + bytes;
      if intact {
        SealIntoFlight(wire, buf.Contents(), Flight(), log, s);
      }
      log := log + [s];
      flight := Some(Flight() + bytes);
      ok := true;
    }

    /** ssl3_add_message: the message in records of at most maxSendFragment bytes. */
    method AddMessage(msg: seq<byte>) returns (ok: bool)
      requires Valid() && flightOffset == 0 && maxSendFragment > 0
      modifies this`flight, this`log
      ensures Valid() && |log| >= |old(log)| && log[..|old(log)|] == old(log)
      ensures forall i :: |old(log)| <= i < |log| ==>
                log[i].typ == RT_HANDSHAKE && |log[i].plaintext| <= maxSendFragment
      ensures ok ==> PlainOf(log, RT_HANDSHAKE) == PlainOf(old(log), RT_HANDSHAKE) + msg && |log| > |old(log)|
    {
      hide Conserves, WireOf, PlainOf;
      var rest, first := msg, true;
      ghost var done := 0;
      assert PlainOf(log, RT_HANDSHAKE) + msg[..0] == PlainOf(log, RT_HANDSHAKE);
      while first || rest != []
        invariant Valid() && flightOffset == 0
        invariant |log| >= |old(log)| && log[..|old(log)|] == old(log) && (first || |log| > |old(log)|)
        invariant forall i :: |old(log)| <= i < |log| ==>
                    log[i].typ == RT_HANDSHAKE && |log[i].plaintext| <= maxSendFragment
        invariant done <= |msg| && rest == msg[done..]
        invariant PlainOf(log, RT_HANDSHAKE) == PlainOf(old(log), RT_HANDSHAKE) + msg[..done]
        decreases |rest|, first
      {
        var n := if |rest| > maxSendFragment then maxSendFragment else |rest|;
        ghost var before := log;
        assert rest[..n] == msg[done..done + n];
        ok := AddRecordToFlight(RT_HANDSHAKE, rest[..n]);
        if !ok {
          return;
        }
        NextChunk(before, log, PlainOf(old(log), RT_HANDSHAKE), RT_HANDSHAKE, msg, done, n);
        done := done + n;
        rest, first := rest[n..], false;
      }
      assert msg[..done] == msg;
      ok := true;
    }

    // -------------------------------------------------------------- flushing

    /** tls_write_buffer_flush. */
    method FlushBuffer(luck: Luck) returns (ret: int)
      requires Valid()
      modifies this`wire, buf
      ensures Valid() && (buf.mem == old(buf.mem) || buf.mem == null) && old(wire) <= wire
      ensures ret <= 1 && (ret > 0 ==> buf.Contents() == [] && buf.Safe())
      ensures luck.Works? ==> ret == 1
      ensures luck.Blocks? && old(buf.size) > 0 ==> ret <= 0
    {
      hide Conserves, WireOf, SSLBuffer.Contents, SSLBuffer.Safe;
      while buf.size != 0
        invariant Valid() && buf.mem == old(buf.mem) && old(wire) <= wire
        invariant luck.Blocks? ==> buf.size == old(buf.size)
        decreases buf.size
      {
        var took: int :| took <= buf.size && (luck.Works? ==> took == buf.size) && (luck.Blocks? ==> took <= 0);
        if took <= 0 {
          return took;
        }
        if intact {
          TakeBuffered(wire, buf.Contents(), Flight()[flightOffset..], log, took);
        }
        wire := wire + buf.Contents()[..took];
        buf.Consume(took);
      }
      buf.Clear();
      return 1;
    }

    /** The loop of ssl3_flush_flight, once the buffer is empty. */
    method WriteFlight() returns (ret: int)
      requires Valid() && buf.Contents() == []
      modifies this`wire, this`flightOffset
      ensures Valid() && (ret > 0 ==> flightOffset == |Flight()|) && old(wire) <= wire
    {
      hide Conserves, WireOf;
      while flightOffset < |Flight()|
        invariant Valid() && buf.Contents() == [] && old(wire) <= wire
        decreases |Flight()| - flightOffset
      {
        var took: int :| took <= |Flight()| - flightOffset;
        if took <= 0 {
          return took;
        }
        ghost var rest := Flight()[flightOffset..];
        assert rest[took..] == Flight()[flightOffset + took..];
        if intact {
          TakeFlight(wire, rest, log, took);
        }
        wire := wire + rest[..took];
        flightOffset := flightOffset + took;
      }
      return 1;
    }

    /** ssl3_flush_flight: first the write buffer, then the flight. Without a flight it reports
        success and writes nothing, even if the write buffer holds something. */
    method FlushFlight() returns (ret: int)
      requires Valid()
      modifies this`wire, this`flight, this`flightOffset, buf
      ensures Valid() && (buf.mem == old(buf.mem) || buf.mem == null) && old(wire) <= wire
      ensures ret > 0 ==> flight == None
      ensures old(flight) == None ==> ret == 1 && wire == old(wire) && buf.Contents() == old(buf.Contents())
      ensures ret > 0 && intact ==> (wire == WireOf(log) <==> old(flight).Some? || old(buf.size) == 0)
    {
      hide Conserves, WireOf, SSLBuffer.Contents, SSLBuffer.Safe;
      if flight == None {
        if intact {
          NothingBuffered(wire, buf.Contents(), log);
        }
        return 1;
      }
      if writeShutdown || |Flight()| > 0x7FFF_FFFF {
        return -1;
      }
      if buf.size != 0 {
        ret := FlushBuffer(Any);
        if ret <= 0 {
          return;
        }
      }
      ret := WriteFlight();
      if ret <= 0 {
        return;
      }
      var flushed: bool := *;
      if !flushed {
        return -1;
      }
      assert Flight()[flightOffset..] == [];
      if intact {
        AllTaken(wire, log);
      }
      flight, flightOffset := None, 0;
      return 1;
    }

    // -------------------------------------------------------------- writing

    /** The call continues the pending write. */
    predicate Matches(typ: byte, input: seq<byte>, addr: nat)
      reads this`pending
    {
      && pending.Some? && pending.value.tot <= |input| && pending.value.typ == typ
      && (movingBuffer || pending.value.addr == addr)
    }

    /** ssl3_write_pending. */
    method WritePending(typ: byte, input: seq<byte>, addr: nat, luck: Luck) returns (ret: int)
      requires Valid() && pending.Some?
      modifies this`wire, this`pending, buf
      ensures Valid() && (buf.mem == old(buf.mem) || buf.mem == null) && old(wire) <= wire
      ensures ret > 0 ==> ret == old(pending).value.tot && pending == None && old(pending).value.typ == typ
      ensures ret > 0 ==> old(pending).value.tot <= |input|
      ensures ret <= 0 ==> pending == old(pending) || old(pending).value.tot == 0
      ensures ret > 0 ==> buf.size == 0
      ensures luck.Works? && old(Matches(typ, input, addr)) ==> ret == old(pending).value.tot
      ensures luck.Blocks? && old(buf.size) > 0 ==> ret <= 0
    {
      var p := pending.value;
      if p.tot > |input| || (!movingBuffer && p.addr != addr) || p.typ != typ {
        return -1;
      }
      ret := FlushBuffer(luck);
      if ret <= 0 {
        return;
      }
      pending := None;
      ret := p.tot;
    }

    /** How many bytes a write of len bytes may have to buffer. */
    function MaxOut(len: nat): nat
      requires flightOffset <= |Flight()|
      reads this`flight, this`flightOffset, this`maxOverhead
    {
      len + maxOverhead + (|Flight()| - flightOffset)
    }

    /** Nothing stands in the way of sealing a record of this length. */
    predicate CanSeal(len: nat)
      requires flightOffset <= |Flight()|
      reads this`pending, this`flight, this`flightOffset, this`maxOverhead, buf`size
    {
      pending == None && 0 < len <= MAX_PLAIN_LENGTH && buf.size == 0 && MaxOut(len) <= MAX_CAP
    }

    /** What was left of the flight is in the write buffer. */
    ghost predicate Moved(before: Option<seq<byte>>, offset: nat)
      requires buf.Valid() && offset <= |before.GetOr([])|
      reads this`flight, buf, buf.mem
    {
      flight == None && buf.Contents() == before.GetOr([])[offset..]
    }

    /** do_ssl3_write: finishes the pending write, or seals one record behind whatever is left of
        the flight. */
    method DoWrite(typ: byte, input: seq<byte>, addr: nat, luck: Luck) returns (ret: int)
      requires Valid() && (pending.Some? ==> pending.value.tot > 0)
      modifies this`wire, this`pending, this`flight, this`flightOffset, this`log, this`intact, buf, buf.mem
      ensures Valid() && (buf.mem == old(buf.mem) || buf.mem == null || fresh(buf.mem)) && old(wire) <= wire
      ensures old(intact) && old(MaxOut(|input|)) <= SAFE_CAP ==> intact
      ensures pending.Some? ==> pending.value.tot > 0
      ensures log == old(log) || (old(pending) == None && input != [] && SealedNow(old(log), log, typ, input))
      ensures |Flight()| - flightOffset <= old(|Flight()| - flightOffset)
      ensures ret > 0 ==> pending == None
      ensures ret > 0 && old(pending).Some? ==>
                ret == old(pending).value.tot <= |input| && log == old(log) && old(pending).value.typ == typ
      ensures ret > 0 && old(pending) == None ==> ret == |input| && log != old(log)
      ensures ret <= 0 && log == old(log) ==> pending == old(pending)
      ensures ret <= 0 && log != old(log) ==> pending == Some(Pending(|input|, addr, typ))
      ensures ret > 0 ==> buf.size == 0
      ensures luck.Works? && old(Matches(typ, input, addr)) ==> ret > 0
      ensures old(CanSeal(|input|)) ==>
                && (luck.Works? ==> ret == |input|)
                && (luck.Blocks? ==> ret <= 0 && log != old(log))
                && (luck.Refuses? ==>
                      ret == -1 && log == old(log) && wire == old(wire) && Moved(old(flight), old(flightOffset)))
    {
      hide Conserves, WireOf, SSLBuffer.Contents, SSLBuffer.Safe;
      if pending.Some? {
        ret := WritePending(typ, input, addr, luck);
        return;
      }
      if |input| > MAX_PLAIN_LENGTH || buf.size > 0 {
        return -1;
      }
      if input == [] {
        return 0;
      }
      var sealed := BufferRecord(typ, input, luck);
      if !sealed {
        return -1;
      }
      pending := Some(Pending(|input|, addr, typ));
      ret := WritePending(typ, input, addr, luck);
    }

    /** The first part of do_ssl3_write: makes room in the buffer and moves the rest of the flight
        there. */
    method MakeRoom(len: nat, luck: Luck) returns (ok: bool)
      requires Valid() && buf.size == 0
      modifies this`flight, this`flightOffset, this`intact, buf, buf.mem
      ensures Valid() && (buf.mem == old(buf.mem) || fresh(buf.mem))
      ensures old(intact) && old(MaxOut(len)) <= SAFE_CAP ==> intact
      ensures ok ==> buf.cap - buf.size >= len + maxOverhead && flight == None && Moved(old(flight), old(flightOffset))
      ensures luck != Any && old(MaxOut(len)) <= MAX_CAP ==> ok
      ensures !ok ==> flight == old(flight) && flightOffset == old(flightOffset) && buf.size == 0
    {
      hide Conserves, WireOf, SSLBuffer.Contents, SSLBuffer.Safe;
      var rest := Flight()[flightOffset..];
      var address: nat, align: nat := *, *;
      var granted: bool :| luck != Any ==> granted;
      ok := buf.EnsureCap(|rest| + align, MaxOut(len), granted, address);
      intact := intact && buf.Safe();
      if !ok {
        return;
      }
      assert buf.Contents() == [];
      if intact {
        MoveFlight(wire, rest, log);
      }
      buf.Append(rest);
      flight, flightOffset := None, 0;
    }

    /** The middle of do_ssl3_write: seals the record behind what is in the buffer. */
    method BufferRecord(typ: byte, input: seq<byte>, luck: Luck) returns (ok: bool)
      requires Valid() && buf.size == 0
      modifies this`flight, this`flightOffset, this`log, this`intact, buf, buf.mem
      ensures Valid() && (buf.mem == old(buf.mem) || fresh(buf.mem))
      ensures old(intact) && old(MaxOut(|input|)) <= SAFE_CAP ==> intact
      ensures if ok then SealedNow(old(log), log, typ, input) else log == old(log)
      ensures !ok ==>
                || (flight == old(flight) && flightOffset == old(flightOffset) && buf.size == 0)
                || Moved(old(flight), old(flightOffset))
      ensures old(MaxOut(|input|)) <= MAX_CAP ==>
                && (luck.Works? ==> ok) && (luck.Blocks? && input != [] ==> ok && buf.size > 0)
                && (luck.Refuses? ==> !ok && Moved(old(flight), old(flightOffset)))
      ensures |Flight()| - flightOffset <= old(|Flight()| - flightOffset)
    {
      hide Conserves, WireOf, MaxOut, SSLBuffer.Contents, SSLBuffer.Safe;
      ok := MakeRoom(|input|, luck);
      if !ok {
        return;
      }
      var sealOk: bool :| (luck.Works? || luck.Blocks? ==> sealOk) && (luck.Refuses? ==> !sealOk);
      if !sealOk {
        return false;
      }
      assert input != [] ==> |input[..1]| == 1;
      var bytes: seq<byte> :| |bytes| <= |input| + maxOverhead && (luck.Blocks? && input != [] ==> bytes != []);
      ghost var s := Sealing(typ, input, bytes);
      assert Flight()[0..] == [];
      if intact {
        SealIntoBuffer(wire, buf.Contents(), log, s);
      }
      buf.Append(bytes);
      log := log + [s];
      ok := true;
    }

    // -------------------------------------------------------------- application data

    /** The part of the write in progress that is sealed but still in the write buffer. */
    function PendingApp(): nat
      reads this`pending
    {
      if pending.Some? && pending.value.typ == RT_APPLICATION_DATA then pending.value.tot else 0
    }

    ghost function Sealed(): seq<byte>
      reads this`log
    {
      PlainOf(log, RT_APPLICATION_DATA)
    }

    /** How much of the write in progress is sealed, as far as wnum and the pending write tell. */
    ghost function Front(): nat
      reads this`wnum, this`pending
    {
      wnum + PendingApp()
    }

    /** The call continues the write in progress, or there is none: what has been sealed of it is
        the beginning of the input. */
    ghost predicate Resumes(input: seq<byte>)
      reads this`wnum, this`pending, this`log, this`appBase
    {
      Continues(appBase, Sealed(), input, Front())
    }

    /** Nothing but bad luck keeps a write of the input from going on at tot. */
    predicate Calm(input: seq<byte>, addr: nat, tot: nat)
      requires flightOffset <= |Flight()|
      reads this`pending, this`flight, this`flightOffset, this`maxOverhead, this`maxSendFragment, buf`size
    {
      && 0 < maxSendFragment <= MAX_PLAIN_LENGTH && MaxOut(maxSendFragment) <= MAX_CAP && tot < |input|
      && match pending
         case None => buf.size == 0
         case Some(p) =>
           && p.typ == RT_APPLICATION_DATA && tot + p.tot <= |input| && p.tot <= maxSendFragment
           && (movingBuffer || p.addr == addr + tot)
    }

    /** How a record of n bytes fares, if nothing but bad luck is in its way. A transport that takes
        nothing leaves it sealed and pending. */
    ghost predicate Goes(luck: Luck, done: bool, n: nat, addr: nat, anew: bool)
      reads this`pending
    {
      && (luck.Works? ==> done)
      && (anew && (luck.Blocks? || luck.Refuses?) ==> !done)
      && (anew && luck.Blocks? ==> pending == Some(Pending(n, addr, RT_APPLICATION_DATA)))
    }

    lemma ChunkForeseen(input: seq<byte>, addr: nat, tot: nat, n: nat)
      requires flightOffset <= |Flight()| && Calm(input, addr, tot)
      requires 0 < n <= maxSendFragment && tot + n <= |input| && (n == maxSendFragment || tot + n == |input|)
      ensures if pending == None then CanSeal(n) else Matches(RT_APPLICATION_DATA, input[tot..tot + n], addr + tot)
      ensures maxSendFragment <= MAX_PLAIN_LENGTH && MaxOut(maxSendFragment) <= MAX_CAP
    {
    }

    /** One record's worth of an application write, sealed now or earlier. */
    method WriteChunk(input: seq<byte>, addr: nat, tot: nat, n: nat, luck: Luck) returns (ret: int)
      requires Valid() && (pending.Some? ==> pending.value.tot > 0) && tot + n <= |input| && n <= maxSendFragment
      modifies this`wire, this`pending, this`flight, this`flightOffset, this`log, this`intact, buf, buf.mem
      ensures Valid() && (buf.mem == old(buf.mem) || buf.mem == null || fresh(buf.mem)) && old(wire) <= wire
      ensures pending.Some? ==> pending.value.tot > 0
      ensures old(intact) && old(MaxOut(maxSendFragment)) <= SAFE_CAP ==> intact
      ensures MaxOut(maxSendFragment) <= old(MaxOut(maxSendFragment))
      ensures ret <= n && (ret > 0 ==> pending == None)
      ensures var now := tot + if ret > 0 then ret else PendingApp();
              Extends(old(Sealed()), Sealed(), input, tot + old(PendingApp()), now)
      ensures old(Calm(input, addr, tot)) && (n == maxSendFragment || tot + n == |input|) ==>
                && Goes(luck, ret > 0, n, addr + tot, old(pending) == None)
                && (ret > 0 && tot + ret < |input| ==> Calm(input, addr, tot + ret))
    {
      hide Conserves, WireOf, PlainOf;
      if Calm(input, addr, tot) && (n == maxSendFragment || tot + n == |input|) {
        ChunkForeseen(input, addr, tot, n);
      }
      ghost var before := log;
      ret := DoWrite(RT_APPLICATION_DATA, input[tot..tot + n], addr + tot, luck);
      if log != before {
        OneMore(before, log[|before|]);
        assert log == before + [log[|before|]];
      }
    }

    /** Where such a write stops: at bad luck only; and in records of one byte, at the first bad luck.
        A transport that takes nothing leaves a record sealed and pending. */
    ghost predicate Foreseen(input: seq<byte>, addr: nat, start: nat, luck: nat -> Luck, done: bool, tot: nat,
                             anew: bool)
      reads this`pending, this`maxSendFragment
    {
      && (!done ==> start <= tot < |input| && !luck(tot).Works?)
      && (anew && maxSendFragment == 1 && !partialWrite ==>
            && (forall r :: start <= r < |input| && (luck(r).Blocks? || luck(r).Refuses?) ==> !done && tot <= r)
            && (!done && luck(tot).Blocks? ==> pending == Some(Pending(1, addr + tot, RT_APPLICATION_DATA))))
    }

    lemma WithinFlight()
      requires Valid()
      ensures flightOffset <= |Flight()|
    {
    }

    lemma CalmStarts(input: seq<byte>, addr: nat, tot: nat)
      requires flightOffset <= |Flight()|
      ensures Calm(input, addr, tot) ==> tot < |input|
    {
    }

    lemma ForeseenHere(input: seq<byte>, addr: nat, start: nat, luck: nat -> Luck, done: bool, tot: nat, anew: bool,
                       last: nat)
      requires !done ==> start <= tot < |input| && !luck(tot).Works? && tot == last
      requires anew && maxSendFragment == 1 && !partialWrite ==>
                 && Spared(luck, start, last)
                 && (luck(last).Blocks? || luck(last).Refuses? ==> !done)
                 && (!done && luck(last).Blocks? ==> pending == Some(Pending(1, addr + tot, RT_APPLICATION_DATA)))
                 && (done ==> tot == |input| == last + 1)
      ensures Foreseen(input, addr, start, luck, done, tot, anew)
    {
    }

    /** The loop of ssl3_write_app_data. */
    method WriteFrom(input: seq<byte>, addr: nat, start: nat, luck: nat -> Luck) returns (ret: int, tot: nat)
      requires Valid() && maxSendFragment > 0 && (pending.Some? ==> pending.value.tot > 0) && start <= |input|
      modifies this`wire, this`pending, this`flight, this`flightOffset, this`log, this`intact, buf, buf.mem
      ensures Valid() && (buf.mem == old(buf.mem) || buf.mem == null || fresh(buf.mem)) && old(wire) <= wire
      ensures pending.Some? ==> pending.value.tot > 0
      ensures Extends(old(Sealed()), Sealed(), input, start + old(PendingApp()), tot + PendingApp())
      ensures ret > 0 ==> 0 < tot <= |input| && (!partialWrite ==> tot == |input|) && pending == None
      ensures MaxOut(maxSendFragment) <= old(MaxOut(maxSendFragment))
      ensures old(Calm(input, addr, start)) ==> Foreseen(input, addr, start, luck, ret > 0, tot, old(pending) == None)
      ensures old(intact) && old(MaxOut(maxSendFragment)) <= SAFE_CAP ==> intact
    {
      hide Conserves, WireOf, PlainOf, Extends, MaxOut, Calm, CanSeal, Matches, Foreseen, Valid, Spared,
        SSLBuffer.Valid;
      NothingSpared(luck, start);
      WithinFlight();
      ghost var room := MaxOut(maxSendFragment);
      CalmStarts(input, addr, start);
      ghost var sealed, front := Sealed(), start + PendingApp();
      ExtendsNot(sealed, input, front);
      tot := start;
      while true
        invariant Valid() && (buf.mem == old(buf.mem) || buf.mem == null || fresh(buf.mem)) && old(wire) <= wire
        invariant flightOffset <= |Flight()|
        invariant tot <= |input| && (pending.Some? ==> pending.value.tot > 0)
        invariant Extends(sealed, Sealed(), input, front, tot + PendingApp())
        invariant MaxOut(maxSendFragment) <= room
        invariant old(intact) && room <= SAFE_CAP ==> intact
        invariant start <= tot && (old(pending) == None || tot > start ==> pending == None)
        invariant old(Calm(input, addr, start)) ==> Calm(input, addr, tot) && tot < |input|
        invariant old(Calm(input, addr, start)) && old(pending) == None && maxSendFragment == 1 && !partialWrite ==>
                    Spared(luck, start, tot)
        decreases |input| - tot
      {
        var n := |input| - tot;
        var nw := if n > maxSendFragment then maxSendFragment else n;
        ghost var calm := old(Calm(input, addr, start));
        ghost var before, at, last := Sealed(), tot + PendingApp(), tot;
        ret := WriteChunk(input, addr, tot, nw, luck(tot));
        WithinFlight();
        if ret > 0 {
          tot := tot + ret;
        }
        ExtendsFurther(sealed, before, Sealed(), input, front, at, tot + PendingApp());
        if ret <= 0 || ret == n || partialWrite {
          if calm {
            ForeseenHere(input, addr, start, luck, ret > 0, tot, old(pending) == None, last);
          }
          return;
        }
        if calm && maxSendFragment == 1 && old(pending) == None {
          SparedOneMore(luck, start, last);
        }
      }
    }

    /** ssl3_write_app_data. A call seals the input from where wnum and the pending write say the
        write in progress has got to. For a caller that comes back with the same input until it
        succeeds, the application data sealed is the input, each byte once and in order. An input
        shorter than wnum is refused, and wnum forgotten. */
    method WriteAppData(input: seq<byte>, addr: nat, luck: nat -> Luck) returns (ret: int)
      requires Valid() && maxSendFragment > 0 && (pending.Some? ==> pending.value.tot > 0)
      modifies this`wire, this`pending, this`flight, this`flightOffset, this`log, this`intact, this`wnum, this`appBase,
        buf, buf.mem
      ensures Valid() && (buf.mem == old(buf.mem) || buf.mem == null || fresh(buf.mem)) && old(wire) <= wire
      ensures pending.Some? ==> pending.value.tot > 0
      ensures writeShutdown || |input| < old(wnum) ==> ret == -1 && log == old(log) && pending == old(pending)
      ensures MaxOut(maxSendFragment) <= old(MaxOut(maxSendFragment))
      ensures !writeShutdown && old(wnum < |input| && Calm(input, addr, wnum)) ==>
                Foreseen(input, addr, old(wnum), luck, ret > 0, if ret > 0 then ret else wnum, old(pending) == None)
      ensures writeShutdown ==> wnum == old(wnum)
      ensures !writeShutdown && |input| < old(wnum) ==> wnum == 0
      ensures !writeShutdown && |input| >= old(wnum) ==>
                Extends(old(Sealed()), Sealed(), input, old(Front()), if ret > 0 then ret else Front())
      ensures ret <= 0 ==> appBase == old(appBase)
      ensures ret > 0 ==> ret <= |input| && (!partialWrite ==> ret == |input|) && Front() == 0 && appBase == Sealed()
      ensures old(Resumes(input)) && ret <= 0 ==> Resumes(input)
      ensures old(Resumes(input)) && ret > 0 ==> Sealed() == old(appBase) + input[..ret]
      ensures old(intact) && old(MaxOut(maxSendFragment)) <= SAFE_CAP ==> intact
    {
      hide Conserves, WireOf, PlainOf, Extends, Continues, MaxOut, Calm, Foreseen;
      if writeShutdown {
        return -1;
      }
      var tot := wnum;
      wnum := 0;
      if |input| < tot {
        ShorterRefuted(appBase, Sealed(), input, old(Front()));
        return -1;
      }
      ghost var sealed := Sealed();
      ret, tot := WriteFrom(input, addr, tot, luck);
      if ret <= 0 {
        wnum := tot;
      } else {
        ret := tot;
        appBase := Sealed();
      }
      ContinuesAfter(old(appBase), sealed, Sealed(), input, input, old(Front()), if ret > 0 then ret else Front());
      if ret > 0 {
        ContinuesIs(old(appBase), Sealed(), input, ret);
      }
    }

    /** A call with another input in the middle of a write. Where the input is the beginning of the
        original, the original can still be resumed exactly if the input is not shorter than what
        wnum has counted. */
    method WriteOther(input: seq<byte>, addr: nat, luck: nat -> Luck, ghost original: seq<byte>) returns (ret: int)
      requires Valid() && maxSendFragment > 0 && (pending.Some? ==> pending.value.tot > 0) && Resumes(original)
      modifies this`wire, this`pending, this`flight, this`flightOffset, this`log, this`intact, this`wnum, this`appBase,
        buf, buf.mem
      ensures Valid() && (pending.Some? ==> pending.value.tot > 0)
      ensures ret <= 0 ==>
                (Resumes(original) <==>
                 writeShutdown || (|input| >= old(wnum) && SameUpTo(input, original, old(Front()), Front())))
      ensures ret <= 0 && input <= original ==> (Resumes(original) <==> writeShutdown || |input| >= old(wnum))
    {
      hide Conserves, WireOf, PlainOf, Extends, Continues;
      ghost var base, sealed, front := appBase, Sealed(), Front();
      ret := WriteAppData(input, addr, luck);
      if ret <= 0 && !writeShutdown {
        if |input| >= old(wnum) {
          ContinuesAfter(base, sealed, Sealed(), input, original, front, Front());
        } else {
          ShrunkStops(base, sealed, original, front, Front());
        }
      }
    }

    /** The shorter input is refused; the original is then taken up again from too early: what was
        counted by wnum is sealed a second time. */
    method ShrunkRetry(shorter: seq<byte>, original: seq<byte>, addr: nat, luck: nat -> Luck) returns (ret: int)
      requires Valid() && maxSendFragment > 0 && (pending.Some? ==> pending.value.tot > 0)
      requires Resumes(original) && !writeShutdown && |shorter| < wnum
      modifies this`wire, this`pending, this`flight, this`flightOffset, this`log, this`intact, this`wnum, this`appBase,
        buf, buf.mem
      ensures Valid() && old(PendingApp()) <= |original|
      ensures ret > 0 ==> old(PendingApp()) <= ret <= |original| && (!partialWrite ==> ret == |original|)
      ensures ret > 0 ==> Sealed() == old(appBase) + original[..old(Front())] + original[old(PendingApp())..ret]
      ensures ret > 0 ==> Sealed() != old(appBase) + original[..ret]
    {
      ret := WriteAppData(shorter, addr, luck);
      assert Front() == old(PendingApp());
      ret := WriteAppData(original, addr, luck);
    }
  }

  /** Reachable from the start, for every input of two bytes or more: in records of one byte the
      transport blocks on the second, nothing at all is written next, and then the input once more.
      That succeeds, and the second byte has been sealed twice. */
  method SealedTwice(original: seq<byte>, addr: nat, maxOverhead: nat) returns (o: Output, ret: int)
    requires |original| >= 2 && maxOverhead < 0x1000
    ensures fresh(o) && o.Valid() && ret == |original|
    ensures o.Sealed() == original[..2] + original[1..]
  {
    hide PlainOf, WireOf, Conserves;
    o := new Output(1, maxOverhead, false, true);
    NothingSealed();
    assert o.Calm(original, addr, 0);
    var luck := (p: nat) => if p == 1 then Blocks else Works;
    assert luck(0).Works? && luck(1).Blocks?;
    ret := o.WriteAppData(original, addr, luck);
    assert ret <= 0 && o.wnum == 1 && o.pending == Some(Pending(1, addr + 1, RT_APPLICATION_DATA));
    assert o.Sealed() == [] + original[..2];
    ret := o.WriteAppData([], addr, p => Works);
    assert o.wnum == 0 && o.Calm(original, addr, 0);
    ret := o.WriteAppData(original, addr, p => Works);
  }

  /** do_ssl3_write in the middle of a flight, when the AEAD refuses the record: what was left of the
      flight is in the write buffer, and flushing the flight then reports success though nothing of
      it has gone out. */
  method FlushedTooSoon(o: Output, typ: byte, input: seq<byte>, addr: nat) returns (ret: int, flushed: int)
    requires o.Valid() && o.intact && o.flightOffset < |o.Flight()| && o.CanSeal(|input|)
             && o.MaxOut(|input|) <= SAFE_CAP
    modifies o, o.buf, o.buf.mem
    ensures o.Valid() && o.intact && ret == -1 && flushed == 1
    ensures o.wire == old(o.wire) && o.log == old(o.log) && o.wire != WireOf(o.log)
    ensures o.buf.Contents() == old(o.Flight()[o.flightOffset..])
  {
    hide PlainOf, WireOf, Conserves;
    ret := o.DoWrite(typ, input, addr, Refuses);
    flushed := o.FlushFlight();
  }

  lemma NothingSealed()
    ensures PlainOf([], RT_APPLICATION_DATA) == []
  {
  }

  lemma NextChunk(before: seq<Sealing>, after: seq<Sealing>, base: seq<byte>, typ: byte, input: seq<byte>, tot: nat,
                  n: nat)
    requires tot + n <= |input| && SealedNow(before, after, typ, input[tot..tot + n])
    ensures PlainOf(before, typ) == base + input[..tot] ==> PlainOf(after, typ) == base + input[..tot + n]
  {
    OneMore(before, after[|before|]);
    assert after == before + [after[|before|]];
    assert input[..tot + n] == input[..tot] + input[tot..tot + n];
    assert base + input[..tot] + input[tot..tot + n] == base + (input[..tot] + input[tot..tot + n]);
  }

  /** No bad luck in this stretch. */
  ghost predicate Spared(luck: nat -> Luck, from: nat, to: nat) {
    forall r :: from <= r < to ==> !luck(r).Blocks? && !luck(r).Refuses?
  }

  lemma NothingSpared(luck: nat -> Luck, from: nat)
    ensures Spared(luck, from, from)
  {
  }

  lemma SparedOneMore(luck: nat -> Luck, from: nat, to: nat)
    requires Spared(luck, from, to) && !luck(to).Blocks? && !luck(to).Refuses?
    ensures Spared(luck, from, to + 1)
  {
  }

  /** What was sealed since `base` is the first n bytes of the input. */
  ghost predicate Continues(base: seq<byte>, sealed: seq<byte>, input: seq<byte>, n: nat) {
    n <= |input| && sealed == base + input[..n]
  }

  /** The bytes of the input between the two places were sealed. */
  ghost predicate Extends(before: seq<byte>, after: seq<byte>, input: seq<byte>, from: nat, to: nat) {
    if from == to then after == before
    else from < to <= |input| && after == before + input[from..to]
  }

  ghost predicate SameUpTo(input: seq<byte>, other: seq<byte>, from: nat, to: nat) {
    from == to || (from < to <= |input| && to <= |other| && input[from..to] == other[from..to])
  }

  lemma ExtendsNot(sealed: seq<byte>, input: seq<byte>, at: nat)
    ensures Extends(sealed, sealed, input, at, at)
  {}

  lemma ExtendsFurther(a: seq<byte>, b: seq<byte>, c: seq<byte>, input: seq<byte>, i: nat, j: nat, k: nat)
    requires Extends(a, b, input, i, j) && Extends(b, c, input, j, k)
    ensures Extends(a, c, input, i, k)
  {
    if i < j < k {
      assert input[i..k] == input[i..j] + input[j..k];
    }
  }

  lemma ContinuesAfter(base: seq<byte>, before: seq<byte>, after: seq<byte>, input: seq<byte>, other: seq<byte>,
                       from: nat, to: nat)
    requires Extends(before, after, input, from, to)
    ensures Continues(base, before, other, from) ==>
              (Continues(base, after, other, to) <==> SameUpTo(input, other, from, to))
    ensures input <= other && Continues(base, before, other, from) ==> SameUpTo(input, other, from, to)
  {
    if Continues(base, before, other, from) && from < to <= |other| {
      assert other[..to] == other[..from] + other[from..to];
      assert base + other[..to] == before + other[from..to];
      assert (before + input[from..to])[|before|..] == input[from..to];
      assert (before + other[from..to])[|before|..] == other[from..to];
    }
  }

  lemma ContinuesIs(base: seq<byte>, sealed: seq<byte>, input: seq<byte>, n: nat)
    requires n <= |input|
    ensures Continues(base, sealed, input, n) <==> sealed == base + input[..n]
  {}

  lemma ShorterRefuted(base: seq<byte>, sealed: seq<byte>, input: seq<byte>, n: nat)
    requires |input| < n
    ensures !Continues(base, sealed, input, n)
  {}

  lemma ShrunkStops(base: seq<byte>, sealed: seq<byte>, original: seq<byte>, n: nat, less: nat)
    requires Continues(base, sealed, original, n) && less < n
    ensures !Continues(base, sealed, original, less)
  {
    assert |base + original[..less]| < |base + original[..n]|;
  }

  /** The log has grown by one sealing of the input. */
  ghost predicate SealedNow(before: seq<Sealing>, after: seq<Sealing>, typ: byte, input: seq<byte>) {
    |after| == |before| + 1 && after[..|before|] == before && after[|before|].typ == typ
      && after[|before|].plaintext == input
  }
}
