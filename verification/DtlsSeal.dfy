/** Sealing DTLS records: write epochs and sequence numbers (RFC 6347, section 4.1). */
module DtlsSeal {
  import opened Wrappers
  import opened Bits
  import opened Wire
  import opened AeadNonce
  import Replay = DtlsReplay

  const HEADER_LENGTH: nat := 13
  const MAX_SEQ: nat := 0xFFFF_FFFF_FFFF
  /** The longest record whose length field holds its length. */
  const MAX_RECORD: nat := 0x1_000C

  /** ssl_record_sequence_update: adds one to the low `len` bytes of a sequence number, and fails
      on wrapping to zero. */
  method SequenceUpdate(seqNum: array<byte>, from: nat) returns (ok: bool)
    requires from < seqNum.Length
    modifies seqNum
    ensures seqNum[..from] == old(seqNum[..from])
    ensures ok <==> FromBigEndian(old(seqNum[from..])) + 1 < Pow2(8 * (seqNum.Length - from))
    ensures ok ==> FromBigEndian(seqNum[from..]) == FromBigEndian(old(seqNum[from..])) + 1
    ensures !ok ==> FromBigEndian(seqNum[from..]) == 0
  {
    var i := seqNum.Length;
    ghost var before := seqNum[..];
    assert before[..i] == before;
    assert Pow2(0) == 1;
    hide Pow2, FromBigEndian;
    while i > from
      invariant from <= i <= seqNum.Length
      invariant seqNum[..i] == before[..i]
      invariant forall j :: i <= j < seqNum.Length ==> before[j] == 255 && seqNum[j] == 0
    {
      i := i - 1;
      var next: nat := seqNum[i];
      seqNum[i] := (next + 1) % 256;
      if seqNum[i] != 0 {
        Incremented(before[from..], seqNum[from..], i - from);
        return true;
      }
    }
    WrappedToZero(before[from..], seqNum[from..]);
    return false;
  }

  /** Bytes equal up to i, one higher there, and 255 turned 0 after it. */
  lemma {:induction false} Incremented(a: seq<byte>, b: seq<byte>, i: nat)
    requires |a| == |b| && i < |a| && a[..i] == b[..i] && b[i] > 0 && b[i] - 1 == a[i]
    requires forall j :: i < j < |a| ==> a[j] == 255 && b[j] == 0
    ensures FromBigEndian(b) == FromBigEndian(a) + 1 < Pow2(8 * |a|)
  {
    var n := |a| - 1;
    FromBigEndianBound(b);
    if i < n {
      Incremented(a[..n], b[..n], i);
    } else {
      assert a[..n] == b[..n];
    }
  }

  lemma {:induction false} WrappedToZero(a: seq<byte>, b: seq<byte>)
    requires |a| == |b| && forall j :: 0 <= j < |a| ==> a[j] == 255 && b[j] == 0
    ensures FromBigEndian(a) + 1 == Pow2(8 * |a|) && FromBigEndian(b) == 0
  {
    if a == [] {
      assert Pow2(0) == 1;
    } else {
      WrappedToZero(a[..|a| - 1], b[..|a| - 1]);
      Pow2Byte(|a| - 1);
    }
  }

  /** What the AEAD was called with successfully: the key, and the sequence number in the nonce
      and the additional data. */
  datatype Use = Use(ctx: Aead, epoch: nat, n: nat)

  /** A sealed record: what is protected, under which number, and how long it is on the wire. */
  datatype Record = Record(typ: byte, epoch: nat, n: nat, payload: seq<byte>, size: nat)

  function Overhead(a: Aead): nat {
    HEADER_LENGTH + a.MaxOverhead()
  }

  function Prefix(a: Aead): nat {
    HEADER_LENGTH + a.ExplicitNonceLen()
  }

  function Least(x: nat, y: nat): nat {
    if x < y then x else y
  }

  function RecordSize(a: Aead, len: nat, tagLen: nat): nat {
    Prefix(a) + len + tagLen
  }

  // ---------------------------------------------------------------- runs

  /** What decides which nonces are used: the write epoch, the keys of it and of the epoch before,
      their counters, and the uses made of the AEADs so far. */
  datatype Writer = Writer(epoch: nat, aead: Aead, lastAead: Option<Aead>, current: nat, last: nat, uses: seq<Use>)

  /** The AEAD of the current or previous epoch seals something, or a new epoch begins. */
  datatype WriteEvent = Sealed(previous: bool) | NewEpoch(next: Aead)

  function Begin(aead: Aead): Writer {
    Writer(0, aead, None, 0, 0, [])
  }

  /** A counter after its value was used. The last value wraps to zero, which is reported. */
  function Stepped(n: nat): nat {
    if n == MAX_SEQ then 0 else n + 1
  }

  function WriterStep(w: Writer, e: WriteEvent): Writer {
    match e
    case Sealed(false) => w.(uses := w.uses + [Use(w.aead, w.epoch, w.current)], current := Stepped(w.current))
    case Sealed(true) =>
      if w.epoch == 0 || w.lastAead.None? then w
      else w.(uses := w.uses + [Use(w.lastAead.value, w.epoch - 1, w.last)], last := Stepped(w.last))
    case NewEpoch(next) => Writer(w.epoch + 1, next, Some(w.aead), 0, w.current, w.uses)
  }

  function WriterAfter(aead: Aead, es: seq<WriteEvent>): Writer {
    if es == [] then Begin(aead) else WriterStep(WriterAfter(aead, es[..|es| - 1]), es[|es| - 1])
  }

  lemma RunOneMore(aead: Aead, es: seq<WriteEvent>, e: WriteEvent)
    ensures WriterAfter(aead, es + [e]) == WriterStep(WriterAfter(aead, es), e)
  {
    assert (es + [e])[..|es|] == es;
  }

  /** The sending half of the record layer's state. The previous epoch keeps its own key and its
      own sequence number. */
  class RecordWriter {
    var writeEpoch: nat
    var aead: Aead
    var lastAead: Option<Aead>
    const writeSequence: array<byte>
    const lastWriteSequence: array<byte>
    /** The first key, and everything that happened since. */
    ghost const first: Aead
    ghost var history: seq<WriteEvent>

    /** The state is where a run has brought it. */
    ghost predicate Valid()
      reads this, writeSequence, lastWriteSequence
    {
      && writeSequence.Length == 8 == lastWriteSequence.Length && writeSequence != lastWriteSequence
      && aead.Wf() && (lastAead.Some? ==> lastAead.value.Wf()) && (writeEpoch >= 1 ==> lastAead.Some?)
      && first.Wf() && AllWf(history) && Holds(WriterAfter(first, history))
    }

    ghost predicate Holds(w: Writer)
      requires writeSequence.Length == 8 == lastWriteSequence.Length
      reads this, writeSequence, lastWriteSequence
    {
      w.epoch == writeEpoch && w.aead == aead && w.lastAead == lastAead && w.current == Counter(false)
        && w.last == Counter(true)
    }

    ghost function Uses(): seq<Use>
      reads this
    {
      WriterAfter(first, history).uses
    }

    /** The number the next record of the current or the previous epoch takes. */
    function Counter(previous: bool): (n: nat)
      requires writeSequence.Length == 8 == lastWriteSequence.Length
      reads writeSequence, lastWriteSequence
      ensures n <= MAX_SEQ
    {
      if previous then Number(lastWriteSequence[..]) else Number(writeSequence[..])
    }

    constructor (aead: Aead)
      requires aead.Wf()
      ensures Valid() && history == [] && writeEpoch == 0 && this.aead == aead
      ensures Counter(false) == 0 && Counter(true) == 0 && Uses() == []
      ensures fresh(writeSequence) && fresh(lastWriteSequence)
    {
      writeEpoch, this.aead, lastAead := 0, aead, None;
      first, history := aead, [];
      var current, last := new byte[8](_ => 0), new byte[8](_ => 0);
      writeSequence, lastWriteSequence := current, last;
      new;
      ZeroSequence(writeSequence[..]);
      ZeroSequence(lastWriteSequence[..]);
    }

    /** get_write_aead. */
    function WriteAead(previous: bool): Aead
      requires previous ==> lastAead.Some?
      reads this`aead, this`lastAead
    {
      if previous then lastAead.value else aead
    }

    /** dtls_seal_record. Whether the AEAD succeeds and how long its tag is come from outside.
        The number is spent as soon as the AEAD has succeeded, even if the record is then not
        sent because the counter was at its end or the record is too long. */
    method SealRecord(typ: byte, payload: seq<byte>, maxOut: nat, previous: bool, sealOk: bool, tagLen: nat)
      returns (ok: bool, record: Record)
      requires Valid() && (previous ==> writeEpoch >= 1)
      modifies this`history, writeSequence, lastWriteSequence
      ensures Valid()
      ensures var size := RecordSize(WriteAead(previous), |payload|, tagLen);
              && history == old(history) + (if sealOk && size <= maxOut then [Sealed(previous)] else [])
              && (ok <==> sealOk && size <= Least(maxOut, MAX_RECORD) && old(Counter(previous)) < MAX_SEQ)
              && var epoch := if previous then writeEpoch - 1 else writeEpoch;
                 (ok ==> record == Record(typ, epoch, old(Counter(previous)), payload, size))
      ensures Counter(!previous) == old(Counter(!previous))
      ensures Counter(previous) ==
                if history == old(history) then old(Counter(previous)) else Stepped(old(Counter(previous)))
    {
      hide FromBigEndian, BigEndian, WriterAfter, AllWf;
      record := Record(typ, 0, 0, payload, 0);
      var epoch, ctx, sequence := writeEpoch, aead, writeSequence;
      if previous {
        epoch, ctx, sequence := writeEpoch - 1, lastAead.value, lastWriteSequence;
      }
      if maxOut < HEADER_LENGTH {
        return false, record;
      }
      var ciphertextLen := ctx.ExplicitNonceLen() + |payload| + tagLen;
      if ciphertextLen > maxOut - HEADER_LENGTH || !sealOk {
        return false, record;
      }
      var n := FromBigEndian(sequence[2..]);
      SameNumber(sequence);
      var updated := SequenceUpdate(sequence, 2);
      SameNumber(sequence);
      RunOneMore(first, history, Sealed(previous));
      AllWfAppend(history, Sealed(previous));
      history := history + [Sealed(previous)];
      if !updated || ciphertextLen >= 0x1_0000 {
        return false, record;
      }
      return true, Record(typ, epoch, n, payload, HEADER_LENGTH + ciphertextLen);
    }

    /** dtls1_set_write_state. */
    method SetWriteState(next: Aead)
      requires Valid() && next.Wf()
      modifies this`writeEpoch, this`aead, this`lastAead, this`history, writeSequence, lastWriteSequence
      ensures Valid() && history == old(history) + [NewEpoch(next)]
      ensures writeEpoch == old(writeEpoch) + 1 && aead == next && lastAead == Some(old(aead))
      ensures lastWriteSequence[..] == old(writeSequence[..]) && writeSequence[..] == Replay.SeqNum(0, 0)
      ensures Counter(true) == old(Counter(false)) && Counter(false) == 0
    {
      hide FromBigEndian, BigEndian, WriterAfter, AllWf;
      RunOneMore(first, history, NewEpoch(next));
      AllWfAppend(history, NewEpoch(next));
      writeEpoch := writeEpoch + 1;
      forall i | 0 <= i < 8 {
        lastWriteSequence[i] := writeSequence[i];
      }
      forall i | 0 <= i < 8 {
        writeSequence[i] := 0;
      }
      assert lastWriteSequence[..] == old(writeSequence[..]);
      ZeroSequence(writeSequence[..]);
      lastAead := Some(aead);
      aead := next;
      history := history + [NewEpoch(next)];
    }
  }

  /** The 48-bit number in the low six bytes of a sequence number. */
  function Number(s: seq<byte>): (n: nat)
    requires |s| == 8
    ensures n <= MAX_SEQ
  {
    FromBigEndianBound(s[2..]);
    Replay.Pow2Of48();
    FromBigEndian(s[2..])
  }

  lemma SameNumber(a: array<byte>)
    requires a.Length == 8
    ensures Number(a[..]) == FromBigEndian(a[2..]) && Pow2(8 * 6) == MAX_SEQ + 1
  {
    assert a[..][2..] == a[2..];
    Replay.Pow2Of48();
  }

  lemma ZeroSequence(s: seq<byte>)
    requires |s| == 8 && forall i :: 0 <= i < 8 ==> s[i] == 0
    ensures s == Replay.SeqNum(0, 0) && Number(s) == 0
  {
    ZeroBytes(2);
    ZeroBytes(6);
    assert s[2..] == BigEndian(0, 6);
    Replay.Pow2Of48();
    BigEndianRoundTrip(0, 6);
  }

  lemma {:induction false} ZeroBytes(k: nat)
    ensures forall i :: 0 <= i < k ==> BigEndian(0, k)[i] == 0
  {
    if k > 0 {
      ZeroBytes(k - 1);
    }
  }

  // ---------------------------------------------------------------- no reuse

  ghost predicate AllWf(es: seq<WriteEvent>) {
    forall e :: e in es && e.NewEpoch? ==> e.next.Wf()
  }

  lemma AllWfAppend(es: seq<WriteEvent>, e: WriteEvent)
    requires AllWf(es) && (e.NewEpoch? ==> e.next.Wf())
    ensures AllWf(es + [e])
  {
  }

  predicate SamePair(u: Use, v: Use) {
    u.epoch == v.epoch && u.n == v.n
  }

  /** The last number of an epoch was used, so its counter has wrapped. */
  ghost predicate Wrapped(uses: seq<Use>, epoch: nat) {
    exists k :: 0 <= k < |uses| && uses[k].epoch == epoch && uses[k].n == MAX_SEQ
  }

  /** A pair of epoch and number is used again only after the counter of that epoch has wrapped. */
  ghost predicate FreshUntilWrap(uses: seq<Use>) {
    forall i, j :: 0 <= i < j < |uses| && SamePair(uses[i], uses[j]) ==> Wrapped(uses[..j], uses[j].epoch)
  }

  /** An epoch's counter is ahead of all that was used in it, unless it has wrapped. */
  ghost predicate Ahead(uses: seq<Use>, epoch: nat, counter: nat) {
    forall i :: 0 <= i < |uses| && uses[i].epoch == epoch && uses[i].n >= counter ==> Wrapped(uses, epoch)
  }

  /** No number is greater than the count of uses before it; nothing is used in a later epoch. */
  ghost predicate Bounded(uses: seq<Use>, epoch: nat) {
    forall i :: 0 <= i < |uses| ==> uses[i].epoch <= epoch && uses[i].n <= i && uses[i].n <= MAX_SEQ
  }

  ghost predicate UsesWf(uses: seq<Use>) {
    forall i :: 0 <= i < |uses| ==> uses[i].ctx.Wf()
  }

  ghost predicate Good(w: Writer) {
    && FreshUntilWrap(w.uses) && Bounded(w.uses, w.epoch) && UsesWf(w.uses)
    && Ahead(w.uses, w.epoch, w.current) && (w.epoch > 0 ==> Ahead(w.uses, w.epoch - 1, w.last))
    && w.current <= |w.uses| && w.last <= |w.uses| && w.current <= MAX_SEQ && w.last <= MAX_SEQ
    && w.aead.Wf() && (w.lastAead.Some? ==> w.lastAead.value.Wf())
  }

  lemma WrappedStays(uses: seq<Use>, u: Use, epoch: nat)
    ensures Wrapped(uses + [u], epoch) <==> Wrapped(uses, epoch) || (u.epoch == epoch && u.n == MAX_SEQ)
  {
    var more := uses + [u];
    if Wrapped(uses, epoch) {
      var k :| 0 <= k < |uses| && uses[k].epoch == epoch && uses[k].n == MAX_SEQ;
      assert more[k] == uses[k];
    }
    if u.epoch == epoch && u.n == MAX_SEQ {
      assert more[|uses|] == u;
    }
    if Wrapped(more, epoch) {
      var k :| 0 <= k < |more| && more[k].epoch == epoch && more[k].n == MAX_SEQ;
      assert k < |uses| ==> uses[k] == more[k];
    }
  }

  /** Using the value of an epoch's counter is a reuse only if the counter has wrapped. */
  lemma {:induction false} UseFresh(uses: seq<Use>, u: Use)
    requires FreshUntilWrap(uses) && Ahead(uses, u.epoch, u.n)
    ensures FreshUntilWrap(uses + [u])
  {
    hide Wrapped;
    var more := uses + [u];
    forall i, j | 0 <= i < j < |more| && SamePair(more[i], more[j])
      ensures Wrapped(more[..j], more[j].epoch)
    {
      assert more[..j] == uses[..j];
      assert uses[..|uses|] == uses;
    }
  }

  /** Stepping the counter that was used keeps both counters ahead. */
  lemma {:induction false} UseKeepsAhead(uses: seq<Use>, u: Use, epoch: nat, counter: nat)
    requires Ahead(uses, epoch, counter) && (u.epoch == epoch ==> u.n == counter) && u.n <= MAX_SEQ
    ensures Ahead(uses + [u], epoch, if u.epoch == epoch then Stepped(counter) else counter)
  {
    hide Wrapped;
    WrappedStays(uses, u, epoch);
    var more := uses + [u];
    var next := if u.epoch == epoch then Stepped(counter) else counter;
    forall i | 0 <= i < |more| && more[i].epoch == epoch && more[i].n >= next
      ensures Wrapped(more, epoch)
    {
      assert i < |uses| ==> more[i] == uses[i];
    }
  }

  lemma {:induction false} UseKeepsRest(uses: seq<Use>, u: Use, epoch: nat)
    requires Bounded(uses, epoch) && UsesWf(uses) && u.epoch <= epoch && u.n <= |uses| && u.n <= MAX_SEQ && u.ctx.Wf()
    ensures Bounded(uses + [u], epoch) && UsesWf(uses + [u])
  {
  }

  /** Any event keeps pairs fresh and counters ahead. */
  lemma {:induction false} StepKeepsGood(w: Writer, e: WriteEvent)
    requires Good(w) && (e.NewEpoch? ==> e.next.Wf())
    ensures Good(WriterStep(w, e))
  {
    hide FreshUntilWrap, Bounded, UsesWf, Ahead;
    match e
    case Sealed(previous) =>
      if !previous || (w.epoch > 0 && w.lastAead.Some?) {
        var u := if previous then Use(w.lastAead.value, w.epoch - 1, w.last) else Use(w.aead, w.epoch, w.current);
        UseFresh(w.uses, u);
        UseKeepsRest(w.uses, u, w.epoch);
        UseKeepsAhead(w.uses, u, w.epoch, w.current);
        if w.epoch > 0 {
          UseKeepsAhead(w.uses, u, w.epoch - 1, w.last);
        }
      }
    case NewEpoch(next) =>
      NewEpochUnused(w.uses, w.epoch);
  }

  lemma NewEpochUnused(uses: seq<Use>, epoch: nat)
    requires Bounded(uses, epoch)
    ensures Bounded(uses, epoch + 1) && Ahead(uses, epoch + 1, 0)
  {
  }

  lemma BeginsGood(aead: Aead)
    requires aead.Wf()
    ensures Good(Begin(aead))
  {
  }

  lemma {:induction false} RunKeepsGood(aead: Aead, es: seq<WriteEvent>)
    requires aead.Wf() && AllWf(es)
    ensures Good(WriterAfter(aead, es))
  {
    hide Good, WriterStep;
    if es == [] {
      BeginsGood(aead);
    } else {
      RunKeepsGood(aead, es[..|es| - 1]);
      StepKeepsGood(WriterAfter(aead, es[..|es| - 1]), es[|es| - 1]);
    }
  }

  /** Over any run of seals and epoch changes a pair of epoch and number is used a second time only
      after that epoch's counter has wrapped; so never within the first 2^48 uses. */
  lemma {:induction false} NoReuse(aead: Aead, es: seq<WriteEvent>, i: nat, j: nat)
    requires aead.Wf() && AllWf(es) && i < j < |WriterAfter(aead, es).uses|
    ensures var uses := WriterAfter(aead, es).uses;
            SamePair(uses[i], uses[j]) ==> Wrapped(uses[..j], uses[j].epoch) && j > MAX_SEQ
  {
    hide WriterAfter;
    RunKeepsGood(aead, es);
    var uses := WriterAfter(aead, es).uses;
    if SamePair(uses[i], uses[j]) {
      var k :| 0 <= k < j && uses[..j][k].epoch == uses[j].epoch && uses[..j][k].n == MAX_SEQ;
      assert uses[k].n <= k;
    }
  }

  lemma {:induction false} UsesAtMost(aead: Aead, es: seq<WriteEvent>)
    ensures |WriterAfter(aead, es).uses| <= |es|
  {
    if es != [] {
      UsesAtMost(aead, es[..|es| - 1]);
    }
  }

  /** A counter comes to its end only after 2^48 uses. */
  lemma {:induction false} EndIsFar(aead: Aead, es: seq<WriteEvent>)
    requires aead.Wf() && AllWf(es) && |es| <= MAX_SEQ
    ensures !AtEnd(WriterAfter(aead, es).uses)
  {
    hide WriterAfter;
    RunKeepsGood(aead, es);
    UsesAtMost(aead, es);
  }

  /** The last use was of an epoch's last number. */
  predicate AtEnd(uses: seq<Use>) {
    uses != [] && uses[|uses| - 1].n == MAX_SEQ
  }

  /** The nonce of a use, for contexts that make it of the sequence number. */
  function NonceOf(u: Use): seq<byte>
    requires u.ctx.Wf() && !u.ctx.random && !u.ctx.nullCipher
  {
    SeqNumLength(u.epoch, u.n);
    Nonce(u.ctx, Replay.SeqNum(u.epoch, u.n))
  }

  /** So no AEAD context sees a nonce twice before a counter has wrapped, in every nonce mode in
      which nonces are made of sequence numbers. */
  lemma {:induction false} NoNonceReuse(aead: Aead, es: seq<WriteEvent>, i: nat, j: nat)
    requires aead.Wf() && AllWf(es) && i < j < |WriterAfter(aead, es).uses|
    requires var uses := WriterAfter(aead, es).uses;
             && uses[i].ctx == uses[j].ctx && !uses[i].ctx.random && !uses[i].ctx.nullCipher
             && uses[j].epoch <= 0xFFFF && uses[i].epoch <= 0xFFFF && !Wrapped(uses[..j], uses[j].epoch)
    ensures var uses := WriterAfter(aead, es).uses; uses[i].ctx.Wf() && NonceOf(uses[i]) != NonceOf(uses[j])
  {
    hide WriterAfter, Nonce, Wrapped, Replay.SeqNum;
    RunKeepsGood(aead, es);
    NoReuse(aead, es, i, j);
    var u, v := WriterAfter(aead, es).uses[i], WriterAfter(aead, es).uses[j];
    assert u.ctx.Wf() && u.n <= MAX_SEQ && v.n <= MAX_SEQ;
    SeqNumLength(u.epoch, u.n);
    SeqNumLength(v.epoch, v.n);
    if NonceOf(u) == NonceOf(v) {
      NonceInjective(u.ctx, Replay.SeqNum(u.epoch, u.n), Replay.SeqNum(v.epoch, v.n));
      SeqNumInjective(u.epoch, u.n, v.epoch, v.n);
    }
  }

  lemma SeqNumLength(epoch: nat, n: nat)
    ensures |Replay.SeqNum(epoch, n)| == 8
  {
  }

  ghost predicate UsedIn(uses: seq<Use>, epoch: nat, n: nat) {
    exists i :: 0 <= i < |uses| && uses[i].epoch == epoch && uses[i].n == n
  }

  /** Every number below this has been used in the epoch. */
  ghost predicate UsedBelow(uses: seq<Use>, epoch: nat, counter: nat) {
    forall n: nat :: n < counter ==> UsedIn(uses, epoch, n)
  }

  /** Nothing is skipped: the smaller numbers of an epoch were used before. */
  ghost predicate Dense(uses: seq<Use>) {
    forall k :: 0 <= k < |uses| ==> UsedBelow(uses[..k], uses[k].epoch, uses[k].n)
  }

  ghost predicate Covered(w: Writer) {
    Dense(w.uses) && UsedBelow(w.uses, w.epoch, w.current) && (w.epoch > 0 ==> UsedBelow(w.uses, w.epoch - 1, w.last))
  }

  lemma {:induction false} UsedStays(uses: seq<Use>, u: Use, epoch: nat, n: nat)
    ensures UsedIn(uses, epoch, n) || (u.epoch == epoch && u.n == n) ==> UsedIn(uses + [u], epoch, n)
  {
    var more := uses + [u];
    if UsedIn(uses, epoch, n) {
      var i :| 0 <= i < |uses| && uses[i].epoch == epoch && uses[i].n == n;
      assert more[i] == uses[i];
    }
    if u.epoch == epoch && u.n == n {
      assert more[|uses|] == u;
    }
  }

  lemma {:induction false} BelowStays(uses: seq<Use>, u: Use, epoch: nat, counter: nat)
    requires UsedBelow(uses, epoch, counter) && (u.epoch == epoch ==> u.n == counter)
    ensures UsedBelow(uses + [u], epoch, if u.epoch == epoch then Stepped(counter) else counter)
  {
    hide UsedIn;
    var next := if u.epoch == epoch then Stepped(counter) else counter;
    forall n: nat | n < next
      ensures UsedIn(uses + [u], epoch, n)
    {
      UsedStays(uses, u, epoch, n);
    }
  }

  lemma {:induction false} DenseStays(uses: seq<Use>, u: Use)
    requires Dense(uses) && UsedBelow(uses, u.epoch, u.n)
    ensures Dense(uses + [u])
  {
    hide UsedBelow;
    var more := uses + [u];
    forall k | 0 <= k < |more|
      ensures UsedBelow(more[..k], more[k].epoch, more[k].n)
    {
      if k < |uses| {
        assert more[..k] == uses[..k];
      } else {
        assert more[..k] == uses;
      }
    }
  }

  lemma {:induction false} StepCovers(w: Writer, e: WriteEvent)
    requires Covered(w)
    ensures Covered(WriterStep(w, e))
  {
    hide UsedIn, Dense;
    if e.Sealed? && (!e.previous || (w.epoch > 0 && w.lastAead.Some?)) {
      var u := if e.previous then Use(w.lastAead.value, w.epoch - 1, w.last) else Use(w.aead, w.epoch, w.current);
      DenseStays(w.uses, u);
      BelowStays(w.uses, u, w.epoch, w.current);
      if w.epoch > 0 {
        BelowStays(w.uses, u, w.epoch - 1, w.last);
      }
    }
  }

  lemma {:induction false} RunCovers(aead: Aead, es: seq<WriteEvent>)
    ensures Covered(WriterAfter(aead, es))
  {
    hide Covered, WriterStep;
    if es == [] {
      BeginsCovered(aead);
    } else {
      RunCovers(aead, es[..|es| - 1]);
      StepCovers(WriterAfter(aead, es[..|es| - 1]), es[|es| - 1]);
    }
  }

  lemma BeginsCovered(aead: Aead)
    ensures Covered(Begin(aead))
  {
  }

  /** At any point of any run, in either epoch: a use repeats an earlier one if and only if the last
      number of its epoch was used before. */
  lemma {:induction false} RepeatsIffWrapped(aead: Aead, es: seq<WriteEvent>, j: nat)
    requires aead.Wf() && AllWf(es) && j < |WriterAfter(aead, es).uses|
    ensures var uses := WriterAfter(aead, es).uses;
            (exists i :: 0 <= i < j && SamePair(uses[i], uses[j])) <==> Wrapped(uses[..j], uses[j].epoch)
  {
    hide WriterAfter;
    RunKeepsGood(aead, es);
    RunCovers(aead, es);
    var uses := WriterAfter(aead, es).uses;
    if Wrapped(uses[..j], uses[j].epoch) {
      var k :| 0 <= k < j && uses[..j][k].epoch == uses[j].epoch && uses[..j][k].n == MAX_SEQ;
      var i := EarlierUse(uses, k, uses[j].n);
      assert SamePair(uses[i], uses[j]);
    }
  }

  lemma {:induction false} EarlierUse(uses: seq<Use>, k: nat, n: nat) returns (i: nat)
    requires Dense(uses) && k < |uses| && n <= uses[k].n
    ensures i <= k && uses[i].epoch == uses[k].epoch && uses[i].n == n
  {
    if n == uses[k].n {
      i := k;
    } else {
      assert UsedBelow(uses[..k], uses[k].epoch, uses[k].n);
      assert UsedIn(uses[..k], uses[k].epoch, n);
      i :| 0 <= i < k && uses[..k][i].epoch == uses[k].epoch && uses[..k][i].n == n;
    }
  }

  /** The bound is exact: whatever led up to the last number, sealing goes on under it and then
      under zero, which was used before. */
  lemma {:induction false} WrapRepeats(aead: Aead, es: seq<WriteEvent>)
    requires WriterAfter(aead, es).current == MAX_SEQ
    ensures var uses := WriterAfter(aead, es + [Sealed(false)] + [Sealed(false)]).uses;
            |uses| >= 2 && UsedIn(uses[..|uses| - 1], uses[|uses| - 1].epoch, uses[|uses| - 1].n)
  {
    hide UsedIn;
    var w := WriterAfter(aead, es);
    RunCovers(aead, es);
    RunOneMore(aead, es, Sealed(false));
    RunOneMore(aead, es + [Sealed(false)], Sealed(false));
    var u, v := Use(w.aead, w.epoch, MAX_SEQ), Use(w.aead, w.epoch, 0);
    UsedStays(w.uses, u, w.epoch, 0);
    assert (w.uses + [u] + [v])[..|w.uses| + 1] == w.uses + [u];
  }

  lemma {:induction false} SeqNumInjective(e1: nat, n1: nat, e2: nat, n2: nat)
    requires e1 < 0x1_0000 && e2 < 0x1_0000 && n1 <= MAX_SEQ && n2 <= MAX_SEQ
    requires Replay.SeqNum(e1, n1) == Replay.SeqNum(e2, n2)
    ensures e1 == e2 && n1 == n2
  {
    hide Pow2, BigEndian, FromBigEndian;
    Replay.Pow2Of48();
    Pow2Values();
    Pow2Sum(8, 8);
    var s, t := Replay.SeqNum(e1, n1), Replay.SeqNum(e2, n2);
    assert s[..2] == BigEndian(e1, 2) && t[..2] == BigEndian(e2, 2);
    assert s[2..] == BigEndian(n1, 6) && t[2..] == BigEndian(n2, 6);
    BigEndianRoundTrip(e1, 2);
    BigEndianRoundTrip(e2, 2);
    BigEndianRoundTrip(n1, 6);
    BigEndianRoundTrip(n2, 6);
  }
}
