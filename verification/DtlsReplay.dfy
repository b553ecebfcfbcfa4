/** The DTLS anti-replay window (RFC 6347, section 4.1.2.6) and the order of checks around it. */
module DtlsReplay {
  import opened Wrappers
  import opened Bits
  import opened Wire

  const WINDOW: nat := 64

  /** to_u64_be. */
  method ToU64BE(input: seq<byte>) returns (ret: nat)
    requires |input| == 8
    ensures ret == FromBigEndian(input) < 0x1_0000_0000_0000_0000
  {
    Pow2Values();
    assert FromBigEndian(input[..0]) == 0;
    hide Or, Pow2, FromBigEndian;
    ret := 0;
    var i := 0;
    while i < 8
      invariant i <= 8 && ret == FromBigEndian(input[..i]) < Pow2(8 * i)
    {
      NextByte(input, i);
      ret := Or(ret * 256 % 0x1_0000_0000_0000_0000, input[i]);
      i := i + 1;
    }
    assert input[..8] == input;
  }

  lemma {:induction false} NextByte(input: seq<byte>, i: nat)
    requires i < 8 == |input| && FromBigEndian(input[..i]) < Pow2(8 * i)
    ensures Or(FromBigEndian(input[..i]) * 256 % 0x1_0000_0000_0000_0000, input[i]) == FromBigEndian(input[..i + 1])
    ensures FromBigEndian(input[..i + 1]) < Pow2(8 * (i + 1))
  {
    hide Or, Pow2;
    Pow2Values();
    Pow2Byte(i);
    Pow2Monotone(8 * i + 8, 64);
    assert input[..i + 1][..i] == input[..i];
    OrByte(FromBigEndian(input[..i]), input[i]);
  }

  lemma {:induction false} OrByte(x: nat, b: byte)
    requires x * 256 < 0x1_0000_0000_0000_0000
    ensures Or(x * 256 % 0x1_0000_0000_0000_0000, b) == x * 256 + b
  {
    hide Or;
    assert Pow2(8) == 256;
    OrDisjoint(b, x, 8);
    OrComm(b, x * 256);
  }

  /** DTLS1_BITMAP. */
  class ReplayWindow {
    var bits: nat
    var maxSeq: nat
    ghost var recorded: set<nat>

    /** Bit i is set exactly if maxSeq - i was recorded, and maxSeq is the newest recorded. */
    ghost predicate Valid()
      reads this
    {
      && bits < 0x1_0000_0000_0000_0000 && Tracks(bits, maxSeq, recorded)
      && (if recorded == {} then maxSeq == 0 else maxSeq in recorded)
    }

    constructor ()
      ensures Valid() && recorded == {}
    {
      bits, maxSeq, recorded := 0, 0, {};
      new;
      NothingTracked();
    }

    /** dtls1_bitmap_should_discard: exactly the numbers recorded before, and those too old for
        the window to tell. */
    method ShouldDiscard(seqNum: seq<byte>) returns (discard: bool)
      requires Valid() && |seqNum| == 8
      ensures discard <==> FromBigEndian(seqNum) in recorded || FromBigEndian(seqNum) + WINDOW <= maxSeq
    {
      var s := ToU64BE(seqNum);
      if s > maxSeq {
        return false;
      }
      var idx := maxSeq - s;
      if idx >= WINDOW {
        return true;
      }
      AndPow(bits, idx);
      assert TracksAt(bits, maxSeq, recorded, idx);
      return And(bits, Pow2(idx)) != 0;
    }

    /** dtls1_bitmap_record. */
    method Record(seqNum: seq<byte>)
      requires Valid() && |seqNum| == 8
      modifies this
      ensures Valid() && recorded == old(recorded) + {FromBigEndian(seqNum)}
      ensures maxSeq == if FromBigEndian(seqNum) > old(maxSeq) then FromBigEndian(seqNum) else old(maxSeq)
    {
      var s := ToU64BE(seqNum);
      if s > maxSeq {
        var shift := s - maxSeq;
        WindowMoves(bits, maxSeq, recorded, shift);
        bits := Slid(bits, shift);
        maxSeq := s;
      }
      var idx := maxSeq - s;
      SetInWindow(bits, maxSeq, recorded, s);
      if idx < WINDOW {
        bits := Or(bits, Pow2(idx));
      }
      recorded := recorded + {s};
    }

    /** The window of a new epoch. */
    method Reset()
      modifies this
      ensures Valid() && recorded == {}
    {
      bits, maxSeq, recorded := 0, 0, {};
      NothingTracked();
    }
  }

  ghost predicate TracksAt(bits: nat, max: nat, recorded: set<nat>, i: nat) {
    Bit(bits, i) <==> i <= max && max - i in recorded
  }

  ghost predicate Tracks(bits: nat, max: nat, recorded: set<nat>) {
    && (forall i :: 0 <= i < WINDOW ==> TracksAt(bits, max, recorded, i))
    && (forall s :: s in recorded ==> s <= max)
  }

  lemma NothingTracked()
    ensures Tracks(0, 0, {})
  {
    forall i: nat
      ensures !Bit(0, i)
    {
      ZeroBit(i);
    }
  }

  /** The map shifted left on 64 bits; shifts by the width or more are avoided in the source. */
  function Slid(bits: nat, shift: nat): nat {
    if shift >= WINDOW then 0 else bits * Pow2(shift) % 0x1_0000_0000_0000_0000
  }

  /** Sliding the window forward keeps what it still reaches. */
  lemma {:induction false} WindowMoves(bits: nat, max: nat, recorded: set<nat>, shift: nat)
    requires Tracks(bits, max, recorded) && shift > 0 && bits < 0x1_0000_0000_0000_0000
    ensures Slid(bits, shift) < 0x1_0000_0000_0000_0000 && Tracks(Slid(bits, shift), max + shift, recorded)
  {
    hide Bit;
    var top, next := max + shift, Slid(bits, shift);
    forall i | 0 <= i < WINDOW
      ensures TracksAt(next, top, recorded, i)
    {
      if shift >= WINDOW {
        ZeroBit(i);
      } else {
        assert Pow2(64) == 0x1_0000_0000_0000_0000 by { Pow2Values(); }
        TruncateBit(bits * Pow2(shift), 64, i);
        ShiftBit(bits, shift, i);
        assert i >= shift ==> TracksAt(bits, max, recorded, i - shift);
      }
    }
  }

  lemma {:induction false} SetInWindow(bits: nat, max: nat, recorded: set<nat>, s: nat)
    requires Tracks(bits, max, recorded) && s <= max && bits < 0x1_0000_0000_0000_0000
    ensures var next := if max - s < WINDOW then Or(bits, Pow2(max - s)) else bits;
            next < 0x1_0000_0000_0000_0000 && Tracks(next, max, recorded + {s})
  {
    hide Bit, Or, Pow2;
    var idx := max - s;
    var next := if idx < WINDOW then Or(bits, Pow2(idx)) else bits;
    if idx < WINDOW {
      Pow2Values();
      Pow2Monotone(idx, 63);
      OrBound(bits, Pow2(idx), 64);
    }
    forall i | 0 <= i < WINDOW
      ensures TracksAt(next, max, recorded + {s}, i)
    {
      assert TracksAt(bits, max, recorded, i);
      if idx < WINDOW {
        OrBit(bits, Pow2(idx), i);
        PowBit(idx, i);
      }
    }
  }

  // ---------------------------------------------------------------- opening records

  const HEADER_LENGTH: nat := 13
  const MAX_PLAIN_LENGTH: nat := 16384
  const MAX_ENCRYPTED_LENGTH: nat := 16704

  datatype RecordResult = Partial | CloseNotify | Discarded | TooLong | Opened(typ: byte, plaintext: seq<byte>)

  /** The sequence number of a record: its epoch and its number within the epoch. */
  function SeqNum(epoch: nat, n: nat): seq<byte> {
    BigEndian(epoch, 2) + BigEndian(n, 6)
  }

  /** The receiving half of the record layer's state. */
  class RecordReader {
    var readEpoch: nat
    var window: ReplayWindow
    /** The sequence numbers of all records accepted so far, in order. */
    ghost var accepted: seq<nat>

    /** No record was accepted twice, and the window knows all those of this epoch. */
    ghost predicate Valid()
      reads this, window
    {
      && window.Valid() && Distinct(accepted)
      && (forall n :: n in accepted ==> EpochOf(n) <= readEpoch)
      && (forall n :: n in window.recorded <==> n in accepted && EpochOf(n) == readEpoch)
    }

    constructor ()
      ensures Valid() && fresh(window) && readEpoch == 0 && accepted == []
    {
      window := new ReplayWindow();
      readEpoch, accepted := 0, [];
    }

    /** dtls_open_record. `openResult` is what the AEAD makes of the body; version and closing are
        checked against the connection's state. A forged or damaged record (openResult None)
        leaves the window alone. */
    method OpenRecord(input: seq<byte>, closed: bool, nullCipher: bool, recordVersion: nat,
                      openResult: Option<seq<byte>>)
      returns (result: RecordResult, consumed: nat)
      requires Valid()
      modifies this`accepted, window
      ensures Valid() && window == old(window) && consumed <= |input|
      ensures result.Opened? <==>
                && !closed && Acceptable(input, nullCipher, recordVersion, openResult)
                && Admits(readEpoch, old(accepted), FromBigEndian(input[3..11]))
      ensures if result.Opened? then
                result == Opened(input[0], openResult.value)
                  && accepted == old(accepted) + [FromBigEndian(input[3..11])]
              else
                accepted == old(accepted) && window.maxSeq == old(window.maxSeq) && window.bits == old(window.bits)
      ensures window.maxSeq >= old(window.maxSeq)
    {
      if closed {
        return CloseNotify, 0;
      }
      if input == [] {
        return Partial, 0;
      }
      if |input| < HEADER_LENGTH {
        return Discarded, |input|;
      }
      var version, bodyLen := FromBigEndian(input[1..3]), FromBigEndian(input[11..13]);
      if |input| - HEADER_LENGTH < bodyLen || bodyLen > MAX_ENCRYPTED_LENGTH {
        return Discarded, |input|;
      }
      var versionOk := if nullCipher then version / 256 == 0xFE else version == recordVersion;
      if !versionOk {
        return Discarded, |input|;
      }
      consumed := HEADER_LENGTH + bodyLen;
      var sequence := input[3..11];
      EpochBytes(sequence);
      var epoch := FromBigEndian(sequence[..2]);
      var replay := true;
      if epoch == readEpoch {
        replay := window.ShouldDiscard(sequence);
      }
      assert replay <==> !Admits(readEpoch, accepted, FromBigEndian(sequence));
      if replay || openResult.None? {
        return Discarded, consumed;
      }
      if |openResult.value| > MAX_PLAIN_LENGTH {
        return TooLong, consumed;
      }
      window.Record(sequence);
      DistinctAppend(accepted, FromBigEndian(sequence));
      accepted := accepted + [FromBigEndian(sequence)];
      return Opened(input[0], openResult.value), consumed;
    }

    /** dtls1_set_read_state, after its check for leftover handshake data. */
    method SetReadState()
      requires Valid()
      modifies this`readEpoch, window
      ensures Valid() && readEpoch == old(readEpoch) + 1 && accepted == old(accepted) && window == old(window)
      ensures window.recorded == {} && window.maxSeq == 0
    {
      readEpoch := readEpoch + 1;
      window.Reset();
    }
  }

  /** A record with an intact header whose body the AEAD accepts. */
  predicate Acceptable(input: seq<byte>, nullCipher: bool, recordVersion: nat, openResult: Option<seq<byte>>) {
    && |input| >= HEADER_LENGTH
    && FromBigEndian(input[11..13]) <= |input| - HEADER_LENGTH && FromBigEndian(input[11..13]) <= MAX_ENCRYPTED_LENGTH
    && (if nullCipher then FromBigEndian(input[1..3]) / 256 == 0xFE else FromBigEndian(input[1..3]) == recordVersion)
    && openResult.Some? && |openResult.value| <= MAX_PLAIN_LENGTH
  }

  /** A sequence number of the epoch that was not accepted before, with all numbers accepted in the
      epoch less than 64 ahead of it. */
  ghost predicate Admits(epoch: nat, accepted: seq<nat>, s: nat) {
    EpochOf(s) == epoch && s !in accepted && forall a :: a in accepted && EpochOf(a) == epoch ==> a < s + WINDOW
  }

  function EpochOf(n: nat): nat {
    n / 0x1_0000_0000_0000
  }

  ghost predicate Distinct(s: seq<nat>) {
    forall i, j :: 0 <= i < j < |s| ==> s[i] != s[j]
  }

  lemma DistinctAppend(s: seq<nat>, n: nat)
    requires Distinct(s) && n !in s
    ensures Distinct(s + [n])
  {
  }

  /** The epoch is the first two bytes of a sequence number. */
  lemma {:induction false} EpochBytes(s: seq<byte>)
    requires |s| == 8
    ensures EpochOf(FromBigEndian(s)) == FromBigEndian(s[..2])
  {
    hide Pow2, FromBigEndian;
    assert s == s[..2] + s[2..];
    FromBigEndianConcat(s[..2], s[2..]);
    FromBigEndianBound(s[2..]);
    Pow2Of48();
    RemainderUnique(FromBigEndian(s[..2]), 0x1_0000_0000_0000, FromBigEndian(s[2..]));
  }

  lemma Pow2Of48()
    ensures Pow2(48) == 0x1_0000_0000_0000
  {
    Pow2Values();
    Pow2Sum(32, 8);
    Pow2Sum(40, 8);
  }
}
