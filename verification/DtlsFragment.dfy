/** DTLS handshake fragments (RFC 6347, section 4.2.2) and the bitmask that tracks which bytes
    of a message have arrived. */
module DtlsFragment {
  import opened Bits
  import opened Wire

  const HEADER_LENGTH: nat := 12

  /** A fragment: the message it belongs to, and a piece of that message's body. */
  datatype Fragment = Fragment(typ: byte, msgLen: nat, seqNum: nat, off: nat, body: seq<byte>) {
    /** The positions of the body it covers. */
    function Covers(): set<nat> {
      Range(off, off + |body|)
    }

    function ByteAt(k: nat): byte
      requires k in Covers()
    {
      body[k - off]
    }
  }

  /** What the header can express. */
  predicate Encodable(f: Fragment) {
    && f.msgLen < 0x100_0000 && f.seqNum < 0x1_0000 && f.off < 0x100_0000 && |f.body| < 0x100_0000
  }

  function Serialize(f: Fragment): (s: seq<byte>)
    ensures |s| == HEADER_LENGTH + |f.body|
  {
    [f.typ] + BigEndian(f.msgLen, 3) + BigEndian(f.seqNum, 2) + BigEndian(f.off, 3) + BigEndian(|f.body|, 3) + f.body
  }

  datatype Parse = Parsed(f: Fragment, rest: seq<byte>) | Malformed

  /** dtls1_parse_fragment: takes a fragment off the front. */
  function ParseFragment(s: seq<byte>): (p: Parse)
    ensures p.Parsed? ==> |p.rest| < |s|
  {
    if |s| < HEADER_LENGTH then Malformed
    else
      var fragLen := FromBigEndian(s[9..12]);
      if |s| - HEADER_LENGTH < fragLen then Malformed
      else
        Parsed(Fragment(s[0], FromBigEndian(s[1..4]), FromBigEndian(s[4..6]), FromBigEndian(s[6..9]),
                        s[12..12 + fragLen]), s[12 + fragLen..])
  }

  lemma SmallPowers()
    ensures Pow2(16) == 0x1_0000 && Pow2(24) == 0x100_0000
  {
    assert Pow2(8) == 256;
    Pow2Sum(8, 8);
    Pow2Sum(16, 8);
  }

  /** Parsing inverts serialising, whatever follows. */
  lemma {:induction false} ParseSerialized(f: Fragment, rest: seq<byte>)
    requires Encodable(f)
    ensures ParseFragment(Serialize(f) + rest) == Parsed(f, rest)
  {
    hide BigEndian, FromBigEndian, Pow2;
    SmallPowers();
    var s := Serialize(f) + rest;
    BigEndianRoundTrip(f.msgLen, 3);
    BigEndianRoundTrip(f.seqNum, 2);
    BigEndianRoundTrip(f.off, 3);
    BigEndianRoundTrip(|f.body|, 3);
    assert s[1..4] == BigEndian(f.msgLen, 3);
    assert s[4..6] == BigEndian(f.seqNum, 2);
    assert s[6..9] == BigEndian(f.off, 3);
    assert s[9..12] == BigEndian(|f.body|, 3);
    assert s[12..12 + |f.body|] == f.body && s[12 + |f.body|..] == rest;
  }

  /** Whatever parses is what serialising the result gives, and is encodable. */
  lemma {:induction false} SerializeParsed(s: seq<byte>)
    requires ParseFragment(s).Parsed?
    ensures Encodable(ParseFragment(s).f)
    ensures s == Serialize(ParseFragment(s).f) + ParseFragment(s).rest
  {
    hide BigEndian, FromBigEndian, Pow2;
    SmallPowers();
    FromBigEndianBound(s[1..4]);
    FromBigEndianBound(s[4..6]);
    FromBigEndianBound(s[6..9]);
    FromBigEndianBound(s[9..12]);
    BytesRoundTrip(s[1..4]);
    BytesRoundTrip(s[4..6]);
    BytesRoundTrip(s[6..9]);
    BytesRoundTrip(s[9..12]);
    assert s[..12] == [s[0]] + s[1..4] + s[4..6] + s[6..9] + s[9..12];
    var n := FromBigEndian(s[9..12]);
    assert s == s[..12] + s[12..12 + n] + s[12 + n..];
  }

  // ---------------------------------------------------------------- the reassembly bitmask

  /** The byte positions lo <= k < hi. */
  function Range(lo: nat, hi: nat): (r: set<nat>)
    ensures forall k :: k in r <==> lo <= k < hi
    decreases hi - lo
  {
    if lo >= hi then {} else {lo} + Range(lo + 1, hi)
  }

  lemma BitRangeFits(start: nat)
    requires start <= 8
    ensures Pow2(start) <= 256
  {
    assert Pow2(8) == 256;
    Pow2Monotone(start, 8);
  }

  /** The bits start <= k < end of a byte, computed on 32-bit words. */
  function BitRange(start: nat, end: nat): byte
    requires start <= end <= 8
  {
    BitRangeFits(start);
    And(0xFFFF_FFFF - (Pow2(start) - 1), Pow2(end) - 1) % 256
  }

  lemma {:induction false} BitRangeBits(start: nat, end: nat, k: nat)
    requires start <= end <= 8
    ensures Bit(BitRange(start, end), k) <==> start <= k < end
  {
    hide Bit, And, Pow2;
    Pow2Values();
    Pow2Monotone(start, 8);
    Pow2Monotone(end, 8);
    var lo, hi := Pow2(start) - 1, Pow2(end) - 1;
    TruncateBit(And(0xFFFF_FFFF - lo, hi), 8, k);
    AndBit(0xFFFF_FFFF - lo, hi, k);
    NotBit(lo, 32, k);
    MaskBit(start, k);
    MaskBit(end, k);
  }

  /** Bit k of a mask laid out over bytes. */
  predicate MaskHas(mask: seq<byte>, k: nat) {
    k / 8 < |mask| && Bit(mask[k / 8], k % 8)
  }

  /** The mask holds exactly the positions in `got`. */
  ghost predicate Holds(mask: seq<byte>, got: set<nat>) {
    forall k: nat :: MaskHas(mask, k) <==> k in got
  }

  /** ORing a range into one byte of the mask. */
  lemma {:induction false} OrIntoByte(mask: seq<byte>, got: set<nat>, i: nat, start: nat, end: nat)
    requires Holds(mask, got) && i < |mask| && start <= end <= 8
    ensures Or(mask[i], BitRange(start, end)) < 256
    ensures Holds(mask[i := Or(mask[i], BitRange(start, end))], got + Range(8 * i + start, 8 * i + end))
  {
    hide Bit, Or, BitRange;
    var b := BitRange(start, end);
    assert Pow2(8) == 256 by { Pow2Values(); }
    OrBound(mask[i], b, 8);
    var next := mask[i := Or(mask[i], b)];
    forall k: nat
      ensures MaskHas(next, k) <==> k in got + Range(8 * i + start, 8 * i + end)
    {
      assert MaskHas(mask, k) <==> k in got;
      OrBit(mask[i], b, k % 8);
      BitRangeBits(start, end, k % 8);
    }
  }

  /** A byte of the mask is full exactly if its eight positions are held. */
  lemma {:induction false} ByteIs(mask: seq<byte>, got: set<nat>, i: nat, n: nat)
    requires Holds(mask, got) && i < |mask| && n <= 8
    requires forall k :: k in got && k < 8 * i + 8 ==> k < 8 * i + n
    ensures mask[i] == BitRange(0, n) <==> Range(8 * i, 8 * i + n) <= got
  {
    hide Bit, BitRange;
    var b := BitRange(0, n);
    assert Pow2(8) == 256 by { Pow2Values(); }
    forall k: nat | k < 8
      ensures Bit(b, k) <==> k < n
      ensures Bit(mask[i], k) <==> 8 * i + k in got
    {
      BitRangeBits(0, n, k);
      assert (8 * i + k) / 8 == i && (8 * i + k) % 8 == k;
      assert MaskHas(mask, 8 * i + k) <==> 8 * i + k in got;
    }
    if Range(8 * i, 8 * i + n) <= got {
      forall k: nat | k < 8
        ensures Bit(mask[i], k) <==> Bit(b, k)
      {
        if k < n {
          assert 8 * i + k in Range(8 * i, 8 * i + n);
        }
      }
      SameBits(mask[i], b, 8);
    }
    if mask[i] == b {
      forall j | j in Range(8 * i, 8 * i + n)
        ensures j in got
      {
        assert Bit(b, j - 8 * i);
      }
    }
  }

  lemma {:induction false} FullByte()
    ensures BitRange(0, 8) == 0xFF
  {
    hide Bit, BitRange;
    assert Pow2(8) == 256 by { Pow2Values(); }
    forall k: nat | k < 8
      ensures Bit(BitRange(0, 8), k) <==> Bit(0xFF, k)
    {
      BitRangeBits(0, 8, k);
      MaskBit(8, k);
    }
    SameBits(BitRange(0, 8), 0xFF, 8);
  }

  // ---------------------------------------------------------------- messages being put together

  /** A message of which some bytes of the body have arrived. */
  datatype Partial = Partial(typ: byte, seqNum: nat, msgLen: nat, bytes: map<nat, byte>) {
    predicate Complete() {
      bytes.Keys == Range(0, msgLen)
    }

    function Body(): seq<byte>
      requires Complete()
    {
      seq(msgLen, k requires 0 <= k < msgLen => bytes[k])
    }
  }

  /** A message of which nothing has arrived. */
  function Blank(f: Fragment): Partial {
    Partial(f.typ, f.seqNum, f.msgLen, map[])
  }

  /** The positions and bytes a fragment carries. */
  function Piece(f: Fragment): (m: map<nat, byte>)
    ensures m.Keys == f.Covers()
  {
    map k | k in f.Covers() :: f.ByteAt(k)
  }

  /** The part of a message buffer that has arrived. */
  function Arrived(data: seq<byte>, got: set<nat>): map<nat, byte>
    requires forall k :: k in got ==> HEADER_LENGTH + k < |data|
  {
    map k | k in got :: data[HEADER_LENGTH + k]
  }

  lemma ArrivedMore(before: seq<byte>, after: seq<byte>, got: set<nat>, f: Fragment)
    requires |before| == |after| && HEADER_LENGTH + f.off + |f.body| <= |before|
    requires forall k :: k in got ==> HEADER_LENGTH + k < |before|
    requires after == before[..HEADER_LENGTH + f.off] + f.body + before[HEADER_LENGTH + f.off + |f.body|..]
    ensures Arrived(after, got + f.Covers()) == Arrived(before, got) + Piece(f)
  {
  }

  /** A message with one more piece of its body, unless it is complete. */
  function Added(p: Partial, f: Fragment): Partial {
    if p.Complete() then p else p.(bytes := p.bytes + Piece(f))
  }

  /** hm_fragment. The mask is dropped once the message is complete. */
  class HmFragment {
    const typ: byte
    const seqNum: nat
    const msgLen: nat
    const data: array<byte>
    var reassembly: array?<byte>
    ghost var got: set<nat>
    ghost const Repr: set<object>

    /** Bit k of the mask is set exactly if position k has arrived; none is set at or past the
        end of the message; and the mask is gone exactly if all positions have arrived. */
    ghost predicate Valid()
      reads this, Repr
    {
      && this in Repr && data in Repr && (reassembly != null ==> reassembly in Repr)
      && data.Length == HEADER_LENGTH + msgLen && got <= Range(0, msgLen)
      && (reassembly == null <==> got == Range(0, msgLen))
      && (reassembly != null ==>
            reassembly != data && reassembly.Length == (msgLen + 7) / 8 && Holds(reassembly[..], got))
    }

    ghost function Now(): Partial
      requires Valid()
      reads this, Repr
    {
      Partial(typ, seqNum, msgLen, Arrived(data[..], got))
    }

    /** dtls1_hm_fragment_new: nothing has arrived. An empty message has no mask. */
    constructor (f: Fragment)
      requires Encodable(f)
      ensures Valid() && fresh(Repr)
      ensures Now() == Blank(f)
      ensures data[..HEADER_LENGTH] ==
                Serialize(Fragment(f.typ, f.msgLen, f.seqNum, 0, []))[..9] + BigEndian(f.msgLen, 3)
    {
      typ, seqNum, msgLen := f.typ, f.seqNum, f.msgLen;
      data := new byte[HEADER_LENGTH + f.msgLen];
      got := {};
      var mask: array?<byte>, parts: set<object> := null, {};
      if f.msgLen > 0 {
        mask := new byte[(f.msgLen + 7) / 8](_ => 0);
        NothingHeld(mask[..]);
        assert 0 in Range(0, f.msgLen);
        parts := {mask};
      }
      reassembly := mask;
      Repr := {this, data} + parts;
      new;
      var header := [f.typ] + BigEndian(f.msgLen, 3) + BigEndian(f.seqNum, 2) + BigEndian(0, 3)
        + BigEndian(f.msgLen, 3);
      forall i | 0 <= i < HEADER_LENGTH {
        data[i] := header[i];
      }
    }

    /** dtls1_hm_fragment_mark. */
    method Mark(start: nat, end: nat)
      requires Valid() && reassembly != null && start <= end <= msgLen
      modifies this, reassembly
      ensures Valid() && got == old(got) + Range(start, end)
      ensures reassembly == null || reassembly == old(reassembly)
    {
      if start == end {
        return;
      }
      SetBits(reassembly, start, end, got);
      got := got + Range(start, end);
      var full := AllBitsSet(reassembly, msgLen, got);
      if full {
        reassembly := null;
      }
    }

    method CopyIn(at: nat, piece: seq<byte>)
      requires at + |piece| <= data.Length
      modifies data
      ensures data[..] == old(data[..at]) + piece + old(data[at + |piece|..])
    {
      forall i | 0 <= i < |piece| {
        data[at + i] := piece[i];
      }
    }

    /** The end of the loop of dtls1_open_handshake: copies a piece of the body into place,
        unless the message is already complete. */
    method Receive(f: Fragment)
      requires Valid() && f.off + |f.body| <= msgLen
      modifies Repr
      ensures Valid() && (reassembly == null || reassembly == old(reassembly))
      ensures Now() == Added(old(Now()), f)
    {
      ghost var p, before, was := Now(), data[..], got;
      assert p.bytes.Keys == was;
      if reassembly == null {
        return;
      }
      CopyIn(HEADER_LENGTH + f.off, f.body);
      ghost var after := data[..];
      ArrivedMore(before, after, was, f);
      Mark(f.off, f.off + |f.body|);
      assert data[..] == after;
      assert Now() == p.(bytes := Arrived(after, was + f.Covers()));
    }
  }

  /** The first half of dtls1_hm_fragment_mark: sets the bits start <= k < end. */
  method SetBits(mask: array<byte>, start: nat, end: nat, ghost got: set<nat>)
    requires start < end <= 8 * mask.Length && Holds(mask[..], got)
    modifies mask
    ensures Holds(mask[..], got + Range(start, end))
  {
    hide Or, BitRange, Holds;
    if start / 8 == end / 8 {
      OrIntoByte(mask[..], got, start / 8, start % 8, end % 8);
      mask[start / 8] := Or(mask[start / 8], BitRange(start % 8, end % 8));
    } else {
      OrIntoByte(mask[..], got, start / 8, start % 8, 8);
      mask[start / 8] := Or(mask[start / 8], BitRange(start % 8, 8));
      var i := start / 8 + 1;
      while i < end / 8
        invariant start / 8 < i <= end / 8
        invariant Holds(mask[..], got + Range(start, 8 * i))
      {
        FillByte(mask[..], got + Range(start, 8 * i), i);
        JoinRanges(got, start, 8 * i, 8 * i + 8);
        mask[i] := 0xFF;
        i := i + 1;
      }
      if end % 8 != 0 {
        OrIntoByte(mask[..], got + Range(start, 8 * i), end / 8, 0, end % 8);
        JoinRanges(got, start, 8 * i, end);
        mask[end / 8] := Or(mask[end / 8], BitRange(0, end % 8));
      }
    }
  }

  lemma JoinRanges(got: set<nat>, a: nat, b: nat, c: nat)
    requires a <= b <= c
    ensures got + Range(a, b) + Range(b, c) == got + Range(a, c)
  {
  }

  /** The second half of dtls1_hm_fragment_mark: whether the bits below msgLen are all set. */
  method AllBitsSet(mask: array<byte>, msgLen: nat, ghost got: set<nat>) returns (full: bool)
    requires mask.Length == (msgLen + 7) / 8 && Holds(mask[..], got) && got <= Range(0, msgLen)
    ensures full <==> got == Range(0, msgLen)
  {
    hide BitRange, Holds;
    FullByte();
    var i := 0;
    while i < msgLen / 8
      invariant i <= msgLen / 8
      invariant Range(0, 8 * i) <= got
    {
      ByteIs(mask[..], got, i, 8);
      if mask[i] != 0xFF {
        Missing(got, 8 * i, 8 * i + 8, msgLen);
        return false;
      }
      JoinRanges({}, 0, 8 * i, 8 * i + 8);
      i := i + 1;
    }
    if msgLen % 8 != 0 {
      ByteIs(mask[..], got, msgLen / 8, msgLen % 8);
      if mask[msgLen / 8] != BitRange(0, msgLen % 8) {
        Missing(got, 8 * i, msgLen, msgLen);
        return false;
      }
    }
    JoinRanges({}, 0, 8 * i, msgLen);
    return true;
  }

  lemma Missing(got: set<nat>, lo: nat, hi: nat, n: nat)
    requires !(Range(lo, hi) <= got) && hi <= n
    ensures got != Range(0, n)
  {
  }

  lemma NothingHeld(mask: seq<byte>)
    requires forall i :: 0 <= i < |mask| ==> mask[i] == 0
    ensures Holds(mask, {})
  {
    forall k: nat
      ensures !MaskHas(mask, k)
    {
      ZeroBit(k % 8);
    }
  }

  lemma {:induction false} FillByte(mask: seq<byte>, got: set<nat>, i: nat)
    requires Holds(mask, got) && i < |mask|
    ensures Holds(mask[i := 0xFF], got + Range(8 * i, 8 * i + 8))
  {
    hide Bit;
    var next := mask[i := 0xFF];
    forall k: nat
      ensures MaskHas(next, k) <==> k in got + Range(8 * i, 8 * i + 8)
    {
      assert MaskHas(mask, k) <==> k in got;
      assert Pow2(8) == 256 by { Pow2Values(); }
      MaskBit(8, k % 8);
    }
  }
}
