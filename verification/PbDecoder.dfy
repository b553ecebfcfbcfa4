/** nanopb's decoder. Every method accepts exactly what the wire format accepts, stores what it
    says and leaves the stream behind it; all of them terminate on any input. */
module PbDecoder {
  import opened Wrappers
  import opened Bits
  import opened PbVarint
  import opened PbSchema
  import opened PbFormat
  import opened PbStream
  import opened PbFieldIter

  /** The struct a message is decoded into. */
  class Message {
    var slots: seq<Slot>

    constructor (slots: seq<Slot>)
      ensures this.slots == slots
    {
      this.slots := slots;
    }
  }

  // ---------------------------------------------------------------- varints

  /** pb_decode_varint32_eof. */
  method DecodeVarint32Eof(stream: IStream) returns (ok: bool, value: nat, eof: bool)
    requires stream.Valid()
    modifies stream
    ensures stream.Valid() && stream.End() == old(stream.End())
    ensures Agrees(DecVarint32(old(stream.View())), ok, value, stream.View())
    ensures eof <==> old(stream.View()) == []
  {
    hide Or32, Shl32;
    ghost var s := stream.View();
    var b;
    eof, value := false, 0;
    ok, b := stream.ReadByte();
    if !ok {
      eof := true;
      return;
    }
    if b < 128 {
      value := b;
      return;
    }
    var bitpos: nat, result: nat := 7, b - 128;
    var more := true;
    while more
      invariant stream.Valid() && stream.End() == old(stream.End())
      invariant bitpos < 256 && result < 0x1_0000_0000
      invariant more ==> DecVarint32(s) == Dec32Tail(stream.View(), bitpos, result)
      invariant !more ==> b < 128
      invariant !more ==> DecVarint32(s) == (if bitpos == 35 && b / 16 % 8 != 0 then Err else Ok(result, stream.View()))
      decreases stream.bytesLeft, more
    {
      ok, b := stream.ReadByte();
      if !ok {
        return;
      }
      if bitpos >= 32 {
        var signExtension := if bitpos < 63 then 0xFF else 0x01;
        if b % 128 != 0 && (result / 0x8000_0000 == 0 || b != signExtension) {
          return false, 0, false;
        }
      } else {
        result := Or32(result, Shl32(b % 128, bitpos));
      }
      bitpos := (bitpos + 7) % 256;
      more := b >= 128;
    }
    if bitpos == 35 && b / 16 % 8 != 0 {
      return false, 0, false;
    }
    return true, result, false;
  }

  method DecodeVarint32(stream: IStream) returns (ok: bool, value: nat)
    requires stream.Valid()
    modifies stream
    ensures stream.Valid() && stream.End() == old(stream.End())
    ensures Agrees(DecVarint32(old(stream.View())), ok, value, stream.View())
  {
    var eof;
    ok, value, eof := DecodeVarint32Eof(stream);
  }

  /** x << n on 64 bits. */
  function Shl64(x: nat, n: nat): nat {
    x * Pow2(n) % 0x1_0000_0000_0000_0000
  }

  function Digit(d: nat, n: nat): nat {
    d * Pow2(n)
  }

  function Low64(x: nat): nat {
    x % 0x1_0000_0000_0000_0000
  }

  /** ORing in the next group of seven bits, as far as it fits 64 bits. */
  lemma {:induction false} NextGroup(low: nat, d: nat, i: nat)
    requires i < 10 && low < Pow2(7 * i) && d < 128
    ensures low + Digit(d, 7 * i) < Pow2(7 * i + 7)
    ensures Low64(low) == low
    ensures Or(low, Shl64(d, 7 * i)) == Low64(low + Digit(d, 7 * i))
  {
    hide Or, Pow2, Shl64;
    var p := Pow2(7 * i);
    Pow2Values();
    Pow2Step(7 * i);
    Pow2Monotone(7 * i, 63);
    Multiple(d, 128, p);
    if i < 9 {
      Pow2Monotone(7 * i + 7, 63);
      InnerGroup(low, d, 7 * i);
    } else {
      LastGroupOf64(low, d);
    }
  }

  lemma {:induction false} InnerGroup(low: nat, d: nat, n: nat)
    requires low < Pow2(n) && low + d * Pow2(n) < 0x8000_0000_0000_0000
    ensures Or(low, Shl64(d, n)) == (low + d * Pow2(n)) % 0x1_0000_0000_0000_0000
  {
    hide Or, Pow2;
    Wraps(d * Pow2(n), 0);
    Wraps(low + d * Pow2(n), 0);
    OrDisjoint(low, d, n);
  }

  /** Only one bit of the tenth group fits. */
  lemma {:induction false} LastGroupOf64(low: nat, d: nat)
    requires low < Pow2(63)
    ensures Or(low, Shl64(d, 63)) == (low + d * Pow2(63)) % 0x1_0000_0000_0000_0000
  {
    hide Or, Pow2;
    Pow2Values();
    var top: nat := d % 2;
    assert d == top + 2 * (d / 2);
    Wraps(top * 0x8000_0000_0000_0000, d / 2);
    Wraps(low + top * 0x8000_0000_0000_0000, d / 2);
    OrDisjoint(low, top, 63);
  }

  lemma Wraps(x: nat, k: nat)
    requires x < 0x1_0000_0000_0000_0000
    ensures (x + 0x1_0000_0000_0000_0000 * k) % 0x1_0000_0000_0000_0000 == x
  {
  }

  /** pb_decode_varint. */
  method DecodeVarint(stream: IStream) returns (ok: bool, value: nat)
    requires stream.Valid()
    modifies stream
    ensures stream.Valid() && stream.End() == old(stream.End())
    ensures Agrees(DecVarint64(old(stream.View())), ok, value, stream.View())
  {
    assert Pow2(0) == 1;
    StartGroups(stream.View());
    WholeValue(stream.View());
    hide Or, Pow2, Shl64, ReadGroups, DecVarint64, DecVarint32, Dec32Tail, EncVarint, Shifted, Digit, Low64,
      VarintLength;
    ghost var s, low: nat, i: nat := stream.View(), 0, 0;
    var bitpos: nat, result: nat, more := 0, 0, true;
    while more
      invariant stream.Valid() && stream.End() == old(stream.End())
      invariant bitpos == 7 * i && i <= 10 && low < Pow2(bitpos)
      invariant result == Low64(low)
      invariant i < 10 ==> bitpos < 64
      invariant more ==> ReadGroups(s, 10) == Shifted(ReadGroups(stream.View(), 10 - i), low, bitpos)
      invariant !more ==> ReadGroups(s, 10) == Ok(low, stream.View())
      decreases stream.bytesLeft, more
    {
      ghost var s0 := stream.View();
      GroupStep(s0, 10 - i, low, bitpos);
      if bitpos >= 64 {
        return false, 0;
      }
      var b;
      ok, b := stream.ReadByte();
      if !ok {
        return false, 0;
      }
      var d: nat := b % 128;
      assert d == s0[0] % 128 && b == s0[0] && stream.View() == s0[1..];
      NextGroup(low, d, i);
      result := Or(result, Shl64(d, bitpos));
      low := low + Digit(d, bitpos);
      bitpos := bitpos + 7;
      i := i + 1;
      more := b >= 128;
    }
    return true, result;
  }

  lemma WholeValue(s: seq<byte>)
    ensures DecVarint64(s) == match ReadGroups(s, 10) case Err => Err case Ok(v, rest) => Ok(Low64(v), rest)
    ensures Low64(0) == 0
  {
  }

  /** A value read after n bits worth `low`. */
  function Shifted(p: Parsed<nat>, low: nat, n: nat): Parsed<nat> {
    match p case Err => Err case Ok(v, rest) => Ok(low + Pow2(n) * v, rest)
  }

  lemma StartGroups(s: seq<byte>)
    ensures Shifted(ReadGroups(s, 10), 0, 0) == ReadGroups(s, 10)
  {
    assert Pow2(0) == 1;
  }

  /** One more group at position n. */
  lemma {:induction false} GroupStep(s: seq<byte>, k: nat, low: nat, n: nat)
    ensures k == 0 || s == [] ==> Shifted(ReadGroups(s, k), low, n) == Err
    ensures k > 0 && s != [] ==>
              var next: nat := low + Digit(s[0] % 128, n);
              Shifted(ReadGroups(s, k), low, n) ==
              if s[0] >= 128 then Shifted(ReadGroups(s[1..], k - 1), next, n + 7) else Ok(next, s[1..])
  {
    hide Pow2;
    if k > 0 && s != [] {
      Pow2Step(n);
      if s[0] >= 128 && ReadGroups(s[1..], k - 1).Ok? {
        var d: nat, v := s[0] % 128, ReadGroups(s[1..], k - 1).value;
        assert Pow2(n) * (d + 128 * v) == d * Pow2(n) + (128 * Pow2(n)) * v;
      }
    }
  }

  /** pb_decode_tag: eof is set at the end of the stream and on a zero tag. */
  method DecodeTag(stream: IStream) returns (ok: bool, tag: nat, wireType: nat, eof: bool)
    requires stream.Valid()
    modifies stream
    ensures stream.Valid() && stream.End() == old(stream.End())
    ensures match DecTag(old(stream.View()))
            case Err => !ok && (eof <==> old(stream.View()) == [])
            case Ok(Stop, rest) => !ok && eof && stream.View() == rest
            case Ok(Tag(t, wt), rest) => ok && tag == t && wireType == wt && stream.View() == rest
  {
    hide DecVarint32;
    var temp;
    tag, wireType := 0, 0;
    ok, temp, eof := DecodeVarint32Eof(stream);
    if !ok {
      return;
    }
    if temp == 0 {
      eof := true;
      return false, 0, 0, true;
    }
    tag, wireType := temp / 8, temp % 8;
  }

  // ---------------------------------------------------------------- skipping

  method SkipVarint(stream: IStream) returns (ok: bool)
    requires stream.Valid()
    modifies stream
    ensures stream.Valid() && stream.End() == old(stream.End())
    ensures Agrees(Skip(WT_VARINT, old(stream.View())), ok, (), stream.View())
  {
    ghost var s := stream.View();
    ghost var n := 0;
    var more := true;
    while more
      invariant stream.Valid() && stream.End() == old(stream.End())
      invariant n <= |s| && stream.View() == s[n..]
      invariant VarintLength(s) == n + (if more then VarintLength(s[n..]) else 0)
      decreases stream.bytesLeft, more
    {
      var data;
      ok, data := stream.Read(1);
      if !ok {
        return;
      }
      more := data[0] >= 128;
      n := n + 1;
    }
    ok := true;
  }

  method SkipString(stream: IStream) returns (ok: bool)
    requires stream.Valid()
    modifies stream
    ensures stream.Valid() && stream.End() == old(stream.End())
    ensures Agrees(Skip(WT_STRING, old(stream.View())), ok, (), stream.View())
  {
    hide DecVarint32;
    var length, data;
    ok, length := DecodeVarint32(stream);
    if !ok {
      return;
    }
    ok, data := stream.Read(length);
  }

  /** pb_skip_field. */
  method SkipField(stream: IStream, wireType: nat) returns (ok: bool)
    requires stream.Valid()
    modifies stream
    ensures stream.Valid() && stream.End() == old(stream.End())
    ensures Agrees(Skip(wireType, old(stream.View())), ok, (), stream.View())
  {
    hide DecVarint32, VarintLength;
    var data;
    if wireType == WT_VARINT {
      ok := SkipVarint(stream);
    } else if wireType == WT_64BIT {
      ok, data := stream.Read(8);
    } else if wireType == WT_STRING {
      ok := SkipString(stream);
    } else if wireType == WT_32BIT {
      ok, data := stream.Read(4);
    } else {
      ok := false;
    }
  }

  // ---------------------------------------------------------------- substreams

  /** pb_make_string_substream: the substream is limited to the length announced; the bytes are
      taken off the parent's count, whose cursor is moved when the substream is closed. */
  method MakeStringSubstream(stream: IStream) returns (ok: bool, substream: IStream)
    requires stream.Valid()
    modifies stream
    ensures stream.Valid() && stream.End() <= old(stream.End()) && fresh(substream)
    ensures ok <==> DecBlob(old(stream.View())).Ok?
    ensures ok ==> Contains(stream, substream, old(stream.End()))
    ensures ok ==> substream.End() + stream.bytesLeft == old(stream.End())
    ensures ok ==> substream.View() == DecBlob(old(stream.View())).value
    ensures ok ==> stream.source[substream.End()..old(stream.End())] == DecBlob(old(stream.View())).rest
    ensures !ok ==> stream.End() == old(stream.End())
  {
    hide DecVarint32;
    var size;
    ok, size := DecodeVarint32(stream);
    if !ok {
      substream := new IStream([]);
      return;
    }
    substream := new IStream.Sub(stream.source, stream.state, stream.bytesLeft);
    if substream.bytesLeft < size {
      return false, substream;
    }
    substream.bytesLeft := size;
    stream.bytesLeft := stream.bytesLeft - size;
  }

  /** The substream reads the parent's buffer somewhere before the parent's own bytes. */
  ghost predicate Contains(stream: IStream, substream: IStream, end: nat)
    reads stream, substream
  {
    && substream.Valid() && stream != substream && substream.source == stream.source
    && substream.End() + stream.bytesLeft <= end <= |stream.source|
  }

  /** pb_close_string_substream: what was not read is skipped, and the parent goes on behind it. */
  method CloseStringSubstream(stream: IStream, substream: IStream, ghost end: nat)
    requires Contains(stream, substream, end)
    modifies stream, substream
    ensures stream.Valid() && stream.bytesLeft == old(stream.bytesLeft)
    ensures stream.state == old(substream.End()) && stream.End() <= end
  {
    if substream.bytesLeft > 0 {
      var ok, data := substream.Read(substream.bytesLeft);
    }
    stream.state := substream.state;
  }

  // ---------------------------------------------------------------- scalars

  /** pb_dec_varint, pb_dec_uvarint and pb_dec_svarint. */
  method DecodeNum(stream: IStream, f: Field) returns (ok: bool, v: Value)
    requires stream.Valid() && (f.ltype.Varint? || f.ltype.UVarint? || f.ltype.SVarint?)
    modifies stream
    ensures stream.Valid() && stream.End() == old(stream.End())
    ensures Agrees(DecNum(f, old(stream.View())), ok, v, stream.View())
  {
    hide DecVarint64;
    var value;
    v := Num(0);
    ok, value := DecodeVarint(stream);
    if !ok {
      return;
    }
    match WordToNum(f, value) {
      case None => ok := false;
      case Some(n) => v := Num(n);
    }
  }

  method DecodeFixed(stream: IStream, k: nat) returns (ok: bool, v: Value)
    requires stream.Valid() && (k == 4 || k == 8)
    modifies stream
    ensures stream.Valid() && stream.End() == old(stream.End())
    ensures Agrees(DecFixed(k, old(stream.View())), ok, v, stream.View())
  {
    var data;
    v := Num(0);
    ok, data := stream.Read(k);
    if ok {
      v := Num(FromLittleEndian(data));
    }
  }

  /** pb_dec_bytes, pb_dec_string and pb_dec_fixed_length_bytes. */
  method DecodeBlob(stream: IStream, f: Field) returns (ok: bool, v: Value)
    requires stream.Valid() && (f.ltype.Bytes? || f.ltype.String? || f.ltype.FixedLengthBytes?)
    modifies stream
    ensures stream.Valid() && stream.End() == old(stream.End())
    ensures Agrees(DecValue(f, Num(0), old(stream.View())), ok, v, stream.View())
  {
    hide DecVarint32;
    var size, data;
    v := Num(0);
    ok, size := DecodeVarint32(stream);
    if !ok {
      return;
    }
    match f.ltype {
      case Bytes => ok := size + PB_SIZE_BYTES <= f.dataSize;
      case String => ok := size + 1 <= f.dataSize;
      case _ =>
        if size == 0 {
          v := Blob(Zeros(f.dataSize));
          return;
        }
        ok := size == f.dataSize;
    }
    if !ok {
      return;
    }
    ok, data := stream.Read(size);
    v := Blob(data);
  }

  // ---------------------------------------------------------------- fields

  /** The decoder for a field's type. `base` is what the destination holds. */
  method DecodeValue(stream: IStream, f: Field, base: Value) returns (ok: bool, v: Value)
    requires stream.Valid() && WfField(f)
    modifies stream
    ensures stream.Valid() && stream.End() <= old(stream.End())
    ensures ok ==> stream.End() == old(stream.End())
    ensures Agrees(DecValue(f, base, old(stream.View())), ok, v, stream.View())
    decreases stream.bytesLeft, 1
  {
    match f.ltype {
      case Varint | UVarint | SVarint => ok, v := DecodeNum(stream, f);
      case Fixed32 => ok, v := DecodeFixed(stream, 4);
      case Fixed64 => ok, v := DecodeFixed(stream, 8);
      case Bytes | String | FixedLengthBytes => ok, v := DecodeBlob(stream, f);
      case Submessage(sub) => ok, v := DecodeSubmessage(stream, f, base);
    }
  }

  /** pb_dec_submessage: array entries start from their defaults, other submessages are merged
      into what is there. */
  method DecodeSubmessage(stream: IStream, f: Field, base: Value) returns (ok: bool, v: Value)
    requires stream.Valid() && WfField(f) && f.ltype.Submessage?
    modifies stream
    ensures stream.Valid() && stream.End() <= old(stream.End())
    ensures ok ==> stream.End() == old(stream.End())
    ensures Agrees(DecValue(f, base, old(stream.View())), ok, v, stream.View())
    decreases stream.bytesLeft, 0
  {
    hide DecMessage, DecBlob, SlotCount, DefaultSlots;
    var substream;
    ghost var end := stream.End();
    v := Num(0);
    ok, substream := MakeStringSubstream(stream);
    if !ok {
      return;
    }
    var dest := new Message(SlotsFor(f.ltype.fields, base));
    if f.htype.Repeated? {
      ok := Decode(substream, f.ltype.fields, dest);
    } else {
      OnTopOf(f.ltype.fields, base, substream.View());
      ok := DecodeNoinit(substream, f.ltype.fields, dest);
    }
    v := Struct(dest.slots);
    CloseStringSubstream(stream, substream, end);
  }

  lemma {:induction false} OnTopOf(fields: seq<Field>, base: Value, s: seq<byte>)
    ensures DecMessage(fields, Struct(SlotsFor(fields, base)), s) == DecMessage(fields, base, s)
  {
    hide DecLoop;
  }

  /** The packed array branch of decode_static_field, on a slot whose array it extends. */
  method DecodePackedArray(stream: IStream, f: Field, items: seq<Value>) returns (ok: bool, more: seq<Value>)
    requires stream.Valid() && WfField(f)
    modifies stream
    ensures stream.Valid() && stream.End() <= old(stream.End())
    ensures ok ==> stream.End() == old(stream.End())
    ensures Agrees(PackedField(f, items, old(stream.View())), ok, more, stream.View())
    decreases stream.bytesLeft, 2
  {
    var substream;
    ghost var end := stream.End();
    more := items;
    ok, substream := MakeStringSubstream(stream);
    if !ok {
      return;
    }
    ghost var b, last := substream.View(), substream.End();
    var status := true;
    while substream.bytesLeft > 0 && |more| < f.arraySize
      modifies substream
      invariant Contains(stream, substream, end) && substream.End() == last
      invariant DecPacked(f, items, b) == DecPacked(f, more, substream.View())
      decreases substream.bytesLeft
    {
      var v;
      status, v := DecodeValue(substream, f, Num(0));
      if !status {
        break;
      }
      more := more + [v];
    }
    if substream.bytesLeft != 0 {
      return false, more;
    }
    CloseStringSubstream(stream, substream, end);
    ok := status;
  }

  function PackedField(f: Field, items: seq<Value>, s: seq<byte>): Parsed<seq<Value>> {
    match DecBlob(s)
    case Err => Err
    case Ok(b, rest) =>
      match DecPacked(f, items, b)
      case None => Err
      case Some(more) => Ok(more, rest)
  }

  /** decode_static_field on the field the cursor is at. */
  method DecodeStaticField(stream: IStream, wireType: nat, iter: FieldIter, dest: Message) returns (ok: bool)
    requires stream.Valid() && iter.Valid() && WfSchema(iter.fields) && iter.pos < |iter.fields|
    requires |dest.slots| == SlotCount(iter.fields) && SlotOf(iter.fields, iter.pos) < |dest.slots|
    modifies stream, dest
    ensures stream.Valid() && stream.End() <= old(stream.End()) && |dest.slots| == SlotCount(iter.fields)
    ensures ok <==> FieldHere(iter, wireType, old(dest.slots), old(stream.View())).Ok?
    ensures ok ==> stream.End() == old(stream.End())
    ensures ok ==> var p := FieldHere(iter, wireType, old(dest.slots), old(stream.View()));
                   dest.slots == old(dest.slots)[SlotOf(iter.fields, iter.pos) := p.value] && stream.View() == p.rest
    decreases stream.bytesLeft, 3
  {
    hide DecValue, DecPacked, DecBlob, SlotOf, SlotCount;
    assert WfField(iter.fields[iter.pos]);
    var f, k := iter.fields[iter.pos], SlotOf(iter.fields, iter.pos);
    var slot, v := dest.slots[k], Num(0);
    match f.htype {
      case Required =>
        ok, v := DecodeValue(stream, f, Content(f, slot));
        dest.slots := dest.slots[k := Plain(v)];
      case Optional =>
        var base := Content(f, slot);
        if !f.Singular() {
          dest.slots := dest.slots[k := Flagged(true, base)];
        }
        ok, v := DecodeValue(stream, f, base);
        dest.slots := dest.slots[k := if f.Singular() then Plain(v) else Flagged(true, v)];
      case Repeated =>
        var items := if slot.Array? then slot.items else [];
        if wireType == WT_STRING && f.ltype.Packable() {
          ok, items := DecodePackedArray(stream, f, items);
          dest.slots := dest.slots[k := Array(items)];
          return;
        }
        if |items| >= f.arraySize {
          return false;
        }
        ok, v := DecodeValue(stream, f, DefaultValue(f));
        dest.slots := dest.slots[k := Array(items + [v])];
      case Oneof =>
        dest.slots := dest.slots[k := Union(Arm(f.tag, DefaultValue(f)))];
        ok, v := DecodeValue(stream, f, DefaultValue(f));
        dest.slots := dest.slots[k := Union(Arm(f.tag, v))];
    }
  }

  ghost function FieldHere(iter: FieldIter, wireType: nat, slots: seq<Slot>, s: seq<byte>): Parsed<Slot>
    requires iter.Valid() && iter.pos < |iter.fields| && SlotOf(iter.fields, iter.pos) < |slots|
    reads iter
  {
    DecField(iter.fields[iter.pos], slots[SlotOf(iter.fields, iter.pos)], wireType, s)
  }

  // ---------------------------------------------------------------- messages

  /** pb_field_set_to_default: what it leaves in the field's slot. */
  method FieldDefault(f: Field) returns (slot: Slot)
    ensures slot == DefaultSlot(f)
    decreases f, 1
  {
    if f.htype.Repeated? {
      return Array([]);
    }
    if f.htype.Oneof? {
      return Union(NoArm);
    }
    var v;
    match f.ltype {
      case Submessage(sub) =>
        var dest := new Message(seq(SlotCount(sub), _ => Array([])));
        SetToDefaults(sub, dest);
        v := Struct(dest.slots);
      case _ => v := DefaultValue(f);
    }
    slot := if f.htype.Optional? && f.sizeOffset != 0 then Flagged(false, v) else Plain(v);
  }

  /** pb_message_set_to_defaults. */
  method SetToDefaults(fields: seq<Field>, dest: Message)
    requires |dest.slots| == SlotCount(fields)
    modifies dest
    ensures dest.slots == DefaultSlots(fields)
    decreases fields, 2
  {
    var iter := new FieldIter(fields);
    var more := fields != [];
    ghost var n := 0;
    while more
      invariant iter.Valid() && iter.fields == fields && |dest.slots| == SlotCount(fields)
      invariant n <= |fields| && if more then n == iter.pos < |fields| else n == |fields|
      invariant DefaultsUpTo(fields, n, dest.slots)
      decreases |fields| - n
    {
      SlotInRange(fields, iter.pos);
      assert fields[iter.pos] in fields;
      ghost var before := dest.slots;
      var slot := FieldDefault(fields[iter.pos]);
      dest.slots := dest.slots[SlotOf(fields, iter.pos) := slot];
      KeepsDefaults(fields, n, before, dest.slots);
      more := iter.Next();
      n := n + 1;
    }
    AllDefaults(fields, dest.slots);
  }

  ghost predicate DefaultAt(fields: seq<Field>, j: nat, slots: seq<Slot>)
    requires j < |fields|
  {
    SlotOf(fields, j) < |slots| && slots[SlotOf(fields, j)] == DefaultSlot(fields[j])
  }

  /** The fields before n are at their defaults. */
  ghost predicate DefaultsUpTo(fields: seq<Field>, n: nat, slots: seq<Slot>)
    requires n <= |fields|
  {
    forall j :: 0 <= j < n ==> DefaultAt(fields, j, slots)
  }

  lemma {:induction false} KeepsDefaults(fields: seq<Field>, n: nat, slots: seq<Slot>, next: seq<Slot>)
    requires n < |fields| && DefaultsUpTo(fields, n, slots) && SlotOf(fields, n) < |slots|
    requires next == slots[SlotOf(fields, n) := DefaultSlot(fields[n])]
    ensures DefaultsUpTo(fields, n + 1, next)
  {
    hide DefaultSlot, SlotOf, DefaultAt;
    forall j | 0 <= j < n + 1
      ensures DefaultAt(fields, j, next)
    {
      if j < n {
        assert DefaultAt(fields, j, slots);
      }
      KeepsDefault(fields, n, slots, next, j);
    }
  }

  lemma {:induction false} KeepsDefault(fields: seq<Field>, n: nat, slots: seq<Slot>, next: seq<Slot>, j: nat)
    requires j <= n < |fields| && SlotOf(fields, n) < |slots|
    requires j < n ==> DefaultAt(fields, j, slots)
    requires next == slots[SlotOf(fields, n) := DefaultSlot(fields[n])]
    ensures DefaultAt(fields, j, next)
  {
    hide DefaultSlot, SlotOf;
    if j < n {
      SameSlotSameDefault(fields, j, n);
    }
  }

  /** Fields that share a slot agree on its default. */
  lemma SameSlotSameDefault(fields: seq<Field>, j: nat, n: nat)
    requires j < n < |fields|
    ensures SlotOf(fields, j) == SlotOf(fields, n) ==> DefaultSlot(fields[j]) == DefaultSlot(fields[n])
  {
    if fields[j].htype.Oneof? && fields[n].htype.Oneof? {
      assert DefaultSlot(fields[j]) == Union(NoArm) == DefaultSlot(fields[n]);
    } else {
      SlotOfDistinct(fields, j, n);
    }
  }

  lemma AllDefaults(fields: seq<Field>, slots: seq<Slot>)
    requires |slots| == SlotCount(fields) && DefaultsUpTo(fields, |fields|, slots)
    ensures slots == DefaultSlots(fields)
  {
    forall k | 0 <= k < |slots|
      ensures slots[k] == DefaultSlots(fields)[k]
    {
      var j := SlotIsOwned(fields, k);
      assert DefaultAt(fields, j, slots);
      DefaultSlotsAt(fields, j);
    }
  }

  /** pb_decode_noinit. */
  method DecodeNoinit(stream: IStream, fields: seq<Field>, dest: Message) returns (ok: bool)
    requires stream.Valid() && WfSchema(fields) && |dest.slots| == SlotCount(fields)
    modifies stream, dest
    ensures stream.Valid() && stream.End() <= old(stream.End())
    ensures ok ==> stream.End() == old(stream.End())
    ensures Agrees(DecMessage(fields, Struct(old(dest.slots)), old(stream.View())), ok, Struct(dest.slots),
              stream.View())
    decreases stream.bytesLeft, 5
  {
    hide DecTag, DecEntry, SlotOf, SlotCount;
    var fieldsSeen := new uint32[2](_ => 0);
    var iter := new FieldIter(fields);
    ghost var seen: set<nat> := {};
    ghost var p := DecLoop(fields, Progress(dest.slots, {}), stream.View());
    NothingSeen(fieldsSeen[..]);
    var stopped := false;
    while stream.bytesLeft > 0 && !stopped
      invariant stream.Valid() && stream.End() == old(stream.End()) && stream.bytesLeft <= old(stream.bytesLeft)
      invariant iter.Valid() && iter.fields == fields && |dest.slots| == SlotCount(fields)
      invariant fieldsSeen.Length == 2 && Holds(fieldsSeen[..], seen)
      invariant forall k :: k in seen ==> k < ReqIndex(fields, |fields|)
      invariant p == if stopped then Ok(Progress(dest.slots, seen), stream.View())
                     else DecLoop(fields, Progress(dest.slots, seen), stream.View())
      decreases stream.bytesLeft, !stopped
    {
      var tag, wireType, eof;
      ok, tag, wireType, eof := DecodeTag(stream);
      if !ok {
        if !eof {
          return false;
        }
        stopped := true;
      } else {
        ok, seen := DecodeEntry(stream, iter, dest, fieldsSeen, tag, wireType, seen);
        if !ok {
          return;
        }
      }
    }
    assert p == Ok(Progress(dest.slots, seen), stream.View());
    ok := CheckRequired(fieldsSeen, iter, seen);
  }

  lemma NothingSeen(words: seq<uint32>)
    requires words == [0, 0]
    ensures Holds(words, {})
  {
    forall k: nat
      ensures !Bit(0, k)
    {
      ZeroBit(k);
    }
  }

  /** What follows a tag in the loop of pb_decode_noinit: an unknown field is skipped, a known
      one decoded, after a required one has been marked. */
  method DecodeEntry(stream: IStream, iter: FieldIter, dest: Message, fieldsSeen: array<uint32>,
                     tag: nat, wireType: nat, ghost seen: set<nat>)
    returns (ok: bool, ghost marked: set<nat>)
    requires stream.Valid() && iter.Valid() && WfSchema(iter.fields) && |dest.slots| == SlotCount(iter.fields)
    requires Holds(fieldsSeen[..], seen)
    modifies stream, iter, dest, fieldsSeen
    ensures stream.Valid() && stream.End() <= old(stream.End())
    ensures ok ==> stream.End() == old(stream.End())
    ensures iter.Valid() && |dest.slots| == SlotCount(iter.fields) && Holds(fieldsSeen[..], marked)
    ensures forall k :: k in marked ==> k in seen || k < ReqIndex(iter.fields, |iter.fields|)
    ensures Agrees(DecEntry(iter.fields, Progress(old(dest.slots), seen), tag, wireType, old(stream.View())),
                   ok, Progress(dest.slots, marked), stream.View())
    decreases stream.bytesLeft, 4
  {
    hide DecField, Skip, SlotOf, SlotCount;
    marked := seen;
    var found := iter.Find(tag);
    if !found {
      ok := SkipField(stream, wireType);
      return;
    }
    if iter.pos == |iter.fields| {
      // The terminator's type bits stand for a required varint of no size.
      return false, seen;
    }
    if iter.fields[iter.pos].htype.Required? {
      ReqIndexMonotone(iter.fields, iter.pos + 1, |iter.fields|);
      MarkSeen(fieldsSeen, iter.requiredIndex, seen);
      marked := seen + {iter.requiredIndex};
    }
    SlotInRange(iter.fields, iter.pos);
    ok := DecodeStaticField(stream, wireType, iter, dest);
  }

  /** pb_decode. */
  method Decode(stream: IStream, fields: seq<Field>, dest: Message) returns (ok: bool)
    requires stream.Valid() && WfSchema(fields) && |dest.slots| == SlotCount(fields)
    modifies stream, dest
    ensures stream.Valid() && stream.End() <= old(stream.End())
    ensures ok ==> stream.End() == old(stream.End())
    ensures Agrees(DecMessage(fields, Struct(DefaultSlots(fields)), old(stream.View())), ok, Struct(dest.slots),
              stream.View())
    decreases stream.bytesLeft, 6
  {
    SetToDefaults(fields, dest);
    ok := DecodeNoinit(stream, fields, dest);
  }
}
