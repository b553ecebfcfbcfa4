/** nanopb's encoder. Every method appends exactly the bytes the wire format prescribes, or
    fails because there are none or they do not fit; a counting stream counts the same bytes. */
module PbEncoder {
  import opened Wrappers
  import opened Bits
  import opened PbVarint
  import opened PbSchema
  import opened PbFormat
  import opened PbStream
  import opened PbFieldIter

  // ---------------------------------------------------------------- scalars

  /** The groups of seven bits of v, all flagged. */
  function Groups(v: nat): seq<byte> {
    if v == 0 then [] else [128 + v % 128] + Groups(v / 128)
  }

  lemma {:induction false} LastGroup(v: nat)
    requires v > 0
    ensures var g := Groups(v);
            g != [] && g[|g| - 1] >= 128 && EncVarint(v) == g[|g| - 1 := g[|g| - 1] - 128]
  {
    var g := Groups(v);
    if v >= 128 {
      LastGroup(v / 128);
      assert g[1..] == Groups(v / 128);
    } else {
      assert Groups(v / 128) == [] && g == [128 + v];
    }
  }

  /** pb_encode_varint. The source collects the groups in a buffer of ten bytes, which any
      64-bit value fits (Varint64RoundTrip). */
  method EncodeVarint(stream: OStream, value: nat) returns (ok: bool)
    requires stream.Valid()
    modifies stream, stream.buf
    ensures stream.Valid() && Step(old(stream.Now()), Some(EncVarint(value)), ok, stream.Now())
  {
    if value <= 0x7F {
      ok := stream.Write([value]);
      return;
    }
    var buffer: seq<byte>, v := [], value;
    while v != 0
      invariant buffer + Groups(v) == Groups(value)
    {
      assert buffer + Groups(v) == (buffer + [128 + v % 128]) + Groups(v / 128);
      buffer := buffer + [128 + v % 128];
      v := v / 128;
    }
    LastGroup(value);
    buffer := buffer[|buffer| - 1 := buffer[|buffer| - 1] - 128];
    ok := stream.Write(buffer);
  }

  /** The four low bytes of n, as the source shifts them out. */
  function FourBytes(n: nat): seq<byte> {
    [n % 256, n / 0x100 % 256, n / 0x1_0000 % 256, n / 0x100_0000 % 256]
  }

  lemma FourMoreBytes(n: nat, k: nat)
    ensures LittleEndian(n, k + 4) == FourBytes(n) + LittleEndian(n / 0x1_0000_0000, k)
  {
    var n1 := n / 256;
    var n2 := n1 / 256;
    var n3 := n2 / 256;
    assert LittleEndian(n, k + 4) == [n % 256] + LittleEndian(n1, k + 3);
    assert LittleEndian(n1, k + 3) == [n1 % 256] + LittleEndian(n2, k + 2);
    assert LittleEndian(n2, k + 2) == [n2 % 256] + LittleEndian(n3, k + 1);
    assert LittleEndian(n3, k + 1) == [n3 % 256] + LittleEndian(n3 / 256, k);
    assert n2 == n / 0x1_0000 && n3 == n / 0x100_0000 && n3 / 256 == n / 0x1_0000_0000;
  }

  method EncodeFixed32(stream: OStream, value: nat) returns (ok: bool)
    requires stream.Valid()
    modifies stream, stream.buf
    ensures stream.Valid() && Step(old(stream.Now()), Some(LittleEndian(value, 4)), ok, stream.Now())
  {
    FourMoreBytes(value, 0);
    ok := stream.Write(FourBytes(value));
  }

  method EncodeFixed64(stream: OStream, value: nat) returns (ok: bool)
    requires stream.Valid()
    modifies stream, stream.buf
    ensures stream.Valid() && Step(old(stream.Now()), Some(LittleEndian(value, 8)), ok, stream.Now())
  {
    FourMoreBytes(value, 4);
    FourMoreBytes(value / 0x1_0000_0000, 0);
    ok := stream.Write(FourBytes(value) + FourBytes(value / 0x1_0000_0000));
  }

  method EncodeTag(stream: OStream, wireType: nat, fieldNumber: nat) returns (ok: bool)
    requires stream.Valid() && wireType < 8
    modifies stream, stream.buf
    ensures stream.Valid() && Step(old(stream.Now()), Some(EncTag(fieldNumber, wireType)), ok, stream.Now())
  {
    assert Pow2(3) == 8;
    OrDisjoint(wireType, fieldNumber, 3);
    OrComm(wireType, fieldNumber * 8);
    ok := EncodeVarint(stream, Or(fieldNumber * 8, wireType));
  }

  method EncodeTagForField(stream: OStream, f: Field) returns (ok: bool)
    requires stream.Valid()
    modifies stream, stream.buf
    ensures stream.Valid() && Step(old(stream.Now()), Some(EncTag(f.tag, WireType(f.ltype))), ok, stream.Now())
  {
    var wireType: nat;
    match f.ltype {
      case Varint | UVarint | SVarint => wireType := WT_VARINT;
      case Fixed32 => wireType := WT_32BIT;
      case Fixed64 => wireType := WT_64BIT;
      case Bytes | String | Submessage(_) | FixedLengthBytes => wireType := WT_STRING;
    }
    ok := EncodeTag(stream, wireType, f.tag);
  }

  /** pb_encode_string: a length prefix and the bytes. */
  method EncodeString(stream: OStream, b: seq<byte>) returns (ok: bool)
    requires stream.Valid()
    modifies stream, stream.buf
    ensures stream.Valid() && Step(old(stream.Now()), Some(EncBlob(b)), ok, stream.Now())
  {
    ghost var w := stream.Now();
    ok := EncodeVarint(stream, |b|);
    if !ok {
      Fails(w, Some(EncVarint(|b|)), Some(b), stream.Now());
      return;
    }
    ghost var w1 := stream.Now();
    ok := stream.Write(b);
    Steps(w, EncVarint(|b|), w1, Some(b), ok, stream.Now());
  }

  // ---------------------------------------------------------------- fields of each type

  /** pb_enc_varint, pb_enc_uvarint and pb_enc_svarint. */
  method EncodeNum(stream: OStream, f: Field, n: int) returns (ok: bool)
    requires stream.Valid()
    modifies stream, stream.buf
    ensures stream.Valid() && Step(old(stream.Now()), EncNum(f, n), ok, stream.Now())
  {
    match NumToWord(f, n) {
      case None => ok := false;
      case Some(u) => ok := EncodeVarint(stream, u);
    }
  }

  lemma CStringStep(b: seq<byte>, i: nat, max: nat)
    requires i < |b| && b[i] != 0 && max > 0
    ensures b[..i] + CString(b[i..], max) == b[..i + 1] + CString(b[i + 1..], max - 1)
  {
    assert b[i..][1..] == b[i + 1..];
    assert b[..i] + [b[i]] == b[..i + 1];
    assert b[..i] + ([b[i]] + CString(b[i + 1..], max - 1)) == b[..i] + [b[i]] + CString(b[i + 1..], max - 1);
  }

  /** The loop of pb_enc_string: how many bytes come before the first NUL. */
  method CStringLength(b: seq<byte>, maxSize: nat) returns (size: nat)
    ensures size <= |b| && CString(b, maxSize) == b[..size]
  {
    hide CString;
    size := 0;
    assert b[0..] == b && b[..0] + CString(b, maxSize) == CString(b, maxSize);
    while size < maxSize && size < |b| && b[size] != 0
      invariant size <= |b| && size <= maxSize
      invariant CString(b, maxSize) == b[..size] + CString(b[size..], maxSize - size)
    {
      CStringStep(b, size, maxSize - size);
      size := size + 1;
    }
    CStringEnds(b[size..], maxSize - size);
    assert b[..size] + [] == b[..size];
  }

  lemma CStringEnds(b: seq<byte>, max: nat)
    requires max == 0 || b == [] || b[0] == 0
    ensures CString(b, max) == []
  {
  }

  method EncodeCString(stream: OStream, b: seq<byte>, maxSize: nat) returns (ok: bool)
    requires stream.Valid()
    modifies stream, stream.buf
    ensures stream.Valid() && Step(old(stream.Now()), Some(EncBlob(CString(b, maxSize))), ok, stream.Now())
  {
    var size := CStringLength(b, maxSize);
    ok := EncodeString(stream, b[..size]);
  }

  /** The encoder for a field's type. */
  method EncodeValue(stream: OStream, f: Field, v: Value) returns (ok: bool)
    requires stream.Valid()
    modifies stream, stream.buf
    ensures stream.Valid() && Step(old(stream.Now()), EncValue(f, v), ok, stream.Now())
    decreases v, 1, 0
  {
    hide EncBlob, CString, EncFrom, LittleEndian;
    match (f.ltype, v) {
      case (Varint, Num(n)) => ok := EncodeNum(stream, f, n);
      case (UVarint, Num(n)) => ok := EncodeNum(stream, f, n);
      case (SVarint, Num(n)) => ok := EncodeNum(stream, f, n);
      case (Fixed32, _) => ok := EncodeFixed32(stream, NumOf(v) % 0x1_0000_0000);
      case (Fixed64, _) => ok := EncodeFixed64(stream, NumOf(v) % 0x1_0000_0000_0000_0000);
      case (Bytes, Blob(b)) =>
        if |b| + PB_SIZE_BYTES > f.dataSize {
          return false;
        }
        ok := EncodeString(stream, b);
      case (String, Blob(b)) => ok := EncodeCString(stream, b, f.dataSize);
      case (FixedLengthBytes, Blob(b)) =>
        if |b| != f.dataSize {
          return false;
        }
        ok := EncodeString(stream, b);
      case (Submessage(sub), Struct(_)) => ok := EncodeSubmessage(stream, sub, v);
      case _ => ok := false;
    }
  }

  /** A payload with a length prefix. */
  function Prefixed(e: Option<seq<byte>>): Option<seq<byte>> {
    if e.Some? then Some(EncBlob(e.value)) else None
  }

  /** pb_encode_submessage: the size is counted first, then written, then the message itself,
      limited to that size. The second pass always comes out at the counted size. */
  method EncodeSubmessage(stream: OStream, fields: seq<Field>, m: Value) returns (ok: bool)
    requires stream.Valid() && m.Struct?
    modifies stream, stream.buf
    ensures stream.Valid()
    ensures Step(old(stream.Now()), Prefixed(EncMessage(fields, m)), ok, stream.Now())
    decreases m, 0, 2
  {
    hide EncVarint, EncMessage;
    ghost var w := stream.Now();
    var counter := new OStream.Sizing();
    ok := Encode(counter, fields, m);
    if !ok {
      return;
    }
    var size := counter.bytesWritten;
    ghost var e := EncMessage(fields, m).value;
    ok := EncodeVarint(stream, size);
    if !ok {
      Fails(w, Some(EncVarint(size)), Some(e), stream.Now());
      return;
    }
    ghost var w1 := stream.Now();
    if stream.buf == null {
      stream.Count(size);
      Steps(w, EncVarint(size), w1, Some(e), true, stream.Now());
      return true;
    }
    if stream.bytesWritten + size > stream.maxSize {
      Steps(w, EncVarint(size), w1, Some(e), false, stream.Now());
      return false;
    }
    ok := WriteSubmessage(stream, fields, m, size);
    Steps(w, EncVarint(size), w1, Some(e), ok, stream.Now());
  }

  /** The second pass of pb_encode_submessage, through a substream limited to `size` bytes. It
      is never cut short and always uses up the limit. */
  method WriteSubmessage(stream: OStream, fields: seq<Field>, m: Value, size: nat) returns (ok: bool)
    requires stream.Valid() && m.Struct? && stream.buf != null
    requires EncMessage(fields, m).Some? && size == |EncMessage(fields, m).value|
    requires stream.bytesWritten + size <= stream.maxSize
    modifies stream, stream.buf
    ensures ok && stream.Valid() && Step(old(stream.Now()), EncMessage(fields, m), ok, stream.Now())
    decreases m, 0, 1
  {
    hide EncMessage;
    ghost var w, room := stream.Now(), stream.maxSize - stream.bytesWritten - size;
    var substream := new OStream.Sub(stream.buf, stream.state, size);
    ghost var sub := substream.Now();
    assert w.beyond == sub.beyond[room..];
    var status := Encode(substream, fields, m);
    assert status && substream.bytesWritten == size;
    assert substream.Now().beyond == sub.beyond;
    stream.bytesWritten := stream.bytesWritten + substream.bytesWritten;
    stream.state := substream.state;
    assert stream.Now().beyond == sub.beyond[room..];
    ok := substream.bytesWritten == size && status;
  }

  // ---------------------------------------------------------------- messages

  method EncodeTagged(stream: OStream, f: Field, v: Value) returns (ok: bool)
    requires stream.Valid()
    modifies stream, stream.buf
    ensures stream.Valid() && Step(old(stream.Now()), EncTagged(f, v), ok, stream.Now())
    decreases v, 2, 0
  {
    ghost var w := stream.Now();
    ghost var tag := EncTag(f.tag, WireType(f.ltype));
    ok := EncodeTagForField(stream, f);
    if !ok {
      Fails(w, Some(tag), EncValue(f, v), stream.Now());
      return;
    }
    ghost var w1 := stream.Now();
    ok := EncodeValue(stream, f, v);
    Steps(w, tag, w1, EncValue(f, v), ok, stream.Now());
  }

  /** The loop of encode_array over entries without tags. */
  method EncodePackedItems(stream: OStream, f: Field, slot: Slot) returns (ok: bool)
    requires stream.Valid() && slot.Array?
    modifies stream, stream.buf
    ensures stream.Valid() && Step(old(stream.Now()), EncPacked(f, slot, 0), ok, stream.Now())
    decreases slot, 0, 0
  {
    ghost var w, done := stream.Now(), [];
    Nothing(w, EncPacked(f, slot, 0));
    var i := 0;
    while i < |slot.items|
      invariant i <= |slot.items| && stream.Valid()
      invariant Step(w, Some(done), true, stream.Now())
      invariant EncPacked(f, slot, 0) == Join(Some(done), EncPacked(f, slot, i))
    {
      ghost var w1, e := stream.Now(), EncValue(f, slot.items[i]);
      JoinAssociative(Some(done), e, EncPacked(f, slot, i + 1));
      ok := EncodeValue(stream, f, slot.items[i]);
      Steps(w, done, w1, e, ok, stream.Now());
      if !ok {
        Fails(w, Join(Some(done), e), EncPacked(f, slot, i + 1), stream.Now());
        return;
      }
      done := done + e.value;
      i := i + 1;
    }
    Nothing(w, Some(done));
    ok := true;
  }

  /** The loop of encode_array over entries with a tag each. */
  method EncodeItems(stream: OStream, f: Field, slot: Slot) returns (ok: bool)
    requires stream.Valid() && slot.Array?
    modifies stream, stream.buf
    ensures stream.Valid() && Step(old(stream.Now()), EncItems(f, slot, 0), ok, stream.Now())
    decreases slot, 0, 0
  {
    ghost var w, done := stream.Now(), [];
    Nothing(w, EncItems(f, slot, 0));
    var i := 0;
    while i < |slot.items|
      invariant i <= |slot.items| && stream.Valid()
      invariant Step(w, Some(done), true, stream.Now())
      invariant EncItems(f, slot, 0) == Join(Some(done), EncItems(f, slot, i))
    {
      ghost var w1, e := stream.Now(), EncTagged(f, slot.items[i]);
      JoinAssociative(Some(done), e, EncItems(f, slot, i + 1));
      ok := EncodeTagged(stream, f, slot.items[i]);
      Steps(w, done, w1, e, ok, stream.Now());
      if !ok {
        Fails(w, Join(Some(done), e), EncItems(f, slot, i + 1), stream.Now());
        return;
      }
      done := done + e.value;
      i := i + 1;
    }
    Nothing(w, Some(done));
    ok := true;
  }

  /** Entries of a fixed width take that many bytes each. */
  lemma {:induction false} FixedPackedSize(f: Field, slot: Slot, j: nat)
    requires slot.Array? && j <= |slot.items| && (f.ltype.Fixed32? || f.ltype.Fixed64?)
    ensures EncPacked(f, slot, j).Some?
    ensures |EncPacked(f, slot, j).value| == (if f.ltype.Fixed32? then 4 else 8) * (|slot.items| - j)
    decreases |slot.items| - j
  {
    hide LittleEndian;
    if j < |slot.items| {
      FixedPackedSize(f, slot, j + 1);
    }
  }

  /** The payload size of a packed array: computed for entries of a fixed width, counted for
      the others. */
  method PackedSize(f: Field, slot: Slot) returns (ok: bool, size: nat)
    requires slot.Array? && f.ltype.Packable()
    ensures ok <==> EncPacked(f, slot, 0).Some?
    ensures ok ==> size == |EncPacked(f, slot, 0).value|
    decreases slot, 0, 1
  {
    hide EncPacked;
    if f.ltype.Fixed32? {
      FixedPackedSize(f, slot, 0);
      return true, 4 * |slot.items|;
    }
    if f.ltype.Fixed64? {
      FixedPackedSize(f, slot, 0);
      return true, 8 * |slot.items|;
    }
    var counter := new OStream.Sizing();
    ok := EncodePackedItems(counter, f, slot);
    size := counter.bytesWritten;
  }

  /** A packed array after its tag. */
  method EncodePackedArray(stream: OStream, f: Field, slot: Slot) returns (ok: bool)
    requires stream.Valid() && slot.Array? && f.ltype.Packable()
    modifies stream, stream.buf
    ensures stream.Valid() && Step(old(stream.Now()), Prefixed(EncPacked(f, slot, 0)), ok, stream.Now())
    decreases slot, 0, 2
  {
    hide EncVarint, EncPacked;
    var size;
    ok, size := PackedSize(f, slot);
    if !ok {
      return;
    }
    ghost var w, e := stream.Now(), EncPacked(f, slot, 0);
    ok := EncodeVarint(stream, size);
    if !ok {
      Fails(w, Some(EncVarint(size)), e, stream.Now());
      return;
    }
    ghost var w1 := stream.Now();
    if stream.buf == null {
      stream.Count(size);
      ok := true;
    } else {
      ok := EncodePackedItems(stream, f, slot);
    }
    Steps(w, EncVarint(size), w1, e, ok, stream.Now());
  }

  /** encode_array. */
  method EncodeArray(stream: OStream, f: Field, slot: Slot) returns (ok: bool)
    requires stream.Valid() && slot.Array? && f.htype.Repeated?
    modifies stream, stream.buf
    ensures stream.Valid() && Step(old(stream.Now()), EncField(f, slot), ok, stream.Now())
    decreases slot, 1, 0
  {
    hide EncVarint, EncPacked, EncItems;
    Nothing(stream.Now(), None);
    var count := |slot.items|;
    if count == 0 {
      return true;
    }
    if count > f.arraySize {
      return false;
    }
    if !f.ltype.Packable() {
      ok := EncodeItems(stream, f, slot);
      return;
    }
    ghost var w, tag, e := stream.Now(), EncTag(f.tag, WT_STRING), Prefixed(EncPacked(f, slot, 0));
    assert EncField(f, slot) == Join(Some(tag), e);
    ok := EncodeTag(stream, WT_STRING, f.tag);
    if !ok {
      Fails(w, Some(tag), e, stream.Now());
      return;
    }
    ghost var w1 := stream.Now();
    ok := EncodePackedArray(stream, f, slot);
    Steps(w, tag, w1, e, ok, stream.Now());
  }

  /** pb_check_proto3_default_value on a field in place. */
  method CheckDefaultSlot(f: Field, slot: Slot) returns (zero: bool)
    ensures zero == IsZeroSlot(f, slot)
    decreases slot, 1
  {
    match (f.htype, slot) {
      case (Required, _) => zero := false;
      case (Repeated, Array(items)) => zero := |items| == 0;
      case (Oneof, Union(arm)) => zero := arm.NoArm?;
      case (Optional, Flagged(has, _)) => zero := !has;
      case (Optional, Plain(v)) => zero := CheckDefault(f, v);
      case _ => zero := true;
    }
  }

  /** pb_check_proto3_default_value on the data of a proto3 field. */
  method CheckDefault(f: Field, v: Value) returns (zero: bool)
    ensures zero == IsZero(f, v)
    decreases v, 0
  {
    match (f.ltype, v) {
      case (Bytes, Blob(b)) => return |b| == 0;
      case (String, Blob(b)) => return |b| == 0 || b[0] == 0;
      case (FixedLengthBytes, _) => return f.dataSize == 0;
      case (Submessage(sub), Struct(slots)) =>
        var iter := new FieldIter(sub);
        var more := sub != [];
        ghost var n := 0;
        while more
          invariant iter.Valid() && iter.fields == sub
          invariant n <= |sub| && if more then n == iter.pos < |sub| else n == |sub|
          invariant AllZero(sub, v, 0) == AllZero(sub, v, n)
          decreases |sub| - n
        {
          var k := SlotOf(sub, iter.pos);
          if k >= |slots| {
            return false;
          }
          var zeroSlot := CheckDefaultSlot(sub[iter.pos], slots[k]);
          if !zeroSlot {
            return false;
          }
          more := iter.Next();
          n := n + 1;
        }
        return true;
      case (_, Num(n)) => return n == 0;
      case _ => return true;
    }
  }

  /** encode_basic_field. */
  method EncodeBasicField(stream: OStream, f: Field, slot: Slot) returns (ok: bool)
    requires stream.Valid()
    modifies stream, stream.buf
    ensures stream.Valid() && Step(old(stream.Now()), EncField(f, slot), ok, stream.Now())
    decreases slot, 2, 0
  {
    Nothing(stream.Now(), None);
    match (f.htype, slot) {
      case (Required, Plain(v)) => ok := EncodeTagged(stream, f, v);
      case (Optional, Flagged(has, v)) =>
        if f.Singular() {
          return false;
        }
        if has {
          ok := EncodeTagged(stream, f, v);
          return;
        }
        ok := true;
      case (Optional, Plain(v)) =>
        if !f.Singular() {
          return false;
        }
        var zero := CheckDefault(f, v);
        if !zero {
          ok := EncodeTagged(stream, f, v);
          return;
        }
        ok := true;
      case (Repeated, Array(_)) =>
        ok := EncodeArray(stream, f, slot);
        return;
      case (Oneof, Union(arm)) =>
        if arm.Arm? && arm.tag == f.tag {
          ok := EncodeTagged(stream, f, arm.v);
          return;
        }
        ok := true;
      case _ => return false;
    }
  }

  /** pb_encode: the fields in descriptor order. */
  method Encode(stream: OStream, fields: seq<Field>, m: Value) returns (ok: bool)
    requires stream.Valid() && m.Struct?
    modifies stream, stream.buf
    ensures stream.Valid() && Step(old(stream.Now()), EncMessage(fields, m), ok, stream.Now())
    decreases m, 0, 0
  {
    ghost var w, done := stream.Now(), [];
    Nothing(w, EncFrom(fields, m, 0));
    var iter := new FieldIter(fields);
    if fields == [] {
      return true;
    }
    var more := true;
    ghost var n := 0;
    while more
      invariant stream.Valid() && iter.Valid() && iter.fields == fields
      invariant n <= |fields| && if more then n == iter.pos < |fields| else n == |fields|
      invariant Step(w, Some(done), true, stream.Now())
      invariant EncFrom(fields, m, 0) == Join(Some(done), EncFrom(fields, m, n))
      decreases |fields| - n
    {
      var k := SlotOf(fields, iter.pos);
      if k >= |m.slots| {
        return false;
      }
      ghost var w1, e := stream.Now(), EncField(fields[n], m.slots[k]);
      JoinAssociative(Some(done), e, EncFrom(fields, m, n + 1));
      ok := EncodeBasicField(stream, fields[iter.pos], m.slots[k]);
      Steps(w, done, w1, e, ok, stream.Now());
      if !ok {
        Fails(w, Join(Some(done), e), EncFrom(fields, m, n + 1), stream.Now());
        return;
      }
      done := done + e.value;
      more := iter.Next();
      n := n + 1;
    }
    Nothing(w, Some(done));
    ok := true;
  }

  /** pb_get_encoded_size. */
  method GetEncodedSize(fields: seq<Field>, m: Value) returns (ok: bool, size: nat)
    requires m.Struct?
    ensures ok <==> EncMessage(fields, m).Some?
    ensures ok ==> size == |EncMessage(fields, m).value|
  {
    var stream := new OStream.Sizing();
    ok := Encode(stream, fields, m);
    size := stream.bytesWritten;
  }
}
