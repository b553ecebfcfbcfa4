/** Decoding what was encoded gives the message back. */
module PbRoundTrip {
  import opened Wrappers
  import opened Bits
  import opened PbVarint
  import opened PbSchema
  import opened PbFormat

  // ---------------------------------------------------------------- the messages concerned

  /** No proto3 field has an explicit default value, at any depth. */
  predicate NoSingularDefaults(fs: seq<Field>) {
    forall f :: f in fs ==> FieldHasNoSingularDefaults(f)
  }

  predicate FieldHasNoSingularDefaults(f: Field) {
    && (f.Singular() && !f.ltype.Submessage? ==> f.init.None?)
    && (f.ltype.Submessage? ==> NoSingularDefaults(f.ltype.fields))
  }

  /** The value is one the field's C type holds and the wire format can carry: strings are
      NUL-terminated, and a submessage's length fits the 32-bit length prefix. */
  predicate Carries(f: Field, v: Value)
    decreases v, 1
  {
    match (f.ltype, v)
    case (Varint, Num(n)) => SignedFits(n, f.dataSize)
    case (UVarint, Num(n)) => UnsignedFits(n, f.dataSize)
    case (SVarint, Num(n)) => SignedFits(n, f.dataSize)
    case (Fixed32, Num(n)) => UnsignedFits(n, 4)
    case (Fixed64, Num(n)) => UnsignedFits(n, 8)
    case (Bytes, Blob(b)) => |b| + PB_SIZE_BYTES <= f.dataSize
    case (String, Blob(b)) => |b| < f.dataSize && 0 !in b
    case (FixedLengthBytes, Blob(b)) => |b| == f.dataSize
    case (Submessage(sub), Struct(_)) => CarriesMessage(sub, v) && Short(EncMessage(sub, v))
    case _ => false
  }

  predicate Short(e: Option<seq<byte>>) {
    e.Some? ==> |e.value| < 0x1_0000_0000
  }

  /** Absent optional data is at its default; arrays are within bounds. */
  predicate CarriesSlot(f: Field, slot: Slot)
    decreases slot, 2
  {
    match (f.htype, slot)
    case (Required, Plain(v)) => Carries(f, v)
    case (Optional, Flagged(has, v)) => !f.Singular() && if has then Carries(f, v) else v == DefaultValue(f)
    case (Optional, Plain(v)) => f.Singular() && Carries(f, v)
    case (Repeated, Array(items)) =>
      && |items| <= f.arraySize
      && (forall v :: v in items ==> Carries(f, v))
      && (f.ltype.Packable() ==> Short(EncPacked(f, slot, 0)))
    case (Oneof, Union(arm)) => arm.Arm? && arm.tag == f.tag ==> Carries(f, arm.v)
    case _ => false
  }

  predicate CarriesMessage(fs: seq<Field>, m: Value)
    decreases m, 0
  {
    && m.Struct? && |m.slots| == SlotCount(fs)
    && (forall i :: 0 <= i < |fs| ==> SlotOf(fs, i) < |m.slots| && CarriesSlot(fs[i], m.slots[SlotOf(fs, i)]))
    && (forall k :: 0 <= k < |m.slots| && m.slots[k].Union? && m.slots[k].arm.Arm? ==>
          HasArm(fs, k, m.slots[k].arm.tag))
  }

  /** Some member of the union at slot k has this tag. */
  predicate HasArm(fs: seq<Field>, k: nat, tag: nat) {
    exists i :: 0 <= i < |fs| && SlotOf(fs, i) == k && fs[i].htype.Oneof? && fs[i].tag == tag
  }

  // ---------------------------------------------------------------- scalars

  lemma {:induction false} LittleEndianRoundTrip(n: nat, k: nat)
    requires n < Pow2(8 * k)
    ensures FromLittleEndian(LittleEndian(n, k)) == n
  {
    if k > 0 {
      Pow2Sum(8 * (k - 1), 8);
      assert Pow2(8) == 256;
      LittleEndianRoundTrip(n / 256, k - 1);
    }
  }

  lemma FixedRoundTrip(n: nat, k: nat, rest: seq<byte>)
    requires (k == 4 && n < 0x1_0000_0000) || (k == 8 && n < 0x1_0000_0000_0000_0000)
    ensures DecFixed(k, LittleEndian(n, k) + rest) == Ok(Num(n), rest)
  {
    Pow2Values();
    LittleEndianRoundTrip(n, k);
    var s := LittleEndian(n, k) + rest;
    assert s[..k] == LittleEndian(n, k) && s[k..] == rest;
  }

  lemma WordRoundTrip(f: Field, n: int)
    requires f.ltype.Varint? || f.ltype.UVarint? || f.ltype.SVarint?
    requires f.dataSize in {1, 2, 4, 8}
    requires if f.ltype.UVarint? then UnsignedFits(n, f.dataSize) else SignedFits(n, f.dataSize)
    ensures NumToWord(f, n).Some? && NumToWord(f, n).value < 0x1_0000_0000_0000_0000
    ensures WordToNum(f, NumToWord(f, n).value) == Some(n)
  {
    if f.ltype.SVarint? {
      ZigZagRoundTrip(n, 0);
    } else if n < 0 {
      assert (n + 0x1_0000_0000_0000_0000) % 0x1_0000_0000 == n % 0x1_0000_0000;
    }
  }

  lemma NumRoundTrip(f: Field, n: int, rest: seq<byte>)
    requires f.ltype.Varint? || f.ltype.UVarint? || f.ltype.SVarint?
    requires f.dataSize in {1, 2, 4, 8}
    requires if f.ltype.UVarint? then UnsignedFits(n, f.dataSize) else SignedFits(n, f.dataSize)
    ensures EncNum(f, n).Some? && DecNum(f, EncNum(f, n).value + rest) == Ok(Num(n), rest)
  {
    WordRoundTrip(f, n);
    Varint64RoundTrip(NumToWord(f, n).value, rest);
  }

  lemma BlobRoundTrip(b: seq<byte>, rest: seq<byte>)
    requires |b| < 0x1_0000_0000
    ensures DecBlob(EncBlob(b) + rest) == Ok(b, rest)
  {
    assert EncBlob(b) + rest == EncVarint(|b|) + (b + rest);
    Varint32RoundTrip(|b|, b + rest);
    assert (b + rest)[..|b|] == b && (b + rest)[|b|..] == rest;
  }

  lemma {:induction false} CStringWhole(b: seq<byte>, max: nat)
    requires |b| <= max && 0 !in b
    ensures CString(b, max) == b
  {
    if b != [] {
      CStringWhole(b[1..], max - 1);
    }
  }

  lemma TagRoundTrip(tag: nat, wt: nat, rest: seq<byte>)
    requires 1 <= tag < 0x2000_0000 && wt < 8
    ensures DecTag(EncTag(tag, wt) + rest) == Ok(Tag(tag, wt), rest)
  {
    Varint32RoundTrip(tag * 8 + wt, rest);
  }

  // ---------------------------------------------------------------- values

  /** Any value is read back; a submessage on top of its defaults. */
  lemma {:induction false} ValueRoundTrip(f: Field, v: Value, base: Value, rest: seq<byte>)
    requires WfField(f) && FieldHasNoSingularDefaults(f) && Carries(f, v)
    requires f.ltype.Submessage? ==> f.htype.Repeated? || base == DefaultValue(f)
    ensures EncValue(f, v).Some? && DecValue(f, base, EncValue(f, v).value + rest) == Ok(v, rest)
    decreases v, 3, 0
  {
    hide LittleEndian, FromLittleEndian, EncVarint, DecVarint64, DecVarint32, EncBlob, DecBlob, DecFixed;
    match f.ltype
    case Varint | UVarint | SVarint => NumRoundTrip(f, v.n, rest);
    case Fixed32 =>
      assert NumOf(v) % 0x1_0000_0000 == v.n;
      FixedRoundTrip(v.n, 4, rest);
    case Fixed64 =>
      assert NumOf(v) % 0x1_0000_0000_0000_0000 == v.n;
      FixedRoundTrip(v.n, 8, rest);
    case Bytes => BlobRoundTrip(v.b, rest);
    case String =>
      CStringWhole(v.b, f.dataSize);
      BlobRoundTrip(v.b, rest);
    case FixedLengthBytes =>
      BlobRoundTrip(v.b, rest);
      assert v.b == [] ==> v.b == Zeros(f.dataSize);
    case Submessage(sub) =>
      MessageRoundTrip(sub, v);
      BlobRoundTrip(EncMessage(sub, v).value, rest);
  }

  // ---------------------------------------------------------------- fields

  /** One tagged field at the front of the input takes the loop one step on. */
  lemma {:induction false} TaggedStep(fs: seq<Field>, at: Progress, i: nat, wt: nat, e: seq<byte>, rest: seq<byte>,
                                      slot: Slot)
    requires WfSchema(fs) && |at.slots| == SlotCount(fs) && i < |fs| && wt < 8
    requires SlotOf(fs, i) < |at.slots|
    requires DecField(fs[i], at.slots[SlotOf(fs, i)], wt, e + rest) == Ok(slot, rest)
    ensures DecLoop(fs, at, EncTag(fs[i].tag, wt) + e + rest) ==
            DecLoop(fs, Progress(at.slots[SlotOf(fs, i) := slot], See(fs, i, at.seen)), rest)
  {
    hide DecField, EncVarint, See;
    assert WfField(fs[i]);
    var s := EncTag(fs[i].tag, wt) + e + rest;
    assert s == EncTag(fs[i].tag, wt) + (e + rest);
    TagRoundTrip(fs[i].tag, wt, e + rest);
    FindFieldAt(fs, i, 0);
    assert s != [];
  }

  predicate Present(f: Field, slot: Slot) {
    match (f.htype, slot)
    case (Required, _) => true
    case (Optional, Flagged(has, _)) => has
    case (Optional, Plain(v)) => !IsZero(f, v)
    case (Repeated, Array(items)) => items != []
    case (Oneof, Union(arm)) => arm.Arm? && arm.tag == f.tag
    case _ => false
  }

  /** The loop after the bytes of field i: its slot is filled in if the field is present. */
  function After(fs: seq<Field>, m: Value, i: nat, at: Progress): (next: Progress)
    requires i < |fs| && m.Struct? && |m.slots| == |at.slots| == SlotCount(fs)
    ensures |next.slots| == |at.slots|
  {
    SlotInRange(fs, i);
    var k := SlotOf(fs, i);
    if Present(fs[i], m.slots[k]) then Progress(at.slots[k := m.slots[k]], See(fs, i, at.seen)) else at
  }

  lemma SeeOnlyRequired(fs: seq<Field>, i: nat, seen: set<nat>)
    requires i < |fs| && !fs[i].htype.Required?
    ensures See(fs, i, seen) == seen
  {
  }

  lemma {:induction false} ItemsStep(fs: seq<Field>, at: Progress, i: nat, slot: Slot, j: nat, rest: seq<byte>)
    requires WfSchema(fs) && NoSingularDefaults(fs) && |at.slots| == SlotCount(fs) && i < |fs|
    requires SlotOf(fs, i) < |at.slots|
    requires fs[i].htype.Repeated? && !fs[i].ltype.Packable() && CarriesSlot(fs[i], slot)
    requires j <= |slot.items| && at.slots[SlotOf(fs, i)] == Array(slot.items[..j])
    ensures EncItems(fs[i], slot, j).Some?
    ensures DecLoop(fs, at, EncItems(fs[i], slot, j).value + rest) ==
            DecLoop(fs, Progress(at.slots[SlotOf(fs, i) := slot], at.seen), rest)
    decreases slot, 4, |slot.items| - j
  {
    hide DecLoop, WfSchema, NoSingularDefaults, DefaultValue, SlotOf, EncValue, DecValue, Carries, See;
    FieldIsWf(fs, i);
    var f, k := fs[i], SlotOf(fs, i);
    if j == |slot.items| {
      assert slot.items[..j] == slot.items;
      assert at.slots[k := slot] == at.slots;
      assert [] + rest == rest;
    } else {
      var v := slot.items[j];
      var next := Progress(at.slots[k := Array(slot.items[..j + 1])], at.seen);
      assert slot.items[..j] + [v] == slot.items[..j + 1];
      ItemsStep(fs, next, i, slot, j + 1, rest);
      assert See(fs, i, at.seen) == at.seen by { SeeOnlyRequired(fs, i, at.seen); }
      assert next.slots[k := slot] == at.slots[k := slot];
      var tail := EncItems(f, slot, j + 1).value + rest;
      ValueRoundTrip(f, v, DefaultValue(f), tail);
      var wt, e := WireType(f.ltype), EncValue(f, v).value;
      assert DecField(f, at.slots[k], wt, e + tail) == Ok(Array(slot.items[..j + 1]), tail);
      TaggedStep(fs, at, i, wt, e, tail, Array(slot.items[..j + 1]));
      assert EncTagged(f, v) == Some(EncTag(f.tag, wt) + e);
      assert EncItems(f, slot, j) == Join(EncTagged(f, v), EncItems(f, slot, j + 1));
      assert EncItems(f, slot, j).value + rest == EncTag(f.tag, wt) + e + tail;
    }
  }

  lemma {:induction false} PackedRoundTrip(f: Field, slot: Slot, j: nat)
    requires WfField(f) && FieldHasNoSingularDefaults(f) && f.ltype.Packable()
    requires f.htype.Repeated? && CarriesSlot(f, slot) && j <= |slot.items|
    ensures EncPacked(f, slot, j).Some?
    ensures DecPacked(f, slot.items[..j], EncPacked(f, slot, j).value) == Some(slot.items)
    decreases slot, 4, |slot.items| - j
  {
    if j == |slot.items| {
      assert slot.items[..j] == slot.items;
    } else {
      var v := slot.items[j];
      PackedRoundTrip(f, slot, j + 1);
      var tail := EncPacked(f, slot, j + 1).value;
      ValueRoundTrip(f, v, Num(0), tail);
      assert slot.items[..j] + [v] == slot.items[..j + 1];
    }
  }

  /** The data of a present field that is not an array. */
  function Datum(slot: Slot): Value
    requires !slot.Array? && (slot.Union? ==> slot.arm.Arm?)
  {
    if slot.Union? then slot.arm.v else slot.v
  }

  lemma {:induction false} SingleStep(fs: seq<Field>, at: Progress, i: nat, slot: Slot, rest: seq<byte>)
    requires WfSchema(fs) && NoSingularDefaults(fs) && |at.slots| == SlotCount(fs) && i < |fs|
    requires SlotOf(fs, i) < |at.slots|
    requires CarriesSlot(fs[i], slot) && Present(fs[i], slot) && !fs[i].htype.Repeated?
    requires !fs[i].htype.Oneof? ==> at.slots[SlotOf(fs, i)] == DefaultSlot(fs[i])
    ensures EncField(fs[i], slot).Some?
    ensures DecLoop(fs, at, EncField(fs[i], slot).value + rest) ==
            DecLoop(fs, Progress(at.slots[SlotOf(fs, i) := slot], See(fs, i, at.seen)), rest)
    decreases slot, 4, 0
  {
    hide DecLoop, WfSchema, NoSingularDefaults, DefaultValue, SlotOf, See, EncValue, DecValue, Carries, SlotCount;
    FieldIsWf(fs, i);
    var f, wt, v := fs[i], WireType(fs[i].ltype), Datum(slot);
    ValueRoundTrip(f, v, DefaultValue(f), rest);
    var e := EncValue(f, v).value;
    assert EncTagged(f, v) == Some(EncTag(f.tag, wt) + e);
    assert EncField(f, slot) == EncTagged(f, v);
    assert DecField(f, at.slots[SlotOf(fs, i)], wt, e + rest) == Ok(slot, rest);
    TaggedStep(fs, at, i, wt, e, rest, slot);
  }

  lemma {:induction false} ArrayStep(fs: seq<Field>, at: Progress, i: nat, slot: Slot, rest: seq<byte>)
    requires WfSchema(fs) && NoSingularDefaults(fs) && |at.slots| == SlotCount(fs) && i < |fs|
    requires SlotOf(fs, i) < |at.slots|
    requires CarriesSlot(fs[i], slot) && Present(fs[i], slot) && fs[i].htype.Repeated?
    requires at.slots[SlotOf(fs, i)] == Array([])
    ensures EncField(fs[i], slot).Some?
    ensures DecLoop(fs, at, EncField(fs[i], slot).value + rest) ==
            DecLoop(fs, Progress(at.slots[SlotOf(fs, i) := slot], at.seen), rest)
    decreases slot, 5, 0
  {
    hide DecLoop, WfSchema, NoSingularDefaults, SlotOf, See, EncValue, DecValue, Carries, SlotCount;
    FieldIsWf(fs, i);
    var f := fs[i];
    assert slot.items[..0] == [];
    if f.ltype.Packable() {
      PackedRoundTrip(f, slot, 0);
      var e := EncPacked(f, slot, 0).value;
      BlobRoundTrip(e, rest);
      SeeOnlyRequired(fs, i, at.seen);
      TaggedStep(fs, at, i, WT_STRING, EncBlob(e), rest, slot);
    } else {
      ItemsStep(fs, at, i, slot, 0, rest);
      assert EncField(f, slot) == EncItems(f, slot, 0);
    }
  }

  lemma AbsentField(f: Field, slot: Slot)
    requires CarriesSlot(f, slot) && !Present(f, slot)
    ensures EncField(f, slot) == Some([])
  {
  }

  lemma FieldCarries(fs: seq<Field>, m: Value, i: nat)
    requires CarriesMessage(fs, m) && i < |fs|
    ensures m.Struct? && |m.slots| == SlotCount(fs)
    ensures SlotOf(fs, i) < |m.slots| && CarriesSlot(fs[i], m.slots[SlotOf(fs, i)])
  {
  }

  /** Reading the bytes of field i takes the loop from `at` to `After`. */
  lemma {:induction false} FieldStep(fs: seq<Field>, m: Value, i: nat, at: Progress, rest: seq<byte>)
    requires WfSchema(fs) && NoSingularDefaults(fs) && i < |fs|
    requires CarriesMessage(fs, m) && |at.slots| == SlotCount(fs)
    requires SlotOf(fs, i) < |at.slots|
    requires !fs[i].htype.Oneof? ==> at.slots[SlotOf(fs, i)] == DefaultSlot(fs[i])
    ensures EncField(fs[i], m.slots[SlotOf(fs, i)]).Some?
    ensures DecLoop(fs, at, EncField(fs[i], m.slots[SlotOf(fs, i)]).value + rest) ==
            DecLoop(fs, After(fs, m, i, at), rest)
    decreases m, 0, 1
  {
    hide DecLoop, EncField, WfSchema, NoSingularDefaults, CarriesMessage, CarriesSlot, Present, See, DefaultSlots;
    FieldCarries(fs, m, i);
    var f, slot := fs[i], m.slots[SlotOf(fs, i)];
    if !Present(f, slot) {
      AbsentField(f, slot);
      assert [] + rest == rest;
    } else if f.htype.Repeated? {
      ArrayStep(fs, at, i, slot, rest);
      SeeOnlyRequired(fs, i, at.seen);
    } else {
      SingleStep(fs, at, i, slot, rest);
    }
  }

  lemma FieldIsWf(fs: seq<Field>, i: nat)
    requires WfSchema(fs) && NoSingularDefaults(fs) && i < |fs|
    ensures WfField(fs[i]) && FieldHasNoSingularDefaults(fs[i])
  {
  }

  // ---------------------------------------------------------------- messages

  /** The loop after the bytes of the fields from i on. */
  function AfterFrom(fs: seq<Field>, m: Value, i: nat, at: Progress): (last: Progress)
    requires i <= |fs| && m.Struct? && |m.slots| == |at.slots| == SlotCount(fs)
    ensures |last.slots| == |at.slots|
    decreases |fs| - i
  {
    if i == |fs| then at else AfterFrom(fs, m, i + 1, After(fs, m, i, at))
  }

  lemma LoopEnd(fs: seq<Field>, at: Progress)
    requires |at.slots| == SlotCount(fs)
    ensures DecLoop(fs, at, []) == Ok(at, [])
  {
  }

  lemma CarriesShape(fs: seq<Field>, m: Value)
    requires CarriesMessage(fs, m)
    ensures m.Struct? && |m.slots| == SlotCount(fs)
  {
  }

  lemma {:induction false} LoopRoundTrip(fs: seq<Field>, m: Value, i: nat, at: Progress)
    requires WfSchema(fs) && NoSingularDefaults(fs) && i <= |fs|
    requires CarriesMessage(fs, m) && |at.slots| == SlotCount(fs)
    requires forall j :: i <= j < |fs| && !fs[j].htype.Oneof? ==>
               SlotOf(fs, j) < |at.slots| && at.slots[SlotOf(fs, j)] == DefaultSlot(fs[j])
    ensures m.Struct? && |m.slots| == SlotCount(fs) && EncFrom(fs, m, i).Some?
    ensures DecLoop(fs, at, EncFrom(fs, m, i).value) == Ok(AfterFrom(fs, m, i, at), [])
    decreases m, 1, |fs| - i
  {
    hide DecLoop, EncField, DefaultSlot, WfSchema, NoSingularDefaults, CarriesMessage, See, Present;
    CarriesShape(fs, m);
    if i == |fs| {
      LoopEnd(fs, at);
    } else {
      SlotInRange(fs, i);
      var next := After(fs, m, i, at);
      forall j | i + 1 <= j < |fs| && !fs[j].htype.Oneof?
        ensures SlotOf(fs, j) < |next.slots| && next.slots[SlotOf(fs, j)] == DefaultSlot(fs[j])
      {
        SlotOfDistinct(fs, i, j);
      }
      LoopRoundTrip(fs, m, i + 1, next);
      FieldStep(fs, m, i, at, EncFrom(fs, m, i + 1).value);
    }
  }

  /** A slot stays as it is until a present field fills it in. */
  lemma {:induction false} AfterFromSlots(fs: seq<Field>, m: Value, i: nat, at: Progress, k: nat)
    requires i <= |fs| && m.Struct? && |m.slots| == |at.slots| == SlotCount(fs) && k < |m.slots|
    ensures AfterFrom(fs, m, i, at).slots[k] == at.slots[k] || AfterFrom(fs, m, i, at).slots[k] == m.slots[k]
    decreases |fs| - i
  {
    hide Present, See;
    if i < |fs| {
      AfterFromSlots(fs, m, i + 1, After(fs, m, i, at), k);
    }
  }

  lemma {:induction false} AfterFromFills(fs: seq<Field>, m: Value, i: nat, at: Progress, j: nat)
    requires i <= j < |fs| && m.Struct? && |m.slots| == |at.slots| == SlotCount(fs)
    requires SlotOf(fs, j) < |m.slots| && Present(fs[j], m.slots[SlotOf(fs, j)])
    ensures AfterFrom(fs, m, i, at).slots[SlotOf(fs, j)] == m.slots[SlotOf(fs, j)]
    decreases |fs| - i
  {
    hide Present, See;
    var next := After(fs, m, i, at);
    if i < j {
      AfterFromFills(fs, m, i + 1, next, j);
    } else {
      AfterFromSlots(fs, m, i + 1, next, SlotOf(fs, j));
    }
  }

  lemma {:induction false} AfterFromSeen(fs: seq<Field>, m: Value, i: nat, at: Progress, j: nat)
    requires i <= |fs| && m.Struct? && |m.slots| == |at.slots| == SlotCount(fs)
    ensures at.seen <= AfterFrom(fs, m, i, at).seen
    ensures i <= j < |fs| && fs[j].htype.Required? ==> ReqIndex(fs, j) in AfterFrom(fs, m, i, at).seen
    decreases |fs| - i
  {
    if i < |fs| {
      AfterFromSeen(fs, m, i + 1, After(fs, m, i, at), j);
    }
  }

  /** A zero value of a field without an explicit default is the default. */
  lemma ZeroIsDefault(f: Field, v: Value)
    requires FieldHasNoSingularDefaults(f) && (f.init.None? || f.ltype.Submessage?)
    requires Carries(f, v) && IsZero(f, v)
    ensures v == DefaultValue(f)
    decreases v, 3, 0
  {
    if f.ltype.Submessage? {
      var sub := f.ltype.fields;
      forall k | 0 <= k < |v.slots|
        ensures v.slots[k] == DefaultSlots(sub)[k]
      {
        var i := SlotIsOwned(sub, k);
        DefaultSlotsAt(sub, i);
        AllZeroAt(sub, v, 0, i);
        AbsentIsDefault(sub[i], v.slots[k]);
      }
      assert v.slots == DefaultSlots(sub);
    } else if f.ltype.FixedLengthBytes? {
      assert v.b == Zeros(f.dataSize);
    }
  }

  lemma {:induction false} AllZeroAt(fs: seq<Field>, m: Value, from: nat, i: nat)
    requires m.Struct? && from <= i < |fs| && AllZero(fs, m, from)
    ensures SlotOf(fs, i) < |m.slots| && IsZeroSlot(fs[i], m.slots[SlotOf(fs, i)])
    decreases i - from
  {
    if from < i {
      AllZeroAt(fs, m, from + 1, i);
    }
  }

  lemma AbsentIsDefault(f: Field, slot: Slot)
    requires FieldHasNoSingularDefaults(f) && CarriesSlot(f, slot)
    requires IsZeroSlot(f, slot) || (!Present(f, slot) && (f.htype.Oneof? ==> slot.arm.NoArm?))
    ensures slot == DefaultSlot(f)
    decreases slot, 3, 1
  {
    if f.Singular() {
      ZeroIsDefault(f, slot.v);
    }
  }

  /** Round trip: a message decoded on top of its defaults from its own encoding. */
  lemma MessageRoundTrip(fs: seq<Field>, m: Value)
    requires WfSchema(fs) && NoSingularDefaults(fs) && CarriesMessage(fs, m)
    ensures EncMessage(fs, m).Some?
    ensures DecMessage(fs, Struct(DefaultSlots(fs)), EncMessage(fs, m).value) == Ok(m, [])
    decreases m, 2, 0
  {
    var at := Progress(DefaultSlots(fs), {});
    forall j | 0 <= j < |fs|
      ensures SlotOf(fs, j) < |at.slots| && at.slots[SlotOf(fs, j)] == DefaultSlot(fs[j])
    {
      DefaultSlotsAt(fs, j);
    }
    LoopRoundTrip(fs, m, 0, at);
    var last := AfterFrom(fs, m, 0, at);
    forall j | 0 <= j < |fs| && fs[j].htype.Required?
      ensures ReqIndex(fs, j) in last.seen
    {
      AfterFromSeen(fs, m, 0, at, j);
    }
    forall k | 0 <= k < |m.slots|
      ensures last.slots[k] == m.slots[k]
    {
      AfterFromSlots(fs, m, 0, at, k);
      var j := FilledOrDefault(fs, m, k);
      if m.slots[k] != at.slots[k] {
        AfterFromFills(fs, m, 0, at, j);
      }
    }
    assert last.slots == m.slots;
  }

  /** Either some field is present in slot k or the slot is at its default. */
  lemma FilledOrDefault(fs: seq<Field>, m: Value, k: nat) returns (j: nat)
    requires NoSingularDefaults(fs) && CarriesMessage(fs, m) && k < |m.slots|
    ensures m.slots[k] == DefaultSlots(fs)[k] ||
            (j < |fs| && SlotOf(fs, j) == k && Present(fs[j], m.slots[k]))
  {
    j := SlotIsOwned(fs, k);
    DefaultSlotsAt(fs, j);
    var slot := m.slots[k];
    assert CarriesSlot(fs[j], slot);
    if fs[j].htype.Oneof? && slot.arm.Arm? {
      assert HasArm(fs, k, slot.arm.tag);
      j :| 0 <= j < |fs| && SlotOf(fs, j) == k && fs[j].htype.Oneof? && fs[j].tag == slot.arm.tag;
    } else if !Present(fs[j], slot) {
      AbsentIsDefault(fs[j], slot);
    }
  }
}
