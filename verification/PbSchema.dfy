/** nanopb message descriptors and the message values they describe. A descriptor array is
    a sequence of fields (without its terminator); a C struct is a sequence of slots, one for
    each member, the members of a union sharing one slot. */
module PbSchema {
  import opened Wrappers
  import opened Bits
  import opened PbVarint

  /** sizeof(pb_size_t) and its largest value, as this repository configures nanopb. */
  const PB_SIZE_BYTES: nat := 4
  const PB_SIZE_MAX: nat := 0xFFFF_FFFF
  const PB_MAX_REQUIRED_FIELDS: nat := 64

  datatype LType =
    | Varint | UVarint | SVarint | Fixed32 | Fixed64
    | Bytes | String | Submessage(fields: seq<Field>) | FixedLengthBytes
  {
    predicate Packable() {
      Varint? || UVarint? || SVarint? || Fixed32? || Fixed64?
    }
  }

  datatype HType = Required | Optional | Repeated | Oneof

  /** An entry of a descriptor array. `init` is the default value, if one is given. */
  datatype Field = Field(
    tag: nat, ltype: LType, htype: HType,
    dataOffset: nat, sizeOffset: int, dataSize: nat, arraySize: nat,
    init: Option<Value>)
  {
    /** A proto3 field: optional, but without a has_ flag. */
    predicate Singular() {
      htype.Optional? && sizeOffset == 0
    }
  }

  datatype Value = Num(n: int) | Blob(b: seq<byte>) | Struct(slots: seq<Slot>)

  /** A struct member with its companion: has_ flag, _count or which_. */
  datatype Slot = Plain(v: Value) | Flagged(has: bool, v: Value) | Array(items: seq<Value>) | Union(arm: Arm)

  datatype Arm = NoArm | Arm(tag: nat, v: Value)

  // ---------------------------------------------------------------- layout

  /** Two neighbours in a descriptor array that lie in the same union. */
  predicate Shares(prev: Field, cur: Field) {
    prev.htype.Oneof? && cur.htype.Oneof? && cur.dataOffset == PB_SIZE_MAX
  }

  /** The slot of field i. */
  function SlotOf(fs: seq<Field>, i: nat): (k: nat)
    requires i < |fs|
    ensures k <= i
  {
    if i == 0 then 0
    else if Shares(fs[i - 1], fs[i]) then SlotOf(fs, i - 1)
    else SlotOf(fs, i - 1) + 1
  }

  function SlotCount(fs: seq<Field>): nat {
    if fs == [] then 0 else SlotOf(fs, |fs| - 1) + 1
  }

  /** The number of required fields before field i. */
  function ReqIndex(fs: seq<Field>, i: nat): (k: nat)
    requires i <= |fs|
    ensures k <= i
  {
    if i == 0 then 0 else ReqIndex(fs, i - 1) + (if fs[i - 1].htype.Required? then 1 else 0)
  }

  lemma {:induction false} SlotOfMonotone(fs: seq<Field>, i: nat, j: nat)
    requires i <= j < |fs|
    ensures SlotOf(fs, i) <= SlotOf(fs, j)
    decreases j
  {
    if i < j {
      SlotOfMonotone(fs, i, j - 1);
    }
  }

  /** Only union members share a slot. */
  lemma {:induction false} SlotOfDistinct(fs: seq<Field>, i: nat, j: nat)
    requires i < j < |fs| && !(fs[i].htype.Oneof? && fs[j].htype.Oneof?)
    ensures SlotOf(fs, i) < SlotOf(fs, j)
  {
    SlotOfMonotone(fs, i, j - 1);
    if Shares(fs[j - 1], fs[j]) {
      SlotOfDistinct(fs, i, j - 1);
    }
  }

  // ---------------------------------------------------------------- defaults

  function DefaultValue(f: Field): Value
    decreases f, 0
  {
    match f.ltype
    case Submessage(sub) => Struct(DefaultSlots(sub))
    case Bytes | String => f.init.GetOr(Blob([]))
    case FixedLengthBytes => f.init.GetOr(Blob(Zeros(f.dataSize)))
    case _ => f.init.GetOr(Num(0))
  }

  function DefaultSlot(f: Field): Slot
    decreases f, 1
  {
    match f.htype
    case Required => Plain(DefaultValue(f))
    case Optional => if f.sizeOffset != 0 then Flagged(false, DefaultValue(f)) else Plain(DefaultValue(f))
    case Repeated => Array([])
    case Oneof => Union(NoArm)
  }

  /** A freshly initialised struct: has_ flags, counts and which_ cleared, data at its default. */
  function DefaultSlots(fs: seq<Field>): (slots: seq<Slot>)
    ensures |slots| == SlotCount(fs)
    decreases fs, 2
  {
    if fs == [] then []
    else
      var n := |fs| - 1;
      var init := DefaultSlots(fs[..n]);
      SlotCountPrefix(fs, n);
      if n > 0 && Shares(fs[n - 1], fs[n]) then init else init + [DefaultSlot(fs[n])]
  }

  lemma {:induction false} SlotOfPrefix(fs: seq<Field>, n: nat, i: nat)
    requires i < n <= |fs|
    ensures SlotOf(fs[..n], i) == SlotOf(fs, i)
  {
    if i > 0 {
      SlotOfPrefix(fs, n, i - 1);
    }
  }

  lemma SlotCountPrefix(fs: seq<Field>, n: nat)
    requires n <= |fs|
    ensures SlotCount(fs[..n]) == if n == 0 then 0 else SlotOf(fs, n - 1) + 1
  {
    if n > 0 {
      SlotOfPrefix(fs, n, n - 1);
    }
  }

  lemma SlotInRange(fs: seq<Field>, i: nat)
    requires i < |fs|
    ensures SlotOf(fs, i) < SlotCount(fs)
  {
    SlotOfMonotone(fs, i, |fs| - 1);
  }

  /** Every slot belongs to some field. */
  lemma {:induction false} SlotIsOwned(fs: seq<Field>, k: nat) returns (i: nat)
    requires k < SlotCount(fs)
    ensures i < |fs| && SlotOf(fs, i) == k
  {
    i := |fs| - 1;
    while SlotOf(fs, i) > k
      invariant i < |fs| && SlotOf(fs, i) >= k
      decreases i
    {
      i := i - 1;
    }
  }

  /** Every field finds its own default in a freshly initialised struct. */
  lemma {:induction false} DefaultSlotsAt(fs: seq<Field>, i: nat)
    requires i < |fs|
    ensures SlotOf(fs, i) < SlotCount(fs)
    ensures DefaultSlots(fs)[SlotOf(fs, i)] == DefaultSlot(fs[i])
    decreases |fs|
  {
    SlotInRange(fs, i);
    var n := |fs| - 1;
    SlotCountPrefix(fs, n);
    if i < n {
      DefaultSlotsAt(fs[..n], i);
      SlotOfPrefix(fs, n, i);
    } else if n > 0 && Shares(fs[n - 1], fs[n]) {
      DefaultSlotsAt(fs[..n], n - 1);
      SlotOfPrefix(fs, n, n - 1);
    }
  }

  // ---------------------------------------------------------------- descriptors a generator emits

  /** Distinct tags, sizes the types allow, unions laid out contiguously. */
  predicate WfSchema(fs: seq<Field>) {
    && (forall i, j :: 0 <= i < j < |fs| ==> fs[i].tag != fs[j].tag)
    && (forall f :: f in fs ==> WfField(f))
  }

  predicate WfField(f: Field) {
    && 1 <= f.tag < 0x2000_0000
    && f.dataSize <= PB_SIZE_MAX && f.arraySize <= PB_SIZE_MAX
    && (f.htype.Repeated? ==> f.sizeOffset != 0)
    && match f.ltype
       case Submessage(sub) => WfSchema(sub)
       case Varint | UVarint | SVarint => f.dataSize in {1, 2, 4, 8}
       case Fixed32 => f.dataSize == 4
       case Fixed64 => f.dataSize == 8
       case Bytes => f.dataSize >= PB_SIZE_BYTES
       case String => f.dataSize >= 1
       case FixedLengthBytes => true
  }
}
