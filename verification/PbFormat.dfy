/** The protobuf wire format as nanopb writes and reads it, over byte sequences: what the
    encoder and decoder methods are proved against. */
module PbFormat {
  import opened Wrappers
  import opened Bits
  import opened PbVarint
  import opened PbSchema

  const WT_VARINT: nat := 0
  const WT_64BIT: nat := 1
  const WT_STRING: nat := 2
  const WT_32BIT: nat := 5

  // ---------------------------------------------------------------- scalars

  /** The k low-order bytes of n, least significant first. */
  function LittleEndian(n: nat, k: nat): (s: seq<byte>)
    ensures |s| == k
  {
    if k == 0 then [] else [n % 256] + LittleEndian(n / 256, k - 1)
  }

  function FromLittleEndian(s: seq<byte>): nat {
    if s == [] then 0 else s[0] + 256 * FromLittleEndian(s[1..])
  }

  /** The range of a signed integer of `size` bytes. */
  predicate SignedFits(n: int, size: nat) {
    match size
    case 1 => -0x80 <= n < 0x80
    case 2 => -0x8000 <= n < 0x8000
    case 4 => -0x8000_0000 <= n < 0x8000_0000
    case 8 => Signed64(n)
    case _ => false
  }

  predicate UnsignedFits(n: int, size: nat) {
    match size
    case 1 => 0 <= n < 0x100
    case 2 => 0 <= n < 0x1_0000
    case 4 => 0 <= n < 0x1_0000_0000
    case 8 => 0 <= n < 0x1_0000_0000_0000_0000
    case _ => false
  }

  /** The 64-bit word a numeric field holding n is written as. */
  function NumToWord(f: Field, n: int): Option<nat> {
    match f.ltype
    case Varint =>
      if !SignedFits(n, f.dataSize) then None
      else Some(if n < 0 then n + 0x1_0000_0000_0000_0000 else n)
    case UVarint => if UnsignedFits(n, f.dataSize) then Some(n) else None
    case SVarint => if SignedFits(n, f.dataSize) then Some(ZigZag(n)) else None
    case _ => None
  }

  function ToSigned32(u: nat): int {
    var w := u % 0x1_0000_0000;
    if w >= 0x8000_0000 then w - 0x1_0000_0000 else w
  }

  /** The number a field stores for the word u, unless it does not fit. A field of at most
      32 bits takes the low word of u first. */
  function WordToNum(f: Field, u: nat): Option<int>
    requires u < 0x1_0000_0000_0000_0000
  {
    match f.ltype
    case Varint =>
      var n := if f.dataSize != 8 then ToSigned32(u)
               else if u >= 0x8000_0000_0000_0000 then u - 0x1_0000_0000_0000_0000 else u;
      if SignedFits(n, f.dataSize) then Some(n) else None
    case UVarint => if UnsignedFits(u, f.dataSize) then Some(u) else None
    case SVarint => if SignedFits(UnZigZag(u), f.dataSize) then Some(UnZigZag(u)) else None
    case _ => None
  }

  // ---------------------------------------------------------------- encoding

  function WireType(t: LType): nat {
    match t
    case Varint | UVarint | SVarint => WT_VARINT
    case Fixed32 => WT_32BIT
    case Fixed64 => WT_64BIT
    case _ => WT_STRING
  }

  function EncTag(tag: nat, wt: nat): seq<byte> {
    EncVarint(tag * 8 + wt)
  }

  function EncBlob(b: seq<byte>): seq<byte> {
    EncVarint(|b|) + b
  }

  /** The characters of a buffer before its first NUL, at most max of them. */
  function CString(b: seq<byte>, max: nat): (s: seq<byte>)
    ensures s <= b && |s| <= max
  {
    if b == [] || max == 0 || b[0] == 0 then [] else [b[0]] + CString(b[1..], max - 1)
  }

  /** The payload of one value, without its tag. None is an encoding error. */
  function EncValue(f: Field, v: Value): Option<seq<byte>>
    decreases v, 1, 0
  {
    match (f.ltype, v)
    case (Varint, Num(n)) => EncNum(f, n)
    case (UVarint, Num(n)) => EncNum(f, n)
    case (SVarint, Num(n)) => EncNum(f, n)
    case (Fixed32, _) => Some(LittleEndian(NumOf(v) % 0x1_0000_0000, 4))
    case (Fixed64, _) => Some(LittleEndian(NumOf(v) % 0x1_0000_0000_0000_0000, 8))
    case (Bytes, Blob(b)) => if |b| + PB_SIZE_BYTES > f.dataSize then None else Some(EncBlob(b))
    case (String, Blob(b)) => Some(EncBlob(CString(b, f.dataSize)))
    case (FixedLengthBytes, Blob(b)) => if |b| == f.dataSize then Some(EncBlob(b)) else None
    case (Submessage(sub), Struct(_)) =>
      (match EncFrom(sub, v, 0)
       case None => None
       case Some(s) => Some(EncBlob(s)))
    case _ => None
  }

  /** The number in an integer member. A value of another shape cannot occur in C. */
  function NumOf(v: Value): int {
    if v.Num? then v.n else 0
  }

  function EncNum(f: Field, n: int): Option<seq<byte>> {
    match NumToWord(f, n)
    case None => None
    case Some(u) => Some(EncVarint(u))
  }

  /** Concatenates two encodings, failing if either fails. */
  function Join(a: Option<seq<byte>>, b: Option<seq<byte>>): Option<seq<byte>> {
    if a.Some? && b.Some? then Some(a.value + b.value) else None
  }

  function EncTagged(f: Field, v: Value): Option<seq<byte>>
    decreases v, 2, 0
  {
    Join(Some(EncTag(f.tag, WireType(f.ltype))), EncValue(f, v))
  }

  /** Array entries from j on, each with its own tag. */
  function EncItems(f: Field, slot: Slot, j: nat): Option<seq<byte>>
    requires slot.Array? && j <= |slot.items|
    decreases slot, 0, |slot.items| - j
  {
    if j == |slot.items| then Some([])
    else Join(EncTagged(f, slot.items[j]), EncItems(f, slot, j + 1))
  }

  /** The payload of a packed array: entries from j on, without tags. */
  function EncPacked(f: Field, slot: Slot, j: nat): Option<seq<byte>>
    requires slot.Array? && j <= |slot.items|
    decreases slot, 0, |slot.items| - j
  {
    if j == |slot.items| then Some([])
    else Join(EncValue(f, slot.items[j]), EncPacked(f, slot, j + 1))
  }

  /** A zero value, which a proto3 field does not put on the wire. */
  predicate IsZero(f: Field, v: Value)
    decreases v, 1, 0
  {
    match (f.ltype, v)
    case (Bytes, Blob(b)) => b == []
    case (String, Blob(b)) => b == [] || b[0] == 0
    case (FixedLengthBytes, _) => f.dataSize == 0
    case (Submessage(sub), Struct(_)) => AllZero(sub, v, 0)
    case (_, Num(n)) => n == 0
    case _ => true
  }

  predicate IsZeroSlot(f: Field, slot: Slot)
    decreases slot, 1, 0
  {
    match (f.htype, slot)
    case (Required, _) => false
    case (Repeated, Array(items)) => items == []
    case (Oneof, Union(arm)) => arm.NoArm?
    case (Optional, Flagged(has, _)) => !has
    case (Optional, Plain(v)) => IsZero(f, v)
    case _ => true
  }

  /** Fields from i on are all zero. */
  predicate AllZero(fs: seq<Field>, m: Value, i: nat)
    requires m.Struct? && i <= |fs|
    decreases m, 0, |fs| - i
  {
    i == |fs| ||
    (SlotOf(fs, i) < |m.slots| && IsZeroSlot(fs[i], m.slots[SlotOf(fs, i)]) && AllZero(fs, m, i + 1))
  }

  /** One field of a message: nothing if it is absent. */
  function EncField(f: Field, slot: Slot): Option<seq<byte>>
    decreases slot, 1, 0
  {
    match (f.htype, slot)
    case (Required, Plain(v)) => EncTagged(f, v)
    case (Optional, Flagged(has, v)) => if f.Singular() then None else if has then EncTagged(f, v) else Some([])
    case (Optional, Plain(v)) => if !f.Singular() then None else if IsZero(f, v) then Some([]) else EncTagged(f, v)
    case (Repeated, Array(items)) =>
      if items == [] then Some([])
      else if |items| > f.arraySize then None
      else if !f.ltype.Packable() then EncItems(f, slot, 0)
      else
        (match EncPacked(f, slot, 0)
         case None => None
         case Some(s) => Some(EncTag(f.tag, WT_STRING) + EncBlob(s)))
    case (Oneof, Union(NoArm)) => Some([])
    case (Oneof, Union(Arm(tag, v))) => if tag == f.tag then EncTagged(f, v) else Some([])
    case _ => None
  }

  /** Fields from i on, in descriptor order. */
  function EncFrom(fs: seq<Field>, m: Value, i: nat): Option<seq<byte>>
    requires m.Struct? && i <= |fs|
    decreases m, 0, |fs| - i
  {
    if i == |fs| then Some([])
    else if SlotOf(fs, i) >= |m.slots| then None
    else Join(EncField(fs[i], m.slots[SlotOf(fs, i)]), EncFrom(fs, m, i + 1))
  }

  function EncMessage(fs: seq<Field>, m: Value): Option<seq<byte>>
    requires m.Struct?
  {
    EncFrom(fs, m, 0)
  }

  // ---------------------------------------------------------------- decoding

  datatype Tag = Stop | Tag(tag: nat, wt: nat)

  /** A zero byte where a tag is expected ends the message. */
  function DecTag(s: seq<byte>): (p: Parsed<Tag>)
    ensures p.Ok? ==> |p.rest| < |s|
  {
    match DecVarint32(s)
    case Err => Err
    case Ok(u, rest) => Ok(if u == 0 then Stop else Tag(u / 8, u % 8), rest)
  }

  function Take(s: seq<byte>, n: nat): (p: Parsed<seq<byte>>)
    ensures p.Ok? ==> |p.rest| == |s| - n && |p.value| == n
  {
    if |s| < n then Err else Ok(s[..n], s[n..])
  }

  /** A length prefix and that many bytes. */
  function DecBlob(s: seq<byte>): (p: Parsed<seq<byte>>)
    ensures p.Ok? ==> |p.rest| + |p.value| < |s|
  {
    match DecVarint32(s)
    case Err => Err
    case Ok(n, rest) => Take(rest, n)
  }

  /** Skips the payload of an unknown field. */
  function Skip(wt: nat, s: seq<byte>): (p: Parsed<()>)
    ensures p.Ok? ==> |p.rest| <= |s|
  {
    if wt == WT_VARINT then
      (if VarintLength(s) <= |s| then Ok((), s[VarintLength(s)..]) else Err)
    else if wt == WT_64BIT then Forget(Take(s, 8))
    else if wt == WT_STRING then Forget(DecBlob(s))
    else if wt == WT_32BIT then Forget(Take(s, 4))
    else Err
  }

  function Forget(p: Parsed<seq<byte>>): Parsed<()> {
    match p case Err => Err case Ok(_, rest) => Ok((), rest)
  }

  function DecNum(f: Field, s: seq<byte>): (p: Parsed<Value>)
    ensures p.Ok? ==> |p.rest| < |s|
  {
    match DecVarint64(s)
    case Err => Err
    case Ok(u, rest) =>
      match WordToNum(f, u)
      case None => Err
      case Some(n) => Ok(Num(n), rest)
  }

  function DecFixed(k: nat, s: seq<byte>): Parsed<Value> {
    match Take(s, k)
    case Err => Err
    case Ok(b, rest) => Ok(Num(FromLittleEndian(b)), rest)
  }

  /** One value. `base` is what the destination holds, which a submessage is merged into. */
  function DecValue(f: Field, base: Value, s: seq<byte>): (p: Parsed<Value>)
    ensures p.Ok? ==> |p.rest| < |s|
    decreases |s|, 0
  {
    match f.ltype
    case Varint | UVarint | SVarint => DecNum(f, s)
    case Fixed32 => DecFixed(4, s)
    case Fixed64 => DecFixed(8, s)
    case Bytes =>
      (match DecBlob(s)
       case Err => Err
       case Ok(b, rest) => if |b| + PB_SIZE_BYTES > f.dataSize then Err else Ok(Blob(b), rest))
    case String =>
      (match DecBlob(s)
       case Err => Err
       case Ok(b, rest) => if |b| + 1 > f.dataSize then Err else Ok(Blob(b), rest))
    case FixedLengthBytes =>
      (match DecBlob(s)
       case Err => Err
       case Ok(b, rest) =>
         if b == [] then Ok(Blob(Zeros(f.dataSize)), rest)
         else if |b| != f.dataSize then Err else Ok(Blob(b), rest))
    case Submessage(sub) =>
      match DecBlob(s)
      case Err => Err
      case Ok(b, rest) =>
        match DecMessage(sub, if f.htype.Repeated? then DefaultValue(f) else base, b)
        case Err => Err
        case Ok(m, _) => Ok(m, rest)
  }

  /** A packed payload, appended to `items` until it is used up or the array is full. */
  function DecPacked(f: Field, items: seq<Value>, s: seq<byte>): Option<seq<Value>>
    decreases |s|, 1
  {
    if s == [] then Some(items)
    else if |items| >= f.arraySize then None
    else
      match DecValue(f, Num(0), s)
      case Err => None
      case Ok(v, rest) => DecPacked(f, items + [v], rest)
  }

  /** The data a slot holds for a field, for a submessage to be merged into. */
  function Content(f: Field, slot: Slot): Value {
    match slot
    case Plain(v) => v
    case Flagged(_, v) => v
    case _ => DefaultValue(f)
  }

  /** What arrives for field f replaces, extends or merges into its slot. */
  function DecField(f: Field, slot: Slot, wt: nat, s: seq<byte>): (p: Parsed<Slot>)
    ensures p.Ok? ==> |p.rest| < |s|
    decreases |s|, 2
  {
    match f.htype
    case Required =>
      (match DecValue(f, Content(f, slot), s)
       case Err => Err
       case Ok(v, rest) => Ok(Plain(v), rest))
    case Optional =>
      (match DecValue(f, Content(f, slot), s)
       case Err => Err
       case Ok(v, rest) => Ok(if f.Singular() then Plain(v) else Flagged(true, v), rest))
    case Oneof =>
      (match DecValue(f, DefaultValue(f), s)
       case Err => Err
       case Ok(v, rest) => Ok(Union(Arm(f.tag, v)), rest))
    case Repeated =>
      var items := if slot.Array? then slot.items else [];
      if wt == WT_STRING && f.ltype.Packable() then
        (match DecBlob(s)
         case Err => Err
         case Ok(b, rest) =>
           match DecPacked(f, items, b)
           case None => Err
           case Some(more) => Ok(Array(more), rest))
      else if |items| >= f.arraySize then Err
      else
        match DecValue(f, DefaultValue(f), s)
        case Err => Err
        case Ok(v, rest) => Ok(Array(items + [v]), rest)
  }

  /** The field with a tag, by linear search from i. */
  function FindField(fs: seq<Field>, tag: nat, i: nat): (k: Option<nat>)
    requires i <= |fs|
    ensures k.Some? ==> i <= k.value < |fs| && fs[k.value].tag == tag
    ensures k.None? ==> forall j :: i <= j < |fs| ==> fs[j].tag != tag
    decreases |fs| - i
  {
    if i == |fs| then None else if fs[i].tag == tag then Some(i) else FindField(fs, tag, i + 1)
  }

  /** With distinct tags every field is found. */
  lemma {:induction false} FindFieldAt(fs: seq<Field>, i: nat, from: nat)
    requires WfSchema(fs) && from <= i < |fs|
    ensures FindField(fs, fs[i].tag, from) == Some(i)
    decreases i - from
  {
    if from < i {
      FindFieldAt(fs, i, from + 1);
    }
  }

  /** Where the field loop stands: the struct and the required fields seen. */
  datatype Progress = Progress(slots: seq<Slot>, seen: set<nat>)

  /** What follows a tag: an unknown field is skipped, a known one decoded into its slot. In
      a message without fields the terminator of the descriptor array answers to tag 0 and
      fails to decode. */
  function DecEntry(fs: seq<Field>, at: Progress, tag: nat, wt: nat, s: seq<byte>): (p: Parsed<Progress>)
    requires |at.slots| == SlotCount(fs)
    ensures p.Ok? ==> |p.value.slots| == SlotCount(fs) && |p.rest| <= |s|
    decreases |s|, 3
  {
    if fs == [] && tag == 0 then Err
    else
      match FindField(fs, tag, 0)
      case None =>
        (match Skip(wt, s)
         case Err => Err
         case Ok(_, rest) => Ok(at, rest))
      case Some(i) =>
        SlotInRange(fs, i);
        var k := SlotOf(fs, i);
        match DecField(fs[i], at.slots[k], wt, s)
        case Err => Err
        case Ok(slot, rest) => Ok(Progress(at.slots[k := slot], See(fs, i, at.seen)), rest)
  }

  /** The loop over the fields of a message. */
  function DecLoop(fs: seq<Field>, at: Progress, s: seq<byte>): (p: Parsed<Progress>)
    requires |at.slots| == SlotCount(fs)
    ensures p.Ok? ==> |p.value.slots| == SlotCount(fs) && |p.rest| <= |s|
    decreases |s|, 4
  {
    if s == [] then Ok(at, [])
    else
      match DecTag(s)
      case Err => Err
      case Ok(Stop, rest) => Ok(at, rest)
      case Ok(Tag(tag, wt), rest) =>
        match DecEntry(fs, at, tag, wt, rest)
        case Err => Err
        case Ok(next, rest') => DecLoop(fs, next, rest')
  }

  function See(fs: seq<Field>, i: nat, seen: set<nat>): set<nat>
    requires i < |fs|
  {
    if fs[i].htype.Required? then seen + {ReqIndex(fs, i)} else seen
  }

  /** Each of the first 64 required fields was seen. */
  predicate RequiredMet(fs: seq<Field>, seen: set<nat>) {
    forall i :: 0 <= i < |fs| && fs[i].htype.Required? && ReqIndex(fs, i) < PB_MAX_REQUIRED_FIELDS ==>
      ReqIndex(fs, i) in seen
  }

  /** The slots of a struct. A value of another shape cannot occur in C. */
  function SlotsFor(fs: seq<Field>, m: Value): (slots: seq<Slot>)
    ensures |slots| == SlotCount(fs)
  {
    if m.Struct? && |m.slots| == SlotCount(fs) then m.slots else DefaultSlots(fs)
  }

  /** Decodes on top of m, without initialising it. */
  function DecMessage(fs: seq<Field>, m: Value, s: seq<byte>): (p: Parsed<Value>)
    ensures p.Ok? ==> |p.rest| <= |s|
    decreases |s|, 5
  {
    match DecLoop(fs, Progress(SlotsFor(fs, m), {}), s)
    case Err => Err
    case Ok(at, rest) => if RequiredMet(fs, at.seen) then Ok(Struct(at.slots), rest) else Err
  }
}
