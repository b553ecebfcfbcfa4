/** Decoding is compositional: inputs can be concatenated, and unknown fields inserted. */
module PbCompose {
  import opened Wrappers
  import opened Bits
  import opened PbVarint
  import opened PbSchema
  import opened PbFormat

  // ---------------------------------------------------------------- readers look no further

  lemma {:induction false} GroupsExtend(s: seq<byte>, k: nat, t: seq<byte>)
    requires ReadGroups(s, k).Ok?
    ensures ReadGroups(s + t, k) == Ok(ReadGroups(s, k).value, ReadGroups(s, k).rest + t)
  {
    assert (s + t)[1..] == s[1..] + t;
    if s[0] >= 128 {
      GroupsExtend(s[1..], k - 1, t);
    }
  }

  lemma Varint64Extend(s: seq<byte>, t: seq<byte>)
    requires DecVarint64(s).Ok?
    ensures DecVarint64(s + t) == Ok(DecVarint64(s).value, DecVarint64(s).rest + t)
  {
    GroupsExtend(s, 10, t);
  }

  lemma {:induction false} TailExtend(s: seq<byte>, bitpos: nat, r: nat, t: seq<byte>)
    requires bitpos < 256 && r < 0x1_0000_0000 && Dec32Tail(s, bitpos, r).Ok?
    ensures Dec32Tail(s + t, bitpos, r) == Ok(Dec32Tail(s, bitpos, r).value, Dec32Tail(s, bitpos, r).rest + t)
  {
    hide Or32, Shl32;
    assert (s + t)[1..] == s[1..] + t;
    if s[0] >= 128 {
      var next := if bitpos >= 32 then r else Or32(r, Shl32(s[0] % 128, bitpos));
      TailExtend(s[1..], (bitpos + 7) % 256, next, t);
    }
  }

  lemma {:induction false} Varint32Extend(s: seq<byte>, t: seq<byte>)
    requires DecVarint32(s).Ok?
    ensures DecVarint32(s + t) == Ok(DecVarint32(s).value, DecVarint32(s).rest + t)
  {
    hide Dec32Tail;
    assert (s + t)[1..] == s[1..] + t;
    if s[0] >= 128 {
      TailExtend(s[1..], 7, s[0] - 128, t);
    }
  }

  lemma TagExtend(s: seq<byte>, t: seq<byte>)
    requires DecTag(s).Ok?
    ensures DecTag(s + t) == Ok(DecTag(s).value, DecTag(s).rest + t)
  {
    Varint32Extend(s, t);
  }

  lemma TakeExtend(s: seq<byte>, n: nat, t: seq<byte>)
    requires Take(s, n).Ok?
    ensures Take(s + t, n) == Ok(Take(s, n).value, Take(s, n).rest + t)
  {
    assert (s + t)[..n] == s[..n] && (s + t)[n..] == s[n..] + t;
  }

  lemma BlobExtend(s: seq<byte>, t: seq<byte>)
    requires DecBlob(s).Ok?
    ensures DecBlob(s + t) == Ok(DecBlob(s).value, DecBlob(s).rest + t)
  {
    Varint32Extend(s, t);
    TakeExtend(DecVarint32(s).rest, DecVarint32(s).value, t);
  }

  lemma {:induction false} LengthExtend(s: seq<byte>, t: seq<byte>)
    requires VarintLength(s) <= |s|
    ensures VarintLength(s + t) == VarintLength(s)
  {
    assert (s + t)[1..] == s[1..] + t;
    if s[0] >= 128 {
      LengthExtend(s[1..], t);
    }
  }

  lemma SkipExtend(wt: nat, s: seq<byte>, t: seq<byte>)
    requires Skip(wt, s).Ok?
    ensures Skip(wt, s + t) == Ok((), Skip(wt, s).rest + t)
  {
    if wt == WT_VARINT {
      LengthExtend(s, t);
      assert (s + t)[VarintLength(s)..] == s[VarintLength(s)..] + t;
    } else if wt == WT_64BIT {
      TakeExtend(s, 8, t);
    } else if wt == WT_STRING {
      BlobExtend(s, t);
    } else {
      TakeExtend(s, 4, t);
    }
  }

  lemma {:induction false} ValueExtend(f: Field, base: Value, s: seq<byte>, t: seq<byte>)
    requires DecValue(f, base, s).Ok?
    ensures DecValue(f, base, s + t) == Ok(DecValue(f, base, s).value, DecValue(f, base, s).rest + t)
  {
    hide DecVarint64, DecBlob, DecMessage, Take;
    match f.ltype
    case Varint | UVarint | SVarint => Varint64Extend(s, t);
    case Fixed32 => TakeExtend(s, 4, t);
    case Fixed64 => TakeExtend(s, 8, t);
    case _ => BlobExtend(s, t);
  }

  lemma {:induction false} FieldExtend(f: Field, slot: Slot, wt: nat, s: seq<byte>, t: seq<byte>)
    requires DecField(f, slot, wt, s).Ok?
    ensures DecField(f, slot, wt, s + t) == Ok(DecField(f, slot, wt, s).value, DecField(f, slot, wt, s).rest + t)
  {
    hide DecValue, DecBlob, DecPacked, DefaultValue;
    if f.htype.Repeated? && wt == WT_STRING && f.ltype.Packable() {
      BlobExtend(s, t);
    } else {
      var base := if f.htype.Required? || f.htype.Optional? then Content(f, slot) else DefaultValue(f);
      ValueExtend(f, base, s, t);
    }
  }

  lemma {:induction false} EntryExtend(fs: seq<Field>, at: Progress, tag: nat, wt: nat, s: seq<byte>, t: seq<byte>)
    requires |at.slots| == SlotCount(fs) && DecEntry(fs, at, tag, wt, s).Ok?
    ensures DecEntry(fs, at, tag, wt, s + t) ==
            Ok(DecEntry(fs, at, tag, wt, s).value, DecEntry(fs, at, tag, wt, s).rest + t)
  {
    hide DecField, Skip, SlotOf, FindField;
    match FindField(fs, tag, 0)
    case None => SkipExtend(wt, s, t);
    case Some(i) =>
      SlotInRange(fs, i);
      FieldExtend(fs[i], at.slots[SlotOf(fs, i)], wt, s, t);
  }

  // ---------------------------------------------------------------- concatenation

  /** The loop reads all of s, without meeting a zero tag. */
  predicate ReadsThrough(fs: seq<Field>, at: Progress, s: seq<byte>)
    requires |at.slots| == SlotCount(fs)
    decreases |s|
  {
    s == [] ||
    (var t := DecTag(s);
     t.Ok? && t.value.Tag? &&
     var e := DecEntry(fs, at, t.value.tag, t.value.wt, t.rest);
     e.Ok? && ReadsThrough(fs, e.value, e.rest))
  }

  lemma {:induction false} LoopConcat(fs: seq<Field>, at: Progress, a: seq<byte>, b: seq<byte>)
    requires |at.slots| == SlotCount(fs) && ReadsThrough(fs, at, a)
    ensures DecLoop(fs, at, a).Ok? && DecLoop(fs, at, a).rest == []
    ensures DecLoop(fs, at, a + b) == DecLoop(fs, DecLoop(fs, at, a).value, b)
    decreases |a|
  {
    hide DecTag, DecEntry;
    if a == [] {
      assert a + b == b;
    } else {
      var t := DecTag(a);
      var e := DecEntry(fs, at, t.value.tag, t.value.wt, t.rest);
      TagExtend(a, b);
      EntryExtend(fs, at, t.value.tag, t.value.wt, t.rest, b);
      LoopConcat(fs, e.value, e.rest, b);
      assert DecLoop(fs, at, a) == DecLoop(fs, e.value, e.rest);
      assert DecLoop(fs, at, a + b) == DecLoop(fs, e.value, e.rest + b);
    }
  }

  /** What was seen before does not influence the struct, and stays seen. */
  lemma {:induction false} SeenIsCarried(fs: seq<Field>, slots: seq<Slot>, early: set<nat>, late: set<nat>,
                                         s: seq<byte>)
    requires |slots| == SlotCount(fs)
    ensures var p, q := DecLoop(fs, Progress(slots, late), s), DecLoop(fs, Progress(slots, early + late), s);
            p.Ok? ==> q == Ok(Progress(p.value.slots, early + p.value.seen), p.rest)
    decreases |s|
  {
    hide DecTag, DecField, Skip, SlotOf, FindField;
    var at, at' := Progress(slots, late), Progress(slots, early + late);
    if s != [] && DecTag(s).Ok? && DecTag(s).value.Tag? {
      var t := DecTag(s);
      var e := DecEntry(fs, at, t.value.tag, t.value.wt, t.rest);
      var e' := DecEntry(fs, at', t.value.tag, t.value.wt, t.rest);
      if e.Ok? {
        assert early + late + {0} == early + (late + {0});
        SeenStep(fs, at, at', early, t.value.tag, t.value.wt, t.rest);
        SeenIsCarried(fs, e.value.slots, early, e.value.seen, e.rest);
      }
    }
  }

  lemma {:induction false} SeenStep(fs: seq<Field>, at: Progress, at': Progress, early: set<nat>, tag: nat, wt: nat,
                                    s: seq<byte>)
    requires |at.slots| == SlotCount(fs) && at' == Progress(at.slots, early + at.seen)
    ensures var e, e' := DecEntry(fs, at, tag, wt, s), DecEntry(fs, at', tag, wt, s);
            if e.Err? then e'.Err? else e' == Ok(Progress(e.value.slots, early + e.value.seen), e.rest)
  {
    hide DecField, Skip, SlotOf;
    match FindField(fs, tag, 0)
    case None =>
    case Some(i) =>
      SlotInRange(fs, i);
      assert See(fs, i, early + at.seen) == early + See(fs, i, at.seen);
  }

  /** If a decodes, and then b decodes on top of the result without initialising it, then
      a ++ b decodes to the same message. */
  lemma {:induction false} DecodeConcat(fs: seq<Field>, m: Value, a: seq<byte>, b: seq<byte>)
    requires ReadsThrough(fs, Progress(SlotsFor(fs, m), {}), a)
    requires DecMessage(fs, m, a).Ok?
    requires DecMessage(fs, DecMessage(fs, m, a).value, b).Ok?
    ensures DecMessage(fs, m, a + b) == DecMessage(fs, DecMessage(fs, m, a).value, b)
  {
    hide DecLoop, SlotCount, ReqIndex;
    var at := Progress(SlotsFor(fs, m), {});
    LoopConcat(fs, at, a, b);
    var mid := DecLoop(fs, at, a).value;
    SeenIsCarried(fs, mid.slots, mid.seen, {}, b);
    assert mid.seen + {} == mid.seen;
    assert mid == Progress(mid.slots, mid.seen);
    var last := DecLoop(fs, Progress(mid.slots, {}), b).value;
    assert RequiredMet(fs, last.seen);
  }

  /** An unknown field between a and b changes nothing, except that a message without fields does
      not survive a field with tag 0. */
  lemma {:induction false} UnknownFieldIgnored(fs: seq<Field>, m: Value, a: seq<byte>, u: seq<byte>, b: seq<byte>)
    requires ReadsThrough(fs, Progress(SlotsFor(fs, m), {}), a)
    requires DecTag(u).Ok? && DecTag(u).value.Tag?
    requires forall f :: f in fs ==> f.tag != DecTag(u).value.tag
    requires Skip(DecTag(u).value.wt, DecTag(u).rest) == Ok((), [])
    ensures DecMessage(fs, m, a + u + b) ==
            if fs == [] && DecTag(u).value.tag == 0 then Err else DecMessage(fs, m, a + b)
  {
    hide DecTag, Skip;
    var at := Progress(SlotsFor(fs, m), {});
    assert a + u + b == a + (u + b);
    LoopConcat(fs, at, a, u + b);
    LoopConcat(fs, at, a, b);
    var mid := DecLoop(fs, at, a).value;
    if fs == [] && DecTag(u).value.tag == 0 {
      TagExtend(u, b);
      assert DecLoop(fs, mid, u + b) == Err;
      return;
    }
    UnknownEntry(fs, mid, DecTag(u).value.tag, DecTag(u).value.wt, DecTag(u).rest);
    assert ReadsThrough(fs, mid, u);
    LoopConcat(fs, mid, u, b);
    assert DecLoop(fs, mid, u) == Ok(mid, []);
  }

  /** The exception: an empty length-delimited field with tag 0, in a message without fields. */
  lemma FieldZeroOfEmpty()
    ensures DecMessage([], Struct([]), []) == Ok(Struct([]), [])
    ensures DecMessage([], Struct([]), [0x02, 0x00]) == Err
    ensures DecTag([0x02, 0x00]) == Ok(Tag(0, 2), [0x00]) && Skip(2, [0x00]) == Ok((), [])
  {
    var u: seq<byte> := [0x02, 0x00];
    assert u[1..] == [0x00];
  }

  lemma UnknownEntry(fs: seq<Field>, at: Progress, tag: nat, wt: nat, s: seq<byte>)
    requires |at.slots| == SlotCount(fs) && (fs == [] ==> tag != 0)
    requires forall f :: f in fs ==> f.tag != tag
    requires Skip(wt, s) == Ok((), [])
    ensures DecEntry(fs, at, tag, wt, s) == Ok(at, [])
  {
    forall j | 0 <= j < |fs|
      ensures fs[j].tag != tag
    {
      assert fs[j] in fs;
    }
  }
}
