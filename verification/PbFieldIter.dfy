/** The cursor over a descriptor array and the bitmask of required fields. */
module PbFieldIter {
  import opened Wrappers
  import opened Bits
  import opened PbVarint
  import opened PbSchema
  import opened PbFormat

  // ---------------------------------------------------------------- where a linear walk stands

  /** The bytes a field takes in the struct. */
  function FieldSize(f: Field): nat {
    if f.htype.Repeated? then f.dataSize * f.arraySize else f.dataSize
  }

  /** The offset of field i in the struct: union members lie on top of each other. */
  function DataOffset(fs: seq<Field>, i: nat): nat
    requires i < |fs|
  {
    if i == 0 then fs[0].dataOffset
    else if Shares(fs[i - 1], fs[i]) then DataOffset(fs, i - 1)
    else DataOffset(fs, i - 1) + FieldSize(fs[i - 1]) + fs[i].dataOffset
  }

  /** The offset of the companion (has_, _count or which_) of field i. */
  function CompanionOffset(fs: seq<Field>, i: nat): int
    requires i < |fs|
  {
    if i > 0 && Shares(fs[i - 1], fs[i]) then CompanionOffset(fs, i - 1)
    else DataOffset(fs, i) + fs[i].sizeOffset
  }

  /** pb_field_iter_t: `pos == |fields|` stands for the terminator, where only the cursor of
      a message without fields ever is. */
  class FieldIter {
    const fields: seq<Field>
    var pos: nat
    var pData: nat
    var pSize: int
    var requiredIndex: nat

    ghost predicate Valid()
      reads this
    {
      if fields == [] then pos == 0 && requiredIndex == 0 else pos < |fields| && At(pos)
    }

    /** The cursor is where a linear walk from the start would be at field i. */
    ghost predicate At(i: nat)
      requires i < |fields|
      reads this
    {
      && pos == i
      && pData == DataOffset(fields, i)
      && pSize == CompanionOffset(fields, i)
      && requiredIndex == ReqIndex(fields, i)
    }

    constructor (fields: seq<Field>)
      ensures Valid() && this.fields == fields && pos == 0
    {
      this.fields := fields;
      pos, requiredIndex := 0, 0;
      pData := if fields == [] then 0 else fields[0].dataOffset;
      pSize := if fields == [] then 0 else fields[0].dataOffset + fields[0].sizeOffset;
    }

    /** Steps to the next field; false on wrapping to the start. */
    method Next() returns (more: bool)
      requires Valid()
      modifies this
      ensures Valid()
      ensures more == (old(pos) + 1 < |fields|)
      ensures pos == if more then old(pos) + 1 else 0
    {
      if pos == |fields| {
        return false;
      }
      var prev := fields[pos];
      pos := pos + 1;
      if pos == |fields| {
        pos, requiredIndex := 0, 0;
        pData := fields[0].dataOffset;
        pSize := pData + fields[0].sizeOffset;
        return false;
      }
      if Shares(prev, fields[pos]) {
        return true;
      }
      if prev.htype.Required? {
        requiredIndex := requiredIndex + 1;
      }
      pData := pData + FieldSize(prev) + fields[pos].dataOffset;
      pSize := pData + fields[pos].sizeOffset;
      return true;
    }

    predicate TagHere(tag: nat)
      requires pos <= |fields|
      reads this
    {
      tag == if pos == |fields| then 0 else fields[pos].tag
    }

    /** Searches once round from wherever the cursor is. It finds a field exactly when a
        linear search does, the same one if tags are distinct, and is then positioned as
        after a linear walk; otherwise it comes back to where it was. */
    method Find(tag: nat) returns (found: bool)
      requires Valid()
      modifies this
      ensures Valid()
      ensures fields == [] ==> (found <==> tag == 0)
      ensures fields != [] ==> (found <==> exists i :: 0 <= i < |fields| && fields[i].tag == tag)
      ensures fields != [] && found ==> fields[pos].tag == tag && At(pos)
      ensures fields != [] && WfSchema(fields) ==>
                FindField(fields, tag, 0) == if found then Some(pos) else None
      ensures !found ==> pos == old(pos)
    {
      var start := pos;
      if TagHere(tag) {
        FindHere(tag);
        return true;
      }
      var _ := Next();
      while pos != start
        invariant Valid()
        invariant forall i :: 0 <= i < |fields| && Visited(start, pos, i) ==> fields[i].tag != tag
        decreases if pos > start then |fields| - pos + start else start - pos
      {
        if TagHere(tag) {
          FindHere(tag);
          return true;
        }
        var _ := Next();
      }
      return false;
    }

    /** Going round from start, i was passed before reaching p (all of them if p == start). */
    ghost predicate Visited(start: nat, p: nat, i: nat) {
      if p > start then start <= i < p else start <= i || i < p
    }

    lemma FindHere(tag: nat)
      requires Valid() && TagHere(tag)
      ensures fields != [] && WfSchema(fields) ==> FindField(fields, tag, 0) == Some(pos)
    {
      if fields != [] && WfSchema(fields) {
        FindFieldAt(fields, pos, 0);
      }
    }
  }

  // ---------------------------------------------------------------- required fields

  type uint32 = x: int | 0 <= x < 0x1_0000_0000

  const ALL_BITS: uint32 := 0xFFFF_FFFF

  /** The two words of the mask hold the members of `seen` below 64. */
  ghost predicate Holds(words: seq<uint32>, seen: set<nat>) {
    |words| == 2 && forall k: nat :: k < PB_MAX_REQUIRED_FIELDS ==> (Bit(words[k / 32], k % 32) <==> k in seen)
  }

  lemma {:induction false} SetBit(w: uint32, j: nat)
    requires j < 32
    ensures Or(w, Pow2(j)) < 0x1_0000_0000
    ensures forall k: nat :: Bit(Or(w, Pow2(j)), k) <==> Bit(w, k) || k == j
  {
    hide Bit, Or, Pow2;
    Pow2Values();
    Pow2Monotone(j, 31);
    OrBound(w, Pow2(j), 32);
    forall k: nat
      ensures Bit(Or(w, Pow2(j)), k) <==> Bit(w, k) || k == j
    {
      OrBit(w, Pow2(j), k);
      PowBit(j, k);
    }
  }

  /** Sets the bit of a required field, if it is one of those tracked. */
  method MarkSeen(words: array<uint32>, index: nat, ghost seen: set<nat>)
    requires Holds(words[..], seen)
    modifies words
    ensures Holds(words[..], seen + {index})
  {
    if index < PB_MAX_REQUIRED_FIELDS {
      SetBit(words[index / 32], index % 32);
      words[index / 32] := Or(words[index / 32], Pow2(index % 32));
    }
  }

  /** A word with its top 32 - n bits shifted out. */
  lemma {:induction false} LowBits(n: nat)
    requires 0 < n <= 32
    ensures ALL_BITS / Pow2(32 - n) == Pow2(n) - 1 <= ALL_BITS
  {
    hide Pow2;
    Pow2Values();
    Pow2Sum(n, 32 - n);
    Pow2Monotone(n, 32);
    var p, q := Pow2(32 - n), Pow2(n);
    assert (q - 1) * p == q * p - p;
    RemainderUnique(q - 1, p, p - 1);
  }

  /** A word of the mask is full up to n bits exactly if all of those were seen. */
  lemma {:induction false} WordFull(words: seq<uint32>, seen: set<nat>, i: nat, n: nat)
    requires Holds(words, seen) && i < 2 && 0 < n <= 32
    requires n < 32 ==> forall k :: k in seen ==> k < 32 * i + n
    ensures words[i] == ALL_BITS / Pow2(32 - n) <==> forall k :: 32 * i <= k < 32 * i + n ==> k in seen
  {
    hide Bit, Pow2;
    LowBits(n);
    Pow2Values();
    var w, full := words[i], Pow2(n) - 1;
    forall k: nat | k < 32
      ensures Bit(full, k) <==> k < n
      ensures Bit(w, k) <==> 32 * i + k in seen
    {
      MaskBit(n, k);
      assert (32 * i + k) / 32 == i && (32 * i + k) % 32 == k;
    }
    if forall k :: 32 * i <= k < 32 * i + n ==> k in seen {
      SameBits(w, full, 32);
    }
    if w == full {
      forall k | 32 * i <= k < 32 * i + n
        ensures k in seen
      {
        assert Bit(full, k - 32 * i);
      }
    }
  }

  // ---------------------------------------------------------------- counting required fields

  lemma {:induction false} ReqIndexMonotone(fs: seq<Field>, i: nat, j: nat)
    requires i <= j <= |fs|
    ensures ReqIndex(fs, i) <= ReqIndex(fs, j)
    decreases j
  {
    if i < j {
      ReqIndexMonotone(fs, i, j - 1);
    }
  }

  lemma {:induction false} ReqIndexOnto(fs: seq<Field>, n: nat, k: nat) returns (i: nat)
    requires n <= |fs| && k < ReqIndex(fs, n)
    ensures i < n && fs[i].htype.Required? && ReqIndex(fs, i) == k
  {
    if fs[n - 1].htype.Required? && ReqIndex(fs, n - 1) == k {
      i := n - 1;
    } else {
      i := ReqIndexOnto(fs, n - 1, k);
    }
  }

  /** The required fields are met exactly if all indices up to the cap were seen. */
  lemma MetByIndices(fs: seq<Field>, seen: set<nat>)
    ensures RequiredMet(fs, seen) <==>
            forall k: nat :: k < ReqIndex(fs, |fs|) && k < PB_MAX_REQUIRED_FIELDS ==> k in seen
  {
    forall k: nat | RequiredMet(fs, seen) && k < ReqIndex(fs, |fs|) && k < PB_MAX_REQUIRED_FIELDS
      ensures k in seen
    {
      var i := ReqIndexOnto(fs, |fs|, k);
    }
    forall i | 0 <= i < |fs| && fs[i].htype.Required?
      ensures ReqIndex(fs, i) < ReqIndex(fs, |fs|)
    {
      ReqIndexMonotone(fs, i + 1, |fs|);
    }
  }

  /** The final test: accepts exactly if each of the first 64 required fields was seen. */
  method CheckRequired(words: array<uint32>, iter: FieldIter, ghost seen: set<nat>) returns (ok: bool)
    requires iter.Valid() && Holds(words[..], seen)
    requires forall k :: k in seen ==> k < ReqIndex(iter.fields, |iter.fields|)
    modifies iter
    ensures ok <==> RequiredMet(iter.fields, seen)
  {
    // Seek to the end of the descriptor array.
    var fields := iter.fields;
    var count, lastRequired := iter.requiredIndex, iter.pos == |fields| || fields[iter.pos].htype.Required?;
    ghost var last := iter.pos;
    var more := iter.Next();
    while more
      invariant iter.Valid() && iter.fields == fields
      invariant more ==> iter.pos == last + 1
      invariant !more && fields != [] ==> last == |fields| - 1 && iter.pos == 0
      invariant fields == [] ==> !more && count == 0
      invariant fields != [] ==> last < |fields| && count == ReqIndex(fields, last)
      invariant fields != [] ==> lastRequired == fields[last].htype.Required?
      decreases |fields| - last, more
    {
      count, lastRequired := iter.requiredIndex, fields[iter.pos].htype.Required?;
      last := iter.pos;
      more := iter.Next();
    }
    if lastRequired && iter.pos != |fields| {
      count := count + 1;
    }
    assert count == ReqIndex(fields, |fields|);
    MetByIndices(fields, seen);
    if count > PB_MAX_REQUIRED_FIELDS {
      count := PB_MAX_REQUIRED_FIELDS;
    }
    var i := 0;
    while i < count / 32
      invariant i <= count / 32
      invariant forall k: nat :: k < 32 * i ==> k in seen
    {
      WordFull(words[..], seen, i, 32);
      assert ALL_BITS / Pow2(0) == ALL_BITS;
      if words[i] != ALL_BITS {
        return false;
      }
      i := i + 1;
    }
    if count % 32 != 0 {
      WordFull(words[..], seen, i, count % 32);
      if words[count / 32] != ALL_BITS / Pow2(32 - count % 32) {
        return false;
      }
    }
    return true;
  }
}
