/** Branch-free comparisons and selection on 64-bit words, and the removal of RSA padding built
    on them (RFC 3447, section 7.2.2; RFC 5246, section 7.4.7.1). */
module ConstantTime {
  import opened Wrappers

  type Word = bv64

  const TRUE_W: Word := 0xFFFF_FFFF_FFFF_FFFF
  const FALSE_W: Word := 0

  function MsbW(a: Word): Word {
    0 - (a >> 63)
  }

  function LtW(a: Word, b: Word): Word {
    MsbW(a ^ ((a ^ b) | ((a - b) ^ a)))
  }

  function GeW(a: Word, b: Word): Word {
    !LtW(a, b)
  }

  function IsZeroW(a: Word): Word {
    MsbW(!a & (a - 1))
  }

  function EqW(a: Word, b: Word): Word {
    IsZeroW(a ^ b)
  }

  function SelectW(mask: Word, a: Word, b: Word): Word {
    (mask & a) | (!mask & b)
  }

  /** The low eight bits of a word. */
  function Low8(w: Word): bv8 {
    (w & 0xFF) as bv8
  }

  function IsZero8(a: bv8): bv8 {
    Low8(IsZeroW(a as Word))
  }

  function Eq8(a: bv8, b: bv8): bv8 {
    Low8(EqW(a as Word, b as Word))
  }

  function Select8(mask: bv8, a: bv8, b: bv8): bv8 {
    Low8(SelectW(mask as Word, a as Word, b as Word))
  }

  function Mask(c: bool): Word {
    if c then TRUE_W else FALSE_W
  }

  function Mask8(c: bool): bv8 {
    if c then 0xFF else 0
  }

  /** On all words: the masks are all ones exactly when the comparison holds, else zero. */
  lemma {:induction false} ComparisonsExact(a: Word, b: Word)
    ensures LtW(a, b) == Mask(Less(a, b)) && GeW(a, b) == Mask(!Less(a, b))
    ensures IsZeroW(a) == Mask(a == 0) && EqW(a, b) == Mask(a == b)
  {
    hide LtW, GeW, IsZeroW, EqW, Less;
    LtExact(a, b);
    GeExact(a, b);
    IsZeroExact(a);
    EqExact(a, b);
  }

  lemma {:induction false} LtExact(a: Word, b: Word)
    ensures LtW(a, b) == Mask(Less(a, b))
  {
    hide Less, Top, Minus, Formula, MsbW, LtW;
    LtUnfolds(a, b);
    MsbExact(Formula(a, b, Minus(a, b)));
    TopOfFormula(a, b, Minus(a, b));
    if Top(a) != Top(b) {
      CompareOtherTop(a, b);
    } else if Less(a, b) {
      LessIsStrict(a, b);
      SubtractNotLess(b, a);
      SubtractSwapped(a, b);
      NegateTopClear(Minus(b, a));
    } else {
      SubtractNotLess(a, b);
    }
  }

  predicate Less(a: Word, b: Word) {
    a < b
  }

  predicate Top(a: Word) {
    a >> 63 == 1
  }

  function Minus(a: Word, b: Word): Word {
    a - b
  }

  function Formula(a: Word, b: Word, d: Word): Word {
    a ^ ((a ^ b) | (d ^ a))
  }

  lemma LtUnfolds(a: Word, b: Word)
    ensures LtW(a, b) == MsbW(Formula(a, b, Minus(a, b)))
  {
  }

  lemma MsbExact(a: Word)
    ensures MsbW(a) == Mask(Top(a))
  {
  }

  /** The formula's top bit, from the top bits of its parts. */
  lemma TopOfFormula(a: Word, b: Word, d: Word)
    ensures Top(Formula(a, b, d)) == if Top(a) == Top(b) then Top(d) else Top(b)
  {
  }

  lemma CompareOtherTop(a: Word, b: Word)
    requires Top(a) != Top(b)
    ensures Less(a, b) == Top(b)
  {
  }

  lemma SubtractNotLess(a: Word, b: Word)
    requires Top(a) == Top(b) && !Less(a, b)
    ensures !Top(Minus(a, b))
  {
  }

  lemma SubtractSwapped(a: Word, b: Word)
    ensures Minus(a, b) == Minus(0, Minus(b, a)) && (Minus(b, a) == 0 ==> a == b)
  {
  }

  lemma NegateTopClear(d: Word)
    requires d != 0 && !Top(d)
    ensures Top(Minus(0, d))
  {
  }

  lemma LessIsStrict(a: Word, b: Word)
    requires Less(a, b)
    ensures a != b && !Less(b, a)
  {
  }

  lemma {:induction false} GeExact(a: Word, b: Word)
    requires LtW(a, b) == Mask(Less(a, b))
    ensures GeW(a, b) == Mask(!Less(a, b))
  {
    hide LtW, Less;
  }

  lemma IsZeroExact(a: Word)
    ensures IsZeroW(a) == Mask(a == 0)
  {
    assert (!a & (a - 1)) >> 63 == if a == 0 then 1 else 0;
  }

  lemma {:induction false} EqExact(a: Word, b: Word)
    ensures EqW(a, b) == Mask(a == b)
  {
    hide IsZeroW;
    IsZeroExact(a ^ b);
    assert a ^ b == 0 <==> a == b;
  }

  lemma {:induction false} SelectExact(c: bool, a: Word, b: Word)
    ensures SelectW(Mask(c), a, b) == if c then a else b
  {
    MaskKeeps(a);
    MaskKeeps(b);
    OrNothing(if c then a else b);
  }

  lemma MaskKeeps(a: Word)
    ensures TRUE_W & a == a && FALSE_W & a == 0
    ensures !TRUE_W == FALSE_W && !FALSE_W == TRUE_W
  {
  }

  lemma OrNothing(a: Word)
    ensures a | 0 == a && 0 | a == a
  {
  }

  lemma {:induction false} BytesExact(a: bv8, b: bv8)
    ensures IsZero8(a) == Mask8(a == 0) && Eq8(a, b) == Mask8(a == b)
  {
    hide IsZeroW, EqW;
    IsZeroExact(a as Word);
    EqExact(a as Word, b as Word);
    assert a as Word == 0 <==> a == 0;
    assert a as Word == b as Word <==> a == b;
  }

  lemma SelectByteExact(c: bool, a: bv8, b: bv8)
    ensures Select8(Mask8(c), a, b) == if c then a else b
  {
  }

  lemma And8(c: bool, d: bool)
    ensures Mask8(c) & Mask8(d) == Mask8(c && d) && Mask8(c) & !Mask8(d) == Mask8(c && !d)
  {
  }

  // ---------------------------------------------------------------- RSA premaster

  const PREMASTER_LEN: nat := 48

  /** The index of the first zero from i on, or the length. */
  function FirstZero(s: seq<bv8>, i: nat): (k: nat)
    requires i <= |s|
    ensures i <= k <= |s| && (k < |s| ==> s[k] == 0) && forall j :: i <= j < k ==> s[j] != 0
    decreases |s| - i
  {
    if i == |s| || s[i] == 0 then i else FirstZero(s, i + 1)
  }

  /** Removing PKCS #1 v1.5 padding as RFC 3447 has it: 00 02, at least eight nonzero bytes, 00,
      then the message. */
  function Unpadded(em: seq<bv8>): Option<seq<bv8>> {
    if |em| < 11 || em[0] != 0 || em[1] != 2 then None
    else
      var k := FirstZero(em, 2);
      if k == |em| || k < 10 then None else Some(em[k + 1..])
  }

  /** The message is a premaster for the client's version. */
  predicate IsPremaster(m: seq<bv8>, hi: bv8, lo: bv8) {
    |m| == PREMASTER_LEN && m[0] == hi && m[1] == lo
  }

  /** What the branch-free check tests, position by position. */
  predicate GoodBlock(em: seq<bv8>, hi: bv8, lo: bv8)
    requires |em| >= 11 + PREMASTER_LEN
  {
    var p := |em| - PREMASTER_LEN;
    && em[0] == 0 && em[1] == 2 && (forall i :: 2 <= i < p - 1 ==> em[i] != 0) && em[p - 1] == 0
    && em[p] == hi && em[p + 1] == lo
  }

  lemma GoodBlockIsPadding(em: seq<bv8>, hi: bv8, lo: bv8)
    requires |em| >= 11 + PREMASTER_LEN
    ensures GoodBlock(em, hi, lo) <==> Unpadded(em).Some? && IsPremaster(Unpadded(em).value, hi, lo)
    ensures GoodBlock(em, hi, lo) ==> Unpadded(em) == Some(em[|em| - PREMASTER_LEN..])
  {
    var p := |em| - PREMASTER_LEN;
    var k := FirstZero(em, 2);
    if GoodBlock(em, hi, lo) {
      assert k == p - 1;
    }
    if Unpadded(em).Some? && IsPremaster(Unpadded(em).value, hi, lo) {
      assert k + 1 == p;
      assert em[k + 1..][0] == em[p] && em[k + 1..][1] == em[p + 1];
    }
  }

  /** The unpadding in do_read_client_key_exchange. On entry `premaster` is random; on success it
      is the decrypted message if that is properly padded and begins with the client's version,
      and otherwise still wholly the random value. */
  method UnpadPremaster(decrypted: seq<bv8>, premaster: array<bv8>, hi: bv8, lo: bv8) returns (ok: bool)
    requires premaster.Length == PREMASTER_LEN
    modifies premaster
    ensures ok <==> |decrypted| >= 11 + PREMASTER_LEN
    ensures ok ==>
              premaster[..] ==
              match Unpadded(decrypted)
              case None => old(premaster[..])
              case Some(m) => if IsPremaster(m, hi, lo) then m else old(premaster[..])
    ensures !ok ==> premaster[..] == old(premaster[..])
  {
    hide Eq8, IsZero8, Select8;
    if |decrypted| < 11 + premaster.Length {
      return false;
    }
    var paddingLen := |decrypted| - premaster.Length;
    var good := PaddingMask(decrypted, hi, lo);
    ghost var isGood := GoodBlock(decrypted, hi, lo);
    for i := 0 to premaster.Length
      invariant forall j :: 0 <= j < i ==>
                  premaster[j] == if isGood then decrypted[paddingLen + j] else old(premaster[j])
      invariant forall j :: i <= j < premaster.Length ==> premaster[j] == old(premaster[j])
    {
      SelectByteExact(isGood, decrypted[paddingLen + i], premaster[i]);
      premaster[i] := Select8(good, decrypted[paddingLen + i], premaster[i]);
    }
    GoodBlockIsPadding(decrypted, hi, lo);
    assert premaster[..] == if isGood then decrypted[paddingLen..] else old(premaster[..]);
    return true;
  }

  /** The padding check: a mask, computed without branching on the contents. */
  method PaddingMask(em: seq<bv8>, hi: bv8, lo: bv8) returns (good: bv8)
    requires |em| >= 11 + PREMASTER_LEN
    ensures good == Mask8(GoodBlock(em, hi, lo))
  {
    hide Eq8, IsZero8;
    var paddingLen := |em| - PREMASTER_LEN;
    BytesExact(em[0], 0);
    BytesExact(em[1], 2);
    ghost var c := em[0] == 0 && em[1] == 2;
    And8(em[0] == 0, em[1] == 2);
    good := Eq8(em[0], 0) & Eq8(em[1], 2);
    var i := 2;
    while i < paddingLen - 1
      invariant 2 <= i <= paddingLen - 1
      invariant good == Mask8(c)
      invariant c <==> em[0] == 0 && em[1] == 2 && forall j :: 2 <= j < i ==> em[j] != 0
    {
      BytesExact(em[i], 0);
      And8(c, em[i] == 0);
      good := good & !IsZero8(em[i]);
      c := c && em[i] != 0;
      i := i + 1;
    }
    BytesExact(em[paddingLen - 1], 0);
    And8(c, em[paddingLen - 1] == 0);
    good := good & IsZero8(em[paddingLen - 1]);
    c := c && em[paddingLen - 1] == 0;
    BytesExact(em[paddingLen], hi);
    And8(c, em[paddingLen] == hi);
    good := good & Eq8(em[paddingLen], hi);
    c := c && em[paddingLen] == hi;
    BytesExact(em[paddingLen + 1], lo);
    And8(c, em[paddingLen + 1] == lo);
    good := good & Eq8(em[paddingLen + 1], lo);
  }
}
