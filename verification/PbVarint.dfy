/** Base 128 varints as nanopb reads and writes them: the byte sequence of a value,
    the 64-bit reader, the 32-bit reader with its sign-extension rule, and zigzag. */
module PbVarint {
  import opened Bits

  /** The outcome of reading a value from the front of a byte sequence. */
  datatype Parsed<+T> = Ok(value: T, rest: seq<byte>) | Err

  // ---------------------------------------------------------------- writing

  /** The groups of seven bits of v, least significant first, all but the last flagged. */
  function EncVarint(v: nat): (s: seq<byte>)
    ensures s != []
  {
    if v < 128 then [v] else [128 + v % 128] + EncVarint(v / 128)
  }

  // ---------------------------------------------------------------- reading

  /** Reads at most k groups and returns the full, untruncated value. */
  function ReadGroups(s: seq<byte>, k: nat): (p: Parsed<nat>)
    ensures p.Ok? ==> |p.rest| < |s|
  {
    if k == 0 || s == [] then Err
    else if s[0] < 128 then Ok(s[0], s[1..])
    else match ReadGroups(s[1..], k - 1)
      case Err => Err
      case Ok(v, rest) => Ok(s[0] - 128 + 128 * v, rest)
  }

  /** The 64-bit reader: at most ten groups, bits past 64 dropped. */
  function DecVarint64(s: seq<byte>): (p: Parsed<nat>)
    ensures p.Ok? ==> p.value < 0x1_0000_0000_0000_0000
    ensures p.Ok? ==> |p.rest| < |s|
  {
    match ReadGroups(s, 10)
    case Err => Err
    case Ok(v, rest) => Ok(v % 0x1_0000_0000_0000_0000, rest)
  }

  /** x << n on 32 bits, for the shift amounts the reader uses. */
  function Shl32(x: nat, n: nat): (r: nat)
    requires n < 32
    ensures r < 0x1_0000_0000
  {
    x * Pow2(n) % 0x1_0000_0000
  }

  /** x | y on 32 bits. The reader may OR into occupied positions once its 8-bit position
      counter has wrapped, so this is not an addition. */
  function Or32(x: nat, y: nat): (r: nat)
    requires x < 0x1_0000_0000 && y < 0x1_0000_0000
    ensures r < 0x1_0000_0000
  {
    Pow2Values();
    OrBound(x, y, 32);
    Or(x, y)
  }

  /** The continuation bytes of the 32-bit reader. `bitpos` is an 8-bit counter: it is
      kept modulo 256. `more` says the previous byte was flagged. */
  function Dec32Tail(s: seq<byte>, bitpos: nat, result: nat): (p: Parsed<nat>)
    requires bitpos < 256 && result < 0x1_0000_0000
    ensures p.Ok? ==> p.value < 0x1_0000_0000
    ensures p.Ok? ==> |p.rest| < |s|
  {
    if s == [] then Err
    else
      var b := s[0];
      var sign := if bitpos < 63 then 0xFF else 0x01;
      if bitpos >= 32 && b % 128 != 0 && (result / 0x8000_0000 == 0 || b != sign) then Err
      else
        var next := if bitpos >= 32 then result else Or32(result, Shl32(b % 128, bitpos));
        var nextpos := (bitpos + 7) % 256;
        if b >= 128 then Dec32Tail(s[1..], nextpos, next)
        else if nextpos == 35 && b / 16 % 8 != 0 then Err
        else Ok(next, s[1..])
  }

  /** The 32-bit reader. */
  function DecVarint32(s: seq<byte>): (p: Parsed<nat>)
    ensures p.Ok? ==> p.value < 0x1_0000_0000
    ensures p.Ok? ==> |p.rest| < |s|
  {
    if s == [] then Err
    else if s[0] < 128 then Ok(s[0], s[1..])
    else Dec32Tail(s[1..], 7, s[0] - 128)
  }

  // ---------------------------------------------------------------- arithmetic of the shifts

  lemma Pow2Step(n: nat)
    ensures Pow2(n + 7) == 128 * Pow2(n)
  {
    Pow2Sum(n, 7);
    assert Pow2(7) == 128;
  }

  /** The digit and the remaining groups of a value, scaled by p. */
  lemma Split128(x: nat, p: nat)
    ensures x == 128 * (x / 128) + x % 128
    ensures x * p == (x / 128) * (128 * p) + (x % 128) * p
    ensures x < 128 * p ==> x / 128 < p
  {
    var q, d := x / 128, x % 128;
    assert x == 128 * q + d;
    assert x * p == (128 * q + d) * p == q * (128 * p) + d * p;
  }

  // ---------------------------------------------------------------- round trips

  lemma {:induction false} ReadGroupsOfEncoding(v: nat, k: nat, rest: seq<byte>)
    requires v < Pow2(7 * k) && k > 0
    ensures ReadGroups(EncVarint(v) + rest, k) == Ok(v, rest)
  {
    var s := EncVarint(v) + rest;
    if v < 128 {
      assert s[1..] == rest;
    } else {
      Pow2Step(7 * (k - 1));
      Split128(v, Pow2(7 * (k - 1)));
      assert s[1..] == EncVarint(v / 128) + rest;
      ReadGroupsOfEncoding(v / 128, k - 1, rest);
    }
  }

  lemma {:induction false} EncodingLength(v: nat, k: nat)
    requires v < Pow2(7 * k) && k > 0
    ensures |EncVarint(v)| <= k
  {
    if v >= 128 {
      Pow2Step(7 * (k - 1));
      Split128(v, Pow2(7 * (k - 1)));
      EncodingLength(v / 128, k - 1);
    }
  }

  lemma {:induction false} SeventyBits()
    ensures Pow2(70) >= 0x1_0000_0000_0000_0000
  {
    hide Pow2;
    Pow2Values();
    Pow2Monotone(64, 70);
  }

  /** Every 64-bit value takes at most ten bytes and is read back, whatever follows it. */
  lemma {:induction false} Varint64RoundTrip(v: nat, rest: seq<byte>)
    requires v < 0x1_0000_0000_0000_0000
    ensures |EncVarint(v)| <= 10
    ensures DecVarint64(EncVarint(v) + rest) == Ok(v, rest)
  {
    hide Pow2, EncVarint, ReadGroups;
    SeventyBits();
    ReadGroupsOfEncoding(v, 10, rest);
    EncodingLength(v, 10);
  }

  /** The bit positions of the second to fifth byte, and how many more bytes may follow. */
  predicate Place(n: nat, p: nat, j: nat) {
    || (n == 7 && p == 0x80 && j == 9)
    || (n == 14 && p == 0x4000 && j == 8)
    || (n == 21 && p == 0x20_0000 && j == 7)
    || (n == 28 && p == 0x1000_0000 && j == 6)
  }

  lemma PlaceIsPower(n: nat, p: nat, j: nat)
    requires Place(n, p, j)
    ensures Pow2(n) == p
  {
    Pow2Values();
  }

  lemma DigitFits(d: nat, p: nat)
    requires d < 128 && p > 0 && (p <= 0x20_0000 || (p == 0x1000_0000 && d < 16))
    ensures d * p + p <= 0x1_0000_0000 && d * p + p <= 128 * p
  {
    if d < 16 {
      assert (d + 1) * p <= 16 * p;
    } else {
      assert (d + 1) * p <= 128 * p;
    }
  }

  /** A digit below the top of the word is added at its place. */
  lemma {:induction false} OrAt(r: nat, d: nat, n: nat, p: nat)
    requires n < 32 && p == Pow2(n) && r < p && d * p + p <= 0x1_0000_0000
    ensures r < 0x1_0000_0000 && Shl32(d, n) == d * p && Or32(r, Shl32(d, n)) == r + d * p
  {
    hide Or;
    var x := d * p;
    assert Shl32(d, n) == x % 0x1_0000_0000;
    OrDisjoint(r, d, n);
  }

  /** One byte of the 32-bit reader within the word, given the word it leaves. */
  lemma {:induction false} TailInWord(s: seq<byte>, n: nat, r: nat, next: nat)
    requires s != [] && n <= 28 && r < 0x1_0000_0000 && next == Or32(r, Shl32(s[0] % 128, n))
    requires n == 28 ==> s[0] % 128 < 16
    ensures Dec32Tail(s, n, r) == if s[0] >= 128 then Dec32Tail(s[1..], n + 7, next) else Ok(next, s[1..])
  {
    hide Or, Or32, Shl32, Pow2;
    assert n == 28 && s[0] < 128 ==> s[0] / 16 == 0;
  }

  /** One step of the 32-bit reader within the word. */
  lemma {:induction false} DigitStep(s: seq<byte>, n: nat, p: nat, j: nat, r: nat)
    requires s != [] && Place(n, p, j) && r < p && (n == 28 ==> s[0] % 128 < 16)
    ensures var next := r + (s[0] % 128) * p;
            && r < 0x1_0000_0000 && next < 128 * p && next < 0x1_0000_0000
            && Dec32Tail(s, n, r) ==
               if s[0] >= 128 then Dec32Tail(s[1..], n + 7, next) else Ok(next, s[1..])
  {
    hide Or, Or32, Shl32, Pow2, Dec32Tail;
    var d: nat := s[0] % 128;
    PlaceIsPower(n, p, j);
    DigitFits(d, p);
    OrAt(r, d, n, p);
    TailInWord(s, n, r, r + d * p);
  }

  lemma {:induction false} TailOfEncoding(x: nat, n: nat, p: nat, j: nat, r: nat, rest: seq<byte>)
    requires Place(n, p, j) && r < p && r + x * p < 0x1_0000_0000
    ensures r < 0x1_0000_0000
    ensures Dec32Tail(EncVarint(x) + rest, n, r) == Ok(r + x * p, rest)
    decreases j
  {
    hide Or, Or32, Shl32, Pow2;
    var s := EncVarint(x) + rest;
    assert s[0] % 128 == x % 128;
    assert s[1..] == if x < 128 then rest else EncVarint(x / 128) + rest;
    assert n == 28 ==> x < 16;
    DigitStep(s, n, p, j, r);
    if x >= 128 {
      Split128(x, p);
      TailOfEncoding(x / 128, n + 7, 128 * p, j - 1, r + (x % 128) * p, rest);
    }
  }

  /** The 32-bit reader inverts the writer on every 32-bit value. */
  lemma Varint32RoundTrip(v: nat, rest: seq<byte>)
    requires v < 0x1_0000_0000
    ensures DecVarint32(EncVarint(v) + rest) == Ok(v, rest)
  {
    var s := EncVarint(v) + rest;
    if v < 128 {
      assert s[1..] == rest;
    } else {
      assert s[1..] == EncVarint(v / 128) + rest;
      TailOfEncoding(v / 128, 7, 128, 9, v % 128, rest);
    }
  }

  // ---------------------------------------------------------------- the two readers agree

  /** The number of bytes up to and including the first unflagged one. */
  function VarintLength(s: seq<byte>): (n: nat)
    ensures 1 <= n <= |s| + 1
  {
    if s == [] then 1 else if s[0] < 128 then 1 else 1 + VarintLength(s[1..])
  }

  lemma {:induction false} GroupsLength(s: seq<byte>, k: nat)
    ensures ReadGroups(s, k).Ok? <==> VarintLength(s) <= k && VarintLength(s) <= |s|
    ensures ReadGroups(s, k).Ok? ==> ReadGroups(s, k).rest == s[VarintLength(s)..]
  {
    if k > 0 && s != [] && s[0] >= 128 {
      GroupsLength(s[1..], k - 1);
    }
  }

  lemma {:induction false} TailLength(s: seq<byte>, bitpos: nat, r: nat)
    requires bitpos < 256 && r < 0x1_0000_0000
    requires Dec32Tail(s, bitpos, r).Ok?
    ensures VarintLength(s) <= |s| && Dec32Tail(s, bitpos, r).rest == s[VarintLength(s)..]
  {
    if s[0] >= 128 {
      var next := if bitpos >= 32 then r else Or32(r, Shl32(s[0] % 128, bitpos));
      TailLength(s[1..], (bitpos + 7) % 256, next);
    }
  }

  /** Past bit 32 the 32-bit reader only checks. */
  lemma {:induction false} TailAboveWord(s: seq<byte>, i: nat, r: nat)
    requires 5 <= i <= 10 && r < 0x1_0000_0000
    requires Dec32Tail(s, 7 * i, r).Ok? && VarintLength(s) <= 10 - i
    ensures Dec32Tail(s, 7 * i, r).value == r
  {
    if i < 10 && s[0] >= 128 {
      TailAboveWord(s[1..], i + 1, r);
    }
  }

  lemma ModMultiple(x: nat, k: nat)
    ensures (x + 0x1_0000_0000 * k) % 0x1_0000_0000 == x % 0x1_0000_0000
  {
  }

  /** At position 28 only four bits of the digit survive the shift. */
  lemma TopDigit(r: nat, d: nat)
    requires d < 128 && r < 0x1000_0000
    ensures Pow2(28) == 0x1000_0000 && Shl32(d, 28) == (d % 16) * 0x1000_0000
    ensures Or32(r, Shl32(d, 28)) == r + (d % 16) * 0x1000_0000 < 0x1_0000_0000
  {
    assert Pow2(28) == 0x1000_0000 by { Pow2Values(); }
    ModMultiple((d % 16) * 0x1000_0000, d / 16);
    OrDisjoint(r, d % 16, 28);
  }

  lemma TopSplit(d: nat, w: nat)
    ensures (d + 128 * w) * 0x1000_0000 == (d % 16) * 0x1000_0000 + 0x1_0000_0000 * (d / 16 + 8 * w)
  {
  }

  /** What the 32-bit reader drops is a multiple k of 2^32. */
  lemma {:induction false} TailAtTop(s: seq<byte>, r: nat) returns (k: nat)
    requires r < 0x1000_0000 && Dec32Tail(s, 28, r).Ok? && ReadGroups(s, 6).Ok?
    ensures r + ReadGroups(s, 6).value * 0x1000_0000 == Dec32Tail(s, 28, r).value + 0x1_0000_0000 * k
  {
    hide Or, Or32, Shl32, Pow2;
    var d: nat := s[0] % 128;
    TopDigit(r, d);
    if s[0] < 128 {
      assert d == s[0] && d / 16 == 0;
      k := 0;
    } else {
      var w, next: nat := ReadGroups(s[1..], 5).value, r + (d % 16) * 0x1000_0000;
      assert ReadGroups(s, 6).value == d + 128 * w;
      assert Dec32Tail(s, 28, r) == Dec32Tail(s[1..], 35, next);
      GroupsLength(s[1..], 5);
      TailAboveWord(s[1..], 5, next);
      TopSplit(d, w);
      k := d / 16 + 8 * w;
    }
  }

  lemma {:induction false} TailWithinWord(s: seq<byte>, n: nat, p: nat, j: nat, r: nat) returns (k: nat)
    requires Place(n, p, j) && r < p
    requires Dec32Tail(s, n, r).Ok? && ReadGroups(s, j).Ok?
    ensures r + ReadGroups(s, j).value * p == Dec32Tail(s, n, r).value + 0x1_0000_0000 * k
    decreases j
  {
    hide Or, Or32, Shl32, Pow2;
    if n == 28 {
      k := TailAtTop(s, r);
    } else {
      var d: nat := s[0] % 128;
      DigitStep(s, n, p, j, r);
      if s[0] < 128 {
        k := 0;
      } else {
        Regroup(r, d, ReadGroups(s[1..], j - 1).value, p);
        k := TailWithinWord(s[1..], n + 7, 128 * p, j - 1, r + d * p);
      }
    }
  }

  lemma Regroup(r: nat, d: nat, w: nat, p: nat)
    ensures r + (d + 128 * w) * p == r + d * p + w * (128 * p)
  {
  }

  lemma LowWord(v: nat, low: nat, k: nat)
    requires v == low + 0x1_0000_0000 * k && low < 0x1_0000_0000
    ensures v % 0x1_0000_0000_0000_0000 % 0x1_0000_0000 == low
  {
    ModMultiple(v % 0x1_0000_0000_0000_0000, 0x1_0000_0000 * (v / 0x1_0000_0000_0000_0000));
    ModMultiple(low, k);
  }

  /** Whenever the 32-bit reader succeeds, the 64-bit reader succeeds exactly if the first
      unflagged byte is among the first ten; then both read the same bytes and agree modulo 2^32. */
  lemma ReadersAgree(s: seq<byte>)
    requires DecVarint32(s).Ok?
    ensures DecVarint64(s).Ok? <==> VarintLength(s) <= 10
    ensures DecVarint64(s).Ok? ==>
              DecVarint32(s) == Ok(DecVarint64(s).value % 0x1_0000_0000, DecVarint64(s).rest)
  {
    GroupsLength(s, 10);
    if s[0] >= 128 {
      TailLength(s[1..], 7, s[0] - 128);
      if ReadGroups(s, 10).Ok? {
        var r, w, v := s[0] - 128, ReadGroups(s[1..], 9).value, Dec32Tail(s[1..], 7, s[0] - 128).value;
        var k := TailWithinWord(s[1..], 7, 128, 9, r);
        assert r + w * 128 == v + 0x1_0000_0000 * k;
        LowWord(r + 128 * w, v, k);
      }
    } else {
      LowWord(s[0], s[0], 0);
    }
  }

  /** The agreement stops at ten bytes: here the 32-bit reader accepts twelve. */
  lemma OverlongVarint()
    ensures var s: seq<byte> := [0x81, 0x80, 0x80, 0x80, 0x80, 0x80, 0x80, 0x80, 0x80, 0x80, 0x80, 0x00];
            DecVarint32(s) == Ok(1, []) && DecVarint64(s) == Err
  {
    var s: seq<byte> := [0x81, 0x80, 0x80, 0x80, 0x80, 0x80, 0x80, 0x80, 0x80, 0x80, 0x80, 0x00];
    assert s[1..] == [0x80, 0x80, 0x80, 0x80, 0x80, 0x80, 0x80, 0x80, 0x80, 0x80, 0x00];
    assert Pow2(7) == 128;
    OrZero(0); OrZero(1);
    GroupsLength(s, 10);
    ZeroPadding(s[1..], 7, 1);
  }

  /** The groups from number i on, read past bit 32: all ones or all zeros up to the ninth, and a
      one in bit 63. */
  predicate Extends(x: nat, i: nat)
    decreases 9 - i
  {
    if i >= 9 then x == 1 else x >= 128 && (x % 128 == 0 || x % 128 == 127) && Extends(x / 128, i + 1)
  }

  /** What is left of a 64-bit value from group i on is below this. */
  function Above(i: nat): nat {
    if i >= 9 then 2 else if i == 8 then 0x100 else if i == 7 then 0x8000 else if i == 6 then 0x40_0000 else 0x2000_0000
  }

  /** Past bit 32 the 32-bit reader takes what extends a word with its top bit set. */
  lemma {:induction false} TailExtends(x: nat, i: nat, r: nat, rest: seq<byte>)
    requires 5 <= i <= 9 && 1 <= x < Above(i) && r < 0x1_0000_0000
    ensures Dec32Tail(EncVarint(x) + rest, 7 * i, r).Ok? <==> r / 0x8000_0000 == 1 && Extends(x, i)
    decreases 9 - i
  {
    hide Or, Or32, Shl32, Pow2;
    var s := EncVarint(x) + rest;
    assert s[0] % 128 == x % 128 && (s[0] >= 128 <==> x >= 128);
    assert s[1..] == if x < 128 then rest else EncVarint(x / 128) + rest;
    if x >= 128 {
      TailExtends(x / 128, i + 1, r, rest);
    }
  }

  /** A 64-bit value whose encoding the 32-bit reader takes although it does not fit 32 bits. */
  predicate Lax(v: nat) {
    v >= 0x8_0000_0000 && v / 0x8000_0000 % 2 == 1 && Extends(v / 0x8_0000_0000, 5)
  }

  /** From position 28 on; bits 32 to 34 are not looked at if more bytes follow. */
  lemma {:induction false} TopAccepts(v: nat, x: nat, r: nat, rest: seq<byte>)
    requires r < 0x1000_0000 && v == r + x * 0x1000_0000 && 1 <= x && v < 0x1_0000_0000_0000_0000
    ensures Dec32Tail(EncVarint(x) + rest, 28, r).Ok? <==> v < 0x1_0000_0000 || Lax(v)
  {
    hide Or, Or32, Shl32, Pow2, Extends;
    var s := EncVarint(x) + rest;
    var d: nat := x % 128;
    assert s[0] % 128 == d && (s[0] >= 128 <==> x >= 128);
    TopDigit(r, d);
    if x >= 128 {
      var next := r + d % 16 * 0x1000_0000;
      assert s[1..] == EncVarint(x / 128) + rest;
      assert Dec32Tail(s, 28, r) == Dec32Tail(s[1..], 35, next);
      var q, a, t, b := Digits(x);
      TopBit(v, q, a, t, b, r);
      TailExtends(q, 5, next, rest);
    }
  }

  /** The digits of x that matter at position 28: bits 32 and up, 31, and 28 to 30. */
  lemma Digits(x: nat) returns (q: nat, a: nat, t: nat, b: nat)
    ensures a < 8 && t < 2 && b < 8 && x == 128 * q + 16 * a + 8 * t + b
    ensures x / 128 == q && x % 128 % 16 == 8 * t + b
  {
    var d: nat := x % 128;
    q := x / 128;
    a, t, b := SmallDigits(d);
  }

  lemma SmallDigits(d: nat) returns (a: nat, t: nat, b: nat)
    requires d < 128
    ensures a < 8 && t < 2 && b < 8 && d == 16 * a + 8 * t + b && d % 16 == 8 * t + b
  {
    var e: nat := d % 16;
    a, t, b := d / 16, if e < 8 then 0 else 1, if e < 8 then e else e - 8;
  }

  lemma TopBit(v: nat, q: nat, a: nat, t: nat, b: nat, r: nat)
    requires r < 0x1000_0000 && a < 8 && t < 2 && b < 8
    requires v == r + (128 * q + 16 * a + 8 * t + b) * 0x1000_0000
    ensures v / 0x8_0000_0000 == q && v / 0x8000_0000 % 2 == t
    ensures (r + (8 * t + b) * 0x1000_0000) / 0x8000_0000 == t
  {
    var w, u := 2 * (8 * q + a) + t, b * 0x1000_0000 + r;
    BitOf(w, u);
    BitOf(t, u);
    GroupsOf(q, (2 * a + t) * 0x8000_0000 + u);
    EvenPart(8 * q + a, t);
  }

  lemma EvenPart(k: nat, t: nat)
    requires t < 2
    ensures (2 * k + t) % 2 == t
  {
  }

  lemma GroupsOf(q: nat, u: nat)
    requires u < 0x8_0000_0000
    ensures (q * 0x8_0000_0000 + u) / 0x8_0000_0000 == q
  {
  }

  lemma BitOf(w: nat, u: nat)
    requires u < 0x8000_0000
    ensures (w * 0x8000_0000 + u) / 0x8000_0000 == w
  {
  }

  lemma {:induction false} TailAccepts(v: nat, x: nat, n: nat, p: nat, j: nat, r: nat, rest: seq<byte>)
    requires Place(n, p, j) && r < p && v == r + x * p && 1 <= x && v < 0x1_0000_0000_0000_0000
    ensures Dec32Tail(EncVarint(x) + rest, n, r).Ok? <==> v < 0x1_0000_0000 || Lax(v)
    decreases j
  {
    hide Or, Or32, Shl32, Pow2, Lax;
    if n == 28 {
      TopAccepts(v, x, r, rest);
    } else {
      var s := EncVarint(x) + rest;
      assert s[0] % 128 == x % 128;
      assert s[1..] == if x < 128 then rest else EncVarint(x / 128) + rest;
      DigitStep(s, n, p, j, r);
      Split128(x, p);
      if x >= 128 {
        TailAccepts(v, x / 128, n + 7, 128 * p, j - 1, r + (x % 128) * p, rest);
      }
    }
  }

  /** The 32-bit reader takes the encoding of a 64-bit value exactly if it fits 32 bits, or has bit
      63 and bit 31 set and each whole group between bits 35 and 62 all ones or all zeros. */
  lemma {:induction false} Varint32Accepts(v: nat, rest: seq<byte>)
    requires v < 0x1_0000_0000_0000_0000
    ensures DecVarint32(EncVarint(v) + rest).Ok? <==> v < 0x1_0000_0000 || Lax(v)
  {
    hide Dec32Tail, Lax;
    if v >= 128 {
      var s := EncVarint(v) + rest;
      assert s[1..] == EncVarint(v / 128) + rest;
      TailAccepts(v, v / 128, 7, 128, 9, v % 128, rest);
    }
  }

  lemma {:induction false} LaxNegative(v: nat)
    requires 0xFFFF_FFFF_8000_0000 <= v < 0x1_0000_0000_0000_0000
    ensures Lax(v) && v % 0x1_0000_0000 == v - 0xFFFF_FFFF_0000_0000
  {
    assert v / 0x8_0000_0000 == 0x1FFF_FFFF;
    assert Extends(0x3F_FFFF, 6) && Extends(0x7FFF, 7) && Extends(0xFF, 8) && Extends(1, 9);
  }

  /** Negative 32-bit values are taken sign-extended to 64 bits. */
  lemma {:induction false} SignExtended(n: int, rest: seq<byte>)
    requires -0x8000_0000 <= n < 0
    ensures DecVarint32(EncVarint(0x1_0000_0000_0000_0000 + n) + rest) == Ok(0x1_0000_0000 + n, rest)
  {
    hide DecVarint32, DecVarint64, EncVarint, Lax;
    var v := 0x1_0000_0000_0000_0000 + n;
    LaxNegative(v);
    Varint32Accepts(v, rest);
    Varint64RoundTrip(v, rest);
    ReadersAgree(EncVarint(v) + rest);
  }

  lemma Laxities()
    ensures Lax(0x8000_0000_8000_0000)
  {
    assert 0x8000_0000_8000_0000 / 0x8_0000_0000 == 0x1000_0000;
    assert Extends(0x20_0000, 6) && Extends(0x4000, 7) && Extends(0x80, 8) && Extends(1, 9);
  }

  /** More than that is taken: this value is neither a 32-bit one nor a sign-extended one. */
  lemma {:induction false} LaxVarint()
    ensures DecVarint32(EncVarint(0x8000_0000_8000_0000)) == Ok(0x8000_0000, [])
  {
    hide DecVarint32, DecVarint64, EncVarint, Lax;
    var s := EncVarint(0x8000_0000_8000_0000);
    assert s + [] == s;
    Laxities();
    Varint32Accepts(0x8000_0000_8000_0000, []);
    Varint64RoundTrip(0x8000_0000_8000_0000, []);
    ReadersAgree(s);
  }

  /** Flagged zero bytes and a final zero leave the 32-bit value alone. */
  lemma {:induction false} ZeroPadding(s: seq<byte>, bitpos: nat, r: nat)
    requires bitpos < 256 && r < 0x1_0000_0000 && s != []
    requires s[|s| - 1] == 0 && forall i :: 0 <= i < |s| - 1 ==> s[i] == 0x80
    ensures Dec32Tail(s, bitpos, r) == Ok(r, []) && VarintLength(s) == |s|
  {
    hide Or, Or32, Shl32, Pow2;
    assert s[0] % 128 == 0 && s[0] / 16 % 8 == s[0] / 128 * 8 % 8 == 0;
    if bitpos < 32 {
      OrNothing(r, bitpos);
    }
    if |s| > 1 {
      ZeroPadding(s[1..], (bitpos + 7) % 256, r);
    }
  }

  /** The position counter has eight bits: after 37 flagged bytes it is at 3, and the byte there is
      merged into the value again. */
  lemma {:induction false} PositionWraps()
    ensures DecVarint32(seq(37, _ => 0x80) + [0x01]) == Ok(8, [])
  {
    hide Or, Or32, Shl32, Pow2;
    var s: seq<byte> := seq(37, _ => 0x80) + [0x01];
    ManyZeros(s[1..], 7, 36);
    assert s[1..][36..] == [0x01];
    BitThree();
  }

  lemma {:induction false} BitThree()
    ensures Or32(0, Shl32(1, 3)) == 8
  {
    hide Or;
    assert Pow2(1) == 2 && Pow2(2) == 4 && Pow2(3) == 8;
    OrZero(8);
  }

  lemma {:induction false} ModTwice(a: nat, b: nat)
    ensures (a % 256 + b) % 256 == (a + b) % 256
  {}

  lemma {:induction false} ManyZeros(s: seq<byte>, bitpos: nat, k: nat)
    requires bitpos < 256 && k < |s| && forall i :: 0 <= i < k ==> s[i] == 0x80
    ensures Dec32Tail(s, bitpos, 0) == Dec32Tail(s[k..], (bitpos + 7 * k) % 256, 0)
  {
    hide Dec32Tail;
    if k > 0 {
      ZeroStep(s, bitpos);
      ManyZeros(s[1..], (bitpos + 7) % 256, k - 1);
      ModTwice(bitpos + 7, 7 * (k - 1));
      assert s[1..][k - 1..] == s[k..];
    } else {
      assert s[0..] == s;
    }
  }

  lemma {:induction false} ZeroStep(s: seq<byte>, bitpos: nat)
    requires bitpos < 256 && s != [] && s[0] == 0x80
    ensures Dec32Tail(s, bitpos, 0) == Dec32Tail(s[1..], (bitpos + 7) % 256, 0)
  {
    hide Or, Or32, Shl32, Pow2;
    if bitpos < 32 {
      OrNothing(0, bitpos);
    }
  }

  lemma {:induction false} OrNothing(r: nat, n: nat)
    requires r < 0x1_0000_0000 && n < 32
    ensures Or32(r, Shl32(0, n)) == r
  {
    hide Pow2, Or;
    assert 0 * Pow2(n) == 0;
    OrZero(r);
    OrComm(r, 0);
  }

  // ---------------------------------------------------------------- zigzag

  predicate Signed64(n: int) {
    -0x8000_0000_0000_0000 <= n < 0x8000_0000_0000_0000
  }

  /** The 64-bit pattern of n shifted left once, complemented when n is negative. */
  function ZigZag(n: int): (u: nat)
    requires Signed64(n)
    ensures u < 0x1_0000_0000_0000_0000
  {
    if n < 0 then 0xFFFF_FFFF_FFFF_FFFF - (n + 0x1_0000_0000_0000_0000) * 2 % 0x1_0000_0000_0000_0000
    else n * 2
  }

  /** The value shifted right once, complemented when its lowest bit is set, read as signed. */
  function UnZigZag(u: nat): (n: int)
    requires u < 0x1_0000_0000_0000_0000
    ensures Signed64(n)
  {
    if u % 2 == 1 then (0xFFFF_FFFF_FFFF_FFFF - u / 2) - 0x1_0000_0000_0000_0000 else u / 2
  }

  /** Zigzag is a bijection between the signed and the unsigned 64-bit values. */
  lemma ZigZagRoundTrip(n: int, u: nat)
    requires Signed64(n) && u < 0x1_0000_0000_0000_0000
    ensures UnZigZag(ZigZag(n)) == n && ZigZag(UnZigZag(u)) == u
  {
    ZigZagOfNegative(n);
    ZigZagOfNegative(UnZigZag(u));
  }

  lemma ZigZagOfNegative(n: int)
    requires Signed64(n)
    ensures ZigZag(n) == if n < 0 then -2 * n - 1 else 2 * n
  {
    if n < 0 {
      assert (n + 0x1_0000_0000_0000_0000) * 2 == 0x1_0000_0000_0000_0000 + (2 * n + 0x1_0000_0000_0000_0000);
    }
  }
}
