/** Machine words as natural numbers: shifts, masks and single bits. */
module Bits {
  type byte = x: int | 0 <= x < 256 witness 0

  function Zeros(n: nat): (s: seq<byte>)
    ensures |s| == n
  {
    seq(n, _ => 0)
  }

  function Pow2(n: nat): (r: nat)
    ensures r > 0
  {
    if n == 0 then 1 else 2 * Pow2(n - 1)
  }

  /** Bit k of a word. */
  predicate Bit(w: nat, k: nat) {
    if k == 0 then w % 2 == 1 else Bit(w / 2, k - 1)
  }

  /** x | y on words of any width. */
  function Or(x: nat, y: nat): (r: nat)
    decreases x + y
  {
    if x == 0 && y == 0 then 0
    else 2 * Or(x / 2, y / 2) + (if x % 2 == 1 || y % 2 == 1 then 1 else 0)
  }

  /** x & y on words of any width. */
  function And(x: nat, y: nat): (r: nat)
    decreases x + y
  {
    if x == 0 || y == 0 then 0
    else 2 * And(x / 2, y / 2) + (if x % 2 == 1 && y % 2 == 1 then 1 else 0)
  }

  /** x ^ y on words of any width. */
  function Xor(x: nat, y: nat): (r: nat)
    decreases x + y
  {
    if x == 0 && y == 0 then 0
    else 2 * Xor(x / 2, y / 2) + (if x % 2 != y % 2 then 1 else 0)
  }

  lemma {:induction false} Pow2Sum(m: nat, n: nat)
    ensures Pow2(m + n) == Pow2(m) * Pow2(n)
  {
    if n > 0 {
      Pow2Sum(m, n - 1);
      assert Pow2(m) * (2 * Pow2(n - 1)) == 2 * (Pow2(m) * Pow2(n - 1));
    }
  }

  lemma {:induction false} Pow2Monotone(m: nat, n: nat)
    requires m <= n
    ensures Pow2(m) <= Pow2(n)
    decreases n
  {
    if m < n {
      Pow2Monotone(m, n - 1);
    }
  }

  lemma Pow2Values()
    ensures Pow2(7) == 128 && Pow2(8) == 256 && Pow2(14) == 0x4000 && Pow2(21) == 0x20_0000
    ensures Pow2(28) == 0x1000_0000 && Pow2(31) == 0x8000_0000 && Pow2(32) == 0x1_0000_0000
    ensures Pow2(63) == 0x8000_0000_0000_0000 && Pow2(64) == 0x1_0000_0000_0000_0000
  {
    assert Pow2(4) == 16 && Pow2(7) == 128 && Pow2(8) == 256;
    Pow2Sum(7, 7); Pow2Sum(14, 7); Pow2Sum(21, 7); Pow2Sum(28, 4);
    Pow2Sum(32, 28); Pow2Sum(60, 4);
    assert Pow2(32) == 2 * Pow2(31) && Pow2(64) == 2 * Pow2(63);
  }

  lemma {:induction false} OrBound(x: nat, y: nat, n: nat)
    requires x < Pow2(n) && y < Pow2(n)
    ensures Or(x, y) < Pow2(n)
  {
    if n > 0 {
      OrBound(x / 2, y / 2, n - 1);
    }
  }

  lemma {:induction false} OrZero(z: nat)
    ensures Or(0, z) == z
  {
    if z > 0 {
      OrZero(z / 2);
    }
  }

  lemma {:induction false} OrComm(x: nat, y: nat)
    ensures Or(x, y) == Or(y, x)
    decreases x + y
  {
    if x + y > 0 {
      OrComm(x / 2, y / 2);
    }
  }

  lemma {:induction false} XorBound(x: nat, y: nat, n: nat)
    requires x < Pow2(n) && y < Pow2(n)
    ensures Xor(x, y) < Pow2(n)
  {
    if n > 0 {
      XorBound(x / 2, y / 2, n - 1);
    }
  }

  /** XORing twice with the same word changes nothing. */
  lemma {:induction false} XorTwice(x: nat, y: nat)
    ensures Xor(Xor(x, y), y) == x
    decreases x + y
  {
    if x + y > 0 {
      var z := Xor(x, y);
      assert z / 2 == Xor(x / 2, y / 2);
      XorTwice(x / 2, y / 2);
    }
  }

  /** ORing a shifted digit over free low bits is an addition. */
  lemma {:induction false} OrDisjoint(x: nat, z: nat, n: nat)
    requires x < Pow2(n)
    ensures Or(x, z * Pow2(n)) == x + z * Pow2(n)
  {
    if n == 0 {
      OrZero(z);
    } else {
      var y := z * Pow2(n);
      assert y == 2 * (z * Pow2(n - 1));
      assert y / 2 == z * Pow2(n - 1) && y % 2 == 0;
      OrDisjoint(x / 2, z, n - 1);
    }
  }

  // ---------------------------------------------------------------- single bits

  lemma {:induction false} ZeroBit(k: nat)
    ensures !Bit(0, k)
  {
    if k > 0 {
      ZeroBit(k - 1);
    }
  }

  lemma {:induction false} OrBit(x: nat, y: nat, k: nat)
    ensures Bit(Or(x, y), k) <==> Bit(x, k) || Bit(y, k)
  {
    assert Or(x, y) / 2 == Or(x / 2, y / 2);
    if k > 0 {
      OrBit(x / 2, y / 2, k - 1);
    }
  }

  lemma {:induction false} AndBit(x: nat, y: nat, k: nat)
    ensures Bit(And(x, y), k) <==> Bit(x, k) && Bit(y, k)
  {
    if x == 0 || y == 0 {
      ZeroBit(k);
    } else if k > 0 {
      assert And(x, y) / 2 == And(x / 2, y / 2);
      AndBit(x / 2, y / 2, k - 1);
    }
  }

  /** 1 << n has exactly bit n. */
  lemma {:induction false} PowBit(n: nat, k: nat)
    ensures Bit(Pow2(n), k) <==> k == n
  {
    if n == 0 {
      if k > 0 {
        ZeroBit(k - 1);
      }
    } else if k > 0 {
      PowBit(n - 1, k - 1);
    }
  }

  /** A word ANDed with 1 << n is nonzero exactly if it has bit n. */
  lemma {:induction false} AndPow(x: nat, n: nat)
    ensures And(x, Pow2(n)) != 0 <==> Bit(x, n)
  {
    if x == 0 {
      ZeroBit(n);
    } else if n > 0 {
      assert And(x, Pow2(n)) == 2 * And(x / 2, Pow2(n - 1));
      AndPow(x / 2, n - 1);
    } else {
      AndZero(x / 2);
    }
  }

  lemma AndZero(x: nat)
    ensures And(x, 0) == 0
  {
  }

  /** (1 << n) - 1 has exactly the bits below n. */
  lemma {:induction false} MaskBit(n: nat, k: nat)
    ensures Bit(Pow2(n) - 1, k) <==> k < n
  {
    if n == 0 {
      ZeroBit(k);
    } else if k > 0 {
      assert (Pow2(n) - 1) / 2 == Pow2(n - 1) - 1;
      MaskBit(n - 1, k - 1);
    }
  }

  /** ~x on n bits. */
  lemma {:induction false} NotBit(x: nat, n: nat, k: nat)
    requires x < Pow2(n)
    ensures Bit(Pow2(n) - 1 - x, k) <==> k < n && !Bit(x, k)
  {
    if n == 0 {
      ZeroBit(k);
    } else if k > 0 {
      assert (Pow2(n) - 1 - x) / 2 == Pow2(n - 1) - 1 - x / 2;
      NotBit(x / 2, n - 1, k - 1);
    }
  }

  /** x << n. */
  lemma {:induction false} ShiftBit(x: nat, n: nat, k: nat)
    ensures Bit(x * Pow2(n), k) <==> k >= n && Bit(x, k - n)
  {
    if n > 0 {
      assert x * Pow2(n) == 2 * (x * Pow2(n - 1));
      if k > 0 {
        ShiftBit(x, n - 1, k - 1);
      }
    }
  }

  /** Truncation to n bits. */
  lemma {:induction false} TruncateBit(x: nat, n: nat, k: nat)
    ensures Bit(x % Pow2(n), k) <==> k < n && Bit(x, k)
  {
    if n == 0 {
      ZeroBit(k);
    } else {
      HalfOfRemainder(x, Pow2(n - 1));
      if k > 0 {
        TruncateBit(x / 2, n - 1, k - 1);
      }
    }
  }

  lemma HalfOfRemainder(x: nat, p: nat)
    requires p > 0
    ensures x % (2 * p) / 2 == (x / 2) % p && x % (2 * p) % 2 == x % 2
  {
    var m := 2 * p;
    var q, r := x / m, x % m;
    assert x == q * m + r;
    assert q * m == 2 * (q * p);
    var t := q * p;
    assert x / 2 == t + r / 2;
    RemainderUnique(q, p, r / 2);
  }

  lemma RemainderUnique(q: nat, p: nat, r: nat)
    requires r < p
    ensures (q * p + r) % p == r && (q * p + r) / p == q
  {
    var x := q * p + r;
    var a, b := x / p, x % p;
    assert a * p + b == q * p + r;
    QuotientUnique(a, q, p, b, r);
  }

  lemma QuotientUnique(a: nat, q: nat, p: nat, b: nat, r: nat)
    requires b < p && r < p && a * p + b == q * p + r
    ensures a == q && b == r
  {
    if a > q {
      Multiple(q, a, p);
    } else if a < q {
      Multiple(a, q, p);
    }
  }

  /** A greater multiple of p is greater by at least p. */
  lemma {:induction false} Multiple(i: nat, j: nat, p: nat)
    requires i < j
    ensures i * p + p <= j * p
    decreases j
  {
    if i < j - 1 {
      Multiple(i, j - 1, p);
    }
    assert j * p == (j - 1) * p + p;
  }

  /** A word is determined by its bits. */
  lemma {:induction false} SameBits(x: nat, y: nat, n: nat)
    requires x < Pow2(n) && y < Pow2(n)
    requires forall k: nat :: k < n ==> (Bit(x, k) <==> Bit(y, k))
    ensures x == y
  {
    if n > 0 {
      assert Bit(x, 0) <==> Bit(y, 0);
      forall k: nat | k < n - 1
        ensures Bit(x / 2, k) <==> Bit(y / 2, k)
      {
        assert Bit(x, k + 1) <==> Bit(y, k + 1);
      }
      SameBits(x / 2, y / 2, n - 1);
    }
  }
}
