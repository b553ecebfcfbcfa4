/** SSLAEADContext: nonce modes, nonces and additional data (RFC 5246, section 6.2.3.3; RFC 5288,
    section 3; RFC 7905, section 2). The AEAD itself is an oracle. */
module AeadNonce {
  import opened Wrappers
  import opened Bits
  import opened Wire

  /** A context: how it forms nonces, and by how much it makes records longer. `id` tells keys
      apart. The null cipher has no modes set. */
  datatype Aead = Aead(
    id: nat, nullCipher: bool, fixedNonce: seq<byte>, variableLen: nat,
    included: bool, random: bool, xorFixed: bool,
    omitLength: bool, omitVersion: bool, omitAd: bool, maxTag: nat)
  {
    function ExplicitNonceLen(): nat {
      if included then variableLen else 0
    }

    function MaxOverhead(): nat {
      ExplicitNonceLen() + if nullCipher then 0 else maxTag
    }

    /** What the assertions in the source rely on. */
    predicate Wf() {
      && (!nullCipher && !random ==> variableLen == 8)
      && (random ==> included)
      && (xorFixed ==> !included && !random && |fixedNonce| >= variableLen)
      && (nullCipher ==> !included)
    }
  }

  /** The kinds of cipher suite ssl_cipher_get_evp_aead gives out: the mode its AEAD needs, and
      the lengths of that AEAD's nonce and of the fixed IV. */
  datatype Suite = AesGcm | ChaCha20Poly1305 | Stateful(nonceLen: nat, fixedIvLen: nat)

  function NonceLen(suite: Suite): nat {
    match suite case AesGcm | ChaCha20Poly1305 => 12 case Stateful(n, _) => n
  }

  function FixedIvLen(suite: Suite, tls13: bool): nat {
    match suite
    case AesGcm => if tls13 then 12 else 4
    case ChaCha20Poly1305 => 12
    case Stateful(_, n) => n
  }

  /** SSLAEADContext::Create. It fails on an IV of the wrong size and on a stateful suite in
      TLS 1.3, which ssl_cipher_get_evp_aead does not give out. */
  method Create(id: nat, suite: Suite, tls13: bool, ssl3: bool, fixedIv: seq<byte>, maxTag: nat)
    returns (ctx: Option<Aead>)
    ensures ctx.Some? <==> |fixedIv| == FixedIvLen(suite, tls13) && !(suite.Stateful? && tls13)
    ensures ctx.Some? ==> ctx.value.Wf() && !ctx.value.nullCipher && ctx.value.id == id && ctx.value.maxTag == maxTag
    ensures ctx.Some? ==> (ctx.value.random <==> suite.Stateful?)
    ensures ctx.Some? ==> (ctx.value.included <==> suite.Stateful? || (suite.AesGcm? && !tls13))
    ensures ctx.Some? && !suite.Stateful? ==>
              ctx.value.fixedNonce == fixedIv && NonceLength(ctx.value) == NonceLen(suite)
    ensures ctx.Some? ==> ctx.value.omitAd == tls13
  {
    if |fixedIv| != FixedIvLen(suite, tls13) || (suite.Stateful? && tls13) {
      return None;
    }
    var a := Aead(id, false, [], NonceLen(suite), false, false, false, false, false, false, maxTag);
    if !suite.Stateful? {
      a := a.(fixedNonce := fixedIv);
      if suite.ChaCha20Poly1305? {
        a := a.(xorFixed := true, variableLen := 8);
      } else {
        a := a.(variableLen := a.variableLen - |fixedIv|);
      }
      if suite.AesGcm? {
        a := a.(included := true);
      }
      if tls13 {
        a := a.(xorFixed := true, variableLen := 8, included := false, omitAd := true);
      }
    } else {
      a := a.(included := true, random := true, omitLength := true, omitVersion := ssl3);
    }
    return Some(a);
  }

  // ---------------------------------------------------------------- nonces

  function NonceLength(a: Aead): nat {
    if a.xorFixed then |a.fixedNonce| else |a.fixedNonce| + a.variableLen
  }

  function XorByte(x: byte, y: byte): byte {
    assert Pow2(8) == 256;
    XorBound(x, y, 8);
    Xor(x, y)
  }

  function XorBytes(s: seq<byte>, t: seq<byte>): (r: seq<byte>)
    requires |s| == |t|
    ensures |r| == |s|
  {
    seq(|s|, i requires 0 <= i < |s| => XorByte(s[i], t[i]))
  }

  /** The nonce with a given variable part. */
  function Nonce(a: Aead, variable: seq<byte>): (n: seq<byte>)
    requires a.Wf() && |variable| == a.variableLen
    ensures |n| == NonceLength(a)
  {
    if a.xorFixed then XorBytes(Zeros(|a.fixedNonce| - a.variableLen) + variable, a.fixedNonce)
    else a.fixedNonce + variable
  }

  /** Different variable parts make different nonces, in every mode. */
  lemma NonceInjective(a: Aead, s: seq<byte>, t: seq<byte>)
    requires a.Wf() && |s| == |t| == a.variableLen && Nonce(a, s) == Nonce(a, t)
    ensures s == t
  {
    if a.xorFixed {
      var n := |a.fixedNonce| - a.variableLen;
      forall i | 0 <= i < |s|
        ensures s[i] == t[i]
      {
        assert Nonce(a, s)[n + i] == XorByte(s[i], a.fixedNonce[n + i]);
        assert Nonce(a, t)[n + i] == XorByte(t[i], a.fixedNonce[n + i]);
        XorTwice(s[i], a.fixedNonce[n + i]);
        XorTwice(t[i], a.fixedNonce[n + i]);
      }
    } else {
      assert s == Nonce(a, s)[|a.fixedNonce|..] && t == Nonce(a, t)[|a.fixedNonce|..];
    }
  }

  /** The assembly of a nonce, the same in Open and SealScatter: the fixed part or padding, the
      variable part, and the XOR in place. */
  method AssembleNonce(a: Aead, variable: seq<byte>) returns (nonce: array<byte>)
    requires a.Wf() && |variable| == a.variableLen
    ensures fresh(nonce) && nonce[..] == Nonce(a, variable)
  {
    nonce := new byte[NonceLength(a)](_ => 0);
    var nonceLen := |a.fixedNonce| - a.variableLen;
    if !a.xorFixed {
      forall i | 0 <= i < |a.fixedNonce| {
        nonce[i] := a.fixedNonce[i];
      }
      nonceLen := |a.fixedNonce|;
    }
    forall i | 0 <= i < a.variableLen {
      nonce[nonceLen + i] := variable[i];
    }
    if !a.xorFixed {
      assert nonce[..] == Nonce(a, variable);
      return;
    }
    ghost var plain := Zeros(nonceLen) + variable;
    assert nonce[..] == plain;
    for i := 0 to nonce.Length
      invariant forall j :: 0 <= j < i ==> nonce[j] == XorByte(plain[j], a.fixedNonce[j])
      invariant forall j :: i <= j < nonce.Length ==> nonce[j] == plain[j]
    {
      nonce[i] := XorByte(nonce[i], a.fixedNonce[i]);
    }
  }

  // ---------------------------------------------------------------- additional data

  /** GetAdditionalData. */
  function AdditionalData(a: Aead, typ: byte, version: nat, seqNum: seq<byte>, plaintextLen: nat): seq<byte> {
    if a.omitAd then []
    else
      seqNum + [typ] + (if a.omitVersion then [] else BigEndian(version, 2))
      + (if a.omitLength then [] else BigEndian(plaintextLen, 2))
  }

  /** Additional data tells apart sequence numbers and types. */
  lemma AdditionalDataBinds(a: Aead, t1: byte, v1: nat, s1: seq<byte>, n1: nat, t2: byte, v2: nat, s2: seq<byte>,
                            n2: nat)
    requires !a.omitAd && |s1| == |s2| == 8
    requires AdditionalData(a, t1, v1, s1, n1) == AdditionalData(a, t2, v2, s2, n2)
    ensures s1 == s2 && t1 == t2
  {
    var d1, d2 := AdditionalData(a, t1, v1, s1, n1), AdditionalData(a, t2, v2, s2, n2);
    assert d1[..8] == s1 && d2[..8] == s2 && d1[8] == t1 && d2[8] == t2;
  }

  // ---------------------------------------------------------------- sealing and opening

  /** The AEAD: what it makes of nonce, additional data and plaintext, and back. */
  type Sealer = (seq<byte>, seq<byte>, seq<byte>) -> seq<byte>
  type Opener = (seq<byte>, seq<byte>, seq<byte>) -> Option<seq<byte>>

  /** The nonce SealScatter puts on the wire. */
  function WireNonce(a: Aead, variable: seq<byte>): seq<byte> {
    if a.included then variable else []
  }

  /** The variable part of the nonce on sealing: drawn at random or the sequence number. */
  function VariablePart(a: Aead, seqNum: seq<byte>, random: seq<byte>): seq<byte> {
    if a.random then random else seqNum
  }

  /** Seal. */
  method Seal(a: Aead, enc: Sealer, typ: byte, version: nat, seqNum: seq<byte>, random: seq<byte>, plaintext: seq<byte>)
    returns (out: seq<byte>)
    requires a.Wf() && |seqNum| == 8 && |random| == a.variableLen
    ensures out == Sealed(a, enc, typ, version, seqNum, random, plaintext)
  {
    if a.nullCipher {
      return plaintext;
    }
    var ad := AdditionalData(a, typ, version, seqNum, |plaintext|);
    var variable := if a.random then random else seqNum;
    var nonce := AssembleNonce(a, variable);
    out := (if a.included then variable else []) + enc(nonce[..], ad, plaintext);
  }

  function Sealed(a: Aead, enc: Sealer, typ: byte, version: nat, seqNum: seq<byte>, random: seq<byte>,
                  plaintext: seq<byte>): seq<byte>
    requires a.Wf() && |seqNum| == 8 && |random| == a.variableLen
  {
    if a.nullCipher then plaintext
    else
      var variable := VariablePart(a, seqNum, random);
      WireNonce(a, variable) + enc(Nonce(a, variable), AdditionalData(a, typ, version, seqNum, |plaintext|), plaintext)
  }

  /** Open. */
  method Open(a: Aead, dec: Opener, typ: byte, version: nat, seqNum: seq<byte>, input: seq<byte>)
    returns (out: Option<seq<byte>>)
    requires a.Wf() && |seqNum| == 8
    ensures out == Opened(a, dec, typ, version, seqNum, input)
  {
    if a.nullCipher {
      return Some(input);
    }
    var plaintextLen := 0;
    if !a.omitLength {
      if |input| < a.MaxOverhead() {
        return None;
      }
      plaintextLen := |input| - a.MaxOverhead();
    }
    var ad := AdditionalData(a, typ, version, seqNum, plaintextLen);
    var variable, rest := seqNum, input;
    if a.included {
      if |input| < a.variableLen {
        return None;
      }
      variable, rest := input[..a.variableLen], input[a.variableLen..];
    }
    var nonce := AssembleNonce(a, variable);
    out := dec(nonce[..], ad, rest);
  }

  function Opened(a: Aead, dec: Opener, typ: byte, version: nat, seqNum: seq<byte>, input: seq<byte>): Option<seq<byte>>
    requires a.Wf() && |seqNum| == 8
  {
    if a.nullCipher then Some(input)
    else if (!a.omitLength && |input| < a.MaxOverhead()) || |input| < a.ExplicitNonceLen() then None
    else
      var k := a.ExplicitNonceLen();
      var variable := if a.included then input[..k] else seqNum;
      var plaintextLen := if a.omitLength then 0 else |input| - a.MaxOverhead();
      dec(Nonce(a, variable), AdditionalData(a, typ, version, seqNum, plaintextLen), input[k..])
  }

  /** The oracles match: opening what was sealed gives the plaintext back, and an AEAD that binds
      the length has a fixed overhead. */
  ghost predicate Matching(a: Aead, enc: Sealer, dec: Opener) {
    && (forall n, ad, p :: dec(n, ad, enc(n, ad, p)) == Some(p))
    && (forall n, ad, p :: !a.omitLength ==> |enc(n, ad, p)| == |p| + a.maxTag)
  }

  /** Open undoes Seal under the same header, for every mode: both arrive at the same nonce and
      the same additional data. */
  lemma OpenSealed(a: Aead, enc: Sealer, dec: Opener, typ: byte, version: nat, seqNum: seq<byte>, random: seq<byte>,
                   plaintext: seq<byte>)
    requires a.Wf() && |seqNum| == 8 && |random| == a.variableLen && Matching(a, enc, dec)
    ensures Opened(a, dec, typ, version, seqNum, Sealed(a, enc, typ, version, seqNum, random, plaintext)) ==
              Some(plaintext)
  {
    if !a.nullCipher {
      var variable := VariablePart(a, seqNum, random);
      var c := enc(Nonce(a, variable), AdditionalData(a, typ, version, seqNum, |plaintext|), plaintext);
      var out := WireNonce(a, variable) + c;
      assert out[a.ExplicitNonceLen()..] == c;
      assert a.included ==> out[..a.variableLen] == variable;
      if a.omitLength {
        assert AdditionalData(a, typ, version, seqNum, 0) == AdditionalData(a, typ, version, seqNum, |plaintext|);
      }
    }
  }
}
