/**
 The fingerprint of the verifying key and the pin that the server checks it against.
 SHA-256 is a parameter: results that would need its collision resistance name the two
 colliding messages instead.
 */
module KeyDigest {
  import opened Wrappers
  import opened Hex
  import opened Curves
  import opened Encoding

  type Digest = d: seq<Byte> | |d| == 32 witness seq(32, _ => 0)

  /** The verifying key as points, and as the bytes the contract registers. */
  datatype VerifyingKey = VerifyingKey(alpha: G1, beta: G2, gamma: G2, delta: G2, gammaAbc: seq<G1>)

  datatype EncodedVerifyingKey = EncodedVerifyingKey(
    alphaG1: seq<Byte>,
    betaG2: seq<Byte>,
    gammaG2: seq<Byte>,
    deltaG2: seq<Byte>,
    ic: seq<seq<Byte>>)
  {
    predicate WellSized() {
      && |alphaG1| == 64 && |betaG2| == |gammaG2| == |deltaG2| == 128
      && forall i :: 0 <= i < |ic| ==> |ic[i]| == 64
    }
  }

  function FromArkworks(vk: VerifyingKey): (e: EncodedVerifyingKey)
    ensures e.WellSized()
  {
    EncodedVerifyingKey(
      G1Layout(vk.alpha), G2Layout(vk.beta), G2Layout(vk.gamma), G2Layout(vk.delta),
      seq(|vk.gammaAbc|, i requires 0 <= i < |vk.gammaAbc| => G1Layout(vk.gammaAbc[i])))
  }

  function Concat(parts: seq<seq<Byte>>): seq<Byte> {
    if parts == [] then [] else Concat(parts[..|parts| - 1]) + parts[|parts| - 1]
  }

  /** The bytes that are hashed. */
  function Preimage(e: EncodedVerifyingKey): seq<Byte> {
    e.alphaG1 + e.betaG2 + e.gammaG2 + e.deltaG2 + Concat(e.ic)
  }

  /** The hasher is fed field by field; its state is the bytes fed so far. */
  method VkDigest(sha: seq<Byte> -> Digest, vk: VerifyingKey) returns (d: Digest)
    ensures d == sha(Preimage(FromArkworks(vk)))
  {
    var e := FromArkworks(vk);
    var fed := e.alphaG1;
    fed := fed + e.betaG2;
    fed := fed + e.gammaG2;
    fed := fed + e.deltaG2;
    ghost var head := fed;
    for i := 0 to |e.ic|
      invariant fed == head + Concat(e.ic[..i])
    {
      assert e.ic[..i + 1][..i] == e.ic[..i];
      fed := fed + e.ic[i];
    }
    assert e.ic[..|e.ic|] == e.ic;
    d := sha(fed);
  }

  lemma {:induction false} ConcatLength(parts: seq<seq<Byte>>)
    requires forall i :: 0 <= i < |parts| ==> |parts[i]| == 64
    ensures |Concat(parts)| == 64 * |parts|
  {
    if parts != [] {
      ConcatLength(parts[..|parts| - 1]);
    }
  }

  lemma {:induction false} ConcatInjective(a: seq<seq<Byte>>, b: seq<seq<Byte>>)
    requires forall i :: 0 <= i < |a| ==> |a[i]| == 64
    requires forall i :: 0 <= i < |b| ==> |b[i]| == 64
    requires Concat(a) == Concat(b)
    ensures a == b
  {
    ConcatLength(a);
    ConcatLength(b);
    if a != [] {
      var n := |a| - 1;
      ConcatLength(a[..n]);
      ConcatLength(b[..n]);
      Append2(Concat(a[..n]), a[n], Concat(b[..n]), b[n]);
      ConcatInjective(a[..n], b[..n]);
      assert a == a[..n] + [a[n]] && b == b[..n] + [b[n]];
    }
  }

  /** The hashed bytes determine every field and the number of ic entries, whatever that number is. */
  lemma PreimageInjective(e: EncodedVerifyingKey, f: EncodedVerifyingKey)
    requires e.WellSized() && f.WellSized()
    ensures Preimage(e) == Preimage(f) <==> e == f
  {
    if Preimage(e) == Preimage(f) {
      Append2(e.alphaG1 + e.betaG2 + e.gammaG2 + e.deltaG2, Concat(e.ic),
              f.alphaG1 + f.betaG2 + f.gammaG2 + f.deltaG2, Concat(f.ic));
      Append2(e.alphaG1 + e.betaG2 + e.gammaG2, e.deltaG2, f.alphaG1 + f.betaG2 + f.gammaG2, f.deltaG2);
      Append2(e.alphaG1 + e.betaG2, e.gammaG2, f.alphaG1 + f.betaG2, f.gammaG2);
      Append2(e.alphaG1, e.betaG2, f.alphaG1, f.betaG2);
      ConcatInjective(e.ic, f.ic);
    }
  }

  predicate OnCurves(vk: VerifyingKey) {
    && OnG1(vk.alpha) && OnG2(vk.beta) && OnG2(vk.gamma) && OnG2(vk.delta)
    && forall i :: 0 <= i < |vk.gammaAbc| ==> OnG1(vk.gammaAbc[i])
  }

  /** No point is the finite (0, 0). */
  predicate Proper(vk: VerifyingKey) {
    && ProperG1(vk.alpha) && ProperG2(vk.beta) && ProperG2(vk.gamma) && ProperG2(vk.delta)
    && forall i :: 0 <= i < |vk.gammaAbc| ==> ProperG1(vk.gammaAbc[i])
  }

  lemma CurveKeysAreProper(vk: VerifyingKey)
    ensures OnCurves(vk) ==> Proper(vk)
  {
    hide OnG1, OnG2, ProperG1, ProperG2;
    CurveIsProperG1(vk.alpha);
    CurveIsProperG2(vk.beta);
    CurveIsProperG2(vk.gamma);
    CurveIsProperG2(vk.delta);
    forall i | 0 <= i < |vk.gammaAbc|
      ensures OnG1(vk.gammaAbc[i]) ==> ProperG1(vk.gammaAbc[i])
    {
      CurveIsProperG1(vk.gammaAbc[i]);
    }
  }

  /** There are keys on the curves, with any number of ic entries. */
  lemma CurveKeysExist(n: nat)
    ensures var g1, g2 := G1(1, 2, false), G2(X2, Y2, false);
      OnCurves(VerifyingKey(g1, g2, g2, g2, seq(n, _ => g1)))
  {
    hide OnG1, OnG2, X2, Y2;
    GeneratorsOnCurves();
  }

  /** The same key: the same points everywhere. */
  predicate SameKey(vk: VerifyingKey, wk: VerifyingKey) {
    && SameG1(vk.alpha, wk.alpha) && SameG2(vk.beta, wk.beta)
    && SameG2(vk.gamma, wk.gamma) && SameG2(vk.delta, wk.delta)
    && |vk.gammaAbc| == |wk.gammaAbc|
    && forall i :: 0 <= i < |vk.gammaAbc| ==> SameG1(vk.gammaAbc[i], wk.gammaAbc[i])
  }

  /** The encoding determines the key; every key whose points are on the curves is proper. */
  lemma EncodingInjective(vk: VerifyingKey, wk: VerifyingKey)
    requires Proper(vk) && Proper(wk)
    ensures FromArkworks(vk) == FromArkworks(wk) <==> SameKey(vk, wk)
  {
    hide ProperG1, ProperG2, G1Layout, G2Layout, SameG1, SameG2;
    var e, f := FromArkworks(vk), FromArkworks(wk);
    G1LayoutInjective(vk.alpha, wk.alpha);
    G2LayoutInjective(vk.beta, wk.beta);
    G2LayoutInjective(vk.gamma, wk.gamma);
    G2LayoutInjective(vk.delta, wk.delta);
    if |vk.gammaAbc| == |wk.gammaAbc| {
      forall i | 0 <= i < |vk.gammaAbc|
        ensures e.ic[i] == f.ic[i] <==> SameG1(vk.gammaAbc[i], wk.gammaAbc[i])
      {
        G1LayoutInjective(vk.gammaAbc[i], wk.gammaAbc[i]);
      }
      assert e.ic == f.ic <==> forall i :: 0 <= i < |e.ic| ==> e.ic[i] == f.ic[i];
    }
  }

  // ---------- the pin ----------

  datatype PinError = BadDigest | VkMismatch(expected: string, actual: string)

  /** Compares the key's digest with a pinned hexadecimal digest, ignoring case. */
  method VerifyDigest(sha: seq<Byte> -> Digest, vk: VerifyingKey, expected: string) returns (r: Result<(), PinError>)
    ensures r.Success? <==> Decode(expected) == Success(sha(Preimage(FromArkworks(vk))))
    ensures r == Failure(BadDigest) <==> |expected| != 64 || !AllHexDigits(expected)
    ensures r.Failure? && r.error.VkMismatch? ==>
      && r.error.expected == LowerCase(expected)
      && r.error.actual == Encode(sha(Preimage(FromArkworks(vk))))
      && r.error.expected != r.error.actual
  {
    DecodeSucceeds(expected);
    if |expected| != 64 || !AllHexDigits(expected) {
      return Failure(BadDigest);
    }
    var digest := VkDigest(sha, vk);
    var actual := Encode(digest);
    EqualsEncoded(digest, expected);
    DecodeEncoded(digest);
    EncodeDecoded(actual);
    if !EqIgnoreCase(actual, expected) {
      return Failure(VkMismatch(LowerCase(expected), actual));
    }
    r := Success(());
  }

  /**
   A pin identifies one key: two keys that it accepts have the same points and as many ic
   entries, or their hashed bytes are two different messages with one SHA-256 digest.
   */
  lemma PinIdentifiesKey(sha: seq<Byte> -> Digest, vk: VerifyingKey, wk: VerifyingKey, pin: string)
    requires Proper(vk) && Proper(wk)
    requires Decode(pin) == Success(sha(Preimage(FromArkworks(vk))))
    ensures Decode(pin) == Success(sha(Preimage(FromArkworks(wk))))
       <==> SameKey(vk, wk)
            || (Preimage(FromArkworks(vk)) != Preimage(FromArkworks(wk))
                && sha(Preimage(FromArkworks(vk))) == sha(Preimage(FromArkworks(wk))))
  {
    hide Proper, SameKey, FromArkworks, Preimage;
    PreimageInjective(FromArkworks(vk), FromArkworks(wk));
    EncodingInjective(vk, wk);
  }

  /** Writing the pin in another case changes nothing, and no other text is the same pin. */
  lemma PinSpelling(pin: string, pin': string)
    requires Decode(pin).Success?
    ensures Decode(pin') == Decode(pin) <==> EqIgnoreCase(pin, pin') && AllHexDigits(pin')
  {
    var bytes := Decode(pin).value;
    EncodeDecoded(pin);
    DecodeEncoded(bytes);
    EncodeDecoded(Encode(bytes));
    EqualsEncoded(bytes, pin');
  }

  /**
   The fields stand in the hashed bytes in the order alpha, beta, gamma, delta, ic. For this
   circuit ic has four entries, one for each of the three inputs and a constant term: 704 bytes.
   */
  lemma PreimageFields(e: EncodedVerifyingKey)
    requires e.WellSized()
    ensures var bytes := Preimage(e);
      && |bytes| == 448 + 64 * |e.ic|
      && bytes[..64] == e.alphaG1 && bytes[64..192] == e.betaG2
      && bytes[192..320] == e.gammaG2 && bytes[320..448] == e.deltaG2
      && forall i :: 0 <= i < |e.ic| ==> bytes[448 + 64 * i..512 + 64 * i] == e.ic[i]
  {
    ConcatLength(e.ic);
    forall i | 0 <= i < |e.ic|
      ensures Preimage(e)[448 + 64 * i..512 + 64 * i] == e.ic[i]
    {
      ConcatAt(e.ic, i);
      assert Preimage(e)[448 + 64 * i..512 + 64 * i] == Concat(e.ic)[64 * i..64 * i + 64];
    }
  }

  /** Where the points of a key stand in the bytes that are hashed for it. */
  lemma KeyFields(vk: VerifyingKey)
    ensures var bytes := Preimage(FromArkworks(vk));
      && |bytes| == 448 + 64 * |vk.gammaAbc|
      && bytes[..64] == G1Layout(vk.alpha) && bytes[64..192] == G2Layout(vk.beta)
      && bytes[192..320] == G2Layout(vk.gamma) && bytes[320..448] == G2Layout(vk.delta)
      && forall i :: 0 <= i < |vk.gammaAbc| ==> bytes[448 + 64 * i..512 + 64 * i] == G1Layout(vk.gammaAbc[i])
  {
    hide G1Layout, G2Layout, Preimage;
    var e := FromArkworks(vk);
    PreimageFields(e);
    forall i | 0 <= i < |vk.gammaAbc|
      ensures Preimage(e)[448 + 64 * i..512 + 64 * i] == G1Layout(vk.gammaAbc[i])
    {
      assert e.ic[i] == G1Layout(vk.gammaAbc[i]);
    }
  }

  lemma {:induction false} ConcatAt(parts: seq<seq<Byte>>, i: nat)
    requires forall k :: 0 <= k < |parts| ==> |parts[k]| == 64
    requires i < |parts|
    ensures |Concat(parts)| == 64 * |parts| && Concat(parts)[64 * i..64 * i + 64] == parts[i]
  {
    var n := |parts| - 1;
    ConcatLength(parts);
    ConcatLength(parts[..n]);
    if i < n {
      ConcatAt(parts[..n], i);
      assert Concat(parts)[64 * i..64 * i + 64] == Concat(parts[..n])[64 * i..64 * i + 64];
    }
  }
}
