/**
 The byte layouts shared with the on-chain verifier: 32-byte big-endian field elements,
 uncompressed G1 and G2 points with c1 before c0, and the hexadecimal forms of scalars.
 */
module Encoding {
  import opened Wrappers
  import opened NumberTheory
  import opened Field
  import opened Hex
  import opened Curves

  // ---------- big-endian numbers ----------

  function ToBytes(x: nat, n: nat): (bytes: seq<Byte>)
    ensures |bytes| == n
  {
    if n == 0 then [] else ToBytes(x / 256, n - 1) + [x % 256]
  }

  function FromBytes(bytes: seq<Byte>): nat {
    if bytes == [] then 0 else 256 * FromBytes(bytes[..|bytes| - 1]) + bytes[|bytes| - 1]
  }

  lemma {:induction false} FromToBytes(x: nat, n: nat)
    requires x < Pow(256, n)
    ensures FromBytes(ToBytes(x, n)) == x
  {
    if n > 0 {
      FromToBytes(x / 256, n - 1);
      assert ToBytes(x, n)[..n - 1] == ToBytes(x / 256, n - 1);
    }
  }

  lemma {:induction false} ToFromBytes(bytes: seq<Byte>)
    ensures ToBytes(FromBytes(bytes), |bytes|) == bytes
    ensures FromBytes(bytes) < Pow(256, |bytes|)
  {
    if bytes != [] {
      var init, last := bytes[..|bytes| - 1], bytes[|bytes| - 1];
      ToFromBytes(init);
      assert bytes == init + [last];
    }
  }

  /** The first byte is the most significant one. */
  lemma {:induction false} BigEndian(b: Byte, rest: seq<Byte>)
    ensures FromBytes([b] + rest) == b * Pow(256, |rest|) + FromBytes(rest)
  {
    if rest != [] {
      var n := |rest| - 1;
      assert ([b] + rest)[..n + 1] == [b] + rest[..n];
      BigEndian(b, rest[..n]);
      calc {
        b * Pow(256, n + 1);
        b * (256 * Pow(256, n));
        256 * (b * Pow(256, n));
      }
    }
  }

  /** The first digit is the most significant one. */
  lemma {:induction false} HexBigEndian(c: char, rest: string)
    requires IsHexDigit(c) && AllHexDigits(rest)
    ensures AllHexDigits([c] + rest) && HexNumber([c] + rest) == DigitValue(c) * Pow(16, |rest|) + HexNumber(rest)
  {
    hide DigitValue, IsHexDigit;
    if rest == [] {
      HexNumberStep("", c);
      assert [c] + rest == "" + [c];
    } else {
      var n := |rest| - 1;
      HexBigEndian(c, rest[..n]);
      HexNumberStep([c] + rest[..n], rest[n]);
      assert [c] + rest == [c] + rest[..n] + [rest[n]];
      calc {
        DigitValue(c) * Pow(16, n + 1);
        DigitValue(c) * (16 * Pow(16, n));
        16 * (DigitValue(c) * Pow(16, n));
      }
    }
  }

  /** Decoding reads text as a base-16 numeral, most significant digit first. */
  lemma {:induction false} DecodeIsNumeral(s: string)
    requires Decode(s).Success? && AllHexDigits(s)
    ensures FromBytes(Decode(s).value) == HexNumber(s)
  {
    hide Decode, DigitValue, IsHexDigit;
    DecodeSucceeds(s);
    if s == "" {
      DecodeNothing();
    } else {
      var n := |s| - 2;
      var c, d := s[n], s[n + 1];
      assert s == s[..n] + [c, d];
      DecodeSucceeds(s[..n]);
      DecodeIsNumeral(s[..n]);
      DecodeAppend(s[..n], c, d);
      AppendByte(Decode(s[..n]).value, 16 * DigitValue(c) + DigitValue(d));
      HexNumberAppend(s[..n], c, d);
    }
  }

  lemma AppendByte(bytes: seq<Byte>, b: Byte)
    ensures FromBytes(bytes + [b]) == 256 * FromBytes(bytes) + b
  {
    assert (bytes + [b])[..|bytes|] == bytes;
  }

  /** 32 bytes hold every number below 2^256, and both field orders are below that. */
  lemma WordSize()
    ensures Pow(256, 32) == 0x1_0000_0000_0000_0000_0000_0000_0000_0000_0000_0000_0000_0000_0000_0000_0000_0000
    ensures R < Pow(256, 32) && Q < Pow(256, 32)
  {
    assert Pow(256, 4) == 0x1_0000_0000;
    PowAdd(256, 4, 4);
    PowAdd(256, 8, 8);
    PowAdd(256, 16, 16);
  }

  // ---------- field elements ----------

  /** Overwrites a stretch of a buffer, as copy_from_slice does on out[from..from + |src|]. */
  method CopyInto(out: array<Byte>, from: nat, src: seq<Byte>)
    requires from + |src| <= out.Length
    modifies out
    ensures out[..] == old(out[..from]) + src + old(out[from + |src|..])
  {
    forall i | 0 <= i < |src| {
      out[from + i] := src[i];
    }
  }

  /** The 32 big-endian bytes of a field element. */
  function Word(x: nat): (w: seq<Byte>)
    ensures |w| == 32
  {
    ToBytes(x, 32)
  }

  method FrBe(x: Fr) returns (out: array<Byte>)
    ensures fresh(out) && out[..] == Word(x)
  {
    out := new Byte[32](_ => 0);
    CopyInto(out, 0, ToBytes(x, 32));
  }

  method FqBe(x: Fq) returns (out: array<Byte>)
    ensures fresh(out) && out[..] == Word(x)
  {
    out := new Byte[32](_ => 0);
    CopyInto(out, 0, ToBytes(x, 32));
  }

  /** A word read as a number and reduced modulo the scalar order. */
  function FrFromBe(bytes: seq<Byte>): Fr
    requires |bytes| == 32
  {
    Reduce(FromBytes(bytes))
  }

  /** A scalar survives the trip through bytes. */
  lemma FrRoundTrip(x: Fr)
    ensures FrFromBe(Word(x)) == x
  {
    WordSize();
    FromToBytes(x, 32);
    ReduceFr(x);
  }

  /** A word survives the trip through a scalar exactly when its number is below the order. */
  lemma WordRoundTrip(bytes: seq<Byte>)
    requires |bytes| == 32
    ensures Word(FrFromBe(bytes)) == bytes <==> FromBytes(bytes) < R
  {
    ToFromBytes(bytes);
    FrRoundTrip(FrFromBe(bytes));
    if FromBytes(bytes) < R {
      ReduceFr(FromBytes(bytes));
    } else {
      WordSize();
      FromToBytes(FrFromBe(bytes), 32);
    }
  }

  /** Two words are the same scalar exactly when their numbers differ by a multiple of the order. */
  lemma SameScalar(a: seq<Byte>, b: seq<Byte>)
    requires |a| == |b| == 32
    ensures FrFromBe(a) == FrFromBe(b) <==> Divides(R, FromBytes(a) - FromBytes(b))
  {
    SameRemainder(FromBytes(a), FromBytes(b), R);
  }

  lemma WordInjective(x: Fq, y: Fq)
    ensures Word(x) == Word(y) <==> x == y
  {
    WordSize();
    FromToBytes(x, 32);
    FromToBytes(y, 32);
  }

  // ---------- hexadecimal scalars ----------

  datatype ParseError = ExpectedHex | Expected32Bytes

  /** How a scalar is written, in the tables and in responses. */
  function ToHex(f: Fr): (s: string)
    ensures |s| == 64
  {
    Encode(Word(f))
  }

  /** How a scalar supplied by a client is read. */
  function ParseFrHex(s: string): Result<Fr, ParseError> {
    match Decode(s)
    case Failure(_) => Failure(ExpectedHex)
    case Success(bytes) => if |bytes| != 32 then Failure(Expected32Bytes) else Success(FrFromBe(bytes))
  }

  /** The text of a scalar is read as that scalar. */
  lemma HexRoundTrip(f: Fr)
    ensures Decode(ToHex(f)) == Success(Word(f))
    ensures ParseFrHex(ToHex(f)) == Success(f)
  {
    DecodeEncoded(Word(f));
    FrRoundTrip(f);
  }

  lemma ToHexInjective(f: Fr, g: Fr)
    ensures ToHex(f) == ToHex(g) <==> f == g
  {
    HexRoundTrip(f);
    HexRoundTrip(g);
  }

  /** A scalar is written as its 64-digit base-16 numeral. */
  lemma ToHexIsNumeral(f: Fr)
    ensures AllHexDigits(ToHex(f)) && HexNumber(ToHex(f)) == f
  {
    hide Decode, Encode, ToBytes, FromBytes, HexNumber;
    HexRoundTrip(f);
    DecodeSucceeds(ToHex(f));
    DecodeIsNumeral(ToHex(f));
    WordSize();
    FromToBytes(f, 32);
  }

  /**
   Clients may send any 64 hexadecimal digits, which are read as a numeral and reduced: contrary
   to the documented form, upper case and numbers not below the order are accepted, and only
   lower-case canonical text is stable.
   */
  lemma ParseFrHexAccepts(s: string)
    ensures ParseFrHex(s).Success? <==> |s| == 64 && AllHexDigits(s)
    ensures ParseFrHex(s).Failure? ==>
      ParseFrHex(s).error == if |s| % 2 == 0 && AllHexDigits(s) then Expected32Bytes else ExpectedHex
    ensures ParseFrHex(s).Success? ==>
      && ParseFrHex(s).value == Reduce(HexNumber(s))
      && (ToHex(ParseFrHex(s).value) == s <==> LowerCase(s) == s && HexNumber(s) < R)
  {
    hide Decode, Encode, ToBytes, FromBytes, HexNumber, LowerCase;
    DecodeSucceeds(s);
    if ParseFrHex(s).Success? {
      var bytes := Decode(s).value;
      DecodeIsNumeral(s);
      EncodeDecoded(s);
      WordRoundTrip(bytes);
      DecodeEncoded(bytes);
      DecodeEncoded(Word(FrFromBe(bytes)));
    }
  }

  lemma {:induction false} ZeroDigits(n: nat)
    ensures AllHexDigits(seq(n, _ => '0')) && HexNumber(seq(n, _ => '0')) == 0
  {
    if n > 0 {
      ZeroDigits(n - 1);
      assert seq(n, _ => '0')[..n - 1] == seq(n - 1, _ => '0');
    }
  }

  /** The number 10 in upper case: accepted, and not the text that the server writes for it. */
  lemma UpperCaseIsAccepted(text: string)
    requires text == seq(63, _ => '0') + "A"
    ensures ParseFrHex(text) == Success(10) && ToHex(10) != text
  {
    hide ToHex, ParseFrHex;
    ZeroDigits(63);
    var zeros := seq(63, _ => '0');
    assert text[..63] == zeros && text[63] == 'A';
    assert HexNumber(text) == 16 * HexNumber(zeros) + DigitValue('A');
    ParseFrHexAccepts(text);
    ReduceFr(10);
    assert LowerCase(text)[63] == 'a';
  }

  /** The numeral of the order itself: accepted, and read as zero. */
  lemma OrderIsReadAsZero(text: string)
    requires text == Encode(ToBytes(R, 32))
    ensures ParseFrHex(text) == Success(0) && ToHex(0) != text
  {
    hide Encode, ToBytes, FromBytes, ToHex, HexNumber;
    WordSize();
    FromToBytes(R, 32);
    DecodeEncoded(ToBytes(R, 32));
    DecodeSucceeds(text);
    DecodeIsNumeral(text);
    ParseFrHexAccepts(text);
    OrderReduces();
  }

  lemma OrderReduces()
    ensures Reduce(R) == 0
  {
  }

  // ---------- points ----------

  function Zeros(n: nat): (z: seq<Byte>)
    ensures |z| == n
  {
    seq(n, _ => 0)
  }

  function G1Layout(p: G1): (bytes: seq<Byte>)
    ensures |bytes| == 64
  {
    if p.infinity then Zeros(64) else Word(p.x) + Word(p.y)
  }

  function G2Layout(p: G2): (bytes: seq<Byte>)
    ensures |bytes| == 128
  {
    if p.infinity then Zeros(128)
    else Word(p.x.c1) + Word(p.x.c0) + Word(p.y.c1) + Word(p.y.c0)
  }

  /** The halves of a finite point's layout are its coordinates. */
  lemma G1LayoutFields(p: G1)
    requires !p.infinity
    ensures FromBytes(G1Layout(p)[..32]) == p.x && FromBytes(G1Layout(p)[32..]) == p.y
  {
    hide ToBytes, FromBytes;
    WordSize();
    FromToBytes(p.x, 32);
    FromToBytes(p.y, 32);
  }

  /** The quarters of a finite point's layout are its coordinates, c1 before c0. */
  lemma G2LayoutFields(p: G2)
    requires !p.infinity
    ensures FromBytes(G2Layout(p)[..32]) == p.x.c1 && FromBytes(G2Layout(p)[32..64]) == p.x.c0
    ensures FromBytes(G2Layout(p)[64..96]) == p.y.c1 && FromBytes(G2Layout(p)[96..]) == p.y.c0
  {
    hide ToBytes, FromBytes;
    WordSize();
    FromToBytes(p.x.c1, 32);
    FromToBytes(p.x.c0, 32);
    FromToBytes(p.y.c1, 32);
    FromToBytes(p.y.c0, 32);
    var w := G2Layout(p);
    assert w[..32] == Word(p.x.c1) && w[32..64] == Word(p.x.c0) && w[64..96] == Word(p.y.c1) && w[96..] == Word(p.y.c0);
  }

  /** Filling the next stretch of a buffer whose rest is still zero. */
  lemma FillNext(buffer: seq<Byte>, filled: seq<Byte>, src: seq<Byte>, left: nat)
    requires buffer == filled + Zeros(|src| + left)
    ensures buffer[..|filled|] + src + buffer[|filled| + |src|..] == filled + src + Zeros(left)
  {
    assert buffer[|filled| + |src|..] == Zeros(left);
  }

  /** Copies a coordinate into its stretch of a buffer whose rest is still zero. */
  method PutWord(out: array<Byte>, from: nat, x: Fq, ghost filled: seq<Byte>, ghost left: nat)
    requires |filled| == from && out[..] == filled + Zeros(32 + left)
    modifies out
    ensures out[..] == filled + Word(x) + Zeros(left)
  {
    hide Word, Zeros;
    var w := FqBe(x);
    FillNext(out[..], filled, w[..], left);
    CopyInto(out, from, w[..]);
  }

  method G1Bytes(p: G1) returns (out: array<Byte>)
    ensures fresh(out) && out[..] == G1Layout(p)
  {
    hide Word, Zeros, G1Layout;
    out := new Byte[64](_ => 0);
    FreshZeros(out);
    G1LayoutIs(p);
    if p.infinity {
      return;
    }
    PutWord(out, 0, p.x, [], 32);
    PutWord(out, 32, p.y, [] + Word(p.x), 0);
  }

  method G2Bytes(p: G2) returns (out: array<Byte>)
    ensures fresh(out) && out[..] == G2Layout(p)
  {
    hide Word, Zeros, G2Layout;
    out := new Byte[128](_ => 0);
    FreshZeros(out);
    G2LayoutIs(p);
    if p.infinity {
      return;
    }
    PutWord(out, 0, p.x.c1, [], 96);
    PutWord(out, 32, p.x.c0, [] + Word(p.x.c1), 64);
    PutWord(out, 64, p.y.c1, [] + Word(p.x.c1) + Word(p.x.c0), 32);
    PutWord(out, 96, p.y.c0, [] + Word(p.x.c1) + Word(p.x.c0) + Word(p.y.c1), 0);
  }

  lemma G1LayoutIs(p: G1)
    ensures G1Layout(p) == if p.infinity then Zeros(64) else [] + Word(p.x) + Word(p.y) + Zeros(0)
  {
    hide Word, Zeros;
    NoPrefix(Word(p.x));
    NoZeros([] + Word(p.x) + Word(p.y));
  }

  lemma G2LayoutIs(p: G2)
    ensures G2Layout(p)
         == if p.infinity then Zeros(128)
            else [] + Word(p.x.c1) + Word(p.x.c0) + Word(p.y.c1) + Word(p.y.c0) + Zeros(0)
  {
    hide Word, Zeros;
    NoPrefix(Word(p.x.c1));
    NoZeros([] + Word(p.x.c1) + Word(p.x.c0) + Word(p.y.c1) + Word(p.y.c0));
  }

  lemma NoPrefix(bytes: seq<Byte>)
    ensures [] + bytes == bytes
  {
  }

  lemma NoZeros(bytes: seq<Byte>)
    ensures bytes + Zeros(0) == bytes
  {
  }

  lemma FreshZeros(out: array<Byte>)
    requires forall i :: 0 <= i < out.Length ==> out[i] == 0
    ensures out[..] == Zeros(out.Length)
  {
  }

  /** The same point: both at infinity, or the same coordinates. */
  predicate SameG1(p: G1, q: G1) {
    p.infinity == q.infinity && (!p.infinity ==> p.x == q.x && p.y == q.y)
  }

  predicate SameG2(p: G2, q: G2) {
    p.infinity == q.infinity && (!p.infinity ==> p.x == q.x && p.y == q.y)
  }

  lemma {:induction false} ZeroBytes(n: nat)
    ensures ToBytes(0, n) == Zeros(n)
  {
    if n > 0 {
      ZeroBytes(n - 1);
    }
  }

  lemma Append2<T>(a: seq<T>, b: seq<T>, c: seq<T>, d: seq<T>)
    requires |a| == |c|
    ensures a + b == c + d <==> a == c && b == d
  {
    if a + b == c + d {
      assert a == (a + b)[..|a|] == c && b == (a + b)[|a|..] == d;
    }
  }

  /** Off infinity, the layout is all zeros exactly for the coordinates (0, 0). */
  lemma G1LayoutZero(p: G1)
    ensures G1Layout(p) == Zeros(64) <==> p.infinity || (p.x == 0 && p.y == 0)
  {
    hide ToBytes, Word;
    ZeroBytes(32);
    FqZeroWord();
    WordInjective(p.x, 0);
    WordInjective(p.y, 0);
    Append2(Word(p.x), Word(p.y), Zeros(32), Zeros(32));
    assert Zeros(64) == Zeros(32) + Zeros(32);
  }

  lemma FqZeroWord()
    ensures Word(0) == Zeros(32)
  {
    ZeroBytes(32);
  }

  /** Not the finite point (0, 0), whose bytes would be those of infinity. */
  predicate ProperG1(p: G1) {
    p.infinity || p.x != 0 || p.y != 0
  }

  predicate ProperG2(p: G2) {
    p.infinity || p.x != Fq2(0, 0) || p.y != Fq2(0, 0)
  }

  /** (0, 0) is off the curve. */
  lemma CurveIsProperG1(p: G1)
    ensures OnG1(p) ==> ProperG1(p)
  {
    if !ProperG1(p) {
      assert MulQ(0, 0) == 0;
    }
  }

  /** All-zero bytes mean infinity and nothing else on the curve, and exactly for proper points. */
  lemma G1ZeroIsInfinity(p: G1)
    ensures ProperG1(p) <==> (G1Layout(p) == Zeros(64) <==> p.infinity)
    ensures OnG1(p) ==> (G1Layout(p) == Zeros(64) <==> p.infinity)
  {
    hide OnG1, G1Layout;
    G1LayoutZero(p);
    CurveIsProperG1(p);
  }

  /** The layout identifies a proper point. */
  lemma G1LayoutInjective(p: G1, q: G1)
    requires ProperG1(p) && ProperG1(q)
    ensures G1Layout(p) == G1Layout(q) <==> SameG1(p, q)
  {
    hide Word, OnG1;
    G1ZeroIsInfinity(p);
    G1ZeroIsInfinity(q);
    WordInjective(p.x, q.x);
    WordInjective(p.y, q.y);
    Append2(Word(p.x), Word(p.y), Word(q.x), Word(q.y));
  }

  lemma FourWords(a: seq<Byte>, b: seq<Byte>, c: seq<Byte>, d: seq<Byte>,
                  a': seq<Byte>, b': seq<Byte>, c': seq<Byte>, d': seq<Byte>)
    requires |a| == |b| == |c| == |d| == |a'| == |b'| == |c'| == |d'| == 32
    ensures a + b + c + d == a' + b' + c' + d' <==> a == a' && b == b' && c == c' && d == d'
  {
    Append2(a + b + c, d, a' + b' + c', d');
    Append2(a + b, c, a' + b', c');
    Append2(a, b, a', b');
  }

  lemma G2LayoutZero(p: G2)
    ensures G2Layout(p) == Zeros(128) <==> p.infinity || (p.x == p.y == Fq2(0, 0))
  {
    hide ToBytes, Word;
    var z := Zeros(32);
    FqZeroWord();
    WordInjective(p.x.c1, 0);
    WordInjective(p.x.c0, 0);
    WordInjective(p.y.c1, 0);
    WordInjective(p.y.c0, 0);
    FourWords(Word(p.x.c1), Word(p.x.c0), Word(p.y.c1), Word(p.y.c0), z, z, z, z);
    assert Zeros(128) == z + z + z + z;
  }

  lemma CurveIsProperG2(p: G2)
    ensures OnG2(p) ==> ProperG2(p)
  {
    if !ProperG2(p) {
      assert MulQ(0, 0) == MulQ(9, 0) == MulQ(1, 0) == SubQ(0, 0) == AddQ(0, 0) == 0;
    }
  }

  lemma G2ZeroIsInfinity(p: G2)
    ensures ProperG2(p) <==> (G2Layout(p) == Zeros(128) <==> p.infinity)
    ensures OnG2(p) ==> (G2Layout(p) == Zeros(128) <==> p.infinity)
  {
    hide OnG2, G2Layout;
    G2LayoutZero(p);
    CurveIsProperG2(p);
  }

  lemma G2LayoutInjective(p: G2, q: G2)
    requires ProperG2(p) && ProperG2(q)
    ensures G2Layout(p) == G2Layout(q) <==> SameG2(p, q)
  {
    hide Word, OnG2;
    G2ZeroIsInfinity(p);
    G2ZeroIsInfinity(q);
    WordInjective(p.x.c1, q.x.c1);
    WordInjective(p.x.c0, q.x.c0);
    WordInjective(p.y.c1, q.y.c1);
    WordInjective(p.y.c0, q.y.c0);
    FourWords(Word(p.x.c1), Word(p.x.c0), Word(p.y.c1), Word(p.y.c0),
              Word(q.x.c1), Word(q.x.c0), Word(q.y.c1), Word(q.y.c0));
  }
}
