/** Bytes and their hexadecimal text (RFC 4648, section 8): lower case when written, either case when read. */
module Hex {
  import opened Wrappers

  type Byte = b: nat | b < 256

  datatype HexError = OddLength | InvalidHexCharacter

  function Digit(n: nat): (c: char)
    requires n < 16
  {
    "0123456789abcdef"[n]
  }

  predicate IsHexDigit(c: char) {
    '0' <= c <= '9' || 'a' <= c <= 'f' || 'A' <= c <= 'F'
  }

  function DigitValue(c: char): (n: nat)
    requires IsHexDigit(c)
    ensures n < 16
  {
    if c <= '9' then (c - '0') as nat
    else if c <= 'F' then (c - 'A') as nat + 10
    else (c - 'a') as nat + 10
  }

  function Lower(c: char): char {
    if 'A' <= c <= 'Z' then c - 'A' + 'a' else c
  }

  function LowerCase(s: string): (t: string)
    ensures |t| == |s|
  {
    seq(|s|, i requires 0 <= i < |s| => Lower(s[i]))
  }

  predicate EqIgnoreCase(s: string, t: string) {
    LowerCase(s) == LowerCase(t)
  }

  predicate AllHexDigits(s: string) {
    forall i :: 0 <= i < |s| ==> IsHexDigit(s[i])
  }

  function Encode(bytes: seq<Byte>): (s: string)
    ensures |s| == 2 * |bytes|
  {
    if bytes == [] then "" else [Digit(bytes[0] / 16), Digit(bytes[0] % 16)] + Encode(bytes[1..])
  }

  function Decode(s: string): Result<seq<Byte>, HexError> {
    if |s| % 2 != 0 then Failure(OddLength)
    else if s == "" then Success([])
    else if !IsHexDigit(s[0]) || !IsHexDigit(s[1]) then Failure(InvalidHexCharacter)
    else
      var rest :- Decode(s[2..]);
      var b: Byte := 16 * DigitValue(s[0]) + DigitValue(s[1]);
      Success([b] + rest)
  }

  lemma DigitRoundTrip(n: nat)
    requires n < 16
    ensures IsHexDigit(Digit(n)) && DigitValue(Digit(n)) == n && Lower(Digit(n)) == Digit(n)
    ensures Digit(n) as int == if n < 10 then '0' as int + n else 'a' as int + n - 10
  {
  }

  lemma ValueRoundTrip(c: char)
    requires IsHexDigit(c)
    ensures Digit(DigitValue(c)) == Lower(c)
  {
  }

  /** Text is decoded exactly when it is an even number of hexadecimal digits. */
  lemma {:induction false} DecodeSucceeds(s: string)
    ensures Decode(s).Success? <==> |s| % 2 == 0 && AllHexDigits(s)
    ensures Decode(s).Success? ==> |Decode(s).value| == |s| / 2
  {
    if |s| % 2 == 0 && s != "" {
      DecodeSucceeds(s[2..]);
      assert AllHexDigits(s) <==> IsHexDigit(s[0]) && IsHexDigit(s[1]) && AllHexDigits(s[2..]) by {
        if IsHexDigit(s[0]) && IsHexDigit(s[1]) && AllHexDigits(s[2..]) {
          assert forall i :: 2 <= i < |s| ==> s[i] == s[2..][i - 2];
        }
      }
    }
  }

  /** What is written is read back. */
  lemma {:induction false} DecodeEncoded(bytes: seq<Byte>)
    ensures Decode(Encode(bytes)) == Success(bytes)
  {
    hide Digit, DigitValue, IsHexDigit;
    if bytes != [] {
      DigitRoundTrip(bytes[0] / 16);
      DigitRoundTrip(bytes[0] % 16);
      DecodeEncoded(bytes[1..]);
      assert Encode(bytes)[2..] == Encode(bytes[1..]);
      assert 16 * (bytes[0] / 16) + bytes[0] % 16 == bytes[0];
      assert [bytes[0]] + bytes[1..] == bytes;
    }
  }

  /** What is read is written back in lower case. */
  lemma {:induction false} EncodeDecoded(s: string)
    requires Decode(s).Success?
    ensures Encode(Decode(s).value) == LowerCase(s)
  {
    hide Digit, DigitValue, IsHexDigit, Lower, LowerCase, Decode, Encode;
    if s == "" {
      DecodeNothing();
    } else {
      DecodeStep(s);
      EncodeDecoded(s[2..]);
      ValueRoundTrip(s[0]);
      ValueRoundTrip(s[1]);
      var rest := Decode(s[2..]).value;
      EncodeStep(16 * DigitValue(s[0]) + DigitValue(s[1]), rest);
      LowerCaseStep(s);
    }
  }

  lemma DecodeNothing()
    ensures Decode("") == Success([]) && Encode([]) == "" == LowerCase("")
  {
  }

  lemma DecodeStep(s: string)
    requires s != "" && Decode(s).Success?
    ensures |s| >= 2 && IsHexDigit(s[0]) && IsHexDigit(s[1]) && Decode(s[2..]).Success?
    ensures Decode(s).value == [16 * DigitValue(s[0]) + DigitValue(s[1])] + Decode(s[2..]).value
  {
    hide Encode, Digit, DigitValue, IsHexDigit, LowerCase;
  }

  lemma EncodeStep(b: Byte, rest: seq<Byte>)
    ensures Encode([b] + rest) == [Digit(b / 16), Digit(b % 16)] + Encode(rest)
  {
    hide Digit;
    assert ([b] + rest)[1..] == rest;
  }

  lemma LowerCaseStep(s: string)
    requires |s| >= 2
    ensures LowerCase(s) == [Lower(s[0]), Lower(s[1])] + LowerCase(s[2..])
  {
    hide Lower;
  }

  /** Encoded text equals another one up to case exactly when that one decodes to the encoded bytes. */
  lemma EqualsEncoded(bytes: seq<Byte>, s: string)
    ensures EqIgnoreCase(Encode(bytes), s) && AllHexDigits(s) <==> Decode(s) == Success(bytes)
  {
    DecodeEncoded(bytes);
    EncodeDecoded(Encode(bytes));
    DecodeSucceeds(s);
    if Decode(s).Success? {
      EncodeDecoded(s);
      DecodeEncoded(Decode(s).value);
    }
  }

  /** The value of a base-16 numeral. */
  function HexNumber(s: string): nat
    requires AllHexDigits(s)
  {
    if s == "" then 0 else 16 * HexNumber(s[..|s| - 1]) + DigitValue(s[|s| - 1])
  }

  lemma HexNumberStep(s: string, c: char)
    requires AllHexDigits(s) && IsHexDigit(c)
    ensures AllHexDigits(s + [c]) && HexNumber(s + [c]) == 16 * HexNumber(s) + DigitValue(c)
  {
    hide DigitValue, IsHexDigit;
    assert (s + [c])[..|s|] == s;
  }

  lemma HexNumberAppend(s: string, c: char, d: char)
    requires AllHexDigits(s) && IsHexDigit(c) && IsHexDigit(d)
    ensures AllHexDigits(s + [c, d])
    ensures HexNumber(s + [c, d]) == 256 * HexNumber(s) + 16 * DigitValue(c) + DigitValue(d)
  {
    hide *;
    HexNumberStep(s, c);
    HexNumberStep(s + [c], d);
    assert s + [c] + [d] == s + [c, d];
  }

  lemma DecodePrepend(c: char, d: char, s: string)
    requires Decode(s).Success? && IsHexDigit(c) && IsHexDigit(d)
    ensures Decode([c, d] + s) == Success([16 * DigitValue(c) + DigitValue(d)] + Decode(s).value)
  {
    hide DigitValue, IsHexDigit;
    assert ([c, d] + s)[2..] == s;
  }

  lemma {:induction false} DecodeAppend(s: string, c: char, d: char)
    requires Decode(s).Success? && IsHexDigit(c) && IsHexDigit(d)
    ensures Decode(s + [c, d]) == Success(Decode(s).value + [16 * DigitValue(c) + DigitValue(d)])
  {
    hide DigitValue, IsHexDigit, Decode;
    if s == "" {
      DecodeNothing();
      DecodePrepend(c, d, s);
      assert s + [c, d] == [c, d] + s;
      var last: seq<Byte> := [16 * DigitValue(c) + DigitValue(d)];
      assert [] + last == last == last + [];
    } else {
      DecodeStep(s);
      DecodeAppend(s[2..], c, d);
      DecodePrepend(s[0], s[1], s[2..] + [c, d]);
      assert s + [c, d] == [s[0], s[1]] + (s[2..] + [c, d]);
      var first: seq<Byte>, last: seq<Byte> :=
        [16 * DigitValue(s[0]) + DigitValue(s[1])], [16 * DigitValue(c) + DigitValue(d)];
      assert first + (Decode(s[2..]).value + last) == first + Decode(s[2..]).value + last;
    }
  }
}
