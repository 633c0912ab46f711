// Unpadded base64url (section 5 of RFC 4648, padding omitted), as Go's base64.RawURLEncoding
// reads and writes it: the decoder skips '\r' and '\n' anywhere and ignores the spare low
// bits of a final partial group.
module Base64Url {
  import opened Wrappers

  type sextet = n: nat | n < 64

  // The alphabet of section 5 of RFC 4648: A-Z, a-z, 0-9, '-', '_'.
  function Digit(n: sextet): char {
    if n < 26 then 'A' + n as char
    else if n < 52 then 'a' + (n - 26) as char
    else if n < 62 then '0' + (n - 52) as char
    else if n == 62 then '-' else '_'
  }

  function Value(c: char): Option<sextet> {
    if 'A' <= c <= 'Z' then Some((c - 'A') as int)
    else if 'a' <= c <= 'z' then Some((c - 'a') as int + 26)
    else if '0' <= c <= '9' then Some((c - '0') as int + 52)
    else if c == '-' then Some(62)
    else if c == '_' then Some(63)
    else None
  }

  lemma ValueOfDigit(n: sextet)
    ensures Value(Digit(n)) == Some(n)
  {
  }

  lemma DigitOfValue(c: char)
    requires Value(c).Some?
    ensures Digit(Value(c).value) == c
  {
  }

  predicate InAlphabet(s: string) {
    forall i | 0 <= i < |s| :: Value(s[i]).Some?
  }

  // Three octets as four sextets; a missing octet counts as zero.
  function S0(b0: byte): sextet { b0 / 4 }
  function S1(b0: byte, b1: byte): sextet { b0 % 4 * 16 + b1 / 16 }
  function S2(b1: byte, b2: byte): sextet { b1 % 16 * 4 + b2 / 64 }
  function S3(b2: byte): sextet { b2 % 64 }

  // Four sextets as three octets.
  function B0(v0: sextet, v1: sextet): byte { v0 * 4 + v1 / 16 }
  function B1(v1: sextet, v2: sextet): byte { v1 % 16 * 16 + v2 / 4 }
  function B2(v2: sextet, v3: sextet): byte { v2 % 4 * 64 + v3 }

  lemma OctetsOfSextets(b0: byte, b1: byte, b2: byte)
    ensures B0(S0(b0), S1(b0, b1)) == b0
    ensures B1(S1(b0, b1), S2(b1, b2)) == b1
    ensures B2(S2(b1, b2), S3(b2)) == b2
  {
  }

  lemma SextetsOfOctets(v0: sextet, v1: sextet, v2: sextet, v3: sextet)
    ensures S0(B0(v0, v1)) == v0
    ensures S1(B0(v0, v1), B1(v1, v2)) == v1
    ensures S2(B1(v1, v2), B2(v2, v3)) == v2
    ensures S3(B2(v2, v3)) == v3
  {
  }

  function Encode(bs: Bytes): (s: string)
    ensures InAlphabet(s)
  {
    if |bs| < 3 then EncodeTail(bs)
    else EncodeGroup(bs[0], bs[1], bs[2]) + Encode(bs[3..])
  }

  function EncodeTail(bs: Bytes): (s: string)
    requires |bs| < 3
    ensures InAlphabet(s)
  {
    if |bs| == 0 then ""
    else if |bs| == 1 then [Digit(S0(bs[0])), Digit(S1(bs[0], 0))]
    else [Digit(S0(bs[0])), Digit(S1(bs[0], bs[1])), Digit(S2(bs[1], 0))]
  }

  function EncodeGroup(b0: byte, b1: byte, b2: byte): (s: string)
    ensures |s| == 4 && InAlphabet(s)
  {
    [Digit(S0(b0)), Digit(S1(b0, b1)), Digit(S2(b1, b2)), Digit(S3(b2))]
  }

  predicate IsLineBreak(c: char) { c == '\r' || c == '\n' }

  function StripLineBreaks(s: string): string {
    if s == "" then ""
    else if IsLineBreak(s[0]) then StripLineBreaks(s[1..])
    else [s[0]] + StripLineBreaks(s[1..])
  }

  // The last one to three characters: a lone character is an error.
  function DecodeTail(s: string): Option<Bytes>
    requires |s| < 4
  {
    if |s| == 0 then Some([])
    else if |s| == 1 || !InAlphabet(s) then None
    else
      var v0, v1 := Value(s[0]).value, Value(s[1]).value;
      if |s| == 2 then Some([B0(v0, v1)])
      else Some([B0(v0, v1), B1(v1, Value(s[2]).value)])
  }

  function DecodeGroup(s: string): Bytes
    requires |s| == 4 && InAlphabet(s)
  {
    var v0, v1, v2, v3 := Value(s[0]).value, Value(s[1]).value, Value(s[2]).value, Value(s[3]).value;
    [B0(v0, v1), B1(v1, v2), B2(v2, v3)]
  }

  // Decodes text that has no line breaks left.
  function DecodeClean(s: string): Option<Bytes> {
    if |s| < 4 then DecodeTail(s)
    else if !InAlphabet(s[..4]) then None
    else
      var rest := DecodeClean(s[4..]);
      if rest.None? then None else Some(DecodeGroup(s[..4]) + rest.value)
  }

  function Decode(s: string): Option<Bytes> {
    DecodeClean(StripLineBreaks(s))
  }

  // The text has no line break and the spare bits of its last digit are zero.
  predicate Canonical(s: string) {
    (forall i | 0 <= i < |s| :: !IsLineBreak(s[i])) && SpareBitsZero(s)
  }

  predicate SpareBitsZero(s: string) {
    && (|s| % 4 == 2 && Value(s[|s| - 1]).Some? ==> Value(s[|s| - 1]).value % 16 == 0)
    && (|s| % 4 == 3 && Value(s[|s| - 1]).Some? ==> Value(s[|s| - 1]).value % 4 == 0)
  }

  lemma StripKeepsAlphabet(s: string)
    requires forall i | 0 <= i < |s| :: !IsLineBreak(s[i])
    ensures StripLineBreaks(s) == s
  {
  }

  lemma {:induction false} StripShape(s: string)
    ensures forall i | 0 <= i < |StripLineBreaks(s)| :: !IsLineBreak(StripLineBreaks(s)[i])
    ensures |StripLineBreaks(s)| <= |s|
    ensures |StripLineBreaks(s)| == |s| ==> StripLineBreaks(s) == s
  {
    if s != "" {
      StripShape(s[1..]);
    }
  }

  lemma DecodeTwoDigits(v0: sextet, v1: sextet)
    ensures DecodeTail([Digit(v0), Digit(v1)]) == Some([B0(v0, v1)])
  {
  }

  lemma DecodeThreeDigits(v0: sextet, v1: sextet, v2: sextet)
    ensures DecodeTail([Digit(v0), Digit(v1), Digit(v2)]) == Some([B0(v0, v1), B1(v1, v2)])
  {
    ValueOfDigit(v0);
    ValueOfDigit(v1);
    ValueOfDigit(v2);
  }

  lemma OneOctet(b0: byte)
    ensures B0(S0(b0), S1(b0, 0)) == b0
  {
  }

  lemma DecodeEncodeTail(bs: Bytes)
    requires |bs| < 3
    ensures DecodeTail(EncodeTail(bs)) == Some(bs)
  {
    if |bs| == 1 {
      DecodeTwoDigits(S0(bs[0]), S1(bs[0], 0));
      OneOctet(bs[0]);
      assert bs == [bs[0]];
    } else if |bs| == 2 {
      DecodeThreeDigits(S0(bs[0]), S1(bs[0], bs[1]), S2(bs[1], 0));
      OctetsOfSextets(bs[0], bs[1], 0);
      assert bs == [bs[0], bs[1]];
    }
  }

  lemma DecodeEncodeGroup(b0: byte, b1: byte, b2: byte)
    ensures DecodeGroup(EncodeGroup(b0, b1, b2)) == [b0, b1, b2]
  {
    OctetsOfSextets(b0, b1, b2);
    ValueOfDigit(S0(b0));
    ValueOfDigit(S1(b0, b1));
    ValueOfDigit(S2(b1, b2));
    ValueOfDigit(S3(b2));
  }

  lemma {:induction false} DecodeCleanEncode(bs: Bytes)
    ensures DecodeClean(Encode(bs)) == Some(bs)
  {
    if |bs| < 3 {
      DecodeEncodeTail(bs);
    } else {
      var s, group := Encode(bs), EncodeGroup(bs[0], bs[1], bs[2]);
      DecodeEncodeGroup(bs[0], bs[1], bs[2]);
      DecodeCleanEncode(bs[3..]);
      assert s[..4] == group && s[4..] == Encode(bs[3..]);
      assert [bs[0], bs[1], bs[2]] + bs[3..] == bs;
    }
  }

  // Every byte string survives an encode and a decode.
  lemma DecodeEncode(bs: Bytes)
    ensures Decode(Encode(bs)) == Some(bs)
  {
    StripKeepsAlphabet(Encode(bs));
    DecodeCleanEncode(bs);
  }

  lemma DigitIsInjective(m: sextet, n: sextet)
    ensures Digit(m) == Digit(n) <==> m == n
  {
    ValueOfDigit(m);
    ValueOfDigit(n);
  }

  // Two sextets in one octet, and three in two: the spare bits must be zero to come back.
  lemma SpareBitsOfTwo(v0: sextet, v1: sextet)
    ensures S0(B0(v0, v1)) == v0
    ensures S1(B0(v0, v1), 0) == v1 <==> v1 % 16 == 0
  {
  }

  lemma SpareBitsOfThree(v1: sextet, v2: sextet)
    ensures S2(B1(v1, v2), 0) == v2 <==> v2 % 4 == 0
  {
  }

  lemma FirstTwoOfThree(v0: sextet, v1: sextet, v2: sextet)
    ensures S0(B0(v0, v1)) == v0 && S1(B0(v0, v1), B1(v1, v2)) == v1
  {
  }

  lemma EncodeDecodeTwo(s: string)
    requires |s| == 2 && InAlphabet(s)
    ensures EncodeTail(DecodeTail(s).value) == s <==> Value(s[1]).value % 16 == 0
  {
    var v0, v1 := Value(s[0]).value, Value(s[1]).value;
    assert DecodeTail(s).value == [B0(v0, v1)];
    assert EncodeTail([B0(v0, v1)]) == [Digit(S0(B0(v0, v1))), Digit(S1(B0(v0, v1), 0))];
    DigitOfValue(s[0]);
    DigitOfValue(s[1]);
    hide S0, S1, B0, Digit, Value, DecodeTail, EncodeTail;
    SpareBitsOfTwo(v0, v1);
    DigitIsInjective(S1(B0(v0, v1), 0), v1);
    assert s == [Digit(v0), Digit(v1)];
  }

  lemma EncodeDecodeThree(s: string)
    requires |s| == 3 && InAlphabet(s)
    ensures EncodeTail(DecodeTail(s).value) == s <==> Value(s[2]).value % 4 == 0
  {
    var v0, v1, v2 := Value(s[0]).value, Value(s[1]).value, Value(s[2]).value;
    var b0, b1 := B0(v0, v1), B1(v1, v2);
    assert DecodeTail(s).value == [b0, b1];
    assert EncodeTail([b0, b1]) == [Digit(S0(b0)), Digit(S1(b0, b1)), Digit(S2(b1, 0))];
    DigitOfValue(s[0]);
    DigitOfValue(s[1]);
    DigitOfValue(s[2]);
    hide S0, S1, S2, B0, B1, Digit, Value, DecodeTail, EncodeTail;
    FirstTwoOfThree(v0, v1, v2);
    SpareBitsOfThree(v1, v2);
    DigitIsInjective(S2(b1, 0), v2);
    assert s == [Digit(v0), Digit(v1), Digit(v2)];
  }

  lemma EncodeDecodeTail(s: string)
    requires |s| < 4 && DecodeTail(s).Some?
    ensures EncodeTail(DecodeTail(s).value) == s <==> SpareBitsZero(s)
  {
    if |s| == 2 {
      EncodeDecodeTwo(s);
    } else if |s| == 3 {
      EncodeDecodeThree(s);
    }
  }

  lemma EncodeDecodeGroup(s: string)
    requires |s| == 4 && InAlphabet(s)
    ensures var bs := DecodeGroup(s); EncodeGroup(bs[0], bs[1], bs[2]) == s
  {
    SextetsOfOctets(Value(s[0]).value, Value(s[1]).value, Value(s[2]).value, Value(s[3]).value);
    DigitOfValue(s[0]);
    DigitOfValue(s[1]);
    DigitOfValue(s[2]);
    DigitOfValue(s[3]);
  }

  lemma SpareBitsOfSuffix(s: string)
    requires |s| >= 4
    ensures SpareBitsZero(s) <==> SpareBitsZero(s[4..])
  {
  }

  lemma {:induction false} EncodeDecodeClean(s: string)
    requires DecodeClean(s).Some?
    ensures Encode(DecodeClean(s).value) == s <==> SpareBitsZero(s)
  {
    if |s| < 4 {
      EncodeDecodeTail(s);
    } else {
      EncodeDecodeGroup(s[..4]);
      EncodeDecodeClean(s[4..]);
      SpareBitsOfSuffix(s);
      var bs := DecodeClean(s).value;
      assert bs[3..] == DecodeClean(s[4..]).value;
      assert Encode(bs) == s[..4] + Encode(bs[3..]);
      assert Encode(bs)[4..] == Encode(bs[3..]);
      assert s == s[..4] + s[4..];
    }
  }

  // Re-encoding a decoded text gives the text back exactly when it was canonical.
  lemma EncodeDecode(s: string)
    requires Decode(s).Some?
    ensures Encode(Decode(s).value) == s <==> Canonical(s)
  {
    var c := StripLineBreaks(s);
    StripShape(s);
    EncodeDecodeClean(c);
    if forall i | 0 <= i < |s| :: !IsLineBreak(s[i]) {
      StripKeepsAlphabet(s);
    } else {
      // The encoder never writes a line break, so it cannot reproduce one.
      var i :| 0 <= i < |s| && IsLineBreak(s[i]);
      assert Value(s[i]).None?;
    }
  }

  // ---------- Which characters a decodable text may hold ----------

  lemma {:induction false} DecodedCleanIsInAlphabet(s: string)
    requires DecodeClean(s).Some?
    ensures InAlphabet(s)
  {
    if |s| >= 4 {
      DecodedCleanIsInAlphabet(s[4..]);
      assert s == s[..4] + s[4..];
    }
  }

  lemma {:induction false} StrippedHoldsTheRest(s: string, i: nat)
    requires i < |s| && !IsLineBreak(s[i])
    ensures s[i] in StripLineBreaks(s)
  {
    if i > 0 {
      StrippedHoldsTheRest(s[1..], i - 1);
    }
  }

  lemma DecodableCharacters(s: string, i: nat)
    requires Decode(s).Some? && i < |s|
    ensures Value(s[i]).Some? || IsLineBreak(s[i])
  {
    DecodedCleanIsInAlphabet(StripLineBreaks(s));
    if !IsLineBreak(s[i]) {
      StrippedHoldsTheRest(s, i);
    }
  }

  // ---------- The encoding of section 4 and the alphabet of section 5 of RFC 4648 ----------

  lemma LetterAt(k: nat)
    requires k < 26
    ensures "ABCDEFGHIJKLMNOPQRSTUVWXYZ"[k] as int == 65 + k
    ensures "abcdefghijklmnopqrstuvwxyz"[k] as int == 97 + k
  {
  }

  lemma NumeralAt(k: nat)
    requires k < 10
    ensures "0123456789"[k] as int == 48 + k
  {
  }

  lemma DigitIsInAlphabet(n: sextet)
    ensures n < 26 ==> Digit(n) == "ABCDEFGHIJKLMNOPQRSTUVWXYZ"[n]
    ensures 26 <= n < 52 ==> Digit(n) == "abcdefghijklmnopqrstuvwxyz"[n - 26]
    ensures 52 <= n < 62 ==> Digit(n) == "0123456789"[n - 52]
    ensures n >= 62 ==> Digit(n) == "-_"[n - 62]
  {
    if n < 26 {
      LetterAt(n);
    } else if n < 52 {
      LetterAt(n - 26);
    } else if n < 62 {
      NumeralAt(n - 52);
    }
  }

  // Three octets and the four digits that stand for them are the same 24-bit number.
  lemma GroupValue(b0: byte, b1: byte, b2: byte)
    ensures 0x1_0000 * b0 + 0x100 * b1 + b2
         == 0x4_0000 * S0(b0) + 0x1000 * S1(b0, b1) + 0x40 * S2(b1, b2) + S3(b2)
    ensures EncodeGroup(b0, b1, b2) == [Digit(S0(b0)), Digit(S1(b0, b1)), Digit(S2(b1, b2)), Digit(S3(b2))]
  {
  }

  // The octets of "ABC" are written "QUJD".
  lemma AbcIsQujd()
    ensures Encode([65, 66, 67]) == "QUJD" && Decode("QUJD") == Some([65, 66, 67])
  {
    assert Encode([65, 66, 67]) == EncodeGroup(65, 66, 67) + Encode([65, 66, 67][3..]);
    assert EncodeGroup(65, 66, 67) == "QUJD";
    DecodeEncode([65, 66, 67]);
  }
}
