/**
 The percent codec (sections 2.1 and 2.3 of RFC 3986).
 */
module Percent {
  import opened HttpTypes

  /** A byte string. */
  predicate IsBytes(s: string) {
    forall i :: 0 <= i < |s| ==> s[i] as int < 256
  }

  predicate IsUnreserved(c: char) {
    IsAlpha(c) || IsNum(c) || c == '-' || c == '.' || c == '_' || c == '~'
  }

  // ---------------------------------------------------------------- specification

  /** One byte, encoded. */
  function EncodedByte(c: char): string
    requires c as int < 256
  {
    if IsUnreserved(c) then [c] else ['%', HexChar(c as int / 16), HexChar(c as int % 16)]
  }

  function Encoded(s: string): string
    requires IsBytes(s)
  {
    if s == [] then [] else Encoded(s[..|s| - 1]) + EncodedByte(s[|s| - 1])
  }

  predicate IsEscape(s: string) {
    |s| >= 3 && s[0] == '%' && IsHex(s[1]) && IsHex(s[2])
  }

  /** A '%' that is not followed by two hexadecimal digits stands for itself. */
  function Decoded(s: string): (r: string)
    ensures IsBytes(s) ==> IsBytes(r)
  {
    if s == [] then []
    else if IsEscape(s) then [(16 * HexDigit(s[1]) + HexDigit(s[2])) as char] + Decoded(s[3..])
    else [s[0]] + Decoded(s[1..])
  }

  // ---------------------------------------------------------------- the loops

  method PercentEncode(target: string) returns (dest: string)
    requires IsBytes(target)
    ensures dest == Encoded(target)
  {
    dest := "";
    for i := 0 to |target|
      invariant dest == Encoded(target[..i])
    {
      assert target[..i + 1][..i] == target[..i];
      if IsUnreserved(target[i]) {
        dest := dest + [target[i]];
      } else {
        var temp := ['%', HexChar(target[i] as int / 16), HexChar(target[i] as int % 16)];
        dest := dest + temp;
      }
    }
    assert target[..|target|] == target;
  }

  method PercentDecode(s: string) returns (result: string)
    ensures result == Decoded(s)
  {
    hide Decoded;
    result := "";
    var first := 0;
    assert s[0..] == s;
    while first < |s|
      invariant first <= |s|
      invariant result + Decoded(s[first..]) == Decoded(s)
    {
      ghost var rest, before := s[first..], result;
      DecodedStep(rest);
      if s[first] == '%' {
        if first + 1 != |s| && first + 2 != |s| && IsHex(s[first + 1]) && IsHex(s[first + 2]) {
          assert IsEscape(rest) && rest[3..] == s[first + 3..];
          result := result + [(16 * HexDigit(s[first + 1]) + HexDigit(s[first + 2])) as char];
          first := first + 2;
        } else {
          assert !IsEscape(rest) && rest[1..] == s[first + 1..];
          result := result + [s[first]];
        }
      } else {
        assert !IsEscape(rest) && rest[1..] == s[first + 1..];
        result := result + [s[first]];
      }
      first := first + 1;
      assert result + Decoded(s[first..]) == before + Decoded(rest);
    }
    DecodedStep([]);
    assert s[|s|..] == [];
  }

  lemma DecodedStep(s: string)
    ensures s == [] ==> Decoded(s) == []
    ensures IsEscape(s) ==> Decoded(s) == [(16 * HexDigit(s[1]) + HexDigit(s[2])) as char] + Decoded(s[3..])
    ensures s != [] && !IsEscape(s) ==> Decoded(s) == [s[0]] + Decoded(s[1..])
  {
    hide HexDigit, IsHex;
  }

  // ---------------------------------------------------------------- round trip

  lemma HexRoundTrip(d: nat)
    requires d < 16
    ensures HexDigit(HexChar(d)) == d
  {
  }

  /** Encoding goes from either end. */
  lemma {:induction false} EncodedConcat(a: string, b: string)
    requires IsBytes(a) && IsBytes(b)
    ensures IsBytes(a + b) && Encoded(a + b) == Encoded(a) + Encoded(b)
    decreases |b|
  {
    hide EncodedByte;
    if b == [] {
      assert a + b == a;
    } else {
      var b' := b[..|b| - 1];
      assert (a + b)[..|a + b| - 1] == a + b';
      EncodedConcat(a, b');
      assert Encoded(a) + (Encoded(b') + EncodedByte(b[|b| - 1])) == Encoded(a) + Encoded(b') + EncodedByte(b[|b| - 1]);
    }
  }

  lemma EncodedOne(c: char)
    requires c as int < 256
    ensures Encoded([c]) == EncodedByte(c)
  {
    assert [c][..0] == [];
    assert Encoded([c][..0]) == [];
  }

  lemma DecodedByte(c: char, rest: string)
    requires c as int < 256
    ensures Decoded(EncodedByte(c) + rest) == [c] + Decoded(rest)
  {
    var w := EncodedByte(c) + rest;
    if IsUnreserved(c) {
      assert w[0] == c && w[1..] == rest;
    } else {
      HexRoundTrip(c as int / 16);
      HexRoundTrip(c as int % 16);
      assert w[0] == '%' && w[1] == HexChar(c as int / 16) && w[2] == HexChar(c as int % 16);
      assert w[3..] == rest;
    }
  }

  /** Decoding undoes encoding, for every byte string. */
  lemma {:induction false} DecodeEncode(s: string)
    requires IsBytes(s)
    ensures Decoded(Encoded(s)) == s
    decreases |s|
  {
    if s != [] {
      assert s == [s[0]] + s[1..];
      EncodedConcat([s[0]], s[1..]);
      EncodedOne(s[0]);
      DecodedByte(s[0], Encoded(s[1..]));
      DecodeEncode(s[1..]);
    }
  }

  // ---------------------------------------------------------------- other spellings

  const UPPER_DIGITS: string := "0123456789ABCDEF"
  const LOWER_DIGITS: string := "0123456789abcdef"

  /** A hexadecimal digit of either case. */
  predicate SpellsDigit(c: char, d: int) {
    0 <= d < 16 && (c == UPPER_DIGITS[d] || c == LOWER_DIGITS[d])
  }

  predicate SpellsEscape(w: string, c: char) {
    |w| >= 3 && w[0] == '%' && SpellsDigit(w[1], c as int / 16) && SpellsDigit(w[2], c as int % 16)
  }

  /** `w` spells the byte string `s`: every byte as itself, or as a percent sign and its two digits. */
  predicate Spelling(w: string, s: string)
    decreases |s|
  {
    if s == [] then w == []
    else
      || (w != [] && w[0] == s[0] && !IsEscape(w) && Spelling(w[1..], s[1..]))
      || (SpellsEscape(w, s[0]) && Spelling(w[3..], s[1..]))
  }

  lemma DigitSpelled(c: char, d: int)
    ensures SpellsDigit(c, d) <==> IsHex(c) && HexDigit(c) == d
  {
  }

  lemma EscapeSpelled(w: string, c: char)
    requires c as int < 256
    ensures SpellsEscape(w, c) <==> IsEscape(w) && 16 * HexDigit(w[1]) + HexDigit(w[2]) == c as int
  {
    hide SpellsDigit, HexDigit, IsHex;
    if |w| >= 3 {
      DigitSpelled(w[1], c as int / 16);
      DigitSpelled(w[2], c as int % 16);
      if IsEscape(w) {
        DigitBound(w[1]);
        DigitBound(w[2]);
      }
    }
  }

  lemma DigitBound(c: char)
    requires IsHex(c)
    ensures 0 <= HexDigit(c) < 16
  {
  }

  lemma SpellingStep(w: string, s: string)
    requires IsBytes(s) && s != []
    ensures Spelling(w, s) <==>
            if IsEscape(w) then 16 * HexDigit(w[1]) + HexDigit(w[2]) == s[0] as int && Spelling(w[3..], s[1..])
            else w != [] && w[0] == s[0] && Spelling(w[1..], s[1..])
  {
    hide SpellsEscape, HexDigit, IsHex;
    EscapeSpelled(w, s[0]);
  }

  lemma ConsIs(c: char, r: string, s: string)
    requires s != []
    ensures [c] + r == s <==> c == s[0] && r == s[1..]
  {
    assert s == [s[0]] + s[1..];
    assert ([c] + r)[0] == c && ([c] + r)[1..] == r;
  }

  /** Any spelling of a byte string decodes to it, and only its spellings do. */
  lemma {:induction false} DecodesSpelling(w: string, s: string)
    requires IsBytes(s)
    ensures Decoded(w) == s <==> Spelling(w, s)
    decreases |s|
  {
    hide Spelling, Decoded, HexDigit, IsHex;
    DecodedStep(w);
    if s == [] {
      NothingSpelled(w);
    } else {
      SpellingStep(w, s);
      if IsEscape(w) {
        DecodesSpelling(w[3..], s[1..]);
        DigitBound(w[1]);
        DigitBound(w[2]);
        ConsIs((16 * HexDigit(w[1]) + HexDigit(w[2])) as char, Decoded(w[3..]), s);
      } else if w != [] {
        DecodesSpelling(w[1..], s[1..]);
        ConsIs(w[0], Decoded(w[1..]), s);
      }
    }
  }

  lemma NothingSpelled(w: string)
    ensures Spelling(w, []) <==> w == []
  {
  }

  // ---------------------------------------------------------------- how a byte is encoded

  /** The characters that stand for themselves, of section 2.3 of RFC 3986. */
  predicate StandsForItself(c: char) {
    'a' <= c <= 'z' || 'A' <= c <= 'Z' || '0' <= c <= '9' || c in "-._~"
  }

  lemma ByteEncoded(c: char)
    requires c as int < 256
    ensures EncodedByte(c) ==
            if StandsForItself(c) then [c] else ['%', UPPER_DIGITS[c as int / 16], UPPER_DIGITS[c as int % 16]]
  {
    UpperDigit(c as int / 16);
    UpperDigit(c as int % 16);
  }

  lemma UpperDigit(d: nat)
    requires d < 16
    ensures HexChar(d) == UPPER_DIGITS[d]
  {
  }

  /** A byte string is its own encoding if and only if every byte of it stands for itself; every other byte is a
      percent sign and two upper-case digits. */
  lemma {:induction false} EncodedExactly(s: string)
    requires IsBytes(s)
    ensures |Encoded(s)| >= |s| && (Encoded(s) == s <==> forall i :: 0 <= i < |s| ==> StandsForItself(s[i]))
    decreases |s|
  {
    hide EncodedByte, StandsForItself;
    if s != [] {
      var n := |s| - 1;
      var front, c := s[..n], s[n];
      assert s == front + [c];
      EncodedExactly(front);
      ByteEncoded(c);
      if StandsForItself(c) {
        assert (Encoded(front) + [c])[..|Encoded(front)|] == Encoded(front);
      }
    }
  }

  /** An encoded string has no characters that delimit the parts of a URI. */
  lemma {:induction false} EncodedIsPlain(s: string)
    requires IsBytes(s)
    ensures forall i :: 0 <= i < |Encoded(s)| ==> IsUnreserved(Encoded(s)[i]) || Encoded(s)[i] == '%'
    ensures s != [] ==> Encoded(s) != []
    decreases |s|
  {
    if s != [] {
      EncodedIsPlain(s[..|s| - 1]);
      var e := EncodedByte(s[|s| - 1]);
      assert forall i :: 0 <= i < |e| ==> IsUnreserved(e[i]) || e[i] == '%';
    }
  }

  /** Encoding loses nothing: two byte strings with the same encoding are the same. */
  lemma EncodeInjective(s: string, t: string)
    requires IsBytes(s) && IsBytes(t) && Encoded(s) == Encoded(t)
    ensures s == t
  {
    DecodeEncode(s);
    DecodeEncode(t);
  }
}
