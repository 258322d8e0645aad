/**
 * Percent-decoding of URI text (`%XY`, two hexadecimal digits, stands for the
 * character with code 0xXY) and its inverse.
 */
module PercentCoding {

  predicate IsHex(c: char) {
    '0' <= c <= '9' || 'a' <= c <= 'f' || 'A' <= c <= 'F'
  }

  function HexValue(c: char): (v: nat)
    requires IsHex(c)
    ensures v < 16
  {
    if '0' <= c <= '9' then c as int - '0' as int
    else if 'a' <= c <= 'f' then c as int - 'a' as int + 10
    else c as int - 'A' as int + 10
  }

  function HexDigit(v: nat): (c: char)
    requires v < 16
    ensures IsHex(c) && HexValue(c) == v
  {
    if v < 10 then ('0' as int + v) as char else ('A' as int + v - 10) as char
  }

  /** Whether `s` starts with a well-formed escape `%XY`. */
  predicate StartsWithEscape(s: string) {
    |s| >= 3 && s[0] == '%' && IsHex(s[1]) && IsHex(s[2])
  }

  /**
   * Replaces every well-formed escape by the character it names; a `%` that
   * does not start one is kept as it is.
   */
  function Decode(s: string): (r: string)
    ensures |r| <= |s|
    ensures |s| > 0 ==> |r| > 0
  {
    if |s| == 0 then []
    else if StartsWithEscape(s) then [(HexValue(s[1]) * 16 + HexValue(s[2])) as char] + Decode(s[3..])
    else [s[0]] + Decode(s[1..])
  }

  /**
   * Escapes `%` and every character of `escape`; each escaped character must
   * fit in one byte.
   */
  function Encode(s: string, escape: set<char>): (r: string)
    requires forall c :: c in escape ==> c as int < 256
    ensures |s| <= |r| <= 3 * |s|
  {
    if |s| == 0 then []
    else if s[0] == '%' || s[0] in escape then
      var code := s[0] as int;
      [ '%', HexDigit(code / 16), HexDigit(code % 16) ] + Encode(s[1..], escape)
    else [s[0]] + Encode(s[1..], escape)
  }

  /** Decoding undoes encoding, whatever set of characters was escaped. */
  lemma {:induction false} DecodeEncode(s: string, escape: set<char>)
    requires forall c :: c in escape ==> c as int < 256
    ensures Decode(Encode(s, escape)) == s
  {
    if |s| > 0 {
      var e := Encode(s, escape);
      DecodeEncode(s[1..], escape);
      if s[0] == '%' || s[0] in escape {
        assert StartsWithEscape(e);
        assert e[3..] == Encode(s[1..], escape);
      } else {
        assert !StartsWithEscape(e);
        assert e[1..] == Encode(s[1..], escape);
      }
    }
  }

  /** Text without `%` decodes to itself. */
  lemma {:induction false} DecodeWithoutPercent(s: string)
    requires forall i :: 0 <= i < |s| ==> s[i] != '%'
    ensures Decode(s) == s
  {
    if |s| > 0 {
      DecodeWithoutPercent(s[1..]);
    }
  }

  /**
   * Encoding introduces no character other than `%` and upper-case hex
   * digits: a character of neither kind is in the encoding only if it is in
   * the text.
   */
  lemma {:induction false} EncodeIntroducesOnlyEscapes(s: string, escape: set<char>, c: char)
    requires forall c :: c in escape ==> c as int < 256
    requires c != '%' && !IsHex(c)
    requires forall i :: 0 <= i < |s| ==> s[i] != c
    ensures forall k :: 0 <= k < |Encode(s, escape)| ==> Encode(s, escape)[k] != c
  {
    if |s| > 0 {
      EncodeIntroducesOnlyEscapes(s[1..], escape, c);
    }
  }

  /** Encoding works character by character, so it distributes over concatenation. */
  lemma {:induction false} EncodeConcat(a: string, b: string, escape: set<char>)
    requires forall c :: c in escape ==> c as int < 256
    ensures Encode(a + b, escape) == Encode(a, escape) + Encode(b, escape)
    decreases |a|
  {
    if |a| == 0 {
      assert a + b == b;
    } else {
      assert (a + b)[0] == a[0];
      assert (a + b)[1..] == a[1..] + b;
      EncodeConcat(a[1..], b, escape);
    }
  }
}
