/**
 * Character-level helpers with the behaviour of the Java library calls the
 * server relies on: `String.toLowerCase` (restricted to ASCII letters),
 * `String.trim`, and `Integer.parseInt`/`Long.parseLong` in radix 10.
 */
module Ascii {
  import opened Wrappers

  // ----- case folding ------------------------------------------------------

  function LowerChar(c: char): char {
    if 'A' <= c <= 'Z' then (c as int + 32) as char else c
  }

  /** `s.toLowerCase()` for ASCII letters; every other character is kept. */
  function ToLower(s: string): (r: string)
    ensures |r| == |s|
    ensures forall i :: 0 <= i < |s| ==> r[i] == LowerChar(s[i])
    ensures forall i :: 0 <= i < |r| ==> !('A' <= r[i] <= 'Z')
  {
    seq(|s|, i requires 0 <= i < |s| => LowerChar(s[i]))
  }

  /** A string is in folded form when it has no upper-case ASCII letter. */
  predicate IsLower(s: string) {
    forall i :: 0 <= i < |s| ==> !('A' <= s[i] <= 'Z')
  }

  /** Folding is idempotent, and a folded string is its own folding. */
  lemma ToLowerOfLower(s: string)
    requires IsLower(s)
    ensures ToLower(s) == s
  {
    var r := ToLower(s);
    assert forall i :: 0 <= i < |s| ==> r[i] == s[i];
  }

  /** Folding twice is folding once. */
  lemma ToLowerIdempotent(s: string)
    ensures ToLower(ToLower(s)) == ToLower(s)
  {
    ToLowerOfLower(ToLower(s));
  }

  // ----- trimming -----------------------------------------------------------

  /** The characters `String.trim` removes: every code point up to U+0020. */
  predicate IsTrimmable(c: char) {
    c <= ' '
  }

  /** Drops leading trimmable characters; `TrimStartSpec` states what it keeps. */
  function TrimStart(s: string): string {
    if |s| > 0 && IsTrimmable(s[0]) then TrimStart(s[1..]) else s
  }

  /** Drops trailing trimmable characters; `TrimEndSpec` states what it keeps. */
  function TrimEnd(s: string): string {
    if |s| > 0 && IsTrimmable(s[|s| - 1]) then TrimEnd(s[..|s| - 1]) else s
  }

  lemma {:induction false} TrimStartSpec(s: string)
    ensures var r := TrimStart(s);
            && |r| <= |s| && r == s[|s| - |r|..]
            && (|r| > 0 ==> !IsTrimmable(r[0]))
            && (forall i :: 0 <= i < |s| - |r| ==> IsTrimmable(s[i]))
    decreases |s|
  {
    if |s| > 0 && IsTrimmable(s[0]) {
      TrimStartSpec(s[1..]);
    }
  }

  lemma {:induction false} TrimEndSpec(s: string)
    ensures var r := TrimEnd(s);
            && |r| <= |s| && r == s[..|r|]
            && (|r| > 0 ==> !IsTrimmable(r[|r| - 1]))
            && (forall i :: |r| <= i < |s| ==> IsTrimmable(s[i]))
    decreases |s|
  {
    if |s| > 0 && IsTrimmable(s[|s| - 1]) {
      TrimEndSpec(s[..|s| - 1]);
    }
  }

  /** `s.trim()`; `TrimSpec` states what it keeps. */
  function Trim(s: string): string {
    TrimEnd(TrimStart(s))
  }

  /**
   * `s.trim()` keeps the longest slice of `s` that neither starts nor ends
   * with a trimmable character, everything outside it being trimmable.
   */
  lemma TrimSpec(s: string)
    ensures var r := Trim(s);
            var i := TrimOffset(s);
            && i + |r| <= |s| && r == s[i..i + |r|]
            && (forall k :: 0 <= k < i ==> IsTrimmable(s[k]))
            && (forall k :: i + |r| <= k < |s| ==> IsTrimmable(s[k]))
            && (|r| > 0 ==> !IsTrimmable(r[0]) && !IsTrimmable(r[|r| - 1]))
  {
    TrimStartSpec(s);
    TrimEndSpec(TrimStart(s));
  }

  /** Where the trimmed slice starts: the number of leading trimmable characters. */
  function TrimOffset(s: string): nat {
    TrimStartSpec(s);
    |s| - |TrimStart(s)|
  }

  /** A string with no trimmable character at either end is its own trim. */
  lemma TrimOfTrimmed(s: string)
    requires |s| > 0 ==> !IsTrimmable(s[0]) && !IsTrimmable(s[|s| - 1])
    ensures Trim(s) == s
  {
  }

  // ----- decimal numerals ---------------------------------------------------

  predicate IsDigit(c: char) {
    '0' <= c <= '9'
  }

  predicate AllDigits(s: string) {
    forall i :: 0 <= i < |s| ==> IsDigit(s[i])
  }

  function DigitValue(c: char): nat
    requires IsDigit(c)
  {
    c as int - '0' as int
  }

  function DigitChar(d: nat): (c: char)
    requires d < 10
    ensures IsDigit(c) && DigitValue(c) == d
  {
    ('0' as int + d) as char
  }

  /** The value of a digit string read most-significant digit first. */
  function DigitsValue(ds: string): nat
    requires AllDigits(ds)
  {
    if |ds| == 0 then 0 else DigitsValue(ds[..|ds| - 1]) * 10 + DigitValue(ds[|ds| - 1])
  }

  /** The shortest decimal numeral of `n`. */
  function ShowNat(n: nat): (r: string)
    ensures |r| > 0 && AllDigits(r)
    ensures |r| > 1 ==> r[0] != '0'
  {
    if n < 10 then [DigitChar(n)] else ShowNat(n / 10) + [DigitChar(n % 10)]
  }

  /** `Integer.toString(n)` / `Long.toString(n)`. */
  function ShowInt(n: int): string {
    if n < 0 then "-" + ShowNat(-n) else ShowNat(n)
  }

  const INT_MIN: int := -0x8000_0000
  const INT_MAX: int := 0x7FFF_FFFF
  const LONG_MIN: int := -0x8000_0000_0000_0000
  const LONG_MAX: int := 0x7FFF_FFFF_FFFF_FFFF

  /** The syntax `parseInt`/`parseLong` accept: an optional sign, then one or more digits. */
  predicate IsNumeral(s: string) {
    && |s| > 0
    && var ds := if s[0] == '-' || s[0] == '+' then s[1..] else s;
       |ds| > 0 && AllDigits(ds)
  }

  /** The value a numeral denotes, before any range check. */
  function NumeralValue(s: string): int
    requires IsNumeral(s)
  {
    if s[0] == '-' then -(DigitsValue(s[1..]) as int)
    else if s[0] == '+' then DigitsValue(s[1..])
    else DigitsValue(s)
  }

  /** A magnitude with its sign applied. */
  function Signed(neg: bool, m: nat): int {
    if neg then -(m as int) else m
  }

  /** Reads digits left to right, as `parseInt`'s loop does, starting from `acc`. */
  function FoldDigits(acc: nat, ds: string): nat
    requires AllDigits(ds)
    decreases |ds|
  {
    if |ds| == 0 then acc else FoldDigits(acc * 10 + DigitValue(ds[0]), ds[1..])
  }

  lemma {:induction false} FoldDigitsSnoc(acc: nat, ds: string, c: char)
    requires AllDigits(ds) && IsDigit(c)
    ensures AllDigits(ds + [c])
    ensures FoldDigits(acc, ds + [c]) == FoldDigits(acc, ds) * 10 + DigitValue(c)
    decreases |ds|
  {
    if |ds| > 0 {
      assert (ds + [c])[1..] == ds[1..] + [c];
      FoldDigitsSnoc(acc * 10 + DigitValue(ds[0]), ds[1..], c);
    }
  }

  /** Reading left to right gives the value `DigitsValue` defines right to left. */
  lemma {:induction false} FoldDigitsValue(ds: string)
    requires AllDigits(ds)
    ensures FoldDigits(0, ds) == DigitsValue(ds)
    decreases |ds|
  {
    if |ds| > 0 {
      var init := ds[..|ds| - 1];
      FoldDigitsValue(init);
      FoldDigitsSnoc(0, init, ds[|ds| - 1]);
      assert init + [ds[|ds| - 1]] == ds;
    }
  }

  lemma {:induction false} FoldDigitsGrows(acc: nat, ds: string)
    requires AllDigits(ds)
    ensures FoldDigits(acc, ds) >= acc
    decreases |ds|
  {
    if |ds| > 0 {
      FoldDigitsGrows(acc * 10 + DigitValue(ds[0]), ds[1..]);
    }
  }

  /**
   * The loop of `parseInt` after the sign: each digit is folded into the
   * magnitude, a non-digit is refused, and the value is refused as soon as it
   * has left the range on the side it grows towards.
   */
  function DigitLoop(ds: string, acc: nat, neg: bool, lo: int, hi: int): Option<int>
    decreases |ds|
  {
    if |ds| == 0 then
      if lo <= Signed(neg, acc) <= hi then Some(Signed(neg, acc)) else None
    else if !IsDigit(ds[0]) then None
    else
      var next := acc * 10 + DigitValue(ds[0]);
      if (neg && -next < lo) || (!neg && next > hi) then None
      else DigitLoop(ds[1..], next, neg, lo, hi)
  }

  /** The loop accepts exactly the digit strings whose signed value lies in `[lo, hi]`, and returns that value. */
  lemma {:induction false} DigitLoopMeaning(ds: string, acc: nat, neg: bool, lo: int, hi: int)
    ensures DigitLoop(ds, acc, neg, lo, hi) ==
            if AllDigits(ds) && lo <= Signed(neg, FoldDigits(acc, ds)) <= hi
            then Some(Signed(neg, FoldDigits(acc, ds))) else None
    decreases |ds|
  {
    if |ds| > 0 {
      if !IsDigit(ds[0]) {
        assert !AllDigits(ds);
      } else {
        var next := acc * 10 + DigitValue(ds[0]);
        assert AllDigits(ds) <==> AllDigits(ds[1..]) by {
          assert forall k :: 1 <= k < |ds| ==> ds[k] == ds[1..][k - 1];
        }
        DigitLoopMeaning(ds[1..], next, neg, lo, hi);
        if AllDigits(ds) {
          FoldDigitsGrows(next, ds[1..]);
        }
      }
    }
  }

  /** Started from zero, the loop returns the numeral's value when it is in range. */
  lemma DigitLoopFromZero(ds: string, neg: bool, lo: int, hi: int)
    ensures DigitLoop(ds, 0, neg, lo, hi) ==
            if AllDigits(ds) && lo <= Signed(neg, DigitsValue(ds)) <= hi
            then Some(Signed(neg, DigitsValue(ds))) else None
  {
    DigitLoopMeaning(ds, 0, neg, lo, hi);
    if AllDigits(ds) {
      FoldDigitsValue(ds);
    }
  }

  /**
   * Radix-10 parsing as `Integer.parseInt(s, 10)` does it when the range is
   * the 32-bit one: an optional sign, then the digit loop; an empty string or
   * a lone sign is refused. A result comes back exactly when `s` is a numeral
   * whose value lies in `[lo, hi]`; anything else is the
   * `NumberFormatException` path.
   */
  function ParseDecimal(s: string, lo: int, hi: int): (r: Option<int>)
    ensures r.Some? <==> IsNumeral(s) && lo <= NumeralValue(s) <= hi
    ensures r.Some? ==> lo <= r.value <= hi && r.value == NumeralValue(s)
  {
    var neg := |s| > 0 && s[0] == '-';
    var start := if |s| > 0 && (s[0] == '-' || s[0] == '+') then 1 else 0;
    if |s| == start then None
    else
      var ds := s[start..];
      DigitLoopFromZero(ds, neg, lo, hi);
      DigitLoop(ds, 0, neg, lo, hi)
  }

  function ParseInt(s: string): Option<int> {
    ParseDecimal(s, INT_MIN, INT_MAX)
  }

  function ParseLong(s: string): Option<int> {
    ParseDecimal(s, LONG_MIN, LONG_MAX)
  }

  /** Reading back the numeral of `n` gives `n`. */
  lemma {:induction false} DigitsValueShowNat(n: nat)
    ensures DigitsValue(ShowNat(n)) == n
  {
    if n >= 10 {
      var s := ShowNat(n);
      assert s[..|s| - 1] == ShowNat(n / 10);
      DigitsValueShowNat(n / 10);
    }
  }

  /** Parsing the printed form of `n` recovers `n` exactly when `n` is in range. */
  lemma ParseShowInt(n: int, lo: int, hi: int)
    ensures ParseDecimal(ShowInt(n), lo, hi) == if lo <= n <= hi then Some(n) else None
  {
    var s := ShowInt(n);
    if n < 0 {
      assert s[1..] == ShowNat(-n);
      DigitsValueShowNat(-n);
    } else {
      DigitsValueShowNat(n);
    }
  }
}
