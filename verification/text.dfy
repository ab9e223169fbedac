/**
 * String primitives the pages rely on: ECMAScript whitespace and `trim`,
 * ASCII lower-casing, `includes`, decimal digits and `String(n)`.
 */
module Text {

  /** ECMAScript WhiteSpace and LineTerminator code points: what `trim` strips and `\s` matches. */
  predicate IsSpace(c: char) {
    || c == '\t' || c == '\n' || c == '\U{000B}' || c == '\U{000C}' || c == '\r'
    || c == ' ' || c == '\U{00A0}' || c == '\U{1680}' || ('\U{2000}' <= c <= '\U{200A}')
    || c == '\U{2028}' || c == '\U{2029}' || c == '\U{202F}' || c == '\U{205F}'
    || c == '\U{3000}' || c == '\U{FEFF}'
  }

  predicate AllSpace(s: string) {
    forall i :: 0 <= i < |s| ==> IsSpace(s[i])
  }

  /** Neither end of `s` is whitespace: what `trim` produces. */
  predicate IsTrimmed(s: string) {
    s == [] || (!IsSpace(s[0]) && !IsSpace(s[|s| - 1]))
  }

  /** The first index at or after `i` that is not whitespace (or `|s|`). */
  function SkipSpace(s: string, i: nat): (r: nat)
    requires i <= |s|
    ensures i <= r <= |s|
    ensures forall j :: i <= j < r ==> IsSpace(s[j])
    ensures r == |s| || !IsSpace(s[r])
    decreases |s| - i
  {
    if i < |s| && IsSpace(s[i]) then SkipSpace(s, i + 1) else i
  }

  /** The end of `s[lo..hi]` once its trailing whitespace is dropped. */
  function BackSpace(s: string, lo: nat, hi: nat): (r: nat)
    requires lo <= hi <= |s|
    ensures lo <= r <= hi
    ensures forall j :: r <= j < hi ==> IsSpace(s[j])
    ensures r == lo || !IsSpace(s[r - 1])
    decreases hi - lo
  {
    if lo < hi && IsSpace(s[hi - 1]) then BackSpace(s, lo, hi - 1) else hi
  }

  /** `String.prototype.trim`: leading and trailing whitespace removed. */
  function Trim(s: string): (r: string)
    ensures IsTrimmed(r)
    ensures |r| <= |s|
  {
    var lo := SkipSpace(s, 0);
    s[lo..BackSpace(s, lo, |s|)]
  }

  /** `SkipSpace` stops exactly at the first non-whitespace index. */
  lemma {:induction false} SkipSpaceAt(s: string, i: nat, k: nat)
    requires i <= k <= |s|
    requires forall j :: i <= j < k ==> IsSpace(s[j])
    requires k == |s| || !IsSpace(s[k])
    ensures SkipSpace(s, i) == k
    decreases k - i
  {
    if i < k {
      SkipSpaceAt(s, i + 1, k);
    }
  }

  /** `BackSpace` stops exactly after the last non-whitespace index. */
  lemma {:induction false} BackSpaceAt(s: string, lo: nat, hi: nat, k: nat)
    requires lo <= k <= hi <= |s|
    requires forall j :: k <= j < hi ==> IsSpace(s[j])
    requires k == lo || !IsSpace(s[k - 1])
    ensures BackSpace(s, lo, hi) == k
    decreases hi - k
  {
    if k < hi {
      BackSpaceAt(s, lo, hi - 1, k);
    }
  }

  /** What `trim` removed is whitespace on either side of the result. */
  lemma {:induction false} TrimShape(s: string)
    ensures exists i :: 0 <= i <= |s| - |Trim(s)| && Trim(s) == s[i..i + |Trim(s)|]
                        && AllSpace(s[..i]) && AllSpace(s[i + |Trim(s)|..])
  {
    var lo := SkipSpace(s, 0);
    var hi := BackSpace(s, lo, |s|);
    assert AllSpace(s[..lo]);
    assert AllSpace(s[hi..]);
  }

  /** Trimming is determined by the padding: whitespace around a trimmed core is exactly what goes. */
  lemma {:induction false} TrimPadded(p: string, m: string, q: string)
    requires AllSpace(p) && AllSpace(q) && IsTrimmed(m)
    ensures Trim(p + m + q) == m
  {
    var s := p + m + q;
    assert forall j :: 0 <= j < |p| ==> s[j] == p[j];
    assert forall j :: |p| + |m| <= j < |s| ==> s[j] == q[j - |p| - |m|];
    if m == [] {
      SkipSpaceAt(s, 0, |s|);
      assert s[|s|..|s|] == m;
    } else {
      assert s[|p|] == m[0] && s[|p| + |m| - 1] == m[|m| - 1];
      SkipSpaceAt(s, 0, |p|);
      BackSpaceAt(s, |p|, |s|, |p| + |m|);
      assert s[|p|..|p| + |m|] == m;
    }
  }

  /** A string with no whitespace at its ends is left unchanged. */
  lemma {:induction false} TrimmedUnchanged(t: string)
    requires IsTrimmed(t)
    ensures Trim(t) == t
  {
    assert [] + t + [] == t;
    TrimPadded([], t, []);
  }

  lemma {:induction false} TrimIdempotent(s: string)
    ensures Trim(Trim(s)) == Trim(s)
  {
    TrimmedUnchanged(Trim(s));
  }

  /** A value is blank after trimming exactly when it is made only of whitespace. */
  lemma {:induction false} TrimEmptyIff(s: string)
    ensures Trim(s) == [] <==> AllSpace(s)
  {
    var lo := SkipSpace(s, 0);
    if AllSpace(s) {
      SkipSpaceAt(s, 0, |s|);
    }
  }

  /** `toLowerCase` on one character, restricted to the ASCII letters. */
  function LowerChar(c: char): char {
    if 'A' <= c <= 'Z' then (c as int + 32) as char else c
  }

  /** `String.prototype.toLowerCase`, ASCII letters only. */
  function ToLower(s: string): (r: string)
    ensures |r| == |s|
    ensures forall i :: 0 <= i < |s| ==> r[i] == LowerChar(s[i])
  {
    seq(|s|, i requires 0 <= i < |s| => LowerChar(s[i]))
  }

  /** `needle` occurs in `hay` starting at index `i`. */
  predicate OccursAt(hay: string, needle: string, i: int) {
    0 <= i && i + |needle| <= |hay| && hay[i..i + |needle|] == needle
  }

  /** `String.prototype.includes`, as the left-to-right scan that tries each start position. */
  function Includes(hay: string, needle: string): bool
    decreases |hay|
  {
    if |needle| > |hay| then false
    else if needle <= hay then true
    else Includes(hay[1..], needle)
  }

  /** The scan finds the needle exactly when it occurs at some position. */
  lemma {:induction false} IncludesIff(hay: string, needle: string)
    ensures Includes(hay, needle) <==> exists i :: OccursAt(hay, needle, i)
    decreases |hay|
  {
    if |needle| > |hay| {
    } else if needle <= hay {
      assert OccursAt(hay, needle, 0);
    } else {
      IncludesIff(hay[1..], needle);
      if Includes(hay[1..], needle) {
        var i :| OccursAt(hay[1..], needle, i);
        assert hay[i + 1..i + 1 + |needle|] == hay[1..][i..i + |needle|];
        assert OccursAt(hay, needle, i + 1);
      }
      if exists i :: OccursAt(hay, needle, i) {
        var i :| OccursAt(hay, needle, i);
        assert i != 0;
        assert hay[1..][i - 1..i - 1 + |needle|] == hay[i..i + |needle|];
        assert OccursAt(hay[1..], needle, i - 1);
      }
    }
  }

  predicate IsDigit(c: char) {
    '0' <= c <= '9'
  }

  predicate AllDigits(s: string) {
    forall i :: 0 <= i < |s| ==> IsDigit(s[i])
  }

  function DigitValue(c: char): nat
    requires IsDigit(c)
  {
    c as int - '0' as int
  }

  function DigitChar(d: nat): (c: char)
    requires d < 10
    ensures IsDigit(c) && DigitValue(c) == d
  {
    ('0' as int + d) as char
  }

  /** The value of a string of decimal digits, most significant first. */
  function DigitsValue(s: string): nat
    requires AllDigits(s)
  {
    if s == [] then 0 else DigitsValue(s[..|s| - 1]) * 10 + DigitValue(s[|s| - 1])
  }

  function Pow10(k: nat): (r: nat)
    ensures r >= 1
  {
    if k == 0 then 1 else 10 * Pow10(k - 1)
  }

  /** Length of the longest all-digit prefix of `s`. */
  function DigitRun(s: string): (n: nat)
    ensures n <= |s| && AllDigits(s[..n])
    ensures n == |s| || !IsDigit(s[n])
  {
    if s == [] || !IsDigit(s[0]) then 0
    else
      var n := DigitRun(s[1..]);
      assert s[..n + 1] == [s[0]] + s[1..][..n];
      n + 1
  }

  /** A digit string in canonical form: no leading zero unless it is exactly "0". */
  predicate IsCanonicalDigits(s: string) {
    |s| >= 1 && AllDigits(s) && (s[0] == '0' ==> |s| == 1)
  }

  /** `String(n)` for a non-negative integer: its decimal representation. */
  function NatToString(n: nat): (r: string)
    ensures IsCanonicalDigits(r)
    ensures DigitsValue(r) == n
  {
    if n < 10 then [DigitChar(n)]
    else
      var r := NatToString(n / 10) + [DigitChar(n % 10)];
      assert r[..|r| - 1] == NatToString(n / 10);
      r
  }

  /** A canonical digit string is a positive number unless it is "0". */
  lemma {:induction false} CanonicalPositive(s: string)
    requires IsCanonicalDigits(s) && s[0] != '0'
    ensures DigitsValue(s) >= 1
    decreases |s|
  {
    if |s| > 1 {
      CanonicalPositive(s[..|s| - 1]);
    }
  }

  /** Decimal representation is unique: a canonical digit string is `String` of its own value. */
  lemma {:induction false} CanonicalIsNatToString(s: string)
    requires IsCanonicalDigits(s)
    ensures NatToString(DigitsValue(s)) == s
    decreases |s|
  {
    if |s| > 1 {
      var init := s[..|s| - 1];
      var last := s[|s| - 1];
      assert IsCanonicalDigits(init);
      CanonicalPositive(init);
      CanonicalIsNatToString(init);
      var m := DigitsValue(init);
      var d := DigitValue(last);
      assert DigitsValue(s) == m * 10 + d;
      DivModDigit(m, d);
      assert DigitChar(d) == last;
      assert s == init + [last];
    }
  }

  lemma DivModDigit(m: nat, d: nat)
    requires d < 10
    ensures (m * 10 + d) / 10 == m && (m * 10 + d) % 10 == d
  {
  }

  /** `String(n)` is injective. */
  lemma NatToStringInjective(a: nat, b: nat)
    requires NatToString(a) == NatToString(b)
    ensures a == b
  {
  }

  /** Leading zeros do not change the value of a digit string. */
  lemma {:induction false} LeadingZerosValue(z: string, d: string)
    requires forall i :: 0 <= i < |z| ==> z[i] == '0'
    requires AllDigits(d)
    ensures AllDigits(z + d) && DigitsValue(z + d) == DigitsValue(d)
    decreases |z| + |d|
  {
    assert AllDigits(z + d) by {
      forall i | 0 <= i < |z + d| ensures IsDigit((z + d)[i]) {
        if i < |z| { assert (z + d)[i] == z[i]; } else { assert (z + d)[i] == d[i - |z|]; }
      }
    }
    if d == [] {
      assert z + d == z;
      if z != [] {
        assert z[..|z| - 1] + [] == z[..|z| - 1];
        LeadingZerosValue(z[..|z| - 1], []);
      }
    } else {
      assert (z + d)[..|z + d| - 1] == z + d[..|d| - 1];
      LeadingZerosValue(z, d[..|d| - 1]);
    }
  }

  /** A digit string of length `n` is below 10 to the `n`. */
  lemma {:induction false} DigitsValueBound(s: string)
    requires AllDigits(s)
    ensures DigitsValue(s) < Pow10(|s|)
    decreases |s|
  {
    if s != [] {
      DigitsValueBound(s[..|s| - 1]);
    }
  }

  /** The value of two digit strings written one after the other. */
  lemma {:induction false} DigitsValueConcat(a: string, b: string)
    requires AllDigits(a) && AllDigits(b)
    ensures AllDigits(a + b) && DigitsValue(a + b) == DigitsValue(a) * Pow10(|b|) + DigitsValue(b)
    decreases |b|
  {
    AllDigitsConcat(a, b);
    if b == [] {
      assert a + b == a;
    } else {
      var ab := a + b;
      var init := b[..|b| - 1];
      var d := DigitValue(b[|b| - 1]);
      assert AllDigits(init);
      AllDigitsConcat(a, init);
      var m := DigitsValue(a + init);
      assert DigitsValue(ab) == m * 10 + d by {
        assert ab[..|ab| - 1] == a + init;
        assert ab[|ab| - 1] == b[|b| - 1];
      }
      DigitsValueConcat(a, init);
      ShiftDigit(DigitsValue(ab), m, DigitsValue(a), Pow10(|init|), DigitsValue(init), d,
                 DigitsValue(b), Pow10(|b|));
    }
  }

  lemma {:induction false} AllDigitsConcat(a: string, b: string)
    requires AllDigits(a) && AllDigits(b)
    ensures AllDigits(a + b)
  {
    forall i | 0 <= i < |a + b| ensures IsDigit((a + b)[i]) {
      if i < |a| { assert (a + b)[i] == a[i]; } else { assert (a + b)[i] == b[i - |a|]; }
    }
  }

  /** Appending a digit to `b` in `a + b` shifts the value of `a` one place further. */
  lemma ShiftDigit(v: int, m: int, x: int, p: int, y: int, d: int, vb: int, pb: int)
    requires v == m * 10 + d && m == x * p + y
    requires vb == y * 10 + d && pb == 10 * p
    ensures v == x * pb + vb
  {
  }

  /** A string of `n` copies of `c`. */
  function Repeat(c: char, n: nat): (r: string)
    ensures |r| == n && forall i :: 0 <= i < n ==> r[i] == c
  {
    if n == 0 then [] else Repeat(c, n - 1) + [c]
  }

  /** `String.prototype.padStart(width, c)` with a one-character pad. */
  function PadStart(s: string, width: nat, c: char): (r: string)
    ensures |r| == if |s| >= width then |s| else width
    ensures r[|r| - |s|..] == s
    ensures forall i :: 0 <= i < |r| - |s| ==> r[i] == c
  {
    if |s| >= width then s else Repeat(c, width - |s|) + s
  }
}
