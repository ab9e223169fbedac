/**
 * The e-mail pattern `^[^\s@]+@[^\s@]+\.[^\s@]+$` shared by the shopper page
 * and the signup page, as a hand-coded recogniser and as the regular
 * expression's own shape, proved equivalent.
 */
module EmailPattern {
  import opened Wrappers
  import opened Text

  /** `[^\s@]`: neither whitespace nor `@`. */
  predicate IsPartChar(c: char) {
    !IsSpace(c) && c != '@'
  }

  /** `[^\s@]+`. */
  predicate IsPart(s: string) {
    |s| >= 1 && forall i :: 0 <= i < |s| ==> IsPartChar(s[i])
  }

  /** The domain holds a `.` with at least one character on each side of it. */
  predicate HasInnerDot(d: string) {
    exists i :: 1 <= i < |d| - 1 && d[i] == '.'
  }

  predicate IsAt(c: char) {
    c == '@'
  }

  /**
   * The recogniser: split at the first `@`; the local part and the domain are
   * non-empty and free of whitespace and further `@`, and the domain is dotted.
   */
  predicate IsEmail(s: string) {
    match FirstIndex(s, IsAt)
    case None => false
    case Some(k) => IsPart(s[..k]) && IsPart(s[k + 1..]) && HasInnerDot(s[k + 1..])
  }

  /** The regular expression read literally: part, `@`, part, `.`, part, and nothing else. */
  ghost predicate MatchesEmailRegex(s: string) {
    exists i, j :: 0 < i && i + 1 < j && j + 1 < |s| && s[i] == '@' && s[j] == '.'
                   && IsPart(s[..i]) && IsPart(s[i + 1..j]) && IsPart(s[j + 1..])
  }

  /** Every string the recogniser accepts matches the regular expression. */
  lemma {:induction false} IsEmailSound(s: string)
    requires IsEmail(s)
    ensures MatchesEmailRegex(s)
  {
    var k := FirstIndex(s, IsAt).value;
    var d := s[k + 1..];
    var m :| 1 <= m < |d| - 1 && d[m] == '.';
    var j := k + 1 + m;
    assert s[k + 1..j] == d[..m];
    assert s[j + 1..] == d[m + 1..];
    assert s[k] == '@' && s[j] == '.';
  }

  /** The domain after an `@` is one part, a `.`, and another part. */
  lemma {:induction false} DottedDomain(d: string, m: nat)
    requires 1 <= m < |d| - 1 && d[m] == '.'
    requires IsPart(d[..m]) && IsPart(d[m + 1..])
    ensures IsPart(d) && HasInnerDot(d)
  {
    forall x | 0 <= x < |d| ensures IsPartChar(d[x]) {
      if x < m {
        assert d[x] == d[..m][x];
      } else if x > m {
        assert d[x] == d[m + 1..][x - m - 1];
      }
    }
  }

  /** An `@` with none before it is the one the recogniser splits at. */
  lemma {:induction false} FirstAt(s: string, i: nat)
    requires i < |s| && s[i] == '@'
    requires forall x :: 0 <= x < i ==> s[x] != '@'
    ensures FirstIndex(s, IsAt) == Some(i)
  {
    assert IsAt(s[i]);
  }

  /** Every string the regular expression matches is accepted by the recogniser. */
  lemma {:induction false} IsEmailComplete(s: string)
    requires MatchesEmailRegex(s)
    ensures IsEmail(s)
  {
    var i, j :| 0 < i && i + 1 < j && j + 1 < |s| && s[i] == '@' && s[j] == '.'
                && IsPart(s[..i]) && IsPart(s[i + 1..j]) && IsPart(s[j + 1..]);
    NoAtInPart(s, i);
    FirstAt(s, i);
    DomainAfterAt(s, i, j);
  }

  /** A part before index `i` holds no `@`. */
  lemma {:induction false} NoAtInPart(s: string, i: nat)
    requires i <= |s| && IsPart(s[..i])
    ensures forall x :: 0 <= x < i ==> s[x] != '@'
  {
    forall x | 0 <= x < i ensures s[x] != '@' {
      assert s[x] == s[..i][x];
    }
  }

  /** The text after the `@` at `i`, with parts around the `.` at `j`, is a dotted domain. */
  lemma {:induction false} DomainAfterAt(s: string, i: nat, j: nat)
    requires i + 1 < j && j + 1 < |s| && s[j] == '.'
    requires IsPart(s[i + 1..j]) && IsPart(s[j + 1..])
    ensures IsPart(s[i + 1..]) && HasInnerDot(s[i + 1..])
  {
    var d := s[i + 1..];
    var m := j - i - 1;
    assert d[..m] == s[i + 1..j];
    assert d[m + 1..] == s[j + 1..];
    DottedDomain(d, m);
  }

  /** The recogniser accepts exactly the strings the regular expression matches. */
  lemma {:induction false} IsEmailIff(s: string)
    ensures IsEmail(s) <==> MatchesEmailRegex(s)
  {
    if IsEmail(s) { IsEmailSound(s); }
    if MatchesEmailRegex(s) { IsEmailComplete(s); }
  }
}
