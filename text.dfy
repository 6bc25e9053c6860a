/** The two string operations the filter pipeline relies on:
    `String.prototype.toLowerCase` (restricted to ASCII) and
    `String.prototype.includes`. */
module Text {

  predicate IsUpperAscii(c: char) { 'A' <= c <= 'Z' }

  predicate IsAsciiLetter(c: char) { 'A' <= c <= 'Z' || 'a' <= c <= 'z' }

  /** c and d are the same character, or the capital and the small form
      of one ASCII letter ('A' and 'a' are 32 code points apart). */
  predicate SameIgnoringCase(c: char, d: char) {
    c == d
    || (IsUpperAscii(c) && d as int == c as int + 32)
    || (IsUpperAscii(d) && c as int == d as int + 32)
  }

  /** Two texts of equal length that agree character by character up to
      the case of ASCII letters. */
  predicate EqualIgnoringAsciiCase(s: string, t: string) {
    |s| == |t| && forall i :: 0 <= i < |s| ==> SameIgnoringCase(s[i], t[i])
  }

  /** Lower-cases one character: the result is the same letter as c up to
      case, and never a capital. Every character that is not an ASCII
      capital (Hangul among them) is left as it is. */
  function LowerChar(c: char): (r: char)
    ensures SameIgnoringCase(r, c) && !IsUpperAscii(r)
    ensures IsUpperAscii(c) <==> r != c
  {
    if IsUpperAscii(c) then (c as int + 32) as char else c
  }

  /** Lower-cases a text character by character. */
  function Lower(s: string): (r: string)
    ensures |r| == |s|
    ensures forall i :: 0 <= i < |s| ==> SameIgnoringCase(r[i], s[i]) && !IsUpperAscii(r[i])
  {
    seq(|s|, i requires 0 <= i < |s| => LowerChar(s[i]))
  }

  /** Two characters lower-case alike iff they are the same letter up to
      case. */
  lemma LowerCharAgree(c: char, d: char)
    ensures LowerChar(c) == LowerChar(d) <==> SameIgnoringCase(c, d)
  {
  }

  /** Two texts lower-case alike iff they are equal up to ASCII case: this
      is what makes the title and director searches case-insensitive. */
  lemma LowerAgree(s: string, t: string)
    ensures Lower(s) == Lower(t) <==> EqualIgnoringAsciiCase(s, t)
  {
    if Lower(s) == Lower(t) {
      forall i | 0 <= i < |s|
        ensures SameIgnoringCase(s[i], t[i])
      {
        assert Lower(s)[i] == Lower(t)[i];
        LowerCharAgree(s[i], t[i]);
      }
    }
    if EqualIgnoringAsciiCase(s, t) {
      forall i | 0 <= i < |s|
        ensures Lower(s)[i] == Lower(t)[i]
      {
        LowerCharAgree(s[i], t[i]);
      }
    }
  }

  /** Lower-casing twice is lower-casing once. */
  lemma LowerIdempotent(s: string)
    ensures Lower(Lower(s)) == Lower(s)
  {
    assert forall i :: 0 <= i < |s| ==> Lower(Lower(s))[i] == Lower(s)[i];
  }

  /** A string without ASCII capitals is its own lower-case form; this
      covers Korean text, which has no case. */
  lemma LowerNoUpper(s: string)
    requires forall i :: 0 <= i < |s| ==> !IsUpperAscii(s[i])
    ensures Lower(s) == s
  {
  }

  /** A character that is not an ASCII letter occurs in the lower-case
      form exactly when it occurs in the original. */
  lemma LowerKeepsNonLetter(s: string, c: char)
    requires !IsAsciiLetter(c)
    ensures c in Lower(s) <==> c in s
  {
    if c in Lower(s) {
      var i :| 0 <= i < |s| && Lower(s)[i] == c;
      assert s[i] == c;
    }
    if c in s {
      var i :| 0 <= i < |s| && s[i] == c;
      assert Lower(s)[i] == c;
    }
  }

  predicate IsPrefix(p: string, s: string) {
    |p| <= |s| && s[..|p|] == p
  }

  /** `s.includes(q)`: q occurs somewhere in s (the empty string occurs
      in every string). */
  predicate Contains(s: string, q: string)
    decreases |s|
  {
    IsPrefix(q, s) || (|s| > 0 && Contains(s[1..], q))
  }

  /** Reference definition of an occurrence: q sits in s at index i. */
  ghost predicate OccursAt(s: string, q: string, i: int) {
    0 <= i && i + |q| <= |s| && s[i..i + |q|] == q
  }

  lemma {:induction false} ContainsIffOccurs(s: string, q: string)
    ensures Contains(s, q) <==> exists i :: OccursAt(s, q, i)
    decreases |s|
  {
    if IsPrefix(q, s) {
      assert OccursAt(s, q, 0);
    } else if |s| > 0 {
      ContainsIffOccurs(s[1..], q);
      if exists i :: OccursAt(s[1..], q, i) {
        var i :| OccursAt(s[1..], q, i);
        assert s[1..][i..i + |q|] == s[i + 1..i + 1 + |q|];
        assert OccursAt(s, q, i + 1);
      }
      if exists i :: OccursAt(s, q, i) {
        var i :| OccursAt(s, q, i);
        assert i != 0;
        assert s[1..][i - 1..i - 1 + |q|] == s[i..i + |q|];
        assert OccursAt(s[1..], q, i - 1);
      }
    }
  }

  /** A non-empty query whose first character is absent from s does not
      occur in s. */
  lemma {:induction false} NotContainsWithoutFirst(s: string, q: string)
    requires |q| > 0 && q[0] !in s
    ensures !Contains(s, q)
    decreases |s|
  {
    if |s| > 0 {
      assert forall c :: c in s[1..] ==> c in s;
      NotContainsWithoutFirst(s[1..], q);
    }
  }
}
