/**
 * The string operations the analysis script relies on, restricted to what it
 * uses: `str.upper()` on ASCII text, the ordering of strings that `sorted`
 * applies (code point by code point, a proper prefix first), and
 * `str.replace(pattern, '')`.
 */
module Text {

  predicate IsLower(c: char) {
    'a' <= c <= 'z'
  }

  /** `str.upper()` on one character; only the ASCII letters change. */
  function UpperChar(c: char): (u: char)
    ensures !IsLower(u)
    ensures u == c || IsLower(c)
    ensures IsLower(c) ==> 'A' <= u <= 'Z' && u as int - 'A' as int == c as int - 'a' as int
  {
    if IsLower(c) then (c as int - 32) as char else c
  }

  /** `str.upper()` on ASCII text. */
  function Upper(s: string): (r: string)
    ensures |r| == |s|
    ensures forall i :: 0 <= i < |r| ==> !IsLower(r[i])
    ensures forall i :: 0 <= i < |r| ==> r[i] == UpperChar(s[i])
  {
    if s == [] then [] else [UpperChar(s[0])] + Upper(s[1..])
  }

  /** `a` and `b` are the same letter up to ASCII case, or the same character. */
  predicate SameIgnoringCase(a: char, b: char) {
    || a == b
    || (IsLower(a) && b as int == a as int - ('a' as int - 'A' as int))
    || (IsLower(b) && a as int == b as int - ('a' as int - 'A' as int))
  }

  /**
   * Two strings upper-case to the same string exactly when they agree
   * character by character up to ASCII case.
   */
  lemma {:induction false} UpperEqualIff(s: string, t: string)
    ensures Upper(s) == Upper(t) <==>
      |s| == |t| && forall i :: 0 <= i < |s| ==> SameIgnoringCase(s[i], t[i])
  {
    if |s| == |t| && forall i :: 0 <= i < |s| ==> SameIgnoringCase(s[i], t[i]) {
      forall i | 0 <= i < |s|
        ensures Upper(s)[i] == Upper(t)[i]
      {
      }
    }
    if Upper(s) == Upper(t) {
      forall i | 0 <= i < |s|
        ensures SameIgnoringCase(s[i], t[i])
      {
        assert UpperChar(s[i]) == UpperChar(t[i]);
      }
    }
  }

  /** Upper-casing twice is upper-casing once. */
  lemma {:induction false} UpperIdempotent(s: string)
    ensures Upper(Upper(s)) == Upper(s)
  {
  }

  /** Python's `a < b` on strings. */
  predicate Less(a: string, b: string)
  {
    if |a| == 0 then |b| > 0
    else if |b| == 0 then false
    else if a[0] != b[0] then a[0] < b[0]
    else Less(a[1..], b[1..])
  }

  /**
   * `Less` is the lexicographic order: either `a` is a proper prefix of `b`,
   * or the two agree up to some position where `a` has the smaller character.
   */
  lemma {:induction false} LessIsLexicographic(a: string, b: string)
    ensures Less(a, b) <==>
      (|a| < |b| && a == b[..|a|]) ||
      (exists k :: 0 <= k < |a| && k < |b| && a[..k] == b[..k] && a[k] < b[k])
  {
    if |a| == 0 || |b| == 0 {
    } else if a[0] != b[0] {
      if a[0] < b[0] {
        assert a[..0] == b[..0];
      }
    } else {
      LessIsLexicographic(a[1..], b[1..]);
      if |a| < |b| && a == b[..|a|] {
        assert a[1..] == b[1..][..|a| - 1];
      }
      if |a| - 1 < |b| - 1 && a[1..] == b[1..][..|a| - 1] {
        assert b[..|a|] == [b[0]] + b[1..][..|a| - 1];
      }
      if exists k :: 0 <= k < |a| && k < |b| && a[..k] == b[..k] && a[k] < b[k] {
        var k :| 0 <= k < |a| && k < |b| && a[..k] == b[..k] && a[k] < b[k];
        assert k > 0;
        assert a[1..][..k - 1] == a[1..k] == b[1..k] == b[1..][..k - 1];
        assert a[1..][k - 1] < b[1..][k - 1];
      }
      if exists k :: 0 <= k < |a| - 1 && k < |b| - 1 && a[1..][..k] == b[1..][..k] && a[1..][k] < b[1..][k] {
        var k :| 0 <= k < |a| - 1 && k < |b| - 1 && a[1..][..k] == b[1..][..k] && a[1..][k] < b[1..][k];
        assert a[..k + 1] == [a[0]] + a[1..][..k];
        assert a[k + 1] < b[k + 1];
      }
    }
  }

  lemma {:induction false} LessIrreflexive(a: string)
    ensures !Less(a, a)
  {
    if |a| > 0 {
      LessIrreflexive(a[1..]);
    }
  }

  lemma {:induction false} LessTransitive(a: string, b: string, c: string)
    requires Less(a, b) && Less(b, c)
    ensures Less(a, c)
  {
    if |a| > 0 && a[0] == b[0] && b[0] == c[0] {
      LessTransitive(a[1..], b[1..], c[1..]);
    }
  }

  /** Any two different strings are ordered one way or the other. */
  lemma {:induction false} LessTotal(a: string, b: string)
    ensures a == b || Less(a, b) || Less(b, a)
  {
    if |a| > 0 && |b| > 0 && a[0] == b[0] {
      LessTotal(a[1..], b[1..]);
      if a[1..] == b[1..] {
        assert a == [a[0]] + a[1..];
      }
    }
  }

  /** "Not less than" is transitive, so `sorted` output can be checked pairwise. */
  lemma {:induction false} NotLessTransitive(a: string, b: string, c: string)
    requires !Less(b, a) && !Less(c, b)
    ensures !Less(c, a)
  {
    LessTotal(a, b);
    LessTotal(b, c);
    if Less(c, a) {
      if a != b && b != c {
        LessTransitive(a, b, c);
        LessTransitive(a, c, a);
        LessIrreflexive(a);
      } else if a == b {
        LessTransitive(b, c, b);
        LessIrreflexive(b);
      } else {
        LessTransitive(a, b, a);
        LessIrreflexive(a);
      }
    }
  }

  /** `pattern` occurs somewhere in `s`. */
  predicate Contains(s: string, pattern: string)
  {
    |pattern| <= |s| && (s[..|pattern|] == pattern || (|s| > 0 && Contains(s[1..], pattern)))
  }

  /**
   * `s.replace(pattern, '')`: scanning from the left, every occurrence of
   * `pattern` that does not overlap an earlier one is removed. An empty
   * pattern removes nothing.
   */
  function RemoveAll(s: string, pattern: string): (r: string)
    ensures |r| <= |s|
    ensures !Contains(s, pattern) ==> r == s
    ensures |pattern| == 0 ==> r == s
    decreases |s|
  {
    if |pattern| == 0 || |s| < |pattern| then s
    else if s[..|pattern|] == pattern then RemoveAll(s[|pattern|..], pattern)
    else [s[0]] + RemoveAll(s[1..], pattern)
  }

  /**
   * The first occurrence of `p` is removed and the scan resumes after it:
   * when no occurrence of `p` starts inside `a` (none lies in `a` followed by
   * all but the last character of `p`), `a + p + b` loses exactly that `p`.
   */
  lemma {:induction false} RemoveAllFirst(a: string, p: string, b: string)
    requires |p| > 0 && !Contains(a + p[..|p| - 1], p)
    ensures RemoveAll(a + p + b, p) == a + RemoveAll(b, p)
  {
    var s := a + p + b;
    if a == [] {
      assert s == p + b;
      assert s[|p|..] == b;
    } else {
      var x := a + p[..|p| - 1];
      assert x[1..] == a[1..] + p[..|p| - 1];
      assert s[..|p|] == x[..|p|];
      assert s[1..] == a[1..] + p + b;
      RemoveAllFirst(a[1..], p, b);
      RemoveAllKeepsHead(s, p);
      assert a == [a[0]] + a[1..];
    }
  }

  /** A character where no occurrence of `p` starts is kept, and the scan moves on by one. */
  lemma {:induction false} RemoveAllKeepsHead(s: string, p: string)
    requires |p| > 0 && |p| <= |s| && s[..|p|] != p
    ensures RemoveAll(s, p) == [s[0]] + RemoveAll(s[1..], p)
  {
  }
}
