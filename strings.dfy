/**
 * The JavaScript string operations the query engine relies on: relational
 * comparison (`<`, `>`), `toLowerCase` and `includes`.
 */
module Strings {

  // ---------------------------------------------------------------------------
  // Relational comparison
  // ---------------------------------------------------------------------------

  /** `a` and `b` agree before index `k` and differ at `k`, with `a[k] < b[k]`. */
  ghost predicate FirstDifferenceLess(a: string, b: string, k: int)
  {
    0 <= k < |a| && k < |b| && a[..k] == b[..k] && a[k] < b[k]
  }

  /**
   * JavaScript's `a < b` on two strings: `a` is a proper prefix of `b`, or at
   * the first index where they differ `a` holds the smaller character.
   */
  ghost predicate Less(a: string, b: string)
  {
    (|a| < |b| && a == b[..|a|]) || exists k :: FirstDifferenceLess(a, b, k)
  }

  /** Lexicographic "at most", decided character by character. */
  predicate AtMost(a: string, b: string)
  {
    if |a| == 0 then true
    else if |b| == 0 then false
    else if a[0] != b[0] then a[0] < b[0]
    else AtMost(a[1..], b[1..])
  }

  lemma {:induction false} LessTail(a: string, b: string)
    requires |a| > 0 && |b| > 0 && a[0] == b[0]
    ensures Less(a, b) <==> Less(a[1..], b[1..])
  {
    if exists k :: FirstDifferenceLess(a, b, k) {
      var k :| FirstDifferenceLess(a, b, k);
      assert k != 0;
      assert a[1..][..k - 1] == a[1..k] && b[1..][..k - 1] == b[1..k];
      assert FirstDifferenceLess(a[1..], b[1..], k - 1);
    }
    if exists k :: FirstDifferenceLess(a[1..], b[1..], k) {
      var k :| FirstDifferenceLess(a[1..], b[1..], k);
      assert a[..k + 1] == [a[0]] + a[1..][..k];
      assert b[..k + 1] == [b[0]] + b[1..][..k];
      assert FirstDifferenceLess(a, b, k + 1);
    }
    if |a| < |b| && a == b[..|a|] {
      assert a[1..] == b[..|a|][1..];
      assert b[..|a|][1..] == b[1..][..|a| - 1];
    }
    if |a| - 1 < |b| - 1 && a[1..] == b[1..][..|a| - 1] {
      assert a == [a[0]] + a[1..] && b[..|a|] == [b[0]] + b[1..][..|a| - 1];
    }
  }

  /** The character-by-character order is exactly "not greater" in JavaScript's sense. */
  lemma {:induction false} AtMostIffNotGreater(a: string, b: string)
    ensures AtMost(a, b) <==> !Less(b, a)
  {
    if |a| == 0 {
      assert !(exists k :: FirstDifferenceLess(b, a, k));
    } else if |b| == 0 {
      assert b == a[..0];
    } else if a[0] != b[0] {
      if b[0] < a[0] {
        assert b[..0] == a[..0];
        assert FirstDifferenceLess(b, a, 0);
      } else {
        assert forall k :: 0 < k < |b| && k < |a| ==> b[..k][0] == b[0] && a[..k][0] == a[0];
        assert !(exists k :: FirstDifferenceLess(b, a, k));
        assert |b| < |a| ==> b[0] != a[..|b|][0];
      }
    } else {
      AtMostIffNotGreater(a[1..], b[1..]);
      LessTail(b, a);
    }
  }

  lemma {:induction false} AtMostTotal(a: string, b: string)
    ensures AtMost(a, b) || AtMost(b, a)
  {
    if |a| > 0 && |b| > 0 && a[0] == b[0] {
      AtMostTotal(a[1..], b[1..]);
    }
  }

  lemma {:induction false} AtMostTransitive(a: string, b: string, c: string)
    requires AtMost(a, b) && AtMost(b, c)
    ensures AtMost(a, c)
  {
    if |a| > 0 && |b| > 0 && |c| > 0 && a[0] == b[0] && b[0] == c[0] {
      AtMostTransitive(a[1..], b[1..], c[1..]);
    }
  }

  // ---------------------------------------------------------------------------
  // toLowerCase
  // ---------------------------------------------------------------------------

  function LowerChar(c: char): char
  {
    if IsUpper(c) then (c as int + 32) as char else c
  }

  predicate IsUpper(c: char)
  {
    'A' <= c <= 'Z'
  }

  /** `a` and `b` are the same character up to the case of an ASCII letter. */
  predicate SameUpToCase(a: char, b: char)
  {
    a == b
    || (IsUpper(a) && b as int == a as int + 32)
    || (IsUpper(b) && a as int == b as int + 32)
  }

  /**
   * `s.toLowerCase()`, restricted to the ASCII letters: no capital is left,
   * every other character stays where it was, and each character keeps its
   * case-insensitive identity.
   */
  function Lower(s: string): (r: string)
    ensures |r| == |s|
    ensures forall i :: 0 <= i < |r| ==> !IsUpper(r[i])
    ensures forall i :: 0 <= i < |s| && !IsUpper(s[i]) ==> r[i] == s[i]
    ensures forall i :: 0 <= i < |s| ==> SameUpToCase(s[i], r[i])
  {
    seq(|s|, i requires 0 <= i < |s| => LowerChar(s[i]))
  }

  /** Two characters lower-case alike exactly when they differ at most in ASCII case. */
  lemma LowerCharSame(a: char, b: char)
    ensures LowerChar(a) == LowerChar(b) <==> SameUpToCase(a, b)
  {
  }

  /**
   * Lower-casing is case-insensitive comparison: two strings lower-case to
   * the same string exactly when they differ only in the case of ASCII
   * letters.
   */
  lemma LowerSameIffUpToCase(s: string, t: string)
    ensures Lower(s) == Lower(t) <==> |s| == |t| && forall i :: 0 <= i < |s| ==> SameUpToCase(s[i], t[i])
  {
    if Lower(s) == Lower(t) {
      forall i | 0 <= i < |s|
        ensures SameUpToCase(s[i], t[i])
      {
        assert Lower(s)[i] == Lower(t)[i];
        LowerCharSame(s[i], t[i]);
      }
    }
    if |s| == |t| && forall i :: 0 <= i < |s| ==> SameUpToCase(s[i], t[i]) {
      forall i | 0 <= i < |s|
        ensures Lower(s)[i] == Lower(t)[i]
      {
        LowerCharSame(s[i], t[i]);
      }
    }
  }

  // ---------------------------------------------------------------------------
  // includes
  // ---------------------------------------------------------------------------

  /** `t` occurs in `s` starting at index `i`. */
  ghost predicate OccursAt(s: string, t: string, i: int)
  {
    0 <= i && i + |t| <= |s| && s[i..i + |t|] == t
  }

  /** `s.includes(t)`: try each start position in turn. */
  function Includes(s: string, t: string): bool
    decreases |s|
  {
    if |t| > |s| then false
    else if s[..|t|] == t then true
    else Includes(s[1..], t)
  }

  /** `includes` holds exactly when `t` occurs somewhere in `s`. */
  lemma {:induction false} IncludesIffOccurs(s: string, t: string)
    ensures Includes(s, t) <==> exists i :: OccursAt(s, t, i)
    decreases |s|
  {
    if |t| > |s| {
    } else if s[..|t|] == t {
      assert OccursAt(s, t, 0);
    } else {
      IncludesIffOccurs(s[1..], t);
      if exists i :: OccursAt(s, t, i) {
        var i :| OccursAt(s, t, i);
        assert i != 0;
        assert s[1..][i - 1..i - 1 + |t|] == s[i..i + |t|];
        assert OccursAt(s[1..], t, i - 1);
      }
      if exists i :: OccursAt(s[1..], t, i) {
        var i :| OccursAt(s[1..], t, i);
        assert s[i + 1..i + 1 + |t|] == s[1..][i..i + |t|];
        assert OccursAt(s, t, i + 1);
      }
    }
  }
}
