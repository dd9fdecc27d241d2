/**
 * The string comparisons the app relies on: the case-insensitive substring search behind the
 * exercise search fields, and the code-point order the name sort uses.
 */
module Text {

  // ---------------------------------------------------------------------------------------------
  // case-insensitive search

  /** ASCII lower-casing of one character; every other character is its own case. */
  function LowerChar(c: char): (r: char)
    ensures 'A' <= c <= 'Z' ==> 'a' <= r <= 'z'
    ensures !('A' <= c <= 'Z') ==> r == c
  {
    if 'A' <= c <= 'Z' then (c as int - 'A' as int + 'a' as int) as char else c
  }

  function Lower(s: string): (r: string)
    ensures |r| == |s|
    ensures forall i :: 0 <= i < |s| ==> r[i] == LowerChar(s[i])
  {
    if s == [] then [] else [LowerChar(s[0])] + Lower(s[1..])
  }

  lemma {:induction false} LowerIdempotent(s: string)
    ensures Lower(Lower(s)) == Lower(s)
  {
    var l := Lower(s);
    assert forall i :: 0 <= i < |s| ==> LowerChar(l[i]) == l[i];
  }

  /** `n` occurs in `h` at position `i`. */
  predicate OccursAt(h: string, n: string, i: int) {
    0 <= i && i + |n| <= |h| && h[i..i + |n|] == n
  }

  /** `h.contains(n)`, searched from the front. */
  predicate Contains(h: string, n: string)
    decreases |h|
  {
    n <= h || (h != [] && Contains(h[1..], n))
  }

  /** The search finds `n` exactly when it occurs somewhere in `h`. */
  lemma ContainsIffOccurs(h: string, n: string)
    ensures Contains(h, n) <==> exists i :: OccursAt(h, n, i)
  {
    if Contains(h, n) {
      ContainsHasOccurrence(h, n);
    }
    if exists i :: OccursAt(h, n, i) {
      var i :| OccursAt(h, n, i);
      OccurrenceIsFound(h, n, i);
    }
  }

  lemma {:induction false} ContainsHasOccurrence(h: string, n: string)
    requires Contains(h, n)
    ensures exists i :: OccursAt(h, n, i)
    decreases |h|
  {
    if n <= h {
      assert h[0..|n|] == n;
      assert OccursAt(h, n, 0);
    } else {
      ContainsHasOccurrence(h[1..], n);
      var i :| OccursAt(h[1..], n, i);
      assert h[1..][i..i + |n|] == h[i + 1..i + 1 + |n|];
      assert OccursAt(h, n, i + 1);
    }
  }

  lemma {:induction false} OccurrenceIsFound(h: string, n: string, i: int)
    requires OccursAt(h, n, i)
    ensures Contains(h, n)
    decreases i
  {
    if i == 0 {
      assert h[..|n|] == n;
    } else {
      assert h[1..][i - 1..i - 1 + |n|] == h[i..i + |n|];
      OccurrenceIsFound(h[1..], n, i - 1);
    }
  }

  /**
   * `h.localizedCaseInsensitiveContains(n)` with the locale's case folding narrowed to ASCII
   * letters.
   */
  predicate ContainsIgnoringCase(h: string, n: string) {
    Contains(Lower(h), Lower(n))
  }

  /** The search ignores the case of the query. */
  lemma QueryCaseIgnored(h: string, n: string)
    ensures ContainsIgnoringCase(h, Lower(n)) == ContainsIgnoringCase(h, n)
  {
    LowerIdempotent(n);
  }

  /** Every name matches itself, whatever its case. */
  lemma ContainsItself(h: string)
    ensures ContainsIgnoringCase(h, h)
  {
    assert Lower(h) <= Lower(h);
  }

  // ---------------------------------------------------------------------------------------------
  // code-point order

  /** `a` sorts no later than `b`: lexicographic on character codes, a prefix first. */
  predicate LexLe(a: string, b: string)
    decreases |a|
  {
    a == [] || (b != [] && (a[0] < b[0] || (a[0] == b[0] && LexLe(a[1..], b[1..]))))
  }

  lemma {:induction false} LexLeTotal(a: string, b: string)
    ensures LexLe(a, b) || LexLe(b, a)
    decreases |a|
  {
    if a != [] && b != [] && a[0] == b[0] {
      LexLeTotal(a[1..], b[1..]);
    }
  }

  lemma {:induction false} LexLeTransitive(a: string, b: string, c: string)
    requires LexLe(a, b) && LexLe(b, c)
    ensures LexLe(a, c)
    decreases |a|
  {
    if a != [] && a[0] == b[0] && b[0] == c[0] {
      LexLeTransitive(a[1..], b[1..], c[1..]);
    }
  }

  lemma {:induction false} LexLeAntisymmetric(a: string, b: string)
    requires LexLe(a, b) && LexLe(b, a)
    ensures a == b
    decreases |a|
  {
    if a != [] {
      LexLeAntisymmetric(a[1..], b[1..]);
      assert a == [a[0]] + a[1..] && b == [b[0]] + b[1..];
    }
  }
}
