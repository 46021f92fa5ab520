/**
 * String matching and ordering used by the facility queries: the `LIKE year%`
 * prefix test, the `contains(year)` substring test, and the ascending order on
 * facility names used by `order_by(nom.asc())`.
 */
module Strings {

  /** `s LIKE prefix || '%'` for a prefix without wildcards. */
  predicate StartsWith(s: string, prefix: string) {
    |prefix| <= |s| && s[..|prefix|] == prefix
  }

  predicate EndsWith(s: string, suffix: string) {
    |suffix| <= |s| && s[|s| - |suffix|..] == suffix
  }

  /** `s LIKE '%' || needle || '%'`: the needle occurs somewhere in `s`. */
  predicate Contains(s: string, needle: string)
    decreases |s|
  {
    StartsWith(s, needle) || (s != [] && Contains(s[1..], needle))
  }

  /** The needle sits at position `i` of `s`. */
  ghost predicate OccursAt(s: string, needle: string, i: int) {
    0 <= i && i + |needle| <= |s| && s[i..i + |needle|] == needle
  }

  /** Occurrences in `s` past position 0 are the occurrences in `s[1..]`, shifted by one. */
  lemma OccursShift(s: string, needle: string, i: int)
    requires s != [] && 1 <= i
    ensures OccursAt(s, needle, i) <==> OccursAt(s[1..], needle, i - 1)
  {
    if i + |needle| <= |s| {
      assert s[1..][i - 1..i - 1 + |needle|] == s[i..i + |needle|];
    }
  }

  /** `Contains` finds the needle exactly when it occurs at some position, not only at 0. */
  lemma {:induction false} ContainsIffOccurs(s: string, needle: string)
    ensures Contains(s, needle) <==> exists i :: OccursAt(s, needle, i)
    decreases |s|
  {
    assert StartsWith(s, needle) <==> OccursAt(s, needle, 0);
    if s == [] {
      assert forall i :: OccursAt(s, needle, i) ==> i == 0;
    } else {
      ContainsIffOccurs(s[1..], needle);
      forall i | 1 <= i
        ensures OccursAt(s, needle, i) <==> OccursAt(s[1..], needle, i - 1)
      {
        OccursShift(s, needle, i);
      }
      if exists j :: OccursAt(s[1..], needle, j) {
        var j :| OccursAt(s[1..], needle, j);
        assert OccursAt(s, needle, j + 1);
      }
    }
  }

  /** A needle found at `i` is contained. */
  lemma OccursContains(s: string, needle: string, i: int)
    requires OccursAt(s, needle, i)
    ensures Contains(s, needle)
  {
    ContainsIffOccurs(s, needle);
  }

  /**
   * Lexicographic order on names, comparing characters by code point; a
   * proper prefix comes first.
   */
  predicate NameLe(a: string, b: string)
    decreases |a|
  {
    a == [] || (b != [] && (a[0] < b[0] || (a[0] == b[0] && NameLe(a[1..], b[1..]))))
  }

  lemma {:induction false} NameLeReflexive(a: string)
    ensures NameLe(a, a)
    decreases |a|
  {
    if a != [] {
      NameLeReflexive(a[1..]);
    }
  }

  lemma {:induction false} NameLeTotal(a: string, b: string)
    ensures NameLe(a, b) || NameLe(b, a)
    decreases |a|
  {
    if a != [] && b != [] && a[0] == b[0] {
      NameLeTotal(a[1..], b[1..]);
    }
  }

  lemma {:induction false} NameLeTransitive(a: string, b: string, c: string)
    requires NameLe(a, b) && NameLe(b, c)
    ensures NameLe(a, c)
    decreases |a|
  {
    if a != [] && a[0] == b[0] && b[0] == c[0] {
      NameLeTransitive(a[1..], b[1..], c[1..]);
    }
  }

  lemma {:induction false} NameLeAntisymmetric(a: string, b: string)
    requires NameLe(a, b) && NameLe(b, a)
    ensures a == b
    decreases |a|
  {
    if a != [] {
      NameLeAntisymmetric(a[1..], b[1..]);
      assert a == [a[0]] + a[1..];
      assert b == [b[0]] + b[1..];
    }
  }
}
