/**
 * `order_by(nom.asc())`: facility rows in ascending name order. The order of
 * rows with equal names is left to the database; the contract says nothing
 * about it.
 */
module Sorting {
  import opened Strings
  import opened Records

  ghost predicate SortedByName<K>(rows: seq<Facility<K>>) {
    forall i, j :: 0 <= i < j < |rows| ==> NameLe(rows[i].nom, rows[j].nom)
  }

  /** Every row of `rows` has a name at or after `nom`. */
  ghost predicate AllFrom<K>(nom: string, rows: seq<Facility<K>>) {
    forall i :: 0 <= i < |rows| ==> NameLe(nom, rows[i].nom)
  }

  /** A lower bound of a list and of one more row bounds any rearrangement of them. */
  lemma BoundPermutation<K>(nom: string, x: Facility<K>, rows: seq<Facility<K>>, r: seq<Facility<K>>)
    requires AllFrom(nom, rows) && NameLe(nom, x.nom)
    requires multiset(r) == multiset(rows) + multiset{x}
    ensures AllFrom(nom, r)
  {
    forall i | 0 <= i < |r| ensures NameLe(nom, r[i].nom) {
      assert r[i] in multiset(r);
      if r[i] != x {
        assert r[i] in multiset(rows);
        var k :| 0 <= k < |rows| && rows[k] == r[i];
      }
    }
  }

  /** A row at or before every row of an ascending list can go in front of it. */
  lemma PrependSorted<K>(x: Facility<K>, rows: seq<Facility<K>>)
    requires SortedByName(rows) && AllFrom(x.nom, rows)
    ensures SortedByName([x] + rows)
  {
    var r := [x] + rows;
    forall i, j | 0 <= i < j < |r| ensures NameLe(r[i].nom, r[j].nom) {
      assert r[j] == rows[j - 1];
      if i > 0 {
        assert r[i] == rows[i - 1];
      }
    }
  }

  /** A row at or before the head of an ascending list is at or before all of it. */
  lemma HeadBound<K>(x: Facility<K>, rows: seq<Facility<K>>)
    requires SortedByName(rows) && rows != [] && NameLe(x.nom, rows[0].nom)
    ensures AllFrom(x.nom, rows)
  {
    forall i | 0 <= i < |rows| ensures NameLe(x.nom, rows[i].nom) {
      if i > 0 {
        NameLeTransitive(x.nom, rows[0].nom, rows[i].nom);
      }
    }
  }

  /** Inserts `x` into an ascending list, before the first row it does not follow. */
  function Insert<K(==)>(x: Facility<K>, rows: seq<Facility<K>>): (r: seq<Facility<K>>)
    requires SortedByName(rows)
    ensures SortedByName(r)
    ensures multiset(r) == multiset(rows) + multiset{x}
  {
    if rows == [] then [x]
    else if NameLe(x.nom, rows[0].nom) then
      HeadBound(x, rows);
      PrependSorted(x, rows);
      [x] + rows
    else
      var rest := Insert(x, rows[1..]);
      assert multiset(rows) == multiset{rows[0]} + multiset(rows[1..]) by {
        assert rows == [rows[0]] + rows[1..];
      }
      assert AllFrom(rows[0].nom, rows[1..]);
      NameLeTotal(x.nom, rows[0].nom);
      BoundPermutation(rows[0].nom, x, rows[1..], rest);
      PrependSorted(rows[0], rest);
      [rows[0]] + rest
  }

  /** The rows in ascending name order: sorted, and the same rows with the same multiplicities. */
  function SortByName<K(==)>(rows: seq<Facility<K>>): (r: seq<Facility<K>>)
    ensures SortedByName(r)
    ensures multiset(r) == multiset(rows)
  {
    if rows == [] then []
    else
      assert multiset(rows) == multiset{rows[0]} + multiset(rows[1..]) by {
        assert rows == [rows[0]] + rows[1..];
      }
      Insert(rows[0], SortByName(rows[1..]))
  }

  /** In an ascending list, rows between two rows of the same name share that name. */
  lemma PinnedBetween<K>(rows: seq<Facility<K>>, k: int, j: int, nom: string)
    requires SortedByName(rows)
    requires 0 <= j <= k < |rows| && rows[0].nom == nom == rows[k].nom
    ensures rows[j].nom == nom
  {
    if 0 < j < k {
      NameLeAntisymmetric(rows[j].nom, nom);
    }
  }

  /** Removing one row from an ascending list leaves an ascending list of the other rows. */
  lemma RemoveAt<K>(rows: seq<Facility<K>>, k: int)
    requires SortedByName(rows) && 0 <= k < |rows|
    ensures SortedByName(rows[..k] + rows[k + 1..])
    ensures multiset(rows[..k] + rows[k + 1..]) + multiset{rows[k]} == multiset(rows)
  {
    var t := rows[..k] + rows[k + 1..];
    assert rows == rows[..k] + [rows[k]] + rows[k + 1..];
    forall i, j | 0 <= i < j < |t| ensures NameLe(t[i].nom, t[j].nom) {
      var i' := if i < k then i else i + 1;
      var j' := if j < k then j else j + 1;
      assert t[i] == rows[i'] && t[j] == rows[j'];
    }
  }

  /** Taking the same row off two arrangements of the same rows leaves the same rows. */
  lemma TailsSameRows<K>(r: seq<Facility<K>>, r': seq<Facility<K>>, t: seq<Facility<K>>)
    requires r != [] && multiset(r) == multiset(r')
    requires multiset(t) + multiset{r[0]} == multiset(r')
    ensures multiset(r[1..]) == multiset(t)
  {
    assert r == [r[0]] + r[1..];
    assert multiset(r) == multiset(r[1..]) + multiset{r[0]};
    forall y ensures multiset(r[1..])[y] == multiset(t)[y] {
      assert multiset(r)[y] == multiset(r[1..])[y] + multiset{r[0]}[y];
      assert multiset(r')[y] == multiset(t)[y] + multiset{r[0]}[y];
    }
  }

  /** Two ascending arrangements of the same non-empty rows start with the same name. */
  lemma HeadNamesAgree<K>(r: seq<Facility<K>>, r': seq<Facility<K>>)
    requires SortedByName(r) && SortedByName(r')
    requires multiset(r) == multiset(r') && r != []
    ensures r' != [] && r[0].nom == r'[0].nom
  {
    assert r[0] in multiset(r');
    var k' :| 0 <= k' < |r'| && r'[k'] == r[0];
    assert r'[0] in multiset(r);
    var k :| 0 <= k < |r| && r[k] == r'[0];
    NameLeReflexive(r[0].nom);
    assert NameLe(r[0].nom, r'[0].nom);
    assert NameLe(r'[0].nom, r[0].nom);
    NameLeAntisymmetric(r[0].nom, r'[0].nom);
  }

  /**
   * If `r[1..]` matches `r'` with position `k'` removed name by name, and `r'[k']`
   * is `r[0]` with `r'[0]` of the same name, then `r` matches `r'` name by name.
   */
  lemma NamesAfterRemoval<K>(r: seq<Facility<K>>, r': seq<Facility<K>>, k': int)
    requires SortedByName(r') && |r| == |r'| && 0 <= k' < |r'|
    requires r'[k'] == r[0] && r[0].nom == r'[0].nom
    requires var t := r'[..k'] + r'[k' + 1..];
      forall i :: 0 <= i < |r| - 1 ==> r[1..][i].nom == t[i].nom
    ensures forall i :: 0 <= i < |r| ==> r[i].nom == r'[i].nom
  {
    var t := r'[..k'] + r'[k' + 1..];
    forall i | 1 <= i < |r| ensures r[i].nom == r'[i].nom {
      assert r[1..][i - 1] == r[i];
      if i <= k' {
        // Every row of r' up to position k' carries the name of r[0].
        assert t[i - 1] == r'[i - 1];
        PinnedBetween(r', k', i - 1, r[0].nom);
        PinnedBetween(r', k', i, r[0].nom);
      } else {
        assert t[i - 1] == r'[i];
      }
    }
  }

  /** Two ascending arrangements of the same rows list the same names in the same order. */
  lemma {:induction false} SortedNamesUnique<K>(r: seq<Facility<K>>, r': seq<Facility<K>>)
    requires SortedByName(r) && SortedByName(r')
    requires multiset(r) == multiset(r')
    ensures |r| == |r'|
    ensures forall i :: 0 <= i < |r| ==> r[i].nom == r'[i].nom
    decreases |r|
  {
    assert |r| == |multiset(r)| == |multiset(r')| == |r'|;
    if r != [] {
      HeadNamesAgree(r, r');
      // Drop from r' one copy of r's head; the rest matches r[1..] by induction.
      assert r[0] in multiset(r');
      var k' :| 0 <= k' < |r'| && r'[k'] == r[0];
      var t := r'[..k'] + r'[k' + 1..];
      RemoveAt(r', k');
      TailsSameRows(r, r', t);
      SortedNamesUnique(r[1..], t);
      NamesAfterRemoval(r, r', k');
    }
  }
}
