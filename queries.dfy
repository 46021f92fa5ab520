/**
 * The row selection of the facility API: the plain listing with its optional
 * borough filter, and the "updated in a year" query with its two kinds of date
 * match and its ordering by name.
 */
module Queries {
  import opened Strings
  import opened Records
  import opened Sorting

  /** A condition on a facility's borough row. */
  datatype BoroughTest = NamedExactly(nom: string) | UpdatedFrom(year: string) {
    /** `Arrondissement.nom == nom`, or `Arrondissement.date_maj LIKE year || '%'`. */
    predicate Accepts(b: Borough) {
      match this
      case NamedExactly(n) => b.nom == n
      case UpdatedFrom(y) => StartsWith(b.dateMaj, y)
    }
  }

  /** `Facility.arrondissement.has(...)`: some borough with the row's foreign key passes the test. */
  predicate HasBorough(boroughs: seq<Borough>, boroughId: int, test: BoroughTest) {
    exists b :: b in boroughs && b.id == boroughId && test.Accepts(b)
  }

  /**
   * `query.filter(Facility.arrondissement.has(...)).all()`: each row whose
   * borough passes the test, exactly as often as it is stored, and no other row.
   */
  function WhereHas<K(!new)>(rows: seq<Facility<K>>, boroughs: seq<Borough>, test: BoroughTest): (r: seq<Facility<K>>)
    ensures forall x :: x in r <==> x in rows && HasBorough(boroughs, x.boroughId, test)
    ensures forall x :: multiset(r)[x] == if HasBorough(boroughs, x.boroughId, test) then multiset(rows)[x] else 0
  {
    if rows == [] then []
    else
      assert rows == [rows[0]] + rows[1..];
      (if HasBorough(boroughs, rows[0].boroughId, test) then [rows[0]] else [])
        + WhereHas(rows[1..], boroughs, test)
  }

  /** The joined rows one facility yields: one copy per borough that has its id and passes the test. */
  function JoinedCopies<K(!new)>(x: Facility<K>, boroughs: seq<Borough>, test: BoroughTest): (r: seq<Facility<K>>)
    ensures forall y :: y in r ==> y == x
    ensures r != [] <==> HasBorough(boroughs, x.boroughId, test)
  {
    if boroughs == [] then []
    else
      var rest := JoinedCopies(x, boroughs[1..], test);
      assert HasBorough(boroughs, x.boroughId, test) <==>
        (boroughs[0].id == x.boroughId && test.Accepts(boroughs[0]))
        || HasBorough(boroughs[1..], x.boroughId, test) by {
        assert boroughs == [boroughs[0]] + boroughs[1..];
      }
      (if boroughs[0].id == x.boroughId && test.Accepts(boroughs[0]) then [x] else []) + rest
  }

  /**
   * `query.join(Facility.arrondissement).filter(<test on Arrondissement>)`:
   * the inner join of the rows with the boroughs on the foreign key, restricted
   * to the pairs whose borough passes the test.
   */
  function JoinWhere<K(!new)>(rows: seq<Facility<K>>, boroughs: seq<Borough>, test: BoroughTest): (r: seq<Facility<K>>)
    ensures forall x :: x in r <==> x in rows && HasBorough(boroughs, x.boroughId, test)
  {
    if rows == [] then []
    else
      var copies := JoinedCopies(rows[0], boroughs, test);
      assert copies != [] ==> copies[0] in copies;
      assert rows == [rows[0]] + rows[1..];
      copies + JoinWhere(rows[1..], boroughs, test)
  }

  /**
   * Under unique borough ids a facility joins at most one borough, so the
   * inner join yields each row exactly when the `has(...)` filter keeps it.
   */
  lemma {:induction false} JoinedCopiesUnderUniqueIds<K(!new)>(x: Facility<K>, boroughs: seq<Borough>, test: BoroughTest)
    requires UniqueBoroughIds(boroughs)
    ensures JoinedCopies(x, boroughs, test) == if HasBorough(boroughs, x.boroughId, test) then [x] else []
    decreases |boroughs|
  {
    if boroughs != [] {
      JoinedCopiesUnderUniqueIds(x, boroughs[1..], test);
      if boroughs[0].id == x.boroughId {
        // No later borough shares the id, so the tail contributes nothing.
        forall b | b in boroughs[1..] ensures b.id != x.boroughId {
          var k :| 0 <= k < |boroughs[1..]| && boroughs[1..][k] == b;
          assert boroughs[k + 1] == b;
        }
        assert !HasBorough(boroughs[1..], x.boroughId, test);
      }
    }
  }

  /** With the borough id as primary key, the join of the year query is the `has(...)` filter. */
  lemma {:induction false} JoinIsWhereHas<K(!new)>(rows: seq<Facility<K>>, boroughs: seq<Borough>, test: BoroughTest)
    requires UniqueBoroughIds(boroughs)
    ensures JoinWhere(rows, boroughs, test) == WhereHas(rows, boroughs, test)
    decreases |rows|
  {
    if rows != [] {
      JoinedCopiesUnderUniqueIds(rows[0], boroughs, test);
      JoinIsWhereHas(rows[1..], boroughs, test);
    }
  }

  /**
   * `IceRink.query.filter(IceRink.date_heure.contains(year))`: each rink whose
   * own date text holds the year, exactly as often as it is stored.
   */
  function WhereDateContains(rows: seq<IceRink>, year: string): (r: seq<IceRink>)
    ensures forall x :: multiset(r)[x] == if Contains(x.columns.dateHeure, year) then multiset(rows)[x] else 0
  {
    if rows == [] then []
    else
      assert rows == [rows[0]] + rows[1..];
      (if Contains(rows[0].columns.dateHeure, year) then [rows[0]] else [])
        + WhereDateContains(rows[1..], year)
  }

  /** `_get_installations`: every stored row of the three tables, as (aquatic, rinks, slides). */
  function ListAll(db: Database): (r: Groups<AquaticInstallation, IceRink, Slide>)
    ensures r.aquatic == db.aquatic && r.rinks == db.rinks && r.slides == db.slides
  {
    Groups(db.aquatic, db.rinks, db.slides)
  }

  /**
   * The rows behind `GET /installations?arrondissement=<name>`: all rows
   * without the argument; with it, the rows of each kind, ice rinks included,
   * whose borough is named exactly `name`.
   */
  function Installations(db: Database, arrondissement: Option<string>): (r: Groups<AquaticInstallation, IceRink, Slide>)
    ensures arrondissement.None? ==> r.aquatic == db.aquatic && r.rinks == db.rinks && r.slides == db.slides
    ensures arrondissement.Some? ==>
      var named := NamedExactly(arrondissement.value);
      && (forall x :: multiset(r.aquatic)[x] == if HasBorough(db.boroughs, x.boroughId, named) then multiset(db.aquatic)[x] else 0)
      && (forall x :: multiset(r.rinks)[x] == if HasBorough(db.boroughs, x.boroughId, named) then multiset(db.rinks)[x] else 0)
      && (forall x :: multiset(r.slides)[x] == if HasBorough(db.boroughs, x.boroughId, named) then multiset(db.slides)[x] else 0)
  {
    var all := ListAll(db);
    match arrondissement
    case None => all
    case Some(name) =>
      Groups(
        WhereHas(db.aquatic, db.boroughs, NamedExactly(name)),
        WhereHas(db.rinks, db.boroughs, NamedExactly(name)),
        WhereHas(db.slides, db.boroughs, NamedExactly(name)))
  }

  /**
   * With a borough filter, a facility of any kind is listed exactly when it is
   * stored and some borough with its foreign key has exactly that name.
   */
  lemma InstallationsByBorough(db: Database, name: string)
    ensures var r := Installations(db, Some(name));
      && (forall x :: x in r.aquatic <==> x in db.aquatic && exists b :: b in db.boroughs && b.id == x.boroughId && b.nom == name)
      && (forall x :: x in r.rinks <==> x in db.rinks && exists b :: b in db.boroughs && b.id == x.boroughId && b.nom == name)
      && (forall x :: x in r.slides <==> x in db.slides && exists b :: b in db.boroughs && b.id == x.boroughId && b.nom == name)
  {
  }

  /** A name no borough carries gives three empty lists, not an error. */
  lemma UnknownBoroughIsEmpty(db: Database, name: string)
    requires forall b :: b in db.boroughs ==> b.nom != name
    ensures Installations(db, Some(name)) == Groups([], [], [])
  {
    var r := Installations(db, Some(name));
    assert multiset(r.aquatic) == multiset{};
    assert multiset(r.rinks) == multiset{};
    assert multiset(r.slides) == multiset{};
  }

  /**
   * The slide and aquatic-installation chain of the year query: join to the
   * borough, keep `date_maj LIKE year || '%'`, order by name ascending.
   */
  function JoinedUpdatedByName<K(==,!new)>(rows: seq<Facility<K>>, boroughs: seq<Borough>, year: string): (r: seq<Facility<K>>)
    ensures SortedByName(r)
    ensures multiset(r) == multiset(JoinWhere(rows, boroughs, UpdatedFrom(year)))
    ensures forall x :: x in r <==> x in rows && HasBorough(boroughs, x.boroughId, UpdatedFrom(year))
  {
    var joined := JoinWhere(rows, boroughs, UpdatedFrom(year));
    var sorted := SortByName(joined);
    forall x ensures x in sorted <==> x in joined {
      assert x in sorted <==> x in multiset(sorted);
      assert x in joined <==> x in multiset(joined);
    }
    sorted
  }

  /**
   * `_facilities_updated_<year>` before serialisation: slides and aquatic
   * installations joined to a borough whose `date_maj` starts with the year,
   * ice rinks whose own `date_heure` contains it, each list ascending by name.
   */
  function UpdatedInYear(db: Database, year: string): (r: Groups<AquaticInstallation, IceRink, Slide>)
    ensures SortedByName(r.aquatic) && SortedByName(r.rinks) && SortedByName(r.slides)
    ensures forall x :: x in r.aquatic <==> x in db.aquatic && HasBorough(db.boroughs, x.boroughId, UpdatedFrom(year))
    ensures forall x :: x in r.slides <==> x in db.slides && HasBorough(db.boroughs, x.boroughId, UpdatedFrom(year))
    ensures forall x :: multiset(r.rinks)[x] == if Contains(x.columns.dateHeure, year) then multiset(db.rinks)[x] else 0
  {
    var slides := JoinedUpdatedByName(db.slides, db.boroughs, year);
    var aquatic := JoinedUpdatedByName(db.aquatic, db.boroughs, year);
    var rinks := SortByName(WhereDateContains(db.rinks, year));
    Groups(aquatic, rinks, slides)
  }

  /**
   * With the borough id as primary key, each slide and aquatic installation of
   * the year query appears exactly as often as it is stored when its borough's
   * `date_maj` starts with the year, and not at all otherwise: no row is
   * added, dropped or duplicated by the join.
   */
  lemma UpdatedInYearRows(db: Database, year: string)
    requires UniqueBoroughIds(db.boroughs)
    ensures var r := UpdatedInYear(db, year);
      var updated := UpdatedFrom(year);
      && (forall x :: multiset(r.aquatic)[x] == if HasBorough(db.boroughs, x.boroughId, updated) then multiset(db.aquatic)[x] else 0)
      && (forall x :: multiset(r.slides)[x] == if HasBorough(db.boroughs, x.boroughId, updated) then multiset(db.slides)[x] else 0)
  {
    JoinIsWhereHas(db.aquatic, db.boroughs, UpdatedFrom(year));
    JoinIsWhereHas(db.slides, db.boroughs, UpdatedFrom(year));
  }

  /**
   * An ice rink is in the year query exactly when the year occurs anywhere in
   * its own `date_heure`; no borough is consulted.
   */
  lemma RinkYearAnywhere(db: Database, year: string)
    ensures var r := UpdatedInYear(db, year);
      forall x :: x in r.rinks <==> x in db.rinks && exists i :: OccursAt(x.columns.dateHeure, year, i)
  {
    var r := UpdatedInYear(db, year);
    forall x ensures x in r.rinks <==> x in db.rinks && exists i :: OccursAt(x.columns.dateHeure, year, i) {
      ContainsIffOccurs(x.columns.dateHeure, year);
      assert x in r.rinks <==> x in multiset(r.rinks);
      assert x in db.rinks <==> x in multiset(db.rinks);
    }
  }

  /**
   * The two matches differ: when the year occurs inside a date text but not at
   * its start, a rink carrying that text is kept while a slide whose only
   * borough carries it is not.
   */
  lemma YearInMiddleKeepsRinkOnly(db: Database, year: string, slide: Slide, rink: IceRink, i: int)
    requires slide in db.slides && rink in db.rinks
    requires forall b :: b in db.boroughs && b.id == slide.boroughId ==> b.dateMaj == rink.columns.dateHeure
    requires OccursAt(rink.columns.dateHeure, year, i) && !StartsWith(rink.columns.dateHeure, year)
    ensures var r := UpdatedInYear(db, year);
      rink in r.rinks && slide !in r.slides
  {
    OccursContains(rink.columns.dateHeure, year, i);
    var r := UpdatedInYear(db, year);
    assert rink in multiset(r.rinks);
  }
}
