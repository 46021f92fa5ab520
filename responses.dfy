/**
 * What the three endpoints send back: the serialised facility lists grouped
 * under fixed keys (JSON), and the XML text assembled around the encoded
 * groups before it is parsed and pretty-printed.
 */
module Responses {
  import opened Records
  import opened Queries

  /**
   * The per-kind serialisers (`GlissadeModel`, `InstallationAquatiqueModel`,
   * `PatinoireModel`), each turning one row into a document of type `D`.
   */
  datatype Schemas<D> = Schemas(aquatic: AquaticInstallation -> D, rink: IceRink -> D, slide: Slide -> D)

  /** `Model(many=True).dump(rows)`: one document per row, in the order of the rows. */
  function DumpMany<T, D>(rows: seq<T>, dump: T -> D): (r: seq<D>)
    ensures |r| == |rows|
    ensures forall i :: 0 <= i < |rows| ==> r[i] == dump(rows[i])
  {
    if rows == [] then [] else [dump(rows[0])] + DumpMany(rows[1..], dump)
  }

  /** Each list serialised with its own kind's schema, the lists kept in place. */
  function Dump<D>(g: Groups<AquaticInstallation, IceRink, Slide>, schemas: Schemas<D>): (r: Groups<D, D, D>)
    ensures |r.aquatic| == |g.aquatic| && |r.rinks| == |g.rinks| && |r.slides| == |g.slides|
    ensures forall i :: 0 <= i < |g.aquatic| ==> r.aquatic[i] == schemas.aquatic(g.aquatic[i])
    ensures forall i :: 0 <= i < |g.rinks| ==> r.rinks[i] == schemas.rink(g.rinks[i])
    ensures forall i :: 0 <= i < |g.slides| ==> r.slides[i] == schemas.slide(g.slides[i])
  {
    Groups(DumpMany(g.aquatic, schemas.aquatic), DumpMany(g.rinks, schemas.rink), DumpMany(g.slides, schemas.slide))
  }

  /** The year the endpoints ask for. */
  const Year: string := "2021"

  /**
   * `_facilities_updated_2021` with the year as a parameter: the serialised
   * (aquatic, rinks, slides) lists of the year query.
   */
  function FacilitiesUpdated<D>(db: Database, year: string, schemas: Schemas<D>): (r: Groups<D, D, D>)
    ensures var g := UpdatedInYear(db, year);
      && |r.aquatic| == |g.aquatic| && |r.rinks| == |g.rinks| && |r.slides| == |g.slides|
      && (forall i :: 0 <= i < |g.aquatic| ==> r.aquatic[i] == schemas.aquatic(g.aquatic[i]))
      && (forall i :: 0 <= i < |g.rinks| ==> r.rinks[i] == schemas.rink(g.rinks[i]))
      && (forall i :: 0 <= i < |g.slides| ==> r.slides[i] == schemas.slide(g.slides[i]))
  {
    Dump(UpdatedInYear(db, year), schemas)
  }

  /** A JSON value whose leaves are serialised documents. */
  datatype Json<D> = Doc(doc: D) | Array(items: seq<Json<D>>) | Object(members: seq<(string, Json<D>)>)

  /** The value under `key` in an object's members, the first one if the key repeats. */
  function Lookup<D>(members: seq<(string, Json<D>)>, key: string): Option<Json<D>> {
    if members == [] then None
    else if members[0].0 == key then Some(members[0].1)
    else Lookup(members[1..], key)
  }

  function Docs<D>(docs: seq<D>): seq<Json<D>> {
    if docs == [] then [] else [Doc(docs[0])] + Docs(docs[1..])
  }

  /** The documents of an array of documents; None if some item is not a document. */
  function Undocs<D>(items: seq<Json<D>>): Option<seq<D>> {
    if items == [] then Some([])
    else match (items[0], Undocs(items[1..]))
      case (Doc(d), Some(rest)) => Some([d] + rest)
      case _ => None
  }

  lemma {:induction false} UndocsDocs<D>(docs: seq<D>)
    ensures Undocs(Docs(docs)) == Some(docs)
  {
    if docs != [] {
      UndocsDocs(docs[1..]);
      assert Docs(docs)[1..] == Docs(docs[1..]);
      assert [docs[0]] + docs[1..] == docs;
    }
  }

  /** How a client reads an envelope back: each list from its key. */
  function Unpack<D>(j: Json<D>): Option<Groups<D, D, D>> {
    if !j.Object? then None
    else match (Lookup(j.members, "glissades"), Lookup(j.members, "installations_aquatiques"), Lookup(j.members, "patinoires"))
      case (Some(Array(s)), Some(Array(a)), Some(Array(p))) =>
        (match (Undocs(a), Undocs(p), Undocs(s))
         case (Some(aquatic), Some(rinks), Some(slides)) => Some(Groups(aquatic, rinks, slides))
         case _ => None)
      case _ => None
  }

  /**
   * The JSON object the endpoints return: slides under `glissades`, aquatic
   * installations under `installations_aquatiques`, rinks under `patinoires`.
   * Reading it back gives each list under its own kind, nothing lost and
   * nothing crossed.
   */
  function Envelope<D>(g: Groups<D, D, D>): (r: Json<D>)
    ensures Unpack(r) == Some(g)
  {
    UndocsDocs(g.aquatic);
    UndocsDocs(g.rinks);
    UndocsDocs(g.slides);
    var slides := ("glissades", Array(Docs(g.slides)));
    var aquatic := ("installations_aquatiques", Array(Docs(g.aquatic)));
    var rinks := ("patinoires", Array(Docs(g.rinks)));
    // The three keys differ already in length.
    assert |slides.0| == 9 && |aquatic.0| == 24 && |rinks.0| == 10;
    assert [slides, aquatic, rinks][1..] == [aquatic, rinks];
    assert [aquatic, rinks][1..] == [rinks];
    assert Lookup([rinks], "patinoires") == Some(rinks.1);
    assert Lookup([aquatic, rinks], "patinoires") == Some(rinks.1);
    assert Lookup([slides, aquatic, rinks], "patinoires") == Some(rinks.1);
    assert Lookup([slides, aquatic, rinks], "installations_aquatiques") == Some(aquatic.1);
    assert Lookup([slides, aquatic, rinks], "glissades") == Some(slides.1);
    Object([slides, aquatic, rinks])
  }

  /** `GET /installations`: the envelope of the listing, filtered by borough name when given. */
  function InstallationsResponse<D>(db: Database, arrondissement: Option<string>, schemas: Schemas<D>): (r: Json<D>)
    ensures Unpack(r) == Some(Dump(Installations(db, arrondissement), schemas))
  {
    Envelope(Dump(Installations(db, arrondissement), schemas))
  }

  /** `GET /installations-maj-2021`: the envelope of the year query for 2021. */
  function UpdatedResponse<D>(db: Database, schemas: Schemas<D>): (r: Json<D>)
    ensures Unpack(r) == Some(FacilitiesUpdated(db, Year, schemas))
  {
    Envelope(FacilitiesUpdated(db, Year, schemas))
  }
}
