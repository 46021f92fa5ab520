/**
 * The rows the facility API reads: boroughs (`Arrondissement`) and the three
 * facility tables (`Glissade`, `InstallationAquatique`, `Patinoire`), each
 * facility pointing at its borough through a foreign key.
 */
module Records {

  datatype Option<T> = None | Some(value: T)

  /** A borough row; `dateMaj` is its last-update stamp, text such as "2021-10-05 ...". */
  datatype Borough = Borough(id: int, nom: string, dateMaj: string)

  /**
   * A facility row of some kind: its key, its name, the foreign key of its
   * borough, and the columns specific to the kind. A foreign key that matches
   * no borough id stands for a facility without a borough.
   */
  datatype Facility<K> = Facility(id: int, nom: string, boroughId: int, columns: K)

  /** The slide and aquatic-installation columns play no part in the queries modelled. */
  datatype SlideColumns = SlideColumns
  datatype AquaticColumns = AquaticColumns

  /** An ice rink carries its own free-text date and time of update. */
  datatype RinkColumns = RinkColumns(dateHeure: string)

  type Slide = Facility<SlideColumns>
  type AquaticInstallation = Facility<AquaticColumns>
  type IceRink = Facility<RinkColumns>

  /**
   * The tables. Each sequence is in the order an unfiltered `query.all()`
   * returns the table's rows.
   */
  datatype Database = Database(
    boroughs: seq<Borough>,
    aquatic: seq<AquaticInstallation>,
    rinks: seq<IceRink>,
    slides: seq<Slide>)

  /** The borough id is the table's primary key. */
  ghost predicate UniqueBoroughIds(boroughs: seq<Borough>) {
    forall i, j :: 0 <= i < j < |boroughs| ==> boroughs[i].id != boroughs[j].id
  }

  /**
   * The three facility lists in the order the helpers return them:
   * aquatic installations, ice rinks, slides.
   */
  datatype Groups<A, R, S> = Groups(aquatic: seq<A>, rinks: seq<R>, slides: seq<S>)
}
