# Facility selection and grouping of the recreational-facility API

This project models the read side of a small HTTP API over a catalogue of
municipal recreational facilities: slides (`Glissade`), aquatic installations
(`InstallationAquatique`) and ice rinks (`Patinoire`), each belonging to a
borough (`Arrondissement`). It covers how `app/api/api.py` selects and groups
rows:

- the plain listing (`_get_installations`) and its optional exact-name borough
  filter (`installations`), applied to all three kinds through their borough
  relation;
- the "updated in a year" query (`_facilities_updated_2021`): slides and
  aquatic installations joined to a borough whose `date_maj` starts with the
  year, ice rinks whose own `date_heure` contains the year anywhere, each list
  ascending by name;
- the response envelope that puts slides under `glissades`, aquatic
  installations under `installations_aquatiques` and rinks under `patinoires`;
- the raw XML text assembled from fixed tags around the three encoded groups.

Each database table is a sequence of rows (`Records.Database`), the ORM
queries are functions over those sequences, and the properties are contracts
and lemmas. The year is a parameter of the query; the endpoints use the
constant `Responses.Year` (`"2021"`). The row serialisers and the XML item
encoder are foreign code and enter as function parameters
(`Responses.Schemas`, the `encode` argument of `Xml.UpdatedXmlText`).

Modules: `Strings` (prefix, substring, name order), `Records` (rows and
tables), `Sorting` (`order_by(nom.asc())`), `Queries` (row selection),
`Responses` (serialisation and JSON envelope), `Xml` (XML text).

The code only asks the database for `ORDER BY nom ASC`, which promises
nothing about the order of rows with equal names. `Queries.UpdatedInYear`
therefore states that all three lists are sorted by name, the exact multiset
of rinks, and which slides and aquatic installations are present;
`Queries.UpdatedInYearRows` adds the exact multiset of slides and aquatic
installations when borough ids are unique. `Sorting.SortedNamesUnique` shows
that the names are then fixed position by position while rows of equal name
may come in any order.

## Model

| member | source | states |
|---|---|---|
| `Queries.ListAll` | app/api/api.py:17-29 | the helper returns every stored aquatic installation, ice rink and slide, unchanged, as (aquatic, rinks, slides) |
| `Queries.Installations` | app/api/api.py:43-52 | without `arrondissement` the three lists are exactly the stored tables; with it, each row of each kind (rinks included) appears exactly as often as stored when some borough with its foreign key is named exactly the filter, and never otherwise |
| `Queries.InstallationsByBorough` | app/api/api.py:46-52 | with a borough filter a facility of any kind is listed iff it is stored and a borough with its foreign key has exactly that name |
| `Queries.UnknownBoroughIsEmpty` | app/api/api.py:46-52 | a name that no borough carries yields three empty lists rather than an error |
| `Queries.WhereHas` | app/api/api.py:47-52 | the `relation.has(nom=...)` filter keeps a row iff some borough with the row's foreign key passes the test, with the row's stored multiplicity |
| `Queries.JoinedCopies` | app/api/api.py:80-81 | a row contributes to the inner join only copies of itself, and at least one exactly when some borough with its id passes the test |
| `Queries.JoinWhere` | app/api/api.py:79-88 | the inner join with the borough table, filtered on the borough, contains a row iff the row is stored and some borough with its foreign key passes the test |
| `Queries.JoinedCopiesUnderUniqueIds` | app/api/api.py:80-81 | with unique borough ids a row joins at most once: once when its borough passes the test, otherwise not at all |
| `Queries.JoinIsWhereHas` | app/api/api.py:79-90 | with unique borough ids the join-and-filter of the year query equals the `has(...)` filter: no row is duplicated or lost by the join |
| `Queries.JoinedUpdatedByName` | app/api/api.py:79-90 | the slide and aquatic chain is sorted by name, is a rearrangement of the joined rows, and holds a row iff it is stored and its borough's `date_maj` starts with the year |
| `Queries.WhereDateContains` | app/api/api.py:91-92 | a rink is kept iff its own `date_heure` contains the year, with its stored multiplicity |
| `Queries.UpdatedInYear` | app/api/api.py:68-94 | all three lists ascend by name; slides and aquatic installations are present iff their borough's `date_maj` starts with the year; each rink appears exactly as often as stored iff its `date_heure` contains the year |
| `Queries.UpdatedInYearRows` | app/api/api.py:79-90 | with unique borough ids each slide and aquatic list holds exactly the stored rows whose borough starts with the year, each with its stored multiplicity |
| `Queries.RinkYearAnywhere` | app/api/api.py:91-94 | a rink is in the year result iff the year occurs at some position of its `date_heure`, no borough involved |
| `Queries.YearInMiddleKeepsRinkOnly` | app/api/api.py:79-94 | when the year occurs inside a date text but not at its start, a rink with that text is kept while a slide whose borough carries it is dropped |
| `Sorting.Insert` | app/api/api.py:83 | inserting into an ascending list keeps it ascending and adds exactly that row |
| `Sorting.SortByName` | app/api/api.py:83 | the ordered rows ascend by name and are the same rows with the same multiplicities |
| `Sorting.SortedNamesUnique` | app/api/api.py:89 | two ascending rearrangements of the same rows agree name by name; only the order among equal names is free |
| `Strings.ContainsIffOccurs` | app/api/api.py:92 | the `contains` match holds iff the needle occurs at some position, not only at the start |
| `Strings.NameLeTotal` | app/api/api.py:93 | any two names are ordered one way or the other |
| `Strings.NameLeTransitive` | app/api/api.py:93 | the name order is transitive |
| `Strings.NameLeAntisymmetric` | app/api/api.py:93 | names ordered both ways are equal |
| `Responses.DumpMany` | app/api/api.py:54-59 | serialising many rows gives one document per row, position by position |
| `Responses.Dump` | app/api/api.py:96-101 | each list is serialised with its own kind's schema, in place and at the same length |
| `Responses.FacilitiesUpdated` | app/api/api.py:68-102 | the helper returns the serialised (aquatic, rinks, slides) of the year query, each document from its own row and schema |
| `Responses.Envelope` | app/api/api.py:61-65 | the `jsonify` object (the same at lines 116-120) reads back by key as the three lists it was built from: slides from `glissades`, aquatic installations from `installations_aquatiques`, rinks from `patinoires` |
| `Responses.InstallationsResponse` | app/api/api.py:43-65 | the listing response reads back as the serialised listing, each kind under its own key |
| `Responses.UpdatedResponse` | app/api/api.py:114-120 | the 2021 response reads back as the helper's three serialised lists, each under its own key |
| `Xml.JoinSeven` | app/api/api.py:139 | `Xml.Join`, the model of `''.join`, concatenates seven fragments in their order |
| `Xml.JoinedIsNested` | app/api/api.py:132-139 | `Xml.Join` of `Xml.Fragments` (the `xml_data` list) is the declaration followed by an `installations` element holding `glissades`, `installations_aquatiques`, `patinoires` in that order, each wrapping its own group |
| `Xml.XmlFraming` | app/api/api.py:132-139 | the text starts with the declaration, `<installations><glissades>` and the slide group, and ends with the rink group and `</patinoires></installations>` |
| `Xml.UpdatedXmlText` | app/api/api.py:131-139 | the XML text of the 2021 endpoint is the nested element tree over the encoded slides, aquatic installations and rinks of the year query |

## Left out

- HTTP plumbing (the blueprint, reading `request.args`, `jsonify`, `Response` and its MIME type): the argument enters as an `Option<string>` and the JSON body as a `Json` value.
- The field sets of the row serialisers live in `model/`, which is not part of this model; each serialiser is an arbitrary function parameter.
- `dicttoxml` is not part of this model; its encoding of a group is the `encode` parameter. The `parseString` and `toprettyxml` step after the join is left out, so indentation and the well-formedness check of the parse are not modelled.
- SQL details: SQLite's case-insensitive `LIKE`, the database collation and NULL column values. Matches are exact prefix or substring tests on the year, names are ordered by code point, and every date column holds a string.
- `contains_eager` only controls loading and has no effect on which rows are returned.
- Each table sequence of `Records.Database` stands for the order in which an unfiltered `query.all()` returns the table, so the unfiltered listing keeps it exactly. The order of the borough-filtered listing, also without `ORDER BY`, is unspecified by SQL; the model keeps table order there, but no contract states it.
- `Query.all()` returns ORM entities deduplicated by primary key, while the model lets a table hold equal rows and `Queries.JoinWhere` yields one copy of a row per matching borough. The contracts that compare the join with the filter require unique borough ids (`Records.UniqueBoroughIds`) and so never rely on duplicates.
- The order among rows of equal name is left to the database and is not stated.
- The uniqueness of borough ids (the primary key) is required only where the join is compared with the filter (`Queries.UpdatedInYearRows`, `Queries.JoinIsWhereHas`).
- Subscription creation, the facility-name listing and the name search are not in the modelled file.
