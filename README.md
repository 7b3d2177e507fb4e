# Fixture normalisation of `fetch-fixtures`

The `fetch-fixtures` script downloads the scheduled matches of each configured
competition from the football-data.org API. It writes one JSON file per
competition to `data/fixtures_<code>.json`. This project models the step between
download and write, the part with logic in it:

- `simplify` cuts a raw match record down to a fixed-shape record;
- `(data.matches ?? []).filter(...).map(simplify).sort(...)` drops the matches
  without a home-team name, simplifies the rest and orders them by kick-off.

The modules are:

- `Js` (`js.dfy`) holds the JavaScript semantics the code relies on. `Field<T>`
  is a property that is `undefined` (`Missing`), `null` (`Null`) or holds a value
  (`Present`). It comes with `??` (`OrNull`, `OrElse`), `?.` (`Chain`) and string
  truthiness (`Truthy`). Reading a property of `undefined`/`null` throws; the
  model returns `Thrown(CannotRead(p))` for that.
- `Sorting` (`sorting.dfy`) models `Array.prototype.sort` with the comparator
  `(a, b) => key(a) - key(b)`. Since ECMAScript 2019 that sort must be stable, and
  it is modelled as a stable insertion sort. It is proved sorted, a permutation
  and stable, where stable means that the elements of each key keep their input
  order. It is also proved to be the *only* sequence that is sorted and keeps
  each key's input order. So the engine's choice of algorithm cannot change
  the file.
- `Fixtures` (`fixtures.dfy`) holds the raw and normalised records, `Simplify`,
  the filter (`KeepNamedHome`), the map (`SimplifyAll`) and the whole chain
  (`Normalise`).
- `FixtureProperties` (`fixture_properties.dfy`) holds the lemmas about them.

Modelling decisions:

- `utcDate` is the integer timestamp that `new Date(utcDate)` yields. The sort
  compares these timestamps.
- A property can be absent or `null`. Each such property is a `Field`, so that
  `?? null` and `?.` can be stated exactly. A missing `matchday` or one that is
  `null` becomes `null` (line 28). A missing competition gives `code` and `name`
  equal to `undefined`, not `null` (line 26).
- The filter callback reads `match.homeTeam.name`. If `homeTeam` is
  `undefined`/`null`, that read throws. `simplify` reads `m.homeTeam.id` and
  `m.awayTeam.id`, which throw the same way. The model keeps these failure paths:
  `Normalise` returns `Thrown` exactly when some match has no home team, or a
  match that passes the filter has no away team (`NormaliseSucceeds`). In the
  script the competition's step then throws: the error is logged and no file
  is written for that competition (lines 56-58).
- Only string names are modelled. A home-team name is truthy iff it is present
  and not `""`.

## Model

| member | source | states |
|---|---|---|
| `Fixtures.Simplify` | scripts/fetch-fixtures.mjs:23-40 | `simplify` succeeds exactly when both the home and the away team are present. Otherwise it throws a TypeError reading `id`. A missing competition or matchday never makes it throw. |
| `FixtureProperties.SimplifyCopies` | scripts/fetch-fixtures.mjs:23-40 | `id`, `utcDate`, `stage`, `lastUpdated` and each team's `id`, `name` and `crest` are copied from input to output unchanged. |
| `FixtureProperties.SimplifyMatchday` | scripts/fetch-fixtures.mjs:28 | A missing or `null` matchday becomes `null`. A present one is kept. The output matchday is never `undefined`. |
| `FixtureProperties.SimplifyCompetition` | scripts/fetch-fixtures.mjs:26 | Without a competition, `simplify` still succeeds and the output competition has `code` and `name` both `undefined`. With one, they are that competition's `code` and `name`. |
| `FixtureProperties.SimplifyIsProjection` | scripts/fetch-fixtures.mjs:23-40 | A record of the output shape, read back as a raw match, simplifies to itself. |
| `FixtureProperties.SimplifyIdempotent` | scripts/fetch-fixtures.mjs:23-40 | Simplifying an already simplified record changes nothing. |
| `Fixtures.KeepNamedHome` | scripts/fetch-fixtures.mjs:48 | The filter throws iff some match has no home team. Otherwise it is no longer than its input, and each match occurs exactly as often as in the input if its home-team name is truthy, and not at all if not. |
| `FixtureProperties.KeepNamedHomeAppend` | scripts/fetch-fixtures.mjs:48 | The filter keeps input order: filtering `a + b` gives the filtered `a` followed by the filtered `b`, and it throws iff either part throws. |
| `FixtureProperties.KeptMembers` | scripts/fetch-fixtures.mjs:48 | A match is in the filtered list iff it is in the input and its home-team name is truthy. |
| `Fixtures.SimplifyAll` | scripts/fetch-fixtures.mjs:49 | The map throws iff `simplify` throws on some element. Otherwise element `i` of the output is `simplify` of element `i` of the input. |
| `Fixtures.Normalise` | scripts/fetch-fixtures.mjs:47-50 | When `matches` is absent or `null`, the output is empty. Otherwise a successful output is no longer than `matches` and is sorted by non-decreasing `utcDate`. |
| `FixtureProperties.NormaliseSucceeds` | scripts/fetch-fixtures.mjs:47-49 | The chain throws iff some match has no home team, or some match with a truthy home-team name has no away team. |
| `FixtureProperties.NormaliseFiltered` | scripts/fetch-fixtures.mjs:48 | Every output record has a truthy home-team name. |
| `FixtureProperties.NormaliseKeepsExactly` | scripts/fetch-fixtures.mjs:47-49 | Every output record is `simplify` of an input match with a truthy home-team name. Every such match, whatever its away team's name, appears in the output. |
| `FixtureProperties.NormaliseSortsStably` | scripts/fetch-fixtures.mjs:50 | The output is a permutation of the simplified filtered matches. Records with equal `utcDate` keep their input order. |
| `FixtureProperties.NormaliseIsTheStableSort` | scripts/fetch-fixtures.mjs:50 | Any list that is sorted by `utcDate` and keeps each `utcDate`'s records in input order equals the chain's output. |
| `Sorting.Insert` | scripts/fetch-fixtures.mjs:50 | Insertion adds exactly one element: the length grows by one and the multiset gains `x`. |
| `Sorting.InsertSorted` | scripts/fetch-fixtures.mjs:50 | Inserting into a sorted sequence keeps it sorted. |
| `Sorting.Sort` | scripts/fetch-fixtures.mjs:50 | The sort result has the input's length and multiset and is sorted by the key. |
| `Sorting.InsertKeepsKeyOrder` | scripts/fetch-fixtures.mjs:50 | Insertion places `x` before the elements of its own key and keeps every key's elements in order. |
| `Sorting.SortIsStable` | scripts/fetch-fixtures.mjs:50 | For every key, the sorted output lists that key's elements in input order. |
| `Sorting.StableSortIsUnique` | scripts/fetch-fixtures.mjs:50 | Two sorted sequences that agree on every key's ordered elements are equal. |
| `Sorting.SortIsTheStableSort` | scripts/fetch-fixtures.mjs:50 | Every sorted sequence that keeps each key's elements of `s` in input order equals `Sort(s)`. |

## Left out

- The HTTP helper `fd` and its error for a bad status (lines 15-21): network I/O.
- Creating `data/`, writing the JSON file and the console logging (lines 43, 51-55, 57): filesystem and console I/O.
- The loop over competitions, its `try`/`catch` and the process exit on failure (lines 44-45, 56-64): I/O orchestration. A `Thrown` result of `Normalise` is where the script logs the error and skips the file.
- The token from the environment, the API base URL and the competition list (lines 3-13): configuration only.
- Parsing ISO-8601 strings with `new Date` and the comparator's `NaN` for malformed dates (line 50): `utcDate` is taken as an already-parsed, valid timestamp.
- Omission of `undefined` properties by `JSON.stringify`: a serialisation detail. The model keeps `Missing` in the record.
- Truthiness of non-string home-team names (numbers, objects) and match elements or response bodies that are not objects: the model types names as strings and matches and the response as records.
- Venue geocoding and its cache: venue geocoding is not part of this model; the script modelled here contains no code for it.
