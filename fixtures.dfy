/** The fixture normalisation of `scripts/fetch-fixtures.mjs`: the raw match
    records of the football-data.org `/competitions/{code}/matches` response,
    the `simplify` projection onto the record written to
    `data/fixtures_<code>.json`, and the `filter` / `map` / `sort` chain that
    turns one competition's response into that file's list. */
module Fixtures {
  import opened Js
  import Sorting

  // ---------------------------------------------------------------------
  // Raw upstream records (only the properties the normaliser touches, plus
  // a few it drops, so that the projection is visible)
  // ---------------------------------------------------------------------

  /** A team as the API sends it. */
  datatype RawTeam = RawTeam(
    id: Field<int>,
    name: Field<string>,
    shortName: Field<string>,
    tla: Field<string>,
    crest: Field<string>)

  /** A competition as the API sends it. */
  datatype RawCompetition = RawCompetition(
    id: Field<int>,
    name: Field<string>,
    code: Field<string>,
    emblem: Field<string>)

  /** A match as the API sends it; `utcDate` is the timestamp that
      `new Date(utcDate)` yields for the ISO-8601 string. */
  datatype RawMatch = RawMatch(
    id: Field<int>,
    utcDate: int,
    status: Field<string>,
    matchday: Field<int>,
    stage: Field<string>,
    group: Field<string>,
    lastUpdated: Field<string>,
    area: Field<string>,
    competition: Field<RawCompetition>,
    homeTeam: Field<RawTeam>,
    awayTeam: Field<RawTeam>)

  /** The response body: `matches` may be absent. */
  datatype Payload = Payload(matches: Field<seq<RawMatch>>)

  // ---------------------------------------------------------------------
  // Normalised records
  // ---------------------------------------------------------------------

  datatype TeamRef = TeamRef(id: Field<int>, name: Field<string>, crest: Field<string>)

  datatype CompetitionRef = CompetitionRef(code: Field<string>, name: Field<string>)

  /** The fixed-shape record written to the fixtures file. */
  datatype Fixture = Fixture(
    id: Field<int>,
    utcDate: int,
    competition: CompetitionRef,
    stage: Field<string>,
    matchday: Field<int>,
    homeTeam: TeamRef,
    awayTeam: TeamRef,
    lastUpdated: Field<string>)

  /** The sort key of the comparator `new Date(a.utcDate) - new Date(b.utcDate)`. */
  function UtcDate(f: Fixture): int {
    f.utcDate
  }

  // ---------------------------------------------------------------------
  // simplify
  // ---------------------------------------------------------------------

  function Team(t: RawTeam): TeamRef {
    TeamRef(t.id, t.name, t.crest)
  }

  /** `simplify(m)`. Reading `m.homeTeam.id` or `m.awayTeam.id` throws when
      that team is `undefined` or `null`; `m.competition?.code` does not. */
  function Simplify(m: RawMatch): (r: Result<Fixture>)
    ensures r.Ok? <==> m.homeTeam.Present? && m.awayTeam.Present?
    ensures r.Thrown? ==> r.error == CannotRead("id")
  {
    if m.homeTeam.IsNullish() || m.awayTeam.IsNullish() then
      Thrown(CannotRead("id"))
    else
      Ok(Fixture(
        m.id,
        m.utcDate,
        CompetitionRef(Chain(m.competition, (c: RawCompetition) => c.code),
                       Chain(m.competition, (c: RawCompetition) => c.name)),
        m.stage,
        OrNull(m.matchday),
        Team(m.homeTeam.value),
        Team(m.awayTeam.value),
        m.lastUpdated))
  }

  // ---------------------------------------------------------------------
  // the filter / map / sort chain
  // ---------------------------------------------------------------------

  /** The filter callback `match.homeTeam.name`, once it did not throw. */
  predicate HasHomeName(m: RawMatch) {
    m.homeTeam.Present? && Truthy(m.homeTeam.value.name)
  }

  /** `ms.filter((match) => match.homeTeam.name)`: throws when some match has
      no home team, otherwise keeps, in order, the matches whose home team
      has a truthy name. */
  function KeepNamedHome(ms: seq<RawMatch>): (r: Result<seq<RawMatch>>)
    ensures r.Ok? <==> forall i :: 0 <= i < |ms| ==> ms[i].homeTeam.Present?
    ensures r.Ok? ==> |r.value| <= |ms|
    ensures r.Ok? ==> forall m :: multiset(r.value)[m] == if HasHomeName(m) then multiset(ms)[m] else 0
  {
    if ms == [] then
      Ok([])
    else
      assert ms == [ms[0]] + ms[1..];
      if ms[0].homeTeam.IsNullish() then
        Thrown(CannotRead("name"))
      else
        match KeepNamedHome(ms[1..])
        case Thrown(e) => Thrown(e)
        case Ok(rest) => Ok(if HasHomeName(ms[0]) then [ms[0]] + rest else rest)
  }

  /** `ms.map(simplify)`: throws when `simplify` throws on some element,
      otherwise simplifies every element in place. */
  function SimplifyAll(ms: seq<RawMatch>): (r: Result<seq<Fixture>>)
    ensures r.Ok? <==> forall i :: 0 <= i < |ms| ==> Simplify(ms[i]).Ok?
    ensures r.Ok? ==> |r.value| == |ms|
    ensures r.Ok? ==> forall i :: 0 <= i < |ms| ==> Simplify(ms[i]) == Ok(r.value[i])
  {
    if ms == [] then
      Ok([])
    else
      match Simplify(ms[0])
      case Thrown(e) => Thrown(e)
      case Ok(f) =>
        match SimplifyAll(ms[1..])
        case Thrown(e) => Thrown(e)
        case Ok(rest) =>
          assert forall i :: 1 <= i < |ms| ==> ms[1..][i - 1] == ms[i];
          Ok([f] + rest)
  }

  /** The matches of the response, `data.matches ?? []`. */
  function Matches(data: Payload): seq<RawMatch> {
    OrElse(data.matches, [])
  }

  /** `(data.matches ?? []).filter(...).map(simplify).sort(byUtcDate)`. */
  function Normalise(data: Payload): (r: Result<seq<Fixture>>)
    ensures data.matches.IsNullish() ==> r == Ok([])
    ensures r.Ok? ==> |r.value| <= |Matches(data)|
    ensures r.Ok? ==> Sorting.SortedBy(r.value, UtcDate)
  {
    match KeepNamedHome(Matches(data))
    case Thrown(e) => Thrown(e)
    case Ok(kept) =>
      match SimplifyAll(kept)
      case Thrown(e) => Thrown(e)
      case Ok(fs) => Ok(Sorting.Sort(fs, UtcDate))
  }
}
