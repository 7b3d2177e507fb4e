/** What `simplify` and the `filter` / `map` / `sort` chain of
    `scripts/fetch-fixtures.mjs` guarantee about the list they produce. */
module FixtureProperties {
  import opened Js
  import opened Fixtures
  import Sorting

  // ---------------------------------------------------------------------
  // simplify
  // ---------------------------------------------------------------------

  /** Identity, kick-off, stage, last-update and the three kept properties of
      each team are copied unchanged. */
  lemma SimplifyCopies(m: RawMatch)
    requires m.homeTeam.Present? && m.awayTeam.Present?
    ensures Simplify(m).Ok?
    ensures var f := Simplify(m).value;
      && f.id == m.id && f.utcDate == m.utcDate
      && f.stage == m.stage && f.lastUpdated == m.lastUpdated
      && f.homeTeam.id == m.homeTeam.value.id
      && f.homeTeam.name == m.homeTeam.value.name
      && f.homeTeam.crest == m.homeTeam.value.crest
      && f.awayTeam.id == m.awayTeam.value.id
      && f.awayTeam.name == m.awayTeam.value.name
      && f.awayTeam.crest == m.awayTeam.value.crest
  {
  }

  /** `matchday ?? null`: a missing or `null` matchday becomes `null`, any
      other value is kept, and the output matchday is never `undefined`. */
  lemma SimplifyMatchday(m: RawMatch)
    requires Simplify(m).Ok?
    ensures Simplify(m).value.matchday != Missing
    ensures m.matchday.IsNullish() ==> Simplify(m).value.matchday == Null
    ensures m.matchday.Present? ==> Simplify(m).value.matchday == m.matchday
  {
  }

  /** `competition?.code` and `competition?.name`: without a competition both
      are `undefined`; with one, both are its own properties. */
  lemma SimplifyCompetition(m: RawMatch)
    requires Simplify(m).Ok?
    ensures m.competition.IsNullish() ==>
      Simplify(m).value.competition == CompetitionRef(Missing, Missing)
    ensures m.competition.Present? ==>
      Simplify(m).value.competition == CompetitionRef(m.competition.value.code, m.competition.value.name)
  {
  }

  /** A normalised record, read back as a raw one (every dropped property absent). */
  function Reread(f: Fixture): RawMatch {
    RawMatch(
      f.id, f.utcDate, Missing, f.matchday, f.stage, Missing, f.lastUpdated, Missing,
      Present(RawCompetition(Missing, f.competition.name, f.competition.code, Missing)),
      Present(RawTeam(f.homeTeam.id, f.homeTeam.name, Missing, Missing, f.homeTeam.crest)),
      Present(RawTeam(f.awayTeam.id, f.awayTeam.name, Missing, Missing, f.awayTeam.crest)))
  }

  /** `simplify` is a projection: a record of the output shape (whose matchday
      has been through `?? null`) comes back unchanged, so simplifying twice
      is simplifying once. */
  lemma SimplifyIsProjection(f: Fixture)
    requires f.matchday != Missing
    ensures Simplify(Reread(f)) == Ok(f)
  {
  }

  lemma SimplifyIdempotent(m: RawMatch)
    requires Simplify(m).Ok?
    ensures Simplify(Reread(Simplify(m).value)) == Simplify(m)
  {
  }

  // ---------------------------------------------------------------------
  // the chain
  // ---------------------------------------------------------------------

  /** Membership in the filtered list, read off `KeepNamedHome`'s counts. */
  lemma KeptMembers(ms: seq<RawMatch>)
    requires KeepNamedHome(ms).Ok?
    ensures forall m :: m in KeepNamedHome(ms).value <==> m in ms && HasHomeName(m)
  {
  }

  /** The filter keeps the response's order: filtering a concatenation is
      concatenating the filtered parts, and it throws iff one part does. */
  lemma {:induction false} KeepNamedHomeAppend(a: seq<RawMatch>, b: seq<RawMatch>)
    ensures KeepNamedHome(a + b).Ok? <==> KeepNamedHome(a).Ok? && KeepNamedHome(b).Ok?
    ensures KeepNamedHome(a + b).Ok? ==>
      KeepNamedHome(a + b).value == KeepNamedHome(a).value + KeepNamedHome(b).value
  {
    if a == [] {
      assert a + b == b;
    } else {
      assert (a + b)[0] == a[0];
      assert (a + b)[1..] == a[1..] + b;
      KeepNamedHomeAppend(a[1..], b);
      if KeepNamedHome(a + b).Ok? && HasHomeName(a[0]) {
        var ka, kb := KeepNamedHome(a[1..]).value, KeepNamedHome(b).value;
        assert [a[0]] + (ka + kb) == ([a[0]] + ka) + kb;
      }
    }
  }

  /** The chain throws exactly when some match has no home team (the filter
      reads its name), or some match that passes the filter has no away team
      (`simplify` reads its id). */
  lemma NormaliseSucceeds(data: Payload)
    ensures var ms := Matches(data);
      Normalise(data).Ok? <==>
        && (forall i :: 0 <= i < |ms| ==> ms[i].homeTeam.Present?)
        && (forall i :: 0 <= i < |ms| && HasHomeName(ms[i]) ==> ms[i].awayTeam.Present?)
  {
    var ms := Matches(data);
    if KeepNamedHome(ms).Ok? {
      var kept := KeepNamedHome(ms).value;
      KeptMembers(ms);
      if SimplifyAll(kept).Ok? {
        forall i | 0 <= i < |ms| && HasHomeName(ms[i])
          ensures ms[i].awayTeam.Present?
        {
          assert ms[i] in kept;
          var j :| 0 <= j < |kept| && kept[j] == ms[i];
          assert Simplify(kept[j]).Ok?;
        }
      } else {
        var j :| 0 <= j < |kept| && !Simplify(kept[j]).Ok?;
        assert kept[j] in kept;
        var i :| 0 <= i < |ms| && ms[i] == kept[j];
        assert HasHomeName(ms[i]) && !ms[i].awayTeam.Present?;
      }
    }
  }

  /** The list the chain sorts: the filtered matches, simplified, in input order. */
  function Unsorted(data: Payload): seq<Fixture>
    requires Normalise(data).Ok?
  {
    SimplifyAll(KeepNamedHome(Matches(data)).value).value
  }

  /** Filter postcondition: every record has a truthy home team name. */
  lemma NormaliseFiltered(data: Payload)
    requires Normalise(data).Ok?
    ensures forall f :: f in Normalise(data).value ==> Truthy(f.homeTeam.name)
  {
    var kept := KeepNamedHome(Matches(data)).value;
    var out := Normalise(data).value;
    var fs := SimplifyAll(kept).value;
    KeptMembers(Matches(data));
    forall f | f in out
      ensures Truthy(f.homeTeam.name)
    {
      assert f in multiset(fs);
      var j :| 0 <= j < |fs| && fs[j] == f;
      assert Simplify(kept[j]) == Ok(f);
      assert kept[j] in kept;
    }
  }

  /** The output is a permutation of the simplified filtered matches, and
      keeps matches with the same kick-off in the order the response listed
      them. */
  lemma NormaliseSortsStably(data: Payload)
    requires Normalise(data).Ok?
    ensures multiset(Normalise(data).value) == multiset(Unsorted(data))
    ensures forall k :: Sorting.WithKey(Normalise(data).value, UtcDate, k) == Sorting.WithKey(Unsorted(data), UtcDate, k)
  {
    forall k
      ensures Sorting.WithKey(Normalise(data).value, UtcDate, k) == Sorting.WithKey(Unsorted(data), UtcDate, k)
    {
      Sorting.SortIsStable(Unsorted(data), UtcDate, k);
    }
  }

  /** Nothing is added: each record is `simplify` of a match of the response
      whose home team has a truthy name. Nothing is lost: every such match
      contributes its record, whatever its away team's name. */
  lemma NormaliseKeepsExactly(data: Payload)
    requires Normalise(data).Ok?
    ensures forall f :: f in Normalise(data).value ==>
      exists m :: m in Matches(data) && HasHomeName(m) && Simplify(m) == Ok(f)
    ensures forall m :: m in Matches(data) && HasHomeName(m) ==>
      Simplify(m).Ok? && Simplify(m).value in Normalise(data).value
  {
    var ms := Matches(data);
    var kept := KeepNamedHome(ms).value;
    var fs := SimplifyAll(kept).value;
    var out := Normalise(data).value;
    KeptMembers(ms);
    assert multiset(out) == multiset(fs);
    forall f | f in out
      ensures exists m :: m in ms && HasHomeName(m) && Simplify(m) == Ok(f)
    {
      assert f in multiset(fs);
      var j :| 0 <= j < |fs| && fs[j] == f;
      assert kept[j] in kept && Simplify(kept[j]) == Ok(f);
    }
    forall m | m in ms && HasHomeName(m)
      ensures Simplify(m).Ok? && Simplify(m).value in out
    {
      assert m in kept;
      var j :| 0 <= j < |kept| && kept[j] == m;
      assert fs[j] in multiset(out);
    }
  }

  /** Any list that is sorted by kick-off and keeps each kick-off's matches in
      response order is the chain's output: every stable sort, whichever
      algorithm the engine uses, writes exactly this file. */
  lemma NormaliseIsTheStableSort(data: Payload, r: seq<Fixture>)
    requires Normalise(data).Ok?
    requires Sorting.SortedBy(r, UtcDate)
    requires forall k :: Sorting.WithKey(r, UtcDate, k) == Sorting.WithKey(Unsorted(data), UtcDate, k)
    ensures r == Normalise(data).value
  {
    Sorting.SortIsTheStableSort(Unsorted(data), r, UtcDate);
  }
}
