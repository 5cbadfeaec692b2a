/** Find-or-create over a table, and the sport and league rows both the
    schedule pass and the odds pass ensure before touching games. */
module Catalog {
  import opened Wrappers
  import opened Lookup
  import opened Entities
  import opened Feeds

  /** A table after a find-or-create, and the id of the row it resolved to. */
  datatype Found<T> = Found(rows: seq<T>, id: nat)

  /** Looks up the first row satisfying `matches` and appends `created` when
      there is none. The created row must itself match what was looked up. */
  function FindOrAdd<T>(rows: seq<T>, matches: T -> bool, created: T): (r: Found<T>)
    requires matches(created)
    ensures r.id < |r.rows| && matches(r.rows[r.id])
    ensures forall j :: 0 <= j < r.id ==> !matches(r.rows[j])
    ensures Exists(rows, matches) ==> r.rows == rows
    ensures !Exists(rows, matches) ==> r.rows == rows + [created] && r.id == |rows|
  {
    match FirstIndex(rows, matches)
    case Some(i) => Found(rows, i)
    case None => Found(rows + [created], |rows|)
  }

  /** Find-or-create is idempotent: repeating it on its own result finds the
      same row and adds nothing. */
  lemma FindOrAddIdempotent<T>(rows: seq<T>, matches: T -> bool, created: T)
    requires matches(created)
    ensures FindOrAdd(FindOrAdd(rows, matches, created).rows, matches, created)
            == FindOrAdd(rows, matches, created)
  {
    var r := FindOrAdd(rows, matches, created);
    assert matches(r.rows[r.id]);
  }

  /** No two rows share a key. */
  predicate Distinct<T, K(==)>(rows: seq<T>, key: T -> K) {
    forall i, j :: 0 <= i < j < |rows| ==> key(rows[i]) != key(rows[j])
  }

  /** Find-or-create by key never introduces a second row with that key. */
  lemma FindOrAddKeepsDistinct<T, K>(rows: seq<T>, key: T -> K, k: K, created: T)
    requires key(created) == k
    requires Distinct(rows, key)
    ensures Distinct(FindOrAdd(rows, x => key(x) == k, created).rows, key)
  {
  }

  const BasketballCode := "BASKETBALL"
  const Basketball := Sport("Basketball", BasketballCode)

  /** The first sport with code BASKETBALL, created when there is none. */
  function EnsureSport(sports: seq<Sport>): (r: Found<Sport>)
    ensures r.id < |r.rows| && r.rows[r.id].code == BasketballCode
    ensures forall j :: 0 <= j < r.id ==> r.rows[j].code != BasketballCode
    ensures (exists j :: 0 <= j < |sports| && sports[j].code == BasketballCode) ==> r.rows == sports
    ensures (forall j :: 0 <= j < |sports| ==> sports[j].code != BasketballCode) ==>
              r.rows == sports + [Basketball] && r.id == |sports|
  {
    FindOrAdd(sports, (s: Sport) => s.code == BasketballCode, Basketball)
  }

  /** The first league with code NBA, whatever its sport, created under the
      given sport when there is none. */
  function EnsureLeague(leagues: seq<League>, sportId: nat): (r: Found<League>)
    ensures r.id < |r.rows| && r.rows[r.id].code == NbaCode
    ensures forall j :: 0 <= j < r.id ==> r.rows[j].code != NbaCode
    ensures (exists j :: 0 <= j < |leagues| && leagues[j].code == NbaCode) ==> r.rows == leagues
    ensures (forall j :: 0 <= j < |leagues| ==> leagues[j].code != NbaCode) ==>
              r.rows == leagues + [League(sportId, NbaCode, NbaCode)] && r.id == |leagues|
  {
    FindOrAdd(leagues, (l: League) => l.code == NbaCode, League(sportId, NbaCode, NbaCode))
  }

  /** Ensuring the sport and league a second time finds the rows the first
      time resolved and writes nothing. */
  lemma EnsureCatalogIdempotent(sports: seq<Sport>, leagues: seq<League>, sportId: nat)
    ensures EnsureSport(EnsureSport(sports).rows) == EnsureSport(sports)
    ensures EnsureLeague(EnsureLeague(leagues, sportId).rows, sportId) == EnsureLeague(leagues, sportId)
  {
    FindOrAddIdempotent(sports, (s: Sport) => s.code == BasketballCode, Basketball);
    FindOrAddIdempotent(leagues, (l: League) => l.code == NbaCode, League(sportId, NbaCode, NbaCode));
  }
}
