/** The odds pass (Services/OddsIngestionService.cs): every snapshot the odds
    client returns becomes one appended `GameOdds` row, after its provider,
    both teams and its game have been found or created.

    Every row the pass creates, apart from the odds rows, is saved at once,
    so each lookup sees everything created before it; the odds rows are
    saved by the next save. No lookup reads the odds table, so the model
    keeps one store and the final save is the store the loop ends with. */
module OddsIngestion {
  import opened Wrappers
  import opened SlateTime
  import opened Lookup
  import opened Entities
  import opened Feeds
  import opened Catalog

  datatype OddsDb = OddsDb(
    sports: seq<Sport>,
    leagues: seq<League>,
    providers: seq<OddsProvider>,
    teams: seq<Team>,
    games: seq<Game>,
    odds: seq<GameOdds>)

  /** `after` keeps every row of `before` unchanged in its place and may
      have more rows behind them, table by table. */
  predicate Grows(before: OddsDb, after: OddsDb) {
    && before.sports <= after.sports
    && before.leagues <= after.leagues
    && before.providers <= after.providers
    && before.teams <= after.teams
    && before.games <= after.games
    && before.odds <= after.odds
  }

  /** `after` differs from `before` in its odds table at most. */
  predicate OnlyOdds(before: OddsDb, after: OddsDb) {
    after == before.(odds := after.odds)
  }

  // ---- lookups ---------------------------------------------------------------

  predicate ProviderKnown(providers: seq<OddsProvider>, code: string) {
    exists j :: 0 <= j < |providers| && providers[j].code == code
  }

  /** The provider with the snapshot's code, created with that code as its
      name when there is none. */
  function EnsureProvider(providers: seq<OddsProvider>, code: string): (r: Found<OddsProvider>)
    ensures r.id < |r.rows| && r.rows[r.id].code == code
    ensures forall j :: 0 <= j < r.id ==> r.rows[j].code != code
    ensures ProviderKnown(providers, code) ==> r.rows == providers
    ensures !ProviderKnown(providers, code) ==>
              r.rows == providers + [OddsProvider(code, code)] && r.id == |providers|
  {
    FindOrAdd(providers, (p: OddsProvider) => p.code == code, OddsProvider(code, code))
  }

  predicate TeamNamed(teams: seq<Team>, leagueId: nat, name: string) {
    exists j :: 0 <= j < |teams| && teams[j].leagueId == leagueId && teams[j].name == name
  }

  /** FindTeam: the first team of the league whose name is exactly `name`
      (no trimming, no case folding, no abbreviation), created with only
      league and name set when there is none. */
  function FindTeam(teams: seq<Team>, leagueId: nat, name: string): (r: Found<Team>)
    ensures r.id < |r.rows| && r.rows[r.id].leagueId == leagueId && r.rows[r.id].name == name
    ensures forall j :: 0 <= j < r.id ==> !(r.rows[j].leagueId == leagueId && r.rows[j].name == name)
    ensures TeamNamed(teams, leagueId, name) ==> r.rows == teams
    ensures !TeamNamed(teams, leagueId, name) ==>
              r.rows == teams + [Team(leagueId, name, None, None, false)] && r.id == |teams|
  {
    FindOrAdd(teams, (t: Team) => t.leagueId == leagueId && t.name == name,
              Team(leagueId, name, None, None, false))
  }

  /** Looking the same name up again returns the same team and adds nothing. */
  lemma FindTeamIdempotent(teams: seq<Team>, leagueId: nat, name: string)
    ensures FindTeam(FindTeam(teams, leagueId, name).rows, leagueId, name) == FindTeam(teams, leagueId, name)
  {
    FindOrAddIdempotent(teams, (t: Team) => t.leagueId == leagueId && t.name == name,
                        Team(leagueId, name, None, None, false));
  }

  /** Under ordinal string equality, two different names never resolve to
      the same team: the odds pass does not trim names or match
      abbreviations the way the schedule pass does. */
  lemma FindTeamSeparatesSpellings(teams: seq<Team>, leagueId: nat, a: string, b: string)
    requires a != b
    ensures
      var first := FindTeam(teams, leagueId, a);
      FindTeam(first.rows, leagueId, b).id != first.id
  {
    var first := FindTeam(teams, leagueId, a);
    var second := FindTeam(first.rows, leagueId, b);
    assert second.rows[first.id] == first.rows[first.id];
  }

  predicate GameKnown(games: seq<Game>, externalRef: string) {
    exists j :: 0 <= j < |games| && games[j].externalRef == Some(externalRef)
  }

  /** The game row created for a snapshot whose game is not stored yet: the
      season is the year of its start time and the status is Scheduled. */
  function NewGame(cal: Calendar, leagueId: nat, s: OddsSnapshot, homeId: nat, awayId: nat): Game {
    Game(leagueId, cal.yearOf(s.gameTime), s.gameTime, homeId, awayId, Scheduled, Some(s.gameId))
  }

  // ---- one snapshot ----------------------------------------------------------

  /** The odds row points at the first game carrying the snapshot's id and
      at the first provider carrying its code. */
  predicate Resolves(db: OddsDb, row: GameOdds, s: OddsSnapshot) {
    && row.gameId < |db.games|
    && db.games[row.gameId].externalRef == Some(s.gameId)
    && (forall j :: 0 <= j < row.gameId ==> db.games[j].externalRef != Some(s.gameId))
    && row.oddsProviderId < |db.providers|
    && db.providers[row.oddsProviderId].code == s.providerCode
    && (forall j :: 0 <= j < row.oddsProviderId ==> db.providers[j].code != s.providerCode)
  }

  /** The row records the snapshot: resolved game and provider, the time
      the clock gave, and the eight quoted fields verbatim, absent ones
      included. */
  predicate Recorded(db: OddsDb, row: GameOdds, s: OddsSnapshot, now: Instant) {
    Resolves(db, row, s) && row.snapshotTimeUtc == now && row.quote == s.quote
  }

  /** What the store already holds for a snapshot: its provider, both team
      names in the league and its game. */
  predicate Covered(db: OddsDb, leagueId: nat, s: OddsSnapshot) {
    && ProviderKnown(db.providers, s.providerCode)
    && TeamNamed(db.teams, leagueId, s.homeTeam)
    && TeamNamed(db.teams, leagueId, s.awayTeam)
    && GameKnown(db.games, s.gameId)
  }

  /** One iteration of the loop: the provider, the home team, the away team
      and the game are found or created in that order, then the odds row is
      appended. A stored game is used as it is, never updated. */
  function IngestSnapshot(db: OddsDb, cal: Calendar, leagueId: nat, s: OddsSnapshot, now: Instant): (r: OddsDb)
    ensures Grows(db, r) && r.sports == db.sports && r.leagues == db.leagues
    ensures |r.odds| == |db.odds| + 1 && Recorded(r, r.odds[|db.odds|], s, now)
  {
    var provider := EnsureProvider(db.providers, s.providerCode);
    var home := FindTeam(db.teams, leagueId, s.homeTeam);
    var away := FindTeam(home.rows, leagueId, s.awayTeam);
    var game := FindOrAdd(db.games, (g: Game) => g.externalRef == Some(s.gameId),
                          NewGame(cal, leagueId, s, home.id, away.id));
    db.(providers := provider.rows, teams := away.rows, games := game.rows,
        odds := db.odds + [GameOdds(game.id, provider.id, now, s.quote)])
  }

  /** What one iteration writes besides the odds row: a provider named
      after its code when the code is new, at most two teams, and a new
      game only for an unknown id, with the year of its start time as
      season, status Scheduled and the two resolved teams. */
  lemma IngestSnapshotTables(db: OddsDb, cal: Calendar, leagueId: nat, s: OddsSnapshot, now: Instant)
    ensures
      var r := IngestSnapshot(db, cal, leagueId, s, now);
      && (ProviderKnown(db.providers, s.providerCode) ==> r.providers == db.providers)
      && (!ProviderKnown(db.providers, s.providerCode) ==>
            r.providers == db.providers + [OddsProvider(s.providerCode, s.providerCode)])
      && |r.teams| <= |db.teams| + 2
      && (GameKnown(db.games, s.gameId) ==> r.games == db.games)
      && (!GameKnown(db.games, s.gameId) ==>
            && |r.games| == |db.games| + 1
            && var g := r.games[|db.games|];
            && g.leagueId == leagueId && g.season == cal.yearOf(s.gameTime) && g.gameDateTime == s.gameTime
            && g.status == Scheduled && g.externalRef == Some(s.gameId)
            && g.homeTeamId < |r.teams| && r.teams[g.homeTeamId].leagueId == leagueId
            && r.teams[g.homeTeamId].name == s.homeTeam
            && g.awayTeamId < |r.teams| && r.teams[g.awayTeamId].leagueId == leagueId
            && r.teams[g.awayTeamId].name == s.awayTeam)
  {
    var home := FindTeam(db.teams, leagueId, s.homeTeam);
    var away := FindTeam(home.rows, leagueId, s.awayTeam);
    assert away.rows[home.id] == home.rows[home.id];
  }

  /** After one iteration the store holds everything the snapshot needs;
      when it held all of it already, only the odds row is new. */
  lemma IngestSnapshotCovers(db: OddsDb, cal: Calendar, leagueId: nat, s: OddsSnapshot, now: Instant)
    ensures Covered(IngestSnapshot(db, cal, leagueId, s, now), leagueId, s)
    ensures Covered(db, leagueId, s) ==> OnlyOdds(db, IngestSnapshot(db, cal, leagueId, s, now))
  {
    var r := IngestSnapshot(db, cal, leagueId, s, now);
    var provider := EnsureProvider(db.providers, s.providerCode);
    var home := FindTeam(db.teams, leagueId, s.homeTeam);
    var away := FindTeam(home.rows, leagueId, s.awayTeam);
    assert r.providers[provider.id].code == s.providerCode;
    assert r.teams[home.id] == home.rows[home.id];
    assert r.teams[away.id].name == s.awayTeam;
    assert r.odds[|db.odds|].gameId < |r.games|;
  }

  /** A recorded row stays recorded as the store grows. */
  lemma RecordedKept(a: OddsDb, b: OddsDb, row: GameOdds, s: OddsSnapshot, now: Instant)
    requires Grows(a, b) && Recorded(a, row, s, now)
    ensures Recorded(b, row, s, now)
  {
    assert forall j :: 0 <= j < |a.games| ==> b.games[j] == a.games[j];
    assert forall j :: 0 <= j < |a.providers| ==> b.providers[j] == a.providers[j];
  }

  /** What the store holds for a snapshot it keeps holding as it grows. */
  lemma CoveredKept(a: OddsDb, b: OddsDb, leagueId: nat, s: OddsSnapshot)
    requires Grows(a, b) && Covered(a, leagueId, s)
    ensures Covered(b, leagueId, s)
  {
    var p :| 0 <= p < |a.providers| && a.providers[p].code == s.providerCode;
    assert b.providers[p] == a.providers[p];
    var h :| 0 <= h < |a.teams| && a.teams[h].leagueId == leagueId && a.teams[h].name == s.homeTeam;
    assert b.teams[h] == a.teams[h];
    var w :| 0 <= w < |a.teams| && a.teams[w].leagueId == leagueId && a.teams[w].name == s.awayTeam;
    assert b.teams[w] == a.teams[w];
    var g :| 0 <= g < |a.games| && a.games[g].externalRef == Some(s.gameId);
    assert b.games[g] == a.games[g];
  }

  // ---- the run ---------------------------------------------------------------

  /** The store holds a BASKETBALL sport and an NBA league. */
  predicate CatalogPresent(db: OddsDb) {
    && (exists j :: 0 <= j < |db.sports| && db.sports[j].code == BasketballCode)
    && (exists j :: 0 <= j < |db.leagues| && db.leagues[j].code == NbaCode)
  }

  /** The id of the league the pass files teams and games under. */
  function LeagueOf(db: OddsDb): nat {
    EnsureLeague(db.leagues, EnsureSport(db.sports).id).id
  }

  predicate AllCovered(db: OddsDb, leagueId: nat, snaps: seq<OddsSnapshot>) {
    forall k :: 0 <= k < |snaps| ==> Covered(db, leagueId, snaps[k])
  }

  /** The odds rows from position `base` on record the snapshots, one each,
      in feed order. */
  predicate AllRecorded(db: OddsDb, base: nat, snaps: seq<OddsSnapshot>, clock: nat -> Instant) {
    && base + |snaps| <= |db.odds|
    && forall k :: 0 <= k < |snaps| ==> Recorded(db, db.odds[base + k], snaps[k], clock(k))
  }

  /** Where the loop stands after `i` snapshots: rows of `start` kept, one
      odds row recorded per snapshot so far, everything those snapshots
      needed present, and nothing but odds rows written when the store held
      everything for the whole feed at the start. */
  predicate Progressed(start: OddsDb, db: OddsDb, leagueId: nat, snaps: seq<OddsSnapshot>, clock: nat -> Instant, i: nat) {
    && i <= |snaps|
    && Grows(start, db) && db.sports == start.sports && db.leagues == start.leagues
    && |db.odds| == |start.odds| + i
    && (forall k :: 0 <= k < i ==> Recorded(db, db.odds[|start.odds| + k], snaps[k], clock(k)))
    && (forall k :: 0 <= k < i ==> Covered(db, leagueId, snaps[k]))
    && (AllCovered(start, leagueId, snaps) ==> OnlyOdds(start, db))
  }

  /** The rows recorded so far stay recorded when one more is appended. */
  lemma RecordedExtend(start: OddsDb, db: OddsDb, next: OddsDb, snaps: seq<OddsSnapshot>, clock: nat -> Instant, i: nat)
    requires i < |snaps| && |db.odds| == |start.odds| + i
    requires forall k :: 0 <= k < i ==> Recorded(db, db.odds[|start.odds| + k], snaps[k], clock(k))
    requires Grows(db, next) && |next.odds| == |db.odds| + 1
    requires Recorded(next, next.odds[|db.odds|], snaps[i], clock(i))
    ensures forall k :: 0 <= k < i + 1 ==> Recorded(next, next.odds[|start.odds| + k], snaps[k], clock(k))
  {
    var base := |start.odds|;
    forall k | 0 <= k < i + 1
      ensures Recorded(next, next.odds[base + k], snaps[k], clock(k))
    {
      if k < i {
        assert next.odds[base + k] == db.odds[base + k];
        RecordedKept(db, next, db.odds[base + k], snaps[k], clock(k));
      }
    }
  }

  /** What the earlier snapshots needed stays present when the store grows. */
  lemma CoveredExtend(db: OddsDb, next: OddsDb, leagueId: nat, snaps: seq<OddsSnapshot>, i: nat)
    requires i < |snaps|
    requires forall k :: 0 <= k < i ==> Covered(db, leagueId, snaps[k])
    requires Grows(db, next) && Covered(next, leagueId, snaps[i])
    ensures forall k :: 0 <= k < i + 1 ==> Covered(next, leagueId, snaps[k])
  {
    forall k | 0 <= k < i
      ensures Covered(next, leagueId, snaps[k])
    {
      CoveredKept(db, next, leagueId, snaps[k]);
    }
  }

  /** One more snapshot keeps the loop's account. */
  lemma IngestStep(start: OddsDb, db: OddsDb, cal: Calendar, leagueId: nat, snaps: seq<OddsSnapshot>, clock: nat -> Instant, i: nat)
    requires Progressed(start, db, leagueId, snaps, clock, i) && i < |snaps|
    ensures Progressed(start, IngestSnapshot(db, cal, leagueId, snaps[i], clock(i)), leagueId, snaps, clock, i + 1)
  {
    var next := IngestSnapshot(db, cal, leagueId, snaps[i], clock(i));
    IngestSnapshotCovers(db, cal, leagueId, snaps[i], clock(i));
    RecordedExtend(start, db, next, snaps, clock, i);
    CoveredExtend(db, next, leagueId, snaps, i);
    if AllCovered(start, leagueId, snaps) {
      assert Covered(db, leagueId, snaps[i]);
    }
  }

  /** The loop of the pass over a store whose sport and league are in
      place: one odds row per snapshot, in feed order. */
  method IngestAll(start: OddsDb, cal: Calendar, leagueId: nat, snaps: seq<OddsSnapshot>, clock: nat -> Instant)
    returns (after: OddsDb)
    ensures Grows(start, after) && after.sports == start.sports && after.leagues == start.leagues
    ensures |after.odds| == |start.odds| + |snaps|
    ensures AllRecorded(after, |start.odds|, snaps, clock)
    ensures AllCovered(after, leagueId, snaps)
    ensures AllCovered(start, leagueId, snaps) ==> OnlyOdds(start, after)
  {
    after := start;
    var i := 0;
    while i < |snaps|
      invariant Progressed(start, after, leagueId, snaps, clock, i)
    {
      IngestStep(start, after, cal, leagueId, snaps, clock, i);
      after := IngestSnapshot(after, cal, leagueId, snaps[i], clock(i));
      i := i + 1;
    }
  }

  /** Ensuring sport and league leaves both present, files under the same
      league when done again, and writes nothing when both were there. */
  lemma PrepareCatalog(db: OddsDb)
    ensures
      var sport := EnsureSport(db.sports);
      var league := EnsureLeague(db.leagues, sport.id);
      var start := db.(sports := sport.rows, leagues := league.rows);
      && CatalogPresent(start)
      && LeagueOf(db) == league.id == LeagueOf(start)
      && (CatalogPresent(db) ==> start == db)
  {
    var sport := EnsureSport(db.sports);
    var league := EnsureLeague(db.leagues, sport.id);
    EnsureCatalogIdempotent(db.sports, db.leagues, sport.id);
    assert sport.rows[sport.id].code == BasketballCode;
    assert league.rows[league.id].code == NbaCode;
  }

  /** RunOnceAsync, given the snapshots the odds client returned and the
      clock reading taken at each iteration. An empty feed writes nothing;
      otherwise sport and league are ensured and exactly one odds row is
      appended per snapshot, in feed order, and nothing is ever updated or
      removed. */
  method RunOdds(db: OddsDb, cal: Calendar, snaps: seq<OddsSnapshot>, clock: nat -> Instant) returns (after: OddsDb)
    ensures |snaps| == 0 ==> after == db
    ensures Grows(db, after)
    ensures |after.odds| == |db.odds| + |snaps|
    ensures AllRecorded(after, |db.odds|, snaps, clock)
    ensures |snaps| > 0 ==>
      && after.sports == EnsureSport(db.sports).rows
      && after.leagues == EnsureLeague(db.leagues, EnsureSport(db.sports).id).rows
      && CatalogPresent(after)
      && LeagueOf(after) == LeagueOf(db)
      && AllCovered(after, LeagueOf(db), snaps)
    ensures CatalogPresent(db) && AllCovered(db, LeagueOf(db), snaps) ==> OnlyOdds(db, after)
  {
    if |snaps| == 0 {
      return db;
    }
    var sport := EnsureSport(db.sports);
    var league := EnsureLeague(db.leagues, sport.id);
    var start := db.(sports := sport.rows, leagues := league.rows);
    PrepareCatalog(db);
    after := IngestAll(start, cal, league.id, snaps, clock);
    assert |start.odds| == |db.odds|;
    assert LeagueOf(after) == LeagueOf(start);
  }

  /** Running the same feed twice: the second run finds every provider,
      team and game the first one stored, so it adds only its odds rows. */
  method RunOddsTwice(db: OddsDb, cal: Calendar, snaps: seq<OddsSnapshot>, clock: nat -> Instant)
    returns (first: OddsDb, second: OddsDb)
    ensures second == first.(odds := second.odds)
    ensures |second.odds| == |first.odds| + |snaps|
  {
    first := RunOdds(db, cal, snaps, clock);
    second := RunOdds(first, cal, snaps, clock);
  }
}
