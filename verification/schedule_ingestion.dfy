/** The schedule pass (Services/ScheduleIngestionService.cs): derive team
    abbreviations, find-or-create teams, and upsert one game row per
    scheduled game keyed by the provider's game id.

    The pass runs inside one unit of work. Team rows are saved as soon as
    they are created, and every save also writes the game rows the pass has
    added or changed so far; the remaining game changes are saved once, after
    the loop. Lookups read saved rows only. */
module ScheduleIngestion {
  import opened Wrappers
  import opened SlateTime
  import opened Text
  import opened Lookup
  import opened Entities
  import opened Feeds
  import opened Catalog

  // ---- team abbreviation -----------------------------------------------------

  const FallbackAbbreviation := "TEAM"
  const MaxAbbreviationLength := 10

  function CleanChar(c: char): Option<char> {
    if IsLetterOrDigit(c) then Some(ToUpper(c)) else None
  }

  /** The letters and digits of a name, upper-cased, in their order. */
  function Cleaned(s: string): string {
    FilterMap(s, CleanChar)
  }

  lemma {:induction false} CleanedIsUpperOrDigit(s: string)
    ensures forall i :: 0 <= i < |Cleaned(s)| ==> IsUpperOrDigit(Cleaned(s)[i])
  {
    FilterMapKeeps(s, CleanChar);
  }

  function Min(a: int, b: int): int {
    if a < b then a else b
  }

  /** BuildTeamAbbreviation: "TEAM" for a blank name or one without letters
      or digits; otherwise the first ten upper-cased letters and digits. */
  function BuildTeamAbbreviation(name: Option<string>): (r: string)
    ensures 1 <= |r| <= MaxAbbreviationLength
    ensures forall i :: 0 <= i < |r| ==> IsUpperOrDigit(r[i])
    ensures IsBlank(name) ==> r == FallbackAbbreviation
    ensures !IsBlank(name) && Cleaned(name.value) == [] ==> r == FallbackAbbreviation
    ensures !IsBlank(name) && Cleaned(name.value) != [] ==>
              |r| == Min(|Cleaned(name.value)|, MaxAbbreviationLength)
              && r == Cleaned(name.value)[..|r|]
  {
    if IsBlank(name) then FallbackAbbreviation
    else
      var cleaned := Cleaned(name.value);
      CleanedIsUpperOrDigit(name.value);
      if |cleaned| >= 3 then
        if |cleaned| > MaxAbbreviationLength then cleaned[..MaxAbbreviationLength] else cleaned
      else if |cleaned| > 0 then cleaned
      else FallbackAbbreviation
  }

  /** Cleaning a string of upper-case letters and digits gives it back. */
  lemma {:induction false} CleanedKeepsUpperOrDigit(s: string)
    requires forall i :: 0 <= i < |s| ==> IsUpperOrDigit(s[i])
    ensures Cleaned(s) == s
  {
    if |s| > 0 {
      CleanedKeepsUpperOrDigit(s[..|s| - 1]);
      assert s[..|s| - 1] + [s[|s| - 1]] == s;
    }
  }

  /** An abbreviation is its own abbreviation. */
  lemma AbbreviationIdempotent(name: Option<string>)
    ensures BuildTeamAbbreviation(Some(BuildTeamAbbreviation(name))) == BuildTeamAbbreviation(name)
  {
    var r := BuildTeamAbbreviation(name);
    CleanedKeepsUpperOrDigit(r);
    assert !IsWhiteSpace(r[0]);
  }

  /** White space carries no letters or digits. */
  lemma {:induction false} CleanedOfWhiteSpace(s: string)
    requires forall i :: 0 <= i < |s| ==> IsWhiteSpace(s[i])
    ensures Cleaned(s) == []
  {
    if |s| > 0 {
      CleanedOfWhiteSpace(s[..|s| - 1]);
    }
  }

  /** Trimming a name does not change its letters and digits. */
  lemma CleanedIgnoresTrim(s: string)
    ensures Cleaned(Trim(s)) == Cleaned(s)
  {
    var r := Trim(s);
    var i := LeadingCount(s, IsWhiteSpace);
    var head, tail := s[..i], s[i + |r|..];
    assert s == head + r + tail;
    CleanedOfWhiteSpace(head);
    CleanedOfWhiteSpace(tail);
    FilterMapAppend(head + r, tail, CleanChar);
    FilterMapAppend(head, r, CleanChar);
  }

  /** A name and its trimmed form share their abbreviation. */
  lemma AbbreviationIgnoresTrim(s: string)
    ensures BuildTeamAbbreviation(Some(Trim(s))) == BuildTeamAbbreviation(Some(s))
  {
    CleanedIgnoresTrim(s);
    TrimEmptyIffBlank(s);
    TrimIdempotent(s);
    TrimEmptyIffBlank(Trim(s));
  }

  // ---- the unit of work ------------------------------------------------------

  /** The tables the schedule pass touches. */
  datatype ScheduleDb = ScheduleDb(
    sports: seq<Sport>,
    leagues: seq<League>,
    teams: seq<Team>,
    games: seq<SlateGame>)

  /** One run's unit of work: `db` is what has been saved; `tracked` holds the
      in-memory values of the saved game rows, where updates land first;
      `added` holds new game rows not yet saved. */
  datatype Session = Session(db: ScheduleDb, tracked: seq<SlateGame>, added: seq<SlateGame>) {

    /** The tracked rows are the saved rows, possibly with newer values; a
        game's external ref is never rewritten. */
    predicate Valid() {
      && |tracked| == |db.games|
      && forall i :: 0 <= i < |tracked| ==> tracked[i].externalRef == db.games[i].externalRef
    }

    /** The game table the next save writes. */
    function Pending(): seq<SlateGame> {
      tracked + added
    }
  }

  /** A fresh unit of work over the saved store: nothing is changed or added
      yet, so saving it straight away writes the store back as it was. */
  function Open(db: ScheduleDb): (s: Session)
    ensures s.Valid()
    ensures s.db == db && s.added == [] && s.Pending() == db.games
    ensures Save(s).db == db
  {
    Session(db, db.games, [])
  }

  /** SaveChanges: every tracked change and every added game is written. */
  function Save(s: Session): (s': Session)
    ensures s'.Valid() && s'.added == []
    ensures s'.Pending() == s.Pending() && s'.db.games == s.Pending()
    ensures s'.db.teams == s.db.teams
  {
    Session(s.db.(games := s.Pending()), s.Pending(), [])
  }

  // ---- teams -----------------------------------------------------------------

  /** The team lookup: same league, and the stored name is the trimmed name
      or the stored abbreviation is the derived one. */
  predicate TeamMatches(t: Team, leagueId: nat, name: string, abbreviation: string) {
    t.leagueId == leagueId && (t.name == name || t.abbreviation == Some(abbreviation))
  }

  function Abbreviation(trimmed: string): string {
    BuildTeamAbbreviation(Some(trimmed))
  }

  /** The team row created for a trimmed name. */
  function NewTeam(leagueId: nat, trimmed: string): Team {
    Team(leagueId, trimmed, Some(Abbreviation(trimmed)), Some(trimmed), true)
  }

  /** Some team of the league matches the trimmed name or its abbreviation. */
  predicate TeamKnown(teams: seq<Team>, leagueId: nat, trimmed: string) {
    exists j :: 0 <= j < |teams| && TeamMatches(teams[j], leagueId, trimmed, Abbreviation(trimmed))
  }

  datatype Resolved = Resolved(session: Session, teamId: nat)

  const TeamNameRequired := "Team name is required"

  /** FindOrCreateTeamAsync. A blank name throws and nothing changes; a
      matching team in the league is returned with the store untouched;
      otherwise exactly one team is added, and saved together with every
      pending game change. */
  function FindOrCreateTeam(s: Session, leagueId: nat, name: Option<string>): (r: Result<Resolved, string>)
    requires s.Valid()
    ensures r.Failure? <==> IsBlank(name)
    ensures r.Failure? ==> r.error == TeamNameRequired
    ensures r.Success? ==>
      var trimmed := Trim(name.value);
      var teams := r.value.session.db.teams;
      && r.value.session.Valid()
      && r.value.teamId < |teams|
      && TeamMatches(teams[r.value.teamId], leagueId, trimmed, Abbreviation(trimmed))
      && (forall j :: 0 <= j < r.value.teamId ==> !TeamMatches(teams[j], leagueId, trimmed, Abbreviation(trimmed)))
    ensures r.Success? && TeamKnown(s.db.teams, leagueId, Trim(name.value)) ==> r.value.session == s
    ensures r.Success? && !TeamKnown(s.db.teams, leagueId, Trim(name.value)) ==>
      && r.value.teamId == |s.db.teams|
      && r.value.session == Save(s.(db := s.db.(teams := s.db.teams + [NewTeam(leagueId, Trim(name.value))])))
  {
    if IsBlank(name) then Failure(TeamNameRequired)
    else
      var trimmed := Trim(name.value);
      var abbreviation := Abbreviation(trimmed);
      var found := FindOrAdd(s.db.teams, t => TeamMatches(t, leagueId, trimmed, abbreviation),
                             NewTeam(leagueId, trimmed));
      if found.rows == s.db.teams then Success(Resolved(s, found.id))
      else Success(Resolved(Save(s.(db := s.db.(teams := found.rows))), found.id))
  }

  /** Resolving the same name again finds the team the first call resolved
      and changes nothing. */
  lemma FindOrCreateTeamIdempotent(s: Session, leagueId: nat, name: Option<string>)
    requires s.Valid()
    requires FindOrCreateTeam(s, leagueId, name).Success?
    ensures FindOrCreateTeam(FindOrCreateTeam(s, leagueId, name).value.session, leagueId, name)
            == FindOrCreateTeam(s, leagueId, name)
  {
    var r := FindOrCreateTeam(s, leagueId, name).value;
    var trimmed := Trim(name.value);
    assert TeamMatches(r.session.db.teams[r.teamId], leagueId, trimmed, Abbreviation(trimmed));
  }

  /** Aliases collapse: once a team carrying the derived abbreviation has
      been resolved, any other non-blank name with the same abbreviation
      resolves to that team or an earlier one, and adds no team. */
  lemma FindOrCreateTeamResolvesAliases(s: Session, leagueId: nat, first: Option<string>, second: Option<string>)
    requires s.Valid()
    requires FindOrCreateTeam(s, leagueId, first).Success?
    requires !IsBlank(second)
    requires Abbreviation(Trim(second.value)) == Abbreviation(Trim(first.value))
    requires
      var r := FindOrCreateTeam(s, leagueId, first).value;
      r.session.db.teams[r.teamId].abbreviation == Some(Abbreviation(Trim(first.value)))
    ensures
      var r := FindOrCreateTeam(s, leagueId, first).value;
      var r2 := FindOrCreateTeam(r.session, leagueId, second);
      r2.Success? && r2.value.session == r.session && r2.value.teamId <= r.teamId
  {
    var r := FindOrCreateTeam(s, leagueId, first).value;
    var trimmed := Trim(second.value);
    assert TeamMatches(r.session.db.teams[r.teamId], leagueId, trimmed, Abbreviation(trimmed));
  }

  // ---- games -----------------------------------------------------------------

  /** The game row created for a scheduled game. */
  function NewGame(cal: Calendar, leagueId: nat, g: ScheduleGameDto, homeId: nat, awayId: nat): SlateGame {
    SlateGame(leagueId, g.season, g.startTimeUtc, cal.slateDay(g.startTimeUtc), homeId, awayId, g.externalGameId)
  }

  /** Position of the first saved game carrying the record's external ref. */
  function FindGame(s: Session, externalRef: Option<string>): Option<nat> {
    FirstIndex(s.db.games, (x: SlateGame) => x.externalRef == externalRef)
  }

  /** The game upsert. A game whose ref is not saved yet is added (pending
      the next save). A saved game gets the new start time, slate day and
      teams, and the new season only when that is not blank; its league and
      ref stay. Every other row stays as it was. */
  function UpsertGame(s: Session, cal: Calendar, leagueId: nat, g: ScheduleGameDto, homeId: nat, awayId: nat): (s': Session)
    requires s.Valid()
    ensures s'.Valid() && s'.db == s.db
    ensures FindGame(s, g.externalGameId).None? ==>
              s'.tracked == s.tracked && s'.added == s.added + [NewGame(cal, leagueId, g, homeId, awayId)]
    ensures FindGame(s, g.externalGameId).Some? ==>
      var i := FindGame(s, g.externalGameId).value;
      var before, after := s.tracked[i], s'.tracked[i];
      && s'.added == s.added
      && |s'.tracked| == |s.tracked|
      && (forall j :: 0 <= j < |s.tracked| && j != i ==> s'.tracked[j] == s.tracked[j])
      && after.externalRef == g.externalGameId
      && after.leagueId == before.leagueId
      && after.startTimeUtc == g.startTimeUtc
      && after.gameDateUtc == cal.slateDay(g.startTimeUtc)
      && after.homeTeamId == homeId && after.awayTeamId == awayId
      && after.season == (if IsBlank(g.season) then before.season else g.season)
  {
    match FindGame(s, g.externalGameId)
    case None => s.(added := s.added + [NewGame(cal, leagueId, g, homeId, awayId)])
    case Some(i) =>
      var row := s.tracked[i].(
        startTimeUtc := g.startTimeUtc,
        gameDateUtc := cal.slateDay(g.startTimeUtc),
        homeTeamId := homeId,
        awayTeamId := awayId,
        season := if IsBlank(g.season) then s.tracked[i].season else g.season);
      s.(tracked := s.tracked[i := row])
  }

  predicate RefIn(rows: seq<SlateGame>, externalRef: Option<string>) {
    exists j :: 0 <= j < |rows| && rows[j].externalRef == externalRef
  }

  /** After saving an upsert that added a row, the lookup finds that row. */
  lemma FindGameAfterAdd(s: Session, cal: Calendar, leagueId: nat, g: ScheduleGameDto, homeId: nat, awayId: nat)
    requires s.Valid()
    requires !RefIn(s.added, g.externalGameId)
    requires FindGame(s, g.externalGameId).None?
    ensures
      var saved := Save(UpsertGame(s, cal, leagueId, g, homeId, awayId));
      && FindGame(saved, g.externalGameId) == Some(|s.Pending()|)
      && saved.db.games[|s.Pending()|] == NewGame(cal, leagueId, g, homeId, awayId)
  {
    var saved := Save(UpsertGame(s, cal, leagueId, g, homeId, awayId));
    var n := |s.Pending()|;
    assert saved.db.games == s.Pending() + [NewGame(cal, leagueId, g, homeId, awayId)];
    assert saved.db.games[n] == NewGame(cal, leagueId, g, homeId, awayId);
    forall j | 0 <= j < n ensures saved.db.games[j].externalRef != g.externalGameId {
      if j < |s.tracked| {
        assert saved.db.games[j] == s.tracked[j];
      } else {
        assert saved.db.games[j] == s.added[j - |s.tracked|];
      }
    }
  }

  /** After saving an upsert that updated a saved row, the lookup finds the
      same row. */
  lemma FindGameAfterUpdate(s: Session, cal: Calendar, leagueId: nat, g: ScheduleGameDto, homeId: nat, awayId: nat)
    requires s.Valid()
    requires FindGame(s, g.externalGameId).Some?
    ensures
      var saved := Save(UpsertGame(s, cal, leagueId, g, homeId, awayId));
      FindGame(saved, g.externalGameId) == FindGame(s, g.externalGameId)
  {
    var s1 := UpsertGame(s, cal, leagueId, g, homeId, awayId);
    var saved := Save(s1);
    var i := FindGame(s, g.externalGameId).value;
    assert saved.db.games[i] == s1.tracked[i];
    assert forall j :: 0 <= j < i ==> saved.db.games[j].externalRef == s.db.games[j].externalRef;
  }

  /** Once the upsert is saved, running it again leaves the saved game table
      exactly as it was: the game resolver is idempotent across saves. */
  lemma UpsertGameIdempotentOnceSaved(s: Session, cal: Calendar, leagueId: nat, g: ScheduleGameDto, homeId: nat, awayId: nat)
    requires s.Valid()
    requires !RefIn(s.added, g.externalGameId)
    ensures
      var saved := Save(UpsertGame(s, cal, leagueId, g, homeId, awayId));
      Save(UpsertGame(saved, cal, leagueId, g, homeId, awayId)) == saved
  {
    var saved := Save(UpsertGame(s, cal, leagueId, g, homeId, awayId));
    var s2 := UpsertGame(saved, cal, leagueId, g, homeId, awayId);
    if FindGame(s, g.externalGameId).None? {
      FindGameAfterAdd(s, cal, leagueId, g, homeId, awayId);
    } else {
      FindGameAfterUpdate(s, cal, leagueId, g, homeId, awayId);
    }
    assert s2.tracked == saved.tracked;
  }

  /** Within one unit of work a game is looked up among saved rows only, so
      the same new ref upserted twice before a save yields two pending rows
      with that ref. */
  lemma UpsertGameRepeatedBeforeSave(s: Session, cal: Calendar, leagueId: nat, g: ScheduleGameDto, homeId: nat, awayId: nat)
    requires s.Valid()
    requires !RefIn(s.db.games, g.externalGameId)
    ensures
      var s2 := UpsertGame(UpsertGame(s, cal, leagueId, g, homeId, awayId), cal, leagueId, g, homeId, awayId);
      && |s2.Pending()| == |s.Pending()| + 2
      && s2.Pending()[|s.Pending()|].externalRef == g.externalGameId
      && s2.Pending()[|s.Pending()| + 1].externalRef == g.externalGameId
  {
  }

  // ---- the run ---------------------------------------------------------------

  /** The rows of `before` keep their positions and refs in `after`, which may
      have more rows behind them. */
  predicate RefsExtend(before: seq<SlateGame>, after: seq<SlateGame>) {
    && |before| <= |after|
    && forall i :: 0 <= i < |before| ==> after[i].externalRef == before[i].externalRef
  }

  lemma RefsExtendTransitive(a: seq<SlateGame>, b: seq<SlateGame>, c: seq<SlateGame>)
    requires RefsExtend(a, b) && RefsExtend(b, c)
    ensures RefsExtend(a, c)
  {
  }

  lemma RefInExtended(a: seq<SlateGame>, b: seq<SlateGame>, externalRef: Option<string>)
    requires RefsExtend(a, b) && RefIn(a, externalRef)
    ensures RefIn(b, externalRef)
  {
    var j :| 0 <= j < |a| && a[j].externalRef == externalRef;
    assert b[j].externalRef == externalRef;
  }

  /** Where a run stands: still going, with its unit of work and the number
      of games upserted so far, or stopped by an exception, with what had
      been saved when it was thrown. */
  datatype Progress = Running(session: Session, upserted: nat) | Stopped(db: ScheduleDb, error: string)

  /** One iteration of the loop: resolve the home team, then the away team,
      then upsert the game and count it. */
  function IngestRecord(s: Session, cal: Calendar, leagueId: nat, g: ScheduleGameDto, upserted: nat): (p: Progress)
    requires s.Valid()
    ensures p.Running? ==> p.session.Valid()
  {
    match FindOrCreateTeam(s, leagueId, g.homeTeamName)
    case Failure(e) => Stopped(s.db, e)
    case Success(home) =>
      match FindOrCreateTeam(home.session, leagueId, g.awayTeamName)
      case Failure(e) => Stopped(home.session.db, e)
      case Success(away) =>
        Running(UpsertGame(away.session, cal, leagueId, g, home.teamId, away.teamId), upserted + 1)
  }

  /** The loop over the feed, in feed order; the first exception ends it. */
  function IngestRecords(s: Session, cal: Calendar, leagueId: nat, games: seq<ScheduleGameDto>, upserted: nat): (p: Progress)
    requires s.Valid()
    ensures p.Running? ==> p.session.Valid()
    decreases |games|
  {
    if |games| == 0 then Running(s, upserted)
    else
      match IngestRecord(s, cal, leagueId, games[0], upserted)
      case Stopped(db, e) => Stopped(db, e)
      case Running(next, n) => IngestRecords(next, cal, leagueId, games[1..], n)
  }

  /** How one run ends: with every game upserted and saved, or with an
      exception, leaving what had been saved before it. */
  datatype ScheduleRun = Completed(db: ScheduleDb, upserted: nat) | Aborted(db: ScheduleDb, error: string)

  /** RunOnceAsync, given the games the schedule feed returned for the
      window. An empty feed returns before any write. */
  function RunSchedule(db: ScheduleDb, cal: Calendar, games: seq<ScheduleGameDto>): (r: ScheduleRun)
    ensures |games| == 0 ==> r == Completed(db, 0)
  {
    if |games| == 0 then Completed(db, 0)
    else
      var sport := EnsureSport(db.sports);
      var league := EnsureLeague(db.leagues, sport.id);
      var s := Open(db.(sports := sport.rows, leagues := league.rows));
      match IngestRecords(s, cal, league.id, games, 0)
      case Stopped(saved, e) => Aborted(saved, e)
      case Running(last, n) => Completed(Save(last).db, n)
  }

  /** Both team names of a record are present and not blank. */
  predicate Named(g: ScheduleGameDto) {
    !IsBlank(g.homeTeamName) && !IsBlank(g.awayTeamName)
  }

  /** Every record of the feed names both teams. */
  predicate AllNamed(games: seq<ScheduleGameDto>) {
    forall k :: 0 <= k < |games| ==> Named(games[k])
  }

  /** The saved store `after` keeps every row of `before`: game rows keep
      their positions and refs, team rows are only appended, and the sport
      and league tables are the same. */
  predicate DbKept(before: ScheduleDb, after: ScheduleDb) {
    && RefsExtend(before.games, after.games)
    && before.teams <= after.teams
    && after.sports == before.sports && after.leagues == before.leagues
  }

  lemma DbKeptTransitive(a: ScheduleDb, b: ScheduleDb, c: ScheduleDb)
    requires DbKept(a, b) && DbKept(b, c)
    ensures DbKept(a, c)
  {
    RefsExtendTransitive(a.games, b.games, c.games);
  }

  /** Resolving a team keeps the saved rows in place and every pending game row. */
  lemma FindOrCreateTeamKeepsRows(s: Session, leagueId: nat, name: Option<string>)
    requires s.Valid()
    requires FindOrCreateTeam(s, leagueId, name).Success?
    ensures
      var t := FindOrCreateTeam(s, leagueId, name).value.session;
      && t.Pending() == s.Pending()
      && DbKept(s.db, t.db)
      && (s.added == [] ==> t.added == [] && |t.db.games| == |s.db.games|)
  {
  }

  /** The upsert keeps every pending row's ref in place and leaves a pending
      row with the record's ref; a ref already saved adds nothing. */
  lemma UpsertGameKeepsRefs(s: Session, cal: Calendar, leagueId: nat, g: ScheduleGameDto, homeId: nat, awayId: nat)
    requires s.Valid()
    ensures
      var u := UpsertGame(s, cal, leagueId, g, homeId, awayId);
      && RefsExtend(s.Pending(), u.Pending())
      && RefIn(u.Pending(), g.externalGameId)
      && (RefIn(s.db.games, g.externalGameId) ==> u.added == s.added)
  {
    var u := UpsertGame(s, cal, leagueId, g, homeId, awayId);
    match FindGame(s, g.externalGameId)
    case None =>
      assert u.Pending()[|s.Pending()|].externalRef == g.externalGameId;
    case Some(i) =>
      assert u.Pending()[i].externalRef == g.externalGameId;
  }

  /** One iteration runs to the end exactly when the record names both
      teams; it counts one upsert, and an exception names the missing team. */
  lemma IngestRecordOutcome(s: Session, cal: Calendar, leagueId: nat, g: ScheduleGameDto, upserted: nat)
    requires s.Valid()
    ensures
      var p := IngestRecord(s, cal, leagueId, g, upserted);
      && (p.Running? <==> Named(g))
      && (p.Stopped? ==> p.error == TeamNameRequired)
      && (p.Running? ==> p.upserted == upserted + 1)
  {
    var home := FindOrCreateTeam(s, leagueId, g.homeTeamName);
    if home.Success? {
      var away := FindOrCreateTeam(home.value.session, leagueId, g.awayTeamName);
    }
  }

  /** What one iteration does to the store. */
  lemma IngestRecordKeepsRows(s: Session, cal: Calendar, leagueId: nat, g: ScheduleGameDto, upserted: nat)
    requires s.Valid()
    ensures
      var p := IngestRecord(s, cal, leagueId, g, upserted);
      && (p.Stopped? ==> DbKept(s.db, p.db))
      && (p.Running? ==>
            && RefsExtend(s.Pending(), p.session.Pending())
            && RefIn(p.session.Pending(), g.externalGameId)
            && DbKept(s.db, p.session.db))
      && (p.Running? && s.added == [] && RefIn(s.db.games, g.externalGameId) ==>
            p.session.added == [] && |p.session.db.games| == |s.db.games|)
  {
    var home := FindOrCreateTeam(s, leagueId, g.homeTeamName);
    if home.Success? {
      FindOrCreateTeamKeepsRows(s, leagueId, g.homeTeamName);
      var h := home.value.session;
      var away := FindOrCreateTeam(h, leagueId, g.awayTeamName);
      if away.Success? {
        FindOrCreateTeamKeepsRows(h, leagueId, g.awayTeamName);
        var a := away.value.session;
        DbKeptTransitive(s.db, h.db, a.db);
        UpsertGameKeepsRefs(a, cal, leagueId, g, home.value.teamId, away.value.teamId);
        if s.added == [] && RefIn(s.db.games, g.externalGameId) {
          RefInExtended(s.db.games, a.db.games, g.externalGameId);
        }
      }
    }
  }

  lemma AllNamedCons(games: seq<ScheduleGameDto>)
    requires |games| > 0
    ensures AllNamed(games) <==> Named(games[0]) && AllNamed(games[1..])
  {
    assert forall k :: 1 <= k < |games| ==> games[k] == games[1..][k - 1];
  }

  /** The loop ends normally exactly when every record names both teams,
      and then counts one upsert per record. */
  lemma {:induction false} IngestRecordsOutcome(s: Session, cal: Calendar, leagueId: nat, games: seq<ScheduleGameDto>, upserted: nat)
    requires s.Valid()
    ensures
      var p := IngestRecords(s, cal, leagueId, games, upserted);
      && (p.Running? <==> AllNamed(games))
      && (p.Stopped? ==> p.error == TeamNameRequired)
      && (p.Running? ==> p.upserted == upserted + |games|)
    decreases |games|
  {
    var p := IngestRecords(s, cal, leagueId, games, upserted);
    if |games| > 0 {
      IngestRecordOutcome(s, cal, leagueId, games[0], upserted);
      var q := IngestRecord(s, cal, leagueId, games[0], upserted);
      if q.Running? {
        var rest := games[1..];
        IngestRecordsOutcome(q.session, cal, leagueId, rest, q.upserted);
        assert p == IngestRecords(q.session, cal, leagueId, rest, q.upserted);
        AllNamedCons(games);
      } else {
        assert p == q;
      }
    }
  }

  /** What the loop does to the store, by induction over the feed. */
  lemma {:induction false} IngestRecordsKeepsRows(s: Session, cal: Calendar, leagueId: nat, games: seq<ScheduleGameDto>, upserted: nat)
    requires s.Valid()
    ensures
      var p := IngestRecords(s, cal, leagueId, games, upserted);
      && (p.Stopped? ==> DbKept(s.db, p.db))
      && (p.Running? ==>
            && RefsExtend(s.Pending(), p.session.Pending())
            && (forall k :: 0 <= k < |games| ==> RefIn(p.session.Pending(), games[k].externalGameId))
            && DbKept(s.db, p.session.db))
    decreases |games|
  {
    var p := IngestRecords(s, cal, leagueId, games, upserted);
    if |games| > 0 {
      IngestRecordKeepsRows(s, cal, leagueId, games[0], upserted);
      var q := IngestRecord(s, cal, leagueId, games[0], upserted);
      if q.Running? {
        var rest := games[1..];
        IngestRecordsKeepsRows(q.session, cal, leagueId, rest, q.upserted);
        assert p == IngestRecords(q.session, cal, leagueId, rest, q.upserted);
        if p.Running? {
          forall k | 1 <= k < |games| ensures RefIn(p.session.Pending(), games[k].externalGameId) {
            assert games[k] == rest[k - 1];
          }
          RefsExtendTransitive(s.Pending(), q.session.Pending(), p.session.Pending());
          DbKeptTransitive(s.db, q.session.db, p.session.db);
          RefInExtended(q.session.Pending(), p.session.Pending(), games[0].externalGameId);
        } else {
          DbKeptTransitive(s.db, q.session.db, p.db);
        }
      }
    }
  }

  /** A loop over records whose refs are all saved, starting with nothing
      pending, ends with nothing pending and no game row added. */
  lemma {:induction false} IngestRecordsKnownRefs(s: Session, cal: Calendar, leagueId: nat, games: seq<ScheduleGameDto>, upserted: nat)
    requires s.Valid() && s.added == []
    requires forall k :: 0 <= k < |games| ==> RefIn(s.db.games, games[k].externalGameId)
    ensures
      var p := IngestRecords(s, cal, leagueId, games, upserted);
      p.Running? ==> p.session.added == [] && |p.session.db.games| == |s.db.games|
    decreases |games|
  {
    if |games| > 0 {
      IngestRecordKeepsRows(s, cal, leagueId, games[0], upserted);
      var q := IngestRecord(s, cal, leagueId, games[0], upserted);
      if q.Running? {
        var rest := games[1..];
        forall k | 0 <= k < |rest| ensures RefIn(q.session.db.games, rest[k].externalGameId) {
          assert rest[k] == games[k + 1];
          RefInExtended(s.db.games, q.session.db.games, rest[k].externalGameId);
        }
        IngestRecordsKnownRefs(q.session, cal, leagueId, rest, q.upserted);
      }
    }
  }

  /** A run completes exactly when every record names both teams (or the feed
      is empty), and a completed run counts one upsert per record. */
  lemma RunScheduleOutcome(db: ScheduleDb, cal: Calendar, games: seq<ScheduleGameDto>)
    ensures RunSchedule(db, cal, games).Completed? <==> AllNamed(games)
    ensures RunSchedule(db, cal, games).Completed? ==> RunSchedule(db, cal, games).upserted == |games|
  {
    if |games| > 0 {
      var sport := EnsureSport(db.sports);
      var league := EnsureLeague(db.leagues, sport.id);
      IngestRecordsOutcome(Open(db.(sports := sport.rows, leagues := league.rows)), cal, league.id, games, 0);
    }
  }

  /** An aborted run reports the missing team name. */
  lemma RunScheduleAbortReason(db: ScheduleDb, cal: Calendar, games: seq<ScheduleGameDto>)
    ensures RunSchedule(db, cal, games).Aborted? ==> RunSchedule(db, cal, games).error == TeamNameRequired
  {
    if |games| > 0 {
      var sport := EnsureSport(db.sports);
      var league := EnsureLeague(db.leagues, sport.id);
      IngestRecordsOutcome(Open(db.(sports := sport.rows, leagues := league.rows)), cal, league.id, games, 0);
    }
  }

  /** A run over a non-empty feed leaves a BASKETBALL sport and an NBA league
      in the store, each created only when it was absent, whether the run
      completes or aborts. */
  lemma RunScheduleEnsuresCatalog(db: ScheduleDb, cal: Calendar, games: seq<ScheduleGameDto>)
    requires |games| > 0
    ensures
      var after := RunSchedule(db, cal, games).db;
      && (exists j :: 0 <= j < |after.sports| && after.sports[j].code == BasketballCode)
      && (exists j :: 0 <= j < |after.leagues| && after.leagues[j].code == NbaCode)
      && ((exists j :: 0 <= j < |db.sports| && db.sports[j].code == BasketballCode) ==> after.sports == db.sports)
      && ((forall j :: 0 <= j < |db.sports| ==> db.sports[j].code != BasketballCode) ==>
            after.sports == db.sports + [Basketball])
      && ((exists j :: 0 <= j < |db.leagues| && db.leagues[j].code == NbaCode) ==> after.leagues == db.leagues)
      && ((forall j :: 0 <= j < |db.leagues| ==> db.leagues[j].code != NbaCode) ==> |after.leagues| == |db.leagues| + 1)
  {
    var sport := EnsureSport(db.sports);
    var league := EnsureLeague(db.leagues, sport.id);
    var s := Open(db.(sports := sport.rows, leagues := league.rows));
    IngestRecordsKeepsRows(s, cal, league.id, games, 0);
    var after := RunSchedule(db, cal, games).db;
    assert after.sports == sport.rows && after.leagues == league.rows;
    assert after.sports[sport.id].code == BasketballCode;
    assert after.leagues[league.id].code == NbaCode;
  }

  /** Whether it completes or aborts, a run keeps every saved game row in its
      position with its ref, and only appends team rows. */
  lemma RunScheduleKeepsRows(db: ScheduleDb, cal: Calendar, games: seq<ScheduleGameDto>)
    ensures
      var after := RunSchedule(db, cal, games).db;
      RefsExtend(db.games, after.games) && db.teams <= after.teams
  {
    if |games| > 0 {
      var sport := EnsureSport(db.sports);
      var league := EnsureLeague(db.leagues, sport.id);
      var s := Open(db.(sports := sport.rows, leagues := league.rows));
      IngestRecordsKeepsRows(s, cal, league.id, games, 0);
      var p := IngestRecords(s, cal, league.id, games, 0);
      if p.Running? {
        RefsExtendTransitive(db.games, p.session.db.games, Save(p.session).db.games);
      }
    }
  }

  /** A run over records that all name both teams completes, and afterwards
      every record's external ref names a saved game. */
  lemma RunScheduleCoversFeed(db: ScheduleDb, cal: Calendar, games: seq<ScheduleGameDto>)
    requires AllNamed(games)
    ensures RunSchedule(db, cal, games).Completed?
    ensures forall k :: 0 <= k < |games| ==> RefIn(RunSchedule(db, cal, games).db.games, games[k].externalGameId)
  {
    RunScheduleOutcome(db, cal, games);
    if |games| > 0 {
      var sport := EnsureSport(db.sports);
      var league := EnsureLeague(db.leagues, sport.id);
      IngestRecordsKeepsRows(Open(db.(sports := sport.rows, leagues := league.rows)), cal, league.id, games, 0);
    }
  }

  /** A run over records that all name both teams and whose refs are all
      saved already completes and adds no game row. */
  lemma RunScheduleKnownRefsAddNoGames(db: ScheduleDb, cal: Calendar, games: seq<ScheduleGameDto>)
    requires AllNamed(games)
    requires forall k :: 0 <= k < |games| ==> RefIn(db.games, games[k].externalGameId)
    ensures RunSchedule(db, cal, games).Completed?
    ensures |RunSchedule(db, cal, games).db.games| == |db.games|
  {
    RunScheduleOutcome(db, cal, games);
    if |games| > 0 {
      var sport := EnsureSport(db.sports);
      var league := EnsureLeague(db.leagues, sport.id);
      IngestRecordsKnownRefs(Open(db.(sports := sport.rows, leagues := league.rows)), cal, league.id, games, 0);
    }
  }

  /** Re-running a batch whose records all name both teams completes again
      and adds no game row. */
  lemma RerunAddsNoGames(db: ScheduleDb, cal: Calendar, games: seq<ScheduleGameDto>)
    requires AllNamed(games)
    ensures
      var first := RunSchedule(db, cal, games).db;
      var second := RunSchedule(first, cal, games);
      second.Completed? && |second.db.games| == |first.games|
  {
    var first := RunSchedule(db, cal, games).db;
    RunScheduleCoversFeed(db, cal, games);
    RunScheduleKnownRefsAddNoGames(first, cal, games);
  }
}
