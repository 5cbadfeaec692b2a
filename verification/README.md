# BetOddsIngestor reconciliation core in Dafny

BetOddsIngestor pulls NBA schedules, odds and final scores from three
providers (The Odds API's odds, schedule and scores endpoints, and the
balldontlie games listing) and reconciles them with a betting database.
This project models the part between the HTTP responses and the database.
Feed records arrive already parsed, and are then filtered, normalised and
written. The model covers:

- **The schedule pass.** It derives team abbreviations and find-or-creates
  teams by name or abbreviation. It upserts one game per scheduled game,
  keyed by the provider's game id. All of this runs inside one Entity
  Framework unit of work, so lookups only see saved rows.
- **The odds pass.** It find-or-creates the provider, the teams and the game
  of each snapshot, then appends exactly one odds row per snapshot.
- **The odds client's projection.** Each non-null bookmaker of each event
  becomes one flat snapshot. The eight price and point fields are read off
  the bookmaker's h2h, spreads and totals markets. Prices go through the
  `(int)` cast, which truncates and can overflow.
- **The per-record mapping of the three feed clients.** This includes the
  half-open `[from, to)` window, the skip rules and the defaults, plus the
  balldontlie pagination loop.
- **The results and history passes.** Each record with both scores becomes
  one call of the result upsert procedure, in feed order. A failing call is
  logged and the loop goes on.

## How the model is built

Tables are sequences, and a row's id is its position. Rows are only ever
appended, never removed. Time is an integer instant. The Eastern-time
conversions (`EasternTime.cs` and `TimeZoneInfo`) are a `Calendar`
parameter: `slateDay` gives the Eastern calendar day of an instant, and
`yearOf` gives its year. The pass windows, built from `DateTime.UtcNow`,
are parameters. So is the clock reading stored on each odds row, and so is
whether each procedure call completes.

The schedule pass keeps Entity Framework's semantics (`Session`):

- `db` is what has been saved.
- Updates to saved game rows land in `tracked`.
- New game rows wait in `added`.
- Creating a team saves everything, including pending games.

Because of this, the model does not deduplicate a new game id that appears
twice before a save. `UpsertGameRepeatedBeforeSave` states this behaviour
rather than hiding it.

Modules, one per source file or shared concept:

- `Wrappers`, `SlateTime`, `Text`, `Lookup`, `Entities`, `Feeds`, `Catalog`:
  shared types, string helpers (`IsNullOrWhiteSpace`, `Trim`, ASCII
  upper-casing, `int.TryParse`, `int.ToString`), first-match search and
  order-preserving filter-map, and sport/league find-or-create.
- `ScheduleIngestion`, `OddsIngestion`, `ResultsIngestion`,
  `HistoryIngestion`: the four passes.
- `OddsApiClient`, `ScoresClient`, `ScheduleClient`, `BalldontlieClient`:
  the four clients.

## Model

| member | source | states |
|---|---|---|
| ScheduleIngestion.BuildTeamAbbreviation | BetOddsIngestor/Services/ScheduleIngestionService.cs:154-168 | A blank name gives "TEAM", and so does a name with no letter or digit. Otherwise the result is the first min(n, 10) upper-cased letters and digits of the name. The result always has length 1..10 and holds only upper-case letters and digits. |
| ScheduleIngestion.CleanedIsUpperOrDigit | BetOddsIngestor/Services/ScheduleIngestionService.cs:159-162 | Cleaning a name leaves only upper-case letters and digits. |
| ScheduleIngestion.CleanedKeepsUpperOrDigit | BetOddsIngestor/Services/ScheduleIngestionService.cs:159-162 | Cleaning a string made of upper-case letters and digits gives it back unchanged. |
| ScheduleIngestion.AbbreviationIdempotent | BetOddsIngestor/Services/ScheduleIngestionService.cs:154-168 | The abbreviation of an abbreviation is itself. |
| ScheduleIngestion.CleanedOfWhiteSpace | BetOddsIngestor/Services/ScheduleIngestionService.cs:159-162 | White space contributes no letters or digits. |
| ScheduleIngestion.CleanedIgnoresTrim | BetOddsIngestor/Services/ScheduleIngestionService.cs:128-129 | Trimming a name does not change its cleaned letters and digits. |
| ScheduleIngestion.AbbreviationIgnoresTrim | BetOddsIngestor/Services/ScheduleIngestionService.cs:128-129 | A name and its trimmed form have the same abbreviation. |
| ScheduleIngestion.Open | BetOddsIngestor/Services/ScheduleIngestionService.cs:84-85 | A fresh unit of work holds the saved store with nothing changed or added, so its pending game table is the saved one and saving it at once writes the store back unchanged. |
| ScheduleIngestion.Save | BetOddsIngestor/Services/ScheduleIngestionService.cs:117 | A save writes the tracked updates and the added games and leaves nothing pending. The teams are unchanged. |
| ScheduleIngestion.FindOrCreateTeam | BetOddsIngestor/Services/ScheduleIngestionService.cs:123-152 | It fails exactly when the name is blank, with "Team name is required", and changes nothing. Otherwise it returns the first team of the league that matches by trimmed name or derived abbreviation. If such a team exists, the session is untouched. If not, exactly one team (league, trimmed name, abbreviation, ref = trimmed name, active) is appended and everything is saved. |
| ScheduleIngestion.FindOrCreateTeamIdempotent | BetOddsIngestor/Services/ScheduleIngestionService.cs:131-151 | Resolving the same name a second time returns the same team and session. |
| ScheduleIngestion.FindOrCreateTeamResolvesAliases | BetOddsIngestor/Services/ScheduleIngestionService.cs:131-137 | Suppose a team with abbreviation A has been resolved. A different non-blank name whose abbreviation is also A then resolves to that team or an earlier one, and adds nothing. |
| ScheduleIngestion.UpsertGame | BetOddsIngestor/Services/ScheduleIngestionService.cs:84-112 | If the game id is not among the saved rows, a new game is added, pending. Otherwise the first saved game with that id gets the new start time, the Eastern slate day and both teams. It also gets the new season, unless that season is blank. Its league and ref stay, and every other row is unchanged. |
| ScheduleIngestion.FindGameAfterAdd | BetOddsIngestor/Services/ScheduleIngestionService.cs:84-100 | After saving an upsert that added a game, the lookup by id finds the new row. |
| ScheduleIngestion.FindGameAfterUpdate | BetOddsIngestor/Services/ScheduleIngestionService.cs:102-112 | After saving an upsert that updated a game, the lookup by id still finds the same row. |
| ScheduleIngestion.UpsertGameIdempotentOnceSaved | BetOddsIngestor/Services/ScheduleIngestionService.cs:84-112 | Once an upsert is saved, repeating it and saving again leaves the store exactly as it was. |
| ScheduleIngestion.UpsertGameRepeatedBeforeSave | BetOddsIngestor/Services/ScheduleIngestionService.cs:84-100 | Lookups see saved rows only. So a new game id upserted twice before a save leaves two pending rows with that id. |
| ScheduleIngestion.RefsExtendTransitive | BetOddsIngestor/Services/ScheduleIngestionService.cs:84-112 | The relation "every row keeps its position and ref" composes across steps. |
| ScheduleIngestion.RefInExtended | BetOddsIngestor/Services/ScheduleIngestionService.cs:84-112 | A ref present before an extension is still present after it. |
| ScheduleIngestion.DbKeptTransitive | BetOddsIngestor/Services/ScheduleIngestionService.cs:72-117 | The relation "games keep their refs, teams only grow, catalog unchanged" composes across steps. |
| ScheduleIngestion.FindOrCreateTeamKeepsRows | BetOddsIngestor/Services/ScheduleIngestionService.cs:139-151 | Creating a team keeps every saved row and every pending game ref. Without pending games, it adds no game. |
| ScheduleIngestion.UpsertGameKeepsRefs | BetOddsIngestor/Services/ScheduleIngestionService.cs:84-112 | An upsert keeps every pending row's ref in place and leaves a row with the record's ref. For a ref that is already saved, it adds nothing. |
| ScheduleIngestion.IngestRecordOutcome | BetOddsIngestor/Services/ScheduleIngestionService.cs:72-115 | One iteration completes exactly when both team names are non-blank, and then counts one upsert. Otherwise it stops with "Team name is required". |
| ScheduleIngestion.IngestRecordKeepsRows | BetOddsIngestor/Services/ScheduleIngestionService.cs:72-115 | One iteration keeps every saved row and pending ref, and leaves the record's ref among the pending rows. |
| ScheduleIngestion.AllNamedCons | BetOddsIngestor/Services/ScheduleIngestionService.cs:72-76 | Every record names both teams exactly when the first one does and so does every later one. |
| ScheduleIngestion.IngestRecordsOutcome | BetOddsIngestor/Services/ScheduleIngestionService.cs:70-115 | The loop runs to the end exactly when every record names both teams, and then counts one upsert per record. An early stop reports the missing name. |
| ScheduleIngestion.IngestRecordsKeepsRows | BetOddsIngestor/Services/ScheduleIngestionService.cs:72-115 | The loop keeps every saved row, whether it completes or stops. When it completes, every record's ref is among the pending games. |
| ScheduleIngestion.IngestRecordsKnownRefs | BetOddsIngestor/Services/ScheduleIngestionService.cs:84-112 | If every record's ref is already saved, the loop adds no game row. |
| ScheduleIngestion.RunSchedule | BetOddsIngestor/Services/ScheduleIngestionService.cs:41-46 | An empty schedule returns before any write: the store is unchanged and nothing is counted. |
| ScheduleIngestion.RunScheduleOutcome | BetOddsIngestor/Services/ScheduleIngestionService.cs:70-118 | A run completes exactly when every record names both teams. The upsert count then equals the number of records. |
| ScheduleIngestion.RunScheduleAbortReason | BetOddsIngestor/Services/ScheduleIngestionService.cs:123-126 | A run that aborts does so because a team name was blank. |
| ScheduleIngestion.RunScheduleEnsuresCatalog | BetOddsIngestor/Services/ScheduleIngestionService.cs:48-68 | After a non-empty run, BASKETBALL and NBA are present. Each one was created only if it was absent, whether the run completed or aborted. |
| ScheduleIngestion.RunScheduleKeepsRows | BetOddsIngestor/Services/ScheduleIngestionService.cs:72-117 | A run never moves, drops or re-keys a saved game, and only appends teams. |
| ScheduleIngestion.RunScheduleCoversFeed | BetOddsIngestor/Services/ScheduleIngestionService.cs:84-117 | A run over records that all name both teams completes, and every record's game id then names a saved game. |
| ScheduleIngestion.RunScheduleKnownRefsAddNoGames | BetOddsIngestor/Services/ScheduleIngestionService.cs:84-117 | If every record names both teams and every record's ref is already saved, the run completes and adds no game row. |
| ScheduleIngestion.RerunAddsNoGames | BetOddsIngestor/Services/ScheduleIngestionService.cs:84-117 | Re-running a batch whose records all name both teams completes again and adds no game row. |
| Catalog.FindOrAdd | BetOddsIngestor/Services/OddsIngestionService.cs:30-31 | A FirstOrDefault lookup, followed by an add when nothing matches. It returns the first match, and the table is unchanged when a match exists. Otherwise the created row is appended as the last id. |
| Catalog.FindOrAddIdempotent | BetOddsIngestor/Services/OddsIngestionService.cs:30-31 | Find-or-create a second time returns the same row and table. |
| Catalog.FindOrAddKeepsDistinct | BetOddsIngestor/Services/OddsIngestionService.cs:30-31 | Find-or-create by key keeps the keys of a table distinct. |
| Catalog.EnsureSport | BetOddsIngestor/Services/ScheduleIngestionService.cs:49-55 | The first BASKETBALL sport is returned: it has the code, and no row before it does. The table is unchanged if one exists; otherwise "Basketball"/"BASKETBALL" is appended. |
| Catalog.EnsureLeague | BetOddsIngestor/Services/ScheduleIngestionService.cs:57-68 | The first NBA league is returned: it has the code, and no row before it does. The table is unchanged if one exists; otherwise NBA is appended under the sport. |
| Catalog.EnsureCatalogIdempotent | BetOddsIngestor/Services/OddsIngestionService.cs:20-25 | Ensuring sport and league a second time changes nothing. |
| Text.LeadingCount | BetOddsIngestor/Services/ScheduleIngestionService.cs:128 | This is the length of the longest prefix whose characters all satisfy the predicate. |
| Text.TrailingCount | BetOddsIngestor/Services/ScheduleIngestionService.cs:128 | This is the length of the longest suffix whose characters all satisfy the predicate. |
| Text.TrimBy | BetOddsIngestor/Services/ScheduleIngestionService.cs:128 | The result is the slice between the leading and trailing runs, and it neither starts nor ends with a trimmed character. |
| Text.TrimEmptyIffBlank | BetOddsIngestor/Services/ScheduleIngestionService.cs:125-128 | A name trims to empty exactly when IsNullOrWhiteSpace holds of it. |
| Text.TrimIdempotent | BetOddsIngestor/Services/ScheduleIngestionService.cs:128 | Trimming twice is trimming once. |
| Text.TrimByKeeps | BetOddsIngestor/Services/ScheduleIngestionService.cs:128 | A string that neither starts nor ends with white space trims to itself. |
| Text.ToUpper | BetOddsIngestor/Providers/TheOddsApi/TheOddsApiClient.cs:85 | A character is a letter or digit exactly when its upper-cased form is an upper-case letter or digit. Upper-case letters and digits stay as they are. |
| Text.Upper | BetOddsIngestor/Providers/TheOddsApi/TheOddsApiClient.cs:85 | Upper-casing keeps the length and maps each character on its own. |
| Text.NatToString | BetOddsIngestor/Clients/BalldontlieNbaClient.cs:90-91 | The decimal rendering is a non-empty string of digits with no leading zero: it starts with '0' exactly when the number is 0. |
| Text.DigitsValueOfNatToString | BetOddsIngestor/Clients/BalldontlieNbaClient.cs:90-91 | Reading the rendered digits back gives the number. |
| Text.ParseInt32 | BetOddsIngestor/Providers/TheOddsApi/TheOddsApiScoresClient.cs:88 | int.TryParse succeeds only with an Int32 that the whole string spells: number white space, an optional sign, digits, number white space. |
| Text.NumberAtIsTrimmed | BetOddsIngestor/Providers/TheOddsApi/TheOddsApiScoresClient.cs:88 | The number inside a string that spells one is exactly what trimming number white space leaves. |
| Text.ParseInt32Meaning | BetOddsIngestor/Providers/TheOddsApi/TheOddsApiScoresClient.cs:88 | int.TryParse yields v exactly when the string spells v (sign and leading zeros included) and v is an Int32. |
| Text.ParseInt32Fails | BetOddsIngestor/Providers/TheOddsApi/TheOddsApiScoresClient.cs:88 | int.TryParse fails exactly when the string spells no Int32: it is not a signed digit run inside white space, or its value is out of range. |
| Text.ParseInt32RoundTrip | BetOddsIngestor/Providers/TheOddsApi/TheOddsApiScoresClient.cs:88 | int.TryParse reads back every Int32 that int.ToString renders. |
| OddsIngestion.EnsureProvider | BetOddsIngestor/Services/OddsIngestionService.cs:30-31 | The provider is found by code, and the first match is returned. If none exists, a provider whose name is its code is appended. |
| OddsIngestion.FindTeam | BetOddsIngestor/Services/OddsIngestionService.cs:71-78 | The team is found by league and exact, untrimmed name, and the first match is returned. If none exists, a team with only league and name is appended. |
| OddsIngestion.FindTeamIdempotent | BetOddsIngestor/Services/OddsIngestionService.cs:71-78 | Finding the same name again returns the same team and table. |
| OddsIngestion.FindTeamSeparatesSpellings | BetOddsIngestor/Services/OddsIngestionService.cs:72 | Under ordinal string equality, two different names never resolve to the same team. |
| OddsIngestion.IngestSnapshot | BetOddsIngestor/Services/OddsIngestionService.cs:27-66 | One iteration only appends, to all tables, and leaves sport and league alone. It adds exactly one odds row. That row points at the first game with the snapshot's id and the first provider with its code. It holds the clock's time and the eight fields verbatim, nulls included. |
| OddsIngestion.IngestSnapshotTables | BetOddsIngestor/Services/OddsIngestionService.cs:30-50 | A new provider code adds a provider named after the code. At most two teams are added. A known game is used unchanged. An unknown game is added with season = the year of the start, start = game time, status Scheduled and the two resolved teams. |
| OddsIngestion.IngestSnapshotCovers | BetOddsIngestor/Services/OddsIngestionService.cs:30-50 | Afterwards the store holds the snapshot's provider, both teams and the game. If it held them already, only the odds table changed. |
| OddsIngestion.RecordedKept | BetOddsIngestor/Services/OddsIngestionService.cs:52-65 | An odds row keeps recording its snapshot as the tables grow. |
| OddsIngestion.CoveredKept | BetOddsIngestor/Services/OddsIngestionService.cs:30-50 | What the store holds for a snapshot stays there as the tables grow. |
| OddsIngestion.RecordedExtend | BetOddsIngestor/Services/OddsIngestionService.cs:27-66 | Rows recorded for earlier snapshots stay recorded after the next append. |
| OddsIngestion.CoveredExtend | BetOddsIngestor/Services/OddsIngestionService.cs:27-66 | Snapshots covered earlier stay covered after the next iteration. |
| OddsIngestion.IngestStep | BetOddsIngestor/Services/OddsIngestionService.cs:27-66 | One iteration preserves the loop's invariant: append-only growth, one row per snapshot seen, each one recorded and covered. |
| OddsIngestion.IngestAll | BetOddsIngestor/Services/OddsIngestionService.cs:27-66 | The loop appends exactly one recorded odds row per snapshot, in feed order, and leaves sport and league alone. If the store already covered every snapshot, only odds rows are new. |
| OddsIngestion.PrepareCatalog | BetOddsIngestor/Services/OddsIngestionService.cs:20-25 | After the sport/league step both are present and the league id is the store's NBA league. If both were present already, nothing was written. |
| OddsIngestion.RunOdds | BetOddsIngestor/Services/OddsIngestionService.cs:15-69 | An empty feed writes nothing. Otherwise rows are only appended, never updated or removed. The odds count grows by exactly the number of snapshots, and the k-th new row records the k-th snapshot. Every provider, team and game the feed needs is then present. |
| OddsIngestion.RunOddsTwice | BetOddsIngestor/Services/OddsIngestionService.cs:27-66 | Running the same feed again adds only its odds rows: no provider, team or game. |
| OddsApiClient.Pow10 | BetOddsIngestor/Providers/TheOddsApi/TheOddsApiClient.cs:46 | A decimal's scale factor is positive. |
| OddsApiClient.DivBounds | BetOddsIngestor/Providers/TheOddsApi/TheOddsApiClient.cs:46 | Integer division brackets its dividend. |
| OddsApiClient.Truncate | BetOddsIngestor/Providers/TheOddsApi/TheOddsApiClient.cs:46-47 | The cast drops the fraction toward zero. The result has the value's sign and lies within one unit of it, toward zero. |
| OddsApiClient.CastToInt | BetOddsIngestor/Providers/TheOddsApi/TheOddsApiClient.cs:46-47 | The `(int)` cast succeeds with the truncated value exactly when that value is an Int32. Otherwise it fails with an overflow error. |
| OddsApiClient.Flat | BetOddsIngestor/Providers/TheOddsApi/TheOddsApiClient.cs:40-44 | Every visited outcome comes from a market of the bookmaker and carries that market's key. |
| OddsApiClient.ApplyOutcome | BetOddsIngestor/Providers/TheOddsApi/TheOddsApiClient.cs:40-80 | An outcome whose market or name is unmatched changes nothing. A matched one fails exactly when its price overflows. |
| OddsApiClient.QuoteOf | BetOddsIngestor/Providers/TheOddsApi/TheOddsApiClient.cs:37-80 | If the loop over the outcomes fails, the error is the overflow. |
| OddsApiClient.HitsSnoc | BetOddsIngestor/Providers/TheOddsApi/TheOddsApiClient.cs:40-44 | The matching outcomes of a longer list are the earlier matches plus the new one if it matches. |
| OddsApiClient.QuoteOfFails | BetOddsIngestor/Providers/TheOddsApi/TheOddsApiClient.cs:42-79 | The bookmaker loop fails exactly when some outcome it casts has a price outside Int32. |
| OddsApiClient.QuoteOfMoneylines | BetOddsIngestor/Providers/TheOddsApi/TheOddsApiClient.cs:42-49 | Each moneyline is the truncated price of the last h2h outcome named exactly after that team. It is null when there is none. |
| OddsApiClient.QuoteOfSpreads | BetOddsIngestor/Providers/TheOddsApi/TheOddsApiClient.cs:50-64 | The spread points and home price come from the last home outcome of a spreads market. The away price comes from the last away outcome. Each is null when there is none. |
| OddsApiClient.QuoteOfTotals | BetOddsIngestor/Providers/TheOddsApi/TheOddsApiClient.cs:65-79 | The total points and over price come from the last "Over" outcome of a totals market. The under price comes from the last "Under" outcome. Each is null when there is none. |
| OddsApiClient.BookmakerQuoteMeaning | BetOddsIngestor/Providers/TheOddsApi/TheOddsApiClient.cs:37-80 | A bookmaker either fails on an overflowing cast, or yields exactly the quote its markets determine, field by field. |
| OddsApiClient.EventSnapshots | BetOddsIngestor/Providers/TheOddsApi/TheOddsApiClient.cs:33-97 | The bookmaker loop of one event succeeds exactly when no bookmaker overflows. It then yields one snapshot per non-null bookmaker, in order. |
| OddsApiClient.TodayOdds | BetOddsIngestor/Providers/TheOddsApi/TheOddsApiClient.cs:29-100 | The call succeeds exactly when no cast overflows, and then returns every event's snapshots, event after event. Otherwise it fails with the overflow. |
| OddsApiClient.EventSnapshotsOnePerBookmaker | BetOddsIngestor/Providers/TheOddsApi/TheOddsApiClient.cs:82-96 | There is one snapshot per non-null bookmaker, in bookmaker order. Each carries the event's id, time and teams, the upper-cased bookmaker key, and that bookmaker's quote. |
| OddsApiClient.AllSnapshotsCount | BetOddsIngestor/Providers/TheOddsApi/TheOddsApiClient.cs:29-35 | The snapshot count is the sum over events of their non-null bookmakers. |
| OddsApiClient.SameKept | BetOddsIngestor/Providers/TheOddsApi/TheOddsApiClient.cs:33-35 | Two filters that accept the same entries keep the same positions. |
| ScoresClient.EntryScore | BetOddsIngestor/Providers/TheOddsApi/TheOddsApiScoresClient.cs:83-89 | A score entry is read only when it is non-blank and int.TryParse accepts it. |
| ScoresClient.LastFilterMapSnoc | BetOddsIngestor/Providers/TheOddsApi/TheOddsApiScoresClient.cs:80-95 | The last value kept is the newest entry's value when that entry is kept. Otherwise it is the last value kept before it. |
| ScoresClient.TallyIsLastScore | BetOddsIngestor/Providers/TheOddsApi/TheOddsApiScoresClient.cs:77-95 | The home score is the last readable score named like the home team, ignoring case. The away score is the last one named like the away team and not like the home team. Each is null when there is none. |
| ScoresClient.EventRecord | BetOddsIngestor/Providers/TheOddsApi/TheOddsApiScoresClient.cs:58-115 | An event yields a record exactly when it has a start inside [from, to), a scores array and both scores. The record has league NBA, season = start year, id or "", team names or "", and status "Final" if completed, otherwise "Completed". |
| ScoresClient.GetScores | BetOddsIngestor/Providers/TheOddsApi/TheOddsApiScoresClient.cs:44-116 | A non-success response yields no record. Every record lies in the window, has both scores and league NBA, and has status Final or Completed. |
| ScoresClient.GetScoresKeepsOrder | BetOddsIngestor/Providers/TheOddsApi/TheOddsApiScoresClient.cs:56-116 | The records are those of the qualifying events, one each, in feed order. |
| ScheduleClient.EventGame | BetOddsIngestor/Providers/TheOddsApi/TheOddsApiScheduleClient.cs:76-101 | An event yields a game exactly when its commence time is present and inside [from, to). The game has id, league NBA, season = start year, null names turned into "", and start = commence time. |
| ScheduleClient.GetSchedule | BetOddsIngestor/Providers/TheOddsApi/TheOddsApiScheduleClient.cs:61-105 | A non-success response yields no game. Every game lies in the window and has league NBA and season = its start year. |
| ScheduleClient.GetScheduleKeepsOrder | BetOddsIngestor/Providers/TheOddsApi/TheOddsApiScheduleClient.cs:76-102 | The games are an order-preserving image of the events inside the window, one per event. |
| BalldontlieClient.GameRecord | BetOddsIngestor/Clients/BalldontlieNbaClient.cs:66-104 | A game yields a record exactly when it is dated inside [from, to) and its scores are not both zero. The record has id and season rendered from integers, league NBA, names or "", both scores and status "Final". |
| BalldontlieClient.PageRecords | BetOddsIngestor/Clients/BalldontlieNbaClient.cs:49-105 | A failed page or a page without data contributes nothing. Every record contributed lies in the window, has status Final and league NBA, and has two scores that are not both zero. |
| BalldontlieClient.PageRecordsKeepOrder | BetOddsIngestor/Clients/BalldontlieNbaClient.cs:64-105 | A page's records are those of its qualifying games, one each, in page order. |
| BalldontlieClient.NextPage | BetOddsIngestor/Clients/BalldontlieNbaClient.cs:107-119 | The loop moves on exactly when the request succeeded, the data array is present and next_page is strictly greater than the current page. The next page is then an Int32. |
| BalldontlieClient.RecordsOfQualify | BetOddsIngestor/Clients/BalldontlieNbaClient.cs:64-105 | Every record gathered from any sequence of pages qualifies. |
| BalldontlieClient.ChainedExtend | BetOddsIngestor/Clients/BalldontlieNbaClient.cs:107-119 | Following the page a reply names keeps the page chain valid. |
| BalldontlieClient.GetGamesWithScores | BetOddsIngestor/Clients/BalldontlieNbaClient.cs:35-124 | Paging starts at 1. Each next page is the one the previous reply named, pages strictly increase so none is fetched twice, and the loop ends at the first page naming no later page. The records are those of the fetched pages, in order, including pages before a failure. |
| ResultsIngestion.CallFor | BetOddsIngestor/Services/ResultsIngestionService.cs:64-92 | A record makes a call exactly when it has both scores. The call carries its league, season, Eastern slate day, team names and scores, and its status, or "Final" when the status is null. |
| ResultsIngestion.CallsFollowRecords | BetOddsIngestor/Services/ResultsIngestionService.cs:62-92 | One call per record with both scores, in feed order, each carrying that record's fields. |
| ResultsIngestion.UpsertAll | BetOddsIngestor/Services/ResultsIngestionService.cs:62-103 | Every call is attempted, in order, whatever earlier calls did. The k-th attempt is the call of the k-th record that has both scores. |
| ResultsIngestion.RunResults | BetOddsIngestor/Services/ResultsIngestionService.cs:45-103 | The pass succeeds exactly when the feed is empty or a connection string is configured. An empty feed makes no call. A missing connection string fails before any call. Otherwise there is one attempted call per scored record, in order, and failures are isolated. |
| HistoryIngestion.RunHistory | BetOddsIngestor/Services/HistoryIngestionService.cs:46-90 | An empty feed makes no call. Otherwise there is one attempted call per record with both scores, in order, and a failing call does not stop later ones. |
| HistoryIngestion.EveryScoredRecordCalls | BetOddsIngestor/Services/HistoryIngestionService.cs:58-80 | Every record the balldontlie client returns has both scores, so the pass makes exactly one call per record, each for that record. |

## Left out

- HTTP requests, URL building, JSON parsing and configuration reads are
  not modelled. Each client starts from already-parsed records and a
  success/failure flag per response, and the JSON property names (for
  example `CommenceTime` against `commence_time`) are not checked.
  Exceptions the parsing would raise are outside the model, such as
  `GetProperty` on a missing property, `GetInt32` on a non-integer, or a
  null `bookmakers`, `markets` or `outcomes` list.
- `EasternTime.cs` and `TimeZoneInfo` are not modelled. The Eastern date
  and the year of an instant are the `Calendar` parameter, and a host
  without the "Eastern Standard Time" zone (which makes the results and
  history constructors throw) is not modelled.
- `DateTime.TryParse` converting an offset timestamp to local time is not
  modelled. A parsed time is the instant itself, and an unparseable one is
  absent.
- The clock (`DateTime.UtcNow`) is not modelled. The pass windows are
  parameters, and the odds pass takes the clock reading of each iteration
  as a function of its index.
- Entity Framework and SQL plumbing are not modelled: `SaveChangesAsync`
  failures, database constraints, identity values and `SqlConnection.Open`
  failures. Ids are table positions. The `betting.usp_UpsertGameResult`
  procedure is a log of attempted calls, and whether each call completes
  is a parameter.
- The history pass sets a null `Season` as the parameter value without
  converting it to `DBNull`. SqlClient then leaves the `@Season`
  parameter out of the call, so unless the procedure declares a default
  for it, that call fails with a missing-parameter error. The model passes
  the season through as it is; whether a call completes is a parameter in
  any case.
- Concurrency between runs (check-then-create races) is not modelled.
- `Program.cs` and `StubScheduleProviderClient.cs` are not modelled: the
  first is start-up wiring, and the stub always returns an empty list.
- Console logging is not modelled; it has no effect on the data.
- Unicode: letters, digits, upper-casing and case-insensitive comparison
  are ASCII only. `char.IsWhiteSpace` uses the full .NET white-space set.
- Culture: the bookmaker key is upper-cased with `ToUpper()`, which uses
  the current culture (under tr-TR, `i` becomes `İ`). The model takes the
  current culture to be the invariant one, as it does for `int.TryParse`'s
  sign characters.
- `int.TryParse` also ignores trailing `\0` characters after a number.
  The model treats `\0` as an ordinary character, so such a string does
  not parse.
- Database lookups: every first-match lookup in both passes is a
  `FirstOrDefaultAsync` without `OrderBy`. These are the sport, league,
  provider, game and team lookups. The model makes two assumptions about
  them. First, when several rows match, it returns the lowest id, while
  SQL Server may return any matching row. Second, it compares strings
  ordinally, while SQL Server's `=` ignores trailing spaces and, under a
  case-insensitive collation, case. Under that collation the odds pass
  resolves `Lakers` and `Lakers ` to one team, but
  `OddsIngestion.FindTeamSeparatesSpellings` is proved for ordinal
  equality only.
- OddsIngestion.FindTeamSeparatesSpellings: holds for ordinal equality
  only. Under SQL Server's collation, names that differ only in case or
  trailing spaces resolve to one team.
- Decimal arithmetic: spread and total points are opaque values copied
  through. Only the `(int)` cast of prices is modelled, as truncation with
  an Int32 overflow check.
- OddsApiClient.ApplyOutcome: h2h and spreads test the home and away names
  one after the other and cast the same price for each test. The model
  casts once. Both casts of one price agree, so the resulting quote and
  any overflow are the same.
