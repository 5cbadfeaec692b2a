/** The canonical records the provider clients hand to the ingestion
    services, and the call the results passes make on the result store. */
module Feeds {
  import opened Wrappers
  import opened SlateTime
  import opened Entities

  /** The outcome of one HTTP request: a non-success status, or a body
      already parsed into `T`. */
  datatype Reply<T> = NotSuccess | Ok(payload: T)

  /** One scheduled game (Clients/ScheduleGameDto.cs). */
  datatype ScheduleGameDto = ScheduleGameDto(
    externalGameId: Option<string>,
    leagueCode: string,
    season: Option<string>,
    homeTeamName: Option<string>,
    awayTeamName: Option<string>,
    startTimeUtc: Instant)

  /** One scored game (Clients/ScoreGameDto.cs). */
  datatype ScoreGameDto = ScoreGameDto(
    externalGameId: string,
    leagueCode: string,
    season: Option<string>,
    homeTeamName: string,
    awayTeamName: string,
    startTimeUtc: Instant,
    homeScore: Option<int>,
    awayScore: Option<int>,
    status: Option<string>)

  /** One (game, bookmaker) price snapshot (Services/IOddsProviderClient.cs). */
  datatype OddsSnapshot = OddsSnapshot(
    gameId: string,
    gameTime: Instant,
    providerCode: string,
    homeTeam: string,
    awayTeam: string,
    quote: Quote)

  /** The parameters of one `betting.usp_UpsertGameResult` call. */
  datatype UpsertCall = UpsertCall(
    leagueCode: string,
    season: Option<string>,
    gameDateUtc: Day,
    homeTeamName: string,
    awayTeamName: string,
    homeScore: int,
    awayScore: int,
    finalStatus: string)

  /** A call made on the result store, and whether it completed or threw. */
  datatype Attempt = Attempt(call: UpsertCall, succeeded: bool)

  /** The status written when a score record carries none. */
  const DefaultFinalStatus := "Final"

  /** The only league the feeds produce. */
  const NbaCode := "NBA"
}
