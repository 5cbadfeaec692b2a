/** The rows of the betting store the ingestion passes read and write.

    Every table is a sequence of rows and a row's id is its position: rows are
    only ever appended, never deleted, so a position names the same row for
    the life of the store. */
module Entities {
  import opened Wrappers
  import opened SlateTime

  datatype Sport = Sport(name: string, code: string)

  datatype League = League(sportId: nat, name: string, code: string)

  /** A team. Teams created by the odds pass leave everything except league
      and name unset (absent / false). */
  datatype Team = Team(
    leagueId: nat,
    name: string,
    abbreviation: Option<string>,
    externalRef: Option<string>,
    isActive: bool)

  datatype OddsProvider = OddsProvider(name: string, code: string)

  /** The game row as the schedule pass sees it: a textual season, a UTC
      start time and the Eastern slate day it belongs to. */
  datatype SlateGame = SlateGame(
    leagueId: nat,
    season: Option<string>,
    startTimeUtc: Instant,
    gameDateUtc: Day,
    homeTeamId: nat,
    awayTeamId: nat,
    externalRef: Option<string>)

  /** The game row as the odds pass sees it (Domain/Entities/Game.cs):
      a numeric season and a single start date-time. */
  datatype Game = Game(
    leagueId: nat,
    season: int,
    gameDateTime: Instant,
    homeTeamId: nat,
    awayTeamId: nat,
    status: string,
    externalRef: Option<string>)

  /** The status a new `Game` row starts with. */
  const Scheduled := "Scheduled"

  /** A C# `decimal`, as an integer number of units of 10^-scale. Points
      are copied and never computed with; prices are only truncated. */
  datatype Decimal = Decimal(units: int, scale: nat)

  /** The eight price/point fields an odds snapshot and a `GameOdds` row
      share; each is absent when the bookmaker did not quote it. */
  datatype Quote = Quote(
    homeMoneyline: Option<int>,
    awayMoneyline: Option<int>,
    spreadPoints: Option<Decimal>,
    spreadHomeOdds: Option<int>,
    spreadAwayOdds: Option<int>,
    totalPoints: Option<Decimal>,
    overOdds: Option<int>,
    underOdds: Option<int>)

  const NoQuote := Quote(None, None, None, None, None, None, None, None)

  /** One price observation: a game, a bookmaker, the time it was taken
      and the quoted fields. */
  datatype GameOdds = GameOdds(
    gameId: nat,
    oddsProviderId: nat,
    snapshotTimeUtc: Instant,
    quote: Quote)
}
