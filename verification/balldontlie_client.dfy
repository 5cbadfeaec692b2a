/** The balldontlie history client (Clients/BalldontlieNbaClient.cs): it
    walks the paged games listing from page 1, keeps the games inside the
    window that have a score, and stops at the first page that fails, has
    no data array, or names no later page.

    The HTTP requests and JSON parsing are not modelled: the listing is a
    function from page number to the reply for that page, already parsed. */
module BalldontlieClient {
  import opened Wrappers
  import opened SlateTime
  import opened Text
  import opened Lookup
  import opened Feeds

  /** One game of a page. A missing or null team name is absent; a missing
      or unparseable date is absent. */
  datatype ListedGame = ListedGame(
    id: Int32,
    date: Option<Instant>,
    homeTeam: Option<string>,
    visitorTeam: Option<string>,
    homeScore: Int32,
    visitorScore: Int32,
    season: Int32)

  /** One page: its `data` array (absent when missing or not an array) and
      its `meta.next_page` (absent when either is missing or null). */
  datatype Page = Page(data: Option<seq<ListedGame>>, nextPage: Option<Int32>)

  const FirstPage: nat := 1

  /** The record a listed game yields: none without a date, outside
      [from, to), or with both scores zero (not played yet). */
  function GameRecord(g: ListedGame, from: Instant, to: Instant): (r: Option<ScoreGameDto>)
    ensures r.Some? <==> g.date.Some? && InWindow(g.date.value, from, to) && !(g.homeScore == 0 && g.visitorScore == 0)
    ensures r.Some? ==>
      && r.value.externalGameId == IntToString(g.id)
      && r.value.leagueCode == NbaCode
      && r.value.season == Some(IntToString(g.season))
      && r.value.homeTeamName == g.homeTeam.GetOr("")
      && r.value.awayTeamName == g.visitorTeam.GetOr("")
      && r.value.startTimeUtc == g.date.value
      && r.value.homeScore == Some(g.homeScore as int) && r.value.awayScore == Some(g.visitorScore as int)
      && r.value.status == Some(DefaultFinalStatus)
  {
    match g.date
    case None => None
    case Some(t) =>
      if !InWindow(t, from, to) then None
      else if g.homeScore == 0 && g.visitorScore == 0 then None
      else
        Some(ScoreGameDto(IntToString(g.id), NbaCode, Some(IntToString(g.season)),
                          g.homeTeam.GetOr(""), g.visitorTeam.GetOr(""), t,
                          Some(g.homeScore as int), Some(g.visitorScore as int), Some(DefaultFinalStatus)))
  }

  /** The records one reply contributes: none for a failed request or a
      page without data, else those of its qualifying games, in order. */
  function PageRecords(reply: Reply<Page>, from: Instant, to: Instant): (r: seq<ScoreGameDto>)
    ensures reply.NotSuccess? || reply.payload.data.None? ==> r == []
    ensures forall k :: 0 <= k < |r| ==>
      && InWindow(r[k].startTimeUtc, from, to)
      && r[k].status == Some(DefaultFinalStatus) && r[k].leagueCode == NbaCode
      && r[k].homeScore.Some? && r[k].awayScore.Some?
      && !(r[k].homeScore.value == 0 && r[k].awayScore.value == 0)
  {
    match reply
    case NotSuccess => []
    case Ok(page) =>
      match page.data
      case None => []
      case Some(games) =>
        var r := FilterMap(games, (g: ListedGame) => GameRecord(g, from, to));
        FilterMapKeeps(games, (g: ListedGame) => GameRecord(g, from, to));
        r
  }

  /** A page's records are those of its qualifying games, one each, in the
      page's order: dated inside the window and not both scores zero. */
  lemma PageRecordsKeepOrder(games: seq<ListedGame>, nextPage: Option<Int32>, from: Instant, to: Instant)
    ensures
      var r := PageRecords(Ok(Page(Some(games), nextPage)), from, to);
      var idx := Kept(games, (g: ListedGame) => GameRecord(g, from, to));
      && |r| == |idx|
      && StrictlyIncreasing(idx)
      && (forall k :: 0 <= k < |r| ==> idx[k] < |games| && GameRecord(games[idx[k]], from, to) == Some(r[k]))
      && (forall i :: 0 <= i < |games| ==>
            ((games[i].date.Some? && InWindow(games[i].date.value, from, to)
              && !(games[i].homeScore == 0 && games[i].visitorScore == 0)) <==> i in idx))
  {
    FilterMapKeeps(games, (g: ListedGame) => GameRecord(g, from, to));
  }

  /** The page the loop requests after `page`: the reply's next page, when
      the request succeeded, the page had data and the next page is
      strictly greater; otherwise the loop stops. */
  function NextPage(reply: Reply<Page>, page: nat): (r: Option<nat>)
    ensures r.Some? ==> page < r.value <= Int32Max
    ensures r.Some? <==>
      reply.Ok? && reply.payload.data.Some? && reply.payload.nextPage.Some? && reply.payload.nextPage.value > page
  {
    match reply
    case NotSuccess => None
    case Ok(p) =>
      if p.data.None? then None
      else
        match p.nextPage
        case None => None
        case Some(n) => if n as int <= page then None else Some(n as nat)
  }

  /** The records of the requested pages, page after page. */
  function RecordsOf(listing: nat -> Reply<Page>, pages: seq<nat>, from: Instant, to: Instant): seq<ScoreGameDto> {
    if |pages| == 0 then []
    else RecordsOf(listing, pages[..|pages| - 1], from, to) + PageRecords(listing(pages[|pages| - 1]), from, to)
  }

  lemma {:induction false} RecordsOfQualify(listing: nat -> Reply<Page>, pages: seq<nat>, from: Instant, to: Instant)
    ensures forall k :: 0 <= k < |RecordsOf(listing, pages, from, to)| ==>
      var r := RecordsOf(listing, pages, from, to)[k];
      && InWindow(r.startTimeUtc, from, to) && r.status == Some(DefaultFinalStatus) && r.leagueCode == NbaCode
      && r.homeScore.Some? && r.awayScore.Some? && !(r.homeScore.value == 0 && r.awayScore.value == 0)
  {
    if |pages| > 0 {
      RecordsOfQualify(listing, pages[..|pages| - 1], from, to);
    }
  }

  /** The pages requested so far: page 1 first, strictly increasing, within
      Int32, and each following page the one the previous reply named. */
  predicate Chained(listing: nat -> Reply<Page>, pages: seq<nat>) {
    && |pages| >= 1 && pages[0] == FirstPage
    && StrictlyIncreasing(pages)
    && (forall k :: 0 <= k < |pages| ==> pages[k] <= Int32Max)
    && (forall k :: 0 <= k < |pages| - 1 ==> NextPage(listing(pages[k]), pages[k]) == Some(pages[k + 1]))
  }

  /** Following the page the last reply names keeps the chain. */
  lemma ChainedExtend(listing: nat -> Reply<Page>, pages: seq<nat>, n: nat)
    requires Chained(listing, pages)
    requires NextPage(listing(pages[|pages| - 1]), pages[|pages| - 1]) == Some(n)
    ensures Chained(listing, pages + [n])
  {
    var next := pages + [n];
    assert forall k :: 0 <= k < |pages| ==> next[k] == pages[k];
  }

  /** GetGamesWithScoresAsync. Returns the records and, for the reader, the
      pages it requested: page 1 first, each following page the one the
      previous reply named, strictly increasing (so no page is requested
      twice), and the loop ends at the first page that names no later page.
      Records gathered before a failing page are kept. */
  method GetGamesWithScores(listing: nat -> Reply<Page>, from: Instant, to: Instant)
    returns (records: seq<ScoreGameDto>, pages: seq<nat>)
    ensures |pages| >= 1 && pages[0] == FirstPage
    ensures StrictlyIncreasing(pages)
    ensures forall k :: 0 <= k < |pages| ==> pages[k] <= Int32Max
    ensures forall k :: 0 <= k < |pages| - 1 ==> NextPage(listing(pages[k]), pages[k]) == Some(pages[k + 1])
    ensures NextPage(listing(pages[|pages| - 1]), pages[|pages| - 1]).None?
    ensures records == RecordsOf(listing, pages, from, to)
    ensures forall k :: 0 <= k < |records| ==>
      && InWindow(records[k].startTimeUtc, from, to) && records[k].status == Some(DefaultFinalStatus)
      && records[k].homeScore.Some? && records[k].awayScore.Some?
      && !(records[k].homeScore.value == 0 && records[k].awayScore.value == 0)
  {
    var page := FirstPage;
    pages := [FirstPage];
    records := [];
    while true
      invariant Chained(listing, pages) && page == pages[|pages| - 1]
      invariant records == RecordsOf(listing, pages[..|pages| - 1], from, to)
      decreases Int32Max - page
    {
      var reply := listing(page);
      assert pages[..|pages|][..|pages| - 1] == pages[..|pages| - 1];
      records := records + PageRecords(reply, from, to);
      assert pages[..|pages|] == pages;
      match NextPage(reply, page)
      case None =>
        RecordsOfQualify(listing, pages, from, to);
        return;
      case Some(n) =>
        ChainedExtend(listing, pages, n);
        assert (pages + [n])[..|pages|] == pages;
        page := n;
        pages := pages + [n];
    }
  }
}
