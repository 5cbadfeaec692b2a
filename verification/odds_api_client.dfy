/** The odds client's projection (Providers/TheOddsApi/TheOddsApiClient.cs):
    every non-null bookmaker of every event becomes one flat snapshot whose
    eight price/point fields are read off the bookmaker's h2h, spreads and
    totals markets.

    The HTTP request and JSON binding are not modelled; the client starts
    from the events already parsed. */
module OddsApiClient {
  import opened Wrappers
  import opened SlateTime
  import opened Text
  import opened Lookup
  import opened Entities
  import opened Feeds

  datatype Outcome = Outcome(name: string, price: Decimal, point: Option<Decimal>)

  datatype Market = Market(key: string, outcomes: seq<Outcome>)

  datatype Bookmaker = Bookmaker(key: string, markets: seq<Market>)

  /** One event of the odds feed; a bookmaker entry may be null. */
  datatype EventOdds = EventOdds(
    id: string,
    commenceTime: Instant,
    homeTeam: string,
    awayTeam: string,
    bookmakers: seq<Option<Bookmaker>>)

  const H2h := "h2h"
  const Spreads := "spreads"
  const Totals := "totals"
  const Over := "Over"
  const Under := "Under"

  // ---- the (int) cast --------------------------------------------------------

  function Pow10(n: nat): (r: nat)
    ensures r >= 1
  {
    if n == 0 then 1 else 10 * Pow10(n - 1)
  }

  lemma DivBounds(n: nat, p: nat)
    requires p >= 1
    ensures 0 <= n / p && (n / p) * p <= n < (n / p + 1) * p
  {
    var q, r := n / p, n % p;
    assert n == q * p + r;
    assert (q + 1) * p == q * p + p;
  }

  /** The integer part of a decimal: the fraction is dropped toward zero. */
  function Truncate(d: Decimal): (r: int)
    ensures d.units >= 0 ==> 0 <= r && r * Pow10(d.scale) <= d.units < (r + 1) * Pow10(d.scale)
    ensures d.units < 0 ==> r <= 0 && (r - 1) * Pow10(d.scale) < d.units <= r * Pow10(d.scale)
  {
    var p := Pow10(d.scale);
    if d.units >= 0 then
      DivBounds(d.units, p);
      d.units / p
    else
      var n: nat := -d.units;
      DivBounds(n, p);
      assert (-(n / p) - 1) * p == -((n / p + 1) * p);
      assert -(n / p) * p == -((n / p) * p);
      -(n / p)
  }

  const OverflowError := "Value was either too large or too small for an Int32."

  /** The explicit `decimal` to `int` conversion: truncation, and an
      overflow exception when the integer part leaves the Int32 range. */
  function CastToInt(d: Decimal): (r: Result<int, string>)
    ensures r.Success? <==> IsInt32(Truncate(d))
    ensures r.Success? ==> r.value == Truncate(d)
    ensures r.Failure? ==> r.error == OverflowError
  {
    var t := Truncate(d);
    if IsInt32(t) then Success(t) else Failure(OverflowError)
  }

  // ---- one bookmaker ---------------------------------------------------------

  /** An outcome together with the key of the market it was listed under. */
  datatype Priced = Priced(marketKey: string, outcome: Outcome)

  /** The outcomes of a bookmaker's markets in the order the nested loops
      visit them: market by market, outcome by outcome. */
  function Flat(markets: seq<Market>): (r: seq<Priced>)
    ensures forall k :: 0 <= k < |r| ==> exists m :: m in markets && r[k].marketKey == m.key && r[k].outcome in m.outcomes
  {
    if |markets| == 0 then []
    else
      var m := markets[|markets| - 1];
      Flat(markets[..|markets| - 1]) + seq(|m.outcomes|, k requires 0 <= k < |m.outcomes| => Priced(m.key, m.outcomes[k]))
  }

  /** An outcome that makes the loop cast its price: a home or away name in
      h2h or spreads, Over or Under in totals. */
  predicate Casts(p: Priced, home: string, away: string) {
    || ((p.marketKey == H2h || p.marketKey == Spreads) && (p.outcome.name == home || p.outcome.name == away))
    || (p.marketKey == Totals && (p.outcome.name == Over || p.outcome.name == Under))
  }

  /** One outcome applied to the quote built so far. Both name tests of a
      market cast the same price, so one cast stands for both. */
  function ApplyOutcome(q: Quote, p: Priced, home: string, away: string): (r: Result<Quote, string>)
    ensures r.Failure? ==> r.error == OverflowError
    ensures !Casts(p, home, away) ==> r == Success(q)
    ensures Casts(p, home, away) ==> (r.Failure? <==> !IsInt32(Truncate(p.outcome.price)))
  {
    var o := p.outcome;
    if !Casts(p, home, away) then Success(q)
    else
      match CastToInt(o.price)
      case Failure(e) => Failure(e)
      case Success(v) =>
        if p.marketKey == H2h then
          Success(q.(
            homeMoneyline := if o.name == home then Some(v) else q.homeMoneyline,
            awayMoneyline := if o.name == away then Some(v) else q.awayMoneyline))
        else if p.marketKey == Spreads then
          Success(q.(
            spreadPoints := if o.name == home then o.point else q.spreadPoints,
            spreadHomeOdds := if o.name == home then Some(v) else q.spreadHomeOdds,
            spreadAwayOdds := if o.name == away then Some(v) else q.spreadAwayOdds))
        else
          Success(q.(
            totalPoints := if o.name == Over then o.point else q.totalPoints,
            overOdds := if o.name == Over then Some(v) else q.overOdds,
            underOdds := if o.name == Under then Some(v) else q.underOdds))
  }

  /** The outcomes applied in order, starting from a quote with every field
      absent; the first failing cast ends the whole request. */
  function QuoteOf(ps: seq<Priced>, home: string, away: string): (r: Result<Quote, string>)
    ensures r.Failure? ==> r.error == OverflowError
  {
    if |ps| == 0 then Success(NoQuote)
    else
      match QuoteOf(ps[..|ps| - 1], home, away)
      case Failure(e) => Failure(e)
      case Success(q) => ApplyOutcome(q, ps[|ps| - 1], home, away)
  }

  /** The quote a bookmaker offers for an event. */
  function BookmakerQuote(bk: Bookmaker, home: string, away: string): Result<Quote, string> {
    QuoteOf(Flat(bk.markets), home, away)
  }

  /** The outcomes listed under market `key` with name `name`, in order. */
  function Hits(ps: seq<Priced>, key: string, name: string): seq<Outcome> {
    FilterMap(ps, (p: Priced) => if p.marketKey == key && p.outcome.name == name then Some(p.outcome) else None)
  }

  /** The truncated price of the last hit, absent when there is none. */
  function LastPrice(hits: seq<Outcome>): Option<int> {
    if |hits| == 0 then None else Some(Truncate(hits[|hits| - 1].price))
  }

  /** The point of the last hit, absent when there is none or it has none. */
  function LastPoint(hits: seq<Outcome>): Option<Decimal> {
    if |hits| == 0 then None else hits[|hits| - 1].point
  }

  /** The quote the outcomes determine field by field: each field is the
      last matching outcome's value, and absent when nothing matched. */
  function ExpectedQuote(ps: seq<Priced>, home: string, away: string): Quote {
    Quote(
      LastPrice(Hits(ps, H2h, home)),
      LastPrice(Hits(ps, H2h, away)),
      LastPoint(Hits(ps, Spreads, home)),
      LastPrice(Hits(ps, Spreads, home)),
      LastPrice(Hits(ps, Spreads, away)),
      LastPoint(Hits(ps, Totals, Over)),
      LastPrice(Hits(ps, Totals, Over)),
      LastPrice(Hits(ps, Totals, Under)))
  }

  /** Some outcome that makes the loop cast has a price outside Int32. */
  predicate Overflows(ps: seq<Priced>, home: string, away: string) {
    exists k :: 0 <= k < |ps| && Casts(ps[k], home, away) && !IsInt32(Truncate(ps[k].outcome.price))
  }

  lemma HitsSnoc(ps: seq<Priced>, p: Priced, key: string, name: string)
    ensures Hits(ps + [p], key, name) ==
            Hits(ps, key, name) + (if p.marketKey == key && p.outcome.name == name then [p.outcome] else [])
  {
    assert (ps + [p])[..|ps|] == ps;
  }

  /** The loop fails exactly when some outcome it casts has a price
      outside Int32. */
  lemma {:induction false} QuoteOfFails(ps: seq<Priced>, home: string, away: string)
    ensures QuoteOf(ps, home, away).Failure? <==> Overflows(ps, home, away)
  {
    if |ps| > 0 {
      var init := ps[..|ps| - 1];
      var p := ps[|ps| - 1];
      QuoteOfFails(init, home, away);
      assert forall k :: 0 <= k < |init| ==> ps[k] == init[k];
    }
  }

  /** The moneylines are the last h2h prices under the home and away names. */
  lemma {:induction false} QuoteOfMoneylines(ps: seq<Priced>, home: string, away: string)
    requires QuoteOf(ps, home, away).Success?
    ensures QuoteOf(ps, home, away).value.homeMoneyline == LastPrice(Hits(ps, H2h, home))
    ensures QuoteOf(ps, home, away).value.awayMoneyline == LastPrice(Hits(ps, H2h, away))
  {
    if |ps| > 0 {
      var init := ps[..|ps| - 1];
      var p := ps[|ps| - 1];
      assert ps == init + [p];
      QuoteOfMoneylines(init, home, away);
      HitsSnoc(init, p, H2h, home);
      HitsSnoc(init, p, H2h, away);
    }
  }

  /** The spread point and home price come from the last home outcome of a
      spreads market, the away price from the last away outcome. */
  lemma {:induction false} QuoteOfSpreads(ps: seq<Priced>, home: string, away: string)
    requires QuoteOf(ps, home, away).Success?
    ensures QuoteOf(ps, home, away).value.spreadPoints == LastPoint(Hits(ps, Spreads, home))
    ensures QuoteOf(ps, home, away).value.spreadHomeOdds == LastPrice(Hits(ps, Spreads, home))
    ensures QuoteOf(ps, home, away).value.spreadAwayOdds == LastPrice(Hits(ps, Spreads, away))
  {
    if |ps| > 0 {
      var init := ps[..|ps| - 1];
      var p := ps[|ps| - 1];
      assert ps == init + [p];
      QuoteOfSpreads(init, home, away);
      HitsSnoc(init, p, Spreads, home);
      HitsSnoc(init, p, Spreads, away);
    }
  }

  /** The total and the over price come from the last Over outcome of a
      totals market, the under price from the last Under outcome. */
  lemma {:induction false} QuoteOfTotals(ps: seq<Priced>, home: string, away: string)
    requires QuoteOf(ps, home, away).Success?
    ensures QuoteOf(ps, home, away).value.totalPoints == LastPoint(Hits(ps, Totals, Over))
    ensures QuoteOf(ps, home, away).value.overOdds == LastPrice(Hits(ps, Totals, Over))
    ensures QuoteOf(ps, home, away).value.underOdds == LastPrice(Hits(ps, Totals, Under))
  {
    if |ps| > 0 {
      var init := ps[..|ps| - 1];
      var p := ps[|ps| - 1];
      assert ps == init + [p];
      QuoteOfTotals(init, home, away);
      HitsSnoc(init, p, Totals, Over);
      HitsSnoc(init, p, Totals, Under);
    }
  }

  /** A bookmaker quotes the fields its markets determine, or makes the
      request fail when a cast price overflows. */
  lemma BookmakerQuoteMeaning(bk: Bookmaker, home: string, away: string)
    ensures BookmakerQuote(bk, home, away).Failure? <==> Overflows(Flat(bk.markets), home, away)
    ensures BookmakerQuote(bk, home, away).Success? ==>
              BookmakerQuote(bk, home, away).value == ExpectedQuote(Flat(bk.markets), home, away)
  {
    QuoteOfFails(Flat(bk.markets), home, away);
    if BookmakerQuote(bk, home, away).Success? {
      QuoteOfMoneylines(Flat(bk.markets), home, away);
      QuoteOfSpreads(Flat(bk.markets), home, away);
      QuoteOfTotals(Flat(bk.markets), home, away);
    }
  }

  // ---- all events ------------------------------------------------------------

  /** The snapshot of one (event, bookmaker) pair: the event's id, start and
      team names, the bookmaker's key upper-cased as provider code. */
  function Snapshot(g: EventOdds, bk: Bookmaker, q: Quote): OddsSnapshot {
    OddsSnapshot(g.id, g.commenceTime, Upper(bk.key), g.homeTeam, g.awayTeam, q)
  }

  /** A bookmaker entry the loop gets through: null, or quoted without overflow. */
  predicate Quotable(g: EventOdds, b: Option<Bookmaker>) {
    b.None? || BookmakerQuote(b.value, g.homeTeam, g.awayTeam).Success?
  }

  /** Every bookmaker entry of an event is quotable. */
  predicate EventQuotable(g: EventOdds) {
    forall j :: 0 <= j < |g.bookmakers| ==> Quotable(g, g.bookmakers[j])
  }

  /** Every bookmaker entry of every event is quotable. */
  predicate AllQuotable(games: seq<EventOdds>) {
    forall i :: 0 <= i < |games| ==> EventQuotable(games[i])
  }

  /** The snapshot a bookmaker entry yields, none for a null entry. */
  function SnapshotOf(g: EventOdds): Option<Bookmaker> -> Option<OddsSnapshot> {
    (b: Option<Bookmaker>) =>
      match b
      case None => None
      case Some(bk) =>
        match BookmakerQuote(bk, g.homeTeam, g.awayTeam)
        case Success(q) => Some(Snapshot(g, bk, q))
        case Failure(_) => None
  }

  /** The bookmaker loop of one event over its first |books| entries. */
  function EventSnapshots(g: EventOdds, books: seq<Option<Bookmaker>>): (r: Result<seq<OddsSnapshot>, string>)
    ensures r.Success? <==> forall j :: 0 <= j < |books| ==> Quotable(g, books[j])
    ensures r.Success? ==> r.value == FilterMap(books, SnapshotOf(g))
    ensures r.Failure? ==> r.error == OverflowError
  {
    if |books| == 0 then Success([])
    else
      var init := books[..|books| - 1];
      assert forall j :: 0 <= j < |init| ==> init[j] == books[j];
      match EventSnapshots(g, init)
      case Failure(e) => Failure(e)
      case Success(prev) =>
        match books[|books| - 1]
        case None => Success(prev)
        case Some(bk) =>
          match BookmakerQuote(bk, g.homeTeam, g.awayTeam)
          case Failure(e) => Failure(e)
          case Success(q) => Success(prev + [Snapshot(g, bk, q)])
  }

  /** Every event's snapshots, event after event. */
  function AllSnapshots(games: seq<EventOdds>): seq<OddsSnapshot> {
    if |games| == 0 then []
    else
      var g := games[|games| - 1];
      AllSnapshots(games[..|games| - 1]) + FilterMap(g.bookmakers, SnapshotOf(g))
  }

  /** GetTodayOddsAsync after the response is parsed: the event loop around
      the bookmaker loop. An overflowing cast anywhere fails the call. */
  function TodayOdds(games: seq<EventOdds>): (r: Result<seq<OddsSnapshot>, string>)
    ensures r.Success? <==> AllQuotable(games)
    ensures r.Success? ==> r.value == AllSnapshots(games)
    ensures r.Failure? ==> r.error == OverflowError
  {
    if |games| == 0 then Success([])
    else
      var init := games[..|games| - 1];
      var g := games[|games| - 1];
      assert forall i :: 0 <= i < |init| ==> init[i] == games[i];
      match TodayOdds(init)
      case Failure(e) => Failure(e)
      case Success(prev) =>
        match EventSnapshots(g, g.bookmakers)
        case Failure(e) => Failure(e)
        case Success(snaps) => Success(prev + snaps)
  }

  /** For one event: exactly one snapshot per non-null bookmaker, in
      bookmaker order, carrying the event's fields, the upper-cased key and
      the bookmaker's quote. */
  lemma EventSnapshotsOnePerBookmaker(g: EventOdds)
    requires EventQuotable(g)
    ensures
      var out := FilterMap(g.bookmakers, SnapshotOf(g));
      var idx := Kept(g.bookmakers, SnapshotOf(g));
      && |out| == |idx|
      && StrictlyIncreasing(idx)
      && (forall j :: 0 <= j < |g.bookmakers| ==> (g.bookmakers[j].Some? <==> j in idx))
      && forall k :: 0 <= k < |out| ==>
           && idx[k] < |g.bookmakers| && g.bookmakers[idx[k]].Some?
           && out[k].gameId == g.id && out[k].gameTime == g.commenceTime
           && out[k].homeTeam == g.homeTeam && out[k].awayTeam == g.awayTeam
           && out[k].providerCode == Upper(g.bookmakers[idx[k]].value.key)
           && Success(out[k].quote) == BookmakerQuote(g.bookmakers[idx[k]].value, g.homeTeam, g.awayTeam)
  {
    FilterMapKeeps(g.bookmakers, SnapshotOf(g));
  }

  /** Snapshot count: the sum over events of their non-null bookmakers. */
  function BookCount(games: seq<EventOdds>): nat {
    if |games| == 0 then 0
    else BookCount(games[..|games| - 1]) + |Kept(games[|games| - 1].bookmakers, (b: Option<Bookmaker>) => b)|
  }

  lemma {:induction false} AllSnapshotsCount(games: seq<EventOdds>)
    requires AllQuotable(games)
    ensures |AllSnapshots(games)| == BookCount(games)
  {
    if |games| > 0 {
      var init := games[..|games| - 1];
      var g := games[|games| - 1];
      assert forall i :: 0 <= i < |init| ==> init[i] == games[i];
      AllSnapshotsCount(init);
      SameKept(g.bookmakers, SnapshotOf(g), (b: Option<Bookmaker>) => b);
      FilterMapKeeps(g.bookmakers, SnapshotOf(g));
    }
  }

  /** Two maps that accept the same inputs keep the same positions. */
  lemma {:induction false} SameKept<A, B, C>(s: seq<A>, f: A -> Option<B>, h: A -> Option<C>)
    requires forall i :: 0 <= i < |s| ==> (f(s[i]).Some? <==> h(s[i]).Some?)
    ensures Kept(s, f) == Kept(s, h)
  {
    if |s| > 0 {
      SameKept(s[..|s| - 1], f, h);
    }
  }
}
