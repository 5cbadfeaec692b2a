/** The results client backed by the odds feed's scores endpoint
    (Providers/TheOddsApi/TheOddsApiScoresClient.cs): events inside the
    window whose home and away scores can both be read become score
    records, in feed order.

    The HTTP request and JSON parsing are not modelled: an event arrives
    with its properties already read, absent where the property is missing
    (or, for the start time, does not parse as a date). */
module ScoresClient {
  import opened Wrappers
  import opened SlateTime
  import opened Text
  import opened Lookup
  import opened Feeds

  /** One entry of an event's `scores` array. */
  datatype ScoreEntry = ScoreEntry(name: Option<string>, score: Option<string>)

  /** One event; `scores` is absent when the property is missing or is not
      an array. */
  datatype ScoreEvent = ScoreEvent(
    id: Option<string>,
    commenceTime: Option<Instant>,
    homeTeam: Option<string>,
    awayTeam: Option<string>,
    scores: Option<seq<ScoreEntry>>,
    completed: bool)

  const CompletedStatus := "Completed"

  /** The integer an entry's score reads as: none when it is null, blank or
      not an Int32. */
  function EntryScore(e: ScoreEntry): (r: Option<int>)
    ensures r.Some? ==> !IsBlank(e.score) && ParseInt32(e.score.value) == r
    ensures !IsBlank(e.score) && ParseInt32(e.score.value).Some? ==> r.Some?
  {
    if IsBlank(e.score) then None else ParseInt32(e.score.value)
  }

  /** The home and away scores read so far. */
  datatype Tally = Tally(home: Option<int>, away: Option<int>)

  /** The score loop: an entry named like the home team (ignoring case) sets
      the home score; otherwise one named like the away team sets the away
      score; a later entry overwrites an earlier one. */
  function TallyScores(entries: seq<ScoreEntry>, home: string, away: string): Tally {
    if |entries| == 0 then Tally(None, None)
    else
      var t := TallyScores(entries[..|entries| - 1], home, away);
      var e := entries[|entries| - 1];
      match EntryScore(e)
      case None => t
      case Some(v) =>
        if EqualsIgnoreCase(e.name.GetOr(""), home) then t.(home := Some(v))
        else if EqualsIgnoreCase(e.name.GetOr(""), away) then t.(away := Some(v))
        else t
  }

  /** The score an entry gives the home team. */
  function HomePick(home: string): ScoreEntry -> Option<int> {
    (e: ScoreEntry) => if EqualsIgnoreCase(e.name.GetOr(""), home) then EntryScore(e) else None
  }

  /** The score an entry gives the away team: named like it and not like
      the home team. */
  function AwayPick(home: string, away: string): ScoreEntry -> Option<int> {
    (e: ScoreEntry) =>
      if !EqualsIgnoreCase(e.name.GetOr(""), home) && EqualsIgnoreCase(e.name.GetOr(""), away)
      then EntryScore(e) else None
  }

  /** The readable scores of entries named like the home team. */
  function HomeScores(entries: seq<ScoreEntry>, home: string): seq<int> {
    FilterMap(entries, HomePick(home))
  }

  /** The readable scores of entries named like the away team and not like
      the home team. */
  function AwayScores(entries: seq<ScoreEntry>, home: string, away: string): seq<int> {
    FilterMap(entries, AwayPick(home, away))
  }

  /** The last value a filter keeps is the last element's value, when it
      has one, and otherwise the last value kept before it. */
  lemma LastFilterMapSnoc<A, B>(s: seq<A>, f: A -> Option<B>)
    requires |s| > 0
    ensures Last(FilterMap(s, f)) ==
            if f(s[|s| - 1]).Some? then f(s[|s| - 1]) else Last(FilterMap(s[..|s| - 1], f))
  {
  }

  /** Each score is the last readable one under its team's name, and absent
      when there is none. */
  lemma {:induction false} TallyIsLastScore(entries: seq<ScoreEntry>, home: string, away: string)
    ensures TallyScores(entries, home, away) ==
            Tally(Last(HomeScores(entries, home)), Last(AwayScores(entries, home, away)))
  {
    if |entries| > 0 {
      var init := entries[..|entries| - 1];
      var e := entries[|entries| - 1];
      TallyIsLastScore(init, home, away);
      LastFilterMapSnoc(entries, HomePick(home));
      LastFilterMapSnoc(entries, AwayPick(home, away));
      assert HomePick(home)(e) == (if EqualsIgnoreCase(e.name.GetOr(""), home) then EntryScore(e) else None);
      assert AwayPick(home, away)(e) ==
        (if !EqualsIgnoreCase(e.name.GetOr(""), home) && EqualsIgnoreCase(e.name.GetOr(""), away)
         then EntryScore(e) else None);
    }
  }

  /** The record an event yields: none when it has no start time, starts
      outside [from, to), has no scores array, or lacks either score. */
  function EventRecord(ev: ScoreEvent, cal: Calendar, from: Instant, to: Instant): (r: Option<ScoreGameDto>)
    ensures r.Some? <==>
      && ev.commenceTime.Some? && InWindow(ev.commenceTime.value, from, to)
      && ev.scores.Some?
      && TallyScores(ev.scores.value, ev.homeTeam.GetOr(""), ev.awayTeam.GetOr("")).home.Some?
      && TallyScores(ev.scores.value, ev.homeTeam.GetOr(""), ev.awayTeam.GetOr("")).away.Some?
    ensures r.Some? ==>
      var g := r.value;
      && g.startTimeUtc == ev.commenceTime.value
      && g.externalGameId == ev.id.GetOr("")
      && g.leagueCode == NbaCode
      && g.season == Some(IntToString(cal.yearOf(g.startTimeUtc)))
      && g.homeTeamName == ev.homeTeam.GetOr("") && g.awayTeamName == ev.awayTeam.GetOr("")
      && g.homeScore.Some? && g.awayScore.Some?
      && g.status == Some(if ev.completed then DefaultFinalStatus else CompletedStatus)
  {
    match ev.commenceTime
    case None => None
    case Some(t) =>
      if !InWindow(t, from, to) then None
      else
        var home := ev.homeTeam.GetOr("");
        var away := ev.awayTeam.GetOr("");
        match ev.scores
        case None => None
        case Some(entries) =>
          var tally := TallyScores(entries, home, away);
          if tally.home.None? || tally.away.None? then None
          else
            Some(ScoreGameDto(
              ev.id.GetOr(""), NbaCode, Some(IntToString(cal.yearOf(t))), home, away, t,
              tally.home, tally.away,
              Some(if ev.completed then DefaultFinalStatus else CompletedStatus)))
  }

  /** GetScoresAsync after the request: nothing on a non-success response,
      otherwise the records of the qualifying events, in feed order. */
  function GetScores(reply: Reply<seq<ScoreEvent>>, cal: Calendar, from: Instant, to: Instant): (r: seq<ScoreGameDto>)
    ensures reply.NotSuccess? ==> r == []
    ensures reply.Ok? ==> |r| <= |reply.payload|
    ensures forall k :: 0 <= k < |r| ==>
      && InWindow(r[k].startTimeUtc, from, to)
      && r[k].homeScore.Some? && r[k].awayScore.Some?
      && r[k].leagueCode == NbaCode
      && r[k].status in {Some(DefaultFinalStatus), Some(CompletedStatus)}
  {
    match reply
    case NotSuccess => []
    case Ok(events) =>
      var r := FilterMap(events, (ev: ScoreEvent) => EventRecord(ev, cal, from, to));
      FilterMapKeeps(events, (ev: ScoreEvent) => EventRecord(ev, cal, from, to));
      r
  }

  /** The records are those of the qualifying events, one each, in feed
      order: the k-th record is the record of the k-th qualifying event. */
  lemma GetScoresKeepsOrder(events: seq<ScoreEvent>, cal: Calendar, from: Instant, to: Instant)
    ensures
      var r := GetScores(Ok(events), cal, from, to);
      var idx := Kept(events, (ev: ScoreEvent) => EventRecord(ev, cal, from, to));
      && |r| == |idx|
      && StrictlyIncreasing(idx)
      && (forall k :: 0 <= k < |r| ==> idx[k] < |events| && EventRecord(events[idx[k]], cal, from, to) == Some(r[k]))
      && (forall i :: 0 <= i < |events| ==> (EventRecord(events[i], cal, from, to).Some? <==> i in idx))
  {
    FilterMapKeeps(events, (ev: ScoreEvent) => EventRecord(ev, cal, from, to));
  }
}
