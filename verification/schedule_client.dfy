/** The schedule client backed by the odds feed
    (Providers/TheOddsApi/TheOddsApiScheduleClient.cs): events with a start
    time inside the window become scheduled games, in feed order.

    The HTTP request and JSON binding are not modelled: an event arrives
    with its properties already bound, absent where they were null. */
module ScheduleClient {
  import opened Wrappers
  import opened SlateTime
  import opened Text
  import opened Lookup
  import opened Feeds

  datatype ScheduleEvent = ScheduleEvent(
    id: Option<string>,
    commenceTime: Option<Instant>,
    homeTeam: Option<string>,
    awayTeam: Option<string>)

  /** The game an event yields: none without a start time or outside
      [from, to); null team names become empty strings. */
  function EventGame(e: ScheduleEvent, cal: Calendar, from: Instant, to: Instant): (r: Option<ScheduleGameDto>)
    ensures r.Some? <==> e.commenceTime.Some? && InWindow(e.commenceTime.value, from, to)
    ensures r.Some? ==>
      var g := r.value;
      && g.externalGameId == e.id
      && g.leagueCode == NbaCode
      && g.startTimeUtc == e.commenceTime.value
      && g.season == Some(IntToString(cal.yearOf(g.startTimeUtc)))
      && g.homeTeamName == Some(e.homeTeam.GetOr(""))
      && g.awayTeamName == Some(e.awayTeam.GetOr(""))
  {
    match e.commenceTime
    case None => None
    case Some(t) =>
      if !InWindow(t, from, to) then None
      else
        Some(ScheduleGameDto(e.id, NbaCode, Some(IntToString(cal.yearOf(t))),
                             Some(e.homeTeam.GetOr("")), Some(e.awayTeam.GetOr("")), t))
  }

  /** GetScheduleAsync after the request: nothing on a non-success response,
      otherwise the games of the events inside the window, in feed order. */
  function GetSchedule(reply: Reply<seq<ScheduleEvent>>, cal: Calendar, from: Instant, to: Instant): (r: seq<ScheduleGameDto>)
    ensures reply.NotSuccess? ==> r == []
    ensures reply.Ok? ==> |r| <= |reply.payload|
    ensures forall k :: 0 <= k < |r| ==>
      && InWindow(r[k].startTimeUtc, from, to)
      && r[k].leagueCode == NbaCode
      && r[k].season == Some(IntToString(cal.yearOf(r[k].startTimeUtc)))
      && r[k].homeTeamName.Some? && r[k].awayTeamName.Some?
  {
    match reply
    case NotSuccess => []
    case Ok(events) =>
      var r := FilterMap(events, (e: ScheduleEvent) => EventGame(e, cal, from, to));
      FilterMapKeeps(events, (e: ScheduleEvent) => EventGame(e, cal, from, to));
      r
  }

  /** The games are those of the events inside the window, one each, in
      feed order. */
  lemma GetScheduleKeepsOrder(events: seq<ScheduleEvent>, cal: Calendar, from: Instant, to: Instant)
    ensures
      var r := GetSchedule(Ok(events), cal, from, to);
      var idx := Kept(events, (e: ScheduleEvent) => EventGame(e, cal, from, to));
      && |r| == |idx|
      && StrictlyIncreasing(idx)
      && (forall k :: 0 <= k < |r| ==> idx[k] < |events| && EventGame(events[idx[k]], cal, from, to) == Some(r[k]))
      && (forall i :: 0 <= i < |events| ==>
            (events[i].commenceTime.Some? && InWindow(events[i].commenceTime.value, from, to) <==> i in idx))
  {
    FilterMapKeeps(events, (e: ScheduleEvent) => EventGame(e, cal, from, to));
  }
}
