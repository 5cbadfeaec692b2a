/** The results pass (Services/ResultsIngestionService.cs): every score
    record that carries both scores becomes one call of the result upsert
    procedure, in feed order, and a failing call is logged and skipped.

    The procedure itself is not modelled: its effect is the log of calls
    made, and whether the k-th call completes is a parameter. */
module ResultsIngestion {
  import opened Wrappers
  import opened SlateTime
  import opened Lookup
  import opened Feeds

  /** The call a score record makes: none when either score is missing.
      The date is the Eastern slate day of the start time; a missing status
      is sent as "Final". */
  function CallFor(s: ScoreGameDto, cal: Calendar): (r: Option<UpsertCall>)
    ensures r.Some? <==> s.homeScore.Some? && s.awayScore.Some?
    ensures r.Some? ==>
      && r.value.leagueCode == s.leagueCode
      && r.value.season == s.season
      && r.value.gameDateUtc == cal.slateDay(s.startTimeUtc)
      && r.value.homeTeamName == s.homeTeamName && r.value.awayTeamName == s.awayTeamName
      && r.value.homeScore == s.homeScore.value && r.value.awayScore == s.awayScore.value
      && r.value.finalStatus == s.status.GetOr(DefaultFinalStatus)
  {
    if s.homeScore.None? || s.awayScore.None? then None
    else
      Some(UpsertCall(s.leagueCode, s.season, cal.slateDay(s.startTimeUtc), s.homeTeamName, s.awayTeamName,
                      s.homeScore.value, s.awayScore.value, s.status.GetOr(DefaultFinalStatus)))
  }

  function CallOf(cal: Calendar): ScoreGameDto -> Option<UpsertCall> {
    (s: ScoreGameDto) => CallFor(s, cal)
  }

  /** The calls the records make, in feed order. */
  function Calls(records: seq<ScoreGameDto>, cal: Calendar): seq<UpsertCall> {
    FilterMap(records, CallOf(cal))
  }

  /** One call per record with both scores, in feed order, each carrying
      that record's fields. */
  lemma CallsFollowRecords(records: seq<ScoreGameDto>, cal: Calendar)
    ensures
      var calls := Calls(records, cal);
      var idx := Kept(records, CallOf(cal));
      && |calls| == |idx|
      && StrictlyIncreasing(idx)
      && (forall i :: 0 <= i < |records| ==> (records[i].homeScore.Some? && records[i].awayScore.Some? <==> i in idx))
      && (forall k :: 0 <= k < |calls| ==> idx[k] < |records| && CallFor(records[idx[k]], cal) == Some(calls[k]))
  {
    FilterMapKeeps(records, CallOf(cal));
  }

  /** The loop both result passes run: each qualifying record is sent, and
      the outcome of one call never stops the next. */
  method UpsertAll(records: seq<ScoreGameDto>, cal: Calendar, completes: nat -> bool) returns (log: seq<Attempt>)
    ensures |log| == |Calls(records, cal)|
    ensures forall k :: 0 <= k < |log| ==> log[k] == Attempt(Calls(records, cal)[k], completes(k))
  {
    log := [];
    var i := 0;
    while i < |records|
      invariant 0 <= i <= |records|
      invariant |log| == |Calls(records[..i], cal)|
      invariant forall k :: 0 <= k < |log| ==> log[k] == Attempt(Calls(records[..i], cal)[k], completes(k))
    {
      assert records[..i + 1][..i] == records[..i];
      var call := CallFor(records[i], cal);
      if call.Some? {
        log := log + [Attempt(call.value, completes(|log|))];
      }
      i := i + 1;
    }
    assert records[..|records|] == records;
  }

  const MissingConnection := "Connection string 'BettingDb' is not configured."

  /** RunOnceAsync, given the records the results client returned for the
      window, the configured connection string and the outcome of each
      call. An empty feed makes no call and reads no configuration; a
      missing connection string fails before any call. */
  method RunResults(records: seq<ScoreGameDto>, connection: Option<string>, cal: Calendar, completes: nat -> bool)
    returns (r: Result<seq<Attempt>, string>)
    ensures r.Success? <==> (|records| == 0 || connection.Some?)
    ensures |records| == 0 ==> r == Success([])
    ensures |records| > 0 && connection.None? ==> r == Failure(MissingConnection)
    ensures r.Success? ==>
      && |r.value| == |Calls(records, cal)|
      && forall k :: 0 <= k < |r.value| ==> r.value[k] == Attempt(Calls(records, cal)[k], completes(k))
  {
    if |records| == 0 {
      return Success([]);
    }
    if connection.None? {
      return Failure(MissingConnection);
    }
    var log := UpsertAll(records, cal, completes);
    return Success(log);
  }
}
