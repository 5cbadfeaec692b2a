/** The history pass (Services/HistoryIngestionService.cs): the backfill
    twin of the results pass, fed by the balldontlie client over a longer
    window. It runs the same per-record filter, mapping and error isolation
    on the store's own connection, so no configuration can be missing. */
module HistoryIngestion {
  import opened Wrappers
  import opened SlateTime
  import opened Lookup
  import opened Feeds
  import opened ResultsIngestion

  /** RunOnceAsync, given the records the history client returned and the
      outcome of each call: no call for an empty feed, otherwise one call
      per record with both scores, in order, whatever earlier calls did. */
  method RunHistory(records: seq<ScoreGameDto>, cal: Calendar, completes: nat -> bool) returns (log: seq<Attempt>)
    ensures |records| == 0 ==> log == []
    ensures |log| == |Calls(records, cal)|
    ensures forall k :: 0 <= k < |log| ==> log[k] == Attempt(Calls(records, cal)[k], completes(k))
  {
    if |records| == 0 {
      return [];
    }
    log := UpsertAll(records, cal, completes);
  }

  /** The history client only returns records with both scores, so the
      pass makes exactly one call per record, each for that record. */
  lemma {:induction false} EveryScoredRecordCalls(records: seq<ScoreGameDto>, cal: Calendar)
    requires forall k :: 0 <= k < |records| ==> records[k].homeScore.Some? && records[k].awayScore.Some?
    ensures |Calls(records, cal)| == |records|
    ensures forall k :: 0 <= k < |records| ==> CallFor(records[k], cal) == Some(Calls(records, cal)[k])
  {
    if |records| > 0 {
      var init := records[..|records| - 1];
      EveryScoredRecordCalls(init, cal);
      assert forall k :: 0 <= k < |init| ==> init[k] == records[k];
    }
  }
}
