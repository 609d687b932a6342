/** The whole run of blueprint-summary.py after authentication: parse the
    listing body, fetch every blueprint, write the two reports. */
module Summary {
  import opened Listing
  import opened Schedule
  import opened Fetch
  import opened Report

  /** Lines 76-165 with the listing body, the processing order and the
      replies as inputs. When a request produces no response the failure
      ends the script before any report is written: `completed` is false,
      neither file is opened, and the empty row sequences returned then
      stand for nothing written (files from an earlier run stay as they
      were). Otherwise both reports are written. The data file holds the
      successful items and the error file the other answered items, in
      processing order; which IDs land in which file, and how often, does
      not depend on that order. Together the record rows of the two files
      list every listed ID exactly as often as the listing does. */
  method Summarise(body: string, order: seq<nat>, replies: seq<Reply>)
    returns (completed: bool, dataRows: seq<seq<string>>, errorRows: seq<seq<string>>)
    requires |replies| == |ListingEntries(body)|
    requires IsOrder(order, |replies|)
    ensures completed <==> AllAnswered(replies)
    ensures !completed ==> dataRows == [] && errorRows == []
    ensures dataRows == [] || dataRows[0] == DataHeader
    ensures errorRows == [] || errorRows[0] == ErrorHeader
    ensures completed ==>
      multiset(IdColumn(dataRows) + IdColumn(errorRows)) == multiset(BlueprintIds(ListingEntries(body)))
    ensures InRange(order, |replies|)
    ensures completed ==>
      var ids := BlueprintIds(ListingEntries(body));
      var pi, pr := Pick(ids, order), Pick(replies, order);
      && DataFile(dataRows, Successes(pi, pr))
      && ErrorFile(errorRows, Failures(pi, pr))
      && IdColumn(dataRows) == ExportIds(Successes(pi, pr))
      && IdColumn(errorRows) == ErrorIds(Failures(pi, pr))
    ensures completed ==>
      var ids := BlueprintIds(ListingEntries(body));
      && multiset(IdColumn(dataRows)) == multiset(ExportIds(Successes(ids, replies)))
      && multiset(IdColumn(errorRows)) == multiset(ErrorIds(Failures(ids, replies)))
  {
    var entries := ListingEntries(body);
    var results := new Results();
    completed := results.FetchAll(entries, order, replies);
    ghost var ids := BlueprintIds(entries);
    CompletesIffAnswered(ids, order, replies);
    OrderInRange(order, |replies|);
    if completed {
      ghost var pi, pr := Pick(ids, order), Pick(replies, order);
      ScheduledRunPartitions(ids, order, replies);
      ScheduledRunClassifies(ids, order, replies);
      ClassificationIndependentOfOrder(ids, replies, order);
      ExportIdsRespectsMultiset(Successes(pi, pr), Successes(ids, replies));
      ErrorIdsRespectsMultiset(Failures(pi, pr), Failures(ids, replies));
      assert results.exported == Successes(pi, pr);
      assert results.errors == Failures(pi, pr);
      dataRows := SaveData(results.exported);
      errorRows := SaveErrors(results.errors);
      DataFileIds(results.exported, dataRows);
      ErrorFileIds(results.errors, errorRows);
    } else {
      dataRows, errorRows := [], [];
    }
  }

  /** In any processing order with every request answered, `bp_export`
      receives the successful items and `bp_errors` the others, each in
      processing order. */
  lemma ScheduledRunClassifies(ids: seq<string>, order: seq<nat>, replies: seq<Reply>)
    requires |replies| == |ids|
    requires IsOrder(order, |ids|)
    requires AllAnswered(replies)
    ensures InRange(order, |ids|)
    ensures Run(Empty, Pick(ids, order), Pick(replies, order)).Some?
    ensures Run(Empty, Pick(ids, order), Pick(replies, order)).value.exported == Successes(Pick(ids, order), Pick(replies, order))
    ensures Run(Empty, Pick(ids, order), Pick(replies, order)).value.errors == Failures(Pick(ids, order), Pick(replies, order))
  {
    OrderInRange(order, |ids|);
    AnsweredAfterPick(replies, order);
    var pi, pr := Pick(ids, order), Pick(replies, order);
    RunMatchesReference(Empty, pi, pr);
    assert [] + Successes(pi, pr) == Successes(pi, pr) && [] + Failures(pi, pr) == Failures(pi, pr);
  }

  /** The fan-out, whatever its processing order, completes exactly when
      every request is answered. */
  lemma CompletesIffAnswered(ids: seq<string>, order: seq<nat>, replies: seq<Reply>)
    requires |replies| == |ids|
    requires IsOrder(order, |ids|)
    ensures InRange(order, |ids|)
    ensures Run(Empty, Pick(ids, order), Pick(replies, order)).Some? <==> AllAnswered(replies)
  {
    OrderInRange(order, |ids|);
    RunCompletes(Empty, Pick(ids, order), Pick(replies, order));
    AnsweredAfterPick(replies, order);
  }

  /** Every reply is answered in processing order exactly when every reply
      is answered in listing order. */
  lemma AnsweredAfterPick(replies: seq<Reply>, order: seq<nat>)
    requires IsOrder(order, |replies|)
    ensures InRange(order, |replies|)
    ensures AllAnswered(Pick(replies, order)) <==> AllAnswered(replies)
  {
    PickPermutes(replies, order);
    var picked := Pick(replies, order);
    if AllAnswered(picked) {
      forall k | 0 <= k < |replies| ensures replies[k].Response? {
        assert replies[k] in multiset(picked);
        var j :| 0 <= j < |picked| && picked[j] == replies[k];
      }
    }
  }
}
