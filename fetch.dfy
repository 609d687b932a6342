/** The per-blueprint fetch of blueprint-summary.py (`get_blueprint_data`)
    and its driver in `main`: one outcome per listed ID, recorded by
    appending to `bp_export` or to `bp_errors` and by advancing the
    progress bar. The concurrent fan-out is modelled as the tasks finishing
    one after the other in an arbitrary processing order. */
module Fetch {
  import opened Listing
  import opened Schedule

  datatype Option<T> = None | Some(value: T)

  /** The HTTP status the fetch treats as success. */
  const Ok: int := 200

  /** What `bwl_utils.get_name`, `get_space_name`, `get_last_modified_date`
      and `get_age` return for one blueprint document, each as the text the
      report writer receives for it. */
  datatype Details = Details(name: string, space: string, lastModified: string, age: string)

  /** What decoding the body of a 200 response and running the four
      extractors on it does: produce the details, or raise. */
  datatype Extraction = Extracted(details: Details) | Raised

  /** What the GET of one blueprint yields: no response at all (the request
      itself fails, outside the `try`), or a response with a status and
      what extraction would make of its body. The body is only looked at
      when the status is 200; for any other status it is ignored. */
  datatype Reply = NoResponse | Response(status: int, body: Extraction)

  /** One entry of `bp_export`: the dictionary built at line 115, its keys
      in insertion order. */
  datatype Record = Record(id: string, name: string, space: string, lastModified: string, age: string)

  /** One entry of `bp_errors`: `{'ID': id}`. */
  datatype ErrorRecord = ErrorRecord(id: string)

  /** The two result lists and the progress count. */
  datatype Tally = Tally(exported: seq<Record>, errors: seq<ErrorRecord>, progress: nat)

  /** The state before any task has run (lines 85-86, a fresh progress bar). */
  const Empty: Tally := Tally([], [], 0)

  /** The reply is a 200 whose extraction succeeds: the item is exported. */
  predicate Succeeds(reply: Reply)
  {
    reply.Response? && reply.status == Ok && reply.body.Extracted?
  }

  /** The reply is a 200 whose extraction raises: the exception is caught. */
  predicate Raises(reply: Reply)
  {
    reply == Response(Ok, Raised)
  }

  /** The record line 115 builds for an ID from its extracted details. */
  function RecordOf(id: string, d: Details): Record
  {
    Record(id, d.name, d.space, d.lastModified, d.age)
  }

  /** Lines 102-133 for one ID: the tally after its reply is handled, or
      `None` when there is no response, whose failure escapes the task. */
  function Step(t: Tally, id: string, reply: Reply): Option<Tally>
  {
    match reply
    case NoResponse => None
    case Response(status, body) =>
      if status == Ok then
        match body
        case Extracted(d) => Some(Tally(t.exported + [RecordOf(id, d)], t.errors, t.progress + 1))
        case Raised => Some(Tally(t.exported, t.errors + [ErrorRecord(id)], t.progress))
      else
        Some(Tally(t.exported, t.errors + [ErrorRecord(id)], t.progress + 1))
  }

  /** The items handled one after the other, `ids[k]` receiving `replies[k]`;
      `None` once a task has failed outside its `try`. */
  function Run(t: Tally, ids: seq<string>, replies: seq<Reply>): Option<Tally>
    requires |ids| == |replies|
    decreases |ids|
  {
    if |ids| == 0 then Some(t)
    else
      match Run(t, ids[..|ids| - 1], replies[..|replies| - 1])
      case None => None
      case Some(before) => Step(before, ids[|ids| - 1], replies[|replies| - 1])
  }

  /** Every request produced a response. */
  predicate AllAnswered(replies: seq<Reply>)
  {
    forall k :: 0 <= k < |replies| ==> replies[k].Response?
  }

  /** The number of items whose exception is caught. */
  function CaughtCount(replies: seq<Reply>): nat
  {
    multiset(replies)[Response(Ok, Raised)]
  }

  /** Reference for `bp_export`: the records of the items that succeed, in
      processing order. */
  function Successes(ids: seq<string>, replies: seq<Reply>): seq<Record>
    requires |ids| == |replies|
    decreases |ids|
  {
    if |ids| == 0 then []
    else
      var n := |ids| - 1;
      Successes(ids[..n], replies[..n])
        + (if Succeeds(replies[n]) then [RecordOf(ids[n], replies[n].body.details)] else [])
  }

  /** Reference for `bp_errors`: the IDs of the answered items that do not
      succeed, in processing order. */
  function Failures(ids: seq<string>, replies: seq<Reply>): seq<ErrorRecord>
    requires |ids| == |replies|
    decreases |ids|
  {
    if |ids| == 0 then []
    else
      var n := |ids| - 1;
      Failures(ids[..n], replies[..n])
        + (if replies[n].Response? && !Succeeds(replies[n]) then [ErrorRecord(ids[n])] else [])
  }

  /** The IDs of exported records, in order. */
  function ExportIds(rs: seq<Record>): seq<string>
  {
    seq(|rs|, i requires 0 <= i < |rs| => rs[i].id)
  }

  /** The IDs of error records, in order. */
  function ErrorIds(es: seq<ErrorRecord>): seq<string>
  {
    seq(|es|, i requires 0 <= i < |es| => es[i].id)
  }

  /** Handling one answered item appends exactly one record to exactly one
      of the two lists: a success to `bp_export`, anything else to
      `bp_errors`; the progress count advances unless the exception handler
      ran. Without a response nothing is recorded and the run stops. */
  lemma StepOutcome(t: Tally, id: string, reply: Reply)
    ensures Step(t, id, reply).None? <==> reply.NoResponse?
    ensures Succeeds(reply) ==> Step(t, id, reply) == Some(Tally(t.exported + [RecordOf(id, reply.body.details)], t.errors, t.progress + 1))
    ensures reply.Response? && !Succeeds(reply) ==>
      Step(t, id, reply) == Some(Tally(t.exported, t.errors + [ErrorRecord(id)], t.progress + if Raises(reply) then 0 else 1))
  {
  }

  /** A run completes exactly when every request it makes is answered. */
  lemma {:induction false} RunCompletes(t: Tally, ids: seq<string>, replies: seq<Reply>)
    requires |ids| == |replies|
    ensures Run(t, ids, replies).Some? <==> AllAnswered(replies)
    decreases |ids|
  {
    if |ids| > 0 {
      var n := |ids| - 1;
      RunCompletes(t, ids[..n], replies[..n]);
      assert AllAnswered(replies) <==> AllAnswered(replies[..n]) && replies[n].Response?;
    }
  }

  /** Once a task has failed outside its `try`, the run stays failed
      whatever comes after. */
  lemma {:induction false} RunStaysFailed(t: Tally, ids: seq<string>, replies: seq<Reply>, moreIds: seq<string>, moreReplies: seq<Reply>)
    requires |ids| == |replies| && |moreIds| == |moreReplies|
    requires Run(t, ids, replies).None?
    ensures Run(t, ids + moreIds, replies + moreReplies).None?
    decreases |moreIds|
  {
    if |moreIds| > 0 {
      var n := |moreIds| - 1;
      RunStaysFailed(t, ids, replies, moreIds[..n], moreReplies[..n]);
      assert (ids + moreIds)[..|ids| + n] == ids + moreIds[..n];
      assert (replies + moreReplies)[..|replies| + n] == replies + moreReplies[..n];
    } else {
      assert ids + moreIds == ids && replies + moreReplies == replies;
    }
  }

  /** The caught exceptions of a sequence of replies are those before its
      last reply, plus one if the last reply raises. */
  lemma CaughtCountLast(replies: seq<Reply>)
    requires |replies| > 0
    ensures CaughtCount(replies) == CaughtCount(replies[..|replies| - 1]) + if Raises(replies[|replies| - 1]) then 1 else 0
  {
    var n := |replies| - 1;
    assert replies == replies[..n] + [replies[n]];
    assert multiset(replies) == multiset(replies[..n]) + multiset{replies[n]};
  }

  /** A run in which every request is answered appends to `bp_export` the
      successful items and to `bp_errors` the others, both in processing
      order, and advances the progress count once per item except for the
      items whose exception was caught. */
  lemma {:induction false} RunMatchesReference(t: Tally, ids: seq<string>, replies: seq<Reply>)
    requires |ids| == |replies|
    requires AllAnswered(replies)
    ensures Run(t, ids, replies).Some?
    ensures Run(t, ids, replies).value.exported == t.exported + Successes(ids, replies)
    ensures Run(t, ids, replies).value.errors == t.errors + Failures(ids, replies)
    ensures Run(t, ids, replies).value.progress + CaughtCount(replies) == t.progress + |ids|
    decreases |ids|
  {
    if |ids| > 0 {
      var n := |ids| - 1;
      var reply := replies[n];
      assert AllAnswered(replies[..n]);
      RunMatchesReference(t, ids[..n], replies[..n]);
      CaughtCountLast(replies);
      var s, f := Successes(ids[..n], replies[..n]), Failures(ids[..n], replies[..n]);
      var before := Tally(t.exported + s, t.errors + f, Run(t, ids[..n], replies[..n]).value.progress);
      assert Run(t, ids, replies) == Step(before, ids[n], reply);
      if Succeeds(reply) {
        var r := RecordOf(ids[n], reply.body.details);
        assert Successes(ids, replies) == s + [r];
        assert Failures(ids, replies) == f + [];
        assert t.exported + s + [r] == t.exported + (s + [r]);
      } else {
        assert Successes(ids, replies) == s + [];
        assert Failures(ids, replies) == f + [ErrorRecord(ids[n])];
        assert t.errors + f + [ErrorRecord(ids[n])] == t.errors + (f + [ErrorRecord(ids[n])]);
      }
    }
  }

  /** The IDs recorded so far: those of `bp_export`, then those of
      `bp_errors`. */
  function RecordedIds(t: Tally): seq<string>
  {
    ExportIds(t.exported) + ErrorIds(t.errors)
  }

  /** Handling an answered item records its ID exactly once, in one list or
      the other. */
  lemma StepRecordsOnce(t: Tally, id: string, reply: Reply)
    requires reply.Response?
    ensures Step(t, id, reply).Some?
    ensures |Step(t, id, reply).value.exported| + |Step(t, id, reply).value.errors| == |t.exported| + |t.errors| + 1
    ensures multiset(RecordedIds(Step(t, id, reply).value)) == multiset(RecordedIds(t)) + multiset{id}
  {
    var u := Step(t, id, reply).value;
    var a, b := ExportIds(t.exported), ErrorIds(t.errors);
    if Succeeds(reply) {
      assert u.errors == t.errors;
      ExportIdsAppend(t.exported, RecordOf(id, reply.body.details));
      assert RecordedIds(u) == a + [id] + b;
    } else {
      assert u.exported == t.exported;
      ErrorIdsAppend(t.errors, ErrorRecord(id));
      assert RecordedIds(u) == (a + b) + [id];
    }
  }

  /** Appending an export record appends its ID. */
  lemma ExportIdsAppend(rs: seq<Record>, r: Record)
    ensures ExportIds(rs + [r]) == ExportIds(rs) + [r.id]
  {
  }

  /** Appending an error record appends its ID. */
  lemma ErrorIdsAppend(es: seq<ErrorRecord>, e: ErrorRecord)
    ensures ErrorIds(es + [e]) == ErrorIds(es) + [e.id]
  {
  }

  /** Every answered item is recorded exactly once: a run in which every
      request is answered adds one record per item, and the recorded IDs
      grow by exactly the IDs handled, each as often as it occurs. */
  lemma {:induction false} RunRecordsEachOnce(t: Tally, ids: seq<string>, replies: seq<Reply>)
    requires |ids| == |replies|
    requires AllAnswered(replies)
    ensures Run(t, ids, replies).Some?
    ensures |Run(t, ids, replies).value.exported| + |Run(t, ids, replies).value.errors| == |t.exported| + |t.errors| + |ids|
    ensures multiset(RecordedIds(Run(t, ids, replies).value)) == multiset(RecordedIds(t)) + multiset(ids)
    decreases |ids|
  {
    if |ids| > 0 {
      var n := |ids| - 1;
      assert AllAnswered(replies[..n]);
      RunRecordsEachOnce(t, ids[..n], replies[..n]);
      var v := Run(t, ids[..n], replies[..n]).value;
      assert Run(t, ids, replies) == Step(v, ids[n], replies[n]);
      StepRecordsOnce(v, ids[n], replies[n]);
      assert ids == ids[..n] + [ids[n]];
      assert multiset(ids) == multiset(ids[..n]) + multiset{ids[n]};
    }
  }

  /** The partition theorem for one run of the fan-out: when every request
      is answered, whatever the processing order, the two lists together
      hold one record per listed item (each ID as often as it is listed),
      and the progress count is the number of items minus the number of
      caught exceptions. */
  lemma ScheduledRunPartitions(ids: seq<string>, order: seq<nat>, replies: seq<Reply>)
    requires |replies| == |ids|
    requires IsOrder(order, |ids|)
    requires AllAnswered(replies)
    ensures InRange(order, |ids|)
    ensures Run(Empty, Pick(ids, order), Pick(replies, order)).Some?
    ensures var t := Run(Empty, Pick(ids, order), Pick(replies, order)).value;
      && |t.exported| + |t.errors| == |ids|
      && multiset(RecordedIds(t)) == multiset(ids)
      && t.progress + CaughtCount(replies) == |ids|
  {
    PickPermutes(ids, order);
    PickPermutes(replies, order);
    var pi, pr := Pick(ids, order), Pick(replies, order);
    assert AllAnswered(pr) by {
      forall k | 0 <= k < |pr| ensures pr[k].Response? {
        assert pr[k] == replies[order[k]];
      }
    }
    RunMatchesReference(Empty, pi, pr);
    RunRecordsEachOnce(Empty, pi, pr);
    assert RecordedIds(Empty) == [];
  }

  /** The successes of `a + b` are those of `a` followed by those of `b`. */
  lemma {:induction false} SuccessesAppend(a: seq<string>, c: seq<Reply>, b: seq<string>, d: seq<Reply>)
    requires |a| == |c| && |b| == |d|
    ensures Successes(a + b, c + d) == Successes(a, c) + Successes(b, d)
    decreases |b|
  {
    if |b| == 0 {
      assert a + b == a && c + d == c;
    } else {
      var n := |b| - 1;
      SuccessesAppend(a, c, b[..n], d[..n]);
      assert (a + b)[..|a + b| - 1] == a + b[..n];
      assert (c + d)[..|c + d| - 1] == c + d[..n];
      assert (a + b)[|a + b| - 1] == b[n] && (c + d)[|c + d| - 1] == d[n];
      var last := if Succeeds(d[n]) then [RecordOf(b[n], d[n].body.details)] else [];
      assert Successes(a + b, c + d) == Successes(a + b[..n], c + d[..n]) + last;
      assert Successes(b, d) == Successes(b[..n], d[..n]) + last;
    }
  }

  /** The failures of `a + b` are those of `a` followed by those of `b`. */
  lemma {:induction false} FailuresAppend(a: seq<string>, c: seq<Reply>, b: seq<string>, d: seq<Reply>)
    requires |a| == |c| && |b| == |d|
    ensures Failures(a + b, c + d) == Failures(a, c) + Failures(b, d)
    decreases |b|
  {
    if |b| == 0 {
      assert a + b == a && c + d == c;
    } else {
      var n := |b| - 1;
      FailuresAppend(a, c, b[..n], d[..n]);
      assert (a + b)[..|a + b| - 1] == a + b[..n];
      assert (c + d)[..|c + d| - 1] == c + d[..n];
      assert (a + b)[|a + b| - 1] == b[n] && (c + d)[|c + d| - 1] == d[n];
      var last := if d[n].Response? && !Succeeds(d[n]) then [ErrorRecord(b[n])] else [];
      assert Failures(a + b, c + d) == Failures(a + b[..n], c + d[..n]) + last;
      assert Failures(b, d) == Failures(b[..n], d[..n]) + last;
    }
  }

  /** The successes of the items taken in the order `o`. */
  function SuccessesIn(ids: seq<string>, replies: seq<Reply>, o: seq<nat>): seq<Record>
    requires |ids| == |replies| && InRange(o, |ids|)
  {
    Successes(Pick(ids, o), Pick(replies, o))
  }

  /** The failures of the items taken in the order `o`. */
  function FailuresIn(ids: seq<string>, replies: seq<Reply>, o: seq<nat>): seq<ErrorRecord>
    requires |ids| == |replies| && InRange(o, |ids|)
  {
    Failures(Pick(ids, o), Pick(replies, o))
  }

  /** Taking the items along `o1 + o2` classifies those along `o1`, then
      those along `o2`. */
  lemma ClassifyAppend(ids: seq<string>, replies: seq<Reply>, o1: seq<nat>, o2: seq<nat>)
    requires |ids| == |replies| && InRange(o1, |ids|) && InRange(o2, |ids|)
    ensures InRange(o1 + o2, |ids|)
    ensures SuccessesIn(ids, replies, o1 + o2) == SuccessesIn(ids, replies, o1) + SuccessesIn(ids, replies, o2)
    ensures FailuresIn(ids, replies, o1 + o2) == FailuresIn(ids, replies, o1) + FailuresIn(ids, replies, o2)
  {
    PickAppend(ids, o1, o2);
    PickAppend(replies, o1, o2);
    SuccessesAppend(Pick(ids, o1), Pick(replies, o1), Pick(ids, o2), Pick(replies, o2));
    FailuresAppend(Pick(ids, o1), Pick(replies, o1), Pick(ids, o2), Pick(replies, o2));
  }

  /** Taking position `x` first, or between `pre` and `post`, adds the
      same record to the classification of the other positions. */
  lemma ClassifyAround(ids: seq<string>, replies: seq<Reply>, o1: seq<nat>, o2: seq<nat>, x: nat, rest: seq<nat>, pre: seq<nat>, post: seq<nat>)
    requires |ids| == |replies| && x < |ids|
    requires InRange(rest, |ids|) && InRange(pre, |ids|) && InRange(post, |ids|)
    requires o1 == [x] + rest && o2 == pre + ([x] + post)
    ensures InRange(o1, |ids|) && InRange(o2, |ids|) && InRange(pre + post, |ids|)
    ensures multiset(SuccessesIn(ids, replies, o1)) == multiset(SuccessesIn(ids, replies, [x])) + multiset(SuccessesIn(ids, replies, rest))
    ensures multiset(FailuresIn(ids, replies, o1)) == multiset(FailuresIn(ids, replies, [x])) + multiset(FailuresIn(ids, replies, rest))
    ensures multiset(SuccessesIn(ids, replies, o2)) == multiset(SuccessesIn(ids, replies, [x])) + multiset(SuccessesIn(ids, replies, pre + post))
    ensures multiset(FailuresIn(ids, replies, o2)) == multiset(FailuresIn(ids, replies, [x])) + multiset(FailuresIn(ids, replies, pre + post))
  {
    assert InRange([x], |ids|);
    ClassifyAppend(ids, replies, [x], rest);
    ClassifyAppend(ids, replies, [x], post);
    ClassifyAppend(ids, replies, pre, [x] + post);
    ClassifyAppend(ids, replies, pre, post);
    Regroup(multiset(SuccessesIn(ids, replies, [x])), multiset(SuccessesIn(ids, replies, pre)), multiset(SuccessesIn(ids, replies, post)));
    Regroup(multiset(FailuresIn(ids, replies, [x])), multiset(FailuresIn(ids, replies, pre)), multiset(FailuresIn(ids, replies, post)));
  }

  /** Two orders that take the same positions equally often export the
      same records and report the same errors, each equally often. */
  lemma {:induction false} ClassifyRespectsMultiset(ids: seq<string>, replies: seq<Reply>, o1: seq<nat>, o2: seq<nat>)
    requires |ids| == |replies| && InRange(o1, |ids|) && InRange(o2, |ids|)
    requires multiset(o1) == multiset(o2)
    ensures multiset(SuccessesIn(ids, replies, o1)) == multiset(SuccessesIn(ids, replies, o2))
    ensures multiset(FailuresIn(ids, replies, o1)) == multiset(FailuresIn(ids, replies, o2))
    decreases |o1|
  {
    if |o1| == 0 {
      assert |o2| == |multiset(o2)| == 0;
      assert o1 == o2;
    } else {
      var x := o1[0];
      assert x in multiset(o2);
      var j :| 0 <= j < |o2| && o2[j] == x;
      OrdersAround(o1, o2, j, |ids|);
      var pre, post, rest := o2[..j], o2[j + 1..], o1[1..];
      ClassifyRespectsMultiset(ids, replies, rest, pre + post);
      ClassifyAround(ids, replies, o1, o2, x, rest, pre, post);
    }
  }

  /** Whatever order the tasks complete in, the same records are exported
      and the same errors reported, each equally often: only their order
      in `bp_export` and `bp_errors` depends on the processing order. */
  lemma ClassificationIndependentOfOrder(ids: seq<string>, replies: seq<Reply>, order: seq<nat>)
    requires |ids| == |replies|
    requires IsOrder(order, |ids|)
    ensures InRange(order, |ids|)
    ensures multiset(Successes(Pick(ids, order), Pick(replies, order))) == multiset(Successes(ids, replies))
    ensures multiset(Failures(Pick(ids, order), Pick(replies, order))) == multiset(Failures(ids, replies))
  {
    OrderInRange(order, |ids|);
    var all := Range(|ids|);
    assert InRange(all, |ids|);
    ClassifyRespectsMultiset(ids, replies, order, all);
    assert Pick(ids, all) == ids && Pick(replies, all) == replies;
  }

  /** The ID of an export record. */
  function RecordId(r: Record): string
  {
    r.id
  }

  /** The ID of an error record. */
  function ErrorId(e: ErrorRecord): string
  {
    e.id
  }

  /** Export records that agree as multisets have IDs that agree as
      multisets. */
  lemma ExportIdsRespectsMultiset(xs: seq<Record>, ys: seq<Record>)
    requires multiset(xs) == multiset(ys)
    ensures multiset(ExportIds(xs)) == multiset(ExportIds(ys))
  {
    MapRespectsMultiset(xs, ys, RecordId);
    assert ExportIds(xs) == Map(xs, RecordId) && ExportIds(ys) == Map(ys, RecordId);
  }

  /** Error records that agree as multisets have IDs that agree as
      multisets. */
  lemma ErrorIdsRespectsMultiset(xs: seq<ErrorRecord>, ys: seq<ErrorRecord>)
    requires multiset(xs) == multiset(ys)
    ensures multiset(ErrorIds(xs)) == multiset(ErrorIds(ys))
  {
    MapRespectsMultiset(xs, ys, ErrorId);
    assert ErrorIds(xs) == Map(xs, ErrorId) && ErrorIds(ys) == Map(ys, ErrorId);
  }

  /** An ID listed once ends up in exactly one of the two lists. */
  lemma ListedOnceRecordedOnce(ids: seq<string>, order: seq<nat>, replies: seq<Reply>, k: nat)
    requires |replies| == |ids|
    requires IsOrder(order, |ids|)
    requires AllAnswered(replies)
    requires k < |ids| && multiset(ids)[ids[k]] == 1
    ensures InRange(order, |ids|)
    ensures Run(Empty, Pick(ids, order), Pick(replies, order)).Some?
    ensures var t := Run(Empty, Pick(ids, order), Pick(replies, order)).value;
      (ids[k] in ExportIds(t.exported)) != (ids[k] in ErrorIds(t.errors))
  {
    ScheduledRunPartitions(ids, order, replies);
    var t := Run(Empty, Pick(ids, order), Pick(replies, order)).value;
    var a, b := ExportIds(t.exported), ErrorIds(t.errors);
    assert multiset(a + b)[ids[k]] == multiset(a)[ids[k]] + multiset(b)[ids[k]] == 1;
  }

  /** Two blueprints, A answered 200 with its details and B answered 404:
      A is exported, B is an error, and the progress count reaches 2. */
  lemma TwoBlueprintScenario()
    ensures var d := Details("Foo", "S1", "2024-01-01", "10");
      Run(Empty, ["A", "B"], [Response(Ok, Extracted(d)), Response(404, Extracted(d))])
        == Some(Tally([Record("A", "Foo", "S1", "2024-01-01", "10")], [ErrorRecord("B")], 2))
  {
    var d := Details("Foo", "S1", "2024-01-01", "10");
    var ids, replies := ["A", "B"], [Response(Ok, Extracted(d)), Response(404, Extracted(d))];
    var ids1, replies1 := ids[..1], replies[..1];
    assert ids1[..0] == [] && replies1[..0] == [];
    assert Run(Empty, ids1[..0], replies1[..0]) == Some(Empty);
    assert Run(Empty, ids1, replies1) == Step(Empty, "A", replies[0]);
    assert [] + [RecordOf("A", d)] == [RecordOf("A", d)] && [] + [ErrorRecord("B")] == [ErrorRecord("B")];
    assert Step(Empty, "A", replies[0]) == Some(Tally([RecordOf("A", d)], [], 1));
    assert Run(Empty, ids, replies) == Step(Tally([RecordOf("A", d)], [], 1), "B", replies[1]);
  }

  /** The module-level result lists and the progress bar's count. */
  class Results {
    var exported: seq<Record>
    var errors: seq<ErrorRecord>
    var progress: nat

    /** The state as a value. */
    function Snapshot(): Tally
      reads this
    {
      Tally(exported, errors, progress)
    }

    /** Lines 85-86 and the progress bar of line 93: nothing recorded yet. */
    constructor ()
      ensures Snapshot() == Empty
    {
      exported, errors, progress := [], [], 0;
    }

    /** `get_blueprint_data` (lines 102-133) for one ID and its reply.
        `failed` says that the request produced no response, so that the
        failure escapes the task. */
    method GetBlueprintData(id: string, reply: Reply) returns (failed: bool)
      modifies this
      ensures failed <==> reply.NoResponse?
      ensures failed ==> Snapshot() == old(Snapshot())
      ensures Succeeds(reply) ==>
        exported == old(exported) + [RecordOf(id, reply.body.details)] && errors == old(errors) && progress == old(progress) + 1
      ensures reply.Response? && reply.status != Ok ==>
        exported == old(exported) && errors == old(errors) + [ErrorRecord(id)] && progress == old(progress) + 1
      ensures Raises(reply) ==>
        exported == old(exported) && errors == old(errors) + [ErrorRecord(id)] && progress == old(progress)
      ensures !failed ==> Step(old(Snapshot()), id, reply) == Some(Snapshot())
    {
      if reply.NoResponse? {
        return true;
      }
      failed := false;
      var status := reply.status;
      if status == Ok {
        match reply.body
        case Extracted(d) =>
          exported := exported + [RecordOf(id, d)];
          progress := progress + 1;
        case Raised =>
          errors := errors + [ErrorRecord(id)];
      } else {
        errors := errors + [ErrorRecord(id)];
        progress := progress + 1;
      }
    }

    /** `main` (lines 89-99): strips every listing entry to its ID in
        listing order, then lets the tasks finish in the processing order
        `order`, the item at listing position `p` receiving `replies[p]`.
        `completed` is false when a request produced no response; the run
        then stops there. */
    method FetchAll(entries: seq<string>, order: seq<nat>, replies: seq<Reply>) returns (completed: bool)
      requires |replies| == |entries|
      requires IsOrder(order, |entries|)
      modifies this
      ensures InRange(order, |entries|)
      ensures var ids := BlueprintIds(entries);
        Run(old(Snapshot()), Pick(ids, order), Pick(replies, order)) == if completed then Some(Snapshot()) else None
    {
      var ids := StripEntries(entries);
      OrderInRange(order, |entries|);
      ghost var start := Snapshot();
      var k := 0;
      while k < |order|
        invariant 0 <= k <= |order|
        invariant Run(start, Pick(ids, order[..k]), Pick(replies, order[..k])) == Some(Snapshot())
      {
        var p := order[k];
        RunOneMore(start, ids, replies, order, k);
        var failed := GetBlueprintData(ids[p], replies[p]);
        if failed {
          RunFailsFrom(start, ids, replies, order, k + 1);
          return false;
        }
        k := k + 1;
      }
      assert order[..k] == order;
      completed := true;
    }
  }

  /** Lines 94-95: the IDs of the entries, stripped one by one in listing
      order. */
  method StripEntries(entries: seq<string>) returns (ids: seq<string>)
    ensures ids == BlueprintIds(entries)
  {
    ids := [];
    var i := 0;
    while i < |entries|
      invariant 0 <= i <= |entries|
      invariant |ids| == i
      invariant forall j :: 0 <= j < i ==> ids[j] == BlueprintId(entries[j])
    {
      ids := ids + [BlueprintId(entries[i])];
      i := i + 1;
    }
    IdsOfEntries(entries, ids);
  }

  /** A sequence holding the ID of each entry, position by position, is
      `BlueprintIds` of the entries. */
  lemma IdsOfEntries(entries: seq<string>, ids: seq<string>)
    requires |ids| == |entries|
    requires forall j :: 0 <= j < |entries| ==> ids[j] == BlueprintId(entries[j])
    ensures ids == BlueprintIds(entries)
  {
  }

  /** Handling the item at `order[k]` after the first `k` extends the run
      by one step. */
  lemma RunOneMore(t: Tally, ids: seq<string>, replies: seq<Reply>, order: seq<nat>, k: nat)
    requires |ids| == |replies| && InRange(order, |ids|) && k < |order|
    ensures InRange(order[..k], |ids|) && InRange(order[..k + 1], |ids|)
    ensures Run(t, Pick(ids, order[..k + 1]), Pick(replies, order[..k + 1])) ==
      match Run(t, Pick(ids, order[..k]), Pick(replies, order[..k]))
      case None => None
      case Some(u) => Step(u, ids[order[k]], replies[order[k]])
  {
    var a, b := Pick(ids, order[..k + 1]), Pick(replies, order[..k + 1]);
    assert a[..k] == Pick(ids, order[..k]);
    assert b[..k] == Pick(replies, order[..k]);
  }

  /** A run that has failed within the first `k` items of the processing
      order fails over the whole order. */
  lemma RunFailsFrom(t: Tally, ids: seq<string>, replies: seq<Reply>, order: seq<nat>, k: nat)
    requires |ids| == |replies| && InRange(order, |ids|) && k <= |order|
    requires InRange(order[..k], |ids|)
    requires Run(t, Pick(ids, order[..k]), Pick(replies, order[..k])).None?
    ensures Run(t, Pick(ids, order), Pick(replies, order)).None?
  {
    var rest := order[k..];
    assert InRange(rest, |ids|);
    assert order == order[..k] + rest;
    PickAppend(ids, order[..k], rest);
    PickAppend(replies, order[..k], rest);
    RunStaysFailed(t, Pick(ids, order[..k]), Pick(replies, order[..k]), Pick(ids, rest), Pick(replies, rest));
  }
}
