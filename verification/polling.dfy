/** The `main` loop as a fold over the outcomes of successive fetches: each
    iteration runs `update_traffic_stats` and then `save_to_database`, which
    inserts the two rates as one row. A fetch that raises is not caught, so it
    ends the loop with the record as it was before that iteration.
 */
module Polling {
  import opened Results
  import opened Counters
  import opened TrafficStats

  /** The values of one `INSERT` (the timestamp is left out). */
  datatype Row = Row(bpsReceived: real, bpsSent: real)

  /** The row `save_to_database` inserts for record `s`. */
  function RowOf(s: Stats): (r: Row)
    ensures r.bpsReceived == s.bpsReceivedRate && r.bpsSent == s.bpsSentRate
  {
    Row(s.bpsReceivedRate, s.bpsSentRate)
  }

  /** Two records insert the same row exactly when their rates agree; the
      counters never reach the database. */
  lemma RowIgnoresCounters(s: Stats, t: Stats)
    ensures RowOf(s) == RowOf(t) <==> s.bpsReceivedRate == t.bpsReceivedRate && s.bpsSentRate == t.bpsSentRate
  {
  }

  /** The state the loop ends in, the rows it inserted, and the exception
      that ended it, if one did. */
  datatype Trace = Trace(state: Stats, rows: seq<Row>, failure: Option<Error>)

  /** Iterations of `main` from record `s`, one per fetch outcome. */
  function Run(s: Stats, fetches: seq<Result<TrafficCounters>>, refreshRate: RefreshRate): (t: Trace)
    ensures |t.rows| <= |fetches|
    ensures t.failure.None? ==> |t.rows| == |fetches|
    ensures t.failure.Some? ==> |t.rows| < |fetches| && fetches[|t.rows|] == Failure(t.failure.value)
    decreases |fetches|
  {
    if |fetches| == 0 then Trace(s, [], None)
    else
      match fetches[0]
      case Failure(e) => Trace(s, [], Some(e))
      case Success(sample) =>
        var next := Update(s, sample, refreshRate);
        var t := Run(next, fetches[1..], refreshRate);
        Trace(t.state, [RowOf(next)] + t.rows, t.failure)
  }

  /** Reference definition: the record after applying `Update` to each
      sample in turn. */
  function StateAfter(s: Stats, samples: seq<TrafficCounters>, refreshRate: RefreshRate): Stats
    decreases |samples|
  {
    if |samples| == 0 then s
    else Update(StateAfter(s, samples[..|samples| - 1], refreshRate), samples[|samples| - 1], refreshRate)
  }

  /** The samples of the fetches before the first failure. */
  function SucceededPrefix(fetches: seq<Result<TrafficCounters>>): (r: seq<TrafficCounters>)
    ensures |r| <= |fetches|
    ensures forall i :: 0 <= i < |r| ==> fetches[i] == Success(r[i])
    ensures |r| < |fetches| ==> fetches[|r|].Failure?
    decreases |fetches|
  {
    if |fetches| == 0 || fetches[0].Failure? then []
    else [fetches[0].value] + SucceededPrefix(fetches[1..])
  }

  /** Folding from the front agrees with the reference fold from the back. */
  lemma {:induction false} StateAfterCons(s: Stats, sample: TrafficCounters, rest: seq<TrafficCounters>, refreshRate: RefreshRate)
    ensures StateAfter(s, [sample] + rest, refreshRate) == StateAfter(Update(s, sample, refreshRate), rest, refreshRate)
    decreases |rest|
  {
    if |rest| > 0 {
      var all := [sample] + rest;
      assert all[..|all| - 1] == [sample] + rest[..|rest| - 1];
      StateAfterCons(s, sample, rest[..|rest| - 1], refreshRate);
    } else {
      assert [sample] + rest == [sample];
      assert [sample][..0] == [];
    }
  }

  /** The first `i + 1` samples of `[sample] + rest` fold to what the first
      `i` samples of `rest` fold to from the record after `sample`. */
  lemma PrefixCons(s: Stats, sample: TrafficCounters, rest: seq<TrafficCounters>, i: nat, refreshRate: RefreshRate)
    requires i <= |rest|
    ensures StateAfter(s, ([sample] + rest)[..i + 1], refreshRate)
            == StateAfter(Update(s, sample, refreshRate), rest[..i], refreshRate)
  {
    assert ([sample] + rest)[..i + 1] == [sample] + rest[..i];
    StateAfterCons(s, sample, rest[..i], refreshRate);
  }

  /** Row `i` of the rows `[RowOf(next)] + later` is the fold's row when
      `later` holds the fold's rows from `next`. */
  lemma ConsRows(s: Stats, sample: TrafficCounters, rest: seq<TrafficCounters>, later: seq<Row>, refreshRate: RefreshRate)
    requires |later| == |rest|
    requires forall i :: 0 <= i < |rest| ==>
               later[i] == RowOf(StateAfter(Update(s, sample, refreshRate), rest[..i + 1], refreshRate))
    ensures forall i :: 0 <= i < |rest| + 1 ==>
              ([RowOf(Update(s, sample, refreshRate))] + later)[i]
              == RowOf(StateAfter(s, ([sample] + rest)[..i + 1], refreshRate))
  {
    var next := Update(s, sample, refreshRate);
    var rows := [RowOf(next)] + later;
    forall i | 0 <= i < |rest| + 1
      ensures rows[i] == RowOf(StateAfter(s, ([sample] + rest)[..i + 1], refreshRate))
    {
      PrefixCons(s, sample, rest, i, refreshRate);
      if i == 0 {
        assert rest[..0] == [];
      } else {
        assert rows[i] == later[i - 1];
        assert rest[..(i - 1) + 1] == rest[..i];
      }
    }
  }

  /** The loop is the fold of `Update` over the samples fetched before the
      first failure: one row per such sample, each holding the rates after
      that sample's update, and the final state is the fold's result. */
  lemma {:induction false} RunIsFold(s: Stats, fetches: seq<Result<TrafficCounters>>, refreshRate: RefreshRate)
    ensures var t := Run(s, fetches, refreshRate);
            var ok := SucceededPrefix(fetches);
            && |t.rows| == |ok|
            && t.state == StateAfter(s, ok, refreshRate)
            && (forall i :: 0 <= i < |ok| ==> t.rows[i] == RowOf(StateAfter(s, ok[..i + 1], refreshRate)))
            && (t.failure.None? <==> |ok| == |fetches|)
    decreases |fetches|
  {
    if |fetches| > 0 && fetches[0].Success? {
      var sample := fetches[0].value;
      var next := Update(s, sample, refreshRate);
      var rest := SucceededPrefix(fetches[1..]);
      assert SucceededPrefix(fetches) == [sample] + rest;
      RunIsFold(next, fetches[1..], refreshRate);
      var u := Run(next, fetches[1..], refreshRate);
      assert Run(s, fetches, refreshRate) == Trace(u.state, [RowOf(next)] + u.rows, u.failure);
      StateAfterCons(s, sample, rest, refreshRate);
      ConsRows(s, sample, rest, u.rows, refreshRate);
    }
  }

  /** After at least one update, the record's latest counters are those of
      the last sample. */
  lemma LatestIsLastSample(s: Stats, samples: seq<TrafficCounters>, refreshRate: RefreshRate)
    requires 0 < |samples|
    ensures StateAfter(s, samples, refreshRate).latestReceivedBytes == samples[|samples| - 1].receivedBytes
    ensures StateAfter(s, samples, refreshRate).latestSentBytes == samples[|samples| - 1].sentBytes
  {
  }

  /** One step of the reference fold in terms of the samples alone: the
      rates after sample `i` are those after sample `i - 1` when the guard
      keeps them, otherwise the rates between samples `i - 1` and `i`. */
  lemma FoldStep(s: Stats, samples: seq<TrafficCounters>, i: nat, refreshRate: RefreshRate)
    requires 0 < i < |samples|
    ensures RowOf(StateAfter(s, samples[..i + 1], refreshRate))
            == if RatesKept(samples[i - 1].receivedBytes, samples[i - 1].sentBytes, samples[i].receivedBytes, samples[i].sentBytes)
               then RowOf(StateAfter(s, samples[..i], refreshRate))
               else Row(BpsRate(samples[i - 1].receivedBytes, samples[i].receivedBytes, refreshRate),
                        BpsRate(samples[i - 1].sentBytes, samples[i].sentBytes, refreshRate))
  {
    assert samples[..i + 1][..i] == samples[..i];
    LatestIsLastSample(s, samples[..i], refreshRate);
  }

  /** The first row the loop inserts from the initial record is all zeros,
      whatever the first sample is. */
  lemma FirstRowIsZero(fetches: seq<Result<TrafficCounters>>, refreshRate: RefreshRate)
    requires 0 < |Run(Initial, fetches, refreshRate).rows|
    ensures Run(Initial, fetches, refreshRate).rows[0] == Row(0.0, 0.0)
  {
    var ok := SucceededPrefix(fetches);
    RunIsFold(Initial, fetches, refreshRate);
    assert ok[..1] == [ok[0]] && [ok[0]][..0] == [];
  }

  /** Row `i` in terms of the samples alone: a copy of the row before it when
      the guard keeps the rates, otherwise the rates between samples `i - 1`
      and `i`. */
  lemma RowsFromSamples(fetches: seq<Result<TrafficCounters>>, i: nat, refreshRate: RefreshRate)
    requires 0 < i < |Run(Initial, fetches, refreshRate).rows|
    ensures var rows := Run(Initial, fetches, refreshRate).rows;
            var ok := SucceededPrefix(fetches);
            && i < |ok|
            && rows[i] == if RatesKept(ok[i - 1].receivedBytes, ok[i - 1].sentBytes, ok[i].receivedBytes, ok[i].sentBytes)
                          then rows[i - 1]
                          else Row(BpsRate(ok[i - 1].receivedBytes, ok[i].receivedBytes, refreshRate),
                                   BpsRate(ok[i - 1].sentBytes, ok[i].sentBytes, refreshRate))
  {
    var rows := Run(Initial, fetches, refreshRate).rows;
    var ok := SucceededPrefix(fetches);
    RunIsFold(Initial, fetches, refreshRate);
    assert rows[i] == RowOf(StateAfter(Initial, ok[..i + 1], refreshRate));
    assert rows[i - 1] == RowOf(StateAfter(Initial, ok[..(i - 1) + 1], refreshRate));
    FoldStep(Initial, ok, i, refreshRate);
  }

  /** The outcomes of fetches that all succeed, yielding `samples` in order. */
  function Successes(samples: seq<TrafficCounters>): (r: seq<Result<TrafficCounters>>)
    ensures |r| == |samples|
    ensures forall i :: 0 <= i < |r| ==> r[i] == Success(samples[i])
  {
    seq(|samples|, i requires 0 <= i < |samples| => Success(samples[i]))
  }

  /** A fetch that raises ends the loop: no row for it or after it, the
      record is the one the successful fetches before it produced, and the
      exception is reported. */
  lemma FailureEndsLoop(s: Stats, before: seq<TrafficCounters>, e: Error,
                        after: seq<Result<TrafficCounters>>, refreshRate: RefreshRate)
    ensures var fetches := Successes(before) + [Failure(e)] + after;
            var t := Run(s, fetches, refreshRate);
            && |t.rows| == |before|
            && t.state == StateAfter(s, before, refreshRate)
            && t.failure == Some(e)
  {
    var fetches := Successes(before) + [Failure(e)] + after;
    SucceededPrefixOf(before, e, after);
    RunIsFold(s, fetches, refreshRate);
    var t := Run(s, fetches, refreshRate);
    assert fetches[|before|] == Failure(e);
  }

  /** The succeeded prefix stops exactly at the first failure. */
  lemma {:induction false} SucceededPrefixOf(before: seq<TrafficCounters>, e: Error, after: seq<Result<TrafficCounters>>)
    ensures SucceededPrefix(Successes(before) + [Failure(e)] + after) == before
    decreases |before|
  {
    var fetches := Successes(before) + [Failure(e)] + after;
    if |before| == 0 {
      assert fetches[0] == Failure(e);
    } else {
      SucceededPrefixOf(before[1..], e, after);
      var tail := Successes(before[1..]) + [Failure(e)] + after;
      assert fetches[1..] == tail;
      assert before == [before[0]] + before[1..];
    }
  }

  /** When every fetch succeeds the loop inserts exactly one row per poll,
      first and suppressed polls included. */
  lemma OneRowPerPoll(samples: seq<TrafficCounters>, refreshRate: RefreshRate)
    ensures var fetches := Successes(samples);
            var t := Run(Initial, fetches, refreshRate);
            && |t.rows| == |samples|
            && t.failure == None
            && forall i :: 0 <= i < |samples| ==> t.rows[i] == RowOf(StateAfter(Initial, samples[..i + 1], refreshRate))
  {
    var fetches := Successes(samples);
    RunIsFold(Initial, fetches, refreshRate);
    var ok := SucceededPrefix(fetches);
    assert ok == samples;
  }
}
