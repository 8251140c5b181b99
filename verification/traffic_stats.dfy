/** The `traffic_stats` record and its per-cycle transition,
    `update_traffic_stats` with `get_bps_rate_received` and `get_bps_rate_sent`.

    Counters are Python integers (unbounded); rates are exact reals, standing
    for the floats Python's `/` yields.
 */
module TrafficStats {
  import opened Counters

  /** `REFRESH_RATE`: seconds between polls, a positive integer. */
  type RefreshRate = n: nat | 0 < n witness 1

  /** The six fields of the `traffic_stats` dictionary. */
  datatype Stats = Stats(
    previousReceivedBytes: int,
    latestReceivedBytes: int,
    previousSentBytes: int,
    latestSentBytes: int,
    bpsReceivedRate: real,
    bpsSentRate: real)

  /** The record before the first poll: every field zero. */
  const Initial := Stats(0, 0, 0, 0, 0.0, 0.0)

  /** Bits per second over one refresh period: the byte delta divided by the
      period, times eight. */
  function BpsRate(previous: int, latest: int, refreshRate: RefreshRate): (r: real)
    ensures r * refreshRate as real == 8.0 * (latest - previous) as real
    ensures r < 0.0 <==> latest < previous
    ensures r == 0.0 <==> latest == previous
  {
    (latest - previous) as real / refreshRate as real * 8.0
  }

  /** The guard under which a cycle leaves the rates alone: both previous
      counters are zero (the first poll), or both counters went down (an
      access-point reboot). */
  predicate RatesKept(previousReceived: int, previousSent: int, latestReceived: int, latestSent: int)
    ensures previousReceived == 0 && previousSent == 0 ==> RatesKept(previousReceived, previousSent, latestReceived, latestSent)
    ensures previousReceived > latestReceived && previousSent > latestSent
            ==> RatesKept(previousReceived, previousSent, latestReceived, latestSent)
    ensures (previousReceived != 0 || previousSent != 0) && previousReceived <= latestReceived
            ==> !RatesKept(previousReceived, previousSent, latestReceived, latestSent)
    ensures (previousReceived != 0 || previousSent != 0) && previousSent <= latestSent
            ==> !RatesKept(previousReceived, previousSent, latestReceived, latestSent)
  {
    || (previousReceived == 0 && previousSent == 0)
    || (previousReceived > latestReceived && previousSent > latestSent)
  }

  /** One call of `update_traffic_stats` once the new counters are in hand:
      the latest counters move to previous, the sample becomes latest, and
      the rates are recomputed unless `RatesKept` holds. */
  function Update(s: Stats, sample: TrafficCounters, refreshRate: RefreshRate): (r: Stats)
    ensures r.previousReceivedBytes == s.latestReceivedBytes
    ensures r.previousSentBytes == s.latestSentBytes
    ensures r.latestReceivedBytes == sample.receivedBytes
    ensures r.latestSentBytes == sample.sentBytes
    ensures RatesKept(s.latestReceivedBytes, s.latestSentBytes, sample.receivedBytes, sample.sentBytes)
            ==> r.bpsReceivedRate == s.bpsReceivedRate && r.bpsSentRate == s.bpsSentRate
    ensures !RatesKept(s.latestReceivedBytes, s.latestSentBytes, sample.receivedBytes, sample.sentBytes)
            ==> r.bpsReceivedRate * refreshRate as real == 8.0 * (sample.receivedBytes - s.latestReceivedBytes) as real
                && r.bpsSentRate * refreshRate as real == 8.0 * (sample.sentBytes - s.latestSentBytes) as real
  {
    var shifted := s.(
      previousReceivedBytes := s.latestReceivedBytes,
      previousSentBytes := s.latestSentBytes,
      latestReceivedBytes := sample.receivedBytes,
      latestSentBytes := sample.sentBytes);
    if !RatesKept(shifted.previousReceivedBytes, shifted.previousSentBytes,
                  shifted.latestReceivedBytes, shifted.latestSentBytes)
    then shifted.(
      bpsReceivedRate := BpsRate(shifted.previousReceivedBytes, shifted.latestReceivedBytes, refreshRate),
      bpsSentRate := BpsRate(shifted.previousSentBytes, shifted.latestSentBytes, refreshRate))
    else shifted
  }

  /** The rates depend on nothing but the two most recent samples and the
      rates already held: two records that agree on those update alike. */
  lemma UpdateForgetsOlderCounters(s: Stats, t: Stats, sample: TrafficCounters, refreshRate: RefreshRate)
    requires s.latestReceivedBytes == t.latestReceivedBytes && s.latestSentBytes == t.latestSentBytes
    requires s.bpsReceivedRate == t.bpsReceivedRate && s.bpsSentRate == t.bpsSentRate
    ensures Update(s, sample, refreshRate) == Update(t, sample, refreshRate)
  {
  }

  /** A first cycle, or any cycle after an all-zero sample, keeps the rates
      whatever the new counters are. */
  lemma ZeroBaselineKeepsRates(s: Stats, sample: TrafficCounters, refreshRate: RefreshRate)
    requires s.latestReceivedBytes == 0 && s.latestSentBytes == 0
    ensures Update(s, sample, refreshRate).bpsReceivedRate == s.bpsReceivedRate
    ensures Update(s, sample, refreshRate).bpsSentRate == s.bpsSentRate
  {
  }

  /** When both counters went down (a reboot) the rates are kept, stale
      values included. */
  lemma RebootKeepsRates(s: Stats, sample: TrafficCounters, refreshRate: RefreshRate)
    requires sample.receivedBytes < s.latestReceivedBytes && sample.sentBytes < s.latestSentBytes
    ensures Update(s, sample, refreshRate).bpsReceivedRate == s.bpsReceivedRate
    ensures Update(s, sample, refreshRate).bpsSentRate == s.bpsSentRate
  {
  }

  /** When only one counter went down the rates are still recomputed: the
      decreasing direction reports a negative rate, the other a non-negative
      one. */
  lemma OneSidedDecreaseGoesNegative(s: Stats, sample: TrafficCounters, refreshRate: RefreshRate)
    requires s.latestReceivedBytes != 0 || s.latestSentBytes != 0
    requires sample.receivedBytes < s.latestReceivedBytes
    requires s.latestSentBytes <= sample.sentBytes
    ensures Update(s, sample, refreshRate).bpsReceivedRate < 0.0
    ensures Update(s, sample, refreshRate).bpsSentRate >= 0.0
  {
  }

  /** The mirror case: when only the sent counter went down, sent reports a
      negative rate and received a non-negative one. */
  lemma SentOnlyDecreaseGoesNegative(s: Stats, sample: TrafficCounters, refreshRate: RefreshRate)
    requires s.latestReceivedBytes != 0 || s.latestSentBytes != 0
    requires sample.sentBytes < s.latestSentBytes
    requires s.latestReceivedBytes <= sample.receivedBytes
    ensures Update(s, sample, refreshRate).bpsSentRate < 0.0
    ensures Update(s, sample, refreshRate).bpsReceivedRate >= 0.0
  {
  }

  /** One megabyte counter growing by 8000 bytes over ten seconds is 6400
      bits per second. */
  lemma RateExample()
    ensures BpsRate(1_000_000, 1_008_000, 10) == 6400.0
  {
  }
}
