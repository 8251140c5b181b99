/** The counters one poll of the status page yields: the dictionary
    `get_latest_traffic_stats` returns. */
module Counters {

  datatype TrafficCounters = TrafficCounters(
    receivedBytes: int,
    sentBytes: int,
    receivedPackets: int,
    sentPackets: int)
}
