# TP-LINK WA901N throughput monitor — verified model

The monitor polls the access point's status page every `REFRESH_RATE`
seconds. It finds the script block that declares `var statistList`, reads the
cumulative received/sent byte counters from it, and keeps them in a six-field
`traffic_stats` record. From the last two samples it derives bits-per-second
rates and inserts one `(bps_received, bps_sent)` row into the database on every
iteration.

The model is pure Dafny, one module per piece of `main.py`:

- `Results`: `Option`, `Result`, and the exceptions fetching and parsing raise.
- `Text`: Python's `in`, `str.find`, `str.split` and `str.join` on strings.
- `Integers`: `int(token)` for decimal literals, and `str(n)`.
- `Counters`: the four counters one poll yields.
- `StatistList`: the string handling of `get_latest_traffic_stats` (from the
  script texts onward), plus a formatter for a statistics script block.
- `TrafficStats`: the `traffic_stats` record, `get_bps_rate_*`, and
  `update_traffic_stats` as the pure transition `Update`.
- `Polling`: the `main` loop as a fold (`Run`) over the outcomes of the
  successive fetches, with a reference fold `StateAfter` it is proved equal to.

Counters are unbounded integers, as Python's are. Rates are exact reals in
place of Python floats. `REFRESH_RATE` is the positive-integer type
`RefreshRate`.

Behaviour of the code worth noting; where it disagrees with its comments, the model follows the code:

- The comment above `update_traffic_stats` says the rates are updated when the
  previous counters are zero or have decreased. The code does the opposite: it
  wraps that condition in `not (...)`, so those are exactly the cycles on which
  the rates are kept.
- A row is inserted on every iteration, including the first one and the ones
  whose rates were kept. Rows are not limited to cycles with a fresh rate.
- Nothing catches an exception raised while fetching or parsing, so such an
  exception ends the loop. The record stays as it was before that iteration.
- The reboot guard needs both counters to go down. If only one does, the rates
  are recomputed and that direction's rate is negative.

## Model

| member | source | states |
|---|---|---|
| TrafficStats.BpsRate | main.py:71-77 | the rate times the refresh period is eight times the byte delta; it is negative exactly when the counter went down, and zero exactly when it stayed put |
| TrafficStats.Update | main.py:55-68 | previous counters become the old latest ones and latest become the sample, unconditionally; when both baseline counters are zero or both went down the rates are kept, otherwise each rate is eight times its own delta per refresh period |
| TrafficStats.RatesKept | main.py:63-66 | the guard holds whenever both previous counters are zero and whenever both counters went down, and fails whenever the previous counters are not both zero and either counter did not go down, so every input is decided |
| TrafficStats.UpdateForgetsOlderCounters | main.py:58-68 | the update depends only on the latest counters and the held rates, never on the older previous counters |
| TrafficStats.ZeroBaselineKeepsRates | main.py:63-64 | after a (0, 0) sample, or on the first cycle, the rates are kept whatever the new sample |
| TrafficStats.RebootKeepsRates | main.py:65-66 | when both counters went down the rates are kept, so stale rates carry forward |
| TrafficStats.OneSidedDecreaseGoesNegative | main.py:63-68 | when only the received counter goes down the rates are still recomputed: received is negative and sent is non-negative |
| TrafficStats.SentOnlyDecreaseGoesNegative | main.py:63-68 | when only the sent counter goes down the rates are still recomputed: sent is negative and received is non-negative |
| TrafficStats.RateExample | main.py:71-73 | 1,000,000 to 1,008,000 bytes over 10 seconds is 6400 bits per second |
| Polling.RowOf | main.py:84 | the inserted row holds the record's received rate and then its sent rate |
| Polling.RowIgnoresCounters | main.py:84 | two records insert the same row exactly when their rates agree, so no counter reaches the database |
| Polling.Run | main.py:34-39 | at most one row per fetch; with no exception there is exactly one row per fetch; an exception ends the loop at the fetch that raised it |
| Polling.SucceededPrefix | main.py:35-36 | the samples fetched before the first failure, which is the fetch that stops the loop |
| Polling.RunIsFold | main.py:34-39 | the loop equals the reference fold of the update over the successful samples: one row per sample holding the rates after that sample, with the fold's final record |
| Polling.StateAfterCons | main.py:35-36 | folding from the front agrees with the reference fold from the back |
| Polling.LatestIsLastSample | main.py:60-61 | after any updates, the latest counters are those of the last sample |
| Polling.FoldStep | main.py:63-77 | the rates after sample i are those after sample i-1 when the guard holds, otherwise the rates between samples i-1 and i |
| Polling.FirstRowIsZero | main.py:29-30 | the first row inserted from the initial record is (0, 0) |
| Polling.RowsFromSamples | main.py:36-37 | row i is a copy of row i-1 when the guard holds between samples i-1 and i, otherwise the rates between those two samples |
| Polling.FailureEndsLoop | main.py:56 | a fetch that raises ends the loop with the record produced by the earlier samples, one row per earlier sample, and that exception reported |
| Polling.SucceededPrefixOf | main.py:35-36 | the successful prefix of k successes followed by a failure is those k samples |
| Polling.OneRowPerPoll | main.py:35-39 | with every fetch successful, exactly one row per poll is inserted, first and kept cycles included, each holding the rates after that poll |
| StatistList.ParseInts | main.py:48 | the token list converts exactly when every token is an integer literal, and then yields one value per token, in order |
| StatistList.ParseTokens | main.py:48-49 | the tokens parse exactly when there are at least five and every token but the last is an integer literal, so a bad token beyond the fourth still fails; ValueError exactly when some token but the last is not a literal, otherwise IndexError for too few; on success the first four tokens are, in order, received bytes, sent bytes, received packets and sent packets |
| StatistList.ParseStatistLine | main.py:48-49 | the same, for the tokens the line splits into on ', ' |
| StatistList.ParseStatistList | main.py:48-49 | a block with fewer than three lines (fewer than two newlines) fails with IndexError; with two or more newlines its outcome is that of its line 2 as a statistics line; it never reports a missing marker |
| StatistList.FirstMarked | main.py:46-47 | the index found is of a script containing the marker, with no earlier one containing it; none is found only when no script contains it |
| StatistList.GetLatestTrafficStats | main.py:46-51 | a missing marker is reported exactly when no script contains it; otherwise the first script containing it is parsed, and its outcome is final |
| StatistList.ParseFormatRoundTrip | main.py:48-49 | parsing a formatted block gives back the first four values in the order received bytes, sent bytes, received packets, sent packets, ignoring extra values and the dropped trailing element, for any trailing element free of ',' and newlines |
| StatistList.ParseLineRoundTrip | main.py:48-49 | a formatted statistics line with at least four values parses back to its first four values, in order, for any trailing element free of ',' |
| StatistList.LinesOfScript | main.py:48 | splitting a formatted block on newlines gives back its lines, so line 2 is the statistics line |
| StatistList.TokensOfLine | main.py:48 | splitting a formatted statistics line on ", " gives back the formatted values followed by the trailing element, when that element has no ',' |
| StatistList.ScriptHasMarker | main.py:47 | a formatted block contains the marker text |
| Text.FindFrom | main.py:47 | the search returns an occurrence at or after the start index with no earlier one, or nothing when there is none |
| Text.Split | main.py:48 | splitting gives at least one piece, no piece contains the separator, joining the pieces with the separator rebuilds the input, a single piece comes back exactly when the separator does not occur, and otherwise the first piece ends at the leftmost occurrence |
| Text.Contains | main.py:47 | `sub in s` holds exactly when `sub` occurs at some index of `s` |
| Text.NoOccurrenceInPrefix | main.py:48 | the text before the first occurrence of the separator does not contain it |
| Text.SplitJoin | main.py:48 | splitting undoes joining when no part contains the separator's first character |
| Text.SplitCount | main.py:48 | splitting on one character gives one more piece than the number of times it occurs |
| Integers.FormatNat | main.py:48 | the decimal spelling is non-empty, all digits, has no leading zero, and reads back as the number |
| Integers.ParseFormat | main.py:48 | ParseInt(FormatInt(n)) == Some(n) for every integer |
| Integers.ParseInt | main.py:48 | a token converts exactly when it is an integer literal (an optional leading minus sign, then at least one digit); the value is the decimal value of the digits, negated after a leading minus |

## Left out

- HTTP GET with basic authentication and `raise_for_status` (main.py:42-43) are network I/O. Their failure is the `HttpError` outcome of a fetch.
- BeautifulSoup parsing and `find_all('script')` (main.py:45-46) are a foreign library. The parser takes the text of each script block, in document order.
- The MySQL connection and insert (main.py:79-89) are database I/O. Only the row values are modelled, and the timestamp from `datetime.now()` is omitted.
- A failed database connection or insert raises from `save_to_database` and, uncaught, ends the loop with that cycle's update already applied (main.py:36-37). `Run` assumes every insert succeeds; only fetch failures end it.
- Loading configuration with `dotenv` (main.py:9-22) is environment I/O. `REFRESH_RATE` is a parameter of the positive type `RefreshRate`. With zero, Python raises ZeroDivisionError on the first cycle that recomputes the rates (main.py:73); with a negative value `time.sleep` raises ValueError after the first row (main.py:39). Either ends the loop; neither is modelled.
- `time.sleep` and `print` (main.py:38-39) are timing and console side effects.
- The `main` loop never ends on its own. `Run` covers any finite number of iterations.
- BpsRate: computes with exact reals, not Python floats, so float rounding is not modelled, and neither is the OverflowError `delta / REFRESH_RATE` raises when the quotient exceeds the float range (main.py:73, main.py:77).
- Integers.ParseInt: accepts only an optional `-` followed by ASCII digits. Python's `int()` also accepts surrounding whitespace, a `+` sign, underscores between digits and non-ASCII digits. In the other direction, CPython's default integer string conversion limit makes `int()` raise ValueError on a literal of more than 4300 digits (and `str(n)` raise for such values); the model has no limit, so it accepts statistics tokens of any length.
- StatistList.ParseFormatRoundTrip: requires the trailing element to contain no ',' (and no newline), which is more than splitting needs (no ", "). The lemma covers any trailing element without ',' or a newline, including the empty one a line ending in ", " leaves.
- The packet counters are parsed but not used by the rate logic, as in the program.
