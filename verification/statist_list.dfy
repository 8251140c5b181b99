/** Extraction of the traffic counters from the status page's script blocks
    (the string handling of `get_latest_traffic_stats`), and a formatter that
    writes a script block in the shape the parser expects.

    The input is the text of each `<script>` element of the page, in document
    order, as `str(script)` renders it.
 */
module StatistList {
  import opened Results
  import opened Text
  import opened Integers
  import opened Counters

  /** The text that identifies the script block holding the counters. */
  const Marker := "var statistList"

  /** Every token is an integer literal. */
  predicate AllIntegers(tokens: seq<string>)
  {
    forall i :: 0 <= i < |tokens| ==> ParseInt(tokens[i]).Some?
  }

  /** `[int(t) for t in tokens]`: every token is converted, so one bad token
      anywhere fails the whole list. */
  function ParseInts(tokens: seq<string>): (r: Option<seq<int>>)
    ensures r.Some? <==> AllIntegers(tokens)
    ensures r.Some? ==> |r.value| == |tokens|
    ensures r.Some? ==> forall i :: 0 <= i < |tokens| ==> ParseInt(tokens[i]) == Some(r.value[i])
  {
    if |tokens| == 0 then Some([])
    else
      match ParseInt(tokens[0])
      case None => None
      case Some(v) =>
        match ParseInts(tokens[1..])
        case None => None
        case Some(vs) => Some([v] + vs)
  }

  /** The parse of the tokens of the statistics line: the last token
      dropped, every other token converted, and the first four taken. */
  function ParseTokens(tokens: seq<string>): (r: Result<TrafficCounters>)
    requires 0 < |tokens|
    ensures r.Failure? ==> r.error == ValueError || r.error == IndexError
    ensures r == Failure(ValueError) <==> !AllIntegers(tokens[..|tokens| - 1])
    ensures r.Success? <==> 5 <= |tokens| && AllIntegers(tokens[..|tokens| - 1])
    ensures r.Success? ==>
              && ParseInt(tokens[0]) == Some(r.value.receivedBytes)
              && ParseInt(tokens[1]) == Some(r.value.sentBytes)
              && ParseInt(tokens[2]) == Some(r.value.receivedPackets)
              && ParseInt(tokens[3]) == Some(r.value.sentPackets)
  {
    match ParseInts(tokens[..|tokens| - 1])
    case None => Failure(ValueError)
    case Some(rates) =>
      if |rates| < 4 then Failure(IndexError)
      else Success(TrafficCounters(rates[0], rates[1], rates[2], rates[3]))
  }

  /** The parse of the statistics line: its `", "`-separated tokens. */
  function ParseStatistLine(line: string): (r: Result<TrafficCounters>)
    ensures r.Failure? ==> r.error == ValueError || r.error == IndexError
    ensures r == Failure(ValueError) <==>
              var tokens := Split(line, ", ");
              !AllIntegers(tokens[..|tokens| - 1])
    ensures r.Success? <==>
              var tokens := Split(line, ", ");
              5 <= |tokens| && AllIntegers(tokens[..|tokens| - 1])
    ensures r.Success? ==>
              var tokens := Split(line, ", ");
              && 5 <= |tokens|
              && ParseInt(tokens[0]) == Some(r.value.receivedBytes)
              && ParseInt(tokens[1]) == Some(r.value.sentBytes)
              && ParseInt(tokens[2]) == Some(r.value.receivedPackets)
              && ParseInt(tokens[3]) == Some(r.value.sentPackets)
  {
    ParseTokens(Split(line, ", "))
  }

  /** The parse of one matching script block: its line 2 is the statistics
      line. */
  function ParseStatistList(script: string): (r: Result<TrafficCounters>)
    ensures r.Failure? ==> r.error == ValueError || r.error == IndexError
    ensures multiset(script)['\n'] < 2 ==> r == Failure(IndexError)
    ensures |Split(script, "\n")| < 3 <==> multiset(script)['\n'] < 2
    ensures 3 <= |Split(script, "\n")| ==> r == ParseStatistLine(Split(script, "\n")[2])
    ensures 2 <= multiset(script)['\n'] ==> r == ParseStatistLine(Split(script, "\n")[2])
  {
    var lines := Split(script, "\n");
    SplitCount(script, '\n');
    if |lines| < 3 then Failure(IndexError) else ParseStatistLine(lines[2])
  }

  /** The loop over the script blocks: the index of the first one that
      contains the marker, at or after `k`. */
  function FirstMarked(scripts: seq<string>, k: nat): (r: Option<nat>)
    ensures r.Some? ==> k <= r.value < |scripts| && Contains(scripts[r.value], Marker)
    ensures forall j :: k <= j < |scripts| && (r.None? || j < r.value) ==> !Contains(scripts[j], Marker)
    decreases |scripts| - k
  {
    if |scripts| <= k then None
    else if Contains(scripts[k], Marker) then Some(k)
    else FirstMarked(scripts, k + 1)
  }

  /** `get_latest_traffic_stats` from the script texts onward: the first
      script containing the marker is parsed, and its outcome is final. */
  function GetLatestTrafficStats(scripts: seq<string>): (r: Result<TrafficCounters>)
    ensures r == Failure(MarkerNotFound) <==> forall i :: 0 <= i < |scripts| ==> !Contains(scripts[i], Marker)
    ensures forall i :: 0 <= i < |scripts| && Contains(scripts[i], Marker)
                        && (forall j :: 0 <= j < i ==> !Contains(scripts[j], Marker))
                        ==> r == ParseStatistList(scripts[i])
  {
    match FirstMarked(scripts, 0)
    case None => Failure(MarkerNotFound)
    case Some(i) =>
      var r := ParseStatistList(scripts[i]);
      assert r != Failure(MarkerNotFound);
      assert forall j :: (0 <= j < |scripts| && Contains(scripts[j], Marker)
                          && (forall l :: 0 <= l < j ==> !Contains(scripts[l], Marker))) ==> j == i;
      r
  }

  /** The opening, marker-bearing, closing and trailing lines of the block. */
  const ScriptOpen := "<script type=\"text/javascript\">"
  const ArrayOpen := Marker + " = new Array("
  const ArrayClose := "0,0 );"
  const ScriptClose := "</script>"

  function FormatInts(values: seq<int>): (r: seq<string>)
    ensures |r| == |values|
    ensures forall i :: 0 <= i < |values| ==> r[i] == FormatInt(values[i])
  {
    seq(|values|, i requires 0 <= i < |values| => FormatInt(values[i]))
  }

  /** The statistics line: the values and a trailing element, `", "`-separated. */
  function FormatStatistLine(values: seq<int>, trailer: string): string
  {
    Join(FormatInts(values) + [trailer], ", ")
  }

  /** A script block as the status page writes it, with the statistics line
      at index 2. */
  function FormatScript(values: seq<int>, trailer: string): string
  {
    Join([ScriptOpen, ArrayOpen, FormatStatistLine(values, trailer), ArrayClose, ScriptClose], "\n")
  }

  /** No formatted integer contains the given punctuation character. */
  lemma FormatIntsAvoid(values: seq<int>, c: char)
    requires c == ',' || c == '\n'
    ensures forall k :: 0 <= k < |values| ==> c !in FormatInts(values)[k]
  {
  }

  /** The tokens of a formatted statistics line are the formatted values
      followed by the trailer. */
  lemma TokensOfLine(values: seq<int>, trailer: string)
    requires ',' !in trailer
    ensures Split(FormatStatistLine(values, trailer), ", ") == FormatInts(values) + [trailer]
  {
    var parts := FormatInts(values) + [trailer];
    FormatIntsAvoid(values, ',');
    assert forall k :: 0 <= k < |parts| ==> ", "[0] !in parts[k];
    SplitJoin(parts, ", ");
  }

  /** The lines of a formatted script block. */
  lemma LinesOfScript(values: seq<int>, trailer: string)
    requires '\n' !in trailer
    ensures Split(FormatScript(values, trailer), "\n")
            == [ScriptOpen, ArrayOpen, FormatStatistLine(values, trailer), ArrayClose, ScriptClose]
  {
    var line := FormatStatistLine(values, trailer);
    FormatIntsAvoid(values, '\n');
    JoinAvoids(FormatInts(values) + [trailer], ", ", '\n');
    var lines := [ScriptOpen, ArrayOpen, line, ArrayClose, ScriptClose];
    assert forall k :: 0 <= k < |lines| ==> "\n"[0] !in lines[k];
    SplitJoin(lines, "\n");
  }

  /** A formatted script block carries the marker. */
  lemma ScriptHasMarker(values: seq<int>, trailer: string)
    ensures Contains(FormatScript(values, trailer), Marker)
  {
    var tail := [FormatStatistLine(values, trailer), ArrayClose, ScriptClose];
    var lines := [ScriptOpen, ArrayOpen, FormatStatistLine(values, trailer), ArrayClose, ScriptClose];
    assert lines == [ScriptOpen, ArrayOpen] + tail;
    var rest := " = new Array(" + "\n" + Join(tail, "\n");
    var prefix := ScriptOpen + "\n";
    var s := FormatScript(values, trailer);
    assert s == Join(lines, "\n");
    assert lines[1..] == [ArrayOpen] + tail && ([ArrayOpen] + tail)[1..] == tail;
    assert Join(lines, "\n") == ScriptOpen + "\n" + Join([ArrayOpen] + tail, "\n");
    assert Join([ArrayOpen] + tail, "\n") == ArrayOpen + "\n" + Join(tail, "\n");
    assert s == prefix + (ArrayOpen + "\n" + Join(tail, "\n"));
    assert s == prefix + Marker + rest;
    assert s[|prefix|..|prefix| + |Marker|] == Marker;
    assert OccursAt(s, Marker, |prefix|);
  }

  /** Parsing a formatted statistics line returns its first four values. */
  lemma ParseLineRoundTrip(values: seq<int>, trailer: string)
    requires 4 <= |values|
    requires ',' !in trailer
    ensures ParseStatistLine(FormatStatistLine(values, trailer))
            == Success(TrafficCounters(values[0], values[1], values[2], values[3]))
  {
    TokensOfLine(values, trailer);
    var tokens := FormatInts(values) + [trailer];
    assert tokens[..|tokens| - 1] == FormatInts(values);
    forall i | 0 <= i < |values|
      ensures ParseInt(tokens[i]) == Some(values[i])
    {
      ParseFormat(values[i]);
    }
  }

  /** Parsing a formatted block returns the first four values, whatever
      follows them and whatever the trailing element is. */
  lemma ParseFormatRoundTrip(values: seq<int>, trailer: string)
    requires 4 <= |values|
    requires ',' !in trailer && '\n' !in trailer
    ensures ParseStatistList(FormatScript(values, trailer))
            == Success(TrafficCounters(values[0], values[1], values[2], values[3]))
    ensures GetLatestTrafficStats([FormatScript(values, trailer)])
            == Success(TrafficCounters(values[0], values[1], values[2], values[3]))
  {
    LinesOfScript(values, trailer);
    ParseLineRoundTrip(values, trailer);
    ScriptHasMarker(values, trailer);
  }
}
