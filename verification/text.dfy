/** The string operations the statistics parser relies on: substring search
    (Python's `in` and `str.find`), `str.split` with an explicit separator and
    its inverse `str.join`.
 */
module Text {
  import opened Results

  /** `sep` occurs in `s` starting at index `i`. */
  predicate OccursAt(s: string, sep: string, i: nat)
  {
    i + |sep| <= |s| && s[i..i + |sep|] == sep
  }

  /** `s.find(sep, k)`: the first index at or after `k` where `sep` occurs. */
  function FindFrom(s: string, sep: string, k: nat): (r: Option<nat>)
    ensures r.Some? ==> k <= r.value && OccursAt(s, sep, r.value)
    ensures forall j: nat :: k <= j && (r.None? || j < r.value) ==> !OccursAt(s, sep, j)
    decreases |s| - k
  {
    if k + |sep| > |s| then None
    else if OccursAt(s, sep, k) then Some(k)
    else FindFrom(s, sep, k + 1)
  }

  /** Python's `sub in s`: `sub` occurs somewhere in `s`. */
  predicate Contains(s: string, sub: string)
    ensures Contains(s, sub) <==> exists i: nat :: OccursAt(s, sub, i)
  {
    FindFrom(s, sub, 0).Some?
  }

  /** A prefix that ends at or before the first occurrence of `sep` does not
      contain it. */
  lemma NoOccurrenceInPrefix(s: string, sep: string, i: nat)
    requires 0 < |sep| && i <= |s|
    requires forall j: nat :: j < i ==> !OccursAt(s, sep, j)
    ensures !Contains(s[..i], sep)
  {
    forall j: nat | j + |sep| <= i
      ensures !OccursAt(s[..i], sep, j)
    {
      assert !OccursAt(s, sep, j);
      assert s[..i][j..j + |sep|] == s[j..j + |sep|];
    }
  }

  /** `sep.join(parts)`. */
  function Join(parts: seq<string>, sep: string): string
  {
    if |parts| == 0 then ""
    else if |parts| == 1 then parts[0]
    else parts[0] + sep + Join(parts[1..], sep)
  }

  /** `s.split(sep)` for a non-empty separator: the pieces between successive
      leftmost occurrences of `sep`, always at least one. */
  function Split(s: string, sep: string): (r: seq<string>)
    requires 0 < |sep|
    ensures 0 < |r|
    ensures Join(r, sep) == s
    ensures forall k :: 0 <= k < |r| ==> !Contains(r[k], sep)
    ensures |r| == 1 <==> FindFrom(s, sep, 0).None?
    ensures 1 < |r| ==> FindFrom(s, sep, 0) == Some(|r[0]|)
    decreases |s|
  {
    match FindFrom(s, sep, 0)
    case None => [s]
    case Some(i) =>
      var rest := Split(s[i + |sep|..], sep);
      assert s == s[..i] + sep + s[i + |sep|..];
      NoOccurrenceInPrefix(s, sep, i);
      [s[..i]] + rest
  }

  /** The leftmost occurrence of `sep` in `p + sep + q` is right after `p`
      when `p` does not contain the separator's first character. */
  lemma FindAfterPrefix(p: string, sep: string, q: string)
    requires 0 < |sep|
    requires sep[0] !in p
    ensures FindFrom(p + sep + q, sep, 0) == Some(|p|)
  {
    var s := p + sep + q;
    assert s[|p|..|p| + |sep|] == sep;
    assert OccursAt(s, sep, |p|);
    forall j: nat | j < |p| && j + |sep| <= |s|
      ensures !OccursAt(s, sep, j)
    {
      assert s[j..j + |sep|][0] == p[j];
    }
  }

  /** A string that lacks the separator's first character does not contain it. */
  lemma FindNone(p: string, sep: string)
    requires 0 < |sep|
    requires sep[0] !in p
    ensures FindFrom(p, sep, 0) == None
  {
  }

  /** Splitting undoes joining, provided no part contains the separator's
      first character. */
  lemma {:induction false} SplitJoin(parts: seq<string>, sep: string)
    requires 0 < |sep| && 0 < |parts|
    requires forall k :: 0 <= k < |parts| ==> sep[0] !in parts[k]
    ensures Split(Join(parts, sep), sep) == parts
    decreases |parts|
  {
    if |parts| == 1 {
      FindNone(parts[0], sep);
    } else {
      var tail := Join(parts[1..], sep);
      FindAfterPrefix(parts[0], sep, tail);
      var s := parts[0] + sep + tail;
      assert s[..|parts[0]|] == parts[0];
      assert s[|parts[0]| + |sep|..] == tail;
      assert Split(s, sep) == [parts[0]] + Split(tail, sep);
      SplitJoin(parts[1..], sep);
      assert parts == [parts[0]] + parts[1..];
    }
  }

  /** Joining never introduces a character that is in neither the parts nor
      the separator. */
  lemma {:induction false} JoinAvoids(parts: seq<string>, sep: string, c: char)
    requires c !in sep
    requires forall k :: 0 <= k < |parts| ==> c !in parts[k]
    ensures c !in Join(parts, sep)
    decreases |parts|
  {
    if |parts| > 1 {
      JoinAvoids(parts[1..], sep, c);
    }
  }

  /** Characters before the first occurrence of a one-character separator
      differ from it. */
  lemma CharAbsentBefore(s: string, c: char, i: nat)
    requires i <= |s|
    requires forall j: nat :: j < i ==> !OccursAt(s, [c], j)
    ensures c !in s[..i]
  {
    forall j | 0 <= j < i
      ensures s[..i][j] != c
    {
      assert !OccursAt(s, [c], j);
      assert s[j..j + 1] == [s[j]];
    }
  }

  /** Removing the first occurrence of `c`, at index `i`, lowers its count
      by one. */
  lemma MultisetCountSplit(s: string, c: char, i: nat)
    requires OccursAt(s, [c], i) && c !in s[..i]
    ensures multiset(s)[c] == multiset(s[i + 1..])[c] + 1
  {
    assert s[i..i + 1] == [c];
    assert s == s[..i] + [c] + s[i + 1..];
    assert multiset(s) == multiset(s[..i]) + multiset([c]) + multiset(s[i + 1..]);
  }

  /** One step of `Split`: the piece before the first occurrence, then the
      split of what follows it. */
  lemma SplitStep(s: string, sep: string, i: nat)
    requires 0 < |sep| && FindFrom(s, sep, 0) == Some(i)
    ensures |Split(s, sep)| == 1 + |Split(s[i + |sep|..], sep)|
  {
  }

  /** Splitting on a single character yields one more piece than there are
      occurrences of that character. */
  lemma {:induction false} SplitCount(s: string, c: char)
    ensures |Split(s, [c])| == multiset(s)[c] + 1
    decreases |s|
  {
    var sep := [c];
    match FindFrom(s, sep, 0)
    case None =>
      CharAbsentBefore(s, c, |s|);
      assert s[..|s|] == s;
    case Some(i) =>
      SplitStep(s, sep, i);
      SplitCount(s[i + 1..], c);
      CharAbsentBefore(s, c, i);
      MultisetCountSplit(s, c, i);
  }
}
