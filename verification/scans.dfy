/**
  What the plugin's three scans over the document's lines compute, stated as
  functions on the line sequence. The loops that compute them live in the
  plugin class and are proved equal to these functions.
 */
module Scans {
  import opened Text
  import opened Timestamp
  import opened Separators

  /** `findNextEmptyLine(start)`: the first blank line at or after `start`, or the line count when there is none. */
  function NextBlank(lines: seq<string>, start: nat): (r: nat)
    ensures r <= |lines|
    ensures start <= |lines| ==> start <= r
    ensures r < |lines| ==> IsBlank(lines[r])
    ensures forall i :: start <= i < r ==> !IsBlank(lines[i])
    decreases |lines| - start
  {
    if start >= |lines| then |lines|
    else if IsBlank(lines[start]) then start
    else NextBlank(lines, start + 1)
  }

  /** The last line before `k` that the pattern recognises, or -1. */
  function LastMatchBefore(lines: seq<string>, pattern: seq<Token>, k: nat): (r: int)
    requires k <= |lines|
    ensures -1 <= r < k
    ensures r == -1 <==> forall i :: 0 <= i < k ==> !IsTimestampLine(pattern, lines[i])
    ensures r >= 0 ==> IsTimestampLine(pattern, lines[r])
    ensures forall i :: r < i < k ==> !IsTimestampLine(pattern, lines[i])
  {
    if k == 0 then -1
    else if IsTimestampLine(pattern, lines[k - 1]) then k - 1
    else LastMatchBefore(lines, pattern, k - 1)
  }

  /** `findLastTimestamp()`: the last line whose trimmed text starts with a timestamp in `format`, or -1. */
  function LastTimestamp(lines: seq<string>, format: string): (r: int)
    ensures -1 <= r < |lines|
    ensures r == -1 <==> forall i :: 0 <= i < |lines| ==> !IsTimestampLine(TimestampPattern(format), lines[i])
    ensures r >= 0 ==> IsTimestampLine(TimestampPattern(format), lines[r])
    ensures forall i :: r < i < |lines| ==> !IsTimestampLine(TimestampPattern(format), lines[i])
  {
    LastMatchBefore(lines, TimestampPattern(format), |lines|)
  }

  /** The first separator line at or after `i`, or the line count when there is none. */
  function SeparatorStop(lines: seq<string>, raw: string, i: nat): (s: nat)
    requires i <= |lines|
    ensures i <= s <= |lines|
    ensures s < |lines| ==> IsSeparatorLine(raw, lines[s])
    ensures forall j :: i <= j < s ==> !IsSeparatorLine(raw, lines[j])
    decreases |lines| - i
  {
    if i == |lines| then i
    else if IsSeparatorLine(raw, lines[i]) then i
    else SeparatorStop(lines, raw, i + 1)
  }

  /**
    The loop of `findContentEndAfterTimestamp` from line `i` on, with `last` the
    last content line so far: the last non-blank line before the next separator,
    or `last` when there is none.
   */
  function ContentEndFrom(lines: seq<string>, raw: string, i: nat, last: nat): (r: nat)
    requires last < i
    ensures r == last || (i <= r < |lines| && !IsBlank(lines[r]))
    ensures i <= |lines| ==> r == last || r < SeparatorStop(lines, raw, i)
    ensures i <= |lines| ==> forall j :: i <= j < SeparatorStop(lines, raw, i) && r < j ==> IsBlank(lines[j])
    decreases |lines| - i
  {
    if i >= |lines| then last
    else if IsSeparatorLine(raw, lines[i]) then last
    else ContentEndFrom(lines, raw, i + 1, if IsBlank(lines[i]) then last else i)
  }

  /**
    `findContentEndAfterTimestamp(t)`: the last non-blank line after `t` and before
    the first separator line after `t`, or `t` itself when there is none.
   */
  function ContentEnd(lines: seq<string>, raw: string, t: nat): (r: nat)
    ensures t >= |lines| ==> r == t
    ensures t < |lines| ==> t <= r < |lines|
    ensures t < |lines| ==> r == t || (r < SeparatorStop(lines, raw, t + 1) && !IsBlank(lines[r]))
    ensures t < |lines| ==> forall j :: r < j < SeparatorStop(lines, raw, t + 1) ==> IsBlank(lines[j])
  {
    ContentEndFrom(lines, raw, t + 1, t)
  }

  /** No separator line lies between the timestamp line and the content end. */
  lemma ContentEndBeforeSeparator(lines: seq<string>, raw: string, t: nat)
    requires t < |lines|
    ensures forall j :: t < j <= ContentEnd(lines, raw, t) ==> !IsSeparatorLine(raw, lines[j])
  {
    var r := ContentEnd(lines, raw, t);
    assert r == t || r < SeparatorStop(lines, raw, t + 1);
  }

  /** When the setting yields no separators, the content end is the last non-blank line of the document, or `t` when none follows it. */
  lemma ContentEndWithoutSeparators(lines: seq<string>, raw: string, t: nat)
    requires t < |lines|
    requires ParseSeparators(raw) == []
    ensures var r := ContentEnd(lines, raw, t);
      (r == t || !IsBlank(lines[r])) && forall j :: r < j < |lines| ==> IsBlank(lines[j])
  {
    StopAtEnd(lines, raw, t + 1);
  }

  lemma {:induction false} StopAtEnd(lines: seq<string>, raw: string, i: nat)
    requires i <= |lines|
    requires forall j :: i <= j < |lines| ==> !IsSeparatorLine(raw, lines[j])
    ensures SeparatorStop(lines, raw, i) == |lines|
    decreases |lines| - i
  {
    if i < |lines| {
      StopAtEnd(lines, raw, i + 1);
    }
  }
}
