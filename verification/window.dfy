/** The time window shown in the trend chart: the history entries no older than the
    selected range, measured back from the clock reading taken when the window is
    computed. */
module Window {
  import opened Traffic
  import Seqs

  /** The number of minutes a range's label names. */
  function Minutes(range: TimeRange): nat {
    match range
    case FiveMinutes => 5
    case FifteenMinutes => 15
    case ThirtyMinutes => 30
    case OneHour => 60
  }

  /** The lookback in seconds: 300 for 5m, 1800 for 30m, 3600 for 1h and 900 for
      anything else, which leaves 15m. */
  function LookbackSeconds(range: TimeRange): (seconds: nat)
    ensures seconds == 60 * Minutes(range)
    ensures range != FiveMinutes && range != ThirtyMinutes && range != OneHour ==> seconds == 900
  {
    if range == FiveMinutes then 300
    else if range == ThirtyMinutes then 1800
    else if range == OneHour then 3600
    else 900
  }

  /** The oldest timestamp still inside the window: the clock reading in milliseconds,
      rounded down to whole seconds, less the lookback. */
  function Cutoff(nowMs: int, range: TimeRange): (c: int)
    ensures (c + LookbackSeconds(range)) * 1000 <= nowMs < (c + LookbackSeconds(range)) * 1000 + 1000
  {
    nowMs / 1000 - LookbackSeconds(range)
  }

  function InWindow(cutoff: int): HistoryRecord -> bool {
    (r: HistoryRecord) => r.timestamp >= cutoff
  }

  /** The entries whose timestamp is at or after the cutoff, in history order. */
  function Select(h: History, range: TimeRange, nowMs: int): (w: History)
    ensures |w| <= |h|
    ensures forall i :: 0 <= i < |w| ==> w[i].timestamp >= Cutoff(nowMs, range) && w[i] in h
    ensures forall i :: 0 <= i < |h| && h[i].timestamp >= Cutoff(nowMs, range) ==> h[i] in w
    ensures forall x :: multiset(w)[x] == if x.timestamp >= Cutoff(nowMs, range) then multiset(h)[x] else 0
    ensures Seqs.SubsequenceOf(w, h)
  {
    Seqs.FilterIsSubsequence(h, InWindow(Cutoff(nowMs, range)));
    Seqs.Filter(h, InWindow(Cutoff(nowMs, range)))
  }

  /** Filtering a window again with the same range and clock reading changes nothing. */
  lemma SelectIdempotent(h: History, range: TimeRange, nowMs: int)
    ensures Select(Select(h, range, nowMs), range, nowMs) == Select(h, range, nowMs)
  {
    Seqs.FilterIdempotent(h, InWindow(Cutoff(nowMs, range)));
  }

  /** The window of a chronological history is chronological. */
  lemma SelectKeepsChronological(h: History, range: TimeRange, nowMs: int)
    requires Chronological(h)
    ensures Chronological(Select(h, range, nowMs))
  {
    Seqs.SubsequenceKeepsSorted(Select(h, range, nowMs), h, Timestamp);
  }

  /** For a chronological history the window is a suffix: the newest `|w|` entries. */
  lemma SelectIsSuffix(h: History, range: TimeRange, nowMs: int)
    requires Chronological(h)
    ensures Select(h, range, nowMs) == h[|h| - |Select(h, range, nowMs)|..]
  {
    var keep := InWindow(Cutoff(nowMs, range));
    Seqs.FilterUpwardClosedIsSuffix(h, keep);
  }

  /** No entry inside the range (in particular an empty history) gives an empty window. */
  lemma SelectNothingInRange(h: History, range: TimeRange, nowMs: int)
    requires forall i :: 0 <= i < |h| ==> h[i].timestamp < Cutoff(nowMs, range)
    ensures Select(h, range, nowMs) == []
  {
    var w := Select(h, range, nowMs);
    assert forall i :: 0 <= i < |w| ==> w[i] in h;
  }

  /** A wider range sees every entry a narrower one sees. */
  lemma WiderRangeSeesMore(h: History, narrow: TimeRange, wide: TimeRange, nowMs: int)
    requires Minutes(narrow) <= Minutes(wide)
    ensures forall i :: 0 <= i < |Select(h, narrow, nowMs)| ==> Select(h, narrow, nowMs)[i] in Select(h, wide, nowMs)
  {
    var n := Select(h, narrow, nowMs);
    var w := Select(h, wide, nowMs);
    forall i | 0 <= i < |n| ensures n[i] in w {
      var k :| 0 <= k < |h| && h[k] == n[i];
    }
  }
}
