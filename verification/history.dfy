/** The traffic history: a bounded, first-in-first-out buffer of counter snapshots,
    and its round trip through the browser's key-value storage. */
module HistoryStore {
  import opened Wrappers
  import opened Traffic
  import Seqs

  /** The snapshot taken when fresh counters arrive. The clock is passed in as
      milliseconds since the epoch and the timestamp is whole seconds, rounded down. */
  function Sample(nowMs: int, data: ProtocolData): (r: HistoryRecord)
    ensures r.data == data
    ensures r.timestamp * 1000 <= nowMs < r.timestamp * 1000 + 1000
  {
    HistoryRecord(nowMs / 1000, data)
  }

  /** Appends `rec` and, when that exceeds the limit, drops the oldest entries so that
      exactly the most recent `HistoryLimit` remain. */
  function Append(prev: History, rec: HistoryRecord): (h: History)
    ensures |h| == Min(|prev| + 1, HistoryLimit)
    ensures h == Seqs.Newest(prev + [rec], HistoryLimit)
    ensures h[|h| - 1] == rec
    ensures |prev| < HistoryLimit ==> h == prev + [rec]
  {
    var extended := prev + [rec];
    if |extended| > HistoryLimit then extended[|extended| - HistoryLimit..] else extended
  }

  /** Appending a snapshot no older than every entry keeps the history chronological. */
  lemma AppendKeepsChronological(prev: History, rec: HistoryRecord)
    requires Chronological(prev)
    requires forall i :: 0 <= i < |prev| ==> prev[i].timestamp <= rec.timestamp
    ensures Chronological(Append(prev, rec))
  {
    var extended := prev + [rec];
    assert Chronological(extended);
    SuffixKeepsChronological(extended, |extended| - |Append(prev, rec)|);
  }

  /** The history after a series of appends, oldest first. */
  function AppendAll(prev: History, recs: seq<HistoryRecord>): History
    decreases |recs|
  {
    if |recs| == 0 then prev
    else Append(AppendAll(prev, recs[..|recs| - 1]), recs[|recs| - 1])
  }

  /** After at least one append the history is exactly the last
      `min(total, HistoryLimit)` entries of everything ever held. */
  lemma {:induction false} AppendAllKeepsMostRecent(prev: History, recs: seq<HistoryRecord>)
    requires |recs| > 0
    ensures AppendAll(prev, recs) == Seqs.Newest(prev + recs, HistoryLimit)
    decreases |recs|
  {
    var init := recs[..|recs| - 1];
    var last := recs[|recs| - 1];
    assert (prev + init) + [last] == prev + recs;
    if |init| > 0 {
      AppendAllKeepsMostRecent(prev, init);
      Seqs.NewestThenAppend(prev + init, last, HistoryLimit);
    } else {
      assert prev + init == prev;
    }
  }

  /** Starting from an empty history, the buffer holds the most recent
      `min(n, HistoryLimit)` of the `n` snapshots taken. */
  lemma FromEmptyKeepsMostRecent(recs: seq<HistoryRecord>)
    ensures AppendAll([], recs) == Seqs.Newest(recs, HistoryLimit)
  {
    var empty: History := [];
    if |recs| > 0 {
      AppendAllKeepsMostRecent(empty, recs);
      assert empty + recs == recs;
    }
  }

  /** A suffix of a chronological history is chronological. */
  lemma SuffixKeepsChronological(h: History, k: nat)
    requires k <= |h|
    requires Chronological(h)
    ensures Chronological(h[k..])
  {
    forall i, j | 0 <= i < j < |h[k..]| ensures h[k..][i].timestamp <= h[k..][j].timestamp {
      assert h[k..][i] == h[k + i] && h[k..][j] == h[k + j];
    }
  }

  /** Snapshots appended in time order give a chronological history. */
  lemma AppendAllKeepsChronological(prev: History, recs: seq<HistoryRecord>)
    requires Chronological(prev + recs)
    ensures Chronological(AppendAll(prev, recs))
  {
    if |recs| > 0 {
      AppendAllKeepsMostRecent(prev, recs);
      var all := prev + recs;
      SuffixKeepsChronological(all, |all| - |AppendAll(prev, recs)|);
    } else {
      assert prev + recs == prev;
    }
  }

  /** The history restored when the page loads: nothing stored, an empty string or a
      value `parse` rejects all give the empty history. `parse` stands for the JSON
      parser, None meaning it threw. */
  function Load(stored: Option<string>, parse: string -> Option<History>): (h: History)
    ensures stored.None? ==> h == []
    ensures stored == Some("") ==> h == []
    ensures stored.Some? && stored.value != "" ==> h == parse(stored.value).GetOr([])
  {
    match stored
    case None => []
    case Some(text) =>
      if text == "" then [] else
        match parse(text)
        case None => []
        case Some(parsed) => parsed
  }

  /** The stored value after writing `h`; a failed write (`writable` false) is
      ignored and leaves the previous value in place. */
  function Save(h: History, serialize: History -> string, writable: bool, stored: Option<string>): (s: Option<string>)
    ensures writable ==> s == Some(serialize(h))
    ensures !writable ==> s == stored
  {
    if writable then Some(serialize(h)) else stored
  }

  /** A history that was written successfully is restored unchanged, provided the
      serializer produces non-empty text that the parser reads back. */
  lemma SaveThenLoad(h: History, serialize: History -> string, parse: string -> Option<History>, stored: Option<string>)
    requires serialize(h) != ""
    requires parse(serialize(h)) == Some(h)
    ensures Load(Save(h, serialize, true, stored), parse) == h
  {
  }
}
