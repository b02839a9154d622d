/** The statistics page as a state machine: the latest counters, the traffic history
    and its stored copy, the packet list, the selected range and page, and the error
    flag, with the transitions the page performs and the views it renders. */
module Dashboard {
  import opened Wrappers
  import opened Traffic
  import Seqs
  import HistoryStore
  import Window
  import Aggregate
  import Pagination

  datatype Session = Session(
    protocolData: ProtocolData,
    history: History,
    stored: Option<string>,
    packets: seq<PacketSummary>,
    timeRange: TimeRange,
    currentPage: int,
    failed: bool,
    windowMs: int)

  /** The page as it first renders, after restoring the stored history at clock
      reading `nowMs`. */
  function Open(stored: Option<string>, parse: string -> Option<History>, nowMs: int): (s: Session)
    ensures s.history == HistoryStore.Load(stored, parse)
    ensures s.stored == stored
    ensures s.protocolData == [] && s.packets == []
    ensures s.timeRange == FifteenMinutes && s.currentPage == 1 && !s.failed
    ensures s.windowMs == nowMs
  {
    Session([], HistoryStore.Load(stored, parse), stored, [], FifteenMinutes, 1, false, nowMs)
  }

  /** What one request for the protocol counters produced. */
  datatype FetchOutcome = Fetched(protocols: ProtocolData) | FetchFailed

  /** One refresh: on success the counters are replaced, a snapshot is appended to the
      history and the history is written to storage (a failed write is ignored), and
      the trend window is recomputed at the same clock reading; on failure only the
      error flag is raised. A later success does not clear it. */
  function Refresh(s: Session, outcome: FetchOutcome, nowMs: int, serialize: History -> string, writable: bool): (t: Session)
    ensures outcome.FetchFailed? ==> t == s.(failed := true)
    ensures outcome.Fetched? ==>
      && t.protocolData == outcome.protocols
      && t.history == HistoryStore.Append(s.history, HistoryStore.Sample(nowMs, outcome.protocols))
      && t.stored == HistoryStore.Save(t.history, serialize, writable, s.stored)
      && t.failed == s.failed
      && t.windowMs == nowMs
    ensures t.packets == s.packets && t.timeRange == s.timeRange && t.currentPage == s.currentPage
  {
    match outcome
    case FetchFailed => s.(failed := true)
    case Fetched(protocols) =>
      var h := HistoryStore.Append(s.history, HistoryStore.Sample(nowMs, protocols));
      s.(protocolData := protocols, history := h, stored := HistoryStore.Save(h, serialize, writable, s.stored),
         windowMs := nowMs)
  }

  /** The packet list arrives (a response without a list delivers the empty list). */
  function ReceivePackets(s: Session, packets: seq<PacketSummary>): (t: Session)
    ensures t.packets == packets
    ensures t.(packets := s.packets) == s
  {
    s.(packets := packets)
  }

  /** The range setter of the page state, called at clock reading `nowMs`; no control
      on the page calls it, so a session that only goes through the page's own
      transitions stays on FifteenMinutes. Setting the range it already has changes
      nothing; a new range recomputes the trend window at `nowMs`. */
  function SelectRange(s: Session, range: TimeRange, nowMs: int): (t: Session)
    ensures t.timeRange == range
    ensures range == s.timeRange ==> t == s
    ensures range != s.timeRange ==> t.windowMs == nowMs
    ensures t.(timeRange := s.timeRange, windowMs := s.windowMs) == s
  {
    if range == s.timeRange then s else s.(timeRange := range, windowMs := nowMs)
  }

  /** A click on a pagination button asking for page `requested`. */
  function RequestPage(s: Session, requested: int): (t: Session)
    ensures t.currentPage == Pagination.ChangePage(s.currentPage, requested, Pagination.TotalPages(|s.packets|))
    ensures t.(currentPage := s.currentPage) == s
  {
    s.(currentPage := Pagination.ChangePage(s.currentPage, requested, Pagination.TotalPages(|s.packets|)))
  }

  /** Everything the page renders. */
  datatype View = View(
    line: Aggregate.LineChartData,
    pie: seq<Aggregate.Slice>,
    rows: seq<PacketSummary>,
    currentPage: int,
    totalPages: nat)

  /** What the page shows for a session. The trend window is the one computed at the
      last change of the history or the range (`s.windowMs`): it does not age between
      refreshes. */
  function Render(s: Session): (v: View)
    ensures v.line == Aggregate.LineChart(Window.Select(s.history, s.timeRange, s.windowMs), s.protocolData)
    ensures v.pie == Aggregate.Breakdown(s.protocolData)
    ensures v.rows == Pagination.PageItems(s.packets, s.currentPage)
    ensures v.currentPage == s.currentPage
    ensures v.totalPages == Pagination.TotalPages(|s.packets|) && v.totalPages >= 1
  {
    View(
      Aggregate.LineChart(Window.Select(s.history, s.timeRange, s.windowMs), s.protocolData),
      Aggregate.Breakdown(s.protocolData),
      Pagination.PageItems(s.packets, s.currentPage),
      s.currentPage,
      Pagination.TotalPages(|s.packets|))
  }

  /** A failed refresh leaves both charts as they were: in particular the trend window
      is not recomputed, however much later the failure comes. */
  lemma FailedRefreshKeepsCharts(s: Session, nowMs: int, serialize: History -> string, writable: bool)
    ensures Render(Refresh(s, FetchFailed, nowMs, serialize, writable)).line == Render(s).line
    ensures Render(Refresh(s, FetchFailed, nowMs, serialize, writable)).pie == Render(s).pie
  {
  }

  /** The current page is a real page. */
  predicate PageValid(s: Session) {
    1 <= s.currentPage <= Pagination.TotalPages(|s.packets|)
  }

  /** The page starts valid and no transition the page performs makes it invalid; the
      packet list arrives once, before any page change (while the page is still 1). */
  lemma PageStaysValid(s: Session, outcome: FetchOutcome, nowMs: int, serialize: History -> string,
                       writable: bool, range: TimeRange, requested: int, packets: seq<PacketSummary>)
    requires PageValid(s)
    ensures PageValid(Refresh(s, outcome, nowMs, serialize, writable))
    ensures PageValid(SelectRange(s, range, nowMs))
    ensures PageValid(RequestPage(s, requested))
    ensures s.currentPage == 1 ==> PageValid(ReceivePackets(s, packets))
  {
  }

  /** After a successful refresh the history holds at most `HistoryLimit` snapshots,
      the newest one last; after a failed one nothing but the error flag changed. */
  lemma RefreshBoundsHistory(s: Session, outcome: FetchOutcome, nowMs: int, serialize: History -> string, writable: bool)
    ensures var t := Refresh(s, outcome, nowMs, serialize, writable);
      outcome.Fetched? ==> 0 < |t.history| <= HistoryLimit && t.history[|t.history| - 1].data == outcome.protocols
    ensures outcome.FetchFailed? ==> Refresh(s, outcome, nowMs, serialize, writable).history == s.history
  {
  }

  /** A snapshot taken no earlier than every stored one keeps the history chronological. */
  lemma RefreshKeepsChronological(s: Session, outcome: FetchOutcome, nowMs: int, serialize: History -> string, writable: bool)
    requires Chronological(s.history)
    requires forall i :: 0 <= i < |s.history| ==> s.history[i].timestamp * 1000 <= nowMs
    ensures Chronological(Refresh(s, outcome, nowMs, serialize, writable).history)
  {
    if outcome.Fetched? {
      var rec := HistoryStore.Sample(nowMs, outcome.protocols);
      forall i | 0 <= i < |s.history| ensures s.history[i].timestamp <= rec.timestamp {
        var ts := s.history[i].timestamp;
        assert ts * 1000 <= nowMs < rec.timestamp * 1000 + 1000;
        assert ts < rec.timestamp + 1;
      }
      HistoryStore.AppendKeepsChronological(s.history, rec);
    }
  }

  /** When the write succeeds and the serializer round-trips, reopening the page
      restores exactly the history the refresh produced. */
  lemma RefreshThenReopen(s: Session, protocols: ProtocolData, nowMs: int,
                          serialize: History -> string, parse: string -> Option<History>)
    requires forall h: History :: serialize(h) != "" && parse(serialize(h)) == Some(h)
    ensures var t := Refresh(s, Fetched(protocols), nowMs, serialize, true);
      Open(t.stored, parse, nowMs).history == t.history
  {
    var t := Refresh(s, Fetched(protocols), nowMs, serialize, true);
    HistoryStore.SaveThenLoad(t.history, serialize, parse, s.stored);
  }

  /** One refresh as the clock reads `nowMs`, with the storage write succeeding or not. */
  datatype Tick = Tick(outcome: FetchOutcome, nowMs: int, writable: bool)

  function Run(s: Session, ticks: seq<Tick>, serialize: History -> string): Session
    decreases |ticks|
  {
    if |ticks| == 0 then s
    else
      var t := ticks[|ticks| - 1];
      Refresh(Run(s, ticks[..|ticks| - 1], serialize), t.outcome, t.nowMs, serialize, t.writable)
  }

  /** The snapshots the successful ticks take, in order. */
  function Samples(ticks: seq<Tick>): (recs: seq<HistoryRecord>)
    ensures |recs| <= |ticks|
    decreases |ticks|
  {
    if |ticks| == 0 then []
    else
      var t := ticks[|ticks| - 1];
      match t.outcome
      case FetchFailed => Samples(ticks[..|ticks| - 1])
      case Fetched(protocols) => Samples(ticks[..|ticks| - 1]) + [HistoryStore.Sample(t.nowMs, protocols)]
  }

  /** A run of refreshes appends exactly the snapshots of its successful fetches. */
  lemma {:induction false} RunAppendsSamples(s: Session, ticks: seq<Tick>, serialize: History -> string)
    ensures Run(s, ticks, serialize).history == HistoryStore.AppendAll(s.history, Samples(ticks))
    decreases |ticks|
  {
    if |ticks| > 0 {
      var init := ticks[..|ticks| - 1];
      RunAppendsSamples(s, init, serialize);
      var t := ticks[|ticks| - 1];
      match t.outcome {
        case FetchFailed =>
        case Fetched(protocols) =>
          var recs := Samples(init) + [HistoryStore.Sample(t.nowMs, protocols)];
          assert recs[..|recs| - 1] == Samples(init);
      }
    }
  }

  /** Over a run of refreshes the error flag is raised exactly when some fetch failed
      (nothing clears it), and the selected range, page and packet list are untouched. */
  lemma {:induction false} RunFlagsFailures(s: Session, ticks: seq<Tick>, serialize: History -> string)
    ensures Run(s, ticks, serialize).failed <==>
      s.failed || exists i :: 0 <= i < |ticks| && ticks[i].outcome.FetchFailed?
    ensures Run(s, ticks, serialize).timeRange == s.timeRange
    ensures Run(s, ticks, serialize).currentPage == s.currentPage
    ensures Run(s, ticks, serialize).packets == s.packets
    decreases |ticks|
  {
    if |ticks| > 0 {
      var init := ticks[..|ticks| - 1];
      RunFlagsFailures(s, init, serialize);
      assert forall i :: 0 <= i < |init| ==> init[i] == ticks[i];
      if ticks[|ticks| - 1].outcome.Fetched? && !s.failed && exists i :: 0 <= i < |ticks| && ticks[i].outcome.FetchFailed? {
        var i :| 0 <= i < |ticks| && ticks[i].outcome.FetchFailed?;
        assert init[i] == ticks[i];
      }
    }
  }

  /** Opened with nothing stored, the page's history after any run is the newest
      `min(n, HistoryLimit)` of the `n` snapshots taken. */
  lemma RunFromNothingKeepsNewest(parse: string -> Option<History>, openMs: int, ticks: seq<Tick>, serialize: History -> string)
    ensures Run(Open(None, parse, openMs), ticks, serialize).history == Seqs.Newest(Samples(ticks), HistoryLimit)
    ensures |Run(Open(None, parse, openMs), ticks, serialize).history| <= HistoryLimit
  {
    RunAppendsSamples(Open(None, parse, openMs), ticks, serialize);
    HistoryStore.FromEmptyKeepsMostRecent(Samples(ticks));
  }

  /** The counters of the three-snapshot scenario: `http` throughout, `dns` joining last. */
  function ScenarioCounters(k: nat): ProtocolData {
    if k == 0 then [Counter("http", ProtocolStats(5, 500))]
    else if k == 1 then [Counter("http", ProtocolStats(8, 900))]
    else [Counter("http", ProtocolStats(2, 200)), Counter("dns", ProtocolStats(1, 50))]
  }

  /** Successful refreshes at 0 s, 10 s and 20 s. */
  function ScenarioTicks(): seq<Tick> {
    [Tick(Fetched(ScenarioCounters(0)), 0, true),
     Tick(Fetched(ScenarioCounters(1)), 10000, true),
     Tick(Fetched(ScenarioCounters(2)), 20000, true)]
  }

  function ScenarioHistory(): History {
    [HistoryRecord(0, ScenarioCounters(0)), HistoryRecord(10, ScenarioCounters(1)), HistoryRecord(20, ScenarioCounters(2))]
  }

  lemma ScenarioSamples()
    ensures Samples(ScenarioTicks()) == ScenarioHistory()
  {
    var ticks := ScenarioTicks();
    var h := ScenarioHistory();
    assert ticks[..2][..1] == [ticks[0]];
    assert ticks[..1][..0] == [];
    assert Samples(ticks[..1]) == [h[0]];
    assert Samples(ticks[..2]) == [h[0], h[1]];
  }

  lemma ScenarioRun(parse: string -> Option<History>, serialize: History -> string)
    ensures Run(Open(None, parse, 0), ScenarioTicks(), serialize).history == ScenarioHistory()
    ensures Run(Open(None, parse, 0), ScenarioTicks(), serialize).protocolData == ScenarioCounters(2)
    ensures Run(Open(None, parse, 0), ScenarioTicks(), serialize).timeRange == FifteenMinutes
    ensures Run(Open(None, parse, 0), ScenarioTicks(), serialize).windowMs == 20000
  {
    RunFlagsFailures(Open(None, parse, 0), ScenarioTicks(), serialize);
    RunAppendsSamples(Open(None, parse, 0), ScenarioTicks(), serialize);
    ScenarioSamples();
    HistoryStore.FromEmptyKeepsMostRecent(ScenarioHistory());
  }

  lemma ScenarioWindow()
    ensures Window.Select(ScenarioHistory(), FifteenMinutes, 20000) == ScenarioHistory()
  {
    var h := ScenarioHistory();
    var cutoff := Window.Cutoff(20000, FifteenMinutes);
    assert cutoff == -880;
    var keep := Window.InWindow(cutoff);
    assert keep(h[0]) && keep(h[1]) && keep(h[2]);
    Seqs.FilterAllKept(h, keep);
    assert Window.Select(h, FifteenMinutes, 20000) == Seqs.Filter(h, keep);
  }

  lemma ScenarioFiltered()
    ensures Aggregate.FilteredProtocols(ScenarioCounters(2)) == [ScenarioCounters(2)[0]]
  {
    var c := ScenarioCounters(2);
    assert Aggregate.FilteredProtocols(c) == Seqs.Filter(c, Aggregate.Included);
    assert c[1..][1..] == [];
  }

  lemma ScenarioLine()
    ensures var line := Aggregate.LineChart(ScenarioHistory(), ScenarioCounters(2));
      |line.datasets| == 1 && line.datasets[0].protocol == "http" && line.datasets[0].data == [500, 900, 200]
  {
    ScenarioFiltered();
    var h := ScenarioHistory();
    assert h[..2][..1] == [h[0]];
    assert Aggregate.Series(h, "http") == [500, 900, 200];
  }

  lemma ScenarioPie()
    ensures var pie := Aggregate.Breakdown(ScenarioCounters(2));
      |pie| == 1 && pie[0].protocol == "http" && pie[0].bytes == 200 && pie[0].percent == 100.0
  {
    ScenarioFiltered();
    assert Aggregate.TotalBytes([ScenarioCounters(2)[0]]) == 200;
  }

  /** Three snapshots at 0 s, 10 s and 20 s: the default fifteen-minute window, computed
      at the last refresh, holds all three, the `http` series reads 500, 900, 200, and `dns` is absent from
      both charts. */
  lemma ThreeSnapshotScenario(parse: string -> Option<History>, serialize: History -> string)
    ensures
      var s := Run(Open(None, parse, 0), ScenarioTicks(), serialize);
      var v := Render(s);
      && s.history == ScenarioHistory()
      && |v.line.datasets| == 1
      && v.line.datasets[0].protocol == "http"
      && v.line.datasets[0].data == [500, 900, 200]
      && |v.pie| == 1
      && v.pie[0].protocol == "http"
      && v.pie[0].percent == 100.0
  {
    var s := Run(Open(None, parse, 0), ScenarioTicks(), serialize);
    ScenarioRun(parse, serialize);
    ScenarioWindow();
    ScenarioLine();
    ScenarioPie();
    assert Render(s).line == Aggregate.LineChart(ScenarioHistory(), ScenarioCounters(2));
    assert Render(s).pie == Aggregate.Breakdown(ScenarioCounters(2));
  }
}
