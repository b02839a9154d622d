/** The records the statistics page works with: per-protocol counters as the controller
    reports them, the timestamped snapshots kept in the traffic history, the selectable
    time ranges and the packet summaries shown in the table. */
module Traffic {
  import opened Wrappers
  import Seqs

  /** At most this many snapshots are kept in the history. */
  const HistoryLimit: nat := 120

  /** Rows of the packet-summary table per page. */
  const PageSize: nat := 10

  datatype ProtocolStats = ProtocolStats(packets: nat, bytes: nat)

  /** One own property `protocol: stats` of the counters object. */
  datatype Counter = Counter(protocol: string, stats: ProtocolStats)

  /** The counters object, as its own properties in property order (the order
      `Object.keys`, `Object.values` and object spread visit them). */
  type ProtocolData = seq<Counter>

  /** A JavaScript object never has two own properties with the same name. */
  predicate DistinctProtocols(d: ProtocolData) {
    forall i, j :: 0 <= i < j < |d| ==> d[i].protocol != d[j].protocol
  }

  /** Property access `d[p]`: the stats stored under `p`, or None (`undefined`). */
  function Lookup(d: ProtocolData, p: string): (r: Option<ProtocolStats>)
    ensures r.Some? ==> Counter(p, r.value) in d
    ensures r.None? <==> forall i :: 0 <= i < |d| ==> d[i].protocol != p
    decreases |d|
  {
    if |d| == 0 then None
    else if d[0].protocol == p then Some(d[0].stats)
    else Lookup(d[1..], p)
  }

  /** In an object every property name reads back its own value. */
  lemma {:induction false} LookupOwnProperty(d: ProtocolData, i: nat)
    requires DistinctProtocols(d)
    requires i < |d|
    ensures Lookup(d, d[i].protocol) == Some(d[i].stats)
    decreases |d|
  {
    if i > 0 {
      assert d[0].protocol != d[i].protocol;
      LookupOwnProperty(d[1..], i - 1);
    }
  }

  /** `LookupOwnProperty` for every property at once. */
  lemma LookupOwnProperties(d: ProtocolData)
    ensures DistinctProtocols(d) ==> forall i :: 0 <= i < |d| ==> Lookup(d, d[i].protocol) == Some(d[i].stats)
  {
    if DistinctProtocols(d) {
      forall i | 0 <= i < |d| ensures Lookup(d, d[i].protocol) == Some(d[i].stats) {
        LookupOwnProperty(d, i);
      }
    }
  }

  /** One entry of the traffic history: seconds since the epoch and the counters then. */
  datatype HistoryRecord = HistoryRecord(timestamp: int, data: ProtocolData)

  type History = seq<HistoryRecord>

  function Timestamp(r: HistoryRecord): int {
    r.timestamp
  }

  /** The history's timestamps never decrease. */
  ghost predicate Chronological(h: History) {
    Seqs.SortedBy(h, Timestamp)
  }

  /** The time-range selector; the page starts on FifteenMinutes. */
  datatype TimeRange = FiveMinutes | FifteenMinutes | ThirtyMinutes | OneHour

  /** One captured packet as the controller summarises it; nullable fields are Options. */
  datatype PacketSummary = PacketSummary(
    timestamp: int,
    dpid: int,
    inPort: int,
    ethSrc: string,
    ethDst: string,
    ethType: string,
    ipSrc: Option<string>,
    ipDst: Option<string>,
    ipProto: Option<int>,
    srcPort: Option<int>,
    dstPort: Option<int>,
    packetLen: nat,
    protocolIdentified: string)
}
