/** What the charts show: the counters without the noise protocols, one byte series per
    remaining protocol aligned with the time window, and the byte breakdown of the
    latest counters with each protocol's share of the total. */
module Aggregate {
  import opened Wrappers
  import opened Traffic
  import Seqs
  import Colors

  /** Protocols never charted. */
  const Denylist: set<string> := {"dns", "other"}

  function Included(c: Counter): bool {
    c.protocol !in Denylist
  }

  /** Dropping denied counters leaves every other property readable with its value. */
  lemma {:induction false} LookupAfterDenylist(d: ProtocolData)
    ensures forall p :: p !in Denylist ==> Lookup(Seqs.Filter(d, Included), p) == Lookup(d, p)
    decreases |d|
  {
    if |d| > 0 {
      LookupAfterDenylist(d[1..]);
      var rest := Seqs.Filter(d[1..], Included);
      if Included(d[0]) {
        assert Seqs.Filter(d, Included) == [d[0]] + rest;
        assert ([d[0]] + rest)[1..] == rest;
      }
    }
  }

  /** Putting a counter in front of an object that lacks its name gives an object. */
  lemma DistinctCons(c: Counter, rest: ProtocolData)
    requires DistinctProtocols(rest)
    requires forall i :: 0 <= i < |rest| ==> rest[i].protocol != c.protocol
    ensures DistinctProtocols([c] + rest)
  {
    var r := [c] + rest;
    forall i, j | 0 <= i < j < |r| ensures r[i].protocol != r[j].protocol {
      assert r[j] == rest[j - 1];
      if i > 0 {
        assert r[i] == rest[i - 1];
      }
    }
  }

  /** Dropping counters cannot create a repeated property name. */
  lemma {:induction false} DenylistKeepsDistinct(d: ProtocolData)
    requires DistinctProtocols(d)
    ensures DistinctProtocols(Seqs.Filter(d, Included))
    decreases |d|
  {
    if |d| > 0 {
      var tail := d[1..];
      assert DistinctProtocols(tail) by {
        forall i, j | 0 <= i < j < |tail| ensures tail[i].protocol != tail[j].protocol {
          assert tail[i] == d[i + 1] && tail[j] == d[j + 1];
        }
      }
      DenylistKeepsDistinct(tail);
      if Included(d[0]) {
        var rest := Seqs.Filter(tail, Included);
        assert forall k :: 0 <= k < |tail| ==> tail[k].protocol != d[0].protocol by {
          forall k | 0 <= k < |tail| ensures tail[k].protocol != d[0].protocol {
            assert tail[k] == d[k + 1];
          }
        }
        assert forall i :: 0 <= i < |rest| ==> rest[i].protocol != d[0].protocol;
        DistinctCons(d[0], rest);
        assert Seqs.Filter(d, Included) == [d[0]] + rest;
      }
    }
  }

  /** The counters with the `dns` and `other` properties removed, every other property
      kept with its value and in its order. */
  function FilteredProtocols(d: ProtocolData): (r: ProtocolData)
    ensures Lookup(r, "dns") == None && Lookup(r, "other") == None
    ensures forall p :: p !in Denylist ==> Lookup(r, p) == Lookup(d, p)
    ensures forall i :: 0 <= i < |r| ==> r[i].protocol !in Denylist
    ensures Seqs.SubsequenceOf(r, d)
  {
    LookupAfterDenylist(d);
    Seqs.FilterIsSubsequence(d, Included);
    Seqs.Filter(d, Included)
  }

  /** The object rest of a JavaScript object is again an object. */
  lemma FilteredProtocolsDistinct(d: ProtocolData)
    requires DistinctProtocols(d)
    ensures DistinctProtocols(FilteredProtocols(d))
  {
    DenylistKeepsDistinct(d);
  }

  /** The byte series of one protocol, one point per window entry, oldest first. */
  function Series(window: History, p: string): (r: seq<nat>)
    ensures |r| == |window|
    ensures forall i :: 0 <= i < |window| && Lookup(window[i].data, p).Some? ==>
      r[i] == Lookup(window[i].data, p).value.bytes
    ensures forall i :: 0 <= i < |window| && Lookup(window[i].data, p).None? ==> r[i] == 0
    decreases |window|
  {
    if |window| == 0 then []
    else Series(window[..|window| - 1], p) + [BytesOf(window[|window| - 1].data, p)]
  }

  /** The series of two consecutive stretches of history are the two series joined. */
  lemma SeriesOfConcat(a: History, b: History, p: string)
    ensures Series(a + b, p) == Series(a, p) + Series(b, p)
  {
    var l := Series(a + b, p);
    var r := Series(a, p) + Series(b, p);
    forall i | 0 <= i < |l| ensures l[i] == r[i] {
      if i < |a| {
        assert (a + b)[i] == a[i];
      } else {
        assert (a + b)[i] == b[i - |a|];
      }
    }
  }

  datatype Dataset = Dataset(protocol: string, data: seq<nat>, borderColor: Colors.Rgba, backgroundColor: Colors.Rgba)

  /** The trend chart: x-axis points are the window's timestamps (their clock-time
      rendering is left out) and there is one dataset per charted protocol. */
  datatype LineChartData = LineChartData(labels: seq<int>, datasets: seq<Dataset>)

  function LineChart(window: History, current: ProtocolData): (c: LineChartData)
    ensures |c.labels| == |window|
    ensures forall i :: 0 <= i < |window| ==> c.labels[i] == window[i].timestamp
    ensures |c.datasets| == |FilteredProtocols(current)|
    ensures forall k :: 0 <= k < |c.datasets| ==>
      && c.datasets[k].protocol == FilteredProtocols(current)[k].protocol
      && c.datasets[k].protocol !in Denylist
      && c.datasets[k].data == Series(window, c.datasets[k].protocol)
      && c.datasets[k].borderColor == Colors.ProtocolColor(c.datasets[k].protocol, 1.0)
      && c.datasets[k].backgroundColor == Colors.ProtocolColor(c.datasets[k].protocol, 0.1)
  {
    LineChartData(
      seq(|window|, i requires 0 <= i < |window| => window[i].timestamp),
      DatasetsOf(window, FilteredProtocols(current)))
  }

  /** One dataset per property of `f`, in property order. */
  function DatasetsOf(window: History, f: ProtocolData): (ds: seq<Dataset>)
    ensures |ds| == |f|
    ensures forall k :: 0 <= k < |ds| ==> ds[k].protocol == f[k].protocol && ds[k].data == Series(window, f[k].protocol)
    ensures forall k :: 0 <= k < |ds| ==>
      ds[k].borderColor == Colors.ProtocolColor(f[k].protocol, 1.0) && ds[k].backgroundColor == Colors.ProtocolColor(f[k].protocol, 0.1)
  {
    seq(|f|, k requires 0 <= k < |f| =>
      Dataset(f[k].protocol, Series(window, f[k].protocol),
              Colors.ProtocolColor(f[k].protocol, 1.0), Colors.ProtocolColor(f[k].protocol, 0.1)))
  }

  /** The bytes of `p` in a counters object (`d[p]?.bytes || 0`, and `d[p].bytes`
      for an own property): 0 when it has no such property, and otherwise the
      bytes stored under that name. */
  function BytesOf(d: ProtocolData, p: string): (b: nat)
    ensures (forall i :: 0 <= i < |d| ==> d[i].protocol != p) ==> b == 0
    ensures DistinctProtocols(d) ==> forall i :: 0 <= i < |d| && d[i].protocol == p ==> b == d[i].stats.bytes
  {
    LookupOwnProperties(d);
    match Lookup(d, p)
    case Some(s) => s.bytes
    case None => 0
  }

  /** The bytes of all properties summed in property order. */
  function TotalBytes(d: ProtocolData): (total: nat)
    ensures forall i :: 0 <= i < |d| ==> d[i].stats.bytes <= total
    decreases |d|
  {
    if |d| == 0 then 0 else d[0].stats.bytes + TotalBytes(d[1..])
  }

  /** The tail of an object is an object, none of whose names is the head's. */
  lemma DistinctTail(d: ProtocolData)
    requires |d| > 0 && DistinctProtocols(d)
    ensures DistinctProtocols(d[1..])
    ensures forall i :: 0 <= i < |d[1..]| ==> d[1..][i].protocol != d[0].protocol
  {
    var rest := d[1..];
    forall i, j | 0 <= i < j < |rest| ensures rest[i].protocol != rest[j].protocol {
      assert rest[i] == d[i + 1] && rest[j] == d[j + 1];
    }
    forall i | 0 <= i < |rest| ensures rest[i].protocol != d[0].protocol {
      assert rest[i] == d[i + 1];
    }
  }

  /** The denylist applied to a non-empty object, one property at a time. */
  lemma FilteredStep(d: ProtocolData)
    requires |d| > 0
    ensures Included(d[0]) ==> FilteredProtocols(d) == [d[0]] + FilteredProtocols(d[1..])
    ensures !Included(d[0]) ==> FilteredProtocols(d) == FilteredProtocols(d[1..])
  {
    assert FilteredProtocols(d) == Seqs.Filter(d, Included);
    assert FilteredProtocols(d[1..]) == Seqs.Filter(d[1..], Included);
  }

  lemma BytesOfStep(d: ProtocolData, p: string)
    requires |d| > 0
    ensures BytesOf(d, p) == if d[0].protocol == p then d[0].stats.bytes else BytesOf(d[1..], p)
  {
  }

  lemma TotalBytesStep(c: Counter, rest: ProtocolData)
    ensures TotalBytes([c] + rest) == c.stats.bytes + TotalBytes(rest)
  {
    assert ([c] + rest)[1..] == rest;
  }

  /** The total is 0 exactly when every property carries 0 bytes. */
  lemma {:induction false} TotalBytesZero(d: ProtocolData)
    ensures TotalBytes(d) == 0 <==> forall i :: 0 <= i < |d| ==> d[i].stats.bytes == 0
    decreases |d|
  {
    if |d| > 0 {
      TotalBytesZero(d[1..]);
      assert forall i :: 1 <= i < |d| ==> d[i] == d[1..][i - 1];
    }
  }

  /** The total the breakdown divides by covers the charted protocols only: it is the
      whole total less what `dns` and `other` carried. */
  lemma {:induction false} TotalExcludesDenylist(d: ProtocolData)
    requires DistinctProtocols(d)
    ensures TotalBytes(d) == TotalBytes(FilteredProtocols(d)) + BytesOf(d, "dns") + BytesOf(d, "other")
    decreases |d|
  {
    if |d| > 0 {
      var c := d[0];
      var rest := d[1..];
      DistinctTail(d);
      TotalExcludesDenylist(rest);
      FilteredStep(d);
      BytesOfStep(d, "dns");
      BytesOfStep(d, "other");
      if Included(c) {
        TotalBytesStep(c, FilteredProtocols(rest));
      } else {
        assert BytesOf(rest, c.protocol) == 0;
      }
    }
  }

  /** The pie tooltip's share: `value / total * 100`, or 0 when the total is 0. Kept
      exact; the two-decimal rendering is left out. */
  function Percent(value: nat, total: nat): (pct: real)
    ensures total == 0 ==> pct == 0.0
    ensures total > 0 ==> pct * (total as real) == 100.0 * (value as real)
    ensures value <= total ==> 0.0 <= pct <= 100.0
  {
    if total == 0 then 0.0 else (value as real / total as real) * 100.0
  }

  /** One pie slice: protocol, bytes, share of the total and colour. */
  datatype Slice = Slice(protocol: string, bytes: nat, percent: real, color: Colors.Rgba)

  /** Every charted name reads the same bytes in the filtered and the full counters. */
  lemma FilteredBytes(d: ProtocolData)
    ensures forall k :: 0 <= k < |FilteredProtocols(d)| ==>
      BytesOf(FilteredProtocols(d), FilteredProtocols(d)[k].protocol) == BytesOf(d, FilteredProtocols(d)[k].protocol)
  {
    var f := FilteredProtocols(d);
    forall k | 0 <= k < |f| ensures BytesOf(f, f[k].protocol) == BytesOf(d, f[k].protocol) {
      assert Lookup(f, f[k].protocol) == Lookup(d, f[k].protocol);
    }
  }

  /** One slice per property of `f`, in property order, reading each property's bytes
      back by name and dividing by `total`. */
  function SlicesOf(f: ProtocolData, total: nat): (r: seq<Slice>)
    ensures |r| == |f|
    ensures forall k :: 0 <= k < |r| ==> r[k].protocol == f[k].protocol && r[k].bytes == BytesOf(f, f[k].protocol)
    ensures forall k :: 0 <= k < |r| ==> r[k].percent == Percent(r[k].bytes, total)
    ensures forall k :: 0 <= k < |r| ==> r[k].color == Colors.ProtocolColor(r[k].protocol, 0.7)
  {
    seq(|f|, k requires 0 <= k < |f| =>
      var p := f[k].protocol;
      var b := BytesOf(f, p);
      Slice(p, b, Percent(b, total), Colors.ProtocolColor(p, 0.7)))
  }

  /** The pie chart over the latest counters. Each slice reads its bytes back by
      property name, as the chart data is built from the property names. */
  function Breakdown(current: ProtocolData): (r: seq<Slice>)
    ensures |r| == |FilteredProtocols(current)|
    ensures forall k :: 0 <= k < |r| ==>
      && r[k].protocol == FilteredProtocols(current)[k].protocol
      && r[k].protocol !in Denylist
      && r[k].bytes == BytesOf(current, r[k].protocol)
      && r[k].percent == Percent(r[k].bytes, TotalBytes(FilteredProtocols(current)))
      && r[k].color == Colors.ProtocolColor(r[k].protocol, 0.7)
  {
    FilteredBytes(current);
    SlicesOf(FilteredProtocols(current), TotalBytes(FilteredProtocols(current)))
  }

  function SliceBytes(s: seq<Slice>): nat
    decreases |s|
  {
    if |s| == 0 then 0 else s[0].bytes + SliceBytes(s[1..])
  }

  function SlicePercent(s: seq<Slice>): real
    decreases |s|
  {
    if |s| == 0 then 0.0 else s[0].percent + SlicePercent(s[1..])
  }

  lemma {:induction false} SliceBytesMatchTotal(s: seq<Slice>, d: ProtocolData)
    requires |s| == |d|
    requires forall k :: 0 <= k < |s| ==> s[k].bytes == d[k].stats.bytes
    ensures SliceBytes(s) == TotalBytes(d)
    decreases |s|
  {
    if |s| > 0 {
      SliceBytesMatchTotal(s[1..], d[1..]);
    }
  }

  /** The slice values sum to the total the percentages divide by. */
  lemma BreakdownBytesSumToTotal(current: ProtocolData)
    requires DistinctProtocols(current)
    ensures SliceBytes(Breakdown(current)) == TotalBytes(FilteredProtocols(current))
  {
    var f := FilteredProtocols(current);
    var r := Breakdown(current);
    FilteredProtocolsDistinct(current);
    forall k | 0 <= k < |r| ensures r[k].bytes == f[k].stats.bytes {
      LookupOwnProperty(f, k);
    }
    SliceBytesMatchTotal(r, f);
  }

  lemma {:induction false} SlicePercentScaled(s: seq<Slice>, total: nat)
    requires total > 0
    requires forall k :: 0 <= k < |s| ==> s[k].percent == Percent(s[k].bytes, total)
    ensures SlicePercent(s) * (total as real) == 100.0 * (SliceBytes(s) as real)
    decreases |s|
  {
    if |s| > 0 {
      SlicePercentScaled(s[1..], total);
      var t := total as real;
      var p0 := s[0].percent;
      var rest := SlicePercent(s[1..]);
      assert p0 * t == 100.0 * (s[0].bytes as real);
      assert (p0 + rest) * t == p0 * t + rest * t;
    }
  }

  /** Cancels a positive factor: `x * t == 100 * t` forces `x == 100`. */
  lemma CancelPositive(x: real, t: real, part: real)
    requires t > 0.0 && part == t
    requires x * t == 100.0 * part
    ensures x == 100.0
  {
    assert x * t == 100.0 * t;
  }

  /** Shares of a whole taken over all its parts add up to 100. */
  lemma SharesOfWhole(s: seq<Slice>, total: nat)
    requires total > 0
    requires forall k :: 0 <= k < |s| ==> s[k].percent == Percent(s[k].bytes, total)
    requires SliceBytes(s) == total
    ensures SlicePercent(s) == 100.0
  {
    SlicePercentScaled(s, total);
    CancelPositive(SlicePercent(s), total as real, SliceBytes(s) as real);
  }

  /** The pie's shares add up to 100 when any bytes were counted, and are all 0 otherwise. */
  lemma BreakdownPercentages(current: ProtocolData)
    requires DistinctProtocols(current)
    ensures TotalBytes(FilteredProtocols(current)) > 0 ==> SlicePercent(Breakdown(current)) == 100.0
    ensures TotalBytes(FilteredProtocols(current)) == 0 ==>
      forall k :: 0 <= k < |Breakdown(current)| ==> Breakdown(current)[k].percent == 0.0
  {
    var total := TotalBytes(FilteredProtocols(current));
    var r := Breakdown(current);
    if total > 0 {
      BreakdownBytesSumToTotal(current);
      SharesOfWhole(r, total);
    }
  }

  /** The charts draw with the corrected colour lookup. For every protocol name that is
      not an `Object.prototype` member it agrees with the lookup as written, for the
      line, its fill and the pie slice alike. */
  lemma ChartColorsAsWritten(window: History, current: ProtocolData)
    ensures var c := LineChart(window, current);
      forall k :: 0 <= k < |c.datasets| && c.datasets[k].protocol !in Colors.ObjectPrototypeMembers ==>
        && Colors.ProtocolColorAsWritten(c.datasets[k].protocol, 1.0) == Colors.Color(c.datasets[k].borderColor)
        && Colors.ProtocolColorAsWritten(c.datasets[k].protocol, 0.1) == Colors.Color(c.datasets[k].backgroundColor)
    ensures var r := Breakdown(current);
      forall k :: 0 <= k < |r| && r[k].protocol !in Colors.ObjectPrototypeMembers ==>
        Colors.ProtocolColorAsWritten(r[k].protocol, 0.7) == Colors.Color(r[k].color)
  {
  }
}
