/**
  The counting part of the `/analytics/co-usage` endpoint: the nested scan
  over the data frame rows that fills the dictionary `co_usage_count`, and
  the endpoint's choice between its two "no data" replies and the chart.
 */
module Analytics {
  import opened CoUsageSpec

  /** What the endpoint replies. `PairCounts` carries the dictionary the
      bar chart is drawn from; the chart itself is not modelled. */
  datatype CoUsageReply =
    | NoData                                     // no usage records at all
    | NoCoUsage                                  // records, but no pair counted
    | PairCounts(counts: map<DevicePair, int>)   // the chart's bars

  /** The pairs of positions `(i, j)` the scan has already counted for key
      `k` when it is about to test row `i` against row `j`. */
  ghost function Visited(s: seq<UsageRecord>, i: int, j: int, k: DevicePair): set<(int, int)>
  {
    set p | p in Positions(s, k) && (p.0 < i || (p.0 == i && p.1 < j))
  }

  /** The loop invariant: every entry holds the number of pairs visited
      so far for its key, and entries exist only for keys seen at least once. */
  ghost predicate CountsVisited(s: seq<UsageRecord>, i: int, j: int, counts: map<DevicePair, int>)
  {
    && (forall k :: k in counts ==> counts[k] >= 1)
    && (forall k :: GetOrZero(counts, k) == |Visited(s, i, j, k)|)
  }

  /** The nested `iterrows` scan: every row is tested against every row,
      and a pair is counted when `i < j`, the devices differ and the
      intervals overlap. */
  method CountCoUsage(rows: seq<UsageRecord>) returns (counts: map<DevicePair, int>)
    ensures forall k :: GetOrZero(counts, k) == |Positions(rows, k)|
    ensures forall k :: k in counts ==> counts[k] >= 1
  {
    var n := |rows|;
    counts := map[];
    NothingVisited(rows);
    for i := 0 to n
      invariant CountsVisited(rows, i, 0, counts)
    {
      for j := 0 to n
        invariant CountsVisited(rows, i, j, counts)
      {
        var r1, r2 := rows[i], rows[j];
        if i < j && r1.deviceId != r2.deviceId {
          if r1.startTime <= r2.endTime && r1.endTime >= r2.startTime {
            var key := SortedPair(r1.deviceId, r2.deviceId);
            VisitHit(rows, i, j, key, counts);
            counts := counts[key := GetOrZero(counts, key) + 1];
          } else {
            VisitMiss(rows, i, j, counts);
          }
        } else {
          VisitMiss(rows, i, j, counts);
        }
      }
      NextRow(rows, i, counts);
    }
    AllVisited(rows, counts);
  }

  /** Testing row `i` against row `j` visits the pair `(i, j)` and no other. */
  lemma VisitPair(s: seq<UsageRecord>, i: int, j: int, k: DevicePair)
    requires 0 <= i < |s| && 0 <= j < |s|
    ensures (i, j) in Positions(s, k) ==> |Visited(s, i, j + 1, k)| == |Visited(s, i, j, k)| + 1
    ensures (i, j) !in Positions(s, k) ==> Visited(s, i, j + 1, k) == Visited(s, i, j, k)
  {
    if (i, j) in Positions(s, k) {
      assert Visited(s, i, j + 1, k) == Visited(s, i, j, k) + {(i, j)};
    } else {
      assert Visited(s, i, j + 1, k) == Visited(s, i, j, k);
    }
  }

  /** Before the first row, nothing is counted. */
  lemma NothingVisited(s: seq<UsageRecord>)
    ensures CountsVisited(s, 0, 0, map[])
  {
    forall k ensures Visited(s, 0, 0, k) == {} { }
  }

  /** A counted pair adds one to the entry of its key. */
  lemma VisitHit(s: seq<UsageRecord>, i: int, j: int, key: DevicePair, counts: map<DevicePair, int>)
    requires 0 <= i < j < |s| && CoUsed(s[i], s[j]) && key == SortedPair(s[i].deviceId, s[j].deviceId)
    requires CountsVisited(s, i, j, counts)
    ensures CountsVisited(s, i, j + 1, counts[key := GetOrZero(counts, key) + 1])
  {
    var after := counts[key := GetOrZero(counts, key) + 1];
    forall k ensures GetOrZero(after, k) == |Visited(s, i, j + 1, k)| {
      VisitPair(s, i, j, k);
      if k == key {
        assert (i, j) in Positions(s, k);
      } else {
        assert (i, j) !in Positions(s, k);
      }
    }
  }

  /** A pair that is not counted changes nothing. */
  lemma VisitMiss(s: seq<UsageRecord>, i: int, j: int, counts: map<DevicePair, int>)
    requires 0 <= i < |s| && 0 <= j < |s| && !(i < j && CoUsed(s[i], s[j]))
    requires CountsVisited(s, i, j, counts)
    ensures CountsVisited(s, i, j + 1, counts)
  {
    forall k ensures Visited(s, i, j + 1, k) == Visited(s, i, j, k) {
      VisitPair(s, i, j, k);
      assert (i, j) !in Positions(s, k);
    }
  }

  /** Finishing row `i` is starting row `i + 1`. */
  lemma NextRow(s: seq<UsageRecord>, i: int, counts: map<DevicePair, int>)
    requires 0 <= i < |s|
    requires CountsVisited(s, i, |s|, counts)
    ensures CountsVisited(s, i + 1, 0, counts)
  {
    forall k ensures Visited(s, i, |s|, k) == Visited(s, i + 1, 0, k) { }
  }

  lemma VisitedAll(s: seq<UsageRecord>, k: DevicePair)
    ensures Visited(s, |s|, 0, k) == Positions(s, k)
  {
  }

  /** After the last row, every pair of positions has been visited. */
  lemma AllVisited(s: seq<UsageRecord>, counts: map<DevicePair, int>)
    requires CountsVisited(s, |s|, 0, counts)
    ensures forall k :: GetOrZero(counts, k) == |Positions(s, k)|
  {
    forall k ensures GetOrZero(counts, k) == |Positions(s, k)| {
      VisitedAll(s, k);
    }
  }

  /** The endpoint after its query: no rows gives "no data"; rows without
      a counted pair give "no co-usage data"; otherwise the counts. */
  method CoUsage(records: seq<UsageRecord>) returns (reply: CoUsageReply)
    ensures reply == NoData <==> records == []
    ensures reply == NoCoUsage <==>
      records != [] && forall i, j :: 0 <= i < j < |records| ==> !CoUsed(records[i], records[j])
    ensures reply.PairCounts? ==> reply.counts == CoUsageCount(records) != map[]
  {
    if records == [] {
      return NoData;
    }
    var counts := CountCoUsage(records);
    CountsDetermineMap(records, counts);
    EmptyIffNoCoUsage(records);
    if counts == map[] {
      return NoCoUsage;
    }
    reply := PairCounts(counts);
  }
}
