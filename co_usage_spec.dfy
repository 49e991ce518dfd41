/**
  The co-usage relation of the analytics endpoint `/analytics/co-usage`:
  which pairs of usage records count as two devices used together, and
  how many such pairs each device pair has.

  A usage record keeps the three columns the endpoint reads: the device id
  and the start and end timestamps. Timestamps are only ever compared with
  `<=` and `>=`, so they are modelled as integers (for instance minutes
  since some epoch). A record's position in the sequence is its row label
  in the data frame, which is the default range index 0, 1, 2, ...
 */
module CoUsageSpec {

  datatype UsageRecord = UsageRecord(deviceId: int, startTime: int, endTime: int)

  /** A dictionary key: the two device ids in ascending order. */
  type DevicePair = (int, int)

  /** Closed-interval overlap: intervals that only touch still overlap.
      Inverted intervals (end before start) are compared as given. */
  predicate Overlaps(r1: UsageRecord, r2: UsageRecord)
  {
    r1.startTime <= r2.endTime && r1.endTime >= r2.startTime
  }

  /** `tuple(sorted([a, b]))` */
  function SortedPair(a: int, b: int): (k: DevicePair)
    ensures k.0 <= k.1
    ensures (k.0 == a && k.1 == b) || (k.0 == b && k.1 == a)
  {
    if a <= b then (a, b) else (b, a)
  }

  /** The two tests the loop applies to a pair of rows besides `i < j`. */
  predicate CoUsed(r1: UsageRecord, r2: UsageRecord)
  {
    r1.deviceId != r2.deviceId && Overlaps(r1, r2)
  }

  /** The earlier row `r1` and the later row `r2` add one to entry `k`. */
  predicate Hit(r1: UsageRecord, r2: UsageRecord, k: DevicePair)
  {
    CoUsed(r1, r2) && SortedPair(r1.deviceId, r2.deviceId) == k
  }

  /** `dict.get(k, 0)` */
  function GetOrZero(m: map<DevicePair, int>, k: DevicePair): int
  {
    if k in m then m[k] else 0
  }

  /** How many rows of `s` add one to entry `k` together with a later row `r`. */
  function HitsBefore(s: seq<UsageRecord>, r: UsageRecord, k: DevicePair): nat
  {
    if s == [] then 0
    else HitsBefore(s[..|s| - 1], r, k) + (if Hit(s[|s| - 1], r, k) then 1 else 0)
  }

  /** The reference count of entry `k`: every pair of positions is taken
      once, by its later position. */
  function PairCount(s: seq<UsageRecord>, k: DevicePair): nat
  {
    if s == [] then 0
    else PairCount(s[..|s| - 1], k) + HitsBefore(s[..|s| - 1], s[|s| - 1], k)
  }

  /** The pairs of positions `i < j` that add one to entry `k`. */
  ghost function Positions(s: seq<UsageRecord>, k: DevicePair): set<(int, int)>
  {
    set i, j | 0 <= i < j < |s| && Hit(s[i], s[j], k) :: (i, j)
  }

  /** The pairs of positions `i < j`, with later position `j`, whose earlier
      row adds one to entry `k` together with row `r`. */
  ghost function Column(s: seq<UsageRecord>, r: UsageRecord, k: DevicePair, j: int): set<(int, int)>
  {
    set i | 0 <= i < |s| && Hit(s[i], r, k) :: (i, j)
  }

  /** The keys that some pair of positions produces. */
  function CountedKeys(s: seq<UsageRecord>): set<DevicePair>
  {
    set i, j | 0 <= i < j < |s| && CoUsed(s[i], s[j]) :: SortedPair(s[i].deviceId, s[j].deviceId)
  }

  /** The dictionary `co_usage_count` the endpoint builds, as a function of its rows. */
  function CoUsageCount(s: seq<UsageRecord>): (m: map<DevicePair, int>)
    ensures forall k :: k in m ==> k.0 < k.1
  {
    map k | k in CountedKeys(s) :: PairCount(s, k)
  }

  lemma {:induction false} ColumnCount(s: seq<UsageRecord>, r: UsageRecord, k: DevicePair, j: int)
    ensures HitsBefore(s, r, k) == |Column(s, r, k, j)|
  {
    if s != [] {
      var n := |s| - 1;
      var init := s[..n];
      ColumnCount(init, r, k, j);
      var extra := if Hit(s[n], r, k) then {(n, j)} else {};
      forall p | p in Column(s, r, k, j) ensures p in Column(init, r, k, j) + extra {
        if p.0 < n {
          assert init[p.0] == s[p.0];
        }
      }
      assert Column(s, r, k, j) == Column(init, r, k, j) + extra;
      assert (n, j) !in Column(init, r, k, j);
    }
  }

  /** The pairs of positions of `s` are those of all but its last row,
      and those whose later position is the last row. */
  lemma PositionsSplit(s: seq<UsageRecord>, k: DevicePair)
    requires s != []
    ensures var n := |s| - 1;
      Positions(s, k) == Positions(s[..n], k) + Column(s[..n], s[n], k, n)
    ensures var n := |s| - 1;
      Positions(s[..n], k) !! Column(s[..n], s[n], k, n)
  {
    var n := |s| - 1;
    var init := s[..n];
    forall p | p in Positions(s, k) ensures p in Positions(init, k) + Column(init, s[n], k, n) {
      if p.1 < n {
        assert p in Positions(init, k);
      } else {
        assert p in Column(init, s[n], k, n);
      }
    }
  }

  /** The recursive count is the number of pairs of positions. */
  lemma {:induction false} PairCountIsPositions(s: seq<UsageRecord>, k: DevicePair)
    ensures PairCount(s, k) == |Positions(s, k)|
  {
    if s != [] {
      var n := |s| - 1;
      PairCountIsPositions(s[..n], k);
      ColumnCount(s[..n], s[n], k, n);
      PositionsSplit(s, k);
    }
  }

  /** An entry is present exactly when some pair of positions `i < j`
      produces it, and then it holds the number of such pairs. */
  lemma CoUsageCountIsPositions(s: seq<UsageRecord>, k: DevicePair)
    ensures k in CoUsageCount(s) <==> exists i, j :: 0 <= i < j < |s| && Hit(s[i], s[j], k)
    ensures k in CoUsageCount(s) ==> CoUsageCount(s)[k] == |Positions(s, k)| >= 1
  {
    PairCountIsPositions(s, k);
    if k in CoUsageCount(s) {
      var i, j :| 0 <= i < j < |s| && CoUsed(s[i], s[j]) && k == SortedPair(s[i].deviceId, s[j].deviceId);
      assert (i, j) in Positions(s, k);
    }
  }

  /** The same statement in terms of the reference count. */
  lemma InCoUsageCount(s: seq<UsageRecord>, k: DevicePair)
    ensures k in CoUsageCount(s) <==> PairCount(s, k) > 0
    ensures k in CoUsageCount(s) ==> CoUsageCount(s)[k] == PairCount(s, k)
  {
    CoUsageCountIsPositions(s, k);
    PairCountIsPositions(s, k);
    if PairCount(s, k) > 0 {
      var p :| p in Positions(s, k);
      assert Hit(s[p.0], s[p.1], k);
    }
  }

  /** A dictionary whose entries hold the number of pairs of positions of
      their key, and that has no zero entries, is the co-usage dictionary. */
  lemma CountsDetermineMap(s: seq<UsageRecord>, m: map<DevicePair, int>)
    requires forall k :: GetOrZero(m, k) == |Positions(s, k)|
    requires forall k :: k in m ==> m[k] >= 1
    ensures m == CoUsageCount(s)
  {
    var spec := CoUsageCount(s);
    forall k ensures (k in m <==> k in spec) && (k in m ==> m[k] == spec[k]) {
      PairCountIsPositions(s, k);
      InCoUsageCount(s, k);
    }
    assert m.Keys == spec.Keys;
  }

  /** Every value the dictionary holds is at least one. */
  lemma CountsArePositive(s: seq<UsageRecord>)
    ensures forall k :: k in CoUsageCount(s) ==> CoUsageCount(s)[k] >= 1
  {
    forall k | k in CoUsageCount(s)
      ensures CoUsageCount(s)[k] >= 1
    {
      CoUsageCountIsPositions(s, k);
    }
  }

  /** The dictionary is empty exactly when no pair of positions `i < j`
      holds two different devices with overlapping intervals. */
  lemma EmptyIffNoCoUsage(s: seq<UsageRecord>)
    ensures CoUsageCount(s) == map[] <==> forall i, j :: 0 <= i < j < |s| ==> !CoUsed(s[i], s[j])
  {
    if exists i, j :: 0 <= i < j < |s| && CoUsed(s[i], s[j]) {
      var i, j :| 0 <= i < j < |s| && CoUsed(s[i], s[j]);
      var k := SortedPair(s[i].deviceId, s[j].deviceId);
      assert k in CountedKeys(s);
      assert k in CoUsageCount(s);
    } else {
      assert CountedKeys(s) == {};
    }
  }
}
