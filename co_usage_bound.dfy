/**
  The counts of all device pairs together: every pair of positions is
  counted at most once, so the values of the dictionary add up to the
  number of co-used pairs of positions, which is at most N * (N - 1) / 2
  for N rows.
 */
module CoUsageBound {
  import opened CoUsageSpec

  ghost function PickKey(m: map<DevicePair, int>): (k: DevicePair)
    requires m != map[]
    ensures k in m
  {
    var k :| k in m; k
  }

  /** The sum of the values of a dictionary. */
  ghost function SumValues(m: map<DevicePair, int>): int
    decreases |m|
  {
    if m == map[] then 0
    else
      var k := PickKey(m);
      m[k] + SumValues(m - {k})
  }

  /** The co-used pairs of positions `i < j` whose key is one of `keys`. */
  ghost function CountedPositions(s: seq<UsageRecord>, keys: set<DevicePair>): set<(int, int)>
  {
    set i, j | 0 <= i < j < |s| && CoUsed(s[i], s[j]) && SortedPair(s[i].deviceId, s[j].deviceId) in keys :: (i, j)
  }

  /** Every pair of positions `i < j` among `n` rows. */
  ghost function AllPairs(n: nat): set<(int, int)>
  {
    set i, j | 0 <= i < j < n :: (i, j)
  }

  /** The positions of the keys `keys` split into those of `k` and those of the rest. */
  lemma CountedPositionsSplit(s: seq<UsageRecord>, keys: set<DevicePair>, k: DevicePair)
    requires k in keys
    ensures CountedPositions(s, keys) == Positions(s, k) + CountedPositions(s, keys - {k})
    ensures Positions(s, k) !! CountedPositions(s, keys - {k})
  {
    forall p | p in CountedPositions(s, keys)
      ensures p in Positions(s, k) + CountedPositions(s, keys - {k})
    {
      var i, j := p.0, p.1;
      if SortedPair(s[i].deviceId, s[j].deviceId) == k {
        assert p in Positions(s, k);
      } else {
        assert p in CountedPositions(s, keys - {k});
      }
    }
  }

  lemma {:induction false} SumIsCountedPositions(s: seq<UsageRecord>, m: map<DevicePair, int>)
    requires forall k :: k in m ==> m[k] == |Positions(s, k)|
    ensures SumValues(m) == |CountedPositions(s, m.Keys)|
    decreases |m|
  {
    if m == map[] {
      assert CountedPositions(s, m.Keys) == {};
    } else {
      var k := PickKey(m);
      var rest := m - {k};
      assert SumValues(m) == m[k] + SumValues(rest);
      SumIsCountedPositions(s, rest);
      assert rest.Keys == m.Keys - {k};
      CountedPositionsSplit(s, m.Keys, k);
      assert |CountedPositions(s, m.Keys)| == |Positions(s, k)| + |CountedPositions(s, rest.Keys)|;
    }
  }

  /** The pairs `(i, c)` for `i` below `n`. */
  ghost function EndingAt(n: nat, c: int): set<(int, int)>
  {
    set i | 0 <= i < n :: (i, c)
  }

  lemma {:induction false} EndingAtSize(n: nat, c: int)
    ensures |EndingAt(n, c)| == n
  {
    if n > 0 {
      EndingAtSize(n - 1, c);
      assert EndingAt(n, c) == EndingAt(n - 1, c) + {(n - 1, c)};
    }
  }

  lemma {:induction false} AllPairsSize(n: nat)
    ensures 2 * |AllPairs(n)| == n * (n - 1)
  {
    if n > 0 {
      AllPairsSize(n - 1);
      EndingAtSize(n - 1, n - 1);
      assert AllPairs(n) == AllPairs(n - 1) + EndingAt(n - 1, n - 1);
      assert AllPairs(n - 1) !! EndingAt(n - 1, n - 1);
      assert n * (n - 1) == (n - 1) * (n - 2) + 2 * (n - 1);
    }
  }

  lemma CountsArePositions(s: seq<UsageRecord>)
    ensures forall k :: k in CoUsageCount(s) ==> CoUsageCount(s)[k] == |Positions(s, k)|
  {
    forall k | k in CoUsageCount(s) ensures CoUsageCount(s)[k] == |Positions(s, k)| {
      CoUsageCountIsPositions(s, k);
    }
  }

  /** The values add up to the number of co-used pairs of positions: each
      pair of rows contributes once, to the entry of its own two devices. */
  lemma TotalIsCoUsedPairs(s: seq<UsageRecord>)
    ensures SumValues(CoUsageCount(s)) == |set i, j | 0 <= i < j < |s| && CoUsed(s[i], s[j]) :: (i, j)|
  {
    var m := CoUsageCount(s);
    CountsArePositions(s);
    SumIsCountedPositions(s, m);
    assert CountedPositions(s, m.Keys) == set i, j | 0 <= i < j < |s| && CoUsed(s[i], s[j]) :: (i, j);
  }

  lemma CountedWithinAllPairs(s: seq<UsageRecord>, keys: set<DevicePair>)
    ensures |CountedPositions(s, keys)| <= |AllPairs(|s|)|
  {
    var counted, all := CountedPositions(s, keys), AllPairs(|s|);
    assert counted <= all;
    assert all == counted + (all - counted);
  }

  /** The values add up to at most N * (N - 1) / 2. */
  lemma TotalBound(s: seq<UsageRecord>)
    ensures 2 * SumValues(CoUsageCount(s)) <= |s| * (|s| - 1)
  {
    var m := CoUsageCount(s);
    CountsArePositions(s);
    SumIsCountedPositions(s, m);
    CountedWithinAllPairs(s, m.Keys);
    AllPairsSize(|s|);
  }
}
