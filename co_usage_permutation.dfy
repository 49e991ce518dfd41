/**
  The order of the rows does not matter: the overlap test is symmetric and
  the keys are sorted, so any reordering of the usage records yields the
  same dictionary.
 */
module CoUsagePermutation {
  import opened CoUsageSpec

  /** `s` without the row at position `idx`. */
  function RemoveAt(s: seq<UsageRecord>, idx: nat): (r: seq<UsageRecord>)
    requires idx < |s|
    ensures |r| == |s| - 1
  {
    s[..idx] + s[idx + 1..]
  }

  /** Removing a row before the last keeps the last row last. */
  lemma RemoveAtBeforeLast(t: seq<UsageRecord>, idx: nat)
    requires idx < |t| - 1
    ensures var n := |t| - 1;
      RemoveAt(t, idx)[..n - 1] == RemoveAt(t[..n], idx) && RemoveAt(t, idx)[n - 1] == t[n] && t[..n][idx] == t[idx]
  {
    var n := |t| - 1;
    assert t[..n][..idx] == t[..idx] && t[..n][idx + 1..] == t[idx + 1..n];
  }

  lemma RemoveAtMultiset(s: seq<UsageRecord>, idx: nat)
    requires idx < |s|
    ensures multiset(RemoveAt(s, idx)) == multiset(s) - multiset{s[idx]}
  {
    assert s == s[..idx] + [s[idx]] + s[idx + 1..];
  }

  /** Swapping the two rows of a pair does not change whether, or where,
      the pair is counted. */
  lemma HitSymmetric(r1: UsageRecord, r2: UsageRecord, k: DevicePair)
    ensures Hit(r1, r2, k) <==> Hit(r2, r1, k)
  {
  }

  lemma {:induction false} HitsBeforeRemoveAt(t: seq<UsageRecord>, idx: nat, r: UsageRecord, k: DevicePair)
    requires idx < |t|
    ensures HitsBefore(t, r, k) == HitsBefore(RemoveAt(t, idx), r, k) + (if Hit(t[idx], r, k) then 1 else 0)
  {
    var n := |t| - 1;
    if idx == n {
      assert RemoveAt(t, idx) == t[..n];
    } else {
      var t0, u := t[..n], RemoveAt(t, idx);
      HitsBeforeRemoveAt(t0, idx, r, k);
      RemoveAtBeforeLast(t, idx);
      assert HitsBefore(u, r, k) == HitsBefore(u[..n - 1], r, k) + (if Hit(t[n], r, k) then 1 else 0);
    }
  }

  lemma {:induction false} HitsBeforePermutation(s: seq<UsageRecord>, t: seq<UsageRecord>, r: UsageRecord, k: DevicePair)
    requires multiset(s) == multiset(t)
    ensures HitsBefore(s, r, k) == HitsBefore(t, r, k)
    decreases |s|
  {
    if s == [] {
      assert |t| == |multiset(t)| == 0;
    } else {
      var n := |s| - 1;
      var x := s[n];
      assert s == s[..n] + [x];
      assert x in multiset(t);
      var idx :| 0 <= idx < |t| && t[idx] == x;
      RemoveAtMultiset(t, idx);
      HitsBeforePermutation(s[..n], RemoveAt(t, idx), r, k);
      HitsBeforeRemoveAt(t, idx, r, k);
    }
  }

  lemma {:induction false} PairCountRemoveAt(t: seq<UsageRecord>, idx: nat, k: DevicePair)
    requires idx < |t|
    ensures PairCount(t, k) == PairCount(RemoveAt(t, idx), k) + HitsBefore(RemoveAt(t, idx), t[idx], k)
  {
    var n := |t| - 1;
    if idx == n {
      assert RemoveAt(t, idx) == t[..n];
    } else {
      var t0, y, x := t[..n], t[n], t[idx];
      var r0, u := RemoveAt(t0, idx), RemoveAt(t, idx);
      PairCountRemoveAt(t0, idx, k);
      HitsBeforeRemoveAt(t0, idx, y, k);
      HitSymmetric(x, y, k);
      RemoveAtBeforeLast(t, idx);
      assert PairCount(t, k) == PairCount(t0, k) + HitsBefore(t0, y, k);
      assert PairCount(u, k) == PairCount(r0, k) + HitsBefore(r0, y, k);
      assert HitsBefore(u, x, k) == HitsBefore(r0, x, k) + (if Hit(y, x, k) then 1 else 0);
    }
  }

  lemma {:induction false} PairCountPermutation(s: seq<UsageRecord>, t: seq<UsageRecord>, k: DevicePair)
    requires multiset(s) == multiset(t)
    ensures PairCount(s, k) == PairCount(t, k)
    decreases |s|
  {
    if s == [] {
      assert |t| == |multiset(t)| == 0;
    } else {
      var n := |s| - 1;
      var x := s[n];
      assert s == s[..n] + [x];
      assert x in multiset(t);
      var idx :| 0 <= idx < |t| && t[idx] == x;
      RemoveAtMultiset(t, idx);
      PairCountPermutation(s[..n], RemoveAt(t, idx), k);
      HitsBeforePermutation(s[..n], RemoveAt(t, idx), x, k);
      PairCountRemoveAt(t, idx, k);
    }
  }

  /** Any reordering of the rows yields the same dictionary. */
  lemma CoUsageCountPermutation(s: seq<UsageRecord>, t: seq<UsageRecord>)
    requires multiset(s) == multiset(t)
    ensures CoUsageCount(s) == CoUsageCount(t)
  {
    forall k ensures k in CoUsageCount(s) <==> k in CoUsageCount(t) {
      InCoUsageCount(s, k);
      InCoUsageCount(t, k);
      PairCountPermutation(s, t, k);
    }
    forall k | k in CoUsageCount(s) ensures CoUsageCount(s)[k] == CoUsageCount(t)[k] {
      InCoUsageCount(s, k);
      InCoUsageCount(t, k);
      PairCountPermutation(s, t, k);
    }
  }

  /** Two records give the same dictionary in either order. */
  lemma SwapTwoRecords(r1: UsageRecord, r2: UsageRecord)
    ensures CoUsageCount([r1, r2]) == CoUsageCount([r2, r1])
  {
    CoUsageCountPermutation([r1, r2], [r2, r1]);
  }
}
