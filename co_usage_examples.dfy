/**
  Concrete inputs traced through the model. Timestamps are minutes since
  midnight: 9:00 is 540, 10:00 is 600.
 */
module CoUsageExamples {
  import opened CoUsageSpec
  import opened Analytics

  lemma PairCountAppend(s: seq<UsageRecord>, r: UsageRecord, k: DevicePair)
    ensures PairCount(s + [r], k) == PairCount(s, k) + HitsBefore(s, r, k)
  {
    assert (s + [r])[..|s|] == s;
  }

  lemma HitsBeforeAppend(s: seq<UsageRecord>, r0: UsageRecord, r: UsageRecord, k: DevicePair)
    ensures HitsBefore(s + [r0], r, k) == HitsBefore(s, r, k) + (if Hit(r0, r, k) then 1 else 0)
  {
    assert (s + [r0])[..|s|] == s;
  }

  lemma TwoRecordsKeys(r1: UsageRecord, r2: UsageRecord)
    ensures CountedKeys([r1, r2]) == if CoUsed(r1, r2) then {SortedPair(r1.deviceId, r2.deviceId)} else {}
  {
    var s := [r1, r2];
    forall x | x in CountedKeys(s) ensures x == SortedPair(r1.deviceId, r2.deviceId) && CoUsed(r1, r2) { }
    if CoUsed(r1, r2) {
      assert SortedPair(r1.deviceId, r2.deviceId) in CountedKeys(s) by { assert CoUsed(s[0], s[1]); }
    }
  }

  /** Two records of different devices give one entry with count one, or
      nothing. */
  lemma TwoRecords(r1: UsageRecord, r2: UsageRecord)
    ensures CoUsed(r1, r2) ==> CoUsageCount([r1, r2]) == map[SortedPair(r1.deviceId, r2.deviceId) := 1]
    ensures !CoUsed(r1, r2) ==> CoUsageCount([r1, r2]) == map[]
  {
    var k := SortedPair(r1.deviceId, r2.deviceId);
    TwoRecordsKeys(r1, r2);
    assert [r1] + [r2] == [r1, r2] && [] + [r1] == [r1];
    PairCountAppend([r1], r2, k);
    PairCountAppend([], r1, k);
    HitsBeforeAppend([], r1, r2, k);
  }

  /** Intervals that only touch at an endpoint are counted, in either order. */
  lemma TouchingIntervalsCount(r1: UsageRecord, r2: UsageRecord)
    requires r1.deviceId != r2.deviceId
    requires r1.startTime <= r1.endTime && r2.startTime <= r2.endTime
    requires r1.startTime == r2.endTime || r1.endTime == r2.startTime
    ensures CoUsageCount([r1, r2]) == CoUsageCount([r2, r1]) == map[SortedPair(r1.deviceId, r2.deviceId) := 1]
  {
    TwoRecords(r1, r2);
    TwoRecords(r2, r1);
  }

  /** No rows, no entries. */
  lemma EmptyInput()
    ensures CoUsageCount([]) == map[]
  {
    EmptyIffNoCoUsage([]);
  }

  /** Records of a single device are never paired. */
  lemma OneDevice(s: seq<UsageRecord>, d: int)
    requires forall i :: 0 <= i < |s| ==> s[i].deviceId == d
    ensures CoUsageCount(s) == map[]
  {
    EmptyIffNoCoUsage(s);
  }

  /** Device 1 from 9:00 to 10:00 and device 2 from 10:01 to 11:00 are not
      used together. */
  lemma DisjointIntervals()
    ensures CoUsageCount([UsageRecord(1, 540, 600), UsageRecord(2, 601, 660)]) == map[]
  {
    TwoRecords(UsageRecord(1, 540, 600), UsageRecord(2, 601, 660));
  }

  /** The rows of the worked example: device 1 at 9:00-10:00 and
      9:50-10:30, device 2 at 9:30-9:45 and 10:15-10:45. */
  function Scenario(): seq<UsageRecord>
  {
    [UsageRecord(1, 540, 600), UsageRecord(2, 570, 585), UsageRecord(1, 590, 630), UsageRecord(2, 615, 645)]
  }

  lemma ScenarioKeys()
    ensures CountedKeys(Scenario()) == {(1, 2)}
  {
    var s := Scenario();
    forall x | x in CountedKeys(s) ensures x == (1, 2) { }
    assert (1, 2) in CountedKeys(s) by { assert CoUsed(s[0], s[1]); }
  }

  /** Of the six pairs of positions, (0, 1) and (2, 3) are counted:
      (0, 3) and (1, 2) do not overlap, and (0, 2) and (1, 3) are each one device. */
  lemma ScenarioPairCount()
    ensures PairCount(Scenario(), (1, 2)) == 2
  {
    var s := Scenario();
    var a, b, c, d := s[0], s[1], s[2], s[3];
    assert s == [a, b, c] + [d] && [a, b, c] == [a, b] + [c] && [a, b] == [a] + [b] && [a] == [] + [a];
    PairCountAppend([], a, (1, 2));
    PairCountAppend([a], b, (1, 2));
    HitsBeforeAppend([], a, b, (1, 2));
    assert PairCount([a, b], (1, 2)) == 1;
    PairCountAppend([a, b], c, (1, 2));
    HitsBeforeAppend([a], b, c, (1, 2));
    HitsBeforeAppend([], a, c, (1, 2));
    assert PairCount([a, b, c], (1, 2)) == 1;
    PairCountAppend([a, b, c], d, (1, 2));
    HitsBeforeAppend([a, b], c, d, (1, 2));
    HitsBeforeAppend([a], b, d, (1, 2));
    HitsBeforeAppend([], a, d, (1, 2));
  }

  /** Only positions (0, 1) and (2, 3) overlap across devices, so the pair
      (1, 2) is counted twice. */
  lemma ScenarioCounts()
    ensures CoUsageCount(Scenario()) == map[(1, 2) := 2]
  {
    ScenarioKeys();
    ScenarioPairCount();
  }

  /** Device 1 at 9:00-10:00, and two copies of device 2 at 9:30-9:45. */
  function Duplicated(): seq<UsageRecord>
  {
    [UsageRecord(1, 540, 600), UsageRecord(2, 570, 585), UsageRecord(2, 570, 585)]
  }

  lemma DuplicatedKeys()
    ensures CountedKeys(Duplicated()) == {(1, 2)}
  {
    var s := Duplicated();
    forall x | x in CountedKeys(s) ensures x == (1, 2) { }
    assert (1, 2) in CountedKeys(s) by { assert CoUsed(s[0], s[1]); }
  }

  lemma DuplicatedPairCount()
    ensures PairCount(Duplicated(), (1, 2)) == 2
  {
    var s := Duplicated();
    var a, b := s[0], s[1];
    assert s == [a, b] + [b] && [a, b] == [a] + [b] && [a] == [] + [a];
    PairCountAppend([], a, (1, 2));
    PairCountAppend([a], b, (1, 2));
    HitsBeforeAppend([], a, b, (1, 2));
    assert PairCount([a, b], (1, 2)) == 1;
    PairCountAppend([a, b], b, (1, 2));
    HitsBeforeAppend([a], b, b, (1, 2));
  }

  /** The duplicated record of device 2 is compared with the device-1
      record once per copy; the two copies are not paired with each other. */
  lemma DuplicateRecord()
    ensures CoUsageCount(Duplicated()) == map[(1, 2) := 2]
  {
    DuplicatedKeys();
    DuplicatedPairCount();
  }

  /** The endpoint on the worked example draws one bar of height two. */
  method ScenarioReply() returns (reply: CoUsageReply)
    ensures reply == PairCounts(map[(1, 2) := 2])
  {
    var s := Scenario();
    reply := CoUsage(s);
    ScenarioCounts();
    assert CoUsed(s[0], s[1]);
  }
}
