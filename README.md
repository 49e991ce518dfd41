# Co-usage counter of the smart-home analytics backend

The smart-home backend records device usage sessions. Each session is a
usage record with a device id, a start time and an end time. The endpoint
`/analytics/co-usage` takes all records of one user's devices and counts,
for every pair of devices, how many pairs of sessions of the two devices
overlap in time. It then draws the counts as a bar chart.

This project models the counting part of that endpoint:

- `CoUsageSpec` defines a usage record and the co-usage relation. Two
  rows are co-used when their devices differ and their closed intervals
  overlap. The module also gives the reference count of a device pair
  (`PairCount`), the set of index pairs behind it (`Positions`) and the
  dictionary the endpoint builds (`CoUsageCount`). It proves how these
  relate to one another.
- `Analytics` models the endpoint itself. `CountCoUsage` is the nested
  scan that fills the dictionary in place, with two nested loops over all
  rows. `CoUsage` chooses between the "no data" reply, the "no co-usage
  data" reply and the counts.
- `CoUsagePermutation` proves that reordering the rows leaves the
  dictionary unchanged.
- `CoUsageBound` proves that the counts add up to the number of co-used
  pairs of positions. That total is at most N·(N−1)/2.
- `CoUsageExamples` works through concrete inputs: touching intervals,
  disjoint intervals, one device, a duplicated record, and a four-session
  worked example.

Device ids and timestamps are integers. The code only compares timestamps
with `<=` and `>=`, so any order-preserving encoding will do. A record's
position in the sequence is its data-frame row label (the default range
index 0, 1, 2, ...). Inverted intervals, where the end comes before the
start, are accepted and compared as given, just as the code does.

## Model

| member | source | states |
|---|---|---|
| CoUsageSpec.SortedPair | main.py:153 | the key holds the two device ids in ascending order, whichever order they were given in |
| CoUsageSpec.CoUsageCount | main.py:151-153 | no key pairs a device with itself, and every key is canonical (first id strictly below the second) |
| CoUsageSpec.ColumnCount | main.py:150-154 | the number of earlier rows that form a counted pair with a given later row equals the size of the set of those positions |
| CoUsageSpec.PositionsSplit | main.py:149-151 | the counted pairs of positions of a sequence are those of all but its last row, plus, disjointly, those whose later position is the last row |
| CoUsageSpec.PairCountIsPositions | main.py:149-154 | the reference count of a key is the number of position pairs i < j of different devices whose intervals overlap and whose sorted ids are that key; duplicates are counted independently |
| CoUsageSpec.CoUsageCountIsPositions | main.py:149-154 | a key is in the dictionary exactly when some pair of positions i < j produces it, and then its value is the number of such pairs, at least one |
| CoUsageSpec.InCoUsageCount | main.py:154 | a key is present exactly when its reference count is positive, and then holds that count |
| CoUsageSpec.CountsDetermineMap | main.py:148-154 | any dictionary that holds, for every key, the number of its position pairs (absent meaning zero), and that has no zero entries, is the co-usage dictionary |
| CoUsageSpec.CountsArePositive | main.py:154 | every value in the dictionary is at least one; never-overlapping pairs are absent |
| CoUsageSpec.EmptyIffNoCoUsage | main.py:151-156 | the dictionary is empty if and only if no pair of positions i < j holds two different devices with overlapping intervals |
| Analytics.CountCoUsage | main.py:148-154 | the nested scan over all (i, j) leaves, for every key, `get(key, 0)` equal to the number of that key's position pairs, and it creates no zero entries |
| Analytics.VisitPair | main.py:149-151 | testing row i against row j adds at most the pair (i, j) to the pairs already visited |
| Analytics.VisitHit | main.py:152-154 | a counted pair adds one to the entry of its sorted key, starting from zero when the key is missing, and leaves every other entry as it was |
| Analytics.VisitMiss | main.py:151-152 | a pair with i >= j, the same device, or disjoint intervals changes no entry |
| Analytics.NextRow | main.py:149-150 | finishing the inner scan of row i is the starting state of row i + 1 |
| Analytics.NothingVisited | main.py:148 | the empty dictionary is the right count before any pair is tested |
| Analytics.VisitedAll | main.py:149-150 | after the last row, the visited pairs are all the counted pairs |
| Analytics.AllVisited | main.py:149-154 | once all rows are scanned, each entry is the full count of its key |
| Analytics.CoUsage | main.py:140-156 | no records gives "no data"; records without a co-used pair give "no co-usage data"; otherwise the reply is the co-usage dictionary, which is then non-empty |
| CoUsagePermutation.HitSymmetric | main.py:151-153 | swapping the two rows of a pair does not change whether it is counted, or under which key |
| CoUsagePermutation.HitsBeforeRemoveAt | main.py:149-154 | taking a row out of the earlier rows removes exactly its own contribution to the count against a later row |
| CoUsagePermutation.PairCountRemoveAt | main.py:149-154 | taking a row out removes exactly the pairs it forms with the remaining rows |
| CoUsagePermutation.PairCountPermutation | main.py:149-154 | the count of a key is the same for any reordering of the rows |
| CoUsagePermutation.CoUsageCountPermutation | main.py:149-154 | the whole dictionary is the same for any reordering of the rows |
| CoUsagePermutation.SwapTwoRecords | main.py:152-153 | two records give the same dictionary in either order |
| CoUsageBound.SumIsCountedPositions | main.py:149-154 | summing entries that each hold their key's number of position pairs gives the number of position pairs of those keys taken together |
| CoUsageBound.AllPairsSize | main.py:149-151 | among n rows there are n·(n−1)/2 pairs of positions i < j |
| CoUsageBound.CountsArePositions | main.py:149-154 | every value of the dictionary is the number of position pairs of its key |
| CoUsageBound.TotalIsCoUsedPairs | main.py:149-154 | the values add up to the number of position pairs i < j holding two different devices with overlapping intervals |
| CoUsageBound.TotalBound | main.py:149-151 | the values add up to at most N·(N−1)/2 for N records |
| CoUsageExamples.TwoRecords | main.py:149-154 | two co-used records give exactly one entry, with value one; otherwise there is no entry |
| CoUsageExamples.TouchingIntervalsCount | main.py:152 | intervals that only touch at an endpoint are counted once, in either order |
| CoUsageExamples.EmptyInput | main.py:148-156 | no rows give the empty dictionary |
| CoUsageExamples.OneDevice | main.py:151 | records of a single device never produce an entry |
| CoUsageExamples.DisjointIntervals | main.py:152 | device 1 at 9:00-10:00 and device 2 at 10:01-11:00 give the empty dictionary |
| CoUsageExamples.ScenarioCounts | main.py:149-154 | the four-session worked example gives `{(1, 2): 2}` |
| CoUsageExamples.DuplicateRecord | main.py:149-154 | a duplicated record is paired with the other device once per copy, and the copies are not paired with each other |
| CoUsageExamples.ScenarioReply | main.py:148-156 | the endpoint replies to the worked example with the counts `{(1, 2): 2}` |

## Left out

- Database access is not modelled: the session lifecycle, the query that joins usage records to the user's devices, and all CRUD endpoints (main.py:15-112). The queried records are the method's parameter.
- `usage_frequency` and `house_size_impact` (main.py:115-136, 170-193) are not modelled: they compute floating-point durations and draw plots with pandas and matplotlib.
- Chart rendering, PNG encoding and base64 output (main.py:157-168) are not modelled. The reply carries the dictionary the chart is drawn from. The `"{a}&{b}"` labels and their order depend on dictionary iteration order, so they are left out too.
- The reply messages "无数据" ("no data") and "无联动数据" ("no co-usage data") become the constructors `NoData` and `NoCoUsage`, not strings.
- Timestamp parsing with `pd.to_datetime` (main.py:67-68) is a library call. Timestamps are integers that keep only the order of `DateTime` values.
- A NULL `device_id` never reaches the scan: the query's inner join with the devices table (main.py:140) drops such records. A NULL `start_time` or `end_time` (models.py:27-28) becomes NaT when other records hold a time in that column. Every comparison with NaT on main.py:152 is false, so that row is never counted. If every record is NULL in the column, the column holds `None`, and the comparison on main.py:152 raises TypeError once two records of different devices are compared. The model's timestamps are plain integers, so neither case is represented.
- Analytics.CountCoUsage: its contract says, per key, that the entry holds the number of position pairs and that there are no zero entries. Equality with `CoUsageSpec.CoUsageCount` follows from `CoUsageSpec.CountsDetermineMap`, which `Analytics.CoUsage` applies. The method's own postcondition does not name the dictionary function.
- The data frame is built from a list (main.py:143), so its row labels are the default range index and a row's label is its position.
