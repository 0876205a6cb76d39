# Recurring-transaction finder, modelled in Dafny

`finder.py` finds recurring transactions (rent, subscriptions, salaries) in a
list of bank transactions. It runs in three stages.

1. `calculate_distances` computes a Jaro-Winkler similarity for every unordered
   pair of transactions. It stores them in a dict keyed by the pair key
   made of the two uuids joined by a bar character, with the smaller uuid first.
2. `calculate_clusters` walks the keys in insertion order and calls
   `add_to_clusters` for each of the key's two transactions. That call scans
   the clusters in order, up to the first one that already holds the
   transaction. It adds the transaction to every cluster on the way whose
   members are all similar to it (similarity at least 0.85). If the
   transaction was neither found nor added anywhere, it becomes a new
   singleton cluster.
3. `find_sequences` sorts each cluster of four or more by date and walks it
   pairwise.
   - The interval into each transaction is compared with a window around the
     cluster's mean interval: at most the mean plus 3 days, at least the
     larger of the mean minus 3 days and 4 days.
   - An interval inside the window appends the previous transaction to a
     tentative run.
   - An interval outside it either stores the tentative run or drops it. A
     run of four or more is stored as a `Sequence` and the mean restarts on
     the rest of the cluster; a shorter one is dropped.
   - A final tentative run of four or more is stored at the end.

The model follows that code module by module:

| file | module | what it holds |
|---|---|---|
| `base.dfy` | `Base` | `Option`, and `OrderedMap`, an insertion-ordered dict standing for Python's `dict` |
| `transactions.dfy` | `Transactions` | the transaction value, `get_pair_key` and its inverse `get_transactions_from_key` (with `str.split`), and `get_mean_interval` as a loop proved against the mean of the day intervals |
| `sequences.dfy` | `Sequences` | the `Sequence` value: its uuid-keyed dict and `get_other_transactions` |
| `distances.dfy` | `Distances` | the distance table `calculate_distances` builds, as a function of the pairs visited in loop order, with its properties |
| `loops.dfy` | `DistanceLoops` | the nested loops of `calculate_distances`, as methods proved against that function |
| `clustering.dfy` | `Clustering` | the greedy complete-linkage step of `add_to_clusters` and the invariant it keeps |
| `segmenter.dfy` | `Segmenter` | the pairwise walk of one sorted cluster as a step function, its properties, worked examples and the date sort |
| `finder.dfy` | `Finder` | the class `SequenceFinder`: its fields and the methods that update them |

Python exceptions that the code raises or catches are results:
- `KeyError` of a missing distance or uuid: `ok == false` or `None`.
- `ValueError` of a key that does not split in two: `None`.
- `StatisticsError` of a mean over a one-transaction remainder: a failed walk.

Where the code differs from its evident intent, the model follows the code:

- **The `transactions_seen` guard in `calculate_clusters` never fires.** It
  looks transactions up by uuid but records them by object. So
  `add_to_clusters` runs for both transactions of every key.
  `SkippingSeenChangesNothing` shows that skipping every transaction met
  before, however many other calls came in between, would give the same
  clusters.
- **The last transaction of a cluster never joins a run.** Only the
  predecessor is appended, so a run needs a fifth transaction after it
  (`ShortClusterYieldsNothing`, `FiveMonthly`).
- **A run stored at the next-to-last transaction ends the whole pass.**
  `get_mean_interval(cluster_transactions[idx:])` is then the mean of a single
  transaction and raises `StatisticsError`. This ends `find_sequences`
  (`SegmentFailsOnlyAtTheEnd`, `BrokenAtTheLast`, `SegmentAllAborts`).

## Model

| member | source | states |
|---|---|---|
| Base.OrderedMap.Put | finder.py:36-38 | assigning a key keeps the dict well formed, an existing key keeps its place, a new key goes last; the distance table is written the same way at line 179 |
| Transactions.LexLessAsymmetric | finder.py:65 | Python's string order, used to sort the two uuids, is asymmetric |
| Transactions.LexLessTotal | finder.py:65 | two different uuids are always ordered one way or the other |
| Transactions.PairKey | finder.py:63-67 | the key is one of the two uuids, the separator and the other uuid |
| Transactions.PairKeySymmetric | finder.py:63-67 | the pair key does not depend on the order of the two transactions |
| Transactions.PairKeySorted | finder.py:63-67 | the key is the smaller uuid, the separator, then the larger, and names exactly the two uuids |
| Transactions.PairKeyInjective | finder.py:63-67 | with no separator in either uuid, equal keys name the same two uuids |
| Transactions.Split | finder.py:84 | `str.split` gives at least one piece, none holding the separator, and joining the pieces gives the string back |
| Transactions.SplitJoined | finder.py:84 | splitting `a`, separator, `b` gives back exactly `a` and `b` |
| Transactions.SplitWithout | finder.py:84 | a string without the separator is one piece |
| Transactions.Lookup | finder.py:85 | a uuid lookup finds a table entry with that uuid, and fails exactly when no entry has it (KeyError) |
| Transactions.LookupFinds | finder.py:85 | in a table of unique uuids every transaction is found by its uuid |
| Transactions.GetTransactionsFromKey | finder.py:83-85 | a resolved key names two table transactions and is their uuids joined by the separator |
| Transactions.GetTransactionsFromPairKey | finder.py:63-67 | round trip: the key of two table transactions resolves back to them, smaller uuid first |
| Transactions.Gaps | finder.py:75-80 | one day interval fewer than there are transactions |
| Transactions.GapsAt | finder.py:77-80 | interval k runs from transaction k to transaction k + 1 |
| Transactions.MeanInterval | finder.py:69-81 | the mean is absent exactly when there are fewer than two transactions (StatisticsError on no intervals) |
| Transactions.GapsTelescope | finder.py:75-81 | the intervals add up to the span from the first to the last date |
| Transactions.MeanIntervalOfGaps | finder.py:69-81 | the mean is the sum of the day intervals over their number |
| Transactions.GapsSnoc | finder.py:77-80 | one more transaction appends one interval |
| Transactions.GetMeanInterval | finder.py:69-81 | the loop that collects intervals and takes their mean yields the mean interval, or None where `statistics.mean` raises |
| Transactions.MeanIntervalFrom | finder.py:243 | the mean of the rest from position j is absent exactly when fewer than two transactions remain |
| Sequences.Index | finder.py:34-39 | the constructor's dict keys every entry by its own uuid and holds every given transaction's uuid |
| Sequences.IndexValuesFrom | finder.py:34-39 | every value of that dict is one of the given transactions |
| Sequences.IndexOfUnique | finder.py:34-39 | with unique uuids the dict holds exactly the transactions, in the given order |
| Sequences.PutNewAppends | finder.py:38 | storing a new uuid appends its transaction to the dict's values |
| Sequences.NewSequence | finder.py:34-39 | a new Sequence is uuid-keyed, holds every member, keeps the frequency, and lists the members in order when their uuids are unique |
| Sequences.GetOtherTransactions | finder.py:41-51 | a non-member gets the empty list (KeyError caught); a member gets the values before and after its own, in dict order |
| Sequences.OthersOfRemovesOne | finder.py:49 | the comprehension that skips one key leaves the values before and after it |
| Sequences.OtherTransactionsOfMember | finder.py:41-51 | a member gets one fewer than the size back: exactly the other members |
| Sequences.RemovedAtMembers | finder.py:49 | leaving out position i keeps exactly the values whose uuid is not the i-th key |
| Sequences.RemovedAtSound | finder.py:49 | everything left is a value of the dict with another uuid |
| Sequences.RemovedAtComplete | finder.py:49 | every value with another uuid is left |
| Distances.IndexPairs | finder.py:164-172 | the pairs met in the first i rows are ordered positions below n, each starting in an earlier row |
| Distances.PairIndexed | finder.py:164-172 | the loops meet every unordered pair (a, b) whose row a has been visited |
| Distances.IndexPairsDistinct | finder.py:164-172 | the loops meet each unordered pair once |
| Distances.RecordEntry | finder.py:172-179 | after one pass the pair has an entry; a present key leaves the dict as it was; a new key goes last, holds the similarity of the two descriptions, and every other entry keeps its value |
| Distances.FilledGrows | finder.py:173-179 | filling only adds keys: the key set grows by the pair keys, old entries keep their value and place |
| Distances.FilledFirstWins | finder.py:173-179 | a pair's entry holds the similarity computed where its key was first met |
| Distances.PairKeysDistinct | finder.py:63-67 | with unique uuids free of the separator, distinct position pairs have distinct keys |
| Distances.DistanceTable | finder.py:160-180 | from an empty dict: exactly one key per unordered pair, in loop order, each holding the similarity of the pair's descriptions |
| Distances.PairInTable | finder.py:160-180 | from an empty dict each pair (a, b) has the similarity of its descriptions |
| Distances.FreshKeysAppend | finder.py:173-179 | over distinct pairs each key is new, so the dict's keys are the pairs' keys in order |
| Distances.GetDistance | finder.py:87-88 | a distance is found exactly when the pair key is in the table |
| Distances.GetDistanceSymmetric | finder.py:87-88 | the distance of (t1, t2) is that of (t2, t1) |
| Distances.GetDistanceInTable | finder.py:87-88 | in the computed table the distance of two different entries is the similarity of their descriptions, in table order |
| Distances.KeyRecorded | finder.py:172-179 | every visited pair has an entry afterwards |
| Distances.FilledCovers | finder.py:160-180 | after the loops every two different transactions have a distance, in either order |
| Distances.PairCovered | finder.py:160-180 | one such pair has a distance |
| Distances.FilledResolvable | finder.py:160-180 | if every earlier key named two table transactions, so does every key afterwards |
| Distances.KeyResolves | finder.py:172 | every key the loops add names two table transactions |
| DistanceLoops.LoopPairs | finder.py:164-165 | the pairs recorded part way through row i are ordered positions of the table |
| DistanceLoops.LoopStep | finder.py:165-179 | the next column right of the diagonal records the pair (i, j) |
| DistanceLoops.VisitEntry | finder.py:169-179 | a pass over two transactions with one uuid leaves the table as it was; any other pass leaves their key in it and keeps every earlier entry and the table well formed |
| DistanceLoops.VisitStep | finder.py:165-180 | one pass of the inner body: a column left of the diagonal finds its key already there, the diagonal is skipped (same uuid), a column right of it records its pair |
| DistanceLoops.LoopEarlierRow | finder.py:173-175 | the pair (j, i) met in an earlier row is already in the table under the key of (i, j) |
| DistanceLoops.FillDistances | finder.py:164-180 | the nested loops leave the table filled pair by pair in loop order |
| DistanceLoops.FillRow | finder.py:165-180 | the inner loop for row i records row i's pairs on top of the earlier rows |
| Clustering.FirstHolding | finder.py:131-134 | the scan stops at the first cluster holding the transaction, and no earlier cluster holds it |
| Clustering.AddedTo | finder.py:125-147 | a call removes no cluster and makes at most one new one |
| Clustering.AddedToHolds | finder.py:125-147 | afterwards the transaction is in some cluster |
| Clustering.AddedToGrows | finder.py:125-147 | clusters only gain the transaction, so each stays in place with all its members, and at most one new cluster is made: the singleton, made only when none was found or joined |
| Clustering.GrownUpToGrows | finder.py:131-144 | part way through the scan every cluster is still in place with all its members |
| Clustering.AddedToKeepsLinkage | finder.py:125-147 | adding keeps complete linkage: any two distinct members of a cluster are similar enough |
| Clustering.AddedToIdempotent | finder.py:125-147 | calling `add_to_clusters` for the same transaction twice in a row changes nothing the second time |
| Clustering.AddedToSettles | finder.py:125-147 | afterwards the transaction is handled: a cluster holds it and no cluster the scan passes before the first one holding it is similar to it throughout |
| Clustering.SettledUnchanged | finder.py:125-147 | a call for a handled transaction changes nothing |
| Clustering.AddedToKeepsSettled | finder.py:125-147 | a handled transaction stays handled whatever transaction is added next |
| Clustering.AddedToKeepsClustered | finder.py:125-147 | a clustered transaction stays clustered |
| Clustering.AddAllClusters | finder.py:191-203 | after the calls every handed transaction is clustered, and everything clustered before still is |
| Clustering.AddAllKeepsLinkage | finder.py:191-203 | the calls keep complete linkage |
| Clustering.AddAll | finder.py:191-203 | the calls remove no cluster and make at most one new cluster per call |
| Clustering.AddAllGrows | finder.py:191-203 | the calls keep every cluster in place with all its members, and every member a cluster gains is one of the transactions handed on |
| Clustering.AddAllSettles | finder.py:191-203 | after the calls every transaction handed to them is handled |
| Clustering.SkippingSeenChangesNothing | finder.py:190-203 | skipping every transaction met before, as the `transactions_seen` guard is meant to, gives the same clusters as calling `add_to_clusters` every time, however many other calls come in between |
| Clustering.NamedBy | finder.py:191-203 | keys resolve exactly when none fails; then two transactions per key, those `get_transactions_from_key` gives, in key order |
| Clustering.GrownUpToKeepsLinkage | finder.py:131-144 | part way through the scan complete linkage holds too |
| Clustering.ScanEnds | finder.py:131-147 | the scan ends either at the first cluster holding the transaction, with no singleton, or past the last cluster, with a singleton exactly when no cluster was similar to it throughout |
| Clustering.GrownUpToWithin | finder.py:131-144 | part way through the scan the clusters still hold only transactions of the table |
| Clustering.AddedToWithin | finder.py:125-147 | adding a transaction of the table keeps every cluster member a transaction of the table |
| Clustering.LinkageKeptByLargerTable | finder.py:173-179 | adding distances with existing entries unchanged keeps complete linkage |
| Segmenter.WindowAround | finder.py:224-225 | the window's top is mean + 3 and its bottom the larger of mean - 3 and 4 |
| Segmenter.WalkTo | finder.py:227-253 | the tentative run is always shorter than the position reached |
| Segmenter.Step | finder.py:235-253 | one pass keeps every stored run and stores at most one more; a failed walk stays as it is |
| Segmenter.WalkExtends | finder.py:249-250 | an interval in the window appends the predecessor to the tentative run |
| Segmenter.WalkStores | finder.py:239-245 | an interval out of the window stores a run of four or more and restarts the mean on the rest |
| Segmenter.WalkStoresLast | finder.py:239-243 | when a single transaction remains the run is stored and the walk fails (StatisticsError) |
| Segmenter.WalkDrops | finder.py:246-248 | an interval out of the window drops a shorter run and keeps the mean |
| Segmenter.SegmentFlushes | finder.py:255-257 | at the end a tentative run of four or more is stored |
| Segmenter.SegmentEnds | finder.py:255-257 | at the end a shorter tentative run is not stored |
| Segmenter.AppendRun | finder.py:239-241 | a well-formed run starting after the others keeps the runs well formed and ordered |
| Segmenter.StepExtends | finder.py:249-250 | extending keeps the walk's shape invariant |
| Segmenter.StepStores | finder.py:239-245 | storing keeps the walk's shape invariant |
| Segmenter.StepDrops | finder.py:246-248 | dropping keeps the walk's shape invariant |
| Segmenter.WalkShape | finder.py:227-253 | at every position the walk's runs and tentative run have the shape of the invariant |
| Segmenter.StepKeepsShape | finder.py:229-253 | every pass of the loop keeps the shape invariant |
| Segmenter.SegmentShape | finder.py:219-257 | every stored run is a well-formed slice of the sorted cluster, and the runs come one after another |
| Segmenter.SegmentRunsLongEnough | finder.py:239-241 | every stored run has at least four members |
| Segmenter.SegmentRunsInWindow | finder.py:235-250 | each stored run is a slice of the sorted cluster, and each of its intervals, including the one into its closing transaction, is inside the window of its frequency |
| Segmenter.SegmentRunsDisjoint | finder.py:227-257 | stored runs do not overlap: each closes before the next begins |
| Segmenter.ShortClusterYieldsNothing | finder.py:229-257 | a cluster of at most four yields no sequence |
| Segmenter.SegmentFailsOnlyAtTheEnd | finder.py:239-243 | a walk fails only after storing a run closed at the next-to-last transaction whose interval into the last breaks the window |
| Segmenter.AppendFrequency | finder.py:241 | a run stored with the mean from the current origin keeps every frequency tied to its origin |
| Segmenter.StepFrequencies | finder.py:236-245 | one pass keeps the frequencies and the mean tied to where they were computed from |
| Segmenter.WalkToStep | finder.py:229-253 | the walk to j is one pass after the walk to j - 1 |
| Segmenter.WalkStartFrequencies | finder.py:223 | before the first pass the mean in effect is the one of the whole cluster |
| Segmenter.WalkFrequencies | finder.py:223-253 | at every position the frequencies and the mean are tied to their origins |
| Segmenter.SegmentTied | finder.py:223-257 | every stored run, the one stored at the end included, has the mean from its origin as its frequency |
| Segmenter.SegmentFrequencies | finder.py:223-243 | the first run's frequency is the mean of the whole cluster, each later one the mean of the transactions after the previous run's closing transaction |
| Segmenter.FiveMonthly | finder.py:219-257 | five transactions 30 days apart store one run of the first four, with frequency 30 |
| Segmenter.FiveMonthlyWalk | finder.py:229-253 | every interval of that example fits the window |
| Segmenter.BrokenAtTheLast | finder.py:236-243 | a run of four broken into the last transaction is stored and the walk fails |
| Segmenter.FourInWindow | finder.py:229-253 | the first four intervals of that example fit the window |
| Segmenter.ShortRunDropped | finder.py:236-248 | a run of three broken by a long interval is dropped, and nothing is stored |
| Segmenter.DroppedRunKeepsWindow | finder.py:236-257 | dropping a short run keeps the window: for dates 0, 10, 20, 30, 60, 70, 80, 90, 100, 110 the run of five after the gap is stored with the whole cluster's mean 110/9, not the mean 10 of what follows the gap |
| Segmenter.GapDropsRun | finder.py:236-250 | in that example the 30-day interval drops the run of three and keeps the mean |
| Segmenter.RunAfterGap | finder.py:249-253 | in that example the five intervals after the gap fit the unchanged window |
| Segmenter.SortByDate | finder.py:219 | the sorted cluster holds each member once, nothing else, in ascending date order |
| Segmenter.EarliestExists | finder.py:219 | a nonempty set of transactions has one with the earliest date |
| Finder.StoredOn | finder.py:90-99 | storing the runs adds one sequence per run |
| Finder.MapWith | finder.py:97-99 | storing runs never removes a uuid from the map |
| Finder.UuidMap | finder.py:97-99 | the update maps exactly the members' uuids, each to the new sequence |
| Finder.UpdateMapsMembers | finder.py:97-99 | after the update every member's uuid leads to the new sequence, and every other entry is as it was |
| Finder.StoredAppend | finder.py:90-99 | storing one more run appends its sequence and maps its members |
| Finder.StoreKeepsConsistent | finder.py:90-99 | storing keeps the store consistent: each sequence is uuid-keyed, each mapped uuid leads to a stored sequence holding it |
| Finder.StoredOnConcat | finder.py:215-257 | storing two batches of runs one after the other stores them all |
| Finder.MapWithConcat | finder.py:215-257 | the same for the uuid map |
| Finder.OrdersOfSnoc | finder.py:215-219 | the date order of the next cluster extends the orders of those before |
| Finder.SegmentAllSnoc | finder.py:215-257 | one more cluster is skipped when short, and its runs are appended otherwise |
| Finder.SegmentAllAborts | finder.py:243 | after a failed walk nothing more is stored: the remaining clusters are not visited |
| Finder.SegmentAllRuns | finder.py:215-257 | every stored run is a well-formed run of one of the walked clusters of four or more |
| Finder.KeyOfCovered | finder.py:138 | in a covering table any two different transactions have a distance |
| Finder.NamedByStep | finder.py:191-192 | resolving one more key extends the transactions handed on by its two |
| Finder.AddAllPair | finder.py:196-202 | the two transactions of a key are added one after the other |
| Finder.SequenceFinder.constructor | finder.py:56-61 | a finder with the loaded table and everything else empty is valid |
| Finder.SequenceFinder.StoreSequence | finder.py:90-99 | appends one new sequence, maps every member's uuid to it, and keeps the store consistent |
| Finder.SequenceFinder.GetRestOfSequence | finder.py:101-112 | None exactly for a uuid no sequence maps; otherwise exactly the other members of its sequence, one fewer than its size |
| Finder.SequenceFinder.CalculateDistances | finder.py:149-180 | the table is filled for every ordered pair; afterwards every two different transactions have a distance, clusters stay complete linkage, keys stay resolvable |
| Finder.SequenceFinder.AddToClusters | finder.py:125-147 | on success the clusters are `AddedTo` of the old ones; a missing distance leaves them grown up to the cluster it was missing in; with every distance present it succeeds; either way every cluster stays in place with all its members |
| Finder.SequenceFinder.SimilarToAll | finder.py:136-141 | over a cluster's members in any order: true exactly when the transaction is similar enough to all of them, None only when a distance is missing, and true whenever all are similar |
| Finder.SequenceFinder.CalculateClusters | finder.py:182-209 | on success the clusters are those the calls for both transactions of every key give, in key order; with resolvable keys and every distance present it succeeds; success or not, every earlier cluster stays in place with all its members |
| Finder.SequenceFinder.CloseRun | finder.py:239-243 | stores the tentative run and gives the mean of the rest of the cluster |
| Finder.SequenceFinder.WalkStep | finder.py:235-253 | one pass of the walk follows the step function and stores exactly the runs it closes; when the mean of the rest raises, the walk's result is final |
| Finder.SequenceFinder.WalkCluster | finder.py:221-257 | the walk of a sorted cluster stores exactly the runs `Segment` describes, and fails exactly when it does |
| Finder.SequenceFinder.FlushRun | finder.py:255-257 | at the end of the walk the final tentative run is stored exactly when it has four or more members, completing what `Segment` describes |
| Finder.SequenceFinder.VisitCluster | finder.py:216-257 | a short cluster is skipped; a long one is sorted by date and walked, and its runs are stored |
| Finder.SequenceFinder.FindSequences | finder.py:211-258 | every cluster is visited in order with its date order; what is stored is `SegmentAll` of those orders, and false exactly when a walk failed, which ends the pass |

## Left out

- Loading the transactions (`load_data`: JSON parsing, `strptime`, the md5 uuid). The constructor takes the loaded table, with unique uuids free of the separator, as an md5 hex digest is.
- The Jaro-Winkler similarity (`pyjarowinkler`) is a parameter `sim`, a function of the two descriptions; its values are not modelled.
- The file-loading branch of `calculate_distances`, which reads a JSON table instead of computing one.
- Progress output (`sys.stdout.write`, `print`) and `print_results`.
- The transaction amount and `__repr__`: nothing in the core reads them.
- Segmenter.SortByDate: ties between equal dates are broken in an unspecified order, because Python keeps the set's iteration order, which the model does not fix. The date orders in `FindSequences` are therefore ghost.
- Means are exact reals. Python's floats could round a mean, but the model does not capture that rounding.
- Finder.SequenceFinder.AddToClusters and FindSequences: after a failure they state only what the code computed up to the exception. The rest of the object's state is whatever the exception left.
- Finder.SequenceFinder.CalculateClusters: after a failure it states only that every earlier cluster is still in place with all its members. It does not say which calls ran before the exception.
- Finder.SequenceFinder.CalculateDistances fills a local table and assigns it at the end. Python updates `self.distances` entry by entry; the final value is the same.
- Clusters are sets of transaction values. The model does not capture Python's object identity of set members, nor the aliasing through `for cluster in self.clusters`.
- Finder.SequenceFinder.WalkStep, CloseRun, FlushRun, VisitCluster, SimilarToAll and DistanceLoops.FillRow are pieces of `find_sequences`, `add_to_clusters` and `calculate_distances`, split out as methods of their own. They are not separate functions in the code.
- Transactions.MeanInterval is stated as the span from first to last date over the number of intervals. `GetMeanInterval` computes it from the intervals, and `MeanIntervalOfGaps` ties the two together.
- A skipped cluster (fewer than four members) is given the empty date order in `FindSequences`, since the code never sorts it.
