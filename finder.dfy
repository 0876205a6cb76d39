/** The detector itself (finder.py, class `SequenceFinder`): the loaded
    transactions, the distance table, the clusters and the stored
    sequences, with the stages that fill them in turn. */
module Finder {
  import opened Base
  import opened Transactions
  import opened Sequences
  import opened Distances
  import opened DistanceLoops
  import opened Clustering
  import opened Segmenter

  /** `self.sequences` after `store_sequence` has stored the runs, in
      order, on top of the list `s`. */
  function StoredOn(s: seq<Sequence>, runs: seq<Run>): (r: seq<Sequence>)
    ensures |r| == |s| + |runs|
    decreases |runs|
  {
    if |runs| == 0 then s
    else
      var last := runs[|runs| - 1];
      StoredOn(s, runs[..|runs| - 1]) + [NewSequence(last.members, last.frequency)]
  }

  /** `{t.uuid: seq for t in transactions}` */
  function UuidMap(ts: seq<Transaction>, s: Sequence): (m: map<string, Sequence>)
    ensures forall u :: u in m <==> exists i :: 0 <= i < |ts| && ts[i].uuid == u
    ensures forall u :: u in m ==> m[u] == s
  {
    map t | t in ts :: t.uuid := s
  }

  /** `sequences_map.update(...)`: every member's uuid is mapped to the new
      sequence, every other entry is left as it was. */
  lemma UpdateMapsMembers(m: map<string, Sequence>, ts: seq<Transaction>, s: Sequence)
    ensures forall i :: 0 <= i < |ts| ==> ts[i].uuid in m + UuidMap(ts, s) && (m + UuidMap(ts, s))[ts[i].uuid] == s
    ensures forall u :: u !in UuidMap(ts, s) ==> (u in m + UuidMap(ts, s) <==> u in m)
    ensures forall u :: u in m && u !in UuidMap(ts, s) ==> (m + UuidMap(ts, s))[u] == m[u]
    ensures forall u :: u in UuidMap(ts, s) <==> exists i :: 0 <= i < |ts| && ts[i].uuid == u
  {
  }

  /** Storing one more run appends its sequence and maps its members. */
  lemma StoredAppend(s: seq<Sequence>, m: map<string, Sequence>, runs: seq<Run>, r: Run)
    ensures StoredOn(s, runs + [r]) == StoredOn(s, runs) + [NewSequence(r.members, r.frequency)]
    ensures MapWith(m, runs + [r]) == MapWith(m, runs) + UuidMap(r.members, NewSequence(r.members, r.frequency))
  {
    assert (runs + [r])[..|runs|] == runs;
  }

  /** Each sequence keys its transactions by uuid, and each mapped uuid
      leads to one of the sequences, which holds it. */
  ghost predicate Consistent(sequences: seq<Sequence>, m: map<string, Sequence>) {
    && (forall i :: 0 <= i < |sequences| ==> WellKeyed(sequences[i].transactions))
    && (forall u :: u in m ==> m[u] in sequences && u in m[u].transactions.values)
  }

  /** Storing a sequence keeps the store consistent. */
  lemma StoreKeepsConsistent(sequences: seq<Sequence>, m: map<string, Sequence>, ts: seq<Transaction>, frequency: real)
    requires Consistent(sequences, m)
    ensures var s := NewSequence(ts, frequency);
            Consistent(sequences + [s], m + UuidMap(ts, s))
  {
    var s := NewSequence(ts, frequency);
    var added := UuidMap(ts, s);
    var m' := m + added;
    forall u | u in m' ensures m'[u] in sequences + [s] && u in m'[u].transactions.values {
      if u in added {
        var i :| 0 <= i < |ts| && ts[i].uuid == u;
      } else {
        assert m'[u] == m[u];
      }
    }
  }

  /** `sequences_map` after storing the runs in order. */
  function MapWith(m: map<string, Sequence>, runs: seq<Run>): (r: map<string, Sequence>)
    ensures forall u :: u in m ==> u in r
    decreases |runs|
  {
    if |runs| == 0 then m
    else
      var last := runs[|runs| - 1];
      MapWith(m, runs[..|runs| - 1]) + UuidMap(last.members, NewSequence(last.members, last.frequency))
  }

  /** Storing two batches of runs one after the other stores them all. */
  lemma {:induction false} StoredOnConcat(s: seq<Sequence>, a: seq<Run>, b: seq<Run>)
    ensures StoredOn(s, a + b) == StoredOn(StoredOn(s, a), b)
    decreases |b|
  {
    if |b| == 0 {
      assert a + b == a;
    } else {
      var init := b[..|b| - 1];
      StoredOnConcat(s, a, init);
      assert (a + b)[..|a + b| - 1] == a + init && (a + b)[|a + b| - 1] == b[|b| - 1];
    }
  }

  /** The same for the uuid map. */
  lemma {:induction false} MapWithConcat(m: map<string, Sequence>, a: seq<Run>, b: seq<Run>)
    ensures MapWith(m, a + b) == MapWith(MapWith(m, a), b)
    decreases |b|
  {
    if |b| == 0 {
      assert a + b == a;
    } else {
      var init := b[..|b| - 1];
      MapWithConcat(m, a, init);
      assert (a + b)[..|a + b| - 1] == a + init && (a + b)[|a + b| - 1] == b[|b| - 1];
    }
  }

  // ---------------------------------------------------------------------
  // All clusters

  /** The date order `find_sequences` walks a cluster in: its members, each
      once, by ascending date; a cluster of fewer than four is skipped and
      is given the empty order. */
  ghost predicate SortedOrder(order: seq<Transaction>, cluster: set<Transaction>) {
    if |cluster| < MinLength then order == []
    else
      && |order| == |cluster|
      && (forall t :: t in order <==> t in cluster)
      && DateSorted(order)
  }

  /** The date orders of the first |orders| clusters. */
  ghost predicate OrdersOf(orders: seq<seq<Transaction>>, clusters: seq<set<Transaction>>) {
    |orders| <= |clusters| && forall k :: 0 <= k < |orders| ==> SortedOrder(orders[k], clusters[k])
  }

  /** The order of the next cluster extends them. */
  lemma OrdersOfSnoc(orders: seq<seq<Transaction>>, clusters: seq<set<Transaction>>, order: seq<Transaction>)
    requires OrdersOf(orders, clusters) && |orders| < |clusters| && SortedOrder(order, clusters[|orders|])
    ensures OrdersOf(orders + [order], clusters)
  {
    var more := orders + [order];
    forall k | 0 <= k < |more| ensures SortedOrder(more[k], clusters[k]) {
      if k < |orders| {
        assert more[k] == orders[k];
      }
    }
  }

  /** What `find_sequences` stores, given the date order of each cluster in
      turn: the runs of every cluster of four or more, one cluster after
      the other, until a walk fails, whose StatisticsError ends the pass. */
  function SegmentAll(orders: seq<seq<Transaction>>): Segmentation
    decreases |orders|
  {
    if |orders| == 0 then Segmentation([], true)
    else
      var before := SegmentAll(orders[..|orders| - 1]);
      var sorted := orders[|orders| - 1];
      if !before.completed || |sorted| < MinLength then before
      else
        var s := Segment(sorted);
        Segmentation(before.runs + s.runs, s.completed)
  }

  /** One more cluster: skipped when short, its runs appended otherwise. */
  lemma SegmentAllSnoc(orders: seq<seq<Transaction>>, sorted: seq<Transaction>)
    requires SegmentAll(orders).completed
    ensures |sorted| < MinLength ==> SegmentAll(orders + [sorted]) == SegmentAll(orders)
    ensures |sorted| >= MinLength ==>
              SegmentAll(orders + [sorted]) == Segmentation(SegmentAll(orders).runs + Segment(sorted).runs, Segment(sorted).completed)
  {
    assert (orders + [sorted])[..|orders|] == orders;
  }

  /** After a failed walk nothing more is stored: the exception leaves the
      remaining clusters unvisited. */
  lemma {:induction false} SegmentAllAborts(orders: seq<seq<Transaction>>, more: seq<seq<Transaction>>)
    requires !SegmentAll(orders).completed
    ensures SegmentAll(orders + more) == SegmentAll(orders)
    decreases |more|
  {
    if |more| == 0 {
      assert orders + more == orders;
    } else {
      var init := more[..|more| - 1];
      SegmentAllAborts(orders, init);
      assert (orders + more)[..|orders + more| - 1] == orders + init;
    }
  }

  /** Every stored run is a well-formed run (see RunOk) of one of the
      walked clusters: at least four members in date order, a slice of
      that cluster, every interval within the window of its frequency. */
  lemma {:induction false} SegmentAllRuns(orders: seq<seq<Transaction>>, r: Run)
    requires r in SegmentAll(orders).runs
    ensures exists k :: 0 <= k < |orders| && |orders[k]| >= MinLength && RunOk(orders[k], r)
    decreases |orders|
  {
    var init := orders[..|orders| - 1];
    var sorted := orders[|orders| - 1];
    var before := SegmentAll(init);
    if r in before.runs {
      SegmentAllRuns(init, r);
      var k :| 0 <= k < |init| && |init[k]| >= MinLength && RunOk(init[k], r);
      assert orders[k] == init[k];
    } else {
      SegmentShape(sorted);
      var i :| 0 <= i < |Segment(sorted).runs| && Segment(sorted).runs[i] == r;
      assert RunOk(sorted, r);
    }
  }

  /** Every two different transactions of `ts` have an entry in `d`. */
  ghost predicate CoveredBy(ts: seq<Transaction>, d: map<string, real>) {
    forall a, b :: 0 <= a < |ts| && 0 <= b < |ts| && a != b ==> PairKey(ts[a], ts[b]) in d
  }

  /** In a covering table, two different transactions of `ts` have an entry. */
  lemma KeyOfCovered(ts: seq<Transaction>, d: map<string, real>, t: Transaction, u: Transaction)
    ensures CoveredBy(ts, d) && t in ts && u in ts && t != u ==> PairKey(t, u) in d
  {
    if CoveredBy(ts, d) && t in ts && u in ts && t != u {
      var a :| 0 <= a < |ts| && ts[a] == t;
      var b :| 0 <= b < |ts| && ts[b] == u;
    }
  }

  /** Resolving one more key extends what the keys name by its two
      transactions. */
  lemma NamedByStep(table: seq<Transaction>, keys: seq<string>, k: nat, named: seq<Transaction>)
    requires k < |keys| && NamedBy(table, keys[..k]) == Some(named)
    requires GetTransactionsFromKey(table, keys[k]).Some?
    ensures var (t1, t2) := GetTransactionsFromKey(table, keys[k]).value;
            NamedBy(table, keys[..k + 1]) == Some(named + [t1, t2])
  {
    assert keys[..k + 1][..k] == keys[..k];
  }

  /** Adding the two transactions of a key one after the other. */
  lemma AddAllPair(clusters: seq<set<Transaction>>, d: map<string, real>, named: seq<Transaction>, t1: Transaction, t2: Transaction)
    ensures AddAll(clusters, d, named + [t1, t2]) == AddedTo(AddedTo(AddAll(clusters, d, named), d, t1), d, t2)
  {
    var once := named + [t1];
    var twice := named + [t1, t2];
    assert once[..|once| - 1] == named && once[|once| - 1] == t1;
    assert twice[..|twice| - 1] == once && twice[|twice| - 1] == t2;
    assert AddAll(clusters, d, once) == AddedTo(AddAll(clusters, d, named), d, t1);
  }

  class SequenceFinder {
    /** `self.transactions`: the loaded transactions in load order. */
    const transactions: seq<Transaction>
    /** `self.distances` */
    var distances: OrderedMap<real>
    /** `self.clusters` */
    var clusters: seq<set<Transaction>>
    /** `self.sequences` */
    var sequences: seq<Sequence>
    /** `self.sequences_map` */
    var sequencesMap: map<string, Sequence>

    /** The uuids identify the transactions and contain no '|', the
        distance table is a well-formed dict, every cluster is complete
        linkage, and the sequence store is consistent. */
    ghost predicate Valid()
      reads this
    {
      && UniqueUuids(transactions) && NoSeparator(transactions)
      && distances.Valid()
      && CompleteLinkage(clusters, distances.values)
      && StoreOk()
    }

    /** Each stored sequence keys its transactions by uuid, and each mapped
        uuid leads to a stored sequence that holds it. */
    ghost predicate StoreOk()
      reads this
    {
      Consistent(sequences, sequencesMap)
    }

    /** Every two different transactions have a distance. */
    ghost predicate Covered()
      reads this
    {
      CoveredBy(transactions, distances.values)
    }

    /** Every key of the distance table names two loaded transactions. */
    ghost predicate Resolvable()
      reads this
    {
      forall k :: 0 <= k < |distances.keys| ==> GetTransactionsFromKey(transactions, distances.keys[k]).Some?
    }

    /** The clusters hold loaded transactions only. */
    ghost predicate ClustersFromTable()
      reads this
    {
      Within(clusters, transactions)
    }

    /** `SequenceFinder()` followed by `load_data`: the loaded table, and
        everything else empty. */
    constructor (table: seq<Transaction>)
      requires UniqueUuids(table) && NoSeparator(table)
      ensures Valid()
      ensures transactions == table && distances == EmptyMap() && clusters == []
      ensures sequences == [] && sequencesMap == map[]
    {
      transactions := table;
      distances := EmptyMap();
      clusters := [];
      sequences := [];
      sequencesMap := map[];
    }

    /** `store_sequence`: append one new sequence and map every member's
        uuid to it; other entries of the map are left as they were. */
    method StoreSequence(ts: seq<Transaction>, frequency: real)
      requires Valid()
      modifies this`sequences, this`sequencesMap
      ensures Valid()
      ensures sequences == old(sequences) + [NewSequence(ts, frequency)]
      ensures sequencesMap == old(sequencesMap) + UuidMap(ts, NewSequence(ts, frequency))
    {
      var s := NewSequence(ts, frequency);
      StoreKeepsConsistent(sequences, sequencesMap, ts, frequency);
      sequences := sequences + [s];
      sequencesMap := sequencesMap + UuidMap(ts, s);
    }

    /** `get_rest_of_sequence`: None for a uuid no stored sequence maps;
        otherwise every other member of its sequence, one fewer than the
        sequence's size. */
    function GetRestOfSequence(t: Transaction): (r: Option<seq<Transaction>>)
      reads this
      requires Valid()
      ensures r.None? <==> t.uuid !in sequencesMap
      ensures r.Some? ==> |r.value| == |sequencesMap[t.uuid].transactions.keys| - 1
      ensures r.Some? ==> forall x :: x in r.value <==>
                x in sequencesMap[t.uuid].transactions.values.Values && x.uuid != t.uuid
    {
      if t.uuid in sequencesMap then
        var s := sequencesMap[t.uuid];
        assert WellKeyed(s.transactions);
        OtherTransactionsOfMember(s, t);
        Some(GetOtherTransactions(s, t))
      else None
    }

    /** `calculate_distances`, computing branch: the table filled for every
        ordered pair of the loaded transactions. Afterwards every two
        different transactions have a distance, existing entries and the
        clusters' linkage are untouched, and every key still names two
        loaded transactions if it did before. */
    method CalculateDistances(sim: (string, string) -> real)
      requires Valid()
      modifies this`distances
      ensures Valid()
      ensures distances == Filled(old(distances), transactions, AllPairs(|transactions|), sim)
      ensures Covered()
      ensures old(Resolvable()) ==> Resolvable()
    {
      var d0 := distances;
      var table := FillDistances(d0, transactions, sim);
      FilledGrows(d0, transactions, AllPairs(|transactions|), sim);
      LinkageKeptByLargerTable(clusters, d0.values, table.values);
      FilledCovers(d0, transactions, sim);
      if Resolvable() {
        FilledResolvable(d0, transactions, sim);
      }
      distances := table;
    }

    /** `add_to_clusters`: scan the clusters in order up to the first one
        holding `t`, adding `t` to each whose every member is similar
        enough to it; if it was neither found nor added, it becomes a new
        singleton cluster. The members of a cluster are visited in no
        particular order, and the first distance that is missing from the
        table is Python's KeyError (false), with the clusters scanned
        before it already grown. */
    method AddToClusters(t: Transaction) returns (ok: bool)
      requires Valid()
      modifies this`clusters
      ensures Valid()
      ensures ok ==> clusters == AddedTo(old(clusters), distances.values, t)
      ensures !ok ==> exists e, u :: 0 <= e < FirstHolding(old(clusters), t) && u in old(clusters)[e]
                        && PairKey(t, u) !in distances.values
                        && clusters == GrownUpTo(old(clusters), distances.values, t, e)
      ensures Grows(old(clusters), clusters)
      ensures old(ClustersFromTable()) && t in transactions ==> ClustersFromTable()
      ensures old(ClustersFromTable()) && t in transactions && Covered() ==> ok
    {
      ghost var cs := clusters;
      ghost var d := distances.values;
      ghost var stop := FirstHolding(cs, t);
      var addAlone := true;
      var i := 0;
      while i < |clusters|
        invariant 0 <= i <= stop
        invariant clusters == GrownUpTo(cs, d, t, i)
        invariant addAlone <==> forall k :: 0 <= k < i ==> !AllLinked(d, t, cs[k])
      {
        if t in clusters[i] {
          assert t in cs[i];
          addAlone := false;
          break;
        }
        var addToCluster := SimilarToAll(t, clusters[i]);
        if addToCluster.None? {
          ghost var u :| u in cs[i] && PairKey(t, u) !in d;
          assert t !in cs[i] && i < stop;
          assert u != t;
          KeyOfCovered(transactions, d, t, u);
          GrownUpToKeepsLinkage(cs, d, t, i);
          GrownUpToGrows(cs, d, t, i);
          if Within(cs, transactions) && t in transactions {
            GrownUpToWithin(cs, d, t, i, transactions);
          }
          ok := false;
          return;
        }
        if addToCluster.value {
          clusters := clusters[i := clusters[i] + {t}];
          addAlone := false;
        }
        i := i + 1;
      }
      ScanEnds(cs, d, t, i, addAlone, clusters);
      if addAlone {
        clusters := clusters + [{t}];
      }
      AddedToKeepsLinkage(cs, d, t);
      AddedToGrows(cs, d, t);
      if Within(cs, transactions) && t in transactions {
        AddedToWithin(cs, d, t, transactions);
      }
      ok := true;
    }

    /** The inner loop of `add_to_clusters` over the members of one
        cluster, visited in no particular order: None for the KeyError of
        a missing distance, otherwise whether `t` is similar enough to
        every member. When all are similar no distance can be missing,
        so the answer is then true whatever the order. */
    method SimilarToAll(t: Transaction, cluster: set<Transaction>) returns (r: Option<bool>)
      ensures r.Some? ==> (r.value <==> AllLinked(distances.values, t, cluster))
      ensures r.None? ==> exists u :: u in cluster && PairKey(t, u) !in distances.values
      ensures AllLinked(distances.values, t, cluster) ==> r == Some(true)
    {
      var rest := cluster;
      while rest != {}
        invariant rest <= cluster
        invariant forall u :: u in cluster - rest ==> Linked(distances.values, t, u)
        decreases rest
      {
        var u :| u in rest;
        var distance := GetDistance(distances, t, u);
        if distance.None? {
          return None;
        }
        if distance.value < SimilarThreshold {
          return Some(false);
        }
        rest := rest - {u};
      }
      return Some(true);
    }

    /** `calculate_clusters`: for each key of the distance table in
        insertion order, resolve it into its two transactions and call
        `add_to_clusters` for both. The guard meant to skip transactions
        already handled looks them up by uuid but records them by object,
        so it never skips; `SkippingSeenChangesNothing` shows that skipping
        would not change the clusters. False stands for the ValueError or
        KeyError of a key that does not resolve and for the KeyError of a
        missing distance. */
    method CalculateClusters() returns (ok: bool)
      requires Valid()
      modifies this`clusters
      ensures Valid()
      ensures ok ==> NamedBy(transactions, distances.keys).Some?
      ensures ok ==> clusters == AddAll(old(clusters), distances.values, NamedBy(transactions, distances.keys).value)
      ensures old(ClustersFromTable()) ==> ClustersFromTable()
      ensures old(ClustersFromTable()) && Resolvable() && Covered() ==> ok
      ensures Grows(old(clusters), clusters)
    {
      ghost var cs := clusters;
      ghost var named: seq<Transaction> := [];
      var k := 0;
      while k < |distances.keys|
        invariant 0 <= k <= |distances.keys|
        invariant Valid()
        invariant NamedBy(transactions, distances.keys[..k]) == Some(named)
        invariant clusters == AddAll(cs, distances.values, named)
        invariant old(ClustersFromTable()) ==> ClustersFromTable()
        invariant Grows(cs, clusters)
      {
        var pair := GetTransactionsFromKey(transactions, distances.keys[k]);
        if pair.None? {
          ok := false;
          return;
        }
        var (t1, t2) := pair.value;
        ghost var before := clusters;
        ok := AddToClusters(t1);
        if !ok {
          GrowsTransitive(cs, before, clusters);
          return;
        }
        ghost var once := clusters;
        GrowsTransitive(cs, before, once);
        ok := AddToClusters(t2);
        if !ok {
          GrowsTransitive(cs, once, clusters);
          return;
        }
        GrowsTransitive(cs, once, clusters);
        NamedByStep(transactions, distances.keys, k, named);
        named := named + [t1, t2];
        AddAllPair(cs, distances.values, named[..|named| - 2], t1, t2);
        k := k + 1;
      }
      assert distances.keys[..k] == distances.keys;
      ok := true;
    }

    /** The branch of the walk that closes a run: `store_sequence` for the
        tentative run, then `get_mean_interval(cluster_transactions[idx:])`
        for the rest. Stated on the runs stored so far (`found`, on top of
        the store `s0`, `m0` the walk started from). */
    method CloseRun(sorted: seq<Transaction>, idx: nat, tentative: seq<Transaction>, clusterMean: real,
                    ghost s0: seq<Sequence>, ghost m0: map<string, Sequence>, ghost found: seq<Run>)
      returns (mean: Option<real>)
      requires Valid() && |tentative| < idx <= |sorted|
      requires sequences == StoredOn(s0, found) && sequencesMap == MapWith(m0, found)
      modifies this`sequences, this`sequencesMap
      ensures Valid()
      ensures var stored := found + [Run(idx - 1 - |tentative|, tentative, clusterMean)];
              sequences == StoredOn(s0, stored) && sequencesMap == MapWith(m0, stored)
      ensures mean == MeanIntervalFrom(sorted, idx)
    {
      StoreSequence(tentative, clusterMean);
      StoredAppend(s0, m0, found, Run(idx - 1 - |tentative|, tentative, clusterMean));
      mean := GetMeanInterval(sorted[idx..]);
    }

    /** One pass of the walk's loop, for the transaction at `idx` and its
        predecessor `prev`: extend the tentative run when the interval is in
        the window, otherwise close it (store it when it has four or more
        members and restart the mean on the rest) or drop it. `cont` is
        false when the mean of the rest raised, which ends the walk; then
        `Segment` has the final stored runs. */
    method WalkStep(sorted: seq<Transaction>, idx: nat, prev: Transaction, window: Window,
                    tentative: seq<Transaction>, clusterMean: real,
                    ghost s0: seq<Sequence>, ghost m0: map<string, Sequence>, ghost found: seq<Run>)
      returns (cont: bool, tentative': seq<Transaction>, clusterMean': real, window': Window, ghost found': seq<Run>)
      requires Valid() && 1 <= idx < |sorted| && prev == sorted[idx - 1]
      requires WalkTo(sorted, idx) == Walking(found, tentative, clusterMean) && window == WindowAround(clusterMean)
      requires sequences == StoredOn(s0, found) && sequencesMap == MapWith(m0, found)
      modifies this`sequences, this`sequencesMap
      ensures Valid()
      ensures sequences == StoredOn(s0, found') && sequencesMap == MapWith(m0, found')
      ensures cont ==> WalkTo(sorted, idx + 1) == Walking(found', tentative', clusterMean')
      ensures cont ==> window' == WindowAround(clusterMean')
      ensures !cont ==> Segment(sorted) == Segmentation(found', false)
    {
      var interval := sorted[idx].date - prev.date;
      assert interval == Interval(sorted, idx - 1);
      cont, tentative', clusterMean', window', found' := true, tentative, clusterMean, window, found;
      if (interval as real) < window.lo || window.hi < (interval as real) {
        if |tentative| >= MinLength {
          var mean := CloseRun(sorted, idx, tentative, clusterMean, s0, m0, found);
          found' := found + [Run(idx - 1 - |tentative|, tentative, clusterMean)];
          if mean.None? {
            WalkStoresLast(sorted, idx, found, tentative, clusterMean);
            cont := false;
            return;
          }
          WalkStores(sorted, idx, found, tentative, clusterMean, mean.value);
          tentative' := [];
          clusterMean' := mean.value;
          window' := WindowAround(clusterMean');
        } else {
          WalkDrops(sorted, idx, found, tentative, clusterMean);
          tentative' := [];
        }
      } else {
        WalkExtends(sorted, idx, found, tentative, clusterMean);
        tentative' := tentative + [prev];
      }
    }

    /** The per-cluster body of `find_sequences`, on the date-sorted
        cluster: walk it pairwise, storing each tentative run of four or
        more that an out-of-window interval closes and restarting the mean
        on the rest, then store the final tentative run if it is long
        enough. What is stored is what `Segment` describes; false is the
        StatisticsError of a mean over a one-transaction remainder. */
    method WalkCluster(sorted: seq<Transaction>) returns (ok: bool)
      requires Valid() && |sorted| >= 2
      modifies this`sequences, this`sequencesMap
      ensures Valid()
      ensures ok == Segment(sorted).completed
      ensures sequences == StoredOn(old(sequences), Segment(sorted).runs)
      ensures sequencesMap == MapWith(old(sequencesMap), Segment(sorted).runs)
    {
      ghost var s0, m0 := sequences, sequencesMap;
      var tentative: seq<Transaction> := [];
      var firstMean := GetMeanInterval(sorted);
      var clusterMean := firstMean.value;
      var window := WindowAround(clusterMean);
      ghost var found: seq<Run> := [];
      var prev := sorted[0];
      var idx := 1;
      while idx < |sorted|
        invariant 1 <= idx <= |sorted| && prev == sorted[idx - 1]
        invariant WalkTo(sorted, idx) == Walking(found, tentative, clusterMean)
        invariant window == WindowAround(clusterMean)
        invariant Valid()
        invariant sequences == StoredOn(s0, found) && sequencesMap == MapWith(m0, found)
      {
        var cont;
        cont, tentative, clusterMean, window, found := WalkStep(sorted, idx, prev, window, tentative, clusterMean, s0, m0, found);
        if !cont {
          ok := false;
          return;
        }
        prev := sorted[idx];
        idx := idx + 1;
      }
      FlushRun(sorted, tentative, clusterMean, s0, m0, found);
      ok := true;
    }

    /** The end of the walk: the final tentative run is stored when it has
        four or more members, which completes what `Segment` describes. */
    method FlushRun(sorted: seq<Transaction>, tentative: seq<Transaction>, clusterMean: real,
                    ghost s0: seq<Sequence>, ghost m0: map<string, Sequence>, ghost found: seq<Run>)
      requires Valid() && |sorted| >= 2 && WalkTo(sorted, |sorted|) == Walking(found, tentative, clusterMean)
      requires sequences == StoredOn(s0, found) && sequencesMap == MapWith(m0, found)
      modifies this`sequences, this`sequencesMap
      ensures Valid() && Segment(sorted).completed
      ensures sequences == StoredOn(s0, Segment(sorted).runs) && sequencesMap == MapWith(m0, Segment(sorted).runs)
    {
      if |tentative| >= MinLength {
        var r := Run(|sorted| - 1 - |tentative|, tentative, clusterMean);
        SegmentFlushes(sorted, |sorted|, found, tentative, clusterMean);
        StoredAppend(s0, m0, found, r);
        StoreSequence(tentative, clusterMean);
      } else {
        SegmentEnds(sorted, |sorted|, found, tentative, clusterMean);
      }
    }

    /** `find_sequences`: every cluster of four or more is sorted by date
        and walked (see WalkCluster); shorter ones are skipped. `orders`
        are the date orders chosen, one per visited cluster, and false is
        the StatisticsError of a failed walk, which ends the pass after
        the cluster it was raised in. */
    method FindSequences() returns (ok: bool, ghost orders: seq<seq<Transaction>>)
      requires Valid()
      modifies this`sequences, this`sequencesMap
      ensures Valid()
      ensures OrdersOf(orders, clusters) && (ok ==> |orders| == |clusters|)
      ensures ok == SegmentAll(orders).completed
      ensures sequences == StoredOn(old(sequences), SegmentAll(orders).runs)
      ensures sequencesMap == MapWith(old(sequencesMap), SegmentAll(orders).runs)
    {
      ghost var s0, m0 := sequences, sequencesMap;
      orders := [];
      var k := 0;
      while k < |clusters|
        invariant 0 <= k <= |clusters| && |orders| == k
        invariant OrdersOf(orders, clusters)
        invariant SegmentAll(orders).completed
        invariant Valid()
        invariant sequences == StoredOn(s0, SegmentAll(orders).runs)
        invariant sequencesMap == MapWith(m0, SegmentAll(orders).runs)
      {
        ghost var order;
        ok, order := VisitCluster(clusters[k], s0, m0, orders);
        OrdersOfSnoc(orders, clusters, order);
        orders := orders + [order];
        if !ok {
          return;
        }
        k := k + 1;
      }
      ok := true;
    }

    /** One pass of the loop of `find_sequences`: skip a cluster of fewer
        than four, otherwise sort it by date (`order`) and walk it. Stated
        on the clusters visited before (`orders`, on top of the store `s0`,
        `m0` the pass started from). */
    method VisitCluster(cluster: set<Transaction>, ghost s0: seq<Sequence>, ghost m0: map<string, Sequence>,
                        ghost orders: seq<seq<Transaction>>)
      returns (ok: bool, ghost order: seq<Transaction>)
      requires Valid() && SegmentAll(orders).completed
      requires sequences == StoredOn(s0, SegmentAll(orders).runs) && sequencesMap == MapWith(m0, SegmentAll(orders).runs)
      modifies this`sequences, this`sequencesMap
      ensures Valid() && SortedOrder(order, cluster)
      ensures ok == SegmentAll(orders + [order]).completed
      ensures sequences == StoredOn(s0, SegmentAll(orders + [order]).runs)
      ensures sequencesMap == MapWith(m0, SegmentAll(orders + [order]).runs)
    {
      ghost var before := SegmentAll(orders).runs;
      if |cluster| < MinLength {
        order := [];
        SegmentAllSnoc(orders, order);
        ok := true;
        return;
      }
      var sorted := SortByDate(cluster);
      order := sorted;
      ok := WalkCluster(sorted);
      ghost var runs := Segment(sorted).runs;
      StoredOnConcat(s0, before, runs);
      MapWithConcat(m0, before, runs);
      SegmentAllSnoc(orders, sorted);
    }
  }
}
