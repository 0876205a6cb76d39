/** Greedy complete-linkage clustering (finder.py, `add_to_clusters`): what
    one call does to the list of clusters, stated as a function of the
    clusters and the distance table, and the invariants it keeps. */
module Clustering {
  import opened Base
  import opened Transactions

  /** SIMILAR_THRESHOLD */
  const SimilarThreshold: real := 0.85

  /** The table holds a distance for the pair and it is not below the
      threshold. */
  ghost predicate Linked(d: map<string, real>, a: Transaction, b: Transaction) {
    PairKey(a, b) in d && d[PairKey(a, b)] >= SimilarThreshold
  }

  /** `t` is similar enough to every member of the cluster. */
  ghost predicate AllLinked(d: map<string, real>, t: Transaction, cluster: set<Transaction>) {
    forall u :: u in cluster ==> Linked(d, t, u)
  }

  /** The complete-linkage invariant: any two distinct members of a
      cluster are similar enough. */
  ghost predicate CompleteLinkage(clusters: seq<set<Transaction>>, d: map<string, real>) {
    forall i, a, b :: 0 <= i < |clusters| && a in clusters[i] && b in clusters[i] && a != b ==> Linked(d, a, b)
  }

  /** The position of the first cluster that holds `t`, where the scan of
      `add_to_clusters` stops; |clusters| when none does. */
  function FirstHolding(clusters: seq<set<Transaction>>, t: Transaction): (i: nat)
    ensures i <= |clusters|
    ensures forall k :: 0 <= k < i ==> t !in clusters[k]
    ensures i < |clusters| ==> t in clusters[i]
  {
    if |clusters| == 0 then 0
    else if t in clusters[0] then 0
    else 1 + FirstHolding(clusters[1..], t)
  }

  /** The clusters after the scan has passed the first `e` of them: each
      of those that `t` is similar to throughout has gained `t`. */
  ghost function GrownUpTo(clusters: seq<set<Transaction>>, d: map<string, real>, t: Transaction, e: nat): seq<set<Transaction>> {
    seq(|clusters|, i requires 0 <= i < |clusters| =>
      if i < e && AllLinked(d, t, clusters[i]) then clusters[i] + {t} else clusters[i])
  }

  /** `add_to_clusters(t)` when no distance it asks for is missing: `t`
      joins every cluster before the first one holding it whose members
      are all similar to it, and becomes a singleton cluster at the end if
      it was neither found nor added anywhere. */
  ghost function AddedTo(clusters: seq<set<Transaction>>, d: map<string, real>, t: Transaction): (r: seq<set<Transaction>>)
    ensures |clusters| <= |r| <= |clusters| + 1
  {
    var stop := FirstHolding(clusters, t);
    var grown := GrownUpTo(clusters, d, t, stop);
    if stop == |clusters| && forall i :: 0 <= i < |clusters| ==> !AllLinked(d, t, clusters[i]) then grown + [{t}]
    else grown
  }

  /** `t` is a member of some cluster. */
  ghost predicate Clustered(clusters: seq<set<Transaction>>, t: Transaction) {
    exists i :: 0 <= i < |clusters| && t in clusters[i]
  }

  /** Afterwards `t` is in at least one cluster. */
  lemma AddedToHolds(clusters: seq<set<Transaction>>, d: map<string, real>, t: Transaction)
    ensures Clustered(AddedTo(clusters, d, t), t)
  {
    var r := AddedTo(clusters, d, t);
    var stop := FirstHolding(clusters, t);
    if stop < |clusters| {
      assert t in r[stop];
    } else if exists i :: 0 <= i < |clusters| && AllLinked(d, t, clusters[i]) {
      var i :| 0 <= i < |clusters| && AllLinked(d, t, clusters[i]);
      assert t in r[i];
    } else {
      assert t in r[|clusters|];
    }
  }

  /** Existing clusters only gain `t`, none is removed, and at most one
      singleton {t} is appended, only when no existing cluster held or
      took `t`. */
  lemma AddedToGrows(clusters: seq<set<Transaction>>, d: map<string, real>, t: Transaction)
    ensures var r := AddedTo(clusters, d, t);
            && |clusters| <= |r| <= |clusters| + 1
            && (forall i :: 0 <= i < |clusters| ==> r[i] == clusters[i] || r[i] == clusters[i] + {t})
            && (|r| == |clusters| + 1 ==>
                  r[|clusters|] == {t} && forall i :: 0 <= i < |clusters| ==> t !in r[i])
    ensures Grows(clusters, AddedTo(clusters, d, t))
  {
  }

  /** Part way through the scan, too, every cluster is still in place. */
  lemma GrownUpToGrows(clusters: seq<set<Transaction>>, d: map<string, real>, t: Transaction, e: nat)
    ensures Grows(clusters, GrownUpTo(clusters, d, t, e))
  {
  }

  /** Adding keeps the complete-linkage invariant: `t` only joins a
      cluster whose every member is similar to it, and the table's key for
      a pair does not depend on the order of the two. */
  lemma {:induction false} AddedToKeepsLinkage(clusters: seq<set<Transaction>>, d: map<string, real>, t: Transaction)
    requires CompleteLinkage(clusters, d)
    ensures CompleteLinkage(AddedTo(clusters, d, t), d)
  {
    var r := AddedTo(clusters, d, t);
    var grown := GrownUpTo(clusters, d, t, FirstHolding(clusters, t));
    forall i, a, b | 0 <= i < |r| && a in r[i] && b in r[i] && a != b
      ensures Linked(d, a, b)
    {
      if i < |clusters| {
        assert r[i] == grown[i];
        if a !in clusters[i] {
          assert a == t && AllLinked(d, t, clusters[i]);
        } else if b !in clusters[i] {
          assert b == t && AllLinked(d, t, clusters[i]);
          PairKeySymmetric(t, a);
        }
      }
    }
  }

  /** Calling `add_to_clusters` for the same transaction twice in a row
      changes nothing the second time: the scan now stops at the first
      cluster that took it, and every cluster before that one was not
      similar throughout. `SkippingSeenChangesNothing` extends this to a
      repeat after other calls. */
  lemma AddedToIdempotent(clusters: seq<set<Transaction>>, d: map<string, real>, t: Transaction)
    ensures AddedTo(AddedTo(clusters, d, t), d, t) == AddedTo(clusters, d, t)
  {
    var r := AddedTo(clusters, d, t);
    var first := FirstHolding(clusters, t);
    var grown := GrownUpTo(clusters, d, t, first);
    AddedToHolds(clusters, d, t);
    var stop := FirstHolding(r, t);
    assert stop < |r|;
    if first < |clusters| {
      assert r[first] == grown[first];
      assert stop <= first;
    }
    forall i | 0 <= i < stop ensures !AllLinked(d, t, r[i]) {
      assert t !in r[i];
      if i < |clusters| {
        assert r[i] == grown[i];
        assert r[i] == clusters[i];
      }
    }
    assert GrownUpTo(r, d, t, stop) == r;
  }

  /** A transaction that was clustered stays clustered. */
  lemma AddedToKeepsClustered(clusters: seq<set<Transaction>>, d: map<string, real>, t: Transaction, x: Transaction)
    requires Clustered(clusters, x)
    ensures Clustered(AddedTo(clusters, d, t), x)
  {
    var i :| 0 <= i < |clusters| && x in clusters[i];
    AddedToGrows(clusters, d, t);
    assert x in AddedTo(clusters, d, t)[i];
  }

  /** `add_to_clusters` called for each of `ts` in turn, every distance it
      asks for being present. */
  ghost function AddAll(clusters: seq<set<Transaction>>, d: map<string, real>, ts: seq<Transaction>): (r: seq<set<Transaction>>)
    ensures |clusters| <= |r| <= |clusters| + |ts|
    decreases |ts|
  {
    if |ts| == 0 then clusters
    else AddedTo(AddAll(clusters, d, ts[..|ts| - 1]), d, ts[|ts| - 1])
  }

  /** Every cluster of `before` is still in place in `after`, with all of
      its members and possibly more. */
  ghost predicate Grows(before: seq<set<Transaction>>, after: seq<set<Transaction>>) {
    |before| <= |after| && forall i :: 0 <= i < |before| ==> before[i] <= after[i]
  }

  /** Growing twice is growing. */
  lemma GrowsTransitive(a: seq<set<Transaction>>, b: seq<set<Transaction>>, c: seq<set<Transaction>>)
    requires Grows(a, b) && Grows(b, c)
    ensures Grows(a, c)
  {
  }

  /** The calls keep every cluster in place: each only gains members, and
      every member it gains is one of `ts`. */
  lemma {:induction false} AddAllGrows(clusters: seq<set<Transaction>>, d: map<string, real>, ts: seq<Transaction>)
    ensures Grows(clusters, AddAll(clusters, d, ts))
    ensures forall i, u :: 0 <= i < |clusters| && u in AddAll(clusters, d, ts)[i] && u !in clusters[i] ==> u in ts
    decreases |ts|
  {
    if |ts| > 0 {
      var prefix := ts[..|ts| - 1];
      var last := ts[|ts| - 1];
      AddAllGrows(clusters, d, prefix);
      AddedToGrows(AddAll(clusters, d, prefix), d, last);
      assert ts == prefix + [last];
    }
  }

  /** After the calls every one of `ts` is clustered, and so is everything
      that was clustered before. */
  lemma {:induction false} AddAllClusters(clusters: seq<set<Transaction>>, d: map<string, real>, ts: seq<Transaction>)
    ensures forall t :: t in ts ==> Clustered(AddAll(clusters, d, ts), t)
    ensures forall x :: Clustered(clusters, x) ==> Clustered(AddAll(clusters, d, ts), x)
    decreases |ts|
  {
    if |ts| > 0 {
      var prefix := ts[..|ts| - 1];
      var last := ts[|ts| - 1];
      AddAllClusters(clusters, d, prefix);
      var before := AddAll(clusters, d, prefix);
      AddedToHolds(before, d, last);
      forall x | Clustered(before, x) ensures Clustered(AddAll(clusters, d, ts), x) {
        AddedToKeepsClustered(before, d, last, x);
      }
      assert ts == prefix + [last];
    }
  }

  /** The calls keep the complete-linkage invariant. */
  lemma {:induction false} AddAllKeepsLinkage(clusters: seq<set<Transaction>>, d: map<string, real>, ts: seq<Transaction>)
    requires CompleteLinkage(clusters, d)
    ensures CompleteLinkage(AddAll(clusters, d, ts), d)
    decreases |ts|
  {
    if |ts| > 0 {
      AddAllKeepsLinkage(clusters, d, ts[..|ts| - 1]);
      AddedToKeepsLinkage(AddAll(clusters, d, ts[..|ts| - 1]), d, ts[|ts| - 1]);
    }
  }

  /** `t` has been handled: some cluster holds it, and no cluster the
      scan passes before the first one holding it is similar to it
      throughout. */
  ghost predicate Settled(clusters: seq<set<Transaction>>, d: map<string, real>, t: Transaction) {
    var stop := FirstHolding(clusters, t);
    stop < |clusters| && forall i :: 0 <= i < stop ==> !AllLinked(d, t, clusters[i])
  }

  /** `add_to_clusters(t)` leaves `t` handled. */
  lemma AddedToSettles(clusters: seq<set<Transaction>>, d: map<string, real>, t: Transaction)
    ensures Settled(AddedTo(clusters, d, t), d, t)
  {
    var stop := FirstHolding(clusters, t);
    var grown := GrownUpTo(clusters, d, t, stop);
    var r := AddedTo(clusters, d, t);
    var h := FirstHolding(r, t);
    AddedToHolds(clusters, d, t);
    var j :| 0 <= j < |r| && t in r[j];
    assert h < |r|;
    if stop < |clusters| {
      assert t in r[stop];
    } else if r == grown + [{t}] {
      assert t in r[|clusters|];
    }
    assert h <= stop;
    forall i | 0 <= i < h ensures !AllLinked(d, t, r[i]) {
      assert r[i] == grown[i];
    }
  }

  /** A handled transaction is left alone by its own repeat. */
  lemma SettledUnchanged(clusters: seq<set<Transaction>>, d: map<string, real>, t: Transaction)
    requires Settled(clusters, d, t)
    ensures AddedTo(clusters, d, t) == clusters
  {
    var grown := GrownUpTo(clusters, d, t, FirstHolding(clusters, t));
    forall i | 0 <= i < |clusters| ensures grown[i] == clusters[i] {
    }
    assert grown == clusters;
  }

  /** A handled transaction stays handled whatever is added next. */
  lemma AddedToKeepsSettled(clusters: seq<set<Transaction>>, d: map<string, real>, t: Transaction, u: Transaction)
    requires Settled(clusters, d, t)
    ensures Settled(AddedTo(clusters, d, u), d, t)
  {
    if u == t {
      SettledUnchanged(clusters, d, t);
    } else {
      var grown := GrownUpTo(clusters, d, u, FirstHolding(clusters, u));
      var r := AddedTo(clusters, d, u);
      var h := FirstHolding(clusters, t);
      assert forall i :: 0 <= i < |clusters| ==> r[i] == grown[i];
      assert t in r[h];
      forall k | 0 <= k < h ensures t !in r[k] && !AllLinked(d, t, r[k]) {
        assert r[k] == clusters[k] || r[k] == clusters[k] + {u};
      }
      assert FirstHolding(r, t) == h;
    }
  }

  /** Every transaction handed to the calls is handled afterwards. */
  lemma {:induction false} AddAllSettles(clusters: seq<set<Transaction>>, d: map<string, real>, ts: seq<Transaction>, t: Transaction)
    requires t in ts
    ensures Settled(AddAll(clusters, d, ts), d, t)
    decreases |ts|
  {
    var init := ts[..|ts| - 1];
    var last := ts[|ts| - 1];
    assert ts == init + [last];
    if t in init {
      AddAllSettles(clusters, d, init, t);
      AddedToKeepsSettled(AddAll(clusters, d, init), d, t, last);
    } else {
      AddedToSettles(AddAll(clusters, d, init), d, t);
    }
  }

  /** The calls as the `transactions_seen` guard of `calculate_clusters`
      is meant to make them: a transaction met before is skipped. */
  ghost function AddAllOnce(clusters: seq<set<Transaction>>, d: map<string, real>, ts: seq<Transaction>): seq<set<Transaction>>
    decreases |ts|
  {
    if |ts| == 0 then clusters
    else
      var init := ts[..|ts| - 1];
      if ts[|ts| - 1] in init then AddAllOnce(clusters, d, init)
      else AddedTo(AddAllOnce(clusters, d, init), d, ts[|ts| - 1])
  }

  /** Skipping the transactions met before gives the same clusters as
      calling `add_to_clusters` for every one of them, however many other
      calls come in between. */
  lemma {:induction false} SkippingSeenChangesNothing(clusters: seq<set<Transaction>>, d: map<string, real>, ts: seq<Transaction>)
    ensures AddAllOnce(clusters, d, ts) == AddAll(clusters, d, ts)
    decreases |ts|
  {
    if |ts| > 0 {
      var init := ts[..|ts| - 1];
      var last := ts[|ts| - 1];
      SkippingSeenChangesNothing(clusters, d, init);
      if last in init {
        AddAllSettles(clusters, d, init, last);
        SettledUnchanged(AddAll(clusters, d, init), d, last);
      }
    }
  }

  /** The transactions `calculate_clusters` hands to `add_to_clusters`:
      for each key in turn, the two that `get_transactions_from_key` gives
      back. None where a key does not resolve. */
  function NamedBy(table: seq<Transaction>, keys: seq<string>): (r: Option<seq<Transaction>>)
    ensures r.None? <==> exists k :: 0 <= k < |keys| && GetTransactionsFromKey(table, keys[k]).None?
    ensures r.Some? ==> |r.value| == 2 * |keys|
    ensures r.Some? ==> forall k :: 0 <= k < |keys| ==>
              GetTransactionsFromKey(table, keys[k]) == Some((r.value[2 * k], r.value[2 * k + 1]))
    decreases |keys|
  {
    if |keys| == 0 then Some([])
    else
      var prefix := keys[..|keys| - 1];
      assert forall k :: 0 <= k < |prefix| ==> prefix[k] == keys[k];
      match (NamedBy(table, prefix), GetTransactionsFromKey(table, keys[|keys| - 1]))
      case (Some(ts), Some((t1, t2))) => Some(ts + [t1, t2])
      case _ => None
  }

  /** Part way through the scan the complete-linkage invariant holds too:
      `t` has only joined clusters it is similar to throughout. */
  lemma GrownUpToKeepsLinkage(clusters: seq<set<Transaction>>, d: map<string, real>, t: Transaction, e: nat)
    requires CompleteLinkage(clusters, d)
    ensures CompleteLinkage(GrownUpTo(clusters, d, t, e), d)
  {
    var r := GrownUpTo(clusters, d, t, e);
    forall i, a, b | 0 <= i < |r| && a in r[i] && b in r[i] && a != b
      ensures Linked(d, a, b)
    {
      if a !in clusters[i] {
        assert a == t && AllLinked(d, t, clusters[i]);
      } else if b !in clusters[i] {
        assert b == t && AllLinked(d, t, clusters[i]);
        PairKeySymmetric(t, a);
      }
    }
  }

  /** Where the scan of `add_to_clusters` ends: past every cluster, or at
      the first one holding `t`. Either way the clusters it has grown are
      those of the call, plus the singleton when `t` was neither found nor
      added. */
  lemma ScanEnds(clusters: seq<set<Transaction>>, d: map<string, real>, t: Transaction, i: nat, alone: bool,
                 grown: seq<set<Transaction>>)
    requires i <= FirstHolding(clusters, t) && grown == GrownUpTo(clusters, d, t, i)
    requires || (i == |clusters| && (alone <==> forall k :: 0 <= k < i ==> !AllLinked(d, t, clusters[k])))
             || (i < |clusters| && t in clusters[i] && !alone)
    ensures AddedTo(clusters, d, t) == if alone then grown + [{t}] else grown
  {
  }

  /** Every member of every cluster is one of `ts`. */
  ghost predicate Within(clusters: seq<set<Transaction>>, ts: seq<Transaction>) {
    forall i, u :: 0 <= i < |clusters| && u in clusters[i] ==> u in ts
  }

  /** The scan only adds `t`, so clusters drawn from `ts` stay so when `t`
      is one of `ts`. */
  lemma GrownUpToWithin(clusters: seq<set<Transaction>>, d: map<string, real>, t: Transaction, e: nat, ts: seq<Transaction>)
    requires Within(clusters, ts) && t in ts
    ensures Within(GrownUpTo(clusters, d, t, e), ts)
  {
  }

  /** `add_to_clusters(t)` only adds `t`: clusters drawn from `ts` stay so
      when `t` is one of `ts`. */
  lemma AddedToWithin(clusters: seq<set<Transaction>>, d: map<string, real>, t: Transaction, ts: seq<Transaction>)
    requires Within(clusters, ts) && t in ts
    ensures Within(AddedTo(clusters, d, t), ts)
  {
    GrownUpToWithin(clusters, d, t, FirstHolding(clusters, t), ts);
  }

  /** Entries added to the table do not break the invariant: linkage only
      reads entries, and existing entries keep their values. */
  lemma LinkageKeptByLargerTable(clusters: seq<set<Transaction>>, d: map<string, real>, e: map<string, real>)
    requires CompleteLinkage(clusters, d)
    requires forall k :: k in d ==> k in e && e[k] == d[k]
    ensures CompleteLinkage(clusters, e)
  {
    forall i, a, b | 0 <= i < |clusters| && a in clusters[i] && b in clusters[i] && a != b
      ensures Linked(e, a, b)
    {
      assert Linked(d, a, b);
    }
  }
}
