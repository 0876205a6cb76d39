/** The nested loops of `calculate_distances` (finder.py), computing
    branch: the loop that fills the distance table, and the proof that it
    leaves the table `Filled` describes. */
module DistanceLoops {
  import opened Base
  import opened Transactions
  import opened Distances

  /** The pairs the nested loops have recorded when they are at row i,
      k columns past the diagonal: rows 0 .. i-1 and the first k pairs of
      row i. */
  function LoopPairs(n: nat, i: nat, k: nat): (ps: seq<(nat, nat)>)
    requires i < n && k <= n - 1 - i
    ensures forall x :: 0 <= x < |ps| ==> ps[x].0 < ps[x].1 < n
  {
    IndexPairs(n, i) + Row(n, i)[..k]
  }

  /** Row i begun: nothing of it is recorded yet. */
  lemma LoopRowStart(n: nat, i: nat)
    requires i < n
    ensures LoopPairs(n, i, 0) == IndexPairs(n, i)
  {
    assert Row(n, i)[..0] == [];
  }

  /** Row i done: the loops have recorded rows 0 .. i. */
  lemma LoopRowDone(n: nat, i: nat)
    requires i < n
    ensures LoopPairs(n, i, n - 1 - i) == IndexPairs(n, i + 1)
  {
    assert Row(n, i)[..n - 1 - i] == Row(n, i);
  }

  /** The next column of row i records the pair (i, i + 1 + k). */
  lemma LoopStep(d: OrderedMap<real>, ts: seq<Transaction>, i: nat, k: nat, sim: (string, string) -> real)
    requires i < |ts| && k < |ts| - 1 - i
    ensures Filled(d, ts, LoopPairs(|ts|, i, k + 1), sim)
            == Record(Filled(d, ts, LoopPairs(|ts|, i, k), sim), ts, (i, i + 1 + k), sim)
  {
    var n := |ts|;
    var ps := LoopPairs(n, i, k + 1);
    assert ps[..|ps| - 1] == LoopPairs(n, i, k);
    assert ps[|ps| - 1] == (i, i + 1 + k);
  }

  /** The columns of row i the inner loop has recorded before column j:
      none up to the diagonal, then one per column. */
  function Recorded(i: nat, j: nat): nat {
    if j <= i + 1 then 0 else j - i - 1
  }

  /** One pass of the inner loop body, on the table: a pair with equal
      uuids is skipped, any other is recorded (see Record). */
  function Visit(d: OrderedMap<real>, ts: seq<Transaction>, i: nat, j: nat, sim: (string, string) -> real): OrderedMap<real>
    requires i < |ts| && j < |ts|
  {
    if ts[i].uuid == ts[j].uuid then d else Record(d, ts, (i, j), sim)
  }

  /** A pass over two transactions with the same uuid leaves the table as
      it was; any other pass leaves their key in it, keeps every entry
      there was, and keeps the table well formed. */
  lemma VisitEntry(d: OrderedMap<real>, ts: seq<Transaction>, i: nat, j: nat, sim: (string, string) -> real)
    requires i < |ts| && j < |ts|
    ensures var r := Visit(d, ts, i, j, sim);
            && (d.Valid() ==> r.Valid())
            && (ts[i].uuid == ts[j].uuid ==> r == d)
            && (ts[i].uuid != ts[j].uuid ==> PairKey(ts[i], ts[j]) in r.values)
            && (forall k :: k in d.values ==> k in r.values && r.values[k] == d.values[k])
  {
    if ts[i].uuid != ts[j].uuid {
      RecordEntry(d, ts, (i, j), sim);
    }
  }

  /** Visiting column j of row i takes the table from the pairs recorded
      before it to the pairs recorded after it: a column left of the
      diagonal finds its key from an earlier row, the diagonal is skipped,
      and a column right of it records its pair. */
  lemma VisitStep(d: OrderedMap<real>, ts: seq<Transaction>, i: nat, j: nat, sim: (string, string) -> real)
    requires d.Valid() && UniqueUuids(ts) && i < |ts| && j < |ts|
    ensures Visit(Filled(d, ts, LoopPairs(|ts|, i, Recorded(i, j)), sim), ts, i, j, sim)
            == Filled(d, ts, LoopPairs(|ts|, i, Recorded(i, j + 1)), sim)
  {
    var n := |ts|;
    if j < i {
      assert Recorded(i, j) == 0 && Recorded(i, j + 1) == 0;
      LoopEarlierRow(d, ts, i, j, 0, sim);
    } else if j == i {
      assert Recorded(i, j) == 0 && Recorded(i, j + 1) == 0;
    } else {
      var k := j - i - 1;
      assert Recorded(i, j) == k && Recorded(i, j + 1) == k + 1;
      LoopStep(d, ts, i, k, sim);
      assert ts[i].uuid != ts[j].uuid;
    }
  }

  /** The nested loops of `calculate_distances`: for every ordered pair of
      transactions with different uuids, a key not yet in the table gets
      the similarity of the two descriptions. The result is the table
      filled pair by pair in loop order, each unordered pair being
      recorded where the loops first meet it. */
  method FillDistances(d0: OrderedMap<real>, ts: seq<Transaction>, sim: (string, string) -> real)
    returns (table: OrderedMap<real>)
    requires d0.Valid() && UniqueUuids(ts)
    ensures table == Filled(d0, ts, AllPairs(|ts|), sim)
  {
    var n := |ts|;
    table := d0;
    var i := 0;
    while i < n
      invariant 0 <= i <= n
      invariant table == Filled(d0, ts, IndexPairs(n, i), sim)
    {
      table := FillRow(d0, ts, i, sim, table);
      i := i + 1;
    }
  }

  /** The inner loop of `calculate_distances` for the transaction at
      position i, run against every position j: it records the pairs of
      row i, those to the left of the diagonal being already there. */
  method FillRow(d0: OrderedMap<real>, ts: seq<Transaction>, i: nat, sim: (string, string) -> real, start: OrderedMap<real>)
    returns (table: OrderedMap<real>)
    requires d0.Valid() && UniqueUuids(ts) && i < |ts|
    requires start == Filled(d0, ts, IndexPairs(|ts|, i), sim)
    ensures table == Filled(d0, ts, IndexPairs(|ts|, i + 1), sim)
  {
    var n := |ts|;
    LoopRowStart(n, i);
    assert Recorded(i, 0) == 0;
    table := start;
    var j := 0;
    while j < n
      invariant 0 <= j <= n
      invariant table == Filled(d0, ts, LoopPairs(n, i, Recorded(i, j)), sim)
    {
      VisitStep(d0, ts, i, j, sim);
      var t1 := ts[i];
      var t2 := ts[j];
      if t1.uuid != t2.uuid {
        var key := PairKey(t1, t2);
        if key !in table.values {
          table := table.Put(key, sim(t1.description, t2.description));
        }
      }
      j := j + 1;
    }
    assert Recorded(i, n) == n - 1 - i;
    LoopRowDone(n, i);
  }

  /** A pair (j, i) of an earlier row is already recorded, under the key of
      (i, j). */
  lemma LoopEarlierRow(d: OrderedMap<real>, ts: seq<Transaction>, i: nat, j: nat, k: nat, sim: (string, string) -> real)
    requires d.Valid() && j < i < |ts| && k <= |ts| - 1 - i
    ensures PairKey(ts[i], ts[j]) in Filled(d, ts, LoopPairs(|ts|, i, k), sim).values
  {
    var ps := LoopPairs(|ts|, i, k);
    PairIndexed(|ts|, i, j, i);
    var x :| 0 <= x < |IndexPairs(|ts|, i)| && IndexPairs(|ts|, i)[x] == (j, i);
    assert ps[x] == (j, i);
    KeyRecorded(d, ts, ps, x, sim);
    PairKeySymmetric(ts[i], ts[j]);
  }
}
