/** The distance table of `calculate_distances` (finder.py), computing
    branch: what the nested loops leave in the insertion-ordered dict
    `self.distances`, given the similarity of two descriptions. */
module Distances {
  import opened Base
  import opened Transactions

  /** Row `i` of the loops: the pairs (i, j), i < j < n, in loop order. */
  function Row(n: nat, i: nat): (r: seq<(nat, nat)>)
    requires i < n
    ensures |r| == n - 1 - i
    ensures forall k :: 0 <= k < |r| ==> r[k] == (i, i + 1 + k)
  {
    seq(n - 1 - i, k requires 0 <= k < n - 1 - i => (i, i + 1 + k))
  }

  /** The unordered pairs of positions met first in rows 0 .. i-1, in the
      order the nested loops meet them: (a, b) with a < b, row by row.
      The loops meet {a, b} first at outer a, inner b. */
  function IndexPairs(n: nat, i: nat): (ps: seq<(nat, nat)>)
    requires i <= n
    ensures forall x :: 0 <= x < |ps| ==> ps[x].0 < ps[x].1 < n && ps[x].0 < i
    decreases i
  {
    if i == 0 then [] else IndexPairs(n, i - 1) + Row(n, i - 1)
  }

  /** The loops meet every unordered pair of rows 0 .. i-1. */
  lemma {:induction false} PairIndexed(n: nat, i: nat, a: nat, b: nat)
    requires a < i <= n && a < b < n
    ensures (a, b) in IndexPairs(n, i)
    decreases i
  {
    var before := IndexPairs(n, i - 1);
    if a < i - 1 {
      PairIndexed(n, i - 1, a, b);
      var x :| 0 <= x < |before| && before[x] == (a, b);
      assert IndexPairs(n, i)[x] == (a, b);
    } else {
      var row := Row(n, i - 1);
      assert row[b - i] == (a, b);
      assert IndexPairs(n, i)[|before| + b - i] == (a, b);
    }
  }

  /** The loops meet each unordered pair once. */
  lemma {:induction false} IndexPairsDistinct(n: nat, i: nat)
    requires i <= n
    ensures forall x, y :: 0 <= x < y < |IndexPairs(n, i)| ==> IndexPairs(n, i)[x] != IndexPairs(n, i)[y]
    decreases i
  {
    if i > 0 {
      IndexPairsDistinct(n, i - 1);
      var before := IndexPairs(n, i - 1);
      var row := Row(n, i - 1);
      var ps := IndexPairs(n, i);
      assert ps == before + row;
      forall x, y | 0 <= x < y < |ps| ensures ps[x] != ps[y] {
        if y < |before| {
          assert ps[x] == before[x] && ps[y] == before[y];
        } else if x < |before| {
          assert ps[x] == before[x] && ps[y] == row[y - |before|];
        } else {
          assert ps[x] == row[x - |before|] && ps[y] == row[y - |before|];
        }
      }
    }
  }

  /** All unordered pairs of positions of an n-element table. */
  function AllPairs(n: nat): (ps: seq<(nat, nat)>)
    ensures forall x :: 0 <= x < |ps| ==> ps[x].0 < ps[x].1 < n
  {
    IndexPairs(n, n)
  }

  ghost predicate InRange(ts: seq<Transaction>, ps: seq<(nat, nat)>) {
    forall x :: 0 <= x < |ps| ==> ps[x].0 < |ts| && ps[x].1 < |ts|
  }

  function KeyOf(ts: seq<Transaction>, p: (nat, nat)): string
    requires p.0 < |ts| && p.1 < |ts|
  {
    PairKey(ts[p.0], ts[p.1])
  }

  /** One pass of the inner loop body for the pair at positions p: a key
      already present is left alone, a new one gets the similarity of the
      two descriptions and goes last. */
  function Record(d: OrderedMap<real>, ts: seq<Transaction>, p: (nat, nat), sim: (string, string) -> real): OrderedMap<real>
    requires p.0 < |ts| && p.1 < |ts|
  {
    var key := KeyOf(ts, p);
    if key in d.values then d else d.Put(key, sim(ts[p.0].description, ts[p.1].description))
  }

  /** After one pass the pair has an entry. A key already present leaves
      the dict as it was; a new one is listed last, holds the similarity
      of the two descriptions, and every other entry keeps its value. */
  lemma RecordEntry(d: OrderedMap<real>, ts: seq<Transaction>, p: (nat, nat), sim: (string, string) -> real)
    requires p.0 < |ts| && p.1 < |ts|
    ensures var r := Record(d, ts, p, sim);
            var key := KeyOf(ts, p);
            && (d.Valid() ==> r.Valid())
            && key in r.values
            && (key in d.values ==> r == d)
            && (key !in d.values ==> && r.keys == d.keys + [key]
                                     && r.values[key] == sim(ts[p.0].description, ts[p.1].description)
                                     && forall k :: k in d.values ==> k in r.values && r.values[k] == d.values[k])
  {
  }

  /** The dict after recording the pairs `ps` in order, starting from `d`. */
  function Filled(d: OrderedMap<real>, ts: seq<Transaction>, ps: seq<(nat, nat)>, sim: (string, string) -> real): OrderedMap<real>
    requires InRange(ts, ps)
    decreases |ps|
  {
    if |ps| == 0 then d
    else Record(Filled(d, ts, ps[..|ps| - 1], sim), ts, ps[|ps| - 1], sim)
  }

  /** The keys of the pairs `ps`. */
  ghost function KeysOf(ts: seq<Transaction>, ps: seq<(nat, nat)>): set<string>
    requires InRange(ts, ps)
  {
    set x | 0 <= x < |ps| :: KeyOf(ts, ps[x])
  }

  /** Filling only adds keys: old entries keep their value and place, and
      the keys afterwards are the old ones plus one per recorded pair. */
  lemma {:induction false} FilledGrows(d: OrderedMap<real>, ts: seq<Transaction>, ps: seq<(nat, nat)>, sim: (string, string) -> real)
    requires d.Valid() && InRange(ts, ps)
    ensures Filled(d, ts, ps, sim).Valid()
    ensures Filled(d, ts, ps, sim).values.Keys == d.values.Keys + KeysOf(ts, ps)
    ensures forall k :: k in d.values ==> Filled(d, ts, ps, sim).values[k] == d.values[k]
    ensures |d.keys| <= |Filled(d, ts, ps, sim).keys| && Filled(d, ts, ps, sim).keys[..|d.keys|] == d.keys
    decreases |ps|
  {
    if |ps| > 0 {
      FilledGrows(d, ts, ps[..|ps| - 1], sim);
      KeysOfAppend(ts, ps);
    }
  }

  /** The keys of a list of pairs are those of all but its last, plus the
      last one's. */
  lemma KeysOfAppend(ts: seq<Transaction>, ps: seq<(nat, nat)>)
    requires InRange(ts, ps) && |ps| > 0
    ensures KeysOf(ts, ps) == KeysOf(ts, ps[..|ps| - 1]) + {KeyOf(ts, ps[|ps| - 1])}
  {
    var prefix := ps[..|ps| - 1];
    forall k | k in KeysOf(ts, ps) ensures k in KeysOf(ts, prefix) + {KeyOf(ts, ps[|ps| - 1])} {
      var x :| 0 <= x < |ps| && k == KeyOf(ts, ps[x]);
      if x < |ps| - 1 { assert prefix[x] == ps[x]; }
    }
    forall k | k in KeysOf(ts, prefix) ensures k in KeysOf(ts, ps) {
      var x :| 0 <= x < |prefix| && k == KeyOf(ts, prefix[x]);
      assert ps[x] == prefix[x];
    }
  }

  /** The value stored for a pair is the similarity of that pair, provided
      its key was new and no earlier pair had the same key. */
  lemma {:induction false} FilledFirstWins(d: OrderedMap<real>, ts: seq<Transaction>, ps: seq<(nat, nat)>,
                                           x: nat, sim: (string, string) -> real)
    requires d.Valid() && InRange(ts, ps) && x < |ps|
    requires KeyOf(ts, ps[x]) !in d.values
    requires forall y :: 0 <= y < x ==> KeyOf(ts, ps[y]) != KeyOf(ts, ps[x])
    ensures KeyOf(ts, ps[x]) in Filled(d, ts, ps, sim).values
    ensures Filled(d, ts, ps, sim).values[KeyOf(ts, ps[x])]
            == sim(ts[ps[x].0].description, ts[ps[x].1].description)
    decreases |ps|
  {
    var prefix := ps[..|ps| - 1];
    var key := KeyOf(ts, ps[x]);
    if x == |ps| - 1 {
      FilledGrows(d, ts, prefix, sim);
      assert forall y :: 0 <= y < |prefix| ==> prefix[y] == ps[y];
      assert key !in KeysOf(ts, prefix);
    } else {
      assert prefix[x] == ps[x];
      assert forall y :: 0 <= y < x ==> prefix[y] == ps[y];
      FilledFirstWins(d, ts, prefix, x, sim);
    }
  }

  /** With unique uuids free of '|', distinct pairs of positions have
      distinct keys. */
  lemma PairKeysDistinct(ts: seq<Transaction>, p: (nat, nat), q: (nat, nat))
    requires UniqueUuids(ts) && NoSeparator(ts)
    requires p.0 < p.1 < |ts| && q.0 < q.1 < |ts| && p != q
    ensures KeyOf(ts, p) != KeyOf(ts, q)
  {
    PairKeyInjective(ts[p.0], ts[p.1], ts[q.0], ts[q.1]);
    var left := {ts[p.0].uuid, ts[p.1].uuid};
    var right := {ts[q.0].uuid, ts[q.1].uuid};
    if p.0 == q.0 {
      assert ts[p.1].uuid in left && ts[p.1].uuid !in right;
    } else if p.0 == q.1 {
      assert ts[q.0].uuid in right && ts[q.0].uuid !in left;
    } else {
      assert ts[p.0].uuid in left && ts[p.0].uuid !in right;
    }
  }

  /** The table computed from an empty dict over a table of unique uuids:
      exactly one entry per unordered pair of distinct transactions, in the
      order the loops meet them, each holding the similarity of the two
      descriptions (the earlier transaction's first). */
  lemma DistanceTable(ts: seq<Transaction>, sim: (string, string) -> real)
    requires UniqueUuids(ts) && NoSeparator(ts)
    ensures var ps := AllPairs(|ts|);
            var d := Filled(EmptyMap(), ts, ps, sim);
            && d.keys == seq(|ps|, x requires 0 <= x < |ps| => KeyOf(ts, ps[x]))
            && (forall a, b :: 0 <= a < b < |ts| ==>
                  && PairKey(ts[a], ts[b]) in d.values
                  && d.values[PairKey(ts[a], ts[b])] == sim(ts[a].description, ts[b].description))
  {
    var ps := AllPairs(|ts|);
    IndexPairsDistinct(|ts|, |ts|);
    assert DistinctPairs(ts, ps);
    FreshKeysAppend(ts, ps, |ps|, sim);
    assert ps[..|ps|] == ps;
    forall a, b | 0 <= a < b < |ts|
      ensures var d := Filled(EmptyMap(), ts, ps, sim);
              && PairKey(ts[a], ts[b]) in d.values
              && d.values[PairKey(ts[a], ts[b])] == sim(ts[a].description, ts[b].description)
    {
      PairInTable(ts, sim, a, b);
    }
  }

  /** One pair of the table computed from an empty dict. */
  lemma {:induction false} PairInTable(ts: seq<Transaction>, sim: (string, string) -> real, a: nat, b: nat)
    requires UniqueUuids(ts) && NoSeparator(ts) && a < b < |ts|
    ensures var d := Filled(EmptyMap(), ts, AllPairs(|ts|), sim);
            && PairKey(ts[a], ts[b]) in d.values
            && d.values[PairKey(ts[a], ts[b])] == sim(ts[a].description, ts[b].description)
  {
    var ps := AllPairs(|ts|);
    PairIndexed(|ts|, |ts|, a, b);
    IndexPairsDistinct(|ts|, |ts|);
    var x :| 0 <= x < |ps| && ps[x] == (a, b);
    forall y | 0 <= y < x ensures KeyOf(ts, ps[y]) != KeyOf(ts, ps[x]) {
      assert ps[y] != ps[x];
      PairKeysDistinct(ts, ps[y], ps[x]);
    }
    FilledFirstWins(EmptyMap(), ts, ps, x, sim);
  }

  /** Every key of a list of distinct position pairs is fresh, so each
      step of the fill appends it. */
  lemma {:induction false} FreshKeysAppend(ts: seq<Transaction>, ps: seq<(nat, nat)>, m: nat, sim: (string, string) -> real)
    requires UniqueUuids(ts) && NoSeparator(ts)
    requires DistinctPairs(ts, ps) && m <= |ps|
    ensures var keys := Filled(EmptyMap(), ts, ps[..m], sim).keys;
            |keys| == m && forall x :: 0 <= x < m ==> keys[x] == KeyOf(ts, ps[x])
    decreases m
  {
    if m > 0 {
      FreshKeysAppend(ts, ps, m - 1, sim);
      var before := Filled(EmptyMap(), ts, ps[..m - 1], sim);
      FreshKeyAbsent(ts, ps, m, sim);
      FilledAppends(EmptyMap(), ts, ps, m, sim);
      KeysExtend(ts, ps, m, before.keys, Filled(EmptyMap(), ts, ps[..m], sim).keys);
    }
  }

  /** The keys of the first m pairs are those of the first m - 1 and then
      the key of pair m - 1. */
  lemma KeysExtend(ts: seq<Transaction>, ps: seq<(nat, nat)>, m: nat, before: seq<string>, after: seq<string>)
    requires InRange(ts, ps) && 0 < m <= |ps|
    requires |before| == m - 1 && forall x :: 0 <= x < m - 1 ==> before[x] == KeyOf(ts, ps[x])
    requires after == before + [KeyOf(ts, ps[m - 1])]
    ensures |after| == m && forall x :: 0 <= x < m ==> after[x] == KeyOf(ts, ps[x])
  {
  }

  /** The key of a pair is not among those of the distinct pairs before it. */
  lemma FreshKeyAbsent(ts: seq<Transaction>, ps: seq<(nat, nat)>, m: nat, sim: (string, string) -> real)
    requires UniqueUuids(ts) && NoSeparator(ts)
    requires DistinctPairs(ts, ps) && 0 < m <= |ps|
    ensures KeyOf(ts, ps[m - 1]) !in Filled(EmptyMap(), ts, ps[..m - 1], sim).values
  {
    var prefix := ps[..m - 1];
    FilledGrows(EmptyMap(), ts, prefix, sim);
    var key := KeyOf(ts, ps[m - 1]);
    forall y | 0 <= y < m - 1 ensures KeyOf(ts, prefix[y]) != key {
      PairKeysDistinct(ts, ps[y], ps[m - 1]);
    }
  }

  /** Recording a pair whose key is new appends that key. */
  lemma FilledAppends(d: OrderedMap<real>, ts: seq<Transaction>, ps: seq<(nat, nat)>, m: nat, sim: (string, string) -> real)
    requires d.Valid() && InRange(ts, ps) && 0 < m <= |ps|
    requires KeyOf(ts, ps[m - 1]) !in Filled(d, ts, ps[..m - 1], sim).values
    ensures Filled(d, ts, ps[..m], sim).keys == Filled(d, ts, ps[..m - 1], sim).keys + [KeyOf(ts, ps[m - 1])]
  {
    assert ps[..m][..m - 1] == ps[..m - 1] && ps[..m][m - 1] == ps[m - 1];
  }

  /** Ordered, pairwise different position pairs of `ts`. */
  ghost predicate DistinctPairs(ts: seq<Transaction>, ps: seq<(nat, nat)>) {
    && (forall x :: 0 <= x < |ps| ==> ps[x].0 < ps[x].1 < |ts|)
    && (forall x, y :: 0 <= x < y < |ps| ==> ps[x] != ps[y])
  }

  /** `get_distance`: the table entry under the pair's key, or None where
      Python raises KeyError. */
  function GetDistance(d: OrderedMap<real>, t1: Transaction, t2: Transaction): (r: Option<real>)
    ensures r.Some? <==> PairKey(t1, t2) in d.values
  {
    var key := PairKey(t1, t2);
    if key in d.values then Some(d.values[key]) else None
  }

  /** The distance does not depend on the order of the two transactions. */
  lemma GetDistanceSymmetric(d: OrderedMap<real>, t1: Transaction, t2: Transaction)
    ensures GetDistance(d, t1, t2) == GetDistance(d, t2, t1)
  {
    PairKeySymmetric(t1, t2);
  }

  /** In the computed table, the distance of two different table entries
      is the similarity of their descriptions, taken in table order. */
  lemma GetDistanceInTable(ts: seq<Transaction>, sim: (string, string) -> real, a: nat, b: nat)
    requires UniqueUuids(ts) && NoSeparator(ts)
    requires a < |ts| && b < |ts| && a != b
    ensures GetDistance(Filled(EmptyMap(), ts, AllPairs(|ts|), sim), ts[a], ts[b])
            == Some(if a < b then sim(ts[a].description, ts[b].description)
                    else sim(ts[b].description, ts[a].description))
  {
    DistanceTable(ts, sim);
    PairKeySymmetric(ts[a], ts[b]);
  }

  /** Every recorded pair has an entry afterwards. */
  lemma KeyRecorded(d: OrderedMap<real>, ts: seq<Transaction>, ps: seq<(nat, nat)>, x: nat, sim: (string, string) -> real)
    requires d.Valid() && InRange(ts, ps) && x < |ps|
    ensures KeyOf(ts, ps[x]) in Filled(d, ts, ps, sim).values
  {
    FilledGrows(d, ts, ps, sim);
    assert KeyOf(ts, ps[x]) in KeysOf(ts, ps);
  }

  /** After recording all pairs, every two different table entries have a
      distance, in either order. */
  lemma FilledCovers(d: OrderedMap<real>, ts: seq<Transaction>, sim: (string, string) -> real)
    requires d.Valid()
    ensures forall a, b :: 0 <= a < |ts| && 0 <= b < |ts| && a != b ==>
              PairKey(ts[a], ts[b]) in Filled(d, ts, AllPairs(|ts|), sim).values
  {
    forall a, b | 0 <= a < |ts| && 0 <= b < |ts| && a != b
      ensures PairKey(ts[a], ts[b]) in Filled(d, ts, AllPairs(|ts|), sim).values
    {
      PairCovered(d, ts, sim, a, b);
    }
  }

  lemma PairCovered(d: OrderedMap<real>, ts: seq<Transaction>, sim: (string, string) -> real, a: nat, b: nat)
    requires d.Valid() && a < |ts| && b < |ts| && a != b
    ensures PairKey(ts[a], ts[b]) in Filled(d, ts, AllPairs(|ts|), sim).values
  {
    var ps := IndexPairs(|ts|, |ts|);
    assert ps == AllPairs(|ts|);
    var p := if a < b then (a, b) else (b, a);
    PairIndexed(|ts|, |ts|, p.0, p.1);
    var x :| 0 <= x < |ps| && ps[x] == p;
    KeyRecorded(d, ts, ps, x, sim);
    assert KeyOf(ts, ps[x]) == PairKey(ts[p.0], ts[p.1]);
    PairKeySymmetric(ts[a], ts[b]);
  }

  /** Every key the fill adds names two table entries, so a table whose
      keys all resolved still does afterwards. */
  lemma FilledResolvable(d: OrderedMap<real>, ts: seq<Transaction>, sim: (string, string) -> real)
    requires d.Valid() && UniqueUuids(ts) && NoSeparator(ts)
    requires forall k :: 0 <= k < |d.keys| ==> GetTransactionsFromKey(ts, d.keys[k]).Some?
    ensures var e := Filled(d, ts, AllPairs(|ts|), sim);
            forall k :: 0 <= k < |e.keys| ==> GetTransactionsFromKey(ts, e.keys[k]).Some?
  {
    var ps := AllPairs(|ts|);
    var e := Filled(d, ts, ps, sim);
    FilledGrows(d, ts, ps, sim);
    forall k | 0 <= k < |e.keys| ensures GetTransactionsFromKey(ts, e.keys[k]).Some? {
      KeyResolves(d, ts, ps, e.keys[k], sim);
    }
  }

  lemma KeyResolves(d: OrderedMap<real>, ts: seq<Transaction>, ps: seq<(nat, nat)>, key: string, sim: (string, string) -> real)
    requires d.Valid() && UniqueUuids(ts) && NoSeparator(ts) && InRange(ts, ps)
    requires forall k :: 0 <= k < |d.keys| ==> GetTransactionsFromKey(ts, d.keys[k]).Some?
    requires key in d.values.Keys + KeysOf(ts, ps)
    ensures GetTransactionsFromKey(ts, key).Some?
  {
    if key in d.values {
      var j :| 0 <= j < |d.keys| && d.keys[j] == key;
    } else {
      var x :| 0 <= x < |ps| && key == KeyOf(ts, ps[x]);
      GetTransactionsFromPairKey(ts, ts[ps[x].0], ts[ps[x].1]);
    }
  }
}
