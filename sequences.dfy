/** A sequence of recurring transactions (finder.py, class `Sequence`):
    its transactions kept in a dict keyed by uuid, plus the frequency (mean
    day interval) it was found with. */
module Sequences {
  import opened Base
  import opened Transactions

  datatype Sequence = Sequence(transactions: OrderedMap<Transaction>, frequency: real)

  /** Every entry of the dict is stored under its own uuid. */
  ghost predicate WellKeyed(d: OrderedMap<Transaction>) {
    d.Valid() && forall u :: u in d.values ==> d.values[u].uuid == u
  }

  /** The dict that `Sequence.__init__` builds: `self.transactions[t.uuid] = t`
      for each transaction in turn, so the first occurrence of a uuid fixes
      its position and the last one its value. */
  function Index(ts: seq<Transaction>): (d: OrderedMap<Transaction>)
    ensures WellKeyed(d)
    ensures forall i :: 0 <= i < |ts| ==> ts[i].uuid in d.values
    decreases |ts|
  {
    if |ts| == 0 then EmptyMap()
    else
      var prefix := ts[..|ts| - 1];
      assert ts == prefix + [ts[|ts| - 1]];
      Index(prefix).Put(ts[|ts| - 1].uuid, ts[|ts| - 1])
  }

  /** Every value in the dict is one of the transactions. */
  lemma {:induction false} IndexValuesFrom(ts: seq<Transaction>)
    ensures forall u :: u in Index(ts).values ==> Index(ts).values[u] in ts
    decreases |ts|
  {
    if |ts| > 0 {
      var prefix := ts[..|ts| - 1];
      IndexValuesFrom(prefix);
      assert ts == prefix + [ts[|ts| - 1]];
    }
  }

  /** With unique uuids the dict holds exactly the transactions, in order. */
  lemma {:induction false} IndexOfUnique(ts: seq<Transaction>)
    requires UniqueUuids(ts)
    ensures Index(ts).Items() == ts
    decreases |ts|
  {
    if |ts| > 0 {
      var prefix := ts[..|ts| - 1];
      var last := ts[|ts| - 1];
      assert ts == prefix + [last];
      assert UniqueUuids(prefix);
      IndexOfUnique(prefix);
      var before := Index(prefix);
      assert last.uuid !in before.values;
      PutNewAppends(before, last.uuid, last);
    }
  }

  lemma PutNewAppends(d: OrderedMap<Transaction>, k: string, v: Transaction)
    requires d.Valid() && k !in d.values
    ensures d.Put(k, v).Items() == d.Items() + [v]
  {
    var e := d.Put(k, v);
    assert e.keys == d.keys + [k];
    forall i | 0 <= i < |d.keys| ensures e.Items()[i] == d.Items()[i] {
      assert e.keys[i] == d.keys[i];
    }
  }

  /** `Sequence(transactions, frequency)`. */
  function NewSequence(ts: seq<Transaction>, frequency: real): (s: Sequence)
    ensures WellKeyed(s.transactions) && s.frequency == frequency
    ensures forall i :: 0 <= i < |ts| ==> ts[i].uuid in s.transactions.values
    ensures UniqueUuids(ts) ==> s.transactions.Items() == ts && |s.transactions.keys| == |ts|
  {
    assert UniqueUuids(ts) ==> Index(ts).Items() == ts by {
      if UniqueUuids(ts) { IndexOfUnique(ts); }
    }
    Sequence(Index(ts), frequency)
  }

  /** The values under `keys`, in order, skipping the key `u`. */
  function OthersOf(keys: seq<string>, values: map<string, Transaction>, u: string): seq<Transaction>
    requires forall k :: k in keys ==> k in values
  {
    if |keys| == 0 then []
    else (if keys[0] == u then [] else [values[keys[0]]]) + OthersOf(keys[1..], values, u)
  }

  /** `get_other_transactions`: all members except `t`, in the dict's
      order, or the empty list when `t` is not a member (the KeyError
      that Python catches). */
  function GetOtherTransactions(s: Sequence, t: Transaction): (others: seq<Transaction>)
    requires s.transactions.Valid()
    ensures t.uuid !in s.transactions.values ==> others == []
    ensures forall i :: 0 <= i < |s.transactions.keys| && s.transactions.keys[i] == t.uuid ==>
              others == s.transactions.Items()[..i] + s.transactions.Items()[i + 1..]
  {
    if t.uuid !in s.transactions.values then []
    else
      var d := s.transactions;
      forall i | 0 <= i < |d.keys| && d.keys[i] == t.uuid
        ensures OthersOf(d.keys, d.values, t.uuid) == d.Items()[..i] + d.Items()[i + 1..]
      {
        OthersOfRemovesOne(d, t.uuid, i);
      }
      OthersOf(d.keys, d.values, t.uuid)
  }

  /** The values under `keys`, in order. */
  function ValuesOf(keys: seq<string>, values: map<string, Transaction>): (vs: seq<Transaction>)
    requires forall k :: k in keys ==> k in values
    ensures |vs| == |keys|
  {
    if |keys| == 0 then [] else [values[keys[0]]] + ValuesOf(keys[1..], values)
  }

  lemma {:induction false} ValuesOfItems(keys: seq<string>, values: map<string, Transaction>, j: nat)
    requires forall k :: k in keys ==> k in values
    requires j < |keys|
    ensures ValuesOf(keys, values)[j] == values[keys[j]]
    decreases j
  {
    if j > 0 {
      ValuesOfItems(keys[1..], values, j - 1);
    }
  }

  /** Of a well-formed dict, `ValuesOf` a slice of the keys is the same
      slice of its values. */
  lemma ValuesOfSlice(d: OrderedMap<Transaction>, lo: nat, hi: nat)
    requires d.Valid() && lo <= hi <= |d.keys|
    ensures ValuesOf(d.keys[lo..hi], d.values) == d.Items()[lo..hi]
  {
    var keys := d.keys[lo..hi];
    forall j | 0 <= j < hi - lo ensures ValuesOf(keys, d.values)[j] == d.Items()[lo..hi][j] {
      ValuesOfItems(keys, d.values, j);
    }
  }

  /** Skipping a key that is not there skips nothing. */
  lemma {:induction false} OthersOfWithout(keys: seq<string>, values: map<string, Transaction>, u: string)
    requires forall k :: k in keys ==> k in values
    requires u !in keys
    ensures OthersOf(keys, values, u) == ValuesOf(keys, values)
    decreases |keys|
  {
    if |keys| > 0 {
      OthersOfWithout(keys[1..], values, u);
    }
  }

  /** Skipping a key listed once, at `i`, leaves the values before and
      after it. */
  lemma {:induction false} OthersOfSkips(keys: seq<string>, values: map<string, Transaction>, u: string, i: nat)
    requires forall k :: k in keys ==> k in values
    requires i < |keys| && keys[i] == u && u !in keys[..i] && u !in keys[i + 1..]
    ensures OthersOf(keys, values, u) == ValuesOf(keys[..i], values) + ValuesOf(keys[i + 1..], values)
    decreases i
  {
    if i == 0 {
      assert keys[1..] == keys[i + 1..];
      OthersOfWithout(keys[1..], values, u);
    } else {
      var tail := keys[1..];
      assert tail[..i - 1] == keys[..i][1..] && tail[i..] == keys[i + 1..];
      OthersOfSkips(tail, values, u, i - 1);
    }
  }

  /** `get_other_transactions` on a dict: the values before and after the
      one under `u`. */
  lemma OthersOfRemovesOne(d: OrderedMap<Transaction>, u: string, i: nat)
    requires d.Valid() && i < |d.keys| && d.keys[i] == u
    ensures OthersOf(d.keys, d.values, u) == d.Items()[..i] + d.Items()[i + 1..]
  {
    var keys := d.keys;
    assert u !in keys[..i] && u !in keys[i + 1..];
    OthersOfSkips(keys, d.values, u, i);
    ValuesOfSlice(d, 0, i);
    ValuesOfSlice(d, i + 1, |keys|);
    assert keys[..i] == keys[0..i] && keys[i + 1..] == keys[i + 1..|keys|];
    assert d.Items()[..i] == d.Items()[0..i] && d.Items()[i + 1..] == d.Items()[i + 1..|keys|];
  }

  /** A member gets every other member back: one fewer than the size. */
  lemma OtherTransactionsOfMember(s: Sequence, t: Transaction)
    requires WellKeyed(s.transactions) && t.uuid in s.transactions.values
    ensures |GetOtherTransactions(s, t)| == |s.transactions.keys| - 1
    ensures forall x :: x in GetOtherTransactions(s, t) <==>
              x in s.transactions.values.Values && x.uuid != t.uuid
  {
    var d := s.transactions;
    var i :| 0 <= i < |d.keys| && d.keys[i] == t.uuid;
    var others := GetOtherTransactions(s, t);
    assert others == d.Items()[..i] + d.Items()[i + 1..];
    forall x ensures x in others <==> x in d.values.Values && x.uuid != t.uuid {
      RemovedAtMembers(d, i, x);
    }
  }

  lemma RemovedAtMembers(d: OrderedMap<Transaction>, i: nat, x: Transaction)
    requires WellKeyed(d) && i < |d.keys|
    ensures var items := d.Items();
            x in items[..i] + items[i + 1..] <==> x in d.values.Values && x.uuid != d.keys[i]
  {
    var items := d.Items();
    if x in items[..i] + items[i + 1..] {
      RemovedAtSound(d, i, x);
    }
    if x in d.values.Values && x.uuid != d.keys[i] {
      RemovedAtComplete(d, i, x);
    }
  }

  lemma RemovedAtSound(d: OrderedMap<Transaction>, i: nat, x: Transaction)
    requires WellKeyed(d) && i < |d.keys|
    requires x in d.Items()[..i] + d.Items()[i + 1..]
    ensures x in d.values.Values && x.uuid != d.keys[i]
  {
    var items := d.Items();
    var others := items[..i] + items[i + 1..];
    var k :| 0 <= k < |others| && others[k] == x;
    var j := if k < i then k else k + 1;
    if k < i {
      assert others[k] == items[k];
    } else {
      assert others[k] == items[k + 1];
    }
    assert x == items[j] && j != i;
    var key := d.keys[j];
    assert key in d.values && d.values[key] == x;
    assert x.uuid == key && key != d.keys[i];
  }

  lemma RemovedAtComplete(d: OrderedMap<Transaction>, i: nat, x: Transaction)
    requires WellKeyed(d) && i < |d.keys|
    requires x in d.values.Values && x.uuid != d.keys[i]
    ensures x in d.Items()[..i] + d.Items()[i + 1..]
  {
    var items := d.Items();
    var others := items[..i] + items[i + 1..];
    var key :| key in d.values && d.values[key] == x;
    assert key in d.keys;
    var j :| 0 <= j < |d.keys| && d.keys[j] == key;
    assert items[j] == x && j != i;
    if j < i { assert others[j] == x; } else { assert others[j - 1] == x; }
  }
}
