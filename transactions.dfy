/** Transactions, the canonical pair key of two transactions, and the mean
    day interval of a list of transactions (finder.py, `Transaction`,
    `get_pair_key`, `get_transactions_from_key`, `get_mean_interval`). */
module Transactions {
  import opened Base

  /** A transaction as the core sees it. The uuid is the md5 hex digest of
      the record and is taken as given; the date is a day ordinal, so the
      difference of two dates is the `.days` of Python's date difference. */
  datatype Transaction = Transaction(uuid: string, date: int, description: string)

  /** The character that joins the two uuids of a pair key. */
  const Separator: char := '|'

  /** Pairwise distinct uuids: the values of a dict keyed by uuid. */
  ghost predicate UniqueUuids(ts: seq<Transaction>) {
    forall i, j :: 0 <= i < j < |ts| ==> ts[i].uuid != ts[j].uuid
  }

  /** No uuid contains the separator (an md5 hex digest never does). */
  ghost predicate NoSeparator(ts: seq<Transaction>) {
    forall i :: 0 <= i < |ts| ==> Separator !in ts[i].uuid
  }

  // ---------------------------------------------------------------------
  // Python's ordering of strings

  /** `a < b` on Python strings: lexicographic by code point, a proper
      prefix being smaller. */
  predicate LexLess(a: string, b: string) {
    if |a| == 0 then |b| > 0
    else if |b| == 0 then false
    else if a[0] != b[0] then a[0] < b[0]
    else LexLess(a[1..], b[1..])
  }

  lemma {:induction false} LexLessAsymmetric(a: string, b: string)
    ensures LexLess(a, b) ==> !LexLess(b, a)
  {
    if |a| > 0 && |b| > 0 && a[0] == b[0] {
      LexLessAsymmetric(a[1..], b[1..]);
    }
  }

  lemma {:induction false} LexLessTotal(a: string, b: string)
    ensures a != b ==> LexLess(a, b) || LexLess(b, a)
  {
    if |a| > 0 && |b| > 0 && a[0] == b[0] {
      LexLessTotal(a[1..], b[1..]);
      if a[1..] == b[1..] {
        assert a == [a[0]] + a[1..] && b == [b[0]] + b[1..];
      }
    }
  }

  // ---------------------------------------------------------------------
  // Pair keys

  /** `get_pair_key`: the two uuids in ascending order, joined by '|'.
      Python's `sorted` is stable, so on equal uuids `t1` comes first. */
  function PairKey(t1: Transaction, t2: Transaction): (k: string)
    ensures k == t1.uuid + [Separator] + t2.uuid || k == t2.uuid + [Separator] + t1.uuid
  {
    if LexLess(t2.uuid, t1.uuid) then t2.uuid + [Separator] + t1.uuid
    else t1.uuid + [Separator] + t2.uuid
  }

  /** The uuid that comes first in the pair key. */
  function Lower(t1: Transaction, t2: Transaction): (u: string)
    ensures u == t1.uuid || u == t2.uuid
  {
    if LexLess(t2.uuid, t1.uuid) then t2.uuid else t1.uuid
  }

  /** The uuid that comes second in the pair key. */
  function Upper(t1: Transaction, t2: Transaction): (u: string)
    ensures u == t1.uuid || u == t2.uuid
  {
    if LexLess(t2.uuid, t1.uuid) then t1.uuid else t2.uuid
  }

  /** The key does not depend on the order of its arguments: the distance
      table is symmetric by construction. */
  lemma PairKeySymmetric(t1: Transaction, t2: Transaction)
    ensures PairKey(t1, t2) == PairKey(t2, t1)
    ensures Lower(t1, t2) == Lower(t2, t1) && Upper(t1, t2) == Upper(t2, t1)
  {
    LexLessAsymmetric(t1.uuid, t2.uuid);
    LexLessTotal(t1.uuid, t2.uuid);
  }

  /** The key lists the smaller uuid first, and the two uuids are in order. */
  lemma PairKeySorted(t1: Transaction, t2: Transaction)
    ensures PairKey(t1, t2) == Lower(t1, t2) + [Separator] + Upper(t1, t2)
    ensures !LexLess(Upper(t1, t2), Lower(t1, t2))
    ensures {Lower(t1, t2), Upper(t1, t2)} == {t1.uuid, t2.uuid}
  {
    LexLessAsymmetric(t1.uuid, t2.uuid);
  }

  // ---------------------------------------------------------------------
  // Python's str.split with a one-character separator

  /** The inverse of `Split`: the pieces joined by the separator. */
  function Join(parts: seq<string>, sep: char): string
    requires |parts| >= 1
  {
    if |parts| == 1 then parts[0] else parts[0] + [sep] + Join(parts[1..], sep)
  }

  /** `s.split(sep)`: the maximal pieces between separators; the empty
      string gives one empty piece. */
  function Split(s: string, sep: char): (parts: seq<string>)
    ensures |parts| >= 1
    ensures forall i :: 0 <= i < |parts| ==> sep !in parts[i]
    ensures Join(parts, sep) == s
    decreases |s|
  {
    if |s| == 0 then [""]
    else
      var rest := Split(s[1..], sep);
      if s[0] == sep then
        assert s == [sep] + s[1..];
        [""] + rest
      else
        assert Join(rest, sep) == s[1..];
        var parts := [[s[0]] + rest[0]] + rest[1..];
        assert |rest| > 1 ==> Join(parts, sep) == [s[0]] + rest[0] + [sep] + Join(rest[1..], sep);
        parts
  }

  /** Splitting `a|b` gives back `a` and `b` when neither contains '|'. */
  lemma {:induction false} SplitJoined(a: string, b: string, sep: char)
    requires sep !in a && sep !in b
    ensures Split(a + [sep] + b, sep) == [a, b]
    decreases |a|
  {
    if |a| == 0 {
      assert a + [sep] + b == [sep] + b;
      assert ([sep] + b)[1..] == b;
      SplitWithout(b, sep);
    } else {
      assert (a + [sep] + b)[1..] == a[1..] + [sep] + b;
      SplitJoined(a[1..], b, sep);
      assert [a[0]] + a[1..] == a;
    }
  }

  /** A string without the separator is a single piece. */
  lemma {:induction false} SplitWithout(s: string, sep: char)
    requires sep !in s
    ensures Split(s, sep) == [s]
    decreases |s|
  {
    if |s| > 0 {
      SplitWithout(s[1..], sep);
      assert [s[0]] + s[1..] == s;
    }
  }

  /** Two pairs with the same key name the same two uuids. */
  lemma PairKeyInjective(a: Transaction, b: Transaction, c: Transaction, d: Transaction)
    requires Separator !in a.uuid && Separator !in b.uuid
    requires Separator !in c.uuid && Separator !in d.uuid
    ensures PairKey(a, b) == PairKey(c, d) ==> {a.uuid, b.uuid} == {c.uuid, d.uuid}
  {
    PairKeySorted(a, b);
    PairKeySorted(c, d);
    SplitJoined(Lower(a, b), Upper(a, b), Separator);
    SplitJoined(Lower(c, d), Upper(c, d), Separator);
  }

  // ---------------------------------------------------------------------
  // Looking transactions up by uuid

  /** `self.transactions[uuid]`: the table entry with that uuid, or None
      where Python raises KeyError. */
  function Lookup(table: seq<Transaction>, uuid: string): (r: Option<Transaction>)
    ensures r.Some? ==> r.value in table && r.value.uuid == uuid
    ensures r.None? <==> forall i :: 0 <= i < |table| ==> table[i].uuid != uuid
  {
    if |table| == 0 then None
    else if table[0].uuid == uuid then Some(table[0])
    else Lookup(table[1..], uuid)
  }

  /** In a table with unique uuids, a transaction is found by its uuid. */
  lemma {:induction false} LookupFinds(table: seq<Transaction>, t: Transaction)
    requires UniqueUuids(table) && t in table
    ensures Lookup(table, t.uuid) == Some(t)
  {
    if table[0] != t {
      assert table[0].uuid != t.uuid by {
        var k :| 0 <= k < |table| && table[k] == t;
        assert k != 0;
      }
      assert t in table[1..] by {
        var k :| 0 <= k < |table| && table[k] == t;
        assert table[1..][k - 1] == t;
      }
      LookupFinds(table[1..], t);
    }
  }

  /** `get_transactions_from_key`: split the key on '|' and look both uuids
      up. None stands for the ValueError of a key that does not split into
      exactly two pieces and for the KeyError of an unknown uuid. */
  function GetTransactionsFromKey(table: seq<Transaction>, key: string): (r: Option<(Transaction, Transaction)>)
    ensures r.Some? ==> r.value.0 in table && r.value.1 in table
    ensures r.Some? ==> key == r.value.0.uuid + [Separator] + r.value.1.uuid
  {
    var parts := Split(key, Separator);
    if |parts| != 2 then None
    else
      match (Lookup(table, parts[0]), Lookup(table, parts[1]))
      case (Some(t1), Some(t2)) =>
        assert Join(parts[1..], Separator) == parts[1];
        Some((t1, t2))
      case _ => None
  }

  /** Round trip: the key of two table transactions gives them back, the
      one with the smaller uuid first. */
  lemma GetTransactionsFromPairKey(table: seq<Transaction>, a: Transaction, b: Transaction)
    requires UniqueUuids(table) && NoSeparator(table)
    requires a in table && b in table
    ensures GetTransactionsFromKey(table, PairKey(a, b))
            == Some(if LexLess(b.uuid, a.uuid) then (b, a) else (a, b))
  {
    var ia :| 0 <= ia < |table| && table[ia] == a;
    var ib :| 0 <= ib < |table| && table[ib] == b;
    if LexLess(b.uuid, a.uuid) {
      SplitJoined(b.uuid, a.uuid, Separator);
    } else {
      SplitJoined(a.uuid, b.uuid, Separator);
    }
    LookupFinds(table, a);
    LookupFinds(table, b);
  }

  // ---------------------------------------------------------------------
  // Day intervals and their mean

  /** The day intervals between consecutive transactions, in order (GapsAt
      states which interval sits where). */
  function Gaps(ts: seq<Transaction>): (gaps: seq<int>)
    ensures |gaps| == if |ts| == 0 then 0 else |ts| - 1
  {
    if |ts| <= 1 then [] else Gaps(ts[..|ts| - 1]) + [ts[|ts| - 1].date - ts[|ts| - 2].date]
  }

  /** Interval k runs from transaction k to transaction k + 1. */
  lemma {:induction false} GapsAt(ts: seq<Transaction>)
    ensures forall k :: 0 <= k < |Gaps(ts)| ==> Gaps(ts)[k] == ts[k + 1].date - ts[k].date
    decreases |ts|
  {
    if |ts| > 1 {
      var init := ts[..|ts| - 1];
      GapsAt(init);
      forall k | 0 <= k < |Gaps(ts)| ensures Gaps(ts)[k] == ts[k + 1].date - ts[k].date {
        if k < |Gaps(init)| {
          assert Gaps(ts)[k] == Gaps(init)[k];
        }
      }
    }
  }

  function Sum(xs: seq<int>): int {
    if |xs| == 0 then 0 else Sum(xs[..|xs| - 1]) + xs[|xs| - 1]
  }

  /** The mean day interval of a list of transactions; None where
      `statistics.mean` raises on an empty list of intervals, that is for
      fewer than two transactions. The intervals telescope, so the mean is
      the span from the first to the last date over the number of
      intervals (MeanIntervalOfGaps relates it to the intervals). */
  function MeanInterval(ts: seq<Transaction>): (m: Option<real>)
    ensures m.None? <==> |ts| < 2
  {
    if |ts| < 2 then None else Some((ts[|ts| - 1].date - ts[0].date) as real / (|ts| - 1) as real)
  }

  lemma SumSnoc(xs: seq<int>, x: int)
    ensures Sum(xs + [x]) == Sum(xs) + x
  {
    assert (xs + [x])[..|xs|] == xs;
  }

  /** The intervals telescope: together they span first to last date. */
  lemma {:induction false} GapsTelescope(ts: seq<Transaction>)
    requires |ts| >= 1
    ensures Sum(Gaps(ts)) == ts[|ts| - 1].date - ts[0].date
    decreases |ts|
  {
    if |ts| > 1 {
      var n := |ts|;
      var init := ts[..n - 1];
      var last := ts[n - 1].date - ts[n - 2].date;
      GapsTelescope(init);
      assert Gaps(ts) == Gaps(init) + [last];
      SumSnoc(Gaps(init), last);
      assert init[n - 2] == ts[n - 2] && init[0] == ts[0];
    }
  }

  /** The mean interval is the sum of the day intervals over their number,
      as `statistics.mean(intervals)` computes it. */
  lemma MeanIntervalOfGaps(ts: seq<Transaction>)
    requires |ts| >= 2
    ensures MeanInterval(ts) == Some(Sum(Gaps(ts)) as real / |Gaps(ts)| as real)
  {
    GapsTelescope(ts);
  }

  /** One more transaction adds one interval at the end. */
  lemma GapsSnoc(ts: seq<Transaction>, i: nat)
    requires 1 <= i < |ts|
    ensures Gaps(ts[..i + 1]) == Gaps(ts[..i]) + [ts[i].date - ts[i - 1].date]
  {
    assert ts[..i + 1][..i] == ts[..i];
  }

  /** `get_mean_interval`: collect the day interval from each transaction
      to the next, then take their mean. */
  method GetMeanInterval(ts: seq<Transaction>) returns (m: Option<real>)
    ensures m == MeanInterval(ts)
  {
    var intervals: seq<int> := [];
    var prev: Option<Transaction> := None;
    var i := 0;
    while i < |ts|
      invariant 0 <= i <= |ts|
      invariant prev == if i == 0 then None else Some(ts[i - 1])
      invariant intervals == Gaps(ts[..i])
    {
      var t := ts[i];
      if prev.Some? {
        GapsSnoc(ts, i);
        intervals := intervals + [t.date - prev.value.date];
      }
      prev := Some(t);
      i := i + 1;
    }
    assert ts[..i] == ts;
    if |intervals| == 0 {
      return None;
    }
    MeanIntervalOfGaps(ts);
    var mean := Sum(intervals) as real / |intervals| as real;
    m := Some(mean);
  }

  /** The mean of the transactions from position j on,
      `get_mean_interval(ts[j:])`. */
  function MeanIntervalFrom(ts: seq<Transaction>, j: nat): (m: Option<real>)
    requires j <= |ts|
    ensures m.None? <==> |ts| - j < 2
  {
    MeanInterval(ts[j..])
  }

  /** Dates never decrease along the list. */
  ghost predicate DateSorted(ts: seq<Transaction>) {
    forall i, j :: 0 <= i < j < |ts| ==> ts[i].date <= ts[j].date
  }
}
