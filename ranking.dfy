/** Ranking of group totals: sort by value, largest first, then keep the first N
    (`sort_values(ascending=False).head(N)`, `value_counts()`). The code does not
    promise an order among equal values, and neither does this model's contract. */
module Ranking {

  /** One row of a group-by summary: a group key and its aggregated value. */
  datatype Entry = Entry(key: string, value: int)

  /** Values never increase along s. */
  predicate SortedDesc(s: seq<Entry>) {
    forall i, j :: 0 <= i < j < |s| ==> s[i].value >= s[j].value
  }

  /** No key occurs twice in s. */
  predicate DistinctKeys(s: seq<Entry>) {
    forall i, j :: 0 <= i < j < |s| ==> s[i].key != s[j].key
  }

  function KeysOf(s: seq<Entry>): set<string> {
    set e | e in s :: e.key
  }

  /** The sum of the values of s. */
  function SumValues(s: seq<Entry>): int {
    if |s| == 0 then 0 else s[0].value + SumValues(s[1..])
  }

  /** x inserted into a list sorted largest first, before the entries it is not smaller than. */
  function Insert(x: Entry, s: seq<Entry>): (r: seq<Entry>)
    requires SortedDesc(s)
    ensures SortedDesc(r)
    ensures multiset(r) == multiset(s) + multiset{x}
  {
    if |s| == 0 then [x]
    else if x.value >= s[0].value then [x] + s
    else
      var rest := Insert(x, s[1..]);
      assert s == [s[0]] + s[1..];
      forall e | e in rest ensures e.value <= s[0].value {
        assert e in multiset(rest);
        assert e in multiset(s[1..]) || e == x;
      }
      ConsSorted(s[0], rest);
      [s[0]] + rest
  }

  /** An entry no smaller than every entry of a sorted list can go in front of it. */
  lemma ConsSorted(h: Entry, rest: seq<Entry>)
    requires SortedDesc(rest)
    requires forall e :: e in rest ==> e.value <= h.value
    ensures SortedDesc([h] + rest)
  {
    var r := [h] + rest;
    forall i, j | 0 <= i < j < |r| ensures r[i].value >= r[j].value {
      assert r[j] == rest[j - 1] && rest[j - 1] in rest;
      if i > 0 {
        assert r[i] == rest[i - 1];
      }
    }
  }

  /** s sorted largest value first: a permutation of s in non-increasing order. */
  function SortDesc(s: seq<Entry>): (r: seq<Entry>)
    ensures SortedDesc(r)
    ensures multiset(r) == multiset(s)
  {
    if |s| == 0 then []
    else
      assert s == [s[0]] + s[1..];
      Insert(s[0], SortDesc(s[1..]))
  }

  /** `head(n)`: the first n entries, or all of them when there are fewer. */
  function Take(s: seq<Entry>, n: nat): (r: seq<Entry>)
    ensures |r| == if |s| < n then |s| else n
    ensures forall i :: 0 <= i < |r| ==> r[i] == s[i]
  {
    if |s| <= n then s else s[..n]
  }

  /** A ranked top-N of s: in non-increasing order, at most n long, drawn from s, and
      no entry of s left out is larger than an entry kept. */
  function TopN(s: seq<Entry>, n: nat): (r: seq<Entry>)
    ensures |r| <= n && |r| <= |s|
    ensures SortedDesc(r)
    ensures multiset(r) <= multiset(s)
    ensures |r| == n || multiset(r) == multiset(s)
  {
    var sorted := SortDesc(s);
    var r := Take(sorted, n);
    assert |sorted| == |multiset(sorted)| == |s|;
    PrefixMultiset(sorted, |r|);
    assert r == sorted[..|r|];
    r
  }

  lemma PrefixMultiset(s: seq<Entry>, k: nat)
    requires k <= |s|
    ensures multiset(s[..k]) <= multiset(s)
    ensures k == |s| ==> multiset(s[..k]) == multiset(s)
  {
    assert s == s[..k] + s[k..];
  }

  /** In a list with distinct keys no entry occurs twice. */
  lemma {:induction false} DistinctKeysNoRepeats(s: seq<Entry>)
    requires DistinctKeys(s)
    ensures forall x :: multiset(s)[x] <= 1
  {
    if |s| > 0 {
      assert s == [s[0]] + s[1..];
      DistinctKeysNoRepeats(s[1..]);
      assert s[0] !in s[1..];
    }
  }

  /** An entry at two positions of r is counted twice. */
  lemma TwoPositions(r: seq<Entry>, i: int, j: int)
    requires 0 <= i < j < |r| && r[i] == r[j]
    ensures multiset(r)[r[i]] >= 2
  {
    assert r == r[..i] + [r[i]] + r[i + 1..j] + [r[j]] + r[j + 1..];
  }

  /** Part of a list with distinct keys has distinct keys. */
  lemma SubMultisetKeepsDistinctKeys(r: seq<Entry>, s: seq<Entry>)
    requires multiset(r) <= multiset(s) && DistinctKeys(s)
    ensures DistinctKeys(r)
  {
    DistinctKeysNoRepeats(s);
    forall i, j | 0 <= i < j < |r| ensures r[i].key != r[j].key {
      if r[i] == r[j] {
        TwoPositions(r, i, j);
        assert false;
      } else {
        assert r[i] in multiset(s) && r[j] in multiset(s);
        var p :| 0 <= p < |s| && s[p] == r[i];
        var q :| 0 <= q < |s| && s[q] == r[j];
        assert p != q;
      }
    }
  }

  /** The first n of a ranking of entries with distinct keys have distinct keys. */
  lemma TopNKeepsDistinctKeys(s: seq<Entry>, n: nat)
    requires DistinctKeys(s)
    ensures DistinctKeys(TopN(s, n))
  {
    SubMultisetKeepsDistinctKeys(TopN(s, n), s);
  }

  /** What head(n) leaves out of a ranking is never larger than what it keeps. */
  lemma TopNDominates(s: seq<Entry>, n: nat)
    ensures forall e, k :: e in multiset(s) - multiset(TopN(s, n)) && 0 <= k < |TopN(s, n)| ==>
      e.value <= TopN(s, n)[k].value
  {
    var sorted := SortDesc(s);
    var r := TopN(s, n);
    assert r == sorted[..|r|];
    PrefixDominates(s, sorted, r);
  }

  /** In a sorted permutation of s, what lies beyond a prefix r is no larger than
      anything in r. */
  lemma PrefixDominates(s: seq<Entry>, sorted: seq<Entry>, r: seq<Entry>)
    requires SortedDesc(sorted) && multiset(sorted) == multiset(s)
    requires |r| <= |sorted| && r == sorted[..|r|]
    ensures forall e, i :: e in multiset(s) - multiset(r) && 0 <= i < |r| ==> e.value <= r[i].value
  {
    var k := |r|;
    assert sorted == r + sorted[k..];
    assert multiset(s) - multiset(r) == multiset(sorted[k..]);
    forall e, i | e in multiset(s) - multiset(r) && 0 <= i < k ensures e.value <= r[i].value {
      assert e in sorted[k..];
      var p :| 0 <= p < |sorted| - k && sorted[k..][p] == e;
      assert sorted[k + p] == e && r[i] == sorted[i];
    }
  }

  lemma {:induction false} InsertSum(x: Entry, s: seq<Entry>)
    requires SortedDesc(s)
    ensures SumValues(Insert(x, s)) == x.value + SumValues(s)
  {
    if |s| > 0 && x.value < s[0].value {
      InsertSum(x, s[1..]);
      assert ([s[0]] + Insert(x, s[1..]))[1..] == Insert(x, s[1..]);
    }
  }

  /** Sorting does not change the sum of the values. */
  lemma {:induction false} SortDescSum(s: seq<Entry>)
    ensures SumValues(SortDesc(s)) == SumValues(s)
  {
    if |s| > 0 {
      SortDescSum(s[1..]);
      InsertSum(s[0], SortDesc(s[1..]));
    }
  }
}
