/** The SQL shape every aggregation in the dashboard shares: `GROUP BY key` with
    `SUM(duration_minutes)` and `COUNT(*)`, followed by `ORDER BY total DESC` or `ORDER BY key`.
    Input rows are reduced to (key, minutes) pairs by the query that uses them. */
module Grouping {
  import Text

  /** One output row of a grouped query: the group key, `SUM(...)` and `COUNT(*)`. */
  datatype Group<K> = Group(key: K, total: int, count: nat)

  // ---------------------------------------------------------------------------
  // Reference definitions over the input pairs
  // ---------------------------------------------------------------------------

  /** The distinct keys occurring in `ps`. */
  function Keys<K>(ps: seq<(K, int)>): set<K>
  {
    if |ps| == 0 then {} else {ps[0].0} + Keys(ps[1..])
  }

  /** Sum of the minutes of the pairs whose key is `k`. */
  function KeySum<K(==)>(ps: seq<(K, int)>, k: K): int
  {
    if |ps| == 0 then 0 else (if ps[0].0 == k then ps[0].1 else 0) + KeySum(ps[1..], k)
  }

  /** Number of pairs whose key is `k`. */
  function KeyCount<K(==)>(ps: seq<(K, int)>, k: K): nat
  {
    if |ps| == 0 then 0 else (if ps[0].0 == k then 1 else 0) + KeyCount(ps[1..], k)
  }

  /** Sum of all minutes in `ps`. */
  function Total<K>(ps: seq<(K, int)>): int
  {
    if |ps| == 0 then 0 else ps[0].1 + Total(ps[1..])
  }

  lemma {:induction false} KeyCountPositive<K>(ps: seq<(K, int)>, k: K)
    ensures k in Keys(ps) <==> KeyCount(ps, k) >= 1
    ensures k !in Keys(ps) ==> KeySum(ps, k) == 0
  {
    if |ps| > 0 {
      KeyCountPositive(ps[1..], k);
    }
  }

  lemma {:induction false} KeySumAppend<K>(a: seq<(K, int)>, b: seq<(K, int)>, k: K)
    ensures KeySum(a + b, k) == KeySum(a, k) + KeySum(b, k)
    ensures KeyCount(a + b, k) == KeyCount(a, k) + KeyCount(b, k)
    ensures Keys(a + b) == Keys(a) + Keys(b)
    ensures Total(a + b) == Total(a) + Total(b)
  {
    if |a| == 0 {
      assert a + b == b;
    } else {
      assert (a + b)[1..] == a[1..] + b;
      KeySumAppend(a[1..], b, k);
    }
  }

  // ---------------------------------------------------------------------------
  // Group lists
  // ---------------------------------------------------------------------------

  function GroupKeys<K>(gs: seq<Group<K>>): set<K>
  {
    if |gs| == 0 then {} else {gs[0].key} + GroupKeys(gs[1..])
  }

  /** No key labels two groups. */
  predicate DistinctKeys<K(==)>(gs: seq<Group<K>>)
  {
    |gs| == 0 || (gs[0].key !in GroupKeys(gs[1..]) && DistinctKeys(gs[1..]))
  }

  /** The total of the group labelled `k`, or 0 when there is none. */
  function TotalOf<K(==)>(gs: seq<Group<K>>, k: K): int
  {
    if |gs| == 0 then 0 else if gs[0].key == k then gs[0].total else TotalOf(gs[1..], k)
  }

  /** The count of the group labelled `k`, or 0 when there is none. */
  function CountOf<K(==)>(gs: seq<Group<K>>, k: K): nat
  {
    if |gs| == 0 then 0 else if gs[0].key == k then gs[0].count else CountOf(gs[1..], k)
  }

  function SumTotals<K>(gs: seq<Group<K>>): int
  {
    if |gs| == 0 then 0 else gs[0].total + SumTotals(gs[1..])
  }

  /** The group labelled `k`. */
  function GroupOf<K(==)>(gs: seq<Group<K>>, k: K): (g: Group<K>)
    requires k in GroupKeys(gs)
    ensures g in gs && g.key == k
  {
    if gs[0].key == k then gs[0] else GroupOf(gs[1..], k)
  }

  lemma {:induction false} MemberOfDistinct<K>(gs: seq<Group<K>>, i: nat)
    requires DistinctKeys(gs) && i < |gs|
    ensures TotalOf(gs, gs[i].key) == gs[i].total
    ensures CountOf(gs, gs[i].key) == gs[i].count
  {
    if i > 0 {
      MemberOfDistinct(gs[1..], i - 1);
      assert gs[i].key in GroupKeys(gs[1..]) by {
        KeyAtIndex(gs[1..], i - 1);
      }
    }
  }

  lemma {:induction false} KeyAtIndex<K>(gs: seq<Group<K>>, i: nat)
    requires i < |gs|
    ensures gs[i].key in GroupKeys(gs)
  {
    if i > 0 {
      KeyAtIndex(gs[1..], i - 1);
    }
  }

  lemma {:induction false} DistinctSize<K>(gs: seq<Group<K>>)
    requires DistinctKeys(gs)
    ensures |GroupKeys(gs)| == |gs|
  {
    if |gs| > 0 {
      DistinctSize(gs[1..]);
    }
  }

  /** Adds one (key, minutes) pair to a group list: bumps the group labelled `k`, or
      appends a new group of count 1. */
  function AddTo<K(==,!new)>(gs: seq<Group<K>>, k: K, v: int): (r: seq<Group<K>>)
    ensures GroupKeys(r) == GroupKeys(gs) + {k}
    ensures DistinctKeys(gs) ==> DistinctKeys(r)
    ensures forall key :: TotalOf(r, key) == TotalOf(gs, key) + (if key == k then v else 0)
    ensures forall key :: CountOf(r, key) == CountOf(gs, key) + (if key == k then 1 else 0)
    ensures SumTotals(r) == SumTotals(gs) + v
  {
    if |gs| == 0 then [Group(k, v, 1)]
    else if gs[0].key == k then [gs[0].(total := gs[0].total + v, count := gs[0].count + 1)] + gs[1..]
    else [gs[0]] + AddTo(gs[1..], k, v)
  }

  /** `GROUP BY key` with `SUM` and `COUNT(*)`: one group per distinct key, carrying that key's
      sum and count, and together the grand total. */
  function GroupBy<K(==,!new)>(ps: seq<(K, int)>): (r: seq<Group<K>>)
    ensures DistinctKeys(r)
    ensures GroupKeys(r) == Keys(ps)
    ensures forall key :: TotalOf(r, key) == KeySum(ps, key) && CountOf(r, key) == KeyCount(ps, key)
    ensures SumTotals(r) == Total(ps)
  {
    if |ps| == 0 then [] else AddTo(GroupBy(ps[1..]), ps[0].0, ps[0].1)
  }

  /** Every group of `GroupBy(ps)` is the sum and count of its own key, and counts at least one row. */
  lemma GroupByMembers<K(!new)>(ps: seq<(K, int)>, i: nat)
    requires i < |GroupBy(ps)|
    ensures GroupBy(ps)[i].key in Keys(ps)
    ensures GroupBy(ps)[i].total == KeySum(ps, GroupBy(ps)[i].key)
    ensures GroupBy(ps)[i].count == KeyCount(ps, GroupBy(ps)[i].key) >= 1
  {
    var gs := GroupBy(ps);
    MemberOfDistinct(gs, i);
    KeyAtIndex(gs, i);
    KeyCountPositive(ps, gs[i].key);
  }

  /** There are exactly as many groups as distinct keys. */
  lemma GroupBySize<K(!new)>(ps: seq<(K, int)>)
    ensures |GroupBy(ps)| == |Keys(ps)|
  {
    DistinctSize(GroupBy(ps));
  }

  // ---------------------------------------------------------------------------
  // ORDER BY total DESC
  // ---------------------------------------------------------------------------

  predicate NonIncreasing<K>(gs: seq<Group<K>>)
  {
    forall i, j :: 0 <= i < j < |gs| ==> gs[i].total >= gs[j].total
  }

  /** Every total in `gs` is at most `m`. */
  predicate AtMost<K>(gs: seq<Group<K>>, m: int)
  {
    forall i :: 0 <= i < |gs| ==> gs[i].total <= m
  }

  /** Places `x` before the first group whose total does not exceed its own. */
  function InsertDesc<K(==)>(x: Group<K>, t: seq<Group<K>>): (r: seq<Group<K>>)
    ensures |r| == |t| + 1
    ensures multiset(r) == multiset(t) + multiset{x}
    ensures GroupKeys(r) == GroupKeys(t) + {x.key}
    ensures DistinctKeys(t) && x.key !in GroupKeys(t) ==> DistinctKeys(r)
    ensures SumTotals(r) == x.total + SumTotals(t)
  {
    if |t| == 0 || x.total >= t[0].total then [x] + t
    else
      assert t == [t[0]] + t[1..];
      [t[0]] + InsertDesc(x, t[1..])
  }

  lemma {:induction false} InsertDescAtMost<K>(x: Group<K>, t: seq<Group<K>>, m: int)
    requires AtMost(t, m) && x.total <= m
    ensures AtMost(InsertDesc(x, t), m)
  {
    if |t| > 0 && x.total < t[0].total {
      InsertDescAtMost(x, t[1..], m);
    }
  }

  lemma {:induction false} InsertDescSorted<K>(x: Group<K>, t: seq<Group<K>>)
    requires NonIncreasing(t)
    ensures NonIncreasing(InsertDesc(x, t))
  {
    if |t| > 0 && x.total < t[0].total {
      InsertDescSorted(x, t[1..]);
      InsertDescAtMost(x, t[1..], t[0].total);
      ConsNonIncreasing(t[0], InsertDesc(x, t[1..]));
    } else if |t| > 0 {
      ConsNonIncreasing(x, t);
    }
  }

  lemma ConsNonIncreasing<K>(x: Group<K>, t: seq<Group<K>>)
    requires NonIncreasing(t) && AtMost(t, x.total)
    ensures NonIncreasing([x] + t)
  {
  }

  /** `ORDER BY total DESC`: the same groups, largest total first. Ties keep no particular order. */
  function SortDesc<K(==)>(gs: seq<Group<K>>): (r: seq<Group<K>>)
    ensures NonIncreasing(r)
    ensures |r| == |gs|
    ensures multiset(r) == multiset(gs)
    ensures GroupKeys(r) == GroupKeys(gs)
    ensures DistinctKeys(gs) ==> DistinctKeys(r)
    ensures SumTotals(r) == SumTotals(gs)
  {
    if |gs| == 0 then []
    else
      var t := SortDesc(gs[1..]);
      InsertDescStep(gs, t);
      InsertDesc(gs[0], t)
  }

  /** Inserting the first group into the sorted rest sorts the whole list. */
  lemma InsertDescStep<K>(gs: seq<Group<K>>, t: seq<Group<K>>)
    requires |gs| > 0
    requires NonIncreasing(t) && |t| == |gs| - 1
    requires multiset(t) == multiset(gs[1..]) && GroupKeys(t) == GroupKeys(gs[1..])
    requires DistinctKeys(gs[1..]) ==> DistinctKeys(t)
    requires SumTotals(t) == SumTotals(gs[1..])
    ensures var r := InsertDesc(gs[0], t);
      && NonIncreasing(r) && |r| == |gs| && multiset(r) == multiset(gs)
      && GroupKeys(r) == GroupKeys(gs) && (DistinctKeys(gs) ==> DistinctKeys(r))
      && SumTotals(r) == SumTotals(gs)
  {
    assert gs == [gs[0]] + gs[1..];
    InsertDescSorted(gs[0], t);
  }

  // ---------------------------------------------------------------------------
  // ORDER BY key (text keys, SQLite BINARY collation)
  // ---------------------------------------------------------------------------

  predicate StrictlyAscending(gs: seq<Group<string>>)
  {
    forall i, j :: 0 <= i < j < |gs| ==> Text.Less(gs[i].key, gs[j].key)
  }

  /** Every key in `gs` is above `k`. */
  predicate Above(gs: seq<Group<string>>, k: string)
  {
    forall i :: 0 <= i < |gs| ==> Text.Less(k, gs[i].key)
  }

  /** Places `x` before the first group whose key is above its own. */
  function InsertAsc(x: Group<string>, t: seq<Group<string>>): (r: seq<Group<string>>)
    ensures |r| == |t| + 1
    ensures multiset(r) == multiset(t) + multiset{x}
    ensures GroupKeys(r) == GroupKeys(t) + {x.key}
    ensures SumTotals(r) == x.total + SumTotals(t)
  {
    if |t| == 0 || Text.Less(x.key, t[0].key) then [x] + t
    else
      assert t == [t[0]] + t[1..];
      [t[0]] + InsertAsc(x, t[1..])
  }

  lemma {:induction false} InsertAscAbove(x: Group<string>, t: seq<Group<string>>, k: string)
    requires Above(t, k) && Text.Less(k, x.key)
    ensures Above(InsertAsc(x, t), k)
  {
    if |t| > 0 && !Text.Less(x.key, t[0].key) {
      InsertAscAbove(x, t[1..], k);
    }
  }

  lemma {:induction false} InsertAscSorted(x: Group<string>, t: seq<Group<string>>)
    requires StrictlyAscending(t)
    requires x.key !in GroupKeys(t)
    ensures StrictlyAscending(InsertAsc(x, t))
  {
    if |t| > 0 {
      assert t == [t[0]] + t[1..];
      if Text.Less(x.key, t[0].key) {
        AboveFirst(x.key, t);
        ConsAscending(x, t);
      } else {
        Text.LessTotal(x.key, t[0].key);
        InsertAscSorted(x, t[1..]);
        InsertAscAbove(x, t[1..], t[0].key);
        ConsAscending(t[0], InsertAsc(x, t[1..]));
      }
    }
  }

  lemma AboveFirst(k: string, t: seq<Group<string>>)
    requires StrictlyAscending(t) && |t| > 0 && Text.Less(k, t[0].key)
    ensures Above(t, k)
  {
    forall i | 0 < i < |t|
      ensures Text.Less(k, t[i].key)
    {
      Text.LessTransitive(k, t[0].key, t[i].key);
    }
  }

  lemma ConsAscending(x: Group<string>, t: seq<Group<string>>)
    requires StrictlyAscending(t) && Above(t, x.key)
    ensures StrictlyAscending([x] + t)
  {
  }

  /** `ORDER BY key` over distinct text keys: the same groups, keys strictly ascending. */
  function SortAsc(gs: seq<Group<string>>): (r: seq<Group<string>>)
    requires DistinctKeys(gs)
    ensures StrictlyAscending(r)
    ensures |r| == |gs|
    ensures multiset(r) == multiset(gs)
    ensures GroupKeys(r) == GroupKeys(gs)
    ensures SumTotals(r) == SumTotals(gs)
  {
    if |gs| == 0 then []
    else
      var t := SortAsc(gs[1..]);
      InsertAscStep(gs, t);
      InsertAsc(gs[0], t)
  }

  /** Inserting the first group into the sorted rest sorts the whole list. */
  lemma InsertAscStep(gs: seq<Group<string>>, t: seq<Group<string>>)
    requires |gs| > 0 && DistinctKeys(gs)
    requires StrictlyAscending(t) && |t| == |gs| - 1
    requires multiset(t) == multiset(gs[1..]) && GroupKeys(t) == GroupKeys(gs[1..])
    requires SumTotals(t) == SumTotals(gs[1..])
    ensures var r := InsertAsc(gs[0], t);
      && StrictlyAscending(r) && |r| == |gs| && multiset(r) == multiset(gs)
      && GroupKeys(r) == GroupKeys(gs) && SumTotals(r) == SumTotals(gs)
  {
    assert gs == [gs[0]] + gs[1..];
    InsertAscSorted(gs[0], t);
  }

  // ---------------------------------------------------------------------------
  // Facts that survive sorting
  // ---------------------------------------------------------------------------

  /** A sorted list holds exactly the groups of `GroupBy(ps)`, so each of its entries is a
      distinct key of `ps` with that key's sum and count. */
  lemma PermutedMembers<K(!new)>(ps: seq<(K, int)>, r: seq<Group<K>>, i: nat)
    requires multiset(r) == multiset(GroupBy(ps))
    requires i < |r|
    ensures r[i].key in Keys(ps)
    ensures r[i].total == KeySum(ps, r[i].key)
    ensures r[i].count == KeyCount(ps, r[i].key) >= 1
  {
    assert r[i] in multiset(r);
    var gs := GroupBy(ps);
    var j :| 0 <= j < |gs| && gs[j] == r[i];
    GroupByMembers(ps, j);
  }

  lemma PermutedAll<K(!new)>(ps: seq<(K, int)>, r: seq<Group<K>>)
    requires multiset(r) == multiset(GroupBy(ps))
    ensures forall i :: 0 <= i < |r| ==>
      r[i].key in Keys(ps) && r[i].total == KeySum(ps, r[i].key) && r[i].count == KeyCount(ps, r[i].key) >= 1
  {
    forall i | 0 <= i < |r|
      ensures r[i].key in Keys(ps) && r[i].total == KeySum(ps, r[i].key) && r[i].count == KeyCount(ps, r[i].key) >= 1
    {
      PermutedMembers(ps, r, i);
    }
  }

  /** The first entry of a list sorted by descending total has a total at least that of
      every key of `ps`. */
  lemma FirstIsMaximal<K(!new)>(ps: seq<(K, int)>, r: seq<Group<K>>, k: K)
    requires multiset(r) == multiset(GroupBy(ps))
    requires NonIncreasing(r) && |r| > 0
    requires k in Keys(ps)
    ensures KeySum(ps, k) <= r[0].total
  {
    var gs := GroupBy(ps);
    var g := GroupOf(gs, k);
    assert g in multiset(gs);
    assert g in r;
    var j :| 0 <= j < |r| && r[j] == g;
    var i :| 0 <= i < |gs| && gs[i] == g;
    GroupByMembers(ps, i);
  }
}
