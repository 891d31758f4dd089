/** SQL's `GROUP BY key` with `SUM(amount)`, over rows that pair a key
    with an amount. Amounts are exact (`real`). */
module Grouping {

  /** One row: a grouping key and an amount. */
  type Row = (string, real)

  /** The sum of all amounts. */
  function Total(p: seq<Row>): real {
    if p == [] then 0.0 else p[0].1 + Total(p[1..])
  }

  /** The sum of the amounts of the rows whose key is `k`. */
  function KeyTotal(p: seq<Row>, k: string): real {
    if p == [] then 0.0 else (if p[0].0 == k then p[0].1 else 0.0) + KeyTotal(p[1..], k)
  }

  /** The keys the rows carry. */
  function Keys(p: seq<Row>): set<string> {
    set i | 0 <= i < |p| :: p[i].0
  }

  predicate DistinctKeys(g: seq<Row>) {
    forall i, j :: 0 <= i < j < |g| ==> g[i].0 != g[j].0
  }

  lemma {:induction false} TotalAppend(p: seq<Row>, q: seq<Row>)
    ensures Total(p + q) == Total(p) + Total(q)
    decreases |p|
  {
    if p == [] {
      assert p + q == q;
    } else {
      TotalAppend(p[1..], q);
      assert (p + q)[1..] == p[1..] + q;
    }
  }

  lemma {:induction false} KeyTotalAppend(p: seq<Row>, q: seq<Row>, k: string)
    ensures KeyTotal(p + q, k) == KeyTotal(p, k) + KeyTotal(q, k)
    decreases |p|
  {
    if p == [] {
      assert p + q == q;
    } else {
      KeyTotalAppend(p[1..], q, k);
      assert (p + q)[1..] == p[1..] + q;
    }
  }

  /** A key no row carries totals zero. */
  lemma {:induction false} KeyTotalAbsent(p: seq<Row>, k: string)
    requires k !in Keys(p)
    ensures KeyTotal(p, k) == 0.0
    decreases |p|
  {
    if p != [] {
      assert Keys(p[1..]) <= Keys(p) by {
        forall x | x in Keys(p[1..]) ensures x in Keys(p) {
          var i :| 0 <= i < |p[1..]| && p[1..][i].0 == x;
          assert p[i + 1].0 == x;
        }
      }
      assert p[0].0 in Keys(p);
      KeyTotalAbsent(p[1..], k);
    }
  }

  /** With distinct keys, a key's total is the amount on its one row. */
  lemma {:induction false} DistinctKeyTotal(g: seq<Row>, i: int)
    requires DistinctKeys(g) && 0 <= i < |g|
    ensures KeyTotal(g, g[i].0) == g[i].1
    decreases |g|
  {
    var rest := g[1..];
    assert DistinctKeys(rest) by {
      forall a, b | 0 <= a < b < |rest| ensures rest[a].0 != rest[b].0 {
        assert rest[a] == g[a + 1] && rest[b] == g[b + 1];
      }
    }
    if i == 0 {
      assert g[0].0 !in Keys(rest) by {
        forall j | 0 <= j < |rest| ensures rest[j].0 != g[0].0 {
          assert rest[j] == g[j + 1];
        }
      }
      KeyTotalAbsent(rest, g[0].0);
    } else {
      assert rest[i - 1] == g[i];
      DistinctKeyTotal(rest, i - 1);
    }
  }

  lemma KeysCons(x: Row, s: seq<Row>)
    ensures Keys([x] + s) == {x.0} + Keys(s)
  {
    var r := [x] + s;
    forall y | y in Keys(r) ensures y in {x.0} + Keys(s) {
      var i :| 0 <= i < |r| && r[i].0 == y;
      if i > 0 { assert s[i - 1] == r[i]; }
    }
    forall y | y in Keys(s) ensures y in Keys(r) {
      var i :| 0 <= i < |s| && s[i].0 == y;
      assert r[i + 1] == s[i];
    }
    assert r[0].0 == x.0;
  }

  lemma DistinctCons(x: Row, s: seq<Row>)
    ensures DistinctKeys([x] + s) <==> DistinctKeys(s) && x.0 !in Keys(s)
  {
    var r := [x] + s;
    if DistinctKeys(r) {
      forall a, b | 0 <= a < b < |s| ensures s[a].0 != s[b].0 {
        assert s[a] == r[a + 1] && s[b] == r[b + 1];
      }
      forall j | 0 <= j < |s| ensures s[j].0 != x.0 {
        assert s[j] == r[j + 1] && r[0] == x;
        assert r[0].0 != r[j + 1].0;
      }
    }
    if DistinctKeys(s) && x.0 !in Keys(s) {
      forall a, b | 0 <= a < b < |r| ensures r[a].0 != r[b].0 {
        assert r[b] == s[b - 1];
        if a > 0 { assert r[a] == s[a - 1]; }
      }
    }
  }

  /** Adds amount `a` to the group of key `k`, opening the group at the end when absent. */
  function AddTo(g: seq<Row>, k: string, a: real): (r: seq<Row>)
    requires DistinctKeys(g)
    ensures DistinctKeys(r)
    ensures Keys(r) == Keys(g) + {k}
    ensures Total(r) == Total(g) + a
    ensures forall key :: KeyTotal(r, key) == KeyTotal(g, key) + (if key == k then a else 0.0)
    decreases |g|
  {
    if g == [] then
      KeysCons((k, a), []);
      [(k, a)]
    else
      var rest := g[1..];
      assert g == [g[0]] + rest;
      KeysCons(g[0], rest);
      DistinctCons(g[0], rest);
      if g[0].0 == k then
        var r := [(k, g[0].1 + a)] + rest;
        assert r[1..] == rest;
        KeysCons(r[0], rest);
        DistinctCons(r[0], rest);
        r
      else
        var tail := AddTo(rest, k, a);
        var r := [g[0]] + tail;
        assert r[1..] == tail;
        KeysCons(g[0], tail);
        DistinctCons(g[0], tail);
        r
  }

  /** SQL's `GROUP BY key` with `SUM(amount)`: one row per key that occurs,
      carrying the sum of that key's amounts; a key no row carries does not
      appear. Groups come in the order their keys first occur (SQL leaves
      the order of grouped rows unspecified). */
  function GroupSum(p: seq<Row>): (g: seq<Row>)
    ensures DistinctKeys(g)
    ensures Keys(g) == Keys(p)
    ensures forall k :: KeyTotal(g, k) == KeyTotal(p, k)
    ensures forall i :: 0 <= i < |g| ==> g[i].1 == KeyTotal(p, g[i].0)
    ensures Total(g) == Total(p)
    decreases |p|
  {
    if p == [] then []
    else
      var init, last := p[..|p| - 1], p[|p| - 1];
      var g := AddTo(GroupSum(init), last.0, last.1);
      assert p == init + [last];
      AppendLast(init, last);
      DistinctTotals(g, p);
      g
  }

  /** What one more row at the end adds to the keys and totals. */
  lemma AppendLast(init: seq<Row>, last: Row)
    ensures Keys(init + [last]) == Keys(init) + {last.0}
    ensures forall k :: KeyTotal(init + [last], k) == KeyTotal(init, k) + (if k == last.0 then last.1 else 0.0)
    ensures Total(init + [last]) == Total(init) + last.1
  {
    var p := init + [last];
    forall x | x in Keys(p) ensures x in Keys(init) + {last.0} {
      var i :| 0 <= i < |p| && p[i].0 == x;
      if i < |p| - 1 { assert init[i] == p[i]; }
    }
    forall x | x in Keys(init) ensures x in Keys(p) {
      var i :| 0 <= i < |init| && init[i].0 == x;
      assert p[i] == init[i];
    }
    assert p[|p| - 1] == last;
    forall k ensures KeyTotal(p, k) == KeyTotal(init, k) + (if k == last.0 then last.1 else 0.0) {
      KeyTotalAppend(init, [last], k);
    }
    TotalAppend(init, [last]);
  }

  /** With distinct keys and the same per-key totals as `p`, each group
      carries its key's total in `p`. */
  lemma DistinctTotals(g: seq<Row>, p: seq<Row>)
    requires DistinctKeys(g)
    requires forall k :: KeyTotal(g, k) == KeyTotal(p, k)
    ensures forall i :: 0 <= i < |g| ==> g[i].1 == KeyTotal(p, g[i].0)
  {
    forall i | 0 <= i < |g| ensures g[i].1 == KeyTotal(p, g[i].0) {
      DistinctKeyTotal(g, i);
    }
  }
}
