/** The owner-scoped read queries behind the home page and the history page. */
module Listings {
  import opened Text
  import opened Records

  /** How many expenses the home page shows. */
  const RecentLimit: int := 20

  /** Ordered by `created_at` descending: most recent first. */
  predicate Descending(s: seq<Expense>) {
    forall i, j :: 0 <= i < j < |s| ==> s[i].createdAt >= s[j].createdAt
  }

  /** No expense in `s` is more recent than `t`. */
  predicate NotAfter(t: int, s: seq<Expense>) {
    forall y :: y in multiset(s) ==> y.createdAt <= t
  }

  lemma DescendingCons(x: Expense, s: seq<Expense>)
    requires Descending(s)
    requires NotAfter(x.createdAt, s)
    ensures Descending([x] + s)
  {
    var r := [x] + s;
    forall i, j | 0 <= i < j < |r| ensures r[i].createdAt >= r[j].createdAt {
      assert r[j] == s[j - 1] && r[j] in multiset(s);
      if i > 0 { assert r[i] == s[i - 1]; }
    }
  }

  /** The head of a descending sequence is its most recent element. */
  lemma HeadNotAfter(t: int, s: seq<Expense>)
    requires Descending(s)
    requires s == [] || s[0].createdAt <= t
    ensures NotAfter(t, s)
  {
    forall y | y in multiset(s) ensures y.createdAt <= t {
      var m :| 0 <= m < |s| && s[m] == y;
    }
  }

  /** Inserting an older expense into the tail keeps the head the most recent. */
  lemma TailNotAfter(x: Expense, rest: seq<Expense>, e: Expense, tail: seq<Expense>)
    requires Descending([x] + rest)
    requires e.createdAt < x.createdAt
    requires multiset(tail) == multiset(rest) + multiset{e}
    ensures NotAfter(x.createdAt, tail)
  {
    var s := [x] + rest;
    forall y | y in multiset(tail) ensures y.createdAt <= x.createdAt {
      if y != e {
        assert y in multiset(rest);
        var m :| 0 <= m < |rest| && rest[m] == y;
        assert s[0] == x && s[m + 1] == y;
      }
    }
  }

  function InsertByDate(e: Expense, s: seq<Expense>): (r: seq<Expense>)
    requires Descending(s)
    ensures Descending(r)
    ensures multiset(r) == multiset(s) + multiset{e}
    decreases |s|
  {
    if s == [] || e.createdAt >= s[0].createdAt then
      HeadNotAfter(e.createdAt, s);
      DescendingCons(e, s);
      [e] + s
    else
      var x, rest := s[0], s[1..];
      assert s == [x] + rest;
      var tail := InsertByDate(e, rest);
      TailNotAfter(x, rest, e, tail);
      DescendingCons(x, tail);
      [x] + tail
  }

  /** `ORDER BY created_at DESC` over a sequence of expenses. Rows with the
      same `created_at` come in an order SQL leaves unspecified. */
  function SortByDateDesc(s: seq<Expense>): (r: seq<Expense>)
    ensures Descending(r)
    ensures multiset(r) == multiset(s)
    decreases |s|
  {
    if s == [] then []
    else
      assert s == [s[0]] + s[1..];
      InsertByDate(s[0], SortByDateDesc(s[1..]))
  }

  /** The history page: all of the caller's expenses, most recent first. */
  function History(es: seq<Expense>, caller: int): (r: seq<Expense>)
    ensures Descending(r)
    ensures multiset(r) == multiset(OwnedBy(es, caller))
    ensures forall e :: e in r <==> e in es && e.userId == caller
  {
    var r := SortByDateDesc(OwnedBy(es, caller));
    assert forall e :: e in r <==> e in multiset(OwnedBy(es, caller));
    r
  }

  /** The home page list: the caller's 20 most recent expenses, most recent first. */
  function Recent(es: seq<Expense>, caller: int): (r: seq<Expense>)
    ensures |r| == if |OwnedBy(es, caller)| < RecentLimit then |OwnedBy(es, caller)| else RecentLimit
    ensures Descending(r)
    ensures forall e :: e in r ==> e in es && e.userId == caller
    ensures multiset(r) <= multiset(OwnedBy(es, caller))
  {
    var h := History(es, caller);
    SameLength(h, OwnedBy(es, caller));
    var n := if |h| < RecentLimit then |h| else RecentLimit;
    PrefixIn(h, n);
    h[..n]
  }

  lemma SameLength(a: seq<Expense>, b: seq<Expense>)
    requires multiset(a) == multiset(b)
    ensures |a| == |b|
  {
    assert |multiset(a)| == |multiset(b)|;
  }

  lemma PrefixIn(h: seq<Expense>, n: nat)
    requires n <= |h|
    ensures Descending(h) ==> Descending(h[..n])
    ensures forall e :: e in h[..n] ==> e in h
    ensures multiset(h[..n]) <= multiset(h)
  {
    assert h == h[..n] + h[n..];
  }

  /** What the home page leaves out is no more recent than anything it shows. */
  lemma RecentAreLatest(es: seq<Expense>, caller: int, left: Expense, shown: Expense)
    requires left in es && left.userId == caller && left !in Recent(es, caller)
    requires shown in Recent(es, caller)
    ensures left.createdAt <= shown.createdAt
  {
    var h := History(es, caller);
    var r := Recent(es, caller);
    assert r == h[..|r|];
    assert left in h;
    var j :| 0 <= j < |h| && h[j] == left;
    var i :| 0 <= i < |r| && r[i] == shown;
    assert h[i] == shown;
  }

  /** The category choices on the home page: the distinct categories the
      caller has used, each once, in ascending string order. */
  function CategoryList(es: seq<Expense>, caller: int): (r: seq<string>)
    ensures StrictlyAscending(r)
    ensures forall c :: c in r <==> exists e :: e in es && e.userId == caller && e.category == c
  {
    var mine := OwnedBy(es, caller);
    SortedSet(set e | e in mine :: e.category)
  }
}
