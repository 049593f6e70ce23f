/** Query primitives over a table held as a sequence of rows, in table order:
    `findOne` (First), `find` / `getMany` (Filter), `skip`/`take` paging
    (Page) and `orderBy` (SortBy). */
module Seqs {
  import opened Common

  /** `findOne({ where })`: the first row satisfying the condition. */
  function First<T>(s: seq<T>, p: T -> bool): (r: Option<T>)
    ensures r.Some? ==> r.value in s && p(r.value)
    ensures r.None? <==> forall i :: 0 <= i < |s| ==> !p(s[i])
  {
    if |s| == 0 then None
    else if p(s[0]) then Some(s[0])
    else First(s[1..], p)
  }

  /** The position of the first row satisfying the condition, or |s|. */
  function IndexOf<T>(s: seq<T>, p: T -> bool): (k: nat)
    ensures k <= |s|
    ensures k < |s| ==> p(s[k])
    ensures forall i :: 0 <= i < k ==> !p(s[i])
  {
    if |s| == 0 then 0
    else if p(s[0]) then 0
    else 1 + IndexOf(s[1..], p)
  }

  /** First is the row at IndexOf. */
  lemma {:induction false} FirstAtIndexOf<T>(s: seq<T>, p: T -> bool)
    ensures IndexOf(s, p) < |s| <==> First(s, p).Some?
    ensures IndexOf(s, p) < |s| ==> First(s, p) == Some(s[IndexOf(s, p)])
  {
    if |s| > 0 && !p(s[0]) {
      FirstAtIndexOf(s[1..], p);
    }
  }

  /** Rows appended after the first match do not change it; without a match in
      the old rows, the search continues into the new ones. */
  lemma {:induction false} FirstAppend<T>(a: seq<T>, b: seq<T>, p: T -> bool)
    ensures First(a + b, p) == if First(a, p).Some? then First(a, p) else First(b, p)
  {
    if |a| == 0 {
      assert a + b == b;
    } else {
      assert (a + b)[1..] == a[1..] + b;
      FirstAppend(a[1..], b, p);
    }
  }

  /** Conditions that agree on every row find the same row. */
  lemma {:induction false} FirstSame<T>(s: seq<T>, p: T -> bool, q: T -> bool)
    requires forall i :: 0 <= i < |s| ==> p(s[i]) == q(s[i])
    ensures First(s, p) == First(s, q)
  {
    if |s| > 0 {
      FirstSame(s[1..], p, q);
    }
  }

  /** `find({ where })`: the rows satisfying the condition, in table order. */
  function Filter<T>(s: seq<T>, p: T -> bool): (r: seq<T>)
    ensures |r| <= |s|
    ensures forall i :: 0 <= i < |r| ==> r[i] in s && p(r[i])
    ensures forall i :: 0 <= i < |s| && p(s[i]) ==> s[i] in r
  {
    if |s| == 0 then []
    else if p(s[0]) then [s[0]] + Filter(s[1..], p)
    else Filter(s[1..], p)
  }

  lemma {:induction false} FilterAppend<T>(a: seq<T>, b: seq<T>, p: T -> bool)
    ensures Filter(a + b, p) == Filter(a, p) + Filter(b, p)
  {
    if |a| == 0 {
      assert a + b == b;
    } else {
      FilterAppend(a[1..], b, p);
      var ab := a + b;
      assert ab[0] == a[0] && ab[1..] == a[1..] + b;
      if p(a[0]) {
        calc {
          Filter(ab, p);
          [a[0]] + Filter(a[1..] + b, p);
          [a[0]] + (Filter(a[1..], p) + Filter(b, p));
          ([a[0]] + Filter(a[1..], p)) + Filter(b, p);
        }
      } else {
        assert Filter(ab, p) == Filter(a[1..] + b, p);
      }
    }
  }

  /** Filtering keeps every row exactly as often as it occurs, if it qualifies. */
  lemma {:induction false} FilterMultiset<T>(s: seq<T>, p: T -> bool, x: T)
    ensures multiset(Filter(s, p))[x] == if p(x) then multiset(s)[x] else 0
  {
    if |s| > 0 {
      FilterMultiset(s[1..], p, x);
      assert s == [s[0]] + s[1..];
    }
  }

  /** A filter nobody passes is empty. */
  lemma {:induction false} FilterNone<T>(s: seq<T>, p: T -> bool)
    requires forall i :: 0 <= i < |s| ==> !p(s[i])
    ensures Filter(s, p) == []
  {
    if |s| > 0 {
      FilterNone(s[1..], p);
    }
  }

  /** A filter everybody passes keeps the sequence. */
  lemma {:induction false} FilterAll<T>(s: seq<T>, p: T -> bool)
    requires forall i :: 0 <= i < |s| ==> p(s[i])
    ensures Filter(s, p) == s
  {
    if |s| > 0 {
      FilterAll(s[1..], p);
      assert s == [s[0]] + s[1..];
    }
  }

  /** Conditions that agree on every row filter alike. */
  lemma {:induction false} FilterSame<T>(s: seq<T>, p: T -> bool, q: T -> bool)
    requires forall i :: 0 <= i < |s| ==> p(s[i]) == q(s[i])
    ensures Filter(s, p) == Filter(s, q)
  {
    if |s| > 0 {
      FilterSame(s[1..], p, q);
    }
  }

  /** `map` over a sequence. */
  function Map<T, U>(s: seq<T>, f: T -> U): (r: seq<U>)
    ensures |r| == |s|
    ensures forall i :: 0 <= i < |s| ==> r[i] == f(s[i])
  {
    seq(|s|, i requires 0 <= i < |s| => f(s[i]))
  }

  /** No value occurs twice. */
  predicate Distinct<T(==)>(xs: seq<T>) {
    forall i, j :: 0 <= i < j < |xs| ==> xs[i] != xs[j]
  }

  /** The values of a sequence as a set. */
  function SetOf<T>(xs: seq<T>): (r: set<T>)
    ensures forall i :: 0 <= i < |xs| ==> xs[i] in r
    ensures forall x :: x in r ==> x in xs
  {
    if |xs| == 0 then {} else {xs[0]} + SetOf(xs[1..])
  }

  /** A sequence has as many distinct values as elements exactly when no value repeats. */
  lemma {:induction false} DistinctCard<T>(xs: seq<T>)
    ensures |SetOf(xs)| <= |xs|
    ensures |SetOf(xs)| == |xs| <==> Distinct(xs)
  {
    if |xs| > 0 {
      var rest := xs[1..];
      DistinctCard(rest);
      assert SetOf(xs) == {xs[0]} + SetOf(rest);
      if xs[0] in rest {
        var j :| 0 <= j < |rest| && rest[j] == xs[0];
        assert xs[0] == xs[j + 1];
        assert SetOf(xs) == SetOf(rest);
      } else {
        DistinctCons(xs);
        assert xs[0] !in SetOf(rest);
      }
    }
  }

  /** A head that does not recur leaves distinctness to the tail. */
  lemma DistinctCons<T>(xs: seq<T>)
    requires |xs| > 0 && xs[0] !in xs[1..]
    ensures Distinct(xs) <==> Distinct(xs[1..])
  {
    var rest := xs[1..];
    if Distinct(rest) {
      forall i, j | 0 <= i < j < |xs| ensures xs[i] != xs[j] {
        if i > 0 { assert xs[i] == rest[i - 1] && xs[j] == rest[j - 1]; }
        else { assert xs[j] == rest[j - 1]; }
      }
    }
    if Distinct(xs) {
      forall i, j | 0 <= i < j < |rest| ensures rest[i] != rest[j] {
        assert rest[i] == xs[i + 1] && rest[j] == xs[j + 1];
      }
    }
  }

  /** A subset is no larger, and only as large when it is the whole set. */
  lemma {:induction false} SubsetCard<T>(k: set<T>, a: set<T>)
    requires k <= a
    ensures |k| <= |a|
    ensures |k| == |a| ==> k == a
    decreases k
  {
    if k != {} {
      var x :| x in k;
      SubsetCard(k - {x}, a - {x});
      if |k| == |a| {
        assert k == (k - {x}) + {x} && a == (a - {x}) + {x};
      }
    }
  }

  /** Some row satisfies the condition (`getOne()` is not null, `getCount() > 0`). */
  predicate Exists<T>(s: seq<T>, p: T -> bool) {
    exists i :: 0 <= i < |s| && p(s[i])
  }

  // ---------------------------------------------------------------------------
  // Paging

  /** `skip((page - 1) * limit).take(limit)`. */
  function Page<T>(s: seq<T>, page: int, limit: int): (r: seq<T>)
    requires page >= 1 && limit >= 1
    ensures |r| <= limit
    ensures (page - 1) * limit >= |s| ==> r == []
    ensures forall k :: 0 <= k < |r| ==> (page - 1) * limit + k < |s| && r[k] == s[(page - 1) * limit + k]
    ensures forall k :: 0 <= k < |r| ==> r[k] in s
  {
    var skip := (page - 1) * limit;
    if skip >= |s| then []
    else if skip + limit >= |s| then s[skip..]
    else s[skip..skip + limit]
  }

  /** Every row is on some page: row j is item `j % limit` of page `j / limit + 1`. */
  lemma PageCovers<T>(s: seq<T>, limit: int, j: nat)
    requires limit >= 1 && j < |s|
    ensures j % limit < |Page(s, j / limit + 1, limit)|
    ensures Page(s, j / limit + 1, limit)[j % limit] == s[j]
  {
    var page := j / limit + 1;
    assert (page - 1) * limit == (j / limit) * limit;
    assert (j / limit) * limit + j % limit == j;
  }

  /** Consecutive pages tile the result: page p+1 starts where page p ends. */
  lemma PagesAdjacent<T>(s: seq<T>, page: int, limit: int)
    requires page >= 1 && limit >= 1
    requires page * limit <= |s|
    ensures |Page(s, page, limit)| == limit
    ensures s[..page * limit] == s[..(page - 1) * limit] + Page(s, page, limit)
  {
  }

  // ---------------------------------------------------------------------------
  // orderBy: a stable insertion sort under a "goes before" relation

  function Insert<T>(x: T, s: seq<T>, before: (T, T) -> bool): (r: seq<T>)
    ensures |r| == |s| + 1
    ensures multiset(r) == multiset(s) + multiset{x}
  {
    if |s| == 0 then [x]
    else if before(x, s[0]) then [x] + s
    else
      assert s == [s[0]] + s[1..];
      [s[0]] + Insert(x, s[1..], before)
  }

  function SortBy<T>(s: seq<T>, before: (T, T) -> bool): (r: seq<T>)
    ensures |r| == |s|
    ensures multiset(r) == multiset(s)
  {
    if |s| == 0 then []
    else
      assert s == [s[0]] + s[1..];
      Insert(s[0], SortBy(s[1..], before), before)
  }

  ghost predicate TotalPreorder<T(!new)>(before: (T, T) -> bool) {
    && (forall a, b :: before(a, b) || before(b, a))
    && (forall a, b, c :: before(a, b) && before(b, c) ==> before(a, c))
  }

  ghost predicate Sorted<T>(s: seq<T>, before: (T, T) -> bool) {
    forall i, j :: 0 <= i < j < |s| ==> before(s[i], s[j])
  }

  lemma {:induction false} InsertSorted<T(!new)>(x: T, s: seq<T>, before: (T, T) -> bool)
    requires TotalPreorder(before)
    requires Sorted(s, before)
    ensures Sorted(Insert(x, s, before), before)
  {
    if |s| > 0 && !before(x, s[0]) {
      InsertSorted(x, s[1..], before);
      var r := Insert(x, s[1..], before);
      assert before(s[0], x);
      forall k | 0 <= k < |r| ensures before(s[0], r[k]) {
        assert r[k] in multiset(r);
        assert r[k] in multiset(s[1..]) + multiset{x};
        if r[k] != x {
          assert r[k] in s[1..];
          var m :| 0 <= m < |s[1..]| && s[1..][m] == r[k];
          assert s[1 + m] == r[k];
        }
      }
    }
  }

  /** A page of an ordered sequence is ordered. */
  lemma PageSorted<T>(s: seq<T>, page: int, limit: int, before: (T, T) -> bool)
    requires page >= 1 && limit >= 1
    requires Sorted(s, before)
    ensures Sorted(Page(s, page, limit), before)
  {
    var r := Page(s, page, limit);
    var skip := (page - 1) * limit;
    forall i, j | 0 <= i < j < |r| ensures before(r[i], r[j]) {
      assert r[i] == s[skip + i] && r[j] == s[skip + j];
    }
  }

  /** The sorted result is ordered under any total preorder. */
  lemma {:induction false} SortBySorted<T(!new)>(s: seq<T>, before: (T, T) -> bool)
    requires TotalPreorder(before)
    ensures Sorted(SortBy(s, before), before)
  {
    if |s| > 0 {
      SortBySorted(s[1..], before);
      InsertSorted(s[0], SortBy(s[1..], before), before);
    }
  }
}
