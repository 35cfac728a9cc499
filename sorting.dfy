/**
 * The query shapes the controllers use: `where(...)` keeps the rows that
 * satisfy a condition, `orderBy`/`orderByDesc` sorts them, `take(n)` keeps the
 * first n. The database may break ties in any order; the specifications below
 * allow any order among equal keys, and the functions pick one.
 */
module Sorting {
  import opened Wrappers

  /** A relation usable as a sort order: total and transitive. */
  ghost predicate TotalPreorder<T(!new)>(le: (T, T) -> bool) {
    && (forall a, b :: le(a, b) || le(b, a))
    && (forall a, b, c :: le(a, b) && le(b, c) ==> le(a, c))
  }

  predicate SortedBy<T>(xs: seq<T>, le: (T, T) -> bool) {
    forall i, j :: 0 <= i < j < |xs| ==> le(xs[i], xs[j])
  }

  /** `r` holds exactly the rows of `xs` that satisfy `p`, each as often as in `xs`, ordered by `le`. */
  ghost predicate IsListing<T(!new)>(r: seq<T>, xs: seq<T>, p: T -> bool, le: (T, T) -> bool) {
    && (forall x :: multiset(r)[x] == if p(x) then multiset(xs)[x] else 0)
    && SortedBy(r, le)
  }

  function Filter<T(!new)>(xs: seq<T>, p: T -> bool): (r: seq<T>)
    ensures forall x :: multiset(r)[x] == if p(x) then multiset(xs)[x] else 0
    ensures |r| <= |xs|
  {
    if xs == [] then []
    else
      assert xs == [xs[0]] + xs[1..];
      (if p(xs[0]) then [xs[0]] else []) + Filter(xs[1..], p)
  }

  function Insert<T(!new)>(x: T, xs: seq<T>, le: (T, T) -> bool): (r: seq<T>)
    requires TotalPreorder(le)
    requires SortedBy(xs, le)
    ensures multiset(r) == multiset(xs) + multiset{x}
    ensures SortedBy(r, le)
  {
    if xs == [] || le(x, xs[0]) then [x] + xs
    else
      assert xs == [xs[0]] + xs[1..];
      var rest := Insert(x, xs[1..], le);
      HeadPrecedesInsert(x, xs, rest, le);
      ConsSorted(xs[0], rest, le);
      [xs[0]] + rest
  }

  /** When `x` goes after the head, the head precedes every row of the insertion into the tail. */
  lemma HeadPrecedesInsert<T(!new)>(x: T, xs: seq<T>, rest: seq<T>, le: (T, T) -> bool)
    requires TotalPreorder(le)
    requires SortedBy(xs, le)
    requires xs != [] && !le(x, xs[0])
    requires multiset(rest) == multiset(xs[1..]) + multiset{x}
    ensures forall k :: 0 <= k < |rest| ==> le(xs[0], rest[k])
  {
    forall k | 0 <= k < |rest|
      ensures le(xs[0], rest[k])
    {
      assert rest[k] in multiset(rest);
      if rest[k] != x {
        assert rest[k] in multiset(xs[1..]);
        var m :| 0 <= m < |xs[1..]| && xs[1..][m] == rest[k];
        assert xs[m + 1] == rest[k];
      }
    }
  }

  lemma ConsSorted<T>(h: T, rest: seq<T>, le: (T, T) -> bool)
    requires SortedBy(rest, le)
    requires forall k :: 0 <= k < |rest| ==> le(h, rest[k])
    ensures SortedBy([h] + rest, le)
  {
    var r := [h] + rest;
    forall i, j | 0 <= i < j < |r|
      ensures le(r[i], r[j])
    {
      assert r[j] == rest[j - 1];
      if i > 0 {
        assert r[i] == rest[i - 1];
      }
    }
  }

  /** Insertion sort. */
  function Sort<T(!new)>(xs: seq<T>, le: (T, T) -> bool): (r: seq<T>)
    requires TotalPreorder(le)
    ensures multiset(r) == multiset(xs)
    ensures SortedBy(r, le)
  {
    if xs == [] then []
    else
      assert xs == [xs[0]] + xs[1..];
      Insert(xs[0], Sort(xs[1..], le), le)
  }

  /** `where(p)->orderBy(le)->get()`. */
  function Listing<T(!new)>(xs: seq<T>, p: T -> bool, le: (T, T) -> bool): (r: seq<T>)
    requires TotalPreorder(le)
    ensures IsListing(r, xs, p, le)
  {
    Sort(Filter(xs, p), le)
  }

  /** A listing contains a row exactly when the table does and the row satisfies the condition. */
  lemma ListingMembers<T(!new)>(r: seq<T>, xs: seq<T>, p: T -> bool, le: (T, T) -> bool)
    requires IsListing(r, xs, p, le)
    ensures forall x :: x in r <==> x in xs && p(x)
  {
    forall x ensures x in r <==> x in xs && p(x) {
      assert x in r <==> multiset(r)[x] > 0;
      assert x in xs <==> multiset(xs)[x] > 0;
    }
  }

  /** `orderBy(le)->take(n)->get()`: the first n rows in the order, and no row left out precedes one kept. */
  function Top<T(!new)>(xs: seq<T>, n: nat, le: (T, T) -> bool): (r: seq<T>)
    requires TotalPreorder(le)
    ensures |r| == if |xs| < n then |xs| else n
    ensures SortedBy(r, le)
    ensures multiset(r) <= multiset(xs)
    ensures forall e :: e in xs && e !in r ==> forall k :: 0 <= k < |r| ==> le(r[k], e)
  {
    var all := Sort(xs, le);
    var cut := if |all| < n then |all| else n;
    PrefixOfSorted(xs, all, cut, le);
    all[..cut]
  }

  /** A prefix of a sorted permutation of `xs` keeps the order and precedes every row it leaves out. */
  lemma PrefixOfSorted<T(!new)>(xs: seq<T>, all: seq<T>, cut: nat, le: (T, T) -> bool)
    requires SortedBy(all, le) && multiset(all) == multiset(xs)
    requires cut <= |all|
    ensures |all| == |xs|
    ensures SortedBy(all[..cut], le)
    ensures multiset(all[..cut]) <= multiset(xs)
    ensures forall e :: e in xs && e !in all[..cut] ==> forall k :: 0 <= k < cut ==> le(all[..cut][k], e)
  {
    assert |all| == |multiset(all)| == |multiset(xs)| == |xs|;
    var r := all[..cut];
    assert all == r + all[cut..];
    assert multiset(all) == multiset(r) + multiset(all[cut..]);
    forall e | e in xs && e !in r
      ensures forall k :: 0 <= k < cut ==> le(r[k], e)
    {
      assert e in multiset(xs);
      assert e in all;
      var m :| 0 <= m < |all| && all[m] == e;
      assert m >= cut;
    }
  }

  /** `where(p)->first()`: the position of the first row satisfying `p`, if any. */
  function FirstWhere<T>(xs: seq<T>, p: T -> bool): (r: Option<nat>)
    ensures r.Some? ==> r.value < |xs| && p(xs[r.value])
    ensures r.Some? ==> forall i :: 0 <= i < r.value ==> !p(xs[i])
    ensures r.None? ==> forall i :: 0 <= i < |xs| ==> !p(xs[i])
  {
    if xs == [] then None
    else if p(xs[0]) then Some(0)
    else match FirstWhere(xs[1..], p)
      case None => None
      case Some(k) => Some(k + 1)
  }

  /** FirstWhere only looks at which rows satisfy the condition. */
  lemma {:induction false} FirstWhereSame<T>(xs: seq<T>, ys: seq<T>, p: T -> bool)
    requires |xs| == |ys|
    requires forall k :: 0 <= k < |xs| ==> p(xs[k]) == p(ys[k])
    ensures FirstWhere(xs, p) == FirstWhere(ys, p)
  {
    if xs != [] {
      FirstWhereSame(xs[1..], ys[1..], p);
    }
  }

  /** Lexicographic order on code points: the order `orderBy('name')` gives. */
  predicate LexLe(a: string, b: string)
    decreases |a|
  {
    |a| == 0 || (|b| > 0 && (a[0] < b[0] || (a[0] == b[0] && LexLe(a[1..], b[1..]))))
  }

  lemma {:induction false} LexLeTotal(a: string, b: string)
    ensures LexLe(a, b) || LexLe(b, a)
    decreases |a|
  {
    if |a| > 0 && |b| > 0 && a[0] == b[0] {
      LexLeTotal(a[1..], b[1..]);
    }
  }

  lemma {:induction false} LexLeTransitive(a: string, b: string, c: string)
    requires LexLe(a, b) && LexLe(b, c)
    ensures LexLe(a, c)
    decreases |a|
  {
    if |a| > 0 && a[0] == b[0] && b[0] == c[0] {
      LexLeTransitive(a[1..], b[1..], c[1..]);
    }
  }
}
