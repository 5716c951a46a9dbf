/** The operators a SELECT is made of, over rows in the order a scan happens to yield them. */
module RelationalAlgebra {
  import opened Common

  /** The rows of `right` that join with `l`. */
  function Matching<L, R>(l: L, right: seq<R>, on: (L, R) -> bool): seq<R> {
    if right == [] then []
    else (if on(l, right[0]) then [right[0]] else []) + Matching(l, right[1..], on)
  }

  function PairAll<L, R>(l: L, rs: seq<R>): (ps: seq<(L, Option<R>)>)
    ensures |ps| == |rs|
    ensures forall i :: 0 <= i < |rs| ==> ps[i] == (l, Some(rs[i]))
  {
    seq(|rs|, i requires 0 <= i < |rs| => (l, Some(rs[i])))
  }

  /** LEFT JOIN: a left row without a partner is kept with NULLs. */
  function LeftJoin<L, R>(left: seq<L>, right: seq<R>, on: (L, R) -> bool): seq<(L, Option<R>)> {
    if left == [] then []
    else
      var ms := Matching(left[0], right, on);
      (if ms == [] then [(left[0], None)] else PairAll(left[0], ms)) + LeftJoin(left[1..], right, on)
  }

  function InnerJoin<L, R>(left: seq<L>, right: seq<R>, on: (L, R) -> bool): seq<(L, R)> {
    if left == [] then []
    else
      var ms := Matching(left[0], right, on);
      seq(|ms|, i requires 0 <= i < |ms| => (left[0], ms[i])) + InnerJoin(left[1..], right, on)
  }

  function Distinct<T(==,!new)>(s: seq<T>): (r: seq<T>)
    ensures forall x :: x in r <==> x in s
    ensures NoDuplicates(r)
  {
    if s == [] then []
    else
      var rest := Distinct(s[1..]);
      if s[0] in rest then rest else [s[0]] + rest
  }

  function Insert<T>(key: T -> int, x: T, s: seq<T>): (r: seq<T>)
    ensures |r| == |s| + 1
  {
    if s == [] || key(x) <= key(s[0]) then [x] + s else [s[0]] + Insert(key, x, s[1..])
  }

  /** ORDER BY: a stable sort, so that rows with equal keys keep the order of the scan, which is
      itself arbitrary. */
  function SortBy<T>(key: T -> int, s: seq<T>): (r: seq<T>)
    ensures |r| == |s|
  {
    if s == [] then [] else Insert(key, s[0], SortBy(key, s[1..]))
  }

  function Limit<T>(s: seq<T>, n: Option<nat>): seq<T> {
    if n.Some? && n.value < |s| then s[..n.value] else s
  }

  // ----- joins -----

  lemma {:induction false} MatchingMember<L, R>(l: L, right: seq<R>, on: (L, R) -> bool, r: R)
    ensures r in Matching(l, right, on) <==> r in right && on(l, r)
  {
    if right == [] {
    } else {
      MatchingMember(l, right[1..], on, r);
    }
  }

  lemma {:induction false} LeftJoinMember<L, R>(left: seq<L>, right: seq<R>, on: (L, R) -> bool, x: (L, Option<R>))
    ensures x in LeftJoin(left, right, on)
      <==> x.0 in left && match x.1 { case Some(r) => r in right && on(x.0, r)
                                      case None => forall r :: r in right ==> !on(x.0, r) }
  {
    if left == [] {
    } else {
      LeftJoinMember(left[1..], right, on, x);
      var ms := Matching(left[0], right, on);
      forall r
        ensures r in ms <==> r in right && on(left[0], r)
      {
        MatchingMember(left[0], right, on, r);
      }
      if ms != [] {
        MatchingMember(left[0], right, on, ms[0]);
      }
      assert left == [left[0]] + left[1..];
      HeadMember(left[0], ms, x);
    }
  }

  lemma HeadMember<L, R>(l: L, ms: seq<R>, x: (L, Option<R>))
    ensures x in (if ms == [] then [(l, None)] else PairAll(l, ms))
      <==> x.0 == l && match x.1 { case Some(r) => r in ms case None => ms == [] }
  {
  }

  lemma {:induction false} InnerJoinMember<L, R>(left: seq<L>, right: seq<R>, on: (L, R) -> bool, x: (L, R))
    ensures x in InnerJoin(left, right, on) <==> x.0 in left && x.1 in right && on(x.0, x.1)
  {
    if left == [] {
    } else {
      InnerJoinMember(left[1..], right, on, x);
      MatchingMember(left[0], right, on, x.1);
      var ms := Matching(left[0], right, on);
      var head := seq(|ms|, i requires 0 <= i < |ms| => (left[0], ms[i]));
      assert left == [left[0]] + left[1..];
      if x.0 == left[0] && x.1 in ms {
        var i :| 0 <= i < |ms| && ms[i] == x.1;
        assert head[i] == x;
      }
    }
  }

  // ----- joins of duplicate-free rows are duplicate-free -----

  lemma DisjointConcat<T>(a: seq<T>, b: seq<T>)
    requires NoDuplicates(a) && NoDuplicates(b)
    requires forall i :: 0 <= i < |a| ==> a[i] !in b
    ensures NoDuplicates(a + b)
  {
  }

  lemma {:induction false} MatchingNoDuplicates<L, R>(l: L, right: seq<R>, on: (L, R) -> bool)
    requires NoDuplicates(right)
    ensures NoDuplicates(Matching(l, right, on))
  {
    if right == [] {
    } else {
      MatchingNoDuplicates(l, right[1..], on);
      MatchingMember(l, right[1..], on, right[0]);
      if on(l, right[0]) {
        DisjointConcat([right[0]], Matching(l, right[1..], on));
      }
    }
  }

  lemma {:induction false} LeftJoinNoDuplicates<L, R>(left: seq<L>, right: seq<R>, on: (L, R) -> bool)
    requires NoDuplicates(left) && NoDuplicates(right)
    ensures NoDuplicates(LeftJoin(left, right, on))
  {
    if left == [] {
    } else {
      LeftJoinNoDuplicates(left[1..], right, on);
      MatchingNoDuplicates(left[0], right, on);
      var ms := Matching(left[0], right, on);
      var head := if ms == [] then [(left[0], None)] else PairAll(left[0], ms);
      forall i | 0 <= i < |head|
        ensures head[i] !in LeftJoin(left[1..], right, on)
      {
        LeftJoinMember(left[1..], right, on, head[i]);
      }
      DisjointConcat(head, LeftJoin(left[1..], right, on));
    }
  }

  lemma {:induction false} InnerJoinNoDuplicates<L, R>(left: seq<L>, right: seq<R>, on: (L, R) -> bool)
    requires NoDuplicates(left) && NoDuplicates(right)
    ensures NoDuplicates(InnerJoin(left, right, on))
  {
    if left == [] {
    } else {
      InnerJoinNoDuplicates(left[1..], right, on);
      MatchingNoDuplicates(left[0], right, on);
      var ms := Matching(left[0], right, on);
      var head := seq(|ms|, i requires 0 <= i < |ms| => (left[0], ms[i]));
      forall i | 0 <= i < |head|
        ensures head[i] !in InnerJoin(left[1..], right, on)
      {
        InnerJoinMember(left[1..], right, on, head[i]);
      }
      DisjointConcat(head, InnerJoin(left[1..], right, on));
    }
  }

  // ----- order -----

  ghost predicate SortedBy<T>(key: T -> int, s: seq<T>) {
    forall i, j :: 0 <= i < j < |s| ==> key(s[i]) <= key(s[j])
  }

  lemma {:induction false} InsertKeepsRows<T>(key: T -> int, x: T, s: seq<T>)
    ensures multiset(Insert(key, x, s)) == multiset(s) + multiset{x}
  {
    if s != [] && key(x) > key(s[0]) {
      InsertKeepsRows(key, x, s[1..]);
      assert s == [s[0]] + s[1..];
    }
  }

  lemma {:induction false} InsertCorrect<T>(key: T -> int, x: T, s: seq<T>)
    requires SortedBy(key, s)
    ensures SortedBy(key, Insert(key, x, s))
  {
    if s != [] && key(x) > key(s[0]) {
      var rest := Insert(key, x, s[1..]);
      InsertCorrect(key, x, s[1..]);
      InsertKeepsRows(key, x, s[1..]);
      forall j | 0 <= j < |rest|
        ensures key(s[0]) <= key(rest[j])
      {
        assert rest[j] in multiset(rest);
        assert rest[j] == x || rest[j] in s[1..];
      }
    }
  }

  lemma {:induction false} SortByCorrect<T>(key: T -> int, s: seq<T>)
    ensures SortedBy(key, SortBy(key, s))
    ensures multiset(SortBy(key, s)) == multiset(s)
  {
    if s == [] {
    } else {
      SortByCorrect(key, s[1..]);
      InsertCorrect(key, s[0], SortBy(key, s[1..]));
      InsertKeepsRows(key, s[0], SortBy(key, s[1..]));
      assert s == [s[0]] + s[1..];
    }
  }

  lemma {:induction false} NoDuplicatesCount<T>(s: seq<T>)
    ensures NoDuplicates(s) <==> forall x :: x in s ==> multiset(s)[x] == 1
  {
    if s == [] {
    } else {
      NoDuplicatesCount(s[1..]);
      assert s == [s[0]] + s[1..];
      if NoDuplicates(s) {
        assert s[0] !in s[1..];
      }
      if forall x :: x in s ==> multiset(s)[x] == 1 {
        assert multiset(s)[s[0]] == 1;
        assert forall x :: x in s[1..] ==> x in s && multiset(s)[x] == 1;
        assert s[0] !in multiset(s[1..]);
        DisjointConcat([s[0]], s[1..]);
      }
    }
  }

  /** Sorting keeps every row, once. */
  lemma SortByNoDuplicates<T>(key: T -> int, s: seq<T>)
    requires NoDuplicates(s)
    ensures NoDuplicates(SortBy(key, s))
  {
    SortByCorrect(key, s);
    var r := SortBy(key, s);
    forall x
      ensures x in r <==> x in s
    {
      SortByMember(key, s, x);
    }
    NoDuplicatesCount(s);
    NoDuplicatesCount(r);
  }

  lemma SortByMember<T>(key: T -> int, s: seq<T>, x: T)
    ensures x in SortBy(key, s) <==> x in s
  {
    SortByCorrect(key, s);
    assert x in SortBy(key, s) <==> x in multiset(SortBy(key, s));
    assert x in s <==> x in multiset(s);
  }
}
