/** An answer of get_activities in terms of the timestamps alone: which end of the time line a
    limit keeps, and in which direction the result runs. */
module ActivityAnswers {
  import opened Common
  import opened ActivityTypes
  import opened ActivityStore
  import opened ActivityQueryText
  import opened RelationalAlgebra
  import opened ActivityQueryPlan

  /** Oldest first, or newest first. */
  ghost predicate InTimeOrder(r: seq<Activity>, oldestFirst: bool) {
    forall i, j :: 0 <= i < j < |r| ==>
      if oldestFirst then r[i].Timestamp() <= r[j].Timestamp() else r[i].Timestamp() >= r[j].Timestamp()
  }

  /** The activity may stand behind all of these. */
  ghost predicate MayFollow(a: Activity, r: seq<Activity>, oldestFirst: bool) {
    forall i :: 0 <= i < |r| ==>
      if oldestFirst then r[i].Timestamp() <= a.Timestamp() else r[i].Timestamp() >= a.Timestamp()
  }

  /** A match that is missing was cut off by the limit: the answer is full without it, and no
      newer (or older) one was left out. */
  ghost predicate OnlyLimitCuts(s: Store, q: Query, r: seq<Activity>, oldestFirst: bool) {
    && (q.limit.Some? ==> |r| <= q.limit.value)
    && forall id :: id in s && Matches(s[id], q) && s[id].activity !in r ==>
         q.limit.Some? && |r| == q.limit.value && MayFollow(s[id].activity, r, oldestFirst)
  }

  ghost predicate OneOfEach(a: seq<Activity>) {
    forall i, j :: 0 <= i < j < |a| ==> a[i].Id() != a[j].Id()
  }

  /** Each returned activity is stored, is asked for, and comes once. */
  ghost predicate OnlyMatches(s: Store, q: Query, r: seq<Activity>) {
    && (forall i :: 0 <= i < |r| ==> r[i].Id() in s && s[r[i].Id()].activity == r[i] && Matches(s[r[i].Id()], q))
    && OneOfEach(r)
  }

  /** The first so many matches, oldest or newest first. */
  ghost predicate FirstMatches(s: Store, q: Query, r: seq<Activity>, oldestFirst: bool) {
    InTimeOrder(r, oldestFirst) && OnlyMatches(s, q, r) && OnlyLimitCuts(s, q, r, oldestFirst)
  }

  // ----- every answer is that -----

  lemma ListingInTimeOrder(s: Store, q: Query, full: seq<Activity>)
    requires FullListing(s, q, full)
    ensures InTimeOrder(full, q.direction == Asc)
  {
    hide Matches;
  }

  lemma CutOffFollows(full: seq<Activity>, n: nat, k: nat, oldestFirst: bool)
    requires InTimeOrder(full, oldestFirst) && n <= k < |full|
    ensures MayFollow(full[k], full[..n], oldestFirst)
  {
    hide Activity.Timestamp;
    forall i | 0 <= i < n
      ensures var x, y := full[i].Timestamp(), full[k].Timestamp(); if oldestFirst then x <= y else x >= y
    {
    }
  }

  lemma BehindPrefix<T>(a: seq<T>, n: nat, x: T) returns (k: nat)
    requires n <= |a| && x in a && x !in a[..n]
    ensures n <= k < |a| && a[k] == x
  {
    k :| 0 <= k < |a| && a[k] == x;
    PrefixHolds(a, n, k);
  }

  lemma PrefixHolds<T>(a: seq<T>, n: nat, k: nat)
    requires n <= |a| && k < |a|
    ensures k < n ==> a[k] in a[..n]
  {
    if k < n {
      assert a[..n][k] == a[k];
    }
  }

  lemma ListingParts(s: Store, q: Query, full: seq<Activity>)
    requires FullListing(s, q, full)
    ensures OnlyMatches(s, q, full)
    ensures forall id :: id in s && Matches(s[id], q) ==> s[id].activity in full
  {
    hide Matches;
  }

  lemma LimitOnlyMatches(s: Store, q: Query, full: seq<Activity>, n: nat)
    requires OnlyMatches(s, q, full) && n <= |full|
    ensures OnlyMatches(s, q, full[..n])
  {
    hide Matches, Activity.Id;
  }

  lemma LimitInTimeOrder(full: seq<Activity>, n: nat, oldestFirst: bool)
    requires InTimeOrder(full, oldestFirst) && n <= |full|
    ensures InTimeOrder(full[..n], oldestFirst)
  {
    hide Activity.Timestamp;
  }

  lemma AnswerIsFirstMatches(s: Store, q: Query, r: seq<Activity>)
    requires Answer(s, q, r)
    ensures FirstMatches(s, q, r, q.direction == Asc)
  {
    var full :| FullListing(s, q, full) && r == Limit(full, q.limit);
    hide Matches, Activity.Timestamp, Activity.Id, InTimeOrder, OnlyMatches, FullListing, MayFollow;
    ListingInTimeOrder(s, q, full);
    ListingParts(s, q, full);
    if q.limit.Some? && q.limit.value < |full| {
      var n := q.limit.value;
      LimitInTimeOrder(full, n, q.direction == Asc);
      LimitOnlyMatches(s, q, full, n);
      forall id | id in s && Matches(s[id], q) && s[id].activity !in r
        ensures MayFollow(s[id].activity, r, q.direction == Asc)
      {
        var k := BehindPrefix(full, n, s[id].activity);
        CutOffFollows(full, n, k, q.direction == Asc);
      }
    }
  }

  // ----- and only answers are that -----

  lemma {:induction false} Enumerated(ids: set<string>) returns (a: seq<string>)
    ensures NoDuplicates(a) && forall id :: id in a <==> id in ids
    decreases |ids|
  {
    if ids == {} {
      a := [];
    } else {
      var id :| id in ids;
      var rest := Enumerated(ids - {id});
      a := [id] + rest;
    }
  }

  lemma DistinctIds(s: Store, a: seq<Activity>)
    requires NoDuplicates(a) && forall x :: x in a ==> x.Id() in s && s[x.Id()].activity == x
    ensures OneOfEach(a)
  {
    hide Activity.Id;
    forall i, j | 0 <= i < j < |a|
      ensures a[i].Id() != a[j].Id()
    {
      assert a[i] in a && a[j] in a;
    }
  }

  /** The activities under the ids, one each. */
  lemma HeldUnder(s: Store, ids: set<string>) returns (rows: seq<Activity>)
    requires forall id :: id in ids ==> id in s && s[id].activity.Id() == id
    ensures NoDuplicates(rows) && forall x :: x in rows <==> x.Id() in ids && s[x.Id()].activity == x
  {
    hide Activity.Id;
    var keys := Enumerated(ids);
    rows := seq(|keys|, i requires 0 <= i < |keys| => (assert keys[i] in keys; s[keys[i]].activity));
    forall i, j | 0 <= i < j < |rows|
      ensures rows[i] != rows[j]
    {
      assert keys[i] in keys && keys[j] in keys;
    }
    forall x
      ensures x in rows <==> x.Id() in ids && s[x.Id()].activity == x
    {
      if x in rows {
        var i :| 0 <= i < |rows| && rows[i] == x;
        assert keys[i] in keys;
      }
      if x.Id() in ids && s[x.Id()].activity == x {
        var i :| 0 <= i < |keys| && keys[i] == x.Id();
        assert rows[i] == x;
      }
    }
  }

  /** And sorted by time. */
  lemma SortedRest(s: Store, ids: set<string>, d: SortDirection) returns (rest: seq<Activity>)
    requires forall id :: id in ids ==> id in s && s[id].activity.Id() == id
    ensures InTimeOrder(rest, d == Asc) && OneOfEach(rest)
    ensures forall x :: x in rest <==> x.Id() in ids && s[x.Id()].activity == x
  {
    hide Activity.Timestamp, Activity.Id, SortBy, SortedBy, NoDuplicates, InTimeOrder, OneOfEach, SortKey;
    var rows := HeldUnder(s, ids);
    var key := (a: Activity) => SortKey(d, a.Timestamp());
    rest := SortBy(key, rows);
    SortByCorrect(key, rows);
    SortByNoDuplicates(key, rows);
    forall x
      ensures x in rest <==> x in rows
    {
      SortByMember(key, rows, x);
    }
    DistinctIds(s, rest);
    SortedIsInTimeOrder(rest, d);
  }

  lemma SortedIsInTimeOrder(a: seq<Activity>, d: SortDirection)
    requires SortedBy((x: Activity) => SortKey(d, x.Timestamp()), a)
    ensures InTimeOrder(a, d == Asc)
  {
    hide Activity.Timestamp;
    var key := (x: Activity) => SortKey(d, x.Timestamp());
    forall i, j | 0 <= i < j < |a|
      ensures if d == Asc then a[i].Timestamp() <= a[j].Timestamp() else a[i].Timestamp() >= a[j].Timestamp()
    {
      assert key(a[i]) <= key(a[j]);
    }
  }

  lemma InTimeOrderAcross(a: seq<Activity>, b: seq<Activity>, oldestFirst: bool)
    requires InTimeOrder(a, oldestFirst) && InTimeOrder(b, oldestFirst)
    requires forall x :: x in b ==> MayFollow(x, a, oldestFirst)
    ensures InTimeOrder(a + b, oldestFirst)
  {
    hide Activity.Timestamp;
    forall i, j | 0 <= i < j < |a + b|
      ensures var x, y := (a + b)[i].Timestamp(), (a + b)[j].Timestamp(); if oldestFirst then x <= y else x >= y
    {
      if i < |a| <= j {
        assert b[j - |a|] in b;
      }
    }
  }

  lemma OneEachAcross(a: seq<Activity>, b: seq<Activity>)
    requires OneOfEach(a) && OneOfEach(b) && forall i, x :: 0 <= i < |a| && x in b ==> a[i].Id() != x.Id()
    ensures OneOfEach(a + b)
  {
    hide Activity.Id;
    forall i, j | 0 <= i < j < |a + b|
      ensures (a + b)[i].Id() != (a + b)[j].Id()
    {
      if i < |a| <= j {
        assert b[j - |a|] in b;
      }
    }
  }

  lemma ListedWhole(s: Store, q: Query, a: seq<Activity>)
    requires InTimeOrder(a, q.direction == Asc) && OneOfEach(a)
    requires forall x :: x in a ==> x.Id() in s && s[x.Id()].activity == x && Matches(s[x.Id()], q)
    requires forall id :: id in s && Matches(s[id], q) ==> s[id].activity in a
    ensures FullListing(s, q, a)
  {
    hide Matches;
    forall i | 0 <= i < |a|
      ensures a[i].Id() in s && s[a[i].Id()].activity == a[i] && Matches(s[a[i].Id()], q)
    {
      assert a[i] in a;
    }
  }

  lemma InEither<T>(x: T, a: seq<T>, b: seq<T>)
    ensures x in a + b <==> x in a || x in b
  {
  }

  lemma FirstMatchesIsAnswer(s: Store, q: Query, r: seq<Activity>)
    requires forall id :: id in s ==> s[id].activity.Id() == id
    requires FirstMatches(s, q, r, q.direction == Asc)
    ensures Answer(s, q, r)
  {
    hide Matches, Activity.Timestamp, Activity.Id, InTimeOrder, FullListing;
    var missing := set id | id in s && Matches(s[id], q) && s[id].activity !in r;
    var rest := SortedRest(s, missing, q.direction);
    forall x | x in rest
      ensures MayFollow(x, r, q.direction == Asc)
      ensures forall i :: 0 <= i < |r| ==> r[i].Id() != x.Id()
    {
      assert x.Id() in missing;
    }
    InTimeOrderAcross(r, rest, q.direction == Asc);
    OneEachAcross(r, rest);
    forall x
      ensures x in r + rest <==> x in r || x in rest
    {
      InEither(x, r, rest);
    }
    ListedWhole(s, q, r + rest);
    if rest == [] {
      assert r + rest == r;
    } else {
      assert rest[0].Id() in missing;
    }
    assert r == Limit(r + rest, q.limit);
  }

  /** The answers to a request are exactly the sequences of stored matches, each once, that run
      oldest first for an ascending request and newest first for a descending one, and leave out
      only what a limit has cut off the far end. */
  lemma AnswersAreFirstMatches(s: Store, q: Query, r: seq<Activity>)
    requires forall id :: id in s ==> s[id].activity.Id() == id
    ensures Answer(s, q, r) <==> FirstMatches(s, q, r, q.direction == Asc)
  {
    hide Answer, FirstMatches;
    if Answer(s, q, r) {
      AnswerIsFirstMatches(s, q, r);
    }
    if FirstMatches(s, q, r, q.direction == Asc) {
      FirstMatchesIsAnswer(s, q, r);
    }
  }
}
