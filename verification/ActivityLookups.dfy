/** Lookup by id and by tag, their agreement with get_activities, and paging. */
module ActivityLookups {
  import opened Common
  import opened ActivityTypes
  import opened ActivityTables
  import opened ActivityStore
  import opened SqlText
  import opened ActivityQueryText
  import opened RelationalAlgebra
  import opened ActivityQueryPlan
  import opened ActivityQueryProofs

  /** A lookup never meets a parent without its detail row. */
  lemma GetByIdIsLookup(t: Tables, id: string)
    requires RelationalInvariant(t)
    ensures GetById(t, id) == Ok(if id in Abs(t) then Some(Abs(t)[id].activity) else None)
  {
    assert Fits(t, id);
  }

  // ----- by tag -----

  lemma {:induction false} WithTagRows(rows: seq<TagRec>, tag: string)
    requires NoDuplicates(rows)
    ensures NoDuplicates(WithTag(rows, tag))
    ensures forall p :: p in WithTag(rows, tag) <==> p in rows && p.1 == tag
  {
    if rows == [] {
    } else {
      WithTagRows(rows[1..], tag);
      assert rows == [rows[0]] + rows[1..];
      if rows[0].1 == tag {
        DisjointConcat([rows[0]], WithTag(rows[1..], tag));
      }
    }
  }

  function TaggedIds(rows: seq<(ParentRec, TagRec)>): (ids: seq<string>)
    ensures |ids| == |rows|
    ensures forall i :: 0 <= i < |rows| ==> ids[i] == rows[i].0.0
  {
    seq(|rows|, i requires 0 <= i < |rows| => rows[i].0.0)
  }

  lemma {:induction false} LookUpAllFinds(t: Tables, rows: seq<(ParentRec, TagRec)>)
    requires RelationalInvariant(t) && Present(t, TaggedIds(rows))
    ensures LookUpAll(t, rows) == Ok(ActivitiesAt(t, TaggedIds(rows)))
  {
    if rows == [] {
    } else {
      var init, last := rows[..|rows| - 1], rows[|rows| - 1];
      assert TaggedIds(rows) == TaggedIds(init) + [last.0.0];
      LookUpAllFinds(t, init);
      GetByIdIsLookup(t, last.0.0);
      assert ActivitiesAt(t, TaggedIds(rows)) == ActivitiesAt(t, TaggedIds(init)) + [ActivityAt(t, last.0.0)];
    }
  }

  ghost function TaggedRowAt(t: Tables, id: string, tag: string): (ParentRec, TagRec)
    requires id in t.activities
  {
    ((id, t.activities[id]), (id, tag))
  }

  lemma TaggedRowsHold(t: Tables, s: Scan, tag: string, d: SortDirection)
    requires RelationalInvariant(t) && ScanOf(s, t)
    ensures var rows := TaggedRows(s, tag, d, None);
      && NoDuplicates(rows) && SortedBy(TagKey(d), rows)
      && (forall r :: r in rows ==> r.0.0 in t.activities && (r.0.0, tag) in t.tags && r == TaggedRowAt(t, r.0.0, tag))
      && (forall id :: id in t.activities && (id, tag) in t.tags ==> TaggedRowAt(t, id, tag) in rows)
  {
    var tags := WithTag(s.tags, tag);
    WithTagRows(s.tags, tag);
    var joined := InnerJoin(s.activities, tags, OnTag);
    InnerJoinNoDuplicates(s.activities, tags, OnTag);
    SortByCorrect(TagKey(d), joined);
    SortByNoDuplicates(TagKey(d), joined);
    var rows := SortBy(TagKey(d), joined);
    forall r | r in rows
      ensures r.0.0 in t.activities && (r.0.0, tag) in t.tags && r == TaggedRowAt(t, r.0.0, tag)
    {
      SortByMember(TagKey(d), joined, r);
      InnerJoinMember(s.activities, tags, OnTag, r);
      assert r.1 == (r.0.0, tag);
    }
    forall id | id in t.activities && (id, tag) in t.tags
      ensures TaggedRowAt(t, id, tag) in rows
    {
      var r := TaggedRowAt(t, id, tag);
      assert r.0 in s.activities && r.1 in s.tags;
      InnerJoinMember(s.activities, tags, OnTag, r);
      SortByMember(TagKey(d), joined, r);
    }
  }

  lemma TagQueryMatches(t: Tables, id: string, tag: string, limit: Option<u32>, d: SortDirection)
    requires RelationalInvariant(t) && id in t.activities
    ensures id in Abs(t) && (Matches(Abs(t)[id], TagQuery(tag, limit, d)) <==> (id, tag) in t.tags)
  {
  }

  /** Lookup by tag never fails, never drops a row, and answers the same request as
      get_activities with that one tag; each element is what lookup by its id returns. */
  lemma TagLookupAnswers(t: Tables, s: Scan, tag: string, limit: Option<u32>, d: SortDirection)
    requires RelationalInvariant(t) && ScanOf(s, t)
    ensures var r := GetActivitiesByTag(t, s, tag, limit, d);
      && r.Ok?
      && Answer(Abs(t), TagQuery(tag, limit, d), r.value)
      && forall i :: 0 <= i < |r.value| ==> GetById(t, r.value[i].Id()) == Ok(Some(r.value[i]))
  {
    var rows, q := TaggedRows(s, tag, d, None), TagQuery(tag, limit, d);
    TaggedRowsHold(t, s, tag, d);
    var ids := TaggedIds(rows);
    forall i | 0 <= i < |ids|
      ensures ids[i] in t.activities && Fits(t, ids[i]) && (ids[i], tag) in t.tags
      ensures rows[i] == TaggedRowAt(t, ids[i], tag)
    {
      assert rows[i] in rows;
    }
    TaggedListing(t, rows, tag, limit, d);
    LimitOfTagged(t, rows, limit);
    LookUpAllFinds(t, Limit(rows, limit));
    ListedAreFound(t, Limit(ids, limit));
  }

  lemma LimitOfTagged(t: Tables, rows: seq<(ParentRec, TagRec)>, n: Option<nat>)
    requires Present(t, TaggedIds(rows))
    ensures TaggedIds(Limit(rows, n)) == Limit(TaggedIds(rows), n)
    ensures Present(t, Limit(TaggedIds(rows), n))
    ensures ActivitiesAt(t, Limit(TaggedIds(rows), n)) == Limit(ActivitiesAt(t, TaggedIds(rows)), n)
  {
  }

  lemma ListedAreFound(t: Tables, ids: seq<string>)
    requires RelationalInvariant(t) && Present(t, ids)
    ensures forall i :: 0 <= i < |ids| ==>
      GetById(t, ActivitiesAt(t, ids)[i].Id()) == Ok(Some(ActivitiesAt(t, ids)[i]))
  {
  }

  lemma TaggedListing(t: Tables, rows: seq<(ParentRec, TagRec)>, tag: string, limit: Option<u32>, d: SortDirection)
    requires RelationalInvariant(t) && NoDuplicates(rows) && SortedBy(TagKey(d), rows)
    requires Present(t, TaggedIds(rows))
    requires forall i :: 0 <= i < |rows| ==>
      (TaggedIds(rows)[i], tag) in t.tags && rows[i] == TaggedRowAt(t, TaggedIds(rows)[i], tag)
    requires forall id :: id in t.activities && (id, tag) in t.tags ==> TaggedRowAt(t, id, tag) in rows
    ensures FullListing(Abs(t), TagQuery(tag, limit, d), ActivitiesAt(t, TaggedIds(rows)))
  {
    var ids, q := TaggedIds(rows), TagQuery(tag, limit, d);
    forall i, j | 0 <= i < j < |ids|
      ensures SortKey(d, t.activities[ids[i]].timestamp) <= SortKey(d, t.activities[ids[j]].timestamp)
    {
      assert TagKey(d)(rows[i]) <= TagKey(d)(rows[j]);
    }
    forall id
      ensures id in ids <==> id in Abs(t) && Matches(Abs(t)[id], q)
    {
      if id in t.activities {
        TagQueryMatches(t, id, tag, limit, d);
        if (id, tag) in t.tags {
          var k :| 0 <= k < |rows| && rows[k] == TaggedRowAt(t, id, tag);
          assert ids[k] == id;
        }
      }
    }
    IdsAreListing(t, q, ids);
  }

  // ----- when an answer is determined -----

  /** No two matching activities share a timestamp. */
  ghost predicate DistinctTimestamps(s: Store, q: Query) {
    forall x, y :: x in s && y in s && Matches(s[x], q) && Matches(s[y], q) && x != y
      ==> s[x].activity.Timestamp() != s[y].activity.Timestamp()
  }

  lemma ListingsHoldSame(s: Store, q: Query, a: seq<Activity>, b: seq<Activity>)
    requires FullListing(s, q, a) && FullListing(s, q, b)
    ensures forall i :: 0 <= i < |a| ==> a[i] in b
  {
  }

  /** Two listings agree up to ties; without ties they are the same sequence. */
  lemma {:induction false} ListingIsUnique(s: Store, q: Query, a: seq<Activity>, b: seq<Activity>, n: nat)
    requires FullListing(s, q, a) && FullListing(s, q, b) && DistinctTimestamps(s, q)
    requires n <= |a|
    ensures n <= |b| && a[..n] == b[..n]
  {
    if n == 0 {
    } else {
      ListingIsUnique(s, q, a, b, n - 1);
      var k := PlaceInOther(s, q, a, b, n - 1);
      var j := PlaceInOther(s, q, b, a, n - 1);
      StrictlySorted(s, q, a);
      StrictlySorted(s, q, b);
      assert a[n - 1] == b[n - 1];
      assert a[..n] == a[..n - 1] + [a[n - 1]] && b[..n] == b[..n - 1] + [b[n - 1]];
    }
  }

  /** Beyond a common prefix, an element of one listing stands beyond it in the other. */
  lemma PlaceInOther(s: Store, q: Query, a: seq<Activity>, b: seq<Activity>, n: nat) returns (k: nat)
    requires FullListing(s, q, a) && FullListing(s, q, b)
    requires n < |a| && n <= |b| && a[..n] == b[..n]
    ensures n <= k < |b| && b[k] == a[n]
  {
    ListingsHoldSame(s, q, a, b);
    assert a[n] in b;
    k :| 0 <= k < |b| && b[k] == a[n];
    forall i | 0 <= i < n
      ensures b[i] != a[n]
    {
      assert a[..n][i] == b[..n][i];
      assert a[i].Id() != a[n].Id();
    }
  }

  lemma StrictlySorted(s: Store, q: Query, a: seq<Activity>)
    requires FullListing(s, q, a) && DistinctTimestamps(s, q)
    ensures forall i, j :: 0 <= i < j < |a| ==>
      SortKey(q.direction, a[i].Timestamp()) < SortKey(q.direction, a[j].Timestamp())
  {
  }

  lemma AnswerIsUnique(s: Store, q: Query, a: seq<Activity>, b: seq<Activity>)
    requires Answer(s, q, a) && Answer(s, q, b) && DistinctTimestamps(s, q)
    ensures a == b
  {
    var x :| FullListing(s, q, x) && a == Limit(x, q.limit);
    var y :| FullListing(s, q, y) && b == Limit(y, q.limit);
    ListingsAreEqual(s, q, x, y);
  }

  lemma ListingsAreEqual(s: Store, q: Query, a: seq<Activity>, b: seq<Activity>)
    requires FullListing(s, q, a) && FullListing(s, q, b) && DistinctTimestamps(s, q)
    ensures a == b
  {
    ListingIsUnique(s, q, a, b, |a|);
    ListingIsUnique(s, q, b, a, |b|);
    assert a == a[..|a|] && b == b[..|b|];
  }

  /** get_activities_by_tag and get_activities with that tag agree: the same activities when
      nothing is cut off, and the same sequence whenever timestamps are distinct. A tag with a NUL
      is the exception: it is bound in the one and part of the text in the other. */
  lemma TagLookupAgrees(t: Tables, s: Scan, inner: Scan, outer: Scan, tag: string, limit: Option<u32>, d: SortDirection)
    requires RelationalInvariant(t) && ScanOf(s, t) && ScanOf(inner, t) && ScanOf(outer, t)
    ensures var byTag := GetActivitiesByTag(t, s, tag, limit, d);
      var filtered := GetActivities(TagQuery(tag, limit, d), inner, outer);
      && byTag.Ok?
      && if HasNul(tag) then filtered == Err(RetrievalError)
         else
           && filtered.Ok?
           && (limit == None ==> forall a :: a in byTag.value <==> a in filtered.value)
           && (DistinctTimestamps(Abs(t), TagQuery(tag, limit, d)) ==> byTag == filtered)
  {
    var q := TagQuery(tag, limit, d);
    TagLookupAnswers(t, s, tag, limit, d);
    QueryPlanMeansFilter(t, q, inner, outer);
    assert NulFree(q) <==> !HasNul(tag) by {
      assert q.tags.value[0] == tag;
    }
    if !HasNul(tag) {
      SameAnswers(Abs(t), q, GetActivitiesByTag(t, s, tag, limit, d).value, GetActivities(q, inner, outer).value);
    }
  }

  lemma SameAnswers(s: Store, q: Query, a: seq<Activity>, b: seq<Activity>)
    requires Answer(s, q, a) && Answer(s, q, b)
    ensures q.limit == None ==> forall x :: x in a <==> x in b
    ensures DistinctTimestamps(s, q) ==> a == b
  {
    if q.limit == None {
      ListingsHoldSame(s, q, a, b);
      ListingsHoldSame(s, q, b, a);
    }
    if DistinctTimestamps(s, q) {
      AnswerIsUnique(s, q, a, b);
    }
  }

  // ----- paging -----

  /** The next page's request: everything later than the last activity seen. */
  function After(q: Query, last: Activity): Query
    requires last.Timestamp() < MAX_U64
  {
    q.(minDate := Some(last.Timestamp() + 1))
  }

  /** A caller that asks for pages of n until one comes back short, on an unchanged store. */
  ghost predicate Paged(s: Store, q: Query, n: u32, pages: seq<seq<Activity>>)
    decreases |pages|
  {
    && pages != []
    && Answer(s, q.(limit := Some(n)), pages[0])
    && if |pages[0]| < n then |pages| == 1
       else |pages[0]| > 0 && pages[0][|pages[0]| - 1].Timestamp() < MAX_U64
            && Paged(s, After(q, pages[0][|pages[0]| - 1]), n, pages[1..])
  }

  function Concat(pages: seq<seq<Activity>>): seq<Activity> {
    if pages == [] then [] else pages[0] + Concat(pages[1..])
  }

  predicate OnlyLastIsShort(pages: seq<seq<Activity>>, n: nat) {
    pages != [] && if |pages| == 1 then |pages[0]| < n else |pages[0]| == n && OnlyLastIsShort(pages[1..], n)
  }

  lemma AfterMatches(e: Entry, q: Query, last: Activity)
    requires last.Timestamp() < MAX_U64 && (q.minDate.Some? ==> q.minDate.value <= last.Timestamp())
    ensures Matches(e, After(q, last)) <==> Matches(e, q) && last.Timestamp() < e.activity.Timestamp()
  {
  }

  lemma MatchIsNotEarlier(e: Entry, q: Query)
    requires Matches(e, q)
    ensures q.minDate.Some? ==> q.minDate.value <= e.activity.Timestamp()
  {
  }

  lemma RestHoldsLater(s: Store, q: Query, full: seq<Activity>, n: nat)
    requires FullListing(s, q, full) && 0 < n <= |full| && q.direction == Asc
    requires forall i, j :: 0 <= i < j < |full| ==> full[i].Timestamp() < full[j].Timestamp()
    ensures forall id :: id in s && Matches(s[id], q) && full[n - 1].Timestamp() < s[id].activity.Timestamp()
              ==> s[id].activity in full[n..]
    ensures forall i :: 0 <= i < |full[n..]| ==> full[n..][i] == full[n + i]
  {
  }

  /** What is later than the n-th activity is the rest of the listing. */
  lemma RestIsListing(s: Store, q: Query, full: seq<Activity>, n: nat)
    requires q.direction == Asc && FullListing(s, q, full) && DistinctTimestamps(s, q)
    requires 0 < n <= |full| && full[n - 1].Timestamp() < MAX_U64
    ensures FullListing(s, After(q, full[n - 1]), full[n..])
    ensures DistinctTimestamps(s, After(q, full[n - 1]))
  {
    hide Matches;
    var q', rest := After(q, full[n - 1]), full[n..];
    StrictlySorted(s, q, full);
    MatchIsNotEarlier(s[full[n - 1].Id()], q);
    forall id | id in s
      ensures Matches(s[id], q') <==> Matches(s[id], q) && full[n - 1].Timestamp() < s[id].activity.Timestamp()
    {
      AfterMatches(s[id], q, full[n - 1]);
    }
    RestHoldsLater(s, q, full, n);
  }

  /** Ascending pages with distinct timestamps concatenate to the unlimited result. Every page
      but the last is full and the last is not, so asking for the next page comes to an end. */
  lemma {:induction false} PagesConcatenate(s: Store, q: Query, n: u32, full: seq<Activity>, pages: seq<seq<Activity>>)
    requires q.direction == Asc && n > 0 && DistinctTimestamps(s, q)
    requires FullListing(s, q, full) && Paged(s, q, n, pages)
    ensures Concat(pages) == full
    ensures |pages| <= |full| + 1
    ensures OnlyLastIsShort(pages, n)
    decreases |pages|
  {
    if |full| < n {
      LastPage(s, q, n, full, pages);
    } else {
      FullPage(s, q, n, full, pages);
      PagesConcatenate(s, After(q, full[n - 1]), n, full[n..], pages[1..]);
      OneMorePage(full, n, pages);
    }
  }

  lemma OneMorePage(full: seq<Activity>, n: nat, pages: seq<seq<Activity>>)
    requires 0 < n <= |full| && pages != [] && pages[0] == full[..n]
    requires Concat(pages[1..]) == full[n..] && |pages[1..]| <= |full[n..]| + 1 && OnlyLastIsShort(pages[1..], n)
    ensures Concat(pages) == full && |pages| <= |full| + 1 && OnlyLastIsShort(pages, n)
  {
  }

  lemma LastPage(s: Store, q: Query, n: u32, full: seq<Activity>, pages: seq<seq<Activity>>)
    requires DistinctTimestamps(s, q) && FullListing(s, q, full) && Paged(s, q, n, pages) && |full| < n
    ensures |pages| == 1 && |pages[0]| < n && Concat(pages) == full
  {
    FirstPage(s, q, n, full, pages[0]);
    assert pages[1..] == [];
    assert pages[0] + Concat(pages[1..]) == pages[0];
  }

  lemma FullPage(s: Store, q: Query, n: u32, full: seq<Activity>, pages: seq<seq<Activity>>)
    requires q.direction == Asc && 0 < n <= |full|
    requires DistinctTimestamps(s, q) && FullListing(s, q, full) && Paged(s, q, n, pages)
    ensures pages[0] == full[..n] && |pages[0]| == n && full[n - 1].Timestamp() < MAX_U64
    ensures Paged(s, After(q, full[n - 1]), n, pages[1..])
    ensures FullListing(s, After(q, full[n - 1]), full[n..])
    ensures DistinctTimestamps(s, After(q, full[n - 1]))
  {
    hide FullListing, Answer, DistinctTimestamps, Activity.Timestamp, After;
    FirstPage(s, q, n, full, pages[0]);
    LastOfPage(full, n);
    assert pages[0] == full[..n];
    RestIsListing(s, q, full, n);
  }

  lemma LastOfPage(full: seq<Activity>, n: nat)
    requires 0 < n <= |full|
    ensures |full[..n]| == n && full[..n][n - 1] == full[n - 1]
  {
  }

  lemma FirstPage(s: Store, q: Query, n: u32, full: seq<Activity>, page: seq<Activity>)
    requires FullListing(s, q, full) && DistinctTimestamps(s, q) && Answer(s, q.(limit := Some(n)), page)
    ensures page == if n < |full| then full[..n] else full
    ensures |page| == if n < |full| then n else |full|
  {
    var q' := q.(limit := Some(n));
    LimitIsNotAMatch(s, q, n, full);
    assert Answer(s, q', Limit(full, q'.limit));
    AnswerIsUnique(s, q', page, Limit(full, q'.limit));
  }

  lemma LimitIsNotAMatch(s: Store, q: Query, n: u32, full: seq<Activity>)
    requires FullListing(s, q, full) && DistinctTimestamps(s, q)
    ensures FullListing(s, q.(limit := Some(n)), full) && DistinctTimestamps(s, q.(limit := Some(n)))
  {
    var q' := q.(limit := Some(n));
    assert forall id :: id in s ==> (Matches(s[id], q) <==> Matches(s[id], q'));
  }

  lemma FirstPageExists(s: Store, q: Query, n: u32, full: seq<Activity>)
    requires FullListing(s, q, full) && DistinctTimestamps(s, q)
    ensures Answer(s, q.(limit := Some(n)), Limit(full, Some(n)))
    ensures Limit(full, Some(n)) == if n < |full| then full[..n] else full
  {
    hide FullListing, DistinctTimestamps;
    LimitIsNotAMatch(s, q, n, full);
  }

  lemma ListedIsStored(s: Store, q: Query, full: seq<Activity>, i: nat)
    requires FullListing(s, q, full) && i < |full|
    ensures full[i].Id() in s && s[full[i].Id()].activity == full[i]
  {
  }

  lemma AddPage(s: Store, q: Query, n: u32, page: seq<Activity>, rest: seq<seq<Activity>>)
    requires Answer(s, q.(limit := Some(n)), page) && 0 < n <= |page| && page[|page| - 1].Timestamp() < MAX_U64
    requires Paged(s, After(q, page[|page| - 1]), n, rest)
    ensures Paged(s, q, n, [page] + rest)
  {
    hide Answer, After, Activity.Timestamp;
    assert ([page] + rest)[1..] == rest;
  }

  /** Such a sequence of pages exists from any store the database can hold. */
  lemma {:induction false} PagesExist(s: Store, q: Query, n: u32, full: seq<Activity>)
    returns (pages: seq<seq<Activity>>)
    requires q.direction == Asc && n > 0 && DistinctTimestamps(s, q) && FullListing(s, q, full)
    requires forall id :: id in s ==> s[id].activity.Timestamp() <= MAX_I64
    ensures Paged(s, q, n, pages)
    decreases |full|
  {
    hide FullListing, DistinctTimestamps, Answer;
    var page := Limit(full, Some(n));
    FirstPageExists(s, q, n, full);
    if |full| < n {
      pages := [page];
    } else {
      LastOfPage(full, n);
      assert page == full[..n];
      ListedIsStored(s, q, full, n - 1);
      RestIsListing(s, q, full, n);
      var rest := PagesExist(s, After(q, full[n - 1]), n, full[n..]);
      AddPage(s, q, n, page, rest);
      pages := [page] + rest;
    }
  }
}
