/** Paging by time when timestamps may be equal: what the pages hold together, and exactly when that
    is everything. */
module ActivityPaging {
  import opened Common
  import opened ActivityTypes
  import opened ActivityStore
  import opened ActivityQueryText
  import opened RelationalAlgebra
  import opened ActivityQueryPlan
  import opened ActivityAnswers
  import opened ActivityLookups

  /** The activity is stored and asked for. */
  ghost predicate Wanted(s: Store, q: Query, a: Activity) {
    a.Id() in s && s[a.Id()].activity == a && Matches(s[a.Id()], q)
  }

  ghost predicate InTime(a: seq<Activity>) { InTimeOrder(a, true) }

  ghost predicate AllWanted(s: Store, q: Query, a: seq<Activity>) {
    forall x :: x in a ==> Wanted(s, q, x)
  }

  ghost predicate HoldsAll(s: Store, q: Query, a: seq<Activity>) {
    forall x :: Wanted(s, q, x) ==> x in a
  }

  lemma ListingParts(s: Store, q: Query, a: seq<Activity>)
    requires q.direction == Asc && forall id :: id in s ==> s[id].activity.Id() == id
    ensures FullListing(s, q, a) <==> AllWanted(s, q, a) && OneOfEach(a) && HoldsAll(s, q, a) && InTime(a)
  {
    hide Matches;
    if FullListing(s, q, a) {
      forall x | Wanted(s, q, x)
        ensures x in a
      {
        assert s[x.Id()].activity in a;
      }
    }
    if AllWanted(s, q, a) && OneOfEach(a) && HoldsAll(s, q, a) && InTime(a) {
      forall id | id in s && Matches(s[id], q)
        ensures s[id].activity in a
      {
        assert Wanted(s, q, s[id].activity);
      }
      forall i | 0 <= i < |a|
        ensures Wanted(s, q, a[i])
      {
        assert a[i] in a;
      }
    }
  }

  /** What the next page's request wants is what this one wants and is later than the last activity. */
  lemma WantedAfter(s: Store, q: Query, last: Activity, x: Activity)
    requires Wanted(s, q, last) && last.Timestamp() < MAX_U64
    ensures Wanted(s, After(q, last), x) <==> Wanted(s, q, x) && last.Timestamp() < x.Timestamp()
  {
    hide Matches;
    MatchIsNotEarlier(s[last.Id()], q);
    if x.Id() in s {
      AfterMatches(s[x.Id()], q, last);
    }
  }

  /** A page that came back full is the start of some listing. */
  lemma PageStarts(s: Store, q: Query, n: u32, page: seq<Activity>) returns (full: seq<Activity>)
    requires Answer(s, q.(limit := Some(n)), page)
    ensures FullListing(s, q, full) && page == Limit(full, Some(n))
  {
    var q' := q.(limit := Some(n));
    full :| FullListing(s, q', full) && page == Limit(full, q'.limit);
    assert forall id :: id in s ==> (Matches(s[id], q) <==> Matches(s[id], q'));
  }

  // ----- one page and what follows it -----

  /** No activity that was asked for and did not fit on the page has the time of its last one. */
  ghost predicate CutsNoTie(s: Store, q: Query, page: seq<Activity>)
    requires page != []
  {
    forall x :: Wanted(s, q, x) && x.Timestamp() == page[|page| - 1].Timestamp() ==> x in page
  }

  ghost predicate StartsListing(s: Store, q: Query, page: seq<Activity>, rest: seq<Activity>) {
    && page != []
    && AllWanted(s, q, page + rest) && OneOfEach(page + rest) && HoldsAll(s, q, page + rest) && InTime(page + rest)
  }

  lemma SplitListing(s: Store, q: Query, full: seq<Activity>, n: nat)
    requires q.direction == Asc && FullListing(s, q, full) && 0 < n <= |full|
    requires forall id :: id in s ==> s[id].activity.Id() == id
    ensures StartsListing(s, q, full[..n], full[n..])
  {
    ListingParts(s, q, full);
    assert full == full[..n] + full[n..];
  }

  lemma InBoth(x: Activity, a: seq<Activity>, b: seq<Activity>)
    ensures x in a + b <==> x in a || x in b
  {
  }

  lemma PagePart(s: Store, q: Query, page: seq<Activity>, rest: seq<Activity>)
    requires StartsListing(s, q, page, rest)
    ensures AllWanted(s, q, page) && OneOfEach(page) && InTime(page)
    ensures forall x :: x in page ==> x.Timestamp() <= page[|page| - 1].Timestamp()
    ensures forall x :: x in rest ==> page[|page| - 1].Timestamp() <= x.Timestamp()
  {
    hide Wanted, Activity.Id;
    var all := page + rest;
    assert forall i :: 0 <= i < |page| ==> all[i] == page[i];
    assert forall i :: 0 <= i < |rest| ==> all[|page| + i] == rest[i];
    forall x | x in page
      ensures Wanted(s, q, x) && x.Timestamp() <= page[|page| - 1].Timestamp()
    {
      InBoth(x, page, rest);
      var i :| 0 <= i < |page| && page[i] == x;
      assert all[i] == x && all[|page| - 1] == page[|page| - 1];
    }
    forall x | x in rest
      ensures page[|page| - 1].Timestamp() <= x.Timestamp()
    {
      var i :| 0 <= i < |rest| && rest[i] == x;
      assert all[|page| + i] == x && all[|page| - 1] == page[|page| - 1];
    }
  }

  /** What is wanted and later, put behind a page. */
  lemma PutBehind(s: Store, q: Query, page: seq<Activity>, rest: seq<Activity>, next: seq<Activity>)
    requires StartsListing(s, q, page, rest) && OneOfEach(next) && InTime(next)
    requires forall x :: x in next ==> Wanted(s, q, x) && page[|page| - 1].Timestamp() < x.Timestamp()
    ensures AllWanted(s, q, page + next) && OneOfEach(page + next) && InTime(page + next)
  {
    hide Wanted, Activity.Timestamp, Activity.Id;
    PagePart(s, q, page, rest);
    var last := page[|page| - 1];
    forall x | x in page + next
      ensures Wanted(s, q, x)
    {
      InBoth(x, page, next);
    }
    forall i, j | 0 <= i < j < |page + next|
      ensures (page + next)[i].Timestamp() <= (page + next)[j].Timestamp()
    {
      InOrderAcross(page, next, last, i, j);
    }
    forall i, j | 0 <= i < j < |page + next|
      ensures (page + next)[i].Id() != (page + next)[j].Id()
    {
      if i < |page| <= j {
        assert page[i] in page && next[j - |page|] in next;
        SameIdSame(s, q, page[i], next[j - |page|]);
      }
    }
  }

  lemma SameIdSame(s: Store, q: Query, x: Activity, y: Activity)
    requires Wanted(s, q, x) && Wanted(s, q, y)
    ensures x.Id() == y.Id() ==> x == y
  {
  }

  /** A page and what is put behind it hold everything exactly when the page cuts no tie and all
      that is later is behind it. */
  lemma HoldsAllAcross(s: Store, q: Query, page: seq<Activity>, rest: seq<Activity>, next: seq<Activity>)
    requires StartsListing(s, q, page, rest) && page[|page| - 1].Timestamp() < MAX_U64
    requires AllWanted(s, After(q, page[|page| - 1]), next)
    ensures HoldsAll(s, q, page + next) <==> CutsNoTie(s, q, page) && HoldsAll(s, After(q, page[|page| - 1]), next)
  {
    hide Wanted, Activity.Timestamp, Activity.Id, OneOfEach, InTime;
    PagePart(s, q, page, rest);
    var last := page[|page| - 1];
    assert last in page;
    forall x
      ensures x in page + next <==> x in page || x in next
      ensures x in page + rest <==> x in page || x in rest
      ensures Wanted(s, After(q, last), x) <==> Wanted(s, q, x) && last.Timestamp() < x.Timestamp()
    {
      InBoth(x, page, next);
      InBoth(x, page, rest);
      WantedAfter(s, q, last, x);
    }
  }

  lemma InOrderAcross(page: seq<Activity>, next: seq<Activity>, last: Activity, i: int, j: int)
    requires InTime(page) && InTime(next) && 0 <= i < j < |page + next|
    requires forall x :: x in page ==> x.Timestamp() <= last.Timestamp()
    requires forall x :: x in next ==> last.Timestamp() < x.Timestamp()
    ensures (page + next)[i].Timestamp() <= (page + next)[j].Timestamp()
  {
    if i < |page| <= j {
      assert page[i] in page && next[j - |page|] in next;
    }
  }

  // ----- all pages -----

  /** No page but the last cuts a tie. */
  ghost predicate NoTieIsCut(s: Store, q: Query, n: u32, pages: seq<seq<Activity>>)
    requires n > 0 && Paged(s, q, n, pages)
    decreases |pages|
  {
    |pages[0]| < n
    || (CutsNoTie(s, q, pages[0]) && NoTieIsCut(s, After(q, pages[0][|pages[0]| - 1]), n, pages[1..]))
  }

  ghost predicate Keyed(s: Store) { forall id :: id in s ==> s[id].activity.Id() == id }

  /** The first page, and the listing it starts. */
  lemma FirstPage(s: Store, q: Query, n: u32, pages: seq<seq<Activity>>) returns (rest: seq<Activity>)
    requires q.direction == Asc && n > 0 && Keyed(s) && Paged(s, q, n, pages)
    ensures |pages[0]| < n ==> FullListing(s, q, pages[0]) && Concat(pages) == pages[0]
    ensures |pages[0]| >= n ==> StartsListing(s, q, pages[0], rest)
  {
    var full := PageStarts(s, q, n, pages[0]);
    rest := [];
    if |pages[0]| < n {
      assert pages[1..] == [] && Concat(pages[1..]) == [];
    } else {
      rest := full[|pages[0]|..];
      assert pages[0] == full[..|pages[0]|];
      SplitListing(s, q, full, |pages[0]|);
    }
  }

  lemma LaterPagesAreLater(s: Store, q: Query, last: Activity, next: seq<Activity>)
    requires Wanted(s, q, last) && last.Timestamp() < MAX_U64 && AllWanted(s, After(q, last), next)
    ensures forall x :: x in next ==> Wanted(s, q, x) && last.Timestamp() < x.Timestamp()
  {
    hide Wanted, Activity.Timestamp;
    forall x | x in next
      ensures Wanted(s, q, x) && last.Timestamp() < x.Timestamp()
    {
      WantedAfter(s, q, last, x);
    }
  }

  /** Whatever the ties, the pages hold nothing that was not asked for, each activity once, in the
      order of time. */
  lemma {:induction false} PagesAreWanted(s: Store, q: Query, n: u32, pages: seq<seq<Activity>>)
    requires q.direction == Asc && n > 0 && Keyed(s) && Paged(s, q, n, pages)
    ensures AllWanted(s, q, Concat(pages)) && OneOfEach(Concat(pages)) && InTime(Concat(pages))
    decreases |pages|
  {
    hide Answer, FullListing, AllWanted, OneOfEach, InTime, HoldsAll, Wanted, Concat, StartsListing, Activity.Timestamp;
    var rest := FirstPage(s, q, n, pages);
    if |pages[0]| < n {
      ListingParts(s, q, pages[0]);
    } else {
      var page, last, next := pages[0], pages[0][|pages[0]| - 1], Concat(pages[1..]);
      PagesAreWanted(s, After(q, last), n, pages[1..]);
      LastWanted(s, q, page, rest);
      LaterPagesAreLater(s, q, last, next);
      PutBehind(s, q, page, rest, next);
      ConcatStep(pages);
    }
  }

  lemma LastWanted(s: Store, q: Query, page: seq<Activity>, rest: seq<Activity>)
    requires StartsListing(s, q, page, rest)
    ensures page != [] && Wanted(s, q, page[|page| - 1])
  {
    PagePart(s, q, page, rest);
  }

  lemma ConcatStep(pages: seq<seq<Activity>>)
    requires pages != []
    ensures Concat(pages) == pages[0] + Concat(pages[1..])
  {
  }

  /** The pages together are a listing of everything that was asked for exactly when no page but
      the last cuts a tie: activities of equal time fit on the page or none is left for the next. */
  lemma {:induction false} PagesListUnlessTieIsCut(s: Store, q: Query, n: u32, pages: seq<seq<Activity>>)
    requires q.direction == Asc && n > 0 && Keyed(s) && Paged(s, q, n, pages)
    ensures FullListing(s, q, Concat(pages)) <==> NoTieIsCut(s, q, n, pages)
    decreases |pages|
  {
    hide Answer, FullListing, AllWanted, OneOfEach, InTime, HoldsAll, Wanted, Concat, StartsListing, CutsNoTie,
      Activity.Timestamp;
    PagesAreWanted(s, q, n, pages);
    ListingParts(s, q, Concat(pages));
    var rest := FirstPage(s, q, n, pages);
    if |pages[0]| < n {
    } else {
      var page, last, next := pages[0], pages[0][|pages[0]| - 1], Concat(pages[1..]);
      PagesListUnlessTieIsCut(s, After(q, last), n, pages[1..]);
      PagesAreWanted(s, After(q, last), n, pages[1..]);
      ListingParts(s, After(q, last), next);
      HoldsAllAcross(s, q, page, rest, next);
      ConcatStep(pages);
    }
  }

  // ----- the same condition before any page is asked for -----

  function Times(a: seq<Activity>): (times: seq<nat>)
    ensures |times| == |a|
    ensures forall i :: 0 <= i < |a| ==> times[i] == a[i].Timestamp()
  {
    seq(|a|, i requires 0 <= i < |a| => a[i].Timestamp())
  }

  /** No n-th time is the time that follows it. */
  predicate NoTie(times: seq<nat>, n: nat)
    requires n > 0
    decreases |times|
  {
    |times| <= n || (times[n - 1] < times[n] && NoTie(times[n..], n))
  }

  ghost function Held(a: seq<Activity>): (held: set<Activity>)
    ensures forall x :: x in held <==> x in a
  {
    set x | x in a
  }

  lemma {:induction false} HeldCount(a: seq<Activity>)
    requires OneOfEach(a)
    ensures |Held(a)| == |a|
  {
    if a == [] {
      assert Held(a) == {};
    } else {
      var init, last := a[..|a| - 1], a[|a| - 1];
      assert a == init + [last];
      HeldCount(init);
      forall x | x in init
        ensures x != last
      {
        var i :| 0 <= i < |init| && init[i] == x;
        assert a[i].Id() != a[|a| - 1].Id();
      }
      assert Held(a) == Held(init) + {last};
    }
  }

  /** Were the i-th time of one listing earlier than that of another, its first i + 1 activities
      would all be among the first i of the other. */
  lemma NotEarlier(a: seq<Activity>, b: seq<Activity>, i: nat)
    requires OneOfEach(a) && OneOfEach(b) && InTime(a) && InTime(b) && i < |a| && i < |b|
    requires forall x :: x in a ==> x in b
    ensures b[i].Timestamp() <= a[i].Timestamp()
  {
    hide Activity.Timestamp, Activity.Id;
    if a[i].Timestamp() < b[i].Timestamp() {
      var early, few := a[..i + 1], b[..i];
      PrefixOnce(a, i + 1);
      PrefixOnce(b, i);
      HeldCount(early);
      HeldCount(few);
      forall x | x in Held(early)
        ensures x in Held(few)
      {
        var k :| 0 <= k <= i && a[k] == x;
        assert x in a;
        var j :| 0 <= j < |b| && b[j] == x;
        assert j < i ==> few[j] == x;
      }
      MoreOrEqual(Held(early), Held(few));
    }
  }

  lemma PrefixOnce(a: seq<Activity>, n: nat)
    requires OneOfEach(a) && n <= |a|
    ensures OneOfEach(a[..n])
  {
  }

  lemma MoreOrEqual<T>(a: set<T>, b: set<T>)
    requires a <= b
    ensures |a| <= |b|
  {
    assert b == a + (b - a);
  }

  /** All listings of one request have the same times in the same places. */
  lemma SameTimes(s: Store, q: Query, a: seq<Activity>, b: seq<Activity>)
    requires q.direction == Asc && Keyed(s) && FullListing(s, q, a) && FullListing(s, q, b)
    ensures Times(a) == Times(b)
  {
    hide FullListing, Wanted;
    ListingParts(s, q, a);
    ListingParts(s, q, b);
    HeldCount(a);
    HeldCount(b);
    assert Held(a) == Held(b);
    forall i | 0 <= i < |a|
      ensures Times(a)[i] == Times(b)[i]
    {
      NotEarlier(a, b, i);
      NotEarlier(b, a, i);
    }
  }

  /** A full page cuts a tie exactly when the next time of its listing is its last. */
  lemma TieIsNextTime(s: Store, q: Query, page: seq<Activity>, rest: seq<Activity>)
    requires StartsListing(s, q, page, rest)
    ensures CutsNoTie(s, q, page) <==> rest == [] || page[|page| - 1].Timestamp() < rest[0].Timestamp()
  {
    hide Wanted, Activity.Timestamp, Activity.Id;
    PagePart(s, q, page, rest);
    RestInTime(page, rest);
    var last := page[|page| - 1];
    forall x
      ensures x in page + rest <==> x in page || x in rest
    {
      InBoth(x, page, rest);
    }
    if rest != [] {
      assert rest[0] in rest && (page + rest)[|page|] == rest[0];
      NotOnPage(page, rest);
    }
    if rest == [] || last.Timestamp() < rest[0].Timestamp() {
      forall x | Wanted(s, q, x) && x.Timestamp() == last.Timestamp()
        ensures x in page
      {
        if rest != [] {
          FirstIsEarliest(rest);
        }
      }
    }
  }

  lemma FirstIsEarliest(a: seq<Activity>)
    requires InTime(a) && a != []
    ensures forall x :: x in a ==> a[0].Timestamp() <= x.Timestamp()
  {
    hide Activity.Timestamp;
    forall x | x in a
      ensures a[0].Timestamp() <= x.Timestamp()
    {
      var k :| 0 <= k < |a| && a[k] == x;
      assert k == 0 || a[0].Timestamp() <= a[k].Timestamp();
    }
  }

  lemma RestInTime(page: seq<Activity>, rest: seq<Activity>)
    requires InTime(page + rest) && OneOfEach(page + rest)
    ensures InTime(rest) && OneOfEach(rest)
  {
    assert forall i :: 0 <= i < |rest| ==> (page + rest)[|page| + i] == rest[i];
  }

  lemma NotOnPage(page: seq<Activity>, rest: seq<Activity>)
    requires OneOfEach(page + rest) && rest != []
    ensures rest[0] !in page
  {
    forall i | 0 <= i < |page|
      ensures page[i] != rest[0]
    {
      assert (page + rest)[i].Id() != (page + rest)[|page|].Id();
    }
  }

  /** Behind a page that cuts no tie the rest of its listing is the listing of the next request. */
  lemma RestIsNextListing(s: Store, q: Query, page: seq<Activity>, rest: seq<Activity>)
    requires q.direction == Asc && Keyed(s) && StartsListing(s, q, page, rest)
    requires page[|page| - 1].Timestamp() < MAX_U64 && CutsNoTie(s, q, page)
    ensures FullListing(s, After(q, page[|page| - 1]), rest)
  {
    hide FullListing, Wanted, Activity.Timestamp, Activity.Id;
    var last := page[|page| - 1];
    LastWanted(s, q, page, rest);
    PagePart(s, q, page, rest);
    RestInTime(page, rest);
    forall x
      ensures Wanted(s, After(q, last), x) <==> x in rest
    {
      InBoth(x, page, rest);
      WantedAfter(s, q, last, x);
      OnlyOnce(page, rest, x);
    }
    ListingParts(s, After(q, last), rest);
  }

  lemma OnlyOnce(page: seq<Activity>, rest: seq<Activity>, x: Activity)
    requires OneOfEach(page + rest)
    ensures !(x in page && x in rest)
  {
    hide Activity.Id;
    forall i, j | 0 <= i < |page| && 0 <= j < |rest|
      ensures page[i] != rest[j]
    {
      assert (page + rest)[i].Id() != (page + rest)[|page| + j].Id();
    }
  }

  lemma TimesSplit(page: seq<Activity>, rest: seq<Activity>)
    requires page != []
    ensures |Times(page + rest)| == |page| + |rest| && Times(page + rest)[|page|..] == Times(rest)
    ensures Times(page + rest)[|page| - 1] == page[|page| - 1].Timestamp()
    ensures rest != [] ==> Times(page + rest)[|page|] == rest[0].Timestamp()
  {
  }

  lemma {:induction false} TiesAreCut(s: Store, q: Query, n: u32, full: seq<Activity>, pages: seq<seq<Activity>>)
    requires q.direction == Asc && n > 0 && Keyed(s) && FullListing(s, q, full) && Paged(s, q, n, pages)
    ensures NoTieIsCut(s, q, n, pages) <==> NoTie(Times(full), n)
    decreases |pages|
  {
    hide Answer, FullListing, AllWanted, OneOfEach, InTime, HoldsAll, Wanted, StartsListing, CutsNoTie, Concat, Times,
      Activity.Timestamp;
    var rest := FirstPage(s, q, n, pages);
    if |pages[0]| < n {
      SameTimes(s, q, full, pages[0]);
    } else {
      var page, last := pages[0], pages[0][|pages[0]| - 1];
      PageIsFull(s, q, n, pages);
      WholeListing(s, q, page, rest);
      SameTimes(s, q, full, page + rest);
      TimesSplit(page, rest);
      TieIsNextTime(s, q, page, rest);
      if CutsNoTie(s, q, page) {
        RestIsNextListing(s, q, page, rest);
        TiesAreCut(s, After(q, last), n, rest, pages[1..]);
      }
    }
  }

  lemma PageIsFull(s: Store, q: Query, n: u32, pages: seq<seq<Activity>>)
    requires n > 0 && Paged(s, q, n, pages)
    ensures |pages[0]| <= n
  {
    var full := PageStarts(s, q, n, pages[0]);
  }

  lemma WholeListing(s: Store, q: Query, page: seq<Activity>, rest: seq<Activity>)
    requires q.direction == Asc && Keyed(s) && StartsListing(s, q, page, rest)
    ensures page != [] && FullListing(s, q, page + rest)
  {
    hide FullListing, Wanted;
    ListingParts(s, q, page + rest);
  }

  /** Pages of n hold everything asked for exactly when the time of no n-th activity of the whole
      listing, counted from the start and again behind each page, is also the time of the next. */
  lemma PagesListUnlessTied(s: Store, q: Query, n: u32, full: seq<Activity>, pages: seq<seq<Activity>>)
    requires q.direction == Asc && n > 0 && Keyed(s) && FullListing(s, q, full) && Paged(s, q, n, pages)
    ensures FullListing(s, q, Concat(pages)) <==> NoTie(Times(full), n)
  {
    hide FullListing, Times, NoTie, Concat, NoTieIsCut;
    PagesListUnlessTieIsCut(s, q, n, pages);
    TiesAreCut(s, q, n, full, pages);
  }

  // ----- two activities of one time, a page at a time -----

  function TiedActivity(id: string): Activity {
    Lightning(LightningActivity(id, Received, Succeeded, 1, None, "a", "", 1, None, Some(1), Some(1)))
  }

  function TiedStore(): Store {
    map["x" := Entry(TiedActivity("x"), {}), "y" := Entry(TiedActivity("y"), {})]
  }

  function Everything(minDate: Option<u64>, limit: Option<u32>): Query {
    Query(AllActivities, None, None, None, minDate, None, limit, Asc)
  }

  lemma TiedHeld(id: string)
    requires id in TiedStore()
    ensures TiedStore()[id].activity == TiedActivity(id) && (id == "x" || id == "y")
  {
  }

  lemma TiedMatches(id: string, limit: Option<u32>)
    ensures Matches(Entry(TiedActivity(id), {}), Everything(None, limit))
    ensures !Matches(Entry(TiedActivity(id), {}), Everything(Some(2), limit))
  {
  }

  lemma TiedWanted(a: Activity, limit: Option<u32>)
    ensures Wanted(TiedStore(), Everything(None, limit), a) <==> a == TiedActivity("x") || a == TiedActivity("y")
    ensures !Wanted(TiedStore(), Everything(Some(2), limit), a)
  {
    hide Matches;
    TiedMatches("x", limit);
    TiedMatches("y", limit);
    if a.Id() in TiedStore() {
      TiedHeld(a.Id());
    }
  }

  lemma TiedListing(limit: Option<u32>)
    ensures FullListing(TiedStore(), Everything(None, limit), [TiedActivity("x"), TiedActivity("y")])
    ensures FullListing(TiedStore(), Everything(Some(2), limit), [])
  {
    hide FullListing, Wanted, TiedStore;
    var full := [TiedActivity("x"), TiedActivity("y")];
    forall a
      ensures Wanted(TiedStore(), Everything(None, limit), a) <==> a in full
      ensures !Wanted(TiedStore(), Everything(Some(2), limit), a)
    {
      TiedWanted(a, limit);
    }
    TiedStoreHolds();
    assert "x"[0] != "y"[0];
    ListingParts(TiedStore(), Everything(None, limit), full);
    ListingParts(TiedStore(), Everything(Some(2), limit), []);
  }

  lemma TiedStoreHolds()
    ensures StoreInvariant(TiedStore()) && Keyed(TiedStore())
  {
  }

  /** One activity fits on the first page, and none is later than it. */
  lemma TiedAnswers()
    ensures Answer(TiedStore(), Everything(None, Some(1)), [TiedActivity("x")])
    ensures Answer(TiedStore(), Everything(Some(2), Some(1)), [])
  {
    hide FullListing, TiedStore, TiedActivity;
    TiedListing(Some(1));
    assert Limit([TiedActivity("x"), TiedActivity("y")], Some(1)) == [TiedActivity("x")];
    assert Limit<Activity>([], Some(1)) == [];
  }

  lemma TiedPages()
    ensures Paged(TiedStore(), Everything(None, None), 1, [[TiedActivity("x")], []])
  {
    hide Answer, TiedStore;
    TiedAnswers();
    var q, x := Everything(None, None), TiedActivity("x");
    var pages := [[x], []];
    assert After(q, x) == Everything(Some(2), None);
    assert pages[1..] == [[]];
    assert Paged(TiedStore(), After(q, x), 1, pages[1..]);
  }

  /** The second of two activities of one time is on no page. */
  lemma TiedActivityIsLost()
    ensures StoreInvariant(TiedStore())
    ensures var pages := [[TiedActivity("x")], []];
      && Paged(TiedStore(), Everything(None, None), 1, pages)
      && TiedActivity("y") !in Concat(pages)
      && !FullListing(TiedStore(), Everything(None, None), Concat(pages))
  {
    hide Paged, FullListing, TiedStore, StoreInvariant;
    var full := [TiedActivity("x"), TiedActivity("y")];
    TiedStoreHolds();
    TiedListing(None);
    TiedPages();
    PagesListUnlessTied(TiedStore(), Everything(None, None), 1, full, [[full[0]], []]);
    var pages := [[full[0]], []];
    assert pages[1..] == [[]] && pages[1..][1..] == [];
    assert Concat(pages) == [full[0]];
    assert "x"[0] != "y"[0];
  }
}
