/** The plan of get_activities means its filter. */
module ActivityQueryProofs {
  import opened Common
  import opened ActivityTypes
  import opened ActivityTables
  import opened ActivityStore
  import opened SqlLike
  import opened ActivityQueryText
  import opened ActivityQueryReading
  import opened RelationalAlgebra
  import opened ActivityQueryPlan

  // ----- the WHERE clause under three-valued logic -----

  lemma {:induction false} InValuesTrue(v: Value, texts: seq<string>)
    ensures InValues(v, texts) == True <==> v.Text? && v.text in texts
  {
    if texts == [] {
    } else {
      InValuesTrue(v, texts[1..]);
      assert texts == [texts[0]] + texts[1..];
    }
  }

  lemma {:induction false} HoldAllConcat(r: Row3, a: seq<Condition>, b: seq<Condition>)
    ensures HoldAll(r, a + b) == True <==> HoldAll(r, a) == True && HoldAll(r, b) == True
    decreases |a|
  {
    if a == [] {
      assert a + b == b;
    } else {
      assert (a + b)[1..] == a[1..] + b;
      HoldAllConcat(r, a[1..], b);
    }
  }

  lemma HoldOne(r: Row3, c: Condition)
    ensures HoldAll(r, [c]) == True <==> Holds(r, c) == True
  {
  }

  predicate RowTextFound(r: Row3, text: string) {
    var o, l := OnchainPart(r), LightningPart(r);
    || (o.Some? && Like(SearchPattern(text), UpToNul(o.value.1.address)))
    || (l.Some? && (Like(SearchPattern(text), UpToNul(l.value.1.invoice))
                    || Like(SearchPattern(text), UpToNul(l.value.1.message))))
  }

  predicate RowMatches(r: Row3, q: Query) {
    var a, t := ParentOf(r), TagOf(r);
    && TypeWanted(q.filter, a.1.kind)
    && (q.txType.Some? ==> a.1.txType == q.txType.value)
    && (q.tags.Some? && q.tags.value != [] ==> t.Some? && t.value.1 in q.tags.value)
    && (q.minDate.Some? ==> q.minDate.value <= a.1.timestamp)
    && (q.maxDate.Some? ==> a.1.timestamp <= q.maxDate.value)
    && (q.search.Some? && q.search.value != "" ==> RowTextFound(r, q.search.value))
  }

  lemma TypeHolds(r: Row3, f: ActivityFilter)
    ensures HoldAll(r, TypeConditions(f)) == True <==> TypeWanted(f, ParentOf(r).1.kind)
  {
  }

  lemma TxTypeHolds(r: Row3, t: Option<PaymentType>)
    ensures HoldAll(r, TxTypeConditions(t)) == True <==> (t.Some? ==> ParentOf(r).1.txType == t.value)
  {
  }

  lemma TagsHold(r: Row3, tags: Option<seq<string>>)
    ensures HoldAll(r, TagsConditions(tags)) == True
      <==> (tags.Some? && tags.value != [] ==> TagOf(r).Some? && TagOf(r).value.1 in tags.value)
  {
    if tags.Some? && tags.value != [] {
      HoldOne(r, TagsConditions(tags)[0]);
      InValuesTrue(ColumnOf(r, TagColumn), tags.value);
    }
  }

  lemma DatesHold(r: Row3, min: Option<u64>, max: Option<u64>)
    ensures HoldAll(r, MinDateConditions(min)) == True <==> (min.Some? ==> min.value <= ParentOf(r).1.timestamp)
    ensures HoldAll(r, MaxDateConditions(max)) == True <==> (max.Some? ==> ParentOf(r).1.timestamp <= max.value)
  {
  }

  /** NULL columns make an alternative unknown, never true. */
  lemma SearchHolds(r: Row3, search: Option<string>)
    ensures HoldAll(r, SearchConditions(search)) == True
      <==> (search.Some? && search.value != "" ==> RowTextFound(r, search.value))
  {
    if search.Some? && search.value != "" {
      var p := SearchPattern(search.value);
      var likes := [(AddressColumn, p), (InvoiceColumn, p), (MessageColumn, p)];
      HoldOne(r, SearchConditions(search)[0]);
      var address, invoice := LikeValue(ColumnOf(r, AddressColumn), p), LikeValue(ColumnOf(r, InvoiceColumn), p);
      var message := LikeValue(ColumnOf(r, MessageColumn), p);
      assert LikeAny(r, likes[1..][1..][1..]) == False;
      assert LikeAny(r, likes[1..][1..]) == Or(message, False);
      assert LikeAny(r, likes[1..]) == Or(invoice, Or(message, False));
      assert LikeAny(r, likes) == Or(address, Or(invoice, Or(message, False)));
    }
  }

  /** The conjunction of the conditions is true exactly of the rows the arguments describe. */
  lemma ConditionsMean(r: Row3, q: Query)
    ensures HoldAll(r, Conditions(q)) == True <==> RowMatches(r, q)
  {
    var a, b, c := TypeConditions(q.filter), TxTypeConditions(q.txType), TagsConditions(q.tags);
    var d, e, f := MinDateConditions(q.minDate), MaxDateConditions(q.maxDate), SearchConditions(q.search);
    HoldAllConcat(r, a, b);
    HoldAllConcat(r, a + b, c);
    HoldAllConcat(r, a + b + c, d);
    HoldAllConcat(r, a + b + c + d, e);
    HoldAllConcat(r, a + b + c + d + e, f);
    TypeHolds(r, q.filter);
    TxTypeHolds(r, q.txType);
    TagsHold(r, q.tags);
    DatesHold(r, q.minDate, q.maxDate);
    SearchHolds(r, q.search);
  }

  // ----- what a search finds -----

  /** The text occurs, up to ASCII case, in a searched field the activity itself has. */
  ghost predicate OwnTextContains(a: Activity, text: string) {
    match a
    case Onchain(o) => ContainsFolded(o.address, text)
    case Lightning(l) => ContainsFolded(l.invoice, text) || ContainsFolded(l.message, text)
  }

  /** The same of what stands before the first NUL of each field, which is all that LIKE reads. */
  ghost predicate TextBeforeNulContains(a: Activity, text: string) {
    match a
    case Onchain(o) => ContainsFolded(UpToNul(o.address), text)
    case Lightning(l) => ContainsFolded(UpToNul(l.invoice), text) || ContainsFolded(UpToNul(l.message), text)
  }

  predicate FieldsNulFree(a: Activity) {
    match a
    case Onchain(o) => '\0' !in o.address
    case Lightning(l) => '\0' !in l.invoice && '\0' !in l.message
  }

  lemma SearchReadsUpToNul(a: Activity, text: string)
    requires !HasWildcard(text)
    ensures TextFound(a, text) <==> TextBeforeNulContains(a, text)
  {
    hide Like, ContainsFolded, UpToNul, HasWildcard;
    match a
    case Onchain(o) => SearchOfLiteral(text, UpToNul(o.address));
    case Lightning(l) =>
      SearchOfLiteral(text, UpToNul(l.invoice));
      SearchOfLiteral(text, UpToNul(l.message));
  }

  lemma {:induction false} NulFreeIsWhole(s: string)
    requires '\0' !in s
    ensures UpToNul(s) == s
  {
    if s == "" {
    } else {
      NulFreeIsWhole(s[1..]);
      assert s == [s[0]] + s[1..];
    }
  }

  lemma {:induction false} InstanceIsNulFree(text: string)
    requires '\0' !in text
    ensures '\0' !in Instance(text)
  {
    if text == "" {
    } else {
      InstanceIsNulFree(text[1..]);
    }
  }

  /** A lightning activity the database accepts, with this message. */
  function Messaged(message: string): Activity {
    Lightning(LightningActivity("id", Received, Succeeded, 1, None, "a", message, 1, None, None, None))
  }

  /** No text with a wildcard is in "a". */
  lemma WildcardNotInLetter(text: string)
    requires HasWildcard(text)
    ensures !ContainsFolded("a", text)
  {
    forall i | 0 <= i <= 1
      ensures !StartsWithFolded("a"[i..], text)
    {
      assert i == 1 ==> "a"[i..] == "";
      var k :| 0 <= k < |text| && (text[k] == '%' || text[k] == '_');
      assert k == 0 && i == 0 ==> Fold("a"[i..][0]) != Fold(text[0]);
    }
  }

  lemma WildcardMessage(text: string)
    requires '\0' !in text && HasWildcard(text)
    ensures Storable(Messaged(Instance(text))) && FieldsNulFree(Messaged(Instance(text)))
    ensures TextFound(Messaged(Instance(text)), text) && !OwnTextContains(Messaged(Instance(text)), text)
  {
    hide Like, ContainsFolded, Instance, HasWildcard;
    InstanceIsNulFree(text);
    NulFreeIsWhole(Instance(text));
    NulFreeIsWhole("a");
    WildcardFindsMore(text);
    WildcardNotInLetter(text);
  }

  /** Among the activities the database can hold whose searched fields are free of NULs, a search
      selects exactly those whose own fields contain the text, if and only if the text is free of
      `%` and `_`. */
  lemma SearchFindsOwnText(text: string)
    requires '\0' !in text
    ensures (forall a | Storable(a) && FieldsNulFree(a) :: TextFound(a, text) <==> OwnTextContains(a, text))
      <==> !HasWildcard(text)
  {
    hide Like, ContainsFolded, UpToNul, Instance, Storable, HasWildcard;
    if HasWildcard(text) {
      WildcardMessage(text);
    } else {
      forall a: Activity | Storable(a) && FieldsNulFree(a)
        ensures TextFound(a, text) <==> OwnTextContains(a, text)
      {
        SearchReadsUpToNul(a, text);
        match a
        case Onchain(o) => NulFreeIsWhole(o.address);
        case Lightning(l) =>
          NulFreeIsWhole(l.invoice);
          NulFreeIsWhole(l.message);
      }
    }
  }

  lemma ContainsItself(s: string)
    ensures ContainsFolded("\0" + s, s)
  {
    assert ("\0" + s)[1..] == s;
    assert StartsWithFolded(("\0" + s)[1..], s);
  }

  /** A message is stored whole, but what stands behind a NUL in it is not found. */
  lemma TextBehindNulIsMissed(text: string)
    requires text != "" && '\0' !in text && !HasWildcard(text) && !ContainsFolded("a", text)
    ensures Storable(Messaged("\0" + text)) && OwnTextContains(Messaged("\0" + text), text)
    ensures !TextFound(Messaged("\0" + text), text)
  {
    ContainsItself(text);
    SearchReadsUpToNul(Messaged("\0" + text), text);
    NulFreeIsWhole("a");
    assert UpToNul("\0" + text) == "";
    assert !ContainsFolded("", text);
  }

  /** No search without a wildcard finds an activity that does not contain the text. */
  lemma FoundIsContained(a: Activity, text: string)
    requires !HasWildcard(text) && TextFound(a, text)
    ensures OwnTextContains(a, text)
  {
    hide ContainsFolded, UpToNul, HasWildcard, Like;
    SearchReadsUpToNul(a, text);
    match a
    case Onchain(o) => ContainedInWhole(o.address, text);
    case Lightning(l) =>
      ContainedInWhole(l.invoice, text);
      ContainedInWhole(l.message, text);
  }

  /** LIKE reads a text as far as its first NUL. */
  lemma {:induction false} UpToNulIsPrefix(s: string)
    ensures UpToNul(s) <= s && '\0' !in UpToNul(s)
    ensures |UpToNul(s)| < |s| ==> s[|UpToNul(s)|] == '\0'
  {
    if s == "" {
    } else {
      UpToNulIsPrefix(s[1..]);
    }
  }

  lemma ContainedInWhole(s: string, text: string)
    ensures ContainsFolded(UpToNul(s), text) ==> ContainsFolded(s, text)
  {
    UpToNulIsPrefix(s);
    var before := UpToNul(s);
    if i :| 0 <= i <= |before| && StartsWithFolded(before[i..], text) {
      assert forall k :: 0 <= k < |before[i..]| ==> s[i..][k] == before[i..][k];
      assert StartsWithFolded(s[i..], text);
    }
  }

  // ----- the common table expression -----

  lemma {:induction false} SelectIdsMember(rows: seq<Row3>, cs: seq<Condition>, id: string)
    ensures id in SelectIds(rows, cs) <==> exists r :: r in rows && HoldAll(r, cs) == True && ParentOf(r).0 == id
  {
    if rows == [] {
    } else {
      SelectIdsMember(rows[1..], cs, id);
      assert rows == [rows[0]] + rows[1..];
      assert forall r :: r in rows <==> r == rows[0] || r in rows[1..];
    }
  }

  /** The onchain row an unguarded LEFT JOIN finds for an id. */
  ghost function OnchainOf(t: Tables, id: string): Option<OnchainRec> {
    if id in t.onchain then Some((id, t.onchain[id])) else None
  }

  ghost function LightningOf(t: Tables, id: string): Option<LightningRec> {
    if id in t.lightning then Some((id, t.lightning[id])) else None
  }

  ghost predicate TagChoice(t: Tables, id: string, tag: Option<TagRec>) {
    match tag
    case Some(p) => p in t.tags && p.0 == id
    case None => TagsAt(t, id) == {}
  }

  lemma CandidateMember(s: Scan, t: Tables, r: Row3)
    requires ScanOf(s, t)
    ensures r in CandidateRows(s)
      <==> var a := ParentOf(r);
           && a.0 in t.activities && t.activities[a.0] == a.1
           && TagChoice(t, a.0, TagOf(r)) && OnchainPart(r) == OnchainOf(t, a.0)
           && LightningPart(r) == LightningOf(t, a.0)
  {
    var a, tag, o, l := ParentOf(r), TagOf(r), OnchainPart(r), LightningPart(r);
    var rows1 := LeftJoin(s.activities, s.tags, OnTag);
    var rows2 := LeftJoin(rows1, s.onchain, OnOnchain);
    LeftJoinMember(rows2, s.lightning, OnLightning, r);
    LeftJoinMember(rows1, s.onchain, OnOnchain, r.0);
    LeftJoinMember(s.activities, s.tags, OnTag, r.0.0);
    TagPartner(s, t, a, tag);
    OnchainPartner(s, t, r.0.0, o);
    LightningPartner(s, t, r.0, l);
  }

  lemma TagPartner(s: Scan, t: Tables, a: ParentRec, tag: Option<TagRec>)
    requires ScanOf(s, t)
    ensures (match tag { case Some(p) => p in s.tags && OnTag(a, p)
                         case None => forall p :: p in s.tags ==> !OnTag(a, p) })
      <==> TagChoice(t, a.0, tag)
  {
  }

  lemma OnchainPartner(s: Scan, t: Tables, r: Row1, o: Option<OnchainRec>)
    requires ScanOf(s, t)
    ensures (match o { case Some(x) => x in s.onchain && OnOnchain(r, x)
                       case None => forall x :: x in s.onchain ==> !OnOnchain(r, x) })
      <==> o == OnchainOf(t, r.0.0)
  {
  }

  lemma LightningPartner(s: Scan, t: Tables, r: Row2, l: Option<LightningRec>)
    requires ScanOf(s, t)
    ensures (match l { case Some(x) => x in s.lightning && OnLightning(r, x)
                       case None => forall x :: x in s.lightning ==> !OnLightning(r, x) })
      <==> l == LightningOf(t, r.0.0.0)
  {
  }

  ghost function CandidateAt(t: Tables, id: string, tag: Option<TagRec>): Row3
    requires id in t.activities
  {
    ((((id, t.activities[id]), tag), OnchainOf(t, id)), LightningOf(t, id))
  }

  /** Of the joined rows of one id, some row matches exactly when its entry does: the relational
      invariant is what makes the type-blind joins see the activity's own fields and no others. */
  lemma EntryMatchesWhenARowDoes(t: Tables, q: Query, id: string)
    requires Fits(t, id) && id in t.activities
    ensures Matches(EntryAt(t, id), q)
      <==> exists tag :: TagChoice(t, id, tag) && RowMatches(CandidateAt(t, id, tag), q)
  {
    var e := EntryAt(t, id);
    if Matches(e, q) {
      var tag: Option<TagRec>;
      if q.tags.Some? && q.tags.value != [] {
        var x :| x in q.tags.value && x in e.tags;
        tag := Some((id, x));
      } else if e.tags != {} {
        var x :| x in e.tags;
        tag := Some((id, x));
      } else {
        tag := None;
      }
      assert TagChoice(t, id, tag) && RowMatches(CandidateAt(t, id, tag), q);
    }
    if tag :| TagChoice(t, id, tag) && RowMatches(CandidateAt(t, id, tag), q) {
      if tag.Some? {
        assert tag.value == (id, tag.value.1);
        assert tag.value.1 in e.tags;
      }
    }
  }

  lemma FilteredIdsMean(s: Scan, t: Tables, q: Query, id: string)
    requires RelationalInvariant(t) && ScanOf(s, t)
    ensures id in FilteredIds(s, Conditions(q)) <==> id in Abs(t) && Matches(Abs(t)[id], q)
  {
    var rows, cs := CandidateRows(s), Conditions(q);
    SelectIdsMember(rows, cs, id);
    assert Fits(t, id);
    if r :| r in rows && HoldAll(r, cs) == True && ParentOf(r).0 == id {
      CandidateMember(s, t, r);
      ConditionsMean(r, q);
      assert r == CandidateAt(t, id, TagOf(r));
      EntryMatchesWhenARowDoes(t, q, id);
    }
    if id in Abs(t) && Matches(Abs(t)[id], q) {
      EntryMatchesWhenARowDoes(t, q, id);
      var tag :| TagChoice(t, id, tag) && RowMatches(CandidateAt(t, id, tag), q);
      var r := CandidateAt(t, id, tag);
      CandidateMember(s, t, r);
      ConditionsMean(r, q);
    }
  }

  // ----- the outer query -----

  lemma OuterMember(s: Scan, t: Tables, ids: seq<string>, r: Outer2)
    requires RelationalInvariant(t) && ScanOf(s, t) && r in OuterRows(s, ids)
    ensures OuterParent(r).0 in t.activities && OuterParent(r).0 in ids && r == OuterRowAt(t, OuterParent(r).0)
  {
    var rows0 := InnerJoin(s.activities, ids, OnId);
    var rows1 := LeftJoin(rows0, s.onchain, OnOnchainOfType);
    LeftJoinMember(rows1, s.lightning, OnLightningOfType, r);
    LeftJoinMember(rows0, s.onchain, OnOnchainOfType, r.0);
    InnerJoinMember(s.activities, ids, OnId, r.0.0);
    TypedPartners(s, t, r);
  }

  /** The row of the outer query for an id: the guards leave the other type's columns NULL. */
  ghost function OuterRowAt(t: Tables, id: string): Outer2
    requires id in t.activities
  {
    var a := (id, t.activities[id]);
    ((((a, id), OnchainOf(t, id)), LightningOf(t, id)))
  }

  lemma TypedPartners(s: Scan, t: Tables, r: Outer2)
    requires RelationalInvariant(t) && ScanOf(s, t)
    requires OuterParent(r) in s.activities && r.0.0.1 == OuterParent(r).0
    requires match r.0.1 { case Some(x) => x in s.onchain && OnOnchainOfType(r.0.0, x)
                           case None => forall x :: x in s.onchain ==> !OnOnchainOfType(r.0.0, x) }
    requires match r.1 { case Some(x) => x in s.lightning && OnLightningOfType(r.0, x)
                         case None => forall x :: x in s.lightning ==> !OnLightningOfType(r.0, x) }
    ensures OuterParent(r).0 in t.activities && r == OuterRowAt(t, OuterParent(r).0)
  {
    var a := OuterParent(r);
    assert Fits(t, a.0);
    if a.0 in t.onchain {
      assert (a.0, t.onchain[a.0]) in s.onchain;
      assert OnOnchainOfType(r.0.0, (a.0, t.onchain[a.0]));
    }
    if a.0 in t.lightning {
      assert (a.0, t.lightning[a.0]) in s.lightning;
      assert OnLightningOfType(r.0, (a.0, t.lightning[a.0]));
    }
  }

  lemma OuterHasId(s: Scan, t: Tables, ids: seq<string>, id: string)
    requires RelationalInvariant(t) && ScanOf(s, t) && id in ids && id in t.activities
    ensures OuterRowAt(t, id) in OuterRows(s, ids)
  {
    var r := OuterRowAt(t, id);
    var rows0 := InnerJoin(s.activities, ids, OnId);
    var rows1 := LeftJoin(rows0, s.onchain, OnOnchainOfType);
    assert Fits(t, id);
    assert (id, t.activities[id]) in s.activities;
    InnerJoinMember(s.activities, ids, OnId, r.0.0);
    if id in t.onchain {
      assert (id, t.onchain[id]) in s.onchain;
    }
    if id in t.lightning {
      assert (id, t.lightning[id]) in s.lightning;
    }
    LeftJoinMember(rows0, s.onchain, OnOnchainOfType, r.0);
    LeftJoinMember(rows1, s.lightning, OnLightningOfType, r);
  }

  lemma OuterRowReads(t: Tables, id: string)
    requires Fits(t, id) && id in t.activities
    ensures ReadRow(OuterRowAt(t, id)) == Ok(ActivityAt(t, id))
  {
  }

  /** The sorted rows before LIMIT: each matching id once, with the row that reads as its activity. */
  ghost function SortedRows(p: Prepared, inner: Scan, outer: Scan): seq<Outer2> {
    SortBy(OuterKey(p.direction), OuterRows(outer, FilteredIds(inner, p.conditions)))
  }

  lemma SortedRowsHold(t: Tables, q: Query, inner: Scan, outer: Scan)
    requires RelationalInvariant(t) && ScanOf(inner, t) && ScanOf(outer, t)
    ensures var rows := SortedRows(Intended(q), inner, outer);
      && NoDuplicates(rows)
      && SortedBy(OuterKey(q.direction), rows)
      && (forall r :: r in rows ==> var id := OuterParent(r).0;
            id in Abs(t) && Matches(Abs(t)[id], q) && r == OuterRowAt(t, id))
      && (forall id :: id in Abs(t) && Matches(Abs(t)[id], q) ==> OuterRowAt(t, id) in rows)
  {
    var ids := FilteredIds(inner, Conditions(q));
    var rows0 := InnerJoin(outer.activities, ids, OnId);
    InnerJoinNoDuplicates(outer.activities, ids, OnId);
    LeftJoinNoDuplicates(rows0, outer.onchain, OnOnchainOfType);
    LeftJoinNoDuplicates(LeftJoin(rows0, outer.onchain, OnOnchainOfType), outer.lightning, OnLightningOfType);
    var unsorted := OuterRows(outer, ids);
    SortByCorrect(OuterKey(q.direction), unsorted);
    SortByNoDuplicates(OuterKey(q.direction), unsorted);
    var rows := SortBy(OuterKey(q.direction), unsorted);
    assert rows == SortedRows(Intended(q), inner, outer);
    forall r | r in rows
      ensures var id := OuterParent(r).0;
        id in Abs(t) && Matches(Abs(t)[id], q) && r == OuterRowAt(t, id)
    {
      SortByMember(OuterKey(q.direction), unsorted, r);
      OuterMember(outer, t, ids, r);
      FilteredIdsMean(inner, t, q, OuterParent(r).0);
    }
    forall id | id in Abs(t) && Matches(Abs(t)[id], q)
      ensures OuterRowAt(t, id) in rows
    {
      FilteredIdsMean(inner, t, q, id);
      OuterHasId(outer, t, ids, id);
      SortByMember(OuterKey(q.direction), unsorted, OuterRowAt(t, id));
    }
  }

  // ----- reading the rows -----

  ghost predicate Present(t: Tables, ids: seq<string>) {
    forall i :: 0 <= i < |ids| ==> ids[i] in t.activities && Fits(t, ids[i])
  }

  ghost function ActivitiesAt(t: Tables, ids: seq<string>): (activities: seq<Activity>)
    requires Present(t, ids)
    ensures |activities| == |ids|
    ensures forall i :: 0 <= i < |ids| ==> activities[i] == ActivityAt(t, ids[i])
  {
    seq(|ids|, i requires 0 <= i < |ids| => ActivityAt(t, ids[i]))
  }

  function OuterIds(rows: seq<Outer2>): (ids: seq<string>)
    ensures |ids| == |rows|
    ensures forall i :: 0 <= i < |rows| ==> ids[i] == OuterParent(rows[i]).0
  {
    seq(|rows|, i requires 0 <= i < |rows| => OuterParent(rows[i]).0)
  }

  lemma {:induction false} ReadAllReads(t: Tables, rows: seq<Outer2>)
    requires Present(t, OuterIds(rows))
    requires forall i :: 0 <= i < |rows| ==> rows[i] == OuterRowAt(t, OuterIds(rows)[i])
    ensures ReadAll(rows) == Ok(ActivitiesAt(t, OuterIds(rows)))
  {
    if rows == [] {
    } else {
      var init, last := rows[..|rows| - 1], rows[|rows| - 1];
      assert OuterIds(rows) == OuterIds(init) + [OuterParent(last).0];
      forall i | 0 <= i < |init|
        ensures init[i] == OuterRowAt(t, OuterIds(init)[i])
      {
        assert init[i] == rows[i];
      }
      ReadAllReads(t, init);
      OuterRowReads(t, OuterParent(last).0);
      assert ActivitiesAt(t, OuterIds(rows)) == ActivitiesAt(t, OuterIds(init)) + [ActivityAt(t, OuterParent(last).0)];
    }
  }

  /** Sorted, duplicate-free ids of exactly the matching activities list them. */
  lemma IdsAreListing(t: Tables, q: Query, ids: seq<string>)
    requires RelationalInvariant(t) && Present(t, ids) && NoDuplicates(ids)
    requires forall i, j :: 0 <= i < j < |ids| ==>
      SortKey(q.direction, t.activities[ids[i]].timestamp) <= SortKey(q.direction, t.activities[ids[j]].timestamp)
    requires forall id :: id in ids <==> id in Abs(t) && Matches(Abs(t)[id], q)
    ensures FullListing(Abs(t), q, ActivitiesAt(t, ids))
  {
    var full := ActivitiesAt(t, ids);
    forall i | 0 <= i < |full|
      ensures full[i].Id() == ids[i] && ids[i] in Abs(t) && Matches(Abs(t)[ids[i]], q)
      ensures Abs(t)[ids[i]].activity == full[i]
      ensures full[i].Timestamp() == t.activities[ids[i]].timestamp
    {
      assert ids[i] in ids;
    }
    forall id | id in Abs(t) && Matches(Abs(t)[id], q)
      ensures Abs(t)[id].activity in full
    {
      var k :| 0 <= k < |ids| && ids[k] == id;
      assert full[k] == ActivityAt(t, id);
    }
  }

  lemma RowsGiveIds(t: Tables, q: Query, rows: seq<Outer2>)
    requires RelationalInvariant(t) && NoDuplicates(rows) && SortedBy(OuterKey(q.direction), rows)
    requires forall r :: r in rows ==> var id := OuterParent(r).0;
      id in Abs(t) && Matches(Abs(t)[id], q) && r == OuterRowAt(t, id)
    requires forall id :: id in Abs(t) && Matches(Abs(t)[id], q) ==> OuterRowAt(t, id) in rows
    ensures Present(t, OuterIds(rows)) && FullListing(Abs(t), q, ActivitiesAt(t, OuterIds(rows)))
    ensures forall i :: 0 <= i < |rows| ==> rows[i] == OuterRowAt(t, OuterIds(rows)[i])
  {
    var ids := OuterIds(rows);
    forall i | 0 <= i < |rows|
      ensures ids[i] in t.activities && Fits(t, ids[i]) && rows[i] == OuterRowAt(t, ids[i])
      ensures Matches(Abs(t)[ids[i]], q)
    {
      assert rows[i] in rows;
    }
    forall i, j | 0 <= i < j < |ids|
      ensures SortKey(q.direction, t.activities[ids[i]].timestamp)
           <= SortKey(q.direction, t.activities[ids[j]].timestamp)
    {
      assert OuterKey(q.direction)(rows[i]) <= OuterKey(q.direction)(rows[j]);
    }
    forall id | id in Abs(t) && Matches(Abs(t)[id], q)
      ensures id in ids
    {
      var k :| 0 <= k < |rows| && rows[k] == OuterRowAt(t, id);
      assert ids[k] == id;
    }
    IdsAreListing(t, q, ids);
  }

  lemma CutReads(t: Tables, rows: seq<Outer2>, n: Option<nat>)
    requires Present(t, OuterIds(rows))
    requires forall i :: 0 <= i < |rows| ==> rows[i] == OuterRowAt(t, OuterIds(rows)[i])
    ensures ReadAll(Limit(rows, n)) == Ok(Limit(ActivitiesAt(t, OuterIds(rows)), n))
  {
    var cut := Limit(rows, n);
    assert OuterIds(cut) == Limit(OuterIds(rows), n);
    ReadAllReads(t, cut);
    assert ActivitiesAt(t, OuterIds(cut)) == Limit(ActivitiesAt(t, OuterIds(rows)), n);
  }

  lemma SortedRowsList(t: Tables, q: Query, inner: Scan, outer: Scan)
    requires RelationalInvariant(t) && ScanOf(inner, t) && ScanOf(outer, t)
    ensures var rows := SortedRows(Intended(q), inner, outer);
      && Present(t, OuterIds(rows))
      && FullListing(Abs(t), q, ActivitiesAt(t, OuterIds(rows)))
      && forall i :: 0 <= i < |rows| ==> rows[i] == OuterRowAt(t, OuterIds(rows)[i])
  {
    SortedRowsHold(t, q, inner, outer);
    RowsGiveIds(t, q, SortedRows(Intended(q), inner, outer));
  }

  lemma ExecuteAnswers(t: Tables, q: Query, inner: Scan, outer: Scan)
    requires RelationalInvariant(t) && ScanOf(inner, t) && ScanOf(outer, t)
    ensures var r := ReadAll(Execute(Intended(q), inner, outer));
      r.Ok? && Answer(Abs(t), q, r.value)
  {
    SortedRowsList(t, q, inner, outer);
    CutReads(t, SortedRows(Intended(q), inner, outer), q.limit);
  }

  /** The plan of get_activities preserves the meaning of its arguments: in every state that
      keeps the relational invariant, for every filter combination and every order the engine
      may scan in, the result is the limit-prefix of a sorted list of exactly the stored
      activities that satisfy the plain filter, each once, and no row fails to map. Only a NUL
      in a tag or in the search text makes the statement unreadable. */
  lemma QueryPlanMeansFilter(t: Tables, q: Query, inner: Scan, outer: Scan)
    requires RelationalInvariant(t) && ScanOf(inner, t) && ScanOf(outer, t)
    ensures var r := GetActivities(q, inner, outer);
      if NulFree(q) then r.Ok? && Answer(Abs(t), q, r.value) else r == Err(RetrievalError)
  {
    TextMeansQuery(q);
    ExecuteAnswers(t, q, inner, outer);
  }
}
