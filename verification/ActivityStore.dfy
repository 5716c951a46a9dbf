/** What ActivityDB means: a map from ids to an activity with its set of tags.

    Each operation of the database is given here as one step on that map, with its exact
    outcome; ActivityTransactions proves the statement sequences against these steps.
  */
module ActivityStore {
  import opened Common
  import opened ActivityTypes
  import opened ActivityTables

  datatype Entry = Entry(activity: Activity, tags: set<string>)

  type Store = map<string, Entry>

  // ----- the store a state of the tables stands for -----

  ghost function EntryAt(t: Tables, id: string): Entry
    requires DetailsMatch(t, id) && id in t.activities
  {
    Entry(ActivityAt(t, id), TagsAt(t, id))
  }

  ghost function ActivityAt(t: Tables, id: string): Activity
    requires DetailsMatch(t, id) && id in t.activities
  {
    var p := t.activities[id];
    match p.kind
    case OnchainType => Onchain(OnchainFrom(id, p, t.onchain[id]))
    case LightningType => Lightning(LightningFrom(id, p, t.lightning[id]))
  }

  ghost function TagsAt(t: Tables, id: string): (tags: set<string>)
    ensures forall tag :: tag in tags <==> (id, tag) in t.tags
  {
    var tags := set p | p in t.tags && p.0 == id :: p.1;
    assert forall tag :: (id, tag) in t.tags ==> (id, tag).1 in tags;
    tags
  }

  ghost function Abs(t: Tables): Store
    requires RelationalInvariant(t)
  {
    map id | id in t.activities :: assert Fits(t, id); EntryAt(t, id)
  }

  lemma SameRowsSameEntry(t: Tables, t': Tables, id: string)
    requires SameRows(t, t', id) && id in t.activities && DetailsMatch(t, id) && DetailsMatch(t', id)
    ensures EntryAt(t', id) == EntryAt(t, id)
  {
  }

  /** Changing the rows of one id changes the store at that id only. */
  lemma AbsAfterChange(t: Tables, t': Tables, id: string)
    requires RelationalInvariant(t) && RelationalInvariant(t') && ChangedOnlyAt(t, t', id) && Fits(t', id)
    ensures Abs(t') == if id in t'.activities then Abs(t)[id := EntryAt(t', id)] else Abs(t) - {id}
  {
    forall k | k != id
      ensures k in Abs(t) <==> k in Abs(t')
      ensures k in Abs(t) ==> Abs(t')[k] == Abs(t)[k]
    {
      assert SameRows(t, t', k);
      assert Fits(t, k) && Fits(t', k);
      if k in t.activities {
        SameRowsSameEntry(t, t', k);
      }
    }
  }

  // ----- steps on the store -----

  function DetailTable(a: Activity): Table {
    match a case Onchain(_) => OnchainTable case Lightning(_) => LightningTable
  }

  /** Why the detail row of an activity would be refused, given that its parent row is in
      place with the activity's own timestamp. */
  function DetailFault(a: Activity): Option<SqlError> {
    match a
    case Onchain(o) =>
      var row := OnchainRowOf(o);
      if !OnchainBindable(row) then Some(BindOutOfRange)
      else if !OnchainChecks(row) then Some(CheckViolation)
      else if o.confirmTimestamp.Some? && o.confirmTimestamp.value < o.timestamp then Some(RaisedAbort)
      else None
    case Lightning(l) =>
      var row := LightningRowOf(l);
      if !LightningBindable(row) then Some(BindOutOfRange)
      else if !LightningChecks(row) then Some(CheckViolation)
      else None
  }

  function ParentFault(a: Activity): Option<SqlError> {
    if !Bindable(a.Timestamp()) then Some(BindOutOfRange)
    else if a.Timestamp() == 0 then Some(CheckViolation)
    else None
  }

  /** An activity the database is able to hold. */
  predicate Storable(a: Activity) { ParentFault(a).None? && DetailFault(a).None? }

  function StoreInsert(s: Store, a: Activity, now: u64): Result<Store, ActivityError> {
    if a.Onchain? && a.Id() == "" then Err(DataError(EmptyId))
    else if ParentFault(a).Some? then Err(InsertError(Activities, ParentFault(a).value))
    else if a.Id() in s then Err(InsertError(Activities, UniqueViolation))
    else if DetailFault(a).Some? then Err(InsertError(DetailTable(a), DetailFault(a).value))
    else Ok(s[a.Id() := Entry(a.Stamped(a.Id(), now, now), {})])
  }

  /** Update keeps the id, the type, created_at and the tags, whatever the argument says. */
  function StoreUpdate(s: Store, id: string, a: Activity, now: u64): Result<Store, ActivityError> {
    if !Bindable(a.Timestamp()) then Err(DataError(StatementFailed(Activities, BindOutOfRange)))
    else if id !in s || s[id].activity.Type() != a.Type() then Err(DataError(NoActivityFound))
    else if ParentFault(a).Some? then Err(DataError(StatementFailed(Activities, ParentFault(a).value)))
    else if DetailFault(a).Some? then Err(DataError(StatementFailed(DetailTable(a), DetailFault(a).value)))
    else
      var created := s[id].activity.CreatedAt();
      Ok(s[id := s[id].(activity := a.Stamped(id, if created.Some? then created.value else now, now))])
  }

  function StoreUpsert(s: Store, a: Activity, now: u64): Result<Store, ActivityError> {
    var updated := StoreUpdate(s, a.Id(), a, now);
    if updated == Err(DataError(NoActivityFound)) then StoreInsert(s, a, now) else updated
  }

  function StoreDelete(s: Store, id: string): Store { s - {id} }

  function StoreAddTags(s: Store, id: string, tags: seq<string>): Result<Store, ActivityError> {
    if id !in s then Err(DataError(DoesNotExist(id)))
    else Ok(s[id := s[id].(tags := s[id].tags + set tag | tag in tags)])
  }

  function StoreRemoveTags(s: Store, id: string, tags: seq<string>): Store {
    if id !in s then s
    else s[id := s[id].(tags := s[id].tags - set tag | tag in tags)]
  }

  /** Every entry sits under its own id and is one the database accepts; confirmation never
      precedes the activity itself. */
  ghost predicate StoreInvariant(s: Store) {
    forall id :: id in s ==>
      && s[id].activity.Id() == id
      && Storable(s[id].activity)
      && s[id].activity.CreatedAt().Some?
  }
}
