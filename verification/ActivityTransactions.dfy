/** The multi-statement transactions of ActivityDB, and their refinement of the store. */
module ActivityTransactions {
  import opened Common
  import opened ActivityTypes
  import opened ActivityTables
  import opened ActivityStore

  // ----- transactions: Ok carries the committed tables, Err means rolled back -----

  function InsertOnchainTx(t: Tables, a: OnchainActivity, now: u64): Result<Tables, ActivityError> {
    if a.id == "" then Err(DataError(EmptyId)) else
    match InsertActivity(t, a.id, OnchainType, a.txType, a.timestamp, now)
    case Err(e) => Err(InsertError(Activities, e))
    case Ok(t1) =>
      match InsertOnchain(t1, a.id, OnchainRowOf(a))
      case Err(e) => Err(InsertError(OnchainTable, e))
      case Ok(t2) => Ok(t2)
  }

  function InsertLightningTx(t: Tables, a: LightningActivity, now: u64): Result<Tables, ActivityError> {
    match InsertActivity(t, a.id, LightningType, a.txType, a.timestamp, now)
    case Err(e) => Err(InsertError(Activities, e))
    case Ok(t1) =>
      match InsertLightning(t1, a.id, LightningRowOf(a))
      case Err(e) => Err(InsertError(LightningTable, e))
      case Ok(t2) => Ok(t2)
  }

  function UpdateOnchainTx(t: Tables, id: string, a: OnchainActivity, now: u64): Result<Tables, ActivityError> {
    match UpdateActivity(t, id, OnchainType, a.txType, a.timestamp, now)
    case Err(e) => Err(DataError(StatementFailed(Activities, e)))
    case Ok((t1, rows)) =>
      if rows == 0 then Err(DataError(NoActivityFound)) else
      match UpdateOnchain(t1, id, OnchainRowOf(a))
      case Err(e) => Err(DataError(StatementFailed(OnchainTable, e)))
      case Ok(t2) => Ok(t2)
  }

  function UpdateLightningTx(t: Tables, id: string, a: LightningActivity, now: u64): Result<Tables, ActivityError> {
    match UpdateActivity(t, id, LightningType, a.txType, a.timestamp, now)
    case Err(e) => Err(DataError(StatementFailed(Activities, e)))
    case Ok((t1, rows)) =>
      if rows == 0 then Err(DataError(NoActivityFound)) else
      match UpdateLightning(t1, id, LightningRowOf(a))
      case Err(e) => Err(DataError(StatementFailed(LightningTable, e)))
      case Ok(t2) => Ok(t2)
  }

  function InsertTx(t: Tables, a: Activity, now: u64): Result<Tables, ActivityError> {
    match a case Onchain(o) => InsertOnchainTx(t, o, now) case Lightning(l) => InsertLightningTx(t, l, now)
  }

  function UpdateTx(t: Tables, id: string, a: Activity, now: u64): Result<Tables, ActivityError> {
    match a case Onchain(o) => UpdateOnchainTx(t, id, o, now) case Lightning(l) => UpdateLightningTx(t, id, l, now)
  }

  /** Two transactions: the update, and the insert only when the update found no row. */
  function UpsertTx(t: Tables, a: Activity, now: u64): Result<Tables, ActivityError> {
    var updated := UpdateTx(t, a.Id(), a, now);
    if updated == Err(DataError(NoActivityFound)) then InsertTx(t, a, now) else updated
  }

  function InsertTags(t: Tables, id: string, tags: seq<string>): Result<Tables, SqlError> {
    if tags == [] then Ok(t)
    else match InsertTags(t, id, tags[..|tags| - 1])
         case Err(e) => Err(e)
         case Ok(t1) => InsertTag(t1, id, tags[|tags| - 1])
  }

  function AddTagsTx(t: Tables, id: string, tags: seq<string>): Result<Tables, ActivityError> {
    if id !in t.activities then Err(DataError(DoesNotExist(id)))
    else match InsertTags(t, id, tags)
         case Err(e) => Err(DataError(StatementFailed(Tags, e)))
         case Ok(t1) => Ok(t1)
  }

  function RemoveTagsTx(t: Tables, id: string, tags: seq<string>): Tables {
    if tags == [] then t
    else DeleteTag(RemoveTagsTx(t, id, tags[..|tags| - 1]), id, tags[|tags| - 1])
  }

  // ----- each transaction refines one step on the store -----

  /** A result over tables that says the same as a result over stores; a failure carries no
      tables, so the caller still holds the ones it started from. */
  ghost predicate Refines(r: Result<Tables, ActivityError>, s: Result<Store, ActivityError>) {
    match (r, s)
    case (Ok(t), Ok(store)) => RelationalInvariant(t) && Abs(t) == store
    case (Err(e), Err(f)) => e == f
    case _ => false
  }

  lemma InsertAdds(t: Tables, a: Activity, now: u64)
    requires RelationalInvariant(t) && InsertTx(t, a, now).Ok?
    ensures Refines(InsertTx(t, a, now), StoreInsert(Abs(t), a, now))
  {
    assert Fits(t, a.Id());
    var t' := InsertTx(t, a, now).value;
    ChangeIsLocal(t, t', a.Id());
    assert EntryAt(t', a.Id()) == Entry(a.Stamped(a.Id(), now, now), {});
  }

  lemma InsertRefines(t: Tables, a: Activity, now: u64)
    requires RelationalInvariant(t)
    ensures Refines(InsertTx(t, a, now), StoreInsert(Abs(t), a, now))
  {
    assert Fits(t, a.Id());
    if InsertTx(t, a, now).Ok? {
      InsertAdds(t, a, now);
    }
  }

  /** Reassembles the whole state from what happened to the rows of one id. */
  lemma ChangeIsLocal(t: Tables, t': Tables, id: string)
    requires RelationalInvariant(t) && ChangedOnlyAt(t, t', id) && Fits(t', id)
    ensures RelationalInvariant(t')
    ensures Abs(t') == if id in t'.activities then Abs(t)[id := EntryAt(t', id)] else Abs(t) - {id}
  {
    InvariantAfterChange(t, t', id);
    AbsAfterChange(t, t', id);
  }

  lemma UpdateChanges(t: Tables, id: string, a: Activity, now: u64)
    requires RelationalInvariant(t) && UpdateTx(t, id, a, now).Ok?
    ensures Refines(UpdateTx(t, id, a, now), StoreUpdate(Abs(t), id, a, now))
  {
    assert Fits(t, id);
    var t' := UpdateTx(t, id, a, now).value;
    ChangeIsLocal(t, t', id);
    assert TagsAt(t', id) == TagsAt(t, id);
  }

  lemma UpdateRefines(t: Tables, id: string, a: Activity, now: u64)
    requires RelationalInvariant(t)
    ensures Refines(UpdateTx(t, id, a, now), StoreUpdate(Abs(t), id, a, now))
  {
    assert Fits(t, id);
    if UpdateTx(t, id, a, now).Ok? {
      UpdateChanges(t, id, a, now);
    }
  }

  lemma UpsertRefines(t: Tables, a: Activity, now: u64)
    requires RelationalInvariant(t)
    ensures Refines(UpsertTx(t, a, now), StoreUpsert(Abs(t), a, now))
  {
    UpdateRefines(t, a.Id(), a, now);
    InsertRefines(t, a, now);
  }

  /** The cascade removes exactly the rows of the deleted id. */
  lemma DeleteRefines(t: Tables, id: string)
    requires RelationalInvariant(t)
    ensures var (t', rows) := DeleteActivity(t, id);
      && RelationalInvariant(t')
      && Abs(t') == StoreDelete(Abs(t), id)
      && rows == if id in Abs(t) then 1 else 0
  {
    assert Fits(t, id);
    ChangeIsLocal(t, DeleteActivity(t, id).0, id);
  }

  lemma {:induction false} InsertTagsEffect(t: Tables, id: string, tags: seq<string>)
    requires id in t.activities
    ensures InsertTags(t, id, tags) == Ok(t.(tags := t.tags + TagPairs(id, tags)))
  {
    if tags == [] {
      assert t.tags + TagPairs(id, tags) == t.tags;
    } else {
      var init, last := tags[..|tags| - 1], tags[|tags| - 1];
      InsertTagsEffect(t, id, init);
      TagPairsLast(id, tags);
      assert t.tags + TagPairs(id, tags) == t.tags + TagPairs(id, init) + {(id, last)};
      if (id, last) in t.tags + TagPairs(id, init) {
        assert t.tags + TagPairs(id, tags) == t.tags + TagPairs(id, init);
      }
    }
  }

  ghost function TagPairs(id: string, tags: seq<string>): (pairs: set<(string, string)>)
    ensures forall k, tag :: (k, tag) in pairs <==> k == id && tag in tags
  {
    set tag | tag in tags :: (id, tag)
  }

  lemma TagPairsLast(id: string, tags: seq<string>)
    requires tags != []
    ensures TagPairs(id, tags) == TagPairs(id, tags[..|tags| - 1]) + {(id, tags[|tags| - 1])}
  {
  }

  lemma AddTagsRefines(t: Tables, id: string, tags: seq<string>)
    requires RelationalInvariant(t)
    ensures Refines(AddTagsTx(t, id, tags), StoreAddTags(Abs(t), id, tags))
  {
    assert Fits(t, id);
    if id in t.activities {
      InsertTagsEffect(t, id, tags);
      var t' := AddTagsTx(t, id, tags).value;
      ChangeIsLocal(t, t', id);
      assert TagsAt(t', id) == TagsAt(t, id) + set tag | tag in tags;
    }
  }

  lemma {:induction false} RemoveTagsEffect(t: Tables, id: string, tags: seq<string>)
    ensures RemoveTagsTx(t, id, tags) == t.(tags := t.tags - TagPairs(id, tags))
  {
    if tags == [] {
      assert t.tags - TagPairs(id, tags) == t.tags;
    } else {
      var init, last := tags[..|tags| - 1], tags[|tags| - 1];
      RemoveTagsEffect(t, id, init);
      TagPairsLast(id, tags);
      assert t.tags - TagPairs(id, tags) == t.tags - TagPairs(id, init) - {(id, last)};
    }
  }

  /** Removing tags from an id that does not exist succeeds and changes nothing. */
  lemma RemoveTagsRefines(t: Tables, id: string, tags: seq<string>)
    requires RelationalInvariant(t)
    ensures RelationalInvariant(RemoveTagsTx(t, id, tags))
    ensures Abs(RemoveTagsTx(t, id, tags)) == StoreRemoveTags(Abs(t), id, tags)
  {
    assert Fits(t, id);
    RemoveTagsEffect(t, id, tags);
    var t' := RemoveTagsTx(t, id, tags);
    ChangeIsLocal(t, t', id);
    if id in t.activities {
      assert TagsAt(t', id) == TagsAt(t, id) - set tag | tag in tags;
    }
  }
}
