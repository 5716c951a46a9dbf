/** Whole runs of ActivityDB: what every reachable state of the tables satisfies. */
module ActivityHistory {
  import opened Common
  import opened ActivityTypes
  import opened ActivityTables
  import opened ActivityStore
  import opened ActivityTransactions

  /** One call of a mutating method, with the clock it reads. */
  datatype Op =
    | Insert(activity: Activity, now: u64)
    | Update(id: string, activity: Activity, now: u64)
    | Upsert(activity: Activity, now: u64)
    | Delete(id: string)
    | AddTags(id: string, tags: seq<string>)
    | RemoveTags(id: string, tags: seq<string>)

  /** The tables a caller is left with: the committed ones, or the old ones after a rollback. */
  function Committed(t: Tables, r: Result<Tables, ActivityError>): Tables {
    match r case Ok(t') => t' case Err(_) => t
  }

  function Exec(t: Tables, op: Op): Tables {
    match op
    case Insert(a, now) => Committed(t, InsertTx(t, a, now))
    case Update(id, a, now) => Committed(t, UpdateTx(t, id, a, now))
    case Upsert(a, now) => Committed(t, UpsertTx(t, a, now))
    case Delete(id) => DeleteActivity(t, id).0
    case AddTags(id, tags) => Committed(t, AddTagsTx(t, id, tags))
    case RemoveTags(id, tags) => RemoveTagsTx(t, id, tags)
  }

  function Run(t: Tables, ops: seq<Op>): Tables
    decreases |ops|
  {
    if ops == [] then t else Run(Exec(t, ops[0]), ops[1..])
  }

  function Kept(s: Store, r: Result<Store, ActivityError>): Store {
    match r case Ok(s') => s' case Err(_) => s
  }

  function StoreExec(s: Store, op: Op): Store {
    match op
    case Insert(a, now) => Kept(s, StoreInsert(s, a, now))
    case Update(id, a, now) => Kept(s, StoreUpdate(s, id, a, now))
    case Upsert(a, now) => Kept(s, StoreUpsert(s, a, now))
    case Delete(id) => StoreDelete(s, id)
    case AddTags(id, tags) => Kept(s, StoreAddTags(s, id, tags))
    case RemoveTags(id, tags) => StoreRemoveTags(s, id, tags)
  }

  function StoreRun(s: Store, ops: seq<Op>): Store
    decreases |ops|
  {
    if ops == [] then s else StoreRun(StoreExec(s, ops[0]), ops[1..])
  }

  lemma ExecRefines(t: Tables, op: Op)
    requires RelationalInvariant(t)
    ensures RelationalInvariant(Exec(t, op))
    ensures Abs(Exec(t, op)) == StoreExec(Abs(t), op)
  {
    match op
    case Insert(a, now) => InsertRefines(t, a, now);
    case Update(id, a, now) => UpdateRefines(t, id, a, now);
    case Upsert(a, now) => UpsertRefines(t, a, now);
    case Delete(id) => DeleteRefines(t, id);
    case AddTags(id, tags) => AddTagsRefines(t, id, tags);
    case RemoveTags(id, tags) => RemoveTagsRefines(t, id, tags);
  }

  /** Every run of the four tables, with its failures and rollbacks, is a run of the one map. */
  lemma {:induction false} RunRefines(t: Tables, ops: seq<Op>)
    requires RelationalInvariant(t)
    ensures RelationalInvariant(Run(t, ops))
    ensures Abs(Run(t, ops)) == StoreRun(Abs(t), ops)
    decreases |ops|
  {
    if ops == [] {
    } else {
      ExecRefines(t, ops[0]);
      RunRefines(Exec(t, ops[0]), ops[1..]);
    }
  }

  ghost predicate Reachable(t: Tables) {
    exists ops :: t == Run(EMPTY_TABLES, ops)
  }

  /** The relational invariant holds of every state a sequence of calls can leave behind. */
  lemma ReachableIsSound(t: Tables)
    requires Reachable(t)
    ensures RelationalInvariant(t)
    ensures StoreInvariant(Abs(t))
  {
    var ops :| t == Run(EMPTY_TABLES, ops);
    assert RelationalInvariant(EMPTY_TABLES);
    RunRefines(EMPTY_TABLES, ops);
    EntriesAreStorable(t);
  }

  /** The relational invariant is what makes every stored entry one the checks accept, with its
      confirmation no earlier than the activity. */
  lemma EntriesAreStorable(t: Tables)
    requires RelationalInvariant(t)
    ensures StoreInvariant(Abs(t))
  {
    forall id | id in Abs(t)
      ensures Abs(t)[id].activity.Id() == id
      ensures Storable(Abs(t)[id].activity)
      ensures Abs(t)[id].activity.CreatedAt().Some?
    {
      assert Fits(t, id);
      if t.activities[id].kind == OnchainType {
        assert OnchainRowOf(Abs(t)[id].activity.onchain) == t.onchain[id];
      } else {
        assert LightningRowOf(Abs(t)[id].activity.lightning) == t.lightning[id];
      }
    }
  }

  /** The store hides nothing: tables that keep the invariant are determined by it. */
  lemma AbsIsInjective(t: Tables, t': Tables)
    requires RelationalInvariant(t) && RelationalInvariant(t') && Abs(t) == Abs(t')
    ensures t == t'
  {
    forall id
      ensures SameRows(t, t', id)
    {
      assert Fits(t, id) && Fits(t', id);
      assert id in Abs(t) <==> id in Abs(t');
      if id in t.activities {
        SameEntrySameRows(t, t', id);
      }
    }
    SameRowsEverywhere(t, t');
  }

  lemma SameEntrySameRows(t: Tables, t': Tables, id: string)
    requires Fits(t, id) && Fits(t', id) && id in t.activities && id in t'.activities
    requires EntryAt(t, id) == EntryAt(t', id)
    ensures SameRows(t, t', id)
  {
  }

  lemma SameRowsEverywhere(t: Tables, t': Tables)
    requires forall id :: SameRows(t, t', id)
    ensures t == t'
  {
    forall p: (string, string)
      ensures p in t.tags <==> p in t'.tags
    {
      assert SameRows(t, t', p.0) && p == (p.0, p.1);
    }
    forall id
      ensures id in t.activities <==> id in t'.activities
      ensures id in t.onchain <==> id in t'.onchain
      ensures id in t.lightning <==> id in t'.lightning
      ensures id in t.activities ==> t.activities[id] == t'.activities[id]
      ensures id in t.onchain ==> t.onchain[id] == t'.onchain[id]
      ensures id in t.lightning ==> t.lightning[id] == t'.lightning[id]
    {
      assert SameRows(t, t', id);
    }
    assert t.tags == t'.tags;
    assert t.activities == t'.activities;
    assert t.onchain == t'.onchain;
    assert t.lightning == t'.lightning;
  }

  /** From any state of the store in which an id is present, until a call deletes it, the id
      stays present and keeps its type and its creation time, whatever else is called. */
  lemma {:induction false} TypeIsKeptUntilDeletion(s: Store, ops: seq<Op>, id: string)
    requires id in s && s[id].activity.CreatedAt().Some?
    requires forall i :: 0 <= i < |ops| ==> ops[i] != Delete(id)
    ensures id in StoreRun(s, ops)
    ensures StoreRun(s, ops)[id].activity.Type() == s[id].activity.Type()
    ensures StoreRun(s, ops)[id].activity.CreatedAt() == s[id].activity.CreatedAt()
    decreases |ops|
  {
    if ops == [] {
    } else {
      assert ops[0] != Delete(id);
      StepKeepsType(s, ops[0], id);
      TypeIsKeptUntilDeletion(StoreExec(s, ops[0]), ops[1..], id);
    }
  }

  lemma StepKeepsType(s: Store, op: Op, id: string)
    requires id in s && op != Delete(id) && s[id].activity.CreatedAt().Some?
    ensures id in StoreExec(s, op)
    ensures StoreExec(s, op)[id].activity.Type() == s[id].activity.Type()
    ensures StoreExec(s, op)[id].activity.CreatedAt() == s[id].activity.CreatedAt()
  {
  }

  /** The same in the tables: the parent row, its type and its creation time outlive every call
      but its own deletion. */
  lemma ParentKeepsType(t: Tables, ops: seq<Op>, id: string)
    requires RelationalInvariant(t) && id in t.activities
    requires forall i :: 0 <= i < |ops| ==> ops[i] != Delete(id)
    ensures var t' := Run(t, ops);
      && id in t'.activities
      && t'.activities[id].kind == t.activities[id].kind
      && t'.activities[id].createdAt == t.activities[id].createdAt
  {
    RunRefines(t, ops);
    assert Fits(t, id) && Fits(Run(t, ops), id);
    TypeIsKeptUntilDeletion(Abs(t), ops, id);
  }

  /** What upsert_activity does, from the outside: it needs an activity the checks accept, stores
      it under a free id or over one of its own type, and meets the primary key when the id
      belongs to the other type. */
  lemma UpsertOutcome(s: Store, a: Activity, now: u64)
    ensures StoreUpsert(s, a, now).Ok? <==>
      && Storable(a)
      && (if a.Id() in s then s[a.Id()].activity.Type() == a.Type() else a.Onchain? ==> a.Id() != "")
    ensures a.Id() in s && s[a.Id()].activity.Type() != a.Type() && Storable(a) && a.Id() != "" ==>
      StoreUpsert(s, a, now) == Err(InsertError(Activities, UniqueViolation))
    ensures StoreUpsert(s, a, now).Ok? ==>
      var e := StoreUpsert(s, a, now).value;
      && e.Keys == s.Keys + {a.Id()}
      && e[a.Id()].tags == (if a.Id() in s then s[a.Id()].tags else {})
      && forall id :: id in s && id != a.Id() ==> e[id] == s[id]
  {
  }

  // ----- why the methods, and not the schema, carry the invariant -----

  /** The constraints alone let one parent own a row in both detail tables. */
  lemma SchemaAllowsTwoDetails(t: Tables, id: string, o: OnchainRow, l: LightningRow)
    requires id in t.activities && id !in t.onchain && id !in t.lightning
    requires OnchainBindable(o) && OnchainChecks(o) && o.confirmTimestamp.None?
    requires LightningBindable(l) && LightningChecks(l)
    ensures InsertOnchain(t, id, o).Ok? && InsertLightning(InsertOnchain(t, id, o).value, id, l).Ok?
    ensures !RelationalInvariant(InsertLightning(InsertOnchain(t, id, o).value, id, l).value)
  {
    assert !DetailsMatch(InsertLightning(InsertOnchain(t, id, o).value, id, l).value, id);
    assert !Fits(InsertLightning(InsertOnchain(t, id, o).value, id, l).value, id);
  }

  /** Inside an update the parent statement runs first and no trigger looks at the old detail
      row, so confirmation order is broken exactly when the new timestamp passes the old
      confirmation; the detail statement then either restores it or aborts the transaction. */
  lemma ConfirmOrderInsideUpdate(t: Tables, id: string, a: OnchainActivity, now: u64)
    requires RelationalInvariant(t)
    requires id in t.onchain && 0 < a.timestamp <= MAX_I64
    ensures var mid := UpdateActivity(t, id, OnchainType, a.txType, a.timestamp, now);
      && mid.Ok?
      && (ConfirmOrder(mid.value.0, id)
          <==> t.onchain[id].confirmTimestamp.None? || t.onchain[id].confirmTimestamp.value >= a.timestamp)
    ensures var end := UpdateOnchainTx(t, id, a, now);
      && (end.Ok? ==> ConfirmOrder(end.value, id))
      && (a.confirmTimestamp.Some? && a.confirmTimestamp.value < a.timestamp ==> end.Err?)
  {
    assert Fits(t, id);
  }
}
