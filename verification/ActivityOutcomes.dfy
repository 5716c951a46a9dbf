/** What each mutating call does, field by field: when it succeeds, what can be read afterwards, and
    what it leaves alone. */
module ActivityOutcomes {
  import opened Common
  import opened ActivityTypes
  import opened ActivityTables
  import opened ActivityStore
  import opened ActivityTransactions
  import opened ActivityHistory
  import opened ActivityQueryPlan
  import opened ActivityLookups

  /** `length(s) > 0` as SQLite counts: up to the first NUL. */
  predicate Filled(s: string) { s != "" && s[0] != '\0' }

  /** All that the bindings, CHECKs and triggers demand of an activity. */
  predicate Acceptable(a: Activity) {
    match a
    case Onchain(o) =>
      && 0 < o.timestamp <= MAX_I64
      && o.value <= MAX_I64 && o.fee <= MAX_I64 && o.feeRate <= MAX_I64
      && Filled(o.address)
      && (o.confirmTimestamp.Some? ==> o.timestamp <= o.confirmTimestamp.value <= MAX_I64)
      && (o.channelId.Some? ==> Filled(o.channelId.value))
      && (o.transferTxId.Some? ==> Filled(o.transferTxId.value))
    case Lightning(l) =>
      && 0 < l.timestamp <= MAX_I64
      && l.value <= MAX_I64 && (l.fee.Some? ==> l.fee.value <= MAX_I64)
      && Filled(l.invoice)
      && (l.preimage.Some? ==> Filled(l.preimage.value))
  }

  lemma StorableMeansAcceptable(a: Activity)
    ensures Storable(a) <==> Acceptable(a)
  {
  }

  /** Two activities of one kind. */
  predicate SameKind(a: Activity, b: Activity) { a.Onchain? <==> b.Onchain? }

  /** The activity as it was given, but for its id and the two clock columns. */
  predicate RecordedAs(r: Activity, a: Activity, id: string, createdAt: Option<u64>, now: u64) {
    match a
    case Onchain(o) => r == Onchain(o.(id := id, createdAt := createdAt, updatedAt := Some(now)))
    case Lightning(l) => r == Lightning(l.(id := id, createdAt := createdAt, updatedAt := Some(now)))
  }

  /** Only the entry of this id differs. */
  ghost predicate OthersKept(s: Store, s': Store, id: string) {
    forall k :: k != id ==> (k in s' <==> k in s) && (k in s ==> s'[k] == s[k])
  }

  /** An insert needs a free id, which for onchain is not empty, and then holds the activity as it was
      given, created and updated now and without tags. */
  lemma InsertOutcome(s: Store, a: Activity, now: u64)
    ensures StoreInsert(s, a, now).Ok? <==> Acceptable(a) && a.Id() !in s && (a.Onchain? ==> a.Id() != "")
    ensures StoreInsert(s, a, now).Ok? ==>
      var s' := StoreInsert(s, a, now).value;
      && a.Id() in s' && RecordedAs(s'[a.Id()].activity, a, a.Id(), Some(now), now) && s'[a.Id()].tags == {}
      && OthersKept(s, s', a.Id())
    ensures a.Onchain? && a.Id() == "" ==> StoreInsert(s, a, now) == Err(DataError(EmptyId))
    ensures Acceptable(a) && a.Id() in s && a.Id() != "" ==>
      StoreInsert(s, a, now) == Err(InsertError(Activities, UniqueViolation))
    ensures a.Id() != "" && a.Timestamp() == 0 ==>
      StoreInsert(s, a, now) == Err(InsertError(Activities, CheckViolation))
    ensures a.Id() != "" && a.Timestamp() > MAX_I64 ==>
      StoreInsert(s, a, now) == Err(InsertError(Activities, BindOutOfRange))
  {
    StorableMeansAcceptable(a);
  }

  /** An update needs an entry of the same kind under the id, and keeps its creation time and tags. */
  lemma UpdateOutcome(s: Store, id: string, a: Activity, now: u64)
    requires id in s ==> s[id].activity.CreatedAt().Some?
    ensures StoreUpdate(s, id, a, now).Ok? <==> Acceptable(a) && id in s && SameKind(s[id].activity, a)
    ensures StoreUpdate(s, id, a, now).Ok? ==>
      var s' := StoreUpdate(s, id, a, now).value;
      && id in s' && RecordedAs(s'[id].activity, a, id, s[id].activity.CreatedAt(), now)
      && s'[id].tags == s[id].tags
      && OthersKept(s, s', id)
    ensures Acceptable(a) && !(id in s && SameKind(s[id].activity, a)) ==>
      StoreUpdate(s, id, a, now) == Err(DataError(NoActivityFound))
  {
    StorableMeansAcceptable(a);
  }

  /** An upsert leaves the activity it was given under its id, created when the entry was if there was
      one. */
  lemma UpsertRecords(s: Store, a: Activity, now: u64)
    requires a.Id() in s ==> s[a.Id()].activity.CreatedAt().Some?
    requires StoreUpsert(s, a, now).Ok?
    ensures var s' := StoreUpsert(s, a, now).value;
      && a.Id() in s' && OthersKept(s, s', a.Id())
      && RecordedAs(s'[a.Id()].activity, a, a.Id(),
                    if a.Id() in s then s[a.Id()].activity.CreatedAt() else Some(now), now)
  {
    hide Acceptable;
    UpdateOutcome(s, a.Id(), a, now);
    InsertOutcome(s, a, now);
  }

  lemma DeleteOutcome(s: Store, id: string)
    ensures id !in StoreDelete(s, id) && OthersKept(s, StoreDelete(s, id), id)
  {
  }

  /** Adding and removing tags moves the listed tags only. */
  lemma TagsOutcome(s: Store, id: string, tags: seq<string>)
    ensures if id !in s then StoreAddTags(s, id, tags) == Err(DataError(DoesNotExist(id))) else
      && StoreAddTags(s, id, tags).Ok?
      && var s' := StoreAddTags(s, id, tags).value;
      && id in s' && s'[id].activity == s[id].activity && OthersKept(s, s', id)
      && forall tag :: tag in s'[id].tags <==> tag in s[id].tags || tag in tags
    ensures var s' := StoreRemoveTags(s, id, tags);
      && OthersKept(s, s', id) && (id in s' <==> id in s)
      && (id in s ==> s'[id].activity == s[id].activity
                      && forall tag :: tag in s'[id].tags <==> tag in s[id].tags && tag !in tags)
  {
  }

  // ----- reading back through the tables -----

  /** What was inserted is read back by its id, with its clock columns set. */
  lemma InsertedIsReadBack(t: Tables, a: Activity, now: u64)
    requires RelationalInvariant(t) && InsertTx(t, a, now).Ok?
    ensures var r := GetById(InsertTx(t, a, now).value, a.Id());
      r.Ok? && r.value.Some? && RecordedAs(r.value.value, a, a.Id(), Some(now), now)
  {
    hide InsertTx, StoreInsert, GetById, Acceptable;
    InsertRefines(t, a, now);
    InsertOutcome(Abs(t), a, now);
    GetByIdIsLookup(InsertTx(t, a, now).value, a.Id());
  }

  lemma UpdatedIsReadBack(t: Tables, id: string, a: Activity, now: u64)
    requires RelationalInvariant(t) && UpdateTx(t, id, a, now).Ok?
    ensures var before, after := GetById(t, id), GetById(UpdateTx(t, id, a, now).value, id);
      && before.Ok? && before.value.Some? && after.Ok? && after.value.Some?
      && RecordedAs(after.value.value, a, id, before.value.value.CreatedAt(), now)
  {
    hide UpdateTx, StoreUpdate, GetById, Acceptable;
    UpdateRefines(t, id, a, now);
    EntriesAreStorable(t);
    UpdateOutcome(Abs(t), id, a, now);
    GetByIdIsLookup(t, id);
    GetByIdIsLookup(UpdateTx(t, id, a, now).value, id);
  }

  function IdOf(op: Op): string {
    match op
    case Insert(a, _) => a.Id()
    case Update(id, _, _) => id
    case Upsert(a, _) => a.Id()
    case Delete(id) => id
    case AddTags(id, _) => id
    case RemoveTags(id, _) => id
  }

  lemma OthersStay(s: Store, op: Op, id: string)
    ensures op == Delete(id) ==> id !in StoreExec(s, op)
    ensures id != IdOf(op) ==> (id in StoreExec(s, op) <==> id in s) && (id in s ==> StoreExec(s, op)[id] == s[id])
  {
  }

  /** A deleted activity is not found, and no call changes what is found under another id. */
  lemma OthersAreReadAsBefore(t: Tables, op: Op, id: string)
    requires RelationalInvariant(t)
    ensures op == Delete(id) ==> GetById(Exec(t, op), id) == Ok(None)
    ensures id != IdOf(op) ==> GetById(Exec(t, op), id) == GetById(t, id)
  {
    hide Exec, GetById, StoreExec, Abs, RelationalInvariant, IdOf;
    ExecRefines(t, op);
    GetByIdIsLookup(t, id);
    GetByIdIsLookup(Exec(t, op), id);
    OthersStay(Abs(t), op, id);
  }
}
