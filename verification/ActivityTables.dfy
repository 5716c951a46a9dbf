/** The four tables behind ActivityDB and the SQL statements that change them.

    A table keyed by its primary key is a map, so a key names at most one row. Each statement
    either fails and leaves nothing behind, or yields the new tables. Constraints are met in
    SQLite's order: binding, CHECK, PRIMARY KEY, AFTER triggers, foreign keys at statement end.
  */
module ActivityTables {
  import opened Common
  import opened ActivityTypes

  datatype ParentRow = ParentRow(
    kind: ActivityType, txType: PaymentType, timestamp: u64, createdAt: u64, updatedAt: u64)

  datatype OnchainRow = OnchainRow(
    txId: string, address: string, confirmed: bool, value: u64, fee: u64, feeRate: u64,
    isBoosted: bool, isTransfer: bool, doesExist: bool,
    confirmTimestamp: Option<u64>, channelId: Option<string>, transferTxId: Option<string>)

  datatype LightningRow = LightningRow(
    invoice: string, value: u64, status: PaymentState, fee: Option<u64>,
    message: string, preimage: Option<string>)

  datatype Tables = Tables(
    activities: map<string, ParentRow>,
    onchain: map<string, OnchainRow>,
    lightning: map<string, LightningRow>,
    tags: set<(string, string)>)

  const EMPTY_TABLES := Tables(map[], map[], map[], {})

  function OnchainRowOf(a: OnchainActivity): OnchainRow {
    OnchainRow(a.txId, a.address, a.confirmed, a.value, a.fee, a.feeRate, a.isBoosted,
               a.isTransfer, a.doesExist, a.confirmTimestamp, a.channelId, a.transferTxId)
  }

  function LightningRowOf(a: LightningActivity): LightningRow {
    LightningRow(a.invoice, a.value, a.status, a.fee, a.message, a.preimage)
  }

  /** The record a join of a parent row with its onchain row is read back as. */
  function OnchainFrom(id: string, p: ParentRow, o: OnchainRow): OnchainActivity {
    OnchainActivity(id, p.txType, o.txId, o.value, o.fee, o.feeRate, o.address, o.confirmed,
                    p.timestamp, o.isBoosted, o.isTransfer, o.doesExist, o.confirmTimestamp,
                    o.channelId, o.transferTxId, Some(p.createdAt), Some(p.updatedAt))
  }

  function LightningFrom(id: string, p: ParentRow, l: LightningRow): LightningActivity {
    LightningActivity(id, p.txType, l.status, l.value, l.fee, l.invoice, l.message,
                      p.timestamp, l.preimage, Some(p.createdAt), Some(p.updatedAt))
  }

  // ----- column constraints -----

  predicate Bindable(n: u64) { n <= MAX_I64 }

  predicate BindableOpt(n: Option<u64>) { n.Some? ==> Bindable(n.value) }

  /** `length(s) > 0`: SQLite's length stops at the first NUL. */
  predicate SqlNonEmpty(s: string) { |s| > 0 && s[0] != '\0' }

  predicate NullOrNonEmpty(s: Option<string>) { s.Some? ==> SqlNonEmpty(s.value) }

  predicate OnchainBindable(o: OnchainRow) {
    Bindable(o.value) && Bindable(o.fee) && Bindable(o.feeRate) && BindableOpt(o.confirmTimestamp)
  }

  predicate OnchainChecks(o: OnchainRow) {
    SqlNonEmpty(o.address) && NullOrNonEmpty(o.channelId) && NullOrNonEmpty(o.transferTxId)
  }

  predicate LightningBindable(l: LightningRow) {
    Bindable(l.value) && BindableOpt(l.fee)
  }

  predicate LightningChecks(l: LightningRow) {
    SqlNonEmpty(l.invoice) && NullOrNonEmpty(l.preimage)
  }

  /** Both confirm-timestamp triggers: a missing parent makes the comparison NULL, which does
      not raise. */
  predicate ConfirmTriggerRaises(t: Tables, id: string, o: OnchainRow) {
    o.confirmTimestamp.Some? && id in t.activities
    && o.confirmTimestamp.value < t.activities[id].timestamp
  }

  // ----- statements -----

  function InsertActivity(t: Tables, id: string, kind: ActivityType, txType: PaymentType,
                          timestamp: u64, now: u64): Result<Tables, SqlError>
  {
    if !Bindable(timestamp) then Err(BindOutOfRange)
    else if timestamp == 0 then Err(CheckViolation)
    else if id in t.activities then Err(UniqueViolation)
    else Ok(t.(activities := t.activities[id := ParentRow(kind, txType, timestamp, now, now)]))
  }

  function InsertOnchain(t: Tables, id: string, o: OnchainRow): Result<Tables, SqlError> {
    if !OnchainBindable(o) then Err(BindOutOfRange)
    else if !OnchainChecks(o) then Err(CheckViolation)
    else if id in t.onchain then Err(UniqueViolation)
    else if ConfirmTriggerRaises(t, id, o) then Err(RaisedAbort)
    else if id !in t.activities then Err(ForeignKeyViolation)
    else Ok(t.(onchain := t.onchain[id := o]))
  }

  function InsertLightning(t: Tables, id: string, l: LightningRow): Result<Tables, SqlError> {
    if !LightningBindable(l) then Err(BindOutOfRange)
    else if !LightningChecks(l) then Err(CheckViolation)
    else if id in t.lightning then Err(UniqueViolation)
    else if id !in t.activities then Err(ForeignKeyViolation)
    else Ok(t.(lightning := t.lightning[id := l]))
  }

  /** UPDATE ... WHERE id = ? AND activity_type = ?, with the AFTER UPDATE trigger that moves
      updated_at; the second component is the number of rows changed. */
  function UpdateActivity(t: Tables, id: string, kind: ActivityType, txType: PaymentType,
                          timestamp: u64, now: u64): Result<(Tables, nat), SqlError>
  {
    if !Bindable(timestamp) then Err(BindOutOfRange)
    else if id !in t.activities || t.activities[id].kind != kind then Ok((t, 0))
    else if timestamp == 0 then Err(CheckViolation)
    else
      var row := t.activities[id].(txType := txType, timestamp := timestamp);
      Ok((TouchUpdatedAt(t.(activities := t.activities[id := row]), id, now), 1))
  }

  /** Body of activities_update_trigger. */
  function TouchUpdatedAt(t: Tables, id: string, now: u64): Tables {
    if id in t.activities
    then t.(activities := t.activities[id := t.activities[id].(updatedAt := now)])
    else t
  }

  function UpdateOnchain(t: Tables, id: string, o: OnchainRow): Result<Tables, SqlError> {
    if !OnchainBindable(o) then Err(BindOutOfRange)
    else if id !in t.onchain then Ok(t)
    else if !OnchainChecks(o) then Err(CheckViolation)
    else if ConfirmTriggerRaises(t, id, o) then Err(RaisedAbort)
    else Ok(t.(onchain := t.onchain[id := o]))
  }

  function UpdateLightning(t: Tables, id: string, l: LightningRow): Result<Tables, SqlError> {
    if !LightningBindable(l) then Err(BindOutOfRange)
    else if id !in t.lightning then Ok(t)
    else if !LightningChecks(l) then Err(CheckViolation)
    else Ok(t.(lightning := t.lightning[id := l]))
  }

  /** DELETE FROM activities WHERE id = ?, with ON DELETE CASCADE in the three child tables. */
  function DeleteActivity(t: Tables, id: string): (Tables, nat) {
    if id !in t.activities then (t, 0)
    else (Tables(t.activities - {id}, t.onchain - {id}, t.lightning - {id},
                 set p | p in t.tags && p.0 != id), 1)
  }

  /** INSERT OR IGNORE: a repeated pair is ignored, a missing parent is still an error. */
  function InsertTag(t: Tables, id: string, tag: string): Result<Tables, SqlError> {
    if (id, tag) in t.tags then Ok(t)
    else if id !in t.activities then Err(ForeignKeyViolation)
    else Ok(t.(tags := t.tags + {(id, tag)}))
  }

  function DeleteTag(t: Tables, id: string, tag: string): Tables {
    t.(tags := t.tags - {(id, tag)})
  }

  // ----- the relational invariant, one id at a time -----

  /** A parent of a type has a row in that type's detail table and none in the other, and a
      detail row has its parent. The schema by itself does not ensure this. */
  ghost predicate DetailsMatch(t: Tables, id: string) {
    && (id in t.onchain <==> id in t.activities && t.activities[id].kind == OnchainType)
    && (id in t.lightning <==> id in t.activities && t.activities[id].kind == LightningType)
  }

  ghost predicate TagsHaveParent(t: Tables, id: string) {
    forall tag :: (id, tag) in t.tags ==> id in t.activities
  }

  ghost predicate ConfirmOrder(t: Tables, id: string) {
    id in t.onchain ==> !ConfirmTriggerRaises(t, id, t.onchain[id])
  }

  ghost predicate RowsChecked(t: Tables, id: string) {
    && (id in t.activities ==> 0 < t.activities[id].timestamp <= MAX_I64)
    && (id in t.onchain ==> OnchainBindable(t.onchain[id]) && OnchainChecks(t.onchain[id]))
    && (id in t.lightning ==> LightningBindable(t.lightning[id]) && LightningChecks(t.lightning[id]))
  }

  ghost predicate Fits(t: Tables, id: string) {
    DetailsMatch(t, id) && TagsHaveParent(t, id) && ConfirmOrder(t, id) && RowsChecked(t, id)
  }

  ghost predicate RelationalInvariant(t: Tables) {
    forall id :: Fits(t, id)
  }

  /** The rows of an id are the same in both. */
  ghost predicate SameRows(t: Tables, t': Tables, id: string) {
    && (id in t.activities <==> id in t'.activities)
    && (id in t.onchain <==> id in t'.onchain)
    && (id in t.lightning <==> id in t'.lightning)
    && (id in t.activities ==> t.activities[id] == t'.activities[id])
    && (id in t.onchain ==> t.onchain[id] == t'.onchain[id])
    && (id in t.lightning ==> t.lightning[id] == t'.lightning[id])
    && (forall tag :: (id, tag) in t.tags <==> (id, tag) in t'.tags)
  }

  /** Only the rows of this id may differ. */
  ghost predicate ChangedOnlyAt(t: Tables, t': Tables, id: string) {
    forall k :: k != id ==> SameRows(t, t', k)
  }

  lemma InvariantAfterChange(t: Tables, t': Tables, id: string)
    requires RelationalInvariant(t) && ChangedOnlyAt(t, t', id) && Fits(t', id)
    ensures RelationalInvariant(t')
  {
    forall k
      ensures Fits(t', k)
    {
      if k != id {
        assert Fits(t, k) && SameRows(t, t', k);
      }
    }
  }
}
