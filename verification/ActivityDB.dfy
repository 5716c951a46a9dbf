/** ActivityDB itself: methods that run statements over a scratch copy of the tables and commit
    it, or return early and leave the committed tables as they were. */
module ActivityDatabase {
  import opened Common
  import opened ActivityTypes
  import opened ActivityTables
  import opened ActivityStore
  import opened ActivityTransactions
  import opened ActivityHistory
  import opened SqlText
  import opened ActivityQueryText
  import opened ActivityQueryPlan
  import opened ActivityQueryProofs
  import opened ActivityLookups
  import opened ActivityAnswers

  /** A caller's result and the contents left behind, against one step of the store. */
  ghost predicate StepTaken(r: Result<(), ActivityError>, before: Store, after: Store,
                            step: Result<Store, ActivityError>) {
    match step
    case Ok(s) => r.Ok? && after == s
    case Err(e) => r == Err(e) && after == before
  }

  class ActivityDB {
    var conn: Tables

    ghost predicate Valid()
      reads this
    {
      RelationalInvariant(conn)
    }

    ghost function Contents(): Store
      reads this
      requires Valid()
    {
      Abs(conn)
    }

    constructor ()
      ensures Valid() && conn == EMPTY_TABLES && Contents() == map[]
    {
      conn := EMPTY_TABLES;
    }

    method InsertOnchainActivity(activity: OnchainActivity, now: u64) returns (r: Result<(), ActivityError>)
      requires Valid()
      modifies this
      ensures Valid()
      ensures conn == Exec(old(conn), Insert(Onchain(activity), now))
      ensures StepTaken(r, old(Contents()), Contents(), StoreInsert(old(Contents()), Onchain(activity), now))
    {
      InsertRefines(conn, Onchain(activity), now);
      if activity.id == "" {
        return Err(DataError(EmptyId));
      }
      var tx := conn;
      var parent := InsertActivity(tx, activity.id, OnchainType, activity.txType, activity.timestamp, now);
      if parent.Err? {
        return Err(InsertError(Activities, parent.error));
      }
      tx := parent.value;
      var detail := InsertOnchain(tx, activity.id, OnchainRowOf(activity));
      if detail.Err? {
        return Err(InsertError(OnchainTable, detail.error));
      }
      tx := detail.value;
      conn := tx;
      return Ok(());
    }

    method InsertLightningActivity(activity: LightningActivity, now: u64) returns (r: Result<(), ActivityError>)
      requires Valid()
      modifies this
      ensures Valid()
      ensures conn == Exec(old(conn), Insert(Lightning(activity), now))
      ensures StepTaken(r, old(Contents()), Contents(), StoreInsert(old(Contents()), Lightning(activity), now))
    {
      InsertRefines(conn, Lightning(activity), now);
      var tx := conn;
      var parent := InsertActivity(tx, activity.id, LightningType, activity.txType, activity.timestamp, now);
      if parent.Err? {
        return Err(InsertError(Activities, parent.error));
      }
      tx := parent.value;
      var detail := InsertLightning(tx, activity.id, LightningRowOf(activity));
      if detail.Err? {
        return Err(InsertError(LightningTable, detail.error));
      }
      tx := detail.value;
      conn := tx;
      return Ok(());
    }

    method UpdateOnchainActivityById(id: string, activity: OnchainActivity, now: u64)
      returns (r: Result<(), ActivityError>)
      requires Valid()
      modifies this
      ensures Valid()
      ensures conn == Exec(old(conn), Update(id, Onchain(activity), now))
      ensures StepTaken(r, old(Contents()), Contents(), StoreUpdate(old(Contents()), id, Onchain(activity), now))
    {
      UpdateRefines(conn, id, Onchain(activity), now);
      var tx := conn;
      var parent := UpdateActivity(tx, id, OnchainType, activity.txType, activity.timestamp, now);
      if parent.Err? {
        return Err(DataError(StatementFailed(Activities, parent.error)));
      }
      var rows := parent.value.1;
      if rows == 0 {
        return Err(DataError(NoActivityFound));
      }
      tx := parent.value.0;
      var detail := UpdateOnchain(tx, id, OnchainRowOf(activity));
      if detail.Err? {
        return Err(DataError(StatementFailed(OnchainTable, detail.error)));
      }
      tx := detail.value;
      conn := tx;
      return Ok(());
    }

    method UpdateLightningActivityById(id: string, activity: LightningActivity, now: u64)
      returns (r: Result<(), ActivityError>)
      requires Valid()
      modifies this
      ensures Valid()
      ensures conn == Exec(old(conn), Update(id, Lightning(activity), now))
      ensures StepTaken(r, old(Contents()), Contents(), StoreUpdate(old(Contents()), id, Lightning(activity), now))
    {
      UpdateRefines(conn, id, Lightning(activity), now);
      var tx := conn;
      var parent := UpdateActivity(tx, id, LightningType, activity.txType, activity.timestamp, now);
      if parent.Err? {
        return Err(DataError(StatementFailed(Activities, parent.error)));
      }
      var rows := parent.value.1;
      if rows == 0 {
        return Err(DataError(NoActivityFound));
      }
      tx := parent.value.0;
      var detail := UpdateLightning(tx, id, LightningRowOf(activity));
      if detail.Err? {
        return Err(DataError(StatementFailed(LightningTable, detail.error)));
      }
      tx := detail.value;
      conn := tx;
      return Ok(());
    }

    /** Replaces an activity of the same type, inserts when the id is free, and fails with the
        insert's uniqueness error when the id belongs to the other type. */
    method UpsertActivity(activity: Activity, now: u64) returns (r: Result<(), ActivityError>)
      requires Valid()
      modifies this
      ensures Valid()
      ensures conn == Exec(old(conn), Upsert(activity, now))
      ensures StepTaken(r, old(Contents()), Contents(), StoreUpsert(old(Contents()), activity, now))
    {
      match activity {
        case Onchain(onchain) =>
          r := UpdateOnchainActivityById(onchain.id, onchain, now);
          if r == Err(DataError(NoActivityFound)) {
            r := InsertOnchainActivity(onchain, now);
          }
        case Lightning(lightning) =>
          r := UpdateLightningActivityById(lightning.id, lightning, now);
          if r == Err(DataError(NoActivityFound)) {
            r := InsertLightningActivity(lightning, now);
          }
      }
    }

    method DeleteActivityById(id: string) returns (r: Result<bool, ActivityError>)
      requires Valid()
      modifies this
      ensures Valid()
      ensures conn == Exec(old(conn), Delete(id))
      ensures Contents() == StoreDelete(old(Contents()), id)
      ensures r == Ok(id in old(Contents()))
    {
      DeleteRefines(conn, id);
      var tx := conn;
      var (after, rows) := DeleteActivity(tx, id);
      tx := after;
      conn := tx;
      return Ok(rows > 0);
    }

    method AddTags(id: string, tags: seq<string>) returns (r: Result<(), ActivityError>)
      requires Valid()
      modifies this
      ensures Valid()
      ensures conn == Exec(old(conn), Op.AddTags(id, tags))
      ensures StepTaken(r, old(Contents()), Contents(), StoreAddTags(old(Contents()), id, tags))
    {
      AddTagsRefines(conn, id, tags);
      var known := id in conn.activities;
      if !known {
        return Err(DataError(DoesNotExist(id)));
      }
      var tx := conn;
      for i := 0 to |tags|
        invariant conn == old(conn)
        invariant InsertTags(conn, id, tags[..i]) == Ok(tx)
      {
        assert tags[..i + 1][..i] == tags[..i];
        match InsertTag(tx, id, tags[i]) {
          case Err(e) =>
            InsertTagsStopsAtFailure(conn, id, tags, i + 1);
            return Err(DataError(StatementFailed(Tags, e)));
          case Ok(t) =>
            tx := t;
        }
      }
      assert tags[..|tags|] == tags;
      conn := tx;
      return Ok(());
    }

    method RemoveTags(id: string, tags: seq<string>) returns (r: Result<(), ActivityError>)
      requires Valid()
      modifies this
      ensures Valid()
      ensures conn == Exec(old(conn), Op.RemoveTags(id, tags))
      ensures r == Ok(()) && Contents() == StoreRemoveTags(old(Contents()), id, tags)
    {
      RemoveTagsRefines(conn, id, tags);
      var tx := conn;
      for i := 0 to |tags|
        invariant conn == old(conn)
        invariant RemoveTagsTx(conn, id, tags[..i]) == tx
      {
        assert tags[..i + 1][..i] == tags[..i];
        tx := DeleteTag(tx, id, tags[i]);
      }
      assert tags[..|tags|] == tags;
      conn := tx;
      return Ok(());
    }

    /** The result is the limit-prefix of a sorted list of exactly the stored activities the
        arguments describe; `inner` and `outer` are the orders the engine happens to scan in. */
    method GetActivities(filter: Option<ActivityFilter>, txType: Option<PaymentType>, tags: Option<seq<string>>,
                         search: Option<string>, minDate: Option<u64>, maxDate: Option<u64>, limit: Option<u32>,
                         sortDirection: Option<SortDirection>, inner: Scan, outer: Scan)
      returns (r: Result<seq<Activity>, ActivityError>)
      requires Valid() && ScanOf(inner, conn) && ScanOf(outer, conn)
      ensures var q := Query(if filter.Some? then filter.value else AllActivities,
                             txType, tags, search, minDate, maxDate,
                             limit, if sortDirection.Some? then sortDirection.value else Desc);
        if NulFree(q) then
          r.Ok? && Answer(Contents(), q, r.value) && FirstMatches(Contents(), q, r.value, sortDirection == Some(Asc))
        else r == Err(RetrievalError)
    {
      hide Answer, FirstMatches, Prepare, QueryText, Execute, ReadAll, Abs, NulFree;
      var direction := match sortDirection case Some(d) => d case None => Desc;
      var wanted := match filter case Some(f) => f case None => AllActivities;
      var q := Query(wanted, txType, tags, search, minDate, maxDate, limit, direction);
      QueryPlanMeansFilter(conn, q, inner, outer);

      var query := BuildQuery(q.filter, txType, tags, search, minDate, maxDate, limit, direction);
      var prepared := Prepare(query);
      if prepared.None? {
        return Err(RetrievalError);
      }
      r := MapRows(Execute(prepared.value, inner, outer));
      if r.Ok? {
        AnswerIsFirstMatches(Abs(conn), q, r.value);
      }
    }

    /** The loop over the result rows; the first row that cannot be mapped ends it. */
    static method MapRows(rows: seq<Outer2>) returns (r: Result<seq<Activity>, ActivityError>)
      ensures r == ReadAll(rows)
    {
      var activities := [];
      for i := 0 to |rows|
        invariant ReadAll(rows[..i]) == Ok(activities)
      {
        assert rows[..i + 1][..i] == rows[..i];
        match ReadRow(rows[i]) {
          case Err(e) =>
            ReadAllStopsAtFailure(rows, i + 1);
            return Err(e);
          case Ok(activity) =>
            activities := activities + [activity];
        }
      }
      assert rows[..|rows|] == rows;
      return Ok(activities);
    }

    /** Grows the query text, one push per argument given. */
    static method BuildQuery(filter: ActivityFilter, txType: Option<PaymentType>, tags: Option<seq<string>>,
                             search: Option<string>, minDate: Option<u64>, maxDate: Option<u64>,
                             limit: Option<u32>, direction: SortDirection) returns (query: string)
      ensures query == QueryText(Query(filter, txType, tags, search, minDate, maxDate, limit, direction))
    {
      query := "";
      match filter {
        case LightningOnly => query := query + " AND a.activity_type = 'lightning'";
        case OnchainOnly => query := query + " AND a.activity_type = 'onchain'";
        case AllActivities =>
      }
      assert query == TypeClause(filter);
      if txType.Some? {
        query := query + (" AND a.tx_type = '" + PaymentTypeText(txType.value) + "'");
      }
      assert query == TypeClause(filter) + TxTypeClause(txType);
      query := AppendRest(query, tags, search, minDate, maxDate);
      query := query + ")" + " " + DirectionText(direction);
      if limit.Some? {
        query := query + (" LIMIT " + DecimalText(limit.value));
      }
    }

    /** The clauses for tags, dates and search, appended in the order the source pushes them. */
    static method AppendRest(start: string, tags: Option<seq<string>>, search: Option<string>,
                             minDate: Option<u64>, maxDate: Option<u64>) returns (query: string)
      ensures query == start + TagsClause(tags) + MinDateClause(minDate) + MaxDateClause(maxDate) + SearchClause(search)
    {
      query := start;
      if tags.Some? {
        if tags.value != [] {
          query := query + (" AND t.tag IN (" + JoinQuoted(tags.value) + ")");
        }
      }
      assert query == start + TagsClause(tags);
      if minDate.Some? {
        query := query + (" AND a.timestamp >= " + DecimalText(minDate.value));
      }
      assert query == start + TagsClause(tags) + MinDateClause(minDate);
      if maxDate.Some? {
        query := query + (" AND a.timestamp <= " + DecimalText(maxDate.value));
      }
      assert query == start + TagsClause(tags) + MinDateClause(minDate) + MaxDateClause(maxDate);
      if search.Some? {
        if search.value != "" {
          var pattern := "%" + Escape(search.value) + "%";
          query := query + (" AND (" + LikeText("o.address", pattern, " OR") + LikeText("l.invoice", pattern, " OR")
                            + LikeText("l.message", pattern, OUTDENT + ")"));
        }
      }
    }

    method GetActivityById(id: string) returns (r: Result<Option<Activity>, ActivityError>)
      requires Valid()
      ensures r == Ok(if id in Contents() then Some(Contents()[id].activity) else None)
    {
      GetByIdIsLookup(conn, id);
      r := GetById(conn, id);
    }

    method GetActivitiesByTag(tag: string, limit: Option<u32>, sortDirection: Option<SortDirection>, scan: Scan)
      returns (r: Result<seq<Activity>, ActivityError>)
      requires Valid() && ScanOf(scan, conn)
      ensures r.Ok?
      ensures var direction := if sortDirection.Some? then sortDirection.value else Desc;
        && Answer(Contents(), TagQuery(tag, limit, direction), r.value)
        && FirstMatches(Contents(), TagQuery(tag, limit, direction), r.value, sortDirection == Some(Asc))
    {
      hide GetById, TaggedRows, Answer, Abs;
      var direction := match sortDirection case Some(d) => d case None => Desc;
      TagLookupAnswers(conn, scan, tag, limit, direction);
      AnswerIsFirstMatches(Abs(conn), TagQuery(tag, limit, direction),
        ActivityQueryPlan.GetActivitiesByTag(conn, scan, tag, limit, direction).value);
      var rows := TaggedRows(scan, tag, direction, limit);
      var activities := [];
      for i := 0 to |rows|
        invariant LookUpAll(conn, rows[..i]) == Ok(activities)
      {
        assert rows[..i + 1][..i] == rows[..i];
        var found := GetById(conn, rows[i].0.0);
        match found {
          case Err(e) =>
            LookUpAllStopsAtFailure(conn, rows, i + 1);
            return Err(e);
          case Ok(None) =>
          case Ok(Some(activity)) =>
            activities := activities + [activity];
        }
      }
      assert rows[..|rows|] == rows;
      return Ok(activities);
    }
  }

  /** A row loop that fails at one row fails as a whole with that error. */
  lemma {:induction false} ReadAllStopsAtFailure(rows: seq<Outer2>, n: nat)
    requires n <= |rows| && ReadAll(rows[..n]).Err?
    ensures ReadAll(rows) == ReadAll(rows[..n])
    decreases |rows| - n
  {
    if n == |rows| {
      assert rows[..n] == rows;
    } else {
      assert rows[..n + 1][..n] == rows[..n];
      ReadAllStopsAtFailure(rows, n + 1);
    }
  }

  lemma {:induction false} LookUpAllStopsAtFailure(t: Tables, rows: seq<(ParentRec, TagRec)>, n: nat)
    requires n <= |rows| && LookUpAll(t, rows[..n]).Err?
    ensures LookUpAll(t, rows) == LookUpAll(t, rows[..n])
    decreases |rows| - n
  {
    if n == |rows| {
      assert rows[..n] == rows;
    } else {
      assert rows[..n + 1][..n] == rows[..n];
      LookUpAllStopsAtFailure(t, rows, n + 1);
    }
  }

  /** A tag loop that fails at one tag fails as a whole with that error. */
  lemma {:induction false} InsertTagsStopsAtFailure(t: Tables, id: string, tags: seq<string>, n: nat)
    requires n <= |tags| && InsertTags(t, id, tags[..n]).Err?
    ensures InsertTags(t, id, tags) == InsertTags(t, id, tags[..n])
    decreases |tags| - n
  {
    if n == |tags| {
      assert tags[..n] == tags;
    } else {
      assert tags[..n + 1][..n] == tags[..n];
      InsertTagsStopsAtFailure(t, id, tags, n + 1);
    }
  }
}
