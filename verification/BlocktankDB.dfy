/** BlocktankDB: the methods that fetch from the server and store what it answers. The answer to
    each request is an argument; nothing is assumed about it. */
module BlocktankDatabase {
  import opened Common
  import opened BlocktankCache
  import opened BlocktankQuery

  type Order = Row<OrderState2>
  type CJitEntry = Row<CJitState>

  // ----- what a SELECT hands out -----

  /** The ids of a table in the order the engine happens to scan it. */
  ghost predicate ScanOf<S>(scan: seq<string>, table: Table<S>) {
    && (forall id :: id in scan <==> id in table)
    && (forall i, j :: 0 <= i < j < |scan| ==> scan[i] != scan[j])
  }

  predicate Wanted<S(==)>(r: Row<S>, ids: Option<seq<string>>, filter: Option<S>) {
    (ids.Some? ==> r.id in ids.value) && (filter.Some? ==> r.state == filter.value)
  }

  ghost predicate NewestFirst<S>(rows: seq<Row<S>>) {
    forall i, j :: 0 <= i < j < |rows| ==> AtMostText(rows[j].createdAt, rows[i].createdAt)
  }

  ghost predicate OneRowPerId<S>(rows: seq<Row<S>>) {
    forall i, j :: 0 <= i < j < |rows| ==> rows[i].id != rows[j].id
  }

  function InsertByAge<S>(r: Row<S>, rows: seq<Row<S>>): seq<Row<S>> {
    if rows == [] || AtMostText(rows[0].createdAt, r.createdAt) then [r] + rows
    else [rows[0]] + InsertByAge(r, rows[1..])
  }

  lemma {:induction false} InsertedRows<S>(r: Row<S>, rows: seq<Row<S>>, x: Row<S>)
    ensures x in InsertByAge(r, rows) <==> x == r || x in rows
  {
    if rows == [] || AtMostText(rows[0].createdAt, r.createdAt) {
    } else {
      InsertedRows(r, rows[1..], x);
      assert rows == [rows[0]] + rows[1..];
    }
  }

  lemma {:induction false} InsertedNewestFirst<S>(r: Row<S>, rows: seq<Row<S>>)
    requires NewestFirst(rows)
    ensures NewestFirst(InsertByAge(r, rows))
  {
    if rows == [] {
    } else if AtMostText(rows[0].createdAt, r.createdAt) {
      forall j | 0 <= j < |rows|
        ensures AtMostText(rows[j].createdAt, r.createdAt)
      {
        if j > 0 {
          TextTransitive(rows[j].createdAt, rows[0].createdAt, r.createdAt);
        }
      }
    } else {
      var rest := InsertByAge(r, rows[1..]);
      InsertedNewestFirst(r, rows[1..]);
      TextTotal(rows[0].createdAt, r.createdAt);
      forall j | 0 <= j < |rest|
        ensures AtMostText(rest[j].createdAt, rows[0].createdAt)
      {
        InsertedRows(r, rows[1..], rest[j]);
      }
    }
  }

  lemma {:induction false} InsertedOnce<S>(r: Row<S>, rows: seq<Row<S>>)
    requires OneRowPerId(rows) && forall x :: x in rows ==> x.id != r.id
    ensures OneRowPerId(InsertByAge(r, rows))
  {
    if rows == [] || AtMostText(rows[0].createdAt, r.createdAt) {
    } else {
      var rest := InsertByAge(r, rows[1..]);
      assert rows[0] in rows;
      InsertedOnce(r, rows[1..]);
      forall j | 0 <= j < |rest|
        ensures rest[j].id != rows[0].id
      {
        InsertedRows(r, rows[1..], rest[j]);
      }
    }
  }

  /** SELECT ... WHERE wanted ORDER BY created_at DESC. */
  method SelectRows<S>(table: Table<S>, scan: seq<string>, wanted: Row<S> -> bool) returns (rows: seq<Row<S>>)
    requires Keyed(table) && ScanOf(scan, table)
    ensures forall r :: r in rows <==> r.id in table && table[r.id] == r && wanted(r)
    ensures OneRowPerId(rows) && NewestFirst(rows)
  {
    rows := [];
    for i := 0 to |scan|
      invariant forall r :: r in rows <==> r.id in scan[..i] && table[r.id] == r && wanted(r)
      invariant OneRowPerId(rows) && NewestFirst(rows)
    {
      assert scan[..i + 1] == scan[..i] + [scan[i]];
      var row := table[scan[i]];
      if wanted(row) {
        forall r
          ensures r in InsertByAge(row, rows) <==> r == row || r in rows
        {
          InsertedRows(row, rows, r);
        }
        InsertedNewestFirst(row, rows);
        InsertedOnce(row, rows);
        rows := InsertByAge(row, rows);
      }
    }
    assert scan[..|scan|] == scan;
  }

  function Ids<S>(rows: seq<Row<S>>): (ids: seq<string>)
    ensures |ids| == |rows|
    ensures forall i :: 0 <= i < |rows| ==> ids[i] == rows[i].id
  {
    seq(|rows|, i requires 0 <= i < |rows| => rows[i].id)
  }

  lemma IdsOfRows<S>(rows: seq<Row<S>>, id: string)
    ensures id in Ids(rows) <==> exists r :: r in rows && r.id == id
  {
    if id in Ids(rows) {
      var i :| 0 <= i < |rows| && Ids(rows)[i] == id;
      assert rows[i] in rows;
    }
  }

  /** Each distinct state is stored as its own text. */
  lemma StateTextsDiffer()
    ensures forall a, b :: OrderState2Text(a) == OrderState2Text(b) ==> a == b
    ensures forall a, b :: CJitStateText(a) == CJitStateText(b) ==> a == b
  {
    assert "Created"[0] == 'C' && "Expired"[2] == 'p' && "Executed"[2] == 'e' && "Paid"[0] == 'P';
    assert "Completed"[1] == 'o' && "Created"[1] == 'r' && "Failed"[0] == 'F' && "Expired"[0] == 'E';
  }

  lemma ColumnsAreNames()
    ensures ColumnName("state2") && ColumnName("state") && "state2" != "id" && "state" != "id"
  {
  }

  class BlocktankDB {
    var orders: Table<OrderState2>
    var cjitEntries: Table<CJitState>
    var info: InfoTable

    ghost predicate Valid()
      reads this
    {
      Keyed(orders) && Keyed(cjitEntries) && AtMostOneCurrent(info)
    }

    constructor ()
      ensures Valid() && orders == map[] && cjitEntries == map[] && info == map[]
    {
      orders, cjitEntries, info := map[], map[], map[];
    }

    method UpsertOrder(order: Order) returns (r: Result<(), CacheError>)
      requires Valid()
      modifies this`orders
      ensures Valid() && orders == Stored(old(orders), order)
      ensures r == if Storable(order) then Ok(()) else Err(InsertError)
      ensures r.Ok? <==> (forall n :: n in order.amounts ==> n <= MAX_I64)
                         && (forall n :: n in order.positives ==> 0 < n <= MAX_I64)
      ensures orders == if r.Ok? then old(orders)[order.id := order] else old(orders)
    {
      StorableMeans(order);
      match Upsert(orders, order) {
        case Err(e) => return Err(e);
        case Ok(m) => orders := m;
      }
      return Ok(());
    }

    /** create_and_store_order and open_channel: one order from the server, stored or reported. */
    method StoreAnsweredOrder(answer: Option<Order>) returns (r: Result<Order, CacheError>)
      requires Valid()
      modifies this`orders
      ensures Valid() && orders == Perform(old(orders), CreateOrOpen(answer))
      ensures orders == if r.Ok? then old(orders)[r.value.id := r.value] else old(orders)
      ensures r == if answer.None? then Err(DataError)
                   else if Storable(answer.value) then Ok(answer.value) else Err(InsertError)
    {
      if answer.None? {
        return Err(DataError);
      }
      var stored := UpsertOrder(answer.value);
      match stored {
        case Err(e) => return Err(e);
        case Ok(_) => return Ok(answer.value);
      }
    }

    /** Stores the answered orders one by one; failing at the k-th leaves the first k-1 stored. */
    method RefreshOrders(response: Response<OrderState2>) returns (r: Result<seq<Order>, CacheError>)
      requires Valid()
      modifies this`orders
      ensures Valid() && (orders, r) == RefreshOutcome(old(orders), response)
      ensures Refreshed(old(orders), response, orders, r)
    {
      OutcomeIsRefreshed(orders, response);
      if response.None? {
        return Err(DataError);
      }
      var rows := response.value;
      assert rows[0..] == rows;
      for i := 0 to |rows|
        invariant Valid()
        invariant ApplyAll(orders, StorablePrefix(rows[i..])) == ApplyAll(old(orders), StorablePrefix(rows))
        invariant |StorablePrefix(rows)| == i + |StorablePrefix(rows[i..])|
      {
        assert rows[i..][0] == rows[i] && rows[i..][1..] == rows[i + 1..];
        var before := orders;
        var stored := UpsertOrder(rows[i]);
        if stored.Err? {
          return Err(stored.error);
        }
        StorableHead(before, rows[i..]);
      }
      return Ok(rows);
    }

    /** Grows the query text and the parameters together, clause by clause. */
    static method BuildSelect(column: string, ids: Option<seq<string>>, state: Option<string>)
      returns (query: string, params: seq<string>)
      requires ColumnName(column) && column != "id"
      ensures query == SelectText(column, ids, state) && params == SelectParams(ids, state)
      ensures Understood(column, query, params) == Some(Selection(ids, state))
    {
      query, params := "", [];
      if ids.Some? {
        query := query + " AND id IN (";
        query := query + Marks(|ids.value|);
        query := query + ")";
        params := params + ids.value;
      }
      assert query == IdClause(ids) && params == if ids.Some? then ids.value else [];
      if state.Some? {
        query := query + (" AND " + column + " = ?");
        params := params + [state.value];
      }
      assert query == IdClause(ids) + StateClause(column, state) && params == SelectParams(ids, state);
      query := query + " ORDER BY created_at DESC";
      SelectMeans(column, ids, state);
    }

    /** The stored orders with one of the ids, if ids are given, and in the state, if one is given:
        each once, the newest first. An empty list of ids selects none. */
    method GetOrders(ids: Option<seq<string>>, filter: Option<OrderState2>, scan: seq<string>)
      returns (r: Result<seq<Order>, CacheError>)
      requires Valid() && ScanOf(scan, orders)
      ensures r.Ok?
      ensures forall x :: x in r.value <==> x.id in orders && orders[x.id] == x && Wanted(x, ids, filter)
      ensures OneRowPerId(r.value) && NewestFirst(r.value)
    {
      ColumnsAreNames();
      StateTextsDiffer();
      var state := match filter case None => None case Some(f) => Some(OrderState2Text(f));
      var query, params := BuildSelect("state2", ids, state);
      match Understood("state2", query, params) {
        case None => return Err(DatabaseError);
        case Some(selection) =>
          var rows := SelectRows(orders, scan, (x: Order) =>
            (selection.ids.Some? ==> x.id in selection.ids.value)
            && (selection.state.Some? ==> OrderState2Text(x.state) == selection.state.value));
          return Ok(rows);
      }
    }

    method GetCJitEntries(ids: Option<seq<string>>, filter: Option<CJitState>, scan: seq<string>)
      returns (r: Result<seq<CJitEntry>, CacheError>)
      requires Valid() && ScanOf(scan, cjitEntries)
      ensures r.Ok?
      ensures forall x :: x in r.value <==> x.id in cjitEntries && cjitEntries[x.id] == x && Wanted(x, ids, filter)
      ensures OneRowPerId(r.value) && NewestFirst(r.value)
    {
      ColumnsAreNames();
      StateTextsDiffer();
      var state := match filter case None => None case Some(f) => Some(CJitStateText(f));
      var query, params := BuildSelect("state", ids, state);
      match Understood("state", query, params) {
        case None => return Err(DatabaseError);
        case Some(selection) =>
          var rows := SelectRows(cjitEntries, scan, (x: CJitEntry) =>
            (selection.ids.Some? ==> x.id in selection.ids.value)
            && (selection.state.Some? ==> CJitStateText(x.state) == selection.state.value));
          return Ok(rows);
      }
    }

    /** The orders whose state2 is Created or Paid: each once, the newest first. */
    method GetActiveOrders(scan: seq<string>) returns (rows: seq<Order>)
      requires Valid() && ScanOf(scan, orders)
      ensures forall x :: x in rows <==> x.id in orders && orders[x.id] == x && x.state in {OrderCreated, OrderPaid}
      ensures OneRowPerId(rows) && NewestFirst(rows)
    {
      rows := SelectRows(orders, scan, (x: Order) => OrderState2Text(x.state) in ["Created", "Paid"]);
      ActiveOrderTexts();
    }

    /** Asks for exactly the active orders, and for nothing when there are none. `answer` is what the
        server says when asked for a list of ids. When finished orders stay what they are and what is
        returned holds the server's state of every active order, all stored orders are then current. */
    method RefreshActiveOrders(scan: seq<string>, answer: seq<string> -> Response<OrderState2>)
      returns (r: Result<seq<Order>, CacheError>, ghost asked: seq<string>)
      requires Valid() && ScanOf(scan, orders)
      modifies this`orders
      ensures Valid()
      ensures forall id :: id in asked <==> id in old(orders) && old(orders)[id].state in {OrderCreated, OrderPaid}
      ensures (orders, r) == if asked == [] then (old(orders), Ok([])) else RefreshOutcome(old(orders), answer(asked))
      ensures asked != [] ==> Refreshed(old(orders), answer(asked), orders, r)
      ensures r.Ok? ==> forall history, at |
        TerminalIsFinal(history, ActiveOrder) && RowsAreVersions(old(orders), history, at) &&
        AnswersActive(old(orders), r.value, ActiveOrder, history, at) :: IsCurrent(orders, history, at)
    {
      var rows := GetActiveOrders(scan);
      var ids := Ids(rows);
      asked := ids;
      forall id
        ensures id in ids <==> id in orders && ActiveOrder(orders[id].state)
      {
        IdsOfRows(rows, id);
        if id in orders && ActiveOrder(orders[id].state) {
          assert orders[id] in rows;
        }
      }
      if rows == [] {
        r := Ok([]);
      } else {
        r := RefreshOrders(answer(ids));
      }
      forall history, at |
        TerminalIsFinal(history, ActiveOrder) && RowsAreVersions(old(orders), history, at) && r.Ok? &&
        AnswersActive(old(orders), r.value, ActiveOrder, history, at)
        ensures IsCurrent(orders, history, at)
      {
        ActiveOrderRefreshSuffices(old(orders), r.value, history, at);
      }
    }

    method UpsertCJitEntry(entry: CJitEntry) returns (r: Result<(), CacheError>)
      requires Valid()
      modifies this`cjitEntries
      ensures Valid() && cjitEntries == Stored(old(cjitEntries), entry)
      ensures r == if Storable(entry) then Ok(()) else Err(InsertError)
      ensures cjitEntries == if r.Ok? then old(cjitEntries)[entry.id := entry] else old(cjitEntries)
    {
      match Upsert(cjitEntries, entry) {
        case Err(e) => return Err(e);
        case Ok(m) => cjitEntries := m;
      }
      return Ok(());
    }

    method RefreshCJitEntry(answer: Option<CJitEntry>) returns (r: Result<CJitEntry, CacheError>)
      requires Valid()
      modifies this`cjitEntries
      ensures Valid() && cjitEntries == Perform(old(cjitEntries), CreateOrOpen(answer))
      ensures cjitEntries == if r.Ok? then old(cjitEntries)[r.value.id := r.value] else old(cjitEntries)
      ensures r == if answer.None? then Err(DataError)
                   else if Storable(answer.value) then Ok(answer.value) else Err(InsertError)
    {
      if answer.None? {
        return Err(DataError);
      }
      var stored := UpsertCJitEntry(answer.value);
      match stored {
        case Err(e) => return Err(e);
        case Ok(_) => return Ok(answer.value);
      }
    }

    /** Asks for each active entry in turn; a fetch or store that fails is skipped and leaves that
        entry's old row. `answer` is what the server says when asked for an id. When finished entries
        stay what they are and what is returned holds the server's state of every active entry, all
        stored entries are then current. */
    method RefreshActiveCJitEntries(scan: seq<string>, answer: string -> Option<CJitEntry>)
      returns (refreshed: seq<CJitEntry>, ghost asked: seq<string>)
      requires Valid() && ScanOf(scan, cjitEntries)
      modifies this`cjitEntries
      ensures Valid()
      ensures forall id ::
        id in asked <==> id in old(cjitEntries) && old(cjitEntries)[id].state in {CJitCreated, CJitFailed}
      ensures cjitEntries == Perform(old(cjitEntries), RefreshEach(Answers(asked, answer)))
      ensures refreshed == StorableAnswers(Answers(asked, answer))
      ensures forall x :: x in refreshed <==> Storable(x) && exists id :: id in asked && answer(id) == Some(x)
      ensures ReplacedBy(old(cjitEntries), refreshed, cjitEntries)
      ensures forall history, at |
        TerminalIsFinal(history, ActiveCJit) && RowsAreVersions(old(cjitEntries), history, at) &&
        AnswersActive(old(cjitEntries), refreshed, ActiveCJit, history, at) :: IsCurrent(cjitEntries, history, at)
    {
      var rows := GetActiveCJitEntries(scan);
      var ids := Ids(rows);
      asked := ids;
      forall id
        ensures id in ids <==> id in cjitEntries && ActiveCJit(cjitEntries[id].state)
      {
        IdsOfRows(rows, id);
        if id in cjitEntries && ActiveCJit(cjitEntries[id].state) {
          assert cjitEntries[id] in rows;
        }
      }
      refreshed := RefreshEachEntry(ids, answer);
      AnsweredRows(old(cjitEntries), asked, answer);
      forall history, at |
        TerminalIsFinal(history, ActiveCJit) && RowsAreVersions(old(cjitEntries), history, at) &&
        AnswersActive(old(cjitEntries), refreshed, ActiveCJit, history, at)
        ensures IsCurrent(cjitEntries, history, at)
      {
        ActiveCJitRefreshSuffices(old(cjitEntries), Answers(asked, answer), history, at);
      }
    }

    method RefreshEachEntry(ids: seq<string>, answer: string -> Option<CJitEntry>) returns (refreshed: seq<CJitEntry>)
      requires Valid()
      modifies this`cjitEntries
      ensures Valid()
      ensures cjitEntries == Perform(old(cjitEntries), RefreshEach(Answers(ids, answer)))
      ensures refreshed == StorableAnswers(Answers(ids, answer))
    {
      hide Storable, StorableAnswers, StoreEach, Answers, Keyed;
      refreshed := [];
      assert ids[0..] == ids;
      for i := 0 to |ids|
        invariant Valid()
        invariant StoreEach(cjitEntries, Answers(ids[i..], answer)) == StoreEach(old(cjitEntries), Answers(ids, answer))
        invariant refreshed + StorableAnswers(Answers(ids[i..], answer)) == StorableAnswers(Answers(ids, answer))
      {
        AnswersStep(cjitEntries, ids, i, answer);
        var entry := RefreshCJitEntry(answer(ids[i]));
        if entry.Err? {
          continue;
        }
        refreshed := refreshed + [entry.value];
      }
      NoAnswers(cjitEntries, ids, answer);
    }

    /** The entries whose state is Created or Failed: each once, the newest first. */
    method GetActiveCJitEntries(scan: seq<string>) returns (rows: seq<CJitEntry>)
      requires Valid() && ScanOf(scan, cjitEntries)
      ensures forall x ::
        x in rows <==> x.id in cjitEntries && cjitEntries[x.id] == x && x.state in {CJitCreated, CJitFailed}
      ensures OneRowPerId(rows) && NewestFirst(rows)
    {
      rows := SelectRows(cjitEntries, scan, (x: CJitEntry) => CJitStateText(x.state) in ["Created", "Failed"]);
      ActiveCJitTexts();
    }

    /** The clearing UPDATE and the INSERT are separate statements; each may fail. */
    method UpsertInfo(newInfo: Info, fault: InfoFault) returns (r: Result<(), CacheError>)
      requires Valid()
      modifies this`info
      ensures Valid()
      ensures (info, r) == UpsertInfoOutcome(old(info), InfoCall.UpsertInfo(newInfo, fault))
      ensures r.Ok? ==> CurrentInfo(info) == Some(newInfo)
    {
      UpsertInfoEffect(info, InfoCall.UpsertInfo(newInfo, fault));
      if fault == UpdateFails {
        return Err(DatabaseError);
      }
      info := ClearCurrent(info);
      if fault == InsertFails {
        return Err(InsertError);
      }
      info := InsertInfo(info, newInfo.version, InfoRow(newInfo.content, true));
      return Ok(());
    }

    /** Any current row is the current info, because there is at most one. */
    method GetInfo(scan: seq<u32>) returns (r: Option<Info>)
      requires Valid() && forall v :: v in scan <==> v in info
      ensures r == CurrentInfo(info)
    {
      for i := 0 to |scan|
        invariant forall v :: v in scan[..i] ==> !info[v].isCurrent
      {
        if info[scan[i]].isCurrent {
          return Some(Info(scan[i], info[scan[i]].content));
        }
      }
      assert scan[..|scan|] == scan;
      return None;
    }
  }

  lemma ActiveOrderTexts()
    ensures forall s :: OrderState2Text(s) in ["Created", "Paid"] <==> ActiveOrder(s)
  {
    StateTextsDiffer();
    assert OrderState2Text(OrderCreated) == "Created" && OrderState2Text(OrderPaid) == "Paid";
  }

  lemma ActiveCJitTexts()
    ensures forall s :: CJitStateText(s) in ["Created", "Failed"] <==> ActiveCJit(s)
  {
    StateTextsDiffer();
    assert CJitStateText(CJitCreated) == "Created" && CJitStateText(CJitFailed) == "Failed";
  }

  /** The server's answers to a sequence of requests. */
  function Answers(ids: seq<string>, answer: string -> Option<CJitEntry>): (answers: seq<Option<CJitEntry>>)
    ensures |answers| == |ids|
  {
    seq(|ids|, i requires 0 <= i < |ids| => answer(ids[i]))
  }

  lemma AnswersStep(m: Table<CJitState>, ids: seq<string>, i: nat, answer: string -> Option<CJitEntry>)
    requires i < |ids|
    ensures StoreEach(m, Answers(ids[i..], answer))
         == StoreEach(Perform(m, CreateOrOpen(answer(ids[i]))), Answers(ids[i + 1..], answer))
    ensures StorableAnswers(Answers(ids[i..], answer))
         == (if answer(ids[i]).Some? && Storable(answer(ids[i]).value) then [answer(ids[i]).value] else [])
            + StorableAnswers(Answers(ids[i + 1..], answer))
  {
    hide Storable;
    assert Answers(ids[i..], answer)[0] == answer(ids[i]);
    assert Answers(ids[i..], answer)[1..] == Answers(ids[i + 1..], answer);
  }

  lemma {:induction false} StoredAnswers<S>(answers: seq<Option<Row<S>>>, x: Row<S>)
    ensures x in StorableAnswers(answers) <==> Storable(x) && exists i :: 0 <= i < |answers| && answers[i] == Some(x)
  {
    hide Storable;
    if answers == [] {
    } else {
      StoredAnswers(answers[1..], x);
      if i :| 0 <= i < |answers[1..]| && answers[1..][i] == Some(x) {
        assert answers[i + 1] == Some(x);
      }
      if i :| 0 < i < |answers| && answers[i] == Some(x) {
        assert answers[1..][i - 1] == Some(x);
      }
    }
  }

  /** What is returned are the storable answers, and they are what changes in the table. */
  lemma AnsweredRows(m: Table<CJitState>, asked: seq<string>, answer: string -> Option<CJitEntry>)
    ensures var refreshed, m' := StorableAnswers(Answers(asked, answer)), StoreEach(m, Answers(asked, answer));
      && (forall x :: x in refreshed <==> Storable(x) && exists id :: id in asked && answer(id) == Some(x))
      && ReplacedBy(m, refreshed, m')
  {
    hide Storable, StorableAnswers, StoreEach, ApplyAll, ReplacedBy;
    var answers := Answers(asked, answer);
    var refreshed := StorableAnswers(answers);
    StoreEachIsApply(m, answers);
    forall x
      ensures x in refreshed <==> Storable(x) && exists id :: id in asked && answer(id) == Some(x)
    {
      StoredAnswers(answers, x);
      if id :| id in asked && answer(id) == Some(x) {
        var i :| 0 <= i < |asked| && asked[i] == id;
        assert answers[i] == Some(x);
      }
    }
    AppliedRows(m, refreshed);
  }

  lemma NoAnswers(m: Table<CJitState>, ids: seq<string>, answer: string -> Option<CJitEntry>)
    ensures StoreEach(m, Answers(ids[|ids|..], answer)) == m && StorableAnswers(Answers(ids[|ids|..], answer)) == []
  {
  }

  /** A storable first row is applied before the rest of the prefix. */
  lemma StorableHead<S>(m: Table<S>, rows: seq<Row<S>>)
    requires rows != [] && Storable(rows[0])
    ensures |StorablePrefix(rows)| == 1 + |StorablePrefix(rows[1..])|
    ensures ApplyAll(m, StorablePrefix(rows)) == ApplyAll(m[rows[0].id := rows[0]], StorablePrefix(rows[1..]))
  {
  }
}
