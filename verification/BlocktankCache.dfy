/** The local mirror of Blocktank orders, CJIT entries and service info: what is stored, in terms
    of what the server has answered. */
module BlocktankCache {
  import opened Common

  // ----- rows -----

  /** A row of `orders` or `cjit_entries`. For orders the amounts are fee, network fee, service fee
      and client balance, the positives LSP balance and expiry weeks; for CJIT entries the amounts
      are the three fees, the positives channel size and expiry weeks. */
  datatype Row<S> = Row(
    id: string, state: S, amounts: seq<u64>, positives: seq<u64>, createdAt: string, others: string)

  datatype OrderState2 = OrderCreated | OrderExpired | OrderExecuted | OrderPaid

  datatype CJitState = CJitCreated | CJitCompleted | CJitExpired | CJitFailed

  /** The text a state is stored as. */
  function OrderState2Text(s: OrderState2): string {
    match s
    case OrderCreated => "Created"
    case OrderExpired => "Expired"
    case OrderExecuted => "Executed"
    case OrderPaid => "Paid"
  }

  function CJitStateText(s: CJitState): string {
    match s
    case CJitCreated => "Created"
    case CJitCompleted => "Completed"
    case CJitExpired => "Expired"
    case CJitFailed => "Failed"
  }

  datatype CacheError = DataError | InsertError | DatabaseError

  type Table<S> = map<string, Row<S>>

  /** Bound integers fit 64 signed bits and the table's CHECKs hold. */
  predicate Storable<S>(r: Row<S>) {
    && (forall i :: 0 <= i < |r.amounts| ==> r.amounts[i] <= MAX_I64)
    && (forall i :: 0 <= i < |r.positives| ==> 0 < r.positives[i] <= MAX_I64)
  }

  lemma StorableMeans<S>(r: Row<S>)
    ensures Storable(r)
      <==> (forall n :: n in r.amounts ==> n <= MAX_I64) && (forall n :: n in r.positives ==> 0 < n <= MAX_I64)
  {
    if forall n :: n in r.positives ==> 0 < n <= MAX_I64 {
      forall i | 0 <= i < |r.positives|
        ensures 0 < r.positives[i] <= MAX_I64
      {
        assert r.positives[i] in r.positives;
      }
    }
    if forall n :: n in r.amounts ==> n <= MAX_I64 {
      forall i | 0 <= i < |r.amounts|
        ensures r.amounts[i] <= MAX_I64
      {
        assert r.amounts[i] in r.amounts;
      }
    }
  }

  /** INSERT OR REPLACE: a failed CHECK aborts the statement and keeps the old row. */
  function Upsert<S>(m: Table<S>, r: Row<S>): Result<Table<S>, CacheError> {
    if Storable(r) then Ok(m[r.id := r]) else Err(InsertError)
  }

  function Stored<S>(m: Table<S>, r: Row<S>): Table<S> {
    match Upsert(m, r) case Ok(m') => m' case Err(_) => m
  }

  // ----- refreshing -----

  /** The rows a refresh stores before it stops at one it cannot. */
  function StorablePrefix<S>(rows: seq<Row<S>>): seq<Row<S>> {
    if rows == [] || !Storable(rows[0]) then [] else [rows[0]] + StorablePrefix(rows[1..])
  }

  /** Later rows win. */
  function ApplyAll<S>(m: Table<S>, log: seq<Row<S>>): Table<S>
    decreases |log|
  {
    if log == [] then m else ApplyAll(m[log[0].id := log[0]], log[1..])
  }

  /** The server's answer to one fetch of orders, or its failure. */
  type Response<S> = Option<seq<Row<S>>>

  function RefreshOutcome<S>(m: Table<S>, response: Response<S>): (Table<S>, Result<seq<Row<S>>, CacheError>) {
    match response
    case None => (m, Err(DataError))
    case Some(rows) =>
      var stored := StorablePrefix(rows);
      (ApplyAll(m, stored), if |stored| == |rows| then Ok(rows) else Err(InsertError))
  }

  /** What a caller sees of a refresh. Without a response it fails and changes nothing; otherwise it
      succeeds with the answered rows when each of them can be stored, and else fails with exactly
      the rows before the first it cannot store applied. */
  ghost predicate Refreshed<S(!new)>(before: Table<S>, response: Response<S>, after: Table<S>,
                                     r: Result<seq<Row<S>>, CacheError>) {
    && (r.Ok? <==> response.Some? && forall row :: row in response.value ==> Storable(row))
    && (response.None? ==> r == Err(DataError) && after == before)
    && (r.Ok? ==> r.value == response.value && after == ApplyAll(before, r.value))
    && (response.Some? && r.Err? ==> r == Err(InsertError) && exists k ::
          FirstUnstorable(response.value, k) && after == ApplyAll(before, response.value[..k]))
  }

  ghost predicate FirstUnstorable<S>(rows: seq<Row<S>>, k: int) {
    0 <= k < |rows| && !Storable(rows[k]) && forall i :: 0 <= i < k ==> Storable(rows[i])
  }

  lemma OutcomeIsRefreshed<S(!new)>(m: Table<S>, response: Response<S>)
    ensures Refreshed(m, response, RefreshOutcome(m, response).0, RefreshOutcome(m, response).1)
  {
    hide Storable, ApplyAll;
    if response.Some? {
      var rows := response.value;
      var k := |StorablePrefix(rows)|;
      AllStorable(rows);
      assert rows[..|rows|] == rows;
      if k < |rows| {
        assert FirstUnstorable(rows, k);
        assert rows[k] in rows;
      } else {
        assert StorablePrefix(rows) == rows;
      }
    }
  }

  predicate ActiveOrder(s: OrderState2) { s == OrderCreated || s == OrderPaid }

  predicate ActiveCJit(s: CJitState) { s == CJitCreated || s == CJitFailed }

  /** The entries a CJIT refresh stores: fetches that failed and rows that cannot be stored are
      skipped. */
  function StorableAnswers<S>(answers: seq<Option<Row<S>>>): seq<Row<S>> {
    if answers == [] then []
    else
      (if answers[0].Some? && Storable(answers[0].value) then [answers[0].value] else [])
      + StorableAnswers(answers[1..])
  }

  // ----- the log -----

  function LastVersion<S>(log: seq<Row<S>>, id: string): Option<Row<S>> {
    if log == [] then None
    else if log[|log| - 1].id == id then Some(log[|log| - 1])
    else LastVersion(log[..|log| - 1], id)
  }

  lemma {:induction false} ApplyAllConcat<S>(m: Table<S>, a: seq<Row<S>>, b: seq<Row<S>>)
    ensures ApplyAll(m, a + b) == ApplyAll(ApplyAll(m, a), b)
    decreases |a|
  {
    if a == [] {
      assert a + b == b;
    } else {
      assert (a + b)[1..] == a[1..] + b;
      ApplyAllConcat(m[a[0].id := a[0]], a[1..], b);
    }
  }

  /** A row of the table is the last version in the log that names its id; ids the log does not
      name keep their rows. */
  lemma {:induction false} RowIsLastVersion<S>(m: Table<S>, log: seq<Row<S>>, id: string)
    ensures id in ApplyAll(m, log) <==> id in m || LastVersion(log, id).Some?
    ensures id in ApplyAll(m, log) ==>
      ApplyAll(m, log)[id] == match LastVersion(log, id) case Some(r) => r case None => m[id]
    decreases |log|
  {
    if log == [] {
    } else {
      var init, last := log[..|log| - 1], log[|log| - 1];
      assert log == init + [last];
      ApplyAllConcat(m, init, [last]);
      assert ApplyAll(ApplyAll(m, init), [last]) == ApplyAll(m, init)[last.id := last];
      RowIsLastVersion(m, init, id);
    }
  }

  /** A call that stores rows, with what the server answered. */
  datatype Call<S> =
    | CreateOrOpen(answer: Option<Row<S>>)          // create_and_store_order, open_channel, refresh_cjit_entry
    | Refresh(response: Response<S>)                // refresh_orders
    | RefreshEach(answers: seq<Option<Row<S>>>)     // refresh_active_cjit_entries

  function StoredBy<S>(c: Call<S>): seq<Row<S>> {
    match c
    case CreateOrOpen(a) => if a.Some? && Storable(a.value) then [a.value] else []
    case Refresh(response) => if response.Some? then StorablePrefix(response.value) else []
    case RefreshEach(answers) => StorableAnswers(answers)
  }

  function Perform<S>(m: Table<S>, c: Call<S>): Table<S> {
    match c
    case CreateOrOpen(a) => if a.Some? then Stored(m, a.value) else m
    case Refresh(response) => RefreshOutcome(m, response).0
    case RefreshEach(answers) => StoreEach(m, answers)
  }

  function StoreEach<S>(m: Table<S>, answers: seq<Option<Row<S>>>): Table<S>
    decreases |answers|
  {
    if answers == [] then m
    else StoreEach(if answers[0].Some? then Stored(m, answers[0].value) else m, answers[1..])
  }

  function PerformAll<S>(m: Table<S>, cs: seq<Call<S>>): Table<S>
    decreases |cs|
  {
    if cs == [] then m else PerformAll(Perform(m, cs[0]), cs[1..])
  }

  function Log<S>(cs: seq<Call<S>>): seq<Row<S>> {
    if cs == [] then [] else StoredBy(cs[0]) + Log(cs[1..])
  }

  lemma {:induction false} StoreEachIsApply<S>(m: Table<S>, answers: seq<Option<Row<S>>>)
    ensures StoreEach(m, answers) == ApplyAll(m, StorableAnswers(answers))
    decreases |answers|
  {
    if answers == [] {
    } else {
      var next := if answers[0].Some? then Stored(m, answers[0].value) else m;
      StoreEachIsApply(next, answers[1..]);
      if answers[0].Some? && Storable(answers[0].value) {
        ApplyAllConcat(m, [answers[0].value], StorableAnswers(answers[1..]));
      } else {
        assert StorableAnswers(answers) == StorableAnswers(answers[1..]);
      }
    }
  }

  lemma PerformAppliesStored<S>(m: Table<S>, c: Call<S>)
    ensures Perform(m, c) == ApplyAll(m, StoredBy(c))
  {
    if c.RefreshEach? {
      StoreEachIsApply(m, c.answers);
    }
  }

  /** After any run of calls, with failures among them, the table is the replay of everything
      that was successfully stored, in the order the server delivered it. */
  lemma {:induction false} CacheIsLog<S>(m: Table<S>, cs: seq<Call<S>>)
    ensures PerformAll(m, cs) == ApplyAll(m, Log(cs))
    decreases |cs|
  {
    if cs == [] {
    } else {
      PerformAppliesStored(m, cs[0]);
      CacheIsLog(Perform(m, cs[0]), cs[1..]);
      ApplyAllConcat(m, StoredBy(cs[0]), Log(cs[1..]));
    }
  }

  /** Each row sits under its own id. */
  ghost predicate Keyed<S>(m: Table<S>) {
    forall id :: id in m ==> m[id].id == id
  }

  lemma {:induction false} ApplyAllKeyed<S>(m: Table<S>, log: seq<Row<S>>)
    requires Keyed(m)
    ensures Keyed(ApplyAll(m, log))
    decreases |log|
  {
    if log == [] {
    } else {
      ApplyAllKeyed(m[log[0].id := log[0]], log[1..]);
    }
  }

  /** Every table the calls can leave behind has its rows under their own ids. */
  lemma ReachedRowsAreKeyed<S>(cs: seq<Call<S>>)
    ensures Keyed(PerformAll(map[], cs))
  {
    CacheIsLog(map[], cs);
    ApplyAllKeyed(map[], Log(cs));
  }

  // ----- refreshing only the active rows is enough -----

  /** Per id, the states the server's order or entry has gone through. */
  type History<S> = map<string, seq<S>>

  ghost predicate TerminalIsFinal<S>(history: History<S>, active: S -> bool) {
    forall id, i, j :: id in history && 0 <= i <= j < |history[id]| && !active(history[id][i])
      ==> history[id][j] == history[id][i]
  }

  ghost predicate VersionBy<S>(r: Row<S>, history: History<S>, at: map<string, nat>, id: string) {
    && id in history && id in at && at[id] < |history[id]|
    && exists k :: 0 <= k <= at[id] && r.state == history[id][k]
  }

  /** The row shows the state the server had at that moment. */
  ghost predicate ShowsState<S>(r: Row<S>, history: History<S>, at: map<string, nat>, id: string) {
    id in history && id in at && at[id] < |history[id]| && r.state == history[id][at[id]]
  }

  /** Each local row shows the state the server had at its moment. */
  ghost predicate IsCurrent<S>(m: Table<S>, history: History<S>, at: map<string, nat>) {
    forall id :: id in m ==> ShowsState(m[id], history, at, id)
  }

  /** Each local row is a version the server had no later than the moment `at` it is compared with. */
  ghost predicate RowsAreVersions<S>(m: Table<S>, history: History<S>, at: map<string, nat>) {
    forall id :: id in m ==> VersionBy(m[id], history, at, id)
  }

  /** The server answered with the versions at those moments, and for every active local row. */
  ghost predicate AnswersActive<S>(m: Table<S>, rows: seq<Row<S>>, active: S -> bool,
                                   history: History<S>, at: map<string, nat>) {
    && (forall i :: 0 <= i < |rows| ==> ShowsState(rows[i], history, at, rows[i].id))
    && (forall id :: id in m && active(m[id].state) ==> exists i :: 0 <= i < |rows| && rows[i].id == id)
  }

  lemma {:induction false} LastVersionFound<S>(log: seq<Row<S>>, id: string)
    ensures LastVersion(log, id).Some? <==> exists i :: 0 <= i < |log| && log[i].id == id
    ensures LastVersion(log, id).Some? ==> exists i :: LastAt(log, i, id) && log[i] == LastVersion(log, id).value
    decreases |log|
  {
    if log != [] && log[|log| - 1].id == id {
      assert LastAt(log, |log| - 1, id);
    } else if log != [] {
      var init := log[..|log| - 1];
      LastVersionFound(init, id);
      if LastVersion(log, id).Some? {
        var i :| LastAt(init, i, id) && init[i] == LastVersion(log, id).value;
        assert log[i] == init[i] && LastAt(log, i, id);
      }
    }
  }

  /** An id that rows name has one of them, any other id keeps its row. */
  ghost predicate ReplacedBy<S(!new)>(before: Table<S>, rows: seq<Row<S>>, after: Table<S>) {
    forall id ::
      if exists x :: x in rows && x.id == id
      then id in after && after[id] in rows && after[id].id == id
      else (id in after <==> id in before) && (id in before ==> after[id] == before[id])
  }

  lemma AppliedRows<S(!new)>(m: Table<S>, rows: seq<Row<S>>)
    ensures ReplacedBy(m, rows, ApplyAll(m, rows))
  {
    hide LastVersion, ApplyAll;
    forall id
      ensures var after := ApplyAll(m, rows);
        if exists x :: x in rows && x.id == id
        then id in after && after[id] in rows && after[id].id == id
        else (id in after <==> id in m) && (id in m ==> after[id] == m[id])
    {
      RowIsLastVersion(m, rows, id);
      LastVersionFound(rows, id);
      if x :| x in rows && x.id == id {
        var i :| 0 <= i < |rows| && rows[i] == x;
        assert rows[i].id == id;
      }
    }
  }

  /** The i-th entry of the log is the last one to name the id. */
  ghost predicate LastAt<S>(log: seq<Row<S>>, i: int, id: string) {
    0 <= i < |log| && log[i].id == id && forall j :: i < j < |log| ==> log[j].id != id
  }

  /** Storing the answers for the active rows only leaves every local row, active or not, in the
      state the server has it in. */
  lemma ActiveRefreshSuffices<S(!new)>(m: Table<S>, rows: seq<Row<S>>, active: S -> bool,
                                       history: History<S>, at: map<string, nat>)
    requires TerminalIsFinal(history, active) && RowsAreVersions(m, history, at)
    requires AnswersActive(m, rows, active, history, at)
    ensures IsCurrent(ApplyAll(m, rows), history, at)
  {
    forall id | id in ApplyAll(m, rows)
      ensures ShowsState(ApplyAll(m, rows)[id], history, at, id)
    {
      RowIsLastVersion(m, rows, id);
      LastVersionFound(rows, id);
      if LastVersion(rows, id).None? {
        assert !active(m[id].state) && VersionBy(m[id], history, at, id);
        var k :| 0 <= k <= at[id] && m[id].state == history[id][k];
      }
    }
  }

  /** A mirror filled only from a truthful server holds versions: the assumption above is met by
      every state the calls can reach. */
  lemma ReachedRowsAreVersions<S>(cs: seq<Call<S>>, history: History<S>, at: map<string, nat>)
    requires forall i :: 0 <= i < |Log(cs)| ==> VersionBy(Log(cs)[i], history, at, Log(cs)[i].id)
    ensures RowsAreVersions(PerformAll(map[], cs), history, at)
  {
    CacheIsLog(map[], cs);
    forall id | id in PerformAll(map[], cs)
      ensures VersionBy(PerformAll(map[], cs)[id], history, at, id)
    {
      RowIsLastVersion(map[], Log(cs), id);
      LastVersionFound(Log(cs), id);
    }
  }

  lemma {:induction false} AllStorable<S>(rows: seq<Row<S>>)
    ensures |StorablePrefix(rows)| <= |rows| && StorablePrefix(rows) == rows[..|StorablePrefix(rows)|]
    ensures |StorablePrefix(rows)| < |rows| ==> !Storable(rows[|StorablePrefix(rows)|])
    ensures forall i :: 0 <= i < |StorablePrefix(rows)| ==> Storable(rows[i])
  {
    if rows != [] && Storable(rows[0]) {
      AllStorable(rows[1..]);
      assert rows == [rows[0]] + rows[1..];
    }
  }

  /** A successful refresh_active_orders makes the stored state of every local order the server's. */
  lemma ActiveOrderRefreshSuffices(m: Table<OrderState2>, rows: seq<Row<OrderState2>>,
                                   history: History<OrderState2>, at: map<string, nat>)
    requires TerminalIsFinal(history, ActiveOrder) && RowsAreVersions(m, history, at)
    requires AnswersActive(m, rows, ActiveOrder, history, at)
    requires RefreshOutcome(m, Some(rows)).1.Ok?
    ensures IsCurrent(RefreshOutcome(m, Some(rows)).0, history, at)
  {
    AllStorable(rows);
    assert rows[..|rows|] == rows;
    ActiveRefreshSuffices(m, rows, ActiveOrder, history, at);
  }

  /** The two together: whatever calls have filled the mirror, as long as the server answered
      each with a version of the time, one successful refresh of the active orders makes every
      stored state current. */
  lemma MirrorIsCurrentAfterRefresh(cs: seq<Call<OrderState2>>, rows: seq<Row<OrderState2>>,
                                    history: History<OrderState2>, at: map<string, nat>)
    requires TerminalIsFinal(history, ActiveOrder)
    requires forall i :: 0 <= i < |Log(cs)| ==> VersionBy(Log(cs)[i], history, at, Log(cs)[i].id)
    requires AnswersActive(PerformAll(map[], cs), rows, ActiveOrder, history, at)
    requires RefreshOutcome(PerformAll(map[], cs), Some(rows)).1.Ok?
    ensures IsCurrent(Perform(PerformAll(map[], cs), Refresh(Some(rows))), history, at)
  {
    ReachedRowsAreVersions(cs, history, at);
    ActiveOrderRefreshSuffices(PerformAll(map[], cs), rows, history, at);
  }

  /** For CJIT entries, when no fetch and no store failed, each entry matches what the server had
      at the moment it was asked about it. */
  lemma ActiveCJitRefreshSuffices(m: Table<CJitState>, answers: seq<Option<Row<CJitState>>>,
                                  history: History<CJitState>, at: map<string, nat>)
    requires TerminalIsFinal(history, ActiveCJit) && RowsAreVersions(m, history, at)
    requires AnswersActive(m, StorableAnswers(answers), ActiveCJit, history, at)
    ensures IsCurrent(StoreEach(m, answers), history, at)
  {
    StoreEachIsApply(m, answers);
    ActiveRefreshSuffices(m, StorableAnswers(answers), ActiveCJit, history, at);
  }

  // ----- service info -----

  datatype Info = Info(version: u32, content: string)

  datatype InfoRow = InfoRow(content: string, isCurrent: bool)

  type InfoTable = map<u32, InfoRow>

  ghost predicate AtMostOneCurrent(t: InfoTable) {
    forall v, w :: v in t && w in t && t[v].isCurrent && t[w].isCurrent ==> v == w
  }

  /** UPDATE info SET is_current = 0, by the call or by the insert trigger; a row whose new value
      is 0 fires no further trigger. */
  function ClearCurrent(t: InfoTable): InfoTable {
    map v | v in t :: t[v].(isCurrent := false)
  }

  /** INSERT OR REPLACE INTO info, behind its BEFORE INSERT trigger. */
  function InsertInfo(t: InfoTable, version: u32, row: InfoRow): InfoTable {
    (if row.isCurrent then ClearCurrent(t) else t)[version := row]
  }

  /** An UPDATE of one row, behind the BEFORE UPDATE trigger. */
  function UpdateInfo(t: InfoTable, version: u32, row: InfoRow): InfoTable
    requires version in t
  {
    var cleared := if row.isCurrent
                   then map v | v in t :: if v == version then t[v] else t[v].(isCurrent := false)
                   else t;
    cleared[version := row]
  }

  datatype InfoCall = UpsertInfo(info: Info, fault: InfoFault)

  /** Where the storage may fail: the statements are not in one transaction. */
  datatype InfoFault = NoFault | UpdateFails | InsertFails

  function UpsertInfoOutcome(t: InfoTable, c: InfoCall): (InfoTable, Result<(), CacheError>) {
    match c.fault
    case UpdateFails => (t, Err(DatabaseError))
    case InsertFails => (ClearCurrent(t), Err(InsertError))
    case NoFault => (InsertInfo(ClearCurrent(t), c.info.version, InfoRow(c.info.content, true)), Ok(()))
  }

  ghost function CurrentInfo(t: InfoTable): Option<Info> {
    if v :| v in t && t[v].isCurrent then Some(Info(v, t[v].content)) else None
  }

  function InfoRun(t: InfoTable, cs: seq<InfoCall>): InfoTable
    decreases |cs|
  {
    if cs == [] then t else InfoRun(UpsertInfoOutcome(t, cs[0]).0, cs[1..])
  }

  /** The row is as it was written, the others keep their contents. */
  ghost predicate RowWritten(t: InfoTable, version: u32, row: InfoRow, t': InfoTable) {
    && version in t' && t'[version] == row
    && forall v :: v != version ==> (v in t' <==> v in t) && (v in t ==> t'[v].content == t[v].content)
  }

  /** The triggers alone keep at most one row current, whatever single row is written. */
  lemma TriggersKeepOneCurrent(t: InfoTable, version: u32, row: InfoRow)
    requires AtMostOneCurrent(t)
    ensures AtMostOneCurrent(InsertInfo(t, version, row)) && RowWritten(t, version, row, InsertInfo(t, version, row))
    ensures version in t ==>
      AtMostOneCurrent(UpdateInfo(t, version, row)) && RowWritten(t, version, row, UpdateInfo(t, version, row))
  {
  }

  /** In every reachable state at most one row is current; a success makes the new info the one
      that is read back, and a failure after the clearing update leaves none to read. */
  lemma {:induction false} InfoRunKeepsOneCurrent(t: InfoTable, cs: seq<InfoCall>)
    requires AtMostOneCurrent(t)
    ensures AtMostOneCurrent(InfoRun(t, cs))
    decreases |cs|
  {
    if cs == [] {
    } else {
      UpsertInfoEffect(t, cs[0]);
      InfoRunKeepsOneCurrent(UpsertInfoOutcome(t, cs[0]).0, cs[1..]);
    }
  }

  lemma UpsertInfoEffect(t: InfoTable, c: InfoCall)
    requires AtMostOneCurrent(t)
    ensures var (t', r) := UpsertInfoOutcome(t, c);
      && AtMostOneCurrent(t')
      && (r == match c.fault { case NoFault => Ok(()) case UpdateFails => Err(DatabaseError)
                               case InsertFails => Err(CacheError.InsertError) })
      && (forall v :: v in t' <==> v in t || (c.fault == NoFault && v == c.info.version))
      && (forall v :: v in t && !(c.fault == NoFault && v == c.info.version) ==> t'[v].content == t[v].content)
      && CurrentInfo(t') == match c.fault { case NoFault => Some(c.info)
                                            case UpdateFails => CurrentInfo(t)
                                            case InsertFails => None }
  {
    var t' := UpsertInfoOutcome(t, c).0;
    if c.fault == NoFault {
      assert c.info.version in t' && t'[c.info.version].isCurrent;
    }
  }
}
