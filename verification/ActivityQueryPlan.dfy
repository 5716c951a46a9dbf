/** The query plan of get_activities and get_activities_by_tag over scans of the tables, and its
    meaning: a plain filter over the stored activities, sorted and cut. */
module ActivityQueryPlan {
  import opened Common
  import opened ActivityTypes
  import opened ActivityTables
  import opened ActivityStore
  import opened SqlLike
  import opened ActivityQueryText
  import opened RelationalAlgebra

  type ParentRec = (string, ParentRow)
  type OnchainRec = (string, OnchainRow)
  type LightningRec = (string, LightningRow)
  type TagRec = (string, string)

  /** The rows of each table in the order the engine visits them; any order is possible. */
  datatype Scan = Scan(
    activities: seq<ParentRec>,
    onchain: seq<OnchainRec>,
    lightning: seq<LightningRec>,
    tags: seq<TagRec>)

  ghost predicate Enumerates<V(!new)>(s: seq<(string, V)>, m: map<string, V>) {
    && NoDuplicates(s)
    && (forall r :: r in s <==> r.0 in m && m[r.0] == r.1)
  }

  ghost predicate ScanOf(s: Scan, t: Tables) {
    && Enumerates(s.activities, t.activities)
    && Enumerates(s.onchain, t.onchain)
    && Enumerates(s.lightning, t.lightning)
    && NoDuplicates(s.tags)
    && (forall p :: p in s.tags <==> p in t.tags)
  }

  // ----- three-valued conditions -----

  datatype Value = Null | Text(text: string) | Integer(n: nat)

  datatype Truth = True | False | Unknown

  function TruthOf(b: bool): Truth { if b then True else False }

  function And(a: Truth, b: Truth): Truth {
    if a == False || b == False then False else if a == True && b == True then True else Unknown
  }

  function Or(a: Truth, b: Truth): Truth {
    if a == True || b == True then True else if a == False && b == False then False else Unknown
  }

  function EqualsValue(v: Value, text: string): Truth {
    if v == Null then Unknown else TruthOf(v == Text(text))
  }

  /** `v IN (...)`, the disjunction of the equalities. */
  function InValues(v: Value, texts: seq<string>): Truth {
    if texts == [] then False else Or(EqualsValue(v, texts[0]), InValues(v, texts[1..]))
  }

  /** LIKE reads its operand as a C string. */
  function UpToNul(s: string): string {
    if s == "" || s[0] == '\0' then "" else [s[0]] + UpToNul(s[1..])
  }

  function LikeValue(v: Value, pattern: string): Truth {
    match v
    case Null => Unknown
    case Text(x) => TruthOf(Like(pattern, UpToNul(x)))
    case Integer(_) => False
  }

  // ----- the common table expression -----

  type Row1 = (ParentRec, Option<TagRec>)
  type Row2 = (Row1, Option<OnchainRec>)
  type Row3 = (Row2, Option<LightningRec>)

  function ParentOf(r: Row3): ParentRec { r.0.0.0 }
  function TagOf(r: Row3): Option<TagRec> { r.0.0.1 }
  function OnchainPart(r: Row3): Option<OnchainRec> { r.0.1 }
  function LightningPart(r: Row3): Option<LightningRec> { r.1 }

  predicate OnTag(a: ParentRec, t: TagRec) { a.0 == t.0 }
  predicate OnOnchain(r: Row1, o: OnchainRec) { r.0.0 == o.0 }
  predicate OnLightning(r: Row2, l: LightningRec) { r.0.0.0 == l.0 }

  function CandidateRows(s: Scan): seq<Row3> {
    LeftJoin(LeftJoin(LeftJoin(s.activities, s.tags, OnTag), s.onchain, OnOnchain), s.lightning, OnLightning)
  }

  function TypeText(k: ActivityType): string {
    match k case OnchainType => "onchain" case LightningType => "lightning"
  }

  function ColumnOf(r: Row3, c: Column): Value {
    var a, t, o, l := ParentOf(r), TagOf(r), OnchainPart(r), LightningPart(r);
    match c
    case ActivityTypeColumn => Text(TypeText(a.1.kind))
    case TxTypeColumn => Text(PaymentTypeText(a.1.txType))
    case TimestampColumn => Integer(a.1.timestamp)
    case TagColumn => if t.Some? then Text(t.value.1) else Null
    case AddressColumn => if o.Some? then Text(o.value.1.address) else Null
    case InvoiceColumn => if l.Some? then Text(l.value.1.invoice) else Null
    case MessageColumn => if l.Some? then Text(l.value.1.message) else Null
  }

  function LikeAny(r: Row3, likes: seq<(Column, string)>): Truth {
    if likes == [] then False else Or(LikeValue(ColumnOf(r, likes[0].0), likes[0].1), LikeAny(r, likes[1..]))
  }

  function Holds(r: Row3, c: Condition): Truth {
    match c
    case EqualsText(col, text) => EqualsValue(ColumnOf(r, col), text)
    case InTexts(col, texts) => InValues(ColumnOf(r, col), texts)
    case AtLeastInt(col, n) => (match ColumnOf(r, col) case Integer(v) => TruthOf(v >= n) case _ => Unknown)
    case AtMostInt(col, n) => (match ColumnOf(r, col) case Integer(v) => TruthOf(v <= n) case _ => Unknown)
    case AnyLike(likes) => LikeAny(r, likes)
  }

  /** WHERE 1=1 AND ... */
  function HoldAll(r: Row3, cs: seq<Condition>): Truth {
    if cs == [] then True else And(Holds(r, cs[0]), HoldAll(r, cs[1..]))
  }

  /** The ids of the rows a WHERE clause lets through: those where it is true, not unknown. */
  function SelectIds(rows: seq<Row3>, cs: seq<Condition>): seq<string> {
    if rows == [] then []
    else (if HoldAll(rows[0], cs) == True then [ParentOf(rows[0]).0] else []) + SelectIds(rows[1..], cs)
  }

  function FilteredIds(s: Scan, cs: seq<Condition>): seq<string> {
    Distinct(SelectIds(CandidateRows(s), cs))
  }

  // ----- the outer query -----

  type Outer0 = (ParentRec, string)
  type Outer1 = (Outer0, Option<OnchainRec>)
  type Outer2 = (Outer1, Option<LightningRec>)

  predicate OnId(a: ParentRec, id: string) { a.0 == id }
  predicate OnOnchainOfType(r: Outer0, o: OnchainRec) { r.0.0 == o.0 && r.0.1.kind == OnchainType }
  predicate OnLightningOfType(r: Outer1, l: LightningRec) { r.0.0.0 == l.0 && r.0.0.1.kind == LightningType }

  function OuterParent(r: Outer2): ParentRec { r.0.0.0 }

  function OuterRows(s: Scan, ids: seq<string>): seq<Outer2> {
    LeftJoin(LeftJoin(InnerJoin(s.activities, ids, OnId), s.onchain, OnOnchainOfType),
             s.lightning, OnLightningOfType)
  }

  function SortKey(d: SortDirection, timestamp: nat): int {
    if d == Asc then timestamp else 0 - timestamp
  }

  function OuterKey(d: SortDirection): Outer2 -> int {
    (r: Outer2) => SortKey(d, OuterParent(r).1.timestamp)
  }

  /** The rows SQLite hands out, for the prepared statement and some scan of each half. */
  function Execute(p: Prepared, inner: Scan, outer: Scan): seq<Outer2> {
    Limit(SortBy(OuterKey(p.direction), OuterRows(outer, FilteredIds(inner, p.conditions))), p.limit)
  }

  /** The row mapper: a NULL in a column its type needs is an error. */
  function ReadRow(r: Outer2): Result<Activity, ActivityError> {
    var a, o, l := OuterParent(r), r.0.1, r.1;
    match a.1.kind
    case OnchainType =>
      if o.Some? then Ok(Onchain(OnchainFrom(a.0, a.1, o.value.1))) else Err(DataError(RowNotReadable))
    case LightningType =>
      if l.Some? then Ok(Lightning(LightningFrom(a.0, a.1, l.value.1))) else Err(DataError(RowNotReadable))
  }

  /** The loop over the result rows, which stops at the first one it cannot map. */
  function ReadAll(rows: seq<Outer2>): Result<seq<Activity>, ActivityError> {
    if rows == [] then Ok([])
    else
      match ReadAll(rows[..|rows| - 1])
      case Err(e) => Err(e)
      case Ok(activities) =>
        match ReadRow(rows[|rows| - 1])
        case Err(e) => Err(e)
        case Ok(a) => Ok(activities + [a])
  }

  /** get_activities, from its arguments to its result. */
  function GetActivities(q: Query, inner: Scan, outer: Scan): Result<seq<Activity>, ActivityError> {
    match Prepare(QueryText(q))
    case None => Err(RetrievalError)
    case Some(p) => ReadAll(Execute(p, inner, outer))
  }

  // ----- lookups -----

  /** get_activity_by_id: the type first, then the join with that type's detail table. */
  function GetById(t: Tables, id: string): Result<Option<Activity>, ActivityError> {
    if id !in t.activities then Ok(None)
    else
      var p := t.activities[id];
      match p.kind
      case OnchainType =>
        if id in t.onchain then Ok(Some(Onchain(OnchainFrom(id, p, t.onchain[id])))) else Ok(None)
      case LightningType =>
        if id in t.lightning then Ok(Some(Lightning(LightningFrom(id, p, t.lightning[id])))) else Err(RetrievalError)
  }

  function WithTag(rows: seq<TagRec>, tag: string): seq<TagRec> {
    if rows == [] then []
    else (if rows[0].1 == tag then [rows[0]] else []) + WithTag(rows[1..], tag)
  }

  function TagKey(d: SortDirection): ((ParentRec, TagRec)) -> int {
    (r: (ParentRec, TagRec)) => SortKey(d, r.0.1.timestamp)
  }

  /** The ids of SELECT ... JOIN activity_tags ... WHERE t.tag = ? ORDER BY ... LIMIT ... */
  function TaggedRows(s: Scan, tag: string, d: SortDirection, limit: Option<nat>): seq<(ParentRec, TagRec)> {
    Limit(SortBy(TagKey(d), InnerJoin(s.activities, WithTag(s.tags, tag), OnTag)), limit)
  }

  /** The loop of get_activities_by_tag: one lookup per row, rows without an activity dropped. */
  function LookUpAll(t: Tables, rows: seq<(ParentRec, TagRec)>): Result<seq<Activity>, ActivityError> {
    if rows == [] then Ok([])
    else
      match LookUpAll(t, rows[..|rows| - 1])
      case Err(e) => Err(e)
      case Ok(activities) =>
        match GetById(t, rows[|rows| - 1].0.0)
        case Err(e) => Err(e)
        case Ok(None) => Ok(activities)
        case Ok(Some(a)) => Ok(activities + [a])
  }

  function GetActivitiesByTag(t: Tables, s: Scan, tag: string, limit: Option<u32>, d: SortDirection)
    : Result<seq<Activity>, ActivityError>
  {
    LookUpAll(t, TaggedRows(s, tag, d, limit))
  }

  /** The same request in the arguments of get_activities. */
  function TagQuery(tag: string, limit: Option<u32>, d: SortDirection): Query {
    Query(AllActivities, None, Some([tag]), None, None, None, limit, d)
  }

  // ----- what a query asks of the store -----

  predicate TypeWanted(f: ActivityFilter, k: ActivityType) {
    match f case AllActivities => true case OnchainOnly => k == OnchainType case LightningOnly => k == LightningType
  }

  /** An own field of the activity matches `%text%`. */
  predicate TextFound(a: Activity, text: string) {
    match a
    case Onchain(o) => Like(SearchPattern(text), UpToNul(o.address))
    case Lightning(l) => Like(SearchPattern(text), UpToNul(l.invoice)) || Like(SearchPattern(text), UpToNul(l.message))
  }

  ghost predicate Matches(e: Entry, q: Query) {
    && (q.filter == OnchainOnly ==> e.activity.Onchain?)
    && (q.filter == LightningOnly ==> e.activity.Lightning?)
    && (q.txType.Some? ==> e.activity.TxType() == q.txType.value)
    && (q.tags.Some? && q.tags.value != [] ==> exists tag :: tag in q.tags.value && tag in e.tags)
    && (q.minDate.Some? ==> q.minDate.value <= e.activity.Timestamp())
    && (q.maxDate.Some? ==> e.activity.Timestamp() <= q.maxDate.value)
    && (q.search.Some? && q.search.value != "" ==> TextFound(e.activity, q.search.value))
  }

  /** All matches, each once, in the order asked for; ties may stand either way. */
  ghost predicate FullListing(s: Store, q: Query, full: seq<Activity>) {
    && (forall i :: 0 <= i < |full| ==>
          full[i].Id() in s && s[full[i].Id()].activity == full[i] && Matches(s[full[i].Id()], q))
    && (forall i, j :: 0 <= i < j < |full| ==> full[i].Id() != full[j].Id())
    && (forall id :: id in s && Matches(s[id], q) ==> s[id].activity in full)
    && (forall i, j :: 0 <= i < j < |full| ==>
          SortKey(q.direction, full[i].Timestamp()) <= SortKey(q.direction, full[j].Timestamp()))
  }

  ghost predicate Answer(s: Store, q: Query, result: seq<Activity>) {
    exists full :: FullListing(s, q, full) && result == Limit(full, q.limit)
  }
}
