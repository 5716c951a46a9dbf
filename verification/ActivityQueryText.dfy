/** The text of get_activities from its filter arguments, and what SQL reads in that text.

    The fixed SELECT lists and joins around it are the operators of ActivityQueryPlan; the text
    modelled here is everything that depends on an argument: the conditions of the WHERE clause
    up to the bracket that closes the common table expression, then direction and limit.
  */
module ActivityQueryText {
  import opened Common
  import opened ActivityTypes
  import opened SqlText
  import opened SqlLike

  /** The arguments of get_activities, after the defaults for filter and direction. */
  datatype Query = Query(
    filter: ActivityFilter,
    txType: Option<PaymentType>,
    tags: Option<seq<string>>,
    search: Option<string>,
    minDate: Option<u64>,
    maxDate: Option<u64>,
    limit: Option<u32>,
    direction: SortDirection)

  // ----- the text, clause by clause -----

  function PaymentTypeText(t: PaymentType): string {
    match t case Sent => "sent" case Received => "received"
  }

  function DirectionText(d: SortDirection): string {
    match d case Asc => "ASC" case Desc => "DESC"
  }

  function TypeClause(f: ActivityFilter): string {
    match f
    case LightningOnly => " AND a.activity_type = 'lightning'"
    case OnchainOnly => " AND a.activity_type = 'onchain'"
    case AllActivities => ""
  }

  function TxTypeClause(t: Option<PaymentType>): string {
    if t.None? then "" else " AND a.tx_type = '" + PaymentTypeText(t.value) + "'"
  }

  function Quote(text: string): string { "'" + Escape(text) + "'" }

  function JoinQuoted(tags: seq<string>): string {
    if tags == [] then ""
    else Quote(tags[0]) + (if |tags| == 1 then "" else "," + JoinQuoted(tags[1..]))
  }

  function TagsClause(tags: Option<seq<string>>): string {
    if tags.None? || tags.value == [] then ""
    else " AND t.tag IN (" + JoinQuoted(tags.value) + ")"
  }

  function MinDateClause(d: Option<u64>): string {
    if d.None? then "" else " AND a.timestamp >= " + DecimalText(d.value)
  }

  function MaxDateClause(d: Option<u64>): string {
    if d.None? then "" else " AND a.timestamp <= " + DecimalText(d.value)
  }

  const INDENT := "\n                "
  const OUTDENT := "\n            "

  function SearchClause(search: Option<string>): string {
    if search.None? || search.value == "" then "" else
    var pattern := "%" + Escape(search.value) + "%";
    " AND (" + LikeText("o.address", pattern, " OR")
             + LikeText("l.invoice", pattern, " OR")
             + LikeText("l.message", pattern, OUTDENT + ")")
  }

  function LikeText(column: string, pattern: string, after: string): string {
    INDENT + column + " LIKE '" + pattern + "'" + after
  }

  function LimitClause(limit: Option<u32>): string {
    if limit.None? then "" else " LIMIT " + DecimalText(limit.value)
  }

  function QueryText(q: Query): string {
    TypeClause(q.filter) + TxTypeClause(q.txType) + TagsClause(q.tags) + MinDateClause(q.minDate)
    + MaxDateClause(q.maxDate) + SearchClause(q.search) + ")"
    + " " + DirectionText(q.direction) + LimitClause(q.limit)
  }

  // ----- what SQL reads -----

  datatype Column =
    | ActivityTypeColumn | TxTypeColumn | TagColumn | TimestampColumn
    | AddressColumn | InvoiceColumn | MessageColumn

  datatype Condition =
    | EqualsText(column: Column, text: string)
    | InTexts(column: Column, texts: seq<string>)
    | AtLeastInt(column: Column, bound: nat)
    | AtMostInt(column: Column, bound: nat)
    | AnyLike(alternatives: seq<(Column, string)>)

  datatype Prepared = Prepared(conditions: seq<Condition>, direction: SortDirection, limit: Option<nat>)

  function ColumnNamed(w: string): Option<Column> {
    if w == "a.activity_type" then Some(ActivityTypeColumn)
    else if w == "a.tx_type" then Some(TxTypeColumn)
    else if w == "t.tag" then Some(TagColumn)
    else if w == "a.timestamp" then Some(TimestampColumn)
    else if w == "o.address" then Some(AddressColumn)
    else if w == "l.invoice" then Some(InvoiceColumn)
    else if w == "l.message" then Some(MessageColumn)
    else None
  }

  function ColumnAt(ts: seq<Token>): Option<Column> {
    if ts != [] && ts[0].Word? then ColumnNamed(ts[0].word) else None
  }

  /** c LIKE 'p' OR ...) */
  function ParseLikes(ts: seq<Token>): (r: Option<(seq<(Column, string)>, seq<Token>)>)
    ensures r.Some? ==> |r.value.1| < |ts|
  {
    if |ts| < 4 || ColumnAt(ts).None? || ts[1] != Word("LIKE") || !ts[2].Literal? then None
    else
      var like := (ColumnAt(ts).value, ts[2].text);
      if ts[3] == RightParen then Some(([like], ts[4..]))
      else if ts[3] == Word("OR") then
        match ParseLikes(ts[4..])
        case None => None
        case Some((likes, rest)) => Some(([like] + likes, rest))
      else None
  }

  function ParseCondition(ts: seq<Token>): (r: Option<(Condition, seq<Token>)>)
    ensures r.Some? ==> |r.value.1| < |ts|
  {
    if ts != [] && ts[0] == LeftParen then
      match ParseLikes(ts[1..])
      case None => None
      case Some((likes, rest)) => Some((AnyLike(likes), rest))
    else if |ts| < 3 || ColumnAt(ts).None? then None
    else
      var column := ColumnAt(ts).value;
      if ts[1] == Equals && ts[2].Literal? then Some((EqualsText(column, ts[2].text), ts[3..]))
      else if ts[1] == AtLeast && ts[2].Number? then Some((AtLeastInt(column, ts[2].n), ts[3..]))
      else if ts[1] == AtMost && ts[2].Number? then Some((AtMostInt(column, ts[2].n), ts[3..]))
      else if ts[1] == Word("IN") && ts[2] == LeftParen then
        match ParseTexts(ts[3..])
        case None => None
        case Some((texts, rest)) => Some((InTexts(column, texts), rest))
      else None
  }

  /** The conditions up to the closing bracket of the common table expression. */
  function ParseWhere(ts: seq<Token>): Option<(seq<Condition>, seq<Token>)>
    decreases |ts|
  {
    if ts == [] then None
    else if ts[0] == RightParen then Some(([], ts[1..]))
    else if ts[0] != Word("AND") then None
    else
      match ParseCondition(ts[1..])
      case None => None
      case Some((c, rest)) =>
        match ParseWhere(rest)
        case None => None
        case Some((cs, rest')) => Some(([c] + cs, rest'))
  }

  function ParseTail(ts: seq<Token>): Option<(SortDirection, Option<nat>)> {
    if ts == [] then None
    else
      var direction := if ts[0] == Word("ASC") then Some(Asc) else if ts[0] == Word("DESC") then Some(Desc) else None;
      if direction.None? then None
      else if |ts| == 1 then Some((direction.value, None))
      else if |ts| == 3 && ts[1] == Word("LIMIT") && ts[2].Number? then Some((direction.value, Some(ts[2].n)))
      else None
  }

  function Parse(ts: seq<Token>): Option<Prepared> {
    match ParseWhere(ts)
    case None => None
    case Some((conditions, rest)) =>
      match ParseTail(rest)
      case None => None
      case Some((direction, limit)) => Some(Prepared(conditions, direction, limit))
  }

  /** `conn.prepare`: None is a statement SQLite cannot read. */
  function Prepare(text: string): Option<Prepared> {
    match Tokenize(text) case None => None case Some(ts) => Parse(ts)
  }

  // ----- what the arguments ask for -----

  function TypeConditions(f: ActivityFilter): seq<Condition> {
    match f
    case LightningOnly => [EqualsText(ActivityTypeColumn, "lightning")]
    case OnchainOnly => [EqualsText(ActivityTypeColumn, "onchain")]
    case AllActivities => []
  }

  function TxTypeConditions(t: Option<PaymentType>): seq<Condition> {
    if t.None? then [] else [EqualsText(TxTypeColumn, PaymentTypeText(t.value))]
  }

  function TagsConditions(tags: Option<seq<string>>): seq<Condition> {
    if tags.None? || tags.value == [] then [] else [InTexts(TagColumn, tags.value)]
  }

  function MinDateConditions(d: Option<u64>): seq<Condition> {
    if d.None? then [] else [AtLeastInt(TimestampColumn, d.value)]
  }

  function MaxDateConditions(d: Option<u64>): seq<Condition> {
    if d.None? then [] else [AtMostInt(TimestampColumn, d.value)]
  }

  function SearchConditions(search: Option<string>): seq<Condition> {
    if search.None? || search.value == "" then [] else
    var pattern := SearchPattern(search.value);
    [AnyLike([(AddressColumn, pattern), (InvoiceColumn, pattern), (MessageColumn, pattern)])]
  }

  function Conditions(q: Query): seq<Condition> {
    TypeConditions(q.filter) + TxTypeConditions(q.txType) + TagsConditions(q.tags)
    + MinDateConditions(q.minDate) + MaxDateConditions(q.maxDate) + SearchConditions(q.search)
  }

  function Intended(q: Query): Prepared { Prepared(Conditions(q), q.direction, q.limit) }

  /** No argument that reaches the text holds a NUL. */
  predicate NulFree(q: Query) {
    && (q.tags.Some? ==> forall i :: 0 <= i < |q.tags.value| ==> !HasNul(q.tags.value[i]))
    && (q.search.Some? ==> !HasNul(q.search.value))
  }

  // ----- the text as pieces -----

  function TypePieces(f: ActivityFilter): seq<Piece> {
    match f
    case LightningOnly =>
      [W(" ", "AND"), W(" ", "a.activity_type"), Piece(" ", Equals), Piece(" ", Literal("lightning"))]
    case OnchainOnly =>
      [W(" ", "AND"), W(" ", "a.activity_type"), Piece(" ", Equals), Piece(" ", Literal("onchain"))]
    case AllActivities => []
  }

  function TxTypePieces(t: Option<PaymentType>): seq<Piece> {
    if t.None? then []
    else [W(" ", "AND"), W(" ", "a.tx_type"), Piece(" ", Equals), Piece(" ", Literal(PaymentTypeText(t.value)))]
  }

  function TagListPieces(tags: seq<string>): seq<Piece> {
    if tags == [] then []
    else [Piece("", Literal(tags[0]))] + if |tags| == 1 then [] else [Piece("", Comma)] + TagListPieces(tags[1..])
  }

  function TagsPieces(tags: Option<seq<string>>): seq<Piece> {
    if tags.None? || tags.value == [] then []
    else [W(" ", "AND"), W(" ", "t.tag"), W(" ", "IN"), Piece(" ", LeftParen)]
         + TagListPieces(tags.value) + [Piece("", RightParen)]
  }

  function DatePieces(mark: Token, d: Option<u64>): seq<Piece> {
    if d.None? then [] else [W(" ", "AND"), W(" ", "a.timestamp"), Piece(" ", mark), Piece(" ", Number(d.value))]
  }

  function LikePieces(column: string, text: string): seq<Piece> {
    [W(INDENT, column), W(" ", "LIKE"), Piece(" ", Literal(SearchPattern(text)))]
  }

  function SearchPieces(search: Option<string>): seq<Piece> {
    if search.None? || search.value == "" then [] else
    var s := search.value;
    [W(" ", "AND"), Piece(" ", LeftParen)]
    + LikePieces("o.address", s) + [W(" ", "OR")]
    + LikePieces("l.invoice", s) + [W(" ", "OR")]
    + LikePieces("l.message", s) + [Piece(OUTDENT, RightParen)]
  }

  function TailPieces(q: Query): seq<Piece> {
    [Piece("", RightParen), W(" ", DirectionText(q.direction))]
    + if q.limit.None? then [] else [W(" ", "LIMIT"), Piece(" ", Number(q.limit.value))]
  }

  function QueryPieces(q: Query): seq<Piece> {
    TypePieces(q.filter) + TxTypePieces(q.txType) + TagsPieces(q.tags) + DatePieces(AtLeast, q.minDate)
    + DatePieces(AtMost, q.maxDate) + SearchPieces(q.search) + TailPieces(q)
  }

  lemma SearchRegrouped(s: string)
    requires s != ""
    ensures SearchPieces(Some(s))
         == [W(" ", "AND"), Piece(" ", LeftParen)] + (LikePieces("o.address", s) + [W(" ", "OR")])
            + (LikePieces("l.invoice", s) + [W(" ", "OR")])
            + (LikePieces("l.message", s) + [Piece(OUTDENT, RightParen)])
  {
    hide LikePieces;
  }

  lemma TagPiecesStep(tags: seq<string>)
    requires |tags| > 1
    ensures TagListPieces(tags) == [Piece("", Literal(tags[0])), Piece("", Comma)] + TagListPieces(tags[1..])
  {
  }
}
