/** Parsing the tokens of the text gives the conditions that were asked for. */
module ActivityQueryReading {
  import opened Common
  import opened ActivityTypes
  import opened SqlText
  import opened SqlLike
  import opened ActivityQueryText
  import opened ActivityQueryRendering
  import opened ActivityQuerySpacing

  function Prepend(cs: seq<Condition>, r: Option<(seq<Condition>, seq<Token>)>): Option<(seq<Condition>, seq<Token>)> {
    match r case None => None case Some((ds, rest)) => Some((cs + ds, rest))
  }

  lemma WhereStep(body: seq<Token>, c: Condition, rest: seq<Token>)
    requires ParseCondition(body + rest) == Some((c, rest))
    ensures ParseWhere([Word("AND")] + body + rest) == Prepend([c], ParseWhere(rest))
  {
    var ts := [Word("AND")] + body + rest;
    assert ts[1..] == body + rest;
  }

  lemma ColumnsNamed()
    ensures ColumnNamed("a.activity_type") == Some(ActivityTypeColumn)
    ensures ColumnNamed("a.tx_type") == Some(TxTypeColumn)
    ensures ColumnNamed("t.tag") == Some(TagColumn)
    ensures ColumnNamed("a.timestamp") == Some(TimestampColumn)
    ensures ColumnNamed("o.address") == Some(AddressColumn)
    ensures ColumnNamed("l.invoice") == Some(InvoiceColumn)
    ensures ColumnNamed("l.message") == Some(MessageColumn)
  {
  }

  /** The tokens of one clause, read in front of any rest, contribute its conditions. */
  lemma ComparisonParsed(column: string, mark: Token, value: Token, c: Condition, rest: seq<Token>)
    requires ColumnNamed(column).Some?
    requires (mark == Equals && value.Literal? && c == EqualsText(ColumnNamed(column).value, value.text))
          || (mark == AtLeast && value.Number? && c == AtLeastInt(ColumnNamed(column).value, value.n))
          || (mark == AtMost && value.Number? && c == AtMostInt(ColumnNamed(column).value, value.n))
    ensures ParseWhere([Word("AND"), Word(column), mark, value] + rest) == Prepend([c], ParseWhere(rest))
  {
    var body := [Word(column), mark, value];
    assert (body + rest)[3..] == rest;
    WhereStep(body, c, rest);
    assert [Word("AND")] + body + rest == [Word("AND"), Word(column), mark, value] + rest;
  }

  lemma TypeParsed(f: ActivityFilter, rest: seq<Token>)
    ensures ParseWhere(TokensOf(TypePieces(f)) + rest) == Prepend(TypeConditions(f), ParseWhere(rest))
  {
    ColumnsNamed();
    match f
    case LightningOnly =>
      ComparisonParsed("a.activity_type", Equals, Literal("lightning"),
        EqualsText(ActivityTypeColumn, "lightning"), rest);
      assert TokensOf(TypePieces(f)) == [Word("AND"), Word("a.activity_type"), Equals, Literal("lightning")];
    case OnchainOnly =>
      ComparisonParsed("a.activity_type", Equals, Literal("onchain"), EqualsText(ActivityTypeColumn, "onchain"), rest);
      assert TokensOf(TypePieces(f)) == [Word("AND"), Word("a.activity_type"), Equals, Literal("onchain")];
    case AllActivities =>
      assert TokensOf(TypePieces(f)) + rest == rest;
      NothingPrepended(ParseWhere(rest));
  }

  lemma NothingPrepended(r: Option<(seq<Condition>, seq<Token>)>)
    ensures Prepend([], r) == r
  {
    if r.Some? {
      assert [] + r.value.0 == r.value.0;
    }
  }

  lemma TxTypeParsed(t: Option<PaymentType>, rest: seq<Token>)
    ensures ParseWhere(TokensOf(TxTypePieces(t)) + rest) == Prepend(TxTypeConditions(t), ParseWhere(rest))
  {
    if t.None? {
      assert TokensOf(TxTypePieces(t)) + rest == rest;
      NothingPrepended(ParseWhere(rest));
    } else {
      ColumnsNamed();
      var x := PaymentTypeText(t.value);
      ComparisonParsed("a.tx_type", Equals, Literal(x), EqualsText(TxTypeColumn, x), rest);
      assert TokensOf(TxTypePieces(t)) == [Word("AND"), Word("a.tx_type"), Equals, Literal(x)];
    }
  }

  lemma DateParsed(mark: Token, d: Option<u64>, rest: seq<Token>)
    requires mark == AtLeast || mark == AtMost
    ensures ParseWhere(TokensOf(DatePieces(mark, d)) + rest)
         == Prepend(if mark == AtLeast then MinDateConditions(d) else MaxDateConditions(d), ParseWhere(rest))
  {
    if d.None? {
      assert TokensOf(DatePieces(mark, d)) + rest == rest;
      NothingPrepended(ParseWhere(rest));
    } else {
      hide ParseWhere;
      ColumnsNamed();
      var c := if mark == AtLeast then AtLeastInt(TimestampColumn, d.value) else AtMostInt(TimestampColumn, d.value);
      ComparisonParsed("a.timestamp", mark, Number(d.value), c, rest);
      assert TokensOf(DatePieces(mark, d)) == [Word("AND"), Word("a.timestamp"), mark, Number(d.value)];
    }
  }

  lemma FewTagTokens(tags: seq<string>)
    requires |tags| <= 1
    ensures TokensOf(TagListPieces(tags)) == LiteralList(tags)
  {
  }

  lemma {:induction false} TagListTokens(tags: seq<string>)
    ensures TokensOf(TagListPieces(tags)) == LiteralList(tags)
    decreases |tags|
  {
    hide TokensOf, TagListPieces;
    if |tags| <= 1 {
      FewTagTokens(tags);
    } else {
      var head := [Piece("", Literal(tags[0])), Piece("", Comma)];
      TagListTokens(tags[1..]);
      TagPiecesStep(tags);
      TokensConcat(head, TagListPieces(tags[1..]));
      TwoTokens(head[0], head[1]);
    }
  }

  /** The list of tags is read back in order, up to its bracket. */
  lemma TagListParsed(tags: seq<string>, rest: seq<Token>)
    requires tags != []
    ensures ParseTexts(TokensOf(TagListPieces(tags)) + ([RightParen] + rest)) == Some((tags, rest))
  {
    TagListTokens(tags);
    LiteralsParsed(tags, rest);
  }

  lemma TagsConditionParsed(tags: seq<string>, rest: seq<Token>)
    requires tags != []
    ensures var list := TokensOf(TagListPieces(tags)) + [RightParen];
      ParseCondition([Word("t.tag"), Word("IN"), LeftParen] + list + rest) == Some((InTexts(TagColumn, tags), rest))
  {
    hide ParseTexts, TagListPieces, TokensOf, ColumnNamed;
    ColumnsNamed();
    TagListParsed(tags, rest);
    InListParsed("t.tag", TokensOf(TagListPieces(tags)), tags, rest);
  }

  lemma InListParsed(column: string, list: seq<Token>, texts: seq<string>, rest: seq<Token>)
    requires ColumnNamed(column).Some? && ParseTexts(list + ([RightParen] + rest)) == Some((texts, rest))
    ensures ParseCondition([Word(column), Word("IN"), LeftParen] + (list + [RightParen]) + rest)
         == Some((InTexts(ColumnNamed(column).value, texts), rest))
  {
    hide ParseTexts, ColumnNamed;
    var ts := [Word(column), Word("IN"), LeftParen] + (list + [RightParen]) + rest;
    assert ts[3..] == list + ([RightParen] + rest);
    assert |ts| > 3;
  }

  lemma TagsParsed(tags: Option<seq<string>>, rest: seq<Token>)
    ensures ParseWhere(TokensOf(TagsPieces(tags)) + rest) == Prepend(TagsConditions(tags), ParseWhere(rest))
  {
    if tags.None? || tags.value == [] {
      assert TokensOf(TagsPieces(tags)) + rest == rest;
      NothingPrepended(ParseWhere(rest));
    } else {
      var list := TagListPieces(tags.value);
      TagsConditionParsed(tags.value, rest);
      var body := [Word("t.tag"), Word("IN"), LeftParen] + (TokensOf(list) + [RightParen]);
      WhereStep(body, InTexts(TagColumn, tags.value), rest);
      TagsTokens(tags.value);
    }
  }

  lemma TagsTokens(tags: seq<string>)
    requires tags != []
    ensures TokensOf(TagsPieces(Some(tags)))
         == [Word("AND")] + ([Word("t.tag"), Word("IN"), LeftParen] + (TokensOf(TagListPieces(tags)) + [RightParen]))
  {
  }

  lemma LikesParsed(p: string, rest: seq<Token>)
    ensures ParseLikes([Word("o.address"), Word("LIKE"), Literal(p), Word("OR")]
                       + ([Word("l.invoice"), Word("LIKE"), Literal(p), Word("OR")]
                          + ([Word("l.message"), Word("LIKE"), Literal(p), RightParen] + rest)))
         == Some(([(AddressColumn, p), (InvoiceColumn, p), (MessageColumn, p)], rest))
  {
    ColumnsNamed();
    var third := [Word("l.message"), Word("LIKE"), Literal(p), RightParen] + rest;
    var second := [Word("l.invoice"), Word("LIKE"), Literal(p), Word("OR")] + third;
    var first := [Word("o.address"), Word("LIKE"), Literal(p), Word("OR")] + second;
    assert first[4..] == second && second[4..] == third && third[4..] == rest;
    assert ParseLikes(third) == Some(([(MessageColumn, p)], rest));
    assert ParseLikes(second) == Some(([(InvoiceColumn, p)] + [(MessageColumn, p)], rest));
    assert ParseLikes(first) == Some(([(AddressColumn, p)] + ([(InvoiceColumn, p)] + [(MessageColumn, p)]), rest));
    assert [(AddressColumn, p)] + ([(InvoiceColumn, p)] + [(MessageColumn, p)])
        == [(AddressColumn, p), (InvoiceColumn, p), (MessageColumn, p)];
  }

  function SearchTokens(p: string): seq<Token> {
    [LeftParen] + ([Word("o.address"), Word("LIKE"), Literal(p), Word("OR")]
                   + [Word("l.invoice"), Word("LIKE"), Literal(p), Word("OR")]
                   + [Word("l.message"), Word("LIKE"), Literal(p), RightParen])
  }

  lemma SearchConditionParsed(p: string, rest: seq<Token>)
    ensures ParseCondition(SearchTokens(p) + rest)
         == Some((AnyLike([(AddressColumn, p), (InvoiceColumn, p), (MessageColumn, p)]), rest))
  {
    hide ParseLikes;
    LikesParsed(p, rest);
    assert (SearchTokens(p) + rest)[1..]
        == [Word("o.address"), Word("LIKE"), Literal(p), Word("OR")]
           + ([Word("l.invoice"), Word("LIKE"), Literal(p), Word("OR")]
              + ([Word("l.message"), Word("LIKE"), Literal(p), RightParen] + rest));
  }

  lemma SearchTokenized(s: string)
    requires s != ""
    ensures TokensOf(SearchPieces(Some(s))) == [Word("AND")] + SearchTokens(SearchPattern(s))
  {
    hide SearchPattern;
  }

  lemma SearchParsed(search: Option<string>, rest: seq<Token>)
    ensures ParseWhere(TokensOf(SearchPieces(search)) + rest) == Prepend(SearchConditions(search), ParseWhere(rest))
  {
    hide ParseWhere, ParseCondition, SearchTokens, SearchPattern;
    if search.None? || search.value == "" {
      assert TokensOf(SearchPieces(search)) + rest == rest;
      NothingPrepended(ParseWhere(rest));
    } else {
      var p := SearchPattern(search.value);
      SearchConditionParsed(p, rest);
      SearchTokenized(search.value);
      WhereStep(SearchTokens(p), AnyLike([(AddressColumn, p), (InvoiceColumn, p), (MessageColumn, p)]), rest);
    }
  }

  lemma TailParsed(q: Query)
    ensures var ts := TokensOf(TailPieces(q));
      && ts[0] == RightParen
      && ParseTail(ts[1..]) == Some((q.direction, q.limit))
  {
  }

  /** SQL reads exactly the conditions, direction and limit that were asked for. */
  lemma PiecesParsed(q: Query)
    ensures Parse(TokensOf(QueryPieces(q))) == Some(Intended(q))
  {
    var a, b, c := TypePieces(q.filter), TxTypePieces(q.txType), TagsPieces(q.tags);
    var d, e := DatePieces(AtLeast, q.minDate), DatePieces(AtMost, q.maxDate);
    var f, tail := SearchPieces(q.search), TokensOf(TailPieces(q));
    TailParsed(q);
    assert ParseWhere(tail) == Some(([], tail[1..]));
    var r5 := TokensOf(f) + tail;
    var r4 := TokensOf(e) + r5;
    var r3 := TokensOf(d) + r4;
    var r2 := TokensOf(c) + r3;
    var r1 := TokensOf(b) + r2;
    SearchParsed(q.search, tail);
    DateParsed(AtMost, q.maxDate, r5);
    DateParsed(AtLeast, q.minDate, r4);
    TagsParsed(q.tags, r3);
    TxTypeParsed(q.txType, r2);
    TypeParsed(q.filter, r1);
    TokensSeven(a, b, c, d, e, f, TailPieces(q));
    ConditionsRegrouped(q);
  }

  lemma TokensSeven(a: seq<Piece>, b: seq<Piece>, c: seq<Piece>, d: seq<Piece>,
                    e: seq<Piece>, f: seq<Piece>, g: seq<Piece>)
    ensures TokensOf(a + b + c + d + e + f + g)
         == TokensOf(a) + (TokensOf(b) + (TokensOf(c) + (TokensOf(d) + (TokensOf(e) + (TokensOf(f) + TokensOf(g))))))
  {
  }

  lemma ConditionsRegrouped(q: Query)
    ensures Conditions(q)
         == TypeConditions(q.filter) + (TxTypeConditions(q.txType) + (TagsConditions(q.tags)
            + (MinDateConditions(q.minDate) + (MaxDateConditions(q.maxDate) + (SearchConditions(q.search) + [])))))
  {
  }

  /** The text get_activities sends means what its arguments ask for, for all tags and searches
      whatever quotes, brackets or SQL they hold; the one exception is a NUL, where SQLite stops
      inside an open literal and refuses the statement. */
  lemma TextMeansQuery(q: Query)
    ensures Prepare(QueryText(q)) == if NulFree(q) then Some(Intended(q)) else None
  {
    QueryRendered(q);
    QueryPiecesSpaced(q);
    TokenizeRendered(QueryPieces(q));
    PiecesParsed(q);
  }

  // ----- whole texts -----

  /** The words that name a direction, a kind and a payment type are the ones the schema and SQL know. */
  lemma WordsSpelled()
    ensures DirectionText(Desc) == "DESC" && DirectionText(Asc) == "ASC"
    ensures ParseTail([Word("DESC")]) == Some((Desc, None)) && ParseTail([Word("ASC")]) == Some((Asc, None))
    ensures TypeClause(LightningOnly) == " AND a.activity_type = 'lightning'"
    ensures TypeClause(OnchainOnly) == " AND a.activity_type = 'onchain'"
    ensures TxTypeClause(Some(Sent)) == " AND a.tx_type = 'sent'"
    ensures TxTypeClause(Some(Received)) == " AND a.tx_type = 'received'"
  {
    assert "DESC"[0] != "ASC"[0];
  }

  /** Without filters the newest come first: the whole text, and what SQL reads in it. */
  lemma PlainRequestMeans()
    ensures var q := Query(AllActivities, None, None, None, None, None, None, Desc);
      QueryText(q) == ") DESC" && Prepare(") DESC") == Some(Prepared([], Desc, None))
  {
    var q := Query(AllActivities, None, None, None, None, None, None, Desc);
    assert QueryText(q) == ") DESC";
    hide QueryText, Prepare;
    TextMeansQuery(q);
  }
}
