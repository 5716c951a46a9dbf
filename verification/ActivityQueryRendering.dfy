/** The text of get_activities is the rendering of its pieces. */
module ActivityQueryRendering {
  import opened Common
  import opened ActivityTypes
  import opened SqlText
  import opened SqlLike
  import opened ActivityQueryText

  lemma RenderTwo(a: Piece, b: Piece)
    ensures Render([a, b]) == a.space + TokenText(a.token) + (b.space + TokenText(b.token))
  {
    assert [a, b][1..] == [b] && [b][1..] == [];
    assert Render([b]) == b.space + TokenText(b.token) + Render([]);
  }

  /** A condition on one column, rendered. */
  lemma ConditionRendered(column: string, mark: Token, value: Token)
    ensures Render([W(" ", "AND"), W(" ", column), Piece(" ", mark), Piece(" ", value)])
         == " " + "AND" + (" " + column) + (" " + TokenText(mark) + (" " + TokenText(value)))
  {
    var left, right := [W(" ", "AND"), W(" ", column)], [Piece(" ", mark), Piece(" ", value)];
    RenderConcat(left, right);
    RenderTwo(W(" ", "AND"), W(" ", column));
    RenderTwo(Piece(" ", mark), Piece(" ", value));
    assert left + right == [W(" ", "AND"), W(" ", column), Piece(" ", mark), Piece(" ", value)];
  }

  lemma {:induction false} EscapePlain(text: string)
    requires '\'' !in text
    ensures Escape(text) == text
  {
    if text == "" {
    } else {
      EscapePlain(text[1..]);
    }
  }

  lemma LightningSpelled()
    ensures " AND a.activity_type = 'lightning'"
         == " " + "AND" + (" " + "a.activity_type") + (" " + "=" + (" " + ("'" + "lightning" + "'")))
  {
  }

  lemma OnchainSpelled()
    ensures " AND a.activity_type = 'onchain'"
         == " " + "AND" + (" " + "a.activity_type") + (" " + "=" + (" " + ("'" + "onchain" + "'")))
  {
  }

  lemma TypeRendered(f: ActivityFilter)
    ensures TypeClause(f) == Render(TypePieces(f))
  {
    match f
    case LightningOnly =>
      LightningSpelled();
      EscapePlain("lightning");
      ConditionRendered("a.activity_type", Equals, Literal("lightning"));
    case OnchainOnly =>
      OnchainSpelled();
      EscapePlain("onchain");
      ConditionRendered("a.activity_type", Equals, Literal("onchain"));
    case AllActivities =>
  }

  lemma TxTypeSpelled(x: string)
    ensures " AND a.tx_type = '" + x + "'" == " " + "AND" + (" " + "a.tx_type") + (" " + "=" + (" " + ("'" + x + "'")))
  {
  }

  lemma TxTypeRendered(t: Option<PaymentType>)
    ensures TxTypeClause(t) == Render(TxTypePieces(t))
  {
    if t.Some? {
      EscapePlain("sent");
      EscapePlain("received");
      TxTypeSpelled(PaymentTypeText(t.value));
      ConditionRendered("a.tx_type", Equals, Literal(PaymentTypeText(t.value)));
    }
  }

  lemma JoinQuotedStep(tags: seq<string>, joint: string)
    requires |tags| > 1 && joint == ","
    ensures JoinQuoted(tags) == TokenText(Literal(tags[0])) + joint + JoinQuoted(tags[1..])
  {
    hide Escape;
  }

  lemma {:induction false} TagListRendered(tags: seq<string>)
    ensures JoinQuoted(tags) == Render(TagListPieces(tags))
    decreases |tags|
  {
    if |tags| == 1 {
      hide Escape;
      RenderOne(Piece("", Literal(tags[0])));
    } else if |tags| > 1 {
      hide Render, Escape, JoinQuoted, TagListPieces, Quote;
      var first, comma := Piece("", Literal(tags[0])), Piece("", Comma);
      TagPiecesStep(tags);
      JoinQuotedStep(tags, TokenText(Comma));
      TagListRendered(tags[1..]);
      RenderTwo(first, comma);
      RenderConcat([first, comma], TagListPieces(tags[1..]));
    }
  }

  lemma TagsSpelled()
    ensures " AND t.tag IN (" == " " + "AND" + (" " + "t.tag") + (" " + "IN" + (" " + "("))
  {
  }

  lemma TagsRendered(tags: Option<seq<string>>)
    ensures TagsClause(tags) == Render(TagsPieces(tags))
  {
    if tags.Some? && tags.value != [] {
      TagsSpelled();
      TagListRendered(tags.value);
      ConditionRendered("t.tag", Word("IN"), LeftParen);
      RenderOne(Piece("", RightParen));
      var head := [W(" ", "AND"), W(" ", "t.tag"), W(" ", "IN"), Piece(" ", LeftParen)];
      RenderConcat(head, TagListPieces(tags.value));
      RenderConcat(head + TagListPieces(tags.value), [Piece("", RightParen)]);
    }
  }

  lemma DateSpelled(x: string)
    ensures " AND a.timestamp >= " + x == " " + "AND" + (" " + "a.timestamp") + (" " + ">=" + (" " + x))
    ensures " AND a.timestamp <= " + x == " " + "AND" + (" " + "a.timestamp") + (" " + "<=" + (" " + x))
  {
  }

  lemma DatesRendered(min: Option<u64>, max: Option<u64>)
    ensures MinDateClause(min) == Render(DatePieces(AtLeast, min))
    ensures MaxDateClause(max) == Render(DatePieces(AtMost, max))
  {
    if min.Some? {
      DateSpelled(DecimalText(min.value));
      ConditionRendered("a.timestamp", AtLeast, Number(min.value));
    }
    if max.Some? {
      DateSpelled(DecimalText(max.value));
      ConditionRendered("a.timestamp", AtMost, Number(max.value));
    }
  }

  lemma {:induction false} EscapeConcat(a: string, b: string)
    ensures Escape(a + b) == Escape(a) + Escape(b)
  {
    if a == "" {
      assert a + b == b;
    } else {
      assert (a + b)[1..] == a[1..] + b;
      EscapeConcat(a[1..], b);
    }
  }

  /** Escaping the search text or the finished pattern is the same. */
  lemma EscapePattern(text: string)
    ensures Escape(SearchPattern(text)) == "%" + Escape(text) + "%"
  {
    EscapeConcat("%" + text, "%");
    EscapeConcat("%", text);
    EscapePlain("%");
  }

  lemma LikeSpelled(indent: string, column: string, pattern: string, after: string)
    ensures indent + column + " LIKE '" + pattern + "'" + after
         == indent + column + (" " + "LIKE") + (" " + ("'" + pattern + "'") + after)
  {
  }

  lemma LikeRendered(column: string, text: string, last: Piece)
    ensures Render(LikePieces(column, text) + [last])
         == LikeText(column, "%" + Escape(text) + "%", last.space + TokenText(last.token))
  {
    EscapePattern(text);
    var pattern := Piece(" ", Literal(SearchPattern(text)));
    RenderTwo(W(INDENT, column), W(" ", "LIKE"));
    RenderTwo(pattern, last);
    RenderConcat([W(INDENT, column), W(" ", "LIKE")], [pattern, last]);
    assert LikePieces(column, text) + [last] == [W(INDENT, column), W(" ", "LIKE")] + [pattern, last];
    LikeSpelled(INDENT, column, "%" + Escape(text) + "%", last.space + TokenText(last.token));
  }

  lemma SearchRendered(search: Option<string>)
    ensures SearchClause(search) == Render(SearchPieces(search))
  {
    if search.Some? && search.value != "" {
      var s := search.value;
      var or, close := W(" ", "OR"), Piece(OUTDENT, RightParen);
      var open := [W(" ", "AND"), Piece(" ", LeftParen)];
      var address, invoice := LikePieces("o.address", s) + [or], LikePieces("l.invoice", s) + [or];
      var message := LikePieces("l.message", s) + [close];
      hide Render, LikePieces, SearchPieces, Escape;
      SearchRegrouped(s);
      RenderConcat(open, address);
      RenderConcat(open + address, invoice);
      RenderConcat(open + address + invoice, message);
      RenderTwo(W(" ", "AND"), Piece(" ", LeftParen));
      LikeRendered("o.address", s, or);
      LikeRendered("l.invoice", s, or);
      LikeRendered("l.message", s, close);
      assert " AND (" == " " + "AND" + (" " + "(");
      assert " OR" == " " + "OR";
    }
  }

  lemma TailRendered(q: Query)
    ensures ")" + " " + DirectionText(q.direction) + LimitClause(q.limit) == Render(TailPieces(q))
  {
    var close, direction := Piece("", RightParen), W(" ", DirectionText(q.direction));
    RenderTwo(close, direction);
    if q.limit.Some? {
      var word, n := W(" ", "LIMIT"), Piece(" ", Number(q.limit.value));
      RenderTwo(word, n);
      RenderConcat([close, direction], [word, n]);
      assert " LIMIT " == " " + "LIMIT" + " ";
    } else {
      assert TailPieces(q) == [close, direction];
    }
  }

  lemma QueryRendered(q: Query)
    ensures QueryText(q) == Render(QueryPieces(q))
  {
    TypeRendered(q.filter);
    TxTypeRendered(q.txType);
    TagsRendered(q.tags);
    DatesRendered(q.minDate, q.maxDate);
    SearchRendered(q.search);
    TailRendered(q);
    RenderSeven(TypePieces(q.filter), TxTypePieces(q.txType), TagsPieces(q.tags), DatePieces(AtLeast, q.minDate),
                DatePieces(AtMost, q.maxDate), SearchPieces(q.search), TailPieces(q));
    TextRegrouped(TypeClause(q.filter) + TxTypeClause(q.txType) + TagsClause(q.tags) + MinDateClause(q.minDate)
                  + MaxDateClause(q.maxDate) + SearchClause(q.search),
                  ")", " ", DirectionText(q.direction), LimitClause(q.limit));
  }

  lemma TextRegrouped(a: string, b: string, c: string, d: string, e: string)
    ensures a + b + c + d + e == a + (b + c + d + e)
  {
  }

  lemma RenderSeven(a: seq<Piece>, b: seq<Piece>, c: seq<Piece>, d: seq<Piece>,
                    e: seq<Piece>, f: seq<Piece>, g: seq<Piece>)
    ensures Render(a + b + c + d + e + f + g)
         == Render(a) + Render(b) + Render(c) + Render(d) + Render(e) + Render(f) + Render(g)
  {
    RenderConcat(a, b);
    RenderConcat(a + b, c);
    RenderConcat(a + b + c, d);
    RenderConcat(a + b + c + d, e);
    RenderConcat(a + b + c + d + e, f);
    RenderConcat(a + b + c + d + e + f, g);
  }
}
