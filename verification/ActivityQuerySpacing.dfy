/** The pieces of the text do not run together, so they can be told apart again. */
module ActivityQuerySpacing {
  import opened Common
  import opened ActivityTypes
  import opened SqlText
  import opened SqlLike
  import opened ActivityQueryText

  lemma WellSpacedConcat(a: seq<Piece>, b: seq<Piece>)
    requires WellSpaced(a) && WellSpaced(b)
    requires b != [] ==> b[0].space != "" || IsMark(b[0].token)
    ensures WellSpaced(a + b)
  {
  }

  lemma TypePiecesClean(f: ActivityFilter)
    ensures AllClean(TypePieces(f))
  {
  }

  lemma TypePiecesSpaced(f: ActivityFilter)
    ensures WellSpaced(TypePieces(f)) && AllClean(TypePieces(f))
  {
    hide AllClean, HasNul;
    TypePiecesClean(f);
    assert Readable(W(" ", "AND"));
    assert Readable(W(" ", "a.activity_type"));
  }

  lemma TxTypePiecesSpaced(t: Option<PaymentType>)
    ensures WellSpaced(TxTypePieces(t)) && AllClean(TxTypePieces(t))
  {
    assert Readable(W(" ", "AND"));
    assert Readable(W(" ", "a.tx_type"));
  }

  lemma {:induction false} TagListSpaced(tags: seq<string>)
    ensures WellSpaced(TagListPieces(tags))
    ensures AllClean(TagListPieces(tags)) <==> forall i :: 0 <= i < |tags| ==> !HasNul(tags[i])
    ensures tags != [] ==> TagListPieces(tags) != []
    decreases |tags|
  {
    if |tags| > 1 {
      var rest := TagListPieces(tags[1..]);
      TagListSpaced(tags[1..]);
      var head := [Piece("", Literal(tags[0])), Piece("", Comma)];
      assert TagListPieces(tags) == head + rest;
      CleanConcat(head, rest);
      assert AllClean(head) <==> Clean(head[0].token) && Clean(head[1].token);
      assert forall i :: 0 <= i < |tags[1..]| ==> tags[1..][i] == tags[i + 1];
    } else if |tags| == 1 {
      assert TagListPieces(tags)[0] == Piece("", Literal(tags[0]));
    }
  }

  lemma TagsPiecesSpaced(tags: Option<seq<string>>)
    ensures WellSpaced(TagsPieces(tags))
    ensures AllClean(TagsPieces(tags))
      <==> (tags.Some? ==> forall i :: 0 <= i < |tags.value| ==> !HasNul(tags.value[i]))
  {
    if tags.Some? && tags.value != [] {
      TagListSpaced(tags.value);
      assert Readable(W(" ", "AND"));
      assert Readable(W(" ", "t.tag"));
      assert Readable(W(" ", "IN"));
      var head := [W(" ", "AND"), W(" ", "t.tag"), W(" ", "IN"), Piece(" ", LeftParen)];
      var list := TagListPieces(tags.value);
      assert WellSpaced(head + list);
      WellSpacedConcat(head + list, [Piece("", RightParen)]);
      CleanConcat(head, list);
      CleanConcat(head + list, [Piece("", RightParen)]);
    }
  }

  lemma CleanConcat(a: seq<Piece>, b: seq<Piece>)
    ensures AllClean(a + b) <==> AllClean(a) && AllClean(b)
  {
    if AllClean(a + b) {
      forall i | 0 <= i < |a|
        ensures Clean(a[i].token)
      {
        assert (a + b)[i] == a[i];
      }
      forall i | 0 <= i < |b|
        ensures Clean(b[i].token)
      {
        assert (a + b)[|a| + i] == b[i];
      }
    }
  }

  lemma DatePiecesSpaced(mark: Token, d: Option<u64>)
    requires mark == AtLeast || mark == AtMost
    ensures WellSpaced(DatePieces(mark, d)) && AllClean(DatePieces(mark, d))
  {
    assert Readable(W(" ", "AND"));
    assert Readable(W(" ", "a.timestamp"));
  }

  lemma IndentIsSpace()
    ensures forall i :: 0 <= i < |INDENT| ==> IsSpace(INDENT[i])
    ensures forall i :: 0 <= i < |OUTDENT| ==> IsSpace(OUTDENT[i])
    ensures INDENT != "" && OUTDENT != ""
  {
  }

  lemma LikePiecesSpaced(column: string, text: string, last: Piece)
    requires Readable(W("", column)) && Readable(last) && last.space != "" && Clean(last.token)
    ensures WellSpaced(LikePieces(column, text) + [last])
    ensures AllClean(LikePieces(column, text) + [last]) <==> !HasNul(text)
  {
    IndentIsSpace();
    assert Readable(W(" ", "LIKE"));
    var ps := LikePieces(column, text) + [last];
    assert ps[2].token == Literal(SearchPattern(text));
    assert HasNul(SearchPattern(text)) <==> HasNul(text) by {
      forall i | 0 <= i < |text|
        ensures text[i] == SearchPattern(text)[i + 1]
      {
      }
    }
    assert Clean(ps[0].token) && Clean(ps[1].token) && Clean(ps[3].token);
    assert Clean(ps[2].token) <==> !HasNul(text);
  }

  lemma ColumnWordsReadable()
    ensures Readable(W("", "o.address")) && Readable(W("", "l.invoice")) && Readable(W("", "l.message"))
  {
  }

  lemma SpacedFour(a: seq<Piece>, b: seq<Piece>, c: seq<Piece>, d: seq<Piece>)
    requires WellSpaced(a) && WellSpaced(b) && WellSpaced(c) && WellSpaced(d)
    requires b != [] && b[0].space != "" && c != [] && c[0].space != "" && d != [] && d[0].space != ""
    ensures WellSpaced(a + b + c + d)
    ensures AllClean(a + b + c + d) <==> AllClean(a) && AllClean(b) && AllClean(c) && AllClean(d)
  {
    WellSpacedConcat(a, b);
    WellSpacedConcat(a + b, c);
    WellSpacedConcat(a + b + c, d);
    CleanConcat(a, b);
    CleanConcat(a + b, c);
    CleanConcat(a + b + c, d);
  }

  lemma OpenSpaced()
    ensures WellSpaced([W(" ", "AND"), Piece(" ", LeftParen)]) && AllClean([W(" ", "AND"), Piece(" ", LeftParen)])
  {
    assert Readable(W(" ", "AND"));
  }

  lemma ClosingPieces()
    ensures Readable(W(" ", "OR")) && W(" ", "OR").space != "" && Clean(W(" ", "OR").token)
    ensures Readable(Piece(OUTDENT, RightParen)) && OUTDENT != "" && INDENT != ""
  {
    IndentIsSpace();
  }

  lemma SearchPiecesSpaced(search: Option<string>)
    ensures WellSpaced(SearchPieces(search))
    ensures AllClean(SearchPieces(search)) <==> (search.Some? ==> !HasNul(search.value))
  {
    if search.Some? && search.value != "" {
      hide Readable, HasNul, SearchPattern, WellSpaced, AllClean, SearchPieces;
      var s := search.value;
      var or, close := W(" ", "OR"), Piece(OUTDENT, RightParen);
      ClosingPieces();
      ColumnWordsReadable();
      OpenSpaced();
      LikePiecesSpaced("o.address", s, or);
      LikePiecesSpaced("l.invoice", s, or);
      LikePiecesSpaced("l.message", s, close);
      var open := [W(" ", "AND"), Piece(" ", LeftParen)];
      var address, invoice := LikePieces("o.address", s) + [or], LikePieces("l.invoice", s) + [or];
      var message := LikePieces("l.message", s) + [close];
      SpacedFour(open, address, invoice, message);
      SearchRegrouped(s);
    }
  }

  lemma TailPiecesSpaced(q: Query)
    ensures WellSpaced(TailPieces(q)) && AllClean(TailPieces(q))
  {
    assert Readable(W(" ", "ASC")) && Readable(W(" ", "DESC")) && Readable(W(" ", "LIMIT"));
  }

  lemma QueryPiecesSpaced(q: Query)
    ensures WellSpaced(QueryPieces(q))
    ensures AllClean(QueryPieces(q)) <==> NulFree(q)
  {
    var a, b, c := TypePieces(q.filter), TxTypePieces(q.txType), TagsPieces(q.tags);
    var d, e := DatePieces(AtLeast, q.minDate), DatePieces(AtMost, q.maxDate);
    var f, g := SearchPieces(q.search), TailPieces(q);
    TypePiecesSpaced(q.filter);
    TxTypePiecesSpaced(q.txType);
    TagsPiecesSpaced(q.tags);
    DatePiecesSpaced(AtLeast, q.minDate);
    DatePiecesSpaced(AtMost, q.maxDate);
    SearchPiecesSpaced(q.search);
    TailPiecesSpaced(q);
    ClausesStartSpaced(q);
    SpacedSeven(a, b, c, d, e, f, g);
  }

  lemma ClausesStartSpaced(q: Query)
    ensures TxTypePieces(q.txType) != [] ==> TxTypePieces(q.txType)[0].space != ""
    ensures TagsPieces(q.tags) != [] ==> TagsPieces(q.tags)[0].space != ""
    ensures DatePieces(AtLeast, q.minDate) != [] ==> DatePieces(AtLeast, q.minDate)[0].space != ""
    ensures DatePieces(AtMost, q.maxDate) != [] ==> DatePieces(AtMost, q.maxDate)[0].space != ""
    ensures SearchPieces(q.search) != [] ==> SearchPieces(q.search)[0].space != ""
    ensures TailPieces(q)[0].token == RightParen
  {
  }

  lemma SpacedSeven(a: seq<Piece>, b: seq<Piece>, c: seq<Piece>, d: seq<Piece>,
                    e: seq<Piece>, f: seq<Piece>, g: seq<Piece>)
    requires WellSpaced(a) && WellSpaced(b) && WellSpaced(c) && WellSpaced(d)
    requires WellSpaced(e) && WellSpaced(f) && WellSpaced(g)
    requires b != [] ==> b[0].space != ""
    requires c != [] ==> c[0].space != ""
    requires d != [] ==> d[0].space != ""
    requires e != [] ==> e[0].space != ""
    requires f != [] ==> f[0].space != ""
    requires g != [] && IsMark(g[0].token)
    ensures WellSpaced(a + b + c + d + e + f + g)
    ensures AllClean(a + b + c + d + e + f + g)
      <==> AllClean(a) && AllClean(b) && AllClean(c) && AllClean(d) && AllClean(e) && AllClean(f) && AllClean(g)
  {
    WellSpacedConcat(a, b);
    WellSpacedConcat(a + b, c);
    WellSpacedConcat(a + b + c, d);
    WellSpacedConcat(a + b + c + d, e);
    WellSpacedConcat(a + b + c + d + e, f);
    WellSpacedConcat(a + b + c + d + e + f, g);
    CleanConcat(a, b);
    CleanConcat(a + b, c);
    CleanConcat(a + b + c, d);
    CleanConcat(a + b + c + d, e);
    CleanConcat(a + b + c + d + e, f);
    CleanConcat(a + b + c + d + e + f, g);
  }
}
