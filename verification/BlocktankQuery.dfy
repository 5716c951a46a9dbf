/** The text of get_orders and get_cjit_entries with its `?` marks, what it means once the
    parameters are bound by position, and the order its rows come in. */
module BlocktankQuery {
  import opened Common
  import opened SqlText

  // ----- writing -----

  /** n question marks joined by commas. */
  function Marks(n: nat): string {
    if n == 0 then "" else if n == 1 then "?" else "?" + "," + Marks(n - 1)
  }

  function IdClause(ids: Option<seq<string>>): string {
    if ids.None? then "" else " AND id IN (" + Marks(|ids.value|) + ")"
  }

  function StateClause(column: string, state: Option<string>): string {
    if state.None? then "" else " AND " + column + " = ?"
  }

  function SelectText(column: string, ids: Option<seq<string>>, state: Option<string>): string {
    IdClause(ids) + StateClause(column, state) + " ORDER BY created_at DESC"
  }

  function SelectParams(ids: Option<seq<string>>, state: Option<string>): seq<string> {
    (if ids.Some? then ids.value else []) + (if state.Some? then [state.value] else [])
  }

  // ----- reading -----

  /** The k-th mark stands for the k-th parameter; too few or too many are refused. */
  function Bind(ts: seq<Token>, params: seq<string>): Option<seq<Token>> {
    if ts == [] then if params == [] then Some([]) else None
    else if ts[0] != Parameter then Before(ts[0], Bind(ts[1..], params))
    else if params == [] then None
    else Before(Literal(params[0]), Bind(ts[1..], params[1..]))
  }

  const ORDERING := [Word("ORDER"), Word("BY"), Word("created_at"), Word("DESC")]

  /** `AND column = 'text'`, if it is there, and the ordering. */
  function ParseState(column: string, ts: seq<Token>): Option<Option<string>> {
    if ts == ORDERING then Some(None)
    else if |ts| == 8 && ts[..3] == [Word("AND"), Word(column), Equals] && ts[3].Literal? && ts[4..] == ORDERING
    then Some(Some(ts[3].text))
    else None
  }

  datatype Selection = Selection(ids: Option<seq<string>>, state: Option<string>)

  function ParseSelect(column: string, ts: seq<Token>): Option<Selection> {
    if |ts| >= 5 && ts[..4] == [Word("AND"), Word("id"), Word("IN"), LeftParen] then
      var list: Option<(seq<string>, seq<Token>)> :=
        if ts[4] == RightParen then Some(([], ts[5..])) else ParseTexts(ts[4..]);
      match list
      case None => None
      case Some((ids, rest)) =>
        match ParseState(column, rest)
        case None => None
        case Some(state) => Some(Selection(Some(ids), state))
    else
      match ParseState(column, ts)
      case None => None
      case Some(state) => Some(Selection(None, state))
  }

  /** What SQLite makes of the text and the parameters. */
  function Understood(column: string, text: string, params: seq<string>): Option<Selection> {
    match Tokenize(text)
    case None => None
    case Some(ts) =>
      match Bind(ts, params)
      case None => None
      case Some(bound) => ParseSelect(column, bound)
  }

  // ----- the text is a rendering -----

  function MarkPieces(n: nat): seq<Piece> {
    if n == 0 then [] else if n == 1 then [Piece("", Parameter)]
    else [Piece("", Parameter), Piece("", Comma)] + MarkPieces(n - 1)
  }

  function IdPieces(ids: Option<seq<string>>): seq<Piece> {
    if ids.None? then []
    else
      [W(" ", "AND"), W(" ", "id"), W(" ", "IN"), Piece(" ", LeftParen)]
      + MarkPieces(|ids.value|) + [Piece("", RightParen)]
  }

  function StatePieces(column: string, state: Option<string>): seq<Piece> {
    if state.None? then [] else [W(" ", "AND"), W(" ", column), Piece(" ", Equals), Piece(" ", Parameter)]
  }

  const ORDER_PIECES := [W(" ", "ORDER"), W(" ", "BY"), W(" ", "created_at"), W(" ", "DESC")]

  function SelectPieces(column: string, ids: Option<seq<string>>, state: Option<string>): seq<Piece> {
    IdPieces(ids) + StatePieces(column, state) + ORDER_PIECES
  }

  lemma RenderHead(p: Piece, ps: seq<Piece>)
    ensures Render([p] + ps) == p.space + TokenText(p.token) + Render(ps)
  {
    assert ([p] + ps)[1..] == ps;
  }

  lemma {:induction false} MarksRendered(n: nat)
    ensures Marks(n) == Render(MarkPieces(n))
    decreases n
  {
    if n == 0 {
    } else if n == 1 {
      RenderOne(Piece("", Parameter));
    } else {
      hide Render;
      MarksRendered(n - 1);
      MarksStep(n, TokenText(Parameter), TokenText(Comma));
      RenderHead(Piece("", Comma), MarkPieces(n - 1));
      RenderHead(Piece("", Parameter), [Piece("", Comma)] + MarkPieces(n - 1));
      assert MarkPieces(n) == [Piece("", Parameter)] + ([Piece("", Comma)] + MarkPieces(n - 1));
    }
  }

  lemma MarksStep(n: nat, mark: string, comma: string)
    requires n > 1 && mark == "?" && comma == ","
    ensures Marks(n) == "" + mark + ("" + comma + Marks(n - 1))
  {
  }

  lemma FourRendered(a: Piece, b: Piece, c: Piece, d: Piece)
    ensures Render([a, b, c, d])
         == a.space + TokenText(a.token) + b.space + TokenText(b.token) + c.space + TokenText(c.token)
            + d.space + TokenText(d.token)
  {
    hide Render, TokenText;
    assert [a, b, c, d] == [a] + [b, c, d] && [b, c, d] == [b] + [c, d] && [c, d] == [c] + [d];
    RenderHead(a, [b, c, d]);
    RenderHead(b, [c, d]);
    RenderHead(c, [d]);
    RenderOne(d);
  }

  lemma IdSpelled(and: string, id: string, in_: string, open: string)
    requires and == "AND" && id == "id" && in_ == "IN" && open == "("
    ensures " " + and + " " + id + " " + in_ + " " + open == " AND id IN ("
  {
  }

  lemma IdRendered(ids: Option<seq<string>>)
    ensures IdClause(ids) == Render(IdPieces(ids))
  {
    if ids.None? {
    } else {
      var head := [W(" ", "AND"), W(" ", "id"), W(" ", "IN"), Piece(" ", LeftParen)];
      var marks, close := MarkPieces(|ids.value|), [Piece("", RightParen)];
      hide Render, MarkPieces;
      RenderConcat(head, marks);
      RenderConcat(head + marks, close);
      RenderOne(Piece("", RightParen));
      MarksRendered(|ids.value|);
      FourRendered(W(" ", "AND"), W(" ", "id"), W(" ", "IN"), Piece(" ", LeftParen));
      IdSpelled("AND", "id", "IN", "(");
    }
  }

  lemma StateSpelled(and: string, column: string, equals: string, mark: string)
    requires and == "AND" && equals == "=" && mark == "?"
    ensures " " + and + " " + column + " " + equals + " " + mark == " AND " + column + " = ?"
  {
  }

  lemma StateRendered(column: string, state: Option<string>)
    ensures StateClause(column, state) == Render(StatePieces(column, state))
  {
    if state.None? {
    } else {
      hide Render;
      FourRendered(W(" ", "AND"), W(" ", column), Piece(" ", Equals), Piece(" ", Parameter));
      StateSpelled("AND", column, "=", "?");
    }
  }

  lemma OrderSpelled(order: string, by_: string, created: string, desc: string)
    requires order == "ORDER" && by_ == "BY" && created == "created_at" && desc == "DESC"
    ensures " " + order + " " + by_ + " " + created + " " + desc == " ORDER BY created_at DESC"
  {
  }

  lemma SelectRendered(column: string, ids: Option<seq<string>>, state: Option<string>)
    ensures SelectText(column, ids, state) == Render(SelectPieces(column, ids, state))
  {
    hide Render, IdClause, StateClause, IdPieces, StatePieces;
    IdRendered(ids);
    StateRendered(column, state);
    RenderConcat(IdPieces(ids), StatePieces(column, state));
    RenderConcat(IdPieces(ids) + StatePieces(column, state), ORDER_PIECES);
    FourRendered(W(" ", "ORDER"), W(" ", "BY"), W(" ", "created_at"), W(" ", "DESC"));
    OrderSpelled("ORDER", "BY", "created_at", "DESC");
  }

  // ----- and can be tokenized -----

  /** A column name the tokenizer takes for one word. */
  predicate ColumnName(column: string) {
    column != "" && IsLetter(column[0]) && forall i :: 0 <= i < |column| ==> IsWordChar(column[i])
  }

  lemma Concat(a: seq<Piece>, b: seq<Piece>)
    requires WellSpaced(a) && WellSpaced(b) && AllClean(a) && AllClean(b)
    requires a != [] && b != [] && b[0].space == "" ==> IsMark(b[0].token) || IsMark(a[|a| - 1].token)
    ensures WellSpaced(a + b) && AllClean(a + b)
  {
    hide Readable, HasNul;
  }

  lemma MarkHeadSpaced()
    ensures WellSpaced([Piece("", Parameter), Piece("", Comma)]) && AllClean([Piece("", Parameter), Piece("", Comma)])
  {
    assert Readable(Piece("", Parameter)) && Readable(Piece("", Comma));
    hide Readable;
  }

  lemma {:induction false} MarksSpaced(n: nat)
    ensures WellSpaced(MarkPieces(n)) && AllClean(MarkPieces(n))
    decreases n
  {
    if n <= 1 {
    } else {
      MarkHeadSpaced();
      hide WellSpaced, AllClean;
      MarksSpaced(n - 1);
      Concat([Piece("", Parameter), Piece("", Comma)], MarkPieces(n - 1));
    }
  }

  lemma WordsReadable()
    ensures Readable(W(" ", "AND")) && Readable(W(" ", "id")) && Readable(W(" ", "IN"))
    ensures Readable(W(" ", "ORDER")) && Readable(W(" ", "BY"))
    ensures Readable(W(" ", "created_at")) && Readable(W(" ", "DESC"))
  {
  }

  lemma IdSpaced(ids: Option<seq<string>>)
    ensures WellSpaced(IdPieces(ids)) && AllClean(IdPieces(ids))
  {
    if ids.None? {
    } else {
      var head := [W(" ", "AND"), W(" ", "id"), W(" ", "IN"), Piece(" ", LeftParen)];
      var marks, close := MarkPieces(|ids.value|), [Piece("", RightParen)];
      WordsReadable();
      hide Readable, MarkPieces;
      MarksSpaced(|ids.value|);
      assert Readable(Piece(" ", LeftParen)) && Readable(Piece("", RightParen)) by { MarksReadable(); }
      assert WellSpaced(head) && AllClean(head);
      Concat(head, marks);
      Concat(head + marks, close);
    }
  }

  lemma MarksReadable()
    ensures Readable(Piece(" ", LeftParen)) && Readable(Piece("", RightParen))
    ensures Readable(Piece(" ", Equals)) && Readable(Piece(" ", Parameter))
  {
  }

  lemma StateSpaced(column: string, state: Option<string>)
    requires ColumnName(column)
    ensures WellSpaced(StatePieces(column, state)) && AllClean(StatePieces(column, state))
    ensures StatePieces(column, state) != [] ==> StatePieces(column, state)[0].space == " "
  {
    WordsReadable();
    MarksReadable();
    assert Readable(W(" ", column));
    hide Readable;
  }

  lemma OrderSpaced()
    ensures WellSpaced(ORDER_PIECES) && AllClean(ORDER_PIECES) && ORDER_PIECES[0].space == " "
  {
    WordsReadable();
    hide Readable;
  }

  lemma SelectSpaced(column: string, ids: Option<seq<string>>, state: Option<string>)
    requires ColumnName(column)
    ensures WellSpaced(SelectPieces(column, ids, state)) && AllClean(SelectPieces(column, ids, state))
  {
    hide WellSpaced, AllClean, IdPieces, StatePieces, ColumnName;
    IdSpaced(ids);
    StateSpaced(column, state);
    OrderSpaced();
    Concat(IdPieces(ids), StatePieces(column, state));
    Concat(IdPieces(ids) + StatePieces(column, state), ORDER_PIECES);
  }

  // ----- binding and parsing the tokens -----

  predicate NoMarks(ts: seq<Token>) { forall i :: 0 <= i < |ts| ==> ts[i] != Parameter }

  function Prepend(a: seq<Token>, r: Option<seq<Token>>): Option<seq<Token>> {
    match r case None => None case Some(ts) => Some(a + ts)
  }

  lemma {:induction false} BindPlain(a: seq<Token>, rest: seq<Token>, params: seq<string>)
    requires NoMarks(a)
    ensures Bind(a + rest, params) == Prepend(a, Bind(rest, params))
    decreases |a|
  {
    if a == [] {
      assert a + rest == rest;
      assert Bind(rest, params).Some? ==> [] + Bind(rest, params).value == Bind(rest, params).value;
    } else {
      assert (a + rest)[1..] == a[1..] + rest;
      BindPlain(a[1..], rest, params);
      assert Bind(rest, params).Some? ==> [a[0]] + (a[1..] + Bind(rest, params).value) == a + Bind(rest, params).value;
    }
  }

  lemma MarksTokens(n: nat)
    requires n > 1
    ensures TokensOf(MarkPieces(n)) == [Parameter, Comma] + TokensOf(MarkPieces(n - 1))
  {
    var head := [Piece("", Parameter), Piece("", Comma)];
    TokensConcat(head, MarkPieces(n - 1));
    assert TokensOf(head) == [Parameter, Comma];
  }

  lemma FewMarksTokens()
    ensures TokensOf(MarkPieces(0)) == [] && TokensOf(MarkPieces(1)) == [Parameter]
  {
  }

  /** A mark and a comma take one parameter. */
  lemma BindMark(id: string, rest: seq<Token>, params: seq<string>)
    ensures Bind([Parameter, Comma] + rest, [id] + params) == Before(Literal(id), Before(Comma, Bind(rest, params)))
    ensures Bind([Parameter] + rest, [id] + params) == Before(Literal(id), Bind(rest, params))
  {
    assert ([Parameter, Comma] + rest)[1..] == [Comma] + rest && ([Comma] + rest)[1..] == rest;
    assert ([Parameter] + rest)[1..] == rest && ([id] + params)[1..] == params;
  }

  lemma {:induction false} BindMarks(ids: seq<string>, rest: seq<Token>, params: seq<string>)
    ensures Bind(TokensOf(MarkPieces(|ids|)) + rest, ids + params) == Prepend(LiteralList(ids), Bind(rest, params))
    decreases |ids|
  {
    hide Bind, TokensOf, MarkPieces;
    FewMarksTokens();
    if ids == [] {
      assert [] + rest == rest && ids + params == params;
      assert Bind(rest, params).Some? ==> [] + Bind(rest, params).value == Bind(rest, params).value;
    } else {
      assert ids + params == [ids[0]] + (ids[1..] + params);
      if |ids| == 1 {
        assert ids[1..] + params == params;
        BindMark(ids[0], rest, params);
      } else {
        var more := TokensOf(MarkPieces(|ids| - 1));
        MarksTokens(|ids|);
        BindMarks(ids[1..], rest, params);
        Assoc([Parameter, Comma], more, rest);
        BindMark(ids[0], more + rest, ids[1..] + params);
        PrependTwo(Literal(ids[0]), Comma, LiteralList(ids[1..]), Bind(rest, params));
      }
    }
  }

  lemma PrependTwo(a: Token, b: Token, ts: seq<Token>, r: Option<seq<Token>>)
    ensures Before(a, Before(b, Prepend(ts, r))) == Prepend([a, b] + ts, r)
  {
    assert r.Some? ==> [a] + ([b] + (ts + r.value)) == [a, b] + ts + r.value;
  }

  function StateTokens(column: string, state: Option<string>): seq<Token> {
    (if state.None? then [] else [Word("AND"), Word(column), Equals, Literal(state.value)]) + ORDERING
  }

  lemma OrderingBound()
    ensures TokensOf(ORDER_PIECES) == ORDERING && Bind(ORDERING, []) == Some(ORDERING)
  {
    BindPlain(ORDERING, [], []);
    assert ORDERING + [] == ORDERING;
  }

  lemma BindOne(value: string, rest: seq<Token>)
    ensures Bind([Parameter] + rest, [value]) == Prepend([Literal(value)], Bind(rest, []))
  {
    assert ([Parameter] + rest)[1..] == rest && [value][1..] == [];
  }

  lemma StateTokenized(column: string, value: string)
    ensures TokensOf(StatePieces(column, Some(value))) == [Word("AND"), Word(column), Equals] + [Parameter]
  {
  }

  lemma StateBound(column: string, state: Option<string>)
    ensures Bind(TokensOf(StatePieces(column, state)) + ORDERING, if state.Some? then [state.value] else [])
         == Some(StateTokens(column, state))
  {
    hide Bind;
    OrderingBound();
    if state.None? {
      assert TokensOf(StatePieces(column, state)) + ORDERING == ORDERING;
      assert [] + ORDERING == ORDERING;
    } else {
      var plain := [Word("AND"), Word(column), Equals];
      StateTokenized(column, state.value);
      Assoc(plain, [Parameter], ORDERING);
      BindOne(state.value, ORDERING);
      BindPlain(plain, [Parameter] + ORDERING, [state.value]);
      Assoc(plain, [Literal(state.value)], ORDERING);
      assert plain + [Literal(state.value)] == [Word("AND"), Word(column), Equals, Literal(state.value)];
    }
  }

  lemma StateParsed(column: string, state: Option<string>)
    ensures ParseState(column, StateTokens(column, state)) == Some(state)
  {
    if state.Some? {
      var ts := StateTokens(column, state);
      assert ts[..3] == [Word("AND"), Word(column), Equals] && ts[4..] == ORDERING;
    } else {
      assert StateTokens(column, state) == ORDERING;
    }
  }

  function IdHead(): seq<Token> { [Word("AND"), Word("id"), Word("IN"), LeftParen] }

  function SelectTokens(column: string, ids: Option<seq<string>>, state: Option<string>): seq<Token> {
    if ids.None? then StateTokens(column, state)
    else IdHead() + (LiteralList(ids.value) + ([RightParen] + StateTokens(column, state)))
  }

  lemma HeadTokens()
    ensures TokensOf([W(" ", "AND"), W(" ", "id"), W(" ", "IN"), Piece(" ", LeftParen)]) == IdHead()
    ensures TokensOf([Piece("", RightParen)]) == [RightParen]
  {
  }

  lemma IdPiecesTokens(ids: seq<string>)
    ensures TokensOf(IdPieces(Some(ids))) == IdHead() + TokensOf(MarkPieces(|ids|)) + [RightParen]
  {
    hide MarkPieces, TokensOf;
    var head := [W(" ", "AND"), W(" ", "id"), W(" ", "IN"), Piece(" ", LeftParen)];
    TokensConcat(head, MarkPieces(|ids|));
    TokensConcat(head + MarkPieces(|ids|), [Piece("", RightParen)]);
    HeadTokens();
  }

  lemma AssocFour<T>(a: seq<T>, b: seq<T>, c: seq<T>, d: seq<T>, e: seq<T>)
    ensures a + b + c + d + e == a + (b + (c + (d + e)))
  {
  }

  lemma SelectTokenized(column: string, ids: Option<seq<string>>, state: Option<string>)
    ensures var tail := TokensOf(StatePieces(column, state)) + ORDERING;
      TokensOf(SelectPieces(column, ids, state))
      == if ids.None? then tail else IdHead() + (TokensOf(MarkPieces(|ids.value|)) + ([RightParen] + tail))
  {
    OrderingBound();
    hide StatePieces, MarkPieces, TokensOf, IdHead;
    TokensConcat(IdPieces(ids), StatePieces(column, state));
    TokensConcat(IdPieces(ids) + StatePieces(column, state), ORDER_PIECES);
    if ids.None? {
      NoIdTokens(TokensOf(StatePieces(column, state)));
    } else {
      hide IdPieces;
      IdPiecesTokens(ids.value);
      var marks := TokensOf(MarkPieces(|ids.value|));
      AssocFour(IdHead(), marks, [RightParen], TokensOf(StatePieces(column, state)), ORDERING);
    }
  }

  lemma NoIdTokens(ts: seq<Token>)
    ensures TokensOf(IdPieces(None)) + ts == ts
  {
  }

  lemma SelectBound(column: string, ids: Option<seq<string>>, state: Option<string>)
    ensures Bind(TokensOf(SelectPieces(column, ids, state)), SelectParams(ids, state))
         == Some(SelectTokens(column, ids, state))
  {
    var last := if state.Some? then [state.value] else [];
    StateBound(column, state);
    hide StatePieces, StateTokens, MarkPieces, Bind, LiteralList, SelectPieces, TokensOf;
    SelectTokenized(column, ids, state);
    var tail := TokensOf(StatePieces(column, state)) + ORDERING;
    if ids.None? {
      assert SelectParams(ids, state) == last;
    } else {
      var marks := TokensOf(MarkPieces(|ids.value|));
      BindPlain(IdHead(), marks + ([RightParen] + tail), ids.value + last);
      BindMarks(ids.value, [RightParen] + tail, last);
      BindPlain([RightParen], tail, last);
    }
  }

  lemma StateIsNoId(column: string, state: Option<string>)
    requires column != "id"
    ensures var ts := StateTokens(column, state);
      |ts| >= 5 ==> ts[..4] != [Word("AND"), Word("id"), Word("IN"), LeftParen]
  {
    var ts := StateTokens(column, state);
    if state.Some? {
      assert ts[..4][1] == Word(column);
    }
  }

  lemma IdsParsed(ids: seq<string>, tail: seq<Token>)
    ensures var ts := IdHead() + (LiteralList(ids) + ([RightParen] + tail));
      && |ts| >= 5 && ts[..4] == IdHead()
      && (ids == [] ==> ts[4] == RightParen && ts[5..] == tail)
      && (ids != [] ==> ts[4] != RightParen && ParseTexts(ts[4..]) == Some((ids, tail)))
  {
    hide ParseTexts;
    var ts := IdHead() + (LiteralList(ids) + ([RightParen] + tail));
    if ids == [] {
      assert ts == IdHead() + ([RightParen] + tail);
    } else {
      LiteralsParsed(ids, tail);
      assert ts[4..] == LiteralList(ids) + ([RightParen] + tail);
      assert ts[4] == Literal(ids[0]);
    }
  }

  lemma SelectParsed(column: string, ids: Option<seq<string>>, state: Option<string>)
    requires column != "id"
    ensures ParseSelect(column, SelectTokens(column, ids, state)) == Some(Selection(ids, state))
  {
    hide ParseState, StateTokens, ParseTexts, LiteralList;
    StateParsed(column, state);
    StateIsNoId(column, state);
    if ids.Some? {
      IdsParsed(ids.value, StateTokens(column, state));
    }
  }

  /** The text and the parameters mean the ids and the state asked for, whatever they hold; an empty
      list of ids asks for none. */
  lemma SelectMeans(column: string, ids: Option<seq<string>>, state: Option<string>)
    requires ColumnName(column) && column != "id"
    ensures Understood(column, SelectText(column, ids, state), SelectParams(ids, state)) == Some(Selection(ids, state))
  {
    hide Tokenize, Bind, ParseSelect, SelectText, SelectParams, SelectPieces, SelectTokens, Render;
    SelectRendered(column, ids, state);
    SelectSpaced(column, ids, state);
    TokenizeRendered(SelectPieces(column, ids, state));
    SelectBound(column, ids, state);
    SelectParsed(column, ids, state);
  }

  // ----- ORDER BY created_at DESC -----

  /** Text is compared character by character. */
  predicate AtMostText(a: string, b: string) {
    a == "" || (b != "" && (a[0] < b[0] || (a[0] == b[0] && AtMostText(a[1..], b[1..]))))
  }

  /** A text comes no later than the texts it starts, and otherwise the first character in which two
      texts differ decides. */
  lemma {:induction false} TextOrderIsLexical(a: string, b: string)
    ensures AtMostText(a, b)
      <==> a <= b || exists i :: 0 <= i < |a| && i < |b| && a[..i] == b[..i] && a[i] < b[i]
    decreases |a|
  {
    if a != "" && b != "" {
      var a', b' := a[1..], b[1..];
      TextOrderIsLexical(a', b');
      assert a == [a[0]] + a' && b == [b[0]] + b';
      if i :| 0 <= i < |a'| && i < |b'| && a'[..i] == b'[..i] && a'[i] < b'[i] {
        assert a[0] == b[0] ==> a[..i + 1] == [a[0]] + a'[..i] && b[..i + 1] == [b[0]] + b'[..i];
        assert a[i + 1] < b[i + 1];
      }
      if i :| 0 <= i < |a| && i < |b| && a[..i] == b[..i] && a[i] < b[i] {
        if i == 0 {
          assert a[0] < b[0];
        } else {
          assert a[0] == a[..i][0] == b[..i][0] == b[0];
          assert a'[..i - 1] == a[..i][1..] && b'[..i - 1] == b[..i][1..];
          assert a'[i - 1] < b'[i - 1];
        }
      }
      if a[0] < b[0] {
        assert a[..0] == b[..0];
      }
    }
  }

  lemma {:induction false} TextTotal(a: string, b: string)
    ensures AtMostText(a, b) || AtMostText(b, a)
    decreases |a|
  {
    if a == "" || b == "" {
    } else {
      TextTotal(a[1..], b[1..]);
    }
  }

  lemma {:induction false} TextTransitive(a: string, b: string, c: string)
    requires AtMostText(a, b) && AtMostText(b, c)
    ensures AtMostText(a, c)
    decreases |a|
  {
    if a == "" {
    } else if a[0] == b[0] == c[0] {
      TextTransitive(a[1..], b[1..], c[1..]);
    }
  }
}
