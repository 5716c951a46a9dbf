/** The SQL text get_activities grows, and SQL's own reading of it.

    A clause is rendered from pieces, each a token behind its spacing. Tokenizing a rendering
    gives the tokens back whatever the literals contain, or fails when a literal holds a NUL,
    where SQLite stops reading the text inside an open quote. A qualified column name counts as
    one word.
  */
module SqlText {
  import opened Common

  datatype Token =
    | Word(word: string)
    | Number(n: nat)
    | Literal(text: string)
    | LeftParen | RightParen | Comma | Equals | AtLeast | AtMost
    | Parameter

  datatype Piece = Piece(space: string, token: Token)

  // ----- characters -----

  predicate IsSpace(c: char) { c == ' ' || c == '\n' || c == '\t' || c == '\r' }

  predicate IsWordChar(c: char) { IsLetter(c) || IsDigit(c) || c == '_' || c == '.' }

  // ----- writing -----

  /** `text.replace('\'', "''")` */
  function Escape(text: string): string {
    if text == "" then ""
    else (if text[0] == '\'' then "''" else [text[0]]) + Escape(text[1..])
  }

  function DigitOf(d: nat): char
    requires d < 10
  {
    ('0' as int + d) as char
  }

  function DecimalText(n: nat): string {
    if n < 10 then [DigitOf(n)] else DecimalText(n / 10) + [DigitOf(n % 10)]
  }

  function TokenText(t: Token): string {
    match t
    case Word(w) => w
    case Number(n) => DecimalText(n)
    case Literal(x) => "'" + Escape(x) + "'"
    case LeftParen => "("
    case RightParen => ")"
    case Comma => ","
    case Equals => "="
    case AtLeast => ">="
    case AtMost => "<="
    case Parameter => "?"
  }

  function Render(ps: seq<Piece>): string {
    if ps == [] then "" else ps[0].space + TokenText(ps[0].token) + Render(ps[1..])
  }

  lemma {:induction false} RenderConcat(a: seq<Piece>, b: seq<Piece>)
    ensures Render(a + b) == Render(a) + Render(b)
  {
    if a == [] {
      assert a + b == b;
    } else {
      assert (a + b)[1..] == a[1..] + b;
      RenderConcat(a[1..], b);
    }
  }

  lemma RenderOne(p: Piece)
    ensures Render([p]) == p.space + TokenText(p.token)
  {
    assert [p][1..] == [];
  }

  /** A word behind its spacing. */
  function W(space: string, word: string): Piece { Piece(space, Word(word)) }

  // ----- reading -----

  datatype Scanned = Scanned(token: Token, rest: string) | EndOfText | Illegal

  function SkipSpace(s: string): (r: string)
    ensures |r| <= |s|
    ensures r != "" ==> !IsSpace(r[0])
  {
    if s != "" && IsSpace(s[0]) then SkipSpace(s[1..]) else s
  }

  function WordLength(s: string): (n: nat)
    ensures n <= |s|
  {
    if s != "" && IsWordChar(s[0]) then 1 + WordLength(s[1..]) else 0
  }

  function DigitsLength(s: string): (n: nat)
    ensures n <= |s|
  {
    if s != "" && IsDigit(s[0]) then 1 + DigitsLength(s[1..]) else 0
  }

  function DigitValue(c: char): nat { if IsDigit(c) then c as int - '0' as int else 0 }

  function DecimalValue(s: string): nat {
    if s == "" then 0 else DecimalValue(s[..|s| - 1]) * 10 + DigitValue(s[|s| - 1])
  }

  /** The rest of a quoted literal: a doubled quote stands for one, a single one closes it. */
  function ReadLiteral(s: string): (r: Option<(string, string)>)
    ensures r.Some? ==> |r.value.1| < |s|
  {
    if s == "" || s[0] == '\0' then None
    else if s[0] != '\'' then
      match ReadLiteral(s[1..])
      case None => None
      case Some((text, rest)) => Some(([s[0]] + text, rest))
    else if |s| > 1 && s[1] == '\'' then
      match ReadLiteral(s[2..])
      case None => None
      case Some((text, rest)) => Some(("'" + text, rest))
    else Some(("", s[1..]))
  }

  function NextToken(text: string): (r: Scanned)
    ensures r.Scanned? ==> |r.rest| < |text|
  {
    var s := SkipSpace(text);
    if s == "" || s[0] == '\0' then EndOfText
    else if IsLetter(s[0]) then Scanned(Word(s[..WordLength(s)]), s[WordLength(s)..])
    else if IsDigit(s[0]) then Scanned(Number(DecimalValue(s[..DigitsLength(s)])), s[DigitsLength(s)..])
    else if s[0] == '\'' then
      match ReadLiteral(s[1..])
      case None => Illegal
      case Some((x, rest)) => Scanned(Literal(x), rest)
    else if s[0] == '(' then Scanned(LeftParen, s[1..])
    else if s[0] == ')' then Scanned(RightParen, s[1..])
    else if s[0] == ',' then Scanned(Comma, s[1..])
    else if s[0] == '=' then Scanned(Equals, s[1..])
    else if s[0] == '?' then Scanned(Parameter, s[1..])
    else if s[0] == '>' && |s| > 1 && s[1] == '=' then Scanned(AtLeast, s[2..])
    else if s[0] == '<' && |s| > 1 && s[1] == '=' then Scanned(AtMost, s[2..])
    else Illegal
  }

  function Tokenize(text: string): Option<seq<Token>>
    decreases |text|
  {
    match NextToken(text)
    case EndOfText => Some([])
    case Illegal => None
    case Scanned(t, rest) =>
      match Tokenize(rest)
      case None => None
      case Some(ts) => Some([t] + ts)
  }

  // ----- lists of literals -----

  /** 'a','b',...) */
  function ParseTexts(ts: seq<Token>): (r: Option<(seq<string>, seq<Token>)>)
    ensures r.Some? ==> |r.value.1| < |ts|
  {
    if |ts| < 2 || !ts[0].Literal? then None
    else if ts[1] == RightParen then Some(([ts[0].text], ts[2..]))
    else if ts[1] == Comma then
      match ParseTexts(ts[2..])
      case None => None
      case Some((texts, rest)) => Some(([ts[0].text] + texts, rest))
    else None
  }

  /** The texts as literals between commas. */
  function LiteralList(texts: seq<string>): seq<Token> {
    if texts == [] then [] else if |texts| == 1 then [Literal(texts[0])]
    else [Literal(texts[0]), Comma] + LiteralList(texts[1..])
  }

  lemma Assoc<T>(a: seq<T>, b: seq<T>, c: seq<T>)
    ensures a + b + c == a + (b + c)
  {
  }

  lemma ParseTextsStep(text: string, more: seq<Token>)
    ensures ParseTexts([Literal(text), Comma] + more)
         == match ParseTexts(more) { case None => None case Some((more', rest)) => Some(([text] + more', rest)) }
  {
    assert ([Literal(text), Comma] + more)[2..] == more;
  }

  lemma {:induction false} LiteralsParsed(texts: seq<string>, rest: seq<Token>)
    requires texts != []
    ensures ParseTexts(LiteralList(texts) + ([RightParen] + rest)) == Some((texts, rest))
    decreases |texts|
  {
    if |texts| == 1 {
      var ts := LiteralList(texts) + ([RightParen] + rest);
      assert ts[2..] == rest && texts == [texts[0]];
    } else {
      hide ParseTexts;
      LiteralsParsed(texts[1..], rest);
      Assoc([Literal(texts[0]), Comma], LiteralList(texts[1..]), [RightParen] + rest);
      ParseTextsStep(texts[0], LiteralList(texts[1..]) + ([RightParen] + rest));
      assert texts == [texts[0]] + texts[1..];
    }
  }

  // ----- reading back one token -----

  predicate HasNul(text: string) { '\0' in text }

  lemma {:induction false} LiteralReadBack(x: string, rest: string)
    requires rest == "" || rest[0] != '\''
    ensures ReadLiteral(Escape(x) + "'" + rest) == if HasNul(x) then None else Some((x, rest))
    decreases |x|
  {
    var s := Escape(x) + "'" + rest;
    if x == "" {
      assert s == "'" + rest;
      assert s[1..] == rest;
    } else {
      LiteralReadBack(x[1..], rest);
      assert x == [x[0]] + x[1..];
      if x[0] == '\'' {
        assert s[2..] == Escape(x[1..]) + "'" + rest;
      } else {
        assert s[1..] == Escape(x[1..]) + "'" + rest;
      }
    }
  }

  lemma {:induction false} DecimalReadBack(n: nat)
    ensures DecimalText(n) != ""
    ensures forall i :: 0 <= i < |DecimalText(n)| ==> IsDigit(DecimalText(n)[i])
    ensures DecimalValue(DecimalText(n)) == n
    ensures n > 0 ==> DecimalText(n)[0] != '0'
  {
    if n >= 10 {
      DecimalReadBack(n / 10);
      assert DecimalText(n)[..|DecimalText(n)| - 1] == DecimalText(n / 10);
    } else {
      assert DecimalText(n)[..0] == "";
    }
  }

  function Pow10(k: nat): nat { if k == 0 then 1 else 10 * Pow10(k - 1) }

  /** The first digit weighs most. */
  lemma {:induction false} FirstDigitWeighsMost(s: string)
    requires s != ""
    ensures DecimalValue(s) == DigitValue(s[0]) * Pow10(|s| - 1) + DecimalValue(s[1..])
    decreases |s|
  {
    if |s| == 1 {
      assert s[..0] == "" && s[1..] == "";
    } else {
      var init := s[..|s| - 1];
      FirstDigitWeighsMost(init);
      assert s[1..][..|s| - 2] == init[1..];
      TenTimes(DigitValue(s[0]), Pow10(|s| - 2), DecimalValue(init[1..]));
    }
  }

  lemma TenTimes(d: nat, p: nat, rest: nat)
    ensures (d * p + rest) * 10 == d * (10 * p) + rest * 10
  {
  }

  lemma {:induction false} WordLengthExact(w: string, rest: string)
    requires forall i :: 0 <= i < |w| ==> IsWordChar(w[i])
    requires rest == "" || !IsWordChar(rest[0])
    ensures WordLength(w + rest) == |w|
    decreases |w|
  {
    if w == "" {
      assert w + rest == rest;
    } else {
      assert (w + rest)[1..] == w[1..] + rest;
      WordLengthExact(w[1..], rest);
    }
  }

  lemma {:induction false} DigitsLengthExact(w: string, rest: string)
    requires forall i :: 0 <= i < |w| ==> IsDigit(w[i])
    requires rest == "" || !IsDigit(rest[0])
    ensures DigitsLength(w + rest) == |w|
    decreases |w|
  {
    if w == "" {
      assert w + rest == rest;
    } else {
      assert (w + rest)[1..] == w[1..] + rest;
      DigitsLengthExact(w[1..], rest);
    }
  }

  lemma {:induction false} SpaceSkipped(space: string, s: string)
    requires forall i :: 0 <= i < |space| ==> IsSpace(space[i])
    requires s != "" && !IsSpace(s[0])
    ensures SkipSpace(space + s) == s
    decreases |space|
  {
    if space == "" {
      assert space + s == s;
    } else {
      assert (space + s)[1..] == space[1..] + s;
      SpaceSkipped(space[1..], s);
    }
  }

  predicate Readable(p: Piece) {
    && (forall i :: 0 <= i < |p.space| ==> IsSpace(p.space[i]))
    && (p.token.Word? ==>
          && p.token.word != "" && IsLetter(p.token.word[0])
          && forall i :: 0 <= i < |p.token.word| ==> IsWordChar(p.token.word[i]))
  }

  /** A word, number or literal ends where the next character cannot belong to it. */
  predicate EndsAt(t: Token, rest: string) {
    (t.Word? || t.Number? || t.Literal?) && rest != "" ==> !IsWordChar(rest[0]) && rest[0] != '\''
  }

  predicate Clean(t: Token) { t.Literal? ==> !HasNul(t.text) }

  lemma TokenReadBack(p: Piece, rest: string)
    requires Readable(p) && EndsAt(p.token, rest)
    ensures NextToken(p.space + TokenText(p.token) + rest)
         == if Clean(p.token) then Scanned(p.token, rest) else Illegal
  {
    var body := TokenText(p.token) + rest;
    assert p.space + TokenText(p.token) + rest == p.space + body;
    if p.token.Number? {
      DecimalReadBack(p.token.n);
    }
    SpaceSkipped(p.space, body);
    BodyReadBack(p.token, rest);
  }

  lemma BodyReadBack(t: Token, rest: string)
    requires Readable(Piece("", t)) && EndsAt(t, rest)
    ensures NextToken(TokenText(t) + rest) == if Clean(t) then Scanned(t, rest) else Illegal
  {
    match t
    case Word(w) => WordReadBack(w, rest);
    case Number(n) => NumberReadBack(n, rest);
    case Literal(x) => QuotedReadBack(x, rest);
    case AtLeast => assert (">=" + rest)[2..] == rest;
    case AtMost => assert ("<=" + rest)[2..] == rest;
    case _ => assert (TokenText(t) + rest)[1..] == rest;
  }

  lemma WordReadBack(w: string, rest: string)
    requires Readable(Piece("", Word(w))) && EndsAt(Word(w), rest)
    ensures NextToken(w + rest) == Scanned(Word(w), rest)
  {
    WordLengthExact(w, rest);
    assert (w + rest)[..|w|] == w && (w + rest)[|w|..] == rest;
  }

  lemma NumberReadBack(n: nat, rest: string)
    requires EndsAt(Number(n), rest)
    ensures NextToken(DecimalText(n) + rest) == Scanned(Number(n), rest)
  {
    DecimalReadBack(n);
    var d := DecimalText(n);
    DigitsLengthExact(d, rest);
    assert (d + rest)[..|d|] == d && (d + rest)[|d|..] == rest;
  }

  lemma QuotedReadBack(x: string, rest: string)
    requires EndsAt(Literal(x), rest)
    ensures NextToken("'" + Escape(x) + "'" + rest) == if HasNul(x) then Illegal else Scanned(Literal(x), rest)
  {
    hide Escape, ReadLiteral;
    LiteralReadBack(x, rest);
    assert ("'" + Escape(x) + "'" + rest)[1..] == Escape(x) + "'" + rest;
  }

  // ----- reading back a rendering -----

  predicate IsMark(t: Token) { t.LeftParen? || t.RightParen? || t.Comma? }

  /** Neighbours cannot run together: a space or a bracket or comma is between them. */
  ghost predicate WellSpaced(ps: seq<Piece>) {
    && (forall i :: 0 <= i < |ps| ==> Readable(ps[i]))
    && (forall i :: 0 < i < |ps| && ps[i].space == "" ==> IsMark(ps[i].token) || IsMark(ps[i - 1].token))
  }

  function TokensOf(ps: seq<Piece>): (ts: seq<Token>)
    ensures |ts| == |ps|
    ensures forall i :: 0 <= i < |ps| ==> ts[i] == ps[i].token
  {
    seq(|ps|, i requires 0 <= i < |ps| => ps[i].token)
  }

  predicate AllClean(ps: seq<Piece>) {
    forall i :: 0 <= i < |ps| ==> Clean(ps[i].token)
  }

  /** `t` in front of an already tokenized rest. */
  function Before(t: Token, rest: Option<seq<Token>>): Option<seq<Token>> {
    match rest case None => None case Some(ts) => Some([t] + ts)
  }

  lemma TokenizeStep(p: Piece, rest: string)
    requires Readable(p) && EndsAt(p.token, rest)
    ensures Tokenize(p.space + TokenText(p.token) + rest)
         == if Clean(p.token) then Before(p.token, Tokenize(rest)) else None
  {
    TokenReadBack(p, rest);
  }

  lemma TokensConcat(a: seq<Piece>, b: seq<Piece>)
    ensures TokensOf(a + b) == TokensOf(a) + TokensOf(b)
  {
  }

  lemma TwoTokens(a: Piece, b: Piece)
    ensures TokensOf([a, b]) == [a.token, b.token]
  {
  }

  lemma NothingTokenized()
    ensures Tokenize(Render([])) == Some(TokensOf([])) && AllClean([])
  {
  }

  lemma FirstRendered(ps: seq<Piece>)
    requires ps != []
    ensures Render(ps) == ps[0].space + TokenText(ps[0].token) + Render(ps[1..])
  {
    hide TokenText;
  }

  lemma FirstSpaced(ps: seq<Piece>)
    requires ps != [] && WellSpaced(ps)
    ensures Readable(ps[0]) && WellSpaced(ps[1..])
  {
    hide Readable, IsMark;
    assert forall i :: 0 <= i < |ps[1..]| ==> ps[1..][i] == ps[i + 1];
  }

  lemma FirstClean(ps: seq<Piece>)
    requires ps != []
    ensures AllClean(ps) <==> Clean(ps[0].token) && AllClean(ps[1..])
  {
    hide Clean;
    assert forall i :: 0 <= i < |ps[1..]| ==> ps[1..][i] == ps[i + 1];
    assert forall i :: 1 <= i < |ps| ==> ps[i] == ps[1..][i - 1];
  }

  lemma FirstToken(ps: seq<Piece>)
    requires ps != []
    ensures TokensOf(ps) == [ps[0].token] + TokensOf(ps[1..])
  {
  }

  /** Tokenizing a rendering undoes it; the only text SQL cannot read back is one with a NUL
      inside a literal. */
  lemma {:induction false} TokenizeRendered(ps: seq<Piece>)
    requires WellSpaced(ps)
    ensures Tokenize(Render(ps)) == if AllClean(ps) then Some(TokensOf(ps)) else None
    decreases |ps|
  {
    hide WellSpaced, Readable, TokenText, Tokenize, Clean, EndsAt, Render, TokensOf, AllClean;
    if ps == [] {
      NothingTokenized();
    } else {
      FirstRendered(ps);
      FirstSpaced(ps);
      FirstClean(ps);
      FirstToken(ps);
      RestEndsToken(ps);
      TokenizeStep(ps[0], Render(ps[1..]));
      TokenizeRendered(ps[1..]);
    }
  }

  lemma RestEndsToken(ps: seq<Piece>)
    requires WellSpaced(ps) && ps != []
    ensures EndsAt(ps[0].token, Render(ps[1..]))
  {
  }
}
