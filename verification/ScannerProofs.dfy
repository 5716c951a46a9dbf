/** What decode guarantees about addresses, payment URIs and deep links. */
module ScannerProofs {
  import opened Common
  import opened ScannerDecoding

  // ----- strings -----

  lemma {:induction false} ContainsAt(s: string, p: string)
    ensures Contains(s, p) <==> exists i :: 0 <= i <= |s| && p <= s[i..]
    decreases |s|
  {
    if p <= s {
      assert s[0..] == s;
    } else if s != "" {
      ContainsAt(s[1..], p);
      if Contains(s, p) {
        var i :| 0 <= i <= |s[1..]| && p <= s[1..][i..];
        assert s[1..][i..] == s[i + 1..];
      }
      if i :| 0 <= i <= |s| && p <= s[i..] {
        assert i > 0;
        assert s[1..][i - 1..] == s[i..];
      }
    }
  }

  /** A text without a character does not contain a pattern that has it. */
  lemma MissingCharacter(s: string, p: string, k: nat)
    requires k < |p| && p[k] !in s
    ensures !Contains(s, p) && !(p <= s)
  {
  }

  lemma {:induction false} SplitWithout(s: string, c: char)
    requires c !in s
    ensures Split(s, c) == [s]
  {
    if s == "" {
    } else {
      assert s == [s[0]] + s[1..];
      SplitWithout(s[1..], c);
    }
  }

  /** The first separator ends the first part. */
  lemma {:induction false} SplitAtFirst(a: string, c: char, b: string)
    requires c !in a
    ensures Split(a + [c] + b, c) == [a] + Split(b, c)
    decreases |a|
  {
    var s := a + [c] + b;
    if a == "" {
      assert s == [c] + b;
      assert s[1..] == b;
    } else {
      assert a == [a[0]] + a[1..];
      assert s[1..] == a[1..] + [c] + b;
      SplitAtFirst(a[1..], c, b);
    }
  }

  lemma {:induction false} SplitOnceAtFirst(a: string, c: char, b: string)
    requires c !in a
    ensures SplitOnce(a + [c] + b, c) == Some((a, b))
    decreases |a|
  {
    var s := a + [c] + b;
    if a == "" {
      assert s == [c] + b;
      assert s[1..] == b;
    } else {
      assert a == [a[0]] + a[1..];
      assert s[1..] == a[1..] + [c] + b;
      SplitOnceAtFirst(a[1..], c, b);
    }
  }

  lemma {:induction false} SplitOnceWithout(s: string, c: char)
    requires c !in s
    ensures SplitOnce(s, c) == None
  {
    if s == "" {
    } else {
      assert s == [s[0]] + s[1..];
      SplitOnceWithout(s[1..], c);
    }
  }

  // ----- BIP 21: printing and parsing the query -----

  datatype Segment = Pair(key: string, value: string) | Bare(text: string)

  function SegmentText(g: Segment): string {
    match g case Pair(k, v) => k + "=" + v case Bare(t) => t
  }

  function Join(gs: seq<Segment>): string {
    if gs == [] then ""
    else SegmentText(gs[0]) + (if |gs| == 1 then "" else "&" + Join(gs[1..]))
  }

  function Print(address: string, gs: seq<Segment>): string { "bitcoin:" + address + "?" + Join(gs) }

  /** Nothing in the segment is taken for a separator; a value may contain `=`. */
  predicate Printable(g: Segment) {
    match g
    case Pair(k, v) => '=' !in k && '&' !in k && '?' !in k && '&' !in v && '?' !in v
    case Bare(t) => '=' !in t && '&' !in t && '?' !in t
  }

  /** The meaning of the segments: bare ones say nothing, the last value of a key counts. */
  function Params(gs: seq<Segment>): map<string, string> {
    if gs == [] then map[]
    else
      var before := Params(gs[..|gs| - 1]);
      match gs[|gs| - 1]
      case Pair(k, v) => before[k := v]
      case Bare(_) => before
  }

  function Texts(gs: seq<Segment>): (ts: seq<string>)
    ensures |ts| == |gs|
    ensures forall i :: 0 <= i < |gs| ==> ts[i] == SegmentText(gs[i])
  {
    seq(|gs|, i requires 0 <= i < |gs| => SegmentText(gs[i]))
  }

  lemma SegmentClean(g: Segment)
    requires Printable(g)
    ensures '&' !in SegmentText(g) && '?' !in SegmentText(g)
    ensures SplitOnce(SegmentText(g), '=') == match g { case Pair(k, v) => Some((k, v)) case Bare(_) => None }
  {
    match g
    case Pair(k, v) => SplitOnceAtFirst(k, '=', v);
    case Bare(t) => SplitOnceWithout(t, '=');
  }

  lemma Joined(head: string, joint: string, rest: string)
    requires joint == "&"
    ensures head + (joint + rest) == head + ['&'] + rest
  {
  }

  lemma JoinStep(gs: seq<Segment>)
    requires |gs| > 1
    ensures Join(gs) == SegmentText(gs[0]) + ['&'] + Join(gs[1..])
    ensures Texts(gs) == [SegmentText(gs[0])] + Texts(gs[1..])
  {
    hide SegmentText;
    Joined(SegmentText(gs[0]), "&", Join(gs[1..]));
  }

  lemma {:induction false} JoinSplits(gs: seq<Segment>)
    requires gs != [] && forall i :: 0 <= i < |gs| ==> Printable(gs[i])
    ensures Split(Join(gs), '&') == Texts(gs)
    decreases |gs|
  {
    SegmentClean(gs[0]);
    var head := SegmentText(gs[0]);
    if |gs| == 1 {
      assert Join(gs) == head;
      SplitWithout(head, '&');
    } else {
      JoinStep(gs);
      JoinSplits(gs[1..]);
      SplitAtFirst(head, '&', Join(gs[1..]));
    }
  }

  lemma {:induction false} JoinHasNoQuestionMark(gs: seq<Segment>)
    requires forall i :: 0 <= i < |gs| ==> Printable(gs[i])
    ensures '?' !in Join(gs)
    decreases |gs|
  {
    if gs == [] {
    } else {
      SegmentClean(gs[0]);
      JoinHasNoQuestionMark(gs[1..]);
    }
  }

  lemma {:induction false} CollectMeans(gs: seq<Segment>)
    requires forall i :: 0 <= i < |gs| ==> Printable(gs[i])
    ensures CollectParams(Texts(gs)) == Params(gs)
    decreases |gs|
  {
    if gs == [] {
    } else {
      var init := gs[..|gs| - 1];
      CollectMeans(init);
      SegmentClean(gs[|gs| - 1]);
      assert Texts(gs)[..|gs| - 1] == Texts(init);
    }
  }

  lemma NoSegments()
    ensures CollectParams(Split("", '&')) == map[]
  {
  }

  lemma PrintedParams(gs: seq<Segment>)
    requires forall i :: 0 <= i < |gs| ==> Printable(gs[i])
    ensures CollectParams(Split(Join(gs), '&')) == Params(gs)
  {
    if gs == [] {
      NoSegments();
    } else {
      JoinSplits(gs);
      CollectMeans(gs);
    }
  }

  lemma PrintedParts(address: string, gs: seq<Segment>)
    requires '?' !in address && forall i :: 0 <= i < |gs| ==> Printable(gs[i])
    ensures StripPrefix(Print(address, gs), "bitcoin:") == address + ['?'] + Join(gs)
    ensures Split(address + ['?'] + Join(gs), '?') == [address, Join(gs)]
  {
    hide Join, Split;
    JoinHasNoQuestionMark(gs);
    SplitAtFirst(address, '?', Join(gs));
    SplitWithout(Join(gs), '?');
  }

  // ----- what the decoded fields are, in terms of the printed segments -----

  /** The i-th segment is the last one with this key. */
  ghost predicate LastPair(gs: seq<Segment>, i: int, key: string, value: string) {
    && 0 <= i < |gs| && gs[i] == Pair(key, value)
    && forall j :: i < j < |gs| && gs[j].Pair? ==> gs[j].key != key
  }

  /** The value printed last under a key, or None when no pair has the key. */
  ghost predicate IsLastValue(gs: seq<Segment>, key: string, value: Option<string>) {
    match value
    case None => forall i :: 0 <= i < |gs| && gs[i].Pair? ==> gs[i].key != key
    case Some(v) => exists i :: LastPair(gs, i, key, v)
  }

  /** An amount that is missing or cannot be read counts as 0. */
  ghost predicate IsLastAmount(x: Externals, gs: seq<Segment>, amount: u64) {
    exists text :: IsLastValue(gs, "amount", text)
      && if text.Some? && x.parseAmount(text.value).Some? then x.parseAmount(text.value) == Some(amount)
         else amount == 0
  }

  /** The invoice says what was printed: the address, and for every key the value printed last. */
  ghost predicate Carries(x: Externals, address: string, gs: seq<Segment>, invoice: OnChainInvoice) {
    && invoice.address == address
    && IsLastValue(gs, "label", invoice.labelText)
    && IsLastValue(gs, "message", invoice.message)
    && IsLastAmount(x, gs, invoice.amountSatoshis)
    && forall k :: IsLastValue(gs, k, if k in invoice.params then Some(invoice.params[k]) else None)
  }

  lemma {:induction false} ParamsAreLastValues(gs: seq<Segment>, k: string)
    ensures IsLastValue(gs, k, if k in Params(gs) then Some(Params(gs)[k]) else None)
  {
    if gs == [] {
    } else {
      var init, last := gs[..|gs| - 1], gs[|gs| - 1];
      ParamsAreLastValues(init, k);
      if last.Pair? && last.key == k {
        assert LastPair(gs, |gs| - 1, k, last.value);
      } else if k in Params(init) {
        var i :| LastPair(init, i, k, Params(init)[k]);
        assert LastPair(gs, i, k, Params(init)[k]);
      } else {
        forall i | 0 <= i < |gs| && gs[i].Pair?
          ensures gs[i].key != k
        {
          assert i < |init| ==> init[i] == gs[i];
        }
      }
    }
  }

  lemma LastValueIsUnique(gs: seq<Segment>, k: string, v: Option<string>, w: Option<string>)
    requires IsLastValue(gs, k, v) && IsLastValue(gs, k, w)
    ensures v == w
  {
    if v.Some? && w.Some? {
      var i :| LastPair(gs, i, k, v.value);
      var j :| LastPair(gs, j, k, w.value);
      assert i == j;
    }
  }

  lemma InvoiceCarries(x: Externals, address: string, gs: seq<Segment>)
    ensures Carries(x, address, gs, InvoiceOf(x, address, Params(gs)))
  {
    hide Params, IsLastValue;
    forall k
      ensures IsLastValue(gs, k, if k in Params(gs) then Some(Params(gs)[k]) else None)
    {
      ParamsAreLastValues(gs, k);
    }
    assert IsLastValue(gs, "amount", Lookup(Params(gs), "amount"));
    assert IsLastValue(gs, "label", Lookup(Params(gs), "label"));
    assert IsLastValue(gs, "message", Lookup(Params(gs), "message"));
  }

  /** The printed segments determine the invoice. */
  lemma CarriedIsUnique(x: Externals, address: string, gs: seq<Segment>, a: OnChainInvoice, b: OnChainInvoice)
    requires Carries(x, address, gs, a) && Carries(x, address, gs, b)
    ensures a == b
  {
    hide IsLastValue;
    LastValueIsUnique(gs, "label", a.labelText, b.labelText);
    LastValueIsUnique(gs, "message", a.message, b.message);
    var t :| IsLastValue(gs, "amount", t)
      && if t.Some? && x.parseAmount(t.value).Some? then x.parseAmount(t.value) == Some(a.amountSatoshis)
         else a.amountSatoshis == 0;
    var u :| IsLastValue(gs, "amount", u)
      && if u.Some? && x.parseAmount(u.value).Some? then x.parseAmount(u.value) == Some(b.amountSatoshis)
         else b.amountSatoshis == 0;
    LastValueIsUnique(gs, "amount", t, u);
    forall k
      ensures k in a.params <==> k in b.params
      ensures k in a.params ==> a.params[k] == b.params[k]
    {
      LastValueIsUnique(gs, k, if k in a.params then Some(a.params[k]) else None,
        if k in b.params then Some(b.params[k]) else None);
    }
    assert a.params == b.params;
  }

  /** Parsing a printed payment URI recovers the address and for every key the value printed last;
      label, message and amount are those of the keys of that name. */
  lemma ParseUndoesPrint(x: Externals, address: string, gs: seq<Segment>)
    requires '?' !in address && forall i :: 0 <= i < |gs| ==> Printable(gs[i])
    ensures DecodeOnchain(x, Print(address, gs)) == OnChain(InvoiceOf(x, address, Params(gs)))
    ensures Carries(x, address, gs, DecodeOnchain(x, Print(address, gs)).invoice)
  {
    hide Join, Split, Params, CollectParams, InvoiceOf, Print, StripPrefix, Carries;
    PrintedParts(address, gs);
    PrintedParams(gs);
    InvoiceCarries(x, address, gs);
  }

  // ----- bare addresses and URIs -----

  predicate Alphanumeric(s: string) {
    forall i :: 0 <= i < |s| ==> IsLetter(s[i]) || IsDigit(s[i])
  }

  predicate Ascii(s: string) {
    forall i :: 0 <= i < |s| ==> (s[i] as int) < 128
  }

  function AsciiLower(s: string): (r: string)
    ensures |r| == |s|
    ensures forall i :: 0 <= i < |s| ==> r[i] == if 'A' <= s[i] <= 'Z' then (s[i] as int + 32) as char else s[i]
  {
    if s == "" then ""
    else [if 'A' <= s[0] <= 'Z' then (s[0] as int + 32) as char else s[0]] + AsciiLower(s[1..])
  }

  /** All that is asked of lower-casing: on ASCII it is the ASCII one. */
  ghost predicate LowercasesAscii(x: Externals) {
    forall s :: Ascii(s) ==> x.lowercase(s) == AsciiLower(s)
  }

  lemma TrimNothing(s: string)
    requires s != "" ==> !IsWhitespace(s[0]) && !IsWhitespace(s[|s| - 1])
    ensures Trim(s) == s
  {
  }

  lemma NotInAlphanumeric(s: string, c: char)
    requires Alphanumeric(s) && !IsLetter(c) && !IsDigit(c)
    ensures c !in s
  {
  }

  /** No format with punctuation in it can be seen in an alphanumeric text. */
  lemma NoMarkers(s: string)
    requires Alphanumeric(s)
    ensures !(DEEP_LINK <= s) && !("ticket-" <= s) && !("lightning:" <= s) && !("bitcoin:" <= s) && !("pubkyauth:" <= s)
    ensures !Contains(s, "cutt.ly/VwQFzhJJ") && !Contains(s, "bitkit.to/drone")
    ensures !Contains(s, "bitkit.to/treasure-hunt") && !Contains(s, "bitkit:chest") && !Contains(s, "lightning:")
    ensures '@' !in s
  {
    NotInAlphanumeric(s, ':');
    NotInAlphanumeric(s, '-');
    NotInAlphanumeric(s, '.');
    NotInAlphanumeric(s, '@');
    MissingCharacter(s, DEEP_LINK, 6);
    MissingCharacter(s, "ticket-", 6);
    MissingCharacter(s, "lightning:", 9);
    MissingCharacter(s, "bitcoin:", 7);
    MissingCharacter(s, "pubkyauth:", 9);
    MissingCharacter(s, "cutt.ly/VwQFzhJJ", 4);
    MissingCharacter(s, "bitkit.to/drone", 6);
    MissingCharacter(s, "bitkit.to/treasure-hunt", 6);
    MissingCharacter(s, "bitkit:chest", 6);
  }

  /** An earlier format claims the text before the payment URI is looked at. A treasure-hunt link
      without a chest parameter is passed on. */
  predicate Claimed(x: Externals, s: string) {
    || Contains(s, "cutt.ly/VwQFzhJJ") || Contains(s, "bitkit.to/drone")
    || (Contains(s, "bitkit.to/treasure-hunt") && x.chestParameter(s) != Some(None))
    || (Contains(s, "bitkit:chest") && |Split(s, '-')| > 1)
    || LooksLikeInvoice(x, s)
  }

  /** Decoding a Lightning invoice gives a Lightning result or an error. */
  ghost predicate InvoicesAreLightning(x: Externals) {
    forall t :: !IsOnChain(x.decodeLightning(t))
  }

  predicate IsOnChain(r: Result<Scanned, DecodingError>) { r.Ok? && r.value.OnChain? }

  lemma UriPrefix(rest: string)
    ensures "bitcoin:" <= "bitcoin:" + rest && StripPrefix("bitcoin:" + rest, "bitcoin:") == rest
    ensures !("lightning:" <= "bitcoin:" + rest) && !(DEEP_LINK <= "bitcoin:" + rest)
    ensures !("ticket-" <= "bitcoin:" + rest)
    ensures '@' !in Split("bitcoin:" + rest, ':')[0]
  {
    var s := "bitcoin:" + rest;
    assert "lightning:"[0] != s[0] && DEEP_LINK[3] != s[3] && "ticket-"[0] != s[0];
    assert s == "bitcoin" + [':'] + rest;
    SplitAtFirst("bitcoin", ':', rest);
  }

  lemma {:induction false} TrimEndConcat(a: string, b: string)
    requires a != "" && !IsWhitespace(a[|a| - 1])
    ensures TrimEnd(a + b) == a + TrimEnd(b)
    decreases |b|
  {
    if b == "" {
      assert a + b == a;
    } else if IsWhitespace(b[|b| - 1]) {
      assert (a + b)[..|a + b| - 1] == a + b[..|b| - 1];
      TrimEndConcat(a, b[..|b| - 1]);
    }
  }

  lemma UriTrimmed(rest: string)
    ensures Trim("bitcoin:" + rest) == "bitcoin:" + TrimEnd(rest)
  {
    TrimEndConcat("bitcoin:", rest);
  }

  lemma UriClassified(x: Externals, rest: string)
    ensures var s := "bitcoin:" + rest;
      && (!Claimed(x, s) ==>
            Classify(x, s)
            == if ValidAddress(x, Split(rest, '?')[0]) then Ok(DecodeOnchain(x, s)) else Err(InvalidAddress))
      && (Claimed(x, s) && InvoicesAreLightning(x) ==> !IsOnChain(Classify(x, s)))
  {
    hide Contains, Split, LooksLikeInvoice, DecodeOnchain, ValidAddress;
    UriPrefix(rest);
    var s := "bitcoin:" + rest;
    assert ClassifyNode(x, s) == ClassifyPayment(x, s);
  }

  /** A payment URI is decoded by its address alone, to the parsed URI when the part before `?`
      validates, unless an earlier format claims it; and then it is not decoded as a payment. */
  lemma UriIsDecoded(x: Externals, rest: string)
    requires InvoicesAreLightning(x)
    ensures var r, s := Decode(x, "bitcoin:" + rest), "bitcoin:" + TrimEnd(rest);
      && (IsOnChain(r) <==> !Claimed(x, s) && ValidAddress(x, Split(TrimEnd(rest), '?')[0]))
      && (IsOnChain(r) ==> r == Ok(DecodeOnchain(x, s)))
      && (!Claimed(x, s) && !IsOnChain(r) ==> r == Err(InvalidAddress))
  {
    hide Classify, Claimed, Trim, TrimEnd, Split, ValidAddress;
    UriTrimmed(rest);
    UriPrefix(TrimEnd(rest));
    UriClassified(x, TrimEnd(rest));
  }

  // ----- printing, then decoding -----

  function TrimLast(g: Segment): Segment {
    match g case Pair(k, v) => Pair(k, TrimEnd(v)) case Bare(t) => Bare(TrimEnd(t))
  }

  function Trimmed(gs: seq<Segment>): seq<Segment> {
    if gs == [] then [] else gs[..|gs| - 1] + [TrimLast(gs[|gs| - 1])]
  }

  lemma {:induction false} TrimEndIsPrefix(s: string)
    ensures TrimEnd(s) <= s
    ensures TrimEnd(s) == s <==> s == "" || !IsWhitespace(s[|s| - 1])
  {
    if s == "" {
    } else if IsWhitespace(s[|s| - 1]) {
      TrimEndIsPrefix(s[..|s| - 1]);
    }
  }

  lemma SegmentTrimmed(g: Segment)
    requires Printable(g)
    ensures TrimEnd(SegmentText(g)) == SegmentText(TrimLast(g)) && Printable(TrimLast(g))
  {
    match g
    case Pair(k, v) =>
      TrimEndIsPrefix(v);
      TrimEndConcat(k + "=", v);
    case Bare(t) => TrimEndIsPrefix(t);
  }

  lemma JoinStepTrimmed(gs: seq<Segment>)
    requires |gs| > 1
    ensures Join(Trimmed(gs)) == SegmentText(gs[0]) + ['&'] + Join(Trimmed(gs[1..]))
  {
    hide SegmentText, Join, TrimEnd;
    assert gs[1..][..|gs| - 2] == gs[..|gs| - 1][1..];
    assert Trimmed(gs)[1..] == Trimmed(gs[1..]) && Trimmed(gs)[0] == gs[0];
    JoinStep(Trimmed(gs));
  }

  lemma JoinOne(g: Segment)
    ensures Join([g]) == SegmentText(g)
  {
    hide SegmentText;
  }

  lemma Appended(a: string, b: string, c: string)
    ensures a + (b + ['&'] + c) == (a + b + ['&']) + c
  {
  }

  /** Trimming a joined text trims its last segment only: a separator is no white space. */
  lemma {:induction false} JoinTrimmed(before: string, gs: seq<Segment>)
    requires before != "" && !IsWhitespace(before[|before| - 1])
    requires gs != [] && forall i :: 0 <= i < |gs| ==> Printable(gs[i])
    ensures TrimEnd(before + Join(gs)) == before + Join(Trimmed(gs))
    decreases |gs|
  {
    hide TrimEnd, SegmentText, Printable, Join, TrimLast;
    if |gs| == 1 {
      SegmentTrimmed(gs[0]);
      TrimEndConcat(before, SegmentText(gs[0]));
      assert Trimmed(gs) == [TrimLast(gs[0])] && gs == [gs[0]];
      JoinOne(gs[0]);
      JoinOne(TrimLast(gs[0]));
    } else {
      hide Trimmed;
      var text := SegmentText(gs[0]);
      JoinStep(gs);
      JoinStepTrimmed(gs);
      Appended(before, text, Join(gs[1..]));
      Appended(before, text, Join(Trimmed(gs[1..])));
      JoinTrimmed(before + text + ['&'], gs[1..]);
    }
  }

  lemma QueryTrimmed(address: string, gs: seq<Segment>)
    requires forall i :: 0 <= i < |gs| ==> Printable(gs[i])
    ensures TrimEnd(address + ['?'] + Join(gs)) == address + ['?'] + Join(Trimmed(gs))
    ensures forall i :: 0 <= i < |gs| ==> Printable(Trimmed(gs)[i])
  {
    if gs == [] {
      TrimEndConcat(address + ['?'], "");
    } else {
      JoinTrimmed(address + ['?'], gs);
      SegmentTrimmed(gs[|gs| - 1]);
    }
  }

  /** White space at the end of the text is cut off the last value. */
  predicate EndsInSpace(gs: seq<Segment>) {
    gs != [] && match gs[|gs| - 1] { case Pair(_, v) => v != "" && IsWhitespace(v[|v| - 1]) case Bare(_) => false }
  }

  lemma TrimmedParams(gs: seq<Segment>)
    ensures Params(Trimmed(gs)) == Params(gs) <==> !EndsInSpace(gs)
  {
    if gs != [] {
      var init, last := gs[..|gs| - 1], gs[|gs| - 1];
      assert Trimmed(gs)[..|gs| - 1] == init;
      if last.Pair? {
        TrimEndIsPrefix(last.value);
        assert Params(gs) == Params(init)[last.key := last.value];
        assert Params(Trimmed(gs)) == Params(init)[last.key := TrimEnd(last.value)];
        assert Params(gs)[last.key] == last.value && Params(Trimmed(gs))[last.key] == TrimEnd(last.value);
      }
    }
  }

  lemma PrintIsUri(address: string, gs: seq<Segment>)
    ensures Print(address, gs) == "bitcoin:" + (address + ['?'] + Join(gs))
  {
  }

  /** Printing, then decoding: the whole way round for payment URIs. It gives back what was
      printed exactly when the address validates, no earlier format claims the text, and the last
      value does not end in white space. */
  lemma DecodeUndoesPrint(x: Externals, address: string, gs: seq<Segment>)
    requires '?' !in address && forall i :: 0 <= i < |gs| ==> Printable(gs[i])
    requires InvoicesAreLightning(x)
    ensures var r := Decode(x, Print(address, gs));
      (r.Ok? && r.value.OnChain? && Carries(x, address, gs, r.value.invoice))
      <==> ValidAddress(x, address) && !Claimed(x, Trim(Print(address, gs))) && !EndsInSpace(gs)
  {
    hide Decode, Claimed, Trim, TrimEnd, Split, ValidAddress, Join, Print, Params, AmountOf, EndsInSpace, Printable,
      Carries;
    var rest, rest' := address + ['?'] + Join(gs), address + ['?'] + Join(Trimmed(gs));
    PrintIsUri(address, gs);
    PrintIsUri(address, Trimmed(gs));
    QueryTrimmed(address, gs);
    UriTrimmed(rest);
    UriIsDecoded(x, rest);
    PrintedParts(address, Trimmed(gs));
    ParseUndoesPrint(x, address, Trimmed(gs));
    TrimmedParams(gs);
    InvoiceCarries(x, address, gs);
    if Carries(x, address, gs, InvoiceOf(x, address, Params(Trimmed(gs)))) {
      CarriedIsUnique(x, address, gs, InvoiceOf(x, address, Params(gs)), InvoiceOf(x, address, Params(Trimmed(gs))));
    }
  }

  /** The smallest way it fails: a message that names a treasure hunt, for any address. */
  lemma MessageIsTakenForTreasure(x: Externals, address: string)
    ensures var gs := [Pair("message", "bitkit.to/drone")];
      && Printable(gs[0])
      && Decode(x, Print(address, gs)) == Ok(TreasureHunt("2gZxrqhc"))
  {
    hide Decode, Print;
    OnePairPrinted(address, "message", "bitkit.to/drone");
    MessageClassified(x, "bitcoin:" + address + "?" + "message" + "=", "bitkit.to/drone");
  }

  lemma OnePairPrinted(address: string, key: string, value: string)
    ensures Print(address, [Pair(key, value)]) == "bitcoin:" + address + "?" + key + "=" + value
  {
    assert Join([Pair(key, value)]) == key + "=" + value;
  }

  lemma MessageClassified(x: Externals, before: string, message: string)
    requires message == "bitkit.to/drone" && "bitcoin:" <= before
    ensures Decode(x, before + message) == Ok(TreasureHunt("2gZxrqhc"))
  {
    var s := before + message;
    TrimNothing(s);
    assert s == "bitcoin:" + s[8..];
    UriPrefix(s[8..]);
    ContainsAt(s, "bitkit.to/drone");
    assert s[|before|..] == message;
  }

  lemma OnlyColon(a: string)
    requires Alphanumeric(a)
    ensures forall k :: 0 <= k < |"bitcoin:" + a| && ("bitcoin:" + a)[k] == ':' ==> k == 7
  {
  }

  /** The only colon of an alphanumeric address's URI is the scheme's, so a pattern with a colon
      can only lie across it. */
  lemma FoundAtColon(a: string, p: string, k: nat)
    requires Alphanumeric(a) && k < |p| && p[k] == ':' && Contains("bitcoin:" + a, p)
    ensures k <= 7 && ("bitcoin:" + a)[7 - k] == p[0]
  {
    var s := "bitcoin:" + a;
    ContainsAt(s, p);
    var i :| 0 <= i <= |s| && p <= s[i..];
    assert s[i + k] == s[i..][k] == ':';
    OnlyColon(a);
    assert s[i] == s[i..][0];
  }

  lemma AlphanumericUri(a: string)
    requires Alphanumeric(a)
    ensures !Contains("bitcoin:" + a, "cutt.ly/VwQFzhJJ") && !Contains("bitcoin:" + a, "bitkit.to/drone")
    ensures !Contains("bitcoin:" + a, "bitkit.to/treasure-hunt") && !Contains("bitcoin:" + a, "bitkit:chest")
    ensures !Contains("bitcoin:" + a, "lightning:")
  {
    hide Contains;
    var s := "bitcoin:" + a;
    NotInAlphanumeric(a, '.');
    NotInAlphanumeric(a, '-');
    MissingCharacter(s, "cutt.ly/VwQFzhJJ", 4);
    MissingCharacter(s, "bitkit.to/drone", 6);
    MissingCharacter(s, "bitkit.to/treasure-hunt", 6);
    if Contains(s, "bitkit:chest") {
      FoundAtColon(a, "bitkit:chest", 6);
    }
    if Contains(s, "lightning:") {
      FoundAtColon(a, "lightning:", 9);
    }
  }

  lemma LowerUri(a: string)
    ensures AsciiLower("bitcoin:" + a) == "bitcoin:" + AsciiLower(a)
  {
  }

  lemma AsciiConcat(a: string, b: string)
    requires Ascii(a) && Ascii(b)
    ensures Ascii(a + b)
  {
  }

  lemma AlphanumericIsAscii(a: string)
    requires Alphanumeric(a)
    ensures Ascii(a)
  {
  }

  lemma LoweredAlphanumeric(a: string)
    requires Alphanumeric(a)
    ensures Alphanumeric(AsciiLower(a))
  {
  }

  lemma SchemeIsAscii()
    ensures Ascii("bitcoin:")
  {
  }

  lemma LowercasedUri(x: Externals, a: string)
    requires Alphanumeric(a) && LowercasesAscii(x)
    ensures x.lowercase("bitcoin:" + a) == "bitcoin:" + AsciiLower(a) && Alphanumeric(AsciiLower(a))
  {
    hide Alphanumeric, Ascii, AsciiLower;
    LowerUri(a);
    SchemeIsAscii();
    AlphanumericIsAscii(a);
    AsciiConcat("bitcoin:", a);
    LoweredAlphanumeric(a);
  }

  lemma AlphanumericUriIsNoInvoice(x: Externals, a: string)
    requires Alphanumeric(a) && LowercasesAscii(x)
    ensures !LooksLikeInvoice(x, "bitcoin:" + a)
  {
    hide Contains, Alphanumeric, AsciiLower, LowercasesAscii;
    LowercasedUri(x, a);
    AlphanumericUri(AsciiLower(a));
    assert "lntb"[0] == 'l' && "lnbc"[0] == 'l';
  }

  lemma AlphanumericUriIsFree(x: Externals, a: string)
    requires Alphanumeric(a) && LowercasesAscii(x)
    ensures Trim("bitcoin:" + a) == "bitcoin:" + a && !Claimed(x, "bitcoin:" + a)
  {
    hide Contains, Split, LooksLikeInvoice, Trim, LowercasesAscii, IsWhitespace;
    var s := "bitcoin:" + a;
    UriIsTrimmed(a);
    AlphanumericUri(a);
    AlphanumericUriIsNoInvoice(x, a);
  }

  lemma UriIsTrimmed(a: string)
    requires Alphanumeric(a)
    ensures Trim("bitcoin:" + a) == "bitcoin:" + a
  {
  }

  lemma AddressIsTrimmed(a: string)
    requires Alphanumeric(a)
    ensures Trim(a) == a && Alphanumeric(AsciiLower(a)) && Trim(AsciiLower(a)) == AsciiLower(a)
  {
    hide Trim;
    TrimNothing(a);
    TrimNothing(AsciiLower(a));
  }

  /** The lower-cased address starts with none of the letters an invoice or LNURL starts with. */
  lemma AddressStart(x: Externals, a: string)
    requires Alphanumeric(a) && ValidAddress(x, a) && LowercasesAscii(x)
    ensures x.lowercase(a) == AsciiLower(a) && AsciiLower(a) != "" && AsciiLower(a)[0] != 'l' && AsciiLower(a)[0] != 'h'
  {
  }

  lemma AddressIsNoInvoice(x: Externals, a: string)
    requires Alphanumeric(a) && ValidAddress(x, a) && LowercasesAscii(x)
    ensures !LooksLikeInvoice(x, a) && !("pubkyauth:" <= x.lowercase(a)) && FindLnurl(x, a) == None
  {
    hide Contains, Trim, Alphanumeric, AsciiLower, LowercasesAscii, ValidAddress, LnurlParameter, Bech32Length;
    AddressStart(x, a);
    AddressIsTrimmed(a);
    NoMarkers(AsciiLower(a));
    assert "lntb"[0] == 'l' && "lnbc"[0] == 'l' && "http"[0] == 'h' && "lnurl1"[0] == 'l';
  }

  lemma AddressIsNoLnurlAddress(a: string)
    requires '@' !in a
    ensures !IsLnurlAddress(a)
  {
  }

  lemma AddressDecodes(x: Externals, a: string)
    requires Alphanumeric(a) && ValidAddress(x, a) && LowercasesAscii(x)
    ensures Decode(x, a) == Ok(DecodeOnchain(x, "bitcoin:" + a))
  {
    hide Contains, Trim, Alphanumeric, LowercasesAscii, ValidAddress, LooksLikeInvoice, FindLnurl, IsLnurlAddress,
      Split, DecodeOnchain;
    NoMarkers(a);
    AddressIsTrimmed(a);
    AddressIsNoInvoice(x, a);
    AddressIsNoLnurlAddress(a);
    assert Classify(x, a) == ClassifyChest(x, a) == ClassifyNode(x, a) == ClassifyPayment(x, a);
  }

  /** A bare address and its `bitcoin:` URI decode to the same thing, the address with no amount
      and no parameters; no earlier format captures either. */
  lemma AddressAndUriAgree(x: Externals, a: string)
    requires Alphanumeric(a) && ValidAddress(x, a) && LowercasesAscii(x)
    ensures Decode(x, a) == Decode(x, "bitcoin:" + a)
    ensures Decode(x, a) == Ok(OnChain(OnChainInvoice(a, 0, None, None, map[])))
  {
    AddressDecodes(x, a);
    hide Classify, Claimed, Contains;
    AlphanumericUriIsFree(x, a);
    NotInAlphanumeric(a, '?');
    SplitWithout(a, '?');
    UriPrefix(a);
    UriClassified(x, a);
  }

  // ----- deep links -----

  /** The text that is finally classified. Every unwrapping removes at least one link, so it
      comes to an end even when a removal joins its surroundings into a new link. */
  function Unwrapped(input: string): string
    decreases |input|
  {
    var s := StripPrefix(Trim(input), "lightning:");
    if DEEP_LINK <= s then Unwrapped(RemoveAll(s, DEEP_LINK)) else s
  }

  lemma {:induction false} DecodeClassifiesUnwrapped(x: Externals, input: string)
    ensures Decode(x, input) == Classify(x, Unwrapped(input))
    ensures !(DEEP_LINK <= Unwrapped(input)) && |Unwrapped(input)| <= |input|
    decreases |input|
  {
    var s := StripPrefix(Trim(input), "lightning:");
    if DEEP_LINK <= s {
      DecodeClassifiesUnwrapped(x, RemoveAll(s, DEEP_LINK));
    }
  }

  lemma {:induction false} NothingToRemove(s: string, p: string)
    requires p != "" && !Contains(s, p)
    ensures RemoveAll(s, p) == s
    decreases |s|
  {
    if s == "" {
    } else {
      NothingToRemove(s[1..], p);
    }
  }

  lemma {:induction false} TrimEndHead(s: string)
    requires s != ""
    ensures TrimEnd(s) == if TrimEnd(s[1..]) != "" || !IsWhitespace(s[0]) then [s[0]] + TrimEnd(s[1..]) else ""
    decreases |s|
  {
    if |s| == 1 {
      assert s[1..] == "" && s[..0] == "" && s == [s[0]];
    } else if IsWhitespace(s[|s| - 1]) {
      assert s[..|s| - 1][1..] == s[1..][..|s| - 2];
      TrimEndHead(s[..|s| - 1]);
    } else {
      assert s == [s[0]] + s[1..];
    }
  }

  lemma {:induction false} TrimEndFirst(s: string)
    ensures Trim(TrimEnd(s)) == Trim(s)
    decreases |s|
  {
    if s == "" {
    } else if IsWhitespace(s[0]) {
      TrimEndHead(s);
      TrimEndFirst(s[1..]);
    } else {
      TrimEndHead(s);
      TrimEndIdempotent(s);
    }
  }

  lemma {:induction false} TrimEndIdempotent(s: string)
    ensures TrimEnd(TrimEnd(s)) == TrimEnd(s)
  {
    if s == "" {
    } else if IsWhitespace(s[|s| - 1]) {
      TrimEndIdempotent(s[..|s| - 1]);
    }
  }

  lemma LinkIsNoSpace()
    ensures !IsWhitespace(DEEP_LINK[0]) && !IsWhitespace(DEEP_LINK[|DEEP_LINK| - 1])
  {
  }

  lemma UnwrapsToRest(s: string)
    ensures Unwrapped(DEEP_LINK + s) == Unwrapped(RemoveAll(TrimEnd(s), DEEP_LINK))
  {
    hide TrimEnd, IsWhitespace;
    LinkIsNoSpace();
    var wrapped := DEEP_LINK + TrimEnd(s);
    TrimEndConcat(DEEP_LINK, s);
    assert Trim(DEEP_LINK + s) == wrapped;
    assert "lightning:"[0] != wrapped[0];
    assert wrapped[|DEEP_LINK|..] == TrimEnd(s);
  }

  /** A text wrapped in the deep link is decoded as what is left of it when the link is taken out
      wherever it stands. */
  lemma DeepLinkIsTakenOut(x: Externals, s: string)
    ensures Decode(x, DEEP_LINK + s) == Decode(x, RemoveAll(TrimEnd(s), DEEP_LINK))
  {
    hide Classify, Unwrapped;
    UnwrapsToRest(s);
    DecodeClassifiesUnwrapped(x, DEEP_LINK + s);
    DecodeClassifiesUnwrapped(x, RemoveAll(TrimEnd(s), DEEP_LINK));
  }

  lemma PrefixContains(a: string, s: string, p: string)
    requires a <= s && Contains(a, p)
    ensures Contains(s, p)
  {
    ContainsAt(a, p);
    ContainsAt(s, p);
    var i :| 0 <= i <= |a| && p <= a[i..];
    assert a[i..] <= s[i..];
  }

  lemma WithoutLink(s: string)
    requires !Contains(s, DEEP_LINK)
    ensures Unwrapped(RemoveAll(TrimEnd(s), DEEP_LINK)) == Unwrapped(s)
  {
    TrimEndIsPrefix(s);
    if Contains(TrimEnd(s), DEEP_LINK) {
      PrefixContains(TrimEnd(s), s, DEEP_LINK);
    }
    NothingToRemove(TrimEnd(s), DEEP_LINK);
    TrimEndFirst(s);
  }

  /** So wrapping does not change what a text decodes to when the link is not in it already. */
  lemma DeepLinkIsTransparent(x: Externals, s: string)
    requires !Contains(s, DEEP_LINK)
    ensures Decode(x, DEEP_LINK + s) == Decode(x, s)
  {
    hide Classify, Unwrapped;
    UnwrapsToRest(s);
    WithoutLink(s);
    DecodeClassifiesUnwrapped(x, DEEP_LINK + s);
    DecodeClassifiesUnwrapped(x, s);
  }

  /** When it is, the wrapped text may decode to something else. */
  lemma DeepLinkInsideTicket(x: Externals)
    ensures Decode(x, "ticket-bitkit://x") == Ok(OrangeTicket("bitkit://x"))
    ensures Decode(x, DEEP_LINK + "ticket-bitkit://x") == Ok(OrangeTicket("x"))
  {
    DeepLinkIsTakenOut(x, "ticket-bitkit://x");
    TicketDecodes(x, "bitkit://x");
    TicketDecodes(x, "x");
    RemoveFromTicket();
  }

  lemma TicketDecodes(x: Externals, id: string)
    requires id != "" && !IsWhitespace(id[|id| - 1])
    ensures Decode(x, "ticket-" + id) == Ok(OrangeTicket(id))
  {
    var s := "ticket-" + id;
    TrimNothing(s);
    assert "lightning:"[0] != s[0] && DEEP_LINK[0] != s[0];
    assert s == "ticket" + ['-'] + id;
    SplitOnceAtFirst("ticket", '-', id);
  }

  lemma {:induction false} RemoveBehind(a: string, p: string, t: string)
    requires p != "" && forall i :: 0 <= i < |a| ==> a[i] != p[0]
    ensures RemoveAll(a + t, p) == a + RemoveAll(t, p)
    decreases |a|
  {
    if a == "" {
      assert a + t == t;
    } else {
      assert (a + t)[1..] == a[1..] + t;
      RemoveBehind(a[1..], p, t);
    }
  }

  lemma LinkInTicket()
    ensures "ticket-bitkit://x" == "ticket-" + (DEEP_LINK + "x")
  {
  }

  lemma RemoveLeading(p: string, t: string)
    requires p != ""
    ensures RemoveAll(p + t, p) == RemoveAll(t, p)
  {
    assert (p + t)[|p|..] == t;
  }

  lemma RemoveFromTicket()
    ensures "ticket-bitkit://x" == "ticket-" + "bitkit://x" && TrimEnd("ticket-bitkit://x") == "ticket-bitkit://x"
    ensures RemoveAll("ticket-bitkit://x", DEEP_LINK) == "ticket-" + "x"
  {
    hide RemoveAll, Contains;
    LinkInTicket();
    RemoveBehind("ticket-", DEEP_LINK, DEEP_LINK + "x");
    RemoveLeading(DEEP_LINK, "x");
    MissingCharacter("x", DEEP_LINK, 0);
    NothingToRemove("x", DEEP_LINK);
  }

  // ----- what wrapping changes -----

  lemma {:induction false} UnwrappedIsNoLonger(input: string)
    ensures |Unwrapped(input)| <= |StripPrefix(Trim(input), "lightning:")|
    decreases |input|
  {
    var s := StripPrefix(Trim(input), "lightning:");
    if DEEP_LINK <= s {
      UnwrappedIsNoLonger(RemoveAll(s, DEEP_LINK));
    }
  }

  predicate Blank(s: string) { forall i :: 0 <= i < |s| ==> IsWhitespace(s[i]) }

  /** What trimming the start takes away is white space. */
  lemma {:induction false} TrimParts(s: string) returns (space: string)
    ensures Blank(space) && TrimEnd(s) == space + Trim(s)
    decreases |s|
  {
    hide TrimEnd, IsWhitespace;
    space := "";
    if s != "" && IsWhitespace(s[0]) {
      var rest := TrimParts(s[1..]);
      TrimEndHead(s);
      if TrimEnd(s[1..]) != "" {
        space := [s[0]] + rest;
      }
    }
  }

  lemma {:induction false} TrimBehindSpace(space: string, s: string)
    requires Blank(space)
    ensures Trim(space + s) == Trim(s)
    decreases |space|
  {
    if space == "" {
      assert space + s == s;
    } else {
      assert (space + s)[1..] == space[1..] + s;
      TrimBehindSpace(space[1..], s);
    }
  }

  lemma {:induction false} ContainedBehind(a: string, s: string, p: string)
    requires p != "" && p[0] !in a
    ensures Contains(a + s, p) <==> Contains(s, p)
    decreases |a|
  {
    if a == "" {
      assert a + s == s;
    } else {
      assert (a + s)[1..] == a[1..] + s;
      assert (a + s)[0] == a[0];
      ContainedBehind(a[1..], s, p);
    }
  }

  lemma {:induction false} ContainedBeforeSpace(s: string, p: string)
    requires p != "" && !IsWhitespace(p[|p| - 1]) && Contains(s, p)
    ensures Contains(TrimEnd(s), p)
    decreases |s|
  {
    if s != "" && IsWhitespace(s[|s| - 1]) {
      var init := s[..|s| - 1];
      ContainsAt(s, p);
      ContainsAt(init, p);
      var i :| 0 <= i <= |s| && p <= s[i..];
      assert s[i..][|p| - 1] == p[|p| - 1];
      assert p <= init[i..];
      ContainedBeforeSpace(init, p);
    }
  }

  lemma {:induction false} RemovalShortens(s: string, p: string)
    requires p != "" && Contains(s, p)
    ensures |RemoveAll(s, p)| < |s|
    decreases |s|
  {
    if !(p <= s) {
      RemovalShortens(s[1..], p);
    }
  }

  /** Nothing longer is left behind what trimming and stripping take away. */
  ghost predicate Frames(frame: string) {
    forall u :: |StripPrefix(Trim(frame + u), "lightning:")| <= |u|
  }

  lemma FrameOfSpace(space: string)
    requires Blank(space)
    ensures Frames(space) && DEEP_LINK[0] !in space
  {
    forall u: string
      ensures |StripPrefix(Trim(space + u), "lightning:")| <= |u|
    {
      TrimBehindSpace(space, u);
    }
  }

  lemma FrameWithPrefix(space: string)
    requires Blank(space)
    ensures Frames(space + "lightning:") && DEEP_LINK[0] !in space + "lightning:"
  {
    hide TrimEnd;
    var prefix := "lightning:";
    FrameOfSpace(space);
    forall u: string
      ensures |StripPrefix(Trim(space + prefix + u), prefix)| <= |u|
    {
      assert space + prefix + u == space + (prefix + u);
      TrimBehindSpace(space, prefix + u);
      TrimEndConcat(prefix, u);
      assert TrimStart(prefix + u) == prefix + u;
      assert (prefix + TrimEnd(u))[|prefix|..] == TrimEnd(u);
    }
  }

  /** What stands in front of the text that is classified, white space and perhaps `lightning:`,
      holds no part of a link. */
  lemma Framed(s: string) returns (frame: string)
    ensures TrimEnd(s) == frame + StripPrefix(Trim(s), "lightning:") && DEEP_LINK[0] !in frame
    ensures Frames(frame)
  {
    hide Trim, TrimEnd, Frames;
    frame := TrimParts(s);
    FrameOfSpace(frame);
    if "lightning:" <= Trim(s) {
      FrameWithPrefix(frame);
      frame := frame + "lightning:";
    }
  }

  /** Of a text that does not itself unwrap, wrapping changes what is classified exactly when the
      text has the link in it: then something shorter is left. */
  lemma WrappingChangesLinked(s: string)
    requires !(DEEP_LINK <= StripPrefix(Trim(s), "lightning:"))
    ensures Unwrapped(DEEP_LINK + s) == Unwrapped(s) <==> !Contains(s, DEEP_LINK)
  {
    hide Contains, Trim, TrimEnd, RemoveAll, StripPrefix;
    var u := StripPrefix(Trim(s), "lightning:");
    UnwrapsToRest(s);
    if Contains(s, DEEP_LINK) {
      var frame := Framed(s);
      ContainedBeforeSpace(s, DEEP_LINK);
      ContainedBehind(frame, u, DEEP_LINK);
      RemovalShortens(u, DEEP_LINK);
      RemoveBehind(frame, DEEP_LINK, u);
      UnwrappedIsNoLonger(frame + RemoveAll(u, DEEP_LINK));
    } else {
      WithoutLink(s);
    }
  }

  /** A text that starts with the link can be wrapped again. */
  lemma WrappedTwice(s: string)
    requires DEEP_LINK <= Trim(s)
    ensures Unwrapped(DEEP_LINK + s) == Unwrapped(s)
  {
    hide Contains, TrimEnd, TrimStart, RemoveAll, Blank, Frames;
    var u := Trim(s);
    assert "lightning:"[0] != DEEP_LINK[0];
    UnwrapsToRest(s);
    var space := TrimParts(s);
    FrameOfSpace(space);
    RemoveBehind(space, DEEP_LINK, u);
    TrimBehindSpace(space, RemoveAll(u, DEEP_LINK));
  }
}
