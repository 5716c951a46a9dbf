/** Which texts give which result: each kind of result is recognised by the text alone, and the forms
    a wallet prints are decoded as what they are. */
module ScannerFormats {
  import opened Common
  import opened ScannerDecoding
  import opened ScannerProofs

  // ----- pieces between separators -----

  /** There is one piece more than there are separators. */
  lemma {:induction false} SplitCounts(s: string, c: char)
    ensures |Split(s, c)| == 1 + multiset(s)[c]
    decreases |s|
  {
    if s != "" {
      SplitCounts(s[1..], c);
      assert s == [s[0]] + s[1..];
      assert multiset(s) == multiset{s[0]} + multiset(s[1..]);
    }
  }

  /** The piece runs from lo up to the next separator or the end. */
  predicate PieceAt(s: string, c: char, lo: nat, piece: string) {
    && lo + |piece| <= |s| && s[lo..lo + |piece|] == piece && c !in piece
    && (lo + |piece| < |s| ==> s[lo + |piece|] == c)
  }

  lemma {:induction false} FirstPiece(s: string, c: char)
    ensures PieceAt(s, c, 0, Split(s, c)[0])
    decreases |s|
  {
    if s != "" && s[0] != c {
      FirstPiece(s[1..], c);
      var piece := Split(s[1..], c)[0];
      assert s[..1 + |piece|] == [s[0]] + s[1..][..|piece|];
    }
  }

  /** The second piece stands behind the first separator. */
  lemma {:induction false} SecondPiece(s: string, c: char, k: nat)
    requires k < |s| && s[k] == c && c !in s[..k]
    ensures |Split(s, c)| > 1 && PieceAt(s, c, k + 1, Split(s, c)[1])
    decreases k
  {
    hide PieceAt;
    if k == 0 {
      FirstPiece(s[1..], c);
      PieceBehindOne(s, c, 0, Split(s[1..], c)[0]);
    } else {
      assert s[..k][0] == s[0];
      assert s[1..][..k - 1] == s[..k][1..];
      SecondPiece(s[1..], c, k - 1);
      PieceBehindOne(s, c, k, Split(s[1..], c)[1]);
    }
  }

  lemma PieceBehindOne(s: string, c: char, lo: nat, piece: string)
    requires s != "" && PieceAt(s[1..], c, lo, piece)
    ensures PieceAt(s, c, lo + 1, piece)
  {
    assert s[1..][lo..lo + |piece|] == s[lo + 1..lo + 1 + |piece|];
  }

  // ----- networks -----

  /** The prefix of an address names its network, and no two networks share one. */
  lemma NetworkByPrefix(a: string)
    ensures DetermineNetwork(a) == Some(Bitcoin) <==> "1" <= a || "3" <= a || "bc1" <= a
    ensures DetermineNetwork(a) == Some(Testnet) <==> "2" <= a || "m" <= a || "n" <= a || "tb1" <= a
    ensures DetermineNetwork(a) == Some(Regtest) <==> "bcrt1" <= a
  {
    assert "bcrt1" <= a ==> a[0] == 'b' && a[2] == 'r';
    assert "bc1" <= a ==> a[0] == 'b' && a[2] == '1';
  }

  // ----- what is recognised first -----

  predicate Ticket(s: string) { "ticket-" <= s }

  predicate Drone(s: string) { Contains(s, "cutt.ly/VwQFzhJJ") || Contains(s, "bitkit.to/drone") }

  /** A treasure-hunt link with a chest parameter, or one that is no URL. */
  predicate HuntLink(x: Externals, s: string) {
    Contains(s, "bitkit.to/treasure-hunt") && x.chestParameter(s) != Some(None)
  }

  predicate ChestLink(s: string) { Contains(s, "bitkit:chest") && '-' in s }

  /** One colon, and an `@` somewhere before it. */
  predicate NodeAddress(s: string) {
    exists i, k :: 0 <= i < k < |s| && s[i] == '@' && s[k] == ':' && multiset(s)[':'] == 1
  }

  predicate TakenEarly(x: Externals, s: string) { Ticket(s) || Drone(s) || HuntLink(x, s) || ChestLink(s) }

  lemma DashMeansTwoPieces(s: string)
    ensures |Split(s, '-')| > 1 <==> '-' in s
  {
    SplitCounts(s, '-');
    assert '-' in s <==> '-' in multiset(s);
  }

  lemma NodeAddressSplits(s: string)
    ensures NodeAddress(s) <==> '@' in s && |Split(s, ':')| == 2 && '@' in Split(s, ':')[0]
  {
    SplitCounts(s, ':');
    FirstPiece(s, ':');
    var first := Split(s, ':')[0];
    if NodeAddress(s) {
      var i, k :| 0 <= i < k < |s| && s[i] == '@' && s[k] == ':' && multiset(s)[':'] == 1;
      assert |first| < |s| by {
        assert |first| == |s| ==> s == first;
      }
      OnlyOnce(s, ':', |first|, k);
      assert first[i] == '@';
    }
    if '@' in s && |Split(s, ':')| == 2 && '@' in first {
      var i :| 0 <= i < |first| && first[i] == '@';
      assert s[..|first|][i] == s[i];
      assert |first| < |s| by {
        assert |first| == |s| ==> s == first;
        assert ':' in multiset(s);
      }
    }
  }

  lemma TwoOfThem(s: string, c: char, i: nat, k: nat)
    requires i < k < |s| && s[i] == c && s[k] == c
    ensures multiset(s)[c] >= 2
  {
    assert s == s[..k] + [s[k]] + s[k + 1..];
    assert s[..k][i] == c;
    assert c in multiset(s[..k]);
  }

  lemma OnlyOnce(s: string, c: char, i: nat, k: nat)
    requires i < |s| && k < |s| && s[i] == c && s[k] == c && multiset(s)[c] == 1
    ensures i == k
  {
    if i < k {
      TwoOfThem(s, c, i, k);
    } else if k < i {
      TwoOfThem(s, c, k, i);
    }
  }

  // ----- from the result back to the text -----

  /** What the other crates answer stays what they are asked about. */
  ghost predicate StayInKind(x: Externals) {
    && (forall t :: x.decodeLightning(t).Ok? ==> x.decodeLightning(t).value.Lightning?)
    && (forall t :: x.decodeLnurl(t).Ok? ==> x.decodeLnurl(t).value.Lnurl?)
  }

  /** What stands behind the first dash, up to the next. */
  ghost predicate ChestIs(s: string, chest: string) {
    exists k :: 0 <= k < |s| && s[k] == '-' && '-' !in s[..k] && PieceAt(s, '-', k + 1, chest)
  }

  ghost predicate HuntIs(x: Externals, s: string, chest: string) {
    if Drone(s) then chest == "2gZxrqhc"
    else if HuntLink(x, s) then x.chestParameter(s) == Some(Some(chest))
    else ChestLink(s) && ChestIs(s, chest)
  }

  lemma TicketRest(s: string)
    requires Ticket(s)
    ensures SplitOnce(s, '-') == Some(("ticket", s[7..]))
  {
    assert s == "ticket" + ['-'] + s[7..];
    SplitOnceAtFirst("ticket", '-', s[7..]);
  }

  lemma {:induction false} FirstOccurrence(s: string, c: char) returns (k: nat)
    requires c in s
    ensures k < |s| && s[k] == c && c !in s[..k]
  {
    k := 0;
    if s[0] != c {
      assert s == [s[0]] + s[1..];
      k := FirstOccurrence(s[1..], c);
      k := k + 1;
      assert s[..k] == [s[0]] + s[1..][..k - 1];
    }
  }

  lemma ChestPiece(s: string, chest: string)
    requires '-' in s
    ensures |Split(s, '-')| > 1 && (ChestIs(s, chest) <==> chest == Split(s, '-')[1])
  {
    hide Split;
    var k := FirstOccurrence(s, '-');
    SecondPiece(s, '-', k);
    if ChestIs(s, chest) {
      var j :| 0 <= j < |s| && s[j] == '-' && '-' !in s[..j] && PieceAt(s, '-', j + 1, chest);
      FirstIsUnique(s, '-', k, j);
      PieceIsUnique(s, '-', k + 1, chest, Split(s, '-')[1]);
    }
  }

  lemma FirstIsUnique(s: string, c: char, k: nat, j: nat)
    requires k < |s| && s[k] == c && c !in s[..k] && j < |s| && s[j] == c && c !in s[..j]
    ensures k == j
  {
    HeldBefore(s, j, k);
    HeldBefore(s, k, j);
  }

  lemma HeldBefore(s: string, n: nat, k: nat)
    requires n <= |s|
    ensures k < n ==> s[k] in s[..n]
  {
    if k < n {
      assert s[..n][k] == s[k];
    }
  }

  lemma PieceIsUnique(s: string, c: char, lo: nat, a: string, b: string)
    requires PieceAt(s, c, lo, a) && PieceAt(s, c, lo, b)
    ensures a == b
  {
    PieceHasNone(s, c, lo, a);
    PieceHasNone(s, c, lo, b);
  }

  lemma PieceHasNone(s: string, c: char, lo: nat, piece: string)
    requires PieceAt(s, c, lo, piece)
    ensures forall i :: lo <= i < lo + |piece| ==> s[i] != c
  {
    assert forall i :: lo <= i < lo + |piece| ==> s[i] == piece[i - lo];
  }

  /** A ticket, a treasure hunt and a node come from exactly these texts, and from what text each of
      their fields is taken. Everything else is left to the payment formats. */
  lemma EarlyKinds(x: Externals, s: string)
    requires StayInKind(x)
    ensures forall id :: Classify(x, s) == Ok(OrangeTicket(id)) <==> Ticket(s) && id == s[7..]
    ensures forall chest ::
      Classify(x, s) == Ok(TreasureHunt(chest))
      <==> !Ticket(s) && (Drone(s) || HuntLink(x, s) || ChestLink(s)) && HuntIs(x, s, chest)
    ensures forall url ::
      Classify(x, s) == Ok(NodeId(url))
      <==> !TakenEarly(x, s) && NodeAddress(s) && !Contains(s, "onion") && url == s
    ensures !TakenEarly(x, s) && NodeAddress(s) && Contains(s, "onion") ==> Classify(x, s) == Err(UnsupportedType)
    ensures !Ticket(s) && !Drone(s) && Contains(s, "bitkit.to/treasure-hunt") && x.chestParameter(s) == None ==>
      Classify(x, s) == Err(InvalidFormat)
    ensures !TakenEarly(x, s) && !NodeAddress(s) ==> Classify(x, s) == ClassifyPayment(x, s)
  {
    hide Contains, Split, ClassifyPayment, NodeAddress, ChestIs, SplitOnce;
    PaymentKinds(x, s);
    DashMeansTwoPieces(s);
    NodeAddressSplits(s);
    if Ticket(s) {
      TicketRest(s);
    }
    if '-' in s {
      forall chest
        ensures |Split(s, '-')| > 1 && (ChestIs(s, chest) <==> chest == Split(s, '-')[1])
      {
        ChestPiece(s, chest);
      }
    }
  }

  /** No payment format gives a ticket, a treasure hunt or a node. */
  lemma PaymentKinds(x: Externals, s: string)
    requires StayInKind(x)
    ensures ClassifyPayment(x, s).Ok? ==>
      var r := ClassifyPayment(x, s).value; r.OnChain? || r.Lightning? || r.PubkyAuth? || r.Lnurl?
  {
    hide LooksLikeInvoice, FindLnurl, IsLnurlAddress, ValidAddress, Split, Trim;
  }

  predicate UriScheme(s: string) { "bitcoin:" <= s }

  predicate KeyRequest(x: Externals, s: string) { "pubkyauth:" <= x.lowercase(s) }

  /** The address of a text that may be paid on chain: behind the scheme up to the first `?`, or all of
      a text no other payment format knows. */
  ghost predicate PaysTo(x: Externals, s: string, address: string) {
    if UriScheme(s) then PieceAt(s[8..], '?', 0, address)
    else address == s && !KeyRequest(x, s) && FindLnurl(x, s) == None && !IsLnurlAddress(s)
  }

  lemma PaidPiece(s: string, address: string)
    requires UriScheme(s)
    ensures StripPrefix(s, "bitcoin:") == s[8..]
    ensures PieceAt(s[8..], '?', 0, address) <==> address == Split(s[8..], '?')[0]
  {
    hide Split;
    FirstPiece(s[8..], '?');
    if PieceAt(s[8..], '?', 0, address) {
      PieceIsUnique(s[8..], '?', 0, address, Split(s[8..], '?')[0]);
    }
  }

  /** Among the texts left to them, a key request, an invoice and a payment come from exactly these. */
  lemma LateKinds(x: Externals, s: string)
    requires StayInKind(x) && !TakenEarly(x, s) && !NodeAddress(s)
    ensures LooksLikeInvoice(x, s) ==> Classify(x, s) == x.decodeLightning(StripPrefix(s, "lightning:"))
    ensures !LooksLikeInvoice(x, s) && Classify(x, s).Ok? ==> !Classify(x, s).value.Lightning?
    ensures forall data ::
      Classify(x, s) == Ok(PubkyAuth(data))
      <==> !LooksLikeInvoice(x, s) && !UriScheme(s) && KeyRequest(x, s) && data == s
    ensures IsOnChain(Classify(x, s))
      <==> !LooksLikeInvoice(x, s) && exists address :: PaysTo(x, s, address) && ValidAddress(x, address)
    ensures Classify(x, s).Ok? && Classify(x, s).value.Lnurl? ==>
      !LooksLikeInvoice(x, s) && !UriScheme(s) && !KeyRequest(x, s) &&
      if FindLnurl(x, s).Some? then Classify(x, s) == x.decodeLnurl(FindLnurl(x, s).value)
      else IsLnurlAddress(s) && Classify(x, s) == x.decodeLnurl(s)
    ensures !LooksLikeInvoice(x, s)
      && (UriScheme(s) || (!KeyRequest(x, s) && FindLnurl(x, s) == None && !IsLnurlAddress(s)))
      && (forall address :: PaysTo(x, s, address) ==> !ValidAddress(x, address))
      ==> Classify(x, s) == Err(InvalidAddress)
  {
    hide Contains, Split, LooksLikeInvoice, FindLnurl, IsLnurlAddress, ValidAddress, NodeAddress, TakenEarly,
      DecodeOnchain, Classify, StripPrefix, PieceAt;
    NotEarly(x, s);
    OnChainIsOnChain(x, s);
    OnChainIsOnChain(x, "bitcoin:" + s);
    if UriScheme(s) {
      forall address
        ensures PieceAt(s[8..], '?', 0, address) <==> address == Split(s[8..], '?')[0]
      {
        PaidPiece(s, address);
      }
      PaidPiece(s, "");
    }
  }

  lemma OnChainIsOnChain(x: Externals, s: string)
    ensures DecodeOnchain(x, s).OnChain?
  {
  }

  // ----- LNURL codes: the regular expression of find_lnurl -----

  /** A whole code stands here: `lnurl1`, at least one character of the alphabet, and none behind it. */
  predicate CodeAt(s: string, at: nat, code: string) {
    && at + |code| <= |s| && s[at..at + |code|] == code
    && |code| > 6 && code[..6] == "lnurl1"
    && (forall i :: 6 <= i < |code| ==> IsBech32Char(code[i]))
    && (at + |code| < |s| ==> !IsBech32Char(s[at + |code|]))
  }

  lemma {:induction false} Bech32Run(s: string)
    ensures forall i :: 0 <= i < Bech32Length(s) ==> IsBech32Char(s[i])
    ensures Bech32Length(s) < |s| ==> !IsBech32Char(s[Bech32Length(s)])
    decreases |s|
  {
    if s != "" && IsBech32Char(s[0]) {
      Bech32Run(s[1..]);
    }
  }

  lemma CodeHere(s: string, at: nat, code: string)
    requires at <= |s|
    ensures LnurlHere(s[at..]) == Some(code) <==> CodeAt(s, at, code)
  {
    var t := s[at..];
    if "lnurl1" <= t {
      var n := Bech32Length(t[6..]);
      Bech32Run(t[6..]);
      assert t[..6 + n] == s[at..at + 6 + n];
      if CodeAt(s, at, code) {
        SameRun(t[6..], n, |code| - 6, code[6..]);
        assert |code| == 6 + n;
      }
    }
    if CodeAt(s, at, code) {
      CodeStarts(s, at, code);
    }
  }

  lemma CodeStarts(s: string, at: nat, code: string)
    requires CodeAt(s, at, code)
    ensures "lnurl1" <= s[at..]
  {
    assert s[at..][..6] == s[at..at + |code|][..6];
  }

  ghost predicate HasCode(s: string, at: nat) {
    exists code :: CodeAt(s, at, code)
  }

  /** A run that cannot be continued is as long as any other from the same place. */
  lemma SameRun(t: string, n: nat, m: nat, run: string)
    requires n <= |t| && forall i :: 0 <= i < n ==> IsBech32Char(t[i])
    requires n < |t| ==> !IsBech32Char(t[n])
    requires m == |run| && m <= |t| && t[..m] == run && forall i :: 0 <= i < m ==> IsBech32Char(run[i])
    requires m < |t| ==> !IsBech32Char(t[m])
    ensures n == m
  {
    assert forall i :: 0 <= i < m ==> t[i] == run[i];
  }

  /** `&lightning=` or `?lightning=` with a code behind it, on the first line. */
  ghost predicate ParameterAt(s: string, start: nat, k: int) {
    && start <= k < |s| && (s[k] == '&' || s[k] == '?') && '\n' !in s[start..k]
    && "lightning=" <= s[k + 1..] && HasCode(s, k + 11)
  }

  /** The code of the last such parameter up to n. */
  ghost predicate LastParameter(s: string, start: nat, n: int, code: string) {
    exists k :: k <= n && ParameterAt(s, start, k) && CodeAt(s, k + 11, code)
                && forall j :: k < j <= n ==> !ParameterAt(s, start, j)
  }

  lemma ParameterHere(s: string, start: nat, k: nat)
    requires start <= k < |s|
    ensures ParameterAt(s, start, k)
      <==> (s[k] == '&' || s[k] == '?') && '\n' !in s[start..k] && "lightning=" <= s[k + 1..]
           && LnurlHere(s[k + 11..]).Some?
  {
    hide LnurlHere, CodeAt;
    if "lightning=" <= s[k + 1..] {
      if LnurlHere(s[k + 11..]).Some? {
        CodeHere(s, k + 11, LnurlHere(s[k + 11..]).value);
      }
      if HasCode(s, k + 11) {
        var code :| CodeAt(s, k + 11, code);
        CodeHere(s, k + 11, code);
      }
    }
  }

  lemma {:induction false} LastParameterFound(s: string, start: nat, n: nat, code: string)
    requires start <= |s|
    ensures LnurlParameter(s, start, n) == Some(code) <==> LastParameter(s, start, n, code)
    decreases n
  {
    hide CodeAt, LnurlHere;
    if start <= n < |s| {
      ParameterHere(s, start, n);
    }
    if start <= n < |s| && ParameterAt(s, start, n) {
      CodeHere(s, n + 11, code);
    } else if n > start {
      LastParameterFound(s, start, n - 1, code);
      SkippedParameter(s, start, n, code);
    }
  }

  lemma SkippedParameter(s: string, start: nat, n: int, code: string)
    requires !ParameterAt(s, start, n)
    ensures LastParameter(s, start, n, code) <==> LastParameter(s, start, n - 1, code)
  {
    hide ParameterAt, CodeAt;
  }

  /** Which code a text is searched for, once it is trimmed and in lower case: a link's is its last
      `lightning` parameter, any other text starts with its code, behind `lightning:` if that is there. */
  lemma LnurlFound(x: Externals, text: string, code: string)
    ensures var s := Trim(x.lowercase(text));
      FindLnurl(x, text) == Some(code)
      <==> if "http" <= s then LastParameter(s, 4, |s|, code)
           else if "bitcoin:" <= s then LastParameter(s, 8, |s|, code)
           else if "lightning:" <= s then CodeAt(s, 10, code)
           else CodeAt(s, 0, code)
  {
    hide Trim, LnurlParameter, LastParameter;
    var s := Trim(x.lowercase(text));
    if "http" <= s {
      LastParameterFound(s, 4, |s|, code);
    } else if "bitcoin:" <= s {
      LastParameterFound(s, 8, |s|, code);
    }
    assert "http"[0] == 'h' && "bitcoin:"[0] == 'b' && "lightning:"[1] == 'i' && "lnurl1"[1] == 'n';
    assert s[0..] == s;
    CodeHere(s, 0, code);
    if "lightning:" <= s {
      CodeHere(s, 10, code);
    }
  }

  // ----- printed forms decode as what they are -----

  lemma PlainText(x: Externals, s: string)
    requires Alphanumeric(s) && LowercasesAscii(x)
    ensures !TakenEarly(x, s) && !NodeAddress(s) && x.lowercase(s) == AsciiLower(s)
    ensures Unwrapped(s) == s && Unwrapped("lightning:" + s) == s
  {
    hide Contains, AsciiLower, Trim, Alphanumeric;
    NoMarkers(s);
    NotInAlphanumeric(s, '-');
    AlphanumericIsAscii(s);
    AddressIsTrimmed(s);
    PrefixedIsTrimmed(s);
    assert ("lightning:" + s)[|"lightning:"|..] == s;
  }

  lemma PrefixedIsTrimmed(s: string)
    requires Alphanumeric(s)
    ensures Trim("lightning:" + s) == "lightning:" + s
  {
    TrimNothing("lightning:" + s);
  }

  lemma PlainTextClassified(x: Externals, s: string)
    requires Alphanumeric(s) && LowercasesAscii(x)
    ensures Decode(x, s) == Decode(x, "lightning:" + s) == ClassifyPayment(x, s)
  {
    hide Classify, ClassifyPayment, Unwrapped, Alphanumeric, Contains, NodeAddress;
    PlainText(x, s);
    DecodeClassifiesUnwrapped(x, s);
    DecodeClassifiesUnwrapped(x, "lightning:" + s);
    NotEarly(x, s);
  }

  /** What no early format takes is left to the payment formats. */
  lemma NotEarly(x: Externals, s: string)
    requires !TakenEarly(x, s) && !NodeAddress(s)
    ensures Classify(x, s) == ClassifyPayment(x, s)
  {
    hide Contains, Split, ClassifyPayment, NodeAddress;
    DashMeansTwoPieces(s);
    NodeAddressSplits(s);
  }

  /** An invoice of the Bitcoin or the test network, in either case and with or without its scheme,
      goes to the Lightning decoder as it stands. */
  lemma InvoiceDecodes(x: Externals, s: string)
    requires Alphanumeric(s) && LowercasesAscii(x)
    requires "lnbc" <= AsciiLower(s) || "lntb" <= AsciiLower(s)
    ensures Decode(x, s) == x.decodeLightning(s) && Decode(x, "lightning:" + s) == x.decodeLightning(s)
  {
    hide Decode, FindLnurl, Contains, TakenEarly, NodeAddress, Unwrapped, Alphanumeric, AsciiLower;
    PlainTextClassified(x, s);
    PlainText(x, s);
    NoMarkers(s);
  }

  lemma LowerStart(s: string)
    requires "lnurl1" <= AsciiLower(s)
    ensures !("lnbc" <= AsciiLower(s)) && !("lntb" <= AsciiLower(s)) && !("http" <= AsciiLower(s))
  {
    assert "lnurl1"[2] == 'u' && "lnbc"[2] == 'b' && "lntb"[2] == 't' && "http"[0] == 'h';
  }

  /** A bare LNURL code, in either case and with or without its scheme, is looked up in lower case. */
  lemma LnurlDecodes(x: Externals, s: string)
    requires Alphanumeric(s) && LowercasesAscii(x) && CodeAt(AsciiLower(s), 0, AsciiLower(s))
    ensures Decode(x, s) == x.decodeLnurl(AsciiLower(s)) && Decode(x, "lightning:" + s) == x.decodeLnurl(AsciiLower(s))
  {
    hide Decode, Contains, TakenEarly, NodeAddress, Unwrapped, Alphanumeric, CodeAt, Trim, FindLnurl, IsLnurlAddress;
    var low := AsciiLower(s);
    PlainTextClassified(x, s);
    PlainText(x, s);
    NoMarkers(s);
    LoweredAlphanumeric(s);
    NoMarkers(low);
    AddressIsTrimmed(s);
    CodeStarts(low, 0, low);
    assert low[0..] == low;
    LowerStart(s);
    LnurlFound(x, s, low);
  }

  // ----- Lightning addresses -----

  predicate AddressChar(c: char) { LocalChar(c) || DomainChar(c) || c == '@' }

  lemma AddressChars(s: string)
    requires IsLnurlAddress(s)
    ensures AddressText(s)
  {
    hide LocalChar, DomainChar;
    var at, dot :| 0 < at < |s| && at + 1 < dot < |s| && s[at] == '@' && s[dot] == '.' && |s| - dot > 2
      && (forall i | 0 <= i < at :: LocalChar(s[i]))
      && (forall i | at < i < dot :: DomainChar(s[i]))
      && (forall i | dot < i < |s| :: IsLetter(s[i]));
    forall i | 0 <= i < |s|
      ensures AddressChar(s[i])
    {
      LettersAreDomain(s[i]);
      if i != at && i != dot && i > at && i < dot {
        assert DomainChar(s[i]);
      }
    }
  }

  lemma LettersAreDomain(c: char)
    ensures IsLetter(c) || c == '.' ==> DomainChar(c)
  {
  }

  predicate AddressText(s: string) { s != "" && forall i :: 0 <= i < |s| ==> AddressChar(s[i]) }

  /** Punctuation that no address holds stays out of it in lower case too. */
  lemma AddressLacks(s: string, c: char)
    requires AddressText(s) && !AddressChar(c)
    ensures c !in s && c !in AsciiLower(s)
  {
  }

  lemma AddressFormats(s: string)
    requires ':' !in s && '/' !in s
    ensures !(DEEP_LINK <= s) && !("lightning:" <= s) && !("bitcoin:" <= s) && !("pubkyauth:" <= s)
    ensures !Drone(s) && !Contains(s, "bitkit.to/treasure-hunt") && !ChestLink(s) && !Contains(s, "lightning:")
    ensures !NodeAddress(s)
  {
    hide Contains;
    MissingCharacter(s, DEEP_LINK, 6);
    MissingCharacter(s, "lightning:", 9);
    MissingCharacter(s, "bitcoin:", 7);
    MissingCharacter(s, "pubkyauth:", 9);
    MissingCharacter(s, "cutt.ly/VwQFzhJJ", 7);
    MissingCharacter(s, "bitkit.to/drone", 9);
    MissingCharacter(s, "bitkit.to/treasure-hunt", 9);
    MissingCharacter(s, "bitkit:chest", 6);
  }

  lemma AddressCharIsPrinted(c: char)
    requires AddressChar(c)
    ensures (c as int) < 128 && !IsWhitespace(c)
    ensures 'A' <= c <= 'Z' ==> !IsWhitespace((c as int + 32) as char)
  {
  }

  lemma AddressTrimmed(s: string)
    requires AddressText(s)
    ensures Ascii(s) && Trim(s) == s && Trim(AsciiLower(s)) == AsciiLower(s)
  {
    hide AddressChar, IsWhitespace, Trim;
    var low := AsciiLower(s);
    forall i | 0 <= i < |s|
      ensures (s[i] as int) < 128
    {
      AddressCharIsPrinted(s[i]);
    }
    AddressCharIsPrinted(s[0]);
    AddressCharIsPrinted(s[|s| - 1]);
    TrimNothing(s);
    TrimNothing(low);
  }

  lemma NoParameter(s: string, start: nat, code: string)
    requires '&' !in s && '?' !in s
    ensures !LastParameter(s, start, |s|, code)
  {
  }

  /** An address `user@host` is looked up as it stands, unless its first characters name a ticket, an
      invoice or a whole LNURL code: then it is taken for that. */
  lemma LightningAddressDecodes(x: Externals, s: string)
    requires IsLnurlAddress(s) && LowercasesAscii(x)
    ensures var invoice := "lnbc" <= AsciiLower(s) || "lntb" <= AsciiLower(s);
      && (Ticket(s) ==> Decode(x, s) == Ok(OrangeTicket(s[7..])))
      && (!Ticket(s) && invoice ==> Decode(x, s) == x.decodeLightning(s))
      && (!Ticket(s) && !invoice ==>
            forall code :: CodeAt(AsciiLower(s), 0, code) ==> Decode(x, s) == x.decodeLnurl(code))
      && (!Ticket(s) && !invoice && !HasCode(AsciiLower(s), 0) ==> Decode(x, s) == x.decodeLnurl(s))
  {
    hide Contains, AsciiLower, Trim, IsLnurlAddress, NodeAddress, CodeAt, FindLnurl, LastParameter, Classify,
      AddressText, Drone, ChestLink, Ascii, SplitOnce;
    AddressChars(s);
    AddressTrimmed(s);
    AddressLacks(s, ':');
    AddressLacks(s, '/');
    AddressFormats(s);
    AddressFormats(AsciiLower(s));
    if Ticket(s) {
      TicketRest(s);
      TicketFirst(x, s);
    } else {
      NotEarly(x, s);
      AddressCode(x, s);
    }
  }

  lemma TicketFirst(x: Externals, s: string)
    requires Ticket(s)
    ensures Classify(x, s) == Ok(OrangeTicket(match SplitOnce(s, '-') case Some((_, id)) => id case None => ""))
  {
    hide SplitOnce;
  }

  lemma AddressCode(x: Externals, s: string)
    requires AddressText(s) && x.lowercase(s) == AsciiLower(s) && Trim(AsciiLower(s)) == AsciiLower(s)
    requires !("bitcoin:" <= AsciiLower(s)) && !("lightning:" <= AsciiLower(s))
    ensures forall code :: FindLnurl(x, s) == Some(code) <==> CodeAt(AsciiLower(s), 0, code)
    ensures !HasCode(AsciiLower(s), 0) ==> FindLnurl(x, s) == None
  {
    hide AsciiLower, Trim, CodeAt, FindLnurl, LastParameter, AddressText;
    var low := AsciiLower(s);
    AddressLacks(s, '&');
    AddressLacks(s, '?');
    forall code
      ensures FindLnurl(x, s) == Some(code) <==> CodeAt(low, 0, code)
    {
      LnurlFound(x, s, code);
      NoParameter(low, 4, code);
      if CodeAt(low, 0, code) {
        CodeStarts(low, 0, code);
        assert low[0..] == low;
        assert "lnurl1"[0] == 'l' && "http"[0] == 'h';
      }
    }
    if FindLnurl(x, s).Some? {
      assert CodeAt(low, 0, FindLnurl(x, s).value);
    }
  }
}
