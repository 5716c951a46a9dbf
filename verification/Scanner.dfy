/** Scanner::decode: a priority list of formats, deep-link unwrapping, and the BIP 21 query parser.

    What lives in other crates - address checksums, BOLT 11, LNURL requests, URL parsing, Unicode
    lower-casing and the amount's float parsing - is an argument.
  */
module ScannerDecoding {
  import opened Common

  datatype DecodingError = InvalidFormat | InvalidAddress | UnsupportedType

  datatype OnChainInvoice = OnChainInvoice(
    address: string,
    amountSatoshis: u64,
    labelText: Option<string>,
    message: Option<string>,
    params: map<string, string>)

  datatype Scanned =
    | OnChain(invoice: OnChainInvoice)
    | Lightning(bolt11: string)
    | PubkyAuth(data: string)
    | Lnurl(data: string)
    | NodeId(url: string)
    | TreasureHunt(chestId: string)
    | OrangeTicket(ticketId: string)

  datatype Network = Bitcoin | Testnet | Regtest

  datatype Externals = Externals(
    lowercase: string -> string,
    parsesAsAddress: (string, Network) -> bool,       // Address::from_str and require_network
    parseAmount: string -> Option<u64>,
    decodeLightning: string -> Result<Scanned, DecodingError>,
    decodeLnurl: string -> Result<Scanned, DecodingError>,
    chestParameter: string -> Option<Option<string>>) // Url::parse, then the query's "chest"

  // ----- strings -----

  predicate Contains(s: string, p: string)
    decreases |s|
  {
    p <= s || (s != "" && Contains(s[1..], p))
  }

  function StripPrefix(s: string, p: string): string { if p <= s then s[|p|..] else s }

  /** `s.replace(p, "")`: occurrences from the left, without rescanning what is left. */
  function RemoveAll(s: string, p: string): (r: string)
    requires p != ""
    ensures |r| <= |s|
    ensures p <= s ==> |r| < |s|
    decreases |s|
  {
    if s == "" then ""
    else if p <= s then RemoveAll(s[|p|..], p)
    else [s[0]] + RemoveAll(s[1..], p)
  }

  /** Unicode White_Space. */
  predicate IsWhitespace(c: char) {
    var n := c as int;
    || 0x09 <= n <= 0x0D || n == 0x20 || n == 0x85 || n == 0xA0 || n == 0x1680
    || 0x2000 <= n <= 0x200A || n == 0x2028 || n == 0x2029 || n == 0x202F || n == 0x205F || n == 0x3000
  }

  function TrimStart(s: string): (r: string)
    ensures |r| <= |s|
  {
    if s != "" && IsWhitespace(s[0]) then TrimStart(s[1..]) else s
  }

  function TrimEnd(s: string): (r: string)
    ensures |r| <= |s|
  {
    if s != "" && IsWhitespace(s[|s| - 1]) then TrimEnd(s[..|s| - 1]) else s
  }

  function Trim(s: string): (r: string)
    ensures |r| <= |s|
  {
    TrimEnd(TrimStart(s))
  }

  function Split(s: string, c: char): (parts: seq<string>)
    ensures parts != []
  {
    if s == "" then [""]
    else
      var rest := Split(s[1..], c);
      if s[0] == c then [""] + rest else [[s[0]] + rest[0]] + rest[1..]
  }

  /** `split_once`: what stands before and behind the first c. */
  function SplitOnce(s: string, c: char): Option<(string, string)> {
    if s == "" then None
    else if s[0] == c then Some(("", s[1..]))
    else
      match SplitOnce(s[1..], c)
      case None => None
      case Some((before, behind)) => Some(([s[0]] + before, behind))
  }

  // ----- addresses -----

  function DetermineNetwork(a: string): Option<Network> {
    if "1" <= a || "3" <= a || "bc1" <= a then Some(Bitcoin)
    else if "2" <= a || "tb1" <= a || "m" <= a || "n" <= a then Some(Testnet)
    else if "bcrt1" <= a then Some(Regtest)
    else None
  }

  predicate ValidAddress(x: Externals, a: string) {
    var network := DetermineNetwork(a);
    network.Some? && x.parsesAsAddress(a, network.value)
  }

  // ----- BIP 21 -----

  /** Collecting into a HashMap: a repeated key keeps its last value, a segment without `=` is
      dropped. */
  function CollectParams(segments: seq<string>): map<string, string> {
    if segments == [] then map[]
    else
      var before := CollectParams(segments[..|segments| - 1]);
      match SplitOnce(segments[|segments| - 1], '=')
      case None => before
      case Some((k, v)) => before[k := v]
  }

  function Lookup(m: map<string, string>, k: string): Option<string> { if k in m then Some(m[k]) else None }

  function AmountOf(x: Externals, params: map<string, string>): u64 {
    match Lookup(params, "amount")
    case None => 0
    case Some(text) => match x.parseAmount(text) case Some(n) => n case None => 0
  }

  function InvoiceOf(x: Externals, address: string, params: map<string, string>): OnChainInvoice {
    OnChainInvoice(address, AmountOf(x, params), Lookup(params, "label"), Lookup(params, "message"), params)
  }

  function DecodeOnchain(x: Externals, uri: string): Scanned {
    var parts := Split(StripPrefix(uri, "bitcoin:"), '?');
    var params := if |parts| > 1 then CollectParams(Split(parts[1], '&')) else map[];
    OnChain(InvoiceOf(x, parts[0], params))
  }

  // ----- LNURL texts -----

  predicate IsBech32Char(c: char) {
    c == '0' || '2' <= c <= '9' || c == 'a' || 'c' <= c <= 'h' || 'j' <= c <= 'n' || 'p' <= c <= 'z'
  }

  function Bech32Length(s: string): (n: nat)
    ensures n <= |s|
  {
    if s != "" && IsBech32Char(s[0]) then 1 + Bech32Length(s[1..]) else 0
  }

  function LnurlHere(s: string): Option<string> {
    if "lnurl1" <= s && Bech32Length(s[6..]) > 0 then Some(s[..6 + Bech32Length(s[6..])]) else None
  }

  /** The last `&lightning=` or `?lightning=` at or before i that a code follows; `.` does not
      cross a line break. */
  function LnurlParameter(s: string, start: nat, i: nat): Option<string>
    requires start <= |s|
    decreases i
  {
    if i < start then None
    else if i < |s| && (s[i] == '&' || s[i] == '?') && '\n' !in s[start..i] && "lightning=" <= s[i + 1..]
            && LnurlHere(s[i + 11..]).Some? then LnurlHere(s[i + 11..])
    else if i == 0 then None
    else LnurlParameter(s, start, i - 1)
  }

  function FindLnurl(x: Externals, text: string): Option<string> {
    var s := Trim(x.lowercase(text));
    var parameter :=
      if "http" <= s then LnurlParameter(s, 4, |s|)
      else if "bitcoin:" <= s then LnurlParameter(s, 8, |s|)
      else None;
    if parameter.Some? then parameter
    else if "lightning:" <= s && LnurlHere(s[10..]).Some? then LnurlHere(s[10..])
    else LnurlHere(s)
  }

  predicate LocalChar(c: char) { 'a' <= c <= 'z' || IsDigit(c) || c == '.' || c == '_' || c == '-' }

  predicate DomainChar(c: char) { IsLetter(c) || IsDigit(c) || c == '.' || c == '-' }

  predicate IsLnurlAddress(s: string) {
    exists at, dot | 0 < at < |s| && at + 1 < dot < |s| ::
      && s[at] == '@' && s[dot] == '.' && |s| - dot > 2
      && (forall i | 0 <= i < at :: LocalChar(s[i]))
      && (forall i | at < i < dot :: DomainChar(s[i]))
      && (forall i | dot < i < |s| :: IsLetter(s[i]))
  }

  // ----- the priority list -----

  const DEEP_LINK := "bitkit://"

  function Decode(x: Externals, input: string): Result<Scanned, DecodingError>
    decreases |input|
  {
    var s := StripPrefix(Trim(input), "lightning:");
    if DEEP_LINK <= s then Decode(x, RemoveAll(s, DEEP_LINK)) else Classify(x, s)
  }

  function Classify(x: Externals, s: string): Result<Scanned, DecodingError> {
    if "ticket-" <= s then
      Ok(OrangeTicket(match SplitOnce(s, '-') case Some((_, id)) => id case None => ""))
    else if Contains(s, "cutt.ly/VwQFzhJJ") || Contains(s, "bitkit.to/drone") then Ok(TreasureHunt("2gZxrqhc"))
    else if Contains(s, "bitkit.to/treasure-hunt") then
      match x.chestParameter(s)
      case None => Err(InvalidFormat)
      case Some(Some(chest)) => Ok(TreasureHunt(chest))
      case Some(None) => ClassifyChest(x, s)
    else ClassifyChest(x, s)
  }

  function ClassifyChest(x: Externals, s: string): Result<Scanned, DecodingError> {
    if Contains(s, "bitkit:chest") && |Split(s, '-')| > 1 then Ok(TreasureHunt(Split(s, '-')[1]))
    else ClassifyNode(x, s)
  }

  function ClassifyNode(x: Externals, s: string): Result<Scanned, DecodingError> {
    if '@' in s && |Split(s, ':')| == 2 && '@' in Split(s, ':')[0] then
      if Contains(s, "onion") then Err(UnsupportedType) else Ok(NodeId(s))
    else ClassifyPayment(x, s)
  }

  predicate LooksLikeInvoice(x: Externals, s: string) {
    Contains(x.lowercase(s), "lightning:") || "lntb" <= x.lowercase(s) || "lnbc" <= x.lowercase(s)
  }

  function ClassifyPayment(x: Externals, s: string): Result<Scanned, DecodingError> {
    if LooksLikeInvoice(x, s) then x.decodeLightning(StripPrefix(s, "lightning:"))
    else if "bitcoin:" <= s then
      if ValidAddress(x, Split(StripPrefix(s, "bitcoin:"), '?')[0]) then Ok(DecodeOnchain(x, s))
      else Err(InvalidAddress)
    else if "pubkyauth:" <= x.lowercase(s) then Ok(PubkyAuth(s))
    else if FindLnurl(x, s).Some? then x.decodeLnurl(FindLnurl(x, s).value)
    else if IsLnurlAddress(s) then x.decodeLnurl(s)
    else if ValidAddress(x, s) then Ok(DecodeOnchain(x, "bitcoin:" + s))
    else Err(InvalidAddress)
  }
}
