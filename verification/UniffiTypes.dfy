/** The descriptions of three of the generated types: the multisig script of a hardware-wallet
    request, the Blocktank order and the scanner's result. */
module UniffiTypes {
  import opened Common
  import opened UniffiCodec
  import opened UniffiRoundTrip
  import opened UniffiFormat
  import opened UniffiCanonical

  const U8 := TUInt(1)
  const U32 := TUInt(4)
  const U64 := TUInt(8)
  const DOUBLE := TUInt(8)

  /** An enumeration whose n cases carry nothing. */
  function Plain(n: nat): Ty { TEnum(seq(n, _ => TRecord([]))) }

  const HD_NODE := TRecord([U32, U32, U32, TString, TString, TOpt(TString), TOpt(TSeq(U32))])
  const HD_NODE_OR_STRING := TEnum([TRecord([TString]), TRecord([HD_NODE])])
  const HD_NODE_PATH := TRecord([HD_NODE_OR_STRING, TSeq(U32)])
  const MULTISIG_SCRIPT := TRecord([TSeq(HD_NODE_PATH), TSeq(TString), U32, TOpt(TSeq(HD_NODE)), TOpt(U8)])

  const FUNDING_TX := TRecord([TString, U64])
  const CHANNEL_CLOSE := TRecord([TString, TString, TString, TString])
  const CHANNEL := TRecord(
    [Plain(3), TString, TString, TBool, FUNDING_TX, TOpt(TString), TOpt(CHANNEL_CLOSE), TOpt(TString)])
  const LSP_NODE := TRecord([TString, TString, TSeq(TString), TOpt(TBool)])
  const BOLT11_INVOICE := TRecord([TString, Plain(4), TString, TString])
  const TRANSACTION := TRecord([U64, TString, U32, TOpt(U32), U32, DOUBLE, TBool, TString])
  const TRANSACTIONS := TRecord([TString, U64, U32, TSeq(TRANSACTION)])
  const MANUAL_REFUND := TRecord([U64, TString, Plain(4), TString, TOpt(TString), TOpt(TString), TString])
  const PAYMENT := TRecord(
    [Plain(5), Plain(5), U64, BOLT11_INVOICE, TRANSACTIONS, TOpt(TBool), TOpt(TSeq(MANUAL_REFUND))])
  const DISCOUNT := TRecord([TString, U64, DOUBLE, U64])

  const ORDER_HEAD := [TString, Plain(4), Plain(4), U64, U64, U64, U64, U64, TBool, TBool, TOpt(TString), U32]
  const ORDER_TAIL := [TString, TString, TOpt(CHANNEL), LSP_NODE, TOpt(TString), PAYMENT, TOpt(TString), TOpt(TString),
                       TOpt(DISCOUNT), TString, TString]
  const ORDER := TRecord(ORDER_HEAD + ORDER_TAIL)

  const ON_CHAIN_INVOICE := TRecord([TString, U64, TOpt(TString), TOpt(TString), TOpt(TDict)])
  const LIGHTNING_INVOICE := TRecord([TString, TData, U64, U64, U64, TBool, TOpt(TString), Plain(4), TOpt(TData)])
  const LNURL_CHANNEL := TRecord([TString, TString, TString, TString])
  const LNURL_AUTH := TRecord([TString, TString, TString])
  const LNURL_WITHDRAW := TRecord([TString, TString, TString, TString, TOpt(U64), U64, TString])
  const LNURL_ADDRESS := TRecord([TString, TString, TString])
  const LNURL_PAY := TRecord([TString, TString, U64, U64, TString, TOpt(U32), TBool, TOpt(TData)])
  const SCANNER := TEnum(
    [TRecord([ON_CHAIN_INVOICE]), TRecord([LIGHTNING_INVOICE]), TRecord([TString]), TRecord([LNURL_CHANNEL]),
     TRecord([LNURL_AUTH]), TRecord([LNURL_WITHDRAW]), TRecord([LNURL_ADDRESS]), TRecord([LNURL_PAY]),
     TRecord([TString, Plain(4)]), TRecord([TString]), TRecord([TString])])

  // ----- the multisig script: one spelling per value -----

  lemma MultisigIsCanonical()
    ensures Canonical(MULTISIG_SCRIPT)
  {
    assert Canonical(HD_NODE);
    assert Canonical(HD_NODE_OR_STRING) by {
      assert Canonical(TRecord([TString])) && Canonical(TRecord([HD_NODE]));
    }
    assert Canonical(HD_NODE_PATH);
    assert Canonical(TSeq(HD_NODE_PATH)) && Canonical(TOpt(TSeq(HD_NODE))) && Canonical(TOpt(U8));
  }

  /** A buffer lifts to a script exactly when it is that script lowered. */
  lemma MultisigBytesAreUnique(data: seq<byte>, v: Val, order: Order)
    requires ValidOrder(order)
    ensures Lift(MULTISIG_SCRIPT, data) == Ok(v)
      <==> HasType(v, MULTISIG_SCRIPT) && data == Lower(MULTISIG_SCRIPT, v, order)
  {
    hide Canonical;
    MultisigIsCanonical();
    LiftIsInverseOfLower(MULTISIG_SCRIPT, data, v, order);
  }

  // ----- a list of orders -----

  lemma PlainIsCountable(n: nat)
    requires n <= MAX_INT32
    ensures CasesCountable(Plain(n)) && MinSize(Plain(n)) == 4
  {
  }

  lemma {:induction false} MinSizesConcat(a: seq<Ty>, b: seq<Ty>)
    ensures MinSizes(a + b) == MinSizes(a) + MinSizes(b)
    decreases |a|
  {
    if a == [] {
      assert a + b == b;
    } else {
      assert (a + b)[1..] == a[1..] + b;
      MinSizesConcat(a[1..], b);
    }
  }

  lemma MinSizesOfThree(ts: seq<Ty>)
    requires |ts| >= 3
    ensures MinSizes(ts) == MinSize(ts[0]) + MinSize(ts[1]) + MinSize(ts[2]) + MinSizes(ts[3..])
  {
    assert ts[1..][1..] == ts[2..] && ts[2..][1..] == ts[3..];
    assert MinSizes(ts[1..]) == MinSize(ts[1]) + MinSizes(ts[2..]);
    assert MinSizes(ts[2..]) == MinSize(ts[2]) + MinSizes(ts[3..]);
  }

  lemma LspNodeFacts()
    ensures CasesCountable(LSP_NODE) && MinSize(LSP_NODE) == 13
  {
    MinSizesOfThree(LSP_NODE.fields);
  }

  lemma ChannelFacts()
    ensures CasesCountable(CHANNEL)
  {
  }

  lemma InvoiceFacts()
    ensures CasesCountable(BOLT11_INVOICE) && MinSize(BOLT11_INVOICE) == 16
    ensures CasesCountable(TRANSACTIONS) && MinSize(TRANSACTIONS) == 20
  {
    PlainIsCountable(4);
    MinSizesOfThree(BOLT11_INVOICE.fields);
    MinSizesOfThree(TRANSACTIONS.fields);
    assert CasesCountable(TRANSACTION);
  }

  lemma RefundFacts()
    ensures CasesCountable(TOpt(TSeq(MANUAL_REFUND)))
  {
    PlainIsCountable(4);
    assert CasesCountable(TOpt(TString));
    assert CasesCountable(MANUAL_REFUND);
  }

  lemma PaymentFacts()
    ensures CasesCountable(PAYMENT) && MinSize(PAYMENT) == 54
  {
    PlainIsCountable(5);
    InvoiceFacts();
    RefundFacts();
    MinSizesOfThree(PAYMENT.fields);
    MinSizesOfThree(PAYMENT.fields[3..]);
  }

  lemma OrderHeadFacts()
    ensures AllCountable(ORDER_HEAD) && MinSizes(ORDER_HEAD) == 59
  {
    PlainIsCountable(4);
    MinSizesOfThree(ORDER_HEAD);
    MinSizesOfThree(ORDER_HEAD[3..]);
    MinSizesOfThree(ORDER_HEAD[6..]);
    MinSizesOfThree(ORDER_HEAD[9..]);
  }

  lemma OrderTailFacts()
    ensures AllCountable(ORDER_TAIL) && MinSizes(ORDER_TAIL) == 88
  {
    hide CasesCountable;
    ChannelFacts();
    LspNodeFacts();
    PaymentFacts();
    MinSizesOfThree(ORDER_TAIL);
    MinSizesOfThree(ORDER_TAIL[3..]);
    MinSizesOfThree(ORDER_TAIL[6..]);
    OrderTailIsCountable();
  }

  lemma OrderTailIsCountable()
    requires CasesCountable(CHANNEL) && CasesCountable(LSP_NODE) && CasesCountable(PAYMENT)
    ensures AllCountable(ORDER_TAIL)
  {
    assert CasesCountable(DISCOUNT) && CasesCountable(TOpt(DISCOUNT)) && CasesCountable(TOpt(CHANNEL));
    assert CasesCountable(TOpt(TString));
  }

  /** However little an order says, it takes 147 bytes, so a list that declares more orders than
      the remaining bytes hold at that size cannot be read. */
  lemma OrdersFitTheirBytes(data: seq<byte>, off: nat, vs: seq<Val>, end: nat)
    requires off <= |data| && Decode(TSeq(ORDER), data, off) == Ok((VSeq(vs), end))
    ensures off + 4 + 147 * |vs| <= end <= |data|
  {
    OrderHeadFacts();
    OrderTailFacts();
    MinSizesConcat(ORDER_HEAD, ORDER_TAIL);
    assert AllCountable(ORDER_HEAD + ORDER_TAIL);
    CountWithin(data, off);
    DecodeAllSound(ORDER, data, off + 4, ReadCount(data, off).value.0);
  }

  // ----- a scan result -----

  lemma ScannerPartsAreCountable()
    ensures CasesCountable(ON_CHAIN_INVOICE) && CasesCountable(LIGHTNING_INVOICE)
    ensures CasesCountable(LNURL_WITHDRAW) && CasesCountable(LNURL_PAY)
  {
  }

  lemma ScannerIsCountable()
    ensures CasesCountable(SCANNER)
  {
    ScannerPartsAreCountable();
    PlainIsCountable(4);
    assert CasesCountable(LNURL_CHANNEL) && CasesCountable(LNURL_AUTH) && CasesCountable(LNURL_ADDRESS);
    forall i | 0 <= i < |SCANNER.variants|
      ensures CasesCountable(SCANNER.variants[i])
    {
    }
  }

  /** Whatever bytes arrive, a scan result that is accepted is one of the eleven cases with a
      well-formed payload, and writing it again makes a buffer that lifts to it. */
  lemma ScannerReadIsSound(data: seq<byte>, v: Val, order: Order)
    requires ValidOrder(order) && Lift(SCANNER, data) == Ok(v)
    ensures v.VEnum? && v.variant < 11 && HasType(v, SCANNER)
    ensures Lift(SCANNER, Lower(SCANNER, v, order)) == Ok(v)
  {
    ScannerIsCountable();
    hide Decode, CasesCountable, Encode;
    DecodeSound(SCANNER, data, 0);
    LiftLower(SCANNER, v, order, []);
    assert Lower(SCANNER, v, order) + [] == Lower(SCANNER, v, order);
  }

  // ----- which bytes carry which field -----

  /** The five parts of a multisig script one behind the other: the public keys, the signatures, m in
      four bytes, the nodes, and the order of the keys. */
  lemma MultisigLayout(pubkeys: Val, signatures: Val, m: Val, nodes: Val, pubkeysOrder: Val,
                       data: seq<byte>, lo: nat, hi: nat)
    requires lo <= hi <= |data|
    ensures Spells(MULTISIG_SCRIPT, VRecord([pubkeys, signatures, m, nodes, pubkeysOrder]), data, lo, hi)
      <==> exists cuts ::
             && CutsFrom(cuts, 5, lo, hi)
             && Spells(TSeq(HD_NODE_PATH), pubkeys, data, cuts[0], cuts[1])
             && Spells(TSeq(TString), signatures, data, cuts[1], cuts[2])
             && Spells(U32, m, data, cuts[2], cuts[3])
             && Spells(TOpt(TSeq(HD_NODE)), nodes, data, cuts[3], cuts[4])
             && Spells(TOpt(U8), pubkeysOrder, data, cuts[4], cuts[5])
  {
    hide Spells;
    RecordIsCut(MULTISIG_SCRIPT.fields, [pubkeys, signatures, m, nodes, pubkeysOrder], data, lo, hi);
  }

  /** The seven parts of a node: three numbers in four bytes each, then its texts and its address. */
  lemma HdNodeLayout(depth: Val, fingerprint: Val, childNum: Val, chainCode: Val, publicKey: Val,
                     privateKey: Val, addressN: Val, data: seq<byte>, lo: nat, hi: nat)
    requires lo <= hi <= |data|
    ensures var vs := [depth, fingerprint, childNum, chainCode, publicKey, privateKey, addressN];
      var ts := [U32, U32, U32, TString, TString, TOpt(TString), TOpt(TSeq(U32))];
      Spells(HD_NODE, VRecord(vs), data, lo, hi)
      <==> exists cuts :: CutsFrom(cuts, 7, lo, hi) && CutInto(ts, vs, data, cuts)
  {
    hide Spells, CutInto;
    var vs := [depth, fingerprint, childNum, chainCode, publicKey, privateKey, addressN];
    RecordIsCut(HD_NODE.fields, vs, data, lo, hi);
  }

  /** The nine parts of a Lightning invoice. */
  lemma LightningInvoiceLayout(bolt11: Val, paymentHash: Val, amountSatoshis: Val, timestampSeconds: Val,
                               expirySeconds: Val, isExpired: Val, description: Val, networkType: Val,
                               payeeNodeId: Val, data: seq<byte>, lo: nat, hi: nat)
    requires lo <= hi <= |data|
    ensures var vs := [bolt11, paymentHash, amountSatoshis, timestampSeconds, expirySeconds, isExpired,
                       description, networkType, payeeNodeId];
      var ts := [TString, TData, U64, U64, U64, TBool, TOpt(TString), Plain(4), TOpt(TData)];
      Spells(LIGHTNING_INVOICE, VRecord(vs), data, lo, hi)
      <==> exists cuts :: CutsFrom(cuts, 9, lo, hi) && CutInto(ts, vs, data, cuts)
  {
    hide Spells, CutInto;
    var vs := [bolt11, paymentHash, amountSatoshis, timestampSeconds, expirySeconds, isExpired,
               description, networkType, payeeNodeId];
    RecordIsCut(LIGHTNING_INVOICE.fields, vs, data, lo, hi);
  }

  /** A path: the node or its text, then the address. */
  lemma NodePathLayout(node: Val, addressN: Val, data: seq<byte>, lo: nat, hi: nat)
    requires lo <= hi <= |data|
    ensures Spells(HD_NODE_PATH, VRecord([node, addressN]), data, lo, hi)
      <==> exists cuts ::
             && CutsFrom(cuts, 2, lo, hi)
             && Spells(HD_NODE_OR_STRING, node, data, cuts[0], cuts[1])
             && Spells(TSeq(U32), addressN, data, cuts[1], cuts[2])
  {
    hide Spells;
    RecordIsCut(HD_NODE_PATH.fields, [node, addressN], data, lo, hi);
  }

  /** Number 1 is a text, number 2 a whole node. */
  lemma NodeOrStringCases(v: Val, content: Val, data: seq<byte>, lo: nat, hi: nat)
    requires v.VEnum? && v.payload == VRecord([content]) && lo + 4 <= hi <= |data|
    ensures Spells(HD_NODE_OR_STRING, v, data, lo, hi)
      <==> || (CountAt(data, lo, 1) && v.variant == 0 && Spells(TString, content, data, lo + 4, hi))
           || (CountAt(data, lo, 2) && v.variant == 1 && Spells(HD_NODE, content, data, lo + 4, hi))
  {
    CaseOf(HD_NODE_OR_STRING.variants, v, data, lo, hi);
    if v.variant < 2 {
      SingleField(HD_NODE_OR_STRING.variants[v.variant].fields[0], content, data, lo + 4, hi);
    }
    hide Spells;
  }

  /** The five parts of a payment request: address, amount in eight bytes, label, message, parameters. */
  lemma OnChainInvoiceLayout(address: Val, amountSatoshis: Val, labelText: Val, message: Val, params: Val,
                             data: seq<byte>, lo: nat, hi: nat)
    requires lo <= hi <= |data|
    ensures Spells(ON_CHAIN_INVOICE, VRecord([address, amountSatoshis, labelText, message, params]), data, lo, hi)
      <==> exists cuts ::
             && CutsFrom(cuts, 5, lo, hi)
             && Spells(TString, address, data, cuts[0], cuts[1])
             && Spells(U64, amountSatoshis, data, cuts[1], cuts[2])
             && Spells(TOpt(TString), labelText, data, cuts[2], cuts[3])
             && Spells(TOpt(TString), message, data, cuts[3], cuts[4])
             && Spells(TOpt(TDict), params, data, cuts[4], cuts[5])
  {
    hide Spells;
    RecordIsCut(ON_CHAIN_INVOICE.fields, [address, amountSatoshis, labelText, message, params], data, lo, hi);
  }

  lemma SingleField(t: Ty, v: Val, data: seq<byte>, lo: nat, hi: nat)
    requires lo <= hi <= |data|
    ensures Spells(TRecord([t]), VRecord([v]), data, lo, hi) <==> Spells(t, v, data, lo, hi)
  {
    hide Spells;
    RecordIsCut([t], [v], data, lo, hi);
    if Spells(t, v, data, lo, hi) {
      assert CutsFrom([lo, hi], 1, lo, hi) && CutInto([t], [v], data, [lo, hi]);
    }
  }

  /** The scanner's results by their numbers: 1 a payment request, 2 a Lightning invoice, 4 to 8 the
      LNURL requests, each with its one record; 3, 10 and 11 an authentication, a treasure hunt and an
      orange ticket, each with its text. */
  lemma ScannerCases(v: Val, content: Val, data: seq<byte>, lo: nat, hi: nat)
    requires v.VEnum? && v.payload == VRecord([content]) && lo + 4 <= hi <= |data| && v.variant != 8
    ensures Spells(SCANNER, v, data, lo, hi)
      <==> CountAt(data, lo, v.variant + 1) &&
           match v.variant
           case 0 => Spells(ON_CHAIN_INVOICE, content, data, lo + 4, hi)
           case 1 => Spells(LIGHTNING_INVOICE, content, data, lo + 4, hi)
           case 3 => Spells(LNURL_CHANNEL, content, data, lo + 4, hi)
           case 4 => Spells(LNURL_AUTH, content, data, lo + 4, hi)
           case 5 => Spells(LNURL_WITHDRAW, content, data, lo + 4, hi)
           case 6 => Spells(LNURL_ADDRESS, content, data, lo + 4, hi)
           case 7 => Spells(LNURL_PAY, content, data, lo + 4, hi)
           case n => (n == 2 || n == 9 || n == 10) && content.VString? && SpellsBytes(content.utf8, data, lo + 4, hi)
  {
    CaseOf(SCANNER.variants, v, data, lo, hi);
    TextSpelled(content, data, lo + 4, hi);
    if v.variant < 11 {
      SingleField(SCANNER.variants[v.variant].fields[0], content, data, lo + 4, hi);
    }
    hide Spells;
  }

  lemma CaseOf(ts: seq<Ty>, v: Val, data: seq<byte>, lo: nat, hi: nat)
    requires v.VEnum? && lo + 4 <= hi <= |data|
    ensures Spells(TEnum(ts), v, data, lo, hi)
      <==> v.variant < |ts| && CountAt(data, lo, v.variant + 1) && Spells(ts[v.variant], v.payload, data, lo + 4, hi)
  {
  }

  lemma TextSpelled(v: Val, data: seq<byte>, lo: nat, hi: nat)
    requires lo <= hi <= |data|
    ensures Spells(TString, v, data, lo, hi) <==> v.VString? && SpellsBytes(v.utf8, data, lo, hi)
  {
  }

  /** Number 9 is a node: its address and then its network, a number from 1 to 4. */
  lemma NodeIdCase(url: Val, network: Val, data: seq<byte>, lo: nat, hi: nat)
    requires lo + 4 <= hi <= |data|
    ensures Spells(SCANNER, VEnum(8, VRecord([url, network])), data, lo, hi)
      <==> CountAt(data, lo, 9) && exists cuts ::
             && CutsFrom(cuts, 2, lo + 4, hi)
             && Spells(TString, url, data, cuts[0], cuts[1])
             && Spells(Plain(4), network, data, cuts[1], cuts[2])
  {
    hide Spells, CountAt;
    CaseOf(SCANNER.variants, VEnum(8, VRecord([url, network])), data, lo, hi);
    assert SCANNER.variants[8] == TRecord([TString, Plain(4)]);
    RecordIsCut([TString, Plain(4)], [url, network], data, lo + 4, hi);
  }
}
