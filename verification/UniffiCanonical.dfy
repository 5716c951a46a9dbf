/** Writing undoes reading, as far as it does: exactly the accepted bytes that a writer could have
    written are written again, and exactly the types without booleans and dictionaries accept no
    others. */
module UniffiCanonical {
  import opened Common
  import opened UniffiCodec
  import opened UniffiRoundTrip
  import opened UniffiFormat

  // ----- what is read in a buffer -----

  function KeysRead(data: seq<byte>, off: nat, n: nat): seq<seq<byte>>
    decreases n
  {
    if n == 0 then []
    else
      match ReadString(data, off)
      case Err(_) => []
      case Ok((key, mid)) =>
        match ReadString(data, mid)
        case Err(_) => []
        case Ok((value, end)) => [key] + KeysRead(data, end, n - 1)
  }

  function DictAt(data: seq<byte>, off: nat): Dict {
    match Decode(TDict, data, off)
    case Ok((v, end)) => if v.VDict? then v.entries else map[]
    case Err(_) => map[]
  }

  /** The keys of the dictionary that stands at an offset, in the order they stand there. */
  function KeysAt(data: seq<byte>, off: nat): seq<seq<byte>> {
    if Decode(TDict, data, off).Err? then []
    else
      match ReadCount(data, off)
      case Err(_) => []
      case Ok((n, mid)) => KeysRead(data, mid, n)
  }

  /** Reading the type at the offset meets no boolean byte but 0 and 1, and only dictionaries at
      places that satisfy `dict`. */
  predicate Each(ty: Ty, data: seq<byte>, off: nat, dict: nat -> bool)
    decreases ty, 0, 0
  {
    match ty
    case TBool => off < |data| ==> data[off] <= 1
    case TDict => dict(off)
    case TOpt(t) =>
      (match ReadUInt(data, off, 1)
       case Err(_) => true
       case Ok((tag, mid)) => tag == 1 ==> Each(t, data, mid, dict))
    case TSeq(t) =>
      (match ReadCount(data, off)
       case Err(_) => true
       case Ok((n, mid)) => EachElement(t, data, mid, n, dict))
    case TRecord(ts) => EachField(ts, data, off, dict)
    case TEnum(ts) =>
      (match ReadInt32(data, off)
       case Err(_) => true
       case Ok((tag, mid)) => 1 <= tag <= |ts| ==> Each(ts[tag - 1], data, mid, dict))
    case _ => true
  }

  predicate EachElement(t: Ty, data: seq<byte>, off: nat, n: nat, dict: nat -> bool)
    decreases t, 1, n
  {
    n == 0
    || (Each(t, data, off, dict)
        && match Decode(t, data, off)
           case Err(_) => true
           case Ok((v, mid)) => EachElement(t, data, mid, n - 1, dict))
  }

  predicate EachField(ts: seq<Ty>, data: seq<byte>, off: nat, dict: nat -> bool)
    decreases ts, 0, 0
  {
    ts == []
    || (Each(ts[0], data, off, dict)
        && match Decode(ts[0], data, off)
           case Err(_) => true
           case Ok((v, mid)) => EachField(ts[1..], data, mid, dict))
  }

  /** No key stands twice in the dictionary. */
  ghost function NoRepeats(data: seq<byte>): nat -> bool {
    (pos: nat) => NoDuplicates(KeysAt(data, pos))
  }

  /** The keys stand in the order the writer would take them. */
  ghost function InOrder(data: seq<byte>, order: Order): nat -> bool {
    (pos: nat) => KeysAt(data, pos) == order(pos, DictAt(data, pos))
  }

  lemma {:induction false} EachMono(ty: Ty, data: seq<byte>, off: nat, p: nat -> bool, q: nat -> bool)
    requires Each(ty, data, off, p) && forall pos: nat :: p(pos) ==> q(pos)
    ensures Each(ty, data, off, q)
    decreases ty, 0, 0
  {
    match ty
    case TOpt(t) =>
      var tag := ReadUInt(data, off, 1);
      if tag.Ok? && tag.value.0 == 1 {
        EachMono(t, data, tag.value.1, p, q);
      }
    case TSeq(t) =>
      var count := ReadCount(data, off);
      if count.Ok? {
        EachElementMono(t, data, count.value.1, count.value.0, p, q);
      }
    case TRecord(ts) => EachFieldMono(ts, data, off, p, q);
    case TEnum(ts) =>
      var tag := ReadInt32(data, off);
      if tag.Ok? && 1 <= tag.value.0 <= |ts| {
        EachMono(ts[tag.value.0 - 1], data, tag.value.1, p, q);
      }
    case _ =>
  }

  lemma {:induction false} EachElementMono(t: Ty, data: seq<byte>, off: nat, n: nat, p: nat -> bool, q: nat -> bool)
    requires EachElement(t, data, off, n, p) && forall pos: nat :: p(pos) ==> q(pos)
    ensures EachElement(t, data, off, n, q)
    decreases t, 1, n
  {
    if n == 0 {
    } else {
      hide Decode;
      EachMono(t, data, off, p, q);
      var first := Decode(t, data, off);
      if first.Ok? {
        EachElementMono(t, data, first.value.1, n - 1, p, q);
      }
    }
  }

  lemma {:induction false} EachFieldMono(ts: seq<Ty>, data: seq<byte>, off: nat, p: nat -> bool, q: nat -> bool)
    requires EachField(ts, data, off, p) && forall pos: nat :: p(pos) ==> q(pos)
    ensures EachField(ts, data, off, q)
    decreases ts, 0, 0
  {
    if ts == [] {
    } else {
      hide Decode;
      EachMono(ts[0], data, off, p, q);
      var first := Decode(ts[0], data, off);
      if first.Ok? {
        EachFieldMono(ts[1..], data, first.value.1, p, q);
      }
    }
  }

  // ----- dictionaries as they stand -----

  lemma PairRead(data: seq<byte>, off: nat, n: nat, dict: Dict)
    requires n > 0
    ensures var key := ReadString(data, off);
      if key.Err? then ReadPairs(data, off, n, dict).Err?
      else
        var value := ReadString(data, key.value.1);
        if value.Err? then ReadPairs(data, off, n, dict).Err?
        else
          && ReadPairs(data, off, n, dict) == ReadPairs(data, value.value.1, n - 1, dict[key.value.0 := value.value.0])
          && KeysRead(data, off, n) == [key.value.0] + KeysRead(data, value.value.1, n - 1)
  {
    hide ReadString;
  }

  lemma InFront(k: seq<byte>, key: seq<byte>, rest: seq<seq<byte>>)
    ensures k in [key] + rest <==> k == key || k in rest
  {
  }

  lemma {:induction false} KeysReadMean(data: seq<byte>, off: nat, n: nat, dict: Dict)
    ensures var r, keys := ReadPairs(data, off, n, dict), KeysRead(data, off, n);
      r.Ok? ==>
        && |keys| == n
        && (forall k :: k in r.value.0 <==> k in dict || k in keys)
        && (forall k :: k in dict && k !in keys ==> r.value.0[k] == dict[k])
    decreases n
  {
    hide ReadString;
    if n == 0 {
    } else {
      hide ReadPairs, KeysRead;
      PairRead(data, off, n, dict);
      var key := ReadString(data, off);
      if key.Ok? {
        var value := ReadString(data, key.value.1);
        if value.Ok? {
          KeysReadMean(data, value.value.1, n - 1, dict[key.value.0 := value.value.0]);
          forall k
            ensures k in KeysRead(data, off, n) <==> k == key.value.0 || k in KeysRead(data, value.value.1, n - 1)
          {
            InFront(k, key.value.0, KeysRead(data, value.value.1, n - 1));
          }
        }
      }
    }
  }

  lemma DistinctRest(key: seq<byte>, keys: seq<seq<byte>>)
    requires NoDuplicates([key] + keys)
    ensures NoDuplicates(keys) && key !in keys
  {
    forall i | 0 <= i < |keys|
      ensures keys[i] != key
      ensures forall j :: i < j < |keys| ==> keys[i] != keys[j]
    {
      assert ([key] + keys)[0] != ([key] + keys)[i + 1];
      forall j | i < j < |keys|
        ensures keys[i] != keys[j]
      {
        assert ([key] + keys)[i + 1] != ([key] + keys)[j + 1];
      }
    }
  }

  lemma RemovedKey(m: Dict, k: seq<byte>)
    requires k in m
    ensures |m - {k}| == |m| - 1
  {
    assert m == (m - {k})[k := m[k]];
  }

  lemma {:induction false} DistinctCount(keys: seq<seq<byte>>, m: Dict)
    requires NoDuplicates(keys) && forall k :: k in m <==> k in keys
    ensures |m| == |keys|
    decreases |keys|
  {
    if keys == [] {
      assert m == map[];
    } else {
      hide NoDuplicates;
      assert keys == [keys[0]] + keys[1..];
      DistinctRest(keys[0], keys[1..]);
      forall k
        ensures k in m - {keys[0]} <==> k in keys[1..]
      {
        InFront(k, keys[0], keys[1..]);
      }
      DistinctCount(keys[1..], m - {keys[0]});
      RemovedKey(m, keys[0]);
    }
  }

  /** The bytes are what stands in the buffer between the two offsets. */
  predicate Between(data: seq<byte>, off: nat, end: nat, bs: seq<byte>) {
    off <= end <= |data| && data[off..end] == bs
  }

  lemma BetweenConcat(data: seq<byte>, off: nat, mid: nat, end: nat, a: seq<byte>, b: seq<byte>)
    requires Between(data, off, mid, a) && Between(data, mid, end, b)
    ensures Between(data, off, end, a + b) && mid == off + |a|
  {
  }

  lemma {:induction false} BigEndianForth(bs: seq<byte>)
    ensures BigEndian(FromBigEndian(bs), |bs|) == bs
  {
    if bs == [] {
    } else {
      var init, last := bs[..|bs| - 1], bs[|bs| - 1];
      BigEndianForth(init);
      var n := FromBigEndian(init) * 256 + last;
      assert n / 256 == FromBigEndian(init) && n % 256 == last;
      assert bs == init + [last];
    }
  }

  lemma UIntForth(data: seq<byte>, off: nat, w: nat)
    ensures var r := ReadUInt(data, off, w); r.Ok? ==> Between(data, off, off + w, BigEndian(r.value.0, w))
  {
    if off + w <= |data| {
      BigEndianForth(data[off..off + w]);
    }
  }

  lemma Pow256Four()
    ensures Pow256(4) == 0x1_0000_0000
  {
  }

  lemma CountForth(data: seq<byte>, off: nat)
    ensures var r := ReadInt32(data, off);
      r.Ok? && r.value.0 >= 0 ==> Between(data, off, off + 4, Int32Bytes(r.value.0))
  {
    hide FromBigEndian, BigEndian;
    UIntForth(data, off, INT32_SIZE);
    if off + 4 <= |data| {
      FromBigEndianBound(data[off..off + 4]);
      Pow256Four();
    }
  }

  lemma BytesForth(data: seq<byte>, off: nat)
    ensures var r := ReadBytes(data, off); r.Ok? ==> Between(data, off, r.value.1, EncodeBytes(r.value.0))
  {
    hide ReadInt32;
    CountForth(data, off);
    BytesWithin(data, off);
    var r := ReadBytes(data, off);
    if r.Ok? {
      var s, end := r.value.0, r.value.1;
      BetweenConcat(data, off, end - |s|, end, Int32Bytes(|s|), s);
    }
  }

  lemma TagForth(data: seq<byte>, off: nat)
    ensures var r := ReadUInt(data, off, 1); r.Ok? ==> r.value.0 < 256 && Between(data, off, off + 1, [r.value.0])
  {
    if off < |data| {
      var bs := data[off..off + 1];
      assert bs[..0] == [] && FromBigEndian(bs[..0]) == 0;
      assert FromBigEndian(bs) == bs[0] && bs == [bs[0]];
    }
  }

  lemma TagEnd(data: seq<byte>, off: nat, w: nat)
    ensures var r := ReadUInt(data, off, w); r.Ok? ==> r.value.1 == off + w <= |data|
  {
  }

  lemma StringForth(data: seq<byte>, off: nat)
    ensures var r := ReadString(data, off); r.Ok? ==> Between(data, off, r.value.1, EncodeBytes(r.value.0))
  {
    hide ReadBytes;
    BytesForth(data, off);
  }

  ghost predicate PairsStand(data: seq<byte>, off: nat, m: Dict, end: nat, keys: seq<seq<byte>>) {
    (forall i :: 0 <= i < |keys| ==> keys[i] in m) && Between(data, off, end, EncodePairs(m, keys))
  }

  lemma NoPairsStand(data: seq<byte>, off: nat, dict: Dict)
    requires off <= |data|
    ensures ReadPairs(data, off, 0, dict) == Ok((dict, off)) && PairsStand(data, off, dict, off, KeysRead(data, off, 0))
  {
  }

  /** One more pair, in front of those already accounted for. */
  lemma PairWritesBack(data: seq<byte>, off: nat, key: seq<byte>, mid: nat, value: seq<byte>, next: nat,
                       m: Dict, keys: seq<seq<byte>>, end: nat)
    requires Between(data, off, mid, EncodeBytes(key)) && Between(data, mid, next, EncodeBytes(value))
    requires key in m && m[key] == value && PairsStand(data, next, m, end, keys)
    ensures PairsStand(data, off, m, end, [key] + keys)
  {
    hide EncodeBytes, Between;
    BetweenConcat(data, off, mid, next, EncodeBytes(key), EncodeBytes(value));
    BetweenConcat(data, off, next, end, EncodeBytes(key) + EncodeBytes(value), EncodePairs(m, keys));
    assert ([key] + keys)[1..] == keys;
  }

  /** Pairs without a repeated key are written as they stand, in the order they stand. */
  lemma {:induction false} PairsForth(data: seq<byte>, off: nat, n: nat, dict: Dict)
    requires off <= |data| && ReadPairs(data, off, n, dict).Ok? && NoDuplicates(KeysRead(data, off, n))
    ensures var r := ReadPairs(data, off, n, dict).value; PairsStand(data, off, r.0, r.1, KeysRead(data, off, n))
    decreases n
  {
    hide ReadString, EncodeBytes, Between, ReadPairs, KeysRead, PairsStand, NoDuplicates;
    if n == 0 {
      NoPairsStand(data, off, dict);
    } else {
      PairRead(data, off, n, dict);
      var key := ReadString(data, off).value;
      var value := ReadString(data, key.1).value;
      var m, end := ReadPairs(data, off, n, dict).value.0, ReadPairs(data, off, n, dict).value.1;
      var rest := KeysRead(data, value.1, n - 1);
      StringForth(data, off);
      StringForth(data, key.1);
      WithinBuffer(data, off, key.1, EncodeBytes(key.0));
      WithinBuffer(data, key.1, value.1, EncodeBytes(value.0));
      DistinctRest(key.0, rest);
      PairsForth(data, value.1, n - 1, dict[key.0 := value.0]);
      KeysReadMean(data, value.1, n - 1, dict[key.0 := value.0]);
      PairWritesBack(data, off, key.0, key.1, value.0, value.1, m, rest, end);
    }
  }

  lemma NothingBetween(data: seq<byte>, off: nat)
    requires off <= |data|
    ensures Between(data, off, off, [])
  {
  }

  lemma WithinBuffer(data: seq<byte>, off: nat, end: nat, bs: seq<byte>)
    requires Between(data, off, end, bs)
    ensures off <= end <= |data|
  {
  }

  /** A dictionary with its keys apart is the enumeration of its entries by those keys. */
  lemma KeysEnumerate(data: seq<byte>, off: nat)
    requires NoDuplicates(KeysAt(data, off))
    ensures Enumerates(KeysAt(data, off), DictAt(data, off))
  {
    hide ReadPairs, ReadCount, KeysRead;
    if Decode(TDict, data, off).Ok? {
      var count := ReadCount(data, off).value;
      KeysReadMean(data, count.1, count.0, map[]);
      DistinctCount(KeysAt(data, off), DictAt(data, off));
    }
  }

  /** What a dictionary that is read consists of. */
  lemma DictParts(data: seq<byte>, off: nat) returns (n: nat, m: Dict, end: nat)
    requires Decode(TDict, data, off).Ok?
    ensures ReadCount(data, off) == Ok((n, off + 4)) && ReadPairs(data, off + 4, n, map[]) == Ok((m, end))
    ensures Decode(TDict, data, off) == Ok((VDict(m), end))
    ensures DictAt(data, off) == m && KeysAt(data, off) == KeysRead(data, off + 4, n)
  {
    hide ReadPairs, ReadCount, KeysRead;
    CountWithin(data, off);
    n := ReadCount(data, off).value.0;
    m, end := ReadPairs(data, off + 4, n, map[]).value.0, ReadPairs(data, off + 4, n, map[]).value.1;
  }

  lemma OrderedKeys(data: seq<byte>, off: nat, order: Order)
    requires ValidOrder(order) && InOrder(data, order)(off)
    ensures KeysAt(data, off) == order(off, DictAt(data, off)) && Enumerates(KeysAt(data, off), DictAt(data, off))
  {
    hide KeysAt, DictAt, Enumerates;
    assert Enumerates(order(off, DictAt(data, off)), DictAt(data, off));
  }

  lemma DictWritesBack(data: seq<byte>, off: nat, order: Order)
    requires off <= |data| && ValidOrder(order) && InOrder(data, order)(off)
    ensures WritesBack(Decode(TDict, data, off), TDict, data, off, order)
  {
    DecodeSound(TDict, data, off);
    if Decode(TDict, data, off).Ok? {
      OrderedKeys(data, off, order);
      hide Decode, ReadPairs, ReadCount, KeysRead, KeysAt, DictAt, InOrder, BigEndian, EncodePairs, Between, IsString;
      var n, m, end := DictParts(data, off);
      var keys := KeysAt(data, off);
      CountWithin(data, off);
      CountBytes(data, off);
      KeysReadMean(data, off + 4, n, map[]);
      PairsForth(data, off + 4, n, map[]);
      BetweenConcat(data, off, off + 4, end, Int32Bytes(n), EncodePairs(m, keys));
    }
  }

  lemma CountBytes(data: seq<byte>, off: nat)
    ensures var r := ReadCount(data, off); r.Ok? ==> Between(data, off, off + 4, Int32Bytes(r.value.0))
  {
    hide ReadInt32;
    CountForth(data, off);
  }

  /** The value read is written back as the bytes it was read from. */
  ghost predicate WritesBack(r: Reading<Val>, ty: Ty, data: seq<byte>, off: nat, order: Order)
    requires ValidOrder(order)
  {
    r.Ok? ==> HasType(r.value.0, ty) && Between(data, off, r.value.1, Encode(ty, r.value.0, off, order))
  }

  lemma LeafWritesBack(ty: Ty, data: seq<byte>, off: nat, order: Order)
    requires off <= |data| && IsLeaf(ty) && ValidOrder(order) && Each(ty, data, off, InOrder(data, order))
    ensures WritesBack(Decode(ty, data, off), ty, data, off, order)
  {
    hide ReadBytes, BigEndian, EncodeBytes, ValidUtf8, Pow256, Between, FromBigEndian, ReadString;
    DecodeSound(ty, data, off);
    match ty
    case TUInt(w) =>
      UIntForth(data, off, w);
      TagEnd(data, off, w);
    case TBool =>
      TagForth(data, off);
      TagEnd(data, off, 1);
      if off < |data| {
        TagIsByte(data, off);
      }
    case TString => StringForth(data, off);
    case TData => BytesForth(data, off);
    case TDict => DictWritesBack(data, off, order);
  }

  lemma TagIsByte(data: seq<byte>, off: nat)
    requires off < |data|
    ensures ReadUInt(data, off, 1) == Ok((data[off], off + 1))
  {
    assert data[off..off + 1] == [data[off]];
    ByteBack(data, off, data[off]);
  }

  /** Where booleans are 0 or 1 and dictionaries stand in the writer's order, writing what was read
      gives the bytes it was read from. */
  lemma {:induction false} EncodeUndoesDecode(ty: Ty, data: seq<byte>, off: nat, order: Order)
    requires off <= |data| && CasesCountable(ty) && ValidOrder(order) && Each(ty, data, off, InOrder(data, order))
    ensures WritesBack(Decode(ty, data, off), ty, data, off, order)
    decreases ty, 1, 0
  {
    match ty
    case TOpt(t) => OptWritesBack(t, data, off, order);
    case TSeq(t) => SeqWritesBack(t, data, off, order);
    case TRecord(ts) => FieldsWriteBack(ts, data, off, order);
    case TEnum(ts) => EnumWritesBack(ts, data, off, order);
    case _ => LeafWritesBack(ty, data, off, order);
  }

  lemma {:induction false} OptWritesBack(t: Ty, data: seq<byte>, off: nat, order: Order)
    requires off <= |data| && CasesCountable(t) && ValidOrder(order) && Each(TOpt(t), data, off, InOrder(data, order))
    ensures WritesBack(Decode(TOpt(t), data, off), TOpt(t), data, off, order)
    decreases TOpt(t), 0, 0
  {
    hide ReadUInt, Between;
    TagForth(data, off);
    TagEnd(data, off, 1);
    var r := Decode(TOpt(t), data, off);
    if r.Ok? && r.value.0.VSome? {
      EncodeUndoesDecode(t, data, off + 1, order);
      BetweenConcat(data, off, off + 1, r.value.1, [1], Encode(t, r.value.0.v, off + 1, order));
    }
  }

  lemma {:induction false} SeqWritesBack(t: Ty, data: seq<byte>, off: nat, order: Order)
    requires off <= |data| && CasesCountable(t) && ValidOrder(order) && Each(TSeq(t), data, off, InOrder(data, order))
    ensures WritesBack(Decode(TSeq(t), data, off), TSeq(t), data, off, order)
    decreases TSeq(t), 0, 0
  {
    hide ReadUInt, Between, AllHaveType;
    CountForth(data, off);
    CountWithin(data, off);
    var r := Decode(TSeq(t), data, off);
    if r.Ok? {
      var vs := r.value.0.elements;
      AllWriteBack(t, data, off + 4, ReadCount(data, off).value.0, order);
      BetweenConcat(data, off, off + 4, r.value.1, Int32Bytes(|vs|), EncodeAll(t, vs, off + 4, order));
    }
  }

  lemma {:induction false} EnumWritesBack(ts: seq<Ty>, data: seq<byte>, off: nat, order: Order)
    requires off <= |data| && CasesCountable(TEnum(ts)) && ValidOrder(order)
    requires Each(TEnum(ts), data, off, InOrder(data, order))
    ensures WritesBack(Decode(TEnum(ts), data, off), TEnum(ts), data, off, order)
    decreases TEnum(ts), 0, 0
  {
    hide ReadUInt, Between;
    CountForth(data, off);
    TagEnd(data, off, INT32_SIZE);
    var r := Decode(TEnum(ts), data, off);
    if r.Ok? {
      var v := r.value.0;
      EncodeUndoesDecode(ts[v.variant], data, off + 4, order);
      BetweenConcat(data, off, off + 4, r.value.1, Int32Bytes(v.variant + 1),
        Encode(ts[v.variant], v.payload, off + 4, order));
    }
  }

  /** One more element, in front of those already accounted for. */
  lemma ElementWritesBack(t: Ty, v: Val, vs: seq<Val>, data: seq<byte>, off: nat, mid: nat, end: nat, order: Order)
    requires HasType(v, t) && AllHaveType(vs, t) && ValidOrder(order)
    requires Between(data, off, mid, Encode(t, v, off, order)) && Between(data, mid, end, EncodeAll(t, vs, mid, order))
    ensures AllHaveType([v] + vs, t) && Between(data, off, end, EncodeAll(t, [v] + vs, off, order))
  {
    hide Encode, HasType, Between;
    BetweenConcat(data, off, mid, end, Encode(t, v, off, order), EncodeAll(t, vs, mid, order));
    assert ([v] + vs)[1..] == vs;
  }

  lemma NoElementsBack(t: Ty, data: seq<byte>, off: nat, order: Order)
    requires off <= |data| && ValidOrder(order)
    ensures DecodeAll(t, data, off, 0) == Ok(([], off)) && AllHaveType([], t)
    ensures Between(data, off, off, EncodeAll(t, [], off, order))
  {
  }

  lemma EachElementStep(t: Ty, data: seq<byte>, off: nat, n: nat, dict: nat -> bool)
    requires n > 0
    ensures var first := Decode(t, data, off);
      EachElement(t, data, off, n, dict)
      <==> Each(t, data, off, dict) && (first.Ok? ==> EachElement(t, data, first.value.1, n - 1, dict))
  {
    hide Decode, Each;
  }

  lemma {:induction false} AllWriteBack(t: Ty, data: seq<byte>, off: nat, n: nat, order: Order)
    requires off <= |data| && CasesCountable(t) && ValidOrder(order)
    requires EachElement(t, data, off, n, InOrder(data, order))
    ensures var r := DecodeAll(t, data, off, n);
      r.Ok? ==> |r.value.0| == n && AllHaveType(r.value.0, t)
                && Between(data, off, r.value.1, EncodeAll(t, r.value.0, off, order))
    decreases t, 2, n
  {
    hide Decode, DecodeAll, Encode, EncodeAll, CasesCountable, HasType, AllHaveType,
      Each, EachElement, InOrder, Between;
    if n == 0 {
      NoElementsBack(t, data, off, order);
    } else {
      DecodeAllStep(t, data, off, n);
      EachElementStep(t, data, off, n, InOrder(data, order));
      EncodeUndoesDecode(t, data, off, order);
      var first := Decode(t, data, off);
      if first.Ok? {
        var rest := DecodeAll(t, data, first.value.1, n - 1);
        WithinBuffer(data, off, first.value.1, Encode(t, first.value.0, off, order));
        AllWriteBack(t, data, first.value.1, n - 1, order);
        if rest.Ok? {
          ElementWritesBack(t, first.value.0, rest.value.0, data, off, first.value.1, rest.value.1, order);
        }
      }
    }
  }

  lemma FieldWritesBack(ts: seq<Ty>, v: Val, vs: seq<Val>, data: seq<byte>, off: nat, mid: nat, end: nat, order: Order)
    requires ts != [] && HasType(v, ts[0]) && FieldsHaveType(vs, ts[1..]) && ValidOrder(order)
    requires Between(data, off, mid, Encode(ts[0], v, off, order))
    requires Between(data, mid, end, EncodeFields(ts[1..], vs, mid, order))
    ensures FieldsHaveType([v] + vs, ts) && Between(data, off, end, EncodeFields(ts, [v] + vs, off, order))
  {
    hide Encode, HasType, Between;
    BetweenConcat(data, off, mid, end, Encode(ts[0], v, off, order), EncodeFields(ts[1..], vs, mid, order));
    assert ([v] + vs)[1..] == vs;
  }

  lemma {:induction false} FieldsWriteBack(ts: seq<Ty>, data: seq<byte>, off: nat, order: Order)
    requires off <= |data| && AllCountable(ts) && ValidOrder(order) && EachField(ts, data, off, InOrder(data, order))
    ensures var r := DecodeFields(ts, data, off);
      r.Ok? ==> FieldsHaveType(r.value.0, ts)
                && Between(data, off, r.value.1, EncodeFields(ts, r.value.0, off, order))
    decreases ts, 0, 0
  {
    if ts == [] {
      NothingBetween(data, off);
    } else {
      hide Decode, Encode, EncodeFields, CasesCountable, HasType, FieldsHaveType;
      EncodeUndoesDecode(ts[0], data, off, order);
      var first := Decode(ts[0], data, off);
      if first.Ok? {
        var rest := DecodeFields(ts[1..], data, first.value.1);
        FieldsWriteBack(ts[1..], data, first.value.1, order);
        if rest.Ok? {
          FieldWritesBack(ts, first.value.0, rest.value.0, data, off, first.value.1, rest.value.1, order);
        }
      }
    }
  }

  // ----- what is written stands in the writer's order -----

  lemma {:induction false} PairsKeys(data: seq<byte>, off: nat, m: Dict, keys: seq<seq<byte>>)
    requires StringPairs(m, keys) && At(data, off, EncodePairs(m, keys))
    ensures KeysRead(data, off, |keys|) == keys
    decreases |keys|
  {
    hide ReadString, EncodeBytes, At;
    if keys == [] {
    } else {
      var key, value := keys[0], m[keys[0]];
      var pair, rest := EncodeBytes(key) + EncodeBytes(value), EncodePairs(m, keys[1..]);
      AtSplit(data, off, pair, rest);
      AtSplit(data, off, EncodeBytes(key), EncodeBytes(value));
      BytesBack(data, off, key);
      BytesBack(data, off + |EncodeBytes(key)|, value);
      PairsKeys(data, off + |pair|, m, keys[1..]);
      assert keys == [key] + keys[1..];
    }
  }

  lemma DictInOrder(m: Dict, data: seq<byte>, off: nat, order: Order)
    requires HasType(VDict(m), TDict) && ValidOrder(order) && At(data, off, Encode(TDict, VDict(m), off, order))
    ensures InOrder(data, order)(off)
  {
    assert Enumerates(order(off, m), m);
    WrittenDict(m, data, off, order(off, m));
  }

  lemma WrittenDict(m: Dict, data: seq<byte>, off: nat, keys: seq<seq<byte>>)
    requires HasType(VDict(m), TDict) && Enumerates(keys, m)
    requires At(data, off, Int32Bytes(|m|) + EncodePairs(m, keys))
    ensures DictAt(data, off) == m && KeysAt(data, off) == keys
  {
    hide ReadPairs, ReadInt32, ReadString, BigEndian, EncodePairs, At, IsString, KeysRead;
    DictBack(data, off, m, keys);
    AtSplit(data, off, Int32Bytes(|m|), EncodePairs(m, keys));
    CountBack(data, off, |m|);
    PairsKeys(data, off + 4, m, keys);
  }

  /** Whatever a writer has written, its booleans are 0 or 1 and its dictionaries in its order. */
  lemma {:induction false} WrittenInOrder(ty: Ty, v: Val, data: seq<byte>, off: nat, order: Order)
    requires HasType(v, ty) && ValidOrder(order) && At(data, off, Encode(ty, v, off, order))
    ensures Each(ty, data, off, InOrder(data, order))
    decreases ty, 1, 0
  {
    match ty
    case TDict => DictInOrder(v.entries, data, off, order);
    case TOpt(t) =>
      if v.VSome? {
        AtSplit(data, off, [1], Encode(t, v.v, off + 1, order));
        ByteBack(data, off, 1);
        WrittenInOrder(t, v.v, data, off + 1, order);
      } else {
        ByteBack(data, off, 0);
      }
    case TSeq(t) =>
      AtSplit(data, off, Int32Bytes(|v.elements|), EncodeAll(t, v.elements, off + 4, order));
      CountBack(data, off, |v.elements|);
      ElementsInOrder(t, v.elements, data, off + 4, order);
    case TRecord(ts) => FieldsInOrder(ts, v.fields, data, off, order);
    case TEnum(ts) =>
      AtSplit(data, off, Int32Bytes(v.variant + 1), Encode(ts[v.variant], v.payload, off + 4, order));
      CountBack(data, off, v.variant + 1);
      WrittenInOrder(ts[v.variant], v.payload, data, off + 4, order);
    case TBool => BoolWritten(v.b, data, off);
    case _ =>
  }

  lemma BoolWritten(b: bool, data: seq<byte>, off: nat)
    requires At(data, off, [if b then 1 else 0])
    ensures data[off] <= 1
  {
    assert data[off + 0] == [if b then 1 else 0][0];
  }

  lemma NoElementsEach(t: Ty, data: seq<byte>, off: nat, dict: nat -> bool)
    ensures EachElement(t, data, off, 0, dict)
  {
  }

  lemma FirstElement(t: Ty, vs: seq<Val>, data: seq<byte>, off: nat, order: Order) returns (mid: nat)
    requires vs != [] && AllHaveType(vs, t) && ValidOrder(order) && At(data, off, EncodeAll(t, vs, off, order))
    ensures HasType(vs[0], t) && AllHaveType(vs[1..], t)
    ensures At(data, off, Encode(t, vs[0], off, order)) && Decode(t, data, off) == Ok((vs[0], mid))
    ensures At(data, mid, EncodeAll(t, vs[1..], mid, order))
  {
    hide Decode, Encode, At, HasType;
    var first := Encode(t, vs[0], off, order);
    mid := off + |first|;
    AtSplit(data, off, first, EncodeAll(t, vs[1..], mid, order));
    RoundTrip(t, vs[0], data, off, order);
  }

  lemma {:induction false} ElementsInOrder(t: Ty, vs: seq<Val>, data: seq<byte>, off: nat, order: Order)
    requires AllHaveType(vs, t) && ValidOrder(order) && At(data, off, EncodeAll(t, vs, off, order))
    ensures EachElement(t, data, off, |vs|, InOrder(data, order))
    decreases t, 2, |vs|
  {
    hide Decode, Encode, EncodeAll, Each, At, HasType, AllHaveType, EachElement, InOrder;
    if vs == [] {
      NoElementsEach(t, data, off, InOrder(data, order));
    } else {
      var mid := FirstElement(t, vs, data, off, order);
      WrittenInOrder(t, vs[0], data, off, order);
      ElementsInOrder(t, vs[1..], data, mid, order);
      EachElementStep(t, data, off, |vs|, InOrder(data, order));
    }
  }

  lemma {:induction false} FieldsInOrder(ts: seq<Ty>, vs: seq<Val>, data: seq<byte>, off: nat, order: Order)
    requires FieldsHaveType(vs, ts) && ValidOrder(order) && At(data, off, EncodeFields(ts, vs, off, order))
    ensures EachField(ts, data, off, InOrder(data, order))
    decreases ts, 0, 0
  {
    hide Decode, Encode, Each, At, HasType, InOrder;
    if ts == [] {
    } else {
      var first := Encode(ts[0], vs[0], off, order);
      AtSplit(data, off, first, EncodeFields(ts[1..], vs[1..], off + |first|, order));
      RoundTrip(ts[0], vs[0], data, off, order);
      WrittenInOrder(ts[0], vs[0], data, off, order);
      FieldsInOrder(ts[1..], vs[1..], data, off + |first|, order);
    }
  }

  // ----- which accepted bytes can have been written -----

  ghost function Listing(m: Dict): (keys: seq<seq<byte>>)
    ensures Enumerates(keys, m)
    decreases |m|
  {
    if m == map[] then []
    else
      var k :| k in m;
      assert m == (m - {k})[k := m[k]];
      Listing(m - {k}) + [k]
  }

  /** The order a writer would have to take to write the dictionaries of the buffer as they stand. */
  ghost function OrderOf(data: seq<byte>): (order: Order)
    ensures ValidOrder(order)
  {
    (pos: nat, m: Dict) => if Enumerates(KeysAt(data, pos), m) then KeysAt(data, pos) else Listing(m)
  }

  lemma NoRepeatsInOrder(data: seq<byte>, pos: nat)
    ensures NoRepeats(data)(pos) ==> InOrder(data, OrderOf(data))(pos)
  {
    if NoRepeats(data)(pos) {
      KeysEnumerate(data, pos);
    }
  }

  lemma InOrderNoRepeats(data: seq<byte>, order: Order, pos: nat)
    requires ValidOrder(order)
    ensures InOrder(data, order)(pos) ==> NoRepeats(data)(pos)
  {
    assert Enumerates(order(pos, DictAt(data, pos)), DictAt(data, pos));
  }

  /** Some writer writes the value, at its place in the buffer, as these very bytes. */
  ghost predicate Writable(ty: Ty, v: Val, data: seq<byte>, off: nat, end: nat)
    requires HasType(v, ty)
  {
    exists order :: ValidOrder(order) && Between(data, off, end, Encode(ty, v, off, order))
  }

  lemma BetweenIsAt(data: seq<byte>, off: nat, end: nat, bs: seq<byte>)
    requires Between(data, off, end, bs)
    ensures At(data, off, bs) && end == off + |bs|
  {
    forall i | 0 <= i < |bs|
      ensures data[off + i] == bs[i]
    {
      assert data[off..end][i] == bs[i];
    }
  }

  /** Bytes that are accepted could have been written exactly when every boolean among them is 0 or
      1 and no key stands twice in one dictionary. */
  lemma AcceptedIsWritable(ty: Ty, data: seq<byte>, off: nat)
    requires off <= |data| && CasesCountable(ty) && Decode(ty, data, off).Ok?
    ensures var (v, end) := Decode(ty, data, off).value;
      HasType(v, ty) && (Writable(ty, v, data, off, end) <==> Each(ty, data, off, NoRepeats(data)))
  {
    hide Decode, Each, Encode, CasesCountable, At, Between, KeysAt, DictAt, HasType;
    var v, end := Decode(ty, data, off).value.0, Decode(ty, data, off).value.1;
    DecodeSound(ty, data, off);
    if order: Order :| ValidOrder(order) && Between(data, off, end, Encode(ty, v, off, order)) {
      BetweenIsAt(data, off, end, Encode(ty, v, off, order));
      WrittenInOrder(ty, v, data, off, order);
      forall pos: nat
        ensures InOrder(data, order)(pos) ==> NoRepeats(data)(pos)
      {
        InOrderNoRepeats(data, order, pos);
      }
      EachMono(ty, data, off, InOrder(data, order), NoRepeats(data));
    }
    if Each(ty, data, off, NoRepeats(data)) {
      forall pos: nat
        ensures NoRepeats(data)(pos) ==> InOrder(data, OrderOf(data))(pos)
      {
        NoRepeatsInOrder(data, pos);
      }
      EachMono(ty, data, off, NoRepeats(data), InOrder(data, OrderOf(data)));
      EncodeUndoesDecode(ty, data, off, OrderOf(data));
    }
  }

  /** The same of a whole buffer. */
  lemma LiftedIsLowered(ty: Ty, data: seq<byte>)
    requires CrossesEncoded(ty) && CasesCountable(ty) && Lift(ty, data).Ok?
    ensures var v := Lift(ty, data).value;
      && HasType(v, ty)
      && ((exists order :: ValidOrder(order) && data == Lower(ty, v, order)) <==> Each(ty, data, 0, NoRepeats(data)))
  {
    AcceptedIsWritable(ty, data, 0);
    DecodeSound(ty, data, 0);
    hide Decode, Each, Encode, CasesCountable, HasType;
    var v := Lift(ty, data).value;
    assert data[0..|data|] == data;
    assert Writable(ty, v, data, 0, |data|) <==> Each(ty, data, 0, NoRepeats(data));
    if order: Order :| ValidOrder(order) && data == Lower(ty, v, order) {
      assert Between(data, 0, |data|, Encode(ty, v, 0, order));
    }
    if Writable(ty, v, data, 0, |data|) {
      var order: Order :| ValidOrder(order) && Between(data, 0, |data|, Encode(ty, v, 0, order));
      assert data == Lower(ty, v, order);
    }
  }

  // ----- which types accept nothing else -----

  /** A Bool reader takes any non-zero byte for true, and a dictionary reader takes pairs in any
      order and repeated keys; nothing else accepts two spellings of a value. */
  predicate Canonical(ty: Ty)
    decreases ty, 0
  {
    match ty
    case TBool => false
    case TDict => false
    case TOpt(t) => Canonical(t)
    case TSeq(t) => Canonical(t)
    case TRecord(ts) => AllCanonical(ts)
    case TEnum(ts) => |ts| <= MAX_INT32 && AllCanonical(ts)
    case _ => true
  }

  predicate AllCanonical(ts: seq<Ty>)
    decreases ts, 0
  {
    forall i :: 0 <= i < |ts| ==> Canonical(ts[i])
  }

  lemma {:induction false} CanonicalIsCountable(ty: Ty)
    requires Canonical(ty)
    ensures CasesCountable(ty)
    decreases ty, 0
  {
    match ty
    case TOpt(t) => CanonicalIsCountable(t);
    case TSeq(t) => CanonicalIsCountable(t);
    case TRecord(ts) => CanonicalsAreCountable(ts);
    case TEnum(ts) => CanonicalsAreCountable(ts);
    case _ =>
  }

  lemma {:induction false} CanonicalsAreCountable(ts: seq<Ty>)
    requires AllCanonical(ts)
    ensures AllCountable(ts)
    decreases ts, 0
  {
    forall i | 0 <= i < |ts|
      ensures CasesCountable(ts[i])
    {
      CanonicalIsCountable(ts[i]);
    }
  }

  lemma {:induction false} CanonicalIsEach(ty: Ty, data: seq<byte>, off: nat, dict: nat -> bool)
    requires Canonical(ty)
    ensures Each(ty, data, off, dict)
    decreases ty, 0, 0
  {
    match ty
    case TOpt(t) =>
      var tag := ReadUInt(data, off, 1);
      if tag.Ok? {
        CanonicalIsEach(t, data, tag.value.1, dict);
      }
    case TSeq(t) =>
      var count := ReadCount(data, off);
      if count.Ok? {
        CanonicalIsEachElement(t, data, count.value.1, count.value.0, dict);
      }
    case TRecord(ts) => CanonicalIsEachField(ts, data, off, dict);
    case TEnum(ts) =>
      var tag := ReadInt32(data, off);
      if tag.Ok? && 1 <= tag.value.0 <= |ts| {
        CanonicalIsEach(ts[tag.value.0 - 1], data, tag.value.1, dict);
      }
    case _ =>
  }

  lemma {:induction false} CanonicalIsEachElement(t: Ty, data: seq<byte>, off: nat, n: nat, dict: nat -> bool)
    requires Canonical(t)
    ensures EachElement(t, data, off, n, dict)
    decreases t, 1, n
  {
    if n == 0 {
    } else {
      hide Decode;
      CanonicalIsEach(t, data, off, dict);
      var first := Decode(t, data, off);
      if first.Ok? {
        CanonicalIsEachElement(t, data, first.value.1, n - 1, dict);
      }
    }
  }

  lemma {:induction false} CanonicalIsEachField(ts: seq<Ty>, data: seq<byte>, off: nat, dict: nat -> bool)
    requires AllCanonical(ts)
    ensures EachField(ts, data, off, dict)
    decreases ts, 0, 0
  {
    if ts == [] {
    } else {
      hide Decode;
      CanonicalIsEach(ts[0], data, off, dict);
      var first := Decode(ts[0], data, off);
      if first.Ok? {
        CanonicalIsEachField(ts[1..], data, first.value.1, dict);
      }
    }
  }

  /** A buffer lifts to a value exactly when it is that value lowered. */
  lemma LiftIsInverseOfLower(ty: Ty, data: seq<byte>, v: Val, order: Order)
    requires CrossesEncoded(ty) && Canonical(ty) && ValidOrder(order)
    ensures Lift(ty, data) == Ok(v) <==> HasType(v, ty) && data == Lower(ty, v, order)
  {
    CanonicalIsCountable(ty);
    CanonicalIsEach(ty, data, 0, InOrder(data, order));
    hide Decode, Encode, HasType, Canonical, Each, CasesCountable;
    EncodeUndoesDecode(ty, data, 0, order);
    if HasType(v, ty) {
      LiftLower(ty, v, order, []);
      assert Lower(ty, v, order) + [] == Lower(ty, v, order);
    }
  }

  /** And so a buffer lifts to a value exactly when its bytes, from the first to the last, spell it. */
  lemma LiftedIsSpelled(ty: Ty, data: seq<byte>, v: Val, order: Order)
    requires CrossesEncoded(ty) && Canonical(ty) && ValidOrder(order)
    ensures Lift(ty, data) == Ok(v) <==> HasType(v, ty) && Spells(ty, v, data, 0, |data|)
  {
    hide Lift, Lower, HasType, Canonical, Spells;
    LiftIsInverseOfLower(ty, data, v, order);
    if HasType(v, ty) {
      BuffersAreSpelled(ty, v, order, data);
    }
  }

  /** A type that values can be made of: none of its enumerations is without cases, or has more
      than a tag can count. */
  predicate Inhabited(ty: Ty)
    decreases ty, 0
  {
    match ty
    case TOpt(t) => Inhabited(t)
    case TSeq(t) => Inhabited(t)
    case TRecord(ts) => AllInhabited(ts)
    case TEnum(ts) => 1 <= |ts| <= MAX_INT32 && AllInhabited(ts)
    case _ => true
  }

  predicate AllInhabited(ts: seq<Ty>)
    decreases ts, 0
  {
    forall i :: 0 <= i < |ts| ==> Inhabited(ts[i])
  }

  /** Wherever these bytes stand, they are read as the value. */
  ghost predicate ReadsAs(ty: Ty, bs: seq<byte>, v: Val) {
    forall data: seq<byte>, off: nat :: At(data, off, bs) ==> Decode(ty, data, off) == Ok((v, off + |bs|))
  }

  ghost predicate FieldsReadAs(ts: seq<Ty>, bs: seq<byte>, vs: seq<Val>) {
    forall data: seq<byte>, off: nat :: At(data, off, bs) ==> DecodeFields(ts, data, off) == Ok((vs, off + |bs|))
  }

  lemma {:induction false} Sampled(ty: Ty) returns (bs: seq<byte>, v: Val)
    requires Inhabited(ty)
    ensures ReadsAs(ty, bs, v)
    decreases ty, 0
  {
    match ty {
      case TUInt(w) => bs, v := SampledUInt(w);
      case TBool => bs, v := [0], VBool(false);
        forall data: seq<byte>, off: nat | At(data, off, bs) { ByteBack(data, off, 0); }
      case TString => bs, v := EncodeBytes([]), VString([]);
        forall data: seq<byte>, off: nat | At(data, off, bs) { BytesBack(data, off, []); }
      case TData => bs, v := EncodeBytes([]), VData([]);
        forall data: seq<byte>, off: nat | At(data, off, bs) { BytesBack(data, off, []); }
      case TOpt(t) => bs, v := [0], VNone;
        forall data: seq<byte>, off: nat | At(data, off, bs) { ByteBack(data, off, 0); }
      case TSeq(t) => bs, v := Int32Bytes(0), VSeq([]);
        forall data: seq<byte>, off: nat | At(data, off, bs) { CountBack(data, off, 0); }
      case TDict => bs, v := Int32Bytes(0), VDict(map[]);
        forall data: seq<byte>, off: nat | At(data, off, bs) { CountBack(data, off, 0); }
      case TRecord(ts) =>
        var vs: seq<Val>;
        bs, vs := SampledFields(ts);
        v := VRecord(vs);
      case TEnum(ts) =>
        var payload: seq<byte>, x: Val := Sampled(ts[0]);
        bs, v := CaseReads(ts, 0, payload, x);
    }
  }

  lemma {:induction false} PowPositive(w: nat)
    ensures Pow256(w) > 0
  {
    if w == 0 {
    } else {
      PowPositive(w - 1);
    }
  }

  lemma SampledUInt(w: nat) returns (bs: seq<byte>, v: Val)
    ensures ReadsAs(TUInt(w), bs, v)
  {
    PowPositive(w);
    bs, v := BigEndian(0, w), VUInt(0);
    forall data: seq<byte>, off: nat | At(data, off, bs)
      ensures Decode(TUInt(w), data, off) == Ok((v, off + |bs|))
    {
      UIntBack(data, off, 0, w);
    }
  }

  lemma {:induction false} SampledFields(ts: seq<Ty>) returns (bs: seq<byte>, vs: seq<Val>)
    requires AllInhabited(ts)
    ensures FieldsReadAs(ts, bs, vs)
    decreases ts, 0
  {
    if ts == [] {
      bs, vs := [], [];
    } else {
      var first, v := Sampled(ts[0]);
      var rest, others := SampledFields(ts[1..]);
      bs, vs := FieldReads(ts, first, v, rest, others);
    }
  }

  lemma FieldReads(ts: seq<Ty>, first: seq<byte>, v: Val, rest: seq<byte>, others: seq<Val>)
    returns (bs: seq<byte>, vs: seq<Val>)
    requires ts != [] && ReadsAs(ts[0], first, v) && FieldsReadAs(ts[1..], rest, others)
    ensures bs == first + rest && FieldsReadAs(ts, bs, vs)
  {
    bs, vs := first + rest, [v] + others;
    forall data: seq<byte>, off: nat | At(data, off, bs)
      ensures DecodeFields(ts, data, off) == Ok((vs, off + |bs|))
    {
      hide Decode, At;
      AtSplit(data, off, first, rest);
    }
  }

  lemma CaseReads(ts: seq<Ty>, i: nat, payload: seq<byte>, x: Val) returns (bs: seq<byte>, v: Val)
    requires i < |ts| <= MAX_INT32 && ReadsAs(ts[i], payload, x)
    ensures bs == Int32Bytes(i + 1) + payload && v == VEnum(i, x) && ReadsAs(TEnum(ts), bs, v)
  {
    bs, v := Int32Bytes(i + 1) + payload, VEnum(i, x);
    forall data: seq<byte>, off: nat | At(data, off, bs)
      ensures Decode(TEnum(ts), data, off) == Ok((v, off + |bs|))
    {
      hide At, ReadInt32;
      AtSplit(data, off, Int32Bytes(i + 1), payload);
      CountBack(data, off, i + 1);
    }
  }

  /** Wherever these bytes stand, they are read as the value, but no writer writes them. */
  ghost predicate Untidy(ty: Ty, bs: seq<byte>, v: Val) {
    && ReadsAs(ty, bs, v)
    && forall data: seq<byte>, off: nat :: At(data, off, bs) ==> !Each(ty, data, off, NoRepeats(data))
  }

  ghost predicate FieldsUntidy(ts: seq<Ty>, bs: seq<byte>, vs: seq<Val>) {
    && FieldsReadAs(ts, bs, vs)
    && forall data: seq<byte>, off: nat :: At(data, off, bs) ==> !EachField(ts, data, off, NoRepeats(data))
  }

  lemma TwoReadsAsTrue(data: seq<byte>, off: nat)
    requires At(data, off, [2])
    ensures Decode(TBool, data, off) == Ok((VBool(true), off + 1))
  {
    hide At;
    ByteBack(data, off, 2);
  }

  lemma TwoIsUntidy(data: seq<byte>, off: nat, dict: nat -> bool)
    requires At(data, off, [2])
    ensures !Each(TBool, data, off, dict)
  {
    assert data[off + 0] == [2][0];
  }

  lemma UntidyBool()
    ensures Untidy(TBool, [2], VBool(true))
  {
    hide At, Decode, Each;
    forall data: seq<byte>, off: nat | At(data, off, [2])
      ensures Decode(TBool, data, off) == Ok((VBool(true), off + 1)) && !Each(TBool, data, off, NoRepeats(data))
    {
      TwoReadsAsTrue(data, off);
      TwoIsUntidy(data, off, NoRepeats(data));
    }
  }

  lemma TwoPairsRead(data: seq<byte>, off: nat)
    requires At(data, off, Int32Bytes(2) + (EncodeBytes([]) + EncodeBytes([])) + (EncodeBytes([]) + EncodeBytes([])))
    ensures Decode(TDict, data, off) == Ok((VDict(map[[] := []]), off + 20)) && KeysAt(data, off) == [[], []]
  {
    hide ReadString, EncodeBytes, At, BigEndian, KeysRead;
    var e: seq<byte> := [];
    var pair := EncodeBytes(e) + EncodeBytes(e);
    TwiceIsLonger(e);
    AtSplit(data, off, Int32Bytes(2) + pair, pair);
    AtSplit(data, off, Int32Bytes(2), pair);
    CountBack(data, off, 2);
    PairBack(data, off + 4, e, e, 2, map[]);
    PairBack(data, off + 12, e, e, 1, map[e := e]);
    assert map[e := e][e := e] == map[e := e];
    TwoKeysRead(data, off + 4);
  }

  lemma TwoKeysRead(data: seq<byte>, off: nat)
    requires At(data, off, EncodeBytes([]) + EncodeBytes([])) && At(data, off + 8, EncodeBytes([]) + EncodeBytes([]))
    ensures KeysRead(data, off, 2) == [[], []]
  {
    hide ReadString, EncodeBytes, At, BigEndian;
    var e: seq<byte> := [];
    TwiceIsLonger(e);
    AtSplit(data, off, EncodeBytes(e), EncodeBytes(e));
    AtSplit(data, off + 8, EncodeBytes(e), EncodeBytes(e));
    BytesBack(data, off, e);
    BytesBack(data, off + 4, e);
    BytesBack(data, off + 8, e);
    BytesBack(data, off + 12, e);
    assert KeysRead(data, off + 16, 0) == [];
    assert KeysRead(data, off + 8, 1) == [e];
  }

  lemma UntidyDict() returns (bs: seq<byte>, v: Val)
    ensures Untidy(TDict, bs, v)
  {
    hide Decode, EncodeBytes, KeysAt, BigEndian, At;
    bs := Int32Bytes(2) + (EncodeBytes([]) + EncodeBytes([])) + (EncodeBytes([]) + EncodeBytes([]));
    v := VDict(map[[] := []]);
    TwiceIsLonger([]);
    assert |bs| == 20;
    forall data: seq<byte>, off: nat | At(data, off, bs)
      ensures Decode(TDict, data, off) == Ok((v, off + |bs|)) && !NoRepeats(data)(off)
    {
      TwoPairsRead(data, off);
      var keys := KeysAt(data, off);
      assert keys[0] == keys[1];
    }
  }

  /** A type that is not canonical has a value with a second spelling. */
  lemma {:induction false} UntidyValue(ty: Ty) returns (bs: seq<byte>, v: Val)
    requires Inhabited(ty) && !Canonical(ty)
    ensures Untidy(ty, bs, v)
    decreases ty, 0
  {
    match ty {
      case TBool =>
        UntidyBool();
        bs, v := [2], VBool(true);
      case TDict => bs, v := UntidyDict();
      case TOpt(t) =>
        var inner, x := UntidyValue(t);
        bs, v := UntidySome(t, inner, x);
      case TSeq(t) =>
        var inner, x := UntidyValue(t);
        bs, v := UntidyElement(t, inner, x);
      case TRecord(ts) =>
        var vs: seq<Val>;
        bs, vs := UntidyFields(ts);
        v := VRecord(vs);
      case TEnum(ts) =>
        var i :| 0 <= i < |ts| && !Canonical(ts[i]);
        var payload, x := UntidyValue(ts[i]);
        bs, v := UntidyCase(ts, i, payload, x);
    }
  }

  lemma SomeUntidy(t: Ty, inner: seq<byte>, x: Val, data: seq<byte>, off: nat)
    requires Untidy(t, inner, x) && At(data, off, [1] + inner)
    ensures Decode(TOpt(t), data, off) == Ok((VSome(x), off + 1 + |inner|))
    ensures !Each(TOpt(t), data, off, NoRepeats(data))
  {
    hide At, ReadUInt, NoRepeats, Decode;
    AtSplit(data, off, [1], inner);
    ByteBack(data, off, 1);
    OptBack(t, x, data, off, inner);
  }

  lemma UntidySome(t: Ty, inner: seq<byte>, x: Val) returns (bs: seq<byte>, v: Val)
    requires Untidy(t, inner, x)
    ensures Untidy(TOpt(t), bs, v)
  {
    hide Decode, Each, At, NoRepeats;
    bs, v := [1] + inner, VSome(x);
    forall data: seq<byte>, off: nat | At(data, off, bs)
      ensures Decode(TOpt(t), data, off) == Ok((v, off + |bs|)) && !Each(TOpt(t), data, off, NoRepeats(data))
    {
      SomeUntidy(t, inner, x, data, off);
    }
  }

  lemma ElementUntidy(t: Ty, inner: seq<byte>, x: Val, data: seq<byte>, off: nat)
    requires Untidy(t, inner, x) && At(data, off, Int32Bytes(1) + inner)
    ensures Decode(TSeq(t), data, off) == Ok((VSeq([x]), off + 4 + |inner|))
    ensures !Each(TSeq(t), data, off, NoRepeats(data))
  {
    hide At, NoRepeats, Decode, Each, BigEndian, EachElement;
    AtSplit(data, off, Int32Bytes(1), inner);
    CountBack(data, off, 1);
    OneElement(t, x, data, off + 4, off + 4 + |inner|);
    SeqBack(t, [x], data, off, inner);
    if Each(TSeq(t), data, off, NoRepeats(data)) {
      EachSeq(t, data, off, 1, NoRepeats(data));
    }
  }

  lemma EachSeq(t: Ty, data: seq<byte>, off: nat, n: nat, dict: nat -> bool)
    requires ReadCount(data, off) == Ok((n, off + 4)) && Each(TSeq(t), data, off, dict)
    ensures EachElement(t, data, off + 4, n, dict)
  {
    hide ReadCount;
  }

  lemma UntidyElement(t: Ty, inner: seq<byte>, x: Val) returns (bs: seq<byte>, v: Val)
    requires Untidy(t, inner, x)
    ensures Untidy(TSeq(t), bs, v)
  {
    hide Decode, Each, At, NoRepeats;
    bs, v := Int32Bytes(1) + inner, VSeq([x]);
    forall data: seq<byte>, off: nat | At(data, off, bs)
      ensures Decode(TSeq(t), data, off) == Ok((v, off + |bs|)) && !Each(TSeq(t), data, off, NoRepeats(data))
    {
      ElementUntidy(t, inner, x, data, off);
    }
  }

  lemma OneElement(t: Ty, x: Val, data: seq<byte>, off: nat, end: nat)
    requires Decode(t, data, off) == Ok((x, end))
    ensures DecodeAll(t, data, off, 1) == Ok(([x], end))
    ensures EachElement(t, data, off, 1, NoRepeats(data)) ==> Each(t, data, off, NoRepeats(data))
  {
    hide Decode, Each;
    assert DecodeAll(t, data, end, 0) == Ok(([], end)) && [x] + [] == [x];
  }

  lemma UntidyCase(ts: seq<Ty>, i: nat, payload: seq<byte>, x: Val) returns (bs: seq<byte>, v: Val)
    requires i < |ts| <= MAX_INT32 && Untidy(ts[i], payload, x)
    ensures Untidy(TEnum(ts), bs, v)
  {
    bs, v := CaseReads(ts, i, payload, x);
    forall data: seq<byte>, off: nat | At(data, off, bs)
      ensures !Each(TEnum(ts), data, off, NoRepeats(data))
    {
      hide At, ReadInt32;
      AtSplit(data, off, Int32Bytes(i + 1), payload);
      CountBack(data, off, i + 1);
    }
  }

  lemma {:induction false} UntidyFields(ts: seq<Ty>) returns (bs: seq<byte>, vs: seq<Val>)
    requires AllInhabited(ts) && !AllCanonical(ts)
    ensures FieldsUntidy(ts, bs, vs)
    decreases ts, 0
  {
    if Canonical(ts[0]) {
      var first, v := Sampled(ts[0]);
      assert !AllCanonical(ts[1..]) by {
        var i :| 0 <= i < |ts| && !Canonical(ts[i]);
        assert ts[1..][i - 1] == ts[i];
      }
      var rest, others := UntidyFields(ts[1..]);
      bs, vs := FieldReads(ts, first, v, rest, others);
      forall data: seq<byte>, off: nat | At(data, off, bs)
        ensures !EachField(ts, data, off, NoRepeats(data))
      {
        hide At, Decode;
        AtSplit(data, off, first, rest);
      }
    } else {
      var first, v := UntidyValue(ts[0]);
      var rest, others := SampledFields(ts[1..]);
      bs, vs := FieldReads(ts, first, v, rest, others);
      forall data: seq<byte>, off: nat | At(data, off, bs)
        ensures !EachField(ts, data, off, NoRepeats(data))
      {
        hide At, Decode;
        AtSplit(data, off, first, rest);
      }
    }
  }

  /** For a type that is not canonical some buffer lifts to a value that no writer writes as it. */
  lemma AnotherSpelling(ty: Ty) returns (data: seq<byte>, v: Val)
    requires CrossesEncoded(ty) && Inhabited(ty) && !Canonical(ty)
    ensures Lift(ty, data) == Ok(v) && HasType(v, ty)
    ensures forall order :: ValidOrder(order) ==> data != Lower(ty, v, order)
  {
    data, v := UntidyValue(ty);
    assert At(data, 0, data);
    InhabitedIsCountable(ty);
    hide Decode, Each, CasesCountable, Encode, HasType;
    LiftedIsLowered(ty, data);
  }

  lemma {:induction false} InhabitedIsCountable(ty: Ty)
    requires Inhabited(ty)
    ensures CasesCountable(ty)
    decreases ty, 0
  {
    match ty
    case TOpt(t) => InhabitedIsCountable(t);
    case TSeq(t) => InhabitedIsCountable(t);
    case TRecord(ts) => AllInhabitedAreCountable(ts);
    case TEnum(ts) => AllInhabitedAreCountable(ts);
    case _ =>
  }

  lemma {:induction false} AllInhabitedAreCountable(ts: seq<Ty>)
    requires AllInhabited(ts)
    ensures AllCountable(ts)
    decreases ts, 0
  {
    forall i | 0 <= i < |ts|
      ensures CasesCountable(ts[i])
    {
      InhabitedIsCountable(ts[i]);
    }
  }

  /** Every accepted buffer is its value lowered. */
  ghost predicate OneSpelling(ty: Ty)
    requires CrossesEncoded(ty)
  {
    forall data: seq<byte>, v: Val, order: Order ::
      ValidOrder(order) && Lift(ty, data) == Ok(v) ==> HasType(v, ty) && data == Lower(ty, v, order)
  }

  /** Values of a type have one spelling exactly when no boolean and no dictionary is in it. */
  lemma OneSpellingIsCanonical(ty: Ty)
    requires CrossesEncoded(ty) && Inhabited(ty)
    ensures OneSpelling(ty) <==> Canonical(ty)
  {
    hide Lift, Inhabited, HasType, Lower;
    if Canonical(ty) {
      forall data: seq<byte>, v: Val, order: Order | ValidOrder(order) && Lift(ty, data) == Ok(v)
        ensures HasType(v, ty) && data == Lower(ty, v, order)
      {
        LiftIsInverseOfLower(ty, data, v, order);
      }
    } else {
      var data, v := AnotherSpelling(ty);
      assert ValidOrder(OrderOf(data));
    }
  }

  // ----- the two readers that accept more than is ever written -----

  /** Any byte but 0 is read as true, and only 1 is written for it. */
  lemma BoolAcceptsMore(b: byte, order: Order)
    requires ValidOrder(order)
    ensures Lift(TOpt(TBool), [1, b]) == Ok(VSome(VBool(b != 0)))
    ensures [1, b] == Lower(TOpt(TBool), VSome(VBool(b != 0)), order) <==> b <= 1
  {
    var data := [1, b];
    ByteBack(data, 0, 1);
    ByteBack(data, 1, b);
    assert Lower(TOpt(TBool), VSome(VBool(b != 0)), order) == [1] + [if b != 0 then 1 else 0];
  }

  /** Twice the same pair is read as one. */
  lemma DictionaryAcceptsMore(key: seq<byte>, value: seq<byte>, order: Order)
    requires IsString(key) && IsString(value) && ValidOrder(order)
    ensures var pair := EncodeBytes(key) + EncodeBytes(value);
      Lift(TDict, Int32Bytes(2) + pair + pair) == Ok(VDict(map[key := value]))
    ensures var pair := EncodeBytes(key) + EncodeBytes(value);
      HasType(VDict(map[key := value]), TDict)
      && Lower(TDict, VDict(map[key := value]), order) != Int32Bytes(2) + pair + pair
  {
    hide ReadString, EncodeBytes, ValidUtf8, BigEndian;
    var pair := EncodeBytes(key) + EncodeBytes(value);
    var m := map[key := value];
    var data := Int32Bytes(2) + pair + pair;
    CountBack(data, 0, 2);
    assert At(data, 4, pair) && At(data, 4 + |pair|, pair);
    PairBack(data, 4, key, value, 2, map[]);
    PairBack(data, 4 + |pair|, key, value, 1, m);
    assert m[key := value] == m;
    OnePairWritten(key, value, order);
    TwiceIsLonger(key);
  }

  lemma TwiceIsLonger(s: seq<byte>)
    ensures |EncodeBytes(s)| == 4 + |s|
  {
  }

  lemma OnePairWritten(key: seq<byte>, value: seq<byte>, order: Order)
    requires IsString(key) && IsString(value) && ValidOrder(order)
    ensures HasType(VDict(map[key := value]), TDict)
    ensures Lower(TDict, VDict(map[key := value]), order) == Int32Bytes(1) + (EncodeBytes(key) + EncodeBytes(value))
  {
    hide EncodeBytes, ValidUtf8;
    var m := map[key := value];
    var keys := order(0, m);
    assert Enumerates(keys, m) && |m| == 1;
    assert keys == [key];
    assert EncodePairs(m, keys) == EncodeBytes(key) + EncodeBytes(value) + EncodePairs(m, keys[1..]);
  }
}

