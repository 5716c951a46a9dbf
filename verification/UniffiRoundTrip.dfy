/** Reading undoes writing, for every type: in place, with nothing less and with nothing more. */
module UniffiRoundTrip {
  import opened Common
  import opened UniffiCodec

  // ----- bytes in place -----

  /** The bytes stand in the buffer at this offset. */
  predicate At(data: seq<byte>, off: nat, bs: seq<byte>) {
    off + |bs| <= |data| && forall i :: 0 <= i < |bs| ==> data[off + i] == bs[i]
  }

  /** The buffer ends inside the bytes that start at this offset. */
  predicate Cut(data: seq<byte>, off: nat, bs: seq<byte>) {
    off <= |data| < off + |bs| && forall i :: 0 <= i < |data| - off ==> data[off + i] == bs[i]
  }

  lemma AtSplit(data: seq<byte>, off: nat, a: seq<byte>, b: seq<byte>)
    requires At(data, off, a + b)
    ensures At(data, off, a) && At(data, off + |a|, b)
  {
    forall i | 0 <= i < |a|
      ensures data[off + i] == a[i]
    {
      assert (a + b)[i] == a[i];
    }
    forall i | 0 <= i < |b|
      ensures data[off + |a| + i] == b[i]
    {
      assert (a + b)[|a| + i] == b[i];
    }
  }

  lemma CutSplit(data: seq<byte>, off: nat, a: seq<byte>, b: seq<byte>)
    requires Cut(data, off, a + b)
    ensures Cut(data, off, a) || (At(data, off, a) && Cut(data, off + |a|, b))
  {
    forall i | 0 <= i < |a| && off + i < |data|
      ensures data[off + i] == a[i]
    {
      assert (a + b)[i] == a[i];
    }
    forall i | 0 <= i < |b| && off + |a| + i < |data|
      ensures data[off + |a| + i] == b[i]
    {
      assert (a + b)[|a| + i] == b[i];
    }
  }

  lemma AtSlice(data: seq<byte>, off: nat, bs: seq<byte>)
    requires At(data, off, bs)
    ensures data[off..off + |bs|] == bs
  {
  }

  // ----- integers -----

  lemma {:induction false} BigEndianBack(n: nat, w: nat)
    requires n < Pow256(w)
    ensures FromBigEndian(BigEndian(n, w)) == n
  {
    if w == 0 {
    } else {
      BigEndianBack(n / 256, w - 1);
      var bs := BigEndian(n, w);
      assert bs[..|bs| - 1] == BigEndian(n / 256, w - 1);
    }
  }

  lemma Int32Fits(n: nat)
    requires n <= MAX_INT32
    ensures n < Pow256(INT32_SIZE)
  {
  }

  lemma UIntBack(data: seq<byte>, off: nat, n: nat, w: nat)
    requires n < Pow256(w) && At(data, off, BigEndian(n, w))
    ensures ReadUInt(data, off, w) == Ok((n, off + w))
  {
    BigEndianBack(n, w);
    AtSlice(data, off, BigEndian(n, w));
  }

  lemma CountBack(data: seq<byte>, off: nat, n: nat)
    requires n <= MAX_INT32 && At(data, off, Int32Bytes(n))
    ensures ReadInt32(data, off) == Ok((n, off + 4)) && ReadCount(data, off) == Ok((n, off + 4))
  {
    Int32Fits(n);
    UIntBack(data, off, n, INT32_SIZE);
  }

  lemma UIntCut(data: seq<byte>, off: nat, n: nat, w: nat)
    requires Cut(data, off, BigEndian(n, w))
    ensures ReadUInt(data, off, w) == Err(BufferOverflow)
  {
  }

  // ----- strings and dictionaries -----

  lemma BytesBack(data: seq<byte>, off: nat, s: seq<byte>)
    requires |s| <= MAX_INT32 && At(data, off, EncodeBytes(s))
    ensures ReadBytes(data, off) == Ok((s, off + |EncodeBytes(s)|))
    ensures ValidUtf8(s) ==> ReadString(data, off) == Ok((s, off + |EncodeBytes(s)|))
  {
    AtSplit(data, off, Int32Bytes(|s|), s);
    CountBack(data, off, |s|);
    AtSlice(data, off + 4, s);
  }

  lemma BytesCut(data: seq<byte>, off: nat, s: seq<byte>)
    requires |s| <= MAX_INT32 && Cut(data, off, EncodeBytes(s))
    ensures ReadBytes(data, off) == Err(BufferOverflow) && ReadString(data, off) == Err(BufferOverflow)
  {
    CutSplit(data, off, Int32Bytes(|s|), s);
    if !Cut(data, off, Int32Bytes(|s|)) {
      CountBack(data, off, |s|);
    }
  }

  ghost function Assign(dict: Dict, m: Dict, keys: seq<seq<byte>>): Dict
    requires forall i :: 0 <= i < |keys| ==> keys[i] in m
    decreases |keys|
  {
    if keys == [] then dict else Assign(dict[keys[0] := m[keys[0]]], m, keys[1..])
  }

  lemma {:induction false} AssignedAll(dict: Dict, m: Dict, keys: seq<seq<byte>>)
    requires forall i :: 0 <= i < |keys| ==> keys[i] in m
    ensures forall k :: k in Assign(dict, m, keys) <==> k in dict || k in keys
    ensures forall k :: k in Assign(dict, m, keys) ==>
      Assign(dict, m, keys)[k] == if k in keys then m[k] else dict[k]
    decreases |keys|
  {
    if keys == [] {
    } else {
      AssignedAll(dict[keys[0] := m[keys[0]]], m, keys[1..]);
      assert keys == [keys[0]] + keys[1..];
    }
  }

  lemma AssignedWhole(m: Dict, keys: seq<seq<byte>>)
    requires Enumerates(keys, m)
    ensures Assign(map[], m, keys) == m
  {
    AssignedAll(map[], m, keys);
  }

  lemma PairBack(data: seq<byte>, off: nat, key: seq<byte>, value: seq<byte>, n: nat, dict: Dict)
    requires IsString(key) && IsString(value) && n > 0
    requires At(data, off, EncodeBytes(key) + EncodeBytes(value))
    ensures ReadPairs(data, off, n, dict)
         == ReadPairs(data, off + |EncodeBytes(key) + EncodeBytes(value)|, n - 1, dict[key := value])
  {
    hide ReadString;
    AtSplit(data, off, EncodeBytes(key), EncodeBytes(value));
    BytesBack(data, off, key);
    BytesBack(data, off + |EncodeBytes(key)|, value);
  }

  ghost predicate StringPairs(m: Dict, keys: seq<seq<byte>>) {
    forall i :: 0 <= i < |keys| ==> keys[i] in m && IsString(keys[i]) && IsString(m[keys[i]])
  }

  lemma {:induction false} PairsBack(data: seq<byte>, off: nat, m: Dict, keys: seq<seq<byte>>, dict: Dict)
    requires StringPairs(m, keys) && At(data, off, EncodePairs(m, keys))
    ensures ReadPairs(data, off, |keys|, dict) == Ok((Assign(dict, m, keys), off + |EncodePairs(m, keys)|))
    decreases |keys|
  {
    hide ReadString;
    if keys != [] {
      var key, value := keys[0], m[keys[0]];
      var pair, rest := EncodeBytes(key) + EncodeBytes(value), EncodePairs(m, keys[1..]);
      AtSplit(data, off, pair, rest);
      PairBack(data, off, key, value, |keys|, dict);
      PairsBack(data, off + |pair|, m, keys[1..], dict[key := value]);
      assert EncodePairs(m, keys) == pair + rest;
      assert Assign(dict, m, keys) == Assign(dict[key := value], m, keys[1..]);
    } else {
      assert EncodePairs(m, keys) == [] && Assign(dict, m, keys) == dict;
    }
  }

  lemma PairCut(data: seq<byte>, off: nat, key: seq<byte>, value: seq<byte>, n: nat, dict: Dict)
    requires IsString(key) && IsString(value) && n > 0
    requires Cut(data, off, EncodeBytes(key) + EncodeBytes(value))
    ensures ReadPairs(data, off, n, dict) == Err(BufferOverflow)
  {
    hide ReadString;
    CutSplit(data, off, EncodeBytes(key), EncodeBytes(value));
    if Cut(data, off, EncodeBytes(key)) {
      BytesCut(data, off, key);
    } else {
      BytesBack(data, off, key);
      BytesCut(data, off + |EncodeBytes(key)|, value);
    }
  }

  lemma {:induction false} PairsCut(data: seq<byte>, off: nat, m: Dict, keys: seq<seq<byte>>, dict: Dict)
    requires StringPairs(m, keys) && Cut(data, off, EncodePairs(m, keys))
    ensures ReadPairs(data, off, |keys|, dict) == Err(BufferOverflow)
    decreases |keys|
  {
    hide ReadString;
    var key, value := keys[0], m[keys[0]];
    var pair, rest := EncodeBytes(key) + EncodeBytes(value), EncodePairs(m, keys[1..]);
    CutSplit(data, off, pair, rest);
    if Cut(data, off, pair) {
      PairCut(data, off, key, value, |keys|, dict);
    } else {
      PairBack(data, off, key, value, |keys|, dict);
      PairsCut(data, off + |pair|, m, keys[1..], dict[key := value]);
    }
  }

  lemma DictBack(data: seq<byte>, off: nat, m: Dict, keys: seq<seq<byte>>)
    requires Enumerates(keys, m) && StringPairs(m, keys) && |m| <= MAX_INT32
    requires At(data, off, Int32Bytes(|m|) + EncodePairs(m, keys))
    ensures Decode(TDict, data, off) == Ok((VDict(m), off + 4 + |EncodePairs(m, keys)|))
  {
    hide ReadPairs;
    AtSplit(data, off, Int32Bytes(|m|), EncodePairs(m, keys));
    CountBack(data, off, |m|);
    PairsBack(data, off + 4, m, keys, map[]);
    AssignedWhole(m, keys);
    assert ReadPairs(data, off + 4, |m|, map[]) == Ok((m, off + 4 + |EncodePairs(m, keys)|));
  }

  lemma DictCut(data: seq<byte>, off: nat, m: Dict, keys: seq<seq<byte>>)
    requires Enumerates(keys, m) && StringPairs(m, keys) && |m| <= MAX_INT32
    requires Cut(data, off, Int32Bytes(|m|) + EncodePairs(m, keys))
    ensures Decode(TDict, data, off) == Err(BufferOverflow)
  {
    hide ReadPairs;
    CutSplit(data, off, Int32Bytes(|m|), EncodePairs(m, keys));
    if !Cut(data, off, Int32Bytes(|m|)) {
      CountBack(data, off, |m|);
      PairsCut(data, off + 4, m, keys, map[]);
    }
  }

  // ----- every type -----

  predicate IsLeaf(ty: Ty) { ty.TUInt? || ty.TBool? || ty.TString? || ty.TData? || ty.TDict? }

  lemma LeafBack(ty: Ty, v: Val, data: seq<byte>, off: nat, order: Order)
    requires IsLeaf(ty) && HasType(v, ty) && ValidOrder(order) && At(data, off, Encode(ty, v, off, order))
    ensures Decode(ty, data, off) == Ok((v, off + |Encode(ty, v, off, order)|))
  {
    hide FromBigEndian, ValidUtf8, BigEndian, ReadUInt, ReadString, ReadCount, ReadPairs, Pow256, At;
    match ty
    case TUInt(w) => UIntBack(data, off, v.n, w);
    case TBool => ByteBack(data, off, if v.b then 1 else 0);
    case TString => BytesBack(data, off, v.utf8);
    case TData => BytesBack(data, off, v.bytes);
    case TDict =>
      assert Enumerates(order(off, v.entries), v.entries);
      DictBack(data, off, v.entries, order(off, v.entries));
  }

  lemma ByteBack(data: seq<byte>, off: nat, b: byte)
    requires At(data, off, [b])
    ensures ReadUInt(data, off, 1) == Ok((b, off + 1))
  {
    AtSlice(data, off, [b]);
    assert [b][..0] == [];
    assert FromBigEndian([b]) == FromBigEndian([]) * 256 + b;
  }

  /** An option, sequence or enumeration is its tag or count and then its content. */
  lemma OptBack(t: Ty, x: Val, data: seq<byte>, off: nat, bs: seq<byte>)
    requires At(data, off, [1] + bs)
    requires Decode(t, data, off + 1) == Ok((x, off + 1 + |bs|))
    ensures Decode(TOpt(t), data, off) == Ok((VSome(x), off + 1 + |bs|))
  {
    AtSplit(data, off, [1], bs);
    ByteBack(data, off, 1);
  }

  lemma SeqBack(t: Ty, vs: seq<Val>, data: seq<byte>, off: nat, bs: seq<byte>)
    requires |vs| <= MAX_INT32 && At(data, off, Int32Bytes(|vs|) + bs)
    requires DecodeAll(t, data, off + 4, |vs|) == Ok((vs, off + 4 + |bs|))
    ensures Decode(TSeq(t), data, off) == Ok((VSeq(vs), off + 4 + |bs|))
  {
    AtSplit(data, off, Int32Bytes(|vs|), bs);
    CountBack(data, off, |vs|);
  }

  lemma EnumBack(ts: seq<Ty>, i: nat, x: Val, data: seq<byte>, off: nat, bs: seq<byte>)
    requires i < |ts| <= MAX_INT32 && At(data, off, Int32Bytes(i + 1) + bs)
    requires Decode(ts[i], data, off + 4) == Ok((x, off + 4 + |bs|))
    ensures Decode(TEnum(ts), data, off) == Ok((VEnum(i, x), off + 4 + |bs|))
  {
    AtSplit(data, off, Int32Bytes(i + 1), bs);
    CountBack(data, off, i + 1);
  }

  /** Wherever the encoding of a value stands in a buffer, whatever surrounds it and whatever
      order dictionaries were written in, reading there gives the value and stops at its end. */
  lemma {:induction false} RoundTrip(ty: Ty, v: Val, data: seq<byte>, off: nat, order: Order)
    requires HasType(v, ty) && ValidOrder(order) && At(data, off, Encode(ty, v, off, order))
    ensures Decode(ty, data, off) == Ok((v, off + |Encode(ty, v, off, order)|))
    decreases ty, 2, 0
  {
    match ty
    case TOpt(t) => RoundTripOpt(t, v, data, off, order);
    case TSeq(t) => RoundTripSeq(t, v, data, off, order);
    case TRecord(ts) => RoundTripFields(ts, v.fields, data, off, order);
    case TEnum(ts) => RoundTripEnum(ts, v, data, off, order);
    case _ => LeafBack(ty, v, data, off, order);
  }

  // ----- one level of an encoding -----

  lemma OptEncoded(t: Ty, v: Val, off: nat, order: Order)
    requires HasType(v, TOpt(t)) && ValidOrder(order)
    ensures v == VNone || (v.VSome? && HasType(v.v, t))
    ensures Encode(TOpt(t), v, off, order) == if v.VNone? then [0] else [1] + Encode(t, v.v, off + 1, order)
  {
  }

  lemma SeqEncoded(t: Ty, v: Val, off: nat, order: Order)
    requires HasType(v, TSeq(t)) && ValidOrder(order)
    ensures v.VSeq? && |v.elements| <= MAX_INT32 && AllHaveType(v.elements, t)
    ensures Encode(TSeq(t), v, off, order) == Int32Bytes(|v.elements|) + EncodeAll(t, v.elements, off + 4, order)
  {
  }

  lemma EnumEncoded(ts: seq<Ty>, v: Val, off: nat, order: Order)
    requires HasType(v, TEnum(ts)) && ValidOrder(order)
    ensures v.VEnum? && v.variant < |ts| <= MAX_INT32 && HasType(v.payload, ts[v.variant])
    ensures Encode(TEnum(ts), v, off, order)
         == Int32Bytes(v.variant + 1) + Encode(ts[v.variant], v.payload, off + 4, order)
  {
  }

  lemma NoneBack(t: Ty, data: seq<byte>, off: nat)
    requires At(data, off, [0])
    ensures Decode(TOpt(t), data, off) == Ok((VNone, off + 1))
  {
    hide At;
    ByteBack(data, off, 0);
  }

  lemma DecodeAllStep(t: Ty, data: seq<byte>, off: nat, n: nat)
    requires n > 0
    ensures var first := Decode(t, data, off);
      if first.Err? then DecodeAll(t, data, off, n) == Err(first.error)
      else
        var rest := DecodeAll(t, data, first.value.1, n - 1);
        if rest.Err? then DecodeAll(t, data, off, n) == Err(rest.error)
        else DecodeAll(t, data, off, n) == Ok(([first.value.0] + rest.value.0, rest.value.1))
  {
    hide Decode;
  }

  lemma {:induction false} RoundTripOpt(t: Ty, v: Val, data: seq<byte>, off: nat, order: Order)
    requires HasType(v, TOpt(t)) && ValidOrder(order) && At(data, off, Encode(TOpt(t), v, off, order))
    ensures Decode(TOpt(t), data, off) == Ok((v, off + |Encode(TOpt(t), v, off, order)|))
    decreases TOpt(t), 1, 0
  {
    hide At, Encode, Decode, HasType;
    OptEncoded(t, v, off, order);
    if v.VNone? {
      NoneBack(t, data, off);
    } else {
      var bs := Encode(t, v.v, off + 1, order);
      AtSplit(data, off, [1], bs);
      RoundTrip(t, v.v, data, off + 1, order);
      OptBack(t, v.v, data, off, bs);
    }
  }

  lemma {:induction false} RoundTripSeq(t: Ty, v: Val, data: seq<byte>, off: nat, order: Order)
    requires HasType(v, TSeq(t)) && ValidOrder(order) && At(data, off, Encode(TSeq(t), v, off, order))
    ensures Decode(TSeq(t), data, off) == Ok((v, off + |Encode(TSeq(t), v, off, order)|))
    decreases TSeq(t), 1, 0
  {
    hide At, Encode, EncodeAll, Decode, HasType, AllHaveType, BigEndian;
    SeqEncoded(t, v, off, order);
    var bs := EncodeAll(t, v.elements, off + 4, order);
    AtSplit(data, off, Int32Bytes(|v.elements|), bs);
    RoundTripAll(t, v.elements, data, off + 4, order);
    SeqBack(t, v.elements, data, off, bs);
  }

  lemma {:induction false} RoundTripEnum(ts: seq<Ty>, v: Val, data: seq<byte>, off: nat, order: Order)
    requires HasType(v, TEnum(ts)) && ValidOrder(order) && At(data, off, Encode(TEnum(ts), v, off, order))
    ensures Decode(TEnum(ts), data, off) == Ok((v, off + |Encode(TEnum(ts), v, off, order)|))
    decreases TEnum(ts), 1, 0
  {
    hide At, Encode, Decode, HasType, BigEndian;
    EnumEncoded(ts, v, off, order);
    var bs := Encode(ts[v.variant], v.payload, off + 4, order);
    AtSplit(data, off, Int32Bytes(v.variant + 1), bs);
    RoundTrip(ts[v.variant], v.payload, data, off + 4, order);
    EnumBack(ts, v.variant, v.payload, data, off, bs);
  }

  lemma {:induction false} RoundTripAll(t: Ty, vs: seq<Val>, data: seq<byte>, off: nat, order: Order)
    requires AllHaveType(vs, t) && ValidOrder(order) && At(data, off, EncodeAll(t, vs, off, order))
    ensures DecodeAll(t, data, off, |vs|) == Ok((vs, off + |EncodeAll(t, vs, off, order)|))
    decreases t, 3, |vs|
  {
    hide Encode, Decode, DecodeAll;
    if vs == [] {
      ElementsNone(t, data, off);
    } else {
      var first := Encode(t, vs[0], off, order);
      var rest := EncodeAll(t, vs[1..], off + |first|, order);
      AtSplit(data, off, first, rest);
      RoundTrip(t, vs[0], data, off, order);
      RoundTripAll(t, vs[1..], data, off + |first|, order);
      ElementsBack(t, vs[0], vs[1..], data, off, |first|, |rest|);
      assert vs == [vs[0]] + vs[1..];
    }
  }

  lemma ElementsNone(t: Ty, data: seq<byte>, off: nat)
    ensures DecodeAll(t, data, off, 0) == Ok(([], off))
  {
  }

  lemma ElementsBack(t: Ty, v: Val, vs: seq<Val>, data: seq<byte>, off: nat, first: nat, rest: nat)
    requires Decode(t, data, off) == Ok((v, off + first))
    requires DecodeAll(t, data, off + first, |vs|) == Ok((vs, off + first + rest))
    ensures DecodeAll(t, data, off, 1 + |vs|) == Ok(([v] + vs, off + first + rest))
  {
  }

  lemma {:induction false} RoundTripFields(ts: seq<Ty>, vs: seq<Val>, data: seq<byte>, off: nat, order: Order)
    requires FieldsHaveType(vs, ts) && ValidOrder(order) && At(data, off, EncodeFields(ts, vs, off, order))
    ensures DecodeFields(ts, data, off) == Ok((vs, off + |EncodeFields(ts, vs, off, order)|))
    decreases ts, 0, 0
  {
    hide Encode, Decode, HasType, At;
    if ts == [] {
    } else {
      var first := Encode(ts[0], vs[0], off, order);
      AtSplit(data, off, first, EncodeFields(ts[1..], vs[1..], off + |first|, order));
      RoundTrip(ts[0], vs[0], data, off, order);
      RoundTripFields(ts[1..], vs[1..], data, off + |first|, order);
      assert vs == [vs[0]] + vs[1..];
    }
  }

  /** A buffer that ends inside an encoding never reads as a value: it overflows, whichever byte
      it ends at. */
  lemma {:induction false} Truncated(ty: Ty, v: Val, data: seq<byte>, off: nat, order: Order)
    requires HasType(v, ty) && ValidOrder(order) && Cut(data, off, Encode(ty, v, off, order))
    ensures Decode(ty, data, off) == Err(BufferOverflow)
    decreases ty, 0, 0
  {
    match ty
    case TUInt(w) => UIntCut(data, off, v.n, w);
    case TBool =>
    case TString => BytesCut(data, off, v.utf8);
    case TData => BytesCut(data, off, v.bytes);
    case TOpt(t) =>
      if v.VSome? {
        CutSplit(data, off, [1], Encode(t, v.v, off + 1, order));
        if !Cut(data, off, [1]) {
          ByteBack(data, off, 1);
          Truncated(t, v.v, data, off + 1, order);
        }
      }
    case TSeq(t) =>
      var count := Int32Bytes(|v.elements|);
      CutSplit(data, off, count, EncodeAll(t, v.elements, off + 4, order));
      if !Cut(data, off, count) {
        CountBack(data, off, |v.elements|);
        TruncatedAll(t, v.elements, data, off + 4, order);
      }
    case TDict =>
      assert Enumerates(order(off, v.entries), v.entries);
      DictCut(data, off, v.entries, order(off, v.entries));
    case TRecord(ts) => TruncatedFields(ts, v.fields, data, off, order);
    case TEnum(ts) =>
      var tag := Int32Bytes(v.variant + 1);
      CutSplit(data, off, tag, Encode(ts[v.variant], v.payload, off + 4, order));
      if !Cut(data, off, tag) {
        CountBack(data, off, v.variant + 1);
        Truncated(ts[v.variant], v.payload, data, off + 4, order);
      }
  }

  lemma NothingToCut(data: seq<byte>, off: nat)
    ensures !Cut(data, off, [])
  {
  }

  lemma {:induction false} TruncatedAll(t: Ty, vs: seq<Val>, data: seq<byte>, off: nat, order: Order)
    requires AllHaveType(vs, t) && ValidOrder(order) && Cut(data, off, EncodeAll(t, vs, off, order))
    ensures DecodeAll(t, data, off, |vs|) == Err(BufferOverflow)
    decreases t, 1, |vs|
  {
    hide Encode, Decode, DecodeAll, HasType, At;
    NothingToCut(data, off);
    var first := Encode(t, vs[0], off, order);
    CutSplit(data, off, first, EncodeAll(t, vs[1..], off + |first|, order));
    DecodeAllStep(t, data, off, |vs|);
    if Cut(data, off, first) {
      Truncated(t, vs[0], data, off, order);
    } else {
      RoundTrip(t, vs[0], data, off, order);
      TruncatedAll(t, vs[1..], data, off + |first|, order);
    }
  }

  lemma {:induction false} TruncatedFields(ts: seq<Ty>, vs: seq<Val>, data: seq<byte>, off: nat, order: Order)
    requires FieldsHaveType(vs, ts) && ValidOrder(order) && Cut(data, off, EncodeFields(ts, vs, off, order))
    ensures DecodeFields(ts, data, off) == Err(BufferOverflow)
    decreases ts, 0, 0
  {
    var first := Encode(ts[0], vs[0], off, order);
    CutSplit(data, off, first, EncodeFields(ts[1..], vs[1..], off + |first|, order));
    if Cut(data, off, first) {
      Truncated(ts[0], vs[0], data, off, order);
    } else {
      RoundTrip(ts[0], vs[0], data, off, order);
      TruncatedFields(ts[1..], vs[1..], data, off + |first|, order);
    }
  }

  // ----- crossing the boundary -----

  /** `lift(lower(v) + extra)`: the value when nothing follows it, incompleteData otherwise. */
  lemma LiftLower(ty: Ty, v: Val, order: Order, extra: seq<byte>)
    requires CrossesEncoded(ty) && HasType(v, ty) && ValidOrder(order)
    ensures Lift(ty, Lower(ty, v, order) + extra) == if extra == [] then Ok(v) else Err(IncompleteData)
  {
    var bs := Lower(ty, v, order);
    assert (bs + extra)[0..0 + |bs|] == bs;
    RoundTrip(ty, v, bs + extra, 0, order);
  }

  /** `lift` of a lowered value with its tail missing. */
  lemma LiftTruncated(ty: Ty, v: Val, order: Order, n: nat)
    requires CrossesEncoded(ty) && HasType(v, ty) && ValidOrder(order) && n < |Lower(ty, v, order)|
    ensures Lift(ty, Lower(ty, v, order)[..n]) == Err(BufferOverflow)
  {
    var data := Lower(ty, v, order)[..n];
    assert data[0..] == data;
    Truncated(ty, v, data, 0, order);
  }

  /** Behind well-formed text, what follows decides alone whether the whole is well-formed. */
  lemma {:induction false} Utf8Concat(s: seq<byte>, t: seq<byte>)
    requires ValidUtf8(s)
    ensures ValidUtf8(s + t) <==> ValidUtf8(t)
    decreases |s|
  {
    if s == [] {
      assert s + t == t;
    } else {
      var n := if s[0] <= 0x7F then 1 else if s[0] <= 0xDF then 2 else if s[0] <= 0xEF then 3 else 4;
      assert (s + t)[n..] == s[n..] + t;
      Utf8Concat(s[n..], t);
    }
  }

  /** A string crosses without a length, so bytes behind a lowered string become part of it, or
      trap when they are no text; there is nothing to overflow and nothing to be left over. */
  lemma StringLiftLower(s: seq<byte>, extra: seq<byte>)
    requires ValidUtf8(s)
    ensures LiftString(LowerString(s) + extra) == if ValidUtf8(extra) then Ok(s + extra) else Err(Trap)
  {
    Utf8Concat(s, extra);
  }

  /** Encodings are uniquely readable: two values of a type whose encodings start the same bytes,
      whatever order either was written in, are the same value of the same length. */
  lemma UniquelyReadable(ty: Ty, v: Val, w: Val, data: seq<byte>, off: nat, order: Order, order': Order)
    requires HasType(v, ty) && HasType(w, ty) && ValidOrder(order) && ValidOrder(order')
    requires At(data, off, Encode(ty, v, off, order)) && At(data, off, Encode(ty, w, off, order'))
    ensures v == w && |Encode(ty, v, off, order)| == |Encode(ty, w, off, order')|
  {
    RoundTrip(ty, v, data, off, order);
    RoundTrip(ty, w, data, off, order');
  }

  // ----- what any accepted bytes contain -----

  /** The fewest bytes a value of the type takes. */
  function MinSize(ty: Ty): nat
    decreases ty
  {
    match ty
    case TUInt(w) => w
    case TBool => 1
    case TString => 4
    case TData => 4
    case TOpt(_) => 1
    case TSeq(_) => 4
    case TDict => 4
    case TRecord(ts) => MinSizes(ts)
    case TEnum(_) => 4
  }

  function MinSizes(ts: seq<Ty>): nat
    decreases ts
  {
    if ts == [] then 0 else MinSize(ts[0]) + MinSizes(ts[1..])
  }

  lemma CountWithin(data: seq<byte>, off: nat)
    ensures match ReadCount(data, off)
            case Ok((n, end)) => off + 4 == end <= |data| && n <= MAX_INT32
            case Err(_) => true
  {
    if off + 4 <= |data| {
      FromBigEndianBound(data[off..off + 4]);
      assert Pow256(2) == 65536;
      assert Pow256(4) == 256 * (256 * Pow256(2));
    }
  }

  lemma BytesWithin(data: seq<byte>, off: nat)
    ensures match ReadBytes(data, off)
            case Ok((s, end)) => off + 4 + |s| == end <= |data| && |s| <= MAX_INT32
            case Err(_) => true
  {
    CountWithin(data, off);
  }

  lemma StringWithin(data: seq<byte>, off: nat)
    ensures match ReadString(data, off)
            case Ok((s, end)) => off + 4 <= end <= |data| && IsString(s)
            case Err(_) => true
  {
    BytesWithin(data, off);
  }

  lemma {:induction false} FromBigEndianBound(bs: seq<byte>)
    ensures FromBigEndian(bs) < Pow256(|bs|)
  {
    if bs == [] {
    } else {
      FromBigEndianBound(bs[..|bs| - 1]);
    }
  }

  ghost predicate Strings(m: Dict) {
    forall k :: k in m ==> IsString(k) && IsString(m[k])
  }

  lemma OneMoreString(m: Dict, k: seq<byte>, v: seq<byte>)
    requires Strings(m) && IsString(k) && IsString(v)
    ensures Strings(m[k := v]) && |m[k := v]| <= |m| + 1
  {
    hide IsString;
    if k in m {
      assert m[k := v].Keys == m.Keys;
    } else {
      assert m[k := v].Keys == m.Keys + {k};
    }
  }

  lemma ReadPairsNone(data: seq<byte>, off: nat, dict: Dict)
    ensures ReadPairs(data, off, 0, dict) == Ok((dict, off))
  {
  }

  lemma ReadPairsStep(data: seq<byte>, off: nat, n: nat, dict: Dict)
    requires n > 0
    ensures var key := ReadString(data, off);
      if key.Err? then ReadPairs(data, off, n, dict).Err?
      else
        var value := ReadString(data, key.value.1);
        if value.Err? then ReadPairs(data, off, n, dict).Err?
        else ReadPairs(data, off, n, dict) == ReadPairs(data, value.value.1, n - 1, dict[key.value.0 := value.value.0])
  {
    hide ReadString;
  }

  lemma {:induction false} PairsWithin(data: seq<byte>, off: nat, n: nat, dict: Dict)
    requires off <= |data| && Strings(dict)
    ensures var r := ReadPairs(data, off, n, dict);
      r.Ok? ==> off + 8 * n <= r.value.1 <= |data| && |r.value.0| <= |dict| + n && Strings(r.value.0)
    decreases n
  {
    hide ReadString, IsString, ReadPairs, Strings;
    if n == 0 {
      ReadPairsNone(data, off, dict);
    } else {
      ReadPairsStep(data, off, n, dict);
      StringWithin(data, off);
      var key := ReadString(data, off);
      if key.Ok? {
        StringWithin(data, key.value.1);
        var value := ReadString(data, key.value.1);
        if value.Ok? {
          OneMoreString(dict, key.value.0, value.value.0);
          PairsWithin(data, value.value.1, n - 1, dict[key.value.0 := value.value.0]);
        }
      }
    }
  }

  ghost predicate WithinAs(r: Reading<Val>, ty: Ty, data: seq<byte>, off: nat) {
    r.Ok? ==> off + MinSize(ty) <= r.value.1 <= |data| && HasType(r.value.0, ty)
  }

  lemma ByteSize()
    ensures Pow256(1) == 256
  {
  }

  lemma LeafSound(ty: Ty, data: seq<byte>, off: nat)
    requires off <= |data| && IsLeaf(ty)
    ensures WithinAs(Decode(ty, data, off), ty, data, off)
  {
    hide FromBigEndian, ValidUtf8, ReadPairs, Pow256;
    match ty
    case TUInt(w) => if off + w <= |data| { FromBigEndianBound(data[off..off + w]); }
    case TBool =>
      ByteSize();
      if off + 1 <= |data| { FromBigEndianBound(data[off..off + 1]); }
    case TString => StringWithin(data, off);
    case TData => BytesWithin(data, off);
    case TDict =>
      CountWithin(data, off);
      var count := ReadCount(data, off);
      if count.Ok? {
        PairsWithin(data, off + 4, count.value.0, map[]);
      }
  }

  /** Whatever bytes a reader accepts, it stays inside the buffer, takes at least the type's
      least size, and hands out a value of the type. */
  lemma {:induction false} DecodeSound(ty: Ty, data: seq<byte>, off: nat)
    requires off <= |data| && CasesCountable(ty)
    ensures WithinAs(Decode(ty, data, off), ty, data, off)
    decreases ty, 1, 0
  {
    match ty
    case TOpt(t) => if off < |data| { DecodeSound(t, data, off + 1); }
    case TSeq(t) => DecodeSeqSound(t, data, off);
    case TRecord(ts) => DecodeFieldsSound(ts, data, off);
    case TEnum(ts) => DecodeEnumSound(ts, data, off);
    case _ => LeafSound(ty, data, off);
  }

  lemma {:induction false} DecodeSeqSound(t: Ty, data: seq<byte>, off: nat)
    requires off <= |data| && CasesCountable(t)
    ensures WithinAs(Decode(TSeq(t), data, off), TSeq(t), data, off)
    decreases TSeq(t), 0, 0
  {
    hide ReadCount, AllHaveType;
    CountWithin(data, off);
    var count := ReadCount(data, off);
    if count.Ok? {
      DecodeAllSound(t, data, off + 4, count.value.0);
    }
  }

  lemma {:induction false} DecodeEnumSound(ts: seq<Ty>, data: seq<byte>, off: nat)
    requires off <= |data| && CasesCountable(TEnum(ts))
    ensures WithinAs(Decode(TEnum(ts), data, off), TEnum(ts), data, off)
    decreases TEnum(ts), 0, 0
  {
    hide FromBigEndian;
    var tag := ReadInt32(data, off);
    if tag.Ok? && 1 <= tag.value.0 <= |ts| {
      DecodeSound(ts[tag.value.0 - 1], data, off + 4);
    }
  }

  /** No enumeration in the type has more cases than a tag can count. */
  predicate CasesCountable(ty: Ty)
    decreases ty, 0
  {
    match ty
    case TOpt(t) => CasesCountable(t)
    case TSeq(t) => CasesCountable(t)
    case TRecord(ts) => AllCountable(ts)
    case TEnum(ts) => |ts| <= MAX_INT32 && AllCountable(ts)
    case _ => true
  }

  predicate AllCountable(ts: seq<Ty>)
    decreases ts, 0
  {
    forall i :: 0 <= i < |ts| ==> CasesCountable(ts[i])
  }

  lemma {:induction false} DecodeAllSound(t: Ty, data: seq<byte>, off: nat, n: nat)
    requires off <= |data| && CasesCountable(t)
    ensures match DecodeAll(t, data, off, n)
            case Ok((vs, end)) => |vs| == n && off + n * MinSize(t) <= end <= |data| && AllHaveType(vs, t)
            case Err(_) => true
    decreases t, 2, n
  {
    hide Decode, CasesCountable, HasType, MinSize;
    if n == 0 {
    } else {
      DecodeSound(t, data, off);
      var first := Decode(t, data, off);
      if first.Ok? {
        DecodeAllSound(t, data, first.value.1, n - 1);
        assert n * MinSize(t) == MinSize(t) + (n - 1) * MinSize(t);
      }
    }
  }

  lemma {:induction false} DecodeFieldsSound(ts: seq<Ty>, data: seq<byte>, off: nat)
    requires off <= |data| && AllCountable(ts)
    ensures match DecodeFields(ts, data, off)
            case Ok((vs, end)) => off + MinSizes(ts) <= end <= |data| && FieldsHaveType(vs, ts)
            case Err(_) => true
    decreases ts, 0, 0
  {
    if ts == [] {
    } else {
      DecodeSound(ts[0], data, off);
      var first := Decode(ts[0], data, off);
      if first.Ok? {
        DecodeFieldsSound(ts[1..], data, first.value.1);
      }
    }
  }

  /** A declared element count the remaining bytes cannot hold is never read successfully. */
  lemma OversizedCountFails(t: Ty, data: seq<byte>, off: nat, n: nat)
    requires off <= |data| && CasesCountable(t)
    requires ReadCount(data, off) == Ok((n, off + 4)) && n * MinSize(t) > |data| - off - 4
    ensures Decode(TSeq(t), data, off).Err?
  {
    DecodeAllSound(t, data, off + 4, n);
  }
}
