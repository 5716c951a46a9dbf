/** The wire format byte by byte, without a writer or a reader: where in a buffer a value is spelled,
    and which byte carries what. Writing produces such spellings and reading takes them. */
module UniffiFormat {
  import opened Common
  import opened UniffiCodec
  import opened UniffiRoundTrip

  // ----- integers: the most significant byte first -----

  lemma Shift256(n: nat, k: nat)
    ensures (n / 256) / Pow256(k) == n / Pow256(k + 1)
  {
    DivideTwice(n, Pow256(k));
  }

  lemma DivideTwice(n: nat, b: nat)
    requires b > 0
    ensures (n / 256) / b == n / (256 * b)
  {
    var q, r := n / 256, n % 256;
    var p, s := q / b, q % b;
    Times256(b, p);
    assert q == b * p + s && n == 256 * q + r;
    QuotientIs(n, 256 * b, p, 256 * s + r);
  }

  lemma Times256(b: nat, p: nat)
    ensures 256 * (b * p) == (256 * b) * p
  {
  }

  lemma QuotientIs(n: nat, d: nat, q: nat, r: nat)
    requires n == d * q + r && r < d
    ensures n / d == q
  {
    var q' := n / d;
    assert n == d * q' + n % d;
    LessTimes(d, q, q');
    LessTimes(d, q', q);
  }

  lemma {:induction false} LessTimes(d: nat, a: nat, b: nat)
    ensures a < b ==> d * a + d <= d * b
  {
    if a < b - 1 {
      LessTimes(d, a, b - 1);
      assert d * b == d * (b - 1) + d;
    } else if a == b - 1 {
      assert d * b == d * a + d;
    }
  }

  /** The i-th of w bytes carries the digit of weight 256^(w-1-i). */
  lemma {:induction false} BigEndianAt(n: nat, w: nat, i: nat)
    requires i < w
    ensures BigEndian(n, w)[i] == (n / Pow256(w - 1 - i)) % 256
  {
    if i == w - 1 {
      assert Pow256(0) == 1;
    } else {
      BigEndianAt(n / 256, w - 1, i);
      Shift256(n, w - 2 - i);
    }
  }

  /** The bytes of a number, the most significant first. */
  ghost predicate MostSignificantFirst(bs: seq<byte>, n: nat, w: nat) {
    |bs| == w && forall i :: 0 <= i < w ==> bs[i] == (n / Pow256(w - 1 - i)) % 256
  }

  lemma WrittenMostSignificantFirst(n: nat, w: nat)
    ensures MostSignificantFirst(BigEndian(n, w), n, w)
  {
    hide BigEndian, Pow256;
    forall i | 0 <= i < w
      ensures BigEndian(n, w)[i] == (n / Pow256(w - 1 - i)) % 256
    {
      BigEndianAt(n, w, i);
    }
  }

  /** The first byte weighs most. */
  lemma {:induction false} FirstByteWeighsMost(bs: seq<byte>)
    requires bs != []
    ensures FromBigEndian(bs) == bs[0] * Pow256(|bs| - 1) + FromBigEndian(bs[1..])
  {
    if |bs| == 1 {
      assert bs[..0] == [] && bs[1..] == [] && FromBigEndian([]) == 0 && Pow256(0) == 1;
    } else {
      var init, last := bs[..|bs| - 1], bs[|bs| - 1];
      FirstByteWeighsMost(init);
      assert bs[1..][..|bs| - 2] == init[1..];
      assert Pow256(|bs| - 1) == 256 * Pow256(|bs| - 2);
      Distribute(bs[0], Pow256(|bs| - 2), FromBigEndian(init[1..]));
    }
  }

  lemma Distribute(b: nat, p: nat, rest: nat)
    ensures (b * p + rest) * 256 == b * (256 * p) + rest * 256
  {
  }

  /** The weighted sum of the bytes. */
  function PlaceValue(bs: seq<byte>): nat {
    if bs == [] then 0 else bs[0] * Pow256(|bs| - 1) + PlaceValue(bs[1..])
  }

  lemma {:induction false} ReadsPlaceValue(bs: seq<byte>)
    ensures FromBigEndian(bs) == PlaceValue(bs)
  {
    if bs != [] {
      FirstByteWeighsMost(bs);
      ReadsPlaceValue(bs[1..]);
    }
  }

  lemma FourBytes(bs: seq<byte>)
    requires |bs| == 4
    ensures FromBigEndian(bs) == bs[0] as nat * 0x100_0000 + bs[1] as nat * 0x1_0000 + bs[2] as nat * 0x100 + bs[3]
  {
    ReadsPlaceValue(bs);
    assert bs[1..][1..] == bs[2..] && bs[2..][1..] == bs[3..] && bs[3..][1..] == [];
    assert PlaceValue(bs[3..]) == bs[3] * Pow256(0) + PlaceValue([]);
    assert PlaceValue(bs[2..]) == bs[2] * Pow256(1) + PlaceValue(bs[3..]);
    assert PlaceValue(bs[1..]) == bs[1] * Pow256(2) + PlaceValue(bs[2..]);
    assert Pow256(0) == 1 && Pow256(1) == 0x100 && Pow256(2) == 0x1_0000 && Pow256(3) == 0x100_0000;
  }

  /** A signed integer is negative exactly when its first byte has the top bit. */
  lemma SignIsFirstBit(data: seq<byte>, off: nat)
    requires off + 4 <= |data|
    ensures ReadInt32(data, off).Ok? && (ReadInt32(data, off).value.0 < 0 <==> data[off] >= 0x80)
  {
    FourBytes(data[off..off + 4]);
  }

  // ----- the format -----

  /** A count, or the number of a case: four bytes. */
  predicate CountAt(data: seq<byte>, lo: nat, n: nat) {
    && lo + 4 <= |data|
    && n == data[lo] as nat * 0x100_0000 + data[lo + 1] as nat * 0x1_0000 + data[lo + 2] as nat * 0x100 + data[lo + 3]
  }

  predicate SpellsBytes(s: seq<byte>, data: seq<byte>, lo: nat, hi: nat) {
    hi == lo + 4 + |s| && hi <= |data| && CountAt(data, lo, |s|) && data[lo + 4..hi] == s
  }

  /** The value is spelled by the bytes from lo up to hi. */
  ghost predicate Spells(ty: Ty, v: Val, data: seq<byte>, lo: nat, hi: nat)
    decreases ty, 0, 0
  {
    lo <= hi <= |data| &&
    match ty
    case TUInt(w) => v.VUInt? && hi == lo + w && v.n == PlaceValue(data[lo..hi])
    case TBool => v.VBool? && hi == lo + 1 && data[lo] == if v.b then 1 else 0
    case TString => v.VString? && SpellsBytes(v.utf8, data, lo, hi)
    case TData => v.VData? && SpellsBytes(v.bytes, data, lo, hi)
    case TOpt(t) =>
      && lo < hi
      && ((v.VNone? && data[lo] == 0 && hi == lo + 1)
          || (v.VSome? && data[lo] == 1 && Spells(t, v.v, data, lo + 1, hi)))
    case TSeq(t) =>
      v.VSeq? && CountAt(data, lo, |v.elements|) && SpellsAll(t, v.elements, data, lo + 4, hi)
    case TDict =>
      && v.VDict? && CountAt(data, lo, |v.entries|)
      && exists keys :: Enumerates(keys, v.entries) && SpellsPairs(v.entries, keys, data, lo + 4, hi)
    case TRecord(ts) => v.VRecord? && SpellsFields(ts, v.fields, data, lo, hi)
    case TEnum(ts) =>
      && v.VEnum? && v.variant < |ts| && CountAt(data, lo, v.variant + 1)
      && Spells(ts[v.variant], v.payload, data, lo + 4, hi)
  }

  /** One element behind the other. */
  ghost predicate SpellsAll(t: Ty, vs: seq<Val>, data: seq<byte>, lo: nat, hi: nat)
    decreases t, 1, |vs|
  {
    if vs == [] then lo == hi
    else exists mid :: Spells(t, vs[0], data, lo, mid) && SpellsAll(t, vs[1..], data, mid, hi)
  }

  /** One field behind the other. */
  ghost predicate SpellsFields(ts: seq<Ty>, vs: seq<Val>, data: seq<byte>, lo: nat, hi: nat)
    decreases ts, 0, 0
  {
    if ts == [] || vs == [] then ts == [] && vs == [] && lo == hi
    else exists mid :: Spells(ts[0], vs[0], data, lo, mid) && SpellsFields(ts[1..], vs[1..], data, mid, hi)
  }

  /** Each key and then its value. */
  ghost predicate SpellsPairs(m: Dict, keys: seq<seq<byte>>, data: seq<byte>, lo: nat, hi: nat)
    decreases |keys|
  {
    if keys == [] then lo == hi
    else
      && keys[0] in m
      && exists mid, end :: SpellsBytes(keys[0], data, lo, mid) && SpellsBytes(m[keys[0]], data, mid, end)
                            && SpellsPairs(m, keys[1..], data, end, hi)
  }

  lemma {:induction false} FirstField(ts: seq<Ty>, vs: seq<Val>, data: seq<byte>, lo: nat, hi: nat)
    returns (mid: nat)
    requires ts != [] && vs != [] && SpellsFields(ts, vs, data, lo, hi)
    ensures Spells(ts[0], vs[0], data, lo, mid) && SpellsFields(ts[1..], vs[1..], data, mid, hi)
  {
    hide Spells;
    mid :| Spells(ts[0], vs[0], data, lo, mid) && SpellsFields(ts[1..], vs[1..], data, mid, hi);
  }

  /** n pieces from lo up to hi. */
  predicate CutsFrom(cuts: seq<nat>, n: nat, lo: nat, hi: nat) {
    |cuts| == n + 1 && cuts[0] == lo && cuts[n] == hi
  }

  lemma {:induction false} FieldsCut(ts: seq<Ty>, vs: seq<Val>, data: seq<byte>, lo: nat, hi: nat)
    returns (cuts: seq<nat>)
    requires SpellsFields(ts, vs, data, lo, hi)
    ensures |vs| == |ts| && CutsFrom(cuts, |ts|, lo, hi)
    ensures forall i :: 0 <= i < |ts| ==> Spells(ts[i], vs[i], data, cuts[i], cuts[i + 1])
    decreases |ts|
  {
    hide Spells;
    if ts == [] || vs == [] {
      cuts := [lo];
    } else {
      var mid := FirstField(ts, vs, data, lo, hi);
      var rest := FieldsCut(ts[1..], vs[1..], data, mid, hi);
      cuts := [lo] + rest;
      forall i | 0 <= i < |ts|
        ensures Spells(ts[i], vs[i], data, cuts[i], cuts[i + 1])
      {
        if i > 0 {
          assert ts[1..][i - 1] == ts[i] && vs[1..][i - 1] == vs[i];
        }
      }
    }
  }

  lemma {:induction false} CutFields(ts: seq<Ty>, vs: seq<Val>, data: seq<byte>, cuts: seq<nat>)
    requires |vs| == |ts| && |cuts| == |ts| + 1
    requires forall i :: 0 <= i < |ts| ==> Spells(ts[i], vs[i], data, cuts[i], cuts[i + 1])
    ensures SpellsFields(ts, vs, data, cuts[0], cuts[|ts|])
    decreases |ts|
  {
    hide Spells;
    if ts != [] {
      forall i | 0 <= i < |ts| - 1
        ensures Spells(ts[1..][i], vs[1..][i], data, cuts[1..][i], cuts[1..][i + 1])
      {
        assert ts[1..][i] == ts[i + 1] && vs[1..][i] == vs[i + 1];
      }
      CutFields(ts[1..], vs[1..], data, cuts[1..]);
      assert Spells(ts[0], vs[0], data, cuts[0], cuts[1]);
    }
  }

  /** Each field from one cut to the next. */
  ghost predicate CutInto(ts: seq<Ty>, vs: seq<Val>, data: seq<byte>, cuts: seq<nat>) {
    && |vs| == |ts| && |cuts| == |ts| + 1
    && forall i :: 0 <= i < |ts| ==> Spells(ts[i], vs[i], data, cuts[i], cuts[i + 1])
  }

  /** A record is spelled by its fields in their order. */
  lemma {:induction false} RecordIsCut(ts: seq<Ty>, vs: seq<Val>, data: seq<byte>, lo: nat, hi: nat)
    requires lo <= hi <= |data|
    ensures Spells(TRecord(ts), VRecord(vs), data, lo, hi)
      <==> exists cuts :: CutsFrom(cuts, |ts|, lo, hi) && CutInto(ts, vs, data, cuts)
  {
    RecordSpelled(ts, vs, data, lo, hi);
    hide Spells, SpellsFields;
    if SpellsFields(ts, vs, data, lo, hi) {
      var cuts := FieldsCut(ts, vs, data, lo, hi);
      assert CutInto(ts, vs, data, cuts);
    }
    if cuts :| CutsFrom(cuts, |ts|, lo, hi) && CutInto(ts, vs, data, cuts) {
      CutFields(ts, vs, data, cuts);
    }
  }

  lemma {:induction false} RecordSpelled(ts: seq<Ty>, vs: seq<Val>, data: seq<byte>, lo: nat, hi: nat)
    requires lo <= hi <= |data|
    ensures Spells(TRecord(ts), VRecord(vs), data, lo, hi) <==> SpellsFields(ts, vs, data, lo, hi)
  {
  }

  // ----- what is written is spelled -----

  lemma CountSpelled(data: seq<byte>, off: nat, n: nat)
    requires n <= MAX_INT32 && At(data, off, Int32Bytes(n))
    ensures CountAt(data, off, n)
  {
    CountBack(data, off, n);
    FourBytes(data[off..off + 4]);
  }

  lemma BytesSpelled(data: seq<byte>, off: nat, s: seq<byte>)
    requires |s| <= MAX_INT32 && At(data, off, EncodeBytes(s))
    ensures SpellsBytes(s, data, off, off + |EncodeBytes(s)|)
  {
    AtSplit(data, off, Int32Bytes(|s|), s);
    CountSpelled(data, off, |s|);
    AtSlice(data, off + 4, s);
  }

  lemma {:induction false} PairsSpelled(data: seq<byte>, off: nat, m: Dict, keys: seq<seq<byte>>)
    requires StringPairs(m, keys) && At(data, off, EncodePairs(m, keys))
    ensures SpellsPairs(m, keys, data, off, off + |EncodePairs(m, keys)|)
    decreases |keys|
  {
    hide SpellsBytes, At, ValidUtf8;
    if keys == [] {
      assert EncodePairs(m, keys) == [];
    } else {
      var key, value := EncodeBytes(keys[0]), EncodeBytes(m[keys[0]]);
      var rest := EncodePairs(m, keys[1..]);
      assert EncodePairs(m, keys) == key + value + rest;
      AtSplit(data, off, key + value, rest);
      AtSplit(data, off, key, value);
      BytesSpelled(data, off, keys[0]);
      BytesSpelled(data, off + |key|, m[keys[0]]);
      PairsSpelled(data, off + |key| + |value|, m, keys[1..]);
    }
  }

  lemma LeafSpelled(ty: Ty, v: Val, data: seq<byte>, off: nat, order: Order)
    requires IsLeaf(ty) && HasType(v, ty) && ValidOrder(order) && At(data, off, Encode(ty, v, off, order))
    ensures Spells(ty, v, data, off, off + |Encode(ty, v, off, order)|)
  {
    hide FromBigEndian, ValidUtf8, BigEndian, PlaceValue, SpellsBytes, CountAt, SpellsPairs;
    match ty
    case TUInt(w) =>
      UIntBack(data, off, v.n, w);
      ReadsPlaceValue(data[off..off + w]);
    case TBool => assert data[off + 0] == Encode(ty, v, off, order)[0];
    case TString => BytesSpelled(data, off, v.utf8);
    case TData => BytesSpelled(data, off, v.bytes);
    case TDict =>
      assert Enumerates(order(off, v.entries), v.entries);
      DictSpelled(v.entries, order(off, v.entries), data, off);
  }

  lemma DictSpelled(m: Dict, keys: seq<seq<byte>>, data: seq<byte>, off: nat)
    requires Enumerates(keys, m) && StringPairs(m, keys) && |m| <= MAX_INT32
    requires At(data, off, Int32Bytes(|m|) + EncodePairs(m, keys))
    ensures Spells(TDict, VDict(m), data, off, off + 4 + |EncodePairs(m, keys)|)
  {
    hide SpellsPairs, CountAt, EncodePairs, BigEndian, ValidUtf8;
    AtSplit(data, off, Int32Bytes(|m|), EncodePairs(m, keys));
    CountSpelled(data, off, |m|);
    PairsSpelled(data, off + 4, m, keys);
  }

  /** Wherever an encoding stands, it spells its value. */
  lemma {:induction false} WrittenIsSpelled(ty: Ty, v: Val, data: seq<byte>, off: nat, order: Order)
    requires HasType(v, ty) && ValidOrder(order) && At(data, off, Encode(ty, v, off, order))
    ensures Spells(ty, v, data, off, off + |Encode(ty, v, off, order)|)
    decreases ty, 2, 0
  {
    match ty
    case TOpt(t) => OptSpelled(t, v, data, off, order);
    case TSeq(t) => SeqSpelled(t, v, data, off, order);
    case TRecord(ts) => FieldsSpelled(ts, v.fields, data, off, order);
    case TEnum(ts) => CaseSpelled(ts, v, data, off, order);
    case _ => LeafSpelled(ty, v, data, off, order);
  }

  lemma {:induction false} OptSpelled(t: Ty, v: Val, data: seq<byte>, off: nat, order: Order)
    requires HasType(v, TOpt(t)) && ValidOrder(order) && At(data, off, Encode(TOpt(t), v, off, order))
    ensures Spells(TOpt(t), v, data, off, off + |Encode(TOpt(t), v, off, order)|)
    decreases TOpt(t), 1, 0
  {
    hide Encode, HasType;
    OptEncoded(t, v, off, order);
    assert data[off + 0] == Encode(TOpt(t), v, off, order)[0];
    if v.VSome? {
      AtSplit(data, off, [1], Encode(t, v.v, off + 1, order));
      WrittenIsSpelled(t, v.v, data, off + 1, order);
    }
  }

  lemma {:induction false} SeqSpelled(t: Ty, v: Val, data: seq<byte>, off: nat, order: Order)
    requires HasType(v, TSeq(t)) && ValidOrder(order) && At(data, off, Encode(TSeq(t), v, off, order))
    ensures Spells(TSeq(t), v, data, off, off + |Encode(TSeq(t), v, off, order)|)
    decreases TSeq(t), 1, 0
  {
    hide Encode, HasType, EncodeAll, CountAt, SpellsAll;
    SeqEncoded(t, v, off, order);
    AtSplit(data, off, Int32Bytes(|v.elements|), EncodeAll(t, v.elements, off + 4, order));
    CountSpelled(data, off, |v.elements|);
    AllSpelled(t, v.elements, data, off + 4, order);
  }

  lemma {:induction false} CaseSpelled(ts: seq<Ty>, v: Val, data: seq<byte>, off: nat, order: Order)
    requires HasType(v, TEnum(ts)) && ValidOrder(order) && At(data, off, Encode(TEnum(ts), v, off, order))
    ensures Spells(TEnum(ts), v, data, off, off + |Encode(TEnum(ts), v, off, order)|)
    decreases TEnum(ts), 1, 0
  {
    hide Encode, HasType, CountAt;
    EnumEncoded(ts, v, off, order);
    AtSplit(data, off, Int32Bytes(v.variant + 1), Encode(ts[v.variant], v.payload, off + 4, order));
    CountSpelled(data, off, v.variant + 1);
    WrittenIsSpelled(ts[v.variant], v.payload, data, off + 4, order);
  }

  lemma {:induction false} AllSpelled(t: Ty, vs: seq<Val>, data: seq<byte>, off: nat, order: Order)
    requires AllHaveType(vs, t) && ValidOrder(order) && At(data, off, EncodeAll(t, vs, off, order))
    ensures SpellsAll(t, vs, data, off, off + |EncodeAll(t, vs, off, order)|)
    decreases t, 3, |vs|
  {
    hide Encode, HasType, Spells, At;
    if vs == [] {
    } else {
      var first := Encode(t, vs[0], off, order);
      AtSplit(data, off, first, EncodeAll(t, vs[1..], off + |first|, order));
      WrittenIsSpelled(t, vs[0], data, off, order);
      AllSpelled(t, vs[1..], data, off + |first|, order);
    }
  }

  lemma {:induction false} FieldsSpelled(ts: seq<Ty>, vs: seq<Val>, data: seq<byte>, off: nat, order: Order)
    requires FieldsHaveType(vs, ts) && ValidOrder(order) && At(data, off, EncodeFields(ts, vs, off, order))
    ensures SpellsFields(ts, vs, data, off, off + |EncodeFields(ts, vs, off, order)|)
    decreases ts, 0, 0
  {
    hide Encode, HasType, Spells, At;
    if ts == [] {
    } else {
      var first := Encode(ts[0], vs[0], off, order);
      AtSplit(data, off, first, EncodeFields(ts[1..], vs[1..], off + |first|, order));
      WrittenIsSpelled(ts[0], vs[0], data, off, order);
      FieldsSpelled(ts[1..], vs[1..], data, off + |first|, order);
    }
  }

  // ----- what is spelled is read -----

  lemma CountRead(data: seq<byte>, lo: nat, n: nat)
    requires CountAt(data, lo, n) && n <= MAX_INT32
    ensures ReadInt32(data, lo) == Ok((n, lo + 4)) && ReadCount(data, lo) == Ok((n, lo + 4))
  {
    FourBytes(data[lo..lo + 4]);
  }

  lemma BytesRead(s: seq<byte>, data: seq<byte>, lo: nat, hi: nat)
    requires SpellsBytes(s, data, lo, hi) && |s| <= MAX_INT32
    ensures ReadBytes(data, lo) == Ok((s, hi))
    ensures ValidUtf8(s) ==> ReadString(data, lo) == Ok((s, hi))
  {
    CountRead(data, lo, |s|);
  }

  lemma {:induction false} PairsRead(m: Dict, keys: seq<seq<byte>>, data: seq<byte>, lo: nat, hi: nat, dict: Dict)
    requires StringPairs(m, keys) && SpellsPairs(m, keys, data, lo, hi)
    ensures ReadPairs(data, lo, |keys|, dict) == Ok((Assign(dict, m, keys), hi))
    decreases |keys|
  {
    hide ReadString, SpellsBytes, ValidUtf8;
    if keys == [] {
    } else {
      var mid, end :| SpellsBytes(keys[0], data, lo, mid) && SpellsBytes(m[keys[0]], data, mid, end)
                      && SpellsPairs(m, keys[1..], data, end, hi);
      BytesRead(keys[0], data, lo, mid);
      BytesRead(m[keys[0]], data, mid, end);
      PairsRead(m, keys[1..], data, end, hi, dict[keys[0] := m[keys[0]]]);
    }
  }

  lemma LeafRead(ty: Ty, v: Val, data: seq<byte>, lo: nat, hi: nat)
    requires IsLeaf(ty) && HasType(v, ty) && Spells(ty, v, data, lo, hi)
    ensures Decode(ty, data, lo) == Ok((v, hi))
  {
    hide FromBigEndian, ValidUtf8, PlaceValue, SpellsBytes, CountAt, SpellsPairs;
    match ty
    case TUInt(w) => ReadsPlaceValue(data[lo..hi]);
    case TBool => ByteBack(data, lo, data[lo]);
    case TString => BytesRead(v.utf8, data, lo, hi);
    case TData => BytesRead(v.bytes, data, lo, hi);
    case TDict => DictRead(v.entries, data, lo, hi);
  }

  lemma DictRead(m: Dict, data: seq<byte>, lo: nat, hi: nat)
    requires HasType(VDict(m), TDict) && Spells(TDict, VDict(m), data, lo, hi)
    ensures Decode(TDict, data, lo) == Ok((VDict(m), hi))
  {
    hide SpellsPairs, CountAt, ReadPairs, ReadCount, ValidUtf8;
    CountRead(data, lo, |m|);
    var keys :| Enumerates(keys, m) && SpellsPairs(m, keys, data, lo + 4, hi);
    PairsRead(m, keys, data, lo + 4, hi, map[]);
    AssignedWhole(m, keys);
  }

  /** Bytes that spell a value of the type are read as that value, up to their end. */
  lemma {:induction false} SpelledIsRead(ty: Ty, v: Val, data: seq<byte>, lo: nat, hi: nat)
    requires HasType(v, ty) && Spells(ty, v, data, lo, hi)
    ensures Decode(ty, data, lo) == Ok((v, hi))
    decreases ty, 2, 0
  {
    match ty
    case TOpt(t) => OptRead(t, v, data, lo, hi);
    case TSeq(t) => SeqRead(t, v, data, lo, hi);
    case TRecord(ts) => FieldsRead(ts, v.fields, data, lo, hi);
    case TEnum(ts) => CaseRead(ts, v, data, lo, hi);
    case _ => LeafRead(ty, v, data, lo, hi);
  }

  lemma {:induction false} OptRead(t: Ty, v: Val, data: seq<byte>, lo: nat, hi: nat)
    requires HasType(v, TOpt(t)) && Spells(TOpt(t), v, data, lo, hi)
    ensures Decode(TOpt(t), data, lo) == Ok((v, hi))
    decreases TOpt(t), 1, 0
  {
    ByteBack(data, lo, data[lo]);
    if v.VSome? {
      SpelledIsRead(t, v.v, data, lo + 1, hi);
    }
  }

  lemma {:induction false} SeqRead(t: Ty, v: Val, data: seq<byte>, lo: nat, hi: nat)
    requires HasType(v, TSeq(t)) && Spells(TSeq(t), v, data, lo, hi)
    ensures Decode(TSeq(t), data, lo) == Ok((v, hi))
    decreases TSeq(t), 1, 0
  {
    hide CountAt, SpellsAll, DecodeAll, ReadCount;
    CountRead(data, lo, |v.elements|);
    AllRead(t, v.elements, data, lo + 4, hi);
  }

  lemma {:induction false} CaseRead(ts: seq<Ty>, v: Val, data: seq<byte>, lo: nat, hi: nat)
    requires HasType(v, TEnum(ts)) && Spells(TEnum(ts), v, data, lo, hi)
    ensures Decode(TEnum(ts), data, lo) == Ok((v, hi))
    decreases TEnum(ts), 1, 0
  {
    hide CountAt, ReadInt32;
    CountRead(data, lo, v.variant + 1);
    SpelledIsRead(ts[v.variant], v.payload, data, lo + 4, hi);
  }

  lemma {:induction false} AllRead(t: Ty, vs: seq<Val>, data: seq<byte>, lo: nat, hi: nat)
    requires AllHaveType(vs, t) && SpellsAll(t, vs, data, lo, hi)
    ensures DecodeAll(t, data, lo, |vs|) == Ok((vs, hi))
    decreases t, 3, |vs|
  {
    hide Spells, Decode, HasType;
    if vs == [] {
    } else {
      var mid :| Spells(t, vs[0], data, lo, mid) && SpellsAll(t, vs[1..], data, mid, hi);
      SpelledIsRead(t, vs[0], data, lo, mid);
      AllRead(t, vs[1..], data, mid, hi);
      assert vs == [vs[0]] + vs[1..];
    }
  }

  lemma {:induction false} FieldsRead(ts: seq<Ty>, vs: seq<Val>, data: seq<byte>, lo: nat, hi: nat)
    requires FieldsHaveType(vs, ts) && SpellsFields(ts, vs, data, lo, hi)
    ensures DecodeFields(ts, data, lo) == Ok((vs, hi))
    decreases ts, 0, 0
  {
    hide Spells, Decode, HasType;
    if ts == [] {
    } else {
      var mid :| Spells(ts[0], vs[0], data, lo, mid) && SpellsFields(ts[1..], vs[1..], data, mid, hi);
      SpelledIsRead(ts[0], vs[0], data, lo, mid);
      FieldsRead(ts[1..], vs[1..], data, mid, hi);
      assert vs == [vs[0]] + vs[1..];
    }
  }

  // ----- what is not spelled -----

  /** A presence byte above 1, a case number that no case has, a negative count and bytes that are no
      string each have their own fault; so have bytes that are missing. */
  lemma WrongBytesFault(t: Ty, ts: seq<Ty>, data: seq<byte>, off: nat)
    requires off <= |data|
    ensures off < |data| && data[off] > 1 ==> Decode(TOpt(t), data, off) == Err(UnexpectedOptionalTag)
    ensures off == |data| ==> Decode(TOpt(t), data, off) == Err(BufferOverflow)
    ensures off + 4 <= |data| && (forall n: nat :: CountAt(data, off, n) ==> n == 0 || n > |ts| || n > MAX_INT32) ==>
      Decode(TEnum(ts), data, off) == Err(UnexpectedEnumCase)
    ensures off + 4 > |data| ==> forall ty | ty in [TEnum(ts), TSeq(t), TDict, TString, TData] ::
      Decode(ty, data, off) == Err(BufferOverflow)
    ensures off + 4 <= |data| && data[off] >= 0x80 ==> forall ty | ty in [TSeq(t), TDict, TString, TData] ::
      Decode(ty, data, off) == Err(Trap)
  {
    hide FromBigEndian, DecodeAll, ReadPairs, ValidUtf8;
    if off < |data| {
      OneByte(data, off);
    }
    if off + 4 <= |data| {
      SignIsFirstBit(data, off);
      FourBytes(data[off..off + 4]);
      assert CountAt(data, off, FromBigEndian(data[off..off + 4]));
    }
  }

  lemma OneByte(data: seq<byte>, off: nat)
    requires off < |data|
    ensures ReadUInt(data, off, 1) == Ok((data[off], off + 1))
  {
    assert data[off..off + 1] == [data[off]];
    FirstByteWeighsMost([data[off]]);
    assert [data[off]][1..] == [] && Pow256(0) == 1;
  }

  /** Counted bytes that do not spell a string end in a trap, where data would be read. */
  lemma NoStringFaults(s: seq<byte>, data: seq<byte>, lo: nat, hi: nat)
    requires SpellsBytes(s, data, lo, hi) && |s| <= MAX_INT32
    ensures Decode(TData, data, lo) == Ok((VData(s), hi))
    ensures Decode(TString, data, lo) == if ValidUtf8(s) then Ok((VString(s), hi)) else Err(Trap)
  {
    BytesRead(s, data, lo, hi);
  }

  // ----- whole buffers -----

  /** A lowered value spells it from the first byte to the last, and any buffer that does so lifts to
      it. */
  lemma BuffersAreSpelled(ty: Ty, v: Val, order: Order, data: seq<byte>)
    requires CrossesEncoded(ty) && HasType(v, ty) && ValidOrder(order)
    ensures Spells(ty, v, Lower(ty, v, order), 0, |Lower(ty, v, order)|)
    ensures Spells(ty, v, data, 0, |data|) ==> Lift(ty, data) == Ok(v)
  {
    hide Spells, Encode, Decode, HasType;
    WrittenIsSpelled(ty, v, Lower(ty, v, order), 0, order);
    if Spells(ty, v, data, 0, |data|) {
      SpelledIsRead(ty, v, data, 0, |data|);
    }
  }
}
