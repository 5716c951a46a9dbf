/** The generated readers and writers: a growing byte array and a cursor over received data,
    driven by a type's description. */
module UniffiBuffers {
  import opened Common
  import opened UniffiCodec
  import opened UniffiRoundTrip
  import opened UniffiFormat

  // ----- one step of a writing or reading loop -----

  lemma Regroup<T>(a: seq<T>, b: seq<T>, c: seq<T>)
    ensures a + b + c == a + (b + c)
  {
  }

  lemma EncodeAllStep(t: Ty, vs: seq<Val>, i: nat, pos: nat, order: Order)
    requires AllHaveType(vs, t) && ValidOrder(order) && i < |vs|
    ensures var first := Encode(t, vs[i], pos, order);
      EncodeAll(t, vs[i..], pos, order) == first + EncodeAll(t, vs[i + 1..], pos + |first|, order)
  {
    hide Encode, HasType;
    assert vs[i..][1..] == vs[i + 1..];
  }

  lemma EncodeAllNone(t: Ty, vs: seq<Val>, pos: nat, order: Order)
    requires AllHaveType(vs, t) && ValidOrder(order) && vs == []
    ensures EncodeAll(t, vs, pos, order) == []
  {
  }

  lemma StringLengths(a: seq<byte>, b: seq<byte>)
    requires IsString(a) && IsString(b)
    ensures |a| <= MAX_INT32 && |b| <= MAX_INT32
  {
  }

  class Writer {
    var buf: seq<byte>

    constructor ()
      ensures buf == []
    {
      buf := [];
    }

    /** Appends `width` bytes, the most significant first, from which the number is read back at the
        place it was written. */
    method WriteInt(n: nat, width: nat)
      modifies this
      ensures buf == old(buf) + BigEndian(n, width)
      ensures MostSignificantFirst(buf[|old(buf)|..], n, width)
      ensures n < Pow256(width) ==> ReadUInt(buf, |old(buf)|, width) == Ok((n, |buf|))
    {
      hide BigEndian, Pow256, ReadUInt, MostSignificantFirst;
      WrittenMostSignificantFirst(n, width);
      buf := buf + BigEndian(n, width);
      assert buf[|old(buf)|..] == BigEndian(n, width);
      if n < Pow256(width) {
        assert At(buf, |old(buf)|, BigEndian(n, width));
        UIntBack(buf, |old(buf)|, n, width);
        assert |buf| == |old(buf)| + width;
      }
    }

    method WriteBytes(bytes: seq<byte>)
      modifies this
      ensures buf == old(buf) + bytes
    {
      buf := buf + bytes;
    }

    /** Strings and data: the length as Int32, then the bytes. */
    method WriteCounted(bytes: seq<byte>)
      requires |bytes| <= MAX_INT32
      modifies this
      ensures buf == old(buf) + EncodeBytes(bytes)
    {
      hide BigEndian, ReadUInt, Pow256, MostSignificantFirst;
      WriteInt(|bytes|, INT32_SIZE);
      WriteBytes(bytes);
    }

    /** Appends exactly the encoding of the value and touches nothing written before. */
    method Write(ty: Ty, v: Val, order: Order)
      requires HasType(v, ty) && ValidOrder(order)
      modifies this
      ensures buf == old(buf) + Encode(ty, v, |old(buf)|, order)
      decreases ty, 3
    {
      match ty {
        case TUInt(w) => WriteInt(v.n, w);
        case TBool => WriteByte(if v.b then 1 else 0);
        case TString => WriteCounted(v.utf8);
        case TData => WriteCounted(v.bytes);
        case TOpt(t) => WriteOption(t, v, order);
        case TSeq(t) => WriteElements(t, v.elements, order);
        case TDict => WriteDictionary(v.entries, order);
        case TRecord(ts) => WriteFields(ts, v.fields, order);
        case TEnum(ts) => WriteCase(ts, v, order);
      }
    }

    method WriteByte(b: byte)
      modifies this
      ensures buf == old(buf) + [b]
    {
      WriteInt(b, 1);
      assert BigEndian(b, 1) == [b];
    }

    method WriteOption(t: Ty, v: Val, order: Order)
      requires HasType(v, TOpt(t)) && ValidOrder(order)
      modifies this
      ensures buf == old(buf) + Encode(TOpt(t), v, |old(buf)|, order)
      decreases TOpt(t), 2
    {
      hide Encode, HasType, BigEndian, ReadUInt, Pow256, MostSignificantFirst;
      OptEncoded(t, v, |buf|, order);
      if v.VNone? {
        WriteByte(0);
      } else {
        WriteByte(1);
        Write(t, v.v, order);
      }
    }

    method WriteCase(ts: seq<Ty>, v: Val, order: Order)
      requires HasType(v, TEnum(ts)) && ValidOrder(order)
      modifies this
      ensures buf == old(buf) + Encode(TEnum(ts), v, |old(buf)|, order)
      decreases TEnum(ts), 2
    {
      hide Encode, HasType, BigEndian, ReadUInt, Pow256, MostSignificantFirst;
      EnumEncoded(ts, v, |buf|, order);
      WriteInt(v.variant + 1, INT32_SIZE);
      Write(ts[v.variant], v.payload, order);
    }

    method WriteElements(t: Ty, vs: seq<Val>, order: Order)
      requires |vs| <= MAX_INT32 && AllHaveType(vs, t) && ValidOrder(order)
      modifies this
      ensures buf == old(buf) + (Int32Bytes(|vs|) + EncodeAll(t, vs, |old(buf)| + 4, order))
      decreases t, 4
    {
      hide EncodeAll, Encode, HasType, BigEndian, ReadUInt, Pow256, MostSignificantFirst;
      ghost var content := EncodeAll(t, vs, |buf| + 4, order);
      WriteInt(|vs|, INT32_SIZE);
      ghost var counted := buf;
      assert vs[0..] == vs;
      for i := 0 to |vs|
        invariant buf + EncodeAll(t, vs[i..], |buf|, order) == counted + content
      {
        ghost var before := buf;
        EncodeAllStep(t, vs, i, |buf|, order);
        Write(t, vs[i], order);
        Regroup(before, Encode(t, vs[i], |before|, order), EncodeAll(t, vs[i + 1..], |buf|, order));
      }
      EncodeAllNone(t, vs[|vs|..], |buf|, order);
      assert buf == counted + content;
      Regroup(old(buf), Int32Bytes(|vs|), content);
    }

    method WriteDictionary(entries: Dict, order: Order)
      requires HasType(VDict(entries), TDict) && ValidOrder(order)
      modifies this
      ensures buf == old(buf) + Encode(TDict, VDict(entries), |old(buf)|, order)
    {
      hide BigEndian, ReadUInt, Pow256, MostSignificantFirst;
      var keys := order(|buf|, entries);
      assert Enumerates(keys, entries);
      ghost var content := EncodePairs(entries, keys);
      WriteInt(|entries|, INT32_SIZE);
      WritePairs(entries, keys);
      Regroup(old(buf), Int32Bytes(|entries|), content);
    }

    method WritePairs(entries: Dict, keys: seq<seq<byte>>)
      requires forall i :: 0 <= i < |keys| ==> keys[i] in entries && IsString(keys[i]) && IsString(entries[keys[i]])
      modifies this
      ensures buf == old(buf) + EncodePairs(entries, keys)
    {
      hide EncodeBytes, IsString;
      assert keys[0..] == keys;
      for i := 0 to |keys|
        invariant buf + EncodePairs(entries, keys[i..]) == old(buf) + EncodePairs(entries, keys)
      {
        ghost var before := buf;
        assert keys[i..][0] == keys[i] && keys[i..][1..] == keys[i + 1..];
        StringLengths(keys[i], entries[keys[i]]);
        WriteCounted(keys[i]);
        WriteCounted(entries[keys[i]]);
        ghost var pair := EncodeBytes(keys[i]) + EncodeBytes(entries[keys[i]]);
        assert buf == before + pair;
        Regroup(before, pair, EncodePairs(entries, keys[i + 1..]));
      }
    }

    method WriteFields(ts: seq<Ty>, vs: seq<Val>, order: Order)
      requires FieldsHaveType(vs, ts) && ValidOrder(order)
      modifies this
      ensures buf == old(buf) + EncodeFields(ts, vs, |old(buf)|, order)
      decreases ts, 0
    {
      hide Encode, HasType;
      if ts != [] {
        Write(ts[0], vs[0], order);
        WriteFields(ts[1..], vs[1..], order);
      }
    }
  }

  /** What is left in the buffer behind values already read. */
  function Behind<T>(read: seq<T>, rest: Reading<seq<T>>): Reading<seq<T>> {
    match rest case Err(e) => Err(e) case Ok((vs, end)) => Ok((read + vs, end))
  }

  lemma BehindNone<T>(read: seq<T>, rest: Reading<seq<T>>)
    ensures Behind([], rest) == rest
    ensures forall end :: rest == Ok(([], end)) ==> Behind(read, rest) == Ok((read, end))
  {
    if rest.Ok? {
      assert [] + rest.value.0 == rest.value.0;
      assert rest.value.0 == [] ==> read + rest.value.0 == read;
    }
  }

  lemma BehindStep<T>(read: seq<T>, v: T, rest: Reading<seq<T>>)
    ensures Behind(read, Behind([v], rest)) == Behind(read + [v], rest)
  {
    if rest.Ok? {
      assert read + ([v] + rest.value.0) == read + [v] + rest.value.0;
    }
  }

  class Reader {
    const data: seq<byte>
    var offset: nat

    constructor (data: seq<byte>)
      ensures this.data == data && offset == 0
    {
      this.data := data;
      offset := 0;
    }

    /** A call that returned a value left the cursor at its end; one that failed gave the fault. */
    ghost predicate Did<T>(r: Result<T, Fault>, reading: Reading<T>)
      reads this
    {
      match reading
      case Ok((v, end)) => r == Ok(v) && offset == end
      case Err(e) => r == Err(e)
    }

    method ReadInt(width: nat) returns (r: Result<nat, Fault>)
      modifies this
      ensures Did(r, ReadUInt(data, old(offset), width))
      ensures r.Ok? ==> old(offset) <= offset <= |data| && r.value == PlaceValue(data[old(offset)..offset])
    {
      if |data| < offset + width {
        return Err(BufferOverflow);
      }
      hide FromBigEndian, PlaceValue;
      ReadsPlaceValue(data[offset..offset + width]);
      r := Ok(FromBigEndian(data[offset..offset + width]));
      offset := offset + width;
    }

    method ReadLength() returns (r: Result<nat, Fault>)
      modifies this
      ensures Did(r, ReadCount(data, old(offset)))
      ensures r == Err(Trap) <==> old(offset) + INT32_SIZE <= |data| && data[old(offset)] >= 0x80
    {
      if offset + INT32_SIZE <= |data| {
        SignIsFirstBit(data, offset);
      }
      var u := ReadInt(INT32_SIZE);
      match u {
        case Err(e) => return Err(e);
        case Ok(n) =>
          var signed: int := if n <= MAX_INT32 then n else n - 0x1_0000_0000;
          if signed < 0 {
            return Err(Trap);
          }
          return Ok(signed);
      }
    }

    method ReadRaw() returns (r: Result<seq<byte>, Fault>)
      modifies this
      ensures Did(r, ReadBytes(data, old(offset)))
    {
      var n := ReadLength();
      match n {
        case Err(e) => return Err(e);
        case Ok(count) =>
          if |data| < offset + count {
            return Err(BufferOverflow);
          }
          r := Ok(data[offset..offset + count]);
          offset := offset + count;
      }
    }

    method ReadText() returns (r: Result<seq<byte>, Fault>)
      modifies this
      ensures Did(r, ReadString(data, old(offset)))
    {
      r := ReadRaw();
      if r.Ok? && !ValidUtf8(r.value) {
        r := Err(Trap);
      }
    }

    method Read(ty: Ty) returns (r: Result<Val, Fault>)
      modifies this
      ensures Did(r, Decode(ty, data, old(offset)))
      decreases ty, 1
    {
      match ty {
        case TUInt(w) =>
          var n := ReadInt(w);
          r := match n case Err(e) => Err(e) case Ok(x) => Ok(VUInt(x));
        case TBool =>
          var n := ReadInt(1);
          r := match n case Err(e) => Err(e) case Ok(x) => Ok(VBool(x != 0));
        case TString =>
          var s := ReadText();
          r := match s case Err(e) => Err(e) case Ok(x) => Ok(VString(x));
        case TData =>
          var s := ReadRaw();
          r := match s case Err(e) => Err(e) case Ok(x) => Ok(VData(x));
        case TOpt(t) => r := ReadOption(t);
        case TSeq(t) =>
          var vs := ReadElements(t);
          r := match vs case Err(e) => Err(e) case Ok(x) => Ok(VSeq(x));
        case TDict => r := ReadDictionary();
        case TRecord(ts) =>
          var vs := ReadFields(ts);
          r := match vs case Err(e) => Err(e) case Ok(x) => Ok(VRecord(x));
        case TEnum(ts) => r := ReadCase(ts);
      }
    }

    method ReadOption(t: Ty) returns (r: Result<Val, Fault>)
      modifies this
      ensures Did(r, Decode(TOpt(t), data, old(offset)))
      decreases t, 2
    {
      var tag := ReadInt(1);
      match tag {
        case Err(e) => return Err(e);
        case Ok(n) =>
          if n == 0 {
            return Ok(VNone);
          } else if n == 1 {
            var inner := Read(t);
            return match inner case Err(e) => Err(e) case Ok(v) => Ok(VSome(v));
          } else {
            return Err(UnexpectedOptionalTag);
          }
      }
    }

    method ReadCase(ts: seq<Ty>) returns (r: Result<Val, Fault>)
      modifies this
      ensures Did(r, Decode(TEnum(ts), data, old(offset)))
      decreases ts, 2
    {
      var u := ReadInt(INT32_SIZE);
      match u {
        case Err(e) => return Err(e);
        case Ok(n) =>
          var tag: int := if n <= MAX_INT32 then n else n - 0x1_0000_0000;
          if 1 <= tag <= |ts| {
            var payload := Read(ts[tag - 1]);
            return match payload case Err(e) => Err(e) case Ok(v) => Ok(VEnum(tag - 1, v));
          }
          return Err(UnexpectedEnumCase);
      }
    }

    /** The count and the elements of a sequence, appended one by one. */
    method ReadElements(t: Ty) returns (r: Result<seq<Val>, Fault>)
      modifies this
      ensures match ReadCount(data, old(offset))
              case Err(e) => r == Err(e)
              case Ok((n, start)) => Did(r, DecodeAll(t, data, start, n))
      decreases t, 2
    {
      hide ReadCount, Decode;
      var count := ReadLength();
      match count {
        case Err(e) => return Err(e);
        case Ok(n) =>
          ghost var start := offset;
          var elements := [];
          BehindNone([], DecodeAll(t, data, start, n));
          for i := 0 to n
            invariant DecodeAll(t, data, start, n) == Behind(elements, DecodeAll(t, data, offset, n - i))
          {
            var element := Read(t);
            match element {
              case Err(e) => return Err(e);
              case Ok(v) =>
                BehindStep(elements, v, DecodeAll(t, data, offset, n - i - 1));
                elements := elements + [v];
            }
          }
          BehindNone(elements, DecodeAll(t, data, offset, 0));
          return Ok(elements);
      }
    }

    method ReadDictionary() returns (r: Result<Val, Fault>)
      modifies this
      ensures Did(r, Decode(TDict, data, old(offset)))
    {
      hide ReadString, ReadCount;
      var count := ReadLength();
      match count {
        case Err(e) => return Err(e);
        case Ok(n) =>
          ghost var start := offset;
          var dict: Dict := map[];
          for i := 0 to n
            invariant ReadPairs(data, start, n, map[]) == ReadPairs(data, offset, n - i, dict)
          {
            var key := ReadText();
            if key.Err? {
              return Err(key.error);
            }
            var value := ReadText();
            if value.Err? {
              return Err(value.error);
            }
            dict := dict[key.value := value.value];
          }
          return Ok(VDict(dict));
      }
    }

    method ReadFields(ts: seq<Ty>) returns (r: Result<seq<Val>, Fault>)
      modifies this
      ensures Did(r, DecodeFields(ts, data, old(offset)))
      decreases ts, 0
    {
      if ts == [] {
        return Ok([]);
      }
      var first := Read(ts[0]);
      if first.Err? {
        return Err(first.error);
      }
      var rest := ReadFields(ts[1..]);
      return match rest case Err(e) => Err(e) case Ok(vs) => Ok([first.value] + vs);
    }
  }

  /** `lift`: read one value and refuse bytes behind it. */
  method LiftBuffer(ty: Ty, data: seq<byte>) returns (r: Result<Val, Fault>)
    requires CrossesEncoded(ty)
    ensures r == Lift(ty, data)
    ensures forall v | HasType(v, ty) && Spells(ty, v, data, 0, |data|) :: r == Ok(v)
  {
    hide HasType, Spells, Decode;
    forall v | HasType(v, ty) && Spells(ty, v, data, 0, |data|)
      ensures Lift(ty, data) == Ok(v)
    {
      SpelledIsRead(ty, v, data, 0, |data|);
    }
    var reader := new Reader(data);
    r := reader.Read(ty);
    if r.Ok? && reader.offset < |reader.data| {
      return Err(IncompleteData);
    }
  }

  /** `lower`: write into an empty buffer. */
  method LowerValue(ty: Ty, v: Val, order: Order) returns (bytes: seq<byte>)
    requires CrossesEncoded(ty) && HasType(v, ty) && ValidOrder(order)
    ensures bytes == Lower(ty, v, order)
    ensures Spells(ty, v, bytes, 0, |bytes|)
  {
    hide HasType, Spells, Encode;
    BuffersAreSpelled(ty, v, order, []);
    var writer := new Writer();
    writer.Write(ty, v, order);
    bytes := writer.buf;
  }
}
