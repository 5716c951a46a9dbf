/** The wire format of the generated UniFFI bindings: one description of types, the bytes each
    value is written as, and what a reader makes of any bytes.

    Offsets are absolute positions in the buffer. A dictionary is written in whatever order the
    writer iterates it; that order is an arbitrary function of the position it is written at.
  */
module UniffiCodec {
  import opened Common

  type byte = n: nat | n < 256

  const MAX_INT32: nat := 0x7FFF_FFFF
  const INT32_SIZE: nat := 4

  datatype Ty =
    | TUInt(width: nat)               // UInt8, UInt32, UInt64; Double as its 64-bit pattern
    | TBool
    | TString
    | TData
    | TOpt(inner: Ty)
    | TSeq(element: Ty)
    | TDict                           // [String: String]
    | TRecord(fields: seq<Ty>)
    | TEnum(variants: seq<Ty>)        // the payload of each case, a record

  type Dict = map<seq<byte>, seq<byte>>

  datatype Val =
    | VUInt(n: nat)
    | VBool(b: bool)
    | VString(utf8: seq<byte>)
    | VData(bytes: seq<byte>)
    | VNone
    | VSome(v: Val)
    | VSeq(elements: seq<Val>)
    | VDict(entries: Dict)
    | VRecord(fields: seq<Val>)
    | VEnum(variant: nat, payload: Val)

  /** What a read can end with besides a value. A trap stops the process; it is not thrown. */
  datatype Fault = BufferOverflow | IncompleteData | UnexpectedOptionalTag | UnexpectedEnumCase | Trap

  // ----- well-formed UTF-8 -----

  predicate Continuation(b: byte) { 0x80 <= b <= 0xBF }

  predicate ValidUtf8(s: seq<byte>) {
    if s == [] then true
    else if s[0] <= 0x7F then ValidUtf8(s[1..])
    else if 0xC2 <= s[0] <= 0xDF then |s| >= 2 && Continuation(s[1]) && ValidUtf8(s[2..])
    else if 0xE0 <= s[0] <= 0xEF then
      && |s| >= 3 && Continuation(s[1]) && Continuation(s[2])
      && (s[0] == 0xE0 ==> s[1] >= 0xA0) && (s[0] == 0xED ==> s[1] <= 0x9F)
      && ValidUtf8(s[3..])
    else if 0xF0 <= s[0] <= 0xF4 then
      && |s| >= 4 && Continuation(s[1]) && Continuation(s[2]) && Continuation(s[3])
      && (s[0] == 0xF0 ==> s[1] >= 0x90) && (s[0] == 0xF4 ==> s[1] <= 0x8F)
      && ValidUtf8(s[4..])
    else false
  }

  // ----- values of a type -----

  function Pow256(w: nat): (p: nat)
    ensures p > 0
  {
    if w == 0 then 1 else 256 * Pow256(w - 1)
  }

  predicate IsString(s: seq<byte>) { |s| <= MAX_INT32 && ValidUtf8(s) }

  predicate HasType(v: Val, ty: Ty)
    decreases ty, 0
  {
    match ty
    case TUInt(w) => v.VUInt? && v.n < Pow256(w)
    case TBool => v.VBool?
    case TString => v.VString? && IsString(v.utf8)
    case TData => v.VData? && |v.bytes| <= MAX_INT32
    case TOpt(t) => v.VNone? || (v.VSome? && HasType(v.v, t))
    case TSeq(t) => v.VSeq? && |v.elements| <= MAX_INT32 && AllHaveType(v.elements, t)
    case TDict =>
      v.VDict? && |v.entries| <= MAX_INT32 && forall k :: k in v.entries ==> IsString(k) && IsString(v.entries[k])
    case TRecord(ts) => v.VRecord? && FieldsHaveType(v.fields, ts)
    case TEnum(ts) => v.VEnum? && v.variant < |ts| && |ts| <= MAX_INT32 && HasType(v.payload, ts[v.variant])
  }

  predicate AllHaveType(vs: seq<Val>, t: Ty)
    decreases t, 1
  {
    forall i :: 0 <= i < |vs| ==> HasType(vs[i], t)
  }

  predicate FieldsHaveType(vs: seq<Val>, ts: seq<Ty>)
    decreases ts, 0
  {
    if ts == [] then vs == []
    else vs != [] && HasType(vs[0], ts[0]) && FieldsHaveType(vs[1..], ts[1..])
  }

  // ----- writing -----

  function BigEndian(n: nat, w: nat): (bs: seq<byte>)
    ensures |bs| == w
  {
    if w == 0 then [] else BigEndian(n / 256, w - 1) + [n % 256]
  }

  function Int32Bytes(n: nat): (bs: seq<byte>)
    ensures |bs| == 4
  {
    BigEndian(n, INT32_SIZE)
  }

  function EncodeBytes(s: seq<byte>): seq<byte> { Int32Bytes(|s|) + s }

  /** The order a writer iterates a dictionary in, when it writes it at some position. */
  type Order = (nat, Dict) -> seq<seq<byte>>

  ghost predicate Enumerates(keys: seq<seq<byte>>, m: Dict) {
    && |keys| == |m|
    && (forall i :: 0 <= i < |keys| ==> keys[i] in m)
    && NoDuplicates(keys)
    && (forall k :: k in m ==> k in keys)
  }

  ghost predicate ValidOrder(order: Order) {
    forall pos: nat, m: Dict :: Enumerates(order(pos, m), m)
  }

  ghost function EncodePairs(m: Dict, keys: seq<seq<byte>>): seq<byte>
    requires forall i :: 0 <= i < |keys| ==> keys[i] in m
  {
    if keys == [] then []
    else EncodeBytes(keys[0]) + EncodeBytes(m[keys[0]]) + EncodePairs(m, keys[1..])
  }

  ghost function Encode(ty: Ty, v: Val, pos: nat, order: Order): seq<byte>
    requires HasType(v, ty) && ValidOrder(order)
    decreases ty, 0, 0
  {
    match ty
    case TUInt(w) => BigEndian(v.n, w)
    case TBool => [if v.b then 1 else 0]
    case TString => EncodeBytes(v.utf8)
    case TData => EncodeBytes(v.bytes)
    case TOpt(t) => if v.VNone? then [0] else [1] + Encode(t, v.v, pos + 1, order)
    case TSeq(t) => Int32Bytes(|v.elements|) + EncodeAll(t, v.elements, pos + 4, order)
    case TDict =>
      assert Enumerates(order(pos, v.entries), v.entries);
      Int32Bytes(|v.entries|) + EncodePairs(v.entries, order(pos, v.entries))
    case TRecord(ts) => EncodeFields(ts, v.fields, pos, order)
    case TEnum(ts) => Int32Bytes(v.variant + 1) + Encode(ts[v.variant], v.payload, pos + 4, order)
  }

  ghost function EncodeAll(t: Ty, vs: seq<Val>, pos: nat, order: Order): seq<byte>
    requires AllHaveType(vs, t) && ValidOrder(order)
    decreases t, 1, |vs|
  {
    if vs == [] then []
    else
      var first := Encode(t, vs[0], pos, order);
      first + EncodeAll(t, vs[1..], pos + |first|, order)
  }

  ghost function EncodeFields(ts: seq<Ty>, vs: seq<Val>, pos: nat, order: Order): seq<byte>
    requires FieldsHaveType(vs, ts) && ValidOrder(order)
    decreases ts, 0, 0
  {
    if ts == [] then []
    else
      var first := Encode(ts[0], vs[0], pos, order);
      first + EncodeFields(ts[1..], vs[1..], pos + |first|, order)
  }

  // ----- reading -----

  function FromBigEndian(bs: seq<byte>): nat {
    if bs == [] then 0 else FromBigEndian(bs[..|bs| - 1]) * 256 + bs[|bs| - 1]
  }

  type Reading<T> = Result<(T, nat), Fault>

  function ReadUInt(data: seq<byte>, off: nat, w: nat): Reading<nat> {
    if off + w > |data| then Err(BufferOverflow)
    else Ok((FromBigEndian(data[off..off + w]), off + w))
  }

  /** A signed 32-bit integer in two's complement. */
  function ReadInt32(data: seq<byte>, off: nat): Reading<int> {
    match ReadUInt(data, off, INT32_SIZE)
    case Err(e) => Err(e)
    case Ok((u, end)) => Ok((if u <= MAX_INT32 then u else u - 0x1_0000_0000, end))
  }

  /** A negative count makes the range in readBytes, or in the element loop, trap. */
  function ReadCount(data: seq<byte>, off: nat): Reading<nat> {
    match ReadInt32(data, off)
    case Err(e) => Err(e)
    case Ok((n, end)) => if n < 0 then Err(Trap) else Ok((n, end))
  }

  function ReadBytes(data: seq<byte>, off: nat): Reading<seq<byte>> {
    match ReadCount(data, off)
    case Err(e) => Err(e)
    case Ok((n, start)) => if start + n > |data| then Err(BufferOverflow) else Ok((data[start..start + n], start + n))
  }

  function ReadString(data: seq<byte>, off: nat): Reading<seq<byte>> {
    match ReadBytes(data, off)
    case Err(e) => Err(e)
    case Ok((s, end)) => if ValidUtf8(s) then Ok((s, end)) else Err(Trap)
  }

  /** `dict[key] = value`, n times. */
  function ReadPairs(data: seq<byte>, off: nat, n: nat, dict: Dict): Reading<Dict>
    decreases n
  {
    if n == 0 then Ok((dict, off))
    else
      match ReadString(data, off)
      case Err(e) => Err(e)
      case Ok((key, mid)) =>
        match ReadString(data, mid)
        case Err(e) => Err(e)
        case Ok((value, end)) => ReadPairs(data, end, n - 1, dict[key := value])
  }

  function Decode(ty: Ty, data: seq<byte>, off: nat): Reading<Val>
    decreases ty, 0, 0
  {
    match ty
    case TUInt(w) =>
      (match ReadUInt(data, off, w) case Err(e) => Err(e) case Ok((n, end)) => Ok((VUInt(n), end)))
    case TBool =>
      (match ReadUInt(data, off, 1) case Err(e) => Err(e) case Ok((n, end)) => Ok((VBool(n != 0), end)))
    case TString =>
      (match ReadString(data, off) case Err(e) => Err(e) case Ok((s, end)) => Ok((VString(s), end)))
    case TData =>
      (match ReadBytes(data, off) case Err(e) => Err(e) case Ok((s, end)) => Ok((VData(s), end)))
    case TOpt(t) =>
      (match ReadUInt(data, off, 1)
       case Err(e) => Err(e)
       case Ok((tag, mid)) =>
         if tag == 0 then Ok((VNone, mid))
         else if tag == 1 then
           (match Decode(t, data, mid) case Err(e) => Err(e) case Ok((v, end)) => Ok((VSome(v), end)))
         else Err(UnexpectedOptionalTag))
    case TSeq(t) =>
      (match ReadCount(data, off)
       case Err(e) => Err(e)
       case Ok((n, mid)) =>
         match DecodeAll(t, data, mid, n) case Err(e) => Err(e) case Ok((vs, end)) => Ok((VSeq(vs), end)))
    case TDict =>
      (match ReadCount(data, off)
       case Err(e) => Err(e)
       case Ok((n, mid)) =>
         match ReadPairs(data, mid, n, map[]) case Err(e) => Err(e) case Ok((m, end)) => Ok((VDict(m), end)))
    case TRecord(ts) =>
      (match DecodeFields(ts, data, off) case Err(e) => Err(e) case Ok((vs, end)) => Ok((VRecord(vs), end)))
    case TEnum(ts) =>
      (match ReadInt32(data, off)
       case Err(e) => Err(e)
       case Ok((tag, mid)) =>
         if 1 <= tag <= |ts| then
           (match Decode(ts[tag - 1], data, mid)
            case Err(e) => Err(e)
            case Ok((v, end)) => Ok((VEnum(tag - 1, v), end)))
         else Err(UnexpectedEnumCase))
  }

  function DecodeAll(t: Ty, data: seq<byte>, off: nat, n: nat): Reading<seq<Val>>
    decreases t, 1, n
  {
    if n == 0 then Ok(([], off))
    else
      match Decode(t, data, off)
      case Err(e) => Err(e)
      case Ok((v, mid)) =>
        match DecodeAll(t, data, mid, n - 1)
        case Err(e) => Err(e)
        case Ok((vs, end)) => Ok(([v] + vs, end))
  }

  function DecodeFields(ts: seq<Ty>, data: seq<byte>, off: nat): Reading<seq<Val>>
    decreases ts, 0, 0
  {
    if ts == [] then Ok(([], off))
    else
      match Decode(ts[0], data, off)
      case Err(e) => Err(e)
      case Ok((v, mid)) =>
        match DecodeFields(ts[1..], data, mid)
        case Err(e) => Err(e)
        case Ok((vs, end)) => Ok(([v] + vs, end))
  }

  /** The types that cross the boundary as a buffer holding their encoding. Integers, doubles and
      booleans cross as they are, and a string crosses as its bytes without a length. */
  predicate CrossesEncoded(ty: Ty) {
    ty.TData? || ty.TOpt? || ty.TSeq? || ty.TDict? || ty.TRecord? || ty.TEnum?
  }

  ghost function Lower(ty: Ty, v: Val, order: Order): seq<byte>
    requires CrossesEncoded(ty) && HasType(v, ty) && ValidOrder(order)
  {
    Encode(ty, v, 0, order)
  }

  function Lift(ty: Ty, data: seq<byte>): Result<Val, Fault>
    requires CrossesEncoded(ty)
  {
    match Decode(ty, data, 0)
    case Err(e) => Err(e)
    case Ok((v, end)) => if end < |data| then Err(IncompleteData) else Ok(v)
  }

  function LowerString(utf8: seq<byte>): seq<byte> { utf8 }

  function LiftString(data: seq<byte>): Result<seq<byte>, Fault> {
    if ValidUtf8(data) then Ok(data) else Err(Trap)
  }
}
