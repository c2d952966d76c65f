/**
 The MessagePack formats the daemon speaks (MessagePack specification, section "Formats"):
 values, their canonical encoding, and a recursive decoder. Everything written can be read
 back; a non-negative signed integer comes back unsigned, because that is how it is stored.
 */
module Msgpack {
  import opened Bits

  /** A map holds its keys and values in turn. Floating point numbers are kept as their bits. */
  datatype Value =
    | Nil
    | Bool(b: bool)
    | UInt(u: nat)
    | Int(i: int)
    | Float(bits: nat)
    | Double(bits: nat)
    | Str(chars: seq<byte>)
    | Bin(bytes: seq<byte>)
    | Array(items: seq<Value>)
    | Map(items: seq<Value>)

  const TWO15: int := 0x8000
  const TWO63: int := 0x8000_0000_0000_0000

  /** What the integer and length widths of the format can hold. */
  predicate Fits(v: Value)
    decreases v
  {
    match v
    case Nil => true
    case Bool(_) => true
    case UInt(u) => u < TWO64
    case Int(i) => -TWO63 <= i < TWO63
    case Float(bits) => bits < TWO32
    case Double(bits) => bits < TWO64
    case Str(s) => |s| < TWO32
    case Bin(s) => |s| < TWO32
    case Array(items) => |items| < TWO32 && AllFit(items)
    case Map(items) => |items| % 2 == 0 && |items| / 2 < TWO32 && AllFit(items)
  }

  predicate AllFit(items: seq<Value>)
    decreases items
  {
    items == [] || (Fits(items[0]) && AllFit(items[1..]))
  }

  // ---- big-endian numbers ----

  function Be(n: nat, width: nat): (s: seq<byte>)
    ensures |s| == width
  {
    if width == 0 then [] else Be(n / TWO8, width - 1) + [n % TWO8]
  }

  function FromBe(s: seq<byte>): nat {
    if s == [] then 0 else FromBe(s[..|s| - 1]) * TWO8 + s[|s| - 1]
  }

  function Limit(width: nat): (r: nat)
    ensures r >= 1
  {
    if width == 0 then 1 else TWO8 * Limit(width - 1)
  }

  lemma Limits()
    ensures Limit(1) == TWO8 && Limit(2) == TWO16 && Limit(4) == TWO32 && Limit(8) == TWO64
  {
    assert Limit(2) == TWO8 * Limit(1);
    assert Limit(4) == TWO8 * Limit(3) && Limit(3) == TWO8 * Limit(2);
    assert Limit(6) == TWO8 * Limit(5) && Limit(5) == TWO8 * Limit(4);
    assert Limit(8) == TWO8 * Limit(7) && Limit(7) == TWO8 * Limit(6);
  }

  lemma {:induction false} FromBeBe(n: nat, width: nat)
    requires n < Limit(width)
    ensures FromBe(Be(n, width)) == n
  {
    if width > 0 {
      FromBeBe(n / TWO8, width - 1);
      assert Be(n, width)[..width - 1] == Be(n / TWO8, width - 1);
    }
  }

  lemma {:induction false} FromBeBound(s: seq<byte>)
    ensures FromBe(s) < Limit(|s|)
  {
    if s != [] {
      FromBeBound(s[..|s| - 1]);
    }
  }

  // ---- encoding ----

  function EncodeUInt(n: nat): seq<byte> {
    if n < 128 then [n]
    else if n < TWO8 then [0xcc] + Be(n, 1)
    else if n < TWO16 then [0xcd] + Be(n, 2)
    else if n < TWO32 then [0xce] + Be(n, 4)
    else [0xcf] + Be(n, 8)
  }

  /** Non-negative integers take the unsigned formats. */
  function EncodeInt(i: int): seq<byte>
    requires -TWO63 <= i < TWO63
  {
    if i >= 0 then EncodeUInt(i)
    else if i >= -32 then [i + TWO8]
    else if i >= -128 then [0xd0] + Be(i + TWO8, 1)
    else if i >= -TWO15 then [0xd1] + Be(i + TWO16, 2)
    else if i + TWO31 >= 0 then [0xd2] + Be(i + TWO32, 4)
    else [0xd3] + Be(i + TWO64, 8)
  }

  function StrTag(len: nat): seq<byte> {
    if len <= 31 then [0xa0 + len]
    else if len < TWO8 then [0xd9] + Be(len, 1)
    else if len < TWO16 then [0xda] + Be(len, 2)
    else [0xdb] + Be(len, 4)
  }

  function BinTag(len: nat): seq<byte> {
    if len < TWO8 then [0xc4] + Be(len, 1)
    else if len < TWO16 then [0xc5] + Be(len, 2)
    else [0xc6] + Be(len, 4)
  }

  function ArrayTag(count: nat): seq<byte> {
    if count <= 15 then [0x90 + count]
    else if count < TWO16 then [0xdc] + Be(count, 2)
    else [0xdd] + Be(count, 4)
  }

  function MapTag(count: nat): seq<byte> {
    if count <= 15 then [0x80 + count]
    else if count < TWO16 then [0xde] + Be(count, 2)
    else [0xdf] + Be(count, 4)
  }

  function Encode(v: Value): (s: seq<byte>)
    requires Fits(v)
    decreases v
  {
    match v
    case Nil => [0xc0]
    case Bool(b) => [if b then 0xc3 else 0xc2]
    case UInt(u) => EncodeUInt(u)
    case Int(i) => EncodeInt(i)
    case Float(bits) => [0xca] + Be(bits, 4)
    case Double(bits) => [0xcb] + Be(bits, 8)
    case Str(s) => StrTag(|s|) + s
    case Bin(s) => BinTag(|s|) + s
    case Array(items) => ArrayTag(|items|) + EncodeAll(items)
    case Map(items) => MapTag(|items| / 2) + EncodeAll(items)
  }

  function EncodeAll(items: seq<Value>): (s: seq<byte>)
    requires AllFit(items)
    decreases items
  {
    if items == [] then [] else Encode(items[0]) + EncodeAll(items[1..])
  }

  // ---- decoding ----

  datatype NumKind = Unsigned | Signed | Single | Real

  /** What the first byte says: a whole value, or the width of the number that follows it. */
  datatype Form =
    | Invalid
    | Whole(v: Value)
    | Number(kind: NumKind, width: nat)
    | Bytes(isStr: bool, width: nat, len: nat)
    | Compound(isMap: bool, width: nat, count: nat)

  function FormOf(t: byte): (f: Form)
    ensures f.Number? ==> f.width in {1, 2, 4, 8}
    ensures f.Bytes? ==> f.width in {0, 1, 2, 4} && f.len < 32
    ensures f.Compound? ==> f.width in {0, 2, 4} && f.count < 16
  {
    if t < 0x80 then Whole(UInt(t))
    else if t < 0x90 then Compound(true, 0, t - 0x80)
    else if t < 0xa0 then Compound(false, 0, t - 0x90)
    else if t < 0xc0 then Bytes(true, 0, t - 0xa0)
    else if t >= 0xe0 then Whole(Int(t - TWO8))
    else
      match t
      case 0xc0 => Whole(Nil)
      case 0xc2 => Whole(Bool(false))
      case 0xc3 => Whole(Bool(true))
      case 0xc4 => Bytes(false, 1, 0)
      case 0xc5 => Bytes(false, 2, 0)
      case 0xc6 => Bytes(false, 4, 0)
      case 0xca => Number(Single, 4)
      case 0xcb => Number(Real, 8)
      case 0xcc => Number(Unsigned, 1)
      case 0xcd => Number(Unsigned, 2)
      case 0xce => Number(Unsigned, 4)
      case 0xcf => Number(Unsigned, 8)
      case 0xd0 => Number(Signed, 1)
      case 0xd1 => Number(Signed, 2)
      case 0xd2 => Number(Signed, 4)
      case 0xd3 => Number(Signed, 8)
      case 0xd9 => Bytes(true, 1, 0)
      case 0xda => Bytes(true, 2, 0)
      case 0xdb => Bytes(true, 4, 0)
      case 0xdc => Compound(false, 2, 0)
      case 0xdd => Compound(false, 4, 0)
      case 0xde => Compound(true, 2, 0)
      case 0xdf => Compound(true, 4, 0)
      case _ => Invalid
  }

  function SignedOf(n: nat, width: nat): int {
    if n < Limit(width) / 2 then n else n - Limit(width)
  }

  function NumberOf(kind: NumKind, width: nat, n: nat): Value {
    match kind
    case Unsigned => UInt(n)
    case Signed => Int(SignedOf(n, width))
    case Single => Float(n)
    case Real => Double(n)
  }

  function MakeBytes(isStr: bool, s: seq<byte>): Value {
    if isStr then Str(s) else Bin(s)
  }

  function MakeCompound(isMap: bool, items: seq<Value>): Value {
    if isMap then Map(items) else Array(items)
  }

  function Children(isMap: bool, count: nat): nat {
    if isMap then 2 * count else count
  }

  /** Length or count of a form: stored in the first byte, or in the bytes that follow it. */
  function Extent(data: seq<byte>, pos: nat, width: nat, inline: nat): nat
    requires pos + 1 + width <= |data|
  {
    if width == 0 then inline else FromBe(data[pos + 1..pos + 1 + width])
  }

  datatype Decoded<T> = Rejected | Ok(v: T, end: nat)

  function Wrapped(isMap: bool, r: Decoded<seq<Value>>): Decoded<Value> {
    match r case Rejected => Rejected case Ok(items, end) => Ok(MakeCompound(isMap, items), end)
  }

  /** One value at a position, and where it ends. */
  function Decode(data: seq<byte>, pos: nat): (r: Decoded<Value>)
    ensures r.Ok? ==> pos < r.end <= |data|
    decreases |data| - pos, 0
  {
    if pos >= |data| then Rejected
    else
      match FormOf(data[pos])
      case Invalid => Rejected
      case Whole(v) => Ok(v, pos + 1)
      case Number(kind, width) =>
        if pos + 1 + width > |data| then Rejected
        else Ok(NumberOf(kind, width, FromBe(data[pos + 1..pos + 1 + width])), pos + 1 + width)
      case Bytes(isStr, width, len) =>
        if pos + 1 + width > |data| then Rejected
        else
          var start := pos + 1 + width;
          var n := Extent(data, pos, width, len);
          if start + n > |data| then Rejected else Ok(MakeBytes(isStr, data[start..start + n]), start + n)
      case Compound(isMap, width, count) =>
        if pos + 1 + width > |data| then Rejected
        else Wrapped(isMap, DecodeMany(data, pos + 1 + width, Children(isMap, Extent(data, pos, width, count))))
  }

  /** A given number of values, one after the other. */
  function DecodeMany(data: seq<byte>, pos: nat, n: nat): (r: Decoded<seq<Value>>)
    ensures r.Ok? ==> pos + n <= r.end && (pos <= |data| ==> r.end <= |data|) && |r.v| == n
    decreases |data| - pos, 1, n
  {
    if n == 0 then Ok([], pos)
    else
      match Decode(data, pos)
      case Rejected => Rejected
      case Ok(v, mid) =>
        match DecodeMany(data, mid, n - 1)
        case Rejected => Rejected
        case Ok(vs, end) => Ok([v] + vs, end)
  }

  // ---- round trip ----

  /** The value as it comes back: non-negative signed integers have become unsigned. */
  function Canon(v: Value): Value
    decreases v
  {
    match v
    case Int(i) => if i >= 0 then UInt(i) else v
    case Array(items) => Array(CanonAll(items))
    case Map(items) => Map(CanonAll(items))
    case _ => v
  }

  function CanonAll(items: seq<Value>): (r: seq<Value>)
    ensures |r| == |items|
    decreases items
  {
    if items == [] then [] else [Canon(items[0])] + CanonAll(items[1..])
  }

  predicate At(data: seq<byte>, pos: nat, s: seq<byte>) {
    pos + |s| <= |data| && data[pos..pos + |s|] == s
  }

  lemma AtConcat(data: seq<byte>, pos: nat, a: seq<byte>, b: seq<byte>)
    requires At(data, pos, a + b)
    ensures At(data, pos, a) && At(data, pos + |a|, b)
  {
    assert data[pos..pos + |a|] == (a + b)[..|a|] == a;
    assert data[pos + |a|..pos + |a + b|] == (a + b)[|a|..] == b;
  }

  lemma TaggedNumber(data: seq<byte>, pos: nat, tag: byte, n: nat, width: nat)
    requires At(data, pos, [tag] + Be(n, width)) && n < Limit(width)
    ensures data[pos] == tag && FromBe(data[pos + 1..pos + 1 + width]) == n
  {
    AtConcat(data, pos, [tag], Be(n, width));
    assert data[pos] == data[pos..pos + 1][0];
    FromBeBe(n, width);
  }

  lemma FirstByte(data: seq<byte>, pos: nat, tag: byte)
    requires At(data, pos, [tag])
    ensures data[pos] == tag
  {
    assert data[pos] == data[pos..pos + 1][0];
  }

  lemma RoundTripUInt(data: seq<byte>, pos: nat, n: nat)
    requires n < TWO64 && At(data, pos, EncodeUInt(n))
    ensures Decode(data, pos) == Ok(UInt(n), pos + |EncodeUInt(n)|)
  {
    Limits();
    hide FromBe, Be, Limit;
    if n < 128 {
      FirstByte(data, pos, n);
    } else if n < TWO8 {
      TaggedNumber(data, pos, 0xcc, n, 1);
    } else if n < TWO16 {
      TaggedNumber(data, pos, 0xcd, n, 2);
    } else if n < TWO32 {
      TaggedNumber(data, pos, 0xce, n, 4);
    } else {
      TaggedNumber(data, pos, 0xcf, n, 8);
    }
  }

  lemma RoundTripInt(data: seq<byte>, pos: nat, i: int)
    requires -TWO63 <= i < TWO63 && At(data, pos, EncodeInt(i))
    ensures Decode(data, pos) == Ok(Canon(Int(i)), pos + |EncodeInt(i)|)
  {
    Limits();
    hide FromBe, Be, Limit, EncodeUInt;
    if i >= 0 {
      RoundTripUInt(data, pos, i);
    } else if i >= -32 {
      FirstByte(data, pos, i + TWO8);
    } else if i >= -128 {
      TaggedNumber(data, pos, 0xd0, i + TWO8, 1);
    } else if i >= -TWO15 {
      TaggedNumber(data, pos, 0xd1, i + TWO16, 2);
    } else if i + TWO31 >= 0 {
      TaggedNumber(data, pos, 0xd2, i + TWO32, 4);
    } else {
      TaggedNumber(data, pos, 0xd3, i + TWO64, 8);
    }
  }

  /** A length or count tag is read back as it was written. */
  lemma ReadBytesTag(data: seq<byte>, pos: nat, isStr: bool, len: nat)
    requires len < TWO32 && At(data, pos, if isStr then StrTag(len) else BinTag(len))
    ensures var tag := if isStr then StrTag(len) else BinTag(len);
            var f := FormOf(data[pos]);
            f.Bytes? && f.isStr == isStr && |tag| == 1 + f.width && Extent(data, pos, f.width, f.len) == len
  {
    Limits();
    hide FromBe, Be, Limit;
    if isStr && len <= 31 {
      FirstByte(data, pos, 0xa0 + len);
    } else if len < TWO8 {
      TaggedNumber(data, pos, if isStr then 0xd9 else 0xc4, len, 1);
    } else if len < TWO16 {
      TaggedNumber(data, pos, if isStr then 0xda else 0xc5, len, 2);
    } else {
      TaggedNumber(data, pos, if isStr then 0xdb else 0xc6, len, 4);
    }
  }

  lemma ReadCompoundTag(data: seq<byte>, pos: nat, isMap: bool, count: nat)
    requires count < TWO32 && At(data, pos, if isMap then MapTag(count) else ArrayTag(count))
    ensures var tag := if isMap then MapTag(count) else ArrayTag(count);
            var f := FormOf(data[pos]);
            f.Compound? && f.isMap == isMap && |tag| == 1 + f.width && Extent(data, pos, f.width, f.count) == count
  {
    Limits();
    hide FromBe, Be, Limit;
    if count <= 15 {
      FirstByte(data, pos, (if isMap then 0x80 else 0x90) + count);
    } else if count < TWO16 {
      TaggedNumber(data, pos, if isMap then 0xde else 0xdc, count, 2);
    } else {
      TaggedNumber(data, pos, if isMap then 0xdf else 0xdd, count, 4);
    }
  }

  lemma RoundTripBytes(data: seq<byte>, pos: nat, isStr: bool, s: seq<byte>)
    requires |s| < TWO32 && At(data, pos, (if isStr then StrTag(|s|) else BinTag(|s|)) + s)
    ensures Decode(data, pos) == Ok(MakeBytes(isStr, s), pos + |(if isStr then StrTag(|s|) else BinTag(|s|)) + s|)
  {
    var tag := if isStr then StrTag(|s|) else BinTag(|s|);
    AtConcat(data, pos, tag, s);
    ReadBytesTag(data, pos, isStr, |s|);
    hide StrTag, BinTag, FormOf, FromBe;
  }

  /** Whatever was written at a position is decoded from there, and decoding ends behind it. */
  lemma {:induction false} RoundTrip(data: seq<byte>, pos: nat, v: Value)
    requires Fits(v) && At(data, pos, Encode(v))
    ensures Decode(data, pos) == Ok(Canon(v), pos + |Encode(v)|)
    decreases v
  {
    Limits();
    match v
    case Nil => FirstByte(data, pos, 0xc0);
    case Bool(b) => FirstByte(data, pos, if b then 0xc3 else 0xc2);
    case UInt(u) => RoundTripUInt(data, pos, u);
    case Int(i) => RoundTripInt(data, pos, i);
    case Float(bits) => TaggedNumber(data, pos, 0xca, bits, 4);
    case Double(bits) => TaggedNumber(data, pos, 0xcb, bits, 8);
    case Str(s) => RoundTripBytes(data, pos, true, s);
    case Bin(s) => RoundTripBytes(data, pos, false, s);
    case Array(items) => RoundTripCompound(data, pos, v);
    case Map(items) => RoundTripCompound(data, pos, v);
  }

  lemma {:induction false} RoundTripCompound(data: seq<byte>, pos: nat, v: Value)
    requires Fits(v) && (v.Array? || v.Map?) && At(data, pos, Encode(v))
    ensures Decode(data, pos) == Ok(Canon(v), pos + |Encode(v)|)
    decreases v, 0
  {
    hide FormOf, FromBe, ArrayTag, MapTag, DecodeMany, EncodeAll, CanonAll, Extent;
    var count := if v.Map? then |v.items| / 2 else |v.items|;
    var tag := if v.Map? then MapTag(count) else ArrayTag(count);
    AtConcat(data, pos, tag, EncodeAll(v.items));
    ReadCompoundTag(data, pos, v.Map?, count);
    RoundTripAll(data, pos + |tag|, v.items);
  }

  lemma {:induction false} RoundTripAll(data: seq<byte>, pos: nat, items: seq<Value>)
    requires AllFit(items) && At(data, pos, EncodeAll(items))
    ensures DecodeMany(data, pos, |items|) == Ok(CanonAll(items), pos + |EncodeAll(items)|)
    decreases items
  {
    hide Decode, Encode, Fits, Canon;
    if items != [] {
      AtConcat(data, pos, Encode(items[0]), EncodeAll(items[1..]));
      RoundTrip(data, pos, items[0]);
      RoundTripAll(data, pos + |Encode(items[0])|, items[1..]);
    }
  }

  /** The whole-message form. */
  lemma MessageRoundTrip(v: Value)
    requires Fits(v)
    ensures Decode(Encode(v), 0) == Ok(Canon(v), |Encode(v)|)
  {
    assert Encode(v)[0..|Encode(v)|] == Encode(v);
    RoundTrip(Encode(v), 0, v);
  }
}
