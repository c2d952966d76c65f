/**
 The MessagePack formats as a relation (MessagePack specification, section "Formats"): which
 byte strings are an encoding of a value. The decoder reads exactly this relation, and what is
 written is, for every value, its only shortest encoding.
 */
module Formats {
  import opened Bits
  import opened Msgpack

  /** Most significant byte first. */
  function Big(s: seq<byte>): nat {
    if s == [] then 0 else s[0] * Limit(|s| - 1) + Big(s[1..])
  }

  predicate TwosComplement(s: seq<byte>, i: int) {
    0 <= 2 * i + Limit(|s|) < 2 * Limit(|s|) && (i - Big(s)) % Limit(|s|) == 0
  }

  /** A first byte and a number of `width` bytes. */
  predicate Tagged(s: seq<byte>, tag: byte, width: nat, n: nat) {
    |s| == 1 + width && s[0] == tag && Big(s[1..]) == n
  }

  predicate TaggedInt(s: seq<byte>, tag: byte, width: nat, i: int) {
    |s| == 1 + width && s[0] == tag && TwosComplement(s[1..], i)
  }

  predicate IsUInt(s: seq<byte>, n: nat) {
    || (|s| == 1 && s[0] < 0x80 && n == s[0])
    || Tagged(s, 0xcc, 1, n) || Tagged(s, 0xcd, 2, n) || Tagged(s, 0xce, 4, n) || Tagged(s, 0xcf, 8, n)
  }

  predicate IsInt(s: seq<byte>, i: int) {
    || (|s| == 1 && s[0] >= 0xe0 && i + 0x100 == s[0])
    || TaggedInt(s, 0xd0, 1, i) || TaggedInt(s, 0xd1, 2, i) || TaggedInt(s, 0xd2, 4, i) || TaggedInt(s, 0xd3, 8, i)
  }

  predicate StrHead(s: seq<byte>, n: nat) {
    (|s| == 1 && n < 32 && s[0] == 0xa0 + n) || Tagged(s, 0xd9, 1, n) || Tagged(s, 0xda, 2, n) || Tagged(s, 0xdb, 4, n)
  }

  predicate BinHead(s: seq<byte>, n: nat) {
    Tagged(s, 0xc4, 1, n) || Tagged(s, 0xc5, 2, n) || Tagged(s, 0xc6, 4, n)
  }

  predicate ArrayHead(s: seq<byte>, n: nat) {
    (|s| == 1 && n < 16 && s[0] == 0x90 + n) || Tagged(s, 0xdc, 2, n) || Tagged(s, 0xdd, 4, n)
  }

  predicate MapHead(s: seq<byte>, n: nat) {
    (|s| == 1 && n < 16 && s[0] == 0x80 + n) || Tagged(s, 0xde, 2, n) || Tagged(s, 0xdf, 4, n)
  }

  predicate Head(s: seq<byte>, isMap: bool, size: nat) {
    if isMap then size % 2 == 0 && MapHead(s, size / 2) else ArrayHead(s, size)
  }

  /** The bytes are an encoding of the value. */
  ghost predicate Denotes(s: seq<byte>, v: Value)
    decreases v, 1
  {
    match v
    case Nil => s == [0xc0]
    case Bool(b) => s == [if b then 0xc3 else 0xc2]
    case UInt(n) => IsUInt(s, n)
    case Int(i) => IsInt(s, i)
    case Float(bits) => Tagged(s, 0xca, 4, bits)
    case Double(bits) => Tagged(s, 0xcb, 8, bits)
    case Str(x) => |s| >= |x| && s[|s| - |x|..] == x && StrHead(s[..|s| - |x|], |x|)
    case Bin(x) => |s| >= |x| && s[|s| - |x|..] == x && BinHead(s[..|s| - |x|], |x|)
    case Array(items) => exists n :: 0 <= n <= |s| && Head(s[..n], false, |items|) && DenotesAll(s[n..], items)
    case Map(items) => exists n :: 0 <= n <= |s| && Head(s[..n], true, |items|) && DenotesAll(s[n..], items)
  }

  /** The bytes are encodings of the values, one behind the other. */
  ghost predicate DenotesAll(s: seq<byte>, items: seq<Value>)
    decreases items
  {
    if items == [] then s == []
    else exists n :: 0 <= n <= |s| && Denotes(s[..n], items[0]) && DenotesAll(s[n..], items[1..])
  }

  // ---- numbers ----

  lemma {:induction false} BigSnoc(s: seq<byte>, b: byte)
    ensures Big(s + [b]) == Big(s) * TWO8 + b
  {
    if s == [] {
      assert [b][1..] == [];
    } else {
      assert (s + [b])[1..] == s[1..] + [b];
      BigSnoc(s[1..], b);
      assert Limit(|s|) == TWO8 * Limit(|s| - 1);
      assert s[0] * (TWO8 * Limit(|s| - 1)) == s[0] * Limit(|s| - 1) * TWO8;
    }
  }

  lemma {:induction false} BigIsFromBe(s: seq<byte>)
    ensures Big(s) == FromBe(s)
  {
    if s != [] {
      var n := |s| - 1;
      BigIsFromBe(s[..n]);
      BigSnoc(s[..n], s[n]);
      assert s[..n] + [s[n]] == s;
    }
  }

  lemma {:induction false} BeBack(s: seq<byte>)
    ensures Be(FromBe(s), |s|) == s
  {
    if s != [] {
      BeBack(s[..|s| - 1]);
    }
  }

  /** A number of fixed width is written in one way only. */
  lemma TaggedIsBe(s: seq<byte>, tag: byte, width: nat, n: nat)
    ensures Tagged(s, tag, width, n) <==> n < Limit(width) && s == [tag] + Be(n, width)
  {
    if Tagged(s, tag, width, n) {
      BigIsFromBe(s[1..]);
      BeBack(s[1..]);
      FromBeBound(s[1..]);
      assert s == [s[0]] + s[1..];
    }
    if n < Limit(width) && s == [tag] + Be(n, width) {
      assert s[1..] == Be(n, width);
      FromBeBe(n, width);
      BigIsFromBe(Be(n, width));
    }
  }

  /** The signed reading of a number: it differs by a multiple of the range and lies in the signed range. */
  lemma SignedIsTwosComplement(s: seq<byte>, i: int)
    requires s != []
    ensures TwosComplement(s, i) <==> i == SignedOf(FromBe(s), |s|)
  {
    BigIsFromBe(s);
    FromBeBound(s);
    var m, n := Limit(|s|), FromBe(s);
    assert m == TWO8 * Limit(|s| - 1) && m / 2 == 128 * Limit(|s| - 1);
    Residue(i, SignedOf(n, |s|), n, m);
  }

  lemma Residue(i: int, j: int, n: int, m: int)
    requires m > 0 && m % 2 == 0 && 0 <= n < m && j == if n < m / 2 then n else n - m
    ensures 0 <= 2 * i + m < 2 * m && (i - n) % m == 0 <==> i == j
  {
    if 0 <= 2 * i + m < 2 * m && (i - n) % m == 0 {
      var q := (i - n) / m;
      assert i - n == m * q;
      if q >= 1 {
        Times(m, q, 1);
      } else if q <= -2 {
        Times(m, -2, q);
      }
    }
    Divides(m);
  }

  lemma Times(m: int, a: int, b: int)
    requires a >= b && m > 0
    ensures m * a >= m * b
  {
  }

  lemma Divides(m: int)
    requires m > 0
    ensures 0 % m == 0 && (-m) % m == 0
  {
    var q := (-m) / m;
    assert -m == m * q + (-m) % m;
    if q >= 0 {
      Times(m, q, 0);
    } else if q <= -2 {
      Times(m, -2, q);
    }
  }

  // ---- the decoder reads exactly the formats ----

  lemma TaggedAt(data: seq<byte>, pos: nat, s: seq<byte>, tag: byte, width: nat, n: nat)
    requires At(data, pos, s) && Tagged(s, tag, width, n)
    ensures data[pos] == tag && pos + 1 + width <= |data| && FromBe(data[pos + 1..pos + 1 + width]) == n
  {
    assert data[pos] == data[pos..pos + |s|][0];
    assert data[pos + 1..pos + 1 + width] == data[pos..pos + |s|][1..] == s[1..];
    BigIsFromBe(s[1..]);
  }

  lemma SignedAt(data: seq<byte>, pos: nat, s: seq<byte>, tag: byte, width: nat, i: int)
    requires At(data, pos, s) && TaggedInt(s, tag, width, i) && width > 0
    ensures data[pos] == tag && pos + 1 + width <= |data| && SignedOf(FromBe(data[pos + 1..pos + 1 + width]), width) == i
  {
    BigIsFromBe(s[1..]);
    TaggedAt(data, pos, s, tag, width, Big(s[1..]));
    SignedIsTwosComplement(s[1..], i);
  }

  lemma FirstAt(data: seq<byte>, pos: nat, s: seq<byte>)
    requires At(data, pos, s) && s != []
    ensures pos < |data| && data[pos] == s[0]
  {
    assert data[pos] == data[pos..pos + |s|][0];
  }

  lemma UIntDecoded(data: seq<byte>, pos: nat, s: seq<byte>, n: nat)
    requires At(data, pos, s) && IsUInt(s, n)
    ensures Decode(data, pos) == Ok(UInt(n), pos + |s|)
  {
    hide FromBe, Tagged;
    if Tagged(s, 0xcc, 1, n) {
      TaggedAt(data, pos, s, 0xcc, 1, n);
    } else if Tagged(s, 0xcd, 2, n) {
      TaggedAt(data, pos, s, 0xcd, 2, n);
    } else if Tagged(s, 0xce, 4, n) {
      TaggedAt(data, pos, s, 0xce, 4, n);
    } else if Tagged(s, 0xcf, 8, n) {
      TaggedAt(data, pos, s, 0xcf, 8, n);
    } else {
      FirstAt(data, pos, s);
    }
    TaggedLength(s);
  }

  lemma TaggedLength(s: seq<byte>)
    ensures forall tag: byte, width: nat, n: nat :: Tagged(s, tag, width, n) ==> |s| == 1 + width
    ensures forall tag: byte, width: nat, i: int :: TaggedInt(s, tag, width, i) ==> |s| == 1 + width
  {
    hide Big, TwosComplement;
  }

  lemma IntDecoded(data: seq<byte>, pos: nat, s: seq<byte>, i: int)
    requires At(data, pos, s) && IsInt(s, i)
    ensures Decode(data, pos) == Ok(Int(i), pos + |s|)
  {
    hide FromBe, TaggedInt, SignedOf;
    if TaggedInt(s, 0xd0, 1, i) {
      SignedAt(data, pos, s, 0xd0, 1, i);
    } else if TaggedInt(s, 0xd1, 2, i) {
      SignedAt(data, pos, s, 0xd1, 2, i);
    } else if TaggedInt(s, 0xd2, 4, i) {
      SignedAt(data, pos, s, 0xd2, 4, i);
    } else if TaggedInt(s, 0xd3, 8, i) {
      SignedAt(data, pos, s, 0xd3, 8, i);
    } else {
      FirstAt(data, pos, s);
    }
    TaggedLength(s);
  }

  /** A header tells the form, and the length or count. */
  lemma BytesHeadAt(data: seq<byte>, pos: nat, h: seq<byte>, isStr: bool, n: nat)
    requires At(data, pos, h) && if isStr then StrHead(h, n) else BinHead(h, n)
    ensures h != [] && pos < |data|
    ensures var f := FormOf(data[pos]);
            f.Bytes? && f.isStr == isStr && |h| == 1 + f.width && Extent(data, pos, f.width, f.len) == n
  {
    hide FromBe, Tagged;
    TaggedLength(h);
    FirstAt(data, pos, h);
    if isStr {
      if Tagged(h, 0xd9, 1, n) {
        TaggedAt(data, pos, h, 0xd9, 1, n);
      } else if Tagged(h, 0xda, 2, n) {
        TaggedAt(data, pos, h, 0xda, 2, n);
      } else if Tagged(h, 0xdb, 4, n) {
        TaggedAt(data, pos, h, 0xdb, 4, n);
      }
    } else if Tagged(h, 0xc4, 1, n) {
      TaggedAt(data, pos, h, 0xc4, 1, n);
    } else if Tagged(h, 0xc5, 2, n) {
      TaggedAt(data, pos, h, 0xc5, 2, n);
    } else {
      TaggedAt(data, pos, h, 0xc6, 4, n);
    }
  }

  lemma HeadAt(data: seq<byte>, pos: nat, h: seq<byte>, isMap: bool, size: nat)
    requires At(data, pos, h) && Head(h, isMap, size)
    ensures h != [] && pos < |data|
    ensures var f := FormOf(data[pos]);
            && f.Compound? && f.isMap == isMap && |h| == 1 + f.width
            && Children(isMap, Extent(data, pos, f.width, f.count)) == size
  {
    hide FromBe, Tagged;
    var n := if isMap then size / 2 else size;
    TaggedLength(h);
    FirstAt(data, pos, h);
    if isMap {
      if Tagged(h, 0xde, 2, n) {
        TaggedAt(data, pos, h, 0xde, 2, n);
      } else if Tagged(h, 0xdf, 4, n) {
        TaggedAt(data, pos, h, 0xdf, 4, n);
      }
    } else if Tagged(h, 0xdc, 2, n) {
      TaggedAt(data, pos, h, 0xdc, 2, n);
    } else if Tagged(h, 0xdd, 4, n) {
      TaggedAt(data, pos, h, 0xdd, 4, n);
    }
  }

  lemma BytesDecoded(data: seq<byte>, pos: nat, h: seq<byte>, isStr: bool, x: seq<byte>)
    requires At(data, pos, h + x) && if isStr then StrHead(h, |x|) else BinHead(h, |x|)
    ensures Decode(data, pos) == Ok(MakeBytes(isStr, x), pos + |h + x|)
  {
    AtConcat(data, pos, h, x);
    BytesHeadAt(data, pos, h, isStr, |x|);
    hide FormOf, FromBe, Extent, StrHead, BinHead;
  }

  lemma WholeDecoded(data: seq<byte>, pos: nat, t: byte)
    requires At(data, pos, [t]) && FormOf(t).Whole?
    ensures Decode(data, pos) == Ok(FormOf(t).v, pos + 1)
  {
    FirstAt(data, pos, [t]);
    hide FormOf, FromBe, Extent, DecodeMany;
  }

  lemma FloatDecoded(data: seq<byte>, pos: nat, s: seq<byte>, v: Value)
    requires At(data, pos, s)
    requires (v.Float? && Tagged(s, 0xca, 4, v.bits)) || (v.Double? && Tagged(s, 0xcb, 8, v.bits))
    ensures Decode(data, pos) == Ok(v, pos + |s|)
  {
    TaggedAt(data, pos, s, s[0], |s| - 1, v.bits);
    hide FromBe, Extent, DecodeMany, Big;
  }

  /** Whatever encoding stands at a position is decoded from there, and decoding ends behind it. */
  lemma {:induction false} DenotesDecoded(data: seq<byte>, pos: nat, s: seq<byte>, v: Value)
    requires At(data, pos, s) && Denotes(s, v)
    ensures Decode(data, pos) == Ok(v, pos + |s|)
    decreases v, 1
  {
    hide StrHead, BinHead, IsUInt, IsInt, Tagged, Decode, Head, At;
    match v
    case Nil => WholeDecoded(data, pos, 0xc0);
    case Bool(b) => WholeDecoded(data, pos, if b then 0xc3 else 0xc2);
    case UInt(n) => UIntDecoded(data, pos, s, n);
    case Int(i) => IntDecoded(data, pos, s, i);
    case Float(_) => FloatDecoded(data, pos, s, v);
    case Double(_) => FloatDecoded(data, pos, s, v);
    case Str(x) =>
      assert s == s[..|s| - |x|] + x;
      BytesDecoded(data, pos, s[..|s| - |x|], true, x);
    case Bin(x) =>
      assert s == s[..|s| - |x|] + x;
      BytesDecoded(data, pos, s[..|s| - |x|], false, x);
    case Array(items) =>
      var n :| 0 <= n <= |s| && Head(s[..n], false, |items|) && DenotesAll(s[n..], items);
      assert s == s[..n] + s[n..];
      CompoundDecoded(data, pos, s[..n], s[n..], v);
    case Map(items) =>
      var n :| 0 <= n <= |s| && Head(s[..n], true, |items|) && DenotesAll(s[n..], items);
      assert s == s[..n] + s[n..];
      CompoundDecoded(data, pos, s[..n], s[n..], v);
  }

  lemma {:induction false} CompoundDecoded(data: seq<byte>, pos: nat, h: seq<byte>, rest: seq<byte>, v: Value)
    requires (v.Array? || v.Map?) && At(data, pos, h + rest) && Head(h, v.Map?, |v.items|) && DenotesAll(rest, v.items)
    ensures Decode(data, pos) == Ok(v, pos + |h + rest|)
    decreases v, 0
  {
    AtConcat(data, pos, h, rest);
    HeadAt(data, pos, h, v.Map?, |v.items|);
    AllDecoded(data, pos + |h|, rest, v.items);
    hide FormOf, FromBe, Extent, Head, DecodeMany, DenotesAll;
  }

  lemma {:induction false} AllDecoded(data: seq<byte>, pos: nat, s: seq<byte>, items: seq<Value>)
    requires At(data, pos, s) && DenotesAll(s, items)
    ensures DecodeMany(data, pos, |items|) == Ok(items, pos + |s|)
    decreases items
  {
    hide Decode, Denotes;
    if items != [] {
      var n :| 0 <= n <= |s| && Denotes(s[..n], items[0]) && DenotesAll(s[n..], items[1..]);
      assert s == s[..n] + s[n..];
      AtConcat(data, pos, s[..n], s[n..]);
      DenotesDecoded(data, pos, s[..n], items[0]);
      AllDecoded(data, pos + n, s[n..], items[1..]);
      assert [items[0]] + items[1..] == items;
    }
  }

  lemma TaggedFrom(data: seq<byte>, pos: nat, width: nat)
    requires pos + 1 + width <= |data|
    ensures Tagged(data[pos..pos + 1 + width], data[pos], width, FromBe(data[pos + 1..pos + 1 + width]))
    ensures width > 0 ==>
              TaggedInt(data[pos..pos + 1 + width], data[pos], width, SignedOf(FromBe(data[pos + 1..pos + 1 + width]), width))
  {
    var s := data[pos..pos + 1 + width];
    assert s[1..] == data[pos + 1..pos + 1 + width];
    BigIsFromBe(s[1..]);
    if width > 0 {
      SignedIsTwosComplement(s[1..], SignedOf(FromBe(s[1..]), width));
    }
  }

  lemma BytesHeadFrom(data: seq<byte>, pos: nat)
    requires pos < |data| && FormOf(data[pos]).Bytes? && pos + 1 + FormOf(data[pos]).width <= |data|
    ensures var f := FormOf(data[pos]);
            var h, n := data[pos..pos + 1 + f.width], Extent(data, pos, f.width, f.len);
            if f.isStr then StrHead(h, n) else BinHead(h, n)
  {
    TaggedFrom(data, pos, FormOf(data[pos]).width);
    hide FromBe, Tagged;
  }

  lemma HeadFrom(data: seq<byte>, pos: nat)
    requires pos < |data| && FormOf(data[pos]).Compound? && pos + 1 + FormOf(data[pos]).width <= |data|
    ensures var f := FormOf(data[pos]);
            Head(data[pos..pos + 1 + f.width], f.isMap, Children(f.isMap, Extent(data, pos, f.width, f.count)))
  {
    TaggedFrom(data, pos, FormOf(data[pos]).width);
    hide FromBe, Tagged;
  }

  /** What is decoded stood there in one of the formats. */
  lemma {:induction false} DecodedDenotes(data: seq<byte>, pos: nat)
    requires Decode(data, pos).Ok?
    ensures pos < Decode(data, pos).end <= |data| && Denotes(data[pos..Decode(data, pos).end], Decode(data, pos).v)
    decreases |data| - pos, 0
  {
    hide FormOf, Extent, StrHead, BinHead, Head, FromBe, DecodeMany, DenotesAll, NumberOf, IsUInt, IsInt, Tagged;
    match FormOf(data[pos])
    case Whole(v) =>
      WholeDenotes(data[pos]);
      assert data[pos..pos + 1] == [data[pos]];
    case Number(kind, width) => NumberDenotes(data, pos, kind, width);
    case Bytes(isStr, width, len) =>
      BytesHeadFrom(data, pos);
      var start, n := pos + 1 + width, Extent(data, pos, width, len);
      var s := data[pos..start + n];
      assert s[..1 + width] == data[pos..start] && s[1 + width..] == data[start..start + n];
    case Compound(isMap, width, count) =>
      HeadFrom(data, pos);
      var start, size := pos + 1 + width, Children(isMap, Extent(data, pos, width, count));
      AllDenote(data, start, size);
      var r := Decode(data, pos);
      var s := data[pos..r.end];
      assert s[..1 + width] == data[pos..start] && s[1 + width..] == data[start..r.end];
      assert r.v == MakeCompound(isMap, DecodeMany(data, start, size).v);
      assert Head(s[..1 + width], isMap, |r.v.items|) && DenotesAll(s[1 + width..], r.v.items);
  }

  lemma WholeDenotes(t: byte)
    requires FormOf(t).Whole?
    ensures Denotes([t], FormOf(t).v)
  {
    hide Big, TwosComplement;
  }

  lemma NumberDenotes(data: seq<byte>, pos: nat, kind: NumKind, width: nat)
    requires pos + 1 + width <= |data| && FormOf(data[pos]) == Number(kind, width)
    ensures var end := pos + 1 + width; Denotes(data[pos..end], NumberOf(kind, width, FromBe(data[pos + 1..end])))
  {
    TaggedFrom(data, pos, width);
    hide FromBe, SignedOf, Tagged, TaggedInt, DenotesAll;
  }

  lemma {:induction false} AllDenote(data: seq<byte>, pos: nat, n: nat)
    requires pos <= |data| && DecodeMany(data, pos, n).Ok?
    ensures pos <= DecodeMany(data, pos, n).end <= |data|
    ensures DenotesAll(data[pos..DecodeMany(data, pos, n).end], DecodeMany(data, pos, n).v)
    decreases |data| - pos, 1, n
  {
    hide Decode, Denotes;
    if n > 0 {
      DecodedDenotes(data, pos);
      var mid := Decode(data, pos).end;
      AllDenote(data, mid, n - 1);
      var r := DecodeMany(data, pos, n);
      var s := data[pos..r.end];
      assert s[..mid - pos] == data[pos..mid] && s[mid - pos..] == data[mid..r.end];
      assert r.v[1..] == DecodeMany(data, mid, n - 1).v;
    }
  }

  /** The decoder reads a whole byte string as a value if and only if it is an encoding of that value. */
  lemma DecodesExactlyTheFormats(s: seq<byte>, v: Value)
    ensures Decode(s, 0) == Ok(v, |s|) <==> Denotes(s, v)
  {
    hide Decode, Denotes;
    assert s[0..|s|] == s;
    if Denotes(s, v) {
      DenotesDecoded(s, 0, s, v);
    }
    if Decode(s, 0) == Ok(v, |s|) {
      DecodedDenotes(s, 0);
    }
  }

  // ---- what is written is the only shortest encoding ----

  /** Another encoding is longer. */
  predicate Least(e: seq<byte>, s: seq<byte>) {
    s == e || |e| < |s|
  }

  lemma LeastUInt(s: seq<byte>, n: nat)
    requires IsUInt(s, n)
    ensures Least(EncodeUInt(n), s)
  {
    Limits();
    TaggedIsBe(s, 0xcc, 1, n);
    TaggedIsBe(s, 0xcd, 2, n);
    TaggedIsBe(s, 0xce, 4, n);
    TaggedIsBe(s, 0xcf, 8, n);
    hide Tagged, Be, Limit;
    assert |s| == 1 ==> s == [s[0]];
  }

  lemma TaggedIntIsBe(s: seq<byte>, tag: byte, width: nat, i: int)
    requires TaggedInt(s, tag, width, i) && i < 0 && width > 0
    ensures 0 <= 2 * i + Limit(width) && s == [tag] + Be(i + Limit(width), width)
  {
    SignedIsTwosComplement(s[1..], i);
    BeBack(s[1..]);
    FromBeBound(s[1..]);
    assert s == [s[0]] + s[1..];
  }

  lemma LeastInt(s: seq<byte>, i: int)
    requires -TWO63 <= i < 0 && IsInt(s, i)
    ensures Least(EncodeInt(i), s)
  {
    Limits();
    if TaggedInt(s, 0xd0, 1, i) {
      TaggedIntIsBe(s, 0xd0, 1, i);
    } else if TaggedInt(s, 0xd1, 2, i) {
      TaggedIntIsBe(s, 0xd1, 2, i);
    } else if TaggedInt(s, 0xd2, 4, i) {
      TaggedIntIsBe(s, 0xd2, 4, i);
    } else if TaggedInt(s, 0xd3, 8, i) {
      TaggedIntIsBe(s, 0xd3, 8, i);
    } else {
      assert s == [s[0]];
    }
    hide TaggedInt, Be, Limit;
  }

  lemma LeastBytesHead(h: seq<byte>, isStr: bool, n: nat)
    requires if isStr then StrHead(h, n) else BinHead(h, n)
    ensures Least(if isStr then StrTag(n) else BinTag(n), h)
  {
    Limits();
    TaggedIsBe(h, if isStr then 0xd9 else 0xc4, 1, n);
    TaggedIsBe(h, if isStr then 0xda else 0xc5, 2, n);
    TaggedIsBe(h, if isStr then 0xdb else 0xc6, 4, n);
    hide Tagged, Be, Limit;
    assert |h| == 1 ==> h == [h[0]];
  }

  lemma LeastHead(h: seq<byte>, isMap: bool, size: nat)
    requires Head(h, isMap, size)
    ensures Least(if isMap then MapTag(size / 2) else ArrayTag(size), h)
  {
    Limits();
    var n := if isMap then size / 2 else size;
    TaggedIsBe(h, if isMap then 0xde else 0xdc, 2, n);
    TaggedIsBe(h, if isMap then 0xdf else 0xdd, 4, n);
    hide Tagged, Be, Limit;
    assert |h| == 1 ==> h == [h[0]];
  }

  /** Of two pieces, both least. */
  lemma LeastConcat(e: seq<byte>, f: seq<byte>, s: seq<byte>, n: nat)
    requires n <= |s| && Least(e, s[..n]) && Least(f, s[n..])
    ensures Least(e + f, s)
  {
    assert s == s[..n] + s[n..];
  }

  lemma LeastFixed(s: seq<byte>, v: Value)
    requires Fits(v) && (v.Nil? || v.Bool? || v.Float? || v.Double?) && Denotes(s, v)
    ensures Least(Encode(v), s)
  {
    if v.Float? {
      TaggedIsBe(s, 0xca, 4, v.bits);
    } else if v.Double? {
      TaggedIsBe(s, 0xcb, 8, v.bits);
    }
    hide Tagged, Be, DenotesAll;
  }

  lemma LeastBytes(s: seq<byte>, v: Value)
    requires Fits(v) && (v.Str? || v.Bin?) && Denotes(s, v)
    ensures Least(Encode(v), s)
  {
    var x := if v.Str? then v.chars else v.bytes;
    var n := |s| - |x|;
    LeastBytesHead(s[..n], v.Str?, |x|);
    hide StrHead, BinHead, StrTag, BinTag;
    LeastConcat(if v.Str? then StrTag(|x|) else BinTag(|x|), x, s, n);
  }

  /** Every encoding of a value is the one that is written, or longer. */
  lemma {:induction false} EncodeIsLeast(s: seq<byte>, v: Value)
    requires Fits(v) && Denotes(s, Canon(v))
    ensures Least(Encode(v), s)
    decreases v
  {
    hide IsUInt, IsInt, EncodeUInt, EncodeInt, Head, Tagged, Least;
    match v
    case UInt(n) => LeastUInt(s, n);
    case Int(i) =>
      if i >= 0 {
        LeastUInt(s, i);
        NonNegative(i);
      } else {
        LeastInt(s, i);
      }
    case Str(_) => LeastBytes(s, v);
    case Bin(_) => LeastBytes(s, v);
    case Array(items) =>
      var n :| 0 <= n <= |s| && Head(s[..n], false, |items|) && DenotesAll(s[n..], CanonAll(items));
      LeastCompound(s, v, n);
    case Map(items) =>
      var n :| 0 <= n <= |s| && Head(s[..n], true, |items|) && DenotesAll(s[n..], CanonAll(items));
      LeastCompound(s, v, n);
    case _ => LeastFixed(s, v);
  }

  lemma NonNegative(i: nat)
    requires i < TWO63
    ensures EncodeInt(i) == EncodeUInt(i)
  {
  }

  lemma {:induction false} LeastCompound(s: seq<byte>, v: Value, n: nat)
    requires Fits(v) && (v.Array? || v.Map?) && n <= |s|
    requires Head(s[..n], v.Map?, |v.items|) && DenotesAll(s[n..], CanonAll(v.items))
    ensures Least(Encode(v), s)
    decreases v, 0
  {
    LeastHead(s[..n], v.Map?, |v.items|);
    EncodeAllIsLeast(s[n..], v.items);
    hide Head, ArrayTag, MapTag, DenotesAll, CanonAll, EncodeAll;
    LeastConcat(if v.Map? then MapTag(|v.items| / 2) else ArrayTag(|v.items|), EncodeAll(v.items), s, n);
  }

  lemma {:induction false} EncodeAllIsLeast(s: seq<byte>, items: seq<Value>)
    requires AllFit(items) && DenotesAll(s, CanonAll(items))
    ensures Least(EncodeAll(items), s)
    decreases items
  {
    hide Denotes, Encode, Canon, Fits;
    if items != [] {
      var done := CanonAll(items);
      var n :| 0 <= n <= |s| && Denotes(s[..n], done[0]) && DenotesAll(s[n..], done[1..]);
      assert done[1..] == CanonAll(items[1..]);
      EncodeIsLeast(s[..n], items[0]);
      EncodeAllIsLeast(s[n..], items[1..]);
      LeastConcat(Encode(items[0]), EncodeAll(items[1..]), s, n);
    }
  }

  /** The only shortest encoding of a value. */
  ghost predicate Shortest(e: seq<byte>, v: Value) {
    Denotes(e, v) && forall s :: Denotes(s, v) ==> s == e || |e| < |s|
  }

  lemma EncodeIsShortest(v: Value)
    requires Fits(v)
    ensures Shortest(Encode(v), Canon(v))
  {
    MessageRoundTrip(v);
    DecodesExactlyTheFormats(Encode(v), Canon(v));
    hide Encode, Denotes, Canon, Fits;
    forall s | Denotes(s, Canon(v))
      ensures s == Encode(v) || |Encode(v)| < |s|
    {
      EncodeIsLeast(s, v);
    }
  }
}
