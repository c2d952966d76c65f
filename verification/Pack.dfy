/**
 The daemon's own packing interface: whole messages are written through the builder and
 read back through the tree parser, and typed accessors take values out of the tree.
 */
module Pack {
  import opened Bits
  import opened Msgpack
  import opened PagedLayout
  import opened TreeParser
  import B = Builder
  import F = Formats
  import Writer

  /** Packs a container: the bytes are its canonical encoding, the only shortest one. */
  method PackMessage(g: Geometry, v: Value) returns (data: seq<byte>)
    requires Usable(g) && Fits(v) && (v.Map? || v.Array?)
    ensures data == Encode(v) && F.Shortest(data, Canon(v))
  {
    F.EncodeIsShortest(v);
    hide B.Linked, B.Stream, B.Tail, B.Render, Encode, Fits, AllFit, EncodeAll, B.Filled, F.Shortest;
    var sink := new Writer.Sink();
    var b := new B.Builder(g, sink);
    B.FitsItems(v);
    b.Begin(v.Map?);
    ghost var at, b0, s0 := b.current.pos, b.builds, B.Stream(b.segs);
    b.WriteItems(v.items);
    B.FilledParts(b0, b.builds, at, |v.items|);
    OutermostRender(b0, b.builds, B.Stream(b.segs), at, v);
    var ok := b.Complete();
    sink.FlushMessage();
    data := sink.data;
  }

  lemma OutermostRender(b0: map<Pos, B.Record>, b: map<Pos, B.Record>, s: seq<B.Tok>, at: Pos, v: Value)
    requires Fits(v) && (v.Map? || v.Array?) && AllFit(v.items) && B.FitsInside(v.Map?, v.items)
    requires at in b0 && b0[at].isMap == v.Map? && B.Filled(b0, b, at, |v.items|)
    requires B.Tail(b0, b, [B.Tag(at)], s, EncodeAll(v.items))
    ensures B.Render(b, s) == Encode(v)
  {
    hide EncodeAll, AllFit;
    var u := s[1..];
    assert s == [B.Tag(at)] + u;
    B.RenderConcat(b, [B.Tag(at)], u);
    B.PairsComplete(b[at], |v.items|);
    assert B.Render(b, [B.Tag(at)]) == B.TagBytes(b[at]) + B.Render(b, []);
  }

  /**
   What one side packs, the other side reads: the same tree, with integers in canonical form,
   whenever the message is shorter than 2^32 bytes or holds no map that leads the parser astray.
   */
  method SendAndReceive(g: Geometry, v: Value) returns (data: seq<byte>, r: Outcome, nodes: seq<Node>)
    requires Usable(g) && Fits(v) && (v.Map? || v.Array?) && |Encode(v)| < TWO63
    ensures data == Encode(v) && !r.Refused? && (r.Astray? <==> Misled(data, 0, 1))
    ensures |data| < TWO32 ==> r.Accepted?
    ensures r.Accepted? ==> Represents(data, nodes, 0, Canon(v))
  {
    hide Encode, Decode, Represents, Fits, Canon, Misled;
    data := PackMessage(g, v);
    MessageRoundTrip(v);
    var outcome, parsed, size := ParseTree(data);
    r, nodes := outcome, parsed;
  }

  // ---- accessors ----

  datatype Access<T> = Got(v: T) | BadType | BadValue

  const INT_LIMIT: int := 0x8000_0000

  /** A signed integer may be stored unsigned. */
  function GetInt(v: Value): Access<int> {
    match v
    case Int(i) => if -INT_LIMIT <= i < INT_LIMIT then Got(i) else BadValue
    case UInt(u) => if u < INT_LIMIT then Got(u) else BadValue
    case _ => BadType
  }

  /** An unsigned integer of `width` bytes must be stored unsigned. */
  function GetUInt(v: Value, width: nat): Access<nat> {
    match v
    case UInt(u) => if u < Limit(width) then Got(u) else BadValue
    case _ => BadType
  }

  function GetBool(v: Value): Access<bool> {
    match v case Bool(b) => Got(b) case _ => BadType
  }

  function GetBin(v: Value): Access<seq<byte>> {
    match v case Bin(s) => Got(s) case _ => BadType
  }

  /** A string becomes a C string, so a zero byte inside it is refused. */
  function GetStr(v: Value): Access<seq<byte>> {
    match v case Str(s) => if 0 in s then BadValue else Got(s) case _ => BadType
  }

  /** Every int comes back from the wire, although non-negative ones are stored unsigned; wider ones are refused. */
  lemma IntRoundTrip(i: int)
    requires -TWO63 <= i < TWO63
    ensures var r := Decode(Encode(Int(i)), 0); r.Ok? && GetInt(r.v) == if -0x8000_0000 <= i <= 0x7fff_ffff then Got(i) else BadValue
  {
    hide Decode, Encode;
    MessageRoundTrip(Int(i));
  }

  /** So does every unsigned integer of a width, and a wider one is refused. */
  lemma UIntRoundTrip(u: nat, width: nat)
    requires u < TWO64
    ensures var r := Decode(Encode(UInt(u)), 0); r.Ok? && GetUInt(r.v, width) == if u < Limit(width) then Got(u) else BadValue
  {
    hide Decode, Encode;
    MessageRoundTrip(UInt(u));
  }

  /** What each accessor takes: values of its own type, in its range; a string only without zero bytes. */
  lemma AccessorsTake(v: Value)
    ensures forall i :: GetInt(v) == Got(i) <==>
              -0x8000_0000 <= i <= 0x7fff_ffff && match v case Int(j) => j == i case UInt(u) => u == i case _ => false
    ensures forall u: nat, width: nat :: GetUInt(v, width) == Got(u) <==> v == UInt(u) && u < Limit(width)
    ensures forall b :: GetBool(v) == Got(b) <==> v == Bool(b)
    ensures forall s :: GetBin(v) == Got(s) <==> v == Bin(s)
    ensures forall s :: GetStr(v) == Got(s) <==> v == Str(s) && 0 !in s
  {
  }

  // ---- keys ----

  datatype Lookup<T> = Absent | Twice | Found(v: T)

  /** The value under a key; a key that occurs twice is an error of the message. */
  function Find(items: seq<Value>, key: seq<byte>): Lookup<Value>
    decreases |items|
  {
    if |items| < 2 then Absent
    else if items[0] != Str(key) then Find(items[2..], key)
    else if Find(items[2..], key) == Absent then Found(items[1])
    else Twice
  }

  /** Key i of an object. */
  predicate KeyAt(items: seq<Value>, i: nat, key: seq<byte>) {
    2 * i + 1 < |items| && items[2 * i] == Str(key)
  }

  /** A lookup tells no occurrence of a key from two, and finds the value of the only one. */
  lemma {:induction false} FindMeans(items: seq<Value>, key: seq<byte>)
    ensures match Find(items, key)
            case Absent => forall i: nat :: !KeyAt(items, i, key)
            case Twice => exists i: nat, j: nat :: i < j && KeyAt(items, i, key) && KeyAt(items, j, key)
            case Found(v) => exists i: nat :: KeyAt(items, i, key) && v == items[2 * i + 1]
                                              && forall j: nat :: KeyAt(items, j, key) ==> j == i
    decreases |items|
  {
    if |items| >= 2 {
      var rest := items[2..];
      FindMeans(rest, key);
      assert forall i: nat :: KeyAt(items, i, key) ==> i == 0 || KeyAt(rest, i - 1, key);
      match Find(rest, key)
      case Absent =>
        assert items[0] == Str(key) ==> KeyAt(items, 0, key);
      case Twice =>
        var i: nat, j: nat :| i < j && KeyAt(rest, i, key) && KeyAt(rest, j, key);
        assert KeyAt(items, i + 1, key) && KeyAt(items, j + 1, key);
      case Found(v) =>
        var i: nat :| KeyAt(rest, i, key) && v == rest[2 * i + 1] && forall j: nat :: KeyAt(rest, j, key) ==> j == i;
        assert KeyAt(items, i + 1, key) && rest[2 * i + 1] == items[2 * (i + 1) + 1];
        assert items[0] == Str(key) ==> KeyAt(items, 0, key);
    }
  }

  /** The key lookup of the tree, over the arena: one pass over all pairs. */
  method FindNode(data: seq<byte>, nodes: seq<Node>, at: nat, key: seq<byte>, ghost v: Value) returns (r: Lookup<nat>)
    requires Represents(data, nodes, at, v) && v.Map? && |v.items| % 2 == 0
    ensures var want := Find(v.items, key);
            && (r.Absent? <==> want.Absent?) && (r.Twice? <==> want.Twice?)
            && (r.Found? ==> Represents(data, nodes, r.v, want.v))
  {
    hide Represents, Find;
    MapNode(data, nodes, at, v);
    FindEnds(v.items, key);
    var count, first := nodes[at].count, nodes[at].children;
    r := Absent;
    var i := 0;
    while i < count
      invariant 0 <= i <= count && |v.items| == 2 * count && !r.Twice?
      invariant r.Absent? ==> Find(v.items, key) == Find(v.items[2 * i..], key)
      invariant r.Found? ==> match Find(v.items[2 * i..], key)
                             case Absent => Find(v.items, key).Found? && Represents(data, nodes, r.v, Find(v.items, key).v)
                             case _ => Find(v.items, key).Twice?
    {
      KeyNode(data, nodes, first + 2 * i, v.items[2 * i], key);
      FindFrom(v.items, i, key);
      assert Represents(data, nodes, first + (2 * i + 1), v.items[2 * i + 1]);
      var k := nodes[first + 2 * i];
      if k.Span? && k.isStr && k.len == |key| && data[k.off..k.off + k.len] == key {
        if r.Found? {
          return Twice;
        }
        r := Found(first + 2 * i + 1);
      }
      i := i + 1;
    }
  }

  lemma FindEnds(items: seq<Value>, key: seq<byte>)
    requires |items| % 2 == 0
    ensures items[0..] == items && Find(items[|items|..], key) == Absent
  {
  }

  lemma FindFrom(items: seq<Value>, i: nat, key: seq<byte>)
    requires 2 * i + 1 < |items|
    ensures Find(items[2 * i..], key) ==
            if items[2 * i] != Str(key) then Find(items[2 * (i + 1)..], key)
            else if Find(items[2 * (i + 1)..], key) == Absent then Found(items[2 * i + 1])
            else Twice
  {
    assert items[2 * i..][2..] == items[2 * (i + 1)..];
  }

  lemma MapNode(data: seq<byte>, nodes: seq<Node>, at: nat, v: Value)
    requires Represents(data, nodes, at, v) && v.Map?
    ensures at < |nodes| && nodes[at].Container? && nodes[at].isMap && |v.items| == 2 * nodes[at].count
    ensures forall j :: 0 <= j < |v.items| ==> Represents(data, nodes, nodes[at].children + j, v.items[j])
  {
  }

  lemma KeyNode(data: seq<byte>, nodes: seq<Node>, at: nat, k: Value, key: seq<byte>)
    requires Represents(data, nodes, at, k)
    ensures at < |nodes| && (nodes[at].Span? ==> nodes[at].off + nodes[at].len <= |data|)
    ensures var n := nodes[at];
            k == Str(key) <==> n.Span? && n.isStr && n.len == |key| && data[n.off..n.off + n.len] == key
  {
  }
}
