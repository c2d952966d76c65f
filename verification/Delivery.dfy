/**
 A chain on its whole way to the daemon: packed by the builder, put behind a request header,
 cut into socket messages, put together again, parsed into a tree of nodes, looked up and
 rebuilt. Requests have the layout of a 64-bit little-endian host.
 */
module Delivery {
  import opened Bits
  import opened Msgpack
  import opened PagedLayout
  import opened TreeParser
  import opened Framing
  import P = Pack
  import S = Serial

  const REQUEST_SIZE: nat := 32

  /** Sizes of the builder on a 64-bit host. */
  const HOST := Geometry(4096, 16, 32, 8)

  lemma HostIsUsable()
    ensures Usable(HOST)
  {
    LargeRecordsAreFound(HOST);
  }

  // ---- requests ----

  datatype Request = Request(front: nat, cmd: nat, data: seq<byte>)

  function LittleEndian(width: nat, x: nat): (r: seq<byte>)
    ensures |r| == width
  {
    if width == 0 then [] else [x % TWO8] + LittleEndian(width - 1, x / TWO8)
  }

  function FromLittleEndian(s: seq<byte>): nat {
    if s == [] then 0 else s[0] + TWO8 * FromLittleEndian(s[1..])
  }

  lemma {:induction false} LittleEndianBack(width: nat, x: nat)
    requires x < Limit(width)
    ensures FromLittleEndian(LittleEndian(width, x)) == x
  {
    if width > 0 {
      assert Limit(width) == TWO8 * Limit(width - 1);
      LittleEndianBack(width - 1, x / TWO8);
      assert LittleEndian(width, x)[1..] == LittleEndian(width - 1, x / TWO8);
    }
  }

  /** Namespaces, descriptor and the custom command are filled in by the receiver. */
  function RequestBytes(q: Request): seq<byte> {
    LittleEndian(4, q.front) + LittleEndian(4, q.cmd) + LittleEndian(16, 0) + LittleEndian(8, |q.data|) + q.data
  }

  lemma {:induction false} LittleEndianAt(width: nat, x: nat, k: nat)
    requires k < width
    ensures LittleEndian(width, x)[k] == x / Limit(k) % 256
    decreases k
  {
    if k > 0 {
      LittleEndianAt(width - 1, x / TWO8, k - 1);
      assert Limit(k) == TWO8 * Limit(k - 1);
      NextByte(x, Limit(k - 1));
    }
  }

  lemma NextByte(x: nat, b: nat)
    requires b > 0
    ensures x / TWO8 / b == x / (TWO8 * b)
  {
    var q, r := x / TWO8 / b, x / TWO8 % b;
    assert x / TWO8 == q * b + r;
    assert x == TWO8 * (q * b + r) + x % TWO8;
    assert x == (TWO8 * b) * q + (TWO8 * r + x % TWO8) by {
      assert TWO8 * (q * b) == (TWO8 * b) * q;
    }
    DivUnique(x, TWO8 * b, q, TWO8 * r + x % TWO8);
  }

  /** Where the parts of a request are: front and command first, the length in front of the data. */
  lemma RequestLayout(q: Request)
    ensures var b := RequestBytes(q);
            && |b| == 32 + |q.data| && b[32..] == q.data
            && (forall k :: 0 <= k < 4 ==> b[k] == q.front / Limit(k) % 256 && b[4 + k] == q.cmd / Limit(k) % 256)
            && (forall k :: 0 <= k < 8 ==> b[24 + k] == |q.data| / Limit(k) % 256)
  {
    hide LittleEndian, Limit;
    var b := RequestBytes(q);
    forall k | 0 <= k < 4
      ensures b[k] == q.front / Limit(k) % 256 && b[4 + k] == q.cmd / Limit(k) % 256
    {
      LittleEndianAt(4, q.front, k);
      LittleEndianAt(4, q.cmd, k);
      assert b[k] == LittleEndian(4, q.front)[k] && b[4 + k] == LittleEndian(4, q.cmd)[k];
    }
    forall k | 0 <= k < 8
      ensures b[24 + k] == |q.data| / Limit(k) % 256
    {
      LittleEndianAt(8, |q.data|, k);
      assert b[24 + k] == LittleEndian(8, |q.data|)[k];
    }
  }

  /** A request is taken only if it is as long as it says. */
  function ReadRequest(b: seq<byte>): S.Option<Request> {
    if |b| < REQUEST_SIZE || (REQUEST_SIZE + FromLittleEndian(b[24..32])) % TWO64 != |b| then S.None
    else S.Some(Request(FromLittleEndian(b[..4]), FromLittleEndian(b[4..8]), b[32..]))
  }

  lemma RequestBack(q: Request)
    requires q.front < TWO32 && q.cmd < TWO32 && |q.data| < TWO63
    ensures ReadRequest(RequestBytes(q)) == S.Some(q)
  {
    hide LittleEndian, FromLittleEndian;
    Limits();
    LittleEndianBack(4, q.front);
    LittleEndianBack(4, q.cmd);
    LittleEndianBack(8, |q.data|);
    var b := RequestBytes(q);
    assert b[..4] == LittleEndian(4, q.front);
    assert b[4..8] == LittleEndian(4, q.cmd);
    assert b[24..32] == LittleEndian(8, |q.data|);
    assert b[32..] == q.data;
  }

  lemma {:induction false} FromLittleEndianBack(s: seq<byte>)
    ensures FromLittleEndian(s) < Limit(|s|) && LittleEndian(|s|, FromLittleEndian(s)) == s
  {
    if s != [] {
      FromLittleEndianBack(s[1..]);
      assert Limit(|s|) == TWO8 * Limit(|s| - 1);
      assert [s[0]] + s[1..] == s;
    }
  }

  /** A field holds a number exactly if its bytes are the number's. */
  lemma FieldHolds(s: seq<byte>, n: nat)
    requires n < Limit(|s|)
    ensures FromLittleEndian(s) == n <==> forall k :: 0 <= k < |s| ==> s[k] == n / Limit(k) % 256
  {
    FromLittleEndianBack(s);
    LittleEndianBack(|s|, n);
    hide Limit, FromLittleEndian, LittleEndian;
    var t := LittleEndian(|s|, n);
    forall k | 0 <= k < |s|
      ensures t[k] == n / Limit(k) % 256
    {
      LittleEndianAt(|s|, n, k);
    }
    if forall k :: 0 <= k < |s| ==> s[k] == n / Limit(k) % 256 {
      assert s == t;
    }
  }

  /** Bytes are taken for a request if and only if the length they hold at 24 is that of the bytes from 32 on. */
  lemma RequestTaken(b: seq<byte>)
    requires |b| < TWO63
    ensures ReadRequest(b).Some? <==> |b| >= 32 && forall k :: 0 <= k < 8 ==> b[24 + k] == (|b| - 32) / Limit(k) % 256
  {
    if |b| >= 32 {
      var field := b[24..32];
      Limits();
      FromLittleEndianBack(field);
      FieldHolds(field, |b| - 32);
      hide Limit, FromLittleEndian;
      assert forall k :: 0 <= k < 8 ==> field[k] == b[24 + k];
      LengthFits(FromLittleEndian(field), |b|);
    }
  }

  lemma LengthFits(n: nat, size: nat)
    requires n < TWO64 && 32 <= size < TWO63
    ensures (32 + n) % TWO64 == size <==> n == size - 32
  {
  }

  // ---- reading a tree ----

  /** The value that the arena holds at a node. */
  method ReadNode(data: seq<byte>, nodes: seq<Node>, at: nat, ghost v: Value) returns (x: Value)
    requires Represents(data, nodes, at, v)
    ensures x == v
    decreases v
  {
    match nodes[at]
    case Scalar(w) => x := w;
    case Span(isStr, off, len) => x := MakeBytes(isStr, data[off..off + len]);
    case Container(isMap, count, children) =>
      var items := [];
      for i := 0 to Children(isMap, count)
        invariant items == v.items[..i]
      {
        var item := ReadNode(data, nodes, children + i, v.items[i]);
        items := items + [item];
      }
      x := if isMap then Map(items) else Array(items);
  }

  // ---- setting a chain ----

  const CHAIN: seq<byte> := [99, 104, 97, 105, 110]
  const HOOKOPTS: seq<byte> := [104, 111, 111, 107, 111, 112, 116, 115]

  function SetEntries(c: S.Chain, opts: Value): seq<S.Entry> {
    [S.Entry(CHAIN, S.PackChain(c)), S.Entry(HOOKOPTS, opts)]
  }

  function SetMessage(c: S.Chain, opts: Value): (v: Value)
    ensures v.Map?
  {
    Map(S.Pairs(SetEntries(c, opts)))
  }

  lemma SetFields(c: S.Chain, opts: Value)
    ensures var v := Canon(SetMessage(c, opts));
            && v.Map? && |v.items| % 2 == 0
            && P.Find(v.items, CHAIN) == P.Found(Canon(S.PackChain(c)))
            && P.Find(v.items, HOOKOPTS) == P.Found(Canon(opts))
  {
    hide Canon, CanonAll, P.Find, S.Pairs, S.PackChain;
    var es := SetEntries(c, opts);
    assert CHAIN[0] != HOOKOPTS[0];
    S.CanonOfMap(S.Pairs(es));
    S.CanonPairs(es);
    var done := S.CanonEntries(es);
    S.FindEntry(done, 0);
    S.FindEntry(done, 1);
  }

  lemma SetMessageStores(c: S.Chain, opts: Value)
    ensures S.Holds(SetMessage(c, opts), "chain", S.PackChain(c)) && S.Holds(SetMessage(c, opts), "hookopts", opts)
  {
    hide S.Holds, S.Pairs, S.PackChain;
    assert CHAIN[0] != HOOKOPTS[0];
    S.EntryHeld(SetEntries(c, opts), 0, "chain");
    S.EntryHeld(SetEntries(c, opts), 1, "hookopts");
  }

  /**
   A chain and its hook options, sent while further messages follow, arrive in the daemon: unless
   a huge map leads the parser astray, the chain that is rebuilt is the chain that was sent if
   all its matchers have a payload, and none is rebuilt if one has not.
   */
  method SetChain(ops: S.Sizes, g: Geometry, c: S.Chain, opts: Value, front: nat, cmd: nat, more: seq<Msg>)
    returns (r: Outcome, q: S.Option<Request>, back: S.Option<S.Chain>, hook: S.Option<Value>, rest: seq<Msg>)
    requires Usable(g) && S.ValidChain(ops, c) && front < TWO32 && cmd < TWO32
    requires Fits(SetMessage(c, opts)) && |Encode(SetMessage(c, opts))| < TWO63
    ensures rest == more && q == S.Some(Request(front, cmd, Encode(SetMessage(c, opts))))
    ensures !r.Refused? && (r.Astray? <==> Misled(Encode(SetMessage(c, opts)), 0, 1))
    ensures |Encode(SetMessage(c, opts))| < TWO32 ==> r.Accepted?
    ensures r.Accepted? ==> back == (if S.AllRulesHavePayloads(c.rules) then S.Some(c) else S.None)
    ensures r.Accepted? ==> hook == (if S.AllRulesHavePayloads(c.rules) then S.Some(Canon(opts)) else S.None)
  {
    hide Encode, Decode, Represents, Fits, Canon, Misled, SetMessage, S.PackChain, S.UnpackChain, S.ValidChain, Misplaced;
    hide S.AllRulesHavePayloads, RequestBytes, ReadRequest, P.Find, CanonAll;
    ghost var v := SetMessage(c, opts);
    back, hook := S.None, S.None;
    SetFields(c, opts);
    var data := P.PackMessage(g, SetMessage(c, opts));
    var sent := Request(front, cmd, data);
    RequestBack(sent);
    NotEmpty(sent);
    var bytes, left, reception := Transfer(RequestBytes(sent), more);
    rest := left;
    q := ReadRequest(bytes);
    MessageRoundTrip(v);
    var outcome, nodes, size := ParseTree(q.v.data);
    r := outcome;
    if r.Accepted? {
      var child := P.FindNode(q.v.data, nodes, 0, CHAIN, Canon(v));
      var packed := ReadNode(q.v.data, nodes, child.v, Canon(S.PackChain(c)));
      S.ChainBack(ops, c);
      back := S.UnpackChain(ops, packed);
      if back.Some? {
        child := P.FindNode(q.v.data, nodes, 0, HOOKOPTS, Canon(v));
        var x := ReadNode(q.v.data, nodes, child.v, Canon(opts));
        hook := S.Some(x);
      }
    }
  }

  lemma NotEmpty(q: Request)
    ensures |RequestBytes(q)| >= REQUEST_SIZE
  {
  }
}
