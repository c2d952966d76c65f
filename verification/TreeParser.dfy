/**
 The tree parser: an iterative decoder that keeps a stack of unfinished containers and a
 budget of unclaimed bytes, and writes nodes into an arena where siblings are contiguous.
 It accepts exactly the byte strings the recursive decoder accepts, and its arena then
 holds exactly the decoded tree, unless a map of 2^31 pairs or more leads it astray: the
 32-bit product by which it steps over a map header wraps around.
 */
module TreeParser {
  import opened Bits
  import opened Msgpack

  const SIZE_MAX: nat := 0xFFFF_FFFF_FFFF_FFFF

  /** A node of the arena; strings and binaries point into the data, containers at their first child. */
  datatype Node =
    | Unused
    | Scalar(v: Value)
    | Span(isStr: bool, off: nat, len: nat)
    | Container(isMap: bool, count: nat, children: nat)

  /** One level of the parse stack: the next node to fill and how many are left. */
  datatype Level = Level(child: nat, left: nat)

  function LeftSum(stack: seq<Level>): nat {
    if stack == [] then 0 else LeftSum(stack[..|stack| - 1]) + stack[|stack| - 1].left
  }

  lemma LeftSumTop(below: seq<Level>, top: Level)
    ensures LeftSum(below + [top]) == LeftSum(below) + top.left
  {
    assert (below + [top])[..|below|] == below;
  }

  /** The tree that a node is the root of. */
  predicate Represents(data: seq<byte>, nodes: seq<Node>, i: nat, v: Value)
    decreases v
  {
    i < |nodes| &&
    match nodes[i]
    case Unused => false
    case Scalar(w) => v == w && IsScalar(v)
    case Span(isStr, off, len) => off + len <= |data| && v == MakeBytes(isStr, data[off..off + len])
    case Container(isMap, count, children) =>
      && (if isMap then v.Map? else v.Array?)
      && |v.items| == Children(isMap, count)
      && forall j :: 0 <= j < |v.items| ==> Represents(data, nodes, children + j, v.items[j])
  }

  predicate IsScalar(v: Value) {
    !v.Str? && !v.Bin? && !v.Array? && !v.Map?
  }

  /** Nodes that were filled stay as they are. */
  predicate Kept(nodes: seq<Node>, nodes': seq<Node>) {
    |nodes| <= |nodes'| && forall i :: 0 <= i < |nodes| && nodes[i] != Unused ==> nodes'[i] == nodes[i]
  }

  lemma {:induction false} RepresentsKept(data: seq<byte>, nodes: seq<Node>, nodes': seq<Node>, i: nat, v: Value)
    requires Represents(data, nodes, i, v) && Kept(nodes, nodes')
    ensures Represents(data, nodes', i, v)
    decreases v
  {
    if nodes[i].Container? {
      forall j | 0 <= j < |v.items|
        ensures Represents(data, nodes', nodes[i].children + j, v.items[j])
      {
        RepresentsKept(data, nodes, nodes', nodes[i].children + j, v.items[j]);
      }
    }
  }

  // ---- one node ----

  /** What stands at a position, without its children. */
  datatype Head = Broken | Leaf(node: Node, v: Value, end: nat) | Opens(isMap: bool, count: nat, end: nat)

  function ScalarHead(v: Value, end: nat): Head {
    Leaf(Scalar(v), v, end)
  }

  function HeadAt(data: seq<byte>, pos: nat): (h: Head)
    requires pos < |data|
    ensures !h.Broken? ==> pos < h.end <= |data|
    ensures h.Leaf? ==> !h.node.Container?
  {
    match FormOf(data[pos])
    case Invalid => Broken
    case Whole(v) => ScalarHead(v, pos + 1)
    case Number(kind, width) =>
      if pos + 1 + width > |data| then Broken
      else ScalarHead(NumberOf(kind, width, FromBe(data[pos + 1..pos + 1 + width])), pos + 1 + width)
    case Bytes(isStr, width, len) =>
      if pos + 1 + width > |data| then Broken
      else
        var start := pos + 1 + width;
        var n := Extent(data, pos, width, len);
        if start + n > |data| then Broken
        else Leaf(Span(isStr, start, n), MakeBytes(isStr, data[start..start + n]), start + n)
    case Compound(isMap, width, count) =>
      if pos + 1 + width > |data| then Broken else Opens(isMap, Extent(data, pos, width, count), pos + 1 + width)
  }

  /** Bytes a node claims beyond its first one, its children's first bytes included. */
  function Claim(h: Head, pos: nat): nat
    requires !h.Broken? && pos < h.end
  {
    h.end - pos - 1 + if h.Opens? then Children(h.isMap, h.count) else 0
  }

  /** A map whose number of children does not fit 32 bits. */
  predicate Huge(h: Head) {
    h.Opens? && h.isMap && h.count >= TWO31
  }

  /** Where the parser goes on after a node: 2^32 bytes too far behind a huge map. */
  function NodeEnd(h: Head): (n: nat)
    requires !h.Broken?
    ensures n == h.end <==> !Huge(h)
  {
    h.end + if Huge(h) then TWO32 else 0
  }

  lemma HeadCount(data: seq<byte>, pos: nat)
    requires pos < |data| && HeadAt(data, pos).Opens?
    ensures HeadAt(data, pos).count < TWO32
  {
    hide Extent;
    match FormOf(data[pos])
    case Compound(isMap, width, count) => ExtentBound(data, pos, width, count);
    case _ =>
  }

  /**
   Reading nodes one behind the other, with `pending` still to come, the parser meets a huge map
   that the data could pay for.
   */
  predicate Misled(data: seq<byte>, pos: nat, pending: nat)
    decreases |data| - pos
  {
    pending > 0 && pos < |data| &&
    var h := HeadAt(data, pos);
    && !h.Broken? && pos + pending + Claim(h, pos) <= |data|
    && (Huge(h) || Misled(data, h.end, pending - 1 + if h.Opens? then Children(h.isMap, h.count) else 0))
  }

  /** Data of less than 2^32 bytes cannot pay for a huge map. */
  lemma {:induction false} SmallDataIsSafe(data: seq<byte>, pos: nat, pending: nat)
    requires |data| < TWO32
    ensures !Misled(data, pos, pending)
    decreases |data| - pos
  {
    hide HeadAt;
    if pending > 0 && pos < |data| && !HeadAt(data, pos).Broken? {
      var h := HeadAt(data, pos);
      SmallDataIsSafe(data, h.end, pending - 1 + if h.Opens? then Children(h.isMap, h.count) else 0);
    }
  }

  lemma {:induction false} NilsDecode(data: seq<byte>, pos: nat, n: nat)
    requires pos + n <= |data| && forall i :: pos <= i < pos + n ==> data[i] == 0xc0
    ensures DecodeMany(data, pos, n).Ok? && DecodeMany(data, pos, n).end == pos + n
    decreases n
  {
    if n > 0 {
      assert Decode(data, pos) == Ok(Nil, pos + 1);
      NilsDecode(data, pos + 1, n - 1);
    }
  }

  /**
   A message that is misread: a map of 2^31 pairs of nil. The decoder accepts it; the parser can
   pay for it, but looks for the first key right behind the end of the data.
   */
  lemma HugeMapIsMisread(data: seq<byte>, children: nat)
    requires children == TWO32 && |data| == 5 + children && data[..5] == [0xdf, 0x80, 0, 0, 0]
    requires forall i :: 5 <= i < |data| ==> data[i] == 0xc0
    ensures Decode(data, 0).Ok? && Misled(data, 0, 1)
    ensures NodeEnd(HeadAt(data, 0)) == |data|
  {
    hide DecodeMany;
    assert data[0] == data[..5][0] == 0xdf;
    assert data[1..5] == data[..5][1..] == [0x80, 0, 0, 0];
    HugeCount();
    assert HeadAt(data, 0) == Opens(true, TWO31, 5);
    NilsDecode(data, 5, children);
    HeadDecodes(data, 0);
  }

  lemma HugeCount()
    ensures FromBe([0x80, 0, 0, 0]) == TWO31
  {
    var a: seq<byte>, b: seq<byte>, c: seq<byte>, d: seq<byte> := [0x80], [0x80, 0], [0x80, 0, 0], [0x80, 0, 0, 0];
    assert d[..3] == c && c[..2] == b && b[..1] == a && a[..0] == [];
    assert FromBe(a) == 0x80 && FromBe(b) == 0x8000 && FromBe(c) == 0x80_0000;
  }

  lemma HeadDecodes(data: seq<byte>, pos: nat)
    requires pos < |data|
    ensures var h := HeadAt(data, pos);
            && (h.Broken? ==> Decode(data, pos).Rejected?)
            && (h.Leaf? ==> Decode(data, pos) == Ok(h.v, h.end) && Represents(data, [h.node], 0, h.v))
            && (h.Opens? ==>
                  Decode(data, pos) == Wrapped(h.isMap, DecodeMany(data, h.end, Children(h.isMap, h.count))))
  {
    hide FromBe, DecodeMany;
    WholeIsScalar(data[pos]);
  }

  lemma WholeIsScalar(t: byte)
    ensures FormOf(t).Whole? ==> IsScalar(FormOf(t).v)
  {
  }

  // ---- unfinished containers ----

  /** A container being filled: its finished children and how many are still to come. */
  datatype Frame = Frame(isMap: bool, values: seq<Value>, left: nat, first: nat)

  function Finish(frames: seq<Frame>, values: seq<Value>): (r: seq<Frame>)
    requires |frames| >= 2
    ensures |r| == |frames| - 1
  {
    var n := |frames| - 1;
    var f := frames[n - 1];
    frames[..n - 1] + [f.(values := f.values + [MakeCompound(frames[n].isMap, values)])]
  }

  /** What decoding the rest of the data makes of the unfinished containers. */
  function Complete(data: seq<byte>, frames: seq<Frame>, pos: nat): Decoded<seq<Value>>
    requires frames != []
    decreases |frames|
  {
    var top := frames[|frames| - 1];
    match DecodeMany(data, pos, top.left)
    case Rejected => Rejected
    case Ok(vs, end) =>
      if |frames| == 1 then Ok(top.values + vs, end)
      else Complete(data, Finish(frames, top.values + vs), end)
  }

  function Pending(frames: seq<Frame>): nat {
    if frames == [] then 0 else Pending(frames[..|frames| - 1]) + frames[|frames| - 1].left
  }

  lemma PendingFinish(frames: seq<Frame>, values: seq<Value>)
    requires |frames| >= 2
    ensures Pending(Finish(frames, values)) + frames[|frames| - 1].left == Pending(frames)
  {
    var n := |frames| - 1;
    var r := Finish(frames, values);
    assert r[..n - 1] == frames[..n][..n - 1];
  }

  /** Every value still to come needs a byte. */
  lemma {:induction false} CompleteNeeds(data: seq<byte>, frames: seq<Frame>, pos: nat)
    requires frames != [] && pos <= |data| && Complete(data, frames, pos).Ok?
    ensures pos + Pending(frames) <= |data|
    decreases |frames|
  {
    hide DecodeMany;
    var top := frames[|frames| - 1];
    var r := DecodeMany(data, pos, top.left);
    if |frames| == 1 {
      assert frames[..0] == [];
    } else {
      CompleteNeeds(data, Finish(frames, top.values + r.v), r.end);
      PendingFinish(frames, top.values + r.v);
    }
  }

  function Advance(frames: seq<Frame>, v: Value): seq<Frame>
    requires frames != [] && frames[|frames| - 1].left > 0
  {
    var n := |frames| - 1;
    frames[n := frames[n].(values := frames[n].values + [v], left := frames[n].left - 1)]
  }

  /** A decoded child joins its siblings. */
  lemma {:induction false} CompleteLeaf(data: seq<byte>, frames: seq<Frame>, pos: nat)
    requires frames != [] && frames[|frames| - 1].left > 0
    ensures var d := Decode(data, pos);
            Complete(data, frames, pos) == if d.Ok? then Complete(data, Advance(frames, d.v), d.end) else Rejected
  {
    hide Decode;
    var n := |frames| - 1;
    var top := frames[n];
    var d := Decode(data, pos);
    if d.Ok? && DecodeMany(data, d.end, top.left - 1).Ok? {
      var vs := DecodeMany(data, d.end, top.left - 1).v;
      assert top.values + ([d.v] + vs) == top.values + [d.v] + vs;
      if n > 0 {
        assert Finish(frames, top.values + ([d.v] + vs)) == Finish(Advance(frames, d.v), top.values + [d.v] + vs);
      }
    }
  }

  function Open(frames: seq<Frame>, isMap: bool, total: nat, first: nat): seq<Frame>
    requires frames != [] && frames[|frames| - 1].left > 0
  {
    var n := |frames| - 1;
    frames[n := frames[n].(left := frames[n].left - 1)] + [Frame(isMap, [], total, first)]
  }

  /** A container may be opened and finished on the stack instead of being decoded at once. */
  lemma {:induction false} CompleteOpens(data: seq<byte>, frames: seq<Frame>, pos: nat, first: nat)
    requires frames != [] && frames[|frames| - 1].left > 0 && pos < |data| && HeadAt(data, pos).Opens?
    ensures var h := HeadAt(data, pos);
            Complete(data, frames, pos) == Complete(data, Open(frames, h.isMap, Children(h.isMap, h.count), first), h.end)
  {
    hide Decode, DecodeMany;
    var h := HeadAt(data, pos);
    var total := Children(h.isMap, h.count);
    HeadDecodes(data, pos);
    CompleteLeaf(data, frames, pos);
    var r := DecodeMany(data, h.end, total);
    if r.Ok? {
      assert [] + r.v == r.v;
      assert Finish(Open(frames, h.isMap, total, first), r.v) == Advance(frames, MakeCompound(h.isMap, r.v));
    }
  }

  lemma {:induction false} CompleteFull(data: seq<byte>, frames: seq<Frame>, pos: nat)
    requires |frames| >= 2 && frames[|frames| - 1].left == 0
    ensures Complete(data, frames, pos) == Complete(data, Finish(frames, frames[|frames| - 1].values), pos)
  {
    var top := frames[|frames| - 1];
    assert top.values + [] == top.values;
  }

  // ---- stack and arena against the unfinished containers ----

  predicate Busy(frames: seq<Frame>, k: nat) {
    k + 1 < |frames|
  }

  function BusyCount(frames: seq<Frame>, k: nat): nat {
    if Busy(frames, k) then 1 else 0
  }

  /** Level k: finished children, the container being filled next, and untouched nodes behind it. */
  predicate LevelOk(data: seq<byte>, nodes: seq<Node>, stack: seq<Level>, frames: seq<Frame>, k: nat)
    requires |stack| == |frames| && k < |stack|
  {
    var f, l := frames[k], stack[k];
    && l.left == f.left && l.child == f.first + |f.values| + BusyCount(frames, k)
    && l.child + l.left <= |nodes|
    && (forall m :: k < m < |frames| ==> l.child + l.left <= frames[m].first)
    && (forall j :: 0 <= j < |f.values| ==> Represents(data, nodes, f.first + j, f.values[j]))
    && (forall i :: l.child <= i < l.child + l.left ==> nodes[i] == Unused)
    && (Busy(frames, k) ==> Parent(nodes[f.first + |f.values|], frames, k + 1))
  }

  predicate Parent(node: Node, frames: seq<Frame>, k: nat)
    requires k < |frames|
  {
    var f := frames[k];
    && node.Container? && node.isMap == f.isMap && node.children == f.first
    && Children(node.isMap, node.count) == |f.values| + BusyCount(frames, k) + f.left
  }

  predicate Linked(data: seq<byte>, nodes: seq<Node>, stack: seq<Level>, frames: seq<Frame>) {
    |stack| == |frames| > 0 && forall k :: 0 <= k < |stack| ==> LevelOk(data, nodes, stack, frames, k)
  }

  lemma {:induction false} SamePending(stack: seq<Level>, frames: seq<Frame>)
    requires |stack| == |frames| && forall k :: 0 <= k < |stack| ==> stack[k].left == frames[k].left
    ensures Pending(frames) == LeftSum(stack)
    decreases |stack|
  {
    if stack != [] {
      SamePending(stack[..|stack| - 1], frames[..|frames| - 1]);
    }
  }

  function Stepped(stack: seq<Level>): seq<Level>
    requires stack != [] && stack[|stack| - 1].left > 0
  {
    var n := |stack| - 1;
    stack[n := Level(stack[n].child + 1, stack[n].left - 1)]
  }

  /** Levels below the top do not notice that the next node of the top is filled. */
  lemma LowerLevelKept(data: seq<byte>, nodes: seq<Node>, nodes': seq<Node>, stack: seq<Level>, stack': seq<Level>,
                       frames: seq<Frame>, frames': seq<Frame>, k: nat)
    requires Linked(data, nodes, stack, frames) && k + 1 < |stack|
    requires |stack'| == |frames'| && k + 1 < |frames'| && stack'[k] == stack[k] && frames'[k] == frames[k]
    requires Kept(nodes, nodes')
    requires forall i :: 0 <= i < |nodes| && i != stack[|stack| - 1].child ==> nodes'[i] == nodes[i]
    requires forall m :: k < m < |frames'| ==>
               (m < |frames| && frames'[m].first == frames[m].first) || frames'[m].first >= |nodes|
    requires frames'[k + 1].first == frames[k + 1].first && frames'[k + 1].isMap == frames[k + 1].isMap
    requires |frames'[k + 1].values| + BusyCount(frames', k + 1) + frames'[k + 1].left ==
             |frames[k + 1].values| + BusyCount(frames, k + 1) + frames[k + 1].left
    ensures LevelOk(data, nodes', stack', frames', k)
  {
    hide Represents;
    var top := |stack| - 1;
    assert LevelOk(data, nodes, stack, frames, k) && LevelOk(data, nodes, stack, frames, top);
    var f, l := frames[k], stack[k];
    assert l.child + l.left <= frames[top].first <= stack[top].child;
    forall j | 0 <= j < |f.values|
      ensures Represents(data, nodes', f.first + j, f.values[j])
    {
      RepresentsKept(data, nodes, nodes', f.first + j, f.values[j]);
    }
  }

  lemma FinishedKept(data: seq<byte>, nodes: seq<Node>, nodes': seq<Node>, stack: seq<Level>, frames: seq<Frame>)
    requires Linked(data, nodes, stack, frames) && Kept(nodes, nodes')
    ensures var f := frames[|frames| - 1]; forall j :: 0 <= j < |f.values| ==> Represents(data, nodes', f.first + j, f.values[j])
  {
    hide Represents, Kept;
    var f := frames[|frames| - 1];
    assert LevelOk(data, nodes, stack, frames, |frames| - 1);
    forall j | 0 <= j < |f.values|
      ensures Represents(data, nodes', f.first + j, f.values[j])
    {
      RepresentsKept(data, nodes, nodes', f.first + j, f.values[j]);
    }
  }

  lemma LeafLinked(data: seq<byte>, nodes: seq<Node>, stack: seq<Level>, frames: seq<Frame>, node: Node, v: Value)
    requires Linked(data, nodes, stack, frames) && stack[|stack| - 1].left > 0 && node != Unused
    requires var at := stack[|stack| - 1].child; at < |nodes| ==> Represents(data, nodes[at := node], at, v)
    ensures stack[|stack| - 1].child < |nodes| && frames[|frames| - 1].left > 0
    ensures Linked(data, nodes[stack[|stack| - 1].child := node], Stepped(stack), Advance(frames, v))
  {
    hide Represents;
    var top := |stack| - 1;
    var at := stack[top].child;
    assert LevelOk(data, nodes, stack, frames, top);
    var nodes', stack', frames' := nodes[at := node], Stepped(stack), Advance(frames, v);
    assert Kept(nodes, nodes');
    FinishedKept(data, nodes, nodes', stack, frames);
    assert LevelOk(data, nodes', stack', frames', top);
    forall k | 0 <= k < top
      ensures LevelOk(data, nodes', stack', frames', k)
    {
      LowerLevelKept(data, nodes, nodes', stack, stack', frames, frames', k);
    }
  }

  function Fresh(total: nat): seq<Node> {
    seq(total, _ => Unused)
  }

  lemma OpenLinked(data: seq<byte>, nodes: seq<Node>, stack: seq<Level>, frames: seq<Frame>, isMap: bool, count: nat)
    requires Linked(data, nodes, stack, frames) && stack[|stack| - 1].left > 0 && count > 0
    ensures stack[|stack| - 1].child < |nodes| && frames[|frames| - 1].left > 0
    ensures var total := Children(isMap, count);
            Linked(data, nodes[stack[|stack| - 1].child := Container(isMap, count, |nodes|)] + Fresh(total),
                   Stepped(stack) + [Level(|nodes|, total)], Open(frames, isMap, total, |nodes|))
  {
    hide Represents;
    var top, total := |stack| - 1, Children(isMap, count);
    var at := stack[top].child;
    assert LevelOk(data, nodes, stack, frames, top);
    var nodes' := nodes[at := Container(isMap, count, |nodes|)] + Fresh(total);
    var stack', frames' := Stepped(stack) + [Level(|nodes|, total)], Open(frames, isMap, total, |nodes|);
    assert Kept(nodes, nodes');
    FinishedKept(data, nodes, nodes', stack, frames);
    assert LevelOk(data, nodes', stack', frames', top + 1);
    assert LevelOk(data, nodes', stack', frames', top);
    forall k | 0 <= k < top
      ensures LevelOk(data, nodes', stack', frames', k)
    {
      LowerLevelKept(data, nodes, nodes', stack, stack', frames, frames', k);
    }
  }

  lemma {:induction false} CloseLinked(data: seq<byte>, nodes: seq<Node>, stack: seq<Level>, frames: seq<Frame>)
    requires Linked(data, nodes, stack, frames) && |stack| >= 2 && stack[|stack| - 1].left == 0
    ensures Linked(data, nodes, stack[..|stack| - 1], Finish(frames, frames[|frames| - 1].values))
  {
    var top := |stack| - 1;
    var f, g := frames[top], frames[top - 1];
    var stack', frames' := stack[..top], Finish(frames, f.values);
    assert LevelOk(data, nodes, stack, frames, top) && LevelOk(data, nodes, stack, frames, top - 1);
    var v := MakeCompound(f.isMap, f.values);
    assert Represents(data, nodes, g.first + |g.values|, v);
    hide Represents;
    assert LevelOk(data, nodes, stack', frames', top - 1);
    forall k | 0 <= k < top - 1
      ensures LevelOk(data, nodes, stack', frames', k)
    {
      assert LevelOk(data, nodes, stack, frames, k);
      assert frames'[k + 1].first == frames[k + 1].first;
    }
  }

  // ---- the parser ----

  lemma {:induction false} ExtentBound(data: seq<byte>, pos: nat, width: nat, inline: nat)
    requires pos + 1 + width <= |data| && width in {0, 1, 2, 4} && inline < TWO32
    ensures Extent(data, pos, width, inline) < TWO32
  {
    Limits();
    FromBeBound(data[pos + 1..pos + 1 + width]);
  }

  /** The arena and the stack after a node has been parsed. */
  predicate Filled(h: Head, at: nat, nodes: seq<Node>, nodes': seq<Node>, stack: seq<Level>, stack': seq<Level>)
    requires !h.Broken? && at < |nodes|
  {
    if h.Leaf? then nodes' == nodes[at := h.node] && stack' == stack
    else
      var total := Children(h.isMap, h.count);
      && nodes' == nodes[at := Container(h.isMap, h.count, |nodes|)] + Fresh(total)
      && stack' == stack + if total == 0 then [] else [Level(|nodes|, total)]
  }

  function NextFrames(h: Head, frames: seq<Frame>, first: nat): seq<Frame>
    requires !h.Broken? && frames != [] && frames[|frames| - 1].left > 0
  {
    if h.Leaf? then Advance(frames, h.v)
    else if h.count == 0 then Advance(frames, MakeCompound(h.isMap, []))
    else Open(frames, h.isMap, Children(h.isMap, h.count), first)
  }

  lemma LinkedTop(data: seq<byte>, nodes: seq<Node>, stack: seq<Level>, frames: seq<Frame>)
    requires Linked(data, nodes, stack, frames)
    ensures var top := |stack| - 1;
            && |frames| == |stack| && stack[top].left == frames[top].left
            && stack[top].child == frames[top].first + |frames[top].values|
            && stack[top].child + stack[top].left <= |nodes|
            && (forall j :: 0 <= j < |frames[top].values| ==> Represents(data, nodes, frames[top].first + j, frames[top].values[j]))
  {
    hide Represents;
    assert LevelOk(data, nodes, stack, frames, |stack| - 1);
  }

  lemma SteppedSum(stack: seq<Level>)
    requires stack != [] && stack[|stack| - 1].left > 0
    ensures LeftSum(Stepped(stack)) + 1 == LeftSum(stack)
  {
    var n := |stack| - 1;
    assert Stepped(stack)[..n] == stack[..n];
  }

  /** A parsed node takes the stack to the frames that the decoder would go on with. */
  lemma {:induction false} StepLinked(data: seq<byte>, pos: nat, nodes: seq<Node>, nodes': seq<Node>, stack: seq<Level>,
                                      stack': seq<Level>, frames: seq<Frame>)
    requires Linked(data, nodes, stack, frames) && stack[|stack| - 1].left > 0 && frames[|frames| - 1].left > 0
    requires pos < |data| && !HeadAt(data, pos).Broken? && stack[|stack| - 1].child < |nodes|
    requires Filled(HeadAt(data, pos), stack[|stack| - 1].child, nodes, nodes', stack, stack')
    ensures var n := |stack| - 1;
            && |stack'| > n && stack'[n] == stack[n]
            && Linked(data, nodes', stack'[n := Level(stack[n].child + 1, stack[n].left - 1)],
                      NextFrames(HeadAt(data, pos), frames, |nodes|))
  {
    hide LevelOk, HeadAt, Represents, FromBe, Decode;
    var h, n := HeadAt(data, pos), |stack| - 1;
    var at := stack[n].child;
    HeadDecodes(data, pos);
    if h.Leaf? {
      LeafPlaced(data, nodes, at, h);
      LeafLinked(data, nodes, stack, frames, h.node, h.v);
    } else if h.count == 0 {
      var node := Container(h.isMap, 0, |nodes|);
      assert Represents(data, nodes[at := node], at, MakeCompound(h.isMap, [])) by { EmptyPlaced(data, nodes, at, h.isMap); }
      LeafLinked(data, nodes, stack, frames, node, MakeCompound(h.isMap, []));
      assert nodes' == nodes[at := node] && stack' == stack;
    } else {
      OpenLinked(data, nodes, stack, frames, h.isMap, h.count);
      assert stack'[n := Level(stack[n].child + 1, stack[n].left - 1)] ==
             Stepped(stack) + [Level(|nodes|, Children(h.isMap, h.count))];
    }
  }

  lemma LeafPlaced(data: seq<byte>, nodes: seq<Node>, at: nat, h: Head)
    requires h.Leaf? && Represents(data, [h.node], 0, h.v) && at < |nodes| && !h.node.Container?
    ensures Represents(data, nodes[at := h.node], at, h.v) && h.node != Unused
  {
  }

  lemma EmptyPlaced(data: seq<byte>, nodes: seq<Node>, at: nat, isMap: bool)
    requires at < |nodes|
    ensures Represents(data, nodes[at := Container(isMap, 0, |nodes|)], at, MakeCompound(isMap, []))
  {
  }

  lemma {:induction false} StepComplete(data: seq<byte>, pos: nat, frames: seq<Frame>, first: nat)
    requires pos < |data| && !HeadAt(data, pos).Broken? && frames != [] && frames[|frames| - 1].left > 0
    ensures var h := HeadAt(data, pos);
            Complete(data, frames, pos) == Complete(data, NextFrames(h, frames, first), h.end)
  {
    hide HeadAt, Complete, Decode, Represents;
    var h := HeadAt(data, pos);
    HeadDecodes(data, pos);
    if h.Opens? && h.count > 0 {
      CompleteOpens(data, frames, pos, first);
    } else {
      CompleteLeaf(data, frames, pos);
    }
  }

  lemma StepBudget(h: Head, pos: nat, nodes: seq<Node>, nodes': seq<Node>, stack: seq<Level>, stack': seq<Level>)
    requires !h.Broken? && pos < h.end && stack != [] && stack[|stack| - 1].left > 0 && stack[|stack| - 1].child < |nodes|
    requires Filled(h, stack[|stack| - 1].child, nodes, nodes', stack, stack')
    ensures var n := |stack| - 1;
            && h.end + LeftSum(stack'[n := Level(stack[n].child + 1, stack[n].left - 1)]) == pos + LeftSum(stack) + Claim(h, pos)
            && |nodes'| + LeftSum(stack) <= |nodes| + LeftSum(stack'[n := Level(stack[n].child + 1, stack[n].left - 1)]) + 1
  {
    var n := |stack| - 1;
    SteppedSum(stack);
    if stack' != stack {
      var top := Level(|nodes|, Children(h.isMap, h.count));
      assert stack'[n := Level(stack[n].child + 1, stack[n].left - 1)] == Stepped(stack) + [top];
      LeftSumTop(Stepped(stack), top);
    }
  }

  /** A node the budget cannot pay for cannot be decoded either. */
  lemma {:induction false} RejectedEarly(data: seq<byte>, nodes: seq<Node>, stack: seq<Level>, frames: seq<Frame>,
                                         pos: nat, budget: nat)
    requires Linked(data, nodes, stack, frames) && stack[|stack| - 1].left > 0 && frames[|frames| - 1].left > 0
    requires pos < |data| && pos + LeftSum(stack) + budget == |data|
    requires var h := HeadAt(data, pos); h.Broken? || Claim(h, pos) > budget
    ensures Complete(data, frames, pos).Rejected?
  {
    hide HeadAt, Complete, Decode, Represents;
    var h := HeadAt(data, pos);
    HeadDecodes(data, pos);
    if h.Broken? {
      CompleteLeaf(data, frames, pos);
    } else {
      StepComplete(data, pos, frames, 0);
      var next := NextFrames(h, frames, 0);
      if Complete(data, frames, pos).Ok? {
        CompleteNeeds(data, next, h.end);
        NextPending(h, frames, 0);
        LevelsPending(data, nodes, stack, frames);
      }
    }
  }

  lemma LevelsPending(data: seq<byte>, nodes: seq<Node>, stack: seq<Level>, frames: seq<Frame>)
    requires Linked(data, nodes, stack, frames)
    ensures Pending(frames) == LeftSum(stack)
  {
    forall k | 0 <= k < |stack|
      ensures stack[k].left == frames[k].left
    {
      assert LevelOk(data, nodes, stack, frames, k);
    }
    SamePending(stack, frames);
  }

  lemma NextPending(h: Head, frames: seq<Frame>, first: nat)
    requires !h.Broken? && frames != [] && frames[|frames| - 1].left > 0
    ensures Pending(NextFrames(h, frames, first)) + 1 ==
            Pending(frames) + if h.Opens? then Children(h.isMap, h.count) else 0
  {
    var n := |frames| - 1;
    var next := NextFrames(h, frames, first);
    if |next| == |frames| {
      assert next[..n] == frames[..n];
    } else {
      var mid := frames[n := frames[n].(left := frames[n].left - 1)];
      assert next[..n + 1] == mid && mid[..n] == frames[..n];
    }
  }

  lemma RootLinked(data: seq<byte>)
    ensures Linked(data, [Unused], [Level(0, 1)], [Frame(false, [], 1, 0)])
  {
  }

  lemma RootComplete(data: seq<byte>)
    ensures var d := Decode(data, 0);
            Complete(data, [Frame(false, [], 1, 0)], 0) == if d.Ok? then Ok([d.v], d.end) else Rejected
  {
    hide Decode;
    var d := Decode(data, 0);
    if d.Ok? {
      assert DecodeMany(data, d.end, 0) == Ok([], d.end);
      assert [] + ([d.v] + []) == [d.v];
    }
  }

  /** The next node is looked for 2^32 bytes behind the place where the decoder goes on. */
  predicate Misplaced(data: seq<byte>, next: nat) {
    exists pos :: 0 <= pos < |data| && Huge(HeadAt(data, pos)) && next == HeadAt(data, pos).end + TWO32
  }

  /** How parsing ends. `Astray`: the next node is looked for 2^32 bytes too far. */
  datatype Outcome = Accepted | Refused | Astray

  lemma MisledStep(data: seq<byte>, pos: nat, pending: nat, budget: nat)
    requires pos < |data| && pending > 0 && pos + pending + budget == |data|
    ensures var h := HeadAt(data, pos);
            && (h.Broken? || Claim(h, pos) > budget ==> !Misled(data, pos, pending))
            && (!h.Broken? && Claim(h, pos) <= budget ==>
                  && NodeEnd(h) == h.end + (if Huge(h) then TWO32 else 0)
                  && Misled(data, pos, pending) == (Huge(h) || Misled(data, h.end, pos + pending + Claim(h, pos) - h.end)))
  {
    hide HeadAt;
  }

  lemma RootSum()
    ensures LeftSum([Level(0, 1)]) == 1
  {
    assert [Level(0, 1)][..0] == [];
  }

  lemma NothingPending(data: seq<byte>, pos: nat, stack: seq<Level>)
    requires |stack| == 1 && stack[0].left == 0
    ensures !Misled(data, pos, LeftSum(stack))
  {
    assert stack[..0] == [];
  }

  class Parser {
    const data: seq<byte>
    var size: nat
    var possibleNodesLeft: nat
    var currentNodeReserved: nat
    var nodeCount: nat
    var stack: seq<Level>
    var nodes: seq<Node>

    /** Every byte is parsed, claimed by a node still to come, or free. */
    predicate Valid()
      reads this
    {
      && |data| < TWO63
      && size + LeftSum(stack) + possibleNodesLeft == |data|
      && nodeCount == |nodes| <= size + LeftSum(stack)
    }

    /** The source parses only data that has a first byte. */
    constructor (data: seq<byte>)
      requires 0 < |data| < TWO63
      ensures Valid() && this.data == data && size == 0
      ensures stack == [Level(0, 1)] && nodes == [Unused]
    {
      this.data := data;
      size, possibleNodesLeft, currentNodeReserved, nodeCount := 0, |data| - 1, 0, 1;
      stack, nodes := [Level(0, 1)], [Unused];
      new;
      LeftSumTop([], Level(0, 1));
      assert [] + [Level(0, 1)] == [Level(0, 1)];
    }

    /** Claims more bytes for the current node, out of those nobody has claimed yet. */
    method ReserveBytes(extra: nat) returns (ok: bool)
      requires possibleNodesLeft <= SIZE_MAX
      modifies this`currentNodeReserved
      ensures ok <==> old(currentNodeReserved) + extra <= possibleNodesLeft
      ensures ok ==> currentNodeReserved == old(currentNodeReserved) + extra
    {
      if currentNodeReserved + extra > SIZE_MAX {
        return false;
      }
      currentNodeReserved := currentNodeReserved + extra;
      return currentNodeReserved <= possibleNodesLeft;
    }

    /** Gives a container its block of children and makes them the next nodes to parse. */
    method ParseChildren(at: nat, isMap: bool, count: nat) returns (ok: bool)
      requires Valid() && at < |nodes| && count < TWO32
      modifies this`currentNodeReserved, this`nodeCount, this`nodes, this`stack
      ensures ok <==> old(currentNodeReserved) + Children(isMap, count) <= possibleNodesLeft
      ensures ok ==> var total := Children(isMap, count);
                     && currentNodeReserved == old(currentNodeReserved) + total
                     && nodeCount == old(nodeCount) + total
                     && nodes == old(nodes)[at := Container(isMap, count, |old(nodes)|)] + Fresh(total)
                     && stack == old(stack) + if total == 0 then [] else [Level(|old(nodes)|, total)]
    {
      var total := count;
      if isMap {
        if total * 2 > SIZE_MAX {
          return false;
        }
        total := total * 2;
      }
      nodeCount := nodeCount + total;
      if nodeCount > SIZE_MAX {
        return false;
      }
      ok := ReserveBytes(total);
      if !ok {
        return;
      }
      nodes := nodes[at := Container(isMap, count, |nodes|)] + Fresh(total);
      if total != 0 {
        stack := stack + [Level(|nodes| - total, total)];
      }
    }

    /** Reads the value at the current position into a node, claiming the bytes it needs. */
    method ParseNodeContents(at: nat) returns (ok: bool)
      requires Valid() && at < |nodes| && size + 1 + possibleNodesLeft <= |data|
      modifies this`currentNodeReserved, this`nodeCount, this`nodes, this`stack
      ensures var h := HeadAt(data, size); ok <==> !h.Broken? && Claim(h, size) <= possibleNodesLeft
      ensures ok ==> var h := HeadAt(data, size);
                     && currentNodeReserved == Claim(h, size)
                     && Filled(h, at, old(nodes), nodes, old(stack), stack)
                     && nodeCount == old(nodeCount) + |nodes| - |old(nodes)|
    {
      hide LeftSum, FromBe, FormOf, Represents;
      currentNodeReserved := 0;
      match FormOf(data[size])
      case Invalid => return false;
      case Whole(v) =>
        nodes := nodes[at := Scalar(v)];
        return true;
      case Number(kind, width) =>
        ok := ReserveBytes(width);
        if ok {
          nodes := nodes[at := Scalar(NumberOf(kind, width, FromBe(data[size + 1..size + 1 + width])))];
        }
      case Bytes(isStr, width, len) =>
        ok := ReserveBytes(width);
        if ok {
          var n := Extent(data, size, width, len);
          var off := size + currentNodeReserved + 1;
          ok := ReserveBytes(n);
          nodes := nodes[at := Span(isStr, off, n)];
        }
      case Compound(isMap, width, count) =>
        ok := ReserveBytes(width);
        if ok {
          ExtentBound(data, size, width, count);
          ok := ParseChildren(at, isMap, Extent(data, size, width, count));
        }
    }

    /** Moves behind a parsed node: its children stay claimed but unread. A map's 32-bit size may wrap around. */
    method ParseNode(at: nat) returns (ok: bool)
      requires Valid() && at < |nodes| && size + 1 + possibleNodesLeft <= |data|
      modifies this
      ensures var h := HeadAt(data, old(size)); ok <==> !h.Broken? && Claim(h, old(size)) <= old(possibleNodesLeft)
      ensures ok ==> var h := HeadAt(data, old(size));
                     && size == NodeEnd(h) && possibleNodesLeft == old(possibleNodesLeft) - Claim(h, old(size))
                     && Filled(h, at, old(nodes), nodes, old(stack), stack)
                     && nodeCount == old(nodeCount) + |nodes| - |old(nodes)|
    {
      hide LeftSum, FromBe, FormOf, HeadAt;
      ok := ParseNodeContents(at);
      if !ok {
        return;
      }
      possibleNodesLeft := possibleNodesLeft - currentNodeReserved;
      var nodeSize := currentNodeReserved + 1;
      if nodes[at].Container? {
        HeadCount(data, size);
        nodeSize := nodeSize - if nodes[at].isMap then nodes[at].count * 2 % TWO32 else nodes[at].count;
      }
      size := size + nodeSize;
    }

    /**
     Parses until the stack is empty: the recursive decoder's tree, or its rejection; or until
     a huge map misplaces the next node.
     */
    method ContinueParsing() returns (r: Outcome)
      requires Valid() && size == 0 && stack == [Level(0, 1)] && nodes == [Unused]
      modifies this
      ensures r.Astray? <==> Misled(data, 0, 1)
      ensures r.Accepted? ==> Decode(data, 0).Ok? && size == Decode(data, 0).end && Represents(data, nodes, 0, Decode(data, 0).v)
      ensures r.Refused? ==> Decode(data, 0).Rejected?
      ensures r.Astray? ==> Misplaced(data, size)
    {
      hide Misled, NodeEnd;
      hide Decode, DecodeMany, Complete, Linked, Represents, LeftSum, HeadAt, Claim;
      ghost var frames := [Frame(false, [], 1, 0)];
      assert Linked(data, nodes, stack, frames) by { RootLinked(data); }
      RootSum();
      while true
        invariant Valid() && Linked(data, nodes, stack, frames) && stack != [] && stack[|stack| - 1].left > 0
        invariant frames != [] && frames[0].first == 0
        invariant Complete(data, frames, size) == Complete(data, [Frame(false, [], 1, 0)], 0)
        invariant Misled(data, size, LeftSum(stack)) == Misled(data, 0, 1)
        decreases |data| - size
      {
        ghost var frames0, size0, stack0, nodes0, budget := frames, size, stack, nodes, possibleNodesLeft;
        var level := |stack| - 1;
        LinkedTop(data, nodes, stack, frames);
        SteppedSum(stack);
        var at := stack[level].child;
        var ok := ParseNode(at);
        RootComplete(data);
        MisledStep(data, size0, LeftSum(stack0), budget);
        if !ok {
          RejectedEarly(data, nodes0, stack0, frames0, size0, budget);
          return Refused;
        }
        if nodes[at].Container? && nodes[at].isMap && nodes[at].count >= TWO31 {
          assert Huge(HeadAt(data, size0)) && size == NodeEnd(HeadAt(data, size0));
          return Astray;
        }
        StepLinked(data, size0, nodes0, nodes, stack0, stack, frames0);
        StepComplete(data, size0, frames0, |nodes0|);
        StepBudget(HeadAt(data, size0), size0, nodes0, nodes, stack0, stack);
        frames := NextFrames(HeadAt(data, size0), frames0, |nodes0|);
        stack := stack[level := Level(stack[level].child + 1, stack[level].left - 1)];
        while stack[|stack| - 1].left == 0
          invariant Valid() && Linked(data, nodes, stack, frames) && stack != [] && size > size0
          invariant frames != [] && frames[0].first == 0
          invariant Complete(data, frames, size) == Complete(data, [Frame(false, [], 1, 0)], 0)
          invariant Misled(data, size, LeftSum(stack)) == Misled(data, 0, 1)
          decreases |stack|
        {
          LinkedTop(data, nodes, stack, frames);
          if |stack| == 1 {
            FinalRoot(data, frames, size);
            assert Represents(data, nodes, frames[0].first + 0, frames[0].values[0]);
            NothingPending(data, size, stack);
            return Accepted;
          }
          CompleteFull(data, frames, size);
          CloseLinked(data, nodes, stack, frames);
          PopSum(stack);
          frames := Finish(frames, frames[|frames| - 1].values);
          stack := stack[..|stack| - 1];
        }
      }
    }
  }

  lemma PopSum(stack: seq<Level>)
    requires stack != [] && stack[|stack| - 1].left == 0
    ensures LeftSum(stack[..|stack| - 1]) == LeftSum(stack)
  {
  }

  lemma FinalRoot(data: seq<byte>, frames: seq<Frame>, pos: nat)
    requires |frames| == 1 && frames[0].left == 0
    ensures Complete(data, frames, pos) == Ok(frames[0].values, pos)
  {
    assert frames[0].values + [] == frames[0].values;
  }

  /**
   Parsing a message that is all there. It goes astray exactly when it meets a huge map it can pay
   for, never on data of less than 2^32 bytes; otherwise it does what the decoder does.
   */
  method ParseTree(data: seq<byte>) returns (r: Outcome, nodes: seq<Node>, size: nat)
    requires |data| < TWO63
    ensures r.Astray? <==> Misled(data, 0, 1)
    ensures r.Accepted? ==> Decode(data, 0).Ok? && size == Decode(data, 0).end && Represents(data, nodes, 0, Decode(data, 0).v)
    ensures r.Refused? ==> Decode(data, 0).Rejected?
    ensures r.Astray? ==> Misplaced(data, size)
    ensures |data| < TWO32 ==> !r.Astray?
  {
    if |data| < 1 {
      return Refused, [], 0;
    }
    hide Decode, Represents, Misled, Misplaced;
    if |data| < TWO32 {
      SmallDataIsSafe(data, 0, 1);
    }
    var p := new Parser(data);
    r := p.ContinueParsing();
    nodes, size := p.nodes, p.size;
  }

  /** An arena node is the root of one tree only. */
  lemma {:induction false} RepresentsOne(data: seq<byte>, nodes: seq<Node>, i: nat, v: Value, v': Value)
    requires Represents(data, nodes, i, v) && Represents(data, nodes, i, v')
    ensures v == v'
    decreases v
  {
    if nodes[i].Container? {
      forall j | 0 <= j < |v.items|
        ensures v.items[j] == v'.items[j]
      {
        RepresentsOne(data, nodes, nodes[i].children + j, v.items[j], v'.items[j]);
      }
      assert v.items == v'.items;
    }
  }
}
