/**
 The stored form of a chain: what is written into a message, and what is rebuilt from one.
 Enumerators travel as plain integers and are not checked when they come back; indices,
 feature flags, element sizes and the choice of a trie are not stored but computed again.
 A chain the daemon has built comes back exactly as it was.
 */
module Serial {
  import opened Bits
  import opened Msgpack
  import opened Pack
  import C = Chain

  datatype Option<T> = None | Some(v: T)

  datatype Matcher = Matcher(kind: int, op: int, payload: seq<byte>)

  datatype Rule = Rule(index: nat, log: nat, counters: bool, mark: nat, verdict: int, matchers: seq<Matcher>)

  datatype Set = Set(name: Option<seq<byte>>, key: seq<int>, elemSize: nat, useTrie: bool, elems: seq<seq<byte>>)

  datatype Chain = Chain(name: seq<byte>, hook: int, policy: int, flags: C.Flags, sets: seq<Set>, rules: seq<Rule>)

  const META_MARK := 6
  const IP6_NEXTHDR := 16
  const NETWORKS := {8, 10, 13, 15}
  const MAX_COMPONENTS := 8
  const TERMINAL_VERDICTS := 2

  // Keys of the objects, as bytes.
  const NAME: seq<byte> := [110, 97, 109, 101]
  const HOOK: seq<byte> := [104, 111, 111, 107]
  const POLICY: seq<byte> := [112, 111, 108, 105, 99, 121]
  const SETS: seq<byte> := [115, 101, 116, 115]
  const RULES: seq<byte> := [114, 117, 108, 101, 115]
  const INDEX: seq<byte> := [105, 110, 100, 101, 120]
  const LOG: seq<byte> := [108, 111, 103]
  const COUNTERS: seq<byte> := [99, 111, 117, 110, 116, 101, 114, 115]
  const MARK: seq<byte> := [109, 97, 114, 107]
  const VERDICT: seq<byte> := [118, 101, 114, 100, 105, 99, 116]
  const MATCHERS: seq<byte> := [109, 97, 116, 99, 104, 101, 114, 115]
  const TYPE: seq<byte> := [116, 121, 112, 101]
  const OP: seq<byte> := [111, 112]
  const PAYLOAD: seq<byte> := [112, 97, 121, 108, 111, 97, 100]
  const KEY: seq<byte> := [107, 101, 121]
  const ELEMENTS: seq<byte> := [101, 108, 101, 109, 101, 110, 116, 115]

  // ---- objects ----

  datatype Entry = Entry(key: seq<byte>, value: Value)

  function Pairs(es: seq<Entry>): (r: seq<Value>)
    ensures |r| == 2 * |es|
  {
    if es == [] then [] else [Str(es[0].key), es[0].value] + Pairs(es[1..])
  }

  function CanonEntries(es: seq<Entry>): (r: seq<Entry>)
    ensures |r| == |es| && forall i :: 0 <= i < |es| ==> r[i] == Entry(es[i].key, Canon(es[i].value))
  {
    seq(|es|, i requires 0 <= i < |es| => Entry(es[i].key, Canon(es[i].value)))
  }

  predicate Distinct(es: seq<Entry>) {
    forall i, j :: 0 <= i < j < |es| ==> es[i].key != es[j].key
  }

  lemma {:induction false} CanonPairs(es: seq<Entry>)
    ensures CanonAll(Pairs(es)) == Pairs(CanonEntries(es))
    decreases |es|
  {
    if es != [] {
      CanonPairs(es[1..]);
      var items := Pairs(es);
      assert items[1..][1..] == Pairs(es[1..]);
      assert CanonAll(items) == [Canon(items[0])] + ([Canon(items[1])] + CanonAll(items[1..][1..]));
      assert CanonEntries(es)[1..] == CanonEntries(es[1..]);
    }
  }

  lemma {:induction false} FindAbsent(es: seq<Entry>, key: seq<byte>)
    requires forall i :: 0 <= i < |es| ==> es[i].key != key
    ensures Find(Pairs(es), key) == Absent
    decreases |es|
  {
    if es != [] {
      assert Pairs(es)[2..] == Pairs(es[1..]);
      FindAbsent(es[1..], key);
    }
  }

  /** In an object with distinct keys, every key leads to its value. */
  lemma {:induction false} FindEntry(es: seq<Entry>, i: nat)
    requires Distinct(es) && i < |es|
    ensures Find(Pairs(es), es[i].key) == Found(es[i].value)
    decreases |es|
  {
    assert Pairs(es)[2..] == Pairs(es[1..]);
    if i == 0 {
      FindAbsent(es[1..], es[0].key);
    } else {
      FindEntry(es[1..], i - 1);
    }
  }

  /** Reading a field of an object that has been packed and read back. */
  lemma FieldBack(es: seq<Entry>, i: nat)
    requires Distinct(es) && i < |es|
    ensures Field(Canon(Map(Pairs(es))), es[i].key) == Some(Canon(es[i].value))
  {
    hide Canon, Find, Pairs;
    CanonPairs(es);
    assert Canon(Map(Pairs(es))) == Map(CanonAll(Pairs(es))) by { CanonOfMap(Pairs(es)); }
    FindEntry(CanonEntries(es), i);
  }

  lemma CanonOfMap(items: seq<Value>)
    ensures Canon(Map(items)) == Map(CanonAll(items))
  {
  }

  function Field(v: Value, key: seq<byte>): Option<Value> {
    if !v.Map? then None
    else match Find(v.items, key) case Found(x) => Some(x) case _ => None
  }

  function Want<T>(a: Access<T>): Option<T> {
    match a case Got(v) => Some(v) case _ => None
  }

  function IntField(v: Value, key: seq<byte>): Option<int> {
    match Field(v, key) case Some(x) => Want(GetInt(x)) case None => None
  }

  function UIntField(v: Value, key: seq<byte>, width: nat): Option<nat> {
    match Field(v, key) case Some(x) => Want(GetUInt(x, width)) case None => None
  }

  function ListField(v: Value, key: seq<byte>): Option<seq<Value>> {
    match Field(v, key) case Some(Array(items)) => Some(items) case _ => None
  }

  // ---- lists ----

  function PackList<T>(xs: seq<T>, pack: T -> Value): (r: seq<Value>)
    ensures |r| == |xs| && forall i :: 0 <= i < |xs| ==> r[i] == pack(xs[i])
  {
    seq(|xs|, i requires 0 <= i < |xs| => pack(xs[i]))
  }

  /** Every element is unpacked; the first that fails ends it. */
  function UnpackList<T>(items: seq<Value>, unpack: Value -> Option<T>): Option<seq<T>> {
    if items == [] then Some([])
    else
      match unpack(items[0])
      case None => None
      case Some(x) => match UnpackList(items[1..], unpack) case None => None case Some(xs) => Some([x] + xs)
  }

  /** A list comes back when all its elements do, and is refused otherwise. */
  lemma {:induction false} ListBack<T>(xs: seq<T>, pack: T -> Value, unpack: Value -> Option<T>, ok: T -> bool)
    requires forall i :: 0 <= i < |xs| ==> unpack(Canon(pack(xs[i]))) == if ok(xs[i]) then Some(xs[i]) else None
    ensures UnpackList(CanonAll(PackList(xs, pack)), unpack) == if forall i :: 0 <= i < |xs| ==> ok(xs[i]) then Some(xs) else None
    decreases |xs|
  {
    if xs != [] {
      var rest := xs[1..];
      assert PackList(xs, pack)[1..] == PackList(rest, pack);
      assert forall i :: 0 <= i < |rest| ==> rest[i] == xs[i + 1];
      ListBack(rest, pack, unpack, ok);
      assert [xs[0]] + rest == xs;
      assert forall i :: 0 < i < |xs| ==> xs[i] == rest[i - 1];
    }
  }

  predicate IsInt(i: int) {
    -INT_LIMIT <= i < INT_LIMIT
  }

  lemma IntBack(i: int)
    requires IsInt(i)
    ensures Want(GetInt(Canon(Int(i)))) == Some(i)
  {
  }

  // ---- matchers ----

  predicate ValidMatcher(m: Matcher) {
    IsInt(m.kind) && IsInt(m.op)
  }

  function MatcherEntries(m: Matcher): seq<Entry> {
    [Entry(TYPE, Int(m.kind)), Entry(OP, Int(m.op)), Entry(PAYLOAD, Bin(m.payload))]
  }

  function PackMatcher(m: Matcher): Value {
    Map(Pairs(MatcherEntries(m)))
  }

  function BinField(v: Value, key: seq<byte>): Option<seq<byte>> {
    match Field(v, key) case Some(x) => Want(GetBin(x)) case None => None
  }

  /** A matcher without payload is refused by an assertion of the constructor. */
  function UnpackMatcher(v: Value): Option<Matcher> {
    match (IntField(v, TYPE), IntField(v, OP), BinField(v, PAYLOAD))
    case (Some(kind), Some(op), Some(payload)) => if payload == [] then None else Some(Matcher(kind, op, payload))
    case _ => None
  }

  predicate HasPayload(m: Matcher) {
    m.payload != []
  }

  /** A packed matcher comes back if and only if it has a payload. */
  lemma MatcherBack(m: Matcher)
    requires ValidMatcher(m)
    ensures UnpackMatcher(Canon(PackMatcher(m))) == if HasPayload(m) then Some(m) else None
  {
    var es := MatcherEntries(m);
    assert TYPE[0] != OP[0] && TYPE[0] != PAYLOAD[0] && OP[0] != PAYLOAD[0];
    assert Distinct(es);
    hide Field, Find, Pairs;
    FieldBack(es, 0);
    FieldBack(es, 1);
    FieldBack(es, 2);
    IntBack(m.kind);
    IntBack(m.op);
  }

  // ---- rules ----

  predicate ValidRule(r: Rule) {
    && r.index < TWO32 && r.log < TWO8 && r.mark < TWO64 && IsInt(r.verdict)
    && forall m :: m in r.matchers ==> ValidMatcher(m)
  }

  function RuleEntries(r: Rule): seq<Entry> {
    [Entry(INDEX, UInt(r.index)), Entry(LOG, UInt(r.log)), Entry(COUNTERS, Bool(r.counters)), Entry(MARK, UInt(r.mark)),
     Entry(VERDICT, Int(r.verdict)), Entry(MATCHERS, Array(PackList(r.matchers, PackMatcher)))]
  }

  function PackRule(r: Rule): Value {
    Map(Pairs(RuleEntries(r)))
  }

  function BoolField(v: Value, key: seq<byte>): Option<bool> {
    match Field(v, key) case Some(x) => Want(GetBool(x)) case None => None
  }

  function MatcherListField(v: Value, key: seq<byte>): Option<seq<Matcher>> {
    match ListField(v, key) case Some(items) => UnpackList(items, UnpackMatcher) case None => None
  }

  function UnpackRule(v: Value): Option<Rule> {
    match (UIntField(v, INDEX, 4), UIntField(v, LOG, 1), BoolField(v, COUNTERS), UIntField(v, MARK, 8))
    case (Some(index), Some(log), Some(counters), Some(mark)) =>
      (match (IntField(v, VERDICT), MatcherListField(v, MATCHERS))
       case (Some(verdict), Some(matchers)) => Some(Rule(index, log, counters, mark, verdict, matchers))
       case _ => None)
    case _ => None
  }

  lemma RuleKeys(r: Rule)
    ensures Distinct(RuleEntries(r))
  {
    assert INDEX[0] == 105 && LOG[0] == 108 && COUNTERS[0] == 99 && MARK[0] == 109 && VERDICT[0] == 118 && MATCHERS[0] == 109;
    assert |MARK| == 4 && |MATCHERS| == 8;
  }

  lemma CanonOfArray(items: seq<Value>)
    ensures Canon(Array(items)) == Array(CanonAll(items))
  {
  }

  predicate AllHavePayload(ms: seq<Matcher>) {
    forall i :: 0 <= i < |ms| ==> HasPayload(ms[i])
  }

  lemma MatchersBack(ms: seq<Matcher>)
    requires forall m :: m in ms ==> ValidMatcher(m)
    ensures UnpackList(CanonAll(PackList(ms, PackMatcher)), UnpackMatcher) == if AllHavePayload(ms) then Some(ms) else None
  {
    hide UnpackMatcher, PackMatcher, HasPayload;
    forall i | 0 <= i < |ms|
      ensures UnpackMatcher(Canon(PackMatcher(ms[i]))) == if HasPayload(ms[i]) then Some(ms[i]) else None
    {
      assert ms[i] in ms;
      MatcherBack(ms[i]);
    }
    ListBack(ms, PackMatcher, UnpackMatcher, HasPayload);
  }

  predicate RuleHasPayloads(r: Rule) {
    AllHavePayload(r.matchers)
  }

  /** A packed rule comes back if and only if all its matchers have a payload. */
  lemma RuleBack(r: Rule)
    requires ValidRule(r)
    ensures UnpackRule(Canon(PackRule(r))) == if RuleHasPayloads(r) then Some(r) else None
  {
    var es := RuleEntries(r);
    RuleKeys(r);
    Limits();
    hide Field, Find, Pairs, Distinct, Limit, UnpackList, PackMatcher, UnpackMatcher, CanonAll, PackList, AllHavePayload;
    FieldBack(es, 0);
    FieldBack(es, 1);
    FieldBack(es, 2);
    FieldBack(es, 3);
    FieldBack(es, 4);
    FieldBack(es, 5);
    IntBack(r.verdict);
    CanonOfArray(PackList(r.matchers, PackMatcher));
    MatchersBack(r.matchers);
  }

  // ---- sets ----

  /** Sizes of the matchers that can be components of a set key. */
  type Sizes = map<int, nat>

  predicate Supported(ops: Sizes, key: seq<int>) {
    forall i :: 0 <= i < |key| ==> key[i] in ops
  }

  predicate HasNetwork(key: seq<int>) {
    exists i :: 0 <= i < |key| && key[i] in NETWORKS
  }

  function SizeSum(ops: Sizes, key: seq<int>): nat
    requires Supported(ops, key)
  {
    if key == [] then 0 else SizeSum(ops, key[..|key| - 1]) + ops[key[|key| - 1]]
  }

  /** A set without elements for a key, or a refusal. */
  function NewSet(ops: Sizes, name: Option<seq<byte>>, key: seq<int>): Option<Set> {
    if key == [] || |key| > MAX_COMPONENTS || !Supported(ops, key) || (|key| > 1 && HasNetwork(key)) then None
    else Some(Set(name, key, SizeSum(ops, key), |key| == 1 && key[0] in NETWORKS, []))
  }

  /** The constructor's loop: sizes are added up and kinds collected until one is not supported. */
  method MakeSet(ops: Sizes, name: Option<seq<byte>>, key: seq<int>) returns (r: Option<Set>)
    ensures r == NewSet(ops, name, key)
    ensures r.Some? <==> && 1 <= |key| <= 8 && (forall i :: 0 <= i < |key| ==> key[i] in ops)
                         && (|key| > 1 ==> forall i :: 0 <= i < |key| ==> key[i] !in {8, 10, 13, 15})
    ensures r.Some? ==> r.v.name == name && r.v.key == key && r.v.elems == []
    ensures r.Some? ==> (r.v.useTrie <==> |key| == 1 && key[0] in {8, 10, 13, 15})
    ensures r.Some? && |key| == 1 ==> r.v.elemSize == ops[key[0]]
  {
    if |key| == 0 || |key| > MAX_COMPONENTS {
      return None;
    }
    var size, mask := 0, {};
    for i := 0 to |key|
      invariant Supported(ops, key[..i]) && size == SizeSum(ops, key[..i])
      invariant forall k :: k in mask <==> k in key[..i]
    {
      if key[i] !in ops {
        return None;
      }
      assert key[..i + 1][..i] == key[..i];
      size := size + ops[key[i]];
      mask := mask + {key[i]};
    }
    assert key[..|key|] == key;
    assert mask * NETWORKS != {} <==> HasNetwork(key) by {
      if HasNetwork(key) {
        var i :| 0 <= i < |key| && key[i] in NETWORKS;
        assert key[i] in mask * NETWORKS;
      }
      if mask * NETWORKS != {} {
        var k :| k in mask * NETWORKS;
        assert k in key;
      }
    }
    if |key| > 1 && mask * NETWORKS != {} {
      return None;
    }
    return Some(Set(name, key, size, |key| == 1 && mask * NETWORKS != {}, []));
  }

  /** The size of a key is the sum of the sizes of the keys it is made of; of one component, its own. */
  lemma SizesAdd(ops: Sizes, name: Option<seq<byte>>, a: seq<int>, b: seq<int>)
    requires a != [] && b != [] && NewSet(ops, name, a + b).Some?
    ensures NewSet(ops, name, a).Some? && NewSet(ops, name, b).Some?
    ensures NewSet(ops, name, a + b).v.elemSize == NewSet(ops, name, a).v.elemSize + NewSet(ops, name, b).v.elemSize
    ensures |a| == 1 ==> NewSet(ops, name, a).v.elemSize == ops[a[0]]
  {
    assert forall i :: 0 <= i < |a| ==> (a + b)[i] == a[i];
    assert forall i :: 0 <= i < |b| ==> (a + b)[|a| + i] == b[i];
    SizeSumConcat(ops, a, b);
    if |a| == 1 {
      assert a[..0] == [];
    }
  }

  lemma {:induction false} SizeSumConcat(ops: Sizes, a: seq<int>, b: seq<int>)
    requires Supported(ops, a) && Supported(ops, b)
    ensures Supported(ops, a + b) && SizeSum(ops, a + b) == SizeSum(ops, a) + SizeSum(ops, b)
    decreases |b|
  {
    assert forall i :: |a| <= i < |a + b| ==> (a + b)[i] == b[i - |a|];
    if b == [] {
      assert a + b == a;
    } else {
      var n := |b| - 1;
      SizeSumConcat(ops, a, b[..n]);
      assert (a + b)[..|a + b| - 1] == a + b[..n];
    }
  }

  predicate ValidName(name: seq<byte>) {
    0 !in name
  }

  /** Element size and trie choice are those of the key, and every element has that size. */
  predicate Consistent(ops: Sizes, s: Set) {
    NewSet(ops, s.name, s.key) == Some(s.(elems := [])) && forall e :: e in s.elems ==> |e| == s.elemSize
  }

  predicate ValidSet(ops: Sizes, s: Set) {
    && (s.name.Some? ==> ValidName(s.name.v))
    && (forall k :: k in s.key ==> IsInt(k))
    && Consistent(ops, s)
  }

  function PackKind(kind: int): Value { Int(kind) }
  function UnpackKind(v: Value): Option<int> { Want(GetInt(v)) }
  function PackBin(s: seq<byte>): Value { Bin(s) }
  function UnpackBin(v: Value): Option<seq<byte>> { Want(GetBin(v)) }

  function SetEntries(s: Set): seq<Entry> {
    [Entry(NAME, if s.name.Some? then Str(s.name.v) else Nil), Entry(KEY, Array(PackList(s.key, PackKind))),
     Entry(ELEMENTS, Array(PackList(s.elems, PackBin)))]
  }

  function PackSet(s: Set): Value {
    Map(Pairs(SetEntries(s)))
  }

  /** A set's name may be nil. */
  function NameField(v: Value, key: seq<byte>): Option<Option<seq<byte>>> {
    match Field(v, key)
    case None => None
    case Some(Nil) => Some(None)
    case Some(x) => match GetStr(x) case Got(s) => Some(Some(s)) case _ => None
  }

  function KeyField(v: Value, key: seq<byte>): Option<seq<int>> {
    match ListField(v, key)
    case Some(items) => if |items| > MAX_COMPONENTS then None else UnpackList(items, UnpackKind)
    case None => None
  }

  function ElemsField(v: Value, key: seq<byte>): Option<seq<seq<byte>>> {
    match ListField(v, key) case Some(items) => UnpackList(items, UnpackBin) case None => None
  }

  function UnpackSet(ops: Sizes, v: Value): Option<Set> {
    match (NameField(v, NAME), KeyField(v, KEY))
    case (Some(name), Some(key)) =>
      (match (NewSet(ops, name, key), ElemsField(v, ELEMENTS))
       case (Some(s), Some(elems)) =>
         if exists e :: e in elems && |e| != s.elemSize then None else Some(s.(elems := elems))
       case _ => None)
    case _ => None
  }

  lemma SetKeys(s: Set)
    ensures Distinct(SetEntries(s))
  {
    assert NAME[0] == 110 && KEY[0] == 107 && ELEMENTS[0] == 101;
  }

  lemma KindsBack(key: seq<int>)
    requires forall k :: k in key ==> IsInt(k)
    ensures UnpackList(CanonAll(PackList(key, PackKind)), UnpackKind) == Some(key)
  {
    forall i | 0 <= i < |key|
      ensures UnpackKind(Canon(PackKind(key[i]))) == Some(key[i])
    {
      IntBack(key[i]);
    }
    ListBack(key, PackKind, UnpackKind, _ => true);
  }

  lemma BinsBack(xs: seq<seq<byte>>)
    ensures UnpackList(CanonAll(PackList(xs, PackBin)), UnpackBin) == Some(xs)
  {
    ListBack(xs, PackBin, UnpackBin, _ => true);
  }

  lemma SetNameBack(s: Set)
    requires s.name.Some? ==> ValidName(s.name.v)
    ensures NameField(Canon(PackSet(s)), NAME) == Some(s.name)
  {
    hide Field, Find, Pairs, Distinct;
    SetKeys(s);
    FieldBack(SetEntries(s), 0);
  }

  lemma SetKeyBack(s: Set)
    requires |s.key| <= MAX_COMPONENTS && forall k :: k in s.key ==> IsInt(k)
    ensures KeyField(Canon(PackSet(s)), KEY) == Some(s.key)
  {
    hide Field, Find, Pairs, Distinct, UnpackList;
    SetKeys(s);
    FieldBack(SetEntries(s), 1);
    CanonOfArray(PackList(s.key, PackKind));
    KindsBack(s.key);
  }

  lemma SetElemsBack(s: Set)
    ensures ElemsField(Canon(PackSet(s)), ELEMENTS) == Some(s.elems)
  {
    hide Field, Find, Pairs, Distinct, UnpackList;
    SetKeys(s);
    FieldBack(SetEntries(s), 2);
    CanonOfArray(PackList(s.elems, PackBin));
    BinsBack(s.elems);
  }

  lemma SetBack(ops: Sizes, s: Set)
    requires ValidSet(ops, s)
    ensures UnpackSet(ops, Canon(PackSet(s))) == Some(s)
  {
    assert |s.key| <= MAX_COMPONENTS;
    hide NameField, KeyField, ElemsField, NewSet, Canon, PackSet;
    SetNameBack(s);
    SetKeyBack(s);
    SetElemsBack(s);
  }

  // ---- chains ----

  predicate Uses(r: Rule, kind: int) {
    exists m :: m in r.matchers && m.kind == kind
  }

  /** The features a chain with these rules needs. */
  function FlagsOf(rules: seq<Rule>): C.Flags {
    C.Flags(exists r :: r in rules && r.log != 0, exists r :: r in rules && Uses(r, IP6_NEXTHDR),
            exists r :: r in rules && r.mark / TWO32 != 0, exists r :: r in rules && Uses(r, META_MARK))
  }

  function Reindexed(rules: seq<Rule>): (r: seq<Rule>)
    ensures |r| == |rules| && forall i :: 0 <= i < |rules| ==> r[i] == rules[i].(index := i)
  {
    seq(|rules|, i requires 0 <= i < |rules| => rules[i].(index := i))
  }

  /** Construction; a policy that is no terminal verdict is refused by an assertion. */
  function NewChain(name: seq<byte>, hook: int, policy: int, sets: seq<Set>, rules: seq<Rule>): (r: Option<Chain>)
    ensures r.Some? <==> policy == 0 || policy == 1
  {
    if 0 <= policy < TERMINAL_VERDICTS
    then Some(Chain(name, hook, policy, FlagsOf(Reindexed(rules)), sets, Reindexed(rules))) else None
  }

  predicate ValidChain(ops: Sizes, c: Chain) {
    && ValidName(c.name) && IsInt(c.hook) && 0 <= c.policy < TERMINAL_VERDICTS
    && (forall s :: s in c.sets ==> ValidSet(ops, s)) && (forall r :: r in c.rules ==> ValidRule(r))
    && (forall i :: 0 <= i < |c.rules| ==> c.rules[i].index == i) && c.flags == FlagsOf(c.rules)
  }

  function ChainEntries(c: Chain): seq<Entry> {
    [Entry(NAME, Str(c.name)), Entry(HOOK, Int(c.hook)), Entry(POLICY, Int(c.policy)),
     Entry(SETS, Array(PackList(c.sets, PackSet))), Entry(RULES, Array(PackList(c.rules, PackRule)))]
  }

  function PackChain(c: Chain): Value {
    Map(Pairs(ChainEntries(c)))
  }

  function StrField(v: Value, key: seq<byte>): Option<seq<byte>> {
    match Field(v, key) case Some(x) => Want(GetStr(x)) case None => None
  }

  function SetListField(ops: Sizes, v: Value, key: seq<byte>): Option<seq<Set>> {
    match ListField(v, key) case Some(items) => UnpackList(items, x => UnpackSet(ops, x)) case None => None
  }

  function RuleListField(v: Value, key: seq<byte>): Option<seq<Rule>> {
    match ListField(v, key) case Some(items) => UnpackList(items, UnpackRule) case None => None
  }

  function UnpackChain(ops: Sizes, v: Value): Option<Chain> {
    match (StrField(v, NAME), IntField(v, HOOK), IntField(v, POLICY))
    case (Some(name), Some(hook), Some(policy)) =>
      (match (SetListField(ops, v, SETS), RuleListField(v, RULES))
       case (Some(sets), Some(rules)) => NewChain(name, hook, policy, sets, rules)
       case _ => None)
    case _ => None
  }

  lemma ChainKeys(c: Chain)
    ensures Distinct(ChainEntries(c))
  {
    assert NAME[0] == 110 && HOOK[0] == 104 && POLICY[0] == 112 && SETS[0] == 115 && RULES[0] == 114;
  }

  lemma SetsBack(ops: Sizes, sets: seq<Set>)
    requires forall s :: s in sets ==> ValidSet(ops, s)
    ensures UnpackList(CanonAll(PackList(sets, PackSet)), x => UnpackSet(ops, x)) == Some(sets)
  {
    hide ValidSet, UnpackSet;
    var unpack := x => UnpackSet(ops, x);
    forall i | 0 <= i < |sets|
      ensures unpack(Canon(PackSet(sets[i]))) == Some(sets[i])
    {
      assert sets[i] in sets;
      SetBack(ops, sets[i]);
    }
    ListBack(sets, PackSet, unpack, _ => true);
  }

  predicate AllRulesHavePayloads(rules: seq<Rule>) {
    forall i :: 0 <= i < |rules| ==> RuleHasPayloads(rules[i])
  }

  lemma RulesBack(rules: seq<Rule>)
    requires forall r :: r in rules ==> ValidRule(r)
    ensures UnpackList(CanonAll(PackList(rules, PackRule)), UnpackRule) == if AllRulesHavePayloads(rules) then Some(rules) else None
  {
    hide ValidRule, UnpackRule, RuleHasPayloads, PackRule;
    forall i | 0 <= i < |rules|
      ensures UnpackRule(Canon(PackRule(rules[i]))) == if RuleHasPayloads(rules[i]) then Some(rules[i]) else None
    {
      assert rules[i] in rules;
      RuleBack(rules[i]);
    }
    ListBack(rules, PackRule, UnpackRule, RuleHasPayloads);
  }

  /**
   What is packed comes back: the same chain, its flags, indices, sizes and trie choices included,
   if and only if every matcher has a payload; otherwise it is refused.
   */
  lemma ChainBack(ops: Sizes, c: Chain)
    requires ValidChain(ops, c)
    ensures UnpackChain(ops, Canon(PackChain(c))) == if AllRulesHavePayloads(c.rules) then Some(c) else None
  {
    var es := ChainEntries(c);
    ChainKeys(c);
    hide Field, Find, Pairs, Distinct, UnpackList, CanonAll, PackList, UnpackSet, UnpackRule, PackSet, PackRule,
         ValidSet, ValidRule, FlagsOf, AllRulesHavePayloads;
    FieldBack(es, 0);
    FieldBack(es, 1);
    FieldBack(es, 2);
    FieldBack(es, 3);
    FieldBack(es, 4);
    IntBack(c.hook);
    IntBack(c.policy);
    CanonOfArray(PackList(c.sets, PackSet));
    CanonOfArray(PackList(c.rules, PackRule));
    SetsBack(ops, c.sets);
    RulesBack(c.rules);
    assert Reindexed(c.rules) == c.rules;
  }

  /** The same over the bytes of a message. */
  lemma ChainOverTheWire(ops: Sizes, c: Chain)
    requires ValidChain(ops, c) && Fits(PackChain(c))
    ensures var r := Decode(Encode(PackChain(c)), 0);
            r.Ok? && UnpackChain(ops, r.v) == if AllRulesHavePayloads(c.rules) then Some(c) else None
  {
    hide Decode, Encode, ValidChain, UnpackChain, PackChain, AllRulesHavePayloads;
    MessageRoundTrip(PackChain(c));
    ChainBack(ops, c);
  }

  // ---- what a message holds under which name ----

  function Ascii(s: string): (r: seq<byte>)
    requires forall i :: 0 <= i < |s| ==> s[i] < 128 as char
  {
    seq(|s|, i requires 0 <= i < |s| => s[i] as int)
  }

  /** The entry of an object under a name. */
  predicate Holds(v: Value, name: string, x: Value) {
    (forall i :: 0 <= i < |name| ==> name[i] < 128 as char) && Field(v, Ascii(name)) == Some(x)
  }

  lemma EntryHeld(es: seq<Entry>, i: nat, name: string)
    requires Distinct(es) && i < |es|
    requires (forall i :: 0 <= i < |name| ==> name[i] < 128 as char) && es[i].key == Ascii(name)
    ensures Holds(Map(Pairs(es)), name, es[i].value)
  {
    FindEntry(es, i);
  }

  lemma MatcherStores(m: Matcher)
    ensures var v := PackMatcher(m);
            Holds(v, "type", Int(m.kind)) && Holds(v, "op", Int(m.op)) && Holds(v, "payload", Bin(m.payload))
  {
    var es := MatcherEntries(m);
    assert TYPE[0] != OP[0] && TYPE[0] != PAYLOAD[0] && OP[0] != PAYLOAD[0];
    hide Pairs, Holds;
    EntryHeld(es, 0, "type");
    EntryHeld(es, 1, "op");
    EntryHeld(es, 2, "payload");
  }

  lemma RuleStores(r: Rule)
    ensures var v := PackRule(r);
            && Holds(v, "index", UInt(r.index)) && Holds(v, "log", UInt(r.log)) && Holds(v, "counters", Bool(r.counters))
            && Holds(v, "mark", UInt(r.mark)) && Holds(v, "verdict", Int(r.verdict))
            && Holds(v, "matchers", Array(PackList(r.matchers, PackMatcher)))
  {
    var es := RuleEntries(r);
    RuleKeys(r);
    hide Pairs, Holds, Distinct, PackList;
    EntryHeld(es, 0, "index");
    EntryHeld(es, 1, "log");
    EntryHeld(es, 2, "counters");
    EntryHeld(es, 3, "mark");
    EntryHeld(es, 4, "verdict");
    EntryHeld(es, 5, "matchers");
  }

  lemma SetStores(s: Set)
    ensures var v := PackSet(s);
            && Holds(v, "name", if s.name.Some? then Str(s.name.v) else Nil)
            && Holds(v, "key", Array(PackList(s.key, PackKind))) && Holds(v, "elements", Array(PackList(s.elems, PackBin)))
  {
    var es := SetEntries(s);
    SetKeys(s);
    hide Pairs, Holds, Distinct, PackList;
    EntryHeld(es, 0, "name");
    EntryHeld(es, 1, "key");
    EntryHeld(es, 2, "elements");
  }

  lemma ChainStores(c: Chain)
    ensures var v := PackChain(c);
            && Holds(v, "name", Str(c.name)) && Holds(v, "hook", Int(c.hook)) && Holds(v, "policy", Int(c.policy))
            && Holds(v, "sets", Array(PackList(c.sets, PackSet))) && Holds(v, "rules", Array(PackList(c.rules, PackRule)))
  {
    var es := ChainEntries(c);
    ChainKeys(c);
    hide Pairs, Holds, Distinct, PackList;
    EntryHeld(es, 0, "name");
    EntryHeld(es, 1, "hook");
    EntryHeld(es, 2, "policy");
    EntryHeld(es, 3, "sets");
    EntryHeld(es, 4, "rules");
  }

  // ---- chains the daemon builds ----

  /** Adding a rule gives it the next index and its features to the chain. */
  function AddRule(c: Chain, r: Rule): Chain {
    var rule := r.(index := |c.rules|);
    c.(rules := c.rules + [rule],
       flags := C.Flags(c.flags.log || rule.log != 0, c.flags.storeNexthdr || Uses(rule, IP6_NEXTHDR),
                        c.flags.setMark || rule.mark / TWO32 != 0, c.flags.getMark || Uses(rule, META_MARK)))
  }

  lemma AddRuleKeepsValid(ops: Sizes, c: Chain, r: Rule)
    requires ValidChain(ops, c) && ValidRule(r) && |c.rules| < TWO32
    ensures ValidChain(ops, AddRule(c, r))
  {
    hide ValidSet;
    var rule := r.(index := |c.rules|);
    var rules := c.rules + [rule];
    assert forall x :: x in rules <==> x in c.rules || x == rule;
    assert ValidRule(rule);
    assert AddRule(c, r).flags == FlagsOf(rules);
  }

  /** A matcher without payload does not come back. */
  lemma EmptyPayloadIsRefused(kind: int, op: int)
    requires IsInt(kind) && IsInt(op)
    ensures UnpackMatcher(Canon(PackMatcher(Matcher(kind, op, [])))) == None
  {
    MatcherBack(Matcher(kind, op, []));
  }

  predicate ValidParts(ops: Sizes, name: seq<byte>, hook: int, policy: int, sets: seq<Set>, rules: seq<Rule>) {
    && ValidName(name) && IsInt(hook) && 0 <= policy < TERMINAL_VERDICTS && |rules| < TWO32
    && (forall s :: s in sets ==> ValidSet(ops, s)) && (forall r :: r in rules ==> ValidRule(r))
  }

  /** Construction gives a chain in the form that comes back. */
  lemma NewChainIsValid(ops: Sizes, name: seq<byte>, hook: int, policy: int, sets: seq<Set>, rules: seq<Rule>)
    requires ValidParts(ops, name, hook, policy, sets, rules)
    ensures var c := NewChain(name, hook, policy, sets, rules); c.Some? && ValidChain(ops, c.v)
  {
    hide ValidSet, FlagsOf;
    forall r | r in Reindexed(rules)
      ensures ValidRule(r)
    {
      var i :| 0 <= i < |rules| && Reindexed(rules)[i] == r;
      assert rules[i] in rules;
    }
  }

  function AddRules(c: Chain, rules: seq<Rule>): Chain
    decreases |rules|
  {
    if rules == [] then c else AddRules(AddRule(c, rules[0]), rules[1..])
  }

  lemma {:induction false} AddRulesKeepsValid(ops: Sizes, c: Chain, rules: seq<Rule>)
    requires ValidChain(ops, c) && (forall r :: r in rules ==> ValidRule(r)) && |c.rules| + |rules| < TWO32
    ensures ValidChain(ops, AddRules(c, rules))
    decreases |rules|
  {
    hide ValidChain, ValidRule;
    if rules != [] {
      assert rules[0] in rules;
      AddRuleKeepsValid(ops, c, rules[0]);
      AddRulesKeepsValid(ops, AddRule(c, rules[0]), rules[1..]);
    }
  }

  /**
   Every chain made by construction and any number of added rules comes back from the bytes of
   its message, if and only if all its matchers have a payload.
   */
  lemma BuiltChainsComeBack(ops: Sizes, name: seq<byte>, hook: int, policy: int, sets: seq<Set>, rules: seq<Rule>, more: seq<Rule>)
    requires ValidParts(ops, name, hook, policy, sets, rules) && (forall r :: r in more ==> ValidRule(r))
    requires |rules| + |more| < TWO32
    requires NewChain(name, hook, policy, sets, rules).Some? ==>
               Fits(PackChain(AddRules(NewChain(name, hook, policy, sets, rules).v, more)))
    ensures NewChain(name, hook, policy, sets, rules).Some?
    ensures var c := AddRules(NewChain(name, hook, policy, sets, rules).v, more);
            Fits(PackChain(c)) &&
            var r := Decode(Encode(PackChain(c)), 0);
            && r.Ok?
            && (UnpackChain(ops, r.v) == Some(c) <==> AllRulesHavePayloads(c.rules))
            && (UnpackChain(ops, r.v) == None <==> !AllRulesHavePayloads(c.rules))
  {
    hide ValidChain, ValidRule, UnpackChain, PackChain, Fits, Decode, Encode, AllRulesHavePayloads, AddRules, ValidSet, FlagsOf;
    NewChainIsValid(ops, name, hook, policy, sets, rules);
    var c := NewChain(name, hook, policy, sets, rules).v;
    AddRulesKeepsValid(ops, c, more);
    ChainOverTheWire(ops, AddRules(c, more));
  }

  // ---- the chains the compiler works on ----

  function KindNumber(k: C.MatcherKind): (n: nat)
    ensures n == META_MARK <==> k == C.MetaMark
    ensures n == IP6_NEXTHDR <==> k == C.Ip6Nexthdr
  {
    match k
    case MetaIface => 0 case MetaL3Proto => 1 case MetaL4Proto => 2 case MetaSport => 4 case MetaDport => 5
    case MetaMark => 6 case Ip4Saddr => 7 case Ip4Snet => 8 case Ip4Daddr => 9 case Ip4Dnet => 10 case Ip4Proto => 11
    case Ip6Nexthdr => 16 case IcmpType => 22 case IcmpCode => 23 case Icmpv6Type => 24 case Icmpv6Code => 25
  }

  function OpNumber(op: C.MatcherOp): nat {
    match op case Eq => 0 case Ne => 1 case Any => 2 case All => 3 case In => 4 case Range => 5
  }

  function VerdictNumber(v: C.Verdict): nat {
    match v case Accept => 0 case Drop => 1 case Continue => 2
  }

  function HookNumber(h: C.Hook): nat {
    match h case Xdp => 0 case TcIngress => 1 case CgroupIngress => 5 case CgroupEgress => 6 case TcEgress => 9
  }

  function StoredMatcher(m: C.Matcher): Matcher {
    Matcher(KindNumber(m.kind), OpNumber(m.op), m.payload)
  }

  function StoredMatchers(ms: seq<C.Matcher>): (r: seq<Matcher>)
    ensures |r| == |ms| && forall i :: 0 <= i < |ms| ==> r[i] == StoredMatcher(ms[i])
  {
    seq(|ms|, i requires 0 <= i < |ms| => StoredMatcher(ms[i]))
  }

  function StoredRule(r: C.Rule): Rule {
    Rule(r.index, r.log, r.counters, r.mark, VerdictNumber(r.verdict), StoredMatchers(r.matchers))
  }

  function StoredRules(rules: seq<C.Rule>): (r: seq<Rule>)
    ensures |r| == |rules| && forall i :: 0 <= i < |rules| ==> r[i] == StoredRule(rules[i])
  {
    seq(|rules|, i requires 0 <= i < |rules| => StoredRule(rules[i]))
  }

  /** The stored form of a chain that uses no sets. */
  function Stored(c: C.Chain, name: seq<byte>): Chain {
    Chain(name, HookNumber(c.hook), VerdictNumber(c.policy), c.flags, [], StoredRules(c.rules))
  }

  // ---- back to the compiler's chains ----

  // The enumerators by number, in the order of their declarations; gaps are kinds that are not modelled.
  function KindOf(n: int): Option<C.MatcherKind> {
    match n
    case 0 => Some(C.MetaIface) case 1 => Some(C.MetaL3Proto) case 2 => Some(C.MetaL4Proto)
    case 4 => Some(C.MetaSport) case 5 => Some(C.MetaDport) case 6 => Some(C.MetaMark)
    case 7 => Some(C.Ip4Saddr) case 8 => Some(C.Ip4Snet) case 9 => Some(C.Ip4Daddr) case 10 => Some(C.Ip4Dnet)
    case 11 => Some(C.Ip4Proto) case 16 => Some(C.Ip6Nexthdr)
    case 22 => Some(C.IcmpType) case 23 => Some(C.IcmpCode) case 24 => Some(C.Icmpv6Type) case 25 => Some(C.Icmpv6Code)
    case _ => None
  }

  function OpOf(n: int): Option<C.MatcherOp> {
    match n
    case 0 => Some(C.Eq) case 1 => Some(C.Ne) case 2 => Some(C.Any) case 3 => Some(C.All) case 4 => Some(C.In)
    case 5 => Some(C.Range) case _ => None
  }

  function VerdictOf(n: int): Option<C.Verdict> {
    match n case 0 => Some(C.Accept) case 1 => Some(C.Drop) case 2 => Some(C.Continue) case _ => None
  }

  function HookOf(n: int): Option<C.Hook> {
    match n
    case 0 => Some(C.Xdp) case 1 => Some(C.TcIngress) case 5 => Some(C.CgroupIngress) case 6 => Some(C.CgroupEgress)
    case 9 => Some(C.TcEgress) case _ => None
  }

  function RestoredMatcher(m: Matcher): Option<C.Matcher> {
    match (KindOf(m.kind), OpOf(m.op))
    case (Some(kind), Some(op)) => Some(C.Matcher(kind, op, m.payload))
    case _ => None
  }

  function RestoredMatchers(ms: seq<Matcher>): Option<seq<C.Matcher>> {
    if ms == [] then Some([])
    else
      match (RestoredMatcher(ms[0]), RestoredMatchers(ms[1..]))
      case (Some(m), Some(rest)) => Some([m] + rest)
      case _ => None
  }

  function RestoredRule(r: Rule): Option<C.Rule> {
    match (RestoredMatchers(r.matchers), VerdictOf(r.verdict))
    case (Some(ms), Some(verdict)) =>
      if r.log < TWO8 then Some(C.Rule(r.index, ms, r.log, r.counters, r.mark, verdict)) else None
    case _ => None
  }

  function RestoredRules(rules: seq<Rule>): Option<seq<C.Rule>> {
    if rules == [] then Some([])
    else
      match (RestoredRule(rules[0]), RestoredRules(rules[1..]))
      case (Some(r), Some(rest)) => Some([r] + rest)
      case _ => None
  }

  function Chars(s: seq<byte>): string {
    seq(|s|, i requires 0 <= i < |s| => s[i] as char)
  }

  /** The compiler's chain that a stored chain without sets stands for, if all its numbers are known. */
  function Restored(s: Chain): Option<C.Chain> {
    match (HookOf(s.hook), VerdictOf(s.policy), RestoredRules(s.rules))
    case (Some(hook), Some(policy), Some(rules)) =>
      if s.sets == [] then Some(C.Chain(Chars(s.name), hook, policy, s.flags, rules)) else None
    case _ => None
  }

  lemma MatcherRestored(m: C.Matcher)
    ensures RestoredMatcher(StoredMatcher(m)) == Some(m)
  {
  }

  lemma {:induction false} MatchersRestored(ms: seq<C.Matcher>)
    ensures RestoredMatchers(StoredMatchers(ms)) == Some(ms)
    decreases |ms|
  {
    hide RestoredMatcher, StoredMatcher;
    if ms != [] {
      MatcherRestored(ms[0]);
      MatchersRestored(ms[1..]);
      assert StoredMatchers(ms)[1..] == StoredMatchers(ms[1..]);
      assert [ms[0]] + ms[1..] == ms;
    }
  }

  lemma RuleRestored(r: C.Rule)
    ensures RestoredRule(StoredRule(r)) == Some(r)
  {
    hide RestoredMatchers, StoredMatchers;
    MatchersRestored(r.matchers);
  }

  lemma {:induction false} RulesRestored(rules: seq<C.Rule>)
    ensures RestoredRules(StoredRules(rules)) == Some(rules)
    decreases |rules|
  {
    hide RestoredRule, StoredRule;
    if rules != [] {
      RuleRestored(rules[0]);
      RulesRestored(rules[1..]);
      assert StoredRules(rules)[1..] == StoredRules(rules[1..]);
      assert [rules[0]] + rules[1..] == rules;
    }
  }

  /** Storing loses nothing. */
  lemma StoredIsRestored(c: C.Chain, name: seq<byte>)
    requires Chars(name) == c.name
    ensures Restored(Stored(c, name)) == Some(c)
  {
    hide RestoredRules, StoredRules;
    RulesRestored(c.rules);
  }

  lemma UsesStored(r: C.Rule, kind: C.MatcherKind)
    requires kind == C.MetaMark || kind == C.Ip6Nexthdr
    ensures Uses(StoredRule(r), KindNumber(kind)) <==> C.UsesKind(r, kind)
  {
    var ms := StoredMatchers(r.matchers);
    if C.UsesKind(r, kind) {
      var m :| m in r.matchers && m.kind == kind;
      var i :| 0 <= i < |r.matchers| && r.matchers[i] == m;
      assert ms[i] in ms && ms[i].kind == KindNumber(kind);
    }
    if Uses(StoredRule(r), KindNumber(kind)) {
      var m :| m in ms && m.kind == KindNumber(kind);
      var i :| 0 <= i < |ms| && ms[i] == m;
      assert r.matchers[i] in r.matchers;
    }
  }

  lemma LogsAgree(rules: seq<C.Rule>)
    ensures (exists r :: r in StoredRules(rules) && r.log != 0) <==> exists r :: r in rules && r.log != 0
  {
    var stored := StoredRules(rules);
    if r :| r in stored && r.log != 0 {
      var i :| 0 <= i < |stored| && stored[i] == r;
      assert rules[i] in rules && rules[i].log != 0;
    }
    if r :| r in rules && r.log != 0 {
      var i :| 0 <= i < |rules| && rules[i] == r;
      assert stored[i] in stored && stored[i].log != 0;
    }
  }

  lemma MarksAgree(rules: seq<C.Rule>)
    ensures (exists r :: r in StoredRules(rules) && r.mark / TWO32 != 0) <==> exists r :: r in rules && r.MarkIsSet()
  {
    var stored := StoredRules(rules);
    if r :| r in stored && r.mark / TWO32 != 0 {
      var i :| 0 <= i < |stored| && stored[i] == r;
      assert rules[i] in rules && rules[i].MarkIsSet();
    }
    if r :| r in rules && r.MarkIsSet() {
      var i :| 0 <= i < |rules| && rules[i] == r;
      assert stored[i] in stored && stored[i].mark / TWO32 != 0;
    }
  }

  lemma KindsAgree(rules: seq<C.Rule>, kind: C.MatcherKind)
    requires kind == C.MetaMark || kind == C.Ip6Nexthdr
    ensures (exists r :: r in StoredRules(rules) && Uses(r, KindNumber(kind))) <==> exists r :: r in rules && C.UsesKind(r, kind)
  {
    hide Uses, C.UsesKind;
    var stored := StoredRules(rules);
    if r :| r in stored && Uses(r, KindNumber(kind)) {
      var i :| 0 <= i < |stored| && stored[i] == r;
      UsesStored(rules[i], kind);
      assert rules[i] in rules && C.UsesKind(rules[i], kind);
    }
    if r :| r in rules && C.UsesKind(r, kind) {
      var i :| 0 <= i < |rules| && rules[i] == r;
      UsesStored(rules[i], kind);
      assert stored[i] in stored && Uses(stored[i], KindNumber(kind));
    }
  }

  /** The flags the compiler's chains carry are those their stored form is given when it is unpacked. */
  lemma FlagsAgree(flags: C.Flags, rules: seq<C.Rule>)
    requires C.FlagsFor(flags, rules)
    ensures flags == FlagsOf(StoredRules(rules))
  {
    hide Uses, C.UsesKind;
    LogsAgree(rules);
    MarksAgree(rules);
    KindsAgree(rules, C.Ip6Nexthdr);
    KindsAgree(rules, C.MetaMark);
  }

  /** Construction means the same to the compiler's chain and to its stored form. */
  lemma NewChainAgrees(c: C.Chain, rules: seq<C.Rule>, name: seq<byte>)
    requires C.ValidChain(c) && |c.rules| == |rules| && forall i :: 0 <= i < |rules| ==> c.rules[i] == C.Reindexed(rules[i], i)
    ensures NewChain(name, HookNumber(c.hook), VerdictNumber(c.policy), [], StoredRules(rules)) == Some(Stored(c, name))
  {
    FlagsAgree(c.flags, c.rules);
    hide FlagsOf, C.FlagsFor;
    assert Reindexed(StoredRules(rules)) == StoredRules(c.rules);
  }

  /** Adding a rule means the same to the compiler's chain and to its stored form. */
  lemma AddRuleAgrees(c: C.Chain, c': C.Chain, r: C.Rule, name: seq<byte>)
    requires C.ValidChain(c) && C.ValidChain(c')
    requires c' == c.(flags := c'.flags, rules := c.rules + [C.Reindexed(r, |c.rules|)])
    ensures Stored(c', name) == AddRule(Stored(c, name), StoredRule(r))
  {
    var rule := C.Reindexed(r, |c.rules|);
    FlagsAgree(c'.flags, c'.rules);
    UsesStored(rule, C.Ip6Nexthdr);
    UsesStored(rule, C.MetaMark);
    assert StoredRules(c'.rules) == StoredRules(c.rules) + [StoredRule(rule)];
    hide Uses, C.UsesKind;
    C.FlagsExtend(c.flags, AddRule(Stored(c, name), StoredRule(r)).flags, c.rules, rule);
    FlagsAgree(AddRule(Stored(c, name), StoredRule(r)).flags, c.rules + [rule]);
  }

  /** Every chain the compiler accepts comes back from its message, if its matchers have payloads. */
  lemma CompiledChainsComeBack(ops: Sizes, c: C.Chain, name: seq<byte>)
    requires C.ValidChain(c) && ValidName(name) && |c.rules| < TWO32 && (forall r :: r in c.rules ==> r.mark < TWO64)
    requires Fits(PackChain(Stored(c, name)))
    ensures var r := Decode(Encode(PackChain(Stored(c, name))), 0);
            && r.Ok?
            && (UnpackChain(ops, r.v) == Some(Stored(c, name)) <==>
                forall x :: x in c.rules ==> forall m :: m in x.matchers ==> m.payload != [])
            && (UnpackChain(ops, r.v).Some? ==> Chars(name) == c.name ==> Restored(UnpackChain(ops, r.v).v) == Some(c))
  {
    StoredIsValid(ops, c, name);
    if Chars(name) == c.name {
      StoredIsRestored(c, name);
    }
    hide ValidChain, UnpackChain, PackChain, Fits, Decode, Encode, Stored, Restored, Chars;
    ChainOverTheWire(ops, Stored(c, name));
    PayloadsStored(c, name);
  }

  lemma StoredIsValid(ops: Sizes, c: C.Chain, name: seq<byte>)
    requires C.ValidChain(c) && ValidName(name) && |c.rules| < TWO32 && forall r :: r in c.rules ==> r.mark < TWO64
    ensures ValidChain(ops, Stored(c, name))
  {
    FlagsAgree(c.flags, c.rules);
    hide FlagsOf, C.FlagsFor;
    forall r | r in StoredRules(c.rules)
      ensures ValidRule(r)
    {
      var i :| 0 <= i < |c.rules| && StoredRules(c.rules)[i] == r;
      assert c.rules[i] in c.rules && c.rules[i].index == i;
      NumbersFit(c.rules[i]);
    }
  }

  lemma NumbersFit(r: C.Rule)
    ensures IsInt(VerdictNumber(r.verdict)) && forall m :: m in StoredMatchers(r.matchers) ==> ValidMatcher(m)
  {
  }

  lemma PayloadsStored(c: C.Chain, name: seq<byte>)
    ensures AllRulesHavePayloads(Stored(c, name).rules) <==> forall x :: x in c.rules ==> forall m :: m in x.matchers ==> m.payload != []
  {
    var stored := StoredRules(c.rules);
    forall i | 0 <= i < |c.rules|
      ensures RuleHasPayloads(stored[i]) <==> forall m :: m in c.rules[i].matchers ==> m.payload != []
    {
      var ms := c.rules[i].matchers;
      assert forall j :: 0 <= j < |ms| ==> StoredMatchers(ms)[j].payload == ms[j].payload && ms[j] in ms;
    }
    hide RuleHasPayloads;
    assert forall i :: 0 <= i < |c.rules| ==> c.rules[i] in c.rules;
  }

  /** Whatever message is accepted, the chain built from it has right indices, flags and sets. */
  lemma UnpackedIsConsistent(ops: Sizes, v: Value)
    requires UnpackChain(ops, v).Some?
    ensures var c := UnpackChain(ops, v).v;
            && (forall i :: 0 <= i < |c.rules| ==> c.rules[i].index == i) && c.flags == FlagsOf(c.rules)
            && (c.policy == 0 || c.policy == 1)
            && forall s :: s in c.sets ==> Consistent(ops, s)
  {
    hide Field, UnpackSet, UnpackRule, FlagsOf, NewSet, UnpackList;
    var c := UnpackChain(ops, v).v;
    var unpack := x => UnpackSet(ops, x);
    forall s | s in c.sets
      ensures Consistent(ops, s)
    {
      var items := ListField(v, SETS).v;
      var x := CameFrom(items, unpack, s);
      UnpackedSet(ops, x);
    }
  }

  /** An accepted rule has numbers of the stored widths, and matchers with payloads. */
  lemma UnpackedRule(v: Value)
    requires UnpackRule(v).Some?
    ensures var r := UnpackRule(v).v;
            && r.index < 0x1_0000_0000 && r.log < 0x100 && r.mark < 0x1_0000_0000_0000_0000
            && -0x8000_0000 <= r.verdict <= 0x7fff_ffff
            && forall m :: m in r.matchers ==>
                 -0x8000_0000 <= m.kind <= 0x7fff_ffff && -0x8000_0000 <= m.op <= 0x7fff_ffff && m.payload != []
  {
    Limits();
    hide Field, UnpackList, UnpackMatcher, Limit;
    var r := UnpackRule(v).v;
    forall m | m in r.matchers
      ensures -0x8000_0000 <= m.kind <= 0x7fff_ffff && -0x8000_0000 <= m.op <= 0x7fff_ffff && m.payload != []
    {
      var x := CameFrom(ListField(v, MATCHERS).v, UnpackMatcher, m);
      UnpackedMatcher(x);
    }
  }

  lemma UnpackedMatcher(v: Value)
    requires UnpackMatcher(v).Some?
    ensures var m := UnpackMatcher(v).v;
            -0x8000_0000 <= m.kind <= 0x7fff_ffff && -0x8000_0000 <= m.op <= 0x7fff_ffff && m.payload != []
  {
    hide Field;
  }

  lemma UnpackedSet(ops: Sizes, v: Value)
    requires UnpackSet(ops, v).Some?
    ensures Consistent(ops, UnpackSet(ops, v).v)
  {
  }

  lemma {:induction false} CameFrom<T>(items: seq<Value>, unpack: Value -> Option<T>, t: T) returns (x: Value)
    requires UnpackList(items, unpack).Some? && t in UnpackList(items, unpack).v
    ensures unpack(x) == Some(t)
    decreases |items|
  {
    if unpack(items[0]) == Some(t) {
      x := items[0];
    } else {
      x := CameFrom(items[1..], unpack, t);
    }
  }
}
