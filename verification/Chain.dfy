/**
 Chains, rules and matchers as the daemon holds them: construction gives every rule its
 position as index and accumulates the features its rules need.
 */
module Chain {
  import opened Bits

  datatype MatcherKind =
    | MetaIface | MetaL3Proto | MetaL4Proto | MetaSport | MetaDport | MetaMark
    | Ip4Saddr | Ip4Snet | Ip4Daddr | Ip4Dnet | Ip4Proto
    | Ip6Nexthdr
    | IcmpType | IcmpCode | Icmpv6Type | Icmpv6Code

  datatype MatcherOp = Eq | Ne | Any | All | In | Range

  datatype Matcher = Matcher(kind: MatcherKind, op: MatcherOp, payload: seq<byte>)

  datatype Verdict = Accept | Drop | Continue

  predicate Terminal(v: Verdict) {
    v != Continue
  }

  // The upper half of `mark` tells whether a mark is set, the lower half is the mark.
  datatype Rule = Rule(index: nat, matchers: seq<Matcher>, log: byte, counters: bool, mark: nat, verdict: Verdict) {
    predicate MarkIsSet() { mark / TWO32 != 0 }
    function Mark(): (m: nat)
      ensures m < TWO32
    {
      mark % TWO32
    }
  }

  /** Features that at least one rule needs. */
  datatype Flags = Flags(log: bool, storeNexthdr: bool, setMark: bool, getMark: bool)

  datatype Hook = Xdp | TcIngress | TcEgress | CgroupIngress | CgroupEgress

  datatype Chain = Chain(name: string, hook: Hook, policy: Verdict, flags: Flags, rules: seq<Rule>)

  predicate UsesKind(r: Rule, kind: MatcherKind) {
    exists m :: m in r.matchers && m.kind == kind
  }

  /** What the flags of a chain with these rules have to be. */
  predicate FlagsFor(flags: Flags, rules: seq<Rule>) {
    && (flags.log <==> exists r :: r in rules && r.log != 0)
    && (flags.setMark <==> exists r :: r in rules && r.MarkIsSet())
    && (flags.storeNexthdr <==> exists r :: r in rules && UsesKind(r, Ip6Nexthdr))
    && (flags.getMark <==> exists r :: r in rules && UsesKind(r, MetaMark))
  }

  predicate IndexedFrom(rules: seq<Rule>) {
    forall i :: 0 <= i < |rules| ==> rules[i].index == i
  }

  predicate ValidChain(c: Chain) {
    Terminal(c.policy) && IndexedFrom(c.rules) && FlagsFor(c.flags, c.rules)
  }

  const NO_FLAGS := Flags(false, false, false, false)

  method UpdateFeatures(flags: Flags, r: Rule) returns (f: Flags)
    ensures f.log == (flags.log || r.log != 0)
    ensures f.setMark == (flags.setMark || r.MarkIsSet())
    ensures f.storeNexthdr == (flags.storeNexthdr || UsesKind(r, Ip6Nexthdr))
    ensures f.getMark == (flags.getMark || UsesKind(r, MetaMark))
  {
    f := flags;
    if r.log != 0 {
      f := f.(log := true);
    }
    if r.MarkIsSet() {
      f := f.(setMark := true);
    }
    ghost var base := f;
    for i := 0 to |r.matchers|
      invariant f.log == base.log && f.setMark == base.setMark
      invariant f.storeNexthdr == (base.storeNexthdr || exists m :: m in r.matchers[..i] && m.kind == Ip6Nexthdr)
      invariant f.getMark == (base.getMark || exists m :: m in r.matchers[..i] && m.kind == MetaMark)
    {
      assert r.matchers[..i + 1] == r.matchers[..i] + [r.matchers[i]];
      if r.matchers[i].kind == Ip6Nexthdr {
        f := f.(storeNexthdr := true);
      }
      if r.matchers[i].kind == MetaMark {
        f := f.(getMark := true);
      }
    }
    assert r.matchers[..|r.matchers|] == r.matchers;
  }

  lemma NoRulesNoFlags()
    ensures FlagsFor(NO_FLAGS, [])
  {
  }

  /** One more rule at the end: the flags of the longer chain. */
  lemma FlagsExtend(flags: Flags, f: Flags, rules: seq<Rule>, r: Rule)
    requires FlagsFor(flags, rules)
    requires f.log == (flags.log || r.log != 0) && f.setMark == (flags.setMark || r.MarkIsSet())
    requires f.storeNexthdr == (flags.storeNexthdr || UsesKind(r, Ip6Nexthdr))
    requires f.getMark == (flags.getMark || UsesKind(r, MetaMark))
    ensures FlagsFor(f, rules + [r])
  {
    assert forall x :: x in rules + [r] <==> x in rules || x == r;
    assert r in rules + [r];
  }

  function Reindexed(r: Rule, i: nat): Rule {
    r.(index := i)
  }

  /** bf_chain_new(): every rule gets its position, the chain gets the union of features. */
  method NewChain(name: string, hook: Hook, policy: Verdict, rules: seq<Rule>) returns (c: Chain)
    requires Terminal(policy)
    ensures ValidChain(c) && c.name == name && c.hook == hook && c.policy == policy && |c.rules| == |rules|
    ensures forall i :: 0 <= i < |rules| ==> c.rules[i] == Reindexed(rules[i], i)
  {
    hide FlagsFor;
    NoRulesNoFlags();
    var flags, done := NO_FLAGS, [];
    for i := 0 to |rules|
      invariant |done| == i && IndexedFrom(done) && FlagsFor(flags, done)
      invariant forall j :: 0 <= j < i ==> done[j] == Reindexed(rules[j], j)
    {
      var rule := rules[i].(index := i);
      var f := UpdateFeatures(flags, rule);
      FlagsExtend(flags, f, done, rule);
      flags, done := f, done + [rule];
    }
    c := Chain(name, hook, policy, flags, done);
  }

  /** bf_chain_add_rule() */
  method AddRule(c: Chain, r: Rule) returns (c': Chain)
    requires ValidChain(c)
    ensures ValidChain(c')
    ensures c' == c.(flags := c'.flags, rules := c.rules + [Reindexed(r, |c.rules|)])
  {
    var rule := r.(index := |c.rules|);
    var f := UpdateFeatures(c.flags, rule);
    FlagsExtend(c.flags, f, c.rules, rule);
    c' := c.(flags := f, rules := c.rules + [rule]);
  }

  /** bf_chain_validate(): XDP programs can neither set nor read the mark. */
  predicate Validate(c: Chain) {
    !(c.flags.setMark && c.hook.Xdp?) && !(c.flags.getMark && c.hook.Xdp?)
  }
}
