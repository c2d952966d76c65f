/**
 Accounting over whole packet sequences: which keys of the counters map a packet hits, and
 that after any sequence of packets every counter holds exactly the packets and bytes that
 hit it, in the reference semantics and in the machine running the image.
 */
module Counters {
  import opened Bits
  import opened Packet
  import opened Bpf
  import opened Chain
  import opened Reference
  import opened Compiler
  import opened Image
  import opened Build
  import opened Prologue

  /** A packet and the argument the kernel passes with it. */
  datatype Pkt = Pkt(env: Env, arg: map<int, nat>)

  function MarkAfter(mark: nat, r: Rule): nat {
    if r.MarkIsSet() then r.Mark() else mark
  }

  /** Keys hit while rules are evaluated: counting rules that match, in order, then the policy. */
  function Hits(env: Env, v: View, rules: seq<Rule>, policyKey: nat, mark: nat): seq<nat>
    requires ValidView(env, v) && forall r :: r in rules ==> RuleOk(r)
  {
    if rules == [] then [policyKey]
    else
      assert rules[0] in rules && RuleOk(rules[0]);
      var r := rules[0];
      if !RuleMatches(env, mark, v, r.matchers) then Hits(env, v, rules[1..], policyKey, mark)
      else
        (if r.counters then [r.index] else [])
        + if Terminal(r.verdict) then [] else Hits(env, v, rules[1..], policyKey, MarkAfter(mark, r))
  }

  function ArgMark(arg: map<int, nat>): nat {
    if SKB_MARK in arg then arg[SKB_MARK] else 0
  }

  /** Keys a packet hits; a packet whose headers cannot be read hits the error key. */
  function PacketHits(c: Chain, p: Pkt): seq<nat>
    requires ChainOk(c) && ArgOk(c.hook, p.arg)
  {
    match Parse(c.hook, c.flags.storeNexthdr, p.env, p.arg)
    case Rejected => [ErrorKey(c)]
    case Parsed(v) =>
      ParseIsValid(c.hook, c.flags.storeNexthdr, p.env, p.arg);
      Hits(p.env, v, c.rules, PolicyKey(c), ArgMark(p.arg))
  }

  function BumpAll(counters: seq<Counter>, keys: seq<nat>, size: nat): (r: seq<Counter>)
    ensures |r| == |counters|
    decreases |keys|
  {
    if keys == [] then counters else BumpAll(Bump(counters, keys[0], size), keys[1..], size)
  }

  function Count(keys: seq<nat>, k: nat): nat {
    if keys == [] then 0 else (if keys[0] == k then 1 else 0) + Count(keys[1..], k)
  }

  lemma {:induction false} BumpAllConcat(counters: seq<Counter>, a: seq<nat>, b: seq<nat>, size: nat)
    ensures BumpAll(counters, a + b, size) == BumpAll(BumpAll(counters, a, size), b, size)
    decreases |a|
  {
    if a == [] {
      assert a + b == b;
    } else {
      assert (a + b)[1..] == a[1..] + b;
      BumpAllConcat(Bump(counters, a[0], size), a[1..], b, size);
    }
  }

  /** Evaluating rules bumps exactly the keys that are hit. */
  lemma {:induction false} DecideBumps(env: Env, v: View, rules: seq<Rule>, policy: Verdict, policyKey: nat, w: World)
    requires ValidView(env, v) && forall r :: r in rules ==> RuleOk(r)
    ensures Decide(env, v, rules, policy, policyKey, w).world.counters ==
            BumpAll(w.counters, Hits(env, v, rules, policyKey, MarkIn(w)), v.size)
    decreases |rules|
  {
    hide ValidView, WellFormed, RuleMatches, Bump;
    if rules == [] {
      assert [policyKey][1..] == [];
    } else {
      var r := rules[0];
      assert r in rules && RuleOk(r);
      var w' := Applied(env, v, w, r);
      var own := if r.counters then [r.index] else [];
      AppliedParts(env, v, w, r);
      assert BumpAll(w.counters, own, v.size) == w'.counters by { assert r.counters ==> own[1..] == []; }
      if !RuleMatches(env, MarkIn(w), v, r.matchers) {
        DecideBumps(env, v, rules[1..], policy, policyKey, w);
      } else if Terminal(r.verdict) {
        assert own + [] == own;
      } else {
        DecideBumps(env, v, rules[1..], policy, policyKey, w');
        BumpAllConcat(w.counters, own, Hits(env, v, rules[1..], policyKey, MarkAfter(MarkIn(w), r)), v.size);
      }
    }
  }

  lemma AppliedParts(env: Env, v: View, w: World, r: Rule)
    ensures var w' := Applied(env, v, w, r);
            w'.counters == (if r.counters then Bump(w.counters, r.index, v.size) else w.counters)
            && MarkIn(w') == MarkAfter(MarkIn(w), r)
  {
    hide Bump;
  }

  lemma FilterBumps(c: Chain, p: Pkt, counters: seq<Counter>, logs: seq<LogEntry>)
    requires ChainOk(c) && ArgOk(c.hook, p.arg)
    ensures Filter(c, p.env, World(p.arg, counters, logs)).world.counters ==
            BumpAll(counters, PacketHits(c, p), PacketSize(c.hook, p.arg))
  {
    hide Decide, Hits, Bump, RuleOk, ArgOk;
    match Parse(c.hook, c.flags.storeNexthdr, p.env, p.arg)
    case Rejected => assert [ErrorKey(c)][1..] == [];
    case Parsed(v) =>
      ParseIsValid(c.hook, c.flags.storeNexthdr, p.env, p.arg);
      ParsedSize(c.hook, c.flags.storeNexthdr, p.env, p.arg);
      DecideBumps(p.env, v, c.rules, c.policy, PolicyKey(c), World(p.arg, counters, logs));
  }

  lemma ParsedSize(hook: Hook, record: bool, env: Env, arg: map<int, nat>)
    requires ArgOk(hook, arg) && Parse(hook, record, env, arg).Parsed?
    ensures Parse(hook, record, env, arg).v.size == PacketSize(hook, arg)
  {
  }

  // ---- keys of one packet ----

  predicate Ascending(keys: seq<nat>, lo: nat, hi: nat) {
    && (forall i :: 0 <= i < |keys| ==> lo <= keys[i] < hi)
    && (forall i, j :: 0 <= i < j < |keys| ==> keys[i] < keys[j])
  }

  /** A packet hits every key at most once, and only keys the map has. */
  lemma {:induction false} HitsAscend(env: Env, v: View, rules: seq<Rule>, policyKey: nat, mark: nat, base: nat)
    requires ValidView(env, v) && forall r :: r in rules ==> RuleOk(r)
    requires base + |rules| == policyKey && forall i :: 0 <= i < |rules| ==> rules[i].index == base + i
    ensures Ascending(Hits(env, v, rules, policyKey, mark), base, policyKey + 1)
    decreases |rules|
  {
    hide ValidView, RuleOk, RuleMatches;
    if rules != [] {
      var r := rules[0];
      assert r in rules;
      HitsAscend(env, v, rules[1..], policyKey, mark, base + 1);
      HitsAscend(env, v, rules[1..], policyKey, MarkAfter(mark, r), base + 1);
    }
  }

  lemma PacketHitsAscend(c: Chain, p: Pkt)
    requires ChainOk(c) && ArgOk(c.hook, p.arg)
    ensures Ascending(PacketHits(c, p), 0, |c.rules| + 2)
  {
    hide Parse, Hits;
    if Parse(c.hook, c.flags.storeNexthdr, p.env, p.arg).Parsed? {
      var v := Parse(c.hook, c.flags.storeNexthdr, p.env, p.arg).v;
      ParseIsValid(c.hook, c.flags.storeNexthdr, p.env, p.arg);
      HitsAscend(p.env, v, c.rules, PolicyKey(c), ArgMark(p.arg), 0);
    }
  }

  lemma {:induction false} AscendingCount(keys: seq<nat>, lo: nat, hi: nat, k: nat)
    requires Ascending(keys, lo, hi)
    ensures Count(keys, k) == if k in keys then 1 else 0
    decreases |keys|
  {
    if keys != [] {
      AscendingCount(keys[1..], keys[0] + 1, hi, k);
      assert k in keys <==> k == keys[0] || k in keys[1..];
    }
  }

  // ---- whole sequences ----

  predicate PktsOk(c: Chain, pkts: seq<Pkt>) {
    forall i :: 0 <= i < |pkts| ==> ArgOk(c.hook, pkts[i].arg)
  }

  /** The counters after the chain has filtered the packets one by one. */
  function FilterAll(c: Chain, pkts: seq<Pkt>, counters: seq<Counter>, logs: seq<LogEntry>): seq<Counter>
    requires ChainOk(c) && PktsOk(c, pkts)
    decreases |pkts|
  {
    if pkts == [] then counters
    else
      var w := Filter(c, pkts[0].env, World(pkts[0].arg, counters, logs)).world;
      FilterAll(c, pkts[1..], w.counters, w.logs)
  }

  /** How many of the packets hit a key, and how many bytes they carry. */
  function HitPackets(c: Chain, pkts: seq<Pkt>, k: nat): nat
    requires ChainOk(c) && PktsOk(c, pkts)
    decreases |pkts|
  {
    if pkts == [] then 0 else (if k in PacketHits(c, pkts[0]) then 1 else 0) + HitPackets(c, pkts[1..], k)
  }

  function HitBytes(c: Chain, pkts: seq<Pkt>, k: nat): nat
    requires ChainOk(c) && PktsOk(c, pkts)
    decreases |pkts|
  {
    if pkts == [] then 0
    else (if k in PacketHits(c, pkts[0]) then PacketSize(c.hook, pkts[0].arg) else 0) + HitBytes(c, pkts[1..], k)
  }

  predicate Counts64(counters: seq<Counter>) {
    forall i :: 0 <= i < |counters| ==> counters[i].packets < TWO64 && counters[i].bytes < TWO64
  }

  lemma {:induction false} BumpAllAt(counters: seq<Counter>, keys: seq<nat>, size: nat, k: nat)
    requires Counts64(counters) && k < |counters|
    ensures Counts64(BumpAll(counters, keys, size))
    ensures var r := BumpAll(counters, keys, size)[k];
            r.packets == (counters[k].packets + Count(keys, k)) % TWO64
            && r.bytes == (counters[k].bytes + Count(keys, k) * size) % TWO64
    decreases |keys|
  {
    hide Bump;
    if keys == [] {
      ModNoop(counters[k].packets, TWO64);
      ModNoop(counters[k].bytes, TWO64);
    } else {
      BumpAt(counters, keys[0], size, k);
      var next := Bump(counters, keys[0], size);
      BumpAllAt(next, keys[1..], size, k);
      var n := Count(keys[1..], k);
      if keys[0] == k {
        OneMore(counters[k].packets, 1, n);
        OneMore(counters[k].bytes, size, n);
      }
    }
  }

  lemma BumpAt(counters: seq<Counter>, key: nat, size: nat, k: nat)
    requires Counts64(counters) && k < |counters|
    ensures Counts64(Bump(counters, key, size)) && |Bump(counters, key, size)| == |counters|
    ensures var r := Bump(counters, key, size)[k];
            if k == key then r == Counter((counters[k].packets + 1) % TWO64, (counters[k].bytes + size) % TWO64)
            else r == counters[k]
  {
  }

  lemma OneMore(before: nat, size: nat, n: nat)
    ensures ((before + size) % TWO64 + n * size) % TWO64 == (before + (1 + n) * size) % TWO64
  {
    ModAdd(before + size, n * size);
    assert (1 + n) * size == size + n * size;
  }

  lemma ModAdd(a: nat, b: nat)
    ensures (a % TWO64 + b) % TWO64 == (a + b) % TWO64
  {
  }

  /**
   After any sequence of packets, every counter of the map has grown by the packets that hit
   its key and by their bytes, modulo the 64-bit width.
   */
  lemma {:induction false} Accounting(c: Chain, pkts: seq<Pkt>, counters: seq<Counter>, logs: seq<LogEntry>, k: nat)
    requires ChainOk(c) && PktsOk(c, pkts) && Counts64(counters) && k < |counters|
    ensures |FilterAll(c, pkts, counters, logs)| == |counters|
    ensures var r := FilterAll(c, pkts, counters, logs)[k];
            r.packets == (counters[k].packets + HitPackets(c, pkts, k)) % TWO64
            && r.bytes == (counters[k].bytes + HitBytes(c, pkts, k)) % TWO64
    decreases |pkts|
  {
    hide ChainOk, ArgOk, Filter, PacketHits, PacketSize, BumpAll, Count;
    if pkts == [] {
      ModNoop(counters[k].packets, TWO64);
      ModNoop(counters[k].bytes, TWO64);
    } else {
      var p := pkts[0];
      var keys, size := PacketHits(c, p), PacketSize(c.hook, p.arg);
      var w := Filter(c, p.env, World(p.arg, counters, logs)).world;
      FilterBumps(c, p, counters, logs);
      BumpAllAt(counters, keys, size, k);
      PacketHitsAscend(c, p);
      AscendingCount(keys, 0, |c.rules| + 2, k);
      Accounting(c, pkts[1..], w.counters, w.logs, k);
      ModAdd(counters[k].packets + Count(keys, k), HitPackets(c, pkts[1..], k));
      ModAdd(counters[k].bytes + Count(keys, k) * size, HitBytes(c, pkts[1..], k));
    }
  }

  // ---- conservation ----

  /** Sum of f over the first m keys. */
  function SumCounts(keys: seq<nat>, m: nat): nat {
    if m == 0 then 0 else SumCounts(keys, m - 1) + Count(keys, m - 1)
  }

  lemma {:induction false} SumCountsIsLength(keys: seq<nat>, m: nat)
    requires forall i :: 0 <= i < |keys| ==> keys[i] < m
    ensures SumCounts(keys, m) == |keys|
    decreases |keys|
  {
    if keys == [] {
      SumCountsEmpty(m);
    } else {
      SumCountsIsLength(keys[1..], m);
      SumCountsStep(keys, m);
    }
  }

  lemma {:induction false} SumCountsEmpty(m: nat)
    ensures SumCounts([], m) == 0
  {
    if m > 0 {
      SumCountsEmpty(m - 1);
    }
  }

  lemma {:induction false} SumCountsStep(keys: seq<nat>, m: nat)
    requires keys != []
    ensures SumCounts(keys, m) == SumCounts(keys[1..], m) + if keys[0] < m then 1 else 0
    decreases m
  {
    if m > 0 {
      SumCountsStep(keys, m - 1);
    }
  }

  function SumHits(c: Chain, pkts: seq<Pkt>, m: nat): nat
    requires ChainOk(c) && PktsOk(c, pkts)
  {
    if m == 0 then 0 else SumHits(c, pkts, m - 1) + HitPackets(c, pkts, m - 1)
  }

  lemma {:induction false} SumHitsStep(c: Chain, pkts: seq<Pkt>, m: nat)
    requires ChainOk(c) && PktsOk(c, pkts) && pkts != []
    ensures SumHits(c, pkts, m) == SumHits(c, pkts[1..], m) + SumCounts(PacketHits(c, pkts[0]), m)
    decreases m
  {
    hide ChainOk, PacketHits, ArgOk;
    if m > 0 {
      SumHitsStep(c, pkts, m - 1);
      PacketHitsAscend(c, pkts[0]);
      AscendingCount(PacketHits(c, pkts[0]), 0, |c.rules| + 2, m - 1);
    }
  }

  lemma {:induction false} SumHitsEmpty(c: Chain, m: nat)
    requires ChainOk(c)
    ensures SumHits(c, [], m) == 0
  {
    if m > 0 {
      SumHitsEmpty(c, m - 1);
    }
  }

  predicate CountsEverything(rules: seq<Rule>) {
    forall r :: r in rules ==> Terminal(r.verdict) && r.counters
  }

  lemma {:induction false} OneHit(env: Env, v: View, rules: seq<Rule>, policyKey: nat, mark: nat)
    requires ValidView(env, v) && (forall r :: r in rules ==> RuleOk(r)) && CountsEverything(rules)
    ensures |Hits(env, v, rules, policyKey, mark)| == 1
    decreases |rules|
  {
    hide ValidView, RuleOk, RuleMatches;
    if rules != [] {
      assert rules[0] in rules;
      OneHit(env, v, rules[1..], policyKey, mark);
    }
  }

  /** When every rule is terminal and counts, all hits together are the number of packets. */
  lemma {:induction false} HitsConserve(c: Chain, pkts: seq<Pkt>)
    requires ChainOk(c) && PktsOk(c, pkts) && CountsEverything(c.rules)
    ensures SumHits(c, pkts, |c.rules| + 2) == |pkts|
    decreases |pkts|
  {
    hide SumHits, Parse, Hits, ArgOk;
    if pkts == [] {
      SumHitsEmpty(c, |c.rules| + 2);
    } else {
      var p := pkts[0];
      SumHitsStep(c, pkts, |c.rules| + 2);
      PacketHitsAscend(c, p);
      SumCountsIsLength(PacketHits(c, p), |c.rules| + 2);
      if Parse(c.hook, c.flags.storeNexthdr, p.env, p.arg).Parsed? {
        ParseIsValid(c.hook, c.flags.storeNexthdr, p.env, p.arg);
        OneHit(p.env, Parse(c.hook, c.flags.storeNexthdr, p.env, p.arg).v, c.rules, PolicyKey(c), ArgMark(p.arg));
      }
      HitsConserve(c, pkts[1..]);
    }
  }

  function SumPackets(counters: seq<Counter>, m: nat): nat
    requires m <= |counters|
  {
    if m == 0 then 0 else SumPackets(counters, m - 1) + counters[m - 1].packets
  }

  lemma {:induction false} HitsAtMostOnce(c: Chain, pkts: seq<Pkt>, k: nat)
    requires ChainOk(c) && PktsOk(c, pkts)
    ensures HitPackets(c, pkts, k) <= |pkts|
    decreases |pkts|
  {
    hide ChainOk, ArgOk, PacketHits;
    if pkts != [] {
      HitsAtMostOnce(c, pkts[1..], k);
    }
  }

  function Zeros(n: nat): (r: seq<Counter>)
    ensures |r| == n && Counts64(r) && forall i :: 0 <= i < n ==> r[i] == Counter(0, 0)
  {
    seq(n, _ => Counter(0, 0))
  }

  lemma {:induction false} SumIsHits(c: Chain, pkts: seq<Pkt>, logs: seq<LogEntry>, m: nat)
    requires ChainOk(c) && PktsOk(c, pkts) && |pkts| < TWO64 && m <= |c.rules| + 2
    ensures |FilterAll(c, pkts, Zeros(|c.rules| + 2), logs)| == |c.rules| + 2
    ensures SumPackets(FilterAll(c, pkts, Zeros(|c.rules| + 2), logs), m) == SumHits(c, pkts, m)
    decreases m
  {
    hide ChainOk, ArgOk, FilterAll, HitPackets, HitBytes, Zeros, Counts64, PktsOk;
    var zero := Zeros(|c.rules| + 2);
    if m == 0 {
      Accounting(c, pkts, zero, logs, 0);
    } else {
      SumIsHits(c, pkts, logs, m - 1);
      Accounting(c, pkts, zero, logs, m - 1);
      HitsAtMostOnce(c, pkts, m - 1);
      ModNoop(HitPackets(c, pkts, m - 1), TWO64);
    }
  }

  /**
   Counters that start at zero: when every rule is terminal and counts, their packets add up to
   the number of packets filtered, none lost and none counted twice.
   */
  lemma Conservation(c: Chain, pkts: seq<Pkt>, logs: seq<LogEntry>)
    requires ChainOk(c) && PktsOk(c, pkts) && CountsEverything(c.rules) && |pkts| < TWO64
    ensures var r := FilterAll(c, pkts, Zeros(|c.rules| + 2), logs);
            |r| == |c.rules| + 2 && SumPackets(r, |r|) == |pkts|
  {
    hide ChainOk, ArgOk, FilterAll, SumPackets, SumHits, PktsOk, CountsEverything;
    SumIsHits(c, pkts, logs, |c.rules| + 2);
    HitsConserve(c, pkts);
  }

  // ---- the same for the machine ----

  function StartState(p: Pkt, counters: seq<Counter>, logs: seq<LogEntry>): State {
    State([Junk, Arg, Junk, Junk, Junk, Junk, Junk, Junk, Junk, Junk, Frame(0)], map[], p.arg, counters, logs)
  }

  /** The image run on the packets one by one, counters and log surviving from run to run. */
  function RunAll(link: Link, layout: Layout, img: seq<Insn>, pkts: seq<Pkt>, counters: seq<Counter>, logs: seq<LogEntry>):
    seq<Counter>
    decreases |pkts|
  {
    if pkts == [] then counters
    else
      var f := RunImage(pkts[0].env, link, layout, img, 0, StartState(pkts[0], counters, logs), |img|);
      if f.Finished? then RunAll(link, layout, img, pkts[1..], f.st.counters, f.st.logs) else counters
  }

  lemma {:induction false} RunAllIsFilterAll(c: Chain, link: Link, layout: Layout, img: seq<Insn>, pkts: seq<Pkt>,
                                             counters: seq<Counter>, logs: seq<LogEntry>)
    requires ChainOk(c) && PktsOk(c, pkts) && Implements(c, link, layout, img)
    ensures RunAll(link, layout, img, pkts, counters, logs) == FilterAll(c, pkts, counters, logs)
    decreases |pkts|
  {
    hide ChainOk, ArgOk, RunImage, Filter;
    if pkts != [] {
      var p := pkts[0];
      var st := StartState(p, counters, logs);
      assert Correct(c, link, layout, img, p.env, st);
      var w := Filter(c, p.env, World(p.arg, counters, logs)).world;
      RunAllIsFilterAll(c, link, layout, img, pkts[1..], w.counters, w.logs);
    }
  }

  /** Counters of the running image: exactly the packets and bytes that hit each key. */
  lemma ImageAccounting(c: Chain, link: Link, layout: Layout, img: seq<Insn>, pkts: seq<Pkt>,
                        counters: seq<Counter>, logs: seq<LogEntry>, k: nat)
    requires ChainOk(c) && PktsOk(c, pkts) && Implements(c, link, layout, img) && Counts64(counters) && k < |counters|
    ensures |RunAll(link, layout, img, pkts, counters, logs)| == |counters|
    ensures var r := RunAll(link, layout, img, pkts, counters, logs)[k];
            r.packets == (counters[k].packets + HitPackets(c, pkts, k)) % TWO64
            && r.bytes == (counters[k].bytes + HitBytes(c, pkts, k)) % TWO64
  {
    hide ChainOk, Implements, RunAll, FilterAll, HitPackets, HitBytes;
    RunAllIsFilterAll(c, link, layout, img, pkts, counters, logs);
    Accounting(c, pkts, counters, logs, k);
  }

  /** Conservation for the running image. */
  lemma ImageConservation(c: Chain, link: Link, layout: Layout, img: seq<Insn>, pkts: seq<Pkt>, logs: seq<LogEntry>)
    requires ChainOk(c) && PktsOk(c, pkts) && CountsEverything(c.rules) && |pkts| < TWO64
    requires Implements(c, link, layout, img)
    ensures var r := RunAll(link, layout, img, pkts, Zeros(|c.rules| + 2), logs);
            |r| == |c.rules| + 2 && SumPackets(r, |r|) == |pkts|
  {
    hide ChainOk, Implements, RunAll, FilterAll, SumPackets, PktsOk, CountsEverything;
    RunAllIsFilterAll(c, link, layout, img, pkts, Zeros(|c.rules| + 2), logs);
    Conservation(c, pkts, logs);
  }

  // ---- reading the counters back ----

  const POLICY_COUNTER := -2
  const ERRORS_COUNTER := -1

  /** Asking for one counter: rules by index, the policy and the errors by names of their own. */
  method GetCounter(c: Chain, counters: seq<Counter>, idx: int) returns (ok: bool, counter: Counter)
    requires |counters| == |c.rules| + 2
    ensures ok <==> idx == POLICY_COUNTER || idx == ERRORS_COUNTER || 0 <= idx < |c.rules|
    ensures idx == POLICY_COUNTER ==> counter == counters[|c.rules|]
    ensures idx == ERRORS_COUNTER ==> counter == counters[|c.rules| + 1]
    ensures 0 <= idx < |c.rules| ==> counter == counters[idx]
  {
    var key := idx;
    if idx == POLICY_COUNTER {
      key := |c.rules|;
    } else if idx == ERRORS_COUNTER {
      key := |c.rules| + 1;
    } else if idx < 0 || idx >= |c.rules| {
      return false, Counter(0, 0);
    }
    return true, counters[key];
  }

  /** Asking for all of them: the map as it is, rules first, then policy and errors. */
  method GetCounters(c: Chain, counters: seq<Counter>) returns (all: seq<Counter>)
    requires |counters| == |c.rules| + 2
    ensures all == counters
  {
    all := [];
    for i := 0 to |c.rules| + 2
      invariant all == counters[..i]
    {
      var idx := if i == |c.rules| then POLICY_COUNTER else if i == |c.rules| + 1 then ERRORS_COUNTER else i;
      var ok, counter := GetCounter(c, counters, idx);
      all := all + [counter];
    }
  }
}
