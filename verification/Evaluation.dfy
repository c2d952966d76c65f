/**
 How a chain decides a packet, said position by position instead of by recursion: which marks
 the rules see, which rule stops, what is logged and which counters are hit.
 */
module Evaluation {
  import opened Bits
  import opened Packet
  import opened Bpf
  import opened Chain
  import opened Reference
  import opened Compiler
  import opened Counters

  /** The packet's mark, at its place in struct __sk_buff. */
  function PacketMark(w: World): nat {
    if 8 in w.arg then w.arg[8] else 0
  }

  predicate Matches(env: Env, v: View, r: Rule, mark: nat)
    requires ValidView(env, v)
  {
    RuleOk(r) && RuleMatches(env, mark, v, r.matchers)
  }

  predicate Stops(env: Env, v: View, r: Rule, mark: nat)
    requires ValidView(env, v)
  {
    Matches(env, v, r, mark) && (r.verdict == Accept || r.verdict == Drop)
  }

  /** A rule that matches and sets a mark changes it; its upper half tells whether it sets one. */
  function MarkBehind(env: Env, v: View, r: Rule, mark: nat): nat
    requires ValidView(env, v)
  {
    if Matches(env, v, r, mark) && r.mark >= 0x1_0000_0000 then r.mark % 0x1_0000_0000 else mark
  }

  /**
   marks[i] is the mark that rule i sees. Evaluation goes on behind a rule exactly if the rule does
   not stop, so the last mark is the one the stopping rule sees, or the one left behind all rules.
   */
  predicate Evaluates(env: Env, v: View, rules: seq<Rule>, start: nat, marks: seq<nat>)
    requires ValidView(env, v)
  {
    && 1 <= |marks| <= |rules| + 1 && marks[0] == start
    && (forall i :: 0 <= i < |marks| - 1 ==> !Stops(env, v, rules[i], marks[i]))
    && (forall i :: 0 <= i < |marks| - 1 ==> marks[i + 1] == MarkBehind(env, v, rules[i], marks[i]))
    && (|marks| <= |rules| ==> Stops(env, v, rules[|marks| - 1], marks[|marks| - 1]))
  }

  /** The entry a rule that was reached adds to the log, if it matches, logs, and there is room. */
  function EntryOf(env: Env, v: View, r: Rule, mark: nat): seq<LogEntry>
    requires ValidView(env, v)
  {
    if Matches(env, v, r, mark) && r.log != 0 && env.logRoom
    then [LogEntry(r.index % 0x1_0000_0000, r.log, v.l3 % 0x1_0000, v.l4 % 0x100, v.size)] else []
  }

  function Entries(env: Env, v: View, rules: seq<Rule>, marks: seq<nat>): seq<LogEntry>
    requires ValidView(env, v)
  {
    if rules == [] || marks == [] then []
    else EntryOf(env, v, rules[0], marks[0]) + Entries(env, v, rules[1..], marks[1..])
  }

  /** There is one evaluation only. */
  lemma {:induction false} EvaluatesOnce(env: Env, v: View, rules: seq<Rule>, start: nat, a: seq<nat>, b: seq<nat>, n: nat)
    requires ValidView(env, v)
    requires Evaluates(env, v, rules, start, a) && Evaluates(env, v, rules, start, b) && n <= |a|
    ensures n <= |b| && a[..n] == b[..n] && (n == |a| ==> a == b)
    decreases n
  {
    hide ValidView, RuleOk, Stops, MarkBehind;
    if n > 1 {
      EvaluatesOnce(env, v, rules, start, a, b, n - 1);
      assert a[..n - 1][n - 2] == b[..n - 1][n - 2];
    }
  }

  lemma {:induction false} TraceStep(env: Env, v: View, rules: seq<Rule>, start: nat, marks: seq<nat>)
    requires ValidView(env, v) && rules != []
    requires !Stops(env, v, rules[0], start)
    requires Evaluates(env, v, rules[1..], MarkBehind(env, v, rules[0], start), marks)
    ensures Evaluates(env, v, rules, start, [start] + marks)
  {
    hide ValidView, RuleOk, Stops, MarkBehind;
    var all := [start] + marks;
    forall i | 0 <= i < |all| - 1
      ensures !Stops(env, v, rules[i], all[i]) && all[i + 1] == MarkBehind(env, v, rules[i], all[i])
    {
      if i > 0 {
        assert rules[1..][i - 1] == rules[i] && marks[i - 1] == all[i];
      }
    }
    assert |marks| <= |rules[1..]| ==> rules[1..][|marks| - 1] == rules[|marks|];
  }

  predicate AllOk(rules: seq<Rule>) {
    forall r :: r in rules ==> RuleOk(r)
  }

  lemma AllOkTail(rules: seq<Rule>)
    requires AllOk(rules) && rules != []
    ensures RuleOk(rules[0]) && AllOk(rules[1..])
  {
    hide RuleOk;
  }

  /** The stopping rule's verdict, else the policy; its mark, and one log entry for each rule that logged. */
  predicate ByPosition(env: Env, v: View, rules: seq<Rule>, policy: Verdict, w: World, d: Decision, marks: seq<nat>)
    requires ValidView(env, v)
  {
    && Evaluates(env, v, rules, PacketMark(w), marks)
    && var k := |marks| - 1;
       && d.verdict == (if k < |rules| then rules[k].verdict else policy)
       && PacketMark(d.world) == (if k < |rules| then MarkBehind(env, v, rules[k], marks[k]) else marks[k])
       && d.world.logs == w.logs + Entries(env, v, rules, marks)
  }

  lemma {:induction false} DecideByPosition(env: Env, v: View, rules: seq<Rule>, policy: Verdict, policyKey: nat, w: World)
    returns (marks: seq<nat>)
    requires ValidView(env, v) && AllOk(rules)
    ensures ByPosition(env, v, rules, policy, w, Decide(env, v, rules, policy, policyKey, w), marks)
    decreases |rules|
  {
    AllOkMeans(rules);
    hide ValidView, AllOk, Decide, Stops, Matches, Applied, MarkBehind, EntryOf, PacketMark, Evaluates, Entries, ByPosition;
    if rules == [] {
      marks := [PacketMark(w)];
      NoRules(env, v, rules, policy, policyKey, w);
    } else {
      var r := rules[0];
      AllOkTail(rules);
      RuleEffect(env, v, w, r);
      AllOkMeans(rules[1..]);
      Goes(env, v, rules, policy, policyKey, w);
      var w' := if Matches(env, v, r, PacketMark(w)) then Applied(env, v, w, r) else w;
      if Stops(env, v, r, PacketMark(w)) {
        marks := [PacketMark(w)];
        StopsHere(env, v, rules, policy, w, w');
      } else {
        var more := DecideByPosition(env, v, rules[1..], policy, policyKey, w');
        marks := [PacketMark(w)] + more;
        PositionStep(env, v, rules, policy, w, w', Decide(env, v, rules[1..], policy, policyKey, w'), more);
      }
    }
  }

  lemma NoRules(env: Env, v: View, rules: seq<Rule>, policy: Verdict, policyKey: nat, w: World)
    requires ValidView(env, v) && AllOk(rules) && rules == []
    ensures ByPosition(env, v, rules, policy, w, Decide(env, v, rules, policy, policyKey, w), [PacketMark(w)])
  {
    hide ValidView, Bump;
  }

  lemma StopsHere(env: Env, v: View, rules: seq<Rule>, policy: Verdict, w: World, w': World)
    requires ValidView(env, v) && rules != [] && Stops(env, v, rules[0], PacketMark(w))
    requires PacketMark(w') == MarkBehind(env, v, rules[0], PacketMark(w)) && w'.logs == w.logs + EntryOf(env, v, rules[0], PacketMark(w))
    ensures ByPosition(env, v, rules, policy, w, Decision(rules[0].verdict, w'), [PacketMark(w)])
  {
    hide ValidView, Stops, MarkBehind, EntryOf, PacketMark;
    var marks := [PacketMark(w)];
    assert marks[1..] == [];
    assert Entries(env, v, rules[1..], []) == [];
    assert EntryOf(env, v, rules[0], PacketMark(w)) + [] == EntryOf(env, v, rules[0], PacketMark(w));
  }

  lemma PositionStep(env: Env, v: View, rules: seq<Rule>, policy: Verdict, w: World, w': World, d: Decision, more: seq<nat>)
    requires ValidView(env, v) && rules != [] && !Stops(env, v, rules[0], PacketMark(w))
    requires PacketMark(w') == MarkBehind(env, v, rules[0], PacketMark(w)) && w'.logs == w.logs + EntryOf(env, v, rules[0], PacketMark(w))
    requires ByPosition(env, v, rules[1..], policy, w', d, more)
    ensures ByPosition(env, v, rules, policy, w, d, [PacketMark(w)] + more)
  {
    hide ValidView, Stops, MarkBehind, EntryOf, PacketMark, Evaluates;
    TraceStep(env, v, rules, PacketMark(w), more);
    TraceLength(env, v, rules[1..], PacketMark(w'), more);
    var marks := [PacketMark(w)] + more;
    assert marks[1..] == more;
    assert forall k :: 0 < k < |rules| ==> rules[k] == rules[1..][k - 1];
    assert |marks| - 1 > 0 && marks[|marks| - 1] == more[|more| - 1];
  }

  lemma TraceLength(env: Env, v: View, rules: seq<Rule>, start: nat, marks: seq<nat>)
    requires ValidView(env, v) && Evaluates(env, v, rules, start, marks)
    ensures 1 <= |marks| <= |rules| + 1 && marks[0] == start
  {
  }

  lemma Goes(env: Env, v: View, rules: seq<Rule>, policy: Verdict, policyKey: nat, w: World)
    requires ValidView(env, v) && AllOk(rules) && rules != []
    ensures rules[0] in rules && RuleOk(rules[0]) && AllOk(rules[1..])
    ensures var w' := if Matches(env, v, rules[0], PacketMark(w)) then Applied(env, v, w, rules[0]) else w;
            Decide(env, v, rules, policy, policyKey, w) ==
            if Stops(env, v, rules[0], PacketMark(w)) then Decision(rules[0].verdict, w')
            else Decide(env, v, rules[1..], policy, policyKey, w')
  {
    hide ValidView, RuleMatches, WellFormed, Applied;
  }

  lemma RuleEffect(env: Env, v: View, w: World, r: Rule)
    requires ValidView(env, v) && RuleOk(r)
    ensures var w' := if Matches(env, v, r, PacketMark(w)) then Applied(env, v, w, r) else w;
            && PacketMark(w') == MarkBehind(env, v, r, PacketMark(w)) && w'.logs == w.logs + EntryOf(env, v, r, PacketMark(w))
            && w'.counters == if Matches(env, v, r, PacketMark(w)) && r.counters then Bump(w.counters, r.index, v.size) else w.counters
  {
    hide ValidView, RuleMatches, WellFormed, Bump;
  }

  lemma {:induction false} HitsByPosition(env: Env, v: View, rules: seq<Rule>, policyKey: nat, mark: nat, base: nat, marks: seq<nat>)
    requires ValidView(env, v) && AllOk(rules)
    requires base + |rules| == policyKey && forall i :: 0 <= i < |rules| ==> rules[i].index == base + i
    requires Evaluates(env, v, rules, mark, marks)
    ensures HitsAre(env, v, rules, Hits(env, v, rules, policyKey, mark), base, marks)
    decreases |rules|
  {
    AllOkMeans(rules);
    hide ValidView, AllOk, Hits, Stops, Matches, MarkBehind, Evaluates, HitsAre;
    TraceLength(env, v, rules, mark, marks);
    if rules == [] {
      NoRulesHit(env, v, rules, policyKey, mark, marks);
    } else {
      var r, rest, next := rules[0], rules[1..], MarkBehind(env, v, rules[0], mark);
      AllOkTail(rules);
      AllOkMeans(rest);
      HitsUnfold(env, v, rules, policyKey, mark);
      HitsAscend(env, v, rest, policyKey, next, base + 1);
      if Stops(env, v, r, mark) {
        TraceEnds(env, v, rules, mark, marks);
        HitsStop(env, v, rules, Hits(env, v, rules, policyKey, mark), base, marks);
      } else {
        TraceTail(env, v, rules, mark, marks);
        HitsByPosition(env, v, rest, policyKey, next, base + 1, marks[1..]);
        HitsStep(env, v, rules, Hits(env, v, rules, policyKey, mark), Hits(env, v, rest, policyKey, next), base, marks);
      }
    }
  }

  /**
   Rule i's counter is hit exactly if evaluation reaches the rule, the rule matches and counts; the
   policy's exactly if no rule stops.
   */
  predicate HitsAre(env: Env, v: View, rules: seq<Rule>, hits: seq<nat>, base: nat, marks: seq<nat>)
    requires ValidView(env, v)
  {
    && (base + |rules| in hits <==> |marks| == |rules| + 1)
    && forall i :: 0 <= i < |rules| ==>
         (base + i in hits <==> i < |marks| && Matches(env, v, rules[i], marks[i]) && rules[i].counters)
  }

  lemma AllOkMeans(rules: seq<Rule>)
    requires AllOk(rules)
    ensures forall r :: r in rules ==> RuleOk(r)
  {
  }

  lemma NoRulesHit(env: Env, v: View, rules: seq<Rule>, policyKey: nat, mark: nat, marks: seq<nat>)
    requires ValidView(env, v) && AllOk(rules) && rules == [] && |marks| == 1
    ensures HitsAre(env, v, rules, Hits(env, v, rules, policyKey, mark), policyKey, marks)
  {
    hide ValidView;
  }

  lemma HitsStop(env: Env, v: View, rules: seq<Rule>, hits: seq<nat>, base: nat, marks: seq<nat>)
    requires ValidView(env, v) && rules != [] && |marks| == 1 && rules[0].index == base
    requires hits == if Matches(env, v, rules[0], marks[0]) && rules[0].counters then [rules[0].index] else []
    ensures HitsAre(env, v, rules, hits, base, marks)
  {
    hide ValidView, Matches;
  }

  lemma HitsStep(env: Env, v: View, rules: seq<Rule>, hits: seq<nat>, more: seq<nat>, base: nat, marks: seq<nat>)
    requires ValidView(env, v) && rules != [] && |marks| >= 2 && rules[0].index == base
    requires hits == (if Matches(env, v, rules[0], marks[0]) && rules[0].counters then [rules[0].index] else []) + more
    requires HitsAre(env, v, rules[1..], more, base + 1, marks[1..])
    requires forall i :: 0 <= i < |more| ==> base + 1 <= more[i]
    ensures HitsAre(env, v, rules, hits, base, marks)
  {
    hide ValidView, Matches;
    var own := if Matches(env, v, rules[0], marks[0]) && rules[0].counters then [rules[0].index] else [];
    assert forall k :: k in hits <==> k in own || k in more;
    forall i | 0 <= i < |rules|
      ensures base + i in hits <==> i < |marks| && Matches(env, v, rules[i], marks[i]) && rules[i].counters
    {
      if i > 0 {
        assert rules[i] == rules[1..][i - 1] && base + i == base + 1 + (i - 1);
        assert i < |marks| ==> marks[1..][i - 1] == marks[i];
      }
    }
    assert base + |rules| == base + 1 + |rules[1..]|;
  }

  lemma TraceEnds(env: Env, v: View, rules: seq<Rule>, mark: nat, marks: seq<nat>)
    requires ValidView(env, v) && rules != [] && Evaluates(env, v, rules, mark, marks) && Stops(env, v, rules[0], mark)
    ensures |marks| == 1
  {
    hide ValidView, Stops, MarkBehind;
  }

  lemma HitsUnfold(env: Env, v: View, rules: seq<Rule>, policyKey: nat, mark: nat)
    requires ValidView(env, v) && AllOk(rules) && rules != []
    ensures rules[0] in rules && RuleOk(rules[0]) && AllOk(rules[1..])
    ensures var own := if Matches(env, v, rules[0], mark) && rules[0].counters then [rules[0].index] else [];
            Hits(env, v, rules, policyKey, mark) ==
            own + if Stops(env, v, rules[0], mark) then []
                  else Hits(env, v, rules[1..], policyKey, MarkBehind(env, v, rules[0], mark))
  {
    hide ValidView, RuleMatches, WellFormed;
  }

  lemma TraceTail(env: Env, v: View, rules: seq<Rule>, mark: nat, marks: seq<nat>)
    requires ValidView(env, v) && rules != []
    requires Evaluates(env, v, rules, mark, marks) && !Stops(env, v, rules[0], mark)
    ensures |marks| >= 2 && Evaluates(env, v, rules[1..], MarkBehind(env, v, rules[0], mark), marks[1..])
  {
    hide ValidView, RuleOk, Stops, MarkBehind;
    var rest, more := rules[1..], marks[1..];
    forall i | 0 <= i < |more| - 1
      ensures !Stops(env, v, rest[i], more[i]) && more[i + 1] == MarkBehind(env, v, rest[i], more[i])
    {
      assert rest[i] == rules[i + 1] && more[i] == marks[i + 1] && more[i + 1] == marks[i + 2];
    }
    assert |more| <= |rest| ==> rest[|more| - 1] == rules[|marks| - 1];
  }

  /** What a chain does with a packet whose headers can be read. */
  lemma FilterByPosition(c: Chain, env: Env, w: World) returns (marks: seq<nat>)
    requires ChainOk(c) && ArgOk(c.hook, w.arg) && Parse(c.hook, c.flags.storeNexthdr, env, w.arg).Parsed?
    ensures var v := Parse(c.hook, c.flags.storeNexthdr, env, w.arg).v;
            && ValidView(env, v)
            && ByPosition(env, v, c.rules, c.policy, w, Filter(c, env, w), marks)
            && var hits := PacketHits(c, Counters.Pkt(env, w.arg)); HitsAre(env, v, c.rules, hits, 0, marks) && |c.rules| + 1 !in hits
  {
    hide Parse, Decide, Hits, ByPosition, RuleOk, ArgOk, Matches, PacketHits, Filter, Evaluates, HitsAre;
    var v := Parse(c.hook, c.flags.storeNexthdr, env, w.arg).v;
    FilterParsed(c, env, w);
    marks := DecideByPosition(env, v, c.rules, c.policy, |c.rules|, w);
    Positions(env, v, c.rules, c.policy, w, Filter(c, env, w), marks);
    HitsByPosition(env, v, c.rules, |c.rules|, PacketMark(w), 0, marks);
    HitsAscend(env, v, c.rules, |c.rules|, PacketMark(w), 0);
  }

  lemma FilterParsed(c: Chain, env: Env, w: World)
    requires ChainOk(c) && ArgOk(c.hook, w.arg) && Parse(c.hook, c.flags.storeNexthdr, env, w.arg).Parsed?
    ensures AllOk(c.rules) && forall i :: 0 <= i < |c.rules| ==> c.rules[i].index == i
    ensures var v := Parse(c.hook, c.flags.storeNexthdr, env, w.arg).v;
            && ValidView(env, v)
            && Filter(c, env, w) == Decide(env, v, c.rules, c.policy, |c.rules|, w)
            && PacketHits(c, Counters.Pkt(env, w.arg)) == Hits(env, v, c.rules, |c.rules|, PacketMark(w))
  {
    hide Parse, Decide, Hits, RuleOk, ArgOk;
    ParseIsValid(c.hook, c.flags.storeNexthdr, env, w.arg);
  }

  lemma Positions(env: Env, v: View, rules: seq<Rule>, policy: Verdict, w: World, d: Decision, marks: seq<nat>)
    requires ValidView(env, v)
    requires ByPosition(env, v, rules, policy, w, d, marks)
    ensures Evaluates(env, v, rules, PacketMark(w), marks)
  {
  }

  /** A packet whose headers cannot be read is accepted, counted as an error and otherwise left alone. */
  lemma UnreadableIsAccepted(c: Chain, env: Env, w: World)
    requires ChainOk(c) && ArgOk(c.hook, w.arg) && Parse(c.hook, c.flags.storeNexthdr, env, w.arg).Rejected?
    ensures var d := Filter(c, env, w);
            && d.verdict == Accept && d.world.arg == w.arg && d.world.logs == w.logs
            && PacketHits(c, Counters.Pkt(env, w.arg)) == [|c.rules| + 1]
  {
    hide Parse;
  }
}
