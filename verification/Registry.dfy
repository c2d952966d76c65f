/**
 The daemon's registry of chains as a state machine: each request changes it step by step,
 and every foreign call may fail. The handlers are imperative; each is proved to take the
 registry to the state a value-level step describes, and the laws of the registry are
 proved about those steps and about every run of them.
 */
module Registry {
  import opened Bits
  import C = Chain

  datatype Front = Ipt | Nft | Cli

  datatype Hook = Detached | Hooked(options: nat)

  /** A loaded program remembers the chain it was generated from. */
  datatype Loaded = Loaded(chain: C.Chain, hook: Hook)

  datatype Cgen = Cgen(front: Front, chain: C.Chain, program: Loaded) {
    function Name(): string { chain.name }
  }

  /** How far switching to the client's namespaces got. */
  datatype Enter = Entered | Halfway | Refused

  /** What the kernel and the file system answer while one chain is handled. */
  datatype Outcome = Outcome(
    pinDir: bool,
    generate: bool,
    load: bool,
    elsewhere: bool,
    enter: Enter,
    attach: bool,
    pin: bool,
    linkUpdate: bool)

  /** A request's payload may be unreadable; hook options are optional. */
  datatype Read<T> = Unreadable | Readable(v: T)

  datatype Submission = Submission(chain: C.Chain, hook: Hook, outcome: Outcome)

  datatype Request =
    | RulesetFlush
    | RulesetSet(items: Read<seq<Read<Submission>>>)
    | ChainSet(item: Read<Submission>)
    | ChainLoad(item: Read<Submission>)
    | ChainAttach(name: Read<string>, options: nat, valid: bool, outcome: Outcome)
    | ChainUpdate(item: Read<Submission>)
    | ChainFlush(name: Read<string>)

  /** `away`: the daemon was left in a client's namespace. */
  datatype State = State(cgens: seq<Cgen>, away: bool)

  // ---- sequences of codegens ----

  predicate Named(cgens: seq<Cgen>, name: string) {
    exists i :: 0 <= i < |cgens| && cgens[i].Name() == name
  }

  predicate Distinct(cgens: seq<Cgen>) {
    forall i, j :: 0 <= i < j < |cgens| ==> cgens[i].Name() != cgens[j].Name()
  }

  /** Every registered program was generated from the chain it is registered with. */
  predicate Coherent(cgens: seq<Cgen>) {
    forall i :: 0 <= i < |cgens| ==> cgens[i].program.chain == cgens[i].chain
  }

  predicate Inv(s: State) {
    Distinct(s.cgens) && Coherent(s.cgens)
  }

  function Without(cgens: seq<Cgen>, name: string): (r: seq<Cgen>)
    ensures |r| <= |cgens|
  {
    if cgens == [] then []
    else if cgens[0].Name() == name then Without(cgens[1..], name)
    else [cgens[0]] + Without(cgens[1..], name)
  }

  function NotOf(cgens: seq<Cgen>, front: Front): (r: seq<Cgen>)
    ensures |r| <= |cgens|
  {
    if cgens == [] then []
    else if cgens[0].front == front then NotOf(cgens[1..], front)
    else [cgens[0]] + NotOf(cgens[1..], front)
  }

  function IndexOf(cgens: seq<Cgen>, name: string): (i: nat)
    ensures i <= |cgens| && (i < |cgens| <==> Named(cgens, name)) && (i < |cgens| ==> cgens[i].Name() == name)
  {
    if cgens == [] then 0
    else if cgens[0].Name() == name then assert cgens[0].Name() == name; 0
    else
      var k := IndexOf(cgens[1..], name);
      assert Named(cgens[1..], name) ==> Named(cgens, name) by {
        if Named(cgens[1..], name) { assert cgens[k + 1].Name() == name; }
      }
      assert Named(cgens, name) ==> Named(cgens[1..], name) by {
        if Named(cgens, name) {
          var j :| 0 <= j < |cgens| && cgens[j].Name() == name;
          assert cgens[1..][j - 1].Name() == name;
        }
      }
      1 + k
  }

  // ---- one chain ----

  /** Does loading end with a program, attached if asked for? */
  predicate Sets(x: Submission) {
    && x.outcome.pinDir && x.outcome.generate && x.outcome.load && x.outcome.pin
    && (x.hook.Hooked? ==> x.outcome.enter.Entered? && x.outcome.attach)
  }

  predicate Reaches(x: Submission) {
    x.outcome.pinDir && x.outcome.generate && x.outcome.load && x.hook.Hooked?
  }

  function AwayAfter(o: Outcome, away: bool): bool {
    if !o.elsewhere || o.enter.Refused? then away else !(o.enter.Entered? && o.attach)
  }

  function Built(x: Submission): Cgen {
    Cgen(Cli, x.chain, Loaded(x.chain, x.hook))
  }

  // ---- steps ----

  predicate Fresh(cgens: seq<Cgen>, x: Submission) {
    C.Validate(x.chain) && Sets(x) && !Named(cgens, x.chain.name)
  }

  /** Chains are added one by one; the first failure takes all of them away again. */
  function SetAll(s: State, items: seq<Read<Submission>>): (State, bool)
    decreases |items|
  {
    if items == [] then (s, true)
    else if items[0].Unreadable? || !C.Validate(items[0].v.chain) then (s.(cgens := NotOf(s.cgens, Cli)), false)
    else
      var x := items[0].v;
      var away := if Reaches(x) then AwayAfter(x.outcome, s.away) else s.away;
      if !Fresh(s.cgens, x) then (State(NotOf(s.cgens, Cli), away), false)
      else SetAll(State(s.cgens + [Built(x)], away), items[1..])
  }

  function Step(s: State, r: Request): (State, bool) {
    match r
    case RulesetFlush => (s.(cgens := NotOf(s.cgens, Cli)), true)
    case RulesetSet(items) =>
      var s' := s.(cgens := NotOf(s.cgens, Cli));
      if items.Unreadable? then (s', false) else SetAll(s', items.v)
    case ChainSet(item) =>
      if item.Unreadable? || !C.Validate(item.v.chain) then (s, false)
      else
        var x := item.v;
        var rest := Without(s.cgens, x.chain.name);
        var away := if Reaches(x) then AwayAfter(x.outcome, s.away) else s.away;
        if Sets(x) then (State(rest + [Built(x)], away), true) else (State(rest, away), false)
    case ChainLoad(item) =>
      if item.Unreadable? || Named(s.cgens, item.v.chain.name) || !C.Validate(item.v.chain) then (s, false)
      else
        var x := item.v.(hook := Detached);
        if Sets(x) then (s.(cgens := s.cgens + [Built(x)]), true) else (s, false)
    case ChainAttach(name, options, valid, o) =>
      if name.Unreadable? || !Named(s.cgens, name.v) then (s, false)
      else
        var i := IndexOf(s.cgens, name.v);
        var g := s.cgens[i];
        if g.program.hook.Hooked? || !valid || !o.pinDir then (s, false)
        else
          var away := AwayAfter(o, s.away);
          if o.enter.Entered? && o.attach && o.pin
          then (State(s.cgens[i := g.(program := g.program.(hook := Hooked(options)))], away), true)
          else (s.(away := away), false)
    case ChainUpdate(item) =>
      if item.Unreadable? || !Named(s.cgens, item.v.chain.name) then (s, false)
      else
        var x := item.v;
        var i := IndexOf(s.cgens, x.chain.name);
        var g := s.cgens[i];
        if g.program.hook.Detached? || !(x.outcome.pinDir && x.outcome.generate && x.outcome.load && x.outcome.linkUpdate)
        then (s, false)
        else (s.(cgens := s.cgens[i := Cgen(g.front, x.chain, Loaded(x.chain, g.program.hook))]), true)
    case ChainFlush(name) =>
      if name.Unreadable? || !Named(s.cgens, name.v) then (s, false)
      else (s.(cgens := Without(s.cgens, name.v)), true)
  }

  // ---- laws of the sequences ----

  lemma {:induction false} WithoutAbsent(cgens: seq<Cgen>, name: string)
    requires !Named(cgens, name)
    ensures Without(cgens, name) == cgens
    decreases |cgens|
  {
    if cgens != [] {
      assert cgens[0].Name() != name;
      assert !Named(cgens[1..], name) by { TailNamed(cgens, name); }
      WithoutAbsent(cgens[1..], name);
    }
  }

  lemma TailNamed(cgens: seq<Cgen>, name: string)
    requires cgens != []
    ensures Named(cgens, name) <==> cgens[0].Name() == name || Named(cgens[1..], name)
  {
    if Named(cgens[1..], name) {
      var i :| 0 <= i < |cgens[1..]| && cgens[1..][i].Name() == name;
      assert cgens[i + 1].Name() == name;
    }
    if Named(cgens, name) {
      var i :| 0 <= i < |cgens| && cgens[i].Name() == name;
      assert i > 0 ==> cgens[1..][i - 1].Name() == name;
    }
  }

  lemma {:induction false} WithoutConcat(a: seq<Cgen>, b: seq<Cgen>, name: string)
    ensures Without(a + b, name) == Without(a, name) + Without(b, name)
    decreases |a|
  {
    if a == [] {
      assert a + b == b;
    } else {
      assert (a + b)[1..] == a[1..] + b;
      WithoutConcat(a[1..], b, name);
    }
  }

  lemma {:induction false} NotOfConcat(a: seq<Cgen>, b: seq<Cgen>, front: Front)
    ensures NotOf(a + b, front) == NotOf(a, front) + NotOf(b, front)
    decreases |a|
  {
    if a == [] {
      assert a + b == b;
    } else {
      assert (a + b)[1..] == a[1..] + b;
      NotOfConcat(a[1..], b, front);
    }
  }

  /** Removing codegens keeps the invariant, and removes what it names. */
  lemma {:induction false} WithoutKeeps(cgens: seq<Cgen>, name: string)
    requires Distinct(cgens) && Coherent(cgens)
    ensures Distinct(Without(cgens, name)) && Coherent(Without(cgens, name)) && !Named(Without(cgens, name), name)
    ensures forall n :: Named(Without(cgens, name), n) ==> Named(cgens, n)
    decreases |cgens|
  {
    if cgens != [] {
      var rest := cgens[1..];
      assert forall i, j :: 0 <= i < j < |rest| ==> rest[i] == cgens[i + 1] && rest[j] == cgens[j + 1];
      WithoutKeeps(rest, name);
      HeadUnnamed(cgens);
      forall n ensures Named(cgens, n) <==> cgens[0].Name() == n || Named(rest, n) { TailNamed(cgens, n); }
      if cgens[0].Name() != name {
        ConsKeeps(cgens[0], Without(rest, name));
        TailNamed([cgens[0]] + Without(rest, name), name);
        forall n ensures Named([cgens[0]] + Without(rest, name), n) <==> cgens[0].Name() == n || Named(Without(rest, name), n) {
          TailNamed([cgens[0]] + Without(rest, name), n);
          assert ([cgens[0]] + Without(rest, name))[1..] == Without(rest, name);
        }
      }
    }
  }

  lemma HeadUnnamed(cgens: seq<Cgen>)
    requires Distinct(cgens) && cgens != []
    ensures !Named(cgens[1..], cgens[0].Name())
  {
  }

  lemma ConsKeeps(g: Cgen, cgens: seq<Cgen>)
    requires Distinct(cgens) && Coherent(cgens) && !Named(cgens, g.Name()) && g.program.chain == g.chain
    ensures Distinct([g] + cgens) && Coherent([g] + cgens)
  {
    var all := [g] + cgens;
    forall i, j | 0 <= i < j < |all|
      ensures all[i].Name() != all[j].Name()
    {
      assert all[j] == cgens[j - 1];
      if i > 0 {
        assert all[i] == cgens[i - 1];
      }
    }
  }

  lemma SnocKeeps(cgens: seq<Cgen>, g: Cgen)
    requires Distinct(cgens) && Coherent(cgens) && !Named(cgens, g.Name()) && g.program.chain == g.chain
    ensures Distinct(cgens + [g]) && Coherent(cgens + [g])
  {
    var all := cgens + [g];
    forall i, j | 0 <= i < j < |all|
      ensures all[i].Name() != all[j].Name()
    {
      assert all[i] == cgens[i];
    }
  }

  lemma {:induction false} NotOfKeeps(cgens: seq<Cgen>, front: Front)
    requires Distinct(cgens) && Coherent(cgens)
    ensures Distinct(NotOf(cgens, front)) && Coherent(NotOf(cgens, front))
    ensures forall n :: Named(NotOf(cgens, front), n) ==> Named(cgens, n)
    decreases |cgens|
  {
    if cgens != [] {
      var rest := cgens[1..];
      assert forall i, j :: 0 <= i < j < |rest| ==> rest[i] == cgens[i + 1] && rest[j] == cgens[j + 1];
      NotOfKeeps(rest, front);
      HeadUnnamed(cgens);
      forall n ensures Named(cgens, n) <==> cgens[0].Name() == n || Named(rest, n) { TailNamed(cgens, n); }
      if cgens[0].front != front {
        var r := [cgens[0]] + NotOf(rest, front);
        assert r[1..] == NotOf(rest, front);
        ConsKeeps(cgens[0], NotOf(rest, front));
        forall n ensures Named(r, n) <==> cgens[0].Name() == n || Named(NotOf(rest, front), n) { TailNamed(r, n); }
      }
    }
  }

  lemma {:induction false} NotOfTwice(cgens: seq<Cgen>, front: Front)
    ensures NotOf(NotOf(cgens, front), front) == NotOf(cgens, front)
    decreases |cgens|
  {
    if cgens != [] {
      NotOfTwice(cgens[1..], front);
      assert ([cgens[0]] + NotOf(cgens[1..], front))[1..] == NotOf(cgens[1..], front);
    }
  }

  lemma {:induction false} WithoutTwice(cgens: seq<Cgen>, name: string)
    ensures Without(Without(cgens, name), name) == Without(cgens, name)
    decreases |cgens|
  {
    if cgens != [] {
      WithoutTwice(cgens[1..], name);
      assert ([cgens[0]] + Without(cgens[1..], name))[1..] == Without(cgens[1..], name);
    }
  }

  /** A codegen of that name does not show among those of other names. */
  lemma WithoutOne(g: Cgen)
    ensures Without([g], g.Name()) == []
  {
    assert [g][1..] == [];
  }

  lemma WithoutReplace(cgens: seq<Cgen>, i: nat, g: Cgen)
    requires i < |cgens| && g.Name() == cgens[i].Name()
    ensures Without(cgens[i := g], g.Name()) == Without(cgens, g.Name())
  {
    var a, b := cgens[..i], cgens[i + 1..];
    assert cgens == a + ([cgens[i]] + b) && cgens[i := g] == a + ([g] + b);
    WithoutConcat(a, [cgens[i]] + b, g.Name());
    WithoutConcat(a, [g] + b, g.Name());
    WithoutConcat([cgens[i]], b, g.Name());
    WithoutConcat([g], b, g.Name());
    WithoutOne(g);
    WithoutOne(cgens[i]);
  }

  lemma ReplaceKeeps(cgens: seq<Cgen>, i: nat, g: Cgen)
    requires Distinct(cgens) && Coherent(cgens) && i < |cgens| && g.Name() == cgens[i].Name() && g.program.chain == g.chain
    ensures Distinct(cgens[i := g]) && Coherent(cgens[i := g])
  {
  }

  // ---- safety over all runs ----

  lemma {:induction false} SetAllKeeps(s: State, items: seq<Read<Submission>>)
    requires Inv(s)
    ensures Inv(SetAll(s, items).0)
    decreases |items|
  {
    hide C.Validate, Reaches, AwayAfter, Sets, Distinct, Coherent, Named;
    NotOfKeeps(s.cgens, Cli);
    if items != [] && items[0].Readable? && C.Validate(items[0].v.chain) && Fresh(s.cgens, items[0].v) {
      var x := items[0].v;
      SnocKeeps(s.cgens, Built(x));
      SetAllKeeps(State(s.cgens + [Built(x)], if Reaches(x) then AwayAfter(x.outcome, s.away) else s.away), items[1..]);
    }
  }

  /** Every request, with whatever outcomes, keeps names distinct and programs with their chains. */
  lemma StepKeeps(s: State, r: Request)
    requires Inv(s)
    ensures Inv(Step(s, r).0)
  {
    hide C.Validate, Reaches, AwayAfter, Sets, Distinct, Coherent, SetAll;
    match r
    case RulesetFlush => NotOfKeeps(s.cgens, Cli);
    case RulesetSet(items) =>
      NotOfKeeps(s.cgens, Cli);
      if items.Readable? {
        SetAllKeeps(s.(cgens := NotOf(s.cgens, Cli)), items.v);
      }
    case ChainSet(item) =>
      if item.Readable? {
        WithoutKeeps(s.cgens, item.v.chain.name);
        SnocKeeps(Without(s.cgens, item.v.chain.name), Built(item.v));
      }
    case ChainLoad(item) =>
      if item.Readable? && !Named(s.cgens, item.v.chain.name) {
        SnocKeeps(s.cgens, Built(item.v.(hook := Detached)));
      }
    case ChainAttach(name, options, valid, o) =>
      if name.Readable? && Named(s.cgens, name.v) {
        var i := IndexOf(s.cgens, name.v);
        CoherentAt(s.cgens, i);
        ReplaceKeeps(s.cgens, i, s.cgens[i].(program := s.cgens[i].program.(hook := Hooked(options))));
      }
    case ChainUpdate(item) =>
      if item.Readable? && Named(s.cgens, item.v.chain.name) {
        var i := IndexOf(s.cgens, item.v.chain.name);
        ReplaceKeeps(s.cgens, i, Cgen(s.cgens[i].front, item.v.chain, Loaded(item.v.chain, s.cgens[i].program.hook)));
      }
    case ChainFlush(name) =>
      if name.Readable? {
        WithoutKeeps(s.cgens, name.v);
      }
  }

  lemma CoherentAt(cgens: seq<Cgen>, i: nat)
    requires Coherent(cgens) && i < |cgens|
    ensures cgens[i].program.chain == cgens[i].chain
  {
  }

  function Run(s: State, rs: seq<Request>): State
    decreases |rs|
  {
    if rs == [] then s else Run(Step(s, rs[0]).0, rs[1..])
  }

  /** Over every run of requests and outcomes, from the empty registry. */
  lemma {:induction false} RunKeeps(s: State, rs: seq<Request>)
    requires Inv(s)
    ensures Inv(Run(s, rs))
    decreases |rs|
  {
    hide Step, Inv;
    if rs != [] {
      StepKeeps(s, rs[0]);
      RunKeeps(Step(s, rs[0]).0, rs[1..]);
    }
  }

  // ---- what a request may touch ----

  /** The chain a request is about, if it is about one. */
  function Subject(r: Request): Read<string> {
    match r
    case ChainSet(item) => if item.Readable? then Readable(item.v.chain.name) else Unreadable
    case ChainLoad(item) => if item.Readable? then Readable(item.v.chain.name) else Unreadable
    case ChainAttach(name, _, _, _) => name
    case ChainUpdate(item) => if item.Readable? then Readable(item.v.chain.name) else Unreadable
    case ChainFlush(name) => name
    case _ => Unreadable
  }

  /** A request about one chain leaves all other chains, and their order, as they were. */
  lemma OtherChainsUntouched(s: State, r: Request)
    requires Subject(r).Readable?
    ensures Without(Step(s, r).0.cgens, Subject(r).v) == Without(s.cgens, Subject(r).v)
  {
    hide C.Validate, Reaches, AwayAfter, Sets, SetAll, Without;
    var n := Subject(r).v;
    match r
    case ChainSet(item) =>
      WithoutTwice(s.cgens, n);
      WithoutConcat(Without(s.cgens, n), [Built(item.v)], n);
      WithoutOne(Built(item.v));
    case ChainLoad(item) =>
      var g := Built(item.v.(hook := Detached));
      WithoutConcat(s.cgens, [g], n);
      WithoutOne(g);
    case ChainAttach(name, options, valid, o) =>
      if Named(s.cgens, n) {
        var i := IndexOf(s.cgens, n);
        WithoutReplace(s.cgens, i, s.cgens[i].(program := s.cgens[i].program.(hook := Hooked(options))));
      }
    case ChainUpdate(item) =>
      if Named(s.cgens, n) {
        var i := IndexOf(s.cgens, n);
        WithoutReplace(s.cgens, i, Cgen(s.cgens[i].front, item.v.chain, Loaded(item.v.chain, s.cgens[i].program.hook)));
      }
    case ChainFlush(name) => WithoutTwice(s.cgens, n);
  }

  /** An update changes a chain and its program together, in place and still attached, or nothing. */
  lemma UpdateIsAtomic(s: State, item: Read<Submission>)
    requires Inv(s) && item.Readable?
    ensures var (s', ok) := Step(s, ChainUpdate(item));
            if !ok then s' == s
            else
              var i := IndexOf(s.cgens, item.v.chain.name);
              && |s'.cgens| == |s.cgens| && i < |s.cgens| && s'.away == s.away
              && (forall j :: 0 <= j < |s.cgens| && j != i ==> s'.cgens[j] == s.cgens[j])
              && s'.cgens[i].chain == s'.cgens[i].program.chain == item.v.chain
              && s'.cgens[i].program.hook == s.cgens[i].program.hook
              && s'.cgens[i].front == s.cgens[i].front
  {
  }

  // ---- setting a whole ruleset ----

  function BuiltAll(items: seq<Read<Submission>>): (r: seq<Cgen>)
    requires forall i :: 0 <= i < |items| ==> items[i].Readable?
    ensures |r| == |items|
    ensures forall i :: 0 <= i < |items| ==>
              r[i] == Built(items[i].v) == Cgen(Cli, items[i].v.chain, Loaded(items[i].v.chain, items[i].v.hook))
  {
    seq(|items|, i requires 0 <= i < |items| => Built(items[i].v))
  }

  predicate AllReadable(items: seq<Read<Submission>>) {
    forall i :: 0 <= i < |items| ==> items[i].Readable?
  }

  predicate AllSet(items: seq<Read<Submission>>) {
    AllReadable(items) && forall i :: 0 <= i < |items| ==> C.Validate(items[i].v.chain) && Sets(items[i].v)
  }

  lemma BuiltAllOfCli(items: seq<Read<Submission>>)
    requires AllReadable(items)
    ensures NotOf(BuiltAll(items), Cli) == []
    decreases |items|
  {
    if items != [] {
      assert BuiltAll(items)[1..] == BuiltAll(items[1..]);
      BuiltAllOfCli(items[1..]);
    }
  }

  /** All chains in the order given, or none: which of the two is decided by the items alone. */
  lemma {:induction false} SetAllIsAllOrNone(s: State, items: seq<Read<Submission>>)
    requires Distinct(s.cgens)
    ensures var (s', ok) := SetAll(s, items);
            && (ok <==> AllSet(items) && Distinct(s.cgens + BuiltAll(items)))
            && s'.cgens == if ok then s.cgens + BuiltAll(items) else NotOf(s.cgens, Cli)
    decreases |items|
  {
    hide C.Validate, Reaches, AwayAfter, Sets, NotOf;
    if items == [] {
      assert s.cgens + BuiltAll(items) == s.cgens;
    } else if items[0].Readable? && C.Validate(items[0].v.chain) {
      var x := items[0].v;
      var away := if Reaches(x) then AwayAfter(x.outcome, s.away) else s.away;
      AllSetCons(items);
      if AllSet(items) {
        assert s.cgens + BuiltAll(items) == s.cgens + [Built(x)] + BuiltAll(items[1..]);
        DistinctPrefix(s.cgens, Built(x), BuiltAll(items[1..]));
      }
      if Fresh(s.cgens, x) {
        SnocDistinct(s.cgens, Built(x));
        SetAllIsAllOrNone(State(s.cgens + [Built(x)], away), items[1..]);
        NotOfConcat(s.cgens, [Built(x)], Cli);
        assert NotOf([Built(x)], Cli) == [] by { CliIsDropped(Built(x)); }
      }
    }
  }

  lemma CliIsDropped(g: Cgen)
    requires g.front == Cli
    ensures NotOf([g], Cli) == []
  {
    assert [g][1..] == [];
  }

  lemma AllSetCons(items: seq<Read<Submission>>)
    requires items != []
    ensures AllSet(items) <==> items[0].Readable? && C.Validate(items[0].v.chain) && Sets(items[0].v) && AllSet(items[1..])
  {
    hide C.Validate, Sets;
    assert forall i :: 0 <= i < |items[1..]| ==> items[1..][i] == items[i + 1];
    assert forall i :: 0 < i < |items| ==> items[i] == items[1..][i - 1];
  }

  lemma DistinctPrefix(cgens: seq<Cgen>, g: Cgen, more: seq<Cgen>)
    ensures Distinct(cgens + [g] + more) ==> !Named(cgens, g.Name())
  {
    var all := cgens + [g] + more;
    assert all[|cgens|] == g && forall i :: 0 <= i < |cgens| ==> all[i] == cgens[i];
  }

  lemma SnocDistinct(cgens: seq<Cgen>, g: Cgen)
    requires Distinct(cgens) && !Named(cgens, g.Name())
    ensures Distinct(cgens + [g])
  {
    var all := cgens + [g];
    forall i, j | 0 <= i < j < |all|
      ensures all[i].Name() != all[j].Name()
    {
      assert all[i] == cgens[i];
    }
  }

  /** Other fronts are untouched; the CLI's chains are the new ones in order, or there are none. */
  lemma RulesetSetIsAllOrNone(s: State, items: seq<Read<Submission>>)
    requires Inv(s)
    ensures var (s', ok) := Step(s, RulesetSet(Readable(items)));
            var others := NotOf(s.cgens, Cli);
            && NotOf(s'.cgens, Cli) == others
            && (ok <==> AllSet(items) && Distinct(others + BuiltAll(items)))
            && s'.cgens == if ok then others + BuiltAll(items) else others
  {
    var others := NotOf(s.cgens, Cli);
    NotOfKeeps(s.cgens, Cli);
    NotOfTwice(s.cgens, Cli);
    SetAllIsAllOrNone(s.(cgens := others), items);
    if AllReadable(items) {
      NotOfConcat(others, BuiltAll(items), Cli);
      BuiltAllOfCli(items);
    }
  }

  // ---- what each request does, over the states alone ----

  /** Some registered chain has the name. */
  predicate Taken(s: State, name: string) {
    exists g :: g in s.cgens && g.chain.name == name
  }

  lemma TakenIsNamed(s: State, name: string)
    ensures Taken(s, name) <==> Named(s.cgens, name)
  {
    if Taken(s, name) {
      var g :| g in s.cgens && g.chain.name == name;
      var i :| 0 <= i < |s.cgens| && s.cgens[i] == g;
      assert s.cgens[i].Name() == name;
    }
    if Named(s.cgens, name) {
      assert s.cgens[IndexOf(s.cgens, name)] in s.cgens;
    }
  }

  lemma {:induction false} WithoutMembers(cgens: seq<Cgen>, name: string)
    ensures forall g :: g in Without(cgens, name) <==> g in cgens && g.chain.name != name
    decreases |cgens|
  {
    if cgens != [] {
      WithoutMembers(cgens[1..], name);
      assert forall g :: g in cgens <==> g == cgens[0] || g in cgens[1..];
    }
  }

  lemma {:induction false} NotOfMembers(cgens: seq<Cgen>, front: Front)
    ensures forall g :: g in NotOf(cgens, front) <==> g in cgens && g.front != front
    decreases |cgens|
  {
    if cgens != [] {
      NotOfMembers(cgens[1..], front);
      assert forall g :: g in cgens <==> g == cgens[0] || g in cgens[1..];
    }
  }

  /** The chain is gone after a flush that succeeds, and nothing else; there has to be one. */
  lemma ChainFlushRemoves(s: State, name: Read<string>)
    ensures var (s', ok) := Step(s, ChainFlush(name));
            && (ok <==> name.Readable? && Taken(s, name.v))
            && (ok ==> !Taken(s', name.v) && forall g :: g in s'.cgens <==> g in s.cgens && g.chain.name != name.v)
            && s'.away == s.away && (!ok ==> s' == s)
  {
    if name.Readable? {
      TakenIsNamed(s, name.v);
      WithoutMembers(s.cgens, name.v);
    }
  }

  /** Flushing takes away the chains of the command line front only. */
  lemma RulesetFlushRemoves(s: State)
    ensures var (s', ok) := Step(s, RulesetFlush);
            ok && s'.away == s.away && forall g :: g in s'.cgens <==> g in s.cgens && g.front != Cli
  {
    NotOfMembers(s.cgens, Cli);
  }

  /** XDP programs can neither set nor read the mark. */
  predicate Allowed(c: C.Chain) {
    c.hook.Xdp? ==> !c.flags.setMark && !c.flags.getMark
  }

  /**
   A chain is loaded exactly if the message can be read, no chain has the name, the hook allows it
   and every foreign call succeeds. It is then last and detached; else nothing changes.
   */
  lemma ChainLoadAppends(s: State, item: Read<Submission>)
    ensures var (s', ok) := Step(s, ChainLoad(item));
            && (ok <==> && item.Readable? && !Taken(s, item.v.chain.name) && Allowed(item.v.chain)
                        && var o := item.v.outcome; o.pinDir && o.generate && o.load && o.pin)
            && s' == if ok then State(s.cgens + [Cgen(Cli, item.v.chain, Loaded(item.v.chain, Detached))], s.away) else s
  {
    if item.Readable? {
      TakenIsNamed(s, item.v.chain.name);
    }
  }

  /**
   A chain is attached exactly if it is there, detached, the options are valid and every foreign
   call succeeds. It alone changes, and only by being attached with these options; when attaching
   fails no chain changes. The daemon stays in the client's namespaces if it failed half-way.
   */
  lemma ChainAttachHooks(s: State, name: Read<string>, options: nat, valid: bool, o: Outcome)
    ensures var (s', ok) := Step(s, ChainAttach(name, options, valid, o));
            && (!ok ==> s'.cgens == s.cgens)
            && (name.Unreadable? || !Taken(s, name.v) ==> !ok && s' == s)
    ensures var (s', ok) := Step(s, ChainAttach(name, options, valid, o));
            forall i :: Inv(s) && 0 <= i < |s.cgens| && name.Readable? && s.cgens[i].chain.name == name.v ==>
              && (ok <==> && s.cgens[i].program.hook.Detached? && valid && o.pinDir && o.enter.Entered? && o.attach && o.pin)
              && (ok ==> s'.cgens == s.cgens[i := Attached(s.cgens[i], options)])
              && (!s.away ==>
                    (s'.away <==> && s.cgens[i].program.hook.Detached? && valid && o.pinDir && o.elsewhere
                                  && (o.enter.Halfway? || (o.enter.Entered? && !o.attach))))
  {
    if name.Readable? {
      TakenIsNamed(s, name.v);
      if Named(s.cgens, name.v) {
        var k := IndexOf(s.cgens, name.v);
        forall i | Inv(s) && 0 <= i < |s.cgens| && s.cgens[i].chain.name == name.v
          ensures i == k
        {
          assert s.cgens[i].Name() == s.cgens[k].Name();
        }
      } else {
        forall i | 0 <= i < |s.cgens|
          ensures s.cgens[i].chain.name != name.v
        {
          assert s.cgens[i].Name() == s.cgens[i].chain.name;
        }
      }
    }
  }

  /** Front and chain stay, the program is hooked. */
  function Attached(g: Cgen, options: nat): Cgen {
    Cgen(g.front, g.chain, Loaded(g.program.chain, Hooked(options)))
  }

  /**
   A chain is set exactly if the message can be read, the hook allows it and every foreign call
   succeeds. It is then last, attached as asked for, and every chain that had its name is gone;
   chains of other names stay.
   */
  lemma ChainSetReplaces(s: State, item: Read<Submission>)
    ensures var (s', ok) := Step(s, ChainSet(item));
            && (ok <==> && item.Readable? && Allowed(item.v.chain)
                        && var o := item.v.outcome;
                           && o.pinDir && o.generate && o.load && o.pin
                           && (item.v.hook.Hooked? ==> o.enter.Entered? && o.attach))
            && (ok ==> && |s'.cgens| > 0
                       && s'.cgens[|s'.cgens| - 1] == Cgen(Cli, item.v.chain, Loaded(item.v.chain, item.v.hook))
                       && forall g :: g in s'.cgens[..|s'.cgens| - 1] <==> g in s.cgens && g.chain.name != item.v.chain.name)
            && (!ok && item.Readable? && Allowed(item.v.chain) ==>
                  forall g :: g in s'.cgens <==> g in s.cgens && g.chain.name != item.v.chain.name)
            && (item.Unreadable? || !Allowed(item.v.chain) ==> s' == s)
  {
    if item.Readable? && Allowed(item.v.chain) {
      var rest := Without(s.cgens, item.v.chain.name);
      WithoutMembers(s.cgens, item.v.chain.name);
      assert (rest + [Built(item.v)])[..|rest|] == rest;
    }
  }

  /** A chain is updated exactly if it is there and attached, and every foreign call succeeds. */
  lemma ChainUpdateSucceeds(s: State, item: Read<Submission>)
    requires Inv(s)
    ensures Step(s, ChainUpdate(item)).1 <==>
            && item.Readable?
            && (exists g :: g in s.cgens && g.chain.name == item.v.chain.name && g.program.hook.Hooked?)
            && var o := item.v.outcome; o.pinDir && o.generate && o.load && o.linkUpdate
  {
    if item.Readable? {
      var name := item.v.chain.name;
      TakenIsNamed(s, name);
      if Named(s.cgens, name) {
        var k := IndexOf(s.cgens, name);
        assert s.cgens[k] in s.cgens;
        forall g | g in s.cgens && g.chain.name == name
          ensures g == s.cgens[k]
        {
          var i :| 0 <= i < |s.cgens| && s.cgens[i] == g;
          assert s.cgens[i].Name() == s.cgens[k].Name();
        }
      }
    }
  }

  // ---- the limits of the handlers ----

  /**
   Setting a chain does not look at who owns the name: chains of other fronts stay as they are
   exactly when none of them has the name, or the request is turned down before anything is removed.
   */
  lemma ChainSetAcrossFronts(s: State, item: Read<Submission>)
    requires Inv(s)
    ensures NotOf(Step(s, ChainSet(item)).0.cgens, Cli) == NotOf(s.cgens, Cli)
            <==> item.Unreadable? || !C.Validate(item.v.chain) || !Named(NotOf(s.cgens, Cli), item.v.chain.name)
  {
    hide C.Validate, Reaches, AwayAfter, Sets;
    if item.Readable? && C.Validate(item.v.chain) {
      var n := item.v.chain.name;
      NotOfKeeps(s.cgens, Cli);
      Commute(s.cgens, n);
      NotOfConcat(Without(s.cgens, n), [Built(item.v)], Cli);
      CliIsDropped(Built(item.v));
      if Named(NotOf(s.cgens, Cli), n) {
        WithoutKeeps(NotOf(s.cgens, Cli), n);
      } else {
        WithoutAbsent(NotOf(s.cgens, Cli), n);
      }
    }
  }

  lemma {:induction false} Commute(cgens: seq<Cgen>, name: string)
    ensures NotOf(Without(cgens, name), Cli) == Without(NotOf(cgens, Cli), name)
    decreases |cgens|
  {
    if cgens != [] {
      Commute(cgens[1..], name);
      assert ([cgens[0]] + Without(cgens[1..], name))[1..] == Without(cgens[1..], name);
      assert ([cgens[0]] + NotOf(cgens[1..], Cli))[1..] == NotOf(cgens[1..], Cli);
    }
  }

  /**
   Setting a chain is not atomic: when the new one cannot be set, the old one is gone. Nothing
   is lost exactly when there was no old one, or the request is turned down early, or it succeeds.
   */
  lemma ChainSetLosesTheOld(s: State, item: Read<Submission>)
    requires Inv(s) && item.Readable?
    ensures var (s', ok) := Step(s, ChainSet(item));
            Named(s.cgens, item.v.chain.name) && !Named(s'.cgens, item.v.chain.name)
            <==> Named(s.cgens, item.v.chain.name) && C.Validate(item.v.chain) && !Sets(item.v)
  {
    hide C.Validate, Reaches, AwayAfter, Sets;
    var n := item.v.chain.name;
    WithoutKeeps(s.cgens, n);
    var all := Without(s.cgens, n) + [Built(item.v)];
    assert all[|all| - 1].Name() == n;
  }

  /** The daemon is back in its own namespaces after attaching, unless attaching failed on the way. */
  lemma BackHome(s: State, item: Submission)
    requires !s.away && C.Validate(item.chain)
    ensures Step(s, ChainSet(Readable(item))).0.away <==>
            && Reaches(item) && item.outcome.elsewhere
            && (item.outcome.enter.Halfway? || (item.outcome.enter.Entered? && !item.outcome.attach))
  {
    hide C.Validate;
  }
}
