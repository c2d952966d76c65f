/**
 The request handlers of the command line front as they run: loops over the registry,
 early exits and roll-backs. Each request takes the registry exactly one step of the
 state machine.
 */
module Daemon {
  import C = Chain
  import opened Registry
  import LinkedList

  class Daemon {
    var cgens: seq<Cgen>
    var away: bool

    function Now(): State
      reads this
    {
      State(cgens, away)
    }

    constructor ()
      ensures Now() == State([], false) && Inv(Now())
    {
      cgens, away := [], false;
    }

    /** Looks a chain up by name; its index, or the length of the registry. */
    method GetCgen(name: string) returns (i: nat)
      ensures i == IndexOf(cgens, name)
    {
      i := 0;
      assert cgens[0..] == cgens;
      while i < |cgens|
        invariant 0 <= i <= |cgens| && i + IndexOf(cgens[i..], name) == IndexOf(cgens, name)
      {
        if cgens[i].Name() == name {
          return;
        }
        assert cgens[i..][1..] == cgens[i + 1..];
        i := i + 1;
      }
    }

    method SetCgen(g: Cgen) returns (ok: bool)
      modifies this`cgens
      ensures ok <==> !Named(old(cgens), g.Name())
      ensures cgens == if ok then old(cgens) + [g] else old(cgens)
    {
      var i := GetCgen(g.Name());
      if i < |cgens| {
        return false;
      }
      cgens := cgens + [g];
      return true;
    }

    /** Removes the codegen that was found. */
    method DeleteCgen(i: nat)
      requires i < |cgens| && Distinct(cgens)
      modifies this`cgens
      ensures cgens == Without(old(cgens), old(cgens)[i].Name())
    {
      OnlyOne(cgens, i);
      cgens := cgens[..i] + cgens[i + 1..];
    }

    /** Removes every codegen of a front while iterating. */
    method Flush(front: Front)
      modifies this`cgens
      ensures cgens == NotOf(old(cgens), front)
    {
      hide NotOf;
      var i := 0;
      assert cgens[0..] == cgens && cgens[..0] == [];
      while i < |cgens|
        invariant 0 <= i <= |cgens|
        invariant cgens[..i] + NotOf(cgens[i..], front) == NotOf(old(cgens), front)
        decreases |cgens| - i
      {
        NotOfFrom(cgens, i, front);
        if cgens[i].front == front {
          cgens := cgens[..i] + cgens[i + 1..];
        } else {
          i := i + 1;
        }
      }
      NotOfFrom(cgens, i, front);
    }

    /** Generates, loads and, if asked to, attaches a program for a chain. */
    method SetProgram(x: Submission) returns (ok: bool)
      modifies this`away
      ensures ok <==> Sets(x)
      ensures away == if Reaches(x) then AwayAfter(x.outcome, old(away)) else old(away)
    {
      var o := x.outcome;
      if !o.pinDir || !o.generate || !o.load {
        return false;
      }
      if x.hook.Hooked? {
        if !o.enter.Entered? {
          away := away || (o.elsewhere && o.enter.Halfway?);
          return false;
        }
        away := away || o.elsewhere;
        if !o.attach {
          return false;
        }
        if o.elsewhere {
          away := false;
        }
      }
      return o.pin;
    }

    method RulesetSet(items: Read<seq<Read<Submission>>>) returns (ok: bool)
      modifies this
      ensures (Now(), ok) == Step(old(Now()), Request.RulesetSet(items))
    {
      hide C.Validate, Reaches, AwayAfter, Sets, NotOf, Named;
      Flush(Cli);
      if items.Unreadable? {
        return false;
      }
      ghost var start, all := Now(), items.v;
      var i := 0;
      assert all[0..] == all;
      while i < |items.v|
        invariant 0 <= i <= |items.v| && SetAll(Now(), items.v[i..]) == SetAll(start, all)
      {
        assert items.v[i..][1..] == items.v[i + 1..];
        if items.v[i].Unreadable? || !C.Validate(items.v[i].v.chain) {
          Flush(Cli);
          return false;
        }
        var x := items.v[i].v;
        ok := SetProgram(x);
        if !ok {
          Flush(Cli);
          return false;
        }
        ok := SetCgen(Built(x));
        if !ok {
          Flush(Cli);
          return false;
        }
        i := i + 1;
      }
      return true;
    }

    method ChainSet(item: Read<Submission>) returns (ok: bool)
      requires Inv(Now())
      modifies this
      ensures (Now(), ok) == Step(old(Now()), Request.ChainSet(item))
    {
      hide C.Validate, Reaches, AwayAfter, Sets;
      if item.Unreadable? || !C.Validate(item.v.chain) {
        return false;
      }
      var x := item.v;
      WithoutKeeps(cgens, x.chain.name);
      var i := GetCgen(x.chain.name);
      if i < |cgens| {
        DeleteCgen(i);
      } else {
        WithoutAbsent(cgens, x.chain.name);
      }
      ok := SetProgram(x);
      if !ok {
        return false;
      }
      ok := SetCgen(Built(x));
    }

    method ChainLoad(item: Read<Submission>) returns (ok: bool)
      modifies this
      ensures (Now(), ok) == Step(old(Now()), Request.ChainLoad(item))
    {
      hide C.Validate;
      if item.Unreadable? {
        return false;
      }
      var x := item.v.(hook := Detached);
      var i := GetCgen(x.chain.name);
      if i < |cgens| || !C.Validate(x.chain) {
        return false;
      }
      ok := SetProgram(x);
      if !ok {
        return false;
      }
      ok := SetCgen(Built(x));
    }

    method ChainAttach(name: Read<string>, options: nat, valid: bool, o: Outcome) returns (ok: bool)
      modifies this
      ensures (Now(), ok) == Step(old(Now()), Request.ChainAttach(name, options, valid, o))
    {
      if name.Unreadable? {
        return false;
      }
      var i := GetCgen(name.v);
      if i == |cgens| || cgens[i].program.hook.Hooked? || !valid || !o.pinDir {
        return false;
      }
      if !o.enter.Entered? {
        away := away || (o.elsewhere && o.enter.Halfway?);
        return false;
      }
      away := away || o.elsewhere;
      if !o.attach {
        return false;
      }
      var g := cgens[i];
      cgens := cgens[i := g.(program := g.program.(hook := Hooked(options)))];
      if o.elsewhere {
        away := false;
      }
      if !o.pin {
        cgens := cgens[i := cgens[i].(program := cgens[i].program.(hook := Detached))];
        assert cgens == old(cgens);
        return false;
      }
      return true;
    }

    /** The link moves to the new program, then program and chain are exchanged. */
    method ChainUpdate(item: Read<Submission>) returns (ok: bool)
      modifies this
      ensures (Now(), ok) == Step(old(Now()), Request.ChainUpdate(item))
    {
      if item.Unreadable? {
        return false;
      }
      var x := item.v;
      var i := GetCgen(x.chain.name);
      if i == |cgens| || cgens[i].program.hook.Detached? {
        return false;
      }
      if !x.outcome.pinDir || !x.outcome.generate || !x.outcome.load {
        return false;
      }
      var newProg := Loaded(x.chain, Detached);
      if !x.outcome.linkUpdate {
        return false;
      }
      newProg := newProg.(hook := cgens[i].program.hook);
      cgens := cgens[i := cgens[i].(program := newProg)];
      cgens := cgens[i := cgens[i].(chain := x.chain)];
      assert cgens == old(cgens)[i := Cgen(old(cgens)[i].front, x.chain, newProg)];
      return true;
    }

    method ChainFlush(name: Read<string>) returns (ok: bool)
      requires Inv(Now())
      modifies this
      ensures (Now(), ok) == Step(old(Now()), Request.ChainFlush(name))
    {
      if name.Unreadable? {
        return false;
      }
      var i := GetCgen(name.v);
      if i == |cgens| {
        return false;
      }
      DeleteCgen(i);
      return true;
    }

    /** The dispatcher. */
    method Handle(r: Request) returns (ok: bool)
      requires Inv(Now())
      modifies this
      ensures Inv(Now()) && (Now(), ok) == Step(old(Now()), r)
    {
      hide Step, Inv;
      StepKeeps(Now(), r);
      match r
      case RulesetFlush =>
        FlushStep(Now());
        Flush(Cli);
        ok := true;
      case RulesetSet(items) => ok := RulesetSet(items);
      case ChainSet(item) => ok := ChainSet(item);
      case ChainLoad(item) => ok := ChainLoad(item);
      case ChainAttach(name, options, valid, o) => ok := ChainAttach(name, options, valid, o);
      case ChainUpdate(item) => ok := ChainUpdate(item);
      case ChainFlush(name) => ok := ChainFlush(name);
    }
  }

  lemma FlushStep(s: State)
    ensures Step(s, RulesetFlush) == (s.(cgens := NotOf(s.cgens, Cli)), true)
  {
  }

  /** Visiting the i-th codegen: it goes, or it joins those kept. */
  lemma NotOfFrom(cgens: seq<Cgen>, i: nat, front: Front)
    requires i <= |cgens|
    ensures i == |cgens| ==> cgens[..i] + NotOf(cgens[i..], front) == cgens
    ensures i < |cgens| && cgens[i].front != front ==>
              cgens[..i + 1] + NotOf(cgens[i + 1..], front) == cgens[..i] + NotOf(cgens[i..], front)
    ensures i < |cgens| && cgens[i].front == front ==>
              var less := cgens[..i] + cgens[i + 1..]; less[..i] + NotOf(less[i..], front) == cgens[..i] + NotOf(cgens[i..], front)
  {
    if i < |cgens| {
      assert cgens[i..][1..] == cgens[i + 1..];
      var less := cgens[..i] + cgens[i + 1..];
      assert less[..i] == cgens[..i] && less[i..] == cgens[i + 1..];
      assert cgens[..i + 1] == cgens[..i] + [cgens[i]];
    }
  }

  lemma OthersUnnamed(cgens: seq<Cgen>, i: nat)
    requires Distinct(cgens) && i < |cgens|
    ensures !Named(cgens[..i], cgens[i].Name()) && !Named(cgens[i + 1..], cgens[i].Name())
  {
  }

  /** With distinct names, removing one codegen removes its name. */
  lemma OnlyOne(cgens: seq<Cgen>, i: nat)
    requires Distinct(cgens) && i < |cgens|
    ensures Without(cgens, cgens[i].Name()) == cgens[..i] + cgens[i + 1..]
  {
    hide Without, Distinct;
    var n, a, b := cgens[i].Name(), cgens[..i], cgens[i + 1..];
    assert cgens == a + ([cgens[i]] + b);
    WithoutConcat(a, [cgens[i]] + b, n);
    WithoutConcat([cgens[i]], b, n);
    WithoutOne(cgens[i]);
    OthersUnnamed(cgens, i);
    WithoutAbsent(a, n);
    WithoutAbsent(b, n);
  }

  /** A whole run of requests, as the daemon serves them. */
  method Serve(rs: seq<Request>) returns (s: State)
    ensures s == Run(State([], false), rs) && Inv(s)
  {
    hide Step, Inv;
    var d := new Daemon();
    var i := 0;
    assert rs[0..] == rs;
    while i < |rs|
      invariant 0 <= i <= |rs| && Inv(d.Now()) && Run(d.Now(), rs[i..]) == Run(State([], false), rs)
    {
      var ok := d.Handle(rs[i]);
      assert rs[i..][1..] == rs[i + 1..];
      i := i + 1;
    }
    s := d.Now();
  }

  /** Deleting a front's codegens from the linked list they are kept in is the same flush. */
  method FlushList(list: LinkedList.List<Cgen>, front: Front)
    requires list.Valid()
    modifies list, list.nodes
    ensures list.Valid() && list.Contents() == NotOf(old(list.Contents()), front)
  {
    ghost var visited := list.DeleteWhere((g: Cgen) => g.front == front);
    KeptIsNotOf(old(list.Contents()), front);
  }

  lemma {:induction false} KeptIsNotOf(cgens: seq<Cgen>, front: Front)
    ensures LinkedList.Kept(cgens, (g: Cgen) => g.front == front) == NotOf(cgens, front)
    decreases |cgens|
  {
    if cgens != [] {
      KeptIsNotOf(cgens[1..], front);
    }
  }
}
