/** The inference of error specifications over a module: components of the
    call graph bottom-up, each until no specification changes. */
module ErrorBlocksPass {
  import opened IR
  import opened CallGraph
  import opened Sets
  import opened Signs
  import opened Confidence
  import opened Specifications
  import opened ErrorBlocks
  import opened ComponentSweeps
  import opened ModuleSweeps
  import Returned = ReturnedValues
  import Constraints = ReturnConstraints

  /** Specifications given by sign: certain, and bottom means that the
      function never fails. */
  function Given(given: map<string, Sign>): Store {
    map f | f in given :: FromSign(given[f], if given[f] == Bottom then MAX else MIN)
  }

  /** What is given is certain in exactly the signs given, and that a function
      never fails is certain exactly if no sign is. */
  lemma GivenMeans(given: map<string, Sign>, f: string, r: Region)
    requires f in given
    ensures f in Given(given)
    ensures ConfidenceIn(Given(given)[f], r) == if Has(given[f], r) then MAX else MIN
    ensures Given(given)[f].emptyset == if forall q: Region :: !Has(given[f], q) then MAX else MIN
  {
    FromSignAt(given[f], if given[f] == Bottom then MAX else MIN, r);
    if forall q: Region :: !Has(given[f], q) {
      Extensional(given[f], Bottom);
    }
  }

  lemma GivenIsCertain(given: map<string, Sign>)
    ensures StoreLevel(MAX, Given(given))
  {
    forall f | f in given ensures OneLevel(MAX, Given(given)[f]) {
      match given[f]
      case Bottom => case LessThanZero => case GreaterThanZero => case Zero =>
      case LessThanEqualZero => case GreaterThanEqualZero => case NotZero => case Top =>
    }
  }

  /** Terms of the values visited so far, after an error-only call. */
  ghost function TermsOf(know: Knowledge, u: Unit, at: Point, vs: set<Value>): set<Spec> {
    set v | v in vs && ErrorOnlyTerm(know, u, at, v).Some? :: ErrorOnlyTerm(know, u, at, v).value
  }

  ghost function ConstraintTermsOf(s: Store, u: Unit, b: nat, rv: Value, fs: set<string>): set<Spec>
    requires UnitOk(u) && b < |u.fn.blocks| && |u.fn.blocks[b]| > 0
    requires fs <= u.constrained.body[b][|u.fn.blocks[b]| - 1].Keys
  {
    set f | f in fs && f != "" && ConstraintTerm(s, u, b, rv, f).Some? :: ConstraintTerm(s, u, b, rv, f).value
  }

  lemma ConstraintTermsGrow(s: Store, u: Unit, b: nat, rv: Value, fs: set<string>, f: string)
    requires UnitOk(u) && b < |u.fn.blocks| && |u.fn.blocks[b]| > 0
    requires fs + {f} <= u.constrained.body[b][|u.fn.blocks[b]| - 1].Keys
    ensures ConstraintTermsOf(s, u, b, rv, fs + {f})
            == ConstraintTermsOf(s, u, b, rv, fs)
               + if f != "" && ConstraintTerm(s, u, b, rv, f).Some? then {ConstraintTerm(s, u, b, rv, f).value} else {}
  {
  }

  lemma CallTermsGrow(know: Knowledge, s: Store, u: Unit, b: nat, i: nat)
    requires UnitOk(u) && b < |u.fn.blocks| && i < |u.fn.blocks[b]|
    ensures BlockCallTerms(know, s, u, b, i + 1)
            == BlockCallTerms(know, s, u, b, i)
               + (if u.fn.blocks[b][i].Call? then {CallSpec(know, s, u, Point(b, i))} else {})
  {
  }

  lemma FailingGrow(know: Knowledge, s: Store, u: Unit, b: nat)
    requires UnitOk(u) && b < |u.fn.blocks|
    ensures var spec := BlockSpec(know, s, u, b);
            FailingBlocks(know, s, u, b + 1)
            == FailingBlocks(know, s, u, b) + (if IsEmptyset(spec) then {} else {spec})
  {
    var spec, before, grown := BlockSpec(know, s, u, b), FailingBlocks(know, s, u, b), FailingBlocks(know, s, u, b + 1);
    assert before <= grown && (IsEmptyset(spec) || spec in grown);
    forall x | x in grown ensures x in before || (x == spec && !IsEmptyset(spec)) {
      var i: nat :| i < b + 1 && !IsEmptyset(BlockSpec(know, s, u, i)) && x == BlockSpec(know, s, u, i);
      assert i == b || x in before;
    }
  }

  /** Joining in the next block, if it may fail. */
  lemma FailingJoin(know: Knowledge, s: Store, u: Unit, b: nat, join: Spec)
    requires UnitOk(u) && b < |u.fn.blocks| && IsJoinOf(join, {UNKNOWN} + FailingBlocks(know, s, u, b))
    ensures var block, next := BlockSpec(know, s, u, b), FailingBlocks(know, s, u, b + 1);
            if IsEmptyset(block) then next == FailingBlocks(know, s, u, b)
            else next != {} && IsJoinOf(Confidence.Join(block, join), {UNKNOWN} + next)
  {
    var before, block := FailingBlocks(know, s, u, b), BlockSpec(know, s, u, b);
    FailingGrow(know, s, u, b);
    if !IsEmptyset(block) {
      JoinOfMore(join, {UNKNOWN} + before, block);
      assert {UNKNOWN} + before + {block} == {UNKNOWN} + (before + {block});
    }
  }

  class Pass {
    const env: Env
    const know: Knowledge
    const units: map<string, Unit>
    var specs: Store
    ghost var history: seq<Store>    // the states of the store so far

    ghost predicate Valid()
      reads this
    {
      && UnitsOk(units)
      && IsHistory(env, history) && history[|history| - 1] == specs
    }

    constructor (given: map<string, Sign>, ranges: map<string, Sign>, void: set<string>, know: Knowledge,
                 units: map<string, Unit>)
      requires UnitsOk(units)
      ensures Valid() && specs == Given(given) && env == Env(Given(given), ranges, void)
      ensures this.know == know && this.units == units && StoreLevel(MAX, specs)
    {
      env := Env(Given(given), ranges, void);
      this.know := know;
      this.units := units;
      specs := Given(given);
      history := [Given(given)];
      GivenIsCertain(given);
    }

    lemma StoreIsOk()
      requires Valid()
      ensures StoreOk(env, specs)
    {
      SpecificationsStayInside(env, history, |history| - 1);
    }

    /** The only place where specifications change. */
    method UpdateErrorSpecification(f: string, inferred: Spec) returns (changed: bool)
      requires Valid()
      modifies this
      ensures Valid() && specs == Updated(env, old(specs), f, inferred)
      ensures changed == (specs != old(specs))
      ensures old(history) <= history
    {
      if Ignore(env, f) {
        return false;
      }
      var current := Lookup(specs, f);
      var delta := Constrain(current, inferred, RangeFor(env, f));
      if delta.None? {
        return false;
      }
      ghost var before := specs;
      specs := specs[f := delta.value];
      Extend(before, f, inferred);
      history := history + [specs];
      return current != delta.value;
    }

    /** The specification to store, or none if the update is refused. */
    static method Constrain(current: Spec, inferred: Spec, range: Sign) returns (next: Option<Spec>)
      ensures next == Refit(current, inferred, range)
    {
      var delta := Intersection(inferred, range);
      if !IsUnknown(current) {
        delta := Confidence.Join(current, delta);
      }
      if MaxEquals(delta, range) {
        return None;
      }
      if Equals(delta, range) {
        delta := RemoveLowestNonMin(delta);
        if Equals(delta, range) {
          delta := KeepIfMax(delta);
        }
      }
      next := if IsUnknown(delta) then None else Some(delta);
    }

    lemma Extend(before: Store, f: string, inferred: Spec)
      requires IsHistory(env, history) && history[|history| - 1] == before
      requires specs == Updated(env, before, f, inferred)
      ensures IsHistory(env, history + [specs])
    {
      var longer := history + [specs];
      forall k: nat | k + 1 < |longer| ensures StepsAt(env, longer, k) {
        if k + 1 < |history| { assert StepsAt(env, history, k); }
      }
    }

    method VisitCallInst(u: Unit, at: Point) returns (r: Spec)
      requires UnitOk(u) && InFunc(u.fn, at) && At(u.fn, at).Call?
      ensures r == CallSpec(know, specs, u, at)
    {
      ghost var terms := CallTerms(know, specs, u, at);
      if at !in u.errorOnlyCalls {
        r := OrdinaryCall(specs, u, at);
        assert IsJoinOf(JoinOf({r}), {r}) && r in {r} && AllBelow({r}, r);
        assert Confidence.Leq(r, JoinOf({r})) && Confidence.Leq(JoinOf({r}), r);
        return;
      }
      r := EMPTYSET;
      ghost var done := {};
      var rest := Returned.InFact(u.returned, at);
      while rest != {}
        invariant done !! rest && done + rest == Returned.InFact(u.returned, at)
        invariant IsJoinOf(r, {EMPTYSET} + TermsOf(know, u, at, done))
      {
        var v :| v in rest;
        var term := ErrorOnlyTerm(know, u, at, v);
        ghost var before := {EMPTYSET} + TermsOf(know, u, at, done);
        ghost var after := {EMPTYSET} + TermsOf(know, u, at, done + {v});
        if term.Some? {
          JoinOfMore(r, before, term.value);
          assert before + {term.value} == after;
          r := Confidence.Join(term.value, r);
        } else {
          assert before == after;
        }
        done := done + {v};
        rest := rest - {v};
      }
      BoundsAreUnique(r, JoinOf(terms), terms);
    }

    method VisitBlock(u: Unit, b: nat) returns (r: Spec)
      requires UnitOk(u) && b < |u.fn.blocks|
      ensures r == BlockSpec(know, specs, u, b)
    {
      assert BlockOk(u.fn, u.fn.blocks[b]);
      ghost var terms := BlockTerms(know, specs, u, b);
      r := VisitCalls(u, b);
      var values := Returned.InFact(u.returned, Point(b, 0));
      if |values| != 1 {
        BoundsAreUnique(r, JoinOf(terms), terms);
        return;
      }
      var rv :| rv in values;
      OnlyMember(values, rv);
      ghost var soFar := BlockCallTerms(know, specs, u, b, |u.fn.blocks[b]|);
      if IsConstantInt(rv) {
        var file := FileAt(u, Point(b, 0));
        if IsCode(know.errorCodes, ConstantValue(rv), file) {
          var term := ErrorValue(know, u.name, ConstantValue(rv));
          JoinOfMore(r, soFar, term);
          soFar := soFar + {term};
          r := Confidence.Join(term, r);
        } else if IsCode(know.successCodes, ConstantValue(rv), file) {
          BoundsAreUnique(r, JoinOf(terms), terms);
          return;
        }
      }
      r := VisitConstraints(u, b, rv, r, soFar);
      BoundsAreUnique(r, JoinOf(terms), terms);
    }

    method VisitCalls(u: Unit, b: nat) returns (r: Spec)
      requires UnitOk(u) && b < |u.fn.blocks|
      ensures IsJoinOf(r, BlockCallTerms(know, specs, u, b, |u.fn.blocks[b]|))
    {
      r := EMPTYSET;
      for i := 0 to |u.fn.blocks[b]|
        invariant IsJoinOf(r, BlockCallTerms(know, specs, u, b, i))
      {
        ghost var before := BlockCallTerms(know, specs, u, b, i);
        CallTermsGrow(know, specs, u, b, i);
        if u.fn.blocks[b][i].Call? {
          var term := VisitCallInst(u, Point(b, i));
          JoinOfMore(r, before, term);
          r := Confidence.Join(term, r);
        }
      }
    }

    method VisitConstraints(u: Unit, b: nat, rv: Value, start: Spec, ghost terms: set<Spec>) returns (r: Spec)
      requires UnitOk(u) && b < |u.fn.blocks| && |u.fn.blocks[b]| > 0 && IsJoinOf(start, terms)
      ensures IsJoinOf(r, terms + ConstraintTerms(specs, u, b, rv))
    {
      var last := |u.fn.blocks[b]| - 1;
      var constraints := u.constrained.body[b][last];
      r := start;
      ghost var done := {};
      var rest := constraints.Keys;
      assert terms + ConstraintTermsOf(specs, u, b, rv, done) == terms;
      while rest != {}
        invariant done !! rest && done + rest == constraints.Keys
        invariant IsJoinOf(r, terms + ConstraintTermsOf(specs, u, b, rv, done))
      {
        var f :| f in rest;
        ghost var before := ConstraintTermsOf(specs, u, b, rv, done);
        ConstraintTermsGrow(specs, u, b, rv, done, f);
        if f != "" {
          var term := VisitConstraint(u, b, rv, f);
          if term.Some? {
            JoinOfMore(r, terms + before, term.value);
            assert terms + before + {term.value} == terms + (before + {term.value});
            r := Confidence.Join(term.value, r);
          }
        }
        done := done + {f};
        rest := rest - {f};
      }
      assert ConstraintTermsOf(specs, u, b, rv, done) == ConstraintTerms(specs, u, b, rv);
    }

    method VisitConstraint(u: Unit, b: nat, rv: Value, f: string) returns (term: Option<Spec>)
      requires UnitOk(u) && b < |u.fn.blocks| && |u.fn.blocks[b]| > 0
      requires f in u.constrained.body[b][|u.fn.blocks[b]| - 1]
      ensures term == ConstraintTerm(specs, u, b, rv, f)
    {
      var last := |u.fn.blocks[b]| - 1;
      var elem := u.constrained.body[b][last][f];
      var cut := Intersection(Lookup(specs, f), elem);
      if IsUnknown(cut) || IsEmptyset(cut) {
        return Some(cut);
      }
      var returned: Spec := UNKNOWN;
      if elem != Top {
        returned := ConstantReturn(rv, cut);
      }
      if rv.Reg? && InFunc(u.fn, rv.at) && At(u.fn, rv.at).Call? {
        returned := CalleeReturn(specs, Constraints.CalleeName(At(u.fn, rv.at).callee), f, cut, returned);
      } else {
        var held := u.propagated.body[b][last];
        if rv in held {
          if |held[rv]| > 1 {
            return None;
          }
          if held[rv] != {} {
            var w :| w in held[rv];
            OnlyMember(held[rv], w);
            returned := HeldReturn(specs, u, w, f, cut, returned);
          }
        }
      }
      term := if IsUnknown(returned) then None else Some(returned);
    }

    /** Infers from the blocks of f what it returns on errors. */
    method RunOnFunction(f: string) returns (changed: bool)
      requires Valid()
      modifies this
      ensures Valid() && specs == Analyzed(env, know, units, old(specs), f)
      ensures changed == (specs != old(specs))
      ensures old(history) <= history
    {
      if f !in units {
        return false;
      }
      var u := units[f];
      var failing := false;
      var join: Spec := UNKNOWN;
      for b := 0 to |u.fn.blocks|
        invariant Valid() && specs == old(specs) && history == old(history)
        invariant failing == (FailingBlocks(know, specs, u, b) != {})
        invariant IsJoinOf(join, {UNKNOWN} + FailingBlocks(know, specs, u, b))
      {
        var block := VisitBlock(u, b);
        FailingJoin(know, specs, u, b, join);
        if !IsEmptyset(block) {
          failing := true;
          join := Confidence.Join(block, join);
        }
      }
      ghost var terms := {UNKNOWN} + FailingBlocks(know, specs, u, |u.fn.blocks|);
      BoundsAreUnique(join, JoinOf(terms), terms);
      changed := UpdateErrorSpecification(f, if failing then join else EMPTYSET);
    }

    // ----- A component -----

    ghost function Fixed(): Setting {
      Setting(env, know, units)
    }

    /** Visits the functions of a component once. */
    method SweepScc(funcs: seq<string>) returns (changed: bool)
      requires Valid()
      modifies this
      ensures Valid() && specs == SweepOf(Fixed(), old(specs), funcs)
      ensures changed == !AllSettled(Fixed(), old(specs), funcs)
    {
      ghost var x, start := Fixed(), specs;
      changed := false;
      for i := 0 to |funcs|
        invariant Valid() && specs == SweepOf(x, start, funcs[..i])
        invariant changed == !AllSettled(x, start, funcs[..i]) && (!changed ==> specs == start)
      {
        SweepFurther(x, start, funcs, i);
        ChangedOneMore(x, start, specs, funcs, i, changed);
        var one := RunOnFunction(funcs[i]);
        changed := one || changed;
      }
      assert funcs[..|funcs|] == funcs;
    }

    /** Sweeps a component until no specification changes, or once if it has no
        loop.  With a loop the last sweep is the first that changes nothing, if
        there is one. */
    method RunOnScc(funcs: seq<string>, hasLoop: bool) returns (sweeps: nat)
      requires Valid() && (hasLoop ==> Ends(Fixed(), specs, funcs))
      modifies this
      ensures Valid() && specs == After(Fixed(), old(specs), funcs, sweeps)
      ensures if hasLoop then EndsAt(Fixed(), old(specs), funcs, sweeps) else sweeps == 1
    {
      ghost var x := Fixed();
      ghost var enough: nat := 1;
      if hasLoop { enough :| EndsWithin(x, specs, funcs, enough); }
      sweeps := 0;
      var changed := true;
      while changed
        invariant Valid() && specs == After(x, old(specs), funcs, sweeps)
        invariant if changed then Unsettled(x, old(specs), funcs, sweeps) else EndsAt(x, old(specs), funcs, sweeps)
        invariant hasLoop || sweeps == 0
        decreases enough - sweeps, if changed then 1 else 0
      {
        if hasLoop { MoreToCome(x, old(specs), funcs, sweeps, enough); }
        changed := SweepScc(funcs);
        NextSweep(x, old(specs), funcs, sweeps);
        NextIsLast(x, old(specs), funcs, sweeps);
        sweeps := sweeps + 1;
        if !hasLoop {
          break;
        }
      }
    }

    // ----- A module -----

    /** Functions of which nothing is known after their component was visited may
        be given what their synonyms' specifications suggest. */
    method ExpandComponent(funcs: seq<string>, expansions: map<string, Spec>) returns (expanded: set<string>)
      requires Valid()
      modifies this
      ensures Valid() && ExpandedBy(old(specs), specs, Suggested(env, expansions), funcs, expanded)
    {
      ghost var suggested := Suggested(env, expansions);
      SuggestedAreKnown(env, expansions);
      expanded := {};
      for i := 0 to |funcs|
        invariant Valid() && ExpandedBy(old(specs), specs, suggested, funcs[..i], expanded)
      {
        ExpandOneMore(old(specs), specs, suggested, funcs, i, expanded);
        if funcs[i] in expansions && IsUnknown(Lookup(specs, funcs[i])) {
          var updated := UpdateErrorSpecification(funcs[i], expansions[funcs[i]]);
          if updated { expanded := expanded + {funcs[i]}; }
        }
      }
      assert funcs[..|funcs|] == funcs;
    }

    method NotIgnored(nodes: seq<string>) returns (funcs: seq<string>)
      ensures funcs == Eligible(env, nodes)
    {
      funcs := [];
      for k := 0 to |nodes|
        invariant funcs == Eligible(env, nodes[..k])
      {
        assert nodes[..k + 1][..k] == nodes[..k];
        if !Ignore(env, nodes[k]) { funcs := funcs + [nodes[k]]; }
      }
      assert nodes[..|nodes|] == nodes;
    }

    /** Sweeps the functions of a component that is first met until all are
        settled. */
    method SettleComponent(sccs: seq<Scc>, i: nat, funcs: seq<string>)
      requires Valid() && BottomUp(Defined(Fixed()), sccs) && i < |sccs|
      requires FunctionsOf(Fixed(), sccs[i], funcs) && NewFrom(Fixed(), specs, sccs, i)
      requires sccs[i].hasLoop ==> Ends(Fixed(), specs, funcs)
      modifies this
      ensures Valid() && AllSettled(Fixed(), specs, funcs)
      ensures Visited(Fixed(), old(specs), specs, funcs, sccs[i].hasLoop)
    {
      var sweeps := RunOnScc(funcs, sccs[i].hasLoop);
      if sccs[i].hasLoop {
        EndIsSettled(Fixed(), old(specs), funcs, sweeps);
      } else {
        OneSweepSettles(Fixed(), old(specs), sccs, i, funcs);
      }
    }

    /** Visits the next component, and then tries to expand its functions. */
    method RunOnNext(sccs: seq<Scc>, i: nat, expansions: map<string, Spec>, ghost expanded: set<string>)
      returns (more: set<string>)
      requires Valid() && BottomUp(Defined(Fixed()), sccs) && i < |sccs|
      requires SettledBut(Fixed(), specs, sccs, i, expanded) && NewFrom(Fixed(), specs, sccs, i)
      requires AsSuggested(specs, Suggested(env, expansions), sccs, i, expanded)
      requires LoopsEnd(Fixed(), specs, sccs, i, expansions) && KeepsToLevels(Fixed(), specs, expansions)
      modifies this
      ensures Valid()
      ensures SettledBut(Fixed(), specs, sccs, i + 1, expanded + more) && NewFrom(Fixed(), specs, sccs, i + 1)
      ensures AsSuggested(specs, Suggested(env, expansions), sccs, i + 1, expanded + more)
      ensures LoopsEnd(Fixed(), specs, sccs, i + 1, expansions) && KeepsToLevels(Fixed(), specs, expansions)
    {
      ghost var x, before, suggested := Fixed(), specs, Suggested(env, expansions);
      StoreIsOk();
      var funcs := NotIgnored(sccs[i].nodes);
      EligibleAre(env, sccs[i].nodes);
      SettleComponent(sccs, i, funcs);
      ghost var mid := specs;
      VisitFrame(x, before, mid, funcs, sccs[i].hasLoop);
      more := ExpandComponent(funcs, expansions);
      OneMoreSettled(x, before, mid, specs, sccs, i, funcs, expanded, more);
      OneMoreKnown(x, before, mid, specs, sccs, i, funcs, more);
      ExpandedStay(x, before, mid, specs, suggested, sccs, i, funcs, expanded, more);
      assert Moves(x, before, specs, sccs[i], expansions);
      MoveKeepsToLevels(x, before, specs, sccs, i, expansions);
    }

    /** Visits the components bottom-up, with any suggestions for expansion,
        provided that the loops it comes to end.  At the end no specification
        would change if its function were analysed again, but for functions that
        were expanded, or that call one of their component that was. */
    method RunOnModule(sccs: seq<Scc>, expansions: map<string, Spec>) returns (expanded: set<string>)
      requires Valid() && BottomUp(Defined(Fixed()), sccs) && specs == env.initial
      requires LoopsEnd(Fixed(), specs, sccs, 0, expansions)
      modifies this
      ensures Valid() && StoreOk(env, specs)
      ensures SettledBut(Fixed(), specs, sccs, |sccs|, expanded)
      ensures AsSuggested(specs, Suggested(env, expansions), sccs, |sccs|, expanded)
      ensures KeepsToLevels(Fixed(), specs, expansions)
    {
      expanded := {};
      for i := 0 to |sccs|
        invariant Valid()
        invariant SettledBut(Fixed(), specs, sccs, i, expanded) && NewFrom(Fixed(), specs, sccs, i)
        invariant AsSuggested(specs, Suggested(env, expansions), sccs, i, expanded)
        invariant LoopsEnd(Fixed(), specs, sccs, i, expansions) && KeepsToLevels(Fixed(), specs, expansions)
      {
        var more := RunOnNext(sccs, i, expansions, expanded);
        expanded := expanded + more;
      }
      StoreIsOk();
    }
  }
}
