/** What the constraints on called functions say at and after a test. */
module ConstraintMeaning {
  import opened IR
  import opened ICmps
  import opened Signs
  import opened Shapes
  import opened Sweep
  import opened ReturnConstraints
  import opened EdgeRefinement
  import Propagation = ReturnPropagation

  /** Going by the propagation fact after it, the result of instruction v may be
      that of a call of g. */
  ghost predicate MayHoldResult(fn: Func, pst: PropagationFacts, v: Value, g: string)
    requires Covers(fn, pst)
  {
    IsInstruction(fn, v) && exists w ::
      && w in Propagation.Held(pst.body[v.at.block][v.at.index], v)
      && IsInstruction(fn, w) && At(fn, w.at).Call? && CalleeName(At(fn, w.at).callee) == g
  }

  /** The terminator looks at v: what a switch with cases is on, or an operand
      of the comparison that a branch is on, the second one if the first is no
      instruction. */
  predicate LooksAt(fn: Func, ins: Instr, v: Value) {
    match ins
    case Switch(cond, cases, _) => cases != [] && v == cond
    case CondBr(cond, _, _) =>
      && IsInstruction(fn, cond) && At(fn, cond.at).ICmp?
      && v == if IsInstruction(fn, At(fn, cond.at).x) then At(fn, cond.at).x else At(fn, cond.at).y
    case _ => false
  }

  ghost predicate TestsResultOf(fn: Func, pst: PropagationFacts, ins: Instr, g: string)
    requires Covers(fn, pst)
  {
    exists v :: LooksAt(fn, ins, v) && MayHoldResult(fn, pst, v, g)
  }

  lemma ReachingIs(fn: Func, pst: PropagationFacts, v: Value, g: string)
    requires Covers(fn, pst) && IsInstruction(fn, v)
    ensures g in Reaching(fn, pst, v) <==> MayHoldResult(fn, pst, v, g)
  {
  }

  lemma TestedIs(fn: Func, pst: PropagationFacts, ins: Instr, g: string)
    requires Covers(fn, pst)
    ensures g in Tested(fn, pst, ins) <==> TestsResultOf(fn, pst, ins, g)
  {
    forall v | IsInstruction(fn, v) { ReachingIs(fn, pst, v, g); }
    match ins
    case Switch(cond, cases, _) =>
      if g in Tested(fn, pst, ins) { assert LooksAt(fn, ins, cond); }
    case CondBr(cond, _, _) =>
      if Comparison(fn, ins).Some? {
        var icmp := Comparison(fn, ins).value;
        var v := if IsInstruction(fn, icmp.x) then icmp.x else icmp.y;
        assert LooksAt(fn, ins, v);
      }
    case _ =>
  }

  /** The ways on from a test: where it goes when the tested value n has this
      outcome. */
  ghost predicate GoesTo(fn: Func, ins: Instr, target: nat, n: int) {
    match ins
    case Switch(_, cases, _) =>
      exists k :: 0 <= k < |cases| && cases[k].1 == target && RegionOf(cases[k].0) == RegionOf(n)
    case CondBr(cond, t, e) =>
      && Comparison(fn, ins).Some?
      && var icmp := Comparison(fn, ins).value;
         var signs := AbstractICmp(icmp.pred, icmp.x, icmp.y);
         (target == t && Holds(signs.0, n)) || (target == e && Holds(signs.1, n))
    case _ => false
  }

  /** The fact admits result n of g. */
  predicate Admits(f: Names, g: string, n: int) {
    g in f ==> Holds(f[g], n)
  }

  /** After a test of g's result nothing is left of what was known of g; other
      functions' constraints are passed on unchanged. */
  lemma TestKills(fn: Func, pst: PropagationFacts, st: State<Names>, b: nat, g: string)
    requires WellFormed(fn) && Covers(fn, pst) && Shape(fn, st) && Stable(Problem(fn, pst), st) && b < |fn.blocks|
    requires BlockOk(fn, fn.blocks[b])
    ensures var before, out := Before(st, b, |fn.blocks[b]| - 1), st.body[b][|fn.blocks[b]| - 1];
            if TestsResultOf(fn, pst, Last(fn.blocks[b]), g) then g in out && out[g] == Bottom
            else (g in out <==> g in before) && (g in before ==> out[g] == before[g])
  {
    var last := |fn.blocks[b]| - 1;
    StableTransfers(fn, pst, st, Point(b, last));
    TestedIs(fn, pst, Last(fn.blocks[b]), g);
  }

  /** Where control goes on for results n of g that were admitted before the
      test, they still are. */
  lemma TestAdmits(fn: Func, pst: PropagationFacts, st: State<Names>, b: nat, g: string, target: nat, n: int)
    requires WellFormed(fn) && Covers(fn, pst) && Shape(fn, st) && Stable(Problem(fn, pst), st) && b < |fn.blocks|
    requires BlockOk(fn, fn.blocks[b]) && TestsResultOf(fn, pst, Last(fn.blocks[b]), g)
    requires GoesTo(fn, Last(fn.blocks[b]), target, n) && Admits(Before(st, b, |fn.blocks[b]| - 1), g, n)
    ensures target < |fn.blocks| && g in st.entry[target] && Holds(st.entry[target][g], n)
  {
    var ins, before := Last(fn.blocks[b]), Before(st, b, |fn.blocks[b]| - 1);
    TestedIs(fn, pst, ins, g);
    var e := OutcomeSign(fn, ins, target, n);
    ExitArrives(fn, pst, st, b, Exit(target, Some(e)));
    var edge := EdgeFact(before, Tested(fn, pst, ins), Some(e));
    assert g in edge && edge[g] == RefinedAt(before, g, e);
    RefinedHolds(before, g, e, n);
    BelowIsInclusion(edge[g], st.entry[target][g]);
  }

  /** The way out that the test takes, and the sign it is known to have there. */
  lemma OutcomeSign(fn: Func, ins: Instr, target: nat, n: int) returns (e: Sign)
    requires GoesTo(fn, ins, target, n)
    ensures Exit(target, Some(e)) in Exits(fn, ins) && Holds(e, n)
  {
    match ins
    case Switch(_, cases, _) =>
      var k :| 0 <= k < |cases| && cases[k].1 == target && RegionOf(cases[k].0) == RegionOf(n);
      e := AbstractInteger(cases[k].0);
      assert Exit(cases[k].1, Some(AbstractInteger(cases[k].0))) in Exits(fn, ins);
    case CondBr(cond, t, other) =>
      var icmp := Comparison(fn, ins).value;
      var signs := AbstractICmp(icmp.pred, icmp.x, icmp.y);
      e := if target == t && Holds(signs.0, n) then signs.0 else signs.1;
  }

  lemma RefinedHolds(f: Names, g: string, e: Sign, n: int)
    ensures Holds(RefinedAt(f, g, e), n) <==> Holds(e, n) && Admits(f, g, n)
  {
    if g in f { OperationsHold(e, f[g], n); }
  }

  /** And what a test writes for a successor admits no other results: only those
      that were admitted before it and go there. */
  lemma WritesAdmit(fn: Func, pst: PropagationFacts, ins: Instr, before: Names, k: nat, g: string, n: int)
    requires Covers(fn, pst) && IsTest(ins) && k < |Writes(fn, pst, ins, before)|
    ensures var w := Writes(fn, pst, ins, before)[k];
            && (g in w.1 <==> TestsResultOf(fn, pst, ins, g))
            && (g in w.1 && Holds(w.1[g], n) ==> GoesTo(fn, ins, w.0, n) && Admits(before, g, n))
  {
    TestedIs(fn, pst, ins, g);
    var names := Tested(fn, pst, ins);
    if ins.Switch? {
      CaseWritesAre(before, names, ins.cases);
      RefinedHolds(before, g, AbstractInteger(ins.cases[k].0), n);
    } else {
      var icmp := Comparison(fn, ins).value;
      var signs := AbstractICmp(icmp.pred, icmp.x, icmp.y);
      RefinedHolds(before, g, signs.0, n);
      RefinedHolds(before, g, signs.1, n);
    }
  }

  /** After a call of g nothing is known of its result yet, and all else is as
      before; other instructions inside a block change nothing. */
  lemma CallForgets(fn: Func, pst: PropagationFacts, st: State<Names>, at: Point, g: string)
    requires WellFormed(fn) && Covers(fn, pst) && Shape(fn, st) && Stable(Problem(fn, pst), st)
    requires InFunc(fn, at) && !IsTerminator(At(fn, at))
    ensures var before, out := Before(st, at.block, at.index), st.body[at.block][at.index];
            if At(fn, at).Call? && CalleeName(At(fn, at).callee) == g then g in out && out[g] == Top
            else (g in out <==> g in before) && (g in before ==> out[g] == before[g])
  {
    StableTransfers(fn, pst, st, at);
  }
}
