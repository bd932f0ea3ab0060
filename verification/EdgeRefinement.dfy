/** Killing a tested function after the terminator and writing its refined
    constraint straight into the successors amounts to an analysis with a fact
    per control-flow edge. */
module EdgeRefinement {
  import opened IR
  import opened ICmps
  import opened Signs
  import opened SignFacts
  import opened Shapes
  import opened Sweep
  import opened ReturnConstraints

  /** The way out of a terminator to block `target`, on which the tested value
      is described by `sign`, if that is known. */
  datatype Exit = Exit(target: nat, sign: Option<Sign>)

  function Exits(fn: Func, ins: Instr): set<Exit> {
    match ins
    case Br(t) => {Exit(t, None)}
    case CondBr(_, t, e) =>
      var icmp := Comparison(fn, ins);
      if icmp.None? then {Exit(t, None), Exit(e, None)} else
      var signs := AbstractICmp(icmp.value.pred, icmp.value.x, icmp.value.y);
      {Exit(t, Some(signs.0)), Exit(e, Some(signs.1))}
    case Switch(_, cases, default) =>
      (set k | 0 <= k < |cases| :: Exit(cases[k].1, Some(AbstractInteger(cases[k].0)))) + {Exit(default, None)}
    case _ => {}
  }

  /** The constraints on one way out, from those before the terminator: tested
      functions are refined by the outcome (and unconstrained from below on
      the default way out of a switch), all others are passed on. */
  function EdgeFact(f: Names, tested: set<string>, sign: Option<Sign>): Names {
    map n | n in f.Keys + tested ::
      if n !in tested then f[n] else if sign.Some? then RefinedAt(f, n, sign.value) else Bottom
  }

  /** A solution of the edge-sensitive equations: inside a block every fact is
      the transfer of the one before, and a block starts with at least what
      arrives on each way into it. */
  ghost predicate EdgeSolution(fn: Func, pst: PropagationFacts, st: State<Names>)
    requires Covers(fn, pst) && Shape(fn, st)
  {
    && (forall at: Point :: InFunc(fn, at) ==>
          st.body[at.block][at.index] == Transfer(fn, pst, At(fn, at), Before(st, at.block, at.index)))
    && (forall b: nat, x: Exit :: b < |fn.blocks| && |fn.blocks[b]| > 0 && x in Exits(fn, Last(fn.blocks[b])) ==>
          && x.target < |fn.blocks|
          && BelowFact(EdgeFact(Before(st, b, |fn.blocks[b]| - 1), Tested(fn, pst, Last(fn.blocks[b])), x.sign),
                       st.entry[x.target]))
  }

  lemma ExitsAreEdges(fn: Func, b: nat, x: Exit)
    requires WellFormed(fn) && b < |fn.blocks| && BlockOk(fn, fn.blocks[b]) && x in Exits(fn, Last(fn.blocks[b]))
    ensures Edge(fn, b, x.target) && x.target < |fn.blocks|
  {
    var ins := Last(fn.blocks[b]);
    if ins.Switch? && x != Exit(ins.default, None) {
      var k :| 0 <= k < |ins.cases| && x == Exit(ins.cases[k].1, Some(AbstractInteger(ins.cases[k].0)));
      assert ins.cases[k].1 in CaseTargets(ins.cases);
    }
    assert x.target in Successors(ins);
  }

  /** What the terminator lets through reaches the successor by the join. */
  lemma OutReaches(fn: Func, pst: PropagationFacts, st: State<Names>, b: nat, t: nat)
    requires WellFormed(fn) && Covers(fn, pst) && Shape(fn, st) && Stable(Problem(fn, pst), st)
    requires b < |fn.blocks| && |fn.blocks[b]| > 0 && t < |fn.blocks| && Edge(fn, b, t)
    ensures BelowFact(st.body[b][|fn.blocks[b]| - 1], st.entry[t])
  {
    var sys := Problem(fn, pst);
    assert Gathered(sys, st, t);
    assert sys.feeds(b, t);
    assert Leq(sys, sys.flow(b, t, st.body[b]), st.entry[t]);
    AtomsBelow(st.body[b][|fn.blocks[b]| - 1], st.entry[t]);
  }

  /** What the terminator refines reaches the successor by a direct write. */
  lemma RefinementReaches(fn: Func, pst: PropagationFacts, st: State<Names>, b: nat, x: Exit)
    requires WellFormed(fn) && Covers(fn, pst) && Shape(fn, st) && Stable(Problem(fn, pst), st)
    requires b < |fn.blocks| && BlockOk(fn, fn.blocks[b]) && IsTest(Last(fn.blocks[b]))
    requires x in Exits(fn, Last(fn.blocks[b])) && x.sign.Some? && x.target < |fn.blocks|
    ensures BelowFact(Refined(Before(st, b, |fn.blocks[b]| - 1), Tested(fn, pst, Last(fn.blocks[b])), x.sign.value),
                      st.entry[x.target])
  {
    var k := ExitOfBlock(fn, pst, st, b, x);
    WrittenMeans(fn, pst, st, b, k);
  }

  lemma ExitOfBlock(fn: Func, pst: PropagationFacts, st: State<Names>, b: nat, x: Exit) returns (k: nat)
    requires Covers(fn, pst) && Shape(fn, st)
    requires b < |fn.blocks| && BlockOk(fn, fn.blocks[b]) && IsTest(Last(fn.blocks[b]))
    requires x in Exits(fn, Last(fn.blocks[b])) && x.sign.Some?
    ensures k < |BlockWrites(fn, pst, b, st.body[b])|
    ensures BlockWrites(fn, pst, b, st.body[b])[k]
            == (x.target, Refined(Before(st, b, |fn.blocks[b]| - 1), Tested(fn, pst, Last(fn.blocks[b])), x.sign.value))
  {
    BlockWritesAre(fn, pst, b, st.body[b]);
    k := ExitIsWritten(fn, pst, Last(fn.blocks[b]), Before(st, b, |fn.blocks[b]| - 1), x);
  }

  lemma WrittenMeans(fn: Func, pst: PropagationFacts, st: State<Names>, b: nat, k: nat)
    requires Covers(fn, pst) && Shape(fn, st) && Stable(Problem(fn, pst), st) && b < |fn.blocks|
    requires k < |BlockWrites(fn, pst, b, st.body[b])|
    ensures var w := BlockWrites(fn, pst, b, st.body[b])[k]; w.0 < |st.entry| && BelowFact(w.1, st.entry[w.0])
  {
    var sys := Problem(fn, pst);
    var ws := sys.writes(b, st.body[b]);
    assert Written(sys, st, b);
    assert Leq(sys, ws[k].1, st.entry[ws[k].0]);
    AtomsBelow(ws[k].1, st.entry[ws[k].0]);
  }

  /** Every way out with a known outcome is among the terminator's writes. */
  lemma ExitIsWritten(fn: Func, pst: PropagationFacts, ins: Instr, before: Names, x: Exit) returns (k: nat)
    requires Covers(fn, pst) && IsTest(ins) && x in Exits(fn, ins) && x.sign.Some?
    ensures k < |Writes(fn, pst, ins, before)|
    ensures Writes(fn, pst, ins, before)[k] == (x.target, Refined(before, Tested(fn, pst, ins), x.sign.value))
  {
    if ins.Switch? {
      CaseWritesAre(before, Tested(fn, pst, ins), ins.cases);
      k :| 0 <= k < |ins.cases| && x == Exit(ins.cases[k].1, Some(AbstractInteger(ins.cases[k].0)));
    } else {
      var icmp := Comparison(fn, ins).value;
      var signs := AbstractICmp(icmp.pred, icmp.x, icmp.y);
      k := if x == Exit(ins.onTrue, Some(signs.0)) then 0 else 1;
    }
  }

  lemma StableTransfers(fn: Func, pst: PropagationFacts, st: State<Names>, at: Point)
    requires Covers(fn, pst) && Shape(fn, st) && Stable(Problem(fn, pst), st) && InFunc(fn, at)
    ensures st.body[at.block][at.index] == Transfer(fn, pst, At(fn, at), Before(st, at.block, at.index))
  {
    assert Fresh(Problem(fn, pst), st, at.block);
    ChainEquation(Stepper(fn, pst, at.block), |fn.blocks[at.block]|, st.entry[at.block], at.index);
  }

  lemma ExitArrives(fn: Func, pst: PropagationFacts, st: State<Names>, b: nat, x: Exit)
    requires WellFormed(fn) && Covers(fn, pst) && Shape(fn, st) && Stable(Problem(fn, pst), st)
    requires b < |fn.blocks| && BlockOk(fn, fn.blocks[b]) && x in Exits(fn, Last(fn.blocks[b]))
    ensures x.target < |fn.blocks|
    ensures BelowFact(EdgeFact(Before(st, b, |fn.blocks[b]| - 1), Tested(fn, pst, Last(fn.blocks[b])), x.sign),
                      st.entry[x.target])
  {
    var last := |fn.blocks[b]| - 1;
    var ins, before := Last(fn.blocks[b]), Before(st, b, last);
    ExitsAreEdges(fn, b, x);
    OutReaches(fn, pst, st, b, x.target);
    StableTransfers(fn, pst, st, Point(b, last));
    var out, tested := st.body[b][last], Tested(fn, pst, ins);
    assert forall n :: n in before && n !in tested ==> n in out && out[n] == before[n];
    if x.sign.Some? && IsTest(ins) {
      RefinementReaches(fn, pst, st, b, x);
    } else if x.sign.Some? {
      assert tested == {};
    } else {
      assert forall n :: n in tested ==> n in out;
    }
    BothReach(before, tested, x.sign, out, st.entry[x.target]);
  }

  lemma BothReach(before: Names, tested: set<string>, sign: Option<Sign>, out: Names, entry: Names)
    requires forall n :: n in before && n !in tested ==> n in out && out[n] == before[n]
    requires sign.None? ==> forall n :: n in tested ==> n in out
    requires BelowFact(out, entry) && (sign.Some? ==> BelowFact(Refined(before, tested, sign.value), entry))
    ensures BelowFact(EdgeFact(before, tested, sign), entry)
  {
    var e := EdgeFact(before, tested, sign);
    forall n | n in e ensures n in entry && Below(e[n], entry[n]) {
      if n !in tested {
        assert Below(out[n], entry[n]);
      } else if sign.Some? {
        assert Below(Refined(before, tested, sign.value)[n], entry[n]);
      }
    }
  }

  /** When the sweeps stop, the facts solve the edge-sensitive equations. */
  lemma FixpointIsEdgeSolution(fn: Func, pst: PropagationFacts, st: State<Names>)
    requires WellFormed(fn) && Covers(fn, pst) && Shape(fn, st) && Stable(Problem(fn, pst), st)
    ensures EdgeSolution(fn, pst, st)
  {
    forall at: Point | InFunc(fn, at)
      ensures st.body[at.block][at.index] == Transfer(fn, pst, At(fn, at), Before(st, at.block, at.index))
    {
      StableTransfers(fn, pst, st, at);
    }
    forall b: nat, x: Exit | b < |fn.blocks| && |fn.blocks[b]| > 0 && x in Exits(fn, Last(fn.blocks[b]))
      ensures x.target < |fn.blocks|
      ensures BelowFact(EdgeFact(Before(st, b, |fn.blocks[b]| - 1), Tested(fn, pst, Last(fn.blocks[b])), x.sign),
                        st.entry[x.target])
    {
      assert BlockOk(fn, fn.blocks[b]);
      ExitArrives(fn, pst, st, b, x);
    }
  }
}
