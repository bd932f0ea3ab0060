/** What the constraints on called functions say of executions: they describe the
    latest results, as far as tests are of these and no switch takes its default
    way. */
module ConstraintSound {
  import opened IR
  import opened Exec
  import opened ICmps
  import opened Signs
  import opened Shapes
  import opened Sweep
  import opened ReturnConstraints
  import opened EdgeRefinement
  import opened ConstraintMeaning
  import opened ConstraintPaths
  import Propagation = ReturnPropagation
  import PropagationSound = ReturnPropagationSound

  /** What the last call of g in the first k steps of the run returned. */
  ghost function Latest(fn: Func, run: seq<Frame>, k: nat, g: string): Option<int>
    requires k < |run|
  {
    if k == 0 then None
    else if InFunc(fn, run[k - 1].at) && Calls(At(fn, run[k - 1].at), g) && run[k - 1].at in run[k].regs
    then Some(run[k].regs[run[k - 1].at].n)
    else Latest(fn, run, k - 1, g)
  }

  /** The outcome of a test is that of n: a case of the switch is for n, or the
      branch goes by a comparison of n that its abstraction can be trusted with. */
  ghost predicate Decides(fn: Func, fr: Frame, n: int)
    requires InFunc(fn, fr.at)
  {
    match At(fn, fr.at)
    case Switch(cond, cases, _) =>
      Eval(fr, cond).Some? && Eval(fr, cond).value.n == n && exists k :: 0 <= k < |cases| && cases[k].0 == n
    case CondBr(cond, _, _) =>
      && Comparison(fn, At(fn, fr.at)).Some? && Eval(fr, cond).Some?
      && var icmp := Comparison(fn, At(fn, fr.at)).value;
         exists a, b {:trigger Outcome(icmp.pred, a, b)} ::
           Trusted(icmp.pred, icmp.x, icmp.y, a, b) && Subject(icmp.x, icmp.y, a, b) == n
           && (Eval(fr, cond).value.n != 0 <==> Outcome(icmp.pred, a, b))
    case _ => false
  }

  /** The abstraction of a comparison of a with b is right. */
  predicate Trusted(p: Predicate, x: Value, y: Value, a: int, b: int) {
    ICmps.Operands(x, y, a, b) && Readable(p, x, y, a, b) && (x.NullPointer? || y.NullPointer? ==> p.EQ? || p.NE?)
  }

  /** Where the run tests what may be a result of g, the test is of the latest. */
  ghost predicate TestsLatest(fn: Func, pst: PropagationFacts, run: seq<Frame>, k: nat, g: string)
    requires Covers(fn, pst) && k < |run|
  {
    InFunc(fn, run[k].at) && TestsResultOf(fn, pst, At(fn, run[k].at), g) && Latest(fn, run, k, g).Some? ==>
      Decides(fn, run[k], Latest(fn, run, k, g).value)
  }

  lemma {:induction false} CaseFound(cases: seq<(int, nat)>, default: nat, n: int)
    requires exists k :: 0 <= k < |cases| && cases[k].0 == n
    ensures exists k :: 0 <= k < |cases| && cases[k].0 == n && cases[k].1 == SwitchTarget(cases, default, n)
  {
    if cases[0].0 != n {
      var k :| 0 <= k < |cases| && cases[k].0 == n;
      assert cases[1..][k - 1].0 == n;
      CaseFound(cases[1..], default, n);
      var j :| 0 <= j < |cases[1..]| && cases[1..][j].0 == n && cases[1..][j].1 == SwitchTarget(cases[1..], default, n);
      assert cases[j + 1].0 == n && cases[j + 1].1 == SwitchTarget(cases, default, n);
    }
  }

  /** The run goes where n is expected. */
  lemma DecidedGoes(fn: Func, fr: Frame, c: int, next: Frame, n: int)
    requires FrameStep(fn, fr, c) == Some(next) && Decides(fn, fr, n)
    ensures GoesTo(fn, At(fn, fr.at), next.at.block, n)
  {
    var ins := At(fn, fr.at);
    match ins
    case Switch(cond, cases, default) => CaseFound(cases, default, n);
    case CondBr(cond, _, _) =>
      var icmp := Comparison(fn, ins).value;
      var a, b :| Trusted(icmp.pred, icmp.x, icmp.y, a, b) && Subject(icmp.x, icmp.y, a, b) == n
                  && (Eval(fr, cond).value.n != 0 <==> Outcome(icmp.pred, a, b));
      if IsConstant(icmp.x) || IsConstant(icmp.y) {
        ComparisonIsSound(icmp.pred, icmp.x, icmp.y, a, b);
      } else {
        NoConstant(icmp.pred, icmp.x, icmp.y);
      }
  }

  /** The fact admits the latest result of g, if it was called. */
  ghost predicate DescribesLatest(fn: Func, st: State<Names>, run: seq<Frame>, k: nat, g: string)
    requires Shape(fn, st) && k < |run|
  {
    InFunc(fn, run[k].at)
    && (Latest(fn, run, k, g).Some? ==>
          var f := Before(st, run[k].at.block, run[k].at.index);
          g in f && Holds(f[g], Latest(fn, run, k, g).value))
  }

  /** What is admitted before a terminator is admitted where it goes. */
  lemma PassesTerminator(fn: Func, pst: PropagationFacts, st: State<Names>, fr: Frame, c: int, next: Frame,
                         g: string, n: int)
    requires WellFormed(fn) && Covers(fn, pst) && Shape(fn, st) && Stable(Problem(fn, pst), st)
    requires FrameStep(fn, fr, c) == Some(next) && IsTerminator(At(fn, fr.at))
    requires TestsResultOf(fn, pst, At(fn, fr.at), g) ==> Decides(fn, fr, n)
    requires var f := Before(st, fr.at.block, fr.at.index); g in f && Holds(f[g], n)
    ensures InFunc(fn, next.at) && var f := Before(st, next.at.block, next.at.index); g in f && Holds(f[g], n)
  {
    var b := fr.at.block;
    assert BlockOk(fn, fn.blocks[b]);
    JumpsToSuccessor(fn, fr, next, c);
    assert fr.at.index == |fn.blocks[b]| - 1;
    TestKills(fn, pst, st, b, g);
    if TestsResultOf(fn, pst, At(fn, fr.at), g) {
      DecidedGoes(fn, fr, c, next, n);
      TestAdmits(fn, pst, st, b, g, next.at.block, n);
    } else {
      OutReaches(fn, pst, st, b, next.at.block);
      BelowIsInclusion(st.body[b][fr.at.index][g], st.entry[next.at.block][g]);
    }
  }

  /** Inside a block only calls change constraints. */
  lemma PassesInside(fn: Func, pst: PropagationFacts, st: State<Names>, fr: Frame, c: int, next: Frame, g: string)
    requires WellFormed(fn) && Covers(fn, pst) && Shape(fn, st) && Stable(Problem(fn, pst), st)
    requires FrameStep(fn, fr, c) == Some(next) && !IsTerminator(At(fn, fr.at))
    ensures InFunc(fn, next.at)
    ensures var f, after := Before(st, fr.at.block, fr.at.index), Before(st, next.at.block, next.at.index);
            if Calls(At(fn, fr.at), g) then g in after && after[g] == Top
            else (g in after <==> g in f) && (g in f ==> after[g] == f[g])
  {
    assert BlockOk(fn, fn.blocks[fr.at.block]);
    assert next.at == Point(fr.at.block, fr.at.index + 1);
    CallForgets(fn, pst, st, fr.at, g);
  }

  lemma StepDescribesLatest(fn: Func, pst: PropagationFacts, st: State<Names>, run: seq<Frame>, k: nat, g: string)
    requires WellFormed(fn) && Covers(fn, pst) && Shape(fn, st) && Stable(Problem(fn, pst), st)
    requires k + 1 < |run| && FrameStepsTo(fn, run[k], run[k + 1])
    requires DescribesLatest(fn, st, run, k, g) && TestsLatest(fn, pst, run, k, g)
    ensures DescribesLatest(fn, st, run, k + 1, g)
  {
    var c :| FrameStep(fn, run[k], c) == Some(run[k + 1]);
    var at := run[k].at;
    if IsTerminator(At(fn, at)) {
      if Latest(fn, run, k, g).Some? {
        PassesTerminator(fn, pst, st, run[k], c, run[k + 1], g, Latest(fn, run, k, g).value);
      } else {
        JumpsToSuccessor(fn, run[k], run[k + 1], c);
      }
    } else {
      PassesInside(fn, pst, st, run[k], c, run[k + 1], g);
    }
  }

  /** On every run of a function from its entry, with any number of iterations: at
      every point the constraint on g admits what the latest call of g returned,
      if the tests of g's results on the run were of the latest ones, took no
      default way of a switch, and were such that their abstraction is right. */
  lemma ConstraintsDescribeRuns(fn: Func, pst: PropagationFacts, st: State<Names>, run: seq<Frame>, g: string)
    requires WellFormed(fn) && Covers(fn, pst) && Shape(fn, st) && Stable(Problem(fn, pst), st)
    requires IsFrameRun(fn, run) && run[0] == Entry(run[0].name, run[0].args)
    requires forall k :: 0 <= k < |run| ==> TestsLatest(fn, pst, run, k, g)
    ensures forall k :: 0 <= k < |run| ==> DescribesLatest(fn, st, run, k, g)
  {
    assert BlockOk(fn, fn.blocks[0]);
    for k := 0 to |run| - 1
      invariant forall j :: 0 <= j <= k ==> DescribesLatest(fn, st, run, j, g)
    {
      assert FrameStepsTo(fn, run[k], run[k + 1]);
      StepDescribesLatest(fn, pst, st, run, k, g);
    }
  }

  // ----- Default ways -----

  /** Block t is reached by default ways of switches on results of g only. */
  ghost predicate IsDefaultOnly(fn: Func, pst: PropagationFacts, t: nat, g: string)
    requires Covers(fn, pst)
  {
    forall prev :: Follows(fn, prev, Point(t, 0)) ==>
      && At(fn, prev).Switch? && TestsResultOf(fn, pst, At(fn, prev), g)
      && forall k :: 0 <= k < |At(fn, prev).cases| ==> At(fn, prev).cases[k].1 != t
  }

  /** There no result of g is admitted at all: what is reached by default counts as
      reached with none. */
  lemma DefaultAdmitsNothing(fn: Func, pst: PropagationFacts, st: State<Names>, t: nat, g: string, n: int)
    requires WellFormed(fn) && Covers(fn, pst) && SweptFrom(Problem(fn, pst), Uniform(fn, map[]), st)
    requires t < |fn.blocks| && IsDefaultOnly(fn, pst, t, g)
    ensures Shape(fn, st) && !(g in st.entry[t] && Holds(st.entry[t][g], n))
  {
    var at := Point(t, 0);
    assert BlockOk(fn, fn.blocks[t]);
    OnlyWhatIsPossible(fn, pst, st, at, g, n);
    NoWayIn(fn, pst, at, g, n);
  }

  /** Runs that take such a way are not described, whatever g returned. */
  lemma DefaultMisleads(fn: Func, pst: PropagationFacts, st: State<Names>, run: seq<Frame>, k: nat, g: string)
    requires WellFormed(fn) && Covers(fn, pst) && SweptFrom(Problem(fn, pst), Uniform(fn, map[]), st)
    requires k < |run| && InFunc(fn, run[k].at) && run[k].at.index == 0 && IsDefaultOnly(fn, pst, run[k].at.block, g)
    requires Latest(fn, run, k, g).Some?
    ensures Shape(fn, st) && !DescribesLatest(fn, st, run, k, g)
  {
    DefaultAdmitsNothing(fn, pst, st, run[k].at.block, g, Latest(fn, run, k, g).value);
  }

  /** `switch (g()) { case -1: return -5; default: return 0; }` */
  function DefaultExample(): Func {
    Func([[Call(Direct("g"), []), Switch(Reg(Point(0, 0)), [(-1, 1)], 2)], [Ret(Int(-5))], [Ret(Int(0))]], false)
  }

  /** Whatever the propagation finds for it, its switch is on a result of g. */
  lemma ExampleTestsG(pst: PropagationFacts)
    requires Shape(DefaultExample(), pst) && Stable(Propagation.Problem(DefaultExample()), pst)
    ensures IsDefaultOnly(DefaultExample(), pst, 2, "g")
  {
    var fn, call := DefaultExample(), Reg(Point(0, 0));
    PropagationSound.TransferEquation(fn, pst, Point(0, 0));
    assert call in Propagation.Held(pst.body[0][0], call);
    assert IsInstruction(fn, call) && At(fn, call.at) == Call(Direct("g"), []);
    assert MayHoldResult(fn, pst, call, "g");
    assert LooksAt(fn, fn.blocks[0][1], call);
    forall prev | Follows(fn, prev, Point(2, 0)) ensures prev == Point(0, 1) {
      assert prev.block in {0, 1, 2};
    }
  }

  /** A run of it in which g returns 7. */
  lemma ExampleRun() returns (run: seq<Frame>)
    ensures IsFrameRun(DefaultExample(), run) && run[0] == Entry("f", []) && |run| == 3
    ensures run[2].at == Point(2, 0) && Latest(DefaultExample(), run, 2, "g") == Some(7)
  {
    var fn, start := DefaultExample(), Entry("f", []);
    var called := Define(start, Datum(7, Some(Reg(Point(0, 0)))));
    run := [start, called, Goto(called, 2)];
    assert FrameStep(fn, start, 7) == Some(called);
    assert SwitchTarget([(-1, 1)], 2, 7) == SwitchTarget([], 2, 7) == 2;
    assert FrameStep(fn, called, 0) == Some(run[2]);
    forall k | 0 <= k < |run| - 1 ensures FrameStepsTo(fn, run[k], run[k + 1]) {}
    assert Latest(fn, run, 1, "g") == Some(7);
    assert !Calls(At(fn, run[1].at), "g");
  }

  /** There it goes to its default block, where the constraint does not admit 7. */
  lemma DefaultIsMissed(pst: PropagationFacts, st: State<Names>) returns (run: seq<Frame>)
    requires Shape(DefaultExample(), pst) && Stable(Propagation.Problem(DefaultExample()), pst)
    requires SweptFrom(Problem(DefaultExample(), pst), Uniform(DefaultExample(), map[]), st)
    ensures IsFrameRun(DefaultExample(), run) && run[0] == Entry("f", []) && |run| == 3
    ensures Latest(DefaultExample(), run, 2, "g") == Some(7)
    ensures Shape(DefaultExample(), st) && !DescribesLatest(DefaultExample(), st, run, 2, "g")
  {
    run := ExampleRun();
    ExampleTestsG(pst);
    ExampleIsWellFormed();
    DefaultMisleads(DefaultExample(), pst, st, run, 2, "g");
  }

  lemma ExampleIsWellFormed()
    ensures WellFormed(DefaultExample())
  {
    var fn := DefaultExample();
    forall b | 0 <= b < |fn.blocks| ensures BlockOk(fn, fn.blocks[b]) {
      assert b in {0, 1, 2};
      assert b == 0 ==> Successors(Last(fn.blocks[b])) == CaseTargets([(-1, 1)]) + {2};
    }
  }
}
