/** Return ranges hold for every run of a program, however its functions call
    each other. */
module RangeProgram {
  import opened IR
  import opened CallGraph
  import opened Exec
  import opened Signs
  import opened RangeSweeps
  import opened RangeSolution
  import opened RangeSound
  import StackRuns

  type AllReturned = StackRuns.AllReturned

  function Job(prog: Module, returned: AllReturned, name: string): Task
    requires name in prog && name in returned
  {
    Task(prog, name, prog[name], returned[name])
  }

  ghost predicate SolvedAt(prog: Module, returned: AllReturned, ranges: RangeMap, g: string) {
    g in prog && g in returned && Prepared(Job(prog, returned, g)) && Solved(Job(prog, returned, g), ranges)
  }

  /** Functions that are solved with the same ranges, and call no others. */
  ghost predicate AllSolved(prog: Module, returned: AllReturned, names: set<string>, ranges: RangeMap) {
    && (forall g :: g in names ==> SolvedAt(prog, returned, ranges, g))
    && (forall g, h :: g in names && g in prog && h in Callees(prog[g]) && h in prog ==> h in names)
  }

  /** The frame is described by some solution of its function. */
  ghost predicate FrameOk(prog: Module, returned: AllReturned, names: set<string>, ranges: RangeMap, fr: Frame) {
    && fr.name in names && SolvedAt(prog, returned, ranges, fr.name)
    && exists st :: Consistent(Job(prog, returned, fr.name), st, ranges)
                    && Described(Job(prog, returned, fr.name), st, ranges, fr)
  }

  ghost predicate InRange(ranges: RangeMap, g: string, n: int) {
    g in ranges && Holds(ranges[g], n)
  }

  ghost function Frames(prog: Module, returned: AllReturned, names: set<string>, ranges: RangeMap): Frame -> bool {
    (fr: Frame) => FrameOk(prog, returned, names, ranges, fr)
  }

  ghost function Results(ranges: RangeMap): (string, int) -> bool {
    (g: string, n: int) => InRange(ranges, g, n)
  }

  lemma ResultsAllowed(prog: Module, returned: AllReturned, ranges: RangeMap, fr: Frame, c: int)
    requires fr.name in prog && fr.name in returned
    requires StackRuns.GoodResult(prog, Results(ranges), fr, c)
    ensures Allowed(Job(prog, returned, fr.name), ranges, fr.at, c)
  {
    var fn := prog[fr.name];
    if InFunc(fn, fr.at) && At(fn, fr.at).Call? && At(fn, fr.at).callee.Direct? {
      var g := At(fn, fr.at).callee.name;
      if g in prog {
        assert StackRuns.Calls(prog, fr, g);
        assert Results(ranges)(g, c);
      }
    }
  }

  lemma FrameStepOk(prog: Module, returned: AllReturned, names: set<string>, ranges: RangeMap,
                    fr: Frame, c: int, next: Frame)
    requires FrameOk(prog, returned, names, ranges, fr)
    requires FrameStep(prog[fr.name], fr, c) == Some(next)
    requires StackRuns.GoodResult(prog, Results(ranges), fr, c) && StackRuns.FrameReadsWell(prog, returned, fr)
    ensures FrameOk(prog, returned, names, ranges, next)
  {
    var t := Job(prog, returned, fr.name);
    var st :| Consistent(t, st, ranges) && Described(t, st, ranges, fr);
    ResultsAllowed(prog, returned, ranges, fr, c);
    StepDescribes(t, st, ranges, fr, c, next);
    StepKeepsName(prog[fr.name], fr, c, next);
  }

  lemma StepKeepsName(fn: Func, fr: Frame, c: int, next: Frame)
    requires FrameStep(fn, fr, c) == Some(next)
    ensures next.name == fr.name
  {
  }

  lemma CallOk(prog: Module, returned: AllReturned, names: set<string>, ranges: RangeMap, g: string, args: seq<int>)
    requires g in names && SolvedAt(prog, returned, ranges, g)
    ensures FrameOk(prog, returned, names, ranges, Entry(g, args))
  {
    var t := Job(prog, returned, g);
    var st :| Consistent(t, st, ranges);
    EntryDescribed(t, st, ranges, args);
  }

  lemma CalleeIsSolved(prog: Module, returned: AllReturned, names: set<string>, ranges: RangeMap, fr: Frame, g: string)
    requires AllSolved(prog, returned, names, ranges) && fr.name in names && StackRuns.Calls(prog, fr, g)
    ensures g in names && SolvedAt(prog, returned, ranges, g)
  {
    assert g in Callees(prog[fr.name]);
  }

  lemma ReturnOk(prog: Module, returned: AllReturned, names: set<string>, ranges: RangeMap, fr: Frame)
    requires FrameOk(prog, returned, names, ranges, fr) && Returning(prog[fr.name], fr).Some?
    ensures InRange(ranges, fr.name, Returning(prog[fr.name], fr).value.n)
  {
    var t := Job(prog, returned, fr.name);
    var st :| Consistent(t, st, ranges) && Described(t, st, ranges, fr);
    ReturnDescribed(t, st, ranges, fr);
  }

  lemma FramesAreLawful(prog: Module, returned: AllReturned, names: set<string>, ranges: RangeMap)
    requires AllSolved(prog, returned, names, ranges)
    ensures StackRuns.Laws(prog, returned, Frames(prog, returned, names, ranges), Results(ranges))
  {
    var ok, good := Frames(prog, returned, names, ranges), Results(ranges);
    forall fr, c, next | ok(fr) && FrameStep(prog[fr.name], fr, c) == Some(next)
                         && StackRuns.GoodResult(prog, good, fr, c) && StackRuns.FrameReadsWell(prog, returned, fr)
      ensures ok(next)
    {
      FrameStepOk(prog, returned, names, ranges, fr, c, next);
    }
    forall fr, g, args | ok(fr) && StackRuns.Calls(prog, fr, g) ensures ok(Entry(g, args)) {
      CalleeIsSolved(prog, returned, names, ranges, fr, g);
      CallOk(prog, returned, names, ranges, g, args);
    }
    forall fr | ok(fr) && Returning(prog[fr.name], fr).Some?
      ensures good(fr.name, Returning(prog[fr.name], fr).value.n)
    {
      ReturnOk(prog, returned, names, ranges, fr);
    }
  }

  /** The value that the innermost frame is about to return lies in the return
      range of its function. */
  ghost predicate ReturnInRange(prog: Module, ranges: RangeMap, st: Stack) {
    st != [] && st[|st| - 1].name in prog ==>
      var fr := st[|st| - 1];
      Returning(prog[fr.name], fr).Some? ==> InRange(ranges, fr.name, Returning(prog[fr.name], fr).value.n)
  }

  /** Whatever a call of a solved function runs into, at every depth of
      (possibly recursive) calls, each value that is returned lies in the
      return range of the function that returns it. */
  lemma RangesHoldOnRuns(prog: Module, returned: AllReturned, names: set<string>, ranges: RangeMap, run: seq<Stack>)
    requires AllSolved(prog, returned, names, ranges)
    requires IsRun(prog, run) && run[0][0].name in names && StackRuns.RunReadsWell(prog, returned, run)
    ensures forall k :: 0 <= k < |run| ==> ReturnInRange(prog, ranges, run[k])
  {
    var ok, good := Frames(prog, returned, names, ranges), Results(ranges);
    FramesAreLawful(prog, returned, names, ranges);
    CallOk(prog, returned, names, ranges, run[0][0].name, run[0][0].args);
    assert ok(run[0][0]);
    StackRuns.RunsReturnGood(prog, returned, ok, good, run);
    forall k | 0 <= k < |run| ensures ReturnInRange(prog, ranges, run[k]) {
      assert StackRuns.ReturnsGood(prog, good, run[k]);
    }
  }
}
