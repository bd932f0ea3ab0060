/** The range pass over a module: the strongly connected components of the call
    graph are swept bottom-up, each until no return range changes. */
module ReturnRangePass {
  import opened IR
  import opened CallGraph
  import opened Exec
  import opened SignFacts
  import opened Shapes
  import opened Sweep
  import opened ReturnRange
  import opened RangePaths
  import opened RangeSweeps
  import opened RangeSolution
  import opened RangeProgram
  import opened FreshChecks
  import opened StackRuns
  import opened FunctionRangePass
  import opened ReturnedValues

  /** The defined functions of the first k components. */
  ghost function Analyzed(prog: Module, sccs: seq<Scc>, k: nat): set<string>
    requires k <= |sccs|
  {
    set i, f | 0 <= i < k && f in sccs[i].nodes && f in prog :: f
  }

  ghost predicate Ready(prog: Module, returned: AllReturned) {
    && prog.Keys <= returned.Keys
    && forall g :: g in prog ==> TaskOk(Job(prog, returned, g))
  }

  /** The causes include what every function of the program may return, if its
      calls return what they include. */
  ghost predicate Closed(prog: Module, returned: AllReturned, causes: Causes) {
    forall g :: g in prog && g in returned ==> ClosedFor(Job(prog, returned, g), causes)
  }

  /** No sign is in a range but for a cause. */
  ghost predicate NoneWithoutCause(prog: Module, returned: AllReturned, ranges: RangeMap) {
    forall causes: Causes :: Closed(prog, returned, causes) ==> RangesCaused(causes, ranges)
  }

  ghost predicate AllCaused(prog: Module, returned: AllReturned, causes: Causes, facts: map<string, State<Ranges>>,
                            ranges: RangeMap)
    requires Ready(prog, returned)
  {
    RangesCaused(causes, ranges)
    && forall g :: g in prog && g in facts ==> StateCaused(Job(prog, returned, g), causes, facts[g])
  }

  /** What return ranges can still gain, over all functions. */
  ghost function TotalRoom(prog: Module, ranges: RangeMap): nat {
    |Universe(prog.Keys) - Atoms(ranges)|
  }

  lemma TotalRoomShrinks(prog: Module, x: RangeMap, y: RangeMap)
    requires BelowFact(x, y) && y.Keys <= prog.Keys
    ensures TotalRoom(prog, y) <= TotalRoom(prog, x)
    ensures x != y ==> TotalRoom(prog, y) < TotalRoom(prog, x)
  {
    AtomsBelow(x, y);
    AtomsWithin(y, prog.Keys);
    RestShrinks(Universe(prog.Keys), Atoms(x), Atoms(y));
    if Atoms(x) == Atoms(y) { AtomsInjective(x, y); }
  }

  ghost predicate StateOk(prog: Module, returned: AllReturned, facts: map<string, State<Ranges>>, ranges: RangeMap) {
    && Ready(prog, returned)
    && facts.Keys == prog.Keys && ranges.Keys <= prog.Keys
    && (forall g :: g in prog ==> Good(Job(prog, returned, g), facts[g]))
    && FoundWithCause(prog, returned, facts, ranges)
  }

  /** Nothing has been found without a cause. */
  ghost predicate FoundWithCause(prog: Module, returned: AllReturned, facts: map<string, State<Ranges>>,
                                 ranges: RangeMap)
    requires Ready(prog, returned)
  {
    forall causes: Causes :: Closed(prog, returned, causes) ==> AllCaused(prog, returned, causes, facts, ranges)
  }

  class Pass {
    const prog: Module
    const returned: AllReturned
    var facts: map<string, State<Ranges>>
    var ranges: RangeMap

    ghost predicate Valid()
      reads this
    {
      StateOk(prog, returned, facts, ranges)
    }

    ghost predicate SolvedNow(g: string)
      requires Ready(prog, returned)
      reads this
    {
      g in prog ==> Solved(Job(prog, returned, g), ranges)
    }

    constructor (prog: Module, returned: AllReturned)
      requires Ready(prog, returned)
      ensures Valid() && this.prog == prog && this.returned == returned && ranges == map[]
    {
      this.prog := prog;
      this.returned := returned;
      ranges := map[];
      facts := map g | g in prog :: Nothing(prog[g]);
      new;
      forall g | g in prog ensures Good(Job(prog, returned, g), facts[g]) {
        NothingIsOk(Job(prog, returned, g));
      }
      forall causes: Causes ensures AllCaused(prog, returned, causes, facts, ranges) {
        forall g | g in prog { NothingCaused(Job(prog, returned, g), causes); }
      }
    }

    method RunOnFunction(name: string)
      requires Valid() && name in prog
      modifies this
      ensures Valid()
      ensures GrowsAt(name, old(ranges), ranges)
      ensures Env(prog[name], ranges) == Env(prog[name], old(ranges)) ==> SolvedNow(name)
    {
      facts, ranges := Solve(prog, returned, facts, ranges, name);
    }

    /** The facts and ranges after sweeping one function. */
    static method Solve(prog: Module, returned: AllReturned, facts: map<string, State<Ranges>>, ranges: RangeMap,
                        name: string)
      returns (found: map<string, State<Ranges>>, grown: RangeMap)
      requires StateOk(prog, returned, facts, ranges) && name in prog
      ensures StateOk(prog, returned, found, grown) && GrowsAt(name, ranges, grown)
      ensures Env(prog[name], grown) == Env(prog[name], ranges) ==> Solved(Job(prog, returned, name), grown)
    {
      assert Good(Job(prog, returned, name), facts[name]);
      var work := new FunctionRanges(Job(prog, returned, name), facts[name], ranges);
      work.RunOnFunction();
      OneMoreOk(prog, returned, name, facts, ranges, work.Facts(), work.ranges);
      return facts[name := work.Facts()], work.ranges;
    }

    /** The first k functions of the component are solved, if no range changed
        or they do not call each other. */
    ghost predicate SolvedFirst(scc: Scc, k: nat, changed: bool)
      requires Ready(prog, returned) && k <= |scc.nodes|
      reads this
    {
      !changed || Apart(prog, scc) ==> forall m :: 0 <= m < k ==> SolvedNow(scc.nodes[m])
    }

    /** Visits the functions of one component once. */
    method SweepScc(scc: Scc) returns (changed: bool)
      requires Valid()
      modifies this
      ensures Valid()
      ensures BelowFact(old(ranges), ranges) && changed == (ranges != old(ranges))
      ensures forall g :: g !in scc.nodes ==> SameRange(g, old(ranges), ranges)
      ensures SolvedFirst(scc, |scc.nodes|, changed)
    {
      changed := false;
      for k := 0 to |scc.nodes|
        invariant Valid()
        invariant BelowFact(old(ranges), ranges) && changed == (ranges != old(ranges))
        invariant forall g :: g !in scc.nodes ==> SameRange(g, old(ranges), ranges)
        invariant SolvedFirst(scc, k, changed)
      {
        ghost var before := ranges;
        var one := VisitNext(scc, k, changed);
        BelowTransitive(old(ranges), before, ranges);
        changed := changed || one;
      }
    }

    /** Visits the k-th function of a component, if it is defined. */
    method VisitNext(scc: Scc, k: nat, ghost changed: bool) returns (one: bool)
      requires Valid() && k < |scc.nodes| && SolvedFirst(scc, k, changed)
      modifies this
      ensures Valid()
      ensures BelowFact(old(ranges), ranges) && one == (ranges != old(ranges))
      ensures forall g :: g !in scc.nodes ==> SameRange(g, old(ranges), ranges)
      ensures SolvedFirst(scc, k + 1, changed || one)
    {
      var name := scc.nodes[k];
      if name !in prog {
        return false;
      }
      var origRange := if name in ranges then Some(ranges[name]) else None;
      RunOnFunction(name);
      var newRange := if name in ranges then Some(ranges[name]) else None;
      OneRangeChanged(name, old(ranges), ranges);
      one := origRange != newRange;
      if !(changed || one) || Apart(prog, scc) {
        StillSolved(prog, returned, scc, k, old(ranges), ranges);
      }
    }

    /** Visits the components in order, each until its ranges are stable. */
    method RunOnModule(sccs: seq<Scc>)
      requires Valid() && BottomUp(prog, sccs)
      modifies this
      ensures Valid()
      ensures forall g :: g in Analyzed(prog, sccs, |sccs|) ==> SolvedNow(g)
    {
      for i := 0 to |sccs|
        invariant Valid()
        invariant forall g :: g in Analyzed(prog, sccs, i) ==> SolvedNow(g)
      {
        var changed := true;
        while changed
          invariant Valid()
          invariant forall g :: g in Analyzed(prog, sccs, i) ==> SolvedNow(g)
          invariant !changed ==> forall g :: g in sccs[i].nodes ==> SolvedNow(g)
          decreases TotalRoom(prog, ranges), if changed then 1 else 0
        {
          ghost var before := ranges;
          changed := SweepScc(sccs[i]);
          TotalRoomShrinks(prog, before, ranges);
          EarlierStaySolved(prog, returned, sccs, i, before, ranges);
          if !sccs[i].hasLoop {
            NoLoopIsApart(prog, sccs, i);
            changed := false;
          }
        }
        AnalyzedNext(prog, sccs, i);
      }
    }
  }

  lemma OneMoreOk(prog: Module, returned: AllReturned, name: string, facts: map<string, State<Ranges>>,
                  ranges: RangeMap, found: State<Ranges>, grown: RangeMap)
    requires StateOk(prog, returned, facts, ranges) && name in prog
    requires Good(Job(prog, returned, name), found) && GrowsAt(name, ranges, grown)
    requires KeepsCauses(Job(prog, returned, name), Progress(facts[name], ranges), Progress(found, grown))
    ensures StateOk(prog, returned, facts[name := found], grown)
  {
    OneKeepsCauses(prog, returned, name, facts, Progress(facts[name], ranges), Progress(found, grown));
    assert forall g :: g in grown ==> g in ranges || g == name;
  }

  lemma OneKeepsCauses(prog: Module, returned: AllReturned, name: string, facts: map<string, State<Ranges>>,
                       p: Progress, q: Progress)
    requires Ready(prog, returned) && name in prog && facts.Keys == prog.Keys && facts[name] == p.st
    requires KeepsCauses(Job(prog, returned, name), p, q)
    ensures forall causes: Causes ::
              Closed(prog, returned, causes) && AllCaused(prog, returned, causes, facts, p.ranges) ==>
                AllCaused(prog, returned, causes, facts[name := q.st], q.ranges)
  {
    forall causes: Causes | Closed(prog, returned, causes) && AllCaused(prog, returned, causes, facts, p.ranges)
      ensures AllCaused(prog, returned, causes, facts[name := q.st], q.ranges)
    {
      assert ClosedFor(Job(prog, returned, name), causes);
      assert ProgressCaused(Job(prog, returned, name), causes, p);
      assert ProgressCaused(Job(prog, returned, name), causes, q);
    }
  }

  ghost predicate SameRange(g: string, x: RangeMap, y: RangeMap) {
    (g in x <==> g in y) && (g in x ==> x[g] == y[g])
  }

  lemma OneRangeChanged(name: string, x: RangeMap, y: RangeMap)
    requires GrowsAt(name, x, y)
    ensures x == y <==> SameRange(name, x, y)
    ensures forall g :: g != name ==> SameRange(g, x, y)
  {
    if SameRange(name, x, y) {
      assert forall g :: g in x ==> x[g] == y[g];
      assert x.Keys == y.Keys;
    }
  }

  lemma BelowTransitive(x: RangeMap, y: RangeMap, z: RangeMap)
    requires BelowFact(x, y) && BelowFact(y, z)
    ensures BelowFact(x, z)
    ensures x == z ==> y == z
  {
    AtomsBelow(x, y);
    AtomsBelow(y, z);
    if x == z { AtomsInjective(y, z); }
  }

  /** A change of ranges that neither f nor its callees notice. */
  lemma SolvedKept(prog: Module, returned: AllReturned, f: string, x: RangeMap, y: RangeMap)
    requires f in prog && f in returned && Solved(Job(prog, returned, f), x)
    requires SameRange(f, x, y) && forall g :: g in Callees(prog[f]) ==> SameRange(g, x, y)
    ensures Solved(Job(prog, returned, f), y)
  {
    assert Env(prog[f], x) == Env(prog[f], y);
    SolvedFrame(Job(prog, returned, f), x, y);
  }

  /** The functions of a component that are solved stay so when the next one
      is visited, if no range changes or they do not call each other. */
  lemma StillSolved(prog: Module, returned: AllReturned, scc: Scc, k: nat, x: RangeMap, y: RangeMap)
    requires Ready(prog, returned) && k < |scc.nodes| && scc.nodes[k] in prog && GrowsAt(scc.nodes[k], x, y)
    requires x == y || Apart(prog, scc)
    requires forall m :: 0 <= m < k && scc.nodes[m] in prog ==> Solved(Job(prog, returned, scc.nodes[m]), x)
    requires Env(prog[scc.nodes[k]], y) == Env(prog[scc.nodes[k]], x) ==> Solved(Job(prog, returned, scc.nodes[k]), y)
    ensures forall m :: 0 <= m <= k && scc.nodes[m] in prog ==> Solved(Job(prog, returned, scc.nodes[m]), y)
  {
    forall m | 0 <= m <= k && scc.nodes[m] in prog ensures Solved(Job(prog, returned, scc.nodes[m]), y) {
      StillSolvedAt(prog, returned, scc, scc.nodes[k], scc.nodes[m], x, y);
    }
  }

  lemma StillSolvedAt(prog: Module, returned: AllReturned, scc: Scc, name: string, f: string, x: RangeMap, y: RangeMap)
    requires Ready(prog, returned) && name in scc.nodes && name in prog && GrowsAt(name, x, y)
    requires f in scc.nodes && f in prog && (x == y || Apart(prog, scc))
    requires f != name ==> Solved(Job(prog, returned, f), x)
    requires Env(prog[name], y) == Env(prog[name], x) ==> Solved(Job(prog, returned, name), y)
    ensures Solved(Job(prog, returned, f), y)
  {
    OneRangeChanged(name, x, y);
    assert Apart(prog, scc) ==> name !in Callees(prog[f]);
    if f == name {
      assert Env(prog[f], y) == Env(prog[f], x);
    } else {
      SolvedKept(prog, returned, f, x, y);
    }
  }

  /** Components visited before are not affected by the ones visited later. */
  lemma EarlierStaySolved(prog: Module, returned: AllReturned, sccs: seq<Scc>, i: nat, x: RangeMap, y: RangeMap)
    requires Ready(prog, returned) && BottomUp(prog, sccs) && i < |sccs|
    requires forall g :: g in Analyzed(prog, sccs, i) ==> Solved(Job(prog, returned, g), x)
    requires forall g :: g !in sccs[i].nodes ==> SameRange(g, x, y)
    ensures forall g :: g in Analyzed(prog, sccs, i) ==> Solved(Job(prog, returned, g), y)
  {
    forall f | f in Analyzed(prog, sccs, i) ensures Solved(Job(prog, returned, f), y) {
      var j: nat :| j < i && f in sccs[j].nodes;
      assert f !in sccs[i].nodes;
      forall g | g in Callees(prog[f]) ensures SameRange(g, x, y) {
        assert !CallsInto(prog, sccs, f, j, g, i);
      }
      SolvedKept(prog, returned, f, x, y);
    }
  }

  lemma AnalyzedNext(prog: Module, sccs: seq<Scc>, i: nat)
    requires i < |sccs|
    ensures forall g :: g in Analyzed(prog, sccs, i + 1) ==> g in Analyzed(prog, sccs, i) || g in sccs[i].nodes
  {
  }

  // ----- Both passes -----

  /** Every value that any run starting in one of these functions returns, from
      any depth of calls, is in the range of the function returning it, if on
      the run only naturals are compared without sign with constants where that
      decides a check of a returnable slot. */
  ghost predicate RangesSound(prog: Module, returned: AllReturned, names: set<string>, ranges: RangeMap) {
    forall run: seq<Stack>, k ::
      IsRun(prog, run) && RunReadsWell(prog, returned, run) && run[0][0].name in names && 0 <= k < |run| ==>
        ReturnInRange(prog, ranges, run[k])
  }

  /** Functions that call no others of the program, and whose checks are fresh. */
  ghost predicate FreshBelow(prog: Module, returned: AllReturned, names: set<string>) {
    && (forall g :: g in names ==> g in prog && g in returned && ChecksAreFresh(prog[g], returned[g]))
    && (forall g, h :: g in names && g in prog && h in Callees(prog[g]) && h in prog ==> h in names)
  }

  /** The ranges hold on runs that only enter analysed functions with fresh
      checks. */
  ghost predicate SoundWhereFresh(prog: Module, returned: AllReturned, analyzed: set<string>, ranges: RangeMap) {
    forall names: set<string> {:trigger FreshBelow(prog, returned, names)} ::
      names <= analyzed && FreshBelow(prog, returned, names) ==> RangesSound(prog, returned, names, ranges)
  }

  ghost predicate ReturnedOk(prog: Module, returned: AllReturned, g: string) {
    && g in prog && g in returned && TaskOk(Job(prog, returned, g))
    && Stable(ReturnedValues.Problem(prog[g]), returned[g])
    && SweptFrom(ReturnedValues.Problem(prog[g]), Uniform(prog[g], {}), returned[g])
  }

  /** Runs the returned-values pass on every function. */
  method AnalyzeReturnedValues(prog: Module) returns (returned: AllReturned)
    requires forall g :: g in prog ==> WellFormed(prog[g])
    ensures returned.Keys == prog.Keys
    ensures forall g :: g in prog ==> ReturnedOk(prog, returned, g)
  {
    returned := map[];
    var rest := prog.Keys;
    while rest != {}
      invariant rest <= prog.Keys && returned.Keys == prog.Keys - rest
      invariant forall g :: g in returned ==> ReturnedOk(prog, returned, g)
    {
      var g :| g in rest;
      var pass := new ReturnedValuesPass(prog[g]);
      pass.RunOnFunction();
      assert prog[g] == pass.fn;
      returned := returned[g := pass.Facts()];
      rest := rest - {g};
      assert ReturnedOk(prog, returned, g);
    }
  }

  lemma SolvedIsSound(prog: Module, returned: AllReturned, names: set<string>, ranges: RangeMap)
    requires FreshBelow(prog, returned, names)
    requires forall g :: g in names ==> ReturnedOk(prog, returned, g) && Solved(Job(prog, returned, g), ranges)
    ensures RangesSound(prog, returned, names, ranges)
  {
    forall g | g in names ensures SolvedAt(prog, returned, ranges, g) {
      assert ReturnedOk(prog, returned, g);
    }
    forall run: seq<Stack>, k
      | IsRun(prog, run) && RunReadsWell(prog, returned, run) && run[0][0].name in names && 0 <= k < |run|
      ensures ReturnInRange(prog, ranges, run[k])
    {
      RangesHoldOnRuns(prog, returned, names, ranges, run);
    }
  }

  lemma AnalyzedAreSound(prog: Module, returned: AllReturned, analyzed: set<string>, ranges: RangeMap)
    requires forall g :: g in analyzed ==> ReturnedOk(prog, returned, g) && Solved(Job(prog, returned, g), ranges)
    ensures SoundWhereFresh(prog, returned, analyzed, ranges)
  {
    forall names | names <= analyzed && FreshBelow(prog, returned, names)
      ensures RangesSound(prog, returned, names, ranges)
    {
      SolvedIsSound(prog, returned, names, ranges);
    }
  }

  lemma IsReady(prog: Module, returned: AllReturned)
    requires returned.Keys == prog.Keys && forall g :: g in prog ==> ReturnedOk(prog, returned, g)
    ensures Ready(prog, returned)
  {
    forall g | g in prog ensures TaskOk(Job(prog, returned, g)) {
      assert ReturnedOk(prog, returned, g);
    }
  }

  /** Runs the range pass, from nothing. */
  method AnalyzeRanges(prog: Module, returned: AllReturned, sccs: seq<Scc>) returns (ranges: RangeMap)
    requires Ready(prog, returned) && BottomUp(prog, sccs)
    ensures forall g :: g in Analyzed(prog, sccs, |sccs|) ==> g in prog && Solved(Job(prog, returned, g), ranges)
    ensures NoneWithoutCause(prog, returned, ranges)
  {
    var pass := new Pass(prog, returned);
    pass.RunOnModule(sccs);
    ranges := pass.ranges;
    assert forall g :: g in Analyzed(prog, sccs, |sccs|) ==> pass.SolvedNow(g);
  }

  /** The range analysis of a module: it terminates, and the ranges hold on all
      runs, through loops and recursion, that only enter functions with fresh
      checks. */
  method Analyze(prog: Module, sccs: seq<Scc>) returns (ranges: RangeMap, returned: AllReturned)
    requires forall g :: g in prog ==> WellFormed(prog[g])
    requires BottomUp(prog, sccs)
    ensures forall g :: g in prog ==> ReturnedOk(prog, returned, g)
    ensures forall g :: g in Analyzed(prog, sccs, |sccs|) ==>
              g in prog && g in returned && Solved(Job(prog, returned, g), ranges)
    ensures SoundWhereFresh(prog, returned, Analyzed(prog, sccs, |sccs|), ranges)
    ensures NoneWithoutCause(prog, returned, ranges)
  {
    returned := AnalyzeReturnedValues(prog);
    IsReady(prog, returned);
    ranges := AnalyzeRanges(prog, returned, sccs);
    AnalyzedAreSound(prog, returned, Analyzed(prog, sccs, |sccs|), ranges);
  }
}
