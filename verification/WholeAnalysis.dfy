/** All passes one after the other, and what that means for the programs that
    are analysed. */
module WholeAnalysis {
  import opened IR
  import opened CallGraph
  import opened Exec
  import opened Signs
  import opened Confidence
  import opened Specifications
  import opened ErrorBlocks
  import opened PassResults
  import opened ComponentSweeps
  import opened ModuleSweeps
  import opened BlockMeaning
  import opened StackRuns
  import RangeProgram
  import RangePass = ReturnRangePass
  import BlocksPass = ErrorBlocksPass

  /** What is known of the calls in a function: see `ErrorBlocks.Unit`. */
  datatype CallInfo = CallInfo(errorOnlyCalls: set<Point>, effects: set<Point>, files: map<Point, string>)

  type AllInfo = map<string, CallInfo>

  function InfoFor(info: AllInfo, f: string): CallInfo {
    if f in info then info[f] else CallInfo({}, {}, map[])
  }

  /** Domain knowledge. */
  datatype Domain = Domain(given: map<string, Sign>, void: set<string>, know: Knowledge, info: AllInfo)

  datatype Outcome = Outcome(
    units: map<string, Unit>, returned: AllReturned, ranges: map<string, Sign>, specs: Store, expanded: set<string>)

  ghost function SettingFor(domain: Domain, units: map<string, Unit>, ranges: map<string, Sign>): Setting {
    Setting(Env(BlocksPass.Given(domain.given), ranges, domain.void), domain.know, units)
  }

  ghost function SettingOf(domain: Domain, o: Outcome): Setting {
    SettingFor(domain, o.units, o.ranges)
  }

  /** u is what the passes make of function f. */
  ghost predicate UnitFor(prog: Module, info: AllInfo, f: string, u: Unit)
    requires f in prog
  {
    && u.name == f && u.fn == prog[f] && FromPasses(u) && Swept(u)
    && if f in info then CallInfo(u.errorOnlyCalls, u.effects, u.files) == info[f]
       else u.errorOnlyCalls == {} && u.effects == {} && u.files == map[]
  }

  ghost predicate UnitsOf(prog: Module, info: AllInfo, units: map<string, Unit>) {
    units.Keys == prog.Keys && forall f :: f in prog ==> UnitFor(prog, info, f, units[f])
  }

  ghost predicate Correct(prog: Module, sccs: seq<Scc>, domain: Domain, o: Outcome) {
    && UnitsOf(prog, domain.info, o.units) && SettingOk(SettingOf(domain, o))
    && RangePass.SoundWhereFresh(prog, o.returned, RangePass.Analyzed(prog, sccs, |sccs|), o.ranges)
    && RangePass.NoneWithoutCause(prog, o.returned, o.ranges)
    && StoreOk(SettingOf(domain, o).env, o.specs)
    && SettledBut(SettingOf(domain, o), o.specs, sccs, |sccs|, o.expanded)
  }

  lemma UnitsAreOk(prog: Module, info: AllInfo, units: map<string, Unit>)
    requires UnitsOf(prog, info, units)
    ensures UnitsOk(units)
  {
    forall f | f in units ensures UnitOk(units[f]) {
      PassesMakeUnits(units[f]);
    }
  }

  /** Runs the passes over every function. */
  method RunOnFunctions(prog: Module, info: AllInfo) returns (units: map<string, Unit>)
    requires forall f :: f in prog ==> WellFormed(prog[f])
    ensures UnitsOf(prog, info, units)
  {
    units := map[];
    var rest := prog.Keys;
    while rest != {}
      invariant rest <= prog.Keys && units.Keys == prog.Keys - rest
      invariant forall f :: f in units ==> UnitFor(prog, info, f, units[f])
    {
      var f :| f in rest;
      var known := InfoFor(info, f);
      var u := RunPasses(f, prog[f], known.errorOnlyCalls, known.effects, known.files);
      units := units[f := u];
      rest := rest - {f};
    }
  }

  /** All confidence that domain knowledge and expansion bring in has the level
      c. */
  ghost predicate OneLevelGiven(c: Level, domain: Domain, expansions: map<string, Spec>) {
    && StoreLevel(c, BlocksPass.Given(domain.given)) && StoreLevel(c, expansions)
    && (domain.know.errorCodes != map[] ==> c == MAX)
    && (forall f :: f in domain.info && domain.info[f].errorOnlyCalls != {} ==> c == MAX)
  }

  lemma GivenIsLevelled(c: Level, prog: Module, domain: Domain, expansions: map<string, Spec>, x: Setting)
    requires OneLevelGiven(c, domain, expansions) && UnitsOf(prog, domain.info, x.units)
    requires x.env.initial == BlocksPass.Given(domain.given) && x.know == domain.know
    ensures Levelled(c, x, expansions)
  {
  }

  lemma DefinedIs(prog: Module, info: AllInfo, x: Setting)
    requires UnitsOf(prog, info, x.units)
    ensures Defined(x) == prog
  {
  }

  /** The last pass: infers specifications from the units and the ranges. */
  method InferSpecifications(prog: Module, sccs: seq<Scc>, domain: Domain, expansions: map<string, Spec>,
                             ghost c: Level, units: map<string, Unit>, ranges: map<string, Sign>)
    returns (specs: Store, expanded: set<string>)
    requires UnitsOf(prog, domain.info, units) && BottomUp(prog, sccs)
    requires (exists i :: 0 <= i < |sccs| && sccs[i].hasLoop) ==> OneLevelGiven(c, domain, expansions)
    ensures var x := SettingFor(domain, units, ranges);
            SettingOk(x) && StoreOk(x.env, specs) && SettledBut(x, specs, sccs, |sccs|, expanded)
  {
    UnitsAreOk(prog, domain.info, units);
    var pass := new BlocksPass.Pass(domain.given, ranges, domain.void, domain.know, units);
    DefinedIs(prog, domain.info, pass.Fixed());
    if OneLevelGiven(c, domain, expansions) {
      GivenIsLevelled(c, prog, domain, expansions, pass.Fixed());
      pass.StoreIsOk();
      LevelledLoopsEnd(c, pass.Fixed(), pass.specs, sccs, 0, expansions);
    } else {
      NoLoopsEnd(pass.Fixed(), pass.specs, sccs, 0, expansions);
    }
    expanded := pass.RunOnModule(sccs, expansions);
    specs := pass.specs;
    assert pass.Fixed() == SettingFor(domain, units, ranges);
  }

  /** The analysis of a module, with any suggestions for expansion: if there is
      just one level of confidence, or no recursion, it terminates. */
  method Analyze(prog: Module, sccs: seq<Scc>, domain: Domain, expansions: map<string, Spec>, ghost c: Level)
    returns (o: Outcome)
    requires forall f :: f in prog ==> WellFormed(prog[f])
    requires BottomUp(prog, sccs)
    requires (exists i :: 0 <= i < |sccs| && sccs[i].hasLoop) ==> OneLevelGiven(c, domain, expansions)
    ensures Correct(prog, sccs, domain, o)
  {
    var units := RunOnFunctions(prog, domain.info);
    var ranges, returned := RangePass.Analyze(prog, sccs);
    var specs, expanded := InferSpecifications(prog, sccs, domain, expansions, c, units, ranges);
    o := Outcome(units, returned, ranges, specs, expanded);
  }

  /** The innermost frame of state k of this run is at the end of `frames`, an
      execution of f from the start of block b that returns d. */
  ghost predicate ReturnsOnRun(prog: Module, run: seq<Stack>, k: nat, u: Unit, b: nat, frames: seq<Frame>, d: Datum) {
    && IsRun(prog, run) && k < |run| && run[k] != [] && ReturnsFrom(u, b, frames, d)
    && frames[|frames| - 1] == run[k][|run[k]| - 1] && frames[|frames| - 1].name == u.name
  }

  /** The run starts in an analysed function, and the checks of all functions
      that may be called are fresh. */
  ghost predicate StaysFresh(prog: Module, sccs: seq<Scc>, returned: AllReturned, run: seq<Stack>)
    requires IsRun(prog, run)
  {
    exists names {:trigger RangePass.FreshBelow(prog, returned, names)} ::
      && names <= RangePass.Analyzed(prog, sccs, |sccs|) && RangePass.FreshBelow(prog, returned, names)
      && run[0][0].name in names
  }

  lemma HoldsIsHas(s: Sign, n: int)
    ensures Holds(s, n) <==> Has(s, RegionOf(n))
  {
  }

  lemma ReturnsInRange(prog: Module, sccs: seq<Scc>, domain: Domain, o: Outcome, run: seq<Stack>, k: nat,
                       f: string, b: nat, frames: seq<Frame>, d: Datum)
    requires Correct(prog, sccs, domain, o) && f in prog && ReturnsOnRun(prog, run, k, o.units[f], b, frames, d)
    requires RunReadsWell(prog, o.returned, run) && StaysFresh(prog, sccs, o.returned, run)
    ensures Has(RangeFor(SettingOf(domain, o).env, f), RegionOf(d.n))
  {
    var names :| names <= RangePass.Analyzed(prog, sccs, |sccs|) && RangePass.FreshBelow(prog, o.returned, names)
                 && run[0][0].name in names;
    assert RangePass.RangesSound(prog, o.returned, names, o.ranges);
    assert RangeProgram.ReturnInRange(prog, o.ranges, run[k]);
    assert Returning(prog[f], frames[|frames| - 1]) == Some(d);
    assert RangeProgram.InRange(o.ranges, f, d.n);
    HoldsIsHas(o.ranges[f], d.n);
  }

  /** Block b must return the error code rv, by the facts and the domain
      knowledge. */
  ghost predicate MustReturnCode(know: Knowledge, u: Unit, b: nat, rv: Value) {
    && b < |u.fn.blocks| && |u.fn.blocks[b]| > 0 && b < |u.returned.body| && |u.returned.body[b]| > 0
    && u.returned.body[b][0] == {rv} && IsConstantInt(rv)
    && IsCode(know.errorCodes, ConstantValue(rv), FileAt(u, Point(b, 0)))
  }

  /** What is stored and what is inferred for f do not fill its range. */
  ghost predicate RangeIsNotFilled(x: Setting, s: Store, f: string)
    requires SettingOk(x) && f in x.units
  {
    LeavesGap(Lookup(s, f), FunctionSpec(x.know, s, x.units[f]), RangeFor(x.env, f))
  }

  lemma CodeIsStored(x: Setting, s: Store, f: string, b: nat, rv: Value, frames: seq<Frame>, d: Datum)
    requires SettingOk(x) && StoreOk(x.env, s) && f in x.units && FromPasses(x.units[f])
    requires AnalyzedIn(x, s, f) == s && RangeIsNotFilled(x, s, f) && !Ignore(x.env, f) && f !in x.know.errorOnly
    requires MustReturnCode(x.know, x.units[f], b, rv) && ReturnsFrom(x.units[f], b, frames, d)
    requires Has(RangeFor(x.env, f), RegionOf(d.n))
    ensures ConfidenceIn(Lookup(s, f), RegionOf(d.n)) == MAX
  {
    assert MustReturn(x.units[f], b, rv);
    ErrorCodesAreStored(x.env, x.know, x.units, s, f, b, rv, frames, d);
  }

  /** On every run of the program: where a block that must return an error code
      returns, the sign of what it returns is stored as certain for its
      function, unless stored and inferred specification together fill the
      range, or expansion had a hand in it. */
  lemma ErrorCodesAreStoredOnRuns(prog: Module, sccs: seq<Scc>, domain: Domain, o: Outcome, run: seq<Stack>, k: nat,
                                  i: nat, f: string, b: nat, rv: Value, frames: seq<Frame>, d: Datum)
    requires Correct(prog, sccs, domain, o) && f in prog && ReturnsOnRun(prog, run, k, o.units[f], b, frames, d)
    requires RunReadsWell(prog, o.returned, run) && StaysFresh(prog, sccs, o.returned, run)
    requires i < |sccs| && f in sccs[i].nodes && Untouched(SettingOf(domain, o), o.expanded, sccs[i].nodes, f)
    requires !Ignore(SettingOf(domain, o).env, f) && f !in domain.know.errorOnly
    requires MustReturnCode(domain.know, o.units[f], b, rv) && RangeIsNotFilled(SettingOf(domain, o), o.specs, f)
    ensures ConfidenceIn(Lookup(o.specs, f), RegionOf(d.n)) == MAX
  {
    ReturnsInRange(prog, sccs, domain, o, run, k, f, b, frames, d);
    CodeIsStored(SettingOf(domain, o), o.specs, f, b, rv, frames, d);
  }
}
