/** Exactly when the loop over a component comes to an end: if and only if
    there is at most one level of confidence. */
module LoopCondition {
  import opened CallGraph
  import opened Confidence
  import opened Specifications
  import opened ErrorBlocks
  import opened PassResults
  import opened ComponentSweeps
  import opened ModuleSweeps
  import opened ExampleFunction
  import opened ExampleRange
  import opened EndlessSweeps
  import opened Sets
  import RangeSolution
  import RangeSweeps

  /** Signs that have any confidence have one of these levels. */
  predicate LevelsIn(levels: set<Level>, x: Spec) {
    && (x.zero == MIN || x.zero in levels) && (x.neg == MIN || x.neg in levels) && (x.pos == MIN || x.pos in levels)
  }

  /** These are the levels of all that analysing f looks at: its own
      specification, those of the functions it calls, and full confidence if
      error codes or error-only calls add it. */
  ghost predicate LooksAt(levels: set<Level>, x: Setting, s: Store, f: string) {
    && !Ignore(x.env, f) && LevelsIn(levels, Lookup(s, f)) && Tidy(Lookup(s, f))
    && (f in x.units ==> && (AddsCertainty(x.know, x.units[f]) ==> MAX in levels)
                         && (forall g :: g in Callees(x.units[f].fn) ==> LevelsIn(levels, Lookup(s, g))))
  }

  /** A caller can check this before the loop. */
  ghost predicate Within(levels: set<Level>, x: Setting, s: Store, funcs: seq<string>) {
    SettingOk(x) && StoreOk(x.env, s) && forall f :: f in funcs ==> LooksAt(levels, x, s, f)
  }

  /** The ranges are a solution for f, as the range pass leaves them. */
  ghost predicate RangeFromPass(x: Setting, f: string)
    requires f in x.units
  {
    RangeSolution.Solved(RangeSweeps.Task(Defined(x), f, x.units[f].fn, x.units[f].returned), x.env.ranges)
  }

  /** The functions of a component as the pass first meets them: with the facts
      and ranges of the other passes, calling each other, in a store that some
      history leads to, and without a specification. */
  ghost predicate FirstMet(x: Setting, s: Store, funcs: seq<string>) {
    && Reachable(x.env, s)
    && forall f :: f in funcs ==>
         && f in x.units && FromPasses(x.units[f]) && RangeFromPass(x, f) && f !in s
         && exists g :: g in funcs && g in Callees(x.units[f].fn)
  }

  /** From all stores with these levels, the loop ends after a bounded number of
      sweeps. */
  ghost predicate AlwaysEndsSoon(levels: set<Level>) {
    forall x, s, funcs {:trigger Within(levels, x, s, funcs)} ::
      Within(levels, x, s, funcs) ==> EndsWithin(x, s, funcs, 3 * |funcs| + 1)
  }

  /** It ends at least for components that are first met. */
  ghost predicate EndsForNew(levels: set<Level>) {
    forall x, s, funcs {:trigger Within(levels, x, s, funcs)} ::
      Within(levels, x, s, funcs) && FirstMet(x, s, funcs) ==> Ends(x, s, funcs)
  }

  lemma OneLevelIs(levels: set<Level>) returns (c: Level)
    requires |levels| <= 1
    ensures MAX in levels ==> c == MAX
    ensures forall x :: LevelsIn(levels, x) ==> OneLevel(c, x)
  {
    c := MAX;
    if levels != {} {
      c :| c in levels;
      OnlyMember(levels, c);
    }
  }

  lemma AtOneLevel(levels: set<Level>, c: Level, x: Setting, s: Store, funcs: seq<string>)
    requires Within(levels, x, s, funcs) && (MAX in levels ==> c == MAX)
    requires forall y :: LevelsIn(levels, y) ==> OneLevel(c, y)
    ensures AtLevel(c, x, s, funcs)
  {
    forall f | f in funcs ensures FuncAtLevel(c, x, s, f) {
      assert LooksAt(levels, x, s, f);
    }
  }

  lemma OneLevelAlwaysEnds(levels: set<Level>)
    requires |levels| <= 1
    ensures AlwaysEndsSoon(levels)
  {
    var c := OneLevelIs(levels);
    forall x, s, funcs | Within(levels, x, s, funcs) ensures EndsWithin(x, s, funcs, 3 * |funcs| + 1) {
      AtOneLevel(levels, c, x, s, funcs);
      OneLevelEnds(c, x, s, funcs);
    }
  }

  lemma TwoLevels(levels: set<Level>) returns (c: Level, d: Level)
    requires |levels| > 1
    ensures c in levels && d in levels && d < c
  {
    var a :| a in levels;
    assert |levels - {a}| == |levels| - 1;
    var b :| b in levels - {a};
    c, d := Max(a, b), Min(a, b);
  }

  lemma ExpandedLevels(levels: set<Level>, c: Level, d: Level)
    requires c in levels && d in levels
    ensures forall g :: LevelsIn(levels, Lookup(Expanded(c, d), g))
    ensures Lookup(Expanded(c, d), "f") == UNKNOWN && "f" !in Expanded(c, d)
  {
  }

  lemma ExampleLooksAt(levels: set<Level>, s: Store)
    requires UnitOk(Facts()) && Lookup(s, "f") == UNKNOWN && forall g :: LevelsIn(levels, Lookup(s, g))
    ensures LooksAt(levels, Alone(), s, "f")
  {
    assert !AddsCertainty(NOTHING, Facts());
  }

  lemma SingleFirstMet(levels: set<Level>, x: Setting, s: Store, f: string)
    requires SettingOk(x) && Reachable(x.env, s) && LooksAt(levels, x, s, f) && f !in s
    requires f in x.units && FromPasses(x.units[f]) && RangeFromPass(x, f) && f in Callees(x.units[f].fn)
    ensures Within(levels, x, s, [f]) && FirstMet(x, s, [f])
  {
    ReachableIsOk(x.env, s);
    assert f in [f];
  }

  lemma ExampleIsAlone()
    ensures SettingOk(Alone()) && "f" in Alone().units && Alone().units["f"] == Facts() && Alone().env == OPEN
    ensures FromPasses(Facts()) && "f" in Callees(Facts().fn)
  {
    FactsAreFromPasses();
    CallsAreThere();
  }

  /** The example has the levels c and d, and has not been met before. */
  lemma ExampleFirstMet(levels: set<Level>, c: Level, d: Level)
    requires MIN < d < c && c in levels && d in levels
    ensures Within(levels, Alone(), Expanded(c, d), ["f"]) && FirstMet(Alone(), Expanded(c, d), ["f"])
  {
    ExampleIsAlone();
    TopSolves(Defined(Alone()));
    StartIsReachable(c, d);
    ExpandedLevels(levels, c, d);
    ExampleLooksAt(levels, Expanded(c, d));
    SingleFirstMet(levels, Alone(), Expanded(c, d), "f");
  }

  lemma ReachableIsOk(env: Env, s: Store)
    requires Reachable(env, s)
    ensures StoreOk(env, s)
  {
    var run :| IsHistory(env, run) && run[|run| - 1] == s;
    SpecificationsStayInside(env, run, |run| - 1);
  }

  /** With two levels there is a component, as the pass may first meet it, over
      which it would sweep for ever. */
  lemma TwoLevelsNeedNotEnd(levels: set<Level>)
    requires MIN !in levels && |levels| > 1
    ensures !EndsForNew(levels)
  {
    var c, d := TwoLevels(levels);
    ExampleFirstMet(levels, c, d);
    forall n: nat ensures !EndsWithin(Alone(), Expanded(c, d), ["f"], n) {
      SweepsNeverSettle(c, d, n);
    }
    assert !Ends(Alone(), Expanded(c, d), ["f"]);
  }

  lemma SoonIsEnding(levels: set<Level>)
    requires AlwaysEndsSoon(levels)
    ensures EndsForNew(levels)
  {
  }

  /** The exact condition, for every set of positive levels: with at most one
      the loop ends within 3n + 1 sweeps over n functions, whatever they are and
      whatever is stored; with more it need not end at all, even for a component
      that is met for the first time in a store that the pass can reach. */
  lemma LoopEndsIff(levels: set<Level>)
    requires MIN !in levels
    ensures AlwaysEndsSoon(levels) <==> |levels| <= 1
    ensures EndsForNew(levels) <==> |levels| <= 1
  {
    if |levels| <= 1 {
      OneLevelAlwaysEnds(levels);
      SoonIsEnding(levels);
    } else {
      TwoLevelsNeedNotEnd(levels);
      if AlwaysEndsSoon(levels) { SoonIsEnding(levels); }
    }
  }
}
