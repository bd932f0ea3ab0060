/** With two levels of confidence, as expansion from similar functions infers
    them, sweeping a component need not come to an end: in the function of
    `ExampleFunction`, let errors of g be negative with confidence c, and those
    of h with confidence d < c. */
module EndlessSweeps {
  import opened IR
  import opened Signs
  import opened Confidence
  import opened Specifications
  import opened ErrorBlocks
  import opened PassResults
  import opened ComponentSweeps
  import opened ExampleFunction
  import BlockMeaning

  const NOTHING := Knowledge({}, map[], map[])

  /** Nothing is given, and f has the range that the range pass finds. */
  const OPEN := Env(map[], map["f" := Top], {})

  /** Errors of g and h are as said; f has some specification, or none. */
  ghost predicate Fits(c: Level, d: Level, s: Store) {
    && Lookup(s, "g") == Spec(0, c, 0, 0) && Lookup(s, "h") == Spec(0, d, 0, 0)
    && Lookup(s, "f").emptyset == MIN
  }

  /** What a sweep infers for f: zero from g's errors, negative from h's, and
      positive from its own negative errors. */
  function Inferred(c: Level, d: Level, s: Store): Spec {
    Spec(c, d, Lookup(s, "f").neg, 0)
  }

  /** A constant that no call returned tells the constraining errors' signs. */
  lemma ConstantTells(s: Store, u: Unit, b: nat, rv: Value, f: string)
    requires UnitOk(u) && b < |u.fn.blocks| && |u.fn.blocks[b]| > 0 && rv.Int?
    requires f in u.constrained.body[b][|u.fn.blocks[b]| - 1] && rv !in u.propagated.body[b][|u.fn.blocks[b]| - 1]
    ensures var cut := Intersection(Lookup(s, f), u.constrained.body[b][|u.fn.blocks[b]| - 1][f]);
            var term := ConstraintTerm(s, u, b, rv, f);
            term.Some? ==> || term.value == ConstantReturn(rv, cut) || term.value == UNKNOWN
                           || (term.value == cut && (IsUnknown(cut) || IsEmptyset(cut)))
  {
  }

  lemma ConstantTellsNoMore(c: Level, d: Level, s: Store, b: nat, rv: Value, f: string)
    requires UnitOk(Facts()) && b in {1, 3, 5} && Returnable(b) == {rv} && Fits(c, d, s) && f in Known(b, 0)
    ensures var term := ConstraintTerm(s, Facts(), b, rv, f);
            term.Some? ==> Confidence.Leq(term.value, Inferred(c, d, s))
  {
    assert rv in {rv} && rv !in HeldIn(b);
    ConstantTells(s, Facts(), b, rv, f);
    CutIsBounded(c, d, s, b, rv, f);
  }

  lemma CutIsBounded(c: Level, d: Level, s: Store, b: nat, rv: Value, f: string)
    requires b in {1, 3, 5} && Returnable(b) == {rv} && Fits(c, d, s) && f in Known(b, 0)
    ensures var cut := Intersection(Lookup(s, f), Known(b, 0)[f]);
            rv.Int? && !IsEmptyset(cut) && Confidence.Leq(ConstantReturn(rv, cut), Inferred(c, d, s))
  {
    assert rv in {rv};
  }

  lemma OpaqueTellsNothing(c: Level, d: Level, s: Store, rv: Value, f: string)
    requires UnitOk(Facts()) && Returnable(6) == {rv} && Fits(c, d, s) && f in Known(6, 1)
    ensures var term := ConstraintTerm(s, Facts(), 6, rv, f);
            term.Some? ==> Confidence.Leq(term.value, Inferred(c, d, s))
  {
    assert rv in {rv} && rv !in HeldIn(6);
  }

  lemma CallTellsNothing(c: Level, d: Level, s: Store, b: nat)
    requires UnitOk(Facts()) && b in {0, 2, 4} && Fits(c, d, s)
    ensures Confidence.Leq(CallSpec(NOTHING, s, Facts(), Point(b, 0)), Inferred(c, d, s))
  {
    var terms := CallTerms(NOTHING, s, Facts(), Point(b, 0));
    assert OrdinaryCall(s, Facts(), Point(b, 0)) == UNKNOWN;
    assert AllBelow(terms, Inferred(c, d, s));
  }

  lemma CallsTellNothing(c: Level, d: Level, s: Store, b: nat)
    requires UnitOk(Facts()) && b < 7 && Fits(c, d, s)
    ensures AllBelow(BlockCallTerms(NOTHING, s, Facts(), b, |BlockAt(b)|), Inferred(c, d, s))
  {
    forall i | 0 <= i < |BlockAt(b)| && BlockAt(b)[i].Call?
      ensures Confidence.Leq(CallSpec(NOTHING, s, Facts(), Point(b, i)), Inferred(c, d, s))
    {
      CallTellsNothing(c, d, s, b);
    }
  }

  lemma ConstraintsTellNoMore(c: Level, d: Level, s: Store, b: nat, rv: Value)
    requires UnitOk(Facts()) && b in {1, 3, 5, 6} && Returnable(b) == {rv} && Fits(c, d, s)
    ensures AllBelow(ConstraintTerms(s, Facts(), b, rv), Inferred(c, d, s))
  {
    forall f | f in Known(b, |BlockAt(b)| - 1)
      ensures var term := ConstraintTerm(s, Facts(), b, rv, f);
              term.Some? ==> Confidence.Leq(term.value, Inferred(c, d, s))
    {
      if b == 6 { OpaqueTellsNothing(c, d, s, rv, f); } else { ConstantTellsNoMore(c, d, s, b, rv, f); }
    }
  }

  lemma SingleReturn(b: nat)
    requires b < 7 && |Returnable(b)| == 1
    ensures b in {1, 3, 5, 6} && exists rv :: Returnable(b) == {rv}
  {
  }

  lemma BlockTellsNoMore(c: Level, d: Level, s: Store, b: nat)
    requires UnitOk(Facts()) && b < 7 && Fits(c, d, s)
    ensures Confidence.Leq(BlockSpec(NOTHING, s, Facts(), b), Inferred(c, d, s))
  {
    var u := Facts();
    var terms, values := BlockTerms(NOTHING, s, u, b), u.returned.body[b][0];
    CallsTellNothing(c, d, s, b);
    if |values| == 1 {
      SingleReturn(b);
      var rv :| rv in values && values == {rv};
      ConstraintsTellNoMore(c, d, s, b, rv);
    }
    assert AllBelow(terms, Inferred(c, d, s));
  }

  lemma TellsNoMore(c: Level, d: Level, s: Store)
    requires UnitOk(Facts()) && Fits(c, d, s)
    ensures Confidence.Leq(FunctionSpec(NOTHING, s, Facts()), Inferred(c, d, s))
  {
    forall b: nat | b < 7 ensures Confidence.Leq(BlockSpec(NOTHING, s, Facts(), b), Inferred(c, d, s)) {
      BlockTellsNoMore(c, d, s, b);
    }
    var failing := FailingBlocks(NOTHING, s, Facts(), 7);
    assert AllBelow({UNKNOWN} + failing, Inferred(c, d, s));
  }

  /** Block b, which returns rv if f fails, tells `term`. */
  lemma Tells(s: Store, b: nat, rv: Value, f: string, term: Spec, r: Region)
    requires UnitOk(Facts()) && b in {1, 3, 5} && Returnable(b) == {rv} && f in Known(b, 0)
    requires ConstraintTerm(s, Facts(), b, rv, f) == Some(term) && term.emptyset == MIN && f != ""
    ensures ConfidenceIn(FunctionSpec(NOTHING, s, Facts()), r) >= ConfidenceIn(term, r)
  {
    var u := Facts();
    var terms := BlockTerms(NOTHING, s, u, b);
    assert term in ConstraintTerms(s, u, b, rv);
    BlockMeaning.OnlyValue(u, b, rv);
    assert term in terms;
    BlockMeaning.AboveAllTerms(terms, term, r);
    BlockMeaning.FunctionAtLeast(NOTHING, s, u, b, r);
  }

  lemma ZeroIsTold(c: Level, d: Level, s: Store)
    requires UnitOk(Facts()) && Fits(c, d, s) && c > MIN
    ensures FunctionSpec(NOTHING, s, Facts()).zero >= c
  {
    assert ConstraintTerm(s, Facts(), 1, Int(0), "g") == Some(Spec(c, 0, 0, 0));
    Tells(s, 1, Int(0), "g", Spec(c, 0, 0, 0), Null);
  }

  lemma NegativeIsTold(c: Level, d: Level, s: Store)
    requires UnitOk(Facts()) && Fits(c, d, s) && d > MIN
    ensures FunctionSpec(NOTHING, s, Facts()).neg >= d
  {
    assert ConstraintTerm(s, Facts(), 3, Int(-1), "h") == Some(Spec(0, d, 0, 0));
    Tells(s, 3, Int(-1), "h", Spec(0, d, 0, 0), Negative);
  }

  lemma PositiveIsTold(c: Level, d: Level, s: Store)
    requires UnitOk(Facts()) && Fits(c, d, s) && Lookup(s, "f").neg > MIN
    ensures FunctionSpec(NOTHING, s, Facts()).pos >= Lookup(s, "f").neg
  {
    var own := Lookup(s, "f").neg;
    assert ConstraintTerm(s, Facts(), 5, Int(1), "f") == Some(Spec(0, 0, own, 0));
    Tells(s, 5, Int(1), "f", Spec(0, 0, own, 0), Positive);
  }

  /** Analysing f infers just that. */
  lemma TellsExactly(c: Level, d: Level, s: Store)
    requires UnitOk(Facts()) && Fits(c, d, s) && c > MIN && d > MIN
    ensures FunctionSpec(NOTHING, s, Facts()) == Inferred(c, d, s)
  {
    TellsNoMore(c, d, s);
    ZeroIsTold(c, d, s);
    NegativeIsTold(c, d, s);
    if Lookup(s, "f").neg > MIN { PositiveIsTold(c, d, s); }
  }

  // ----- Sweeping back and forth -----

  /** The specification of f after n sweeps: none at first, and then that errors
      are negative comes and goes. */
  function Own(c: Level, d: Level, n: nat): Spec {
    if n == 0 then UNKNOWN else Spec(c, if n % 2 == 1 then d else MIN, 0, 0)
  }

  lemma OwnTurns(c: Level, d: Level, n: nat)
    requires MIN < d < c
    ensures Refit(Own(c, d, n), Spec(c, d, Own(c, d, n).neg, 0), Top) == Some(Own(c, d, n + 1))
    ensures Own(c, d, n) != Own(c, d, n + 1)
  {
    var delta := Spec(c, d, Own(c, d, n).neg, 0);
    assert Intersection(delta, Top) == delta;
    if n % 2 == 1 {
      assert Confidence.Join(Own(c, d, n), delta) == Spec(c, d, d, 0);
      assert Trimmed(Spec(c, d, d, 0)) == Spec(c, 0, 0, 0);
    } else if n > 0 {
      assert Confidence.Join(Own(c, d, n), delta) == Spec(c, d, 0, 0);
    }
  }

  /** The store after expansion, which is about g and h only. */
  function Expanded(c: Level, d: Level): Store {
    map["g" := Spec(0, c, 0, 0), "h" := Spec(0, d, 0, 0)]
  }

  function StoreAt(c: Level, d: Level, n: nat): Store {
    if n == 0 then Expanded(c, d) else Expanded(c, d)["f" := Own(c, d, n)]
  }

  lemma StoreFits(c: Level, d: Level, n: nat)
    ensures Fits(c, d, StoreAt(c, d, n)) && Lookup(StoreAt(c, d, n), "f") == Own(c, d, n)
  {
  }

  lemma UpdateTurns(c: Level, d: Level, n: nat)
    requires MIN < d < c
    ensures var s := StoreAt(c, d, n); Updated(OPEN, s, "f", Inferred(c, d, s)) == StoreAt(c, d, n + 1) != s
  {
    var s := StoreAt(c, d, n);
    StoreFits(c, d, n);
    StoreFits(c, d, n + 1);
    OwnTurns(c, d, n);
    assert s["f" := Own(c, d, n + 1)] == StoreAt(c, d, n + 1);
  }

  /** The module consists of f alone. */
  function Alone(): Setting {
    Setting(OPEN, NOTHING, map["f" := Facts()])
  }

  lemma SweepTurns(c: Level, d: Level, n: nat)
    requires MIN < d < c && SettingOk(Alone()) && UnitOk(Facts())
    ensures AnalyzedIn(Alone(), StoreAt(c, d, n), "f") == StoreAt(c, d, n + 1) != StoreAt(c, d, n)
  {
    StoreFits(c, d, n);
    TellsExactly(c, d, StoreAt(c, d, n));
    UpdateTurns(c, d, n);
  }

  lemma {:induction false} AfterSweeps(c: Level, d: Level, n: nat)
    requires MIN < d < c && SettingOk(Alone()) && UnitOk(Facts())
    ensures After(Alone(), Expanded(c, d), ["f"], n) == StoreAt(c, d, n)
  {
    if n > 0 {
      AfterSweeps(c, d, n - 1);
      SweepTurns(c, d, n - 1);
      OneSweepMore(Alone(), Expanded(c, d), "f", n - 1, StoreAt(c, d, n - 1), StoreAt(c, d, n));
    }
  }

  lemma OneSweep(x: Setting, s: Store, f: string)
    requires SettingOk(x)
    ensures SweepOf(x, s, [f]) == AnalyzedIn(x, s, f)
  {
    assert [f][..0] == [];
    assert SweepOf(x, s, []) == s;
  }

  lemma OneSweepMore(x: Setting, s: Store, f: string, n: nat, before: Store, next: Store)
    requires SettingOk(x) && After(x, s, [f], n) == before && AnalyzedIn(x, before, f) == next
    ensures After(x, s, [f], n + 1) == next
  {
    OneSweep(x, before, f);
    NextSweep(x, s, [f], n);
  }

  /** No number of sweeps is enough. */
  lemma SweepsNeverSettle(c: Level, d: Level, n: nat)
    requires MIN < d < c
    ensures SettingOk(Alone()) && FromPasses(Facts())
    ensures !EndsWithin(Alone(), Expanded(c, d), ["f"], n)
  {
    FactsAreFromPasses();
    forall k: nat | k < n ensures !SettledAfter(Alone(), Expanded(c, d), ["f"], k) {
      AfterSweeps(c, d, k);
      SweepTurns(c, d, k);
      assert "f" in ["f"];
    }
  }

  // ----- The store that the sweeps start from -----

  lemma ExpansionStep(s: Store, f: string, spec: Spec)
    requires f !in s && Refit(UNKNOWN, spec, Top) == Some(spec)
    ensures UpdateStep(OPEN, s, s[f := spec])
  {
    assert Updated(OPEN, s, f, spec) == s[f := spec];
  }

  lemma TwoSteps(s0: Store, s1: Store, s2: Store)
    requires s0 == OPEN.initial && UpdateStep(OPEN, s0, s1) && UpdateStep(OPEN, s1, s2)
    ensures Reachable(OPEN, s2)
  {
    var run := [s0, s1, s2];
    forall k: nat | k + 1 < 3 ensures StepsAt(OPEN, run, k) {
      assert k == 0 || k == 1;
    }
    assert IsHistory(OPEN, run) && run[|run| - 1] == s2;
  }

  /** Expanding g and h leads to it. */
  lemma StartIsReachable(c: Level, d: Level)
    requires MIN < c && MIN < d
    ensures Reachable(OPEN, Expanded(c, d))
  {
    var s0: Store := map[];
    var s1 := s0["g" := Spec(0, c, 0, 0)];
    ExpansionStep(s0, "g", Spec(0, c, 0, 0));
    ExpansionStep(s1, "h", Spec(0, d, 0, 0));
    assert s1["h" := Spec(0, d, 0, 0)] == Expanded(c, d);
    TwoSteps(s0, s1, Expanded(c, d));
  }
}
