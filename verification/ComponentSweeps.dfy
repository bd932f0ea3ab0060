/** Sweeping the functions of a component until none of their specifications
    changes (eesi/src/error_blocks_pass.cc:156-165). */
module ComponentSweeps {
  import opened CallGraph
  import opened Confidence
  import opened Specifications
  import opened ErrorBlocks

  /** What stays fixed during a run of the pass. */
  datatype Setting = Setting(env: Env, know: Knowledge, units: map<string, Unit>)

  ghost predicate SettingOk(x: Setting) {
    UnitsOk(x.units)
  }

  ghost function AnalyzedIn(x: Setting, s: Store, f: string): Store
    requires SettingOk(x)
  {
    Analyzed(x.env, x.know, x.units, s, f)
  }

  /** The store after analysing these functions one after the other. */
  ghost function SweepOf(x: Setting, s: Store, funcs: seq<string>): Store
    requires SettingOk(x)
  {
    if funcs == [] then s else AnalyzedIn(x, SweepOf(x, s, funcs[..|funcs| - 1]), funcs[|funcs| - 1])
  }

  /** The store after n sweeps. */
  ghost function After(x: Setting, s: Store, funcs: seq<string>, n: nat): Store
    requires SettingOk(x)
  {
    if n == 0 then s else SweepOf(x, After(x, s, funcs, n - 1), funcs)
  }

  /** A sweep would change nothing: the loop ends with it. */
  ghost predicate AllSettled(x: Setting, s: Store, funcs: seq<string>)
    requires SettingOk(x)
  {
    forall f :: f in funcs ==> AnalyzedIn(x, s, f) == s
  }

  ghost predicate SettledAfter(x: Setting, s: Store, funcs: seq<string>, n: nat)
    requires SettingOk(x)
  {
    AllSettled(x, After(x, s, funcs, n), funcs)
  }

  ghost predicate Unsettled(x: Setting, s: Store, funcs: seq<string>, n: nat)
    requires SettingOk(x)
  {
    forall k: nat :: k < n ==> !SettledAfter(x, s, funcs, k)
  }

  /** The n-th sweep is the first that changes nothing. */
  ghost predicate EndsAt(x: Setting, s: Store, funcs: seq<string>, n: nat)
    requires SettingOk(x)
  {
    n > 0 && SettledAfter(x, s, funcs, n - 1) && Unsettled(x, s, funcs, n - 1)
  }

  /** The loop ends after at most n sweeps. */
  ghost predicate EndsWithin(x: Setting, s: Store, funcs: seq<string>, n: nat)
    requires SettingOk(x)
  {
    exists k: nat :: k < n && SettledAfter(x, s, funcs, k)
  }

  ghost predicate Ends(x: Setting, s: Store, funcs: seq<string>)
    requires SettingOk(x)
  {
    exists n: nat :: EndsWithin(x, s, funcs, n)
  }

  lemma SweepFurther(x: Setting, s: Store, funcs: seq<string>, i: nat)
    requires SettingOk(x) && i < |funcs|
    ensures SweepOf(x, s, funcs[..i + 1]) == AnalyzedIn(x, SweepOf(x, s, funcs[..i]), funcs[i])
  {
    assert funcs[..i + 1][..i] == funcs[..i];
  }

  /** Whether the sweep has changed anything so far is whether it has met a
      function that was not settled. */
  lemma ChangedOneMore(x: Setting, start: Store, now: Store, funcs: seq<string>, i: nat, changed: bool)
    requires SettingOk(x) && i < |funcs|
    requires changed == !AllSettled(x, start, funcs[..i]) && (!changed ==> now == start)
    ensures var next := AnalyzedIn(x, now, funcs[i]);
            && (next != now || changed) == !AllSettled(x, start, funcs[..i + 1])
            && (next == now && !changed ==> next == start)
  {
    assert forall f :: f in funcs[..i + 1] <==> f in funcs[..i] || f == funcs[i];
  }

  lemma AnalysisFrame(x: Setting, s: Store, f: string, g: string)
    requires SettingOk(x) && g != f
    ensures SameAt(s, AnalyzedIn(x, s, f), g)
  {
  }

  /** Sweeps change specifications of the component only. */
  lemma {:induction false} SweepFrame(x: Setting, s: Store, funcs: seq<string>)
    requires SettingOk(x)
    ensures forall g :: g !in funcs ==> SameAt(s, SweepOf(x, s, funcs), g)
  {
    if funcs != [] {
      var before, f := SweepOf(x, s, funcs[..|funcs| - 1]), funcs[|funcs| - 1];
      SweepFrame(x, s, funcs[..|funcs| - 1]);
      forall g | g !in funcs ensures SameAt(s, AnalyzedIn(x, before, f), g) {
        assert SameAt(s, before, g);
        AnalysisFrame(x, before, f, g);
      }
    }
  }

  lemma {:induction false} AfterFrame(x: Setting, s: Store, funcs: seq<string>, n: nat)
    requires SettingOk(x)
    ensures forall g :: g !in funcs ==> SameAt(s, After(x, s, funcs, n), g)
  {
    if n > 0 {
      AfterFrame(x, s, funcs, n - 1);
      SweepFrame(x, After(x, s, funcs, n - 1), funcs);
    }
  }

  lemma {:induction false} SweepKeepsOk(x: Setting, s: Store, funcs: seq<string>)
    requires SettingOk(x) && StoreOk(x.env, s)
    ensures StoreOk(x.env, SweepOf(x, s, funcs))
  {
    if funcs != [] {
      var before, f := SweepOf(x, s, funcs[..|funcs| - 1]), funcs[|funcs| - 1];
      SweepKeepsOk(x, s, funcs[..|funcs| - 1]);
      if f in x.units { UpdateKeeps(x.env, before, f, FunctionSpec(x.know, before, x.units[f])); }
    }
  }

  lemma {:induction false} AfterKeepsOk(x: Setting, s: Store, funcs: seq<string>, n: nat)
    requires SettingOk(x) && StoreOk(x.env, s)
    ensures StoreOk(x.env, After(x, s, funcs, n))
  {
    if n > 0 {
      AfterKeepsOk(x, s, funcs, n - 1);
      SweepKeepsOk(x, After(x, s, funcs, n - 1), funcs);
    }
  }

  lemma {:induction false} SettledSweep(x: Setting, s: Store, funcs: seq<string>)
    requires SettingOk(x) && AllSettled(x, s, funcs)
    ensures SweepOf(x, s, funcs) == s
  {
    if funcs != [] {
      SettledSweep(x, s, funcs[..|funcs| - 1]);
    }
  }

  lemma NextSweep(x: Setting, s: Store, funcs: seq<string>, n: nat)
    requires SettingOk(x)
    ensures After(x, s, funcs, n + 1) == SweepOf(x, After(x, s, funcs, n), funcs)
  {
  }

  lemma NextIsLast(x: Setting, s: Store, funcs: seq<string>, n: nat)
    requires SettingOk(x) && Unsettled(x, s, funcs, n)
    ensures if SettledAfter(x, s, funcs, n) then EndsAt(x, s, funcs, n + 1) else Unsettled(x, s, funcs, n + 1)
  {
    if !SettledAfter(x, s, funcs, n) {
      forall k: nat | k < n + 1 ensures !SettledAfter(x, s, funcs, k) {
        assert k < n || k == n;
      }
    }
  }

  lemma MoreToCome(x: Setting, s: Store, funcs: seq<string>, n: nat, enough: nat)
    requires SettingOk(x) && Unsettled(x, s, funcs, n) && EndsWithin(x, s, funcs, enough)
    ensures n < enough
  {
  }

  /** The loop leaves the component settled, within any number of sweeps that is
      enough. */
  lemma EndIsSettled(x: Setting, s: Store, funcs: seq<string>, n: nat)
    requires SettingOk(x) && EndsAt(x, s, funcs, n)
    ensures AllSettled(x, After(x, s, funcs, n), funcs)
    ensures forall enough: nat :: EndsWithin(x, s, funcs, enough) ==> n <= enough
  {
    SettledSweep(x, After(x, s, funcs, n - 1), funcs);
  }

  // ----- Components without a loop -----

  /** None of these functions calls another, or itself. */
  ghost predicate Independent(units: map<string, Unit>, funcs: seq<string>) {
    forall f, g :: f in funcs && f in units && g in funcs ==> g !in Callees(units[f].fn)
  }

  lemma StaysInSweep(x: Setting, s: Store, next: Store, funcs: seq<string>, f: string, g: string)
    requires SettingOk(x) && Independent(x.units, funcs) && f in funcs && g in funcs && f != g
    requires AnalyzedIn(x, s, f) == s && next == AnalyzedIn(x, s, g)
    ensures AnalyzedIn(x, next, f) == next
  {
    SettledStays(x.env, x.know, x.units, s, next, f);
  }

  lemma MemberSettled(x: Setting, s: Store, funcs: seq<string>, i: nat, g: string)
    requires SettingOk(x) && Independent(x.units, funcs) && i < |funcs| && AllSettled(x, s, funcs[..i])
    requires funcs[i] !in funcs[..i] ==> IsUnknown(Lookup(s, funcs[i]))
    requires g in funcs[..i] || g == funcs[i]
    ensures var next := AnalyzedIn(x, s, funcs[i]); AnalyzedIn(x, next, g) == next
  {
    var f := funcs[i];
    assert f in funcs;
    if f !in funcs[..i] {
      if g == f {
        FirstAnalysisSettles(x.env, x.know, x.units, s, f);
      } else {
        assert g in funcs;
        StaysInSweep(x, s, AnalyzedIn(x, s, f), funcs, g, f);
      }
    }
  }

  lemma SettledOneMore(x: Setting, s: Store, funcs: seq<string>, i: nat)
    requires SettingOk(x) && Independent(x.units, funcs) && i < |funcs| && AllSettled(x, s, funcs[..i])
    requires funcs[i] !in funcs[..i] ==> IsUnknown(Lookup(s, funcs[i]))
    ensures AllSettled(x, AnalyzedIn(x, s, funcs[i]), funcs[..i + 1])
  {
    forall g | g in funcs[..i + 1] ensures AnalyzedIn(x, AnalyzedIn(x, s, funcs[i]), g) == AnalyzedIn(x, s, funcs[i]) {
      assert g in funcs[..i] || g == funcs[i];
      MemberSettled(x, s, funcs, i, g);
    }
  }

  lemma NextIsUnknown(x: Setting, s: Store, funcs: seq<string>, i: nat)
    requires SettingOk(x) && i < |funcs| && IsUnknown(Lookup(s, funcs[i]))
    ensures funcs[i] !in funcs[..i] ==> IsUnknown(Lookup(SweepOf(x, s, funcs[..i]), funcs[i]))
  {
    SweepFrame(x, s, funcs[..i]);
  }

  /** One sweep is enough, whatever the confidences, where nothing was known. */
  lemma {:induction false} FirstSweepSettles(x: Setting, s: Store, funcs: seq<string>, i: nat)
    requires SettingOk(x) && Independent(x.units, funcs) && i <= |funcs|
    requires forall f :: f in funcs ==> IsUnknown(Lookup(s, f))
    ensures AllSettled(x, SweepOf(x, s, funcs[..i]), funcs[..i])
  {
    if i > 0 {
      FirstSweepSettles(x, s, funcs, i - 1);
      SweepFurther(x, s, funcs, i - 1);
      NextIsUnknown(x, s, funcs, i - 1);
      SettledOneMore(x, SweepOf(x, s, funcs[..i - 1]), funcs, i - 1);
    }
  }

  // ----- One level of confidence -----

  ghost predicate StoreLevel(c: Level, s: Store) {
    forall f :: f in s ==> OneLevel(c, s[f])
  }

  /** No unit adds certainty to the level c, unless that is certainty. */
  ghost predicate UnitsLevel(c: Level, x: Setting) {
    forall f :: f in x.units && AddsCertainty(x.know, x.units[f]) ==> c == MAX
  }

  lemma AnalysisKeepsStoreLevel(c: Level, x: Setting, s: Store, f: string)
    requires SettingOk(x) && StoreLevel(c, s) && UnitsLevel(c, x)
    ensures StoreLevel(c, AnalyzedIn(x, s, f))
  {
    if f in x.units {
      FunctionIsClear(c, x.know, s, x.units[f]);
      RefitKeepsLevel(c, Lookup(s, f), FunctionSpec(x.know, s, x.units[f]), RangeFor(x.env, f));
    }
  }

  lemma {:induction false} SweepKeepsStoreLevel(c: Level, x: Setting, s: Store, funcs: seq<string>)
    requires SettingOk(x) && StoreLevel(c, s) && UnitsLevel(c, x)
    ensures StoreLevel(c, SweepOf(x, s, funcs))
  {
    if funcs != [] {
      SweepKeepsStoreLevel(c, x, s, funcs[..|funcs| - 1]);
      AnalysisKeepsStoreLevel(c, x, SweepOf(x, s, funcs[..|funcs| - 1]), funcs[|funcs| - 1]);
    }
  }

  lemma {:induction false} AfterKeepsStoreLevel(c: Level, x: Setting, s: Store, funcs: seq<string>, n: nat)
    requires SettingOk(x) && StoreLevel(c, s) && UnitsLevel(c, x)
    ensures StoreLevel(c, After(x, s, funcs, n))
  {
    if n > 0 {
      AfterKeepsStoreLevel(c, x, s, funcs, n - 1);
      SweepKeepsStoreLevel(c, x, After(x, s, funcs, n - 1), funcs);
    }
  }

  /** The specifications of these functions, and of what they call, have one
      level of confidence. */
  ghost predicate AtLevel(c: Level, x: Setting, s: Store, funcs: seq<string>) {
    && SettingOk(x) && StoreOk(x.env, s)
    && forall f :: f in funcs ==> FuncAtLevel(c, x, s, f)
  }

  ghost predicate FuncAtLevel(c: Level, x: Setting, s: Store, f: string) {
    !Ignore(x.env, f) && Clear(c, Lookup(s, f)) && (f in x.units ==> LevelFor(c, x.know, s, x.units[f]))
  }

  lemma LevelStays(c: Level, x: Setting, s: Store, next: Store, f: string, g: string)
    requires FuncAtLevel(c, x, s, g) && Clear(c, Lookup(next, f))
    requires forall h :: h != f ==> Lookup(next, h) == Lookup(s, h)
    ensures FuncAtLevel(c, x, next, g)
  {
  }

  /** Analysing one of the functions keeps the level, and specifications climb
      if it changes any. */
  lemma AnalysisKeepsLevel(c: Level, x: Setting, s: Store, funcs: seq<string>, f: string)
    requires AtLevel(c, x, s, funcs) && f in funcs
    ensures var next := AnalyzedIn(x, s, f);
            && AtLevel(c, x, next, funcs)
            && Climbed(s, funcs) <= Climbed(next, funcs)
            && (next != s ==> Climbed(s, funcs) < Climbed(next, funcs))
            && (forall g :: g != f ==> Lookup(next, g) == Lookup(s, g))
  {
    var next := AnalyzedIn(x, s, f);
    assert FuncAtLevel(c, x, s, f);
    AnalysisClimbs(c, x.env, x.know, x.units, s, f);
    forall g | g in funcs ensures FuncAtLevel(c, x, next, g) {
      LevelStays(c, x, s, next, f, g);
    }
    ClimbedGrows(s, next, funcs);
  }

  /** What holds of store `now` after analysing funcs[..i], from `start`. */
  ghost predicate SweptTo(c: Level, x: Setting, start: Store, now: Store, funcs: seq<string>, i: nat) {
    && i <= |funcs| && AtLevel(c, x, now, funcs) && Climbed(start, funcs) <= Climbed(now, funcs)
    && (now == start || Climbed(start, funcs) < Climbed(now, funcs))
    && (now == start ==> AllSettled(x, start, funcs[..i]))
    && (forall g :: g !in funcs ==> Lookup(now, g) == Lookup(start, g))
  }

  lemma SweptOneMore(c: Level, x: Setting, start: Store, now: Store, funcs: seq<string>, i: nat)
    requires i < |funcs| && SweptTo(c, x, start, now, funcs, i)
    ensures SweptTo(c, x, start, AnalyzedIn(x, now, funcs[i]), funcs, i + 1)
  {
    AnalysisKeepsLevel(c, x, now, funcs, funcs[i]);
    assert forall f :: f in funcs[..i + 1] ==> f in funcs[..i] || f == funcs[i];
  }

  lemma {:induction false} SweepClimbs(c: Level, x: Setting, s: Store, funcs: seq<string>, i: nat)
    requires AtLevel(c, x, s, funcs) && i <= |funcs|
    ensures SweptTo(c, x, s, SweepOf(x, s, funcs[..i]), funcs, i)
  {
    if i > 0 {
      SweepClimbs(c, x, s, funcs, i - 1);
      assert funcs[..i][..i - 1] == funcs[..i - 1];
      SweptOneMore(c, x, s, SweepOf(x, s, funcs[..i - 1]), funcs, i - 1);
    }
  }

  /** A sweep finds everything settled, or specifications climb. */
  lemma SweepOrSettled(c: Level, x: Setting, s: Store, funcs: seq<string>)
    requires AtLevel(c, x, s, funcs)
    ensures AtLevel(c, x, SweepOf(x, s, funcs), funcs)
    ensures AllSettled(x, s, funcs) || Climbed(s, funcs) < Climbed(SweepOf(x, s, funcs), funcs)
  {
    SweepClimbs(c, x, s, funcs, |funcs|);
    assert funcs[..|funcs|] == funcs;
  }

  lemma AtMostThree(c: Level, x: Setting, s: Store, funcs: seq<string>)
    requires AtLevel(c, x, s, funcs)
    ensures Climbed(s, funcs) <= 3 * |funcs|
  {
    forall f | f in funcs ensures Rank(Lookup(s, f)) <= 3 {
      assert FuncAtLevel(c, x, s, f);
      InsideRank(x.env, s, f);
    }
    ClimbedBound(s, funcs);
  }

  lemma {:induction false} ClimbsUntilSettled(c: Level, x: Setting, s: Store, funcs: seq<string>, n: nat)
    requires AtLevel(c, x, s, funcs)
    ensures AtLevel(c, x, After(x, s, funcs, n), funcs)
    ensures EndsWithin(x, s, funcs, n) || Climbed(After(x, s, funcs, n), funcs) >= n
  {
    if n > 0 {
      ClimbsUntilSettled(c, x, s, funcs, n - 1);
      var before := After(x, s, funcs, n - 1);
      SweepOrSettled(c, x, before, funcs);
      if AllSettled(x, before, funcs) { assert SettledAfter(x, s, funcs, n - 1); }
    }
  }

  /** At one level of confidence, whichever it is, the loop over n functions
      ends within 3n + 1 sweeps. */
  lemma OneLevelEnds(c: Level, x: Setting, s: Store, funcs: seq<string>)
    requires AtLevel(c, x, s, funcs)
    ensures EndsWithin(x, s, funcs, 3 * |funcs| + 1)
  {
    var n := 3 * |funcs| + 1;
    ClimbsUntilSettled(c, x, s, funcs, n);
    AtMostThree(c, x, After(x, s, funcs, n), funcs);
  }
}
