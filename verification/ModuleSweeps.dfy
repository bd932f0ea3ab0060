/** What visiting one component after the other, callees first, leaves settled
    (eesi/src/error_blocks_pass.cc:149-257). */
module ModuleSweeps {
  import opened IR
  import opened CallGraph
  import opened Confidence
  import opened Specifications
  import opened ErrorBlocks
  import opened ComponentSweeps

  ghost function Defined(x: Setting): Module {
    map f | f in x.units :: x.units[f].fn
  }

  /** Neither f nor a function of its component that f calls was expanded. */
  ghost predicate Untouched(x: Setting, expanded: set<string>, nodes: seq<string>, f: string) {
    f !in expanded && (f in x.units ==> forall g :: g in Callees(x.units[f].fn) && g in nodes ==> g !in expanded)
  }

  /** Analysing again any function of the first i components would change
      nothing, unless it was touched by expansion. */
  ghost predicate SettledBut(x: Setting, s: Store, sccs: seq<Scc>, i: nat, expanded: set<string>)
    requires SettingOk(x) && i <= |sccs|
  {
    forall j: nat, f :: j < i && f in sccs[j].nodes && Untouched(x, expanded, sccs[j].nodes, f) ==>
      AnalyzedIn(x, s, f) == s
  }

  /** Nothing is known yet of functions from component i on, unless it was
      given. */
  ghost predicate NewFrom(x: Setting, s: Store, sccs: seq<Scc>, i: nat) {
    forall j: nat, f :: i <= j < |sccs| && f in sccs[j].nodes && f in s ==> f in x.env.initial
  }

  /** The functions of the component that can be given a specification. */
  ghost predicate FunctionsOf(x: Setting, scc: Scc, funcs: seq<string>) {
    forall f :: f in funcs <==> f in scc.nodes && !Ignore(x.env, f)
  }

  lemma NoLoopIsIndependent(x: Setting, sccs: seq<Scc>, i: nat, funcs: seq<string>)
    requires BottomUp(Defined(x), sccs) && i < |sccs| && !sccs[i].hasLoop && FunctionsOf(x, sccs[i], funcs)
    ensures Independent(x.units, funcs)
  {
    NoLoopIsApart(Defined(x), sccs, i);
  }

  lemma EarlierStays(x: Setting, before: Store, now: Store, sccs: seq<Scc>, i: nat, j: nat, f: string)
    requires SettingOk(x) && BottomUp(Defined(x), sccs) && j < i < |sccs| && f in sccs[j].nodes
    requires AnalyzedIn(x, before, f) == before
    requires forall g :: g !in sccs[i].nodes ==> SameAt(before, now, g)
    ensures AnalyzedIn(x, now, f) == now
  {
    forall g | f in x.units && g in Callees(x.units[f].fn) ensures g !in sccs[i].nodes {
      assert !CallsInto(Defined(x), sccs, f, j, g, i);
    }
    assert f !in sccs[i].nodes;
    SettledStays(x.env, x.know, x.units, before, now, f);
  }

  /** Visiting a component leaves the components before it settled. */
  lemma EarlierStaySettled(x: Setting, before: Store, now: Store, sccs: seq<Scc>, i: nat,
                           expanded: set<string>, more: set<string>)
    requires SettingOk(x) && BottomUp(Defined(x), sccs) && i < |sccs|
    requires SettledBut(x, before, sccs, i, expanded)
    requires forall g :: g !in sccs[i].nodes ==> SameAt(before, now, g)
    ensures SettledBut(x, now, sccs, i, expanded + more)
  {
    forall j: nat, f | j < i && f in sccs[j].nodes && Untouched(x, expanded + more, sccs[j].nodes, f)
      ensures AnalyzedIn(x, now, f) == now
    {
      assert Untouched(x, expanded, sccs[j].nodes, f);
      EarlierStays(x, before, now, sccs, i, j, f);
    }
  }

  /** A component without a loop is settled by one sweep when it is first met. */
  lemma OneSweepSettles(x: Setting, s: Store, sccs: seq<Scc>, i: nat, funcs: seq<string>)
    requires SettingOk(x) && BottomUp(Defined(x), sccs) && i < |sccs| && !sccs[i].hasLoop
    requires FunctionsOf(x, sccs[i], funcs) && NewFrom(x, s, sccs, i)
    ensures AllSettled(x, After(x, s, funcs, 1), funcs)
  {
    NoLoopIsIndependent(x, sccs, i, funcs);
    assert forall f :: f in funcs ==> f !in s;
    FirstSweepSettles(x, s, funcs, |funcs|);
    assert funcs[..|funcs|] == funcs;
    NextSweep(x, s, funcs, 0);
  }

  /** Expansion leaves those functions of the component settled that it does not
      touch. */
  lemma ExpansionLeavesSettled(x: Setting, mid: Store, now: Store, scc: Scc, funcs: seq<string>,
                               expanded: set<string>, more: set<string>, f: string)
    requires SettingOk(x) && FunctionsOf(x, scc, funcs) && AllSettled(x, mid, funcs)
    requires forall g :: g !in more ==> SameAt(mid, now, g)
    requires forall g :: g in more ==> g in scc.nodes
    requires f in scc.nodes && Untouched(x, expanded + more, scc.nodes, f)
    ensures AnalyzedIn(x, now, f) == now
  {
    if f in funcs {
      SettledStays(x.env, x.know, x.units, mid, now, f);
    }
  }

  /** After visiting and expanding component i, one more component is settled. */
  lemma OneMoreSettled(x: Setting, before: Store, mid: Store, now: Store, sccs: seq<Scc>, i: nat, funcs: seq<string>,
                       expanded: set<string>, more: set<string>)
    requires SettingOk(x) && BottomUp(Defined(x), sccs) && i < |sccs| && FunctionsOf(x, sccs[i], funcs)
    requires SettledBut(x, before, sccs, i, expanded) && AllSettled(x, mid, funcs)
    requires forall g :: g !in funcs ==> SameAt(before, mid, g)
    requires forall g :: g !in more ==> SameAt(mid, now, g)
    requires forall g :: g in more ==> g in sccs[i].nodes
    ensures SettledBut(x, now, sccs, i + 1, expanded + more)
  {
    EarlierStaySettled(x, before, now, sccs, i, expanded, more);
    forall f | f in sccs[i].nodes && Untouched(x, expanded + more, sccs[i].nodes, f)
      ensures AnalyzedIn(x, now, f) == now
    {
      ExpansionLeavesSettled(x, mid, now, sccs[i], funcs, expanded, more, f);
    }
  }

  lemma OneMoreKnown(x: Setting, before: Store, mid: Store, now: Store, sccs: seq<Scc>, i: nat, funcs: seq<string>,
                     more: set<string>)
    requires BottomUp(Defined(x), sccs) && i < |sccs| && FunctionsOf(x, sccs[i], funcs) && NewFrom(x, before, sccs, i)
    requires forall g :: g !in funcs ==> SameAt(before, mid, g)
    requires forall g :: g !in more ==> SameAt(mid, now, g)
    requires forall g :: g in more ==> g in sccs[i].nodes
    ensures NewFrom(x, now, sccs, i + 1)
  {
    forall j: nat, f | i + 1 <= j < |sccs| && f in sccs[j].nodes && f in now ensures f in x.env.initial {
      assert f !in sccs[i].nodes;
      assert SameAt(before, mid, f) && SameAt(mid, now, f);
    }
  }

  // ----- Expansion -----

  /** What can be stored of what the synonyms of functions suggest for them. */
  function Suggested(env: Env, expansions: map<string, Spec>): Store {
    map f | f in expansions && !Ignore(env, f) && Refit(UNKNOWN, expansions[f], RangeFor(env, f)).Some?
      :: Refit(UNKNOWN, expansions[f], RangeFor(env, f)).value
  }

  lemma SuggestedAreKnown(env: Env, expansions: map<string, Spec>)
    ensures forall f :: f in Suggested(env, expansions) ==> !IsUnknown(Suggested(env, expansions)[f])
  {
  }

  /** Of these functions, exactly those were expanded of which nothing was known
      and something is suggested, and nothing else changed. */
  ghost predicate ExpandedBy(before: Store, now: Store, suggested: Store, funcs: seq<string>, expanded: set<string>) {
    && (forall f :: f in expanded <==> f in funcs && IsUnknown(Lookup(before, f)) && f in suggested)
    && (forall f :: f in expanded ==> f in now && now[f] == suggested[f])
    && (forall g :: g !in expanded ==> SameAt(before, now, g))
  }

  lemma ExpandOneMore(before: Store, now: Store, suggested: Store, funcs: seq<string>, i: nat, expanded: set<string>)
    requires i < |funcs| && ExpandedBy(before, now, suggested, funcs[..i], expanded)
    requires forall f :: f in suggested ==> !IsUnknown(suggested[f])
    ensures var f := funcs[i];
            if IsUnknown(Lookup(now, f)) && f in suggested
            then ExpandedBy(before, now[f := suggested[f]], suggested, funcs[..i + 1], expanded + {f})
            else ExpandedBy(before, now, suggested, funcs[..i + 1], expanded)
  {
    assert forall g :: g in funcs[..i + 1] <==> g in funcs[..i] || g == funcs[i];
  }

  lemma ExpandedHaveLevel(c: Level, env: Env, before: Store, now: Store, expansions: map<string, Spec>,
                          funcs: seq<string>, expanded: set<string>)
    requires StoreLevel(c, before) && StoreLevel(c, expansions)
    requires ExpandedBy(before, now, Suggested(env, expansions), funcs, expanded)
    ensures StoreLevel(c, now)
  {
    forall f | f in now ensures OneLevel(c, now[f]) {
      if f in expanded {
        RefitKeepsLevel(c, UNKNOWN, expansions[f], RangeFor(env, f));
      } else {
        assert SameAt(before, now, f);
      }
    }
  }

  /** Expanded functions have what was suggested for them, and do not belong to
      the components from i on. */
  ghost predicate AsSuggested(s: Store, suggested: Store, sccs: seq<Scc>, i: nat, expanded: set<string>) {
    forall f :: f in expanded ==>
      f in suggested && f in s && s[f] == suggested[f] && forall j :: i <= j < |sccs| ==> f !in sccs[j].nodes
  }

  lemma ExpandedStay(x: Setting, before: Store, mid: Store, now: Store, suggested: Store, sccs: seq<Scc>, i: nat,
                     funcs: seq<string>, expanded: set<string>, more: set<string>)
    requires BottomUp(Defined(x), sccs) && i < |sccs| && FunctionsOf(x, sccs[i], funcs)
    requires AsSuggested(before, suggested, sccs, i, expanded)
    requires forall g :: g !in funcs ==> SameAt(before, mid, g)
    requires ExpandedBy(mid, now, suggested, funcs, more)
    ensures AsSuggested(now, suggested, sccs, i + 1, expanded + more)
  {
    forall f | f in expanded + more
      ensures f in suggested && f in now && now[f] == suggested[f]
      ensures forall j :: i + 1 <= j < |sccs| ==> f !in sccs[j].nodes
    {
      if f !in more {
        assert f !in sccs[i].nodes && SameAt(before, mid, f) && SameAt(mid, now, f);
      }
    }
  }

  // ----- One component further -----

  /** The functions that can be given a specification, in order. */
  function Eligible(env: Env, nodes: seq<string>): seq<string> {
    if nodes == [] then []
    else
      var f := nodes[|nodes| - 1];
      Eligible(env, nodes[..|nodes| - 1]) + (if Ignore(env, f) then [] else [f])
  }

  lemma {:induction false} EligibleAre(env: Env, nodes: seq<string>)
    ensures forall f :: f in Eligible(env, nodes) <==> f in nodes && !Ignore(env, f)
  {
    if nodes != [] {
      EligibleAre(env, nodes[..|nodes| - 1]);
      assert forall f :: f in nodes <==> f in nodes[..|nodes| - 1] || f == nodes[|nodes| - 1];
    }
  }

  /** The loop over these functions leads from store s to store mid. */
  ghost predicate Visited(x: Setting, s: Store, mid: Store, funcs: seq<string>, hasLoop: bool)
    requires SettingOk(x)
  {
    exists n: nat :: mid == After(x, s, funcs, n) && if hasLoop then EndsAt(x, s, funcs, n) else n == 1
  }

  /** And expansion leads from there to store now. */
  ghost predicate Moves(x: Setting, s: Store, now: Store, scc: Scc, expansions: map<string, Spec>)
    requires SettingOk(x)
  {
    exists mid, expanded :: Visited(x, s, mid, Eligible(x.env, scc.nodes), scc.hasLoop)
                            && ExpandedBy(mid, now, Suggested(x.env, expansions), Eligible(x.env, scc.nodes), expanded)
  }

  /** Every loop that the pass comes to, from component i on, ends. */
  ghost predicate LoopsEnd(x: Setting, s: Store, sccs: seq<Scc>, i: nat, expansions: map<string, Spec>)
    requires SettingOk(x)
    decreases |sccs| - i
  {
    i < |sccs| ==>
      && (sccs[i].hasLoop ==> Ends(x, s, Eligible(x.env, sccs[i].nodes)))
      && forall now {:trigger Moves(x, s, now, sccs[i], expansions)} ::
           Moves(x, s, now, sccs[i], expansions) ==> LoopsEnd(x, now, sccs, i + 1, expansions)
  }

  lemma VisitFrame(x: Setting, s: Store, mid: Store, funcs: seq<string>, hasLoop: bool)
    requires SettingOk(x) && Visited(x, s, mid, funcs, hasLoop)
    ensures forall g :: g !in funcs ==> SameAt(s, mid, g)
  {
    var n: nat :| mid == After(x, s, funcs, n);
    AfterFrame(x, s, funcs, n);
  }

  /** Without recursion there is nothing to ask. */
  lemma {:induction false} NoLoopsEnd(x: Setting, s: Store, sccs: seq<Scc>, i: nat, expansions: map<string, Spec>)
    requires SettingOk(x) && forall j :: i <= j < |sccs| ==> !sccs[j].hasLoop
    ensures LoopsEnd(x, s, sccs, i, expansions)
    decreases |sccs| - i
  {
    if i < |sccs| {
      forall now | Moves(x, s, now, sccs[i], expansions) ensures LoopsEnd(x, now, sccs, i + 1, expansions) {
        NoLoopsEnd(x, now, sccs, i + 1, expansions);
      }
    }
  }

  // ----- Levels -----

  /** All confidence that a run can bring in has the level c. */
  ghost predicate Levelled(c: Level, x: Setting, expansions: map<string, Spec>) {
    StoreLevel(c, x.env.initial) && UnitsLevel(c, x) && StoreLevel(c, expansions)
  }

  lemma NewIsAtLevel(c: Level, x: Setting, s: Store, sccs: seq<Scc>, i: nat, funcs: seq<string>)
    requires SettingOk(x) && StoreOk(x.env, s) && StoreLevel(c, s) && UnitsLevel(c, x)
    requires i < |sccs| && FunctionsOf(x, sccs[i], funcs) && NewFrom(x, s, sccs, i)
    ensures AtLevel(c, x, s, funcs)
  {
    forall f | f in funcs ensures FuncAtLevel(c, x, s, f) {
      assert f !in s;
    }
  }

  /** The store is as it should be before component i is visited. */
  ghost predicate LevelBefore(c: Level, x: Setting, s: Store, sccs: seq<Scc>, i: nat) {
    StoreOk(x.env, s) && StoreLevel(c, s) && NewFrom(x, s, sccs, i)
  }

  lemma ExpansionKeepsOk(env: Env, mid: Store, now: Store, expansions: map<string, Spec>, funcs: seq<string>,
                         expanded: set<string>)
    requires StoreOk(env, mid) && ExpandedBy(mid, now, Suggested(env, expansions), funcs, expanded)
    ensures StoreOk(env, now)
  {
    forall f | f in now && f !in env.initial
      ensures f !in env.void && !IsUnknown(now[f]) && StrictlyInside(now[f], RangeFor(env, f))
    {
      if f in expanded {
        assert f in Suggested(env, expansions);
        RefitInside(UNKNOWN, expansions[f], RangeFor(env, f));
      } else {
        assert SameAt(mid, now, f);
      }
    }
    forall f | f in env.initial ensures f in now && now[f] == env.initial[f] {
      assert f !in Suggested(env, expansions) && SameAt(mid, now, f);
    }
  }

  lemma MoveKeepsLevel(c: Level, x: Setting, s: Store, now: Store, sccs: seq<Scc>, i: nat,
                       expansions: map<string, Spec>)
    requires SettingOk(x) && BottomUp(Defined(x), sccs) && i < |sccs| && Levelled(c, x, expansions)
    requires LevelBefore(c, x, s, sccs, i) && Moves(x, s, now, sccs[i], expansions)
    ensures LevelBefore(c, x, now, sccs, i + 1)
  {
    var funcs, hasLoop := Eligible(x.env, sccs[i].nodes), sccs[i].hasLoop;
    var mid, expanded :| Visited(x, s, mid, funcs, hasLoop)
                         && ExpandedBy(mid, now, Suggested(x.env, expansions), funcs, expanded);
    var n: nat :| mid == After(x, s, funcs, n);
    EligibleAre(x.env, sccs[i].nodes);
    AfterKeepsOk(x, s, funcs, n);
    AfterKeepsStoreLevel(c, x, s, funcs, n);
    AfterFrame(x, s, funcs, n);
    ExpansionKeepsOk(x.env, mid, now, expansions, funcs, expanded);
    ExpandedHaveLevel(c, x.env, mid, now, expansions, funcs, expanded);
    OneMoreKnown(x, s, mid, now, sccs, i, funcs, expanded);
  }

  /** The store has every level that all confidence has. */
  ghost predicate KeepsToLevels(x: Setting, s: Store, expansions: map<string, Spec>) {
    forall c: Level {:trigger Levelled(c, x, expansions)} :: Levelled(c, x, expansions) ==> StoreLevel(c, s)
  }

  lemma MoveKeepsToLevels(x: Setting, s: Store, now: Store, sccs: seq<Scc>, i: nat, expansions: map<string, Spec>)
    requires SettingOk(x) && BottomUp(Defined(x), sccs) && i < |sccs| && StoreOk(x.env, s) && NewFrom(x, s, sccs, i)
    requires KeepsToLevels(x, s, expansions) && Moves(x, s, now, sccs[i], expansions)
    ensures KeepsToLevels(x, now, expansions)
  {
    forall c: Level | Levelled(c, x, expansions) ensures StoreLevel(c, now) {
      MoveKeepsLevel(c, x, s, now, sccs, i, expansions);
    }
  }

  /** At one level of confidence, every loop that the pass comes to ends. */
  lemma {:induction false} LevelledLoopsEnd(c: Level, x: Setting, s: Store, sccs: seq<Scc>, i: nat,
                                            expansions: map<string, Spec>)
    requires SettingOk(x) && BottomUp(Defined(x), sccs) && Levelled(c, x, expansions) && LevelBefore(c, x, s, sccs, i)
    ensures LoopsEnd(x, s, sccs, i, expansions)
    decreases |sccs| - i
  {
    if i < |sccs| {
      var funcs := Eligible(x.env, sccs[i].nodes);
      EligibleAre(x.env, sccs[i].nodes);
      NewIsAtLevel(c, x, s, sccs, i, funcs);
      OneLevelEnds(c, x, s, funcs);
      forall now | Moves(x, s, now, sccs[i], expansions) ensures LoopsEnd(x, now, sccs, i + 1, expansions) {
        MoveKeepsLevel(c, x, s, now, sccs, i, expansions);
        LevelledLoopsEnd(c, x, now, sccs, i + 1, expansions);
      }
    }
  }
}
