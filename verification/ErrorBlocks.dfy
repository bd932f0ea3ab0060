/** Error specifications inferred from blocks that execute on an error: the
    pass of eesi/src/error_blocks_pass.cc, without the heuristic that treats
    zero as a success code. */
module ErrorBlocks {
  import opened IR
  import opened CallGraph
  import opened Signs
  import opened Confidence
  import opened Specifications
  import opened Shapes
  import opened Sweep
  import Returned = ReturnedValues
  import Propagation = ReturnPropagation
  import Constraints = ReturnConstraints

  /** Domain knowledge: functions called only on errors, and the return codes
      that mean error or success, for all files or for those whose name
      contains one of the given parts. */
  datatype Knowledge = Knowledge(
    errorOnly: set<string>, errorCodes: map<int, set<string>>, successCodes: map<int, set<string>>)

  /** A function with the facts of the other passes.  `errorOnlyCalls` are the
      calls that match the description of an error-only function, `effects`
      those that yield neither an integer nor a pointer. */
  datatype Unit = Unit(
    name: string,
    fn: Func,
    returned: State<Returned.Fact>,
    propagated: State<Propagation.Fact>,
    constrained: State<Constraints.Names>,
    errorOnlyCalls: set<Point>,
    effects: set<Point>,
    files: map<Point, string>)

  ghost predicate UnitOk(u: Unit) {
    && WellFormed(u.fn)
    && Covers(u.fn, u.returned) && Covers(u.fn, u.propagated) && Covers(u.fn, u.constrained)
    // Constraints are on functions that are called, or on "" for other calls.
    && (forall b, f ::
          0 <= b < |u.fn.blocks| && |u.fn.blocks[b]| > 0 && f in u.constrained.body[b][|u.fn.blocks[b]| - 1] ==>
            f == "" || f in Callees(u.fn))
  }

  predicate IsCode(codes: map<int, set<string>>, value: int, file: string) {
    value in codes && (codes[value] == {} || exists part :: part in codes[value] && Returned.Contains(file, part))
  }

  function FileAt(u: Unit, at: Point): string {
    if at in u.files then u.files[at] else ""
  }

  // ----- What a block contributes -----

  /** Confidence `c` in the sign of v alone. */
  function Single(v: int, c: Level, emptyset: Level): Spec {
    if v == 0 then Spec(c, MIN, MIN, emptyset)
    else if v > 0 then Spec(MIN, MIN, c, emptyset)
    else Spec(MIN, c, MIN, emptyset)
  }

  function ErrorValue(know: Knowledge, f: string, v: int): Spec {
    if f in know.errorOnly then EMPTYSET else Single(v, MAX, MIN)
  }

  /** What returning v after an error-only call tells. */
  function ErrorOnlyTerm(know: Knowledge, u: Unit, at: Point, v: Value): Option<Spec> {
    match v
    case Bool(b) => Some(FromSign(if b then NotZero else Sign.Zero, MIN))
    case Int(n) => if IsCode(know.successCodes, n, FileAt(u, at)) then None else Some(ErrorValue(know, u.name, n))
    case NullPointer => Some(ErrorValue(know, u.name, 0))
    case _ => None
  }

  /** Any other call: nothing is known, unless the callee never fails. */
  function OrdinaryCall(s: Store, u: Unit, at: Point): Spec
    requires InFunc(u.fn, at) && At(u.fn, at).Call?
  {
    var callee := Constraints.CalleeName(At(u.fn, at).callee);
    if callee == "" then (if at in u.effects then EMPTYSET else UNKNOWN)
    else if IsEmptyset(Lookup(s, callee)) then EMPTYSET else UNKNOWN
  }

  ghost function CallTerms(know: Knowledge, s: Store, u: Unit, at: Point): set<Spec>
    requires UnitOk(u) && InFunc(u.fn, at) && At(u.fn, at).Call?
  {
    if at in u.errorOnlyCalls then
      {EMPTYSET} + (set v | v in Returned.InFact(u.returned, at) && ErrorOnlyTerm(know, u, at, v).Some?
                      :: ErrorOnlyTerm(know, u, at, v).value)
    else {OrdinaryCall(s, u, at)}
  }

  ghost function CallSpec(know: Knowledge, s: Store, u: Unit, at: Point): Spec
    requires UnitOk(u) && InFunc(u.fn, at) && At(u.fn, at).Call?
  {
    JoinOf(CallTerms(know, s, u, at))
  }

  /** Returning a constant where the constraining call's error specification,
      cut down to the constraint, is `cut`. */
  function ConstantReturn(v: Value, cut: Spec): Spec {
    var c := GetMax(cut);
    match v
    case Bool(b) => if b then Spec(MIN, c, c, cut.emptyset) else Spec(c, MIN, MIN, cut.emptyset)
    case Int(n) => Single(n, c, cut.emptyset)
    case NullPointer => Spec(c, MIN, MIN, cut.emptyset)
    case Literal(_) => Spec(MIN, c, c, cut.emptyset)
    case _ => UNKNOWN
  }

  /** Returning the result of a call of `callee` where `f` is constrained. */
  function CalleeReturn(s: Store, callee: string, f: string, cut: Spec, otherwise: Spec): Spec {
    var spec := if callee == "" then UNKNOWN else Lookup(s, callee);
    if IsUnknown(spec) then otherwise
    else if callee == f then Confidence.Meet(spec, cut) else spec
  }

  /** Returning a variable that holds w. */
  function HeldReturn(s: Store, u: Unit, w: Value, f: string, cut: Spec, otherwise: Spec): Spec {
    if IsConstantInt(w) then Single(ConstantValue(w), GetMax(cut), cut.emptyset)
    else if w.NullPointer? then Spec(GetMax(cut), MIN, MIN, cut.emptyset)
    else if w.Reg? && InFunc(u.fn, w.at) && At(u.fn, w.at).Call?
    then CalleeReturn(s, Constraints.CalleeName(At(u.fn, w.at).callee), f, cut, otherwise)
    else otherwise
  }

  /** What returning rv from block b tells where f's result satisfies `elem`;
      nothing, if the result is unknown. */
  ghost function ReturnTerm(s: Store, u: Unit, b: nat, rv: Value, f: string, elem: Sign, cut: Spec): Spec
    requires UnitOk(u) && b < |u.fn.blocks| && |u.fn.blocks[b]| > 0
  {
    var constant := if elem != Top then ConstantReturn(rv, cut) else UNKNOWN;
    var held := u.propagated.body[b][|u.fn.blocks[b]| - 1];
    if rv.Reg? && InFunc(u.fn, rv.at) && At(u.fn, rv.at).Call?
    then CalleeReturn(s, Constraints.CalleeName(At(u.fn, rv.at).callee), f, cut, constant)
    else if rv !in held || held[rv] == {} then constant
    else if |held[rv]| > 1 then UNKNOWN
    else var w :| w in held[rv]; HeldReturn(s, u, w, f, cut, constant)
  }

  /** What the constraint on f tells about returning rv from block b. */
  ghost function ConstraintTerm(s: Store, u: Unit, b: nat, rv: Value, f: string): Option<Spec>
    requires UnitOk(u) && b < |u.fn.blocks| && |u.fn.blocks[b]| > 0
    requires f in u.constrained.body[b][|u.fn.blocks[b]| - 1]
  {
    var elem := u.constrained.body[b][|u.fn.blocks[b]| - 1][f];
    var cut := Intersection(Lookup(s, f), elem);
    if IsUnknown(cut) || IsEmptyset(cut) then Some(cut) else
    var r := ReturnTerm(s, u, b, rv, f, elem, cut);
    if IsUnknown(r) then None else Some(r)
  }

  ghost function ConstraintTerms(s: Store, u: Unit, b: nat, rv: Value): set<Spec>
    requires UnitOk(u) && b < |u.fn.blocks| && |u.fn.blocks[b]| > 0
  {
    set f | f in u.constrained.body[b][|u.fn.blocks[b]| - 1] && f != "" && ConstraintTerm(s, u, b, rv, f).Some?
      :: ConstraintTerm(s, u, b, rv, f).value
  }

  ghost function BlockCallTerms(know: Knowledge, s: Store, u: Unit, b: nat, n: nat): set<Spec>
    requires UnitOk(u) && b < |u.fn.blocks| && n <= |u.fn.blocks[b]|
  {
    {EMPTYSET} + set i | 0 <= i < n && u.fn.blocks[b][i].Call? :: CallSpec(know, s, u, Point(b, i))
  }

  /** Everything block b contributes.  Returned values count only if just one
      can be returned from its start. */
  ghost function BlockTerms(know: Knowledge, s: Store, u: Unit, b: nat): set<Spec>
    requires UnitOk(u) && b < |u.fn.blocks| && |u.fn.blocks[b]| > 0
  {
    var calls := BlockCallTerms(know, s, u, b, |u.fn.blocks[b]|);
    var values := u.returned.body[b][0];
    if |values| != 1 then calls else
    var rv :| rv in values;
    if IsConstantInt(rv) && IsCode(know.errorCodes, ConstantValue(rv), FileAt(u, Point(b, 0)))
    then calls + {ErrorValue(know, u.name, ConstantValue(rv))} + ConstraintTerms(s, u, b, rv)
    else if IsConstantInt(rv) && IsCode(know.successCodes, ConstantValue(rv), FileAt(u, Point(b, 0)))
    then calls
    else calls + ConstraintTerms(s, u, b, rv)
  }

  ghost function BlockSpec(know: Knowledge, s: Store, u: Unit, b: nat): Spec
    requires UnitOk(u) && b < |u.fn.blocks|
  {
    assert BlockOk(u.fn, u.fn.blocks[b]);
    JoinOf(BlockTerms(know, s, u, b))
  }

  /** The specifications of the blocks 0..n that may fail. */
  ghost function FailingBlocks(know: Knowledge, s: Store, u: Unit, n: nat): set<Spec>
    requires UnitOk(u) && n <= |u.fn.blocks|
  {
    set b: nat | b < n && !IsEmptyset(BlockSpec(know, s, u, b)) :: BlockSpec(know, s, u, b)
  }

  /** What the blocks of a function tell about it. */
  ghost function FunctionSpec(know: Knowledge, s: Store, u: Unit): Spec
    requires UnitOk(u)
  {
    var failing := FailingBlocks(know, s, u, |u.fn.blocks|);
    if failing == {} then EMPTYSET else JoinOf({UNKNOWN} + failing)
  }

  ghost predicate UnitsOk(units: map<string, Unit>) {
    forall f :: f in units ==> units[f].name == f && UnitOk(units[f])
  }

  /** The store after analysing f; functions without a body are left alone. */
  ghost function Analyzed(env: Env, know: Knowledge, units: map<string, Unit>, s: Store, f: string): Store
    requires UnitsOk(units)
  {
    if f in units then Updated(env, s, f, FunctionSpec(know, s, units[f])) else s
  }

  // ----- One level of confidence is kept -----

  /** Error codes and error-only calls count with full confidence. */
  predicate AddsCertainty(know: Knowledge, u: Unit) {
    know.errorCodes != map[] || u.errorOnlyCalls != {}
  }

  /** All that analysing u looks at has the level c. */
  ghost predicate LevelFor(c: Level, know: Knowledge, s: Store, u: Unit) {
    && (AddsCertainty(know, u) ==> c == MAX)
    && forall g :: g in Callees(u.fn) ==> OneLevel(c, Lookup(s, g))
  }

  ghost predicate AllLevel(c: Level, vs: set<Spec>) {
    forall v :: v in vs ==> OneLevel(c, v)
  }

  lemma {:induction false} JoinOfLevel(c: Level, vs: set<Spec>)
    requires vs != {} && AllLevel(c, vs)
    ensures OneLevel(c, JoinOf(vs))
    decreases |vs|
  {
    var v :| v in vs && JoinOf(vs) == if vs == {v} then v else Confidence.Join(JoinOf(vs - {v}), v);
    if vs != {v} {
      JoinOfLevel(c, vs - {v});
      LevelOperations(c, JoinOf(vs - {v}), v, Top);
    }
  }

  lemma CallHasLevel(c: Level, know: Knowledge, s: Store, u: Unit, at: Point)
    requires UnitOk(u) && LevelFor(c, know, s, u) && InFunc(u.fn, at) && At(u.fn, at).Call?
    ensures OneLevel(c, CallSpec(know, s, u, at))
  {
    forall v | v in CallTerms(know, s, u, at) ensures OneLevel(c, v) {}
    JoinOfLevel(c, CallTerms(know, s, u, at));
  }

  lemma ConstantHasLevel(c: Level, v: Value, cut: Spec)
    requires OneLevel(c, cut)
    ensures OneLevel(c, ConstantReturn(v, cut))
    ensures forall n :: OneLevel(c, Single(n, GetMax(cut), cut.emptyset))
  {
    LevelOperations(c, cut, cut, Top);
  }

  lemma CalleeHasLevel(c: Level, s: Store, callee: string, f: string, cut: Spec, otherwise: Spec)
    requires (callee == "" || OneLevel(c, Lookup(s, callee))) && OneLevel(c, otherwise) && OneLevel(c, cut)
    ensures OneLevel(c, CalleeReturn(s, callee, f, cut, otherwise))
  {
    if callee != "" { LevelOperations(c, Lookup(s, callee), cut, Top); }
  }

  lemma CalleeCalled(fn: Func, at: Point)
    requires InFunc(fn, at) && At(fn, at).Call?
    ensures var g := Constraints.CalleeName(At(fn, at).callee); g == "" || g in Callees(fn)
  {
    if At(fn, at).callee.Direct? {
      assert fn.blocks[at.block][at.index].callee.name in Callees(fn);
    }
  }

  lemma ReturnHasLevel(c: Level, know: Knowledge, s: Store, u: Unit, b: nat, rv: Value, f: string, elem: Sign,
                       cut: Spec)
    requires UnitOk(u) && LevelFor(c, know, s, u) && b < |u.fn.blocks| && |u.fn.blocks[b]| > 0 && OneLevel(c, cut)
    ensures OneLevel(c, ReturnTerm(s, u, b, rv, f, elem, cut))
  {
    ConstantHasLevel(c, rv, cut);
    var constant := if elem != Top then ConstantReturn(rv, cut) else UNKNOWN;
    forall at | InFunc(u.fn, at) && At(u.fn, at).Call?
      ensures OneLevel(c, CalleeReturn(s, Constraints.CalleeName(At(u.fn, at).callee), f, cut, constant))
    {
      CalleeCalled(u.fn, at);
      CalleeHasLevel(c, s, Constraints.CalleeName(At(u.fn, at).callee), f, cut, constant);
    }
    forall w ensures OneLevel(c, HeldReturn(s, u, w, f, cut, constant)) {
      ConstantHasLevel(c, w, cut);
    }
  }

  lemma ConstraintHasLevel(c: Level, know: Knowledge, s: Store, u: Unit, b: nat, rv: Value, f: string)
    requires UnitOk(u) && LevelFor(c, know, s, u) && b < |u.fn.blocks| && |u.fn.blocks[b]| > 0
    requires f in u.constrained.body[b][|u.fn.blocks[b]| - 1] && f != ""
    ensures var term := ConstraintTerm(s, u, b, rv, f); term.Some? ==> OneLevel(c, term.value)
  {
    var elem := u.constrained.body[b][|u.fn.blocks[b]| - 1][f];
    var cut := Intersection(Lookup(s, f), elem);
    LevelOperations(c, Lookup(s, f), UNKNOWN, elem);
    ReturnHasLevel(c, know, s, u, b, rv, f, elem, cut);
  }

  lemma CallsHaveLevel(c: Level, know: Knowledge, s: Store, u: Unit, b: nat)
    requires UnitOk(u) && LevelFor(c, know, s, u) && b < |u.fn.blocks|
    ensures AllLevel(c, BlockCallTerms(know, s, u, b, |u.fn.blocks[b]|))
  {
    forall i | 0 <= i < |u.fn.blocks[b]| && u.fn.blocks[b][i].Call?
      ensures OneLevel(c, CallSpec(know, s, u, Point(b, i)))
    {
      CallHasLevel(c, know, s, u, Point(b, i));
    }
  }

  lemma ConstraintsHaveLevel(c: Level, know: Knowledge, s: Store, u: Unit, b: nat, rv: Value)
    requires UnitOk(u) && LevelFor(c, know, s, u) && b < |u.fn.blocks| && |u.fn.blocks[b]| > 0
    ensures AllLevel(c, ConstraintTerms(s, u, b, rv))
  {
    forall f | f in u.constrained.body[b][|u.fn.blocks[b]| - 1] && f != ""
      ensures var term := ConstraintTerm(s, u, b, rv, f); term.Some? ==> OneLevel(c, term.value)
    {
      ConstraintHasLevel(c, know, s, u, b, rv, f);
    }
  }

  lemma BlockHasLevel(c: Level, know: Knowledge, s: Store, u: Unit, b: nat)
    requires UnitOk(u) && LevelFor(c, know, s, u) && b < |u.fn.blocks|
    ensures OneLevel(c, BlockSpec(know, s, u, b))
  {
    assert BlockOk(u.fn, u.fn.blocks[b]);
    CallsHaveLevel(c, know, s, u, b);
    forall rv ensures AllLevel(c, ConstraintTerms(s, u, b, rv)) {
      ConstraintsHaveLevel(c, know, s, u, b, rv);
    }
    assert AllLevel(c, BlockTerms(know, s, u, b));
    JoinOfLevel(c, BlockTerms(know, s, u, b));
  }

  /** What is inferred for a function has the level of what it looks at, and
      leaves no doubt whether there are errors. */
  lemma FunctionIsClear(c: Level, know: Knowledge, s: Store, u: Unit)
    requires UnitOk(u) && LevelFor(c, know, s, u)
    ensures Clear(c, FunctionSpec(know, s, u))
  {
    var failing := FailingBlocks(know, s, u, |u.fn.blocks|);
    forall b: nat | b < |u.fn.blocks| ensures OneLevel(c, BlockSpec(know, s, u, b)) {
      BlockHasLevel(c, know, s, u, b);
    }
    if failing != {} {
      JoinOfLevel(c, {UNKNOWN} + failing);
      assert Confidence.Leq(UNKNOWN, JoinOf({UNKNOWN} + failing));
    }
  }

  // ----- How far the specifications of a component have climbed -----

  function Climbed(s: Store, fs: seq<string>): nat {
    if fs == [] then 0 else Climbed(s, fs[..|fs| - 1]) + Rank(Lookup(s, fs[|fs| - 1]))
  }

  lemma {:induction false} ClimbedGrows(s: Store, t: Store, fs: seq<string>)
    requires forall f :: f in fs ==> Rank(Lookup(s, f)) <= Rank(Lookup(t, f))
    ensures Climbed(s, fs) <= Climbed(t, fs)
    ensures (exists f :: f in fs && Rank(Lookup(s, f)) < Rank(Lookup(t, f))) ==> Climbed(s, fs) < Climbed(t, fs)
  {
    if fs != [] {
      ClimbedGrows(s, t, fs[..|fs| - 1]);
      if f :| f in fs && Rank(Lookup(s, f)) < Rank(Lookup(t, f)) {
        assert f in fs[..|fs| - 1] || f == fs[|fs| - 1];
      }
    }
  }

  lemma {:induction false} ClimbedBound(s: Store, fs: seq<string>)
    requires forall f :: f in fs ==> Rank(Lookup(s, f)) <= 3
    ensures Climbed(s, fs) <= 3 * |fs|
  {
    if fs != [] { ClimbedBound(s, fs[..|fs| - 1]); }
  }

  lemma InsideRank(env: Env, s: Store, f: string)
    requires StoreOk(env, s) && f !in env.initial
    ensures Rank(Lookup(s, f)) <= 3
  {
    if f in s {
      InsideMeans(s[f], RangeFor(env, f));
      RankBound(s[f]);
    }
  }

  lemma UpdateClimbs(c: Level, env: Env, s: Store, f: string, delta: Spec)
    requires StoreOk(env, s) && Clear(c, delta) && (!Ignore(env, f) ==> Clear(c, Lookup(s, f)))
    ensures var next := Updated(env, s, f, delta);
            && (!Ignore(env, f) ==> Clear(c, Lookup(next, f)))
            && (forall g :: g != f ==> Lookup(next, g) == Lookup(s, g))
            && (next == s || Rank(Lookup(s, f)) < Rank(Lookup(next, f)))
  {
    if !Ignore(env, f) {
      RefitClimbs(c, Lookup(s, f), delta, RangeFor(env, f));
      var refit := Refit(Lookup(s, f), delta, RangeFor(env, f));
      if refit.Some? {
        RefitInside(Lookup(s, f), delta, RangeFor(env, f));
        StoreClimbs(s, f, refit.value);
      }
    }
  }

  lemma StoreClimbs(s: Store, f: string, spec: Spec)
    requires !IsUnknown(spec) && (spec != Lookup(s, f) ==> Rank(Lookup(s, f)) < Rank(spec))
    ensures var next := s[f := spec];
            && Lookup(next, f) == spec
            && (forall g :: g != f ==> Lookup(next, g) == Lookup(s, g))
            && (next == s || Rank(Lookup(s, f)) < Rank(spec))
  {
    if spec == Lookup(s, f) { assert s[f := spec] == s; }
  }

  /** Analysing a function moves its specification up, or leaves everything. */
  lemma AnalysisClimbs(c: Level, env: Env, know: Knowledge, units: map<string, Unit>, s: Store, f: string)
    requires UnitsOk(units) && StoreOk(env, s) && (f in units ==> LevelFor(c, know, s, units[f]))
    requires !Ignore(env, f) ==> Clear(c, Lookup(s, f))
    ensures var next := Analyzed(env, know, units, s, f);
            && StoreOk(env, next) && (!Ignore(env, f) ==> Clear(c, Lookup(next, f)))
            && (forall g :: g != f ==> Lookup(next, g) == Lookup(s, g))
            && (next != s ==> Rank(Lookup(s, f)) < Rank(Lookup(next, f)))
  {
    if f in units {
      var delta := FunctionSpec(know, s, units[f]);
      FunctionIsClear(c, know, s, units[f]);
      UpdateKeeps(env, s, f, delta);
      UpdateClimbs(c, env, s, f, delta);
    }
  }

  // ----- A specification depends on the callees' specifications only -----

  ghost predicate Agree(u: Unit, s: Store, t: Store) {
    forall g :: g in Callees(u.fn) ==> Lookup(s, g) == Lookup(t, g)
  }

  lemma CallFrame(know: Knowledge, s: Store, t: Store, u: Unit, at: Point)
    requires UnitOk(u) && Agree(u, s, t) && InFunc(u.fn, at) && At(u.fn, at).Call?
    ensures CallSpec(know, s, u, at) == CallSpec(know, t, u, at)
  {
    CalleeCalled(u.fn, at);
    assert CallTerms(know, s, u, at) == CallTerms(know, t, u, at);
  }

  lemma ConstraintFrame(s: Store, t: Store, u: Unit, b: nat, rv: Value, f: string)
    requires UnitOk(u) && Agree(u, s, t) && b < |u.fn.blocks| && |u.fn.blocks[b]| > 0
    requires f in u.constrained.body[b][|u.fn.blocks[b]| - 1] && f != ""
    ensures ConstraintTerm(s, u, b, rv, f) == ConstraintTerm(t, u, b, rv, f)
  {
    forall at | InFunc(u.fn, at) && At(u.fn, at).Call?
      ensures var g := Constraints.CalleeName(At(u.fn, at).callee); g == "" || Lookup(s, g) == Lookup(t, g)
    {
      CalleeCalled(u.fn, at);
    }
  }

  lemma BlockCallsFrame(know: Knowledge, s: Store, t: Store, u: Unit, b: nat)
    requires UnitOk(u) && Agree(u, s, t) && b < |u.fn.blocks|
    ensures BlockCallTerms(know, s, u, b, |u.fn.blocks[b]|) == BlockCallTerms(know, t, u, b, |u.fn.blocks[b]|)
  {
    forall i | 0 <= i < |u.fn.blocks[b]| && u.fn.blocks[b][i].Call?
      ensures CallSpec(know, s, u, Point(b, i)) == CallSpec(know, t, u, Point(b, i))
    {
      CallFrame(know, s, t, u, Point(b, i));
    }
  }

  lemma ConstraintsFrame(s: Store, t: Store, u: Unit, b: nat, rv: Value)
    requires UnitOk(u) && Agree(u, s, t) && b < |u.fn.blocks| && |u.fn.blocks[b]| > 0
    ensures ConstraintTerms(s, u, b, rv) == ConstraintTerms(t, u, b, rv)
  {
    forall f | f in u.constrained.body[b][|u.fn.blocks[b]| - 1] && f != ""
      ensures ConstraintTerm(s, u, b, rv, f) == ConstraintTerm(t, u, b, rv, f)
    {
      ConstraintFrame(s, t, u, b, rv, f);
    }
  }

  lemma BlockFrame(know: Knowledge, s: Store, t: Store, u: Unit, b: nat)
    requires UnitOk(u) && Agree(u, s, t) && b < |u.fn.blocks|
    ensures BlockSpec(know, s, u, b) == BlockSpec(know, t, u, b)
  {
    assert BlockOk(u.fn, u.fn.blocks[b]);
    BlockCallsFrame(know, s, t, u, b);
    forall rv { ConstraintsFrame(s, t, u, b, rv); }
  }

  lemma FunctionFrame(know: Knowledge, s: Store, t: Store, u: Unit)
    requires UnitOk(u) && Agree(u, s, t)
    ensures FunctionSpec(know, s, u) == FunctionSpec(know, t, u)
  {
    forall b: nat | b < |u.fn.blocks| ensures BlockSpec(know, s, u, b) == BlockSpec(know, t, u, b) {
      BlockFrame(know, s, t, u, b);
    }
    var n := |u.fn.blocks|;
    assert FailingBlocks(know, s, u, n) == FailingBlocks(know, t, u, n);
  }

  // ----- Specifications that analysing again does not change -----

  ghost predicate Settled(env: Env, know: Knowledge, units: map<string, Unit>, s: Store, f: string)
    requires UnitsOk(units)
  {
    Analyzed(env, know, units, s, f) == s
  }

  predicate SameAt(s: Store, t: Store, f: string) {
    (f in s <==> f in t) && Lookup(s, f) == Lookup(t, f)
  }

  /** A settled function stays settled while its own specification and those
      of its callees stay. */
  lemma SettledStays(env: Env, know: Knowledge, units: map<string, Unit>, s: Store, t: Store, f: string)
    requires UnitsOk(units) && Settled(env, know, units, s, f) && SameAt(s, t, f)
    requires f in units ==> Agree(units[f], s, t)
    ensures Settled(env, know, units, t, f)
  {
    if f in units && !Ignore(env, f) {
      FunctionFrame(know, s, t, units[f]);
      var next := Refit(Lookup(s, f), FunctionSpec(know, s, units[f]), RangeFor(env, f));
      if next.Some? {
        assert f in s[f := next.value] && s[f := next.value][f] == next.value;
        assert t[f := next.value] == t;
      }
    }
  }

  lemma UpdateSettles(c: Level, env: Env, s: Store, f: string, delta: Spec)
    requires Clear(c, Lookup(s, f)) && Clear(c, delta)
    ensures var next := Updated(env, s, f, delta); Updated(env, next, f, delta) == next
  {
    if !Ignore(env, f) && Refit(Lookup(s, f), delta, RangeFor(env, f)).Some? {
      RefitTwice(c, Lookup(s, f), delta, RangeFor(env, f));
    }
  }

  /** A function that does not call itself is settled by one analysis. */
  lemma AnalysisSettles(c: Level, env: Env, know: Knowledge, units: map<string, Unit>, s: Store, f: string)
    requires UnitsOk(units) && (f in units ==> f !in Callees(units[f].fn) && LevelFor(c, know, s, units[f]))
    requires !Ignore(env, f) ==> Clear(c, Lookup(s, f))
    ensures Settled(env, know, units, Analyzed(env, know, units, s, f), f)
  {
    if f in units && !Ignore(env, f) {
      var delta := FunctionSpec(know, s, units[f]);
      FunctionIsClear(c, know, s, units[f]);
      UpdateSettles(c, env, s, f, delta);
      FunctionFrame(know, s, Updated(env, s, f, delta), units[f]);
    }
  }

  /** Nor is it analysed twice if nothing was known of it, whatever the
      confidences. */
  lemma FirstAnalysisSettles(env: Env, know: Knowledge, units: map<string, Unit>, s: Store, f: string)
    requires UnitsOk(units) && IsUnknown(Lookup(s, f)) && (f in units ==> f !in Callees(units[f].fn))
    ensures Settled(env, know, units, Analyzed(env, know, units, s, f), f)
  {
    if f in units && !Ignore(env, f) {
      var delta := FunctionSpec(know, s, units[f]);
      if Refit(UNKNOWN, delta, RangeFor(env, f)).Some? { FirstRefitTwice(delta, RangeFor(env, f)); }
      FunctionFrame(know, s, Updated(env, s, f, delta), units[f]);
    }
  }
}
