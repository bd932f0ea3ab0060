/** What block analysis infers is about what executions return. */
module BlockMeaning {
  import opened IR
  import opened CallGraph
  import opened Exec
  import opened Signs
  import opened Confidence
  import opened Specifications
  import opened ErrorBlocks
  import opened Shapes
  import opened Sweep
  import Constraints = ReturnConstraints
  import Returned = ReturnedValues
  import ReturnedSound = ReturnedValuesSound

  /** Block b must return the constant rv, going by the returned-values facts. */
  ghost predicate MustReturn(u: Unit, b: nat, rv: Value) {
    && UnitOk(u) && Shape(u.fn, u.returned) && Stable(Returned.Problem(u.fn), u.returned)
    && b < |u.fn.blocks| && |u.fn.blocks[b]| > 0 && u.returned.body[b][0] == {rv}
    && (IsConstantInt(rv) || rv.NullPointer?)
  }

  /** An execution from the start of block b that returns d. */
  ghost predicate ReturnsFrom(u: Unit, b: nat, run: seq<Frame>, d: Datum) {
    IsFrameRun(u.fn, run) && run[0].at == Point(b, 0) && Returning(u.fn, run[|run| - 1]) == Some(d)
  }

  /** Returning an error code counts with full confidence for the sign of what
      is returned, and for no other. */
  lemma ErrorValueMeans(know: Knowledge, f: string, n: int, r: Region)
    requires f !in know.errorOnly
    ensures ConfidenceIn(ErrorValue(know, f, n), r) == if r == RegionOf(n) then MAX else MIN
    ensures ErrorValue(know, f, n).emptyset == MIN
  {
  }

  /** Returning a constant counts for the sign of what is returned with the
      confidence of the constraining function's errors; an integer or null
      counts for no other sign. */
  lemma ConstantReturnMeans(v: Value, cut: Spec, r: Region)
    requires IsConstantInt(v) || v.NullPointer?
    ensures r == RegionOf(ConstantValue(v)) ==> ConfidenceIn(ConstantReturn(v, cut), r) == GetMax(cut)
    ensures !v.Bool? && r != RegionOf(ConstantValue(v)) ==> ConfidenceIn(ConstantReturn(v, cut), r) == MIN
    ensures v == Bool(false) && r != Null ==> ConfidenceIn(ConstantReturn(v, cut), r) == MIN
  {
  }

  lemma AboveAllTerms(vs: set<Spec>, v: Spec, r: Region)
    requires v in vs
    ensures ConfidenceIn(JoinOf(vs), r) >= ConfidenceIn(v, r)
    ensures JoinOf(vs).emptyset <= v.emptyset
  {
    assert Confidence.Leq(v, JoinOf(vs));
  }

  /** What is certain of a failing block is certain of its function. */
  lemma FunctionAtLeast(know: Knowledge, s: Store, u: Unit, b: nat, r: Region)
    requires UnitOk(u) && b < |u.fn.blocks| && !IsEmptyset(BlockSpec(know, s, u, b))
    ensures ConfidenceIn(FunctionSpec(know, s, u), r) >= ConfidenceIn(BlockSpec(know, s, u, b), r)
  {
    var failing := FailingBlocks(know, s, u, |u.fn.blocks|);
    assert BlockSpec(know, s, u, b) in failing;
    AboveAllTerms({UNKNOWN} + failing, BlockSpec(know, s, u, b), r);
  }

  lemma ReturnsConstant(u: Unit, b: nat, rv: Value, run: seq<Frame>, d: Datum)
    requires MustReturn(u, b, rv) && ReturnsFrom(u, b, run, d)
    ensures d.n == ConstantValue(rv)
  {
    ReturnedSound.SingletonMustBeReturned(u.fn, u.returned, run, d, rv);
  }

  /** A block that must return an error code: whatever executions from it
      return, its sign is certain in what is inferred for the function. */
  lemma ErrorCodesAreInferred(know: Knowledge, s: Store, u: Unit, b: nat, rv: Value, run: seq<Frame>, d: Datum)
    requires MustReturn(u, b, rv) && ReturnsFrom(u, b, run, d) && u.name !in know.errorOnly
    requires IsConstantInt(rv) && IsCode(know.errorCodes, ConstantValue(rv), FileAt(u, Point(b, 0)))
    ensures ConfidenceIn(FunctionSpec(know, s, u), RegionOf(d.n)) == MAX
  {
    var terms, term := BlockTerms(know, s, u, b), ErrorValue(know, u.name, ConstantValue(rv));
    ReturnsConstant(u, b, rv, run, d);
    OnlyValue(u, b, rv);
    assert term in terms;
    ErrorValueMeans(know, u.name, d.n, RegionOf(d.n));
    AboveAllTerms(terms, term, RegionOf(d.n));
    FunctionAtLeast(know, s, u, b, RegionOf(d.n));
  }

  lemma OnlyValue(u: Unit, b: nat, rv: Value)
    requires b < |u.returned.body| && |u.returned.body[b]| > 0 && u.returned.body[b][0] == {rv}
    ensures |u.returned.body[b][0]| == 1 && forall v :: v in u.returned.body[b][0] ==> v == rv
  {
  }

  /** Confidence c in a sign comes from errors of the constraining function f,
      or from a callee whose errors have that sign. */
  ghost predicate Inherited(s: Store, u: Unit, f: string, r: Region, c: Level) {
    c <= GetMax(Lookup(s, f)) || exists g :: g in Callees(u.fn) && c <= ConfidenceIn(Lookup(s, g), r)
  }

  lemma CutIsLess(x: Spec, e: Sign, r: Region)
    ensures GetMax(Intersection(x, e)) <= GetMax(x)
    ensures ConfidenceIn(x, r) <= GetMax(x)
  {
    match r case Negative => case Null => case Positive =>
  }

  lemma CalleeInherits(s: Store, u: Unit, at: Point, f: string, cut: Spec, otherwise: Spec, r: Region)
    requires InFunc(u.fn, at) && At(u.fn, at).Call? && Inherited(s, u, f, r, ConfidenceIn(otherwise, r))
    ensures var callee := Constraints.CalleeName(At(u.fn, at).callee);
            Inherited(s, u, f, r, ConfidenceIn(CalleeReturn(s, callee, f, cut, otherwise), r))
  {
    var callee := Constraints.CalleeName(At(u.fn, at).callee);
    CalleeCalled(u.fn, at);
    if callee == f { OperationsAt(Lookup(s, f), cut, r); }
  }

  lemma ConstantInherits(v: Value, cut: Spec, r: Region)
    ensures ConfidenceIn(ConstantReturn(v, cut), r) <= GetMax(cut)
    ensures forall n :: ConfidenceIn(Single(n, GetMax(cut), cut.emptyset), r) <= GetMax(cut)
    ensures ConfidenceIn(Spec(GetMax(cut), MIN, MIN, cut.emptyset), r) <= GetMax(cut)
  {
    match r case Negative => case Null => case Positive =>
  }

  lemma ReturnInherits(s: Store, u: Unit, b: nat, rv: Value, f: string, elem: Sign, r: Region)
    requires UnitOk(u) && b < |u.fn.blocks| && |u.fn.blocks[b]| > 0
    ensures var cut := Intersection(Lookup(s, f), elem);
            Inherited(s, u, f, r, ConfidenceIn(ReturnTerm(s, u, b, rv, f, elem, cut), r))
  {
    var cut := Intersection(Lookup(s, f), elem);
    var constant := if elem != Top then ConstantReturn(rv, cut) else UNKNOWN;
    CutIsLess(Lookup(s, f), elem, r);
    ConstantInherits(rv, cut, r);
    forall at | InFunc(u.fn, at) && At(u.fn, at).Call?
      ensures var callee := Constraints.CalleeName(At(u.fn, at).callee);
              Inherited(s, u, f, r, ConfidenceIn(CalleeReturn(s, callee, f, cut, constant), r))
    {
      CalleeInherits(s, u, at, f, cut, constant, r);
    }
    forall w: Value ensures Inherited(s, u, f, r, ConfidenceIn(HeldReturn(s, u, w, f, cut, constant), r)) {
      ConstantInherits(w, cut, r);
    }
  }

  /** A constraint never tells more than the errors it is about: nothing if no
      error of f satisfies it, and otherwise with no more confidence than that
      in errors of f, or in errors of the same sign of a callee. */
  lemma ConfidenceIsInherited(s: Store, u: Unit, b: nat, rv: Value, f: string, r: Region)
    requires UnitOk(u) && b < |u.fn.blocks| && |u.fn.blocks[b]| > 0
    requires f in u.constrained.body[b][|u.fn.blocks[b]| - 1]
    ensures var term := ConstraintTerm(s, u, b, rv, f);
            var cut := Intersection(Lookup(s, f), u.constrained.body[b][|u.fn.blocks[b]| - 1][f]);
            term.Some? ==> && Inherited(s, u, f, r, ConfidenceIn(term.value, r))
                           && (IsUnknown(cut) ==> term.value == UNKNOWN)
  {
    var elem := u.constrained.body[b][|u.fn.blocks[b]| - 1][f];
    CutIsLess(Lookup(s, f), elem, r);
    FilterAt(Lookup(s, f), elem, r);
    ReturnInherits(s, u, b, rv, f, elem, r);
  }

  /** A block that must return a constant and is constrained, by the facts, to
      results of f that include errors: whatever executions from it return, its
      sign is inferred with the confidence of those errors. */
  lemma PropagatedErrorsAreInferred(know: Knowledge, s: Store, u: Unit, b: nat, rv: Value, f: string, elem: Sign,
                                    run: seq<Frame>, d: Datum)
    requires MustReturn(u, b, rv) && ReturnsFrom(u, b, run, d)
    requires rv !in u.propagated.body[b][|u.fn.blocks[b]| - 1]
    requires IsConstantInt(rv) ==> !IsCode(know.successCodes, ConstantValue(rv), FileAt(u, Point(b, 0)))
    requires f != "" && f in u.constrained.body[b][|u.fn.blocks[b]| - 1]
    requires u.constrained.body[b][|u.fn.blocks[b]| - 1][f] == elem && elem != Top
    requires var cut := Intersection(Lookup(s, f), elem); GetMax(cut) > MIN && !IsEmptyset(cut)
    ensures ConfidenceIn(FunctionSpec(know, s, u), RegionOf(d.n)) >= GetMax(Intersection(Lookup(s, f), elem))
  {
    var terms, cut := BlockTerms(know, s, u, b), Intersection(Lookup(s, f), elem);
    ReturnsConstant(u, b, rv, run, d);
    OnlyValue(u, b, rv);
    ConstantReturnMeans(rv, cut, RegionOf(d.n));
    var term := ConstantReturn(rv, cut);
    ConstantTermIn(s, u, b, rv, f, elem);
    assert term in terms;
    AboveAllTerms(terms, term, RegionOf(d.n));
    FunctionAtLeast(know, s, u, b, RegionOf(d.n));
  }

  lemma ConstantTermIn(s: Store, u: Unit, b: nat, rv: Value, f: string, elem: Sign)
    requires UnitOk(u) && b < |u.fn.blocks| && |u.fn.blocks[b]| > 0 && (IsConstantInt(rv) || rv.NullPointer?)
    requires rv !in u.propagated.body[b][|u.fn.blocks[b]| - 1]
    requires f != "" && f in u.constrained.body[b][|u.fn.blocks[b]| - 1]
    requires u.constrained.body[b][|u.fn.blocks[b]| - 1][f] == elem && elem != Top
    requires var cut := Intersection(Lookup(s, f), elem); GetMax(cut) > MIN && !IsEmptyset(cut)
    ensures ConstantReturn(rv, Intersection(Lookup(s, f), elem)) in ConstraintTerms(s, u, b, rv)
  {
    var cut := Intersection(Lookup(s, f), elem);
    ConstantReturnMeans(rv, cut, RegionOf(ConstantValue(rv)));
    assert !IsUnknown(cut) && !IsUnknown(ConstantReturn(rv, cut));
    assert ConstraintTerm(s, u, b, rv, f) == Some(ConstantReturn(rv, cut));
  }

  /** No confidence within the range is lost by an update. */
  ghost predicate Lossless(current: Spec, delta: Spec, range: Sign) {
    var next := Refit(current, delta, range);
    next.Some? && forall r: Region :: Has(range, r) ==>
      ConfidenceIn(next.value, r) >= ConfidenceIn(delta, r) && ConfidenceIn(next.value, r) >= ConfidenceIn(current, r)
  }

  /** Some sign of the range has no confidence in either. */
  ghost predicate LeavesGap(current: Spec, delta: Spec, range: Sign) {
    exists q: Region :: Has(range, q) && ConfidenceIn(current, q) == MIN && ConfidenceIn(delta, q) == MIN
  }

  lemma GapsAreKept(current: Spec, delta: Spec, range: Sign, r: Region)
    requires Has(range, r) && ConfidenceIn(delta, r) > MIN && LeavesGap(current, delta, range)
    ensures Lossless(current, delta, range)
  {
    var q: Region :| Has(range, q) && ConfidenceIn(current, q) == MIN && ConfidenceIn(delta, q) == MIN;
    var inRange := Intersection(delta, range);
    var joined := if IsUnknown(current) then inRange else Confidence.Join(current, inRange);
    forall p: Region ensures ConfidenceIn(inRange, p) == if Has(range, p) then ConfidenceIn(delta, p) else MIN {
      FilterAt(delta, range, p);
    }
    forall p: Region ensures ConfidenceIn(Confidence.Join(current, inRange), p)
                             == Confidence.Max(ConfidenceIn(current, p), ConfidenceIn(inRange, p)) {
      OperationsAt(current, inRange, p);
    }
    assert ConfidenceIn(joined, q) == MIN && ConfidenceIn(joined, r) > MIN;
    EqualsHas(joined, range);
    MaxEqualsHas(joined, range);
    assert !Equals(joined, range) && !MaxEquals(joined, range);
  }

  /** An update that infers some sign of the range loses nothing exactly if the
      current and the inferred specification together do not fill the range. */
  lemma UpdatesLoseNothingIff(current: Spec, delta: Spec, range: Sign, r: Region)
    requires IsUnknown(current) || StrictlyInside(current, range)
    requires Has(range, r) && ConfidenceIn(delta, r) > MIN
    ensures Lossless(current, delta, range) <==> LeavesGap(current, delta, range)
  {
    if LeavesGap(current, delta, range) {
      GapsAreKept(current, delta, range, r);
    }
    if Lossless(current, delta, range) {
      var next := Refit(current, delta, range).value;
      RefitInside(current, delta, range);
      InsideMeans(next, range);
      var q: Region :| Has(range, q) && ConfidenceIn(next, q) == MIN;
      assert ConfidenceIn(current, q) == MIN && ConfidenceIn(delta, q) == MIN;
    }
  }

  // ----- What is stored in the end -----

  /** Whatever is inferred of the range is stored, with at least as much
      confidence. */
  ghost predicate AllStored(stored: Spec, inferred: Spec, range: Sign) {
    forall r: Region :: Has(range, r) ==> ConfidenceIn(stored, r) >= ConfidenceIn(inferred, r)
  }

  lemma StoredIfGap(env: Env, know: Knowledge, units: map<string, Unit>, s: Store, f: string)
    requires UnitsOk(units) && StoreOk(env, s) && f in units && !Ignore(env, f) && Settled(env, know, units, s, f)
    requires LeavesGap(Lookup(s, f), FunctionSpec(know, s, units[f]), RangeFor(env, f))
    ensures AllStored(Lookup(s, f), FunctionSpec(know, s, units[f]), RangeFor(env, f))
  {
    var current, inferred, range := Lookup(s, f), FunctionSpec(know, s, units[f]), RangeFor(env, f);
    forall r: Region | Has(range, r) ensures ConfidenceIn(current, r) >= ConfidenceIn(inferred, r) {
      if ConfidenceIn(inferred, r) > MIN {
        UpdatesLoseNothingIff(current, inferred, range, r);
        assert s[f := Refit(current, inferred, range).value] == s;
      }
    }
  }

  /** In the end, when analysing a function again changes nothing: all that is
      inferred for it is stored, exactly if stored and inferred specification
      together do not fill its range. */
  lemma SettledStoresIff(env: Env, know: Knowledge, units: map<string, Unit>, s: Store, f: string)
    requires UnitsOk(units) && StoreOk(env, s) && f in units && !Ignore(env, f) && Settled(env, know, units, s, f)
    requires RangeFor(env, f) != Bottom
    ensures var stored, inferred, range := Lookup(s, f), FunctionSpec(know, s, units[f]), RangeFor(env, f);
            AllStored(stored, inferred, range) <==> LeavesGap(stored, inferred, range)
  {
    var stored, inferred, range := Lookup(s, f), FunctionSpec(know, s, units[f]), RangeFor(env, f);
    if LeavesGap(stored, inferred, range) {
      StoredIfGap(env, know, units, s, f);
    }
    if AllStored(stored, inferred, range) {
      var q := UnusedSign(stored, range);
      assert ConfidenceIn(inferred, q) == MIN;
    }
  }

  lemma UnusedSign(x: Spec, range: Sign) returns (q: Region)
    requires range != Bottom && (IsUnknown(x) || StrictlyInside(x, range))
    ensures Has(range, q) && ConfidenceIn(x, q) == MIN
  {
    if IsUnknown(x) {
      match range
      case LessThanZero => q := Negative;
      case LessThanEqualZero => q := Negative;
      case NotZero => q := Negative;
      case Top => q := Negative;
      case Zero => q := Null;
      case GreaterThanEqualZero => q := Null;
      case GreaterThanZero => q := Positive;
    } else {
      InsideMeans(x, range);
      q :| Has(range, q) && ConfidenceIn(x, q) == MIN;
    }
  }

  /** In the end, the sign of whatever executions from a block return that must
      return an error code is stored as certain, unless stored and inferred
      specification together fill the range. */
  lemma ErrorCodesAreStored(env: Env, know: Knowledge, units: map<string, Unit>, s: Store, f: string, b: nat, rv: Value,
                            run: seq<Frame>, d: Datum)
    requires UnitsOk(units) && StoreOk(env, s) && f in units && !Ignore(env, f) && Settled(env, know, units, s, f)
    requires MustReturn(units[f], b, rv) && ReturnsFrom(units[f], b, run, d) && f !in know.errorOnly
    requires IsConstantInt(rv) && IsCode(know.errorCodes, ConstantValue(rv), FileAt(units[f], Point(b, 0)))
    requires Has(RangeFor(env, f), RegionOf(d.n))
    requires LeavesGap(Lookup(s, f), FunctionSpec(know, s, units[f]), RangeFor(env, f))
    ensures ConfidenceIn(Lookup(s, f), RegionOf(d.n)) == MAX
  {
    StoredIfGap(env, know, units, s, f);
    ErrorCodesAreInferred(know, s, units[f], b, rv, run, d);
  }
}
