/** What each call, error code and constraint contributes to a function's error
    specification, sign by sign. */
module ErrorTerms {
  import opened IR
  import opened Signs
  import opened Confidence
  import opened Specifications
  import opened ErrorBlocks
  import opened BlockMeaning
  import opened Exec
  import opened Shapes
  import opened Sweep
  import Sets
  import Returned = ReturnedValues
  import ReturnedSound = ReturnedValuesSound
  import Constraints = ReturnConstraints

  // ----- Calls -----

  /** Returning one of these values after an error-only call counts for sign r;
      integers and null only in functions that are not error-only themselves. */
  ghost predicate FailsWith(know: Knowledge, u: Unit, at: Point, vs: set<Value>, r: Region) {
    || (u.name !in know.errorOnly && exists n ::
          Int(n) in vs && !IsCode(know.successCodes, n, FileAt(u, at)) && r == RegionOf(n))
    || (u.name !in know.errorOnly && r == Null && NullPointer in vs)
    || (r == Null && Bool(false) in vs)
    || (r != Null && Bool(true) in vs)
  }

  lemma ErrorOnlyTermMeans(know: Knowledge, u: Unit, at: Point, v: Value, r: Region)
    ensures var t := ErrorOnlyTerm(know, u, at, v);
            && (FailsWith(know, u, at, {v}, r) ==>
                  t.Some? && ConfidenceIn(t.value, r) == MAX && t.value.emptyset == MIN)
            && (t.Some? && !FailsWith(know, u, at, {v}, r) ==> ConfidenceIn(t.value, r) == MIN)
            && (t.Some? && t.value.emptyset < MAX ==> exists q: Region :: FailsWith(know, u, at, {v}, q))
  {
    match v
    case Int(n) =>
      if u.name !in know.errorOnly && !IsCode(know.successCodes, n, FileAt(u, at)) {
        ErrorValueMeans(know, u.name, n, r);
        assert FailsWith(know, u, at, {v}, RegionOf(n));
      } else {
        EmptysetSaysNothing(r);
      }
    case Bool(b) =>
      FromSignAt(if b then NotZero else Sign.Zero, MIN, r);
      assert FailsWith(know, u, at, {v}, if b then Positive else Null);
    case NullPointer =>
      if u.name !in know.errorOnly {
        ErrorValueMeans(know, u.name, 0, r);
        assert FailsWith(know, u, at, {v}, Null);
      } else {
        EmptysetSaysNothing(r);
      }
    case _ =>
  }

  lemma EmptysetSaysNothing(r: Region)
    ensures ConfidenceIn(EMPTYSET, r) == ConfidenceIn(UNKNOWN, r) == MIN
  {
  }

  lemma OneOfThemFails(know: Knowledge, u: Unit, at: Point, vs: set<Value>, r: Region)
    ensures FailsWith(know, u, at, vs, r) <==> exists v :: v in vs && FailsWith(know, u, at, {v}, r)
  {
    if n :| u.name !in know.errorOnly && Int(n) in vs && !IsCode(know.successCodes, n, FileAt(u, at))
            && r == RegionOf(n) {
      assert Int(n) in {Int(n)};
      assert FailsWith(know, u, at, {Int(n)}, r);
    }
    if r == Null && Bool(false) in vs { assert FailsWith(know, u, at, {Bool(false)}, r); }
    if r != Null && Bool(true) in vs { assert FailsWith(know, u, at, {Bool(true)}, r); }
    if u.name !in know.errorOnly && r == Null && NullPointer in vs { assert FailsWith(know, u, at, {NullPointer}, r); }
    if v :| v in vs && FailsWith(know, u, at, {v}, r) {
      FailingValue(know, u, at, vs, v, r);
    }
  }

  lemma FailingValue(know: Knowledge, u: Unit, at: Point, vs: set<Value>, v: Value, r: Region)
    requires v in vs && FailsWith(know, u, at, {v}, r)
    ensures FailsWith(know, u, at, vs, r)
  {
    if n :| Int(n) in {v} && !IsCode(know.successCodes, n, FileAt(u, at)) && r == RegionOf(n) {
      assert Int(n) in vs;
    }
  }

  lemma TermOfFailing(know: Knowledge, s: Store, u: Unit, at: Point, q: Region) returns (t: Spec)
    requires UnitOk(u) && InFunc(u.fn, at) && At(u.fn, at).Call? && at in u.errorOnlyCalls
    requires FailsWith(know, u, at, Returned.InFact(u.returned, at), q)
    ensures t in CallTerms(know, s, u, at) && ConfidenceIn(t, q) == MAX && t.emptyset == MIN
  {
    var vs := Returned.InFact(u.returned, at);
    OneOfThemFails(know, u, at, vs, q);
    var v :| v in vs && FailsWith(know, u, at, {v}, q);
    ErrorOnlyTermMeans(know, u, at, v, q);
    t := ErrorOnlyTerm(know, u, at, v).value;
  }

  lemma FailingOfTerm(know: Knowledge, s: Store, u: Unit, at: Point, t: Spec, r: Region)
    requires UnitOk(u) && InFunc(u.fn, at) && At(u.fn, at).Call? && at in u.errorOnlyCalls
    requires t in CallTerms(know, s, u, at)
    ensures var vs := Returned.InFact(u.returned, at);
            && ConfidenceIn(t, r) in {MIN, MAX} && t.emptyset in {MIN, MAX}
            && (ConfidenceIn(t, r) > MIN ==> FailsWith(know, u, at, vs, r))
            && (t.emptyset < MAX ==> exists q: Region :: FailsWith(know, u, at, vs, q))
  {
    var vs := Returned.InFact(u.returned, at);
    EmptysetSaysNothing(r);
    if t != EMPTYSET {
      var v :| v in vs && ErrorOnlyTerm(know, u, at, v) == Some(t);
      ErrorOnlyTermMeans(know, u, at, v, r);
      if FailsWith(know, u, at, {v}, r) { FailingValue(know, u, at, vs, v, r); }
      if t.emptyset < MAX {
        var q: Region :| FailsWith(know, u, at, {v}, q);
        ErrorOnlyTermMeans(know, u, at, v, q);
        FailingValue(know, u, at, vs, v, q);
      }
    }
  }

  /** A call that matches an error-only description: certain are the signs of
      just those constants that can be returned from there and are no success
      codes, and nothing is told of other signs. */
  lemma ErrorOnlyCallsTell(know: Knowledge, s: Store, u: Unit, at: Point, r: Region)
    requires UnitOk(u) && InFunc(u.fn, at) && At(u.fn, at).Call? && at in u.errorOnlyCalls
    ensures ConfidenceIn(CallSpec(know, s, u, at), r)
            == if FailsWith(know, u, at, Returned.InFact(u.returned, at), r) then MAX else MIN
    ensures CallSpec(know, s, u, at).emptyset
            == if exists q: Region :: FailsWith(know, u, at, Returned.InFact(u.returned, at), q) then MIN else MAX
  {
    var vs, terms := Returned.InFact(u.returned, at), CallTerms(know, s, u, at);
    JoinAttains(terms, r);
    forall t | t in terms { FailingOfTerm(know, s, u, at, t, r); }
    if FailsWith(know, u, at, vs, r) { var t := TermOfFailing(know, s, u, at, r); }
    if q: Region :| FailsWith(know, u, at, vs, q) { var t := TermOfFailing(know, s, u, at, q); }
  }

  /** Any other call tells nothing of signs, and rules errors out exactly if its
      callee never fails, or it is a nameless one that yields neither an integer
      nor a pointer. */
  lemma OtherCallsTell(know: Knowledge, s: Store, u: Unit, at: Point, r: Region)
    requires UnitOk(u) && InFunc(u.fn, at) && At(u.fn, at).Call? && at !in u.errorOnlyCalls
    ensures ConfidenceIn(CallSpec(know, s, u, at), r) == MIN
    ensures CallSpec(know, s, u, at).emptyset == if RulesOutErrors(s, u, at) then MAX else MIN
  {
    var terms := CallTerms(know, s, u, at);
    EmptysetSaysNothing(r);
    JoinAttains(terms, r);
  }

  ghost predicate RulesOutErrors(s: Store, u: Unit, at: Point)
    requires InFunc(u.fn, at) && At(u.fn, at).Call?
  {
    match At(u.fn, at).callee
    case Unresolved => at in u.effects
    case Direct(g) => if g == "" then at in u.effects else g in s && s[g].emptyset == MAX
  }

  /** A constant that fails if it is returned after the error-only call. */
  ghost predicate IsFailure(know: Knowledge, u: Unit, at: Point, v: Value) {
    || (v.Int? && u.name !in know.errorOnly && !IsCode(know.successCodes, v.n, FileAt(u, at)))
    || (v.NullPointer? && u.name !in know.errorOnly) || v.Bool?
  }

  /** Where only failures can be returned from an error-only call on, the sign of
      whatever executions from there return is certain in what is inferred. */
  lemma ErrorOnlyRunsFail(know: Knowledge, s: Store, u: Unit, at: Point, run: seq<Frame>, d: Datum)
    requires UnitOk(u) && Shape(u.fn, u.returned) && Stable(Returned.Problem(u.fn), u.returned)
    requires InFunc(u.fn, at) && At(u.fn, at).Call? && at in u.errorOnlyCalls
    requires forall v :: v in Returned.InFact(u.returned, at) ==> IsFailure(know, u, at, v)
    requires IsFrameRun(u.fn, run) && run[0].at == at && Returning(u.fn, run[|run| - 1]) == Some(d)
    ensures ConfidenceIn(FunctionSpec(know, s, u), RegionOf(d.n)) == MAX
  {
    var vs := Returned.InFact(u.returned, at);
    ReturnedSound.ReturnableValues(u.fn, u.returned, run, d);
    var m :| m in vs && ReturnedSound.Yields(u.fn, run, m, d.n);
    assert IsFailure(know, u, at, m);
    assert d.n == ConstantValue(m);
    assert FailsWith(know, u, at, vs, RegionOf(d.n));
    ErrorOnlyCallsTell(know, s, u, at, RegionOf(d.n));
    CallReaches(know, s, u, at, RegionOf(d.n));
  }

  /** What a call tells of a sign reaches the function. */
  lemma CallReaches(know: Knowledge, s: Store, u: Unit, at: Point, r: Region)
    requires UnitOk(u) && InFunc(u.fn, at) && At(u.fn, at).Call?
    requires CallSpec(know, s, u, at).emptyset < MAX
    ensures ConfidenceIn(FunctionSpec(know, s, u), r) >= ConfidenceIn(CallSpec(know, s, u, at), r)
  {
    var b := at.block;
    var terms, call := BlockTerms(know, s, u, b), CallSpec(know, s, u, at);
    assert call in BlockCallTerms(know, s, u, b, |u.fn.blocks[b]|);
    CallsAreTerms(know, s, u, b);
    JoinAttains(terms, r);
    FunctionAtLeast(know, s, u, b, r);
  }

  lemma CallsAreTerms(know: Knowledge, s: Store, u: Unit, b: nat)
    requires UnitOk(u) && b < |u.fn.blocks| && |u.fn.blocks[b]| > 0
    ensures BlockCallTerms(know, s, u, b, |u.fn.blocks[b]|) <= BlockTerms(know, s, u, b)
  {
  }

  // ----- Constraints -----

  /** The errors of f that satisfy its constraint at the end of block b. */
  function ErrorsOf(s: Store, u: Unit, b: nat, f: string): Spec
    requires b < |u.constrained.body| && |u.constrained.body[b]| > 0
    requires f in u.constrained.body[b][|u.constrained.body[b]| - 1]
  {
    Intersection(Lookup(s, f), u.constrained.body[b][|u.constrained.body[b]| - 1][f])
  }

  /** Something is known of them, and they are not ruled out. */
  predicate FailsHere(s: Store, u: Unit, b: nat, f: string)
    requires b < |u.constrained.body| && |u.constrained.body[b]| > 0
    requires f in u.constrained.body[b][|u.constrained.body[b]| - 1]
  {
    !IsUnknown(ErrorsOf(s, u, b, f)) && !IsEmptyset(ErrorsOf(s, u, b, f))
  }

  /** What executing block b to its end under a constraint on f needs to be
      said about. */
  ghost predicate Constrained(u: Unit, b: nat, f: string) {
    && UnitOk(u) && b < |u.fn.blocks| && |u.fn.blocks[b]| > 0
    && f in u.constrained.body[b][|u.fn.blocks[b]| - 1]
  }

  /** The result is of a call. */
  predicate IsCallOf(u: Unit, v: Value, g: string) {
    v.Reg? && InFunc(u.fn, v.at) && At(u.fn, v.at).Call?
    && g == match At(u.fn, v.at).callee case Unresolved => "" case Direct(name) => name
  }

  /** Going by the propagation fact at the end of block b, what is returned holds
      w, and nothing else. */
  ghost predicate HoldsOnly(u: Unit, b: nat, rv: Value, w: Value)
    requires b < |u.propagated.body| && |u.propagated.body[b]| > 0
  {
    && (forall g :: !IsCallOf(u, rv, g))
    && rv in u.propagated.body[b][|u.propagated.body[b]| - 1]
    && u.propagated.body[b][|u.propagated.body[b]| - 1][rv] == {w}
  }

  lemma OnlyHeld(held: set<Value>, w: Value)
    requires held == {w}
    ensures |held| == 1 && held != {} && forall v :: v in held ==> v == w
  {
  }

  /** A variable that holds an integer constant or null is returned where f
      fails: the constant's sign counts, with all the confidence there is in
      those errors, and no other. */
  lemma HeldConstantsTell(s: Store, u: Unit, b: nat, rv: Value, f: string, w: Value, r: Region)
    requires Constrained(u, b, f) && FailsHere(s, u, b, f) && HoldsOnly(u, b, rv, w)
    requires IsConstantInt(w) || w.NullPointer?
    ensures var t := ConstraintTerm(s, u, b, rv, f);
            && t.Some? && t.value.emptyset == ErrorsOf(s, u, b, f).emptyset
            && ConfidenceIn(t.value, r) == if r == RegionOf(ConstantValue(w)) then GetMax(ErrorsOf(s, u, b, f)) else MIN
  {
    var cut := ErrorsOf(s, u, b, f);
    OnlyHeld(u.propagated.body[b][|u.fn.blocks[b]| - 1][rv], w);
    NotACall(u, rv);
    UnknownIs(cut);
    MaxIsAttained(cut);
    SingleMeans(ConstantValue(w), GetMax(cut), cut.emptyset, r);
    SingleMeans(ConstantValue(w), GetMax(cut), cut.emptyset, RegionOf(ConstantValue(w)));
    UnknownIs(Single(ConstantValue(w), GetMax(cut), cut.emptyset));
  }

  lemma NotACall(u: Unit, v: Value)
    requires forall g :: !IsCallOf(u, v, g)
    ensures !(v.Reg? && InFunc(u.fn, v.at) && At(u.fn, v.at).Call?)
  {
    if v.Reg? && InFunc(u.fn, v.at) && At(u.fn, v.at).Call? {
      assert IsCallOf(u, v, Constraints.CalleeName(At(u.fn, v.at).callee));
    }
  }

  lemma SingleMeans(v: int, c: Level, e: Level, r: Region)
    ensures ConfidenceIn(Single(v, c, e), r) == if r == RegionOf(v) then c else MIN
    ensures Single(v, c, e).emptyset == e
  {
  }

  /** Where no known errors satisfy f's constraint, all that is told is that the
      block cannot be left out; where f is known not to fail there, that it can. */
  lemma NoErrorsTellNothing(s: Store, u: Unit, b: nat, rv: Value, f: string)
    requires Constrained(u, b, f) && !FailsHere(s, u, b, f)
    ensures ConstraintTerm(s, u, b, rv, f) == Some(ErrorsOf(s, u, b, f))
  {
  }

  /** The result of a call of g is returned, directly or through a variable that
      holds nothing else. */
  ghost predicate ReturnsCallOf(u: Unit, b: nat, rv: Value, g: string)
    requires b < |u.propagated.body| && |u.propagated.body[b]| > 0
  {
    IsCallOf(u, rv, g) || exists w :: HoldsOnly(u, b, rv, w) && IsCallOf(u, w, g)
  }

  /** The result of a known function g is returned where f fails: errors of g
      count as they are, or if g is f, those that satisfy the constraint. */
  lemma CalleesTell(s: Store, u: Unit, b: nat, rv: Value, f: string, g: string, r: Region)
    requires Constrained(u, b, f) && FailsHere(s, u, b, f) && ReturnsCallOf(u, b, rv, g)
    requires g != "" && !IsUnknown(Lookup(s, g))
    ensures var t, told := ConstraintTerm(s, u, b, rv, f), if g == f then ErrorsOf(s, u, b, f) else Lookup(s, g);
            t.Some? && t.value.emptyset == told.emptyset && ConfidenceIn(t.value, r) == ConfidenceIn(told, r)
  {
    var cut, elem := ErrorsOf(s, u, b, f), u.constrained.body[b][|u.fn.blocks[b]| - 1][f];
    forall q: Region ensures ConfidenceIn(Confidence.Meet(Lookup(s, f), cut), q) == ConfidenceIn(cut, q) {
      FilterAt(Lookup(s, f), elem, q);
      OperationsAt(Lookup(s, f), cut, q);
    }
    FilterAt(Lookup(s, f), elem, r);
    UnknownIs(cut);
    UnknownIs(Confidence.Meet(Lookup(s, f), cut));
    if !IsCallOf(u, rv, g) {
      var w :| HoldsOnly(u, b, rv, w) && IsCallOf(u, w, g);
      OnlyHeld(u.propagated.body[b][|u.fn.blocks[b]| - 1][rv], w);
      NotACall(u, rv);
    }
  }

  /** Nothing is known of what is returned beyond what it is itself. */
  ghost predicate StandsForItself(s: Store, u: Unit, b: nat, rv: Value)
    requires b < |u.propagated.body| && |u.propagated.body[b]| > 0
  {
    var held := u.propagated.body[b][|u.propagated.body[b]| - 1];
    if exists g :: IsCallOf(u, rv, g) then exists g :: IsCallOf(u, rv, g) && (g == "" || IsUnknown(Lookup(s, g)))
    else || rv !in held || held[rv] == {}
         || exists w :: HoldsOnly(u, b, rv, w) && !IsConstantInt(w) && !w.NullPointer?
                        && forall g :: IsCallOf(u, w, g) ==> g == "" || IsUnknown(Lookup(s, g))
  }

  /** Returning v itself counts for errors of sign r. */
  predicate CountsFor(v: Value, r: Region) {
    match v
    case Int(n) => r == RegionOf(n)
    case Bool(b) => b == (r != Null)
    case NullPointer => r == Null
    case Literal(_) => r != Null
    case _ => false
  }

  /** A constant is returned where f fails: its signs count, with all the
      confidence there is in those errors, unless f is not constrained at all;
      and nothing else tells anything. */
  lemma ConstantsTell(s: Store, u: Unit, b: nat, rv: Value, f: string, r: Region)
    requires Constrained(u, b, f) && FailsHere(s, u, b, f) && StandsForItself(s, u, b, rv)
    ensures var t, cut := ConstraintTerm(s, u, b, rv, f), ErrorsOf(s, u, b, f);
            var elem := u.constrained.body[b][|u.fn.blocks[b]| - 1][f];
            if elem == Top || (forall q: Region :: !CountsFor(rv, q)) then t.None?
            else t.Some? && t.value.emptyset == cut.emptyset
                 && ConfidenceIn(t.value, r) == if CountsFor(rv, r) then GetMax(cut) else MIN
  {
    var cut, elem := ErrorsOf(s, u, b, f), u.constrained.body[b][|u.fn.blocks[b]| - 1][f];
    ReturnIsConstant(s, u, b, rv, f, elem, cut);
    if elem != Top && exists q: Region :: CountsFor(rv, q) {
      var q: Region :| CountsFor(rv, q);
      ConstantReturnIs(rv, cut, q);
      ConstantReturnIs(rv, cut, r);
      UnknownIs(cut);
      UnknownIs(ConstantReturn(rv, cut));
      MaxIsAttained(cut);
    } else if elem != Top {
      NothingCounts(rv, cut);
    }
  }

  lemma ConstantReturnIs(v: Value, cut: Spec, r: Region)
    requires exists q: Region :: CountsFor(v, q)
    ensures ConfidenceIn(ConstantReturn(v, cut), r) == if CountsFor(v, r) then GetMax(cut) else MIN
    ensures ConstantReturn(v, cut).emptyset == cut.emptyset
  {
    match r case Negative => case Null => case Positive =>
  }

  lemma NothingCounts(v: Value, cut: Spec)
    requires forall q: Region :: !CountsFor(v, q)
    ensures ConstantReturn(v, cut) == UNKNOWN
  {
    assert v.Int? ==> CountsFor(v, RegionOf(v.n));
    assert v.Bool? ==> CountsFor(v, if v.b then Positive else Null);
    assert v.NullPointer? ==> CountsFor(v, Null);
    assert v.Literal? ==> CountsFor(v, Positive);
  }

  lemma UnknownCallReturn(s: Store, u: Unit, v: Value, f: string, cut: Spec, otherwise: Spec)
    requires v.Reg? && InFunc(u.fn, v.at) && At(u.fn, v.at).Call?
    requires exists g :: IsCallOf(u, v, g) && (g == "" || IsUnknown(Lookup(s, g)))
    ensures CalleeReturn(s, Constraints.CalleeName(At(u.fn, v.at).callee), f, cut, otherwise) == otherwise
  {
  }

  lemma UnknownHeldReturn(s: Store, u: Unit, w: Value, f: string, cut: Spec, otherwise: Spec)
    requires !IsConstantInt(w) && !w.NullPointer?
    requires forall g :: IsCallOf(u, w, g) ==> g == "" || IsUnknown(Lookup(s, g))
    ensures HeldReturn(s, u, w, f, cut, otherwise) == otherwise
  {
    if w.Reg? && InFunc(u.fn, w.at) && At(u.fn, w.at).Call? {
      assert IsCallOf(u, w, Constraints.CalleeName(At(u.fn, w.at).callee));
      UnknownCallReturn(s, u, w, f, cut, otherwise);
    }
  }

  lemma ReturnIsConstant(s: Store, u: Unit, b: nat, rv: Value, f: string, elem: Sign, cut: Spec)
    requires Constrained(u, b, f) && StandsForItself(s, u, b, rv)
    ensures ReturnTerm(s, u, b, rv, f, elem, cut) == if elem != Top then ConstantReturn(rv, cut) else UNKNOWN
  {
    var held := u.propagated.body[b][|u.fn.blocks[b]| - 1];
    var constant := if elem != Top then ConstantReturn(rv, cut) else UNKNOWN;
    if exists g :: IsCallOf(u, rv, g) {
      UnknownCallReturn(s, u, rv, f, cut, constant);
    } else {
      NotACall(u, rv);
      if rv in held && held[rv] != {} {
        var w :| HoldsOnly(u, b, rv, w) && !IsConstantInt(w) && !w.NullPointer?
                 && forall g :: IsCallOf(u, w, g) ==> g == "" || IsUnknown(Lookup(s, g));
        OnlyHeld(held[rv], w);
        UnknownHeldReturn(s, u, w, f, cut, constant);
      }
    }
  }

  /** A variable that may hold several things tells nothing. */
  lemma SeveralTellNothing(s: Store, u: Unit, b: nat, rv: Value, f: string)
    requires Constrained(u, b, f) && FailsHere(s, u, b, f) && forall g :: !IsCallOf(u, rv, g)
    requires rv in u.propagated.body[b][|u.fn.blocks[b]| - 1]
    requires |u.propagated.body[b][|u.fn.blocks[b]| - 1][rv]| > 1
    ensures ConstraintTerm(s, u, b, rv, f).None?
  {
    NotACall(u, rv);
  }

  // ----- Blocks and functions -----

  /** Block b can only return rv. */
  ghost predicate MustReturnValue(u: Unit, b: nat, rv: Value) {
    && UnitOk(u) && b < |u.fn.blocks| && |u.fn.blocks[b]| > 0 && b < |u.returned.body| && |u.returned.body[b]| > 0
    && u.returned.body[b][0] == {rv}
  }

  predicate IsSuccess(know: Knowledge, u: Unit, b: nat, rv: Value) {
    && IsConstantInt(rv) && !IsCode(know.errorCodes, ConstantValue(rv), FileAt(u, Point(b, 0)))
    && IsCode(know.successCodes, ConstantValue(rv), FileAt(u, Point(b, 0)))
  }

  predicate IsError(know: Knowledge, u: Unit, b: nat, rv: Value) {
    IsConstantInt(rv) && IsCode(know.errorCodes, ConstantValue(rv), FileAt(u, Point(b, 0)))
  }

  /** Something in block b has confidence c in errors of sign r: a call, an error
      code that it must return, or a constraint on what it must return, unless
      that is a success code. */
  ghost predicate Told(know: Knowledge, s: Store, u: Unit, b: nat, t: Spec)
    requires UnitOk(u) && b < |u.fn.blocks| && |u.fn.blocks[b]| > 0
  {
    || t == EMPTYSET
    || (exists i :: 0 <= i < |u.fn.blocks[b]| && u.fn.blocks[b][i].Call? && t == CallSpec(know, s, u, Point(b, i)))
    || (exists rv :: MustReturnValue(u, b, rv) && IsError(know, u, b, rv)
                     && t == if u.name in know.errorOnly then EMPTYSET else Single(ConstantValue(rv), MAX, MIN))
    || (exists rv, f :: MustReturnValue(u, b, rv) && !IsSuccess(know, u, b, rv) && f != "" && Constrained(u, b, f)
                        && ConstraintTerm(s, u, b, rv, f) == Some(t))
  }

  /** Exactly that is what a block contributes. */
  lemma BlockTermsAre(know: Knowledge, s: Store, u: Unit, b: nat, t: Spec)
    requires UnitOk(u) && b < |u.fn.blocks| && |u.fn.blocks[b]| > 0
    ensures t in BlockTerms(know, s, u, b) <==> Told(know, s, u, b, t)
  {
    var values := u.returned.body[b][0];
    if |values| == 1 {
      var rv :| rv in values;
      Sets.OnlyMember(values, rv);
      assert MustReturnValue(u, b, rv);
      assert forall v :: MustReturnValue(u, b, v) ==> v == rv by {
        forall v | MustReturnValue(u, b, v) ensures v == rv { assert v in values; }
      }
    } else {
      forall v ensures !MustReturnValue(u, b, v) {}
    }
  }

  /** A block's confidence in a sign is the largest that anything in it tells,
      and its errors are ruled out as far as everything in it rules them out. */
  lemma BlockTells(know: Knowledge, s: Store, u: Unit, b: nat, r: Region)
    requires UnitOk(u) && b < |u.fn.blocks| && |u.fn.blocks[b]| > 0
    ensures forall t :: Told(know, s, u, b, t) ==>
              && ConfidenceIn(t, r) <= ConfidenceIn(BlockSpec(know, s, u, b), r)
              && BlockSpec(know, s, u, b).emptyset <= t.emptyset
    ensures exists t :: Told(know, s, u, b, t) && ConfidenceIn(t, r) == ConfidenceIn(BlockSpec(know, s, u, b), r)
    ensures exists t :: Told(know, s, u, b, t) && t.emptyset == BlockSpec(know, s, u, b).emptyset
  {
    JoinAttains(BlockTerms(know, s, u, b), r);
    forall t { BlockTermsAre(know, s, u, b, t); }
  }

  /** A block may fail unless everything in it rules errors out. */
  ghost predicate MayFail(know: Knowledge, s: Store, u: Unit, b: nat)
    requires UnitOk(u) && b < |u.fn.blocks|
  {
    BlockSpec(know, s, u, b).emptyset < MAX
  }

  lemma FailingMayFail(know: Knowledge, s: Store, u: Unit, v: Spec)
    requires UnitOk(u)
    ensures v in FailingBlocks(know, s, u, |u.fn.blocks|) <==>
              exists b: nat {:trigger MayFail(know, s, u, b)} ::
                b < |u.fn.blocks| && MayFail(know, s, u, b) && v == BlockSpec(know, s, u, b)
  {
    if v in FailingBlocks(know, s, u, |u.fn.blocks|) {
      var b: nat :| b < |u.fn.blocks| && !IsEmptyset(BlockSpec(know, s, u, b)) && v == BlockSpec(know, s, u, b);
      assert MayFail(know, s, u, b);
    }
    if b: nat :| b < |u.fn.blocks| && MayFail(know, s, u, b) && v == BlockSpec(know, s, u, b) {
      assert !IsEmptyset(BlockSpec(know, s, u, b));
    }
  }

  /** A function's confidence in a sign is the largest of the blocks that may
      fail. */
  lemma FunctionTells(know: Knowledge, s: Store, u: Unit, r: Region)
    requires UnitOk(u)
    ensures forall b: nat {:trigger MayFail(know, s, u, b)} :: b < |u.fn.blocks| && MayFail(know, s, u, b) ==>
              ConfidenceIn(BlockSpec(know, s, u, b), r) <= ConfidenceIn(FunctionSpec(know, s, u), r)
    ensures ConfidenceIn(FunctionSpec(know, s, u), r) > MIN ==>
              exists b: nat {:trigger MayFail(know, s, u, b)} :: b < |u.fn.blocks| && MayFail(know, s, u, b)
                && ConfidenceIn(BlockSpec(know, s, u, b), r) == ConfidenceIn(FunctionSpec(know, s, u), r)
  {
    var failing := FailingBlocks(know, s, u, |u.fn.blocks|);
    EmptysetSaysNothing(r);
    forall v { FailingMayFail(know, s, u, v); }
    forall b: nat | b < |u.fn.blocks| && MayFail(know, s, u, b) ensures BlockSpec(know, s, u, b) in failing {}
    if failing != {} { JoinAttains({UNKNOWN} + failing, r); }
  }

  /** It never fails exactly if none of its blocks may. */
  lemma FunctionFailsIff(know: Knowledge, s: Store, u: Unit)
    requires UnitOk(u)
    ensures FunctionSpec(know, s, u).emptyset
            == if exists b: nat :: b < |u.fn.blocks| && MayFail(know, s, u, b) then MIN else MAX
  {
    var failing := FailingBlocks(know, s, u, |u.fn.blocks|);
    forall b: nat | b < |u.fn.blocks| && MayFail(know, s, u, b) ensures BlockSpec(know, s, u, b) in failing {
      FailingMayFail(know, s, u, BlockSpec(know, s, u, b));
    }
    if failing != {} {
      JoinAttains({UNKNOWN} + failing, Null);
      var v :| v in failing;
      FailingMayFail(know, s, u, v);
    }
  }

  /** What anything in a block tells reaches the function, unless it rules errors
      out. */
  lemma ToldReaches(know: Knowledge, s: Store, u: Unit, b: nat, t: Spec, r: Region)
    requires UnitOk(u) && b < |u.fn.blocks| && |u.fn.blocks[b]| > 0 && Told(know, s, u, b, t) && t.emptyset < MAX
    ensures ConfidenceIn(FunctionSpec(know, s, u), r) >= ConfidenceIn(t, r)
  {
    BlockTells(know, s, u, b, r);
    assert MayFail(know, s, u, b);
    FunctionTells(know, s, u, r);
  }

  /** A constraint under which rv must be returned reaches the function. */
  lemma ConstraintReaches(know: Knowledge, s: Store, u: Unit, b: nat, rv: Value, f: string, r: Region)
    requires Constrained(u, b, f) && f != "" && MustReturnValue(u, b, rv) && !IsSuccess(know, u, b, rv)
    requires ConstraintTerm(s, u, b, rv, f).Some? && ConstraintTerm(s, u, b, rv, f).value.emptyset < MAX
    ensures ConfidenceIn(FunctionSpec(know, s, u), r) >= ConfidenceIn(ConstraintTerm(s, u, b, rv, f).value, r)
  {
    ToldReaches(know, s, u, b, ConstraintTerm(s, u, b, rv, f).value, r);
  }

  /** A variable that holds a constant must be returned where f fails: the sign
      of the constant is inferred, with all the confidence there is in those
      errors. */
  lemma HeldConstantsReach(know: Knowledge, s: Store, u: Unit, b: nat, rv: Value, f: string, w: Value)
    requires Constrained(u, b, f) && f != "" && MustReturnValue(u, b, rv) && !IsSuccess(know, u, b, rv)
    requires FailsHere(s, u, b, f) && HoldsOnly(u, b, rv, w) && (IsConstantInt(w) || w.NullPointer?)
    ensures ConfidenceIn(FunctionSpec(know, s, u), RegionOf(ConstantValue(w))) >= GetMax(ErrorsOf(s, u, b, f))
  {
    HeldConstantsTell(s, u, b, rv, f, w, RegionOf(ConstantValue(w)));
    ConstraintReaches(know, s, u, b, rv, f, RegionOf(ConstantValue(w)));
  }

  /** The result of a known function must be returned where f fails: its errors
      are inferred. */
  lemma CalleesReach(know: Knowledge, s: Store, u: Unit, b: nat, rv: Value, f: string, g: string, r: Region)
    requires Constrained(u, b, f) && f != "" && MustReturnValue(u, b, rv) && !IsSuccess(know, u, b, rv)
    requires FailsHere(s, u, b, f) && ReturnsCallOf(u, b, rv, g) && g != "" && !IsUnknown(Lookup(s, g))
    requires Lookup(s, g).emptyset < MAX
    ensures ConfidenceIn(FunctionSpec(know, s, u), r)
            >= ConfidenceIn(if g == f then ErrorsOf(s, u, b, f) else Lookup(s, g), r)
  {
    CalleesTell(s, u, b, rv, f, g, r);
    ConstraintReaches(know, s, u, b, rv, f, r);
  }

  lemma ToldBeforeSuccess(know: Knowledge, s: Store, u: Unit, b: nat, rv: Value, t: Spec)
    requires MustReturnValue(u, b, rv) && IsSuccess(know, u, b, rv) && Told(know, s, u, b, t)
    ensures || t == EMPTYSET
            || exists i :: 0 <= i < |u.fn.blocks[b]| && u.fn.blocks[b][i].Call?
                           && t == CallSpec(know, s, u, Point(b, i))
  {
    forall v | MustReturnValue(u, b, v) ensures v == rv {
      assert v in u.returned.body[b][0];
    }
  }

  /** A block that must return a success code tells only what its calls tell:
      nothing of signs, unless one is an error-only call. */
  lemma SuccessTellsNothing(know: Knowledge, s: Store, u: Unit, b: nat, rv: Value, r: Region)
    requires MustReturnValue(u, b, rv) && IsSuccess(know, u, b, rv)
    requires forall i :: 0 <= i < |u.fn.blocks[b]| && u.fn.blocks[b][i].Call? ==> Point(b, i) !in u.errorOnlyCalls
    ensures ConfidenceIn(BlockSpec(know, s, u, b), r) == MIN
  {
    BlockTells(know, s, u, b, r);
    var t :| Told(know, s, u, b, t) && ConfidenceIn(t, r) == ConfidenceIn(BlockSpec(know, s, u, b), r);
    ToldBeforeSuccess(know, s, u, b, rv, t);
    EmptysetSaysNothing(r);
    if i :| 0 <= i < |u.fn.blocks[b]| && u.fn.blocks[b][i].Call? && t == CallSpec(know, s, u, Point(b, i)) {
      OtherCallsTell(know, s, u, Point(b, i), r);
    }
  }

  // ----- Codes -----

  /** A code without parts counts everywhere, and one with parts in files whose
      name has some part in it. */
  lemma CodesCount(codes: map<int, set<string>>, value: int, u: Unit, at: Point)
    requires at in u.files
    ensures IsCode(codes, value, FileAt(u, at)) <==>
              value in codes && (codes[value] == {} || exists before, part, after ::
                                   part in codes[value] && u.files[at] == before + part + after)
  {
    var file := u.files[at];
    if value in codes {
      if part :| part in codes[value] && Returned.Contains(file, part) {
        Returned.ContainsMeans(file, part);
      }
      if before, part, after :| part in codes[value] && file == before + part + after {
        Returned.ContainsMeans(file, part);
      }
    }
  }
}
