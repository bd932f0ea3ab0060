/** A function with what the passes find out about it:

      f: if g() < 0 return 0; if h() < 0 return -1; if f() < 0 return 1; return ...; */
module ExampleFunction {
  import opened IR
  import opened CallGraph
  import opened Signs
  import opened ErrorBlocks
  import opened PassResults
  import opened Shapes
  import opened Sweep
  import ICmps
  import SignFacts
  import Returned = ReturnedValues
  import Propagation = ReturnPropagation
  import Constraints = ReturnConstraints

  /** Calls a function and tests whether its result is negative. */
  function Test(callee: string, b: nat, onError: nat, otherwise: nat): Block {
    [Call(Direct(callee), []), ICmp(SLT, Reg(Point(b, 0)), Int(0)), CondBr(Reg(Point(b, 1)), onError, otherwise)]
  }

  function BlockAt(b: nat): Block {
    if b == 0 then Test("g", 0, 1, 2)
    else if b == 1 then [Ret(Int(0))]
    else if b == 2 then Test("h", 2, 3, 4)
    else if b == 3 then [Ret(Int(-1))]
    else if b == 4 then Test("f", 4, 5, 6)
    else if b == 5 then [Ret(Int(1))]
    else [Opaque, Ret(Reg(Point(6, 0)))]
  }

  function Example(): Func {
    Func(seq(7, b requires 0 <= b < 7 => BlockAt(b)), false)
  }

  /** A fact for every block boundary and every instruction. */
  function Rows<F>(entry: nat -> F, fact: (nat, nat) -> F): State<F> {
    State(seq(7, b requires 0 <= b < 7 => entry(b)),
          seq(7, b requires 0 <= b < 7 =>
                seq(|BlockAt(b)|, i requires 0 <= i < |BlockAt(b)| => fact(b, i))))
  }

  lemma RowsFit<F>(entry: nat -> F, fact: (nat, nat) -> F)
    ensures Shape(Example(), Rows(entry, fact))
  {
  }

  lemma ExampleIsWellFormed()
    ensures WellFormed(Example())
  {
    forall b | 0 <= b < 7 ensures BlockOk(Example(), Example().blocks[b]) { BlockIsOk(b); }
  }

  lemma BlockIsOk(b: nat)
    requires b < 7
    ensures BlockOk(Example(), BlockAt(b))
  {
  }

  lemma EdgesAre(p: nat, b: nat)
    requires Edge(Example(), p, b)
    ensures p in {0, 2, 4} && b in {p + 1, p + 2}
  {
    assert Example().blocks[p] == BlockAt(p);
  }

  // ----- What can be returned -----

  /** What can be returned from b on. */
  function Returnable(b: nat): set<Value> {
    if b == 1 then {Int(0)}
    else if b == 3 then {Int(-1)}
    else if b == 5 then {Int(1)}
    else if b == 6 then {Reg(Point(6, 0))}
    else if b == 4 then {Int(1), Reg(Point(6, 0))}
    else if b == 2 then {Int(-1), Int(1), Reg(Point(6, 0))}
    else {Int(0), Int(-1), Int(1), Reg(Point(6, 0))}
  }

  /** What can be returned after b. */
  function ReturnableAfter(b: nat): set<Value> {
    if b in {0, 2, 4} then Returnable(b) else {}
  }

  function ReturnedFacts(): State<Returned.Fact> {
    Rows(b => ReturnableAfter(b), (b, i) => Returnable(b))
  }

  lemma ReturnedIsFresh(b: nat)
    requires b < 7
    ensures Fresh(Returned.Problem(Example()), ReturnedFacts(), b)
  {
    var blk, exit, row := BlockAt(b), ReturnableAfter(b), ReturnedFacts().body[b];
    forall k: nat | k < |blk|
      ensures row[k] == Returned.Transfer(blk[k], Point(b, k), Returned.Following(row, k, exit))
    {
      ReturnedStep(b, k);
    }
    Returned.TraceIs(blk, b, 0, exit, row);
    assert row[0..] == row;
  }

  lemma ReturnedStep(b: nat, k: nat)
    requires b < 7 && k < |BlockAt(b)|
    ensures Returned.Transfer(BlockAt(b)[k], Point(b, k),
                              if k + 1 == |BlockAt(b)| then ReturnableAfter(b) else Returnable(b)) == Returnable(b)
  {
  }

  lemma ReturnedReaches(b: nat, next: nat)
    requires b in {0, 2, 4} && next in {b + 1, b + 2}
    ensures Returnable(next) <= ReturnableAfter(b)
  {
  }

  lemma OneReturnOccurs(b: nat)
    requires b in {1, 3, 5, 6}
    ensures Returnable(b) <= Values(Example())
  {
    var ins := Last(BlockAt(b));
    assert ins.Ret? && Returnable(b) == {ins.val};
    assert Example().blocks[b] == BlockAt(b);
    OperandsAreValues(Example(), b, |BlockAt(b)| - 1);
  }

  lemma ReturnedOccur(b: nat)
    ensures Returnable(b) <= Values(Example())
  {
    forall k | k in {1, 3, 5, 6} ensures Returnable(k) <= Values(Example()) { OneReturnOccurs(k); }
    assert Returnable(b) <= Returnable(1) + Returnable(3) + Returnable(5) + Returnable(6);
  }

  lemma ReturnedIsStable()
    ensures Ok(Returned.Problem(Example()), ReturnedFacts()) && Stable(Returned.Problem(Example()), ReturnedFacts())
  {
    var sys, st := Returned.Problem(Example()), ReturnedFacts();
    forall b: nat | b < 7 ensures EntryOk(sys, b, st.entry[b]) && BodyOk(sys, st.body[b]) {
      ReturnedOccur(b);
    }
    forall b: nat | b < 7 ensures Fresh(sys, st, b) && Written(sys, st, b) && Gathered(sys, st, b) {
      ReturnedIsFresh(b);
      forall p: nat | p < 7 && sys.feeds(p, b) ensures Leq(sys, sys.flow(p, b, st.body[p]), st.entry[b]) {
        EdgesAre(b, p);
        ReturnedReaches(b, p);
      }
    }
  }

  // ----- What registers hold -----

  /** Before b, the results of earlier calls. */
  function HeldBefore(b: nat): map<Value, set<Value>> {
    map k | k in {0, 2, 4} && k < b :: Reg(Point(k, 0)) := {Reg(Point(k, 0))}
  }

  function HeldIn(b: nat): map<Value, set<Value>> {
    HeldBefore(b + 1)
  }

  function PropagationFacts(): State<Propagation.Fact> {
    Rows(b => HeldBefore(b), (b, i) => HeldIn(b))
  }

  lemma CallIsHeld(b: nat)
    requires b in {0, 2, 4}
    ensures HeldBefore(b)[Reg(Point(b, 0)) := {Reg(Point(b, 0))}] == HeldIn(b) && Reg(Point(b, 0)) !in HeldBefore(b)
  {
  }

  lemma NothingNewHeld(b: nat)
    requires b in {1, 3, 5, 6}
    ensures HeldIn(b) == HeldBefore(b)
  {
  }

  lemma CallHolds(b: nat, g: string)
    requires b in {0, 2, 4}
    ensures Propagation.Transfer(Call(Direct(g), []), Point(b, 0), HeldBefore(b)) == HeldIn(b)
  {
    var r := Reg(Point(b, 0));
    CallIsHeld(b);
    assert Propagation.Held(HeldBefore(b), r) + {r} == {r};
  }

  lemma PropagationStep(b: nat, i: nat)
    requires b < 7 && i < |BlockAt(b)|
    ensures Propagation.Transfer(BlockAt(b)[i], Point(b, i), if i == 0 then HeldBefore(b) else HeldIn(b)) == HeldIn(b)
  {
    if b in {0, 2, 4} {
      if i == 0 { CallHolds(b, CalleeOf(b)); }
    } else {
      NothingNewHeld(b);
    }
  }

  lemma PropagationIsFresh(b: nat)
    requires b < 7
    ensures Fresh(Propagation.Problem(Example()), PropagationFacts(), b)
  {
    var step, x, row := Propagation.Stepper(Example(), b), HeldBefore(b), PropagationFacts().body[b];
    assert Example().blocks[b] == BlockAt(b);
    forall i: nat | i < |row| ensures row[i] == step(i, Previous(x, row, i)) { PropagationStep(b, i); }
    ChainIs(step, x, row);
  }

  lemma HeldReaches(p: nat, b: nat)
    requires p < b
    ensures Propagation.Atoms(HeldIn(p)) <= Propagation.Atoms(HeldBefore(b))
  {
  }

  lemma HeldOccur(b: nat)
    ensures Propagation.Atoms(HeldBefore(b)) <= Propagation.Universe(Example())
  {
    var fn := Example();
    forall k | k in {0, 2, 4} ensures Reg(Point(k, 0)) in Values(fn) {
      assert fn.blocks[k] == BlockAt(k);
      OperandsAreValues(fn, k, 0);
    }
    assert Propagation.Within(fn, HeldBefore(b));
    Propagation.WithinUniverse(fn, HeldBefore(b));
  }

  lemma PropagationIsStable()
    ensures Ok(Propagation.Problem(Example()), PropagationFacts())
    ensures Stable(Propagation.Problem(Example()), PropagationFacts())
  {
    var sys, st := Propagation.Problem(Example()), PropagationFacts();
    forall b: nat | b < 7 ensures EntryOk(sys, b, st.entry[b]) && BodyOk(sys, st.body[b]) {
      HeldOccur(b);
      HeldOccur(b + 1);
    }
    forall b: nat | b < 7 ensures Fresh(sys, st, b) && Written(sys, st, b) && Gathered(sys, st, b) {
      PropagationIsFresh(b);
      forall p: nat | p < 7 && sys.feeds(p, b) ensures Leq(sys, sys.flow(p, b, st.body[p]), st.entry[b]) {
        EdgesAre(p, b);
        HeldReaches(p, b);
      }
    }
  }

  // ----- What is known of results -----

  /** What is known of results of g, h and f before b. */
  function KnownBefore(b: nat): map<string, Sign> {
    if b == 0 then map[]
    else if b == 1 then map["g" := LessThanZero]
    else if b == 2 then map["g" := GreaterThanEqualZero]
    else if b == 3 then map["g" := GreaterThanEqualZero, "h" := LessThanZero]
    else if b == 4 then map["g" := GreaterThanEqualZero, "h" := GreaterThanEqualZero]
    else if b == 5 then map["g" := GreaterThanEqualZero, "h" := GreaterThanEqualZero, "f" := LessThanZero]
    else map["g" := GreaterThanEqualZero, "h" := GreaterThanEqualZero, "f" := GreaterThanEqualZero]
  }

  function CalleeOf(b: nat): string {
    if b == 0 then "g" else if b == 2 then "h" else "f"
  }

  /** And after instruction i of b: a test leaves nothing of the tested one. */
  function Known(b: nat, i: nat): map<string, Sign> {
    if b in {0, 2, 4} then KnownBefore(b)[CalleeOf(b) := if i < 2 then Top else Bottom] else KnownBefore(b)
  }

  function ConstraintFacts(): State<Constraints.Names> {
    Rows(b => KnownBefore(b), (b, i) => Known(b, i))
  }

  lemma PropagationCovers()
    ensures Covers(Example(), PropagationFacts())
  {
    RowsFit(b => HeldBefore(b), (b, i) => HeldIn(b));
  }

  /** Block b of this function tests the result of g, as far as propagation
      goes. */
  predicate Tests(fn: Func, pst: State<Propagation.Fact>, b: nat, g: string, onError: nat, otherwise: nat) {
    && Covers(fn, pst) && b < |fn.blocks| && fn.blocks[b] == Test(g, b, onError, otherwise)
    && Propagation.Held(pst.body[b][0], Reg(Point(b, 0))) == {Reg(Point(b, 0))}
  }

  lemma TestedIs(fn: Func, pst: State<Propagation.Fact>, b: nat, g: string, onError: nat, otherwise: nat)
    requires Tests(fn, pst, b, g, onError, otherwise)
    ensures Constraints.Tested(fn, pst, fn.blocks[b][2]) == {g}
  {
    var r := Reg(Point(b, 0));
    assert At(fn, r.at) == Call(Direct(g), []);
    assert Constraints.Reaching(fn, pst, r) == {g};
  }

  lemma TestKnows(fn: Func, pst: State<Propagation.Fact>, b: nat, g: string, onError: nat, otherwise: nat,
                  f: Constraints.Names)
    requires Tests(fn, pst, b, g, onError, otherwise)
    ensures Constraints.Transfer(fn, pst, fn.blocks[b][0], f) == f[g := Top]
    ensures Constraints.Transfer(fn, pst, fn.blocks[b][1], f) == f
    ensures Constraints.Transfer(fn, pst, fn.blocks[b][2], f) == f[g := Bottom]
  {
    TestedIs(fn, pst, b, g, onError, otherwise);
    assert Constraints.Killed(f, {g}) == f[g := Bottom];
  }

  lemma TestWrites(fn: Func, pst: State<Propagation.Fact>, b: nat, g: string, onError: nat, otherwise: nat,
                   body: seq<Constraints.Names>)
    requires Tests(fn, pst, b, g, onError, otherwise) && |body| == 3
    ensures Constraints.BlockWrites(fn, pst, b, body)
            == [(onError, Constraints.Refined(body[1], {g}, LessThanZero)),
                (otherwise, Constraints.Refined(body[1], {g}, GreaterThanEqualZero))]
  {
    var ins := fn.blocks[b][2];
    TestedIs(fn, pst, b, g, onError, otherwise);
    assert Comparison(fn, ins) == Some(ICmp(SLT, Reg(Point(b, 0)), Int(0)));
    assert ICmps.AbstractICmp(SLT, Reg(Point(b, 0)), Int(0)) == (LessThanZero, GreaterThanEqualZero);
    assert Constraints.BlockWrites(fn, pst, b, body) == Constraints.Writes(fn, pst, ins, body[1]);
  }

  lemma ExampleTests(b: nat)
    requires b in {0, 2, 4} && Covers(Example(), PropagationFacts())
    ensures Tests(Example(), PropagationFacts(), b, CalleeOf(b), b + 1, b + 2)
  {
    assert Example().blocks[b] == BlockAt(b);
    CallIsHeld(b);
    assert PropagationFacts().body[b][0] == HeldIn(b);
  }

  lemma BranchKnows(b: nat)
    requires b in {0, 2, 4}
    ensures Known(b, 1) == Known(b, 0) == KnownBefore(b)[CalleeOf(b) := Top]
    ensures Known(b, 2) == Known(b, 1)[CalleeOf(b) := Bottom]
  {
    var f, g := KnownBefore(b), CalleeOf(b);
    assert f[g := Top][g := Bottom] == f[g := Bottom];
  }

  lemma ConstraintsAreFresh(b: nat)
    requires b < 7 && Covers(Example(), PropagationFacts())
    ensures Fresh(Constraints.Problem(Example(), PropagationFacts()), ConstraintFacts(), b)
  {
    var step, x := Constraints.Stepper(Example(), PropagationFacts(), b), KnownBefore(b);
    var row := ConstraintFacts().body[b];
    assert Example().blocks[b] == BlockAt(b);
    forall i: nat | i < |row| ensures row[i] == step(i, Previous(x, row, i)) {
      if b in {0, 2, 4} {
        ExampleTests(b);
        TestKnows(Example(), PropagationFacts(), b, CalleeOf(b), b + 1, b + 2, Previous(x, row, i));
        BranchKnows(b);
      }
    }
    ChainIs(step, x, row);
  }

  lemma KnownReaches(p: nat, b: nat)
    requires p in {0, 2, 4} && b in {p + 1, p + 2}
    ensures SignFacts.BelowFact(Known(p, 2), KnownBefore(b))
    ensures var e := if b == p + 1 then LessThanZero else GreaterThanEqualZero;
            SignFacts.BelowFact(Constraints.Refined(Known(p, 1), {CalleeOf(p)}, e), KnownBefore(b))
  {
  }

  lemma WritesArrive(b: nat)
    requires b in {0, 2, 4}
    ensures var f, names := Known(b, 1), {CalleeOf(b)};
            && SignFacts.Atoms(Constraints.Refined(f, names, LessThanZero)) <= SignFacts.Atoms(KnownBefore(b + 1))
            && SignFacts.Atoms(Constraints.Refined(f, names, GreaterThanEqualZero))
               <= SignFacts.Atoms(KnownBefore(b + 2))
  {
    var f, names := Known(b, 1), {CalleeOf(b)};
    KnownReaches(b, b + 1);
    KnownReaches(b, b + 2);
    SignFacts.AtomsBelow(Constraints.Refined(f, names, LessThanZero), KnownBefore(b + 1));
    SignFacts.AtomsBelow(Constraints.Refined(f, names, GreaterThanEqualZero), KnownBefore(b + 2));
  }

  lemma WrittenTwo<F(!new), A(!new)>(sys: System<F, A>, st: State<F>, b: nat, v: (nat, F), w: (nat, F))
    requires b < |st.body| && v.0 < |st.entry| && w.0 < |st.entry| && sys.writes(b, st.body[b]) == [v, w]
    requires Leq(sys, v.1, st.entry[v.0]) && Leq(sys, w.1, st.entry[w.0])
    ensures Written(sys, st, b)
  {
  }

  lemma ConstraintsAreWritten(b: nat)
    requires b < 7 && Covers(Example(), PropagationFacts())
    ensures Written(Constraints.Problem(Example(), PropagationFacts()), ConstraintFacts(), b)
  {
    var sys, st := Constraints.Problem(Example(), PropagationFacts()), ConstraintFacts();
    if b in {0, 2, 4} {
      var f, names := Known(b, 1), {CalleeOf(b)};
      ExampleTests(b);
      TestWrites(Example(), PropagationFacts(), b, CalleeOf(b), b + 1, b + 2, st.body[b]);
      WritesArrive(b);
      WrittenTwo(sys, st, b, (b + 1, Constraints.Refined(f, names, LessThanZero)),
                 (b + 2, Constraints.Refined(f, names, GreaterThanEqualZero)));
    } else {
      assert Example().blocks[b] == BlockAt(b);
    }
  }

  lemma CallsAreThere()
    ensures {"g", "h", "f"} <= Callees(Example()) && {"g", "h", "f"} <= Constraints.CalledNames(Example())
  {
    var fn := Example();
    assert fn.blocks[0][0] == Call(Direct("g"), []);
    assert fn.blocks[2][0] == Call(Direct("h"), []);
    assert fn.blocks[4][0] == Call(Direct("f"), []);
  }

  lemma KnownOccur(b: nat, i: nat)
    requires b < 7
    ensures SignFacts.Atoms(KnownBefore(b)) <= SignFacts.Universe(Constraints.CalledNames(Example()))
    ensures SignFacts.Atoms(Known(b, i)) <= SignFacts.Universe(Constraints.CalledNames(Example()))
  {
    CallsAreThere();
    SignFacts.AtomsWithin(KnownBefore(b), Constraints.CalledNames(Example()));
    SignFacts.AtomsWithin(Known(b, i), Constraints.CalledNames(Example()));
  }

  lemma ConstraintsAreOk()
    requires Covers(Example(), PropagationFacts())
    ensures Ok(Constraints.Problem(Example(), PropagationFacts()), ConstraintFacts())
  {
    var sys, st := Constraints.Problem(Example(), PropagationFacts()), ConstraintFacts();
    forall b: nat | b < 7 ensures EntryOk(sys, b, st.entry[b]) && BodyOk(sys, st.body[b]) {
      KnownOccur(b, 0);
      forall k: nat | k < |st.body[b]| ensures FactOk(sys, st.body[b][k]) { KnownOccur(b, k); }
    }
  }

  lemma ConstraintsAreStable()
    requires Covers(Example(), PropagationFacts())
    ensures Stable(Constraints.Problem(Example(), PropagationFacts()), ConstraintFacts())
  {
    var sys, st := Constraints.Problem(Example(), PropagationFacts()), ConstraintFacts();
    forall b: nat | b < 7 ensures Fresh(sys, st, b) && Written(sys, st, b) && Gathered(sys, st, b) {
      ConstraintsAreFresh(b);
      ConstraintsAreWritten(b);
      forall p: nat | p < 7 && sys.feeds(p, b) ensures Leq(sys, sys.flow(p, b, st.body[p]), st.entry[b]) {
        EdgesAre(p, b);
        KnownReaches(p, b);
        SignFacts.AtomsBelow(Known(p, 2), KnownBefore(b));
      }
    }
  }

  // ----- All together -----

  function Facts(): Unit {
    Unit("f", Example(), ReturnedFacts(), PropagationFacts(), ConstraintFacts(), {}, {}, map[])
  }

  /** These are fixpoints of the passes. */
  lemma FactsAreFromPasses()
    ensures FromPasses(Facts()) && UnitOk(Facts())
  {
    ExampleIsWellFormed();
    PropagationCovers();
    RowsFit(b => ReturnableAfter(b), (b, i) => Returnable(b));
    RowsFit(b => HeldBefore(b), (b, i) => HeldIn(b));
    RowsFit(b => KnownBefore(b), (b, i) => Known(b, i));
    ReturnedIsStable();
    PropagationIsStable();
    ConstraintsAreOk();
    ConstraintsAreStable();
    PassesMakeUnits(Facts());
  }
}
