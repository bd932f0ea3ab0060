/** The facts that the passes hand on to the analysis of blocks. */
module PassResults {
  import opened IR
  import opened CallGraph
  import opened ErrorBlocks
  import opened Shapes
  import opened SignFacts
  import opened Sweep
  import Returned = ReturnedValues
  import Propagation = ReturnPropagation
  import Constraints = ReturnConstraints

  /** The facts of u are fixpoints of the three passes over its function. */
  ghost predicate FromPasses(u: Unit) {
    && WellFormed(u.fn) && Shape(u.fn, u.returned) && Shape(u.fn, u.propagated) && Shape(u.fn, u.constrained)
    && Ok(Returned.Problem(u.fn), u.returned) && Stable(Returned.Problem(u.fn), u.returned)
    && Ok(Propagation.Problem(u.fn), u.propagated) && Stable(Propagation.Problem(u.fn), u.propagated)
    && Ok(Constraints.Problem(u.fn, u.propagated), u.constrained)
    && Stable(Constraints.Problem(u.fn, u.propagated), u.constrained)
  }

  /** And the passes started from nothing. */
  ghost predicate Swept(u: Unit)
    requires FromPasses(u)
  {
    && SweptFrom(Returned.Problem(u.fn), Uniform(u.fn, {}), u.returned)
    && SweptFrom(Propagation.Problem(u.fn), Uniform(u.fn, map[]), u.propagated)
    && SweptFrom(Constraints.Problem(u.fn, u.propagated), Uniform(u.fn, map[]), u.constrained)
  }

  lemma CalledOrUnknown(fn: Func, f: string)
    requires f in Constraints.CalledNames(fn)
    ensures f == "" || f in Callees(fn)
  {
    var b, i :| 0 <= b < |fn.blocks| && 0 <= i < |fn.blocks[b]| && fn.blocks[b][i].Call?
                && f == Constraints.CalleeName(fn.blocks[b][i].callee);
    assert InFunc(fn, Point(b, i)) && At(fn, Point(b, i)).Call?;
    CalleeCalled(fn, Point(b, i));
  }

  /** What the passes constrain are functions that are called, so that their
      results are as the analysis of blocks expects them. */
  lemma PassesMakeUnits(u: Unit)
    requires FromPasses(u)
    ensures UnitOk(u)
  {
    var sys := Constraints.Problem(u.fn, u.propagated);
    forall b: nat, f | b < |u.fn.blocks| && |u.fn.blocks[b]| > 0 && f in u.constrained.body[b][|u.fn.blocks[b]| - 1]
      ensures f == "" || f in Callees(u.fn)
    {
      var fact := u.constrained.body[b][|u.fn.blocks[b]| - 1];
      assert BodyOk(sys, u.constrained.body[b]) && FactOk(sys, fact);
      AtomsWithin(fact, Constraints.CalledNames(u.fn));
      CalledOrUnknown(u.fn, f);
    }
  }

  /** Runs the three passes over a function, constraints last, for they look at
      what the propagation finds. */
  method RunPasses(name: string, fn: Func, errorOnlyCalls: set<Point>, effects: set<Point>, files: map<Point, string>)
    returns (u: Unit)
    requires WellFormed(fn)
    ensures FromPasses(u) && Swept(u) && UnitOk(u) && u.name == name && u.fn == fn
    ensures u.errorOnlyCalls == errorOnlyCalls && u.effects == effects && u.files == files
  {
    var values := new Returned.ReturnedValuesPass(fn);
    values.RunOnFunction();
    var propagation := new Propagation.ReturnPropagationPass(fn);
    propagation.RunOnFunction();
    var constraints := new Constraints.ReturnConstraintsPass(fn, propagation.Facts());
    constraints.RunOnFunction();
    u := Unit(name, fn, values.Facts(), propagation.Facts(), constraints.Facts(), errorOnlyCalls, effects, files);
    PassesMakeUnits(u);
  }
}
