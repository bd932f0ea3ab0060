/** Which calls' results each value may hold: the forward pass of
    eesi/src/return_propagation_pass.cc. */
module ReturnPropagation {
  import opened IR
  import opened Shapes
  import opened Sweep

  /** For each value, the calls (and stored integer constants) it may hold. */
  type Fact = map<Value, set<Value>>

  function Held(f: Fact, v: Value): set<Value> {
    if v in f then f[v] else {}
  }

  function Joined(x: Fact, y: Fact): Fact {
    map v | v in x.Keys + y.Keys :: Held(x, v) + Held(y, v)
  }

  /** The result of copying what `from` may hold, when that is known. */
  function Copied(f: Fact, to: Value, from: Value): Fact {
    if from in f then f[to := f[from]] else f
  }

  /** The fact after instruction `at`, from the fact before it. */
  function Transfer(ins: Instr, at: Point, f: Fact): Fact {
    match ins
    case Call(_, _) => f[Reg(at) := Held(f, Reg(at)) + {Reg(at)}]
    case Load(s) => Copied(f, Reg(at), Slot(s))
    case Store(v, s) =>
      var g := if IsConstantInt(v) then f[Slot(s) := Held(f, Slot(s)) + {v}] else f;
      if v in f then g[Slot(s) := f[v]] else g
    case Cast(op, v) => if op.SExt? then f else Copied(f, Reg(at), v)
    case BinOp(l, _) => Copied(f, Reg(at), l)
    case _ => f
  }

  /** A fact as a set: the values it has entries for, and what they hold. */
  ghost function Atoms(f: Fact): set<(Value, Option<Value>)> {
    (set v | v in f :: (v, None)) + (set v, w | v in f && w in f[v] :: (v, Some(w)))
  }

  /** What can hold something: registers and slots. */
  predicate IsHolder(v: Value) {
    v.Reg? || v.Slot?
  }

  predicate HoldersOnly(f: Fact) {
    forall v :: v in f ==> IsHolder(v)
  }

  ghost function Universe(fn: Func): set<(Value, Option<Value>)> {
    (set v | v in Values(fn) && IsHolder(v) :: (v, None))
    + (set v, w | v in Values(fn) && IsHolder(v) && w in Values(fn) :: (v, Some(w)))
  }

  ghost function Stepper(fn: Func, b: nat): (nat, Fact) -> Fact {
    (i: nat, f: Fact) => if InFunc(fn, Point(b, i)) then Transfer(fn.blocks[b][i], Point(b, i), f) else f
  }

  ghost function Problem(fn: Func): System<Fact, (Value, Option<Value>)> {
    System(
      |fn.blocks|,
      (x: Fact, y: Fact) => Joined(x, y),
      (x: Fact) => Atoms(x),
      Universe(fn),
      (b: nat) => Universe(fn),
      (p: nat, b: nat) => Edge(fn, p, b),
      (p: nat, b: nat, body: seq<Fact>) => if body == [] then map[] else body[|body| - 1],
      (b: nat, x: Fact) => if b < |fn.blocks| then Chain(Stepper(fn, b), |fn.blocks[b]|, x) else [],
      (b: nat, body: seq<Fact>) => [])
  }

  lemma AtomsOf(f: Fact, v: Value, w: Value)
    ensures (v, None) in Atoms(f) <==> v in f
    ensures (v, Some(w)) in Atoms(f) <==> w in Held(f, v)
  {
  }

  lemma AtomsJoin(x: Fact, y: Fact)
    ensures Atoms(Joined(x, y)) == Atoms(x) + Atoms(y)
  {
    forall p | p in Atoms(Joined(x, y)) ensures p in Atoms(x) + Atoms(y) {
      if p.1.Some? { assert p.1.value in Held(x, p.0) + Held(y, p.0); }
    }
    forall p | p in Atoms(x) + Atoms(y) ensures p in Atoms(Joined(x, y)) {
      if p.1.Some? { assert p.1.value in Joined(x, y)[p.0]; }
    }
  }

  lemma AtomsInjective(x: Fact, y: Fact)
    requires Atoms(x) == Atoms(y)
    ensures x == y
  {
    forall v ensures v in x <==> v in y {
      assert (v, None) in Atoms(x) <==> (v, None) in Atoms(y);
    }
    forall v | v in x ensures x[v] == y[v] {
      forall w ensures w in x[v] <==> w in y[v] {
        assert (v, Some(w)) in Atoms(x) <==> (v, Some(w)) in Atoms(y);
      }
    }
  }

  /** Every holder and every held value belongs to the function. */
  ghost predicate Within(fn: Func, f: Fact) {
    f.Keys <= Values(fn) && HoldersOnly(f) && forall v :: v in f ==> f[v] <= Values(fn)
  }

  lemma WithinUniverse(fn: Func, f: Fact)
    ensures Within(fn, f) <==> Atoms(f) <= Universe(fn)
  {
    if Atoms(f) <= Universe(fn) {
      forall v | v in f ensures v in Values(fn) && IsHolder(v) && f[v] <= Values(fn) {
        assert (v, None) in Atoms(f);
        forall w | w in f[v] ensures w in Values(fn) {
          assert (v, Some(w)) in Atoms(f);
        }
      }
    }
  }

  lemma TransferWithin(fn: Func, b: nat, i: nat, f: Fact)
    requires InFunc(fn, Point(b, i)) && Within(fn, f)
    ensures Within(fn, Transfer(fn.blocks[b][i], Point(b, i), f))
  {
    OperandsAreValues(fn, b, i);
    var ins := fn.blocks[b][i];
    match ins
    case Store(v, s) => assert v in Operands(ins) && Slot(s) in Operands(ins);
    case Load(s) => assert Slot(s) in Operands(ins);
    case _ =>
  }

  lemma ProblemIsLawful(fn: Func)
    ensures Laws(Problem(fn))
  {
    var sys := Problem(fn);
    forall x, y ensures sys.enc(sys.join(x, y)) == sys.enc(x) + sys.enc(y) { AtomsJoin(x, y); }
    forall x, y | sys.enc(x) == sys.enc(y) ensures x == y { AtomsInjective(x, y); }
    forall b: nat, x | b < sys.n && FactOk(sys, x) ensures BodyOk(sys, sys.trace(b, x)) {
      forall i: nat, y | i < |fn.blocks[b]| && FactOk(sys, y) ensures FactOk(sys, Stepper(fn, b)(i, y)) {
        WithinUniverse(fn, y);
        TransferWithin(fn, b, i, y);
        WithinUniverse(fn, Transfer(fn.blocks[b][i], Point(b, i), y));
      }
      ChainBodyOk(sys, Stepper(fn, b), |fn.blocks[b]|, x);
    }
    forall p: nat, b: nat, body | p < sys.n && b < sys.n && BodyOk(sys, body)
      ensures EntryOk(sys, b, sys.flow(p, b, body)) {
      if body != [] { assert FactOk(sys, body[|body| - 1]); }
    }
  }

  /** Unites `other` into `x`, entry by entry. */
  method Join(x: Fact, other: Fact) returns (r: Fact)
    ensures r == Joined(x, other)
  {
    r := x;
    var keys := other.Keys;
    while keys != {}
      invariant keys <= other.Keys
      invariant r.Keys == x.Keys + (other.Keys - keys)
      invariant forall v :: v in r ==> r[v] == if v in keys then x[v] else Held(x, v) + Held(other, v)
    {
      var v :| v in keys;
      assert other.Keys - (keys - {v}) == (other.Keys - keys) + {v};
      r := r[v := Held(r, v) + other[v]];
      keys := keys - {v};
    }
    JoinedMeans(x, other, r);
  }

  lemma JoinedMeans(x: Fact, other: Fact, r: Fact)
    requires r.Keys == x.Keys + other.Keys && forall v :: v in r ==> r[v] == Held(x, v) + Held(other, v)
    ensures r == Joined(x, other)
  {
  }

  // ----- The pass -----

  class ReturnPropagationPass {
    const fn: Func
    var entry: seq<Fact>       // the fact before each block's first instruction
    var outs: seq<seq<Fact>>   // the fact after each instruction, by block

    function Facts(): State<Fact>
      reads this
    {
      State(entry, outs)
    }

    predicate Shaped()
      reads this
    {
      && WellFormed(fn)
      && |entry| == |outs| == |fn.blocks|
      && forall b :: 0 <= b < |fn.blocks| ==> |outs[b]| == |fn.blocks[b]|
    }

    ghost predicate Valid()
      reads this
    {
      Shaped() && Ok(Problem(fn), Facts())
    }

    constructor (fn: Func)
      requires WellFormed(fn)
      ensures Valid() && this.fn == fn
      ensures Facts() == Uniform(fn, map[])
    {
      this.fn := fn;
      entry := seq(|fn.blocks|, _ => map[]);
      outs := seq(|fn.blocks|, b requires 0 <= b < |fn.blocks| => seq(|fn.blocks[b]|, _ => map[]));
    }

    /** Sweeps until a sweep changes no fact inside a block. */
    method RunOnFunction()
      requires Valid()
      modifies this
      ensures Valid() && Stable(Problem(fn), Facts()) && SweptFrom(Problem(fn), old(Facts()), Facts())
    {
      ghost var sys := Problem(fn);
      ProblemIsLawful(fn);
      NotSweptYet(sys, Facts());
      var changed := true;
      while changed
        invariant Valid() && SweptFrom(sys, old(Facts()), Facts())
        invariant !changed ==> Stable(sys, Facts())
        decreases Missing(sys, Facts()), if Stale(sys, Facts()) then 1 else 0, if changed then 1 else 0
      {
        SweepOnward(sys, old(Facts()), Facts());
        changed := VisitBlocks();
      }
    }

    method VisitBlocks() returns (changed: bool)
      requires Shaped()
      modifies this
      ensures Shaped()
      ensures Facts() == SweepTo(Problem(fn), old(Facts()), |fn.blocks|)
      ensures changed == ChangedTo(Problem(fn), old(Facts()), |fn.blocks|)
    {
      ghost var sys, start := Problem(fn), Facts();
      changed := false;
      for b := 0 to |fn.blocks|
        invariant Shaped()
        invariant Facts() == SweepTo(sys, start, b) && changed == ChangedTo(sys, start, b)
      {
        var blockChanged := JoinAndVisit(b);
        changed := blockChanged || changed;
      }
    }

    method JoinAndVisit(b: nat) returns (changed: bool)
      requires Shaped() && b < |fn.blocks|
      modifies this
      ensures Shaped()
      ensures Facts() == Visit(Problem(fn), old(Facts()), b)
      ensures changed == (outs[b] != old(outs)[b])
    {
      // Join over predecessor blocks
      for p := 0 to |fn.blocks|
        invariant outs == old(outs)
        invariant entry == old(entry)[b := Gather(Problem(fn), old(Facts()), b, p)]
      {
        if Edge(fn, p, b) {
          var joined := Join(entry[b], outs[p][|outs[p]| - 1]);
          entry := entry[b := joined];
        }
      }
      changed := VisitBlock(b);
    }

    method VisitBlock(b: nat) returns (changed: bool)
      requires Shaped() && b < |fn.blocks|
      modifies this`outs
      ensures Shaped()
      ensures outs == old(outs)[b := Chain(Stepper(fn, b), |fn.blocks[b]|, entry[b])]
      ensures changed == (outs[b] != old(outs)[b])
    {
      changed := false;
      ghost var step := Stepper(fn, b);
      var row := outs[b];
      for i := 0 to |fn.blocks[b]|
        invariant outs == old(outs) && Halfway(step, entry[b], outs[b], row, i, changed)
      {
        var after := Transfer(fn.blocks[b][i], Point(b, i), if i == 0 then entry[b] else row[i - 1]);
        OneFurther(step, entry[b], outs[b], row, i, changed, after);
        changed := changed || after != row[i];
        row := row[i := after];
      }
      AllTheWay(step, entry[b], outs[b], row, changed);
      outs := outs[b := row];
    }
  }
}
