/** Ranges of returned values and of functions: the pass of
    eesi/src/return_range_pass.cc. */
module ReturnRange {
  import opened IR
  import opened CallGraph
  import opened ICmps
  import opened Signs
  import opened SignFacts
  import opened Shapes
  import opened Sweep
  import Returned = ReturnedValues

  /** Ranges of the returnable values at a point. */
  type Ranges = SignFacts.Fact<Value>

  /** The returned-values facts of one function. */
  type ReturnedFacts = State<Returned.Fact>

  // ----- Abstraction of values -----

  function AbstractCall(prog: Module, ranges: map<string, Sign>, callee: Callee): Sign {
    match callee
    case Unresolved => Top
    case Direct(g) => if g !in prog then Top else if g in ranges then ranges[g] else Bottom
  }

  function AbstractValue(prog: Module, fn: Func, ranges: map<string, Sign>, v: Value): Sign {
    match v
    case Int(n) => AbstractInteger(n)
    case Bool(b) => if b then NotZero else Sign.Zero
    case NullPointer => Sign.Zero
    case Literal(_) => NotZero
    case Reg(at) =>
      if !InFunc(fn, at) then Top else (
        match At(fn, at)
        case Call(callee, _) => AbstractCall(prog, ranges, callee)
        case ZExt(_, _) => GreaterThanEqualZero
        case _ => Top
      )
    case _ => Top
  }

  /** The range of v where `f` holds: its entry, or what v abstracts to. */
  function RangeOf(prog: Module, fn: Func, ranges: map<string, Sign>, f: Ranges, v: Value): Sign {
    if v in f then f[v] else AbstractValue(prog, fn, ranges, v)
  }

  // ----- Checks of returnable slots -----

  /** The slot whose content comparison operand `v` is: v was loaded from it,
      or stored to it right before the comparison at `cmp`. */
  function CheckedBy(fn: Func, cmp: Point, v: Value): Option<nat>
    requires InFunc(fn, cmp)
  {
    if v.Reg? && InFunc(fn, v.at) && At(fn, v.at).Load? then Some(At(fn, v.at).slot)
    else if cmp.index > 0 then (
      match fn.blocks[cmp.block][cmp.index - 1]
      case Store(w, s) => if w == v then Some(s) else None
      case _ => None
    )
    else None
  }

  /** The same, if the slot's content can be returned. */
  function CheckedReturnValue(fn: Func, cmp: Point, v: Value, rvf: Returned.Fact): Option<nat>
    requires InFunc(fn, cmp)
  {
    var s := CheckedBy(fn, cmp, v);
    if s.Some? && Slot(s.value) in rvf then s else None
  }

  /** The returnable slot that the terminator of block b checks. */
  function CheckedSlot(fn: Func, b: nat, rvf: Returned.Fact): Option<nat>
    requires b < |fn.blocks| && |fn.blocks[b]| > 0
  {
    var ins := Last(fn.blocks[b]);
    match ins
    case CondBr(_, _, _) =>
      var icmp := Comparison(fn, ins);
      if icmp.None? then None else
      var first := CheckedReturnValue(fn, ins.cond.at, icmp.value.x, rvf);
      if first.Some? then first else CheckedReturnValue(fn, ins.cond.at, icmp.value.y, rvf)
    case Switch(cond, _, _) => CheckedReturnValue(fn, Point(b, |fn.blocks[b]| - 1), cond, rvf)
    case _ => None
  }

  /** A check is not the first instruction of its block. */
  lemma ChecksFollow(fn: Func, b: nat, rvf: Returned.Fact)
    requires b < |fn.blocks| && BlockOk(fn, fn.blocks[b]) && CheckedSlot(fn, b, rvf).Some?
    ensures |fn.blocks[b]| >= 2
  {
  }

  // ----- Transfer -----

  /** Only the entries of returnable values. */
  function Filtered(f: Ranges, rvf: Returned.Fact): Ranges {
    map v | v in f && v in rvf :: f[v]
  }

  /** The values returnable from the start of block b. */
  function ReturnableAt(fn: Func, rst: ReturnedFacts, b: nat): Returned.Fact
    requires Shape(fn, rst)
  {
    if b < |fn.blocks| && |fn.blocks[b]| > 0 then rst.body[b][0] else {}
  }

  /** The ranges after instruction `at`, from those before it. */
  function Transfer(prog: Module, fn: Func, rst: ReturnedFacts, ranges: map<string, Sign>, at: Point, f: Ranges): Ranges
    requires Shape(fn, rst) && InFunc(fn, at)
  {
    var rvf := Returned.OutFact(rst, at);
    var ins := At(fn, at);
    match ins
    case Store(v, s) =>
      if Slot(s) in rvf then Filtered(f, rvf)[Slot(s) := RangeOf(prog, fn, ranges, f, v)] else Filtered(f, rvf)
    case Load(s) =>
      if Reg(at) in rvf then Filtered(f, rvf)[Reg(at) := RangeOf(prog, fn, ranges, f, Slot(s))] else Filtered(f, rvf)
    case Cast(_, v) =>
      if Reg(at) in rvf then Filtered(f, rvf)[Reg(at) := RangeOf(prog, fn, ranges, f, v)] else Filtered(f, rvf)
    case Ret(_) => map[]
    case _ =>
      if at.index + 1 == |fn.blocks[at.block]| && CheckedSlot(fn, at.block, rvf).Some?
      then Filtered(f, rvf) - {Slot(CheckedSlot(fn, at.block, rvf).value)} else Filtered(f, rvf)
  }

  /** The range of slot s on an edge where its content is described by `e`. */
  function RefinedRange(f: Ranges, s: nat, e: Sign): Sign {
    if Slot(s) in f then Signs.Meet(f[Slot(s)], e) else e
  }

  /** One direct write: nothing, if the slot is not returnable there. */
  function WriteTo(fn: Func, rst: ReturnedFacts, t: nat, s: nat, e: Sign): seq<(nat, Ranges)>
    requires Shape(fn, rst)
  {
    if Slot(s) in ReturnableAt(fn, rst, t) then [(t, map[Slot(s) := e])] else []
  }

  function CaseWrites(fn: Func, rst: ReturnedFacts, f: Ranges, s: nat, cases: seq<(int, nat)>): seq<(nat, Ranges)>
    requires Shape(fn, rst)
  {
    if cases == [] then []
    else
      var last := cases[|cases| - 1];
      CaseWrites(fn, rst, f, s, cases[..|cases| - 1])
      + WriteTo(fn, rst, last.1, s, RefinedRange(f, s, AbstractInteger(last.0)))
  }

  /** What the terminator of block b writes directly into the facts its
      successors start with, from the ranges before it. */
  function Writes(fn: Func, rst: ReturnedFacts, b: nat, f: Ranges): seq<(nat, Ranges)>
    requires Shape(fn, rst) && b < |fn.blocks| && |fn.blocks[b]| > 0
  {
    var ins := Last(fn.blocks[b]);
    var checked := CheckedSlot(fn, b, rst.entry[b]);
    if checked.None? then [] else
    var s := checked.value;
    match ins
    case CondBr(_, t, e) =>
      var icmp := Comparison(fn, ins).value;
      var signs := AbstractICmp(icmp.pred, icmp.x, icmp.y);
      WriteTo(fn, rst, t, s, RefinedRange(f, s, signs.0)) + WriteTo(fn, rst, e, s, RefinedRange(f, s, signs.1))
    case Switch(_, cases, default) =>
      CaseWrites(fn, rst, f, s, cases)
      + (if Slot(s) in f then WriteTo(fn, rst, default, s, f[Slot(s)]) else [])
  }

  // ----- The pass as a sweep -----

  /** The values that an instruction makes entries for: slots and copies. */
  function Copies(ins: Instr, at: Point): set<Value> {
    (if ins.Store? || ins.Load? then {Slot(ins.slot)} else {}) + (if IsLoadLike(ins) then {Reg(at)} else {})
  }

  ghost function CopyKeys(fn: Func): set<Value> {
    set b, i, v {:trigger v in Copies(fn.blocks[b][i], Point(b, i))} |
      0 <= b < |fn.blocks| && 0 <= i < |fn.blocks[b]| && v in Copies(fn.blocks[b][i], Point(b, i)) :: v
  }

  /** The part of the return ranges that a function's facts depend on. */
  ghost function Env(fn: Func, ranges: map<string, Sign>): map<string, Sign> {
    map g | g in ranges && g in Callees(fn) :: ranges[g]
  }

  ghost function Stepper(prog: Module, fn: Func, rst: ReturnedFacts, env: map<string, Sign>, b: nat):
    (nat, Ranges) -> Ranges
    requires Shape(fn, rst)
  {
    (i: nat, f: Ranges) =>
      if InFunc(fn, Point(b, i)) then Transfer(prog, fn, rst, env, Point(b, i), f) else f
  }

  ghost function BlockWrites(fn: Func, rst: ReturnedFacts, b: nat, body: seq<Ranges>): seq<(nat, Ranges)>
    requires Shape(fn, rst)
  {
    if b < |fn.blocks| && |body| == |fn.blocks[b]| >= 2 && IsConditional(Last(fn.blocks[b]))
    then Writes(fn, rst, b, body[|body| - 2]) else []
  }

  ghost function Bound(fn: Func, rst: ReturnedFacts, b: nat): set<(Value, Option<Region>)>
    requires Shape(fn, rst)
  {
    Universe(CopyKeys(fn) * ReturnableAt(fn, rst, b))
  }

  ghost function Problem(prog: Module, fn: Func, rst: ReturnedFacts, env: map<string, Sign>):
    System<Ranges, (Value, Option<Region>)>
    requires Shape(fn, rst)
  {
    System(
      |fn.blocks|,
      (x: Ranges, y: Ranges) => Joined(x, y),
      (x: Ranges) => Atoms(x),
      Universe(CopyKeys(fn)),
      (b: nat) => Bound(fn, rst, b),
      (p: nat, b: nat) => Edge(fn, p, b),
      (p: nat, b: nat, body: seq<Ranges>) =>
        if body == [] then map[] else Filtered(body[|body| - 1], ReturnableAt(fn, rst, b)),
      (b: nat, x: Ranges) =>
        if b < |fn.blocks| then Chain(Stepper(prog, fn, rst, env, b), |fn.blocks[b]|, x) else [],
      (b: nat, body: seq<Ranges>) => BlockWrites(fn, rst, b, body))
  }

  lemma InCopyKeys(fn: Func, b: nat, i: nat)
    requires InFunc(fn, Point(b, i))
    ensures fn.blocks[b][i].Store? || fn.blocks[b][i].Load? ==> Slot(fn.blocks[b][i].slot) in CopyKeys(fn)
    ensures IsLoadLike(fn.blocks[b][i]) ==> Reg(Point(b, i)) in CopyKeys(fn)
  {
    assert forall v :: v in Copies(fn.blocks[b][i], Point(b, i)) ==> v in CopyKeys(fn);
  }

  lemma TransferWithin(prog: Module, fn: Func, rst: ReturnedFacts, env: map<string, Sign>, at: Point, f: Ranges)
    requires Shape(fn, rst) && InFunc(fn, at) && f.Keys <= CopyKeys(fn)
    ensures Transfer(prog, fn, rst, env, at, f).Keys <= CopyKeys(fn)
  {
    InCopyKeys(fn, at.block, at.index);
  }

  lemma CheckedInCopyKeys(fn: Func, b: nat, rvf: Returned.Fact)
    requires b < |fn.blocks| && |fn.blocks[b]| > 0 && CheckedSlot(fn, b, rvf).Some?
    ensures Slot(CheckedSlot(fn, b, rvf).value) in CopyKeys(fn)
    ensures Slot(CheckedSlot(fn, b, rvf).value) in rvf
  {
    var ins, last := Last(fn.blocks[b]), Point(b, |fn.blocks[b]| - 1);
    if ins.CondBr? {
      var icmp := Comparison(fn, ins).value;
      CheckedByCopy(fn, ins.cond.at, icmp.x);
      CheckedByCopy(fn, ins.cond.at, icmp.y);
    } else {
      CheckedByCopy(fn, last, ins.cond);
    }
  }

  lemma CheckedByCopy(fn: Func, cmp: Point, v: Value)
    requires InFunc(fn, cmp)
    ensures CheckedBy(fn, cmp, v).Some? ==> Slot(CheckedBy(fn, cmp, v).value) in CopyKeys(fn)
  {
    if v.Reg? && InFunc(fn, v.at) { InCopyKeys(fn, v.at.block, v.at.index); }
    if cmp.index > 0 { InCopyKeys(fn, cmp.block, cmp.index - 1); }
  }

  lemma {:induction false} CaseWritesAre(fn: Func, rst: ReturnedFacts, f: Ranges, s: nat, cases: seq<(int, nat)>)
    requires Shape(fn, rst)
    ensures forall w :: w in CaseWrites(fn, rst, f, s, cases) <==>
              exists k :: 0 <= k < |cases|
                          && w in WriteTo(fn, rst, cases[k].1, s, RefinedRange(f, s, AbstractInteger(cases[k].0)))
  {
    if cases != [] {
      var init, last := cases[..|cases| - 1], |cases| - 1;
      CaseWritesAre(fn, rst, f, s, init);
      forall w ensures w in CaseWrites(fn, rst, f, s, cases) <==>
                exists k :: 0 <= k < |cases|
                            && w in WriteTo(fn, rst, cases[k].1, s, RefinedRange(f, s, AbstractInteger(cases[k].0)))
      {
        if w in CaseWrites(fn, rst, f, s, init) {
          var k :| 0 <= k < |init|
                   && w in WriteTo(fn, rst, init[k].1, s, RefinedRange(f, s, AbstractInteger(init[k].0)));
          assert w in WriteTo(fn, rst, cases[k].1, s, RefinedRange(f, s, AbstractInteger(cases[k].0)));
        }
        if k :| 0 <= k < last
                && w in WriteTo(fn, rst, cases[k].1, s, RefinedRange(f, s, AbstractInteger(cases[k].0))) {
          assert w in WriteTo(fn, rst, init[k].1, s, RefinedRange(f, s, AbstractInteger(init[k].0)));
        }
      }
    }
  }

  /** A direct write goes to a successor where the slot is returnable, and is
      about that slot only. */
  lemma WriteShape(fn: Func, rst: ReturnedFacts, b: nat, f: Ranges, w: (nat, Ranges))
    requires Shape(fn, rst) && b < |fn.blocks| && |fn.blocks[b]| > 0
    requires IsConditional(Last(fn.blocks[b])) && w in Writes(fn, rst, b, f)
    ensures CheckedSlot(fn, b, rst.entry[b]).Some?
    ensures var k := Slot(CheckedSlot(fn, b, rst.entry[b]).value);
            w.0 in Successors(Last(fn.blocks[b])) && w.1.Keys == {k} && k in ReturnableAt(fn, rst, w.0)
  {
    var ins := Last(fn.blocks[b]);
    var s := CheckedSlot(fn, b, rst.entry[b]).value;
    if ins.Switch? && w in CaseWrites(fn, rst, f, s, ins.cases) {
      CaseWritesAre(fn, rst, f, s, ins.cases);
      var j :| 0 <= j < |ins.cases|
               && w in WriteTo(fn, rst, ins.cases[j].1, s, RefinedRange(f, s, AbstractInteger(ins.cases[j].0)));
      assert ins.cases[j].1 in CaseTargets(ins.cases);
    }
  }

  lemma BlockWritesOk(prog: Module, fn: Func, rst: ReturnedFacts, env: map<string, Sign>, b: nat, body: seq<Ranges>)
    requires WellFormed(fn) && Shape(fn, rst) && b < |fn.blocks|
    ensures WritesOk(Problem(prog, fn, rst, env), BlockWrites(fn, rst, b, body))
  {
    var ws := BlockWrites(fn, rst, b, body);
    assert BlockOk(fn, fn.blocks[b]);
    forall k | 0 <= k < |ws| ensures ws[k].0 < |fn.blocks| && Atoms(ws[k].1) <= Bound(fn, rst, ws[k].0) {
      WriteShape(fn, rst, b, body[|body| - 2], ws[k]);
      CheckedInCopyKeys(fn, b, rst.entry[b]);
      AtomsWithin(ws[k].1, CopyKeys(fn) * ReturnableAt(fn, rst, ws[k].0));
    }
    forall t ensures Bound(fn, rst, t) <= Universe(CopyKeys(fn)) { BoundWithin(fn, rst, t); }
  }

  lemma BoundWithin(fn: Func, rst: ReturnedFacts, b: nat)
    requires Shape(fn, rst)
    ensures Bound(fn, rst, b) <= Universe(CopyKeys(fn))
  {
  }

  lemma ProblemIsLawful(prog: Module, fn: Func, rst: ReturnedFacts, env: map<string, Sign>)
    requires WellFormed(fn) && Shape(fn, rst)
    ensures Laws(Problem(prog, fn, rst, env))
  {
    var sys, keys := Problem(prog, fn, rst, env), CopyKeys(fn);
    forall x, y ensures sys.enc(sys.join(x, y)) == sys.enc(x) + sys.enc(y) { AtomsJoin(x, y); }
    forall x, y | sys.enc(x) == sys.enc(y) ensures x == y { AtomsInjective(x, y); }
    forall b: nat, x | b < sys.n && FactOk(sys, x) ensures BodyOk(sys, sys.trace(b, x)) {
      forall i: nat, y | i < |fn.blocks[b]| && FactOk(sys, y)
        ensures FactOk(sys, Stepper(prog, fn, rst, env, b)(i, y))
      {
        AtomsWithin(y, keys);
        TransferWithin(prog, fn, rst, env, Point(b, i), y);
        AtomsWithin(Transfer(prog, fn, rst, env, Point(b, i), y), keys);
      }
      ChainBodyOk(sys, Stepper(prog, fn, rst, env, b), |fn.blocks[b]|, x);
    }
    forall p: nat, b: nat, body | p < sys.n && b < sys.n && BodyOk(sys, body)
      ensures EntryOk(sys, b, sys.flow(p, b, body))
    {
      BoundWithin(fn, rst, b);
      if body != [] {
        assert FactOk(sys, body[|body| - 1]);
        AtomsWithin(body[|body| - 1], keys);
      }
      AtomsWithin(sys.flow(p, b, body), keys * ReturnableAt(fn, rst, b));
    }
    forall b: nat, body | b < sys.n && BodyOk(sys, body) ensures WritesOk(sys, sys.writes(b, body)) {
      BlockWritesOk(prog, fn, rst, env, b, body);
    }
  }
}
