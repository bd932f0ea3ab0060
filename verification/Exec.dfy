/** Concrete executions of the fragment over mathematical integers.  Every
    integer carries where it came from: the call that returned it, or the
    integer constant as which it was stored.  Loads, stores and pointer casts
    copy that origin, and arithmetic hands on that of its left operand. */
module Exec {
  import opened IR

  datatype Datum = Datum(n: int, origin: Option<Value>)

  datatype Frame = Frame(name: string, at: Point, regs: map<Point, Datum>, mem: map<nat, Datum>, args: seq<int>)

  function Plain(n: int): Datum {
    Datum(n, None)
  }

  /** What is stored for operand v: an integer constant starts its way here. */
  function AsStored(v: Value, d: Datum): Datum {
    if IsConstantInt(v) then Datum(d.n, Some(v)) else d
  }

  /** Functions have different addresses, none of them null. */
  function AddressOf(name: string): nat
    ensures AddressOf(name) > 0
  {
    if name == "" then 1 else AddressOf(name[1..]) * 0x110000 + name[0] as int
  }

  /** The value of an operand; undefined for a register that was never written,
      an argument that was not passed, and the address of a slot. */
  function Eval(fr: Frame, v: Value): Option<Datum> {
    match v
    case Int(_) => Some(Plain(ConstantValue(v)))
    case Bool(_) => Some(Plain(ConstantValue(v)))
    case NullPointer => Some(Plain(0))
    case Literal(id) => Some(Plain(id + 1))
    case Arg(k) => if k < |fr.args| then Some(Plain(fr.args[k])) else None
    case Reg(at) => if at in fr.regs then Some(fr.regs[at]) else None
    case Slot(_) => None
    case Address(name) => Some(Plain(AddressOf(name)))
  }

  /** What a value holds: the content of a slot, or the operand's value. */
  function Content(fr: Frame, v: Value): Option<Datum> {
    if v.Slot? then (if v.slot in fr.mem then Some(fr.mem[v.slot]) else None) else Eval(fr, v)
  }

  /** Comparison of integers, without regard to machine words. */
  function Compare(p: Predicate, a: int, b: int): bool {
    match p
    case EQ => a == b
    case NE => a != b
    case SLT => a < b
    case ULT => a < b
    case SLE => a <= b
    case ULE => a <= b
    case SGT => a > b
    case UGT => a > b
    case SGE => a >= b
    case UGE => a >= b
  }

  predicate IsUnsigned(p: Predicate) {
    p.ULT? || p.ULE? || p.UGT? || p.UGE?
  }

  /** What a machine finds: to an unsigned predicate, the negative integers are
      those above all naturals. */
  function Outcome(p: Predicate, a: int, b: int): bool {
    if IsUnsigned(p) && (a < 0) != (b < 0) then Compare(p, b, a) else Compare(p, a, b)
  }

  function Advance(fr: Frame): Frame {
    fr.(at := Point(fr.at.block, fr.at.index + 1))
  }

  function Define(fr: Frame, d: Datum): Frame {
    Advance(fr.(regs := fr.regs[fr.at := d]))
  }

  function Goto(fr: Frame, b: nat): Frame {
    fr.(at := Point(b, 0))
  }

  /** First matching case, or the default. */
  function SwitchTarget(cases: seq<(int, nat)>, default: nat, n: int): nat {
    if cases == [] then default
    else if cases[0].0 == n then cases[0].1
    else SwitchTarget(cases[1..], default, n)
  }

  /** One instruction of one frame.  `c` is the result of a call and of the
      instructions whose result the model leaves open; `None` is a stuck
      frame, and a frame that returns. */
  function FrameStep(fn: Func, fr: Frame, c: int): Option<Frame> {
    if !InFunc(fn, fr.at) then None else
    match At(fn, fr.at)
    case Alloca(s) => Some(Advance(fr.(mem := fr.mem - {s})))
    case Load(s) => if s in fr.mem then Some(Define(fr, fr.mem[s])) else None
    case Store(v, s) =>
      var d := Eval(fr, v);
      if d.Some? then Some(Advance(fr.(mem := fr.mem[s := AsStored(v, d.value)]))) else None
    case Cast(op, v) =>
      var d := Eval(fr, v);
      if d.None? then None
      else Some(Define(fr, if op.SExt? then Plain(d.value.n) else d.value))
    case ZExt(v, bits) =>
      var d := Eval(fr, v);
      if d.None? then None else Some(Define(fr, Plain(d.value.n % Pow2(bits))))
    case BinOp(l, _) => Some(Define(fr, Datum(c, if Eval(fr, l).Some? then Eval(fr, l).value.origin else None)))
    case Opaque => Some(Define(fr, Plain(c)))
    case ICmp(p, x, y) =>
      var dx, dy := Eval(fr, x), Eval(fr, y);
      if dx.None? || dy.None? then None
      else Some(Define(fr, Plain(if Outcome(p, dx.value.n, dy.value.n) then -1 else 0)))
    case Call(_, _) => Some(Define(fr, Datum(c, Some(Reg(fr.at)))))
    case Br(t) => Some(Goto(fr, t))
    case CondBr(v, t, f) =>
      var d := Eval(fr, v);
      if d.None? then None else Some(Goto(fr, if d.value.n != 0 then t else f))
    case Switch(v, cases, default) =>
      var d := Eval(fr, v);
      if d.None? then None else Some(Goto(fr, SwitchTarget(cases, default, d.value.n)))
    case Ret(_) => None
  }

  /** The value a frame is about to return. */
  function Returning(fn: Func, fr: Frame): Option<Datum> {
    if InFunc(fn, fr.at) && At(fn, fr.at).Ret? then Eval(fr, At(fn, fr.at).val) else None
  }

  /** A call stack, innermost frame last. */
  type Stack = seq<Frame>

  function Entry(name: string, args: seq<int>): Frame {
    Frame(name, Point(0, 0), map[], map[], args)
  }

  function EvalAll(fr: Frame, vs: seq<Value>): Option<seq<int>> {
    if vs == [] then Some([])
    else
      var d, rest := Eval(fr, vs[0]), EvalAll(fr, vs[1..]);
      if d.None? || rest.None? then None else Some([d.value.n] + rest.value)
  }

  /** One step of a whole program: calls of defined functions push a frame,
      returns hand their value to the waiting caller, everything else is a
      step of the innermost frame. */
  function Step(prog: Module, st: Stack, c: int): Option<Stack> {
    if st == [] || st[|st| - 1].name !in prog then None else
    var fr, rest := st[|st| - 1], st[..|st| - 1];
    var fn := prog[fr.name];
    if !InFunc(fn, fr.at) then None else
    match At(fn, fr.at)
    case Ret(_) =>
      var d := Returning(fn, fr);
      if d.None? || rest == [] || rest[|rest| - 1].name !in prog then None else
      var caller := rest[|rest| - 1];
      var resumed := FrameStep(prog[caller.name], caller, d.value.n);
      if resumed.None? then None else Some(rest[..|rest| - 1] + [resumed.value])
    case Call(Direct(g), args) =>
      if g in prog then
        var vs := EvalAll(fr, args);
        if vs.None? then None else Some(st + [Entry(g, vs.value)])
      else
        var next := FrameStep(fn, fr, c);
        if next.None? then None else Some(rest + [next.value])
    case _ =>
      var next := FrameStep(fn, fr, c);
      if next.None? then None else Some(rest + [next.value])
  }

  ghost predicate StepsTo(prog: Module, st: Stack, next: Stack) {
    exists c: int :: Step(prog, st, c) == Some(next)
  }

  /** A run of the program from a call of some function. */
  ghost predicate IsRun(prog: Module, run: seq<Stack>) {
    && |run| > 0
    && |run[0]| == 1 && run[0][0] == Entry(run[0][0].name, run[0][0].args)
    && forall k :: 0 <= k < |run| - 1 ==> StepsTo(prog, run[k], run[k + 1])
  }

  ghost predicate FrameStepsTo(fn: Func, fr: Frame, next: Frame) {
    exists c: int :: FrameStep(fn, fr, c) == Some(next)
  }

  /** A stretch of the execution of one frame, in which calls may return
      anything. */
  ghost predicate IsFrameRun(fn: Func, run: seq<Frame>) {
    |run| > 0 && forall k :: 0 <= k < |run| - 1 ==> FrameStepsTo(fn, run[k], run[k + 1])
  }

  lemma {:induction false} SwitchTargetIsCase(cases: seq<(int, nat)>, default: nat, n: int)
    ensures SwitchTarget(cases, default, n) in CaseTargets(cases) + {default}
  {
    if cases != [] && cases[0].0 != n {
      SwitchTargetIsCase(cases[1..], default, n);
      if SwitchTarget(cases[1..], default, n) in CaseTargets(cases[1..]) {
        var k :| 0 <= k < |cases[1..]| && cases[1..][k].1 == SwitchTarget(cases[1..], default, n);
        assert cases[k + 1].1 == SwitchTarget(cases, default, n);
      }
    } else if cases != [] {
      assert cases[0].1 in CaseTargets(cases);
    }
  }

  /** A terminator moves to the start of one of its successors and changes no
      register or slot. */
  lemma JumpsToSuccessor(fn: Func, fr: Frame, next: Frame, c: int)
    requires WellFormed(fn) && FrameStep(fn, fr, c) == Some(next)
    requires IsTerminator(At(fn, fr.at)) || fr.at.index + 1 == |fn.blocks[fr.at.block]|
    ensures IsTerminator(At(fn, fr.at)) && At(fn, fr.at) == Last(fn.blocks[fr.at.block])
    ensures next.at.index == 0 && Edge(fn, fr.at.block, next.at.block) && InFunc(fn, next.at)
    ensures next == fr.(at := next.at)
  {
    var blk := fn.blocks[fr.at.block];
    assert BlockOk(fn, blk);
    var ins := At(fn, fr.at);
    if ins.Switch? {
      SwitchTargetIsCase(ins.cases, ins.default, Eval(fr, ins.cond).value.n);
    }
    assert next.at.block in Successors(Last(blk));
    assert BlockOk(fn, fn.blocks[next.at.block]);
  }

  /** An instruction changes only its own register, its own slot and the
      program point. */
  lemma StepFrame(fn: Func, fr: Frame, c: int, next: Frame, v: Value)
    requires FrameStep(fn, fr, c) == Some(next)
    requires !(HasResult(At(fn, fr.at)) && v == Reg(fr.at))
    requires !(At(fn, fr.at).Store? && v == Slot(At(fn, fr.at).slot))
    ensures || Content(next, v) == Content(fr, v)
            || (At(fn, fr.at) == Alloca(if v.Slot? then v.slot else 0) && Content(next, v).None?)
  {
  }
}
