/** A register-machine fragment of LLVM IR, as the passes see it after
    reg2mem: basic blocks over stack slots, without PHI nodes.  A slot is only
    ever loaded and stored, so its address neither escapes nor is returned. */
module IR {

  datatype Option<+T> = None | Some(value: T)

  /** Instruction `index` of block `block`. */
  datatype Point = Point(block: nat, index: nat)

  datatype Value =
    | Int(n: int)              // integer constant wider than one bit
    | Bool(b: bool)            // one-bit integer constant
    | NullPointer
    | Literal(id: nat)         // string literal
    | Address(name: string)    // address of a function
    | Arg(k: nat)
    | Slot(slot: nat)          // the pointer an alloca yields
    | Reg(at: Point)           // the result of an instruction

  datatype Predicate = EQ | NE | SLT | SLE | SGT | SGE | ULT | ULE | UGT | UGE

  datatype CastOp = BitCast | PtrToInt | SExt

  /** A call target; `Unresolved` is an indirect call or an intrinsic. */
  datatype Callee = Unresolved | Direct(name: string)

  datatype Instr =
    | Alloca(slot: nat)
    | Load(slot: nat)
    | Store(val: Value, slot: nat)
    | Cast(op: CastOp, val: Value)
    | ZExt(val: Value, bits: nat)
    | BinOp(lhs: Value, rhs: Value)
    | Opaque                                   // any other value-producing instruction
    | ICmp(pred: Predicate, x: Value, y: Value)
    | Call(callee: Callee, args: seq<Value>)
    | Br(target: nat)
    | CondBr(cond: Value, onTrue: nat, onFalse: nat)
    | Switch(cond: Value, cases: seq<(int, nat)>, default: nat)
    | Ret(val: Value)

  type Block = seq<Instr>

  /** A defined function returning an integer or a pointer. */
  datatype Func = Func(blocks: seq<Block>, returnsPointer: bool)

  /** Defined functions by (source) name; any other name is a declaration. */
  type Module = map<string, Func>

  predicate IsTerminator(ins: Instr) {
    ins.Br? || ins.CondBr? || ins.Switch? || ins.Ret?
  }

  predicate HasResult(ins: Instr) {
    ins.Load? || ins.Cast? || ins.ZExt? || ins.BinOp? || ins.Opaque? || ins.ICmp? || ins.Call?
  }

  predicate IsConditional(ins: Instr) {
    ins.CondBr? || ins.Switch?
  }

  /** A branch or switch on the result of an instruction. */
  predicate IsTest(ins: Instr) {
    IsConditional(ins) && ins.cond.Reg?
  }

  function CaseTargets(cases: seq<(int, nat)>): (r: set<nat>) {
    set k | 0 <= k < |cases| :: cases[k].1
  }

  function Successors(ins: Instr): set<nat> {
    match ins
    case Br(t) => {t}
    case CondBr(_, t, f) => {t, f}
    case Switch(_, cases, d) => CaseTargets(cases) + {d}
    case _ => {}
  }

  function Last(blk: Block): Instr
    requires |blk| > 0
  {
    blk[|blk| - 1]
  }

  predicate BlockOk(fn: Func, blk: Block) {
    && |blk| > 0
    && IsTerminator(Last(blk))
    && (forall i :: 0 <= i < |blk| - 1 ==> !IsTerminator(blk[i]))
    && (forall s :: s in Successors(Last(blk)) ==> s < |fn.blocks|)
    // A block never starts with a test: what is tested is loaded and compared
    // in the block itself.
    && (IsTest(Last(blk)) ==> |blk| >= 2)
  }

  predicate WellFormed(fn: Func) {
    && |fn.blocks| > 0
    && forall b {:trigger BlockOk(fn, fn.blocks[b])} :: 0 <= b < |fn.blocks| ==> BlockOk(fn, fn.blocks[b])
  }

  predicate InFunc(fn: Func, at: Point) {
    at.block < |fn.blocks| && at.index < |fn.blocks[at.block]|
  }

  function At(fn: Func, at: Point): Instr
    requires InFunc(fn, at)
  {
    fn.blocks[at.block][at.index]
  }

  predicate IsInstruction(fn: Func, v: Value) {
    v.Reg? && InFunc(fn, v.at)
  }

  /** The comparison that decides a conditional branch. */
  function Comparison(fn: Func, ins: Instr): Option<Instr> {
    if ins.CondBr? && IsInstruction(fn, ins.cond) && At(fn, ins.cond.at).ICmp?
    then Some(At(fn, ins.cond.at)) else None
  }

  /** Edge of the control-flow graph. */
  predicate Edge(fn: Func, p: nat, b: nat) {
    p < |fn.blocks| && |fn.blocks[p]| > 0 && b in Successors(Last(fn.blocks[p]))
  }

  /** Point `next` may follow point `at`. */
  predicate Follows(fn: Func, at: Point, next: Point) {
    && InFunc(fn, at) && InFunc(fn, next)
    && if at.index + 1 < |fn.blocks[at.block]| then next == Point(at.block, at.index + 1)
       else next.index == 0 && Edge(fn, at.block, next.block)
  }

  /** The result of this instruction is a copy of its operand. */
  predicate IsLoadLike(ins: Instr) {
    ins.Load? || ins.Cast?
  }

  /** What a load-like instruction copies. */
  function Source(ins: Instr): Value
    requires IsLoadLike(ins)
  {
    match ins
    case Load(s) => Slot(s)
    case Cast(_, v) => v
  }

  function Operands(ins: Instr): set<Value> {
    match ins
    case Alloca(s) => {Slot(s)}
    case Load(s) => {Slot(s)}
    case Store(v, s) => {v, Slot(s)}
    case Cast(_, v) => {v}
    case ZExt(v, _) => {v}
    case BinOp(l, r) => {l, r}
    case Opaque => {}
    case ICmp(_, x, y) => {x, y}
    case Call(Direct(g), args) => (set k | 0 <= k < |args| :: args[k]) + {Address(g)}
    case Call(Unresolved, args) => set k | 0 <= k < |args| :: args[k]
    case Br(_) => {}
    case CondBr(c, _, _) => {c}
    case Switch(c, _, _) => {c}
    case Ret(v) => {v}
  }

  /** Every value that occurs in a function: a finite universe for facts. */
  ghost function Values(fn: Func): set<Value> {
    set b, i, v | 0 <= b < |fn.blocks| && 0 <= i < |fn.blocks[b]|
                  && v in Operands(fn.blocks[b][i]) + {Reg(Point(b, i))} :: v
  }

  lemma OperandsAreValues(fn: Func, b: nat, i: nat)
    requires InFunc(fn, Point(b, i))
    ensures Operands(fn.blocks[b][i]) + {Reg(Point(b, i))} <= Values(fn)
  {
  }

  /** The constants of width greater than one, or one: `ConstantInt`. */
  predicate IsConstantInt(v: Value) {
    v.Int? || v.Bool?
  }

  /** Signed reading of a constant; a one-bit `true` reads as -1. */
  function ConstantValue(v: Value): int
    requires IsConstantInt(v) || v.NullPointer?
  {
    match v
    case Int(n) => n
    case Bool(b) => if b then -1 else 0
    case NullPointer => 0
  }

  function Pow2(n: nat): (r: nat)
    ensures r >= 1
  {
    if n == 0 then 1 else 2 * Pow2(n - 1)
  }
}
