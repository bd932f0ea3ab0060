/** When a check is about what its slot holds: the compared value was loaded
    from the slot, or stored to it, in the same block with no later store. */
module FreshChecks {
  import opened IR
  import opened Exec
  import opened ICmps
  import opened ReturnRange
  import Returned = ReturnedValues

  predicate WritesSlot(ins: Instr, s: nat) {
    (ins.Store? || ins.Alloca?) && ins.slot == s
  }

  /** Instruction j makes v and slot s equal, and nothing up to i undoes it. */
  predicate EqualSince(blk: Block, b: nat, j: nat, i: nat, v: Value, s: nat)
    requires i <= |blk|
  {
    && j < i
    && ((blk[j] == Load(s) && v == Reg(Point(b, j)))
        || (blk[j] == Store(v, s) && v != Reg(Point(b, j))))
    && forall m :: j < m < i ==> !WritesSlot(blk[m], s) && v != Reg(Point(b, m))
  }

  ghost predicate EqualToSlot(blk: Block, b: nat, i: nat, v: Value, s: nat)
    requires i <= |blk|
  {
    exists j: nat :: EqualSince(blk, b, j, i, v, s)
  }

  /** Instruction j is a comparison whose operands still have the values that
      it compared. */
  predicate Decided(blk: Block, b: nat, j: nat, i: nat)
    requires i <= |blk|
  {
    && j < i && blk[j].ICmp?
    && forall m :: j <= m < i ==> blk[j].x != Reg(Point(b, m)) && blk[j].y != Reg(Point(b, m))
  }

  /** Operand `v` is not a constant and still equals slot s when the terminator
      of block b is executed. */
  ghost predicate FreshOperand(fn: Func, b: nat, v: Value, s: nat)
    requires b < |fn.blocks| && |fn.blocks[b]| > 0
  {
    !IsConstant(v) && EqualToSlot(fn.blocks[b], b, |fn.blocks[b]| - 1, v, s)
  }

  /** The operand by which a comparison checks a returnable slot. */
  function CheckedOperand(fn: Func, at: Point, icmp: Instr, rvf: Returned.Fact): Value
    requires InFunc(fn, at) && icmp.ICmp?
  {
    if CheckedReturnValue(fn, at, icmp.x, rvf).Some? then icmp.x else icmp.y
  }

  /** The check of slot s at the end of block b is about the slot's current
      content, and compares with null only for equality; unless it tells nothing
      about the slot, having no constant to compare with. */
  ghost predicate CheckIsFresh(fn: Func, b: nat, rvf: Returned.Fact, s: nat)
    requires b < |fn.blocks| && |fn.blocks[b]| > 0 && CheckedSlot(fn, b, rvf) == Some(s)
  {
    var ins, last := Last(fn.blocks[b]), |fn.blocks[b]| - 1;
    if ins.Switch? then ins.cases != [] ==> FreshOperand(fn, b, ins.cond, s)
    else
      var icmp, at := Comparison(fn, ins).value, ins.cond.at;
      IsConstant(icmp.x) || IsConstant(icmp.y) ==>
        && at.block == b && Decided(fn.blocks[b], b, at.index, last)
        && FreshOperand(fn, b, CheckedOperand(fn, at, icmp, rvf), s)
        && (icmp.x.NullPointer? || icmp.y.NullPointer? ==> icmp.pred.EQ? || icmp.pred.NE?)
  }

  /** All checks of returnable slots are. */
  ghost predicate ChecksAreFresh(fn: Func, rst: ReturnedFacts) {
    forall b: nat :: b < |fn.blocks| && b < |rst.entry| && |fn.blocks[b]| > 0 ==>
      var s := CheckedSlot(fn, b, rst.entry[b]);
      s.Some? ==> CheckIsFresh(fn, b, rst.entry[b], s.value)
  }

  // ----- What a frame has established in its current block -----

  ghost predicate HoldsSlot(fr: Frame, v: Value, s: nat) {
    s in fr.mem && Eval(fr, v).Some? && Eval(fr, v).value.n == fr.mem[s].n
  }

  /** The comparison at `at` decides a branch that checks a returnable slot. */
  predicate DecidesCheck(fn: Func, rst: ReturnedFacts, at: Point) {
    && InFunc(fn, at) && at.block < |rst.entry|
    && Last(fn.blocks[at.block]).CondBr? && Last(fn.blocks[at.block]).cond == Reg(at)
    && CheckedSlot(fn, at.block, rst.entry[at.block]).Some?
  }

  /** Where a comparison that decides a check is about to be executed, its
      operands can be told apart by sign: see `Readable`. */
  predicate ReadsWell(fn: Func, rst: ReturnedFacts, fr: Frame) {
    InFunc(fn, fr.at) && At(fn, fr.at).ICmp? && DecidesCheck(fn, rst, fr.at) ==>
      var ins := At(fn, fr.at);
      var a, b := Eval(fr, ins.x), Eval(fr, ins.y);
      a.Some? && b.Some? ==> Readable(ins.pred, ins.x, ins.y, a.value.n, b.value.n)
  }

  ghost predicate HoldsComparison(fr: Frame, icmp: Instr, r: Value)
    requires icmp.ICmp?
  {
    var a, b := Eval(fr, icmp.x), Eval(fr, icmp.y);
    && a.Some? && b.Some?
    && Readable(icmp.pred, icmp.x, icmp.y, a.value.n, b.value.n)
    && Eval(fr, r) == Some(Plain(if Outcome(icmp.pred, a.value.n, b.value.n) then -1 else 0))
  }

  ghost predicate Local(fn: Func, rst: ReturnedFacts, fr: Frame) {
    && InFunc(fn, fr.at)
    && var blk, b, i := fn.blocks[fr.at.block], fr.at.block, fr.at.index;
    && (forall v, s, j: nat :: EqualSince(blk, b, j, i, v, s) ==> HoldsSlot(fr, v, s))
    && (forall j: nat :: Decided(blk, b, j, i) && DecidesCheck(fn, rst, Point(b, j)) ==>
          HoldsComparison(fr, blk[j], Reg(Point(b, j))))
  }

  lemma LocalStarts(fn: Func, rst: ReturnedFacts, fr: Frame)
    requires InFunc(fn, fr.at) && fr.at.index == 0
    ensures Local(fn, rst, fr)
  {
  }

  lemma EvalKept(fn: Func, fr: Frame, c: int, next: Frame, v: Value)
    requires FrameStep(fn, fr, c) == Some(next) && v != Reg(fr.at)
    ensures Eval(next, v) == Eval(fr, v)
  {
  }

  lemma EqualSinceKept(fn: Func, rst: ReturnedFacts, fr: Frame, c: int, next: Frame, v: Value, s: nat, j: nat)
    requires Local(fn, rst, fr) && FrameStep(fn, fr, c) == Some(next)
    requires next.at == Point(fr.at.block, fr.at.index + 1) && InFunc(fn, next.at)
    requires EqualSince(fn.blocks[fr.at.block], fr.at.block, j, next.at.index, v, s)
    ensures HoldsSlot(next, v, s)
  {
    var blk, b, i := fn.blocks[fr.at.block], fr.at.block, fr.at.index;
    if j < i {
      assert EqualSince(blk, b, j, i, v, s);
      assert !WritesSlot(blk[i], s) && v != Reg(Point(b, i));
      EvalKept(fn, fr, c, next, v);
    } else if blk[j].Store? {
      EvalKept(fn, fr, c, next, v);
    }
  }

  lemma DecidedKept(fn: Func, rst: ReturnedFacts, fr: Frame, c: int, next: Frame, j: nat)
    requires Local(fn, rst, fr) && FrameStep(fn, fr, c) == Some(next) && ReadsWell(fn, rst, fr)
    requires next.at == Point(fr.at.block, fr.at.index + 1) && InFunc(fn, next.at)
    requires Decided(fn.blocks[fr.at.block], fr.at.block, j, next.at.index)
    requires DecidesCheck(fn, rst, Point(fr.at.block, j))
    ensures HoldsComparison(next, fn.blocks[fr.at.block][j], Reg(Point(fr.at.block, j)))
  {
    var blk, b, i := fn.blocks[fr.at.block], fr.at.block, fr.at.index;
    assert blk[j].x != Reg(Point(b, i)) && blk[j].y != Reg(Point(b, i));
    EvalKept(fn, fr, c, next, blk[j].x);
    EvalKept(fn, fr, c, next, blk[j].y);
    if j < i {
      assert Decided(blk, b, j, i);
      EvalKept(fn, fr, c, next, Reg(Point(b, j)));
    }
  }

  /** Every step inside a block keeps what its earlier steps established. */
  lemma LocalKept(fn: Func, rst: ReturnedFacts, fr: Frame, c: int, next: Frame)
    requires Local(fn, rst, fr) && FrameStep(fn, fr, c) == Some(next) && ReadsWell(fn, rst, fr)
    requires next.at == Point(fr.at.block, fr.at.index + 1) && InFunc(fn, next.at)
    ensures Local(fn, rst, next)
  {
    var blk, b := fn.blocks[fr.at.block], fr.at.block;
    forall v, s, j: nat | EqualSince(blk, b, j, next.at.index, v, s) ensures HoldsSlot(next, v, s) {
      EqualSinceKept(fn, rst, fr, c, next, v, s, j);
    }
    forall j: nat | Decided(blk, b, j, next.at.index) && DecidesCheck(fn, rst, Point(b, j))
      ensures HoldsComparison(next, blk[j], Reg(Point(b, j)))
    {
      DecidedKept(fn, rst, fr, c, next, j);
    }
  }
}
