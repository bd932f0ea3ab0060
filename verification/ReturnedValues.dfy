/** Which values can be returned from each program point: the backward pass of
    eesi/src/returned_values_pass.cc. */
module ReturnedValues {
  import opened IR
  import opened Shapes
  import opened Sweep

  type Fact = set<Value>

  predicate HasAt(s: string, sub: string, i: nat) {
    i + |sub| <= |s| && s[i..i + |sub|] == sub
  }

  predicate Contains(s: string, sub: string) {
    exists i: nat :: i <= |s| && HasAt(s, sub, i)
  }

  /** One string is a part of another. */
  lemma ContainsMeans(s: string, sub: string)
    ensures Contains(s, sub) <==> exists before, after :: s == before + sub + after
  {
    if i: nat :| i <= |s| && HasAt(s, sub, i) {
      assert s == s[..i] + sub + s[i + |sub|..];
    }
    if before, after :| s == before + sub + after {
      assert HasAt(s, sub, |before|);
    }
  }

  /** Linux error-pointer helpers, possibly with a number appended. */
  predicate IsErrorPointerName(name: string) {
    Contains(name, "ERR_PTR") || Contains(name, "IS_ERR") || Contains(name, "PTR_ERR") || Contains(name, "ERR_CAST")
  }

  /** Operand 0 of a call: its first argument, or the callee. */
  function FirstOperand(name: string, args: seq<Value>): Value {
    if args == [] then Address(name) else args[0]
  }

  /** The fact before instruction `at`, from the fact after it. */
  function Transfer(ins: Instr, at: Point, out: Fact): Fact {
    match ins
    case Ret(v) => out + {v}
    case Store(v, s) => (out - {Slot(s)}) + (if Slot(s) in out then {v} else {})
    case Load(s) => (out - {Reg(at)}) + (if Reg(at) in out then {Slot(s)} else {})
    case Cast(_, v) => (out - {Reg(at)}) + (if Reg(at) in out then {v} else {})
    case Call(Direct(g), args) =>
      if IsErrorPointerName(g) && Reg(at) in out then out + {FirstOperand(g, args)} else out
    case _ => out
  }

  /** The facts before instructions i.. of a block whose exit fact is `exit`. */
  function Trace(blk: Block, b: nat, i: nat, exit: Fact): (r: seq<Fact>)
    requires i <= |blk|
    ensures |r| == |blk| - i
    decreases |blk| - i
  {
    if i == |blk| then [] else
    var rest := Trace(blk, b, i + 1, exit);
    [Transfer(blk[i], Point(b, i), if rest == [] then exit else rest[0])] + rest
  }

  /** The pass as a sweep: blocks are entered at their end, and a block
      delivers the fact before its first instruction to its predecessors. */
  ghost function Problem(fn: Func): System<Fact, Value> {
    System(
      |fn.blocks|,
      (x: Fact, y: Fact) => x + y,
      (x: Fact) => x,
      Values(fn),
      (b: nat) => Values(fn),
      (p: nat, b: nat) => Edge(fn, b, p),
      (p: nat, b: nat, body: seq<Fact>) => if body == [] then {} else body[0],
      (b: nat, x: Fact) => if b < |fn.blocks| then Trace(fn.blocks[b], b, 0, x) else [],
      (b: nat, body: seq<Fact>) => [])
  }

  function InFact(st: State<Fact>, at: Point): Fact
    requires at.block < |st.body| && at.index < |st.body[at.block]|
  {
    st.body[at.block][at.index]
  }

  function OutFact(st: State<Fact>, at: Point): Fact
    requires at.block < |st.body| == |st.entry| && at.index < |st.body[at.block]|
  {
    if at.index + 1 < |st.body[at.block]| then st.body[at.block][at.index + 1] else st.entry[at.block]
  }

  lemma {:induction false} TraceStaysInUniverse(fn: Func, b: nat, i: nat, exit: Fact)
    requires b < |fn.blocks| && i <= |fn.blocks[b]| && exit <= Values(fn)
    ensures forall k :: 0 <= k < |fn.blocks[b]| - i ==> Trace(fn.blocks[b], b, i, exit)[k] <= Values(fn)
    decreases |fn.blocks[b]| - i
  {
    if i < |fn.blocks[b]| {
      TraceStaysInUniverse(fn, b, i + 1, exit);
      OperandsAreValues(fn, b, i);
      var ins := fn.blocks[b][i];
      if ins.Call? && ins.callee.Direct? {
        assert FirstOperand(ins.callee.name, ins.args) in Operands(ins);
      }
    }
  }

  function Following(row: seq<Fact>, i: nat, exit: Fact): Fact
    requires i < |row|
  {
    if i + 1 == |row| then exit else row[i + 1]
  }

  /** The equations for the facts before each instruction say which they are. */
  lemma {:induction false} TraceIs(blk: Block, b: nat, i: nat, exit: Fact, row: seq<Fact>)
    requires i <= |blk| == |row|
    requires forall k: nat :: k < |blk| ==> row[k] == Transfer(blk[k], Point(b, k), Following(row, k, exit))
    ensures Trace(blk, b, i, exit) == row[i..]
    decreases |blk| - i
  {
    if i == |blk| {
      assert row[i..] == [];
    } else {
      TraceIs(blk, b, i + 1, exit, row);
      assert row[i..] == [row[i]] + row[i + 1..];
    }
  }

  lemma ProblemIsLawful(fn: Func)
    ensures Laws(Problem(fn))
  {
    var sys := Problem(fn);
    forall b: nat, x | b < sys.n && FactOk(sys, x) ensures BodyOk(sys, sys.trace(b, x)) {
      TraceStaysInUniverse(fn, b, 0, x);
    }
    forall p: nat, b: nat, body | p < sys.n && b < sys.n && BodyOk(sys, body)
      ensures EntryOk(sys, b, sys.flow(p, b, body))
    {
      if body != [] { assert FactOk(sys, body[0]); }
    }
  }

  // ----- The pass -----

  class ReturnedValuesPass {
    const fn: Func
    var exit: seq<Fact>       // the fact after each block's last instruction
    var ins: seq<seq<Fact>>   // the fact before each instruction, by block

    function Facts(): State<Fact>
      reads this
    {
      State(exit, ins)
    }

    ghost predicate Valid()
      reads this
    {
      Shaped() && Ok(Problem(fn), Facts())
    }

    predicate Shaped()
      reads this
    {
      && WellFormed(fn)
      && |exit| == |ins| == |fn.blocks|
      && forall b :: 0 <= b < |fn.blocks| ==> |ins[b]| == |fn.blocks[b]|
    }

    constructor (fn: Func)
      requires WellFormed(fn)
      ensures Valid() && this.fn == fn
      ensures Facts() == Uniform(fn, {})
    {
      this.fn := fn;
      exit := seq(|fn.blocks|, _ => {});
      ins := seq(|fn.blocks|, b requires 0 <= b < |fn.blocks| => seq(|fn.blocks[b]|, _ => {}));
    }

    /** Sweeps until a sweep changes no fact inside a block. */
    method RunOnFunction()
      requires Valid()
      modifies this
      ensures Valid() && Stable(Problem(fn), Facts()) && SweptFrom(Problem(fn), old(Facts()), Facts())
    {
      ghost var sys := Problem(fn);
      ProblemIsLawful(fn);
      NotSweptYet(sys, Facts());
      var changed := true;
      while changed
        invariant Valid() && SweptFrom(sys, old(Facts()), Facts())
        invariant !changed ==> Stable(sys, Facts())
        decreases Missing(sys, Facts()), if Stale(sys, Facts()) then 1 else 0, if changed then 1 else 0
      {
        SweepOnward(sys, old(Facts()), Facts());
        changed := VisitBlocks();
      }
    }

    method VisitBlocks() returns (changed: bool)
      requires Shaped()
      modifies this
      ensures Shaped()
      ensures Facts() == SweepTo(Problem(fn), old(Facts()), |fn.blocks|)
      ensures changed == ChangedTo(Problem(fn), old(Facts()), |fn.blocks|)
    {
      ghost var sys, start := Problem(fn), Facts();
      changed := false;
      for b := 0 to |fn.blocks|
        invariant Shaped()
        invariant Facts() == SweepTo(sys, start, b) && changed == ChangedTo(sys, start, b)
      {
        var blockChanged := JoinAndVisit(b);
        changed := blockChanged || changed;
      }
    }

    method JoinAndVisit(b: nat) returns (changed: bool)
      requires Shaped() && b < |fn.blocks|
      modifies this
      ensures Shaped()
      ensures Facts() == Visit(Problem(fn), old(Facts()), b)
      ensures changed == (ins[b] != old(ins)[b])
    {
      // Join over successor blocks
      for s := 0 to |fn.blocks|
        invariant ins == old(ins)
        invariant exit == old(exit)[b := Gather(Problem(fn), old(Facts()), b, s)]
      {
        if Edge(fn, b, s) {
          assert BlockOk(fn, fn.blocks[s]);
          exit := exit[b := exit[b] + ins[s][0]];
        }
      }
      changed := VisitBlock(b);
    }

    method VisitBlock(b: nat) returns (changed: bool)
      requires b < |fn.blocks| == |exit| == |ins| && |ins[b]| == |fn.blocks[b]|
      modifies this`ins
      ensures ins == old(ins)[b := Trace(fn.blocks[b], b, 0, exit[b])]
      ensures changed == (ins[b] != old(ins[b]))
    {
      changed := false;
      var blk := fn.blocks[b];
      var i := |blk|;
      while i > 0
        invariant 0 <= i <= |blk|
        invariant |ins| == |old(ins)| && |ins[b]| == |blk|
        invariant forall c :: 0 <= c < |ins| && c != b ==> ins[c] == old(ins)[c]
        invariant ins[b][..i] == old(ins)[b][..i] && ins[b][i..] == Trace(blk, b, i, exit[b])
        invariant changed == (ins[b][i..] != old(ins)[b][i..])
      {
        i := i - 1;
        ghost var rest := ins[b][i + 1..];
        var out := if i + 1 < |blk| then ins[b][i + 1] else exit[b];
        var before := Transfer(blk[i], Point(b, i), out);
        changed := changed || before != ins[b][i];
        ins := ins[b := ins[b][i := before]];
        assert ins[b][i..] == [before] + rest;
        assert old(ins)[b][i..] == [old(ins)[b][i]] + old(ins)[b][i + 1..];
      }
      assert ins[b] == ins[b][0..] && old(ins)[b] == old(ins)[b][0..];
    }
  }
}
