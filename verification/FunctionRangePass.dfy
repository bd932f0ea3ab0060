/** The range pass over one function: its blocks are swept until no fact
    inside a block changes. */
module FunctionRangePass {
  import opened IR
  import opened ICmps
  import opened Signs
  import opened SignFacts
  import opened Shapes
  import opened Sweep
  import opened ReturnRange
  import opened RangeSweeps
  import opened RangePaths
  import opened RangeSolution

  /** What one sweep over a function's blocks establishes. */
  lemma SweepOutcome(t: Task, run: seq<Progress>)
    requires IsSweep(t, run) && |run| == |t.fn.blocks| + 1 && Good(t, run[0].st)
    ensures var n := |t.fn.blocks|;
            && Good(t, run[n].st) && GrowsAt(t.name, run[0].ranges, run[n].ranges)
            && (Steady(t, run) && !Changed(t, run) ==> Solved(t, run[n].ranges))
  {
    var n := |t.fn.blocks|;
    SweepKeeps(t, run, n);
    RangesGrow(t, run, 0, n);
    if Steady(t, run) && !Changed(t, run) {
      QuietSweepSolves(t, run);
    }
  }

  /** A sweep that changes something makes progress: a return range or a
      boundary fact grows, or a stale block is brought up to date. */
  lemma SweepShrinks(t: Task, run: seq<Progress>)
    requires IsSweep(t, run) && |run| == |t.fn.blocks| + 1 && Good(t, run[0].st)
    ensures var p, q := run[0], run[|t.fn.blocks|];
            || RangeRoom(q.ranges, t.name) < RangeRoom(p.ranges, t.name)
            || (q.ranges == p.ranges
                && Missing(Sys(t, p.ranges), q.st) <= Missing(Sys(t, p.ranges), p.st)
                && (Missing(Sys(t, p.ranges), q.st) == Missing(Sys(t, p.ranges), p.st) ==>
                      !Stale(Sys(t, p.ranges), q.st))
                && (Changed(t, run) ==>
                      Missing(Sys(t, p.ranges), q.st) < Missing(Sys(t, p.ranges), p.st)
                      || Stale(Sys(t, p.ranges), p.st)))
  {
    var p, n := run[0], |t.fn.blocks|;
    RangesGrow(t, run, 0, n);
    RangeRoomShrinks(t.name, p.ranges, run[n].ranges);
    if run[n].ranges == p.ranges {
      SteadyIsPlainSweep(t, run, n);
      SameForAllRanges(t, p.st, p.ranges);
      ProblemIsLawful(t.prog, t.fn, t.rst, Env(t.fn, p.ranges));
      SweepProgresses(Sys(t, p.ranges), p.st);
    }
  }

  /** Ranges that end where they began stood still in between. */
  lemma EnvSqueezed(name: string, fn: Func, x: RangeMap, y: RangeMap, z: RangeMap)
    requires GrowsAt(name, x, y) && GrowsAt(name, y, z) && Env(fn, x) == Env(fn, z)
    ensures Env(fn, y) == Env(fn, x)
  {
    BelowAntisymmetric(Env(fn, x), Env(fn, y));
  }

  lemma TransferInEnv(t: Task, ranges: RangeMap, at: Point, f: Ranges)
    requires TaskOk(t) && InFunc(t.fn, at)
    ensures Transfer(t.prog, t.fn, t.rst, ranges, at, f) == Transfer(t.prog, t.fn, t.rst, Env(t.fn, ranges), at, f)
  {
    EnvIsEnough(t.fn, ranges);
    match At(t.fn, at)
    case Store(v, _) => EnvSuffices(t.prog, t.fn, ranges, Env(t.fn, ranges), v);
    case Load(s) => EnvSuffices(t.prog, t.fn, ranges, Env(t.fn, ranges), Slot(s));
    case Cast(_, v) => EnvSuffices(t.prog, t.fn, ranges, Env(t.fn, ranges), v);
    case _ =>
  }

  lemma StepIsTransfer(t: Task, ranges: RangeMap, at: Point, f: Ranges)
    requires TaskOk(t) && InFunc(t.fn, at)
    ensures Stepper(t.prog, t.fn, t.rst, Env(t.fn, ranges), at.block)(at.index, f)
            == Transfer(t.prog, t.fn, t.rst, ranges, at, f)
  {
    TransferInEnv(t, ranges, at, f);
  }

  /** What blocks 0..k deliver to the first fact of b. */
  ghost function JoinedFrom(t: Task, st: State<Ranges>, b: nat, k: nat): Ranges
    requires TaskOk(t) && Shape(t.fn, st) && b < |t.fn.blocks| && k <= |t.fn.blocks|
  {
    if k == 0 then st.entry[b]
    else
      var x := JoinedFrom(t, st, b, k - 1);
      if Edge(t.fn, k - 1, b)
      then Joined(x, Filtered(st.body[k - 1][|st.body[k - 1]| - 1], ReturnableAt(t.fn, t.rst, b))) else x
  }

  /** A sweep's joins of predecessors, with the problem as a parameter. */
  lemma {:induction false} GatherIs(t: Task, sys: System<Ranges, (Value, Option<Region>)>, st: State<Ranges>,
                                    b: nat, k: nat)
    requires TaskOk(t) && Shape(t.fn, st) && b < |t.fn.blocks| && k <= |t.fn.blocks|
    requires forall p: nat :: sys.feeds(p, b) == Edge(t.fn, p, b)
    requires forall x, y :: sys.join(x, y) == Joined(x, y)
    requires forall p: nat, body :: body != [] ==>
               sys.flow(p, b, body) == Filtered(body[|body| - 1], ReturnableAt(t.fn, t.rst, b))
    ensures JoinedFrom(t, st, b, k) == Gather(sys, st, b, k)
  {
    if k > 0 {
      GatherIs(t, sys, st, b, k - 1);
    }
  }

  lemma JoinedFromIsGather(t: Task, ranges: RangeMap, st: State<Ranges>, b: nat)
    requires TaskOk(t) && Shape(t.fn, st) && b < |t.fn.blocks|
    ensures JoinedFrom(t, st, b, |t.fn.blocks|) == Gather(Sys(t, ranges), st, b, |t.fn.blocks|)
  {
    GatherIs(t, Sys(t, ranges), st, b, |t.fn.blocks|);
  }

  class FunctionRanges {
    const task: Task
    var entry: seq<Ranges>       // the ranges before each block's first instruction
    var outs: seq<seq<Ranges>>   // the ranges after each instruction, by block
    var ranges: RangeMap         // the return ranges of all functions

    function Facts(): State<Ranges>
      reads this
    {
      State(entry, outs)
    }

    ghost predicate Shaped()
      reads this
    {
      TaskOk(task) && Shape(task.fn, Facts())
    }

    constructor (task: Task, facts: State<Ranges>, ranges: RangeMap)
      requires TaskOk(task) && Shape(task.fn, facts)
      ensures this.task == task && Facts() == facts && this.ranges == ranges && Shaped()
    {
      this.task := task;
      this.entry := facts.entry;
      this.outs := facts.body;
      this.ranges := ranges;
    }

    /** Sweeps until a sweep changes no fact inside a block. */
    method RunOnFunction()
      requires Shaped() && Good(task, Facts())
      modifies this
      ensures Shaped() && Good(task, Facts())
      ensures GrowsAt(task.name, old(ranges), ranges)
      ensures Env(task.fn, ranges) == Env(task.fn, old(ranges)) ==> Solved(task, ranges)
      ensures KeepsCauses(task, old(Progress(Facts(), ranges)), Progress(Facts(), ranges))
    {
      var changed := true;
      while changed
        invariant Shaped() && Good(task, Facts())
        invariant GrowsAt(task.name, old(ranges), ranges)
        invariant !changed && Env(task.fn, ranges) == Env(task.fn, old(ranges)) ==> Solved(task, ranges)
        invariant KeepsCauses(task, old(Progress(Facts(), ranges)), Progress(Facts(), ranges))
        decreases RangeRoom(ranges, task.name), Missing(Sys(task, ranges), Facts()),
                  if Stale(Sys(task, ranges), Facts()) then 1 else 0, if changed then 1 else 0
      {
        ghost var before := ranges;
        ghost var run;
        changed, run := VisitBlocks();
        SweepOutcome(task, run);
        SweepShrinks(task, run);
        SweepKeepsCauses(task, run);
        CausesKept(task, old(Progress(Facts(), ranges)), run[0], run[|task.fn.blocks|]);
        RangesGrowOn(task.name, old(ranges), before, ranges);
        if Env(task.fn, ranges) == Env(task.fn, old(ranges)) {
          EnvSqueezed(task.name, task.fn, old(ranges), before, ranges);
        }
      }
    }

    method VisitBlocks() returns (changed: bool, ghost run: seq<Progress>)
      requires Shaped()
      modifies this
      ensures Shaped()
      ensures IsSweep(task, run) && |run| == |task.fn.blocks| + 1
      ensures run[0] == old(Progress(Facts(), ranges)) && run[|task.fn.blocks|] == Progress(Facts(), ranges)
      ensures changed == Changed(task, run)
    {
      changed, run := false, [Progress(Facts(), ranges)];
      for b := 0 to |task.fn.blocks|
        invariant Shaped()
        invariant IsSweep(task, run) && |run| == b + 1
        invariant run[0] == old(Progress(Facts(), ranges)) && run[b] == Progress(Facts(), ranges)
        invariant changed == Changed(task, run)
      {
        var blockChanged := JoinAndVisit(b);
        ghost var longer := run + [Progress(Facts(), ranges)];
        Extended(task, run, longer, b);
        run := longer;
        changed := blockChanged || changed;
      }
    }

    method JoinAndVisit(b: nat) returns (changed: bool)
      requires Shaped() && b < |task.fn.blocks|
      modifies this
      ensures Shaped()
      ensures Visits(task, old(Progress(Facts(), ranges)), b, Progress(Facts(), ranges))
      ensures changed == (outs[b] != old(outs)[b])
    {
      JoinedFromIsGather(task, ranges, Facts(), b);
      JoinPredecessors(b);
      changed := VisitBlock(b);
      assert BlockOk(task.fn, task.fn.blocks[b]);
      JoinAllIsSpread(Sys(task, ranges), entry, BlockWrites(task.fn, task.rst, b, outs[b]));
      WriteToSuccessors(b);
      VisitReturn(b);
    }

    /** Joins into b's first fact what its predecessors end with, as far as it
        is about values returnable from b. */
    method JoinPredecessors(b: nat)
      requires Shaped() && b < |task.fn.blocks|
      modifies this`entry
      ensures Shaped()
      ensures entry == old(entry)[b := JoinedFrom(task, old(Facts()), b, |task.fn.blocks|)]
    {
      for p := 0 to |task.fn.blocks|
        invariant Shaped()
        invariant entry == old(entry)[b := JoinedFrom(task, old(Facts()), b, p)]
      {
        if Edge(task.fn, p, b) {
          var joined := SignFacts.Join(entry[b], Filtered(outs[p][|outs[p]| - 1], ReturnableAt(task.fn, task.rst, b)));
          entry := entry[b := joined];
        }
      }
    }

    method VisitBlock(b: nat) returns (changed: bool)
      requires Shaped() && b < |task.fn.blocks|
      modifies this`outs
      ensures Shaped()
      ensures outs == old(outs)[b := Chain(Stepper(task.prog, task.fn, task.rst, Env(task.fn, ranges), b),
                                           |task.fn.blocks[b]|, entry[b])]
      ensures changed == (outs[b] != old(outs)[b])
    {
      changed := false;
      ghost var step := Stepper(task.prog, task.fn, task.rst, Env(task.fn, ranges), b);
      assert |outs[b]| == |task.fn.blocks[b]|;
      var row := outs[b];
      for i := 0 to |task.fn.blocks[b]|
        invariant outs == old(outs) && Halfway(step, entry[b], outs[b], row, i, changed)
      {
        var before := if i == 0 then entry[b] else row[i - 1];
        StepIsTransfer(task, ranges, Point(b, i), before);
        var after := Transfer(task.prog, task.fn, task.rst, ranges, Point(b, i), before);
        OneFurther(step, entry[b], outs[b], row, i, changed, after);
        changed := changed || after != row[i];
        row := row[i := after];
      }
      AllTheWay(step, entry[b], outs[b], row, changed);
      outs := outs[b := row];
    }

    /** Passes the range of a checked slot straight on to the successors. */
    method WriteToSuccessors(b: nat)
      requires Shaped() && b < |task.fn.blocks| && BlockOk(task.fn, task.fn.blocks[b])
      modifies this`entry
      ensures entry == JoinAll(old(entry), BlockWrites(task.fn, task.rst, b, outs[b]))
    {
      var blk := task.fn.blocks[b];
      if IsConditional(Last(blk)) {
        var checked := CheckedSlot(task.fn, b, task.rst.entry[b]);
        if checked.Some? {
          ChecksFollow(task.fn, b, task.rst.entry[b]);
          WriteFrom(b, outs[b][|blk| - 2], checked.value);
        }
      }
    }

    method WriteFrom(b: nat, before: Ranges, s: nat)
      requires Shaped() && b < |task.fn.blocks| && BlockOk(task.fn, task.fn.blocks[b])
      requires CheckedSlot(task.fn, b, task.rst.entry[b]) == Some(s)
      modifies this`entry
      ensures entry == JoinAll(old(entry), Writes(task.fn, task.rst, b, before))
    {
      var ins := Last(task.fn.blocks[b]);
      ghost var start := entry;
      if ins.CondBr? {
        assert ins.onTrue in Successors(ins) && ins.onFalse in Successors(ins);
        var icmp := Comparison(task.fn, ins).value;
        var signs := AbstractICmp(icmp.pred, icmp.x, icmp.y);
        JoinInto(ins.onTrue, s, RefinedRange(before, s, signs.0));
        JoinInto(ins.onFalse, s, RefinedRange(before, s, signs.1));
        JoinAllAppend(start, WriteTo(task.fn, task.rst, ins.onTrue, s, RefinedRange(before, s, signs.0)),
                     WriteTo(task.fn, task.rst, ins.onFalse, s, RefinedRange(before, s, signs.1)));
      } else {
        WriteCases(ins, before, s);
        if Slot(s) in before {
          assert ins.default in Successors(ins);
          JoinInto(ins.default, s, before[Slot(s)]);
          JoinAllAppend(start, CaseWrites(task.fn, task.rst, before, s, ins.cases),
                       WriteTo(task.fn, task.rst, ins.default, s, before[Slot(s)]));
        } else {
          JoinAllAppend(start, CaseWrites(task.fn, task.rst, before, s, ins.cases), []);
        }
      }
    }

    method WriteCases(ins: Instr, before: Ranges, s: nat)
      requires Shaped() && ins.Switch? && forall g :: g in Successors(ins) ==> g < |task.fn.blocks|
      modifies this`entry
      ensures entry == JoinAll(old(entry), CaseWrites(task.fn, task.rst, before, s, ins.cases))
    {
      ghost var start, cases := entry, ins.cases;
      for k := 0 to |ins.cases|
        invariant |entry| == |start|
        invariant entry == JoinAll(start, CaseWrites(task.fn, task.rst, before, s, cases[..k]))
      {
        assert cases[k].1 in CaseTargets(cases) && cases[k].1 in Successors(ins);
        OneCaseMore(start, before, s, cases, k);
        JoinInto(ins.cases[k].1, s, RefinedRange(before, s, AbstractInteger(ins.cases[k].0)));
      }
      assert cases[..|cases|] == cases;
    }

    lemma OneCaseMore(start: seq<Ranges>, before: Ranges, s: nat, cases: seq<(int, nat)>, k: nat)
      requires TaskOk(task) && k < |cases|
      ensures JoinAll(start, CaseWrites(task.fn, task.rst, before, s, cases[..k + 1]))
              == JoinAll(JoinAll(start, CaseWrites(task.fn, task.rst, before, s, cases[..k])),
                         WriteTo(task.fn, task.rst, cases[k].1, s,
                                 RefinedRange(before, s, AbstractInteger(cases[k].0))))
    {
      assert cases[..k + 1][..k] == cases[..k];
      JoinAllAppend(start, CaseWrites(task.fn, task.rst, before, s, cases[..k]),
                   WriteTo(task.fn, task.rst, cases[k].1, s, RefinedRange(before, s, AbstractInteger(cases[k].0))));
    }

    method JoinInto(g: nat, s: nat, e: Sign)
      requires TaskOk(task) && g < |entry|
      modifies this`entry
      ensures entry == JoinAll(old(entry), WriteTo(task.fn, task.rst, g, s, e))
    {
      if Slot(s) in ReturnableAt(task.fn, task.rst, g) {
        assert JoinAll(entry, []) == entry;
        var joined := SignFacts.Join(entry[g], map[Slot(s) := e]);
        entry := entry[g := joined];
      }
    }

    /** Joins what a return returns into the function's range. */
    method VisitReturn(b: nat)
      requires Shaped() && b < |task.fn.blocks| && |task.fn.blocks[b]| > 0
      modifies this`ranges
      ensures ranges == AfterReturn(task.prog, task.fn, task.name, old(ranges), Last(task.fn.blocks[b]),
                                    Before(Facts(), b, |task.fn.blocks[b]| - 1))
    {
      var ins := Last(task.fn.blocks[b]);
      if ins.Ret? {
        var before := Before(Facts(), b, |task.fn.blocks[b]| - 1);
        var range := RangeOf(task.prog, task.fn, ranges, before, ins.val);
        if task.fn.returnsPointer && Intersects(range, NotZero) {
          range := Signs.Join(range, NotZero);
        }
        if task.name in ranges {
          ranges := ranges[task.name := Signs.Join(ranges[task.name], range)];
        } else {
          ranges := ranges[task.name := range];
        }
      }
    }
  }

  lemma ExtendedIsSweep(t: Task, run: seq<Progress>, longer: seq<Progress>, b: nat)
    requires IsSweep(t, run) && |run| == b + 1 && b < |t.fn.blocks|
    requires |longer| == b + 2 && longer[..b + 1] == run && Visits(t, run[b], b, longer[b + 1])
    ensures IsSweep(t, longer)
  {
    forall k: nat | k + 1 < |longer| ensures StepsAt(t, longer, k) {
      assert longer[k] == longer[..b + 1][k];
      if k < b {
        assert longer[k + 1] == longer[..b + 1][k + 1];
        assert StepsAt(t, run, k);
      }
    }
  }

  lemma Extended(t: Task, run: seq<Progress>, longer: seq<Progress>, b: nat)
    requires IsSweep(t, run) && |run| == b + 1 && b < |t.fn.blocks|
    requires |longer| == b + 2 && longer[..b + 1] == run && Visits(t, run[b], b, longer[b + 1])
    ensures IsSweep(t, longer)
    ensures Changed(t, longer) <==> Changed(t, run) || longer[b + 1].st.body[b] != longer[b].st.body[b]
  {
    ExtendedIsSweep(t, run, longer, b);
    ChangedOneMore(t, run, longer, b);
  }

  lemma ChangedOneMore(t: Task, run: seq<Progress>, longer: seq<Progress>, b: nat)
    requires IsSweep(t, run) && IsSweep(t, longer) && |run| == b + 1 && b < |t.fn.blocks|
    requires |longer| == b + 2 && longer[..b + 1] == run
    ensures Changed(t, longer) <==> Changed(t, run) || longer[b + 1].st.body[b] != longer[b].st.body[b]
  {
    assert forall k :: 0 <= k <= b ==> longer[k] == longer[..b + 1][k];
    if k: nat :| k + 1 < |run| && run[k + 1].st.body[k] != run[k].st.body[k] {
      assert longer[k + 1].st.body[k] != longer[k].st.body[k];
    }
    if k: nat :| k + 1 < |longer| && longer[k + 1].st.body[k] != longer[k].st.body[k] {
      assert k == b || run[k + 1].st.body[k] != run[k].st.body[k];
    }
  }
}
