/** Checks of slots that hold something else by then.  The example is

      f: while (n--); return n;

    where the comparison is of what was loaded before n was overwritten. */
module StaleChecks {
  import opened IR
  import opened Exec
  import opened Signs
  import opened FreshChecks
  import opened Shapes
  import opened Sweep
  import opened ReturnRange
  import opened RangeSweeps
  import opened RangeSolution
  import opened RangeProgram
  import opened ReturnRangePass
  import opened StackRuns
  import SignFacts
  import Returned = ReturnedValues

  function Countdown(result: Block): Func {
    Func([[Alloca(0), Store(Arg(0), 0), Br(1)],
          [Load(0), BinOp(Reg(Point(1, 0)), Int(-1)), Store(Reg(Point(1, 1)), 0),
           ICmp(NE, Reg(Point(1, 0)), Int(0)), CondBr(Reg(Point(1, 3)), 1, 2)],
          result], false)
  }

  const LOAD_AND_RETURN: Block := [Load(0), Ret(Reg(Point(2, 0)))]

  function Stale(): Func {
    Countdown(LOAD_AND_RETURN)
  }

  const SLOT := Slot(0)
  const LEFT := Reg(Point(1, 1))     // n - 1
  const RESULT := Reg(Point(2, 0))

  /** What can be returned: the content of the slot, or what is stored to it. */
  function StaleReturned(): State<Returned.Fact> {
    State([{LEFT}, {SLOT, LEFT}, {}],
          [[{LEFT}, {LEFT}, {LEFT}],
           [{LEFT}, {LEFT}, {LEFT}, {SLOT, LEFT}, {SLOT, LEFT}],
           [{SLOT}, {RESULT}]])
  }

  /** What the range pass finds: anything is stored, but on leaving the loop the
      slot is taken to be zero, for what was compared is. */
  function StaleRanges(): State<Ranges> {
    var top: Ranges := map[SLOT := Top];
    State([map[], map[], map[SLOT := Sign.Zero]],
          [[map[], map[], map[]], [map[], map[], top, top, map[]], [map[RESULT := Sign.Zero], map[]]])
  }

  lemma StaleIsWellFormed()
    ensures WellFormed(Stale())
  {
    var fn := Stale();
    forall b | 0 <= b < 3 ensures BlockOk(fn, fn.blocks[b]) {}
  }

  lemma StaleIsStale()
    ensures !ChecksAreFresh(Stale(), StaleReturned())
  {
    var fn, rst := Stale(), StaleReturned();
    assert CheckedSlot(fn, 1, rst.entry[1]) == Some(0);
    assert !EqualToSlot(fn.blocks[1], 1, 4, Reg(Point(1, 0)), 0) by {
      forall j: nat ensures !EqualSince(fn.blocks[1], 1, j, 4, Reg(Point(1, 0)), 0) {
        assert WritesSlot(fn.blocks[1][2], 0);
      }
    }
    assert !CheckIsFresh(fn, 1, rst.entry[1], 0);
  }

  /** Where the slot is not returned, the pass ignores the check. */
  lemma IgnoredIsFresh(rst: State<Returned.Fact>)
    requires |rst.entry| == 3 && SLOT !in rst.entry[1]
    ensures ChecksAreFresh(Countdown([Ret(Int(0))]), rst)
  {
  }

  lemma ReturnedRow(b: nat)
    requires b < 3
    ensures Fresh(Returned.Problem(Stale()), StaleReturned(), b)
  {
    var blk, exit, row := Stale().blocks[b], StaleReturned().entry[b], StaleReturned().body[b];
    forall k: nat | k < |blk|
      ensures row[k] == Returned.Transfer(blk[k], Point(b, k), Returned.Following(row, k, exit))
    {
    }
    Returned.TraceIs(blk, b, 0, exit, row);
    assert row[0..] == row;
  }

  lemma StaleReturnedIsStable()
    ensures Shape(Stale(), StaleReturned()) && Stable(Returned.Problem(Stale()), StaleReturned())
  {
    var sys, st := Returned.Problem(Stale()), StaleReturned();
    forall b: nat | b < 3 ensures Fresh(sys, st, b) && Written(sys, st, b) && Gathered(sys, st, b) {
      ReturnedRow(b);
    }
  }

  // ----- The range that the pass finds -----

  function StaleModule(): Module {
    map["f" := Stale()]
  }

  function StaleTask(): Task {
    Task(StaleModule(), "f", Stale(), StaleReturned())
  }

  const ZERO: RangeMap := map["f" := Sign.Zero]

  /** Facts and ranges after k visits, block after block and sweep after sweep. */
  function FoundAfter(k: nat): Progress {
    var none := map[];
    if k < 2 then
      Progress(State([none, none, none], [[none, none, none], [none, none, none, none, none], [none, none]]), map[])
    else if k == 2 then Progress(State(StaleRanges().entry, StaleRanges().body[2 := [none, none]]), map[])
    else Progress(StaleRanges(), ZERO)
  }

  ghost predicate NothingLeaves(st: State<Ranges>) {
    |st.entry| == |st.body| == 3 && forall p :: 0 <= p < 3 ==> |st.body[p]| > 0 && LastFact(st.body[p]) == map[]
  }

  function LastFact(body: seq<Ranges>): Ranges
    requires |body| > 0
  {
    body[|body| - 1]
  }

  lemma {:induction false} GathersNothing<F(!new), A(!new)>(sys: System<F, A>, st: State<F>, b: nat, k: nat)
    requires b < |st.entry| && k <= |st.body|
    requires forall p: nat :: p < k && sys.feeds(p, b) ==>
               sys.join(st.entry[b], sys.flow(p, b, st.body[p])) == st.entry[b]
    ensures Gather(sys, st, b, k) == st.entry[b]
  {
    if k > 0 {
      GathersNothing(sys, st, b, k - 1);
    }
  }

  lemma NothingGathered(ranges: RangeMap, st: State<Ranges>, b: nat)
    requires TaskOk(StaleTask()) && NothingLeaves(st) && b < 3
    ensures Gather(Sys(StaleTask(), ranges), st, b, 3) == st.entry[b]
  {
    var sys := Sys(StaleTask(), ranges);
    forall p: nat | p < 3 ensures sys.join(st.entry[b], sys.flow(p, b, st.body[p])) == st.entry[b] {
      assert LastFact(st.body[p]) == map[];
      assert sys.flow(p, b, st.body[p]) == map[];
      JoinedWithNothing(st.entry[b]);
    }
    GathersNothing(sys, st, b, 3);
  }

  lemma JoinedWithNothing(x: Ranges)
    ensures SignFacts.Joined(x, map[]) == x
  {
  }

  lemma RowStep(env: RangeMap, b: nat, i: nat)
    requires b < 3 && i < |Stale().blocks[b]| && Shape(Stale(), StaleReturned())
    ensures Transfer(StaleModule(), Stale(), StaleReturned(), env, Point(b, i),
                     Previous(StaleRanges().entry[b], StaleRanges().body[b], i)) == StaleRanges().body[b][i]
  {
  }

  lemma RowFollows(ranges: RangeMap, b: nat)
    requires TaskOk(StaleTask()) && b < 3
    ensures Sys(StaleTask(), ranges).trace(b, StaleRanges().entry[b]) == StaleRanges().body[b]
  {
    var x, row := StaleRanges().entry[b], StaleRanges().body[b];
    var step := Stepper(StaleModule(), Stale(), StaleReturned(), Env(Stale(), ranges), b);
    forall i: nat | i < |row| ensures row[i] == step(i, Previous(x, row, i)) { RowStep(Env(Stale(), ranges), b, i); }
    ChainIs(step, x, row);
  }

  lemma RowWrites(b: nat)
    requires TaskOk(StaleTask()) && b < 3
    ensures BlockWrites(Stale(), StaleReturned(), b, StaleRanges().body[b])
            == if b == 1 then [(2, map[SLOT := Sign.Zero])] else []
  {
  }

  lemma SpreadOne<F(!new), A(!new)>(sys: System<F, A>, entry: seq<F>, w: (nat, F))
    requires w.0 < |entry|
    ensures Spread(sys, entry, [w]) == entry[w.0 := sys.join(entry[w.0], w.1)]
  {
    assert [w][..0] == [];
    assert Spread(sys, entry, []) == entry;
  }

  lemma JoinedOnce(x: Ranges, y: Ranges)
    requires x in {map[], y}
    ensures SignFacts.Joined(x, y) == y
  {
    forall k | k in y ensures SignFacts.JoinAt(x, y, k) == y[k] {}
  }

  /** A direct write that is the first, or says the same once more. */
  lemma WriteSpreads(ranges: RangeMap, entry: seq<Ranges>, b: nat)
    requires TaskOk(StaleTask()) && b < 3 && |entry| == 3
    requires entry[2] in {map[], StaleRanges().entry[2]}
    ensures Spread(Sys(StaleTask(), ranges), entry, BlockWrites(Stale(), StaleReturned(), b, StaleRanges().body[b]))
            == if b == 1 then entry[2 := StaleRanges().entry[2]] else entry
  {
    var sys, w := Sys(StaleTask(), ranges), (2, StaleRanges().entry[2]);
    RowWrites(b);
    if b == 1 {
      JoinedOnce(entry[2], w.1);
      SpreadOne(sys, entry, w);
    }
  }

  lemma VisitRecomputes(ranges: RangeMap, st: State<Ranges>, b: nat)
    requires TaskOk(StaleTask()) && b < 3 && NothingLeaves(st)
    requires st.entry[b] == StaleRanges().entry[b] && st.entry[2] in {map[], StaleRanges().entry[2]}
    ensures Visit(Sys(StaleTask(), ranges), st, b)
            == State(if b == 1 then st.entry[2 := StaleRanges().entry[2]] else st.entry,
                     st.body[b := StaleRanges().body[b]])
  {
    NothingGathered(ranges, st, b);
    RowFollows(ranges, b);
    assert st.entry[b := st.entry[b]] == st.entry;
    WriteSpreads(ranges, st.entry, b);
  }

  lemma ReturnFinds(ranges: RangeMap, b: nat)
    requires b < 3 && ranges in {map[], ZERO}
    ensures AfterReturn(StaleModule(), Stale(), "f", ranges, Last(Stale().blocks[b]),
                        Before(StaleRanges(), b, |Stale().blocks[b]| - 1))
            == if b == 2 then ZERO else ranges
  {
  }

  lemma FoundIsShaped(k: nat)
    ensures Shape(Stale(), FoundAfter(k).st) && NothingLeaves(FoundAfter(k).st)
  {
  }

  lemma FoundIsEntered(k: nat)
    ensures FoundAfter(k).st.entry[k % 3] == StaleRanges().entry[k % 3]
    ensures FoundAfter(k).st.entry[2] in {map[], StaleRanges().entry[2]}
  {
  }

  lemma NextFound(k: nat)
    ensures var p, q, b := FoundAfter(k), FoundAfter(k + 1), k % 3;
            && q.st.entry == (if b == 1 then p.st.entry[2 := StaleRanges().entry[2]] else p.st.entry)
            && q.st.body == p.st.body[b := StaleRanges().body[b]]
            && q.ranges == (if b == 2 then ZERO else p.ranges) && p.ranges in {map[], ZERO}
  {
    var p, q, b := FoundAfter(k), FoundAfter(k + 1), k % 3;
    assert forall c :: 0 <= c < 3 ==>
        q.st.entry[c] == (if b == 1 && c == 2 then StaleRanges().entry[2] else p.st.entry[c]);
    assert forall c :: 0 <= c < 3 ==> q.st.body[c] == if c == b then StaleRanges().body[c] else p.st.body[c];
  }

  lemma VisitFinds(k: nat)
    ensures TaskOk(StaleTask()) && Shape(Stale(), FoundAfter(k).st)
    ensures VisitOnce(StaleTask(), FoundAfter(k), k % 3) == FoundAfter(k + 1)
  {
    var p, q, b := FoundAfter(k), FoundAfter(k + 1), k % 3;
    StaleIsWellFormed();
    FoundIsShaped(k);
    FoundIsEntered(k);
    NextFound(k);
    VisitRecomputes(p.ranges, p.st, b);
    SameReturn(q.st, b);
    ReturnFinds(p.ranges, b);
  }

  lemma SameReturn(st: State<Ranges>, b: nat)
    requires b < 3 && |st.entry| == |st.body| == 3 && st.body[b] == StaleRanges().body[b]
    ensures Before(st, b, |Stale().blocks[b]| - 1) == Before(StaleRanges(), b, |Stale().blocks[b]| - 1)
  {
    assert |Stale().blocks[b]| >= 2;
  }

  lemma StepIs(t: Task, run: seq<Progress>, k: nat, next: Progress)
    requires IsSweep(t, run) && k + 1 < |run| && VisitOnce(t, run[k], k) == next
    ensures run[k + 1] == next
  {
    assert StepsAt(t, run, k);
  }

  lemma SweepFollows(run: seq<Progress>, m: nat, k: nat)
    requires IsSweep(StaleTask(), run) && k + 1 < |run| && m % 3 == k && run[k] == FoundAfter(m)
    ensures run[k + 1] == FoundAfter(m + 1)
  {
    VisitFinds(m);
    StepIs(StaleTask(), run, k, FoundAfter(m + 1));
  }

  /** The pass starts from nothing.  Its first sweep finds that only zero is
      returned, and the second, which changes nothing, confirms it. */
  lemma SweepsFindZero(run: seq<Progress>, n: nat)
    requires IsSweep(StaleTask(), run) && |run| == 4
    requires run[0] == if n == 0 then Progress(Nothing(Stale()), map[]) else Progress(StaleRanges(), ZERO)
    ensures run[3] == Progress(StaleRanges(), ZERO)
    ensures n > 0 ==> !Changed(StaleTask(), run)
  {
    if n == 0 { NothingIsFound(); }
    assert run[0] == FoundAfter(3 * n);
    SweepFollows(run, 3 * n, 0);
    SweepFollows(run, 3 * n + 1, 1);
    SweepFollows(run, 3 * n + 2, 2);
  }

  lemma NothingIsFound()
    ensures Nothing(Stale()) == FoundAfter(0).st
  {
    var x, y := Nothing(Stale()), FoundAfter(0).st;
    assert x.entry == y.entry;
    assert forall b :: 0 <= b < 3 ==> x.body[b] == y.body[b];
    assert x.body == y.body;
  }

  // ----- A run that the range misses -----

  /** The frame of f(0) after k steps. */
  function FrameAt(k: nat): Frame {
    var at := if k < 3 then Point(0, k) else if k < 8 then Point(1, k - 3) else Point(2, k - 8);
    var mem := if k < 2 then map[] else if k < 6 then map[0 := Plain(0)] else map[0 := Plain(-1)];
    var loaded := map[Point(1, 0) := Plain(0)];
    var left := loaded[Point(1, 1) := Plain(-1)];
    var compared := left[Point(1, 3) := Plain(0)];
    var regs :=
      if k < 4 then map[] else if k < 5 then loaded else if k < 7 then left else if k < 9 then compared
      else compared[Point(2, 0) := Plain(-1)];
    Frame("f", at, regs, mem, [0])
  }

  lemma FrameSteps(k: nat)
    requires k < 9
    ensures FrameStep(Stale(), FrameAt(k), -1) == Some(FrameAt(k + 1))
    ensures !At(Stale(), FrameAt(k).at).Ret? && !At(Stale(), FrameAt(k).at).Call?
  {
    var fr, next := FrameAt(k), FrameAt(k + 1);
    assert next.mem == if k == 1 then fr.mem[0 := Plain(0)] else if k == 5 then fr.mem[0 := Plain(-1)] else fr.mem;
    assert next.regs == if k in {3, 6} then fr.regs[fr.at := Plain(0)]
                        else if k in {4, 8} then fr.regs[fr.at := Plain(-1)] else fr.regs;
    assert fr.mem - {0} == fr.mem || k > 0;
  }

  lemma AloneSteps(prog: Module, fr: Frame, c: int, next: Frame)
    requires fr.name in prog && FrameStep(prog[fr.name], fr, c) == Some(next)
    requires !At(prog[fr.name], fr.at).Ret? && !At(prog[fr.name], fr.at).Call?
    ensures StepsTo(prog, [fr], [next])
  {
    assert [fr][..0] + [next] == [next];
    assert Step(prog, [fr], c) == Some([next]);
  }

  lemma StackSteps(k: nat)
    requires k < 9
    ensures StepsTo(StaleModule(), [FrameAt(k)], [FrameAt(k + 1)])
  {
    FrameSteps(k);
    AloneSteps(StaleModule(), FrameAt(k), -1, FrameAt(k + 1));
  }

  function MissedRun(): seq<Stack> {
    seq(10, k requires 0 <= k < 10 => [FrameAt(k)])
  }

  lemma RunIsRun()
    ensures IsRun(StaleModule(), MissedRun()) && MissedRun()[0] == [Entry("f", [0])]
    ensures RunReadsWell(StaleModule(), map["f" := StaleReturned()], MissedRun())
  {
    var run := MissedRun();
    forall k | 0 <= k < |run| - 1 ensures StepsTo(StaleModule(), run[k], run[k + 1]) { StackSteps(k); }
  }

  /** Although the pass finds zero, calling the function with zero returns -1, on
      a run without any unsigned comparison: without fresh checks the ranges
      need not hold. */
  lemma StaleCheckMisleads()
    ensures WellFormed(Stale()) && !ChecksAreFresh(Stale(), StaleReturned())
    ensures Stable(Returned.Problem(Stale()), StaleReturned())
    ensures !RangesSound(StaleModule(), map["f" := StaleReturned()], {"f"}, ZERO)
  {
    StaleIsWellFormed();
    StaleIsStale();
    StaleReturnedIsStable();
    var run := MissedRun();
    RunIsRun();
    assert Returning(Stale(), run[9][0]) == Some(Plain(-1));
    assert !ReturnInRange(StaleModule(), ZERO, run[9]);
  }
}
