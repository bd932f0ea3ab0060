/** Sweeps of the range pass: besides the facts, a sweep grows the function's
    own return range, on which the transfer of its recursive calls depends. */
module RangeSweeps {
  import opened IR
  import opened Signs
  import opened SignFacts
  import opened Shapes
  import opened Sweep
  import opened ReturnRange

  type RangeMap = map<string, Sign>

  /** The range of one return: a pointer that may be non-null may be anything
      but null. */
  function ReturnedRange(prog: Module, fn: Func, ranges: RangeMap, f: Ranges, v: Value): Sign {
    var r := RangeOf(prog, fn, ranges, f, v);
    if fn.returnsPointer && Intersects(r, NotZero) then Signs.Join(r, NotZero) else r
  }

  /** The return ranges after visiting terminator `ins` of function `name`. */
  function AfterReturn(prog: Module, fn: Func, name: string, ranges: RangeMap, ins: Instr, f: Ranges): RangeMap {
    if ins.Ret? then
      var r := ReturnedRange(prog, fn, ranges, f, ins.val);
      ranges[name := if name in ranges then Signs.Join(ranges[name], r) else r]
    else ranges
  }

  datatype Progress = Progress(st: State<Ranges>, ranges: RangeMap)

  /** One function under analysis. */
  datatype Task = Task(prog: Module, name: string, fn: Func, rst: ReturnedFacts)

  ghost predicate TaskOk(t: Task) {
    WellFormed(t.fn) && Shape(t.fn, t.rst)
  }

  ghost function Sys(t: Task, ranges: RangeMap): System<Ranges, (Value, Option<Region>)>
    requires TaskOk(t)
  {
    Problem(t.prog, t.fn, t.rst, Env(t.fn, ranges))
  }

  ghost function VisitOnce(t: Task, p: Progress, b: nat): (q: Progress)
    requires TaskOk(t) && Shape(t.fn, p.st) && b < |t.fn.blocks|
    ensures Shape(t.fn, q.st)
  {
    assert BlockOk(t.fn, t.fn.blocks[b]);
    var st := Visit(Sys(t, p.ranges), p.st, b);
    var blk := t.fn.blocks[b];
    Progress(st, AfterReturn(t.prog, t.fn, t.name, p.ranges, Last(blk), Before(st, b, |blk| - 1)))
  }

  ghost predicate Visits(t: Task, p: Progress, b: nat, q: Progress) {
    TaskOk(t) && Shape(t.fn, p.st) && b < |t.fn.blocks| && q == VisitOnce(t, p, b)
  }

  ghost predicate StepsAt(t: Task, run: seq<Progress>, k: nat)
    requires k + 1 < |run|
  {
    Visits(t, run[k], k, run[k + 1])
  }

  /** The states of a sweep: run[k] is reached by visiting blocks 0..k. */
  ghost predicate IsSweep(t: Task, run: seq<Progress>) {
    && TaskOk(t) && 0 < |run| <= |t.fn.blocks| + 1
    && (forall k :: 0 <= k < |run| ==> Shape(t.fn, run[k].st))
    && (forall k: nat {:trigger StepsAt(t, run, k)} :: k + 1 < |run| ==> StepsAt(t, run, k))
  }

  /** Whether one of the visits changed a fact inside its block. */
  ghost predicate Changed(t: Task, run: seq<Progress>)
    requires IsSweep(t, run)
  {
    exists k: nat :: k + 1 < |run| && run[k + 1].st.body[k] != run[k].st.body[k]
  }

  // ----- Return ranges only grow -----

  /** Only `name`'s range changed, and it grew. */
  ghost predicate GrowsAt(name: string, x: RangeMap, y: RangeMap) {
    && BelowFact(x, y)
    && forall g :: g != name ==> (g in x <==> g in y) && (g in x ==> x[g] == y[g])
  }

  lemma AfterReturnGrows(t: Task, ranges: RangeMap, ins: Instr, f: Ranges)
    ensures GrowsAt(t.name, ranges, AfterReturn(t.prog, t.fn, t.name, ranges, ins, f))
    ensures ins.Ret? ==>
              var after := AfterReturn(t.prog, t.fn, t.name, ranges, ins, f);
              t.name in after && Below(ReturnedRange(t.prog, t.fn, ranges, f, ins.val), after[t.name])
  {
    if ins.Ret? && t.name in ranges {
      var r := ReturnedRange(t.prog, t.fn, ranges, f, ins.val);
      forall x: Region { JoinHas(ranges[t.name], r, x); }
    }
  }

  lemma VisitGrows(t: Task, p: Progress, b: nat, q: Progress)
    requires Visits(t, p, b, q)
    ensures GrowsAt(t.name, p.ranges, q.ranges)
  {
    var blk := t.fn.blocks[b];
    assert BlockOk(t.fn, blk);
    AfterReturnGrows(t, p.ranges, Last(blk), Before(q.st, b, |blk| - 1));
  }

  lemma RangesGrowOn(name: string, x: RangeMap, y: RangeMap, z: RangeMap)
    requires GrowsAt(name, x, y) && GrowsAt(name, y, z)
    ensures GrowsAt(name, x, z)
  {
  }

  lemma {:induction false} RangesGrow(t: Task, run: seq<Progress>, j: nat, k: nat)
    requires IsSweep(t, run) && j <= k < |run|
    ensures GrowsAt(t.name, run[j].ranges, run[k].ranges)
  {
    if j < k {
      RangesGrow(t, run, j, k - 1);
      assert StepsAt(t, run, k - 1);
      VisitGrows(t, run[k - 1], k - 1, run[k]);
      RangesGrowOn(t.name, run[j].ranges, run[k - 1].ranges, run[k].ranges);
    }
  }

  /** How much a function's return range can still grow. */
  ghost function RangeRoom(ranges: RangeMap, name: string): nat {
    if name !in ranges then 4
    else (if Has(ranges[name], Negative) then 0 else 1)
         + (if Has(ranges[name], Null) then 0 else 1)
         + (if Has(ranges[name], Positive) then 0 else 1)
  }

  lemma RangeRoomShrinks(name: string, x: RangeMap, y: RangeMap)
    requires GrowsAt(name, x, y)
    ensures RangeRoom(y, name) <= RangeRoom(x, name)
    ensures x != y ==> RangeRoom(y, name) < RangeRoom(x, name)
  {
    if name in x {
      assert Below(x[name], y[name]);
      if x[name] == y[name] {
        assert x == y;
      } else if forall r: Region :: Has(y[name], r) ==> Has(x[name], r) {
        Extensional(x[name], y[name]);
      }
    } else if name !in y {
      assert x == y;
    }
  }

  lemma BelowAntisymmetric(x: RangeMap, y: RangeMap)
    requires BelowFact(x, y) && BelowFact(y, x)
    ensures x == y
  {
    AtomsBelow(x, y);
    AtomsBelow(y, x);
    AtomsInjective(x, y);
  }

  // ----- What a sweep keeps -----

  /** Facts of the right shape, within their universe; writes are in place
      unless nothing was ever visited. */
  ghost predicate Good(t: Task, st: State<Ranges>) {
    && TaskOk(t) && Shape(t.fn, st)
    && Ok(Sys(t, map[]), st)
    && (Blank(st) || AllWritten(Sys(t, map[]), st))
  }

  ghost predicate Blank(st: State<Ranges>) {
    forall b, i :: 0 <= b < |st.body| && 0 <= i < |st.body[b]| ==> st.body[b][i] == map[]
  }

  /** Only the transfer depends on the return ranges. */
  lemma SameForAllRanges(t: Task, st: State<Ranges>, r: RangeMap)
    requires TaskOk(t)
    ensures Ok(Sys(t, map[]), st) <==> Ok(Sys(t, r), st)
    ensures forall b: nat :: b < |st.body| ==> (Written(Sys(t, map[]), st, b) <==> Written(Sys(t, r), st, b))
    ensures AllWritten(Sys(t, map[]), st) <==> AllWritten(Sys(t, r), st)
  {
    var s, u := Sys(t, map[]), Sys(t, r);
    assert forall b: nat, x :: EntryOk(s, b, x) <==> EntryOk(u, b, x);
    assert forall x :: FactOk(s, x) <==> FactOk(u, x);
    assert forall x :: BodyOk(s, x) <==> BodyOk(u, x);
    assert forall x, y :: Leq(s, x, y) <==> Leq(u, x, y);
    forall b: nat | b < |st.body| ensures Written(s, st, b) <==> Written(u, st, b) {
      assert s.writes(b, st.body[b]) == u.writes(b, st.body[b]);
    }
  }

  lemma VisitKeeps(t: Task, p: Progress, b: nat, q: Progress)
    requires Visits(t, p, b, q) && Ok(Sys(t, map[]), p.st)
    ensures Shape(t.fn, q.st) && Ok(Sys(t, map[]), q.st)
    ensures Written(Sys(t, map[]), q.st, b)
    ensures forall c: nat :: c < |t.fn.blocks| && Written(Sys(t, map[]), p.st, c) ==> Written(Sys(t, map[]), q.st, c)
  {
    var sys := Sys(t, p.ranges);
    ProblemIsLawful(t.prog, t.fn, t.rst, Env(t.fn, p.ranges));
    SameForAllRanges(t, p.st, p.ranges);
    SameForAllRanges(t, q.st, p.ranges);
    VisitEffect(sys, p.st, b);
    WrittenGrows(sys, p.st, q.st, b);
  }

  ghost predicate WrittenUpTo(t: Task, st: State<Ranges>, k: nat)
    requires TaskOk(t)
  {
    && |st.entry| == |st.body| == |t.fn.blocks|
    && Ok(Sys(t, map[]), st)
    && forall c: nat {:trigger Written(Sys(t, map[]), st, c)} ::
         c < k && c < |st.body| ==> Written(Sys(t, map[]), st, c)
  }

  lemma VisitWrites(t: Task, p: Progress, b: nat, q: Progress)
    requires Visits(t, p, b, q) && WrittenUpTo(t, p.st, b)
    ensures WrittenUpTo(t, q.st, b + 1)
  {
    VisitKeeps(t, p, b, q);
  }

  lemma NothingVisited(t: Task, run: seq<Progress>)
    requires IsSweep(t, run) && Ok(Sys(t, map[]), run[0].st)
    ensures WrittenUpTo(t, run[0].st, 0)
  {
  }

  lemma OneVisitMore(t: Task, run: seq<Progress>, k: nat)
    requires IsSweep(t, run) && k + 1 < |run| && WrittenUpTo(t, run[k].st, k)
    ensures WrittenUpTo(t, run[k + 1].st, k + 1)
  {
    assert StepsAt(t, run, k);
    VisitWrites(t, run[k], k, run[k + 1]);
  }

  lemma SweepKeeps(t: Task, run: seq<Progress>, k: nat)
    requires IsSweep(t, run) && Ok(Sys(t, map[]), run[0].st) && k < |run|
    ensures WrittenUpTo(t, run[k].st, k)
  {
    NothingVisited(t, run);
    for j := 0 to k
      invariant WrittenUpTo(t, run[j].st, j)
    {
      OneVisitMore(t, run, j);
    }
  }

  // ----- Sweeps in which the ranges that matter stand still -----

  ghost predicate Steady(t: Task, run: seq<Progress>)
    requires IsSweep(t, run)
  {
    Env(t.fn, run[|run| - 1].ranges) == Env(t.fn, run[0].ranges)
  }

  lemma SteadyThroughout(t: Task, run: seq<Progress>, k: nat)
    requires IsSweep(t, run) && Steady(t, run) && k < |run|
    ensures Env(t.fn, run[k].ranges) == Env(t.fn, run[0].ranges)
  {
    RangesGrow(t, run, 0, k);
    RangesGrow(t, run, k, |run| - 1);
    BelowAntisymmetric(Env(t.fn, run[0].ranges), Env(t.fn, run[k].ranges));
  }

  ghost function States(run: seq<Progress>): (r: seq<State<Ranges>>)
    ensures |r| == |run|
    ensures forall k :: 0 <= k < |run| ==> r[k] == run[k].st
  {
    seq(|run|, k requires 0 <= k < |run| => run[k].st)
  }

  lemma SteadyVisit(t: Task, run: seq<Progress>, k: nat)
    requires IsSweep(t, run) && Steady(t, run) && k + 1 < |run|
    ensures run[k + 1].st == Visit(Sys(t, run[0].ranges), run[k].st, k)
  {
    assert StepsAt(t, run, k);
    SteadyThroughout(t, run, k);
  }

  lemma SteadyIsPlainSweep(t: Task, run: seq<Progress>, k: nat)
    requires IsSweep(t, run) && Steady(t, run) && k < |run|
    ensures run[k].st == SweepTo(Sys(t, run[0].ranges), run[0].st, k)
    ensures ChangedTo(Sys(t, run[0].ranges), run[0].st, k)
            <==> exists j: nat :: j < k && run[j + 1].st.body[j] != run[j].st.body[j]
  {
    var sys, sts := Sys(t, run[0].ranges), States(run);
    forall j: nat | j + 1 < |sts| ensures sts[j + 1] == Visit(sys, sts[j], j) {
      SteadyVisit(t, run, j);
    }
    SweepIs(sys, sts, k);
    forall j: nat | j < k ensures sts[j + 1].body[j] == run[j + 1].st.body[j] && sts[j].body[j] == run[j].st.body[j] {}
  }
}
