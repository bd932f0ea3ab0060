/** When the sweeps of the range pass stop, they leave a solution. */
module RangeSolution {
  import opened IR
  import opened CallGraph
  import opened Signs
  import opened SignFacts
  import opened Shapes
  import opened Sweep
  import opened ReturnRange
  import opened RangeSweeps
  import Returned = ReturnedValues

  /** The terminator's check has reached its successors, unless nothing is
      known about the checked slot before it. */
  ghost predicate ChecksWritten(t: Task, st: State<Ranges>, b: nat)
    requires TaskOk(t) && Shape(t.fn, st) && b < |t.fn.blocks|
  {
    var blk := t.fn.blocks[b];
    |blk| >= 2 && IsConditional(Last(blk)) && CheckedSlot(t.fn, b, t.rst.entry[b]).Some?
    && Slot(CheckedSlot(t.fn, b, t.rst.entry[b]).value) in Before(st, b, |blk| - 1)
    ==> Written(Sys(t, map[]), st, b)
  }

  /** The function's range covers what the return at the end of b returns. */
  ghost predicate ReturnCovered(t: Task, st: State<Ranges>, ranges: RangeMap, b: nat)
    requires TaskOk(t) && Shape(t.fn, st) && b < |t.fn.blocks| && |t.fn.blocks[b]| > 0
  {
    var ins, f := Last(t.fn.blocks[b]), Before(st, b, |t.fn.blocks[b]| - 1);
    ins.Ret? ==>
      && t.name in ranges
      && (ins.val !in CopyKeys(t.fn) ==>
            Below(ReturnedRange(t.prog, t.fn, ranges, map[], ins.val), ranges[t.name]))
      && (ins.val in f ==> Below(ReturnedRange(t.prog, t.fn, ranges, f, ins.val), ranges[t.name]))
  }

  /** The raw form in which the sweeps leave a solution. */
  ghost predicate Solves(t: Task, st: State<Ranges>, ranges: RangeMap) {
    && TaskOk(t) && Shape(t.fn, st) && Ok(Sys(t, map[]), st)
    && forall b: nat :: b < |t.fn.blocks| ==>
         && BlockOk(t.fn, t.fn.blocks[b])
         && Fresh(Sys(t, ranges), st, b) && Gathered(Sys(t, map[]), st, b)
         && ChecksWritten(t, st, b) && ReturnCovered(t, st, ranges, b)
  }

  // ----- The same, spelled out -----

  ghost predicate TransferHolds(t: Task, st: State<Ranges>, ranges: RangeMap, at: Point)
    requires TaskOk(t) && Shape(t.fn, st) && InFunc(t.fn, at)
  {
    && Before(st, at.block, at.index).Keys <= CopyKeys(t.fn)
    && st.body[at.block][at.index]
       == Transfer(t.prog, t.fn, t.rst, Env(t.fn, ranges), at, Before(st, at.block, at.index))
  }

  ghost predicate EntryWithin(t: Task, st: State<Ranges>, g: nat)
    requires TaskOk(t) && Shape(t.fn, st) && g < |t.fn.blocks|
  {
    st.entry[g].Keys <= CopyKeys(t.fn) * ReturnableAt(t.fn, t.rst, g)
  }

  ghost predicate EdgeHolds(t: Task, st: State<Ranges>, b: nat, g: nat)
    requires TaskOk(t) && Shape(t.fn, st) && b < |t.fn.blocks| && g < |t.fn.blocks| && |t.fn.blocks[b]| > 0
  {
    BelowFact(Filtered(st.body[b][|t.fn.blocks[b]| - 1], ReturnableAt(t.fn, t.rst, g)), st.entry[g])
  }

  ghost predicate Delivered(ws: seq<(nat, Ranges)>, entry: seq<Ranges>) {
    forall k :: 0 <= k < |ws| ==> ws[k].0 < |entry| && BelowFact(ws[k].1, entry[ws[k].0])
  }

  ghost predicate CheckHolds(t: Task, st: State<Ranges>, b: nat)
    requires TaskOk(t) && Shape(t.fn, st) && b < |t.fn.blocks| && |t.fn.blocks[b]| > 0
  {
    var checked, f := CheckedSlot(t.fn, b, t.rst.entry[b]), Before(st, b, |t.fn.blocks[b]| - 1);
    checked.Some? && Slot(checked.value) in f && |t.fn.blocks[b]| >= 2 ==>
      Delivered(Writes(t.fn, t.rst, b, f), st.entry)
  }

  /** Facts `st` and return ranges that are consistent with each other and
      with every instruction and every edge of the function. */
  ghost predicate Consistent(t: Task, st: State<Ranges>, ranges: RangeMap) {
    && TaskOk(t) && Shape(t.fn, st)
    && (forall at {:trigger TransferHolds(t, st, ranges, at)} :: InFunc(t.fn, at) ==> TransferHolds(t, st, ranges, at))
    && (forall b: nat, g: nat {:trigger EdgeHolds(t, st, b, g)} ::
          b < |t.fn.blocks| && g < |t.fn.blocks| && Edge(t.fn, b, g) ==> EdgeHolds(t, st, b, g))
    && (forall g: nat {:trigger EntryWithin(t, st, g)} :: g < |t.fn.blocks| ==> EntryWithin(t, st, g))
    && (forall b: nat {:trigger CheckHolds(t, st, b)} {:trigger ReturnCovered(t, st, ranges, b)} ::
          b < |t.fn.blocks| && |t.fn.blocks[b]| > 0 ==> CheckHolds(t, st, b) && ReturnCovered(t, st, ranges, b))
  }

  ghost predicate Solved(t: Task, ranges: RangeMap) {
    exists st :: Consistent(t, st, ranges)
  }

  lemma SolvesEdge(t: Task, st: State<Ranges>, ranges: RangeMap, b: nat, g: nat)
    requires Solves(t, st, ranges) && b < |t.fn.blocks| && g < |t.fn.blocks| && Edge(t.fn, b, g)
    ensures EdgeHolds(t, st, b, g)
  {
    var sys := Sys(t, map[]);
    assert Gathered(sys, st, g);
    assert sys.feeds(b, g);
    assert Leq(sys, sys.flow(b, g, st.body[b]), st.entry[g]);
    AtomsBelow(Filtered(st.body[b][|t.fn.blocks[b]| - 1], ReturnableAt(t.fn, t.rst, g)), st.entry[g]);
  }

  lemma WrittenMeans(t: Task, st: State<Ranges>, b: nat)
    requires TaskOk(t) && |st.entry| == |st.body| == |t.fn.blocks| && b < |t.fn.blocks|
    requires Written(Sys(t, map[]), st, b)
    ensures Delivered(BlockWrites(t.fn, t.rst, b, st.body[b]), st.entry)
  {
    var ws := Sys(t, map[]).writes(b, st.body[b]);
    forall k | 0 <= k < |ws| ensures ws[k].0 < |st.entry| && BelowFact(ws[k].1, st.entry[ws[k].0]) {
      assert Leq(Sys(t, map[]), ws[k].1, st.entry[ws[k].0]);
      AtomsBelow(ws[k].1, st.entry[ws[k].0]);
    }
  }

  lemma BlockWritesAre(t: Task, st: State<Ranges>, b: nat)
    requires TaskOk(t) && Shape(t.fn, st) && b < |t.fn.blocks|
    requires |t.fn.blocks[b]| >= 2 && IsConditional(Last(t.fn.blocks[b]))
    ensures BlockWrites(t.fn, t.rst, b, st.body[b]) == Writes(t.fn, t.rst, b, Before(st, b, |t.fn.blocks[b]| - 1))
  {
  }

  lemma SolvesCheck(t: Task, st: State<Ranges>, b: nat)
    requires TaskOk(t) && Shape(t.fn, st) && b < |t.fn.blocks| && |t.fn.blocks[b]| > 0
    requires ChecksWritten(t, st, b)
    ensures CheckHolds(t, st, b)
  {
    var checked, blk := CheckedSlot(t.fn, b, t.rst.entry[b]), t.fn.blocks[b];
    if checked.Some? && Slot(checked.value) in Before(st, b, |blk| - 1) && |blk| >= 2 {
      assert IsConditional(Last(blk));
      BlockWritesAre(t, st, b);
      WrittenMeans(t, st, b);
    }
  }

  lemma FreshMeans(t: Task, st: State<Ranges>, ranges: RangeMap, at: Point)
    requires TaskOk(t) && Shape(t.fn, st) && InFunc(t.fn, at) && Fresh(Sys(t, ranges), st, at.block)
    ensures st.body[at.block][at.index]
            == Transfer(t.prog, t.fn, t.rst, Env(t.fn, ranges), at, Before(st, at.block, at.index))
  {
    ChainEquation(Stepper(t.prog, t.fn, t.rst, Env(t.fn, ranges), at.block), |t.fn.blocks[at.block]|,
                  st.entry[at.block], at.index);
  }

  lemma SolvesTransfer(t: Task, st: State<Ranges>, ranges: RangeMap, at: Point)
    requires Solves(t, st, ranges) && InFunc(t.fn, at)
    ensures TransferHolds(t, st, ranges, at)
  {
    KeysOk(t, st, at.block, at.index);
    assert Fresh(Sys(t, ranges), st, at.block);
    FreshMeans(t, st, ranges, at);
  }

  lemma SolvesEntry(t: Task, st: State<Ranges>, ranges: RangeMap, g: nat)
    requires Solves(t, st, ranges) && g < |t.fn.blocks|
    ensures EntryWithin(t, st, g)
  {
    assert EntryOk(Sys(t, map[]), g, st.entry[g]);
    AtomsWithin(st.entry[g], CopyKeys(t.fn) * ReturnableAt(t.fn, t.rst, g));
  }

  lemma SolvesIsConsistent(t: Task, st: State<Ranges>, ranges: RangeMap)
    requires Solves(t, st, ranges)
    ensures Consistent(t, st, ranges)
  {
    forall at | InFunc(t.fn, at) ensures TransferHolds(t, st, ranges, at) {
      SolvesTransfer(t, st, ranges, at);
    }
    forall b: nat, g: nat | b < |t.fn.blocks| && g < |t.fn.blocks| && Edge(t.fn, b, g) ensures EdgeHolds(t, st, b, g) {
      SolvesEdge(t, st, ranges, b, g);
    }
    forall g: nat | g < |t.fn.blocks| ensures EntryWithin(t, st, g) {
      SolvesEntry(t, st, ranges, g);
    }
    forall b: nat | b < |t.fn.blocks| && |t.fn.blocks[b]| > 0 ensures CheckHolds(t, st, b) {
      SolvesCheck(t, st, b);
    }
  }

  // ----- Return ranges of other functions do not matter -----

  lemma EnvSuffices(prog: Module, fn: Func, ranges: RangeMap, other: RangeMap, v: Value)
    requires Env(fn, ranges) == Env(fn, other)
    ensures AbstractValue(prog, fn, ranges, v) == AbstractValue(prog, fn, other, v)
  {
    if v.Reg? && InFunc(fn, v.at) && At(fn, v.at).Call? && At(fn, v.at).callee.Direct? {
      var g := At(fn, v.at).callee.name;
      assert g in Callees(fn);
      assert g in Env(fn, ranges) <==> g in Env(fn, other);
      if g in ranges { assert Env(fn, ranges)[g] == Env(fn, other)[g]; }
    }
  }

  lemma EnvIsEnough(fn: Func, ranges: RangeMap)
    ensures Env(fn, Env(fn, ranges)) == Env(fn, ranges)
  {
  }

  /** A solution stays one while the ranges of the function itself and of its
      callees stay. */
  lemma SolvedFrame(t: Task, ranges: RangeMap, other: RangeMap)
    requires Solved(t, ranges) && Env(t.fn, ranges) == Env(t.fn, other)
    requires t.name in ranges ==> t.name in other && other[t.name] == ranges[t.name]
    ensures Solved(t, other)
  {
    var st :| Consistent(t, st, ranges);
    forall b: nat | b < |t.fn.blocks| && |t.fn.blocks[b]| > 0 ensures ReturnCovered(t, st, other, b) {
      assert ReturnCovered(t, st, ranges, b);
      var ins := Last(t.fn.blocks[b]);
      if ins.Ret? {
        EnvSuffices(t.prog, t.fn, ranges, other, ins.val);
      }
    }
    assert forall at :: InFunc(t.fn, at) && TransferHolds(t, st, ranges, at) ==> TransferHolds(t, st, other, at);
    assert Consistent(t, st, other);
  }

  // ----- Returns are covered -----

  lemma KeysOk(t: Task, st: State<Ranges>, b: nat, i: nat)
    requires TaskOk(t) && Shape(t.fn, st) && Ok(Sys(t, map[]), st)
    requires b < |t.fn.blocks| && i < |t.fn.blocks[b]|
    ensures Before(st, b, i).Keys <= CopyKeys(t.fn)
  {
    var sys := Sys(t, map[]);
    assert EntryOk(sys, b, st.entry[b]) && BodyOk(sys, st.body[b]);
    if i > 0 { assert FactOk(sys, st.body[b][i - 1]); }
    AtomsWithin(Before(st, b, i), CopyKeys(t.fn));
  }

  ghost predicate DirectReturnCovered(t: Task, ranges: RangeMap, b: nat)
    requires b < |t.fn.blocks| && |t.fn.blocks[b]| > 0
  {
    var ins := Last(t.fn.blocks[b]);
    ins.Ret? ==>
      && t.name in ranges
      && (ins.val !in CopyKeys(t.fn) ==>
            Below(ReturnedRange(t.prog, t.fn, ranges, map[], ins.val), ranges[t.name]))
  }

  lemma VisitCoversReturn(t: Task, p: Progress, b: nat, q: Progress)
    requires Visits(t, p, b, q) && Ok(Sys(t, map[]), p.st) && Env(t.fn, q.ranges) == Env(t.fn, p.ranges)
    ensures Shape(t.fn, q.st) && |t.fn.blocks[b]| > 0
    ensures DirectReturnCovered(t, q.ranges, b) && ReturnCovered(t, q.st, q.ranges, b)
  {
    var blk := t.fn.blocks[b];
    assert BlockOk(t.fn, blk);
    VisitKeeps(t, p, b, q);
    KeysOk(t, q.st, b, |blk| - 1);
    var f := Before(q.st, b, |blk| - 1);
    assert q.ranges == AfterReturn(t.prog, t.fn, t.name, p.ranges, Last(blk), f);
    JoinCoversReturn(t, p.ranges, q.ranges, b, f);
  }

  lemma JoinCoversReturn(t: Task, x: RangeMap, y: RangeMap, b: nat, f: Ranges)
    requires b < |t.fn.blocks| && |t.fn.blocks[b]| > 0 && f.Keys <= CopyKeys(t.fn)
    requires y == AfterReturn(t.prog, t.fn, t.name, x, Last(t.fn.blocks[b]), f) && Env(t.fn, y) == Env(t.fn, x)
    ensures DirectReturnCovered(t, y, b)
    ensures var ins := Last(t.fn.blocks[b]);
            ins.Ret? && ins.val in f ==> Below(ReturnedRange(t.prog, t.fn, y, f, ins.val), y[t.name])
  {
    AfterReturnGrows(t, x, Last(t.fn.blocks[b]), f);
    if Last(t.fn.blocks[b]).Ret? {
      EnvSuffices(t.prog, t.fn, x, y, Last(t.fn.blocks[b]).val);
    }
  }

  lemma CoverageGrows(t: Task, x: RangeMap, y: RangeMap, b: nat)
    requires b < |t.fn.blocks| && |t.fn.blocks[b]| > 0
    requires GrowsAt(t.name, x, y) && Env(t.fn, x) == Env(t.fn, y) && DirectReturnCovered(t, x, b)
    ensures DirectReturnCovered(t, y, b)
  {
    if Last(t.fn.blocks[b]).Ret? {
      EnvSuffices(t.prog, t.fn, x, y, Last(t.fn.blocks[b]).val);
    }
  }

  ghost predicate DirectUpTo(t: Task, ranges: RangeMap, k: nat)
    requires k <= |t.fn.blocks|
  {
    forall b: nat :: b < k ==> |t.fn.blocks[b]| > 0 && DirectReturnCovered(t, ranges, b)
  }

  lemma DirectStays(t: Task, x: RangeMap, y: RangeMap, k: nat)
    requires k <= |t.fn.blocks| && GrowsAt(t.name, x, y) && Env(t.fn, x) == Env(t.fn, y) && DirectUpTo(t, x, k)
    ensures DirectUpTo(t, y, k)
  {
    forall b: nat | b < k ensures |t.fn.blocks[b]| > 0 && DirectReturnCovered(t, y, b) {
      CoverageGrows(t, x, y, b);
    }
  }

  lemma OneReturnMore(t: Task, run: seq<Progress>, k: nat)
    requires IsSweep(t, run) && Ok(Sys(t, map[]), run[0].st) && Steady(t, run) && k + 1 < |run|
    requires DirectUpTo(t, run[k].ranges, k)
    ensures DirectUpTo(t, run[k + 1].ranges, k + 1)
  {
    SteadyThroughout(t, run, k);
    SteadyThroughout(t, run, k + 1);
    SweepKeeps(t, run, k);
    assert StepsAt(t, run, k);
    ReturnsOneMore(t, run[k], k, run[k + 1]);
  }

  lemma ReturnsOneMore(t: Task, p: Progress, k: nat, q: Progress)
    requires Visits(t, p, k, q) && Ok(Sys(t, map[]), p.st) && Env(t.fn, q.ranges) == Env(t.fn, p.ranges)
    requires DirectUpTo(t, p.ranges, k)
    ensures DirectUpTo(t, q.ranges, k + 1)
  {
    VisitCoversReturn(t, p, k, q);
    VisitGrows(t, p, k, q);
    DirectStays(t, p.ranges, q.ranges, k);
  }

  lemma {:induction false} DirectReturns(t: Task, run: seq<Progress>, k: nat)
    requires IsSweep(t, run) && Ok(Sys(t, map[]), run[0].st) && Steady(t, run) && k < |run|
    ensures DirectUpTo(t, run[k].ranges, k)
  {
    if k > 0 {
      DirectReturns(t, run, k - 1);
      OneReturnMore(t, run, k - 1);
    }
  }

  /** In a sweep that changes nothing, a visit leaves everything but its own
      boundary fact alone. */
  lemma QuietVisit(t: Task, p: Progress, b: nat, q: Progress)
    requires Visits(t, p, b, q) && Ok(Sys(t, map[]), p.st)
    requires AllWritten(Sys(t, map[]), p.st) && q.st.body[b] == p.st.body[b]
    ensures q.st.body == p.st.body
    ensures forall c :: 0 <= c < |t.fn.blocks| && c != b ==> q.st.entry[c] == p.st.entry[c]
    ensures Ok(Sys(t, map[]), q.st) && AllWritten(Sys(t, map[]), q.st)
  {
    var sys := Sys(t, p.ranges);
    ProblemIsLawful(t.prog, t.fn, t.rst, Env(t.fn, p.ranges));
    SameForAllRanges(t, p.st, p.ranges);
    assert Written(Sys(t, map[]), p.st, b);
    VisitEffect(sys, p.st, b);
    assert q.st.body == p.st.body;
    VisitKeeps(t, p, b, q);
    forall c | 0 <= c < |q.st.body| ensures Written(Sys(t, map[]), q.st, c) {
      assert Written(Sys(t, map[]), p.st, c);
    }
  }

  lemma ReturnCoverageGrows(t: Task, st: State<Ranges>, next: State<Ranges>, x: RangeMap, y: RangeMap, b: nat)
    requires TaskOk(t) && Shape(t.fn, st) && Shape(t.fn, next) && b < |t.fn.blocks| && |t.fn.blocks[b]| > 0
    requires GrowsAt(t.name, x, y) && Env(t.fn, x) == Env(t.fn, y)
    requires next.body == st.body && next.entry[b] == st.entry[b] && ReturnCovered(t, st, x, b)
    ensures ReturnCovered(t, next, y, b)
  {
    if Last(t.fn.blocks[b]).Ret? {
      EnvSuffices(t.prog, t.fn, x, y, Last(t.fn.blocks[b]).val);
    }
  }

  ghost predicate CoveredUpTo(t: Task, p: Progress, k: nat)
    requires TaskOk(t) && Shape(t.fn, p.st) && k <= |t.fn.blocks|
  {
    forall b: nat :: b < k ==> |t.fn.blocks[b]| > 0 && ReturnCovered(t, p.st, p.ranges, b)
  }

  lemma CoveredStays(t: Task, p: Progress, q: Progress, k: nat)
    requires TaskOk(t) && Shape(t.fn, p.st) && Shape(t.fn, q.st) && k <= |t.fn.blocks|
    requires GrowsAt(t.name, p.ranges, q.ranges) && Env(t.fn, p.ranges) == Env(t.fn, q.ranges)
    requires q.st.body == p.st.body && (forall c :: 0 <= c < k ==> q.st.entry[c] == p.st.entry[c])
    requires CoveredUpTo(t, p, k)
    ensures CoveredUpTo(t, q, k)
  {
    forall b: nat | b < k ensures |t.fn.blocks[b]| > 0 && ReturnCovered(t, q.st, q.ranges, b) {
      ReturnCoverageGrows(t, p.st, q.st, p.ranges, q.ranges, b);
    }
  }

  lemma OneQuietMore(t: Task, run: seq<Progress>, k: nat)
    requires IsSweep(t, run) && Steady(t, run) && !Changed(t, run) && k + 1 < |run|
    requires Ok(Sys(t, map[]), run[k].st) && AllWritten(Sys(t, map[]), run[k].st) && CoveredUpTo(t, run[k], k)
    ensures Ok(Sys(t, map[]), run[k + 1].st) && AllWritten(Sys(t, map[]), run[k + 1].st)
    ensures CoveredUpTo(t, run[k + 1], k + 1)
  {
    var p, q := run[k], run[k + 1];
    SteadyThroughout(t, run, k);
    SteadyThroughout(t, run, k + 1);
    assert StepsAt(t, run, k);
    assert q.st.body[k] == p.st.body[k];
    VisitCoversReturn(t, p, k, q);
    VisitGrows(t, p, k, q);
    QuietVisit(t, p, k, q);
    CoveredStays(t, p, q, k);
  }

  lemma {:induction false} QuietReturns(t: Task, run: seq<Progress>, k: nat)
    requires IsSweep(t, run) && Ok(Sys(t, map[]), run[0].st) && Steady(t, run) && k < |run|
    requires AllWritten(Sys(t, map[]), run[0].st) && !Changed(t, run)
    ensures Ok(Sys(t, map[]), run[k].st) && AllWritten(Sys(t, map[]), run[k].st)
    ensures CoveredUpTo(t, run[k], k)
  {
    if k > 0 {
      QuietReturns(t, run, k - 1);
      OneQuietMore(t, run, k - 1);
    }
  }

  // ----- The end of the sweeps -----

  /** The state of knowing nothing. */
  function Nothing(fn: Func): State<Ranges> {
    Uniform(fn, map[])
  }

  /** A transfer that derives nothing from some fact derives nothing at all. */
  lemma DerivesNothing(t: Task, ranges: RangeMap, at: Point, f: Ranges)
    requires TaskOk(t) && InFunc(t.fn, at)
    requires Transfer(t.prog, t.fn, t.rst, ranges, at, f) == map[]
    ensures Transfer(t.prog, t.fn, t.rst, ranges, at, map[]) == map[]
  {
    var rvf, g := Returned.OutFact(t.rst, at), Transfer(t.prog, t.fn, t.rst, ranges, at, f);
    match At(t.fn, at)
    case Store(v, s) => assert Slot(s) in rvf ==> Slot(s) in g;
    case Load(_) => assert Reg(at) in rvf ==> Reg(at) in g;
    case Cast(_, _) => assert Reg(at) in rvf ==> Reg(at) in g;
    case _ =>
  }

  lemma {:induction false} BlankTrace(t: Task, ranges: RangeMap, b: nat, x: Ranges, k: nat)
    requires TaskOk(t) && b < |t.fn.blocks| && k <= |t.fn.blocks[b]|
    requires forall i :: 0 <= i < k ==>
               Chain(Stepper(t.prog, t.fn, t.rst, ranges, b), k, x)[i] == map[]
    ensures forall i :: 0 <= i < k ==>
               Chain(Stepper(t.prog, t.fn, t.rst, ranges, b), k, map[])[i] == map[]
  {
    if k > 0 {
      var step := Stepper(t.prog, t.fn, t.rst, ranges, b);
      var prefix := Chain(step, k - 1, x);
      forall i | 0 <= i < k - 1 ensures prefix[i] == map[] {
        assert Chain(step, k, x)[i] == prefix[i];
      }
      BlankTrace(t, ranges, b, x, k - 1);
      var f := if k == 1 then x else map[];
      assert Chain(step, k, x)[k - 1] == step(k - 1, f);
      DerivesNothing(t, ranges, Point(b, k - 1), f);
    }
  }

  lemma NothingIsFresh(t: Task, ranges: RangeMap, b: nat, body: seq<Ranges>)
    requires TaskOk(t) && b < |t.fn.blocks| && IsTrace(Sys(t, ranges), b, body)
    requires forall i :: 0 <= i < |body| ==> body[i] == map[]
    ensures Fresh(Sys(t, ranges), Nothing(t.fn), b)
  {
    var sys := Sys(t, ranges);
    var x :| body == sys.trace(b, x);
    BlankTrace(t, Env(t.fn, ranges), b, x, |t.fn.blocks[b]|);
    assert Nothing(t.fn).body[b] == sys.trace(b, map[]);
  }

  lemma NothingSolvesBlock(t: Task, ranges: RangeMap, b: nat)
    requires TaskOk(t) && b < |t.fn.blocks| && |t.fn.blocks[b]| > 0 && DirectReturnCovered(t, ranges, b)
    ensures Shape(t.fn, Nothing(t.fn))
    ensures ChecksWritten(t, Nothing(t.fn), b) && ReturnCovered(t, Nothing(t.fn), ranges, b)
  {
    assert Before(Nothing(t.fn), b, |t.fn.blocks[b]| - 1) == map[];
  }

  /** Sweeps that stopped before anything was known: whatever the terminators
      wrote, no execution can reach a check. */
  lemma NothingSolves(t: Task, run: seq<Progress>)
    requires IsSweep(t, run) && |run| == |t.fn.blocks| + 1 && Ok(Sys(t, map[]), run[0].st)
    requires Steady(t, run) && !Changed(t, run) && Blank(run[0].st)
    ensures Solves(t, Nothing(t.fn), run[|run| - 1].ranges)
  {
    var st, ranges, n := Nothing(t.fn), run[|run| - 1].ranges, |t.fn.blocks|;
    SteadyIsPlainSweep(t, run, n);
    QuietBodies(Sys(t, run[0].ranges), run[0].st, n);
    DirectReturns(t, run, n);
    NothingIsOk(t);
    forall b: nat | b < n
      ensures BlockOk(t.fn, t.fn.blocks[b])
      ensures Fresh(Sys(t, ranges), st, b) && ChecksWritten(t, st, b) && ReturnCovered(t, st, ranges, b)
    {
      assert BlockOk(t.fn, t.fn.blocks[b]);
      assert forall i :: 0 <= i < |run[0].st.body[b]| ==> run[0].st.body[b][i] == map[];
      NothingIsFresh(t, run[0].ranges, b, run[0].st.body[b]);
      NothingSolvesBlock(t, ranges, b);
    }
  }

  lemma NothingIsOk(t: Task)
    requires TaskOk(t)
    ensures Shape(t.fn, Nothing(t.fn)) && Ok(Sys(t, map[]), Nothing(t.fn))
    ensures forall b: nat :: b < |t.fn.blocks| ==> Gathered(Sys(t, map[]), Nothing(t.fn), b)
  {
    var sys, st := Sys(t, map[]), Nothing(t.fn);
    forall b: nat | b < |t.fn.blocks|
      ensures EntryOk(sys, b, st.entry[b]) && BodyOk(sys, st.body[b])
      ensures Gathered(sys, st, b)
    {
      BoundWithin(t.fn, t.rst, b);
      forall p: nat | p < |st.body| && sys.feeds(p, b) ensures Leq(sys, sys.flow(p, b, st.body[p]), st.entry[b]) {
        assert sys.flow(p, b, st.body[p]) == map[];
      }
    }
  }

  /** A quiet sweep over facts whose writes were in place is a solution. */
  lemma StableSolves(t: Task, run: seq<Progress>)
    requires IsSweep(t, run) && |run| == |t.fn.blocks| + 1 && Ok(Sys(t, map[]), run[0].st)
    requires Steady(t, run) && !Changed(t, run) && AllWritten(Sys(t, map[]), run[0].st)
    ensures Solves(t, run[|run| - 1].st, run[|run| - 1].ranges)
  {
    var n := |t.fn.blocks|;
    var st, sys, ranges := run[n].st, Sys(t, run[0].ranges), run[n].ranges;
    SteadyIsPlainSweep(t, run, n);
    QuietReturns(t, run, n);
    SameForAllRanges(t, run[0].st, run[0].ranges);
    ProblemIsLawful(t.prog, t.fn, t.rst, Env(t.fn, run[0].ranges));
    QuietSweepIsStable(sys, run[0].st);
    assert Stable(sys, st);
    forall b: nat | b < n
      ensures BlockOk(t.fn, t.fn.blocks[b])
      ensures Fresh(Sys(t, ranges), st, b) && Gathered(Sys(t, map[]), st, b)
      ensures ChecksWritten(t, st, b) && ReturnCovered(t, st, ranges, b)
    {
      assert Gathered(sys, st, b);
      assert forall x, y :: Leq(sys, x, y) <==> Leq(Sys(t, map[]), x, y);
      assert Gathered(Sys(t, map[]), st, b);
      assert Written(Sys(t, map[]), st, b);
      assert CoveredUpTo(t, run[n], n);
    }
  }

  /** The last sweep of a function's analysis leaves a solution. */
  lemma QuietSweepSolves(t: Task, run: seq<Progress>)
    requires IsSweep(t, run) && |run| == |t.fn.blocks| + 1 && Good(t, run[0].st)
    requires Steady(t, run) && !Changed(t, run)
    ensures Solved(t, run[|run| - 1].ranges)
  {
    if AllWritten(Sys(t, map[]), run[0].st) {
      StableSolves(t, run);
      SolvesIsConsistent(t, run[|run| - 1].st, run[|run| - 1].ranges);
    } else {
      NothingSolves(t, run);
      SolvesIsConsistent(t, Nothing(t.fn), run[|run| - 1].ranges);
    }
  }
}
