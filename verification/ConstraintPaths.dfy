/** The constraints on called functions admit only results with which some path
    of the control-flow graph leads there. */
module ConstraintPaths {
  import opened IR
  import opened Signs
  import opened SignFacts
  import opened Shapes
  import opened Sweep
  import opened ReturnConstraints
  import opened ConstraintMeaning

  predicate Calls(ins: Instr, g: string) {
    ins.Call? && CalleeName(ins.callee) == g
  }

  /** With result n of g, control can move on from `at` to `next`: if g's result
      is tested there, it is the way to go. */
  ghost predicate Moves(fn: Func, pst: PropagationFacts, at: Point, next: Point, g: string, n: int)
    requires Covers(fn, pst)
  {
    Follows(fn, at, next)
    && (TestsResultOf(fn, pst, At(fn, at), g) ==> GoesTo(fn, At(fn, at), next.block, n))
  }

  /** Before instruction `at`, a path of n steps from a call of g, or from a test
      of its result, has ended along which every test of the result of g went
      the way it goes for r. */
  ghost predicate Led(fn: Func, pst: PropagationFacts, at: Point, g: string, r: int, n: nat)
    requires Covers(fn, pst)
    decreases n
  {
    exists prev :: Moves(fn, pst, prev, at, g, r)
      && if n == 0 then Calls(At(fn, prev), g) || TestsResultOf(fn, pst, At(fn, prev), g)
         else Led(fn, pst, prev, g, r, n - 1)
  }

  ghost predicate Possible(fn: Func, pst: PropagationFacts, at: Point, g: string, r: int)
    requires Covers(fn, pst)
  {
    exists n: nat :: Led(fn, pst, at, g, r, n)
  }

  lemma NoWayIn(fn: Func, pst: PropagationFacts, at: Point, g: string, r: int)
    requires Covers(fn, pst) && forall prev :: !Moves(fn, pst, prev, at, g, r)
    ensures !Possible(fn, pst, at, g, r)
  {
    forall n: nat ensures !Led(fn, pst, at, g, r, n) {}
  }

  /** The fact before `at` admits only what is possible there. */
  ghost predicate AllPossible(fn: Func, pst: PropagationFacts, at: Point, f: Names)
    requires Covers(fn, pst)
  {
    forall g, r {:trigger Holds(f[g], r)} :: g in f && Holds(f[g], r) ==> Possible(fn, pst, at, g, r)
  }

  /** The fact after `at` admits only what is possible wherever control goes. */
  ghost predicate PossibleAfter(fn: Func, pst: PropagationFacts, at: Point, f: Names)
    requires Covers(fn, pst)
  {
    forall next {:trigger Follows(fn, at, next)} :: Follows(fn, at, next) ==> AllPossible(fn, pst, next, f)
  }

  ghost predicate RowPossible(fn: Func, pst: PropagationFacts, b: nat, row: seq<Names>)
    requires Covers(fn, pst)
  {
    forall i :: 0 <= i < |row| ==> PossibleAfter(fn, pst, Point(b, i), row[i])
  }

  ghost predicate StatePossible(fn: Func, pst: PropagationFacts, st: State<Names>)
    requires Covers(fn, pst)
  {
    forall b {:trigger st.entry[b]} {:trigger st.body[b]} :: 0 <= b < |fn.blocks| && b < |st.entry| && b < |st.body| ==>
      AllPossible(fn, pst, Point(b, 0), st.entry[b]) && RowPossible(fn, pst, b, st.body[b])
  }

  lemma StepPossible(fn: Func, pst: PropagationFacts, at: Point, next: Point, g: string, r: int)
    requires Covers(fn, pst) && Moves(fn, pst, at, next, g, r)
    requires Calls(At(fn, at), g) || TestsResultOf(fn, pst, At(fn, at), g) || Possible(fn, pst, at, g, r)
    ensures Possible(fn, pst, next, g, r)
  {
    if Calls(At(fn, at), g) || TestsResultOf(fn, pst, At(fn, at), g) {
      assert Led(fn, pst, next, g, r, 0);
    } else {
      var n: nat :| Led(fn, pst, at, g, r, n);
      assert Led(fn, pst, next, g, r, n + 1);
    }
  }

  lemma TransferPossible(fn: Func, pst: PropagationFacts, at: Point, f: Names)
    requires Covers(fn, pst) && InFunc(fn, at) && AllPossible(fn, pst, at, f)
    ensures PossibleAfter(fn, pst, at, Transfer(fn, pst, At(fn, at), f))
  {
    var out := Transfer(fn, pst, At(fn, at), f);
    forall next, g, r | Follows(fn, at, next) && g in out && Holds(out[g], r) ensures Possible(fn, pst, next, g, r) {
      TestedIs(fn, pst, At(fn, at), g);
      if !Calls(At(fn, at), g) {
        assert Holds(f[g], r);
      }
      StepPossible(fn, pst, at, next, g, r);
    }
  }

  lemma {:induction false} ChainPossible(fn: Func, pst: PropagationFacts, b: nat, k: nat, x: Names)
    requires Covers(fn, pst) && b < |fn.blocks| && k <= |fn.blocks[b]| && AllPossible(fn, pst, Point(b, 0), x)
    ensures RowPossible(fn, pst, b, Chain(Stepper(fn, pst, b), k, x))
  {
    if k > 0 {
      ChainPossible(fn, pst, b, k - 1, x);
      var row := Chain(Stepper(fn, pst, b), k - 1, x);
      var f, at := if k == 1 then x else row[k - 2], Point(b, k - 1);
      if k > 1 {
        assert PossibleAfter(fn, pst, Point(b, k - 2), row[k - 2]);
        assert Follows(fn, Point(b, k - 2), at);
      }
      TransferPossible(fn, pst, at, f);
    }
  }

  lemma JoinPossible(fn: Func, pst: PropagationFacts, at: Point, x: Names, y: Names)
    requires Covers(fn, pst) && AllPossible(fn, pst, at, x) && AllPossible(fn, pst, at, y)
    ensures AllPossible(fn, pst, at, Joined(x, y))
  {
    var f := Joined(x, y);
    forall g, r | g in f && Holds(f[g], r) ensures Possible(fn, pst, at, g, r) {
      if g in x && g in y { OperationsHold(x[g], y[g], r); }
      assert (g in x && Holds(x[g], r)) || (g in y && Holds(y[g], r));
    }
  }

  lemma DeliveredPossible(fn: Func, pst: PropagationFacts, st: State<Names>, p: nat, b: nat)
    requires WellFormed(fn) && Covers(fn, pst) && Shape(fn, st) && StatePossible(fn, pst, st)
    requires p < |fn.blocks| && b < |fn.blocks| && Edge(fn, p, b)
    ensures AllPossible(fn, pst, Point(b, 0), st.body[p][|st.body[p]| - 1])
  {
    assert BlockOk(fn, fn.blocks[p]) && BlockOk(fn, fn.blocks[b]);
    var last := |fn.blocks[p]| - 1;
    assert RowPossible(fn, pst, p, st.body[p]);
    assert PossibleAfter(fn, pst, Point(p, last), st.body[p][last]);
    assert Follows(fn, Point(p, last), Point(b, 0));
  }

  lemma GatherPossible(fn: Func, pst: PropagationFacts, st: State<Names>, b: nat)
    requires WellFormed(fn) && Covers(fn, pst) && Shape(fn, st) && StatePossible(fn, pst, st) && b < |fn.blocks|
    ensures AllPossible(fn, pst, Point(b, 0), Gather(Problem(fn, pst), st, b, |fn.blocks|))
  {
    var sys := Problem(fn, pst);
    var kept := (x: Names) => AllPossible(fn, pst, Point(b, 0), x);
    forall x, y | kept(x) && kept(y) ensures kept(sys.join(x, y)) {
      JoinPossible(fn, pst, Point(b, 0), x, y);
    }
    forall p: nat | p < |fn.blocks| && sys.feeds(p, b) ensures kept(sys.flow(p, b, st.body[p])) {
      DeliveredPossible(fn, pst, st, p, b);
    }
    assert kept(st.entry[b]);
    GatherKeeps(sys, kept, st, b, |fn.blocks|);
  }

  /** What a test writes for a successor is possible there. */
  lemma WritesPossible(fn: Func, pst: PropagationFacts, b: nat, body: seq<Names>, k: nat)
    requires WellFormed(fn) && Covers(fn, pst) && b < |fn.blocks| && |body| == |fn.blocks[b]|
    requires RowPossible(fn, pst, b, body) && k < |BlockWrites(fn, pst, b, body)|
    ensures var w := BlockWrites(fn, pst, b, body)[k]; w.0 < |fn.blocks| && AllPossible(fn, pst, Point(w.0, 0), w.1)
  {
    BlockWritesOk(fn, pst, b, body);
    var blk, before, w := fn.blocks[b], body[|body| - 2], BlockWrites(fn, pst, b, body)[k];
    var at, next := Point(b, |blk| - 1), Point(w.0, 0);
    WriteFollows(fn, pst, b, body, k);
    assert PossibleAfter(fn, pst, Point(b, |blk| - 2), before);
    assert Follows(fn, Point(b, |blk| - 2), at);
    forall g, r | g in w.1 && Holds(w.1[g], r) ensures Possible(fn, pst, next, g, r) {
      WritesAdmit(fn, pst, Last(blk), before, k, g, r);
      StepPossible(fn, pst, at, next, g, r);
    }
  }

  lemma WriteFollows(fn: Func, pst: PropagationFacts, b: nat, body: seq<Names>, k: nat)
    requires WellFormed(fn) && Covers(fn, pst) && b < |fn.blocks| && |body| == |fn.blocks[b]|
    requires k < |BlockWrites(fn, pst, b, body)| && |body| >= 2
    ensures Follows(fn, Point(b, |body| - 1), Point(BlockWrites(fn, pst, b, body)[k].0, 0))
  {
    assert BlockOk(fn, fn.blocks[b]);
    var ins, before := Last(fn.blocks[b]), body[|body| - 2];
    var t := BlockWrites(fn, pst, b, body)[k].0;
    if ins.Switch? {
      CaseWritesAre(before, Tested(fn, pst, ins), ins.cases);
      assert ins.cases[k].1 in CaseTargets(ins.cases);
    }
    assert t in Successors(ins);
    assert BlockOk(fn, fn.blocks[t]);
  }

  lemma {:induction false} SpreadPossible(fn: Func, pst: PropagationFacts, entry: seq<Names>, ws: seq<(nat, Names)>)
    requires Covers(fn, pst)
    requires forall b :: 0 <= b < |entry| ==> AllPossible(fn, pst, Point(b, 0), entry[b])
    requires forall k :: 0 <= k < |ws| ==> AllPossible(fn, pst, Point(ws[k].0, 0), ws[k].1)
    ensures forall b :: 0 <= b < |entry| ==>
              AllPossible(fn, pst, Point(b, 0), Spread(Problem(fn, pst), entry, ws)[b])
  {
    if ws != [] {
      var init, w := ws[..|ws| - 1], ws[|ws| - 1];
      SpreadPossible(fn, pst, entry, init);
      if w.0 < |entry| {
        JoinPossible(fn, pst, Point(w.0, 0), Spread(Problem(fn, pst), entry, init)[w.0], w.1);
      }
    }
  }

  lemma VisitPossible(fn: Func, pst: PropagationFacts, st: State<Names>, b: nat)
    requires WellFormed(fn) && Covers(fn, pst) && Shape(fn, st) && StatePossible(fn, pst, st) && b < |fn.blocks|
    ensures var next := Visit(Problem(fn, pst), st, b); Shape(fn, next) && StatePossible(fn, pst, next)
  {
    var sys := Problem(fn, pst);
    var next, x := Visit(sys, st, b), Gather(sys, st, b, |fn.blocks|);
    GatherPossible(fn, pst, st, b);
    ChainPossible(fn, pst, b, |fn.blocks[b]|, x);
    assert RowPossible(fn, pst, b, next.body[b]);
    var mid, ws := st.entry[b := x], BlockWrites(fn, pst, b, next.body[b]);
    forall k | 0 <= k < |ws| ensures AllPossible(fn, pst, Point(ws[k].0, 0), ws[k].1) {
      WritesPossible(fn, pst, b, next.body[b], k);
    }
    SpreadPossible(fn, pst, mid, ws);
    forall c | 0 <= c < |fn.blocks|
      ensures AllPossible(fn, pst, Point(c, 0), next.entry[c]) && RowPossible(fn, pst, c, next.body[c])
    {
      assert c != b ==> next.body[c] == st.body[c];
    }
  }

  lemma NothingPossible(fn: Func, pst: PropagationFacts)
    requires Covers(fn, pst)
    ensures StatePossible(fn, pst, Uniform(fn, map[]))
  {
    var st := Uniform<Names>(fn, map[]);
    forall b | 0 <= b < |fn.blocks|
      ensures AllPossible(fn, pst, Point(b, 0), st.entry[b]) && RowPossible(fn, pst, b, st.body[b])
    {
      assert forall i :: 0 <= i < |st.body[b]| ==> st.body[b][i] == map[];
    }
  }

  lemma SweptPossible(fn: Func, pst: PropagationFacts, st: State<Names>)
    requires WellFormed(fn) && Covers(fn, pst) && SweptFrom(Problem(fn, pst), Uniform(fn, map[]), st)
    ensures Shape(fn, st) && StatePossible(fn, pst, st)
  {
    var sys := Problem(fn, pst);
    var kept := (s: State<Names>) => Shape(fn, s) && StatePossible(fn, pst, s);
    forall s, b: nat | b < |fn.blocks| && kept(s) ensures kept(Visit(sys, s, b)) {
      VisitPossible(fn, pst, s, b);
    }
    NothingPossible(fn, pst);
    SweptKeeps(sys, kept, Uniform(fn, map[]), st);
  }

  lemma BeforePossible(fn: Func, pst: PropagationFacts, st: State<Names>, at: Point)
    requires Covers(fn, pst) && Shape(fn, st) && StatePossible(fn, pst, st) && InFunc(fn, at)
    ensures AllPossible(fn, pst, at, Before(st, at.block, at.index))
  {
    if at.index > 0 {
      var prev := Point(at.block, at.index - 1);
      assert RowPossible(fn, pst, at.block, st.body[at.block]);
      assert PossibleAfter(fn, pst, prev, st.body[at.block][prev.index]);
      assert Follows(fn, prev, at);
    } else {
      assert st.entry[at.block] == Before(st, at.block, at.index);
    }
  }

  /** Whatever result of g the pass admits before an instruction, some path from a
      call of g, or a test of its result, leads there with that result. */
  lemma OnlyWhatIsPossible(fn: Func, pst: PropagationFacts, st: State<Names>, at: Point, g: string, r: int)
    requires WellFormed(fn) && Covers(fn, pst) && SweptFrom(Problem(fn, pst), Uniform(fn, map[]), st)
    requires InFunc(fn, at)
    ensures Shape(fn, st)
    ensures var f := Before(st, at.block, at.index); g in f && Holds(f[g], r) ==> Possible(fn, pst, at, g, r)
  {
    SweptPossible(fn, pst, st);
    BeforePossible(fn, pst, st, at);
  }
}
