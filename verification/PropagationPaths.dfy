/** The propagation facts say nothing that no path of the control-flow graph
    accounts for. */
module PropagationPaths {
  import opened IR
  import opened Exec
  import opened Shapes
  import opened Sweep
  import opened ReturnPropagation

  /** Instruction `at` makes v hold w: a call its result, a store an integer
      constant. */
  predicate Born(ins: Instr, at: Point, v: Value, w: Value) {
    || (ins.Call? && v == w == Reg(at))
    || (ins.Store? && IsConstantInt(ins.val) && v == Slot(ins.slot) && w == ins.val)
  }

  /** Instruction `at` makes v hold what u holds. */
  predicate Copies(ins: Instr, at: Point, u: Value, v: Value) {
    || (ins.Load? && u == Slot(ins.slot) && v == Reg(at))
    || (ins.Store? && u == ins.val && v == Slot(ins.slot))
    || (ins.Cast? && !ins.op.SExt? && u == ins.val && v == Reg(at))
    || (ins.BinOp? && u == ins.lhs && v == Reg(at))
  }

  /** Over instruction `at`, what u holds may come to be held by v. */
  predicate Passes(ins: Instr, at: Point, u: Value, v: Value) {
    u == v || Copies(ins, at, u, v)
  }

  lemma BornMeans(fn: Func, fr: Frame, c: int, next: Frame, v: Value, w: Value)
    requires FrameStep(fn, fr, c) == Some(next) && Born(At(fn, fr.at), fr.at, v, w)
    ensures Content(next, v).Some? && Content(next, v).value.origin == Some(w)
  {
  }

  lemma CopiesMeans(fn: Func, fr: Frame, c: int, next: Frame, u: Value, v: Value)
    requires FrameStep(fn, fr, c) == Some(next) && Copies(At(fn, fr.at), fr.at, u, v)
    requires IsHolder(u) && Content(fr, u).Some? && (u.Slot? ==> At(fn, fr.at).Load?)
    ensures Content(next, v).Some? && Content(next, v).value.origin == Content(fr, u).value.origin
  {
  }

  /** What u holds is known, and copied to v. */
  ghost predicate Overwritten(ins: Instr, at: Point, f: Fact, v: Value) {
    exists u :: u in f && Copies(ins, at, u, v)
  }

  /** After an instruction a value may hold exactly what is born there, what is
      copied, and what was there before unless something known is copied over
      it. */
  lemma TransferIs(ins: Instr, at: Point, f: Fact, v: Value, w: Value)
    requires HoldersOnly(f)
    ensures w in Held(Transfer(ins, at, f), v) <==>
              || Born(ins, at, v, w)
              || (exists u :: u in f && w in f[u] && Copies(ins, at, u, v))
              || (w in Held(f, v) && !Overwritten(ins, at, f, v))
  {
    match ins
    case Load(s) => assert Copies(ins, at, Slot(s), Reg(at));
    case Store(u, s) => assert Copies(ins, at, u, Slot(s));
    case Cast(op, u) => assert !op.SExt? ==> Copies(ins, at, u, Reg(at));
    case BinOp(l, _) => assert Copies(ins, at, l, Reg(at));
    case _ =>
  }

  /** Along some path of n steps that ends with instruction `at`, w is born and
      then copied from one value to the next until v holds it. */
  ghost predicate Carried(fn: Func, at: Point, v: Value, w: Value, n: nat)
    decreases n
  {
    InFunc(fn, at) &&
    if n == 0 then Born(At(fn, at), at, v, w)
    else exists prev, u :: Follows(fn, prev, at) && Carried(fn, prev, u, w, n - 1)
                           && Passes(At(fn, at), at, u, v)
  }

  ghost predicate CanHold(fn: Func, at: Point, v: Value, w: Value) {
    exists n: nat :: Carried(fn, at, v, w, n)
  }

  ghost predicate AllCarried(fn: Func, at: Point, f: Fact) {
    HoldersOnly(f) && forall v, w :: v in f && w in f[v] ==> CanHold(fn, at, v, w)
  }

  /** What holds before `at` was carried to some instruction that it follows. */
  ghost predicate AllArrive(fn: Func, at: Point, f: Fact) {
    HoldersOnly(f)
    && forall v, w :: v in f && w in f[v] ==> exists prev :: Follows(fn, prev, at) && CanHold(fn, prev, v, w)
  }

  ghost predicate RowCarried(fn: Func, b: nat, row: seq<Fact>) {
    forall i :: 0 <= i < |row| ==> AllCarried(fn, Point(b, i), row[i])
  }

  ghost predicate StateCarried(fn: Func, st: State<Fact>) {
    forall b {:trigger st.entry[b]} {:trigger st.body[b]} :: 0 <= b < |fn.blocks| && b < |st.entry| && b < |st.body| ==>
      AllArrive(fn, Point(b, 0), st.entry[b]) && RowCarried(fn, b, st.body[b])
  }

  lemma StepCarried(fn: Func, prev: Point, at: Point, u: Value, v: Value, w: Value)
    requires Follows(fn, prev, at) && CanHold(fn, prev, u, w) && Passes(At(fn, at), at, u, v)
    ensures CanHold(fn, at, v, w)
  {
    var n: nat :| Carried(fn, prev, u, w, n);
    assert Carried(fn, at, v, w, n + 1);
  }

  lemma TransferCarried(fn: Func, at: Point, f: Fact)
    requires InFunc(fn, at) && AllArrive(fn, at, f)
    ensures AllCarried(fn, at, Transfer(At(fn, at), at, f))
  {
    var ins := At(fn, at);
    var g := Transfer(ins, at, f);
    forall v, w | v in g && w in g[v] ensures CanHold(fn, at, v, w) {
      TransferIs(ins, at, f, v, w);
      if Born(ins, at, v, w) {
        assert Carried(fn, at, v, w, 0);
      } else {
        var u := if u :| u in f && w in f[u] && Copies(ins, at, u, v) then u else v;
        var prev :| Follows(fn, prev, at) && CanHold(fn, prev, u, w);
        StepCarried(fn, prev, at, u, v, w);
      }
    }
  }

  lemma {:induction false} ChainCarried(fn: Func, b: nat, k: nat, x: Fact)
    requires b < |fn.blocks| && k <= |fn.blocks[b]| && AllArrive(fn, Point(b, 0), x)
    ensures RowCarried(fn, b, Chain(Stepper(fn, b), k, x))
  {
    if k > 0 {
      ChainCarried(fn, b, k - 1, x);
      var row := Chain(Stepper(fn, b), k - 1, x);
      var f, at := if k == 1 then x else row[k - 2], Point(b, k - 1);
      if k > 1 {
        assert AllCarried(fn, Point(b, k - 2), row[k - 2]);
        assert Follows(fn, Point(b, k - 2), at);
      }
      assert AllArrive(fn, at, f);
      TransferCarried(fn, at, f);
    }
  }

  lemma DeliveredCarried(fn: Func, st: State<Fact>, p: nat, b: nat)
    requires WellFormed(fn) && Shape(fn, st) && StateCarried(fn, st)
    requires p < |fn.blocks| && b < |fn.blocks| && Edge(fn, p, b)
    ensures AllArrive(fn, Point(b, 0), st.body[p][|st.body[p]| - 1])
  {
    assert BlockOk(fn, fn.blocks[p]) && BlockOk(fn, fn.blocks[b]);
    var last := |fn.blocks[p]| - 1;
    assert RowCarried(fn, p, st.body[p]);
    assert AllCarried(fn, Point(p, last), st.body[p][last]);
    assert Follows(fn, Point(p, last), Point(b, 0));
  }

  lemma GatherCarried(fn: Func, st: State<Fact>, b: nat)
    requires WellFormed(fn) && Shape(fn, st) && StateCarried(fn, st) && b < |fn.blocks|
    ensures AllArrive(fn, Point(b, 0), Gather(Problem(fn), st, b, |fn.blocks|))
  {
    var sys := Problem(fn);
    var kept := (x: Fact) => AllArrive(fn, Point(b, 0), x);
    forall p: nat | p < |fn.blocks| && sys.feeds(p, b) ensures kept(sys.flow(p, b, st.body[p])) {
      DeliveredCarried(fn, st, p, b);
    }
    assert kept(st.entry[b]);
    GatherKeeps(sys, kept, st, b, |fn.blocks|);
  }

  lemma VisitCarried(fn: Func, st: State<Fact>, b: nat)
    requires WellFormed(fn) && Shape(fn, st) && StateCarried(fn, st) && b < |fn.blocks|
    ensures Shape(fn, Visit(Problem(fn), st, b)) && StateCarried(fn, Visit(Problem(fn), st, b))
  {
    var next, x := Visit(Problem(fn), st, b), Gather(Problem(fn), st, b, |fn.blocks|);
    GatherCarried(fn, st, b);
    ChainCarried(fn, b, |fn.blocks[b]|, x);
    assert RowCarried(fn, b, next.body[b]);
    forall c | 0 <= c < |fn.blocks|
      ensures AllArrive(fn, Point(c, 0), next.entry[c]) && RowCarried(fn, c, next.body[c])
    {
      assert c != b ==> next.entry[c] == st.entry[c] && next.body[c] == st.body[c];
    }
  }

  lemma NothingCarried(fn: Func)
    ensures StateCarried(fn, Uniform(fn, map[]))
  {
    var st := Uniform<Fact>(fn, map[]);
    forall b | 0 <= b < |fn.blocks| ensures AllArrive(fn, Point(b, 0), st.entry[b]) && RowCarried(fn, b, st.body[b]) {
      assert forall i :: 0 <= i < |st.body[b]| ==> st.body[b][i] == map[];
    }
  }

  lemma SweptCarried(fn: Func, st: State<Fact>)
    requires WellFormed(fn) && SweptFrom(Problem(fn), Uniform(fn, map[]), st)
    ensures Shape(fn, st) && StateCarried(fn, st)
  {
    var kept := (s: State<Fact>) => Shape(fn, s) && StateCarried(fn, s);
    forall s, b: nat | b < |fn.blocks| && kept(s) ensures kept(Visit(Problem(fn), s, b)) {
      VisitCarried(fn, s, b);
    }
    NothingCarried(fn);
    SweptKeeps(Problem(fn), kept, Uniform(fn, map[]), st);
  }

  /** Every call or constant that the pass finds a value may hold is carried there
      along some path of the control-flow graph. */
  lemma OnlyWhatIsCarried(fn: Func, st: State<Fact>, at: Point, v: Value, w: Value)
    requires WellFormed(fn) && SweptFrom(Problem(fn), Uniform(fn, map[]), st) && InFunc(fn, at)
    ensures Shape(fn, st)
    ensures w in Held(st.body[at.block][at.index], v) ==> CanHold(fn, at, v, w)
  {
    SweptCarried(fn, st);
    assert RowCarried(fn, at.block, st.body[at.block]);
    assert AllCarried(fn, at, st.body[at.block][at.index]);
  }
}
