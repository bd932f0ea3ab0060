/** The returned-values facts say exactly what can be returned along the paths of
    the control-flow graph. */
module ReturnedPaths {
  import opened IR
  import opened Exec
  import opened Shapes
  import opened Sweep
  import opened ReturnedValues
  import opened ReturnedValuesSound

  /** What m holds before instruction `at`, w holds after it.  Of a call of an
      error-pointer helper, that is also what it is given. */
  predicate Hands(ins: Instr, at: Point, m: Value, w: Value) {
    match ins
    case Store(v, s) => if w == Slot(s) then m == v else m == w && m != Slot(s)
    case Load(s) => if w == Reg(at) then m == Slot(s) else m == w && m != Reg(at)
    case Cast(_, v) => if w == Reg(at) then m == v else m == w && m != Reg(at)
    case Call(Direct(g), args) =>
      m == w || (w == Reg(at) && IsErrorPointerName(g) && m == if args == [] then Address(g) else args[0])
    case _ => m == w
  }

  /** Along some path of n steps from `at` to a return, m is handed on until it
      is what is returned. */
  ghost predicate Returned(fn: Func, at: Point, m: Value, n: nat)
    decreases n
  {
    InFunc(fn, at) &&
    if n == 0 then At(fn, at).Ret? && m == At(fn, at).val
    else exists next, w :: Follows(fn, at, next) && Hands(At(fn, at), at, m, w) && Returned(fn, next, w, n - 1)
  }

  ghost predicate CanBeReturned(fn: Func, at: Point, m: Value) {
    exists n: nat :: Returned(fn, at, m, n)
  }

  /** Handing on is what executions do: what w holds after the step is what m held
      before it, but for results of the instruction itself, and slots that are
      allocated. */
  lemma HandsMeans(fn: Func, fr: Frame, c: int, next: Frame, m: Value, w: Value)
    requires FrameStep(fn, fr, c) == Some(next) && Hands(At(fn, fr.at), fr.at, m, w) && Content(fr, m).Some?
    requires !At(fn, fr.at).Alloca? && !(w == Reg(fr.at) && HasResult(At(fn, fr.at)) && !IsLoadLike(At(fn, fr.at)))
    ensures Content(next, w).Some? && Content(next, w).value.n == Content(fr, m).value.n
  {
    var ins := At(fn, fr.at);
    if IsLoadLike(ins) && w == Reg(fr.at) {
      assert Content(fr, m).value.n == Content(next, w).value.n;
    } else if ins.Store? && w == Slot(ins.slot) {
    } else {
      StepFrame(fn, fr, c, next, w);
    }
  }

  lemma TransferIs(ins: Instr, at: Point, out: Fact, m: Value)
    ensures m in Transfer(ins, at, out) <==> (ins.Ret? && m == ins.val) || exists w :: w in out && Hands(ins, at, m, w)
  {
    match ins
    case Store(v, s) => assert Hands(ins, at, v, Slot(s)); assert m != Slot(s) ==> Hands(ins, at, m, m);
    case Load(s) => assert Hands(ins, at, Slot(s), Reg(at)); assert m != Reg(at) ==> Hands(ins, at, m, m);
    case Cast(_, v) => assert Hands(ins, at, v, Reg(at)); assert m != Reg(at) ==> Hands(ins, at, m, m);
    case Call(Direct(g), args) =>
      assert Hands(ins, at, m, m);
      if IsErrorPointerName(g) { assert Hands(ins, at, if args == [] then Address(g) else args[0], Reg(at)); }
    case _ => assert Hands(ins, at, m, m);
  }

  // ----- Members can be returned -----

  ghost predicate AllReturnable(fn: Func, at: Point, x: Fact) {
    forall m :: m in x ==> CanBeReturned(fn, at, m)
  }

  /** Every member of the fact after block b can be returned from some block that
      follows. */
  ghost predicate ExitReaches(fn: Func, b: nat, x: Fact) {
    forall m :: m in x ==> exists s :: Edge(fn, b, s) && CanBeReturned(fn, Point(s, 0), m)
  }

  ghost predicate RowReaches(fn: Func, b: nat, row: seq<Fact>) {
    forall i :: 0 <= i < |row| ==> AllReturnable(fn, Point(b, i), row[i])
  }

  ghost predicate AllReach(fn: Func, st: State<Fact>) {
    forall b {:trigger st.entry[b]} {:trigger st.body[b]} :: 0 <= b < |fn.blocks| && b < |st.entry| && b < |st.body| ==>
      ExitReaches(fn, b, st.entry[b]) && RowReaches(fn, b, st.body[b])
  }

  lemma StepReturned(fn: Func, at: Point, next: Point, m: Value, w: Value)
    requires Follows(fn, at, next) && Hands(At(fn, at), at, m, w) && CanBeReturned(fn, next, w)
    ensures CanBeReturned(fn, at, m)
  {
    var n: nat :| Returned(fn, next, w, n);
    assert Returned(fn, at, m, n + 1);
  }

  /** One instruction of a block: members of the fact before it can be returned,
      if those of the fact after it can. */
  lemma TransferReaches(fn: Func, at: Point, out: Fact)
    requires WellFormed(fn) && InFunc(fn, at)
    requires if at.index + 1 < |fn.blocks[at.block]| then AllReturnable(fn, Point(at.block, at.index + 1), out)
             else ExitReaches(fn, at.block, out)
    ensures AllReturnable(fn, at, Transfer(At(fn, at), at, out))
  {
    assert BlockOk(fn, fn.blocks[at.block]);
    forall m | m in Transfer(At(fn, at), at, out) ensures CanBeReturned(fn, at, m) {
      TransferIs(At(fn, at), at, out, m);
      if At(fn, at).Ret? && m == At(fn, at).val {
        assert Returned(fn, at, m, 0);
      } else {
        var w :| w in out && Hands(At(fn, at), at, m, w);
        if at.index + 1 < |fn.blocks[at.block]| {
          StepReturned(fn, at, Point(at.block, at.index + 1), m, w);
        } else {
          var s :| Edge(fn, at.block, s) && CanBeReturned(fn, Point(s, 0), w);
          StepReturned(fn, at, Point(s, 0), m, w);
        }
      }
    }
  }

  lemma {:induction false} TraceReaches(fn: Func, b: nat, i: nat, exit: Fact)
    requires WellFormed(fn) && b < |fn.blocks| && i <= |fn.blocks[b]| && ExitReaches(fn, b, exit)
    ensures forall k :: i <= k < |fn.blocks[b]| ==>
              AllReturnable(fn, Point(b, k), Trace(fn.blocks[b], b, i, exit)[k - i])
    decreases |fn.blocks[b]| - i
  {
    if i < |fn.blocks[b]| {
      var rest := Trace(fn.blocks[b], b, i + 1, exit);
      TraceReaches(fn, b, i + 1, exit);
      if rest != [] { assert AllReturnable(fn, Point(b, i + 1), rest[i + 1 - (i + 1)]); }
      TransferReaches(fn, Point(b, i), if rest == [] then exit else rest[0]);
    }
  }

  lemma GatherReaches(fn: Func, st: State<Fact>, b: nat)
    requires WellFormed(fn) && Shape(fn, st) && AllReach(fn, st) && b < |fn.blocks|
    ensures ExitReaches(fn, b, Gather(Problem(fn), st, b, |fn.blocks|))
  {
    var sys := Problem(fn);
    var kept := (x: Fact) => ExitReaches(fn, b, x);
    forall p: nat | p < |fn.blocks| && sys.feeds(p, b) ensures kept(sys.flow(p, b, st.body[p])) {
      assert BlockOk(fn, fn.blocks[p]);
      assert RowReaches(fn, p, st.body[p]);
      assert AllReturnable(fn, Point(p, 0), st.body[p][0]);
    }
    assert kept(st.entry[b]);
    GatherKeeps(sys, kept, st, b, |fn.blocks|);
  }

  lemma VisitReaches(fn: Func, st: State<Fact>, b: nat)
    requires WellFormed(fn) && Shape(fn, st) && AllReach(fn, st) && b < |fn.blocks|
    ensures Shape(fn, Visit(Problem(fn), st, b)) && AllReach(fn, Visit(Problem(fn), st, b))
  {
    var next, x := Visit(Problem(fn), st, b), Gather(Problem(fn), st, b, |fn.blocks|);
    GatherReaches(fn, st, b);
    TraceReaches(fn, b, 0, x);
    assert RowReaches(fn, b, next.body[b]);
    forall c | 0 <= c < |fn.blocks| ensures ExitReaches(fn, c, next.entry[c]) && RowReaches(fn, c, next.body[c]) {
      assert c != b ==> next.entry[c] == st.entry[c] && next.body[c] == st.body[c];
    }
  }

  lemma NothingReaches(fn: Func)
    ensures AllReach(fn, Uniform(fn, {}))
  {
    var st := Uniform<Fact>(fn, {});
    forall b | 0 <= b < |fn.blocks| ensures ExitReaches(fn, b, st.entry[b]) && RowReaches(fn, b, st.body[b]) {
      assert forall i :: 0 <= i < |st.body[b]| ==> st.body[b][i] == {};
    }
  }

  lemma SweptReaches(fn: Func, st: State<Fact>)
    requires WellFormed(fn) && SweptFrom(Problem(fn), Uniform(fn, {}), st)
    ensures Shape(fn, st) && AllReach(fn, st)
  {
    var kept := (s: State<Fact>) => Shape(fn, s) && AllReach(fn, s);
    forall s, b: nat | b < |fn.blocks| && kept(s) ensures kept(Visit(Problem(fn), s, b)) {
      VisitReaches(fn, s, b);
    }
    NothingReaches(fn);
    SweptKeeps(Problem(fn), kept, Uniform(fn, {}), st);
  }

  // ----- What can be returned is a member -----

  lemma {:induction false} ReturnableIsMember(fn: Func, st: State<Fact>, at: Point, m: Value, n: nat)
    requires WellFormed(fn) && Shape(fn, st) && Stable(Problem(fn), st) && Returned(fn, at, m, n)
    ensures m in InFact(st, at)
    decreases n
  {
    TransferEquation(fn, st, at);
    if n == 0 {
      TransferIs(At(fn, at), at, OutFact(st, at), m);
    } else {
      var next, w :| Follows(fn, at, next) && Hands(At(fn, at), at, m, w) && Returned(fn, next, w, n - 1);
      ReturnableIsMember(fn, st, next, w, n - 1);
      FollowingArrives(fn, st, at, next);
      TransferIs(At(fn, at), at, OutFact(st, at), m);
    }
  }

  lemma FollowingArrives(fn: Func, st: State<Fact>, at: Point, next: Point)
    requires WellFormed(fn) && Shape(fn, st) && Stable(Problem(fn), st) && Follows(fn, at, next)
    ensures InFact(st, next) <= OutFact(st, at)
  {
    if at.index + 1 == |fn.blocks[at.block]| {
      assert Gathered(Problem(fn), st, at.block);
      assert Problem(fn).feeds(next.block, at.block);
      assert Leq(Problem(fn), Problem(fn).flow(next.block, at.block, st.body[next.block]), st.entry[at.block]);
    }
  }

  /** The pass finds at every point exactly the values that can be returned from
      there along some path of the control-flow graph. */
  lemma ExactlyReturnable(fn: Func, st: State<Fact>, at: Point, m: Value)
    requires WellFormed(fn) && SweptFrom(Problem(fn), Uniform(fn, {}), st) && Stable(Problem(fn), st)
    requires InFunc(fn, at)
    ensures Shape(fn, st)
    ensures m in InFact(st, at) <==> CanBeReturned(fn, at, m)
  {
    SweptReaches(fn, st);
    if m in InFact(st, at) {
      assert RowReaches(fn, at.block, st.body[at.block]);
    }
    if n: nat :| Returned(fn, at, m, n) {
      ReturnableIsMember(fn, st, at, m, n);
    }
  }

  /** The helpers are told by their names: one of four words somewhere in it. */
  lemma ErrorPointerNames(g: string)
    ensures IsErrorPointerName(g) <==>
              exists before, word, after ::
                g == before + word + after && word in ["ERR_PTR", "IS_ERR", "PTR_ERR", "ERR_CAST"]
  {
    forall word: string { ContainsMeans(g, word); }
  }
}
