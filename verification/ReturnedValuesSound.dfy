/** The returned-values facts are right about every execution. */
module ReturnedValuesSound {
  import opened IR
  import opened Exec
  import opened Shapes
  import opened Sweep
  import opened ReturnedValues

  ghost predicate Holding(fr: Frame, m: Value, n: int) {
    Content(fr, m).Some? && Content(fr, m).value.n == n
  }

  /** Step j of the run executes the instruction m, which is not a copy, and
      n is its result. */
  ghost predicate DefinedAt(fn: Func, run: seq<Frame>, j: nat, m: Value, n: int) {
    && j + 1 < |run|
    && m.Reg? && run[j].at == m.at && InFunc(fn, m.at) && !IsLoadLike(At(fn, m.at))
    && Holding(run[j + 1], m, n)
  }

  /** `m` holds n at the start of the run, or is a call (or another
      computation) that the run executes later with result n. */
  ghost predicate Yields(fn: Func, run: seq<Frame>, m: Value, n: int)
    requires |run| > 0
  {
    Holding(run[0], m, n) || exists j :: 0 <= j < |run| && DefinedAt(fn, run, j, m, n)
  }

  /** One instruction backwards: a member that holds n after it comes from a
      member that holds n before it, or is defined by it. */
  lemma StepBack(fn: Func, st: State<Fact>, fr: Frame, next: Frame, c: int, m: Value, n: int)
    requires WellFormed(fn) && Shape(fn, st) && Stable(Problem(fn), st)
    requires FrameStep(fn, fr, c) == Some(next)
    requires m in OutFact(st, fr.at) && Holding(next, m, n)
    ensures exists m' :: m' in InFact(st, fr.at)
                         && (Holding(fr, m', n)
                             || (m' == m && m.Reg? && fr.at == m.at && !IsLoadLike(At(fn, m.at))))
  {
    var ins := At(fn, fr.at);
    TransferEquation(fn, st, fr.at);
    match ins
    case Store(v, s) => if m == Slot(s) { assert Holding(fr, v, n); } else { assert Holding(fr, m, n); }
    case Load(s) => if m == Reg(fr.at) { assert Holding(fr, Slot(s), n); } else { assert Holding(fr, m, n); }
    case Cast(_, v) => if m == Reg(fr.at) { assert Holding(fr, v, n); } else { assert Holding(fr, m, n); }
    case Ret(_) =>
    case _ => if m != Reg(fr.at) { assert m.Slot? || m.Reg? ==> Holding(fr, m, n); }
  }

  /** Values defined later stay members, for only copies and slots are
      removed from a fact. */
  lemma StaysMember(fn: Func, st: State<Fact>, at: Point, m: Value)
    requires WellFormed(fn) && Shape(fn, st) && Stable(Problem(fn), st) && InFunc(fn, at)
    requires m in OutFact(st, at) && m.Reg? && InFunc(fn, m.at) && !IsLoadLike(At(fn, m.at))
    ensures m in InFact(st, at)
  {
    TransferEquation(fn, st, at);
  }

  lemma {:induction false} TraceEquation(blk: Block, b: nat, i: nat, exit: Fact, k: nat)
    requires i <= k < |blk|
    ensures var t := Trace(blk, b, i, exit);
            t[k - i] == Transfer(blk[k], Point(b, k), if k + 1 < |blk| then t[k + 1 - i] else exit)
    decreases k - i
  {
    if i < k {
      TraceEquation(blk, b, i + 1, exit, k);
    }
  }

  /** In a stable state every fact is the transfer of the fact after it. */
  lemma TransferEquation(fn: Func, st: State<Fact>, at: Point)
    requires Shape(fn, st) && Stable(Problem(fn), st) && InFunc(fn, at)
    ensures InFact(st, at) == Transfer(At(fn, at), at, OutFact(st, at))
  {
    assert Fresh(Problem(fn), st, at.block);
    TraceEquation(fn.blocks[at.block], at.block, 0, st.entry[at.block], at.index);
  }

  /** Facts flow along execution steps: what can be returned from the next
      point can be returned after this instruction. */
  lemma FlowsBack(fn: Func, st: State<Fact>, fr: Frame, next: Frame, c: int)
    requires WellFormed(fn) && Shape(fn, st) && Stable(Problem(fn), st)
    requires FrameStep(fn, fr, c) == Some(next)
    ensures InFunc(fn, next.at) && InFact(st, next.at) <= OutFact(st, fr.at)
  {
    var blk := fn.blocks[fr.at.block];
    assert BlockOk(fn, blk);
    if fr.at.index + 1 == |blk| {
      JumpsToSuccessor(fn, fr, next, c);
      var t := next.at.block;
      assert BlockOk(fn, fn.blocks[t]);
      assert Gathered(Problem(fn), st, fr.at.block);
      assert Problem(fn).feeds(t, fr.at.block);
      assert Leq(Problem(fn), Problem(fn).flow(t, fr.at.block, st.body[t]), st.entry[fr.at.block]);
    }
  }

  /** On every run from a program point to a return, the returned value is the
      content of some member of the fact at that point: it holds it already,
      or it is a call executed later on the run that returns it. */
  lemma {:induction false} ReturnableValues(fn: Func, st: State<Fact>, run: seq<Frame>, d: Datum)
    requires WellFormed(fn) && Shape(fn, st) && Stable(Problem(fn), st)
    requires IsFrameRun(fn, run) && Returning(fn, run[|run| - 1]) == Some(d)
    ensures InFunc(fn, run[0].at)
    ensures exists m :: m in InFact(st, run[0].at) && Yields(fn, run, m, d.n)
  {
    if |run| == 1 {
      TransferEquation(fn, st, run[0].at);
      assert Yields(fn, run, At(fn, run[0].at).val, d.n);
    } else {
      var rest := run[1..];
      forall k | 0 <= k < |rest| - 1 ensures FrameStepsTo(fn, rest[k], rest[k + 1]) {
        assert FrameStepsTo(fn, run[k + 1], run[k + 1 + 1]);
      }
      ReturnableValues(fn, st, rest, d);
      assert FrameStepsTo(fn, run[0], run[0 + 1]);
      var c :| FrameStep(fn, run[0], c) == Some(run[1]);
      FlowsBack(fn, st, run[0], run[1], c);
      var m :| m in InFact(st, rest[0].at) && Yields(fn, rest, m, d.n);
      if Holding(rest[0], m, d.n) {
        StepBack(fn, st, run[0], run[1], c, m, d.n);
        var m' :| m' in InFact(st, run[0].at)
                  && (Holding(run[0], m', d.n)
                      || (m' == m && m.Reg? && run[0].at == m.at && !IsLoadLike(At(fn, m.at))));
        assert Holding(run[0], m', d.n) || DefinedAt(fn, run, 0, m', d.n);
        assert Yields(fn, run, m', d.n);
      } else {
        var j :| 0 <= j < |rest| && DefinedAt(fn, rest, j, m, d.n);
        StaysMember(fn, st, run[0].at, m);
        assert DefinedAt(fn, run, j + 1, m, d.n);
        assert Yields(fn, run, m, d.n);
      }
    }
  }

  /** What block analysis relies on: where only one value can be returned, it
      is returned; in particular a constant is, whatever the run does. */
  lemma SingletonMustBeReturned(fn: Func, st: State<Fact>, run: seq<Frame>, d: Datum, m: Value)
    requires WellFormed(fn) && Shape(fn, st) && Stable(Problem(fn), st)
    requires IsFrameRun(fn, run) && Returning(fn, run[|run| - 1]) == Some(d)
    requires InFunc(fn, run[0].at) && InFact(st, run[0].at) == {m}
    ensures Yields(fn, run, m, d.n)
    ensures IsConstantInt(m) || m.NullPointer? ==> d.n == ConstantValue(m)
    ensures m.Arg? ==> m.k < |run[0].args| && d.n == run[0].args[m.k]
  {
    ReturnableValues(fn, st, run, d);
    var v :| v in InFact(st, run[0].at) && Yields(fn, run, v, d.n);
    assert v == m;
  }
}
