/** The propagation facts are right about every execution. */
module ReturnPropagationSound {
  import opened IR
  import opened Exec
  import opened Shapes
  import opened Sweep
  import opened ReturnPropagation

  /** Whatever a register or slot holds that some call returned, or that was
      stored as an integer constant, that call or constant is among what the
      fact says it may hold. */
  ghost predicate Accounts(fr: Frame, f: Fact) {
    forall v: Value :: Content(fr, v).Some? && Content(fr, v).value.origin.Some? ==>
      AccountsFor(f, v, Content(fr, v).value.origin.value)
  }

  /** Constants are accounted for as long as the fact has entries for registers
      and slots only. */
  predicate AccountsFor(f: Fact, v: Value, origin: Value) {
    origin.Reg? || HoldersOnly(f) ==> origin in Held(f, v)
  }

  lemma HoldersStay(ins: Instr, at: Point, f: Fact)
    ensures HoldersOnly(Transfer(ins, at, f)) ==> HoldersOnly(f)
  {
    assert forall v :: v in f ==> v in Transfer(ins, at, f);
  }

  /** What an instruction makes has its origin in the fact. */
  lemma ResultAccounts(fn: Func, fr: Frame, c: int, next: Frame, f: Fact)
    requires InFunc(fn, fr.at) && FrameStep(fn, fr, c) == Some(next) && Accounts(fr, f)
    requires HasResult(At(fn, fr.at)) && Content(next, Reg(fr.at)).value.origin.Some?
    ensures AccountsFor(Transfer(At(fn, fr.at), fr.at, f), Reg(fr.at), Content(next, Reg(fr.at)).value.origin.value)
  {
    HoldersStay(At(fn, fr.at), fr.at, f);
    match At(fn, fr.at)
    case Load(s) => assert Content(fr, Slot(s)).Some?;
    case Cast(_, w) => assert Content(fr, w) == Eval(fr, w);
    case BinOp(l, _) => assert Content(fr, l) == Eval(fr, l);
    case _ =>
  }

  lemma StoredAccounts(fn: Func, fr: Frame, c: int, next: Frame, f: Fact)
    requires InFunc(fn, fr.at) && FrameStep(fn, fr, c) == Some(next) && Accounts(fr, f) && At(fn, fr.at).Store?
    requires Content(next, Slot(At(fn, fr.at).slot)).value.origin.Some?
    ensures var v := Slot(At(fn, fr.at).slot);
            AccountsFor(Transfer(At(fn, fr.at), fr.at, f), v, Content(next, v).value.origin.value)
  {
    var v := At(fn, fr.at).val;
    HoldersStay(At(fn, fr.at), fr.at, f);
    if !IsConstantInt(v) { assert Content(fr, v) == Eval(fr, v); }
  }

  lemma TransferAccounts(fn: Func, fr: Frame, c: int, next: Frame, f: Fact)
    requires InFunc(fn, fr.at) && FrameStep(fn, fr, c) == Some(next) && Accounts(fr, f)
    ensures Accounts(next, Transfer(At(fn, fr.at), fr.at, f))
  {
    var ins := At(fn, fr.at);
    var g := Transfer(ins, fr.at, f);
    forall v: Value | Content(next, v).Some? && Content(next, v).value.origin.Some?
      ensures AccountsFor(g, v, Content(next, v).value.origin.value)
    {
      if v == Reg(fr.at) && HasResult(ins) {
        ResultAccounts(fn, fr, c, next, f);
      } else if ins.Store? && v == Slot(ins.slot) {
        StoredAccounts(fn, fr, c, next, f);
      } else {
        StepFrame(fn, fr, c, next, v);
        HoldersStay(ins, fr.at, f);
        assert Held(g, v) == Held(f, v);
      }
    }
  }

  /** In a stable state every fact is the transfer of the fact before it. */
  lemma TransferEquation(fn: Func, st: State<Fact>, at: Point)
    requires Shape(fn, st) && Stable(Problem(fn), st) && InFunc(fn, at)
    ensures st.body[at.block][at.index] == Transfer(At(fn, at), at, Before(st, at.block, at.index))
  {
    assert Fresh(Problem(fn), st, at.block);
    ChainEquation(Stepper(fn, at.block), |fn.blocks[at.block]|, st.entry[at.block], at.index);
  }

  /** What holds after a terminator has reached its successors. */
  lemma FlowsForward(fn: Func, st: State<Fact>, p: nat, t: nat)
    requires WellFormed(fn) && Shape(fn, st) && Stable(Problem(fn), st) && Edge(fn, p, t) && t < |fn.blocks|
    ensures |fn.blocks[p]| > 0
    ensures Grows(st.body[p][|fn.blocks[p]| - 1], st.entry[t])
  {
    assert Gathered(Problem(fn), st, t);
    assert Problem(fn).feeds(p, t);
    assert Leq(Problem(fn), Problem(fn).flow(p, t, st.body[p]), st.entry[t]);
    HeldGrows(st.body[p][|fn.blocks[p]| - 1], st.entry[t]);
  }

  /** Facts flow along execution steps. */
  lemma StepAccounts(fn: Func, st: State<Fact>, fr: Frame, c: int, next: Frame)
    requires WellFormed(fn) && Shape(fn, st) && Stable(Problem(fn), st)
    requires InFunc(fn, fr.at) && FrameStep(fn, fr, c) == Some(next)
    requires Accounts(fr, Before(st, fr.at.block, fr.at.index))
    ensures InFunc(fn, next.at) && Accounts(next, Before(st, next.at.block, next.at.index))
  {
    TransferEquation(fn, st, fr.at);
    TransferAccounts(fn, fr, c, next, Before(st, fr.at.block, fr.at.index));
    if fr.at.index + 1 == |fn.blocks[fr.at.block]| {
      JumpsToSuccessor(fn, fr, next, c);
      AccountsAcross(fn, st, fr.at.block, next);
    } else {
      Advances(fn, fr, c, next);
    }
  }

  lemma Advances(fn: Func, fr: Frame, c: int, next: Frame)
    requires WellFormed(fn) && FrameStep(fn, fr, c) == Some(next) && fr.at.index + 1 < |fn.blocks[fr.at.block]|
    ensures next.at == Point(fr.at.block, fr.at.index + 1)
  {
    assert BlockOk(fn, fn.blocks[fr.at.block]);
  }

  lemma AccountsAcross(fn: Func, st: State<Fact>, b: nat, next: Frame)
    requires WellFormed(fn) && Shape(fn, st) && Stable(Problem(fn), st)
    requires b < |fn.blocks| && |fn.blocks[b]| > 0 && InFunc(fn, next.at) && Edge(fn, b, next.at.block)
    requires Accounts(next, st.body[b][|fn.blocks[b]| - 1])
    ensures Accounts(next, st.entry[next.at.block])
  {
    FlowsForward(fn, st, b, next.at.block);
    AccountsGrows(next, st.body[b][|fn.blocks[b]| - 1], st.entry[next.at.block]);
  }

  predicate Grows(x: Fact, y: Fact) {
    x.Keys <= y.Keys && forall v :: v in x ==> x[v] <= y[v]
  }

  lemma AccountsGrows(fr: Frame, x: Fact, y: Fact)
    requires Accounts(fr, x) && Grows(x, y)
    ensures Accounts(fr, y)
  {
    forall v: Value | Content(fr, v).Some? && Content(fr, v).value.origin.Some?
      ensures AccountsFor(y, v, Content(fr, v).value.origin.value)
    {
      assert HoldersOnly(y) ==> HoldersOnly(x);
      assert Held(x, v) <= Held(y, v);
    }
  }

  lemma HeldGrows(x: Fact, y: Fact)
    requires Atoms(x) <= Atoms(y)
    ensures Grows(x, y)
  {
    forall v | v in x ensures v in y && x[v] <= y[v] {
      AtomsOf(x, v, v);
      AtomsOf(y, v, v);
      forall w | w in x[v] ensures w in Held(y, v) {
        AtomsOf(x, v, w);
        AtomsOf(y, v, w);
      }
    }
  }

  ghost predicate AccountsAt(fn: Func, st: State<Fact>, fr: Frame)
    requires Shape(fn, st)
  {
    InFunc(fn, fr.at) && Accounts(fr, Before(st, fr.at.block, fr.at.index))
  }

  /** Provenance: on every run of a function from its entry, with any number
      of loop iterations, whenever a register or slot holds a value that a
      call of this run returned, that call is in its propagation set; and
      whenever it holds one that was stored as an integer constant, that
      constant is. */
  lemma Provenance(fn: Func, st: State<Fact>, run: seq<Frame>)
    requires WellFormed(fn) && Shape(fn, st) && Stable(Problem(fn), st)
    requires IsFrameRun(fn, run) && run[0] == Entry(run[0].name, run[0].args)
    ensures forall k :: 0 <= k < |run| ==> AccountsAt(fn, st, run[k])
  {
    assert BlockOk(fn, fn.blocks[0]);
    for k := 0 to |run| - 1
      invariant forall j :: 0 <= j <= k ==> AccountsAt(fn, st, run[j])
    {
      assert FrameStepsTo(fn, run[k], run[k + 1]);
      var c :| FrameStep(fn, run[k], c) == Some(run[k + 1]);
      StepAccounts(fn, st, run[k], c, run[k + 1]);
    }
  }

  /** The facts that the pass finds have entries for registers and slots only,
      so that constants are accounted for as well. */
  lemma ConstantProvenance(fn: Func, st: State<Fact>, run: seq<Frame>, k: nat, v: Value)
    requires WellFormed(fn) && Shape(fn, st) && Ok(Problem(fn), st) && Stable(Problem(fn), st)
    requires IsFrameRun(fn, run) && run[0] == Entry(run[0].name, run[0].args)
    requires k < |run| && Content(run[k], v).Some? && Content(run[k], v).value.origin.Some?
    ensures InFunc(fn, run[k].at)
    ensures Content(run[k], v).value.origin.value in Held(Before(st, run[k].at.block, run[k].at.index), v)
  {
    Provenance(fn, st, run);
    assert AccountsAt(fn, st, run[k]);
    var at, sys := run[k].at, Problem(fn);
    assert EntryOk(sys, at.block, st.entry[at.block]) && BodyOk(sys, st.body[at.block]);
    if at.index > 0 { assert FactOk(sys, st.body[at.block][at.index - 1]); }
    WithinUniverse(fn, Before(st, at.block, at.index));
  }
}
