/** A solution of the range pass describes every execution of the function. */
module RangeSound {
  import opened IR
  import opened Exec
  import opened ICmps
  import opened Signs
  import opened SignFacts
  import opened Shapes
  import opened Sweep
  import opened ReturnRange
  import opened RangeSweeps
  import opened RangeSolution
  import opened FreshChecks
  import Returned = ReturnedValues
  import ReturnedSound = ReturnedValuesSound

  /** What the range pass takes from the returned-values pass, and its
      assumption on checks. */
  ghost predicate Prepared(t: Task) {
    && TaskOk(t)
    && Stable(Returned.Problem(t.fn), t.rst)
    && ChecksAreFresh(t.fn, t.rst)
  }

  /** Entries describe what their keys hold; and whatever copy is returnable
      and holds a value has an entry. */
  ghost predicate FactsDescribe(fn: Func, f: Ranges, rvf: Returned.Fact, fr: Frame) {
    && (forall k :: k in f && Content(fr, k).Some? ==> Holds(f[k], Content(fr, k).value.n))
    && (forall k :: k in rvf && k in CopyKeys(fn) && Content(fr, k).Some? ==> k in f)
  }

  /** Results that are not copies are described by their abstraction. */
  ghost predicate RegsDescribed(t: Task, ranges: RangeMap, fr: Frame) {
    forall at :: at in fr.regs ==>
      && InFunc(t.fn, at)
      && (!IsLoadLike(At(t.fn, at)) ==> Holds(AbstractValue(t.prog, t.fn, ranges, Reg(at)), fr.regs[at].n))
  }

  ghost predicate Described(t: Task, st: State<Ranges>, ranges: RangeMap, fr: Frame)
    requires TaskOk(t) && Shape(t.fn, st)
  {
    && Local(t.fn, t.rst, fr)
    && RegsDescribed(t, ranges, fr)
    && FactsDescribe(t.fn, Before(st, fr.at.block, fr.at.index), Returned.InFact(t.rst, fr.at), fr)
  }

  lemma ValueDescribed(t: Task, ranges: RangeMap, fr: Frame, f: Ranges, v: Value)
    requires RegsDescribed(t, ranges, fr) && Content(fr, v).Some?
    requires v in f ==> Holds(f[v], Content(fr, v).value.n)
    ensures Holds(RangeOf(t.prog, t.fn, ranges, f, v), Content(fr, v).value.n)
  {
  }

  /** What a call of the program may yield. */
  ghost predicate Allowed(t: Task, ranges: RangeMap, at: Point, c: int) {
    InFunc(t.fn, at) && At(t.fn, at).Call? ==> Holds(AbstractValue(t.prog, t.fn, ranges, Reg(at)), c)
  }

  lemma RegsKept(t: Task, ranges: RangeMap, fr: Frame, c: int, next: Frame)
    requires FrameStep(t.fn, fr, c) == Some(next)
    requires RegsDescribed(t, ranges, fr) && Allowed(t, ranges, fr.at, c)
    ensures RegsDescribed(t, ranges, next)
  {
    forall at | at in next.regs
      ensures InFunc(t.fn, at)
      ensures !IsLoadLike(At(t.fn, at)) ==> Holds(AbstractValue(t.prog, t.fn, ranges, Reg(at)), next.regs[at].n)
    {
      if at != fr.at { assert at in fr.regs && fr.regs[at] == next.regs[at]; }
    }
  }

  // ----- Steps inside a block -----

  /** The instruction's own result or stored slot. */
  lemma ResultDescribed(t: Task, ranges: RangeMap, fr: Frame, c: int, next: Frame, f: Ranges, k: Value)
    requires TaskOk(t) && FrameStep(t.fn, fr, c) == Some(next)
    requires RegsDescribed(t, ranges, fr) && Content(next, k).Some?
    requires forall v :: v in f && Content(fr, v).Some? ==> Holds(f[v], Content(fr, v).value.n)
    requires (IsLoadLike(At(t.fn, fr.at)) && k == Reg(fr.at))
             || (At(t.fn, fr.at).Store? && k == Slot(At(t.fn, fr.at).slot))
    ensures k in Returned.OutFact(t.rst, fr.at) ==>
              var g := Transfer(t.prog, t.fn, t.rst, ranges, fr.at, f);
              k in g && Holds(g[k], Content(next, k).value.n)
    ensures k !in Returned.OutFact(t.rst, fr.at) ==> k !in Transfer(t.prog, t.fn, t.rst, ranges, fr.at, f)
  {
    var ins := At(t.fn, fr.at);
    var from := if ins.Store? then ins.val else Source(ins);
    assert Content(fr, from).Some? && Content(fr, from).value.n == Content(next, k).value.n;
    ValueDescribed(t, ranges, fr, f, from);
  }

  /** Every other value passes the instruction if it stays returnable. */
  lemma OtherPasses(t: Task, ranges: RangeMap, at: Point, f: Ranges, k: Value)
    requires TaskOk(t) && InFunc(t.fn, at) && at.index + 1 < |t.fn.blocks[at.block]|
    requires !At(t.fn, at).Ret?
    requires !(IsLoadLike(At(t.fn, at)) && k == Reg(at))
    requires !(At(t.fn, at).Store? && k == Slot(At(t.fn, at).slot))
    ensures var g := Transfer(t.prog, t.fn, t.rst, ranges, at, f);
            && (k in g <==> k in f && k in Returned.OutFact(t.rst, at))
            && (k in g ==> g[k] == f[k])
  {
  }

  lemma NotACopy(fn: Func, at: Point)
    requires InFunc(fn, at) && !IsLoadLike(At(fn, at))
    ensures Reg(at) !in CopyKeys(fn)
  {
  }

  lemma TransferDescribes(t: Task, ranges: RangeMap, fr: Frame, c: int, next: Frame, f: Ranges, k: Value)
    requires TaskOk(t) && FrameStep(t.fn, fr, c) == Some(next)
    requires fr.at.index + 1 < |t.fn.blocks[fr.at.block]| && !At(t.fn, fr.at).Ret?
    requires RegsDescribed(t, ranges, fr) && f.Keys <= CopyKeys(t.fn)
    requires Returned.InFact(t.rst, fr.at) == Returned.Transfer(At(t.fn, fr.at), fr.at, Returned.OutFact(t.rst, fr.at))
    requires FactsDescribe(t.fn, f, Returned.InFact(t.rst, fr.at), fr)
    requires Content(next, k).Some?
    ensures var g := Transfer(t.prog, t.fn, t.rst, ranges, fr.at, f);
            && (k in g ==> Holds(g[k], Content(next, k).value.n))
            && (k in Returned.OutFact(t.rst, fr.at) && k in CopyKeys(t.fn) ==> k in g)
  {
    var ins := At(t.fn, fr.at);
    if (IsLoadLike(ins) && k == Reg(fr.at)) || (ins.Store? && k == Slot(ins.slot)) {
      ResultDescribed(t, ranges, fr, c, next, f, k);
    } else {
      OtherPasses(t, ranges, fr.at, f, k);
      if k == Reg(fr.at) && HasResult(ins) {
        NotACopy(t.fn, fr.at);
      } else {
        StepFrame(t.fn, fr, c, next, k);
        StaysReturnable(t, fr.at, k);
      }
    }
  }

  lemma StaysReturnable(t: Task, at: Point, k: Value)
    requires TaskOk(t) && InFunc(t.fn, at)
    requires Returned.InFact(t.rst, at) == Returned.Transfer(At(t.fn, at), at, Returned.OutFact(t.rst, at))
    requires !(IsLoadLike(At(t.fn, at)) && k == Reg(at))
    requires !(At(t.fn, at).Store? && k == Slot(At(t.fn, at).slot))
    ensures k in Returned.OutFact(t.rst, at) ==> k in Returned.InFact(t.rst, at)
  {
  }

  lemma TransferDescribesAll(t: Task, ranges: RangeMap, fr: Frame, c: int, next: Frame, f: Ranges)
    requires TaskOk(t) && FrameStep(t.fn, fr, c) == Some(next)
    requires fr.at.index + 1 < |t.fn.blocks[fr.at.block]| && !At(t.fn, fr.at).Ret?
    requires RegsDescribed(t, ranges, fr) && f.Keys <= CopyKeys(t.fn)
    requires Returned.InFact(t.rst, fr.at) == Returned.Transfer(At(t.fn, fr.at), fr.at, Returned.OutFact(t.rst, fr.at))
    requires FactsDescribe(t.fn, f, Returned.InFact(t.rst, fr.at), fr)
    ensures FactsDescribe(t.fn, Transfer(t.prog, t.fn, t.rst, ranges, fr.at, f), Returned.OutFact(t.rst, fr.at), next)
  {
    var g, out := Transfer(t.prog, t.fn, t.rst, ranges, fr.at, f), Returned.OutFact(t.rst, fr.at);
    forall k | Content(next, k).Some?
      ensures k in g ==> Holds(g[k], Content(next, k).value.n)
      ensures k in out && k in CopyKeys(t.fn) ==> k in g
    {
      TransferDescribes(t, ranges, fr, c, next, f, k);
    }
  }

  lemma FactsInside(t: Task, st: State<Ranges>, ranges: RangeMap, fr: Frame, c: int, next: Frame)
    requires Prepared(t) && Consistent(t, st, ranges) && Described(t, st, ranges, fr)
    requires FrameStep(t.fn, fr, c) == Some(next)
    requires fr.at.index + 1 < |t.fn.blocks[fr.at.block]|
    ensures next.at == Point(fr.at.block, fr.at.index + 1)
    ensures FactsDescribe(t.fn, Before(st, next.at.block, next.at.index), Returned.InFact(t.rst, next.at), next)
  {
    NotATerminator(t.fn, fr.at);
    RegsInEnv(t, ranges, fr);
    ReturnedSound.TransferEquation(t.fn, t.rst, fr.at);
    var f := KnownBefore(t, st, ranges, fr.at);
    NextInside(t, ranges, st, fr, c, next, f);
  }

  lemma NextInside(t: Task, ranges: RangeMap, st: State<Ranges>, fr: Frame, c: int, next: Frame, f: Ranges)
    requires TaskOk(t) && Shape(t.fn, st) && FrameStep(t.fn, fr, c) == Some(next)
    requires fr.at.index + 1 < |t.fn.blocks[fr.at.block]| && !IsTerminator(At(t.fn, fr.at))
    requires RegsDescribed(t, Env(t.fn, ranges), fr) && f.Keys <= CopyKeys(t.fn)
    requires Returned.InFact(t.rst, fr.at) == Returned.Transfer(At(t.fn, fr.at), fr.at, Returned.OutFact(t.rst, fr.at))
    requires FactsDescribe(t.fn, f, Returned.InFact(t.rst, fr.at), fr)
    requires st.body[fr.at.block][fr.at.index] == Transfer(t.prog, t.fn, t.rst, Env(t.fn, ranges), fr.at, f)
    ensures next.at == Point(fr.at.block, fr.at.index + 1)
    ensures FactsDescribe(t.fn, Before(st, next.at.block, next.at.index), Returned.InFact(t.rst, next.at), next)
  {
    TransferDescribesAll(t, Env(t.fn, ranges), fr, c, next, f);
  }

  /** The fact before an instruction, whose transfer is the fact after it. */
  ghost function KnownBefore(t: Task, st: State<Ranges>, ranges: RangeMap, at: Point): (f: Ranges)
    requires Consistent(t, st, ranges) && InFunc(t.fn, at)
    ensures f == Before(st, at.block, at.index) && f.Keys <= CopyKeys(t.fn)
    ensures st.body[at.block][at.index] == Transfer(t.prog, t.fn, t.rst, Env(t.fn, ranges), at, f)
  {
    assert TransferHolds(t, st, ranges, at);
    Before(st, at.block, at.index)
  }

  lemma StepInside(t: Task, st: State<Ranges>, ranges: RangeMap, fr: Frame, c: int, next: Frame)
    requires Prepared(t) && Consistent(t, st, ranges) && Described(t, st, ranges, fr)
    requires FrameStep(t.fn, fr, c) == Some(next) && Allowed(t, ranges, fr.at, c) && ReadsWell(t.fn, t.rst, fr)
    requires fr.at.index + 1 < |t.fn.blocks[fr.at.block]|
    ensures Described(t, st, ranges, next)
  {
    FactsInside(t, st, ranges, fr, c, next);
    RegsKept(t, ranges, fr, c, next);
    LocalKept(t.fn, t.rst, fr, c, next);
    Assemble(t, st, ranges, next);
  }

  lemma Assemble(t: Task, st: State<Ranges>, ranges: RangeMap, fr: Frame)
    requires TaskOk(t) && Shape(t.fn, st) && Local(t.fn, t.rst, fr) && RegsDescribed(t, ranges, fr)
    requires FactsDescribe(t.fn, Before(st, fr.at.block, fr.at.index), Returned.InFact(t.rst, fr.at), fr)
    ensures Described(t, st, ranges, fr)
  {
  }

  lemma NotATerminator(fn: Func, at: Point)
    requires WellFormed(fn) && InFunc(fn, at) && at.index + 1 < |fn.blocks[at.block]|
    ensures !IsTerminator(At(fn, at))
  {
    assert BlockOk(fn, fn.blocks[at.block]);
  }

  lemma RegsInEnv(t: Task, ranges: RangeMap, fr: Frame)
    requires RegsDescribed(t, ranges, fr)
    ensures RegsDescribed(t, Env(t.fn, ranges), fr)
  {
    EnvIsEnough(t.fn, ranges);
    forall at | at in fr.regs
      ensures AbstractValue(t.prog, t.fn, Env(t.fn, ranges), Reg(at)) == AbstractValue(t.prog, t.fn, ranges, Reg(at))
    {
      EnvSuffices(t.prog, t.fn, Env(t.fn, ranges), ranges, Reg(at));
    }
  }

  // ----- Terminators -----

  lemma {:induction false} SwitchFinds(cases: seq<(int, nat)>, default: nat, n: int)
    ensures var g := SwitchTarget(cases, default, n);
            g == default || exists k :: 0 <= k < |cases| && cases[k].0 == n && cases[k].1 == g
    ensures (exists k :: 0 <= k < |cases| && cases[k].0 == n) || SwitchTarget(cases, default, n) == default
  {
    if cases != [] && cases[0].0 != n {
      SwitchFinds(cases[1..], default, n);
      var g := SwitchTarget(cases[1..], default, n);
      if k :| 0 <= k < |cases[1..]| && cases[1..][k].0 == n && cases[1..][k].1 == g {
        assert cases[k + 1].0 == n && cases[k + 1].1 == g;
      }
      if k :| 0 <= k < |cases[1..]| && cases[1..][k].0 == n {
        assert cases[k + 1].0 == n;
      }
    }
  }

  /** The outcome of a comparison tells the sign of the slot it checks. */
  lemma BranchRefines(fn: Func, rst: ReturnedFacts, fr: Frame, b: nat, s: nat)
    requires WellFormed(fn) && ChecksAreFresh(fn, rst) && Local(fn, rst, fr) && b < |rst.entry|
    requires InFunc(fn, fr.at) && fr.at.block == b && fr.at.index + 1 == |fn.blocks[b]| && Last(fn.blocks[b]).CondBr?
    requires CheckedSlot(fn, b, rst.entry[b]) == Some(s)
    ensures var ins, icmp := Last(fn.blocks[b]), Comparison(fn, Last(fn.blocks[b])).value;
            s in fr.mem && Eval(fr, ins.cond).Some? ==>
              Describes(AbstractICmp(icmp.pred, icmp.x, icmp.y), Eval(fr, ins.cond).value.n != 0, fr.mem[s].n)
  {
    var blk, ins := fn.blocks[b], Last(fn.blocks[b]);
    var icmp, at := Comparison(fn, ins).value, ins.cond.at;
    assert CheckIsFresh(fn, b, rst.entry[b], s);
    if IsConstant(icmp.x) || IsConstant(icmp.y) {
      var v := CheckedOperand(fn, at, icmp, rst.entry[b]);
      var j: nat :| EqualSince(blk, b, j, |blk| - 1, v, s);
      assert HoldsSlot(fr, v, s);
      assert DecidesCheck(fn, rst, at);
      assert HoldsComparison(fr, blk[at.index], Reg(Point(b, at.index)));
      ComparisonIsSound(icmp.pred, icmp.x, icmp.y, Eval(fr, icmp.x).value.n, Eval(fr, icmp.y).value.n);
    } else {
      NoConstant(icmp.pred, icmp.x, icmp.y);
    }
  }

  /** And so does the case that a switch takes. */
  lemma SwitchRefines(fn: Func, rst: ReturnedFacts, fr: Frame, b: nat, s: nat)
    requires ChecksAreFresh(fn, rst) && Local(fn, rst, fr) && b < |rst.entry|
    requires InFunc(fn, fr.at) && fr.at.block == b && fr.at.index + 1 == |fn.blocks[b]| && Last(fn.blocks[b]).Switch?
    requires CheckedSlot(fn, b, rst.entry[b]) == Some(s) && Last(fn.blocks[b]).cases != []
    ensures s in fr.mem && Eval(fr, Last(fn.blocks[b]).cond).Some?
    ensures Eval(fr, Last(fn.blocks[b]).cond).value.n == fr.mem[s].n
  {
    var blk, ins := fn.blocks[b], Last(fn.blocks[b]);
    assert CheckIsFresh(fn, b, rst.entry[b], s);
    var j: nat :| EqualSince(blk, b, j, |blk| - 1, ins.cond, s);
    assert HoldsSlot(fr, ins.cond, s);
  }

  /** A write that describes the slot is among the terminator's writes. */
  lemma WriteDescribes(t: Task, f: Ranges, fr: Frame, c: int, next: Frame, b: nat, s: nat)
    returns (w: (nat, Ranges))
    requires TaskOk(t) && ChecksAreFresh(t.fn, t.rst) && Local(t.fn, t.rst, fr)
    requires InFunc(t.fn, fr.at) && fr.at.block == b && fr.at.index + 1 == |t.fn.blocks[b]|
    requires BlockOk(t.fn, t.fn.blocks[b])
    requires CheckedSlot(t.fn, b, t.rst.entry[b]) == Some(s)
    requires FrameStep(t.fn, fr, c) == Some(next)
    requires Slot(s) in f && s in fr.mem && Holds(f[Slot(s)], fr.mem[s].n)
    requires Slot(s) in ReturnableAt(t.fn, t.rst, next.at.block)
    ensures w in Writes(t.fn, t.rst, b, f)
    ensures w.0 == next.at.block && Slot(s) in w.1 && Holds(w.1[Slot(s)], fr.mem[s].n)
  {
    var ins, g := Last(t.fn.blocks[b]), next.at.block;
    if ins.CondBr? {
      BranchRefines(t.fn, t.rst, fr, b, s);
      var icmp := Comparison(t.fn, ins).value;
      var signs := AbstractICmp(icmp.pred, icmp.x, icmp.y);
      var e := if Eval(fr, ins.cond).value.n != 0 then signs.0 else signs.1;
      OperationsHold(f[Slot(s)], e, fr.mem[s].n);
      w := (g, map[Slot(s) := RefinedRange(f, s, e)]);
      assert w in WriteTo(t.fn, t.rst, g, s, RefinedRange(f, s, e));
    } else {
      var n := Eval(fr, ins.cond).value.n;
      SwitchFinds(ins.cases, ins.default, n);
      CaseWritesAre(t.fn, t.rst, f, s, ins.cases);
      if k :| 0 <= k < |ins.cases| && ins.cases[k].0 == n && ins.cases[k].1 == g {
        SwitchRefines(t.fn, t.rst, fr, b, s);
        OperationsHold(f[Slot(s)], AbstractInteger(n), n);
        w := (g, map[Slot(s) := RefinedRange(f, s, AbstractInteger(n))]);
        assert w in WriteTo(t.fn, t.rst, ins.cases[k].1, s, RefinedRange(f, s, AbstractInteger(ins.cases[k].0)));
      } else {
        w := (g, map[Slot(s) := f[Slot(s)]]);
        assert w in WriteTo(t.fn, t.rst, ins.default, s, f[Slot(s)]);
      }
    }
  }

  lemma BelowHolds(x: Ranges, y: Ranges, k: Value, n: int)
    requires BelowFact(x, y) && k in x && Holds(x[k], n)
    ensures k in y && Holds(y[k], n)
  {
    BelowIsInclusion(x[k], y[k]);
  }

  /** The checked slot gets its entry by the direct write. */
  lemma CheckArrives(t: Task, entry: seq<Ranges>, f: Ranges, fr: Frame, c: int, next: Frame, s: nat)
    requires TaskOk(t) && ChecksAreFresh(t.fn, t.rst) && Local(t.fn, t.rst, fr)
    requires fr.at.index + 1 == |t.fn.blocks[fr.at.block]| && BlockOk(t.fn, t.fn.blocks[fr.at.block])
    requires CheckedSlot(t.fn, fr.at.block, t.rst.entry[fr.at.block]) == Some(s)
    requires FrameStep(t.fn, fr, c) == Some(next)
    requires Slot(s) in f && s in fr.mem && Holds(f[Slot(s)], fr.mem[s].n)
    requires Slot(s) in ReturnableAt(t.fn, t.rst, next.at.block)
    requires Delivered(Writes(t.fn, t.rst, fr.at.block, f), entry)
    ensures next.at.block < |entry| && Slot(s) in entry[next.at.block]
    ensures Holds(entry[next.at.block][Slot(s)], fr.mem[s].n)
  {
    var w := WriteDescribes(t, f, fr, c, next, fr.at.block, s);
    var ws := Writes(t.fn, t.rst, fr.at.block, f);
    var j :| 0 <= j < |ws| && ws[j] == w;
    BelowHolds(w.1, entry[w.0], Slot(s), fr.mem[s].n);
  }

  lemma SlotArrives(t: Task, entry: seq<Ranges>, f: Ranges, fr: Frame, c: int, next: Frame, s: nat)
    requires TaskOk(t) && ChecksAreFresh(t.fn, t.rst) && Local(t.fn, t.rst, fr)
    requires fr.at.index + 1 == |t.fn.blocks[fr.at.block]| && BlockOk(t.fn, t.fn.blocks[fr.at.block])
    requires CheckedSlot(t.fn, fr.at.block, t.rst.entry[fr.at.block]) == Some(s)
    requires FrameStep(t.fn, fr, c) == Some(next) && next.at.block < |entry|
    requires Content(fr, Slot(s)).Some? && Slot(s) in f && Holds(f[Slot(s)], Content(fr, Slot(s)).value.n)
    requires Slot(s) in ReturnableAt(t.fn, t.rst, next.at.block)
    requires Delivered(Writes(t.fn, t.rst, fr.at.block, f), entry)
    ensures Slot(s) in entry[next.at.block] && Holds(entry[next.at.block][Slot(s)], Content(fr, Slot(s)).value.n)
  {
    CheckArrives(t, entry, f, fr, c, next, s);
  }

  lemma CheckDelivers(t: Task, st: State<Ranges>, b: nat, s: nat)
    requires TaskOk(t) && Shape(t.fn, st) && b < |t.fn.blocks|
    requires BlockOk(t.fn, t.fn.blocks[b]) && CheckedSlot(t.fn, b, t.rst.entry[b]) == Some(s)
    requires CheckHolds(t, st, b) && Slot(s) in Before(st, b, |t.fn.blocks[b]| - 1)
    ensures Delivered(Writes(t.fn, t.rst, b, Before(st, b, |t.fn.blocks[b]| - 1)), st.entry)
  {
    ChecksFollow(t.fn, b, t.rst.entry[b]);
  }

  /** Entries that the terminator does not check pass through it. */
  lemma FlowsOn(t: Task, ranges: RangeMap, at: Point, f: Ranges, k: Value)
    requires TaskOk(t) && InFunc(t.fn, at) && at.index + 1 == |t.fn.blocks[at.block]|
    requires IsTerminator(At(t.fn, at)) && !At(t.fn, at).Ret?
    requires k in f && k in Returned.OutFact(t.rst, at)
    requires var checked := CheckedSlot(t.fn, at.block, Returned.OutFact(t.rst, at));
             checked.None? || k != Slot(checked.value)
    ensures var g := Transfer(t.prog, t.fn, t.rst, ranges, at, f);
            k in g && g[k] == f[k]
  {
  }

  /** Entries that are not checked follow the edge into the successor. */
  lemma FollowsEdge(t: Task, st: State<Ranges>, ranges: RangeMap, at: Point, g: nat, f: Ranges, k: Value, n: int)
    requires TaskOk(t) && Shape(t.fn, st) && InFunc(t.fn, at) && at.index + 1 == |t.fn.blocks[at.block]|
    requires IsTerminator(At(t.fn, at)) && !At(t.fn, at).Ret? && g < |t.fn.blocks| && EdgeHolds(t, st, at.block, g)
    requires st.body[at.block][at.index] == Transfer(t.prog, t.fn, t.rst, ranges, at, f)
    requires k in ReturnableAt(t.fn, t.rst, g) && k in Returned.OutFact(t.rst, at) && k in f && Holds(f[k], n)
    requires var checked := CheckedSlot(t.fn, at.block, Returned.OutFact(t.rst, at));
             checked.None? || k != Slot(checked.value)
    ensures k in st.entry[g] && Holds(st.entry[g][k], n)
  {
    FlowsOn(t, ranges, at, f, k);
    BelowHolds(Filtered(st.body[at.block][at.index], ReturnableAt(t.fn, t.rst, g)), st.entry[g], k, n);
  }

  /** The checked slot is written on the edge. */
  lemma SlotFollows(t: Task, st: State<Ranges>, fr: Frame, c: int, next: Frame, s: nat, f: Ranges)
    requires TaskOk(t) && Shape(t.fn, st) && ChecksAreFresh(t.fn, t.rst) && Local(t.fn, t.rst, fr)
    requires fr.at.index + 1 == |t.fn.blocks[fr.at.block]| && BlockOk(t.fn, t.fn.blocks[fr.at.block])
    requires CheckHolds(t, st, fr.at.block) && f == Before(st, fr.at.block, fr.at.index)
    requires CheckedSlot(t.fn, fr.at.block, t.rst.entry[fr.at.block]) == Some(s)
    requires FrameStep(t.fn, fr, c) == Some(next) && next.at.block < |st.entry|
    requires Content(fr, Slot(s)).Some? && Slot(s) in f && Holds(f[Slot(s)], Content(fr, Slot(s)).value.n)
    requires Slot(s) in ReturnableAt(t.fn, t.rst, next.at.block)
    ensures Slot(s) in st.entry[next.at.block]
    ensures Holds(st.entry[next.at.block][Slot(s)], Content(fr, Slot(s)).value.n)
  {
    CheckDelivers(t, st, fr.at.block, s);
    SlotArrives(t, st.entry, f, fr, c, next, s);
  }

  lemma CopyFollows(t: Task, st: State<Ranges>, ranges: RangeMap, fr: Frame, c: int, next: Frame, k: Value, f: Ranges)
    requires TaskOk(t) && Shape(t.fn, st) && ChecksAreFresh(t.fn, t.rst) && Local(t.fn, t.rst, fr)
    requires fr.at.index + 1 == |t.fn.blocks[fr.at.block]| && BlockOk(t.fn, t.fn.blocks[fr.at.block])
    requires FrameStep(t.fn, fr, c) == Some(next) && next.at.block < |t.fn.blocks|
    requires EdgeHolds(t, st, fr.at.block, next.at.block) && CheckHolds(t, st, fr.at.block)
    requires f == Before(st, fr.at.block, fr.at.index)
    requires st.body[fr.at.block][fr.at.index] == Transfer(t.prog, t.fn, t.rst, ranges, fr.at, f)
    requires k in ReturnableAt(t.fn, t.rst, next.at.block) && k in Returned.OutFact(t.rst, fr.at)
    requires Content(fr, k).Some? && k in f && Holds(f[k], Content(fr, k).value.n)
    ensures k in st.entry[next.at.block] && Holds(st.entry[next.at.block][k], Content(fr, k).value.n)
  {
    var checked := CheckedSlot(t.fn, fr.at.block, t.rst.entry[fr.at.block]);
    if checked.Some? && k == Slot(checked.value) {
      SlotFollows(t, st, fr, c, next, checked.value, f);
    } else {
      FollowsEdge(t, st, ranges, fr.at, next.at.block, f, k, Content(fr, k).value.n);
    }
  }

  /** What is returnable after a jump was returnable, and described, before. */
  lemma KnownAtEnd(t: Task, st: State<Ranges>, ranges: RangeMap, fr: Frame, c: int, next: Frame, k: Value)
    requires Prepared(t) && Shape(t.fn, st) && Described(t, st, ranges, fr)
    requires FrameStep(t.fn, fr, c) == Some(next) && fr.at.index + 1 == |t.fn.blocks[fr.at.block]|
    requires InFunc(t.fn, next.at) && next.at.index == 0 && IsTerminator(At(t.fn, fr.at))
    requires Edge(t.fn, fr.at.block, next.at.block)
    requires k in ReturnableAt(t.fn, t.rst, next.at.block) && k in CopyKeys(t.fn) && Content(fr, k).Some?
    ensures var f := Before(st, fr.at.block, fr.at.index); k in f && Holds(f[k], Content(fr, k).value.n)
    ensures k in Returned.OutFact(t.rst, fr.at)
  {
    ReturnedSound.TransferEquation(t.fn, t.rst, fr.at);
    ReturnedSound.FlowsBack(t.fn, t.rst, fr, next, c);
    StaysReturnable(t, fr.at, k);
  }

  /** A returnable copy keeps a describing entry across a control-flow edge. */
  lemma EdgeDescribes(t: Task, st: State<Ranges>, ranges: RangeMap, fr: Frame, c: int, next: Frame, k: Value)
    requires Prepared(t) && Consistent(t, st, ranges) && Described(t, st, ranges, fr)
    requires FrameStep(t.fn, fr, c) == Some(next) && fr.at.index + 1 == |t.fn.blocks[fr.at.block]|
    requires InFunc(t.fn, next.at) && next.at.index == 0 && IsTerminator(At(t.fn, fr.at))
    requires Edge(t.fn, fr.at.block, next.at.block) && BlockOk(t.fn, t.fn.blocks[fr.at.block])
    requires k in ReturnableAt(t.fn, t.rst, next.at.block) && k in CopyKeys(t.fn) && Content(fr, k).Some?
    ensures k in st.entry[next.at.block] && Holds(st.entry[next.at.block][k], Content(fr, k).value.n)
  {
    KnownAtEnd(t, st, ranges, fr, c, next, k);
    var f := KnownBefore(t, st, ranges, fr.at);
    assert EdgeHolds(t, st, fr.at.block, next.at.block) && CheckHolds(t, st, fr.at.block);
    CopyFollows(t, st, Env(t.fn, ranges), fr, c, next, k, f);
  }

  lemma StepAcross(t: Task, st: State<Ranges>, ranges: RangeMap, fr: Frame, c: int, next: Frame)
    requires Prepared(t) && Consistent(t, st, ranges) && Described(t, st, ranges, fr)
    requires FrameStep(t.fn, fr, c) == Some(next) && fr.at.index + 1 == |t.fn.blocks[fr.at.block]|
    ensures Described(t, st, ranges, next)
  {
    JumpsToSuccessor(t.fn, fr, next, c);
    assert BlockOk(t.fn, t.fn.blocks[fr.at.block]);
    LocalStarts(t.fn, t.rst, next);
    assert EntryWithin(t, st, next.at.block);
    EntryDescribes(t, st, ranges, fr, c, next);
    Assemble(t, st, ranges, next);
  }

  lemma EntryDescribes(t: Task, st: State<Ranges>, ranges: RangeMap, fr: Frame, c: int, next: Frame)
    requires Prepared(t) && Consistent(t, st, ranges) && Described(t, st, ranges, fr)
    requires FrameStep(t.fn, fr, c) == Some(next) && fr.at.index + 1 == |t.fn.blocks[fr.at.block]|
    requires InFunc(t.fn, next.at) && next.at.index == 0 && IsTerminator(At(t.fn, fr.at)) && next == fr.(at := next.at)
    requires Edge(t.fn, fr.at.block, next.at.block) && BlockOk(t.fn, t.fn.blocks[fr.at.block])
    requires EntryWithin(t, st, next.at.block)
    ensures FactsDescribe(t.fn, st.entry[next.at.block], ReturnableAt(t.fn, t.rst, next.at.block), next)
  {
    var g := next.at.block;
    forall k | k in ReturnableAt(t.fn, t.rst, g) && k in CopyKeys(t.fn) && Content(next, k).Some?
      ensures k in st.entry[g] && Holds(st.entry[g][k], Content(next, k).value.n)
    {
      assert Content(next, k) == Content(fr, k);
      EdgeDescribes(t, st, ranges, fr, c, next, k);
    }
  }

  /** Every step of a frame keeps it described. */
  lemma StepDescribes(t: Task, st: State<Ranges>, ranges: RangeMap, fr: Frame, c: int, next: Frame)
    requires Prepared(t) && Consistent(t, st, ranges) && Described(t, st, ranges, fr)
    requires FrameStep(t.fn, fr, c) == Some(next) && Allowed(t, ranges, fr.at, c) && ReadsWell(t.fn, t.rst, fr)
    ensures Described(t, st, ranges, next)
  {
    if fr.at.index + 1 < |t.fn.blocks[fr.at.block]| {
      StepInside(t, st, ranges, fr, c, next);
    } else {
      StepAcross(t, st, ranges, fr, c, next);
    }
  }

  lemma CopiesAreSlotsOrRegisters(fn: Func, k: Value)
    requires k in CopyKeys(fn)
    ensures k.Slot? || k.Reg?
  {
  }

  lemma EntryDescribed(t: Task, st: State<Ranges>, ranges: RangeMap, args: seq<int>)
    requires Prepared(t) && Consistent(t, st, ranges)
    ensures Described(t, st, ranges, Entry(t.name, args))
  {
    var fr := Entry(t.name, args);
    assert BlockOk(t.fn, t.fn.blocks[0]);
    LocalStarts(t.fn, t.rst, fr);
    forall k | k in CopyKeys(t.fn) ensures Content(fr, k).None? {
      CopiesAreSlotsOrRegisters(t.fn, k);
    }
    assert EntryWithin(t, st, 0);
    assert RegsDescribed(t, ranges, fr);
    assert FactsDescribe(t.fn, st.entry[0], Returned.InFact(t.rst, fr.at), fr);
  }

  /** What a described frame returns has a range that describes it: an entry,
      or no entry because it is not a copy. */
  lemma ReturnRanged(t: Task, st: State<Ranges>, ranges: RangeMap, fr: Frame) returns (f: Ranges)
    requires Prepared(t) && Consistent(t, st, ranges) && Described(t, st, ranges, fr)
    requires Returning(t.fn, fr).Some?
    ensures var v := At(t.fn, fr.at).val;
            && ((f == map[] && v !in CopyKeys(t.fn)) || (f == Before(st, fr.at.block, fr.at.index) && v in f))
            && Holds(RangeOf(t.prog, t.fn, ranges, f, v), Returning(t.fn, fr).value.n)
  {
    ReturnedSound.TransferEquation(t.fn, t.rst, fr.at);
    var v := At(t.fn, fr.at).val;
    assert Content(fr, v) == Eval(fr, v);
    f := if v in CopyKeys(t.fn) then Before(st, fr.at.block, fr.at.index) else map[];
    ValueDescribed(t, ranges, fr, f, v);
  }

  /** What a described frame returns is in the function's range. */
  lemma ReturnDescribed(t: Task, st: State<Ranges>, ranges: RangeMap, fr: Frame)
    requires Prepared(t) && Consistent(t, st, ranges) && Described(t, st, ranges, fr)
    requires Returning(t.fn, fr).Some?
    ensures t.name in ranges && Holds(ranges[t.name], Returning(t.fn, fr).value.n)
  {
    var f := ReturnRanged(t, st, ranges, fr);
    ReturnIsLast(t.fn, fr.at);
    assert ReturnCovered(t, st, ranges, fr.at.block);
    PointerRangeHolds(t, ranges, f, At(t.fn, fr.at).val, Returning(t.fn, fr).value.n);
  }

  lemma PointerRangeHolds(t: Task, ranges: RangeMap, f: Ranges, v: Value, n: int)
    requires t.name in ranges && Below(ReturnedRange(t.prog, t.fn, ranges, f, v), ranges[t.name])
    requires Holds(RangeOf(t.prog, t.fn, ranges, f, v), n)
    ensures Holds(ranges[t.name], n)
  {
    OperationsHold(RangeOf(t.prog, t.fn, ranges, f, v), NotZero, n);
    BelowIsInclusion(ReturnedRange(t.prog, t.fn, ranges, f, v), ranges[t.name]);
  }

  lemma ReturnIsLast(fn: Func, at: Point)
    requires WellFormed(fn) && InFunc(fn, at) && At(fn, at).Ret?
    ensures at.index + 1 == |fn.blocks[at.block]|
  {
    assert BlockOk(fn, fn.blocks[at.block]);
  }
}
