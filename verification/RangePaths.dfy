/** Every sign in a range has a cause: it is that of a value which some path of
    the control-flow graph hands on to a return, past all checks. */
module RangePaths {
  import opened IR
  import opened ICmps
  import opened Signs
  import opened SignFacts
  import opened Shapes
  import opened Sweep
  import opened ReturnRange
  import opened RangeSweeps

  /** Signs that calls of functions may return. */
  type Causes = iset<(string, Region)>

  /** By what is known of v itself, its sign may be r. */
  predicate MayBe(prog: Module, fn: Func, v: Value, r: Region) {
    match v
    case Int(n) => r == RegionOf(n)
    case Bool(b) => b <==> r != Null
    case NullPointer => r == Null
    case Literal(_) => r != Null
    case Reg(at) => InFunc(fn, at) && At(fn, at).ZExt? ==> r != Negative
    case _ => true
  }

  /** v is the result of calling a function of the program, if of any. */
  predicate IsCallOf(prog: Module, fn: Func, v: Value, g: string) {
    v.Reg? && InFunc(fn, v.at) && At(fn, v.at).Call? && At(fn, v.at).callee == Direct(g) && g in prog
  }

  /** v, taken for itself, has sign r if it may be, and if calls may return it. */
  ghost predicate Itself(t: Task, causes: Causes, v: Value, r: Region) {
    MayBe(t.prog, t.fn, v, r) && forall g :: IsCallOf(t.prog, t.fn, v, g) ==> (g, r) in causes
  }

  /** Over instruction `at`, v receives what u holds. */
  predicate Receives(ins: Instr, at: Point, u: Value, v: Value) {
    || (ins.Store? && v == Slot(ins.slot) && u == ins.val)
    || (IsLoadLike(ins) && v == Reg(at) && u == Source(ins))
  }

  predicate Overwrites(ins: Instr, at: Point, v: Value) {
    (ins.Store? && v == Slot(ins.slot)) || (IsLoadLike(ins) && v == Reg(at))
  }

  /** The terminator of block b checks what v holds. */
  predicate Checks(t: Task, b: nat, v: Value)
    requires TaskOk(t) && b < |t.fn.blocks| && |t.fn.blocks[b]| > 0
  {
    var checked := CheckedSlot(t.fn, b, t.rst.entry[b]);
    checked.Some? && v == Slot(checked.value)
  }

  /** A checked slot's content of sign r may take the way from terminator `ins`
      to block `target`. */
  ghost predicate TakenFor(fn: Func, ins: Instr, target: nat, r: Region) {
    match ins
    case CondBr(_, t, e) =>
      && Comparison(fn, ins).Some?
      && var icmp := Comparison(fn, ins).value;
         var signs := AbstractICmp(icmp.pred, icmp.x, icmp.y);
         (target == t && Has(signs.0, r)) || (target == e && Has(signs.1, r))
    case Switch(_, cases, default) =>
      target == default || exists k :: 0 <= k < |cases| && cases[k].1 == target && RegionOf(cases[k].0) == r
    case _ => false
  }

  /** On the way from `prev` to `at`, content of v of sign r is not turned away by
      a check. */
  ghost predicate Passes(t: Task, prev: Point, at: Point, v: Value, r: Region)
    requires TaskOk(t)
  {
    Follows(t.fn, prev, at)
    && (prev.index + 1 == |t.fn.blocks[prev.block]| && Checks(t, prev.block, v) ==>
          TakenFor(t.fn, At(t.fn, prev), at.block, r))
  }

  /** Before instruction `at` v may have sign r: a path of n steps, past all
      checks, hands on something of that sign, or something of which a check has
      just told it. */
  ghost predicate Handed(t: Task, causes: Causes, at: Point, v: Value, r: Region, n: nat)
    requires TaskOk(t)
    decreases n
  {
    exists prev :: Passes(t, prev, at, v, r)
      && (if Overwrites(At(t.fn, prev), prev, v)
          then exists u :: Receives(At(t.fn, prev), prev, u, v)
                 && if n == 0 then Itself(t, causes, u, r) else Handed(t, causes, prev, u, r, n - 1)
          else if n == 0 then prev.index + 1 == |t.fn.blocks[prev.block]| && Checks(t, prev.block, v)
          else Handed(t, causes, prev, v, r, n - 1))
  }

  ghost predicate Caused(t: Task, causes: Causes, at: Point, v: Value, r: Region)
    requires TaskOk(t)
  {
    exists n: nat :: Handed(t, causes, at, v, r, n)
  }

  /** Block b returns something of sign r. */
  ghost predicate Returns(t: Task, causes: Causes, b: nat, r: Region)
    requires TaskOk(t)
  {
    && b < |t.fn.blocks| && |t.fn.blocks[b]| > 0 && Last(t.fn.blocks[b]).Ret?
    && var v := Last(t.fn.blocks[b]).val;
       Itself(t, causes, v, r) || Caused(t, causes, Point(b, |t.fn.blocks[b]| - 1), v, r)
  }

  /** Sign r may be returned: some return has it, or, of a pointer, the other one
      that is not null. */
  ghost predicate MayReturn(t: Task, causes: Causes, r: Region)
    requires TaskOk(t)
  {
    exists b, x :: Returns(t, causes, b, x) && (x == r || (t.fn.returnsPointer && x != Null && r != Null))
  }

  /** The causes include what the function itself may return. */
  ghost predicate ClosedFor(t: Task, causes: Causes) {
    TaskOk(t) && forall r: Region :: MayReturn(t, causes, r) ==> (t.name, r) in causes
  }

  ghost predicate RangesCaused(causes: Causes, ranges: RangeMap) {
    forall g, r: Region :: g in ranges && Has(ranges[g], r) ==> (g, r) in causes
  }

  ghost predicate FactCaused(t: Task, causes: Causes, at: Point, f: Ranges)
    requires TaskOk(t)
  {
    forall v, r: Region {:trigger Has(f[v], r)} :: v in f && Has(f[v], r) ==> Caused(t, causes, at, v, r)
  }

  /** The fact after `at` has causes wherever control goes on, but for what is
      checked there. */
  ghost predicate CausedAfter(t: Task, causes: Causes, at: Point, f: Ranges)
    requires TaskOk(t)
  {
    forall next {:trigger Follows(t.fn, at, next)} :: Follows(t.fn, at, next) ==> FactCaused(t, causes, next, f)
  }

  ghost predicate RowCaused(t: Task, causes: Causes, b: nat, row: seq<Ranges>)
    requires TaskOk(t)
  {
    forall i :: 0 <= i < |row| ==> CausedAfter(t, causes, Point(b, i), row[i])
  }

  ghost predicate StateCaused(t: Task, causes: Causes, st: State<Ranges>)
    requires TaskOk(t)
  {
    forall b {:trigger st.entry[b]} {:trigger st.body[b]} ::
      0 <= b < |t.fn.blocks| && b < |st.entry| && b < |st.body| ==>
        FactCaused(t, causes, Point(b, 0), st.entry[b]) && RowCaused(t, causes, b, st.body[b])
  }

  // ----- Values -----

  lemma AbstractionCaused(t: Task, causes: Causes, ranges: RangeMap, v: Value, r: Region)
    requires RangesCaused(causes, ranges)
    requires Has(AbstractValue(t.prog, t.fn, ranges, v), r)
    ensures Itself(t, causes, v, r)
  {
  }

  /** Nothing is lost either: what v may be by itself is in its abstraction. */
  lemma AbstractionCovers(prog: Module, fn: Func, ranges: RangeMap, v: Value, r: Region)
    requires MayBe(prog, fn, v, r)
    requires forall g :: IsCallOf(prog, fn, v, g) ==> g in ranges && Has(ranges[g], r)
    ensures Has(AbstractValue(prog, fn, ranges, v), r)
  {
    if v.Reg? && InFunc(fn, v.at) && At(fn, v.at).Call? && At(fn, v.at).callee.Direct? {
      assert At(fn, v.at).callee.name in prog ==> IsCallOf(prog, fn, v, At(fn, v.at).callee.name);
    }
  }

  // ----- Which slot is checked -----

  /** Operand v of the comparison or switch at `cmp` is what was loaded from slot
      s, or else what was stored to it just before. */
  predicate ContentOf(fn: Func, cmp: Point, v: Value, s: nat)
    requires InFunc(fn, cmp)
  {
    if v.Reg? && InFunc(fn, v.at) && At(fn, v.at).Load? then At(fn, v.at) == Load(s)
    else cmp.index > 0 && fn.blocks[cmp.block][cmp.index - 1] == Store(v, s)
  }

  predicate ReturnableContent(fn: Func, cmp: Point, v: Value, s: nat, rvf: set<Value>)
    requires InFunc(fn, cmp)
  {
    ContentOf(fn, cmp, v, s) && Slot(s) in rvf
  }

  /** A terminator checks a returnable slot if a switch is on its content, or a
      branch is on a comparison with its content, of which the left operand comes
      first. */
  ghost predicate LooksAtContent(fn: Func, b: nat, s: nat, rvf: set<Value>)
    requires b < |fn.blocks| && |fn.blocks[b]| > 0
  {
    var ins := Last(fn.blocks[b]);
    match ins
    case Switch(v, _, _) => ReturnableContent(fn, Point(b, |fn.blocks[b]| - 1), v, s, rvf)
    case CondBr(v, _, _) =>
      && IsInstruction(fn, v) && At(fn, v.at).ICmp?
      && (|| ReturnableContent(fn, v.at, At(fn, v.at).x, s, rvf)
          || (ReturnableContent(fn, v.at, At(fn, v.at).y, s, rvf)
              && forall other: nat :: !ReturnableContent(fn, v.at, At(fn, v.at).x, other, rvf)))
    case _ => false
  }

  lemma ContentIs(fn: Func, cmp: Point, v: Value, s: nat, rvf: set<Value>)
    requires InFunc(fn, cmp)
    ensures CheckedReturnValue(fn, cmp, v, rvf) == Some(s) <==> ReturnableContent(fn, cmp, v, s, rvf)
  {
  }

  lemma ChecksAre(fn: Func, b: nat, s: nat, rvf: set<Value>)
    requires b < |fn.blocks| && |fn.blocks[b]| > 0
    ensures CheckedSlot(fn, b, rvf) == Some(s) <==> LooksAtContent(fn, b, s, rvf)
  {
    var ins := Last(fn.blocks[b]);
    match ins
    case Switch(v, _, _) => ContentIs(fn, Point(b, |fn.blocks[b]| - 1), v, s, rvf);
    case CondBr(v, _, _) =>
      if IsInstruction(fn, v) && At(fn, v.at).ICmp? {
        var x := At(fn, v.at).x;
        forall other: nat { ContentIs(fn, v.at, x, other, rvf); }
        ContentIs(fn, v.at, At(fn, v.at).y, s, rvf);
        var first := CheckedReturnValue(fn, v.at, x, rvf);
        if first.Some? { assert ReturnableContent(fn, v.at, x, first.value, rvf); }
      }
    case _ =>
  }

  // ----- Facts -----

  lemma Receiving(t: Task, causes: Causes, prev: Point, at: Point, u: Value, v: Value, r: Region)
    requires TaskOk(t) && Passes(t, prev, at, v, r) && Receives(At(t.fn, prev), prev, u, v)
    requires Itself(t, causes, u, r) || Caused(t, causes, prev, u, r)
    ensures Caused(t, causes, at, v, r)
  {
    assert Overwrites(At(t.fn, prev), prev, v);
    if Itself(t, causes, u, r) {
      assert Handed(t, causes, at, v, r, 0);
    } else {
      var n: nat :| Handed(t, causes, prev, u, r, n);
      assert Handed(t, causes, at, v, r, n + 1);
    }
  }

  lemma Staying(t: Task, causes: Causes, prev: Point, at: Point, v: Value, r: Region)
    requires TaskOk(t) && Passes(t, prev, at, v, r) && !Overwrites(At(t.fn, prev), prev, v)
    requires || Caused(t, causes, prev, v, r)
             || (prev.index + 1 == |t.fn.blocks[prev.block]| && Checks(t, prev.block, v))
    ensures Caused(t, causes, at, v, r)
  {
    if prev.index + 1 == |t.fn.blocks[prev.block]| && Checks(t, prev.block, v) {
      assert Handed(t, causes, at, v, r, 0);
    } else {
      var n: nat :| Handed(t, causes, prev, v, r, n);
      assert Handed(t, causes, at, v, r, n + 1);
    }
  }

  lemma RangeCaused(t: Task, causes: Causes, ranges: RangeMap, at: Point, f: Ranges, v: Value, r: Region)
    requires TaskOk(t) && RangesCaused(causes, ranges) && FactCaused(t, causes, at, f)
    requires Has(RangeOf(t.prog, t.fn, ranges, f, v), r)
    ensures Itself(t, causes, v, r) || Caused(t, causes, at, v, r)
  {
    if v !in f { AbstractionCaused(t, causes, ranges, v, r); }
  }

  /** What the transfer makes of an entry. */
  lemma TransferEntry(t: Task, ranges: RangeMap, at: Point, f: Ranges, v: Value)
    requires TaskOk(t) && InFunc(t.fn, at) && v in Transfer(t.prog, t.fn, t.rst, ranges, at, f)
    ensures var g, ins := Transfer(t.prog, t.fn, t.rst, ranges, at, f), At(t.fn, at);
            if Overwrites(ins, at, v)
            then exists u :: Receives(ins, at, u, v) && g[v] == RangeOf(t.prog, t.fn, ranges, f, u)
            else v in f && g[v] == f[v] && !(at.index + 1 == |t.fn.blocks[at.block]| && Checks(t, at.block, v))
  {
    var ins := At(t.fn, at);
    match ins
    case Store(u, s) => assert v == Slot(s) ==> Receives(ins, at, u, v);
    case Load(s) => assert v == Reg(at) ==> Receives(ins, at, Slot(s), v);
    case Cast(_, u) => assert v == Reg(at) ==> Receives(ins, at, u, v);
    case _ =>
  }

  lemma TransferCaused(t: Task, causes: Causes, ranges: RangeMap, at: Point, f: Ranges)
    requires TaskOk(t) && InFunc(t.fn, at) && RangesCaused(causes, ranges) && FactCaused(t, causes, at, f)
    ensures CausedAfter(t, causes, at, Transfer(t.prog, t.fn, t.rst, ranges, at, f))
  {
    var ins := At(t.fn, at);
    var g := Transfer(t.prog, t.fn, t.rst, ranges, at, f);
    forall next, v, r: Region | Follows(t.fn, at, next) && v in g && Has(g[v], r)
      ensures Caused(t, causes, next, v, r)
    {
      TransferEntry(t, ranges, at, f, v);
      if Overwrites(ins, at, v) {
        var u :| Receives(ins, at, u, v) && g[v] == RangeOf(t.prog, t.fn, ranges, f, u);
        RangeCaused(t, causes, ranges, at, f, u, r);
        NotATerminator(t, at);
        Receiving(t, causes, at, next, u, v, r);
      } else {
        assert Has(f[v], r);
        Staying(t, causes, at, next, v, r);
      }
    }
  }

  /** What overwrites something is no check. */
  lemma NotATerminator(t: Task, at: Point)
    requires TaskOk(t) && InFunc(t.fn, at) && !IsTerminator(At(t.fn, at))
    ensures at.index + 1 < |t.fn.blocks[at.block]|
  {
    assert BlockOk(t.fn, t.fn.blocks[at.block]);
  }

  lemma {:induction false} ChainCaused(t: Task, causes: Causes, ranges: RangeMap, b: nat, k: nat, x: Ranges)
    requires TaskOk(t) && b < |t.fn.blocks| && k <= |t.fn.blocks[b]|
    requires RangesCaused(causes, ranges) && FactCaused(t, causes, Point(b, 0), x)
    ensures RowCaused(t, causes, b, Chain(Stepper(t.prog, t.fn, t.rst, ranges, b), k, x))
  {
    if k > 0 {
      ChainCaused(t, causes, ranges, b, k - 1, x);
      var row := Chain(Stepper(t.prog, t.fn, t.rst, ranges, b), k - 1, x);
      var f, at := if k == 1 then x else row[k - 2], Point(b, k - 1);
      if k > 1 {
        assert CausedAfter(t, causes, Point(b, k - 2), row[k - 2]);
        assert Follows(t.fn, Point(b, k - 2), at);
      }
      TransferCaused(t, causes, ranges, at, f);
    }
  }

  lemma JoinCaused(t: Task, causes: Causes, at: Point, x: Ranges, y: Ranges)
    requires TaskOk(t) && FactCaused(t, causes, at, x) && FactCaused(t, causes, at, y)
    ensures FactCaused(t, causes, at, Joined(x, y))
  {
    var f := Joined(x, y);
    forall v, r: Region | v in f && Has(f[v], r) ensures Caused(t, causes, at, v, r) {
      if v in x && v in y { JoinHas(x[v], y[v], r); }
      assert (v in x && Has(x[v], r)) || (v in y && Has(y[v], r));
    }
  }

  lemma GatherCaused(t: Task, causes: Causes, ranges: RangeMap, st: State<Ranges>, b: nat)
    requires TaskOk(t) && Shape(t.fn, st) && StateCaused(t, causes, st) && b < |t.fn.blocks|
    ensures FactCaused(t, causes, Point(b, 0), Gather(Sys(t, ranges), st, b, |t.fn.blocks|))
  {
    var sys := Sys(t, ranges);
    var kept := (x: Ranges) => FactCaused(t, causes, Point(b, 0), x);
    forall x, y | kept(x) && kept(y) ensures kept(sys.join(x, y)) {
      JoinCaused(t, causes, Point(b, 0), x, y);
    }
    forall p: nat | p < |t.fn.blocks| && sys.feeds(p, b) ensures kept(sys.flow(p, b, st.body[p])) {
      DeliveredCaused(t, causes, st, p, b);
    }
    assert kept(st.entry[b]);
    GatherKeeps(sys, kept, st, b, |t.fn.blocks|);
  }

  lemma DeliveredCaused(t: Task, causes: Causes, st: State<Ranges>, p: nat, b: nat)
    requires TaskOk(t) && Shape(t.fn, st) && StateCaused(t, causes, st) && p < |t.fn.blocks| && b < |t.fn.blocks|
    requires Edge(t.fn, p, b)
    ensures FactCaused(t, causes, Point(b, 0),
                       Filtered(st.body[p][|t.fn.blocks[p]| - 1], ReturnableAt(t.fn, t.rst, b)))
  {
    assert BlockOk(t.fn, t.fn.blocks[p]) && BlockOk(t.fn, t.fn.blocks[b]);
    var last := |t.fn.blocks[p]| - 1;
    var out := st.body[p][last];
    assert RowCaused(t, causes, p, st.body[p]);
    assert CausedAfter(t, causes, Point(p, last), out);
    assert Follows(t.fn, Point(p, last), Point(b, 0));
    var f := Filtered(out, ReturnableAt(t.fn, t.rst, b));
    forall v, r: Region | v in f && Has(f[v], r) ensures Caused(t, causes, Point(b, 0), v, r) {
      assert Has(out[v], r);
    }
  }

  // ----- Checks -----

  /** What a branch writes for a successor is of signs that go there. */
  lemma BranchTells(t: Task, b: nat, f: Ranges, w: (nat, Ranges), s: nat, r: Region)
    requires TaskOk(t) && b < |t.fn.blocks| && |t.fn.blocks[b]| > 0 && Last(t.fn.blocks[b]).CondBr?
    requires CheckedSlot(t.fn, b, t.rst.entry[b]) == Some(s)
    requires w in Writes(t.fn, t.rst, b, f) && Slot(s) in w.1 && Has(w.1[Slot(s)], r)
    ensures (Slot(s) in f ==> Has(f[Slot(s)], r)) && TakenFor(t.fn, Last(t.fn.blocks[b]), w.0, r)
  {
    var icmp := Comparison(t.fn, Last(t.fn.blocks[b])).value;
    var signs := AbstractICmp(icmp.pred, icmp.x, icmp.y);
    if Slot(s) in f {
      JoinHas(f[Slot(s)], signs.0, r);
      JoinHas(f[Slot(s)], signs.1, r);
    }
  }

  /** And so is what a switch writes. */
  lemma SwitchTells(t: Task, b: nat, f: Ranges, w: (nat, Ranges), s: nat, r: Region)
    requires TaskOk(t) && b < |t.fn.blocks| && |t.fn.blocks[b]| > 0 && Last(t.fn.blocks[b]).Switch?
    requires CheckedSlot(t.fn, b, t.rst.entry[b]) == Some(s)
    requires w in Writes(t.fn, t.rst, b, f) && Slot(s) in w.1 && Has(w.1[Slot(s)], r)
    ensures (Slot(s) in f ==> Has(f[Slot(s)], r)) && TakenFor(t.fn, Last(t.fn.blocks[b]), w.0, r)
  {
    var cases := Last(t.fn.blocks[b]).cases;
    if w in CaseWrites(t.fn, t.rst, f, s, cases) {
      CaseWritesAre(t.fn, t.rst, f, s, cases);
      var k :| 0 <= k < |cases|
               && w in WriteTo(t.fn, t.rst, cases[k].1, s, RefinedRange(f, s, AbstractInteger(cases[k].0)));
      if Slot(s) in f { JoinHas(f[Slot(s)], AbstractInteger(cases[k].0), r); }
      assert Has(AbstractInteger(cases[k].0), r);
    }
  }

  /** What a terminator writes for a successor is about the slot it checks, and
      of signs that go there and that the slot could have, as far as known. */
  lemma WriteTells(t: Task, b: nat, f: Ranges, w: (nat, Ranges), v: Value, r: Region)
    requires TaskOk(t) && b < |t.fn.blocks| && |t.fn.blocks[b]| > 0 && IsConditional(Last(t.fn.blocks[b]))
    requires w in Writes(t.fn, t.rst, b, f) && v in w.1 && Has(w.1[v], r)
    ensures Checks(t, b, v) && (v in f ==> Has(f[v], r)) && TakenFor(t.fn, Last(t.fn.blocks[b]), w.0, r)
    ensures v in ReturnableAt(t.fn, t.rst, w.0) && w.0 in Successors(Last(t.fn.blocks[b]))
  {
    WriteShape(t.fn, t.rst, b, f, w);
    var s := CheckedSlot(t.fn, b, t.rst.entry[b]).value;
    assert v == Slot(s) by { assert v in w.1.Keys; }
    if Last(t.fn.blocks[b]).CondBr? {
      BranchTells(t, b, f, w, s, r);
    } else {
      SwitchTells(t, b, f, w, s, r);
    }
  }

  lemma CheckedIsCaused(t: Task, causes: Causes, b: nat, target: nat, v: Value, r: Region)
    requires TaskOk(t) && b < |t.fn.blocks| && |t.fn.blocks[b]| > 0 && IsConditional(Last(t.fn.blocks[b]))
    requires Checks(t, b, v) && TakenFor(t.fn, Last(t.fn.blocks[b]), target, r)
    requires target in Successors(Last(t.fn.blocks[b]))
    ensures Caused(t, causes, Point(target, 0), v, r)
  {
    assert BlockOk(t.fn, t.fn.blocks[b]);
    assert BlockOk(t.fn, t.fn.blocks[target]);
    Staying(t, causes, Point(b, |t.fn.blocks[b]| - 1), Point(target, 0), v, r);
  }

  lemma WritesCaused(t: Task, causes: Causes, b: nat, body: seq<Ranges>, k: nat)
    requires TaskOk(t) && b < |t.fn.blocks| && |body| == |t.fn.blocks[b]| && RowCaused(t, causes, b, body)
    requires k < |BlockWrites(t.fn, t.rst, b, body)|
    ensures var w := BlockWrites(t.fn, t.rst, b, body)[k]; FactCaused(t, causes, Point(w.0, 0), w.1)
  {
    var w := BlockWrites(t.fn, t.rst, b, body)[k];
    forall v, r: Region | v in w.1 && Has(w.1[v], r) ensures Caused(t, causes, Point(w.0, 0), v, r) {
      WriteTells(t, b, body[|body| - 2], w, v, r);
      CheckedIsCaused(t, causes, b, w.0, v, r);
    }
  }

  lemma {:induction false} SpreadCaused(t: Task, causes: Causes, ranges: RangeMap, entry: seq<Ranges>,
                                        ws: seq<(nat, Ranges)>)
    requires TaskOk(t)
    requires forall b :: 0 <= b < |entry| ==> FactCaused(t, causes, Point(b, 0), entry[b])
    requires forall k :: 0 <= k < |ws| ==> FactCaused(t, causes, Point(ws[k].0, 0), ws[k].1)
    ensures forall b :: 0 <= b < |entry| ==> FactCaused(t, causes, Point(b, 0), Spread(Sys(t, ranges), entry, ws)[b])
  {
    if ws != [] {
      var init, w := ws[..|ws| - 1], ws[|ws| - 1];
      SpreadCaused(t, causes, ranges, entry, init);
      if w.0 < |entry| {
        JoinCaused(t, causes, Point(w.0, 0), Spread(Sys(t, ranges), entry, init)[w.0], w.1);
      }
    }
  }

  // ----- Sweeps -----

  ghost predicate ProgressCaused(t: Task, causes: Causes, p: Progress)
    requires TaskOk(t)
  {
    StateCaused(t, causes, p.st) && RangesCaused(causes, p.ranges)
  }

  lemma EnvCaused(t: Task, causes: Causes, ranges: RangeMap)
    requires RangesCaused(causes, ranges)
    ensures RangesCaused(causes, Env(t.fn, ranges))
  {
  }

  lemma VisitCaused(t: Task, causes: Causes, ranges: RangeMap, st: State<Ranges>, b: nat)
    requires TaskOk(t) && Shape(t.fn, st) && b < |t.fn.blocks|
    requires StateCaused(t, causes, st) && RangesCaused(causes, ranges)
    ensures StateCaused(t, causes, Visit(Sys(t, ranges), st, b))
  {
    var sys := Sys(t, ranges);
    var next, x := Visit(sys, st, b), Gather(sys, st, b, |t.fn.blocks|);
    GatherCaused(t, causes, ranges, st, b);
    EnvCaused(t, causes, ranges);
    ChainCaused(t, causes, Env(t.fn, ranges), b, |t.fn.blocks[b]|, x);
    assert RowCaused(t, causes, b, next.body[b]);
    var mid, ws := st.entry[b := x], BlockWrites(t.fn, t.rst, b, next.body[b]);
    forall k | 0 <= k < |ws| ensures FactCaused(t, causes, Point(ws[k].0, 0), ws[k].1) {
      WritesCaused(t, causes, b, next.body[b], k);
    }
    SpreadCaused(t, causes, ranges, mid, ws);
    forall c | 0 <= c < |t.fn.blocks|
      ensures FactCaused(t, causes, Point(c, 0), next.entry[c]) && RowCaused(t, causes, c, next.body[c])
    {
      assert c != b ==> next.body[c] == st.body[c];
    }
  }

  /** The fact before the last instruction of a visited block. */
  lemma LastCaused(t: Task, causes: Causes, st: State<Ranges>, b: nat)
    requires TaskOk(t) && Shape(t.fn, st) && b < |t.fn.blocks| && StateCaused(t, causes, st)
    ensures |t.fn.blocks[b]| > 0
    ensures FactCaused(t, causes, Point(b, |t.fn.blocks[b]| - 1), Before(st, b, |t.fn.blocks[b]| - 1))
  {
    var blk := t.fn.blocks[b];
    assert BlockOk(t.fn, blk);
    if |blk| > 1 {
      assert RowCaused(t, causes, b, st.body[b]);
      assert CausedAfter(t, causes, Point(b, |blk| - 2), st.body[b][|blk| - 2]);
      assert Follows(t.fn, Point(b, |blk| - 2), Point(b, |blk| - 1));
    }
  }

  /** What a return adds to the range of its function: the signs of what it
      returns, and of pointers that may not be null both other signs. */
  lemma ReturnedHas(prog: Module, fn: Func, ranges: RangeMap, f: Ranges, v: Value, r: Region)
    ensures Has(ReturnedRange(prog, fn, ranges, f, v), r) <==>
              exists x :: Has(RangeOf(prog, fn, ranges, f, v), x)
                          && (x == r || (fn.returnsPointer && x != Null && r != Null))
  {
    var e := RangeOf(prog, fn, ranges, f, v);
    forall x: Region { JoinHas(e, NotZero, x); }
    if Intersects(e, NotZero) {
      assert Has(e, Negative) || Has(e, Positive);
    }
  }

  /** What a return adds to the range of its function may be returned. */
  lemma ReturnCaused(t: Task, causes: Causes, ranges: RangeMap, b: nat, f: Ranges, r: Region)
    requires TaskOk(t) && b < |t.fn.blocks| && |t.fn.blocks[b]| > 0 && Last(t.fn.blocks[b]).Ret?
    requires RangesCaused(causes, ranges) && FactCaused(t, causes, Point(b, |t.fn.blocks[b]| - 1), f)
    requires Has(ReturnedRange(t.prog, t.fn, ranges, f, Last(t.fn.blocks[b]).val), r)
    ensures MayReturn(t, causes, r)
  {
    var at, v := Point(b, |t.fn.blocks[b]| - 1), Last(t.fn.blocks[b]).val;
    ReturnedHas(t.prog, t.fn, ranges, f, v, r);
    var x :| Has(RangeOf(t.prog, t.fn, ranges, f, v), x) && (x == r || (t.fn.returnsPointer && x != Null && r != Null));
    RangeCaused(t, causes, ranges, at, f, v, x);
    assert Returns(t, causes, b, x);
  }

  lemma StepCaused(t: Task, causes: Causes, p: Progress, b: nat, q: Progress)
    requires Visits(t, p, b, q) && ClosedFor(t, causes) && ProgressCaused(t, causes, p)
    ensures ProgressCaused(t, causes, q)
  {
    VisitCaused(t, causes, p.ranges, p.st, b);
    LastCaused(t, causes, q.st, b);
    var f, ins := Before(q.st, b, |t.fn.blocks[b]| - 1), Last(t.fn.blocks[b]);
    forall g, r: Region | g in q.ranges && Has(q.ranges[g], r) ensures (g, r) in causes {
      if g == t.name && ins.Ret? {
        var e := ReturnedRange(t.prog, t.fn, p.ranges, f, ins.val);
        if g in p.ranges { JoinHas(p.ranges[g], e, r); }
        if Has(e, r) { ReturnCaused(t, causes, p.ranges, b, f, r); }
      }
    }
  }

  lemma NextCaused(t: Task, causes: Causes, run: seq<Progress>, j: nat)
    requires IsSweep(t, run) && j + 1 < |run| && ClosedFor(t, causes) && ProgressCaused(t, causes, run[j])
    ensures ProgressCaused(t, causes, run[j + 1])
  {
    assert StepsAt(t, run, j);
    StepCaused(t, causes, run[j], j, run[j + 1]);
  }

  lemma SweepCaused(t: Task, causes: Causes, run: seq<Progress>, k: nat)
    requires IsSweep(t, run) && k < |run| && ClosedFor(t, causes) && ProgressCaused(t, causes, run[0])
    ensures ProgressCaused(t, causes, run[k])
  {
    for j := 0 to k
      invariant ProgressCaused(t, causes, run[j])
    {
      NextCaused(t, causes, run, j);
    }
  }

  /** Whatever has causes, still has them at q if it had them at p. */
  ghost predicate KeepsCauses(t: Task, p: Progress, q: Progress) {
    TaskOk(t) && forall causes: Causes {:trigger ProgressCaused(t, causes, q)} ::
      ClosedFor(t, causes) && ProgressCaused(t, causes, p) ==> ProgressCaused(t, causes, q)
  }

  lemma SweepKeepsCauses(t: Task, run: seq<Progress>)
    requires IsSweep(t, run)
    ensures KeepsCauses(t, run[0], run[|run| - 1])
  {
    forall causes: Causes | ClosedFor(t, causes) && ProgressCaused(t, causes, run[0])
      ensures ProgressCaused(t, causes, run[|run| - 1])
    {
      SweepCaused(t, causes, run, |run| - 1);
    }
  }

  lemma CausesKept(t: Task, p: Progress, q: Progress, r: Progress)
    requires KeepsCauses(t, p, q) && KeepsCauses(t, q, r)
    ensures KeepsCauses(t, p, r)
  {
    forall causes: Causes | ClosedFor(t, causes) && ProgressCaused(t, causes, p) ensures ProgressCaused(t, causes, r) {
      assert ProgressCaused(t, causes, q);
    }
  }

  lemma NothingCaused(t: Task, causes: Causes)
    requires TaskOk(t)
    ensures StateCaused(t, causes, Uniform(t.fn, map[]))
  {
    var st := Uniform<Ranges>(t.fn, map[]);
    forall b | 0 <= b < |t.fn.blocks|
      ensures FactCaused(t, causes, Point(b, 0), st.entry[b]) && RowCaused(t, causes, b, st.body[b])
    {
      assert forall i :: 0 <= i < |st.body[b]| ==> st.body[b][i] == map[];
    }
  }
}
