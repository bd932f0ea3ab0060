/** The return range of `ExampleFunction`. */
module ExampleRange {
  import opened IR
  import opened Signs
  import opened Sweep
  import opened ReturnRange
  import opened RangeSweeps
  import opened RangeSolution
  import opened ExampleFunction

  /** The function as the range pass looks at it, in any program. */
  function ExampleTask(prog: Module): Task {
    Task(prog, "f", Example(), ExampleFunction.ReturnedFacts())
  }

  lemma ReturnsAreCovered(t: Task, st: State<Ranges>, ranges: RangeMap, b: nat)
    requires Consistent(t, st, ranges) && t.fn == Example() && b in {1, 3, 5}
    ensures t.name in ranges
    ensures BlockAt(b) == [Ret(Int(0))] ==> Has(ranges[t.name], Null)
    ensures BlockAt(b) == [Ret(Int(-1))] ==> Has(ranges[t.name], Negative)
    ensures BlockAt(b) == [Ret(Int(1))] ==> Has(ranges[t.name], Positive)
  {
    assert t.fn.blocks[b] == BlockAt(b);
    assert ReturnCovered(t, st, ranges, b);
    var v := Last(BlockAt(b)).val;
    assert v !in CopyKeys(t.fn);
    var r := ReturnedRange(t.prog, t.fn, ranges, map[], v);
    assert r == AbstractInteger(v.n) && Below(r, ranges[t.name]);
  }

  /** Whatever ranges solve its equations, its own is top. */
  lemma OnlyTopSolves(t: Task, ranges: RangeMap)
    requires t.fn == Example() && Solved(t, ranges)
    ensures t.name in ranges && ranges[t.name] == Top
  {
    var st :| Consistent(t, st, ranges);
    ReturnsAreCovered(t, st, ranges, 1);
    ReturnsAreCovered(t, st, ranges, 3);
    ReturnsAreCovered(t, st, ranges, 5);
    Extensional(ranges[t.name], Top);
  }

  lemma NothingTransfers(prog: Module, ranges: RangeMap, b: nat, i: nat)
    requires b < 7 && i < |BlockAt(b)| && TaskOk(ExampleTask(prog))
    ensures Transfer(prog, Example(), ExampleFunction.ReturnedFacts(), ranges, Point(b, i), map[]) == map[]
  {
    assert Example().blocks[b] == BlockAt(b);
  }

  lemma NothingReturned(prog: Module, b: nat)
    requires b < 7 && TaskOk(ExampleTask(prog))
    ensures ReturnCovered(ExampleTask(prog), Nothing(Example()), map["f" := Top], b)
  {
    assert Example().blocks[b] == BlockAt(b);
    forall r: Sign ensures Below(r, Top) {}
  }

  /** And top does. */
  lemma TopSolves(prog: Module)
    ensures Solved(ExampleTask(prog), map["f" := Top])
  {
    var t, st, ranges := ExampleTask(prog), Nothing(Example()), map["f" := Top];
    ExampleIsWellFormed();
    RowsFit(b => ReturnableAfter(b), (b, i) => Returnable(b));
    forall at | InFunc(t.fn, at) ensures TransferHolds(t, st, ranges, at) {
      assert t.fn.blocks[at.block] == BlockAt(at.block);
      NothingTransfers(prog, Env(t.fn, ranges), at.block, at.index);
    }
    forall b: nat | b < 7 ensures CheckHolds(t, st, b) && ReturnCovered(t, st, ranges, b) {
      assert t.fn.blocks[b] == BlockAt(b);
      NothingReturned(prog, b);
    }
    assert Consistent(t, st, ranges);
  }
}
