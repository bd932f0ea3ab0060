/** Under which results of which called functions each point executes: the
    forward pass of eesi/src/return_constraints_pass.cc. */
module ReturnConstraints {
  import opened IR
  import opened ICmps
  import opened Signs
  import opened SignFacts
  import opened Shapes
  import opened Sweep
  import Propagation = ReturnPropagation

  /** A constraint per called function's name. */
  type Names = SignFacts.Fact<string>

  type PropagationFacts = State<Propagation.Fact>

  function CalleeName(c: Callee): string {
    match c
    case Unresolved => ""
    case Direct(g) => g
  }

  /** The functions whose results an instruction's value may be, going by the
      propagation fact after it. */
  function Reaching(fn: Func, pst: PropagationFacts, v: Value): set<string>
    requires Covers(fn, pst) && IsInstruction(fn, v)
  {
    set w | w in Propagation.Held(pst.body[v.at.block][v.at.index], v)
            && IsInstruction(fn, w) && At(fn, w.at).Call? :: CalleeName(At(fn, w.at).callee)
  }

  /** The functions whose results a terminator tests. */
  function Tested(fn: Func, pst: PropagationFacts, ins: Instr): set<string>
    requires Covers(fn, pst)
  {
    match ins
    case CondBr(_, _, _) =>
      var icmp := Comparison(fn, ins);
      if icmp.None? then {}
      else if IsInstruction(fn, icmp.value.x) then Reaching(fn, pst, icmp.value.x)
      else if IsInstruction(fn, icmp.value.y) then Reaching(fn, pst, icmp.value.y)
      else {}
    case Switch(cond, cases, _) =>
      if cases != [] && IsInstruction(fn, cond) then Reaching(fn, pst, cond) else {}
    case _ => {}
  }

  function Killed(f: Names, names: set<string>): Names {
    f + map n | n in names :: Bottom
  }

  /** The fact after instruction `ins`, from the fact before it. */
  function Transfer(fn: Func, pst: PropagationFacts, ins: Instr, f: Names): Names
    requires Covers(fn, pst)
  {
    match ins
    case Call(callee, _) => f[CalleeName(callee) := Top]
    case CondBr(_, _, _) => Killed(f, Tested(fn, pst, ins))
    case Switch(_, _, _) => Killed(f, Tested(fn, pst, ins))
    case _ => f
  }

  function RefinedAt(f: Names, n: string, e: Sign): Sign {
    if n in f then Signs.Meet(e, f[n]) else e
  }

  /** The constraints of the tested functions on an edge taken when their
      result is described by `e`. */
  function Refined(f: Names, names: set<string>, e: Sign): Names {
    map n | n in names :: RefinedAt(f, n, e)
  }

  function CaseWrites(f: Names, names: set<string>, cases: seq<(int, nat)>): seq<(nat, Names)> {
    if cases == [] then []
    else
      var last := cases[|cases| - 1];
      CaseWrites(f, names, cases[..|cases| - 1]) + [(last.1, Refined(f, names, AbstractInteger(last.0)))]
  }

  /** What a terminator writes directly into the facts its successors start
      with, from the fact before it. */
  function Writes(fn: Func, pst: PropagationFacts, ins: Instr, f: Names): seq<(nat, Names)>
    requires Covers(fn, pst)
  {
    match ins
    case CondBr(_, t, e) =>
      var icmp := Comparison(fn, ins);
      if icmp.None? then [] else
      var signs := AbstractICmp(icmp.value.pred, icmp.value.x, icmp.value.y);
      var names := Tested(fn, pst, ins);
      [(t, Refined(f, names, signs.0)), (e, Refined(f, names, signs.1))]
    case Switch(_, cases, _) => CaseWrites(f, Tested(fn, pst, ins), cases)
    case _ => []
  }

  /** Every name a fact of this function can mention. */
  ghost function CalledNames(fn: Func): set<string> {
    set b, i | 0 <= b < |fn.blocks| && 0 <= i < |fn.blocks[b]| && fn.blocks[b][i].Call?
      :: CalleeName(fn.blocks[b][i].callee)
  }

  ghost function Stepper(fn: Func, pst: PropagationFacts, b: nat): (nat, Names) -> Names
    requires Covers(fn, pst)
  {
    (i: nat, f: Names) => if InFunc(fn, Point(b, i)) then Transfer(fn, pst, fn.blocks[b][i], f) else f
  }

  ghost function BlockWrites(fn: Func, pst: PropagationFacts, b: nat, body: seq<Names>): seq<(nat, Names)>
    requires Covers(fn, pst)
  {
    if b < |fn.blocks| && |body| == |fn.blocks[b]| >= 2 && IsTest(Last(fn.blocks[b]))
    then Writes(fn, pst, Last(fn.blocks[b]), body[|body| - 2]) else []
  }

  lemma BlockWritesAre(fn: Func, pst: PropagationFacts, b: nat, body: seq<Names>)
    requires Covers(fn, pst) && b < |fn.blocks| && |body| == |fn.blocks[b]| && BlockOk(fn, fn.blocks[b])
    ensures BlockWrites(fn, pst, b, body)
            == if IsTest(Last(fn.blocks[b])) then Writes(fn, pst, Last(fn.blocks[b]), body[|body| - 2]) else []
  {
  }

  ghost function Problem(fn: Func, pst: PropagationFacts): System<Names, (string, Option<Region>)>
    requires Covers(fn, pst)
  {
    System(
      |fn.blocks|,
      (x: Names, y: Names) => Joined(x, y),
      (x: Names) => Atoms(x),
      Universe(CalledNames(fn)),
      (b: nat) => Universe(CalledNames(fn)),
      (p: nat, b: nat) => Edge(fn, p, b),
      (p: nat, b: nat, body: seq<Names>) => if body == [] then map[] else body[|body| - 1],
      (b: nat, x: Names) => if b < |fn.blocks| then Chain(Stepper(fn, pst, b), |fn.blocks[b]|, x) else [],
      (b: nat, body: seq<Names>) => BlockWrites(fn, pst, b, body))
  }

  lemma TestedAreCalled(fn: Func, pst: PropagationFacts, ins: Instr)
    requires Covers(fn, pst)
    ensures Tested(fn, pst, ins) <= CalledNames(fn)
  {
  }

  lemma {:induction false} CaseWritesAre(f: Names, names: set<string>, cases: seq<(int, nat)>)
    ensures |CaseWrites(f, names, cases)| == |cases|
    ensures forall k :: 0 <= k < |cases| ==>
              CaseWrites(f, names, cases)[k] == (cases[k].1, Refined(f, names, AbstractInteger(cases[k].0)))
  {
    if cases != [] {
      CaseWritesAre(f, names, cases[..|cases| - 1]);
    }
  }

  lemma ProblemIsLawful(fn: Func, pst: PropagationFacts)
    requires WellFormed(fn) && Covers(fn, pst)
    ensures Laws(Problem(fn, pst))
  {
    var sys, keys := Problem(fn, pst), CalledNames(fn);
    forall x, y ensures sys.enc(sys.join(x, y)) == sys.enc(x) + sys.enc(y) { AtomsJoin(x, y); }
    forall x, y | sys.enc(x) == sys.enc(y) ensures x == y { AtomsInjective(x, y); }
    forall b: nat, x | b < sys.n && FactOk(sys, x) ensures BodyOk(sys, sys.trace(b, x)) {
      forall i: nat, y | i < |fn.blocks[b]| && FactOk(sys, y) ensures FactOk(sys, Stepper(fn, pst, b)(i, y)) {
        AtomsWithin(y, keys);
        TestedAreCalled(fn, pst, fn.blocks[b][i]);
        AtomsWithin(Transfer(fn, pst, fn.blocks[b][i], y), keys);
      }
      ChainBodyOk(sys, Stepper(fn, pst, b), |fn.blocks[b]|, x);
    }
    forall p: nat, b: nat, body | p < sys.n && b < sys.n && BodyOk(sys, body)
      ensures EntryOk(sys, b, sys.flow(p, b, body)) {
      if body != [] { assert FactOk(sys, body[|body| - 1]); }
    }
    forall b: nat, body | b < sys.n && BodyOk(sys, body) ensures WritesOk(sys, sys.writes(b, body)) {
      BlockWritesOk(fn, pst, b, body);
    }
  }

  lemma BlockWritesOk(fn: Func, pst: PropagationFacts, b: nat, body: seq<Names>)
    requires WellFormed(fn) && Covers(fn, pst) && b < |fn.blocks|
    ensures WritesOk(Problem(fn, pst), BlockWrites(fn, pst, b, body))
  {
    var sys, ws := Problem(fn, pst), BlockWrites(fn, pst, b, body);
    assert BlockOk(fn, fn.blocks[b]);
    var ins := Last(fn.blocks[b]);
    TestedAreCalled(fn, pst, ins);
    forall k | 0 <= k < |ws| ensures ws[k].0 < sys.n && EntryOk(sys, ws[k].0, ws[k].1) {
      if ins.Switch? {
        CaseWritesAre(body[|body| - 2], Tested(fn, pst, ins), ins.cases);
        assert ins.cases[k].1 in CaseTargets(ins.cases);
      }
      assert ws[k].0 in Successors(ins);
      AtomsWithin(ws[k].1, CalledNames(fn));
    }
  }

  /** A first sweep that changes nothing has met no test, for a test leaves a
      bottom entry behind: there was nothing to write. */
  lemma QuietFirstSweep(fn: Func, pst: PropagationFacts, st: State<Names>)
    requires WellFormed(fn) && Covers(fn, pst)
    requires Ok(Problem(fn, pst), st) && !ChangedTo(Problem(fn, pst), st, |fn.blocks|)
    requires forall b, i :: 0 <= b < |st.body| && 0 <= i < |st.body[b]| ==> st.body[b][i] == map[]
    ensures AllWritten(Problem(fn, pst), st)
  {
    var sys := Problem(fn, pst);
    QuietBodies(sys, st, sys.n);
    forall b: nat | b < sys.n ensures Written(sys, st, b) {
      assert IsTrace(sys, b, st.body[b]);
      var x :| st.body[b] == sys.trace(b, x);
      assert forall i :: 0 <= i < |st.body[b]| ==> st.body[b][i] == map[];
      TestsLeaveEntries(fn, pst, b, x, st.body[b]);
      NothingTested(fn, pst, st, b);
    }
  }

  lemma TestsLeaveEntries(fn: Func, pst: PropagationFacts, b: nat, x: Names, body: seq<Names>)
    requires WellFormed(fn) && Covers(fn, pst) && b < |fn.blocks|
    requires body == Chain(Stepper(fn, pst, b), |fn.blocks[b]|, x)
    requires forall i :: 0 <= i < |body| ==> body[i] == map[]
    ensures BlockOk(fn, fn.blocks[b]) && Tested(fn, pst, Last(fn.blocks[b])) == {}
  {
    assert BlockOk(fn, fn.blocks[b]);
    var blk := fn.blocks[b];
    ChainEquation(Stepper(fn, pst, b), |blk|, x, |blk| - 1);
    var names := Tested(fn, pst, Last(blk));
    var before := if |blk| == 1 then x else body[|blk| - 2];
    assert body[|blk| - 1] == Transfer(fn, pst, Last(blk), before);
    assert names <= Killed(before, names).Keys;
    assert body[|blk| - 1].Keys == {};
  }

  lemma NothingTested(fn: Func, pst: PropagationFacts, st: State<Names>, b: nat)
    requires WellFormed(fn) && Covers(fn, pst) && Ok(Problem(fn, pst), st) && b < |fn.blocks|
    requires BlockOk(fn, fn.blocks[b]) && Tested(fn, pst, Last(fn.blocks[b])) == {}
    ensures Written(Problem(fn, pst), st, b)
  {
    var ws, ins := BlockWrites(fn, pst, b, st.body[b]), Last(fn.blocks[b]);
    BlockWritesOk(fn, pst, b, st.body[b]);
    forall k | 0 <= k < |ws| ensures ws[k].1 == map[] {
      if ins.Switch? {
        CaseWritesAre(st.body[b][|st.body[b]| - 2], {}, ins.cases);
      }
    }
  }

  // ----- The pass -----

  class ReturnConstraintsPass {
    const fn: Func
    const propagation: PropagationFacts
    var entry: seq<Names>       // the fact before each block's first instruction
    var outs: seq<seq<Names>>   // the fact after each instruction, by block

    function Facts(): State<Names>
      reads this
    {
      State(entry, outs)
    }

    predicate Shaped()
      reads this
    {
      && WellFormed(fn) && Covers(fn, propagation)
      && |entry| == |outs| == |fn.blocks|
      && forall b :: 0 <= b < |fn.blocks| ==> |outs[b]| == |fn.blocks[b]|
    }

    /** No fact inside a block is known yet. */
    predicate Blank()
      reads this
    {
      forall b, i :: 0 <= b < |outs| && 0 <= i < |outs[b]| ==> outs[b][i] == map[]
    }

    ghost predicate Valid()
      reads this
    {
      Shaped() && Ok(Problem(fn, propagation), Facts())
      && (Blank() || AllWritten(Problem(fn, propagation), Facts()))
    }

    constructor (fn: Func, propagation: PropagationFacts)
      requires WellFormed(fn) && Covers(fn, propagation)
      ensures Valid() && this.fn == fn && this.propagation == propagation
      ensures Facts() == Uniform(fn, map[])
    {
      this.fn := fn;
      this.propagation := propagation;
      entry := seq(|fn.blocks|, _ => map[]);
      outs := seq(|fn.blocks|, b requires 0 <= b < |fn.blocks| => seq(|fn.blocks[b]|, _ => map[]));
    }

    /** Sweeps until a sweep changes no fact inside a block, although direct
        writes to successors do not count as changes. */
    method RunOnFunction()
      requires Valid()
      modifies this
      ensures Valid() && Stable(Problem(fn, propagation), Facts())
      ensures SweptFrom(Problem(fn, propagation), old(Facts()), Facts())
    {
      ghost var sys := Problem(fn, propagation);
      ProblemIsLawful(fn, propagation);
      NotSweptYet(sys, Facts());
      var changed := true;
      while changed
        invariant Valid() && SweptFrom(sys, old(Facts()), Facts())
        invariant !changed ==> Stable(sys, Facts())
        decreases Missing(sys, Facts()), if Stale(sys, Facts()) then 1 else 0, if changed then 1 else 0
      {
        SweepProgresses(sys, Facts());
        QuietSweepIsStable(sys, Facts());
        SweptFurther(sys, old(Facts()), Facts());
        if Blank() && !ChangedTo(sys, Facts(), |fn.blocks|) {
          QuietFirstSweep(fn, propagation, Facts());
        }
        changed := VisitBlocks();
      }
    }

    method VisitBlocks() returns (changed: bool)
      requires Shaped()
      modifies this
      ensures Shaped()
      ensures Facts() == SweepTo(Problem(fn, propagation), old(Facts()), |fn.blocks|)
      ensures changed == ChangedTo(Problem(fn, propagation), old(Facts()), |fn.blocks|)
    {
      ghost var sys, start := Problem(fn, propagation), Facts();
      changed := false;
      for b := 0 to |fn.blocks|
        invariant Shaped()
        invariant Facts() == SweepTo(sys, start, b) && changed == ChangedTo(sys, start, b)
      {
        var blockChanged := JoinAndVisit(b);
        changed := blockChanged || changed;
      }
    }

    method JoinAndVisit(b: nat) returns (changed: bool)
      requires Shaped() && b < |fn.blocks|
      modifies this
      ensures Shaped()
      ensures Facts() == Visit(Problem(fn, propagation), old(Facts()), b)
      ensures changed == (outs[b] != old(outs)[b])
    {
      // Join over predecessor blocks
      for p := 0 to |fn.blocks|
        invariant outs == old(outs)
        invariant entry == old(entry)[b := Gather(Problem(fn, propagation), old(Facts()), b, p)]
      {
        if Edge(fn, p, b) {
          var joined := SignFacts.Join(entry[b], outs[p][|outs[p]| - 1]);
          entry := entry[b := joined];
        }
      }
      ghost var entryJoined := entry[b];
      changed := VisitBlock(b);
      JoinAllIsSpread(Problem(fn, propagation), old(entry)[b := entryJoined], BlockWrites(fn, propagation, b, outs[b]));
    }

    method VisitBlock(b: nat) returns (changed: bool)
      requires Shaped() && b < |fn.blocks|
      modifies this
      ensures Shaped()
      ensures outs == old(outs)[b := Chain(Stepper(fn, propagation, b), |fn.blocks[b]|, old(entry)[b])]
      ensures entry == JoinAll(old(entry), BlockWrites(fn, propagation, b, outs[b]))
      ensures changed == (outs[b] != old(outs)[b])
    {
      changed := false;
      ghost var step := Stepper(fn, propagation, b);
      var row := outs[b];
      for i := 0 to |fn.blocks[b]|
        invariant entry == old(entry) && outs == old(outs) && Halfway(step, entry[b], outs[b], row, i, changed)
      {
        var after := Transfer(fn, propagation, fn.blocks[b][i], if i == 0 then entry[b] else row[i - 1]);
        OneFurther(step, entry[b], outs[b], row, i, changed, after);
        changed := changed || after != row[i];
        row := row[i := after];
      }
      AllTheWay(step, entry[b], outs[b], row, changed);
      outs := outs[b := row];
      WriteToSuccessors(b);
    }

    /** Joins the refined constraints of the tested functions into the facts
        that the successors of b start with. */
    method WriteToSuccessors(b: nat)
      requires Shaped() && b < |fn.blocks|
      modifies this`entry
      ensures entry == JoinAll(old(entry), BlockWrites(fn, propagation, b, outs[b]))
    {
      assert BlockOk(fn, fn.blocks[b]);
      var blk := fn.blocks[b];
      BlockWritesAre(fn, propagation, b, outs[b]);
      if IsTest(Last(blk)) {
        WriteFrom(Last(blk), outs[b][|blk| - 2]);
      }
    }

    method WriteFrom(ins: Instr, before: Names)
      requires Shaped() && forall t :: t in Successors(ins) ==> t < |entry|
      modifies this`entry
      ensures entry == JoinAll(old(entry), Writes(fn, propagation, ins, before))
    {
      var names := Tested(fn, propagation, ins);
      match ins
      case CondBr(_, onTrue, onFalse) =>
        assert onTrue in Successors(ins) && onFalse in Successors(ins);
        var icmp := Comparison(fn, ins);
        if icmp.Some? {
          var signs := AbstractICmp(icmp.value.pred, icmp.value.x, icmp.value.y);
          JoinInto(onTrue, before, names, signs.0);
          JoinInto(onFalse, before, names, signs.1);
          ghost var v, w := (onTrue, Refined(before, names, signs.0)), (onFalse, Refined(before, names, signs.1));
          JoinOne(old(entry), v);
          JoinOne(JoinAll(old(entry), [v]), w);
          JoinAllAppend(old(entry), [v], [w]);
          assert [v] + [w] == [v, w];
        }
      case Switch(_, cases, default) =>
        assert CaseTargets(cases) <= Successors(ins);
        WriteCases(cases, before, names);
      case _ =>
    }

    method WriteCases(cases: seq<(int, nat)>, before: Names, names: set<string>)
      requires forall t :: t in CaseTargets(cases) ==> t < |entry|
      modifies this`entry
      ensures entry == JoinAll(old(entry), CaseWrites(before, names, cases))
    {
      for k := 0 to |cases|
        invariant |entry| == |old(entry)|
        invariant entry == JoinAll(old(entry), CaseWrites(before, names, cases[..k]))
      {
        assert cases[k].1 in CaseTargets(cases);
        assert cases[..k + 1][..k] == cases[..k];
        ghost var w := (cases[k].1, Refined(before, names, AbstractInteger(cases[k].0)));
        JoinAllAppend(old(entry), CaseWrites(before, names, cases[..k]), [w]);
        JoinOne(entry, w);
        JoinInto(cases[k].1, before, names, AbstractInteger(cases[k].0));
      }
      assert cases[..|cases|] == cases;
    }

    /** Joins into block t's first fact what holds on an edge to t, one tested
        function after the other. */
    method JoinInto(t: nat, before: Names, names: set<string>, e: Sign)
      requires t < |entry|
      modifies this`entry
      ensures entry == old(entry)[t := Joined(old(entry)[t], Refined(before, names, e))]
    {
      var rest := names;
      RefiningNothing(old(entry)[t], before, e);
      while rest != {}
        invariant rest <= names && |entry| == |old(entry)|
        invariant forall b :: 0 <= b < |entry| && b != t ==> entry[b] == old(entry)[b]
        invariant entry[t] == Joined(old(entry)[t], Refined(before, names - rest, e))
      {
        var n :| n in rest;
        RefiningOneMore(old(entry)[t], before, names - rest, n, e);
        var joined := SignFacts.Join(entry[t], map[n := if n in before then Signs.Meet(e, before[n]) else e]);
        entry := entry[t := joined];
        assert names - (rest - {n}) == (names - rest) + {n};
        rest := rest - {n};
      }
      assert names - rest == names;
    }
  }

  lemma RefiningNothing(x: Names, f: Names, e: Sign)
    ensures Joined(x, Refined(f, {}, e)) == x
  {
  }

  lemma RefiningOneMore(x: Names, f: Names, names: set<string>, n: string, e: Sign)
    requires n !in names
    ensures Joined(Joined(x, Refined(f, names, e)), map[n := RefinedAt(f, n, e)])
            == Joined(x, Refined(f, names + {n}, e))
  {
    var one, more := Refined(f, names, e), Refined(f, names + {n}, e);
    assert more.Keys == one.Keys + {n} && more[n] == RefinedAt(f, n, e);
    assert forall m :: m in one ==> more[m] == one[m];
  }
}
