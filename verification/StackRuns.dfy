/** From single frames to whole programs: a property of frames that every
    instruction keeps, calls being assumed to return good values, holds of
    every frame of every run, and every value returned is good. */
module StackRuns {
  import opened IR
  import opened Exec
  import opened FreshChecks
  import opened ReturnRange

  /** The returned-values facts of every function. */
  type AllReturned = map<string, ReturnedFacts>

  /** The frame is at a call of the defined function `g`. */
  predicate Calls(prog: Module, fr: Frame, g: string) {
    && g in prog && fr.name in prog && InFunc(prog[fr.name], fr.at)
    && At(prog[fr.name], fr.at).Call? && At(prog[fr.name], fr.at).callee == Direct(g)
  }

  ghost predicate GoodResult(prog: Module, good: (string, int) -> bool, fr: Frame, c: int) {
    forall g :: Calls(prog, fr, g) ==> good(g, c)
  }

  predicate FrameReadsWell(prog: Module, returned: AllReturned, fr: Frame) {
    fr.name in prog && fr.name in returned ==> ReadsWell(prog[fr.name], returned[fr.name], fr)
  }

  ghost predicate Laws(prog: Module, returned: AllReturned, ok: Frame -> bool, good: (string, int) -> bool) {
    && (forall fr :: ok(fr) ==> fr.name in prog)
    && (forall fr, c, next :: ok(fr) && FrameStep(prog[fr.name], fr, c) == Some(next)
                              && GoodResult(prog, good, fr, c) && FrameReadsWell(prog, returned, fr)
          ==> ok(next))
    && (forall fr, g, args :: ok(fr) && Calls(prog, fr, g) ==> ok(Entry(g, args)))
    && (forall fr :: ok(fr) && Returning(prog[fr.name], fr).Some?
          ==> good(fr.name, Returning(prog[fr.name], fr).value.n))
  }

  /** What the innermost frame is about to compare can be told by sign. */
  predicate TopReadsWell(prog: Module, returned: AllReturned, st: Stack) {
    st != [] ==> FrameReadsWell(prog, returned, st[|st| - 1])
  }

  /** No unsigned comparison with a constant that decides a check of a
      returnable slot meets a negative integer. */
  ghost predicate RunReadsWell(prog: Module, returned: AllReturned, run: seq<Stack>) {
    forall k :: 0 <= k < |run| ==> TopReadsWell(prog, returned, run[k])
  }

  /** All frames are fine, and each waits for the one above it. */
  ghost predicate StackOk(prog: Module, ok: Frame -> bool, st: Stack) {
    && |st| > 0
    && (forall i :: 0 <= i < |st| ==> ok(st[i]))
    && (forall i :: 0 <= i < |st| - 1 ==> Calls(prog, st[i], st[i + 1].name))
  }

  lemma ReplaceTop(prog: Module, ok: Frame -> bool, st: Stack, next: Stack)
    requires StackOk(prog, ok, st) && |next| == |st| && next[..|st| - 1] == st[..|st| - 1]
    requires ok(next[|st| - 1]) && next[|st| - 1].name == st[|st| - 1].name
    ensures StackOk(prog, ok, next)
  {
    forall i | 0 <= i < |st| - 1 ensures next[i] == st[i] {
      assert next[..|st| - 1][i] == st[..|st| - 1][i];
    }
    forall i | 0 <= i < |next| - 1 ensures Calls(prog, next[i], next[i + 1].name) {
      assert Calls(prog, st[i], st[i + 1].name);
    }
  }

  lemma DropTop(prog: Module, ok: Frame -> bool, st: Stack)
    requires StackOk(prog, ok, st) && |st| > 1
    ensures StackOk(prog, ok, st[..|st| - 1])
  {
    var rest := st[..|st| - 1];
    forall i | 0 <= i < |rest| - 1 ensures Calls(prog, rest[i], rest[i + 1].name) {
      assert Calls(prog, st[i], st[i + 1].name);
    }
  }

  lemma PushFrame(prog: Module, ok: Frame -> bool, st: Stack, fr: Frame)
    requires StackOk(prog, ok, st) && ok(fr) && Calls(prog, st[|st| - 1], fr.name)
    ensures StackOk(prog, ok, st + [fr])
  {
    var next := st + [fr];
    forall i | 0 <= i < |next| - 1 ensures Calls(prog, next[i], next[i + 1].name) {
      if i < |st| - 1 { assert Calls(prog, st[i], st[i + 1].name); }
    }
  }

  lemma ReturnOk(prog: Module, returned: AllReturned, ok: Frame -> bool, good: (string, int) -> bool,
                 st: Stack, c: int, next: Stack)
    requires Laws(prog, returned, ok, good) && StackOk(prog, ok, st) && Step(prog, st, c) == Some(next)
    requires ok(st[|st| - 1]) && At(prog[st[|st| - 1].name], st[|st| - 1].at).Ret?
    ensures StackOk(prog, ok, next)
  {
    var last := |st| - 1;
    var fr := st[last];
    DropTop(prog, ok, st);
    var caller, n := st[last - 1], Returning(prog[fr.name], fr).value.n;
    assert Calls(prog, st[last - 1], st[last - 1 + 1].name);
    assert ok(caller) && GoodResult(prog, good, caller, n);
    assert FrameStep(prog[caller.name], caller, n) == Some(next[last - 1]);
    ReplaceTop(prog, ok, st[..last], next);
  }

  lemma StepOk(prog: Module, returned: AllReturned, ok: Frame -> bool, good: (string, int) -> bool,
               st: Stack, c: int, next: Stack)
    requires Laws(prog, returned, ok, good) && StackOk(prog, ok, st) && Step(prog, st, c) == Some(next)
    requires TopReadsWell(prog, returned, st)
    ensures StackOk(prog, ok, next)
  {
    var last := |st| - 1;
    var fr := st[last];
    assert ok(fr);
    var ins := At(prog[fr.name], fr.at);
    if ins.Ret? {
      ReturnOk(prog, returned, ok, good, st, c, next);
    } else if ins.Call? && ins.callee.Direct? && ins.callee.name in prog {
      assert Calls(prog, fr, ins.callee.name);
      PushFrame(prog, ok, st, Entry(ins.callee.name, EvalAll(fr, ins.args).value));
    } else {
      assert GoodResult(prog, good, fr, c);
      assert FrameStep(prog[fr.name], fr, c) == Some(next[last]);
      ReplaceTop(prog, ok, st, next);
    }
  }

  /** What the innermost frame is about to return is good. */
  ghost predicate ReturnsGood(prog: Module, good: (string, int) -> bool, st: Stack) {
    st != [] && st[|st| - 1].name in prog ==>
      var fr := st[|st| - 1];
      Returning(prog[fr.name], fr).Some? ==> good(fr.name, Returning(prog[fr.name], fr).value.n)
  }

  lemma RunsReturnGood(prog: Module, returned: AllReturned, ok: Frame -> bool, good: (string, int) -> bool,
                       run: seq<Stack>)
    requires Laws(prog, returned, ok, good) && IsRun(prog, run) && ok(run[0][0]) && RunReadsWell(prog, returned, run)
    ensures forall k :: 0 <= k < |run| ==> ReturnsGood(prog, good, run[k])
  {
    for k := 0 to |run| - 1
      invariant StackOk(prog, ok, run[k])
      invariant forall j :: 0 <= j <= k ==> ReturnsGood(prog, good, run[j])
    {
      assert StepsTo(prog, run[k], run[k + 1]);
      var c: int :| Step(prog, run[k], c) == Some(run[k + 1]);
      assert TopReadsWell(prog, returned, run[k]);
      StepOk(prog, returned, ok, good, run[k], c, run[k + 1]);
    }
  }
}
