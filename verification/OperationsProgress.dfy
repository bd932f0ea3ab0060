/** The polling client returns: every move but a poll of an unfinished task
    brings it closer. */
module OperationsProgress {
  import opened Operations

  predicate Moved(s: State, next: State) {
    next.phase != s.phase
  }

  /** The client polled a task that has not finished. */
  predicate IdlePoll(s: State, next: State) {
    s.phase.Polling? && next.phase.Polling? && Moved(s, next) && next.finishedTasks == s.finishedTasks
  }

  /** The task that was polled is still running. */
  predicate PollsRunning(s: State, next: State)
    requires s.phase.Polling?
  {
    exists task :: task in s.phase.tasks && next.phase == Polling(s.phase.tasks - {task}) && task in s.running
  }

  function Move(s: State, next: State): nat {
    if Moved(s, next) then 1 else 0
  }

  /** What an idle poll costs: the round may have to be repeated. */
  function Delay(s: State, next: State): nat {
    if IdlePoll(s, next) then 4 else 0
  }

  /** The moves of the client in a run. */
  function Moves(run: seq<State>): nat {
    if |run| <= 1 then 0
    else Moves(run[..|run| - 1]) + Move(run[|run| - 2], run[|run| - 1])
  }

  function IdlePolls(run: seq<State>): nat {
    if |run| <= 1 then 0
    else IdlePolls(run[..|run| - 1]) + if IdlePoll(run[|run| - 2], run[|run| - 1]) then 1 else 0
  }

  // ----- What is left to do -----

  /** A round that has polled something has earned the next one. */
  function PhaseCost(s: State): nat {
    match s.phase
    case Looping => 3
    case Sending(_) => 2
    case Polling(tasks) => if tasks == s.waiting then 1 else 4
    case Returned => 0
    case Failed => 0
  }

  function Remaining(s: State): nat {
    5 * |s.unsent.Keys - s.toRemove| + 4 * |InFlight(s)| + PhaseCost(s)
  }

  /** A round has something to wait for. */
  predicate Busy(s: State) {
    && (s.phase.Sending? && s.waiting == {} ==> s.phase.order != [])
    && (s.phase.Polling? ==> s.waiting != {})
  }

  lemma EnterCosts(s: State, order: seq<Id>)
    requires s.phase == Looping && s.toRemove == {} && Enumerates(order, s.unsent.Keys)
    ensures Busy(EnterRound(s, order)) && Remaining(EnterRound(s, order)) + 1 <= Remaining(s)
  {
    if s.waiting == {} && s.unsent.Keys != {} {
      var id :| id in s.unsent.Keys;
      assert id in order;
    }
  }

  lemma StopCosts(env: Env, s: State)
    requires env.maxTasks >= 1 && Busy(s) && s.phase.Sending? && s.finishedTasks == {}
    requires |s.waiting| >= env.maxTasks || s.phase.order == []
    requires forall id :: id in s.phase.order ==> id in env.names && id in s.unsent
    ensures Busy(SendNext(env, s)) && Remaining(SendNext(env, s)) + 1 <= Remaining(s)
  {
    var next := SendNext(env, s);
    assert next.unsent.Keys - next.toRemove == s.unsent.Keys - s.toRemove;
  }

  lemma SendCosts(s: State, next: State, id: Id, name: string)
    requires s.phase.Sending? && next.phase.Sending? && id in s.unsent && id !in s.toRemove
    requires next.unsent == s.unsent && next.toRemove == s.toRemove + {id}
    requires name !in InFlight(s) && InFlight(next) == InFlight(s) + {name}
    ensures Remaining(next) + 1 <= Remaining(s)
  {
    assert next.unsent.Keys - next.toRemove == (s.unsent.Keys - s.toRemove) - {id};
    assert id in s.unsent.Keys - s.toRemove;
  }

  lemma DoneCosts(s: State, next: State, task: string)
    requires s.phase.Polling? && next.phase == Polling(s.phase.tasks - {task}) && task in InFlight(s)
    requires next.unsent == s.unsent && next.toRemove == s.toRemove && next.waiting == s.waiting
    requires next.finishedTasks == s.finishedTasks + {task}
    ensures Busy(next) && Remaining(next) + 1 <= Remaining(s) && !IdlePoll(s, next)
  {
    assert task in next.finishedTasks && task !in s.finishedTasks;
    assert InFlight(next) == InFlight(s) - {task};
  }

  lemma IdleCosts(s: State, next: State, task: string)
    requires s.phase.Polling? && next.phase == Polling(s.phase.tasks - {task}) && task in s.phase.tasks
    requires next.unsent == s.unsent && next.toRemove == s.toRemove && next.waiting == s.waiting
    requires next.finishedTasks == s.finishedTasks && task in s.waiting
    ensures Busy(next) && Remaining(next) + 1 <= Remaining(s) + 4 && IdlePoll(s, next)
  {
    assert task !in next.phase.tasks;
    assert InFlight(next) == InFlight(s);
  }

  lemma PollCosts(env: Env, s: State, task: string)
    requires s.phase.Polling? && task in s.phase.tasks && s.phase.tasks <= s.waiting && task !in s.finishedTasks
    requires task in s.taskId && s.taskId[task] in env.requests && task in s.table
    ensures var next := Poll(env, s, task);
            Busy(next) && Remaining(next) + 1 <= Remaining(s) + Delay(s, next)
    ensures IdlePoll(s, Poll(env, s, task)) ==> !s.table[task].done
  {
    if s.table[task].done {
      DoneCosts(s, Poll(env, s, task), task);
    } else {
      IdleCosts(s, Poll(env, s, task), task);
    }
  }

  lemma EndCosts(s: State)
    requires Busy(s) && s.phase == Polling({}) && s.toRemove == {}
    ensures Busy(EndRound(s)) && Remaining(EndRound(s)) + 1 <= Remaining(s)
  {
    assert InFlight(EndRound(s)) == InFlight(s);
  }

  /** What the invariant says of a task about to be polled. */
  lemma AboutToPoll(env: Env, s: State, task: string)
    requires Inv(env, s) && s.phase.Polling? && task in s.phase.tasks
    ensures s.phase.tasks <= s.waiting && task !in s.finishedTasks
    ensures task in s.table && (!s.table[task].done ==> task in s.running)
  {
    assert task in InFlight(s) && TaskOk(env, s, task);
  }

  lemma SendingCosts(env: Env, s: State)
    requires EnvOk(env) && Inv(env, s) && Busy(s) && s.phase.Sending?
    requires forall id :: id in s.phase.order ==> id in env.names && id in s.unsent
    ensures Busy(SendNext(env, s)) && Remaining(SendNext(env, s)) + 1 <= Remaining(s)
  {
    if |s.waiting| >= env.maxTasks || s.phase.order == [] {
      StopCosts(env, s);
    } else {
      var id := s.phase.order[0];
      SendFacts(env, s);
      SendCosts(s, SendNext(env, s), id, env.names[id]);
    }
  }

  lemma PollingCosts(env: Env, s: State, next: State)
    requires Inv(env, s) && Busy(s) && s.phase.Polling? && ClientStep(env, s, next)
    ensures Busy(next) && Remaining(next) + 1 <= Remaining(s) + Delay(s, next)
    ensures IdlePoll(s, next) ==> PollsRunning(s, next)
  {
    var tasks := s.phase.tasks;
    if tasks == {} {
      EndCosts(s);
    } else {
      var task :| task in tasks && task in s.taskId && s.taskId[task] in env.requests && next == Poll(env, s, task);
      AboutToPoll(env, s, task);
      PollCosts(env, s, task);
    }
  }

  lemma ClientCosts(env: Env, s: State, next: State)
    requires EnvOk(env) && Inv(env, s) && Busy(s) && ClientStep(env, s, next)
    ensures Busy(next) && Remaining(next) + 1 <= Remaining(s) + Delay(s, next)
    ensures IdlePoll(s, next) ==> PollsRunning(s, next)
  {
    match s.phase
    case Looping =>
      var order :| Enumerates(order, s.unsent.Keys) && next == EnterRound(s, order);
      EnterCosts(s, order);
    case Sending(_) => SendingCosts(env, s);
    case Polling(_) => PollingCosts(env, s, next);
  }

  lemma OthersCost(s: State, next: State)
    requires next == s.(table := next.table, running := next.running, results := next.results)
    ensures Busy(s) ==> Busy(next)
    ensures Remaining(next) == Remaining(s) && !Moved(s, next)
  {
  }

  /** A move of the client leaves less to do, unless it polls a task that is
      still running; what others do leaves as much. */
  lemma StepCosts(env: Env, s: State, next: State)
    requires EnvOk(env) && Inv(env, s) && Busy(s) && Step(env, s, next)
    ensures Busy(next) && Remaining(next) + Move(s, next) <= Remaining(s) + Delay(s, next)
    ensures IdlePoll(s, next) ==> PollsRunning(s, next)
  {
    if ClientStep(env, s, next) {
      ClientCosts(env, s, next);
    } else {
      OthersCost(s, next);
    }
  }

  lemma InitialCosts(env: Env, s: State)
    requires Initial(env, s)
    ensures Busy(s) && Remaining(s) == 5 * |env.requests| + 3
  {
    assert s.unsent.Keys - s.toRemove == env.requests.Keys;
    assert InFlight(s) == {};
  }

  lemma PrefixIsRun(env: Env, run: seq<State>, n: nat)
    requires IsRun(env, run) && 0 < n <= |run|
    ensures IsRun(env, run[..n])
  {
    forall k: nat | k + 1 < n ensures StepAt(env, run[..n], k) { assert StepAt(env, run, k); }
  }

  lemma StepCostsAt(env: Env, run: seq<State>, k: nat)
    requires EnvOk(env) && IsRun(env, run) && k + 1 < |run| && Busy(run[k])
    ensures Busy(run[k + 1])
    ensures Remaining(run[k + 1]) + Move(run[k], run[k + 1]) <= Remaining(run[k]) + Delay(run[k], run[k + 1])
    ensures IdlePoll(run[k], run[k + 1]) ==> PollsRunning(run[k], run[k + 1])
  {
    RunKeeps(env, run, k);
    assert StepAt(env, run, k);
    StepCosts(env, run[k], run[k + 1]);
  }

  lemma {:induction false} RunCosts(env: Env, run: seq<State>)
    requires EnvOk(env) && IsRun(env, run)
    ensures Busy(run[|run| - 1])
    ensures Moves(run) + Remaining(run[|run| - 1]) <= 5 * |env.requests| + 3 + 4 * IdlePolls(run)
  {
    var n := |run| - 1;
    if n == 0 {
      InitialCosts(env, run[0]);
    } else {
      PrefixIsRun(env, run, n);
      RunCosts(env, run[..n]);
      StepCostsAt(env, run, n - 1);
    }
  }

  /** The client moves at most five times for each request, three times more,
      and four times for each poll of a task that is still running.  As it can
      move until it returns, it returns once tasks do not keep it waiting. */
  lemma ClientReturns(env: Env, run: seq<State>)
    requires EnvOk(env) && IsRun(env, run)
    ensures Moves(run) <= 5 * |env.requests| + 3 + 4 * IdlePolls(run)
    ensures Moves(run) == 5 * |env.requests| + 3 + 4 * IdlePolls(run) ==> run[|run| - 1].phase == Returned
    ensures forall k: nat :: k + 1 < |run| && IdlePoll(run[k], run[k + 1]) ==> PollsRunning(run[k], run[k + 1])
  {
    RunCosts(env, run);
    Safety(env, run, |run| - 1);
    forall k: nat | k + 1 < |run| && IdlePoll(run[k], run[k + 1]) ensures PollsRunning(run[k], run[k + 1]) {
      BusyAt(env, run, k);
      StepCostsAt(env, run, k);
    }
  }

  lemma BusyAt(env: Env, run: seq<State>, k: nat)
    requires EnvOk(env) && IsRun(env, run) && k < |run|
    ensures Busy(run[k])
  {
    PrefixIsRun(env, run, k + 1);
    RunCosts(env, run[..k + 1]);
  }
}
