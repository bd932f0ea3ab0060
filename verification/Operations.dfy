/** Long-running operations: the server's table, the background tasks that
    finish them, and the client that keeps a bounded number in flight
    (common/src/operations_service.cc, cli/operations/wait.py). */
module Operations {
  import IR
  import opened Sets

  type Response = string
  type Request = string
  type Id = nat

  datatype Operation = Operation(name: string, done: bool, response: Response)

  type Table = map<string, Operation>

  // ----- The table -----

  /** Once done, an operation is not undone, whatever order updates arrive in. */
  function Put(table: Table, name: string, op: Operation): Table {
    if name in table && table[name].done && !op.done then table else table[name := op]
  }

  /** Reading a finished operation forgets it. */
  function Read(table: Table, name: string): Table {
    if name in table && table[name].done then table - {name} else table
  }

  /** The table after updates in this order. */
  function Puts(table: Table, updates: seq<(string, Operation)>): Table {
    if updates == [] then table
    else
      var last := updates[|updates| - 1];
      Put(Puts(table, updates[..|updates| - 1]), last.0, last.1)
  }

  /** One of the first k updates of this name finishes the operation. */
  predicate FinishedIn(updates: seq<(string, Operation)>, name: string, k: nat)
    requires k <= |updates|
  {
    exists j {:trigger updates[j]} :: 0 <= j < k && updates[j].0 == name && updates[j].1.done
  }

  /** The first k updates of this name leave it finished. */
  predicate Finished(table: Table, updates: seq<(string, Operation)>, name: string, k: nat)
    requires k <= |updates|
  {
    (name in table && table[name].done) || FinishedIn(updates, name, k)
  }

  /** Whatever order updates arrive in, an operation is finished once it was there
      finished or some update finished it. */
  lemma {:induction false} FinishedIsFinished(table: Table, updates: seq<(string, Operation)>, name: string)
    ensures (name in Puts(table, updates) && Puts(table, updates)[name].done)
            <==> Finished(table, updates, name, |updates|)
  {
    if updates != [] {
      var k := |updates| - 1;
      FinishedIsFinished(table, updates[..k], name);
      assert FinishedIn(updates, name, k) <==> FinishedIn(updates[..k], name, k);
      assert FinishedIn(updates, name, |updates|) <==>
               FinishedIn(updates, name, k) || (updates[k].0 == name && updates[k].1.done);
    }
  }

  /** Update k is the one that lasts: it does not undo a finished operation, and
      later ones of its name would undo it. */
  predicate Lasts(table: Table, updates: seq<(string, Operation)>, k: nat)
    requires k < |updates|
  {
    && (updates[k].1.done || !Finished(table, updates, updates[k].0, k))
    && forall j {:trigger updates[j]} :: k < j < |updates| && updates[j].0 == updates[k].0 ==>
         updates[k].1.done && !updates[j].1.done
  }

  /** An operation is as the last update left it that did not undo it. */
  lemma {:induction false} LastOneLasts(table: Table, updates: seq<(string, Operation)>, k: nat)
    requires k < |updates| && Lasts(table, updates, k)
    ensures updates[k].0 in Puts(table, updates) && Puts(table, updates)[updates[k].0] == updates[k].1
  {
    var init, name := updates[..|updates| - 1], updates[k].0;
    assert FinishedIn(updates, name, k) <==> FinishedIn(init, name, k);
    if k == |init| {
      FinishedIsFinished(table, init, name);
    } else {
      assert updates[k] == init[k];
      assert forall j :: 0 <= j < |init| ==> init[j] == updates[j];
      LastOneLasts(table, init, k);
    }
  }

  /** Updates of other names, and such as would undo it, leave an operation as it
      is. */
  lemma {:induction false} OthersDoNotMatter(table: Table, updates: seq<(string, Operation)>, name: string)
    requires forall u :: u in updates && u.0 == name ==> name in table && table[name].done && !u.1.done
    ensures name in Puts(table, updates) <==> name in table
    ensures name in table ==> Puts(table, updates)[name] == table[name]
  {
    if updates != [] {
      assert updates[|updates| - 1] in updates;
      OthersDoNotMatter(table, updates[..|updates| - 1], name);
    }
  }

  /** Only reading a finished operation changes the table, which then does not
      have it any more. */
  lemma ReadForgets(table: Table, name: string, other: string)
    ensures other in Read(table, name) <==> other in table && !(other == name && table[name].done)
    ensures other in Read(table, name) ==> Read(table, name)[other] == table[other]
  {
  }

  class OperationsService {
    var operationProgress: Table

    constructor ()
      ensures operationProgress == map[]
    {
      operationProgress := map[];
    }

    method UpdateOperation(name: string, operation: Operation)
      modifies this
      ensures operationProgress == Put(old(operationProgress), name, operation)
    {
      if name in operationProgress {
        var existing := operationProgress[name];
        if existing.done && !operation.done {
          return;
        }
        operationProgress := operationProgress[name := operation];
      } else {
        operationProgress := operationProgress[name := operation];
      }
    }

    /** `None` stands for the error that the name is not known. */
    method GetOperation(name: string) returns (operation: IR.Option<Operation>)
      modifies this
      ensures operation == if name in old(operationProgress) then IR.Some(old(operationProgress)[name]) else IR.None
      ensures operationProgress == Read(old(operationProgress), name)
    {
      if name !in operationProgress {
        return IR.None;
      }
      operation := IR.Some(operationProgress[name]);
      if operation.value.done {
        operationProgress := operationProgress - {name};
      }
    }
  }

  // ----- The whole system, step by step -----

  /** The client's requests, the names the server gives to their tasks, and the
      limit on tasks in flight. */
  datatype Env = Env(requests: map<Id, Request>, names: map<Id, string>, maxTasks: nat)

  ghost predicate EnvOk(env: Env) {
    && env.names.Keys == env.requests.Keys && env.maxTasks >= 1
    && forall a, b :: a in env.names && b in env.names && env.names[a] == env.names[b] ==> a == b
  }

  predicate IsOurs(env: Env, name: string) {
    exists id :: id in env.names && env.names[id] == name
  }

  datatype Phase =
    | Looping                        // at the head of the client's outer loop
    | Sending(order: seq<Id>)        // requests not yet considered in this round
    | Polling(tasks: set<string>)    // tasks not yet polled in this round
    | Returned
    | Failed                         // a poll was answered by an error

  datatype Notice = Notice(id: Id, request: Request, operation: Operation)

  datatype State = State(
    table: Table,
    running: map<string, Id>,        // background tasks that have not finished
    results: map<Id, Response>,      // what finished tasks stored
    unsent: map<Id, Request>,
    toRemove: set<Id>,
    waiting: set<string>,
    taskId: map<string, Id>,
    finishedTasks: set<string>,
    notified: seq<Notice>,
    phase: Phase)

  ghost predicate Initial(env: Env, s: State) {
    && s.running == map[] && s.results == map[] && s.unsent == env.requests
    && s.toRemove == {} && s.waiting == {} && s.finishedTasks == {} && s.notified == [] && s.taskId == map[]
    && s.phase == Looping
    && forall name :: name in s.table ==> !IsOurs(env, name)
  }

  // The environment: a background task finishes with some response, or the
  // server does anything about the operations of others.

  function TaskFinishes(s: State, name: string, response: Response): State
    requires name in s.running
  {
    s.(table := Put(s.table, name, Operation(name, true, response)),
       running := s.running - {name},
       results := s.results[s.running[name] := response])
  }

  ghost predicate OthersAct(env: Env, s: State, next: State) {
    && next == s.(table := next.table)
    && forall name :: IsOurs(env, name) ==> (name in s.table <==> name in next.table)
                                            && (name in s.table ==> next.table[name] == s.table[name])
  }

  // The client.

  /** The order in which a round considers the requests is any order. */
  ghost predicate Enumerates(order: seq<Id>, ids: set<Id>) {
    && (forall id :: id in order <==> id in ids)
    && forall i, j :: 0 <= i < j < |order| ==> order[i] != order[j]
  }

  function EnterRound(s: State, order: seq<Id>): State {
    if s.waiting == {} && s.unsent == map[] then s.(phase := Returned)
    else s.(phase := Sending(order), toRemove := {})
  }

  /** Sends the next request, unless the limit is reached or none is left. */
  function SendNext(env: Env, s: State): State
    requires s.phase.Sending? && forall id :: id in s.phase.order ==> id in env.names && id in s.unsent
  {
    if |s.waiting| >= env.maxTasks || s.phase.order == [] then
      s.(unsent := s.unsent - s.toRemove, toRemove := {}, finishedTasks := {}, phase := Polling(s.waiting))
    else
      var id := s.phase.order[0];
      var name := env.names[id];
      s.(table := Put(s.table, name, Operation(name, false, "")),
         running := s.running[name := id],
         waiting := s.waiting + {name},
         taskId := s.taskId[name := id],
         toRemove := s.toRemove + {id},
         phase := Sending(s.phase.order[1..]))
  }

  function Poll(env: Env, s: State, task: string): State
    requires s.phase.Polling? && task in s.phase.tasks && task in s.taskId && s.taskId[task] in env.requests
  {
    var rest := s.phase.tasks - {task};
    if task !in s.table then s.(phase := Failed)
    else if s.table[task].done then
      s.(table := Read(s.table, task),
         finishedTasks := s.finishedTasks + {task},
         notified := s.notified + [Notice(s.taskId[task], env.requests[s.taskId[task]], s.table[task])],
         phase := Polling(rest))
    else s.(table := Read(s.table, task), phase := Polling(rest))
  }

  function EndRound(s: State): State {
    s.(waiting := s.waiting - s.finishedTasks, finishedTasks := {}, toRemove := {}, phase := Looping)
  }

  ghost predicate ClientStep(env: Env, s: State, next: State) {
    match s.phase
    case Looping => exists order :: Enumerates(order, s.unsent.Keys) && next == EnterRound(s, order)
    case Sending(rest) =>
      (forall id :: id in rest ==> id in env.names && id in s.unsent) && next == SendNext(env, s)
    case Polling(rest) =>
      if rest == {} then next == EndRound(s)
      else exists task ::
        task in rest && task in s.taskId && s.taskId[task] in env.requests && next == Poll(env, s, task)
    case Returned => false
    case Failed => false
  }

  ghost predicate Step(env: Env, s: State, next: State) {
    || (exists name, response :: name in s.running && next == TaskFinishes(s, name, response))
    || OthersAct(env, s, next)
    || ClientStep(env, s, next)
  }

  ghost predicate StepAt(env: Env, run: seq<State>, k: nat)
    requires k + 1 < |run|
  {
    Step(env, run[k], run[k + 1])
  }

  ghost predicate IsRun(env: Env, run: seq<State>) {
    && |run| > 0 && Initial(env, run[0])
    && forall k: nat :: k + 1 < |run| ==> StepAt(env, run, k)
  }

  // ----- What every run keeps -----

  /** Sent and not yet notified. */
  function InFlight(s: State): set<string> {
    s.waiting - s.finishedTasks
  }

  predicate WasNotified(s: State, id: Id) {
    IsNotifiedIn(s.notified, id)
  }

  predicate IsNotifiedIn(notified: seq<Notice>, id: Id) {
    exists k :: 0 <= k < |notified| && notified[k].id == id
  }

  /** Each request is unsent, in flight or notified, and just one of these. */
  ghost predicate Partitioned(env: Env, s: State) {
    && (forall id :: id in s.unsent ==> id in env.requests && s.unsent[id] == env.requests[id])
    && s.toRemove <= s.unsent.Keys
    && (forall id :: id in env.names ==>
          var unsent, sent := id in s.unsent && id !in s.toRemove, env.names[id] in InFlight(s);
          var told := WasNotified(s, id);
          (unsent || sent || told) && !(unsent && sent) && !(unsent && told) && !(sent && told))
    && (forall k :: 0 <= k < |s.notified| ==> s.notified[k].id in env.requests)
    && (forall i, j :: 0 <= i < j < |s.notified| ==> s.notified[i].id != s.notified[j].id)
  }

  /** A task in flight is in the table: running, or done with its result. */
  ghost predicate TaskOk(env: Env, s: State, task: string) {
    && task in s.taskId && s.taskId[task] in env.names && env.names[s.taskId[task]] == task
    && task in s.table
    && if task in s.running then s.running[task] == s.taskId[task] && !s.table[task].done
       else s.taskId[task] in s.results && s.table[task] == Operation(task, true, s.results[s.taskId[task]])
  }

  /** Notices carry their request and the result its own task stored. */
  ghost predicate NoticeOk(env: Env, s: State, n: Notice) {
    && n.id in env.names && n.id in env.requests && n.request == env.requests[n.id]
    && n.id in s.results && n.operation == Operation(env.names[n.id], true, s.results[n.id])
  }

  ghost predicate PhaseOk(env: Env, s: State) {
    match s.phase
    case Looping => s.toRemove == {} && s.finishedTasks == {}
    case Sending(rest) =>
      && s.finishedTasks == {}
      && (forall id :: id in rest ==> id in s.unsent && id !in s.toRemove)
      && forall i, j :: 0 <= i < j < |rest| ==> rest[i] != rest[j]
    case Polling(rest) => s.toRemove == {} && rest <= InFlight(s)
    case Returned => s.waiting == {} && s.unsent == map[] && s.finishedTasks == {}
    case Failed => false
  }

  /** The table holds exactly the tasks in flight, as far as it is ours. */
  ghost predicate TasksOk(env: Env, s: State) {
    && (forall task :: task in s.running ==> task in InFlight(s))
    && (forall task :: task in InFlight(s) ==> TaskOk(env, s, task))
    && (forall name :: name in s.table && IsOurs(env, name) ==> name in InFlight(s))
  }

  ghost predicate NoticesOk(env: Env, s: State) {
    forall k :: 0 <= k < |s.notified| ==> NoticeOk(env, s, s.notified[k])
  }

  ghost predicate Bounded(env: Env, s: State) {
    |s.waiting| <= env.maxTasks && s.finishedTasks <= s.waiting
  }

  ghost predicate Inv(env: Env, s: State) {
    Bounded(env, s) && TasksOk(env, s) && NoticesOk(env, s) && Partitioned(env, s) && PhaseOk(env, s)
  }

  lemma InitialInv(env: Env, s: State)
    requires EnvOk(env) && Initial(env, s)
    ensures Inv(env, s)
  {
  }

  /** The partition depends on the client's own state only. */
  lemma SamePartition(env: Env, s: State, next: State)
    requires Partitioned(env, s) && InFlight(next) == InFlight(s)
    requires next.unsent == s.unsent && next.toRemove == s.toRemove && next.notified == s.notified
    ensures Partitioned(env, next)
  {
    assert forall id :: WasNotified(next, id) <==> WasNotified(s, id);
  }

  lemma SameTasks(env: Env, s: State, next: State)
    requires TasksOk(env, s) && InFlight(next) == InFlight(s)
    requires next.table == s.table && next.running == s.running && next.results == s.results && next.taskId == s.taskId
    ensures TasksOk(env, next)
  {
    forall task | task in InFlight(next) ensures TaskOk(env, next, task) { assert TaskOk(env, s, task); }
  }

  lemma SameNotices(env: Env, s: State, next: State)
    requires NoticesOk(env, s) && next.notified == s.notified && next.results == s.results
    ensures NoticesOk(env, next)
  {
    forall k | 0 <= k < |next.notified| ensures NoticeOk(env, next, next.notified[k]) {
      assert NoticeOk(env, s, s.notified[k]);
    }
  }

  /** The client's own state stays. */
  lemma SamePhase(env: Env, s: State, next: State)
    requires Bounded(env, s) && PhaseOk(env, s)
    requires next == s.(table := next.table, running := next.running, results := next.results)
    ensures Bounded(env, next) && PhaseOk(env, next) && InFlight(next) == InFlight(s)
  {
  }

  // A background task finishes.

  lemma FinishedTasksOk(env: Env, s: State, name: string, response: Response)
    requires EnvOk(env) && TasksOk(env, s) && name in s.running
    ensures TasksOk(env, TaskFinishes(s, name, response))
  {
    var next := TaskFinishes(s, name, response);
    assert TaskOk(env, s, name) && InFlight(next) == InFlight(s);
    forall task | task in InFlight(next) ensures TaskOk(env, next, task) {
      assert TaskOk(env, s, task);
    }
  }

  /** A request in flight was not notified before. */
  lemma NotYetNotified(env: Env, s: State, id: Id)
    requires Partitioned(env, s) && id in env.names && env.names[id] in InFlight(s)
    ensures forall k :: 0 <= k < |s.notified| ==> s.notified[k].id != id
  {
    forall k | 0 <= k < |s.notified| ensures s.notified[k].id != id {
      assert WasNotified(s, s.notified[k].id);
    }
  }

  lemma ResultAdded(env: Env, s: State, next: State, id: Id)
    requires NoticesOk(env, s) && forall k :: 0 <= k < |s.notified| ==> s.notified[k].id != id
    requires next.notified == s.notified && next.results.Keys == s.results.Keys + {id}
    requires forall i :: i in s.results && i != id ==> next.results[i] == s.results[i]
    ensures NoticesOk(env, next)
  {
    forall k | 0 <= k < |next.notified| ensures NoticeOk(env, next, next.notified[k]) {
      assert NoticeOk(env, s, s.notified[k]);
    }
  }

  lemma FinishKeeps(env: Env, s: State, name: string, response: Response)
    requires EnvOk(env) && Inv(env, s) && name in s.running
    ensures Inv(env, TaskFinishes(s, name, response))
  {
    var next, id := TaskFinishes(s, name, response), s.running[name];
    SamePhase(env, s, next);
    FinishedTasksOk(env, s, name, response);
    assert TaskOk(env, s, name);
    NotYetNotified(env, s, id);
    ResultAdded(env, s, next, id);
    SamePartition(env, s, next);
  }

  lemma OthersKeep(env: Env, s: State, next: State)
    requires Inv(env, s) && OthersAct(env, s, next)
    ensures Inv(env, next)
  {
    forall task | task in InFlight(next) ensures TaskOk(env, next, task) {
      assert TaskOk(env, s, task) && IsOurs(env, task);
    }
    SameNotices(env, s, next);
    SamePartition(env, s, next);
  }

  // The client moves.

  lemma EnterPhase(env: Env, s: State, order: seq<Id>)
    requires PhaseOk(env, s) && s.phase == Looping && Enumerates(order, s.unsent.Keys)
    ensures var next := EnterRound(s, order); PhaseOk(env, next) && next == s.(phase := next.phase)
  {
  }

  /** Nothing but the phase changes. */
  lemma OnlyPhase(env: Env, s: State, next: State)
    requires Bounded(env, s) && TasksOk(env, s) && NoticesOk(env, s) && Partitioned(env, s)
    requires next == s.(phase := next.phase) && PhaseOk(env, next)
    ensures Inv(env, next)
  {
    assert InFlight(next) == InFlight(s);
    SameTasks(env, s, next);
    SameNotices(env, s, next);
    SamePartition(env, s, next);
  }

  lemma EnterKeeps(env: Env, s: State, order: seq<Id>)
    requires Inv(env, s) && s.phase == Looping && Enumerates(order, s.unsent.Keys)
    ensures Inv(env, EnterRound(s, order))
  {
    EnterPhase(env, s, order);
    OnlyPhase(env, s, EnterRound(s, order));
  }

  lemma RemoveSent(env: Env, s: State, next: State)
    requires Partitioned(env, s) && InFlight(next) == InFlight(s) && next.notified == s.notified
    requires next.unsent == s.unsent - s.toRemove && next.toRemove == {}
    ensures Partitioned(env, next)
  {
    assert forall id :: WasNotified(next, id) <==> WasNotified(s, id);
  }

  lemma StopSendingKeeps(env: Env, s: State)
    requires Inv(env, s) && s.phase.Sending? && (|s.waiting| >= env.maxTasks || s.phase.order == [])
    requires forall id :: id in s.phase.order ==> id in env.names && id in s.unsent
    ensures Inv(env, SendNext(env, s))
  {
    var next := SendNext(env, s);
    assert InFlight(next) == InFlight(s);
    SameTasks(env, s, next);
    SameNotices(env, s, next);
    RemoveSent(env, s, next);
  }

  /** A request that is sent moves from unsent to in flight. */
  lemma SendMovesOn(env: Env, s: State, next: State, id: Id)
    requires EnvOk(env) && Partitioned(env, s) && id in env.names && id in s.unsent && id !in s.toRemove
    requires InFlight(next) == InFlight(s) + {env.names[id]}
    requires next.unsent == s.unsent && next.toRemove == s.toRemove + {id} && next.notified == s.notified
    ensures Partitioned(env, next)
  {
    assert forall i :: WasNotified(next, i) <==> WasNotified(s, i);
  }

  lemma RestOfOrder(order: seq<Id>)
    requires order != [] && forall i, j :: 0 <= i < j < |order| ==> order[i] != order[j]
    ensures forall id :: id in order[1..] ==> id in order && id != order[0]
    ensures forall i, j :: 0 <= i < j < |order[1..]| ==> order[1..][i] != order[1..][j]
  {
    var rest := order[1..];
    forall id | id in rest ensures id in order && id != order[0] {
      var k :| 0 <= k < |rest| && rest[k] == id;
      assert order[k + 1] == id && order[0] != order[k + 1];
    }
  }

  /** The new task is in the table, running. */
  lemma SentTasksOk(env: Env, s: State, next: State, id: Id)
    requires EnvOk(env) && TasksOk(env, s) && id in env.names && env.names[id] !in InFlight(s)
    requires InFlight(next) == InFlight(s) + {env.names[id]} && next.results == s.results
    requires next.table == Put(s.table, env.names[id], Operation(env.names[id], false, ""))
    requires next.running == s.running[env.names[id] := id] && next.taskId == s.taskId[env.names[id] := id]
    ensures TasksOk(env, next)
  {
    var name := env.names[id];
    assert IsOurs(env, name) && name !in s.table;
    forall task | task in InFlight(next) ensures TaskOk(env, next, task) {
      if task != name { assert TaskOk(env, s, task); }
    }
  }

  lemma SendFresh(env: Env, s: State, id: Id)
    requires Partitioned(env, s) && id in env.names && id in s.unsent && id !in s.toRemove
    ensures env.names[id] !in InFlight(s)
  {
  }

  lemma SendCount(env: Env, s: State)
    requires Bounded(env, s) && s.phase.Sending? && |s.waiting| < env.maxTasks && s.phase.order != []
    requires forall id :: id in s.phase.order ==> id in env.names && id in s.unsent
    requires s.finishedTasks == {}
    ensures InFlight(SendNext(env, s)) == InFlight(s) + {env.names[s.phase.order[0]]} && Bounded(env, SendNext(env, s))
  {
  }

  lemma SendFacts(env: Env, s: State)
    requires EnvOk(env) && Inv(env, s) && s.phase.Sending? && |s.waiting| < env.maxTasks && s.phase.order != []
    requires forall id :: id in s.phase.order ==> id in env.names && id in s.unsent
    ensures var next, id := SendNext(env, s), s.phase.order[0];
            && id in env.names && id in s.unsent && id !in s.toRemove && env.names[id] !in InFlight(s)
            && InFlight(next) == InFlight(s) + {env.names[id]}
            && Bounded(env, next)
  {
    var id := s.phase.order[0];
    assert id in s.phase.order;
    SendFresh(env, s, id);
    SendCount(env, s);
  }

  lemma SendPhase(env: Env, s: State)
    requires PhaseOk(env, s) && s.phase.Sending? && |s.waiting| < env.maxTasks && s.phase.order != []
    requires forall id :: id in s.phase.order ==> id in env.names && id in s.unsent
    ensures PhaseOk(env, SendNext(env, s))
  {
    RestOfOrder(s.phase.order);
  }

  lemma SendKeeps(env: Env, s: State)
    requires EnvOk(env) && Inv(env, s) && s.phase.Sending? && |s.waiting| < env.maxTasks && s.phase.order != []
    requires forall id :: id in s.phase.order ==> id in env.names && id in s.unsent
    ensures Inv(env, SendNext(env, s))
  {
    var next, id := SendNext(env, s), s.phase.order[0];
    SendFacts(env, s);
    SentTasksOk(env, s, next, id);
    SameNotices(env, s, next);
    SendMovesOn(env, s, next, id);
    SendPhase(env, s);
  }

  /** A finished task moves from in flight to notified. */
  lemma PollMovesOn(env: Env, s: State, next: State, id: Id)
    requires EnvOk(env) && Partitioned(env, s) && id in env.names && env.names[id] in InFlight(s)
    requires InFlight(next) == InFlight(s) - {env.names[id]}
    requires next.unsent == s.unsent && next.toRemove == s.toRemove
    requires |next.notified| == |s.notified| + 1 && next.notified[..|s.notified|] == s.notified
    requires next.notified[|s.notified|].id == id
    ensures Partitioned(env, next)
  {
    NotYetNotified(env, s, id);
    NotifiedOneMore(s.notified, next.notified, id);
    assert forall i :: WasNotified(next, i) <==> WasNotified(s, i) || i == id;
  }

  lemma NotifiedOneMore(before: seq<Notice>, now: seq<Notice>, id: Id)
    requires |now| == |before| + 1 && now[..|before|] == before && now[|before|].id == id
    requires forall k :: 0 <= k < |before| ==> before[k].id != id
    ensures forall i :: IsNotifiedIn(now, i) <==> IsNotifiedIn(before, i) || i == id
    ensures (forall i, j :: 0 <= i < j < |before| ==> before[i].id != before[j].id) ==>
              forall i, j :: 0 <= i < j < |now| ==> now[i].id != now[j].id
    ensures forall k :: 0 <= k < |before| ==> now[k] == before[k]
  {
    assert forall k :: 0 <= k < |before| ==> now[k] == now[..|before|][k];
    forall i | IsNotifiedIn(before, i) ensures IsNotifiedIn(now, i) {
      var k :| 0 <= k < |before| && before[k].id == i;
      assert now[k].id == i;
    }
  }

  /** Reading the result of a task takes it, and nothing else, off the table. */
  lemma PolledTasksOk(env: Env, s: State, next: State, task: string)
    requires TasksOk(env, s) && task in InFlight(s) && task !in s.running
    requires InFlight(next) == InFlight(s) - {task} && next.table == s.table - {task}
    requires next.running == s.running && next.results == s.results && next.taskId == s.taskId
    ensures TasksOk(env, next)
  {
    forall t | t in InFlight(next) ensures TaskOk(env, next, t) { assert TaskOk(env, s, t); }
  }

  lemma PollDoneKeeps(env: Env, s: State, task: string)
    requires EnvOk(env) && Inv(env, s) && s.phase.Polling? && task in s.phase.tasks && TaskOk(env, s, task)
    requires task in s.taskId && s.taskId[task] in env.requests && s.table[task].done
    ensures Inv(env, Poll(env, s, task))
  {
    var next, id := Poll(env, s, task), s.taskId[task];
    assert InFlight(next) == InFlight(s) - {task};
    PolledTasksOk(env, s, next, task);
    PollMovesOn(env, s, next, id);
    OneNoticeMore(env, s, next);
  }

  lemma PollKeeps(env: Env, s: State, task: string)
    requires EnvOk(env) && Inv(env, s) && s.phase.Polling? && task in s.phase.tasks
    requires task in s.taskId && s.taskId[task] in env.requests
    ensures Inv(env, Poll(env, s, task))
  {
    var next := Poll(env, s, task);
    assert TaskOk(env, s, task);
    if s.table[task].done {
      PollDoneKeeps(env, s, task);
    } else {
      OnlyPhase(env, s, next);
    }
  }

  lemma OneNoticeMore(env: Env, s: State, next: State)
    requires NoticesOk(env, s) && next.results == s.results && |next.notified| == |s.notified| + 1
    requires next.notified[..|s.notified|] == s.notified && NoticeOk(env, next, next.notified[|s.notified|])
    ensures NoticesOk(env, next)
  {
    forall k | 0 <= k < |next.notified| ensures NoticeOk(env, next, next.notified[k]) {
      if k < |s.notified| {
        assert next.notified[..|s.notified|][k] == s.notified[k] && NoticeOk(env, s, s.notified[k]);
      }
    }
  }

  lemma EndKeeps(env: Env, s: State)
    requires Inv(env, s) && s.phase == Polling({})
    ensures Inv(env, EndRound(s))
  {
    var next := EndRound(s);
    assert InFlight(next) == InFlight(s) && next.waiting <= s.waiting;
    SubsetSize(next.waiting, s.waiting);
    SameTasks(env, s, next);
    SameNotices(env, s, next);
    SamePartition(env, s, next);
  }

  lemma StepKeeps(env: Env, s: State, next: State)
    requires EnvOk(env) && Inv(env, s) && Step(env, s, next)
    ensures Inv(env, next)
  {
    if name, response :| name in s.running && next == TaskFinishes(s, name, response) {
      FinishKeeps(env, s, name, response);
    } else if OthersAct(env, s, next) {
      OthersKeep(env, s, next);
    } else {
      ClientKeeps(env, s, next);
    }
  }

  lemma ClientKeeps(env: Env, s: State, next: State)
    requires EnvOk(env) && Inv(env, s) && ClientStep(env, s, next)
    ensures Inv(env, next)
  {
    match s.phase
    case Looping =>
      var order :| Enumerates(order, s.unsent.Keys) && next == EnterRound(s, order);
      EnterKeeps(env, s, order);
    case Sending(order) =>
      if |s.waiting| >= env.maxTasks || order == [] {
        StopSendingKeeps(env, s);
      } else {
        SendKeeps(env, s);
      }
    case Polling(tasks) =>
      if tasks == {} {
        EndKeeps(env, s);
      } else {
        var task :| task in tasks && task in s.taskId && s.taskId[task] in env.requests && next == Poll(env, s, task);
        PollKeeps(env, s, task);
      }
  }

  lemma {:induction false} RunKeeps(env: Env, run: seq<State>, k: nat)
    requires EnvOk(env) && IsRun(env, run) && k < |run|
    ensures Inv(env, run[k])
  {
    if k == 0 {
      InitialInv(env, run[0]);
    } else {
      RunKeeps(env, run, k - 1);
      assert StepAt(env, run, k - 1);
      StepKeeps(env, run[k - 1], run[k]);
    }
  }

  /** In every interleaving: at most the allowed number of tasks is in flight,
      no poll is answered by an error, each request is unsent, in flight or
      notified and only one of these, and every notice carries its request and
      the result of its own task. */
  lemma Safety(env: Env, run: seq<State>, k: nat)
    requires EnvOk(env) && IsRun(env, run) && k < |run|
    ensures |InFlight(run[k])| <= env.maxTasks && run[k].phase != Failed
    ensures Partitioned(env, run[k])
    ensures forall n :: n in run[k].notified ==> NoticeOk(env, run[k], n)
  {
    RunKeeps(env, run, k);
    SubsetSize(InFlight(run[k]), run[k].waiting);
  }

  /** When the client returns, every request was notified exactly once. */
  lemma ExactlyOnce(env: Env, run: seq<State>, k: nat, id: Id)
    requires EnvOk(env) && IsRun(env, run) && k < |run| && run[k].phase == Returned && id in env.requests
    ensures exists i :: 0 <= i < |run[k].notified| && run[k].notified[i].id == id
    ensures forall i, j :: 0 <= i < j < |run[k].notified| ==> run[k].notified[i].id != run[k].notified[j].id
  {
    RunKeeps(env, run, k);
    assert WasNotified(run[k], id);
  }

  /** The client is never stuck before it returns: it can always move. */
  lemma NeverStuck(env: Env, run: seq<State>, k: nat)
    requires EnvOk(env) && IsRun(env, run) && k < |run| && run[k].phase != Returned
    ensures exists next :: ClientStep(env, run[k], next)
  {
    RunKeeps(env, run, k);
    var s := run[k];
    match s.phase
    case Looping =>
      var order := AnyOrder(s.unsent.Keys);
      assert ClientStep(env, s, EnterRound(s, order));
    case Sending(order) => assert ClientStep(env, s, SendNext(env, s));
    case Polling(tasks) =>
      if tasks == {} {
        assert ClientStep(env, s, EndRound(s));
      } else {
        var task :| task in tasks;
        assert TaskOk(env, s, task);
        assert ClientStep(env, s, Poll(env, s, task));
      }
  }

  lemma {:induction false} AnyOrder(ids: set<Id>) returns (order: seq<Id>)
    ensures Enumerates(order, ids)
  {
    if ids == {} {
      order := [];
    } else {
      var id :| id in ids;
      var rest := AnyOrder(ids - {id});
      order := rest + [id];
    }
  }

  // ----- The limit is used in full -----

  /** While it sends, the client has not passed over any request; while it polls,
      as many tasks are waited for as may be, or nothing is left to be sent. */
  ghost predicate Filled(env: Env, s: State) {
    && (s.phase.Sending? ==> forall id :: id in s.unsent ==> id in s.phase.order || id in s.toRemove)
    && (s.phase.Polling? ==> |s.waiting| >= env.maxTasks || s.unsent == map[])
  }

  lemma SendFills(env: Env, s: State)
    requires s.phase.Sending? && Filled(env, s)
    requires forall id :: id in s.phase.order ==> id in env.names && id in s.unsent
    ensures Filled(env, SendNext(env, s))
  {
    if |s.waiting| < env.maxTasks && s.phase.order != [] {
      assert forall id :: id in s.phase.order ==> id == s.phase.order[0] || id in s.phase.order[1..];
    }
  }

  lemma StepFills(env: Env, s: State, next: State)
    requires Filled(env, s) && Step(env, s, next)
    ensures Filled(env, next)
  {
    if name, response :| name in s.running && next == TaskFinishes(s, name, response) {
    } else if OthersAct(env, s, next) {
    } else {
      MoveFills(env, s, next);
    }
  }

  lemma MoveFills(env: Env, s: State, next: State)
    requires Filled(env, s) && ClientStep(env, s, next)
    ensures Filled(env, next)
  {
    match s.phase
    case Looping =>
      var order :| Enumerates(order, s.unsent.Keys) && next == EnterRound(s, order);
    case Sending(_) => SendFills(env, s);
    case Polling(rest) =>
      if rest != {} {
        var task :| task in rest && task in s.taskId && s.taskId[task] in env.requests && next == Poll(env, s, task);
        assert next.waiting == s.waiting && next.unsent == s.unsent;
      }
    case Returned =>
    case Failed =>
  }

  /** In all interleavings: whenever the client polls, the limit is used in full,
      or all requests have been sent. */
  lemma LimitIsUsed(env: Env, run: seq<State>, k: nat)
    requires EnvOk(env) && IsRun(env, run) && k < |run|
    ensures Filled(env, run[k])
    ensures run[k].phase.Polling? && run[k].unsent != map[] ==> |run[k].waiting| == env.maxTasks
  {
    for j := 0 to k
      invariant Filled(env, run[j])
    {
      assert StepAt(env, run, j);
      StepFills(env, run[j], run[j + 1]);
    }
    RunKeeps(env, run, k);
  }
}
