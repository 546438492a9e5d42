/** What each board call answers, stores and records, field by field, and what that
    makes of the dependency theorems for the caller of `create`. */
module KanbanCalls {
  import opened Types
  import opened Sorting
  import opened KanbanState
  import opened KanbanBoard
  import opened KanbanRuns
  import opened KanbanClaims

  // ---- Single calls ----

  /** The edge table, state by state. */
  lemma EdgesByState(s: TaskState)
    ensures forall t :: IsLegalTransition(s, t)
                        <==> t in match s
                                  case Backlog => {Todo}
                                  case Todo => {Backlog, Ready}
                                  case Ready => {Backlog, Running}
                                  case Running => {Todo, Blocked, Done}
                                  case Blocked => {Todo, Running, Done}
                                  case Done => {Archived}
                                  case Archived => {}
  {}

  /** No other row is touched, and of its own row a call leaves title, dependencies and
      creation time alone. */
  ghost predicate OnlyRow(b: Board, c: Board, id: TaskId) {
    && id in b.tasks && c.tasks.Keys == b.tasks.Keys
    && (forall t :: t in b.tasks && t != id ==> c.tasks[t] == b.tasks[t])
    && c.tasks[id].title == b.tasks[id].title && c.tasks[id].dependsOn == b.tasks[id].dependsOn
    && c.tasks[id].createdAt == b.tasks[id].createdAt
  }

  lemma CreateStores(b: Board, id: TaskId, task: NewTask, at: Timestamp)
    ensures var (c, r) := Step(b, Create(id, task, at));
            && (r.Ok? <==> id !in b.tasks) && (r.Err? ==> c == b && r.error.Storage?)
            && (r.Ok? ==>
                  && c.history == b.history && c.tasks.Keys == b.tasks.Keys + {id}
                  && (forall t :: t in b.tasks ==> c.tasks[t] == b.tasks[t])
                  && c.tasks[id].title == task.title && c.tasks[id].state == Backlog && c.tasks[id].actor == Some(task.actor)
                  && c.tasks[id].dependsOn == task.dependsOn && c.tasks[id].blockReason == None && c.tasks[id].createdAt == at)
  {}

  lemma TransitionMoves(b: Board, id: TaskId, to: TaskState, actor: ActorId, reason: Option<string>, at: Timestamp)
    ensures var (c, r) := Step(b, Transition(id, to, actor, reason, at));
            && (r == Err(NotFound(id)) <==> id !in b.tasks)
            && (forall s, u :: r == Err(IllegalTransition(s, u))
                               <==> id in b.tasks && s == b.tasks[id].state && u == to && !IsLegalTransition(s, to))
            && (r.Ok? <==> id in b.tasks && IsLegalTransition(b.tasks[id].state, to)
                           && (to == Ready ==> forall d :: d in b.tasks[id].dependsOn ==> d in b.tasks && b.tasks[d].state == Done))
            && (r.Err? ==> c == b)
            && (r.Ok? ==>
                  OnlyRow(b, c, id) && c.tasks[id].state == to && c.tasks[id].actor == None
                  && c.tasks[id].blockReason == b.tasks[id].blockReason
                  && c.history == b.history + [StateChange(id, b.tasks[id].state, to, actor, at, reason)])
  {
    if id in b.tasks {
      DependencyFailureMeaning(b.tasks, b.tasks[id].dependsOn);
      DependencyFailureKinds(b.tasks, b.tasks[id].dependsOn);
      assert forall d :: d in b.tasks[id].dependsOn ==> (Satisfied(b.tasks, d) <==> d in b.tasks && b.tasks[d].state == Done);
    }
  }

  lemma {:induction false} DependencyFailureKinds(tasks: map<TaskId, Row>, deps: seq<TaskId>)
    ensures var e := DependencyFailure(tasks, deps);
            e.Some? ==> e.value == DependenciesNotDone || (e.value.NotFound? && e.value.id !in tasks)
  {
    if deps != [] {
      DependencyFailureKinds(tasks, deps[1..]);
    }
  }

  lemma BlockMoves(b: Board, id: TaskId, actor: ActorId, why: BlockReason, at: Timestamp)
    ensures var (c, r) := Step(b, Block(id, actor, why, at));
            && (r == Err(NotFound(id)) <==> id !in b.tasks)
            && (r.Ok? <==> id in b.tasks && b.tasks[id].state == Running)
            && (id in b.tasks && b.tasks[id].state != Running ==> r == Err(IllegalTransition(b.tasks[id].state, Blocked)))
            && (r.Err? ==> c == b)
            && (r.Ok? ==>
                  OnlyRow(b, c, id) && c.tasks[id].state == Blocked && c.tasks[id].blockReason == Some(why)
                  && c.tasks[id].actor == b.tasks[id].actor
                  && c.history == b.history + [StateChange(id, Running, Blocked, actor, at, Some(why.reason))])
  {}

  lemma ClaimTakes(b: Board, id: TaskId, worker: ActorId)
    ensures var (c, r) := Step(b, Claim(id, worker));
            && (r.Ok? <==> id in b.tasks && b.tasks[id].state == Ready && b.tasks[id].actor == None)
            && (r.Err? ==> r.error == AlreadyClaimed && c == b)
            && (r.Ok? ==>
                  OnlyRow(b, c, id) && c.tasks[id].actor == Some(worker) && c.tasks[id].state == Ready
                  && c.tasks[id].blockReason == b.tasks[id].blockReason && c.history == b.history)
  {}

  /** On every run the first claim after an entry into Ready succeeds, whoever makes it. */
  lemma FirstClaimSucceeds(ops: seq<Op>, t: TaskId, mover: ActorId, reason: Option<string>, at: Timestamp, worker: ActorId)
    requires Step(Run(ops), Transition(t, Ready, mover, reason, at)).1.Ok?
    ensures var entered := ops + [Transition(t, Ready, mover, reason, at)];
            Step(Run(entered), Claim(t, worker)).1.Ok?
            && forall late :: Step(Run(entered + [Claim(t, worker)]), Claim(t, late)).1 == Err(AlreadyClaimed)
  {
    var entered := ops + [Transition(t, Ready, mover, reason, at)];
    assert entered[..|ops|] == ops;
    TransitionMoves(Run(ops), t, Ready, mover, reason, at);
    ClaimTakes(Run(entered), t, worker);
    assert (entered + [Claim(t, worker)])[..|entered|] == entered;
    forall late
      ensures Step(Run(entered + [Claim(t, worker)]), Claim(t, late)).1 == Err(AlreadyClaimed)
    {
      ClaimTakes(Run(entered + [Claim(t, worker)]), t, late);
    }
  }

  /** A task's history holds exactly its rows, each as often as the table does. */
  lemma {:induction false} HistoryHoldsRows(h: seq<StateChange>, t: TaskId, row: StateChange)
    ensures multiset(HistoryOf(h, t))[row] == if row.task == t then multiset(h)[row] else 0
  {
    if h != [] {
      HistoryHoldsRows(h[..|h| - 1], t, row);
      assert h == h[..|h| - 1] + [h[|h| - 1]];
    }
  }

  // ---- Listing ----

  lemma ListingIsOldestFirst(ids: seq<TaskId>, tasks: map<TaskId, Row>, i: nat, j: nat)
    requires InListingOrder(ids, tasks) && i < j < |ids|
    ensures ids[i] in tasks && ids[j] in tasks && ids[i] != ids[j]
    ensures tasks[ids[i]].createdAt < tasks[ids[j]].createdAt
            || (tasks[ids[i]].createdAt == tasks[ids[j]].createdAt && ids[i] < ids[j])
  {
    ListingHoldsEveryTask(ids, tasks);
    assert ids[i] in ids && ids[j] in ids;
    assert NoDuplicates(ids);
    NoDuplicatesAt(ids, i, j);
    assert Older(tasks)(ids[i], ids[j]);
  }

  /** Without a limit exactly the tasks that pass both filters are listed, whole. */
  lemma {:induction false} ListedIff(ids: seq<TaskId>, b: Board, states: Option<seq<TaskState>>, actor: Option<ActorId>, task: Task)
    ensures task in Selected(ids, b, TaskQuery(states, actor, None))
            <==> && task.id in ids && task.id in b.tasks && task == Task(task.id, b.tasks[task.id], HistoryOf(b.history, task.id))
                 && (states.Some? ==> task.row.state in states.value)
                 && (actor.Some? ==> task.row.actor == actor)
  {
    var q := TaskQuery(states, actor, None);
    if ids != [] {
      var init, last := ids[..|ids| - 1], ids[|ids| - 1];
      ListedIff(init, b, states, actor, task);
      assert ids == init + [last];
      assert Selected(ids, b, q) == Selected(init, b, q) + MatchOf(last, b, q);
    }
  }

  /** A limit keeps the first matches: that many, or one if it is 0. */
  lemma LimitKeepsFirst(ids: seq<TaskId>, b: Board, states: Option<seq<TaskState>>, actor: Option<ActorId>, limit: nat)
    ensures var all := Selected(ids, b, TaskQuery(states, actor, None));
            var some := Selected(ids, b, TaskQuery(states, actor, Some(limit)));
            some <= all && |some| == if limit == 0 && |all| > 0 then 1 else if |all| <= limit then |all| else limit
  {
    SameMatches(ids, b, states, actor, limit);
  }

  lemma {:induction false} SameMatches(ids: seq<TaskId>, b: Board, states: Option<seq<TaskState>>, actor: Option<ActorId>, limit: nat)
    ensures Matching(ids, b, TaskQuery(states, actor, Some(limit))) == Matching(ids, b, TaskQuery(states, actor, None))
  {
    if ids != [] {
      SameMatches(ids[..|ids| - 1], b, states, actor, limit);
    }
  }

  // ---- What the caller of `create` asked for ----

  /** Call `i` of the run made the task. */
  ghost predicate Created(ops: seq<Op>, i: int, t: TaskId, task: NewTask, at: Timestamp) {
    0 <= i < |ops| && ops[i] == Create(t, task, at) && Step(Run(ops[..i]), ops[i]).1.Ok?
  }

  /** On every run a task keeps the title, dependencies and time it was created with. */
  lemma {:induction false} TaskKeepsRequest(ops: seq<Op>, i: nat, t: TaskId, task: NewTask, at: Timestamp)
    requires Created(ops, i, t, task, at)
    ensures t in Run(ops).tasks && Run(ops).tasks[t].dependsOn == task.dependsOn && Run(ops).tasks[t].title == task.title
    ensures Run(ops).tasks[t].createdAt == at
  {
    var init := ops[..|ops| - 1];
    if i < |init| {
      assert init[..i] == ops[..i];
      TaskKeepsRequest(init, i, t, task, at);
      StepKeepsRequest(Run(init), ops[|ops| - 1], t);
    } else {
      CreateStores(Run(init), t, task, at);
    }
  }

  lemma StepKeepsRequest(b: Board, op: Op, t: TaskId)
    requires t in b.tasks
    ensures var c := Step(b, op).0;
            t in c.tasks && c.tasks[t].dependsOn == b.tasks[t].dependsOn && c.tasks[t].title == b.tasks[t].title
            && c.tasks[t].createdAt == b.tasks[t].createdAt
  {
    match op
    case Create(id, task, at) => CreateStores(b, id, task, at);
    case Transition(id, to, actor, reason, at) => TransitionMoves(b, id, to, actor, reason, at);
    case Claim(id, worker) => ClaimTakes(b, id, worker);
    case Block(id, actor, why, at) => BlockMoves(b, id, actor, why, at);
  }

  /** Every task on the board was created by exactly one call. */
  lemma {:induction false} EveryTaskWasCreated(ops: seq<Op>, t: TaskId)
    requires t in Run(ops).tasks
    ensures exists i, task, at :: Created(ops, i, t, task, at)
  {
    var init, op := ops[..|ops| - 1], ops[|ops| - 1];
    if t in Run(init).tasks {
      EveryTaskWasCreated(init, t);
      var i, task, at :| Created(init, i, t, task, at);
      assert init[..i] == ops[..i];
      assert Created(ops, i, t, task, at);
    } else {
      assert op.Create? && op.id == t;
      assert Created(ops, |init|, t, op.task, op.at);
    }
  }

  lemma CreatedOnce(ops: seq<Op>, i: nat, j: nat, t: TaskId, task: NewTask, at: Timestamp, other: NewTask, when: Timestamp)
    requires Created(ops, i, t, task, at) && Created(ops, j, t, other, when)
    ensures i == j
  {
    var early, late := if i < j then i else j, if i < j then j else i;
    if early < late {
      assert ops[..late][..early] == ops[..early];
      var (request, time) := if i < j then (task, at) else (other, when);
      TaskKeepsRequest(ops[..late], early, t, request, time);
    }
  }

  /** The caller asked for `t` to wait for `d`. */
  ghost predicate AskedFor(ops: seq<Op>, t: TaskId, d: TaskId) {
    exists i, task, at :: Created(ops, i, t, task, at) && d in task.dependsOn
  }

  lemma DependsOnWhatWasAsked(ops: seq<Op>, t: TaskId, d: TaskId)
    ensures DependsOn(Run(ops), t, d) <==> AskedFor(ops, t, d)
  {
    if AskedFor(ops, t, d) {
      var i, task, at :| Created(ops, i, t, task, at) && d in task.dependsOn;
      TaskKeepsRequest(ops, i, t, task, at);
    }
    if DependsOn(Run(ops), t, d) {
      EveryTaskWasCreated(ops, t);
      var i, task, at :| Created(ops, i, t, task, at);
      TaskKeepsRequest(ops, i, t, task, at);
    }
  }

  /** `Todo` goes to `Ready` exactly when everything the caller asked to wait for is Done. */
  lemma ReadyIffAskedIsDone(ops: seq<Op>, i: nat, t: TaskId, task: NewTask, at: Timestamp, actor: ActorId,
                            reason: Option<string>, now: Timestamp)
    requires Created(ops, i, t, task, at)
    ensures t in Run(ops).tasks
    ensures Run(ops).tasks[t].state == Todo ==>
              (Step(Run(ops), Transition(t, Ready, actor, reason, now)).1.Ok?
               <==> forall d :: d in task.dependsOn ==> d in Run(ops).tasks && Run(ops).tasks[d].state == Done)
  {
    TaskKeepsRequest(ops, i, t, task, at);
    TransitionMoves(Run(ops), t, Ready, actor, reason, now);
  }

  /** Everything a started task was asked to wait for, directly or through others, is
      Done or Archived. */
  lemma AskedForIsFinished(ops: seq<Op>, path: seq<TaskId>, k: nat)
    requires (forall i :: 0 <= i < |path| - 1 ==> AskedFor(ops, path[i], path[i + 1])) && 0 < k < |path|
    requires path[0] in Run(ops).tasks && Run(ops).tasks[path[0]].state in {Ready, Running, Blocked, Done, Archived}
    ensures path[k] in Run(ops).tasks && Run(ops).tasks[path[k]].state in {Done, Archived}
  {
    forall i | 0 <= i < |path| - 1
      ensures DependsOn(Run(ops), path[i], path[i + 1])
    {
      DependsOnWhatWasAsked(ops, path[i], path[i + 1]);
    }
    DependenciesOfStartedTasksAreFinished(ops, path, k);
  }

  lemma StartedOrNot(s: TaskState)
    ensures Started(s) <==> s !in {Backlog, Todo}
  {}

  /** No task that was asked to wait for itself, through any cycle, ever becomes Ready. */
  lemma AskedCycleNeverStarts(ops: seq<Op>, cycle: seq<TaskId>, k: nat)
    requires k < |cycle|
    requires forall i :: 0 <= i < |cycle| ==> AskedFor(ops, cycle[i], cycle[if i + 1 == |cycle| then 0 else i + 1])
    ensures !Entered(Run(ops).history, cycle[k], Ready)
    ensures cycle[k] in Run(ops).tasks && Run(ops).tasks[cycle[k]].state in {Backlog, Todo}
  {
    forall i | 0 <= i < |cycle|
      ensures DependsOn(Run(ops), cycle[i], cycle[if i + 1 == |cycle| then 0 else i + 1])
    {
      DependsOnWhatWasAsked(ops, cycle[i], cycle[if i + 1 == |cycle| then 0 else i + 1]);
    }
    NoCycleMemberStarts(ops, cycle, k);
    StartedOrNot(Run(ops).tasks[cycle[k]].state);
  }
}
