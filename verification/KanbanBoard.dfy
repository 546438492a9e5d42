/** crates/plugin-kanban-sqlite/src/lib.rs: the board. Its two tables are a map
    of task rows and one list of history rows for all tasks. */
module KanbanBoard {
  import opened Types
  import opened KanbanState
  import opened Sorting

  datatype Row = Row(
    title: string, state: TaskState, actor: Option<ActorId>, dependsOn: seq<TaskId>,
    blockReason: Option<BlockReason>, createdAt: Timestamp)

  datatype Board = Board(tasks: map<TaskId, Row>, history: seq<StateChange>)

  datatype Task = Task(id: TaskId, row: Row, history: seq<StateChange>)

  const EMPTY_BOARD := Board(map[], [])

  /** The history rows of one task, in order. */
  function HistoryOf(h: seq<StateChange>, id: TaskId): seq<StateChange> {
    if h == [] then []
    else HistoryOf(h[..|h| - 1], id) + if h[|h| - 1].task == id then [h[|h| - 1]] else []
  }

  // ---- What each call does to the tables ----

  type Outcome = Result<(), KanbanError>

  datatype Op =
    | Create(id: TaskId, task: NewTask, at: Timestamp)
    | Transition(id: TaskId, to: TaskState, actor: ActorId, reason: Option<string>, at: Timestamp)
    | Claim(id: TaskId, worker: ActorId)
    | Block(id: TaskId, actor: ActorId, blockReason: BlockReason, at: Timestamp)

  /** Why the dependencies keep a task out of Ready: the first one that is
      missing or not Done decides. */
  function DependencyFailure(tasks: map<TaskId, Row>, deps: seq<TaskId>): Option<KanbanError> {
    if deps == [] then None
    else if deps[0] !in tasks then Some(NotFound(deps[0]))
    else if tasks[deps[0]].state != Done then Some(DependenciesNotDone)
    else DependencyFailure(tasks, deps[1..])
  }

  function Check(b: Board, id: TaskId, to: TaskState, checkDeps: bool): Outcome {
    if id !in b.tasks then Err(NotFound(id))
    else if !IsLegalTransition(b.tasks[id].state, to) then Err(IllegalTransition(b.tasks[id].state, to))
    else if checkDeps && to == Ready then
      match DependencyFailure(b.tasks, b.tasks[id].dependsOn)
      case Some(e) => Err(e)
      case None => Ok(())
    else Ok(())
  }

  function Move(b: Board, id: TaskId, row: Row, actor: ActorId, at: Timestamp, reason: Option<string>): Board
    requires id in b.tasks
  {
    Board(b.tasks[id := row], b.history + [StateChange(id, b.tasks[id].state, row.state, actor, at, reason)])
  }

  /** One call on the board: the tables after it and its result. */
  function Step(b: Board, op: Op): (Board, Outcome) {
    match op
    case Create(id, t, at) =>
      if id in b.tasks then (b, Err(Storage("insert failed")))
      else (b.(tasks := b.tasks[id := Row(t.title, Backlog, Some(t.actor), t.dependsOn, None, at)]), Ok(()))
    case Transition(id, to, actor, reason, at) =>
      var r := Check(b, id, to, true);
      if r.Err? then (b, r)
      else (Move(b, id, b.tasks[id].(state := to, actor := None), actor, at, reason), r)
    case Claim(id, worker) =>
      if id in b.tasks && b.tasks[id].actor.None? && b.tasks[id].state == Ready then
        (b.(tasks := b.tasks[id := b.tasks[id].(actor := Some(worker))]), Ok(()))
      else (b, Err(AlreadyClaimed))
    case Block(id, actor, reason, at) =>
      var r := Check(b, id, Blocked, false);
      if r.Err? then (b, r)
      else
        (Move(b, id, b.tasks[id].(state := Blocked, blockReason := Some(reason)), actor, at, Some(reason.reason)), r)
  }

  // ---- The class ----

  class SqliteKanbanBoard {
    var tasks: map<TaskId, Row>
    var history: seq<StateChange>

    ghost function Contents(): Board
      reads this
    {
      Board(tasks, history)
    }

    constructor ()
      ensures Contents() == EMPTY_BOARD
    {
      tasks := map[];
      history := [];
    }

    /** `id` is the UUID drawn for the task; the primary key refuses one in use. */
    method Create(id: TaskId, task: NewTask, at: Timestamp) returns (r: Result<TaskId, KanbanError>)
      modifies this
      ensures Contents() == Step(old(Contents()), Op.Create(id, task, at)).0
      ensures r.Ok? <==> id !in old(tasks)
      ensures r.Ok? ==> r.value == id
      ensures r.Err? ==> r.error.Storage?
    {
      if id in tasks {
        return Err(Storage("insert failed"));
      }
      tasks := tasks[id := Row(task.title, Backlog, Some(task.actor), task.dependsOn, None, at)];
      return Ok(id);
    }

    method Transition(id: TaskId, to: TaskState, actor: ActorId, reason: Option<string>, at: Timestamp)
      returns (r: Outcome)
      modifies this
      ensures (Contents(), r) == Step(old(Contents()), Op.Transition(id, to, actor, reason, at))
    {
      var tasksAtBegin, historyAtBegin := tasks, history;
      r := TransitionInner(id, to, actor, reason, at);
      if r.Err? {
        tasks, history := tasksAtBegin, historyAtBegin;
      }
    }

    method TransitionInner(id: TaskId, to: TaskState, actor: ActorId, reason: Option<string>, at: Timestamp)
      returns (r: Outcome)
      modifies this
      ensures r == Step(old(Contents()), Op.Transition(id, to, actor, reason, at)).1
      ensures r.Ok? ==> Contents() == Step(old(Contents()), Op.Transition(id, to, actor, reason, at)).0
    {
      if id !in tasks {
        return Err(NotFound(id));
      }
      var row := tasks[id];
      if !IsLegalTransition(row.state, to) {
        return Err(IllegalTransition(row.state, to));
      }
      if to == Ready && row.dependsOn != [] {
        for i := 0 to |row.dependsOn|
          invariant DependencyFailure(tasks, row.dependsOn) == DependencyFailure(tasks, row.dependsOn[i..])
        {
          var dep := row.dependsOn[i];
          if dep !in tasks {
            return Err(NotFound(dep));
          }
          if tasks[dep].state != Done {
            return Err(DependenciesNotDone);
          }
          assert row.dependsOn[i..][1..] == row.dependsOn[i + 1..];
        }
      }
      tasks := tasks[id := row.(state := to, actor := None)];
      history := history + [StateChange(id, row.state, to, actor, at, reason)];
      return Ok(());
    }

    method Claim(id: TaskId, worker: ActorId) returns (r: Outcome)
      modifies this
      ensures (Contents(), r) == Step(old(Contents()), Op.Claim(id, worker))
    {
      var rows := 0;
      if id in tasks && tasks[id].actor.None? && tasks[id].state == Ready {
        tasks := tasks[id := tasks[id].(actor := Some(worker))];
        rows := 1;
      }
      if rows == 0 {
        return Err(AlreadyClaimed);
      }
      return Ok(());
    }

    method Block(id: TaskId, actor: ActorId, reason: BlockReason, at: Timestamp) returns (r: Outcome)
      modifies this
      ensures (Contents(), r) == Step(old(Contents()), Op.Block(id, actor, reason, at))
    {
      if id !in tasks {
        return Err(NotFound(id));
      }
      var row := tasks[id];
      if !IsLegalTransition(row.state, Blocked) {
        return Err(IllegalTransition(row.state, Blocked));
      }
      tasks := tasks[id := row.(state := Blocked, blockReason := Some(reason))];
      history := history + [StateChange(id, row.state, Blocked, actor, at, Some(reason.reason))];
      return Ok(());
    }

    method Get(id: TaskId) returns (r: Result<Task, KanbanError>)
      ensures r == if id in tasks then Ok(Task(id, tasks[id], HistoryOf(history, id))) else Err(NotFound(id))
    {
      if id !in tasks {
        return Err(NotFound(id));
      }
      var rows := [];
      for i := 0 to |history|
        invariant rows == HistoryOf(history[..i], id)
      {
        if history[i].task == id {
          rows := rows + [history[i]];
        }
        assert history[..i + 1][..i] == history[..i];
      }
      assert history[..|history|] == history;
      return Ok(Task(id, tasks[id], rows));
    }

    /** `SELECT id FROM tasks ORDER BY created_at, id`. */
    method OrderedIds() returns (ids: seq<TaskId>)
      ensures InListingOrder(ids, tasks)
    {
      var todo := tasks.Keys;
      ids := [];
      while todo != {}
        invariant todo <= tasks.Keys
        invariant multiset(ids) == multiset(tasks.Keys - todo)
      {
        var id :| id in todo;
        assert tasks.Keys - (todo - {id}) == (tasks.Keys - todo) + {id};
        todo := todo - {id};
        ids := ids + [id];
      }
      assert tasks.Keys - todo == tasks.Keys;
      OlderIsTotal(tasks);
      SortByIsSorted(ids, Older(tasks));
      ids := SortBy(ids, Older(tasks));
    }

    method List(query: TaskQuery) returns (out: seq<Task>)
      ensures exists ids :: InListingOrder(ids, tasks) && out == Selected(ids, Contents(), query)
    {
      var ids := OrderedIds();
      ListingHoldsEveryTask(ids, tasks);
      out := Select(ids, query);
    }

    method Select(ids: seq<TaskId>, query: TaskQuery) returns (out: seq<Task>)
      requires forall id :: id in ids ==> id in tasks
      ensures out == Selected(ids, Contents(), query)
    {
      out := [];
      ghost var b := Contents();
      for n := 0 to |ids|
        invariant out == Matching(ids[..n], b, query)
        invariant query.limit.Some? ==> |out| == 0 || |out| < query.limit.value
      {
        MatchingStep(ids, n, b, query);
        var got := Get(ids[n]);
        var task := got.value;
        if query.states.Some? && task.row.state !in query.states.value {
          assert MatchOf(ids[n], b, query) == [];
          continue;
        }
        if query.actor.Some? && task.row.actor != query.actor {
          assert MatchOf(ids[n], b, query) == [];
          continue;
        }
        assert MatchOf(ids[n], b, query) == [task];
        out := out + [task];
        if query.limit.Some? && |out| >= query.limit.value {
          StopAtLimit(ids, n + 1, b, query);
          return;
        }
      }
      assert ids[..|ids|] == ids;
    }
  }

  // ---- Listing ----

  function Older(tasks: map<TaskId, Row>): (TaskId, TaskId) -> bool {
    (x: TaskId, y: TaskId) => CreatedAt(tasks, x) < CreatedAt(tasks, y) || (CreatedAt(tasks, x) == CreatedAt(tasks, y) && x <= y)
  }

  function CreatedAt(tasks: map<TaskId, Row>, id: TaskId): Timestamp {
    if id in tasks then tasks[id].createdAt else 0
  }

  lemma OlderIsTotal(tasks: map<TaskId, Row>)
    ensures TotalOrder(Older(tasks)) && Antisymmetric(Older(tasks))
  {}

  /** Every task once, oldest first, ties by id. */
  ghost predicate InListingOrder(ids: seq<TaskId>, tasks: map<TaskId, Row>) {
    multiset(ids) == multiset(tasks.Keys) && SortedBy(ids, Older(tasks))
  }

  lemma ListingHoldsEveryTask(ids: seq<TaskId>, tasks: map<TaskId, Row>)
    requires InListingOrder(ids, tasks)
    ensures forall id :: id in ids <==> id in tasks
  {
    forall id
      ensures id in ids <==> id in tasks
    {
      assert id in ids <==> id in multiset(ids);
    }
  }

  /** The order leaves no choice, so `list` is a function of the tables. */
  lemma ListingOrderIsUnique(a: seq<TaskId>, b: seq<TaskId>, tasks: map<TaskId, Row>)
    requires InListingOrder(a, tasks) && InListingOrder(b, tasks)
    ensures a == b
  {
    OlderIsTotal(tasks);
    SortedIsUnique(a, b, Older(tasks));
  }

  predicate Matches(row: Row, query: TaskQuery) {
    && (query.states.Some? ==> row.state in query.states.value)
    && (query.actor.Some? ==> row.actor == query.actor)
  }

  ghost function Matching(ids: seq<TaskId>, b: Board, query: TaskQuery): seq<Task> {
    if ids == [] then []
    else Matching(ids[..|ids| - 1], b, query) + MatchOf(ids[|ids| - 1], b, query)
  }

  ghost function MatchOf(id: TaskId, b: Board, query: TaskQuery): seq<Task> {
    if id in b.tasks && Matches(b.tasks[id], query) then [Task(id, b.tasks[id], HistoryOf(b.history, id))] else []
  }

  lemma MatchingStep(ids: seq<TaskId>, n: nat, b: Board, query: TaskQuery)
    requires n < |ids|
    ensures Matching(ids[..n + 1], b, query) == Matching(ids[..n], b, query) + MatchOf(ids[n], b, query)
  {
    assert ids[..n + 1][..n] == ids[..n];
  }

  /** What `list` returns. A limit keeps that many matches, except that the limit
      is only looked at after a match is kept, so a limit of 0 keeps one. */
  ghost function Selected(ids: seq<TaskId>, b: Board, query: TaskQuery): seq<Task>
  {
    var all := Matching(ids, b, query);
    if query.limit.None? then all
    else
      var keep := if query.limit.value == 0 then 1 else query.limit.value;
      if |all| <= keep then all else all[..keep]
  }

  /** The loop may stop as soon as it holds what the limit keeps. */
  lemma StopAtLimit(ids: seq<TaskId>, n: nat, b: Board, query: TaskQuery)
    requires n <= |ids| && query.limit.Some?
    requires |Matching(ids[..n], b, query)| == if query.limit.value == 0 then 1 else query.limit.value
    ensures Selected(ids, b, query) == Matching(ids[..n], b, query)
  {
    MatchingPrefix(ids, n, b, query);
  }

  lemma {:induction false} MatchingPrefix(ids: seq<TaskId>, n: nat, b: Board, query: TaskQuery)
    requires n <= |ids|
    ensures Matching(ids[..n], b, query) <= Matching(ids, b, query)
    decreases |ids|
  {
    if n < |ids| {
      MatchingPrefix(ids[..|ids| - 1], n, b, query);
      assert ids[..|ids| - 1][..n] == ids[..n];
    } else {
      assert ids[..n] == ids;
    }
  }

  /** The documented "at most `limit` tasks" holds unless the limit is 0 and some task matches. */
  lemma ListHonoursLimitIff(ids: seq<TaskId>, b: Board, query: TaskQuery)
    requires query.limit.Some? && InListingOrder(ids, b.tasks)
    ensures |Selected(ids, b, query)| <= query.limit.value
            <==> query.limit.value > 0 || !exists id :: id in b.tasks && Matches(b.tasks[id], query)
  {
    MatchingIsEmptyIff(ids, b, query);
    ListingHoldsEveryTask(ids, b.tasks);
  }

  lemma {:induction false} MatchingIsEmptyIff(ids: seq<TaskId>, b: Board, query: TaskQuery)
    ensures Matching(ids, b, query) == [] <==> forall id :: id in ids && id in b.tasks ==> !Matches(b.tasks[id], query)
  {
    if ids != [] {
      MatchingIsEmptyIff(ids[..|ids| - 1], b, query);
      assert ids == ids[..|ids| - 1] + [ids[|ids| - 1]];
    }
  }
}
