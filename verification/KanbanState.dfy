/** crates/core/src/kanban.rs: task states and the edge table. */
module KanbanState {
  import opened Types

  datatype TaskState = Backlog | Todo | Ready | Running | Blocked | Done | Archived

  predicate IsLegalTransition(from: TaskState, to: TaskState) {
    match (from, to)
    case (Backlog, Todo) => true
    case (Todo, Ready) => true
    case (Todo, Backlog) => true
    case (Ready, Running) => true
    case (Ready, Backlog) => true
    case (Running, Done) => true
    case (Running, Blocked) => true
    case (Running, Todo) => true
    case (Blocked, Running) => true
    case (Blocked, Todo) => true
    case (Blocked, Done) => true
    case (Done, Archived) => true
    case _ => false
  }

  /** The name `Display` prints, as sent to the database and into gate messages. */
  function StateName(s: TaskState): string {
    match s
    case Backlog => "Backlog"
    case Todo => "Todo"
    case Ready => "Ready"
    case Running => "Running"
    case Blocked => "Blocked"
    case Done => "Done"
    case Archived => "Archived"
  }

  lemma StateNameInjective(s: TaskState, t: TaskState)
    requires StateName(s) == StateName(t)
    ensures s == t
  {
    var a, b := StateName(s), StateName(t);
    assert |a| == |b| && a[0] == b[0] && a[1] == b[1] && a[2] == b[2];
  }

  datatype BlockedBy = Human(actor: ActorId) | Dependency(task: TaskId)
  datatype BlockReason = BlockReason(reason: string, blockedBy: BlockedBy)

  // One history row: `StateChange` with the task it belongs to.
  datatype StateChange = StateChange(
    task: TaskId, from: TaskState, to: TaskState, actor: ActorId, at: Timestamp, reason: Option<string>)

  datatype NewTask = NewTask(title: string, actor: ActorId, dependsOn: seq<TaskId>)

  datatype TaskQuery = TaskQuery(states: Option<seq<TaskState>>, actor: Option<ActorId>, limit: Option<nat>)

  datatype KanbanError =
    | IllegalTransition(from: TaskState, to: TaskState)
    | DependenciesNotDone
    | AlreadyClaimed
    | NotFound(id: TaskId)
    | Storage(message: string)

  // ---- Walks over the edge table ----

  /** `rows` is a walk along legal edges from `from` to `to`. */
  predicate LegalWalk(from: TaskState, rows: seq<StateChange>, to: TaskState) {
    if rows == [] then from == to
    else
      var last := rows[|rows| - 1];
      last.to == to && IsLegalTransition(last.from, to) && LegalWalk(from, rows[..|rows| - 1], last.from)
  }

  function EntriesInto(rows: seq<StateChange>, s: TaskState): nat {
    if rows == [] then 0
    else EntriesInto(rows[..|rows| - 1], s) + if rows[|rows| - 1].to == s then 1 else 0
  }

  /** Done is entered once at most and Archived once at most, and exactly when
      the walk ends at or beyond them. */
  lemma {:induction false} WalkEntersDoneOnce(rows: seq<StateChange>, to: TaskState)
    requires LegalWalk(Backlog, rows, to)
    ensures EntriesInto(rows, Done) == if to in {Done, Archived} then 1 else 0
    ensures EntriesInto(rows, Archived) == if to == Archived then 1 else 0
  {
    if rows != [] {
      WalkEntersDoneOnce(rows[..|rows| - 1], rows[|rows| - 1].from);
    }
  }

  /** No walk leaves Done except to Archived, and none leaves Archived. */
  lemma {:induction false} TerminalStates(from: TaskState, rows: seq<StateChange>, to: TaskState)
    requires LegalWalk(from, rows, to)
    ensures from == Archived ==> rows == [] && to == Archived
    ensures from == Done ==> to in {Done, Archived}
  {
    if rows != [] {
      TerminalStates(from, rows[..|rows| - 1], rows[|rows| - 1].from);
    }
  }

  /** A walk that goes anywhere starts with an edge out of its start and ends by
      entering its end. */
  lemma {:induction false} WalkEnds(from: TaskState, rows: seq<StateChange>, to: TaskState)
    requires LegalWalk(from, rows, to) && rows != []
    ensures rows[0].from == from && IsLegalTransition(from, rows[0].to) && rows[|rows| - 1].to == to
  {
    if |rows| > 1 {
      WalkEnds(from, rows[..|rows| - 1], rows[|rows| - 1].from);
    }
  }

  /** States a task can only be in after the dependency check at Ready passed. */
  predicate Started(s: TaskState) {
    s in {Ready, Running, Blocked, Done, Archived}
  }

  predicate Finished(s: TaskState) {
    s in {Done, Archived}
  }
}
