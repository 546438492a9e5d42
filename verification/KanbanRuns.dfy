/** What every run of board calls keeps. A run starts from the empty board and
    mixes successful and failing calls in any order. */
module KanbanRuns {
  import opened Types
  import opened KanbanState
  import opened KanbanBoard

  function Run(ops: seq<Op>): Board {
    if ops == [] then EMPTY_BOARD else Step(Run(ops[..|ops| - 1]), ops[|ops| - 1]).0
  }

  // ---- The two shapes of a step ----

  /** No task changes state: a failed call, a claim, or a new task in Backlog. */
  ghost predicate Stays(b: Board, c: Board) {
    && c.history == b.history
    && b.tasks.Keys <= c.tasks.Keys
    && (forall t :: t in b.tasks ==> c.tasks[t].state == b.tasks[t].state && c.tasks[t].dependsOn == b.tasks[t].dependsOn)
    && (forall t :: t in c.tasks && t !in b.tasks ==> c.tasks[t].state == Backlog)
  }

  /** Task `id` alone changes state, along a legal edge, leaving one history row. */
  ghost predicate Moves(b: Board, c: Board, id: TaskId) {
    && id in b.tasks && id in c.tasks
    && c.tasks.Keys == b.tasks.Keys
    && (forall t :: t in b.tasks && t != id ==> c.tasks[t] == b.tasks[t])
    && c.tasks[id].dependsOn == b.tasks[id].dependsOn
    && |c.history| == |b.history| + 1 && c.history[..|b.history|] == b.history
    && c.history[|b.history|].task == id
    && c.history[|b.history|].from == b.tasks[id].state
    && c.history[|b.history|].to == c.tasks[id].state
    && IsLegalTransition(b.tasks[id].state, c.tasks[id].state)
    && (c.tasks[id].state == Ready ==>
          forall d :: d in b.tasks[id].dependsOn ==> Satisfied(b.tasks, d))
  }

  ghost predicate Satisfied(tasks: map<TaskId, Row>, d: TaskId) {
    d in tasks && tasks[d].state == Done
  }

  /** `deps[k]` is the first dependency that is missing or not Done. */
  ghost predicate FirstOffender(tasks: map<TaskId, Row>, deps: seq<TaskId>, k: nat) {
    k < |deps| && !Satisfied(tasks, deps[k]) && forall i :: 0 <= i < k ==> Satisfied(tasks, deps[i])
  }

  /** The dependency loop passes exactly when every dependency exists and is Done,
      and otherwise reports the first offender. */
  lemma {:induction false} DependencyFailureMeaning(tasks: map<TaskId, Row>, deps: seq<TaskId>)
    ensures DependencyFailure(tasks, deps).None? <==> forall d :: d in deps ==> Satisfied(tasks, d)
    ensures forall k: nat :: FirstOffender(tasks, deps, k) ==>
              DependencyFailure(tasks, deps)
              == Some(if deps[k] in tasks then DependenciesNotDone else NotFound(deps[k]))
  {
    if deps != [] {
      DependencyFailureMeaning(tasks, deps[1..]);
      assert forall d :: d in deps <==> d == deps[0] || d in deps[1..];
      assert DependencyFailure(tasks, deps).None? ==> Satisfied(tasks, deps[0]);
      assert deps[0] in deps;
      forall k: nat | k > 0 && FirstOffender(tasks, deps, k)
        ensures FirstOffender(tasks, deps[1..], k - 1)
      {
        assert Satisfied(tasks, deps[0]);
        assert forall i :: 0 <= i < k - 1 ==> deps[1..][i] == deps[i + 1];
      }
    }
  }

  lemma StepShape(b: Board, op: Op)
    ensures var c := Step(b, op).0; Stays(b, c) || Moves(b, c, op.id)
  {
    if op.Transition? && op.id in b.tasks {
      DependencyFailureMeaning(b.tasks, b.tasks[op.id].dependsOn);
    }
  }

  // ---- The invariant ----

  ghost predicate EnteredBefore(h: seq<StateChange>, n: int, t: TaskId, s: TaskState) {
    exists i :: 0 <= i < n && i < |h| && h[i].task == t && h[i].to == s
  }

  ghost predicate Entered(h: seq<StateChange>, t: TaskId, s: TaskState) {
    EnteredBefore(h, |h|, t, s)
  }

  ghost predicate WalksInv(b: Board) {
    && (forall t :: t in b.tasks ==> LegalWalk(Backlog, HistoryOf(b.history, t), b.tasks[t].state))
    && (forall i :: 0 <= i < |b.history| ==> b.history[i].task in b.tasks)
  }

  ghost predicate DependsOn(b: Board, t: TaskId, d: TaskId) {
    t in b.tasks && d in b.tasks[t].dependsOn
  }

  ghost predicate DependencyInv(b: Board) {
    forall t, d :: DependsOn(b, t, d) && Started(b.tasks[t].state) ==> d in b.tasks && Finished(b.tasks[d].state)
  }

  ghost predicate EntriesInv(b: Board) {
    && (forall t :: t in b.tasks && Finished(b.tasks[t].state) ==> Entered(b.history, t, Done))
    && (forall t :: t in b.tasks && Started(b.tasks[t].state) ==> Entered(b.history, t, Ready))
  }

  /** History row `j` made a task Ready that depends on `d`. */
  ghost predicate RowNeeds(b: Board, j: int, d: TaskId) {
    0 <= j < |b.history| && b.history[j].to == Ready && DependsOn(b, b.history[j].task, d)
  }

  ghost predicate OrderInv(b: Board) {
    && (forall j, d :: RowNeeds(b, j, d) ==> EnteredBefore(b.history, j, d, Done))
    && (forall j :: 0 <= j < |b.history| && b.history[j].to == Done ==>
          EnteredBefore(b.history, j, b.history[j].task, Ready))
  }

  ghost predicate Inv(b: Board) {
    WalksInv(b) && DependencyInv(b) && EntriesInv(b) && OrderInv(b)
  }

  lemma EnteredExtends(h: seq<StateChange>, k: seq<StateChange>, n: int, m: int, t: TaskId, s: TaskState)
    requires EnteredBefore(h, n, t, s) && h <= k && n <= m
    ensures EnteredBefore(k, m, t, s)
  {
    var i :| 0 <= i < n && i < |h| && h[i].task == t && h[i].to == s;
    assert k[i] == h[i];
  }

  lemma HistoryOfAppend(h: seq<StateChange>, row: StateChange, t: TaskId)
    ensures HistoryOf(h + [row], t) == HistoryOf(h, t) + if row.task == t then [row] else []
  {
    assert (h + [row])[..|h|] == h;
  }

  lemma {:induction false} HistoryOfUnknown(h: seq<StateChange>, t: TaskId)
    requires forall i :: 0 <= i < |h| ==> h[i].task != t
    ensures HistoryOf(h, t) == []
  {
    if h != [] {
      HistoryOfUnknown(h[..|h| - 1], t);
    }
  }

  lemma StaysKeepsWalks(b: Board, c: Board)
    requires WalksInv(b) && Stays(b, c)
    ensures WalksInv(c)
  {
    forall t | t in c.tasks && t !in b.tasks
      ensures HistoryOf(c.history, t) == []
    {
      HistoryOfUnknown(b.history, t);
    }
  }

  lemma StaysKeepsOrder(b: Board, c: Board)
    requires WalksInv(b) && OrderInv(b) && Stays(b, c)
    ensures OrderInv(c)
  {
    forall j, d | RowNeeds(c, j, d)
      ensures EnteredBefore(c.history, j, d, Done)
    {
      assert b.history[j].task in b.tasks;
      assert RowNeeds(b, j, d);
    }
  }

  lemma StaysKeepsInv(b: Board, c: Board)
    requires Inv(b) && Stays(b, c)
    ensures Inv(c)
  {
    StaysKeepsWalks(b, c);
    StaysKeepsOrder(b, c);
    StaysKeepsDependencies(b, c);
    StaysKeepsEntries(b, c);
  }

  lemma StaysKeepsDependencies(b: Board, c: Board)
    requires DependencyInv(b) && Stays(b, c)
    ensures DependencyInv(c)
  {}

  lemma StaysKeepsEntries(b: Board, c: Board)
    requires EntriesInv(b) && Stays(b, c)
    ensures EntriesInv(c)
  {}

  lemma MovesExtendsWalk(b: Board, c: Board, id: TaskId, t: TaskId)
    requires Moves(b, c, id) && t in b.tasks && LegalWalk(Backlog, HistoryOf(b.history, t), b.tasks[t].state)
    ensures HistoryOf(c.history, t)
            == HistoryOf(b.history, t) + if t == id then [c.history[|b.history|]] else []
    ensures LegalWalk(Backlog, HistoryOf(c.history, t), c.tasks[t].state)
  {
    var row := c.history[|b.history|];
    assert c.history == b.history + [row];
    HistoryOfAppend(b.history, row, t);
    var w, v := HistoryOf(b.history, t), HistoryOf(c.history, t);
    assert t == id ==> v[..|v| - 1] == w;
    assert t != id ==> v == w;
  }

  lemma MovesKeepsWalks(b: Board, c: Board, id: TaskId)
    requires WalksInv(b) && Moves(b, c, id)
    ensures WalksInv(c)
  {
    MovesKeepsRowTasks(b, c, id);
    forall t | t in c.tasks
      ensures LegalWalk(Backlog, HistoryOf(c.history, t), c.tasks[t].state)
    {
      MovesExtendsWalk(b, c, id, t);
    }
  }

  lemma MovesKeepsRowTasks(b: Board, c: Board, id: TaskId)
    requires (forall i :: 0 <= i < |b.history| ==> b.history[i].task in b.tasks) && Moves(b, c, id)
    ensures forall i :: 0 <= i < |c.history| ==> c.history[i].task in c.tasks
  {
    assert forall i :: 0 <= i < |b.history| ==> c.history[i] == b.history[i];
  }

  lemma MovesKeepsDependencies(b: Board, c: Board, id: TaskId)
    requires DependencyInv(b) && Moves(b, c, id)
    ensures DependencyInv(c)
  {
    forall t, d | DependsOn(c, t, d) && Started(c.tasks[t].state)
      ensures d in c.tasks && Finished(c.tasks[d].state)
    {
      // A task entering Ready has just passed the check; any other started task had
      // started before. A finished dependency that moves goes from Done to Archived.
      assert DependsOn(b, t, d);
      assert t == id && c.tasks[t].state == Ready ==> Satisfied(b.tasks, d);
    }
  }

  lemma MovesEnters(b: Board, c: Board, id: TaskId, t: TaskId, s: TaskState)
    requires Moves(b, c, id)
    requires Entered(b.history, t, s) || (t == id && s == c.tasks[id].state)
    ensures Entered(c.history, t, s)
  {
    assert b.history <= c.history;
    if Entered(b.history, t, s) {
      EnteredExtends(b.history, c.history, |b.history|, |c.history|, t, s);
    }
  }

  lemma MovesKeepsEntries(b: Board, c: Board, id: TaskId)
    requires EntriesInv(b) && Moves(b, c, id)
    ensures EntriesInv(c)
  {
    forall t | t in c.tasks && Finished(c.tasks[t].state)
      ensures Entered(c.history, t, Done)
    {
      MovesEnters(b, c, id, t, Done);
    }
    forall t | t in c.tasks && Started(c.tasks[t].state)
      ensures Entered(c.history, t, Ready)
    {
      MovesEnters(b, c, id, t, Ready);
    }
  }

  lemma MovesKeepsReadyOrder(b: Board, c: Board, id: TaskId, j: int, d: TaskId)
    requires WalksInv(b) && EntriesInv(b) && OrderInv(b) && Moves(b, c, id) && RowNeeds(c, j, d)
    ensures EnteredBefore(c.history, j, d, Done)
  {
    var n := |b.history|;
    assert b.history <= c.history;
    if j < n {
      assert c.history[j] == b.history[j];
      assert RowNeeds(b, j, d);
      EnteredExtends(b.history, c.history, j, j, d, Done);
    } else {
      assert Satisfied(b.tasks, d);
      assert Entered(b.history, d, Done);
      EnteredExtends(b.history, c.history, n, n, d, Done);
    }
  }

  lemma MovesKeepsDoneOrder(b: Board, c: Board, id: TaskId, j: int)
    requires EntriesInv(b) && OrderInv(b) && Moves(b, c, id)
    requires 0 <= j < |c.history| && c.history[j].to == Done
    ensures EnteredBefore(c.history, j, c.history[j].task, Ready)
  {
    var n := |b.history|;
    assert b.history <= c.history;
    if j < n {
      assert c.history[j] == b.history[j];
      EnteredExtends(b.history, c.history, j, j, b.history[j].task, Ready);
    } else {
      assert Entered(b.history, id, Ready);
      EnteredExtends(b.history, c.history, n, n, id, Ready);
    }
  }

  lemma MovesKeepsOrder(b: Board, c: Board, id: TaskId)
    requires WalksInv(b) && EntriesInv(b) && OrderInv(b) && Moves(b, c, id)
    ensures OrderInv(c)
  {
    forall j, d | RowNeeds(c, j, d)
      ensures EnteredBefore(c.history, j, d, Done)
    {
      MovesKeepsReadyOrder(b, c, id, j, d);
    }
    forall j | 0 <= j < |c.history| && c.history[j].to == Done
      ensures EnteredBefore(c.history, j, c.history[j].task, Ready)
    {
      MovesKeepsDoneOrder(b, c, id, j);
    }
  }

  lemma StepKeepsInv(b: Board, op: Op)
    requires Inv(b)
    ensures Inv(Step(b, op).0)
  {
    var c := Step(b, op).0;
    StepShape(b, op);
    if Stays(b, c) {
      StaysKeepsInv(b, c);
    } else {
      MovesKeepsWalks(b, c, op.id);
      MovesKeepsDependencies(b, c, op.id);
      MovesKeepsEntries(b, c, op.id);
      MovesKeepsOrder(b, c, op.id);
    }
  }

  lemma {:induction false} EveryRunKeepsInv(ops: seq<Op>)
    ensures Inv(Run(ops))
  {
    if ops != [] {
      EveryRunKeepsInv(ops[..|ops| - 1]);
      StepKeepsInv(Run(ops[..|ops| - 1]), ops[|ops| - 1]);
    }
  }

  // ---- Histories ----

  /** Each task's history is a legal walk from Backlog to its current state, in
      which Done and Archived are entered at most once. */
  lemma HistoriesAreLegalWalks(ops: seq<Op>, t: TaskId)
    requires t in Run(ops).tasks
    ensures var b := Run(ops);
            && LegalWalk(Backlog, HistoryOf(b.history, t), b.tasks[t].state)
            && EntriesInto(HistoryOf(b.history, t), Done) == (if Finished(b.tasks[t].state) then 1 else 0)
            && EntriesInto(HistoryOf(b.history, t), Archived) <= 1
  {
    EveryRunKeepsInv(ops);
    WalkEntersDoneOnce(HistoryOf(Run(ops).history, t), Run(ops).tasks[t].state);
  }

  // ---- Dependencies ----

  /** `path` follows dependencies: each task depends on the next. */
  ghost predicate DependencyPath(b: Board, path: seq<TaskId>) {
    forall k :: 0 < k < |path| ==> DependsOn(b, path[k - 1], path[k])
  }

  /** Everything a started task depends on, directly or not, is Done or Archived. */
  lemma DependenciesOfStartedTasksAreFinished(ops: seq<Op>, path: seq<TaskId>, k: nat)
    requires DependencyPath(Run(ops), path) && 0 < k < |path|
    requires path[0] in Run(ops).tasks && Started(Run(ops).tasks[path[0]].state)
    ensures path[k] in Run(ops).tasks && Finished(Run(ops).tasks[path[k]].state)
  {
    EveryRunKeepsInv(ops);
    PathIsFinished(Run(ops), path, k);
  }

  lemma {:induction false} PathIsFinished(b: Board, path: seq<TaskId>, k: nat)
    requires DependencyInv(b) && DependencyPath(b, path) && 0 < k < |path|
    requires path[0] in b.tasks && Started(b.tasks[path[0]].state)
    ensures path[k] in b.tasks && Finished(b.tasks[path[k]].state)
  {
    if k > 1 {
      PathIsFinished(b, path, k - 1);
    }
    assert DependsOn(b, path[k - 1], path[k]);
  }

  /** Each dependency's Done row comes before any Ready row of the task. */
  lemma DoneComesBeforeReady(ops: seq<Op>, j: nat, d: TaskId)
    requires RowNeeds(Run(ops), j, d)
    ensures EnteredBefore(Run(ops).history, j, d, Done)
  {
    EveryRunKeepsInv(ops);
  }

  ghost predicate DependencyCycle(b: Board, cycle: seq<TaskId>) {
    cycle != [] && forall k :: 0 <= k < |cycle| ==>
      DependsOn(b, cycle[k], cycle[if k + 1 == |cycle| then 0 else k + 1])
  }

  /** The descent behind it: a Ready row of one member would need
      an earlier Done row of the next task, and so an earlier Ready row of that. */
  lemma {:induction false} NoCycleMemberEntersReady(b: Board, cycle: seq<TaskId>, k: nat, j: nat)
    requires OrderInv(b) && DependencyCycle(b, cycle) && k < |cycle| && j < |b.history|
    ensures !(b.history[j].task == cycle[k] && b.history[j].to == Ready)
    decreases j
  {
    var h := b.history;
    if h[j].task == cycle[k] && h[j].to == Ready {
      var next := if k + 1 == |cycle| then 0 else k + 1;
      assert RowNeeds(b, j, cycle[next]);
      var i :| 0 <= i < j && i < |h| && h[i].task == cycle[next] && h[i].to == Done;
      assert EnteredBefore(h, i, cycle[next], Ready);
      var m :| 0 <= m < i && m < |h| && h[m].task == cycle[next] && h[m].to == Ready;
      NoCycleMemberEntersReady(b, cycle, next, m);
    }
  }

  /** No task on a dependency cycle ever becomes Ready or gets beyond it, on any run. */
  lemma NoCycleMemberStarts(ops: seq<Op>, cycle: seq<TaskId>, k: nat)
    requires DependencyCycle(Run(ops), cycle) && k < |cycle|
    ensures !Entered(Run(ops).history, cycle[k], Ready)
    ensures cycle[k] in Run(ops).tasks && !Started(Run(ops).tasks[cycle[k]].state)
  {
    var b := Run(ops);
    EveryRunKeepsInv(ops);
    assert DependsOn(b, cycle[k], cycle[if k + 1 == |cycle| then 0 else k + 1]);
    if Entered(b.history, cycle[k], Ready) {
      var i :| 0 <= i < |b.history| && b.history[i].task == cycle[k] && b.history[i].to == Ready;
      NoCycleMemberEntersReady(b, cycle, k, i);
    }
  }

  // ---- Continuing a run ----

  lemma {:induction false} RunExtends(ops: seq<Op>, more: seq<Op>)
    ensures Run(ops).history <= Run(ops + more).history
    ensures forall t :: t in Run(ops).tasks ==>
              t in Run(ops + more).tasks && Run(ops + more).tasks[t].dependsOn == Run(ops).tasks[t].dependsOn
  {
    if more == [] {
      assert ops + more == ops;
    } else {
      var init := more[..|more| - 1];
      assert (ops + more)[..|ops + more| - 1] == ops + init;
      RunExtends(ops, init);
      StepShape(Run(ops + init), more[|more| - 1]);
    }
  }

  /** Archived is final, and Done is left only for Archived. */
  lemma {:induction false} FinishedStaysFinished(ops: seq<Op>, more: seq<Op>, t: TaskId)
    requires t in Run(ops).tasks && Finished(Run(ops).tasks[t].state)
    ensures t in Run(ops + more).tasks && Finished(Run(ops + more).tasks[t].state)
    ensures Run(ops).tasks[t].state == Archived ==> Run(ops + more).tasks[t].state == Archived
  {
    if more == [] {
      assert ops + more == ops;
    } else {
      var init := more[..|more| - 1];
      assert (ops + more)[..|ops + more| - 1] == ops + init;
      FinishedStaysFinished(ops, init, t);
      StepShape(Run(ops + init), more[|more| - 1]);
    }
  }

  /** `Todo` goes to `Ready` exactly when every dependency is Done. The documented
      gate does not let an Archived dependency count, although it was Done. */
  lemma ReadyGate(b: Board, op: Op)
    requires op.Transition? && op.to == Ready && op.id in b.tasks && b.tasks[op.id].state == Todo
    ensures Step(b, op).1.Ok?
            <==> forall d :: d in b.tasks[op.id].dependsOn ==> Satisfied(b.tasks, d)
  {
    DependencyFailureMeaning(b.tasks, b.tasks[op.id].dependsOn);
  }

  /** Once a dependency of an unstarted task is archived, no continuation of the
      run ever makes the task Ready. */
  lemma {:induction false} ArchivedDependencyBlocksForever(ops: seq<Op>, more: seq<Op>, t: TaskId, d: TaskId)
    requires t in Run(ops).tasks && !Started(Run(ops).tasks[t].state)
    requires d in Run(ops).tasks[t].dependsOn && d in Run(ops).tasks && Run(ops).tasks[d].state == Archived
    ensures t in Run(ops + more).tasks && !Started(Run(ops + more).tasks[t].state)
  {
    if more == [] {
      assert ops + more == ops;
    } else {
      var init := more[..|more| - 1];
      assert (ops + more)[..|ops + more| - 1] == ops + init;
      ArchivedDependencyBlocksForever(ops, init, t, d);
      FinishedStaysFinished(ops, init, d);
      RunExtends(ops, init);
      StepBehindArchived(Run(ops + init), more[|more| - 1], t, d);
    }
  }

  lemma StepBehindArchived(b: Board, op: Op, t: TaskId, d: TaskId)
    requires t in b.tasks && !Started(b.tasks[t].state)
    requires d in b.tasks[t].dependsOn && d in b.tasks && b.tasks[d].state == Archived
    ensures t in Step(b, op).0.tasks && !Started(Step(b, op).0.tasks[t].state)
  {
    StepShape(b, op);
  }

  // ---- The walk since a moment of the run ----

  /** What happened to the task since the history was `n` rows long. */
  function RowsSince(b: Board, n: nat, t: TaskId): seq<StateChange>
    requires n <= |b.history|
  {
    HistoryOf(b.history[n..], t)
  }

  /** From any moment of a run a task's further history is a legal walk from the
      state it was in to the one it is in. */
  lemma {:induction false} WalkSince(ops: seq<Op>, more: seq<Op>, t: TaskId)
    requires t in Run(ops).tasks
    ensures t in Run(ops + more).tasks && Run(ops).history <= Run(ops + more).history
    ensures LegalWalk(Run(ops).tasks[t].state, RowsSince(Run(ops + more), |Run(ops).history|, t),
                      Run(ops + more).tasks[t].state)
  {
    if more == [] {
      assert ops + more == ops;
    } else {
      var init := more[..|more| - 1];
      assert (ops + more)[..|ops + more| - 1] == ops + init;
      WalkSince(ops, init, t);
      StepExtendsWalk(Run(ops + init), more[|more| - 1], |Run(ops).history|, Run(ops).tasks[t].state, t);
    }
  }

  lemma StepExtendsWalk(b: Board, op: Op, n: nat, s: TaskState, t: TaskId)
    requires n <= |b.history| && t in b.tasks && LegalWalk(s, RowsSince(b, n, t), b.tasks[t].state)
    ensures var c := Step(b, op).0;
            && t in c.tasks && b.history <= c.history && LegalWalk(s, RowsSince(c, n, t), c.tasks[t].state)
  {
    var c := Step(b, op).0;
    StepShape(b, op);
    if Moves(b, c, op.id) {
      var row := c.history[|b.history|];
      assert c.history[n..] == b.history[n..] + [row];
      HistoryOfAppend(b.history[n..], row, t);
      var w, v := RowsSince(b, n, t), RowsSince(c, n, t);
      assert t == op.id ==> v[..|v| - 1] == w;
      assert t != op.id ==> v == w;
    }
  }

  lemma {:induction false} RowIsInHistory(h: seq<StateChange>, t: TaskId, row: StateChange)
    requires row in HistoryOf(h, t)
    ensures row.task == t && exists i :: 0 <= i < |h| && h[i] == row
  {
    var last := h[|h| - 1];
    if row == last && last.task == t {
      assert h[|h| - 1] == row;
    } else {
      RowIsInHistory(h[..|h| - 1], t, row);
      var i :| 0 <= i < |h| - 1 && h[..|h| - 1][i] == row;
      assert h[i] == row;
    }
  }

  // ---- Building runs ----

  /** The run goes on by moving a task along a legal edge. */
  lemma MoveOn(ops: seq<Op>, t: TaskId, to: TaskState) returns (next: seq<Op>)
    requires t in Run(ops).tasks && IsLegalTransition(Run(ops).tasks[t].state, to)
    requires to == Ready ==> Run(ops).tasks[t].dependsOn == []
    ensures Run(next).tasks == Run(ops).tasks[t := Run(ops).tasks[t].(state := to, actor := None)]
  {
    next := ops + [Transition(t, to, "", None, 0)];
    assert next[..|ops|] == ops;
    assert DependencyFailure(Run(ops).tasks, []) == None;
  }

  /** A run on which a task finds its only dependency archived: it cannot become Ready. */
  lemma ArchivedDependencyRefused(d: TaskId, t: TaskId)
    requires d != t
    ensures exists ops ::
              && t in Run(ops).tasks && Run(ops).tasks[t].state == Todo && Run(ops).tasks[t].dependsOn == [d]
              && d in Run(ops).tasks && Run(ops).tasks[d].state == Archived
              && Step(Run(ops), Transition(t, Ready, "", None, 0)).1 == Err(DependenciesNotDone)
  {
    var first := [Create(d, NewTask("", "", []), 0)];
    var ops := first + [Create(t, NewTask("", "", [d]), 0)];
    assert first[..0] == [] && ops[..1] == first;
    assert Run(first).tasks == map[d := Row("", Backlog, Some(""), [], None, 0)];
    ops := MoveOn(ops, d, Todo);
    ops := MoveOn(ops, d, Ready);
    ops := MoveOn(ops, d, Running);
    ops := MoveOn(ops, d, Done);
    ops := MoveOn(ops, d, Archived);
    ops := MoveOn(ops, t, Todo);
    assert FirstOffender(Run(ops).tasks, [d], 0);
    DependencyFailureMeaning(Run(ops).tasks, [d]);
  }

  /** A run on which a listing with limit 0 returns a task. */
  lemma LimitZeroReturnsOne(t: TaskId)
    ensures exists ops, ids :: InListingOrder(ids, Run(ops).tasks)
                               && |Selected(ids, Run(ops), TaskQuery(None, None, Some(0)))| == 1
  {
    var ops := [Create(t, NewTask("", "", []), 0)];
    assert ops[..0] == [];
    var ids := [t];
    assert InListingOrder(ids, Run(ops).tasks);
    assert Matching(ids[..0], Run(ops), TaskQuery(None, None, Some(0))) == [];
  }
}
