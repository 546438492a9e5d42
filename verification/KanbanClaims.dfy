/** Who holds a task and why it is blocked, read off the calls of a run. */
module KanbanClaims {
  import opened Types
  import opened KanbanState
  import opened KanbanBoard
  import opened KanbanRuns

  /** The last call of `ops` succeeded. */
  ghost predicate LastSucceeds(ops: seq<Op>) {
    ops != [] && Step(Run(ops[..|ops| - 1]), ops[|ops| - 1]).1.Ok?
  }

  ghost predicate LastClaims(ops: seq<Op>, t: TaskId) {
    LastSucceeds(ops) && ops[|ops| - 1].Claim? && ops[|ops| - 1].id == t
  }

  ghost function Claims(ops: seq<Op>, t: TaskId): nat {
    if ops == [] then 0 else Claims(ops[..|ops| - 1], t) + if LastClaims(ops, t) then 1 else 0
  }

  /** The worker of the latest successful claim since the task was made or moved. */
  ghost function Holder(ops: seq<Op>, t: TaskId): Option<ActorId> {
    if ops == [] then None
    else if !LastSucceeds(ops) || ops[|ops| - 1].id != t then Holder(ops[..|ops| - 1], t)
    else if ops[|ops| - 1].Claim? then Some(ops[|ops| - 1].worker)
    else None
  }

  /** The actor the task was created for. */
  ghost function Creator(ops: seq<Op>, t: TaskId): Option<ActorId> {
    if ops == [] then None
    else if LastSucceeds(ops) && ops[|ops| - 1].Create? && ops[|ops| - 1].id == t then Some(ops[|ops| - 1].task.actor)
    else Creator(ops[..|ops| - 1], t)
  }

  /** The reason given to the latest successful `block` call on the task. */
  ghost function LastBlockReason(ops: seq<Op>, t: TaskId): Option<BlockReason> {
    if ops == [] then None
    else if LastSucceeds(ops) && ops[|ops| - 1].Block? && ops[|ops| - 1].id == t then Some(ops[|ops| - 1].blockReason)
    else LastBlockReason(ops[..|ops| - 1], t)
  }

  ghost function ReadyEntries(ops: seq<Op>, t: TaskId): nat {
    EntriesInto(HistoryOf(Run(ops).history, t), Ready)
  }

  ghost predicate Claimable(b: Board, t: TaskId) {
    t in b.tasks && b.tasks[t].state == Ready && b.tasks[t].actor.None?
  }

  ghost predicate MovesTask(b: Board, op: Op, t: TaskId) {
    op.id == t && (op.Transition? || op.Block?) && Step(b, op).1.Ok?
  }

  lemma StepHistory(b: Board, op: Op, t: TaskId)
    ensures HistoryOf(Step(b, op).0.history, t)
            == HistoryOf(b.history, t) + if MovesTask(b, op, t) then [Step(b, op).0.history[|b.history|]] else []
  {
    var h, k := b.history, Step(b, op).0.history;
    if |k| > |h| {
      assert k == h + [k[|h|]] && k[|h|].task == op.id;
      HistoryOfAppend(h, k[|h|], t);
    } else {
      assert k == h;
    }
  }

  lemma StepReadyEntries(b: Board, op: Op, t: TaskId)
    ensures EntriesInto(HistoryOf(Step(b, op).0.history, t), Ready)
            == EntriesInto(HistoryOf(b.history, t), Ready)
               + if MovesTask(b, op, t) && Step(b, op).0.tasks[t].state == Ready then 1 else 0
  {
    StepHistory(b, op, t);
    var w, v := HistoryOf(b.history, t), HistoryOf(Step(b, op).0.history, t);
    if MovesTask(b, op, t) {
      assert v[..|v| - 1] == w;
    } else {
      assert v == w;
    }
  }

  /** A step makes a task claimable only by moving it into Ready, and a successful
      claim ends that. */
  lemma StepClaimable(b: Board, op: Op, t: TaskId)
    ensures Claimable(Step(b, op).0, t) && !(MovesTask(b, op, t) && Step(b, op).0.tasks[t].state == Ready) ==>
              Claimable(b, t)
    ensures op.Claim? && op.id == t && Step(b, op).1.Ok? ==> Claimable(b, t) && !Claimable(Step(b, op).0, t)
  {}

  lemma AfterStep(ops: seq<Op>, t: TaskId)
    requires ops != []
    ensures ReadyEntries(ops, t) >= ReadyEntries(ops[..|ops| - 1], t)
    ensures Claimable(Run(ops), t) ==>
              Claimable(Run(ops[..|ops| - 1]), t) || ReadyEntries(ops, t) == ReadyEntries(ops[..|ops| - 1], t) + 1
    ensures LastClaims(ops, t) ==>
              Claimable(Run(ops[..|ops| - 1]), t) && !Claimable(Run(ops), t)
  {
    StepReadyEntries(Run(ops[..|ops| - 1]), ops[|ops| - 1], t);
    StepClaimable(Run(ops[..|ops| - 1]), ops[|ops| - 1], t);
  }

  /** Successful claims of a task never exceed its entries into Ready; while it
      waits unclaimed in Ready they are fewer. */
  lemma {:induction false} ClaimsAreBoundedByEntries(ops: seq<Op>, t: TaskId)
    ensures Claims(ops, t) + (if Claimable(Run(ops), t) then 1 else 0) <= ReadyEntries(ops, t)
  {
    if ops != [] {
      ClaimsAreBoundedByEntries(ops[..|ops| - 1], t);
      AfterStep(ops, t);
    }
  }

  /** A task becomes claimable only by entering Ready. */
  lemma {:induction false} ClaimableByEntryOnly(ops: seq<Op>, later: seq<Op>, t: TaskId)
    requires ops <= later && !Claimable(Run(ops), t)
    ensures ReadyEntries(later, t) >= ReadyEntries(ops, t) + if Claimable(Run(later), t) then 1 else 0
    decreases |later|
  {
    if later != ops {
      ClaimableByEntryOnly(ops, later[..|later| - 1], t);
      AfterStep(later, t);
    }
  }

  /** Claims are exclusive: between two successful claims of a task, by whomever,
      the task entered Ready again. */
  lemma ClaimsAreExclusive(ops: seq<Op>, later: seq<Op>, t: TaskId)
    requires LastClaims(ops, t) && ops < later && LastClaims(later, t)
    ensures ReadyEntries(later[..|later| - 1], t) > ReadyEntries(ops, t)
  {
    AfterStep(ops, t);
    AfterStep(later, t);
    ClaimableByEntryOnly(ops, later[..|later| - 1], t);
  }

  /** The actor column. A task that never moved sits in Backlog with its creator.
      One that moved has an actor exactly while a claim holds it in Ready. */
  ghost predicate ActorInv(b: Board, t: TaskId, creator: Option<ActorId>, holder: Option<ActorId>)
    requires t in b.tasks
  {
    var row := b.tasks[t];
    if HistoryOf(b.history, t) == [] then row.state == Backlog && row.actor == creator && creator.Some?
    else row.actor == holder && (row.actor.Some? ==> row.state == Ready)
  }

  lemma StepKeepsActorInv(b: Board, op: Op, t: TaskId, creator: Option<ActorId>, holder: Option<ActorId>)
    requires t in b.tasks && ActorInv(b, t, creator, holder)
    ensures ActorInv(Step(b, op).0, t, creator,
                     if op.id != t || Step(b, op).1.Err? then holder
                     else if op.Claim? then Some(op.worker)
                     else None)
  {
    StepHistory(b, op, t);
    if MovesTask(b, op, t) {
      assert HistoryOf(Step(b, op).0.history, t) != [];
    } else {
      assert HistoryOf(Step(b, op).0.history, t) == HistoryOf(b.history, t);
    }
  }

  lemma {:induction false} ActorIsCreatorOrHolder(ops: seq<Op>, t: TaskId)
    requires t in Run(ops).tasks
    ensures ActorInv(Run(ops), t, Creator(ops, t), Holder(ops, t))
  {
    var b, op := Run(ops[..|ops| - 1]), ops[|ops| - 1];
    if t in b.tasks {
      ActorIsCreatorOrHolder(ops[..|ops| - 1], t);
      StepKeepsActorInv(b, op, t, Creator(ops[..|ops| - 1], t), Holder(ops[..|ops| - 1], t));
    } else {
      EveryRunKeepsInv(ops[..|ops| - 1]);
      HistoryOfUnknown(b.history, t);
    }
  }

  /** The contract says a running task is held by exactly one worker. The board
      drops the claim when the task starts: a running task has no actor at all. */
  lemma RunningTaskHasNoActor(ops: seq<Op>, t: TaskId)
    requires t in Run(ops).tasks && Run(ops).tasks[t].state == Running
    ensures Run(ops).tasks[t].actor == None
  {
    ActorIsCreatorOrHolder(ops, t);
  }

  /** The block reason is the one of the latest successful `block` call, kept ever
      after; so a task in Blocked has a reason exactly if `block` was called on it
      successfully at some time. */
  lemma {:induction false} BlockReasonIsLastGiven(ops: seq<Op>, t: TaskId)
    requires t in Run(ops).tasks
    ensures Run(ops).tasks[t].blockReason == LastBlockReason(ops, t)
  {
    if t in Run(ops[..|ops| - 1]).tasks {
      BlockReasonIsLastGiven(ops[..|ops| - 1], t);
    } else {
      NoReasonBeforeCreation(ops[..|ops| - 1], t);
    }
  }

  lemma {:induction false} NoReasonBeforeCreation(ops: seq<Op>, t: TaskId)
    requires t !in Run(ops).tasks
    ensures LastBlockReason(ops, t) == None
  {
    if ops != [] {
      NoReasonBeforeCreation(ops[..|ops| - 1], t);
    }
  }

  /** The contract asks for a reason to enter Blocked; `transition` enters it without. */
  lemma BlockedWithoutReason(t: TaskId)
    ensures exists ops :: t in Run(ops).tasks && Run(ops).tasks[t].state == Blocked
                          && Run(ops).tasks[t].blockReason == None
  {
    var ops := [Create(t, NewTask("", "", []), 0)];
    assert ops[..0] == [];
    ops := MoveOn(ops, t, Todo);
    ops := MoveOn(ops, t, Ready);
    ops := MoveOn(ops, t, Running);
    ops := MoveOn(ops, t, Blocked);
  }
}
