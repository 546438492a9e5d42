/** What overlapping `guarded_transition` calls can do with one token: for each edge
    exactly which surprises there are runs of. */
module GateReuse {
  import opened Types
  import opened KanbanState
  import opened KanbanBoard
  import opened KanbanRuns
  import opened Security
  import opened GateEngine
  import opened GateRuns

  // ---- Building runs ----

  /** A task without dependencies, so that only the edge table limits it. */
  ghost predicate FreeTask(g: Gate, t: TaskId, s: TaskState) {
    t in g.board.tasks && g.board.tasks[t].dependsOn == [] && g.board.tasks[t].state == s
  }

  predicate LegalPath(s: TaskState, path: seq<TaskState>)
    decreases |path|
  {
    path == [] || (IsLegalTransition(s, path[0]) && LegalPath(path[0], path[1..]))
  }

  function EndOf(s: TaskState, path: seq<TaskState>): TaskState {
    if path == [] then s else path[|path| - 1]
  }

  lemma MoveFree(k: Keys, ops: seq<GateOp>, t: TaskId, s: TaskState, to: TaskState) returns (op: GateOp)
    requires FreeTask(GateRun(k, ops), t, s) && IsLegalTransition(s, to)
    ensures WentTo(GateRun(k, ops), GateRun(k, ops + [op]), t, [to], to)
  {
    op := BoardCall(Transition(t, to, "", None, 0));
    RunSnoc(k, ops, op);
    assert DependencyFailure(GateRun(k, ops).board.tasks, []) == None;
  }

  /** Every history row from `n` on is into a state of `path`. */
  ghost predicate StaysOn(h: seq<StateChange>, n: nat, path: seq<TaskState>) {
    forall i :: n <= i < |h| ==> h[i].to in path
  }

  /** Only the board changed, and on it the free task went along `path` to `s`. */
  ghost predicate WentTo(g: Gate, h: Gate, t: TaskId, path: seq<TaskState>, s: TaskState) {
    && h == g.(board := h.board) && FreeTask(h, t, s)
    && g.board.history <= h.board.history && StaysOn(h.board.history, |g.board.history|, path)
  }

  lemma {:induction false} Drive(k: Keys, ops: seq<GateOp>, t: TaskId, s: TaskState, path: seq<TaskState>)
      returns (next: seq<GateOp>)
    requires FreeTask(GateRun(k, ops), t, s) && LegalPath(s, path)
    ensures ops <= next && WentTo(GateRun(k, ops), GateRun(k, next), t, path, EndOf(s, path))
    decreases |path|
  {
    if path == [] {
      next := ops;
    } else {
      var op := MoveFree(k, ops, t, s, path[0]);
      next := Drive(k, ops + [op], t, path[0], path[1..]);
      EndOfTail(s, path);
      WentOn(GateRun(k, ops), GateRun(k, ops + [op]), GateRun(k, next), t, path, EndOf(s, path));
    }
  }

  lemma EndOfTail(s: TaskState, path: seq<TaskState>)
    requires path != []
    ensures EndOf(path[0], path[1..]) == EndOf(s, path)
  {}

  lemma WentOn(g: Gate, next: Gate, last: Gate, t: TaskId, path: seq<TaskState>, s: TaskState)
    requires path != [] && WentTo(g, next, t, [path[0]], path[0]) && WentTo(next, last, t, path[1..], s)
    ensures WentTo(g, last, t, path, s)
  {
    forall i | |g.board.history| <= i < |last.board.history|
      ensures last.board.history[i].to in path
    {
      if i < |next.board.history| {
        assert last.board.history[i] == next.board.history[i];
      }
    }
  }

  function PathHome(s: TaskState): seq<TaskState> {
    match s
    case Backlog => []
    case Todo => [Backlog]
    case Ready => [Backlog]
    case _ => [Todo, Backlog]
  }

  function PathOut(goal: TaskState): seq<TaskState> {
    match goal
    case Backlog => []
    case Todo => [Todo]
    case Ready => [Todo, Ready]
    case Running => [Todo, Ready, Running]
    case last => [Todo, Ready, Running, last]
  }

  lemma PathHomeIsLegal(s: TaskState)
    requires !Finished(s)
    ensures LegalPath(s, PathHome(s)) && EndOf(s, PathHome(s)) == Backlog
  {
    assert [Todo, Backlog][1..] == [Backlog];
  }

  lemma PathOutIsLegal(goal: TaskState)
    requires goal != Archived
    ensures LegalPath(Backlog, PathOut(goal)) && EndOf(Backlog, PathOut(goal)) == goal
  {
    assert LegalPath(Running, []) && (goal in {Blocked, Done} ==> LegalPath(Running, [goal]));
    assert [Todo, Ready, Running, goal][1..] == [Ready, Running, goal] && [Ready, Running, goal][1..] == [Running, goal];
    assert [Todo, Ready, Running][1..] == [Ready, Running] && [Ready, Running][1..] == [Running];
    assert [Running, goal][1..] == [goal];
  }

  ghost function TokenFor(k: Keys, a: Approval): GateToken {
    GateToken(a, StampOf(k, a))
  }

  /** The request that presents the approval's token for what it says. */
  ghost function RequestFor(k: Keys, a: Approval): Request {
    Request(Some(TokenFor(k, a)), a.task, a.to, a.actor, None, 0)
  }

  /** The token is issued, nothing is revoked, its task is free and in state `s`, and
      these calls are under way. */
  ghost predicate Stage(k: Keys, g: Gate, a: Approval, s: TaskState, calls: map<nat, Phase>) {
    TokenFor(k, a) in g.issued && g.invalidated == {} && FreeTask(g, a.task, s) && g.calls == calls
  }

  function NoCalls(): map<nat, Phase> {
    map[]
  }

  lemma DriveHome(k: Keys, ops: seq<GateOp>, t: TaskId, s: TaskState) returns (next: seq<GateOp>)
    requires FreeTask(GateRun(k, ops), t, s) && !Finished(s)
    ensures ops <= next && WentTo(GateRun(k, ops), GateRun(k, next), t, PathHome(s), Backlog)
  {
    PathHomeIsLegal(s);
    next := Drive(k, ops, t, s, PathHome(s));
  }

  lemma DriveOut(k: Keys, ops: seq<GateOp>, t: TaskId, goal: TaskState) returns (next: seq<GateOp>)
    requires FreeTask(GateRun(k, ops), t, Backlog) && goal != Archived
    ensures ops <= next && WentTo(GateRun(k, ops), GateRun(k, next), t, PathOut(goal), goal)
  {
    PathOutIsLegal(goal);
    next := Drive(k, ops, t, Backlog, PathOut(goal));
  }

  lemma StageMoves(k: Keys, g: Gate, h: Gate, a: Approval, s: TaskState, to: TaskState, path: seq<TaskState>,
                   calls: map<nat, Phase>)
    requires Stage(k, g, a, s, calls) && WentTo(g, h, a.task, path, to)
    ensures Stage(k, h, a, to, calls)
  {}

  /** From any open state a free task gets to any state that is not Archived. */
  lemma DriveTo(k: Keys, ops: seq<GateOp>, a: Approval, s: TaskState, goal: TaskState, calls: map<nat, Phase>)
      returns (next: seq<GateOp>)
    requires Stage(k, GateRun(k, ops), a, s, calls) && !Finished(s) && goal != Archived
    ensures ops <= next && Stage(k, GateRun(k, next), a, goal, calls)
  {
    var home := DriveHome(k, ops, a.task, s);
    StageMoves(k, GateRun(k, ops), GateRun(k, home), a, s, Backlog, PathHome(s), calls);
    next := DriveOut(k, home, a.task, goal);
    StageMoves(k, GateRun(k, home), GateRun(k, next), a, Backlog, goal, PathOut(goal), calls);
  }

  lemma Prepare(k: Keys, a: Approval) returns (ops: seq<GateOp>)
    requires !IsBlank(a.digestSummary) && IsLegalTransition(a.from, a.to)
    ensures Stage(k, GateRun(k, ops), a, a.from, NoCalls())
  {
    var start := IssueAndCreate(k, a);
    ops := DriveTo(k, start, a, Backlog, a.from, NoCalls());
  }

  lemma IssueAndCreate(k: Keys, a: Approval) returns (ops: seq<GateOp>)
    requires !IsBlank(a.digestSummary) && IsLegalTransition(a.from, a.to)
    ensures Stage(k, GateRun(k, ops), a, Backlog, NoCalls())
  {
    var op := BoardCall(Create(a.task, NewTask("", a.actor, []), 0));
    RunSnoc(k, [], Issue(a));
    RunSnoc(k, [] + [Issue(a)], op);
    IssuedAndCreated(k, a);
    ops := [] + [Issue(a)] + [op];
  }

  lemma IssuedAndCreated(k: Keys, a: Approval)
    requires !IsBlank(a.digestSummary) && IsLegalTransition(a.from, a.to)
    ensures Stage(k, GateStep(k, GateStep(k, NEW_GATE, Issue(a)), BoardCall(Create(a.task, NewTask("", a.actor, []), 0))),
                  a, Backlog, NoCalls())
  {
    var g := GateStep(k, NEW_GATE, Issue(a));
    assert g == NEW_GATE.(issued := [TokenFor(k, a)], stamped := [MessageFor(k, a)]);
  }

  lemma ChecksPass(k: Keys, g: Gate, a: Approval, t: nat, calls: map<nat, Phase>)
    requires Stage(k, g, a, a.from, calls) && t !in calls
    ensures Stage(k, GateStep(k, GateStep(k, g, Present(t, RequestFor(k, a))), CheckStage(t)), a, a.from,
                  calls[t := Looked(RequestFor(k, a))])
  {
    var q := RequestFor(k, a);
    assert AfterTokenCheck(k, g, q) == Validated(q, a.from);
    assert AfterStageCheck(g.board, q, a.from) == Looked(q);
    assert calls[t := Validated(q, a.from)][t := Looked(q)] == calls[t := Looked(q)];
  }

  /** A new call presents the token and passes both checks. */
  lemma PassChecks(k: Keys, ops: seq<GateOp>, a: Approval, t: nat, calls: map<nat, Phase>) returns (next: seq<GateOp>)
    requires Stage(k, GateRun(k, ops), a, a.from, calls) && t !in calls
    ensures ops <= next && Stage(k, GateRun(k, next), a, a.from, calls[t := Looked(RequestFor(k, a))])
  {
    var present := Present(t, RequestFor(k, a));
    ChecksPass(k, GateRun(k, ops), a, t, calls);
    RunSnoc(k, ops, present);
    RunSnoc(k, ops + [present], CheckStage(t));
    next := ops + [present] + [CheckStage(t)];
  }

  lemma MovePasses(k: Keys, g: Gate, a: Approval, t: nat, s: TaskState, calls: map<nat, Phase>) returns (p: Phase)
    requires t in calls && calls[t] == Looked(RequestFor(k, a))
    requires Stage(k, g, a, s, calls) && IsLegalTransition(s, a.to)
    ensures RedeemsFor(g, t, a)
    ensures Stage(k, GateStep(k, g, MakeMove(t)), a, a.to, calls[t := p]) && p.Decided?
  {
    assert DependencyFailure(g.board.tasks, []) == None;
    p := GateStep(k, g, MakeMove(t)).calls[t];
  }

  lemma RedeemFree(k: Keys, ops: seq<GateOp>, a: Approval, t: nat, s: TaskState, calls: map<nat, Phase>) returns (p: Phase)
    requires t in calls && calls[t] == Looked(RequestFor(k, a))
    requires Stage(k, GateRun(k, ops), a, s, calls) && IsLegalTransition(s, a.to)
    ensures RedeemsFor(GateRun(k, ops), t, a)
    ensures Stage(k, GateRun(k, ops + [MakeMove(t)]), a, a.to, calls[t := p]) && p.Decided?
  {
    p := MovePasses(k, GateRun(k, ops), a, t, s, calls);
    RunSnoc(k, ops, MakeMove(t));
  }

  // ---- The move starts from another state than the token names ----

  ghost predicate RedeemsElsewhere(g: Gate, t: nat, a: Approval) {
    RedeemsFor(g, t, a) && a.task in g.board.tasks && g.board.tasks[a.task].state != a.from
  }

  ghost predicate CanMoveFromElsewhere(k: Keys, a: Approval) {
    exists ops, t :: RedeemsElsewhere(GateRun(k, ops), t, a) && TokenFor(k, a) in GateRun(k, ops).issued
  }

  /** Another state with an edge into `to`. */
  function Elsewhere(from: TaskState, to: TaskState): TaskState {
    match to
    case Backlog => if from == Todo then Ready else Todo
    case Todo => if from == Backlog then Running else Backlog
    case Running => if from == Ready then Blocked else Ready
    case _ => if from == Running then Blocked else Running
  }

  /** The stage check promises that a token moves its task from the state it names. If
      other calls fall between the check and the move it may not; it does exactly for
      targets that only one state leads to. */
  lemma MovesFromElsewhereIff(k: Keys, a: Approval)
    requires !IsBlank(a.digestSummary) && IsLegalTransition(a.from, a.to)
    ensures CanMoveFromElsewhere(k, a) <==> a.to !in {Ready, Blocked, Archived}
  {
    if CanMoveFromElsewhere(k, a) {
      var ops, t :| RedeemsElsewhere(GateRun(k, ops), t, a);
      ElsewhereLeadsToo(k, ops, t, a);
    }
    if a.to !in {Ready, Blocked, Archived} {
      var ops := MoveFromElsewhere(k, a);
    }
  }

  lemma ElsewhereLeadsToo(k: Keys, ops: seq<GateOp>, t: nat, a: Approval)
    requires RedeemsElsewhere(GateRun(k, ops), t, a) && IsLegalTransition(a.from, a.to)
    ensures a.to !in {Ready, Blocked, Archived}
  {
    RedeemingMovesTask(k, ops, t, a);
  }

  lemma MoveFromElsewhere(k: Keys, a: Approval) returns (ops: seq<GateOp>)
    requires !IsBlank(a.digestSummary) && IsLegalTransition(a.from, a.to) && a.to !in {Ready, Blocked, Archived}
    ensures RedeemsElsewhere(GateRun(k, ops), 0, a) && TokenFor(k, a) in GateRun(k, ops).issued
  {
    ElsewhereLeads(a.from, a.to);
    var start := Prepare(k, a);
    var checked := PassChecks(k, start, a, 0, NoCalls());
    var calls := NoCalls()[0 := Looked(RequestFor(k, a))];
    ops := DriveTo(k, checked, a, a.from, Elsewhere(a.from, a.to), calls);
    StageElsewhere(k, GateRun(k, ops), a, 0, Elsewhere(a.from, a.to), calls);
  }

  lemma ElsewhereLeads(from: TaskState, to: TaskState)
    requires IsLegalTransition(from, to) && to !in {Ready, Blocked, Archived}
    ensures Elsewhere(from, to) != from && IsLegalTransition(Elsewhere(from, to), to)
    ensures !Finished(from) && !Finished(Elsewhere(from, to))
  {}

  lemma StageElsewhere(k: Keys, g: Gate, a: Approval, t: nat, s: TaskState, calls: map<nat, Phase>)
    requires t in calls && calls[t] == Looked(RequestFor(k, a))
    requires Stage(k, g, a, s, calls) && IsLegalTransition(s, a.to) && s != a.from
    ensures RedeemsElsewhere(g, t, a) && TokenFor(k, a) in g.issued
  {
    var p := MovePasses(k, g, a, t, s, calls);
  }

  // ---- Two redemptions without re-entry ----

  /** Some run redeems the token twice and the task does not enter the state the token
      names in between. */
  ghost predicate CanSkipReentry(k: Keys, a: Approval) {
    exists ops, first, later, second ::
      RedeemedTwice(k, ops, first, later, second, a) && TokenFor(k, a) in GateRun(k, ops).issued
      && !EntersBetween(k, ops + [MakeMove(first)], later, a.task, a.from)
  }

  /** A way from `to` to another state that leads to it, around `from`. */
  function Detour(from: TaskState, to: TaskState): seq<TaskState> {
    match to
    case Backlog => [Todo]
    case Todo => if from == Backlog then [Ready, Running] else [Backlog]
    case _ => if from == Ready then [Blocked] else [Todo, Ready]
  }

  predicate HasDetour(from: TaskState, to: TaskState) {
    to in {Todo, Running} || (from == Ready && to == Backlog)
  }

  lemma DetourIsLegal(from: TaskState, to: TaskState)
    requires IsLegalTransition(from, to) && HasDetour(from, to)
    ensures LegalPath(to, Detour(from, to)) && IsLegalTransition(EndOf(to, Detour(from, to)), to)
    ensures from !in Detour(from, to)
  {
    assert LegalPath(Running, []) && LegalPath(Ready, [Running]) && LegalPath(Todo, [Ready]) && LegalPath(Ready, []);
    assert [Ready, Running][1..] == [Running] && [Todo, Ready][1..] == [Ready];
  }

  /** Two calls check the stage; the first moves, the task goes along `path`, and the
      second moves it again. */
  lemma RedeemAlong(k: Keys, a: Approval, path: seq<TaskState>) returns (ops: seq<GateOp>, later: seq<GateOp>)
    requires !IsBlank(a.digestSummary) && IsLegalTransition(a.from, a.to)
    requires LegalPath(a.to, path) && IsLegalTransition(EndOf(a.to, path), a.to)
    ensures RedeemedTwice(k, ops, 0, later, 1, a) && TokenFor(k, a) in GateRun(k, ops).issued
    ensures StaysOn(GateRun(k, later).board.history, |GateRun(k, ops + [MakeMove(0)]).board.history|, path)
  {
    var start := Prepare(k, a);
    var one := PassChecks(k, start, a, 0, NoCalls());
    var q := RequestFor(k, a);
    ops := PassChecks(k, one, a, 1, NoCalls()[0 := Looked(q)]);
    var calls := NoCalls()[0 := Looked(q)][1 := Looked(q)];
    var p := RedeemFree(k, ops, a, 0, a.from, calls);
    var moved := ops + [MakeMove(0)];
    later := Drive(k, moved, a.task, a.to, path);
    StageMoves(k, GateRun(k, moved), GateRun(k, later), a, a.to, EndOf(a.to, path), path, calls[0 := p]);
    var r := RedeemFree(k, later, a, 1, EndOf(a.to, path), calls[0 := p]);
  }

  /** That the task re-enters the token's state between two redemptions, which holds for
      calls that check the stage one after the other, fails under overlap exactly on the
      edges into Todo and Running and from Ready to Backlog. */
  lemma SkipsReentryIff(k: Keys, a: Approval)
    requires !IsBlank(a.digestSummary) && IsLegalTransition(a.from, a.to)
    ensures CanSkipReentry(k, a) <==> HasDetour(a.from, a.to)
  {
    if CanSkipReentry(k, a) {
      var ops, first, later, second :|
        RedeemedTwice(k, ops, first, later, second, a)
        && !EntersBetween(k, ops + [MakeMove(first)], later, a.task, a.from);
      SkippingNeedsDetour(k, ops, first, later, second, a);
    }
    if HasDetour(a.from, a.to) {
      DetourIsLegal(a.from, a.to);
      var ops, later := RedeemAlong(k, a, Detour(a.from, a.to));
    }
  }

  lemma SkippingNeedsDetour(k: Keys, ops: seq<GateOp>, first: nat, later: seq<GateOp>, second: nat, a: Approval)
    requires RedeemedTwice(k, ops, first, later, second, a) && IsLegalTransition(a.from, a.to)
    requires !EntersBetween(k, ops + [MakeMove(first)], later, a.task, a.from)
    ensures HasDetour(a.from, a.to)
  {
    RedemptionsAreApart(k, ops, first, later, second, a);
    var n, c := |GateRun(k, ops + [MakeMove(first)]).board.history|, GateRun(k, later).board;
    var rows := RowsSince(c, n, a.task);
    WalkEnds(a.to, rows, c.tasks[a.task].state);
    RowEnters(c.history, n, a.task, rows[0]);
    RowEnters(c.history, n, a.task, rows[|rows| - 1]);
    if Finished(a.to) {
      FinalTokensAreSingleUse(k, ops, first, later, second, a);
    }
  }

  // ---- One token used twice, one call after the other ----

  /** Some run issues a token for the approval and redeems it twice, the second call
      beginning after the first has moved the board. */
  ghost predicate CanBeRedeemedTwice(k: Keys, a: Approval) {
    exists ops, first, later, second ::
      RedeemedTwice(k, ops, first, later, second, a) && TokenFor(k, a) in GateRun(k, ops).issued
      && second !in GateRun(k, ops + [MakeMove(first)]).calls
  }

  /** The module documentation has a token authorise exactly one transition. Of the
      tokens the engine issues that holds exactly for those into Done or Archived; on
      every other edge there is a run, even without overlap, that redeems one twice. */
  lemma ReusableIffTargetIsOpen(k: Keys, a: Approval)
    requires !IsBlank(a.digestSummary) && IsLegalTransition(a.from, a.to)
    ensures CanBeRedeemedTwice(k, a) <==> !Finished(a.to)
  {
    if CanBeRedeemedTwice(k, a) && Finished(a.to) {
      var ops, first, later, second :| RedeemedTwice(k, ops, first, later, second, a);
      FinalTokensAreSingleUse(k, ops, first, later, second, a);
    }
    if !Finished(a.to) {
      var ops, later := RedeemInTurn(k, a);
    }
  }

  lemma RedeemInTurn(k: Keys, a: Approval) returns (ops: seq<GateOp>, later: seq<GateOp>)
    requires !IsBlank(a.digestSummary) && IsLegalTransition(a.from, a.to) && !Finished(a.to)
    ensures RedeemedTwice(k, ops, 0, later, 1, a) && TokenFor(k, a) in GateRun(k, ops).issued
    ensures 1 !in GateRun(k, ops + [MakeMove(0)]).calls
  {
    var start := Prepare(k, a);
    ops := PassChecks(k, start, a, 0, NoCalls());
    var calls := NoCalls()[0 := Looked(RequestFor(k, a))];
    var p := RedeemFree(k, ops, a, 0, a.from, calls);
    later := ComeBack(k, ops + [MakeMove(0)], a, calls[0 := p]);
  }

  /** The task goes back to where the token moved it from, and a second call passes. */
  lemma ComeBack(k: Keys, ops: seq<GateOp>, a: Approval, calls: map<nat, Phase>) returns (next: seq<GateOp>)
    requires Stage(k, GateRun(k, ops), a, a.to, calls) && 1 !in calls
    requires IsLegalTransition(a.from, a.to) && !Finished(a.to)
    ensures ops <= next && RedeemsFor(GateRun(k, next), 1, a)
  {
    var back := DriveTo(k, ops, a, a.to, a.from, calls);
    next := PassChecks(k, back, a, 1, calls);
    var p := RedeemFree(k, next, a, 1, a.from, calls[1 := Looked(RequestFor(k, a))]);
  }

  // ---- Revocation during a call ----

  /** Revoking a stamp does not stop a call that has presented it: for every token the
      engine issues there is a run that revokes it and then redeems it. */
  lemma RevocationMissesCallUnderWay(k: Keys, a: Approval)
    requires !IsBlank(a.digestSummary) && IsLegalTransition(a.from, a.to)
    ensures exists ops, t :: TokenFor(k, a).stamp in GateRun(k, ops).invalidated && RedeemsFor(GateRun(k, ops), t, a)
                             && TokenFor(k, a) in GateRun(k, ops).issued
  {
    var start := Prepare(k, a);
    var ops := PassChecks(k, start, a, 0, NoCalls());
    var calls := NoCalls()[0 := Looked(RequestFor(k, a))];
    var p := MovePasses(k, GateRun(k, ops), a, 0, a.from, calls);
    RunSnoc(k, ops, Revoke(TokenFor(k, a).stamp));
    assert RedeemsFor(GateRun(k, ops + [Revoke(TokenFor(k, a).stamp)]), 0, a);
  }

  /** A state with an edge into `to`. */
  function Before(to: TaskState): TaskState {
    match to
    case Backlog => Todo
    case Todo => Backlog
    case Ready => Todo
    case Running => Ready
    case Blocked => Running
    case Done => Running
    case Archived => Done
  }

  /** A call past its checks can still move a task without dependencies, revoked or not,
      exactly if the task is open, or Done and the target Archived. */
  lemma CallUnderWayStillRedeemsIff(k: Keys, ops: seq<GateOp>, t: nat, a: Approval, s: TaskState)
    requires ReadyFor(GateRun(k, ops), t, a) && FreeTask(GateRun(k, ops), a.task, s)
    ensures (exists later :: ops <= later && RedeemsFor(GateRun(k, later), t, a))
            <==> !Finished(s) || (s == Done && a.to == Archived)
  {
    if later :| ops <= later && RedeemsFor(GateRun(k, later), t, a) {
      RedeemingMovesTask(k, later, t, a);
      GateWalkSince(k, ops, later, a.task);
      var b, c := GateRun(k, ops).board, GateRun(k, later).board;
      TerminalStates(s, RowsSince(c, |b.history|, a.task), c.tasks[a.task].state);
    }
    TokensFit(k, ops, t);
    if !Finished(s) {
      var later := MoveStillPasses(k, ops, t, a, s);
    } else if s == Done && a.to == Archived {
      ReadyRedeems(GateRun(k, ops), t, a, s);
    }
  }

  lemma ReadyRedeems(g: Gate, t: nat, a: Approval, s: TaskState)
    requires ReadyFor(g, t, a) && TokenFits(g.calls[t].request) && FreeTask(g, a.task, s) && IsLegalTransition(s, a.to)
    ensures RedeemsFor(g, t, a)
  {
    assert DependencyFailure(g.board.tasks, []) == None;
  }

  lemma MoveStillPasses(k: Keys, ops: seq<GateOp>, t: nat, a: Approval, s: TaskState) returns (later: seq<GateOp>)
    requires ReadyFor(GateRun(k, ops), t, a) && TokenFits(GateRun(k, ops).calls[t].request)
    requires FreeTask(GateRun(k, ops), a.task, s) && !Finished(s)
    ensures ops <= later && RedeemsFor(GateRun(k, later), t, a)
  {
    var home := DriveHome(k, ops, a.task, s);
    later := DriveOut(k, home, a.task, Before(a.to));
    ReadyRedeems(GateRun(k, later), t, a, Before(a.to));
  }

  // ---- A logger that fails ----

  /** The call ended with its move made and no entry in the log. */
  ghost predicate MovedUnlogged(g: Gate, h: Gate, t: nat, a: Approval) {
    && RedeemsFor(g, t, a) && t !in h.calls && h.log == g.log
    && a.task in h.board.tasks && h.board.tasks[a.task].state == a.to
  }

  /** The engine promises that a logging failure fails the operation. The board has been
      moved by then and stays moved: for every token the engine issues there is a run on
      which that happens. */
  lemma LoggingFailureLeavesMove(k: Keys, a: Approval)
    requires !IsBlank(a.digestSummary) && IsLegalTransition(a.from, a.to)
    ensures exists ops, t :: MovedUnlogged(GateRun(k, ops), GateRun(k, ops + [MakeMove(t)] + [WriteLog(t, false)]), t, a)
  {
    var start := Prepare(k, a);
    var ops := PassChecks(k, start, a, 0, NoCalls());
    EntryIsLost(k, GateRun(k, ops), a, 0, NoCalls()[0 := Looked(RequestFor(k, a))]);
    RunSnoc(k, ops, MakeMove(0));
    RunSnoc(k, ops + [MakeMove(0)], WriteLog(0, false));
  }

  lemma EntryIsLost(k: Keys, g: Gate, a: Approval, t: nat, calls: map<nat, Phase>)
    requires t in calls && calls[t] == Looked(RequestFor(k, a))
    requires Stage(k, g, a, a.from, calls) && IsLegalTransition(a.from, a.to)
    ensures MovedUnlogged(g, GateStep(k, GateStep(k, g, MakeMove(t)), WriteLog(t, false)), t, a)
  {
    var p := MovePasses(k, g, a, t, a.from, calls);
    var moved := GateStep(k, g, MakeMove(t));
    assert moved.log == g.log && moved.calls[t].Decided?;
  }
}
