/** Tokens over whole runs. Any number of `guarded_transition` calls are under way
    at once, each in four steps that other calls may fall between: token check, stage
    check, move, log entry. In between tokens are issued and stamps revoked, and
    other clients move the board. */
module GateRuns {
  import opened ByteCodec
  import opened Types
  import opened KanbanState
  import opened KanbanBoard
  import opened KanbanRuns
  import opened Security
  import opened GateEngine

  // How far a call has come; `from` is the state its token names.
  datatype Phase =
    | Validated(request: Request, from: TaskState)
    | Looked(request: Request)
    | Decided(request: Request, decision: Decision)

  // `issued` lists the tokens the engine has handed out, `stamped` everything the
  // security module has put a stamp on, for the engine or for others.
  datatype Gate = Gate(
    board: Board, invalidated: set<Stamp>, issued: seq<GateToken>, stamped: seq<seq<byte>>,
    calls: map<nat, Phase>, log: seq<CallLog>)

  datatype GateOp =
    | Issue(approval: Approval)
    | StampOther(content: seq<byte>)
    | Revoke(stamp: Stamp)
    | BoardCall(call: Op)
    | Present(t: nat, request: Request)
    | CheckStage(t: nat)
    | MakeMove(t: nat)
    | WriteLog(t: nat, loggerHealthy: bool)

  const NEW_GATE := Gate(EMPTY_BOARD, {}, [], [], map[], [])

  // The message layout and the keyed MAC of the module.
  datatype Keys = Keys(layout: Layout, mac: seq<byte> -> Stamp)

  ghost function MessageFor(k: Keys, a: Approval): seq<byte> {
    MessageOf(k.layout, a)
  }

  ghost function StampOf(k: Keys, a: Approval): Stamp {
    k.mac(MessageFor(k, a))
  }

  ghost predicate TokenIsAuthentic(k: Keys, g: Gate, q: Request) {
    q.token.Some? && Authentic(k.layout, k.mac, g.invalidated, q.token.value)
  }

  // ---- Steps ----

  ghost function AfterTokenCheck(k: Keys, g: Gate, q: Request): Phase {
    match TokenRefusal(TokenIsAuthentic(k, g, q), q)
    case Some(d) => Decided(q, d)
    case None => Validated(q, q.token.value.approval.from)
  }

  ghost function AfterStageCheck(b: Board, q: Request, from: TaskState): Phase {
    match StageRefusal(from, b, q)
    case Some(d) => Decided(q, d)
    case None => Looked(q)
  }

  /** A step of a call that has not come to it, or is past it, does nothing. */
  ghost function GateStep(k: Keys, g: Gate, op: GateOp): Gate {
    match op
    case Issue(a) =>
      if IsBlank(a.digestSummary) || !IsLegalTransition(a.from, a.to) then g
      else g.(issued := g.issued + [GateToken(a, StampOf(k, a))], stamped := g.stamped + [MessageFor(k, a)])
    case StampOther(content) => g.(stamped := g.stamped + [content])
    case Revoke(s) => g.(invalidated := g.invalidated + {s})
    case BoardCall(c) => g.(board := Step(g.board, c).0)
    case Present(t, q) =>
      if t in g.calls then g else g.(calls := g.calls[t := AfterTokenCheck(k, g, q)])
    case CheckStage(t) =>
      if t in g.calls && g.calls[t].Validated? then
        g.(calls := g.calls[t := AfterStageCheck(g.board, g.calls[t].request, g.calls[t].from)])
      else g
    case MakeMove(t) =>
      if t in g.calls && g.calls[t].Looked? then
        var q := g.calls[t].request;
        g.(board := Step(g.board, MoveOp(q)).0, calls := g.calls[t := Decided(q, MoveDecision(g.board, q))])
      else g
    case WriteLog(t, healthy) =>
      if t in g.calls && g.calls[t].Decided? then
        g.(calls := g.calls - {t}, log := g.log + Logged(g.calls[t].request, g.calls[t].decision.outcome, healthy))
      else g
  }

  ghost function GateRun(k: Keys, ops: seq<GateOp>): Gate {
    if ops == [] then NEW_GATE else GateStep(k, GateRun(k, ops[..|ops| - 1]), ops[|ops| - 1])
  }

  lemma RunSnoc(k: Keys, ops: seq<GateOp>, op: GateOp)
    ensures GateRun(k, ops + [op]) == GateStep(k, GateRun(k, ops), op)
  {
    assert (ops + [op])[..|ops|] == ops;
  }

  /** The four steps do what `guarded_transition` does: refused for its token ... */
  lemma TokenRefusalIsOneCall(k: Keys, g: Gate, t: nat, q: Request, healthy: bool)
    requires t !in g.calls && TokenRefusal(TokenIsAuthentic(k, g, q), q).Some?
    ensures var d := TokenRefusal(TokenIsAuthentic(k, g, q), q).value;
            GateStep(k, GateStep(k, g, Present(t, q)), WriteLog(t, healthy)) == g.(log := g.log + Logged(q, d.outcome, healthy))
  {
    CallEnds(g.calls, t, AfterTokenCheck(k, g, q));
  }

  /** ... or for its stage ... */
  lemma StageRefusalIsOneCall(k: Keys, g: Gate, t: nat, q: Request, healthy: bool)
    requires t in g.calls && g.calls[t].Validated? && q == g.calls[t].request
    requires StageRefusal(g.calls[t].from, g.board, q).Some?
    ensures var d := StageRefusal(g.calls[t].from, g.board, q).value;
            GateStep(k, GateStep(k, g, CheckStage(t)), WriteLog(t, healthy))
            == g.(calls := g.calls - {t}, log := g.log + Logged(q, d.outcome, healthy))
  {
    CallEnds(g.calls, t, Decided(q, StageRefusal(g.calls[t].from, g.board, q).value));
  }

  /** ... or moving whatever the board has become by then. */
  lemma MoveIsOneCall(k: Keys, g: Gate, t: nat, q: Request, later: Board, healthy: bool)
    requires t in g.calls && g.calls[t].Validated? && q == g.calls[t].request
    requires StageRefusal(g.calls[t].from, g.board, q).None?
    ensures var checked := GateStep(k, g, CheckStage(t));
            GateStep(k, GateStep(k, checked.(board := later), MakeMove(t)), WriteLog(t, healthy))
            == g.(board := Step(later, MoveOp(q)).0, calls := g.calls - {t},
                  log := g.log + Logged(q, MoveDecision(later, q).outcome, healthy))
  {
    var checked := GateStep(k, g, CheckStage(t));
    assert checked == g.(calls := g.calls[t := Looked(q)]);
    var moved := GateStep(k, checked.(board := later), MakeMove(t));
    CallEnds(g.calls, t, Decided(q, MoveDecision(later, q)));
    assert g.calls[t := Looked(q)][t := Decided(q, MoveDecision(later, q))] == g.calls[t := Decided(q, MoveDecision(later, q))];
    assert moved == g.(board := Step(later, MoveOp(q)).0, calls := g.calls[t := Decided(q, MoveDecision(later, q))]);
  }

  lemma CallEnds(calls: map<nat, Phase>, t: nat, p: Phase)
    ensures calls[t := p] - {t} == calls - {t}
    ensures t !in calls ==> calls - {t} == calls
  {}

  // ---- One move ----

  /** The step moves the board for a call. */
  ghost predicate Redeems(g: Gate, t: nat) {
    t in g.calls && g.calls[t].Looked? && Step(g.board, MoveOp(g.calls[t].request)).1.Ok?
  }

  /** A call past both checks moves the board exactly if the edge from where the task
      is by then is legal and a Ready target has its dependencies Done; its history row
      starts from there. Any other step of a call leaves the board alone. */
  lemma RedeemsIff(k: Keys, g: Gate, t: nat)
    requires t in g.calls && g.calls[t].Looked?
    ensures var q := g.calls[t].request;
            && (Redeems(g, t)
                <==> q.task in g.board.tasks && IsLegalTransition(g.board.tasks[q.task].state, q.to)
                     && (q.to == Ready ==> forall d :: d in g.board.tasks[q.task].dependsOn ==> Satisfied(g.board.tasks, d)))
            && (Redeems(g, t) ==>
                  GateStep(k, g, MakeMove(t)).board.history
                  == g.board.history + [StateChange(q.task, g.board.tasks[q.task].state, q.to, q.actor, q.at, q.reason)]
                  && GateStep(k, g, MakeMove(t)).board.tasks[q.task].state == q.to)
            && (!Redeems(g, t) ==> GateStep(k, g, MakeMove(t)).board == g.board)
  {
    if g.calls[t].request.task in g.board.tasks {
      DependencyFailureMeaning(g.board.tasks, g.board.tasks[g.calls[t].request.task].dependsOn);
    }
  }

  // ---- What a call past its checks has shown ----

  /** The request's token says what is asked for, under a stamp of the module's key. */
  ghost predicate Vouched(k: Keys, q: Request) {
    TokenFits(q) && q.token.value.stamp == StampOf(k, q.token.value.approval)
  }

  predicate TokenFits(q: Request) {
    && q.token.Some?
    && q.token.value.approval.task == q.task && q.token.value.approval.to == q.to
    && q.token.value.approval.actor == q.actor
  }

  ghost predicate PhaseHolds(k: Keys, p: Phase) {
    match p
    case Validated(q, from) => Vouched(k, q) && from == q.token.value.approval.from
    case Looked(q) => Vouched(k, q)
    case Decided(q, d) => d.answer.Ok? <==> d.outcome.Completed?
  }

  lemma TokenCheckHolds(k: Keys, g: Gate, q: Request)
    ensures PhaseHolds(k, AfterTokenCheck(k, g, q))
  {}

  lemma StageCheckHolds(k: Keys, b: Board, q: Request, from: TaskState)
    requires Vouched(k, q)
    ensures PhaseHolds(k, AfterStageCheck(b, q, from))
  {}

  lemma MoveHolds(k: Keys, b: Board, q: Request)
    ensures PhaseHolds(k, Decided(q, MoveDecision(b, q)))
  {}

  lemma StepPhasesHold(k: Keys, g: Gate, op: GateOp, t: nat)
    requires t in GateStep(k, g, op).calls
    requires t in g.calls ==> PhaseHolds(k, g.calls[t])
    ensures PhaseHolds(k, GateStep(k, g, op).calls[t])
  {
    match op
    case Present(u, q) => TokenCheckHolds(k, g, q);
    case CheckStage(u) =>
      if u == t && t in g.calls && g.calls[t].Validated? {
        StageCheckHolds(k, g.board, g.calls[t].request, g.calls[t].from);
      }
    case MakeMove(u) =>
      if u == t && t in g.calls && g.calls[t].Looked? {
        MoveHolds(k, g.board, g.calls[t].request);
      }
    case _ =>
  }

  lemma {:induction false} PhasesHold(k: Keys, ops: seq<GateOp>, t: nat)
    requires t in GateRun(k, ops).calls
    ensures PhaseHolds(k, GateRun(k, ops).calls[t])
  {
    var init := ops[..|ops| - 1];
    if t in GateRun(k, init).calls {
      PhasesHold(k, init, t);
    }
    StepPhasesHold(k, GateRun(k, init), ops[|ops| - 1], t);
  }

  lemma TokensFit(k: Keys, ops: seq<GateOp>, t: nat)
    requires t in GateRun(k, ops).calls && !GateRun(k, ops).calls[t].Decided?
    ensures var p := GateRun(k, ops).calls[t];
            TokenFits(p.request) && (p.Validated? ==> p.from == p.request.token.value.approval.from)
  {
    PhasesHold(k, ops, t);
  }

  /** At step `i` the token was presented, and was authentic and not revoked. */
  ghost predicate PresentedAt(k: Keys, ops: seq<GateOp>, i: int, t: nat, q: Request) {
    0 <= i < |ops| && ops[i] == Present(t, q) && TokenIsAuthentic(k, GateRun(k, ops[..i]), q)
  }

  /** At step `j` the task was in the state the token names. */
  ghost predicate CheckedAt(k: Keys, ops: seq<GateOp>, j: int, t: nat, q: Request) {
    && 0 <= j < |ops| && ops[j] == CheckStage(t) && q.token.Some?
    && var b := GateRun(k, ops[..j]).board;
       q.task in b.tasks && b.tasks[q.task].state == q.token.value.approval.from
  }

  ghost predicate WasPresented(k: Keys, ops: seq<GateOp>, t: nat, q: Request) {
    exists i :: PresentedAt(k, ops, i, t, q)
  }

  ghost predicate WasChecked(k: Keys, ops: seq<GateOp>, t: nat, q: Request) {
    exists i, j :: PresentedAt(k, ops, i, t, q) && i < j && CheckedAt(k, ops, j, t, q)
  }

  /** Where a call under way comes from in one step. */
  ghost predicate CameFrom(k: Keys, g: Gate, op: GateOp, t: nat, p: Phase) {
    if t in g.calls then
      && !g.calls[t].Decided? && g.calls[t].request == p.request
      && (p.Looked? && !g.calls[t].Looked? ==>
            op == CheckStage(t) && p.request.task in g.board.tasks
            && g.board.tasks[p.request.task].state == g.calls[t].from)
    else p.Validated? && op == Present(t, p.request) && TokenIsAuthentic(k, g, p.request)
  }

  lemma StepOrigin(k: Keys, g: Gate, op: GateOp, t: nat)
    requires t in GateStep(k, g, op).calls && !GateStep(k, g, op).calls[t].Decided?
    ensures CameFrom(k, g, op, t, GateStep(k, g, op).calls[t])
  {}

  /** Every call ready to move presented an authentic token that was not revoked and
      then found its task in the token's state. */
  lemma {:induction false} CallsWereChecked(k: Keys, ops: seq<GateOp>, t: nat)
    requires t in GateRun(k, ops).calls && !GateRun(k, ops).calls[t].Decided?
    ensures var p := GateRun(k, ops).calls[t];
            WasPresented(k, ops, t, p.request) && (p.Looked? ==> WasChecked(k, ops, t, p.request))
  {
    var init, op := ops[..|ops| - 1], ops[|ops| - 1];
    var g, p := GateRun(k, init), GateRun(k, ops).calls[t];
    StepOrigin(k, g, op, t);
    if t in g.calls {
      CallsWereChecked(k, init, t);
      CheckedEarlier(k, init, ops, t, p.request);
      if !g.calls[t].Looked? && p.Looked? {
        TokensFit(k, init, t);
        NewlyChecked(k, init, ops, t, p.request);
      }
    } else {
      assert PresentedAt(k, ops, |init|, t, p.request);
    }
  }

  lemma NewlyChecked(k: Keys, init: seq<GateOp>, ops: seq<GateOp>, t: nat, q: Request)
    requires init <= ops && |ops| == |init| + 1 && WasPresented(k, init, t, q)
    requires CheckedAt(k, ops, |init|, t, q)
    ensures WasChecked(k, ops, t, q)
  {
    CheckedEarlier(k, init, ops, t, q);
    var i :| PresentedAt(k, ops, i, t, q) && i < |init|;
  }

  lemma CheckedEarlier(k: Keys, init: seq<GateOp>, ops: seq<GateOp>, t: nat, q: Request)
    requires init <= ops && WasPresented(k, init, t, q)
    ensures exists i :: PresentedAt(k, ops, i, t, q) && i < |init|
    ensures WasChecked(k, init, t, q) ==> WasChecked(k, ops, t, q)
  {
    assert forall i :: 0 <= i <= |init| ==> ops[..i] == init[..i];
    var i :| PresentedAt(k, init, i, t, q);
    assert PresentedAt(k, ops, i, t, q);
    if WasChecked(k, init, t, q) {
      var i, j :| PresentedAt(k, init, i, t, q) && i < j && CheckedAt(k, init, j, t, q);
      assert PresentedAt(k, ops, i, t, q) && CheckedAt(k, ops, j, t, q);
    }
  }

  // ---- Authenticity ----

  /** Everything issued had a digest, a legal edge and a request of exactly its content. */
  ghost predicate WasIssued(k: Keys, ops: seq<GateOp>, t: GateToken) {
    && t.stamp == StampOf(k, t.approval)
    && !IsBlank(t.approval.digestSummary) && IsLegalTransition(t.approval.from, t.approval.to)
    && exists i :: 0 <= i < |ops| && ops[i] == Issue(t.approval)
  }

  lemma {:induction false} IssuedTokens(k: Keys, ops: seq<GateOp>, t: GateToken)
    requires t in GateRun(k, ops).issued
    ensures WasIssued(k, ops, t)
  {
    var init, op := ops[..|ops| - 1], ops[|ops| - 1];
    if t in GateRun(k, init).issued {
      IssuedTokens(k, init, t);
      var i :| 0 <= i < |init| && init[i] == Issue(t.approval);
      assert ops[i] == Issue(t.approval);
    } else {
      assert op == Issue(t.approval);
    }
  }

  ghost predicate IsIssuedMessage(k: Keys, g: Gate, content: seq<byte>) {
    exists t :: t in g.issued && MessageFor(k, t.approval) == content
  }

  lemma StepStamps(k: Keys, g: Gate, op: GateOp, content: seq<byte>)
    requires content in GateStep(k, g, op).stamped
    ensures content in g.stamped || op == StampOther(content) || IsIssuedMessage(k, GateStep(k, g, op), content)
  {
    var h := GateStep(k, g, op);
    if op.Issue? && h != g {
      assert GateToken(op.approval, StampOf(k, op.approval)) in h.issued;
    }
  }

  lemma IssuedGrows(k: Keys, g: Gate, op: GateOp)
    ensures g.issued <= GateStep(k, g, op).issued
  {}

  lemma StepKeepsIssued(k: Keys, g: Gate, op: GateOp, content: seq<byte>)
    requires IsIssuedMessage(k, g, content)
    ensures IsIssuedMessage(k, GateStep(k, g, op), content)
  {
    IssuedGrows(k, g, op);
    var t :| t in g.issued && MessageFor(k, t.approval) == content;
    assert t in GateStep(k, g, op).issued;
  }

  /** Whatever was stamped is the message of an issued token or was stamped for others. */
  lemma {:induction false} StampedContents(k: Keys, ops: seq<GateOp>, content: seq<byte>)
    requires content in GateRun(k, ops).stamped
    ensures IsIssuedMessage(k, GateRun(k, ops), content) || StampOther(content) in ops
  {
    var init, op := ops[..|ops| - 1], ops[|ops| - 1];
    assert op in ops && forall x :: x in init ==> x in ops;
    StepStamps(k, GateRun(k, init), op, content);
    if content in GateRun(k, init).stamped {
      StampedContents(k, init, content);
      if IsIssuedMessage(k, GateRun(k, init), content) {
        StepKeepsIssued(k, GateRun(k, init), op, content);
      }
    }
  }

  /** The stamp presented is one the module has issued, on whatever content. */
  ghost predicate StampWasIssued(k: Keys, g: Gate, s: Stamp) {
    exists content :: content in g.stamped && k.mac(content) == s
  }

  /** The MAC tells the presented message from everything stamped. */
  ghost predicate NoCollision(k: Keys, g: Gate, a: Approval) {
    forall content :: content in g.stamped && k.mac(content) == StampOf(k, a) ==> content == MessageFor(k, a)
  }

  /** Presented with a stamp the module has issued, a token that moves the board was
      issued by the engine: same task, edge, actor, notice and digest, the digest not
      blank and the edge legal. The one other way is that somebody had the module stamp
      that very message. The new history row shows the token's target and actor. */
  lemma RedeemedTokenWasIssued(k: Keys, ops: seq<GateOp>, t: nat)
    requires t in GateRun(k, ops).calls && GateRun(k, ops).calls[t].Looked?
    ensures var g := GateRun(k, ops);
            var q := g.calls[t].request;
            && q.token.Some?
            && var p := q.token.value;
               Redeems(g, t) && StampWasIssued(k, g, p.stamp) && NoCollision(k, g, p.approval) ==>
                 && ((p in g.issued && WasIssued(k, ops, p)) || StampOther(MessageFor(k, p.approval)) in ops)
                 && q.task in g.board.tasks
                 && GateStep(k, g, MakeMove(t)).board.history
                    == g.board.history + [StateChange(p.approval.task, g.board.tasks[q.task].state, p.approval.to,
                                                      p.approval.actor, q.at, q.reason)]
  {
    var g := GateRun(k, ops);
    PhasesHold(k, ops, t);
    var p := g.calls[t].request.token.value;
    RedeemsIff(k, g, t);
    if Redeems(g, t) && StampWasIssued(k, g, p.stamp) && NoCollision(k, g, p.approval) {
      var content :| content in g.stamped && k.mac(content) == p.stamp;
      StampedContents(k, ops, content);
      if StampOther(content) !in ops {
        var i :| i in g.issued && MessageFor(k, i.approval) == content;
        IssuedTokens(k, ops, i);
        MessageInjective(k.layout, i.approval, p.approval);
        assert i == p;
      }
    }
  }

  // ---- Revocation ----

  ghost predicate UnderWay(g: Gate, s: Stamp) {
    exists t :: t in g.calls && !g.calls[t].Decided? && g.calls[t].request.token.Some?
                && g.calls[t].request.token.value.stamp == s
  }

  /** A stamp revoked while no call that presented it is under way moves nothing any
      more, on any continuation. */
  lemma {:induction false} RevokedTokenNeverRedeems(k: Keys, ops: seq<GateOp>, later: seq<GateOp>, s: Stamp)
    requires ops <= later && s in GateRun(k, ops).invalidated && !UnderWay(GateRun(k, ops), s)
    ensures s in GateRun(k, later).invalidated && !UnderWay(GateRun(k, later), s)
    ensures forall t :: Redeems(GateRun(k, later), t) && GateRun(k, later).calls[t].request.token.Some? ==>
              GateRun(k, later).calls[t].request.token.value.stamp != s
    decreases |later|
  {
    if later != ops {
      var init := later[..|later| - 1];
      RevokedTokenNeverRedeems(k, ops, init, s);
      StepStaysRevoked(k, GateRun(k, init), later[|later| - 1], s);
    }
  }

  lemma StepStaysRevoked(k: Keys, g: Gate, op: GateOp, s: Stamp)
    requires s in g.invalidated && !UnderWay(g, s)
    ensures s in GateStep(k, g, op).invalidated && !UnderWay(GateStep(k, g, op), s)
  {
    var h := GateStep(k, g, op);
    forall t | t in h.calls && !h.calls[t].Decided? && h.calls[t].request.token.Some?
      ensures h.calls[t].request.token.value.stamp != s
    {
      StepOrigin(k, g, op, t);
    }
  }

  // ---- The board of a gate run is the board of a board run ----

  ghost function BoardOps(k: Keys, ops: seq<GateOp>): seq<Op> {
    if ops == [] then []
    else BoardOps(k, ops[..|ops| - 1]) + BoardOpOf(GateRun(k, ops[..|ops| - 1]), ops[|ops| - 1])
  }

  ghost function BoardOpOf(g: Gate, op: GateOp): seq<Op> {
    if op.BoardCall? then [op.call]
    else if op.MakeMove? && op.t in g.calls && g.calls[op.t].Looked? then [MoveOp(g.calls[op.t].request)]
    else []
  }

  lemma StepIsBoardOp(k: Keys, g: Gate, op: GateOp)
    ensures GateStep(k, g, op).board
            == if BoardOpOf(g, op) == [] then g.board else Step(g.board, BoardOpOf(g, op)[0]).0
  {}

  lemma {:induction false} GateBoardIsBoardRun(k: Keys, ops: seq<GateOp>)
    ensures GateRun(k, ops).board == Run(BoardOps(k, ops))
  {
    if ops != [] {
      var init, op := ops[..|ops| - 1], ops[|ops| - 1];
      GateBoardIsBoardRun(k, init);
      StepIsBoardOp(k, GateRun(k, init), op);
      var tail := BoardOpOf(GateRun(k, init), op);
      if tail == [] {
        assert BoardOps(k, ops) == BoardOps(k, init);
      } else {
        assert BoardOps(k, ops)[..|BoardOps(k, ops)| - 1] == BoardOps(k, init);
      }
    }
  }

  lemma {:induction false} BoardOpsExtend(k: Keys, ops: seq<GateOp>, later: seq<GateOp>) returns (rest: seq<Op>)
    requires ops <= later
    ensures BoardOps(k, later) == BoardOps(k, ops) + rest
    decreases |later|
  {
    if later == ops {
      rest := [];
    } else {
      var init := later[..|later| - 1];
      rest := BoardOpsExtend(k, ops, init);
      rest := rest + BoardOpOf(GateRun(k, init), later[|later| - 1]);
    }
  }

  lemma GateHistoryGrows(k: Keys, ops: seq<GateOp>, later: seq<GateOp>)
    requires ops <= later
    ensures GateRun(k, ops).board.history <= GateRun(k, later).board.history
  {
    GateBoardIsBoardRun(k, ops);
    GateBoardIsBoardRun(k, later);
    var rest := BoardOpsExtend(k, ops, later);
    RunExtends(BoardOps(k, ops), rest);
  }

  /** `WalkSince` for gate runs. */
  lemma GateWalkSince(k: Keys, ops: seq<GateOp>, later: seq<GateOp>, t: TaskId)
    requires ops <= later && t in GateRun(k, ops).board.tasks
    ensures var b, c := GateRun(k, ops).board, GateRun(k, later).board;
            && t in c.tasks && b.history <= c.history
            && LegalWalk(b.tasks[t].state, RowsSince(c, |b.history|, t), c.tasks[t].state)
  {
    GateBoardIsBoardRun(k, ops);
    GateBoardIsBoardRun(k, later);
    var rest := BoardOpsExtend(k, ops, later);
    WalkSince(BoardOps(k, ops), rest, t);
  }

  // ---- Two redemptions ----

  ghost predicate IsLooked(g: Gate, t: nat) {
    t in g.calls && g.calls[t].Looked?
  }

  /** The call is ready to move on the strength of the approval. */
  ghost predicate ReadyFor(g: Gate, t: nat, a: Approval) {
    IsLooked(g, t) && g.calls[t].request.token.Some? && g.calls[t].request.token.value.approval == a
  }

  ghost predicate RedeemsFor(g: Gate, t: nat, a: Approval) {
    Redeems(g, t) && ReadyFor(g, t, a)
  }

  /** After `ops` call `first` redeems the approval, and at a later point of the run
      call `second` does. */
  ghost predicate RedeemedTwice(k: Keys, ops: seq<GateOp>, first: nat, later: seq<GateOp>, second: nat, a: Approval) {
    ops + [MakeMove(first)] <= later && RedeemsFor(GateRun(k, ops), first, a) && RedeemsFor(GateRun(k, later), second, a)
  }

  lemma RedeemingMovesTask(k: Keys, ops: seq<GateOp>, t: nat, a: Approval)
    requires RedeemsFor(GateRun(k, ops), t, a)
    ensures var b, c := GateRun(k, ops).board, GateRun(k, ops + [MakeMove(t)]).board;
            && a.task in b.tasks && IsLegalTransition(b.tasks[a.task].state, a.to)
            && a.task in c.tasks && c.tasks[a.task].state == a.to
  {
    TokensFit(k, ops, t);
    RedeemingMoves(k, GateRun(k, ops), t, a);
    RunSnoc(k, ops, MakeMove(t));
  }

  lemma RedeemingMoves(k: Keys, g: Gate, t: nat, a: Approval)
    requires RedeemsFor(g, t, a) && TokenFits(g.calls[t].request)
    ensures var c := GateStep(k, g, MakeMove(t)).board;
            && a.task in g.board.tasks && IsLegalTransition(g.board.tasks[a.task].state, a.to)
            && a.task in c.tasks && c.tasks[a.task].state == a.to
  {
    RedeemsIff(k, g, t);
  }

  /** Between two redemptions of a token, overlapping or not, its task took at least
      one step, and walked from the token's target to a state that leads there. */
  lemma RedemptionsAreApart(k: Keys, ops: seq<GateOp>, first: nat, later: seq<GateOp>, second: nat, a: Approval)
    requires RedeemedTwice(k, ops, first, later, second, a)
    ensures var b, c := GateRun(k, ops + [MakeMove(first)]).board, GateRun(k, later).board;
            && a.task in c.tasks && b.history <= c.history
            && IsLegalTransition(c.tasks[a.task].state, a.to)
            && RowsSince(c, |b.history|, a.task) != []
            && LegalWalk(a.to, RowsSince(c, |b.history|, a.task), c.tasks[a.task].state)
  {
    RedeemingMovesTask(k, ops, first, a);
    RedeemingMovesTask(k, later, second, a);
    GateWalkSince(k, ops + [MakeMove(first)], later, a.task);
  }

  /** A token into Done or Archived is redeemed at most once on any run, overlap or not. */
  lemma FinalTokensAreSingleUse(k: Keys, ops: seq<GateOp>, first: nat, later: seq<GateOp>, second: nat, a: Approval)
    requires Finished(a.to)
    ensures !RedeemedTwice(k, ops, first, later, second, a)
  {
    if RedeemedTwice(k, ops, first, later, second, a) {
      RedemptionsAreApart(k, ops, first, later, second, a);
      var b, c := GateRun(k, ops + [MakeMove(first)]).board, GateRun(k, later).board;
      TerminalStates(a.to, RowsSince(c, |b.history|, a.task), c.tasks[a.task].state);
    }
  }

  /** The history enters `s` with task `t` from row `n` on. */
  ghost predicate EntersFrom(h: seq<StateChange>, n: nat, t: TaskId, s: TaskState) {
    exists i :: n <= i < |h| && h[i].task == t && h[i].to == s
  }

  /** The board enters `s` with task `t` between two points of the run. */
  ghost predicate EntersBetween(k: Keys, ops: seq<GateOp>, later: seq<GateOp>, t: TaskId, s: TaskState) {
    EntersFrom(GateRun(k, later).board.history, |GateRun(k, ops).board.history|, t, s)
  }

  lemma RowEnters(h: seq<StateChange>, n: nat, t: TaskId, row: StateChange)
    requires n <= |h| && row in HistoryOf(h[n..], t)
    ensures EntersFrom(h, n, t, row.to)
  {
    RowIsInHistory(h[n..], t, row);
    var i :| 0 <= i < |h[n..]| && h[n..][i] == row;
    assert h[n + i] == row;
  }

  /** The task is in the state the token names. */
  ghost predicate StageFits(b: Board, q: Request) {
    q.token.Some? && q.task in b.tasks && b.tasks[q.task].state == q.token.value.approval.from
  }

  /** A call that passed its stage check since `ops` found its task in the token's state
      at some point since. */
  lemma {:induction false} CheckedSince(k: Keys, ops: seq<GateOp>, later: seq<GateOp>, t: nat) returns (mid: seq<GateOp>)
    requires ops <= later && IsLooked(GateRun(k, later), t) && !IsLooked(GateRun(k, ops), t)
    ensures ops <= mid <= later && StageFits(GateRun(k, mid).board, GateRun(k, later).calls[t].request)
    decreases |later|
  {
    if later != ops {
      var init := later[..|later| - 1];
      StepOrigin(k, GateRun(k, init), later[|later| - 1], t);
      if IsLooked(GateRun(k, init), t) {
        mid := CheckedSince(k, ops, init, t);
      } else {
        TokensFit(k, init, t);
        mid := init;
      }
    }
  }

  /** If the second call checked the stage after the first had moved the board, the
      task entered the `from` state again in between. */
  lemma RecheckedRedemptionsAreSeparated(k: Keys, ops: seq<GateOp>, first: nat, later: seq<GateOp>, second: nat, a: Approval)
    requires a.from != a.to
    ensures RedeemedTwice(k, ops, first, later, second, a) && !IsLooked(GateRun(k, ops + [MakeMove(first)]), second) ==>
              EntersBetween(k, ops + [MakeMove(first)], later, a.task, a.from)
  {
    var moved := ops + [MakeMove(first)];
    if RedeemedTwice(k, ops, first, later, second, a) && !IsLooked(GateRun(k, moved), second) {
      RedeemingMovesTask(k, ops, first, a);
      TokensFit(k, later, second);
      var mid := CheckedSince(k, moved, later, second);
      ReturnEnters(k, moved, mid, a.task, a.to, a.from);
      GateHistoryGrows(k, mid, later);
      EntersEarlier(GateRun(k, mid).board.history, GateRun(k, later).board.history,
                    |GateRun(k, moved).board.history|, a.task, a.from);
    }
  }

  /** A task seen in one state and then in another has entered the other. */
  lemma ReturnEnters(k: Keys, ops: seq<GateOp>, later: seq<GateOp>, t: TaskId, from: TaskState, to: TaskState)
    requires ops <= later && from != to
    requires t in GateRun(k, ops).board.tasks && GateRun(k, ops).board.tasks[t].state == from
    requires t in GateRun(k, later).board.tasks && GateRun(k, later).board.tasks[t].state == to
    ensures EntersBetween(k, ops, later, t, to)
  {
    GateWalkSince(k, ops, later, t);
    var rows := RowsSince(GateRun(k, later).board, |GateRun(k, ops).board.history|, t);
    WalkEnds(from, rows, to);
    RowEnters(GateRun(k, later).board.history, |GateRun(k, ops).board.history|, t, rows[|rows| - 1]);
  }

  lemma EntersEarlier(h: seq<StateChange>, longer: seq<StateChange>, n: nat, t: TaskId, s: TaskState)
    requires h <= longer && EntersFrom(h, n, t, s)
    ensures EntersFrom(longer, n, t, s)
  {
    var i :| n <= i < |h| && h[i].task == t && h[i].to == s;
    assert longer[i] == h[i];
  }
}
