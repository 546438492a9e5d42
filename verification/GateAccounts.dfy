/** Every call is logged once and every move is accounted for, however calls overlap. */
module GateAccounts {
  import opened Types
  import opened KanbanBoard
  import opened GateEngine
  import opened GateRuns

  /** A move and its log entry: with a working logger exactly one entry, Completed
      exactly if the board moved; the answer prepared is Ok exactly then, and any error
      leaves the board as it was. With a failing logger there is no entry, moved or not. */
  lemma RedemptionIsAccountedFor(k: Keys, g: Gate, t: nat, healthy: bool)
    requires IsLooked(g, t)
    ensures var moved := GateStep(k, g, MakeMove(t));
            var h := GateStep(k, moved, WriteLog(t, healthy));
            && (healthy ==> |h.log| == |g.log| + 1 && h.log[..|g.log|] == g.log
                            && h.log[|g.log|].task == g.calls[t].request.task && h.log[|g.log|].at == g.calls[t].request.at
                            && (h.log[|g.log|].outcome.Completed? <==> Redeems(g, t)))
            && (!healthy ==> h.log == g.log)
            && t in moved.calls && moved.calls[t].Decided?
            && (moved.calls[t].decision.answer.Ok? <==> Redeems(g, t))
            && (h.board != g.board <==> Redeems(g, t))
  {
    RedeemsIff(k, g, t);
  }

  function CompletedIn(log: seq<CallLog>): nat {
    if log == [] then 0 else CompletedIn(log[..|log| - 1]) + if log[|log| - 1].outcome.Completed? then 1 else 0
  }

  /** Calls that have moved the board and not written their entry yet. */
  ghost function Owing(g: Gate): set<nat> {
    set t | t in g.calls && g.calls[t].Decided? && g.calls[t].decision.outcome.Completed?
  }

  // What one step adds to each count.
  datatype Tally = Tally(begun: nat, moved: nat, failedEntries: nat, lostMoves: nat)

  ghost function StepTally(g: Gate, op: GateOp): Tally {
    var ends := Ends(g, op) && !op.loggerHealthy;
    Tally(if op.Present? && op.t !in g.calls then 1 else 0,
          if op.MakeMove? && Redeems(g, op.t) then 1 else 0,
          if ends then 1 else 0,
          if ends && g.calls[op.t].decision.outcome.Completed? then 1 else 0)
  }

  /** Calls begun, board moves made, log entries the logger failed to take, and those of
      them that were of moves. */
  ghost function RunTally(k: Keys, ops: seq<GateOp>): Tally {
    if ops == [] then Tally(0, 0, 0, 0)
    else
      var x, y := RunTally(k, ops[..|ops| - 1]), StepTally(GateRun(k, ops[..|ops| - 1]), ops[|ops| - 1]);
      Tally(x.begun + y.begun, x.moved + y.moved, x.failedEntries + y.failedEntries, x.lostMoves + y.lostMoves)
  }

  ghost predicate Ends(g: Gate, op: GateOp) {
    op.WriteLog? && op.t in g.calls && g.calls[op.t].Decided?
  }

  lemma StepKeys(k: Keys, g: Gate, op: GateOp)
    ensures GateStep(k, g, op).calls.Keys
            == if op.Present? then g.calls.Keys + {op.t} else if Ends(g, op) then g.calls.Keys - {op.t} else g.calls.Keys
  {}

  lemma StepLogLength(k: Keys, g: Gate, op: GateOp)
    ensures |GateStep(k, g, op).log| == |g.log| + if Ends(g, op) && op.loggerHealthy then 1 else 0
  {}

  /** What a step does to log and calls under way. */
  lemma StepBalancesCalls(k: Keys, g: Gate, op: GateOp)
    ensures var h, y := GateStep(k, g, op), StepTally(g, op);
            |h.log| + |h.calls| + y.failedEntries == |g.log| + |g.calls| + y.begun
  {
    StepKeys(k, g, op);
    StepLogLength(k, g, op);
    KeysBalance(g.calls, GateStep(k, g, op).calls, g, op);
  }

  lemma KeysBalance(calls: map<nat, Phase>, after: map<nat, Phase>, g: Gate, op: GateOp)
    requires calls == g.calls
    requires after.Keys == if op.Present? then calls.Keys + {op.t} else if Ends(g, op) then calls.Keys - {op.t} else calls.Keys
    ensures |after| == |calls| + (if op.Present? && op.t !in calls then 1 else 0) - (if Ends(g, op) then 1 else 0)
  {
    assert |after| == |after.Keys| && |calls| == |calls.Keys|;
    if op.Present? {
      assert op.t in calls.Keys ==> calls.Keys + {op.t} == calls.Keys;
    } else if Ends(g, op) {
      assert op.t in calls.Keys;
    }
  }

  /** Completed entries, moves outstanding and moves lost account for the moves made. */
  ghost predicate MovesBalance(g: Gate, h: Gate, y: Tally) {
    CompletedIn(h.log) + |Owing(h)| + y.lostMoves == CompletedIn(g.log) + |Owing(g)| + y.moved
  }

  lemma StepBalancesMoves(k: Keys, g: Gate, op: GateOp)
    ensures MovesBalance(g, GateStep(k, g, op), StepTally(g, op))
  {
    match op
    case MakeMove(t) => MoveBalancesMoves(k, g, t);
    case WriteLog(t, healthy) => LogBalancesMoves(k, g, t, healthy);
    case _ => OtherStepsOweNothing(k, g, op);
  }

  lemma MoveBalancesMoves(k: Keys, g: Gate, t: nat)
    ensures MovesBalance(g, GateStep(k, g, MakeMove(t)), StepTally(g, MakeMove(t)))
  {
    MoveOwes(k, g, t);
  }

  lemma LogBalancesMoves(k: Keys, g: Gate, t: nat, healthy: bool)
    ensures MovesBalance(g, GateStep(k, g, WriteLog(t, healthy)), StepTally(g, WriteLog(t, healthy)))
  {
    LogPays(k, g, t, healthy);
  }

  lemma OtherStepsOweNothing(k: Keys, g: Gate, op: GateOp)
    requires !op.MakeMove? && !op.WriteLog?
    ensures MovesBalance(g, GateStep(k, g, op), StepTally(g, op))
  {
    if op.Present? {
      PresentOwesNothing(k, g, op.t, op.request);
    } else if op.CheckStage? {
      StageCheckOwesNothing(k, g, op.t);
    } else {
      assert Owing(GateStep(k, g, op)) == Owing(g);
    }
  }

  lemma PresentOwesNothing(k: Keys, g: Gate, t: nat, q: Request)
    ensures Owing(GateStep(k, g, Present(t, q))) == Owing(g) && GateStep(k, g, Present(t, q)).log == g.log
  {
    TokenCheckCompletesNothing(k, g, q);
  }

  lemma TokenCheckCompletesNothing(k: Keys, g: Gate, q: Request)
    ensures AfterTokenCheck(k, g, q).Decided? ==> !AfterTokenCheck(k, g, q).decision.outcome.Completed?
  {}

  lemma StageCheckOwesNothing(k: Keys, g: Gate, t: nat)
    ensures Owing(GateStep(k, g, CheckStage(t))) == Owing(g) && GateStep(k, g, CheckStage(t)).log == g.log
  {}

  lemma MoveOwes(k: Keys, g: Gate, t: nat)
    ensures Owing(GateStep(k, g, MakeMove(t))) == Owing(g) + (if Redeems(g, t) then {t} else {})
    ensures GateStep(k, g, MakeMove(t)).log == g.log
    ensures Redeems(g, t) ==> t !in Owing(g)
  {
    if IsLooked(g, t) {
      DecidesAsItMoves(g, t);
    }
  }

  lemma DecidesAsItMoves(g: Gate, t: nat)
    requires IsLooked(g, t)
    ensures MoveDecision(g.board, g.calls[t].request).outcome.Completed? <==> Redeems(g, t)
  {}

  lemma LogPays(k: Keys, g: Gate, t: nat, healthy: bool)
    ensures var h, y := GateStep(k, g, WriteLog(t, healthy)), StepTally(g, WriteLog(t, healthy));
            CompletedIn(h.log) + |Owing(h)| + y.lostMoves == CompletedIn(g.log) + |Owing(g)|
  {
    var h := GateStep(k, g, WriteLog(t, healthy));
    if t in g.calls && g.calls[t].Decided? {
      assert Owing(h) == Owing(g) - {t};
      if healthy {
        assert h.log[..|h.log| - 1] == g.log;
      } else {
        assert h.log == g.log;
      }
    }
  }

  /** On every run the calls begun are those logged, those under way and those whose
      entry the logger failed to take; and the moves the gate made on the board are the
      Completed entries, those still owed and those lost that way. */
  lemma {:induction false} EveryCallIsAccountedFor(k: Keys, ops: seq<GateOp>)
    ensures var g, y := GateRun(k, ops), RunTally(k, ops);
            && y.begun == |g.log| + |g.calls| + y.failedEntries
            && y.moved == CompletedIn(g.log) + |Owing(g)| + y.lostMoves
  {
    if ops == [] {
      assert Owing(NEW_GATE) == {};
    } else {
      EveryCallIsAccountedFor(k, ops[..|ops| - 1]);
      StepBalancesCalls(k, GateRun(k, ops[..|ops| - 1]), ops[|ops| - 1]);
      StepBalancesMoves(k, GateRun(k, ops[..|ops| - 1]), ops[|ops| - 1]);
    }
  }
}
