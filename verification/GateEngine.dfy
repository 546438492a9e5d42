/** crates/plugin-gate-engine/src/lib.rs: approval tokens and guarded transitions. */
module GateEngine {
  import opened ByteCodec
  import opened Types
  import opened Canon
  import opened KanbanState
  import opened KanbanBoard
  import opened AuditChain
  import opened Security
  import ClientAuth

  datatype BlameNotice = BlameNotice(notice: Text, reviewTemplate: Text)

  // Everything a token says; the stamp is a MAC over all of it.
  datatype Approval = Approval(
    task: TaskId, from: TaskState, to: TaskState, actor: ActorId, blame: BlameNotice, digestSummary: Text)

  datatype GateToken = GateToken(approval: Approval, stamp: Stamp)

  // The domain tag of the message and the names of its seven fields.
  datatype Layout = Layout(
    domain: Text, task: Text, from: Text, to: Text, actor: Text, notice: Text, template: Text, digest: Text)

  const GATE_LAYOUT := Layout(
    "wyrtloom-gate-v1", "task", "from", "to", "actor", "blame_notice", "blame_template", "digest")

  // ---- The authenticated message ----

  ghost function AddTagged(fs: seq<Bytes>, tag: Text, value: Bytes): (r: seq<Bytes>)
    ensures |r| == |fs| + 2
  {
    fs + [Utf8Bytes(tag), value]
  }

  ghost function MessageFields(l: Layout, a: Approval): seq<Bytes> {
    var f0 := AddTagged([Utf8Bytes(l.domain)], l.task, TaskIdBytes(a.task));
    var f1 := AddTagged(f0, l.from, Utf8Bytes(StateName(a.from)));
    var f2 := AddTagged(f1, l.to, Utf8Bytes(StateName(a.to)));
    var f3 := AddTagged(f2, l.actor, Utf8Bytes(a.actor));
    var f4 := AddTagged(f3, l.notice, Utf8Bytes(a.blame.notice));
    var f5 := AddTagged(f4, l.template, Utf8Bytes(a.blame.reviewTemplate));
    AddTagged(f5, l.digest, Utf8Bytes(a.digestSummary))
  }

  ghost function MessageOf(l: Layout, a: Approval): seq<byte> {
    Encode(MessageFields(l, a))
  }

  method Message(l: Layout, a: Approval) returns (bs: seq<byte>)
    ensures bs == MessageOf(l, a)
  {
    var e := new CanonicalEncoder(l.domain);
    e.Tagged(l.task, TaskIdBytes(a.task));
    e.Tagged(l.from, Utf8Bytes(StateName(a.from)));
    e.Tagged(l.to, Utf8Bytes(StateName(a.to)));
    e.Tagged(l.actor, Utf8Bytes(a.actor));
    e.Tagged(l.notice, Utf8Bytes(a.blame.notice));
    e.Tagged(l.template, Utf8Bytes(a.blame.reviewTemplate));
    e.Tagged(l.digest, Utf8Bytes(a.digestSummary));
    bs := e.Finish();
  }

  /** The message pins down every part of the approval. */
  lemma MessageInjective(l: Layout, a: Approval, b: Approval)
    requires MessageOf(l, a) == MessageOf(l, b)
    ensures a == b
  {
    EncodeInjective(MessageFields(l, a), MessageFields(l, b));
    FieldsInjective(l, a, b);
  }

  lemma AddTaggedInjective(fs: seq<Bytes>, gs: seq<Bytes>, tag: Text, v: Bytes, w: Bytes)
    requires |fs| == |gs| && AddTagged(fs, tag, v) == AddTagged(gs, tag, w)
    ensures fs == gs && v == w
  {
    var x, y := AddTagged(fs, tag, v), AddTagged(gs, tag, w);
    assert fs == x[..|fs|] && gs == y[..|gs|];
    assert v == x[|fs| + 1] && w == y[|gs| + 1];
  }

  lemma FieldsInjective(l: Layout, a: Approval, b: Approval)
    requires MessageFields(l, a) == MessageFields(l, b)
    ensures a == b
  {
    var d := [Utf8Bytes(l.domain)];
    var (a0, b0) := (AddTagged(d, l.task, TaskIdBytes(a.task)), AddTagged(d, l.task, TaskIdBytes(b.task)));
    var (va, vb) := (Utf8Bytes(StateName(a.from)), Utf8Bytes(StateName(b.from)));
    var (a1, b1) := (AddTagged(a0, l.from, va), AddTagged(b0, l.from, vb));
    var (wa, wb) := (Utf8Bytes(StateName(a.to)), Utf8Bytes(StateName(b.to)));
    var (a2, b2) := (AddTagged(a1, l.to, wa), AddTagged(b1, l.to, wb));
    var (a3, b3) := (AddTagged(a2, l.actor, Utf8Bytes(a.actor)), AddTagged(b2, l.actor, Utf8Bytes(b.actor)));
    var (xa, xb) := (Utf8Bytes(a.blame.notice), Utf8Bytes(b.blame.notice));
    var (a4, b4) := (AddTagged(a3, l.notice, xa), AddTagged(b3, l.notice, xb));
    var (ya, yb) := (Utf8Bytes(a.blame.reviewTemplate), Utf8Bytes(b.blame.reviewTemplate));
    var (a5, b5) := (AddTagged(a4, l.template, ya), AddTagged(b4, l.template, yb));
    AddTaggedInjective(a5, b5, l.digest, Utf8Bytes(a.digestSummary), Utf8Bytes(b.digestSummary));
    AddTaggedInjective(a4, b4, l.template, ya, yb);
    AddTaggedInjective(a3, b3, l.notice, xa, xb);
    AddTaggedInjective(a2, b2, l.actor, Utf8Bytes(a.actor), Utf8Bytes(b.actor));
    AddTaggedInjective(a1, b1, l.to, wa, wb);
    AddTaggedInjective(a0, b0, l.from, va, vb);
    AddTaggedInjective(d, d, l.task, TaskIdBytes(a.task), TaskIdBytes(b.task));
    ValuesInjective(a, b);
  }

  lemma ValuesInjective(a: Approval, b: Approval)
    requires TaskIdBytes(a.task) == TaskIdBytes(b.task)
    requires Utf8Bytes(StateName(a.from)) == Utf8Bytes(StateName(b.from))
    requires Utf8Bytes(StateName(a.to)) == Utf8Bytes(StateName(b.to))
    requires Utf8Bytes(a.actor) == Utf8Bytes(b.actor)
    requires Utf8Bytes(a.blame.notice) == Utf8Bytes(b.blame.notice)
    requires Utf8Bytes(a.blame.reviewTemplate) == Utf8Bytes(b.blame.reviewTemplate)
    requires Utf8Bytes(a.digestSummary) == Utf8Bytes(b.digestSummary)
    ensures a == b
  {
    TaskIdBytesInjective(a.task, b.task);
    Utf8Injective(StateName(a.from), StateName(b.from));
    StateNameInjective(a.from, b.from);
    Utf8Injective(StateName(a.to), StateName(b.to));
    StateNameInjective(a.to, b.to);
    Utf8Injective(a.actor, b.actor);
    Utf8Injective(a.blame.notice, b.blame.notice);
    Utf8Injective(a.blame.reviewTemplate, b.blame.reviewTemplate);
    Utf8Injective(a.digestSummary, b.digestSummary);
  }

  lemma OtherDomain(l: Layout, a: Approval, other: Text, q: ClientAuth.Request)
    requires l.domain != other
    ensures MessageOf(l, a) != Encode(ClientAuth.RequestFields(other, q))
  {
    var x, y := MessageFields(l, a), ClientAuth.RequestFields(other, q);
    assert x[0] == Utf8Bytes(l.domain) && y[0] == Utf8Bytes(other);
    assert x == [Utf8Bytes(l.domain)] + x[1..] && y == [Utf8Bytes(other)] + y[1..];
    DomainsSeparate(l.domain, other, x[1..], y[1..], []);
    assert Encode(x) + [] == Encode(x);
  }

  /** The two users of the encoder never produce the same bytes, so neither's MAC
      or signature can pass for the other's. */
  lemma GateMessageIsNoClientRequest(a: Approval, q: ClientAuth.Request)
    ensures MessageOf(GATE_LAYOUT, a) != Encode(ClientAuth.RequestFields(ClientAuth.CLIENT_AUTH_DOMAIN, q))
  {
    assert |GATE_LAYOUT.domain| != |ClientAuth.CLIENT_AUTH_DOMAIN|;
    OtherDomain(GATE_LAYOUT, a, ClientAuth.CLIENT_AUTH_DOMAIN, q);
  }

  /** Read back, a message holds domain, then task, from, to, actor, notice, template and
      digest, each after its name. */
  lemma MessageReadsBack(l: Layout, a: Approval)
    ensures var r := Decode(MessageOf(l, a));
            && r.Some? && |r.value| == 15 && r.value[0] == Utf8Bytes(l.domain)
            && r.value[1] == Utf8Bytes(l.task) && r.value[2] == TaskIdBytes(a.task)
            && r.value[3] == Utf8Bytes(l.from) && r.value[4] == Utf8Bytes(StateName(a.from))
            && r.value[5] == Utf8Bytes(l.to) && r.value[6] == Utf8Bytes(StateName(a.to))
            && r.value[7] == Utf8Bytes(l.actor) && r.value[8] == Utf8Bytes(a.actor)
            && r.value[9] == Utf8Bytes(l.notice) && r.value[10] == Utf8Bytes(a.blame.notice)
            && r.value[11] == Utf8Bytes(l.template) && r.value[12] == Utf8Bytes(a.blame.reviewTemplate)
            && r.value[13] == Utf8Bytes(l.digest) && r.value[14] == Utf8Bytes(a.digestSummary)
  {
    DecodeEncode(MessageFields(l, a));
  }

  /** The engine's own domain and tags. */
  lemma GateLayoutIs()
    ensures GATE_LAYOUT.domain == "wyrtloom-gate-v1" && GATE_LAYOUT.task == "task" && GATE_LAYOUT.from == "from"
    ensures GATE_LAYOUT.to == "to" && GATE_LAYOUT.actor == "actor" && GATE_LAYOUT.notice == "blame_notice"
    ensures GATE_LAYOUT.template == "blame_template" && GATE_LAYOUT.digest == "digest"
  {}

  // ---- Decisions ----

  /** `char::is_whitespace`. */
  predicate IsWhitespace(c: char) {
    var v := c as int;
    || 0x09 <= v <= 0x0D || v == 0x20 || v == 0x85 || v == 0xA0 || v == 0x1680
    || 0x2000 <= v <= 0x200A || v == 0x2028 || v == 0x2029 || v == 0x202F || v == 0x205F || v == 0x3000
  }

  /** `s.trim().is_empty()` */
  predicate IsBlank(s: string) {
    forall i :: 0 <= i < |s| ==> IsWhitespace(s[i])
  }

  /** The white space there is: 25 code points. */
  lemma BlankIff(s: string)
    ensures IsBlank(s)
            <==> forall i :: 0 <= i < |s| ==>
                   s[i] as int in {9, 10, 11, 12, 13, 32, 0x85, 0xA0, 0x1680, 0x2000, 0x2001, 0x2002, 0x2003, 0x2004, 0x2005,
                                   0x2006, 0x2007, 0x2008, 0x2009, 0x200A, 0x2028, 0x2029, 0x202F, 0x205F, 0x3000}
  {
    forall c
      ensures IsWhitespace(c)
              <==> c as int in {9, 10, 11, 12, 13, 32, 0x85, 0xA0, 0x1680, 0x2000, 0x2001, 0x2002, 0x2003, 0x2004, 0x2005,
                                0x2006, 0x2007, 0x2008, 0x2009, 0x200A, 0x2028, 0x2029, 0x202F, 0x205F, 0x3000}
    {
      WhitespaceIff(c);
    }
  }

  lemma WhitespaceIff(c: char)
    ensures IsWhitespace(c)
            <==> c as int in {9, 10, 11, 12, 13, 32, 0x85, 0xA0, 0x1680, 0x2000, 0x2001, 0x2002, 0x2003, 0x2004, 0x2005,
                              0x2006, 0x2007, 0x2008, 0x2009, 0x200A, 0x2028, 0x2029, 0x202F, 0x205F, 0x3000}
  {}

  datatype GateError =
    | DigestRequired
    | IllegalTransition(from: TaskState, to: TaskState)
    | InvalidToken
    | TokenRequired
    | StageMismatch(boardState: TaskState, tokenFrom: TaskState)
    | Kanban(error: KanbanError)
    | Audit

  // Why a transition was refused: what the text of the log entry prints.
  datatype Refusal =
    | NoToken
    | RequestMismatch(token: Approval, to: TaskState, actor: ActorId)
    | BadMac
    | LookupFailed(error: KanbanError)
    | WrongStage(boardState: TaskState, tokenFrom: TaskState)
    | BoardRejected(to: TaskState, error: KanbanError)

  datatype CallOutcome = Completed | Failed(why: Refusal)
  datatype CallLog = CallLog(task: TaskId, outcome: CallOutcome, at: Timestamp)

  datatype Request = Request(
    token: Option<GateToken>, task: TaskId, to: TaskState, actor: ActorId, reason: Option<string>, at: Timestamp)

  // What a call is going to log and, if that is logged, to answer.
  datatype Decision = Decision(outcome: CallOutcome, answer: Result<(), GateError>)

  /** `SecurityModule::is_valid` on the token's own message. */
  ghost predicate Authentic(l: Layout, mac: seq<byte> -> Stamp, invalidated: set<Stamp>, t: GateToken) {
    t.stamp !in invalidated && t.stamp == mac(MessageOf(l, t.approval))
  }

  /** The refusal of a request for its token, which, if there is one, is authentic or not. */
  ghost function TokenRefusal(authentic: bool, q: Request): Option<Decision> {
    if q.token.None? then Some(Decision(Failed(NoToken), Err(TokenRequired)))
    else
      var a := q.token.value.approval;
      if a.to != q.to || a.task != q.task || a.actor != q.actor then
        Some(Decision(Failed(RequestMismatch(a, q.to, q.actor)), Err(InvalidToken)))
      else if !authentic then Some(Decision(Failed(BadMac), Err(InvalidToken)))
      else None
  }

  /** The refusal of a request for the state its task is found in. */
  ghost function StageRefusal(from: TaskState, b: Board, q: Request): Option<Decision> {
    if q.task !in b.tasks then Some(Decision(Failed(LookupFailed(NotFound(q.task))), Err(Kanban(NotFound(q.task)))))
    else if b.tasks[q.task].state != from then
      var s := b.tasks[q.task].state;
      Some(Decision(Failed(WrongStage(s, from)), Err(StageMismatch(s, from))))
    else None
  }

  function MoveOp(q: Request): Op {
    Transition(q.task, q.to, q.actor, q.reason, q.at)
  }

  /** What becomes of a request that passed both, on the board as it is by then. */
  ghost function MoveDecision(b: Board, q: Request): Decision {
    match Step(b, MoveOp(q)).1
    case Ok(_) => Decision(Completed, Ok(()))
    case Err(e) => Decision(Failed(BoardRejected(q.to, e)), Err(Kanban(e)))
  }

  /** The board after calls of other clients. */
  function After(b: Board, calls: seq<Op>): Board {
    if calls == [] then b else Step(After(b, calls[..|calls| - 1]), calls[|calls| - 1]).0
  }

  /** A request goes past the token check exactly if it has an authentic token for this
      task, target and actor; a request without one is told so, any other is told that
      its token is invalid. */
  lemma TokenCheckIff(authentic: bool, q: Request)
    ensures var d := TokenRefusal(authentic, q);
            && (d.None? <==> authentic && q.token.Some? && q.token.value.approval.task == q.task
                             && q.token.value.approval.to == q.to && q.token.value.approval.actor == q.actor)
            && (d.Some? ==> d.value.answer == Err(if q.token.None? then TokenRequired else InvalidToken)
                            && d.value.outcome.Failed?)
  {}

  /** It goes past the stage check exactly if its task exists in the token's state. */
  lemma StageCheckIff(from: TaskState, b: Board, q: Request)
    ensures var d := StageRefusal(from, b, q);
            && (d.None? <==> q.task in b.tasks && b.tasks[q.task].state == from)
            && (d.Some? ==> d.value.outcome.Failed?
                            && d.value.answer == if q.task !in b.tasks then Err(Kanban(NotFound(q.task)))
                                                 else Err(StageMismatch(b.tasks[q.task].state, from)))
  {}

  /** It then asks the board for exactly this move and passes its answer on. */
  lemma MoveIsAsked(b: Board, q: Request)
    ensures var asked := Step(b, Op.Transition(q.task, q.to, q.actor, q.reason, q.at));
            && Step(b, MoveOp(q)) == asked
            && (MoveDecision(b, q).outcome.Completed? <==> asked.1.Ok?)
            && MoveDecision(b, q).answer == if asked.1.Ok? then Ok(()) else Err(Kanban(asked.1.error))
  {}

  /** The log entry of a call, or none when the logger fails. */
  ghost function Logged(q: Request, outcome: CallOutcome, healthy: bool): seq<CallLog> {
    if healthy then [CallLog(q.task, outcome, q.at)] else []
  }

  // ---- The engine ----

  class CallLogger {
    var entries: seq<CallLog>

    constructor ()
      ensures entries == []
    {
      entries := [];
    }

    /** `healthy` is whether the storage behind the logger takes the entry. */
    method Record(entry: CallLog, healthy: bool) returns (ok: bool)
      modifies this
      ensures ok == healthy
      ensures entries == if healthy then old(entries) + [entry] else old(entries)
    {
      if healthy {
        entries := entries + [entry];
      }
      return healthy;
    }
  }

  class GateEngine {
    const security: SecurityModule
    const logger: CallLogger
    const layout: Layout

    constructor (security: SecurityModule, logger: CallLogger)
      ensures this.security == security && this.logger == logger && layout == GATE_LAYOUT
    {
      this.security, this.logger, this.layout := security, logger, GATE_LAYOUT;
    }

    method IssueTokenWithBlame(a: Approval, at: Timestamp) returns (r: Result<GateToken, GateError>)
      modifies security
      ensures r == if IsBlank(a.digestSummary) then Err(DigestRequired)
                   else if !IsLegalTransition(a.from, a.to) then Err(GateError.IllegalTransition(a.from, a.to))
                   else Ok(GateToken(a, security.mac(MessageOf(layout, a))))
      ensures r.Err? ==> security.Contents() == old(security.Contents())
      ensures r.Ok? ==>
                security.Contents()
                == Audited(security.link, old(security.Contents()),
                           Event(StampIssued, "stamp issued ref=" + security.stampRef(r.value.stamp), at))
      ensures security.invalidated == old(security.invalidated)
    {
      if IsBlank(a.digestSummary) {
        return Err(DigestRequired);
      }
      if !IsLegalTransition(a.from, a.to) {
        return Err(GateError.IllegalTransition(a.from, a.to));
      }
      var msg := Message(layout, a);
      var stamp := security.StampMessage(msg, at);
      return Ok(GateToken(a, stamp));
    }

    method Validate(token: GateToken) returns (r: Result<(), GateError>)
      ensures r == if Authentic(layout, security.mac, security.invalidated, token) then Ok(()) else Err(InvalidToken)
    {
      var msg := Message(layout, token.approval);
      var valid := security.IsValid(token.stamp, msg);
      return if valid then Ok(()) else Err(InvalidToken);
    }

    /** Other clients call the shared board meanwhile: `early` between the token check
        and the state check, `late` between the state check and the move. */
    method GuardedTransition(board: SqliteKanbanBoard, q: Request, early: seq<Op>, late: seq<Op>, loggerHealthy: bool)
      returns (r: Result<(), GateError>)
      modifies board, logger
      ensures var authentic := q.token.Some? && old(Authentic(layout, security.mac, security.invalidated, q.token.value));
              match TokenRefusal(authentic, q)
              case Some(d) => board.Contents() == old(board.Contents()) && Closes(q, d, loggerHealthy, old(logger.entries), r)
              case None =>
                var seen := After(old(board.Contents()), early);
                match StageRefusal(q.token.value.approval.from, seen, q)
                case Some(d) => board.Contents() == seen && Closes(q, d, loggerHealthy, old(logger.entries), r)
                case None =>
                  var b := After(seen, late);
                  board.Contents() == Step(b, MoveOp(q)).0
                  && Closes(q, MoveDecision(b, q), loggerHealthy, old(logger.entries), r)
    {
      if q.token.None? {
        var logged := AuditOutcome(q, Failed(NoToken), loggerHealthy);
        return if logged then Err(TokenRequired) else Err(Audit);
      }
      var token := q.token.value;
      var a := token.approval;
      if a.to != q.to || a.task != q.task || a.actor != q.actor {
        var logged := AuditOutcome(q, Failed(RequestMismatch(a, q.to, q.actor)), loggerHealthy);
        return if logged then Err(InvalidToken) else Err(Audit);
      }
      var valid := Validate(token);
      if valid.Err? {
        var logged := AuditOutcome(q, Failed(BadMac), loggerHealthy);
        return if logged then valid else Err(Audit);
      }
      OtherClients(board, early);
      r := MoveFrom(board, a.from, q, late, loggerHealthy);
    }

    /** The call adds its one entry, or answers that it could not. */
    ghost predicate Closes(q: Request, d: Decision, healthy: bool, before: seq<CallLog>, r: Result<(), GateError>)
      reads logger
    {
      logger.entries == before + Logged(q, d.outcome, healthy) && r == if healthy then d.answer else Err(Audit)
    }

    /** The part after the MAC check: compare the board's state, move, log. */
    method MoveFrom(board: SqliteKanbanBoard, from: TaskState, q: Request, late: seq<Op>, loggerHealthy: bool)
      returns (r: Result<(), GateError>)
      modifies board, logger
      ensures match StageRefusal(from, old(board.Contents()), q)
              case Some(d) => board.Contents() == old(board.Contents()) && Closes(q, d, loggerHealthy, old(logger.entries), r)
              case None =>
                var b := After(old(board.Contents()), late);
                board.Contents() == Step(b, MoveOp(q)).0
                && Closes(q, MoveDecision(b, q), loggerHealthy, old(logger.entries), r)
    {
      var got := board.Get(q.task);
      if got.Err? {
        var logged := AuditOutcome(q, Failed(LookupFailed(got.error)), loggerHealthy);
        return if logged then Err(Kanban(got.error)) else Err(Audit);
      }
      var current := got.value.row.state;
      if current != from {
        var logged := AuditOutcome(q, Failed(WrongStage(current, from)), loggerHealthy);
        return if logged then Err(StageMismatch(current, from)) else Err(Audit);
      }
      OtherClients(board, late);
      var moved := board.Transition(q.task, q.to, q.actor, q.reason, q.at);
      if moved.Ok? {
        var logged := AuditOutcome(q, Completed, loggerHealthy);
        return if logged then Ok(()) else Err(Audit);
      }
      var logged := AuditOutcome(q, Failed(BoardRejected(q.to, moved.error)), loggerHealthy);
      return if logged then Err(Kanban(moved.error)) else Err(Audit);
    }

    method OtherClients(board: SqliteKanbanBoard, calls: seq<Op>)
      modifies board
      ensures board.Contents() == After(old(board.Contents()), calls)
    {
      for i := 0 to |calls|
        invariant board.Contents() == After(old(board.Contents()), calls[..i])
      {
        assert calls[..i + 1][..i] == calls[..i];
        match calls[i] {
          case Create(id, task, at) => var _ := board.Create(id, task, at);
          case Transition(id, to, actor, reason, at) => var _ := board.Transition(id, to, actor, reason, at);
          case Claim(id, worker) => var _ := board.Claim(id, worker);
          case Block(id, actor, reason, at) => var _ := board.Block(id, actor, reason, at);
        }
      }
      assert calls[..|calls|] == calls;
    }

    method AuditOutcome(q: Request, outcome: CallOutcome, healthy: bool) returns (ok: bool)
      modifies logger
      ensures ok == healthy
      ensures logger.entries == old(logger.entries) + Logged(q, outcome, healthy)
    {
      ok := logger.Record(CallLog(q.task, outcome, q.at), healthy);
    }
  }
}
