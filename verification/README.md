# Wyrtloom: a verified model

Wyrtloom coordinates people and agents around a Kanban board: a task moves along a fixed edge table, a gate engine issues keyed
approval tokens for such moves, every security decision is chained into a keyed audit log, and small plugins schedule practice,
rotate roles, estimate mastery, route problems to people and record decisions. This project models those parts in Dafny and proves
what their code keeps over every run, every interleaving and every input.

- **Board** (`KanbanState`, `KanbanBoard`, `KanbanCalls`, `KanbanRuns`, `KanbanClaims`). The two SQLite tables are a map of rows and one list of
  history rows. `create`, `transition`, `claim` and `block` are methods of a class, each proved equal to one step of a transition
  relation; runs are lists of calls from the empty board. New UUIDs and clock readings are parameters.
- **Audit chain** (`AuditChain`, `AuditThreads`, `Security`). The chain link is a function parameter. Where a result needs it, the
  link is assumed never empty and free of collisions on the entries concerned (`Sound`); `SoundLinkExists` shows such links exist.
  A call of `audit` is three steps (link under the lock, file line, log push) that other calls may fall between.
- **Gate** (`Canon`, `ClientAuth`, `GateEngine`, `GateRuns`, `GateReuse`, `GateAccounts`). The length-prefixed encoder and its
  decoder, the token message and the client request built with it, and the engine that drives board and logger. In runs any number
  of `guarded_transition` calls are under way at once, each in four steps (token check, stage check, move, log entry) between which
  tokens are issued, stamps made for others or revoked, and other clients move the board. The MAC is a function parameter; only
  `RedeemedTokenWasIssued` asks anything of it, namely that the presented message does not collide with anything stamped.
- **Stripper** (`Strip`) and **allow-lists** (`AllowList`): text scanners proved equal to their meanings.
- **Schedulers** (`Withdrawal`, `Rotation`): integer arithmetic with the widths of the code.
- **Ledgers and router** (`InterestRouter`, `CalibrationLedger`, `RationaleLedger`).

`ByteCodec`, `Types`, `Sorting` and `ModArith` hold what the others share.

## Where code and documentation differ

The model follows the code. For each promise that does not hold there is a concrete failing input or run, and the exact condition under which it holds unless it always fails.

- `docs/contracts.md` has a running task held by exactly one worker. The move into Running clears the actor: `RunningTaskHasNoActor`.
- A block reason is said to be required for Blocked. `transition` enters Blocked without one: `BlockedWithoutReason`, `BlockReasonIsLastGiven`.
- `TaskQuery.limit` promises at most that many tasks. With limit 0 one match is returned: `LimitZeroReturnsOne`, `ListHonoursLimitIff`.
- An archived dependency was Done, yet no longer lets a task become Ready: `ArchivedDependencyRefused`, `ReadyGate`, `ArchivedDependencyBlocksForever`.
- The comment in `audit` speaks of preventing forks. The chain never forks, but after overlapping calls the log may be out of lock order and `verify_chain` may reject it, and so may the file, which the next start then refuses: `OverlapBreaksTheLog`, `VerifiesIffInLockOrder`, `OverlapSpoilsTheFile`, `ReloadAcceptsIff`.
- A gate token is said to authorise exactly one transition. That holds exactly for targets Done and Archived: `ReusableIffTargetIsOpen`.
- The stage check is there so that a token minted for an earlier state cannot be replayed later. Board read and move are two calls, so overlapping calls can move the task from another state, or twice without re-entering the token's state; exactly on which edges say `MovesFromElsewhereIff` and `SkipsReentryIff`.
- A revoked stamp is said to be valid no more. A call that has presented it goes on and may move the board; without such a call it moves nothing: `RevocationMissesCallUnderWay`, `CallUnderWayStillRedeemsIff`, `RevokedTokenNeverRedeems`.
- A gate decision is said never to go unlogged, a logging failure failing the operation. The board has been moved by then and stays moved: `LoggingFailureLeavesMove`; it was moved exactly if the request redeems: `RedemptionIsAccountedFor`, `RedeemsIff`.
- `interval(n) = base * factor^n`, truncated, is not what the loop computes: it is exactly for whole factors, and under a cap exactly if it is at the last step below it: `ClosedFormFails`, `ClosedFormHoldsIffFactorIsWhole`, `DocumentedIffAtLastStep`, `ClosedFormBounds`.
- Hand-off messages are said to pass the hop limit. They do exactly for up to 17 slots: `HandoffsPassHopLimitIff`, `EighteenRolesBreakTheHopLimit`.
- Distinct roles are said to land on distinct actors when the roster is large enough. They do for four or more distinct ids with no role pinned and no overflow (`LargeRosterKeepsActorsDistinct`), but not if the roster repeats an id, if two roles are pinned to the first human, if a pinned role's human is on the other's position, or where the 64-bit sum wraps: `ActorsMeetIff`, `RepeatedIdsMeet`, `PinnedRolesMeet`, `WrappedRolesMeet`. Wrapping also breaks even rotation and its period: `RotationIsFairIff`, `WrappedWindowExists`, `AssignIsPeriodicIff`, `WrappedAssignmentDiffers`.
- Signal weights are said to be counts and their differences. They are read off 32-bit counters: `DerivationIsDocumentedIff`, `ClustersAgreeIff`, `AmbiguitiesAgreeIff`, `WrappedCounterHidesCluster`, `WrappedCountersMisjudgeAmbiguity`.

## Model

| member | source | states |
|---|---|---|
| `KanbanBoard.SqliteKanbanBoard.constructor` | crates/plugin-kanban-sqlite/src/lib.rs:43-74 | a new board has no tasks and no history |
| `KanbanBoard.SqliteKanbanBoard.Create` | crates/plugin-kanban-sqlite/src/lib.rs:99-118 | refines the create step; succeeds exactly if the id is unused, otherwise a storage error and no change |
| `KanbanBoard.SqliteKanbanBoard.Transition` | crates/plugin-kanban-sqlite/src/lib.rs:120-140 | refines the transition step, tables and answer, with roll-back on every error |
| `KanbanBoard.SqliteKanbanBoard.TransitionInner` | crates/plugin-kanban-sqlite/src/lib.rs:228-271 | lookup, edge check, dependency loop, update and history row compute the step inside the transaction |
| `KanbanBoard.SqliteKanbanBoard.Claim` | crates/plugin-kanban-sqlite/src/lib.rs:142-155 | the conditional update: an unassigned Ready task gets the worker, anything else is AlreadyClaimed and unchanged |
| `KanbanBoard.SqliteKanbanBoard.Block` | crates/plugin-kanban-sqlite/src/lib.rs:207-225 | refines the block step: the row keeps its actor and takes the reason, the history row its text |
| `KanbanBoard.SqliteKanbanBoard.Get` | crates/plugin-kanban-sqlite/src/lib.rs:308-380 | the row with exactly its own history rows in order, or NotFound |
| `KanbanBoard.SqliteKanbanBoard.OrderedIds` | crates/plugin-kanban-sqlite/src/lib.rs:167-182 | every task once, oldest first, ties by id |
| `KanbanBoard.SqliteKanbanBoard.List` | crates/plugin-kanban-sqlite/src/lib.rs:162-205 | the matches in listing order, cut by the limit, whatever order the table is stored in |
| `KanbanBoard.SqliteKanbanBoard.Select` | crates/plugin-kanban-sqlite/src/lib.rs:184-204 | the loop with early exit returns what the declarative selection returns |
| `KanbanBoard.ListingOrderIsUnique` | crates/plugin-kanban-sqlite/src/lib.rs:167-182 | the order leaves no choice, so `list` is a function of the tables |
| `KanbanBoard.ListHonoursLimitIff` | crates/core/src/kanban.rs:70-71 | "at most limit tasks" holds if and only if the limit is positive or nothing matches |
| `KanbanRuns.LimitZeroReturnsOne` | crates/plugin-kanban-sqlite/src/lib.rs:197-203 | a run on which a listing with limit 0 returns a task |
| `KanbanCalls.CreateStores` | crates/plugin-kanban-sqlite/src/lib.rs:99-118 | a created task has the title, creator, dependencies and time it was asked for, in Backlog, and nothing else changes |
| `KanbanCalls.TransitionMoves` | crates/plugin-kanban-sqlite/src/lib.rs:228-271 | answers NotFound and IllegalTransition exactly when the task is missing or the edge not in the table, succeeds exactly if a Ready target also has every dependency Done; then state, actor and one history row with every field, and nothing else, change |
| `KanbanCalls.BlockMoves` | crates/plugin-kanban-sqlite/src/lib.rs:273-306 | succeeds exactly on a Running task; state, reason and one history row with every field, and nothing else, change |
| `KanbanCalls.ClaimTakes` | crates/plugin-kanban-sqlite/src/lib.rs:142-155 | succeeds exactly on an unassigned Ready task, and only its actor changes |
| `KanbanCalls.FirstClaimSucceeds` | crates/plugin-kanban-sqlite/src/lib.rs:142-155 | on every run the first claim after an entry into Ready succeeds and the next one is AlreadyClaimed, whoever makes them |
| `KanbanCalls.HistoryHoldsRows` | crates/plugin-kanban-sqlite/src/lib.rs:308-380 | a task's history holds exactly its rows of the table, each as often |
| `KanbanCalls.ListingIsOldestFirst` | crates/plugin-kanban-sqlite/src/lib.rs:169 | a listing goes by creation time and then by id |
| `KanbanCalls.ListedIff` | crates/plugin-kanban-sqlite/src/lib.rs:184-197 | without a limit exactly the tasks passing both filters are listed, whole |
| `KanbanCalls.LimitKeepsFirst` | crates/plugin-kanban-sqlite/src/lib.rs:198-202 | a limit keeps the first matches, that many, or one if it is 0 |
| `KanbanCalls.EdgesByState` | crates/core/src/kanban.rs:91-107 | the edge table, state by state |
| `KanbanState.WalkEntersDoneOnce` | crates/core/src/kanban.rs:91-107 | every walk over the edge table from Backlog enters Done at most once and Archived at most once, exactly when it ends at or beyond them |
| `KanbanState.TerminalStates` | crates/core/src/kanban.rs:91-107 | nothing leaves Archived and Done leads only to Archived, over walks of any length |
| `KanbanRuns.DependencyFailureMeaning` | crates/plugin-kanban-sqlite/src/lib.rs:241-249 | the loop passes exactly when every dependency exists and is Done; otherwise the first offender decides between NotFound and DependenciesNotDone |
| `KanbanRuns.StepShape` | crates/plugin-kanban-sqlite/src/lib.rs:98-306 | every call, failed or not, either moves exactly its own task along a legal edge with exactly one history row, or changes no state at all |
| `KanbanRuns.EveryRunKeepsInv` | crates/plugin-kanban-sqlite/src/lib.rs:98-306 | all invariants together hold after every run |
| `KanbanRuns.HistoriesAreLegalWalks` | crates/plugin-kanban-sqlite/src/lib.rs:228-271 | on every run each history is a legal walk from Backlog to the current state, entering Done once if finished and never otherwise |
| `KanbanRuns.DependenciesOfStartedTasksAreFinished` | crates/plugin-kanban-sqlite/src/lib.rs:241-249 | on every run everything a Ready or later task depends on, directly or through any chain, is Done or Archived |
| `KanbanRuns.DoneComesBeforeReady` | crates/plugin-kanban-sqlite/src/lib.rs:241-269 | on every run each dependency has a Done row before any Ready row of the task in the global history |
| `KanbanRuns.NoCycleMemberStarts` | crates/plugin-kanban-sqlite/src/lib.rs:241-249 | no task on a dependency cycle of any length ever becomes Ready or gets beyond it |
| `KanbanCalls.TaskKeepsRequest` | crates/plugin-kanban-sqlite/src/lib.rs:99-118 | on every run a task keeps the title, dependencies and time its creating call gave |
| `KanbanCalls.EveryTaskWasCreated` | crates/plugin-kanban-sqlite/src/lib.rs:99-118 | on every run each task on the board was made by a successful call |
| `KanbanCalls.CreatedOnce` | crates/plugin-kanban-sqlite/src/lib.rs:99-118 | and by only one |
| `KanbanCalls.ReadyIffAskedIsDone` | crates/plugin-kanban-sqlite/src/lib.rs:241-249 | Todo to Ready succeeds if and only if every task the creating call asked to wait for is Done |
| `KanbanCalls.AskedForIsFinished` | crates/plugin-kanban-sqlite/src/lib.rs:241-249 | on every run everything a started task was asked to wait for, directly or through others, is Done or Archived |
| `KanbanCalls.AskedCycleNeverStarts` | crates/plugin-kanban-sqlite/src/lib.rs:241-249 | no task asked to wait for itself, through a cycle of any length, is ever Ready or beyond |
| `KanbanRuns.FinishedStaysFinished` | crates/core/src/kanban.rs:91-107 | on every continuation a finished task stays finished and an archived one archived |
| `KanbanRuns.RunExtends` | crates/plugin-kanban-sqlite/src/lib.rs:228-306 | history is append-only and dependencies never change |
| `KanbanRuns.ReadyGate` | crates/plugin-kanban-sqlite/src/lib.rs:241-249 | Todo to Ready succeeds if and only if every dependency is Done |
| `KanbanRuns.ArchivedDependencyBlocksForever` | crates/plugin-kanban-sqlite/src/lib.rs:241-249 | a task not yet started with an archived dependency never starts, on any continuation |
| `KanbanRuns.ArchivedDependencyRefused` | crates/plugin-kanban-sqlite/src/lib.rs:241-249 | a run on which a task whose only dependency went through Done to Archived is refused Ready |
| `KanbanRuns.WalkSince` | crates/plugin-kanban-sqlite/src/lib.rs:228-306 | from any moment of a run the further history of a task is a legal walk from its state then to its state now |
| `KanbanClaims.ClaimsAreBoundedByEntries` | crates/plugin-kanban-sqlite/src/lib.rs:142-155 | on every run successful claims never exceed entries into Ready, and are fewer while the task waits unclaimed |
| `KanbanClaims.ClaimsAreExclusive` | crates/plugin-kanban-sqlite/src/lib.rs:142-155 | between two successful claims of a task, by whomever, it entered Ready again |
| `KanbanClaims.ActorIsCreatorOrHolder` | crates/plugin-kanban-sqlite/src/lib.rs:104-113 | on every run the actor is the one the task was created for while it has never moved (and is in Backlog), the latest claimer on a claimed Ready task, and absent otherwise |
| `KanbanClaims.RunningTaskHasNoActor` | crates/plugin-kanban-sqlite/src/lib.rs:251-253 | a running task never carries an actor |
| `KanbanClaims.BlockReasonIsLastGiven` | crates/plugin-kanban-sqlite/src/lib.rs:286-292 | on every run the reason is that of the latest successful `block` call, if any |
| `KanbanClaims.BlockedWithoutReason` | crates/plugin-kanban-sqlite/src/lib.rs:228-271 | a run that reaches Blocked with no reason |
| `Canon.CanonicalEncoder.constructor` | crates/core/src/canon.rs:24-28 | the encoding of the domain tag alone |
| `Canon.CanonicalEncoder.Write` | crates/core/src/canon.rs:49-52 | appends one field to the field list the buffer encodes |
| `Canon.CanonicalEncoder.Field` | crates/core/src/canon.rs:31-34 | appends the bytes as a field |
| `Canon.CanonicalEncoder.StrField` | crates/core/src/canon.rs:37-39 | appends the UTF-8 bytes as a field |
| `Canon.CanonicalEncoder.Tagged` | crates/core/src/canon.rs:43-47 | appends tag and value as two fields |
| `Canon.CanonicalEncoder.Finish` | crates/core/src/canon.rs:55-57 | the bytes encode exactly the fields appended, in order |
| `Canon.EncodingLayout` | crates/core/src/canon.rs:9-13 | eight bytes spelling the length, most significant first, then the field, then the encoding of the rest |
| `ByteCodec.BigEndianAt` | crates/core/src/canon.rs:50 | byte i of k is n / 256^(k-1-i) mod 256 |
| `ByteCodec.Utf8CharIsStandard` | crates/core/src/canon.rs:37-39 | each character has the one- to four-byte form of section 3 of RFC 3629 |
| `Types.BytesSpellNumbers` | crates/core/src/client_auth.rs:41 | the eight bytes of a timestamp spell it in two's complement |
| `Canon.DecodeEncode` | crates/core/src/canon.rs:9-13 | decoding any encoding gives back the field list |
| `Canon.EncodeDecode` | crates/core/src/canon.rs:9-13 | whatever decodes is the encoding of what it decodes to, so the encoding is a bijection onto what decodes |
| `Canon.EncodeAppend` | crates/core/src/canon.rs:49-52 | the encoding distributes over append |
| `Canon.EncodeInjective` | crates/core/src/canon.rs:9-13 | different field lists never encode alike, whatever their lengths |
| `Canon.EncodePrefixFree` | crates/core/src/canon.rs:9-13 | encodings of equally many fields are prefix-free |
| `Canon.DomainsSeparate` | crates/core/src/canon.rs:21-28 | encodings under different domains never coincide nor is one a prefix of the other |
| `ClientAuth.CanonicalRequest` | crates/core/src/client_auth.rs:28-44 | the builder chain produces the encoding of the domain and the six arguments in order |
| `ClientAuth.CanonicalRequestReadsBack` | crates/core/src/client_auth.rs:36-43 | read back, the bytes hold domain, method, path, body hash, client, time and nonce in that order |
| `ClientAuth.CanonicalRequestInjective` | crates/core/src/client_auth.rs:23-44 | equal canonical bytes mean equal method, path, body hash, client, time and nonce |
| `AuditChain.VerifyChain` | crates/core/src/security.rs:389-402 | accepts exactly the chained logs and otherwise names the first broken link, all before it being sound |
| `AuditChain.ChainedAppend` | crates/core/src/security.rs:389-402 | an appended entry keeps a log verifying if and only if it carries its head |
| `AuditChain.HeadDeterminesLog` | crates/core/src/security.rs:372-402 | two verifying logs with the same head are the same log |
| `AuditChain.PrevHashCommitsToHistory` | crates/core/src/security.rs:372-402 | two verifying logs whose last entries share a prev_hash have equal length and agree on everything before |
| `AuditChain.TruncationVerifies` | crates/core/src/security.rs:383-386 | every truncation of a verifying log verifies, as documented |
| `AuditChain.VerifiesIffPrefix` | crates/core/src/security.rs:376-402 | a log made of entries of one chain verifies if and only if it is a prefix of it: any reordering, omission in the middle or repetition is found |
| `AuditChain.AuditedAllInStep` | crates/core/src/security.rs:450-472 | after any run of calls that do not overlap, log, head and file agree and the log verifies |
| `AuditChain.RunTellsItsEvents` | crates/core/src/security.rs:450-472 | a run of calls that do not overlap appends one entry per event, in order, with its kind, detail and time |
| `AuditChain.RunWritesItsEntries` | crates/core/src/security.rs:464-469 | and to the file, if there is one, a line for each of those entries |
| `AuditChain.ParsedAppend` | crates/core/src/security.rs:248-260 | lines are read one by one: blank ones skipped, one that does not parse spoils the file, the others give their entries in order |
| `AuditChain.RestartIsInvisible` | crates/core/src/security.rs:245-269 | reloading the file of any such run, from any accepted file, is accepted, restores log and head, and continuing gives the chain of the uninterrupted run |
| `AuditChain.SoundLinkExists` | crates/core/src/security.rs:408-413 | the assumption on the link can be met for any entries |
| `AuditThreads.EveryInterleavingKeepsOneChain` | crates/core/src/security.rs:450-472 | in every interleaving of any number of threads the linked entries form one unforked chain ending at last_hash, and log and file hold, with what is still owed to them, exactly the linked entries |
| `AuditThreads.EntriesTellEvents` | crates/core/src/security.rs:450-472 | in every interleaving the linked entries carry kind, detail and time of their calls' events, in the order the lock was taken |
| `AuditThreads.VerifiesIffInLockOrder` | crates/core/src/security.rs:389-402 | in every interleaving log and file verify if and only if they are prefixes of lock order; with no call in progress, if and only if they equal it |
| `AuditThreads.PushKeepsLogVerifying` | crates/core/src/security.rs:471 | a push keeps the log verifying exactly if it comes next in lock order |
| `AuditThreads.OverlapBreaksTheLog` | crates/core/src/security.rs:450-472 | for any two calls there is an interleaving after which the log does not verify |
| `AuditThreads.ReloadAcceptsIff` | crates/core/src/security.rs:245-269 | in every interleaving and at every step, from any accepted file, the next start accepts the file if and only if it is a prefix of lock order, and with no call in progress then restores log and head |
| `AuditThreads.OverlapSpoilsTheFile` | crates/core/src/security.rs:245-269 | for any two calls there is an interleaving, both calls finished, after which the next start refuses the file |
| `AuditThreads.SerialCallsVerify` | crates/core/src/security.rs:450-472 | calls that do not overlap leave log and file verifying after every step |
| `Security.SecurityModule.WithKey` | crates/core/src/security.rs:172-188 | a fresh module: empty log, empty head, nothing revoked |
| `Security.SecurityModule.WithAuditFile` | crates/core/src/security.rs:245-269 | accepts exactly the files that parse and whose chain verifies, and then holds log, head and file; revocations are not read back |
| `Security.SecurityModule.Audit` | crates/core/src/security.rs:450-472 | one call without overlap appends the linked entry to log and file and advances the head |
| `Security.SecurityModule.StampMessage` | crates/core/src/security.rs:327-335 | the MAC of the content; one StampIssued entry |
| `Security.SecurityModule.IsValid` | crates/core/src/security.rs:339-349 | true if and only if the stamp is the MAC of the content and was not revoked |
| `Security.SecurityModule.Invalidate` | crates/core/src/security.rs:352-356 | revokes exactly this stamp; one StampInvalidated entry |
| `Security.SecurityModule.RecordDecision` | crates/core/src/security.rs:362-365 | one Grant or Denial entry with sanitised text |
| `Security.ConstantTimeEq` | crates/core/src/security.rs:535-541 | true if and only if all 32 bytes agree |
| `Security.SanitizedIsPlain` | crates/core/src/security.rs:522-532 | the sanitised text is a plain subsequence of the input, and the input itself if and only if that is plain and short enough |
| `Security.SanitizedIsPlainly` | crates/core/src/security.rs:522-532 | the first 512 of the characters outside the control, zero-width, directional and BOM ranges, written out, in order |
| `AllowList.PathIsGrantedIff` | crates/core/src/security.rs:436-448 | a path is granted if and only if it has no `..` and the components of some slash-trimmed prefix are a prefix of its components |
| `AllowList.CapabilityIsGrantedIff` | crates/core/src/security.rs:420-448 | reads go by the read prefixes and writes by the write prefixes (no `..`, and the components of some prefix less its trailing slashes begin the path's), shell and git by their own flag, hosts by their labels |
| `AllowList.JoinSplit` | crates/core/src/security.rs:441-446 | components join to the string |
| `AllowList.SplitHoldsNoSeparator` | crates/core/src/security.rs:441-446 | and hold no separator |
| `AllowList.HostIsGrantedIff` | crates/core/src/security.rs:424-430 | a host is granted if and only if the labels of some allowed name are a suffix of its labels |
| `AllowList.PrefixByParts` | crates/core/src/security.rs:441-446 | the raw string test on prefixes is the test on components, for every separator |
| `AllowList.SuffixByParts` | crates/core/src/security.rs:425-429 | the raw string test on suffixes is the test on labels |
| `GateEngine.Message` | crates/plugin-gate-engine/src/lib.rs:108-128 | the builder chain produces the encoding of domain, tags and the seven values |
| `GateEngine.MessageInjective` | crates/plugin-gate-engine/src/lib.rs:102-128 | the message determines task, edge, actor, notice, template and digest |
| `GateEngine.MessageReadsBack` | crates/plugin-gate-engine/src/lib.rs:119-127 | read back, the bytes hold domain, then each of the seven values after its tag, in order |
| `GateEngine.GateLayoutIs` | crates/plugin-gate-engine/src/lib.rs:119-126 | the domain and tags the engine uses |
| `GateEngine.GateMessageIsNoClientRequest` | crates/plugin-gate-engine/src/lib.rs:116-119 | no gate message equals any client request |
| `GateEngine.GateEngine.IssueTokenWithBlame` | crates/plugin-gate-engine/src/lib.rs:201-232 | refuses blank digests, then illegal edges, without an audit entry; otherwise a token whose stamp is the MAC of exactly its content |
| `GateEngine.BlankIff` | crates/plugin-gate-engine/src/lib.rs:211 | a digest is blank if and only if all its characters are among the 25 white space code points |
| `GateEngine.TokenCheckIff` | crates/plugin-gate-engine/src/lib.rs:274-300 | a request passes if and only if it has an authentic token for this task, target and actor; the errors otherwise |
| `GateEngine.StageCheckIff` | crates/plugin-gate-engine/src/lib.rs:302-325 | it passes if and only if the task exists in the token's state; the errors otherwise |
| `GateEngine.MoveIsAsked` | crates/plugin-gate-engine/src/lib.rs:327-340 | the board is asked for exactly this move, and its answer passed on |
| `GateEngine.GateEngine.Validate` | crates/plugin-gate-engine/src/lib.rs:243-257 | accepts exactly the authentic tokens not revoked |
| `GateEngine.GateEngine.GuardedTransition` | crates/plugin-gate-engine/src/lib.rs:265-341 | board, log and answer are those of the declared checks and decision, whatever calls other clients make on the board between token check, state check and move, and also when the logger fails |
| `GateEngine.GateEngine.MoveFrom` | crates/plugin-gate-engine/src/lib.rs:302-340 | stage check on the board as read, move on the board as it is by then, one log entry |
| `GateRuns.TokenRefusalIsOneCall` | crates/plugin-gate-engine/src/lib.rs:274-300 | the steps of a call refused for its token do together what the method does |
| `GateRuns.StageRefusalIsOneCall` | crates/plugin-gate-engine/src/lib.rs:302-325 | so do the steps of a call refused for its stage |
| `GateRuns.MoveIsOneCall` | crates/plugin-gate-engine/src/lib.rs:327-341 | and those of a call that moves, whatever the board has become since the stage check |
| `GateRuns.RedeemsIff` | crates/plugin-gate-engine/src/lib.rs:327-341 | a call past its checks moves the board if and only if the edge from where the task is by then is legal and a Ready target has its dependencies Done; its row starts from there; otherwise the board is unchanged |
| `GateRuns.CallsWereChecked` | crates/plugin-gate-engine/src/lib.rs:294-325 | in every interleaving a call ready to move had presented an authentic token not revoked then, and after that found its task in the token's state |
| `GateRuns.IssuedTokens` | crates/plugin-gate-engine/src/lib.rs:201-232 | in every interleaving every issued token came from a request with its content, a digest that is not blank and a legal edge |
| `GateRuns.RedeemedTokenWasIssued` | crates/plugin-gate-engine/src/lib.rs:234-257 | in every interleaving a token that moves the board under a stamp the module has issued, for whatever purpose, was issued by the engine with every field unchanged, unless somebody had the module stamp that very message |
| `GateRuns.RevokedTokenNeverRedeems` | crates/core/src/security.rs:337-356 | a stamp revoked while no call that presented it is under way moves nothing on any continuation |
| `GateReuse.RevocationMissesCallUnderWay` | crates/core/src/security.rs:337-356 | for every token the engine issues there is a run that revokes it and then redeems it, in a call that had presented it |
| `GateReuse.CallUnderWayStillRedeemsIff` | crates/plugin-gate-engine/src/lib.rs:327-341 | a call past its checks can still move a task without dependencies, revoked or not, if and only if the task is open, or Done with target Archived |
| `GateRuns.GateBoardIsBoardRun` | crates/plugin-gate-engine/src/lib.rs:327-341 | the board of every gate run is the board of a run of board calls, so all board results hold of it |
| `GateRuns.RedemptionsAreApart` | crates/plugin-gate-engine/src/lib.rs:302-341 | in every interleaving the task walked, in at least one step, from the token's target to a state leading there between two redemptions |
| `GateRuns.RecheckedRedemptionsAreSeparated` | crates/plugin-gate-engine/src/lib.rs:302-325 | if the second call checked the stage after the first had moved the board, the task entered the from state again in between |
| `GateReuse.SkipsReentryIff` | crates/plugin-gate-engine/src/lib.rs:302-325 | an issued token can be redeemed twice without such a re-entry, by overlapping calls, if and only if its edge is into Todo or Running or from Ready to Backlog |
| `GateReuse.MovesFromElsewhereIff` | crates/plugin-gate-engine/src/lib.rs:302-329 | an issued token can move its task from another state than it names if and only if its target is not Ready, Blocked or Archived |
| `GateRuns.FinalTokensAreSingleUse` | crates/plugin-gate-engine/src/lib.rs:23-31 | in every interleaving a token into Done or Archived is redeemed at most once |
| `GateReuse.ReusableIffTargetIsOpen` | crates/plugin-gate-engine/src/lib.rs:23-31 | an issued token can be redeemed twice, even by calls one after the other, if and only if its target is neither Done nor Archived |
| `GateReuse.DriveTo` | crates/core/src/kanban.rs:91-107 | from any open state a task without dependencies can be brought to any state but Archived |
| `GateAccounts.RedemptionIsAccountedFor` | crates/plugin-gate-engine/src/lib.rs:327-358 | with a working logger a move adds exactly one entry, Completed if and only if the board moved; the answer is Ok if and only if it moved; a failing logger adds none |
| `GateAccounts.EveryCallIsAccountedFor` | crates/plugin-gate-engine/src/lib.rs:265-358 | in every interleaving the calls begun are those logged, under way or lost by the logger, and the moves made are the Completed entries, those owed and those lost |
| `GateReuse.LoggingFailureLeavesMove` | crates/plugin-gate-engine/src/lib.rs:157-160 | for every token the engine issues there is a run on which the logger fails, no entry is written and the board stays moved |
| `Strip.StripControl` | crates/core/src/util.rs:60-107 | the scanner computes the lookahead-free transducer's output |
| `Strip.ConsumeStringTerminated` | crates/core/src/util.rs:33-58 | skipping a control string with lookahead, leaving a bare ESC unread, agrees with the transducer from there on |
| `Strip.ConsumeCsi` | crates/core/src/util.rs:72-79 | skipping a control sequence agrees with the transducer |
| `Strip.ConsumeEscape` | crates/core/src/util.rs:69-97 | every form after an ESC agrees with the transducer |
| `Strip.OutputAppend` | crates/core/src/util.rs:60-107 | the transducer composes over concatenation |
| `Strip.StripInPieces` | crates/core/src/util.rs:60-107 | stripping in two pieces with the carried state equals stripping the whole |
| `Strip.StrippedIsCleanAndStable` | crates/core/src/util.rs:20-23 | on any input the output is a clean subsequence, stripping again changes nothing, and exactly clean text is unchanged |
| `Strip.TextKeepsRemaining` | crates/core/src/util.rs:98-104 | of a text without ESC exactly the characters outside the dropped ranges, written out, remain, in order |
| `Strip.TextCharacter` | crates/core/src/util.rs:98-104 | outside sequences each character by itself stays or goes by those ranges; tab, line feed and carriage return stay |
| `Strip.OnlyRemainingComesOut` | crates/core/src/util.rs:98-104 | on any input no character of the dropped ranges comes out |
| `Strip.ControlSequence` | crates/core/src/util.rs:72-79 | ESC [ goes with everything up to the first character in 0x40 to 0x7E; unfinished, with the rest |
| `Strip.ControlStrings` | crates/core/src/util.rs:33-58 | ESC ] goes with everything up to BEL or before the next ESC, ESC P, X, ^ and _ only before the next ESC; unfinished, with the rest |
| `Strip.TwoCharacterEscape` | crates/core/src/util.rs:91-96 | any other character after ESC goes with it, and a lone ESC goes |
| `Strip.StripUndoesPrinting` | crates/core/src/util.rs:69-97 | of any list of text runs, CSI sequences, control strings and two-character escapes exactly the text runs remain |
| `Strip.UnterminatedStringEndsAtEscape` | crates/core/src/util.rs:28-32 | an unterminated control string before another escape does not change what that escape strips to |
| `Withdrawal.IntervalDays` | crates/plugin-withdrawal-scheduler/src/lib.rs:86-97 | the loop returns the capped iterated floor; the product never saturates |
| `Withdrawal.IntervalIsCappedRecurrence` | crates/plugin-withdrawal-scheduler/src/lib.rs:86-97 | leaving the loop at the cap equals cutting off the uncapped recurrence at the end |
| `Withdrawal.IntervalSteps` | crates/plugin-withdrawal-scheduler/src/lib.rs:86-97 | the first interval is the base, each further one the one before times the factor in percent, rounded down and cut at the cap |
| `Withdrawal.IntervalsExpandToTheCap` | crates/plugin-withdrawal-scheduler/src/lib.rs:59-60 | for every accepted policy intervals lie in [base, cap], grow strictly below the cap, reach it by step cap - base and stay |
| `Withdrawal.AcceptedIffExpanding` | crates/plugin-withdrawal-scheduler/src/lib.rs:228-257 | a policy is accepted if and only if the base is positive, the factor above 100, the cap not below the base, and the intervals expand until the cap |
| `Withdrawal.ClosedFormBounds` | crates/plugin-withdrawal-scheduler/src/lib.rs:54-57 | the scaled loss against base*factor^n is never negative and at most 99(f^n - 100^n)/(f - 100) |
| `Withdrawal.ClosedFormHoldsIffFactorIsWhole` | crates/plugin-withdrawal-scheduler/src/lib.rs:54-57 | the steps follow base*factor^n truncated once, for all n, if and only if the factor is a whole number |
| `Withdrawal.DocumentedIffAtLastStep` | crates/plugin-withdrawal-scheduler/src/lib.rs:54-57 | an accepted policy gives min(base*factor^n, cap) at all n if and only if it does at its last step below the cap; with a whole factor it does |
| `Withdrawal.LastStepExists` | crates/plugin-withdrawal-scheduler/src/lib.rs:86-97 | every accepted policy has that last step |
| `Withdrawal.ClosedFormFails` | crates/plugin-withdrawal-scheduler/src/lib.rs:54-57 | an accepted policy where they differ |
| `Withdrawal.Plan` | crates/plugin-withdrawal-scheduler/src/lib.rs:264-291 | the nested loops produce the declared sessions |
| `Withdrawal.PlannedSessionAt` | crates/plugin-withdrawal-scheduler/src/lib.rs:264-291 | the session at i * count + k has seed i's actor and task, the index prior + k cut at 2^32 - 1, the interval at that index, and the time that many days after the session before it, or after the last practice, cut at the last instant |
| `Withdrawal.PlanIsInSeedOrder` | crates/plugin-withdrawal-scheduler/src/lib.rs:261-263 | |seeds| * count sessions; each seed's sessions follow those of the seeds before it |
| `Withdrawal.TimesArePrefixSums` | crates/plugin-withdrawal-scheduler/src/lib.rs:267-280 | the k-th time is the anchor plus the sum of the first k intervals, clamped once |
| `Withdrawal.SessionsMoveForward` | crates/plugin-withdrawal-scheduler/src/lib.rs:267-280 | times increase strictly until the last instant |
| `Withdrawal.PlanningResumes` | crates/plugin-withdrawal-scheduler/src/lib.rs:264-291 | planning a + b sessions is planning a, then b from the advanced seed, saturation and clamping included |
| `Rotation.Assign` | crates/plugin-rotation-scheduler/src/lib.rs:216-253 | the loop produces the declared assignment or the first error |
| `Rotation.AssignmentMeaning` | crates/plugin-rotation-scheduler/src/lib.rs:209-253 | fails if and only if there are no roles, no actors, or a role pinned to a human has none; otherwise every role in order gets the actor due |
| `Rotation.SlotIs` | crates/plugin-rotation-scheduler/src/lib.rs:224-247 | slot i goes to the first human if an override names its role and the item's criticality, else to the roster position (cycle / cadence + ordinal) wrapped at 64 bits |
| `Rotation.FailureIs` | crates/plugin-rotation-scheduler/src/lib.rs:217-240 | no roles, then no actors, then the first role pinned while the roster has no human |
| `Rotation.RotationIsFairIff` | crates/plugin-rotation-scheduler/src/lib.rs:216-253 | a window of n*c consecutive cycles, from any start, puts the role on every roster position exactly c times if and only if the 64-bit sum does not wrap within it, or n divides 2^64 |
| `Rotation.WrappedWindowExists` | crates/plugin-rotation-scheduler/src/lib.rs:241-244 | a window that is not fair |
| `Rotation.PositionIsPeriodicIff` | crates/plugin-rotation-scheduler/src/lib.rs:225-244 | a position repeats after n*c cycles if and only if the sum does not wrap in between, or n divides 2^64 |
| `Rotation.AssignIsPeriodicIff` | crates/plugin-rotation-scheduler/src/lib.rs:225-253 | the assignment repeats after n*c cycles if every eligible role is pinned or its sum does not wrap in between with a shift; with distinct ids and a successful assignment, only if |
| `Rotation.WrappedAssignmentDiffers` | crates/plugin-rotation-scheduler/src/lib.rs:225-253 | an assignment that does not repeat |
| `Rotation.PositionsMeetIff` | crates/plugin-rotation-scheduler/src/lib.rs:241-244 | two roles share a roster position if and only if n divides the distance of their ordinals, or what that leaves of 2^64 where the sum wraps between them |
| `Rotation.ActorsMeetIff` | crates/plugin-rotation-scheduler/src/lib.rs:211-253 | two slots of different roles name one actor if and only if both are pinned, or a pinned role's human is on the other's position, or the positions are one or carry one id |
| `Rotation.ActorsAreDistinctIff` | crates/plugin-rotation-scheduler/src/lib.rs:211-214 | with distinct ids and no role pinned, different roles get different actors if and only if no two of them meet |
| `Rotation.LargeRosterKeepsActorsDistinct` | crates/plugin-rotation-scheduler/src/lib.rs:211-214 | the promise: four or more distinct ids, no role pinned, no overflow |
| `Rotation.RepeatedIdsMeet` | crates/plugin-rotation-scheduler/src/lib.rs:211-214 | it fails for a roster that lists an id twice |
| `Rotation.PinnedRolesMeet` | crates/plugin-rotation-scheduler/src/lib.rs:211-214 | it fails for two pinned roles |
| `Rotation.WrappedRolesMeet` | crates/plugin-rotation-scheduler/src/lib.rs:211-214 | it fails where the sum wraps |
| `Rotation.HandoffsPassHopLimitIff` | crates/plugin-rotation-scheduler/src/lib.rs:175-196 | all hand-offs pass the hop limit if and only if there are at most 17 slots, truncation to 8 bits included |
| `Rotation.EighteenRolesBreakTheHopLimit` | crates/plugin-rotation-scheduler/src/lib.rs:175-196 | an assignment of eighteen slots that breaks it |
| `Rotation.HandoffIs` | crates/plugin-rotation-scheduler/src/lib.rs:182-196 | hand-off i goes from slot i to slot i + 1 for the item's task with hop count i mod 256 |
| `InterestRouter.TallyMessages` | crates/plugin-interest-router/src/lib.rs:302-335 | the five tallies hold exactly the 32-bit counts, deepest error and novel tasks of the messages |
| `InterestRouter.DocumentedSignals` | crates/plugin-interest-router/src/lib.rs:337-383 | the four documented signals of a task, written out over the messages |
| `InterestRouter.CountIsCardinality` | crates/plugin-interest-router/src/lib.rs:312-335 | a count is the number of places of such messages |
| `InterestRouter.OrderIs` | crates/plugin-interest-router/src/lib.rs:385-393 | signals come by task, and of one task cluster, novelty, anomaly, ambiguity |
| `InterestRouter.DerivationIsDocumentedIff` | crates/plugin-interest-router/src/lib.rs:302-395 | what is derived is what is documented, each weight its count, difference or maximum, if and only if on every task the error count is below 2^32 and the difference of delegations and results survives the counters; so for fewer than 2^32 messages |
| `InterestRouter.ClustersAgreeIff` | crates/plugin-interest-router/src/lib.rs:336-348 | the cluster signals of a task are the documented ones if and only if it has fewer than 2^32 errors |
| `InterestRouter.AmbiguitiesAgreeIff` | crates/plugin-interest-router/src/lib.rs:372-383 | the ambiguity signals of a task are the documented ones if and only if delegations d and results r have d / 2^32 = r / 2^32, or d < r and d mod 2^32 <= r mod 2^32 |
| `InterestRouter.WrappedCountersMisjudgeAmbiguity` | crates/plugin-interest-router/src/lib.rs:372-383 | messages whose ambiguity is not shown, and messages that show one without any |
| `InterestRouter.WrappedCounterHidesCluster` | crates/plugin-interest-router/src/lib.rs:319 | 2^32 errors on one task, documented as a cluster, give no cluster signal |
| `InterestRouter.ClusterSignals` | crates/plugin-interest-router/src/lib.rs:339-348 | pushes exactly the cluster signals of the tallied tasks, in task order |
| `InterestRouter.NoveltySignals` | crates/plugin-interest-router/src/lib.rs:350-357 | pushes exactly the novelty signals |
| `InterestRouter.AnomalySignals` | crates/plugin-interest-router/src/lib.rs:359-370 | pushes exactly the anomaly signals |
| `InterestRouter.AmbiguitySignals` | crates/plugin-interest-router/src/lib.rs:372-383 | pushes exactly the ambiguity signals |
| `InterestRouter.DeriveSignals` | crates/plugin-interest-router/src/lib.rs:302-395 | all signals and nothing else, strictly ordered by task and kind, each weight its declared count, maximum or difference |
| `InterestRouter.DerivationIsUnique` | crates/plugin-interest-router/src/lib.rs:235-246 | messages and baseline determine the returned list |
| `InterestRouter.DerivationIsOrderFree` | crates/plugin-interest-router/src/lib.rs:235-246 | permuting the messages changes nothing |
| `InterestRouter.DerivationIsLocal` | crates/plugin-interest-router/src/lib.rs:302-395 | the signals of one task are those derived from its messages alone |
| `InterestRouter.Route` | crates/plugin-interest-router/src/lib.rs:253-280 | NoSignals exactly if the task has none, else its signals sorted by kind and weight |
| `InterestRouter.RoutedIs` | crates/plugin-interest-router/src/lib.rs:253-280 | the routed problem has all signals of the task and no others, by kind and then weight, in the channel of the score |
| `InterestRouter.RoutingIsOrderFree` | crates/plugin-interest-router/src/lib.rs:264-268 | permuting the signals given does not change the routed problem |
| `CalibrationLedger.UpdateIsMonotone` | crates/plugin-calibration-ledger/src/lib.rs:147-158 | more mastery before an answer is no less after it |
| `CalibrationLedger.UpdateIsBayes` | crates/plugin-calibration-ledger/src/lib.rs:147-158 | for any parameters Bayes' rule and then the learning step; with evidence of probability 0 the learning step alone |
| `CalibrationLedger.ParametersAre` | crates/plugin-calibration-ledger/src/lib.rs:131-162 | the default parameters and the threshold 0.95 |
| `CalibrationLedger.UpdateDirection` | crates/plugin-calibration-ledger/src/lib.rs:147-158 | a correct answer strictly raises mastery and keeps it below 1; a wrong one strictly lowers it if and only if it is above 4/35 |
| `CalibrationLedger.MasteryBounds` | crates/plugin-calibration-ledger/src/lib.rs:270-280 | after any answers mastery is in [4/35, 1) |
| `CalibrationLedger.CorrectingNeverLowers` | crates/plugin-calibration-ledger/src/lib.rs:273-280 | turning any wrong answers of a history into correct ones never lowers mastery |
| `CalibrationLedger.InsertingCorrectRaises` | crates/plugin-calibration-ledger/src/lib.rs:273-280 | inserting a correct answer anywhere never lowers mastery |
| `CalibrationLedger.ThreeCorrectReachThreshold` | crates/plugin-calibration-ledger/src/lib.rs:161-162 | any history followed by three or more correct answers reaches 0.95 |
| `CalibrationLedger.TwoCorrectDoNotSuffice` | crates/plugin-calibration-ledger/src/lib.rs:161-162 | two correct answers from the prior do not |
| `CalibrationLedger.CalibrationLedger.Record` | crates/plugin-calibration-ledger/src/lib.rs:219-236 | appends the event |
| `CalibrationLedger.CalibrationLedger.Outcomes` | crates/plugin-calibration-ledger/src/lib.rs:240-268 | the actor's answers on the concept, in order |
| `CalibrationLedger.CalibrationLedger.Mastery` | crates/plugin-calibration-ledger/src/lib.rs:273-280 | the loop computes the replay of those answers |
| `CalibrationLedger.CalibrationLedger.TeamConceptRedundancy` | crates/plugin-calibration-ledger/src/lib.rs:287-328 | one row per answered concept, in the order of the concepts, with the number of distinct actors at or above the threshold |
| `CalibrationLedger.CalibrationLedger.CountMasters` | crates/plugin-calibration-ledger/src/lib.rs:307-319 | the loop counts them in whatever order the pairs come |
| `CalibrationLedger.CalibrationLedger.DeleteActor` | crates/plugin-calibration-ledger/src/lib.rs:372-380 | keeps exactly the other actors' events in order and returns how many went |
| `CalibrationLedger.RecordMovesOneMastery` | crates/plugin-calibration-ledger/src/lib.rs:219-280 | an answer moves one mastery: its actor's, of its concept, up if correct and never up if wrong |
| `CalibrationLedger.RecordMovesOneMaster` | crates/plugin-calibration-ledger/src/lib.rs:219-328 | only the answering actor joins or leaves the masters, joining only on a correct answer and leaving only on a wrong one |
| `CalibrationLedger.CorrectNeverLowersCounts` | crates/plugin-calibration-ledger/src/lib.rs:287-328 | a correct answer lowers no count, raises each by at most one, and adds at most its concept |
| `CalibrationLedger.DeleteLowersByContribution` | crates/plugin-calibration-ledger/src/lib.rs:372-380 | deleting an actor lowers each count by exactly that actor's contribution and drops exactly the concepts nobody else answered |
| `CalibrationLedger.MasteryIsPrivate` | crates/plugin-calibration-ledger/src/lib.rs:270-280 | on every run a mastery is the replay of the actor's own answers since their last deletion, whatever others did |
| `RationaleLedger.SqliteRationaleLedger.Append` | crates/plugin-rationale-ledger/src/lib.rs:137-201 | NotFound for a missing target, then a storage error for one of another task or a used id, all without change; otherwise exactly the new record is added |
| `RationaleLedger.AcceptedIff` | crates/plugin-rationale-ledger/src/lib.rs:152-198 | on every run a record is accepted if and only if its id is unused and what it supersedes, if anything, is a record of its task; NotFound if and only if that is missing |
| `RationaleLedger.AcceptedIsStored` | crates/plugin-rationale-ledger/src/lib.rs:138-198 | an accepted call adds exactly its record, last; a refused one nothing |
| `RationaleLedger.ReadingsAreOldestFirst` | crates/plugin-rationale-ledger/src/lib.rs:226-279 | both readings go by time and then by id |
| `RationaleLedger.ReadingsMeaning` | crates/plugin-rationale-ledger/src/lib.rs:226-279 | both readings hold exactly the records they name, oldest first |
| `RationaleLedger.EveryRunPointsBack` | crates/plugin-rationale-ledger/src/lib.rs:152-179 | on every run ids are unique and each supersedes an earlier record of its own task |
| `RationaleLedger.RecordsNeverChange` | crates/plugin-rationale-ledger/src/lib.rs:14-21 | a stored record is found unchanged on every continuation, and once superseded stays so |
| `RationaleLedger.EveryRecordLeadsToCurrent` | crates/plugin-rationale-ledger/src/lib.rs:258-279 | from every record a chain of corrections leads to a current one |
| `RationaleLedger.TaskWithRecordsHasCurrent` | crates/plugin-rationale-ledger/src/lib.rs:258-279 | on every run a task has a current record if and only if it has a record |
| `RationaleLedger.CurrentCount` | crates/plugin-rationale-ledger/src/lib.rs:226-279 | on every run a task has as many current records as records less the distinct ids superseded |
| `RationaleLedger.AppendReplacesTarget` | crates/plugin-rationale-ledger/src/lib.rs:150-201 | an accepted record becomes current in place of its target; no other record's standing changes |

## Left out

- SQLite, files, `serde` and mutex poisoning: storage succeeds, a table is a sequence or map, rows always decode, and a file is a list of lines that each parse or do not. Only the gate's call logger may fail. File mode, byte cap and path validation are not modelled.
- HMAC, SHA-256 and key derivation: MAC, chain link and stamp reference are function parameters.
- The running time of `constant_time_eq`.
- Text and byte lengths: strings are bounded by 2^61 characters and fields by 2^63 - 1 bytes, what a 64-bit process can hold.
- Time: instants are integers and order by value; RFC 3339 text, whose column order SQLite sorts by, and the calendar are not modelled. The last instant chrono can hold is a parameter of the planner.
- Error and log texts: an error keeps its kind and arguments; the text of a refused transition's log entry is the data it prints.
- GuardedTransition: lets other clients call the board during a call; revocations, tokens and log entries of other calls in between are in `GateRuns`, where a call is four steps.
- OverlapBreaksTheLog and OverlapSpoilsTheFile: show the failure for two threads and an empty log; for any threads and any log `VerifiesIffInLockOrder` and `ReloadAcceptsIff` have the exact condition.
- RedeemedTokenWasIssued: asks that the presented message does not collide under the MAC with anything the module stamped, and that the stamp is one it issued; a stamp guessed without the key is not modelled.
- Audit: states a call no other call overlaps; overlapping calls are `AuditThreads`.
- Assign: wraps where base plus ordinal passes 64 bits, as a release build does; a debug build stops there. The same holds of the counters of TallyMessages.
- CallUnderWayStillRedeemsIff: speaks of a task without dependencies; with dependencies whether a Ready target can still be reached depends on those tasks.
- UpdateIsMonotone: uses real numbers; rounding of `f64` is not modelled, nor are parameters other than the default ones the ledger always uses. The same holds of the other mastery results.
- Route: takes a score already in [0, 1]; rejecting others, and `resolve` with its sink, are one-branch facts.
- HandoffsPassHopLimitIff: covers task and hop count of a hand-off; the body text naming the actors is not modelled.
- Two-character escapes with intermediate bytes (nF in ECMA-48) and 8-bit C1 introducers: the code drops only two characters, or one, and so does the model; the printer does not print them.
- Revocations are kept in memory only, as in the code; `WithAuditFile` says so.
- `SecurityModule.verify` and `self_check`, solo-flight `complete` and `abort`, `prune_older_than`, `export_actor`, the rationale ledger's `get` and `all`: one-branch facts or plain filters.
- Sandbox, providers, bus, escalation, insights, profiles, probes, digests, coverage, bootstrap and pipeline: input/output or single branch checks.
