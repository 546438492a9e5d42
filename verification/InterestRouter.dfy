/** crates/plugin-interest-router/src/lib.rs: interest signals from agent messages. */
module InterestRouter {
  import opened Types
  import opened Sorting

  datatype MessageKind = Request | Response | Delegation | TaskResult | Error
  type U8 = n: int | 0 <= n < 0x100
  datatype AgentMessage = AgentMessage(kind: MessageKind, originTask: TaskId, hops: U8)

  datatype SignalKind = RetryFailureCluster | NoveltyVsBaseline | CrossModuleAnomaly | ContractBoundaryAmbiguity
  datatype InterestSignal = InterestSignal(kind: SignalKind, originTask: TaskId, weight: nat)

  datatype BehaviouralBaseline = BehaviouralBaseline(knownTasks: set<TaskId>, normalMaxHops: U8)

  const RETRY_CLUSTER_THRESHOLD := 3

  function KindIndex(k: SignalKind): nat {
    match k
    case RetryFailureCluster => 0
    case NoveltyVsBaseline => 1
    case CrossModuleAnomaly => 2
    case ContractBoundaryAmbiguity => 3
  }

  // ---- What each signal means ----

  /** How many messages of a kind concern the task. */
  function CountOf(ms: seq<AgentMessage>, kind: MessageKind, t: TaskId): nat {
    if ms == [] then 0
    else CountOf(ms[..|ms| - 1], kind, t) + if ms[|ms| - 1].kind == kind && ms[|ms| - 1].originTask == t then 1 else 0
  }

  const WRAP := 0x1_0000_0000

  /** What a 32-bit counter shows of a count. */
  function Counter(count: nat): U32 {
    count % WRAP
  }

  /** The deepest hop of an error on the task; 0 if there is none. */
  ghost predicate IsDeepestError(ms: seq<AgentMessage>, t: TaskId, depth: nat) {
    && (forall m :: m in ms && m.kind == Error && m.originTask == t ==> m.hops <= depth)
    && (depth == 0 || exists m :: m in ms && m.kind == Error && m.originTask == t && m.hops == depth)
  }

  predicate IsNovelMessage(m: AgentMessage, base: BehaviouralBaseline) {
    m.originTask !in base.knownTasks || m.hops > base.normalMaxHops
  }

  /** `s` is the signal of its kind on its task, going by these tallies of errors,
      delegations and results. */
  ghost predicate IsSignalBy(ms: seq<AgentMessage>, base: BehaviouralBaseline, s: InterestSignal,
                             errors: nat, delegations: nat, results: nat)
  {
    var t := s.originTask;
    match s.kind
    case RetryFailureCluster => s.weight == errors >= RETRY_CLUSTER_THRESHOLD
    case NoveltyVsBaseline => s.weight == 1 && exists m :: m in ms && m.originTask == t && IsNovelMessage(m, base)
    case CrossModuleAnomaly => s.weight > 1 && IsDeepestError(ms, t, s.weight)
    case ContractBoundaryAmbiguity => delegations > results && s.weight == delegations - results
  }

  /** The signal the code derives: it tallies in 32 bits. */
  ghost predicate IsSignal(ms: seq<AgentMessage>, base: BehaviouralBaseline, s: InterestSignal) {
    var t := s.originTask;
    IsSignalBy(ms, base, s, Counter(CountOf(ms, Error, t)), Counter(CountOf(ms, Delegation, t)),
               Counter(CountOf(ms, TaskResult, t)))
  }

  /** The signal the documentation describes: its tallies are the counts. */
  ghost predicate IsDocumentedSignal(ms: seq<AgentMessage>, base: BehaviouralBaseline, s: InterestSignal) {
    var t := s.originTask;
    IsSignalBy(ms, base, s, CountOf(ms, Error, t), CountOf(ms, Delegation, t), CountOf(ms, TaskResult, t))
  }

  predicate Before(a: InterestSignal, b: InterestSignal) {
    a.originTask < b.originTask || (a.originTask == b.originTask && KindIndex(a.kind) < KindIndex(b.kind))
  }

  ghost predicate StrictlyOrdered(r: seq<InterestSignal>) {
    forall i, j :: 0 <= i < j < |r| ==> Before(r[i], r[j])
  }

  /** All signals and nothing else, strictly ordered by task and kind. */
  ghost predicate IsDerivation(r: seq<InterestSignal>, ms: seq<AgentMessage>, base: BehaviouralBaseline) {
    StrictlyOrdered(r) && forall s :: s in r <==> IsSignal(ms, base, s)
  }

  // ---- Tallying ----

  datatype Tally = Tally(
    errorCounts: map<TaskId, U32>, delegations: map<TaskId, U32>, results: map<TaskId, U32>,
    errorMaxHops: map<TaskId, nat>, novelTasks: set<TaskId>)

  ghost predicate CountsKind(counts: map<TaskId, U32>, ms: seq<AgentMessage>, kind: MessageKind) {
    && (forall t :: t in counts ==> counts[t] == Counter(CountOf(ms, kind, t)))
    && (forall t :: t !in counts ==> CountOf(ms, kind, t) == 0)
  }

  ghost predicate HoldsDeepest(depths: map<TaskId, nat>, ms: seq<AgentMessage>) {
    forall t :: IsDeepestError(ms, t, if t in depths then depths[t] else 0)
  }

  ghost predicate HoldsNovel(novel: set<TaskId>, ms: seq<AgentMessage>, base: BehaviouralBaseline) {
    forall t :: t in novel <==> exists m :: m in ms && m.originTask == t && IsNovelMessage(m, base)
  }

  ghost predicate Tallies(y: Tally, ms: seq<AgentMessage>, base: BehaviouralBaseline) {
    && CountsKind(y.errorCounts, ms, Error) && CountsKind(y.delegations, ms, Delegation)
    && CountsKind(y.results, ms, TaskResult)
    && HoldsDeepest(y.errorMaxHops, ms) && HoldsNovel(y.novelTasks, ms, base)
  }

  /** `*entry(t).or_insert(0) += 1` */
  function Bump(counts: map<TaskId, U32>, t: TaskId): map<TaskId, U32> {
    var count: nat := if t in counts then counts[t] else 0;
    counts[t := Counter(count + 1)]
  }

  lemma CounterSteps(count: nat)
    ensures Counter(Counter(count) + 1) == Counter(count + 1)
  {}

  lemma BumpCounts(counts: map<TaskId, U32>, ms: seq<AgentMessage>, m: AgentMessage, kind: MessageKind)
    requires CountsKind(counts, ms, kind)
    ensures CountsKind(if m.kind == kind then Bump(counts, m.originTask) else counts, ms + [m], kind)
  {
    assert (ms + [m])[..|ms|] == ms;
    assert forall t :: CountOf(ms + [m], kind, t)
                       == CountOf(ms, kind, t) + if m.kind == kind && m.originTask == t then 1 else 0;
    if m.kind == kind {
      BumpedCounter(counts, m.originTask, CountOf(ms, kind, m.originTask));
    }
  }

  lemma BumpedCounter(counts: map<TaskId, U32>, t: TaskId, count: nat)
    requires if t in counts then counts[t] == Counter(count) else count == 0
    ensures Bump(counts, t) == counts[t := Counter(count + 1)]
  {
    CounterSteps(count);
    CounterSteps(0);
  }

  lemma DeepestGrows(depths: map<TaskId, nat>, ms: seq<AgentMessage>, m: AgentMessage)
    requires HoldsDeepest(depths, ms)
    ensures var d := if m.originTask in depths then depths[m.originTask] else 0;
            HoldsDeepest(if m.kind == Error then depths[m.originTask := if m.hops > d then m.hops else d] else depths,
                         ms + [m])
  {
    var d := if m.originTask in depths then depths[m.originTask] else 0;
    var next := if m.kind == Error then depths[m.originTask := if m.hops > d then m.hops else d] else depths;
    forall t
      ensures IsDeepestError(ms + [m], t, if t in next then next[t] else 0)
    {
      var was := if t in depths then depths[t] else 0;
      assert IsDeepestError(ms, t, was);
      assert m in ms + [m];
      assert forall x :: x in ms ==> x in ms + [m];
    }
  }

  lemma NovelGrows(novel: set<TaskId>, ms: seq<AgentMessage>, m: AgentMessage, base: BehaviouralBaseline)
    requires HoldsNovel(novel, ms, base)
    ensures HoldsNovel(if IsNovelMessage(m, base) then novel + {m.originTask} else novel, ms + [m], base)
  {
    assert m in ms + [m];
    assert forall x :: x in ms ==> x in ms + [m];
  }

  method TallyMessages(ms: seq<AgentMessage>, base: BehaviouralBaseline) returns (y: Tally)
    ensures Tallies(y, ms, base)
  {
    var errorCounts: map<TaskId, U32> := map[];
    var delegations: map<TaskId, U32> := map[];
    var results: map<TaskId, U32> := map[];
    var errorMaxHops: map<TaskId, nat> := map[];
    var novelTasks: set<TaskId> := {};
    for i := 0 to |ms|
      invariant CountsKind(errorCounts, ms[..i], Error)
      invariant CountsKind(delegations, ms[..i], Delegation)
      invariant CountsKind(results, ms[..i], TaskResult)
      invariant HoldsDeepest(errorMaxHops, ms[..i])
      invariant HoldsNovel(novelTasks, ms[..i], base)
    {
      var msg := ms[i];
      var task, hops := msg.originTask, msg.hops;
      assert ms[..i + 1] == ms[..i] + [msg];
      BumpCounts(errorCounts, ms[..i], msg, Error);
      BumpCounts(delegations, ms[..i], msg, Delegation);
      BumpCounts(results, ms[..i], msg, TaskResult);
      DeepestGrows(errorMaxHops, ms[..i], msg);
      NovelGrows(novelTasks, ms[..i], msg, base);
      if IsNovelMessage(msg, base) {
        novelTasks := novelTasks + {task};
      }
      match msg.kind {
        case Error =>
          errorCounts := Bump(errorCounts, task);
          var entry := if task in errorMaxHops then errorMaxHops[task] else 0;
          errorMaxHops := errorMaxHops[task := if hops > entry then hops else entry];
        case Delegation => delegations := Bump(delegations, task);
        case TaskResult => results := Bump(results, task);
        case _ =>
      }
    }
    assert ms[..|ms|] == ms;
    y := Tally(errorCounts, delegations, results, errorMaxHops, novelTasks);
  }

  // ---- Emitting ----

  function AscendingIds(): (TaskId, TaskId) -> bool {
    (x: TaskId, y: TaskId) => x <= y
  }

  /** `r` holds, in task order, the signals of one kind on the tasks of `ids`. */
  ghost predicate Emits(r: seq<InterestSignal>, kind: SignalKind, ids: seq<TaskId>, ms: seq<AgentMessage>,
                        base: BehaviouralBaseline)
  {
    && StrictlyOrdered(r)
    && forall s :: s in r <==> s.kind == kind && s.originTask in ids && IsSignal(ms, base, s)
  }

  /** `r` holds, in task order, all signals of one kind and nothing else. */
  ghost predicate EmitsAll(r: seq<InterestSignal>, kind: SignalKind, ms: seq<AgentMessage>, base: BehaviouralBaseline) {
    StrictlyOrdered(r) && forall s :: s in r <==> s.kind == kind && IsSignal(ms, base, s)
  }

  function TaskKeys(y: Tally, kind: SignalKind): set<TaskId> {
    match kind
    case RetryFailureCluster => y.errorCounts.Keys
    case NoveltyVsBaseline => y.novelTasks
    case CrossModuleAnomaly => y.errorMaxHops.Keys
    case ContractBoundaryAmbiguity => y.delegations.Keys
  }

  /** A task with a signal of a kind is among the keys the loop for that kind visits. */
  lemma SignalTaskIsTallied(y: Tally, ms: seq<AgentMessage>, base: BehaviouralBaseline, s: InterestSignal)
    requires Tallies(y, ms, base) && IsSignal(ms, base, s)
    ensures s.originTask in TaskKeys(y, s.kind)
  {
    var t := s.originTask;
    assert IsDeepestError(ms, t, if t in y.errorMaxHops then y.errorMaxHops[t] else 0);
  }

  lemma EmitsEveryTask(r: seq<InterestSignal>, kind: SignalKind, tasks: seq<TaskId>, y: Tally, ms: seq<AgentMessage>,
                       base: BehaviouralBaseline)
    requires Tallies(y, ms, base) && Emits(r, kind, tasks, ms, base)
    requires forall t :: t in tasks <==> t in TaskKeys(y, kind)
    ensures EmitsAll(r, kind, ms, base)
  {
    forall s: InterestSignal | s.kind == kind && IsSignal(ms, base, s)
      ensures s in r
    {
      SignalTaskIsTallied(y, ms, base, s);
    }
  }

  lemma EmitStep(r: seq<InterestSignal>, kind: SignalKind, ids: seq<TaskId>, i: nat, ms: seq<AgentMessage>,
                 base: BehaviouralBaseline, s: InterestSignal)
    requires i < |ids| && Emits(r, kind, ids[..i], ms, base)
    requires forall k :: 0 <= k < i ==> ids[k] < ids[i]
    requires s.kind == kind && s.originTask == ids[i]
    ensures IsSignal(ms, base, s) ==> Emits(r + [s], kind, ids[..i + 1], ms, base)
    ensures (forall w: nat :: !IsSignal(ms, base, s.(weight := w))) ==> Emits(r, kind, ids[..i + 1], ms, base)
  {
    assert ids[..i + 1] == ids[..i] + [ids[i]];
    forall x: InterestSignal | x.kind == kind && x.originTask == ids[i] && IsSignal(ms, base, x)
      ensures IsSignal(ms, base, s.(weight := x.weight))
      ensures IsSignal(ms, base, s) ==> x == s
    {
      assert s.(weight := x.weight) == x;
      if IsSignal(ms, base, s) {
        SignalIsUnique(ms, base, s, x);
      }
    }
    forall k | 0 <= k < |r|
      ensures Before(r[k], s)
    {
      assert r[k] in r;
    }
  }

  /** At most one signal per task and kind. */
  lemma SignalIsUnique(ms: seq<AgentMessage>, base: BehaviouralBaseline, a: InterestSignal, b: InterestSignal)
    requires IsSignal(ms, base, a) && IsSignal(ms, base, b) && a.kind == b.kind && a.originTask == b.originTask
    ensures a == b
  {}

  method ClusterSignals(y: Tally, ghost ms: seq<AgentMessage>, ghost base: BehaviouralBaseline)
    returns (signals: seq<InterestSignal>)
    requires Tallies(y, ms, base)
    ensures EmitsAll(signals, RetryFailureCluster, ms, base)
  {
    signals := [];
    var tasks := Ascending(y.errorCounts.Keys, AscendingIds());
    for i := 0 to |tasks|
      invariant Emits(signals, RetryFailureCluster, tasks[..i], ms, base)
    {
      var task := tasks[i];
      var count := y.errorCounts[task];
      EmitStep(signals, RetryFailureCluster, tasks, i, ms, base, InterestSignal(RetryFailureCluster, task, count));
      if count >= RETRY_CLUSTER_THRESHOLD {
        signals := signals + [InterestSignal(RetryFailureCluster, task, count)];
      }
    }
    assert tasks[..|tasks|] == tasks;
    EmitsEveryTask(signals, RetryFailureCluster, tasks, y, ms, base);
  }

  method NoveltySignals(y: Tally, ghost ms: seq<AgentMessage>, ghost base: BehaviouralBaseline)
    returns (signals: seq<InterestSignal>)
    requires Tallies(y, ms, base)
    ensures EmitsAll(signals, NoveltyVsBaseline, ms, base)
  {
    signals := [];
    var tasks := Ascending(y.novelTasks, AscendingIds());
    for i := 0 to |tasks|
      invariant Emits(signals, NoveltyVsBaseline, tasks[..i], ms, base)
    {
      assert tasks[i] in y.novelTasks;
      EmitStep(signals, NoveltyVsBaseline, tasks, i, ms, base, InterestSignal(NoveltyVsBaseline, tasks[i], 1));
      signals := signals + [InterestSignal(NoveltyVsBaseline, tasks[i], 1)];
    }
    assert tasks[..|tasks|] == tasks;
    EmitsEveryTask(signals, NoveltyVsBaseline, tasks, y, ms, base);
  }

  method AnomalySignals(y: Tally, ghost ms: seq<AgentMessage>, ghost base: BehaviouralBaseline)
    returns (signals: seq<InterestSignal>)
    requires Tallies(y, ms, base)
    ensures EmitsAll(signals, CrossModuleAnomaly, ms, base)
  {
    signals := [];
    var tasks := Ascending(y.errorMaxHops.Keys, AscendingIds());
    for i := 0 to |tasks|
      invariant Emits(signals, CrossModuleAnomaly, tasks[..i], ms, base)
    {
      var task := tasks[i];
      var depth := y.errorMaxHops[task];
      assert IsDeepestError(ms, task, depth);
      EmitStep(signals, CrossModuleAnomaly, tasks, i, ms, base, InterestSignal(CrossModuleAnomaly, task, depth));
      if depth > 1 {
        signals := signals + [InterestSignal(CrossModuleAnomaly, task, depth)];
      }
    }
    assert tasks[..|tasks|] == tasks;
    EmitsEveryTask(signals, CrossModuleAnomaly, tasks, y, ms, base);
  }

  method AmbiguitySignals(y: Tally, ghost ms: seq<AgentMessage>, ghost base: BehaviouralBaseline)
    returns (signals: seq<InterestSignal>)
    requires Tallies(y, ms, base)
    ensures EmitsAll(signals, ContractBoundaryAmbiguity, ms, base)
  {
    signals := [];
    var tasks := Ascending(y.delegations.Keys, AscendingIds());
    for i := 0 to |tasks|
      invariant Emits(signals, ContractBoundaryAmbiguity, tasks[..i], ms, base)
    {
      var task := tasks[i];
      var deleg := y.delegations[task];
      var res := if task in y.results then y.results[task] else 0;
      var open := if deleg > res then deleg - res else 0;
      EmitStep(signals, ContractBoundaryAmbiguity, tasks, i, ms, base,
               InterestSignal(ContractBoundaryAmbiguity, task, open));
      if deleg > res {
        signals := signals + [InterestSignal(ContractBoundaryAmbiguity, task, open)];
      }
    }
    assert tasks[..|tasks|] == tasks;
    EmitsEveryTask(signals, ContractBoundaryAmbiguity, tasks, y, ms, base);
  }

  predicate SignalLe(a: InterestSignal, b: InterestSignal) {
    Before(a, b) || (a.originTask == b.originTask && a.kind == b.kind && a.weight <= b.weight)
  }

  lemma SignalLeIsTotal()
    ensures TotalOrder(SignalLe) && Antisymmetric(SignalLe)
  {
    assert forall a: SignalKind, b: SignalKind :: KindIndex(a) == KindIndex(b) ==> a == b;
  }

  method DeriveSignals(ms: seq<AgentMessage>, base: BehaviouralBaseline) returns (signals: seq<InterestSignal>)
    ensures IsDerivation(signals, ms, base)
  {
    var y := TallyMessages(ms, base);
    var clusters := ClusterSignals(y, ms, base);
    var novelties := NoveltySignals(y, ms, base);
    var anomalies := AnomalySignals(y, ms, base);
    var ambiguities := AmbiguitySignals(y, ms, base);
    signals := clusters + novelties + anomalies + ambiguities;
    assert forall s :: s in signals <==> IsSignal(ms, base, s);
    forall s
      ensures multiset(signals)[s] <= 1
    {
      OrderedOnce(clusters, s);
      OrderedOnce(novelties, s);
      OrderedOnce(anomalies, s);
      OrderedOnce(ambiguities, s);
    }
    SignalLeIsTotal();
    SortByIsSorted(signals, SignalLe);
    SortedSignalsAscend(signals, SortBy(signals, SignalLe), ms, base);
    signals := SortBy(signals, SignalLe);
  }

  lemma {:induction false} OrderedOnce(r: seq<InterestSignal>, s: InterestSignal)
    requires StrictlyOrdered(r)
    ensures multiset(r)[s] == if s in r then 1 else 0
  {
    if r != [] {
      var init, last := r[..|r| - 1], r[|r| - 1];
      OrderedOnce(init, s);
      assert r == init + [last];
      assert forall k :: 0 <= k < |init| ==> init[k] == r[k] && Before(r[k], r[|r| - 1]);
      assert last !in init;
    }
  }

  lemma SortedSignalsAscend(from: seq<InterestSignal>, r: seq<InterestSignal>, ms: seq<AgentMessage>,
                            base: BehaviouralBaseline)
    requires multiset(r) == multiset(from) && SortedBy(r, SignalLe) && NoDuplicates(from)
    requires forall s :: s in from <==> IsSignal(ms, base, s)
    ensures IsDerivation(r, ms, base)
  {
    forall s
      ensures s in r <==> IsSignal(ms, base, s)
    {
      assert s in r <==> s in multiset(r);
      assert s in from <==> s in multiset(from);
    }
    forall i, j | 0 <= i < j < |r|
      ensures Before(r[i], r[j])
    {
      NoDuplicatesAt(r, i, j);
      assert r[i] in r && r[j] in r;
      assert SignalLe(r[i], r[j]);
      if r[i].kind == r[j].kind && r[i].originTask == r[j].originTask {
        SignalIsUnique(ms, base, r[i], r[j]);
      }
    }
  }

  // ---- Counts and counters ----

  lemma {:induction false} CountIsBounded(ms: seq<AgentMessage>, kind: MessageKind, t: TaskId)
    ensures CountOf(ms, kind, t) <= |ms|
  {
    if ms != [] {
      CountIsBounded(ms[..|ms| - 1], kind, t);
    }
  }

  /** The signals of one kind on a task are the documented ones. */
  ghost predicate Agree(ms: seq<AgentMessage>, base: BehaviouralBaseline, kind: SignalKind, t: TaskId) {
    forall w: nat :: IsSignal(ms, base, InterestSignal(kind, t, w)) <==> IsDocumentedSignal(ms, base, InterestSignal(kind, t, w))
  }

  /** Cluster signals agree exactly while the task's error count fits its counter. */
  lemma ClustersAgreeIff(ms: seq<AgentMessage>, base: BehaviouralBaseline, t: TaskId)
    ensures Agree(ms, base, RetryFailureCluster, t) <==> CountOf(ms, Error, t) < 0x1_0000_0000
  {
    var c := CountOf(ms, Error, t);
    if c >= WRAP {
      assert IsDocumentedSignal(ms, base, InterestSignal(RetryFailureCluster, t, c));
      assert !IsSignal(ms, base, InterestSignal(RetryFailureCluster, t, c));
    }
  }

  /** The difference of two counts survives the counters: they wrapped equally often,
      or there is no difference to show and the counters show none either. */
  predicate DifferenceSurvives(d: nat, r: nat) {
    d / WRAP == r / WRAP || (d < r && Counter(d) <= Counter(r))
  }

  lemma DifferenceSurvivesIff(d: nat, r: nat)
    ensures DifferenceSurvives(d, r)
            <==> if d > r then Counter(d) > Counter(r) && Counter(d) - Counter(r) == d - r else Counter(d) <= Counter(r)
  {
    var (p, q) := (d / WRAP, r / WRAP);
    assert d == p * WRAP + Counter(d) && r == q * WRAP + Counter(r);
  }

  /** Ambiguity signals agree exactly if that difference survives. */
  lemma AmbiguitiesAgreeIff(ms: seq<AgentMessage>, base: BehaviouralBaseline, t: TaskId)
    ensures Agree(ms, base, ContractBoundaryAmbiguity, t)
            <==> DifferenceSurvives(CountOf(ms, Delegation, t), CountOf(ms, TaskResult, t))
  {
    var d, r := CountOf(ms, Delegation, t), CountOf(ms, TaskResult, t);
    DifferenceSurvivesIff(d, r);
    var right := InterestSignal(ContractBoundaryAmbiguity, t, if d > r then d - r else 0);
    var shown := InterestSignal(ContractBoundaryAmbiguity, t, if Counter(d) > Counter(r) then Counter(d) - Counter(r) else 0);
    assert IsDocumentedSignal(ms, base, right) <==> d > r;
    assert IsSignal(ms, base, shown) <==> Counter(d) > Counter(r);
    if Agree(ms, base, ContractBoundaryAmbiguity, t) {
      assert IsSignal(ms, base, right) <==> IsDocumentedSignal(ms, base, right);
      assert IsSignal(ms, base, shown) <==> IsDocumentedSignal(ms, base, shown);
    }
  }

  /** The places of the messages of a kind that concern the task. */
  function Places(ms: seq<AgentMessage>, kind: MessageKind, t: TaskId): set<nat> {
    set i: nat | i < |ms| && ms[i].kind == kind && ms[i].originTask == t
  }

  lemma {:induction false} CountIsCardinality(ms: seq<AgentMessage>, kind: MessageKind, t: TaskId)
    ensures CountOf(ms, kind, t) == |Places(ms, kind, t)|
  {
    if ms != [] {
      CountIsCardinality(ms[..|ms| - 1], kind, t);
      PlacesStep(ms, kind, t);
    }
  }

  lemma PlacesStep(ms: seq<AgentMessage>, kind: MessageKind, t: TaskId)
    requires ms != []
    ensures var n := |ms| - 1;
            && n !in Places(ms[..n], kind, t)
            && Places(ms, kind, t)
               == Places(ms[..n], kind, t) + if ms[n].kind == kind && ms[n].originTask == t then {n} else {}
  {}

  /** The four documented signals of a task, written out. */
  lemma DocumentedSignals(ms: seq<AgentMessage>, base: BehaviouralBaseline, t: TaskId, w: nat)
    ensures IsDocumentedSignal(ms, base, InterestSignal(RetryFailureCluster, t, w)) <==> w == CountOf(ms, Error, t) && w >= 3
    ensures IsDocumentedSignal(ms, base, InterestSignal(NoveltyVsBaseline, t, w))
            <==> w == 1 && exists i :: 0 <= i < |ms| && ms[i].originTask == t
                                       && (t !in base.knownTasks || ms[i].hops > base.normalMaxHops)
    ensures IsDocumentedSignal(ms, base, InterestSignal(CrossModuleAnomaly, t, w))
            <==> w >= 2 && (exists i :: 0 <= i < |ms| && ms[i].kind == Error && ms[i].originTask == t && ms[i].hops == w)
                 && forall i :: 0 <= i < |ms| && ms[i].kind == Error && ms[i].originTask == t ==> ms[i].hops <= w
    ensures IsDocumentedSignal(ms, base, InterestSignal(ContractBoundaryAmbiguity, t, w))
            <==> w >= 1 && CountOf(ms, Delegation, t) == CountOf(ms, TaskResult, t) + w
  {
    assert forall m :: m in ms <==> exists i :: 0 <= i < |ms| && ms[i] == m;
  }

  /** Signals come by task, and of one task cluster, novelty, anomaly, ambiguity. */
  lemma OrderIs(r: seq<InterestSignal>, i: nat, j: nat)
    requires StrictlyOrdered(r) && i < j < |r|
    ensures r[i].originTask <= r[j].originTask
    ensures r[i].originTask == r[j].originTask ==>
              && r[i].kind != r[j].kind && r[j].kind != RetryFailureCluster && r[i].kind != ContractBoundaryAmbiguity
              && (r[j].kind == NoveltyVsBaseline ==> r[i].kind == RetryFailureCluster)
              && (r[i].kind == CrossModuleAnomaly ==> r[j].kind == ContractBoundaryAmbiguity)
  {
    assert Before(r[i], r[j]);
  }

  ghost predicate IsDocumentedDerivation(r: seq<InterestSignal>, ms: seq<AgentMessage>, base: BehaviouralBaseline) {
    StrictlyOrdered(r) && forall s :: s in r <==> IsDocumentedSignal(ms, base, s)
  }

  ghost predicate TalliesSurvive(ms: seq<AgentMessage>, t: TaskId) {
    CountOf(ms, Error, t) < WRAP && DifferenceSurvives(CountOf(ms, Delegation, t), CountOf(ms, TaskResult, t))
  }

  /** What is derived is what is documented, each weight its count, difference or
      maximum, exactly if on every task the counters lose nothing that matters; so in
      particular for fewer than 2^32 messages. */
  lemma DerivationIsDocumentedIff(r: seq<InterestSignal>, ms: seq<AgentMessage>, base: BehaviouralBaseline)
    requires IsDerivation(r, ms, base)
    ensures IsDocumentedDerivation(r, ms, base) <==> forall t :: TalliesSurvive(ms, t)
    ensures |ms| < 0x1_0000_0000 ==> IsDocumentedDerivation(r, ms, base)
  {
    if IsDocumentedDerivation(r, ms, base) {
      forall t
        ensures TalliesSurvive(ms, t)
      {
        ClustersAgreeIff(ms, base, t);
        AmbiguitiesAgreeIff(ms, base, t);
      }
    }
    if |ms| < WRAP {
      forall t
        ensures TalliesSurvive(ms, t)
      {
        CountIsBounded(ms, Error, t);
        CountIsBounded(ms, Delegation, t);
        CountIsBounded(ms, TaskResult, t);
      }
    }
    if forall t :: TalliesSurvive(ms, t) {
      forall s
        ensures IsSignal(ms, base, s) <==> IsDocumentedSignal(ms, base, s)
      {
        SignalAgrees(ms, base, s);
      }
    }
  }

  lemma SignalAgrees(ms: seq<AgentMessage>, base: BehaviouralBaseline, s: InterestSignal)
    requires TalliesSurvive(ms, s.originTask)
    ensures IsSignal(ms, base, s) <==> IsDocumentedSignal(ms, base, s)
  {
    ClustersAgreeIff(ms, base, s.originTask);
    AmbiguitiesAgreeIff(ms, base, s.originTask);
    assert s == InterestSignal(s.kind, s.originTask, s.weight);
  }

  lemma {:induction false} CountOfRepeated(ms: seq<AgentMessage>, m: AgentMessage, kind: MessageKind)
    requires forall i :: 0 <= i < |ms| ==> ms[i] == m
    ensures CountOf(ms, kind, m.originTask) == if kind == m.kind then |ms| else 0
  {
    if ms != [] {
      CountOfRepeated(ms[..|ms| - 1], m, kind);
    }
  }

  /** 2^32 errors on one task are no cluster. */
  lemma WrappedCounterHidesCluster(base: BehaviouralBaseline, t: TaskId)
    ensures exists ms :: IsDocumentedSignal(ms, base, InterestSignal(RetryFailureCluster, t, WRAP))
                         && forall w: nat :: !IsSignal(ms, base, InterestSignal(RetryFailureCluster, t, w))
  {
    var m := AgentMessage(Error, t, 0);
    var ms := seq(WRAP, _ => m);
    CountOfRepeated(ms, m, Error);
    assert IsDocumentedSignal(ms, base, InterestSignal(RetryFailureCluster, t, WRAP));
  }

  /** `d` delegations, then `r` results on one task. */
  function Exchange(t: TaskId, d: nat, r: nat): seq<AgentMessage> {
    seq(d, _ => AgentMessage(Delegation, t, 0)) + seq(r, _ => AgentMessage(TaskResult, t, 0))
  }

  lemma ExchangeCounts(t: TaskId, d: nat, r: nat)
    ensures CountOf(Exchange(t, d, r), Delegation, t) == d && CountOf(Exchange(t, d, r), TaskResult, t) == r
  {
    var x, y := AgentMessage(Delegation, t, 0), AgentMessage(TaskResult, t, 0);
    var ds, rs := seq(d, _ => x), seq(r, _ => y);
    CountOfRepeated(ds, x, Delegation);
    CountOfRepeated(ds, x, TaskResult);
    CountOfRepeated(rs, y, Delegation);
    CountOfRepeated(rs, y, TaskResult);
    CountOfAppend(ds, rs, Delegation, t);
    CountOfAppend(ds, rs, TaskResult, t);
  }

  /** 2^32 delegations and one result show no ambiguity, and one delegation with 2^32
      results shows one that is not there. */
  lemma WrappedCountersMisjudgeAmbiguity(base: BehaviouralBaseline, t: TaskId)
    ensures exists ms, w :: IsDocumentedSignal(ms, base, InterestSignal(ContractBoundaryAmbiguity, t, w))
                            && forall v: nat :: !IsSignal(ms, base, InterestSignal(ContractBoundaryAmbiguity, t, v))
    ensures exists ms, w :: IsSignal(ms, base, InterestSignal(ContractBoundaryAmbiguity, t, w))
                            && forall v: nat :: !IsDocumentedSignal(ms, base, InterestSignal(ContractBoundaryAmbiguity, t, v))
  {
    ExchangeCounts(t, WRAP, 1);
    assert IsDocumentedSignal(Exchange(t, WRAP, 1), base, InterestSignal(ContractBoundaryAmbiguity, t, WRAP - 1));
    ExchangeCounts(t, 1, WRAP);
    assert IsSignal(Exchange(t, 1, WRAP), base, InterestSignal(ContractBoundaryAmbiguity, t, 1));
  }

  // ---- Order-free and local ----

  /** The derivation is determined by the messages and the baseline. */
  lemma DerivationIsUnique(a: seq<InterestSignal>, b: seq<InterestSignal>, ms: seq<AgentMessage>,
                           base: BehaviouralBaseline)
    requires IsDerivation(a, ms, base) && IsDerivation(b, ms, base)
    ensures a == b
  {
    forall s
      ensures multiset(a)[s] == multiset(b)[s]
    {
      OrderedOnce(a, s);
      OrderedOnce(b, s);
    }
    assert multiset(a) == multiset(b);
    SignalLeIsTotal();
    SortedIsUnique(a, b, SignalLe);
  }

  lemma {:induction false} CountOfAppend(a: seq<AgentMessage>, b: seq<AgentMessage>, kind: MessageKind, t: TaskId)
    ensures CountOf(a + b, kind, t) == CountOf(a, kind, t) + CountOf(b, kind, t)
  {
    if b == [] {
      assert a + b == a;
    } else {
      assert (a + b)[..|a + b| - 1] == a + b[..|b| - 1];
      CountOfAppend(a, b[..|b| - 1], kind, t);
    }
  }

  lemma CountWithout(ms: seq<AgentMessage>, k: nat, kind: MessageKind, t: TaskId)
    requires k < |ms|
    ensures CountOf(ms, kind, t) == CountOf(ms[..k] + ms[k + 1..], kind, t) + CountOf([ms[k]], kind, t)
    ensures multiset(ms[..k] + ms[k + 1..]) == multiset(ms) - multiset{ms[k]}
  {
    assert ms == ms[..k] + [ms[k]] + ms[k + 1..];
    CountOfAppend(ms[..k] + [ms[k]], ms[k + 1..], kind, t);
    CountOfAppend(ms[..k], [ms[k]], kind, t);
    CountOfAppend(ms[..k], ms[k + 1..], kind, t);
  }

  lemma {:induction false} CountIsOrderFree(a: seq<AgentMessage>, b: seq<AgentMessage>, kind: MessageKind, t: TaskId)
    requires multiset(a) == multiset(b)
    ensures CountOf(a, kind, t) == CountOf(b, kind, t)
    decreases |a|
  {
    if a == [] {
      assert |multiset(b)| == 0;
    } else {
      assert a[0] in multiset(b);
      var k :| 0 <= k < |b| && b[k] == a[0];
      CountWithout(a, 0, kind, t);
      CountWithout(b, k, kind, t);
      CountIsOrderFree(a[..0] + a[1..], b[..k] + b[k + 1..], kind, t);
    }
  }

  /** Reordering the messages changes no signal, so `derive_signals` returns the same list. */
  lemma DerivationIsOrderFree(r: seq<InterestSignal>, a: seq<AgentMessage>, b: seq<AgentMessage>,
                              base: BehaviouralBaseline)
    requires multiset(a) == multiset(b)
    ensures IsDerivation(r, a, base) <==> IsDerivation(r, b, base)
  {
    assert forall m :: m in a <==> m in multiset(a);
    assert forall m :: m in b <==> m in multiset(b);
    forall s
      ensures IsSignal(a, base, s) <==> IsSignal(b, base, s)
    {
      CountIsOrderFree(a, b, Error, s.originTask);
      CountIsOrderFree(a, b, Delegation, s.originTask);
      CountIsOrderFree(a, b, TaskResult, s.originTask);
    }
  }

  function MessagesOf(ms: seq<AgentMessage>, t: TaskId): seq<AgentMessage> {
    if ms == [] then []
    else MessagesOf(ms[..|ms| - 1], t) + if ms[|ms| - 1].originTask == t then [ms[|ms| - 1]] else []
  }

  function SignalsOf(r: seq<InterestSignal>, t: TaskId): seq<InterestSignal> {
    if r == [] then []
    else SignalsOf(r[..|r| - 1], t) + if r[|r| - 1].originTask == t then [r[|r| - 1]] else []
  }

  lemma {:induction false} MessagesOfMeaning(ms: seq<AgentMessage>, t: TaskId)
    ensures forall m :: m in MessagesOf(ms, t) <==> m in ms && m.originTask == t
  {
    if ms != [] {
      MessagesOfMeaning(ms[..|ms| - 1], t);
      assert ms == ms[..|ms| - 1] + [ms[|ms| - 1]];
    }
  }

  lemma {:induction false} CountIsLocal(ms: seq<AgentMessage>, t: TaskId, u: TaskId, kind: MessageKind)
    ensures CountOf(MessagesOf(ms, t), kind, u) == if u == t then CountOf(ms, kind, u) else 0
  {
    if ms != [] {
      var init, last := ms[..|ms| - 1], ms[|ms| - 1];
      CountIsLocal(init, t, u, kind);
      CountOfAppend(MessagesOf(init, t), [last], kind, u);
      if last.originTask != t {
        assert MessagesOf(ms, t) == MessagesOf(init, t);
      }
    }
  }

  lemma {:induction false} SignalsOfMeaning(r: seq<InterestSignal>, t: TaskId)
    requires StrictlyOrdered(r)
    ensures StrictlyOrdered(SignalsOf(r, t))
    ensures forall s :: s in SignalsOf(r, t) <==> s in r && s.originTask == t
  {
    if r != [] {
      var init, last := r[..|r| - 1], r[|r| - 1];
      SignalsOfMeaning(init, t);
      assert r == init + [last];
      forall k | 0 <= k < |SignalsOf(init, t)|
        ensures Before(SignalsOf(init, t)[k], last)
      {
        assert SignalsOf(init, t)[k] in init;
      }
    }
  }

  lemma SignalIsLocal(ms: seq<AgentMessage>, base: BehaviouralBaseline, t: TaskId, s: InterestSignal)
    ensures IsSignal(MessagesOf(ms, t), base, s) <==> s.originTask == t && IsSignal(ms, base, s)
  {
    var u := s.originTask;
    MessagesOfMeaning(ms, t);
    match s.kind
    case RetryFailureCluster => CountIsLocal(ms, t, u, Error);
    case ContractBoundaryAmbiguity =>
      CountIsLocal(ms, t, u, Delegation);
      CountIsLocal(ms, t, u, TaskResult);
    case NoveltyVsBaseline =>
    case CrossModuleAnomaly =>
  }

  /** The signals of one task are those derived from its messages alone. */
  lemma DerivationIsLocal(r: seq<InterestSignal>, ms: seq<AgentMessage>, base: BehaviouralBaseline, t: TaskId)
    requires IsDerivation(r, ms, base)
    ensures IsDerivation(SignalsOf(r, t), MessagesOf(ms, t), base)
  {
    SignalsOfMeaning(r, t);
    forall s
      ensures IsSignal(MessagesOf(ms, t), base, s) <==> s in SignalsOf(r, t)
    {
      SignalIsLocal(ms, base, t, s);
    }
  }

  // ---- Routing ----

  datatype FlowChannel = Guided | Standard | Stretch
  datatype RoutedProblem = RoutedProblem(originTask: TaskId, signals: seq<InterestSignal>, recipient: string, channel: FlowChannel)
  datatype RoutingError = NoSignals(task: TaskId)
  type CalibrationScore = x: real | 0.0 <= x <= 1.0

  function Channel(score: CalibrationScore): FlowChannel {
    if score < 0.34 then Guided else if score < 0.67 then Standard else Stretch
  }

  predicate KindThenWeight(a: InterestSignal, b: InterestSignal) {
    KindIndex(a.kind) < KindIndex(b.kind) || (a.kind == b.kind && a.weight <= b.weight)
  }

  /** On the signals of one task the comparison sorts as the global one does, so routing ignores the order given. */
  lemma RoutingIsOrderFree(a: seq<InterestSignal>, b: seq<InterestSignal>, t: TaskId)
    requires multiset(a) == multiset(b)
    ensures SortBy(SignalsOf(a, t), KindThenWeight) == SortBy(SignalsOf(b, t), KindThenWeight)
  {
    SignalLeIsTotal();
    SignalsOfPermute(a, b, t);
    SignalsOfCarryTask(a, t);
    SignalsOfCarryTask(b, t);
    SortsAlike(SignalsOf(a, t), t);
    SortsAlike(SignalsOf(b, t), t);
    SortByIsSorted(SignalsOf(a, t), SignalLe);
    SortByIsSorted(SignalsOf(b, t), SignalLe);
    SortedIsUnique(SortBy(SignalsOf(a, t), SignalLe), SortBy(SignalsOf(b, t), SignalLe), SignalLe);
  }

  lemma {:induction false} SignalsOfCount(r: seq<InterestSignal>, t: TaskId, s: InterestSignal)
    ensures multiset(SignalsOf(r, t))[s] == if s.originTask == t then multiset(r)[s] else 0
  {
    if r != [] {
      SignalsOfCount(r[..|r| - 1], t, s);
      assert r == r[..|r| - 1] + [r[|r| - 1]];
    }
  }

  lemma SignalsOfPermute(a: seq<InterestSignal>, b: seq<InterestSignal>, t: TaskId)
    requires multiset(a) == multiset(b)
    ensures multiset(SignalsOf(a, t)) == multiset(SignalsOf(b, t))
  {
    forall s
      ensures multiset(SignalsOf(a, t))[s] == multiset(SignalsOf(b, t))[s]
    {
      SignalsOfCount(a, t, s);
      SignalsOfCount(b, t, s);
    }
  }

  ghost predicate AllOn(r: seq<InterestSignal>, t: TaskId) {
    forall k :: 0 <= k < |r| ==> r[k].originTask == t
  }

  lemma {:induction false} SignalsOfCarryTask(r: seq<InterestSignal>, t: TaskId)
    ensures AllOn(SignalsOf(r, t), t)
  {
    if r != [] {
      SignalsOfCarryTask(r[..|r| - 1], t);
    }
  }

  lemma {:induction false} InsertsAlike(x: InterestSignal, r: seq<InterestSignal>, t: TaskId)
    requires x.originTask == t && AllOn(r, t)
    ensures Insert(x, r, KindThenWeight) == Insert(x, r, SignalLe)
    ensures AllOn(Insert(x, r, SignalLe), t)
  {
    assert forall a: SignalKind, b: SignalKind :: KindIndex(a) == KindIndex(b) ==> a == b;
    if r != [] {
      InsertsAlike(x, r[1..], t);
    }
  }

  lemma {:induction false} SortsAlike(r: seq<InterestSignal>, t: TaskId)
    requires AllOn(r, t)
    ensures SortBy(r, KindThenWeight) == SortBy(r, SignalLe)
    ensures AllOn(SortBy(r, SignalLe), t)
  {
    if r != [] {
      SortsAlike(r[1..], t);
      InsertsAlike(r[0], SortBy(r[1..], SignalLe), t);
    }
  }

  method Route(task: TaskId, signals: seq<InterestSignal>, recipient: string, score: CalibrationScore)
    returns (r: Result<RoutedProblem, RoutingError>)
    ensures r == if SignalsOf(signals, task) == [] then Err(NoSignals(task))
                 else Ok(RoutedProblem(task, SortBy(SignalsOf(signals, task), KindThenWeight), recipient, Channel(score)))
  {
    var forTask := [];
    for i := 0 to |signals|
      invariant forTask == SignalsOf(signals[..i], task)
    {
      assert signals[..i + 1][..i] == signals[..i];
      if signals[i].originTask == task {
        forTask := forTask + [signals[i]];
      }
    }
    assert signals[..|signals|] == signals;
    if forTask == [] {
      return Err(NoSignals(task));
    }
    return Ok(RoutedProblem(task, SortBy(forTask, KindThenWeight), recipient, Channel(score)));
  }

  /** What routing returns: all the task's signals and no others, by kind and then by
      weight, for this recipient, in the channel of the score. */
  lemma RoutedIs(task: TaskId, signals: seq<InterestSignal>, score: CalibrationScore, s: InterestSignal)
    ensures var sorted := SortBy(SignalsOf(signals, task), KindThenWeight);
            && multiset(sorted)[s] == (if s.originTask == task then multiset(signals)[s] else 0)
            && forall i, j :: 0 <= i < j < |sorted| ==>
                 KindIndex(sorted[i].kind) < KindIndex(sorted[j].kind)
                 || (sorted[i].kind == sorted[j].kind && sorted[i].weight <= sorted[j].weight)
    ensures Channel(score) == if score < 0.34 then Guided else if score < 0.67 then Standard else Stretch
    ensures KindIndex(RetryFailureCluster) < KindIndex(NoveltyVsBaseline) < KindIndex(CrossModuleAnomaly)
            < KindIndex(ContractBoundaryAmbiguity)
  {
    SignalsOfCount(signals, task, s);
    assert TotalOrder(KindThenWeight);
    SortByIsSorted(SignalsOf(signals, task), KindThenWeight);
  }
}
