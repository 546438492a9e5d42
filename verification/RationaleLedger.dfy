/** crates/plugin-rationale-ledger/src/lib.rs: an append-only table of decisions
    in which a correction supersedes an earlier record of its task. */
module RationaleLedger {
  import opened Types
  import opened Sorting

  type RationaleId = TaskId

  datatype NewRationale = NewRationale(
    task: TaskId, author: ActorId, title: string, context: string, decision: string, consequences: string,
    supersedes: Option<RationaleId>)

  datatype RationaleRecord = RationaleRecord(id: RationaleId, content: NewRationale, recordedAt: Timestamp) {
    function Task(): TaskId { content.task }
    function Supersedes(): Option<RationaleId> { content.supersedes }
  }

  datatype LedgerError = Storage(message: string) | NotFound(id: RationaleId)

  // ---- The table ----

  function Find(rs: seq<RationaleRecord>, id: RationaleId): Option<RationaleRecord> {
    if rs == [] then None
    else if rs[0].id == id then Some(rs[0])
    else Find(rs[1..], id)
  }

  /** Why a record is refused: the supersede target is looked up first, then
      the primary key. */
  function Refusal(rs: seq<RationaleRecord>, id: RationaleId, content: NewRationale): Option<LedgerError> {
    if content.supersedes.Some? && Find(rs, content.supersedes.value).None? then Some(NotFound(content.supersedes.value))
    else if content.supersedes.Some? && Find(rs, content.supersedes.value).value.Task() != content.task then
      Some(Storage("supersede target belongs to a different task"))
    else if Find(rs, id).Some? then Some(Storage("insert failed"))
    else None
  }

  class SqliteRationaleLedger {
    var records: seq<RationaleRecord>

    constructor ()
      ensures records == []
    {
      records := [];
    }

    /** `id` is the UUID drawn for the record and `now` the clock. */
    method Append(id: RationaleId, content: NewRationale, now: Timestamp) returns (r: Result<RationaleRecord, LedgerError>)
      modifies this
      ensures match Refusal(old(records), id, content)
              case Some(e) => r == Err(e) && records == old(records)
              case None => r == Ok(RationaleRecord(id, content, now)) && records == old(records) + [r.value]
    {
      var record := RationaleRecord(id, content, now);
      if record.Supersedes().Some? {
        var target := record.Supersedes().value;
        match Find(records, target)
        case None => return Err(NotFound(target));
        case Some(row) =>
          if row.Task() != record.Task() {
            return Err(Storage("supersede target belongs to a different task"));
          }
      }
      if Find(records, id).Some? {
        return Err(Storage("insert failed"));
      }
      records := records + [record];
      return Ok(record);
    }
  }

  // ---- Reading ----

  function Where(rs: seq<RationaleRecord>, keep: RationaleRecord -> bool): seq<RationaleRecord> {
    if rs == [] then []
    else Where(rs[..|rs| - 1], keep) + if keep(rs[|rs| - 1]) then [rs[|rs| - 1]] else []
  }

  predicate Older(a: RationaleRecord, b: RationaleRecord) {
    a.recordedAt < b.recordedAt || (a.recordedAt == b.recordedAt && a.id <= b.id)
  }

  predicate SupersededBy(r: RationaleRecord, s: RationaleRecord) {
    s.Supersedes() == Some(r.id) && s.Task() == r.Task()
  }

  predicate IsCurrent(rs: seq<RationaleRecord>, r: RationaleRecord) {
    forall s :: s in rs ==> !SupersededBy(r, s)
  }

  function OnTask(task: TaskId): RationaleRecord -> bool {
    (r: RationaleRecord) => r.Task() == task
  }

  function CurrentOn(rs: seq<RationaleRecord>, task: TaskId): RationaleRecord -> bool {
    (r: RationaleRecord) => r.Task() == task && IsCurrent(rs, r)
  }

  function ForTask(rs: seq<RationaleRecord>, task: TaskId): seq<RationaleRecord> {
    SortBy(Where(rs, OnTask(task)), Older)
  }

  function CurrentForTask(rs: seq<RationaleRecord>, task: TaskId): seq<RationaleRecord> {
    SortBy(Where(rs, CurrentOn(rs, task)), Older)
  }

  lemma {:induction false} WhereMeaning(rs: seq<RationaleRecord>, keep: RationaleRecord -> bool, r: RationaleRecord)
    ensures r in Where(rs, keep) <==> r in rs && keep(r)
  {
    if rs != [] {
      WhereMeaning(rs[..|rs| - 1], keep, r);
      assert rs == rs[..|rs| - 1] + [rs[|rs| - 1]];
    }
  }

  /** Both readings list, oldest first, exactly the records they name. */
  lemma ReadingsMeaning(rs: seq<RationaleRecord>, task: TaskId, r: RationaleRecord)
    ensures r in ForTask(rs, task) <==> r in rs && r.Task() == task
    ensures r in CurrentForTask(rs, task) <==> r in rs && r.Task() == task && IsCurrent(rs, r)
    ensures SortedBy(ForTask(rs, task), Older) && SortedBy(CurrentForTask(rs, task), Older)
  {
    WhereMeaning(rs, OnTask(task), r);
    WhereMeaning(rs, CurrentOn(rs, task), r);
    assert r in ForTask(rs, task) <==> r in multiset(ForTask(rs, task));
    assert r in CurrentForTask(rs, task) <==> r in multiset(CurrentForTask(rs, task));
    SortByIsSorted(Where(rs, OnTask(task)), Older);
    SortByIsSorted(Where(rs, CurrentOn(rs, task)), Older);
  }

  // ---- What every run keeps ----

  datatype AppendCall = AppendCall(id: RationaleId, content: NewRationale, now: Timestamp)

  function Run(calls: seq<AppendCall>): seq<RationaleRecord> {
    if calls == [] then []
    else
      var before, c := Run(calls[..|calls| - 1]), calls[|calls| - 1];
      if Refusal(before, c.id, c.content).Some? then before else before + [RationaleRecord(c.id, c.content, c.now)]
  }

  /** `rs[i]` is a correction of `rs[j]`. */
  predicate Corrects(rs: seq<RationaleRecord>, i: int, j: int)
    requires 0 <= i < |rs| && 0 <= j < |rs|
  {
    SupersededBy(rs[j], rs[i])
  }

  ghost predicate UniqueIds(rs: seq<RationaleRecord>) {
    forall i, j :: 0 <= i < j < |rs| ==> rs[i].id != rs[j].id
  }

  ghost predicate PointsBack(rs: seq<RationaleRecord>) {
    forall i :: 0 <= i < |rs| && rs[i].Supersedes().Some? ==> exists j :: 0 <= j < i && Corrects(rs, i, j)
  }

  lemma {:induction false} FindMeaning(rs: seq<RationaleRecord>, id: RationaleId)
    ensures Find(rs, id).None? ==> forall i :: 0 <= i < |rs| ==> rs[i].id != id
    ensures Find(rs, id).Some? ==>
              exists i :: 0 <= i < |rs| && rs[i] == Find(rs, id).value && rs[i].id == id
  {
    if rs != [] && rs[0].id != id {
      FindMeaning(rs[1..], id);
      if Find(rs, id).Some? {
        var i :| 0 <= i < |rs[1..]| && rs[1..][i] == Find(rs[1..], id).value && rs[1..][i].id == id;
        assert rs[i + 1] == rs[1..][i];
      }
    }
  }

  /** On every run ids are unique and each correction supersedes an earlier
      record of its own task. */
  lemma {:induction false} EveryRunPointsBack(calls: seq<AppendCall>)
    ensures UniqueIds(Run(calls)) && PointsBack(Run(calls))
  {
    if calls != [] {
      var before, c := Run(calls[..|calls| - 1]), calls[|calls| - 1];
      EveryRunPointsBack(calls[..|calls| - 1]);
      if Refusal(before, c.id, c.content).None? {
        AppendPointsBack(before, RationaleRecord(c.id, c.content, c.now));
      }
    }
  }

  lemma AppendPointsBack(rs: seq<RationaleRecord>, r: RationaleRecord)
    requires UniqueIds(rs) && PointsBack(rs) && Refusal(rs, r.id, r.content).None?
    ensures UniqueIds(rs + [r]) && PointsBack(rs + [r])
  {
    var now := rs + [r];
    FindMeaning(rs, r.id);
    forall i | 0 <= i < |now| && now[i].Supersedes().Some?
      ensures exists j :: 0 <= j < i && Corrects(now, i, j)
    {
      if i < |rs| {
        var j :| 0 <= j < i && Corrects(rs, i, j);
        assert Corrects(now, i, j);
      } else {
        FindMeaning(rs, r.Supersedes().value);
        var j :| 0 <= j < |rs| && rs[j] == Find(rs, r.Supersedes().value).value && rs[j].id == r.Supersedes().value;
        assert Corrects(now, i, j);
      }
    }
  }

  lemma {:induction false} FindInLonger(rs: seq<RationaleRecord>, more: seq<RationaleRecord>, id: RationaleId)
    requires Find(rs, id).Some?
    ensures Find(rs + more, id) == Find(rs, id)
  {
    if rs[0].id != id {
      assert (rs + more)[1..] == rs[1..] + more;
      FindInLonger(rs[1..], more, id);
    }
  }

  lemma {:induction false} RunExtends(calls: seq<AppendCall>, more: seq<AppendCall>)
    ensures Run(calls) <= Run(calls + more)
  {
    if more == [] {
      assert calls + more == calls;
    } else {
      assert (calls + more)[..|calls + more| - 1] == calls + more[..|more| - 1];
      RunExtends(calls, more[..|more| - 1]);
    }
  }

  /** A record once stored is read back unchanged for ever, and once superseded
      it stays superseded. */
  lemma RecordsNeverChange(calls: seq<AppendCall>, more: seq<AppendCall>, id: RationaleId, r: RationaleRecord)
    requires Find(Run(calls), id) == Some(r)
    ensures Find(Run(calls + more), id) == Some(r)
    ensures IsCurrent(Run(calls + more), r) ==> IsCurrent(Run(calls), r)
  {
    RunExtends(calls, more);
    var was, now := Run(calls), Run(calls + more);
    assert now == was + now[|was|..];
    FindInLonger(was, now[|was|..], id);
  }

  // ---- Corrections lead to current records ----

  /** Each record on the path corrects the one before it; the last is current. */
  ghost predicate IsPathToCurrent(rs: seq<RationaleRecord>, path: seq<int>) {
    && path != [] && (forall k :: 0 <= k < |path| ==> 0 <= path[k] < |rs|)
    && (forall k :: 0 <= k < |path| - 1 ==> path[k] < path[k + 1] && Corrects(rs, path[k + 1], path[k]))
    && IsCurrent(rs, rs[path[|path| - 1]])
  }

  lemma CorrectionIsLater(rs: seq<RationaleRecord>, i: int, j: int)
    requires UniqueIds(rs) && PointsBack(rs) && 0 <= i < |rs| && 0 <= j < |rs| && Corrects(rs, i, j)
    ensures j < i
  {
    var target :| 0 <= target < i && Corrects(rs, i, target);
    assert rs[target].id == rs[j].id;
    assert target == j;
  }

  /** From any record a path of corrections reaches a current one. */
  lemma {:induction false} EveryRecordLeadsToCurrent(rs: seq<RationaleRecord>, i: nat)
    requires UniqueIds(rs) && PointsBack(rs) && i < |rs|
    ensures exists path :: IsPathToCurrent(rs, path) && path[0] == i
    decreases |rs| - i
  {
    if IsCurrent(rs, rs[i]) {
      assert IsPathToCurrent(rs, [i]);
    } else {
      var s :| s in rs && SupersededBy(rs[i], s);
      var j :| 0 <= j < |rs| && rs[j] == s;
      assert Corrects(rs, j, i);
      CorrectionIsLater(rs, j, i);
      EveryRecordLeadsToCurrent(rs, j);
      var path :| IsPathToCurrent(rs, path) && path[0] == j;
      PathStartsEarlier(rs, i, path);
      assert ([i] + path)[0] == i;
    }
  }

  lemma PathStartsEarlier(rs: seq<RationaleRecord>, i: int, path: seq<int>)
    requires IsPathToCurrent(rs, path) && 0 <= i < path[0] && Corrects(rs, path[0], i)
    ensures IsPathToCurrent(rs, [i] + path)
  {
    var longer := [i] + path;
    assert forall k :: 0 < k < |longer| ==> longer[k] == path[k - 1];
    assert longer[|longer| - 1] == path[|path| - 1];
    forall k | 0 <= k < |longer| - 1
      ensures longer[k] < longer[k + 1] && Corrects(rs, longer[k + 1], longer[k])
    {
      if k > 0 {
        assert path[k - 1] < path[k - 1 + 1] && Corrects(rs, path[k - 1 + 1], path[k - 1]);
      }
    }
  }

  /** A task with a record has a current one. */
  lemma TaskWithRecordsHasCurrent(calls: seq<AppendCall>, task: TaskId)
    ensures ForTask(Run(calls), task) != [] <==> CurrentForTask(Run(calls), task) != []
  {
    var rs := Run(calls);
    EveryRunPointsBack(calls);
    if CurrentForTask(rs, task) != [] {
      ReadingsMeaning(rs, task, CurrentForTask(rs, task)[0]);
    }
    if ForTask(rs, task) != [] {
      var r := ForTask(rs, task)[0];
      ReadingsMeaning(rs, task, r);
      var i :| 0 <= i < |rs| && rs[i] == r;
      EveryRecordLeadsToCurrent(rs, i);
      var path :| IsPathToCurrent(rs, path) && path[0] == i;
      PathStaysOnTask(rs, path, |path| - 1);
      ReadingsMeaning(rs, task, rs[path[|path| - 1]]);
    }
  }

  lemma {:induction false} PathStaysOnTask(rs: seq<RationaleRecord>, path: seq<int>, k: nat)
    requires IsPathToCurrent(rs, path) && k < |path|
    ensures rs[path[k]].Task() == rs[path[0]].Task()
  {
    if k > 0 {
      PathStaysOnTask(rs, path, k - 1);
      assert Corrects(rs, path[k - 1 + 1], path[k - 1]);
    }
  }

  // ---- Counting ----

  function IdsOf(rs: seq<RationaleRecord>): set<RationaleId> {
    set r | r in rs :: r.id
  }

  /** The distinct ids the task's corrections supersede. */
  function SupersededIds(rs: seq<RationaleRecord>, task: TaskId): set<RationaleId> {
    set r | r in rs && r.Task() == task && r.Supersedes().Some? :: r.Supersedes().value
  }

  lemma {:induction false} WhereCount(rs: seq<RationaleRecord>, keep: RationaleRecord -> bool)
    requires UniqueIds(rs)
    ensures |Where(rs, keep)| == |IdsOf(Where(rs, keep))|
  {
    if rs != [] {
      var init, last := rs[..|rs| - 1], rs[|rs| - 1];
      WhereCount(init, keep);
      if keep(last) {
        forall r | r in Where(init, keep)
          ensures r.id != last.id
        {
          WhereMeaning(init, keep, r);
          var k :| 0 <= k < |init| && init[k] == r;
          assert rs[k].id != rs[|rs| - 1].id;
        }
        IdsSnoc(Where(init, keep), last);
      } else {
        assert Where(rs, keep) == Where(init, keep);
      }
    }
  }

  lemma IdsSnoc(rs: seq<RationaleRecord>, r: RationaleRecord)
    ensures IdsOf(rs + [r]) == IdsOf(rs) + {r.id}
  {
    assert r in rs + [r];
    assert forall x :: x in rs ==> x in rs + [r];
  }

  /** The current ids of a task are its ids without the superseded ones, which
      are among them. */
  lemma CurrentIds(rs: seq<RationaleRecord>, task: TaskId)
    requires UniqueIds(rs) && PointsBack(rs)
    ensures IdsOf(Where(rs, CurrentOn(rs, task))) == IdsOf(Where(rs, OnTask(task))) - SupersededIds(rs, task)
    ensures SupersededIds(rs, task) <= IdsOf(Where(rs, OnTask(task)))
  {
    forall id
      ensures id in IdsOf(Where(rs, OnTask(task))) <==> exists r :: r in rs && r.Task() == task && r.id == id
      ensures id in IdsOf(Where(rs, CurrentOn(rs, task)))
              <==> exists r :: r in rs && r.Task() == task && r.id == id && IsCurrent(rs, r)
    {
      WhereIds(rs, OnTask(task), id);
      WhereIds(rs, CurrentOn(rs, task), id);
    }
    forall id | id in SupersededIds(rs, task)
      ensures exists r :: r in rs && r.Task() == task && r.id == id
    {
      var s :| s in rs && s.Task() == task && s.Supersedes() == Some(id);
      var i :| 0 <= i < |rs| && rs[i] == s;
      var j :| 0 <= j < i && Corrects(rs, i, j);
      assert rs[j] in rs && rs[j].Task() == task && rs[j].id == id;
    }
    forall r | r in rs && r.Task() == task
      ensures IsCurrent(rs, r) <==> r.id !in SupersededIds(rs, task)
    {}
    forall id
      ensures id in IdsOf(Where(rs, CurrentOn(rs, task)))
              <==> id in IdsOf(Where(rs, OnTask(task))) && id !in SupersededIds(rs, task)
    {
      if id in IdsOf(Where(rs, OnTask(task))) && id !in SupersededIds(rs, task) {
        var r :| r in rs && r.Task() == task && r.id == id;
        assert IsCurrent(rs, r);
      }
    }
  }

  lemma WhereIds(rs: seq<RationaleRecord>, keep: RationaleRecord -> bool, id: RationaleId)
    ensures id in IdsOf(Where(rs, keep)) <==> exists r :: r in rs && keep(r) && r.id == id
  {
    forall r
      ensures r in Where(rs, keep) <==> r in rs && keep(r)
    {
      WhereMeaning(rs, keep, r);
    }
  }

  /** On every run a task has as many current records as it has records less
      the distinct ids superseded. */
  lemma CurrentCount(calls: seq<AppendCall>, task: TaskId)
    ensures var rs := Run(calls);
            |CurrentForTask(rs, task)| == |ForTask(rs, task)| - |SupersededIds(rs, task)|
  {
    var rs := Run(calls);
    EveryRunPointsBack(calls);
    CurrentIds(rs, task);
    WhereCount(rs, OnTask(task));
    WhereCount(rs, CurrentOn(rs, task));
    assert |ForTask(rs, task)| == |multiset(ForTask(rs, task))| == |Where(rs, OnTask(task))|;
    assert |CurrentForTask(rs, task)| == |multiset(CurrentForTask(rs, task))| == |Where(rs, CurrentOn(rs, task))|;
  }

  /** An accepted record enters its task's current view in place of the record
      it supersedes; no other record's standing changes. */
  lemma AppendReplacesTarget(calls: seq<AppendCall>, r: RationaleRecord, x: RationaleRecord)
    requires Refusal(Run(calls), r.id, r.content).None?
    ensures var was := Run(calls); var now := was + [r];
            IsCurrent(now, x) && x in now <==> x == r || (x in was && IsCurrent(was, x) && r.Supersedes() != Some(x.id))
  {
    var was, now := Run(calls), Run(calls) + [r];
    EveryRunPointsBack(calls);
    AppendPointsBack(was, r);
    FindMeaning(was, r.id);
    var n := |was|;
    assert now[n] == r;
    forall s | s in now
      ensures !SupersededBy(r, s)
    {
      var i :| 0 <= i < |now| && now[i] == s;
      if Corrects(now, i, n) {
        CorrectionIsLater(now, i, n);
        assert false;
      }
    }
    if x in was && r.Supersedes() == Some(x.id) {
      var j :| 0 <= j < n && Corrects(now, n, j);
      var k :| 0 <= k < n && was[k] == x;
      assert now[k].id == now[j].id;
      assert k == j;
      assert SupersededBy(x, r);
    }
  }

  // ---- Which records are accepted ----

  ghost predicate Holds(rs: seq<RationaleRecord>, id: RationaleId) {
    exists i :: 0 <= i < |rs| && rs[i].id == id
  }

  /** On every run a record is accepted exactly if its id is unused and what it supersedes,
      if anything, is a record of its own task; a missing target is NotFound. */
  lemma AcceptedIff(calls: seq<AppendCall>, id: RationaleId, content: NewRationale)
    ensures var rs, r := Run(calls), Refusal(Run(calls), id, content);
            && (r.None? <==> !Holds(rs, id)
                             && (content.supersedes.Some? ==>
                                   exists i :: 0 <= i < |rs| && rs[i].id == content.supersedes.value
                                               && rs[i].content.task == content.task))
            && (r.Some? && r.value.NotFound?
                <==> content.supersedes.Some? && !Holds(rs, content.supersedes.value))
            && (r.Some? && r.value.NotFound? ==> r.value.id == content.supersedes.value)
  {
    var rs := Run(calls);
    EveryRunPointsBack(calls);
    FindIff(rs, id);
    if content.supersedes.Some? {
      FindIff(rs, content.supersedes.value);
    }
  }

  lemma FindIff(rs: seq<RationaleRecord>, id: RationaleId)
    requires UniqueIds(rs)
    ensures Find(rs, id).Some? <==> Holds(rs, id)
    ensures forall i :: 0 <= i < |rs| && rs[i].id == id ==> Find(rs, id) == Some(rs[i])
  {
    FindMeaning(rs, id);
  }

  /** An accepted call leaves a record of exactly its content, task, time and id, last. */
  lemma AcceptedIsStored(calls: seq<AppendCall>, c: AppendCall)
    ensures Run(calls + [c])
            == Run(calls) + if Refusal(Run(calls), c.id, c.content).None? then [RationaleRecord(c.id, c.content, c.now)] else []
  {
    assert (calls + [c])[..|calls|] == calls;
    assert Run(calls) + [] == Run(calls);
  }

  /** Readings list by time and, at the same time, by id. */
  lemma ReadingsAreOldestFirst(rs: seq<RationaleRecord>, task: TaskId, i: nat, j: nat)
    ensures i < j < |ForTask(rs, task)| ==>
              var (a, b) := (ForTask(rs, task)[i], ForTask(rs, task)[j]);
              a.recordedAt < b.recordedAt || (a.recordedAt == b.recordedAt && a.id <= b.id)
    ensures i < j < |CurrentForTask(rs, task)| ==>
              var (a, b) := (CurrentForTask(rs, task)[i], CurrentForTask(rs, task)[j]);
              a.recordedAt < b.recordedAt || (a.recordedAt == b.recordedAt && a.id <= b.id)
  {
    SortByIsSorted(Where(rs, OnTask(task)), Older);
    SortByIsSorted(Where(rs, CurrentOn(rs, task)), Older);
  }
}
