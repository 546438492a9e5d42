/** Overlapping `audit` calls. A call links its entry under the `last_hash` lock and,
    after releasing it, writes the file line and pushes to the log, each under a lock
    of its own: three steps that other calls may fall between. */
module AuditThreads {
  import opened Types
  import opened AuditChain

  // Where a thread is in its call of `audit`.
  datatype Phase = Idle | Linked(entry: SecurityDecision) | Written(entry: SecurityDecision)

  // `order` lists the entries in the order the `last_hash` lock was taken.
  datatype Threads = Threads(
    lastHash: string, phases: seq<Phase>, log: seq<SecurityDecision>, file: seq<SecurityDecision>,
    order: seq<SecurityDecision>)

  datatype Action = LinkStep(t: nat, ev: Event) | WriteStep(t: nat) | PushStep(t: nat)

  /** A step of one thread; a thread not at that point of its call does nothing. */
  function Do(link: Link, s: Threads, a: Action): Threads {
    if a.t >= |s.phases| then s
    else
      match (a, s.phases[a.t])
      case (LinkStep(t, ev), Idle) =>
        var entry := SecurityDecision(ev.kind, ev.detail, ev.at, s.lastHash);
        s.(lastHash := link(entry), phases := s.phases[t := Linked(entry)], order := s.order + [entry])
      case (WriteStep(t), Linked(e)) => s.(phases := s.phases[t := Written(e)], file := s.file + [e])
      case (PushStep(t), Written(e)) => s.(phases := s.phases[t := Idle], log := s.log + [e])
      case _ => s
  }

  function Interleaved(link: Link, s: Threads, acts: seq<Action>): Threads {
    if acts == [] then s else Do(link, Interleaved(link, s, acts[..|acts| - 1]), acts[|acts| - 1])
  }

  /** `n` threads on a module holding the verified log `log`. */
  function Start(link: Link, log: seq<SecurityDecision>, n: nat): Threads {
    Threads(Head(link, log), seq(n, _ => Idle), log, log, log)
  }

  // The two places an entry ends up in, filled by steps of their own.
  datatype Store = Log | File

  function StoreOf(s: Threads, w: Store): seq<SecurityDecision> {
    if w.Log? then s.log else s.file
  }

  /** A thread in phase `p` has linked entry `e` but not yet stored it in `w`. */
  predicate Owes(p: Phase, e: SecurityDecision, w: Store) {
    (p.Linked? || (p.Written? && w.Log?)) && p.entry == e
  }

  /** How many threads owe `e` to `w`. */
  ghost function Pending(ps: seq<Phase>, e: SecurityDecision, w: Store): nat {
    if ps == [] then 0 else Pending(ps[1..], e, w) + if Owes(ps[0], e, w) then 1 else 0
  }

  lemma {:induction false} PendingUpdate(ps: seq<Phase>, t: nat, p: Phase, e: SecurityDecision, w: Store)
    requires t < |ps|
    ensures Pending(ps[t := p], e, w) + (if Owes(ps[t], e, w) then 1 else 0)
            == Pending(ps, e, w) + if Owes(p, e, w) then 1 else 0
  {
    if t == 0 {
      assert ps[0 := p][1..] == ps[1..];
    } else {
      assert ps[t := p][1..] == ps[1..][t - 1 := p];
      PendingUpdate(ps[1..], t - 1, p, e, w);
    }
  }

  ghost predicate AllIdle(s: Threads) {
    forall i :: 0 <= i < |s.phases| ==> s.phases[i].Idle?
  }

  lemma {:induction false} NothingPendingWhenIdle(ps: seq<Phase>, e: SecurityDecision, w: Store)
    requires forall i :: 0 <= i < |ps| ==> ps[i].Idle?
    ensures Pending(ps, e, w) == 0
  {
    if ps != [] {
      NothingPendingWhenIdle(ps[1..], e, w);
    }
  }

  /** Every linked entry is in `w`, or owed to it, as often as it was linked. */
  ghost predicate Balanced(s: Threads, w: Store, e: SecurityDecision) {
    multiset(StoreOf(s, w))[e] + Pending(s.phases, e, w) == multiset(s.order)[e]
  }

  /** The linked entries form one unforked chain ending at `lastHash`; log and file
      with what is owed to them are permutations of it. */
  ghost predicate ThreadsInv(link: Link, s: Threads) {
    && Chained(link, s.order) && s.lastHash == Head(link, s.order)
    && forall w, e :: Balanced(s, w, e)
  }

  lemma MultisetSnoc(es: seq<SecurityDecision>, x: SecurityDecision, e: SecurityDecision)
    ensures multiset(es + [x])[e] == multiset(es)[e] + if x == e then 1 else 0
  {}

  lemma LinkKeepsBalance(link: Link, s: Threads, t: nat, ev: Event, w: Store, e: SecurityDecision)
    requires Balanced(s, w, e) && t < |s.phases| && s.phases[t].Idle?
    ensures Balanced(Do(link, s, LinkStep(t, ev)), w, e)
  {
    var entry := SecurityDecision(ev.kind, ev.detail, ev.at, s.lastHash);
    PendingUpdate(s.phases, t, Linked(entry), e, w);
    MultisetSnoc(s.order, entry, e);
  }

  lemma WriteKeepsBalance(link: Link, s: Threads, t: nat, w: Store, e: SecurityDecision)
    requires Balanced(s, w, e) && t < |s.phases| && s.phases[t].Linked?
    ensures Balanced(Do(link, s, WriteStep(t)), w, e)
  {
    PendingUpdate(s.phases, t, Written(s.phases[t].entry), e, w);
    MultisetSnoc(s.file, s.phases[t].entry, e);
  }

  lemma PushKeepsBalance(link: Link, s: Threads, t: nat, w: Store, e: SecurityDecision)
    requires Balanced(s, w, e) && t < |s.phases| && s.phases[t].Written?
    ensures Balanced(Do(link, s, PushStep(t)), w, e)
  {
    PendingUpdate(s.phases, t, Idle, e, w);
    MultisetSnoc(s.log, s.phases[t].entry, e);
  }

  lemma DoKeepsBalance(link: Link, s: Threads, a: Action, w: Store, e: SecurityDecision)
    requires Balanced(s, w, e)
    ensures Balanced(Do(link, s, a), w, e)
  {
    if a.t < |s.phases| {
      match (a, s.phases[a.t])
      case (LinkStep(t, ev), Idle) => LinkKeepsBalance(link, s, t, ev, w, e);
      case (WriteStep(t), Linked(_)) => WriteKeepsBalance(link, s, t, w, e);
      case (PushStep(t), Written(_)) => PushKeepsBalance(link, s, t, w, e);
      case _ =>
    }
  }

  lemma DoKeepsInv(link: Link, s: Threads, a: Action)
    requires ThreadsInv(link, s)
    ensures ThreadsInv(link, Do(link, s, a))
  {
    var r := Do(link, s, a);
    forall w, e
      ensures Balanced(r, w, e)
    {
      DoKeepsBalance(link, s, a, w, e);
    }
    if |r.order| > |s.order| {
      ChainedAppend(link, s.order, r.order[|s.order|]);
    }
  }

  /** The events of the calls begun, in the order they took the lock. */
  function EventsBegun(link: Link, s: Threads, acts: seq<Action>): seq<Event> {
    if acts == [] then []
    else
      var a := acts[|acts| - 1];
      var before := Interleaved(link, s, acts[..|acts| - 1]);
      EventsBegun(link, s, acts[..|acts| - 1])
      + if a.LinkStep? && a.t < |before.phases| && before.phases[a.t].Idle? then [a.ev] else []
  }

  /** In every interleaving the linked entries say what their calls' events say. */
  lemma {:induction false} EntriesTellEvents(link: Link, log: seq<SecurityDecision>, n: nat, acts: seq<Action>)
    ensures var s := Interleaved(link, Start(link, log, n), acts);
            log <= s.order && Tells(s.order[|log|..], EventsBegun(link, Start(link, log, n), acts))
  {
    if acts != [] {
      var init, a := acts[..|acts| - 1], acts[|acts| - 1];
      EntriesTellEvents(link, log, n, init);
      var b, s := Interleaved(link, Start(link, log, n), init), Interleaved(link, Start(link, log, n), acts);
      if |s.order| > |b.order| {
        assert s.order[|log|..] == b.order[|log|..] + [s.order[|b.order|]];
      } else {
        assert s.order == b.order;
        assert EventsBegun(link, Start(link, log, n), acts) == EventsBegun(link, Start(link, log, n), init);
      }
    }
  }

  /** In every interleaving of the steps of any number of threads. */
  lemma {:induction false} EveryInterleavingKeepsOneChain(link: Link, log: seq<SecurityDecision>, n: nat, acts: seq<Action>)
    requires Chained(link, log)
    ensures ThreadsInv(link, Interleaved(link, Start(link, log, n), acts))
  {
    if acts == [] {
      forall w, e
        ensures Balanced(Start(link, log, n), w, e)
      {
        NothingPendingWhenIdle(Start(link, log, n).phases, e, w);
      }
    } else {
      EveryInterleavingKeepsOneChain(link, log, n, acts[..|acts| - 1]);
      DoKeepsInv(link, Interleaved(link, Start(link, log, n), acts[..|acts| - 1]), acts[|acts| - 1]);
    }
  }

  /** `verify_chain` accepts the log, and would accept the file's entries, exactly if
      they are a prefix of the lock order. With no call in progress that means: exactly
      if log, or file, is in lock order. */
  lemma VerifiesIffInLockOrder(link: Link, log: seq<SecurityDecision>, n: nat, acts: seq<Action>)
    requires Chained(link, log)
    requires Sound(link, Entries(Interleaved(link, Start(link, log, n), acts).order))
    ensures var s := Interleaved(link, Start(link, log, n), acts);
            && (Chained(link, s.log) <==> s.log <= s.order)
            && (Chained(link, s.file) <==> s.file <= s.order)
            && (AllIdle(s) ==>
                  (Chained(link, s.log) <==> s.log == s.order) && (Chained(link, s.file) <==> s.file == s.order))
  {
    var s := Interleaved(link, Start(link, log, n), acts);
    EveryInterleavingKeepsOneChain(link, log, n, acts);
    StoreVerifiesIffPrefix(link, s, Log);
    StoreVerifiesIffPrefix(link, s, File);
    if AllIdle(s) {
      StoresAreComplete(s, Log);
      StoresAreComplete(s, File);
    }
  }

  lemma StoreVerifiesIffPrefix(link: Link, s: Threads, w: Store)
    requires ThreadsInv(link, s) && Sound(link, Entries(s.order))
    ensures Chained(link, StoreOf(s, w)) <==> StoreOf(s, w) <= s.order
  {
    forall e | e in StoreOf(s, w)
      ensures e in s.order
    {
      assert Balanced(s, w, e);
      assert e in multiset(StoreOf(s, w)) && e in multiset(s.order);
    }
    VerifiesIffPrefix(link, s.order, StoreOf(s, w));
  }

  lemma StoresAreComplete(s: Threads, w: Store)
    requires AllIdle(s) && forall e :: Balanced(s, w, e)
    ensures |StoreOf(s, w)| == |s.order|
  {
    forall e
      ensures multiset(StoreOf(s, w))[e] == multiset(s.order)[e]
    {
      NothingPendingWhenIdle(s.phases, e, w);
      assert Balanced(s, w, e);
    }
    assert multiset(StoreOf(s, w)) == multiset(s.order);
    assert |multiset(StoreOf(s, w))| == |multiset(s.order)|;
  }

  /** One push keeps a verifying log verifying exactly if the pushing thread was the
      next one to have taken the lock; a log that fails never verifies again. */
  lemma PushKeepsLogVerifying(link: Link, s: Threads, t: nat)
    requires ThreadsInv(link, s) && Sound(link, Entries(s.order))
    requires t < |s.phases| && s.phases[t].Written?
    ensures Chained(link, Do(link, s, PushStep(t)).log)
            <==> Chained(link, s.log) && |s.log| < |s.order| && s.phases[t].entry == s.order[|s.log|]
  {
    var r, e := Do(link, s, PushStep(t)), s.phases[t].entry;
    DoKeepsInv(link, s, PushStep(t));
    StoreVerifiesIffPrefix(link, s, Log);
    StoreVerifiesIffPrefix(link, r, Log);
    PrefixOfSnoc(s.log, e, s.order);
  }

  lemma PrefixOfSnoc(a: seq<SecurityDecision>, e: SecurityDecision, b: seq<SecurityDecision>)
    ensures a + [e] <= b <==> a <= b && |a| < |b| && e == b[|a|]
  {
    if a + [e] <= b {
      assert (a + [e])[|a|] == e && (a + [e])[..|a|] == a;
    }
  }

  /** The promise "a run of `audit` calls verifies" fails for two overlapping calls,
      whatever the link: the one that links second pushes first. */
  lemma OverlapBreaksTheLog(link: Link, first: Event, second: Event)
    requires link(SecurityDecision(first.kind, first.detail, first.at, "")) != ""
    ensures exists acts :: !Chained(link, Interleaved(link, Start(link, [], 2), acts).log)
  {
    var s0 := Start(link, [], 2);
    var a1 := [LinkStep(0, first)];
    var a2 := a1 + [LinkStep(1, second)];
    var a3 := a2 + [WriteStep(1)];
    var a4 := a3 + [PushStep(1)];
    assert a1[..0] == [] && a2[..1] == a1 && a3[..2] == a2 && a4[..3] == a3;
    assert Interleaved(link, s0, []) == s0;
    var s1, s2, s3, s4 := Interleaved(link, s0, a1), Interleaved(link, s0, a2), Interleaved(link, s0, a3), Interleaved(link, s0, a4);
    var e := SecurityDecision(second.kind, second.detail, second.at, s1.lastHash);
    assert s2.phases[1] == Linked(e);
    assert s3.phases[1] == Written(e);
    assert s4.log == [e];
    assert !LinkHolds(link, s4.log, 0);
  }

  // ---- The next start ----

  lemma {:induction false} ParsedWithLines(earlier: seq<Line>, es: seq<SecurityDecision>)
    requires Parsed(earlier).Some?
    ensures Parsed(earlier + LinesOf(es)) == Some(Parsed(earlier).value + es)
  {
    if es == [] {
      assert earlier + LinesOf(es) == earlier && Parsed(earlier).value + es == Parsed(earlier).value;
    } else {
      var lines := earlier + LinesOf(es);
      assert lines[..|lines| - 1] == earlier + LinesOf(es[..|es| - 1]);
      ParsedWithLines(earlier, es[..|es| - 1]);
      assert Parsed(earlier).value + es == Parsed(earlier).value + es[..|es| - 1] + [es[|es| - 1]];
    }
  }

  lemma {:induction false} FileGrows(link: Link, log: seq<SecurityDecision>, n: nat, acts: seq<Action>)
    ensures log <= Interleaved(link, Start(link, log, n), acts).file
  {
    if acts != [] {
      FileGrows(link, log, n, acts[..|acts| - 1]);
    }
  }

  /** The lines on disk, of which the module found `earlier`, holding `log`, at its start. */
  ghost function LinesOnDisk(earlier: seq<Line>, log: seq<SecurityDecision>, s: Threads): seq<Line> {
    if |log| <= |s.file| then earlier + LinesOf(s.file[|log|..]) else earlier
  }

  lemma StateReloadsIff(link: Link, earlier: seq<Line>, log: seq<SecurityDecision>, s: Threads)
    requires Parsed(earlier) == Some(log) && log <= s.file && ThreadsInv(link, s) && Sound(link, Entries(s.order))
    ensures var next := Loaded(link, FRESH, LinesOnDisk(earlier, log, s));
            && (next.Some? <==> s.file <= s.order)
            && (next.Some? ==> next.value.log == s.file && next.value.lastHash == Head(link, s.file))
  {
    LoadedIffChained(link, earlier, s.file[|log|..]);
    assert log + s.file[|log|..] == s.file;
    StoreVerifiesIffPrefix(link, s, File);
  }

  lemma IdleFileIsComplete(link: Link, s: Threads)
    requires ThreadsInv(link, s) && AllIdle(s) && s.file <= s.order
    ensures s.file == s.order && s.lastHash == Head(link, s.file)
  {
    StoresAreComplete(s, File);
  }

  /** The next start accepts the file, in every interleaving and at every step, exactly
      if it is a prefix of the lock order; and it then restores those entries. */
  lemma ReloadAcceptsIff(link: Link, earlier: seq<Line>, log: seq<SecurityDecision>, n: nat, acts: seq<Action>)
    requires Parsed(earlier) == Some(log) && Loaded(link, FRESH, earlier).Some?
    requires Sound(link, Entries(Interleaved(link, Start(link, log, n), acts).order))
    ensures var s := Interleaved(link, Start(link, log, n), acts);
            var next := Loaded(link, FRESH, LinesOnDisk(earlier, log, s));
            && (next.Some? <==> s.file <= s.order)
            && (next.Some? ==> next.value.log == s.file)
            && (next.Some? && AllIdle(s) ==> next.value.log == s.order && next.value.lastHash == s.lastHash)
  {
    assert [] + log == log;
    FileGrows(link, log, n, acts);
    EveryInterleavingKeepsOneChain(link, log, n, acts);
    var s := Interleaved(link, Start(link, log, n), acts);
    StateReloadsIff(link, earlier, log, s);
    if AllIdle(s) && s.file <= s.order {
      IdleFileIsComplete(link, s);
    }
  }

  /** A file of `earlier` lines and further entries loads exactly if they are chained. */
  lemma LoadedIffChained(link: Link, earlier: seq<Line>, es: seq<SecurityDecision>)
    requires Parsed(earlier).Some?
    ensures var all := Parsed(earlier).value + es;
            var r := Loaded(link, FRESH, earlier + LinesOf(es));
            && (r.Some? <==> Chained(link, all))
            && (r.Some? ==> r.value.log == all && r.value.lastHash == Head(link, all))
  {
    ParsedWithLines(earlier, es);
    var all := Parsed(earlier).value + es;
    assert [] + all == all;
  }

  /** The documentation has the chain verify across restarts. After two overlapping
      calls, both finished, the next start may refuse the file: the call that linked
      second wrote first. */
  lemma OverlapSpoilsTheFile(link: Link, first: Event, second: Event)
    requires link(SecurityDecision(first.kind, first.detail, first.at, "")) != ""
    ensures exists acts :: var s := Interleaved(link, Start(link, [], 2), acts);
                           AllIdle(s) && Loaded(link, FRESH, LinesOnDisk([], [], s)).None?
  {
    var acts := SwappedRun(link, first, second);
    var s := Interleaved(link, Start(link, [], 2), acts);
    SwappedIsRefused(link, s.file[1], s.file[0], s);
  }

  /** Both calls link, the second writes before the first, and both finish. */
  lemma SwappedRun(link: Link, first: Event, second: Event) returns (acts: seq<Action>)
    ensures var d := SecurityDecision(first.kind, first.detail, first.at, "");
            var e := SecurityDecision(second.kind, second.detail, second.at, link(d));
            var s := Interleaved(link, Start(link, [], 2), acts);
            s.phases == [Idle, Idle] && s.file == [e, d]
  {
    var s0 := Start(link, [], 2);
    var a2 := LinkBoth(link, first, second);
    var s2 := Interleaved(link, s0, a2);
    var a4 := a2 + [WriteStep(1)] + [WriteStep(0)];
    Act(link, s0, a2, WriteStep(1));
    Act(link, s0, a2 + [WriteStep(1)], WriteStep(0));
    Act(link, s0, a4, PushStep(0));
    Act(link, s0, a4 + [PushStep(0)], PushStep(1));
    WriteSwapped(link, s2, s2.phases[0].entry, s2.phases[1].entry);
    acts := a4 + [PushStep(0)] + [PushStep(1)];
  }

  lemma SwappedIsRefused(link: Link, d: SecurityDecision, e: SecurityDecision, s: Threads)
    requires s.file == [e, d] && e.prevHash != ""
    ensures Loaded(link, FRESH, LinesOnDisk([], [], s)).None?
  {
    LoadedIffChained(link, [], [e, d]);
    assert s.file[0..] == [e, d] && Parsed([]).value + [e, d] == [e, d];
    assert !LinkHolds(link, [e, d], 0);
  }

  lemma LinkBoth(link: Link, first: Event, second: Event) returns (acts: seq<Action>)
    ensures var d := SecurityDecision(first.kind, first.detail, first.at, "");
            var e := SecurityDecision(second.kind, second.detail, second.at, link(d));
            Interleaved(link, Start(link, [], 2), acts) == Threads(link(e), [Linked(d), Linked(e)], [], [], [d, e])
  {
    var d := SecurityDecision(first.kind, first.detail, first.at, "");
    var s0 := Start(link, [], 2);
    assert s0 == Threads("", [Idle, Idle], [], [], []);
    Act(link, s0, [], LinkStep(0, first));
    assert Do(link, s0, LinkStep(0, first)) == Threads(link(d), [Linked(d), Idle], [], [], [d]);
    Act(link, s0, [] + [LinkStep(0, first)], LinkStep(1, second));
    acts := [] + [LinkStep(0, first)] + [LinkStep(1, second)];
  }

  lemma WriteSwapped(link: Link, s: Threads, d: SecurityDecision, e: SecurityDecision)
    requires s.phases == [Linked(d), Linked(e)] && s.file == [] && s.log == []
    ensures var w := Do(link, Do(link, s, WriteStep(1)), WriteStep(0));
            var r := Do(link, Do(link, w, PushStep(0)), PushStep(1));
            r.phases == [Idle, Idle] && r.file == [e, d]
  {
    var u := Do(link, s, WriteStep(1));
    assert u.phases == [Linked(d), Written(e)] && u.file == [e];
    var w := Do(link, u, WriteStep(0));
    assert w.phases == [Written(d), Written(e)] && w.file == [e, d];
    var v := Do(link, w, PushStep(0));
    assert v.phases == [Idle, Written(e)] && v.file == [e, d];
  }

  lemma Act(link: Link, s: Threads, acts: seq<Action>, a: Action)
    ensures Interleaved(link, s, acts + [a]) == Do(link, Interleaved(link, s, acts), a)
  {
    assert (acts + [a])[..|acts|] == acts;
  }

  // ---- Calls that do not overlap ----

  /** Every LinkStep is taken when no other call is in progress. */
  ghost predicate Serial(link: Link, s: Threads, acts: seq<Action>) {
    forall k :: 0 <= k < |acts| && acts[k].LinkStep? ==> AllIdle(Interleaved(link, s, acts[..k]))
  }

  /** At most one thread is in a call, and log and file lag by its entry at most. */
  ghost predicate OneCall(s: Threads, t: nat) {
    && (forall i :: 0 <= i < |s.phases| && i != t ==> s.phases[i].Idle?)
    && var p := if t < |s.phases| then s.phases[t] else Idle;
       && s.order == s.log + (if p.Idle? then [] else [p.entry])
       && s.order == s.file + (if p.Linked? then [p.entry] else [])
  }

  lemma {:induction false} SerialKeepsOneCall(link: Link, log: seq<SecurityDecision>, n: nat, acts: seq<Action>)
      returns (t: nat)
    requires Serial(link, Start(link, log, n), acts)
    ensures OneCall(Interleaved(link, Start(link, log, n), acts), t)
  {
    t := 0;
    if acts != [] {
      var init, a := acts[..|acts| - 1], acts[|acts| - 1];
      forall k | 0 <= k < |init| && init[k].LinkStep?
        ensures AllIdle(Interleaved(link, Start(link, log, n), init[..k]))
      {
        assert acts[k] == init[k] && acts[..k] == init[..k];
      }
      t := SerialKeepsOneCall(link, log, n, init);
      var s := Interleaved(link, Start(link, log, n), init);
      if a.LinkStep? {
        assert AllIdle(s);
        t := a.t;
      }
    }
  }

  /** Without overlap the log verifies after every step. */
  lemma SerialCallsVerify(link: Link, log: seq<SecurityDecision>, n: nat, acts: seq<Action>)
    requires Chained(link, log) && Serial(link, Start(link, log, n), acts)
    ensures Chained(link, Interleaved(link, Start(link, log, n), acts).log)
    ensures Chained(link, Interleaved(link, Start(link, log, n), acts).file)
  {
    var s := Interleaved(link, Start(link, log, n), acts);
    EveryInterleavingKeepsOneChain(link, log, n, acts);
    var t := SerialKeepsOneCall(link, log, n, acts);
    ChainedPrefix(link, s.order, |s.log|);
    ChainedPrefix(link, s.order, |s.file|);
    assert s.order[..|s.log|] == s.log && s.order[..|s.file|] == s.file;
  }
}
