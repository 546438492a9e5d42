/** crates/core/src/security.rs: the keyed audit chain. `link` stands for the
    keyed MAC of an entry's serialisation, as lower-case hex. */
module AuditChain {
  import opened Types

  datatype DecisionKind = Grant | Denial | StampIssued | StampInvalidated

  datatype SecurityDecision = SecurityDecision(kind: DecisionKind, detail: string, at: Timestamp, prevHash: string)

  type Link = SecurityDecision -> string

  /** The prev_hash the next entry must carry. */
  function Head(link: Link, log: seq<SecurityDecision>): string {
    if log == [] then "" else link(log[|log| - 1])
  }

  /** Entry `i` carries the link of its predecessor, the first one the empty string. */
  predicate LinkHolds(link: Link, log: seq<SecurityDecision>, i: nat)
    requires i < |log|
  {
    log[i].prevHash == Head(link, log[..i])
  }

  predicate Chained(link: Link, log: seq<SecurityDecision>) {
    forall i: nat :: i < |log| ==> LinkHolds(link, log, i)
  }

  /** `verify_chain`: the index of the first broken link, if there is one. */
  method VerifyChain(link: Link, log: seq<SecurityDecision>) returns (broken: Option<nat>)
    ensures broken.None? <==> Chained(link, log)
    ensures broken.Some? ==>
              broken.value < |log| && !LinkHolds(link, log, broken.value) && Chained(link, log[..broken.value])
  {
    var expectedPrev := "";
    for i := 0 to |log|
      invariant expectedPrev == Head(link, log[..i])
      invariant forall k: nat :: k < i ==> LinkHolds(link, log, k)
    {
      if log[i].prevHash != expectedPrev {
        assert !LinkHolds(link, log, i);
        forall k: nat | k < i
          ensures LinkHolds(link, log[..i], k)
        {
          assert LinkHolds(link, log, k) && log[..i][..k] == log[..k];
        }
        return Some(i);
      }
      expectedPrev := link(log[i]);
      assert LinkHolds(link, log, i);
      assert log[..i + 1][|log[..i + 1]| - 1] == log[i];
    }
    return None;
  }

  // ---- What the link must be ----

  /** On the entries in question the link is never empty and never collides. */
  ghost predicate Sound(link: Link, entries: set<SecurityDecision>) {
    && (forall e :: e in entries ==> link(e) != "")
    && (forall e, f :: e in entries && f in entries && link(e) == link(f) ==> e == f)
  }

  ghost function Entries(log: seq<SecurityDecision>): set<SecurityDecision> {
    set e | e in log
  }

  // ---- What a verifying log is worth ----

  lemma ChainedPrefix(link: Link, log: seq<SecurityDecision>, n: nat)
    requires Chained(link, log) && n <= |log|
    ensures Chained(link, log[..n])
  {
    forall i: nat | i < n
      ensures LinkHolds(link, log[..n], i)
    {
      assert LinkHolds(link, log, i);
      assert log[..n][..i] == log[..i];
    }
  }

  /** Appending an entry keeps the chain exactly if the entry carries its head. */
  lemma ChainedAppend(link: Link, log: seq<SecurityDecision>, e: SecurityDecision)
    ensures Chained(link, log + [e]) <==> Chained(link, log) && e.prevHash == Head(link, log)
  {
    var longer := log + [e];
    assert longer[..|log|] == log;
    if Chained(link, longer) {
      ChainedPrefix(link, longer, |log|);
      assert LinkHolds(link, longer, |log|);
    }
    if Chained(link, log) && e.prevHash == Head(link, log) {
      forall i: nat | i < |longer|
        ensures LinkHolds(link, longer, i)
      {
        assert i < |log| ==> LinkHolds(link, log, i) && longer[..i] == log[..i];
      }
    }
  }

  /** The head commits to the whole history. */
  lemma {:induction false} HeadDeterminesLog(link: Link, a: seq<SecurityDecision>, b: seq<SecurityDecision>)
    requires Chained(link, a) && Chained(link, b) && Sound(link, Entries(a) + Entries(b))
    requires Head(link, a) == Head(link, b)
    ensures a == b
  {
    HeadOfNonempty(link, a);
    HeadOfNonempty(link, b);
    if a != [] && b != [] {
      var m, n := |a| - 1, |b| - 1;
      SameHeadSameLast(link, a, b);
      ChainedPrefix(link, a, m);
      ChainedPrefix(link, b, n);
      HeadDeterminesLog(link, a[..m], b[..n]);
      assert a == a[..m] + [a[m]] && b == b[..n] + [b[n]];
    }
  }

  /** Equal links come from equal entries, which carry the head of what is before them. */
  lemma SameHeadSameLast(link: Link, a: seq<SecurityDecision>, b: seq<SecurityDecision>)
    requires a != [] && b != [] && Chained(link, a) && Chained(link, b) && Sound(link, Entries(a) + Entries(b))
    requires Head(link, a) == Head(link, b)
    ensures a[|a| - 1] == b[|b| - 1]
    ensures Head(link, a[..|a| - 1]) == Head(link, b[..|b| - 1])
  {
    var m, n := |a| - 1, |b| - 1;
    assert a[m] in Entries(a) && b[n] in Entries(b);
    assert LinkHolds(link, a, m) && LinkHolds(link, b, n);
  }

  lemma HeadOfNonempty(link: Link, log: seq<SecurityDecision>)
    requires Sound(link, Entries(log))
    ensures Head(link, log) == "" <==> log == []
  {
    if log != [] {
      assert log[|log| - 1] in Entries(log);
    }
  }

  /** Two verifying logs whose last entries share a prev_hash have equal length and
      agree on all earlier entries. So changing, dropping, adding or reordering
      anything before the last entry breaks a verifying log. */
  lemma PrevHashCommitsToHistory(link: Link, a: seq<SecurityDecision>, b: seq<SecurityDecision>)
    requires a != [] && b != [] && Chained(link, a) && Chained(link, b)
    requires Sound(link, Entries(a) + Entries(b))
    requires a[|a| - 1].prevHash == b[|b| - 1].prevHash
    ensures |a| == |b| && a[..|a| - 1] == b[..|b| - 1]
  {
    var m, n := |a| - 1, |b| - 1;
    assert LinkHolds(link, a, m) && LinkHolds(link, b, n);
    ChainedPrefix(link, a, m);
    ChainedPrefix(link, b, n);
    HeadDeterminesLog(link, a[..m], b[..n]);
  }

  /** What the chain does not show: any truncation of a verifying log verifies. */
  lemma TruncationVerifies(link: Link, log: seq<SecurityDecision>, n: nat)
    requires Chained(link, log) && n <= |log|
    ensures Chained(link, log[..n])
  {
    ChainedPrefix(link, log, n);
  }

  lemma {:induction false} ChainedEntriesAreDistinct(link: Link, log: seq<SecurityDecision>, i: nat, j: nat)
    requires Chained(link, log) && Sound(link, Entries(log)) && i < j < |log|
    ensures log[i] != log[j]
  {
    assert LinkHolds(link, log, i) && LinkHolds(link, log, j);
    assert log[j - 1] in Entries(log);
    if i > 0 {
      assert log[i - 1] in Entries(log);
      ChainedEntriesAreDistinct(link, log, i - 1, j - 1);
    }
  }

  /** A log made of entries of one chain verifies exactly if it is a prefix of that
      chain, whatever got lost or reordered on the way. */
  lemma VerifiesIffPrefix(link: Link, chain: seq<SecurityDecision>, log: seq<SecurityDecision>)
    requires Chained(link, chain) && Sound(link, Entries(chain))
    requires Entries(log) <= Entries(chain)
    ensures Chained(link, log) <==> log <= chain
  {
    if log <= chain {
      ChainedPrefix(link, chain, |log|);
      assert chain[..|log|] == log;
    }
    if Chained(link, log) {
      MatchesChain(link, chain, log, |log|);
      assert log[..|log|] == log;
    }
  }

  lemma {:induction false} MatchesChain(link: Link, chain: seq<SecurityDecision>, log: seq<SecurityDecision>, n: nat)
    requires Chained(link, chain) && Sound(link, Entries(chain))
    requires Entries(log) <= Entries(chain) && Chained(link, log) && n <= |log|
    ensures log[..n] <= chain
  {
    if n > 0 {
      MatchesChain(link, chain, log, n - 1);
      var i := n - 1;
      assert log[i] in Entries(log);
      var k: nat :| k < |chain| && chain[k] == log[i];
      assert LinkHolds(link, log, i) && LinkHolds(link, chain, k);
      if k > 0 {
        assert chain[k - 1] in Entries(chain);
      }
      if i > 0 {
        assert log[i - 1] == chain[i - 1] && chain[i - 1] in Entries(chain);
        assert k > 0 && chain[k - 1] == chain[i - 1];
        if k < i {
          ChainedEntriesAreDistinct(link, chain, k - 1, i - 1);
        } else if i < k {
          ChainedEntriesAreDistinct(link, chain, i - 1, k - 1);
        }
      }
      assert k == i;
      assert log[..n] == log[..i] + [log[i]];
    }
  }

  // ---- Sequential runs and restarts ----

  datatype Line = Blank | Garbled | Record(entry: SecurityDecision)

  // The in-memory log, the head held under the lock, and the file if there is one.
  datatype Chain = Chain(log: seq<SecurityDecision>, lastHash: string, file: Option<seq<Line>>)

  datatype Event = Event(kind: DecisionKind, detail: string, at: Timestamp)

  const FRESH := Chain([], "", None)

  /** One `audit` call that no other call overlaps. */
  function Audited(link: Link, c: Chain, ev: Event): Chain {
    var entry := SecurityDecision(ev.kind, ev.detail, ev.at, c.lastHash);
    Chain(c.log + [entry], link(entry), if c.file.None? then None else Some(c.file.value + [Record(entry)]))
  }

  function AuditedAll(link: Link, c: Chain, evs: seq<Event>): Chain {
    if evs == [] then c else Audited(link, AuditedAll(link, c, evs[..|evs| - 1]), evs[|evs| - 1])
  }

  /** The entries on the file's lines; blank lines are skipped, a line that does
      not parse spoils the file. */
  function Parsed(lines: seq<Line>): Option<seq<SecurityDecision>> {
    if lines == [] then Some([])
    else
      match (Parsed(lines[..|lines| - 1]), lines[|lines| - 1])
      case (Some(es), Blank) => Some(es)
      case (Some(es), Record(e)) => Some(es + [e])
      case _ => None
  }

  /** `with_audit_file` on a module in state `c`: None is its IntegrityFailure. */
  function Loaded(link: Link, c: Chain, lines: seq<Line>): Option<Chain> {
    match Parsed(lines)
    case None => None
    case Some(es) =>
      if Chained(link, c.log + es) then
        Some(Chain(c.log + es, if es == [] then c.lastHash else Head(link, es), Some(lines)))
      else None
  }

  /** The state of a run: log, head and file tell the same story. */
  ghost predicate InStep(link: Link, c: Chain) {
    && Chained(link, c.log) && c.lastHash == Head(link, c.log)
    && (c.file.Some? ==> Parsed(c.file.value) == Some(c.log))
  }

  lemma AuditedInStep(link: Link, c: Chain, ev: Event)
    requires InStep(link, c)
    ensures InStep(link, Audited(link, c, ev))
  {
    var d := Audited(link, c, ev);
    ChainedAppend(link, c.log, d.log[|c.log|]);
    if c.file.Some? {
      assert d.file.value[..|d.file.value| - 1] == c.file.value;
    }
  }

  lemma {:induction false} AuditedAllInStep(link: Link, c: Chain, evs: seq<Event>)
    requires InStep(link, c)
    ensures InStep(link, AuditedAll(link, c, evs))
    ensures AuditedAll(link, c, evs).file.Some? <==> c.file.Some?
  {
    if evs != [] {
      AuditedAllInStep(link, c, evs[..|evs| - 1]);
      AuditedInStep(link, AuditedAll(link, c, evs[..|evs| - 1]), evs[|evs| - 1]);
    }
  }

  lemma {:induction false} AuditedAllAppend(link: Link, c: Chain, a: seq<Event>, b: seq<Event>)
    ensures AuditedAll(link, c, a + b) == AuditedAll(link, AuditedAll(link, c, a), b)
  {
    if b == [] {
      assert a + b == a;
    } else {
      assert (a + b)[..|a + b| - 1] == a + b[..|b| - 1];
      AuditedAllAppend(link, c, a, b[..|b| - 1]);
    }
  }

  /** The lines that calls write for their entries. */
  function LinesOf(es: seq<SecurityDecision>): seq<Line> {
    if es == [] then [] else LinesOf(es[..|es| - 1]) + [Record(es[|es| - 1])]
  }

  lemma {:induction false} LinesOfAt(es: seq<SecurityDecision>)
    ensures |LinesOf(es)| == |es| && forall i :: 0 <= i < |es| ==> LinesOf(es)[i] == Record(es[i])
  {
    if es != [] {
      LinesOfAt(es[..|es| - 1]);
    }
  }

  /** The entries `evs` leave behind: one each, in order, saying what the event says. */
  ghost predicate Tells(es: seq<SecurityDecision>, evs: seq<Event>) {
    |es| == |evs| && forall i :: 0 <= i < |evs| ==>
      es[i].kind == evs[i].kind && es[i].detail == evs[i].detail && es[i].at == evs[i].at
  }

  /** A run without overlap appends to the log exactly what its events tell ... */
  lemma {:induction false} RunTellsItsEvents(link: Link, c: Chain, evs: seq<Event>)
    ensures var d := AuditedAll(link, c, evs); c.log <= d.log && Tells(d.log[|c.log|..], evs)
  {
    if evs != [] {
      RunTellsItsEvents(link, c, evs[..|evs| - 1]);
      var b, d := AuditedAll(link, c, evs[..|evs| - 1]), AuditedAll(link, c, evs);
      assert d.log[|c.log|..] == b.log[|c.log|..] + [d.log[|b.log|]];
    }
  }

  /** ... and to the file, if there is one, a line for each of those entries. */
  lemma {:induction false} RunWritesItsEntries(link: Link, c: Chain, evs: seq<Event>)
    ensures var d := AuditedAll(link, c, evs);
            c.log <= d.log && d.file == if c.file.None? then None else Some(c.file.value + LinesOf(d.log[|c.log|..]))
  {
    var d := AuditedAll(link, c, evs);
    if evs == [] {
      assert c.log[|c.log|..] == [] && forall f: seq<Line> :: f + [] == f;
    } else {
      RunWritesItsEntries(link, c, evs[..|evs| - 1]);
      var b := AuditedAll(link, c, evs[..|evs| - 1]);
      var told, e := b.log[|c.log|..], d.log[|b.log|];
      assert d.log[|c.log|..] == told + [e] && (told + [e])[..|told|] == told;
      if c.file.Some? {
        assert c.file.value + LinesOf(told) + [Record(e)] == c.file.value + (LinesOf(told) + [Record(e)]);
      }
    }
  }

  /** The file's lines one by one: blank ones tell nothing, one that does not parse
      spoils the whole, the others tell their entries in order. */
  lemma {:induction false} ParsedAppend(a: seq<Line>, b: seq<Line>)
    ensures Parsed([]) == Some([]) && Parsed([Blank]) == Some([]) && Parsed([Garbled]) == None
    ensures forall e :: Parsed([Record(e)]) == Some([e])
    ensures Parsed(a + b)
            == if Parsed(a).Some? && Parsed(b).Some? then Some(Parsed(a).value + Parsed(b).value) else None
  {
    assert [Blank][..0] == [] && [Garbled][..0] == [];
    assert forall e: SecurityDecision :: [Record(e)][..0] == [] && [] + [e] == [e];
    if b == [] {
      assert a + b == a;
      assert Parsed(a).Some? ==> Parsed(a).value + [] == Parsed(a).value;
    } else {
      var init := b[..|b| - 1];
      assert (a + b)[..|a + b| - 1] == a + init;
      ParsedAppend(a, init);
      if Parsed(a).Some? && Parsed(init).Some? && b[|b| - 1].Record? {
        assert Parsed(a).value + Parsed(init).value + [b[|b| - 1].entry]
            == Parsed(a).value + (Parsed(init).value + [b[|b| - 1].entry]);
      }
    }
  }

  /** Reloading the file of any sequential run is accepted and restores the log and
      the head, so running on after a restart gives the chain of an uninterrupted
      run. `earlier` is any accepted file the run itself started from. */
  lemma RestartIsInvisible(link: Link, earlier: seq<Line>, before: seq<Event>, after: seq<Event>)
    requires Loaded(link, FRESH, earlier).Some?
    ensures var start := Loaded(link, FRESH, earlier).value;
            var stopped := AuditedAll(link, start, before);
            && stopped.file.Some?
            && Loaded(link, FRESH, stopped.file.value) == Some(stopped)
            && AuditedAll(link, Loaded(link, FRESH, stopped.file.value).value, after)
               == AuditedAll(link, start, before + after)
  {
    var start := Loaded(link, FRESH, earlier).value;
    var stopped := AuditedAll(link, start, before);
    assert [] + Parsed(earlier).value == Parsed(earlier).value;
    AuditedAllInStep(link, start, before);
    assert [] + stopped.log == stopped.log;
    AuditedAllAppend(link, start, before, after);
  }

  // ---- Sound links exist ----

  function Unary(n: nat): string {
    seq(n, i => '1') + "0"
  }

  lemma UnaryPrefixFree(m: nat, n: nat, x: string, y: string)
    requires Unary(m) + x == Unary(n) + y
    ensures m == n && x == y
  {
    var s, t := Unary(m) + x, Unary(n) + y;
    assert s[m] == '0' && t[n] == '0';
    assert forall i :: 0 <= i < m ==> s[i] == '1';
    assert forall i :: 0 <= i < n ==> t[i] == '1';
    assert x == s[m + 1..] == t[n + 1..] == y;
  }

  function Printed(e: SecurityDecision): string {
    [match e.kind case Grant => 'g' case Denial => 'd' case StampIssued => 's' case StampInvalidated => 'i',
     if e.at < 0 then '-' else '+']
    + (Unary(if e.at < 0 then -e.at else e.at) + (Unary(|e.detail|) + (e.detail + e.prevHash)))
  }

  /** The hypothesis on the link can be met: printing an entry is a sound link. */
  lemma SoundLinkExists(entries: set<SecurityDecision>)
    ensures Sound(Printed, entries)
  {
    forall e: SecurityDecision, f: SecurityDecision | Printed(e) == Printed(f)
      ensures e == f
    {
      var s, t := Printed(e), Printed(f);
      assert s[0] == t[0] && s[1] == t[1] && s[2..] == t[2..];
      UnaryPrefixFree(if e.at < 0 then -e.at else e.at, if f.at < 0 then -f.at else f.at,
                      Unary(|e.detail|) + (e.detail + e.prevHash), Unary(|f.detail|) + (f.detail + f.prevHash));
      UnaryPrefixFree(|e.detail|, |f.detail|, e.detail + e.prevHash, f.detail + f.prevHash);
      var x, y := e.detail + e.prevHash, f.detail + f.prevHash;
      assert e.detail == x[..|e.detail|] && f.detail == y[..|f.detail|];
      assert e.prevHash == x[|e.detail|..] && f.prevHash == y[|f.detail|..];
    }
  }
}
