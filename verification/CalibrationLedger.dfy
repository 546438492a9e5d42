/** crates/plugin-calibration-ledger/src/lib.rs: mastery replayed from graded
    answers. Probabilities are real numbers. */
module CalibrationLedger {
  import opened Types
  import opened Sorting

  type ConceptId = Text
  datatype ProbeEvent = ProbeEvent(
    actor: ActorId, concept: ConceptId, predictedCorrect: bool, wasCorrect: bool, at: Timestamp)

  // ---- The update ----

  datatype BktParams = BktParams(pL0: real, pT: real, pS: real, pG: real) {
    function Update(p: real, correct: bool): real {
      var num := if correct then p * (1.0 - pS) else p * pS;
      var den := num + (1.0 - p) * if correct then pG else 1.0 - pG;
      var posterior := if den == 0.0 then p else num / den;
      posterior + (1.0 - posterior) * pT
    }
  }

  const DEFAULT := BktParams(0.3, 0.1, 0.1, 0.2)
  const FLOOR: real := 4.0 / 35.0
  const REDUNDANCY_THRESHOLD: real := 0.95

  // One answer's effect in integers over a common denominator.
  lemma UpdateValues(p: real)
    requires 0.0 <= p <= 1.0
    ensures DEFAULT.Update(p, true) * (2.0 + 7.0 * p) == 0.2 + 8.8 * p
    ensures DEFAULT.Update(p, false) * (8.0 - 7.0 * p) == 0.8 + 0.2 * p
  {
    Quotient(p * 0.9, p * 0.9 + (1.0 - p) * 0.2);
    Quotient(p * 0.1, p * 0.1 + (1.0 - p) * 0.8);
    var up := (p * 0.9) / (p * 0.9 + (1.0 - p) * 0.2);
    assert up * (0.2 + 0.7 * p) == 0.9 * p;
    assert DEFAULT.Update(p, true) == 0.1 + 0.9 * up;
    var down := (p * 0.1) / (p * 0.1 + (1.0 - p) * 0.8);
    assert down * (0.8 - 0.7 * p) == 0.1 * p;
    assert DEFAULT.Update(p, false) == 0.1 + 0.9 * down;
  }

  lemma Quotient(n: real, d: real)
    requires d != 0.0
    ensures n / d * d == n
  {}

  lemma Larger(x: real, y: real, d: real)
    requires d > 0.0 && x * d <= y * d
    ensures x <= y
    ensures x * d < y * d ==> x < y
  {}

  /** Better knowledge before an answer is no worse knowledge after it. */
  lemma UpdateIsMonotone(p: real, q: real, correct: bool)
    requires 0.0 <= p <= q <= 1.0
    ensures DEFAULT.Update(p, correct) <= DEFAULT.Update(q, correct)
  {
    if correct {
      CorrectIsMonotone(p, q);
    } else {
      WrongIsMonotone(p, q);
    }
  }

  lemma CorrectIsMonotone(p: real, q: real)
    requires 0.0 <= p <= q <= 1.0
    ensures DEFAULT.Update(p, true) <= DEFAULT.Update(q, true)
  {
    UpdateValues(p);
    UpdateValues(q);
    Fractions(p, q, 0.2, 8.8, 2.0, 7.0);
    CrossMultiplied(DEFAULT.Update(p, true), 2.0 + 7.0 * p, 0.2 + 8.8 * p,
                    DEFAULT.Update(q, true), 2.0 + 7.0 * q, 0.2 + 8.8 * q);
  }

  lemma WrongIsMonotone(p: real, q: real)
    requires 0.0 <= p <= q <= 1.0
    ensures DEFAULT.Update(p, false) <= DEFAULT.Update(q, false)
  {
    UpdateValues(p);
    UpdateValues(q);
    Fractions(p, q, 0.8, 0.2, 8.0, -7.0);
    CrossMultiplied(DEFAULT.Update(p, false), 8.0 - 7.0 * p, 0.8 + 0.2 * p,
                    DEFAULT.Update(q, false), 8.0 - 7.0 * q, 0.8 + 0.2 * q);
  }

  // (a + b p) / (c + d p) grows with p when b c >= a d.
  lemma Fractions(p: real, q: real, a: real, b: real, c: real, d: real)
    requires p <= q && b * c >= a * d
    ensures (a + b * p) * (c + d * q) <= (a + b * q) * (c + d * p)
  {
    assert (a + b * q) * (c + d * p) - (a + b * p) * (c + d * q) == (b * c - a * d) * (q - p);
    NonNegative(b * c - a * d, q - p);
  }

  lemma CrossMultiplied(x: real, d: real, n: real, y: real, e: real, m: real)
    requires d > 0.0 && e > 0.0 && x * d == n && y * e == m && n * e <= m * d
    ensures x <= y
  {
    assert x * d * e <= y * e * d;
    assert x * (d * e) <= y * (d * e) && d * e > 0.0;
    Larger(x, y, d * e);
  }

  lemma CorrectRaises(p: real)
    requires 0.0 <= p < 1.0
    ensures p < DEFAULT.Update(p, true) < 1.0
  {
    UpdateValues(p);
    var up, d := DEFAULT.Update(p, true), 2.0 + 7.0 * p;
    assert 0.2 + 8.8 * p - p * d == (1.0 - p) * (0.2 + 7.0 * p);
    Sign(up - p, d, (1.0 - p) * (0.2 + 7.0 * p));
    Sign(1.0 - up, d, 1.8 * (1.0 - p));
  }

  lemma WrongLowersAboveFloor(p: real)
    requires 0.0 <= p < 1.0
    ensures DEFAULT.Update(p, false) < 1.0
    ensures DEFAULT.Update(p, false) < p <==> p > FLOOR
  {
    UpdateValues(p);
    var down, e := DEFAULT.Update(p, false), 8.0 - 7.0 * p;
    assert 0.8 + 0.2 * p - p * e == (1.0 - p) * 7.0 * (FLOOR - p);
    Sign(1.0 - down, e, 7.2 * (1.0 - p));
    Sign(p - down, e, (1.0 - p) * 7.0 * (p - FLOOR));
    Sign(p - FLOOR, (1.0 - p) * 7.0, (1.0 - p) * 7.0 * (p - FLOOR));
  }

  /** A correct answer raises mastery; a wrong one lowers it exactly above the
      floor, where it leaves it. */
  lemma UpdateDirection(p: real)
    requires 0.0 <= p < 1.0
    ensures p < DEFAULT.Update(p, true) < 1.0
    ensures DEFAULT.Update(p, false) < 1.0
    ensures DEFAULT.Update(p, false) < p <==> p > FLOOR
    ensures DEFAULT.Update(FLOOR, false) == FLOOR
  {
    CorrectRaises(p);
    WrongLowersAboveFloor(p);
    UpdateValues(FLOOR);
  }

  lemma Sign(x: real, d: real, n: real)
    requires d > 0.0 && x * d == n
    ensures x > 0.0 <==> n > 0.0
  {}

  lemma NonNegative(x: real, y: real)
    requires x >= 0.0 && y >= 0.0
    ensures x * y >= 0.0
  {}

  lemma CorrectBeatsWrong(p: real)
    requires 0.0 <= p <= 1.0
    ensures DEFAULT.Update(p, false) <= DEFAULT.Update(p, true)
  {
    UpdateValues(p);
    assert (0.2 + 8.8 * p) * (8.0 - 7.0 * p) - (0.8 + 0.2 * p) * (2.0 + 7.0 * p) == 63.0 * (p * (1.0 - p));
    NonNegative(p, 1.0 - p);
    CrossMultiplied(DEFAULT.Update(p, false), 8.0 - 7.0 * p, 0.8 + 0.2 * p,
                    DEFAULT.Update(p, true), 2.0 + 7.0 * p, 0.2 + 8.8 * p);
  }

  // ---- Histories ----

  function Replay(p: real, answers: seq<bool>): real {
    if answers == [] then p else DEFAULT.Update(Replay(p, answers[..|answers| - 1]), answers[|answers| - 1])
  }

  lemma {:induction false} MasteryBounds(answers: seq<bool>)
    ensures FLOOR <= Replay(DEFAULT.pL0, answers) < 1.0
  {
    if answers != [] {
      var before := Replay(DEFAULT.pL0, answers[..|answers| - 1]);
      MasteryBounds(answers[..|answers| - 1]);
      UpdateDirection(before);
      UpdateIsMonotone(FLOOR, before, false);
    }
  }

  lemma NextAnswer(answers: seq<bool>, correct: bool)
    ensures var was, now := Replay(DEFAULT.pL0, answers), Replay(DEFAULT.pL0, answers + [correct]);
            if correct then was < now else now <= was
  {
    var was := Replay(DEFAULT.pL0, answers);
    assert (answers + [correct])[..|answers|] == answers;
    MasteryBounds(answers);
    UpdateDirection(was);
    assert was > FLOOR || was == FLOOR;
  }

  /** Turning wrong answers into correct ones, anywhere, never lowers mastery. */
  lemma {:induction false} CorrectingNeverLowers(worse: seq<bool>, better: seq<bool>)
    requires |worse| == |better| && forall i :: 0 <= i < |worse| ==> worse[i] ==> better[i]
    ensures Replay(DEFAULT.pL0, worse) <= Replay(DEFAULT.pL0, better)
  {
    if worse != [] {
      var n := |worse| - 1;
      CorrectingNeverLowers(worse[..n], better[..n]);
      MasteryBounds(worse[..n]);
      MasteryBounds(better[..n]);
      UpdateIsMonotone(Replay(DEFAULT.pL0, worse[..n]), Replay(DEFAULT.pL0, better[..n]), worse[n]);
      CorrectBeatsWrong(Replay(DEFAULT.pL0, better[..n]));
    }
  }

  /** Inserting a correct answer anywhere raises mastery. */
  lemma {:induction false} InsertingCorrectRaises(early: seq<bool>, late: seq<bool>)
    ensures Replay(DEFAULT.pL0, early + late) <= Replay(DEFAULT.pL0, early + [true] + late)
  {
    if late == [] {
      assert early + late == early && early + [true] + late == early + [true];
      assert (early + [true])[..|early|] == early;
      MasteryBounds(early);
      UpdateDirection(Replay(DEFAULT.pL0, early));
    } else {
      var n := |late| - 1;
      InsertingCorrectRaises(early, late[..n]);
      assert (early + late)[..|early + late| - 1] == early + late[..n];
      assert (early + [true] + late)[..|early + [true] + late| - 1] == early + [true] + late[..n];
      MasteryBounds(early + late[..n]);
      MasteryBounds(early + [true] + late[..n]);
      UpdateIsMonotone(Replay(DEFAULT.pL0, early + late[..n]), Replay(DEFAULT.pL0, early + [true] + late[..n]), late[n]);
    }
  }

  function AllCorrect(n: nat): seq<bool> {
    seq(n, _ => true)
  }

  /** Three correct answers in a row reach the threshold after any history. */
  lemma {:induction false} ThreeCorrectReachThreshold(answers: seq<bool>, n: nat)
    requires n >= 3
    ensures Replay(DEFAULT.pL0, answers + AllCorrect(n)) >= REDUNDANCY_THRESHOLD
  {
    var all := answers + AllCorrect(n);
    assert all[..|all| - 1] == answers + AllCorrect(n - 1);
    MasteryBounds(answers + AllCorrect(n - 1));
    UpdateDirection(Replay(DEFAULT.pL0, answers + AllCorrect(n - 1)));
    if n > 3 {
      ThreeCorrectReachThreshold(answers, n - 1);
    } else {
      var two, one := answers + AllCorrect(2), answers + AllCorrect(1);
      assert two[..|two| - 1] == one && one[..|one| - 1] == answers && answers + AllCorrect(0) == answers;
      MasteryBounds(answers);
      ThreeUpdates(Replay(DEFAULT.pL0, answers));
    }
  }

  // Bounds the three steps pass on their way up.
  lemma ThreeUpdates(p: real)
    requires FLOOR <= p < 1.0
    ensures DEFAULT.Update(DEFAULT.Update(DEFAULT.Update(p, true), true), true) >= REDUNDANCY_THRESHOLD
  {
    UpdateDirection(p);
    var one := DEFAULT.Update(p, true);
    UpdateDirection(one);
    var two := DEFAULT.Update(one, true);
    StepReaches(p, FLOOR, 0.43);
    StepReaches(one, 0.43, 0.795);
    StepReaches(two, 0.795, REDUNDANCY_THRESHOLD);
  }

  lemma StepReaches(p: real, low: real, goal: real)
    requires 0.0 <= low <= p <= 1.0 && goal * (2.0 + 7.0 * low) <= 0.2 + 8.8 * low
    ensures DEFAULT.Update(p, true) >= goal
  {
    UpdateIsMonotone(low, p, true);
    UpdateValues(low);
    Larger(goal, DEFAULT.Update(low, true), 2.0 + 7.0 * low);
  }

  /** Two are not enough for a newcomer. */
  lemma TwoCorrectDoNotSuffice()
    ensures Replay(DEFAULT.pL0, AllCorrect(2)) < REDUNDANCY_THRESHOLD
  {
    assert AllCorrect(2)[..1] == AllCorrect(1) && AllCorrect(1)[..0] == [];
    var one := DEFAULT.Update(0.3, true);
    UpdateValues(0.3);
    assert one <= 0.7;
    UpdateDirection(0.3);
    UpdateIsMonotone(one, 0.7, true);
    UpdateValues(0.7);
  }

  // ---- The ledger's table ----

  function OutcomesOf(events: seq<ProbeEvent>, actor: ActorId, concept: ConceptId): seq<bool> {
    if events == [] then []
    else
      var e := events[|events| - 1];
      OutcomesOf(events[..|events| - 1], actor, concept)
        + if e.actor == actor && e.concept == concept then [e.wasCorrect] else []
  }

  function MasteryOf(events: seq<ProbeEvent>, actor: ActorId, concept: ConceptId): real {
    Replay(DEFAULT.pL0, OutcomesOf(events, actor, concept))
  }

  predicate IsMaster(events: seq<ProbeEvent>, actor: ActorId, concept: ConceptId) {
    MasteryOf(events, actor, concept) >= REDUNDANCY_THRESHOLD
  }

  function PairsOf(events: seq<ProbeEvent>): set<(ActorId, ConceptId)> {
    set e | e in events :: (e.actor, e.concept)
  }

  function ConceptsIn(pairs: set<(ActorId, ConceptId)>): set<ConceptId> {
    set p | p in pairs :: p.1
  }

  /** The actors a concept's count counts. */
  function Masters(events: seq<ProbeEvent>, pairs: set<(ActorId, ConceptId)>, concept: ConceptId): set<ActorId> {
    set p | p in pairs && p.1 == concept && IsMaster(events, p.0, concept) :: p.0
  }

  /** One count per concept somebody has answered: how many distinct actors
      have mastered it. */
  ghost predicate IsRedundancy(counts: map<ConceptId, nat>, events: seq<ProbeEvent>, pairs: set<(ActorId, ConceptId)>) {
    && counts.Keys == ConceptsIn(pairs)
    && forall c :: c in counts ==> counts[c] == |Masters(events, pairs, c)|
  }

  datatype ConceptRedundancy = ConceptRedundancy(concept: ConceptId, redundantActors: nat)

  function ConceptLe(): (ConceptId, ConceptId) -> bool {
    (a: ConceptId, b: ConceptId) => TextLe(a, b)
  }

  lemma ConceptLeIsTotal()
    ensures TotalOrder(ConceptLe())
  {
    forall a: ConceptId, b: ConceptId
      ensures TextLe(a, b) || TextLe(b, a)
    {
      TextLeTotal(a, b);
    }
    forall a: ConceptId, b: ConceptId, c: ConceptId | TextLe(a, b) && TextLe(b, c)
      ensures TextLe(a, c)
    {
      TextLeTransitive(a, b, c);
    }
  }

  /** One row for each count, in the order of the concepts. */
  ghost predicate IsListing(rows: seq<ConceptRedundancy>, counts: map<ConceptId, nat>) {
    && (forall i, j :: 0 <= i < j < |rows| ==>
          TextLe(rows[i].concept, rows[j].concept) && rows[i].concept != rows[j].concept)
    && (forall i :: 0 <= i < |rows| ==>
          rows[i].concept in counts && rows[i].redundantActors == counts[rows[i].concept])
    && (forall c :: c in counts ==> exists i :: 0 <= i < |rows| && rows[i].concept == c)
  }

  function WithoutActor(events: seq<ProbeEvent>, actor: ActorId): seq<ProbeEvent> {
    if events == [] then []
    else
      var e := events[|events| - 1];
      WithoutActor(events[..|events| - 1], actor) + if e.actor == actor then [] else [e]
  }

  class CalibrationLedger {
    var events: seq<ProbeEvent>

    constructor ()
      ensures events == []
    {
      events := [];
    }

    method Record(event: ProbeEvent)
      modifies this
      ensures events == old(events) + [event]
    {
      events := events + [event];
    }

    method Outcomes(actor: ActorId, concept: ConceptId) returns (out: seq<bool>)
      ensures out == OutcomesOf(events, actor, concept)
    {
      out := [];
      for i := 0 to |events|
        invariant out == OutcomesOf(events[..i], actor, concept)
      {
        assert events[..i + 1][..i] == events[..i];
        if events[i].actor == actor && events[i].concept == concept {
          out := out + [events[i].wasCorrect];
        }
      }
      assert events[..|events|] == events;
    }

    method Mastery(actor: ActorId, concept: ConceptId) returns (p: real)
      ensures p == MasteryOf(events, actor, concept)
    {
      var outcomes := Outcomes(actor, concept);
      p := DEFAULT.pL0;
      for i := 0 to |outcomes|
        invariant p == Replay(DEFAULT.pL0, outcomes[..i])
      {
        assert outcomes[..i + 1][..i] == outcomes[..i];
        p := DEFAULT.Update(p, outcomes[i]);
      }
      assert outcomes[..|outcomes|] == outcomes;
    }

    method TeamConceptRedundancy() returns (rows: seq<ConceptRedundancy>)
      ensures exists counts :: IsRedundancy(counts, events, PairsOf(events)) && IsListing(rows, counts)
    {
      var counts := CountMasters();
      ConceptLeIsTotal();
      var concepts := Ascending(counts.Keys, ConceptLe());
      rows := [];
      for i := 0 to |concepts|
        invariant |rows| == i
        invariant forall j :: 0 <= j < i ==>
                    concepts[j] in counts && rows[j] == ConceptRedundancy(concepts[j], counts[concepts[j]])
      {
        rows := rows + [ConceptRedundancy(concepts[i], counts[concepts[i]])];
      }
      RowsAreListing(rows, concepts, counts);
    }

    method CountMasters() returns (counts: map<ConceptId, nat>)
      ensures IsRedundancy(counts, events, PairsOf(events))
    {
      counts := map[];
      var pairs := PairsOf(events);
      var todo := pairs;
      while todo != {}
        invariant todo <= pairs
        invariant IsRedundancy(counts, events, pairs - todo)
      {
        var pair :| pair in todo;
        var (actor, concept) := pair;
        var m := Mastery(actor, concept);
        var entry := if concept in counts then counts[concept] else 0;
        CountStep(counts, events, pairs - todo, pair);
        assert pairs - (todo - {pair}) == (pairs - todo) + {pair};
        counts := counts[concept := if m >= REDUNDANCY_THRESHOLD then entry + 1 else entry];
        todo := todo - {pair};
      }
      assert pairs - todo == pairs;
    }

    /** Returns how many rows went. */
    method DeleteActor(actor: ActorId) returns (n: nat)
      modifies this
      ensures events == WithoutActor(old(events), actor)
      ensures n == |old(events)| - |events|
    {
      var kept := [];
      n := 0;
      for i := 0 to |events|
        invariant kept == WithoutActor(events[..i], actor)
        invariant n == i - |kept|
        invariant events == old(events)
      {
        assert events[..i + 1][..i] == events[..i];
        if events[i].actor == actor {
          n := n + 1;
        } else {
          kept := kept + [events[i]];
        }
      }
      assert events[..|events|] == events;
      events := kept;
    }
  }

  lemma RowsAreListing(rows: seq<ConceptRedundancy>, concepts: seq<ConceptId>, counts: map<ConceptId, nat>)
    requires Ascends(concepts, ConceptLe()) && (forall c :: c in concepts <==> c in counts.Keys)
    requires |rows| == |concepts|
    requires forall i :: 0 <= i < |rows| ==>
               concepts[i] in counts && rows[i] == ConceptRedundancy(concepts[i], counts[concepts[i]])
    ensures IsListing(rows, counts)
  {
    forall i, j | 0 <= i < j < |rows|
      ensures TextLe(rows[i].concept, rows[j].concept) && rows[i].concept != rows[j].concept
    {
      assert ConceptLe()(concepts[i], concepts[j]);
    }
    forall c | c in counts
      ensures exists i :: 0 <= i < |rows| && rows[i].concept == c
    {
      var i :| 0 <= i < |concepts| && concepts[i] == c;
      assert rows[i].concept == c;
    }
  }

  lemma CountStep(counts: map<ConceptId, nat>, events: seq<ProbeEvent>, seen: set<(ActorId, ConceptId)>,
                  pair: (ActorId, ConceptId))
    requires IsRedundancy(counts, events, seen) && pair !in seen
    ensures var entry := if pair.1 in counts then counts[pair.1] else 0;
            IsRedundancy(counts[pair.1 := if IsMaster(events, pair.0, pair.1) then entry + 1 else entry], events, seen + {pair})
  {
    ConceptsInStep(seen, pair);
    EntryCounts(counts, events, seen, pair.1);
    var entry := if pair.1 in counts then counts[pair.1] else 0;
    var next := counts[pair.1 := if IsMaster(events, pair.0, pair.1) then entry + 1 else entry];
    assert next.Keys == counts.Keys + {pair.1};
    forall c | c in next
      ensures next[c] == |Masters(events, seen + {pair}, c)|
    {
      MastersCountStep(events, seen, pair, c);
    }
  }

  lemma EntryCounts(counts: map<ConceptId, nat>, events: seq<ProbeEvent>, seen: set<(ActorId, ConceptId)>, concept: ConceptId)
    requires IsRedundancy(counts, events, seen)
    ensures (if concept in counts then counts[concept] else 0) == |Masters(events, seen, concept)|
  {
    if concept !in counts {
      NoMasters(events, seen, concept);
    }
  }

  lemma ConceptsInStep(seen: set<(ActorId, ConceptId)>, pair: (ActorId, ConceptId))
    ensures ConceptsIn(seen + {pair}) == ConceptsIn(seen) + {pair.1}
  {
    assert pair in seen + {pair};
  }

  lemma NoMasters(events: seq<ProbeEvent>, seen: set<(ActorId, ConceptId)>, concept: ConceptId)
    requires concept !in ConceptsIn(seen)
    ensures Masters(events, seen, concept) == {}
  {}

  lemma MastersStep(events: seq<ProbeEvent>, seen: set<(ActorId, ConceptId)>, pair: (ActorId, ConceptId), c: ConceptId)
    ensures Masters(events, seen + {pair}, c)
            == Masters(events, seen, c) + if c == pair.1 && IsMaster(events, pair.0, c) then {pair.0} else {}
    ensures pair !in seen && c == pair.1 ==> pair.0 !in Masters(events, seen, c)
  {
    assert pair == (pair.0, pair.1);
  }

  lemma MastersCountStep(events: seq<ProbeEvent>, seen: set<(ActorId, ConceptId)>, pair: (ActorId, ConceptId), c: ConceptId)
    requires pair !in seen
    ensures |Masters(events, seen + {pair}, c)|
            == |Masters(events, seen, c)| + if c == pair.1 && IsMaster(events, pair.0, c) then 1 else 0
  {
    MastersStep(events, seen, pair, c);
    assert Masters(events, seen, c) + {} == Masters(events, seen, c);
  }

  // ---- What the table's changes do to counts ----

  function MastersOf(events: seq<ProbeEvent>, concept: ConceptId): set<ActorId> {
    Masters(events, PairsOf(events), concept)
  }

  lemma OutcomesAfterRecord(events: seq<ProbeEvent>, e: ProbeEvent, actor: ActorId, concept: ConceptId)
    ensures OutcomesOf(events + [e], actor, concept)
            == OutcomesOf(events, actor, concept)
               + if e.actor == actor && e.concept == concept then [e.wasCorrect] else []
  {
    assert (events + [e])[..|events|] == events;
  }

  /** A recorded answer moves no one's mastery but its actor's, of its concept;
      up if correct, never above if wrong. */
  lemma RecordMovesOneMastery(events: seq<ProbeEvent>, e: ProbeEvent, actor: ActorId, concept: ConceptId)
    ensures var was, now := MasteryOf(events, actor, concept), MasteryOf(events + [e], actor, concept);
            if e.actor != actor || e.concept != concept then now == was
            else if e.wasCorrect then was < now
            else now <= was
  {
    OutcomesAfterRecord(events, e, actor, concept);
    var before := OutcomesOf(events, actor, concept);
    NextAnswer(before, e.wasCorrect);
    assert before + [] == before;
  }

  /** A concept's masters after an answer: only the answering actor may join
      or leave, joining only on a correct answer and leaving only on a wrong one. */
  lemma RecordMovesOneMaster(events: seq<ProbeEvent>, e: ProbeEvent, concept: ConceptId)
    ensures var was, now := MastersOf(events, concept), MastersOf(events + [e], concept);
            && (e.concept != concept ==> now == was)
            && (e.wasCorrect ==> was <= now <= was + {e.actor})
            && (!e.wasCorrect ==> was - {e.actor} <= now <= was)
  {
    var was, now := MastersOf(events, concept), MastersOf(events + [e], concept);
    forall a
      ensures a in now <==> (a, concept) in PairsOf(events + [e]) && IsMaster(events + [e], a, concept)
      ensures a in was <==> (a, concept) in PairsOf(events) && IsMaster(events, a, concept)
    {}
    assert PairsOf(events + [e]) == PairsOf(events) + {(e.actor, e.concept)};
    forall a
      ensures a in was && (e.wasCorrect || a != e.actor || e.concept != concept) ==> a in now
      ensures a in now && !(a == e.actor && e.concept == concept && e.wasCorrect) ==> a in was
    {
      RecordMovesOneMastery(events, e, a, concept);
      if (a, concept) !in PairsOf(events) {
        NeverAnswered(events, a, concept);
      }
    }
  }

  lemma {:induction false} NeverAnswered(events: seq<ProbeEvent>, actor: ActorId, concept: ConceptId)
    requires (actor, concept) !in PairsOf(events)
    ensures OutcomesOf(events, actor, concept) == []
    ensures !IsMaster(events, actor, concept)
  {
    if events != [] {
      var init, e := events[..|events| - 1], events[|events| - 1];
      assert events == init + [e];
      assert PairsOf(events) == PairsOf(init) + {(e.actor, e.concept)};
      NeverAnswered(init, actor, concept);
    }
  }

  /** A correct answer never lowers a concept's count. */
  lemma CorrectNeverLowersCounts(events: seq<ProbeEvent>, e: ProbeEvent, was: map<ConceptId, nat>, now: map<ConceptId, nat>)
    requires e.wasCorrect
    requires IsRedundancy(was, events, PairsOf(events)) && IsRedundancy(now, events + [e], PairsOf(events + [e]))
    ensures forall c :: c in was ==> c in now && was[c] <= now[c] <= was[c] + 1
    ensures now.Keys == was.Keys + {e.concept}
  {
    assert PairsOf(events + [e]) == PairsOf(events) + {(e.actor, e.concept)};
    ConceptsInStep(PairsOf(events), (e.actor, e.concept));
    forall c | c in was
      ensures c in now && was[c] <= now[c] <= was[c] + 1
    {
      RecordMovesOneMaster(events, e, c);
      Cardinality(MastersOf(events, c), MastersOf(events + [e], c), e.actor);
    }
  }

  lemma Cardinality<T>(a: set<T>, b: set<T>, x: T)
    requires a <= b <= a + {x}
    ensures |a| <= |b| <= |a| + 1
  {
    if x in a {
      assert b == a;
    } else {
      assert b == a || b == a + {x};
    }
  }

  lemma {:induction false} DeleteKeepsEvents(events: seq<ProbeEvent>, gone: ActorId)
    ensures forall e :: e in WithoutActor(events, gone) <==> e in events && e.actor != gone
  {
    if events != [] {
      var init, e := events[..|events| - 1], events[|events| - 1];
      DeleteKeepsEvents(init, gone);
      assert events == init + [e];
    }
  }

  lemma {:induction false} DeleteKeepsOthers(events: seq<ProbeEvent>, gone: ActorId, actor: ActorId, concept: ConceptId)
    ensures OutcomesOf(WithoutActor(events, gone), actor, concept)
            == if actor == gone then [] else OutcomesOf(events, actor, concept)
  {
    if events != [] {
      var init, e := events[..|events| - 1], events[|events| - 1];
      DeleteKeepsOthers(init, gone, actor, concept);
      if e.actor == gone {
        assert WithoutActor(events, gone) == WithoutActor(init, gone);
      } else {
        OutcomesAfterRecord(WithoutActor(init, gone), e, actor, concept);
      }
    }
  }

  /** Deleting an actor lowers each count by that actor's contribution and drops
      the concepts nobody else answered. */
  lemma DeleteLowersByContribution(events: seq<ProbeEvent>, gone: ActorId, was: map<ConceptId, nat>, now: map<ConceptId, nat>)
    requires IsRedundancy(was, events, PairsOf(events))
    requires IsRedundancy(now, WithoutActor(events, gone), PairsOf(WithoutActor(events, gone)))
    ensures forall c :: c in now <==> exists e :: e in events && e.concept == c && e.actor != gone
    ensures forall c :: c in was ==>
              was[c] == (if c in now then now[c] else 0) + if IsMaster(events, gone, c) then 1 else 0
  {
    forall c
      ensures c in now <==> exists e :: e in events && e.concept == c && e.actor != gone
    {
      ConceptsAfterDelete(events, gone, c);
    }
    forall c | c in was
      ensures was[c] == (if c in now then now[c] else 0) + if IsMaster(events, gone, c) then 1 else 0
    {
      CountAfterDelete(events, gone, c);
    }
  }

  lemma ConceptsAfterDelete(events: seq<ProbeEvent>, gone: ActorId, c: ConceptId)
    ensures c in ConceptsIn(PairsOf(WithoutActor(events, gone)))
            <==> exists e :: e in events && e.concept == c && e.actor != gone
  {
    var left := WithoutActor(events, gone);
    DeleteKeepsEvents(events, gone);
    assert forall e :: e in left ==> (e.actor, e.concept) in PairsOf(left);
  }

  lemma CountAfterDelete(events: seq<ProbeEvent>, gone: ActorId, c: ConceptId)
    ensures var left := WithoutActor(events, gone);
            && |MastersOf(events, c)| == |MastersOf(left, c)| + (if IsMaster(events, gone, c) then 1 else 0)
            && (c !in ConceptsIn(PairsOf(left)) ==> |MastersOf(left, c)| == 0)
  {
    var left := WithoutActor(events, gone);
    var was, now := MastersOf(events, c), MastersOf(left, c);
    MastersAfterDelete(events, gone, c);
    if gone in was {
      assert was == now + {gone};
    } else {
      assert was == now;
    }
    if c !in ConceptsIn(PairsOf(left)) {
      NoMasters(left, PairsOf(left), c);
    }
  }

  lemma MastersAfterDelete(events: seq<ProbeEvent>, gone: ActorId, concept: ConceptId)
    ensures MastersOf(WithoutActor(events, gone), concept) == MastersOf(events, concept) - {gone}
    ensures gone in MastersOf(events, concept) <==> IsMaster(events, gone, concept)
  {
    var left := WithoutActor(events, gone);
    DeleteKeepsEvents(events, gone);
    if (gone, concept) !in PairsOf(events) {
      NeverAnswered(events, gone, concept);
    }
    forall a
      ensures a in MastersOf(left, concept) <==> a in MastersOf(events, concept) - {gone}
    {
      DeleteKeepsOthers(events, gone, a, concept);
      assert a in MastersOf(left, concept) <==> (a, concept) in PairsOf(left) && IsMaster(left, a, concept);
      assert a in MastersOf(events, concept) <==> (a, concept) in PairsOf(events) && IsMaster(events, a, concept);
    }
  }

  // ---- Runs ----

  datatype LedgerOp = Record(event: ProbeEvent) | Delete(gone: ActorId)

  function RunLedger(ops: seq<LedgerOp>): seq<ProbeEvent> {
    if ops == [] then []
    else
      var before := RunLedger(ops[..|ops| - 1]);
      match ops[|ops| - 1]
      case Record(e) => before + [e]
      case Delete(gone) => WithoutActor(before, gone)
  }

  /** The answers the actor gave on the concept since they last erased themselves. */
  function AnswersSinceDelete(ops: seq<LedgerOp>, actor: ActorId, concept: ConceptId): seq<bool> {
    if ops == [] then []
    else
      var before := AnswersSinceDelete(ops[..|ops| - 1], actor, concept);
      match ops[|ops| - 1]
      case Record(e) => if e.actor == actor && e.concept == concept then before + [e.wasCorrect] else before
      case Delete(gone) => if gone == actor then [] else before
  }

  /** On every run a mastery is the replay of the actor's own answers since they
      last erased themselves, whatever anyone else did. */
  lemma {:induction false} MasteryIsPrivate(ops: seq<LedgerOp>, actor: ActorId, concept: ConceptId)
    ensures OutcomesOf(RunLedger(ops), actor, concept) == AnswersSinceDelete(ops, actor, concept)
    ensures FLOOR <= MasteryOf(RunLedger(ops), actor, concept) < 1.0
  {
    MasteryBounds(OutcomesOf(RunLedger(ops), actor, concept));
    if ops != [] {
      var before := RunLedger(ops[..|ops| - 1]);
      MasteryIsPrivate(ops[..|ops| - 1], actor, concept);
      match ops[|ops| - 1]
      case Record(e) => OutcomesAfterRecord(before, e, actor, concept);
      case Delete(gone) => DeleteKeepsOthers(before, gone, actor, concept);
    }
  }

  // ---- The rule, for any parameters ----

  /** Bayes' rule, the posterior being `known` over `known + unknown`, and then the
      learning step; where the evidence has probability 0, the learning step alone. */
  lemma UpdateIsBayes(k: BktParams, p: real, correct: bool)
    ensures var known := if correct then p * (1.0 - k.pS) else p * k.pS;
            var unknown := (1.0 - p) * if correct then k.pG else 1.0 - k.pG;
            if known + unknown == 0.0 then k.Update(p, correct) == p + (1.0 - p) * k.pT
            else (k.Update(p, correct) - k.pT) * (known + unknown) == known * (1.0 - k.pT)
  {
    var known := if correct then p * (1.0 - k.pS) else p * k.pS;
    var unknown := (1.0 - p) * if correct then k.pG else 1.0 - k.pG;
    if known + unknown != 0.0 {
      Learned(known, known + unknown, k.pT);
    }
  }

  lemma Learned(n: real, d: real, t: real)
    requires d != 0.0
    ensures (n / d + (1.0 - n / d) * t - t) * d == n * (1.0 - t)
  {
    var q := n / d;
    Quotient(n, d);
    assert q + (1.0 - q) * t - t == q * (1.0 - t);
    assert (q * (1.0 - t)) * d == (q * d) * (1.0 - t);
  }

  /** The ledger's own parameters and its threshold. */
  lemma ParametersAre(events: seq<ProbeEvent>, actor: ActorId, concept: ConceptId)
    ensures DEFAULT == BktParams(0.3, 0.1, 0.1, 0.2)
    ensures MasteryOf([], actor, concept) == 0.3
    ensures actor in MastersOf(events, concept)
            <==> (exists e :: e in events && e.actor == actor && e.concept == concept) && MasteryOf(events, actor, concept) >= 0.95
  {
    assert (actor, concept) in PairsOf(events) <==> exists e :: e in events && e.actor == actor && e.concept == concept;
  }
}
