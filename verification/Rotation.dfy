/** crates/plugin-rotation-scheduler/src/lib.rs: round-robin role assignment. */
module Rotation {
  import opened Types
  import opened ModArith

  datatype Role = Specifier | Designer | Developer | Tester

  function Ordinal(r: Role): nat {
    match r
    case Specifier => 0
    case Designer => 1
    case Developer => 2
    case Tester => 3
  }

  datatype Criticality = Normal | SafetyCritical
  datatype Actor = Actor(id: ActorId, isHuman: bool)
  datatype HumanOverride = HumanOverride(role: Role, when: Criticality)

  datatype RotationPolicy = RotationPolicy(
    eligibleRoles: seq<Role>, roster: seq<Actor>, cadence: U64, overrides: seq<HumanOverride>)

  datatype RotationItem = RotationItem(originTask: TaskId, criticality: Criticality)

  datatype ScheduleError = NoRoles | EmptyRoster | NoHumanAvailable(role: Role)

  datatype Assignment = Assignment(originTask: TaskId, slots: seq<(Role, ActorId)>)

  predicate RequiresHuman(p: RotationPolicy, role: Role, crit: Criticality) {
    HumanOverride(role, crit) in p.overrides
  }

  function Cadence(p: RotationPolicy): (c: nat)
    ensures c >= 1
  {
    if p.cadence >= 1 then p.cadence else 1
  }

  /** The roster position a role falls on; the sum wraps at 64 bits. */
  function Position(p: RotationPolicy, cycle: U64, role: Role): (i: nat)
    requires p.roster != []
    ensures i < |p.roster|
  {
    (cycle / Cadence(p) + Ordinal(role)) % TWO_64 % |p.roster|
  }

  function FirstHuman(roster: seq<Actor>): Option<ActorId> {
    if roster == [] then None
    else if roster[0].isHuman then Some(roster[0].id)
    else FirstHuman(roster[1..])
  }

  function ActorFor(p: RotationPolicy, item: RotationItem, cycle: U64, role: Role): Option<ActorId>
    requires p.roster != []
  {
    if RequiresHuman(p, role, item.criticality) then FirstHuman(p.roster)
    else Some(p.roster[Position(p, cycle, role)].id)
  }

  /** The slots of the first `k` roles, or the first role no human can fill. */
  function Slots(p: RotationPolicy, item: RotationItem, cycle: U64, k: nat): Result<seq<(Role, ActorId)>, ScheduleError>
    requires p.roster != [] && k <= |p.eligibleRoles|
  {
    if k == 0 then Ok([])
    else
      match Slots(p, item, cycle, k - 1)
      case Err(e) => Err(e)
      case Ok(slots) =>
        var role := p.eligibleRoles[k - 1];
        match ActorFor(p, item, cycle, role)
        case None => Err(NoHumanAvailable(role))
        case Some(id) => Ok(slots + [(role, id)])
  }

  function AssignmentOf(p: RotationPolicy, item: RotationItem, cycle: U64): Result<Assignment, ScheduleError> {
    if p.eligibleRoles == [] then Err(NoRoles)
    else if p.roster == [] then Err(EmptyRoster)
    else
      match Slots(p, item, cycle, |p.eligibleRoles|)
      case Err(e) => Err(e)
      case Ok(slots) => Ok(Assignment(item.originTask, slots))
  }

  method Assign(p: RotationPolicy, item: RotationItem, cycle: U64) returns (r: Result<Assignment, ScheduleError>)
    ensures r == AssignmentOf(p, item, cycle)
  {
    if p.eligibleRoles == [] {
      return Err(NoRoles);
    }
    if p.roster == [] {
      return Err(EmptyRoster);
    }
    var base := cycle / Cadence(p);
    var slots := [];
    for i := 0 to |p.eligibleRoles|
      invariant Slots(p, item, cycle, i) == Ok(slots)
    {
      var role := p.eligibleRoles[i];
      var actorId;
      if RequiresHuman(p, role, item.criticality) {
        var human := FirstHuman(p.roster);
        if human.None? {
          FailureSticks(p, item, cycle, i + 1, |p.eligibleRoles|);
          return Err(NoHumanAvailable(role));
        }
        actorId := human.value;
      } else {
        var idx := (base + Ordinal(role)) % TWO_64 % |p.roster|;
        actorId := p.roster[idx].id;
      }
      slots := slots + [(role, actorId)];
    }
    return Ok(Assignment(item.originTask, slots));
  }

  lemma {:induction false} FailureSticks(p: RotationPolicy, item: RotationItem, cycle: U64, i: nat, k: nat)
    requires p.roster != [] && i <= k <= |p.eligibleRoles| && Slots(p, item, cycle, i).Err?
    ensures Slots(p, item, cycle, k) == Slots(p, item, cycle, i)
    decreases k
  {
    if i < k {
      FailureSticks(p, item, cycle, i, k - 1);
    }
  }

  // ---- Who gets what ----

  lemma {:induction false} FirstHumanIsFirst(roster: seq<Actor>)
    ensures FirstHuman(roster).None? <==> forall i :: 0 <= i < |roster| ==> !roster[i].isHuman
    ensures FirstHuman(roster).Some? ==>
              exists i :: 0 <= i < |roster| && roster[i].isHuman && FirstHuman(roster) == Some(roster[i].id)
                          && forall j :: 0 <= j < i ==> !roster[j].isHuman
  {
    if roster != [] && !roster[0].isHuman {
      FirstHumanIsFirst(roster[1..]);
      assert forall i :: 0 < i < |roster| ==> roster[i] == roster[1..][i - 1];
      if FirstHuman(roster).Some? {
        var i :| 0 <= i < |roster[1..]| && roster[1..][i].isHuman && FirstHuman(roster) == Some(roster[1..][i].id)
          && forall j :: 0 <= j < i ==> !roster[1..][j].isHuman;
        assert roster[i + 1].isHuman;
      }
    }
  }

  /** Assignment fails only for want of roles, actors, or a human where one is
      required; otherwise each eligible role, in order, gets its human or its
      round-robin actor. */
  lemma AssignmentMeaning(p: RotationPolicy, item: RotationItem, cycle: U64)
    ensures AssignmentOf(p, item, cycle).Ok?
            <==> p.eligibleRoles != [] && p.roster != []
                 && forall i :: 0 <= i < |p.eligibleRoles| ==> ActorFor(p, item, cycle, p.eligibleRoles[i]).Some?
    ensures AssignmentOf(p, item, cycle).Ok? ==>
              var a := AssignmentOf(p, item, cycle).value;
              && a.originTask == item.originTask && |a.slots| == |p.eligibleRoles|
              && forall i :: 0 <= i < |a.slots| ==>
                   a.slots[i].0 == p.eligibleRoles[i] && Some(a.slots[i].1) == ActorFor(p, item, cycle, p.eligibleRoles[i])
  {
    if p.roster != [] {
      SlotsMeaning(p, item, cycle, |p.eligibleRoles|);
    }
  }

  lemma {:induction false} SlotsMeaning(p: RotationPolicy, item: RotationItem, cycle: U64, k: nat)
    requires p.roster != [] && k <= |p.eligibleRoles|
    ensures Slots(p, item, cycle, k).Ok?
            <==> forall i :: 0 <= i < k ==> ActorFor(p, item, cycle, p.eligibleRoles[i]).Some?
    ensures Slots(p, item, cycle, k).Ok? ==>
              var s := Slots(p, item, cycle, k).value;
              |s| == k && forall i :: 0 <= i < k ==>
                s[i].0 == p.eligibleRoles[i] && Some(s[i].1) == ActorFor(p, item, cycle, p.eligibleRoles[i])
  {
    if k > 0 {
      SlotsMeaning(p, item, cycle, k - 1);
    }
  }

  // ---- Counting over windows ----

  function Count(f: nat -> bool, start: nat, len: nat): nat
    decreases len
  {
    if len == 0 then 0 else Count(f, start, len - 1) + if f(start + len - 1) then 1 else 0
  }

  lemma {:induction false} CountFront(f: nat -> bool, start: nat, len: nat)
    requires len > 0
    ensures Count(f, start, len) == (if f(start) then 1 else 0) + Count(f, start + 1, len - 1)
    decreases len
  {
    if len > 1 {
      CountFront(f, start, len - 1);
    }
  }

  /** A window as long as a period counts the same from every start. */
  lemma {:induction false} CountOverPeriod(f: nat -> bool, start: nat, len: nat)
    requires forall k: nat :: f(k + len) == f(k)
    ensures Count(f, start, len) == Count(f, 0, len)
  {
    if start > 0 && len > 0 {
      CountOverPeriod(f, start - 1, len);
      CountFront(f, start - 1, len + 1);
      assert f(start - 1 + len) == f(start - 1);
    }
  }

  lemma {:induction false} CountAppend(f: nat -> bool, start: nat, a: nat, b: nat)
    ensures Count(f, start, a + b) == Count(f, start, a) + Count(f, start + a, b)
    decreases b
  {
    if b > 0 {
      CountAppend(f, start, a, b - 1);
    }
  }

  lemma {:induction false} CountAgrees(f: nat -> bool, g: nat -> bool, start: nat, len: nat)
    requires forall k :: start <= k < start + len ==> f(k) == g(k)
    ensures Count(f, start, len) == Count(g, start, len)
    decreases len
  {
    if len > 0 {
      CountAgrees(f, g, start, len - 1);
    }
  }

  // ---- Fairness ----

  /** The position when the sum does not wrap. */
  function PlainPosition(n: nat, c: nat, ordinal: nat, cycle: nat): nat
    requires n > 0 && c > 0
  {
    (cycle / c + ordinal) % n
  }

  function OnPosition(n: nat, c: nat, ordinal: nat, pos: nat): nat -> bool
    requires n > 0 && c > 0
  {
    (k: nat) => PlainPosition(n, c, ordinal, k) == pos
  }

  function WithResidue(n: nat, pos: nat): nat -> bool
    requires n > 0
  {
    (x: nat) => x % n == pos
  }

  lemma PlainPositionPeriod(n: nat, c: nat, ordinal: nat, cycle: nat)
    requires n > 0 && c > 0
    ensures PlainPosition(n, c, ordinal, cycle + n * c) == PlainPosition(n, c, ordinal, cycle)
  {
    var q := cycle / c;
    MulMinus(c, q + n, q);
    ModUnique(cycle + n * c, c, q + n, cycle % c);
    ModAdd(q + ordinal, n);
  }

  /** Among n consecutive numbers exactly one leaves residue `pos`. */
  lemma ResiduesOnce(n: nat, pos: nat, start: nat)
    requires pos < n
    ensures Count(WithResidue(n, pos), start, n) == 1
  {
    var f := WithResidue(n, pos);
    forall k: nat
      ensures f(k + n) == f(k)
    {
      ModAdd(k, n);
    }
    CountOverPeriod(f, start, n);
    ResiduesFromZero(n, pos, n);
  }

  lemma {:induction false} ResiduesFromZero(n: nat, pos: nat, m: nat)
    requires pos < n && m <= n
    ensures Count(WithResidue(n, pos), 0, m) == if pos < m then 1 else 0
  {
    if m > 0 {
      ResiduesFromZero(n, pos, m - 1);
      ModUnique(m - 1, n, 0, m - 1);
    }
  }

  /** The c cycles of one block share a position. */
  lemma {:induction false} BlockCount(n: nat, c: nat, ordinal: nat, pos: nat, b: nat, m: nat)
    requires n > 0 && c > 0 && m <= c
    ensures Count(OnPosition(n, c, ordinal, pos), b * c, m)
            == if (b + ordinal) % n == pos then m else 0
  {
    if m > 0 {
      BlockCount(n, c, ordinal, pos, b, m - 1);
      ModUnique(b * c + (m - 1), c, b, m - 1);
      assert PlainPosition(n, c, ordinal, b * c + (m - 1)) == (b + ordinal) % n;
    }
  }

  lemma {:induction false} BlocksCount(n: nat, c: nat, ordinal: nat, pos: nat, blocks: nat)
    requires n > 0 && c > 0
    ensures Count(OnPosition(n, c, ordinal, pos), 0, blocks * c)
            == c * Count(WithResidue(n, pos), ordinal, blocks)
  {
    var f := OnPosition(n, c, ordinal, pos);
    if blocks > 0 {
      var b := blocks - 1;
      BlocksCount(n, c, ordinal, pos, b);
      MulMinus(c, blocks, b);
      MulBounds(c, b);
      CountAppend(f, 0, b * c, c);
      BlockCount(n, c, ordinal, pos, b, c);
      var before := Count(WithResidue(n, pos), ordinal, b);
      MulMinus(c, before + 1, before);
    }
  }

  /** The sum of base and ordinal fits its 64 bits in a cycle. */
  predicate SumFits(p: RotationPolicy, cycle: nat, role: Role) {
    cycle / Cadence(p) + Ordinal(role) < TWO_64
  }

  /** The sum wraps somewhere between two cycles, and that shifts positions: the
      roster length does not divide 2^64. */
  predicate WrapShifts(p: RotationPolicy, from: nat, last: nat, role: Role)
    requires p.roster != []
  {
    SumFits(p, from, role) && !SumFits(p, last, role) && TWO_64 % |p.roster| != 0
  }

  function LastOfWindow(p: RotationPolicy, start: nat): nat
    requires p.roster != []
  {
    MulBounds(|p.roster|, Cadence(p));
    start + |p.roster| * Cadence(p) - 1
  }

  lemma PositionIsPlain(p: RotationPolicy, k: U64, role: Role)
    requires p.roster != []
    ensures SumFits(p, k, role) || TWO_64 % |p.roster| == 0 ==>
              Position(p, k, role) == PlainPosition(|p.roster|, Cadence(p), Ordinal(role), k)
  {
    QuotientIsSmaller(k, Cadence(p));
    NoShift(|p.roster|, Cadence(p), Ordinal(role), k);
  }

  lemma SumFitsBefore(p: RotationPolicy, k: nat, last: nat, role: Role)
    requires k <= last && SumFits(p, last, role)
    ensures SumFits(p, k, role)
  {
    DivMono(k, last, Cadence(p));
  }

  lemma NoShift(n: nat, c: nat, o: nat, k: nat)
    requires n > 0 && c > 0 && o < 4 && k / c < TWO_64
    ensures k / c + o < TWO_64 || TWO_64 % n == 0 ==> (k / c + o) % TWO_64 % n == PlainPosition(n, c, o, k)
  {
    var sum := k / c + o;
    WrappedSum(k / c, o);
    if sum >= TWO_64 {
      SameResidueIff(sum - TWO_64, sum, n);
    }
  }

  /** A sum that does not fit is only possible at cadence 1. */
  lemma WrapNeedsCadenceOne(p: RotationPolicy, k: U64, role: Role)
    requires !SumFits(p, k, role)
    ensures Cadence(p) == 1 && k + Ordinal(role) >= TWO_64
    ensures p.roster != [] ==> Position(p, k, role) == (k + Ordinal(role) - TWO_64) % |p.roster|
  {
    var c := Cadence(p);
    if c > 1 {
      DivMono(k, TWO_64 - 1, c);
      HalfAtMost(TWO_64 - 1, c);
      assert false;
    }
    WrappedSum(k, Ordinal(role));
  }

  lemma HalfAtMost(k: nat, c: nat)
    requires c >= 2
    ensures k / c <= k / 2
  {
    var q := k / c;
    MulMono(q, 2, q, c);
  }

  /** The cycles at which the role falls on a roster position. */
  function FallsOn(p: RotationPolicy, role: Role, pos: nat): nat -> bool
    requires p.roster != []
  {
    (k: nat) => k < TWO_64 && Position(p, k, role) == pos
  }

  /** The window of n * c cycles puts the role on each roster position c times. */
  ghost predicate IsFairFrom(p: RotationPolicy, role: Role, start: nat)
    requires p.roster != []
  {
    forall pos :: 0 <= pos < |p.roster| ==> Count(FallsOn(p, role, pos), start, |p.roster| * Cadence(p)) == Cadence(p)
  }

  /** Every window of n * c consecutive cycles is fair, from any start, except those
      in which the 64-bit sum wraps with a shift. */
  lemma RotationIsFairIff(p: RotationPolicy, role: Role, start: nat)
    requires p.roster != [] && start + |p.roster| * Cadence(p) <= TWO_64
    ensures IsFairFrom(p, role, start) <==> !WrapShifts(p, start, LastOfWindow(p, start), role)
  {
    var last := LastOfWindow(p, start);
    if WrapShifts(p, start, last, role) {
      WrappedWindowMissesOne(p, role, start);
    } else if SumFits(p, last, role) || TWO_64 % |p.roster| == 0 {
      forall pos | 0 <= pos < |p.roster|
        ensures Count(FallsOn(p, role, pos), start, |p.roster| * Cadence(p)) == Cadence(p)
      {
        PlainWindowIsFair(p, role, pos, start);
      }
    } else {
      forall pos | 0 <= pos < |p.roster|
        ensures Count(FallsOn(p, role, pos), start, |p.roster| * Cadence(p)) == Cadence(p)
      {
        AllWrappedWindowIsFair(p, role, pos, start);
      }
    }
  }

  lemma PlainWindowIsFair(p: RotationPolicy, role: Role, pos: nat, start: nat)
    requires p.roster != [] && pos < |p.roster| && start + |p.roster| * Cadence(p) <= TWO_64
    requires SumFits(p, LastOfWindow(p, start), role) || TWO_64 % |p.roster| == 0
    ensures Count(FallsOn(p, role, pos), start, |p.roster| * Cadence(p)) == Cadence(p)
  {
    var n, c, o := |p.roster|, Cadence(p), Ordinal(role);
    var f := OnPosition(n, c, o, pos);
    forall k | start <= k < start + n * c
      ensures FallsOn(p, role, pos)(k) == f(k)
    {
      if SumFits(p, LastOfWindow(p, start), role) {
        SumFitsBefore(p, k, LastOfWindow(p, start), role);
      }
      PositionIsPlain(p, k, role);
    }
    CountAgrees(FallsOn(p, role, pos), f, start, n * c);
    forall k: nat
      ensures f(k + n * c) == f(k)
    {
      PlainPositionPeriod(n, c, o, k);
    }
    CountOverPeriod(f, start, n * c);
    BlocksCount(n, c, o, pos, n);
    ResiduesOnce(n, pos, o);
  }

  lemma {:induction false} CountShifted(f: nat -> bool, start: nat, g: nat -> bool, other: nat, len: nat)
    requires forall k :: start <= k < start + len ==> f(k) == g(k - start + other)
    ensures Count(f, start, len) == Count(g, other, len)
    decreases len
  {
    if len > 0 {
      CountShifted(f, start, g, other, len - 1);
      assert f(start + len - 1) == g(other + len - 1);
    }
  }

  lemma WrappedFallsOn(p: RotationPolicy, role: Role, pos: nat, start: nat, k: U64)
    requires p.roster != [] && start <= k && !SumFits(p, start, role)
    ensures start + Ordinal(role) >= TWO_64
    ensures FallsOn(p, role, pos)(k) == WithResidue(|p.roster|, pos)(k - start + (start + Ordinal(role) - TWO_64))
  {
    if SumFits(p, k, role) {
      SumFitsBefore(p, start, k, role);
    }
    WrapNeedsCadenceOne(p, start, role);
    WrapNeedsCadenceOne(p, k, role);
  }

  lemma AllWrappedWindowIsFair(p: RotationPolicy, role: Role, pos: nat, start: nat)
    requires p.roster != [] && pos < |p.roster| && start + |p.roster| * Cadence(p) <= TWO_64
    requires !SumFits(p, start, role)
    ensures Count(FallsOn(p, role, pos), start, |p.roster| * Cadence(p)) == Cadence(p)
  {
    var n := |p.roster|;
    MulBounds(n, Cadence(p));
    WrapNeedsCadenceOne(p, start, role);
    var other := start + Ordinal(role) - TWO_64;
    forall k | start <= k < start + n
      ensures FallsOn(p, role, pos)(k) == WithResidue(n, pos)(k - start + other)
    {
      WrappedFallsOn(p, role, pos, start, k);
    }
    CountShifted(FallsOn(p, role, pos), start, WithResidue(n, pos), other, n);
    ResiduesOnce(n, pos, other);
  }

  lemma {:induction false} CountsNothing(f: nat -> bool, start: nat, len: nat)
    requires forall k :: start <= k < start + len ==> !f(k)
    ensures Count(f, start, len) == 0
    decreases len
  {
    if len > 0 {
      CountsNothing(f, start, len - 1);
    }
  }

  /** Where the sum wraps with a shift, one position of the window is skipped. */
  lemma WrappedWindowMissesOne(p: RotationPolicy, role: Role, start: nat)
    requires p.roster != [] && start + |p.roster| * Cadence(p) <= TWO_64
    requires WrapShifts(p, start, LastOfWindow(p, start), role)
    ensures !IsFairFrom(p, role, start)
  {
    var n, d := |p.roster|, TWO_64 % |p.roster|;
    WindowWraps(p, role, start);
    var wrapped := start + n + Ordinal(role) - TWO_64;
    var pos := if d >= wrapped then d else wrapped;
    forall k | start <= k < start + n
      ensures !FallsOn(p, role, pos)(k)
    {
      WindowMisses(p, role, wrapped, pos, k);
    }
    CountsNothing(FallsOn(p, role, pos), start, n);
  }

  lemma WindowWraps(p: RotationPolicy, role: Role, start: nat)
    requires p.roster != [] && start + |p.roster| * Cadence(p) <= TWO_64
    requires SumFits(p, start, role) && !SumFits(p, LastOfWindow(p, start), role)
    ensures Cadence(p) == 1 && |p.roster| * Cadence(p) == |p.roster|
    ensures 0 < start + |p.roster| + Ordinal(role) - TWO_64 < |p.roster|
  {
    WrapNeedsCadenceOne(p, LastOfWindow(p, start), role);
  }

  lemma WindowMisses(p: RotationPolicy, role: Role, wrapped: nat, pos: nat, k: U64)
    requires 0 < wrapped < |p.roster| && TWO_64 % |p.roster| != 0 && Cadence(p) == 1
    requires pos == if TWO_64 % |p.roster| >= wrapped then TWO_64 % |p.roster| else wrapped
    requires TWO_64 - (|p.roster| - wrapped) <= k + Ordinal(role) < TWO_64 + wrapped
    ensures !FallsOn(p, role, pos)(k)
  {
    var n, v := |p.roster|, k + Ordinal(role);
    if v < TWO_64 {
      PositionIsPlain(p, k, role);
      BelowWrapMisses(n, v, wrapped, pos);
    } else {
      WrapNeedsCadenceOne(p, k, role);
      ModUnique(v - TWO_64, n, 0, v - TWO_64);
    }
  }

  lemma BelowWrapMisses(n: nat, v: nat, wrapped: nat, pos: nat)
    requires 0 < wrapped < n && TWO_64 % n != 0
    requires pos == if TWO_64 % n >= wrapped then TWO_64 % n else wrapped
    requires TWO_64 - (n - wrapped) <= v < TWO_64
    ensures v % n != pos
  {
    var d, q, i := TWO_64 % n, TWO_64 / n, TWO_64 - v;
    assert TWO_64 == n * q + d;
    if d >= i {
      ModUnique(v, n, q, d - i);
    } else {
      MulMinus(n, q, 1);
      MulBounds(n, q - 1);
      ModUnique(v, n, q - 1, d - i + n);
    }
  }

  /** Such a window: five actors, cadence 1, the last five cycles. */
  lemma WrappedWindowExists()
    ensures var p := RotationPolicy([Designer], [Agent("a"), Agent("b"), Agent("c"), Agent("d"), Agent("e")], 1, []);
            !IsFairFrom(p, Designer, TWO_64 - 5)
  {
    var p := RotationPolicy([Designer], [Agent("a"), Agent("b"), Agent("c"), Agent("d"), Agent("e")], 1, []);
    assert LastOfWindow(p, TWO_64 - 5) == TWO_64 - 1;
    RotationIsFairIff(p, Designer, TWO_64 - 5);
  }

  /** A role's position repeats after n * c cycles unless the sum wraps in between
      with a shift. */
  lemma PositionIsPeriodicIff(p: RotationPolicy, role: Role, cycle: U64)
    requires p.roster != [] && cycle + |p.roster| * Cadence(p) < TWO_64
    ensures |p.roster| * Cadence(p) >= 0
    ensures Position(p, cycle + |p.roster| * Cadence(p), role) == Position(p, cycle, role)
            <==> !WrapShifts(p, cycle, cycle + |p.roster| * Cadence(p), role)
  {
    var n, c, o := |p.roster|, Cadence(p), Ordinal(role);
    MulBounds(n, c);
    var later := cycle + n * c;
    PositionIsPlain(p, cycle, role);
    PositionIsPlain(p, later, role);
    PlainPositionPeriod(n, c, o, cycle);
    if SumFits(p, later, role) {
      SumFitsBefore(p, cycle, later, role);
    } else {
      WrapNeedsCadenceOne(p, later, role);
      WrapKeepsResidueIff(n, later + o);
      if !SumFits(p, cycle, role) {
        WrapNeedsCadenceOne(p, cycle, role);
        ModAdd(cycle + o - TWO_64, n);
      }
    }
  }

  lemma WrapKeepsResidueIff(n: nat, v: nat)
    requires n > 0 && v >= TWO_64
    ensures (v - TWO_64) % n == v % n <==> TWO_64 % n == 0
  {
    SameResidueIff(v - TWO_64, v, n);
  }

  /** The role's position, if it has one, is the same n * c cycles later: it is pinned
      to a human or its sum does not wrap in between with a shift. */
  predicate Repeats(p: RotationPolicy, item: RotationItem, cycle: nat, later: nat, role: Role)
    requires p.roster != []
  {
    RequiresHuman(p, role, item.criticality) || !WrapShifts(p, cycle, later, role)
  }

  /** `assign` repeats after n * c cycles if all eligible roles do; and with distinct
      ids, where it succeeds, only then. */
  lemma AssignIsPeriodicIff(p: RotationPolicy, item: RotationItem, cycle: U64)
    requires p.roster != [] && cycle + |p.roster| * Cadence(p) < TWO_64
    ensures |p.roster| * Cadence(p) >= 0
    ensures var later := cycle + |p.roster| * Cadence(p);
            && ((forall role :: role in p.eligibleRoles ==> Repeats(p, item, cycle, later, role)) ==>
                  AssignmentOf(p, item, later) == AssignmentOf(p, item, cycle))
            && (DistinctIds(p.roster) && AssignmentOf(p, item, cycle).Ok?
                && AssignmentOf(p, item, later) == AssignmentOf(p, item, cycle) ==>
                  forall role :: role in p.eligibleRoles ==> Repeats(p, item, cycle, later, role))
  {
    MulBounds(|p.roster|, Cadence(p));
    var later := cycle + |p.roster| * Cadence(p);
    forall role
      ensures !WrapShifts(p, cycle, later, role) <==> Position(p, later, role) == Position(p, cycle, role)
    {
      PositionIsPeriodicIff(p, role, cycle);
    }
    if forall role :: role in p.eligibleRoles ==> Repeats(p, item, cycle, later, role) {
      SlotsAgree(p, item, cycle, later, |p.eligibleRoles|);
    }
    if DistinctIds(p.roster) && AssignmentOf(p, item, cycle).Ok?
       && AssignmentOf(p, item, later) == AssignmentOf(p, item, cycle) {
      SameAssignmentSamePositions(p, item, cycle, later);
    }
  }

  lemma SameAssignmentSamePositions(p: RotationPolicy, item: RotationItem, x: U64, y: U64)
    requires p.roster != [] && DistinctIds(p.roster)
    requires AssignmentOf(p, item, x).Ok? && AssignmentOf(p, item, y) == AssignmentOf(p, item, x)
    ensures forall role :: role in p.eligibleRoles && !RequiresHuman(p, role, item.criticality) ==>
              Position(p, x, role) == Position(p, y, role)
  {
    AssignmentMeaning(p, item, x);
    AssignmentMeaning(p, item, y);
    forall role | role in p.eligibleRoles && !RequiresHuman(p, role, item.criticality)
      ensures Position(p, x, role) == Position(p, y, role)
    {
      var i :| 0 <= i < |p.eligibleRoles| && p.eligibleRoles[i] == role;
      assert ActorFor(p, item, x, role) == Some(AssignmentOf(p, item, x).value.slots[i].1) == ActorFor(p, item, y, role);
    }
  }

  lemma {:induction false} SlotsAgree(p: RotationPolicy, item: RotationItem, x: U64, y: U64, k: nat)
    requires p.roster != [] && k <= |p.eligibleRoles|
    requires forall role :: role in p.eligibleRoles ==>
               RequiresHuman(p, role, item.criticality) || Position(p, x, role) == Position(p, y, role)
    ensures Slots(p, item, x, k) == Slots(p, item, y, k)
  {
    if k > 0 {
      SlotsAgree(p, item, x, y, k - 1);
    }
  }

  /** It does not where the sum wraps: five actors, cadence 1, the last five cycles. */
  lemma WrappedAssignmentDiffers(item: RotationItem)
    ensures var p := RotationPolicy([Designer], [Agent("a"), Agent("b"), Agent("c"), Agent("d"), Agent("e")], 1, []);
            AssignmentOf(p, item, TWO_64 - 6 + 5).Ok? && AssignmentOf(p, item, TWO_64 - 6 + 5) != AssignmentOf(p, item, TWO_64 - 6)
  {
    var p := RotationPolicy([Designer], [Agent("a"), Agent("b"), Agent("c"), Agent("d"), Agent("e")], 1, []);
    AssignmentMeaning(p, item, TWO_64 - 6);
    AssignmentMeaning(p, item, TWO_64 - 1);
    assert Position(p, TWO_64 - 6, Designer) == 1 && Position(p, TWO_64 - 1, Designer) == 0;
  }

  // ---- When two roles meet ----

  /** Two roles, the first of lower ordinal, fall on one roster position: by the
      distance of their ordinals or, where the sum wraps between them, by what that
      leaves of 2^64. */
  predicate PositionsMeet(p: RotationPolicy, cycle: U64, first: Role, second: Role)
    requires p.roster != [] && Ordinal(first) < Ordinal(second)
  {
    var apart := Ordinal(second) - Ordinal(first);
    (if SumFits(p, cycle, first) && !SumFits(p, cycle, second) then TWO_64 - apart else apart) % |p.roster| == 0
  }

  lemma PositionsMeetIff(p: RotationPolicy, cycle: U64, first: Role, second: Role)
    requires p.roster != [] && Ordinal(first) < Ordinal(second)
    ensures Position(p, cycle, first) == Position(p, cycle, second) <==> PositionsMeet(p, cycle, first, second)
  {
    QuotientIsSmaller(cycle, Cadence(p));
    WrappedMeetIff(cycle / Cadence(p), Ordinal(first), Ordinal(second), |p.roster|);
  }

  lemma WrappedMeetIff(base: U64, a: nat, b: nat, n: nat)
    requires a < b < 4 && n > 0
    ensures (base + a) % TWO_64 % n == (base + b) % TWO_64 % n
            <==> (if base + a < TWO_64 <= base + b then TWO_64 - (b - a) else b - a) % n == 0
  {
    WrappedSum(base, a);
    WrappedSum(base, b);
    if base + a < TWO_64 <= base + b {
      SameResidueIff(base + b - TWO_64, base + a, n);
    } else {
      SameResidueIff((base + a) % TWO_64, (base + b) % TWO_64, n);
    }
  }

  lemma WrappedSum(base: U64, a: nat)
    requires a < 4
    ensures (base + a) % TWO_64 == if base + a < TWO_64 then base + a else base + a - TWO_64
  {
    if base + a < TWO_64 {
      ModUnique(base + a, TWO_64, 0, base + a);
    } else {
      ModUnique(base + a, TWO_64, 1, base + a - TWO_64);
    }
  }

  /** Two slots of an assignment, for different roles, name the same actor exactly if
      both roles are pinned, or a pinned role's human is also on the other's position,
      or the two positions are one or carry the same id. */
  lemma ActorsMeetIff(p: RotationPolicy, item: RotationItem, cycle: U64, i: nat, j: nat)
    requires AssignmentOf(p, item, cycle).Ok?
    requires var s := AssignmentOf(p, item, cycle).value.slots;
             i < |s| && j < |s| && Ordinal(s[i].0) < Ordinal(s[j].0)
    ensures p.roster != []
    ensures var s := AssignmentOf(p, item, cycle).value.slots;
            var x, y := p.roster[Position(p, cycle, s[i].0)].id, p.roster[Position(p, cycle, s[j].0)].id;
            s[i].1 == s[j].1
            <==> match (RequiresHuman(p, s[i].0, item.criticality), RequiresHuman(p, s[j].0, item.criticality))
                 case (true, true) => true
                 case (true, false) => FirstHuman(p.roster) == Some(y)
                 case (false, true) => FirstHuman(p.roster) == Some(x)
                 case (false, false) => PositionsMeet(p, cycle, s[i].0, s[j].0) || x == y
  {
    AssignmentMeaning(p, item, cycle);
    var s := AssignmentOf(p, item, cycle).value.slots;
    PositionsMeetIff(p, cycle, s[i].0, s[j].0);
  }

  ghost predicate DistinctIds(roster: seq<Actor>) {
    forall i, j :: 0 <= i < j < |roster| ==> roster[i].id != roster[j].id
  }

  ghost predicate DistinctActors(slots: seq<(Role, ActorId)>) {
    forall i, j :: 0 <= i < |slots| && 0 <= j < |slots| && slots[i].0 != slots[j].0 ==> slots[i].1 != slots[j].1
  }

  /** With distinct ids and no role pinned, distinct roles get distinct actors exactly
      if no two of them meet; that is a condition on roster length, cadence and cycle. */
  lemma ActorsAreDistinctIff(p: RotationPolicy, item: RotationItem, cycle: U64)
    requires p.eligibleRoles != [] && p.roster != [] && DistinctIds(p.roster)
    requires forall role :: role in p.eligibleRoles ==> !RequiresHuman(p, role, item.criticality)
    ensures AssignmentOf(p, item, cycle).Ok?
    ensures DistinctActors(AssignmentOf(p, item, cycle).value.slots)
            <==> forall r, t :: r in p.eligibleRoles && t in p.eligibleRoles && Ordinal(r) < Ordinal(t) ==>
                   !PositionsMeet(p, cycle, r, t)
  {
    AssignmentMeaning(p, item, cycle);
    var s := AssignmentOf(p, item, cycle).value.slots;
    forall i, j | 0 <= i < |s| && 0 <= j < |s| && Ordinal(s[i].0) < Ordinal(s[j].0)
      ensures s[i].1 == s[j].1 <==> PositionsMeet(p, cycle, s[i].0, s[j].0)
    {
      PositionsMeetIff(p, cycle, s[i].0, s[j].0);
    }
    OrdinalsDiffer();
    if DistinctActors(s) {
      forall r, t | r in p.eligibleRoles && t in p.eligibleRoles && Ordinal(r) < Ordinal(t)
        ensures !PositionsMeet(p, cycle, r, t)
      {
        var i :| 0 <= i < |p.eligibleRoles| && p.eligibleRoles[i] == r;
        var j :| 0 <= j < |p.eligibleRoles| && p.eligibleRoles[j] == t;
        assert s[i].0 == r && s[j].0 == t;
      }
    }
  }

  lemma OrdinalsDiffer()
    ensures forall r, t :: r == t <==> Ordinal(r) == Ordinal(t)
  {}

  /** The documented promise: a roster of four or more, with distinct ids, no role
      pinned and no overflow, gives distinct roles distinct actors. */
  lemma LargeRosterKeepsActorsDistinct(p: RotationPolicy, item: RotationItem, cycle: U64)
    requires p.eligibleRoles != [] && |p.roster| >= 4 && DistinctIds(p.roster)
    requires forall role :: role in p.eligibleRoles ==> !RequiresHuman(p, role, item.criticality)
    requires SumFits(p, cycle, Tester)
    ensures AssignmentOf(p, item, cycle).Ok? && DistinctActors(AssignmentOf(p, item, cycle).value.slots)
  {
    ActorsAreDistinctIff(p, item, cycle);
    forall r, t | r in p.eligibleRoles && t in p.eligibleRoles && Ordinal(r) < Ordinal(t)
      ensures !PositionsMeet(p, cycle, r, t)
    {
      ModUnique(Ordinal(t) - Ordinal(r), |p.roster|, 0, Ordinal(t) - Ordinal(r));
    }
  }

  /** It fails for a roster that lists an actor twice ... */
  lemma RepeatedIdsMeet(item: RotationItem)
    ensures var p := RotationPolicy([Specifier, Designer], [Agent("a"), Agent("a"), Agent("b"), Agent("c")], 1, []);
            AssignmentOf(p, item, 0).Ok? && !DistinctActors(AssignmentOf(p, item, 0).value.slots)
  {
    TwoSlotsMeet(RotationPolicy([Specifier, Designer], [Agent("a"), Agent("a"), Agent("b"), Agent("c")], 1, []), item, 0);
  }

  function Agent(id: ActorId): Actor {
    Actor(id, false)
  }

  /** ... for two pinned roles ... */
  lemma PinnedRolesMeet(item: RotationItem)
    ensures var pins := [HumanOverride(Specifier, item.criticality), HumanOverride(Designer, item.criticality)];
            var p := RotationPolicy([Specifier, Designer], [Actor("a", true), Agent("b"), Agent("c"), Agent("d")], 1, pins);
            AssignmentOf(p, item, 0).Ok? && !DistinctActors(AssignmentOf(p, item, 0).value.slots)
  {
    var pins := [HumanOverride(Specifier, item.criticality), HumanOverride(Designer, item.criticality)];
    var p := RotationPolicy([Specifier, Designer], [Actor("a", true), Agent("b"), Agent("c"), Agent("d")], 1, pins);
    TwoSlotsMeet(p, item, 0);
  }

  /** ... and where the sum wraps: 5 divides 2^64 - 1. */
  lemma WrappedRolesMeet(item: RotationItem)
    ensures var p := RotationPolicy([Specifier, Designer], [Agent("a"), Agent("b"), Agent("c"), Agent("d"), Agent("e")], 1, []);
            AssignmentOf(p, item, TWO_64 - 1).Ok? && !DistinctActors(AssignmentOf(p, item, TWO_64 - 1).value.slots)
  {
    var p := RotationPolicy([Specifier, Designer], [Agent("a"), Agent("b"), Agent("c"), Agent("d"), Agent("e")], 1, []);
    TwoSlotsMeet(p, item, TWO_64 - 1);
  }

  lemma TwoSlotsMeet(p: RotationPolicy, item: RotationItem, cycle: U64)
    requires p.eligibleRoles == [Specifier, Designer] && p.roster != []
    requires ActorFor(p, item, cycle, Specifier).Some?
    requires ActorFor(p, item, cycle, Specifier) == ActorFor(p, item, cycle, Designer)
    ensures AssignmentOf(p, item, cycle).Ok? && !DistinctActors(AssignmentOf(p, item, cycle).value.slots)
  {
    AssignmentMeaning(p, item, cycle);
    var s := AssignmentOf(p, item, cycle).value.slots;
    assert s[0].0 == Specifier && s[1].0 == Designer && s[0].1 == s[1].1;
  }

  // ---- Hand-offs ----

  const MAX_HOPS := 16

  datatype Delegation = Delegation(originTask: TaskId, hops: nat, from: ActorId, to: ActorId)

  function Handoffs(a: Assignment): (r: seq<Delegation>)
  {
    seq(if a.slots == [] then 0 else |a.slots| - 1,
        i requires 0 <= i < |a.slots| - 1 => Delegation(a.originTask, i % 256, a.slots[i].1, a.slots[i + 1].1))
  }

  /** The hop counts pass the core limit, as documented, exactly for assignments of
      up to seventeen roles. */
  lemma HandoffsPassHopLimitIff(a: Assignment)
    ensures (forall i :: 0 <= i < |Handoffs(a)| ==> Handoffs(a)[i].hops < MAX_HOPS) <==> |a.slots| <= 17
  {
    if |a.slots| > 17 {
      assert Handoffs(a)[16].hops == 16;
    }
  }

  /** Eighteen eligible roles, repeats allowed, give a hand-off beyond the limit. */
  lemma EighteenRolesBreakTheHopLimit(item: RotationItem)
    ensures exists p, i :: AssignmentOf(p, item, 0).Ok? && 0 <= i < |Handoffs(AssignmentOf(p, item, 0).value)|
                           && Handoffs(AssignmentOf(p, item, 0).value)[i].hops >= MAX_HOPS
  {
    var p := RotationPolicy(seq(18, _ => Specifier), [Actor("a", true)], 1, []);
    AssignmentMeaning(p, item, 0);
    var a := AssignmentOf(p, item, 0).value;
    HandoffsPassHopLimitIff(a);
    assert Handoffs(a)[16].hops >= MAX_HOPS;
  }

  // ---- The assignment, written out ----

  /** Slot `i` goes to the first human if some override names its role and the item's
      criticality, and else to the roster position (cycle / cadence + ordinal) wrapped at
      64 bits, a cadence of 0 counting as 1. */
  lemma SlotIs(p: RotationPolicy, item: RotationItem, cycle: U64, i: nat)
    requires AssignmentOf(p, item, cycle).Ok? && i < |AssignmentOf(p, item, cycle).value.slots|
    ensures p.roster != [] && i < |p.eligibleRoles|
    ensures var slot := AssignmentOf(p, item, cycle).value.slots[i];
            && slot.0 == p.eligibleRoles[i]
            && var ordinal := match slot.0 { case Specifier => 0 case Designer => 1 case Developer => 2 case Tester => 3 };
               var base := if p.cadence == 0 then cycle else cycle / p.cadence;
               var sum := if base + ordinal < 0x1_0000_0000_0000_0000 then base + ordinal
                          else base + ordinal - 0x1_0000_0000_0000_0000;
               if exists o :: o in p.overrides && o.role == slot.0 && o.when == item.criticality then
                 exists h :: 0 <= h < |p.roster| && p.roster[h].isHuman && slot.1 == p.roster[h].id
                             && forall j :: 0 <= j < h ==> !p.roster[j].isHuman
               else slot.1 == p.roster[sum % |p.roster|].id
  {
    AssignmentMeaning(p, item, cycle);
    FirstHumanIsFirst(p.roster);
    var role := p.eligibleRoles[i];
    PinnedIff(p, role, item.criticality);
    QuotientIsSmaller(cycle, Cadence(p));
    WrappedSum(cycle / Cadence(p), Ordinal(role));
  }

  lemma PinnedIff(p: RotationPolicy, role: Role, crit: Criticality)
    ensures RequiresHuman(p, role, crit) <==> exists o :: o in p.overrides && o.role == role && o.when == crit
  {
    assert forall o: HumanOverride :: o.role == role && o.when == crit ==> o == HumanOverride(role, crit);
    assert HumanOverride(role, crit).role == role && HumanOverride(role, crit).when == crit;
  }

  /** The errors: no roles, then no actors, then the first role that is pinned while the
      roster has no human. */
  lemma FailureIs(p: RotationPolicy, item: RotationItem, cycle: U64)
    ensures p.eligibleRoles == [] <==> AssignmentOf(p, item, cycle) == Err(NoRoles)
    ensures p.eligibleRoles != [] && p.roster == [] <==> AssignmentOf(p, item, cycle) == Err(EmptyRoster)
    ensures forall i :: 0 <= i < |p.eligibleRoles| && p.roster != [] && Lacks(p, item, i)
                        && (forall j :: 0 <= j < i ==> !Lacks(p, item, j)) ==>
              AssignmentOf(p, item, cycle) == Err(NoHumanAvailable(p.eligibleRoles[i]))
  {
    if p.roster != [] {
      forall i | 0 <= i < |p.eligibleRoles| && Lacks(p, item, i) && (forall j :: 0 <= j < i ==> !Lacks(p, item, j))
        ensures AssignmentOf(p, item, cycle) == Err(NoHumanAvailable(p.eligibleRoles[i]))
      {
        FirstLack(p, item, cycle, i);
      }
      SlotsFailForHumans(p, item, cycle, |p.eligibleRoles|);
    }
  }

  ghost predicate Lacks(p: RotationPolicy, item: RotationItem, i: nat)
    requires i < |p.eligibleRoles|
  {
    RequiresHuman(p, p.eligibleRoles[i], item.criticality) && forall k :: 0 <= k < |p.roster| ==> !p.roster[k].isHuman
  }

  lemma LacksIff(p: RotationPolicy, item: RotationItem, cycle: U64, i: nat)
    requires i < |p.eligibleRoles| && p.roster != []
    ensures Lacks(p, item, i) <==> ActorFor(p, item, cycle, p.eligibleRoles[i]).None?
  {
    FirstHumanIsFirst(p.roster);
  }

  lemma FirstLack(p: RotationPolicy, item: RotationItem, cycle: U64, i: nat)
    requires i < |p.eligibleRoles| && p.roster != [] && Lacks(p, item, i) && forall j :: 0 <= j < i ==> !Lacks(p, item, j)
    ensures AssignmentOf(p, item, cycle) == Err(NoHumanAvailable(p.eligibleRoles[i]))
  {
    forall j | 0 <= j <= i
      ensures Lacks(p, item, j) <==> ActorFor(p, item, cycle, p.eligibleRoles[j]).None?
    {
      LacksIff(p, item, cycle, j);
    }
    SlotsMeaning(p, item, cycle, i);
    FailsAt(p, item, cycle, i);
  }

  lemma FailsAt(p: RotationPolicy, item: RotationItem, cycle: U64, i: nat)
    requires i < |p.eligibleRoles| && p.roster != []
    requires Slots(p, item, cycle, i).Ok? && ActorFor(p, item, cycle, p.eligibleRoles[i]).None?
    ensures AssignmentOf(p, item, cycle) == Err(NoHumanAvailable(p.eligibleRoles[i]))
  {
    assert Slots(p, item, cycle, i + 1) == Err(NoHumanAvailable(p.eligibleRoles[i]));
    FailureSticks(p, item, cycle, i + 1, |p.eligibleRoles|);
  }

  lemma {:induction false} SlotsFailForHumans(p: RotationPolicy, item: RotationItem, cycle: U64, k: nat)
    requires p.roster != [] && k <= |p.eligibleRoles|
    ensures Slots(p, item, cycle, k).Err? ==> Slots(p, item, cycle, k).error.NoHumanAvailable?
  {
    if k > 0 {
      SlotsFailForHumans(p, item, cycle, k - 1);
    }
  }

  /** One hand-off per pair of neighbours, from the one to the other, for the item's task,
      its hop count their place truncated to 8 bits. */
  lemma HandoffIs(a: Assignment, i: nat)
    requires i + 1 < |a.slots|
    ensures |Handoffs(a)| == |a.slots| - 1
    ensures Handoffs(a)[i] == Delegation(a.originTask, i % 256, a.slots[i].1, a.slots[i + 1].1)
  {}
}
