/** crates/plugin-withdrawal-scheduler/src/lib.rs: expanding intervals and plans. */
module Withdrawal {
  import opened Types
  import opened ModArith

  datatype ExpansionPolicy = ExpansionPolicy(baseDays: U32, factorPercent: U32, capDays: U32)

  // ---- Intervals ----

  function SaturatingMul(a: U64, b: U64): U64 {
    MulMono(0, b, a, b);
    if a * b < TWO_64 then a * b else TWO_64 - 1
  }

  /** One round of the loop, without saturation and cap. */
  function Grown(p: ExpansionPolicy, value: nat): nat {
    value * p.factorPercent / 100
  }

  /** The loop: `n` more rounds from `value`, leaving early at the cap. */
  function Ladder(p: ExpansionPolicy, value: nat, n: nat): nat
    decreases n
  {
    if n == 0 then (if value < p.capDays then value else p.capDays)
    else if Grown(p, value) >= p.capDays then p.capDays
    else Ladder(p, Grown(p, value), n - 1)
  }

  function Interval(p: ExpansionPolicy, n: nat): nat {
    Ladder(p, p.baseDays, n)
  }

  /** For every policy, accepted or not, the product stays far below the width:
      saturation never happens. */
  method IntervalDays(p: ExpansionPolicy, n: U32) returns (days: U32)
    ensures days == Interval(p, n)
  {
    var value: U64 := p.baseDays;
    var i := 0;
    while i < n
      invariant 0 <= i <= n && value <= U32_MAX
      invariant Interval(p, n) == Ladder(p, value, n - i)
    {
      ProductFits(value, p.factorPercent);
      value := SaturatingMul(value, p.factorPercent) / 100;
      if value >= p.capDays {
        return p.capDays;
      }
      i := i + 1;
    }
    return if value < p.capDays then value else p.capDays;
  }

  lemma ProductFits(a: U32, b: U32)
    ensures 0 <= a * b < TWO_64
    ensures SaturatingMul(a, b) == a * b
  {
    MulMono(a, b, U32_MAX, U32_MAX);
  }

  // ---- Which policies are accepted ----

  datatype ScheduleError = InvalidPolicy(why: string)

  /** `Scheduler::new` */
  function CheckPolicy(p: ExpansionPolicy): Result<(), ScheduleError> {
    if p.baseDays == 0 then Err(InvalidPolicy("base_days must be > 0"))
    else if p.factorPercent <= 100 then Err(InvalidPolicy("factor_percent must be > 100 so intervals expand"))
    else if p.capDays < p.baseDays then Err(InvalidPolicy("cap_days must be >= base_days"))
    else if Grown(p, p.baseDays) <= p.baseDays && p.baseDays < p.capDays then
      Err(InvalidPolicy("base_days too small for factor_percent"))
    else Ok(())
  }

  predicate Accepted(p: ExpansionPolicy) {
    CheckPolicy(p).Ok?
  }

  /** Each interval is longer than the one before until the cap is reached. */
  ghost predicate Expands(p: ExpansionPolicy) {
    forall n: nat :: Interval(p, n) < p.capDays ==> Interval(p, n + 1) > Interval(p, n)
  }

  lemma GrowthPersists(p: ExpansionPolicy, v: nat)
    requires Accepted(p) && p.baseDays < p.capDays && v >= p.baseDays
    ensures Grown(p, v) > v
  {
    var f := p.factorPercent;
    assert p.baseDays * f >= 100 * (p.baseDays + 1);
    assert p.baseDays * (f - 100) >= 100;
    MulMono(p.baseDays, f - 100, v, f - 100);
    assert v * f == v * (f - 100) + 100 * v;
  }

  /** The recurrence without the cap. */
  function Uncapped(p: ExpansionPolicy, n: nat): nat {
    if n == 0 then p.baseDays else Grown(p, Uncapped(p, n - 1))
  }

  /** The intervals are the uncapped recurrence cut off at the cap. */
  lemma {:induction false} IntervalIsCappedRecurrence(p: ExpansionPolicy, n: nat)
    requires Accepted(p)
    ensures Uncapped(p, n) >= p.baseDays
    ensures Interval(p, n) == if Uncapped(p, n) < p.capDays then Uncapped(p, n) else p.capDays
  {
    UncappedGrows(p, n);
    LadderFrom(p, 0, n);
  }

  lemma {:induction false} UncappedGrows(p: ExpansionPolicy, n: nat)
    requires Accepted(p)
    ensures Uncapped(p, n) >= p.baseDays
    ensures p.baseDays < p.capDays ==> Uncapped(p, n + 1) > Uncapped(p, n)
    ensures Uncapped(p, n + 1) >= Uncapped(p, n)
  {
    if n > 0 {
      UncappedGrows(p, n - 1);
    }
    if p.baseDays < p.capDays {
      GrowthPersists(p, Uncapped(p, n));
    } else {
      var v := Uncapped(p, n);
      MulMono(v, 100, v, p.factorPercent);
    }
  }

  lemma {:induction false} LadderFrom(p: ExpansionPolicy, k: nat, n: nat)
    requires Accepted(p)
    ensures Ladder(p, Uncapped(p, k), n)
            == if Uncapped(p, k + n) < p.capDays then Uncapped(p, k + n) else p.capDays
    decreases n
  {
    if n > 0 {
      UncappedNeverShrinks(p, k + 1, n - 1);
      LadderFrom(p, k + 1, n - 1);
    }
  }

  lemma {:induction false} UncappedNeverShrinks(p: ExpansionPolicy, k: nat, n: nat)
    requires Accepted(p)
    ensures Uncapped(p, k + n) >= Uncapped(p, k)
  {
    if n > 0 {
      UncappedNeverShrinks(p, k, n - 1);
      UncappedGrows(p, k + n - 1);
    }
  }

  /** For every accepted policy: intervals stay within [base, cap], grow strictly
      until the cap, and stay at the cap from step cap - base on at the latest. */
  lemma IntervalsExpandToTheCap(p: ExpansionPolicy, n: nat)
    requires Accepted(p)
    ensures p.baseDays <= Interval(p, n) <= p.capDays
    ensures Interval(p, n) < p.capDays ==> Interval(p, n + 1) > Interval(p, n)
    ensures Interval(p, n) == p.capDays ==> Interval(p, n + 1) == p.capDays
    ensures n >= p.capDays - p.baseDays ==> Interval(p, n) == p.capDays
  {
    IntervalIsCappedRecurrence(p, n);
    IntervalIsCappedRecurrence(p, n + 1);
    UncappedGrows(p, n);
    if p.baseDays < p.capDays {
      GrowsByOne(p, n);
    }
  }

  lemma {:induction false} GrowsByOne(p: ExpansionPolicy, n: nat)
    requires Accepted(p) && p.baseDays < p.capDays
    ensures Uncapped(p, n) >= p.baseDays + n
  {
    if n > 0 {
      GrowsByOne(p, n - 1);
      UncappedGrows(p, n - 1);
    }
  }

  /** The checks in `new` are exact: a policy is accepted if and only if the base is
      positive, the factor above 100, the cap not below the base, and it expands. */
  lemma AcceptedIffExpanding(p: ExpansionPolicy)
    ensures Accepted(p) <==> p.baseDays > 0 && p.factorPercent > 100 && p.capDays >= p.baseDays && Expands(p)
  {
    if Accepted(p) {
      forall n: nat
        ensures Interval(p, n) < p.capDays ==> Interval(p, n + 1) > Interval(p, n)
      {
        IntervalsExpandToTheCap(p, n);
      }
    } else if p.baseDays > 0 && p.factorPercent > 100 && p.capDays >= p.baseDays {
      assert Interval(p, 0) == p.baseDays;
      assert Ladder(p, Grown(p, p.baseDays), 0) == Grown(p, p.baseDays);
      assert Interval(p, 1) <= Interval(p, 0);
      assert Interval(p, 0 + 1) == Interval(p, 1);
    }
  }

  // ---- The closed form in the documentation ----

  function Power(b: nat, n: nat): (r: nat)
    ensures b > 0 ==> r > 0
  {
    if n == 0 then 1
    else
      MulMono(1, 1, if b > 0 then b else 1, if b > 0 then Power(b, n - 1) else 1);
      MulMono(0, Power(b, n - 1), b, Power(b, n - 1));
      b * Power(b, n - 1)
  }

  /** base * (factor / 100)^n, truncated once at the end. */
  function ClosedForm(p: ExpansionPolicy, n: nat): int {
    p.baseDays * Power(p.factorPercent, n) / Power(100, n)
  }

  /** What truncating at every step loses against base * (factor/100)^n, times 100^n. */
  function Loss(p: ExpansionPolicy, n: nat): int {
    p.baseDays * Power(p.factorPercent, n) - Power(100, n) * Uncapped(p, n)
  }

  lemma LossStep(p: ExpansionPolicy, n: nat)
    ensures 0 <= Loss(p, n + 1) - p.factorPercent * Loss(p, n) <= 99 * Power(100, n)
  {
    var f, r, h, y := p.factorPercent, Uncapped(p, n), Power(100, n), Power(p.factorPercent, n);
    var e := r * f % 100;
    LossArithmetic(p.baseDays, f, r, h, y, e, Uncapped(p, n + 1));
  }

  lemma LossArithmetic(base: nat, f: nat, r: nat, h: nat, y: nat, e: nat, next: nat)
    requires 100 * next == r * f - e && e <= 99
    ensures 0 <= (base * (f * y) - (100 * h) * next) - f * (base * y - h * r) <= 99 * h
  {
    MulAssoc(base, f, y);
    MulAssoc(f, base, y);
    assert base * (f * y) == f * (base * y);
    MulAssoc(h, 100, next);
    assert (100 * h) * next == h * (r * f - e);
    MulDistributes(h, r * f, e);
    MulDistributes(f, base * y, h * r);
    MulAssoc(h, r, f);
    assert f * (h * r) == h * (r * f);
    MulMono(h, e, h, 99);
  }

  /** The documented closed form bounds the recurrence from above, and the
      recurrence falls short by a bounded amount. */
  lemma {:induction false} ClosedFormBounds(p: ExpansionPolicy, n: nat)
    requires p.factorPercent > 100
    ensures 0 <= Loss(p, n)
    ensures (p.factorPercent - 100) * Loss(p, n) <= 99 * (Power(p.factorPercent, n) - Power(100, n))
  {
    if n > 0 {
      ClosedFormBounds(p, n - 1);
      LossStep(p, n - 1);
      BoundStep(p.factorPercent, Loss(p, n), Loss(p, n - 1), Power(p.factorPercent, n - 1), Power(100, n - 1));
    }
  }

  lemma BoundStep(f: nat, d: int, x: int, y: nat, h: nat)
    requires f > 100 && 0 <= x && 0 <= d - f * x <= 99 * h
    requires (f - 100) * x <= 99 * (y - h)
    ensures 0 <= d && (f - 100) * d <= 99 * (f * y - 100 * h)
  {
    var g := f - 100;
    MulMono(0, x, f, x);
    MulLe(g, d - f * x, 99 * h);
    MulDistributes(g, d, f * x);
    MulSwap(g, f, x);
    MulLe(f, g * x, 99 * (y - h));
    assert g * d <= f * (99 * (y - h)) + g * (99 * h);
    BoundArithmetic(f, g, y, h);
  }

  lemma BoundArithmetic(f: int, g: int, y: int, h: int)
    requires g == f - 100
    ensures f * (99 * (y - h)) + g * (99 * h) == 99 * (f * y - 100 * h)
  {
    MulSwap(f, 99, y - h);
    MulDistributes(f, y, h);
    MulSwap(g, 99, h);
  }

  /** The interval is an iterated floor, not the floor of the closed form: from 7
      days at 150% the third step gives 22, where the closed form gives 23. */
  lemma ClosedFormFails()
    ensures var p := ExpansionPolicy(7, 150, 90);
            Accepted(p) && Interval(p, 3) == 22 && ClosedForm(p, 3) == 23
  {
    var p := ExpansionPolicy(7, 150, 90);
    assert Grown(p, 7) == 10 && Grown(p, 10) == 15 && Grown(p, 15) == 22;
    assert Ladder(p, 22, 0) == 22 && Ladder(p, 15, 1) == 22 && Ladder(p, 10, 2) == 22;
    assert Power(150, 1) == 150 && Power(150, 2) == 22500 && Power(150, 3) == 3375000;
    assert Power(100, 1) == 100 && Power(100, 2) == 10000 && Power(100, 3) == 1000000;
  }

  /** At one step the two agree exactly while the scaled loss is below one day. */
  lemma AgreesIffLossIsBelowOne(p: ExpansionPolicy, n: nat)
    requires p.factorPercent > 100
    ensures Uncapped(p, n) == ClosedForm(p, n) <==> Loss(p, n) < Power(100, n)
    ensures Uncapped(p, n) <= ClosedForm(p, n)
  {
    ClosedFormBounds(p, n);
    QuotientIff(p.baseDays * Power(p.factorPercent, n), Power(100, n), Uncapped(p, n));
  }

  lemma QuotientIff(a: int, h: nat, r: int)
    requires h > 0 && h * r <= a
    ensures r == a / h <==> a - h * r < h
    ensures r <= a / h
  {
    var q := a / h;
    assert a == h * q + a % h;
    if q < r {
      MulLe(h, q + 1, r);
    } else if r < q && a - h * r < h {
      MulLe(h, r + 1, q);
    }
  }

  lemma {:induction false} WholeFactorLosesNothing(p: ExpansionPolicy, n: nat)
    requires p.factorPercent % 100 == 0
    ensures Loss(p, n) == 0
  {
    if n > 0 {
      WholeFactorLosesNothing(p, n - 1);
      WholeFactorStep(p.baseDays, p.factorPercent, Uncapped(p, n - 1), Power(100, n - 1),
                      Power(p.factorPercent, n - 1), Uncapped(p, n));
    }
  }

  lemma WholeFactorStep(base: nat, f: nat, r: nat, h: nat, y: nat, next: nat)
    requires f % 100 == 0 && next == r * f / 100 && base * y == h * r
    ensures base * (f * y) == (100 * h) * next
  {
    MulSwap(r, 100, f / 100);
    assert 100 * next == r * f;
    MulSwap(base, f, y);
    MulAssoc(h, 100, next);
    MulSwap(f, h, r);
  }

  // ---- When the closed form is right ----

  function Beyond(q: nat, value: nat, next: nat): nat {
    if next >= q * value then next - q * value else 0
  }

  /** The steps, then what they are beyond the whole part of the factor, then what
      those are beyond it, and so on. */
  function Beyonds(p: ExpansionPolicy, k: nat, n: nat): nat {
    if k == 0 then Uncapped(p, n)
    else Beyond(p.factorPercent / 100, Beyonds(p, k - 1, n), Beyonds(p, k - 1, n + 1))
  }

  ghost predicate NeverLoses(p: ExpansionPolicy) {
    forall n: nat :: Loss(p, n) == 0
  }

  lemma {:induction false} BeyondsGrowAlike(p: ExpansionPolicy, k: nat, n: nat)
    requires NeverLoses(p)
    ensures 100 * Beyonds(p, k, n + 1) == p.factorPercent * Beyonds(p, k, n)
    decreases k
  {
    if k == 0 {
      LosslessStep(p, n);
    } else {
      var f := p.factorPercent;
      var x, y, z := Beyonds(p, k - 1, n), Beyonds(p, k - 1, n + 1), Beyonds(p, k - 1, n + 2);
      BeyondsGrowAlike(p, k - 1, n);
      BeyondsGrowAlike(p, k - 1, n + 1);
      BeyondIsPart(f, f / 100, f % 100, x, y);
      BeyondIsPart(f, f / 100, f % 100, y, z);
      BeyondGrowsAlike(f, f % 100, x, y, Beyonds(p, k, n), Beyonds(p, k, n + 1));
    }
  }

  /** With a factor that is not whole they would shrink for ever. */
  lemma {:induction false} BeyondsShrink(p: ExpansionPolicy, k: nat)
    requires NeverLoses(p) && p.baseDays > 0 && p.factorPercent % 100 != 0
    ensures 0 < Beyonds(p, k, 0) <= p.baseDays - k
  {
    if k > 0 {
      var f := p.factorPercent;
      BeyondsShrink(p, k - 1);
      BeyondsGrowAlike(p, k - 1, 0);
      BeyondIsPart(f, f / 100, f % 100, Beyonds(p, k - 1, 0), Beyonds(p, k - 1, 1));
      ExcessIsSmaller(f % 100, Beyonds(p, k - 1, 0), Beyonds(p, k, 0));
    }
  }

  lemma BeyondIsPart(f: nat, q: nat, s: nat, value: nat, next: nat)
    requires f == 100 * q + s && 100 * next == f * value
    ensures 100 * Beyond(q, value, next) == s * value
  {
    assert f * value == 100 * (q * value) + s * value;
    MulMono(0, 0, s, value);
  }

  lemma BeyondGrowsAlike(f: nat, s: nat, value: nat, next: nat, u: nat, v: nat)
    requires 100 * u == s * value && 100 * v == s * next && 100 * next == f * value
    ensures 100 * v == f * u
  {
    assert 100 * (100 * v) == s * (100 * next) == s * (f * value);
    MulSwap(s, f, value);
    assert 100 * (f * u) == f * (100 * u) == f * (s * value);
  }

  lemma ExcessIsSmaller(s: nat, r: nat, u: nat)
    requires 0 < s < 100 && r > 0 && 100 * u == s * r
    ensures 0 < u < r
  {
    MulMono(1, 1, s, r);
    MulMono(s, r, 99, r);
  }

  /** With a factor that is not whole something is lost at some step. */
  lemma SomethingIsLost(p: ExpansionPolicy) returns (m: nat)
    requires p.baseDays > 0 && p.factorPercent > 100 && p.factorPercent % 100 != 0
    ensures Loss(p, m) >= 1
  {
    if NeverLoses(p) {
      BeyondsShrink(p, p.baseDays);
    }
    m :| Loss(p, m) != 0;
    ClosedFormBounds(p, m);
  }

  lemma LosslessStep(p: ExpansionPolicy, n: nat)
    requires Loss(p, n) == 0 && Loss(p, n + 1) == 0
    ensures 100 * Uncapped(p, n + 1) == p.factorPercent * Uncapped(p, n)
  {
    var f, r, h, y, next := p.factorPercent, Uncapped(p, n), Power(100, n), Power(p.factorPercent, n), Uncapped(p, n + 1);
    MulSwap(p.baseDays, f, y);
    MulSwap(f, h, r);
    MulAssoc(h, 100, next);
    assert h * (100 * next) == h * (f * r);
    MulCancel(h, 100 * next, f * r);
  }

  /** A loss grows with the factor. */
  lemma {:induction false} LossGrows(p: ExpansionPolicy, m: nat, k: nat)
    requires p.factorPercent > 100
    ensures Loss(p, m + k) >= Power(p.factorPercent, k) * Loss(p, m)
    decreases k
  {
    if k > 0 {
      var f, x, y := p.factorPercent, Loss(p, m + k - 1), Power(p.factorPercent, k - 1) * Loss(p, m);
      LossGrows(p, m, k - 1);
      LossStep(p, m + k - 1);
      MulLe(f, y, x);
      MulAssoc(f, Power(f, k - 1), Loss(p, m));
    }
  }

  /** Once a day is lost it stays lost. */
  lemma {:induction false} LossStaysAboveOne(p: ExpansionPolicy, m: nat, k: nat)
    requires p.factorPercent > 100 && Loss(p, m) >= Power(100, m)
    ensures Loss(p, m + k) >= Power(100, m + k)
    decreases k
  {
    if k > 0 {
      LossStaysAboveOne(p, m, k - 1);
      LossStep(p, m + k - 1);
      MulMono(100, Power(100, m + k - 1), p.factorPercent, Loss(p, m + k - 1));
    }
  }

  lemma {:induction false} Bernoulli(f: nat, k: nat)
    requires f > 100
    ensures 100 * Power(f, k) >= Power(100, k) * (100 + k)
  {
    if k > 0 {
      var h, y := Power(100, k - 1), Power(f, k - 1);
      Bernoulli(f, k - 1);
      MulMono(101, 100 * y, f, 100 * y);
      MulSwap(100, f, y);
      MulMono(101, h * (99 + k), 101, 100 * y);
      BernoulliStep(h, k);
    }
  }

  lemma BernoulliStep(h: nat, k: nat)
    requires k > 0
    ensures 101 * (h * (99 + k)) >= (100 * h) * (100 + k)
  {
    MulSwap(101, h, 99 + k);
    MulSwap(h, 100, 100 + k);
    MulAssoc(100, h, 100 + k);
    MulLe(h, 100 * (100 + k), 101 * (99 + k));
  }

  lemma {:induction false} PowerAdds(b: nat, m: nat, k: nat)
    ensures Power(b, m + k) == Power(b, m) * Power(b, k)
    decreases k
  {
    if k > 0 {
      PowerAdds(b, m, k - 1);
      MulSwap(b, Power(b, m), Power(b, k - 1));
    }
  }

  /** Whatever was lost at step `m` has grown to a day after enough steps. */
  lemma LossOvertakes(p: ExpansionPolicy, m: nat) returns (n: nat)
    requires p.factorPercent > 100 && Loss(p, m) >= 1
    ensures Loss(p, n) >= Power(100, n)
  {
    var f, h := p.factorPercent, Power(100, m);
    var k := 100 * h;
    n := m + k;
    LossGrows(p, m, k);
    MulLe(Power(f, k), 1, Loss(p, m));
    Bernoulli(f, k);
    PowerAdds(100, m, k);
    var z := Power(100, k);
    MulDistributes(z, 100, 100 * h);
    MulSwap(z, 100, h);
    MulSwap(h, z, 1);
  }

  /** The documented closed form, truncated once, is what the steps give for ever
      exactly if the factor is a whole number. */
  lemma ClosedFormHoldsIffFactorIsWhole(p: ExpansionPolicy)
    requires p.baseDays > 0 && p.factorPercent > 100
    ensures (forall n: nat :: Uncapped(p, n) == ClosedForm(p, n)) <==> p.factorPercent % 100 == 0
  {
    if p.factorPercent % 100 == 0 {
      forall n: nat
        ensures Uncapped(p, n) == ClosedForm(p, n)
      {
        WholeFactorLosesNothing(p, n);
        AgreesIffLossIsBelowOne(p, n);
      }
    } else {
      var m := SomethingIsLost(p);
      var n := LossOvertakes(p, m);
      AgreesIffLossIsBelowOne(p, n);
    }
  }

  /** The documented interval: `min(base * factor^n, cap)`. */
  function DocumentedInterval(p: ExpansionPolicy, n: nat): int {
    if ClosedForm(p, n) < p.capDays then ClosedForm(p, n) else p.capDays
  }

  lemma DocumentedIffCappedOrAgrees(p: ExpansionPolicy, n: nat)
    requires Accepted(p)
    ensures Interval(p, n) == DocumentedInterval(p, n)
            <==> Interval(p, n) == p.capDays || Loss(p, n) < Power(100, n)
  {
    IntervalIsCappedRecurrence(p, n);
    AgreesIffLossIsBelowOne(p, n);
  }

  /** There is a last step below the cap, unless the base is the cap already. */
  lemma LastStepExists(p: ExpansionPolicy) returns (last: nat)
    requires Accepted(p)
    ensures Interval(p, last + 1) == p.capDays && (last == 0 || Interval(p, last) < p.capDays)
  {
    last := p.capDays - p.baseDays;
    IntervalsExpandToTheCap(p, last);
    IntervalsExpandToTheCap(p, last + 1);
    while last > 0 && Interval(p, last) == p.capDays
      invariant Interval(p, last + 1) == p.capDays
    {
      IntervalsExpandToTheCap(p, last - 1);
      last := last - 1;
    }
    IntervalsExpandToTheCap(p, last);
  }

  lemma {:induction false} StaysCapped(p: ExpansionPolicy, m: nat, k: nat)
    requires Accepted(p) && Interval(p, m) == p.capDays
    ensures Interval(p, m + k) == p.capDays
    decreases k
  {
    if k > 0 {
      StaysCapped(p, m, k - 1);
      IntervalsExpandToTheCap(p, m + k - 1);
    }
  }

  /** All intervals are the documented ones exactly if the last one below the cap is:
      one comparison decides for a whole policy. */
  lemma DocumentedIffAtLastStep(p: ExpansionPolicy, last: nat)
    requires Accepted(p)
    requires Interval(p, last + 1) == p.capDays && (last == 0 || Interval(p, last) < p.capDays)
    ensures (forall n: nat :: Interval(p, n) == DocumentedInterval(p, n))
            <==> Interval(p, last) == DocumentedInterval(p, last)
    ensures p.factorPercent % 100 == 0 ==> Interval(p, last) == DocumentedInterval(p, last)
  {
    DocumentedIffCappedOrAgrees(p, last);
    if p.factorPercent % 100 == 0 {
      WholeFactorLosesNothing(p, last);
    }
    if Interval(p, last) == DocumentedInterval(p, last) {
      forall n: nat
        ensures Interval(p, n) == DocumentedInterval(p, n)
      {
        DocumentedIffCappedOrAgrees(p, n);
        if n > last {
          StaysCapped(p, last + 1, n - last - 1);
        } else if Loss(p, n) >= Power(100, n) {
          LossStaysAboveOne(p, n, last - n);
          StepZeroLosesNothing(p);
        }
      }
    }
  }

  lemma StepZeroLosesNothing(p: ExpansionPolicy)
    ensures Loss(p, 0) == 0
  {}

  // ---- Plans ----

  // Instants are whole nanoseconds; the last one a timestamp can hold is a parameter.
  const DAY: int := 86_400_000_000_000

  datatype SeedEvent = SeedEvent(actor: ActorId, task: TaskId, lastPracticed: Timestamp, priorSessions: U32)

  datatype PlannedSession = PlannedSession(
    actor: ActorId, task: TaskId, index: U32, scheduledAt: Timestamp, intervalDays: nat)

  function SaturatingAdd(a: U32, b: nat): U32 {
    if a + b <= U32_MAX then a + b else U32_MAX
  }

  function AddDays(at: Timestamp, days: nat, last: Timestamp): Timestamp {
    if at + days * DAY <= last then at + days * DAY else last
  }

  /** When session `k` of a seed is planned; session 0 counts as the last practice. */
  function TimeOf(p: ExpansionPolicy, s: SeedEvent, last: Timestamp, k: nat): Timestamp {
    if k == 0 then s.lastPracticed
    else AddDays(TimeOf(p, s, last, k - 1), Interval(p, SaturatingAdd(s.priorSessions, k - 1)), last)
  }

  function Session(p: ExpansionPolicy, s: SeedEvent, last: Timestamp, step: nat): PlannedSession {
    var index := SaturatingAdd(s.priorSessions, step);
    PlannedSession(s.actor, s.task, index, TimeOf(p, s, last, step + 1), Interval(p, index))
  }

  function SeedPlan(p: ExpansionPolicy, s: SeedEvent, last: Timestamp, count: nat): seq<PlannedSession> {
    seq(count, step requires 0 <= step < count => Session(p, s, last, step))
  }

  function PlanOf(p: ExpansionPolicy, seeds: seq<SeedEvent>, last: Timestamp, count: nat): seq<PlannedSession> {
    if seeds == [] then []
    else PlanOf(p, seeds[..|seeds| - 1], last, count) + SeedPlan(p, seeds[|seeds| - 1], last, count)
  }

  method Plan(p: ExpansionPolicy, seeds: seq<SeedEvent>, count: U32, last: Timestamp)
    returns (sessions: seq<PlannedSession>)
    ensures sessions == PlanOf(p, seeds, last, count)
  {
    sessions := [];
    for i := 0 to |seeds|
      invariant sessions == PlanOf(p, seeds[..i], last, count)
    {
      var seed := seeds[i];
      var anchor := seed.lastPracticed;
      ghost var before := sessions;
      for step := 0 to count
        invariant anchor == TimeOf(p, seed, last, step)
        invariant sessions == before + SeedPlan(p, seed, last, step)
      {
        var index := SaturatingAdd(seed.priorSessions, step);
        var days := IntervalDays(p, index);
        anchor := AddDays(anchor, days, last);
        sessions := sessions + [PlannedSession(seed.actor, seed.task, index, anchor, days)];
        assert SeedPlan(p, seed, last, step + 1) == SeedPlan(p, seed, last, step) + [Session(p, seed, last, step)];
      }
      assert seeds[..i + 1][..i] == seeds[..i];
    }
    assert seeds[..|seeds|] == seeds;
  }

  lemma {:induction false} PlanLength(p: ExpansionPolicy, seeds: seq<SeedEvent>, last: Timestamp, count: nat)
    ensures |PlanOf(p, seeds, last, count)| == |seeds| * count
  {
    if seeds != [] {
      PlanLength(p, seeds[..|seeds| - 1], last, count);
      MulDistributes(count, |seeds| - 1, 1);
    }
  }

  lemma {:induction false} PlanAppend(p: ExpansionPolicy, a: seq<SeedEvent>, b: seq<SeedEvent>, last: Timestamp, count: nat)
    ensures PlanOf(p, a + b, last, count) == PlanOf(p, a, last, count) + PlanOf(p, b, last, count)
  {
    if b == [] {
      assert a + b == a;
    } else {
      assert (a + b)[..|a + b| - 1] == a + b[..|b| - 1];
      PlanAppend(p, a, b[..|b| - 1], last, count);
    }
  }

  /** Every seed gets its `count` sessions, after those of the seeds before it. */
  lemma PlanIsInSeedOrder(p: ExpansionPolicy, seeds: seq<SeedEvent>, last: Timestamp, count: nat, i: nat)
    requires i < |seeds|
    ensures |PlanOf(p, seeds, last, count)| == |seeds| * count
    ensures |PlanOf(p, seeds[..i], last, count)| == i * count
    ensures PlanOf(p, seeds, last, count)
            == PlanOf(p, seeds[..i], last, count) + SeedPlan(p, seeds[i], last, count)
               + PlanOf(p, seeds[i + 1..], last, count)
  {
    PlanLength(p, seeds, last, count);
    PlanLength(p, seeds[..i], last, count);
    assert seeds == seeds[..i + 1] + seeds[i + 1..];
    PlanAppend(p, seeds[..i + 1], seeds[i + 1..], last, count);
    assert seeds[..i + 1][..i] == seeds[..i];
  }

  /** The days up to session `k`. */
  function DaysUpTo(p: ExpansionPolicy, s: SeedEvent, k: nat): nat {
    if k == 0 then 0 else DaysUpTo(p, s, k - 1) + Interval(p, SaturatingAdd(s.priorSessions, k - 1))
  }

  /** The k-th time is the anchor plus the intervals so far, until the last instant
      is reached; it then stays there. */
  lemma {:induction false} TimesArePrefixSums(p: ExpansionPolicy, s: SeedEvent, last: Timestamp, k: nat)
    requires s.lastPracticed <= last
    ensures var t := s.lastPracticed + DaysUpTo(p, s, k) * DAY;
            TimeOf(p, s, last, k) == if t <= last then t else last
  {
    if k > 0 {
      TimesArePrefixSums(p, s, last, k - 1);
    }
  }

  lemma SessionsMoveForward(p: ExpansionPolicy, s: SeedEvent, last: Timestamp, k: nat)
    requires Accepted(p) && s.lastPracticed <= last
    ensures TimeOf(p, s, last, k) <= TimeOf(p, s, last, k + 1) <= last
    ensures TimeOf(p, s, last, k) < last ==> TimeOf(p, s, last, k) < TimeOf(p, s, last, k + 1)
  {
    TimesArePrefixSums(p, s, last, k);
    TimesArePrefixSums(p, s, last, k + 1);
    IntervalsExpandToTheCap(p, SaturatingAdd(s.priorSessions, k));
  }

  /** The seed as it stands after `a` planned sessions were held on time. */
  function Advanced(p: ExpansionPolicy, s: SeedEvent, last: Timestamp, a: nat): SeedEvent {
    s.(lastPracticed := TimeOf(p, s, last, a), priorSessions := SaturatingAdd(s.priorSessions, a))
  }

  lemma {:induction false} TimesResume(p: ExpansionPolicy, s: SeedEvent, last: Timestamp, a: nat, k: nat)
    ensures TimeOf(p, Advanced(p, s, last, a), last, k) == TimeOf(p, s, last, a + k)
  {
    if k > 0 {
      TimesResume(p, s, last, a, k - 1);
    }
  }

  /** Planning a + b sessions equals planning a, then b from the advanced seed, also
      past the last index and the last instant. */
  lemma PlanningResumes(p: ExpansionPolicy, s: SeedEvent, last: Timestamp, a: nat, b: nat)
    ensures SeedPlan(p, s, last, a + b)
            == SeedPlan(p, s, last, a) + SeedPlan(p, Advanced(p, s, last, a), last, b)
  {
    var whole, tail := SeedPlan(p, s, last, a + b), SeedPlan(p, Advanced(p, s, last, a), last, b);
    forall k | 0 <= k < b
      ensures whole[a + k] == tail[k]
    {
      TimesResume(p, s, last, a, k + 1);
    }
  }

  lemma SeedPlanAt(p: ExpansionPolicy, s: SeedEvent, last: Timestamp, count: nat, k: nat)
    requires k < count
    ensures var x := SeedPlan(p, s, last, count)[k];
            var anchor := if k == 0 then s.lastPracticed else SeedPlan(p, s, last, count)[k - 1].scheduledAt;
            && x.actor == s.actor && x.task == s.task
            && x.index == (if s.priorSessions + k < 0x1_0000_0000 then s.priorSessions + k else 0xFFFF_FFFF)
            && x.intervalDays == Interval(p, x.index)
            && x.scheduledAt == if anchor + x.intervalDays * 86_400_000_000_000 <= last
                                then anchor + x.intervalDays * 86_400_000_000_000 else last
  {
    assert TimeOf(p, s, last, 0) == s.lastPracticed;
    assert TimeOf(p, s, last, k + 1) == AddDays(TimeOf(p, s, last, k), Interval(p, SaturatingAdd(s.priorSessions, k)), last);
    assert k > 0 ==> SeedPlan(p, s, last, count)[k - 1].scheduledAt == TimeOf(p, s, last, k);
  }

  /** The planned list, session by session: whose it is, its index, its interval and its
      time, which is that interval after the session before it, or after the last practice. */
  lemma PlannedSessionAt(p: ExpansionPolicy, seeds: seq<SeedEvent>, last: Timestamp, count: nat, i: nat, k: nat)
    requires i < |seeds| && k < count
    ensures 0 <= i * count && |PlanOf(p, seeds, last, count)| == |seeds| * count && i * count + k < |seeds| * count
    ensures var plan := PlanOf(p, seeds, last, count);
            var x := plan[i * count + k];
            var anchor := if k == 0 then seeds[i].lastPracticed else plan[i * count + k - 1].scheduledAt;
            && x.actor == seeds[i].actor && x.task == seeds[i].task
            && x.index == (if seeds[i].priorSessions + k < 0x1_0000_0000 then seeds[i].priorSessions + k else 0xFFFF_FFFF)
            && x.intervalDays == Interval(p, x.index)
            && x.scheduledAt == if anchor + x.intervalDays * 86_400_000_000_000 <= last
                                then anchor + x.intervalDays * 86_400_000_000_000 else last
  {
    var plan, before, mine := PlanOf(p, seeds, last, count), PlanOf(p, seeds[..i], last, count), SeedPlan(p, seeds[i], last, count);
    PlanIsInSeedOrder(p, seeds, last, count, i);
    PlanPositions(i, k, count, |seeds|);
    assert plan[i * count + k] == mine[k];
    assert k > 0 ==> plan[i * count + k - 1] == mine[k - 1];
    SeedPlanAt(p, seeds[i], last, count, k);
  }

  lemma PlanPositions(i: nat, k: nat, count: nat, seeds: nat)
    requires i < seeds && k < count
    ensures 0 <= i * count && i * count + k < seeds * count
  {
    MulMono(i + 1, count, seeds, count);
  }

  /** The first interval is the base, cut at the cap, and each further one the product of
      the one before with the factor in percent, rounded down and cut at the cap. */
  lemma IntervalSteps(p: ExpansionPolicy, n: nat)
    requires Accepted(p)
    ensures Interval(p, 0) == p.baseDays
    ensures Interval(p, n) < p.capDays ==>
              Interval(p, n + 1)
              == if Interval(p, n) * p.factorPercent / 100 < p.capDays then Interval(p, n) * p.factorPercent / 100
                 else p.capDays
  {
    IntervalIsCappedRecurrence(p, 0);
    IntervalIsCappedRecurrence(p, n);
    IntervalIsCappedRecurrence(p, n + 1);
  }
}
