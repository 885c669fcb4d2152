/** Token vesting with revocation (secure/secure_vesting/src/lib.rs). */
module Vesting {
  import opened Host
  import opened Rounding
  import opened Sums

  // What `create_schedule` admits: a positive total and a cliff before the end.
  datatype Terms = Terms(total: positive128, cliff: uint32, end: uint32)

  type Plan = t: Terms | t.cliff < t.end witness Terms(1, 0, 1)

  datatype Schedule = Schedule(plan: Plan, claimed: natural128, revokedAt: Option<uint32>)

  datatype Store = Store(admin: Option<Address>, treasuryBalance: int128, schedules: map<Address, Schedule>)

  const Fresh := Store(None, 0, map[])

  // ----- The vested amount

  function EffectiveNow(d: Schedule, now: uint32): uint32 {
    if d.revokedAt.Some? && now > d.revokedAt.value then d.revokedAt.value else now
  }

  lemma FractionBound(total: nat, part: nat, whole: nat)
    requires part <= whole && whole > 0
    ensures total * part / whole <= total
  {
    var q := FloorBounds(total, part, whole);
    Scale(part, whole, total);
    Cancel(q, total, whole);
  }

  function Portion(total: nat, part: nat, whole: nat): (q: nat)
    requires part <= whole && whole > 0
    ensures q <= total
  {
    FractionBound(total, part, whole);
    total * part / whole
  }

  // The linear release, rounded down.
  function Release(p: Plan, t: uint32): (v: natural128)
    ensures v <= p.total
  {
    if t < p.cliff then 0
    else if t >= p.end then p.total
    else Portion(p.total, t - p.cliff, p.end - p.cliff)
  }

  // What the contract computes; none when the product overflows.
  function Vested(d: Schedule, now: uint32): (v: Option<natural128>)
    ensures v.Some? ==> v.value <= d.plan.total
  {
    var t := EffectiveNow(d, now);
    if d.plan.cliff <= t < d.plan.end && !FitsInt128(d.plan.total * (t - d.plan.cliff)) then None
    else Some(Release(d.plan, t))
  }

  // The linear share v of a total at ledger t: nothing before the cliff, everything from the
  // end on, and in between the fraction of the ledgers passed, rounded down.
  ghost predicate Due(p: Plan, t: uint32, v: int) {
    if t < p.cliff then v == 0
    else if t < p.end then v * (p.end - p.cliff) <= p.total * (t - p.cliff) < (v + 1) * (p.end - p.cliff)
    else v == p.total
  }

  lemma ReleaseIsDue(p: Plan, t: uint32)
    ensures Due(p, t, Release(p, t))
  {
    if p.cliff <= t < p.end {
      var q := FloorBounds(p.total, t - p.cliff, p.end - p.cliff);
    }
  }

  // The vested amount: frozen at the ledger of a revocation, and none exactly when the
  // product of total and elapsed ledgers leaves the 128 bits.
  lemma VestedExactly(d: Schedule, now: uint32) returns (t: uint32)
    ensures t == if d.revokedAt.Some? && d.revokedAt.value < now then d.revokedAt.value else now
    ensures Vested(d, now).Some? <==> (d.plan.cliff <= t < d.plan.end ==> FitsInt128(d.plan.total * (t - d.plan.cliff)))
    ensures Vested(d, now).Some? ==> Due(d.plan, t, Vested(d, now).value)
  {
    t := EffectiveNow(d, now);
    ReleaseIsDue(d.plan, t);
  }

  lemma ReleaseGrows(p: Plan, t: uint32, u: uint32)
    requires t <= u
    ensures Release(p, t) <= Release(p, u)
  {
    if p.cliff <= t && u < p.end {
      var q := FloorBounds(p.total, t - p.cliff, p.end - p.cliff);
      var r := FloorBounds(p.total, u - p.cliff, p.end - p.cliff);
      Scale(t - p.cliff, u - p.cliff, p.total);
      CancelStrict(q, r + 1, p.end - p.cliff);
    }
  }

  // ----- The contract

  datatype Op =
    | Initialize(admin: Address)
    | CreateSchedule(beneficiary: Address, total: int128, cliff: uint32, end: uint32)
    | Claim(beneficiary: Address)
    | Revoke(beneficiary: Address)

  // `now` is the ledger in which the call runs.
  datatype Call = Call(now: uint32, op: Op)

  function Step(s: Store, c: Call): Option<Store> {
    match c.op
    case Initialize(a) => Some(Store(Some(a), 0, s.schedules))
    case CreateSchedule(b, total, cliff, end) =>
      if s.admin.None? || total <= 0 || cliff >= end || b in s.schedules then None
      else Some(s.(schedules := s.schedules[b := Schedule(Terms(total, cliff, end), 0, None)]))
    case Claim(b) =>
      if b !in s.schedules || s.schedules[b].revokedAt.Some? then None
      else
        var d := s.schedules[b];
        var v := Vested(d, c.now);
        if v.None? || v.value <= d.claimed then None
        else Some(s.(schedules := s.schedules[b := d.(claimed := v.value)]))
    case Revoke(b) =>
      if s.admin.None? || b !in s.schedules || s.schedules[b].revokedAt.Some? then None
      else
        var d := s.schedules[b];
        var v := Vested(d, c.now);
        if v.None? || !FitsInt128(s.treasuryBalance + d.plan.total - v.value) then None
        else Some(s.(treasuryBalance := s.treasuryBalance + d.plan.total - v.value,
                     schedules := s.schedules[b := d.(revokedAt := Some(c.now))]))
  }

  function Run(s: Store, calls: seq<Call>): Store
    decreases |calls|
  {
    if calls == [] then s else Run(After(s, Step(s, calls[0])), calls[1..])
  }

  function ClaimedBy(s: Store, b: Address): int {
    if b in s.schedules then s.schedules[b].claimed else 0
  }

  class SecureVesting {
    var admin: Option<Address>
    var treasuryBalance: int128
    var schedules: map<Address, Schedule>

    ghost function Stored(): Store
      reads this
    {
      Store(admin, treasuryBalance, schedules)
    }

    constructor ()
      ensures Stored() == Fresh
    {
      admin, treasuryBalance, schedules := None, 0, map[];
    }

    method Initialize(a: Address, now: uint32) returns (ok: bool)
      modifies this
      ensures Settles(old(Stored()), Step(old(Stored()), Call(now, Op.Initialize(a))), ok, Stored())
    {
      admin := Some(a);
      treasuryBalance := 0;
      return true;
    }

    method CreateSchedule(b: Address, total: int128, cliff: uint32, end: uint32, now: uint32) returns (ok: bool)
      modifies this
      ensures Settles(old(Stored()),
                      Step(old(Stored()), Call(now, Op.CreateSchedule(b, total, cliff, end))), ok, Stored())
    {
      if admin.None? || total <= 0 || cliff >= end || b in schedules {
        return false;
      }
      schedules := schedules[b := Schedule(Terms(total, cliff, end), 0, None)];
      return true;
    }

    method Claim(b: Address, now: uint32) returns (ok: bool, claimable: int)
      modifies this
      ensures Settles(old(Stored()), Step(old(Stored()), Call(now, Op.Claim(b))), ok, Stored())
      ensures claimable == ClaimedBy(Stored(), b) - ClaimedBy(old(Stored()), b)
    {
      if b !in schedules || schedules[b].revokedAt.Some? {
        return false, 0;
      }
      var d := schedules[b];
      var v := Vested(d, now);
      if v.None? || v.value <= d.claimed {
        return false, 0;
      }
      claimable := v.value - d.claimed;
      schedules := schedules[b := d.(claimed := v.value)];
      ok := true;
    }

    method VestedAmount(b: Address, now: uint32) returns (r: Option<int>)
      ensures r.Some? <==> b in schedules && Vested(schedules[b], now).Some?
      ensures r.Some? ==> r.value == Vested(schedules[b], now).value
    {
      if b !in schedules {
        return None;
      }
      r := Vested(schedules[b], now);
    }

    method Revoke(b: Address, now: uint32) returns (ok: bool)
      modifies this
      ensures Settles(old(Stored()), Step(old(Stored()), Call(now, Op.Revoke(b))), ok, Stored())
    {
      if admin.None? || b !in schedules || schedules[b].revokedAt.Some? {
        return false;
      }
      var d := schedules[b];
      var v := Vested(d, now);
      if v.None? {
        return false;
      }
      var unvested := d.plan.total - v.value;
      if !FitsInt128(treasuryBalance + unvested) {
        return false;
      }
      treasuryBalance := treasuryBalance + unvested;
      schedules := schedules[b := d.(revokedAt := Some(now))];
      return true;
    }
  }

  // ----- One beneficiary over a whole run

  function LedgerOf(c: Call): uint32 {
    c.now
  }

  // 0 <= claimed <= vested <= total, and nothing is revoked in the future.
  ghost predicate ScheduleValid(s: Store, b: Address, now: uint32) {
    b in s.schedules ==>
      var d := s.schedules[b];
      && 0 <= d.claimed <= Release(d.plan, EffectiveNow(d, now)) <= d.plan.total
      && (d.revokedAt.Some? ==> d.revokedAt.value <= now)
  }

  lemma ValidLater(s: Store, b: Address, now: uint32, later: uint32)
    requires ScheduleValid(s, b, now) && now <= later
    ensures ScheduleValid(s, b, later)
  {
    if b in s.schedules {
      var d := s.schedules[b];
      ReleaseGrows(d.plan, EffectiveNow(d, now), EffectiveNow(d, later));
    }
  }

  lemma StepValid(s: Store, b: Address, c: Call)
    requires ScheduleValid(s, b, c.now)
    ensures ScheduleValid(After(s, Step(s, c)), b, c.now)
  {
  }

  // In every run with a non-decreasing ledger.
  lemma {:induction false} RunScheduleValid(s: Store, b: Address, now: uint32, calls: seq<Call>)
    requires ScheduleValid(s, b, now) && Timed(LedgerOf, now, calls)
    ensures ScheduleValid(Run(s, calls), b, EndTime(LedgerOf, now, calls))
    decreases |calls|
  {
    if calls != [] {
      ValidLater(s, b, now, calls[0].now);
      StepValid(s, b, calls[0]);
      RunScheduleValid(After(s, Step(s, calls[0])), b, calls[0].now, calls[1..]);
    }
  }

  lemma StepEffective(s: Store, b: Address, now: uint32, c: Call)
    requires ScheduleValid(s, b, now) && now <= c.now && b in s.schedules
    ensures var t := After(s, Step(s, c));
            && b in t.schedules && t.schedules[b].plan == s.schedules[b].plan
            && EffectiveNow(s.schedules[b], now) <= EffectiveNow(t.schedules[b], c.now)
            && (s.schedules[b].revokedAt.Some? ==> t.schedules[b] == s.schedules[b])
  {
  }

  lemma {:induction false} RunEffective(s: Store, b: Address, now: uint32, calls: seq<Call>)
    requires ScheduleValid(s, b, now) && Timed(LedgerOf, now, calls) && b in s.schedules
    ensures var t, end := Run(s, calls), EndTime(LedgerOf, now, calls);
            && b in t.schedules && t.schedules[b].plan == s.schedules[b].plan
            && EffectiveNow(s.schedules[b], now) <= EffectiveNow(t.schedules[b], end)
            && (s.schedules[b].revokedAt.Some? ==>
                  t.schedules[b] == s.schedules[b] && s.schedules[b].revokedAt.value <= end)
    decreases |calls|
  {
    if calls != [] {
      ValidLater(s, b, now, calls[0].now);
      StepValid(s, b, calls[0]);
      StepEffective(s, b, now, calls[0]);
      RunEffective(After(s, Step(s, calls[0])), b, calls[0].now, calls[1..]);
    }
  }

  // Vesting never goes back, and stops for good at revocation: with the schedule as it
  // stands after any run, the vested amount has grown since, or is frozen if it was
  // revoked before.
  lemma VestedOverTime(s: Store, b: Address, now: uint32, calls: seq<Call>)
    requires ScheduleValid(s, b, now) && Timed(LedgerOf, now, calls) && b in s.schedules
    ensures b in Run(s, calls).schedules
    ensures var d, e := s.schedules[b], Run(s, calls).schedules[b];
            && e.plan == d.plan
            && Release(d.plan, EffectiveNow(d, now)) <= Release(e.plan, EffectiveNow(e, EndTime(LedgerOf, now, calls)))
            && (d.revokedAt.Some? ==> e == d && EffectiveNow(e, EndTime(LedgerOf, now, calls)) == EffectiveNow(d, now))
  {
    RunEffective(s, b, now, calls);
    var d, e := s.schedules[b], Run(s, calls).schedules[b];
    ReleaseGrows(d.plan, EffectiveNow(d, now), EffectiveNow(e, EndTime(LedgerOf, now, calls)));
  }

  // What the accepted claims of a run paid to b.
  function Paid(s: Store, b: Address, calls: seq<Call>): int
    decreases |calls|
  {
    if calls == [] then 0
    else
      var t := After(s, Step(s, calls[0]));
      (if calls[0].op == Claim(b) then ClaimedBy(t, b) - ClaimedBy(s, b) else 0) + Paid(t, b, calls[1..])
  }

  lemma {:induction false} PaidIsClaimed(s: Store, b: Address, calls: seq<Call>)
    ensures Paid(s, b, calls) == ClaimedBy(Run(s, calls), b) - ClaimedBy(s, b)
    decreases |calls|
  {
    if calls != [] {
      PaidIsClaimed(After(s, Step(s, calls[0])), b, calls[1..]);
    }
  }

  lemma {:induction false} PlanKept(s: Store, b: Address, calls: seq<Call>)
    requires b in s.schedules
    ensures b in Run(s, calls).schedules && Run(s, calls).schedules[b].plan == s.schedules[b].plan
    decreases |calls|
  {
    if calls != [] {
      PlanKept(After(s, Step(s, calls[0])), b, calls[1..]);
    }
  }

  // Whatever happened since the schedule was created, once a claim is accepted at a
  // ledger, all claims up to and including it have paid exactly the amount due by then:
  // how the claims were split makes no difference.
  lemma ClaimsSumToVested(s: Store, b: Address, calls: seq<Call>, now: uint32)
    requires b in s.schedules && s.schedules[b].claimed == 0
    requires Step(Run(s, calls), Call(now, Claim(b))).Some?
    ensures var t := Step(Run(s, calls), Call(now, Claim(b))).value;
            var v := Paid(s, b, calls) + (ClaimedBy(t, b) - ClaimedBy(Run(s, calls), b));
            now >= s.schedules[b].plan.cliff && Due(s.schedules[b].plan, now, v)
  {
    PaidIsClaimed(s, b, calls);
    PlanKept(s, b, calls);
    ReleaseIsDue(s.schedules[b].plan, now);
  }

  // Revocation also ends claiming: nothing about a revoked schedule ever changes again,
  // so what was vested but not yet claimed stays unclaimed.
  lemma {:induction false} RevokedIsFinal(s: Store, b: Address, calls: seq<Call>)
    requires b in s.schedules && s.schedules[b].revokedAt.Some?
    ensures b in Run(s, calls).schedules && Run(s, calls).schedules[b] == s.schedules[b]
    ensures Paid(s, b, calls) == 0
    decreases |calls|
  {
    if calls != [] {
      RevokedIsFinal(After(s, Step(s, calls[0])), b, calls[1..]);
    }
  }

  // ----- The books

  // What a schedule still holds: after revocation, the vested part that was not claimed.
  function Outstanding(d: Schedule): int {
    (if d.revokedAt.Some? then Release(d.plan, d.revokedAt.value) else d.plan.total) - d.claimed
  }

  function TotalOf(d: Schedule): int {
    d.plan.total
  }

  function ClaimOf(d: Schedule): int {
    d.claimed
  }

  // What was scheduled and is neither claimed, back in the treasury nor outstanding.
  ghost function Gap(s: Store): int {
    SumOf(s.schedules, TotalOf) - SumOf(s.schedules, ClaimOf) - SumOf(s.schedules, Outstanding) - s.treasuryBalance
  }

  ghost predicate BooksBalance(s: Store) {
    Gap(s) == 0
  }

  // What a call, or a run, takes off the books: the treasury that an initialisation finds.

  function Forgotten(s: Store, c: Call): int {
    if c.op.Initialize? then s.treasuryBalance else 0
  }

  function AllForgotten(s: Store, calls: seq<Call>): int
    decreases |calls|
  {
    if calls == [] then 0 else Forgotten(s, calls[0]) + AllForgotten(After(s, Step(s, calls[0])), calls[1..])
  }

  lemma StepGap(s: Store, c: Call)
    ensures Gap(After(s, Step(s, c))) == Gap(s) + Forgotten(s, c)
  {
    if Step(s, c).Some? && !c.op.Initialize? {
      var d := Step(s, c).value.schedules[c.op.beneficiary];
      SumOfWrite(s.schedules, TotalOf, c.op.beneficiary, d);
      SumOfWrite(s.schedules, ClaimOf, c.op.beneficiary, d);
      SumOfWrite(s.schedules, Outstanding, c.op.beneficiary, d);
    }
  }

  // Over any run, the gap in the books grows by exactly the treasuries that the
  // initialisations of the run found and zeroed.
  lemma {:induction false} RunGap(s: Store, calls: seq<Call>)
    ensures Gap(Run(s, calls)) == Gap(s) + AllForgotten(s, calls)
    decreases |calls|
  {
    if calls != [] {
      StepGap(s, calls[0]);
      RunGap(After(s, Step(s, calls[0])), calls[1..]);
    }
  }

  // Every initialisation of the run finds the treasury empty.
  ghost predicate NothingToForget(s: Store, calls: seq<Call>)
    decreases |calls|
  {
    calls == []
    || ((calls[0].op.Initialize? ==> s.treasuryBalance == 0)
        && NothingToForget(After(s, Step(s, calls[0])), calls[1..]))
  }

  lemma {:induction false} ForgottenExactly(s: Store, calls: seq<Call>)
    requires s.treasuryBalance >= 0
    ensures AllForgotten(s, calls) >= 0
    ensures AllForgotten(s, calls) == 0 <==> NothingToForget(s, calls)
    decreases |calls|
  {
    if calls != [] {
      ForgottenExactly(After(s, Step(s, calls[0])), calls[1..]);
    }
  }

  lemma FreshBalances()
    ensures BooksBalance(Fresh)
  {
    SumOfEmpty(Fresh.schedules, TotalOf);
    SumOfEmpty(Fresh.schedules, ClaimOf);
    SumOfEmpty(Fresh.schedules, Outstanding);
  }

  // From deployment, whatever the calls: the initialiser has no guard, and the books
  // balance after a run if and only if no initialisation of the run found anything in the
  // treasury. What is missing otherwise is exactly what they found.
  lemma BooksBalanceExactly(calls: seq<Call>)
    ensures BooksBalance(Run(Fresh, calls)) <==> NothingToForget(Fresh, calls)
    ensures Gap(Run(Fresh, calls)) == AllForgotten(Fresh, calls) >= 0
  {
    FreshBalances();
    RunGap(Fresh, calls);
    ForgottenExactly(Fresh, calls);
  }

  // While nobody initialises, everything scheduled is either claimed, back in the treasury
  // or still outstanding.
  lemma {:induction false} RunBalances(s: Store, calls: seq<Call>)
    requires BooksBalance(s)
    requires forall c :: c in calls ==> !c.op.Initialize?
    ensures BooksBalance(Run(s, calls))
    decreases |calls|
  {
    if calls != [] {
      assert calls[0] in calls;
      StepGap(s, calls[0]);
      RunBalances(After(s, Step(s, calls[0])), calls[1..]);
    }
  }

  // From deployment: after one initialisation, everything scheduled by any further calls
  // is claimed, back in the treasury or still outstanding.
  lemma BooksBalanceFromDeployment(init: Call, calls: seq<Call>)
    requires init.op.Initialize?
    requires forall c :: c in calls ==> !c.op.Initialize?
    ensures BooksBalance(Run(Fresh, [init] + calls))
  {
    assert ([init] + calls)[1..] == calls;
    FreshBalances();
    StepGap(Fresh, init);
    RunBalances(Step(Fresh, init).value, calls);
  }

  // One initialisation run again leaves books that balanced in balance exactly when the
  // treasury was empty anyway ...
  lemma SecondInitializeForgetsTreasury(s: Store, c: Call)
    requires BooksBalance(s) && c.op.Initialize?
    ensures BooksBalance(Step(s, c).value) <==> s.treasuryBalance == 0
  {
    StepGap(s, c);
  }

  // ... as in this run from deployment: a thousand units vest between ledgers 200 and
  // 400, revocation at 250 returns 750 of them, and a second initialisation loses those.
  lemma TreasuryLostOnSecondInitialize(a: Address, b: Address)
    ensures var calls := [Call(100, Initialize(a)), Call(100, CreateSchedule(b, 1_000, 200, 400)),
                          Call(250, Revoke(b))];
            var s := Run(Fresh, calls);
            && s.treasuryBalance == 750 && BooksBalance(s)
            && !BooksBalance(Step(s, Call(260, Initialize(a))).value)
  {
    var calls := [Call(100, Initialize(a)), Call(100, CreateSchedule(b, 1_000, 200, 400)), Call(250, Revoke(b))];
    var p: Plan := Terms(1_000, 200, 400);
    assert calls == [calls[0]] + calls[1..];
    assert calls[1..] == [calls[1], calls[2]];
    BooksBalanceFromDeployment(calls[0], calls[1..]);
    var s1 := After(Fresh, Step(Fresh, calls[0]));
    var s2 := After(s1, Step(s1, calls[1]));
    assert s2 == Store(Some(a), 0, map[b := Schedule(p, 0, None)]);
    assert Release(p, 250) == 250;
    var s3 := After(s2, Step(s2, calls[2]));
    assert s3.treasuryBalance == 750;
    assert calls[1..][1..] == [calls[2]] && calls[1..][1..][1..] == [];
    assert Run(s2, calls[1..][1..]) == Run(s3, []);
    assert Run(s1, calls[1..]) == Run(s2, calls[1..][1..]);
    SecondInitializeForgetsTreasury(s3, Call(260, Initialize(a)));
  }

  // ----- Which calls are accepted, by the history of the run

  // The admin that the last initialisation stored.
  function LastAdmin(admin: Option<Address>, calls: seq<Call>): Option<Address>
    decreases |calls|
  {
    if calls == [] then admin
    else LastAdmin(if calls[0].op.Initialize? then Some(calls[0].op.admin) else admin, calls[1..])
  }

  // The terms of the accepted schedule of b, and the ledger of its accepted revocation.

  function TermsAfter(s: Store, b: Address, terms: Option<Terms>, c: Call): Option<Terms> {
    if c.op.CreateSchedule? && c.op.beneficiary == b && Step(s, c).Some?
    then Some(Terms(c.op.total, c.op.cliff, c.op.end)) else terms
  }

  function TermsOf(s: Store, b: Address, terms: Option<Terms>, calls: seq<Call>): Option<Terms>
    decreases |calls|
  {
    if calls == [] then terms
    else TermsOf(After(s, Step(s, calls[0])), b, TermsAfter(s, b, terms, calls[0]), calls[1..])
  }

  function RevokedAfter(s: Store, b: Address, at: Option<uint32>, c: Call): Option<uint32> {
    if c.op == Revoke(b) && Step(s, c).Some? then Some(c.now) else at
  }

  function RevocationOf(s: Store, b: Address, at: Option<uint32>, calls: seq<Call>): Option<uint32>
    decreases |calls|
  {
    if calls == [] then at
    else RevocationOf(After(s, Step(s, calls[0])), b, RevokedAfter(s, b, at, calls[0]), calls[1..])
  }

  ghost predicate ScheduleIs(s: Store, b: Address, terms: Option<Terms>, at: Option<uint32>) {
    && (b in s.schedules <==> terms.Some?)
    && (b in s.schedules ==> s.schedules[b].plan == terms.value && s.schedules[b].revokedAt == at)
    && (b !in s.schedules ==> at.None?)
  }

  lemma StepSchedule(s: Store, b: Address, terms: Option<Terms>, at: Option<uint32>, c: Call)
    requires ScheduleIs(s, b, terms, at)
    ensures ScheduleIs(After(s, Step(s, c)), b, TermsAfter(s, b, terms, c), RevokedAfter(s, b, at, c))
  {
  }

  lemma {:induction false} RunSchedule(s: Store, b: Address, terms: Option<Terms>, at: Option<uint32>, calls: seq<Call>)
    requires ScheduleIs(s, b, terms, at)
    ensures ScheduleIs(Run(s, calls), b, TermsOf(s, b, terms, calls), RevocationOf(s, b, at, calls))
    decreases |calls|
  {
    if calls != [] {
      StepSchedule(s, b, terms, at, calls[0]);
      RunSchedule(After(s, Step(s, calls[0])), b, TermsAfter(s, b, terms, calls[0]), RevokedAfter(s, b, at, calls[0]),
                  calls[1..]);
    }
  }

  lemma {:induction false} RunAdmin(s: Store, calls: seq<Call>)
    ensures Run(s, calls).admin == LastAdmin(s.admin, calls)
    decreases |calls|
  {
    if calls != [] {
      RunAdmin(After(s, Step(s, calls[0])), calls[1..]);
    }
  }

  // In every reachable state the stored schedule of b has the terms of its accepted
  // creation, has paid what the accepted claims paid, and is revoked since its accepted
  // revocation; the admin is that of the last initialisation.
  lemma ScheduleFollowsHistory(b: Address, calls: seq<Call>)
    ensures ScheduleIs(Run(Fresh, calls), b, TermsOf(Fresh, b, None, calls), RevocationOf(Fresh, b, None, calls))
    ensures ClaimedBy(Run(Fresh, calls), b) == Paid(Fresh, b, calls)
    ensures Run(Fresh, calls).admin == LastAdmin(None, calls)
  {
    RunSchedule(Fresh, b, None, None, calls);
    PaidIsClaimed(Fresh, b, calls);
    RunAdmin(Fresh, calls);
  }

  // A claim is accepted exactly when the schedule exists and is unrevoked, the product fits
  // and more is due than was paid; it pays the difference.
  lemma ClaimAcceptedExactly(b: Address, calls: seq<Call>, now: uint32) returns (due: int)
    ensures var s, terms := Run(Fresh, calls), TermsOf(Fresh, b, None, calls);
            && (terms.Some? ==> terms.value.cliff < terms.value.end && Due(terms.value, now, due))
            && (Step(s, Call(now, Claim(b))).Some?
                <==> && terms.Some? && RevocationOf(Fresh, b, None, calls).None?
                     && (terms.value.cliff <= now < terms.value.end ==>
                           FitsInt128(terms.value.total * (now - terms.value.cliff)))
                     && due > Paid(Fresh, b, calls))
            && (Step(s, Call(now, Claim(b))).Some? ==> ClaimedBy(Step(s, Call(now, Claim(b))).value, b) == due)
  {
    ScheduleFollowsHistory(b, calls);
    var s := Run(Fresh, calls);
    due := 0;
    if b in s.schedules {
      due := Release(s.schedules[b].plan, now);
      ReleaseIsDue(s.schedules[b].plan, now);
    }
  }

  // A revocation is accepted exactly when there is an admin, the schedule exists and is
  // unrevoked, and the arithmetic fits; what is not due yet goes to the treasury.
  lemma RevokeAcceptedExactly(b: Address, calls: seq<Call>, now: uint32) returns (due: int)
    ensures var s, terms := Run(Fresh, calls), TermsOf(Fresh, b, None, calls);
            && (terms.Some? ==> terms.value.cliff < terms.value.end && Due(terms.value, now, due))
            && (Step(s, Call(now, Revoke(b))).Some?
                <==> && LastAdmin(None, calls).Some? && terms.Some? && RevocationOf(Fresh, b, None, calls).None?
                     && (terms.value.cliff <= now < terms.value.end ==>
                           FitsInt128(terms.value.total * (now - terms.value.cliff)))
                     && FitsInt128(s.treasuryBalance + terms.value.total - due))
            && (Step(s, Call(now, Revoke(b))).Some? ==>
                  Step(s, Call(now, Revoke(b))).value.treasuryBalance == s.treasuryBalance + terms.value.total - due)
  {
    ScheduleFollowsHistory(b, calls);
    var s := Run(Fresh, calls);
    due := 0;
    if b in s.schedules {
      due := Release(s.schedules[b].plan, now);
      ReleaseIsDue(s.schedules[b].plan, now);
    }
  }

  // A schedule is created exactly when there is an admin, the total is positive, the cliff
  // is before the end, and b has none yet.
  lemma CreateAcceptedExactly(b: Address, calls: seq<Call>, total: int128, cliff: uint32, end: uint32, now: uint32)
    ensures Step(Run(Fresh, calls), Call(now, CreateSchedule(b, total, cliff, end))).Some?
       <==> && LastAdmin(None, calls).Some? && total > 0 && cliff < end
            && TermsOf(Fresh, b, None, calls).None?
  {
    ScheduleFollowsHistory(b, calls);
  }
}
