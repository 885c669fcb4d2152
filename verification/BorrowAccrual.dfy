/** Borrowing with interest accrued before the limit check
    (vulnerable/borrow_without_accrual/src/lib.rs and src/secure.rs). */
module BorrowAccrual {
  import opened Host
  import opened Rounding

  const INTEREST_BPS_PER_LEDGER := 100
  const BORROW_LIMIT := 1_000

  // ----- Accrual

  function Interest(debt: int, elapsed: int): int {
    TruncDiv(debt * INTEREST_BPS_PER_LEDGER * elapsed, 10_000)
  }

  predicate InterestFits(debt: int, elapsed: int) {
    && FitsInt128(debt * INTEREST_BPS_PER_LEDGER)
    && FitsInt128(debt * INTEREST_BPS_PER_LEDGER * elapsed)
    && FitsInt128(debt + Interest(debt, elapsed))
  }

  datatype Position = Position(debt: int128, last: uint32)

  // The position that accruing at ledger `now` stores; none when the arithmetic overflows.
  function Accrued(p: Position, now: uint32): Option<Position> {
    if p.debt == 0 then Some(Position(0, now))
    else if now <= p.last then Some(p)
    else if InterestFits(p.debt, now - p.last) then Some(Position(p.debt + Interest(p.debt, now - p.last), now))
    else None
  }

  // The read-only projection, computed on its own as the contract does.
  function Projected(p: Position, now: uint32): Option<int128> {
    if p.debt == 0 then Some(0)
    else if now <= p.last then Some(p.debt)
    else
      var elapsed := now - p.last;
      if InterestFits(p.debt, elapsed)
      then Some(p.debt + TruncDiv(p.debt * INTEREST_BPS_PER_LEDGER * elapsed, 10_000))
      else None
  }

  lemma InterestFloor(debt: nat, elapsed: nat)
    ensures Interest(debt, elapsed) == debt * elapsed / 100
  {
  }

  // ----- The contract

  // A borrower's Debt and LastAccrualLedger entries, kept together; both read as zero
  // until they are written.
  datatype Store = Store(positions: map<Address, Position>, marketLedger: uint32)

  const Fresh := Store(map[], 0)

  function PositionOf(positions: map<Address, Position>, b: Address): Position {
    if b in positions then positions[b] else Position(0, 0)
  }

  // `now` is the ledger in which the call runs.
  datatype Call =
    | Initialize(borrower: Address, amount: int128, now: uint32)
    | Borrow(borrower: Address, amount: int128, now: uint32)

  function Step(s: Store, c: Call): Option<Store> {
    match c
    case Initialize(b, amount, now) =>
      if 0 < amount <= BORROW_LIMIT then Some(Store(s.positions[b := Position(amount, now)], now)) else None
    case Borrow(b, amount, now) =>
      var p := Accrued(PositionOf(s.positions, b), now);
      if amount <= 0 || p.None? || !FitsInt128(p.value.debt + amount) || p.value.debt + amount > BORROW_LIMIT
      then None
      else Some(Store(s.positions[b := Position(p.value.debt + amount, p.value.last)], now))
  }

  function Run(s: Store, calls: seq<Call>): Store
    decreases |calls|
  {
    if calls == [] then s else Run(After(s, Step(s, calls[0])), calls[1..])
  }

  class SecureBorrow {
    var positions: map<Address, Position>
    var marketLedger: uint32

    ghost function Stored(): Store
      reads this
    {
      Store(positions, marketLedger)
    }

    constructor ()
      ensures Stored() == Fresh
    {
      positions, marketLedger := map[], 0;
    }

    // A panic leaves the store to the rollback of the calling entry point.
    method AccrueBorrower(b: Address, now: uint32) returns (ok: bool)
      modifies this`positions
      ensures var p := Accrued(old(PositionOf(positions, b)), now);
              && ok == p.Some?
              && (ok ==> positions == old(positions)[b := p.value])
    {
      var p := PositionOf(positions, b);
      if p.debt == 0 {
        positions := positions[b := p.(last := now)];
        return true;
      }
      if now <= p.last {
        return true;
      }
      var elapsed := now - p.last;
      if !InterestFits(p.debt, elapsed) {
        return false;
      }
      var interest := TruncDiv(p.debt * INTEREST_BPS_PER_LEDGER * elapsed, 10_000);
      positions := positions[b := p.(debt := p.debt + interest)];
      positions := positions[b := positions[b].(last := now)];
      return true;
    }

    method Initialize(b: Address, initialBorrow: int128, now: uint32) returns (ok: bool)
      modifies this
      ensures Settles(old(Stored()), Step(old(Stored()), Call.Initialize(b, initialBorrow, now)), ok, Stored())
    {
      if !(initialBorrow > 0 && initialBorrow <= BORROW_LIMIT) {
        return false;
      }
      positions := positions[b := Position(initialBorrow, now)];
      marketLedger := now;
      return true;
    }

    method DebtAfterAccrual(b: Address, now: uint32) returns (r: Option<int>)
      ensures r == Projected(PositionOf(positions, b), now)
    {
      var p := PositionOf(positions, b);
      if p.debt == 0 {
        return Some(0);
      }
      if now <= p.last {
        return Some(p.debt);
      }
      var elapsed := now - p.last;
      if !InterestFits(p.debt, elapsed) {
        return None;
      }
      return Some(p.debt + TruncDiv(p.debt * INTEREST_BPS_PER_LEDGER * elapsed, 10_000));
    }

    method Borrow(b: Address, amount: int128, now: uint32) returns (ok: bool)
      modifies this
      ensures Settles(old(Stored()), Step(old(Stored()), Call.Borrow(b, amount, now)), ok, Stored())
    {
      if amount <= 0 {
        return false;
      }
      var positions0, marketLedger0 := positions, marketLedger;
      marketLedger := now;
      var accrued := AccrueBorrower(b, now);
      if accrued {
        var p := PositionOf(positions, b);
        if FitsInt128(p.debt + amount) && p.debt + amount <= BORROW_LIMIT {
          positions := positions[b := p.(debt := p.debt + amount)];
          return true;
        }
      }
      positions, marketLedger := positions0, marketLedger0;
      return false;
    }
  }

  // The projection tells exactly what accruing now would store, overflow included.
  lemma ProjectionIsAccrual(p: Position, now: uint32)
    ensures Projected(p, now) == match Accrued(p, now) case Some(q) => Some(q.debt) case None => None
  {
  }

  // ----- Splitting a period into spans

  // Accruing at each ledger of a list in turn.
  function AccruedAt(p: Position, ledgers: seq<uint32>): Option<Position>
    decreases |ledgers|
  {
    if ledgers == [] then Some(p)
    else
      var q := Accrued(p, ledgers[0]);
      if q.None? then None else AccruedAt(q.value, ledgers[1..])
  }

  ghost predicate Later(last: uint32, ledgers: seq<uint32>)
    decreases |ledgers|
  {
    ledgers == [] || (last < ledgers[0] && Later(ledgers[0], ledgers[1..]))
  }

  ghost function Spans(last: uint32, ledgers: seq<uint32>): seq<nat>
    requires Later(last, ledgers)
    decreases |ledgers|
  {
    if ledgers == [] then [] else [ledgers[0] - last] + Spans(ledgers[0], ledgers[1..])
  }

  // One rounded-down charge of 1% per ledger.
  ghost function Charge(d: nat, span: nat): nat {
    d * span / 100
  }

  // The debt after one charge for each span.
  ghost function Charged(d: nat, spans: seq<nat>): nat
    decreases |spans|
  {
    if spans == [] then d else Charged(d + Charge(d, spans[0]), spans[1..])
  }

  ghost function Length(spans: seq<nat>): nat {
    if spans == [] then 0 else spans[0] + Length(spans[1..])
  }

  // The product of the growth factors 100 + span.
  ghost function Growth(spans: seq<nat>): nat {
    if spans == [] then 1 else (100 + spans[0]) * Growth(spans[1..])
  }

  lemma AccruedDebt(p: Position, now: uint32)
    requires p.debt > 0 && p.last < now && Accrued(p, now).Some?
    ensures Accrued(p, now).value.debt == p.debt + Charge(p.debt, now - p.last)
    ensures Accrued(p, now).value.debt >= p.debt && Accrued(p, now).value.last == now
  {
    InterestFloor(p.debt, now - p.last);
  }

  lemma {:induction false} SpansCover(last: uint32, ledgers: seq<uint32>)
    requires Later(last, ledgers)
    ensures |Spans(last, ledgers)| == |ledgers|
    ensures Length(Spans(last, ledgers)) == if ledgers == [] then 0 else ledgers[|ledgers| - 1] - last
    decreases |ledgers|
  {
    if ledgers != [] {
      SpansCover(ledgers[0], ledgers[1..]);
      assert Spans(last, ledgers)[1..] == Spans(ledgers[0], ledgers[1..]);
    }
  }

  lemma ChargedStep(d: nat, e: nat, spans: seq<nat>)
    ensures Charged(d, [e] + spans) == Charged(d + Charge(d, e), spans)
  {
  }

  lemma {:induction false} AccruedAtCharges(p: Position, ledgers: seq<uint32>)
    requires p.debt > 0 && Later(p.last, ledgers) && AccruedAt(p, ledgers).Some?
    ensures AccruedAt(p, ledgers).value.debt == Charged(p.debt, Spans(p.last, ledgers))
    decreases |ledgers|
  {
    if ledgers != [] {
      var q := Accrued(p, ledgers[0]).value;
      AccruedDebt(p, ledgers[0]);
      AccruedAtCharges(q, ledgers[1..]);
      ChargedStep(p.debt, ledgers[0] - p.last, Spans(ledgers[0], ledgers[1..]));
    }
  }

  lemma FloorSum(d: nat, e: nat, f: nat, d': nat)
    requires d <= d'
    ensures Charge(d, e) + Charge(d', f) >= Charge(d, e + f) - 1
  {
    assert d * f <= d' * f;
    assert d * (e + f) == d * e + d * f;
  }

  lemma {:induction false} ChargedAtLeast(d: nat, spans: seq<nat>)
    requires spans != []
    ensures Charged(d, spans) >= d + Charge(d, Length(spans)) - (|spans| - 1)
    decreases |spans|
  {
    if |spans| > 1 {
      var d' := d + Charge(d, spans[0]);
      ChargedAtLeast(d', spans[1..]);
      FloorSum(d, spans[0], Length(spans[1..]), d');
    } else {
      assert spans[1..] == [];
    }
  }

  lemma Compound(final: nat, n: nat, d: nat, e: nat, d': nat, g: nat)
    requires final * n <= d' * g && 100 * d' <= d * (100 + e)
    ensures final * (100 * n) <= d * ((100 + e) * g)
  {
  }

  lemma {:induction false} ChargedAtMost(d: nat, spans: seq<nat>)
    ensures Charged(d, spans) * Pow(100, |spans|) <= d * Growth(spans)
    decreases |spans|
  {
    if spans != [] {
      var d' := d + Charge(d, spans[0]);
      ChargedAtMost(d', spans[1..]);
      Compound(Charged(d, spans), Pow(100, |spans| - 1), d, spans[0], d', Growth(spans[1..]));
    }
  }

  lemma {:induction false} LaterIsLast(last: uint32, ledgers: seq<uint32>)
    requires ledgers != [] && Later(last, ledgers)
    ensures last < ledgers[|ledgers| - 1]
    decreases |ledgers|
  {
    if |ledgers| > 1 {
      LaterIsLast(ledgers[0], ledgers[1..]);
    }
  }

  // Accruing in n steps leaves at least the debt of a single accrual over the whole
  // period, less one unit for each step after the first ...
  lemma SplitAccrualAtLeast(p: Position, ledgers: seq<uint32>)
    requires p.debt > 0 && ledgers != [] && Later(p.last, ledgers)
    requires AccruedAt(p, ledgers).Some? && Accrued(p, ledgers[|ledgers| - 1]).Some?
    ensures AccruedAt(p, ledgers).value.debt
         >= Accrued(p, ledgers[|ledgers| - 1]).value.debt - (|ledgers| - 1)
  {
    var now := ledgers[|ledgers| - 1];
    SpansCover(p.last, ledgers);
    AccruedAtCharges(p, ledgers);
    ChargedAtLeast(p.debt, Spans(p.last, ledgers));
    LaterIsLast(p.last, ledgers);
    AccruedDebt(p, now);
  }

  // ... and at most the compounded product of the spans' growth factors (100 + e) / 100.
  lemma SplitAccrualAtMost(p: Position, ledgers: seq<uint32>)
    requires p.debt > 0 && Later(p.last, ledgers)
    requires AccruedAt(p, ledgers).Some?
    ensures AccruedAt(p, ledgers).value.debt * Pow(100, |ledgers|) <= p.debt * Growth(Spans(p.last, ledgers))
  {
    SpansCover(p.last, ledgers);
    AccruedAtCharges(p, ledgers);
    ChargedAtMost(p.debt, Spans(p.last, ledgers));
  }

  // ----- The borrow limit over whole runs

  ghost predicate WithinLimit(s: Store) {
    forall b :: b in s.positions ==> 0 <= s.positions[b].debt <= BORROW_LIMIT
  }

  lemma AccrualGrows(p: Position, now: uint32)
    requires p.debt >= 0
    ensures Accrued(p, now).Some? ==> Accrued(p, now).value.debt >= p.debt
  {
    if p.debt > 0 && now > p.last && Accrued(p, now).Some? {
      AccruedDebt(p, now);
    }
  }

  // No call ever stores a debt above the limit.
  lemma {:induction false} RunWithinLimit(s: Store, calls: seq<Call>)
    requires WithinLimit(s)
    ensures WithinLimit(Run(s, calls))
    decreases |calls|
  {
    if calls != [] {
      var c := calls[0];
      if c.Borrow? {
        AccrualGrows(PositionOf(s.positions, c.borrower), c.now);
      }
      RunWithinLimit(After(s, Step(s, c)), calls[1..]);
    }
  }

  lemma SmallDebtFits(d: nat, e: nat)
    requires d <= BORROW_LIMIT && e <= U32_MAX
    ensures InterestFits(d, e)
  {
  }

  // Debts within the limit never make the accrual overflow, at any ledger.
  lemma AccrualNeverOverflows(p: Position, now: uint32)
    requires 0 <= p.debt <= BORROW_LIMIT
    ensures Accrued(p, now).Some?
  {
    if now > p.last {
      SmallDebtFits(p.debt, now - p.last);
    }
  }

  lemma LargestProduct(d: nat, e: nat)
    requires d > 0 && e > 0
    ensures d * 100 <= d * 100 * e && d + d * e / 100 <= d * 100 * e
  {
    assert d * 100 * e == 100 * (d * e);
    Scale(1, e, d);
  }

  // Any other debt makes it overflow exactly when its product with the ledgers passed
  // leaves the 128 bits.
  lemma AccrualOverflowsExactly(p: Position, now: uint32)
    requires p.debt > 0
    ensures Accrued(p, now).None? <==> now > p.last && p.debt * 100 * (now - p.last) > I128_MAX
  {
    if now > p.last {
      LargestProduct(p.debt, now - p.last);
      InterestFloor(p.debt, now - p.last);
    }
  }

  function Borrowed(s: Store, b: Address, calls: seq<Call>): int
    decreases |calls|
  {
    if calls == [] then 0
    else
      (if calls[0].Borrow? && calls[0].borrower == b && Step(s, calls[0]).Some? then calls[0].amount else 0)
      + Borrowed(After(s, Step(s, calls[0])), b, calls[1..])
  }

  // The stored debt covers everything borrowed, until the borrower is initialised anew.
  lemma {:induction false} DebtCoversBorrows(s: Store, b: Address, calls: seq<Call>)
    requires WithinLimit(s)
    requires forall c :: c in calls && c.Initialize? ==> c.borrower != b
    ensures PositionOf(Run(s, calls).positions, b).debt >= PositionOf(s.positions, b).debt + Borrowed(s, b, calls)
    decreases |calls|
  {
    if calls != [] {
      var c := calls[0];
      assert c in calls;
      if c.Borrow? {
        AccrualGrows(PositionOf(s.positions, c.borrower), c.now);
      }
      DebtCoversBorrows(After(s, Step(s, c)), b, calls[1..]);
    }
  }

  // The projected debt has reached the limit.
  ghost predicate Locked(s: Store, b: Address, now: uint32) {
    var d := Projected(PositionOf(s.positions, b), now);
    d.Some? && d.value >= BORROW_LIMIT
  }

  lemma LongerSpan(d: nat, e: nat, f: nat)
    requires e <= f
    ensures Charge(d, e) <= Charge(d, f)
  {
    assert d * e <= d * f;
  }

  lemma ProjectionGrows(p: Position, now: uint32, later: uint32)
    requires 0 <= p.debt <= BORROW_LIMIT && now <= later
    ensures Projected(p, now).Some? && Projected(p, later).Some?
    ensures Projected(p, now).value <= Projected(p, later).value
  {
    AccrualNeverOverflows(p, now);
    AccrualNeverOverflows(p, later);
    AccrualGrows(p, later);
    if p.debt > 0 && p.last < now {
      AccruedDebt(p, now);
      AccruedDebt(p, later);
      LongerSpan(p.debt, now - p.last, later - p.last);
    }
  }

  // The one kind of call that releases a borrower at the limit.
  predicate Releases(c: Call, b: Address) {
    c.Initialize? && c.borrower == b && 0 < c.amount < BORROW_LIMIT
  }

  // A locked borrower is released by exactly one kind of call: an initialisation of that
  // borrower below the limit. Every borrow panics.
  lemma LockedStep(s: Store, b: Address, now: uint32, c: Call)
    requires WithinLimit(s) && Locked(s, b, now) && now <= c.now
    ensures Locked(After(s, Step(s, c)), b, c.now)
       <==> !Releases(c, b)
    ensures c.Borrow? && c.borrower == b ==> Step(s, c).None?
  {
    ProjectionGrows(PositionOf(s.positions, b), now, c.now);
    ProjectionIsAccrual(PositionOf(s.positions, b), c.now);
  }

  function LedgerOf(c: Call): uint32 {
    c.now
  }

  function AcceptedBorrows(s: Store, b: Address, calls: seq<Call>): nat
    decreases |calls|
  {
    if calls == [] then 0
    else
      (if calls[0].Borrow? && calls[0].borrower == b && Step(s, calls[0]).Some? then 1 else 0)
      + AcceptedBorrows(After(s, Step(s, calls[0])), b, calls[1..])
  }

  // Once the projected debt reaches the limit, every later borrow panics for as long as
  // nobody re-initialises that borrower below the limit; and the position does not change
  // at all while nobody re-initialises the borrower.
  lemma {:induction false} LockedForever(s: Store, b: Address, now: uint32, calls: seq<Call>)
    requires WithinLimit(s) && Locked(s, b, now) && Timed(LedgerOf, now, calls)
    requires forall c :: c in calls ==> !Releases(c, b)
    ensures AcceptedBorrows(s, b, calls) == 0
    ensures Locked(Run(s, calls), b, EndTime(LedgerOf, now, calls))
    ensures (forall c :: c in calls && c.Initialize? ==> c.borrower != b) ==>
              PositionOf(Run(s, calls).positions, b) == PositionOf(s.positions, b)
    decreases |calls|
  {
    if calls != [] {
      assert calls[0] in calls;
      LockedStep(s, b, now, calls[0]);
      RunWithinLimit(s, calls[..1]);
      assert Run(s, calls[..1]) == Run(After(s, Step(s, calls[0])), calls[..1][1..]);
      LockedForever(After(s, Step(s, calls[0])), b, calls[0].now, calls[1..]);
    }
  }

  // The initialiser has no guard, so a second initialisation does release a borrower at
  // the limit. From deployment: a borrower initialised with the whole limit can borrow
  // nothing; initialised again with one unit, that borrower owes one and borrows the rest.
  lemma SecondInitializeForgetsDebt(b: Address)
    ensures var first := [Initialize(b, 1_000, 0)];
            Locked(Run(Fresh, first), b, 0) && Step(Run(Fresh, first), Borrow(b, 1, 0)).None?
    ensures var calls := [Initialize(b, 1_000, 0), Initialize(b, 1, 0), Borrow(b, 999, 0)];
            && AcceptedBorrows(Fresh, b, calls) == 1
            && Run(Fresh, calls).positions == map[b := Position(1_000, 0)]
  {
    var c0, c1, c2 := Initialize(b, 1_000, 0), Initialize(b, 1, 0), Borrow(b, 999, 0);
    var s1 := Store(map[b := Position(1_000, 0)], 0);
    var s2 := Store(s1.positions[b := Position(1, 0)], 0);
    var s3 := Store(s2.positions[b := Position(1_000, 0)], 0);
    assert [c0, c1, c2][1..] == [c1, c2] && [c1, c2][1..] == [c2] && [c2][1..] == [];
    assert [c0][1..] == [] && Step(Fresh, c0) == Some(s1);
    assert Run(Fresh, [c0]) == Run(s1, []);
    assert Step(s1, c1) == Some(s2) && Step(s2, c2) == Some(s3);
    assert Run(s2, [c2]) == Run(s3, []) && AcceptedBorrows(s2, b, [c2]) == 1 + AcceptedBorrows(s3, b, []);
    assert Run(s1, [c1, c2]) == Run(s2, [c2]) && AcceptedBorrows(s1, b, [c1, c2]) == AcceptedBorrows(s2, b, [c2]);
  }

  // ----- The debt as its history says

  // An accepted call about a borrower: an initialisation starts the debt anew, a borrow
  // adds to it.
  datatype Event = Event(anew: bool, amount: int, ledger: uint32)

  function EventOf(s: Store, b: Address, c: Call): seq<Event> {
    if c.borrower != b || Step(s, c).None? then [] else [Event(c.Initialize?, c.amount, c.now)]
  }

  function Events(s: Store, b: Address, calls: seq<Call>, before: seq<Event>): seq<Event>
    decreases |calls|
  {
    if calls == [] then before
    else Events(After(s, Step(s, calls[0])), b, calls[1..], before + EventOf(s, b, calls[0]))
  }

  // What is owed at ledger t: the amount of the last event, on top of what was owed at its
  // ledger unless it started anew, with one per cent for each ledger since, rounded down.
  function Owed(events: seq<Event>, t: int): int
    decreases |events|
  {
    if events == [] then 0
    else
      var e := events[|events| - 1];
      var debt := e.amount + if e.anew then 0 else Owed(events[..|events| - 1], e.ledger);
      debt + debt * (t - e.ledger) / 100
  }

  ghost predicate Dated(events: seq<Event>, t: int)
    decreases |events|
  {
    events == []
    || (events[|events| - 1].ledger <= t && events[|events| - 1].amount > 0
        && Dated(events[..|events| - 1], events[|events| - 1].ledger))
  }

  // The position of a borrower with these events, at ledger `now` or later.
  ghost predicate Tracks(p: Position, events: seq<Event>, now: uint32) {
    && p.last <= now && Dated(events, now)
    && if events == [] then p.debt == 0
       else
         var e := events[|events| - 1];
         && p.last == e.ledger
         && p.debt == e.amount + (if e.anew then 0 else Owed(events[..|events| - 1], e.ledger))
         && 0 < p.debt <= 1_000
  }

  lemma OwedNow(p: Position, events: seq<Event>, now: uint32)
    requires Tracks(p, events, now)
    ensures 0 <= p.debt <= 1_000 && (p.debt > 0 <==> events != [])
    ensures Owed(events, now) == p.debt + Charge(p.debt, now - p.last)
  {
  }

  lemma NoCharge(d: nat, span: nat)
    requires d == 0 || span == 0
    ensures Charge(d, span) == 0
  {
  }

  lemma AccruedCharge(p: Position, now: uint32)
    requires 0 <= p.debt <= 1_000 && p.last <= now
    ensures Accrued(p, now).Some? && Accrued(p, now).value.last == now
    ensures Accrued(p, now).value.debt == p.debt + Charge(p.debt, now - p.last)
  {
    if p.debt > 0 && p.last < now {
      AccrualNeverOverflows(p, now);
      AccruedDebt(p, now);
    } else {
      NoCharge(p.debt, now - p.last);
    }
  }

  lemma TrackedAccrual(p: Position, events: seq<Event>, now: uint32)
    requires Tracks(p, events, now)
    ensures var q := Accrued(p, now); q.Some? && q.value.debt == Owed(events, now) && q.value.last == now
  {
    OwedNow(p, events, now);
    AccruedCharge(p, now);
  }

  lemma TracksAppended(p: Position, events: seq<Event>, e: Event, now: uint32)
    requires p.debt == e.amount + (if e.anew then 0 else Owed(events, e.ledger)) && p.last == e.ledger
    requires 0 < p.debt <= 1_000 && e.amount > 0 && Dated(events, e.ledger) && e.ledger <= now
    ensures Tracks(p, events + [e], now)
  {
    assert (events + [e])[..|events|] == events;
  }

  lemma TracksLater(p: Position, events: seq<Event>, now: uint32, later: uint32)
    requires Tracks(p, events, now) && now <= later
    ensures Tracks(p, events, later)
  {
  }

  lemma EventPosition(s: Store, b: Address, c: Call, owed: int)
    requires c.borrower == b && Step(s, c).Some?
    requires var q := Accrued(PositionOf(s.positions, b), c.now);
             q.Some? && q.value.debt == owed >= 0 && q.value.last == c.now
    ensures var p := PositionOf(Step(s, c).value.positions, b);
            && p.debt == c.amount + (if c.Initialize? then 0 else owed) && p.last == c.now
            && c.amount > 0 && p.debt <= 1_000
  {
  }

  lemma StepTracks(s: Store, b: Address, c: Call, events: seq<Event>)
    requires Tracks(PositionOf(s.positions, b), events, c.now)
    ensures Tracks(PositionOf(After(s, Step(s, c)).positions, b), events + EventOf(s, b, c), c.now)
  {
    if c.borrower == b && Step(s, c).Some? {
      OwedNow(PositionOf(s.positions, b), events, c.now);
      TrackedAccrual(PositionOf(s.positions, b), events, c.now);
      EventPosition(s, b, c, Owed(events, c.now));
      TracksAppended(PositionOf(Step(s, c).value.positions, b), events, Event(c.Initialize?, c.amount, c.now), c.now);
    } else {
      assert events + EventOf(s, b, c) == events;
    }
  }

  lemma {:induction false} RunTracks(s: Store, b: Address, now: uint32, calls: seq<Call>, events: seq<Event>)
    requires Tracks(PositionOf(s.positions, b), events, now) && Timed(LedgerOf, now, calls)
    ensures Tracks(PositionOf(Run(s, calls).positions, b), Events(s, b, calls, events), EndTime(LedgerOf, now, calls))
    decreases |calls|
  {
    if calls != [] {
      TracksLater(PositionOf(s.positions, b), events, now, calls[0].now);
      StepTracks(s, b, calls[0], events);
      RunTracks(After(s, Step(s, calls[0])), b, calls[0].now, calls[1..], events + EventOf(s, b, calls[0]));
    }
  }

  // In every run from deployment the projected debt is what the accepted calls about the
  // borrower say: interest runs from one of them to the next, and never before the first.
  lemma DebtIsOwed(b: Address, calls: seq<Call>, t: uint32)
    requires Timed(LedgerOf, 0, calls) && EndTime(LedgerOf, 0, calls) <= t
    ensures Projected(PositionOf(Run(Fresh, calls).positions, b), t) == Some(Owed(Events(Fresh, b, calls, []), t))
  {
    var p, events := PositionOf(Run(Fresh, calls).positions, b), Events(Fresh, b, calls, []);
    RunTracks(Fresh, b, 0, calls, []);
    TracksLater(p, events, EndTime(LedgerOf, 0, calls), t);
    TrackedAccrual(p, events, t);
    ProjectionIsAccrual(p, t);
  }

  // And a borrow is accepted exactly when it is positive and brings what is owed to at most
  // the limit; an initialisation, exactly when its amount is within the limit.
  lemma AcceptedExactly(b: Address, calls: seq<Call>, amount: int128, now: uint32)
    requires Timed(LedgerOf, 0, calls) && EndTime(LedgerOf, 0, calls) <= now
    ensures Step(Run(Fresh, calls), Borrow(b, amount, now)).Some?
       <==> amount > 0 && Owed(Events(Fresh, b, calls, []), now) + amount <= 1_000
    ensures Step(Run(Fresh, calls), Initialize(b, amount, now)).Some? <==> 0 < amount <= 1_000
  {
    var p, events := PositionOf(Run(Fresh, calls).positions, b), Events(Fresh, b, calls, []);
    RunTracks(Fresh, b, 0, calls, []);
    TracksLater(p, events, EndTime(LedgerOf, 0, calls), now);
    TrackedAccrual(p, events, now);
  }

  // A borrower without debt is charged from the borrow on, whatever the ledger of the last
  // accrual.
  lemma FirstBorrowCharged(s: Store, b: Address, amount: int128, now: uint32, t: uint32)
    requires PositionOf(s.positions, b).debt == 0 && now <= t
    requires Step(s, Borrow(b, amount, now)).Some?
    ensures var p := PositionOf(Step(s, Borrow(b, amount, now)).value.positions, b);
            Projected(p, t) == Some(amount + amount * (t - now) / 100)
  {
    var p := PositionOf(Step(s, Borrow(b, amount, now)).value.positions, b);
    EventPosition(s, b, Borrow(b, amount, now), 0);
    AccruedCharge(p, t);
    ProjectionIsAccrual(p, t);
  }

  function Lent(events: seq<Event>): int {
    if events == [] then 0 else Lent(events[..|events| - 1]) + events[|events| - 1].amount
  }

  // The product of the growth factors 100 + span from the first event up to t.
  ghost function GrowthSince(events: seq<Event>, t: int): int
    requires Dated(events, t)
  {
    if events == [] then 1
    else
      var e := events[|events| - 1];
      GrowthSince(events[..|events| - 1], e.ledger) * (100 + (t - e.ledger))
  }

  lemma LentMore(before: nat, lent: nat, amount: nat, G: nat, P: nat)
    requires before * P <= lent * G && G >= P
    ensures (before + amount) * P <= (lent + amount) * G
  {
    Scale(P, G, amount);
    assert (before + amount) * P == before * P + amount * P;
    assert (lent + amount) * G == lent * G + amount * G;
  }

  lemma OwedStep(owed: nat, debt: nat, lent: nat, G: nat, P: nat, factor: nat)
    requires debt * P <= lent * G && 100 * owed <= debt * factor
    ensures owed * (100 * P) <= lent * (G * factor)
  {
    Scale(100 * owed, debt * factor, P);
    Scale(debt * P, lent * G, factor);
    Regroup(debt, factor, P);
    Regroup(lent, G, factor);
  }

  lemma InterestBounds(d: nat, span: nat)
    ensures d + d * span / 100 >= 0
    ensures 100 * (d + d * span / 100) <= d * (100 + span)
  {
    assert d * (100 + span) == 100 * d + d * span;
  }

  lemma OwedMore(before: nat, lent: nat, amount: nat, G: nat, P: nat, span: nat)
    requires before * P <= lent * G && G >= P
    ensures var debt := before + amount;
            (debt + debt * span / 100) * (100 * P) <= (lent + amount) * (G * (100 + span))
    ensures G * (100 + span) >= 100 * P
  {
    var debt := before + amount;
    LentMore(before, lent, amount, G, P);
    InterestBounds(debt, span);
    OwedStep(debt + debt * span / 100, debt, lent + amount, G, P, 100 + span);
    Scale(P, G, 100 + span);
    Scale(100, 100 + span, P);
  }

  lemma {:induction false} OwedAtMost(events: seq<Event>, t: int)
    requires Dated(events, t)
    ensures 0 <= Owed(events, t) && 0 <= Lent(events)
    ensures Owed(events, t) * Pow(100, |events|) <= Lent(events) * GrowthSince(events, t)
    ensures GrowthSince(events, t) >= Pow(100, |events|)
    decreases |events|
  {
    if events != [] {
      var init, e := events[..|events| - 1], events[|events| - 1];
      var before, span := if e.anew then 0 else Owed(init, e.ledger), t - e.ledger;
      OwedAtMost(init, e.ledger);
      var P := Pow(100, |init|);
      assert before * P <= Lent(init) * GrowthSince(init, e.ledger);
      InterestBounds(before + e.amount, span);
      OwedMore(before, Lent(init), e.amount, GrowthSince(init, e.ledger), P, span);
      assert Pow(100, |events|) == 100 * P;
    }
  }

  // So the projected debt is at most everything lent, compounded over the spans from the
  // first event on: no interest is charged for the ledgers before it.
  lemma DebtAtMost(b: Address, calls: seq<Call>, t: uint32) returns (owed: int)
    requires Timed(LedgerOf, 0, calls) && EndTime(LedgerOf, 0, calls) <= t
    ensures Projected(PositionOf(Run(Fresh, calls).positions, b), t) == Some(owed)
    ensures var events := Events(Fresh, b, calls, []);
            Dated(events, t) && owed * Pow(100, |events|) <= Lent(events) * GrowthSince(events, t)
  {
    owed := Owed(Events(Fresh, b, calls, []), t);
    DebtIsOwed(b, calls, t);
    RunTracks(Fresh, b, 0, calls, []);
    OwedAtMost(Events(Fresh, b, calls, []), t);
  }

  // The ledger of the last accepted call, when that of the last one before was `ledger`.
  function LastAccepted(s: Store, ledger: uint32, calls: seq<Call>): uint32
    decreases |calls|
  {
    if calls == [] then ledger
    else
      var next := Step(s, calls[0]);
      LastAccepted(After(s, next), if next.Some? then calls[0].now else ledger, calls[1..])
  }

  lemma {:induction false} MarketLedgerIsLast(s: Store, calls: seq<Call>)
    ensures Run(s, calls).marketLedger == LastAccepted(s, s.marketLedger, calls)
    decreases |calls|
  {
    if calls != [] {
      MarketLedgerIsLast(After(s, Step(s, calls[0])), calls[1..]);
    }
  }
}
