/** The share vault with virtual assets and shares
    (vulnerable/empty_vault_share_inflation/src/secure.rs). */
module OffsetVault {
  import opened Host
  import opened Rounding
  import opened Sums

  const VIRTUAL_OFFSET := 1_000

  datatype Store = Store(totalShares: natural128, totalAssets: natural128, shares: map<Address, int128>)

  const Fresh := Store(0, 0, map[])

  // Assets and shares as the pricing sees them; assets per share is Assets / Shares.
  function Assets(s: Store): int {
    s.totalAssets + VIRTUAL_OFFSET
  }

  function Shares(s: Store): int {
    s.totalShares + VIRTUAL_OFFSET
  }

  datatype Call =
    | Deposit(actor: Address, amount: int128)
    | Donate(amount: int128)

  function Step(s: Store, c: Call): Option<Store> {
    match c
    case Deposit(actor, amount) =>
      if amount <= 0 || !FitsInt128(Assets(s)) || !FitsInt128(Shares(s)) || !FitsInt128(amount * Shares(s))
      then None
      else
        var minted := TruncDiv(amount * Shares(s), Assets(s));
        if minted <= 0 || !FitsInt128(s.totalShares + minted) || !FitsInt128(s.totalAssets + amount)
           || !FitsInt128(Read(s.shares, actor) + minted)
        then None
        else Some(Store(s.totalShares + minted, s.totalAssets + amount,
                        s.shares[actor := Read(s.shares, actor) + minted]))
    case Donate(amount) =>
      if amount <= 0 || !FitsInt128(s.totalAssets + amount) then None
      else Some(s.(totalAssets := s.totalAssets + amount))
  }

  function Run(s: Store, calls: seq<Call>): Store
    decreases |calls|
  {
    if calls == [] then s else Run(After(s, Step(s, calls[0])), calls[1..])
  }

  class SecureVault {
    var totalShares: natural128
    var totalAssets: natural128
    var shares: map<Address, int128>

    ghost function Stored(): Store
      reads this
    {
      Store(totalShares, totalAssets, shares)
    }

    constructor ()
      ensures Stored() == Fresh
    {
      totalShares, totalAssets, shares := 0, 0, map[];
    }

    method Deposit(actor: Address, amount: int128) returns (ok: bool)
      modifies this
      ensures Settles(old(Stored()), Step(old(Stored()), Call.Deposit(actor, amount)), ok, Stored())
    {
      if amount <= 0 {
        return false;
      }
      var ts, ta := totalShares, totalAssets;
      if !FitsInt128(ts + VIRTUAL_OFFSET) || !FitsInt128(ta + VIRTUAL_OFFSET)
         || !FitsInt128(amount * (ts + VIRTUAL_OFFSET)) {
        return false;
      }
      var newShares := TruncDiv(amount * (ts + VIRTUAL_OFFSET), ta + VIRTUAL_OFFSET);
      if newShares <= 0 {
        return false;
      }
      if !FitsInt128(ts + newShares) || !FitsInt128(ta + amount) || !FitsInt128(Read(shares, actor) + newShares) {
        return false;
      }
      totalShares := ts + newShares;
      totalAssets := ta + amount;
      shares := shares[actor := Read(shares, actor) + newShares];
      return true;
    }

    method Donate(amount: int128) returns (ok: bool)
      modifies this
      ensures Settles(old(Stored()), Step(old(Stored()), Call.Donate(amount)), ok, Stored())
    {
      if amount <= 0 || !FitsInt128(totalAssets + amount) {
        return false;
      }
      totalAssets := totalAssets + amount;
      return true;
    }
  }

  // ----- What every call keeps

  ghost predicate NonNegative(m: map<Address, int>) {
    forall a :: a in m ==> 0 <= m[a]
  }

  ghost predicate Valid(s: Store) {
    && NonNegative(s.shares)
    && s.totalShares == Sum(s.shares)
    && 0 <= s.totalShares <= s.totalAssets
  }

  // The price of t is at least the price of s, cross-multiplied.
  ghost predicate PriceNotBelow(s: Store, t: Store) {
    Assets(t) * Shares(s) >= Assets(s) * Shares(t)
  }

  lemma MintBounds(v: nat, S: nat, A: nat) returns (n: nat)
    requires 0 < S <= A
    ensures n == v * S / A
    ensures n * A <= v * S < (n + 1) * A && n <= v
    ensures (A + v) * S >= A * (S + n)
  {
    n := FloorBounds(v, S, A);
    assert v * S <= v * A;
    Cancel(n, v, A);
  }

  // What an accepted deposit does, in terms of the shares it mints.
  lemma DepositEffect(s: Store, actor: Address, v: int128) returns (n: nat)
    requires Valid(s) && Step(s, Deposit(actor, v)).Some?
    ensures FitsInt128(s.totalShares + n) && FitsInt128(s.totalAssets + v) && FitsInt128(Read(s.shares, actor) + n)
    ensures Step(s, Deposit(actor, v)).value
         == Store(s.totalShares + n, s.totalAssets + v, s.shares[actor := Read(s.shares, actor) + n])
    ensures v > 0 && n <= v
    ensures n * Assets(s) <= v * Shares(s) < (n + 1) * Assets(s)
    ensures (Assets(s) + v) * Shares(s) >= Assets(s) * (Shares(s) + n)
  {
    n := MintBounds(v, Shares(s), Assets(s));
  }

  lemma DepositValid(s: Store, actor: Address, v: int128)
    requires Valid(s) && Step(s, Deposit(actor, v)).Some?
    ensures Valid(Step(s, Deposit(actor, v)).value)
    ensures PriceNotBelow(s, Step(s, Deposit(actor, v)).value)
  {
    var n := DepositEffect(s, actor, v);
    SumWrite(s.shares, actor, Read(s.shares, actor) + n);
  }

  lemma StepValid(s: Store, c: Call)
    requires Valid(s) && Step(s, c).Some?
    ensures Valid(Step(s, c).value)
    ensures PriceNotBelow(s, Step(s, c).value)
  {
    match c
    case Deposit(actor, v) => DepositValid(s, actor, v);
    case Donate(v) => Scale(Assets(s), Assets(s) + v, Shares(s));
  }

  // Along every run the books balance, shares never outnumber assets, and the offset
  // share price never falls.
  lemma {:induction false} RunValid(s: Store, calls: seq<Call>)
    requires Valid(s)
    ensures Valid(Run(s, calls)) && PriceNotBelow(s, Run(s, calls))
    decreases |calls|
  {
    if calls != [] {
      var t := After(s, Step(s, calls[0]));
      if Step(s, calls[0]).Some? {
        StepValid(s, calls[0]);
      }
      RunValid(t, calls[1..]);
      var u := Run(s, calls);
      WorthGrows(Shares(s), Assets(s), Assets(t), Shares(t), Assets(u), Shares(u));
    }
  }

  lemma RoundingAfter(v: nat, S: nat, A: nat, n: nat)
    requires 0 < S && n * A <= v * S < (n + 1) * A
    ensures n * (A + v) <= v * (S + n) < (n + 1) * (A + v)
  {
  }

  // A depositor never receives more than was paid and loses less than the price of one
  // share: at the price after the deposit, v buys exactly `minted` shares rounded down.
  lemma DepositRounding(s: Store, actor: Address, v: int128)
    requires Valid(s) && Step(s, Deposit(actor, v)).Some?
    ensures var t := Step(s, Deposit(actor, v)).value;
            var minted := t.totalShares - s.totalShares;
            && Read(t.shares, actor) == Read(s.shares, actor) + minted
            && minted * Assets(t) <= v * Shares(t) < (minted + 1) * Assets(t)
  {
    var n := DepositEffect(s, actor, v);
    RoundingAfter(v, Shares(s), Assets(s), n);
  }

  // ----- Claims

  // A holding at price A / S, rounded down; and the claims of all holders in m.
  function Claim(held: nat, A: nat, S: nat): nat
    requires 0 < S
  {
    held * A / S
  }

  ghost function Valued(m: map<Address, int>, A: nat, S: nat): map<Address, int>
    requires 0 < S && NonNegative(m)
  {
    map a | a in m :: Claim(m[a], A, S)
  }

  ghost function Claims(m: map<Address, int>, A: nat, S: nat): int
    requires 0 < S && NonNegative(m)
  {
    Sum(Valued(m, A, S))
  }

  lemma ClaimsRemove(m: map<Address, int>, k: Address, A: nat, S: nat)
    requires 0 < S && NonNegative(m) && k in m
    ensures Claims(m, A, S) == Claim(m[k], A, S) + Claims(m - {k}, A, S)
  {
    SumRemove(Valued(m, A, S), k);
    assert Valued(m, A, S) - {k} == Valued(m - {k}, A, S);
  }

  lemma ClaimStep(all: int, rest: int, shares: int, restShares: int, held: nat, A: nat, S: nat)
    requires 0 < S && rest * S <= restShares * A
    requires all == Claim(held, A, S) + rest && shares == held + restShares
    ensures all * S <= shares * A
  {
  }

  lemma ClaimsOfNone(m: map<Address, int>, A: nat, S: nat)
    requires 0 < S && m == map[]
    ensures Claims(m, A, S) == 0 && Sum(m) == 0
  {
    assert Valued(m, A, S) == map[];
  }

  // The claims come to at most the value of the shares before rounding.
  lemma {:induction false} ClaimsBounded(m: map<Address, int>, A: nat, S: nat)
    requires 0 < S && NonNegative(m)
    ensures Claims(m, A, S) * S <= Sum(m) * A
    decreases |m|
  {
    if m == map[] {
      ClaimsOfNone(m, A, S);
    } else {
      var k :| k in m;
      var rest := m - {k};
      assert |rest| < |m| by {
        assert m.Keys == rest.Keys + {k};
      }
      SumRemove(m, k);
      ClaimsRemove(m, k, A, S);
      ClaimsBounded(rest, A, S);
      ClaimStep(Claims(m, A, S), Claims(rest, A, S), Sum(m), Sum(rest), m[k], A, S);
    }
  }

  lemma Covered(C: int, ts: nat, ta: nat)
    requires ts <= ta && C * (ts + VIRTUAL_OFFSET) <= ts * (ta + VIRTUAL_OFFSET)
    ensures C <= ta
  {
  }

  // All holders' claims together never exceed the assets.
  lemma ClaimsCovered(s: Store)
    requires Valid(s)
    ensures Claims(s.shares, Assets(s), Shares(s)) <= s.totalAssets
  {
    var C := Claims(s.shares, Assets(s), Shares(s));
    ClaimsBounded(s.shares, Assets(s), Shares(s));
    Covered(C, s.totalShares, s.totalAssets);
  }

  // ----- Donations and the share price

  // What happened along a run: deposits by honest actors and their number, deposits by
  // all others, and donations. Only accepted calls count.
  datatype Flows = Flows(honest: nat, honestCount: nat, others: nat, donated: nat)

  const NoFlows := Flows(0, 0, 0, 0)

  function Plus(f: Flows, g: Flows): Flows {
    Flows(f.honest + g.honest, f.honestCount + g.honestCount, f.others + g.others, f.donated + g.donated)
  }

  function Flow(s: Store, honest: set<Address>, c: Call): Flows {
    if Step(s, c).None? then NoFlows
    else
      match c
      case Deposit(actor, v) => if actor in honest then Flows(v, 1, 0, 0) else Flows(0, 0, v, 0)
      case Donate(v) => Flows(0, 0, 0, v)
  }

  function RunFlows(s: Store, honest: set<Address>, calls: seq<Call>, f: Flows): Flows
    decreases |calls|
  {
    if calls == [] then f
    else RunFlows(After(s, Step(s, calls[0])), honest, calls[1..], Plus(f, Flow(s, honest, calls[0])))
  }

  // The shares of the honest depositors, and one more for each of their deposits.
  ghost function HonestHoldings(s: Store, honest: set<Address>, f: Flows): int {
    s.totalShares - Sum(s.shares - honest) + f.honestCount
  }

  // The assets are what came in, and the honest shares plus one for each honest deposit
  // are worth what the honest actors paid.
  ghost predicate HonestCovered(s: Store, honest: set<Address>, f: Flows) {
    && s.totalAssets == f.honest + f.others + f.donated
    && s.totalShares >= Sum(s.shares - honest)
    && HonestHoldings(s, honest, f) * Assets(s) >= f.honest * Shares(s)
  }

  lemma FreshHonestCovered(honest: set<Address>)
    ensures Valid(Fresh) && HonestCovered(Fresh, honest, NoFlows)
  {
    assert Fresh.shares - honest == map[];
  }

  lemma OthersWrite(shares: map<Address, int>, honest: set<Address>, a: Address, v: int)
    ensures Sum(shares[a := v] - honest)
         == Sum(shares - honest) + if a in honest then 0 else v - Read(shares, a)
  {
    if a in honest {
      assert shares[a := v] - honest == shares - honest;
    } else {
      assert shares[a := v] - honest == (shares - honest)[a := v];
      SumWrite(shares - honest, a, v);
    }
  }

  // The worth of an honest deposit: what the shares held before have grown to, plus what
  // one share more than the new ones is worth.
  lemma HonestDeposit(X: nat, D: nat, A: nat, S: nat, v: nat, n: nat)
    requires 0 < S && X * A >= D * S && n * A <= v * S < (n + 1) * A && (A + v) * S >= A * (S + n)
    ensures (X + n + 1) * (A + v) >= (D + v) * (S + n)
  {
    WorthGrows(X, D, A, S, A + v, S + n);
    RoundingAfter(v, S, A, n);
    assert (X + (n + 1)) * (A + v) == X * (A + v) + (n + 1) * (A + v);
    assert (D + v) * (S + n) == D * (S + n) + v * (S + n);
  }

  lemma HonestDepositCovered(s: Store, honest: set<Address>, actor: Address, v: int128, f: Flows)
    requires Valid(s) && HonestCovered(s, honest, f) && Step(s, Deposit(actor, v)).Some? && actor in honest
    ensures HonestCovered(Step(s, Deposit(actor, v)).value, honest, Plus(f, Flows(v, 1, 0, 0)))
  {
    var n := DepositEffect(s, actor, v);
    OthersWrite(s.shares, honest, actor, Read(s.shares, actor) + n);
    HonestDeposit(HonestHoldings(s, honest, f), f.honest, Assets(s), Shares(s), v, n);
  }

  lemma OtherDepositCovered(s: Store, honest: set<Address>, actor: Address, v: int128, f: Flows)
    requires Valid(s) && HonestCovered(s, honest, f) && Step(s, Deposit(actor, v)).Some? && actor !in honest
    ensures HonestCovered(Step(s, Deposit(actor, v)).value, honest, Plus(f, Flows(0, 0, v, 0)))
  {
    var n := DepositEffect(s, actor, v);
    OthersWrite(s.shares, honest, actor, Read(s.shares, actor) + n);
    WorthGrows(HonestHoldings(s, honest, f), f.honest, Assets(s), Shares(s), Assets(s) + v, Shares(s) + n);
  }

  lemma StepHonestCovered(s: Store, honest: set<Address>, c: Call, f: Flows)
    requires Valid(s) && HonestCovered(s, honest, f)
    ensures HonestCovered(After(s, Step(s, c)), honest, Plus(f, Flow(s, honest, c)))
  {
    if Step(s, c).Some? {
      match c
      case Deposit(actor, v) =>
        if actor in honest {
          HonestDepositCovered(s, honest, actor, v, f);
        } else {
          OtherDepositCovered(s, honest, actor, v, f);
        }
      case Donate(v) =>
        Scale(Assets(s), Assets(s) + v, Shares(s));
        WorthGrows(HonestHoldings(s, honest, f), f.honest, Assets(s), Shares(s), Assets(s) + v, Shares(s));
    }
  }

  lemma {:induction false} RunHonestCovered(s: Store, honest: set<Address>, calls: seq<Call>, f: Flows)
    requires Valid(s) && HonestCovered(s, honest, f)
    ensures HonestCovered(Run(s, calls), honest, RunFlows(s, honest, calls, f))
    decreases |calls|
  {
    if calls != [] {
      if Step(s, calls[0]).Some? {
        StepValid(s, calls[0]);
      }
      StepHonestCovered(s, honest, calls[0], f);
      RunHonestCovered(After(s, Step(s, calls[0])), honest, calls[1..], Plus(f, Flow(s, honest, calls[0])));
    }
  }

  lemma OthersArithmetic(C: int, N: int, m: nat, D: nat, Y: int, A: nat, S: nat)
    requires C * S <= N * A
    requires (S - VIRTUAL_OFFSET - N + m) * A >= D * S
    requires Y == A - D
    ensures C * S + (VIRTUAL_OFFSET - m) * A <= Y * S
  {
    assert (S - VIRTUAL_OFFSET - N + m) * A == S * A - (VIRTUAL_OFFSET - m) * A - N * A;
    assert Y * S == A * S - D * S;
  }

  // What everybody but the honest depositors can claim, plus the price of one share for
  // each virtual share less the honest deposits, is at most what they deposited and
  // donated plus the virtual assets; all multiplied by the shares.
  ghost predicate OthersWithin(s: Store, honest: set<Address>, f: Flows)
    requires Valid(s)
  {
    Claims(s.shares - honest, Assets(s), Shares(s)) * Shares(s) + (VIRTUAL_OFFSET - f.honestCount) * Assets(s)
    <= (f.others + f.donated + VIRTUAL_OFFSET) * Shares(s)
  }

  lemma OthersCovered(s: Store, honest: set<Address>, f: Flows)
    requires Valid(s) && HonestCovered(s, honest, f)
    ensures OthersWithin(s, honest, f)
  {
    var others := s.shares - honest;
    ClaimsBounded(others, Assets(s), Shares(s));
    OthersArithmetic(Claims(others, Assets(s), Shares(s)), Sum(others), f.honestCount, f.honest,
                     f.others + f.donated + VIRTUAL_OFFSET, Assets(s), Shares(s));
  }

  // Over any run from an empty vault.
  lemma OthersBounded(honest: set<Address>, calls: seq<Call>)
    ensures var s := Run(Fresh, calls);
            Valid(s) && OthersWithin(s, honest, RunFlows(Fresh, honest, calls, NoFlows))
  {
    FreshHonestCovered(honest);
    RunValid(Fresh, calls);
    RunHonestCovered(Fresh, honest, calls, NoFlows);
    OthersCovered(Run(Fresh, calls), honest, RunFlows(Fresh, honest, calls, NoFlows));
  }

  lemma PriceAtLeastOne(C: int, k: nat, A: nat, S: nat, X: int)
    requires 0 < S <= A && C * S + k * A <= X * S
    ensures C <= X - k
  {
  }

  lemma OthersGainLittle(s: Store, honest: set<Address>, f: Flows)
    requires Valid(s) && HonestCovered(s, honest, f)
    requires f.honestCount <= VIRTUAL_OFFSET
    ensures Claims(s.shares - honest, Assets(s), Shares(s)) <= f.others + f.donated + f.honestCount
  {
    OthersCovered(s, honest, f);
    PriceAtLeastOne(Claims(s.shares - honest, Assets(s), Shares(s)), VIRTUAL_OFFSET - f.honestCount,
                    Assets(s), Shares(s), f.others + f.donated + VIRTUAL_OFFSET);
  }

  // So inflating the share price does not pay: as long as there are no more honest
  // deposits than virtual shares, everybody else together can claim at most what they
  // deposited and donated, plus one unit for each honest deposit.
  lemma InflationDoesNotPay(honest: set<Address>, calls: seq<Call>)
    requires RunFlows(Fresh, honest, calls, NoFlows).honestCount <= VIRTUAL_OFFSET
    ensures var s := Run(Fresh, calls);
            var f := RunFlows(Fresh, honest, calls, NoFlows);
            && Valid(s)
            && Claims(s.shares - honest, Assets(s), Shares(s)) <= f.others + f.donated + f.honestCount
  {
    FreshHonestCovered(honest);
    RunValid(Fresh, calls);
    RunHonestCovered(Fresh, honest, calls, NoFlows);
    OthersGainLittle(Run(Fresh, calls), honest, RunFlows(Fresh, honest, calls, NoFlows));
  }

  // ----- Blocking a deposit

  lemma HoldingWithinTotal(s: Store, a: Address)
    requires Valid(s)
    ensures 0 <= Read(s.shares, a) <= s.totalShares
  {
    if a in s.shares {
      SumRemove(s.shares, a);
      SumMonotone(map[], s.shares - {a});
      assert Sum<Address>(map[]) == 0;
    } else {
      SumMonotone(map[], s.shares);
    }
  }

  lemma ShareBought(v: nat, S: nat, A: nat)
    requires 0 < A
    ensures v * S / A >= 1 <==> v * S >= A
  {
  }

  // A deposit that the vault's arithmetic can take is refused exactly when it is worth
  // less than one share.
  lemma DepositRefusedExactly(s: Store, actor: Address, v: int128)
    requires Valid(s) && v > 0
    requires FitsInt128(Assets(s) + v) && FitsInt128(v * Shares(s))
    ensures Step(s, Deposit(actor, v)).None? <==> v * Shares(s) < Assets(s)
  {
    var n := MintBounds(v, Shares(s), Assets(s));
    ShareBought(v, Shares(s), Assets(s));
    HoldingWithinTotal(s, actor);
  }

  // What a deposit does and when: it buys n shares, what it is worth with 1000 virtual
  // assets and shares rounded down, and is accepted exactly when that is at least one and
  // the sums and the product fit.
  lemma DepositExactly(s: Store, actor: Address, v: int128) returns (n: nat)
    requires Valid(s)
    ensures v > 0 ==> n * (s.totalAssets + 1_000) <= v * (s.totalShares + 1_000) < (n + 1) * (s.totalAssets + 1_000)
    ensures Step(s, Deposit(actor, v)).Some?
       <==> && v > 0 && n >= 1 && s.totalAssets + 1_000 <= I128_MAX && s.totalAssets + v <= I128_MAX
            && v * (s.totalShares + 1_000) <= I128_MAX
    ensures Step(s, Deposit(actor, v)).Some? ==>
              var t := Step(s, Deposit(actor, v)).value;
              && t.totalShares == s.totalShares + n && t.totalAssets == s.totalAssets + v
              && t.shares == s.shares[actor := Read(s.shares, actor) + n]
  {
    n := 0;
    if v > 0 {
      n := MintBounds(v, Shares(s), Assets(s));
      HoldingWithinTotal(s, actor);
    }
  }

  // A donation moves the assets alone.
  lemma DonateExactly(s: Store, v: int128)
    requires Valid(s)
    ensures Step(s, Donate(v)).Some? <==> v > 0 && s.totalAssets + v <= I128_MAX
    ensures Step(s, Donate(v)).Some? ==>
              var t := Step(s, Donate(v)).value;
              t.totalAssets == s.totalAssets + v && t.totalShares == s.totalShares && t.shares == s.shares
  {
  }

  lemma PriceOfBlocking(C: int, ts: nat, ta: nat, v: int)
    requires C * (ts + VIRTUAL_OFFSET) <= ts * (ta + VIRTUAL_OFFSET)
    requires v * (ts + VIRTUAL_OFFSET) < ta + VIRTUAL_OFFSET
    ensures ta - C > VIRTUAL_OFFSET * (v - 1)
  {
    var S := ts + VIRTUAL_OFFSET;
    assert (ta - C) * S >= VIRTUAL_OFFSET * (ta - ts) by {
      assert ta * S == ta * ts + VIRTUAL_OFFSET * ta;
      assert ts * (ta + VIRTUAL_OFFSET) == ta * ts + VIRTUAL_OFFSET * ts;
      assert (ta - C) * S == ta * S - C * S;
    }
    assert (v - 1) * S == v * S - S;
    assert (VIRTUAL_OFFSET * (v - 1)) * S == VIRTUAL_OFFSET * ((v - 1) * S);
    CancelStrict(VIRTUAL_OFFSET * (v - 1), ta - C, S);
  }

  lemma BlockedLoss(s: Store, actor: Address, v: int128)
    requires Valid(s) && v > 0 && v * Shares(s) < Assets(s)
    ensures Step(s, Deposit(actor, v)).None?
    ensures s.totalAssets - Claims(s.shares, Assets(s), Shares(s)) > VIRTUAL_OFFSET * (v - 1)
  {
    ClaimsBounded(s.shares, Assets(s), Shares(s));
    PriceOfBlocking(Claims(s.shares, Assets(s), Shares(s)), s.totalShares, s.totalAssets, v);
    ShareBought(v, Shares(s), Assets(s));
  }

  // Blocking costs: over any run from an empty vault, once the price is so high that a
  // deposit of v is refused, more than 1000 * (v - 1) of what was paid in can be claimed
  // by nobody any more.
  lemma BlockingCosts(calls: seq<Call>, actor: Address, v: int128)
    requires v > 0 && v * Shares(Run(Fresh, calls)) < Assets(Run(Fresh, calls))
    ensures var s := Run(Fresh, calls);
            && Valid(s)
            && Step(s, Deposit(actor, v)).None?
            && s.totalAssets - Claims(s.shares, Assets(s), Shares(s)) > VIRTUAL_OFFSET * (v - 1)
  {
    RunValid(Fresh, calls);
    BlockedLoss(Run(Fresh, calls), actor, v);
  }
}
