/** The share vault that charges the ceiling of the price
    (vulnerable/free_share_rounding/src/secure.rs). */
module CeilingVault {
  import opened Host
  import opened Rounding
  import opened Sums

  // The TotalAssets and TotalShares entries; they are always written together.
  datatype Pool = Pool(assets: positive128, shares: positive128)

  datatype Store = Store(pool: Option<Pool>, shares: map<Address, int128>)

  const Fresh := Store(None, map[])

  // What a mint charges for n shares.
  function Cost(p: Pool, n: nat): nat {
    (n * p.assets + p.shares - 1) / p.shares
  }

  // Before initialisation both totals read as one.
  function Current(s: Store): Pool {
    if s.pool.Some? then s.pool.value else Pool(1, 1)
  }

  datatype Call =
    | Initialize(seedAssets: int128, seedShares: int128)
    | Mint(user: Address, shares: int128)

  function Step(s: Store, c: Call): Option<Store> {
    match c
    case Initialize(a, sh) =>
      if a <= 0 || sh <= 0 || s.pool.Some? then None else Some(s.(pool := Some(Pool(a, sh))))
    case Mint(user, n) =>
      var p := Current(s);
      if n <= 0 || !FitsInt128(n * p.assets) || !FitsInt128(n * p.assets + p.shares) then None
      else if !FitsInt128(Read(s.shares, user) + n) || !FitsInt128(p.assets + Cost(p, n)) || !FitsInt128(p.shares + n)
      then None
      else Some(Store(Some(Pool(p.assets + Cost(p, n), p.shares + n)), s.shares[user := Read(s.shares, user) + n]))
  }

  function Run(s: Store, calls: seq<Call>): Store
    decreases |calls|
  {
    if calls == [] then s else Run(After(s, Step(s, calls[0])), calls[1..])
  }

  class SecureVault {
    var pool: Option<Pool>
    var shares: map<Address, int128>

    ghost function Stored(): Store
      reads this
    {
      Store(pool, shares)
    }

    constructor ()
      ensures Stored() == Fresh
    {
      pool, shares := None, map[];
    }

    method Initialize(seedAssets: int128, seedShares: int128) returns (ok: bool)
      modifies this
      ensures Settles(old(Stored()), Step(old(Stored()), Call.Initialize(seedAssets, seedShares)), ok, Stored())
    {
      if !(seedAssets > 0 && seedShares > 0) || pool.Some? {
        return false;
      }
      pool := Some(Pool(seedAssets, seedShares));
      return true;
    }

    method Mint(user: Address, n: int128) returns (ok: bool)
      modifies this
      ensures Settles(old(Stored()), Step(old(Stored()), Call.Mint(user, n)), ok, Stored())
    {
      if n <= 0 {
        return false;
      }
      var totalAssets: positive128, totalShares: positive128 := 1, 1;
      if pool.Some? {
        totalAssets, totalShares := pool.value.assets, pool.value.shares;
      }
      ghost var p := Pool(totalAssets, totalShares);
      assert p == Current(Stored());
      var numerator := n * totalAssets;
      if !FitsInt128(numerator) || !FitsInt128(numerator + totalShares) {
        return false;
      }
      var requiredAssets := TruncDiv(numerator + totalShares - 1, totalShares);
      assert requiredAssets == Cost(p, n);
      var current := Read(shares, user);
      if !FitsInt128(current + n) {
        return false;
      }
      var before := shares;
      shares := shares[user := current + n];
      if !FitsInt128(totalAssets + requiredAssets) || !FitsInt128(totalShares + n) {
        shares := before;
        return false;
      }
      pool := Some(Pool(totalAssets + requiredAssets, totalShares + n));
      return true;
    }
  }

  // ----- The price

  lemma CeilingBounds(x: nat, d: nat)
    requires d > 0
    ensures var c := (x + d - 1) / d; (c - 1) * d < x <= c * d
  {
  }

  // The cost is the least charge that does not dilute: one unit less and n shares would
  // be bought below the price.
  lemma CostIsLeast(p: Pool, n: nat) returns (c: nat)
    requires n > 0
    ensures c == Cost(p, n) && c >= 1
    ensures (c - 1) * p.shares < n * p.assets <= c * p.shares
  {
    c := Cost(p, n);
    CeilingBounds(n * p.assets, p.shares);
    assert n * p.assets > 0;
  }

  lemma ValueBounds(A: nat, S: nat, n: nat, c: nat) returns (value: nat)
    requires S > 0 && (c - 1) * S < n * A <= c * S
    ensures value == n * (A + c) / (S + n)
    ensures c - 1 <= value <= c
  {
    value := FloorBounds(n, A + c, S + n);
    assert n * (A + c) == n * A + n * c;
    assert c * (S + n) == c * S + n * c;
    assert (c - 1) * (S + n) == (c - 1) * S + n * c - n;
    Cancel(value, c, S + n);
    CancelStrict(c - 1, value + 1, S + n);
  }

  // Valued at the price after the mint and rounded down, the new shares are worth what
  // was charged for them, or one unit less.
  lemma MintRoundTrip(p: Pool, n: nat) returns (charged: nat, value: nat)
    requires n > 0
    ensures charged == Cost(p, n)
    ensures value == n * (p.assets + charged) / (p.shares + n)
    ensures charged - 1 <= value <= charged
  {
    charged := CostIsLeast(p, n);
    value := ValueBounds(p.assets, p.shares, n, charged);
  }

  ghost predicate PriceNotBelow(p: Pool, q: Pool) {
    q.assets * p.shares >= p.assets * q.shares
  }

  lemma PriceTransitive(p: Pool, q: Pool, r: Pool)
    requires PriceNotBelow(p, q) && PriceNotBelow(q, r)
    ensures PriceNotBelow(p, r)
  {
  }

  lemma MintEffect(s: Store, user: Address, n: int128)
    requires Step(s, Mint(user, n)).Some?
    ensures var p, q := Current(s), Current(Step(s, Mint(user, n)).value);
            q.shares == p.shares + n && q.assets == p.assets + Cost(p, n) && q.assets >= p.assets + 1
    ensures PriceNotBelow(Current(s), Current(Step(s, Mint(user, n)).value))
  {
    var p := Current(s);
    var c := CostIsLeast(p, n);
    assert (p.assets + c) * p.shares == p.assets * p.shares + c * p.shares;
    assert p.assets * (p.shares + n) == p.assets * p.shares + n * p.assets;
  }

  lemma MintAtCost(s: Store, user: Address, n: int128, A: nat, S: nat, c: nat, product: int)
    requires A == Current(s).assets && S == Current(s).shares
    requires n > 0 && product == n * A && c == Cost(Current(s), n)
    ensures Step(s, Mint(user, n)).Some?
       <==> && product + S <= I128_MAX && A + c <= I128_MAX && S + n <= I128_MAX
            && I128_MIN <= Read(s.shares, user) + n <= I128_MAX
    ensures Step(s, Mint(user, n)).Some? ==>
              (Step(s, Mint(user, n)).value
               == Store(Some(Pool(A + c, S + n)), s.shares[user := Read(s.shares, user) + n]))
  {
    assert product >= 0;
  }

  // What a mint of n shares does and when, in a pool of A assets and S shares: it charges c,
  // the least with c * S >= n * A, and is accepted exactly when n is positive and the sums
  // and the product fit. An uninitialised pool counts as one asset and one share.
  lemma MintExactly(s: Store, user: Address, n: int128) returns (A: nat, S: nat, c: nat)
    ensures s.pool.Some? ==> A == s.pool.value.assets && S == s.pool.value.shares
    ensures s.pool.None? ==> A == 1 && S == 1
    ensures n > 0 ==> (c - 1) * S < n * A <= c * S
    ensures Step(s, Mint(user, n)).Some?
       <==> && n > 0 && n * A + S <= I128_MAX && A + c <= I128_MAX && S + n <= I128_MAX
            && I128_MIN <= Read(s.shares, user) + n <= I128_MAX
    ensures Step(s, Mint(user, n)).Some? ==>
              var t := Step(s, Mint(user, n)).value;
              && t.pool.Some? && t.pool.value.assets == A + c && t.pool.value.shares == S + n
              && t.shares == s.shares[user := Read(s.shares, user) + n]
  {
    A, S, c := Current(s).assets, Current(s).shares, 0;
    if n > 0 {
      c := CostIsLeast(Current(s), n);
      MintAtCost(s, user, n, A, S, c, n * A);
    }
  }

  // The pool is seeded once, with the assets first and the shares second.
  lemma InitializeExactly(s: Store, seedAssets: int128, seedShares: int128)
    ensures Step(s, Call.Initialize(seedAssets, seedShares)).Some? <==> s.pool.None? && seedAssets > 0 && seedShares > 0
    ensures Step(s, Call.Initialize(seedAssets, seedShares)).Some? ==>
              var t := Step(s, Call.Initialize(seedAssets, seedShares)).value;
              && t.pool.Some? && t.pool.value.assets == seedAssets && t.pool.value.shares == seedShares
              && t.shares == s.shares
  {
  }

  // No initialisation can succeed any more, or none is attempted.
  ghost predicate SeedSettled(s: Store, calls: seq<Call>) {
    s.pool.Some? || forall c :: c in calls ==> c.Mint?
  }

  function AcceptedCount(s: Store, calls: seq<Call>): nat
    decreases |calls|
  {
    if calls == [] then 0
    else (if Step(s, calls[0]).Some? then 1 else 0) + AcceptedCount(After(s, Step(s, calls[0])), calls[1..])
  }

  // Along any sequence of calls the price never falls and every accepted mint is paid for.
  lemma {:induction false} MintsRaisePrice(s: Store, calls: seq<Call>)
    requires SeedSettled(s, calls)
    ensures PriceNotBelow(Current(s), Current(Run(s, calls)))
    ensures Current(Run(s, calls)).shares >= Current(s).shares
    ensures Current(Run(s, calls)).assets >= Current(s).assets + AcceptedCount(s, calls)
    decreases |calls|
  {
    if calls != [] {
      var t := After(s, Step(s, calls[0]));
      assert calls[0] in calls;
      if Step(s, calls[0]).Some? {
        assert calls[0].Mint?;
        MintEffect(s, calls[0].user, calls[0].shares);
      }
      MintsRaisePrice(t, calls[1..]);
      PriceTransitive(Current(s), Current(t), Current(Run(s, calls)));
    }
  }

  lemma PaidAtLeast(A: nat, S: nat, paid: nat, n: nat, c: nat)
    requires S > 0 && (A + paid) * S >= A * (S + n)
    requires (c - 1) * S < n * A
    ensures paid >= c
  {
    assert paid * S >= n * A;
    CancelStrict(c - 1, paid, S);
  }

  lemma DirectCost(p: Pool, q: Pool)
    requires PriceNotBelow(p, q) && q.shares >= p.shares && q.assets >= p.assets
    ensures q.assets - p.assets >= Cost(p, q.shares - p.shares)
  {
    var n := q.shares - p.shares;
    if n > 0 {
      var c := CostIsLeast(p, n);
      PaidAtLeast(p.assets, p.shares, q.assets - p.assets, n, c);
    } else {
      assert Cost(p, 0) == 0;
    }
  }

  // However a purchase is split into mints, by whomever, and although each mint moves the
  // price for the next, it costs at least as much as one mint of the same total.
  lemma SplittingNeverCheaper(s: Store, calls: seq<Call>)
    requires SeedSettled(s, calls)
    ensures var p, q := Current(s), Current(Run(s, calls));
            && q.shares >= p.shares
            && q.assets - p.assets >= Cost(p, q.shares - p.shares)
  {
    MintsRaisePrice(s, calls);
    DirectCost(Current(s), Current(Run(s, calls)));
  }

  // ----- Whole runs

  // The shares held are the total less what was there at the start: the seed, or the
  // default of one when minting began without initialisation.
  lemma {:induction false} RunSharesAddUp(s: Store, calls: seq<Call>)
    requires SeedSettled(s, calls)
    ensures Sum(Run(s, calls).shares) - Sum(s.shares) == Current(Run(s, calls)).shares - Current(s).shares
    decreases |calls|
  {
    if calls != [] {
      var c := calls[0];
      assert c in calls;
      if c.Mint? && Step(s, c).Some? {
        SumWrite(s.shares, c.user, Read(s.shares, c.user) + c.shares);
      }
      RunSharesAddUp(After(s, Step(s, c)), calls[1..]);
    }
  }

  function MintedBy(s: Store, u: Address, calls: seq<Call>): int
    decreases |calls|
  {
    if calls == [] then 0
    else
      (if calls[0].Mint? && calls[0].user == u && Step(s, calls[0]).Some? then calls[0].shares else 0)
      + MintedBy(After(s, Step(s, calls[0])), u, calls[1..])
  }

  // And every holder has exactly the shares minted to that holder.
  lemma {:induction false} RunCreditsMinter(s: Store, u: Address, calls: seq<Call>)
    ensures Read(Run(s, calls).shares, u) == Read(s.shares, u) + MintedBy(s, u, calls)
    decreases |calls|
  {
    if calls != [] {
      RunCreditsMinter(After(s, Step(s, calls[0])), u, calls[1..]);
    }
  }
}
