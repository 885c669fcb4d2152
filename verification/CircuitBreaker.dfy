/** The price circuit breaker (vulnerable/inactive_circuit_breaker/src/secure.rs). */
module CircuitBreaker {
  import opened Host
  import opened Rounding

  const BPS := 10_000
  const PRICE_SCALE := 10_000_000

  // The Admin, Price, MaxMoveBps and Paused entries, all written first by `initialize`.
  datatype Market = Market(admin: Address, price: positive128, maxMoveBps: uint32, paused: bool)

  function Distance(a: int, b: int): nat {
    if a > b then a - b else b - a
  }

  // The move in whole basis points of the old price.
  function MoveBps(oldPrice: positive128, newPrice: positive128): nat {
    Distance(newPrice, oldPrice) * BPS / oldPrice
  }

  datatype Call =
    | Initialize(admin: Address, price: int128, maxMoveBps: uint32)
    | UpdatePrice(actor: Address, price: int128)
    | ForcePause(actor: Address)
    | Unpause(actor: Address)

  function Step(s: Option<Market>, c: Call): Option<Option<Market>> {
    match c
    case Initialize(admin, price, bps) =>
      if s.Some? || price <= 0 || bps == 0 then None else Some(Some(Market(admin, price, bps, false)))
    case UpdatePrice(actor, price) =>
      if s.None? || actor != s.value.admin || price <= 0 || !FitsInt128(Distance(price, s.value.price) * BPS)
         || MoveBps(s.value.price, price) > s.value.maxMoveBps
      then None
      else Some(Some(s.value.(price := price)))
    case ForcePause(actor) =>
      if s.None? || actor != s.value.admin then None else Some(Some(s.value.(paused := true)))
    case Unpause(actor) =>
      if s.None? || actor != s.value.admin then None else Some(Some(s.value.(paused := false)))
  }

  function Run(s: Option<Market>, calls: seq<Call>): Option<Market>
    decreases |calls|
  {
    if calls == [] then s else Run(After(s, Step(s, calls[0])), calls[1..])
  }

  // The two price queries; none when they panic: the market is paused, has no price, or the
  // product overflows.
  function Swapped(s: Option<Market>, amountIn: int128): Option<int> {
    if s.None? || s.value.paused || !FitsInt128(amountIn * s.value.price) then None
    else Some(TruncDiv(amountIn * s.value.price, PRICE_SCALE))
  }

  function Liquidated(s: Option<Market>, debt: int128): Option<int> {
    if s.None? || s.value.paused || !FitsInt128(debt * PRICE_SCALE) then None
    else Some(TruncDiv(debt * PRICE_SCALE, s.value.price))
  }

  class SecureMarket {
    var market: Option<Market>

    constructor ()
      ensures market == None
    {
      market := None;
    }

    method Initialize(admin: Address, initialPrice: int128, maxMoveBps: uint32) returns (ok: bool)
      modifies this
      ensures Settles(old(market), Step(old(market), Call.Initialize(admin, initialPrice, maxMoveBps)), ok, market)
    {
      if market.Some? || initialPrice <= 0 || maxMoveBps == 0 {
        return false;
      }
      market := Some(Market(admin, initialPrice, maxMoveBps, false));
      return true;
    }

    method UpdatePrice(actor: Address, newPrice: int128) returns (ok: bool)
      modifies this
      ensures Settles(old(market), Step(old(market), Call.UpdatePrice(actor, newPrice)), ok, market)
    {
      if market.None? || actor != market.value.admin || newPrice <= 0 {
        return false;
      }
      var oldPrice := market.value.price;
      var delta := if newPrice > oldPrice then newPrice - oldPrice else oldPrice - newPrice;
      if !FitsInt128(delta * 10_000) {
        return false;
      }
      var moveBps := TruncDiv(delta * 10_000, oldPrice);
      if moveBps > market.value.maxMoveBps {
        // The contract pauses the market and then panics, which undoes the pause.
        var before := market;
        market := Some(market.value.(paused := true));
        market := before;
        return false;
      }
      market := Some(market.value.(price := newPrice));
      return true;
    }

    // Before initialisation the flag reads as not paused, and there is no price.
    method SwapOut(amountIn: int128) returns (r: Option<int>)
      ensures r == Swapped(market, amountIn)
    {
      var paused := market.Some? && market.value.paused;
      if paused || market.None? {
        return None;
      }
      var price := market.value.price;
      if !FitsInt128(amountIn * price) {
        return None;
      }
      return Some(TruncDiv(amountIn * price, 10_000_000));
    }

    method Liquidate(debt: int128) returns (r: Option<int>)
      ensures r == Liquidated(market, debt)
    {
      var paused := market.Some? && market.value.paused;
      if paused || market.None? {
        return None;
      }
      var price := market.value.price;
      if !FitsInt128(debt * 10_000_000) {
        return None;
      }
      return Some(TruncDiv(debt * 10_000_000, price));
    }

    method ForcePause(actor: Address) returns (ok: bool)
      modifies this
      ensures Settles(old(market), Step(old(market), Call.ForcePause(actor)), ok, market)
    {
      if market.None? || actor != market.value.admin {
        return false;
      }
      market := Some(market.value.(paused := true));
      return true;
    }

    method Unpause(actor: Address) returns (ok: bool)
      modifies this
      ensures Settles(old(market), Step(old(market), Call.Unpause(actor)), ok, market)
    {
      if market.None? || actor != market.value.admin {
        return false;
      }
      market := Some(market.value.(paused := false));
      return true;
    }
  }

  // ----- The threshold

  lemma MoveWithin(delta: nat, price: positive128, m: nat)
    ensures delta * BPS / price <= m <==> delta * BPS < (m + 1) * price
  {
    var q := FloorBounds(delta, BPS, price);
    if q <= m {
      Scale(q + 1, m + 1, price);
    }
    if delta * BPS < (m + 1) * price {
      CancelStrict(q, m + 1, price);
    }
  }

  // An in-range update by the admin is accepted exactly when the move stays strictly
  // below maxMoveBps + 1 basis points of the old price.
  lemma AcceptedMove(m: Market, price: positive128)
    requires FitsInt128(Distance(price, m.price) * BPS)
    ensures Step(Some(m), UpdatePrice(m.admin, price)).Some?
       <==> Distance(price, m.price) * BPS < (m.maxMoveBps + 1) * m.price
  {
    MoveWithin(Distance(price, m.price), m.price, m.maxMoveBps);
  }

  function AcceptedUpdates(s: Option<Market>, calls: seq<Call>): nat
    decreases |calls|
  {
    if calls == [] then 0
    else
      (if calls[0].UpdatePrice? && Step(s, calls[0]).Some? then 1 else 0)
      + AcceptedUpdates(After(s, Step(s, calls[0])), calls[1..])
  }

  lemma StepMove(m: Market, price: positive128)
    requires Step(Some(m), UpdatePrice(m.admin, price)).Some?
    ensures price * BPS < m.price * (BPS + 1 + m.maxMoveBps)
    ensures price * BPS > m.price * (BPS - 1 - m.maxMoveBps)
  {
    AcceptedMove(m, price);
  }

  // Multiplying one accepted step into the bound for the remaining ones.

  lemma ChainUp(x: nat, x': nat, r: nat, B: nat, g: nat, P: nat, G: nat)
    requires r * P <= x' * G && x' * B < x * g && G > 0
    ensures r * (B * P) < x * (g * G)
  {
  }

  lemma ChainDown(x: nat, x': nat, r: nat, B: nat, g: nat, P: nat, G: nat)
    requires r * P >= x' * G && x' * B > x * g && G > 0
    ensures r * (B * P) > x * (g * G)
  {
  }

  // After n accepted updates the price has grown by less than ((10001 + m) / 10000)^n.
  lemma {:induction false} RunPriceCeiling(s: Market, calls: seq<Call>)
    ensures var n := AcceptedUpdates(Some(s), calls);
            && Run(Some(s), calls).Some?
            && Run(Some(s), calls).value.price * Pow(BPS, n) <= s.price * Pow(BPS + 1 + s.maxMoveBps, n)
            && (n >= 1 ==> Run(Some(s), calls).value.price * Pow(BPS, n) < s.price * Pow(BPS + 1 + s.maxMoveBps, n))
    decreases |calls|
  {
    if calls != [] {
      var c := calls[0];
      var t := After(Some(s), Step(Some(s), c)).value;
      RunPriceCeiling(t, calls[1..]);
      if c.UpdatePrice? && Step(Some(s), c).Some? {
        var n := AcceptedUpdates(Some(t), calls[1..]);
        StepMove(s, c.price);
        ChainUp(s.price, t.price, Run(Some(s), calls).value.price, BPS, BPS + 1 + s.maxMoveBps,
                Pow(BPS, n), Pow(BPS + 1 + s.maxMoveBps, n));
      }
    }
  }

  // And, below a threshold of 9999, has fallen by less than ((9999 - m) / 10000)^n.
  lemma {:induction false} RunPriceFloor(s: Market, calls: seq<Call>)
    requires s.maxMoveBps < BPS - 1
    ensures var n := AcceptedUpdates(Some(s), calls);
            && Run(Some(s), calls).Some?
            && Run(Some(s), calls).value.price * Pow(BPS, n) >= s.price * Pow(BPS - 1 - s.maxMoveBps, n)
            && (n >= 1 ==> Run(Some(s), calls).value.price * Pow(BPS, n) > s.price * Pow(BPS - 1 - s.maxMoveBps, n))
    decreases |calls|
  {
    if calls != [] {
      var c := calls[0];
      var t := After(Some(s), Step(Some(s), c)).value;
      RunPriceFloor(t, calls[1..]);
      if c.UpdatePrice? && Step(Some(s), c).Some? {
        var n := AcceptedUpdates(Some(t), calls[1..]);
        StepMove(s, c.price);
        ChainDown(s.price, t.price, Run(Some(s), calls).value.price, BPS, BPS - 1 - s.maxMoveBps,
                  Pow(BPS, n), Pow(BPS - 1 - s.maxMoveBps, n));
      }
    }
  }

  // ----- The pause flag

  // The flag that the explicit pauses and unpauses by the admin leave behind.
  function LastPause(flag: bool, admin: Address, calls: seq<Call>): bool
    decreases |calls|
  {
    if calls == [] then flag
    else
      var c := calls[0];
      var next := if c == ForcePause(admin) then true else if c == Unpause(admin) then false else flag;
      LastPause(next, admin, calls[1..])
  }

  // Only the admin's explicit calls move the flag. A price update that breaches the
  // threshold writes it and then panics, so a breach never pauses the market, although
  // the contract's documentation says it does.
  lemma {:induction false} BreachNeverPauses(s: Market, calls: seq<Call>)
    ensures Run(Some(s), calls).Some?
    ensures Run(Some(s), calls).value.admin == s.admin
    ensures Run(Some(s), calls).value.paused == LastPause(s.paused, s.admin, calls)
    decreases |calls|
  {
    if calls != [] {
      BreachNeverPauses(After(Some(s), Step(Some(s), calls[0])).value, calls[1..]);
    }
  }

  // ----- The state after a run, and what it blocks

  function PriceAfter(price: int, m: Market, c: Call): int {
    if && c.UpdatePrice? && c.actor == m.admin && c.price > 0
       && FitsInt128((c.price - price) * 10_000) && FitsInt128((price - c.price) * 10_000)
       && (c.price - price) * 10_000 < (m.maxMoveBps + 1) * price
       && (price - c.price) * 10_000 < (m.maxMoveBps + 1) * price
    then c.price else price
  }

  // The price that updates leave: those by the admin, to a positive price whose distance
  // from the old one, times 10000, fits and is below (maxMoveBps + 1) times the old one.
  function LastPrice(price: int, m: Market, calls: seq<Call>): int
    decreases |calls|
  {
    if calls == [] then price
    else LastPrice(PriceAfter(price, m, calls[0]), m, calls[1..])
  }

  lemma StepPrice(m: Market, c: Call)
    ensures var t := After(Some(m), Step(Some(m), c));
            && t.Some? && t.value.price == PriceAfter(m.price, m, c)
            && t.value.admin == m.admin && t.value.maxMoveBps == m.maxMoveBps
  {
    if c.UpdatePrice? && c.price > 0 && FitsInt128(Distance(c.price, m.price) * BPS) {
      AcceptedMove(m, c.price);
    }
  }

  lemma {:induction false} SamePrices(price: int, m: Market, n: Market, calls: seq<Call>)
    requires m.admin == n.admin && m.maxMoveBps == n.maxMoveBps
    ensures LastPrice(price, m, calls) == LastPrice(price, n, calls)
    decreases |calls|
  {
    if calls != [] {
      SamePrices(PriceAfter(price, m, calls[0]), m, n, calls[1..]);
    }
  }

  lemma {:induction false} RunPrice(s: Market, calls: seq<Call>)
    ensures var t := Run(Some(s), calls);
            && t.Some? && t.value.price == LastPrice(s.price, s, calls)
            && t.value.admin == s.admin && t.value.maxMoveBps == s.maxMoveBps
    decreases |calls|
  {
    if calls != [] {
      StepPrice(s, calls[0]);
      var t := After(Some(s), Step(Some(s), calls[0])).value;
      RunPrice(t, calls[1..]);
      SamePrices(t.price, t, s, calls[1..]);
    }
  }

  // A market is opened by the first initialisation with a positive price and threshold, and
  // never again; before that every call and every query panics.
  lemma OpenedOnce(s: Option<Market>, admin: Address, price: int128, bps: uint32, c: Call, x: int128)
    ensures Step(s, Call.Initialize(admin, price, bps)).Some? <==> s.None? && price > 0 && bps > 0
    ensures s.None? && price > 0 && bps > 0 ==>
              var m := After(s, Step(s, Call.Initialize(admin, price, bps)));
              && m.Some? && m.value.admin == admin && m.value.price == price
              && m.value.maxMoveBps == bps && !m.value.paused
    ensures s.None? && !c.Initialize? ==> Step(s, c).None?
    ensures s.None? ==> Swapped(s, x).None? && Liquidated(s, x).None?
  {
  }

  // A quotient rounded toward zero, in terms of products.
  ghost predicate Rounded(q: int, product: int, divisor: int) {
    if product >= 0 then 0 <= q && q * divisor <= product < (q + 1) * divisor
    else q <= 0 && (q - 1) * divisor < product <= q * divisor
  }

  // From initialisation on, over every run: while the admin's last explicit decision was a
  // pause, every swap and every liquidation panics. Otherwise each panics exactly when its
  // product leaves the 128 bits, and is computed at the price of the last accepted update.
  lemma PauseBlocksQueries(admin: Address, price: int128, bps: uint32, calls: seq<Call>, x: int128)
    requires price > 0 && bps > 0
    ensures var s := Run(None, [Call.Initialize(admin, price, bps)] + calls);
            var p := LastPrice(price, Market(admin, price, bps, false), calls);
            if LastPause(false, admin, calls) then Swapped(s, x).None? && Liquidated(s, x).None?
            else
              && (Swapped(s, x).None? <==> x * p > I128_MAX || x * p < I128_MIN)
              && (Swapped(s, x).Some? ==> Rounded(Swapped(s, x).value, x * p, 10_000_000))
              && (Liquidated(s, x).None? <==> x * 10_000_000 > I128_MAX || x * 10_000_000 < I128_MIN)
              && (Liquidated(s, x).Some? ==> Rounded(Liquidated(s, x).value, x * 10_000_000, p))
  {
    var m := Market(admin, price, bps, false);
    var init := Call.Initialize(admin, price, bps);
    assert ([init] + calls)[1..] == calls && Step(None, init) == Some(Some(m));
    var s := Run(None, [init] + calls);
    assert s == Run(Some(m), calls);
    BreachNeverPauses(m, calls);
    RunPrice(m, calls);
    TruncDivTowardZero(x * s.value.price, PRICE_SCALE);
    TruncDivTowardZero(x * PRICE_SCALE, s.value.price);
  }

  // A hundredfold price against a threshold of five per cent panics, and the market goes
  // on swapping at the old price.
  lemma BreachLeavesMarketOpen(admin: Address)
    ensures var calls := [Call.Initialize(admin, 10_000_000, 500), Call.UpdatePrice(admin, 1_000_000_000)];
            var m := Run(None, calls);
            && m == Some(Market(admin, 10_000_000, 500, false))
            && Step(m, calls[1]).None?
            && Swapped(m, 1_000_000) == Some(1_000_000)
  {
    var calls := [Call.Initialize(admin, 10_000_000, 500), Call.UpdatePrice(admin, 1_000_000_000)];
    var m := Some(Market(admin, 10_000_000, 500, false));
    assert Step(None, calls[0]) == Some(m);
    assert MoveBps(10_000_000, 1_000_000_000) == 990_000;
    assert Step(m, calls[1]).None?;
    assert calls[1..] == [calls[1]] && calls[1..][1..] == [];
    assert Run(m, calls[1..]) == Run(m, []);
  }

  // ----- Rounding of swaps and liquidations

  // Converting at a / b and back loses less than b / a + 1 and never gains.
  lemma ConvertBack(x: nat, a: nat, b: nat) returns (y: nat, z: nat)
    requires a > 0 && b > 0
    ensures y == x * a / b && z == y * b / a
    ensures z <= x && (x - z) * a < b + a
    ensures z * a <= y * b <= x * a
  {
    y := FloorBounds(x, a, b);
    z := FloorBounds(y, b, a);
    Cancel(z, x, a);
  }

  lemma TruncDivNegated(a: int, b: int)
    requires b > 0
    ensures TruncDiv(0 - a, b) == 0 - TruncDiv(a, b)
  {
  }

  lemma RoundTripOfPositive(x: nat, p: positive128, y: int, z: int)
    requires y == TruncDiv(x * p, PRICE_SCALE) && z == TruncDiv(y * PRICE_SCALE, p)
    ensures 0 <= z <= x && (x - z) * p < PRICE_SCALE + p
  {
    var y', z' := ConvertBack(x, p, PRICE_SCALE);
  }

  lemma RoundTripOfNegative(x: int, p: positive128, y: int, z: int)
    requires x <= 0
    requires y == TruncDiv(x * p, PRICE_SCALE) && z == TruncDiv(y * PRICE_SCALE, p)
    ensures x <= z <= 0 && (z - x) * p < PRICE_SCALE + p
  {
    TruncDivNegated(x * p, PRICE_SCALE);
    assert (0 - x) * p == 0 - x * p;
    TruncDivNegated(y * PRICE_SCALE, p);
    RoundTripOfPositive(0 - x, p, 0 - y, 0 - z);
  }

  // At one price, swapping and liquidating the proceeds moves an amount of either sign
  // toward zero by less than 10^7 / price + 1.
  lemma SwapThenLiquidate(m: Market, x: int128, y: int128, z: int128)
    requires Swapped(Some(m), x) == Some(y) && Liquidated(Some(m), y) == Some(z)
    ensures x >= 0 ==> 0 <= z <= x && (x - z) * m.price < PRICE_SCALE + m.price
    ensures x <= 0 ==> x <= z <= 0 && (z - x) * m.price < PRICE_SCALE + m.price
  {
    if x >= 0 {
      RoundTripOfPositive(x, m.price, y, z);
    }
    if x <= 0 {
      RoundTripOfNegative(x, m.price, y, z);
    }
  }

  lemma PositiveMagnitudes(x: nat, p: positive128, y: int, q: positive128, z: int)
    requires y == TruncDiv(x * p, PRICE_SCALE) && z == TruncDiv(y * PRICE_SCALE, q)
    ensures 0 <= z && z * q <= x * p
  {
    var y' := FloorBounds(x, p, PRICE_SCALE);
    var z' := FloorBounds(y', PRICE_SCALE, q);
  }

  // The sizes of an amount, of what it swaps to and of what that liquidates to.
  lemma Magnitudes(x: int, p: positive128, y: int, q: positive128, z: int)
    requires y == TruncDiv(x * p, PRICE_SCALE) && z == TruncDiv(y * PRICE_SCALE, q)
    ensures x >= 0 ==> 0 <= z && z * q <= x * p
    ensures x <= 0 ==> z <= 0 && z * q >= x * p
  {
    if x >= 0 {
      PositiveMagnitudes(x, p, y, q, z);
    } else {
      TruncDivNegated(x * p, PRICE_SCALE);
      assert (0 - x) * p == 0 - x * p;
      TruncDivNegated(y * PRICE_SCALE, q);
      PositiveMagnitudes(0 - x, p, 0 - y, q, 0 - z);
    }
  }

  lemma GrowthBounded(x: nat, z: nat, p: nat, q: nat, B: nat, g: nat)
    requires p > 0 && z * q <= x * p && q * B >= p * g
    ensures z * g <= x * B
  {
  }

  lemma GrowthEitherSign(x: int, z: int, p: positive128, q: positive128, B: nat, g: nat)
    requires x >= 0 ==> 0 <= z && z * q <= x * p
    requires x <= 0 ==> z <= 0 && z * q >= x * p
    requires q * B >= p * g
    ensures x >= 0 ==> 0 <= z * g <= x * B
    ensures x <= 0 ==> 0 >= z * g >= x * B
  {
    if x >= 0 {
      GrowthBounded(x, z, p, q, B, g);
    } else {
      assert (0 - z) * q == 0 - z * q && (0 - x) * p == 0 - x * p;
      GrowthBounded(0 - x, 0 - z, p, q, B, g);
      assert (0 - z) * g == 0 - z * g && (0 - x) * B == 0 - x * B;
    }
  }

  // What is swapped at one price and liquidated n accepted updates later, whatever its
  // sign, cannot grow beyond the breaker's own factor (10000 / (9999 - m))^n.
  lemma LaterLiquidationBounded(s: Market, calls: seq<Call>, x: int128, y: int128, z: int128)
    requires s.maxMoveBps < BPS - 1
    requires Swapped(Some(s), x) == Some(y)
    requires Liquidated(Run(Some(s), calls), y) == Some(z)
    ensures var n := AcceptedUpdates(Some(s), calls);
            && (x >= 0 ==> 0 <= z * Pow(BPS - 1 - s.maxMoveBps, n) <= x * Pow(BPS, n))
            && (x <= 0 ==> 0 >= z * Pow(BPS - 1 - s.maxMoveBps, n) >= x * Pow(BPS, n))
  {
    var n := AcceptedUpdates(Some(s), calls);
    var p := Run(Some(s), calls).value.price;
    RunPriceFloor(s, calls);
    Magnitudes(x, s.price, y, p, z);
    GrowthEitherSign(x, z, s.price, p, Pow(BPS, n), Pow(BPS - 1 - s.maxMoveBps, n));
  }
}
