/** Transfers with a minimum fee (vulnerable/fee_precision_loss/src/secure.rs). */
module FeeTransfer {
  import opened Host
  import opened Sums

  const FEE_BPS := 100
  const BPS_DENOM := 10_000

  // One per cent rounded down, but never zero.
  function Fee(amount: nat): (f: nat)
    ensures f >= 1
  {
    var raw := amount * FEE_BPS / BPS_DENOM;
    if raw == 0 then 1 else raw
  }

  // ----- Splitting a transfer

  function Total(pieces: seq<nat>): nat {
    if pieces == [] then 0 else pieces[0] + Total(pieces[1..])
  }

  function Fees(pieces: seq<nat>): nat {
    if pieces == [] then 0 else Fee(pieces[0]) + Fees(pieces[1..])
  }

  ghost predicate AllPositive(pieces: seq<nat>) {
    forall i :: 0 <= i < |pieces| ==> pieces[i] > 0
  }

  lemma FeeShape(a: nat)
    ensures Fee(a) == if a < 100 then 1 else a / 100
    ensures a > 0 ==> 200 * Fee(a) > a
  {
  }

  lemma FeeWithinAmount(a: nat)
    requires a > 0
    ensures Fee(a) <= a
  {
  }

  lemma {:induction false} FeesAtLeastPieces(pieces: seq<nat>)
    ensures Fees(pieces) >= |pieces|
  {
    if pieces != [] {
      FeesAtLeastPieces(pieces[1..]);
    }
  }

  // However a total is split into transfers, the fees are at least the fee of a single
  // transfer less one unit for each piece after the first.
  lemma {:induction false} SplitPaysSingleFee(pieces: seq<nat>)
    requires pieces != [] && AllPositive(pieces)
    ensures Fees(pieces) >= Fee(Total(pieces)) - (|pieces| - 1)
  {
    FeeShape(Total(pieces));
    FeeShape(pieces[0]);
    if |pieces| > 1 {
      SplitPaysSingleFee(pieces[1..]);
      FeeShape(Total(pieces[1..]));
    } else {
      assert Total(pieces) == pieces[0] + Total([]);
    }
  }

  // The fees are always more than half a per cent of what was moved.
  lemma {:induction false} SplitPaysHalfPercent(pieces: seq<nat>)
    requires pieces != [] && AllPositive(pieces)
    ensures 200 * Fees(pieces) > Total(pieces)
  {
    FeeShape(pieces[0]);
    if |pieces| > 1 {
      SplitPaysHalfPercent(pieces[1..]);
    } else {
      assert Total(pieces) == pieces[0] + Total([]);
    }
  }

  // ----- The contract

  datatype Store = Store(balances: map<Address, int128>, feesCollected: int128)

  const Fresh := Store(map[], 0)

  datatype Call =
    | Mint(user: Address, amount: int128)
    | Transfer(sender: Address, receiver: Address, amount: int128)

  function Step(s: Store, c: Call): Option<Store> {
    match c
    case Mint(user, amount) =>
      if amount <= 0 || !FitsInt128(Read(s.balances, user) + amount) then None
      else Some(s.(balances := s.balances[user := Read(s.balances, user) + amount]))
    case Transfer(a, b, amount) =>
      if amount <= 0 || !FitsInt128(amount * FEE_BPS) || Read(s.balances, a) < amount then None
      else
        var debited := s.balances[a := Read(s.balances, a) - amount];
        if !FitsInt128(Read(debited, b) + amount) || !FitsInt128(Read(debited, b) + amount - Fee(amount))
           || !FitsInt128(s.feesCollected + Fee(amount))
        then None
        else Some(Store(debited[b := Read(debited, b) + amount - Fee(amount)], s.feesCollected + Fee(amount)))
  }

  function Run(s: Store, calls: seq<Call>): Store
    decreases |calls|
  {
    if calls == [] then s else Run(After(s, Step(s, calls[0])), calls[1..])
  }

  class SecureFeeContract {
    var balances: map<Address, int128>
    var feesCollected: int128

    ghost function Stored(): Store
      reads this
    {
      Store(balances, feesCollected)
    }

    constructor ()
      ensures Stored() == Fresh
    {
      balances, feesCollected := map[], 0;
    }

    method Mint(user: Address, amount: int128) returns (ok: bool)
      modifies this
      ensures Settles(old(Stored()), Step(old(Stored()), Call.Mint(user, amount)), ok, Stored())
    {
      if amount <= 0 {
        return false;
      }
      var bal := Read(balances, user);
      if !FitsInt128(bal + amount) {
        return false;
      }
      balances := balances[user := bal + amount];
      return true;
    }

    method Transfer(sender: Address, receiver: Address, amount: int128) returns (ok: bool)
      modifies this
      ensures Settles(old(Stored()), Step(old(Stored()), Call.Transfer(sender, receiver, amount)), ok, Stored())
    {
      if amount <= 0 || !FitsInt128(amount * FEE_BPS) {
        return false;
      }
      var rawFee := TruncDiv(amount * FEE_BPS, BPS_DENOM);
      var fee := if rawFee == 0 && FEE_BPS > 0 then 1 else rawFee;
      assert fee == Fee(amount);
      var fromBal := Read(balances, sender);
      if fromBal < amount {
        return false;
      }
      var before := balances;
      balances := balances[sender := fromBal - amount];
      // The receiver's balance is read after the first write, which matters when the two
      // are the same account.
      var toBal := Read(balances, receiver);
      if !FitsInt128(toBal + amount) || !FitsInt128(toBal + amount - fee) || !FitsInt128(feesCollected + fee) {
        balances := before;
        return false;
      }
      balances := balances[receiver := toBal + amount - fee];
      feesCollected := feesCollected + fee;
      return true;
    }
  }

  // ----- Whole runs

  ghost predicate Solvent(s: Store) {
    && (forall a :: a in s.balances ==> 0 <= s.balances[a])
    && 0 <= s.feesCollected
  }

  // Minted amounts and the amounts of the accepted transfers of a run.

  function Minted(s: Store, calls: seq<Call>): nat
    decreases |calls|
  {
    if calls == [] then 0
    else
      (if calls[0].Mint? && Step(s, calls[0]).Some? then calls[0].amount else 0)
      + Minted(After(s, Step(s, calls[0])), calls[1..])
  }

  function Transferred(s: Store, calls: seq<Call>): seq<nat>
    decreases |calls|
  {
    if calls == [] then []
    else
      (if calls[0].Transfer? && Step(s, calls[0]).Some? then [calls[0].amount] else [])
      + Transferred(After(s, Step(s, calls[0])), calls[1..])
  }

  lemma TransferConserves(s: Store, a: Address, b: Address, amount: int128)
    requires Solvent(s) && Step(s, Transfer(a, b, amount)).Some?
    ensures var t := Step(s, Transfer(a, b, amount)).value;
            Solvent(t) && Sum(t.balances) + t.feesCollected == Sum(s.balances) + s.feesCollected
  {
    FeeWithinAmount(amount);
    var debited := s.balances[a := Read(s.balances, a) - amount];
    SumWrite(s.balances, a, Read(s.balances, a) - amount);
    SumWrite(debited, b, Read(debited, b) + amount - Fee(amount));
  }

  lemma StepConserves(s: Store, c: Call)
    requires Solvent(s) && Step(s, c).Some?
    ensures Solvent(Step(s, c).value)
    ensures Sum(Step(s, c).value.balances) + Step(s, c).value.feesCollected
         == Sum(s.balances) + s.feesCollected + if c.Mint? then c.amount else 0
  {
    match c
    case Mint(user, amount) => SumWrite(s.balances, user, Read(s.balances, user) + amount);
    case Transfer(a, b, amount) => TransferConserves(s, a, b, amount);
  }

  // Balances plus collected fees are what was minted, self-transfers included, and no
  // balance ever goes below zero.
  lemma {:induction false} RunConserves(s: Store, calls: seq<Call>)
    requires Solvent(s)
    ensures Solvent(Run(s, calls))
    ensures Sum(Run(s, calls).balances) + Run(s, calls).feesCollected
         == Sum(s.balances) + s.feesCollected + Minted(s, calls)
    decreases |calls|
  {
    if calls != [] {
      if Step(s, calls[0]).Some? {
        StepConserves(s, calls[0]);
      }
      RunConserves(After(s, Step(s, calls[0])), calls[1..]);
    }
  }

  function NetChange(s: Store, a: Address, c: Call): int {
    if Step(s, c).None? then 0
    else
      match c
      case Mint(user, amount) => if user == a then amount else 0
      case Transfer(sender, receiver, amount) =>
        (if receiver == a then amount - Fee(amount) else 0) - (if sender == a then amount else 0)
  }

  // What the accepted calls of a run brought to an account, less what they took from it.
  function NetFlow(s: Store, a: Address, calls: seq<Call>): int
    decreases |calls|
  {
    if calls == [] then 0
    else NetChange(s, a, calls[0]) + NetFlow(After(s, Step(s, calls[0])), a, calls[1..])
  }

  lemma NetChangeExact(s: Store, a: Address, c: Call)
    ensures Read(After(s, Step(s, c)).balances, a) == Read(s.balances, a) + NetChange(s, a, c)
  {
  }

  // Every balance is what came in less what went out; only the fee is lost on the way, and
  // a transfer to oneself costs exactly the fee.
  lemma {:induction false} RunAccounts(s: Store, a: Address, calls: seq<Call>)
    ensures Read(Run(s, calls).balances, a) == Read(s.balances, a) + NetFlow(s, a, calls)
    decreases |calls|
  {
    if calls != [] {
      NetChangeExact(s, a, calls[0]);
      RunAccounts(After(s, Step(s, calls[0])), a, calls[1..]);
    }
  }

  lemma StepCollects(s: Store, c: Call)
    ensures After(s, Step(s, c)).feesCollected
         == s.feesCollected + if c.Transfer? && Step(s, c).Some? then Fee(c.amount) else 0
    ensures c.Transfer? && Step(s, c).Some? ==> c.amount > 0
  {
  }

  lemma FeesFirst(a: nat, rest: seq<nat>)
    ensures Fees([a] + rest) == Fee(a) + Fees(rest)
  {
    assert ([a] + rest)[1..] == rest;
  }

  // What reaches x of an amount that goes to y.
  function Arrives(x: Address, y: Address, amount: int): int {
    if x == y then amount else 0
  }

  // In every reachable state a transfer is accepted exactly when its amount is positive and
  // covered by what came in to the sender less what went out, and the sums fit: the
  // receiver's, for a transfer to oneself with the amount already taken off, and the fees'.
  // It moves the amount, less the larger of one and one per cent, which is collected.
  lemma TransferExactly(calls: seq<Call>, a: Address, b: Address, amount: int128) returns (fee: int)
    ensures amount > 0 ==> fee == if amount < 100 then 1 else amount / 100
    ensures var s := Run(Fresh, calls);
            var held := NetFlow(Fresh, a, calls);
            var next := Step(s, Transfer(a, b, amount));
            && (next.Some?
                <==> && amount > 0 && amount * 100 <= I128_MAX && held >= amount
                     && (a == b || NetFlow(Fresh, b, calls) + amount <= I128_MAX)
                     && s.feesCollected + fee <= I128_MAX)
            && (next.Some? ==>
                  && next.value.feesCollected == s.feesCollected + fee
                  && forall x :: Read(next.value.balances, x)
                       == NetFlow(Fresh, x, calls) + Arrives(x, b, amount - fee) - Arrives(x, a, amount))
  {
    var s := Run(Fresh, calls);
    fee := 0;
    RunConserves(Fresh, calls);
    RunAccounts(Fresh, a, calls);
    RunAccounts(Fresh, b, calls);
    if amount > 0 {
      fee := Fee(amount);
      FeeShape(amount);
      FeeWithinAmount(amount);
    }
    if Step(s, Transfer(a, b, amount)).Some? {
      forall x ensures Read(Step(s, Transfer(a, b, amount)).value.balances, x)
          == NetFlow(Fresh, x, calls) + Arrives(x, b, amount - fee) - Arrives(x, a, amount)
      {
        RunAccounts(Fresh, x, calls);
      }
    }
  }

  lemma MintExactly(calls: seq<Call>, a: Address, amount: int128)
    ensures Step(Run(Fresh, calls), Mint(a, amount)).Some?
       <==> amount > 0 && NetFlow(Fresh, a, calls) + amount <= I128_MAX
  {
    RunConserves(Fresh, calls);
    RunAccounts(Fresh, a, calls);
  }

  lemma {:induction false} RunCollects(s: Store, calls: seq<Call>)
    ensures Run(s, calls).feesCollected == s.feesCollected + Fees(Transferred(s, calls))
    ensures AllPositive(Transferred(s, calls))
    decreases |calls|
  {
    if calls != [] {
      var t := After(s, Step(s, calls[0]));
      var rest := Transferred(t, calls[1..]);
      StepCollects(s, calls[0]);
      RunCollects(t, calls[1..]);
      if calls[0].Transfer? && Step(s, calls[0]).Some? {
        assert Transferred(s, calls) == [calls[0].amount] + rest;
        FeesFirst(calls[0].amount, rest);
      } else {
        assert Transferred(s, calls) == rest;
      }
    }
  }

  // Whatever the accounts and the order, a run that transfers anything collects at least
  // one unit a transfer, at least the fee of one transfer of the same total less one unit
  // for each transfer after the first, and more than half a per cent.
  lemma RunCannotAvoidFees(s: Store, calls: seq<Call>)
    requires Transferred(s, calls) != []
    ensures var collected, moved := Run(s, calls).feesCollected - s.feesCollected, Transferred(s, calls);
            && collected >= |moved|
            && collected >= Fee(Total(moved)) - (|moved| - 1)
            && 200 * collected > Total(moved)
  {
    RunCollects(s, calls);
    var moved := Transferred(s, calls);
    FeesAtLeastPieces(moved);
    SplitPaysSingleFee(moved);
    SplitPaysHalfPercent(moved);
  }
}
