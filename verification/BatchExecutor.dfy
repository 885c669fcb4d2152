/** Transfer batches, atomic or skipping failed operations
    (vulnerable/batch_partial_failure/src/secure.rs and src/lib.rs). */
module BatchExecutor {
  import opened Host
  import opened Sums

  datatype Transfer = Transfer(sender: Address, receiver: Address, amount: int128)

  type Balances = map<Address, int128>

  predicate Sufficient(b: Balances, op: Transfer) {
    Read(b, op.sender) >= op.amount
  }

  // One operation whose sender has enough; none when the arithmetic overflows. The
  // receiver's balance is read after the sender's was written.
  function Applied(b: Balances, op: Transfer): Option<Balances> {
    if !FitsInt128(Read(b, op.sender) - op.amount) then None
    else
      var debited := b[op.sender := Read(b, op.sender) - op.amount];
      if !FitsInt128(Read(debited, op.receiver) + op.amount) then None
      else Some(debited[op.receiver := Read(debited, op.receiver) + op.amount])
  }

  // All operations, or none when some operation fails.
  function Atomic(b: Balances, ops: seq<Transfer>): Option<Balances>
    decreases |ops|
  {
    if ops == [] then Some(b)
    else if !Sufficient(b, ops[0]) || Applied(b, ops[0]).None? then None
    else Atomic(Applied(b, ops[0]).value, ops[1..])
  }

  // The operations that skipping insufficient ones applies; only an overflow panics.
  function Performed(b: Balances, ops: seq<Transfer>): Option<seq<Transfer>>
    decreases |ops|
  {
    if ops == [] then Some([])
    else if !Sufficient(b, ops[0]) then Performed(b, ops[1..])
    else if Applied(b, ops[0]).None? then None
    else
      var rest := Performed(Applied(b, ops[0]).value, ops[1..]);
      if rest.None? then None else Some([ops[0]] + rest.value)
  }

  // The balances that skipping insufficient operations leaves behind.
  function Skipping(b: Balances, ops: seq<Transfer>): Option<Balances>
    decreases |ops|
  {
    if ops == [] then Some(b)
    else if !Sufficient(b, ops[0]) then Skipping(b, ops[1..])
    else if Applied(b, ops[0]).None? then None
    else Skipping(Applied(b, ops[0]).value, ops[1..])
  }

  // ----- The atomic executor

  function MintStep(b: Balances, to: Address, amount: int128): Option<Balances> {
    if FitsInt128(Read(b, to) + amount) then Some(b[to := Read(b, to) + amount]) else None
  }

  class SecureBatchExecutor {
    var balances: Balances

    constructor ()
      ensures balances == map[]
    {
      balances := map[];
    }

    method Mint(to: Address, amount: int128) returns (ok: bool)
      modifies this
      ensures Settles(old(balances), MintStep(old(balances), to, amount), ok, balances)
    {
      var bal := Read(balances, to);
      if !FitsInt128(bal + amount) {
        return false;
      }
      balances := balances[to := bal + amount];
      return true;
    }

    method ExecuteBatch(ops: Vec<Transfer>) returns (ok: bool)
      modifies this
      ensures Settles(old(balances), Atomic(old(balances), ops), ok, balances)
    {
      var before := balances;
      for i := 0 to |ops|
        invariant Atomic(balances, ops[i..]) == Atomic(before, ops)
      {
        var op := ops[i];
        assert ops[i..][1..] == ops[i + 1..];
        var fromBal := Read(balances, op.sender);
        if fromBal < op.amount || !FitsInt128(fromBal - op.amount) {
          balances := before;
          return false;
        }
        ghost var current := balances;
        balances := balances[op.sender := fromBal - op.amount];
        var toBal := Read(balances, op.receiver);
        if !FitsInt128(toBal + op.amount) {
          balances := before;
          return false;
        }
        balances := balances[op.receiver := toBal + op.amount];
        assert Applied(current, op) == Some(balances);
      }
      return true;
    }
  }

  // ----- The skipping executor

  datatype Store = Store(balances: Balances, successCount: uint32, batchComplete: bool)

  lemma {:induction false} PerformedWithin(b: Balances, ops: seq<Transfer>)
    ensures Performed(b, ops).Some? <==> Skipping(b, ops).Some?
    ensures Performed(b, ops).Some? ==> |Performed(b, ops).value| <= |ops|
    decreases |ops|
  {
    if ops != [] {
      if !Sufficient(b, ops[0]) {
        PerformedWithin(b, ops[1..]);
      } else if Applied(b, ops[0]).Some? {
        PerformedWithin(Applied(b, ops[0]).value, ops[1..]);
      }
    }
  }

  function SkipStep(s: Store, ops: Vec<Transfer>): Option<Store> {
    PerformedWithin(s.balances, ops);
    var done := Performed(s.balances, ops);
    if done.None? then None else Some(Store(Skipping(s.balances, ops).value, |done.value|, true))
  }

  class VulnerableBatchExecutor {
    var balances: Balances
    var successCount: uint32
    var batchComplete: bool

    ghost function Stored(): Store
      reads this
    {
      Store(balances, successCount, batchComplete)
    }

    constructor ()
      ensures Stored() == Store(map[], 0, false)
    {
      balances, successCount, batchComplete := map[], 0, false;
    }

    method ExecuteBatch(ops: Vec<Transfer>) returns (ok: bool)
      modifies this
      ensures Settles(old(Stored()), SkipStep(old(Stored()), ops), ok, Stored())
    {
      var before := balances;
      var count := 0;
      PerformedWithin(before, ops);
      for i := 0 to |ops|
        invariant count <= i
        invariant successCount == old(successCount) && batchComplete == old(batchComplete)
        invariant Skipping(balances, ops[i..]) == Skipping(before, ops)
        invariant Performed(balances, ops[i..]).None? == Performed(before, ops).None?
        invariant Performed(before, ops).Some? ==>
                    count + |Performed(balances, ops[i..]).value| == |Performed(before, ops).value|
      {
        var op := ops[i];
        assert ops[i..][1..] == ops[i + 1..];
        var fromBal := Read(balances, op.sender);
        if fromBal < op.amount {
          continue;
        }
        ghost var current := balances;
        if !FitsInt128(fromBal - op.amount) {
          balances := before;
          return false;
        }
        balances := balances[op.sender := fromBal - op.amount];
        var toBal := Read(balances, op.receiver);
        if !FitsInt128(toBal + op.amount) {
          balances := before;
          return false;
        }
        balances := balances[op.receiver := toBal + op.amount];
        assert Applied(current, op) == Some(balances);
        count := count + 1;
      }
      successCount := count;
      batchComplete := true;
      return true;
    }
  }

  // ----- How the two relate

  // Skipping ends where the atomic executor ends on exactly the performed operations.
  lemma {:induction false} SkippingIsAtomicOnPerformed(b: Balances, ops: seq<Transfer>)
    requires Performed(b, ops).Some?
    ensures Skipping(b, ops) == Atomic(b, Performed(b, ops).value)
    decreases |ops|
  {
    if ops != [] {
      if !Sufficient(b, ops[0]) {
        SkippingIsAtomicOnPerformed(b, ops[1..]);
      } else {
        var next := Applied(b, ops[0]).value;
        SkippingIsAtomicOnPerformed(next, ops[1..]);
        var rest := Performed(next, ops[1..]).value;
        assert ([ops[0]] + rest)[1..] == rest;
      }
    }
  }

  // The atomic executor accepts a batch exactly when the skipping one performs all of
  // it, and then both leave the same balances.
  lemma {:induction false} AtomicIffNothingSkipped(b: Balances, ops: seq<Transfer>)
    ensures Atomic(b, ops).Some? <==> Performed(b, ops) == Some(ops)
    ensures Atomic(b, ops).Some? ==> Skipping(b, ops) == Atomic(b, ops)
    decreases |ops|
  {
    if ops != [] {
      PerformedWithin(b, ops[1..]);
      if Sufficient(b, ops[0]) && Applied(b, ops[0]).Some? {
        var next := Applied(b, ops[0]).value;
        AtomicIffNothingSkipped(next, ops[1..]);
        assert ops == [ops[0]] + ops[1..];
        if Performed(next, ops[1..]).Some? {
          var rest := Performed(next, ops[1..]).value;
          assert ([ops[0]] + rest)[1..] == rest;
        }
      }
    }
  }

  // The performed operations keep their order in the batch.
  ghost predicate Subsequence(a: seq<Transfer>, b: seq<Transfer>)
    decreases |b|
  {
    || a == []
    || (b != [] && ((a[0] == b[0] && Subsequence(a[1..], b[1..])) || Subsequence(a, b[1..])))
  }

  lemma {:induction false} PerformedInOrder(b: Balances, ops: seq<Transfer>)
    requires Performed(b, ops).Some?
    ensures Subsequence(Performed(b, ops).value, ops)
    decreases |ops|
  {
    if ops != [] {
      if !Sufficient(b, ops[0]) {
        PerformedInOrder(b, ops[1..]);
      } else {
        var next := Applied(b, ops[0]).value;
        PerformedInOrder(next, ops[1..]);
        var rest := Performed(next, ops[1..]).value;
        assert ([ops[0]] + rest)[1..] == rest;
      }
    }
  }

  // ----- Conservation

  function Inflow(ops: seq<Transfer>, a: Address): int {
    if ops == [] then 0 else (if ops[0].receiver == a then ops[0].amount else 0) + Inflow(ops[1..], a)
  }

  function Outflow(ops: seq<Transfer>, a: Address): int {
    if ops == [] then 0 else (if ops[0].sender == a then ops[0].amount else 0) + Outflow(ops[1..], a)
  }

  // Each balance changes by what the batch moved in and out of it ...
  lemma {:induction false} AtomicMoves(b: Balances, ops: seq<Transfer>, a: Address)
    requires Atomic(b, ops).Some?
    ensures Read(Atomic(b, ops).value, a) == Read(b, a) + Inflow(ops, a) - Outflow(ops, a)
    decreases |ops|
  {
    if ops != [] {
      AtomicMoves(Applied(b, ops[0]).value, ops[1..], a);
    }
  }

  lemma AppliedConserves(b: Balances, op: Transfer)
    requires Applied(b, op).Some?
    ensures Sum(Applied(b, op).value) == Sum(b)
  {
    var debited := b[op.sender := Read(b, op.sender) - op.amount];
    SumWrite(b, op.sender, Read(b, op.sender) - op.amount);
    SumWrite(debited, op.receiver, Read(debited, op.receiver) + op.amount);
  }

  // ... and the total not at all.
  lemma {:induction false} AtomicConserves(b: Balances, ops: seq<Transfer>)
    requires Atomic(b, ops).Some?
    ensures Sum(Atomic(b, ops).value) == Sum(b)
    decreases |ops|
  {
    if ops != [] {
      AppliedConserves(b, ops[0]);
      AtomicConserves(Applied(b, ops[0]).value, ops[1..]);
    }
  }

  // The whole account of a skipping batch: the stored count is the number of operations
  // performed, every balance is explained by those operations alone, and the total is kept.
  lemma SkippingBatch(s: Store, ops: Vec<Transfer>, a: Address)
    requires SkipStep(s, ops).Some?
    ensures var t, done := SkipStep(s, ops).value, Performed(s.balances, ops).value;
            && t.successCount == |done| && t.batchComplete
            && Atomic(s.balances, done) == Some(t.balances)
            && Read(t.balances, a) == Read(s.balances, a) + Inflow(done, a) - Outflow(done, a)
            && Sum(t.balances) == Sum(s.balances)
  {
    PerformedWithin(s.balances, ops);
    SkippingIsAtomicOnPerformed(s.balances, ops);
    AtomicMoves(s.balances, Performed(s.balances, ops).value, a);
    AtomicConserves(s.balances, Performed(s.balances, ops).value);
  }

  lemma {:induction false} FullCount(b: Balances, ops: seq<Transfer>)
    requires Performed(b, ops).Some?
    ensures |Performed(b, ops).value| == |ops| ==> Performed(b, ops).value == ops
    decreases |ops|
  {
    if ops != [] {
      if !Sufficient(b, ops[0]) {
        PerformedWithin(b, ops[1..]);
      } else {
        FullCount(Applied(b, ops[0]).value, ops[1..]);
        assert ops == [ops[0]] + ops[1..];
      }
    }
  }

  // The batch is marked complete whatever was skipped; the count tells a complete batch
  // from a partial one.
  lemma CountTellsCompleteness(s: Store, ops: Vec<Transfer>)
    requires SkipStep(s, ops).Some?
    ensures SkipStep(s, ops).value.batchComplete
    ensures SkipStep(s, ops).value.successCount == |ops| <==> Atomic(s.balances, ops).Some?
  {
    AtomicIffNothingSkipped(s.balances, ops);
    FullCount(s.balances, ops);
  }

  // For example: the only operation of a batch is skipped, and the batch is marked complete.
  lemma SkippedBatchComplete(a: Address, c: Address)
    ensures SkipStep(Store(map[], 0, false), [Transfer(a, c, 5)]) == Some(Store(map[], 0, true))
    ensures Atomic(map[], [Transfer(a, c, 5)]).None?
  {
    var ops := [Transfer(a, c, 5)];
    assert ops[1..] == [];
    assert Performed(map[], ops) == Performed(map[], ops[1..]);
    assert Skipping(map[], ops) == Skipping(map[], ops[1..]);
  }

  ghost predicate NonNegative(b: Balances) {
    forall a :: a in b ==> 0 <= b[a]
  }

  // No sign check guards the amounts. Batches of non-negative amounts keep every balance
  // non-negative ...
  lemma {:induction false} NonNegativeKept(b: Balances, ops: seq<Transfer>)
    requires NonNegative(b) && Atomic(b, ops).Some?
    requires forall op :: op in ops ==> op.amount >= 0
    ensures NonNegative(Atomic(b, ops).value)
    decreases |ops|
  {
    if ops != [] {
      assert ops[0] in ops;
      NonNegativeKept(Applied(b, ops[0]).value, ops[1..]);
    }
  }

  // ... a single operation keeps them so exactly when the receiver can bear it, a negative
  // amount taking from the receiver without any check ...
  lemma OperationKeepsNonNegative(b: Balances, op: Transfer)
    requires NonNegative(b)
    requires Sufficient(b, op) && Applied(b, op).Some?
    ensures NonNegative(Applied(b, op).value)
       <==> op.sender == op.receiver || Read(b, op.receiver) + op.amount >= 0
  {
    var t := Applied(b, op).value;
    assert op.receiver in t;
    if op.sender != op.receiver {
      assert t[op.receiver] == Read(b, op.receiver) + op.amount;
    } else {
      assert t[op.receiver] == Read(b, op.receiver);
    }
  }

  // The operations never take more out of an account than it has and they put into it.
  ghost predicate Bearable(b: Balances, ops: seq<Transfer>) {
    forall a :: Read(b, a) + Inflow(ops, a) - Outflow(ops, a) >= 0
  }

  // ... and a batch ends with non-negative balances exactly when every account can bear
  // what the batch moves in and out of it in all.
  lemma AtomicNonNegativeExactly(b: Balances, ops: seq<Transfer>)
    requires Atomic(b, ops).Some?
    ensures NonNegative(Atomic(b, ops).value) <==> Bearable(b, ops)
  {
    var t := Atomic(b, ops).value;
    forall a ensures Read(t, a) == Read(b, a) + Inflow(ops, a) - Outflow(ops, a) {
      AtomicMoves(b, ops, a);
    }
    if Bearable(b, ops) {
      forall a | a in t ensures 0 <= t[a] {
        assert Read(t, a) == Read(b, a) + Inflow(ops, a) - Outflow(ops, a);
      }
    }
    if NonNegative(t) {
      forall a ensures Read(b, a) + Inflow(ops, a) - Outflow(ops, a) >= 0 {
        assert Read(t, a) >= 0;
      }
    }
  }

  // The same for the skipping executor and the operations it performs.
  lemma SkippingNonNegativeExactly(b: Balances, ops: seq<Transfer>)
    requires Performed(b, ops).Some? && Skipping(b, ops).Some?
    ensures NonNegative(Skipping(b, ops).value) <==> Bearable(b, Performed(b, ops).value)
  {
    SkippingIsAtomicOnPerformed(b, ops);
    AtomicNonNegativeExactly(b, Performed(b, ops).value);
  }

  // A negative amount drives its receiver below zero in both executors.
  lemma NegativeTransferOverdraws(a: Address, c: Address)
    requires a != c
    ensures var ops := [Transfer(a, c, -5)];
            && Atomic(map[], ops).Some? && Skipping(map[], ops) == Atomic(map[], ops)
            && Read(Atomic(map[], ops).value, c) == -5
  {
    var ops := [Transfer(a, c, -5)];
    var b: Balances := map[];
    assert ops[1..] == [];
    assert Atomic(Applied(b, ops[0]).value, ops[1..]) == Applied(b, ops[0]);
    assert Skipping(Applied(b, ops[0]).value, ops[1..]) == Applied(b, ops[0]);
  }

  // ----- Which operations are performed

  // What a holds after some operations were performed.
  function Held(b: Balances, done: seq<Transfer>, a: Address): int {
    Read(b, a) + Inflow(done, a) - Outflow(done, a)
  }

  // The operations whose sender holds enough after those performed before it.
  function Chosen(b: Balances, ops: seq<Transfer>): seq<Transfer>
    decreases |ops|
  {
    if ops == [] then []
    else
      var done, op := Chosen(b, ops[..|ops| - 1]), ops[|ops| - 1];
      done + if Held(b, done, op.sender) >= op.amount then [op] else []
  }

  // Neither the debit nor the credit leaves the 128 bits.
  ghost predicate Fits(b: Balances, done: seq<Transfer>, op: Transfer) {
    && FitsInt128(Held(b, done, op.sender) - op.amount)
    && (op.receiver == op.sender || FitsInt128(Held(b, done, op.receiver) + op.amount))
  }

  ghost predicate AllFit(b: Balances, done: seq<Transfer>) {
    forall k :: 0 <= k < |done| ==> Fits(b, done[..k], done[k])
  }

  lemma AllFitAppended(b: Balances, done: seq<Transfer>, op: Transfer)
    ensures AllFit(b, done + [op]) <==> AllFit(b, done) && Fits(b, done, op)
  {
    var all := done + [op];
    assert all[..|done|] == done;
    forall k | 0 <= k < |done| ensures all[..k] == done[..k] && all[k] == done[k] {
    }
    if AllFit(b, all) {
      assert Fits(b, all[..|done|], all[|done|]);
      forall k | 0 <= k < |done| ensures Fits(b, done[..k], done[k]) {
        assert Fits(b, all[..k], all[k]);
      }
    }
  }

  // One more operation at the end of a batch.

  lemma {:induction false} AtomicAppended(b: Balances, ops: seq<Transfer>, op: Transfer)
    ensures Atomic(b, ops + [op])
         == if Atomic(b, ops).None? || !Sufficient(Atomic(b, ops).value, op) then None
            else Applied(Atomic(b, ops).value, op)
    decreases |ops|
  {
    if ops == [] {
      assert ops + [op] == [op] && [op][1..] == [];
    } else {
      assert (ops + [op])[1..] == ops[1..] + [op];
      if Sufficient(b, ops[0]) && Applied(b, ops[0]).Some? {
        AtomicAppended(Applied(b, ops[0]).value, ops[1..], op);
      }
    }
  }

  lemma {:induction false} PerformedAppended(b: Balances, ops: seq<Transfer>, op: Transfer)
    ensures Performed(b, ops).None? ==> Performed(b, ops + [op]).None?
    ensures Performed(b, ops).Some? ==>
              && Skipping(b, ops).Some?
              && Performed(b, ops + [op])
              == if !Sufficient(Skipping(b, ops).value, op) then Performed(b, ops)
                 else if Applied(Skipping(b, ops).value, op).Some? then Some(Performed(b, ops).value + [op])
                 else None
    decreases |ops|
  {
    if ops == [] {
      assert ops + [op] == [op] && [op][1..] == [];
      assert [] + [op] == [op] + [];
    } else {
      assert (ops + [op])[1..] == ops[1..] + [op];
      if !Sufficient(b, ops[0]) {
        PerformedAppended(b, ops[1..], op);
      } else if Applied(b, ops[0]).Some? {
        var next := Applied(b, ops[0]).value;
        PerformedAppended(next, ops[1..], op);
        if Performed(next, ops[1..]).Some? {
          var rest := Performed(next, ops[1..]).value;
          assert [ops[0]] + (rest + [op]) == [ops[0]] + rest + [op];
        }
      }
    }
  }

  lemma AppliedFits(t: Balances, op: Transfer)
    ensures Applied(t, op).Some?
       <==> && FitsInt128(Read(t, op.sender) - op.amount)
            && (op.receiver == op.sender || FitsInt128(Read(t, op.receiver) + op.amount))
  {
  }

  lemma AppliedExactly(b: Balances, done: seq<Transfer>, t: Balances, op: Transfer)
    requires Atomic(b, done) == Some(t)
    ensures Sufficient(t, op) <==> Held(b, done, op.sender) >= op.amount
    ensures Applied(t, op).Some? <==> Fits(b, done, op)
  {
    AtomicMoves(b, done, op.sender);
    AtomicMoves(b, done, op.receiver);
    AppliedFits(t, op);
  }

  // The skipping executor performs an operation if and only if its sender holds at least
  // the amount, after what was performed before; and it panics if and only if one of the
  // operations it performs overflows.
  lemma {:induction false} PerformedExactly(b: Balances, ops: seq<Transfer>)
    ensures Performed(b, ops).Some? <==> AllFit(b, Chosen(b, ops))
    ensures Performed(b, ops).Some? ==> Performed(b, ops).value == Chosen(b, ops)
    decreases |ops|
  {
    if ops != [] {
      var init, op := ops[..|ops| - 1], ops[|ops| - 1];
      assert ops == init + [op];
      PerformedExactly(b, init);
      PerformedAppended(b, init, op);
      assert Chosen(b, init) + [] == Chosen(b, init);
      AllFitAppended(b, Chosen(b, init), op);
      if Performed(b, init).Some? {
        SkippingIsAtomicOnPerformed(b, init);
        AppliedExactly(b, Chosen(b, init), Skipping(b, init).value, op);
      }
    }
  }

  // The atomic executor accepts a batch if and only if every sender holds enough when its
  // turn comes and no sum leaves the 128 bits.
  lemma {:induction false} AtomicAcceptedExactly(b: Balances, ops: seq<Transfer>)
    ensures Atomic(b, ops).Some?
       <==> AllFit(b, ops) && forall k :: 0 <= k < |ops| ==> Held(b, ops[..k], ops[k].sender) >= ops[k].amount
    decreases |ops|
  {
    if ops != [] {
      var init, op := ops[..|ops| - 1], ops[|ops| - 1];
      assert ops == init + [op];
      AtomicAcceptedExactly(b, init);
      AtomicAppended(b, init, op);
      AllFitAppended(b, init, op);
      forall k | 0 <= k < |init| ensures ops[..k] == init[..k] && ops[k] == init[k] {
      }
      if Atomic(b, init).Some? {
        AppliedExactly(b, init, Atomic(b, init).value, op);
        assert ops[..|init|] == init;
      }
      if Atomic(b, ops).None? && Atomic(b, init).None? && AllFit(b, init) {
        var k :| 0 <= k < |init| && Held(b, init[..k], init[k].sender) < init[k].amount;
        assert Held(b, ops[..k], ops[k].sender) < ops[k].amount;
      }
    }
  }

  // A mint is accepted exactly when the sum fits, and credits its account alone.
  lemma MintExactly(b: Balances, to: Address, amount: int128, a: Address)
    ensures MintStep(b, to, amount).Some? <==> I128_MIN <= Read(b, to) + amount <= I128_MAX
    ensures MintStep(b, to, amount).Some? ==>
              Read(MintStep(b, to, amount).value, a) == Read(b, a) + if a == to then amount else 0
  {
  }
}
