/** What every contract of the repository takes from its host: integer widths with
    overflow checks on, truncating division, storage defaults, and the rule that a
    panicking call leaves no write behind. */
module Host {

  const I128_MIN := -0x8000_0000_0000_0000_0000_0000_0000_0000
  const I128_MAX := 0x7FFF_FFFF_FFFF_FFFF_FFFF_FFFF_FFFF_FFFF
  const I32_MIN := -0x8000_0000
  const I32_MAX := 0x7FFF_FFFF
  const U32_MAX := 0xFFFF_FFFF
  const U64_MAX := 0xFFFF_FFFF_FFFF_FFFF

  type int128 = x: int | I128_MIN <= x <= I128_MAX
  // A 128-bit entry that its contract only ever raises from zero.
  type natural128 = x: int | 0 <= x <= I128_MAX
  type positive128 = x: int | 1 <= x <= I128_MAX witness 1
  type int32 = x: int | I32_MIN <= x <= I32_MAX
  type uint32 = x: int | 0 <= x <= U32_MAX
  type uint64 = x: int | 0 <= x <= U64_MAX
  type byte = x: int | 0 <= x < 256

  // An account or contract. Only equality and the key order of the host's maps matter.
  type Address = nat

  // A host vector: its length is a u32.
  type Vec<T> = s: seq<T> | |s| <= U32_MAX

  datatype Option<+T> = None | Some(value: T)

  predicate FitsInt128(x: int) {
    I128_MIN <= x <= I128_MAX
  }

  predicate FitsUint32(x: int) {
    0 <= x <= U32_MAX
  }

  // Rust's `/` rounds toward zero.
  function TruncDiv(a: int, b: int): int
    requires b > 0
  {
    if a >= 0 then a / b else -(-a / b)
  }

  lemma DivisionBounds(a: nat, b: int)
    requires b > 0
    ensures 0 <= a / b && a / b * b <= a < (a / b + 1) * b
  {
  }

  // The quotient has the sign of the dividend and is the largest in size whose product
  // with the divisor stays within the dividend.
  lemma TruncDivTowardZero(a: int, b: int)
    requires b > 0
    ensures a >= 0 ==> 0 <= TruncDiv(a, b) && TruncDiv(a, b) * b <= a < (TruncDiv(a, b) + 1) * b
    ensures a <= 0 ==> TruncDiv(a, b) <= 0 && (TruncDiv(a, b) - 1) * b < a <= TruncDiv(a, b) * b
  {
    if a >= 0 {
      DivisionBounds(a, b);
    }
    if a <= 0 {
      DivisionBounds(-a, b);
      var n := -a / b;
      assert TruncDiv(a, b) == 0 - n;
      assert (0 - n) * b == 0 - n * b && (0 - n - 1) * b == 0 - (n + 1) * b;
    }
  }

  // A persistent entry that was never written reads as zero.
  function Read<K>(m: map<K, int>, k: K): int {
    if k in m then m[k] else 0
  }

  // A call whose specification yields a state commits exactly that state; a call whose
  // specification yields none panics, and the host undoes whatever it had written.
  ghost predicate Settles<S>(before: S, spec: Option<S>, ok: bool, after: S) {
    && ok == spec.Some?
    && after == if spec.Some? then spec.value else before
  }

  // The calls of a run are made in ledgers that never decrease, from `now` on.
  ghost predicate Timed<C>(ledgerOf: C -> uint32, now: uint32, calls: seq<C>)
    decreases |calls|
  {
    calls == [] || (now <= ledgerOf(calls[0]) && Timed(ledgerOf, ledgerOf(calls[0]), calls[1..]))
  }

  // The ledger at the end of such a run.
  function EndTime<C>(ledgerOf: C -> uint32, now: uint32, calls: seq<C>): uint32 {
    if calls == [] then now else ledgerOf(calls[|calls| - 1])
  }

  // The state left by a call: the committed one, or the state before it after a panic.
  function After<S>(before: S, spec: Option<S>): S {
    if spec.Some? then spec.value else before
  }
}
