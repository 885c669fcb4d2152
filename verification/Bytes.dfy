/** Byte strings as the contracts build them: big-endian fixed-width integers, 32-byte
    digests, and the two host functions (hashing and address encoding) that stay
    uninterpreted. */
module Bytes {
  import opened Host
  import opened Rounding

  type Digest = d: seq<byte> | |d| == 32 witness seq(32, _ => 0)

  // The hash and the address encoding are whatever the host supplies.
  datatype Env = Env(sha256: seq<byte> -> Digest, toXdr: Address -> seq<byte>)

  ghost predicate InjectiveXdr(env: Env) {
    forall a, b :: env.toXdr(a) == env.toXdr(b) ==> a == b
  }

  // No two different members of S have the same hash. S is always a finite set of
  // byte strings that a run actually hashes, so this is not a claim about all inputs.
  ghost predicate CollisionFree(env: Env, S: set<seq<byte>>) {
    forall x, y :: x in S && y in S && env.sha256(x) == env.sha256(y) ==> x == y
  }

  function BigEndian(x: nat, n: nat): (b: seq<byte>)
    requires x < Pow(256, n)
    ensures |b| == n
  {
    if n == 0 then [] else BigEndian(x / 256, n - 1) + [x % 256]
  }

  function FromBigEndian(b: seq<byte>): nat {
    if b == [] then 0 else 256 * FromBigEndian(b[..|b| - 1]) + b[|b| - 1]
  }

  lemma {:induction false} BigEndianRoundTrip(x: nat, n: nat)
    requires x < Pow(256, n)
    ensures FromBigEndian(BigEndian(x, n)) == x
  {
    if n > 0 {
      var b := BigEndian(x, n);
      assert b[..n - 1] == BigEndian(x / 256, n - 1);
      BigEndianRoundTrip(x / 256, n - 1);
    }
  }

  // The most significant byte comes first.
  lemma {:induction false} BigEndianDigits(x: nat, n: nat, i: nat)
    requires x < Pow(256, n) && i < n
    ensures BigEndian(x, n)[i] == x / Pow(256, n - 1 - i) % 256
  {
    if i < n - 1 {
      BigEndianDigits(x / 256, n - 1, i);
      DivideTwice(x, 256, Pow(256, n - 2 - i));
    }
  }

  lemma FieldWidths()
    ensures Pow(256, 4) == U32_MAX + 1
    ensures Pow(256, 8) == U64_MAX + 1
    ensures Pow(256, 16) == 2 * (I128_MAX + 1)
  {
    assert Pow(256, 2) == 0x1_0000;
    assert Pow(256, 4) == 0x1_0000_0000;
    assert Pow(256, 6) == 0x1_0000_0000_0000;
    assert Pow(256, 8) == 0x1_0000_0000_0000_0000;
    assert Pow(256, 10) == 0x1_0000_0000_0000_0000_0000;
    assert Pow(256, 12) == 0x1_0000_0000_0000_0000_0000_0000;
    assert Pow(256, 14) == 0x1_0000_0000_0000_0000_0000_0000_0000;
  }

  // What fits an integer type is what its bytes can hold.
  lemma WidthsExact(x: int)
    ensures FitsInt128(x) <==> 0 - Pow(256, 16) <= 2 * x < Pow(256, 16)
    ensures FitsUint32(x) <==> 0 <= x < Pow(256, 4)
  {
    FieldWidths();
  }

  function Uint32Bytes(x: uint32): (b: seq<byte>)
    ensures |b| == 4
  {
    FieldWidths();
    BigEndian(x, 4)
  }

  function Uint64Bytes(x: uint64): (b: seq<byte>)
    ensures |b| == 8
  {
    FieldWidths();
    BigEndian(x, 8)
  }

  // Two's complement, sixteen bytes.
  function Int128Bytes(x: int128): (b: seq<byte>)
    ensures |b| == 16
  {
    FieldWidths();
    BigEndian(if x < 0 then x + 2 * (I128_MAX + 1) else x, 16)
  }

  lemma Uint32BytesInjective(x: uint32, y: uint32)
    requires Uint32Bytes(x) == Uint32Bytes(y)
    ensures x == y
  {
    FieldWidths();
    BigEndianRoundTrip(x, 4);
    BigEndianRoundTrip(y, 4);
  }

  lemma Uint64BytesInjective(x: uint64, y: uint64)
    requires Uint64Bytes(x) == Uint64Bytes(y)
    ensures x == y
  {
    FieldWidths();
    BigEndianRoundTrip(x, 8);
    BigEndianRoundTrip(y, 8);
  }

  lemma Int128BytesInjective(x: int128, y: int128)
    requires Int128Bytes(x) == Int128Bytes(y)
    ensures x == y
  {
    FieldWidths();
    BigEndianRoundTrip(if x < 0 then x + 2 * (I128_MAX + 1) else x, 16);
    BigEndianRoundTrip(if y < 0 then y + 2 * (I128_MAX + 1) else y, 16);
  }

  // Lexicographic order on byte strings, the order the host gives to 32-byte values.
  predicate LexLe(a: seq<byte>, b: seq<byte>) {
    a == [] || (b != [] && (a[0] < b[0] || (a[0] == b[0] && LexLe(a[1..], b[1..]))))
  }

  lemma {:induction false} LexLeTotalAntisymmetric(a: seq<byte>, b: seq<byte>)
    ensures LexLe(a, b) || LexLe(b, a)
    ensures LexLe(a, b) && LexLe(b, a) ==> a == b
  {
    if a != [] && b != [] && a[0] == b[0] {
      LexLeTotalAntisymmetric(a[1..], b[1..]);
      assert a == [a[0]] + a[1..] && b == [b[0]] + b[1..];
    }
  }

  // Byte strings of one length compare at the first byte in which they differ.
  lemma {:induction false} LexLeFirstDifference(a: seq<byte>, b: seq<byte>, i: nat)
    requires |a| == |b| && i < |a|
    requires a[..i] == b[..i] && a[i] != b[i]
    ensures LexLe(a, b) <==> a[i] < b[i]
  {
    if i > 0 {
      assert a[0] == a[..i][0] && b[0] == b[..i][0];
      assert a[1..][..i - 1] == a[..i][1..] && b[1..][..i - 1] == b[..i][1..];
      LexLeFirstDifference(a[1..], b[1..], i - 1);
    }
  }

  // Concatenations that agree and whose parts have equal length agree part by part.
  lemma SplitEqual(a: seq<byte>, b: seq<byte>, c: seq<byte>, d: seq<byte>)
    requires a + b == c + d
    requires |a| == |c| || |b| == |d|
    ensures a == c && b == d
  {
    assert |a| == |c|;
    assert a == (a + b)[..|a|] && c == (c + d)[..|c|];
    assert b == (a + b)[|a|..] && d == (c + d)[|c|..];
  }
}
