/** The odd-quorum median oracle (vulnerable/even_median_bias/src/secure.rs). */
module MedianOracle {
  import opened Host

  predicate Ascending(s: seq<int>) {
    forall i, j :: 0 <= i < j < |s| ==> s[i] <= s[j]
  }

  // ----- Counting feeds on either side of a value

  function CountBelow(s: seq<int>, x: int): nat {
    if s == [] then 0 else (if s[0] < x then 1 else 0) + CountBelow(s[1..], x)
  }

  function CountAbove(s: seq<int>, x: int): nat {
    if s == [] then 0 else (if s[0] > x then 1 else 0) + CountAbove(s[1..], x)
  }

  // The values with at most half of the feeds strictly on either side.
  predicate IsMedian(s: seq<int>, m: int) {
    2 * CountBelow(s, m) < |s| && 2 * CountAbove(s, m) < |s|
  }

  lemma {:induction false} CountSplit(a: seq<int>, b: seq<int>, x: int)
    ensures CountBelow(a + b, x) == CountBelow(a, x) + CountBelow(b, x)
    ensures CountAbove(a + b, x) == CountAbove(a, x) + CountAbove(b, x)
  {
    if a == [] {
      assert a + b == b;
    } else {
      assert (a + b)[1..] == a[1..] + b;
      CountSplit(a[1..], b, x);
    }
  }

  lemma MultisetWithout(s: seq<int>, i: nat)
    requires i < |s|
    ensures multiset(s[..i] + s[i + 1..]) == multiset(s) - multiset{s[i]}
  {
    assert s == s[..i] + ([s[i]] + s[i + 1..]);
    assert multiset(s) == multiset(s[..i]) + (multiset{s[i]} + multiset(s[i + 1..]));
    assert multiset(s[..i] + s[i + 1..]) == multiset(s[..i]) + multiset(s[i + 1..]);
  }

  lemma MultisetTail(s: seq<int>)
    requires s != []
    ensures multiset(s[1..]) == multiset(s) - multiset{s[0]}
  {
    assert s == [s[0]] + s[1..];
    assert multiset(s) == multiset{s[0]} + multiset(s[1..]);
  }

  lemma RemoveFirst(s: seq<int>, t: seq<int>) returns (i: nat)
    requires s != [] && multiset(s) == multiset(t)
    ensures i < |t| && t[i] == s[0]
    ensures multiset(s[1..]) == multiset(t[..i] + t[i + 1..])
  {
    assert s[0] in multiset(s);
    i :| 0 <= i < |t| && t[i] == s[0];
    MultisetTail(s);
    MultisetWithout(t, i);
  }

  lemma {:induction false} CountPermutation(s: seq<int>, t: seq<int>, x: int)
    requires multiset(s) == multiset(t)
    ensures |s| == |t| && CountBelow(s, x) == CountBelow(t, x) && CountAbove(s, x) == CountAbove(t, x)
    decreases |s|
  {
    assert |multiset(s)| == |s| && |multiset(t)| == |t|;
    if s != [] {
      var i := RemoveFirst(s, t);
      CountPermutation(s[1..], t[..i] + t[i + 1..], x);
      CountSplit(t[..i], [t[i]] + t[i + 1..], x);
      CountSplit(t[..i], t[i + 1..], x);
      assert t == t[..i] + ([t[i]] + t[i + 1..]);
    }
  }

  lemma {:induction false} CountWithin(s: seq<int>, x: int)
    ensures CountBelow(s, x) + CountAbove(s, x) <= |s|
  {
    if s != [] {
      CountWithin(s[1..], x);
    }
  }

  lemma {:induction false} NoneBelow(s: seq<int>, x: int)
    requires forall i :: 0 <= i < |s| ==> s[i] >= x
    ensures CountBelow(s, x) == 0
  {
    if s != [] {
      NoneBelow(s[1..], x);
    }
  }

  lemma {:induction false} NoneAbove(s: seq<int>, x: int)
    requires forall i :: 0 <= i < |s| ==> s[i] <= x
    ensures CountAbove(s, x) == 0
  {
    if s != [] {
      NoneAbove(s[1..], x);
    }
  }

  // ----- The contract

  lemma FewBelow(s: seq<int>, k: nat)
    requires Ascending(s) && k < |s|
    ensures CountBelow(s, s[k]) <= k
  {
    var low, high := s[..k], s[k..];
    assert s == low + high;
    CountSplit(low, high, s[k]);
    CountWithin(low, s[k]);
    forall i | 0 <= i < |high| ensures high[i] >= s[k] {
      assert high[i] == s[k + i];
    }
    NoneBelow(high, s[k]);
  }

  lemma FewAbove(s: seq<int>, k: nat)
    requires Ascending(s) && k < |s|
    ensures CountAbove(s, s[k]) < |s| - k
  {
    var low, high := s[..k + 1], s[k + 1..];
    assert s == low + high;
    CountSplit(low, high, s[k]);
    forall i | 0 <= i < |low| ensures low[i] <= s[k] {
      assert low[i] == s[i];
    }
    NoneAbove(low, s[k]);
    CountWithin(high, s[k]);
  }

  // The middle of an ascending list has too few elements on either side.
  lemma MiddleOfAscending(s: seq<int>)
    requires Ascending(s) && |s| % 2 == 1
    ensures IsMedian(s, s[|s| / 2])
  {
    FewBelow(s, |s| / 2);
    FewAbove(s, |s| / 2);
  }

  method Exchange(prices: array<int>, j: nat)
    requires 0 < j < prices.Length
    modifies prices
    ensures prices[..] == old(prices[..])[j - 1 := old(prices[j])][j := old(prices[j - 1])]
    ensures multiset(prices[..]) == multiset(old(prices[..]))
  {
    var a, b := prices[j - 1], prices[j];
    prices[j - 1] := b;
    prices[j] := a;
  }

  // Moves the feed at position i down to its place among the sorted feeds before it.
  method SiftDown(prices: array<int>, i: nat)
    requires i < prices.Length && Ascending(prices[..i])
    modifies prices
    ensures Ascending(prices[..i + 1])
    ensures multiset(prices[..]) == multiset(old(prices[..]))
  {
    var j := i;
    while j > 0 && prices[j - 1] > prices[j]
      invariant 0 <= j <= i
      invariant forall p, q :: 0 <= p < q <= i && q != j ==> prices[..][p] <= prices[..][q]
      invariant multiset(prices[..]) == multiset(old(prices[..]))
    {
      Exchange(prices, j);
      j := j - 1;
    }
  }

  // Sorts the feeds in place by exchanging neighbours, and returns the middle one.
  method Median(prices: array<int>) returns (r: Option<int>)
    modifies prices
    ensures r.Some? <==> prices.Length % 2 == 1
    ensures r.None? ==> prices[..] == old(prices[..])
    ensures r.Some? ==>
              && Ascending(prices[..]) && multiset(prices[..]) == multiset(old(prices[..]))
              && r.value == prices[prices.Length / 2]
    ensures r.Some? ==> IsMedian(old(prices[..]), r.value)
  {
    var n := prices.Length;
    if n == 0 || n % 2 == 0 {
      return None;
    }
    for i := 1 to n
      invariant Ascending(prices[..i])
      invariant multiset(prices[..]) == multiset(old(prices[..]))
    {
      SiftDown(prices, i);
    }
    assert prices[..n] == prices[..];
    MiddleOfAscending(prices[..]);
    CountPermutation(prices[..], old(prices[..]), prices[n / 2]);
    return Some(prices[n / 2]);
  }

  // ----- What the median tolerates

  lemma {:induction false} CountTotal(s: seq<int>, x: int, y: int)
    requires x < y
    ensures CountBelow(s, y) + CountAbove(s, x) >= |s|
  {
    if s != [] {
      CountTotal(s[1..], x, y);
    }
  }

  // An odd number of feeds has exactly one median, whatever their order.
  lemma MedianUnique(s: seq<int>, t: seq<int>, m: int, n: int)
    requires multiset(s) == multiset(t)
    requires IsMedian(s, m) && IsMedian(t, n)
    requires |s| % 2 == 1
    ensures m == n
  {
    CountPermutation(s, t, n);
    if m < n {
      CountTotal(s, m, n);
    } else if n < m {
      CountTotal(s, n, m);
    }
  }

  lemma {:induction false} CountMonotone(s: seq<int>, t: seq<int>, x: int)
    requires |s| == |t| && forall i :: 0 <= i < |s| ==> s[i] <= t[i]
    ensures CountBelow(t, x) <= CountBelow(s, x) && CountAbove(s, x) <= CountAbove(t, x)
  {
    if s != [] {
      CountMonotone(s[1..], t[1..], x);
    }
  }

  // Raising feeds never lowers the median.
  lemma MedianMonotone(s: seq<int>, t: seq<int>, m: int, n: int)
    requires |s| == |t| && |s| % 2 == 1
    requires forall i :: 0 <= i < |s| ==> s[i] <= t[i]
    requires IsMedian(s, m) && IsMedian(t, n)
    ensures m <= n
  {
    if n < m {
      CountMonotone(s, t, n);
      CountTotal(s, n, m);
    }
  }

  // The feeds at the positions outside `liars`, in order.
  function Honest(s: seq<int>, liars: set<nat>, from: nat): seq<int> {
    if s == [] then []
    else (if from in liars then [] else [s[0]]) + Honest(s[1..], liars, from + 1)
  }

  lemma {:induction false} HonestMember(s: seq<int>, liars: set<nat>, from: nat, x: int) returns (i: nat)
    requires x in Honest(s, liars, from)
    ensures i < |s| && from + i !in liars && s[i] == x
    decreases |s|
  {
    if from !in liars && s[0] == x {
      i := 0;
    } else {
      var k := HonestMember(s[1..], liars, from + 1, x);
      i := k + 1;
    }
  }

  lemma {:induction false} HonestDropped(s: seq<int>, liars: set<nat>, p: nat, from: nat)
    requires p < from
    ensures Honest(s, liars, from) == Honest(s, liars - {p}, from)
    decreases |s|
  {
    if s != [] {
      HonestDropped(s[1..], liars, p, from + 1);
    }
  }

  // Leaving out k positions shortens the list by at most k ...
  lemma {:induction false} HonestLength(s: seq<int>, liars: set<nat>, from: nat)
    ensures |Honest(s, liars, from)| <= |s| <= |Honest(s, liars, from)| + |liars|
    decreases |s|
  {
    if s != [] {
      if from in liars {
        HonestDropped(s[1..], liars, from, from + 1);
        HonestLength(s[1..], liars - {from}, from + 1);
      } else {
        HonestLength(s[1..], liars, from + 1);
      }
    }
  }

  // ... and adds nothing on either side of any value.
  lemma {:induction false} HonestCounts(s: seq<int>, liars: set<nat>, from: nat, x: int)
    ensures CountBelow(Honest(s, liars, from), x) <= CountBelow(s, x)
    ensures CountAbove(Honest(s, liars, from), x) <= CountAbove(s, x)
    decreases |s|
  {
    if s != [] {
      HonestCounts(s[1..], liars, from + 1, x);
      var rest := Honest(s[1..], liars, from + 1);
      if from in liars {
        assert Honest(s, liars, from) == rest;
      } else {
        assert Honest(s, liars, from) == [s[0]] + rest;
        assert ([s[0]] + rest)[1..] == rest;
      }
    }
  }

  lemma {:induction false} SomeNotAbove(s: seq<int>, x: int) returns (i: nat)
    requires CountAbove(s, x) < |s|
    ensures i < |s| && s[i] <= x
  {
    if s[0] <= x {
      i := 0;
    } else {
      var k := SomeNotAbove(s[1..], x);
      i := k + 1;
    }
  }

  lemma {:induction false} SomeNotBelow(s: seq<int>, x: int) returns (i: nat)
    requires CountBelow(s, x) < |s|
    ensures i < |s| && s[i] >= x
  {
    if s[0] >= x {
      i := 0;
    } else {
      var k := SomeNotBelow(s[1..], x);
      i := k + 1;
    }
  }

  // Among 2k+1 feeds, whatever any k of them say, the median lies between two honest ones.
  lemma MedianRobust(s: seq<int>, k: nat, liars: set<nat>, m: int) returns (low: nat, high: nat)
    requires |s| == 2 * k + 1 && |liars| <= k
    requires IsMedian(s, m)
    ensures low < |s| && low !in liars && high < |s| && high !in liars
    ensures s[low] <= m <= s[high]
  {
    var h := Honest(s, liars, 0);
    HonestLength(s, liars, 0);
    HonestCounts(s, liars, 0, m);
    var i := SomeNotAbove(h, m);
    var j := SomeNotBelow(h, m);
    low := HonestMember(s, liars, 0, h[i]);
    high := HonestMember(s, liars, 0, h[j]);
  }

  // One liar more than k and the bound is lost: k + 1 equal feeds decide alone.
  lemma MajorityDecides(honest: seq<int>, y: int)
    ensures IsMedian(honest + seq(|honest| + 1, _ => y), y)
  {
    var rest := seq(|honest| + 1, _ => y);
    CountSplit(honest, rest, y);
    CountWithin(honest, y);
    NoneBelow(rest, y);
    NoneAbove(rest, y);
  }
}
