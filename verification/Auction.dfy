/** The auction with pull-based refunds (vulnerable/auction_refund_block/src/secure.rs). */
module Auction {
  import opened Host
  import opened Sums

  // A missing HighBid reads as zero; `started` tells whether the entry exists.
  datatype Store = Store(
    started: bool, highBid: natural128, highBidder: Option<Address>,
    refunds: map<Address, int128>, refundBlocked: bool)

  const Fresh := Store(false, 0, None, map[], false)

  datatype Call =
    | Initialize
    | SetRefundBlocked(blocked: bool)
    | Bid(bidder: Address, amount: int128)
    | ClaimRefund(bidder: Address)

  // The refund a new bid credits, when there is a standing bid to refund.
  function Credited(s: Store): Option<map<Address, int128>> {
    if s.highBid > 0 && s.highBidder.Some? then
      var prev := s.highBidder.value;
      if FitsInt128(Read(s.refunds, prev) + s.highBid)
      then Some(s.refunds[prev := Read(s.refunds, prev) + s.highBid]) else None
    else Some(s.refunds)
  }

  function Step(s: Store, c: Call): Option<Store> {
    match c
    case Initialize =>
      if s.started then None else Some(s.(started := true, highBid := 0, refundBlocked := false))
    case SetRefundBlocked(blocked) => Some(s.(refundBlocked := blocked))
    case Bid(bidder, amount) =>
      if amount <= s.highBid || Credited(s).None? then None
      else Some(Store(true, amount, Some(bidder), Credited(s).value, s.refundBlocked))
    case ClaimRefund(bidder) =>
      if Read(s.refunds, bidder) == 0 then None else Some(s.(refunds := s.refunds[bidder := 0]))
  }

  function Run(s: Store, calls: seq<Call>): Store
    decreases |calls|
  {
    if calls == [] then s else Run(After(s, Step(s, calls[0])), calls[1..])
  }

  class SecureAuction {
    var started: bool
    var highBid: natural128
    var highBidder: Option<Address>
    var refunds: map<Address, int128>
    var refundBlocked: bool

    ghost function Stored(): Store
      reads this
    {
      Store(started, highBid, highBidder, refunds, refundBlocked)
    }

    constructor ()
      ensures Stored() == Fresh
    {
      started, highBid, highBidder, refunds, refundBlocked := false, 0, None, map[], false;
    }

    method Initialize() returns (ok: bool)
      modifies this
      ensures Settles(old(Stored()), Step(old(Stored()), Call.Initialize), ok, Stored())
    {
      if started {
        return false;
      }
      started, highBid := true, 0;
      refundBlocked := false;
      return true;
    }

    method SetRefundBlocked(blocked: bool)
      modifies this
      ensures Settles(old(Stored()), Step(old(Stored()), Call.SetRefundBlocked(blocked)), true, Stored())
    {
      refundBlocked := blocked;
    }

    method Bid(bidder: Address, amount: int128) returns (ok: bool)
      modifies this
      ensures Settles(old(Stored()), Step(old(Stored()), Call.Bid(bidder, amount)), ok, Stored())
    {
      if amount <= highBid {
        return false;
      }
      if highBid > 0 {
        if highBidder.Some? {
          var existing := Read(refunds, highBidder.value);
          if !FitsInt128(existing + highBid) {
            return false;
          }
          refunds := refunds[highBidder.value := existing + highBid];
        }
      }
      highBidder := Some(bidder);
      started, highBid := true, amount;
      return true;
    }

    method ClaimRefund(bidder: Address) returns (ok: bool, amount: int)
      modifies this
      ensures Settles(old(Stored()), Step(old(Stored()), Call.ClaimRefund(bidder)), ok, Stored())
      ensures amount == Read(old(refunds), bidder) - Read(refunds, bidder)
    {
      amount := Read(refunds, bidder);
      if amount == 0 {
        return false, amount;
      }
      refunds := refunds[bidder := 0];
      ok := true;
    }
  }

  // ----- What is owed to whom

  ghost predicate Valid(s: Store) {
    && (s.highBid > 0 <==> s.highBidder.Some?)
    && (s.highBid > 0 ==> s.started)
    && (forall a :: a in s.refunds ==> 0 <= s.refunds[a])
  }

  lemma StepValid(s: Store, c: Call)
    requires Valid(s)
    ensures Valid(After(s, Step(s, c))) && s.highBid <= After(s, Step(s, c)).highBid
  {
  }

  lemma {:induction false} RunValid(s: Store, calls: seq<Call>)
    requires Valid(s)
    ensures Valid(Run(s, calls)) && s.highBid <= Run(s, calls).highBid
    decreases |calls|
  {
    if calls != [] {
      StepValid(s, calls[0]);
      RunValid(After(s, Step(s, calls[0])), calls[1..]);
    }
  }

  // The standing bid, counted for the bidder who holds it.
  function Standing(s: Store, a: Address): nat {
    if s.highBidder == Some(a) then s.highBid else 0
  }

  // What a call bids for one bidder, or pays out to it, when it is accepted; and the sums
  // over a run.

  function BidOf(s: Store, a: Address, c: Call): int {
    if c.Bid? && c.bidder == a && Step(s, c).Some? then c.amount else 0
  }

  function ClaimOf(s: Store, a: Address, c: Call): int {
    if c == ClaimRefund(a) && Step(s, c).Some? then Read(s.refunds, a) else 0
  }

  function BidsOf(s: Store, a: Address, calls: seq<Call>): int
    decreases |calls|
  {
    if calls == [] then 0 else BidOf(s, a, calls[0]) + BidsOf(After(s, Step(s, calls[0])), a, calls[1..])
  }

  function ClaimsOf(s: Store, a: Address, calls: seq<Call>): int
    decreases |calls|
  {
    if calls == [] then 0 else ClaimOf(s, a, calls[0]) + ClaimsOf(After(s, Step(s, calls[0])), a, calls[1..])
  }

  lemma StepAccounts(s: Store, a: Address, c: Call)
    requires Valid(s)
    ensures var t := After(s, Step(s, c));
            (BidOf(s, a, c) + Read(s.refunds, a) + Standing(s, a)
             == Read(t.refunds, a) + Standing(t, a) + ClaimOf(s, a, c))
  {
  }

  lemma {:induction false} RunAccounts(s: Store, a: Address, calls: seq<Call>)
    requires Valid(s)
    ensures BidsOf(s, a, calls) + Read(s.refunds, a) + Standing(s, a)
         == Read(Run(s, calls).refunds, a) + Standing(Run(s, calls), a) + ClaimsOf(s, a, calls)
    decreases |calls|
  {
    if calls != [] {
      StepValid(s, calls[0]);
      StepAccounts(s, a, calls[0]);
      RunAccounts(After(s, Step(s, calls[0])), a, calls[1..]);
    }
  }

  // In every run, each bidder's accepted bids are refundable, refunded or standing.
  lemma EveryBidAccountedFor(a: Address, calls: seq<Call>)
    ensures var s := Run(Fresh, calls);
            BidsOf(Fresh, a, calls) == Read(s.refunds, a) + ClaimsOf(Fresh, a, calls) + Standing(s, a)
  {
    RunAccounts(Fresh, a, calls);
  }

  // The same for all bidders together.

  function Bidden(s: Store, c: Call): int {
    if c.Bid? && Step(s, c).Some? then c.amount else 0
  }

  function Claimed(s: Store, c: Call): int {
    if c.ClaimRefund? && Step(s, c).Some? then Read(s.refunds, c.bidder) else 0
  }

  function AllBids(s: Store, calls: seq<Call>): int
    decreases |calls|
  {
    if calls == [] then 0 else Bidden(s, calls[0]) + AllBids(After(s, Step(s, calls[0])), calls[1..])
  }

  function AllClaims(s: Store, calls: seq<Call>): int
    decreases |calls|
  {
    if calls == [] then 0 else Claimed(s, calls[0]) + AllClaims(After(s, Step(s, calls[0])), calls[1..])
  }

  lemma StepHoldings(s: Store, c: Call)
    requires Valid(s)
    ensures var t := After(s, Step(s, c));
            Sum(s.refunds) + s.highBid + Bidden(s, c) - Claimed(s, c) == Sum(t.refunds) + t.highBid
  {
    if Step(s, c).Some? {
      if c.Bid? && s.highBidder.Some? {
        SumWrite(s.refunds, s.highBidder.value, Read(s.refunds, s.highBidder.value) + s.highBid);
      } else if c.ClaimRefund? {
        SumWrite(s.refunds, c.bidder, 0);
      }
    }
  }

  // What the contract holds covers exactly the refunds still due and the winning bid.
  lemma {:induction false} HoldingsCoverDues(s: Store, calls: seq<Call>)
    requires Valid(s)
    ensures var t := Run(s, calls);
            Sum(s.refunds) + s.highBid + AllBids(s, calls) - AllClaims(s, calls) == Sum(t.refunds) + t.highBid
    decreases |calls|
  {
    if calls != [] {
      StepValid(s, calls[0]);
      StepHoldings(s, calls[0]);
      HoldingsCoverDues(After(s, Step(s, calls[0])), calls[1..]);
    }
  }

  // No refund state other than an overflowing refund can block a bid: whether it is
  // accepted depends on the amount and on that sum alone, whatever the block flag says.
  lemma BidAcceptedExactly(s: Store, bidder: Address, amount: int128, blocked: bool)
    requires Valid(s)
    ensures Step(s.(refundBlocked := blocked), Bid(bidder, amount)).Some?
       <==> && amount > s.highBid
            && (s.highBidder.Some? ==> FitsInt128(Read(s.refunds, s.highBidder.value) + s.highBid))
  {
  }

  // In every reachable state a bid is accepted exactly when it is higher than the standing
  // one and what its predecessor has bid and not yet claimed fits a refund entry.
  lemma ReachableBidAccepted(calls: seq<Call>, bidder: Address, amount: int128)
    ensures var s := Run(Fresh, calls);
            (Step(s, Bid(bidder, amount)).Some?
             <==> && amount > s.highBid
                  && (s.highBidder.Some? ==>
                        var prev := s.highBidder.value;
                        FitsInt128(BidsOf(Fresh, prev, calls) - ClaimsOf(Fresh, prev, calls))))
  {
    var s := Run(Fresh, calls);
    RunValid(Fresh, calls);
    if s.highBidder.Some? {
      EveryBidAccountedFor(s.highBidder.value, calls);
    }
    BidAcceptedExactly(s, bidder, amount, s.refundBlocked);
  }

  // The high bid is the largest accepted bid: it never falls, and every accepted bid of
  // the run is at most the final high bid.
  lemma {:induction false} HighBidIsLargest(s: Store, calls: seq<Call>, i: nat)
    requires Valid(s) && i < |calls| && calls[i].Bid?
    requires Step(Run(s, calls[..i]), calls[i]).Some?
    ensures calls[i].amount <= Run(s, calls).highBid
    decreases |calls|
  {
    var t := After(s, Step(s, calls[0]));
    if i == 0 {
      assert Run(s, calls[..0]) == s;
      RunValid(t, calls[1..]);
    } else {
      assert calls[..i][1..] == calls[1..][..i - 1];
      assert calls[..i][0] == calls[0];
      assert Run(s, calls[..i]) == Run(t, calls[1..][..i - 1]);
      RunValid(s, calls[..1]);
      assert calls[..1][1..] == [];
      assert Run(s, calls[..1]) == Run(t, []);
      HighBidIsLargest(t, calls[1..], i - 1);
    }
  }

  // ----- The other entries

  // A refund can be claimed exactly when something was bid and neither claimed nor still
  // stands.
  lemma RefundClaimableExactly(calls: seq<Call>, a: Address)
    ensures var due := BidsOf(Fresh, a, calls) - ClaimsOf(Fresh, a, calls) - Standing(Run(Fresh, calls), a);
            Step(Run(Fresh, calls), ClaimRefund(a)).Some? <==> due != 0
  {
    EveryBidAccountedFor(a, calls);
  }

  // What a run leaves of the last accepted bid, of whether an initialisation or a bid was
  // accepted, and of the flag as the last accepted call that writes it left it.

  datatype Trace = Trace(lastBid: Option<Call>, begun: bool, flag: bool)

  function Traced(s: Store, r: Trace, c: Call): Trace {
    if Step(s, c).None? then r
    else
      match c
      case Initialize => r.(begun := true, flag := false)
      case SetRefundBlocked(blocked) => r.(flag := blocked)
      case Bid(_, _) => r.(lastBid := Some(c), begun := true)
      case ClaimRefund(_) => r
  }

  function TraceOf(s: Store, r: Trace, calls: seq<Call>): Trace
    decreases |calls|
  {
    if calls == [] then r else TraceOf(After(s, Step(s, calls[0])), Traced(s, r, calls[0]), calls[1..])
  }

  ghost predicate Follows(s: Store, r: Trace) {
    && s.started == r.begun && s.refundBlocked == r.flag && (r.lastBid.Some? ==> r.begun)
    && (if r.lastBid.None? then s.highBid == 0 && s.highBidder == None
        else && r.lastBid.value.Bid? && s.highBidder == Some(r.lastBid.value.bidder)
             && s.highBid == r.lastBid.value.amount > 0)
  }

  lemma StepFollows(s: Store, r: Trace, c: Call)
    requires Follows(s, r)
    ensures Follows(After(s, Step(s, c)), Traced(s, r, c))
  {
  }

  lemma {:induction false} RunFollows(s: Store, r: Trace, calls: seq<Call>)
    requires Follows(s, r)
    ensures Follows(Run(s, calls), TraceOf(s, r, calls))
    decreases |calls|
  {
    if calls != [] {
      StepFollows(s, r, calls[0]);
      RunFollows(After(s, Step(s, calls[0])), Traced(s, r, calls[0]), calls[1..]);
    }
  }

  // In every reachable state the high bid and bidder are those of the last accepted bid,
  // the flag is the last one written, and an initialisation is accepted exactly when
  // neither an initialisation nor a bid was accepted before. The flag can always be set.
  lemma EntriesFollowHistory(calls: seq<Call>, blocked: bool)
    ensures var s, r := Run(Fresh, calls), TraceOf(Fresh, Trace(None, false, false), calls);
            && Follows(s, r)
            && (Step(s, Initialize).Some? <==> !r.begun)
            && Step(s, SetRefundBlocked(blocked)).Some?
  {
    RunFollows(Fresh, Trace(None, false, false), calls);
  }
}
