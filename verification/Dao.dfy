/** Governance with quorum, supply snapshot and timelock (secure/secure_dao/src/lib.rs). */
module Dao {
  import opened Host
  import opened Sums

  const TIMELOCK_DELAY := 1000
  const QUORUM_BPS := 1000

  datatype Proposal = Proposal(
    proposer: Address, snapshotSupply: int128, votesFor: int128, votesAgainst: int128,
    queued: bool, executed: bool, executeAfter: uint32)

  datatype Store = Store(
    totalSupply: int128, balances: map<Address, int128>, nextId: uint64,
    proposals: map<uint64, Proposal>, voted: set<(uint64, Address)>)

  const Fresh := Store(0, map[], 0, map[], {})

  datatype Op =
    | Mint(to: Address, amount: int128)
    | CreateProposal(proposer: Address)
    | Vote(voter: Address, id: uint64, support: bool)
    | Queue(id: uint64)
    | Execute(id: uint64)

  // `now` is the ledger in which the call runs.
  datatype Call = Call(now: uint32, op: Op)

  function QuorumThreshold(snapshotSupply: int): int {
    TruncDiv(snapshotSupply * QUORUM_BPS, 10_000)
  }

  function WithVote(p: Proposal, support: bool, weight: int128): Option<Proposal> {
    if support then
      if FitsInt128(p.votesFor + weight) then Some(p.(votesFor := p.votesFor + weight)) else None
    else
      if FitsInt128(p.votesAgainst + weight) then Some(p.(votesAgainst := p.votesAgainst + weight)) else None
  }

  predicate Passes(p: Proposal) {
    && p.votesFor > p.votesAgainst
    && FitsInt128(p.votesFor + p.votesAgainst)
    && FitsInt128(p.snapshotSupply * QUORUM_BPS)
    && p.votesFor + p.votesAgainst >= QuorumThreshold(p.snapshotSupply)
  }

  function Step(s: Store, c: Call): Option<Store> {
    match c.op
    case Mint(to, amount) =>
      if !FitsInt128(Read(s.balances, to) + amount) || !FitsInt128(s.totalSupply + amount) then None
      else Some(s.(balances := s.balances[to := Read(s.balances, to) + amount], totalSupply := s.totalSupply + amount))
    case CreateProposal(proposer) =>
      if Read(s.balances, proposer) < 1 || s.nextId == U64_MAX then None
      else Some(s.(proposals := s.proposals[s.nextId := Proposal(proposer, s.totalSupply, 0, 0, false, false, 0)],
                   nextId := s.nextId + 1))
    case Vote(voter, id, support) =>
      if (id, voter) in s.voted || id !in s.proposals then None
      else
        var p := s.proposals[id];
        var weight := Read(s.balances, voter);
        if p.queued || p.executed || weight < 1 then None
        else
          var q := WithVote(p, support, weight);
          if q.None? then None
          else Some(s.(proposals := s.proposals[id := q.value], voted := s.voted + {(id, voter)}))
    case Queue(id) =>
      if id !in s.proposals then None
      else
        var p := s.proposals[id];
        if p.queued || p.executed || !Passes(p) || !FitsUint32(c.now + TIMELOCK_DELAY) then None
        else Some(s.(proposals := s.proposals[id := p.(queued := true, executeAfter := c.now + TIMELOCK_DELAY)]))
    case Execute(id) =>
      if id !in s.proposals then None
      else
        var p := s.proposals[id];
        if !p.queued || p.executed || c.now < p.executeAfter then None
        else Some(s.(proposals := s.proposals[id := p.(executed := true)]))
  }

  function Run(s: Store, calls: seq<Call>): Store
    decreases |calls|
  {
    if calls == [] then s else Run(After(s, Step(s, calls[0])), calls[1..])
  }

  class SecureDao {
    var totalSupply: int128
    var balances: map<Address, int128>
    var nextId: uint64
    var proposals: map<uint64, Proposal>
    var voted: set<(uint64, Address)>

    ghost function Stored(): Store
      reads this
    {
      Store(totalSupply, balances, nextId, proposals, voted)
    }

    constructor ()
      ensures Stored() == Fresh
    {
      totalSupply, balances, nextId, proposals, voted := 0, map[], 0, map[], {};
    }

    method Mint(to: Address, amount: int128, now: uint32) returns (ok: bool)
      modifies this
      ensures Settles(old(Stored()), Step(old(Stored()), Call(now, Op.Mint(to, amount))), ok, Stored())
    {
      var bal := Read(balances, to);
      if !FitsInt128(bal + amount) {
        return false;
      }
      var before := balances;
      balances := balances[to := bal + amount];
      if !FitsInt128(totalSupply + amount) {
        balances := before;
        return false;
      }
      totalSupply := totalSupply + amount;
      return true;
    }

    method CreateProposal(proposer: Address, now: uint32) returns (ok: bool, id: uint64)
      modifies this
      ensures Settles(old(Stored()), Step(old(Stored()), Call(now, Op.CreateProposal(proposer))), ok, Stored())
      ensures id == old(nextId)
    {
      id := nextId;
      if Read(balances, proposer) < 1 {
        return false, id;
      }
      var before := proposals;
      proposals := proposals[id := Proposal(proposer, totalSupply, 0, 0, false, false, 0)];
      if id + 1 > U64_MAX {
        proposals := before;
        return false, id;
      }
      nextId := id + 1;
      return true, id;
    }

    method Vote(voter: Address, id: uint64, support: bool, now: uint32) returns (ok: bool)
      modifies this
      ensures Settles(old(Stored()), Step(old(Stored()), Call(now, Op.Vote(voter, id, support))), ok, Stored())
    {
      if (id, voter) in voted || id !in proposals {
        return false;
      }
      var p := proposals[id];
      if p.queued || p.executed {
        return false;
      }
      var weight := Read(balances, voter);
      if weight < 1 {
        return false;
      }
      if support {
        if !FitsInt128(p.votesFor + weight) {
          return false;
        }
        p := p.(votesFor := p.votesFor + weight);
      } else {
        if !FitsInt128(p.votesAgainst + weight) {
          return false;
        }
        p := p.(votesAgainst := p.votesAgainst + weight);
      }
      proposals := proposals[id := p];
      voted := voted + {(id, voter)};
      return true;
    }

    method Queue(id: uint64, now: uint32) returns (ok: bool)
      modifies this
      ensures Settles(old(Stored()), Step(old(Stored()), Call(now, Op.Queue(id))), ok, Stored())
    {
      if id !in proposals {
        return false;
      }
      var p := proposals[id];
      if p.queued || p.executed || p.votesFor <= p.votesAgainst {
        return false;
      }
      var totalVotes := p.votesFor + p.votesAgainst;
      if !FitsInt128(totalVotes) || !FitsInt128(p.snapshotSupply * QUORUM_BPS) {
        return false;
      }
      if totalVotes < TruncDiv(p.snapshotSupply * QUORUM_BPS, 10_000) || !FitsUint32(now + TIMELOCK_DELAY) {
        return false;
      }
      p := p.(queued := true);
      p := p.(executeAfter := now + TIMELOCK_DELAY);
      proposals := proposals[id := p];
      return true;
    }

    method Execute(id: uint64, now: uint32) returns (ok: bool)
      modifies this
      ensures Settles(old(Stored()), Step(old(Stored()), Call(now, Op.Execute(id))), ok, Stored())
    {
      if id !in proposals {
        return false;
      }
      var p := proposals[id];
      if !p.queued || p.executed || now < p.executeAfter {
        return false;
      }
      proposals := proposals[id := p.(executed := true)];
      return true;
    }
  }

  // ----- The record of one proposal along a run

  datatype Ballot = Ballot(support: bool, weight: int)

  datatype Queueing = Queueing(ledger: uint32, votesFor: int, votesAgainst: int)

  // What the accepted calls did to one proposal: the supply when it was created, the
  // ballots by voter, and the ledgers of queueing and execution.
  datatype Record = Record(
    created: Option<int>, ballots: map<Address, Ballot>, queueing: Option<Queueing>, executedAt: Option<uint32>)

  const NoRecord := Record(None, map[], None, None)

  function Extended(s: Store, r: Record, id: uint64, c: Call): Record {
    if Step(s, c).None? then r
    else
      match c.op
      case CreateProposal(_) => if s.nextId == id then Record(Some(s.totalSupply), map[], None, None) else r
      case Vote(voter, i, support) =>
        if i == id then r.(ballots := r.ballots[voter := Ballot(support, Read(s.balances, voter))]) else r
      case Queue(i) =>
        if i == id then
          r.(queueing := Some(Queueing(c.now, s.proposals[id].votesFor, s.proposals[id].votesAgainst)))
        else r
      case Execute(i) => if i == id then r.(executedAt := Some(c.now)) else r
      case Mint(_, _) => r
  }

  function RecordOf(s: Store, r: Record, id: uint64, calls: seq<Call>): Record
    decreases |calls|
  {
    if calls == [] then r else RecordOf(After(s, Step(s, calls[0])), Extended(s, r, id, calls[0]), id, calls[1..])
  }

  function ForWeight(b: Ballot): int {
    if b.support then b.weight else 0
  }

  function AgainstWeight(b: Ballot): int {
    if b.support then 0 else b.weight
  }

  ghost predicate QueueReflects(p: Proposal, q: Queueing) {
    && p.executeAfter == q.ledger + TIMELOCK_DELAY
    && p.votesFor == q.votesFor && p.votesAgainst == q.votesAgainst
    && Passes(p)
  }

  // The proposal as stored is what its record says: the tally is the sum of the recorded
  // ballots, and queueing and execution happened when, and on the tally, that it says.
  ghost predicate ProposalReflects(s: Store, r: Record, id: uint64) {
    && (id in s.proposals <==> id < s.nextId)
    && (id !in s.proposals ==> r == NoRecord)
    && (id in s.proposals ==>
          var p := s.proposals[id];
          && r.created == Some(p.snapshotSupply)
          && p.votesFor == SumOf(r.ballots, ForWeight)
          && p.votesAgainst == SumOf(r.ballots, AgainstWeight)
          && (p.queued <==> r.queueing.Some?)
          && (p.executed <==> r.executedAt.Some?)
          && (p.queued ==> QueueReflects(p, r.queueing.value))
          && (p.executed ==> p.queued && r.executedAt.value >= p.executeAfter))
  }

  // A voter has a ballot exactly when marked as having voted.
  ghost predicate VoterMarked(s: Store, r: Record, id: uint64, v: Address) {
    && (v in r.ballots <==> (id, v) in s.voted)
    && (v in r.ballots ==> r.ballots[v].weight >= 1)
    && (id !in s.proposals ==> v !in r.ballots)
  }

  lemma VoteReflected(s: Store, r: Record, id: uint64, c: Call)
    requires ProposalReflects(s, r, id)
    requires c.op.Vote? && c.op.id == id && VoterMarked(s, r, id, c.op.voter) && Step(s, c).Some?
    ensures ProposalReflects(Step(s, c).value, Extended(s, r, id, c), id)
  {
    var b := Ballot(c.op.support, Read(s.balances, c.op.voter));
    SumOfWrite(r.ballots, ForWeight, c.op.voter, b);
    SumOfWrite(r.ballots, AgainstWeight, c.op.voter, b);
  }

  lemma CreationReflected(s: Store, r: Record, id: uint64, c: Call)
    requires ProposalReflects(s, r, id)
    requires c.op.CreateProposal? && Step(s, c).Some?
    ensures ProposalReflects(Step(s, c).value, Extended(s, r, id, c), id)
  {
    if s.nextId == id {
      SumOfEmpty(NoRecord.ballots, ForWeight);
      SumOfEmpty(NoRecord.ballots, AgainstWeight);
    }
  }

  lemma ProgressReflected(s: Store, r: Record, id: uint64, c: Call)
    requires ProposalReflects(s, r, id)
    requires (c.op.Queue? || c.op.Execute?) && Step(s, c).Some?
    ensures ProposalReflects(Step(s, c).value, Extended(s, r, id, c), id)
  {
  }

  lemma StepProposalReflects(s: Store, r: Record, id: uint64, c: Call)
    requires ProposalReflects(s, r, id)
    requires c.op.Vote? ==> VoterMarked(s, r, id, c.op.voter)
    ensures ProposalReflects(After(s, Step(s, c)), Extended(s, r, id, c), id)
  {
    if Step(s, c).Some? {
      match c.op
      case Mint(_, _) =>
      case CreateProposal(_) => CreationReflected(s, r, id, c);
      case Vote(_, i, _) =>
        if i == id {
          VoteReflected(s, r, id, c);
        }
      case _ => ProgressReflected(s, r, id, c);
    }
  }

  lemma StepVoterMarked(s: Store, r: Record, id: uint64, c: Call, v: Address)
    requires VoterMarked(s, r, id, v)
    requires id in s.proposals <==> id < s.nextId
    ensures VoterMarked(After(s, Step(s, c)), Extended(s, r, id, c), id, v)
  {
  }

  ghost predicate Reflects(s: Store, r: Record, id: uint64) {
    ProposalReflects(s, r, id) && forall v :: VoterMarked(s, r, id, v)
  }

  lemma StepReflects(s: Store, r: Record, id: uint64, c: Call)
    requires Reflects(s, r, id)
    ensures Reflects(After(s, Step(s, c)), Extended(s, r, id, c), id)
  {
    StepProposalReflects(s, r, id, c);
    forall v ensures VoterMarked(After(s, Step(s, c)), Extended(s, r, id, c), id, v) {
      StepVoterMarked(s, r, id, c, v);
    }
  }

  // In every run, whatever the signs of its mints.
  lemma {:induction false} RunReflects(s: Store, r: Record, id: uint64, calls: seq<Call>)
    requires Reflects(s, r, id)
    ensures Reflects(Run(s, calls), RecordOf(s, r, id, calls), id)
    decreases |calls|
  {
    if calls != [] {
      StepReflects(s, r, id, calls[0]);
      RunReflects(After(s, Step(s, calls[0])), Extended(s, r, id, calls[0]), id, calls[1..]);
    }
  }

  // ----- Supply

  ghost predicate SupplyIsSum(s: Store) {
    s.totalSupply == Sum(s.balances)
  }

  ghost predicate BalancesNonNegative(s: Store) {
    forall a :: a in s.balances ==> 0 <= s.balances[a]
  }

  ghost predicate MintsNonNegative(calls: seq<Call>) {
    forall c :: c in calls && c.op.Mint? ==> c.op.amount >= 0
  }

  lemma StepSupplyIsSum(s: Store, c: Call)
    requires SupplyIsSum(s)
    ensures SupplyIsSum(After(s, Step(s, c)))
    ensures BalancesNonNegative(s) && (c.op.Mint? ==> c.op.amount >= 0) ==> BalancesNonNegative(After(s, Step(s, c)))
  {
    if c.op.Mint? {
      SumWrite(s.balances, c.op.to, Read(s.balances, c.op.to) + c.op.amount);
    }
  }

  lemma {:induction false} RunSupplyIsSum(s: Store, calls: seq<Call>)
    requires SupplyIsSum(s)
    ensures SupplyIsSum(Run(s, calls))
    ensures BalancesNonNegative(s) && MintsNonNegative(calls) ==> BalancesNonNegative(Run(s, calls))
    decreases |calls|
  {
    if calls != [] {
      assert calls[0] in calls;
      StepSupplyIsSum(s, calls[0]);
      RunSupplyIsSum(After(s, Step(s, calls[0])), calls[1..]);
    }
  }

  // ----- Ballots covered by balances

  // What an account has put into the proposal's tally.
  function WeightOf(r: Record, v: Address): int {
    if v in r.ballots then r.ballots[v].weight else 0
  }

  ghost predicate Covered(s: Store, r: Record, v: Address) {
    Read(s.balances, v) >= WeightOf(r, v)
  }

  ghost predicate AllCovered(s: Store, r: Record) {
    forall v :: Covered(s, r, v)
  }

  // A mint, of whatever sign, that leaves its account with what the account has voted.
  predicate MintCovers(s: Store, r: Record, c: Call) {
    c.op.Mint? && Step(s, c).Some? ==> Read(s.balances, c.op.to) + c.op.amount >= WeightOf(r, c.op.to)
  }

  lemma CoverKept(s: Store, r: Record, id: uint64, c: Call, v: Address)
    requires VoterMarked(s, r, id, v) && (id in s.proposals <==> id < s.nextId)
    requires Covered(s, r, v)
    ensures Covered(After(s, Step(s, c)), Extended(s, r, id, c), v)
       <==> (c.op.Mint? && c.op.to == v ==> MintCovers(s, r, c))
  {
  }

  lemma StepAllCovered(s: Store, r: Record, id: uint64, c: Call)
    requires Reflects(s, r, id) && AllCovered(s, r)
    ensures AllCovered(After(s, Step(s, c)), Extended(s, r, id, c)) <==> MintCovers(s, r, c)
  {
    var t, q := After(s, Step(s, c)), Extended(s, r, id, c);
    forall v ensures Covered(t, q, v) <==> (c.op.Mint? && c.op.to == v ==> MintCovers(s, r, c)) {
      assert VoterMarked(s, r, id, v) && Covered(s, r, v);
      CoverKept(s, r, id, c, v);
    }
    if c.op.Mint? && !MintCovers(s, r, c) {
      assert !Covered(t, q, c.op.to);
    }
  }

  ghost predicate MintsCover(s: Store, r: Record, id: uint64, calls: seq<Call>)
    decreases |calls|
  {
    calls == []
    || (MintCovers(s, r, calls[0])
        && MintsCover(After(s, Step(s, calls[0])), Extended(s, r, id, calls[0]), id, calls[1..]))
  }

  ghost predicate CoveredThroughout(s: Store, r: Record, id: uint64, calls: seq<Call>)
    decreases |calls|
  {
    AllCovered(s, r)
    && (calls == [] || CoveredThroughout(After(s, Step(s, calls[0])), Extended(s, r, id, calls[0]), id, calls[1..]))
  }

  // Every ballot stays covered by its voter's balance, and every other balance at zero or
  // above, throughout a run if and only if every mint of the run covers.
  lemma {:induction false} CoveredExactly(s: Store, r: Record, id: uint64, calls: seq<Call>)
    requires Reflects(s, r, id) && AllCovered(s, r)
    ensures CoveredThroughout(s, r, id, calls) <==> MintsCover(s, r, id, calls)
    ensures MintsCover(s, r, id, calls) ==> AllCovered(Run(s, calls), RecordOf(s, r, id, calls))
    decreases |calls|
  {
    if calls != [] {
      var t, q := After(s, Step(s, calls[0])), Extended(s, r, id, calls[0]);
      StepReflects(s, r, id, calls[0]);
      StepAllCovered(s, r, id, calls[0]);
      if AllCovered(t, q) {
        CoveredExactly(t, q, id, calls[1..]);
      }
    }
  }

  // Non-negative mints always cover.
  lemma {:induction false} NonNegativeMintsCover(s: Store, r: Record, id: uint64, calls: seq<Call>)
    requires Reflects(s, r, id) && AllCovered(s, r)
    requires MintsNonNegative(calls)
    ensures MintsCover(s, r, id, calls)
    decreases |calls|
  {
    if calls != [] {
      var c := calls[0];
      assert c in calls;
      assert c.op.Mint? ==> Covered(s, r, c.op.to);
      StepReflects(s, r, id, c);
      StepAllCovered(s, r, id, c);
      NonNegativeMintsCover(After(s, Step(s, c)), Extended(s, r, id, c), id, calls[1..]);
    }
  }

  // ----- Tally and supply

  ghost function Weights(m: map<Address, Ballot>): map<Address, int> {
    map v | v in m :: m[v].weight
  }

  ghost predicate Splits(m: map<Address, Ballot>) {
    SumOf(m, ForWeight) + SumOf(m, AgainstWeight) == Sum(Weights(m))
  }

  lemma SplitsMore(m: map<Address, Ballot>, v: Address, b: Ballot)
    requires v !in m && Splits(m)
    ensures Splits(m[v := b])
  {
    SumOfWrite(m, ForWeight, v, b);
    SumOfWrite(m, AgainstWeight, v, b);
    SumWrite(Weights(m), v, b.weight);
    assert Weights(m[v := b]) == Weights(m)[v := b.weight];
  }

  lemma {:induction false} WeightsSplit(m: map<Address, Ballot>)
    ensures Splits(m)
    decreases |m|
  {
    if m == map[] {
      SumOfEmpty(m, ForWeight);
      SumOfEmpty(m, AgainstWeight);
      assert Weights(m) == map[];
    } else {
      var v :| v in m;
      var rest := m - {v};
      assert m == rest[v := m[v]];
      WeightsSplit(rest);
      SplitsMore(rest, v, m[v]);
    }
  }

  // In every run the tally of a proposal is the sum of the weights recorded for distinct
  // voters, and the supply is the sum of the balances.
  lemma TallyIsSumOfBallots(id: uint64, calls: seq<Call>)
    ensures var s, r := Run(Fresh, calls), RecordOf(Fresh, NoRecord, id, calls);
            && s.totalSupply == Sum(s.balances)
            && (forall v :: v in r.ballots <==> (id, v) in s.voted)
            && (id in s.proposals ==>
                  && s.proposals[id].votesFor == SumOf(r.ballots, ForWeight)
                  && s.proposals[id].votesAgainst == SumOf(r.ballots, AgainstWeight))
  {
    var s, r := Run(Fresh, calls), RecordOf(Fresh, NoRecord, id, calls);
    RunReflects(Fresh, NoRecord, id, calls);
    RunSupplyIsSum(Fresh, calls);
    forall v ensures v in r.ballots <==> (id, v) in s.voted {
      assert VoterMarked(s, r, id, v);
    }
  }

  // The tally never exceeds the supply in a run whose mints all cover, in particular when
  // no mint is negative.
  lemma TallyWithinSupply(id: uint64, calls: seq<Call>)
    requires MintsCover(Fresh, NoRecord, id, calls)
    ensures var s := Run(Fresh, calls);
            id in s.proposals ==> s.proposals[id].votesFor + s.proposals[id].votesAgainst <= s.totalSupply
  {
    var s, r := Run(Fresh, calls), RecordOf(Fresh, NoRecord, id, calls);
    TallyIsSumOfBallots(id, calls);
    CoveredExactly(Fresh, NoRecord, id, calls);
    WeightsSplit(r.ballots);
    RunReflects(Fresh, NoRecord, id, calls);
    forall v | v in Weights(r.ballots) ensures v in s.balances && Weights(r.ballots)[v] <= s.balances[v] {
      assert VoterMarked(s, r, id, v) && Covered(s, r, v);
    }
    forall v | v in s.balances ensures 0 <= s.balances[v] {
      assert VoterMarked(s, r, id, v) && Covered(s, r, v);
    }
    SumMonotone(Weights(r.ballots), s.balances);
  }

  // ----- When the tally stays within the supply

  function Tally(p: Proposal): int {
    p.votesFor + p.votesAgainst
  }

  predicate Bounded(s: Store, id: uint64) {
    id in s.proposals ==> Tally(s.proposals[id]) <= s.totalSupply
  }

  // What can be checked of a call before it: a mint takes no more than the supply is above
  // the tally, a ballot weighs no more than that, and a proposal is not created on a
  // negative supply.
  predicate KeepsBound(s: Store, id: uint64, c: Call) {
    Step(s, c).Some? ==>
      match c.op
      case Mint(_, amount) => id in s.proposals ==> Tally(s.proposals[id]) - s.totalSupply <= amount
      case CreateProposal(_) => s.nextId == id ==> 0 <= s.totalSupply
      case Vote(voter, i, _) => i == id ==> Read(s.balances, voter) <= s.totalSupply - Tally(s.proposals[id])
      case _ => true
  }

  lemma BoundKeptExactly(s: Store, id: uint64, c: Call)
    requires id in s.proposals <==> id < s.nextId
    requires Bounded(s, id)
    ensures var t := After(s, Step(s, c));
            (id in t.proposals <==> id < t.nextId) && (Bounded(t, id) <==> KeepsBound(s, id, c))
  {
  }

  ghost predicate BoundedThroughout(s: Store, id: uint64, calls: seq<Call>)
    decreases |calls|
  {
    Bounded(s, id) && (calls == [] || BoundedThroughout(After(s, Step(s, calls[0])), id, calls[1..]))
  }

  ghost predicate AllKeepBound(s: Store, id: uint64, calls: seq<Call>)
    decreases |calls|
  {
    calls == [] || (KeepsBound(s, id, calls[0]) && AllKeepBound(After(s, Step(s, calls[0])), id, calls[1..]))
  }

  lemma {:induction false} BoundedFrom(s: Store, id: uint64, calls: seq<Call>)
    requires id in s.proposals <==> id < s.nextId
    requires Bounded(s, id)
    ensures BoundedThroughout(s, id, calls) <==> AllKeepBound(s, id, calls)
    decreases |calls|
  {
    if calls != [] {
      BoundKeptExactly(s, id, calls[0]);
      if KeepsBound(s, id, calls[0]) {
        BoundedFrom(After(s, Step(s, calls[0])), id, calls[1..]);
      }
    }
  }

  // From deployment, the tally of a proposal is within the supply after every call of a
  // run if and only if every call of the run keeps the bound.
  lemma BoundedThroughoutExactly(id: uint64, calls: seq<Call>)
    ensures BoundedThroughout(Fresh, id, calls) <==> AllKeepBound(Fresh, id, calls)
  {
    BoundedFrom(Fresh, id, calls);
  }

  // ----- What an executed proposal went through

  lemma QuorumFloor(supply: int)
    ensures 10 * QuorumThreshold(supply) > supply - 10
    ensures supply >= 0 ==> QuorumThreshold(supply) == supply / 10
    ensures supply <= 0 ==> 10 * QuorumThreshold(supply) >= supply
  {
  }

  // Every executed proposal was queued at least TIMELOCK_DELAY ledgers before it was
  // executed, on the tally it still has, which was a strict majority and missed a tenth
  // of the supply at creation by less than one vote.
  lemma ExecutedWasApproved(id: uint64, calls: seq<Call>)
    requires var s := Run(Fresh, calls); id in s.proposals && s.proposals[id].executed
    ensures var p, r := Run(Fresh, calls).proposals[id], RecordOf(Fresh, NoRecord, id, calls);
            && r.created == Some(p.snapshotSupply)
            && r.queueing.Some? && r.executedAt.Some?
            && r.executedAt.value >= r.queueing.value.ledger + TIMELOCK_DELAY
            && p.votesFor == r.queueing.value.votesFor && p.votesAgainst == r.queueing.value.votesAgainst
            && p.votesFor > p.votesAgainst
            && 10 * (p.votesFor + p.votesAgainst) > p.snapshotSupply - 10
  {
    RunReflects(Fresh, NoRecord, id, calls);
    QuorumFloor(Run(Fresh, calls).proposals[id].snapshotSupply);
  }

  // The documentation asks for a tenth of the snapshot supply. The rounded threshold
  // queues a proposal on less in exactly one case: a positive supply that is not a
  // multiple of ten, and a tally of exactly its rounded-down tenth.
  lemma QuorumShortfall(s: Store, c: Call)
    requires c.op.Queue? && Step(s, c).Some?
    ensures c.op.id in s.proposals
    ensures var p := s.proposals[c.op.id];
            (10 * Tally(p) < p.snapshotSupply
             <==> p.snapshotSupply > 0 && p.snapshotSupply % 10 != 0 && Tally(p) == p.snapshotSupply / 10)
  {
    var p := s.proposals[c.op.id];
    QuorumFloor(p.snapshotSupply);
  }

  lemma RunFirst(s: Store, calls: seq<Call>, t: Store, rest: seq<Call>)
    requires calls != [] && calls[1..] == rest
    requires Step(s, calls[0]) == Some(t)
    ensures Run(s, calls) == Run(t, rest)
  {
  }

  // As in this run from deployment: one vote of a supply of nineteen is queued.
  lemma ShortfallQueued(a: Address, b: Address)
    requires a != b
    ensures var calls := [Call(0, Mint(a, 18)), Call(0, Mint(b, 1)), Call(0, CreateProposal(b)),
                          Call(0, Vote(b, 0, true)), Call(0, Queue(0))];
            Run(Fresh, calls).proposals == map[0 := Proposal(b, 19, 1, 0, true, false, 1000)]
  {
    var c0, c1, c2 := Call(0, Mint(a, 18)), Call(0, Mint(b, 1)), Call(0, CreateProposal(b));
    var c3, c4 := Call(0, Vote(b, 0, true)), Call(0, Queue(0));
    var s1 := Store(18, map[a := 18], 0, map[], {});
    var s2 := Store(19, s1.balances[b := 1], 0, map[], {});
    var s3 := s2.(nextId := 1, proposals := s2.proposals[0 := Proposal(b, 19, 0, 0, false, false, 0)]);
    var s4 := s3.(voted := s3.voted + {(0, b)},
                  proposals := s3.proposals[0 := Proposal(b, 19, 1, 0, false, false, 0)]);
    var s5 := s4.(proposals := s4.proposals[0 := Proposal(b, 19, 1, 0, true, false, 1000)]);
    RunFirst(Fresh, [c0, c1, c2, c3, c4], s1, [c1, c2, c3, c4]);
    RunFirst(s1, [c1, c2, c3, c4], s2, [c2, c3, c4]);
    RunFirst(s2, [c2, c3, c4], s3, [c3, c4]);
    RunFirst(s3, [c3, c4], s4, [c4]);
    RunFirst(s4, [c4], s5, []);
  }

  // ----- What a ballot weighs

  // The accepted mints of a run to one account, negative ones included.
  function NetMinted(s: Store, v: Address, calls: seq<Call>): int
    decreases |calls|
  {
    if calls == [] then 0
    else
      (if calls[0].op.Mint? && calls[0].op.to == v && Step(s, calls[0]).Some? then calls[0].op.amount else 0)
      + NetMinted(After(s, Step(s, calls[0])), v, calls[1..])
  }

  lemma {:induction false} BalanceIsNetMinted(s: Store, v: Address, calls: seq<Call>)
    ensures Read(Run(s, calls).balances, v) == Read(s.balances, v) + NetMinted(s, v, calls)
    decreases |calls|
  {
    if calls != [] {
      BalanceIsNetMinted(After(s, Step(s, calls[0])), v, calls[1..]);
    }
  }

  ghost predicate Creates(s: Store, calls: seq<Call>, i: nat, id: uint64) {
    && i < |calls| && calls[i].op.CreateProposal?
    && Run(s, calls[..i]).nextId == id && Step(Run(s, calls[..i]), calls[i]).Some?
  }

  // A proposal that a run leaves behind was created by one of its calls; the balance of
  // any account has since moved by the mints to it.
  lemma {:induction false} CreatedBefore(s: Store, calls: seq<Call>, id: uint64, v: Address) returns (i: nat)
    requires id !in s.proposals && id in Run(s, calls).proposals
    ensures Creates(s, calls, i, id)
    ensures Read(Run(s, calls).balances, v)
         == Read(Run(s, calls[..i]).balances, v) + NetMinted(Run(s, calls[..i]), v, calls[i..])
    decreases |calls|
  {
    var t := After(s, Step(s, calls[0]));
    if calls[0].op.CreateProposal? && s.nextId == id && Step(s, calls[0]).Some? {
      i := 0;
      assert calls[..0] == [] && calls[0..] == calls;
      BalanceIsNetMinted(s, v, calls);
    } else {
      var j := CreatedBefore(t, calls[1..], id, v);
      i := j + 1;
      assert calls[..i][1..] == calls[1..][..j] && calls[i..] == calls[1..][j..];
      assert Run(s, calls[..i]) == Run(t, calls[1..][..j]);
    }
  }

  // Every ballot accepted in any run from deployment adds to the tally the voter's balance
  // when the proposal was created plus the net of the accepted mints to the voter since.
  // So it weighs the creation-time balance exactly when those mints cancel out; only the
  // quorum threshold is a snapshot.
  lemma BallotWeight(calls: seq<Call>, vote: Call) returns (created: nat)
    requires vote.op.Vote? && Step(Run(Fresh, calls), vote).Some?
    ensures Creates(Fresh, calls, created, vote.op.id)
    ensures var s, t := Run(Fresh, calls), Step(Run(Fresh, calls), vote).value;
            var p, q := s.proposals[vote.op.id], t.proposals[vote.op.id];
            var weight := (q.votesFor + q.votesAgainst) - (p.votesFor + p.votesAgainst);
            var creation := Run(Fresh, calls[..created]);
            var since := NetMinted(creation, vote.op.voter, calls[created..]);
            && weight == Read(creation.balances, vote.op.voter) + since
            && (weight == Read(creation.balances, vote.op.voter) <==> since == 0)
            && q.snapshotSupply == p.snapshotSupply
  {
    created := CreatedBefore(Fresh, calls, vote.op.id, vote.op.voter);
  }

  // In particular, tokens minted while a proposal is open vote on it with full weight.
  lemma LateTokensVote(s: Store, id: uint64, v: Address, amount: int128, now: uint32)
    requires id in s.proposals && !s.proposals[id].queued && !s.proposals[id].executed
    requires (id, v) !in s.voted && amount >= 1 && Read(s.balances, v) >= 0
    requires FitsInt128(Read(s.balances, v) + amount) && FitsInt128(s.totalSupply + amount)
    requires FitsInt128(s.proposals[id].votesFor + Read(s.balances, v) + amount)
    ensures var t := Run(s, [Call(now, Mint(v, amount)), Call(now, Vote(v, id, true))]);
            && id in t.proposals
            && t.proposals[id].votesFor == s.proposals[id].votesFor + Read(s.balances, v) + amount
            && t.proposals[id].snapshotSupply == s.proposals[id].snapshotSupply
  {
    var calls := [Call(now, Mint(v, amount)), Call(now, Vote(v, id, true))];
    var s1 := After(s, Step(s, calls[0]));
    assert Read(s1.balances, v) == Read(s.balances, v) + amount;
    assert calls[1..] == [calls[1]];
    var s2 := After(s1, Step(s1, calls[1]));
    assert calls[1..][1..] == [];
    assert Run(s1, calls[1..]) == Run(s2, []);
  }

  // ----- Negative mints

  // A run from deployment in which a negative mint takes back supply that has already
  // voted: the tally of ten stands against a supply of zero, and that mint does not cover.
  lemma NegativeMintBreaksTally(a: Address)
    ensures var calls := [Call(0, Mint(a, 10)), Call(0, CreateProposal(a)), Call(0, Vote(a, 0, true)),
                          Call(0, Mint(a, -10))];
            var s := Run(Fresh, calls);
            && s.totalSupply == 0
            && 0 in s.proposals && s.proposals[0].votesFor + s.proposals[0].votesAgainst == 10
            && !MintsCover(Fresh, NoRecord, 0, calls)
  {
    var c0, c1 := Call(0, Mint(a, 10)), Call(0, CreateProposal(a));
    var c2, c3 := Call(0, Vote(a, 0, true)), Call(0, Mint(a, -10));
    var s1 := Store(10, map[a := 10], 0, map[], {});
    var s2 := s1.(nextId := 1, proposals := s1.proposals[0 := Proposal(a, 10, 0, 0, false, false, 0)]);
    var s3 := s2.(voted := s2.voted + {(0, a)},
                  proposals := s2.proposals[0 := Proposal(a, 10, 10, 0, false, false, 0)]);
    var s4 := s3.(totalSupply := 0, balances := s3.balances[a := 0]);
    RunFirst(Fresh, [c0, c1, c2, c3], s1, [c1, c2, c3]);
    RunFirst(s1, [c1, c2, c3], s2, [c2, c3]);
    RunFirst(s2, [c2, c3], s3, [c3]);
    RunFirst(s3, [c3], s4, []);
    var calls := [c0, c1, c2, c3];
    if MintsCover(Fresh, NoRecord, 0, calls) {
      TallyWithinSupply(0, calls);
    }
  }

  // ----- Which calls are accepted, by the history of the run

  // All accepted mints of a run, and the number of proposals it creates.

  function AllMinted(s: Store, calls: seq<Call>): int
    decreases |calls|
  {
    if calls == [] then 0
    else
      (if calls[0].op.Mint? && Step(s, calls[0]).Some? then calls[0].op.amount else 0)
      + AllMinted(After(s, Step(s, calls[0])), calls[1..])
  }

  function Proposed(s: Store, calls: seq<Call>): nat
    decreases |calls|
  {
    if calls == [] then 0
    else
      (if calls[0].op.CreateProposal? && Step(s, calls[0]).Some? then 1 else 0)
      + Proposed(After(s, Step(s, calls[0])), calls[1..])
  }

  lemma {:induction false} SupplyIsMinted(s: Store, calls: seq<Call>)
    ensures Run(s, calls).totalSupply == s.totalSupply + AllMinted(s, calls)
    decreases |calls|
  {
    if calls != [] {
      SupplyIsMinted(After(s, Step(s, calls[0])), calls[1..]);
    }
  }

  lemma {:induction false} IdsAreCounted(s: Store, calls: seq<Call>)
    ensures Run(s, calls).nextId == s.nextId + Proposed(s, calls)
    decreases |calls|
  {
    if calls != [] {
      IdsAreCounted(After(s, Step(s, calls[0])), calls[1..]);
    }
  }

  // A mint is accepted exactly when the balance and the supply, as minted so far, fit.
  lemma MintAcceptedExactly(calls: seq<Call>, to: Address, amount: int128, now: uint32)
    ensures Step(Run(Fresh, calls), Call(now, Mint(to, amount))).Some?
       <==> && I128_MIN <= NetMinted(Fresh, to, calls) + amount <= I128_MAX
            && I128_MIN <= AllMinted(Fresh, calls) + amount <= I128_MAX
  {
    BalanceIsNetMinted(Fresh, to, calls);
    SupplyIsMinted(Fresh, calls);
  }

  // A proposal is created exactly by a holder of at least one token while ids are left. It
  // takes the next id, names its proposer, and snapshots everything minted so far.
  lemma CreateAcceptedExactly(calls: seq<Call>, proposer: Address, now: uint32)
    ensures var next := Step(Run(Fresh, calls), Call(now, CreateProposal(proposer)));
            var id := Proposed(Fresh, calls);
            && (next.Some? <==> NetMinted(Fresh, proposer, calls) >= 1 && id < 0xFFFF_FFFF_FFFF_FFFF)
            && (next.Some? ==>
                  && id in next.value.proposals
                  && next.value.proposals[id].proposer == proposer
                  && next.value.proposals[id].snapshotSupply == AllMinted(Fresh, calls))
  {
    BalanceIsNetMinted(Fresh, proposer, calls);
    SupplyIsMinted(Fresh, calls);
    IdsAreCounted(Fresh, calls);
  }

  lemma {:induction false} ProposalKept(s: Store, id: uint64, calls: seq<Call>)
    requires id in s.proposals && id < s.nextId
    ensures id in Run(s, calls).proposals
    ensures Run(s, calls).proposals[id].proposer == s.proposals[id].proposer
    ensures Run(s, calls).proposals[id].snapshotSupply == s.proposals[id].snapshotSupply
    decreases |calls|
  {
    if calls != [] {
      ProposalKept(After(s, Step(s, calls[0])), id, calls[1..]);
    }
  }

  // The votes recorded for one side.
  ghost function Votes(r: Record, support: bool): int {
    if support then SumOf(r.ballots, ForWeight) else SumOf(r.ballots, AgainstWeight)
  }

  // A vote is accepted exactly while the proposal is not queued, once per voter, from a
  // holder of at least one token, and when the votes for its side still fit.
  lemma VoteAcceptedExactly(calls: seq<Call>, voter: Address, id: uint64, support: bool, now: uint32)
    ensures var r, weight := RecordOf(Fresh, NoRecord, id, calls), NetMinted(Fresh, voter, calls);
            (Step(Run(Fresh, calls), Call(now, Vote(voter, id, support))).Some?
             <==> && r.created.Some? && r.queueing.None? && voter !in r.ballots && weight >= 1
                  && Votes(r, support) + weight <= I128_MAX)
  {
    var s, r := Run(Fresh, calls), RecordOf(Fresh, NoRecord, id, calls);
    RunReflects(Fresh, NoRecord, id, calls);
    BalanceIsNetMinted(Fresh, voter, calls);
    assert VoterMarked(s, r, id, voter);
  }

  lemma VotesNonNegative(s: Store, r: Record, id: uint64, support: bool)
    requires Reflects(s, r, id)
    ensures Votes(r, support) >= 0
  {
    forall v | v in r.ballots ensures r.ballots[v].weight >= 1 {
      assert VoterMarked(s, r, id, v);
    }
    SumOfNonNegative(r.ballots, ForWeight);
    SumOfNonNegative(r.ballots, AgainstWeight);
  }

  lemma QuorumMet(supply: int, votes: int)
    requires votes >= 1
    ensures votes >= QuorumThreshold(supply) <==> 10 * votes > supply - 10
  {
  }

  // A proposal is queued exactly once, with more votes for than against, more than a tenth
  // of the snapshot supply less one vote, and arithmetic that fits.
  lemma QueueAcceptedExactly(calls: seq<Call>, id: uint64, now: uint32)
    ensures var r := RecordOf(Fresh, NoRecord, id, calls);
            var up, down := Votes(r, true), Votes(r, false);
            (Step(Run(Fresh, calls), Call(now, Queue(id))).Some?
             <==> && r.created.Some? && r.queueing.None? && up > down && up + down <= I128_MAX
                  && I128_MIN <= r.created.value * 1_000 <= I128_MAX
                  && 10 * (up + down) > r.created.value - 10
                  && now + 1_000 <= 0xFFFF_FFFF)
  {
    var s, r := Run(Fresh, calls), RecordOf(Fresh, NoRecord, id, calls);
    RunReflects(Fresh, NoRecord, id, calls);
    VotesNonNegative(s, r, id, true);
    VotesNonNegative(s, r, id, false);
    if r.created.Some? && Votes(r, true) > Votes(r, false) {
      QuorumMet(r.created.value, Votes(r, true) + Votes(r, false));
    }
  }

  // And executed exactly once, a thousand ledgers after it was queued or later.
  lemma ExecuteAcceptedExactly(calls: seq<Call>, id: uint64, now: uint32)
    ensures var r := RecordOf(Fresh, NoRecord, id, calls);
            (Step(Run(Fresh, calls), Call(now, Execute(id))).Some?
             <==> r.queueing.Some? && r.executedAt.None? && now >= r.queueing.value.ledger + 1_000)
  {
    RunReflects(Fresh, NoRecord, id, calls);
  }
}
