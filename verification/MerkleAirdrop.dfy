/** The Merkle airdrop (secure/secure_airdrop/src/lib.rs). */
module MerkleAirdrop {
  import opened Host
  import opened Bytes
  import opened Rounding

  // ----- Hashing and proof folding

  function LeafPreimage(env: Env, claimant: Address, amount: int128): seq<byte> {
    env.toXdr(claimant) + Int128Bytes(amount)
  }

  function PairPreimage(a: Digest, b: Digest): (p: seq<byte>)
    ensures |p| == 64
  {
    if LexLe(a, b) then a + b else b + a
  }

  function LeafHash(env: Env, claimant: Address, amount: int128): Digest {
    env.sha256(LeafPreimage(env, claimant, amount))
  }

  function HashPair(env: Env, a: Digest, b: Digest): Digest {
    env.sha256(PairPreimage(a, b))
  }

  // The node reached from `node` after pairing it with every sibling in turn.
  function Fold(env: Env, node: Digest, proof: seq<Digest>): Digest {
    if proof == [] then node
    else HashPair(env, Fold(env, node, proof[..|proof| - 1]), proof[|proof| - 1])
  }

  predicate Accepts(env: Env, root: Digest, claimant: Address, amount: int128, proof: seq<Digest>) {
    Fold(env, LeafHash(env, claimant, amount), proof) == root
  }

  method VerifyMerkleProof(env: Env, root: Digest, claimant: Address, amount: int128, proof: seq<Digest>)
    returns (ok: bool)
    ensures ok == Accepts(env, root, claimant, amount, proof)
  {
    var node := LeafHash(env, claimant, amount);
    for i := 0 to |proof|
      invariant node == Fold(env, LeafHash(env, claimant, amount), proof[..i])
    {
      assert proof[..i + 1][..i] == proof[..i];
      node := HashPair(env, node, proof[i]);
    }
    assert proof[..|proof|] == proof;
    ok := node == root;
  }

  // A leaf is the encoded address followed by the amount, sixteen bytes in two's complement.
  lemma LeafLayout(env: Env, claimant: Address, amount: int128)
    ensures var p, n := LeafPreimage(env, claimant, amount), |env.toXdr(claimant)|;
            && |p| == n + 16 && p[..n] == env.toXdr(claimant)
            && FromBigEndian(p[n..]) == if amount < 0 then amount + Pow(256, 16) else amount
  {
    var p, n := LeafPreimage(env, claimant, amount), |env.toXdr(claimant)|;
    assert p[n..] == Int128Bytes(amount);
    FieldWidths();
    BigEndianRoundTrip(if amount < 0 then amount + 2 * (I128_MAX + 1) else amount, 16);
  }

  // A pair is its two nodes, the one that is smaller at the first different byte first.
  lemma PairSorted(a: Digest, b: Digest, i: nat)
    requires i < 32
    ensures var p := PairPreimage(a, b);
            && (p == a + b || p == b + a)
            && (p[..i] == p[32..32 + i] && p[i] != p[32 + i] ==> p[i] < p[32 + i])
  {
    var p := PairPreimage(a, b);
    var x, y := if LexLe(a, b) then a else b, if LexLe(a, b) then b else a;
    LexLeTotalAntisymmetric(a, b);
    assert p == x + y;
    assert p[..i] == x[..i] && p[32..32 + i] == y[..i] && p[i] == x[i] && p[32 + i] == y[i];
    if x[..i] == y[..i] && x[i] != y[i] {
      LexLeFirstDifference(x, y, i);
    }
  }

  // ----- Trees

  datatype Payment = Payment(claimant: Address, amount: int128)

  datatype Tree = Leaf(entry: Payment) | Node(left: Tree, right: Tree)

  function Root(env: Env, t: Tree): Digest {
    match t
    case Leaf(e) => LeafHash(env, e.claimant, e.amount)
    case Node(l, r) => HashPair(env, Root(env, l), Root(env, r))
  }

  function Leaves(t: Tree): seq<Payment> {
    match t
    case Leaf(e) => [e]
    case Node(l, r) => Leaves(l) + Leaves(r)
  }

  // Everything that hashing the tree feeds to the hash function.
  ghost function TreePreimages(env: Env, t: Tree): set<seq<byte>> {
    match t
    case Leaf(e) => {LeafPreimage(env, e.claimant, e.amount)}
    case Node(l, r) =>
      TreePreimages(env, l) + TreePreimages(env, r) + {PairPreimage(Root(env, l), Root(env, r))}
  }

  // Everything that checking a proof feeds to the hash function.
  ghost function ProofPreimages(env: Env, claimant: Address, amount: int128, proof: seq<Digest>): set<seq<byte>> {
    if proof == [] then {LeafPreimage(env, claimant, amount)}
    else
      var init := proof[..|proof| - 1];
      ProofPreimages(env, claimant, amount, init)
      + {PairPreimage(Fold(env, LeafHash(env, claimant, amount), init), proof[|proof| - 1])}
  }

  // Addresses are encoded injectively, and no leaf preimage has the 64 bytes of a pair.
  ghost predicate Separated(env: Env) {
    && InjectiveXdr(env)
    && forall a :: |env.toXdr(a)| != 48
  }

  lemma LeafPreimageInjective(env: Env, p: Payment, q: Payment)
    requires Separated(env)
    requires LeafPreimage(env, p.claimant, p.amount) == LeafPreimage(env, q.claimant, q.amount)
    ensures p == q
  {
    SplitEqual(env.toXdr(p.claimant), Int128Bytes(p.amount), env.toXdr(q.claimant), Int128Bytes(q.amount));
    Int128BytesInjective(p.amount, q.amount);
  }

  lemma LeafIsNotPair(env: Env, p: Payment, a: Digest, b: Digest)
    requires Separated(env)
    ensures LeafPreimage(env, p.claimant, p.amount) != PairPreimage(a, b)
  {
  }

  lemma PairPreimageMember(a: Digest, b: Digest, c: Digest, d: Digest)
    requires PairPreimage(a, b) == PairPreimage(c, d)
    ensures a == c || a == d
  {
    var x, y := if LexLe(a, b) then a else b, if LexLe(a, b) then b else a;
    var z, w := if LexLe(c, d) then c else d, if LexLe(c, d) then d else c;
    SplitEqual(x, y, z, w);
  }

  // Soundness: when nothing hashed by the tree or by the proof collides, an accepted
  // proof of any length names a leaf of the tree.
  lemma {:induction false} AcceptedIsLeaf(env: Env, t: Tree, p: Payment, proof: seq<Digest>, S: set<seq<byte>>)
    requires Separated(env)
    requires Accepts(env, Root(env, t), p.claimant, p.amount, proof)
    requires TreePreimages(env, t) <= S && ProofPreimages(env, p.claimant, p.amount, proof) <= S
    requires CollisionFree(env, S)
    ensures p in Leaves(t)
    decreases |proof|
  {
    if proof == [] {
      match t
      case Leaf(e) => LeafPreimageInjective(env, p, e);
      case Node(l, r) =>
        LeafIsNotPair(env, p, Root(env, l), Root(env, r));
    } else {
      var init, last := proof[..|proof| - 1], proof[|proof| - 1];
      var below := Fold(env, LeafHash(env, p.claimant, p.amount), init);
      match t
      case Leaf(e) =>
        LeafIsNotPair(env, e, below, last);
      case Node(l, r) =>
        PairPreimageMember(below, last, Root(env, l), Root(env, r));
        if below == Root(env, l) {
          AcceptedIsLeaf(env, l, p, init, S);
        } else {
          AcceptedIsLeaf(env, r, p, init, S);
        }
    }
  }

  lemma SoundOrCollision(env: Env, t: Tree, p: Payment, proof: seq<Digest>)
    requires Separated(env)
    requires Accepts(env, Root(env, t), p.claimant, p.amount, proof)
    ensures
      || p in Leaves(t)
      || exists x, y ::
          && x in TreePreimages(env, t) + ProofPreimages(env, p.claimant, p.amount, proof)
          && y in TreePreimages(env, t) + ProofPreimages(env, p.claimant, p.amount, proof)
          && x != y && env.sha256(x) == env.sha256(y)
  {
    var S := TreePreimages(env, t) + ProofPreimages(env, p.claimant, p.amount, proof);
    if CollisionFree(env, S) {
      AcceptedIsLeaf(env, t, p, proof, S);
    }
  }

  // ----- Completeness

  // The leaf reached from the root; each step says whether to go left.
  function LeafAt(t: Tree, path: seq<bool>): Option<Payment> {
    match t
    case Leaf(e) => if path == [] then Some(e) else None
    case Node(l, r) => if path == [] then None else LeafAt(if path[0] then l else r, path[1..])
  }

  // The roots of the subtrees passed by on the way, nearest the leaf first.
  function Siblings(env: Env, t: Tree, path: seq<bool>): seq<Digest>
    requires LeafAt(t, path).Some?
  {
    match t
    case Leaf(e) => []
    case Node(l, r) =>
      if path[0] then Siblings(env, l, path[1..]) + [Root(env, r)]
      else Siblings(env, r, path[1..]) + [Root(env, l)]
  }

  lemma HashPairCommutes(env: Env, a: Digest, b: Digest)
    ensures HashPair(env, a, b) == HashPair(env, b, a)
  {
    LexLeTotalAntisymmetric(a, b);
  }

  lemma {:induction false} SiblingPathAccepted(env: Env, t: Tree, path: seq<bool>)
    requires LeafAt(t, path).Some?
    ensures var e := LeafAt(t, path).value;
            Accepts(env, Root(env, t), e.claimant, e.amount, Siblings(env, t, path))
    decreases t
  {
    match t
    case Leaf(e) =>
    case Node(l, r) =>
      var near, far := if path[0] then l else r, if path[0] then r else l;
      SiblingPathAccepted(env, near, path[1..]);
      var proof := Siblings(env, t, path);
      assert proof[..|proof| - 1] == Siblings(env, near, path[1..]);
      HashPairCommutes(env, Root(env, near), Root(env, far));
  }

  lemma {:induction false} EveryLeafHasPath(t: Tree, p: Payment) returns (path: seq<bool>)
    requires p in Leaves(t)
    ensures LeafAt(t, path) == Some(p)
    decreases t
  {
    match t
    case Leaf(e) => path := [];
    case Node(l, r) =>
      if p in Leaves(l) {
        var rest := EveryLeafHasPath(l, p);
        path := [true] + rest;
        assert path[1..] == rest;
      } else {
        var rest := EveryLeafHasPath(r, p);
        path := [false] + rest;
        assert path[1..] == rest;
      }
  }

  // The same tree with the children of some nodes swapped.
  predicate Rearranged(t: Tree, u: Tree) {
    match (t, u)
    case (Leaf(e), Leaf(f)) => e == f
    case (Node(l, r), Node(m, s)) =>
      (Rearranged(l, m) && Rearranged(r, s)) || (Rearranged(l, s) && Rearranged(r, m))
    case _ => false
  }

  lemma {:induction false} RearrangedSameRoot(env: Env, t: Tree, u: Tree)
    requires Rearranged(t, u)
    ensures Root(env, t) == Root(env, u)
  {
    match (t, u)
    case (Leaf(_), Leaf(_)) =>
    case (Node(l, r), Node(m, s)) =>
      if Rearranged(l, m) && Rearranged(r, s) {
        RearrangedSameRoot(env, l, m);
        RearrangedSameRoot(env, r, s);
      } else {
        RearrangedSameRoot(env, l, s);
        RearrangedSameRoot(env, r, m);
        HashPairCommutes(env, Root(env, m), Root(env, s));
      }
  }

  // ----- The contract

  // `transfers` are the payments the token contract has carried out for this contract.
  datatype Store = Store(
    admin: Option<Address>, root: Option<Digest>, token: Option<Address>,
    claimed: set<Address>, transfers: seq<Payment>)

  const Fresh := Store(None, None, None, {}, [])

  datatype Call =
    | Initialize(admin: Address, root: Digest, token: Address)
    | Claim(entry: Payment, proof: seq<Digest>, tokenAccepts: bool)

  function Step(env: Env, s: Store, c: Call): Option<Store> {
    match c
    case Initialize(admin, root, token) =>
      if s.admin.Some? then None
      else Some(s.(admin := Some(admin), root := Some(root), token := Some(token)))
    case Claim(p, proof, tokenAccepts) =>
      if p.claimant in s.claimed || s.root.None? || s.token.None? then None
      else if !Accepts(env, s.root.value, p.claimant, p.amount, proof) || !tokenAccepts then None
      else Some(s.(claimed := s.claimed + {p.claimant}, transfers := s.transfers + [p]))
  }

  function Run(env: Env, s: Store, calls: seq<Call>): Store
    decreases |calls|
  {
    if calls == [] then s else Run(env, After(s, Step(env, s, calls[0])), calls[1..])
  }

  class SecureAirdrop {
    const env: Env
    var admin: Option<Address>
    var root: Option<Digest>
    var token: Option<Address>
    var claimed: set<Address>
    var transfers: seq<Payment>

    ghost function Stored(): Store
      reads this
    {
      Store(admin, root, token, claimed, transfers)
    }

    constructor (env: Env)
      ensures this.env == env && Stored() == Fresh
    {
      this.env := env;
      admin, root, token, claimed, transfers := None, None, None, {}, [];
    }

    method Initialize(admin: Address, merkleRoot: Digest, token: Address) returns (ok: bool)
      modifies this
      ensures Settles(old(Stored()), Step(env, old(Stored()), Call.Initialize(admin, merkleRoot, token)), ok, Stored())
    {
      if this.admin.Some? {
        return false;
      }
      this.admin := Some(admin);
      this.root := Some(merkleRoot);
      this.token := Some(token);
      return true;
    }

    // `tokenAccepts` is the outcome of the token contract's transfer.
    method Claim(claimant: Address, amount: int128, proof: seq<Digest>, tokenAccepts: bool) returns (ok: bool)
      modifies this
      ensures Settles(old(Stored()),
                      Step(env, old(Stored()), Call.Claim(Payment(claimant, amount), proof, tokenAccepts)),
                      ok, Stored())
    {
      if claimant in claimed || root.None? {
        return false;
      }
      var valid := VerifyMerkleProof(env, root.value, claimant, amount, proof);
      if !valid {
        return false;
      }
      var before := claimed;
      claimed := claimed + {claimant};
      if token.None? || !tokenAccepts {
        claimed := before;
        return false;
      }
      transfers := transfers + [Payment(claimant, amount)];
      return true;
    }
  }

  // ----- Which claims are accepted

  // The call that the first initialisation was, and the claims accepted after it, in order.

  function FirstInitialize(calls: seq<Call>): (first: Option<Call>)
    ensures first.Some? ==> first.value.Initialize?
  {
    if calls == [] then None
    else if calls[0].Initialize? then Some(calls[0])
    else FirstInitialize(calls[1..])
  }

  function AcceptedClaims(env: Env, s: Store, calls: seq<Call>): seq<Payment>
    decreases |calls|
  {
    if calls == [] then []
    else
      (if calls[0].Claim? && Step(env, s, calls[0]).Some? then [calls[0].entry] else [])
      + AcceptedClaims(env, After(s, Step(env, s, calls[0])), calls[1..])
  }

  // Once stored, the three entries of an initialisation stay.
  lemma {:induction false} EntriesKept(env: Env, s: Store, calls: seq<Call>)
    requires s.admin.Some?
    ensures var t := Run(env, s, calls); t.admin == s.admin && t.root == s.root && t.token == s.token
    decreases |calls|
  {
    if calls != [] {
      EntriesKept(env, After(s, Step(env, s, calls[0])), calls[1..]);
    }
  }

  lemma {:induction false} EntriesStored(env: Env, s: Store, calls: seq<Call>)
    requires s.admin.None? && s.root.None? && s.token.None?
    ensures var t, init := Run(env, s, calls), FirstInitialize(calls);
            if init.None? then t.admin.None? && t.root.None? && t.token.None?
            else && t.admin == Some(init.value.admin) && t.root == Some(init.value.root)
                 && t.token == Some(init.value.token)
    decreases |calls|
  {
    if calls != [] {
      var t := After(s, Step(env, s, calls[0]));
      if calls[0].Initialize? {
        EntriesKept(env, t, calls[1..]);
      } else {
        EntriesStored(env, t, calls[1..]);
      }
    }
  }

  lemma {:induction false} PaidIsAccepted(env: Env, s: Store, calls: seq<Call>)
    ensures Run(env, s, calls).transfers == s.transfers + AcceptedClaims(env, s, calls)
    decreases |calls|
  {
    if calls != [] {
      var t := After(s, Step(env, s, calls[0]));
      PaidIsAccepted(env, t, calls[1..]);
      var rest := AcceptedClaims(env, t, calls[1..]);
      if calls[0].Claim? && Step(env, s, calls[0]).Some? {
        assert s.transfers + ([calls[0].entry] + rest) == s.transfers + [calls[0].entry] + rest;
      }
    }
  }

  lemma {:induction false} ClaimedIsAccepted(env: Env, s: Store, calls: seq<Call>, a: Address)
    ensures a in Run(env, s, calls).claimed
       <==> a in s.claimed || exists p :: p in AcceptedClaims(env, s, calls) && p.claimant == a
    decreases |calls|
  {
    if calls != [] {
      ClaimedIsAccepted(env, After(s, Step(env, s, calls[0])), calls[1..], a);
    }
  }

  // In every reachable state a claim is accepted exactly when the contract is initialised,
  // no claim of the claimant was accepted before, the proof folds to the root of the first
  // initialisation and the token carries out the transfer; and the token has carried out
  // exactly the accepted claims.
  lemma ClaimAcceptedExactly(env: Env, calls: seq<Call>, p: Payment, proof: seq<Digest>, tokenAccepts: bool)
    ensures var s, init := Run(env, Fresh, calls), FirstInitialize(calls);
            && (Step(env, s, Call.Claim(p, proof, tokenAccepts)).Some?
                <==> && init.Some? && tokenAccepts
                     && (forall q :: q in AcceptedClaims(env, Fresh, calls) ==> q.claimant != p.claimant)
                     && Fold(env, env.sha256(LeafPreimage(env, p.claimant, p.amount)), proof) == init.value.root)
            && s.transfers == AcceptedClaims(env, Fresh, calls)
  {
    EntriesStored(env, Fresh, calls);
    PaidIsAccepted(env, Fresh, calls);
    ClaimedIsAccepted(env, Fresh, calls, p.claimant);
  }

  // Only the first initialisation is accepted, and what it stores stays.
  lemma InitializedOnce(env: Env, calls: seq<Call>, admin: Address, root: Digest, token: Address)
    ensures var s, init := Run(env, Fresh, calls), FirstInitialize(calls);
            && (Step(env, s, Call.Initialize(admin, root, token)).Some? <==> init.None?)
            && (init.Some? ==> s.admin == Some(init.value.admin) && s.root == Some(init.value.root)
                               && s.token == Some(init.value.token))
  {
    EntriesStored(env, Fresh, calls);
  }

  // ----- Payouts over whole runs

  function Total(ps: seq<Payment>): int {
    if ps == [] then 0 else ps[0].amount + Total(ps[1..])
  }

  ghost predicate DistinctClaimants(ps: seq<Payment>) {
    forall i, j :: 0 <= i < j < |ps| ==> ps[i].claimant != ps[j].claimant
  }

  ghost function RunPreimages(env: Env, calls: seq<Call>): set<seq<byte>> {
    if calls == [] then {}
    else
      var c := calls[0];
      (if c.Claim? then ProofPreimages(env, c.entry.claimant, c.entry.amount, c.proof) else {})
      + RunPreimages(env, calls[1..])
  }

  // What every call keeps once the root of `t` is installed.
  ghost predicate PaysLeaves(env: Env, t: Tree, s: Store) {
    && s.admin.Some?
    && s.root == Some(Root(env, t))
    && DistinctClaimants(s.transfers)
    && (forall p :: p in s.transfers ==> p in Leaves(t) && p.claimant in s.claimed)
  }

  lemma {:induction false} RunPaysLeaves(env: Env, t: Tree, s: Store, calls: seq<Call>, S: set<seq<byte>>)
    requires Separated(env)
    requires PaysLeaves(env, t, s)
    requires TreePreimages(env, t) <= S && RunPreimages(env, calls) <= S && CollisionFree(env, S)
    ensures PaysLeaves(env, t, Run(env, s, calls))
    ensures s.transfers <= Run(env, s, calls).transfers
    decreases |calls|
  {
    if calls != [] {
      var c := calls[0];
      if c.Claim? && Step(env, s, c).Some? {
        AcceptedIsLeaf(env, t, c.entry, c.proof, S);
      }
      RunPaysLeaves(env, t, After(s, Step(env, s, c)), calls[1..], S);
    }
  }

  lemma {:induction false} TotalSplit(a: seq<Payment>, b: seq<Payment>)
    ensures Total(a + b) == Total(a) + Total(b)
  {
    if a == [] {
      assert a + b == b;
    } else {
      assert (a + b)[1..] == a[1..] + b;
      TotalSplit(a[1..], b);
    }
  }

  lemma {:induction false} TotalNonNegative(ps: seq<Payment>)
    requires forall p :: p in ps ==> 0 <= p.amount
    ensures 0 <= Total(ps)
  {
    if ps != [] {
      TotalNonNegative(ps[1..]);
    }
  }

  // Leaving out one leaf leaves in every payment to another claimant.
  lemma StillIn(leaves: seq<Payment>, i: nat, p: Payment)
    requires i < |leaves| && p in leaves && p.claimant != leaves[i].claimant
    ensures p in leaves[..i] + leaves[i + 1..]
  {
    var rest := leaves[..i] + leaves[i + 1..];
    var j :| 0 <= j < |leaves| && leaves[j] == p;
    assert p == if j < i then rest[j] else rest[j - 1];
  }

  // Payments to distinct claimants, each matching a leaf, cannot exceed the leaves.
  lemma {:induction false} DistinctPaymentsBounded(paid: seq<Payment>, leaves: seq<Payment>)
    requires DistinctClaimants(paid)
    requires forall p :: p in paid ==> p in leaves
    requires forall p :: p in leaves ==> 0 <= p.amount
    ensures Total(paid) <= Total(leaves)
    decreases |paid|
  {
    if paid == [] {
      TotalNonNegative(leaves);
    } else {
      assert paid[0] in leaves;
      var i :| 0 <= i < |leaves| && leaves[i] == paid[0];
      var rest := leaves[..i] + leaves[i + 1..];
      assert leaves == leaves[..i] + ([leaves[i]] + leaves[i + 1..]);
      TotalSplit(leaves[..i], [leaves[i]] + leaves[i + 1..]);
      TotalSplit(leaves[..i], leaves[i + 1..]);
      forall p | p in paid[1..] ensures p in rest {
        var k :| 0 <= k < |paid[1..]| && paid[1..][k] == p;
        assert paid[k + 1].claimant != paid[0].claimant;
        assert p in paid;
        StillIn(leaves, i, p);
      }
      DistinctPaymentsBounded(paid[1..], rest);
    }
  }

  // From deployment: whoever initialises first, with the root of `t`, fixes what can
  // ever be paid. Any later calls, including further initialisations, pay each
  // claimant at most once and never more than the leaves in total.
  lemma PayoutBound(env: Env, t: Tree, admin: Address, token: Address, calls: seq<Call>)
    requires Separated(env)
    requires forall p :: p in Leaves(t) ==> 0 <= p.amount
    requires CollisionFree(env, TreePreimages(env, t) + RunPreimages(env, calls))
    ensures var paid := Run(env, Fresh, [Call.Initialize(admin, Root(env, t), token)] + calls).transfers;
            && DistinctClaimants(paid)
            && (forall p :: p in paid ==> p in Leaves(t))
            && Total(paid) <= Total(Leaves(t))
  {
    var init := Call.Initialize(admin, Root(env, t), token);
    assert ([init] + calls)[1..] == calls;
    var s := Step(env, Fresh, init).value;
    RunPaysLeaves(env, t, s, calls, TreePreimages(env, t) + RunPreimages(env, calls));
    DistinctPaymentsBounded(Run(env, s, calls).transfers, Leaves(t));
  }

  // A claimant with a leaf who was not paid yet can always be paid that leaf.
  lemma UnpaidLeafCanClaim(env: Env, t: Tree, s: Store, p: Payment) returns (proof: seq<Digest>)
    requires s.root == Some(Root(env, t)) && s.token.Some?
    requires p in Leaves(t) && p.claimant !in s.claimed
    ensures Step(env, s, Call.Claim(p, proof, true)).Some?
  {
    var path := EveryLeafHasPath(t, p);
    SiblingPathAccepted(env, t, path);
    proof := Siblings(env, t, path);
  }
}
