/** Bridge mint messages bound to one deployment
    (vulnerable/bridge_chainid_missing/src/secure.rs). */
module BridgeMessage {
  import opened Host
  import opened Bytes
  import opened Rounding

  datatype Message = Message(
    srcChain: uint32, dstChain: uint32, bridgeId: Address, nonce: uint64,
    token: Digest, amount: int128, recipient: Digest)

  // The layout of a payload: a fixed head, the encoded bridge address, a fixed tail.
  function Payload(env: Env, m: Message): seq<byte> {
    (Uint32Bytes(m.srcChain) + Uint32Bytes(m.dstChain))
    + (env.toXdr(m.bridgeId)
       + (Uint64Bytes(m.nonce) + (m.token + (Int128Bytes(m.amount) + m.recipient))))
  }

  method BuildPayload(env: Env, m: Message) returns (payload: seq<byte>)
    ensures payload == Payload(env, m)
  {
    payload := [];
    payload := payload + Uint32Bytes(m.srcChain);
    payload := payload + Uint32Bytes(m.dstChain);
    payload := payload + env.toXdr(m.bridgeId);
    payload := payload + Uint64Bytes(m.nonce);
    payload := payload + m.token;
    payload := payload + Int128Bytes(m.amount);
    payload := payload + m.recipient;
    assert payload == Payload(env, m);
  }

  // The stand-in for a validator's signature: the hash of the payload.
  function SignSecure(env: Env, m: Message): Digest {
    env.sha256(Payload(env, m))
  }

  lemma TailInjective(m: Message, n: Message)
    requires Uint64Bytes(m.nonce) + (m.token + (Int128Bytes(m.amount) + m.recipient))
          == Uint64Bytes(n.nonce) + (n.token + (Int128Bytes(n.amount) + n.recipient))
    ensures m.nonce == n.nonce && m.token == n.token && m.amount == n.amount && m.recipient == n.recipient
  {
    SplitEqual(Uint64Bytes(m.nonce), m.token + (Int128Bytes(m.amount) + m.recipient),
               Uint64Bytes(n.nonce), n.token + (Int128Bytes(n.amount) + n.recipient));
    SplitEqual(m.token, Int128Bytes(m.amount) + m.recipient, n.token, Int128Bytes(n.amount) + n.recipient);
    SplitEqual(Int128Bytes(m.amount), m.recipient, Int128Bytes(n.amount), n.recipient);
    Uint64BytesInjective(m.nonce, n.nonce);
    Int128BytesInjective(m.amount, n.amount);
  }

  // The tail has a fixed width, so the address in the middle can be read off from both ends.
  lemma PayloadInjective(env: Env, m: Message, n: Message)
    requires InjectiveXdr(env)
    requires Payload(env, m) == Payload(env, n)
    ensures m == n
  {
    var mTail := Uint64Bytes(m.nonce) + (m.token + (Int128Bytes(m.amount) + m.recipient));
    var nTail := Uint64Bytes(n.nonce) + (n.token + (Int128Bytes(n.amount) + n.recipient));
    SplitEqual(Uint32Bytes(m.srcChain) + Uint32Bytes(m.dstChain), env.toXdr(m.bridgeId) + mTail,
               Uint32Bytes(n.srcChain) + Uint32Bytes(n.dstChain), env.toXdr(n.bridgeId) + nTail);
    SplitEqual(Uint32Bytes(m.srcChain), Uint32Bytes(m.dstChain), Uint32Bytes(n.srcChain), Uint32Bytes(n.dstChain));
    SplitEqual(env.toXdr(m.bridgeId), mTail, env.toXdr(n.bridgeId), nTail);
    TailInjective(m, n);
    Uint32BytesInjective(m.srcChain, n.srcChain);
    Uint32BytesInjective(m.dstChain, n.dstChain);
  }

  lemma PayloadFields(head: seq<byte>, x: seq<byte>, nonce: seq<byte>, token: seq<byte>, amount: seq<byte>,
                      recipient: seq<byte>)
    requires |head| == 8 && |nonce| == 8 && |token| == 32 && |amount| == 16
    ensures var p, n := head + (x + (nonce + (token + (amount + recipient)))), 8 + |x|;
            && p[..8] == head && p[8..n] == x && p[n..n + 8] == nonce && p[n + 8..n + 40] == token
            && p[n + 40..n + 56] == amount && p[n + 56..] == recipient
  {
  }

  // Where a payload holds each field of its message: integers big-endian, the amount in
  // two's complement, the address in the middle.
  lemma PayloadLayout(env: Env, m: Message)
    ensures var p, n := Payload(env, m), 8 + |env.toXdr(m.bridgeId)|;
            && |p| == n + 88
            && FromBigEndian(p[..4]) == m.srcChain && FromBigEndian(p[4..8]) == m.dstChain
            && p[8..n] == env.toXdr(m.bridgeId)
            && FromBigEndian(p[n..n + 8]) == m.nonce
            && p[n + 8..n + 40] == m.token
            && FromBigEndian(p[n + 40..n + 56]) == (if m.amount < 0 then m.amount + Pow(256, 16) else m.amount)
            && p[n + 56..] == m.recipient
  {
    var p := Payload(env, m);
    var head := Uint32Bytes(m.srcChain) + Uint32Bytes(m.dstChain);
    PayloadFields(head, env.toXdr(m.bridgeId), Uint64Bytes(m.nonce), m.token, Int128Bytes(m.amount), m.recipient);
    assert p[..4] == head[..4] == Uint32Bytes(m.srcChain);
    assert p[4..8] == head[4..] == Uint32Bytes(m.dstChain);
    FieldWidths();
    BigEndianRoundTrip(m.srcChain, 4);
    BigEndianRoundTrip(m.dstChain, 4);
    BigEndianRoundTrip(m.nonce, 8);
    BigEndianRoundTrip(if m.amount < 0 then m.amount + 2 * (I128_MAX + 1) else m.amount, 16);
  }

  // ----- The contract

  datatype Store = Store(nonceUsed: set<uint64>, balances: map<Digest, int128>)

  const Fresh := Store({}, map[])

  // A call of `mint`: the message the caller claims was signed, less the bridge id, which
  // the contract fills in with its own address.
  datatype MintCall = MintCall(
    srcChain: uint32, dstChain: uint32, nonce: uint64,
    token: Digest, amount: int128, recipient: Digest, sig: Digest)

  // Where a bridge is deployed: the chain it runs on and its address there.
  datatype Deployment = Deployment(chain: uint32, address: Address)

  function Claimed(self: Deployment, c: MintCall): Message {
    Message(c.srcChain, c.dstChain, self.address, c.nonce, c.token, c.amount, c.recipient)
  }

  // What the contract checks of a signature at the deployment `self`.
  predicate Verifies(env: Env, self: Deployment, c: MintCall) {
    env.sha256(Payload(env, Claimed(self, c))) == c.sig
  }

  function Step(env: Env, self: Deployment, s: Store, c: MintCall): Option<Store> {
    if c.nonce in s.nonceUsed || !Verifies(env, self, c)
       || !FitsInt128(Read(s.balances, c.recipient) + c.amount)
    then None
    else Some(Store(s.nonceUsed + {c.nonce}, s.balances[c.recipient := Read(s.balances, c.recipient) + c.amount]))
  }

  class SecureBridge {
    const env: Env
    const self: Deployment
    var nonceUsed: set<uint64>
    var balances: map<Digest, int128>

    ghost function Stored(): Store
      reads this
    {
      Store(nonceUsed, balances)
    }

    constructor (env: Env, self: Deployment)
      ensures this.env == env && this.self == self && Stored() == Fresh
    {
      this.env, this.self := env, self;
      nonceUsed, balances := {}, map[];
    }

    method Mint(c: MintCall) returns (ok: bool)
      modifies this
      ensures Settles(old(Stored()), Step(env, self, old(Stored()), c), ok, Stored())
    {
      if c.nonce in nonceUsed {
        return false;
      }
      var payload := BuildPayload(env, Claimed(self, c));
      if env.sha256(payload) != c.sig {
        return false;
      }
      var before := nonceUsed;
      nonceUsed := nonceUsed + {c.nonce};
      var bal := Read(balances, c.recipient);
      if !FitsInt128(bal + c.amount) {
        nonceUsed := before;
        return false;
      }
      balances := balances[c.recipient := bal + c.amount];
      return true;
    }
  }

  // ----- Signatures and deployments

  // A signature made for one message is accepted exactly for that message at exactly the
  // deployment it names; any other acceptance is a collision between two payloads at hand.
  lemma SignatureBindsMessage(env: Env, m: Message, self: Deployment, c: MintCall)
    requires InjectiveXdr(env)
    requires c.sig == SignSecure(env, m)
    requires CollisionFree(env, {Payload(env, m), Payload(env, Claimed(self, c))})
    ensures Verifies(env, self, c) <==> Claimed(self, c) == m
  {
    if Verifies(env, self, c) {
      PayloadInjective(env, m, Claimed(self, c));
    }
  }

  // Two different accepted calls, at the same or at different deployments, cannot share
  // a signature unless two payloads with the same hash are exhibited.
  lemma SharedSignatureIsCollision(env: Env, self: Deployment, c: MintCall, other: Deployment, d: MintCall)
    requires InjectiveXdr(env)
    requires Verifies(env, self, c) && Verifies(env, other, d)
    requires c.sig == d.sig && (self.address != other.address || c != d)
    ensures var x, y := Payload(env, Claimed(self, c)), Payload(env, Claimed(other, d));
            x != y && env.sha256(x) == env.sha256(y)
  {
    if Payload(env, Claimed(self, c)) == Payload(env, Claimed(other, d)) {
      PayloadInjective(env, Claimed(self, c), Claimed(other, d));
    }
  }

  // The contract never compares the destination chain with the chain it runs on. A call
  // whose signature one deployment accepts is accepted by another exactly when the two
  // have the same address, whatever chains they run on and whatever destination it names.
  lemma DestinationChainUnchecked(env: Env, self: Deployment, other: Deployment, c: MintCall)
    requires InjectiveXdr(env)
    requires Verifies(env, self, c)
    requires CollisionFree(env, {Payload(env, Claimed(self, c)), Payload(env, Claimed(other, c))})
    ensures Verifies(env, other, c) <==> other.address == self.address
  {
    if Verifies(env, other, c) {
      PayloadInjective(env, Claimed(self, c), Claimed(other, c));
    }
  }

  // So one signed message mints on two chains: a deployment under the same address on a
  // chain the message does not name mints it as well as the one on its destination.
  lemma TwinDeploymentsBothMint(env: Env, self: Deployment, other: Deployment, c: MintCall)
    requires self.address == other.address && self.chain == c.dstChain != other.chain
    requires Verifies(env, self, c)
    ensures Step(env, self, Fresh, c).Some? && Step(env, other, Fresh, c) == Step(env, self, Fresh, c)
  {
  }

  // ----- Whole runs

  function Run(env: Env, self: Deployment, s: Store, calls: seq<MintCall>): Store
    decreases |calls|
  {
    if calls == [] then s else Run(env, self, After(s, Step(env, self, s, calls[0])), calls[1..])
  }

  // The calls of a run that were accepted, in order.
  function Accepted(env: Env, self: Deployment, s: Store, calls: seq<MintCall>): seq<MintCall>
    decreases |calls|
  {
    if calls == [] then []
    else
      (if Step(env, self, s, calls[0]).Some? then [calls[0]] else [])
      + Accepted(env, self, After(s, Step(env, self, s, calls[0])), calls[1..])
  }

  function MintedTo(recipient: Digest, calls: seq<MintCall>): int {
    if calls == [] then 0
    else (if calls[0].recipient == recipient then calls[0].amount else 0) + MintedTo(recipient, calls[1..])
  }

  // Over any run no nonce is accepted twice, and every accepted call carries the hash of
  // a payload that names this bridge.
  lemma {:induction false} RunMintsOncePerNonce(env: Env, self: Deployment, s: Store, calls: seq<MintCall>)
    ensures var a := Accepted(env, self, s, calls);
            && (forall i, j :: 0 <= i < j < |a| ==> a[i].nonce != a[j].nonce)
            && (forall c :: c in a ==> c.nonce !in s.nonceUsed && Verifies(env, self, c))
    decreases |calls|
  {
    if calls != [] {
      var next := Step(env, self, s, calls[0]);
      RunMintsOncePerNonce(env, self, After(s, next), calls[1..]);
      if next.Some? {
        var rest := Accepted(env, self, next.value, calls[1..]);
        assert Accepted(env, self, s, calls) == [calls[0]] + rest;
        assert forall k :: 0 <= k < |rest| ==> rest[k] in rest;
      } else {
        assert Accepted(env, self, s, calls) == Accepted(env, self, s, calls[1..]);
      }
    }
  }

  // Over any run each balance grows by exactly what was minted to it.
  lemma {:induction false} RunCreditsWhatWasMinted(env: Env, self: Deployment, s: Store, calls: seq<MintCall>,
                                                   r: Digest)
    ensures Read(Run(env, self, s, calls).balances, r)
         == Read(s.balances, r) + MintedTo(r, Accepted(env, self, s, calls))
    decreases |calls|
  {
    if calls != [] {
      var next := Step(env, self, s, calls[0]);
      RunCreditsWhatWasMinted(env, self, After(s, next), calls[1..], r);
      var rest := Accepted(env, self, After(s, next), calls[1..]);
      if next.Some? {
        assert Accepted(env, self, s, calls) == [calls[0]] + rest;
        assert ([calls[0]] + rest)[1..] == rest;
      } else {
        assert Accepted(env, self, s, calls) == rest;
      }
    }
  }

  lemma {:induction false} RunNonces(env: Env, self: Deployment, s: Store, calls: seq<MintCall>, n: uint64)
    ensures n in Run(env, self, s, calls).nonceUsed
       <==> n in s.nonceUsed || exists d :: d in Accepted(env, self, s, calls) && d.nonce == n
    decreases |calls|
  {
    if calls != [] {
      RunNonces(env, self, After(s, Step(env, self, s, calls[0])), calls[1..], n);
    }
  }

  // In every state reachable from deployment a mint is accepted exactly when no accepted
  // call had its nonce, it carries the hash of its message under this bridge's address,
  // and what was minted to its recipient, with it, fits.
  lemma MintAcceptedExactly(env: Env, self: Deployment, calls: seq<MintCall>, c: MintCall)
    ensures var a := Accepted(env, self, Fresh, calls);
            (Step(env, self, Run(env, self, Fresh, calls), c).Some?
             <==> && (forall d :: d in a ==> d.nonce != c.nonce)
                  && c.sig == env.sha256(Payload(env, Message(c.srcChain, c.dstChain, self.address, c.nonce,
                                                              c.token, c.amount, c.recipient)))
                  && I128_MIN <= MintedTo(c.recipient, a) + c.amount <= I128_MAX)
  {
    RunNonces(env, self, Fresh, calls, c.nonce);
    RunCreditsWhatWasMinted(env, self, Fresh, calls, c.recipient);
  }

  // The payloads that a deployment hashes for some calls.
  ghost function Hashed(env: Env, self: Deployment, calls: seq<MintCall>): set<seq<byte>> {
    set c | c in calls :: Payload(env, Claimed(self, c))
  }

  lemma SignaturesDiffer(env: Env, self: Deployment, c: MintCall, other: Deployment, d: MintCall, S: set<seq<byte>>)
    requires InjectiveXdr(env) && self.address != other.address
    requires Verifies(env, self, c) && Verifies(env, other, d)
    requires Payload(env, Claimed(self, c)) in S && Payload(env, Claimed(other, d)) in S && CollisionFree(env, S)
    ensures c.sig != d.sig
  {
    if c.sig == d.sig {
      SharedSignatureIsCollision(env, self, c, other, d);
    }
  }

  // Two deployments under different addresses never mint on the same signature.
  lemma DeploymentsShareNoSignature(env: Env, self: Deployment, s: Store, calls: seq<MintCall>,
                                    other: Deployment, t: Store, others: seq<MintCall>)
    requires InjectiveXdr(env) && self.address != other.address
    requires CollisionFree(env, Hashed(env, self, Accepted(env, self, s, calls))
                              + Hashed(env, other, Accepted(env, other, t, others)))
    ensures forall c, d :: c in Accepted(env, self, s, calls) && d in Accepted(env, other, t, others) ==> c.sig != d.sig
  {
    var a, b := Accepted(env, self, s, calls), Accepted(env, other, t, others);
    RunMintsOncePerNonce(env, self, s, calls);
    RunMintsOncePerNonce(env, other, t, others);
    forall c, d | c in a && d in b ensures c.sig != d.sig {
      assert Payload(env, Claimed(self, c)) in Hashed(env, self, a);
      assert Payload(env, Claimed(other, d)) in Hashed(env, other, b);
      SignaturesDiffer(env, self, c, other, d, Hashed(env, self, a) + Hashed(env, other, b));
    }
  }
}
