/** Validator rotation under a quorum
    (vulnerable/bridge_validator_quorum_missing/src/secure.rs). */
module ValidatorQuorum {
  import opened Host
  import opened Bytes

  // What the signers sign: the new keys one after the other, then the new threshold.
  function Concatenated(keys: seq<Digest>): (b: seq<byte>)
    ensures |b| == 32 * |keys|
  {
    if keys == [] then [] else Concatenated(keys[..|keys| - 1]) + keys[|keys| - 1]
  }

  function UpdatePayload(keys: seq<Digest>, threshold: uint32): seq<byte> {
    Concatenated(keys) + Uint32Bytes(threshold)
  }

  lemma {:induction false} ConcatenatedInjective(a: seq<Digest>, b: seq<Digest>)
    requires Concatenated(a) == Concatenated(b)
    ensures a == b
  {
    if a != [] {
      assert |a| == |b|;
      SplitEqual(Concatenated(a[..|a| - 1]), a[|a| - 1], Concatenated(b[..|b| - 1]), b[|b| - 1]);
      ConcatenatedInjective(a[..|a| - 1], b[..|b| - 1]);
      assert a == a[..|a| - 1] + [a[|a| - 1]] && b == b[..|b| - 1] + [b[|b| - 1]];
    }
  }

  // Two proposed configurations with the same payload are the same configuration.
  lemma UpdatePayloadInjective(a: seq<Digest>, m: uint32, b: seq<Digest>, n: uint32)
    requires UpdatePayload(a, m) == UpdatePayload(b, n)
    ensures a == b && m == n
  {
    SplitEqual(Concatenated(a), Uint32Bytes(m), Concatenated(b), Uint32Bytes(n));
    ConcatenatedInjective(a, b);
    Uint32BytesInjective(m, n);
  }

  lemma {:induction false} ConcatenatedAt(keys: seq<Digest>, i: nat)
    requires i < |keys|
    ensures Concatenated(keys)[32 * i..32 * i + 32] == keys[i]
  {
    if i < |keys| - 1 {
      ConcatenatedAt(keys[..|keys| - 1], i);
    }
  }

  // Where a payload holds each key and the threshold.
  lemma PayloadLayout(keys: seq<Digest>, threshold: uint32)
    ensures var p := UpdatePayload(keys, threshold);
            && |p| == 32 * |keys| + 4
            && (forall i :: 0 <= i < |keys| ==> p[32 * i..32 * i + 32] == keys[i])
            && FromBigEndian(p[32 * |keys|..]) == threshold
  {
    var p := UpdatePayload(keys, threshold);
    forall i | 0 <= i < |keys| ensures p[32 * i..32 * i + 32] == keys[i] {
      ConcatenatedAt(keys, i);
      assert p[32 * i..32 * i + 32] == Concatenated(keys)[32 * i..32 * i + 32];
    }
    assert p[32 * |keys|..] == Uint32Bytes(threshold);
    FieldWidths();
    BigEndianRoundTrip(threshold, 4);
  }

  // ----- Who approved

  predicate SignedBy(v: Digest, expected: Digest, signers: seq<Digest>, sigs: seq<Digest>)
    requires |signers| == |sigs|
  {
    exists i :: 0 <= i < |signers| && signers[i] == v && sigs[i] == expected
  }

  // The distinct current validators with at least one valid signature.
  function Approvers(validators: seq<Digest>, expected: Digest, signers: seq<Digest>, sigs: seq<Digest>): set<Digest>
    requires |signers| == |sigs|
  {
    set v | v in validators && SignedBy(v, expected, signers, sigs)
  }

  ghost function Elements(s: seq<Digest>): set<Digest> {
    set v | v in s
  }

  lemma ElementsAppend(s: seq<Digest>, v: Digest)
    requires v !in s
    ensures Elements(s + [v]) == Elements(s) + {v}
    ensures |Elements(s + [v])| == |Elements(s)| + 1
  {
  }

  // One more signature adds its signer when it is a validator, the signature is valid
  // and the signer was not counted before.
  lemma ApproversStep(validators: seq<Digest>, expected: Digest, signers: seq<Digest>, sigs: seq<Digest>, i: nat)
    requires |signers| == |sigs| && i < |signers|
    ensures Approvers(validators, expected, signers[..i + 1], sigs[..i + 1])
         == Approvers(validators, expected, signers[..i], sigs[..i])
          + if signers[i] in validators && sigs[i] == expected then {signers[i]} else {}
  {
  }

  // ----- The contract

  datatype Config = Config(validators: Vec<Digest>, threshold: uint32)

  datatype Call =
    | Initialize(validators: Vec<Digest>, threshold: uint32)
    | Update(newValidators: Vec<Digest>, newThreshold: uint32, signers: Vec<Digest>, sigs: Vec<Digest>)

  predicate Legal(c: Config) {
    1 <= c.threshold <= |c.validators|
  }

  // The approvals a rotation call carries, counted against the configuration in force.
  function Approving(env: Env, c: Config, call: Call): set<Digest>
    requires call.Update? && |call.signers| == |call.sigs|
  {
    Approvers(c.validators, env.sha256(UpdatePayload(call.newValidators, call.newThreshold)), call.signers, call.sigs)
  }

  function Step(env: Env, s: Option<Config>, call: Call): Option<Option<Config>> {
    match call
    case Initialize(vs, t) =>
      if s.None? && Legal(Config(vs, t)) then Some(Some(Config(vs, t))) else None
    case Update(vs, t, signers, sigs) =>
      if && s.Some? && Legal(Config(vs, t)) && |signers| == |sigs|
         && |Approving(env, s.value, call)| >= s.value.threshold
      then Some(Some(Config(vs, t))) else None
  }

  method BuildUpdatePayload(keys: seq<Digest>, threshold: uint32) returns (payload: seq<byte>)
    ensures payload == UpdatePayload(keys, threshold)
  {
    payload := [];
    for i := 0 to |keys|
      invariant payload == Concatenated(keys[..i])
    {
      assert keys[..i + 1][..i] == keys[..i];
      payload := payload + keys[i];
    }
    assert keys[..|keys|] == keys;
    payload := payload + Uint32Bytes(threshold);
  }

  // The membership scans of the two inner loops.
  method Contains(s: seq<Digest>, v: Digest) returns (found: bool)
    ensures found == (v in s)
  {
    found := false;
    for i := 0 to |s|
      invariant !found && v !in s[..i]
    {
      if s[i] == v {
        found := true;
        break;
      }
    }
  }

  // Counts the distinct validators among the signers whose signature is the expected one.
  method CountApprovals(validators: seq<Digest>, expected: Digest, signers: seq<Digest>, sigs: seq<Digest>)
    returns (validCount: nat)
    requires |signers| == |sigs|
    ensures validCount == |Approvers(validators, expected, signers, sigs)| <= |signers|
  {
    validCount := 0;
    var seen: seq<Digest> := [];
    for i := 0 to |signers|
      invariant validCount == |Elements(seen)| <= i
      invariant Elements(seen) == Approvers(validators, expected, signers[..i], sigs[..i])
    {
      var signer, sig := signers[i], sigs[i];
      ApproversStep(validators, expected, signers, sigs, i);
      var isValidator := Contains(validators, signer);
      if !isValidator {
        continue;
      }
      var alreadySeen := Contains(seen, signer);
      if alreadySeen {
        assert signer in Elements(seen);
        continue;
      }
      if expected == sig {
        ElementsAppend(seen, signer);
        seen := seen + [signer];
        validCount := validCount + 1;
      }
    }
    assert signers[..|signers|] == signers && sigs[..|sigs|] == sigs;
  }

  class SecureBridge {
    const env: Env
    var config: Option<Config>

    constructor (env: Env)
      ensures this.env == env && config == None
    {
      this.env := env;
      config := None;
    }

    method Initialize(validators: Vec<Digest>, threshold: uint32) returns (ok: bool)
      modifies this
      ensures Settles(old(config), Step(env, old(config), Call.Initialize(validators, threshold)), ok, config)
    {
      if config.Some? || threshold == 0 || threshold > |validators| {
        return false;
      }
      config := Some(Config(validators, threshold));
      return true;
    }

    method UpdateValidators(newValidators: Vec<Digest>, newThreshold: uint32, signers: Vec<Digest>, sigs: Vec<Digest>)
      returns (ok: bool)
      modifies this
      ensures Settles(old(config),
                      Step(env, old(config), Update(newValidators, newThreshold, signers, sigs)), ok, config)
    {
      if config.None? || |signers| != |sigs| {
        return false;
      }
      var validators, threshold := config.value.validators, config.value.threshold;
      var payload := BuildUpdatePayload(newValidators, newThreshold);
      var validCount := CountApprovals(validators, env.sha256(payload), signers, sigs);
      if validCount < threshold {
        return false;
      }
      if newThreshold == 0 || newThreshold > |newValidators| {
        return false;
      }
      config := Some(Config(newValidators, newThreshold));
      return true;
    }
  }

  // ----- Whole runs

  // The configurations a run puts in force, oldest first.
  function Installed(env: Env, s: Option<Config>, calls: seq<Call>): seq<Config>
    decreases |calls|
  {
    if calls == [] then if s.Some? then [s.value] else []
    else
      var next := Step(env, s, calls[0]);
      (if next.Some? && s.Some? then [s.value] else []) + Installed(env, After(s, next), calls[1..])
  }

  // S are as many distinct members of `a` as its threshold asks for, each with a valid
  // signature of the payload that proposes `b`.
  ghost predicate Quorum(env: Env, a: Config, b: Config, signers: seq<Digest>, sigs: seq<Digest>, S: set<Digest>)
    requires |signers| == |sigs|
  {
    && |S| == a.threshold
    && forall v :: v in S ==>
         && v in a.validators
         && exists i :: 0 <= i < |signers| && signers[i] == v
                        && sigs[i] == env.sha256(UpdatePayload(b.validators, b.threshold))
  }

  // `call` asks for `b` and carries the signatures of a quorum of `a`.
  ghost predicate Approves(env: Env, a: Config, b: Config, call: Call) {
    && call.Update? && call.newValidators == b.validators && call.newThreshold == b.threshold
    && |call.signers| == |call.sigs|
    && exists S :: Quorum(env, a, b, call.signers, call.sigs, S)
  }

  lemma {:induction false} SubsetOfSize(a: set<Digest>, n: nat) returns (S: set<Digest>)
    requires n <= |a|
    ensures S <= a && |S| == n
    decreases |a|
  {
    if n == |a| {
      S := a;
    } else {
      var v :| v in a;
      S := SubsetOfSize(a - {v}, n);
    }
  }

  lemma SubsetSize(a: set<Digest>, b: set<Digest>)
    requires a <= b
    ensures |a| <= |b|
  {
    assert b == a + (b - a);
  }

  lemma QuorumExactly(env: Env, a: Config, b: Config, call: Call)
    requires call.Update? && call.newValidators == b.validators && call.newThreshold == b.threshold
    requires |call.signers| == |call.sigs|
    ensures |Approving(env, a, call)| >= a.threshold <==> Approves(env, a, b, call)
  {
    var digest := env.sha256(UpdatePayload(b.validators, b.threshold));
    if |Approving(env, a, call)| >= a.threshold {
      var S := SubsetOfSize(Approving(env, a, call), a.threshold);
      forall v | v in S ensures exists i :: 0 <= i < |call.signers| && call.signers[i] == v && call.sigs[i] == digest {
        assert SignedBy(v, digest, call.signers, call.sigs);
      }
      assert Quorum(env, a, b, call.signers, call.sigs, S);
    }
    if Approves(env, a, b, call) {
      var S :| Quorum(env, a, b, call.signers, call.sigs, S);
      forall v | v in S ensures v in Approving(env, a, call) {
        assert SignedBy(v, digest, call.signers, call.sigs);
      }
      SubsetSize(S, Approving(env, a, call));
    }
  }

  // A rotation is accepted exactly when the proposed configuration is legal, the lists
  // match in length, and a quorum of the configuration in force signed the proposal; it
  // puts exactly the proposal in force. An initialisation is accepted exactly when it is
  // legal and the first.
  lemma AcceptedExactly(env: Env, s: Option<Config>, vs: Vec<Digest>, t: uint32,
                        signers: Vec<Digest>, sigs: Vec<Digest>)
    ensures Step(env, s, Update(vs, t, signers, sigs)).Some?
       <==> && 1 <= t <= |vs| && |signers| == |sigs| && s.Some?
            && exists S :: Quorum(env, s.value, Config(vs, t), signers, sigs, S)
    ensures Step(env, s, Call.Initialize(vs, t)).Some? <==> 1 <= t <= |vs| && s.None?
    ensures Step(env, s, Update(vs, t, signers, sigs)).Some? ==>
              Step(env, s, Update(vs, t, signers, sigs)).value == Some(Config(vs, t))
    ensures Step(env, s, Call.Initialize(vs, t)).Some? ==>
              Step(env, s, Call.Initialize(vs, t)).value == Some(Config(vs, t))
  {
    if s.Some? && |signers| == |sigs| {
      QuorumExactly(env, s.value, Config(vs, t), Update(vs, t, signers, sigs));
    }
  }

  // The rotations a run accepts, in order.
  function Rotations(env: Env, s: Option<Config>, calls: seq<Call>): seq<Call>
    decreases |calls|
  {
    if calls == [] then []
    else
      var next := Step(env, s, calls[0]);
      (if next.Some? && calls[0].Update? then [calls[0]] else []) + Rotations(env, After(s, next), calls[1..])
  }

  // Each configuration is legal, and the i-th one after the first was asked for and
  // approved by the i-th of the rotations.
  ghost predicate Succession(env: Env, h: seq<Config>, rotations: seq<Call>) {
    && (if h == [] then rotations == [] else |h| == |rotations| + 1)
    && (forall i :: 0 <= i < |h| ==> 1 <= h[i].threshold <= |h[i].validators|)
    && (forall i :: 0 < i < |h| ==> Approves(env, h[i - 1], h[i], rotations[i - 1]))
  }

  lemma SuccessionExtended(env: Env, a: Config, h: seq<Config>, call: Call, rotations: seq<Call>)
    requires Succession(env, h, rotations) && h != []
    requires Legal(a) && Approves(env, a, h[0], call)
    ensures Succession(env, [a] + h, [call] + rotations)
  {
    var g, r := [a] + h, [call] + rotations;
    forall i | 0 < i < |g| ensures Approves(env, g[i - 1], g[i], r[i - 1]) {
      if i > 1 {
        assert Approves(env, h[i - 2], h[i - 1], rotations[i - 2]);
      }
    }
  }

  // In every run each configuration is legal, and each one after the first was installed
  // by the corresponding accepted call of the run, which carried valid signatures of at
  // least the threshold of distinct members of the set it replaced.
  lemma {:induction false} RunRotatesByQuorum(env: Env, s: Option<Config>, calls: seq<Call>)
    requires s.Some? ==> Legal(s.value)
    ensures Succession(env, Installed(env, s, calls), Rotations(env, s, calls))
    ensures s.Some? ==> Installed(env, s, calls) != [] && Installed(env, s, calls)[0] == s.value
    decreases |calls|
  {
    if calls != [] {
      var next := Step(env, s, calls[0]);
      RunRotatesByQuorum(env, After(s, next), calls[1..]);
      var rest := Installed(env, After(s, next), calls[1..]);
      var later := Rotations(env, After(s, next), calls[1..]);
      if next.Some? && s.Some? {
        QuorumExactly(env, s.value, rest[0], calls[0]);
        SuccessionExtended(env, s.value, rest, calls[0], later);
        assert Installed(env, s, calls) == [s.value] + rest;
        assert Rotations(env, s, calls) == [calls[0]] + later;
      } else {
        assert Installed(env, s, calls) == rest;
        assert Rotations(env, s, calls) == later;
      }
    }
  }

  lemma {:induction false} RotationsAreCalls(env: Env, s: Option<Config>, calls: seq<Call>)
    ensures forall c :: c in Rotations(env, s, calls) ==> c in calls
    decreases |calls|
  {
    if calls != [] {
      RotationsAreCalls(env, After(s, Step(env, s, calls[0])), calls[1..]);
    }
  }

  // Legality counts repeated keys, approval does not: some signatures can rotate a
  // configuration if and only if its threshold is within the number of distinct keys.
  lemma RotationPossible(env: Env, c: Config, next: Config)
    requires Legal(c) && Legal(next)
    ensures (exists signers: Vec<Digest>, sigs: Vec<Digest> ::
               Step(env, Some(c), Update(next.validators, next.threshold, signers, sigs)).Some?)
       <==> c.threshold <= |Elements(c.validators)|
  {
    var expected := env.sha256(UpdatePayload(next.validators, next.threshold));
    var sigs: Vec<Digest> := seq(|c.validators|, _ => expected);
    var call := Update(next.validators, next.threshold, c.validators, sigs);
    forall v | v in c.validators ensures SignedBy(v, expected, c.validators, sigs) {
      var i :| 0 <= i < |c.validators| && c.validators[i] == v;
      assert sigs[i] == expected;
    }
    assert Approving(env, c, call) == Elements(c.validators);
    if c.threshold <= |Elements(c.validators)| {
      assert Step(env, Some(c), call).Some?;
    }
    forall signers: Vec<Digest>, ss: Vec<Digest>
      | Step(env, Some(c), Update(next.validators, next.threshold, signers, ss)).Some?
      ensures c.threshold <= |Elements(c.validators)|
    {
      SubsetSize(Approving(env, c, Update(next.validators, next.threshold, signers, ss)), Elements(c.validators));
    }
  }

  // The guard of `initialize` lets a configuration in that no signatures can ever rotate:
  // one key listed twice with threshold two.
  lemma RepeatedKeyLocksOut(env: Env, v: Digest, next: Config)
    requires Legal(next)
    ensures Step(env, None, Call.Initialize([v, v], 2)) == Some(Some(Config([v, v], 2)))
    ensures forall signers: Vec<Digest>, sigs: Vec<Digest> ::
              Step(env, Some(Config([v, v], 2)), Update(next.validators, next.threshold, signers, sigs)).None?
  {
    var c := Config([v, v], 2);
    assert Elements(c.validators) == {v};
    RotationPossible(env, c, next);
  }
}
