/** From the circuit to whole runs: what enrolled leaves and proof targets bind, and which account a nullifier stands for. */
module Credentials {
  import opened Bytes
  import opened FieldHash
  import opened Recovery
  import opened RecoveryRuns
  import opened NullifierLife
  import opened Histories

  /** Soundness of the proof system: behind every verifying call of the run stands a witness. */
  ghost predicate Witnessed(crypto: Crypto, env: Env, run: seq<Timed>, ws: seq<Witness>) {
    |ws| == |run| && forall i :: 0 <= i < |run| ==> Shows(crypto, env, run[i].call, ws[i])
  }

  ghost predicate Shows(crypto: Crypto, env: Env, c: Call, w: Witness) {
    Proven(env, c) ==> Satisfies(crypto, w, c.nullifier, AuthHash(crypto, Target(env, c)))
  }

  /** Both calls verify and one of the three pairs of their vectors is a Poseidon2 collision. */
  ghost predicate CallsCollide(crypto: Crypto, env: Env, c: Call, w: Witness, d: Call, v: Witness) {
    Proven(env, c) && Proven(env, d) && Collides(crypto, w, Target(env, c), v, Target(env, d))
  }

  /** Equal nullifiers name equal accounts, or there is a collision. */
  lemma CallsShareAccount(crypto: Crypto, env: Env, c: Call, w: Witness, d: Call, v: Witness)
    requires Shows(crypto, env, c, w) && Shows(crypto, env, d, v)
    ensures SameAccount(env, c, d) || CallsCollide(crypto, env, c, w, d, v)
  {
    hide Satisfies, Collides, AuthHash;
    if Proven(env, c) && Proven(env, d) && c.nullifier == d.nullifier {
      SharedNullifierNamesOneAccount(
        crypto, c.nullifier, w, Target(env, c), d.nullifier, v, Target(env, d));
    }
  }

  /** The premise of the lifecycle theorems holds of every witnessed run that exhibits no collision. */
  lemma BindsOrCollides(crypto: Crypto, env: Env, run: seq<Timed>, ws: seq<Witness>)
    requires Witnessed(crypto, env, run, ws)
    ensures || Binds(env, run)
            || exists i, j :: 0 <= i < |run| && 0 <= j < |run|
                 && CallsCollide(crypto, env, run[i].call, ws[i], run[j].call, ws[j])
  {
    hide SameAccount, CallsCollide;
    if !Binds(env, run) {
      var i, j :| 0 <= i < |run| && 0 <= j < |run| && !SameAccount(env, run[i].call, run[j].call);
      assert Shows(crypto, env, run[i].call, ws[i]) && Shows(crypto, env, run[j].call, ws[j]);
      CallsShareAccount(crypto, env, run[i].call, ws[i], run[j].call, ws[j]);
    }
  }

  // ---- the entries of one credential ----

  /** Call `j` is an accepted initiation or burn that entered `n`. */
  ghost predicate Enters(env: Env, run: seq<Timed>, j: nat, n: Bytes32) {
    j < |run| && (run[j].call.Initiate? || run[j].call.Burn?) && run[j].call.nullifier == n && Accepted(env, run, j)
  }

  lemma EntriesStep(env: Env, s: Ledger, now: U64, c: Call, n: Bytes32)
    requires Consistent(s) && n in Step(env, s, now, c).nullifiers && n !in s.nullifiers
    ensures Apply(env, s, now, c).Ok? && (c.Initiate? || c.Burn?) && c.nullifier == n
  {
    hide Apply;
    assert Recorded(s, c.account);
    ApplyEffect(env, s, now, c);
  }

  /** Every entry of the nullifier table was entered by an accepted initiation or burn. */
  lemma {:induction false} EntryHasOrigin(env: Env, run: seq<Timed>, i: nat, n: Bytes32) returns (j: nat)
    requires i <= |run| && n in At(env, run, i).nullifiers
    ensures j < i && Enters(env, run, j, n)
  {
    hide Step, Consistent;
    if n in At(env, run, i - 1).nullifiers {
      j := EntryHasOrigin(env, run, i - 1, n);
    } else {
      ReachableConsistent(env, run, i - 1);
      EntriesStep(env, At(env, run, i - 1), run[i - 1].now, run[i - 1].call, n);
      j := i - 1;
    }
  }

  /** An entry is its credential's own nullifier exactly when it is canonical. */
  lemma EntryIsOwnIffCanonical(crypto: Crypto, env: Env, run: seq<Timed>, ws: seq<Witness>, i: nat, n: Bytes32)
    returns (j: nat)
    requires Witnessed(crypto, env, run, ws) && i <= |run| && n in At(env, run, i).nullifiers
    ensures j < i && Enters(env, run, j, n)
    ensures n == NullifierOf(crypto, ws[j]) <==> Canonical(n)
  {
    hide Satisfies, Apply, Step, AuthHash;
    j := EntryHasOrigin(env, run, i, n);
    ApplyEffect(env, At(env, run, j), run[j].now, run[j].call);
    assert Shows(crypto, env, run[j].call, ws[j]);
    OwnNullifierIffCanonical(crypto, ws[j], n, AuthHash(crypto, Target(env, run[j].call)));
  }

  /**
   Two accepted calls of one credential enter one nullifier exactly when both strings wrap around the
   field equally often; for canonical ones that is always so.
   */
  lemma OneEntryIff(crypto: Crypto, env: Env, run: seq<Timed>, ws: seq<Witness>, j: nat, m: Bytes32, k: nat, n: Bytes32)
    requires Witnessed(crypto, env, run, ws) && Enters(env, run, j, m) && Enters(env, run, k, n)
    requires WitnessNullifier(ws[j]) == WitnessNullifier(ws[k])
    ensures m == n <==> BeValue(m) / R == BeValue(n) / R
    ensures Canonical(m) && Canonical(n) ==> m == n
  {
    hide Apply, Step, AuthHash, BeValue;
    ApplyEffect(env, At(env, run, j), run[j].now, run[j].call);
    ApplyEffect(env, At(env, run, k), run[k].now, run[k].call);
    assert Shows(crypto, env, run[j].call, ws[j]) && Shows(crypto, env, run[k].call, ws[k]);
    assert BeValue(m) % R == BeValue(n) % R;
    if BeValue(m) / R == BeValue(n) / R {
      BeValueInjective(m, n);
    }
  }

  /**
   And without canonicity it fails: the contract compares strings, so after a burn of N a verifying burn
   of N + R in the same account's name is accepted too, and the table holds both.
   */
  lemma AliasIsEnteredApart(env: Env, s: Ledger, now: U64, first: Call, again: Call)
    requires first.Burn? && Apply(env, s, now, first).Ok?
    requires again.Burn? && again.account == first.account && again.auth
    requires BeValue(again.nullifier) == BeValue(first.nullifier) + R && !SpentIn(s, again.nullifier)
    requires again.nonce == first.nonce + 1 && KnownRoot(env, s.leaves, again.root) && Proven(env, again)
    ensures var between := Step(env, s, now, first);
            && Apply(env, between, now, again).Ok?
            && SpentIn(Step(env, between, now, again), first.nullifier)
            && SpentIn(Step(env, between, now, again), again.nullifier)
            && first.nullifier != again.nullifier
  {
    hide BeValue, KnownRoot;
  }

  // ---- enrolled leaves ----

  /** Every listed insertion is an accepted call with auth, for a contract account and a canonical commitment. */
  lemma {:induction false} InsertionOrigin(env: Env, run: seq<Timed>, n: nat, k: nat) returns (i: nat)
    requires n <= |run| && k < |Inserted(env, run, n)|
    ensures i < n
    ensures var c := run[i].call;
            && Accepted(env, run, i) && (c.Insert? || c.InsertFor?) && c.auth
            && Canonical(c.commitment) && c.account == Contract(Inserted(env, run, n)[k].0)
            && c.commitment == Inserted(env, run, n)[k].1
  {
    hide Accepted;
    var c := run[n - 1].call;
    if k < |Inserted(env, run, n - 1)| {
      i := InsertionOrigin(env, run, n - 1, k);
    } else {
      i := n - 1;
      AcceptedInsertion(env, run, i);
    }
  }

  lemma AcceptedInsertion(env: Env, run: seq<Timed>, i: nat)
    requires i < |run| && Accepted(env, run, i) && (run[i].call.Insert? || run[i].call.InsertFor?)
    ensures run[i].call.auth && Canonical(run[i].call.commitment) && run[i].call.account.Contract?
  {
    hide Apply, At;
    InsertStep(env, At(env, run, i), run[i].now, run[i].call);
  }

  /** Conversely every accepted insertion is listed. */
  lemma {:induction false} InsertionListed(env: Env, run: seq<Timed>, i: nat, n: nat)
    requires i < n <= |run| && Accepted(env, run, i) && (run[i].call.Insert? || run[i].call.InsertFor?)
    ensures run[i].call.account.Contract?
    ensures (run[i].call.account.id, run[i].call.commitment) in Inserted(env, run, n)
  {
    hide Accepted;
    if i < n - 1 {
      InsertionListed(env, run, i, n - 1);
    } else {
      AcceptedInsertion(env, run, i);
    }
  }

  /**
   The stored leaves are, in order, the Poseidon2 values of tag, account halves and commitment of the
   accepted insertions: each is bound to the account that authorised it.
   */
  lemma LeavesAreWrapped(crypto: Crypto, cfg: Config, self: Bytes32, run: seq<Timed>, n: nat, k: nat)
    requires n <= |run| && k < |Inserted(Deployed(crypto, cfg, self), run, n)|
    ensures var env := Deployed(crypto, cfg, self);
            var (id, commitment) := Inserted(env, run, n)[k];
            && |At(env, run, n).leaves| == |Inserted(env, run, n)|
            && BeValue(commitment) < R && High(id) < R && Low(id) < R
            && BeValue(At(env, run, n).leaves[k]) ==
                 crypto.poseidon2([DOM_BIND, High(id), Low(id), BeValue(commitment)])
  {
    hide At, Accepted, BeValue, Split16, High, Low, WrapInputs, Reduced;
    var env := Deployed(crypto, cfg, self);
    var (id, commitment) := Inserted(env, run, n)[k];
    var i := InsertionOrigin(env, run, n, k);
    LeavesAreInserted(env, run, n);
    LeafVector(id, commitment);
    HalvesBelowR(id);
    WidthFacts();
  }

  lemma HalvesBelowR(id: Bytes32)
    ensures High(id) < R && Low(id) < R
  {
    hide Split16;
    Halves(id);
    SplitBelowR(id);
  }

  /** Two insertions with one stored leaf are the same account and commitment, or a Poseidon2 collision. */
  lemma LeafNamesOneInsertion(crypto: Crypto, cfg: Config, self: Bytes32, run: seq<Timed>, n: nat, k: nat, l: nat)
    requires var env := Deployed(crypto, cfg, self);
             && n <= |run| && k < |Inserted(env, run, n)| && l < |Inserted(env, run, n)|
             && k < |At(env, run, n).leaves| && l < |At(env, run, n).leaves|
             && At(env, run, n).leaves[k] == At(env, run, n).leaves[l]
    ensures var pairs := Inserted(Deployed(crypto, cfg, self), run, n);
            || pairs[k] == pairs[l]
            || Collision(crypto, WrapInputs(pairs[k].0, pairs[k].1), WrapInputs(pairs[l].0, pairs[l].1))
  {
    hide At, Accepted, BeValue, Split16, High, Low, WrapInputs, Reduced;
    var env := Deployed(crypto, cfg, self);
    var (id, commitment) := Inserted(env, run, n)[k];
    var (id', commitment') := Inserted(env, run, n)[l];
    var i := InsertionOrigin(env, run, n, k);
    var i' := InsertionOrigin(env, run, n, l);
    LeavesAreWrapped(crypto, cfg, self, run, n, k);
    LeavesAreWrapped(crypto, cfg, self, run, n, l);
    LeafVector(id, commitment);
    LeafVector(id', commitment');
    if Reduced(WrapInputs(id, commitment)) == Reduced(WrapInputs(id', commitment')) {
      LeafBinding(id, commitment, id', commitment');
    }
  }

  // ---- what proofs are checked against ----

  /** The verifier is asked about root, nullifier and hashed target, 32 bytes each, in this order. */
  lemma DeployedProves(crypto: Crypto, cfg: Config, self: Bytes32, root: Bytes32, nullifier: Bytes32,
                       f: AuthFields, proof: seq<Byte>) returns (hash: Bytes32)
    ensures Deployed(crypto, cfg, self).proves(root, nullifier, f, proof) == crypto.verifies(root + nullifier + hash, proof)
    ensures BeValue(hash) == crypto.poseidon2(Reduced(AuthInputs(f)))
    ensures Deployed(crypto, cfg, self).self == self
    ensures Deployed(crypto, cfg, self).passphraseHash == crypto.sha256(cfg.networkPassphrase)
  {
    hide AuthInputs, Reduced, BeValue;
    hash := AuthHash(crypto, f);
    assert PublicInputs(crypto, root, nullifier, f) == root + nullifier + hash;
  }

  /** Proof calls of different kinds are checked against different vectors, whatever else they say. */
  lemma KindsApart(env: Env, c: Call, d: Call)
    requires IsProof(c) && IsProof(d) && c.account.Contract? && d.account.Contract?
    requires c.Initiate? != d.Initiate? || c.Cancel? != d.Cancel?
    ensures Reduced(AuthInputs(Target(env, c))) != Reduced(AuthInputs(Target(env, d)))
  {
    hide AuthInputs, Reduced;
    AuthVector(Target(env, c));
    AuthVector(Target(env, d));
    assert Reduced(AuthInputs(Target(env, c)))[1] != Reduced(AuthInputs(Target(env, d)))[1];
  }
}
