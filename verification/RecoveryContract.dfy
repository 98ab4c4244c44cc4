/**
 The recovery contract with its storage. Entry points write as they go; `Invoke` is the
 host's side of a call, which undoes every write of a call that aborts.
 */
module RecoveryContract {
  import opened Bytes
  import opened Wrappers
  import opened FieldHash
  import Spec = Recovery
  import opened Recovery
  import Pool = MerklePool

  /** A copy of the contract's tables, as the host keeps one for the length of a call. */
  datatype Tables = Tables(
    pendings: map<Address, Pending>, nullifiers: map<Bytes32, NullifierState>, nonces: map<Address, nat>,
    rates: map<Address, seq<nat>>, cancels: map<Address, nat>, lastCancel: map<Address, nat>,
    installed: map<Address, nat>)

  class ZkRecovery {
    const crypto: Crypto
    const env: Env
    const pool: Pool.MerklePool<Bytes32>
    var pendings: map<Address, Pending>
    var nullifiers: map<Bytes32, NullifierState>
    var nonces: map<Address, nat>
    var rates: map<Address, seq<nat>>
    var cancels: map<Address, nat>
    var lastCancel: map<Address, nat>
    var installed: map<Address, nat>

    ghost predicate Valid()
      reads this, pool
    {
      pool.Valid() && pool.tree == env.tree && env == Deployed(crypto, env.cfg, env.self)
    }

    ghost function State(): Ledger
      reads this, pool
    {
      Ledger(pendings, nullifiers, nonces, rates, cancels, lastCancel, installed, pool.leaves)
    }

    /** The answer and the writes of a call, compared with what the call means. */
    ghost predicate Agrees(r: Result<nat, Error>, spec: Result<Ledger, Error>)
      reads this, pool
    {
      match spec
      case Ok(s) => r.Ok? && State() == s
      case Err(e) => r == Err(e)
    }

    constructor (crypto: Crypto, cfg: Config, self: Bytes32)
      ensures Valid() && State() == GENESIS
      ensures this.crypto == crypto && env == Deployed(crypto, cfg, self) && fresh(pool)
    {
      this.crypto, env := crypto, Deployed(crypto, cfg, self);
      pool := new Pool.MerklePool(HashTree(crypto));
      pendings, nullifiers, nonces, rates := map[], map[], map[], map[];
      cancels, lastCancel, installed := map[], map[], map[];
    }

    // ---- helpers ----

    method IsKnownRoot(root: Bytes32) returns (known: bool)
      requires Valid()
      ensures known == KnownRoot(env, pool.leaves, root)
    {
      known := pool.IsKnownRoot(root);
    }

    /** Accepts and stores exactly the next nonce. */
    method TakeNonce(account: Address, nonce: U64) returns (refused: Option<Error>)
      modifies this`nonces
      ensures refused == NonceRefusal(old(State()), account, nonce)
      ensures nonces == if refused.None? then old(nonces)[account := nonce] else old(nonces)
    {
      var expectedNonce := (if account in nonces then nonces[account] else 0) + 1;
      if expectedNonce >= TWO_64 {
        return Some(Overflow);
      }
      if nonce != expectedNonce {
        return Some(InvalidNonce);
      }
      nonces := nonces[account := nonce];
      return None;
    }

    /** Recomputes the target from the call's own arguments and asks the verifier. */
    method VerifyTarget(root: Bytes32, nullifier: Bytes32, action: U32, account: Address, pubkey: Bytes65,
                        nonce: U64, timelock: U32, proof: seq<Byte>)
      returns (refused: Option<Error>)
      requires Valid()
      ensures refused == ProofRefusal(env, root, nullifier, action, account, pubkey, nonce, timelock, proof)
    {
      if !account.Contract? {
        return Some(BadAddress);
      }
      var target := AuthFields(
        action, account.id, crypto.sha256(env.cfg.networkPassphrase), env.self, pubkey, nonce, timelock);
      var authHash := HashFields(crypto, AuthInputs(target));
      var publicInputs := root + nullifier + authHash;
      assert publicInputs == PublicInputs(crypto, root, nullifier, target);
      var verified := crypto.verifies(publicInputs, proof);
      return if verified then None else Some(VerificationFailed);
    }

    method ReleaseReservationIfOwned(nullifier: Bytes32, account: Address)
      modifies this`nullifiers
      ensures nullifiers == Released(old(nullifiers), nullifier, account)
    {
      if nullifier in nullifiers && nullifiers[nullifier].Reserved? {
        if nullifiers[nullifier].account == account {
          nullifiers := nullifiers - {nullifier};
        }
      }
    }

    /** Prunes the window; false when three initiations remain in it, true once `now` has been added. */
    method CheckRateLimit(account: Address, now: nat) returns (within: bool)
      modifies this`rates
      ensures var recent := RecentInitiations(old(State()), account, now);
              && within == (|recent| < RATE_LIMIT_MAX)
              && rates == if within then old(rates)[account := recent + [now]] else old(rates)
    {
      var window := if account in rates then rates[account] else [];
      var cutoff := if now < RATE_WINDOW_SECS then 0 else now - RATE_WINDOW_SECS;
      var pruned: seq<nat> := [];
      for i := 0 to |window|
        invariant pruned == Pruned(window[..i], cutoff)
      {
        assert window[..i + 1][..i] == window[..i];
        if window[i] >= cutoff {
          pruned := pruned + [window[i]];
        }
      }
      assert window[..|window|] == window;
      if |pruned| >= RATE_LIMIT_MAX {
        return false;
      }
      rates := rates[account := pruned + [now]];
      return true;
    }

    // ---- pool entry points ----

    method InsertBound(account: Address, commitment: Bytes32) returns (r: Result<nat, Error>)
      requires Valid()
      modifies pool
      ensures Valid() && Agrees(r, Spec.InsertBound(env, old(State()), account, commitment))
      ensures r.Ok? ==> r.value == |old(pool.leaves)|
      ensures r.Err? ==> State() == old(State())
    {
      if BeValue(commitment) >= R {
        return Err(NonCanonicalCommitment);
      }
      if !account.Contract? {
        return Err(BadAddress);
      }
      var stored := HashFields(crypto, WrapInputs(account.id, commitment));
      var index := pool.InsertLeaf(stored);
      if index.None? {
        return Err(TreeFull);
      }
      return Ok(index.value);
    }

    // ---- controller entry points ----

    /** Steps 1 to 7 of an initiation: every check, with the writes made on the way. */
    method CheckInitiation(now: U64, c: Call) returns (refused: Option<Error>)
      requires Valid() && c.Initiate?
      modifies this`nullifiers, this`nonces, this`rates
      ensures Valid() && refused == InitiateRefusal(env, old(State()), now, c)
      ensures refused.None? ==>
        State() == old(State()).(
          nullifiers := Superseded(old(State()), c.account),
          nonces := old(nonces)[c.account := c.nonce],
          rates := old(rates)[c.account := RecentInitiations(old(State()), c.account, now) + [now]])
    {
      hide Deployed, Spec.KnownRoot, ProofRefusal, Pruned;
      if c.account in pendings {
        var existing := pendings[c.account];
        if now < existing.expiresAt {
          return Some(PendingExists);
        }
        ReleaseReservationIfOwned(existing.nullifier, c.account);
      }
      var known := IsKnownRoot(c.root);
      if !known {
        return Some(UnknownRoot);
      }
      if c.nullifier in nullifiers {
        match nullifiers[c.nullifier] {
          case Reserved(_) => return Some(NullifierReserved);
          case Spent => return Some(NullifierSpent);
        }
      }
      refused := TakeNonce(c.account, c.nonce);
      if refused.Some? {
        return;
      }
      if c.timelockSecs < env.cfg.timelockFloorSecs {
        return Some(TimelockTooShort);
      }
      if c.timelockSecs != env.cfg.delaySecs {
        return Some(TimelockMismatch);
      }
      var within := CheckRateLimit(c.account, now);
      if !within {
        return Some(RateLimited);
      }
      refused := VerifyTarget(c.root, c.nullifier, ACTION_INITIATE, c.account, c.newPubkey, c.nonce, c.timelockSecs,
                              c.proof);
    }

    method InitiateRecovery(now: U64, c: Call) returns (r: Result<nat, Error>)
      requires Valid() && c.Initiate?
      modifies this
      ensures Valid() && Agrees(r, Spec.InitiateRecovery(env, old(State()), now, c))
      ensures r.Ok? ==> r.value == now + env.cfg.delaySecs
    {
      hide Deployed, InitiateRefusal, Superseded, RecentInitiations;
      var refused := CheckInitiation(now, c);
      if refused.Some? {
        return Err(refused.value);
      }
      nullifiers := nullifiers[c.nullifier := Reserved(c.account)];
      var executableAfter := now + env.cfg.delaySecs;
      if executableAfter >= TWO_64 {
        return Err(Overflow);
      }
      var expiresAt := executableAfter + env.cfg.completionWindowSecs;
      if expiresAt >= TWO_64 {
        return Err(Overflow);
      }
      pendings := pendings[c.account := Pending(c.newPubkey, c.nullifier, now, executableAfter, expiresAt)];
      return Ok(executableAfter);
    }

    method HasPending(account: Address, now: nat) returns (live: bool)
      ensures live == Live(State(), account, now)
    {
      live := account in pendings && now < pendings[account].expiresAt;
    }

    /** Steps 1 to 5 of a cancel. */
    method CheckCancel(now: U64, c: Call) returns (refused: Option<Error>)
      requires Valid() && c.Cancel?
      modifies this`nonces
      ensures Valid() && refused == CancelRefusal(env, old(State()), now, c)
      ensures refused.None? ==> nonces == old(nonces)[c.account := c.nonce] && c.account in pendings
    {
      hide Deployed, Spec.KnownRoot, ProofRefusal, Zeros;
      if !c.auth {
        return Some(AuthFailed);
      }
      if !(c.account in pendings && now < pendings[c.account].expiresAt) {
        return Some(NoPending);
      }
      var used := if c.account in cancels then cancels[c.account] else 0;
      if used >= env.cfg.maxCancels {
        return Some(CancelCapReached);
      }
      if c.account in lastCancel {
        if SaturatingSub(now, lastCancel[c.account]) < CANCEL_COOLDOWN_SECS {
          return Some(CooldownActive);
        }
      }
      refused := TakeNonce(c.account, c.nonce);
      if refused.Some? {
        return;
      }
      var known := IsKnownRoot(c.root);
      if !known {
        return Some(UnknownRoot);
      }
      refused := VerifyTarget(c.root, c.nullifier, ACTION_CANCEL, c.account, Zeros(65), c.nonce, 0, c.proof);
    }

    method CancelRecovery(now: U64, c: Call) returns (r: Result<nat, Error>)
      requires Valid() && c.Cancel?
      modifies this
      ensures Valid() && Agrees(r, Spec.CancelRecovery(env, old(State()), now, c))
      ensures r.Ok? ==> r.value == CancelsUsed(State(), c.account)
    {
      hide Deployed, CancelRefusal, Pool.MerklePool.Valid;
      var refused := CheckCancel(now, c);
      if refused.Some? {
        return Err(refused.value);
      }
      ReleaseReservationIfOwned(pendings[c.account].nullifier, c.account);
      pendings := pendings - {c.account};
      var newUsed := (if c.account in cancels then cancels[c.account] else 0) + 1;
      cancels := cancels[c.account := newUsed];
      lastCancel := lastCancel[c.account := now];
      return Ok(newUsed);
    }

    method BurnNullifier(c: Call) returns (r: Result<nat, Error>)
      requires Valid() && c.Burn?
      modifies this
      ensures Valid() && Agrees(r, Spec.BurnNullifier(env, old(State()), c))
    {
      hide Deployed, Spec.KnownRoot, ProofRefusal, Zeros;
      if !c.auth {
        return Err(AuthFailed);
      }
      var known := IsKnownRoot(c.root);
      if !known {
        return Err(UnknownRoot);
      }
      var refused := TakeNonce(c.account, c.nonce);
      if refused.Some? {
        return Err(refused.value);
      }
      if c.nullifier in nullifiers && nullifiers[c.nullifier].Spent? {
        return Err(NullifierSpent);
      }
      refused := VerifyTarget(c.root, c.nullifier, ACTION_REVOKE, c.account, Zeros(65), c.nonce, 0, c.proof);
      if refused.Some? {
        return Err(refused.value);
      }
      if c.account in pendings {
        if pendings[c.account].nullifier == c.nullifier {
          pendings := pendings - {c.account};
        }
      }
      nullifiers := nullifiers[c.nullifier := Spent];
      return Ok(0);
    }

    // ---- completion policy ----

    method InstallPolicy(auth: bool, rule: ContextRule, account: Address) returns (r: Result<nat, Error>)
      requires Valid()
      modifies this
      ensures Valid() && Agrees(r, Spec.InstallPolicy(old(State()), Install(auth, rule, account)))
    {
      if !auth {
        return Err(AuthFailed);
      }
      if account in installed {
        return Err(AlreadyInstalled);
      }
      if rule.signers != {} {
        return Err(ContextMismatch);
      }
      match rule.contextType {
        case CallContract(target) =>
          if target != account {
            return Err(ContextMismatch);
          }
        case Default => return Err(ContextMismatch);
        case OtherType => return Err(ContextMismatch);
      }
      installed := installed[account := rule.id];
      return Ok(0);
    }

    method EnforcePolicy(auth: bool, now: U64, context: Context, rule: ContextRule, account: Address)
      returns (r: Result<nat, Error>)
      requires Valid()
      modifies this
      ensures Valid()
      ensures Agrees(r, Spec.EnforcePolicy(env, old(State()), now, Enforce(auth, context, rule, account)))
    {
      hide Deployed, Spec.KnownRoot, Zeros;
      if !auth {
        return Err(AuthFailed);
      }
      if account !in installed {
        return Err(NotInstalled);
      }
      if installed[account] != rule.id {
        return Err(RuleMismatch);
      }
      if account !in pendings {
        return Err(NoPending);
      }
      var pending := pendings[account];
      if now < pending.executableAfter {
        return Err(TimelockNotElapsed);
      }
      if now >= pending.expiresAt {
        return Err(RecoveryExpired);
      }
      if !context.ContractCall? || context.contract != account {
        return Err(ContextMismatch);
      }
      if context.fnName != "add_context_rule" {
        return Err(ContextMismatch);
      }
      if |context.args| != 5 {
        return Err(ContextMismatch);
      }
      if !context.args[3].SignerVec? || !context.args[4].PolicyMap? {
        return Err(ContextMismatch);
      }
      if context.args[4].policies != {} {
        return Err(ContextMismatch);
      }
      var expected := External(env.cfg.webauthnVerifier, pending.newPubkey);
      if context.args[3].signers != [expected] {
        return Err(ContextMismatch);
      }
      nullifiers := nullifiers[pending.nullifier := Spent];
      pendings := pendings - {account};
      return Ok(0);
    }

    method Uninstall(auth: bool) returns (r: Result<nat, Error>)
      ensures r.Err?
      ensures auth ==> r.error == Unauthorized
      ensures !auth ==> r.error == AuthFailed
    {
      return Err(if auth then Unauthorized else AuthFailed);
    }

    // ---- the host ----

    method Dispatch(now: U64, c: Call) returns (r: Result<nat, Error>)
      requires Valid()
      modifies this, pool
      ensures Valid() && Agrees(r, Apply(env, old(State()), now, c))
      ensures r.Err? ==> pool.leaves == old(pool.leaves)
    {
      match c {
        case Insert(auth, a, commitment) =>
          if !auth {
            return Err(AuthFailed);
          }
          r := InsertBound(a, commitment);
        case InsertFor(auth, a, commitment) =>
          if !auth {
            return Err(AuthFailed);
          }
          r := InsertBound(a, commitment);
        case Initiate(_, _, _, _, _, _, _) =>
          r := InitiateRecovery(now, c);
        case Cancel(_, _, _, _, _, _) =>
          r := CancelRecovery(now, c);
        case Burn(_, _, _, _, _, _) =>
          r := BurnNullifier(c);
        case Install(auth, rule, a) =>
          r := InstallPolicy(auth, rule, a);
        case Enforce(auth, context, rule, a) =>
          r := EnforcePolicy(auth, now, context, rule, a);
        case Uninstall(auth, _, _) =>
          r := Uninstall(auth);
      }
    }

    method Restore(saved: Tables)
      requires Valid()
      modifies this
      ensures Valid()
      ensures State() == Ledger(saved.pendings, saved.nullifiers, saved.nonces, saved.rates, saved.cancels,
                                saved.lastCancel, saved.installed, pool.leaves)
    {
      pendings, nullifiers, nonces, rates := saved.pendings, saved.nullifiers, saved.nonces, saved.rates;
      cancels, lastCancel, installed := saved.cancels, saved.lastCancel, saved.installed;
    }

    /** One call as the chain sees it: the meaning of the call, or no change at all. */
    method Invoke(now: U64, c: Call) returns (r: Result<nat, Error>)
      requires Valid()
      modifies this, pool
      ensures Valid() && State() == Step(env, old(State()), now, c)
      ensures r.Ok? == Apply(env, old(State()), now, c).Ok?
      ensures r.Err? ==> r.error == Apply(env, old(State()), now, c).error
    {
      var saved := Tables.Tables(pendings, nullifiers, nonces, rates, cancels, lastCancel, installed);
      r := Dispatch(now, c);
      if r.Err? {
        Restore(saved);
      }
    }
  }
}
