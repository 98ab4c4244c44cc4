/**
 What one call to the recovery contract means: its stored state as a value, and
 for each entry point the state it leaves or the error it aborts with. An aborted
 call stores nothing.
 */
module Recovery {
  import opened Bytes
  import opened Wrappers
  import opened FieldHash
  import MerkleTree
  import Pool = MerklePool

  const RATE_WINDOW_SECS: nat := 90 * 24 * 3600
  const RATE_LIMIT_MAX: nat := 3
  const CANCEL_COOLDOWN_SECS: nat := 24 * 3600

  const ACTION_INITIATE: U32 := 1
  const ACTION_CANCEL: U32 := 2
  const ACTION_REVOKE: U32 := 3

  datatype Config = Config(
    factory: Address, verifier: Address, delaySecs: U64, completionWindowSecs: U64,
    maxCancels: U32, timelockFloorSecs: U64, networkPassphrase: seq<Byte>, webauthnVerifier: Address)

  /**
   The fixed surroundings of one deployment: configuration, the contract's own id, and
   its hashes and verifier as functions. Runs are studied for any such functions;
   `Deployed` gives the ones that the contract uses.
   */
  datatype Env = Env(
    cfg: Config,
    self: Bytes32,
    passphraseHash: Bytes32,
    tree: MerkleTree.Tree<Bytes32>,
    storedLeaf: (Bytes32, Bytes32) -> Bytes32,
    proves: (Bytes32, Bytes32, AuthFields, seq<Byte>) -> bool)

  /** The interior hash on 32-byte values, at the pool's depth. */
  function HashTree(crypto: Crypto): MerkleTree.Tree<Bytes32> {
    var hash2: (Bytes32, Bytes32) -> Bytes32 := (a: Bytes32, b: Bytes32) => P2(crypto, [BeValue(a), BeValue(b)]);
    MerkleTree.Tree<Bytes32>.Tree(hash2, Zeros(32), Pool.DEPTH)
  }

  function PublicInputs(crypto: Crypto, root: Bytes32, nullifier: Bytes32, target: AuthFields): seq<Byte> {
    root + nullifier + AuthHash(crypto, target)
  }

  function Deployed(crypto: Crypto, cfg: Config, self: Bytes32): Env {
    Env(cfg, self, crypto.sha256(cfg.networkPassphrase), HashTree(crypto),
        (id: Bytes32, commitment: Bytes32) => P2(crypto, WrapInputs(id, commitment)),
        (root: Bytes32, nullifier: Bytes32, target: AuthFields, proof: seq<Byte>) =>
          crypto.verifies(PublicInputs(crypto, root, nullifier, target), proof))
  }

  datatype Pending = Pending(
    newPubkey: Bytes65, nullifier: Bytes32, initiatedAt: nat, executableAfter: nat, expiresAt: nat)

  datatype NullifierState = Reserved(account: Address) | Spent

  datatype Ledger = Ledger(
    pendings: map<Address, Pending>,
    nullifiers: map<Bytes32, NullifierState>,
    nonces: map<Address, nat>,
    rates: map<Address, seq<nat>>,
    cancels: map<Address, nat>,
    lastCancel: map<Address, nat>,
    installed: map<Address, nat>,
    leaves: seq<Bytes32>)

  datatype Error =
    | TreeFull | NonCanonicalCommitment
    | PendingExists | UnknownRoot | NullifierReserved | NullifierSpent | InvalidNonce
    | TimelockTooShort | TimelockMismatch | RateLimited | VerificationFailed
    | NoPending | CancelCapReached | CooldownActive | RecoveryExpired
    | TimelockNotElapsed | ContextMismatch | RuleMismatch | NotInstalled | AlreadyInstalled | Unauthorized
    | AuthFailed    // require_auth was not satisfied
    | Overflow      // checked u64 arithmetic
    | BadAddress    // split_addr was given an address that is not a contract's

  datatype Signer = External(verifier: Address, key: seq<Byte>) | Delegated(address: Address)

  datatype ContextRuleType = Default | CallContract(target: Address) | OtherType

  datatype ContextRule = ContextRule(
    id: nat, contextType: ContextRuleType, name: string, validUntil: Option<nat>,
    signers: set<Signer>, policies: set<Address>)

  /** A call argument, as far as the completion gate decodes it. */
  datatype Val = SignerVec(signers: seq<Signer>) | PolicyMap(policies: set<Address>) | OtherVal

  datatype Context = ContractCall(contract: Address, fnName: string, args: seq<Val>) | OtherContext

  /** An entry point with its arguments; `auth` tells whether `require_auth` holds for the address it names. */
  datatype Call =
    | Insert(auth: bool, account: Address, commitment: Bytes32)
    | InsertFor(auth: bool, account: Address, commitment: Bytes32)
    | Initiate(account: Address, newPubkey: Bytes65, nonce: U64, timelockSecs: U32,
               root: Bytes32, nullifier: Bytes32, proof: seq<Byte>)
    | Cancel(auth: bool, account: Address, nonce: U64, root: Bytes32, nullifier: Bytes32, proof: seq<Byte>)
    | Burn(auth: bool, account: Address, nonce: U64, root: Bytes32, nullifier: Bytes32, proof: seq<Byte>)
    | Install(auth: bool, rule: ContextRule, account: Address)
    | Enforce(auth: bool, context: Context, rule: ContextRule, account: Address)
    | Uninstall(auth: bool, rule: ContextRule, account: Address)

  // ---- pool ----

  predicate KnownRoot(env: Env, leaves: seq<Bytes32>, root: Bytes32) {
    Pool.KnownRoot(env.tree, leaves, root)
  }

  function InsertBound(env: Env, s: Ledger, account: Address, commitment: Bytes32): Result<Ledger, Error> {
    if !Canonical(commitment) then Err(NonCanonicalCommitment)
    else if !account.Contract? then Err(BadAddress)
    else if |s.leaves| >= MerkleTree.Pow2(env.tree.depth) then Err(TreeFull)
    else Ok(s.(leaves := s.leaves + [env.storedLeaf(account.id, commitment)]))
  }

  // ---- proofs ----

  function Fields(env: Env, action: U32, id: Bytes32, pubkey: Bytes65, nonce: U64, timelock: U32): AuthFields {
    AuthFields(action, id, env.passphraseHash, env.self, pubkey, nonce, timelock)
  }

  // ---- controller ----

  function StoredNonce(s: Ledger, a: Address): nat {
    if a in s.nonces then s.nonces[a] else 0
  }

  function CancelsUsed(s: Ledger, a: Address): nat {
    if a in s.cancels then s.cancels[a] else 0
  }

  function RateWindow(s: Ledger, a: Address): seq<nat> {
    if a in s.rates then s.rates[a] else []
  }

  /** A pending recovery that has not run out. */
  predicate Live(s: Ledger, a: Address, now: nat) {
    a in s.pendings && now < s.pendings[a].expiresAt
  }

  function SaturatingSub(x: nat, y: nat): nat {
    if x < y then 0 else x - y
  }

  function Pruned(window: seq<nat>, cutoff: nat): seq<nat> {
    if window == [] then []
    else
      var kept, last := Pruned(window[..|window| - 1], cutoff), window[|window| - 1];
      if last >= cutoff then kept + [last] else kept
  }

  /** The nullifier table without `a`'s reservation of `n`; others' entries and spent ones stay. */
  function Released(table: map<Bytes32, NullifierState>, n: Bytes32, a: Address): map<Bytes32, NullifierState> {
    if n in table && table[n] == Reserved(a) then table - {n} else table
  }

  /** The table an initiation sees once the record it supersedes has let go. */
  function Superseded(s: Ledger, a: Address): map<Bytes32, NullifierState> {
    if a in s.pendings then Released(s.nullifiers, s.pendings[a].nullifier, a) else s.nullifiers
  }

  function PendingOf(cfg: Config, now: nat, c: Call): Pending
    requires c.Initiate?
  {
    var after := now + cfg.delaySecs;
    Pending(c.newPubkey, c.nullifier, now, after, after + cfg.completionWindowSecs)
  }

  /** The initiation times that still count at `now`. */
  function RecentInitiations(s: Ledger, a: Address, now: nat): seq<nat> {
    Pruned(RateWindow(s, a), SaturatingSub(now, RATE_WINDOW_SECS))
  }

  function NonceRefusal(s: Ledger, a: Address, nonce: U64): Option<Error> {
    if StoredNonce(s, a) + 1 >= TWO_64 then Some(Overflow)
    else if nonce != StoredNonce(s, a) + 1 then Some(InvalidNonce)
    else None
  }

  function ProofRefusal(env: Env, root: Bytes32, nullifier: Bytes32, action: U32, a: Address,
                        pubkey: Bytes65, nonce: U64, timelock: U32, proof: seq<Byte>): Option<Error> {
    if !a.Contract? then Some(BadAddress)
    else if !env.proves(root, nullifier, Fields(env, action, a.id, pubkey, nonce, timelock), proof) then
      Some(VerificationFailed)
    else None
  }

  /** The first check of an initiation that fails, in the order in which they are made. */
  function InitiateRefusal(env: Env, s: Ledger, now: U64, c: Call): Option<Error>
    requires c.Initiate?
  {
    var a, table := c.account, Superseded(s, c.account);
    if Live(s, a, now) then Some(PendingExists)
    else if !KnownRoot(env, s.leaves, c.root) then Some(UnknownRoot)
    else if c.nullifier in table then
      Some(if table[c.nullifier].Spent? then NullifierSpent else NullifierReserved)
    else if NonceRefusal(s, a, c.nonce).Some? then NonceRefusal(s, a, c.nonce)
    else if c.timelockSecs < env.cfg.timelockFloorSecs then Some(TimelockTooShort)
    else if c.timelockSecs != env.cfg.delaySecs then Some(TimelockMismatch)
    else if |RecentInitiations(s, a, now)| >= RATE_LIMIT_MAX then Some(RateLimited)
    else ProofRefusal(env, c.root, c.nullifier, ACTION_INITIATE, a, c.newPubkey, c.nonce, c.timelockSecs, c.proof)
  }

  function InitiateRecovery(env: Env, s: Ledger, now: U64, c: Call): Result<Ledger, Error>
    requires c.Initiate?
  {
    var a, refusal := c.account, InitiateRefusal(env, s, now, c);
    if refusal.Some? then Err(refusal.value)
    else if PendingOf(env.cfg, now, c).expiresAt >= TWO_64 then Err(Overflow)
    else Ok(s.(
      pendings := s.pendings[a := PendingOf(env.cfg, now, c)],
      nullifiers := Superseded(s, a)[c.nullifier := Reserved(a)],
      nonces := s.nonces[a := c.nonce],
      rates := s.rates[a := RecentInitiations(s, a, now) + [now]]))
  }

  function CancelRefusal(env: Env, s: Ledger, now: U64, c: Call): Option<Error>
    requires c.Cancel?
  {
    var a := c.account;
    if !c.auth then Some(AuthFailed)
    else if !Live(s, a, now) then Some(NoPending)
    else if CancelsUsed(s, a) >= env.cfg.maxCancels then Some(CancelCapReached)
    else if a in s.lastCancel && SaturatingSub(now, s.lastCancel[a]) < CANCEL_COOLDOWN_SECS then Some(CooldownActive)
    else if NonceRefusal(s, a, c.nonce).Some? then NonceRefusal(s, a, c.nonce)
    else if !KnownRoot(env, s.leaves, c.root) then Some(UnknownRoot)
    else ProofRefusal(env, c.root, c.nullifier, ACTION_CANCEL, a, Zeros(65), c.nonce, 0, c.proof)
  }

  function CancelRecovery(env: Env, s: Ledger, now: U64, c: Call): Result<Ledger, Error>
    requires c.Cancel?
  {
    var a, refusal := c.account, CancelRefusal(env, s, now, c);
    if refusal.Some? then Err(refusal.value)
    else Ok(s.(
      pendings := s.pendings - {a},
      nullifiers := Superseded(s, a),
      nonces := s.nonces[a := c.nonce],
      cancels := s.cancels[a := CancelsUsed(s, a) + 1],
      lastCancel := s.lastCancel[a := now]))
  }

  function BurnRefusal(env: Env, s: Ledger, c: Call): Option<Error>
    requires c.Burn?
  {
    var a, n := c.account, c.nullifier;
    if !c.auth then Some(AuthFailed)
    else if !KnownRoot(env, s.leaves, c.root) then Some(UnknownRoot)
    else if NonceRefusal(s, a, c.nonce).Some? then NonceRefusal(s, a, c.nonce)
    else if n in s.nullifiers && s.nullifiers[n].Spent? then Some(NullifierSpent)
    else ProofRefusal(env, c.root, n, ACTION_REVOKE, a, Zeros(65), c.nonce, 0, c.proof)
  }

  function BurnNullifier(env: Env, s: Ledger, c: Call): Result<Ledger, Error>
    requires c.Burn?
  {
    var a, n, refusal := c.account, c.nullifier, BurnRefusal(env, s, c);
    if refusal.Some? then Err(refusal.value)
    else Ok(s.(
      pendings := if a in s.pendings && s.pendings[a].nullifier == n then s.pendings - {a} else s.pendings,
      nullifiers := s.nullifiers[n := Spent],
      nonces := s.nonces[a := c.nonce]))
  }

  // ---- completion policy ----

  function InstallPolicy(s: Ledger, c: Call): Result<Ledger, Error>
    requires c.Install?
  {
    if !c.auth then Err(AuthFailed)
    else if c.account in s.installed then Err(AlreadyInstalled)
    else if c.rule.signers != {} then Err(ContextMismatch)
    else if c.rule.contextType != CallContract(c.account) then Err(ContextMismatch)
    else Ok(s.(installed := s.installed[c.account := c.rule.id]))
  }

  /** The one call a completion may authorise. */
  predicate Permitted(cfg: Config, p: Pending, a: Address, context: Context) {
    && context.ContractCall?
    && context.contract == a
    && context.fnName == "add_context_rule"
    && |context.args| == 5
    && context.args[3] == SignerVec([External(cfg.webauthnVerifier, p.newPubkey)])
    && context.args[4] == PolicyMap({})
  }

  function EnforcePolicy(env: Env, s: Ledger, now: U64, c: Call): Result<Ledger, Error>
    requires c.Enforce?
  {
    var a := c.account;
    if !c.auth then Err(AuthFailed)
    else if a !in s.installed then Err(NotInstalled)
    else if s.installed[a] != c.rule.id then Err(RuleMismatch)
    else if a !in s.pendings then Err(NoPending)
    else if now < s.pendings[a].executableAfter then Err(TimelockNotElapsed)
    else if now >= s.pendings[a].expiresAt then Err(RecoveryExpired)
    else if !Permitted(env.cfg, s.pendings[a], a, c.context) then Err(ContextMismatch)
    else Ok(s.(
      pendings := s.pendings - {a},
      nullifiers := s.nullifiers[s.pendings[a].nullifier := Spent]))
  }

  // ---- calls and runs ----

  function Apply(env: Env, s: Ledger, now: U64, c: Call): Result<Ledger, Error> {
    match c
    case Insert(auth, a, commitment) => if auth then InsertBound(env, s, a, commitment) else Err(AuthFailed)
    case InsertFor(auth, a, commitment) => if auth then InsertBound(env, s, a, commitment) else Err(AuthFailed)
    case Initiate(_, _, _, _, _, _, _) => InitiateRecovery(env, s, now, c)
    case Cancel(_, _, _, _, _, _) => CancelRecovery(env, s, now, c)
    case Burn(_, _, _, _, _, _) => BurnNullifier(env, s, c)
    case Install(_, _, _) => InstallPolicy(s, c)
    case Enforce(_, _, _, _) => EnforcePolicy(env, s, now, c)
    case Uninstall(auth, _, _) => if auth then Err(Unauthorized) else Err(AuthFailed)
  }

  /** The host keeps the old state when a call aborts. */
  function Step(env: Env, s: Ledger, now: U64, c: Call): Ledger {
    var r := Apply(env, s, now, c);
    if r.Ok? then r.value else s
  }

  const GENESIS: Ledger := Ledger(map[], map[], map[], map[], map[], map[], map[], [])
}
