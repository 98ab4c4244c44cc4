/**
 What one call to a smart account means, together with the calls it makes to the
 recovery contract. The OpenZeppelin rule functions underneath are known only by
 contract: ids are fresh and never reused, and any of them may refuse.
 */
module Accounts {
  import opened Wrappers
  import opened FieldHash
  import opened Recovery

  const REMOVAL_DELAY_SECS: nat := 7 * 24 * 3600

  datatype Account = Account(
    rules: map<nat, ContextRule>,
    nextRuleId: nat,
    recoveryId: Option<nat>,
    recoveryController: Option<Address>,
    removalAt: Option<nat>)

  datatype AccountError =
    | RecoveryPendingBlocked | RecoveryRuleProtected | RemovalNotAnnounced
    | RemovalDelayNotElapsed | NoRecoveryConfigured | RecoveryAlreadyEnrolled
    | NotAuthorized          // require_auth was not satisfied
    | ArithmeticOverflow     // checked u64 arithmetic
    | OzRefused              // a rule function refused, for instance because the rule does not exist
    | PolicyRefused          // some policy's `install` aborted

  /**
   What the surroundings answer during one call: whether the account's own auth holds, whether
   the rule functions accept, and what contracts other than ours say to `has_pending` and `install`.
   */
  datatype Answers = Answers(auth: bool, oz: bool, foreignPending: bool, foreignInstalls: bool)

  datatype Op =
    | AddContextRule(contextType: ContextRuleType, name: string, validUntil: Option<nat>,
                     signers: seq<Signer>, policies: set<Address>)
    | UpdateName(id: nat, name: string)
    | UpdateValidUntil(id: nat, validUntil: Option<nat>)
    | RemoveContextRule(id: nat)
    | AddSigner(id: nat, signer: Signer)
    | RemoveSigner(id: nat, signer: Signer)
    | AddPolicy(id: nat, policy: Address)
    | RemovePolicy(id: nat, policy: Address)
    | AnnounceRemoval
    | ExecuteRemoval
    | Enroll(controller: Address)
    | AddMultisigRecovery(name: string, validUntil: Option<nat>, friends: seq<Signer>, policy: Address)

  /** The two contracts' storage as one call sees it. */
  datatype Duo = Duo(zk: Ledger, acct: Account)

  type Outcome = Result<Duo, AccountError>

  const FRESH_ACCOUNT: Account := Account(map[], 0, None, None, None)

  function ZkAddress(env: Env): Address {
    Contract(env.self)
  }

  // ---- rule functions ----

  /** `install` on every policy of a rule; ours records the rule's id, once. */
  function InstallAll(env: Env, zk: Ledger, a: Address, rule: ContextRule, policies: set<Address>, h: Answers)
    : Result<Ledger, AccountError>
  {
    var ours := ZkAddress(env);
    var installed := if ours in policies then InstallPolicy(zk, Install(true, rule, a)) else Ok(zk);
    if installed.Err? || (policies - {ours} != {} && !h.foreignInstalls) then Err(PolicyRefused)
    else Ok(installed.value)
  }

  function OzAddRule(env: Env, d: Duo, a: Address, contextType: ContextRuleType, name: string,
                     validUntil: Option<nat>, signers: seq<Signer>, policies: set<Address>, h: Answers): Outcome
  {
    var id := d.acct.nextRuleId;
    var rule := ContextRule(id, contextType, name, validUntil, (set s | s in signers), policies);
    var installed := InstallAll(env, d.zk, a, rule, policies, h);
    if !h.oz then Err(OzRefused)
    else if installed.Err? then Err(installed.error)
    else Ok(Duo(installed.value, d.acct.(rules := d.acct.rules[id := rule], nextRuleId := id + 1)))
  }

  /** Replaces one existing rule. */
  function OzSetRule(d: Duo, id: nat, rule: ContextRule, h: Answers): Outcome {
    if !h.oz || id !in d.acct.rules then Err(OzRefused)
    else Ok(d.(acct := d.acct.(rules := d.acct.rules[id := rule])))
  }

  /** Removes a rule; a policy that refuses to uninstall does not stop it. */
  function OzRemoveRule(d: Duo, id: nat, h: Answers): Outcome {
    if !h.oz || id !in d.acct.rules then Err(OzRefused)
    else Ok(d.(acct := d.acct.(rules := d.acct.rules - {id})))
  }

  function OzAddPolicy(env: Env, d: Duo, a: Address, id: nat, policy: Address, h: Answers): Outcome {
    if !h.oz || id !in d.acct.rules then Err(OzRefused)
    else
      var rule := d.acct.rules[id];
      var installed := InstallAll(env, d.zk, a, rule, {policy}, h);
      if installed.Err? then Err(installed.error)
      else OzSetRule(d.(zk := installed.value), id, rule.(policies := rule.policies + {policy}), h)
  }

  // ---- guards ----

  predicate ControllerPending(env: Env, zk: Ledger, controller: Address, a: Address, now: nat, h: Answers) {
    if controller == ZkAddress(env) then Live(zk, a, now) else h.foreignPending
  }

  predicate Blocked(env: Env, d: Duo, a: Address, now: nat, h: Answers) {
    d.acct.recoveryController.Some? && ControllerPending(env, d.zk, d.acct.recoveryController.value, a, now, h)
  }

  /** The refusal shared by the guarded mutators of rule `id`. */
  function GuardRefusal(env: Env, d: Duo, a: Address, now: nat, id: nat, h: Answers): Option<AccountError> {
    if d.acct.recoveryId == Some(id) then Some(RecoveryRuleProtected)
    else if Blocked(env, d, a, now, h) then Some(RecoveryPendingBlocked)
    else None
  }

  // ---- entry points ----

  function InstallRecoveryRule(env: Env, d: Duo, a: Address, controller: Address, h: Answers): Outcome {
    var added := OzAddRule(env, d, a, CallContract(a), "zk-recovery", None, [], {controller}, h);
    if added.Err? then added
    else Ok(added.value.(acct := added.value.acct.(
      recoveryId := Some(d.acct.nextRuleId), recoveryController := Some(controller))))
  }

  function Construct(env: Env, zk: Ledger, a: Address, signers: seq<Signer>, policies: set<Address>,
                     recovery: Option<Address>, h: Answers): Outcome
  {
    var base := OzAddRule(env, Duo(zk, FRESH_ACCOUNT), a, Default, "default", None, signers, policies, h);
    if base.Err? || recovery.None? then base
    else InstallRecoveryRule(env, base.value, a, recovery.value, h)
  }

  function Announce(env: Env, d: Duo, a: Address, now: U64, h: Answers): Outcome {
    if d.acct.recoveryController.None? then Err(NoRecoveryConfigured)
    else if Blocked(env, d, a, now, h) then Err(RecoveryPendingBlocked)
    else if now + REMOVAL_DELAY_SECS >= TWO_64 then Err(ArithmeticOverflow)
    else Ok(d.(acct := d.acct.(removalAt := Some(now + REMOVAL_DELAY_SECS))))
  }

  function Execute(env: Env, d: Duo, a: Address, now: U64, h: Answers): Outcome {
    if d.acct.removalAt.None? then Err(RemovalNotAnnounced)
    else if now < d.acct.removalAt.value then Err(RemovalDelayNotElapsed)
    else if d.acct.recoveryController.None? then Err(NoRecoveryConfigured)
    else if Blocked(env, d, a, now, h) then Err(RecoveryPendingBlocked)
    else if d.acct.recoveryId.None? then Err(NoRecoveryConfigured)
    else
      var removed := OzRemoveRule(d, d.acct.recoveryId.value, h);
      if removed.Err? then removed
      else Ok(removed.value.(acct := removed.value.acct.(
        recoveryId := None, recoveryController := None, removalAt := None)))
  }

  function Act(env: Env, d: Duo, a: Address, now: U64, op: Op, h: Answers): Outcome {
    if !h.auth then Err(NotAuthorized)
    else
      match op
      case AddContextRule(contextType, name, validUntil, signers, policies) =>
        OzAddRule(env, d, a, contextType, name, validUntil, signers, policies, h)
      case UpdateName(id, name) =>
        if id !in d.acct.rules then Err(OzRefused)
        else OzSetRule(d, id, d.acct.rules[id].(name := name), h)
      case UpdateValidUntil(id, validUntil) =>
        var refusal := GuardRefusal(env, d, a, now, id, h);
        if refusal.Some? then Err(refusal.value)
        else if id !in d.acct.rules then Err(OzRefused)
        else OzSetRule(d, id, d.acct.rules[id].(validUntil := validUntil), h)
      case RemoveContextRule(id) =>
        var refusal := GuardRefusal(env, d, a, now, id, h);
        if refusal.Some? then Err(refusal.value) else OzRemoveRule(d, id, h)
      case AddSigner(id, signer) =>
        if id !in d.acct.rules then Err(OzRefused)
        else OzSetRule(d, id, d.acct.rules[id].(signers := d.acct.rules[id].signers + {signer}), h)
      case RemoveSigner(id, signer) =>
        if Blocked(env, d, a, now, h) then Err(RecoveryPendingBlocked)
        else if id !in d.acct.rules then Err(OzRefused)
        else OzSetRule(d, id, d.acct.rules[id].(signers := d.acct.rules[id].signers - {signer}), h)
      case AddPolicy(id, policy) =>
        var refusal := GuardRefusal(env, d, a, now, id, h);
        if refusal.Some? then Err(refusal.value) else OzAddPolicy(env, d, a, id, policy, h)
      case RemovePolicy(id, policy) =>
        var refusal := GuardRefusal(env, d, a, now, id, h);
        if refusal.Some? then Err(refusal.value)
        else if id !in d.acct.rules then Err(OzRefused)
        else OzSetRule(d, id, d.acct.rules[id].(policies := d.acct.rules[id].policies - {policy}), h)
      case AnnounceRemoval => Announce(env, d, a, now, h)
      case ExecuteRemoval => Execute(env, d, a, now, h)
      case Enroll(controller) =>
        if d.acct.recoveryId.Some? then Err(RecoveryAlreadyEnrolled)
        else InstallRecoveryRule(env, d, a, controller, h)
      case AddMultisigRecovery(name, validUntil, friends, policy) =>
        OzAddRule(env, d, a, CallContract(a), name, validUntil, friends, {policy}, h)
  }
}
