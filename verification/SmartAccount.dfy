/**
 A smart account with its storage, next to the recovery contract that it calls. Entry points write
 as they go; `Invoke` undoes the writes of an aborted call in both contracts.
 */
module SmartAccount {
  import opened Wrappers
  import opened FieldHash
  import opened Recovery
  import opened RecoveryContract
  import Spec = Accounts
  import opened Accounts

  class NidoSmartAccount {
    const address: Address
    const zk: ZkRecovery
    var rules: map<nat, ContextRule>
    var nextRuleId: nat
    var recoveryId: Option<nat>
    var recoveryController: Option<Address>
    var removalAt: Option<nat>

    ghost predicate Valid()
      reads zk, zk.pool
    {
      zk.Valid()
    }

    ghost function State(): Account
      reads this
    {
      Account(rules, nextRuleId, recoveryId, recoveryController, removalAt)
    }

    ghost function Both(): Duo
      reads this, zk, zk.pool
    {
      Duo(zk.State(), State())
    }

    ghost predicate Agrees(r: Option<AccountError>, spec: Outcome)
      reads this, zk, zk.pool
    {
      match spec
      case Ok(d) => r.None? && Both() == d
      case Err(e) => r == Some(e)
    }

    // ---- rule functions, and the calls they make ----

    method InstallAll(rule: ContextRule, policies: set<Address>, h: Answers) returns (r: Option<AccountError>)
      requires Valid()
      modifies zk
      ensures Valid()
      ensures var spec := Spec.InstallAll(zk.env, old(zk.State()), address, rule, policies, h);
              if spec.Ok? then r.None? && zk.State() == spec.value else r == Some(spec.error)
    {
      if Contract(zk.env.self) in policies {
        var installed := zk.InstallPolicy(true, rule, address);
        if installed.Err? {
          return Some(PolicyRefused);
        }
      }
      if policies - {Contract(zk.env.self)} != {} && !h.foreignInstalls {
        return Some(PolicyRefused);
      }
      return None;
    }

    method OzAddRule(contextType: ContextRuleType, name: string, validUntil: Option<nat>,
                     signers: seq<Signer>, policies: set<Address>, h: Answers)
      returns (r: Option<AccountError>)
      requires Valid()
      modifies this, zk
      ensures Valid()
      ensures Agrees(r, Spec.OzAddRule(zk.env, old(Both()), address, contextType, name, validUntil, signers, policies, h))
    {
      hide ZkRecovery.Valid, Spec.InstallAll;
      if !h.oz {
        return Some(OzRefused);
      }
      var rule := ContextRule(nextRuleId, contextType, name, validUntil, (set s | s in signers), policies);
      r := InstallAll(rule, policies, h);
      if r.Some? {
        return;
      }
      rules := rules[nextRuleId := rule];
      nextRuleId := nextRuleId + 1;
    }

    method OzSetRule(id: nat, rule: ContextRule, h: Answers) returns (r: Option<AccountError>)
      requires Valid()
      modifies this`rules
      ensures Agrees(r, Spec.OzSetRule(old(Both()), id, rule, h))
    {
      if !h.oz || id !in rules {
        return Some(OzRefused);
      }
      rules := rules[id := rule];
      return None;
    }

    method OzRemoveRule(id: nat, h: Answers) returns (r: Option<AccountError>)
      requires Valid()
      modifies this`rules
      ensures Agrees(r, Spec.OzRemoveRule(old(Both()), id, h))
    {
      if !h.oz || id !in rules {
        return Some(OzRefused);
      }
      if Contract(zk.env.self) in rules[id].policies {
        var _ := zk.Uninstall(true);
      }
      rules := rules - {id};
      return None;
    }

    // ---- guards ----

    method HasLivePending(controller: Address, now: nat, h: Answers) returns (live: bool)
      requires Valid()
      ensures live == ControllerPending(zk.env, zk.State(), controller, address, now, h)
    {
      if controller == Contract(zk.env.self) {
        live := zk.HasPending(address, now);
      } else {
        live := h.foreignPending;
      }
    }

    method GuardNoPending(now: nat, h: Answers) returns (blocked: bool)
      requires Valid()
      ensures blocked == Blocked(zk.env, Both(), address, now, h)
    {
      if recoveryController.None? {
        return false;
      }
      blocked := HasLivePending(recoveryController.value, now, h);
    }

    method GuardRule(id: nat, now: nat, h: Answers) returns (r: Option<AccountError>)
      requires Valid()
      ensures r == GuardRefusal(zk.env, Both(), address, now, id, h)
    {
      if recoveryId == Some(id) {
        return Some(RecoveryRuleProtected);
      }
      var blocked := GuardNoPending(now, h);
      return if blocked then Some(RecoveryPendingBlocked) else None;
    }

    // ---- entry points ----

    method InstallRecoveryRule(controller: Address, h: Answers) returns (r: Option<AccountError>)
      requires Valid()
      modifies this, zk
      ensures Valid() && Agrees(r, Spec.InstallRecoveryRule(zk.env, old(Both()), address, controller, h))
    {
      hide ZkRecovery.Valid, Spec.OzAddRule;
      var id := nextRuleId;
      r := OzAddRule(CallContract(address), "zk-recovery", None, [], {controller}, h);
      if r.Some? {
        return;
      }
      recoveryId, recoveryController := Some(id), Some(controller);
    }

    method Initialize(signers: seq<Signer>, policies: set<Address>, recovery: Option<Address>, h: Answers)
      returns (r: Option<AccountError>)
      requires Valid() && State() == FRESH_ACCOUNT
      modifies this, zk
      ensures Valid() && Agrees(r, Construct(zk.env, old(zk.State()), address, signers, policies, recovery, h))
    {
      hide ZkRecovery.Valid, Spec.OzAddRule, Spec.InstallRecoveryRule;
      r := OzAddRule(Default, "default", None, signers, policies, h);
      if r.Some? || recovery.None? {
        return;
      }
      r := InstallRecoveryRule(recovery.value, h);
    }

    constructor (address: Address, zk: ZkRecovery)
      ensures this.address == address && this.zk == zk && State() == FRESH_ACCOUNT
    {
      this.address, this.zk := address, zk;
      rules, nextRuleId, recoveryId, recoveryController, removalAt := map[], 0, None, None, None;
    }

    method InitiateRecoveryRuleRemoval(now: U64, h: Answers) returns (r: Option<AccountError>)
      requires Valid()
      modifies this
      ensures Valid() && Agrees(r, Announce(zk.env, old(Both()), address, now, h))
    {
      if recoveryController.None? {
        return Some(NoRecoveryConfigured);
      }
      var live := HasLivePending(recoveryController.value, now, h);
      if live {
        return Some(RecoveryPendingBlocked);
      }
      var at := now + REMOVAL_DELAY_SECS;
      if at >= TWO_64 {
        return Some(ArithmeticOverflow);
      }
      removalAt := Some(at);
      return None;
    }

    method ExecuteRecoveryRuleRemoval(now: U64, h: Answers) returns (r: Option<AccountError>)
      requires Valid()
      modifies this
      ensures Valid() && Agrees(r, Execute(zk.env, old(Both()), address, now, h))
    {
      hide ZkRecovery.Valid;
      if removalAt.None? {
        return Some(RemovalNotAnnounced);
      }
      if now < removalAt.value {
        return Some(RemovalDelayNotElapsed);
      }
      if recoveryController.None? {
        return Some(NoRecoveryConfigured);
      }
      var live := HasLivePending(recoveryController.value, now, h);
      if live {
        return Some(RecoveryPendingBlocked);
      }
      if recoveryId.None? {
        return Some(NoRecoveryConfigured);
      }
      r := OzRemoveRule(recoveryId.value, h);
      if r.Some? {
        return;
      }
      recoveryId, recoveryController, removalAt := None, None, None;
    }

    method AddPolicy(id: nat, policy: Address, h: Answers) returns (r: Option<AccountError>)
      requires Valid()
      modifies this, zk
      ensures Valid() && Agrees(r, OzAddPolicy(zk.env, old(Both()), address, id, policy, h))
    {
      hide ZkRecovery.Valid, Spec.InstallAll;
      if !h.oz || id !in rules {
        return Some(OzRefused);
      }
      var rule := rules[id];
      r := InstallAll(rule, {policy}, h);
      if r.Some? {
        return;
      }
      r := OzSetRule(id, rule.(policies := rule.policies + {policy}), h);
    }

    /** The mutators that the guard stands in front of. */
    method GuardedEdit(now: U64, op: Op, h: Answers) returns (r: Option<AccountError>)
      requires Valid() && h.auth
      requires op.UpdateValidUntil? || op.RemoveContextRule? || op.AddPolicy? || op.RemovePolicy?
      modifies this, zk
      ensures Valid() && Agrees(r, Act(zk.env, old(Both()), address, now, op, h))
    {
      hide ZkRecovery.Valid, Spec.InstallAll, ControllerPending, OzAddPolicy;
      r := GuardRule(op.id, now, h);
      if r.Some? {
        return;
      }
      match op {
        case RemoveContextRule(id) =>
          r := OzRemoveRule(id, h);
        case AddPolicy(id, policy) =>
          r := AddPolicy(id, policy, h);
        case UpdateValidUntil(id, validUntil) =>
          if id !in rules {
            return Some(OzRefused);
          }
          r := OzSetRule(id, rules[id].(validUntil := validUntil), h);
        case RemovePolicy(id, policy) =>
          if id !in rules {
            return Some(OzRefused);
          }
          r := OzSetRule(id, rules[id].(policies := rules[id].policies - {policy}), h);
      }
    }

    /** The mutators that work on one rule without regard to its being the recovery rule. */
    method PlainEdit(now: U64, op: Op, h: Answers) returns (r: Option<AccountError>)
      requires Valid() && h.auth
      requires op.UpdateName? || op.AddSigner? || op.RemoveSigner?
      modifies this
      ensures Valid() && Agrees(r, Act(zk.env, old(Both()), address, now, op, h))
    {
      hide ZkRecovery.Valid, ControllerPending;
      if op.RemoveSigner? {
        var blocked := GuardNoPending(now, h);
        if blocked {
          return Some(RecoveryPendingBlocked);
        }
      }
      if op.id !in rules {
        return Some(OzRefused);
      }
      var rule := rules[op.id];
      match op {
        case UpdateName(id, name) =>
          r := OzSetRule(id, rule.(name := name), h);
        case AddSigner(id, signer) =>
          r := OzSetRule(id, rule.(signers := rule.signers + {signer}), h);
        case RemoveSigner(id, signer) =>
          r := OzSetRule(id, rule.(signers := rule.signers - {signer}), h);
      }
    }

    method Dispatch(now: U64, op: Op, h: Answers) returns (r: Option<AccountError>)
      requires Valid()
      modifies this, zk
      ensures Valid() && Agrees(r, Act(zk.env, old(Both()), address, now, op, h))
    {
      hide ZkRecovery.Valid, Spec.InstallRecoveryRule, Spec.OzAddRule, Announce, Execute;
      if !h.auth {
        return Some(NotAuthorized);
      }
      match op {
        case AddContextRule(contextType, name, validUntil, signers, policies) =>
          r := OzAddRule(contextType, name, validUntil, signers, policies, h);
        case AddMultisigRecovery(name, validUntil, friends, policy) =>
          r := OzAddRule(CallContract(address), name, validUntil, friends, {policy}, h);
        case AnnounceRemoval =>
          r := InitiateRecoveryRuleRemoval(now, h);
        case ExecuteRemoval =>
          r := ExecuteRecoveryRuleRemoval(now, h);
        case Enroll(controller) =>
          if recoveryId.Some? {
            return Some(RecoveryAlreadyEnrolled);
          }
          r := InstallRecoveryRule(controller, h);
        case UpdateName(_, _) =>
          r := PlainEdit(now, op, h);
        case AddSigner(_, _) =>
          r := PlainEdit(now, op, h);
        case RemoveSigner(_, _) =>
          r := PlainEdit(now, op, h);
        case UpdateValidUntil(_, _) =>
          r := GuardedEdit(now, op, h);
        case RemoveContextRule(_) =>
          r := GuardedEdit(now, op, h);
        case AddPolicy(_, _) =>
          r := GuardedEdit(now, op, h);
        case RemovePolicy(_, _) =>
          r := GuardedEdit(now, op, h);
      }
    }

    /** One call as the chain sees it: both contracts as the call leaves them, or as they were. */
    method Invoke(now: U64, op: Op, h: Answers) returns (r: Option<AccountError>)
      requires Valid()
      modifies this, zk
      ensures Valid()
      ensures var spec := Act(zk.env, old(Both()), address, now, op, h);
              if spec.Ok? then r.None? && Both() == spec.value else r == Some(spec.error) && Both() == old(Both())
    {
      hide ZkRecovery.Valid, Act;
      var saved := Account(rules, nextRuleId, recoveryId, recoveryController, removalAt);
      var tables := Tables(
        zk.pendings, zk.nullifiers, zk.nonces, zk.rates, zk.cancels, zk.lastCancel, zk.installed);
      r := Dispatch(now, op, h);
      if r.Some? {
        zk.Restore(tables);
        rules, nextRuleId, removalAt := saved.rules, saved.nextRuleId, saved.removalAt;
        recoveryId, recoveryController := saved.recoveryId, saved.recoveryController;
      }
    }
  }
}
