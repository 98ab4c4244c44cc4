/** What the in-account guard keeps true in every run of the two contracts. */
module RuleProtection {
  import opened Wrappers
  import opened FieldHash
  import opened Recovery
  import opened Accounts
  import opened TwoContracts

  // ---- the stored recovery rule ----

  /** The rule that the account records as its recovery rule is there and has its original shape. */
  ghost predicate RuleIntact(a: Address, acct: Account) {
    && (acct.recoveryId.Some? <==> acct.recoveryController.Some?)
    && (acct.recoveryId.Some? ==>
          var id := acct.recoveryId.value;
          && id in acct.rules
          && acct.rules[id].contextType == CallContract(a)
          && acct.rules[id].policies == {acct.recoveryController.value}
          && acct.rules[id].validUntil == None)
  }

  /** Ids are those of the rules, and the next one is larger than any in use. */
  ghost predicate IdsFresh(acct: Account) {
    forall id :: id in acct.rules ==> acct.rules[id].id == id < acct.nextRuleId
  }

  /** If this contract is the controller then it was installed for exactly the recorded rule. */
  ghost predicate IdsAgree(env: Env, zk: Ledger, a: Address, acct: Account) {
    acct.recoveryController == Some(ZkAddress(env)) && acct.recoveryId.Some? ==>
      a in zk.installed && zk.installed[a] == acct.recoveryId.value
  }

  ghost predicate Guarded(env: Env, zk: Ledger, a: Address, acct: Account) {
    && RuleIntact(a, acct) && IdsFresh(acct) && IdsAgree(env, zk, a, acct)
    && (acct.removalAt.Some? ==> acct.recoveryId.Some?)
  }

  ghost predicate InstalledKept(before: Ledger, after: Ledger) {
    forall a :: a in before.installed ==> a in after.installed && after.installed[a] == before.installed[a]
  }

  /** `Installed` is written once per account and never cleared. */
  lemma InstalledWriteOnce(env: Env, s: Ledger, now: U64, c: Call)
    ensures InstalledKept(s, Step(env, s, now, c))
  {
    hide InitiateRefusal, CancelRefusal, BurnRefusal;
  }

  lemma InstallEffect(env: Env, zk: Ledger, a: Address, rule: ContextRule, policies: set<Address>, h: Answers)
    requires InstallAll(env, zk, a, rule, policies, h).Ok?
    ensures var zk' := InstallAll(env, zk, a, rule, policies, h).value;
            && zk' == zk.(installed := zk'.installed) && InstalledKept(zk, zk')
            && (ZkAddress(env) in policies ==> a in zk'.installed && zk'.installed[a] == rule.id)
  {
  }

  lemma AddRuleGuarded(env: Env, d: Duo, a: Address, contextType: ContextRuleType, name: string,
                       validUntil: Option<nat>, signers: seq<Signer>, policies: set<Address>, h: Answers)
    requires Guarded(env, d.zk, a, d.acct)
    requires OzAddRule(env, d, a, contextType, name, validUntil, signers, policies, h).Ok?
    ensures var d' := OzAddRule(env, d, a, contextType, name, validUntil, signers, policies, h).value;
            && Guarded(env, d'.zk, a, d'.acct)
            && InstalledKept(d.zk, d'.zk) && d'.zk == d.zk.(installed := d'.zk.installed)
            && d'.acct == d.acct.(rules := d'.acct.rules, nextRuleId := d'.acct.nextRuleId)
            && d.acct.nextRuleId in d'.acct.rules
            && d'.acct.rules[d.acct.nextRuleId] ==
                 ContextRule(d.acct.nextRuleId, contextType, name, validUntil, (set s | s in signers), policies)
            && (forall id :: id in d.acct.rules ==> id in d'.acct.rules && d'.acct.rules[id] == d.acct.rules[id])
            && (ZkAddress(env) in policies ==> a in d'.zk.installed && d'.zk.installed[a] == d.acct.nextRuleId)
  {
    hide InstallAll;
    var rule := ContextRule(d.acct.nextRuleId, contextType, name, validUntil, (set s | s in signers), policies);
    InstallEffect(env, d.zk, a, rule, policies, h);
  }

  lemma InstallRuleGuarded(env: Env, d: Duo, a: Address, controller: Address, h: Answers)
    requires Guarded(env, d.zk, a, d.acct) && d.acct.recoveryId.None?
    requires InstallRecoveryRule(env, d, a, controller, h).Ok?
    ensures var d' := InstallRecoveryRule(env, d, a, controller, h).value;
            Guarded(env, d'.zk, a, d'.acct) && InstalledKept(d.zk, d'.zk)
  {
    hide OzAddRule;
    AddRuleGuarded(env, d, a, CallContract(a), "zk-recovery", None, [], {controller}, h);
  }

  lemma SetRuleGuarded(env: Env, d: Duo, a: Address, id: nat, rule: ContextRule, h: Answers)
    requires Guarded(env, d.zk, a, d.acct) && id in d.acct.rules && rule.id == id
    requires d.acct.recoveryId == Some(id) ==>
      var before := d.acct.rules[id];
      rule.contextType == before.contextType && rule.policies == before.policies && rule.validUntil == before.validUntil
    ensures OzSetRule(d, id, rule, h).Ok? ==>
      var d' := OzSetRule(d, id, rule, h).value; d'.zk == d.zk && Guarded(env, d.zk, a, d'.acct)
  {
  }

  lemma AddPolicyGuarded(env: Env, d: Duo, a: Address, id: nat, policy: Address, h: Answers)
    requires Guarded(env, d.zk, a, d.acct) && d.acct.recoveryId != Some(id)
    requires OzAddPolicy(env, d, a, id, policy, h).Ok?
    ensures var d' := OzAddPolicy(env, d, a, id, policy, h).value;
            && Guarded(env, d'.zk, a, d'.acct) && InstalledKept(d.zk, d'.zk)
            && d'.zk == d.zk.(installed := d'.zk.installed)
            && d'.acct == d.acct.(rules := d'.acct.rules)
  {
    hide InstallAll;
    InstallEffect(env, d.zk, a, d.acct.rules[id], {policy}, h);
  }

  // ---- one call on an account ----

  /** No rule is gone, expired or differently policed; signers have only been added. */
  ghost predicate Grows(before: Account, after: Account) {
    forall id :: id in before.rules ==>
      && id in after.rules
      && after.rules[id].contextType == before.rules[id].contextType
      && after.rules[id].policies == before.rules[id].policies
      && after.rules[id].validUntil == before.rules[id].validUntil
      && before.rules[id].signers <= after.rules[id].signers
  }

  /** What every accepted call on an account leaves of the recovery bookkeeping. */
  ghost predicate Preserves(env: Env, d: Duo, a: Address, now: U64, op: Op, h: Answers, d': Duo) {
    && Guarded(env, d'.zk, a, d'.acct)
    && InstalledKept(d.zk, d'.zk)
    && d'.zk == d.zk.(installed := d'.zk.installed)
    && (Blocked(env, d, a, now, h) ==>
          && Grows(d.acct, d'.acct)
          && d'.acct.recoveryController == d.acct.recoveryController && d'.acct.recoveryId == d.acct.recoveryId)
    && (op.AddContextRule? ==>
          && Grows(d.acct, d'.acct)
          && d'.acct.recoveryController == d.acct.recoveryController && d'.acct.recoveryId == d.acct.recoveryId)
    && (d'.acct.recoveryId != d.acct.recoveryId ==>
          (op.Enroll? && d.acct.recoveryId.None?) || (op.ExecuteRemoval? && d'.acct.recoveryId.None?))
    && (op.ExecuteRemoval? ==>
          && d.acct.removalAt.Some? && d.acct.removalAt.value <= now
          && d'.acct.removalAt.None? && !Blocked(env, d, a, now, h))
    && (op.AnnounceRemoval? ==>
          && d.acct.recoveryId.Some? && !Blocked(env, d, a, now, h)
          && d'.acct.removalAt == Some(now + REMOVAL_DELAY_SECS))
    && (!op.ExecuteRemoval? && !op.AnnounceRemoval? ==> d'.acct.removalAt == d.acct.removalAt)
  }

  lemma RuleEditPreserves(env: Env, d: Duo, a: Address, now: U64, op: Op, h: Answers)
    requires Guarded(env, d.zk, a, d.acct) && Accounts.Act(env, d, a, now, op, h).Ok?
    requires op.UpdateName? || op.AddSigner? || op.RemoveSigner?
    ensures Preserves(env, d, a, now, op, h, Accounts.Act(env, d, a, now, op, h).value)
  {
    hide InstallAll, OzAddRule, RuleIntact, IdsAgree;
    var id := op.id;
    assert id in d.acct.rules && d.acct.rules[id].id == id;
    SetRuleGuarded(env, d, a, id, Accounts.Act(env, d, a, now, op, h).value.acct.rules[id], h);
  }

  lemma ProtectedEditPreserves(env: Env, d: Duo, a: Address, now: U64, op: Op, h: Answers)
    requires Guarded(env, d.zk, a, d.acct) && Accounts.Act(env, d, a, now, op, h).Ok?
    requires op.UpdateValidUntil? || op.RemovePolicy? || op.RemoveContextRule?
    ensures Preserves(env, d, a, now, op, h, Accounts.Act(env, d, a, now, op, h).value)
  {
    hide InstallAll, OzAddRule;
  }

  lemma RuleGainPreserves(env: Env, d: Duo, a: Address, now: U64, op: Op, h: Answers)
    requires Guarded(env, d.zk, a, d.acct) && Accounts.Act(env, d, a, now, op, h).Ok?
    requires op.AddContextRule? || op.AddMultisigRecovery? || op.Enroll? || op.AddPolicy?
    ensures Preserves(env, d, a, now, op, h, Accounts.Act(env, d, a, now, op, h).value)
  {
    hide InstallAll, OzAddRule, OzAddPolicy;
    match op
    case AddContextRule(contextType, name, validUntil, signers, policies) =>
      AddRuleGuarded(env, d, a, contextType, name, validUntil, signers, policies, h);
    case AddMultisigRecovery(name, validUntil, friends, policy) =>
      AddRuleGuarded(env, d, a, CallContract(a), name, validUntil, friends, {policy}, h);
    case Enroll(controller) =>
      AddRuleGuarded(env, d, a, CallContract(a), "zk-recovery", None, [], {controller}, h);
      InstallRuleGuarded(env, d, a, controller, h);
    case AddPolicy(id, policy) =>
      AddPolicyGuarded(env, d, a, id, policy, h);
  }

  lemma RemovalPreserves(env: Env, d: Duo, a: Address, now: U64, op: Op, h: Answers)
    requires Guarded(env, d.zk, a, d.acct) && Accounts.Act(env, d, a, now, op, h).Ok?
    requires op.AnnounceRemoval? || op.ExecuteRemoval?
    ensures Preserves(env, d, a, now, op, h, Accounts.Act(env, d, a, now, op, h).value)
  {
    hide InstallAll, OzAddRule;
  }

  lemma ActPreserves(env: Env, d: Duo, a: Address, now: U64, op: Op, h: Answers)
    requires Guarded(env, d.zk, a, d.acct) && Accounts.Act(env, d, a, now, op, h).Ok?
    ensures Preserves(env, d, a, now, op, h, Accounts.Act(env, d, a, now, op, h).value)
  {
    hide Preserves, Guarded, Accounts.Act;
    if op.AnnounceRemoval? || op.ExecuteRemoval? {
      RemovalPreserves(env, d, a, now, op, h);
    } else if op.AddContextRule? || op.AddMultisigRecovery? || op.Enroll? || op.AddPolicy? {
      RuleGainPreserves(env, d, a, now, op, h);
    } else if op.UpdateValidUntil? || op.RemovePolicy? || op.RemoveContextRule? {
      ProtectedEditPreserves(env, d, a, now, op, h);
    } else {
      RuleEditPreserves(env, d, a, now, op, h);
    }
  }

  // ---- one transaction ----

  ghost predicate WorldGuarded(env: Env, w: World) {
    forall a :: a in w.accounts ==> Guarded(env, w.zk, a, w.accounts[a])
  }

  lemma ConstructGuarded(env: Env, zk: Ledger, a: Address, signers: seq<Signer>, policies: set<Address>,
                         recovery: Option<Address>, h: Answers)
    requires Construct(env, zk, a, signers, policies, recovery, h).Ok?
    ensures var d' := Construct(env, zk, a, signers, policies, recovery, h).value;
            Guarded(env, d'.zk, a, d'.acct) && InstalledKept(zk, d'.zk)
  {
    hide OzAddRule, InstallRecoveryRule;
    var d := Duo(zk, FRESH_ACCOUNT);
    AddRuleGuarded(env, d, a, Default, "default", None, signers, policies, h);
    var base := OzAddRule(env, d, a, Default, "default", None, signers, policies, h).value;
    if recovery.Some? {
      InstallRuleGuarded(env, base, a, recovery.value, h);
    }
  }

  /** The state in which the account's own entry point runs: a completion has been consumed first. */
  function EntryState(env: Env, w: World, now: U64, tx: Tx): Duo
    requires !tx.Zk? && tx.account in w.accounts
  {
    var d := Duo(w.zk, w.accounts[tx.account]);
    if tx.Complete? && tx.op.AddContextRule? && tx.ruleId in d.acct.rules then
      var r := EnforcePolicy(env, w.zk, now,
                             Enforce(true, CompletionContext(tx.account, tx.op), d.acct.rules[tx.ruleId], tx.account));
      if r.Ok? then d.(zk := r.value) else d
    else d
  }

  /** An accepted transaction on an existing account is one accepted call of an entry point. */
  lemma PerformIsAct(env: Env, w: World, now: U64, tx: Tx)
    requires (tx.Act? || tx.Complete?) && Perform(env, w, now, tx).Ok?
    ensures tx.account in w.accounts && (tx.Complete? ==> tx.op.AddContextRule?)
    ensures var h := if tx.Complete? then tx.h.(auth := true) else tx.h;
            Perform(env, w, now, tx) == Accounts.Act(env, EntryState(env, w, now, tx), tx.account, now, tx.op, h)
    ensures EntryState(env, w, now, tx).acct == w.accounts[tx.account]
    ensures EntryState(env, w, now, tx).zk.installed == w.zk.installed
    ensures tx.Act? ==> EntryState(env, w, now, tx).zk == w.zk
  {
    hide Accounts.Act;
  }

  lemma PerformGuarded(env: Env, w: World, now: U64, tx: Tx)
    requires WorldGuarded(env, w) && !tx.Zk? && Perform(env, w, now, tx).Ok?
    ensures var d' := Perform(env, w, now, tx).value;
            Guarded(env, d'.zk, tx.account, d'.acct) && InstalledKept(w.zk, d'.zk)
  {
    hide Accounts.Act, CompleteRecovery, Construct, EntryState;
    if tx.Deploy? {
      ConstructGuarded(env, w.zk, tx.account, tx.signers, tx.policies, tx.recovery, tx.h);
    } else {
      PerformIsAct(env, w, now, tx);
      var h := if tx.Complete? then tx.h.(auth := true) else tx.h;
      ActPreserves(env, EntryState(env, w, now, tx), tx.account, now, tx.op, h);
    }
  }

  lemma StepGuarded(env: Env, w: World, now: U64, tx: Tx)
    requires WorldGuarded(env, w)
    ensures WorldGuarded(env, WorldStep(env, w, now, tx))
  {
    hide Step, Perform;
    if tx.Zk? {
      InstalledWriteOnce(env, w.zk, now, tx.call);
    } else if Perform(env, w, now, tx).Ok? {
      PerformGuarded(env, w, now, tx);
    }
  }

  /**
   In every reachable state of the two contracts each account's recovery rule is intact, and a
   controller that is this contract was installed for exactly that rule.
   */
  lemma {:induction false} ReachableGuarded(env: Env, run: seq<TimedTx>, i: nat)
    requires i <= |run|
    ensures WorldGuarded(env, WorldAt(env, run, i))
  {
    if i > 0 {
      ReachableGuarded(env, run, i - 1);
      StepGuarded(env, WorldAt(env, run, i - 1), run[i - 1].now, run[i - 1].tx);
    }
  }

  /** A completion through the recorded rule is never refused for its id. */
  lemma NoRuleMismatch(env: Env, run: seq<TimedTx>, i: nat, a: Address, now: U64, context: Context)
    requires i <= |run| && a in WorldAt(env, run, i).accounts
    requires WorldAt(env, run, i).accounts[a].recoveryController == Some(ZkAddress(env))
    ensures var w := WorldAt(env, run, i);
            var acct := w.accounts[a];
            && acct.recoveryId.Some? && acct.recoveryId.value in acct.rules
            && EnforcePolicy(env, w.zk, now, Enforce(true, context, acct.rules[acct.recoveryId.value], a))
                 !in {Err(RuleMismatch), Err(NotInstalled)}
  {
    hide WorldStep;
    ReachableGuarded(env, run, i);
    assert Guarded(env, WorldAt(env, run, i).zk, a, WorldAt(env, run, i).accounts[a]);
  }

  // ---- enrolling again ----

  lemma {:induction false} InstalledForever(env: Env, run: seq<TimedTx>, i: nat, k: nat)
    requires i <= k <= |run|
    ensures InstalledKept(WorldAt(env, run, i).zk, WorldAt(env, run, k).zk)
  {
    hide Step, Perform;
    if i < k {
      var w, now, tx := WorldAt(env, run, k - 1), run[k - 1].now, run[k - 1].tx;
      InstalledForever(env, run, i, k - 1);
      ReachableGuarded(env, run, k - 1);
      if tx.Zk? {
        InstalledWriteOnce(env, w.zk, now, tx.call);
      } else if Perform(env, w, now, tx).Ok? {
        PerformGuarded(env, w, now, tx);
      }
    }
  }

  /** When an account can enroll: this contract admits an account once only, and otherwise refuses its rule. */
  lemma EnrollsIff(env: Env, d: Duo, a: Address, now: U64, controller: Address, h: Answers)
    ensures var r := Accounts.Act(env, d, a, now, Enroll(controller), h);
            && (r.Ok? <==>
                  && h.auth && h.oz && d.acct.recoveryId.None?
                  && if controller == ZkAddress(env) then a !in d.zk.installed else h.foreignInstalls)
            && (h.auth && h.oz && d.acct.recoveryId.None? && r.Err? ==> r.error == PolicyRefused)
  {
    assert ZkAddress(env) !in {controller} - {ZkAddress(env)};
    if controller != ZkAddress(env) {
      assert controller in {controller} - {ZkAddress(env)};
    }
  }

  /**
   Removal is final: an account that ever had this contract as its recovery controller can enroll with
   another one after the rule's removal, but never with this one again; its rule is then refused.
   */
  lemma NoSecondEnrollment(env: Env, run: seq<TimedTx>, i: nat, k: nat, a: Address, now: U64, h: Answers)
    requires i <= k <= |run|
    requires a in WorldAt(env, run, i).accounts && a in WorldAt(env, run, k).accounts
    requires WorldAt(env, run, i).accounts[a].recoveryController == Some(ZkAddress(env))
    ensures var r := Accounts.Act(env, Duo(WorldAt(env, run, k).zk, WorldAt(env, run, k).accounts[a]), a, now,
                                  Enroll(ZkAddress(env)), h);
            && r.Err?
            && (h.auth && h.oz && WorldAt(env, run, k).accounts[a].recoveryId.None? ==> r.error == PolicyRefused)
  {
    hide WorldStep, Accounts.Act;
    ReachableGuarded(env, run, i);
    assert Guarded(env, WorldAt(env, run, i).zk, a, WorldAt(env, run, i).accounts[a]);
    InstalledForever(env, run, i, k);
    EnrollsIff(env, Duo(WorldAt(env, run, k).zk, WorldAt(env, run, k).accounts[a]), a, now, ZkAddress(env), h);
  }
}
