/**
 What an account's calls do, and exactly when they are accepted, in runs of the two contracts. The state
 of the recovery contract enters by its history only.
 */
module AccountRuns {
  import opened Wrappers
  import opened FieldHash
  import opened Recovery
  import opened Accounts
  import opened TwoContracts
  import opened RuleProtection
  import Runs = RecoveryRuns
  import opened Histories
  import opened Outcomes
  import opened Projection

  // ---- effects ----

  /** All rules but `id` are the same before and after. */
  ghost predicate OthersKept(before: Account, after: Account, id: nat) {
    forall k :: k != id ==>
      && (k in after.rules <==> k in before.rules)
      && (k in before.rules ==> after.rules[k] == before.rules[k])
  }

  /** `rule` is there afterwards, under an id that no rule had. */
  ghost predicate Added(before: Account, after: Account, rule: ContextRule) {
    && rule.id == before.nextRuleId && rule.id !in before.rules && after.nextRuleId == before.nextRuleId + 1
    && rule.id in after.rules && after.rules[rule.id] == rule
    && OthersKept(before, after, rule.id)
  }

  ghost predicate Removed(before: Account, after: Account, id: nat) {
    id in before.rules && id !in after.rules && OthersKept(before, after, id) && after.nextRuleId == before.nextRuleId
  }

  /** One rule is replaced by `rule`. */
  ghost predicate Edited(before: Account, after: Account, id: nat, rule: ContextRule) {
    && id in before.rules && id in after.rules && after.rules[id] == rule
    && OthersKept(before, after, id) && after.nextRuleId == before.nextRuleId
  }

  ghost predicate SameBookkeeping(before: Account, after: Account) {
    && after.recoveryId == before.recoveryId && after.recoveryController == before.recoveryController
    && after.removalAt == before.removalAt
  }

  /** Everything that an accepted call changes of the account, and nothing else. */
  ghost predicate Changes(a: Address, before: Account, after: Account, now: nat, op: Op) {
    match op
    case AddContextRule(contextType, name, validUntil, signers, policies) =>
      SameBookkeeping(before, after) && Added(before, after, ContextRule(
        before.nextRuleId, contextType, name, validUntil, (set s | s in signers), policies))
    case AddMultisigRecovery(name, validUntil, friends, policy) =>
      SameBookkeeping(before, after) && Added(before, after, ContextRule(
        before.nextRuleId, CallContract(a), name, validUntil, (set s | s in friends), {policy}))
    case Enroll(controller) =>
      && Added(before, after, ContextRule(before.nextRuleId, CallContract(a), "zk-recovery", None, {}, {controller}))
      && after.recoveryId == Some(before.nextRuleId) && after.recoveryController == Some(controller)
      && after.removalAt == before.removalAt
    case UpdateName(id, name) =>
      && SameBookkeeping(before, after) && id in before.rules
      && Edited(before, after, id, before.rules[id].(name := name))
    case UpdateValidUntil(id, validUntil) =>
      && SameBookkeeping(before, after) && id in before.rules
      && Edited(before, after, id, before.rules[id].(validUntil := validUntil))
    case AddSigner(id, signer) =>
      && SameBookkeeping(before, after) && id in before.rules
      && Edited(before, after, id, before.rules[id].(signers := before.rules[id].signers + {signer}))
    case RemoveSigner(id, signer) =>
      && SameBookkeeping(before, after) && id in before.rules
      && Edited(before, after, id, before.rules[id].(signers := before.rules[id].signers - {signer}))
    case AddPolicy(id, policy) =>
      && SameBookkeeping(before, after) && id in before.rules
      && Edited(before, after, id, before.rules[id].(policies := before.rules[id].policies + {policy}))
    case RemovePolicy(id, policy) =>
      && SameBookkeeping(before, after) && id in before.rules
      && Edited(before, after, id, before.rules[id].(policies := before.rules[id].policies - {policy}))
    case RemoveContextRule(id) =>
      SameBookkeeping(before, after) && Removed(before, after, id)
    case AnnounceRemoval =>
      after == before.(removalAt := Some(now + 7 * 24 * 3600))
    case ExecuteRemoval =>
      && before.recoveryId.Some? && Removed(before, after, before.recoveryId.value)
      && after.recoveryId == None && after.recoveryController == None && after.removalAt == None
  }

  lemma ActChanges(env: Env, d: Duo, a: Address, now: U64, op: Op, h: Answers)
    requires IdsFresh(d.acct) && Accounts.Act(env, d, a, now, op, h).Ok?
    ensures Changes(a, d.acct, Accounts.Act(env, d, a, now, op, h).value.acct, now, op)
  {
    hide InstallAll;
    assert d.acct.nextRuleId !in d.acct.rules;
  }

  /** The default rule under id 0 and, if a controller was named, the recovery rule under id 1. */
  ghost predicate Fresh(a: Address, after: Account, signers: seq<Signer>, policies: set<Address>,
                        recovery: Option<Address>)
  {
    && 0 in after.rules
    && after.rules[0] == ContextRule(0, Default, "default", None, (set s | s in signers), policies)
    && after.removalAt == None && after.recoveryController == recovery
    && match recovery
       case None => after.rules.Keys == {0} && after.nextRuleId == 1 && after.recoveryId == None
       case Some(controller) =>
         && after.rules.Keys == {0, 1} && after.nextRuleId == 2 && after.recoveryId == Some(1)
         && after.rules[1] == ContextRule(1, CallContract(a), "zk-recovery", None, {}, {controller})
  }

  lemma ConstructChanges(env: Env, zk: Ledger, a: Address, signers: seq<Signer>, policies: set<Address>,
                         recovery: Option<Address>, h: Answers)
    requires Construct(env, zk, a, signers, policies, recovery, h).Ok?
    ensures Fresh(a, Construct(env, zk, a, signers, policies, recovery, h).value.acct, signers, policies, recovery)
  {
    hide InstallAll;
  }

  /**
   One transaction of a run: an accepted one changes its account as `Changes` or `Fresh` says, and no
   other account; any other transaction changes no account.
   */
  lemma TransactionChanges(env: Env, run: seq<TimedTx>, i: nat)
    requires i < |run|
    ensures var before, after, tx := WorldAt(env, run, i).accounts, WorldAt(env, run, i + 1).accounts, run[i].tx;
            if tx.Zk? || !Accepted(env, run, i) then after == before
            else
              && after.Keys == before.Keys + {tx.account}
              && (forall b :: b in before && b != tx.account ==> after[b] == before[b])
              && (if tx.Deploy? then
                    tx.account !in before && Fresh(tx.account, after[tx.account], tx.signers, tx.policies, tx.recovery)
                  else
                    tx.account in before && Changes(tx.account, before[tx.account], after[tx.account], run[i].now, tx.op))
  {
    hide Step, Apply, Accounts.Act, Construct, EntryState, Changes, Fresh;
    var w, now, tx := WorldAt(env, run, i), run[i].now, run[i].tx;
    ReachableGuarded(env, run, i);
    if !tx.Zk? && Accepted(env, run, i) {
      if tx.Deploy? {
        ConstructChanges(env, w.zk, tx.account, tx.signers, tx.policies, tx.recovery, tx.h);
      } else {
        PerformIsAct(env, w, now, tx);
        assert Guarded(env, w.zk, tx.account, w.accounts[tx.account]);
        ActChanges(env, EntryState(env, w, now, tx), tx.account, now, tx.op,
                   if tx.Complete? then tx.h.(auth := true) else tx.h);
      }
    }
  }

  // ---- acceptance ----

  /** What the account's controller reports: for this contract, an open recovery that has not run out. */
  ghost predicate Reported(env: Env, run: seq<TimedTx>, n: nat, a: Address, now: nat, h: Answers)
    requires n <= |run| && a in WorldAt(env, run, n).accounts
  {
    var controller := WorldAt(env, run, n).accounts[a].recoveryController;
    controller.Some? &&
      if controller.value == Contract(env.self) then OpenUntil(env, Projected(env, run), n, a, now) else h.foreignPending
  }

  /** The guard blocks exactly while the controller reports a recovery; one that has run out never blocks. */
  lemma GuardBlocksIff(env: Env, run: seq<TimedTx>, n: nat, a: Address, now: nat, h: Answers)
    requires n <= |run| && a in WorldAt(env, run, n).accounts
    ensures Blocked(env, Duo(WorldAt(env, run, n).zk, WorldAt(env, run, n).accounts[a]), a, now, h)
       <==> Reported(env, run, n, a, now, h)
  {
    hide WorldAt, Projected, OpenUntil, Live;
    RunProjects(env, run, n);
    HasPendingIff(env, Projected(env, run), n, a, now);
  }

  /** Some policy of a rule refuses: this contract does unless it is new to the account and the rule fits it. */
  ghost predicate Refused(env: Env, run: seq<TimedTx>, n: nat, a: Address, contextType: ContextRuleType,
                          signers: set<Signer>, policies: set<Address>, h: Answers)
  {
    var ours := Contract(env.self);
    || (ours in policies && (Known(env, Projected(env, run), n, a) || signers != {} || contextType != CallContract(a)))
    || (policies - {ours} != {} && !h.foreignInstalls)
  }

  lemma RefusedIff(env: Env, run: seq<TimedTx>, n: nat, a: Address, rule: ContextRule, policies: set<Address>, h: Answers)
    requires n <= |run|
    ensures InstallAll(env, WorldAt(env, run, n).zk, a, rule, policies, h).Err?
       <==> Refused(env, run, n, a, rule.contextType, rule.signers, policies, h)
    ensures InstallAll(env, WorldAt(env, run, n).zk, a, rule, policies, h).Err? ==>
            InstallAll(env, WorldAt(env, run, n).zk, a, rule, policies, h).error == PolicyRefused
  {
    hide WorldAt, Projected, Known;
    RunProjects(env, run, n);
    KnownIff(env, Projected(env, run), n, a);
  }

  ghost function AddOutcome(env: Env, run: seq<TimedTx>, n: nat, a: Address, contextType: ContextRuleType,
                            signers: set<Signer>, policies: set<Address>, h: Answers): Option<AccountError>
  {
    if !h.oz then Some(OzRefused)
    else if Refused(env, run, n, a, contextType, signers, policies, h) then Some(PolicyRefused)
    else None
  }

  ghost function GuardedOutcome(env: Env, run: seq<TimedTx>, n: nat, a: Address, now: nat, id: nat, h: Answers)
    : Option<AccountError>
    requires n <= |run| && a in WorldAt(env, run, n).accounts
  {
    var acct := WorldAt(env, run, n).accounts[a];
    if acct.recoveryId == Some(id) then Some(RecoveryRuleProtected)
    else if Reported(env, run, n, a, now, h) then Some(RecoveryPendingBlocked)
    else if !h.oz || id !in acct.rules then Some(OzRefused)
    else None
  }

  /** The error with which an account's call aborts after a run, if it does. */
  ghost function ActOutcome(env: Env, run: seq<TimedTx>, n: nat, a: Address, now: nat, op: Op, h: Answers)
    : Option<AccountError>
    requires n <= |run| && a in WorldAt(env, run, n).accounts
  {
    var acct := WorldAt(env, run, n).accounts[a];
    if !h.auth then Some(NotAuthorized)
    else
      match op
      case AddContextRule(contextType, _, _, signers, policies) =>
        AddOutcome(env, run, n, a, contextType, (set s | s in signers), policies, h)
      case AddMultisigRecovery(_, _, friends, policy) =>
        AddOutcome(env, run, n, a, CallContract(a), (set s | s in friends), {policy}, h)
      case Enroll(controller) =>
        if acct.recoveryId.Some? then Some(RecoveryAlreadyEnrolled)
        else AddOutcome(env, run, n, a, CallContract(a), {}, {controller}, h)
      case UpdateName(id, _) => if !h.oz || id !in acct.rules then Some(OzRefused) else None
      case AddSigner(id, _) => if !h.oz || id !in acct.rules then Some(OzRefused) else None
      case RemoveSigner(id, _) =>
        if Reported(env, run, n, a, now, h) then Some(RecoveryPendingBlocked)
        else if !h.oz || id !in acct.rules then Some(OzRefused)
        else None
      case UpdateValidUntil(id, _) => GuardedOutcome(env, run, n, a, now, id, h)
      case RemoveContextRule(id) => GuardedOutcome(env, run, n, a, now, id, h)
      case RemovePolicy(id, _) => GuardedOutcome(env, run, n, a, now, id, h)
      case AddPolicy(id, policy) =>
        var guarded := GuardedOutcome(env, run, n, a, now, id, h);
        if guarded.Some? then guarded
        else if Refused(env, run, n, a, acct.rules[id].contextType, acct.rules[id].signers, {policy}, h) then
          Some(PolicyRefused)
        else None
      case AnnounceRemoval =>
        if acct.recoveryController.None? then Some(NoRecoveryConfigured)
        else if Reported(env, run, n, a, now, h) then Some(RecoveryPendingBlocked)
        else if now + 7 * 24 * 3600 >= 0x1_0000_0000_0000_0000 then Some(ArithmeticOverflow)
        else None
      case ExecuteRemoval =>
        if acct.removalAt.None? then Some(RemovalNotAnnounced)
        else if now < acct.removalAt.value then Some(RemovalDelayNotElapsed)
        else if Reported(env, run, n, a, now, h) then Some(RecoveryPendingBlocked)
        else if !h.oz then Some(OzRefused)
        else None
  }

  /** The specified call aborts in exactly those cases, and with those errors. */
  lemma ActsAsSaid(env: Env, run: seq<TimedTx>, n: nat, a: Address, now: U64, op: Op, h: Answers)
    requires n <= |run| && a in WorldAt(env, run, n).accounts
    ensures var r := Accounts.Act(env, Duo(WorldAt(env, run, n).zk, WorldAt(env, run, n).accounts[a]), a, now, op, h);
            ActOutcome(env, run, n, a, now, op, h) == if r.Err? then Some(r.error) else None
  {
    hide WorldAt, InstallAll, Blocked, Reported, Refused, IdsFresh, IdsAgree;
    var zk, acct := WorldAt(env, run, n).zk, WorldAt(env, run, n).accounts[a];
    GuardBlocksIff(env, run, n, a, now, h);
    match op {
      case AddContextRule(contextType, name, validUntil, signers, policies) =>
        RefusedIff(env, run, n, a,
                   ContextRule(acct.nextRuleId, contextType, name, validUntil, (set s | s in signers), policies),
                   policies, h);
      case AddMultisigRecovery(name, validUntil, friends, policy) =>
        RefusedIff(env, run, n, a,
                   ContextRule(acct.nextRuleId, CallContract(a), name, validUntil, (set s | s in friends), {policy}),
                   {policy}, h);
      case Enroll(controller) =>
        var none: seq<Signer> := [];
        assert (set s | s in none) == {};
        RefusedIff(env, run, n, a, ContextRule(acct.nextRuleId, CallContract(a), "zk-recovery", None, {}, {controller}),
                   {controller}, h);
      case AddPolicy(id, policy) =>
        if id in acct.rules {
          RefusedIff(env, run, n, a, acct.rules[id], {policy}, h);
        }
      case ExecuteRemoval =>
        ReachableGuarded(env, run, n);
        assert Guarded(env, zk, a, acct);
      case _ =>
    }
  }

  /** Deployment needs a new address, and every policy's consent: this contract's for the recovery rule only. */
  lemma DeploysIff(env: Env, run: seq<TimedTx>, n: nat, now: U64, tx: Tx)
    requires n <= |run| && tx.Deploy?
    ensures Perform(env, WorldAt(env, run, n), now, tx).Ok? <==>
            && tx.account !in WorldAt(env, run, n).accounts && tx.h.oz
            && Contract(env.self) !in tx.policies && (tx.policies != {} ==> tx.h.foreignInstalls)
            && (tx.recovery == Some(Contract(env.self)) ==> !Known(env, Projected(env, run), n, tx.account))
            && (tx.recovery.Some? && tx.recovery != Some(Contract(env.self)) ==> tx.h.foreignInstalls)
  {
    hide WorldAt, InstallAll, Known, Projected;
    var zk, a, ours := WorldAt(env, run, n).zk, tx.account, Contract(env.self);
    var rule := ContextRule(0, Default, "default", None, (set s | s in tx.signers), tx.policies);
    RefusedIff(env, run, n, a, rule, tx.policies, tx.h);
    assert ours !in tx.policies ==> tx.policies - {ours} == tx.policies;
    if !InstallAll(env, zk, a, rule, tx.policies, tx.h).Err? {
      InstallAllLedger(env, zk, a, rule, tx.policies, tx.h);
      if tx.recovery.Some? {
        var none: seq<Signer>, controller := [], tx.recovery.value;
        assert (set s | s in none) == {};
        assert {controller} - {ours} == if controller == ours then {} else {controller};
        RefusedIff(env, run, n, a, ContextRule(1, CallContract(a), "zk-recovery", None, {}, {controller}),
                   {controller}, tx.h);
      }
    }
  }

  /** The addition is that of the open recovery's key, alone and without policies. */
  ghost predicate AddsOpenKey(env: Env, run: seq<TimedTx>, n: nat, a: Address, op: Op)
    requires op.AddContextRule?
  {
    && op.policies == {}
    && exists j: nat ::
         && OpenAt(env, Projected(env, run), n, a, j)
         && op.signers == [External(env.cfg.webauthnVerifier, Projected(env, run)[j].call.newPubkey)]
  }

  /**
   A completion goes through exactly when it adds the open recovery's key, inside the window, through a
   rule of the account that has this contract as a policy and was installed with it.
   */
  lemma CompletesIff(env: Env, run: seq<TimedTx>, n: nat, now: U64, tx: Tx)
    requires n <= |run| && tx.Complete?
    ensures Perform(env, WorldAt(env, run, n), now, tx).Ok? <==>
            && tx.op.AddContextRule? && tx.account in WorldAt(env, run, n).accounts && tx.h.oz
            && var a, rules, calls := tx.account, WorldAt(env, run, n).accounts[tx.account].rules, Projected(env, run);
               && tx.ruleId in rules && Contract(env.self) in rules[tx.ruleId].policies
               && InstalledAs(env, calls, n, a, tx.ruleId)
               && Executable(env, calls, n, a, now) && OpenUntil(env, calls, n, a, now)
               && AddsOpenKey(env, run, n, a, tx.op)
  {
    hide WorldAt, EnforcePolicy, Projected, Known, InstalledAs, Executable, OpenUntil, OpenAt, InstallAll;
    var w, a, calls := WorldAt(env, run, n), tx.account, Projected(env, run);
    if tx.op.AddContextRule? && a in w.accounts && tx.ruleId in w.accounts[a].rules {
      ReachableGuarded(env, run, n);
      assert Guarded(env, w.zk, a, w.accounts[a]);
      RunProjects(env, run, n);
      EnforceOutcome(env, calls, n, now,
                     Enforce(true, CompletionContext(a, tx.op), w.accounts[a].rules[tx.ruleId], a));
      OpenImpliesAll(env, run, n, now, tx);
      var rule := w.accounts[a].rules[tx.ruleId];
      if ZkAddress(env) in rule.policies
         && EnforcePolicy(env, w.zk, now, Enforce(true, CompletionContext(a, tx.op), rule, a)).Ok? {
        NothingToInstall(env, w, now, tx);
      }
    }
  }

  lemma OpenImpliesAll(env: Env, run: seq<TimedTx>, n: nat, now: U64, tx: Tx)
    requires n <= |run| && tx.Complete? && tx.op.AddContextRule?
    ensures var a, calls := tx.account, Projected(env, run);
            && (RotatesOpen(env, calls, n, a, CompletionContext(a, tx.op)) <==> AddsOpenKey(env, run, n, a, tx.op))
            && (OpenUntil(env, calls, n, a, now) ==> HasOpen(env, calls, n, a))
            && (InstalledAs(env, calls, n, a, tx.ruleId) ==> Known(env, calls, n, a))
  {
    hide Projected, InstalledAs, Runs.Accepted, Runs.Disturbs;
  }

  /** Without policies an addition is refused only by the rule function itself. */
  lemma NothingToInstall(env: Env, w: World, now: U64, tx: Tx)
    requires tx.Complete? && tx.op.AddContextRule? && tx.account in w.accounts && tx.ruleId in w.accounts[tx.account].rules
    requires ZkAddress(env) in w.accounts[tx.account].rules[tx.ruleId].policies
    requires EnforcePolicy(env, w.zk, now, Enforce(true, CompletionContext(tx.account, tx.op),
                                                   w.accounts[tx.account].rules[tx.ruleId], tx.account)).Ok?
    ensures Perform(env, w, now, tx).Ok? <==> tx.h.oz
  {
  }
}
