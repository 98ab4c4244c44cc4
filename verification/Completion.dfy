/** Completing a recovery, through an account's rule or by `enforce` alone, in runs of the two contracts. */
module Completion {
  import opened Wrappers
  import opened Bytes
  import opened FieldHash
  import opened Recovery
  import Runs = RecoveryRuns
  import Life = NullifierLife
  import opened Accounts
  import opened TwoContracts
  import opened RuleProtection
  import opened Projection
  import opened WorldRuns

  /**
   End to end: an accepted `Complete` transaction adds, under a fresh id, one rule whose only signer is the key of
   an accepted earlier initiation for that account, inside that initiation's window, and takes nothing away.
   */
  lemma CompletionInstallsProvenKey(env: Env, run: seq<TimedTx>, i: nat) returns (j: nat)
    requires i < |run| && run[i].tx.Complete? && Accepted(env, run, i)
    ensures var a := run[i].tx.account;
            && j < i && run[j].tx.Zk? && run[j].tx.call.Initiate? && run[j].tx.call.account == a
            && Accepted(env, run, j)
            && run[j].now + env.cfg.delaySecs <= run[i].now
            && run[i].now < run[j].now + env.cfg.delaySecs + env.cfg.completionWindowSecs
            && a in WorldAt(env, run, i).accounts && a in WorldAt(env, run, i + 1).accounts
            && var before, after := WorldAt(env, run, i).accounts[a], WorldAt(env, run, i + 1).accounts[a];
            && Grows(before, after)
            && before.nextRuleId !in before.rules && before.nextRuleId in after.rules
            && after.rules[before.nextRuleId].policies == {}
            && after.rules[before.nextRuleId].signers ==
                 {External(env.cfg.webauthnVerifier, run[j].tx.call.newPubkey)}
            && a !in WorldAt(env, run, i + 1).zk.pendings
    ensures forall k :: j < k < i ==> !Disturbs(env, run, k, run[i].tx.account, run[j].tx.call.nullifier)
  {
    hide Step, Apply, Accounts.Act, Construct;
    var w, now, tx := WorldAt(env, run, i), run[i].now, run[i].tx;
    ReachableGuarded(env, run, i);
    assert Guarded(env, w.zk, tx.account, w.accounts[tx.account]);
    CompletionStep(env, w, now, tx);
    j := PendingHasOrigin(env, run, i, tx.account);
  }

  lemma CompletionStep(env: Env, w: World, now: U64, tx: Tx)
    requires tx.Complete? && Perform(env, w, now, tx).Ok? && tx.account in w.accounts
    requires Guarded(env, w.zk, tx.account, w.accounts[tx.account])
    ensures tx.account in w.zk.pendings
    ensures var p, d' := w.zk.pendings[tx.account], Perform(env, w, now, tx).value;
            var before := w.accounts[tx.account];
            && p.executableAfter <= now < p.expiresAt
            && Grows(before, d'.acct)
            && before.nextRuleId !in before.rules && before.nextRuleId in d'.acct.rules
            && d'.acct.rules[before.nextRuleId].policies == {}
            && d'.acct.rules[before.nextRuleId].signers == {External(env.cfg.webauthnVerifier, p.newPubkey)}
            && tx.account !in d'.zk.pendings
  {
    hide InstallAll;
    var a := tx.account;
    var d := EntryState(env, w, now, tx);
    PerformIsAct(env, w, now, tx);
    assert tx.op.signers == [External(env.cfg.webauthnVerifier, w.zk.pendings[a].newPubkey)] && tx.op.policies == {};
    AddRuleGuarded(env, d, a, tx.op.contextType, tx.op.name, tx.op.validUntil, tx.op.signers, tx.op.policies,
                   tx.h.(auth := true));
  }

  /**
   Completion is available: on an account guarded by this contract, inside the window, the recorded
   rule authorises an `add_context_rule` exactly when it adds the proven key alone and no policy.
   */
  lemma GuardedRecoveryCanComplete(env: Env, run: seq<TimedTx>, i: nat, now: U64, tx: Tx)
    requires i <= |run| && tx.Complete? && tx.op.AddContextRule? && tx.h.oz
    requires var w := WorldAt(env, run, i);
             && tx.account in w.accounts
             && w.accounts[tx.account].recoveryController == Some(ZkAddress(env))
             && w.accounts[tx.account].recoveryId == Some(tx.ruleId)
             && tx.account in w.zk.pendings
             && w.zk.pendings[tx.account].executableAfter <= now < w.zk.pendings[tx.account].expiresAt
    ensures var w := WorldAt(env, run, i);
            Perform(env, w, now, tx).Ok? <==>
              && tx.op.signers == [External(env.cfg.webauthnVerifier, w.zk.pendings[tx.account].newPubkey)]
              && tx.op.policies == {}
  {
    hide WorldStep;
    ReachableGuarded(env, run, i);
    assert Guarded(env, WorldAt(env, run, i).zk, tx.account, WorldAt(env, run, i).accounts[tx.account]);
  }

  // ---- `enforce` inside and outside a completion ----

  /** An `enforce` for `a` was accepted: by the policy check of a completion, or as a call of its own. */
  ghost predicate Enforced(env: Env, run: seq<TimedTx>, i: nat, a: Address) {
    && i < |run| && Accepted(env, run, i)
    && var tx := run[i].tx;
       if tx.Zk? then tx.call.Enforce? && tx.call.account == a else tx.Complete? && tx.account == a
  }

  /** The account has a rule that it had not before, for exactly this key and without policies. */
  ghost predicate InstallsKey(env: Env, before: World, after: World, a: Address, pubkey: Bytes65) {
    && a in before.accounts && a in after.accounts
    && exists id ::
         && id in after.accounts[a].rules && id !in before.accounts[a].rules
         && after.accounts[a].rules[id].signers == {External(env.cfg.webauthnVerifier, pubkey)}
         && after.accounts[a].rules[id].policies == {}
  }

  /** A call to the recovery contract alone changes no account. */
  lemma LedgerCallChangesNoAccount(env: Env, w: World, now: U64, tx: Tx)
    requires tx.Zk?
    ensures WorldStep(env, w, now, tx).accounts == w.accounts
  {
  }

  lemma EnforcedProjects(env: Env, run: seq<TimedTx>, i: nat, a: Address)
    requires Enforced(env, run, i, a)
    ensures Runs.Accepted(env, Projected(env, run), i)
    ensures Projected(env, run)[i].call.Enforce? && Projected(env, run)[i].call.account == a
    ensures Projected(env, run)[i].now == run[i].now
  {
    hide Projected, Accepted, Runs.Accepted;
    CallProjects(env, run, i);
  }

  /** Every accepted `enforce` consumes a record that an earlier initiation opened, inside its window. */
  lemma EnforceConsumes(env: Env, run: seq<TimedTx>, i: nat, a: Address) returns (j: nat)
    requires Enforced(env, run, i, a)
    ensures a in WorldAt(env, run, i).zk.pendings
    ensures j < i && Opened(env, run, j, a, WorldAt(env, run, i).zk.pendings[a])
    ensures run[j].now + env.cfg.delaySecs <= run[i].now
    ensures run[i].now < run[j].now + env.cfg.delaySecs + env.cfg.completionWindowSecs
    ensures forall k :: j < k < i ==> !Disturbs(env, run, k, a, run[j].tx.call.nullifier)
    ensures a !in WorldAt(env, run, i + 1).zk.pendings
    ensures Life.SpentIn(WorldAt(env, run, i + 1).zk, run[j].tx.call.nullifier)
  {
    hide Projected, Accepted, WorldStep, Step, Apply, Runs.At, LedgerCall, Disturbs;
    var calls := Projected(env, run);
    EnforcedProjects(env, run, i, a);
    RunProjects(env, run, i);
    RunProjects(env, run, i + 1);
    Runs.RunStep(env, calls, i);
    j := PendingHasOrigin(env, run, i, a);
  }

  /**
   An accepted `enforce` for an account adds the proven key to it if and only if it arrived as the
   policy check of a completion. On its own it consumes the record just the same, and changes no account.
   */
  lemma EnforceInstallsKeyIffCompletion(env: Env, run: seq<TimedTx>, i: nat, a: Address) returns (j: nat)
    requires Enforced(env, run, i, a)
    ensures j < i && Opened(env, run, j, a, WorldAt(env, run, i).zk.pendings[a])
    ensures a !in WorldAt(env, run, i + 1).zk.pendings
    ensures Life.SpentIn(WorldAt(env, run, i + 1).zk, run[j].tx.call.nullifier)
    ensures InstallsKey(env, WorldAt(env, run, i), WorldAt(env, run, i + 1), a, run[j].tx.call.newPubkey)
       <==> run[i].tx.Complete?
    ensures run[i].tx.Zk? ==> WorldAt(env, run, i + 1).accounts == WorldAt(env, run, i).accounts
  {
    hide Projected, Step, Apply, Perform, Disturbs, Grows;
    var w, now, tx := WorldAt(env, run, i), run[i].now, run[i].tx;
    j := EnforceConsumes(env, run, i, a);
    if tx.Zk? {
      LedgerCallChangesNoAccount(env, w, now, tx);
    } else {
      ReachableGuarded(env, run, i);
      PerformIsAct(env, w, now, tx);
      assert Guarded(env, w.zk, a, w.accounts[a]);
      CompletionStep(env, w, now, tx);
    }
  }

  /** The one call that an `enforce` of `p` on its own must name to be accepted. */
  function RotationContext(env: Env, a: Address, p: Pending): Context {
    ContractCall(a, "add_context_rule",
                 [OtherVal, OtherVal, OtherVal,
                  SignerVec([External(env.cfg.webauthnVerifier, p.newPubkey)]), PolicyMap({})])
  }

  /**
   The case is there: inside the window, on any account for which this contract was ever installed, an
   `enforce` under the account's auth that names the rotation and the installed id is accepted as a call
   of its own. The record is gone and its nullifier spent, and no account has changed.
   */
  lemma EnforceAloneIsAccepted(env: Env, w: World, now: U64, a: Address, rule: ContextRule)
    requires a in w.zk.installed && rule.id == w.zk.installed[a]
    requires a in w.zk.pendings && w.zk.pendings[a].executableAfter <= now < w.zk.pendings[a].expiresAt
    ensures var p := w.zk.pendings[a];
            var c := Enforce(true, RotationContext(env, a, p), rule, a);
            var after := WorldStep(env, w, now, Zk(c));
            && Apply(env, w.zk, now, c).Ok?
            && after.accounts == w.accounts
            && a !in after.zk.pendings && Life.SpentIn(after.zk, p.nullifier)
  {
  }
}
