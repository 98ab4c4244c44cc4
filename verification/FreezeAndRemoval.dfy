/** Runs of the two contracts: the freeze under a live recovery, and removal of the recovery rule. */
module FreezeAndRemoval {
  import opened Wrappers
  import opened FieldHash
  import opened Recovery
  import opened Accounts
  import opened TwoContracts
  import opened RuleProtection

  /** `a` relies on this contract and has a recovery running. */
  ghost predicate Frozen(env: Env, w: World, a: Address, now: nat) {
    && a in w.accounts
    && w.accounts[a].recoveryController == Some(ZkAddress(env))
    && Live(w.zk, a, now)
  }

  /** The refusing guard is down for `a` at a call made with answers `h`. */
  ghost predicate Unblocked(env: Env, w: World, a: Address, now: nat, h: Answers) {
    && a in w.accounts
    && !Blocked(env, Duo(w.zk, w.accounts[a]), a, now, h)
  }

  ghost predicate IsRemovalStep(env: Env, run: seq<TimedTx>, i: nat, a: Address, announce: bool) {
    && i < |run| && run[i].tx.Act? && run[i].tx.account == a && Accepted(env, run, i)
    && (if announce then run[i].tx.op.AnnounceRemoval? else run[i].tx.op.ExecuteRemoval?)
    && Unblocked(env, WorldAt(env, run, i), a, run[i].now, run[i].tx.h)
  }

  /** How an account may change in one transaction, by what the transaction was. */
  ghost predicate Evolves(before: Account, after: Account, now: nat, frozen: bool, executed: bool, announced: bool) {
    && (frozen ==> Grows(before, after) && after.recoveryController == before.recoveryController)
    && (after.recoveryId != before.recoveryId && before.recoveryId.Some? ==>
          && executed && after.removalAt.None?
          && before.removalAt.Some? && before.removalAt.value <= now)
    && (after.removalAt != before.removalAt && after.removalAt.Some? ==>
          && announced && after.removalAt == Some(now + REMOVAL_DELAY_SECS)
          && after.recoveryId == before.recoveryId)
  }

  lemma PreservesEvolves(env: Env, d: Duo, a: Address, now: U64, op: Op, h: Answers, d': Duo,
                         frozen: bool, executed: bool, announced: bool)
    requires Preserves(env, d, a, now, op, h, d')
    requires frozen ==> Blocked(env, d, a, now, h) || op.AddContextRule?
    requires op.ExecuteRemoval? && !Blocked(env, d, a, now, h) ==> executed
    requires op.AnnounceRemoval? && !Blocked(env, d, a, now, h) ==> announced
    ensures Evolves(d.acct, d'.acct, now, frozen, executed, announced)
  {
    hide Guarded, Blocked, Grows;
  }

  lemma AccountStep(env: Env, run: seq<TimedTx>, i: nat, a: Address)
    requires i < |run| && a in WorldAt(env, run, i).accounts
    ensures a in WorldAt(env, run, i + 1).accounts
    ensures Evolves(WorldAt(env, run, i).accounts[a], WorldAt(env, run, i + 1).accounts[a], run[i].now,
                    Frozen(env, WorldAt(env, run, i), a, run[i].now),
                    IsRemovalStep(env, run, i, a, false), IsRemovalStep(env, run, i, a, true))
  {
    hide Step, Apply, Perform, EntryState, Preserves;
    var w, now, tx := WorldAt(env, run, i), run[i].now, run[i].tx;
    ReachableGuarded(env, run, i);
    assert Guarded(env, w.zk, a, w.accounts[a]);
    if !tx.Zk? && tx.account == a && Perform(env, w, now, tx).Ok? {
      if tx.Deploy? {
        DeployElsewhere(env, w, now, tx);
      } else {
        PerformIsAct(env, w, now, tx);
        var d, h := EntryState(env, w, now, tx), if tx.Complete? then tx.h.(auth := true) else tx.h;
        ActPreserves(env, d, a, now, tx.op, h);
        PreservesEvolves(env, d, a, now, tx.op, h, Perform(env, w, now, tx).value,
                         Frozen(env, w, a, now), IsRemovalStep(env, run, i, a, false), IsRemovalStep(env, run, i, a, true));
      }
    }
  }

  lemma DeployElsewhere(env: Env, w: World, now: U64, tx: Tx)
    requires tx.Deploy? && tx.account in w.accounts
    ensures Perform(env, w, now, tx).Err?
  {
  }

  // ---- freeze ----

  lemma GrowsTransitive(x: Account, y: Account, z: Account)
    requires Grows(x, y) && Grows(y, z)
    ensures Grows(x, z)
  {
  }

  /**
   While a recovery of the account runs, transaction by transaction, none of its rules is removed,
   expired or given another policy, and no signer is lost.
   */
  lemma {:induction false} LiveRecoveryFreezesAccount(env: Env, run: seq<TimedTx>, i: nat, k: nat, a: Address)
    requires i <= k <= |run|
    requires a in WorldAt(env, run, i).accounts
    requires forall m :: i <= m < k ==> Live(WorldAt(env, run, m).zk, a, run[m].now)
    requires WorldAt(env, run, i).accounts[a].recoveryController == Some(ZkAddress(env))
    ensures a in WorldAt(env, run, k).accounts
    ensures WorldAt(env, run, k).accounts[a].recoveryController == Some(ZkAddress(env))
    ensures Grows(WorldAt(env, run, i).accounts[a], WorldAt(env, run, k).accounts[a])
  {
    hide WorldStep, IsRemovalStep, Live;
    if i < k {
      LiveRecoveryFreezesAccount(env, run, i, k - 1, a);
      AccountStep(env, run, k - 1, a);
      GrowsTransitive(WorldAt(env, run, i).accounts[a], WorldAt(env, run, k - 1).accounts[a],
                      WorldAt(env, run, k).accounts[a]);
    }
  }

  // ---- removal ----

  /** A standing announcement was made for the rule that is still recorded, with no recovery running. */
  lemma {:induction false} AnnouncementHasOrigin(env: Env, run: seq<TimedTx>, n: nat, a: Address) returns (j: nat)
    requires n <= |run| && a in WorldAt(env, run, n).accounts
    requires WorldAt(env, run, n).accounts[a].removalAt.Some?
    ensures j < n && IsRemovalStep(env, run, j, a, true)
    ensures a in WorldAt(env, run, j).accounts
    ensures WorldAt(env, run, n).accounts[a].removalAt == Some(run[j].now + REMOVAL_DELAY_SECS)
    ensures WorldAt(env, run, j).accounts[a].recoveryId == WorldAt(env, run, n).accounts[a].recoveryId
    ensures WorldAt(env, run, n).accounts[a].recoveryId.Some?
  {
    hide Perform, IsRemovalStep, Blocked;
    ReachableGuarded(env, run, n);
    assert Guarded(env, WorldAt(env, run, n).zk, a, WorldAt(env, run, n).accounts[a]);
    if a !in WorldAt(env, run, n - 1).accounts {
      NewAccountUnannounced(env, run, n, a);
    } else {
      AccountStep(env, run, n - 1, a);
      ReachableGuarded(env, run, n - 1);
      assert Guarded(env, WorldAt(env, run, n - 1).zk, a, WorldAt(env, run, n - 1).accounts[a]);
      if WorldAt(env, run, n - 1).accounts[a].removalAt == WorldAt(env, run, n).accounts[a].removalAt {
        j := AnnouncementHasOrigin(env, run, n - 1, a);
      } else {
        j := n - 1;
      }
    }
  }

  lemma NewAccountUnannounced(env: Env, run: seq<TimedTx>, n: nat, a: Address)
    requires 0 < n <= |run| && a in WorldAt(env, run, n).accounts && a !in WorldAt(env, run, n - 1).accounts
    ensures WorldAt(env, run, n).accounts[a].removalAt.None?
  {
    hide InstallAll, Step;
  }

  /**
   The recorded recovery rule goes away only by `execute_recovery_rule_removal`, at least seven days
   after an announcement made for that same rule, and with no live recovery at either call.
   */
  lemma RecoveryRuleRemovedOnlyByProcedure(env: Env, run: seq<TimedTx>, i: nat, a: Address, id: nat)
    returns (j: nat)
    requires i < |run| && a in WorldAt(env, run, i).accounts
    requires WorldAt(env, run, i).accounts[a].recoveryId == Some(id)
    requires a in WorldAt(env, run, i + 1).accounts ==> id !in WorldAt(env, run, i + 1).accounts[a].rules
    ensures IsRemovalStep(env, run, i, a, false)
    ensures j < i && IsRemovalStep(env, run, j, a, true) && run[j].now + REMOVAL_DELAY_SECS <= run[i].now
    ensures a in WorldAt(env, run, j).accounts && WorldAt(env, run, j).accounts[a].recoveryId == Some(id)
  {
    hide WorldStep, IsRemovalStep;
    AccountStep(env, run, i, a);
    ReachableGuarded(env, run, i + 1);
    assert Guarded(env, WorldAt(env, run, i + 1).zk, a, WorldAt(env, run, i + 1).accounts[a]);
    j := AnnouncementHasOrigin(env, run, i, a);
  }

  // ---- removal is available, and final ----

  /** In every reachable state removal succeeds exactly when it is announced, due and not blocked. */
  lemma RemovalSucceedsIff(env: Env, run: seq<TimedTx>, i: nat, a: Address, now: U64, h: Answers)
    requires i <= |run| && a in WorldAt(env, run, i).accounts
    ensures var d := Duo(WorldAt(env, run, i).zk, WorldAt(env, run, i).accounts[a]);
            Accounts.Act(env, d, a, now, ExecuteRemoval, h).Ok? <==>
              && h.auth && h.oz && !Blocked(env, d, a, now, h)
              && d.acct.removalAt.Some? && d.acct.removalAt.value <= now
  {
    hide WorldStep, Blocked, IdsFresh, IdsAgree;
    ReachableGuarded(env, run, i);
    assert Guarded(env, WorldAt(env, run, i).zk, a, WorldAt(env, run, i).accounts[a]);
  }

  /** An account deployed with this contract as controller announces removal at once and executes it when due. */
  function RemovalRun(env: Env, a: Address, signers: seq<Signer>): seq<TimedTx> {
    var h := Answers(true, true, false, true);
    [TimedTx(0, Deploy(a, signers, {}, Some(ZkAddress(env)), h)),
     TimedTx(0, Act(a, AnnounceRemoval, h)),
     TimedTx(REMOVAL_DELAY_SECS, Act(a, ExecuteRemoval, h))]
  }

  lemma DeployedWithRecovery(env: Env, a: Address, signers: seq<Signer>)
    ensures var w := WorldAt(env, RemovalRun(env, a, signers), 1);
            && a in w.accounts && a in w.zk.installed && w.zk == GENESIS.(installed := w.zk.installed)
            && w.accounts[a].recoveryController == Some(ZkAddress(env)) && w.accounts[a].recoveryId == Some(1)
            && w.accounts[a].removalAt == None && w.accounts[a].rules.Keys == {0, 1}
  {
    var run := RemovalRun(env, a, signers);
    assert {ZkAddress(env)} - {ZkAddress(env)} == {};
    assert WorldAt(env, run, 0) == EMPTY_WORLD;
    var base := OzAddRule(env, Duo(GENESIS, FRESH_ACCOUNT), a, Default, "default", None, signers, {}, run[0].tx.h);
    assert base.Ok? && base.value.zk == GENESIS && base.value.acct.nextRuleId == 1;
  }

  /**
   So the state after a removal is reached, by three accepted transactions, and in it the account has no
   recovery rule, while enrolling with this contract again is refused by the contract itself.
   */
  lemma RemovedAccountIsRefused(env: Env, a: Address, signers: seq<Signer>, now: U64, h: Answers)
    requires h.auth && h.oz
    ensures var run := RemovalRun(env, a, signers);
            && Accepted(env, run, 0) && Accepted(env, run, 1) && Accepted(env, run, 2)
            && var w := WorldAt(env, run, 3);
            && a in w.accounts && w.accounts[a].recoveryId == None && w.accounts[a].recoveryController == None
            && w.accounts[a].rules.Keys == {0}
            && Accounts.Act(env, Duo(w.zk, w.accounts[a]), a, now, Enroll(ZkAddress(env)), h) == Err(PolicyRefused)
  {
    hide InstallAll, OzAddRule, Construct;
    var run := RemovalRun(env, a, signers);
    DeployedWithRecovery(env, a, signers);
    assert Accepted(env, run, 0) by {
      assert a !in WorldAt(env, run, 0).accounts;
    }
    assert Accepted(env, run, 1);
    assert WorldAt(env, run, 2).accounts[a].removalAt == Some(REMOVAL_DELAY_SECS);
    assert Accepted(env, run, 2);
    assert WorldAt(env, run, 3).accounts[a].recoveryId == None;
    NoSecondEnrollment(env, run, 1, 3, a, now, h);
  }
}
