/**
 Every run of the two contracts contains a run of the recovery contract alone, call by call, with the
 same storage; what is proved of the latter's runs therefore holds of the former's.
 */
module Projection {
  import opened Wrappers
  import opened FieldHash
  import opened Recovery
  import Runs = RecoveryRuns
  import opened Accounts
  import opened TwoContracts
  import opened RuleProtection

  /** A call that aborts in every state. */
  function Idle(a: Address): Call {
    Uninstall(false, ContextRule(0, Default, "", None, {}, {}), a)
  }

  /** The call that a transaction amounts to for the recovery contract. */
  function LedgerCall(env: Env, w: World, now: U64, tx: Tx): Call {
    if tx.Zk? then tx.call
    else
      var a, r := tx.account, Perform(env, w, now, tx);
      if r.Err? then Idle(a)
      else if tx.Complete? then
        if tx.op.AddContextRule? && a in w.accounts && tx.ruleId in w.accounts[a].rules then
          Enforce(true, CompletionContext(a, tx.op), w.accounts[a].rules[tx.ruleId], a)
        else Idle(a)
      else if a in r.value.zk.installed && a !in w.zk.installed then
        Install(true, ContextRule(r.value.zk.installed[a], CallContract(a), "", None, {}, {}), a)
      else Idle(a)
  }

  function Projected(env: Env, run: seq<TimedTx>): (calls: seq<Runs.Timed>)
    ensures |calls| == |run|
  {
    seq(|run|, i requires 0 <= i < |run| =>
      Runs.Timed(run[i].now, LedgerCall(env, WorldAt(env, run, i), run[i].now, run[i].tx)))
  }

  // ---- what an account's call does to the recovery contract ----

  /** Nothing, or a first installation for the account. */
  ghost predicate AtMostInstalls(zk: Ledger, zk': Ledger, a: Address) {
    || zk' == zk
    || (a !in zk.installed && a in zk'.installed && zk' == zk.(installed := zk.installed[a := zk'.installed[a]]))
  }

  lemma InstallAllLedger(env: Env, zk: Ledger, a: Address, rule: ContextRule, policies: set<Address>, h: Answers)
    requires InstallAll(env, zk, a, rule, policies, h).Ok?
    ensures AtMostInstalls(zk, InstallAll(env, zk, a, rule, policies, h).value, a)
    ensures policies == {} || !rule.contextType.CallContract? ==> InstallAll(env, zk, a, rule, policies, h).value == zk
  {
  }

  lemma AddRuleLedger(env: Env, d: Duo, a: Address, contextType: ContextRuleType, name: string,
                      validUntil: Option<nat>, signers: seq<Signer>, policies: set<Address>, h: Answers)
    requires OzAddRule(env, d, a, contextType, name, validUntil, signers, policies, h).Ok?
    ensures var zk' := OzAddRule(env, d, a, contextType, name, validUntil, signers, policies, h).value.zk;
            AtMostInstalls(d.zk, zk', a) && (policies == {} || !contextType.CallContract? ==> zk' == d.zk)
  {
    hide InstallAll;
    var rule := ContextRule(d.acct.nextRuleId, contextType, name, validUntil, (set s | s in signers), policies);
    InstallAllLedger(env, d.zk, a, rule, policies, h);
  }

  lemma ConstructLedger(env: Env, zk: Ledger, a: Address, signers: seq<Signer>, policies: set<Address>,
                        recovery: Option<Address>, h: Answers)
    requires Construct(env, zk, a, signers, policies, recovery, h).Ok?
    ensures AtMostInstalls(zk, Construct(env, zk, a, signers, policies, recovery, h).value.zk, a)
  {
    hide OzAddRule;
    var d := Duo(zk, FRESH_ACCOUNT);
    AddRuleLedger(env, d, a, Default, "default", None, signers, policies, h);
    if recovery.Some? {
      var base := OzAddRule(env, d, a, Default, "default", None, signers, policies, h).value;
      AddRuleLedger(env, base, a, CallContract(a), "zk-recovery", None, [], {recovery.value}, h);
    }
  }

  lemma ActLedger(env: Env, d: Duo, a: Address, now: U64, op: Op, h: Answers)
    requires Accounts.Act(env, d, a, now, op, h).Ok?
    ensures var zk' := Accounts.Act(env, d, a, now, op, h).value.zk;
            AtMostInstalls(d.zk, zk', a) && (op.AddContextRule? && op.policies == {} ==> zk' == d.zk)
  {
    hide OzAddRule, InstallAll;
    match op
    case AddContextRule(contextType, name, validUntil, signers, policies) =>
      AddRuleLedger(env, d, a, contextType, name, validUntil, signers, policies, h);
    case AddMultisigRecovery(name, validUntil, friends, policy) =>
      AddRuleLedger(env, d, a, CallContract(a), name, validUntil, friends, {policy}, h);
    case Enroll(controller) =>
      AddRuleLedger(env, d, a, CallContract(a), "zk-recovery", None, [], {controller}, h);
    case AddPolicy(id, policy) =>
      InstallAllLedger(env, d.zk, a, d.acct.rules[id], {policy}, h);
    case _ =>
  }

  // ---- one transaction ----

  lemma IdleStep(env: Env, s: Ledger, now: U64, a: Address)
    ensures Apply(env, s, now, Idle(a)).Err?
  {
  }

  lemma InstallStep(env: Env, s: Ledger, now: U64, a: Address, id: nat)
    requires a !in s.installed
    ensures Step(env, s, now, Install(true, ContextRule(id, CallContract(a), "", None, {}, {}), a))
         == s.(installed := s.installed[a := id])
  {
  }

  /** A completion is an accepted `enforce` and, as far as the recovery contract goes, nothing else. */
  lemma CompleteProjects(env: Env, w: World, now: U64, tx: Tx)
    requires tx.Complete? && Perform(env, w, now, tx).Ok?
    ensures tx.account in w.accounts && LedgerCall(env, w, now, tx).Enforce?
    ensures Apply(env, w.zk, now, LedgerCall(env, w, now, tx)) == Ok(Perform(env, w, now, tx).value.zk)
  {
    hide Accounts.Act;
    PerformIsAct(env, w, now, tx);
    ActLedger(env, EntryState(env, w, now, tx), tx.account, now, tx.op, tx.h.(auth := true));
  }

  lemma OtherProjects(env: Env, w: World, now: U64, tx: Tx)
    requires (tx.Act? || tx.Deploy?) && Perform(env, w, now, tx).Ok?
    ensures AtMostInstalls(w.zk, Perform(env, w, now, tx).value.zk, tx.account)
  {
    hide Accounts.Act, Construct;
    if tx.Act? {
      ActLedger(env, Duo(w.zk, w.accounts[tx.account]), tx.account, now, tx.op, tx.h);
    } else {
      ConstructLedger(env, w.zk, tx.account, tx.signers, tx.policies, tx.recovery, tx.h);
    }
  }

  lemma StepProjects(env: Env, w: World, now: U64, tx: Tx)
    ensures WorldStep(env, w, now, tx).zk == Step(env, w.zk, now, LedgerCall(env, w, now, tx))
  {
    hide Perform, Apply, AtMostInstalls;
    if !tx.Zk? {
      var a, r := tx.account, Perform(env, w, now, tx);
      IdleStep(env, w.zk, now, a);
      if r.Ok? {
        if tx.Complete? {
          CompleteProjects(env, w, now, tx);
        } else {
          OtherProjects(env, w, now, tx);
          InstallingStep(env, w.zk, r.value.zk, now, a);
        }
      }
    }
  }

  lemma InstallingStep(env: Env, zk: Ledger, zk': Ledger, now: U64, a: Address)
    requires AtMostInstalls(zk, zk', a)
    ensures if a in zk'.installed && a !in zk.installed then
              Step(env, zk, now, Install(true, ContextRule(zk'.installed[a], CallContract(a), "", None, {}, {}), a)) == zk'
            else zk' == zk
  {
    hide Step;
    if a in zk'.installed && a !in zk.installed {
      InstallStep(env, zk, now, a, zk'.installed[a]);
    }
  }

  /** The recovery contract's storage in a run of both contracts is that after the projected calls. */
  lemma {:induction false} RunProjects(env: Env, run: seq<TimedTx>, i: nat)
    requires i <= |run|
    ensures Runs.At(env, Projected(env, run), i) == WorldAt(env, run, i).zk
  {
    hide Step, WorldStep, LedgerCall;
    if i > 0 {
      RunProjects(env, run, i - 1);
      StepProjects(env, WorldAt(env, run, i - 1), run[i - 1].now, run[i - 1].tx);
    }
  }
}
