/** Runs of the recovery contract together with any number of smart accounts. */
module TwoContracts {
  import opened Wrappers
  import opened FieldHash
  import opened Recovery
  import opened Accounts

  datatype World = World(zk: Ledger, accounts: map<Address, Account>)

  /**
   A transaction: a call to the recovery contract, the deployment of an account, a call to an account
   under its own auth, or an account's `add_context_rule` authorised by the policies of one of its rules.
   */
  datatype Tx =
    | Zk(call: Call)
    | Deploy(account: Address, signers: seq<Signer>, policies: set<Address>, recovery: Option<Address>, h: Answers)
    | Act(account: Address, op: Op, h: Answers)
    | Complete(account: Address, ruleId: nat, op: Op, h: Answers)

  datatype TimedTx = TimedTx(now: U64, tx: Tx)

  const EMPTY_WORLD: World := World(GENESIS, map[])

  function CompletionContext(a: Address, op: Op): Context
    requires op.AddContextRule?
  {
    ContractCall(a, "add_context_rule",
                 [OtherVal, OtherVal, OtherVal, SignerVec(op.signers), PolicyMap(op.policies)])
  }

  function CompleteRecovery(env: Env, d: Duo, now: U64, tx: Tx): Outcome
    requires tx.Complete?
  {
    var a, rules := tx.account, d.acct.rules;
    if !tx.op.AddContextRule? || tx.ruleId !in rules || ZkAddress(env) !in rules[tx.ruleId].policies then
      Err(NotAuthorized)
    else
      var enforced := EnforcePolicy(env, d.zk, now,
                                    Enforce(true, CompletionContext(a, tx.op), rules[tx.ruleId], a));
      if enforced.Err? then Err(NotAuthorized)
      else Accounts.Act(env, d.(zk := enforced.value), a, now, tx.op, tx.h.(auth := true))
  }

  /** The outcome for the account that the transaction is about. */
  function Perform(env: Env, w: World, now: U64, tx: Tx): Outcome
    requires !tx.Zk?
  {
    if tx.Deploy? then
      if tx.account in w.accounts then Err(OzRefused)
      else Construct(env, w.zk, tx.account, tx.signers, tx.policies, tx.recovery, tx.h)
    else if tx.account !in w.accounts then Err(OzRefused)
    else
      var d := Duo(w.zk, w.accounts[tx.account]);
      if tx.Act? then Accounts.Act(env, d, tx.account, now, tx.op, tx.h)
      else CompleteRecovery(env, d, now, tx)
  }

  function WorldStep(env: Env, w: World, now: U64, tx: Tx): World {
    if tx.Zk? then w.(zk := Step(env, w.zk, now, tx.call))
    else
      var r := Perform(env, w, now, tx);
      if r.Err? then w else World(r.value.zk, w.accounts[tx.account := r.value.acct])
  }

  function WorldAt(env: Env, run: seq<TimedTx>, i: nat): World
    requires i <= |run|
  {
    if i == 0 then EMPTY_WORLD else WorldStep(env, WorldAt(env, run, i - 1), run[i - 1].now, run[i - 1].tx)
  }

  predicate Accepted(env: Env, run: seq<TimedTx>, i: nat)
    requires i < |run|
  {
    var w, now, tx := WorldAt(env, run, i), run[i].now, run[i].tx;
    if tx.Zk? then Apply(env, w.zk, now, tx.call).Ok? else Perform(env, w, now, tx).Ok?
  }
}
