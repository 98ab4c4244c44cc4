/** Properties of whole runs of the recovery contract, from deployment on, under arbitrary calls. */
module RecoveryRuns {
  import opened Bytes
  import opened FieldHash
  import opened Recovery

  /** A call and the ledger time at which it is made. */
  datatype Timed = Timed(now: U64, call: Call)

  /** The stored state after the first `i` calls of `run`, accepted or aborted. */
  function At(env: Env, run: seq<Timed>, i: nat): Ledger
    requires i <= |run|
  {
    if i == 0 then GENESIS else Step(env, At(env, run, i - 1), run[i - 1].now, run[i - 1].call)
  }

  predicate Accepted(env: Env, run: seq<Timed>, i: nat)
    requires i < |run|
  {
    Apply(env, At(env, run, i), run[i].now, run[i].call).Ok?
  }

  ghost predicate Chronological(run: seq<Timed>) {
    forall i, j :: 0 <= i < j < |run| ==> run[i].now <= run[j].now
  }

  // ---- the effect of an accepted call, table by table ----

  predicate IsProof(c: Call) {
    c.Initiate? || c.Cancel? || c.Burn?
  }

  /** What a proof call's proof is checked against. */
  function Target(env: Env, c: Call): AuthFields
    requires IsProof(c) && c.account.Contract?
  {
    match c
    case Initiate(a, key, nonce, timelock, _, _, _) => Fields(env, ACTION_INITIATE, a.id, key, nonce, timelock)
    case Cancel(_, a, nonce, _, _, _) => Fields(env, ACTION_CANCEL, a.id, Zeros(65), nonce, 0)
    case Burn(_, a, nonce, _, _, _) => Fields(env, ACTION_REVOKE, a.id, Zeros(65), nonce, 0)
  }

  predicate Proven(env: Env, c: Call) {
    IsProof(c) && c.account.Contract? && env.proves(c.root, c.nullifier, Target(env, c), c.proof)
  }

  function RecordsAfter(cfg: Config, records: map<Address, Pending>, now: U64, c: Call): map<Address, Pending> {
    if c.Initiate? then records[c.account := PendingOf(cfg, now, c)]
    else if c.Cancel? || c.Enforce? then records - {c.account}
    else if c.Burn? && c.account in records && records[c.account].nullifier == c.nullifier then records - {c.account}
    else records
  }

  function NullifiersAfter(s: Ledger, c: Call): map<Bytes32, NullifierState> {
    if c.Initiate? then Superseded(s, c.account)[c.nullifier := Reserved(c.account)]
    else if c.Cancel? then Superseded(s, c.account)
    else if c.Burn? then s.nullifiers[c.nullifier := Spent]
    else if c.Enforce? && c.account in s.pendings then s.nullifiers[s.pendings[c.account].nullifier := Spent]
    else s.nullifiers
  }

  ghost predicate Effect(env: Env, s: Ledger, now: U64, c: Call, s': Ledger) {
    && s'.pendings == RecordsAfter(env.cfg, s.pendings, now, c)
    && s'.nullifiers == NullifiersAfter(s, c)
    && (IsProof(c) ==> Proven(env, c) && c.nonce == StoredNonce(s, c.account) + 1)
    && s'.nonces == (if IsProof(c) then s.nonces[c.account := c.nonce] else s.nonces)
    && (c.Initiate? ==>
          && !Live(s, c.account, now) && c.nullifier !in Superseded(s, c.account)
          && |RecentInitiations(s, c.account, now)| < RATE_LIMIT_MAX
          && env.cfg.timelockFloorSecs <= c.timelockSecs == env.cfg.delaySecs)
    && s'.rates == (if c.Initiate? then s.rates[c.account := RecentInitiations(s, c.account, now) + [now]] else s.rates)
    && (c.Cancel? ==>
          && Live(s, c.account, now) && CancelsUsed(s, c.account) < env.cfg.maxCancels
          && (c.account in s.lastCancel ==> now >= s.lastCancel[c.account] + CANCEL_COOLDOWN_SECS))
    && s'.cancels == (if c.Cancel? then s.cancels[c.account := CancelsUsed(s, c.account) + 1] else s.cancels)
    && s'.lastCancel == (if c.Cancel? then s.lastCancel[c.account := now] else s.lastCancel)
    && (c.Burn? ==> !(c.nullifier in s.nullifiers && s.nullifiers[c.nullifier].Spent?))
    && (c.Enforce? ==>
          && c.account in s.pendings && Permitted(env.cfg, s.pendings[c.account], c.account, c.context)
          && s.pendings[c.account].executableAfter <= now < s.pendings[c.account].expiresAt)
  }

  lemma InitiateEffect(env: Env, s: Ledger, now: U64, c: Call)
    requires c.Initiate? && InitiateRecovery(env, s, now, c).Ok?
    ensures Effect(env, s, now, c, InitiateRecovery(env, s, now, c).value)
  {
  }

  lemma CancelEffect(env: Env, s: Ledger, now: U64, c: Call)
    requires c.Cancel? && CancelRecovery(env, s, now, c).Ok?
    ensures Effect(env, s, now, c, CancelRecovery(env, s, now, c).value)
  {
  }

  lemma BurnEffect(env: Env, s: Ledger, now: U64, c: Call)
    requires c.Burn? && BurnNullifier(env, s, c).Ok?
    ensures Effect(env, s, now, c, BurnNullifier(env, s, c).value)
  {
  }

  lemma EnforceEffect(env: Env, s: Ledger, now: U64, c: Call)
    requires c.Enforce? && EnforcePolicy(env, s, now, c).Ok?
    ensures Effect(env, s, now, c, EnforcePolicy(env, s, now, c).value)
  {
  }

  lemma FrameEffect(env: Env, s: Ledger, now: U64, c: Call)
    requires c.Insert? || c.InsertFor? || c.Install? || c.Uninstall?
    ensures Apply(env, s, now, c).Ok? ==> Effect(env, s, now, c, Apply(env, s, now, c).value)
  {
  }

  lemma ApplyEffect(env: Env, s: Ledger, now: U64, c: Call)
    ensures Apply(env, s, now, c).Ok? ==> Effect(env, s, now, c, Apply(env, s, now, c).value)
  {
    hide Effect, InitiateRecovery, CancelRecovery, BurnNullifier, EnforcePolicy;
    if Apply(env, s, now, c).Ok? {
      if c.Initiate? {
        InitiateEffect(env, s, now, c);
      } else if c.Cancel? {
        CancelEffect(env, s, now, c);
      } else if c.Burn? {
        BurnEffect(env, s, now, c);
      } else if c.Enforce? {
        EnforceEffect(env, s, now, c);
      } else {
        FrameEffect(env, s, now, c);
      }
    }
  }

  /** Only insertions add leaves. */
  lemma LeavesFrame(env: Env, s: Ledger, now: U64, c: Call)
    requires !c.Insert? && !c.InsertFor?
    ensures Step(env, s, now, c).leaves == s.leaves
  {
    hide InitiateRefusal, CancelRefusal, BurnRefusal, Permitted, Superseded, RecentInitiations;
  }

  /** One call of a run: its effect if accepted, nothing at all if aborted. */
  lemma RunStep(env: Env, run: seq<Timed>, i: nat)
    requires i < |run|
    ensures if Accepted(env, run, i) then Effect(env, At(env, run, i), run[i].now, run[i].call, At(env, run, i + 1))
            else At(env, run, i + 1) == At(env, run, i)
  {
    hide Apply, Effect;
    ApplyEffect(env, At(env, run, i), run[i].now, run[i].call);
  }

  // ---- reservations ----

  /** A reservation belongs to the holder's pending record. */
  ghost predicate Backed(s: Ledger, n: Bytes32) {
    n in s.nullifiers && s.nullifiers[n].Reserved? ==>
      var a := s.nullifiers[n].account; a in s.pendings && s.pendings[a].nullifier == n
  }

  /** A pending record's nullifier is reserved for its account, or spent. */
  ghost predicate Recorded(s: Ledger, a: Address) {
    a in s.pendings ==>
      var n := s.pendings[a].nullifier;
      n in s.nullifiers && (s.nullifiers[n] == Reserved(a) || s.nullifiers[n] == Spent)
  }

  ghost predicate Apart(s: Ledger, a: Address, b: Address) {
    a in s.pendings && b in s.pendings && a != b ==> s.pendings[a].nullifier != s.pendings[b].nullifier
  }

  ghost predicate Consistent(s: Ledger) {
    && (forall n :: Backed(s, n))
    && (forall a :: Recorded(s, a))
    && (forall a, b :: Apart(s, a, b))
  }

  lemma ReservedConsistent(s: Ledger, s': Ledger, a: Address, p: Pending)
    requires Consistent(s) && p.nullifier !in Superseded(s, a)
    requires s'.pendings == s.pendings[a := p]
    requires s'.nullifiers == Superseded(s, a)[p.nullifier := Reserved(a)]
    ensures Consistent(s')
  {
    assert Recorded(s, a);
    forall n ensures Backed(s', n) {
      assert Backed(s, n);
    }
    forall b ensures Recorded(s', b) {
      assert Recorded(s, b) && Apart(s, a, b);
    }
    forall b, d ensures Apart(s', b, d) {
      assert Apart(s, b, d) && Recorded(s, b) && Recorded(s, d) && Apart(s, a, b) && Apart(s, a, d);
    }
  }

  lemma ClearedConsistent(s: Ledger, s': Ledger, a: Address)
    requires Consistent(s) && a in s.pendings && s'.pendings == s.pendings - {a}
    requires var n := s.pendings[a].nullifier;
             s'.nullifiers == Released(s.nullifiers, n, a) || s'.nullifiers == s.nullifiers[n := Spent]
    ensures Consistent(s')
  {
    forall n ensures Backed(s', n) {
      assert Backed(s, n);
    }
    forall b ensures Recorded(s', b) {
      assert Recorded(s, b) && Apart(s, a, b);
    }
    forall b, d ensures Apart(s', b, d) {
      assert Apart(s, b, d);
    }
  }

  lemma SpentConsistent(s: Ledger, s': Ledger, a: Address, n: Bytes32)
    requires Consistent(s) && s'.nullifiers == s.nullifiers[n := Spent]
    requires s'.pendings == if a in s.pendings && s.pendings[a].nullifier == n then s.pendings - {a} else s.pendings
    ensures Consistent(s')
  {
    forall m ensures Backed(s', m) {
      assert Backed(s, m);
    }
    forall b ensures Recorded(s', b) {
      assert Recorded(s, b);
    }
    forall b, d ensures Apart(s', b, d) {
      assert Apart(s, b, d);
    }
  }

  lemma FrameConsistent(s: Ledger, s': Ledger)
    requires Consistent(s) && s'.pendings == s.pendings && s'.nullifiers == s.nullifiers
    ensures Consistent(s')
  {
    forall n ensures Backed(s', n) { assert Backed(s, n); }
    forall b ensures Recorded(s', b) { assert Recorded(s, b); }
    forall b, d ensures Apart(s', b, d) { assert Apart(s, b, d); }
  }

  lemma StepConsistent(env: Env, s: Ledger, now: U64, c: Call)
    requires Consistent(s)
    ensures Consistent(Step(env, s, now, c))
  {
    hide Apply;
    ApplyEffect(env, s, now, c);
    var r, a := Apply(env, s, now, c), c.account;
    if r.Ok? {
      if c.Initiate? {
        ReservedConsistent(s, r.value, a, PendingOf(env.cfg, now, c));
      } else if c.Cancel? || c.Enforce? {
        ClearedConsistent(s, r.value, a);
      } else if c.Burn? {
        SpentConsistent(s, r.value, a, c.nullifier);
      } else {
        FrameConsistent(s, r.value);
      }
    }
  }

  lemma {:induction false} ReachableConsistent(env: Env, run: seq<Timed>, i: nat)
    requires i <= |run|
    ensures Consistent(At(env, run, i))
  {
    if i > 0 {
      ReachableConsistent(env, run, i - 1);
      StepConsistent(env, At(env, run, i - 1), run[i - 1].now, run[i - 1].call);
    }
  }

  // ---- where a pending record comes from ----

  /** Call `j` of the run is the accepted initiation that stored `p` for `a`. */
  ghost predicate Opened(env: Env, run: seq<Timed>, j: nat, a: Address, p: Pending) {
    && j < |run|
    && run[j].call.Initiate?
    && run[j].call.account == a
    && Accepted(env, run, j)
    && p == PendingOf(env.cfg, run[j].now, run[j].call)
  }

  /** A call that bears on `a`'s record, or is `a`'s burn of the record's nullifier. */
  predicate Touches(c: Call, a: Address, n: Bytes32) {
    (c.Initiate? || c.Cancel? || c.Enforce? || (c.Burn? && c.nullifier == n)) && c.account == a
  }

  ghost predicate Disturbs(env: Env, run: seq<Timed>, k: nat, a: Address, n: Bytes32)
    requires k < |run|
  {
    Touches(run[k].call, a, n) && Accepted(env, run, k)
  }

  /** One call changes `a`'s record only by touching it; an initiation stores its own, the others clear it. */
  lemma RecordStep(env: Env, run: seq<Timed>, i: nat, a: Address)
    requires i < |run|
    ensures var before, after, c := At(env, run, i).pendings, At(env, run, i + 1).pendings, run[i].call;
            var done := Accepted(env, run, i);
            && (done && c.Initiate? && c.account == a ==>
                  a in after && after[a] == PendingOf(env.cfg, run[i].now, c))
            && (a in after && !(done && c.Initiate? && c.account == a) ==>
                  a in before && after[a] == before[a] && !(done && Touches(c, a, before[a].nullifier)))
            && (a in before && !(done && Touches(c, a, before[a].nullifier)) ==>
                  a in after && after[a] == before[a])
  {
    hide Apply;
    ApplyEffect(env, At(env, run, i), run[i].now, run[i].call);
  }

  /** A stored record was put there by the last initiation, and nothing has touched it since. */
  lemma {:induction false} PendingHasOrigin(env: Env, run: seq<Timed>, n: nat, a: Address) returns (j: nat)
    requires n <= |run| && a in At(env, run, n).pendings
    ensures j < n && Opened(env, run, j, a, At(env, run, n).pendings[a])
    ensures forall k :: j < k < n ==> !Disturbs(env, run, k, a, At(env, run, n).pendings[a].nullifier)
  {
    hide Apply, Step;
    var last := run[n - 1];
    RecordStep(env, run, n - 1, a);
    if Accepted(env, run, n - 1) && last.call.Initiate? && last.call.account == a {
      j := n - 1;
    } else {
      j := PendingHasOrigin(env, run, n - 1, a);
    }
  }

  /** Conversely, an opened record stays as it is for as long as nothing disturbs it. */
  lemma {:induction false} PendingPersists(env: Env, run: seq<Timed>, j: nat, n: nat, a: Address, p: Pending)
    requires j < n <= |run| && Opened(env, run, j, a, p)
    requires forall k :: j < k < n ==> !Disturbs(env, run, k, a, p.nullifier)
    ensures a in At(env, run, n).pendings && At(env, run, n).pendings[a] == p
  {
    hide Apply, Step;
    RecordStep(env, run, n - 1, a);
    if j < n - 1 {
      PendingPersists(env, run, j, n - 1, a, p);
      assert !Disturbs(env, run, n - 1, a, p.nullifier);
    }
  }

  /** The only call that a completion of the initiation `c` may authorise. */
  ghost predicate RotatesTo(cfg: Config, c: Call, context: Context)
    requires c.Initiate?
  {
    && context.ContractCall? && context.contract == c.account && context.fnName == "add_context_rule"
    && |context.args| == 5
    && context.args[3] == SignerVec([External(cfg.webauthnVerifier, c.newPubkey)])
    && context.args[4] == PolicyMap({})
  }

  /**
   Completion safety: an accepted `enforce` follows an accepted initiation of the same
   account, inside its window and after at least the floor; nothing in between cancelled,
   replaced, completed or burned it; and it authorises exactly the proven key's rotation.
   */
  lemma CompletionHasOrigin(env: Env, run: seq<Timed>, i: nat) returns (j: nat)
    requires i < |run| && run[i].call.Enforce? && Accepted(env, run, i)
    ensures j < i && Opened(env, run, j, run[i].call.account, At(env, run, i).pendings[run[i].call.account])
    ensures run[j].now + env.cfg.delaySecs <= run[i].now
    ensures run[i].now < run[j].now + env.cfg.delaySecs + env.cfg.completionWindowSecs
    ensures env.cfg.delaySecs >= env.cfg.timelockFloorSecs
    ensures forall k :: j < k < i ==> !Disturbs(env, run, k, run[i].call.account, run[j].call.nullifier)
    ensures RotatesTo(env.cfg, run[j].call, run[i].call.context)
  {
    hide Apply, Step;
    ApplyEffect(env, At(env, run, i), run[i].now, run[i].call);
    j := PendingHasOrigin(env, run, i, run[i].call.account);
    ApplyEffect(env, At(env, run, j), run[j].now, run[j].call);
  }

  /** Completion is also possible: the rotation is accepted at any time inside the window. */
  lemma UndisturbedRecoveryCompletes(env: Env, run: seq<Timed>, j: nat, now: U64, c: Call)
    requires c.Enforce? && c.auth
    requires j < |run| && run[j].call.Initiate? && Accepted(env, run, j) && run[j].call.account == c.account
    requires forall k :: j < k < |run| ==> !Disturbs(env, run, k, c.account, run[j].call.nullifier)
    requires run[j].now + env.cfg.delaySecs <= now < run[j].now + env.cfg.delaySecs + env.cfg.completionWindowSecs
    requires c.account in At(env, run, |run|).installed && At(env, run, |run|).installed[c.account] == c.rule.id
    ensures Apply(env, At(env, run, |run|), now, c).Ok? <==> RotatesTo(env.cfg, run[j].call, c.context)
  {
    PendingPersists(env, run, j, |run|, c.account, PendingOf(env.cfg, run[j].now, run[j].call));
  }
}
