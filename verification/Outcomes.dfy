/**
 Exactly when a call of the recovery contract is accepted after a run, and otherwise the error that it
 aborts with, told by the history of accepted calls and by nothing that the contract stores.
 */
module Outcomes {
  import opened Bytes
  import opened Wrappers
  import opened FieldHash
  import opened Recovery
  import opened RecoveryRuns
  import opened NullifierLife
  import opened RateLimits
  import opened Histories
  import MerkleTree

  function ErrorOf(r: Result<Ledger, Error>): Option<Error> {
    if r.Err? then Some(r.error) else None
  }

  lemma InsertOutcome(env: Env, run: seq<Timed>, n: nat, now: U64, c: Call)
    requires n <= |run| && (c.Insert? || c.InsertFor?)
    ensures ErrorOf(Apply(env, At(env, run, n), now, c)) ==
            if !c.auth then Some(AuthFailed)
            else if BeValue(c.commitment) >= R then Some(NonCanonicalCommitment)
            else if !c.account.Contract? then Some(BadAddress)
            else if |Inserted(env, run, n)| >= MerkleTree.Pow2(env.tree.depth) then Some(TreeFull)
            else None
  {
    hide Apply, At, MerkleTree.Pow2;
    LeavesAreInserted(env, run, n);
    InsertStep(env, At(env, run, n), now, c);
  }

  /** The number that the account's next proof call must carry. */
  function NextNonce(env: Env, run: seq<Timed>, n: nat, a: Address): nat
    requires n <= |run|
  {
    |Times(env, run, Proofs(a), n)| + 1
  }

  lemma NonceIff(env: Env, run: seq<Timed>, n: nat, a: Address, nonce: U64)
    requires n <= |run|
    ensures NonceRefusal(At(env, run, n), a, nonce) ==
            if NextNonce(env, run, n, a) >= 0x1_0000_0000_0000_0000 then Some(Overflow)
            else if nonce != NextNonce(env, run, n, a) then Some(InvalidNonce)
            else None
  {
    hide At, Times;
    NonceCounts(env, run, a, n);
  }

  lemma RootIff(env: Env, run: seq<Timed>, n: nat, root: Bytes32)
    requires n <= |run|
    ensures KnownRoot(env, At(env, run, n).leaves, root) <==> RecentRoot(env, LeavesOf(env, run, n), root)
  {
    hide At, LeavesOf;
    LeavesAreInserted(env, run, n);
    KnownRootIff(env, LeavesOf(env, run, n), root);
  }

  /** The account's third last initiation lies at most 90 days back. */
  ghost predicate ThreeRecent(env: Env, run: seq<Timed>, n: nat, a: Address, now: nat)
    requires n <= |run|
  {
    var ts := Times(env, run, Initiations(a), n);
    |ts| >= 3 && now <= ts[|ts| - 3] + 90 * 24 * 3600
  }

  lemma InitiateOutcome(env: Env, run: seq<Timed>, n: nat, now: U64, c: Call)
    requires n <= |run| && c.Initiate? && Chronological(run) && NoLater(run, n, now)
    ensures var a, next := c.account, NextNonce(env, run, n, c.account);
            ErrorOf(Apply(env, At(env, run, n), now, c)) ==
            if OpenUntil(env, run, n, a, now) then Some(PendingExists)
            else if !RecentRoot(env, LeavesOf(env, run, n), c.root) then Some(UnknownRoot)
            else if Consumed(env, run, n, c.nullifier) then Some(NullifierSpent)
            else if HeldByOther(env, run, n, a, c.nullifier) then Some(NullifierReserved)
            else if next >= 0x1_0000_0000_0000_0000 then Some(Overflow)
            else if c.nonce != next then Some(InvalidNonce)
            else if c.timelockSecs < env.cfg.timelockFloorSecs then Some(TimelockTooShort)
            else if c.timelockSecs != env.cfg.delaySecs then Some(TimelockMismatch)
            else if ThreeRecent(env, run, n, a, now) then Some(RateLimited)
            else if !a.Contract? then Some(BadAddress)
            else if !env.proves(c.root, c.nullifier,
                                AuthFields(1, a.id, env.passphraseHash, env.self, c.newPubkey, c.nonce, c.timelockSecs),
                                c.proof) then Some(VerificationFailed)
            else if now + env.cfg.delaySecs + env.cfg.completionWindowSecs >= 0x1_0000_0000_0000_0000 then Some(Overflow)
            else None
  {
    hide At, Live, KnownRoot, NonceRefusal, RecentInitiations, NextNonce, Times, LeavesOf, OpenUntil, Consumed,
      HeldByOther, RecentRoot;
    var s, a, m := At(env, run, n), c.account, c.nullifier;
    HasPendingIff(env, run, n, a, now);
    RootIff(env, run, n, c.root);
    SpentIff(env, run, n, m);
    if !Consumed(env, run, n, m) {
      ReservedIff(env, run, n, a, m);
    }
    SpentSurvivesRelease(s, a, m);
    NonceIff(env, run, n, a, c.nonce);
    RateIff(env, run, n, a, now);
  }

  lemma SpentSurvivesRelease(s: Ledger, a: Address, m: Bytes32)
    ensures SpentIn(s, m) <==> m in Superseded(s, a) && Superseded(s, a)[m].Spent?
  {
  }

  lemma CancelOutcome(env: Env, run: seq<Timed>, n: nat, now: U64, c: Call)
    requires n <= |run| && c.Cancel?
    ensures var a, next := c.account, NextNonce(env, run, n, c.account);
            var ts := Times(env, run, Cancels(a), n);
            ErrorOf(Apply(env, At(env, run, n), now, c)) ==
            if !c.auth then Some(AuthFailed)
            else if !OpenUntil(env, run, n, a, now) then Some(NoPending)
            else if |ts| >= env.cfg.maxCancels then Some(CancelCapReached)
            else if ts != [] && now < ts[|ts| - 1] + 24 * 3600 then Some(CooldownActive)
            else if next >= 0x1_0000_0000_0000_0000 then Some(Overflow)
            else if c.nonce != next then Some(InvalidNonce)
            else if !RecentRoot(env, LeavesOf(env, run, n), c.root) then Some(UnknownRoot)
            else if !a.Contract? then Some(BadAddress)
            else if !env.proves(c.root, c.nullifier,
                                AuthFields(2, a.id, env.passphraseHash, env.self, Zeros(65), c.nonce, 0),
                                c.proof) then Some(VerificationFailed)
            else None
  {
    hide At, Live, KnownRoot, NonceRefusal, NextNonce, Times, LeavesOf, OpenUntil, RecentRoot, Superseded, Zeros;
    HasPendingIff(env, run, n, c.account, now);
    RootIff(env, run, n, c.root);
    NonceIff(env, run, n, c.account, c.nonce);
    CancelBookkeeping(env, run, c.account, n);
  }

  lemma BurnOutcome(env: Env, run: seq<Timed>, n: nat, now: U64, c: Call)
    requires n <= |run| && c.Burn?
    ensures var a, next := c.account, NextNonce(env, run, n, c.account);
            ErrorOf(Apply(env, At(env, run, n), now, c)) ==
            if !c.auth then Some(AuthFailed)
            else if !RecentRoot(env, LeavesOf(env, run, n), c.root) then Some(UnknownRoot)
            else if next >= 0x1_0000_0000_0000_0000 then Some(Overflow)
            else if c.nonce != next then Some(InvalidNonce)
            else if Consumed(env, run, n, c.nullifier) then Some(NullifierSpent)
            else if !a.Contract? then Some(BadAddress)
            else if !env.proves(c.root, c.nullifier,
                                AuthFields(3, a.id, env.passphraseHash, env.self, Zeros(65), c.nonce, 0),
                                c.proof) then Some(VerificationFailed)
            else None
  {
    hide At, KnownRoot, NonceRefusal, NextNonce, LeavesOf, Consumed, RecentRoot, Zeros;
    RootIff(env, run, n, c.root);
    NonceIff(env, run, n, c.account, c.nonce);
    SpentIff(env, run, n, c.nullifier);
  }

  lemma InstallOutcome(env: Env, run: seq<Timed>, n: nat, now: U64, c: Call)
    requires n <= |run| && c.Install?
    ensures ErrorOf(Apply(env, At(env, run, n), now, c)) ==
            if !c.auth then Some(AuthFailed)
            else if Known(env, run, n, c.account) then Some(AlreadyInstalled)
            else if c.rule.signers != {} then Some(ContextMismatch)
            else if c.rule.contextType != CallContract(c.account) then Some(ContextMismatch)
            else None
  {
    hide At, Known;
    KnownIff(env, run, n, c.account);
  }

  /** Some earlier call installed the contract for the account. */
  ghost predicate Known(env: Env, run: seq<Timed>, n: nat, a: Address) {
    exists id: nat :: InstalledAs(env, run, n, a, id)
  }

  lemma KnownIff(env: Env, run: seq<Timed>, n: nat, a: Address)
    requires n <= |run|
    ensures a in At(env, run, n).installed <==> Known(env, run, n, a)
  {
    hide At, InstalledAs;
    if a in At(env, run, n).installed {
      InstalledIff(env, run, n, a, At(env, run, n).installed[a]);
    }
    forall id: nat | InstalledAs(env, run, n, a, id) ensures a in At(env, run, n).installed {
      InstalledIff(env, run, n, a, id);
    }
  }

  ghost predicate HasOpen(env: Env, run: seq<Timed>, n: nat, a: Address) {
    exists j: nat :: OpenAt(env, run, n, a, j)
  }

  /** The open recovery's timelock has elapsed. */
  ghost predicate Executable(env: Env, run: seq<Timed>, n: nat, a: Address, now: nat) {
    exists j: nat :: OpenAt(env, run, n, a, j) && run[j].now + env.cfg.delaySecs <= now
  }

  /** The context is the rotation to the open recovery's key. */
  ghost predicate RotatesOpen(env: Env, run: seq<Timed>, n: nat, a: Address, context: Context) {
    exists j: nat :: OpenAt(env, run, n, a, j) && RotatesTo(env.cfg, run[j].call, context)
  }

  lemma EnforceOutcome(env: Env, run: seq<Timed>, n: nat, now: U64, c: Call)
    requires n <= |run| && c.Enforce?
    ensures var a := c.account;
            ErrorOf(Apply(env, At(env, run, n), now, c)) ==
            if !c.auth then Some(AuthFailed)
            else if !Known(env, run, n, a) then Some(NotInstalled)
            else if !InstalledAs(env, run, n, a, c.rule.id) then Some(RuleMismatch)
            else if !HasOpen(env, run, n, a) then Some(NoPending)
            else if !Executable(env, run, n, a, now) then Some(TimelockNotElapsed)
            else if !OpenUntil(env, run, n, a, now) then Some(RecoveryExpired)
            else if !RotatesOpen(env, run, n, a, c.context) then Some(ContextMismatch)
            else None
  {
    hide At, Known, InstalledAs, Accepted, Disturbs, Live;
    var s, a := At(env, run, n), c.account;
    KnownIff(env, run, n, a);
    InstalledIff(env, run, n, a, c.rule.id);
    OpenTimes(env, run, n, a, now, c.context);
  }

  /** The stored record's times and key are those of the open recovery. */
  lemma OpenTimes(env: Env, run: seq<Timed>, n: nat, a: Address, now: nat, context: Context)
    requires n <= |run|
    ensures var s := At(env, run, n);
            && (a in s.pendings <==> HasOpen(env, run, n, a))
            && (a in s.pendings ==>
                  && (s.pendings[a].executableAfter <= now <==> Executable(env, run, n, a, now))
                  && (now < s.pendings[a].expiresAt <==> OpenUntil(env, run, n, a, now))
                  && (Permitted(env.cfg, s.pendings[a], a, context) <==> RotatesOpen(env, run, n, a, context)))
  {
    hide At, Accepted, Disturbs;
    if a in At(env, run, n).pendings {
      var j := StoredIsOpen(env, run, n, a);
    }
    forall j: nat | OpenAt(env, run, n, a, j)
      ensures a in At(env, run, n).pendings
      ensures var p := At(env, run, n).pendings[a];
              && p.newPubkey == run[j].call.newPubkey && p.executableAfter == run[j].now + env.cfg.delaySecs
              && p.expiresAt == run[j].now + env.cfg.delaySecs + env.cfg.completionWindowSecs
    {
      OpenIsStored(env, run, n, a, j);
    }
  }

  lemma UninstallOutcome(env: Env, run: seq<Timed>, n: nat, now: U64, c: Call)
    requires n <= |run| && c.Uninstall?
    ensures ErrorOf(Apply(env, At(env, run, n), now, c)) == Some(if c.auth then Unauthorized else AuthFailed)
  {
  }

  // ---- no bricking ----

  /** What a caller can tell from the history before initiating. */
  ghost predicate Ready(env: Env, run: seq<Timed>, n: nat, now: U64, c: Call)
    requires c.Initiate? && n <= |run|
  {
    var a := c.account;
    && !OpenUntil(env, run, n, a, now)
    && RecentRoot(env, LeavesOf(env, run, n), c.root)
    && !Consumed(env, run, n, c.nullifier)
    && c.nonce == NextNonce(env, run, n, a)
    && env.cfg.timelockFloorSecs <= c.timelockSecs == env.cfg.delaySecs
    && !ThreeRecent(env, run, n, a, now)
    && a.Contract?
    && env.proves(c.root, c.nullifier,
                  AuthFields(1, a.id, env.passphraseHash, env.self, c.newPubkey, c.nonce, c.timelockSecs), c.proof)
    && now + env.cfg.delaySecs + env.cfg.completionWindowSecs < 0x1_0000_0000_0000_0000
  }

  /**
   No bricking: after any run, an initiation succeeds exactly when it is `Ready`. A record that has run
   out never refuses it, nor does a reservation of the nullifier, be it the caller's or another's.
   */
  lemma InitiationSucceedsIffReady(env: Env, run: seq<Timed>, t: Timed)
    requires t.call.Initiate? && Chronological(run) && NoLater(run, |run|, t.now) && Binds(env, run + [t])
    ensures Apply(env, At(env, run, |run|), t.now, t.call).Ok? <==> Ready(env, run, |run|, t.now, t.call)
  {
    hide At, Apply, OpenUntil, Consumed, RecentRoot, ThreeRecent, NextNonce, LeavesOf, Accepted, Disturbs;
    var n, c := |run|, t.call;
    InitiateOutcome(env, run, n, t.now, c);
    if Ready(env, run, n, t.now, c) && HeldByOther(env, run, n, c.account, c.nullifier) {
      var b, j: nat :| b != c.account && OpenAt(env, run, n, b, j) && run[j].call.nullifier == c.nullifier;
      OpenIsStored(env, run, n, b, j);
      ReservedByCaller(env, run, t, b);
    }
  }
}
