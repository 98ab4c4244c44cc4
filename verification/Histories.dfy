/**
 What the recovery contract stores, told by the history of accepted calls alone: which recovery of an
 account is open, which nullifiers are consumed or held, what has been inserted and installed.
 */
module Histories {
  import opened Bytes
  import opened Wrappers
  import opened FieldHash
  import opened Recovery
  import opened RecoveryRuns
  import opened NullifierLife
  import opened RateLimits
  import MerkleTree
  import Pool = MerklePool

  // ---- open recoveries ----

  /** After `n` calls, `a`'s open recovery is the one initiated by call `j`: nothing has disturbed it since. */
  ghost predicate OpenAt(env: Env, run: seq<Timed>, n: nat, a: Address, j: nat) {
    && j < n <= |run|
    && run[j].call.Initiate? && run[j].call.account == a && Accepted(env, run, j)
    && forall k :: j < k < n ==> !Disturbs(env, run, k, a, run[j].call.nullifier)
  }

  /** An account's open recovery, if it has not run out by `now`. */
  ghost predicate OpenUntil(env: Env, run: seq<Timed>, n: nat, a: Address, now: nat) {
    exists j: nat :: OpenAt(env, run, n, a, j) && now < run[j].now + env.cfg.delaySecs + env.cfg.completionWindowSecs
  }

  lemma OpenIsStored(env: Env, run: seq<Timed>, n: nat, a: Address, j: nat)
    requires OpenAt(env, run, n, a, j)
    ensures a in At(env, run, n).pendings
    ensures var executable := run[j].now + env.cfg.delaySecs;
            At(env, run, n).pendings[a] ==
              Pending(run[j].call.newPubkey, run[j].call.nullifier, run[j].now, executable,
                      executable + env.cfg.completionWindowSecs)
  {
    hide At, Accepted;
    PendingPersists(env, run, j, n, a, PendingOf(env.cfg, run[j].now, run[j].call));
  }

  lemma StoredIsOpen(env: Env, run: seq<Timed>, n: nat, a: Address) returns (j: nat)
    requires n <= |run| && a in At(env, run, n).pendings
    ensures OpenAt(env, run, n, a, j)
  {
    hide At, Accepted, Disturbs;
    j := PendingHasOrigin(env, run, n, a);
  }

  /** `has_pending` answers true exactly until the open recovery's window closes. */
  lemma HasPendingIff(env: Env, run: seq<Timed>, n: nat, a: Address, now: nat)
    requires n <= |run|
    ensures Live(At(env, run, n), a, now) <==> OpenUntil(env, run, n, a, now)
  {
    hide At, Accepted, Disturbs;
    if a in At(env, run, n).pendings {
      var j := StoredIsOpen(env, run, n, a);
      OpenIsStored(env, run, n, a, j);
    }
    forall j: nat | OpenAt(env, run, n, a, j)
      ensures a in At(env, run, n).pendings && At(env, run, n).pendings[a].expiresAt
           == run[j].now + env.cfg.delaySecs + env.cfg.completionWindowSecs
    {
      OpenIsStored(env, run, n, a, j);
    }
  }

  // ---- nullifiers ----

  /** Call `k` burns `m`, or completes the open recovery that holds it. */
  ghost predicate ConsumedBy(env: Env, run: seq<Timed>, k: nat, m: Bytes32) {
    && k < |run| && Accepted(env, run, k)
    && var c := run[k].call;
       || (c.Burn? && c.nullifier == m)
       || (c.Enforce? && exists j: nat :: OpenAt(env, run, k, c.account, j) && run[j].call.nullifier == m)
  }

  ghost predicate Consumed(env: Env, run: seq<Timed>, n: nat, m: Bytes32) {
    exists k: nat :: k < n && ConsumedBy(env, run, k, m)
  }

  ghost predicate HeldByOther(env: Env, run: seq<Timed>, n: nat, a: Address, m: Bytes32) {
    exists b, j: nat :: b != a && OpenAt(env, run, n, b, j) && run[j].call.nullifier == m
  }

  lemma SpentStepIff(env: Env, s: Ledger, now: U64, c: Call, m: Bytes32)
    ensures SpentIn(Step(env, s, now, c), m) <==>
            || SpentIn(s, m)
            || (Apply(env, s, now, c).Ok? && c.Burn? && c.nullifier == m)
            || (Apply(env, s, now, c).Ok? && c.Enforce? && c.account in s.pendings && s.pendings[c.account].nullifier == m)
  {
    hide Apply;
    ApplyEffect(env, s, now, c);
  }

  lemma HeldNullifier(env: Env, run: seq<Timed>, n: nat, a: Address, m: Bytes32)
    requires n <= |run|
    ensures a in At(env, run, n).pendings && At(env, run, n).pendings[a].nullifier == m <==>
            exists j: nat :: OpenAt(env, run, n, a, j) && run[j].call.nullifier == m
  {
    hide At, Accepted, Disturbs;
    if a in At(env, run, n).pendings {
      var j := StoredIsOpen(env, run, n, a);
      OpenIsStored(env, run, n, a, j);
    }
    forall j: nat | OpenAt(env, run, n, a, j)
      ensures a in At(env, run, n).pendings && At(env, run, n).pendings[a].nullifier == run[j].call.nullifier
    {
      OpenIsStored(env, run, n, a, j);
    }
  }

  lemma ConsumedNone(env: Env, run: seq<Timed>, m: Bytes32)
    ensures !Consumed(env, run, 0, m)
  {
  }

  lemma ConsumedStep(env: Env, run: seq<Timed>, n: nat, m: Bytes32)
    ensures Consumed(env, run, n + 1, m) <==> Consumed(env, run, n, m) || ConsumedBy(env, run, n, m)
  {
    hide ConsumedBy;
    if Consumed(env, run, n, m) {
      var k: nat :| k < n && ConsumedBy(env, run, k, m);
      assert k < n + 1;
    }
  }

  /** A nullifier is spent exactly when an earlier call consumed it. */
  lemma {:induction false} SpentIff(env: Env, run: seq<Timed>, n: nat, m: Bytes32)
    requires n <= |run|
    ensures SpentIn(At(env, run, n), m) <==> Consumed(env, run, n, m)
  {
    hide Step, Apply, OpenAt, Consumed;
    ConsumedNone(env, run, m);
    if n > 0 {
      SpentIff(env, run, n - 1, m);
      ConsumedStep(env, run, n - 1, m);
      SpentStepIff(env, At(env, run, n - 1), run[n - 1].now, run[n - 1].call, m);
      HeldNullifier(env, run, n - 1, run[n - 1].call.account, m);
    }
  }

  /** Once `a`'s stale record has let go, an entry that is not spent is held by another's open recovery. */
  lemma ReservedIff(env: Env, run: seq<Timed>, n: nat, a: Address, m: Bytes32)
    requires n <= |run| && !Consumed(env, run, n, m)
    ensures m in Superseded(At(env, run, n), a) <==> HeldByOther(env, run, n, a, m)
  {
    hide At, Accepted, Disturbs, Consumed;
    var s := At(env, run, n);
    SpentIff(env, run, n, m);
    ReachableConsistent(env, run, n);
    assert Backed(s, m);
    if m in Superseded(s, a) {
      HeldNullifier(env, run, n, s.nullifiers[m].account, m);
    }
    if HeldByOther(env, run, n, a, m) {
      var b, j: nat :| b != a && OpenAt(env, run, n, b, j) && run[j].call.nullifier == m;
      HeldNullifier(env, run, n, b, m);
      assert Recorded(s, b);
    }
  }

  // ---- insertions ----

  /** The accepted insertions among the first `n` calls, oldest first, as (account id, commitment). */
  function Inserted(env: Env, run: seq<Timed>, n: nat): seq<(Bytes32, Bytes32)>
    requires n <= |run|
  {
    if n == 0 then []
    else
      var c := run[n - 1].call;
      if (c.Insert? || c.InsertFor?) && Accepted(env, run, n - 1) && c.account.Contract? then
        Inserted(env, run, n - 1) + [(c.account.id, c.commitment)]
      else Inserted(env, run, n - 1)
  }

  /** The stored leaf of each pair, in order. */
  function StoredLeaves(env: Env, pairs: seq<(Bytes32, Bytes32)>): (leaves: seq<Bytes32>)
    ensures |leaves| == |pairs|
    ensures forall k :: 0 <= k < |pairs| ==> leaves[k] == env.storedLeaf(pairs[k].0, pairs[k].1)
  {
    if pairs == [] then []
    else
      var n := |pairs| - 1;
      StoredLeaves(env, pairs[..n]) + [env.storedLeaf(pairs[n].0, pairs[n].1)]
  }

  function LeavesOf(env: Env, run: seq<Timed>, n: nat): seq<Bytes32>
    requires n <= |run|
  {
    StoredLeaves(env, Inserted(env, run, n))
  }

  /** What an insertion does and when: it needs auth, a canonical commitment, a contract account and room. */
  lemma InsertStep(env: Env, s: Ledger, now: U64, c: Call)
    requires c.Insert? || c.InsertFor?
    ensures Apply(env, s, now, c) ==
            if !c.auth then Err(AuthFailed)
            else if BeValue(c.commitment) >= R then Err(NonCanonicalCommitment)
            else if !c.account.Contract? then Err(BadAddress)
            else if |s.leaves| >= MerkleTree.Pow2(env.tree.depth) then Err(TreeFull)
            else Ok(s.(leaves := s.leaves + [env.storedLeaf(c.account.id, c.commitment)]))
  {
  }

  /** The pool's leaves are the stored form of the accepted insertions, in order. */
  lemma {:induction false} LeavesAreInserted(env: Env, run: seq<Timed>, n: nat)
    requires n <= |run|
    ensures At(env, run, n).leaves == LeavesOf(env, run, n)
  {
    hide Apply, MerkleTree.Pow2;
    if n > 0 {
      var c := run[n - 1].call;
      LeavesAreInserted(env, run, n - 1);
      if c.Insert? || c.InsertFor? {
        InsertStep(env, At(env, run, n - 1), run[n - 1].now, c);
      } else {
        LeavesFrame(env, At(env, run, n - 1), run[n - 1].now, c);
      }
    }
  }

  /** One of the roots after the last 128 insertions, or the empty tree's before the first. */
  ghost predicate RecentRoot(env: Env, leaves: seq<Bytes32>, root: Bytes32) {
    if leaves == [] then root == env.tree.Root([])
    else exists k :: 0 < k <= |leaves| && |leaves| - k < 128 && root == env.tree.Root(leaves[..k])
  }

  lemma KnownRootIff(env: Env, leaves: seq<Bytes32>, root: Bytes32)
    ensures KnownRoot(env, leaves, root) <==> RecentRoot(env, leaves, root)
  {
    var n := |leaves|;
    if leaves == [] {
      assert leaves[..0] == [];
    } else {
      assert forall k :: 0 <= k <= n ==> Pool.RootAfter(env.tree, leaves, k) == env.tree.Root(leaves[..k]);
    }
  }

  // ---- installation ----

  /** Call `k` is the accepted installation for `a`, under rule `id`. */
  ghost predicate InstalledBy(env: Env, run: seq<Timed>, k: nat, a: Address, id: nat) {
    k < |run| && run[k].call.Install? && run[k].call.account == a && run[k].call.rule.id == id && Accepted(env, run, k)
  }

  ghost predicate InstalledAs(env: Env, run: seq<Timed>, n: nat, a: Address, id: nat) {
    exists k: nat :: k < n && InstalledBy(env, run, k, a, id)
  }

  lemma InstalledFrame(env: Env, s: Ledger, now: U64, c: Call)
    requires !c.Install?
    ensures Step(env, s, now, c).installed == s.installed
  {
    hide InitiateRefusal, CancelRefusal, BurnRefusal, Permitted, Superseded, RecentInitiations, KnownRoot;
  }

  lemma InstalledStep(env: Env, s: Ledger, now: U64, c: Call, a: Address, id: nat)
    ensures var s' := Step(env, s, now, c);
            a in s'.installed && s'.installed[a] == id <==>
              || (a in s.installed && s.installed[a] == id)
              || (Apply(env, s, now, c).Ok? && c.Install? && c.account == a && c.rule.id == id)
  {
    hide InitiateRecovery, CancelRecovery, BurnNullifier, EnforcePolicy, InsertBound;
    if !c.Install? {
      InstalledFrame(env, s, now, c);
    }
  }

  lemma InstalledAsStep(env: Env, run: seq<Timed>, n: nat, a: Address, id: nat)
    ensures InstalledAs(env, run, n + 1, a, id) <==> InstalledAs(env, run, n, a, id) || InstalledBy(env, run, n, a, id)
    ensures !InstalledAs(env, run, 0, a, id)
  {
    hide InstalledBy;
    if InstalledAs(env, run, n, a, id) {
      var k: nat :| k < n && InstalledBy(env, run, k, a, id);
      assert k < n + 1;
    }
  }

  /** The contract knows an account under a rule id exactly when an earlier call installed it so. */
  lemma {:induction false} InstalledIff(env: Env, run: seq<Timed>, n: nat, a: Address, id: nat)
    requires n <= |run|
    ensures a in At(env, run, n).installed && At(env, run, n).installed[a] == id <==> InstalledAs(env, run, n, a, id)
  {
    hide Step, Apply, InstalledAs;
    InstalledAsStep(env, run, if n > 0 then n - 1 else 0, a, id);
    if n > 0 {
      InstalledIff(env, run, n - 1, a, id);
      InstalledStep(env, At(env, run, n - 1), run[n - 1].now, run[n - 1].call, a, id);
    }
  }

  // ---- the rate limit ----

  lemma {:induction false} PrunedShorter(ts: seq<nat>, cutoff: nat)
    ensures |Pruned(ts, cutoff)| <= |ts|
  {
    if ts != [] {
      PrunedShorter(ts[..|ts| - 1], cutoff);
    }
  }

  lemma {:induction false} PrunedAllOld(ts: seq<nat>, cutoff: nat)
    requires forall p :: 0 <= p < |ts| ==> ts[p] < cutoff
    ensures Pruned(ts, cutoff) == []
  {
    if ts != [] {
      PrunedAllOld(ts[..|ts| - 1], cutoff);
    }
  }

  lemma PrunedDropsOld(ts: seq<nat>, cutoff: nat)
    requires |ts| >= 3 && ts[|ts| - 3] < cutoff
    requires forall p, q :: 0 <= p < q < |ts| ==> ts[p] <= ts[q]
    ensures |Pruned(ts, cutoff)| < 3
  {
    var n := |ts|;
    PrunedAllOld(ts[..n - 2], cutoff);
    assert ts[..n - 1][..n - 2] == ts[..n - 2];
    assert |Pruned(ts[..n - 1], cutoff)| <= 1;
  }

  ghost predicate NoLater(run: seq<Timed>, n: nat, now: nat) {
    forall k :: 0 <= k < n && k < |run| ==> run[k].now <= now
  }

  /** Three initiations are held against an account exactly while the third last is at most 90 days old. */
  lemma RateIff(env: Env, run: seq<Timed>, n: nat, a: Address, now: nat)
    requires n <= |run| && Chronological(run) && NoLater(run, n, now)
    ensures var ts := Times(env, run, Initiations(a), n);
            |RecentInitiations(At(env, run, n), a, now)| < RATE_LIMIT_MAX <==>
              |ts| < 3 || ts[|ts| - 3] + 90 * 24 * 3600 < now
  {
    hide At, Accepted, RecentInitiations;
    var ts, cutoff := Times(env, run, Initiations(a), n), Cutoff(now);
    WindowIsPrunedHistory(env, run, a, n);
    RecentAreHistory(env, run, a, n, now);
    TimesOrdered(env, run, Initiations(a), n, now);
    PrunedShorter(ts, cutoff);
    if |ts| >= 3 {
      if ts[|ts| - 3] + RATE_WINDOW_SECS < now {
        PrunedDropsOld(ts, cutoff);
      } else {
        PrunedKeepsThree(ts, cutoff);
      }
    }
  }
}
