/**
 The life of a nullifier over whole runs: reserved by exactly one record, consumed at
 most once, and never in the way of its own account's next attempt.
 */
module NullifierLife {
  import opened Bytes
  import opened Wrappers
  import opened FieldHash
  import opened Recovery
  import opened RecoveryRuns
  import Pool = MerklePool

  /**
   Among the calls of a run whose proofs verify, equal nullifiers name equal accounts.
   `Credentials.BindsOrCollides` shows what a violation would exhibit.
   */
  ghost predicate Binds(env: Env, run: seq<Timed>) {
    forall i, j | 0 <= i < |run| && 0 <= j < |run| :: SameAccount(env, run[i].call, run[j].call)
  }

  ghost predicate SameAccount(env: Env, c: Call, d: Call) {
    Proven(env, c) && Proven(env, d) && c.nullifier == d.nullifier ==> c.account == d.account
  }

  ghost predicate Held(s: Ledger, a: Address) {
    a in s.pendings ==>
      var n := s.pendings[a].nullifier; n in s.nullifiers && s.nullifiers[n] == Reserved(a)
  }

  lemma HeldStep(env: Env, s: Ledger, now: U64, c: Call, a: Address)
    requires Consistent(s) && Held(s, a)
    requires Proven(env, c) && c.Burn? && a in s.pendings && s.pendings[a].nullifier == c.nullifier ==> a == c.account
    ensures Held(Step(env, s, now, c), a)
  {
    hide Apply;
    ApplyEffect(env, s, now, c);
    assert Recorded(s, a);
    if IsProof(c) {
      assert Backed(s, c.nullifier);
    }
    if c.account in s.pendings {
      assert Apart(s, a, c.account) && Recorded(s, c.account);
    }
  }

  lemma {:induction false} RecordsHeld(env: Env, run: seq<Timed>, i: nat, a: Address)
    requires i <= |run| && Binds(env, run)
    ensures Held(At(env, run, i), a)
  {
    if i > 0 {
      var s, last := At(env, run, i - 1), run[i - 1];
      RecordsHeld(env, run, i - 1, a);
      ReachableConsistent(env, run, i - 1);
      if Proven(env, last.call) && last.call.Burn? && a in s.pendings && s.pendings[a].nullifier == last.call.nullifier {
        var j := PendingHasOrigin(env, run, i - 1, a);
        ApplyEffect(env, At(env, run, j), run[j].now, run[j].call);
        assert SameAccount(env, run[j].call, last.call);
      }
      HeldStep(env, s, last.now, last.call, a);
    }
  }

  /** Reservations and pending records are in one-to-one correspondence at every point of a run. */
  lemma ReservationsMatchRecords(env: Env, run: seq<Timed>, i: nat, n: Bytes32, a: Address)
    requires i <= |run| && Binds(env, run)
    ensures var s := At(env, run, i);
            n in s.nullifiers && s.nullifiers[n] == Reserved(a) <==> a in s.pendings && s.pendings[a].nullifier == n
  {
    ReachableConsistent(env, run, i);
    RecordsHeld(env, run, i, a);
    assert Backed(At(env, run, i), n);
  }

  // ---- consumption ----

  ghost predicate SpentIn(s: Ledger, n: Bytes32) {
    n in s.nullifiers && s.nullifiers[n] == Spent
  }

  lemma SpentStep(env: Env, s: Ledger, now: U64, c: Call, n: Bytes32)
    requires SpentIn(s, n)
    ensures SpentIn(Step(env, s, now, c), n)
  {
    hide Apply;
    ApplyEffect(env, s, now, c);
  }

  /** `Spent` is for ever. */
  lemma {:induction false} SpentForever(env: Env, run: seq<Timed>, i: nat, k: nat, n: Bytes32)
    requires i <= k <= |run| && SpentIn(At(env, run, i), n)
    ensures SpentIn(At(env, run, k), n)
  {
    if i < k {
      SpentForever(env, run, i, k - 1, n);
      SpentStep(env, At(env, run, k - 1), run[k - 1].now, run[k - 1].call, n);
    }
  }

  /** Spent, and no record holds it any more. */
  ghost predicate Dead(s: Ledger, n: Bytes32) {
    SpentIn(s, n) && forall a :: a in s.pendings ==> s.pendings[a].nullifier != n
  }

  lemma DeadStep(env: Env, s: Ledger, now: U64, c: Call, n: Bytes32)
    requires Dead(s, n)
    ensures Dead(Step(env, s, now, c), n)
  {
    hide Apply;
    ApplyEffect(env, s, now, c);
  }

  lemma {:induction false} DeadForever(env: Env, run: seq<Timed>, i: nat, k: nat, n: Bytes32)
    requires i <= k <= |run| && Dead(At(env, run, i), n)
    ensures Dead(At(env, run, k), n)
  {
    if i < k {
      DeadForever(env, run, i, k - 1, n);
      DeadStep(env, At(env, run, k - 1), run[k - 1].now, run[k - 1].call, n);
    }
  }

  /** Call `i` completes a recovery that holds `n`. */
  ghost predicate Completes(env: Env, run: seq<Timed>, i: nat, n: Bytes32) {
    && i < |run| && run[i].call.Enforce? && Accepted(env, run, i)
    && var s, a := At(env, run, i), run[i].call.account;
       a in s.pendings && s.pendings[a].nullifier == n
  }

  ghost predicate Burns(env: Env, run: seq<Timed>, i: nat, n: Bytes32) {
    i < |run| && run[i].call.Burn? && run[i].call.nullifier == n && Accepted(env, run, i)
  }

  lemma CompletionKills(env: Env, run: seq<Timed>, i: nat, n: Bytes32)
    requires Completes(env, run, i, n)
    ensures Dead(At(env, run, i + 1), n)
  {
    hide Apply;
    var s := At(env, run, i);
    ReachableConsistent(env, run, i);
    ApplyEffect(env, s, run[i].now, run[i].call);
    forall b | b in s.pendings && b != run[i].call.account ensures s.pendings[b].nullifier != n {
      assert Apart(s, b, run[i].call.account);
    }
  }

  lemma BurnKills(env: Env, run: seq<Timed>, i: nat, n: Bytes32)
    requires Burns(env, run, i, n) && Binds(env, run)
    ensures Dead(At(env, run, i + 1), n)
  {
    hide Apply;
    var s := At(env, run, i);
    ApplyEffect(env, s, run[i].now, run[i].call);
    forall b | b in s.pendings && s.pendings[b].nullifier == n ensures b == run[i].call.account {
      var j := PendingHasOrigin(env, run, i, b);
      ApplyEffect(env, At(env, run, j), run[j].now, run[j].call);
      assert SameAccount(env, run[j].call, run[i].call);
    }
  }

  /** A nullifier is completed at most once, whatever else happens. */
  lemma CompletedAtMostOnce(env: Env, run: seq<Timed>, i: nat, k: nat, n: Bytes32)
    requires Completes(env, run, i, n) && Completes(env, run, k, n)
    ensures i == k
  {
    var first, second := if i < k then i else k, if i < k then k else i;
    if i != k {
      CompletionKills(env, run, first, n);
      DeadForever(env, run, first + 1, second, n);
    }
  }

  /** When nullifiers name accounts, completion and burn together consume one at most once. */
  lemma ConsumedAtMostOnce(env: Env, run: seq<Timed>, i: nat, k: nat, n: Bytes32)
    requires Binds(env, run)
    requires Completes(env, run, i, n) || Burns(env, run, i, n)
    requires Completes(env, run, k, n) || Burns(env, run, k, n)
    ensures i == k
  {
    hide Apply;
    var first, second := if i < k then i else k, if i < k then k else i;
    if i != k {
      if Completes(env, run, first, n) {
        CompletionKills(env, run, first, n);
      } else {
        BurnKills(env, run, first, n);
      }
      DeadForever(env, run, first + 1, second, n);
      ApplyEffect(env, At(env, run, second), run[second].now, run[second].call);
    }
  }

  /**
   The premise is needed: were another account's proof to verify for a reserved nullifier,
   its burn would spend it and yet leave the record standing, still ready to complete.
   */
  lemma ForeignBurnLeavesRecord(env: Env, s: Ledger, now: U64, burn: Call, later: U64, enforce: Call)
    requires burn.Burn? && Apply(env, s, now, burn).Ok?
    requires enforce.Enforce? && enforce.account in s.pendings && enforce.account != burn.account
    requires s.pendings[enforce.account].nullifier == burn.nullifier
    ensures SpentIn(Step(env, s, now, burn), burn.nullifier)
    ensures Apply(env, Step(env, s, now, burn), later, enforce).Ok? <==> Apply(env, s, later, enforce).Ok?
  {
  }

  // ---- no call is blocked by a record that has run out ----

  /** A record whose nullifier verifies for the caller is the caller's own. */
  lemma ReservedByCaller(env: Env, run: seq<Timed>, t: Timed, a: Address)
    requires Proven(env, t.call) && Binds(env, run + [t])
    requires a in At(env, run, |run|).pendings && At(env, run, |run|).pendings[a].nullifier == t.call.nullifier
    ensures a == t.call.account
  {
    hide Apply, Step;
    var j := PendingHasOrigin(env, run, |run|, a);
    ApplyEffect(env, At(env, run, j), run[j].now, run[j].call);
    var all := run + [t];
    assert SameAccount(env, all[j].call, all[|run|].call);
  }

  /** The windows do not overlap: superseding a record excludes completing and cancelling it. */
  lemma SupersedeExcludesCompletion(env: Env, s: Ledger, now: U64, initiate: Call, other: Call)
    requires initiate.Initiate? && (other.Enforce? || other.Cancel?) && initiate.account == other.account
    ensures !(Apply(env, s, now, initiate).Ok? && Apply(env, s, now, other).Ok?)
  {
    hide Apply;
    ApplyEffect(env, s, now, initiate);
    ApplyEffect(env, s, now, other);
  }

  /** A proof made against the root in force is not refused for its root, now or during the next 127 inserts. */
  lemma RecentRootAccepted(env: Env, s: Ledger, inserted: seq<Bytes32>, now: U64, c: Call)
    requires IsProof(c) && c.root == env.tree.Root(inserted)
    requires inserted <= s.leaves && |s.leaves| < |inserted| + Pool.RING_SIZE && (inserted == [] ==> s.leaves == [])
    ensures Apply(env, s, now, c) != Err(UnknownRoot)
  {
    hide Pool.KnownRoot, Superseded, RecentInitiations;
    if inserted == s.leaves {
      Pool.CurrentRootKnown(env.tree, s.leaves);
    } else {
      Pool.RootStaysKnown(env.tree, inserted, s.leaves[|inserted|..]);
      assert inserted + s.leaves[|inserted|..] == s.leaves;
    }
  }
}
