/** The recovery contract's theorems, carried over to its runs together with any number of accounts. */
module WorldRuns {
  import opened Bytes
  import opened FieldHash
  import opened Recovery
  import Runs = RecoveryRuns
  import Life = NullifierLife
  import Rates = RateLimits
  import Histories
  import Outcomes
  import opened TwoContracts
  import opened Projection

  /** Transactions and projected calls: the same proof calls, and each completion an `enforce`. */
  lemma CallProjects(env: Env, run: seq<TimedTx>, i: nat)
    requires i < |run|
    ensures Projected(env, run)[i].now == run[i].now
    ensures var c, tx := Projected(env, run)[i].call, run[i].tx;
            && (tx.Zk? ==> c == tx.call && (Accepted(env, run, i) <==> Runs.Accepted(env, Projected(env, run), i)))
            && (!tx.Zk? ==> !Runs.IsProof(c) && c.account == tx.account)
            && (tx.Complete? && Accepted(env, run, i) ==> c.Enforce? && Runs.Accepted(env, Projected(env, run), i))
            && (c.Enforce? && !tx.Zk? ==> tx.Complete? && Accepted(env, run, i))
  {
    hide Perform, Apply;
    RunProjects(env, run, i);
    var w, tx := WorldAt(env, run, i), run[i].tx;
    if tx.Complete? && Perform(env, w, run[i].now, tx).Ok? {
      CompleteProjects(env, w, run[i].now, tx);
    }
  }

  /** Equal nullifiers of verifying calls name equal accounts. */
  ghost predicate Binds(env: Env, run: seq<TimedTx>) {
    forall i, j | 0 <= i < |run| && 0 <= j < |run| && run[i].tx.Zk? && run[j].tx.Zk? ::
      Life.SameAccount(env, run[i].tx.call, run[j].tx.call)
  }

  lemma BindsProjects(env: Env, run: seq<TimedTx>)
    requires Binds(env, run)
    ensures Life.Binds(env, Projected(env, run))
  {
    hide Projected, Accepted, Runs.Accepted;
    var calls := Projected(env, run);
    forall i, j | 0 <= i < |calls| && 0 <= j < |calls| ensures Life.SameAccount(env, calls[i].call, calls[j].call) {
      CallProjects(env, run, i);
      CallProjects(env, run, j);
    }
  }

  ghost predicate Chronological(run: seq<TimedTx>) {
    forall i, j :: 0 <= i < j < |run| ==> run[i].now <= run[j].now
  }

  // ---- records and reservations ----

  /** Transaction `j` is the accepted initiation that stored `p` for `a`. */
  ghost predicate Opened(env: Env, run: seq<TimedTx>, j: nat, a: Address, p: Pending) {
    && j < |run| && run[j].tx.Zk? && run[j].tx.call.Initiate? && run[j].tx.call.account == a
    && Accepted(env, run, j)
    && p == PendingOf(env.cfg, run[j].now, run[j].tx.call)
  }

  /** An accepted transaction that bears on `a`'s record, or burns its nullifier in `a`'s name. */
  ghost predicate Disturbs(env: Env, run: seq<TimedTx>, k: nat, a: Address, n: Bytes32)
    requires k < |run|
  {
    var tx := run[k].tx;
    Accepted(env, run, k) && if tx.Zk? then Runs.Touches(tx.call, a, n) else tx.Complete? && tx.account == a
  }

  lemma DisturbsProjects(env: Env, run: seq<TimedTx>, k: nat, a: Address, n: Bytes32)
    requires k < |run|
    ensures Disturbs(env, run, k, a, n) ==> Runs.Disturbs(env, Projected(env, run), k, a, n)
  {
    hide Projected, Accepted, Runs.Accepted;
    CallProjects(env, run, k);
  }

  /** A record comes from an accepted initiation that nothing accepted since has touched. */
  lemma PendingHasOrigin(env: Env, run: seq<TimedTx>, n: nat, a: Address) returns (j: nat)
    requires n <= |run| && a in WorldAt(env, run, n).zk.pendings
    ensures j < n && Opened(env, run, j, a, WorldAt(env, run, n).zk.pendings[a])
    ensures forall k :: j < k < n ==> !Disturbs(env, run, k, a, WorldAt(env, run, n).zk.pendings[a].nullifier)
  {
    hide Accepted, Runs.Accepted, WorldStep, Step, LedgerCall;
    var calls := Projected(env, run);
    RunProjects(env, run, n);
    j := Runs.PendingHasOrigin(env, calls, n, a);
    CallProjects(env, run, j);
    var m := WorldAt(env, run, n).zk.pendings[a].nullifier;
    forall k | j < k < n ensures !Disturbs(env, run, k, a, m) {
      DisturbsProjects(env, run, k, a, m);
    }
  }

  /** Reservations and records stay in one-to-one correspondence, and no two records share a nullifier. */
  lemma ReservationsMatchRecords(env: Env, run: seq<TimedTx>, i: nat, n: Bytes32, a: Address)
    requires i <= |run| && Binds(env, run)
    ensures var s := WorldAt(env, run, i).zk;
            && Runs.Consistent(s)
            && (n in s.nullifiers && s.nullifiers[n] == Reserved(a) <==> a in s.pendings && s.pendings[a].nullifier == n)
  {
    hide Projected, WorldAt, Runs.At, Runs.Consistent;
    RunProjects(env, run, i);
    BindsProjects(env, run);
    Runs.ReachableConsistent(env, Projected(env, run), i);
    Life.ReservationsMatchRecords(env, Projected(env, run), i, n, a);
  }

  // ---- consumption ----

  /** Transaction `i` completes, as an `enforce` of either kind, or burns what holds `n`. */
  ghost predicate Consumes(env: Env, run: seq<TimedTx>, i: nat, n: Bytes32) {
    && i < |run| && Accepted(env, run, i)
    && var tx, s := run[i].tx, WorldAt(env, run, i).zk;
       if tx.Zk? && tx.call.Burn? then tx.call.nullifier == n
       else
         && (tx.Complete? || (tx.Zk? && tx.call.Enforce?))
         && var a := if tx.Zk? then tx.call.account else tx.account;
            a in s.pendings && s.pendings[a].nullifier == n
  }

  lemma ConsumesProjects(env: Env, run: seq<TimedTx>, i: nat, n: Bytes32)
    requires Consumes(env, run, i, n)
    ensures Life.Completes(env, Projected(env, run), i, n) || Life.Burns(env, Projected(env, run), i, n)
  {
    hide Projected, Accepted, Runs.Accepted, WorldAt, Runs.At;
    RunProjects(env, run, i);
    CallProjects(env, run, i);
  }

  /** A nullifier is consumed at most once by completions and burns together. */
  lemma ConsumedAtMostOnce(env: Env, run: seq<TimedTx>, i: nat, k: nat, n: Bytes32)
    requires Binds(env, run) && Consumes(env, run, i, n) && Consumes(env, run, k, n)
    ensures i == k
  {
    hide Projected, Consumes, Life.Completes, Life.Burns;
    BindsProjects(env, run);
    ConsumesProjects(env, run, i, n);
    ConsumesProjects(env, run, k, n);
    Life.ConsumedAtMostOnce(env, Projected(env, run), i, k, n);
  }

  /** `Spent` is for ever. */
  lemma SpentForever(env: Env, run: seq<TimedTx>, i: nat, k: nat, n: Bytes32)
    requires i <= k <= |run| && Life.SpentIn(WorldAt(env, run, i).zk, n)
    ensures Life.SpentIn(WorldAt(env, run, k).zk, n)
  {
    hide Projected, WorldAt, Runs.At;
    RunProjects(env, run, i);
    RunProjects(env, run, k);
    Life.SpentForever(env, Projected(env, run), i, k, n);
  }

  // ---- nonces and limits ----

  ghost predicate Counted(env: Env, run: seq<TimedTx>, kind: Rates.Kind, i: nat) {
    i < |run| && run[i].tx.Zk? && kind.Covers(run[i].tx.call) && Accepted(env, run, i)
  }

  lemma CountedProjects(env: Env, run: seq<TimedTx>, kind: Rates.Kind, i: nat)
    ensures Counted(env, run, kind, i) <==> Rates.Counted(env, Projected(env, run), kind, i)
  {
    hide Projected, Accepted, Runs.Accepted;
    if i < |run| {
      CallProjects(env, run, i);
    }
  }

  /** No two accepted proof calls are checked against the same hashed vector. */
  lemma NoTargetRepeats(env: Env, run: seq<TimedTx>, i: nat, k: nat)
    requires i < k < |run| && run[i].tx.Zk? && run[k].tx.Zk?
    requires Runs.IsProof(run[i].tx.call) && Runs.IsProof(run[k].tx.call)
    requires Accepted(env, run, i) && Accepted(env, run, k)
    ensures run[i].tx.call.account.Contract? && run[k].tx.call.account.Contract?
    ensures Reduced(AuthInputs(Runs.Target(env, run[i].tx.call))) != Reduced(AuthInputs(Runs.Target(env, run[k].tx.call)))
  {
    hide Projected, Accepted, Runs.Accepted, AuthInputs;
    CallProjects(env, run, i);
    CallProjects(env, run, k);
    Rates.NoTargetRepeats(env, Projected(env, run), i, k);
  }

  lemma ChronologyProjects(env: Env, run: seq<TimedTx>)
    requires Chronological(run)
    ensures Runs.Chronological(Projected(env, run))
  {
    hide LedgerCall, WorldAt;
  }

  /** Any four accepted initiations of an account, in order, span more than 90 days. */
  lemma FourInitiationsSpanWindow(env: Env, run: seq<TimedTx>, a: Address, i1: nat, i2: nat, i3: nat, i4: nat)
    requires Chronological(run) && i1 < i2 < i3 < i4
    requires Counted(env, run, Rates.Initiations(a), i1) && Counted(env, run, Rates.Initiations(a), i2)
    requires Counted(env, run, Rates.Initiations(a), i3) && Counted(env, run, Rates.Initiations(a), i4)
    ensures run[i4].now > run[i1].now + RATE_WINDOW_SECS
  {
    hide Projected, Accepted, Rates.Counted;
    var calls, kind := Projected(env, run), Rates.Initiations(a);
    ChronologyProjects(env, run);
    CountedProjects(env, run, kind, i1);
    CountedProjects(env, run, kind, i2);
    CountedProjects(env, run, kind, i3);
    CountedProjects(env, run, kind, i4);
    CallProjects(env, run, i1);
    CallProjects(env, run, i4);
    Rates.FourInitiationsSpanWindow(env, calls, a, i1, i2, i3, i4);
  }

  /** An account cancels at most `max_cancels` times, and cancels p and q lie (q-p) days apart. */
  lemma CancelsSpread(env: Env, run: seq<TimedTx>, a: Address, p: nat, q: nat)
    requires p <= q < |Rates.Times(env, Projected(env, run), Rates.Cancels(a), |run|)|
    ensures var ts := Rates.Times(env, Projected(env, run), Rates.Cancels(a), |run|);
            |ts| <= env.cfg.maxCancels && ts[q] >= ts[p] + (q - p) * CANCEL_COOLDOWN_SECS
  {
    hide Projected, Rates.Times;
    Rates.CancelsSpread(env, Projected(env, run), a, p, q);
  }

  /** The stored nonce is the number of accepted proof calls. */
  lemma NonceCounts(env: Env, run: seq<TimedTx>, a: Address, i: nat)
    requires i <= |run|
    ensures StoredNonce(WorldAt(env, run, i).zk, a) == |Rates.Times(env, Projected(env, run), Rates.Proofs(a), i)|
  {
    hide Projected, WorldAt, Runs.At, Rates.Times;
    RunProjects(env, run, i);
    Rates.NonceCounts(env, Projected(env, run), a, i);
  }

  // ---- no bricking ----

  lemma {:induction false} WorldPrefix(env: Env, run: seq<TimedTx>, last: TimedTx, i: nat)
    requires i <= |run|
    ensures WorldAt(env, run + [last], i) == WorldAt(env, run, i)
  {
    hide WorldStep;
    if i > 0 {
      WorldPrefix(env, run, last, i - 1);
      assert (run + [last])[i - 1] == run[i - 1];
    }
  }

  /** After any run, an initiation succeeds exactly when it is ready: nothing an account does can get in the way. */
  lemma InitiationSucceedsIffReady(env: Env, run: seq<TimedTx>, now: U64, c: Call)
    requires c.Initiate? && Chronological(run + [TimedTx(now, Zk(c))]) && Binds(env, run + [TimedTx(now, Zk(c))])
    ensures Apply(env, WorldAt(env, run, |run|).zk, now, c).Ok? <==>
            Outcomes.Ready(env, Projected(env, run), |run|, now, c)
  {
    hide WorldAt, Runs.At, Apply, Outcomes.Ready, Projected, Chronological, Binds, Life.Binds, Runs.Chronological;
    var last := TimedTx(now, Zk(c));
    ProjectionGrows(env, run, now, c);
    BindsProjects(env, run + [last]);
    RunProjects(env, run, |run|);
    EarlierTimes(env, run, last);
    Outcomes.InitiationSucceedsIffReady(env, Projected(env, run), Runs.Timed(now, c));
  }

  lemma ProjectionGrows(env: Env, run: seq<TimedTx>, now: U64, c: Call)
    ensures Projected(env, run + [TimedTx(now, Zk(c))]) == Projected(env, run) + [Runs.Timed(now, c)]
  {
    hide WorldStep, Apply, LedgerCall;
    var last := TimedTx(now, Zk(c));
    var calls, longer := Projected(env, run), Projected(env, run + [last]);
    forall i | 0 <= i < |run| ensures longer[i] == calls[i] {
      WorldPrefix(env, run, last, i);
    }
    CallProjects(env, run + [last], |run|);
  }

  lemma EarlierTimes(env: Env, run: seq<TimedTx>, last: TimedTx)
    requires Chronological(run + [last])
    ensures Runs.Chronological(Projected(env, run)) && Histories.NoLater(Projected(env, run), |run|, last.now)
  {
    hide LedgerCall, WorldAt;
    var all := run + [last];
    forall i, j | 0 <= i < j < |run| ensures run[i].now <= run[j].now {
      assert all[i] == run[i] && all[j] == run[j];
    }
    forall i | 0 <= i < |run| ensures run[i].now <= last.now {
      assert all[i] == run[i] && all[|run|] == last;
    }
    ChronologyProjects(env, run);
  }
}
