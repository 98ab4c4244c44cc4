/** What the per-account counters count over whole runs: nonces, initiation times and cancel times. */
module RateLimits {
  import opened FieldHash
  import opened Recovery
  import opened RecoveryRuns

  /** Which accepted calls of one account are looked at. */
  datatype Kind = Initiations(account: Address) | Cancels(account: Address) | Proofs(account: Address) {
    predicate Covers(c: Call) {
      && c.account == account
      && match this {
           case Initiations(_) => c.Initiate?
           case Cancels(_) => c.Cancel?
           case Proofs(_) => IsProof(c)
         }
    }
  }

  /** The times of the accepted calls of a kind among the first `i`. */
  function Times(env: Env, run: seq<Timed>, kind: Kind, i: nat): seq<nat>
    requires i <= |run|
  {
    if i == 0 then []
    else if kind.Covers(run[i - 1].call) && Accepted(env, run, i - 1) then
      Times(env, run, kind, i - 1) + [run[i - 1].now]
    else Times(env, run, kind, i - 1)
  }

  predicate Counted(env: Env, run: seq<Timed>, kind: Kind, i: nat) {
    i < |run| && kind.Covers(run[i].call) && Accepted(env, run, i)
  }

  /** An accepted call takes the next place in the list, and keeps it. */
  lemma {:induction false} PlaceOf(env: Env, run: seq<Timed>, kind: Kind, i: nat, n: nat)
    requires Counted(env, run, kind, i) && i < n <= |run|
    ensures |Times(env, run, kind, i)| < |Times(env, run, kind, n)|
    ensures Times(env, run, kind, n)[|Times(env, run, kind, i)|] == run[i].now
  {
    hide Accepted;
    if i + 1 < n {
      PlaceOf(env, run, kind, i, n - 1);
    }
  }

  // ---- nonces ----

  /** The stored nonce is the number of accepted proof calls. */
  lemma {:induction false} NonceCounts(env: Env, run: seq<Timed>, a: Address, i: nat)
    requires i <= |run|
    ensures StoredNonce(At(env, run, i), a) == |Times(env, run, Proofs(a), i)|
  {
    hide Step, Accepted;
    if i > 0 {
      NonceCounts(env, run, a, i - 1);
      RunStep(env, run, i - 1);
    }
  }

  /** No two accepted proof calls of a run are checked against the same hashed vector. */
  lemma NoTargetRepeats(env: Env, run: seq<Timed>, i: nat, k: nat)
    requires i < k < |run| && IsProof(run[i].call) && IsProof(run[k].call)
    requires Accepted(env, run, i) && Accepted(env, run, k)
    ensures run[i].call.account.Contract? && run[k].call.account.Contract?
    ensures Reduced(AuthInputs(Target(env, run[i].call))) != Reduced(AuthInputs(Target(env, run[k].call)))
  {
    hide Step, Accepted, AuthInputs;
    var c, d := run[i].call, run[k].call;
    RunStep(env, run, i);
    RunStep(env, run, k);
    if Reduced(AuthInputs(Target(env, c))) == Reduced(AuthInputs(Target(env, d))) {
      AuthInputsInjective(Target(env, c), Target(env, d));
      assert c.account == d.account && c.nonce == d.nonce;
      NonceCounts(env, run, c.account, i);
      NonceCounts(env, run, c.account, k);
      PlaceOf(env, run, Proofs(c.account), i, k);
    }
  }

  // ---- initiations ----

  lemma {:induction false} PrunedTwice(ts: seq<nat>, low: nat, high: nat)
    requires low <= high
    ensures Pruned(Pruned(ts, low), high) == Pruned(ts, high)
  {
    if ts != [] {
      var front, last := ts[..|ts| - 1], ts[|ts| - 1];
      PrunedTwice(front, low, high);
      if last >= low {
        assert (Pruned(front, low) + [last])[..|Pruned(front, low)|] == Pruned(front, low);
      }
    }
  }

  /** If the third last time survives the cut then so do the two after it. */
  lemma {:induction false} PrunedKeepsThree(ts: seq<nat>, cutoff: nat)
    requires |ts| >= 3 && ts[|ts| - 3] >= cutoff && ts[|ts| - 2] >= cutoff && ts[|ts| - 1] >= cutoff
    ensures |Pruned(ts, cutoff)| >= 3
  {
    var n := |ts|;
    assert ts[..n - 1][..n - 2] == ts[..n - 2] && ts[..n - 2][..n - 3] == ts[..n - 3];
    assert |Pruned(ts[..n - 2], cutoff)| >= 1;
    assert |Pruned(ts[..n - 1], cutoff)| >= 2;
  }

  function Cutoff(now: nat): nat {
    SaturatingSub(now, RATE_WINDOW_SECS)
  }

  ghost predicate OrderedUpTo(ts: seq<nat>, now: nat) {
    && (forall p, q :: 0 <= p < q < |ts| ==> ts[p] <= ts[q])
    && (forall p :: 0 <= p < |ts| ==> ts[p] <= now)
  }

  lemma {:induction false} TimesOrdered(env: Env, run: seq<Timed>, kind: Kind, i: nat, now: nat)
    requires i <= |run| && Chronological(run)
    requires forall k :: 0 <= k < i ==> run[k].now <= now
    ensures OrderedUpTo(Times(env, run, kind, i), now)
  {
    hide Accepted;
    if i > 0 {
      var earlier, last := Times(env, run, kind, i - 1), run[i - 1].now;
      TimesOrdered(env, run, kind, i - 1, last);
      assert OrderedUpTo(earlier, now) && OrderedUpTo(earlier + [last], now);
    }
  }

  /** The stored window is what pruning at the last initiation leaves of the whole history. */
  ghost predicate WindowOf(w: seq<nat>, history: seq<nat>) {
    if history == [] then w == [] else w == Pruned(history, Cutoff(history[|history| - 1]))
  }

  lemma WindowGrows(history: seq<nat>, now: nat)
    ensures WindowOf(Pruned(history, Cutoff(now)) + [now], history + [now])
  {
    assert (history + [now])[..|history|] == history;
  }

  lemma EmptyWindow(env: Env, run: seq<Timed>, a: Address)
    ensures RateWindow(At(env, run, 0), a) == []
  {
  }

  lemma WindowStep(env: Env, run: seq<Timed>, a: Address, i: nat)
    requires i < |run|
    ensures RateWindow(At(env, run, i + 1), a) ==
            if Counted(env, run, Initiations(a), i) then RecentInitiations(At(env, run, i), a, run[i].now) + [run[i].now]
            else RateWindow(At(env, run, i), a)
  {
    hide Step, Accepted;
    RunStep(env, run, i);
  }

  lemma {:induction false} WindowIsPrunedHistory(env: Env, run: seq<Timed>, a: Address, i: nat)
    requires i <= |run| && Chronological(run)
    ensures WindowOf(RateWindow(At(env, run, i), a), Times(env, run, Initiations(a), i))
  {
    hide At, Accepted, RateWindow, RecentInitiations;
    if i == 0 {
      EmptyWindow(env, run, a);
    } else {
      WindowIsPrunedHistory(env, run, a, i - 1);
      WindowStep(env, run, a, i - 1);
      if Counted(env, run, Initiations(a), i - 1) {
        RecentAreHistory(env, run, a, i - 1, run[i - 1].now);
        WindowGrows(Times(env, run, Initiations(a), i - 1), run[i - 1].now);
      }
    }
  }

  /** Pruning the stored window again is pruning the whole history. */
  lemma RecentAreHistory(env: Env, run: seq<Timed>, a: Address, i: nat, now: nat)
    requires i <= |run| && Chronological(run)
    requires forall k :: 0 <= k < i ==> run[k].now <= now
    requires WindowOf(RateWindow(At(env, run, i), a), Times(env, run, Initiations(a), i))
    ensures RecentInitiations(At(env, run, i), a, now) == Pruned(Times(env, run, Initiations(a), i), Cutoff(now))
  {
    hide Step, Accepted;
    var ts := Times(env, run, Initiations(a), i);
    TimesOrdered(env, run, Initiations(a), i, now);
    if ts != [] {
      PrunedTwice(ts, Cutoff(ts[|ts| - 1]), Cutoff(now));
    }
  }

  /** An initiation is accepted only once the third last before it has left the window. */
  lemma ThirdLastHasLeft(env: Env, run: seq<Timed>, a: Address, i: nat)
    requires Chronological(run) && Counted(env, run, Initiations(a), i)
    ensures var ts := Times(env, run, Initiations(a), i);
            |ts| >= 3 ==> run[i].now > ts[|ts| - 3] + RATE_WINDOW_SECS
  {
    hide Step, Accepted;
    var ts, now := Times(env, run, Initiations(a), i), run[i].now;
    WindowIsPrunedHistory(env, run, a, i);
    RecentAreHistory(env, run, a, i, now);
    RecentInitiationsFew(env, run, a, i);
    TimesOrdered(env, run, Initiations(a), i, now);
    if |ts| >= 3 && now <= ts[|ts| - 3] + RATE_WINDOW_SECS {
      PrunedKeepsThree(ts, Cutoff(now));
    }
  }

  /** Any four accepted initiations of an account, in order, span more than 90 days. */
  lemma FourInitiationsSpanWindow(env: Env, run: seq<Timed>, a: Address, i1: nat, i2: nat, i3: nat, i4: nat)
    requires Chronological(run) && i1 < i2 < i3 < i4
    requires Counted(env, run, Initiations(a), i1) && Counted(env, run, Initiations(a), i2)
    requires Counted(env, run, Initiations(a), i3) && Counted(env, run, Initiations(a), i4)
    ensures run[i4].now > run[i1].now + RATE_WINDOW_SECS
  {
    hide Step, Accepted, Times;
    ThirdLastHasLeft(env, run, a, i4);
    TimesOrdered(env, run, Initiations(a), i4, run[i4].now);
    PlaceOf(env, run, Initiations(a), i1, i2);
    PlaceOf(env, run, Initiations(a), i2, i3);
    PlaceOf(env, run, Initiations(a), i3, i4);
    PlaceOf(env, run, Initiations(a), i1, i4);
  }

  lemma RecentInitiationsFew(env: Env, run: seq<Timed>, a: Address, i: nat)
    requires Counted(env, run, Initiations(a), i)
    ensures |RecentInitiations(At(env, run, i), a, run[i].now)| < RATE_LIMIT_MAX
  {
    hide Step, Accepted;
    RunStep(env, run, i);
  }

  // ---- cancels ----

  /** The cancel counter and the time of the last cancel are those of the history `ts`. */
  ghost predicate CancelsMatch(s: Ledger, a: Address, ts: seq<nat>) {
    && |ts| == CancelsUsed(s, a)
    && if ts == [] then a !in s.lastCancel else a in s.lastCancel && s.lastCancel[a] == ts[|ts| - 1]
  }

  lemma CancelStep(env: Env, run: seq<Timed>, a: Address, i: nat, ts: seq<nat>)
    requires i < |run| && CancelsMatch(At(env, run, i), a, ts)
    ensures if Counted(env, run, Cancels(a), i) then
              && CancelsMatch(At(env, run, i + 1), a, ts + [run[i].now])
              && |ts| < env.cfg.maxCancels
              && (ts != [] ==> run[i].now >= ts[|ts| - 1] + CANCEL_COOLDOWN_SECS)
            else CancelsMatch(At(env, run, i + 1), a, ts)
  {
    hide Step, Accepted;
    RunStep(env, run, i);
  }

  lemma {:induction false} CancelBookkeeping(env: Env, run: seq<Timed>, a: Address, i: nat)
    requires i <= |run|
    ensures var ts := Times(env, run, Cancels(a), i);
            && CancelsMatch(At(env, run, i), a, ts) && |ts| <= env.cfg.maxCancels
            && forall p :: 0 < p < |ts| ==> ts[p] >= ts[p - 1] + CANCEL_COOLDOWN_SECS
  {
    hide Step, Accepted, CancelsMatch;
    if i == 0 {
      NoCancelsYet(env, run, a);
    } else {
      CancelBookkeeping(env, run, a, i - 1);
      CancelStep(env, run, a, i - 1, Times(env, run, Cancels(a), i - 1));
    }
  }

  lemma NoCancelsYet(env: Env, run: seq<Timed>, a: Address)
    ensures CancelsMatch(At(env, run, 0), a, [])
  {
  }

  lemma {:induction false} SpacedTimes(ts: seq<nat>, p: nat, q: nat, gap: nat)
    requires p <= q < |ts| && forall k :: 0 < k < |ts| ==> ts[k] >= ts[k - 1] + gap
    ensures ts[q] >= ts[p] + (q - p) * gap
  {
    if p < q {
      SpacedTimes(ts, p, q - 1, gap);
      assert (q - p) * gap == (q - 1 - p) * gap + gap;
    }
  }

  /** An account cancels at most `max_cancels` times ever, and any k of its cancels span (k-1) days. */
  lemma CancelsSpread(env: Env, run: seq<Timed>, a: Address, p: nat, q: nat)
    requires p <= q < |Times(env, run, Cancels(a), |run|)|
    ensures var ts := Times(env, run, Cancels(a), |run|);
            |ts| <= env.cfg.maxCancels && ts[q] >= ts[p] + (q - p) * CANCEL_COOLDOWN_SECS
  {
    CancelBookkeeping(env, run, a, |run|);
    SpacedTimes(Times(env, run, Cancels(a), |run|), p, q, CANCEL_COOLDOWN_SECS);
  }
}
