/** Finding the rule that carries a key on an account whose rule ids have gaps. */
module RuleScan {
  import opened Bytes
  import opened Wrappers
  import opened Digits
  import opened Recovery

  const SCAN_SLACK: nat := 100

  /** What one query for a rule brings back. */
  datatype Answer = Found(rule: ContextRule) | NotFound | Failed

  datatype ScanError = QueryFailed | Exhausted

  /** `toLowerCase`, as far as it can lead to a hexadecimal digit. */
  function Lower(s: string): string {
    seq(|s|, i requires 0 <= i < |s| =>
      if 'A' <= s[i] <= 'Z' then (s[i] as int - 'A' as int + 'a' as int) as char else s[i])
  }

  /** A signer with a verifier whose key, in lower-case text, is this one; the empty text never matches. */
  predicate Carries(signer: Signer, lowerHex: string) {
    signer.External? && BytesHex(signer.key) != [] && BytesHex(signer.key) == lowerHex
  }

  predicate HoldsKey(rule: ContextRule, lowerHex: string) {
    exists signer :: signer in rule.signers && Carries(signer, lowerHex)
  }

  /** The scan from `id` on, with `found` rules seen so far. */
  function Scan(count: nat, ask: nat -> Answer, lowerHex: string, id: nat, found: nat)
    : Result<Option<nat>, ScanError>
    decreases count + SCAN_SLACK - id
  {
    if found >= count then Ok(None)
    else if id >= count + SCAN_SLACK then Err(Exhausted)
    else
      match ask(id)
      case Failed => Err(QueryFailed)
      case NotFound => Scan(count, ask, lowerHex, id + 1, found)
      case Found(rule) =>
        if HoldsKey(rule, lowerHex) then Ok(Some(rule.id)) else Scan(count, ask, lowerHex, id + 1, found + 1)
  }

  method FindRuleForPubkey(count: nat, ask: nat -> Answer, pubkeyHex: string)
    returns (result: Result<Option<nat>, ScanError>)
    ensures result == Scan(count, ask, Lower(pubkeyHex), 0, 0)
  {
    var lowerHex := Lower(pubkeyHex);
    var found, id := 0, 0;
    while found < count && id < count + SCAN_SLACK
      invariant Scan(count, ask, lowerHex, 0, 0) == Scan(count, ask, lowerHex, id, found)
    {
      var answer := ask(id);
      if answer.Failed? {
        return Err(QueryFailed);
      }
      if answer.Found? {
        var rest := answer.rule.signers;
        while rest != {}
          invariant rest <= answer.rule.signers
          invariant forall signer :: signer in answer.rule.signers - rest ==> !Carries(signer, lowerHex)
        {
          var signer :| signer in rest;
          if Carries(signer, lowerHex) {
            return Ok(Some(answer.rule.id));
          }
          rest := rest - {signer};
        }
        found := found + 1;
      }
      id := id + 1;
    }
    result := if found < count then Err(Exhausted) else Ok(None);
  }

  // ---- what the scan finds on one snapshot of an account ----

  /** Every query answered from the same live rules, each stored under its own id. */
  ghost predicate Snapshot(rules: map<nat, ContextRule>, ask: nat -> Answer) {
    && (forall i :: i in rules ==> rules[i].id == i)
    && (forall i: nat :: ask(i) == if i in rules then Found(rules[i]) else NotFound)
  }

  /** The live rules with ids below `id`. */
  ghost function Below(rules: map<nat, ContextRule>, id: nat): set<nat> {
    set i | i in rules && i < id
  }

  lemma BelowStep(rules: map<nat, ContextRule>, id: nat)
    ensures |Below(rules, id + 1)| == |Below(rules, id)| + if id in rules then 1 else 0
  {
    assert Below(rules, id + 1) == if id in rules then Below(rules, id) + {id} else Below(rules, id);
  }

  /** All rules seen: none has a higher id. */
  lemma AllSeen(rules: map<nat, ContextRule>, id: nat)
    ensures |Below(rules, id)| <= |rules|
    ensures |Below(rules, id)| == |rules| <==> forall i :: i in rules ==> i < id
  {
    var below := Below(rules, id);
    assert below <= rules.Keys && |rules.Keys| == |rules|;
    assert |rules.Keys - below| == |rules.Keys| - |below|;
    if |below| == |rules| {
      assert rules.Keys - below == {};
      forall i | i in rules ensures i < id {
        assert i in rules.Keys - below || i in below;
      }
    } else {
      var i :| i in rules.Keys - below;
    }
  }

  ghost function Holders(rules: map<nat, ContextRule>, lowerHex: string): set<nat> {
    set i | i in rules && HoldsKey(rules[i], lowerHex)
  }

  ghost predicate Lowest(ids: set<nat>, id: nat) {
    id in ids && forall i :: i in ids ==> id <= i
  }

  ghost predicate AllWithin(ids: set<nat>, bound: nat) {
    forall i :: i in ids ==> i < bound
  }

  /** What the scan answers for these live ids, these holders of the key among them, and this bound. */
  ghost predicate Answers(r: Result<Option<nat>, ScanError>, live: set<nat>, holders: set<nat>, bound: nat) {
    && (forall k: nat :: r == Ok(Some(k)) <==> Lowest(holders, k) && k < bound)
    && (r == Ok(None) <==> holders == {} && AllWithin(live, bound))
    && (r == Err(Exhausted) <==> (forall i :: i in holders ==> i >= bound) && !AllWithin(live, bound))
    && r != Err(QueryFailed)
  }

  lemma {:induction false} ScanFrom(rules: map<nat, ContextRule>, ask: nat -> Answer, lowerHex: string, id: nat)
    requires Snapshot(rules, ask) && id <= |rules| + SCAN_SLACK
    requires forall i :: i in Holders(rules, lowerHex) ==> i >= id
    ensures Answers(Scan(|rules|, ask, lowerHex, id, |Below(rules, id)|),
                    rules.Keys, Holders(rules, lowerHex), |rules| + SCAN_SLACK)
    decreases |rules| + SCAN_SLACK - id
  {
    hide HoldsKey;
    AllSeen(rules, id);
    BelowStep(rules, id);
    if |Below(rules, id)| < |rules| && id < |rules| + SCAN_SLACK {
      if id !in Holders(rules, lowerHex) {
        ScanFrom(rules, ask, lowerHex, id + 1);
      }
    }
  }

  /** Texts of keys tell keys apart. */
  lemma KeyTexts(a: seq<Byte>, b: seq<Byte>)
    ensures BytesHex(a) == BytesHex(b) <==> a == b
  {
    if BytesHex(a) == BytesHex(b) {
      BytesHexReads(a);
      BytesHexReads(b);
      BeValueInjective(a, b);
    }
  }

  /** The ids of the live rules with an external signer for the key. */
  ghost function KeyHolders(rules: map<nat, ContextRule>, key: seq<Byte>): set<nat> {
    set i | i in rules && exists verifier :: External(verifier, key) in rules[i].signers
  }

  /** A hexadecimal text of the key, with letters of either case. */
  predicate Spells(hex: string, key: seq<Byte>) {
    Numeric(hex, 16) && |hex| == 2 * |key| && Reading(hex, 16) == BeValue(key)
  }

  lemma {:induction false} LowerReads(hex: string)
    requires Numeric(hex, 16)
    ensures Plain(Lower(hex), 16) && Reading(Lower(hex), 16) == Reading(hex, 16)
  {
    if hex != [] {
      var n := |hex| - 1;
      LowerReads(hex[..n]);
      assert Lower(hex)[..n] == Lower(hex[..n]);
      assert DigitValue(Lower(hex)[n]) == DigitValue(hex[n]);
    }
  }

  lemma SpelledMatches(hex: string, key: seq<Byte>)
    requires Spells(hex, key)
    ensures Lower(hex) == BytesHex(key)
  {
    hide Reading, BeValue, Plain, Numeric;
    LowerReads(hex);
    BytesHexReads(key);
    PlainUnique(Lower(hex), BytesHex(key), 16);
  }

  /**
   On one snapshot with any gaps, asked for a key spelled in either case: the answer is the lowest live
   rule with that key; `null` says that no live rule has it; and the scan reports exhaustion only when a
   live id lies beyond the bound and no rule below it has the key.
   */
  lemma ScanFinds(rules: map<nat, ContextRule>, ask: nat -> Answer, key: seq<Byte>, pubkeyHex: string)
    requires Snapshot(rules, ask)
    requires key != [] && Spells(pubkeyHex, key)
    ensures Answers(Scan(|rules|, ask, Lower(pubkeyHex), 0, 0),
                    rules.Keys, KeyHolders(rules, key), |rules| + SCAN_SLACK)
  {
    var lowerHex := BytesHex(key);
    SpelledMatches(pubkeyHex, key);
    assert Below(rules, 0) == {};
    ScanFrom(rules, ask, lowerHex, 0);
    HoldersOfKey(rules, key);
  }

  lemma HoldersOfKey(rules: map<nat, ContextRule>, key: seq<Byte>)
    requires key != []
    ensures Holders(rules, BytesHex(key)) == KeyHolders(rules, key)
  {
    var lowerHex := BytesHex(key);
    forall i | i in rules
      ensures HoldsKey(rules[i], lowerHex) <==> exists verifier :: External(verifier, key) in rules[i].signers
    {
      forall signer ensures Carries(signer, lowerHex) <==> signer.External? && signer.key == key {
        if signer.External? {
          KeyTexts(signer.key, key);
        }
      }
      assert forall verifier :: Carries(External(verifier, key), lowerHex);
    }
    assert Holders(rules, lowerHex) == KeyHolders(rules, key);
  }

  /** Asked for the empty text the scan finds nothing, even where a signer has an empty key. */
  lemma EmptyTextFindsNothing(rules: map<nat, ContextRule>, ask: nat -> Answer)
    requires Snapshot(rules, ask)
    ensures Answers(Scan(|rules|, ask, Lower(""), 0, 0), rules.Keys, {}, |rules| + SCAN_SLACK)
  {
    assert Below(rules, 0) == {};
    assert Lower("") == "" && Holders(rules, "") == {};
    ScanFrom(rules, ask, "", 0);
  }

  /** A query fails for the first time at `bad`; before it every answer is the snapshot's. */
  ghost predicate FailsFirstAt(rules: map<nat, ContextRule>, ask: nat -> Answer, bad: nat) {
    && (forall i :: i in rules ==> rules[i].id == i)
    && (forall i: nat :: i < bad ==> ask(i) == if i in rules then Found(rules[i]) else NotFound)
    && ask(bad) == Failed
  }

  /** It is reported exactly when the scan gets there: within the bound, no holder before, and rules still unseen. */
  lemma {:induction false} FailureReportedIff(rules: map<nat, ContextRule>, ask: nat -> Answer, lowerHex: string,
                                              bad: nat, id: nat)
    requires FailsFirstAt(rules, ask, bad) && id <= bad && id <= |rules| + SCAN_SLACK
    requires forall i :: i in Holders(rules, lowerHex) ==> i >= id
    ensures Scan(|rules|, ask, lowerHex, id, |Below(rules, id)|) == Err(QueryFailed) <==>
            && bad < |rules| + SCAN_SLACK
            && (forall i :: i in Holders(rules, lowerHex) ==> i >= bad)
            && !AllWithin(rules.Keys, bad)
    decreases bad - id
  {
    hide HoldsKey;
    AllSeen(rules, id);
    BelowStep(rules, id);
    if |Below(rules, id)| < |rules| && id < |rules| + SCAN_SLACK && id < bad && id !in Holders(rules, lowerHex) {
      FailureReportedIff(rules, ask, lowerHex, bad, id + 1);
    }
  }
}
