/** Whatever order its events come in, the indexer ends up with the contract's leaves and the contract's root. */
module IndexerAgreement {
  import opened Bytes
  import opened Wrappers
  import opened FieldHash
  import opened IndexerTree
  import opened Indexer
  import MerkleTree
  import Pool = MerklePool
  import Recovery
  import Runs = RecoveryRuns

  /** The events of one insert log: event `i` carries the text of leaf `i`. */
  function Log(leaves: seq<Bytes32>): seq<LeafRecord> {
    seq(|leaves|, i requires 0 <= i < |leaves| => LeafRecord(i, LeafText(leaves[i])))
  }

  ghost predicate Drawn(events: seq<LeafRecord>, log: seq<LeafRecord>) {
    forall e :: e in events ==> e in log
  }

  /** Several scans in a row. */
  function AfterScans(kv: Store, pages: seq<seq<LeafRecord>>): Store {
    if pages == [] then kv
    else Absorbed(AfterScans(kv, pages[..|pages| - 1]), SortedByIndex(pages[|pages| - 1]))
  }

  ghost predicate Delivered(pages: seq<seq<LeafRecord>>, e: LeafRecord) {
    exists p :: 0 <= p < |pages| && e in pages[p]
  }

  // ---- what a scan stores ----

  /** No event ever changes a stored text, consistent or not. */
  lemma {:induction false} NeverOverwritten(kv: Store, events: seq<LeafRecord>, key: string)
    requires key in kv
    ensures key in Absorbed(kv, events) && Absorbed(kv, events)[key] == kv[key]
  {
    if events != [] {
      NeverOverwritten(kv, events[..|events| - 1], key);
    }
  }

  /** An entry not there before comes from an event of the scan. */
  lemma {:induction false} EntryFromEvent(kv: Store, events: seq<LeafRecord>, key: string)
    requires key in Absorbed(kv, events) && key !in kv
    ensures exists e :: e in events && key == LeafKey(e.index) && Absorbed(kv, events)[key] == e.leaf
  {
    var n := |events| - 1;
    if key in Absorbed(kv, events[..n]) {
      EntryFromEvent(kv, events[..n], key);
    } else {
      assert events[n] in events;
    }
  }

  lemma {:induction false} EventStored(kv: Store, events: seq<LeafRecord>, e: LeafRecord)
    requires e in events
    ensures LeafKey(e.index) in Absorbed(kv, events)
  {
    var n := |events| - 1;
    if e in events[..n] {
      EventStored(kv, events[..n], e);
    }
  }

  lemma SortedMembers(events: seq<LeafRecord>, e: LeafRecord)
    ensures e in SortedByIndex(events) <==> e in events
  {
    SortSorts(events);
    assert e in SortedByIndex(events) <==> e in multiset(SortedByIndex(events));
    assert e in events <==> e in multiset(events);
  }

  /** The entry under a key after any scans: what was there, or else the log's text of a delivered index. */
  lemma {:induction false} StoredEntry(kv: Store, pages: seq<seq<LeafRecord>>, log: seq<LeafRecord>, key: string)
    requires forall p :: 0 <= p < |pages| ==> Drawn(pages[p], log)
    ensures key in kv ==> key in AfterScans(kv, pages) && AfterScans(kv, pages)[key] == kv[key]
    ensures key !in kv && key in AfterScans(kv, pages) ==>
      exists e :: e in log && Delivered(pages, e) && key == LeafKey(e.index) && AfterScans(kv, pages)[key] == e.leaf
  {
    if pages != [] {
      var n := |pages| - 1;
      var before, sorted := AfterScans(kv, pages[..n]), SortedByIndex(pages[n]);
      StoredEntry(kv, pages[..n], log, key);
      if key in before {
        NeverOverwritten(before, sorted, key);
        if key !in kv {
          var e :| e in log && Delivered(pages[..n], e) && key == LeafKey(e.index) && before[key] == e.leaf;
          assert Delivered(pages, e);
        }
      } else if key in AfterScans(kv, pages) {
        EntryFromEvent(before, sorted, key);
        var e :| e in sorted && key == LeafKey(e.index) && AfterScans(kv, pages)[key] == e.leaf;
        SortedMembers(pages[n], e);
        assert e in pages[n] && Drawn(pages[n], log) && Delivered(pages, e);
      }
    }
  }

  lemma {:induction false} DeliveredStored(kv: Store, pages: seq<seq<LeafRecord>>, e: LeafRecord)
    requires Delivered(pages, e)
    ensures LeafKey(e.index) in AfterScans(kv, pages)
  {
    var n := |pages| - 1;
    var before, sorted := AfterScans(kv, pages[..n]), SortedByIndex(pages[n]);
    if e in pages[n] {
      SortedMembers(pages[n], e);
      EventStored(before, sorted, e);
    } else {
      var p :| 0 <= p < |pages| && e in pages[p];
      assert pages[..n][p] == pages[p] && Delivered(pages[..n], e);
      DeliveredStored(kv, pages[..n], e);
      NeverOverwritten(before, sorted, LeafKey(e.index));
    }
  }

  ghost predicate FromOneLog(log: seq<LeafRecord>) {
    forall i :: 0 <= i < |log| ==> log[i].index == i
  }

  /** Order, repetition and overlap of the pages do not matter: the store depends on the delivered set alone. */
  lemma ScanOrderIrrelevant(kv: Store, pages: seq<seq<LeafRecord>>, others: seq<seq<LeafRecord>>, log: seq<LeafRecord>)
    requires FromOneLog(log)
    requires forall p :: 0 <= p < |pages| ==> Drawn(pages[p], log)
    requires forall p :: 0 <= p < |others| ==> Drawn(others[p], log)
    requires forall e :: Delivered(pages, e) <==> Delivered(others, e)
    ensures AfterScans(kv, pages) == AfterScans(kv, others)
  {
    forall key ensures key in AfterScans(kv, pages) ==>
      key in AfterScans(kv, others) && AfterScans(kv, others)[key] == AfterScans(kv, pages)[key]
    {
      OneWay(kv, pages, others, log, key);
    }
    forall key ensures key in AfterScans(kv, others) ==> key in AfterScans(kv, pages)
    {
      OneWay(kv, others, pages, log, key);
    }
  }

  lemma OneWay(kv: Store, pages: seq<seq<LeafRecord>>, others: seq<seq<LeafRecord>>, log: seq<LeafRecord>, key: string)
    requires FromOneLog(log)
    requires forall p :: 0 <= p < |pages| ==> Drawn(pages[p], log)
    requires forall p :: 0 <= p < |others| ==> Drawn(others[p], log)
    requires forall e :: Delivered(pages, e) ==> Delivered(others, e)
    ensures key in AfterScans(kv, pages) ==>
      key in AfterScans(kv, others) && AfterScans(kv, others)[key] == AfterScans(kv, pages)[key]
  {
    StoredEntry(kv, pages, log, key);
    StoredEntry(kv, others, log, key);
    if key !in kv && key in AfterScans(kv, pages) {
      var e :| e in log && Delivered(pages, e) && key == LeafKey(e.index) && AfterScans(kv, pages)[key] == e.leaf;
      DeliveredStored(kv, others, e);
      var d :| d in log && Delivered(others, d) && key == LeafKey(d.index) && AfterScans(kv, others)[key] == d.leaf;
      LeafKeyReads(e.index);
      LeafKeyReads(d.index);
    }
  }

  // ---- what is served ----

  ghost predicate Distinct(s: seq<LeafRecord>) {
    forall i, j :: 0 <= i < j < |s| ==> s[i].index != s[j].index
  }

  ghost predicate Rising(s: seq<LeafRecord>) {
    forall i, j :: 0 <= i < j < |s| ==> s[i].index < s[j].index
  }

  /** Sorting records of distinct indices makes the indices strictly rise. */
  lemma SortedDistinctRises(events: seq<LeafRecord>)
    requires Distinct(events)
    ensures Rising(SortedByIndex(events))
  {
    var s := SortedByIndex(events);
    SortSorts(events);
    forall i, j | 0 <= i < j < |s| ensures s[i].index < s[j].index {
      if s[i].index == s[j].index {
        SortedMembers(events, s[i]);
        SortedMembers(events, s[j]);
        TwiceInSeq(s, i, j);
        OnceInDistinct(events, s[i]);
      }
    }
  }

  lemma TwiceInSeq(s: seq<LeafRecord>, i: nat, j: nat)
    requires i < j < |s|
    ensures s[i] == s[j] ==> multiset(s)[s[i]] >= 2
  {
    assert s == s[..i] + [s[i]] + s[i + 1..j] + [s[j]] + s[j + 1..];
  }

  /** Records of one index among distinct ones are one record, and it occurs once. */
  lemma {:induction false} OnceInDistinct(s: seq<LeafRecord>, r: LeafRecord)
    requires Distinct(s) && r in s
    ensures multiset(s)[r] == 1
    ensures forall t :: t in s && t.index == r.index ==> t == r
  {
    var n := |s| - 1;
    assert s == s[..n] + [s[n]];
    if r in s[..n] {
      OnceInDistinct(s[..n], r);
      var k :| 0 <= k < n && s[..n][k] == r;
      assert s[n] != r;
    } else {
      assert multiset(s[..n])[r] == 0;
    }
  }

  /** The records are one per listed key from `from` on, each with that key's index and text. */
  lemma {:induction false} RecordsDescribed(kv: Store, keys: seq<string>, from: nat)
    requires WellKeyed(kv)
    requires forall i, j :: 0 <= i < j < |keys| ==> keys[i] != keys[j]
    requires forall key :: key in keys ==> key in kv && IsLeafKey(key)
    ensures var rs := RecordsOf(kv, keys, from);
            && Distinct(rs)
            && (forall r :: r in rs ==> r.index >= from && LeafKey(r.index) in keys && kv[LeafKey(r.index)] == r.leaf)
            && (forall key :: key in keys && IndexFromKey(key) >= from ==> LeafRecord(IndexFromKey(key), kv[key]) in rs)
  {
    if keys != [] {
      var n := |keys| - 1;
      RecordsDescribed(kv, keys[..n], from);
      var front, last := RecordsOf(kv, keys[..n], from), LeafRecord(IndexFromKey(keys[n]), kv[keys[n]]);
      assert keys[n] in keys && RecordsOf(kv, keys, from) == front + if last.index >= from then [last] else [];
      forall i | 0 <= i < |front| ensures front[i].index != last.index {
        assert front[i] in front && LeafKey(front[i].index) in keys[..n];
      }
    }
  }

  /** `tail` holds `r` at its place, counted from `from`. */
  ghost predicate InPlace(tail: seq<LeafRecord>, from: nat, r: LeafRecord) {
    from <= r.index < from + |tail| && tail[r.index - from] == r
  }

  /** `s` rises and has exactly the records of `tail`, whose indices count up from `from`. */
  ghost predicate SameRecords(s: seq<LeafRecord>, tail: seq<LeafRecord>, from: nat) {
    && Rising(s)
    && (forall i :: 0 <= i < |tail| ==> tail[i].index == from + i && tail[i] in s)
    && (forall i :: 0 <= i < |s| ==> InPlace(tail, from, s[i]))
  }

  lemma LastAgrees(s: seq<LeafRecord>, tail: seq<LeafRecord>, from: nat)
    requires SameRecords(s, tail, from)
    ensures |tail| > 0 ==> |s| > 0 && s[|s| - 1] == tail[|tail| - 1]
    ensures |tail| == 0 ==> |s| == 0
  {
    assert |s| == 0 || InPlace(tail, from, s[0]);
    if |tail| > 0 {
      assert tail[|tail| - 1] in s;
      var p :| 0 <= p < |s| && s[p] == tail[|tail| - 1];
      assert InPlace(tail, from, s[|s| - 1]);
    }
  }

  lemma FrontAgrees(s: seq<LeafRecord>, tail: seq<LeafRecord>, from: nat)
    requires SameRecords(s, tail, from) && |tail| > 0 && |s| > 0 && s[|s| - 1] == tail[|tail| - 1]
    ensures SameRecords(s[..|s| - 1], tail[..|tail| - 1], from)
  {
    var m, n := |s| - 1, |tail| - 1;
    forall i | 0 <= i < n ensures tail[i] in s[..m] {
      var p :| 0 <= p < |s| && s[p] == tail[i];
      assert s[..m][p] == s[p];
    }
    forall i | 0 <= i < m ensures InPlace(tail[..n], from, s[i]) {
      assert InPlace(tail, from, s[i]);
    }
  }

  /** A list that rises and has exactly those records is the list of them. */
  lemma {:induction false} RisingIsRun(s: seq<LeafRecord>, tail: seq<LeafRecord>, from: nat)
    requires SameRecords(s, tail, from)
    ensures s == tail
    decreases |tail|
  {
    hide SameRecords;
    LastAgrees(s, tail, from);
    if |tail| > 0 {
      FrontAgrees(s, tail, from);
      RisingIsRun(s[..|s| - 1], tail[..|tail| - 1], from);
      assert s == s[..|s| - 1] + [s[|s| - 1]] && tail == tail[..|tail| - 1] + [tail[|tail| - 1]];
    }
  }

  /** The store holds exactly the log's entries. */
  ghost predicate Holds(kv: Store, log: seq<LeafRecord>) {
    && WellKeyed(kv)
    && (forall i :: 0 <= i < |log| ==> LeafKey(i) in kv && kv[LeafKey(i)] == log[i].leaf)
    && (forall key :: key in kv && IsLeafKey(key) ==> IndexFromKey(key) < |log|)
  }

  /** Then the records served from `from` on, however the host pages its listing, are that part of the log. */
  lemma ServedFromIsLog(kv: Store, log: seq<LeafRecord>, keys: seq<string>, from: nat)
    requires Holds(kv, log) && FromOneLog(log) && Lists(kv, keys)
    ensures SortedByIndex(RecordsOf(kv, keys, from)) == if from <= |log| then log[from..] else []
  {
    hide SortedByIndex, RecordsOf, LeafKey, IndexFromKey, IsLeafKey, Distinct;
    var rs := RecordsOf(kv, keys, from);
    RecordsDescribed(kv, keys, from);
    SortedDistinctRises(rs);
    var tail := if from <= |log| then log[from..] else [];
    var sorted := SortedByIndex(rs);
    forall i | 0 <= i < |sorted| ensures InPlace(tail, from, sorted[i]) {
      SortedMembers(rs, sorted[i]);
      LeafKeyReads(sorted[i].index);
    }
    forall i | 0 <= i < |tail| ensures tail[i].index == from + i && tail[i] in sorted {
      LeafKeyReads(from + i);
      assert LeafRecord(IndexFromKey(LeafKey(from + i)), kv[LeafKey(from + i)]) in rs;
      SortedMembers(rs, tail[i]);
    }
    RisingIsRun(sorted, tail, from);
  }

  /** All of them are the log. */
  lemma ServedIsLog(kv: Store, log: seq<LeafRecord>, keys: seq<string>)
    requires Holds(kv, log) && FromOneLog(log) && Lists(kv, keys)
    ensures SortedByIndex(RecordsOf(kv, keys, 0)) == log
  {
    ServedFromIsLog(kv, log, keys, 0);
  }

  // ---- the served root ----

  /** Every leaf that the contract stores is the text of a field element. */
  lemma {:induction false} StoredLeavesCanonical(
    crypto: Crypto, cfg: Recovery.Config, self: Bytes32, run: seq<Runs.Timed>, i: nat)
    requires i <= |run|
    ensures var leaves := Runs.At(Recovery.Deployed(crypto, cfg, self), run, i).leaves;
            && |leaves| <= MerkleTree.Pow2(Pool.DEPTH)
            && forall k :: 0 <= k < |leaves| ==> BeValue(leaves[k]) < R
  {
    if i > 0 {
      StoredLeavesCanonical(crypto, cfg, self, run, i - 1);
      LeavesStep(crypto, cfg, self, Runs.At(Recovery.Deployed(crypto, cfg, self), run, i - 1), run[i - 1]);
    }
  }

  lemma LeavesStep(crypto: Crypto, cfg: Recovery.Config, self: Bytes32, s: Recovery.Ledger, t: Runs.Timed)
    requires |s.leaves| <= MerkleTree.Pow2(Pool.DEPTH)
    requires forall k :: 0 <= k < |s.leaves| ==> BeValue(s.leaves[k]) < R
    ensures var leaves := Recovery.Step(Recovery.Deployed(crypto, cfg, self), s, t.now, t.call).leaves;
            && |leaves| <= MerkleTree.Pow2(Pool.DEPTH)
            && forall k :: 0 <= k < |leaves| ==> BeValue(leaves[k]) < R
  {
    hide Recovery.Deployed, Recovery.InsertBound, Recovery.InitiateRecovery, Recovery.CancelRecovery,
      Recovery.BurnNullifier, Recovery.EnforcePolicy, MerkleTree.Pow2;
    var env := Recovery.Deployed(crypto, cfg, self);
    if t.call.Insert? || t.call.InsertFor? {
      InsertLeaves(crypto, cfg, self, s, t.call.account, t.call.commitment);
    } else {
      Runs.LeavesFrame(env, s, t.now, t.call);
    }
  }

  lemma InsertLeaves(crypto: Crypto, cfg: Recovery.Config, self: Bytes32, s: Recovery.Ledger,
                     account: Address, commitment: Bytes32)
    requires |s.leaves| <= MerkleTree.Pow2(Pool.DEPTH)
    requires forall k :: 0 <= k < |s.leaves| ==> BeValue(s.leaves[k]) < R
    ensures var r := Recovery.InsertBound(Recovery.Deployed(crypto, cfg, self), s, account, commitment);
            r.Ok? ==>
              && |r.value.leaves| <= MerkleTree.Pow2(Pool.DEPTH)
              && forall k :: 0 <= k < |r.value.leaves| ==> BeValue(r.value.leaves[k]) < R
  {
    hide MerkleTree.Pow2, WrapInputs, Canonical;
  }

  /**
   The mirror agrees with the contract: after any run of the contract, once its leaves' events have all
   been stored, `/snapshot` answers with the contract's current root, printed, and with its leaf count.
   */
  lemma SnapshotIsCurrentRoot(crypto: Crypto, cfg: Recovery.Config, self: Bytes32, run: seq<Runs.Timed>,
                              kv: Store, keys: seq<string>)
    requires var leaves := Runs.At(Recovery.Deployed(crypto, cfg, self), run, |run|).leaves;
             Holds(kv, Log(leaves)) && Lists(kv, keys)
    ensures var leaves := Runs.At(Recovery.Deployed(crypto, cfg, self), run, |run|).leaves;
            var served := SortedByIndex(RecordsOf(kv, keys, 0));
            && |served| == |leaves| && AllRead(served)
            && FrToHex(FieldTree(crypto, Pool.DEPTH).Root(Values(served)))
                 == LeafText(Recovery.HashTree(crypto).Root(leaves))
  {
    hide Runs.At, Holds, HexToFr, FrToHex, LeafText, SortedByIndex, RecordsOf, FieldTree, MerkleTree.Tree.Node;
    var leaves := Runs.At(Recovery.Deployed(crypto, cfg, self), run, |run|).leaves;
    StoredLeavesCanonical(crypto, cfg, self, run, |run|);
    ServedIsLog(kv, Log(leaves), keys);
    var served := SortedByIndex(RecordsOf(kv, keys, 0));
    forall k | 0 <= k < |served| ensures HexToFr(served[k].leaf) == Some(BeValue(leaves[k])) {
      LeafTextReads(leaves[k]);
    }
    SameNodes(crypto, leaves, Values(served), Pool.DEPTH, 0);
    PrintedAsBytes(Recovery.HashTree(crypto).Root(leaves));
  }

  /** The leaves stored so far are some of the log's; what else shares the namespace does not matter. */
  ghost predicate Within(kv: Store, log: seq<LeafRecord>) {
    forall key :: key in kv && IsLeafKey(key) ==>
      var index := IndexFromKey(key);
      key == LeafKey(index) && index < |log| && kv[key] == log[index].leaf
  }

  /** Leaf entries keep to the log whatever pages of it are scanned. */
  lemma ScansStayWithin(kv: Store, pages: seq<seq<LeafRecord>>, log: seq<LeafRecord>)
    requires FromOneLog(log) && Within(kv, log)
    requires forall p :: 0 <= p < |pages| ==> Drawn(pages[p], log)
    ensures Within(AfterScans(kv, pages), log)
  {
    hide AfterScans, LeafKey, IndexFromKey, IsLeafKey;
    var after := AfterScans(kv, pages);
    forall key | key in after && IsLeafKey(key)
      ensures var index := IndexFromKey(key); key == LeafKey(index) && index < |log| && after[key] == log[index].leaf
    {
      StoredEntry(kv, pages, log, key);
      if key !in kv {
        var e :| e in log && Delivered(pages, e) && key == LeafKey(e.index) && after[key] == e.leaf;
        LeafKeyReads(e.index);
      }
    }
  }

  /**
   Starting from any part of the log, with anything else under other keys, scanning brings about exactly
   the log, in whatever order the pages come, once every leaf not yet stored has been delivered.
   */
  lemma ScansFillStore(kv: Store, pages: seq<seq<LeafRecord>>, leaves: seq<Bytes32>)
    requires Within(kv, Log(leaves))
    requires forall p :: 0 <= p < |pages| ==> Drawn(pages[p], Log(leaves))
    requires forall i :: 0 <= i < |leaves| ==> LeafKey(i) in kv || Delivered(pages, Log(leaves)[i])
    ensures Holds(AfterScans(kv, pages), Log(leaves))
  {
    hide AfterScans, LeafKey, IndexFromKey, IsLeafKey, LeafText;
    var after, log := AfterScans(kv, pages), Log(leaves);
    ScansStayWithin(kv, pages, log);
    forall i | 0 <= i < |log| ensures LeafKey(i) in after && after[LeafKey(i)] == log[i].leaf {
      LeafKeyReads(i);
      if LeafKey(i) in kv {
        StoredEntry(kv, pages, log, LeafKey(i));
      } else {
        assert log[i].index == i;
        DeliveredStored(kv, pages, log[i]);
      }
    }
  }
}
