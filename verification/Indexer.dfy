/** The indexer's key-value store of leaves: scanning events into it and serving it back. */
module Indexer {
  import opened Wrappers
  import opened FieldHash
  import opened Digits
  import opened IndexerTree
  import MerkleTree
  import Pool = MerklePool

  const LEAF_PREFIX := "leaf/"
  const LEAF_KEY_WIDTH := 8

  /** An event of the scan, or a served record: both are an index and a leaf's text. */
  datatype LeafRecord = LeafRecord(index: nat, leaf: string)

  datatype AppendResult = Inserted | Duplicate | Conflict

  function LeafKey(index: nat): string {
    LEAF_PREFIX + PadStart(Numeral(index, 10), LEAF_KEY_WIDTH)
  }

  predicate IsLeafKey(key: string) {
    LEAF_PREFIX <= key
  }

  function IndexFromKey(key: string): nat {
    Reading(if |key| < |LEAF_PREFIX| then "" else key[|LEAF_PREFIX|..], 10)
  }

  lemma LeafKeyReads(index: nat)
    ensures IsLeafKey(LeafKey(index)) && IndexFromKey(LeafKey(index)) == index
  {
    PaddedReads(index, 10, LEAF_KEY_WIDTH);
    assert LeafKey(index)[|LEAF_PREFIX|..] == PadStart(Numeral(index, 10), LEAF_KEY_WIDTH);
  }

  /** Up to eight digits the keys have one length, and their order as texts is that of the indices. */
  lemma KeysInOrder(i: nat, j: nat)
    requires i < j < 100_000_000
    ensures |LeafKey(i)| == |LeafKey(j)| == 13 && Before(LeafKey(i), LeafKey(j))
  {
    hide Numeral, Reading, Plain;
    assert Pow10(8) == 100_000_000;
    DecimalFits(i, 8);
    DecimalFits(j, 8);
    PaddedReads(i, 10, 8);
    PaddedReads(j, 10, 8);
    var s, t := PadStart(Numeral(i, 10), 8), PadStart(Numeral(j, 10), 8);
    TextOrder(s, t, 10);
    var p :| 0 <= p < |s| && s[..p] == t[..p] && s[p] < t[p];
    assert LeafKey(i)[..5 + p] == "leaf/" + s[..p] && LeafKey(j)[..5 + p] == "leaf/" + t[..p];
    assert LeafKey(i)[5 + p] == s[p] && LeafKey(j)[5 + p] == t[p];
  }

  type Store = map<string, string>

  /** Leaves are stored only under the keys of their indices. */
  ghost predicate WellKeyed(kv: Store) {
    forall key :: key in kv && IsLeafKey(key) ==> key == LeafKey(IndexFromKey(key))
  }

  function Appended(kv: Store, e: LeafRecord): Store {
    if LeafKey(e.index) in kv then kv else kv[LeafKey(e.index) := e.leaf]
  }

  function Absorbed(kv: Store, events: seq<LeafRecord>): Store {
    if events == [] then kv
    else Appended(Absorbed(kv, events[..|events| - 1]), events[|events| - 1])
  }

  /** Stable insertion by index, the order that the host's sort produces. */
  function Placed(sorted: seq<LeafRecord>, e: LeafRecord): seq<LeafRecord> {
    if sorted == [] || sorted[|sorted| - 1].index <= e.index then sorted + [e]
    else Placed(sorted[..|sorted| - 1], e) + [sorted[|sorted| - 1]]
  }

  function SortedByIndex(events: seq<LeafRecord>): seq<LeafRecord> {
    if events == [] then []
    else Placed(SortedByIndex(events[..|events| - 1]), events[|events| - 1])
  }

  ghost predicate Ascending(s: seq<LeafRecord>) {
    forall i, j :: 0 <= i < j < |s| ==> s[i].index <= s[j].index
  }

  lemma {:induction false} PlacedBelow(sorted: seq<LeafRecord>, e: LeafRecord, bound: nat)
    requires e.index <= bound && forall i :: 0 <= i < |sorted| ==> sorted[i].index <= bound
    ensures forall i :: 0 <= i < |Placed(sorted, e)| ==> Placed(sorted, e)[i].index <= bound
  {
    if sorted != [] && sorted[|sorted| - 1].index > e.index {
      PlacedBelow(sorted[..|sorted| - 1], e, bound);
    }
  }

  lemma {:induction false} PlacedAscends(sorted: seq<LeafRecord>, e: LeafRecord)
    requires Ascending(sorted)
    ensures Ascending(Placed(sorted, e))
  {
    if sorted != [] && sorted[|sorted| - 1].index > e.index {
      var n := |sorted| - 1;
      PlacedAscends(sorted[..n], e);
      PlacedBelow(sorted[..n], e, sorted[n].index);
    }
  }

  lemma {:induction false} PlacedKeeps(sorted: seq<LeafRecord>, e: LeafRecord)
    ensures multiset(Placed(sorted, e)) == multiset(sorted) + multiset{e}
  {
    if sorted != [] && sorted[|sorted| - 1].index > e.index {
      var n := |sorted| - 1;
      PlacedKeeps(sorted[..n], e);
      assert sorted == sorted[..n] + [sorted[n]];
    }
  }

  /** Sorting rearranges and orders. */
  lemma {:induction false} SortSorts(events: seq<LeafRecord>)
    ensures Ascending(SortedByIndex(events)) && multiset(SortedByIndex(events)) == multiset(events)
  {
    if events != [] {
      var n := |events| - 1;
      SortSorts(events[..n]);
      PlacedAscends(SortedByIndex(events[..n]), events[n]);
      PlacedKeeps(SortedByIndex(events[..n]), events[n]);
      assert events == events[..n] + [events[n]];
    }
  }

  /** Pages that together list every leaf key once, as the host's listing promises. */
  ghost predicate Lists(kv: Store, keys: seq<string>) {
    && (forall i, j :: 0 <= i < j < |keys| ==> keys[i] != keys[j])
    && (forall key :: key in keys <==> key in kv && IsLeafKey(key))
  }

  function Flat(pages: seq<seq<string>>): seq<string> {
    if pages == [] then [] else Flat(pages[..|pages| - 1]) + pages[|pages| - 1]
  }

  function RecordOf(kv: Store, key: string, from: nat): seq<LeafRecord> {
    if IndexFromKey(key) >= from && key in kv then [LeafRecord(IndexFromKey(key), kv[key])] else []
  }

  function RecordsOf(kv: Store, keys: seq<string>, from: nat): seq<LeafRecord> {
    if keys == [] then []
    else RecordsOf(kv, keys[..|keys| - 1], from) + RecordOf(kv, keys[|keys| - 1], from)
  }

  lemma RecordsOfStep(kv: Store, keys: seq<string>, key: string, from: nat)
    ensures RecordsOf(kv, keys + [key], from) == RecordsOf(kv, keys, from) + RecordOf(kv, key, from)
  {
    hide IndexFromKey;
    assert (keys + [key])[..|keys|] == keys;
  }

  class PoolIndexer {
    var kv: Store

    method AppendLeaf(index: nat, leaf: string) returns (result: AppendResult)
      modifies this
      ensures kv == Appended(old(kv), LeafRecord(index, leaf))
      ensures result == Inserted <==> LeafKey(index) !in old(kv)
      ensures result == Conflict <==> LeafKey(index) in old(kv) && old(kv)[LeafKey(index)] != leaf
    {
      var key := LeafKey(index);
      if key in kv {
        return if kv[key] == leaf then Duplicate else Conflict;
      }
      kv := kv[key := leaf];
      return Inserted;
    }

    /** Appends one page of events in index order. */
    method RunScan(events: seq<LeafRecord>) returns (sorted: seq<LeafRecord>)
      modifies this
      ensures sorted == SortedByIndex(events)
      ensures kv == Absorbed(old(kv), sorted)
    {
      sorted := SortedByIndex(events);
      for i := 0 to |sorted|
        invariant kv == Absorbed(old(kv), sorted[..i])
      {
        assert sorted[..i + 1][..i] == sorted[..i];
        var _ := AppendLeaf(sorted[i].index, sorted[i].leaf);
      }
      assert sorted[..|sorted|] == sorted;
    }

    /** Adds the records of one page of listed keys. */
    method ReadPage(keys: seq<string>, from: nat, before: seq<LeafRecord>, ghost seen: seq<string>)
      returns (records: seq<LeafRecord>)
      requires before == RecordsOf(kv, seen, from)
      ensures records == RecordsOf(kv, seen + keys, from)
    {
      hide IndexFromKey, RecordsOf;
      records := before;
      assert seen + keys[..0] == seen;
      for i := 0 to |keys|
        invariant records == RecordsOf(kv, seen + keys[..i], from)
      {
        RecordsOfStep(kv, seen + keys[..i], keys[i], from);
        assert seen + keys[..i + 1] == seen + keys[..i] + [keys[i]];
        var index := IndexFromKey(keys[i]);
        if index >= from {
          if keys[i] in kv {
            records := records + [LeafRecord(index, kv[keys[i]])];
          }
        }
      }
      assert keys[..|keys|] == keys;
    }

    method ListLeavesFrom(from: nat, pages: seq<seq<string>>) returns (records: seq<LeafRecord>)
      ensures records == SortedByIndex(RecordsOf(kv, Flat(pages), from))
    {
      records := [];
      for p := 0 to |pages|
        invariant records == RecordsOf(kv, Flat(pages[..p]), from)
      {
        assert pages[..p + 1][..p] == pages[..p];
        records := ReadPage(pages[p], from, records, Flat(pages[..p]));
      }
      assert pages[..|pages|] == pages;
      records := SortedByIndex(records);
    }

    /** The root and count served by `/snapshot` with the leaves; `None` where a stored text is no field element. */
    method Snapshot(crypto: Crypto, pages: seq<seq<string>>)
      returns (r: Option<(string, nat)>, leaves: seq<LeafRecord>)
      ensures leaves == SortedByIndex(RecordsOf(kv, Flat(pages), 0))
      ensures r.Some? <==> AllRead(leaves)
      ensures r.Some? ==> r.value.1 == |leaves|
      ensures r.Some? && |leaves| <= MerkleTree.Pow2(Pool.DEPTH) ==>
        r.value.0 == FrToHex(FieldTree(crypto, Pool.DEPTH).Root(Values(leaves)))
    {
      hide FrToHex, FieldTree, SortedByIndex, RecordsOf;
      leaves := ListLeavesFrom(0, pages);
      var values := ParseLeaves(leaves);
      if values.None? {
        return None, leaves;
      }
      var root := RebuildRoot(crypto, values.value, Pool.DEPTH);
      return Some((FrToHex(root), |leaves|)), leaves;
    }
  }

  ghost predicate AllRead(leaves: seq<LeafRecord>) {
    forall i :: 0 <= i < |leaves| ==> HexToFr(leaves[i].leaf).Some?
  }

  method ParseLeaves(leaves: seq<LeafRecord>) returns (r: Option<seq<Fr>>)
    ensures r.Some? <==> AllRead(leaves)
    ensures r.Some? ==> r.value == Values(leaves)
  {
    hide HexToFr;
    var values: seq<Fr> := [];
    for i := 0 to |leaves|
      invariant |values| == i
      invariant forall k :: 0 <= k < i ==> HexToFr(leaves[k].leaf) == Some(values[k])
    {
      var value := HexToFr(leaves[i].leaf);
      if value.None? {
        return None;
      }
      values := values + [value.value];
    }
    return Some(values);
  }

  ghost function Values(leaves: seq<LeafRecord>): seq<Fr>
    requires AllRead(leaves)
  {
    seq(|leaves|, i requires 0 <= i < |leaves| => HexToFr(leaves[i].leaf).value)
  }
}
