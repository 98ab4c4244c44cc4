/** The pool's stored accumulator: frontier, ring of recent roots, and counters. */
module MerklePool {
  import opened Wrappers
  import opened MerkleTree
  import Frontier

  const DEPTH: nat := 24
  const RING_SIZE: nat := 128

  /** The root after the first `k` leaves. */
  function RootAfter<D>(tree: Tree<D>, leaves: seq<D>, k: nat): D
    requires k <= |leaves|
  {
    tree.Root(leaves[..k])
  }

  /** One of the last 128 roots, or the empty root while nothing has been inserted. */
  predicate KnownRoot<D(==)>(tree: Tree<D>, leaves: seq<D>, root: D) {
    var n := |leaves|;
    if n == 0 then root == RootAfter(tree, leaves, 0)
    else exists k | 0 < k <= n && n <= k + RING_SIZE - 1 :: root == RootAfter(tree, leaves, k)
  }

  lemma EmptyRoot<D>(tree: Tree<D>)
    ensures tree.Root([]) == tree.ZeroAt(tree.depth)
  {
    tree.EmptyNode([], tree.depth, 0);
  }

  /** The root in force is always a known one. */
  lemma CurrentRootKnown<D>(tree: Tree<D>, leaves: seq<D>)
    ensures KnownRoot(tree, leaves, tree.Root(leaves))
  {
    assert leaves[..|leaves|] == leaves;
    assert tree.Root(leaves) == RootAfter(tree, leaves, |leaves|);
  }

  /** A root stays known for the next 127 inserts. */
  lemma RootStaysKnown<D>(tree: Tree<D>, leaves: seq<D>, later: seq<D>)
    requires leaves != [] && |later| < RING_SIZE
    ensures KnownRoot(tree, leaves + later, tree.Root(leaves))
  {
    assert (leaves + later)[..|leaves|] == leaves;
    assert tree.Root(leaves) == RootAfter(tree, leaves + later, |leaves|);
  }

  lemma MaxLeaves()
    ensures Pow2(DEPTH) == 16777216
  {
    assert Pow2(4) == 16;
    assert Pow2(8) == 256;
    assert Pow2(12) == 4096;
    assert Pow2(16) == 65536;
    assert Pow2(20) == 1048576;
  }

  /** Within one turn of the ring no slot is used twice. */
  lemma DistinctSlots(a: nat, b: nat)
    requires a < b < a + RING_SIZE
    ensures a % RING_SIZE != b % RING_SIZE
  {
    assert a == RING_SIZE * (a / RING_SIZE) + a % RING_SIZE;
    assert b == RING_SIZE * (b / RING_SIZE) + b % RING_SIZE;
  }

  class MerklePool<D(==)> {
    const tree: Tree<D>
    var frontier: Option<seq<D>>
    var ring: seq<D>
    var ringHead: nat
    var nextIndex: nat
    /** The inserted leaves, oldest first; not stored. */
    ghost var leaves: seq<D>

    ghost predicate Valid()
      reads this
    {
      && nextIndex == ringHead == |leaves| <= Pow2(tree.depth)
      && (if frontier.None? then leaves == [] else Frontier.Holds(tree, leaves, frontier.value))
      && |ring| == (if |leaves| < RING_SIZE then |leaves| else RING_SIZE)
      && forall k :: 0 < k <= |leaves| <= k + RING_SIZE - 1 ==>
           ring[(k - 1) % RING_SIZE] == RootAfter(tree, leaves, k)
    }

    constructor (tree: Tree<D>)
      ensures Valid() && this.tree == tree && leaves == []
    {
      this.tree := tree;
      frontier, ring, ringHead, nextIndex := None, [], 0, 0;
      leaves := [];
    }

    method LoadFrontier(zeroes: seq<D>) returns (f: seq<D>)
      requires Valid() && |zeroes| == tree.depth + 1
      ensures Frontier.Holds(tree, leaves, f)
    {
      if frontier.Some? {
        return frontier.value;
      }
      f := [];
      for i := 0 to tree.depth
        invariant |f| == i
      {
        f := f + [zeroes[i]];
      }
      Frontier.SeedNeverRead(tree, f);
    }

    method CurrentRoot() returns (root: D)
      requires Valid()
      ensures root == tree.Root(leaves)
    {
      if ringHead == 0 {
        var zeroes := Frontier.ZeroChain(tree);
        EmptyRoot(tree);
        return zeroes[tree.depth];
      }
      root := ring[(ringHead - 1) % RING_SIZE];
      assert root == RootAfter(tree, leaves, |leaves|) && leaves[..|leaves|] == leaves;
    }

    method IsKnownRoot(root: D) returns (known: bool)
      requires Valid()
      ensures known == KnownRoot(tree, leaves, root)
    {
      if ringHead == 0 {
        var zeroes := Frontier.ZeroChain(tree);
        EmptyRoot(tree);
        return root == zeroes[tree.depth];
      }
      var count := if ringHead < RING_SIZE then ringHead else RING_SIZE;
      for i := 0 to count
        invariant forall k :: ringHead - i < k <= ringHead ==> root != RootAfter(tree, leaves, k)
      {
        assert 0 < ringHead - i <= |leaves| <= (ringHead - i) + RING_SIZE - 1;
        var slot := (ringHead - 1 - i) % RING_SIZE;
        assert ring[slot] == RootAfter(tree, leaves, ringHead - i);
        if ring[slot] == root {
          return true;
        }
      }
      return false;
    }

    /** Appends a leaf and returns its index; `None` when the tree is full, with nothing changed. */
    method InsertLeaf(stored: D) returns (index: Option<nat>)
      requires Valid()
      modifies this
      ensures Valid()
      ensures index == if |old(leaves)| < Pow2(tree.depth) then Some(|old(leaves)|) else None
      ensures leaves == if index.Some? then old(leaves) + [stored] else old(leaves)
      ensures index.None? ==> unchanged(this)
    {
      var idx := nextIndex;
      if idx >= Pow2(tree.depth) {
        return None;
      }
      var zeroes := Frontier.ZeroChain(tree);
      var f := LoadFrontier(zeroes);
      var root: D;
      f, root := Frontier.Climb(tree, zeroes, f, idx, stored, leaves);
      ShiftOut(idx, tree.depth);
      frontier := Some(f);
      var head := ringHead;
      var slot := head % RING_SIZE;
      if slot < |ring| {
        ring := ring[slot := root];
      } else {
        ring := ring + [root];
      }
      ringHead := head + 1;
      nextIndex := idx + 1;
      leaves := leaves + [stored];
      assert leaves[..|leaves|] == leaves;
      forall k | 0 < k <= |leaves| <= k + RING_SIZE - 1
        ensures ring[(k - 1) % RING_SIZE] == RootAfter(tree, leaves, k)
      {
        if k < |leaves| {
          assert leaves[..k] == old(leaves)[..k];
          assert old(ring)[(k - 1) % RING_SIZE] == RootAfter(tree, old(leaves), k);
          DistinctSlots(k - 1, head);
        }
      }
      return Some(idx);
    }
  }
}
