/** The incremental frontier: one stored left sibling per level stands in for the whole tree. */
module Frontier {
  import opened MerkleTree

  /** The chain of zero-subtree roots, one per level. */
  method ZeroChain<D>(tree: Tree<D>) returns (zeroes: seq<D>)
    ensures |zeroes| == tree.depth + 1
    ensures forall l :: 0 <= l <= tree.depth ==> zeroes[l] == tree.ZeroAt(l)
  {
    var cur := tree.zero;
    zeroes := [cur];
    for i := 0 to tree.depth
      invariant |zeroes| == i + 1 && cur == tree.ZeroAt(i)
      invariant forall l :: 0 <= l <= i ==> zeroes[l] == tree.ZeroAt(l)
    {
      cur := tree.hash2(cur, cur);
      zeroes := zeroes + [cur];
    }
  }

  /** An entry matters only where the leaf count has a one bit: there it is the last completed node. */
  ghost predicate Holds<D>(tree: Tree<D>, leaves: seq<D>, frontier: seq<D>) {
    && |frontier| == tree.depth
    && forall l :: 0 <= l < tree.depth && Shift(|leaves|, l) % 2 == 1 ==>
         frontier[l] == tree.Node(leaves, l, Shift(|leaves|, l) - 1)
  }

  /** Any seed of the right length will do for the empty tree: no seed is ever read. */
  lemma {:induction false} SeedNeverRead<D>(tree: Tree<D>, seed: seq<D>)
    requires |seed| == tree.depth
    ensures Holds(tree, [], seed)
  {
    forall l: nat ensures Shift(0, l) == 0 {
      ZeroShift(l);
    }
  }

  lemma {:induction false} ZeroShift(level: nat)
    ensures Shift(0, level) == 0
  {
    if level > 0 {
      ZeroShift(level - 1);
    }
  }

  /** The pass has dealt with every level below `level`: even positions written, the rest kept. */
  ghost predicate Swept<D>(tree: Tree<D>, grown: seq<D>, idx: nat, seed: seq<D>, frontier: seq<D>, level: nat) {
    && |seed| == |frontier| == tree.depth
    && forall l :: 0 <= l < tree.depth ==>
         frontier[l] == if l < level && Shift(idx, l) % 2 == 0 then tree.Node(grown, l, Shift(idx, l)) else seed[l]
  }

  lemma SweptHolds<D>(tree: Tree<D>, leaves: seq<D>, leaf: D, seed: seq<D>, frontier: seq<D>)
    requires Holds(tree, leaves, seed)
    requires Swept(tree, leaves + [leaf], |leaves|, seed, frontier, tree.depth)
    ensures Holds(tree, leaves + [leaf], frontier)
  {
    var n := |leaves|;
    forall l | 0 <= l < tree.depth && Shift(n + 1, l) % 2 == 1
      ensures frontier[l] == tree.Node(leaves + [leaf], l, Shift(n + 1, l) - 1)
    {
      ShiftNext(n, l);
      if Shift(n, l) % 2 == 1 {
        tree.FullNode(leaves, leaf, l, Shift(n, l) - 1);
      }
    }
  }

  /** The value handed up from one level is the tree's node on the next. */
  lemma ClimbStep<D>(tree: Tree<D>, leaves: seq<D>, leaf: D, seed: seq<D>, level: nat)
    requires Holds(tree, leaves, seed) && level < tree.depth
    ensures var grown, pos := leaves + [leaf], Shift(|leaves|, level);
            tree.Node(grown, level + 1, Shift(|leaves|, level + 1)) ==
              if pos % 2 == 0 then tree.hash2(tree.Node(grown, level, pos), tree.ZeroAt(level))
              else tree.hash2(seed[level], tree.Node(grown, level, pos))
  {
    var grown, pos := leaves + [leaf], Shift(|leaves|, level);
    if pos % 2 == 0 {
      tree.EmptyNode(grown, level, pos + 1);
    } else {
      tree.FullNode(leaves, leaf, level, pos - 1);
    }
  }

  /** One bottom-up pass: inserts `leaf` at `idx` and returns the new frontier and root. */
  method Climb<D>(tree: Tree<D>, zeroes: seq<D>, seed: seq<D>, idx: nat, leaf: D, ghost leaves: seq<D>)
    returns (frontier: seq<D>, root: D)
    requires |zeroes| == tree.depth + 1
    requires forall l :: 0 <= l <= tree.depth ==> zeroes[l] == tree.ZeroAt(l)
    requires |leaves| == idx && Holds(tree, leaves, seed)
    ensures Holds(tree, leaves + [leaf], frontier)
    ensures root == tree.Node(leaves + [leaf], tree.depth, Shift(idx, tree.depth))
  {
    frontier := seed;
    var cur, shifted := leaf, idx;
    for level := 0 to tree.depth
      invariant shifted == Shift(idx, level)
      invariant cur == tree.Node(leaves + [leaf], level, shifted)
      invariant Swept(tree, leaves + [leaf], idx, seed, frontier, level)
    {
      ClimbStep(tree, leaves, leaf, seed, level);
      if shifted % 2 == 0 {
        frontier := frontier[level := cur];
        cur := tree.hash2(cur, zeroes[level]);
      } else {
        cur := tree.hash2(frontier[level], cur);
      }
      shifted := shifted / 2;
    }
    root := cur;
    SweptHolds(tree, leaves, leaf, seed, frontier);
  }
}
