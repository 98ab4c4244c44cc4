/**
 Binary Merkle trees of a fixed depth over an abstract two-to-one hash, padded
 with zero leaves: `Halving` is the reference reading (a list of 2^depth leaves
 split in two again and again), `Node` the positional one that the incremental
 frontier is compared with, and `PathRoot` the membership check of the circuit.
 */
module MerkleTree {
  function Pow2(n: nat): (p: nat)
    ensures p > 0
  {
    if n == 0 then 1 else 2 * Pow2(n - 1)
  }

  /** `n >> level` */
  function Shift(n: nat, level: nat): nat {
    if level == 0 then n else Shift(n, level - 1) / 2
  }

  datatype Tree<!D> = Tree(hash2: (D, D) -> D, zero: D, depth: nat) {

    /** The root of an all-zero tree of the given height. */
    function ZeroAt(level: nat): D {
      if level == 0 then zero else hash2(ZeroAt(level - 1), ZeroAt(level - 1))
    }

    function LeafAt(leaves: seq<D>, pos: nat): D {
      if pos < |leaves| then leaves[pos] else zero
    }

    /** The value of the `pos`-th node from the left, `level` steps above the leaves. */
    function Node(leaves: seq<D>, level: nat, pos: nat): D {
      if level == 0 then LeafAt(leaves, pos)
      else hash2(Node(leaves, level - 1, 2 * pos), Node(leaves, level - 1, 2 * pos + 1))
    }

    function Root(leaves: seq<D>): D {
      Node(leaves, depth, 0)
    }

    /** The root of a perfect tree given by all of its leaves. */
    function Halving(level: nat, s: seq<D>): D
      requires |s| == Pow2(level)
    {
      if level == 0 then s[0]
      else
        var half := Pow2(level - 1);
        hash2(Halving(level - 1, s[..half]), Halving(level - 1, s[half..]))
    }

    function Padded(leaves: seq<D>, lo: nat, count: nat): (s: seq<D>)
      ensures |s| == count
    {
      seq(count, i requires 0 <= i => LeafAt(leaves, lo + i))
    }

    lemma {:induction false} NodeIsHalving(leaves: seq<D>, level: nat, pos: nat, lo: nat)
      requires lo == pos * Pow2(level)
      ensures Node(leaves, level, pos) == Halving(level, Padded(leaves, lo, Pow2(level)))
    {
      if level == 0 {
        assert Pow2(level) == 1;
      } else {
        var half := Pow2(level - 1);
        DoubledPos(pos, half);
        NodeIsHalving(leaves, level - 1, 2 * pos, lo);
        NodeIsHalving(leaves, level - 1, 2 * pos + 1, lo + half);
        var s := Padded(leaves, lo, Pow2(level));
        assert s[..half] == Padded(leaves, lo, half);
        assert s[half..] == Padded(leaves, lo + half, half);
      }
    }

    /** The root is that of the full tree over the leaves followed by zero leaves. */
    lemma RootIsFullTree(leaves: seq<D>)
      requires |leaves| <= Pow2(depth)
      ensures var padding := seq(Pow2(depth) - |leaves|, _ => zero);
              Root(leaves) == Halving(depth, leaves + padding)
    {
      NodeIsHalving(leaves, depth, 0, 0);
      assert Padded(leaves, 0, Pow2(depth)) == leaves + seq(Pow2(depth) - |leaves|, _ => zero);
    }

    /** A node wholly to the right of the last leaf is a zero subtree. */
    lemma {:induction false} EmptyNode(leaves: seq<D>, level: nat, pos: nat)
      requires leaves == [] || pos > Shift(|leaves| - 1, level)
      ensures Node(leaves, level, pos) == ZeroAt(level)
    {
      if level > 0 {
        EmptyNode(leaves, level - 1, 2 * pos);
        EmptyNode(leaves, level - 1, 2 * pos + 1);
      }
    }

    /** A node whose leaves are all taken is not changed by later leaves. */
    lemma {:induction false} FullNode(leaves: seq<D>, leaf: D, level: nat, pos: nat)
      requires pos < Shift(|leaves|, level)
      ensures Node(leaves + [leaf], level, pos) == Node(leaves, level, pos)
    {
      if level > 0 {
        FullNode(leaves, leaf, level - 1, 2 * pos);
        FullNode(leaves, leaf, level - 1, 2 * pos + 1);
      }
    }

    /** The circuit's climb from a leaf along its siblings, leaf side first. */
    function PathRoot(leaf: D, siblings: seq<D>, bits: seq<bool>): D
      requires |siblings| == |bits|
    {
      if siblings == [] then leaf
      else
        var n := |siblings| - 1;
        var below := PathRoot(leaf, siblings[..n], bits[..n]);
        if bits[n] then hash2(siblings[n], below) else hash2(below, siblings[n])
    }

    /** The neighbours met on the way from leaf `index` up to `level`. */
    function Siblings(leaves: seq<D>, index: nat, level: nat): (s: seq<D>)
      ensures |s| == level
    {
      if level == 0 then []
      else
        var pos := Shift(index, level - 1);
        Siblings(leaves, index, level - 1)
        + [Node(leaves, level - 1, if pos % 2 == 1 then pos - 1 else pos + 1)]
    }

    function Bits(index: nat, level: nat): (s: seq<bool>)
      ensures |s| == level
    {
      if level == 0 then [] else Bits(index, level - 1) + [Shift(index, level - 1) % 2 == 1]
    }

    lemma {:induction false} PathClimbs(leaves: seq<D>, index: nat, level: nat)
      ensures PathRoot(LeafAt(leaves, index), Siblings(leaves, index, level), Bits(index, level))
           == Node(leaves, level, Shift(index, level))
    {
      if level > 0 {
        var n := level - 1;
        var siblings, bits := Siblings(leaves, index, level), Bits(index, level);
        PathClimbs(leaves, index, n);
        assert siblings[..n] == Siblings(leaves, index, n) && bits[..n] == Bits(index, n);
      }
    }

    /** Every stored leaf has a path that the circuit accepts against the root. */
    lemma EveryLeafOpens(leaves: seq<D>, index: nat)
      requires index < |leaves| <= Pow2(depth)
      ensures PathRoot(leaves[index], Siblings(leaves, index, depth), Bits(index, depth)) == Root(leaves)
    {
      PathClimbs(leaves, index, depth);
      ShiftOut(index, depth);
    }
  }

  lemma DoubledPos(pos: nat, half: nat)
    ensures pos * (2 * half) == (2 * pos) * half && pos * (2 * half) + half == (2 * pos + 1) * half
  {
  }

  lemma {:induction false} ShiftFromBelow(n: nat, level: nat)
    ensures Shift(n, level + 1) == Shift(n / 2, level)
  {
    if level > 0 {
      ShiftFromBelow(n, level - 1);
    }
  }

  lemma {:induction false} ShiftOut(n: nat, level: nat)
    requires n < Pow2(level)
    ensures Shift(n, level) == 0
  {
    if level > 0 {
      ShiftFromBelow(n, level - 1);
      ShiftOut(n / 2, level - 1);
    }
  }

  /** Counting one further either stays in the same block of 2^level or enters the next. */
  lemma {:induction false} ShiftNext(n: nat, level: nat)
    ensures Shift(n + 1, level) == Shift(n, level) || Shift(n + 1, level) == Shift(n, level) + 1
  {
    if level > 0 {
      ShiftNext(n, level - 1);
    }
  }
}
