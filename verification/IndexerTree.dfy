/** The off-chain rebuild of the pool's root on field elements, and why it is the contract's root. */
module IndexerTree {
  import opened Bytes
  import opened Wrappers
  import opened FieldHash
  import opened MerkleTree
  import opened Digits
  import Frontier
  import Recovery

  function FieldTree(crypto: Crypto, depth: nat): (tree: Tree<Fr>)
    ensures tree.depth == depth
  {
    var hash2: (Fr, Fr) -> Fr := (a: Fr, b: Fr) => crypto.poseidon2([a % R, b % R]);
    Tree<Fr>.Tree(hash2, 0, depth)
  }

  /** The root after all of `leaves`, in order; `zero[depth]` when there are none. */
  method RebuildRoot(crypto: Crypto, leaves: seq<Fr>, depth: nat) returns (root: Fr)
    ensures |leaves| <= Pow2(depth) ==> root == FieldTree(crypto, depth).Root(leaves)
  {
    hide FieldTree, Tree.Node, Tree.ZeroAt, Shift, Frontier.Holds;
    var tree := FieldTree(crypto, depth);
    var zeros := Frontier.ZeroChain(tree);
    root := zeros[depth];
    tree.EmptyNode([], depth, 0);
    var frontier: seq<Fr> := seq(depth, _ => 0);
    Frontier.SeedNeverRead(tree, frontier);
    for idx := 0 to |leaves|
      invariant Frontier.Holds(tree, leaves[..idx], frontier)
      invariant root == tree.Node(leaves[..idx], depth, if idx == 0 then 0 else Shift(idx - 1, depth))
    {
      assert leaves[..idx + 1] == leaves[..idx] + [leaves[idx]];
      var cur := leaves[idx] % R;
      frontier, root := Frontier.Climb(tree, zeros, frontier, idx, cur, leaves[..idx]);
    }
    assert leaves[..|leaves|] == leaves;
    if leaves != [] && |leaves| <= Pow2(depth) {
      ShiftOut(|leaves| - 1, depth);
    }
  }

  /** The leaves' values as field elements. */
  ghost predicate Reads(leaves: seq<Bytes32>, values: seq<Fr>) {
    |leaves| == |values| && forall i :: 0 <= i < |leaves| ==> BeValue(leaves[i]) == values[i]
  }

  /** Node for node, the tree of values is the tree of bytes. */
  lemma {:induction false} SameNodes(crypto: Crypto, leaves: seq<Bytes32>, values: seq<Fr>, level: nat, pos: nat)
    requires Reads(leaves, values)
    ensures BeValue(Recovery.HashTree(crypto).Node(leaves, level, pos))
         == FieldTree(crypto, Recovery.HashTree(crypto).depth).Node(values, level, pos)
  {
    var onChain := Recovery.HashTree(crypto);
    if level == 0 {
      BeValueZeros(32);
    } else {
      SameNodes(crypto, leaves, values, level - 1, 2 * pos);
      SameNodes(crypto, leaves, values, level - 1, 2 * pos + 1);
      HashAgrees(crypto, onChain.Node(leaves, level - 1, 2 * pos), onChain.Node(leaves, level - 1, 2 * pos + 1));
    }
  }

  /** Both trees hash left before right, with a zero leaf of value 0; the contract's is 24 levels deep. */
  lemma HashAgrees(crypto: Crypto, a: Bytes32, b: Bytes32)
    requires BeValue(a) < R && BeValue(b) < R
    ensures BeValue(Recovery.HashTree(crypto).hash2(a, b)) == crypto.poseidon2([BeValue(a), BeValue(b)])
    ensures Recovery.HashTree(crypto).zero == Zeros(32) && Recovery.HashTree(crypto).depth == 24
    ensures FieldTree(crypto, 24).zero == 0
    ensures BeValue(Recovery.HashTree(crypto).hash2(a, b)) == FieldTree(crypto, 0).hash2(BeValue(a), BeValue(b))
  {
    assert Reduced([BeValue(a), BeValue(b)]) == [BeValue(a) % R, BeValue(b) % R];
  }

  // ---- hexadecimal text ----

  function LeafText(leaf: Bytes32): string {
    "0x" + BytesHex(leaf)
  }

  /** `None` where the source throws: not 64 hexadecimal digits, or not below the field order. */
  function HexToFr(hex: string): Option<Fr> {
    var s := if "0x" <= hex || "0X" <= hex then hex[2..] else hex;
    if |s| != 64 || !Numeric(s, 16) then None
    else if Reading(s, 16) >= R then None
    else Some(Reading(s, 16))
  }

  function FrToHex(x: Fr): string {
    "0x" + PadStart(Numeral(x, 16), 64)
  }

  /** Exactly the texts of 64 digits below the field order are read, with either prefix or none, in either case. */
  lemma HexToFrIff(hex: string, x: Fr)
    ensures HexToFr(hex) == Some(x) <==>
            exists t :: (hex == t || hex == "0x" + t || hex == "0X" + t)
              && |t| == 64 && Numeric(t, 16) && Reading(t, 16) == x
  {
    hide Reading;
    forall t | |t| == 64 && Numeric(t, 16) && (hex == t || hex == "0x" + t || hex == "0X" + t)
      ensures t == if "0x" <= hex || "0X" <= hex then hex[2..] else hex
    {
      assert DigitValue('x') == 16 && DigitValue('X') == 16;
      assert DigitValue(t[1]) < 16;
    }
    if "0x" <= hex || "0X" <= hex {
      assert hex == hex[..2] + hex[2..];
    }
  }

  /** A leaf's text is read back as its value exactly when the value is canonical. */
  lemma LeafTextReads(leaf: Bytes32)
    ensures HexToFr(LeafText(leaf)) == if BeValue(leaf) < R then Some(BeValue(leaf)) else None
  {
    BytesHexReads(leaf);
    assert LeafText(leaf)[2..] == BytesHex(leaf);
  }

  /** A field element is printed as the text of the 32 bytes that hold it. */
  lemma PrintedAsBytes(b: Bytes32)
    requires BeValue(b) < R
    ensures FrToHex(BeValue(b)) == LeafText(b)
  {
    PaddedNumeralIsBytesHex(b);
  }
}
