/** Roots and proofs of Poseidon trees (buildTreeLevels, Root and proofFromLeaves in
    pkg/utxotree/store.go and pkg/txid/merkletree.go, whose leaves differ in name only). */
module SparseMerkle {
  import opened Wrappers
  import opened MerkleProofs
  import opened SparseLevels
  import opened DenseTree
  import opened Hex
  import P = Positional

  const TREE_DEPTH: nat := 16
  const TREE_MAX_ITEMS: nat := 65536

  /** MerkleZeroValueHex, the value of a missing leaf. */
  const MERKLE_ZERO: nat := 0x0488f89b25bc7011eaf6a5edce71aeafb9fe706faa3c0a5cd9cbe868ae3b9ffc

  datatype Leaf = Leaf(tree: nat, index: nat, hash: string, txid: string, blockNumber: nat)

  type Leaves = map<nat, Leaf>

  predicate ValidLeaf(leaf: Leaf) {
    leaf.index < TREE_MAX_ITEMS && leaf.hash != "" && Read(leaf.hash).Some?
  }

  ghost predicate AllValid(leaves: Leaves) {
    forall i | i in leaves :: ValidLeaf(leaves[i])
  }

  /** Hex text of field elements, hashed with Poseidon. */
  function Hashing(h: Hasher): Notation {
    Notation(Read, FieldText, Poseidon(h), MERKLE_ZERO)
  }

  function Hashes(leaves: Leaves): Level {
    map i | i in leaves :: leaves[i].hash
  }

  function TreeOf(h: Hasher, leaves: Leaves): HashTree {
    Hashing(h).Tree(Hashes(leaves))
  }

  lemma HashingIsValid(h: Hasher)
    ensures Hashing(h).Valid()
  {
    FieldTextReadsBack(MERKLE_ZERO);
    forall m, n ensures Read(FieldText(Poseidon(h)(m, n))) == Some(Poseidon(h)(m, n)) {
      FieldTextReadsBack(HashLeftRight(h, m, n));
    }
  }

  lemma LeavesAreReadable(h: Hasher, leaves: Leaves)
    requires AllValid(leaves)
    ensures Hashing(h).Readable(Hashes(leaves))
  {
    forall i | i in leaves ensures Hashing(h).read(Hashes(leaves)[i]).Some? {
      assert ValidLeaf(leaves[i]);
    }
  }

  // ----- The tree as numbers

  function LeafNumber(h: Hasher, leaves: Leaves, index: nat): int {
    Hashing(h).LeafNumber(Hashes(leaves), index)
  }

  /** A node of the complete tree of 2^16 leaves. */
  function Number(h: Hasher, leaves: Leaves, level: nat, index: nat): int {
    Hashing(h).Number(Hashes(leaves), level, index)
  }

  /** What a node of the tree of texts is. */
  lemma NodeReads(h: Hasher, leaves: Leaves, level: nat, index: nat)
    requires AllValid(leaves)
    ensures TreeOf(h, leaves).Node(level, index).Some?
    ensures Read(TreeOf(h, leaves).Node(level, index).value) == Some(Number(h, leaves, level, index))
    ensures level > 0 ==>
      Number(h, leaves, level, index) >= 0
      && TreeOf(h, leaves).Node(level, index) == Some(FieldText(Number(h, leaves, level, index)))
  {
    HashingIsValid(h);
    LeavesAreReadable(h, leaves);
    Hashing(h).NodeIsNumber(Hashes(leaves), level, index);
  }

  /** What a number is as a leaf: that of the stored hash, or the zero value. */
  lemma LeafIsNumber(h: Hasher, leaves: Leaves, index: nat)
    requires AllValid(leaves)
    ensures index in leaves ==> Some(Number(h, leaves, 0, index)) == HexToBigInt(leaves[index].hash)
    ensures index !in leaves ==> Number(h, leaves, 0, index) == MERKLE_ZERO
  {
    assert index in leaves ==> ValidLeaf(leaves[index]);
  }

  /** A parent is the hash of its two children reduced into the field, the left one first. */
  lemma ParentIsHash(h: Hasher, leaves: Leaves, level: nat, index: nat)
    ensures var left, right := Number(h, leaves, level, 2 * index), Number(h, leaves, level, 2 * index + 1);
            Number(h, leaves, level + 1, index) == h(left % FIELD, right % FIELD) % FIELD
  {
    Hashing(h).NumberStep(Hashes(leaves), level + 1, index);
  }

  // ----- Building

  method AllLeavesValid(leaves: Leaves) returns (ok: bool)
    ensures ok <==> AllValid(leaves)
  {
    var todo := leaves.Keys;
    while todo != {}
      invariant todo <= leaves.Keys
      invariant forall i | i in leaves && i !in todo :: ValidLeaf(leaves[i])
      decreases todo
    {
      var index :| index in todo;
      if !ValidLeaf(leaves[index]) {
        return false;
      }
      todo := todo - {index};
    }
    return true;
  }

  method BuildTreeLevels(h: Hasher, leaves: Leaves) returns (r: Option<seq<Level>>)
    ensures r.Some? <==> AllValid(leaves)
    ensures r.Some? ==>
      |r.value| == TREE_DEPTH + 1 && TreeOf(h, leaves).Valid() && AreLevels(TreeOf(h, leaves), r.value)
  {
    var ok := AllLeavesValid(leaves);
    if !ok {
      return None;
    }
    HashingIsValid(h);
    LeavesAreReadable(h, leaves);
    Hashing(h).TreeIsHashable(Hashes(leaves));
    r := Build(TreeOf(h, leaves), TREE_DEPTH);
  }

  /** The root of stored leaves is the root of the complete tree. */
  method Root(h: Hasher, leaves: Leaves) returns (r: Option<string>)
    ensures r == if AllValid(leaves) then Some(FieldText(RootNumber(h, leaves))) else None
  {
    var levels := BuildTreeLevels(h, leaves);
    if levels.None? {
      return None;
    }
    r := Some(NodeAtLevel(TreeOf(h, leaves), levels.value, TREE_DEPTH, 0));
    NodeReads(h, leaves, TREE_DEPTH, 0);
  }

  function RootNumber(h: Hasher, leaves: Leaves): (n: nat)
    ensures n < FIELD
    ensures n == Number(h, leaves, TREE_DEPTH, 0)
  {
    RootInField(h, leaves);
    Number(h, leaves, TREE_DEPTH, 0)
  }

  lemma RootInField(h: Hasher, leaves: Leaves)
    ensures 0 <= Number(h, leaves, TREE_DEPTH, 0) < FIELD
  {
  }

  // ----- Proofs

  function Path(h: Hasher, leaves: Leaves, index: nat): (r: seq<int>)
    ensures |r| == TREE_DEPTH
  {
    Hashing(h).Path(Hashes(leaves), index, TREE_DEPTH)
  }

  /** A proof exists for the valid trees' own leaves; it names the leaf, its index, the siblings
      on the way up and the root of the complete tree. */
  method ProofFromLeaves(h: Hasher, leaves: Leaves, index: nat) returns (r: Option<MerkleProof>)
    ensures r.Some? <==> index < TREE_MAX_ITEMS && index in leaves && AllValid(leaves)
    ensures r.Some? ==> IsProof(h, leaves, index, r.value)
  {
    if index >= TREE_MAX_ITEMS || index !in leaves {
      return None;
    }
    var levels := BuildTreeLevels(h, leaves);
    if levels.None? {
      return None;
    }
    var elements := Beside(TreeOf(h, leaves), levels.value, index, TREE_DEPTH);
    BesideIsListed(h, leaves, levels.value, index, TREE_DEPTH, elements);
    HashingIsValid(h);
    LeavesAreReadable(h, leaves);
    Hashing(h).PathReads(Hashes(leaves), levels.value, index, TREE_DEPTH, elements);
    NodeReads(h, leaves, TREE_DEPTH, 0);
    var root := NodeAtLevel(TreeOf(h, leaves), levels.value, TREE_DEPTH, 0);
    return Some(MerkleProof(leaves[index].hash, FieldText(leaves[index].index), elements, root));
  }

  /** The elements are the nodes of the complete tree beside the way up. */
  ghost predicate ListsSiblings(h: Hasher, leaves: Leaves, index: nat, elements: seq<string>) {
    forall k | 0 <= k < |elements| ::
      Shift(index, k) >= 0 && TreeOf(h, leaves).Node(k, Sibling(Shift(index, k))) == Some(elements[k])
  }

  lemma BesideIsListed(h: Hasher, leaves: Leaves, levels: seq<Level>, index: nat, top: nat, elements: seq<string>)
    requires TreeOf(h, leaves).Valid() && AreLevels(TreeOf(h, leaves), levels) && top < |levels|
    requires IsBeside(TreeOf(h, leaves), levels, index, top, elements)
    ensures ListsSiblings(h, leaves, index, elements)
  {
  }

  ghost predicate IsProof(h: Hasher, leaves: Leaves, index: nat, proof: MerkleProof)
    requires index in leaves
  {
    && proof.leaf == leaves[index].hash
    && proof.indices == FieldText(leaves[index].index)
    && ListsSiblings(h, leaves, index, proof.elements)
    && Denote(proof.elements, Path(h, leaves, index))
    && proof.root == FieldText(RootNumber(h, leaves))
  }

  /** The leaves determine the proof. */
  lemma ProofIsUnique(h: Hasher, leaves: Leaves, index: nat, p: MerkleProof, q: MerkleProof)
    requires index in leaves && IsProof(h, leaves, index, p) && IsProof(h, leaves, index, q)
    ensures p == q
  {
    SameListed(h, leaves, index, p.elements, q.elements);
  }

  lemma SameListed(h: Hasher, leaves: Leaves, index: nat, a: seq<string>, b: seq<string>)
    requires |a| == |b| && ListsSiblings(h, leaves, index, a) && ListsSiblings(h, leaves, index, b)
    ensures a == b
  {
    forall k | 0 <= k < |a| ensures a[k] == b[k] {
      assert TreeOf(h, leaves).Node(k, Sibling(Shift(index, k))) == Some(a[k]);
    }
  }

  // ----- What proofs and roots are good for

  lemma DepthIsRight()
    ensures P.Pow(2, TREE_DEPTH) == TREE_MAX_ITEMS
  {
    assert P.Pow(2, 4) == 16;
    Squares(2, 4);
    Squares(2, 8);
  }

  lemma IndexFits(index: nat)
    requires index < TREE_MAX_ITEMS
    ensures index < P.Pow(2, TREE_DEPTH)
  {
    DepthIsRight();
  }

  lemma ClimbFromIndex(h: Hasher, leaves: Leaves, index: nat)
    requires index < P.Pow(2, TREE_DEPTH)
    ensures Climb(Poseidon(h), index, Path(h, leaves, index), LeafNumber(h, leaves, index)) == RootNumber(h, leaves)
  {
    Hashing(h).PathLeadsToRoot(Hashes(leaves), index, TREE_DEPTH);
  }

  /** Hashing any leaf, stored or missing, with the numbers beside its way leads to the root. */
  lemma ClimbToRoot(h: Hasher, leaves: Leaves, index: nat)
    requires index < TREE_MAX_ITEMS
    ensures Climb(Poseidon(h), index, Path(h, leaves, index), LeafNumber(h, leaves, index)) == RootNumber(h, leaves)
  {
    IndexFits(index);
    ClimbFromIndex(h, leaves, index);
  }

  lemma AcceptedClimb(h: Hasher, proof: MerkleProof, index: int, leaf: int, numbers: seq<int>)
    requires Read(proof.indices) == Some(index) && Read(proof.leaf) == Some(leaf) && Denote(proof.elements, numbers)
    requires Climb(Poseidon(h), index, numbers, leaf) >= 0
    requires proof.root == FieldText(Climb(Poseidon(h), index, numbers, leaf))
    ensures Accepted(h, proof)
  {
    PathIsClimb(h, index, proof.elements, numbers, leaf);
    assert RootOf(h, proof) == Some(proof.root);
  }

  lemma StoredLeafReads(h: Hasher, leaves: Leaves, index: nat)
    requires AllValid(leaves) && index in leaves && leaves[index].index == index
    ensures Read(leaves[index].hash) == Some(LeafNumber(h, leaves, index)) && index < TREE_MAX_ITEMS
    ensures Read(FieldText(index)) == Some(index)
  {
    assert ValidLeaf(leaves[index]);
    FieldTextReadsBack(index);
  }

  lemma AcceptedNumbers(h: Hasher, proof: MerkleProof, index: int, leaf: int, numbers: seq<int>, root: nat)
    requires Read(proof.indices) == Some(index) && Read(proof.leaf) == Some(leaf) && Denote(proof.elements, numbers)
    requires Climb(Poseidon(h), index, numbers, leaf) == root && proof.root == FieldText(root)
    ensures Accepted(h, proof)
  {
    AcceptedClimb(h, proof, index, leaf, numbers);
  }

  lemma ReadProofIsAccepted(h: Hasher, leaves: Leaves, index: nat, proof: MerkleProof)
    requires index < TREE_MAX_ITEMS && Denote(proof.elements, Path(h, leaves, index))
    requires Read(proof.indices) == Some(index) && Read(proof.leaf) == Some(LeafNumber(h, leaves, index))
    requires proof.root == FieldText(RootNumber(h, leaves))
    ensures Accepted(h, proof)
  {
    ClimbToRoot(h, leaves, index);
    AcceptedNumbers(h, proof, index, LeafNumber(h, leaves, index), Path(h, leaves, index), RootNumber(h, leaves));
  }

  /** Whatever the leaves, a proof made for a leaf stored under its own index is accepted. */
  lemma ProofIsAccepted(h: Hasher, leaves: Leaves, index: nat, proof: MerkleProof)
    requires AllValid(leaves) && index in leaves && leaves[index].index == index
    requires IsProof(h, leaves, index, proof)
    ensures Accepted(h, proof)
  {
    StoredLeafReads(h, leaves, index);
    ReadProofIsAccepted(h, leaves, index, proof);
  }

  lemma EqualIndicesShareBits(n: int, k: nat)
    ensures SameBits(n, n, k)
  {
  }

  /** Two trees with the same root hold the same field element at every index, or the hash has
      a collision; a missing leaf counts as the zero value. */
  lemma RootBindsLeaves(h: Hasher, left: Leaves, right: Leaves, index: nat) returns (a: (nat, nat), b: (nat, nat))
    requires index < TREE_MAX_ITEMS && RootNumber(h, left) == RootNumber(h, right)
    requires InField(LeafNumber(h, left, index)) != InField(LeafNumber(h, right, index))
    ensures IsCollision(h, a, b)
  {
    ClimbToRoot(h, left, index);
    ClimbToRoot(h, right, index);
    EqualIndicesShareBits(index, TREE_DEPTH);
    a, b := ClimbsCollide(h, index, index, Path(h, left, index), Path(h, right, index),
                          LeafNumber(h, left, index), LeafNumber(h, right, index));
  }
}
