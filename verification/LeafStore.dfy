/** The stores of Merkle leaves by tree and index (MemoryStore in pkg/utxotree/store.go and
    MemoryMerkleTreeStore in pkg/txid/merkletree.go). */
module LeafStore {
  import opened Wrappers
  import opened MerkleProofs
  import opened SparseMerkle

  /** Leaves by tree, then by index. */
  type Stored = map<nat, Leaves>

  function LeavesOf(stored: Stored, tree: nat): Leaves {
    if tree in stored then stored[tree] else map[]
  }

  function At(stored: Stored, tree: nat, index: nat): Option<Leaf> {
    if index in LeavesOf(stored, tree) then Some(LeavesOf(stored, tree)[index]) else None
  }

  function Put(stored: Stored, leaf: Leaf): Stored {
    stored[leaf.tree := LeavesOf(stored, leaf.tree)[leaf.index := leaf]]
  }

  function PutAll(stored: Stored, leaves: seq<Leaf>): Stored {
    if leaves == [] then stored else Put(PutAll(stored, leaves[..|leaves| - 1]), leaves[|leaves| - 1])
  }

  function Below(leaves: Leaves, fromBlock: nat): Leaves {
    map i | i in leaves && leaves[i].blockNumber < fromBlock :: leaves[i]
  }

  /** What a rollback leaves; trees without leaves disappear. */
  function Cut(stored: Stored, fromBlock: nat): Stored {
    map t | t in stored && Below(stored[t], fromBlock) != map[] :: Below(stored[t], fromBlock)
  }

  /** Every leaf is valid and stored at its own place, and there is no empty tree. */
  ghost predicate WellPlaced(stored: Stored) {
    forall t | t in stored :: stored[t] != map[] && TreeIsPlaced(stored[t], t)
  }

  ghost predicate TreeIsPlaced(leaves: Leaves, tree: nat) {
    forall i | i in leaves :: ValidLeaf(leaves[i]) && leaves[i].tree == tree && leaves[i].index == i
  }

  lemma TreePut(leaves: Leaves, leaf: Leaf)
    requires TreeIsPlaced(leaves, leaf.tree) && ValidLeaf(leaf)
    ensures TreeIsPlaced(leaves[leaf.index := leaf], leaf.tree) && leaves[leaf.index := leaf] != map[]
  {
    assert leaf.index in leaves[leaf.index := leaf];
  }

  lemma PutKeepsPlaces(stored: Stored, leaf: Leaf)
    requires WellPlaced(stored) && ValidLeaf(leaf)
    ensures WellPlaced(Put(stored, leaf))
  {
    TreePut(LeavesOf(stored, leaf.tree), leaf);
  }

  /** What a rollback does to every tree determines the store. */
  lemma IsCut(stored: Stored, was: Stored, fromBlock: nat)
    requires forall t | t in stored :: stored[t] != map[]
    requires forall t | t in stored || t in was :: LeavesOf(stored, t) == Below(LeavesOf(was, t), fromBlock)
    ensures stored == Cut(was, fromBlock)
  {
  }

  lemma CutKeepsPlaces(stored: Stored, fromBlock: nat)
    requires WellPlaced(stored)
    ensures WellPlaced(Cut(stored, fromBlock))
  {
  }

  lemma PutAt(stored: Stored, leaf: Leaf, tree: nat, index: nat)
    ensures At(Put(stored, leaf), tree, index)
         == if tree == leaf.tree && index == leaf.index then Some(leaf) else At(stored, tree, index)
  {
  }

  lemma CutAt(stored: Stored, fromBlock: nat, tree: nat, index: nat)
    ensures At(Cut(stored, fromBlock), tree, index)
         == var leaf := At(stored, tree, index);
            if leaf.Some? && leaf.value.blockNumber < fromBlock then leaf else None
  {
    if tree in stored {
      assert index in Below(stored[tree], fromBlock) ==> Below(stored[tree], fromBlock) != map[];
    }
  }

  /** Stores without empty trees are equal when they hold the same leaves. */
  lemma SameLeaves(a: Stored, b: Stored)
    requires forall t | t in a :: a[t] != map[]
    requires forall t | t in b :: b[t] != map[]
    requires forall t, i :: At(a, t, i) == At(b, t, i)
    ensures a == b
  {
    forall t ensures LeavesOf(a, t) == LeavesOf(b, t) {
      SameTree(a, b, t);
    }
    forall t ensures t in a <==> t in b {
      assert LeavesOf(a, t) == LeavesOf(b, t);
    }
    forall t | t in a ensures a[t] == b[t] {
      assert LeavesOf(a, t) == LeavesOf(b, t);
    }
  }

  lemma SameTree(a: Stored, b: Stored, t: nat)
    requires forall i :: At(a, t, i) == At(b, t, i)
    ensures LeavesOf(a, t) == LeavesOf(b, t)
  {
    var x, y := LeavesOf(a, t), LeavesOf(b, t);
    forall i ensures (i in x <==> i in y) && (i in x ==> x[i] == y[i]) {
      assert At(a, t, i) == At(b, t, i);
    }
  }

  class MemoryStore {
    var leaves: Stored

    ghost predicate Valid()
      reads this
    {
      WellPlaced(leaves)
    }

    constructor ()
      ensures Valid() && leaves == map[]
    {
      leaves := map[];
    }

    method UpsertLeaf(leaf: Leaf) returns (ok: bool)
      requires Valid()
      modifies this
      ensures Valid()
      ensures ok == ValidLeaf(leaf)
      ensures leaves == if ok then Put(old(leaves), leaf) else old(leaves)
    {
      if !ValidLeaf(leaf) {
        return false;
      }
      PutKeepsPlaces(leaves, leaf);
      leaves := Insert(leaves, leaf);
      return true;
    }

    /** All leaves or none. */
    method UpsertLeaves(more: seq<Leaf>) returns (ok: bool)
      requires Valid()
      modifies this
      ensures Valid()
      ensures ok == forall i | 0 <= i < |more| :: ValidLeaf(more[i])
      ensures leaves == if ok then PutAll(old(leaves), more) else old(leaves)
    {
      for i := 0 to |more|
        invariant leaves == old(leaves)
        invariant forall k | 0 <= k < i :: ValidLeaf(more[k])
      {
        if !ValidLeaf(more[i]) {
          return false;
        }
      }
      for i := 0 to |more|
        invariant Valid() && leaves == PutAll(old(leaves), more[..i])
      {
        assert more[..i + 1][..i] == more[..i];
        var _ := UpsertLeaf(more[i]);
      }
      assert more[..|more|] == more;
      return true;
    }

    method GetLeaf(tree: nat, index: nat) returns (r: Option<Leaf>)
      ensures r == At(leaves, tree, index)
    {
      return At(leaves, tree, index);
    }

    /** Deletes the leaves of this and later blocks, tree by tree. */
    method RollbackToBlock(fromBlock: nat)
      requires Valid()
      modifies this
      ensures Valid()
      ensures leaves == Cut(old(leaves), fromBlock)
    {
      CutKeepsPlaces(leaves, fromBlock);
      leaves := DeleteFromAll(leaves, fromBlock);
    }

    /** The root of a tree is that of the complete tree over its leaves. */
    method Root(h: Hasher, tree: nat) returns (r: Option<string>)
      requires Valid()
      ensures r == Some(FieldText(RootNumber(h, LeavesOf(leaves, tree))))
    {
      r := SparseMerkle.Root(h, LeavesOf(leaves, tree));
    }

    /** There is a proof for every stored leaf; it is accepted, it is about that leaf, and its
        root is the root of the tree. */
    method Proof(h: Hasher, tree: nat, index: nat) returns (r: Option<MerkleProof>)
      requires Valid()
      ensures r.Some? <==> At(leaves, tree, index).Some?
      ensures r.Some? ==>
        && IsProof(h, LeavesOf(leaves, tree), index, r.value)
        && Accepted(h, r.value)
        && r.value.leaf == At(leaves, tree, index).value.hash
        && Read(r.value.indices) == Some(index)
        && r.value.root == FieldText(RootNumber(h, LeavesOf(leaves, tree)))
    {
      r := ProofInTree(h, LeavesOf(leaves, tree), tree, index);
    }
  }

  method ProofInTree(h: Hasher, own: Leaves, tree: nat, index: nat) returns (r: Option<MerkleProof>)
    requires TreeIsPlaced(own, tree)
    ensures r.Some? <==> index in own
    ensures r.Some? ==>
      && IsProof(h, own, index, r.value) && Accepted(h, r.value) && r.value.leaf == own[index].hash
      && Read(r.value.indices) == Some(index) && r.value.root == FieldText(RootNumber(h, own))
  {
    assert index in own ==> ValidLeaf(own[index]) && own[index].index == index;
    r := ProofFromLeaves(h, own, index);
    if r.Some? {
      ProofReads(h, own, index, r.value);
    }
  }

  lemma ProofReads(h: Hasher, own: Leaves, index: nat, proof: MerkleProof)
    requires AllValid(own) && index in own && own[index].index == index && IsProof(h, own, index, proof)
    ensures Accepted(h, proof) && proof.leaf == own[index].hash && Read(proof.indices) == Some(index)
    ensures proof.root == FieldText(RootNumber(h, own))
  {
    ProofIsAccepted(h, own, index, proof);
    StoredLeafReads(h, own, index);
  }

  method DeleteFrom(leaves: Leaves, fromBlock: nat) returns (kept: Leaves)
    ensures kept == Below(leaves, fromBlock)
  {
    kept := leaves;
    var todo := leaves.Keys;
    while todo != {}
      invariant todo <= leaves.Keys
      invariant kept == map i | i in leaves && (i in todo || leaves[i].blockNumber < fromBlock) :: leaves[i]
      decreases todo
    {
      var index :| index in todo;
      todo := todo - {index};
      if leaves[index].blockNumber >= fromBlock {
        kept := kept - {index};
      }
    }
  }

  method Insert(stored: Stored, leaf: Leaf) returns (r: Stored)
    ensures r == Put(stored, leaf)
  {
    r := stored;
    if leaf.tree !in r {
      r := r[leaf.tree := map[]];
    }
    var own: Leaves := r[leaf.tree];
    r := r[leaf.tree := own[leaf.index := leaf]];
  }

  method DeleteInTree(stored: Stored, tree: nat, fromBlock: nat) returns (r: Stored)
    requires tree in stored
    ensures LeavesOf(r, tree) == Below(stored[tree], fromBlock) && (tree in r ==> r[tree] != map[])
    ensures r.Keys <= stored.Keys
    ensures forall t | t in stored && t != tree :: t in r && r[t] == stored[t]
  {
    var kept := DeleteFrom(stored[tree], fromBlock);
    if kept == map[] {
      r := stored - {tree};
    } else {
      r := stored[tree := kept];
    }
  }

  /** Some trees have been cut, the others are as they were. */
  ghost predicate CutSoFar(stored: Stored, r: Stored, trees: set<nat>, fromBlock: nat) {
    && trees <= stored.Keys && r.Keys <= stored.Keys
    && (forall t | t in stored ::
          if t in trees then t in r && r[t] == stored[t] else IsCutTree(stored[t], r, t, fromBlock))
  }

  ghost predicate IsCutTree(leaves: Leaves, r: Stored, t: nat, fromBlock: nat) {
    LeavesOf(r, t) == Below(leaves, fromBlock) && (t in r ==> r[t] != map[])
  }

  lemma CutNext(stored: Stored, r: Stored, next: Stored, trees: set<nat>, tree: nat, fromBlock: nat)
    requires CutSoFar(stored, r, trees, fromBlock) && tree in trees && IsCutTree(stored[tree], next, tree, fromBlock)
    requires next.Keys <= r.Keys && forall t | t in r && t != tree :: t in next && next[t] == r[t]
    ensures CutSoFar(stored, next, trees - {tree}, fromBlock)
  {
    forall t | t in stored && t !in trees ensures IsCutTree(stored[t], next, t, fromBlock) {
      assert IsCutTree(stored[t], r, t, fromBlock);
      assert t in next <==> t in r;
    }
  }

  lemma AllCut(stored: Stored, r: Stored, fromBlock: nat)
    requires CutSoFar(stored, r, {}, fromBlock)
    ensures r == Cut(stored, fromBlock)
  {
    forall t | t in r ensures r[t] != map[] {
      assert IsCutTree(stored[t], r, t, fromBlock);
    }
    forall t | t in r || t in stored ensures LeavesOf(r, t) == Below(LeavesOf(stored, t), fromBlock) {
      assert IsCutTree(stored[t], r, t, fromBlock);
    }
    IsCut(r, stored, fromBlock);
  }

  method DeleteFromAll(stored: Stored, fromBlock: nat) returns (r: Stored)
    requires forall t | t in stored :: stored[t] != map[]
    ensures r == Cut(stored, fromBlock)
  {
    r := stored;
    var trees := stored.Keys;
    while trees != {}
      invariant CutSoFar(stored, r, trees, fromBlock)
      decreases trees
    {
      var tree :| tree in trees;
      ghost var before := r;
      r := DeleteInTree(r, tree, fromBlock);
      CutNext(stored, before, r, trees, tree, fromBlock);
      trees := trees - {tree};
    }
    AllCut(stored, r, fromBlock);
  }
}
