/** Filling a binary hash tree level by level and keeping only what differs from an empty tree
    (buildTreeLevels and nodeAtLevel, which pkg/utxotree/store.go and pkg/txid/merkletree.go
    define alike), for any way of hashing a pair of nodes. */
module SparseLevels {
  import opened Wrappers
  import opened DenseTree
  import P = Positional

  type Level = map<nat, string>

  /** How pairs are hashed, what a missing leaf stands for, and the leaves. */
  datatype HashTree = HashTree(pair: (string, string) -> Option<string>, zero: string, leaves: Level) {

    function Join(left: Option<string>, right: Option<string>): Option<string> {
      if left.None? || right.None? then None else pair(left.value, right.value)
    }

    /** The node of a complete subtree without leaves. */
    function ZeroHash(level: nat): Option<string> {
      if level == 0 then Some(zero) else Join(ZeroHash(level - 1), ZeroHash(level - 1))
    }

    /** A node of the complete tree in which every missing leaf is the zero leaf. */
    function Node(level: nat, index: nat): Option<string> {
      if level == 0 then Some(if index in leaves then leaves[index] else zero)
      else Join(Node(level - 1, 2 * index), Node(level - 1, 2 * index + 1))
    }

    /** The empty subtrees can be hashed; the program stops when they cannot. */
    ghost predicate Valid() {
      forall level :: ZeroHash(level).Some?
    }

    /** So can all subtrees. */
    ghost predicate Hashable() {
      forall level, index :: Node(level, index).Some?
    }
  }

  function NodeAtLevel(t: HashTree, levels: seq<Level>, level: nat, index: nat): string
    requires t.Valid()
  {
    if level < |levels| && index in levels[level] then levels[level][index] else t.ZeroHash(level).value
  }

  /** Every node read from the levels is the node of the complete tree. */
  ghost predicate AreLevels(t: HashTree, levels: seq<Level>)
    requires t.Valid()
  {
    forall level: nat, index: nat | level < |levels| ::
      t.Node(level, index) == Some(NodeAtLevel(t, levels, level, index))
  }

  /** The parents seen so far have been filled in. */
  ghost predicate IsFilled(t: HashTree, next: Level, level: nat, seen: set<nat>)
    requires t.Valid()
  {
    && next.Keys <= seen
    && forall p | p in seen ::
         t.Node(level, p) == Some(if p in next then next[p] else t.ZeroHash(level).value)
  }

  /** One level up, visiting the nodes that are there in any order. */
  method ParentLevel(t: HashTree, levels: seq<Level>, level: nat) returns (r: Option<Level>)
    requires t.Valid() && AreLevels(t, levels) && |levels| == level + 1
    ensures r.Some? ==> AreLevels(t, levels + [r.value])
    ensures r.None? ==> !t.Hashable()
  {
    var next: Level := map[];
    var seen: set<nat> := {};
    var todo := levels[level].Keys;
    while todo != {}
      invariant todo <= levels[level].Keys
      invariant forall i | i in levels[level] && i !in todo :: i / 2 in seen
      invariant IsFilled(t, next, level + 1, seen)
      decreases todo
    {
      var index :| index in todo;
      todo := todo - {index};
      var parent := index / 2;
      if parent !in seen {
        seen := seen + {parent};
        var left := NodeAtLevel(t, levels, level, 2 * parent);
        var right := NodeAtLevel(t, levels, level, 2 * parent + 1);
        var hash := t.pair(left, right);
        if hash.None? {
          assert t.Node(level + 1, parent).None?;
          return None;
        }
        if hash != t.ZeroHash(level + 1) {
          next := next[parent := hash.value];
        }
      }
    }
    forall index: nat | index !in seen ensures t.Node(level + 1, index) == t.ZeroHash(level + 1) {
      UnseenIsEmpty(t, levels, level, index);
    }
    LevelsGrow(t, levels, next);
    return Some(next);
  }

  /** Above two nodes that were left out lies one that may be left out. */
  lemma UnseenIsEmpty(t: HashTree, levels: seq<Level>, level: nat, index: nat)
    requires t.Valid() && AreLevels(t, levels) && |levels| == level + 1
    requires 2 * index !in levels[level] && 2 * index + 1 !in levels[level]
    ensures t.Node(level + 1, index) == t.ZeroHash(level + 1)
  {
    assert t.Node(level, 2 * index) == Some(NodeAtLevel(t, levels, level, 2 * index));
    assert t.Node(level, 2 * index + 1) == Some(NodeAtLevel(t, levels, level, 2 * index + 1));
  }

  lemma LevelsGrow(t: HashTree, levels: seq<Level>, next: Level)
    requires t.Valid() && AreLevels(t, levels)
    requires forall index: nat ::
      t.Node(|levels|, index) == Some(if index in next then next[index] else t.ZeroHash(|levels|).value)
    ensures AreLevels(t, levels + [next])
  {
    var more := levels + [next];
    forall level: nat, index: nat | level < |more|
      ensures t.Node(level, index) == Some(NodeAtLevel(t, more, level, index))
    {
      if level < |levels| {
        assert t.Node(level, index) == Some(NodeAtLevel(t, levels, level, index));
      }
    }
  }

  /** Whatever the leaves and the order in which they are visited: the levels read as the
      complete tree, or some node of it cannot be hashed. */
  method Build(t: HashTree, depth: nat) returns (r: Option<seq<Level>>)
    requires t.Valid()
    ensures r.Some? ==> |r.value| == depth + 1 && AreLevels(t, r.value)
    ensures r.None? ==> !t.Hashable()
  {
    var levels := [t.leaves];
    for level := 0 to depth
      invariant |levels| == level + 1 && AreLevels(t, levels)
    {
      var next := ParentLevel(t, levels, level);
      if next.None? {
        return None;
      }
      levels := levels + [next.value];
    }
    return Some(levels);
  }

  // ----- What the nodes mean

  /** How numbers are read and written, and how two of them are hashed. */
  datatype Notation = Notation(read: string -> Option<int>, write: nat -> string, join: (int, int) -> nat, zero: nat) {

    /** What is hashed, and the zero leaf, can be read back. */
    ghost predicate Valid() {
      read(write(zero)) == Some(zero) && forall m, n :: read(write(join(m, n))) == Some(join(m, n))
    }

    function HashPair(left: string, right: string): Option<string> {
      var l, r := read(left), read(right);
      if l.None? || r.None? then None else Some(write(join(l.value, r.value)))
    }

    function Tree(leaves: Level): HashTree {
      HashTree((l, r) => HashPair(l, r), write(zero), leaves)
    }

    ghost predicate Readable(leaves: Level) {
      forall i | i in leaves :: read(leaves[i]).Some?
    }

    function LeafNumber(leaves: Level, index: nat): int {
      if index in leaves && read(leaves[index]).Some? then read(leaves[index]).value else zero
    }

    function LeafNumbers(leaves: Level): nat -> int {
      (index: nat) => LeafNumber(leaves, index)
    }

    /** A node of the complete tree, as a number. */
    function Number(leaves: Level, level: nat, index: nat): int {
      Dense(join, LeafNumbers(leaves), level, index)
    }

    lemma PairReads(left: string, right: string, m: int, n: int)
      requires Valid() && read(left) == Some(m) && read(right) == Some(n)
      ensures HashPair(left, right) == Some(write(join(m, n)))
      ensures read(write(join(m, n))) == Some(join(m, n))
    {
    }

    lemma NumberStep(leaves: Level, level: nat, index: nat)
      requires level > 0
      ensures Number(leaves, level, index)
           == join(Number(leaves, level - 1, 2 * index), Number(leaves, level - 1, 2 * index + 1))
    {
    }

    /** Every node can be hashed and denotes its number; above the leaves it is its text. */
    lemma {:induction false} NodeIsNumber(leaves: Level, level: nat, index: nat)
      requires Valid() && Readable(leaves)
      ensures Tree(leaves).Node(level, index).Some?
      ensures read(Tree(leaves).Node(level, index).value) == Some(Number(leaves, level, index))
      ensures level > 0 ==>
        && Number(leaves, level, index) >= 0
        && Tree(leaves).Node(level, index) == Some(write(Number(leaves, level, index)))
    {
      if level > 0 {
        NodeIsNumber(leaves, level - 1, 2 * index);
        NodeIsNumber(leaves, level - 1, 2 * index + 1);
        var t := Tree(leaves);
        PairReads(t.Node(level - 1, 2 * index).value, t.Node(level - 1, 2 * index + 1).value,
                  Number(leaves, level - 1, 2 * index), Number(leaves, level - 1, 2 * index + 1));
        NumberStep(leaves, level, index);
      }
    }

    lemma {:induction false} ZeroHashExists(leaves: Level, level: nat)
      requires Valid()
      ensures Tree(leaves).ZeroHash(level).Some? && read(Tree(leaves).ZeroHash(level).value).Some?
    {
      if level > 0 {
        ZeroHashExists(leaves, level - 1);
        var z := Tree(leaves).ZeroHash(level - 1).value;
        PairReads(z, z, read(z).value, read(z).value);
      }
    }

    lemma TreeIsHashable(leaves: Level)
      requires Valid() && Readable(leaves)
      ensures Tree(leaves).Valid() && Tree(leaves).Hashable()
    {
      forall level ensures Tree(leaves).ZeroHash(level).Some? {
        ZeroHashExists(leaves, level);
      }
      forall level, index ensures Tree(leaves).Node(level, index).Some? {
        NodeIsNumber(leaves, level, index);
      }
    }

    // ----- Ways up

    /** The numbers beside the way from a leaf up. */
    function Path(leaves: Level, index: nat, top: nat): (r: seq<int>)
      ensures |r| == top
    {
      Siblings(join, LeafNumbers(leaves), 0, index, top)
    }

    /** Hashing a leaf with the numbers beside its way leads to the root. */
    lemma PathLeadsToRoot(leaves: Level, index: nat, top: nat)
      requires index < P.Pow(2, top)
      ensures Climb(join, index, Path(leaves, index, top), LeafNumber(leaves, index)) == Number(leaves, top, 0)
    {
      ShiftedOut(index, top);
      ClimbReachesAncestor(join, LeafNumbers(leaves), 0, index, top, 0);
      assert Dense(join, LeafNumbers(leaves), 0, index) == LeafNumber(leaves, index);
    }

    /** The texts beside the way denote the numbers beside it. */
    lemma PathReads(leaves: Level, levels: seq<Level>, index: nat, top: nat, elements: seq<string>)
      requires Valid() && Readable(leaves) && Tree(leaves).Valid() && AreLevels(Tree(leaves), levels)
      requires top < |levels| && IsBeside(Tree(leaves), levels, index, top, elements)
      ensures forall k | 0 <= k < top :: read(elements[k]) == Some(Path(leaves, index, top)[k])
    {
      forall k | 0 <= k < top ensures read(elements[k]) == Some(Path(leaves, index, top)[k]) {
        SiblingAt(join, LeafNumbers(leaves), 0, index, top, k);
        NodeIsNumber(leaves, k, Sibling(Shift(index, k)));
        assert Tree(leaves).Node(k, Sibling(Shift(index, k))) == Some(elements[k]);
      }
    }
  }

  // ----- What a proof lists

  ghost predicate IsBeside(t: HashTree, levels: seq<Level>, index: nat, top: nat, elements: seq<string>)
    requires t.Valid()
  {
    |elements| == top && forall k | 0 <= k < top ::
      Shift(index, k) >= 0 && elements[k] == NodeAtLevel(t, levels, k, Sibling(Shift(index, k)))
  }

  method Beside(t: HashTree, levels: seq<Level>, index: nat, top: nat) returns (elements: seq<string>)
    requires t.Valid()
    ensures IsBeside(t, levels, index, top, elements)
  {
    elements := [];
    var proofIndex := index;
    for level := 0 to top
      invariant proofIndex == Shift(index, level)
      invariant IsBeside(t, levels, index, level, elements)
    {
      elements := elements + [NodeAtLevel(t, levels, level, Sibling(proofIndex))];
      proofIndex := proofIndex / 2;
    }
  }
}
