/** The ordered-key store of leaves, commitments, nullifiers and unshields
    (pkg/utxotree/pebble_store.go); what it does to leaves refines the plain maps of LeafStore. */
module PebbleStore {
  import opened Wrappers
  import opened KeyOrder
  import opened MerkleProofs
  import opened SparseMerkle
  import opened LeafStore
  import WalletStore
  import Seqs

  const UINT64_LIMIT: nat := 0x1_0000_0000_0000_0000

  // ----- Records and their keys

  datatype Namespace = Leaves | V2Commitments | V3Commitments | Nullifiers | Unshields

  datatype Record =
    | LeafRecord(leaf: Leaf)
    | V2Record(commitment: WalletStore.Commitment)
    | V3Record(tree: nat, index: nat, commitmentBlock: nat, data: string)
    | NullifierRecord(event: WalletStore.NullifierEvent, formatted: string)
    | UnshieldRecord(txid: string, discriminator: string, unshieldBlock: nat)

  function Prefix(space: Namespace): string {
    match space
    case Leaves => "leaf:"
    case V2Commitments => "commitment:v2:"
    case V3Commitments => "commitment:v3:"
    case Nullifiers => "nullifier:"
    case Unshields => "unshield:"
  }

  function SpaceOf(r: Record): Namespace {
    match r
    case LeafRecord(_) => Leaves
    case V2Record(_) => V2Commitments
    case V3Record(_, _, _, _) => V3Commitments
    case NullifierRecord(_, _) => Nullifiers
    case UnshieldRecord(_, _, _) => Unshields
  }

  function TreePrefix(space: Namespace, tree: nat): Key {
    Bytes(Prefix(space)) + (Bytes(Padded(tree)) + Bytes(":"))
  }

  function PlaceKey(space: Namespace, tree: nat, index: nat): Key {
    TreePrefix(space, tree) + Bytes(Padded(index))
  }

  function KeyOf(r: Record): Key {
    match r
    case LeafRecord(leaf) => PlaceKey(Leaves, leaf.tree, leaf.index)
    case V2Record(c) => PlaceKey(V2Commitments, c.tree, c.position)
    case V3Record(tree, index, _, _) => PlaceKey(V3Commitments, tree, index)
    case NullifierRecord(e, formatted) => TreePrefix(Nullifiers, e.tree) + Bytes(formatted)
    case UnshieldRecord(txid, discriminator, _) =>
      Bytes(Prefix(Unshields)) + (Bytes(txid) + Bytes(":") + Bytes(discriminator))
  }

  function BlockOf(r: Record): nat {
    match r
    case LeafRecord(leaf) => leaf.blockNumber
    case V2Record(c) => c.blockNumber
    case V3Record(_, _, b, _) => b
    case NullifierRecord(e, _) => e.blockNumber
    case UnshieldRecord(_, _, b) => b
  }

  predicate ValidRecord(r: Record) {
    match r
    case LeafRecord(leaf) => ValidLeaf(leaf) && leaf.tree < UINT64_LIMIT
    case V2Record(c) => c.tree < UINT64_LIMIT && c.position < UINT64_LIMIT
    case V3Record(tree, index, _, _) => tree < UINT64_LIMIT && index < UINT64_LIMIT
    case NullifierRecord(e, formatted) => e.tree < UINT64_LIMIT && AllBytes(Bytes(formatted))
    case UnshieldRecord(txid, discriminator, _) => AllBytes(Bytes(txid)) && AllBytes(Bytes(discriminator))
  }

  // ----- Namespaces

  lemma PrefixBytes(space: Namespace)
    ensures AllBytes(Bytes(Prefix(space))) && |Bytes(Prefix(space))| > 0
    ensures space.V2Commitments? || space.V3Commitments? ==> |Bytes(Prefix(space))| == 14
    ensures Bytes(Prefix(space))[0] == FirstByte(space)
  {
  }

  function FirstByte(space: Namespace): nat {
    match space
    case Leaves => 'l' as nat
    case V2Commitments => 'c' as nat
    case V3Commitments => 'c' as nat
    case Nullifiers => 'n' as nat
    case Unshields => 'u' as nat
  }

  lemma VersionByte()
    ensures |Prefix(V2Commitments)| == |Prefix(V3Commitments)| == 14
    ensures Bytes(Prefix(V2Commitments))[12] == '2' as nat && Bytes(Prefix(V3Commitments))[12] == '3' as nat
  {
  }

  /** No key lies in two namespaces. */
  lemma NamespacesAreDisjoint(a: Namespace, b: Namespace, k: Key)
    requires Bytes(Prefix(a)) <= k && Bytes(Prefix(b)) <= k
    ensures a == b
  {
    PrefixBytes(a);
    PrefixBytes(b);
    VersionByte();
    assert k[0] == FirstByte(a) == FirstByte(b);
    assert a.V2Commitments? || b.V2Commitments? ==> k[12] == '2' as nat;
    assert a.V3Commitments? || b.V3Commitments? ==> k[12] == '3' as nat;
  }

  lemma KeyStartsWithSpace(r: Record)
    ensures Bytes(Prefix(SpaceOf(r))) <= KeyOf(r)
  {
  }

  lemma KeyIsBytes(r: Record)
    requires ValidRecord(r)
    ensures AllBytes(KeyOf(r))
  {
    PrefixBytes(SpaceOf(r));
    match r
    case LeafRecord(leaf) => PlaceIsBytes(Leaves, leaf.tree, leaf.index);
    case V2Record(c) => PlaceIsBytes(V2Commitments, c.tree, c.position);
    case V3Record(tree, index, _, _) => PlaceIsBytes(V3Commitments, tree, index);
    case NullifierRecord(e, _) => TreePrefixIsBytes(Nullifiers, e.tree);
    case UnshieldRecord(_, _, _) =>
  }

  lemma TreePrefixIsBytes(space: Namespace, tree: nat)
    requires tree < UINT64_LIMIT
    ensures AllBytes(TreePrefix(space, tree))
  {
    PrefixBytes(space);
    PaddedOrder(tree, tree);
  }

  lemma PlaceIsBytes(space: Namespace, tree: nat, index: nat)
    requires tree < UINT64_LIMIT && index < UINT64_LIMIT
    ensures AllBytes(PlaceKey(space, tree, index))
  {
    TreePrefixIsBytes(space, tree);
    PaddedOrder(index, index);
  }

  // ----- Places

  /** Within a namespace, keys are ordered by tree and then by index. */
  lemma PlacesAreOrdered(space: Namespace, t: nat, i: nat, u: nat, j: nat)
    requires t < UINT64_LIMIT && i < UINT64_LIMIT && u < UINT64_LIMIT && j < UINT64_LIMIT
    ensures Less(PlaceKey(space, t, i), PlaceKey(space, u, j)) <==> t < u || (t == u && i < j)
  {
    PaddedOrder(t, u);
    PaddedOrder(u, t);
    PaddedOrder(i, j);
    var p, c := Bytes(Prefix(space)), Bytes(":");
    var a, b, x, y := Bytes(Padded(t)), Bytes(Padded(u)), Bytes(Padded(i)), Bytes(Padded(j));
    Regroup(p, a, c, x);
    Regroup(p, b, c, y);
    LessAfterPrefix(p, a + (c + x), b + (c + y));
    LessByFields(a, b, c + x, c + y);
    LessAfterPrefix(c, x, y);
    BytesAreInjective(Padded(t), Padded(u));
  }

  /** No two places have the same key. */
  lemma PlacesDiffer(space: Namespace, t: nat, i: nat, u: nat, j: nat)
    requires t < UINT64_LIMIT && i < UINT64_LIMIT && u < UINT64_LIMIT && j < UINT64_LIMIT
    requires PlaceKey(space, t, i) == PlaceKey(space, u, j)
    ensures t == u && i == j
  {
    PlacesAreOrdered(space, t, i, u, j);
    PlacesAreOrdered(space, u, j, t, i);
    NotLessThanItself(PlaceKey(space, t, i));
  }

  lemma Regroup(p: Key, a: Key, c: Key, x: Key)
    ensures (p + (a + c)) + x == p + (a + (c + x))
  {
  }

  lemma BytesAreInjective(s: string, t: string)
    ensures Bytes(s) == Bytes(t) <==> s == t
  {
    if Bytes(s) == Bytes(t) {
      forall i | 0 <= i < |s| ensures s[i] == t[i] {
        assert Bytes(s)[i] == Bytes(t)[i];
      }
    }
  }

  /** A key of a namespace starts with the prefix of a tree exactly when it is of that tree. */
  lemma TreeOfKey(space: Namespace, tree: nat, own: nat, rest: Key)
    requires tree < UINT64_LIMIT && own < UINT64_LIMIT
    ensures TreePrefix(space, tree) <= TreePrefix(space, own) + rest <==> tree == own
  {
    PaddedOrder(tree, own);
    PaddedOrder(own, tree);
    var p, q := TreePrefix(space, tree), TreePrefix(space, own);
    assert |p| == |q|;
    if p <= q + rest {
      assert (q + rest)[..|q|] == q;
      Seqs.SameParts(Bytes(Prefix(space)), Bytes(Padded(tree)) + Bytes(":"),
                     Bytes(Prefix(space)), Bytes(Padded(own)) + Bytes(":"));
      Seqs.SameParts(Bytes(Padded(tree)), Bytes(":"), Bytes(Padded(own)), Bytes(":"));
      BytesAreInjective(Padded(tree), Padded(own));
    }
  }

  /** Only the leaves of a tree have keys that start with its prefix. */
  lemma RecordOfTree(r: Record, tree: nat)
    requires ValidRecord(r) && tree < UINT64_LIMIT
    ensures TreePrefix(Leaves, tree) <= KeyOf(r) <==> r.LeafRecord? && r.leaf.tree == tree
  {
    KeyStartsWithSpace(r);
    if TreePrefix(Leaves, tree) <= KeyOf(r) {
      assert Bytes(Prefix(Leaves)) <= TreePrefix(Leaves, tree);
      NamespacesAreDisjoint(Leaves, SpaceOf(r), KeyOf(r));
    }
    if r.LeafRecord? {
      TreeOfKey(Leaves, tree, r.leaf.tree, Bytes(Padded(r.leaf.index)));
    }
  }

  // ----- The store

  type Database = map<Key, Record>

  ghost predicate ValidDatabase(db: Database) {
    forall k | k in db :: ValidRecord(db[k]) && k == KeyOf(db[k])
  }

  /** The leaf records are the leaves of these maps. */
  ghost predicate Represents(db: Database, stored: Stored) {
    && WellPlaced(stored)
    && (forall k | k in db && db[k].LeafRecord? :: At(stored, db[k].leaf.tree, db[k].leaf.index) == Some(db[k].leaf))
    && (forall t, i | At(stored, t, i).Some? :: LeafRecord(At(stored, t, i).value) in db.Values)
  }

  /** The keys between a prefix and its upper bound. */
  method ScanPrefix(db: Database, prefix: Key) returns (keys: set<Key>)
    requires ValidDatabase(db) && AllBytes(prefix)
    ensures keys == set k | k in db && prefix <= k
  {
    var upper := PrefixUpperBound(prefix);
    keys := set k | k in db && InRange(k, prefix, upper);
    forall k | k in db ensures InRange(k, prefix, upper) <==> prefix <= k {
      KeyIsBytes(db[k]);
      RangeIsPrefix(prefix, upper, k);
    }
  }

  class Store {
    var db: Database

    ghost predicate Valid()
      reads this
    {
      ValidDatabase(db)
    }

    constructor ()
      ensures Valid() && db == map[] && Represents(db, map[])
    {
      db := map[];
    }

    method UpsertLeaf(leaf: Leaf, ghost stored: Stored) returns (ok: bool)
      requires Valid() && Represents(db, stored) && leaf.tree < UINT64_LIMIT
      modifies this
      ensures Valid() && ok == ValidLeaf(leaf)
      ensures Represents(db, if ok then Put(stored, leaf) else stored)
      ensures forall k | k in old(db) && !old(db)[k].LeafRecord? :: k in db && db[k] == old(db)[k]
    {
      if !ValidLeaf(leaf) {
        return false;
      }
      SetLeaf(db, KeyOf(LeafRecord(leaf)), leaf, stored);
      db := db[KeyOf(LeafRecord(leaf)) := LeafRecord(leaf)];
      return true;
    }

    /** The leaves of a tree, found by its key range. */
    method LoadTree(tree: nat, ghost stored: Stored) returns (leaves: SparseMerkle.Leaves)
      requires Valid() && Represents(db, stored) && tree < UINT64_LIMIT
      ensures leaves == LeavesOf(stored, tree)
    {
      var keys := KeysOfTree(db, tree);
      leaves := CollectLeaves(db, keys, tree, stored);
      LoadedAll(db, stored, tree, leaves);
    }

    /** The root of a tree in this store is the root of the same leaves in plain maps. */
    method Root(h: Hasher, tree: nat, ghost stored: Stored) returns (r: Option<string>)
      requires Valid() && Represents(db, stored) && tree < UINT64_LIMIT
      ensures r == Some(FieldText(RootNumber(h, LeavesOf(stored, tree))))
    {
      var leaves := LoadTree(tree, stored);
      r := SparseMerkle.Root(h, leaves);
    }

    /** Scans every namespace and deletes the records of this and later blocks: exactly these, and
        for the leaves that is the rollback of the plain maps. */
    method RollbackToBlock(fromBlock: nat, ghost stored: Stored)
      requires Valid() && Represents(db, stored)
      modifies this
      ensures Valid() && Represents(db, Cut(stored, fromBlock))
      ensures db == map k | k in old(db) && BlockOf(old(db)[k]) < fromBlock :: old(db)[k]
      ensures forall k | k in old(db) :: k in db <==>
                match old(db)[k]
                case LeafRecord(leaf) => leaf.blockNumber < fromBlock
                case V2Record(c) => c.blockNumber < fromBlock
                case V3Record(_, _, block, _) => block < fromBlock
                case NullifierRecord(e, _) => e.blockNumber < fromBlock
                case UnshieldRecord(_, _, block) => block < fromBlock
    {
      var doomed := AllLateKeys(db, fromBlock);
      CutDatabase(db, stored, fromBlock);
      WithoutLate(db, doomed, fromBlock);
      db := db - doomed;
    }
  }

  lemma WithoutLate(db: Database, doomed: set<Key>, fromBlock: nat)
    requires ValidDatabase(db) && doomed == set k | k in db && BlockOf(db[k]) >= fromBlock
    ensures db - doomed == map k | k in db && BlockOf(db[k]) < fromBlock :: db[k]
    ensures ValidDatabase(db - doomed)
  {
  }

  method KeysOfTree(db: Database, tree: nat) returns (keys: set<Key>)
    requires ValidDatabase(db) && tree < UINT64_LIMIT
    ensures keys == set k | k in db && db[k].LeafRecord? && db[k].leaf.tree == tree
  {
    TreePrefixIsBytes(Leaves, tree);
    keys := ScanPrefix(db, TreePrefix(Leaves, tree));
    forall k | k in db ensures TreePrefix(Leaves, tree) <= k <==> db[k].LeafRecord? && db[k].leaf.tree == tree {
      RecordOfTree(db[k], tree);
    }
  }

  method CollectLeaves(db: Database, keys: set<Key>, ghost tree: nat, ghost stored: Stored)
    returns (leaves: SparseMerkle.Leaves)
    requires forall k | k in keys ::
               k in db && db[k].LeafRecord? && At(stored, tree, db[k].leaf.index) == Some(db[k].leaf)
    ensures forall i | i in leaves :: At(stored, tree, i) == Some(leaves[i])
    ensures forall k | k in keys :: db[k].leaf.index in leaves
  {
    leaves := map[];
    var todo := keys;
    while todo != {}
      invariant todo <= keys
      invariant forall i | i in leaves :: At(stored, tree, i) == Some(leaves[i])
      invariant forall k | k in keys && k !in todo :: db[k].leaf.index in leaves
      decreases todo
    {
      var k :| k in todo;
      todo := todo - {k};
      leaves := leaves[db[k].leaf.index := db[k].leaf];
    }
  }

  /** The leaf that is stored under a key is stored at that place. */
  lemma LeafUnderKey(r: Record, leaf: Leaf)
    requires ValidRecord(r) && ValidRecord(LeafRecord(leaf)) && KeyOf(r) == KeyOf(LeafRecord(leaf))
    ensures r.LeafRecord? && r.leaf.tree == leaf.tree && r.leaf.index == leaf.index
  {
    KeyStartsWithSpace(r);
    KeyStartsWithSpace(LeafRecord(leaf));
    NamespacesAreDisjoint(SpaceOf(r), Leaves, KeyOf(r));
    PlacesDiffer(Leaves, r.leaf.tree, r.leaf.index, leaf.tree, leaf.index);
  }

  lemma LeafIsReplaced(db: Database, k: Key, leaf: Leaf)
    requires ValidDatabase(db) && ValidRecord(LeafRecord(leaf)) && k == KeyOf(LeafRecord(leaf))
    ensures ValidDatabase(db[k := LeafRecord(leaf)])
    ensures k in db ==> db[k].LeafRecord? && db[k].leaf.tree == leaf.tree && db[k].leaf.index == leaf.index
  {
    if k in db {
      LeafUnderKey(db[k], leaf);
    }
  }

  lemma SetLeaf(db: Database, k: Key, leaf: Leaf, stored: Stored)
    requires ValidDatabase(db) && Represents(db, stored) && ValidLeaf(leaf) && leaf.tree < UINT64_LIMIT
    requires k == KeyOf(LeafRecord(leaf))
    ensures ValidDatabase(db[k := LeafRecord(leaf)]) && Represents(db[k := LeafRecord(leaf)], Put(stored, leaf))
    ensures k in db ==> db[k].LeafRecord?
  {
    PutKeepsPlaces(stored, leaf);
    LeafIsReplaced(db, k, leaf);
    SetKeepsLeaves(db, k, leaf, stored);
    SetHasLeaves(db, k, leaf, stored);
  }

  lemma SetKeepsLeaves(db: Database, k: Key, leaf: Leaf, stored: Stored)
    requires ValidDatabase(db) && Represents(db, stored) && ValidLeaf(leaf) && leaf.tree < UINT64_LIMIT
    requires k == KeyOf(LeafRecord(leaf))
    ensures var more := db[k := LeafRecord(leaf)];
            forall x | x in more && more[x].LeafRecord? ::
              At(Put(stored, leaf), more[x].leaf.tree, more[x].leaf.index) == Some(more[x].leaf)
  {
    var more := db[k := LeafRecord(leaf)];
    forall x | x in more && more[x].LeafRecord?
      ensures At(Put(stored, leaf), more[x].leaf.tree, more[x].leaf.index) == Some(more[x].leaf)
    {
      var l := more[x].leaf;
      PutAt(stored, leaf, l.tree, l.index);
      if x != k {
        assert x == KeyOf(LeafRecord(l));
        assert l.tree != leaf.tree || l.index != leaf.index;
      }
    }
  }

  lemma SetHasLeaves(db: Database, k: Key, leaf: Leaf, stored: Stored)
    requires Represents(db, stored)
    requires k in db ==> db[k].LeafRecord? && db[k].leaf.tree == leaf.tree && db[k].leaf.index == leaf.index
    ensures forall t, i | At(Put(stored, leaf), t, i).Some? ::
              LeafRecord(At(Put(stored, leaf), t, i).value) in db[k := LeafRecord(leaf)].Values
  {
    forall t, i | At(Put(stored, leaf), t, i).Some?
      ensures LeafRecord(At(Put(stored, leaf), t, i).value) in db[k := LeafRecord(leaf)].Values
    {
      PutAt(stored, leaf, t, i);
      if t == leaf.tree && i == leaf.index {
        assert db[k := LeafRecord(leaf)][k] == LeafRecord(leaf);
      } else {
        StoredAtOwnPlace(stored, t, i);
        OtherStays(db, k, leaf, At(stored, t, i).value);
      }
    }
  }

  lemma OtherStays(db: Database, k: Key, leaf: Leaf, l: Leaf)
    requires LeafRecord(l) in db.Values && (l.tree != leaf.tree || l.index != leaf.index)
    requires k in db ==> db[k].LeafRecord? && db[k].leaf.tree == leaf.tree && db[k].leaf.index == leaf.index
    ensures LeafRecord(l) in db[k := LeafRecord(leaf)].Values
  {
    var x :| x in db && db[x] == LeafRecord(l);
    assert db[k := LeafRecord(leaf)][x] == LeafRecord(l);
  }

  lemma StoredAtOwnPlace(stored: Stored, t: nat, i: nat)
    requires WellPlaced(stored) && At(stored, t, i).Some?
    ensures At(stored, t, i).value.tree == t && At(stored, t, i).value.index == i && ValidLeaf(At(stored, t, i).value)
  {
  }

  lemma LoadedAll(db: Database, stored: Stored, tree: nat, leaves: SparseMerkle.Leaves)
    requires Represents(db, stored)
    requires forall i | i in leaves :: At(stored, tree, i) == Some(leaves[i])
    requires forall k | k in db && db[k].LeafRecord? && db[k].leaf.tree == tree :: db[k].leaf.index in leaves
    ensures leaves == LeavesOf(stored, tree)
  {
    forall i | At(stored, tree, i).Some? ensures i in leaves {
      IsLoaded(db, stored, tree, i, leaves);
    }
    SameAsStored(stored, tree, leaves);
  }

  lemma SameAsStored(stored: Stored, tree: nat, leaves: SparseMerkle.Leaves)
    requires forall i | i in leaves :: At(stored, tree, i) == Some(leaves[i])
    requires forall i | At(stored, tree, i).Some? :: i in leaves
    ensures leaves == LeavesOf(stored, tree)
  {
    var own := LeavesOf(stored, tree);
    forall i | i in own ensures i in leaves && own[i] == leaves[i] {
      assert At(stored, tree, i) == Some(own[i]);
    }
    forall i | i in leaves ensures i in own {
      assert At(stored, tree, i).Some?;
    }
  }

  lemma IsLoaded(db: Database, stored: Stored, tree: nat, i: nat, leaves: SparseMerkle.Leaves)
    requires Represents(db, stored) && At(stored, tree, i).Some?
    requires forall k | k in db && db[k].LeafRecord? && db[k].leaf.tree == tree :: db[k].leaf.index in leaves
    ensures i in leaves
  {
    StoredAtOwnPlace(stored, tree, i);
    var k :| k in db && db[k] == LeafRecord(At(stored, tree, i).value);
  }

  function Late(db: Database, space: Namespace, fromBlock: nat): set<Key> {
    set k | k in db && SpaceOf(db[k]) == space && BlockOf(db[k]) >= fromBlock
  }

  lemma LateOfAllSpaces(db: Database, fromBlock: nat)
    ensures Late(db, Leaves, fromBlock) + Late(db, V2Commitments, fromBlock) + Late(db, V3Commitments, fromBlock)
            + Late(db, Nullifiers, fromBlock) + Late(db, Unshields, fromBlock)
         == set k | k in db && BlockOf(db[k]) >= fromBlock
  {
  }

  /** The keys of a namespace. */
  method KeysOfSpace(db: Database, space: Namespace) returns (keys: set<Key>)
    requires ValidDatabase(db)
    ensures keys == set k | k in db && SpaceOf(db[k]) == space
  {
    PrefixBytes(space);
    keys := ScanPrefix(db, Bytes(Prefix(space)));
    forall k | k in db ensures Bytes(Prefix(space)) <= k <==> SpaceOf(db[k]) == space {
      KeyStartsWithSpace(db[k]);
      if Bytes(Prefix(space)) <= k {
        NamespacesAreDisjoint(space, SpaceOf(db[k]), k);
      }
    }
  }

  /** The keys of a namespace whose records come from this or a later block. */
  method LateKeys(db: Database, space: Namespace, fromBlock: nat) returns (keys: set<Key>)
    requires ValidDatabase(db)
    ensures keys == Late(db, space, fromBlock)
  {
    var all := KeysOfSpace(db, space);
    keys := set k | k in all && BlockOf(db[k]) >= fromBlock;
  }

  /** One scan for each namespace. */
  method AllLateKeys(db: Database, fromBlock: nat) returns (keys: set<Key>)
    requires ValidDatabase(db)
    ensures keys == set k | k in db && BlockOf(db[k]) >= fromBlock
  {
    var leaves := LateKeys(db, Leaves, fromBlock);
    var v2 := LateKeys(db, V2Commitments, fromBlock);
    var v3 := LateKeys(db, V3Commitments, fromBlock);
    var nullifiers := LateKeys(db, Nullifiers, fromBlock);
    var unshields := LateKeys(db, Unshields, fromBlock);
    keys := leaves + v2 + v3 + nullifiers + unshields;
    LateOfAllSpaces(db, fromBlock);
  }

  lemma CutDatabase(db: Database, stored: Stored, fromBlock: nat)
    requires ValidDatabase(db) && Represents(db, stored)
    ensures Represents(map k | k in db && BlockOf(db[k]) < fromBlock :: db[k], Cut(stored, fromBlock))
  {
    CutKeepsPlaces(stored, fromBlock);
    var less := map k | k in db && BlockOf(db[k]) < fromBlock :: db[k];
    forall k | k in less && less[k].LeafRecord?
      ensures At(Cut(stored, fromBlock), less[k].leaf.tree, less[k].leaf.index) == Some(less[k].leaf)
    {
      CutAt(stored, fromBlock, less[k].leaf.tree, less[k].leaf.index);
    }
    forall t, i | At(Cut(stored, fromBlock), t, i).Some?
      ensures LeafRecord(At(Cut(stored, fromBlock), t, i).value) in less.Values
    {
      CutAt(stored, fromBlock, t, i);
      var k :| k in db && db[k] == LeafRecord(At(stored, t, i).value);
      assert less[k] == db[k];
    }
  }
}
