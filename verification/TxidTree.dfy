/** The history of TXID leaves: appending at the next global position and rolling back
    (AppendTransactionLeaf, NextMerkleTreePosition and RollbackToBlock in
    pkg/txid/merkletree.go, GetGlobalTreePosition in pkg/txid/txid.go). */
module TxidTree {
  import opened Wrappers
  import opened MerkleProofs
  import opened SparseMerkle
  import opened LeafStore
  import Seqs

  const UINT64_LIMIT: nat := 0x1_0000_0000_0000_0000

  /** A transaction to be stored: its leaf hash, its id and its block. */
  datatype Entry = Entry(hash: string, txid: string, blockNumber: nat)

  function GetGlobalTreePosition(tree: nat, index: nat): nat {
    tree * TREE_MAX_ITEMS + index
  }

  predicate ValidEntry(e: Entry) {
    e.hash != "" && Read(e.hash).Some?
  }

  // ----- Positions

  function LeafFor(e: Entry, position: nat): Leaf {
    Leaf(position / TREE_MAX_ITEMS, position % TREE_MAX_ITEMS, e.hash, e.txid, e.blockNumber)
  }

  /** The entries in a row from global position 0 on. */
  function Laid(s: seq<Entry>): Stored {
    if s == [] then map[] else Put(Laid(s[..|s| - 1]), LeafFor(s[|s| - 1], |s| - 1))
  }

  lemma PositionIsUnique(tree: nat, index: nat, position: nat)
    requires index < TREE_MAX_ITEMS
    ensures GetGlobalTreePosition(tree, index) == position
        <==> tree == position / TREE_MAX_ITEMS && index == position % TREE_MAX_ITEMS
  {
  }

  function EntryAt(s: seq<Entry>, tree: nat, index: nat): Option<Leaf> {
    var position := GetGlobalTreePosition(tree, index);
    if index < TREE_MAX_ITEMS && position < |s| then Some(LeafFor(s[position], position)) else None
  }

  /** Exactly the global positions below the number of entries are taken. */
  lemma {:induction false} LaidAt(s: seq<Entry>, tree: nat, index: nat)
    ensures At(Laid(s), tree, index) == EntryAt(s, tree, index)
  {
    if s != [] {
      var n := |s| - 1;
      LaidAt(s[..n], tree, index);
      PutAt(Laid(s[..n]), LeafFor(s[n], n), tree, index);
      if index < TREE_MAX_ITEMS {
        PositionIsUnique(tree, index, n);
      }
    }
  }

  /** The entry at a global position is stored there with its hash, its transaction and its block. */
  lemma EntryIsStored(s: seq<Entry>, position: nat)
    requires position < |s|
    ensures var leaf := At(Laid(s), position / TREE_MAX_ITEMS, position % TREE_MAX_ITEMS);
            && leaf.Some? && GetGlobalTreePosition(leaf.value.tree, leaf.value.index) == position
            && leaf.value.index < TREE_MAX_ITEMS && leaf.value.hash == s[position].hash
            && leaf.value.txid == s[position].txid && leaf.value.blockNumber == s[position].blockNumber
  {
    LaidAt(s, position / TREE_MAX_ITEMS, position % TREE_MAX_ITEMS);
    PositionIsUnique(position / TREE_MAX_ITEMS, position % TREE_MAX_ITEMS, position);
  }

  lemma {:induction false} LaidIsPlaced(s: seq<Entry>)
    requires forall i | 0 <= i < |s| :: ValidEntry(s[i])
    ensures WellPlaced(Laid(s))
  {
    if s != [] {
      var n := |s| - 1;
      LaidIsPlaced(s[..n]);
      assert ValidEntry(s[n]);
      PutKeepsPlaces(Laid(s[..n]), LeafFor(s[n], n));
    }
  }

  lemma {:induction false} LaidHasNoEmptyTree(s: seq<Entry>)
    ensures forall t | t in Laid(s) :: Laid(s)[t] != map[]
  {
    if s != [] {
      var n := |s| - 1;
      LaidHasNoEmptyTree(s[..n]);
      assert (n % TREE_MAX_ITEMS) in Laid(s)[n / TREE_MAX_ITEMS];
    }
  }

  // ----- Rolling back

  /** The entries of earlier blocks. */
  function Keep(s: seq<Entry>, fromBlock: nat): seq<Entry> {
    if s == [] then []
    else
      var rest := Keep(s[..|s| - 1], fromBlock);
      if s[|s| - 1].blockNumber < fromBlock then rest + [s[|s| - 1]] else rest
  }

  /** The entries of earlier blocks come before all others. */
  ghost predicate KeptInFront(s: seq<Entry>, fromBlock: nat, k: nat) {
    k <= |s| && forall i | 0 <= i < |s| :: s[i].blockNumber < fromBlock <==> i < k
  }

  lemma {:induction false} KeepIsFront(s: seq<Entry>, fromBlock: nat, k: nat)
    requires KeptInFront(s, fromBlock, k)
    ensures Keep(s, fromBlock) == s[..k]
  {
    if s != [] {
      var n := |s| - 1;
      if k == |s| {
        KeepIsFront(s[..n], fromBlock, n);
        assert s == s[..n] + [s[n]] && s[..k] == s;
      } else {
        KeepIsFront(s[..n], fromBlock, k);
        assert s[..n][..k] == s[..k];
      }
    }
  }

  lemma CutOfLaidAt(s: seq<Entry>, fromBlock: nat, tree: nat, index: nat)
    ensures At(Cut(Laid(s), fromBlock), tree, index)
         == var leaf := EntryAt(s, tree, index);
            if leaf.Some? && leaf.value.blockNumber < fromBlock then leaf else None
  {
    LaidAt(s, tree, index);
    CutAt(Laid(s), fromBlock, tree, index);
  }

  lemma FrontIsCut(s: seq<Entry>, fromBlock: nat, k: nat)
    requires KeptInFront(s, fromBlock, k)
    ensures Cut(Laid(s), fromBlock) == Laid(s[..k])
  {
    forall t, i ensures At(Cut(Laid(s), fromBlock), t, i) == At(Laid(s[..k]), t, i) {
      CutOfLaidAt(s, fromBlock, t, i);
      LaidAt(s[..k], t, i);
    }
    LaidHasNoEmptyTree(s[..k]);
    SameLeaves(Cut(Laid(s), fromBlock), Laid(s[..k]));
  }

  /** What a rollback leaves has no holes exactly when the entries that stay came first. */
  lemma RollbackLeavesNoHolesIff(s: seq<Entry>, fromBlock: nat)
    ensures (exists r :: Cut(Laid(s), fromBlock) == Laid(r)) <==> (exists k :: KeptInFront(s, fromBlock, k))
  {
    if k :| KeptInFront(s, fromBlock, k) {
      FrontIsCut(s, fromBlock, k);
    }
    if r :| Cut(Laid(s), fromBlock) == Laid(r) {
      forall i: nat | i < |s| ensures s[i].blockNumber < fromBlock <==> i < |r| {
        SameAtPosition(s, fromBlock, r, i);
      }
      if |r| > |s| {
        SameAtPosition(s, fromBlock, r, |r| - 1);
      }
      assert KeptInFront(s, fromBlock, |r|);
    }
  }

  lemma SameAtPosition(s: seq<Entry>, fromBlock: nat, r: seq<Entry>, i: nat)
    requires Cut(Laid(s), fromBlock) == Laid(r)
    ensures i < |r| <==> i < |s| && s[i].blockNumber < fromBlock
  {
    PositionIsUnique(i / TREE_MAX_ITEMS, i % TREE_MAX_ITEMS, i);
    CutOfLaidAt(s, fromBlock, i / TREE_MAX_ITEMS, i % TREE_MAX_ITEMS);
    LaidAt(r, i / TREE_MAX_ITEMS, i % TREE_MAX_ITEMS);
  }

  // ----- Runs

  datatype Op = Append(entry: Entry) | Rollback(fromBlock: nat)

  function Apply(s: seq<Entry>, op: Op): seq<Entry> {
    match op
    case Append(e) => s + [e]
    case Rollback(b) => Keep(s, b)
  }

  function Run(s: seq<Entry>, ops: seq<Op>): seq<Entry> {
    if ops == [] then s else Apply(Run(s, ops[..|ops| - 1]), ops[|ops| - 1])
  }

  /** Entries come in the order of their blocks. */
  ghost predicate Ordered(s: seq<Entry>) {
    forall i, j | 0 <= i < j < |s| :: s[i].blockNumber <= s[j].blockNumber
  }

  /** An entry that can be stored behind these, and is not of an earlier block than the last. */
  ghost predicate Fits(s: seq<Entry>, e: Entry) {
    && ValidEntry(e) && |s| / TREE_MAX_ITEMS < UINT64_LIMIT
    && (s != [] ==> s[|s| - 1].blockNumber <= e.blockNumber)
  }

  ghost predicate Admissible(s: seq<Entry>, op: Op) {
    op.Append? ==> Fits(s, op.entry)
  }

  /** Appends are valid, fit the store and do not go back to an earlier block than the last. */
  ghost predicate AllAdmissible(s: seq<Entry>, ops: seq<Op>) {
    forall i | 0 <= i < |ops| :: Admissible(Run(s, ops[..i]), ops[i])
  }

  lemma {:induction false} OrderedKeepsInFront(s: seq<Entry>, fromBlock: nat) returns (k: nat)
    requires Ordered(s)
    ensures KeptInFront(s, fromBlock, k) && Keep(s, fromBlock) == s[..k]
  {
    k := 0;
    while k < |s| && s[k].blockNumber < fromBlock
      invariant k <= |s| && forall i | 0 <= i < k :: s[i].blockNumber < fromBlock
    {
      k := k + 1;
    }
    KeepIsFront(s, fromBlock, k);
  }

  ghost predicate Good(s: seq<Entry>) {
    Ordered(s) && forall i | 0 <= i < |s| :: ValidEntry(s[i])
  }

  lemma GoodPrefix(s: seq<Entry>, k: nat)
    requires Good(s) && k <= |s|
    ensures Good(s[..k])
  {
  }

  lemma GoodSnoc(s: seq<Entry>, e: Entry)
    requires Good(s) && Fits(s, e)
    ensures Good(s + [e])
  {
    OrderedSnoc(s, e);
  }

  lemma OrderedSnoc(s: seq<Entry>, e: Entry)
    requires Ordered(s) && (s != [] ==> s[|s| - 1].blockNumber <= e.blockNumber)
    ensures Ordered(s + [e])
  {
    forall i | 0 <= i < |s| ensures s[i].blockNumber <= e.blockNumber {
      if i < |s| - 1 {
        assert s[i].blockNumber <= s[|s| - 1].blockNumber;
      }
    }
  }

  // ----- Appending

  /** The largest global position that is taken; None when none is. */
  ghost predicate IsLargest(stored: Stored, max: Option<nat>) {
    && (forall t, i | At(stored, t, i).Some? :: max.Some? && GetGlobalTreePosition(t, i) <= max.value)
    && (max.Some? ==> IsTaken(stored, max.value))
  }

  ghost predicate IsTaken(stored: Stored, position: nat) {
    exists t, i :: At(stored, t, i).Some? && GetGlobalTreePosition(t, i) == position
  }

  lemma LargestIsUnique(stored: Stored, m: Option<nat>, n: Option<nat>)
    requires IsLargest(stored, m) && IsLargest(stored, n)
    ensures m == n
  {
  }

  function After(max: Option<nat>): nat {
    if max.Some? then max.value + 1 else 0
  }

  /** The next position: one more than the largest one that is taken, holes or not; an error when its
      tree number does not fit. */
  ghost predicate IsNext(stored: Stored, r: Result<(nat, nat)>) {
    exists max :: IsLargest(stored, max) && r == PositionAfter(max)
  }

  function PositionAfter(max: Option<nat>): Result<(nat, nat)> {
    if After(max) / TREE_MAX_ITEMS < UINT64_LIMIT then Ok((After(max) / TREE_MAX_ITEMS, After(max) % TREE_MAX_ITEMS))
    else Err("txid merkle tree position exceeds uint64")
  }

  method NextMerkleTreePosition(store: MemoryStore) returns (r: Result<(nat, nat)>)
    ensures IsNext(store.leaves, r)
  {
    var max := LargestPosition(store.leaves);
    if max.None? {
      return Ok((0, 0));
    }
    var next := max.value + 1;
    assert next == After(max);
    if next / TREE_MAX_ITEMS >= UINT64_LIMIT {
      return Err("txid merkle tree position exceeds uint64");
    }
    return Ok((next / TREE_MAX_ITEMS, next % TREE_MAX_ITEMS));
  }

  method LargestPosition(stored: Stored) returns (max: Option<nat>)
    ensures IsLargest(stored, max)
  {
    max := None;
    var trees := stored.Keys;
    while trees != {}
      invariant trees <= stored.Keys
      invariant max.Some? ==> IsTaken(stored, max.value)
      invariant forall t, i | t !in trees && At(stored, t, i).Some? ::
                  max.Some? && GetGlobalTreePosition(t, i) <= max.value
      decreases trees
    {
      var tree :| tree in trees;
      trees := trees - {tree};
      max := LargestOfTree(stored, tree, max);
    }
  }

  method LargestOfTree(stored: Stored, tree: nat, before: Option<nat>) returns (max: Option<nat>)
    requires tree in stored && (before.Some? ==> IsTaken(stored, before.value))
    ensures max.Some? ==> IsTaken(stored, max.value)
    ensures before.Some? ==> max.Some? && before.value <= max.value
    ensures forall i | At(stored, tree, i).Some? :: max.Some? && GetGlobalTreePosition(tree, i) <= max.value
  {
    max := before;
    var todo := stored[tree].Keys;
    while todo != {}
      invariant todo <= stored[tree].Keys
      invariant max.Some? ==> IsTaken(stored, max.value)
      invariant before.Some? ==> max.Some? && before.value <= max.value
      invariant forall i | i !in todo && At(stored, tree, i).Some? ::
                  max.Some? && GetGlobalTreePosition(tree, i) <= max.value
      decreases todo
    {
      var index :| index in todo;
      todo := todo - {index};
      assert At(stored, tree, index).Some?;
      var position := GetGlobalTreePosition(tree, index);
      if max.None? || position > max.value {
        max := Some(position);
      }
    }
  }

  /** Entries in a row leave the position behind them free. */
  lemma LargestOfLaid(s: seq<Entry>)
    ensures IsLargest(Laid(s), if s == [] then None else Some(|s| - 1))
  {
    forall t, i | At(Laid(s), t, i).Some? ensures GetGlobalTreePosition(t, i) < |s| {
      LaidAt(s, t, i);
    }
    if s != [] {
      var n := |s| - 1;
      LaidAt(s, n / TREE_MAX_ITEMS, n % TREE_MAX_ITEMS);
      PositionIsUnique(n / TREE_MAX_ITEMS, n % TREE_MAX_ITEMS, n);
    }
  }

  /** The entry stands behind the largest position, or nothing has happened. */
  ghost predicate IsAppended(before: Stored, after: Stored, e: Entry, ok: bool) {
    exists max :: IsLargest(before, max)
      && ok == (ValidEntry(e) && After(max) / TREE_MAX_ITEMS < UINT64_LIMIT)
      && after == if ok then Put(before, LeafFor(e, After(max))) else before
  }

  method AppendTransactionLeaf(store: MemoryStore, e: Entry) returns (ok: bool)
    requires store.Valid()
    modifies store
    ensures store.Valid()
    ensures IsAppended(old(store.leaves), store.leaves, e, ok)
  {
    var next := NextMerkleTreePosition(store);
    ghost var max :| IsLargest(store.leaves, max) && next == PositionAfter(max);
    if next.Err? {
      return false;
    }
    ok := store.UpsertLeaf(Leaf(next.value.0, next.value.1, e.hash, e.txid, e.blockNumber));
    ValidLeafIff(e, After(max));
  }

  lemma ValidLeafIff(e: Entry, position: nat)
    ensures ValidLeaf(LeafFor(e, position)) <==> ValidEntry(e)
  {
  }

  /** Behind entries in a row the entry is the next one. */
  lemma AppendedToLaid(s: seq<Entry>, after: Stored, e: Entry, ok: bool)
    requires IsAppended(Laid(s), after, e, ok)
    ensures ok == (ValidEntry(e) && |s| / TREE_MAX_ITEMS < UINT64_LIMIT)
    ensures after == if ok then Laid(s + [e]) else Laid(s)
  {
    var last := if s == [] then None else Some(|s| - 1);
    LargestOfLaid(s);
    var max :| IsLargest(Laid(s), max)
      && ok == (ValidEntry(e) && After(max) / TREE_MAX_ITEMS < UINT64_LIMIT)
      && after == if ok then Put(Laid(s), LeafFor(e, After(max))) else Laid(s);
    LargestIsUnique(Laid(s), max, last);
    assert (s + [e])[..|s|] == s;
  }

  method Perform(store: MemoryStore, op: Op, ghost s: seq<Entry>)
    requires store.Valid() && store.leaves == Laid(s) && Good(s) && Admissible(s, op)
    modifies store
    ensures store.Valid() && store.leaves == Laid(Apply(s, op)) && Good(Apply(s, op))
  {
    match op
    case Append(e) =>
      GoodSnoc(s, e);
      var ok := AppendTransactionLeaf(store, e);
      AppendedToLaid(s, store.leaves, e, ok);
    case Rollback(b) =>
      ghost var k := OrderedKeepsInFront(s, b);
      GoodPrefix(s, k);
      FrontIsCut(s, b, k);
      store.RollbackToBlock(b);
  }

  lemma RunNext(s: seq<Entry>, ops: seq<Op>, n: nat)
    requires n < |ops|
    ensures Run(s, ops[..n + 1]) == Apply(Run(s, ops[..n]), ops[n])
  {
    assert ops[..n + 1][..n] == ops[..n];
  }

  /** Over any run of appends and rollbacks the leaves stay in a row from position 0 on. */
  method Replay(store: MemoryStore, ops: seq<Op>, ghost s: seq<Entry>)
    requires store.Valid() && store.leaves == Laid(s) && Good(s) && AllAdmissible(s, ops)
    modifies store
    ensures store.Valid() && store.leaves == Laid(Run(s, ops)) && Good(Run(s, ops))
  {
    ghost var now := s;
    for n := 0 to |ops|
      invariant now == Run(s, ops[..n])
      invariant store.Valid() && store.leaves == Laid(now) && Good(now)
    {
      RunNext(s, ops, n);
      assert Admissible(Run(s, ops[..n]), ops[n]);
      Perform(store, ops[n], now);
      now := Apply(now, ops[n]);
    }
    Seqs.Whole(ops);
  }

  function Appends(s: seq<Entry>): (r: seq<Op>)
    ensures |r| == |s| && forall i | 0 <= i < |s| :: r[i] == Append(s[i])
  {
    seq(|s|, i requires 0 <= i < |s| => Append(s[i]))
  }

  lemma {:induction false} RunOfAppends(s: seq<Entry>, more: seq<Entry>)
    ensures Run(s, Appends(more)) == s + more
  {
    if more != [] {
      var n := |more| - 1;
      RunOfAppends(s, more[..n]);
      assert Appends(more)[..n] == Appends(more[..n]);
      assert s + more == (s + more[..n]) + [more[n]];
    }
  }

  lemma {:induction false} RunOfConcat(s: seq<Entry>, a: seq<Op>, b: seq<Op>)
    ensures Run(s, a + b) == Run(Run(s, a), b)
  {
    if b == [] {
      assert a + b == a;
    } else {
      var n := |b| - 1;
      RunOfConcat(s, a, b[..n]);
      assert (a + b)[..|a + b| - 1] == a + b[..n];
    }
  }

  /** Replaying a fork after a rollback is building the surviving entries and the fork directly. */
  lemma ForkEqualsDirectBuild(a: seq<Entry>, fromBlock: nat, fork: seq<Entry>)
    ensures Run([], Appends(a) + [Rollback(fromBlock)] + Appends(fork))
         == Run([], Appends(Keep(a, fromBlock) + fork)) == Keep(a, fromBlock) + fork
  {
    RunOfAppends([], a);
    RunOfConcat([], Appends(a), [Rollback(fromBlock)]);
    RunOfConcat([], Appends(a) + [Rollback(fromBlock)], Appends(fork));
    RunOfAppends(Keep(a, fromBlock), fork);
    RunOfAppends([], Keep(a, fromBlock) + fork);
    assert [] + a == a;
    assert [] + (Keep(a, fromBlock) + fork) == Keep(a, fromBlock) + fork;
    RunOfOne(a, Rollback(fromBlock));
  }

  lemma RunOfOne(s: seq<Entry>, op: Op)
    ensures Run(s, [op]) == Apply(s, op)
  {
    assert [op][..0] == [];
  }

  // ----- A fork and the direct build

  /** The i-th of these entries can be appended to the ones before it. */
  ghost predicate FitsAt(s: seq<Entry>, i: nat)
    requires i < |s|
  {
    Fits(s[..i], s[i])
  }

  ghost predicate FitFrom(s: seq<Entry>, n: nat) {
    forall i | n <= i < |s| :: FitsAt(s, i)
  }

  lemma AppendIsAdmissibleIff(s: seq<Entry>, more: seq<Entry>, i: nat)
    requires i < |more|
    ensures Admissible(Run(s, Appends(more)[..i]), Appends(more)[i]) <==> FitsAt(s + more, |s| + i)
  {
    assert Appends(more)[..i] == Appends(more[..i]);
    RunOfAppends(s, more[..i]);
    assert s + more[..i] == (s + more)[..|s| + i];
    assert (s + more)[|s| + i] == more[i];
  }

  lemma AppendsAreAdmissibleIff(s: seq<Entry>, more: seq<Entry>)
    ensures AllAdmissible(s, Appends(more)) <==> FitFrom(s + more, |s|)
  {
    forall i: nat | i < |more|
      ensures Admissible(Run(s, Appends(more)[..i]), Appends(more)[i]) <==> FitsAt(s + more, |s| + i)
    {
      AppendIsAdmissibleIff(s, more, i);
    }
    if AllAdmissible(s, Appends(more)) {
      forall i | |s| <= i < |s + more| ensures FitsAt(s + more, i) {
        assert Admissible(Run(s, Appends(more)[..i - |s|]), Appends(more)[i - |s|]);
      }
    }
  }

  lemma AdmissibleParts(s: seq<Entry>, a: seq<Op>, b: seq<Op>)
    requires AllAdmissible(s, a + b)
    ensures AllAdmissible(s, a) && AllAdmissible(Run(s, a), b)
  {
    forall i | 0 <= i < |a| ensures Admissible(Run(s, a[..i]), a[i]) {
      assert (a + b)[..i] == a[..i];
      assert Admissible(Run(s, (a + b)[..i]), (a + b)[i]);
    }
    forall i | 0 <= i < |b| ensures Admissible(Run(Run(s, a), b[..i]), b[i]) {
      assert (a + b)[..|a| + i] == a + b[..i];
      RunOfConcat(s, a, b[..i]);
      assert Admissible(Run(s, (a + b)[..|a| + i]), (a + b)[|a| + i]);
    }
  }

  lemma GoodNext(front: seq<Entry>, e: Entry, next: seq<Entry>)
    requires Good(front) && Fits(front, e) && next == front + [e]
    ensures Good(next)
  {
    GoodSnoc(front, e);
  }

  lemma FitAt(s: seq<Entry>, i: nat)
    requires FitFrom(s, 0) && i < |s|
    ensures Fits(s[..i], s[i])
  {
    assert FitsAt(s, i);
  }

  lemma {:induction false} FitMeansOrdered(s: seq<Entry>, n: nat)
    requires n <= |s| && FitFrom(s, 0)
    ensures Good(s[..n])
  {
    if n > 0 {
      FitMeansOrdered(s, n - 1);
      Seqs.PrefixSnoc(s, n - 1);
      FitAt(s, n - 1);
      GoodNext(s[..n - 1], s[n - 1], s[..n]);
    }
  }

  lemma FitAfterCut(a: seq<Entry>, k: nat, fork: seq<Entry>)
    requires k <= |a| && FitFrom(a, 0) && FitFrom(a[..k] + fork, k)
    ensures FitFrom(a[..k] + fork, 0)
  {
    forall i | 0 <= i < k ensures FitsAt(a[..k] + fork, i) {
      assert (a[..k] + fork)[..i] == a[..i];
      assert FitsAt(a, i);
    }
  }

  /** The operations of a fork: entries, a rollback, and other entries. */
  function ForkOps(a: seq<Entry>, fromBlock: nat, fork: seq<Entry>): seq<Op> {
    Appends(a) + [Rollback(fromBlock)] + Appends(fork)
  }

  /** What the two parts of a fork say. */
  lemma ForkParts(a: seq<Entry>, fromBlock: nat, fork: seq<Entry>)
    requires AllAdmissible([], ForkOps(a, fromBlock, fork))
    ensures AllAdmissible([], Appends(a)) && AllAdmissible(Keep(a, fromBlock), Appends(fork))
  {
    AdmissibleParts([], Appends(a) + [Rollback(fromBlock)], Appends(fork));
    AdmissibleParts([], Appends(a), [Rollback(fromBlock)]);
    RunOfAppends([], a);
    RunOfConcat([], Appends(a), [Rollback(fromBlock)]);
    assert [] + a == a;
    RunOfOne(a, Rollback(fromBlock));
  }

  lemma FitFromStartIff(s: seq<Entry>)
    ensures AllAdmissible([], Appends(s)) <==> FitFrom(s, 0)
  {
    var none: seq<Entry> := [];
    assert none + s == s;
    AppendsAreAdmissibleIff(none, s);
  }

  /** When the fork can be replayed, the surviving entries and the fork can be appended directly. */
  lemma DirectBuildIsAdmissible(a: seq<Entry>, fromBlock: nat, fork: seq<Entry>)
    requires AllAdmissible([], ForkOps(a, fromBlock, fork))
    ensures AllAdmissible([], Appends(Keep(a, fromBlock) + fork))
  {
    ForkParts(a, fromBlock, fork);
    FitFromStartIff(a);
    FitMeansOrdered(a, |a|);
    Seqs.Whole(a);
    var k := OrderedKeepsInFront(a, fromBlock);
    AppendsAreAdmissibleIff(a[..k], fork);
    FitAfterCut(a, k, fork);
    FitFromStartIff(a[..k] + fork);
  }

  /** Replaying the fork on one store and building the surviving entries and the fork on another:
      both hold the same leaves, and give the same root for every tree and the same proof, or none, for
      every leaf. */
  method ForkAgreesWithDirectBuild(h: Hasher, a: seq<Entry>, fromBlock: nat, fork: seq<Entry>, tree: nat, index: nat)
    returns (forked: MemoryStore, direct: MemoryStore, roots: (string, string),
             proofs: (Option<MerkleProof>, Option<MerkleProof>))
    requires AllAdmissible([], ForkOps(a, fromBlock, fork))
    ensures forked != direct && forked.leaves == direct.leaves == Laid(Keep(a, fromBlock) + fork)
    ensures roots.0 == roots.1 && proofs.0 == proofs.1
    ensures proofs.0.Some? <==> EntryAt(Keep(a, fromBlock) + fork, tree, index).Some?
  {
    forked := new MemoryStore();
    direct := new MemoryStore();
    DirectBuildIsAdmissible(a, fromBlock, fork);
    ForkEqualsDirectBuild(a, fromBlock, fork);
    Replay(forked, ForkOps(a, fromBlock, fork), []);
    Replay(direct, Appends(Keep(a, fromBlock) + fork), []);
    var forkedRoot := forked.Root(h, tree);
    var directRoot := direct.Root(h, tree);
    var forkedProof := forked.Proof(h, tree, index);
    var directProof := direct.Proof(h, tree, index);
    roots := (forkedRoot.value, directRoot.value);
    proofs := (forkedProof, directProof);
    if forkedProof.Some? {
      ProofIsUnique(h, LeavesOf(forked.leaves, tree), index, forkedProof.value, directProof.value);
    }
    LaidAt(Keep(a, fromBlock) + fork, tree, index);
  }
}
