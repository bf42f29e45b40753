/** Histories of chains, and the index of the commitments and nullifiers seen on one
    (UpsertV2CommitmentEvents, UpsertNullifiers and RollbackToBlock in
    pkg/utxotree/pebble_store.go). */
module EventIndex {
  import opened Wrappers
  import opened WalletLedger
  import opened WalletHistory
  import opened WalletStore
  import Seqs

  // ----- Histories

  /** All events of a chain. Commitments have their own places and nullifiers their own keys, and
      every note of the wallet is received and spent at most once. */
  ghost predicate SoundHistory(reader: Reader, h: Accumulated) {
    && Sound(ChunkOf(reader, h))
    && (forall c, d | c in h.commitments && d in h.commitments && c.tree == d.tree && c.position == d.position ::
        c == d)
    && (forall e, f | e in h.nullifiers && f in h.nullifiers && e.tree == f.tree
                      && reader.format(e.nullifier) == reader.format(f.nullifier) :: e == f)
  }

  /** Exactly the events of the blocks from `from` to `to`. */
  ghost predicate IsWindow(acc: Accumulated, h: Accumulated, from: nat, to: nat) {
    && (forall c :: c in acc.commitments <==> c in h.commitments && from <= c.blockNumber <= to)
    && (forall e :: e in acc.nullifiers <==> e in h.nullifiers && from <= e.blockNumber <= to)
  }

  ghost predicate SameBefore(g: Accumulated, h: Accumulated, b: nat) {
    && (forall c: Commitment | c.blockNumber < b :: c in g.commitments <==> c in h.commitments)
    && (forall e: NullifierEvent | e.blockNumber < b :: e in g.nullifiers <==> e in h.nullifiers)
  }

  lemma ReceiptsOfWindow(reader: Reader, acc: Accumulated, h: Accumulated, from: nat, to: nat)
    requires IsWindow(acc, h, from, to)
    ensures forall x :: x in ReceiptsOf(reader, acc.commitments)
                   <==> x in ReceiptsOf(reader, h.commitments) && from <= x.blockNumber <= to
  {
    ReceiptsAre(reader, acc.commitments);
    ReceiptsAre(reader, h.commitments);
  }

  lemma SpendsOfWindow(reader: Reader, acc: Accumulated, h: Accumulated, from: nat, to: nat)
    requires IsWindow(acc, h, from, to)
    ensures forall s :: s in SpendsOf(reader, acc.nullifiers)
                   <==> s in SpendsOf(reader, h.nullifiers) && from <= s.blockNumber <= to
  {
    SpendsAre(reader, acc.nullifiers);
    SpendsAre(reader, h.nullifiers);
  }

  lemma WindowIsPart(reader: Reader, acc: Accumulated, h: Accumulated, from: nat, to: nat)
    requires IsWindow(acc, h, from, to)
    ensures IsPartOf(ChunkOf(reader, acc), ChunkOf(reader, h), from)
    ensures Covers(ChunkOf(reader, acc), ChunkOf(reader, h), from, to)
    ensures forall x | x in ChunkOf(reader, acc).receipts :: x.blockNumber <= to
    ensures forall s | s in ChunkOf(reader, acc).spends :: s.blockNumber <= to
  {
    ReceiptsOfWindow(reader, acc, h, from, to);
    SpendsOfWindow(reader, acc, h, from, to);
  }

  lemma SameChunksBefore(reader: Reader, g: Accumulated, h: Accumulated, b: nat)
    requires SameBefore(g, h, b)
    ensures AgreeBelow(ChunkOf(reader, g), ChunkOf(reader, h), b)
  {
    ReceiptsAre(reader, g.commitments);
    ReceiptsAre(reader, h.commitments);
    SpendsAre(reader, g.nullifiers);
    SpendsAre(reader, h.nullifiers);
  }

  // ----- The index of commitments and nullifiers

  type CommitmentIndex = map<(nat, nat), Commitment>
  type NullifierIndex = map<(nat, string), NullifierEvent>

  const TREE_MAX_ITEMS := 65536

  /** Every entry is an event of the chain at its own key, and no earlier event is missing. */
  ghost predicate CommitmentsFollow(m: CommitmentIndex, h: Accumulated, next: nat) {
    && (forall k | k in m :: m[k] in h.commitments && k == (m[k].tree, m[k].position))
    && (forall c | c in h.commitments && c.blockNumber < next :: (c.tree, c.position) in m)
  }

  ghost predicate NullifiersFollow(m: NullifierIndex, reader: Reader, h: Accumulated, next: nat) {
    && (forall k | k in m :: m[k] in h.nullifiers && k.0 == m[k].tree && reader.format(m[k].nullifier) == Some(k.1))
    && (forall e | e in h.nullifiers && e.blockNumber < next && reader.format(e.nullifier).Some? ::
          (e.tree, reader.format(e.nullifier).value) in m)
  }

  /** A commitment becomes a leaf when its place is valid and its hash, once formatted, is a number. */
  predicate FitsTree(reader: Reader, c: Commitment) {
    var hash := reader.format(c.hash);
    c.position < TREE_MAX_ITEMS && hash.Some? && hash.value != "" && reader.isNumber(hash.value)
  }

  function Place(c: Commitment): (nat, nat) {
    (c.tree, c.position)
  }

  function SpendKey(reader: Reader, e: NullifierEvent): Option<(nat, string)> {
    var n := reader.format(e.nullifier);
    if n.None? then None else Some((e.tree, n.value))
  }

  function Entry<K, V>(m: map<K, V>, k: K): Option<V> {
    if k in m then Some(m[k]) else None
  }

  /** The index after these commitments; at one place the later one replaces the earlier. */
  function PutCommitments(m: CommitmentIndex, cs: seq<Commitment>): CommitmentIndex {
    if cs == [] then m
    else PutCommitments(m, cs[..|cs| - 1])[Place(cs[|cs| - 1]) := cs[|cs| - 1]]
  }

  function PutNullifiers(m: NullifierIndex, reader: Reader, es: seq<NullifierEvent>): NullifierIndex {
    if es == [] then m
    else
      var front, last := PutNullifiers(m, reader, es[..|es| - 1]), es[|es| - 1];
      if SpendKey(reader, last).None? then front else front[SpendKey(reader, last).value := last]
  }

  function LastAtPlace(cs: seq<Commitment>, place: (nat, nat)): (r: Option<Commitment>)
    ensures r.Some? ==> r.value in cs && Place(r.value) == place
    ensures r.None? ==> forall c | c in cs :: Place(c) != place
  {
    if cs == [] then None
    else if Place(cs[|cs| - 1]) == place then Some(cs[|cs| - 1])
    else LastAtPlace(cs[..|cs| - 1], place)
  }

  function LastOfKey(reader: Reader, es: seq<NullifierEvent>, key: (nat, string)): (r: Option<NullifierEvent>)
    ensures r.Some? ==> r.value in es && SpendKey(reader, r.value) == Some(key)
    ensures r.None? ==> forall e | e in es :: SpendKey(reader, e) != Some(key)
  {
    if es == [] then None
    else if SpendKey(reader, es[|es| - 1]) == Some(key) then Some(es[|es| - 1])
    else LastOfKey(reader, es[..|es| - 1], key)
  }

  /** At every place the index holds the last commitment listed for it, or what was there before. */
  lemma {:induction false} PutCommitmentsAt(m: CommitmentIndex, cs: seq<Commitment>, place: (nat, nat))
    ensures Entry(PutCommitments(m, cs), place) == Or(LastAtPlace(cs, place), Entry(m, place))
  {
    if cs != [] {
      PutCommitmentsAt(m, cs[..|cs| - 1], place);
    }
  }

  lemma {:induction false} PutNullifiersAt(m: NullifierIndex, reader: Reader, es: seq<NullifierEvent>,
                                           key: (nat, string))
    ensures Entry(PutNullifiers(m, reader, es), key) == Or(LastOfKey(reader, es, key), Entry(m, key))
  {
    if es != [] {
      PutNullifiersAt(m, reader, es[..|es| - 1], key);
    }
  }

  lemma PutCommitmentsNext(m: CommitmentIndex, cs: seq<Commitment>, i: nat)
    requires i < |cs|
    ensures PutCommitments(m, cs[..i + 1]) == PutCommitments(m, cs[..i])[Place(cs[i]) := cs[i]]
  {
    assert cs[..i + 1][..i] == cs[..i];
  }

  lemma PutNullifiersNext(m: NullifierIndex, reader: Reader, es: seq<NullifierEvent>, i: nat)
    requires i < |es| && SpendKey(reader, es[i]).Some?
    ensures PutNullifiers(m, reader, es[..i + 1])
         == PutNullifiers(m, reader, es[..i])[SpendKey(reader, es[i]).value := es[i]]
  {
    assert es[..i + 1][..i] == es[..i];
  }

  function CommitmentsBefore(m: CommitmentIndex, b: nat): CommitmentIndex {
    map k | k in m && m[k].blockNumber < b :: m[k]
  }

  function NullifiersBefore(m: NullifierIndex, b: nat): NullifierIndex {
    map k | k in m && m[k].blockNumber < b :: m[k]
  }

  class UtxoIndex {
    var commitments: CommitmentIndex
    var nullifiers: NullifierIndex

    constructor ()
      ensures commitments == map[] && nullifiers == map[]
    {
      commitments, nullifiers := map[], map[];
    }

    ghost predicate Follows(reader: Reader, h: Accumulated, next: nat)
      reads this
    {
      CommitmentsFollow(commitments, h, next) && NullifiersFollow(nullifiers, reader, h, next)
    }

    ghost predicate Settled(next: nat)
      reads this
    {
      (forall k | k in commitments :: commitments[k].blockNumber < next)
      && (forall k | k in nullifiers :: nullifiers[k].blockNumber < next)
    }

    /** All commitments or, when one does not fit into a tree, none. */
    method UpsertCommitments(reader: Reader, cs: seq<Commitment>) returns (ok: bool)
      modifies this
      ensures nullifiers == old(nullifiers)
      ensures ok <==> forall c | c in cs :: FitsTree(reader, c)
      ensures commitments == if ok then PutCommitments(old(commitments), cs) else old(commitments)
    {
      var batch := commitments;
      for i := 0 to |cs|
        invariant commitments == old(commitments) && nullifiers == old(nullifiers)
        invariant forall j | 0 <= j < i :: FitsTree(reader, cs[j])
        invariant batch == PutCommitments(old(commitments), cs[..i])
      {
        if !FitsTree(reader, cs[i]) {
          return false;
        }
        PutCommitmentsNext(old(commitments), cs, i);
        batch := batch[Place(cs[i]) := cs[i]];
      }
      Seqs.Whole(cs);
      commitments := batch;
      return true;
    }

    /** All nullifiers or, when one cannot be formatted, none. */
    method UpsertNullifiers(reader: Reader, es: seq<NullifierEvent>) returns (ok: bool)
      modifies this
      ensures commitments == old(commitments)
      ensures ok <==> forall e | e in es :: SpendKey(reader, e).Some?
      ensures nullifiers == if ok then PutNullifiers(old(nullifiers), reader, es) else old(nullifiers)
    {
      var batch := nullifiers;
      for i := 0 to |es|
        invariant commitments == old(commitments) && nullifiers == old(nullifiers)
        invariant forall j | 0 <= j < i :: SpendKey(reader, es[j]).Some?
        invariant batch == PutNullifiers(old(nullifiers), reader, es[..i])
      {
        var key := SpendKey(reader, es[i]);
        if key.None? {
          return false;
        }
        PutNullifiersNext(old(nullifiers), reader, es, i);
        batch := batch[key.value := es[i]];
      }
      Seqs.Whole(es);
      nullifiers := batch;
      return true;
    }

    /** Deletes what comes from this and later blocks. */
    method RollbackToBlock(fromBlock: nat)
      modifies this
      ensures commitments == CommitmentsBefore(old(commitments), fromBlock)
      ensures nullifiers == NullifiersBefore(old(nullifiers), fromBlock)
    {
      var todo := commitments.Keys;
      while todo != {}
        invariant todo <= old(commitments).Keys && nullifiers == old(nullifiers)
        invariant commitments == map k | k in old(commitments)
                                         && (k in todo || old(commitments)[k].blockNumber < fromBlock)
                                     :: old(commitments)[k]
        decreases todo
      {
        var k :| k in todo;
        todo := todo - {k};
        if commitments[k].blockNumber >= fromBlock {
          commitments := commitments - {k};
        }
      }
      var more := nullifiers.Keys;
      while more != {}
        invariant more <= old(nullifiers).Keys
        invariant commitments == CommitmentsBefore(old(commitments), fromBlock)
        invariant nullifiers == map k | k in old(nullifiers)
                                        && (k in more || old(nullifiers)[k].blockNumber < fromBlock)
                                    :: old(nullifiers)[k]
        decreases more
      {
        var k :| k in more;
        more := more - {k};
        if nullifiers[k].blockNumber >= fromBlock {
          nullifiers := nullifiers - {k};
        }
      }
    }
  }
}
