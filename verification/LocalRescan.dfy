/** Rebuilding the stored notes from the index, without the chain (RescanLocalUTXOTree and
    markLocalRescanNullifiersSpent in pkg/wallet/local_rescan.go, for one TXID version). */
module LocalRescan {
  import opened Wrappers
  import opened WalletLedger
  import opened WalletHistory
  import opened WalletStore
  import opened EventIndex
  import opened WalletContents
  import Seqs

  // ----- Listing the index

  method ListCommitments(m: CommitmentIndex) returns (cs: seq<Commitment>)
    ensures forall c :: c in cs <==> c in m.Values
  {
    cs := [];
    var todo := m.Keys;
    while todo != {}
      invariant todo <= m.Keys
      invariant forall c :: c in cs <==> exists k | k in m && k !in todo :: m[k] == c
      decreases todo
    {
      var k :| k in todo;
      todo := todo - {k};
      cs := cs + [m[k]];
    }
  }

  method ListNullifiers(m: NullifierIndex) returns (es: seq<NullifierEvent>)
    ensures forall e :: e in es <==> e in m.Values
  {
    es := [];
    var todo := m.Keys;
    while todo != {}
      invariant todo <= m.Keys
      invariant forall e :: e in es <==> exists k | k in m && k !in todo :: m[k] == e
      decreases todo
    {
      var k :| k in todo;
      todo := todo - {k};
      es := es + [m[k]];
    }
  }

  // ----- Marking

  /** The nullifiers of the stored notes can be brought into normal form. */
  ghost predicate AllFormat(txos: Txos, reader: Reader) {
    forall n | n in txos :: reader.format(txos[n].nullifier).Some?
  }

  /** The nullifiers of the stored notes, in normal form. */
  ghost function OwnedOf(txos: Txos, reader: Reader): set<string>
    requires AllFormat(txos, reader)
  {
    set n | n in txos :: reader.format(txos[n].nullifier).value
  }

  method Owned(txos: Txos, reader: Reader) returns (r: Option<set<string>>)
    ensures r.Some? <==> AllFormat(txos, reader)
    ensures r.Some? ==> r.value == OwnedOf(txos, reader)
  {
    var owned: set<string> := {};
    var todo := txos.Keys;
    while todo != {}
      invariant todo <= txos.Keys
      invariant forall n | n in txos && n !in todo :: reader.format(txos[n].nullifier).Some?
      invariant owned == set n | n in txos && n !in todo :: reader.format(txos[n].nullifier).value
      decreases todo
    {
      var n :| n in todo;
      todo := todo - {n};
      var formatted := reader.format(txos[n].nullifier);
      if formatted.None? {
        assert n in txos && reader.format(txos[n].nullifier).None?;
        return None;
      }
      owned := owned + {formatted.value};
    }
    return Some(owned);
  }

  /** The spends of these nullifiers. */
  function OwnSpends(owned: set<string>, spends: seq<Spend>): seq<Spend> {
    if spends == [] then []
    else
      var rest, last := OwnSpends(owned, spends[..|spends| - 1]), spends[|spends| - 1];
      if last.nullifier in owned then rest + [last] else rest
  }

  lemma OwnSpendsSnoc(owned: set<string>, spends: seq<Spend>, s: Spend)
    ensures OwnSpends(owned, spends + [s])
         == if s.nullifier in owned then OwnSpends(owned, spends) + [s] else OwnSpends(owned, spends)
  {
    assert (spends + [s])[..|spends|] == spends;
  }

  method MarkIfOwned(state: FileStateStore, s: Spend, owned: set<string>, ghost w: Txos, ghost seen: seq<Spend>)
    requires state.txos == MarkAll(w, OwnSpends(owned, seen))
    modifies state
    ensures state.txos == MarkAll(w, OwnSpends(owned, seen + [s]))
  {
    OwnSpendsSnoc(owned, seen, s);
    if s.nullifier in owned {
      MarkSnoc(w, OwnSpends(owned, seen), s);
      var known := state.MarkTXOSpentAtBlock(s);
    }
  }

  /** Only the spends whose nullifier is that of a stored note, in normal form, are marked. A stored nullifier
      without a normal form ends it before anything is marked, an event without one at that event. */
  method MarkOwnedSpent(state: FileStateStore, reader: Reader, es: seq<NullifierEvent>)
    returns (ok: bool)
    modifies state
    ensures ok <==> AllFormat(old(state.txos), reader) && forall e | e in es :: SpendOf(reader, e).Some?
    ensures !AllFormat(old(state.txos), reader) ==> state.txos == old(state.txos)
    ensures AllFormat(old(state.txos), reader) ==>
      exists n | 0 <= n <= |es| :: (ok ==> n == |es|) && state.txos == MarkedOwn(old(state.txos), reader, es, n)
  {
    var owned := Owned(state.txos, reader);
    if owned.None? {
      return false;
    }
    for i := 0 to |es|
      invariant forall k | 0 <= k < i :: SpendOf(reader, es[k]).Some?
      invariant AllFormat(old(state.txos), reader) && owned.value == OwnedOf(old(state.txos), reader)
      invariant state.txos == MarkedOwn(old(state.txos), reader, es, i)
    {
      var s := SpendOf(reader, es[i]);
      if s.None? {
        return false;
      }
      SpendsSnoc(reader, es, i);
      MarkIfOwned(state, s.value, owned.value, old(state.txos), SpendsOf(reader, es[..i]));
    }
    return true;
  }

  /** The notes once the owned spends among the first n events are marked. */
  ghost function MarkedOwn(txos: Txos, reader: Reader, es: seq<NullifierEvent>, n: nat): Txos
    requires AllFormat(txos, reader) && n <= |es|
  {
    MarkAll(txos, OwnSpends(OwnedOf(txos, reader), SpendsOf(reader, es[..n])))
  }

  /** Notes are stored under their nullifiers, which are in normal form. */
  ghost predicate InNormalForm(txos: Txos, reader: Reader) {
    forall n | n in txos :: txos[n].nullifier == n && reader.format(n) == Some(n)
  }

  lemma OwnKeys(txos: Txos, reader: Reader)
    requires InNormalForm(txos, reader)
    ensures AllFormat(txos, reader) && OwnedOf(txos, reader) == txos.Keys
  {
    forall n | n in txos ensures n in OwnedOf(txos, reader) {
      assert n == reader.format(txos[n].nullifier).value;
    }
  }

  /** Spends of notes that are not stored change nothing. */
  lemma {:induction false} OthersChangeNothing(txos: Txos, owned: set<string>, spends: seq<Spend>)
    requires txos.Keys <= owned
    ensures MarkAll(txos, OwnSpends(owned, spends)) == MarkAll(txos, spends)
  {
    if spends != [] {
      var front, last := spends[..|spends| - 1], spends[|spends| - 1];
      OthersChangeNothing(txos, owned, front);
      MarkAllKeys(txos, front);
      if last.nullifier in owned {
        MarkSnoc(txos, OwnSpends(owned, front), last);
      }
    }
  }

  /** In normal form, marking the owned spends is marking all of them. */
  lemma OwnMarksAll(txos: Txos, reader: Reader, es: seq<NullifierEvent>)
    requires InNormalForm(txos, reader)
    ensures AllFormat(txos, reader) && MarkedOwn(txos, reader, es, |es|) == MarkAll(txos, SpendsOf(reader, es))
  {
    OwnKeys(txos, reader);
    OthersChangeNothing(txos, OwnedOf(txos, reader), SpendsOf(reader, es));
    Seqs.Whole(es);
  }

  // ----- Rescanning

  lemma StoredIsNormal(txos: Txos, reader: Reader, h: Accumulated)
    requires reader.Valid() && ComesFrom(txos, ChunkOf(reader, h))
    ensures InNormalForm(txos, reader)
  {
    forall n | n in txos ensures txos[n].nullifier == n && reader.format(n) == Some(n) {
      ReceiptsAre(reader, h.commitments);
      var x :| x in ReceiptsOf(reader, h.commitments) && x.nullifier == txos[n].nullifier;
      var c :| c in h.commitments && ReceiptOf(reader, c) == Some(x);
      assert reader.decode(c).Received?;
    }
  }

  /** The listed events are events of the chain, and all those before block `next`. */
  lemma ListedChunk(reader: Reader, h: Accumulated, next: nat, m: CommitmentIndex, k: NullifierIndex,
                    cs: seq<Commitment>, es: seq<NullifierEvent>)
    requires CommitmentsFollow(m, h, next) && NullifiersFollow(k, reader, h, next) && SoundHistory(reader, h)
    requires (forall c :: c in cs <==> c in m.Values) && (forall e :: e in es <==> e in k.Values)
    ensures IsPartOf(ChunkOf(reader, Accumulated(cs, es)), ChunkOf(reader, h), 0)
    ensures next > 0 ==> Covers(ChunkOf(reader, Accumulated(cs, es)), ChunkOf(reader, h), 0, next - 1)
  {
    ListedReceipts(reader, h, next, m, cs);
    ListedSpends(reader, h, next, k, es);
  }

  lemma ListedReceipts(reader: Reader, h: Accumulated, next: nat, m: CommitmentIndex, cs: seq<Commitment>)
    requires CommitmentsFollow(m, h, next) && SoundHistory(reader, h)
    requires forall c :: c in cs <==> c in m.Values
    ensures forall x | x in ReceiptsOf(reader, cs) :: x in ReceiptsOf(reader, h.commitments)
    ensures forall x | x in ReceiptsOf(reader, h.commitments) && x.blockNumber < next :: x in ReceiptsOf(reader, cs)
  {
    ReceiptsAre(reader, cs);
    ReceiptsAre(reader, h.commitments);
    forall c | c in h.commitments && c.blockNumber < next ensures c in cs {
      assert m[(c.tree, c.position)] == c;
    }
  }

  lemma ListedSpends(reader: Reader, h: Accumulated, next: nat, k: NullifierIndex, es: seq<NullifierEvent>)
    requires NullifiersFollow(k, reader, h, next) && SoundHistory(reader, h)
    requires forall e :: e in es <==> e in k.Values
    ensures forall s | s in SpendsOf(reader, es) :: s in SpendsOf(reader, h.nullifiers)
    ensures forall s | s in SpendsOf(reader, h.nullifiers) && s.blockNumber < next :: s in SpendsOf(reader, es)
  {
    SpendsAre(reader, es);
    SpendsAre(reader, h.nullifiers);
    forall e | e in h.nullifiers && e.blockNumber < next && SpendOf(reader, e).Some? ensures e in es {
      assert k[(e.tree, reader.format(e.nullifier).value)] == e;
    }
  }

  /** Upserts every note found in the index and marks the spent ones, over whatever is stored. */
  method RescanLocalUTXOTree(state: FileStateStore, index: UtxoIndex, reader: Reader, ghost h: Accumulated,
                             ghost next: nat)
    returns (ok: bool)
    requires reader.Valid() && SoundHistory(reader, h) && index.Follows(reader, h, next)
    requires ComesFrom(state.txos, ChunkOf(reader, h))
    modifies state
    ensures ok <==> forall k | k in index.commitments :: !reader.decode(index.commitments[k]).Failed?
    ensures ok ==> Follows(state.txos, ChunkOf(reader, h), next)
    ensures ok ==> HoldsNotes(state.txos, reader, h) && HoldsAllBefore(state.txos, reader, h, next)
    ensures ok && old(Settled(state.txos, next)) && index.Settled(next) ==>
              state.txos == Import(map[], Below(ChunkOf(reader, h), next))
  {
    var cs := ListCommitments(index.commitments);
    var es := ListNullifiers(index.nullifiers);
    ListedChunk(reader, h, next, index.commitments, index.nullifiers, cs, es);
    AllListed(reader, index.commitments, cs);
    AllFormatted(reader, h, next, index.nullifiers, es);
    var decoded, imported, skipped, done := ImportCommitments(state, reader, cs);
    if !decoded {
      return false;
    }
    Seqs.Whole(ReceiptsOf(reader, cs));
    ListedChunk(reader, h, next, index.commitments, index.nullifiers, cs, es);
    PartialImportFollows(old(state.txos), ChunkOf(reader, h), 0, Chunk(ReceiptsOf(reader, cs), []));
    StoredIsNormal(state.txos, reader, h);
    OwnMarksAll(state.txos, reader, es);
    ok := MarkOwnedSpent(state, reader, es);
    if ok {
      RescanIsExact(old(state.txos), ChunkOf(reader, h), ChunkOf(reader, Accumulated(cs, es)), next);
      FollowingHolds(state.txos, reader, h, next);
      if index.Settled(next) {
        ListedBefore(reader, index.commitments, index.nullifiers, cs, es, next);
      }
    }
  }

  lemma AllListed(reader: Reader, m: CommitmentIndex, cs: seq<Commitment>)
    requires forall c :: c in cs <==> c in m.Values
    ensures (forall c | c in cs :: !reader.decode(c).Failed?) <==> (forall k | k in m :: !reader.decode(m[k]).Failed?)
  {
  }

  lemma AllFormatted(reader: Reader, h: Accumulated, next: nat, k: NullifierIndex, es: seq<NullifierEvent>)
    requires NullifiersFollow(k, reader, h, next) && forall e :: e in es <==> e in k.Values
    ensures forall e | e in es :: SpendOf(reader, e).Some?
  {
  }

  lemma ListedBefore(reader: Reader, m: CommitmentIndex, k: NullifierIndex, cs: seq<Commitment>,
                     es: seq<NullifierEvent>, next: nat)
    requires (forall c :: c in cs <==> c in m.Values) && (forall e :: e in es <==> e in k.Values)
    requires (forall p | p in m :: m[p].blockNumber < next) && (forall p | p in k :: k[p].blockNumber < next)
    ensures Listed(ChunkOf(reader, Accumulated(cs, es)), next)
  {
    ReceiptsAre(reader, cs);
    SpendsAre(reader, es);
  }

  ghost predicate Listed(c: Chunk, next: nat) {
    (forall x | x in c.receipts :: x.blockNumber < next) && (forall s | s in c.spends :: s.blockNumber < next)
  }

  /** Importing everything before block `next` over notes that come from the chain. */
  lemma RescanIsExact(w: Txos, h: Chunk, c: Chunk, next: nat)
    requires Sound(h) && ComesFrom(w, h) && IsPartOf(c, h, 0) && (next > 0 ==> Covers(c, h, 0, next - 1))
    ensures Follows(Import(w, c), h, next)
    ensures Settled(w, next) && Listed(c, next) ==> Import(w, c) == Import(map[], Below(h, next))
  {
    if next > 0 {
      FullImportFollows(w, h, 0, c, next - 1);
    } else {
      PartialImportFollows(w, h, 0, c);
    }
    if Settled(w, next) && Listed(c, next) {
      RescanSettles(w, c, next);
      SettledIsExact(Import(w, c), h, next);
    }
  }

  lemma RescanSettles(w: Txos, c: Chunk, next: nat)
    requires Settled(w, next) && Listed(c, next) && Unspent(c.receipts)
    ensures Settled(Import(w, c), next)
  {
    var v := Import(w, c);
    forall n | n in v ensures v[n].blockNumber < next && (v[n].spendBlock.Some? ==> v[n].spendBlock.value < next) {
      ImportAt(w, c, n);
    }
  }
}
