/** Commitments and nullifiers in the ordered-key store: what its upserts, lists and rollbacks do to
    these records is what EventIndex does to plain maps (UpsertV2CommitmentEvents, UpsertNullifiers,
    ListV2Commitments, ListNullifiers and RollbackToBlock in pkg/utxotree/pebble_store.go). */
module IndexRecords {
  import opened Wrappers
  import opened KeyOrder
  import opened PebbleStore
  import opened EventIndex
  import opened WalletStore
  import WalletLedger
  import SparseMerkle
  import MerkleProofs
  import LeafStore
  import Hex
  import Seqs

  // ----- What the records stand for

  /** Hashes are numbers as the store reads them, and normal forms are made of bytes. */
  ghost predicate ReadsHex(reader: Reader) {
    && (forall s :: reader.isNumber(s) <==> MerkleProofs.Read(s).Some?)
    && (forall s :: reader.format(s).Some? ==> AllBytes(Bytes(reader.format(s).value)))
  }

  ghost predicate HoldsCommitments(db: Database, m: CommitmentIndex) {
    CommitmentsAreListed(db, m) && CommitmentsAreKnown(db, m)
  }

  ghost predicate CommitmentsAreListed(db: Database, m: CommitmentIndex) {
    forall p | p in m :: V2Record(m[p]) in db.Values && p == Place(m[p])
  }

  ghost predicate CommitmentsAreKnown(db: Database, m: CommitmentIndex) {
    forall k | k in db && db[k].V2Record? :: Entry(m, Place(db[k].commitment)) == Some(db[k].commitment)
  }

  ghost predicate HoldsNullifiers(db: Database, m: NullifierIndex, reader: Reader) {
    SpendsAreListed(db, m, reader) && SpendsAreKnown(db, m)
  }

  ghost predicate SpendsAreListed(db: Database, m: NullifierIndex, reader: Reader) {
    forall p | p in m :: NullifierRecord(m[p], p.1) in db.Values && SpendKey(reader, m[p]) == Some(p)
  }

  ghost predicate SpendsAreKnown(db: Database, m: NullifierIndex) {
    forall k | k in db && db[k].NullifierRecord? :: Entry(m, (db[k].event.tree, db[k].formatted)) == Some(db[k].event)
  }

  /** Leaves, commitments and nullifiers of the store are those of the plain maps. */
  ghost predicate Holds(db: Database, stored: LeafStore.Stored, m: CommitmentIndex, n: NullifierIndex, reader: Reader) {
    ValidDatabase(db) && Represents(db, stored) && HoldsCommitments(db, m) && HoldsNullifiers(db, n, reader)
  }

  // ----- Setting one record

  /** A record replaces at most a record of its own namespace. */
  lemma SetRecord(db: Database, r: Record, k: Key)
    requires ValidDatabase(db) && ValidRecord(r) && k == KeyOf(r)
    ensures ValidDatabase(db[k := r])
    ensures k in db ==> SpaceOf(db[k]) == SpaceOf(r)
  {
    if k in db {
      KeyStartsWithSpace(db[k]);
      KeyStartsWithSpace(r);
      NamespacesAreDisjoint(SpaceOf(db[k]), SpaceOf(r), k);
    }
  }

  /** A record stays when one at another key, or of another kind, is set. */
  lemma StaysListed(db: Database, k: Key, r: Record, other: Record)
    requires other in db.Values && (k in db ==> db[k] != other)
    ensures other in db[k := r].Values
  {
    var x :| x in db && db[x] == other;
    assert db[k := r][x] == other;
  }

  lemma SetKeepsRepresented(db: Database, r: Record, k: Key, stored: LeafStore.Stored)
    requires Represents(db, stored) && !r.LeafRecord? && (k in db ==> !db[k].LeafRecord?)
    ensures Represents(db[k := r], stored)
  {
    var more := db[k := r];
    forall t, i | LeafStore.At(stored, t, i).Some? ensures LeafRecord(LeafStore.At(stored, t, i).value) in more.Values {
      StaysListed(db, k, r, LeafRecord(LeafStore.At(stored, t, i).value));
    }
    forall x | x in more && more[x].LeafRecord?
      ensures LeafStore.At(stored, more[x].leaf.tree, more[x].leaf.index) == Some(more[x].leaf)
    {
      assert x in db && db[x] == more[x];
    }
  }

  lemma SetKeepsCommitments(db: Database, r: Record, k: Key, m: CommitmentIndex)
    requires HoldsCommitments(db, m) && !r.V2Record? && (k in db ==> !db[k].V2Record?)
    ensures HoldsCommitments(db[k := r], m)
  {
    forall p | p in m ensures V2Record(m[p]) in db[k := r].Values {
      StaysListed(db, k, r, V2Record(m[p]));
    }
  }

  lemma SetKeepsNullifiers(db: Database, r: Record, k: Key, n: NullifierIndex, reader: Reader)
    requires HoldsNullifiers(db, n, reader) && !r.NullifierRecord? && (k in db ==> !db[k].NullifierRecord?)
    ensures HoldsNullifiers(db[k := r], n, reader)
  {
    forall p | p in n ensures NullifierRecord(n[p], p.1) in db[k := r].Values {
      StaysListed(db, k, r, NullifierRecord(n[p], p.1));
    }
  }

  /** Two commitments have the same key exactly when they have the same place. */
  lemma SamePlaceIff(c: Commitment, d: Commitment)
    requires ValidRecord(V2Record(c)) && ValidRecord(V2Record(d))
    ensures KeyOf(V2Record(c)) == KeyOf(V2Record(d)) <==> Place(c) == Place(d)
  {
    if KeyOf(V2Record(c)) == KeyOf(V2Record(d)) {
      PlacesDiffer(V2Commitments, c.tree, c.position, d.tree, d.position);
    }
  }

  lemma SetCommitment(db: Database, c: Commitment, k: Key, m: CommitmentIndex)
    requires ValidDatabase(db) && HoldsCommitments(db, m) && ValidRecord(V2Record(c)) && k == KeyOf(V2Record(c))
    requires k in db ==> db[k].V2Record?
    ensures HoldsCommitments(db[k := V2Record(c)], m[Place(c) := c])
  {
    SetIsListed(db, c, k, m, Place(c));
    SetIsKnown(db, c, k, m, Place(c));
  }

  lemma SetIsListed(db: Database, c: Commitment, k: Key, m: CommitmentIndex, place: (nat, nat))
    requires ValidDatabase(db) && CommitmentsAreListed(db, m) && ValidRecord(V2Record(c)) && k == KeyOf(V2Record(c))
    requires place == Place(c)
    ensures CommitmentsAreListed(db[k := V2Record(c)], m[place := c])
  {
    assert db[k := V2Record(c)][k] == V2Record(c);
    forall p | p in m && p != place ensures V2Record(m[p]) in db[k := V2Record(c)].Values {
      OtherPlaceStays(db, c, k, m[p]);
    }
  }

  lemma SetIsKnown(db: Database, c: Commitment, k: Key, m: CommitmentIndex, place: (nat, nat))
    requires ValidDatabase(db) && CommitmentsAreKnown(db, m) && ValidRecord(V2Record(c)) && k == KeyOf(V2Record(c))
    requires place == Place(c)
    ensures CommitmentsAreKnown(db[k := V2Record(c)], m[place := c])
  {
    forall x | x in db && x != k && db[x].V2Record? ensures Place(db[x].commitment) != place {
      OtherKeyOtherPlace(db, c, k, x);
    }
  }

  lemma OtherPlaceStays(db: Database, c: Commitment, k: Key, d: Commitment)
    requires V2Record(d) in db.Values && Place(d) != Place(c) && ValidDatabase(db) && ValidRecord(V2Record(c))
    requires k == KeyOf(V2Record(c))
    ensures V2Record(d) in db[k := V2Record(c)].Values
  {
    if k in db && db[k] == V2Record(d) {
      SamePlaceIff(c, d);
    }
    StaysListed(db, k, V2Record(c), V2Record(d));
  }

  lemma OtherKeyOtherPlace(db: Database, c: Commitment, k: Key, x: Key)
    requires ValidDatabase(db) && ValidRecord(V2Record(c)) && k == KeyOf(V2Record(c))
    requires x in db && x != k && db[x].V2Record?
    ensures Place(db[x].commitment) != Place(c)
  {
    SamePlaceIff(c, db[x].commitment);
  }

  function NullifierKey(p: (nat, string)): Key {
    TreePrefix(Nullifiers, p.0) + Bytes(p.1)
  }

  /** Tree and nullifier can be told from the key. */
  lemma NullifierKeysDiffer(p: (nat, string), q: (nat, string))
    requires p.0 < UINT64_LIMIT && q.0 < UINT64_LIMIT && NullifierKey(p) == NullifierKey(q)
    ensures p == q
  {
    TreeOfKey(Nullifiers, p.0, q.0, Bytes(q.1));
    Seqs.SameParts(TreePrefix(Nullifiers, p.0), Bytes(p.1), TreePrefix(Nullifiers, q.0), Bytes(q.1));
    BytesAreInjective(p.1, q.1);
  }

  lemma SameNullifierIff(e: NullifierEvent, s: string, f: NullifierEvent, t: string)
    requires ValidRecord(NullifierRecord(e, s)) && ValidRecord(NullifierRecord(f, t))
    ensures KeyOf(NullifierRecord(e, s)) == KeyOf(NullifierRecord(f, t)) <==> e.tree == f.tree && s == t
  {
    if KeyOf(NullifierRecord(e, s)) == KeyOf(NullifierRecord(f, t)) {
      NullifierKeysDiffer((e.tree, s), (f.tree, t));
    }
  }

  lemma SetNullifier(db: Database, e: NullifierEvent, p: (nat, string), k: Key, n: NullifierIndex, reader: Reader)
    requires ValidDatabase(db) && HoldsNullifiers(db, n, reader) && ValidRecord(NullifierRecord(e, p.1))
    requires k == KeyOf(NullifierRecord(e, p.1)) && (k in db ==> db[k].NullifierRecord?)
    requires SpendKey(reader, e) == Some(p)
    ensures HoldsNullifiers(db[k := NullifierRecord(e, p.1)], n[p := e], reader)
  {
    SetSpendIsListed(db, e, p, k, n, reader);
    SetSpendIsKnown(db, e, p, k, n);
  }

  lemma SetSpendIsListed(db: Database, e: NullifierEvent, p: (nat, string), k: Key, n: NullifierIndex, reader: Reader)
    requires ValidDatabase(db) && SpendsAreListed(db, n, reader) && ValidRecord(NullifierRecord(e, p.1))
    requires k == KeyOf(NullifierRecord(e, p.1)) && SpendKey(reader, e) == Some(p)
    ensures SpendsAreListed(db[k := NullifierRecord(e, p.1)], n[p := e], reader)
  {
    assert db[k := NullifierRecord(e, p.1)][k] == NullifierRecord(e, p.1);
    forall q | q in n && q != p ensures NullifierRecord(n[q], q.1) in db[k := NullifierRecord(e, p.1)].Values {
      OtherSpendStays(db, e, p, k, n[q], q);
    }
  }

  lemma SetSpendIsKnown(db: Database, e: NullifierEvent, p: (nat, string), k: Key, n: NullifierIndex)
    requires ValidDatabase(db) && SpendsAreKnown(db, n) && ValidRecord(NullifierRecord(e, p.1)) && e.tree == p.0
    requires k == KeyOf(NullifierRecord(e, p.1))
    ensures SpendsAreKnown(db[k := NullifierRecord(e, p.1)], n[p := e])
  {
    forall x | x in db && x != k && db[x].NullifierRecord? ensures (db[x].event.tree, db[x].formatted) != p {
      SameNullifierIff(e, p.1, db[x].event, db[x].formatted);
    }
  }

  lemma OtherSpendStays(db: Database, e: NullifierEvent, p: (nat, string), k: Key, f: NullifierEvent, q: (nat, string))
    requires ValidDatabase(db) && ValidRecord(NullifierRecord(e, p.1)) && k == KeyOf(NullifierRecord(e, p.1))
    requires NullifierRecord(f, q.1) in db.Values && e.tree == p.0 && f.tree == q.0 && p != q
    ensures NullifierRecord(f, q.1) in db[k := NullifierRecord(e, p.1)].Values
  {
    if k in db && db[k] == NullifierRecord(f, q.1) {
      SameNullifierIff(e, p.1, f, q.1);
    }
    StaysListed(db, k, NullifierRecord(e, p.1), NullifierRecord(f, q.1));
  }

  // ----- Upserting

  /** The leaf of a commitment. */
  function LeafOf(reader: Reader, c: Commitment): SparseMerkle.Leaf {
    var hash := reader.format(c.hash);
    SparseMerkle.Leaf(c.tree, c.position, if hash.Some? then hash.value else "", c.txid, c.blockNumber)
  }

  function LeavesFrom(reader: Reader, cs: seq<Commitment>): seq<SparseMerkle.Leaf> {
    if cs == [] then [] else LeavesFrom(reader, cs[..|cs| - 1]) + [LeafOf(reader, cs[|cs| - 1])]
  }

  lemma LeavesNext(reader: Reader, cs: seq<Commitment>, i: nat, stored: LeafStore.Stored)
    requires i < |cs|
    ensures LeafStore.PutAll(stored, LeavesFrom(reader, cs[..i + 1]))
         == LeafStore.Put(LeafStore.PutAll(stored, LeavesFrom(reader, cs[..i])), LeafOf(reader, cs[i]))
  {
    assert cs[..i + 1][..i] == cs[..i];
    var front, last := LeavesFrom(reader, cs[..i]), LeafOf(reader, cs[i]);
    assert (front + [last])[..|front|] == front;
  }

  /** A commitment fits into a tree exactly when its leaf is valid. */
  lemma FitsIffValid(reader: Reader, c: Commitment)
    requires ReadsHex(reader)
    ensures FitsTree(reader, c) <==> reader.format(c.hash).Some? && SparseMerkle.ValidLeaf(LeafOf(reader, c))
  {
  }

  /** The store after a batch of writes. */
  function Committed(db: Database, batch: seq<Record>): Database {
    if batch == [] then db
    else
      var last := batch[|batch| - 1];
      Committed(db, batch[..|batch| - 1])[KeyOf(last) := last]
  }

  lemma CommittedNext(db: Database, batch: seq<Record>, i: nat)
    requires i < |batch|
    ensures Committed(db, batch[..i + 1]) == Committed(db, batch[..i])[KeyOf(batch[i]) := batch[i]]
  {
    assert batch[..i + 1][..i] == batch[..i];
  }

  lemma CommittedOne(db: Database, batch: seq<Record>, r: Record, k: Key)
    requires k == KeyOf(r)
    ensures Committed(db, batch + [r]) == Committed(db, batch)[k := r]
  {
    assert (batch + [r])[..|batch|] == batch;
  }

  method Commit(store: Store, batch: seq<Record>)
    modifies store
    ensures store.db == Committed(old(store.db), batch)
  {
    for i := 0 to |batch|
      invariant store.db == Committed(old(store.db), batch[..i])
    {
      CommittedNext(old(store.db), batch, i);
      store.db := store.db[KeyOf(batch[i]) := batch[i]];
    }
    Seqs.Whole(batch);
  }

  lemma LeafHolds(db: Database, reader: Reader, l: SparseMerkle.Leaf,
                  stored: LeafStore.Stored, m: CommitmentIndex, n: NullifierIndex)
    requires Holds(db, stored, m, n, reader) && SparseMerkle.ValidLeaf(l) && l.tree < UINT64_LIMIT
    ensures Holds(db[KeyOf(LeafRecord(l)) := LeafRecord(l)], LeafStore.Put(stored, l), m, n, reader)
  {
    var k := KeyOf(LeafRecord(l));
    SetLeaf(db, k, l, stored);
    SetRecord(db, LeafRecord(l), k);
    SetKeepsCommitments(db, LeafRecord(l), k, m);
    SetKeepsNullifiers(db, LeafRecord(l), k, n, reader);
  }

  lemma CommitmentHolds(db: Database, reader: Reader, c: Commitment,
                        stored: LeafStore.Stored, m: CommitmentIndex, n: NullifierIndex)
    requires Holds(db, stored, m, n, reader) && ValidRecord(V2Record(c))
    ensures Holds(db[KeyOf(V2Record(c)) := V2Record(c)], stored, m[Place(c) := c], n, reader)
  {
    var k := KeyOf(V2Record(c));
    SetRecord(db, V2Record(c), k);
    SetKeepsRepresented(db, V2Record(c), k, stored);
    SetCommitment(db, c, k, m);
    SetKeepsNullifiers(db, V2Record(c), k, n, reader);
  }

  /** Leaf and commitment are written together. */
  lemma BothHold(db: Database, batch: seq<Record>, reader: Reader, c: Commitment, l: SparseMerkle.Leaf,
                 stored: LeafStore.Stored, m: CommitmentIndex, n: NullifierIndex)
    requires Holds(Committed(db, batch), stored, m, n, reader) && ReadsHex(reader)
    requires FitsTree(reader, c) && c.tree < UINT64_LIMIT && l == LeafOf(reader, c)
    ensures Holds(Committed(db, batch + [LeafRecord(l)] + [V2Record(c)]),
                  LeafStore.Put(stored, l), m[Place(c) := c], n, reader)
  {
    FitsIffValid(reader, c);
    LeafHolds(Committed(db, batch), reader, l, stored, m, n);
    CommittedOne(db, batch, LeafRecord(l), KeyOf(LeafRecord(l)));
    CommitmentHolds(Committed(db, batch + [LeafRecord(l)]), reader, c, LeafStore.Put(stored, l), m, n);
    CommittedOne(db, batch + [LeafRecord(l)], V2Record(c), KeyOf(V2Record(c)));
  }

  function CommitmentBatch(reader: Reader, cs: seq<Commitment>): seq<Record> {
    if cs == [] then []
    else
      var last := cs[|cs| - 1];
      CommitmentBatch(reader, cs[..|cs| - 1]) + [LeafRecord(LeafOf(reader, last))] + [V2Record(last)]
  }

  ghost predicate AllFit(reader: Reader, cs: seq<Commitment>) {
    forall i | 0 <= i < |cs| :: FitsTree(reader, cs[i]) && cs[i].tree < UINT64_LIMIT
  }

  lemma CommitmentBatchNext(reader: Reader, cs: seq<Commitment>, i: nat)
    requires i < |cs|
    ensures CommitmentBatch(reader, cs[..i + 1])
         == CommitmentBatch(reader, cs[..i]) + [LeafRecord(LeafOf(reader, cs[i]))] + [V2Record(cs[i])]
  {
    assert cs[..i + 1][..i] == cs[..i];
  }

  /** The records after the first i commitments are those of the plain maps after them. */
  ghost predicate HoldAfter(db: Database, reader: Reader, cs: seq<Commitment>, i: nat,
                            stored: LeafStore.Stored, m: CommitmentIndex, n: NullifierIndex)
    requires i <= |cs|
  {
    Holds(Committed(db, CommitmentBatch(reader, cs[..i])), LeafStore.PutAll(stored, LeavesFrom(reader, cs[..i])),
          PutCommitments(m, cs[..i]), n, reader)
  }

  lemma HoldNext(db: Database, reader: Reader, cs: seq<Commitment>, i: nat,
                 stored: LeafStore.Stored, m: CommitmentIndex, n: NullifierIndex)
    requires i < |cs| && ReadsHex(reader) && AllFit(reader, cs) && HoldAfter(db, reader, cs, i, stored, m, n)
    ensures HoldAfter(db, reader, cs, i + 1, stored, m, n)
  {
    LeavesNext(reader, cs, i, stored);
    PutCommitmentsNext(m, cs, i);
    CommitmentBatchNext(reader, cs, i);
    BothHold(db, CommitmentBatch(reader, cs[..i]), reader, cs[i], LeafOf(reader, cs[i]),
             LeafStore.PutAll(stored, LeavesFrom(reader, cs[..i])), PutCommitments(m, cs[..i]), n);
  }

  lemma HoldFirst(db: Database, reader: Reader, cs: seq<Commitment>,
                  stored: LeafStore.Stored, m: CommitmentIndex, n: NullifierIndex)
    requires Holds(db, stored, m, n, reader)
    ensures HoldAfter(db, reader, cs, 0, stored, m, n)
  {
    var none: seq<Commitment> := [];
    assert cs[..0] == none;
  }

  lemma CommitmentsHold(db: Database, reader: Reader, cs: seq<Commitment>,
                        stored: LeafStore.Stored, m: CommitmentIndex, n: NullifierIndex)
    requires HoldAfter(db, reader, cs, 0, stored, m, n) && ReadsHex(reader) && AllFit(reader, cs)
    ensures HoldAfter(db, reader, cs, |cs|, stored, m, n)
  {
    for i := 0 to |cs|
      invariant HoldAfter(db, reader, cs, i, stored, m, n)
    {
      HoldNext(db, reader, cs, i, stored, m, n);
    }
  }

  method BatchOfCommitments(reader: Reader, cs: seq<Commitment>) returns (batch: Option<seq<Record>>)
    ensures batch == if AllFitTree(reader, cs) then Some(CommitmentBatch(reader, cs)) else None
  {
    var all: seq<Record> := [];
    for i := 0 to |cs|
      invariant forall j | 0 <= j < i :: FitsTree(reader, cs[j])
      invariant all == CommitmentBatch(reader, cs[..i])
    {
      if !FitsTree(reader, cs[i]) {
        return None;
      }
      CommitmentBatchNext(reader, cs, i);
      all := all + [LeafRecord(LeafOf(reader, cs[i]))];
      all := all + [V2Record(cs[i])];
    }
    Seqs.Whole(cs);
    return Some(all);
  }

  predicate AllFitTree(reader: Reader, cs: seq<Commitment>) {
    forall c | c in cs :: FitsTree(reader, c)
  }

  /** All commitments with their leaves or, when one does not fit, nothing: the outcome and the new index
      are those of UtxoIndex.UpsertCommitments. */
  method UpsertV2Commitments(store: Store, reader: Reader, cs: seq<Commitment>,
                             ghost stored: LeafStore.Stored, ghost m: CommitmentIndex, ghost n: NullifierIndex)
    returns (ok: bool)
    requires Holds(store.db, stored, m, n, reader) && ReadsHex(reader) && forall c | c in cs :: c.tree < UINT64_LIMIT
    modifies store
    ensures ok <==> AllFitTree(reader, cs)
    ensures !ok ==> store.db == old(store.db)
    ensures ok ==> Holds(store.db, LeafStore.PutAll(stored, LeavesFrom(reader, cs)), PutCommitments(m, cs), n, reader)
    ensures ok && LeavesMatch(stored, m, reader) ==>
              LeavesMatch(LeafStore.PutAll(stored, LeavesFrom(reader, cs)), PutCommitments(m, cs), reader)
  {
    if LeavesMatch(stored, m, reader) && AllFitTree(reader, cs) {
      UpsertMatches(stored, m, reader, cs);
    }
    var batch := BatchOfCommitments(reader, cs);
    if batch.None? {
      return false;
    }
    HoldFirst(store.db, reader, cs, stored, m, n);
    CommitmentsHold(store.db, reader, cs, stored, m, n);
    Seqs.Whole(cs);
    Commit(store, batch.value);
    return true;
  }

  lemma SetNullifierHolds(db: Database, reader: Reader, e: NullifierEvent, p: (nat, string), k: Key,
                          stored: LeafStore.Stored, m: CommitmentIndex, n: NullifierIndex)
    requires Holds(db, stored, m, n, reader) && ReadsHex(reader)
    requires SpendKey(reader, e) == Some(p) && e.tree < UINT64_LIMIT
    requires k == KeyOf(NullifierRecord(e, p.1))
    ensures Holds(db[k := NullifierRecord(e, p.1)], stored, m, n[p := e], reader)
  {
    var r := NullifierRecord(e, p.1);
    SetRecord(db, r, k);
    SetKeepsRepresented(db, r, k, stored);
    SetKeepsCommitments(db, r, k, m);
    SetNullifier(db, e, p, k, n, reader);
  }

  lemma NullifierHolds(db: Database, batch: seq<Record>, reader: Reader, e: NullifierEvent, p: (nat, string),
                       stored: LeafStore.Stored, m: CommitmentIndex, n: NullifierIndex)
    requires Holds(Committed(db, batch), stored, m, n, reader) && ReadsHex(reader)
    requires SpendKey(reader, e) == Some(p) && e.tree < UINT64_LIMIT
    ensures Holds(Committed(db, batch + [NullifierRecord(e, p.1)]), stored, m, n[p := e], reader)
  {
    var r := NullifierRecord(e, p.1);
    SetNullifierHolds(Committed(db, batch), reader, e, p, KeyOf(r), stored, m, n);
    CommittedOne(db, batch, r, KeyOf(r));
  }

  function NullifierBatch(reader: Reader, es: seq<NullifierEvent>): seq<Record> {
    if es == [] then []
    else
      var front, p := NullifierBatch(reader, es[..|es| - 1]), SpendKey(reader, es[|es| - 1]);
      if p.None? then front else front + [NullifierRecord(es[|es| - 1], p.value.1)]
  }

  lemma NullifierBatchNext(reader: Reader, es: seq<NullifierEvent>, i: nat)
    requires i < |es| && SpendKey(reader, es[i]).Some?
    ensures NullifierBatch(reader, es[..i + 1])
         == NullifierBatch(reader, es[..i]) + [NullifierRecord(es[i], SpendKey(reader, es[i]).value.1)]
  {
    assert es[..i + 1][..i] == es[..i];
  }

  ghost predicate AllHaveKeys(reader: Reader, es: seq<NullifierEvent>) {
    forall i | 0 <= i < |es| :: SpendKey(reader, es[i]).Some? && es[i].tree < UINT64_LIMIT
  }

  /** The records after the first i nullifiers are those of the plain map after them. */
  ghost predicate SpendsHoldAfter(db: Database, reader: Reader, es: seq<NullifierEvent>, i: nat,
                                  stored: LeafStore.Stored, m: CommitmentIndex, n: NullifierIndex)
    requires i <= |es|
  {
    Holds(Committed(db, NullifierBatch(reader, es[..i])), stored, m, PutNullifiers(n, reader, es[..i]), reader)
  }

  lemma SpendsHoldNext(db: Database, reader: Reader, es: seq<NullifierEvent>, i: nat,
                       stored: LeafStore.Stored, m: CommitmentIndex, n: NullifierIndex)
    requires i < |es| && ReadsHex(reader) && AllHaveKeys(reader, es) && SpendsHoldAfter(db, reader, es, i, stored, m, n)
    ensures SpendsHoldAfter(db, reader, es, i + 1, stored, m, n)
  {
    PutNullifiersNext(n, reader, es, i);
    NullifierBatchNext(reader, es, i);
    NullifierHolds(db, NullifierBatch(reader, es[..i]), reader, es[i], SpendKey(reader, es[i]).value,
                   stored, m, PutNullifiers(n, reader, es[..i]));
  }

  lemma NullifiersHold(db: Database, reader: Reader, es: seq<NullifierEvent>,
                       stored: LeafStore.Stored, m: CommitmentIndex, n: NullifierIndex)
    requires Holds(db, stored, m, n, reader) && ReadsHex(reader) && AllHaveKeys(reader, es)
    ensures SpendsHoldAfter(db, reader, es, |es|, stored, m, n)
  {
    var none: seq<NullifierEvent> := [];
    assert es[..0] == none;
    for i := 0 to |es|
      invariant SpendsHoldAfter(db, reader, es, i, stored, m, n)
    {
      SpendsHoldNext(db, reader, es, i, stored, m, n);
    }
  }

  predicate AllFormatted(reader: Reader, es: seq<NullifierEvent>) {
    forall e | e in es :: SpendKey(reader, e).Some?
  }

  method BatchOfNullifiers(reader: Reader, es: seq<NullifierEvent>) returns (batch: Option<seq<Record>>)
    ensures batch == if AllFormatted(reader, es) then Some(NullifierBatch(reader, es)) else None
  {
    var all: seq<Record> := [];
    for i := 0 to |es|
      invariant forall j | 0 <= j < i :: SpendKey(reader, es[j]).Some?
      invariant all == NullifierBatch(reader, es[..i])
    {
      var p := SpendKey(reader, es[i]);
      if p.None? {
        return None;
      }
      NullifierBatchNext(reader, es, i);
      all := all + [NullifierRecord(es[i], p.value.1)];
    }
    Seqs.Whole(es);
    return Some(all);
  }

  /** All nullifiers or none; the outcome and the new index are those of UtxoIndex.UpsertNullifiers. */
  method UpsertNullifiers(store: Store, reader: Reader, es: seq<NullifierEvent>,
                          ghost stored: LeafStore.Stored, ghost m: CommitmentIndex, ghost n: NullifierIndex)
    returns (ok: bool)
    requires Holds(store.db, stored, m, n, reader) && ReadsHex(reader) && forall e | e in es :: e.tree < UINT64_LIMIT
    modifies store
    ensures ok <==> AllFormatted(reader, es)
    ensures !ok ==> store.db == old(store.db)
    ensures ok ==> Holds(store.db, stored, m, PutNullifiers(n, reader, es), reader)
  {
    var batch := BatchOfNullifiers(reader, es);
    if batch.None? {
      return false;
    }
    NullifiersHold(store.db, reader, es, stored, m, n);
    Seqs.Whole(es);
    Commit(store, batch.value);
    return true;
  }

  // ----- Listing and rolling back

  function CommitmentsIn(db: Database): set<Commitment> {
    set k | k in db && db[k].V2Record? :: db[k].commitment
  }

  function NullifiersIn(db: Database): set<NullifierEvent> {
    EventsAt(db, db.Keys)
  }

  function EventsAt(db: Database, keys: set<Key>): set<NullifierEvent> {
    set k | k in keys && k in db && db[k].NullifierRecord? :: db[k].event
  }

  lemma EventsOfSpace(db: Database, keys: set<Key>)
    requires keys == set k | k in db && SpaceOf(db[k]) == Nullifiers
    ensures EventsAt(db, keys) == NullifiersIn(db)
  {
    forall k | k in db && db[k].NullifierRecord? ensures k in keys {
      assert SpaceOf(db[k]) == Nullifiers;
    }
  }

  /** Listing gives the entries of the plain maps. */
  lemma ListsAre(db: Database, m: CommitmentIndex, n: NullifierIndex, reader: Reader)
    requires HoldsCommitments(db, m) && HoldsNullifiers(db, n, reader)
    ensures CommitmentsIn(db) == m.Values && NullifiersIn(db) == n.Values
  {
    CommitmentsInAre(db, m);
    NullifiersInAre(db, n, reader);
  }

  lemma CommitmentsInAre(db: Database, m: CommitmentIndex)
    requires HoldsCommitments(db, m)
    ensures CommitmentsIn(db) == m.Values
  {
    forall c | c in m.Values ensures c in CommitmentsIn(db) {
      var k :| k in db && db[k] == V2Record(c);
    }
    forall k | k in db && db[k].V2Record? ensures db[k].commitment in m.Values {
      assert Entry(m, Place(db[k].commitment)) == Some(db[k].commitment);
    }
  }

  lemma NullifiersInAre(db: Database, n: NullifierIndex, reader: Reader)
    requires HoldsNullifiers(db, n, reader)
    ensures NullifiersIn(db) == n.Values
  {
    forall e | e in n.Values ensures e in NullifiersIn(db) {
      var p :| p in n && n[p] == e;
      var k :| k in db && db[k] == NullifierRecord(e, p.1);
    }
    forall k | k in db && db[k].NullifierRecord? ensures db[k].event in n.Values {
      assert Entry(n, (db[k].event.tree, db[k].formatted)) == Some(db[k].event);
    }
  }

  /** The records under the prefix of the commitments. */
  method ListV2Commitments(db: Database) returns (cs: set<Commitment>)
    requires ValidDatabase(db)
    ensures cs == CommitmentsIn(db)
  {
    var keys := KeysOfSpace(db, V2Commitments);
    cs := set k | k in keys && db[k].V2Record? :: db[k].commitment;
  }

  method ListNullifiers(db: Database) returns (es: set<NullifierEvent>)
    requires ValidDatabase(db)
    ensures es == NullifiersIn(db)
  {
    var keys := KeysOfSpace(db, Nullifiers);
    EventsOfSpace(db, keys);
    es := EventsAt(db, keys);
  }

  function Earlier(db: Database, b: nat): Database {
    map k | k in db && BlockOf(db[k]) < b :: db[k]
  }

  lemma StaysEarlier(db: Database, b: nat, r: Record)
    requires r in db.Values && BlockOf(r) < b
    ensures r in Earlier(db, b).Values
  {
    var k :| k in db && db[k] == r;
    assert Earlier(db, b)[k] == r;
  }

  lemma CutHoldsCommitments(db: Database, m: CommitmentIndex, b: nat)
    requires HoldsCommitments(db, m)
    ensures HoldsCommitments(Earlier(db, b), CommitmentsBefore(m, b))
  {
    forall p | p in CommitmentsBefore(m, b) ensures V2Record(m[p]) in Earlier(db, b).Values {
      StaysEarlier(db, b, V2Record(m[p]));
    }
  }

  lemma CutHoldsNullifiers(db: Database, n: NullifierIndex, reader: Reader, b: nat)
    requires HoldsNullifiers(db, n, reader)
    ensures HoldsNullifiers(Earlier(db, b), NullifiersBefore(n, b), reader)
  {
    forall p | p in NullifiersBefore(n, b) ensures NullifierRecord(n[p], p.1) in Earlier(db, b).Values {
      StaysEarlier(db, b, NullifierRecord(n[p], p.1));
    }
  }

  /** A rollback of the store is a rollback of the leaves, the commitments and the nullifiers. */
  method RollbackToBlock(store: Store, b: nat, ghost reader: Reader,
                         ghost stored: LeafStore.Stored, ghost m: CommitmentIndex, ghost n: NullifierIndex)
    requires Holds(store.db, stored, m, n, reader)
    modifies store
    ensures Holds(store.db, LeafStore.Cut(stored, b), CommitmentsBefore(m, b), NullifiersBefore(n, b), reader)
    ensures LeavesMatch(stored, m, reader) ==> LeavesMatch(LeafStore.Cut(stored, b), CommitmentsBefore(m, b), reader)
  {
    if LeavesMatch(stored, m, reader) {
      CutMatches(stored, m, reader, b);
    }
    CutHoldsCommitments(store.db, m, b);
    CutHoldsNullifiers(store.db, n, reader, b);
    store.RollbackToBlock(b, stored);
  }

  // ----- Leaves and their commitments

  /** The leaf lies at the place of the commitment and has its block, its transaction and its formatted hash. */
  ghost predicate IsLeafOf(l: SparseMerkle.Leaf, c: Commitment, reader: Reader) {
    && l.tree == c.tree && l.index == c.position && l.blockNumber == c.blockNumber && l.txid == c.txid
    && reader.format(c.hash) == Some(l.hash)
  }

  /** Every indexed commitment has its leaf, and every leaf its commitment. */
  ghost predicate LeavesMatch(stored: LeafStore.Stored, m: CommitmentIndex, reader: Reader) {
    forall t: nat, i: nat ::
      && (LeafStore.At(stored, t, i).Some? <==> (t, i) in m)
      && ((t, i) in m ==> IsLeafOf(LeafStore.At(stored, t, i).value, m[(t, i)], reader))
  }

  lemma PutMatches(stored: LeafStore.Stored, m: CommitmentIndex, reader: Reader, c: Commitment)
    requires LeavesMatch(stored, m, reader) && reader.format(c.hash).Some?
    ensures LeavesMatch(LeafStore.Put(stored, LeafOf(reader, c)), m[Place(c) := c], reader)
  {
    var put, more := LeafStore.Put(stored, LeafOf(reader, c)), m[Place(c) := c];
    forall t: nat, i: nat
      ensures LeafStore.At(put, t, i).Some? <==> (t, i) in more
      ensures (t, i) in more ==> IsLeafOf(LeafStore.At(put, t, i).value, more[(t, i)], reader)
    {
      LeafStore.PutAt(stored, LeafOf(reader, c), t, i);
    }
  }

  lemma UpsertMatches(stored: LeafStore.Stored, m: CommitmentIndex, reader: Reader, cs: seq<Commitment>)
    requires LeavesMatch(stored, m, reader) && AllFitTree(reader, cs)
    ensures LeavesMatch(LeafStore.PutAll(stored, LeavesFrom(reader, cs)), PutCommitments(m, cs), reader)
  {
    for i := 0 to |cs|
      invariant LeavesMatch(LeafStore.PutAll(stored, LeavesFrom(reader, cs[..i])), PutCommitments(m, cs[..i]), reader)
    {
      LeavesNext(reader, cs, i, stored);
      PutCommitmentsNext(m, cs, i);
      assert FitsTree(reader, cs[i]);
      PutMatches(LeafStore.PutAll(stored, LeavesFrom(reader, cs[..i])), PutCommitments(m, cs[..i]), reader, cs[i]);
    }
    Seqs.Whole(cs);
  }

  lemma CutMatches(stored: LeafStore.Stored, m: CommitmentIndex, reader: Reader, b: nat)
    requires LeavesMatch(stored, m, reader)
    ensures LeavesMatch(LeafStore.Cut(stored, b), CommitmentsBefore(m, b), reader)
  {
    var cut, less := LeafStore.Cut(stored, b), CommitmentsBefore(m, b);
    forall t: nat, i: nat
      ensures LeafStore.At(cut, t, i).Some? <==> (t, i) in less
      ensures (t, i) in less ==> IsLeafOf(LeafStore.At(cut, t, i).value, less[(t, i)], reader)
    {
      LeafStore.CutAt(stored, b, t, i);
      assert LeafStore.At(stored, t, i).Some? <==> (t, i) in m;
    }
  }

  /** The indexed commitments determine the leaves. */
  lemma LeavesAreDetermined(a: LeafStore.Stored, b: LeafStore.Stored, m: CommitmentIndex, reader: Reader)
    requires LeafStore.WellPlaced(a) && LeafStore.WellPlaced(b)
    requires LeavesMatch(a, m, reader) && LeavesMatch(b, m, reader)
    ensures a == b
  {
    forall t: nat, i: nat ensures LeafStore.At(a, t, i) == LeafStore.At(b, t, i) {
      assert LeafStore.At(a, t, i).Some? <==> (t, i) in m;
      assert LeafStore.At(b, t, i).Some? <==> (t, i) in m;
    }
    LeafStore.SameLeaves(a, b);
  }

  // ----- A reorganisation

  /** The commitments of earlier blocks. */
  function Early(cs: seq<Commitment>, b: nat): (r: seq<Commitment>)
    ensures forall c :: c in r <==> c in cs && c.blockNumber < b
  {
    if cs == [] then []
    else
      var rest, last := Early(cs[..|cs| - 1], b), cs[|cs| - 1];
      if last.blockNumber < b then rest + [last] else rest
  }

  lemma {:induction false} LastOfConcat(a: seq<Commitment>, b: seq<Commitment>, place: (nat, nat))
    ensures LastAtPlace(a + b, place) == WalletLedger.Or(LastAtPlace(b, place), LastAtPlace(a, place))
  {
    if b == [] {
      assert a + b == a;
    } else {
      LastOfConcat(a, b[..|b| - 1], place);
      assert (a + b)[..|a + b| - 1] == a + b[..|b| - 1];
    }
  }

  /** A last commitment of an earlier block is also the last of the early ones. */
  lemma {:induction false} LastOfEarly(cs: seq<Commitment>, b: nat, place: (nat, nat))
    ensures var last := LastAtPlace(cs, place);
            (last.Some? && last.value.blockNumber < b ==> LastAtPlace(Early(cs, b), place) == last)
            && (last.None? ==> LastAtPlace(Early(cs, b), place).None?)
  {
    if cs != [] {
      LastOfEarly(cs[..|cs| - 1], b, place);
    }
  }

  /** No commitment of an earlier block is hidden by a later one at the same place, unless the fork has one there. */
  ghost predicate NothingIsHidden(a: seq<Commitment>, b: nat, fork: seq<Commitment>) {
    forall place: (nat, nat) ::
      var last := LastAtPlace(a, place);
      last.Some? && last.value.blockNumber >= b && LastAtPlace(fork, place).None? ==>
        LastAtPlace(Early(a, b), place).None?
  }

  function Forked(a: seq<Commitment>, b: nat, fork: seq<Commitment>): CommitmentIndex {
    PutCommitments(CommitmentsBefore(PutCommitments(map[], a), b), fork)
  }

  lemma ForkedAt(a: seq<Commitment>, b: nat, fork: seq<Commitment>, place: (nat, nat))
    ensures var last, forked := LastAtPlace(a, place), LastAtPlace(fork, place);
            Entry(Forked(a, b, fork), place)
            == WalletLedger.Or(forked, if last.Some? && last.value.blockNumber < b then last else None)
    ensures Entry(PutCommitments(map[], Early(a, b) + fork), place)
         == WalletLedger.Or(LastAtPlace(fork, place), LastAtPlace(Early(a, b), place))
  {
    PutCommitmentsAt(map[], a, place);
    PutCommitmentsAt(CommitmentsBefore(PutCommitments(map[], a), b), fork, place);
    PutCommitmentsAt(map[], Early(a, b) + fork, place);
    LastOfConcat(Early(a, b), fork, place);
  }

  /** Upserting, rolling back and upserting a fork gives the index of the early part and the fork exactly when no
      early commitment is hidden. */
  lemma ForkIff(a: seq<Commitment>, b: nat, fork: seq<Commitment>)
    ensures Forked(a, b, fork) == PutCommitments(map[], Early(a, b) + fork) <==> NothingIsHidden(a, b, fork)
  {
    var direct := PutCommitments(map[], Early(a, b) + fork);
    forall place: (nat, nat)
      ensures Entry(Forked(a, b, fork), place) == Entry(direct, place)
         <==> (var last := LastAtPlace(a, place);
               last.Some? && last.value.blockNumber >= b && LastAtPlace(fork, place).None? ==>
                 LastAtPlace(Early(a, b), place).None?)
    {
      ForkedAt(a, b, fork, place);
      LastOfEarly(a, b, place);
    }
    if NothingIsHidden(a, b, fork) {
      SameEntries(Forked(a, b, fork), direct);
    }
  }

  lemma SameEntries<K, V>(m: map<K, V>, n: map<K, V>)
    requires forall k :: Entry(m, k) == Entry(n, k)
    ensures m == n
  {
    forall k ensures (k in m <==> k in n) && (k in m ==> m[k] == n[k]) {
      assert Entry(m, k) == Entry(n, k);
    }
  }

  /** On a chain every commitment has its own place, so nothing is hidden. */
  lemma OwnPlacesHideNothing(a: seq<Commitment>, b: nat, fork: seq<Commitment>)
    requires forall c, d | c in a && d in a && Place(c) == Place(d) :: c == d
    ensures NothingIsHidden(a, b, fork)
  {
  }

  /** A store after a fork: commitments, a rollback, and other commitments. */
  method UpsertFork(reader: Reader, a: seq<Commitment>, b: nat, fork: seq<Commitment>)
    returns (store: Store, ghost stored: LeafStore.Stored)
    requires ReadsHex(reader) && AllFit(reader, a) && AllFit(reader, fork)
    ensures fresh(store) && Holds(store.db, stored, Forked(a, b, fork), map[], reader)
    ensures LeavesMatch(stored, Forked(a, b, fork), reader)
  {
    store := new Store();
    EarlyFit(reader, a, b, fork);
    var ok := UpsertV2Commitments(store, reader, a, map[], map[], map[]);
    stored := LeafStore.PutAll(map[], LeavesFrom(reader, a));
    RollbackToBlock(store, b, reader, stored, PutCommitments(map[], a), map[]);
    assert NullifiersBefore(map[], b) == map[];
    stored := LeafStore.Cut(stored, b);
    ok := UpsertV2Commitments(store, reader, fork, stored, CommitmentsBefore(PutCommitments(map[], a), b), map[]);
    stored := LeafStore.PutAll(stored, LeavesFrom(reader, fork));
  }

  method UpsertDirectly(reader: Reader, cs: seq<Commitment>) returns (store: Store, ghost stored: LeafStore.Stored)
    requires ReadsHex(reader) && AllFit(reader, cs)
    ensures fresh(store) && Holds(store.db, stored, PutCommitments(map[], cs), map[], reader)
    ensures LeavesMatch(stored, PutCommitments(map[], cs), reader)
  {
    store := new Store();
    EarlyFit(reader, cs, 0, []);
    var ok := UpsertV2Commitments(store, reader, cs, map[], map[], map[]);
    stored := LeafStore.PutAll(map[], LeavesFrom(reader, cs));
  }

  /** One store upserts commitments, rolls back and upserts a fork; another upserts the early commitments and the
      fork. When no early commitment is hidden, both hold the same leaves and commitments, every leaf with the
      block, transaction and hash of its commitment, and give the same root for every tree. */
  method ForkAgreesWithDirectUpsert(h: MerkleProofs.Hasher, reader: Reader, a: seq<Commitment>, b: nat,
                                    fork: seq<Commitment>, tree: nat)
    returns (forked: Store, direct: Store, roots: (string, string), ghost stored: LeafStore.Stored)
    requires ReadsHex(reader) && AllFit(reader, a) && AllFit(reader, fork) && tree < UINT64_LIMIT
    requires NothingIsHidden(a, b, fork)
    ensures Holds(forked.db, stored, PutCommitments(map[], Early(a, b) + fork), map[], reader)
    ensures Holds(direct.db, stored, PutCommitments(map[], Early(a, b) + fork), map[], reader)
    ensures LeavesMatch(stored, PutCommitments(map[], Early(a, b) + fork), reader)
    ensures roots.0 == roots.1 == MerkleProofs.FieldText(SparseMerkle.RootNumber(h, LeafStore.LeavesOf(stored, tree)))
  {
    ForkIff(a, b, fork);
    EarlyFit(reader, a, b, fork);
    ghost var other;
    forked, stored := UpsertFork(reader, a, b, fork);
    direct, other := UpsertDirectly(reader, Early(a, b) + fork);
    LeavesAreDetermined(stored, other, PutCommitments(map[], Early(a, b) + fork), reader);
    var left := forked.Root(h, tree, stored);
    var right := direct.Root(h, tree, stored);
    roots := (left.value, right.value);
  }

  lemma EarlyFit(reader: Reader, a: seq<Commitment>, b: nat, fork: seq<Commitment>)
    requires AllFit(reader, a) && AllFit(reader, fork)
    ensures AllFitTree(reader, a) && AllFitTree(reader, fork) && AllFit(reader, Early(a, b) + fork)
    ensures forall c | c in a || c in fork :: c.tree < UINT64_LIMIT
  {
    var all := Early(a, b) + fork;
    forall i | 0 <= i < |all| ensures FitsTree(reader, all[i]) && all[i].tree < UINT64_LIMIT {
      assert all[i] in a || all[i] in fork;
    }
  }

  // ----- The reader that the program uses

  lemma HexReaderReadsHex(decrypt: Commitment -> Decrypted)
    ensures ReadsHex(HexReader(decrypt))
  {
    forall s | Hex.FormatHexToByteLength(s, 32).Some? ensures AllBytes(Bytes(Hex.FormatHexToByteLength(s, 32).value)) {
      Hex.FormattedIsPlain(s, 32);
      PlainIsBytes(Hex.FormatHexToByteLength(s, 32).value);
    }
  }

  lemma PlainIsBytes(s: string)
    requires Hex.IsPlain(s)
    ensures AllBytes(Bytes(s))
  {
    forall i | 0 <= i < |s| ensures Bytes(s)[i] < 256 {
      assert Hex.CharDigit(s[i]).Some? || s[i] == '+' || s[i] == '-';
    }
  }
}
