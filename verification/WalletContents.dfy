/** What the stored notes of a wallet say about a chain, field by field: where they lie, what they are worth,
    and which events they come from. */
module WalletContents {
  import opened Wrappers
  import opened WalletLedger
  import opened WalletHistory
  import opened WalletStore
  import opened EventIndex

  /** Every stored note is that of a commitment of the chain, unspent or spent by a nullifier of the chain. */
  ghost predicate HoldsNotes(txos: Txos, reader: Reader, h: Accumulated) {
    && UnderOwnNames(txos)
    && (forall n | n in txos :: exists c | c in h.commitments :: IsNoteOf(txos[n], reader, c))
    && (forall n | n in txos :: IsUnspent(txos[n]) || exists e | e in h.nullifiers :: IsSpentBy(txos[n], reader, e))
  }

  /** Every commitment of the wallet before block `next` is stored as its note, and every nullifier before it is
      the spend of the note that it belongs to. */
  ghost predicate HoldsAllBefore(txos: Txos, reader: Reader, h: Accumulated, next: nat) {
    && (forall c | c in h.commitments && c.blockNumber < next && reader.decode(c).Received? ::
          reader.decode(c).nullifier in txos && IsNoteOf(txos[reader.decode(c).nullifier], reader, c))
    && (forall e, n | e in h.nullifiers && e.blockNumber < next && reader.format(e.nullifier) == Some(n) && n in txos ::
          IsSpentBy(txos[n], reader, e))
  }

  /** The note that a stored one was received as. */
  lemma StateHasCommitment(o: TXO, reader: Reader, h: Accumulated)
    requires IsState(o, ChunkOf(reader, h))
    ensures exists c | c in h.commitments :: IsNoteOf(o, reader, c)
    ensures IsUnspent(o) || exists e | e in h.nullifiers :: IsSpentBy(o, reader, e)
  {
    var g := ChunkOf(reader, h);
    var x :| x in g.receipts && x.nullifier == o.nullifier
             && (o == x || exists s | s in g.spends :: s.nullifier == x.nullifier && o == MarkSpent(x, s));
    var c := ReceiptHasCommitment(reader, h.commitments, x);
    if o != x {
      var s :| s in g.spends && s.nullifier == x.nullifier && o == MarkSpent(x, s);
      var e := SpendHasEvent(reader, h.nullifiers, s, x);
    }
    assert IsNoteOf(o, reader, c);
  }

  lemma ReceivedIsHeld(txos: Txos, reader: Reader, h: Accumulated, next: nat, c: Commitment)
    requires SoundHistory(reader, h) && Follows(txos, ChunkOf(reader, h), next)
    requires c in h.commitments && c.blockNumber < next && reader.decode(c).Received?
    ensures reader.decode(c).nullifier in txos && IsNoteOf(txos[reader.decode(c).nullifier], reader, c)
  {
    ReceiptsAre(reader, h.commitments);
    var x := ReceiptOf(reader, c).value;
    assert x in ChunkOf(reader, h).receipts;
    ReceiptIsNote(reader, c);
    var s := StateOfReceipt(txos, ChunkOf(reader, h), x.nullifier, x);
  }

  lemma SeenIsHeld(txos: Txos, reader: Reader, h: Accumulated, next: nat, e: NullifierEvent, n: string)
    requires SoundHistory(reader, h) && Follows(txos, ChunkOf(reader, h), next)
    requires e in h.nullifiers && e.blockNumber < next && reader.format(e.nullifier) == Some(n) && n in txos
    ensures IsSpentBy(txos[n], reader, e)
  {
    var g := ChunkOf(reader, h);
    SpendsAre(reader, h.nullifiers);
    assert SpendOf(reader, e).value in g.spends && txos[n].spendBlock.Some?;
    var x :| x in g.receipts && x.nullifier == n;
    var s := StateOfReceipt(txos, g, n, x);
    SpendIsOf(reader, e, x);
  }

  /** Notes that follow a chain say exactly this about it. */
  lemma FollowingHolds(txos: Txos, reader: Reader, h: Accumulated, next: nat)
    requires SoundHistory(reader, h) && Follows(txos, ChunkOf(reader, h), next)
    ensures HoldsNotes(txos, reader, h) && HoldsAllBefore(txos, reader, h, next)
  {
    forall n | n in txos
      ensures exists c | c in h.commitments :: IsNoteOf(txos[n], reader, c)
      ensures IsUnspent(txos[n]) || exists e | e in h.nullifiers :: IsSpentBy(txos[n], reader, e)
    {
      StateHasCommitment(txos[n], reader, h);
    }
    forall c | c in h.commitments && c.blockNumber < next && reader.decode(c).Received?
      ensures reader.decode(c).nullifier in txos && IsNoteOf(txos[reader.decode(c).nullifier], reader, c)
    {
      ReceivedIsHeld(txos, reader, h, next, c);
    }
    forall e, n | e in h.nullifiers && e.blockNumber < next && reader.format(e.nullifier) == Some(n) && n in txos
      ensures IsSpentBy(txos[n], reader, e)
    {
      SeenIsHeld(txos, reader, h, next, e, n);
    }
  }

  // ----- Notes and their places in the index

  /** The index holds the commitment of every stored note at the tree and position that the note names. */
  ghost predicate NotesAreIndexed(txos: Txos, m: CommitmentIndex, reader: Reader) {
    forall n | n in txos ::
      (txos[n].tree, txos[n].position) in m && IsNoteOf(txos[n], reader, m[(txos[n].tree, txos[n].position)])
  }

  /** Nothing in the index changes, and these commitments are in it. */
  ghost predicate IndexExtends(m: CommitmentIndex, more: CommitmentIndex, cs: seq<Commitment>) {
    && (forall p | p in m :: p in more && more[p] == m[p])
    && (forall c | c in cs :: Place(c) in more && more[Place(c)] == c)
  }

  /** Commitments have their own places, so that upserting them only adds. */
  lemma UpsertExtends(m: CommitmentIndex, reader: Reader, h: Accumulated, cs: seq<Commitment>, next: nat)
    requires SoundHistory(reader, h) && CommitmentsFollow(m, h, next) && forall c | c in cs :: c in h.commitments
    ensures IndexExtends(m, PutCommitments(m, cs), cs)
  {
    var more := PutCommitments(m, cs);
    forall p | p in m ensures p in more && more[p] == m[p] {
      PutCommitmentsAt(m, cs, p);
      assert m[p] in h.commitments;
    }
    forall c | c in cs ensures Place(c) in more && more[Place(c)] == c {
      PutCommitmentsAt(m, cs, Place(c));
    }
  }

  lemma ExplainedIsIndexed(before: Txos, o: TXO, n: string, m: CommitmentIndex, more: CommitmentIndex,
                           reader: Reader, acc: Accumulated)
    requires NotesAreIndexed(before, m, reader) && IndexExtends(m, more, acc.commitments)
    requires IsExplained(o, Get(before, n), reader, acc)
    ensures (o.tree, o.position) in more && IsNoteOf(o, reader, more[(o.tree, o.position)])
  {
    var base :| IsBase(base, Get(before, n), reader, acc) && SameNote(o, base);
    if Get(before, n) == Some(base) {
      assert IsNoteOf(base, reader, m[(base.tree, base.position)]);
    } else {
      var c :| c in acc.commitments && IsNoteOf(base, reader, c);
      assert more[Place(c)] == c;
    }
  }

  /** An import over notes that are indexed, of commitments that are, leaves all notes indexed. */
  lemma ImportIsIndexed(before: Txos, after: Txos, m: CommitmentIndex, more: CommitmentIndex,
                        reader: Reader, acc: Accumulated)
    requires NotesAreIndexed(before, m, reader) && IndexExtends(m, more, acc.commitments)
    requires AllExplained(before, after, reader, acc)
    ensures NotesAreIndexed(after, more, reader)
  {
    forall n | n in after
      ensures (after[n].tree, after[n].position) in more
      ensures IsNoteOf(after[n], reader, more[(after[n].tree, after[n].position)])
    {
      ExplainedIsIndexed(before, after[n], n, m, more, reader, acc);
    }
  }

  lemma StaysIndexed(txos: Txos, m: CommitmentIndex, more: CommitmentIndex, reader: Reader, cs: seq<Commitment>)
    requires NotesAreIndexed(txos, m, reader) && IndexExtends(m, more, cs)
    ensures NotesAreIndexed(txos, more, reader)
  {
  }

  /** A rollback takes notes and their commitments away together. */
  lemma CutIsIndexed(txos: Txos, m: CommitmentIndex, reader: Reader, b: nat)
    requires NotesAreIndexed(txos, m, reader)
    ensures NotesAreIndexed(Cut(txos, b), CommitmentsBefore(m, b), reader)
  {
  }
}
