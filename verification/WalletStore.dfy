/** The stored notes of a wallet and the import of accumulated events into them
    (pkg/wallet/file_state_store.go, pkg/wallet/importer.go). */
module WalletStore {
  import opened Wrappers
  import opened WalletLedger
  import opened Hex
  import Seqs

  // ----- Events as they arrive

  datatype Commitment = Commitment(hash: string, txid: string, railgunTxid: string, tree: nat, position: nat,
                                   blockNumber: nat, isShield: bool, data: string)

  datatype NullifierEvent = NullifierEvent(nullifier: string, tree: nat, txid: string, blockNumber: nat)

  datatype Accumulated = Accumulated(commitments: seq<Commitment>, nullifiers: seq<NullifierEvent>)

  /** What the keys of a wallet make of a commitment. */
  datatype Decoded =
    | Failed | NotOurs | Sent
    | Received(nullifier: string, tokenHash: string, value: nat, noteRandom: string)

  /** How commitments are decrypted, how hashes and nullifiers are brought into normal form, and which
      hashes are numbers. */
  datatype Reader = Reader(decode: Commitment -> Decoded, format: string -> Option<string>, isNumber: string -> bool) {
    /** The nullifiers of one's own notes are in normal form. */
    ghost predicate Valid() {
      forall c :: decode(c).Received? ==>
        decode(c).nullifier != "" && format(decode(c).nullifier) == Some(decode(c).nullifier)
    }
  }

  const V2 := "V2_PoseidonMerkle"

  function FirstNonEmpty(a: string, b: string): string {
    if a != "" then a else b
  }

  /** The note that a wallet stores for a commitment of its own. */
  function ReceiptOf(reader: Reader, c: Commitment): (r: Option<TXO>)
    ensures r.Some? <==> reader.decode(c).Received?
    ensures r.Some? ==> r.value.blockNumber == c.blockNumber && r.value.nullifier == reader.decode(c).nullifier
    ensures r.Some? ==> r.value.spendTxid == "" && r.value.spendBlock == None
  {
    var d := reader.decode(c);
    if !d.Received? then None
    else
      var txid := if c.isShield then c.txid else FirstNonEmpty(c.railgunTxid, c.txid);
      Some(TXO(d.nullifier, V2, c.tree, c.position, txid, c.blockNumber, d.tokenHash, d.value, d.noteRandom, "", None))
  }

  function SpendOf(reader: Reader, e: NullifierEvent): (r: Option<Spend>)
    ensures r.Some? ==> r.value.blockNumber == e.blockNumber
  {
    var n := reader.format(e.nullifier);
    if n.None? then None else Some(Spend(n.value, e.txid, e.blockNumber))
  }

  function ReceiptsOf(reader: Reader, cs: seq<Commitment>): seq<TXO> {
    if cs == [] then []
    else
      var rest, last := ReceiptsOf(reader, cs[..|cs| - 1]), ReceiptOf(reader, cs[|cs| - 1]);
      if last.Some? then rest + [last.value] else rest
  }

  function SpendsOf(reader: Reader, es: seq<NullifierEvent>): seq<Spend> {
    if es == [] then []
    else
      var rest, last := SpendsOf(reader, es[..|es| - 1]), SpendOf(reader, es[|es| - 1]);
      if last.Some? then rest + [last.value] else rest
  }

  function ChunkOf(reader: Reader, acc: Accumulated): Chunk {
    Chunk(ReceiptsOf(reader, acc.commitments), SpendsOf(reader, acc.nullifiers))
  }

  /** The receipts of commitments are the receipts of each of them. */
  lemma {:induction false} ReceiptsAre(reader: Reader, cs: seq<Commitment>)
    ensures forall x :: x in ReceiptsOf(reader, cs) <==> exists c | c in cs :: ReceiptOf(reader, c) == Some(x)
  {
    if cs != [] {
      ReceiptsAre(reader, cs[..|cs| - 1]);
      assert cs == cs[..|cs| - 1] + [cs[|cs| - 1]];
    }
  }

  lemma {:induction false} SpendsAre(reader: Reader, es: seq<NullifierEvent>)
    ensures forall s :: s in SpendsOf(reader, es) <==> exists e | e in es :: SpendOf(reader, e) == Some(s)
  {
    if es != [] {
      SpendsAre(reader, es[..|es| - 1]);
      assert es == es[..|es| - 1] + [es[|es| - 1]];
    }
  }

  lemma ReceiptsSnoc(reader: Reader, cs: seq<Commitment>, i: nat)
    requires i < |cs|
    ensures ReceiptsOf(reader, cs[..i + 1])
         == if ReceiptOf(reader, cs[i]).Some? then ReceiptsOf(reader, cs[..i]) + [ReceiptOf(reader, cs[i]).value]
            else ReceiptsOf(reader, cs[..i])
  {
    assert cs[..i + 1][..i] == cs[..i];
  }

  lemma SpendsSnoc(reader: Reader, es: seq<NullifierEvent>, i: nat)
    requires i < |es|
    ensures SpendsOf(reader, es[..i + 1])
         == if SpendOf(reader, es[i]).Some? then SpendsOf(reader, es[..i]) + [SpendOf(reader, es[i]).value]
            else SpendsOf(reader, es[..i])
  {
    assert es[..i + 1][..i] == es[..i];
  }

  lemma {:induction false} ReceiptsPrefix(reader: Reader, cs: seq<Commitment>, i: nat)
    requires i <= |cs|
    ensures ReceiptsOf(reader, cs[..i]) <= ReceiptsOf(reader, cs)
    decreases |cs| - i
  {
    if i < |cs| {
      ReceiptsSnoc(reader, cs, i);
      ReceiptsPrefix(reader, cs, i + 1);
    } else {
      Seqs.Whole(cs);
    }
  }

  lemma {:induction false} SpendsPrefix(reader: Reader, es: seq<NullifierEvent>, i: nat)
    requires i <= |es|
    ensures SpendsOf(reader, es[..i]) <= SpendsOf(reader, es)
    decreases |es| - i
  {
    if i < |es| {
      SpendsSnoc(reader, es, i);
      SpendsPrefix(reader, es, i + 1);
    } else {
      Seqs.Whole(es);
    }
  }

  // ----- What is stored, field by field

  /** The note that a commitment of the wallet stands for: at its tree and position, of its block, under its
      transaction, with what was decrypted. */
  ghost predicate IsNoteOf(o: TXO, reader: Reader, c: Commitment) {
    var d := reader.decode(c);
    && d.Received?
    && o.nullifier == d.nullifier && o.tokenHash == d.tokenHash && o.value == d.value && o.noteRandom == d.noteRandom
    && o.tree == c.tree && o.position == c.position && o.blockNumber == c.blockNumber && o.txidVersion == V2
    && o.txid == if c.isShield || c.railgunTxid == "" then c.txid else c.railgunTxid
  }

  ghost predicate IsUnspent(o: TXO) {
    o.spendTxid == "" && o.spendBlock == None
  }

  /** The note carries this event as its spend. */
  ghost predicate IsSpentBy(o: TXO, reader: Reader, e: NullifierEvent) {
    reader.format(e.nullifier) == Some(o.nullifier) && o.spendTxid == e.txid && o.spendBlock == Some(e.blockNumber)
  }

  /** Two notes that differ at most in their spends. */
  ghost predicate SameNote(o: TXO, p: TXO) {
    && o.nullifier == p.nullifier && o.txidVersion == p.txidVersion && o.tree == p.tree && o.position == p.position
    && o.txid == p.txid && o.blockNumber == p.blockNumber && o.tokenHash == p.tokenHash && o.value == p.value
    && o.noteRandom == p.noteRandom
  }

  /** A note as it was before, or that of one of these commitments, unspent. */
  ghost predicate IsBase(base: TXO, before: Option<TXO>, reader: Reader, acc: Accumulated) {
    before == Some(base) || (IsUnspent(base) && exists c | c in acc.commitments :: IsNoteOf(base, reader, c))
  }

  /** A note that comes from such a one, with or without a spend among these events. */
  ghost predicate IsExplained(o: TXO, before: Option<TXO>, reader: Reader, acc: Accumulated) {
    exists base :: IsBase(base, before, reader, acc) && SameNote(o, base)
      && (o == base || exists e | e in acc.nullifiers :: IsSpentBy(o, reader, e))
  }

  /** Every stored note is explained by what was stored before and by these events. */
  ghost predicate AllExplained(before: Txos, after: Txos, reader: Reader, acc: Accumulated) {
    && before.Keys <= after.Keys
    && forall n | n in after :: IsExplained(after[n], Get(before, n), reader, acc)
  }

  /** Every commitment of the wallet is stored, with the last of a nullifier counting, and every stored note
      whose nullifier was seen is spent by such an event. */
  ghost predicate NothingIsMissing(after: Txos, reader: Reader, acc: Accumulated) {
    && (forall c | c in acc.commitments && reader.decode(c).Received? ::
          reader.decode(c).nullifier in after
          && exists d | d in acc.commitments :: IsNoteOf(after[reader.decode(c).nullifier], reader, d))
    && (forall e, n | e in acc.nullifiers && reader.format(e.nullifier) == Some(n) && n in after
                      && after[n].nullifier == n ::
          exists f | f in acc.nullifiers :: IsSpentBy(after[n], reader, f))
  }

  lemma ReceiptIsNote(reader: Reader, c: Commitment)
    requires ReceiptOf(reader, c).Some?
    ensures IsNoteOf(ReceiptOf(reader, c).value, reader, c) && IsUnspent(ReceiptOf(reader, c).value)
  {
  }

  lemma SpendIsOf(reader: Reader, e: NullifierEvent, o: TXO)
    requires SpendOf(reader, e).Some? && SpendOf(reader, e).value.nullifier == o.nullifier
    ensures IsSpentBy(MarkSpent(o, SpendOf(reader, e).value), reader, e)
    ensures SameNote(MarkSpent(o, SpendOf(reader, e).value), o)
  {
  }

  lemma ReceiptHasCommitment(reader: Reader, cs: seq<Commitment>, x: TXO) returns (c: Commitment)
    requires x in ReceiptsOf(reader, cs)
    ensures c in cs && IsNoteOf(x, reader, c) && IsUnspent(x)
  {
    ReceiptsAre(reader, cs);
    c :| c in cs && ReceiptOf(reader, c) == Some(x);
    ReceiptIsNote(reader, c);
  }

  lemma SpendHasEvent(reader: Reader, es: seq<NullifierEvent>, s: Spend, o: TXO) returns (e: NullifierEvent)
    requires s in SpendsOf(reader, es) && s.nullifier == o.nullifier
    ensures e in es && IsSpentBy(MarkSpent(o, s), reader, e) && SameNote(MarkSpent(o, s), o)
  {
    SpendsAre(reader, es);
    e :| e in es && SpendOf(reader, e) == Some(s);
    SpendIsOf(reader, e, o);
  }

  /** Notes are stored under their own nullifiers. */
  ghost predicate UnderOwnNames(txos: Txos) {
    forall n | n in txos :: txos[n].nullifier == n
  }

  /** Some receipts and spends of these events. */
  ghost predicate IsSomeOf(c: Chunk, reader: Reader, acc: Accumulated) {
    && (forall x | x in c.receipts :: x in ReceiptsOf(reader, acc.commitments))
    && (forall s | s in c.spends :: s in SpendsOf(reader, acc.nullifiers))
  }

  lemma ImportedIsExplained(w: Txos, c: Chunk, reader: Reader, acc: Accumulated, n: string)
    requires UnderOwnNames(w) && IsSomeOf(c, reader, acc) && n in Import(w, c)
    ensures IsExplained(Import(w, c)[n], Get(w, n), reader, acc) && Import(w, c)[n].nullifier == n
  {
    ImportAt(w, c, n);
    var base := Or(LastReceipt(c.receipts, n), Get(w, n)).value;
    if LastReceipt(c.receipts, n).Some? {
      var d := ReceiptHasCommitment(reader, acc.commitments, base);
    }
    assert IsBase(base, Get(w, n), reader, acc) && base.nullifier == n;
    var s := LastSpend(c.spends, n);
    if s.Some? {
      var e := SpendHasEvent(reader, acc.nullifiers, s.value, base);
    }
  }

  lemma ImportIsExplained(w: Txos, c: Chunk, reader: Reader, acc: Accumulated)
    requires UnderOwnNames(w) && IsSomeOf(c, reader, acc)
    ensures AllExplained(w, Import(w, c), reader, acc) && UnderOwnNames(Import(w, c))
  {
    forall n | n in w ensures n in Import(w, c) {
      ImportAt(w, c, n);
    }
    forall n | n in Import(w, c)
      ensures IsExplained(Import(w, c)[n], Get(w, n), reader, acc) && Import(w, c)[n].nullifier == n
    {
      ImportedIsExplained(w, c, reader, acc, n);
    }
  }

  /** A commitment of the wallet has been stored: the note is that of the last one with its nullifier. */
  lemma ReceivedIsStored(w: Txos, reader: Reader, acc: Accumulated, c: Commitment)
    requires c in acc.commitments && reader.decode(c).Received?
    ensures var n, after := reader.decode(c).nullifier, Import(w, ChunkOf(reader, acc));
            n in after && exists d | d in acc.commitments :: IsNoteOf(after[n], reader, d)
  {
    var n, chunk := reader.decode(c).nullifier, ChunkOf(reader, acc);
    ReceiptsAre(reader, acc.commitments);
    assert ReceiptOf(reader, c).value in chunk.receipts;
    ImportAt(w, chunk, n);
    var d := ReceiptHasCommitment(reader, acc.commitments, LastReceipt(chunk.receipts, n).value);
    assert IsNoteOf(Import(w, chunk)[n], reader, d);
  }

  lemma SeenIsSpent(w: Txos, reader: Reader, acc: Accumulated, e: NullifierEvent, n: string)
    requires UnderOwnNames(w) && e in acc.nullifiers && reader.format(e.nullifier) == Some(n)
    requires n in Import(w, ChunkOf(reader, acc))
    ensures exists f | f in acc.nullifiers :: IsSpentBy(Import(w, ChunkOf(reader, acc))[n], reader, f)
  {
    var chunk := ChunkOf(reader, acc);
    SpendsAre(reader, acc.nullifiers);
    assert SpendOf(reader, e).value in chunk.spends;
    ImportAt(w, chunk, n);
    var base := Or(LastReceipt(chunk.receipts, n), Get(w, n)).value;
    var f := SpendHasEvent(reader, acc.nullifiers, LastSpend(chunk.spends, n).value, base);
  }

  lemma ImportMissesNothing(w: Txos, reader: Reader, acc: Accumulated)
    requires UnderOwnNames(w)
    ensures NothingIsMissing(Import(w, ChunkOf(reader, acc)), reader, acc)
  {
    var after := Import(w, ChunkOf(reader, acc));
    forall c | c in acc.commitments && reader.decode(c).Received?
      ensures reader.decode(c).nullifier in after
      ensures exists d | d in acc.commitments :: IsNoteOf(after[reader.decode(c).nullifier], reader, d)
    {
      ReceivedIsStored(w, reader, acc, c);
    }
    forall e, n | e in acc.nullifiers && reader.format(e.nullifier) == Some(n) && n in after && after[n].nullifier == n
      ensures exists f | f in acc.nullifiers :: IsSpentBy(after[n], reader, f)
    {
      SeenIsSpent(w, reader, acc, e, n);
    }
  }

  // ----- The store

  class FileStateStore {
    var txos: Txos

    constructor ()
      ensures txos == map[]
    {
      txos := map[];
    }

    method UpsertTXO(txo: TXO) returns (ok: bool)
      modifies this
      ensures ok == (txo.nullifier != "")
      ensures txos == if ok then old(txos)[txo.nullifier := txo] else old(txos)
    {
      if txo.nullifier == "" {
        return false;
      }
      txos := txos[txo.nullifier := txo];
      return true;
    }

    /** Marks a note as spent, whether or not it was before; a note that is not stored is an error. */
    method MarkTXOSpentAtBlock(s: Spend) returns (ok: bool)
      modifies this
      ensures ok == (s.nullifier in old(txos))
      ensures txos == MarkIn(old(txos), s)
    {
      if s.nullifier !in txos {
        return false;
      }
      txos := txos[s.nullifier := Mark(txos[s.nullifier], s.txid, Some(s.blockNumber))];
      return true;
    }

    /** Deletes the notes of this and later blocks and clears the spends of these blocks. */
    method RollbackToBlock(fromBlock: nat)
      modifies this
      ensures txos == Cut(old(txos), fromBlock)
    {
      var todo := txos.Keys;
      while todo != {}
        invariant todo <= old(txos).Keys
        invariant forall n ::
          Get(txos, n) == if n in todo then Get(old(txos), n) else CutOne(Get(old(txos), n), fromBlock)
        decreases todo
      {
        var nullifier :| nullifier in todo;
        todo := todo - {nullifier};
        var txo := txos[nullifier];
        assert Get(txos, nullifier) == Get(old(txos), nullifier);
        if txo.blockNumber >= fromBlock {
          txos := txos - {nullifier};
        } else if txo.spendBlock.Some? && txo.spendBlock.value >= fromBlock {
          txos := txos[nullifier := Mark(txo, "", None)];
        }
      }
      forall n ensures Get(txos, n) == Get(Cut(old(txos), fromBlock), n) {
        CutAt(old(txos), fromBlock, n);
      }
      SameTxos(txos, Cut(old(txos), fromBlock));
    }
  }

  // ----- Importing

  datatype ImportSummary = ImportSummary(txosImported: nat, commitmentsSkipped: nat,
                                         spendsMarked: nat, spendsSkipped: nat)

  /** Every commitment and every nullifier can be handled. */
  ghost predicate AllHandled(reader: Reader, acc: Accumulated) {
    && (forall c | c in acc.commitments :: !reader.decode(c).Failed?)
    && (forall e | e in acc.nullifiers :: SpendOf(reader, e).Some?)
  }

  /** How many of these spends are of stored notes. */
  function KnownSpends(w: Txos, spends: seq<Spend>): nat {
    if spends == [] then 0
    else KnownSpends(w, spends[..|spends| - 1]) + if spends[|spends| - 1].nullifier in w then 1 else 0
  }

  /** How many of these commitments are of other wallets. */
  function Foreigners(reader: Reader, cs: seq<Commitment>): nat {
    if cs == [] then 0
    else Foreigners(reader, cs[..|cs| - 1]) + if reader.decode(cs[|cs| - 1]).NotOurs? then 1 else 0
  }

  lemma {:induction false} MarkAllKeys(w: Txos, spends: seq<Spend>)
    ensures MarkAll(w, spends).Keys == w.Keys
  {
    if spends != [] {
      MarkAllKeys(w, spends[..|spends| - 1]);
    }
  }

  method ImportCommitments(state: FileStateStore, reader: Reader, cs: seq<Commitment>)
    returns (ok: bool, imported: nat, skipped: nat, ghost done: nat)
    requires reader.Valid()
    modifies state
    ensures ok <==> forall c | c in cs :: !reader.decode(c).Failed?
    ensures done <= |ReceiptsOf(reader, cs)| && (ok ==> done == |ReceiptsOf(reader, cs)| == imported)
    ensures state.txos == UpsertAll(old(state.txos), ReceiptsOf(reader, cs)[..done])
    ensures ok ==> skipped == Foreigners(reader, cs)
  {
    imported, skipped := 0, 0;
    for i := 0 to |cs|
      invariant forall k | 0 <= k < i :: !reader.decode(cs[k]).Failed?
      invariant imported == |ReceiptsOf(reader, cs[..i])| && skipped == Foreigners(reader, cs[..i])
      invariant state.txos == UpsertAll(old(state.txos), ReceiptsOf(reader, cs[..i]))
    {
      ReceiptsPrefix(reader, cs, i);
      var d := reader.decode(cs[i]);
      if d.Failed? {
        assert ReceiptsOf(reader, cs)[..imported] == ReceiptsOf(reader, cs[..i]);
        return false, imported, skipped, imported;
      }
      ReceiptsSnoc(reader, cs, i);
      assert cs[..i + 1][..i] == cs[..i];
      if d.NotOurs? {
        skipped := skipped + 1;
      } else if d.Received? {
        var txo := ReceiptOf(reader, cs[i]).value;
        var stored := state.UpsertTXO(txo);
        UpsertSnoc(old(state.txos), ReceiptsOf(reader, cs[..i]), txo);
        imported := imported + 1;
      }
    }
    Seqs.Whole(cs);
    Seqs.Whole(ReceiptsOf(reader, cs));
    return true, imported, skipped, imported;
  }

  lemma UpsertSnoc(w: Txos, receipts: seq<TXO>, txo: TXO)
    ensures UpsertAll(w, receipts + [txo]) == UpsertAll(w, receipts)[txo.nullifier := txo]
  {
    assert (receipts + [txo])[..|receipts|] == receipts;
  }

  lemma MarkSnoc(w: Txos, spends: seq<Spend>, s: Spend)
    ensures MarkAll(w, spends + [s]) == MarkIn(MarkAll(w, spends), s)
    ensures KnownSpends(w, spends + [s]) == KnownSpends(w, spends) + if s.nullifier in w then 1 else 0
  {
    assert (spends + [s])[..|spends|] == spends;
  }

  /** The stored notes after some spends, and how many of these were known. */
  ghost predicate IsMarked(w: Txos, spends: seq<Spend>, v: Txos, marked: nat) {
    v == MarkAll(w, spends) && marked == KnownSpends(w, spends)
  }

  method MarkOne(state: FileStateStore, s: Spend, ghost w: Txos, ghost seen: seq<Spend>, ghost marked: nat)
    returns (known: bool)
    requires IsMarked(w, seen, state.txos, marked)
    modifies state
    ensures IsMarked(w, seen + [s], state.txos, if known then marked + 1 else marked)
  {
    MarkSnoc(w, seen, s);
    MarkAllKeys(w, seen);
    known := state.MarkTXOSpentAtBlock(s);
  }

  method MarkNullifiersSpent(state: FileStateStore, reader: Reader, es: seq<NullifierEvent>)
    returns (ok: bool, marked: nat, skipped: nat, ghost done: nat)
    modifies state
    ensures ok <==> forall e | e in es :: SpendOf(reader, e).Some?
    ensures done <= |SpendsOf(reader, es)| && (ok ==> done == |SpendsOf(reader, es)| == |es|)
    ensures IsMarked(old(state.txos), SpendsOf(reader, es)[..done], state.txos, marked)
    ensures ok ==> marked + skipped == |es|
  {
    marked, skipped := 0, 0;
    ghost var seen: seq<Spend> := [];
    for i := 0 to |es|
      invariant forall k | 0 <= k < i :: SpendOf(reader, es[k]).Some?
      invariant seen == SpendsOf(reader, es[..i]) && |seen| == i == marked + skipped
      invariant IsMarked(old(state.txos), seen, state.txos, marked)
    {
      SpendsPrefix(reader, es, i);
      var s := SpendOf(reader, es[i]);
      if s.None? {
        assert SpendsOf(reader, es)[..i] == seen;
        return false, marked, skipped, i;
      }
      SpendsSnoc(reader, es, i);
      var known := MarkOne(state, s.value, old(state.txos), seen, marked);
      seen := seen + [s.value];
      if known {
        marked := marked + 1;
      } else {
        skipped := skipped + 1;
      }
    }
    Seqs.Whole(es);
    Seqs.Whole(seen);
    return true, marked, skipped, |es|;
  }

  /** Imports everything, or stops at the first event that cannot be handled; what was done
      before that stays. */
  method ImportEvents(state: FileStateStore, reader: Reader, acc: Accumulated) returns (r: Result<ImportSummary>)
    requires reader.Valid()
    modifies state
    ensures r.Ok? <==> AllHandled(reader, acc)
    ensures r.Ok? ==>
      var c := ChunkOf(reader, acc);
      && state.txos == Import(old(state.txos), c)
      && r.value.txosImported == |c.receipts| && r.value.commitmentsSkipped == Foreigners(reader, acc.commitments)
      && r.value.spendsMarked == KnownSpends(UpsertAll(old(state.txos), c.receipts), c.spends)
      && r.value.spendsMarked + r.value.spendsSkipped == |acc.nullifiers|
    ensures r.Err? ==>
      exists j, k | 0 <= j <= |ChunkOf(reader, acc).receipts| && 0 <= k <= |ChunkOf(reader, acc).spends| ::
        state.txos == Import(old(state.txos), Part(ChunkOf(reader, acc), j, k))
    ensures old(UnderOwnNames(state.txos)) ==>
      UnderOwnNames(state.txos) && AllExplained(old(state.txos), state.txos, reader, acc)
    ensures r.Ok? && old(UnderOwnNames(state.txos)) ==> NothingIsMissing(state.txos, reader, acc)
  {
    ghost var chunk := ChunkOf(reader, acc);
    if UnderOwnNames(state.txos) {
      forall j: nat, k: nat | j <= |chunk.receipts| && k <= |chunk.spends|
        ensures AllExplained(state.txos, Import(state.txos, Part(chunk, j, k)), reader, acc)
        ensures UnderOwnNames(Import(state.txos, Part(chunk, j, k)))
      {
        ImportIsExplained(state.txos, Part(chunk, j, k), reader, acc);
      }
      ImportIsExplained(state.txos, chunk, reader, acc);
      ImportMissesNothing(state.txos, reader, acc);
    }
    var ok, imported, commitmentsSkipped, j := ImportCommitments(state, reader, acc.commitments);
    if !ok {
      assert state.txos == Import(old(state.txos), Part(ChunkOf(reader, acc), j, 0));
      return Err("commitment");
    }
    Seqs.Whole(ReceiptsOf(reader, acc.commitments));
    var formatted, marked, spendsSkipped, k := MarkNullifiersSpent(state, reader, acc.nullifiers);
    if !formatted {
      assert state.txos == Import(old(state.txos), Part(ChunkOf(reader, acc), j, k));
      return Err("nullifier");
    }
    Seqs.Whole(SpendsOf(reader, acc.nullifiers));
    return Ok(ImportSummary(imported, commitmentsSkipped, marked, spendsSkipped));
  }

  // ----- The reader that the program uses

  datatype Decrypted =
    | Failure | Foreign | Outgoing
    | Incoming(nullifier: nat, tokenHash: string, value: nat, noteRandom: string)

  function NullifierText(n: nat): (s: string)
    ensures BigIntToHex(n, 32) == Some(s)
  {
    BigIntToHex(n, 32).value
  }

  function Text(d: Decrypted): Decoded {
    match d
    case Failure => Failed
    case Foreign => NotOurs
    case Outgoing => Sent
    case Incoming(n, tokenHash, value, random) => Received(NullifierText(n), tokenHash, value, random)
  }

  function HexReader(decrypt: Commitment -> Decrypted): Reader {
    Reader(c => Text(decrypt(c)), s => FormatHexToByteLength(s, 32), s => HexToBigInt(s).Some?)
  }

  /** Whatever decryption yields, nullifiers are 32-byte hex texts, which formatting keeps. */
  lemma HexReaderIsValid(decrypt: Commitment -> Decrypted)
    ensures HexReader(decrypt).Valid()
  {
    var reader := HexReader(decrypt);
    forall c | reader.decode(c).Received?
      ensures reader.decode(c).nullifier != ""
      ensures reader.format(reader.decode(c).nullifier) == Some(reader.decode(c).nullifier)
    {
      DecodedIsNormal(decrypt(c));
    }
  }

  lemma DecodedIsNormal(d: Decrypted)
    requires d.Incoming?
    ensures Text(d).nullifier != "" && FormatHexToByteLength(Text(d).nullifier, 32) == Some(Text(d).nullifier)
  {
    NullifierTextIsNormal(d.nullifier);
  }

  lemma NullifierTextIsNormal(n: nat)
    ensures NullifierText(n) != "" && FormatHexToByteLength(NullifierText(n), 32) == Some(NullifierText(n))
  {
    BigIntToHexRoundTrip(n, 32);
    FormatIsIdentity(NullifierText(n), 32);
  }
}
