/** Keeping a wallet in step with a chain: scanning from a checkpoint, importing chunk by chunk,
    rolling back and scanning anew (SyncV2FromCheckpointWithAllStores and
    RollbackWalletSyncWithAllStores in pkg/wallet/sync.go,
    ImportV2AccumulatedEventsWithAllStores in pkg/wallet/importer.go). */
module WalletSync {
  import opened Wrappers
  import opened WalletLedger
  import opened WalletHistory
  import opened WalletStore
  import opened EventIndex
  import opened WalletContents
  import opened BlockScan
  import opened Checkpoints
  import Seqs

  /** Notes and index reflect all events of the chain before block `next`. */
  ghost predicate InStep(state: FileStateStore, index: UtxoIndex, reader: Reader, h: Accumulated, next: nat)
    reads state, index
  {
    Follows(state.txos, ChunkOf(reader, h), next) && index.Follows(reader, h, next)
  }

  /** And no later event has left a trace in them. */
  ghost predicate BothSettled(state: FileStateStore, index: UtxoIndex, next: nat)
    reads state, index
  {
    Settled(state.txos, next) && index.Settled(next)
  }

  // ----- Importing with an index

  /** Every commitment fits into a tree and can be decoded, and every nullifier can be formatted. */
  ghost predicate Importable(reader: Reader, acc: Accumulated) {
    AllHandled(reader, acc) && IndexTakes(reader, acc)
  }

  ghost predicate IndexTakes(reader: Reader, acc: Accumulated) {
    && (forall c | c in acc.commitments :: FitsTree(reader, c))
    && (forall e | e in acc.nullifiers :: SpendKey(reader, e).Some?)
  }

  /** Commitments of later blocks leave the index in step, and those of the next blocks bring it on. */
  lemma CommitmentsGrow(h: Accumulated, acc: Accumulated, known: nat, from: nat, to: nat, m: CommitmentIndex)
    requires IsWindow(acc, h, from, to) && CommitmentsFollow(m, h, known)
    ensures CommitmentsFollow(PutCommitments(m, acc.commitments), h, known)
    ensures known == from ==> CommitmentsFollow(PutCommitments(m, acc.commitments), h, to + 1)
  {
    var more := PutCommitments(m, acc.commitments);
    forall p | p in more ensures more[p] in h.commitments && p == (more[p].tree, more[p].position) {
      PutCommitmentsAt(m, acc.commitments, p);
    }
    forall c | c in h.commitments && (c.blockNumber < known || (known == from && c.blockNumber < to + 1))
      ensures (c.tree, c.position) in more
    {
      PutCommitmentsAt(m, acc.commitments, Place(c));
    }
  }

  lemma NullifiersGrow(reader: Reader, h: Accumulated, acc: Accumulated, known: nat, from: nat, to: nat,
                       m: NullifierIndex)
    requires IsWindow(acc, h, from, to) && NullifiersFollow(m, reader, h, known)
    ensures NullifiersFollow(PutNullifiers(m, reader, acc.nullifiers), reader, h, known)
    ensures known == from ==> NullifiersFollow(PutNullifiers(m, reader, acc.nullifiers), reader, h, to + 1)
  {
    var more := PutNullifiers(m, reader, acc.nullifiers);
    forall p | p in more
      ensures more[p] in h.nullifiers && p.0 == more[p].tree && reader.format(more[p].nullifier) == Some(p.1)
    {
      PutNullifiersAt(m, reader, acc.nullifiers, p);
    }
    forall e | e in h.nullifiers && reader.format(e.nullifier).Some?
               && (e.blockNumber < known || (known == from && e.blockNumber < to + 1))
      ensures (e.tree, reader.format(e.nullifier).value) in more
    {
      PutNullifiersAt(m, reader, acc.nullifiers, SpendKey(reader, e).value);
    }
  }

  /** What these events leave in the index comes from their blocks. */
  lemma IndexSettles(reader: Reader, h: Accumulated, acc: Accumulated, from: nat, to: nat,
                     m: CommitmentIndex, k: NullifierIndex, reach: nat)
    requires IsWindow(acc, h, from, to)
    requires (forall p | p in m :: m[p].blockNumber < reach) && (forall p | p in k :: k[p].blockNumber < reach)
    ensures var more := PutCommitments(m, acc.commitments);
            forall p | p in more :: more[p].blockNumber < Max(reach, to + 1)
    ensures var more := PutNullifiers(k, reader, acc.nullifiers);
            forall p | p in more :: more[p].blockNumber < Max(reach, to + 1)
  {
    var cs, es := PutCommitments(m, acc.commitments), PutNullifiers(k, reader, acc.nullifiers);
    forall p | p in cs ensures cs[p].blockNumber < Max(reach, to + 1) {
      PutCommitmentsAt(m, acc.commitments, p);
    }
    forall p | p in es ensures es[p].blockNumber < Max(reach, to + 1) {
      PutNullifiersAt(k, reader, acc.nullifiers, p);
    }
  }

  method IndexWindow(index: UtxoIndex, reader: Reader, acc: Accumulated,
                     ghost h: Accumulated, ghost known: nat, ghost from: nat, ghost to: nat, ghost reach: nat)
    returns (ok: bool)
    requires SoundHistory(reader, h) && IsWindow(acc, h, from, to)
    requires index.Follows(reader, h, known) && index.Settled(reach)
    modifies index
    ensures ok <==> IndexTakes(reader, acc)
    ensures IndexExtends(old(index.commitments), index.commitments, if ok then acc.commitments else [])
    ensures index.Follows(reader, h, known) && index.Settled(Max(reach, to + 1))
    ensures ok && known == from ==> index.Follows(reader, h, to + 1)
  {
    CommitmentsGrow(h, acc, known, from, to, index.commitments);
    NullifiersGrow(reader, h, acc, known, from, to, index.nullifiers);
    IndexSettles(reader, h, acc, from, to, index.commitments, index.nullifiers, reach);
    UpsertExtends(index.commitments, reader, h, acc.commitments, known);
    ok := index.UpsertCommitments(reader, acc.commitments);
    if ok {
      ok := index.UpsertNullifiers(reader, acc.nullifiers);
    }
  }

  lemma PartIsPart(c: Chunk, h: Chunk, known: nat, from: nat, j: nat, k: nat)
    requires IsPartOf(c, h, from) && known <= from && j <= |c.receipts| && k <= |c.spends|
    ensures IsPartOf(Part(c, j, k), h, known)
  {
  }

  lemma PartSettles(w: Txos, c: Chunk, reach: nat, to: nat, j: nat, k: nat)
    requires Settled(w, reach) && j <= |c.receipts| && k <= |c.spends| && Unspent(c.receipts)
    requires (forall x | x in c.receipts :: x.blockNumber <= to) && forall s | s in c.spends :: s.blockNumber <= to
    ensures Settled(Import(w, Part(c, j, k)), Max(reach, to + 1))
  {
    ImportSettles(w, Part(c, j, k), reach, to);
  }

  lemma WholeIsPart(c: Chunk)
    ensures Part(c, |c.receipts|, |c.spends|) == c
  {
    Seqs.Whole(c.receipts);
    Seqs.Whole(c.spends);
  }

  method ImportNotes(state: FileStateStore, reader: Reader, acc: Accumulated,
                     ghost h: Accumulated, ghost known: nat, ghost from: nat, ghost to: nat, ghost reach: nat)
    returns (r: Result<ImportSummary>)
    requires reader.Valid() && SoundHistory(reader, h) && IsWindow(acc, h, from, to) && known <= from <= to
    requires Follows(state.txos, ChunkOf(reader, h), known) && Settled(state.txos, reach)
    modifies state
    ensures r.Ok? <==> AllHandled(reader, acc)
    ensures Follows(state.txos, ChunkOf(reader, h), known) && Settled(state.txos, Max(reach, to + 1))
    ensures r.Ok? && known == from ==> Follows(state.txos, ChunkOf(reader, h), to + 1)
    ensures AllExplained(old(state.txos), state.txos, reader, acc)
  {
    WindowIsPart(reader, acc, h, from, to);
    r := ImportEvents(state, reader, acc);
    ghost var c := ChunkOf(reader, acc);
    WholeIsPart(c);
    ghost var j, k :| 0 <= j <= |c.receipts| && 0 <= k <= |c.spends|
                      && state.txos == Import(old(state.txos), Part(c, j, k)) && (r.Ok? ==> Part(c, j, k) == c);
    PartIsPart(c, ChunkOf(reader, h), known, from, j, k);
    PartialImportFollows(old(state.txos), ChunkOf(reader, h), known, Part(c, j, k));
    PartSettles(old(state.txos), c, reach, to, j, k);
    if r.Ok? && known == from {
      FullImportFollows(old(state.txos), ChunkOf(reader, h), from, c, to);
    }
  }

  /** Imports the events of a window: it succeeds exactly when all of them can be imported. After an error,
      whatever was done stays, and the window can be imported again; in any case nothing beyond the
      window has left a new trace. */
  method ImportWindow(state: FileStateStore, index: UtxoIndex, reader: Reader, acc: Accumulated,
                      ghost h: Accumulated, ghost known: nat, ghost from: nat, ghost to: nat, ghost reach: nat)
    returns (r: Result<ImportSummary>)
    requires reader.Valid() && SoundHistory(reader, h) && IsWindow(acc, h, from, to) && known <= from <= to
    requires InStep(state, index, reader, h, known) && BothSettled(state, index, reach)
    requires NotesAreIndexed(state.txos, index.commitments, reader)
    modifies state, index
    ensures NotesAreIndexed(state.txos, index.commitments, reader)
    ensures r.Ok? <==> Importable(reader, acc)
    ensures InStep(state, index, reader, h, known) && BothSettled(state, index, Max(reach, to + 1))
    ensures r.Ok? && known == from ==> InStep(state, index, reader, h, to + 1)
  {
    var indexed := IndexWindow(index, reader, acc, h, known, from, to, reach);
    if !indexed {
      StaysIndexed(state.txos, old(index.commitments), index.commitments, reader, []);
      return Err("index");
    }
    r := ImportNotes(state, reader, acc, h, known, from, to, reach);
    ImportIsIndexed(old(state.txos), state.txos, old(index.commitments), index.commitments, reader, acc);
  }

  // ----- How far a wallet has come

  /** The checkpoints, the block before which everything is reflected, and the block from which on nothing
      has left a trace. */
  datatype Progress = Progress(saved: Saved, known: nat, reach: nat) {
    predicate IsBehind(scan: CheckpointedScan) {
      known <= StartBlock(saved, scan)
    }

    /** Everything before the checkpoint is reflected. */
    predicate IsSynced(scan: CheckpointedScan) {
      known == StartBlock(saved, scan)
    }
  }

  /** A wallet has come this far on a chain. */
  ghost predicate IsAt(checkpoints: CheckpointStore, state: FileStateStore, index: UtxoIndex, reader: Reader,
                       scan: CheckpointedScan, h: Accumulated, p: Progress)
    reads checkpoints, state, index
  {
    && checkpoints.checkpoints == p.saved && AllUint64(p.saved) && p.IsBehind(scan)
    && InStep(state, index, reader, h, p.known) && BothSettled(state, index, p.reach)
    && NotesAreIndexed(state.txos, index.commitments, reader)
  }

  // ----- Syncing

  /** What a node answers: the events of a range of blocks, or an error. */
  datatype EventProvider = EventProvider(fetch: (nat, nat) -> Option<Accumulated>) {
    ghost predicate Serves(h: Accumulated) {
      forall from, to | fetch(from, to).Some? :: IsWindow(fetch(from, to).value, h, from, to)
    }
  }

  /** A chunk gets through when it is served and can be imported. */
  ghost predicate Passes(reader: Reader, events: Option<Accumulated>) {
    events.Some? && Importable(reader, events.value)
  }

  ghost function AfterChunk(reader: Reader, p: Progress, key: string, from: nat, chunkTo: nat,
                            events: Option<Accumulated>): Progress
  {
    if events.None? then p
    else if !Passes(reader, events) then p.(reach := Max(p.reach, chunkTo + 1))
    else
      var known := if p.known == from then chunkTo + 1 else p.known;
      Progress(p.saved[key := chunkTo + 1], known, Max(p.reach, chunkTo + 1))
  }

  /** Chunk by chunk, until one does not get through. */
  ghost function AfterRange(reader: Reader, p: Progress, scan: CheckpointedScan, provider: EventProvider,
                            from: nat, to: nat): Progress
    requires from <= to && IsUint64(to) && scan.IsUint64()
    decreases (to - from)
  {
    ChunkToIsRight(from, to, scan.chunkSize);
    var chunkTo := ChunkTo(from, to, scan.chunkSize);
    var events := provider.fetch(from, chunkTo);
    var q := AfterChunk(reader, p, scan.key, from, chunkTo, events);
    if !Passes(reader, events) || chunkTo == to then q else AfterRange(reader, q, scan, provider, chunkTo + 1, to)
  }

  ghost predicate AllPassIn(reader: Reader, provider: EventProvider, chunks: seq<LogChunk>) {
    forall c | c in chunks :: Passes(reader, provider.fetch(c.fromBlock, c.toBlock))
  }

  /** Every chunk of the range gets through. */
  ghost predicate AllPass(reader: Reader, provider: EventProvider, from: nat, to: nat, chunkSize: nat)
    requires from <= to && IsUint64(to) && IsUint64(chunkSize)
  {
    AllPassIn(reader, provider, ChunksOf(from, to, chunkSize))
  }

  lemma AllPassStep(reader: Reader, provider: EventProvider, from: nat, to: nat, chunkSize: nat, chunkTo: nat)
    requires from <= to && IsUint64(to) && IsUint64(chunkSize) && chunkTo == ChunkTo(from, to, chunkSize)
    ensures from <= chunkTo <= to
    ensures AllPass(reader, provider, from, to, chunkSize)
       <==> Passes(reader, provider.fetch(from, chunkTo))
            && (chunkTo < to ==> AllPass(reader, provider, chunkTo + 1, to, chunkSize))
  {
    ChunksStep(from, to, chunkSize);
    var rest := if chunkTo == to then [] else ChunksOf(chunkTo + 1, to, chunkSize);
    AllPassCons(reader, provider, LogChunk(from, chunkTo), rest, ChunksOf(from, to, chunkSize));
  }

  lemma AllPassCons(reader: Reader, provider: EventProvider, first: LogChunk, rest: seq<LogChunk>, all: seq<LogChunk>)
    requires all == [first] + rest
    ensures AllPassIn(reader, provider, all)
       <==> Passes(reader, provider.fetch(first.fromBlock, first.toBlock)) && AllPassIn(reader, provider, rest)
  {
    assert forall c :: c in all <==> c == first || c in rest;
  }

  lemma AfterRangeStep(reader: Reader, p: Progress, scan: CheckpointedScan, provider: EventProvider,
                       from: nat, to: nat, chunkTo: nat, events: Option<Accumulated>)
    requires from <= to && IsUint64(to) && scan.IsUint64()
    requires chunkTo == ChunkTo(from, to, scan.chunkSize) && events == provider.fetch(from, chunkTo)
    ensures from <= chunkTo <= to
    ensures AfterRange(reader, p, scan, provider, from, to)
         == var q := AfterChunk(reader, p, scan.key, from, chunkTo, events);
            if !Passes(reader, events) || chunkTo == to then q
            else AfterRange(reader, q, scan, provider, chunkTo + 1, to)
  {
    ChunksStep(from, to, scan.chunkSize);
  }

  /** What one chunk means for the range that it starts. */
  lemma RangeStep(reader: Reader, p: Progress, scan: CheckpointedScan, provider: EventProvider,
                  from: nat, to: nat, chunkTo: nat, events: Option<Accumulated>)
    requires from <= to && IsUint64(to) && scan.IsUint64()
    requires chunkTo == ChunkTo(from, to, scan.chunkSize) && events == provider.fetch(from, chunkTo)
    ensures from <= chunkTo <= to
    ensures var next, ok := AfterChunk(reader, p, scan.key, from, chunkTo, events), Passes(reader, events);
            EndsLike(reader, p, scan, provider, from, to, next, chunkTo, ok)
  {
    AllPassStep(reader, provider, from, to, scan.chunkSize, chunkTo);
    AfterRangeStep(reader, p, scan, provider, from, to, chunkTo, events);
  }

  /** The range from block `from` on has ended, or it ends like the rest of it behind `chunkTo`. */
  ghost predicate EndsLike(reader: Reader, p: Progress, scan: CheckpointedScan, provider: EventProvider,
                           from: nat, to: nat, next: Progress, chunkTo: nat, ok: bool)
    requires from <= to && IsUint64(to) && scan.IsUint64()
  {
    if ok && chunkTo < to then
      && AfterRange(reader, p, scan, provider, from, to) == AfterRange(reader, next, scan, provider, chunkTo + 1, to)
      && (AllPass(reader, provider, from, to, scan.chunkSize)
          <==> AllPass(reader, provider, chunkTo + 1, to, scan.chunkSize))
    else
      && AfterRange(reader, p, scan, provider, from, to) == next
      && (AllPass(reader, provider, from, to, scan.chunkSize) <==> ok)
  }

  /** From here on the range ends with this progress, and with or without an error. */
  ghost predicate LeadsTo(reader: Reader, p: Progress, scan: CheckpointedScan, provider: EventProvider,
                          from: nat, to: nat, end: Progress, all: bool)
    requires from <= to && IsUint64(to) && scan.IsUint64()
  {
    && from == StartBlock(p.saved, scan) && AfterRange(reader, p, scan, provider, from, to) == end
    && AllPass(reader, provider, from, to, scan.chunkSize) == all
  }

  /** The next chunk: fetched, imported, and only then behind the checkpoint. */
  method SyncChunk(checkpoints: CheckpointStore, state: FileStateStore, index: UtxoIndex, reader: Reader,
                   provider: EventProvider, scan: CheckpointedScan, from: nat, chunkTo: nat,
                   ghost h: Accumulated, ghost p: Progress)
    returns (ok: bool)
    requires reader.Valid() && SoundHistory(reader, h) && provider.Serves(h)
    requires IsAt(checkpoints, state, index, reader, scan, h, p) && from == StartBlock(p.saved, scan)
    requires from <= chunkTo < UINT64_LIMIT - 1
    modifies checkpoints, state, index
    ensures ok <==> Passes(reader, provider.fetch(from, chunkTo))
    ensures IsAt(checkpoints, state, index, reader, scan, h,
                 AfterChunk(reader, p, scan.key, from, chunkTo, provider.fetch(from, chunkTo)))
  {
    var events := provider.fetch(from, chunkTo);
    if events.None? {
      return false;
    }
    var imported := ImportWindow(state, index, reader, events.value, h, p.known, from, chunkTo, p.reach);
    if imported.Err? {
      return false;
    }
    checkpoints.SaveCheckpoint(scan.key, chunkTo + 1);
    return true;
  }

  method SyncNext(checkpoints: CheckpointStore, state: FileStateStore, index: UtxoIndex, reader: Reader,
                  provider: EventProvider, scan: CheckpointedScan, from: nat, to: nat,
                  ghost h: Accumulated, ghost p: Progress, ghost end: Progress, ghost all: bool)
    returns (ok: bool, chunkTo: nat, ghost next: Progress)
    requires reader.Valid() && SoundHistory(reader, h) && provider.Serves(h) && scan.IsUint64()
    requires IsAt(checkpoints, state, index, reader, scan, h, p)
    requires from <= to < UINT64_LIMIT - 1 && LeadsTo(reader, p, scan, provider, from, to, end, all)
    modifies checkpoints, state, index
    ensures from <= chunkTo <= to && IsAt(checkpoints, state, index, reader, scan, h, next)
    ensures if ok && chunkTo < to then LeadsTo(reader, next, scan, provider, chunkTo + 1, to, end, all)
            else next == end && ok == all
  {
    chunkTo := ChunkTo(from, to, scan.chunkSize);
    ghost var events := provider.fetch(from, chunkTo);
    RangeStep(reader, p, scan, provider, from, to, chunkTo, events);
    ok := SyncChunk(checkpoints, state, index, reader, provider, scan, from, chunkTo, h, p);
    next := AfterChunk(reader, p, scan.key, from, chunkTo, events);
  }

  /** All chunks of a range, until one does not get through. */
  method SyncRange(checkpoints: CheckpointStore, state: FileStateStore, index: UtxoIndex, reader: Reader,
                   provider: EventProvider, scan: CheckpointedScan, start: nat, to: nat,
                   ghost h: Accumulated, ghost p: Progress, ghost end: Progress, ghost all: bool)
    returns (ok: bool)
    requires reader.Valid() && SoundHistory(reader, h) && provider.Serves(h) && scan.IsUint64()
    requires IsAt(checkpoints, state, index, reader, scan, h, p)
    requires start <= to < UINT64_LIMIT - 1 && LeadsTo(reader, p, scan, provider, start, to, end, all)
    modifies checkpoints, state, index
    ensures ok == all && IsAt(checkpoints, state, index, reader, scan, h, end)
  {
    var from := start;
    ghost var q := p;
    while true
      invariant IsAt(checkpoints, state, index, reader, scan, h, q)
      invariant from <= to && LeadsTo(reader, q, scan, provider, from, to, end, all)
      decreases (to - from)
    {
      var chunkTo;
      ok, chunkTo, q := SyncNext(checkpoints, state, index, reader, provider, scan, from, to, h, q, end, all);
      if !ok || chunkTo == to {
        return;
      }
      from := chunkTo + 1;
    }
  }

  /** Nothing is due, or every chunk of what is due gets through. */
  ghost predicate SyncGetsThrough(reader: Reader, start: nat, scan: CheckpointedScan, provider: EventProvider,
                                  latest: nat)
    requires scan.IsUint64() && IsUint64(latest)
  {
    var to := FinalizedToBlock(latest, scan.confirmations);
    to.Some? && start <= to.value ==> AllPass(reader, provider, start, to.value, scan.chunkSize)
  }

  /** The head is known, and everything that is due gets through. */
  ghost predicate SyncSucceeds(reader: Reader, p: Progress, scan: CheckpointedScan, provider: EventProvider,
                               latest: Option<nat>)
    requires scan.IsUint64() && (latest.Some? ==> IsUint64(latest.value))
  {
    scan.key != "" && latest.Some? && SyncGetsThrough(reader, StartBlock(p.saved, scan), scan, provider, latest.value)
  }

  ghost function AfterSync(reader: Reader, p: Progress, scan: CheckpointedScan, provider: EventProvider,
                           latest: Option<nat>): Progress
    requires scan.IsUint64() && (latest.Some? ==> IsUint64(latest.value))
  {
    var start := StartBlock(p.saved, scan);
    var to := if scan.key == "" || latest.None? then None else FinalizedToBlock(latest.value, scan.confirmations);
    if to.None? || to.value < start then p else AfterRange(reader, p, scan, provider, start, to.value)
  }

  /** When something is due, a sync is the sync of a range. */
  lemma SyncIsRange(reader: Reader, p: Progress, scan: CheckpointedScan, provider: EventProvider, latest: Option<nat>,
                    to: nat)
    requires scan.IsUint64() && scan.key != "" && latest.Some? && IsUint64(latest.value)
    requires FinalizedToBlock(latest.value, scan.confirmations) == Some(to) && StartBlock(p.saved, scan) <= to
    requires to < UINT64_LIMIT - 1
    ensures var start := StartBlock(p.saved, scan);
            && AfterSync(reader, p, scan, provider, latest) == AfterRange(reader, p, scan, provider, start, to)
            && (SyncSucceeds(reader, p, scan, provider, latest)
                <==> AllPass(reader, provider, start, to, scan.chunkSize))
            && (SyncSucceeds(reader, p, scan, provider, latest) ==>
                  StartBlock(AfterSync(reader, p, scan, provider, latest).saved, scan) == to + 1)
    ensures Next(StartBlock(p.saved, scan), Some(to)) == to + 1
  {
    RangeEnds(reader, p, scan, provider, StartBlock(p.saved, scan), to);
  }

  /** When nothing is due, nothing changes. */
  lemma NothingIsDue(reader: Reader, p: Progress, scan: CheckpointedScan, provider: EventProvider, latest: Option<nat>)
    requires scan.IsUint64() && scan.key != "" && latest.Some? && IsUint64(latest.value)
    requires var to := FinalizedToBlock(latest.value, scan.confirmations);
             to.None? || to.value < StartBlock(p.saved, scan)
    ensures AfterSync(reader, p, scan, provider, latest) == p && SyncSucceeds(reader, p, scan, provider, latest)
    ensures Next(StartBlock(p.saved, scan), FinalizedToBlock(latest.value, scan.confirmations))
        == StartBlock(p.saved, scan)
  {
  }

  /** Scans and imports chunk by chunk. It succeeds exactly when the head is known and everything that is
      due gets through; whatever fails, the wallet has come as far as the chunks that did. */
  method SyncFromCheckpoint(checkpoints: CheckpointStore, state: FileStateStore, index: UtxoIndex, reader: Reader,
                            provider: EventProvider, latest: Option<nat>, scan: CheckpointedScan,
                            ghost h: Accumulated, ghost p: Progress)
    returns (r: Result<nat>)
    requires reader.Valid() && SoundHistory(reader, h) && provider.Serves(h) && scan.IsUint64()
    requires latest.Some? ==> latest.value < UINT64_LIMIT - 1
    requires IsAt(checkpoints, state, index, reader, scan, h, p)
    modifies checkpoints, state, index
    ensures IsAt(checkpoints, state, index, reader, scan, h, AfterSync(reader, p, scan, provider, latest))
    ensures r.Ok? <==> SyncSucceeds(reader, p, scan, provider, latest)
    ensures r.Ok? ==> r.value == StartBlock(checkpoints.checkpoints, scan)
                   == Next(StartBlock(p.saved, scan), FinalizedToBlock(latest.value, scan.confirmations))
  {
    if scan.key == "" {
      return Err("checkpoint key is required");
    }
    var loaded := checkpoints.LoadCheckpoint(scan.key);
    var from := if loaded.Some? then loaded.value else scan.startBlock;
    if latest.None? {
      return Err("block number");
    }
    var to := FinalizedToBlock(latest.value, scan.confirmations);
    if to.None? || to.value < from {
      NothingIsDue(reader, p, scan, provider, latest);
      return Ok(from);
    }
    SyncIsRange(reader, p, scan, provider, latest, to.value);
    r := SyncDue(checkpoints, state, index, reader, provider, scan, from, to.value, h, p);
  }

  method SyncDue(checkpoints: CheckpointStore, state: FileStateStore, index: UtxoIndex, reader: Reader,
                 provider: EventProvider, scan: CheckpointedScan, from: nat, to: nat, ghost h: Accumulated,
                 ghost p: Progress)
    returns (r: Result<nat>)
    requires reader.Valid() && SoundHistory(reader, h) && provider.Serves(h) && scan.IsUint64()
    requires IsAt(checkpoints, state, index, reader, scan, h, p)
    requires from == StartBlock(p.saved, scan) && from <= to < UINT64_LIMIT - 1
    modifies checkpoints, state, index
    ensures r.Ok? <==> AllPass(reader, provider, from, to, scan.chunkSize)
    ensures r.Ok? ==> r.value == to + 1
    ensures IsAt(checkpoints, state, index, reader, scan, h, AfterRange(reader, p, scan, provider, from, to))
  {
    ghost var end := AfterRange(reader, p, scan, provider, from, to);
    ghost var all := AllPass(reader, provider, from, to, scan.chunkSize);
    var ok := SyncRange(checkpoints, state, index, reader, provider, scan, from, to, h, p, end, all);
    if !ok {
      return Err("scan");
    }
    return Ok(to + 1);
  }

  predicate RangeIsRight(p: Progress, q: Progress, scan: CheckpointedScan, from: nat, to: nat, ok: bool) {
    && from <= StartBlock(q.saved, scan) <= to + 1
    && (StartBlock(q.saved, scan) == to + 1 <==> ok)
    && (p.IsSynced(scan) ==> q.IsSynced(scan))
    && p.reach <= q.reach <= Max(p.reach, to + 1)
  }

  /** A range moves the checkpoint on, to the end exactly when every chunk gets through; a wallet that was
      in step with its checkpoint stays so, and traces reach no further than the range. */
  lemma {:induction false} RangeEnds(reader: Reader, p: Progress, scan: CheckpointedScan, provider: EventProvider,
                                     from: nat, to: nat)
    requires from <= to && IsUint64(to) && scan.IsUint64() && from == StartBlock(p.saved, scan)
    ensures RangeIsRight(p, AfterRange(reader, p, scan, provider, from, to), scan, from, to,
                         AllPass(reader, provider, from, to, scan.chunkSize))
    decreases (to - from)
  {
    var chunkTo := ChunkTo(from, to, scan.chunkSize);
    var events := provider.fetch(from, chunkTo);
    var next := AfterChunk(reader, p, scan.key, from, chunkTo, events);
    RangeStep(reader, p, scan, provider, from, to, chunkTo, events);
    ChunkIsRight(reader, p, scan, from, chunkTo, events);
    if Passes(reader, events) && chunkTo < to {
      RangeEnds(reader, next, scan, provider, chunkTo + 1, to);
    }
  }

  lemma ChunkIsRight(reader: Reader, p: Progress, scan: CheckpointedScan, from: nat, chunkTo: nat,
                     events: Option<Accumulated>)
    requires from <= chunkTo && from == StartBlock(p.saved, scan)
    ensures RangeIsRight(p, AfterChunk(reader, p, scan.key, from, chunkTo, events), scan, from, chunkTo,
        Passes(reader, events))
  {
  }

  /** A sync never moves the checkpoint back, and keeps a wallet in step with it. When everything that is due
      gets through and no earlier attempt went further, nothing beyond the checkpoint has left a trace,
      whatever attempts failed before. */
  lemma SyncAdvances(reader: Reader, p: Progress, scan: CheckpointedScan, provider: EventProvider, latest: Option<nat>)
    requires scan.IsUint64() && (latest.Some? ==> IsUint64(latest.value))
    ensures var q := AfterSync(reader, p, scan, provider, latest);
            && StartBlock(p.saved, scan) <= StartBlock(q.saved, scan)
            && (p.IsSynced(scan) ==> q.IsSynced(scan))
            && (p.IsSynced(scan) && SyncSucceeds(reader, p, scan, provider, latest)
                && p.reach <= StartBlock(q.saved, scan) ==>
                  q.reach <= q.known)
  {
    if scan.key != "" && latest.Some? {
      var to := FinalizedToBlock(latest.value, scan.confirmations);
      if to.Some? && StartBlock(p.saved, scan) <= to.value {
        RangeEnds(reader, p, scan, provider, StartBlock(p.saved, scan), to.value);
      }
    }
  }

  /** When nothing beyond what is reflected has left a trace, the stored notes are exactly those that one
      import of all events before it gives. */
  lemma CleanIsExact(checkpoints: CheckpointStore, state: FileStateStore, index: UtxoIndex, reader: Reader,
                     scan: CheckpointedScan, h: Accumulated, p: Progress)
    requires SoundHistory(reader, h) && IsAt(checkpoints, state, index, reader, scan, h, p) && p.reach <= p.known
    ensures state.txos == Import(map[], Below(ChunkOf(reader, h), p.known))
  {
    SettledIsExact(state.txos, ChunkOf(reader, h), p.known);
  }

  // ----- Rolling back

  lemma IndexRollback(reader: Reader, g: Accumulated, h: Accumulated, next: nat, b: nat, m: CommitmentIndex,
                      k: NullifierIndex)
    requires SameBefore(g, h, b) && CommitmentsFollow(m, g, next) && NullifiersFollow(k, reader, g, next)
    requires SoundHistory(reader, g)
    ensures CommitmentsFollow(CommitmentsBefore(m, b), h, Min(next, b))
    ensures NullifiersFollow(NullifiersBefore(k, b), reader, h, Min(next, b))
  {
    forall c | c in h.commitments && c.blockNumber < Min(next, b)
      ensures (c.tree, c.position) in CommitmentsBefore(m, b)
    {
      assert c in g.commitments;
      assert m[(c.tree, c.position)] == c;
    }
    forall e | e in h.nullifiers && e.blockNumber < Min(next, b) && reader.format(e.nullifier).Some?
      ensures (e.tree, reader.format(e.nullifier).value) in NullifiersBefore(k, b)
    {
      assert e in g.nullifiers;
      assert k[(e.tree, reader.format(e.nullifier).value)] == e;
    }
  }

  /** Notes and index after a rollback. */
  method RollbackStores(state: FileStateStore, index: UtxoIndex, ghost reader: Reader, b: nat,
                        ghost g: Accumulated, ghost h: Accumulated, ghost known: nat, ghost reach: nat)
    requires SoundHistory(reader, g) && SoundHistory(reader, h) && SameBefore(g, h, b)
    requires InStep(state, index, reader, g, known) && BothSettled(state, index, reach)
    requires NotesAreIndexed(state.txos, index.commitments, reader)
    modifies state, index
    ensures InStep(state, index, reader, h, Min(known, b)) && BothSettled(state, index, Min(reach, b))
    ensures NotesAreIndexed(state.txos, index.commitments, reader)
  {
    CutIsIndexed(state.txos, index.commitments, reader, b);
    SameChunksBefore(reader, g, h, b);
    RollbackFollows(state.txos, ChunkOf(reader, g), ChunkOf(reader, h), known, b);
    CutSettlesBoth(state.txos, reach, b);
    IndexRollback(reader, g, h, known, b, index.commitments, index.nullifiers);
    state.RollbackToBlock(b);
    index.RollbackToBlock(b);
  }

  lemma CutSettlesBoth(w: Txos, reach: nat, b: nat)
    requires Settled(w, reach)
    ensures Settled(Cut(w, b), Min(reach, b))
  {
  }

  function AfterRollback(p: Progress, key: string, b: nat): Progress {
    Progress(if key == "" then p.saved else RolledBack(p.saved, key, b), Min(p.known, b), Min(p.reach, b))
  }

  /** Nothing that happened in the blocks from `from` on and before b is missing from notes and index. */
  ghost predicate MissesNothing(state: FileStateStore, index: UtxoIndex, reader: Reader, h: Accumulated, from: nat,
                                b: nat)
    reads state, index
  {
    && NotesMissNothing(state.txos, ChunkOf(reader, h), from, b)
    && (forall c | c in h.commitments && from <= c.blockNumber < b :: (c.tree, c.position) in index.commitments)
    && (forall e | e in h.nullifiers && from <= e.blockNumber < b && reader.format(e.nullifier).Some? ::
          (e.tree, reader.format(e.nullifier).value) in index.nullifiers)
  }

  ghost predicate NotesMissNothing(w: Txos, h: Chunk, from: nat, b: nat) {
    && (forall x | x in h.receipts && from <= x.blockNumber < b :: x.nullifier in w)
    && (forall s | s in h.spends && from <= s.blockNumber < b && s.nullifier in w :: w[s.nullifier].spendBlock.Some?)
  }

  lemma FurtherIff(state: FileStateStore, index: UtxoIndex, reader: Reader, h: Accumulated, from: nat, b: nat)
    requires InStep(state, index, reader, h, from) && from <= b
    ensures InStep(state, index, reader, h, b) <==> MissesNothing(state, index, reader, h, from, b)
  {
  }

  /** When the chain changes from block b on, a rollback to b leaves the wallet in step with the new chain up
      to b, or to where it was, if that is earlier. A rollback ahead of the start while no checkpoint is
      stored puts the checkpoint ahead as well: then the wallet is in step with it exactly when nothing
      that happened in between is missing. */
  method RollbackWalletSync(checkpoints: CheckpointStore, state: FileStateStore, index: UtxoIndex, reader: Reader,
                            scan: CheckpointedScan, b: nat, ghost g: Accumulated, ghost h: Accumulated,
                            ghost p: Progress)
    returns (ok: bool)
    requires SoundHistory(reader, g) && SoundHistory(reader, h) && SameBefore(g, h, b) && IsUint64(b)
    requires IsAt(checkpoints, state, index, reader, scan, g, p)
    modifies checkpoints, state, index
    ensures ok == (scan.key != "")
    ensures IsAt(checkpoints, state, index, reader, scan, h, AfterRollback(p, scan.key, b))
    ensures ok && p.IsSynced(scan) ==>
              (InStep(state, index, reader, h, StartBlock(checkpoints.checkpoints, scan))
               <==> scan.key in p.saved || b <= scan.startBlock
                    || MissesNothing(state, index, reader, h, scan.startBlock, b))
  {
    RollbackStores(state, index, reader, b, g, h, p.known, p.reach);
    ok := checkpoints.RollbackCheckpoint(scan.key, b);
    if p.IsSynced(scan) && scan.key !in p.saved && scan.startBlock < b {
      FurtherIff(state, index, reader, h, scan.startBlock, b);
    }
  }

  /** A wallet without notes and without an index is in step with a chain exactly before its first event, so
      the rollback of a new wallet ahead of its start loses every event in between. */
  lemma NewWalletIff(state: FileStateStore, index: UtxoIndex, reader: Reader, h: Accumulated, b: nat)
    requires state.txos == map[] && index.commitments == map[] && index.nullifiers == map[]
    ensures InStep(state, index, reader, h, b)
       <==> (forall c | c in h.commitments :: b <= c.blockNumber)
            && (forall e | e in h.nullifiers && reader.format(e.nullifier).Some? :: b <= e.blockNumber)
    ensures BothSettled(state, index, 0) && NotesAreIndexed(state.txos, index.commitments, reader)
  {
    if forall c | c in h.commitments :: b <= c.blockNumber {
      ReceiptsAre(reader, h.commitments);
    }
  }

  // ----- Runs

  /** What happens to a wallet: an attempt to sync, or a change of the chain from block b on. */
  datatype Step = Attempt(provider: EventProvider, latest: Option<nat>) | Reorg(b: nat, chain: Accumulated)

  function ChainAfter(h: Accumulated, steps: seq<Step>): Accumulated {
    if steps == [] then h
    else if steps[|steps| - 1].Reorg? then steps[|steps| - 1].chain
    else ChainAfter(h, steps[..|steps| - 1])
  }

  predicate HeadIsPossible(step: Step) {
    step.Attempt? && step.latest.Some? ==> step.latest.value < UINT64_LIMIT - 1
  }

  ghost predicate HeadsArePossible(steps: seq<Step>) {
    forall i | 0 <= i < |steps| :: HeadIsPossible(steps[i])
  }

  ghost predicate StepIsPossible(reader: Reader, h: Accumulated, step: Step) {
    match step
    case Attempt(provider, latest) => provider.Serves(h) && HeadIsPossible(step)
    case Reorg(b, chain) => SoundHistory(reader, chain) && SameBefore(h, chain, b) && IsUint64(b)
  }

  /** Nodes serve the chain of the moment, and a new chain agrees with the old one before b. */
  ghost predicate ArePossible(reader: Reader, h: Accumulated, steps: seq<Step>) {
    forall i | 0 <= i < |steps| :: StepIsPossible(reader, ChainAfter(h, steps[..i]), steps[i])
  }

  lemma ChainAfterNext(h: Accumulated, steps: seq<Step>, i: nat)
    requires i < |steps|
    ensures ChainAfter(h, steps[..i + 1]) == if steps[i].Reorg? then steps[i].chain else ChainAfter(h, steps[..i])
  {
    assert steps[..i + 1][..i] == steps[..i];
  }

  ghost function AfterStep(reader: Reader, p: Progress, scan: CheckpointedScan, step: Step): Progress
    requires scan.IsUint64() && HeadIsPossible(step)
  {
    match step
    case Attempt(provider, latest) => AfterSync(reader, p, scan, provider, latest)
    case Reorg(b, chain) => AfterRollback(p, scan.key, b)
  }

  /** How far a wallet has come after a run. */
  ghost function AfterSteps(reader: Reader, p: Progress, scan: CheckpointedScan, steps: seq<Step>): Progress
    requires scan.IsUint64() && HeadsArePossible(steps)
  {
    if steps == [] then p
    else AfterStep(reader, AfterSteps(reader, p, scan, steps[..|steps| - 1]), scan, steps[|steps| - 1])
  }

  lemma AfterNext(reader: Reader, p: Progress, scan: CheckpointedScan, steps: seq<Step>, i: nat)
    requires scan.IsUint64() && HeadsArePossible(steps) && i < |steps|
    ensures AfterSteps(reader, p, scan, steps[..i + 1])
        == AfterStep(reader, AfterSteps(reader, p, scan, steps[..i]), scan, steps[i])
  {
    assert steps[..i + 1][..i] == steps[..i];
  }

  method TakeStep(checkpoints: CheckpointStore, state: FileStateStore, index: UtxoIndex, reader: Reader,
                  scan: CheckpointedScan, step: Step, ghost h: Accumulated, ghost p: Progress)
    requires reader.Valid() && SoundHistory(reader, h) && StepIsPossible(reader, h, step)
    requires scan.IsUint64() && HeadIsPossible(step) && IsAt(checkpoints, state, index, reader, scan, h, p)
    modifies checkpoints, state, index
    ensures IsAt(checkpoints, state, index, reader, scan, if step.Reorg? then step.chain else h,
                 AfterStep(reader, p, scan, step))
  {
    match step
    case Attempt(provider, latest) =>
      var r := SyncFromCheckpoint(checkpoints, state, index, reader, provider, latest, scan, h, p);
    case Reorg(b, chain) =>
      var ok := RollbackWalletSync(checkpoints, state, index, reader, scan, b, h, chain, p);
  }

  /** Over every run of attempts that may fail anywhere and of reorganisations with their rollbacks, the wallet
      has come as far as AfterSteps says: the stored notes are, up to the block before which everything is
      reflected, those of one import of the chain of the moment, and they are exactly these when no
      attempt has fetched more. Every stored note has the tree, position, block and transaction of its
      commitment and what was decrypted from it, and the index holds that commitment at this place. */
  method RunSteps(checkpoints: CheckpointStore, state: FileStateStore, index: UtxoIndex, reader: Reader,
                  scan: CheckpointedScan, steps: seq<Step>, ghost h: Accumulated, ghost p: Progress)
    requires reader.Valid() && SoundHistory(reader, h) && ArePossible(reader, h, steps) && HeadsArePossible(steps)
    requires scan.IsUint64() && IsAt(checkpoints, state, index, reader, scan, h, p)
    modifies checkpoints, state, index
    ensures SoundHistory(reader, ChainAfter(h, steps))
    ensures IsAt(checkpoints, state, index, reader, scan, ChainAfter(h, steps), AfterSteps(reader, p, scan, steps))
    ensures var q, chain := AfterSteps(reader, p, scan, steps), ChainAfter(h, steps);
            && HoldsNotes(state.txos, reader, chain) && HoldsAllBefore(state.txos, reader, chain, q.known)
            && NotesAreIndexed(state.txos, index.commitments, reader)
    ensures var q := AfterSteps(reader, p, scan, steps);
            && Cut(state.txos, q.known) == Import(map[], Below(ChunkOf(reader, ChainAfter(h, steps)), q.known))
            && (q.reach <= q.known ==>
                  state.txos == Import(map[], Below(ChunkOf(reader, ChainAfter(h, steps)), q.known)))
  {
    for i := 0 to |steps|
      invariant SoundHistory(reader, ChainAfter(h, steps[..i]))
      invariant IsAt(checkpoints, state, index, reader, scan, ChainAfter(h, steps[..i]),
          AfterSteps(reader, p, scan, steps[..i]))
    {
      ChainAfterNext(h, steps, i);
      AfterNext(reader, p, scan, steps, i);
      assert StepIsPossible(reader, ChainAfter(h, steps[..i]), steps[i]);
      TakeStep(checkpoints, state, index, reader, scan, steps[i], ChainAfter(h, steps[..i]),
          AfterSteps(reader, p, scan, steps[..i]));
    }
    Seqs.Whole(steps);
    ghost var q := AfterSteps(reader, p, scan, steps);
    FollowingIsExact(state.txos, ChunkOf(reader, ChainAfter(h, steps)), q.known);
    FollowingHolds(state.txos, reader, ChainAfter(h, steps), q.known);
    if q.reach <= q.known {
      CleanIsExact(checkpoints, state, index, reader, scan, ChainAfter(h, steps), q);
    }
  }

  /** No rollback goes ahead of the start while no checkpoint is stored. */
  ghost predicate NeverSkips(reader: Reader, p: Progress, scan: CheckpointedScan, steps: seq<Step>)
    requires scan.IsUint64() && HeadsArePossible(steps)
  {
    scan.key != "" && forall i | 0 <= i < |steps| && steps[i].Reorg? ::
      scan.key in AfterSteps(reader, p, scan, steps[..i]).saved || steps[i].b <= scan.startBlock
  }

  /** One step keeps a wallet in step with its checkpoint exactly when it is no rollback that skips. */
  lemma StepKeepsSyncedIff(reader: Reader, p: Progress, scan: CheckpointedScan, step: Step)
    requires scan.IsUint64() && HeadIsPossible(step) && scan.key != "" && p.IsSynced(scan)
    ensures AfterStep(reader, p, scan, step).IsSynced(scan)
       <==> (step.Reorg? ==> scan.key in p.saved || step.b <= scan.startBlock)
  {
    if step.Attempt? {
      SyncAdvances(reader, p, scan, step.provider, step.latest);
    }
  }

  /** Over a run without such a rollback, everything before the checkpoint is reflected at the end. */
  lemma {:induction false} RunKeepsSynced(reader: Reader, p: Progress, scan: CheckpointedScan, steps: seq<Step>, n: nat)
    requires scan.IsUint64() && HeadsArePossible(steps) && n <= |steps|
    requires p.IsSynced(scan) && NeverSkips(reader, p, scan, steps)
    ensures AfterSteps(reader, p, scan, steps[..n]).IsSynced(scan)
  {
    if n > 0 {
      RunKeepsSynced(reader, p, scan, steps, n - 1);
      AfterNext(reader, p, scan, steps, n - 1);
      StepKeepsSyncedIff(reader, AfterSteps(reader, p, scan, steps[..n - 1]), scan, steps[n - 1]);
    }
  }
}
