/** Scanning block ranges in chunks of 64-bit block numbers, and the checkpoints of scans
    (scanLogChunks in pkg/events/scanner.go, pkg/events/checkpoint.go). */
module BlockScan {
  import opened Wrappers
  import Seqs

  const UINT64_LIMIT: nat := 0x1_0000_0000_0000_0000

  predicate IsUint64(n: nat) {
    n < UINT64_LIMIT
  }

  /** The last block of the chunk that starts at `from`; the sum wraps around at 64 bits. */
  function ChunkTo(from: nat, to: nat, chunkSize: nat): nat {
    if chunkSize == 0 then to
    else
      var chunkTo := (from + chunkSize - 1) % UINT64_LIMIT;
      if chunkTo < from || chunkTo > to then to else chunkTo
  }

  /** Despite the wrap-around, a chunk starts where it should, stays within the range and has
      at most the chunk size; only the last one may be smaller. */
  lemma ChunkToIsRight(from: nat, to: nat, chunkSize: nat)
    requires IsUint64(from) && IsUint64(to) && IsUint64(chunkSize) && from <= to
    ensures from <= ChunkTo(from, to, chunkSize) <= to
    ensures chunkSize > 0 ==>
              ChunkTo(from, to, chunkSize) == if from + chunkSize - 1 <= to then from + chunkSize - 1 else to
  {
    if chunkSize > 0 && from + chunkSize - 1 >= UINT64_LIMIT {
      assert (from + chunkSize - 1) % UINT64_LIMIT == from + chunkSize - 1 - UINT64_LIMIT;
    }
  }

  // ----- Logs of a chain

  /** The logs of every block, in order. */
  type Chain<T> = nat -> seq<T>

  function LogsIn<T>(chain: Chain<T>, from: nat, to: nat): seq<T>
    decreases (to - from)
  {
    if to < from then [] else if to == from then chain(from) else chain(from) + LogsIn(chain, from + 1, to)
  }

  lemma {:induction false} LogsSplit<T>(chain: Chain<T>, from: nat, mid: nat, to: nat)
    requires from <= mid < to
    ensures LogsIn(chain, from, mid) + LogsIn(chain, mid + 1, to) == LogsIn(chain, from, to)
    decreases mid - from
  {
    if from < mid {
      LogsSplit(chain, from + 1, mid, to);
      Seqs.Assoc(chain(from), LogsIn(chain, from + 1, mid), LogsIn(chain, mid + 1, to));
    }
  }

  /** The logs of the blocks `from` to `to`, one block after the other. */
  function BlocksFlat<T>(blocks: seq<seq<T>>): seq<T> {
    if blocks == [] then [] else BlocksFlat(blocks[..|blocks| - 1]) + blocks[|blocks| - 1]
  }

  /** The logs of a range are those of its first block, of the second, and so on to the last. */
  lemma {:induction false} LogsAreInOrder<T>(chain: Chain<T>, from: nat, blocks: seq<seq<T>>)
    requires blocks != [] && forall k | 0 <= k < |blocks| :: blocks[k] == chain(from + k)
    ensures LogsIn(chain, from, from + |blocks| - 1) == BlocksFlat(blocks)
  {
    var n := |blocks| - 1;
    if n == 0 {
      assert blocks[..0] == [];
      assert BlocksFlat(blocks) == [] + blocks[0];
    } else {
      LogsAreInOrder(chain, from, blocks[..n]);
      LogsSplit(chain, from, from + n - 1, from + n);
    }
  }

  // ----- Chunks

  datatype LogChunk = LogChunk(fromBlock: nat, toBlock: nat)

  /** The chunks lie end to end and cover the range from `from` to `to`. */
  ghost predicate Tiles(chunks: seq<LogChunk>, from: nat, to: nat) {
    && (forall c | c in chunks :: c.fromBlock <= c.toBlock)
    && (if chunks == [] then to + 1 == from
        else
          && chunks[0].fromBlock == from && chunks[|chunks| - 1].toBlock == to
          && forall i | 0 < i < |chunks| :: chunks[i].fromBlock == chunks[i - 1].toBlock + 1)
  }

  lemma {:induction false} TilesAreOrdered(chunks: seq<LogChunk>, from: nat, to: nat, i: nat, j: nat)
    requires Tiles(chunks, from, to) && i < j < |chunks|
    ensures chunks[i].toBlock < chunks[j].fromBlock
    decreases j
  {
    assert chunks[j].fromBlock == chunks[j - 1].toBlock + 1;
    if i < j - 1 {
      TilesAreOrdered(chunks, from, to, i, j - 1);
      assert chunks[j - 1] in chunks;
    }
  }

  lemma {:induction false} BlockIsCovered(chunks: seq<LogChunk>, from: nat, to: nat, block: nat, k: nat)
    returns (i: nat)
    requires Tiles(chunks, from, to) && k < |chunks| && from <= block <= chunks[k].toBlock
    ensures i <= k && chunks[i].fromBlock <= block <= chunks[i].toBlock
  {
    if chunks[k].fromBlock <= block {
      i := k;
    } else {
      i := BlockIsCovered(chunks, from, to, block, k - 1);
    }
  }

  lemma {:induction false} ChunkInRange(chunks: seq<LogChunk>, from: nat, to: nat, i: nat)
    requires Tiles(chunks, from, to) && i < |chunks|
    ensures from <= chunks[i].fromBlock <= chunks[i].toBlock <= to
  {
    assert chunks[i] in chunks;
    if i > 0 {
      TilesAreOrdered(chunks, from, to, 0, i);
      assert chunks[0] in chunks;
    }
    if i < |chunks| - 1 {
      TilesAreOrdered(chunks, from, to, i, |chunks| - 1);
      assert chunks[|chunks| - 1] in chunks;
    }
  }

  /** Every block of the range lies in exactly one chunk, and no other block in any. */
  lemma TilesPartition(chunks: seq<LogChunk>, from: nat, to: nat, block: nat)
    requires Tiles(chunks, from, to) && from <= to
    ensures from <= block <= to <==> exists i :: 0 <= i < |chunks| && chunks[i].fromBlock <= block <= chunks[i].toBlock
    ensures forall i, j | 0 <= i < j < |chunks| :: chunks[i].toBlock < chunks[j].fromBlock
  {
    if from <= block <= to {
      var i := BlockIsCovered(chunks, from, to, block, |chunks| - 1);
    }
    if i :| 0 <= i < |chunks| && chunks[i].fromBlock <= block <= chunks[i].toBlock {
      ChunkInRange(chunks, from, to, i);
    }
    forall i, j | 0 <= i < j < |chunks| ensures chunks[i].toBlock < chunks[j].fromBlock {
      TilesAreOrdered(chunks, from, to, i, j);
    }
  }

  lemma LogsJoin<T>(chain: Chain<T>, next: nat, chunkTo: nat, to: nat, logs: seq<T>)
    requires next <= chunkTo <= to
    ensures logs + LogsIn(chain, next, to)
         == if chunkTo == to then logs + LogsIn(chain, next, chunkTo)
            else logs + LogsIn(chain, next, chunkTo) + LogsIn(chain, chunkTo + 1, to)
  {
    if chunkTo < to {
      LogsSplit(chain, next, chunkTo, to);
      Seqs.Assoc(logs, LogsIn(chain, next, chunkTo), LogsIn(chain, chunkTo + 1, to));
    }
  }

  /** The chunks in which a range is fetched. */
  function ChunksOf(from: nat, to: nat, chunkSize: nat): (r: seq<LogChunk>)
    requires from <= to && IsUint64(to) && IsUint64(chunkSize)
    ensures r != []
    decreases (to - from)
  {
    ChunkToIsRight(from, to, chunkSize);
    var chunkTo := ChunkTo(from, to, chunkSize);
    if chunkTo == to then [LogChunk(from, to)]
    else [LogChunk(from, chunkTo)] + ChunksOf(chunkTo + 1, to, chunkSize)
  }

  /** All but the last have exactly the chunk size, and that one has at most this size; a size of zero
      stands for one chunk. */
  ghost predicate AreFull(chunks: seq<LogChunk>, chunkSize: nat) {
    if chunkSize == 0 then |chunks| == 1
    else forall i | 0 <= i < |chunks| ::
      if i < |chunks| - 1 then chunks[i].toBlock == chunks[i].fromBlock + chunkSize - 1
      else chunks[i].toBlock <= chunks[i].fromBlock + chunkSize - 1
  }

  /** They lie end to end; all but the last have exactly the chunk size. */
  lemma {:induction false} ChunksTile(from: nat, to: nat, chunkSize: nat)
    requires from <= to && IsUint64(to) && IsUint64(chunkSize)
    ensures Tiles(ChunksOf(from, to, chunkSize), from, to) && AreFull(ChunksOf(from, to, chunkSize), chunkSize)
    decreases (to - from)
  {
    ChunksStep(from, to, chunkSize);
    var chunkTo := ChunkTo(from, to, chunkSize);
    if chunkTo < to {
      var rest := ChunksOf(chunkTo + 1, to, chunkSize);
      ChunksTile(chunkTo + 1, to, chunkSize);
      PutInFront(from, chunkTo, rest, to, chunkSize);
    } else {
      OneTile(LogChunk(from, to), chunkSize);
    }
  }

  lemma ChunksStep(from: nat, to: nat, chunkSize: nat)
    requires from <= to && IsUint64(to) && IsUint64(chunkSize)
    ensures var chunkTo := ChunkTo(from, to, chunkSize);
            && from <= chunkTo <= to
            && (chunkTo < to ==> chunkSize > 0 && chunkTo == from + chunkSize - 1)
            && (chunkSize > 0 ==> chunkTo <= from + chunkSize - 1)
            && ChunksOf(from, to, chunkSize)
               == [LogChunk(from, chunkTo)] + if chunkTo == to then [] else ChunksOf(chunkTo + 1, to, chunkSize)
  {
    ChunkToIsRight(from, to, chunkSize);
  }

  lemma PutInFront(from: nat, chunkTo: nat, rest: seq<LogChunk>, to: nat, chunkSize: nat)
    requires from <= chunkTo && chunkSize > 0 && chunkTo == from + chunkSize - 1 && rest != []
    requires Tiles(rest, chunkTo + 1, to) && AreFull(rest, chunkSize)
    ensures Tiles([LogChunk(from, chunkTo)] + rest, from, to) && AreFull([LogChunk(from, chunkTo)] + rest, chunkSize)
  {
    TilesCons(LogChunk(from, chunkTo), rest, to);
    FullCons(LogChunk(from, chunkTo), rest, chunkSize);
  }

  lemma OneTile(c: LogChunk, chunkSize: nat)
    requires c.fromBlock <= c.toBlock && (chunkSize > 0 ==> c.toBlock <= c.fromBlock + chunkSize - 1)
    ensures Tiles([c], c.fromBlock, c.toBlock) && AreFull([c], chunkSize)
  {
  }

  lemma TilesCons(first: LogChunk, rest: seq<LogChunk>, to: nat)
    requires first.fromBlock <= first.toBlock && rest != [] && Tiles(rest, first.toBlock + 1, to)
    ensures Tiles([first] + rest, first.fromBlock, to)
  {
  }

  lemma FullCons(first: LogChunk, rest: seq<LogChunk>, chunkSize: nat)
    requires chunkSize > 0 && first.toBlock == first.fromBlock + chunkSize - 1 && rest != [] && AreFull(rest, chunkSize)
    ensures AreFull([first] + rest, chunkSize)
  {
  }

  /** None of the chunks of a range fails. */
  predicate NoneFails(fails: (nat, nat) -> bool, from: nat, to: nat, chunkSize: nat)
    requires from <= to && IsUint64(to) && IsUint64(chunkSize)
  {
    NoneFailsIn(fails, ChunksOf(from, to, chunkSize))
  }

  predicate NoneFailsIn(fails: (nat, nat) -> bool, chunks: seq<LogChunk>) {
    forall c | c in chunks :: !fails(c.fromBlock, c.toBlock)
  }

  lemma NoneFailsStep(fails: (nat, nat) -> bool, from: nat, to: nat, chunkSize: nat, chunkTo: nat)
    requires from <= to && IsUint64(to) && IsUint64(chunkSize) && chunkTo == ChunkTo(from, to, chunkSize)
    ensures from <= chunkTo <= to
    ensures NoneFails(fails, from, to, chunkSize)
       <==> !fails(from, chunkTo) && (chunkTo < to ==> NoneFails(fails, chunkTo + 1, to, chunkSize))
  {
    ChunksStep(from, to, chunkSize);
    var rest := if chunkTo == to then [] else ChunksOf(chunkTo + 1, to, chunkSize);
    NoneFailsCons(fails, LogChunk(from, chunkTo), rest, ChunksOf(from, to, chunkSize));
  }

  lemma NoneFailsCons(fails: (nat, nat) -> bool, first: LogChunk, rest: seq<LogChunk>, all: seq<LogChunk>)
    requires all == [first] + rest
    ensures NoneFailsIn(fails, all) <==> !fails(first.fromBlock, first.toBlock) && NoneFailsIn(fails, rest)
  {
    assert forall c :: c in all <==> c == first || c in rest;
  }

  /** What a provider of logs answers: the logs of a range, or an error. */
  datatype Provider<!T> = Provider(chain: Chain<T>, fails: (nat, nat) -> bool)

  /** The next chunk of a range: what is fetched, and what is left to fetch. */
  method FetchChunk<T>(provider: Provider<T>, next: nat, to: nat, chunkSize: nat, logs: seq<T>)
    returns (ok: bool, chunkTo: nat, more: seq<T>)
    requires next <= to && IsUint64(to) && IsUint64(chunkSize)
    ensures next <= chunkTo <= to
    ensures NoneFails(provider.fails, next, to, chunkSize)
       <==> ok && (chunkTo < to ==> NoneFails(provider.fails, chunkTo + 1, to, chunkSize))
    ensures ok ==> (logs + LogsIn(provider.chain, next, to)
                    == if chunkTo == to then more else more + LogsIn(provider.chain, chunkTo + 1, to))
  {
    chunkTo := ChunkTo(next, to, chunkSize);
    NoneFailsStep(provider.fails, next, to, chunkSize, chunkTo);
    if provider.fails(next, chunkTo) {
      return false, chunkTo, logs;
    }
    LogsJoin(provider.chain, next, chunkTo, to, logs);
    return true, chunkTo, logs + LogsIn(provider.chain, next, chunkTo);
  }

  /** Fetches chunk by chunk; it succeeds exactly when no chunk fails, and then delivers the whole range. */
  method ScanLogChunks<T>(provider: Provider<T>, from: nat, to: nat, chunkSize: nat) returns (r: Result<seq<T>>)
    requires IsUint64(from) && IsUint64(to) && IsUint64(chunkSize)
    ensures r.Ok? <==> from <= to && NoneFails(provider.fails, from, to, chunkSize)
    ensures r.Ok? ==> r.value == LogsIn(provider.chain, from, to)
  {
    if to < from {
      return Err("toBlock must be greater than or equal to fromBlock");
    }
    var logs: seq<T>, next := [], from;
    ghost var all, clear := LogsIn(provider.chain, from, to), NoneFails(provider.fails, from, to, chunkSize);
    assert logs + all == all;
    while true
      invariant from <= next <= to && NoneFails(provider.fails, next, to, chunkSize) == clear
      invariant logs + LogsIn(provider.chain, next, to) == all
      decreases (to - next)
    {
      var ok, chunkTo, more := FetchChunk(provider, next, to, chunkSize, logs);
      if !ok {
        return Err("filter logs");
      }
      if chunkTo == to {
        return Ok(more);
      }
      logs, next := more, chunkTo + 1;
    }
  }
}
