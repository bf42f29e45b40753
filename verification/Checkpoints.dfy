/** Scans that remember where they stopped (pkg/events/checkpoint.go). */
module Checkpoints {
  import opened Wrappers
  import opened BlockScan
  import Seqs

  datatype CheckpointedScan = CheckpointedScan(key: string, startBlock: nat, chunkSize: nat, confirmations: nat) {
    predicate IsUint64() {
      BlockScan.IsUint64(startBlock) && BlockScan.IsUint64(chunkSize) && BlockScan.IsUint64(confirmations)
    }
  }

  /** The next block to scan, by scan. */
  type Saved = map<string, nat>

  ghost predicate AllUint64(saved: Saved) {
    forall key | key in saved :: IsUint64(saved[key])
  }

  class CheckpointStore {
    var checkpoints: Saved

    constructor ()
      ensures checkpoints == map[]
    {
      checkpoints := map[];
    }

    method LoadCheckpoint(key: string) returns (r: Option<nat>)
      ensures r == if key in checkpoints then Some(checkpoints[key]) else None
    {
      return if key in checkpoints then Some(checkpoints[key]) else None;
    }

    method SaveCheckpoint(key: string, nextBlock: nat)
      modifies this
      ensures checkpoints == old(checkpoints)[key := nextBlock]
    {
      checkpoints := checkpoints[key := nextBlock];
    }

    method RollbackCheckpoint(key: string, nextBlock: nat) returns (ok: bool)
      modifies this
      ensures ok == (key != "")
      ensures checkpoints == if ok then RolledBack(old(checkpoints), key, nextBlock) else old(checkpoints)
    {
      if key == "" {
        return false;
      }
      if key in checkpoints && nextBlock >= checkpoints[key] {
        return true;
      }
      checkpoints := checkpoints[key := nextBlock];
      return true;
    }
  }

  /** A known checkpoint moves back, if it moves; an unknown one is created. */
  function RolledBack(saved: Saved, key: string, nextBlock: nat): Saved {
    if key in saved && saved[key] <= nextBlock then saved else saved[key := nextBlock]
  }

  function StartBlock(saved: Saved, scan: CheckpointedScan): nat {
    if scan.key in saved then saved[scan.key] else scan.startBlock
  }

  /** A rollback sets the next block to the smaller one, exactly when the checkpoint is known or
      the rollback is not ahead of the block where the scan would start; otherwise it skips the
      blocks in between. */
  lemma RollbackTakesMinimumIff(saved: Saved, scan: CheckpointedScan, nextBlock: nat)
    ensures var before, after := StartBlock(saved, scan), StartBlock(RolledBack(saved, scan.key, nextBlock), scan);
            (after == (if nextBlock < before then nextBlock else before))
            <==> (scan.key in saved || nextBlock <= scan.startBlock)
    ensures forall key | key != scan.key && key in saved :: RolledBack(saved, scan.key, nextBlock)[key] == saved[key]
  {
  }

  /** The last block with enough confirmations, if the chain is long enough. */
  function FinalizedToBlock(latest: nat, confirmations: nat): Option<nat> {
    if latest < confirmations then None else Some(latest - confirmations)
  }

  /** The logs of the blocks from `start` on and before `next`. */
  function LogsBefore<T>(chain: Chain<T>, start: nat, next: nat): seq<T> {
    if next <= start then [] else LogsIn(chain, start, next - 1)
  }

  lemma LogsBeforeJoin<T>(chain: Chain<T>, start: nat, mid: nat, next: nat)
    requires start <= mid <= next
    ensures LogsBefore(chain, start, mid) + LogsBefore(chain, mid, next) == LogsBefore(chain, start, next)
  {
    if start < mid < next {
      LogsSplit(chain, start, mid - 1, next - 1);
    }
  }

  /** What a scan that gets through delivers, and where the next one starts: block numbers wrap
      around after the last one there is. */
  function Next(start: nat, to: Option<nat>): nat {
    if to.None? || to.value < start then start else (to.value + 1) % UINT64_LIMIT
  }

  /** Nothing is due, or no chunk of what is due fails. */
  predicate ScanGetsThrough(start: nat, latest: nat, fails: (nat, nat) -> bool, scan: CheckpointedScan)
    requires scan.IsUint64() && IsUint64(latest)
  {
    var to := FinalizedToBlock(latest, scan.confirmations);
    to.Some? && start <= to.value ==> NoneFails(fails, start, to.value, scan.chunkSize)
  }

  method ScanFromCheckpoint<T>(store: CheckpointStore, provider: Provider<T>, latest: Option<nat>,
                               scan: CheckpointedScan)
    returns (r: Result<(seq<T>, nat)>)
    requires scan.IsUint64() && AllUint64(store.checkpoints)
    requires latest.Some? ==> IsUint64(latest.value)
    modifies store
    ensures AllUint64(store.checkpoints)
    ensures r.Ok? <==> scan.key != "" && latest.Some?
                       && ScanGetsThrough(StartBlock(old(store.checkpoints), scan), latest.value, provider.fails, scan)
    ensures r.Err? ==> store.checkpoints == old(store.checkpoints)
    ensures r.Ok? ==>
      var start := StartBlock(old(store.checkpoints), scan);
      var to := FinalizedToBlock(latest.value, scan.confirmations);
      && r.value.1 == Next(start, to)
      && if to.None? || to.value < start then r.value.0 == [] && store.checkpoints == old(store.checkpoints)
         else r.value.0 == LogsIn(provider.chain, start, to.value)
              && store.checkpoints == old(store.checkpoints)[scan.key := Next(start, to)]
  {
    if scan.key == "" {
      return Err("checkpoint key is required");
    }
    var saved := store.LoadCheckpoint(scan.key);
    var from := if saved.Some? then saved.value else scan.startBlock;
    if latest.None? {
      return Err("block number");
    }
    var to := FinalizedToBlock(latest.value, scan.confirmations);
    if to.None? || to.value < from {
      return Ok(([], from));
    }
    var logs := ScanLogChunks(provider, from, to.value, scan.chunkSize);
    if logs.Err? {
      return Err("scan");
    }
    var next := (to.value + 1) % UINT64_LIMIT;
    store.SaveCheckpoint(scan.key, next);
    return Ok((logs.value, next));
  }

  /** One attempt to scan: the head of the chain, if it is known, and the ranges that fail. */
  datatype Attempt = Attempt(latest: Option<nat>, fails: (nat, nat) -> bool) {
    /** The head is before the last block number there is. */
    predicate IsPossible() {
      latest.Some? ==> latest.value < UINT64_LIMIT - 1
    }
  }

  /** Where the checkpoint is after an attempt. */
  function AfterAttempt(start: nat, a: Attempt, scan: CheckpointedScan): nat
    requires scan.IsUint64() && a.IsPossible()
  {
    if scan.key != "" && a.latest.Some? && ScanGetsThrough(start, a.latest.value, a.fails, scan)
    then Next(start, FinalizedToBlock(a.latest.value, scan.confirmations))
    else start
  }

  ghost predicate AllPossible(attempts: seq<Attempt>) {
    forall a | a in attempts :: a.IsPossible()
  }

  ghost function AfterAttempts(start: nat, attempts: seq<Attempt>, scan: CheckpointedScan): nat
    requires scan.IsUint64() && AllPossible(attempts)
  {
    if attempts == [] then start
    else AfterAttempt(AfterAttempts(start, attempts[..|attempts| - 1], scan), attempts[|attempts| - 1], scan)
  }

  /** An attempt never moves back, and none goes beyond the blocks with enough confirmations. */
  lemma AttemptAdvances(start: nat, a: Attempt, scan: CheckpointedScan)
    requires scan.IsUint64() && a.IsPossible()
    ensures start <= AfterAttempt(start, a, scan)
    ensures AfterAttempt(start, a, scan) > start ==>
              a.latest.Some? && AfterAttempt(start, a, scan) == a.latest.value - scan.confirmations + 1
    ensures scan.key != "" && a.latest.Some? && ScanGetsThrough(start, a.latest.value, a.fails, scan) ==>
              AfterAttempt(start, a, scan) > a.latest.value - scan.confirmations
  {
  }

  /** The checkpoint never moves back over a run. */
  lemma {:induction false} AttemptsAdvance(start: nat, attempts: seq<Attempt>, scan: CheckpointedScan, i: nat)
    requires scan.IsUint64() && AllPossible(attempts) && i <= |attempts|
    ensures AfterAttempts(start, attempts[..i], scan) <= AfterAttempts(start, attempts, scan)
    decreases |attempts| - i
  {
    if i < |attempts| {
      assert attempts[..i + 1][..i] == attempts[..i];
      AttemptAdvances(AfterAttempts(start, attempts[..i], scan), attempts[i], scan);
      AttemptsAdvance(start, attempts, scan, i + 1);
    } else {
      Seqs.Whole(attempts);
    }
  }

  /** One attempt that gets through is enough: whatever the others do, everything with enough
      confirmations at its head has been delivered at the end. */
  lemma OneSuccessDelivers(start: nat, attempts: seq<Attempt>, scan: CheckpointedScan, i: nat)
    requires scan.IsUint64() && scan.key != "" && AllPossible(attempts) && i < |attempts|
    requires attempts[i].IsPossible() && attempts[i].latest.Some?
    requires var from := AfterAttempts(start, attempts[..i], scan);
             ScanGetsThrough(from, attempts[i].latest.value, attempts[i].fails, scan)
    ensures AfterAttempts(start, attempts, scan) > attempts[i].latest.value - scan.confirmations
  {
    assert attempts[..i + 1][..i] == attempts[..i];
    AttemptAdvances(AfterAttempts(start, attempts[..i], scan), attempts[i], scan);
    AttemptsAdvance(start, attempts, scan, i + 1);
  }

  /** Nothing with too few confirmations is ever delivered. */
  lemma {:induction false} OnlyConfirmed(start: nat, attempts: seq<Attempt>, scan: CheckpointedScan)
    requires scan.IsUint64() && AllPossible(attempts)
    ensures start <= AfterAttempts(start, attempts, scan)
    ensures AfterAttempts(start, attempts, scan) > start ==>
              exists a :: a in attempts && a.latest.Some?
                && AfterAttempts(start, attempts, scan) == a.latest.value - scan.confirmations + 1
  {
    if attempts != [] {
      OnlyConfirmed(start, attempts[..|attempts| - 1], scan);
      AttemptAdvances(AfterAttempts(start, attempts[..|attempts| - 1], scan), attempts[|attempts| - 1], scan);
    }
  }

  /** Over any run of attempts, failed or not, with any heads before the last block number there
      is: every block from the start up to the next one is delivered exactly once and in order. */
  method RunScans<T>(store: CheckpointStore, chain: Chain<T>, attempts: seq<Attempt>, scan: CheckpointedScan)
    returns (delivered: seq<T>)
    requires scan.IsUint64() && AllUint64(store.checkpoints) && AllPossible(attempts)
    modifies store
    ensures AllUint64(store.checkpoints)
    ensures var start, next := StartBlock(old(store.checkpoints), scan), StartBlock(store.checkpoints, scan);
            && next == AfterAttempts(start, attempts, scan) && start <= next
            && delivered == LogsBefore(chain, start, next)
            && (next > start ==>
                  exists a :: a in attempts && a.latest.Some? && next == a.latest.value - scan.confirmations + 1)
  {
    delivered := [];
    ghost var start := StartBlock(store.checkpoints, scan);
    for i := 0 to |attempts|
      invariant AllUint64(store.checkpoints)
      invariant StartBlock(store.checkpoints, scan) == AfterAttempts(start, attempts[..i], scan) >= start
      invariant delivered == LogsBefore(chain, start, StartBlock(store.checkpoints, scan))
    {
      assert attempts[..i + 1][..i] == attempts[..i];
      delivered := ScanOnce(store, chain, attempts[i], scan, start, delivered);
    }
    Seqs.Whole(attempts);
    OnlyConfirmed(start, attempts, scan);
  }

  method ScanOnce<T>(store: CheckpointStore, chain: Chain<T>, a: Attempt, scan: CheckpointedScan, ghost start: nat,
                     delivered: seq<T>)
    returns (more: seq<T>)
    requires scan.IsUint64() && AllUint64(store.checkpoints) && a.IsPossible()
    requires start <= StartBlock(store.checkpoints, scan)
    requires delivered == LogsBefore(chain, start, StartBlock(store.checkpoints, scan))
    modifies store
    ensures AllUint64(store.checkpoints)
    ensures StartBlock(store.checkpoints, scan) >= start
    ensures StartBlock(store.checkpoints, scan) == AfterAttempt(StartBlock(old(store.checkpoints), scan), a, scan)
    ensures more == LogsBefore(chain, start, StartBlock(store.checkpoints, scan))
  {
    ghost var from := StartBlock(store.checkpoints, scan);
    AttemptAdvances(from, a, scan);
    var r := ScanFromCheckpoint(store, Provider(chain, a.fails), a.latest, scan);
    if r.Err? {
      return delivered;
    }
    LogsBeforeJoin(chain, start, from, StartBlock(store.checkpoints, scan));
    return delivered + r.value.0;
  }

  /** Once the last block number there is counts as confirmed, the stored checkpoint is block 0, and the
      next scan delivers every block from 0 on, those of the first scan among them. */
  method LastBlockWrapsAround<T>(store: CheckpointStore, chain: Chain<T>, scan: CheckpointedScan, last: nat)
    returns (first: Result<(seq<T>, nat)>, second: Result<(seq<T>, nat)>)
    requires scan.IsUint64() && scan.key != "" && scan.confirmations == 0 && AllUint64(store.checkpoints)
    requires last == UINT64_LIMIT - 1
    modifies store
    ensures var start := StartBlock(old(store.checkpoints), scan);
            && store.checkpoints == old(store.checkpoints)[scan.key := 0]
            && first == Ok((LogsIn(chain, start, last), 0)) && second == Ok((LogsIn(chain, 0, last), 0))
            && second.value.0 == LogsBefore(chain, 0, start) + first.value.0
  {
    ghost var start := StartBlock(store.checkpoints, scan);
    first := ScanToLast(store, chain, scan, last);
    second := ScanToLast(store, chain, scan, last);
    assert start <= last;
    LogsBeforeJoin(chain, 0, start, last + 1);
  }

  method ScanToLast<T>(store: CheckpointStore, chain: Chain<T>, scan: CheckpointedScan, last: nat)
    returns (r: Result<(seq<T>, nat)>)
    requires scan.IsUint64() && scan.key != "" && scan.confirmations == 0 && AllUint64(store.checkpoints)
    requires last == UINT64_LIMIT - 1
    modifies store
    ensures AllUint64(store.checkpoints)
    ensures r == Ok((LogsIn(chain, StartBlock(old(store.checkpoints), scan), last), 0))
    ensures store.checkpoints == old(store.checkpoints)[scan.key := 0]
  {
    r := ScanFromCheckpoint(store, Provider(chain, (from, to) => false), Some(last), scan);
  }
}
