/** What importing chain events and rolling back do to the stored notes of a wallet
    (UpsertTXO, markTXOSpent and RollbackToBlock in pkg/wallet/file_state_store.go, and the
    order in which pkg/wallet/importer.go calls them). */
module WalletLedger {
  import opened Wrappers

  /** A stored note, by its nullifier; spent when it carries a spending transaction. */
  datatype TXO = TXO(nullifier: string, txidVersion: string, tree: nat, position: nat, txid: string,
                     blockNumber: nat, tokenHash: string, value: nat, noteRandom: string,
                     spendTxid: string, spendBlock: Option<nat>)

  /** A nullifier seen on chain: the note it belongs to has been spent. */
  datatype Spend = Spend(nullifier: string, txid: string, blockNumber: nat)

  type Txos = map<string, TXO>

  /** The notes received and the nullifiers seen in some blocks. */
  datatype Chunk = Chunk(receipts: seq<TXO>, spends: seq<Spend>)

  function Get(w: Txos, n: string): Option<TXO> {
    if n in w then Some(w[n]) else None
  }

  function Mark(txo: TXO, spendTxid: string, spendBlock: Option<nat>): TXO {
    txo.(spendTxid := spendTxid, spendBlock := spendBlock)
  }

  function MarkSpent(txo: TXO, s: Spend): TXO {
    Mark(txo, s.txid, Some(s.blockNumber))
  }

  function UpsertAll(w: Txos, receipts: seq<TXO>): Txos {
    if receipts == [] then w
    else
      var last := receipts[|receipts| - 1];
      UpsertAll(w, receipts[..|receipts| - 1])[last.nullifier := last]
  }

  function MarkIn(w: Txos, s: Spend): Txos {
    if s.nullifier in w then w[s.nullifier := MarkSpent(w[s.nullifier], s)] else w
  }

  function MarkAll(w: Txos, spends: seq<Spend>): Txos {
    if spends == [] then w else MarkIn(MarkAll(w, spends[..|spends| - 1]), spends[|spends| - 1])
  }

  /** First all notes, then all nullifiers. */
  function Import(w: Txos, c: Chunk): Txos {
    MarkAll(UpsertAll(w, c.receipts), c.spends)
  }

  /** What a rollback does to one note. */
  function CutOne(o: Option<TXO>, fromBlock: nat): Option<TXO> {
    if o.None? || o.value.blockNumber >= fromBlock then None
    else if o.value.spendBlock.Some? && o.value.spendBlock.value >= fromBlock then Some(Mark(o.value, "", None))
    else o
  }

  function Cut(w: Txos, fromBlock: nat): Txos {
    map n | n in w && w[n].blockNumber < fromBlock :: CutOne(Some(w[n]), fromBlock).value
  }

  lemma CutAt(w: Txos, fromBlock: nat, n: string)
    ensures Get(Cut(w, fromBlock), n) == CutOne(Get(w, n), fromBlock)
  {
  }

  lemma SameTxos(v: Txos, w: Txos)
    requires forall n :: Get(v, n) == Get(w, n)
    ensures v == w
  {
    forall n ensures (n in v <==> n in w) && (n in v ==> v[n] == w[n]) {
      assert Get(v, n) == Get(w, n);
    }
  }

  // ----- One note at a time

  function LastReceipt(receipts: seq<TXO>, n: string): (r: Option<TXO>)
    ensures r.Some? ==> r.value in receipts && r.value.nullifier == n
    ensures r.None? ==> forall x | x in receipts :: x.nullifier != n
  {
    if receipts == [] then None
    else if receipts[|receipts| - 1].nullifier == n then Some(receipts[|receipts| - 1])
    else LastReceipt(receipts[..|receipts| - 1], n)
  }

  function LastSpend(spends: seq<Spend>, n: string): (r: Option<Spend>)
    ensures r.Some? ==> r.value in spends && r.value.nullifier == n
    ensures r.None? ==> forall x | x in spends :: x.nullifier != n
  {
    if spends == [] then None
    else if spends[|spends| - 1].nullifier == n then Some(spends[|spends| - 1])
    else LastSpend(spends[..|spends| - 1], n)
  }

  function Or<T>(a: Option<T>, b: Option<T>): Option<T> {
    if a.Some? then a else b
  }

  function Marked(o: Option<TXO>, s: Option<Spend>): Option<TXO> {
    if o.None? || s.None? then o else Some(MarkSpent(o.value, s.value))
  }

  lemma {:induction false} UpsertAllAt(w: Txos, receipts: seq<TXO>, n: string)
    ensures Get(UpsertAll(w, receipts), n) == Or(LastReceipt(receipts, n), Get(w, n))
  {
    if receipts != [] {
      UpsertAllAt(w, receipts[..|receipts| - 1], n);
    }
  }

  lemma {:induction false} MarkAllAt(w: Txos, spends: seq<Spend>, n: string)
    ensures Get(MarkAll(w, spends), n) == Marked(Get(w, n), LastSpend(spends, n))
  {
    if spends != [] {
      MarkAllAt(w, spends[..|spends| - 1], n);
    }
  }

  /** Importing leaves the last receipt of a note, or the note as it was, marked with the last
      spend that was seen. */
  lemma ImportAt(w: Txos, c: Chunk, n: string)
    ensures Get(Import(w, c), n)
         == Marked(Or(LastReceipt(c.receipts, n), Get(w, n)), LastSpend(c.spends, n))
  {
    UpsertAllAt(w, c.receipts, n);
    MarkAllAt(UpsertAll(w, c.receipts), c.spends, n);
  }

  lemma {:induction false} LastReceiptConcat(a: seq<TXO>, b: seq<TXO>, n: string)
    ensures LastReceipt(a + b, n) == Or(LastReceipt(b, n), LastReceipt(a, n))
  {
    if b == [] {
      assert a + b == a;
    } else {
      LastReceiptConcat(a, b[..|b| - 1], n);
      assert (a + b)[..|a + b| - 1] == a + b[..|b| - 1];
    }
  }

  lemma {:induction false} LastSpendConcat(a: seq<Spend>, b: seq<Spend>, n: string)
    ensures LastSpend(a + b, n) == Or(LastSpend(b, n), LastSpend(a, n))
  {
    if b == [] {
      assert a + b == a;
    } else {
      LastSpendConcat(a, b[..|b| - 1], n);
      assert (a + b)[..|a + b| - 1] == a + b[..|b| - 1];
    }
  }

  // ----- Chunks

  function Concat(a: Chunk, b: Chunk): Chunk {
    Chunk(a.receipts + b.receipts, a.spends + b.spends)
  }

  /** No note is received again after it was spent, unless it is spent again. */
  ghost predicate SpendsDoNotPrecede(a: Chunk, b: Chunk) {
    forall n :: LastSpend(a.spends, n).Some? && LastReceipt(b.receipts, n).Some? ==> LastSpend(b.spends, n).Some?
  }

  /** Notes arrive unspent. */
  ghost predicate Unspent(receipts: seq<TXO>) {
    forall x | x in receipts :: x.spendTxid == "" && x.spendBlock == None
  }

  lemma ConcatAt(w: Txos, a: Chunk, b: Chunk, n: string)
    ensures Get(Import(w, Concat(a, b)), n)
         == Marked(Or(Or(LastReceipt(b.receipts, n), LastReceipt(a.receipts, n)), Get(w, n)),
                   Or(LastSpend(b.spends, n), LastSpend(a.spends, n)))
  {
    ImportAt(w, Concat(a, b), n);
    LastReceiptConcat(a.receipts, b.receipts, n);
    LastSpendConcat(a.spends, b.spends, n);
  }

  lemma TwiceAt(w: Txos, a: Chunk, b: Chunk, n: string)
    ensures Get(Import(Import(w, a), b), n)
         == Marked(Or(LastReceipt(b.receipts, n),
                      Marked(Or(LastReceipt(a.receipts, n), Get(w, n)), LastSpend(a.spends, n))),
                   LastSpend(b.spends, n))
  {
    ImportAt(w, a, n);
    ImportAt(Import(w, a), b, n);
  }

  /** Importing two chunks one after the other gives the same notes as importing them at once
      exactly when no note is spent in the first and received unspent in the second. */
  lemma ChunkingIff(w: Txos, a: Chunk, b: Chunk)
    requires Unspent(b.receipts)
    ensures Import(Import(w, a), b) == Import(w, Concat(a, b)) <==> SpendsDoNotPrecede(a, b)
  {
    if SpendsDoNotPrecede(a, b) {
      forall n ensures Get(Import(Import(w, a), b), n) == Get(Import(w, Concat(a, b)), n) {
        TwiceAt(w, a, b, n);
        ConcatAt(w, a, b, n);
      }
      SameTxos(Import(Import(w, a), b), Import(w, Concat(a, b)));
    }
    if Import(Import(w, a), b) == Import(w, Concat(a, b)) {
      forall n | LastSpend(a.spends, n).Some? && LastReceipt(b.receipts, n).Some?
        ensures LastSpend(b.spends, n).Some?
      {
        TwiceAt(w, a, b, n);
        ConcatAt(w, a, b, n);
      }
    }
  }

  /** Some of the receipts and some of the spends, as after an import that failed half-way. */
  function Part(c: Chunk, j: nat, k: nat): Chunk
    requires j <= |c.receipts| && k <= |c.spends|
  {
    Chunk(c.receipts[..j], c.spends[..k])
  }

  /** Importing a chunk again after an import that failed half-way repairs everything. */
  lemma RetryRepairs(w: Txos, c: Chunk, j: nat, k: nat)
    requires j <= |c.receipts| && k <= |c.spends|
    ensures Import(Import(w, Part(c, j, k)), c) == Import(w, c)
  {
    forall n ensures Get(Import(Import(w, Part(c, j, k)), c), n) == Get(Import(w, c), n) {
      TwiceAt(w, Part(c, j, k), c, n);
      ImportAt(w, c, n);
      PrefixReceipt(c.receipts, j, n);
      PrefixSpend(c.spends, k, n);
    }
    SameTxos(Import(Import(w, Part(c, j, k)), c), Import(w, c));
  }

  lemma PrefixReceipt(receipts: seq<TXO>, j: nat, n: string)
    requires j <= |receipts|
    ensures LastReceipt(receipts[..j], n).Some? ==> LastReceipt(receipts, n).Some?
  {
  }

  lemma PrefixSpend(spends: seq<Spend>, k: nat, n: string)
    requires k <= |spends|
    ensures LastSpend(spends[..k], n).Some? ==> LastSpend(spends, n).Some?
  {
  }

  // ----- Rolling back

  function ReceiptsBelow(receipts: seq<TXO>, b: nat): (r: seq<TXO>)
    ensures forall x :: x in r <==> x in receipts && x.blockNumber < b
  {
    if receipts == [] then []
    else
      var rest := ReceiptsBelow(receipts[..|receipts| - 1], b);
      var last := receipts[|receipts| - 1];
      if last.blockNumber < b then rest + [last] else rest
  }

  function SpendsBelow(spends: seq<Spend>, b: nat): (r: seq<Spend>)
    ensures forall x :: x in r <==> x in spends && x.blockNumber < b
  {
    if spends == [] then []
    else
      var rest := SpendsBelow(spends[..|spends| - 1], b);
      var last := spends[|spends| - 1];
      if last.blockNumber < b then rest + [last] else rest
  }

  function Below(c: Chunk, b: nat): Chunk {
    Chunk(ReceiptsBelow(c.receipts, b), SpendsBelow(c.spends, b))
  }

  /** The last receipt decides whether there is an earlier one, and the last spend likewise. */
  ghost predicate LatestDecides(c: Chunk, b: nat, n: string) {
    var r, s := LastReceipt(c.receipts, n), LastSpend(c.spends, n);
    var r', s' := LastReceipt(ReceiptsBelow(c.receipts, b), n), LastSpend(SpendsBelow(c.spends, b), n);
    && (r.Some? && r.value.blockNumber >= b ==> r'.None?)
    && (r.Some? && r.value.blockNumber < b && s.Some? && s.value.blockNumber >= b ==> s'.None?)
  }

  lemma {:induction false} LatestReceiptBelow(receipts: seq<TXO>, b: nat, n: string)
    ensures var r := LastReceipt(receipts, n);
            r.Some? && r.value.blockNumber < b ==> LastReceipt(ReceiptsBelow(receipts, b), n) == r
    ensures LastReceipt(receipts, n).None? ==> LastReceipt(ReceiptsBelow(receipts, b), n).None?
  {
    if receipts != [] {
      LatestReceiptBelow(receipts[..|receipts| - 1], b, n);
    }
  }

  lemma {:induction false} LatestSpendBelow(spends: seq<Spend>, b: nat, n: string)
    ensures var s := LastSpend(spends, n);
            s.Some? && s.value.blockNumber < b ==> LastSpend(SpendsBelow(spends, b), n) == s
    ensures LastSpend(spends, n).None? ==> LastSpend(SpendsBelow(spends, b), n).None?
  {
    if spends != [] {
      LatestSpendBelow(spends[..|spends| - 1], b, n);
    }
  }

  lemma RollbackAt(c: Chunk, b: nat, n: string)
    requires Unspent(c.receipts)
    ensures Get(Cut(Import(map[], c), b), n) == Get(Import(map[], Below(c, b)), n) <==> LatestDecides(c, b, n)
  {
    CutAt(Import(map[], c), b, n);
    ImportAt(map[], c, n);
    ImportAt(map[], Below(c, b), n);
    LatestReceiptBelow(c.receipts, b, n);
    LatestSpendBelow(c.spends, b, n);
  }

  /** Rolling back gives the notes of the earlier events exactly when, for every note, the last
      receipt and the last spend decide whether there are earlier ones. */
  lemma RollbackIff(c: Chunk, b: nat)
    requires Unspent(c.receipts)
    ensures Cut(Import(map[], c), b) == Import(map[], Below(c, b)) <==> forall n :: LatestDecides(c, b, n)
  {
    forall n
      ensures Get(Cut(Import(map[], c), b), n) == Get(Import(map[], Below(c, b)), n) <==> LatestDecides(c, b, n)
    {
      RollbackAt(c, b, n);
    }
    if forall n :: LatestDecides(c, b, n) {
      SameTxos(Cut(Import(map[], c), b), Import(map[], Below(c, b)));
    }
  }
}
