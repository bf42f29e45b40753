/** How stored notes relate to the history of a chain, over imports that may fail half-way and
    be repeated, and over rollbacks. */
module WalletHistory {
  import opened Wrappers
  import opened WalletLedger

  /** All events of a chain. Every note is received at most once and spent at most once, not
      before it is received; an event may be listed twice. */
  ghost predicate Sound(h: Chunk) {
    && Unspent(h.receipts)
    && (forall x, y | x in h.receipts && y in h.receipts && x.nullifier == y.nullifier :: x == y)
    && (forall s, t | s in h.spends && t in h.spends && s.nullifier == t.nullifier :: s == t)
    && (forall x, s | x in h.receipts && s in h.spends && x.nullifier == s.nullifier :: x.blockNumber <= s.blockNumber)
  }

  /** The stored note was received, and possibly spent, on this chain. */
  ghost predicate IsState(o: TXO, h: Chunk) {
    exists x | x in h.receipts ::
      && x.nullifier == o.nullifier
      && (o == x || exists s | s in h.spends :: s.nullifier == x.nullifier && o == MarkSpent(x, s))
  }

  /** The notes come from the chain; every receipt and every spend before block `next` is there,
      and those from `next` on may be there or not. */
  ghost predicate Follows(w: Txos, h: Chunk, next: nat) {
    ComesFrom(w, h) && HasReceipts(w, h, next) && HasSpends(w, h, next)
  }

  ghost predicate ComesFrom(w: Txos, h: Chunk) {
    forall n | n in w :: w[n].nullifier == n && IsState(w[n], h)
  }

  ghost predicate HasReceipts(w: Txos, h: Chunk, next: nat) {
    forall x | x in h.receipts && x.blockNumber < next :: x.nullifier in w
  }

  ghost predicate HasSpends(w: Txos, h: Chunk, next: nat) {
    forall s | s in h.spends && s.blockNumber < next && s.nullifier in w :: w[s.nullifier].spendBlock.Some?
  }

  /** Events of the chain from block `from` on. */
  ghost predicate IsPartOf(c: Chunk, h: Chunk, from: nat) {
    && (forall x | x in c.receipts :: x in h.receipts && from <= x.blockNumber)
    && (forall s | s in c.spends :: s in h.spends && from <= s.blockNumber)
  }

  /** All of them up to block `to`. */
  ghost predicate Covers(c: Chunk, h: Chunk, from: nat, to: nat) {
    && (forall x | x in h.receipts && from <= x.blockNumber <= to :: x in c.receipts)
    && (forall s | s in h.spends && from <= s.blockNumber <= to :: s in c.spends)
  }

  // ----- Imports

  lemma ImportedIsState(w: Txos, h: Chunk, next: nat, c: Chunk, n: string)
    requires Sound(h) && Follows(w, h, next) && IsPartOf(c, h, next)
    requires n in Import(w, c)
    ensures Import(w, c)[n].nullifier == n && IsState(Import(w, c)[n], h)
  {
    ImportAt(w, c, n);
    var base := Or(LastReceipt(c.receipts, n), Get(w, n)).value;
    assert base.nullifier == n && IsState(base, h);
    var s := LastSpend(c.spends, n);
    if s.Some? {
      MarkedIsState(base, h, s.value);
      assert Import(w, c)[n] == MarkSpent(base, s.value);
    } else {
      assert Import(w, c)[n] == base;
    }
  }

  lemma MarkedIsState(o: TXO, h: Chunk, s: Spend)
    requires IsState(o, h) && s in h.spends && s.nullifier == o.nullifier
    ensures IsState(MarkSpent(o, s), h)
  {
    var x :| x in h.receipts && x.nullifier == o.nullifier
             && (o == x || exists t | t in h.spends :: t.nullifier == x.nullifier && o == MarkSpent(x, t));
    assert MarkSpent(o, s) == MarkSpent(x, s);
  }

  /** Importing events from block `next` on, whether all or some of them, keeps everything
      before it. */
  lemma PartialImportFollows(w: Txos, h: Chunk, next: nat, c: Chunk)
    requires Sound(h) && Follows(w, h, next) && IsPartOf(c, h, next)
    ensures Follows(Import(w, c), h, next)
  {
    var v := Import(w, c);
    forall n | n in v ensures v[n].nullifier == n && IsState(v[n], h) {
      ImportedIsState(w, h, next, c, n);
    }
    forall x | x in h.receipts && x.blockNumber < next ensures x.nullifier in v {
      ImportAt(w, c, x.nullifier);
    }
    forall s | s in h.spends && s.blockNumber < next && s.nullifier in v ensures v[s.nullifier].spendBlock.Some? {
      EarlierSpendStays(w, h, next, c, s);
    }
  }

  lemma EarlierSpendStays(w: Txos, h: Chunk, next: nat, c: Chunk, s: Spend)
    requires Sound(h) && Follows(w, h, next) && IsPartOf(c, h, next)
    requires s in h.spends && s.blockNumber < next && s.nullifier in Import(w, c)
    ensures Import(w, c)[s.nullifier].spendBlock.Some?
  {
    ImportAt(w, c, s.nullifier);
  }

  /** Importing all events of the blocks from `next` to `to` catches up to `to`. */
  lemma FullImportFollows(w: Txos, h: Chunk, next: nat, c: Chunk, to: nat)
    requires Sound(h) && Follows(w, h, next) && IsPartOf(c, h, next) && Covers(c, h, next, to) && next <= to
    ensures Follows(Import(w, c), h, to + 1)
  {
    PartialImportFollows(w, h, next, c);
    var v := Import(w, c);
    forall x | x in h.receipts && x.blockNumber < to + 1 ensures x.nullifier in v {
      ImportAt(w, c, x.nullifier);
    }
    forall s | s in h.spends && s.blockNumber < to + 1 && s.nullifier in v ensures v[s.nullifier].spendBlock.Some? {
      ImportAt(w, c, s.nullifier);
    }
  }

  // ----- Rollbacks

  /** The chains agree before block b. */
  ghost predicate AgreeBelow(g: Chunk, h: Chunk, b: nat) {
    && (forall x: TXO | x.blockNumber < b :: x in g.receipts <==> x in h.receipts)
    && (forall s: Spend | s.blockNumber < b :: s in g.spends <==> s in h.spends)
  }

  lemma CutIsState(o: TXO, g: Chunk, h: Chunk, b: nat)
    requires Sound(g) && AgreeBelow(g, h, b) && IsState(o, g) && o.blockNumber < b
    ensures CutOne(Some(o), b).Some? && CutOne(Some(o), b).value.nullifier == o.nullifier
    ensures IsState(CutOne(Some(o), b).value, h)
  {
    var x :| x in g.receipts && x.nullifier == o.nullifier
             && (o == x || exists s | s in g.spends :: s.nullifier == x.nullifier && o == MarkSpent(x, s));
    assert x in h.receipts;
    if o != x {
      var s :| s in g.spends && s.nullifier == x.nullifier && o == MarkSpent(x, s);
      if s.blockNumber < b {
        assert s in h.spends;
      } else {
        assert CutOne(Some(o), b).value == x;
      }
    }
  }

  function Min(a: nat, b: nat): nat {
    if a < b then a else b
  }

  /** After a rollback the notes follow every chain that agrees up to the block of the rollback. */
  lemma RollbackFollows(w: Txos, g: Chunk, h: Chunk, next: nat, b: nat)
    requires Sound(g) && Sound(h) && Follows(w, g, next) && AgreeBelow(g, h, b)
    ensures Follows(Cut(w, b), h, Min(next, b))
  {
    RollbackComesFrom(w, g, h, b);
    RollbackHasReceipts(w, g, h, next, b);
    RollbackHasSpends(w, g, h, next, b);
  }

  lemma RollbackComesFrom(w: Txos, g: Chunk, h: Chunk, b: nat)
    requires Sound(g) && ComesFrom(w, g) && AgreeBelow(g, h, b)
    ensures ComesFrom(Cut(w, b), h)
  {
    var v := Cut(w, b);
    forall n | n in v ensures v[n].nullifier == n && IsState(v[n], h) {
      CutIsState(w[n], g, h, b);
    }
  }

  lemma RollbackHasReceipts(w: Txos, g: Chunk, h: Chunk, next: nat, b: nat)
    requires Sound(g) && ComesFrom(w, g) && HasReceipts(w, g, next) && AgreeBelow(g, h, b)
    ensures HasReceipts(Cut(w, b), h, Min(next, b))
  {
    forall x | x in h.receipts && x.blockNumber < Min(next, b) ensures x.nullifier in Cut(w, b) {
      assert x in g.receipts;
      assert IsState(w[x.nullifier], g);
    }
  }

  lemma RollbackHasSpends(w: Txos, g: Chunk, h: Chunk, next: nat, b: nat)
    requires Sound(g) && Follows(w, g, next) && AgreeBelow(g, h, b)
    ensures HasSpends(Cut(w, b), h, Min(next, b))
  {
    var v := Cut(w, b);
    forall s | s in h.spends && s.blockNumber < Min(next, b) && s.nullifier in v
      ensures v[s.nullifier].spendBlock.Some?
    {
      assert s in g.spends;
      SpendIsTheOne(w, g, next, s);
    }
  }

  lemma SpendIsTheOne(w: Txos, h: Chunk, next: nat, s: Spend)
    requires Sound(h) && Follows(w, h, next) && s in h.spends && s.nullifier in w
    requires w[s.nullifier].spendBlock.Some?
    ensures w[s.nullifier].spendBlock == Some(s.blockNumber)
  {
    var o := w[s.nullifier];
    var x :| x in h.receipts && x.nullifier == o.nullifier
             && (o == x || exists t | t in h.spends :: t.nullifier == x.nullifier && o == MarkSpent(x, t));
    assert o != x;
  }

  // ----- What following means

  /** A stored note, seen from before block `next`, is what importing those blocks gives. */
  lemma CutOfFollowing(w: Txos, h: Chunk, next: nat, n: string)
    requires Sound(h) && Follows(w, h, next)
    ensures CutOne(Get(w, n), next) == Get(Import(map[], Below(h, next)), n)
  {
    ImportAt(map[], Below(h, next), n);
    var x := LastReceipt(ReceiptsBelow(h.receipts, next), n);
    if x.Some? {
      assert n in w;
      KnownReceipt(w, h, next, n, x.value);
    } else if n in w {
      UnknownReceipt(w, h, next, n);
    }
  }

  lemma UnknownReceipt(w: Txos, h: Chunk, next: nat, n: string)
    requires Follows(w, h, next) && n in w
    requires forall x | x in h.receipts && x.blockNumber < next :: x.nullifier != n
    ensures w[n].blockNumber >= next
  {
    var x :| x in h.receipts && x.nullifier == n
             && (w[n] == x || exists s | s in h.spends :: s.nullifier == x.nullifier && w[n] == MarkSpent(x, s));
  }

  /** What a stored note of a known receipt is: the note as received, or marked with its spend. */
  lemma StateOfReceipt(w: Txos, h: Chunk, n: string, x: TXO) returns (s: Option<Spend>)
    requires Sound(h) && ComesFrom(w, h) && n in w && x in h.receipts && x.nullifier == n
    ensures Some(w[n]) == Marked(Some(x), s)
    ensures s.Some? ==> s.value in h.spends && s.value.nullifier == n
  {
    var y :| y in h.receipts && y.nullifier == n
             && (w[n] == y || exists t | t in h.spends :: t.nullifier == y.nullifier && w[n] == MarkSpent(y, t));
    assert y == x;
    if w[n] == x {
      s := None;
    } else {
      var t :| t in h.spends && t.nullifier == n && w[n] == MarkSpent(x, t);
      s := Some(t);
    }
  }

  lemma KnownReceipt(w: Txos, h: Chunk, next: nat, n: string, x: TXO)
    requires Sound(h) && Follows(w, h, next) && n in w
    requires x in h.receipts && x.nullifier == n && x.blockNumber < next
    ensures CutOne(Some(w[n]), next) == Marked(Some(x), LastSpend(SpendsBelow(h.spends, next), n))
  {
    var s := StateOfReceipt(w, h, n, x);
    var t := LastSpend(SpendsBelow(h.spends, next), n);
    if t.Some? {
      assert w[n].spendBlock.Some?;
      assert s == t;
    } else if s.Some? {
      assert s.value.blockNumber >= next;
    }
  }

  /** Notes that follow a chain are, up to block `next`, exactly the notes that one import of
      all earlier events gives, whatever else happened before. */
  lemma FollowingIsExact(w: Txos, h: Chunk, next: nat)
    requires Sound(h) && Follows(w, h, next)
    ensures Cut(w, next) == Import(map[], Below(h, next))
  {
    forall n ensures Get(Cut(w, next), n) == Get(Import(map[], Below(h, next)), n) {
      CutAt(w, next, n);
      CutOfFollowing(w, h, next, n);
    }
    SameTxos(Cut(w, next), Import(map[], Below(h, next)));
  }

  /** No event from block `next` on has left a trace. */
  ghost predicate Settled(w: Txos, next: nat) {
    forall n | n in w ::
      w[n].blockNumber < next && (w[n].spendBlock.Some? ==> w[n].spendBlock.value < next)
  }

  lemma SettledIsExact(w: Txos, h: Chunk, next: nat)
    requires Sound(h) && Follows(w, h, next) && Settled(w, next)
    ensures w == Import(map[], Below(h, next))
  {
    FollowingIsExact(w, h, next);
    CutOfSettled(w, next);
  }

  lemma CutOfSettled(w: Txos, next: nat)
    requires Settled(w, next)
    ensures Cut(w, next) == w
  {
  }

  function Max(a: nat, b: nat): nat {
    if a < b then b else a
  }

  lemma ImportSettles(w: Txos, c: Chunk, next: nat, to: nat)
    requires Settled(w, next)
    requires Unspent(c.receipts) && (forall x | x in c.receipts :: x.blockNumber <= to)
    requires forall s | s in c.spends :: s.blockNumber <= to
    ensures Settled(Import(w, c), Max(next, to + 1))
  {
    var v, top := Import(w, c), Max(next, to + 1);
    forall n | n in v ensures v[n].blockNumber < top && (v[n].spendBlock.Some? ==> v[n].spendBlock.value < top) {
      ImportAt(w, c, n);
    }
  }

  lemma CutSettles(w: Txos, b: nat)
    ensures Settled(Cut(w, b), b)
  {
  }

  /** A wallet without notes follows every chain from its first event on. */
  lemma EmptyFollows(h: Chunk, start: nat)
    requires forall x | x in h.receipts :: start <= x.blockNumber
    ensures Follows(map[], h, start) && Settled(map[], start)
  {
  }

  // ----- The reorganisation theorem

  /** Importing one chain, rolling back to block b and importing what another chain has from b
      on gives what importing the other chain directly gives. */
  lemma ReorgEqualsDirectImport(g: Chunk, h: Chunk, b: nat, c: Chunk, to: nat)
    requires Sound(g) && Sound(h) && AgreeBelow(g, h, b) && b <= to
    requires IsPartOf(c, h, b) && Covers(c, h, b, to)
    requires (forall x | x in c.receipts :: x.blockNumber <= to) && forall s | s in c.spends :: s.blockNumber <= to
    ensures Import(Cut(Import(map[], g), b), c) == Import(map[], Below(h, to + 1))
  {
    var v := Cut(Import(map[], g), b);
    EmptyFollows(g, 0);
    FullImportFollows(map[], g, 0, g, b);
    RollbackFollows(Import(map[], g), g, h, b + 1, b);
    CutSettles(Import(map[], g), b);
    FullImportFollows(v, h, b, c, to);
    ImportSettles(v, c, b, to);
    SettledIsExact(Import(v, c), h, to + 1);
  }
}
