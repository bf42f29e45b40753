/** The stored notes that may be spent, by tree, and the selection among them
    (spendableTokenTreeBalances, transactionTreeBalanceTotal and selectSpendableUTXOs in
    pkg/sdk/private_transactions.go). */
module SpendableNotes {
  import opened Wrappers
  import opened Notes
  import opened SimpleSelection
  import opened WalletLedger
  import opened Requests
  import Batches
  import Hex
  import Seqs

  const V2 := "V2_PoseidonMerkle"

  // ----- Spendable notes by tree

  /** Which token is unshielded, the token hash that is computed for a note that was stored without
      one, and which notes are in the spendable bucket. */
  datatype Wanted = Wanted(isToken: string -> bool, computedHash: TXO -> Option<string>,
                           inSpendableBucket: TXO -> bool) {

    function HashOf(txo: TXO): Option<string> {
      if txo.tokenHash != "" then Some(txo.tokenHash) else computedHash(txo)
    }

    predicate IsLive(txo: TXO) {
      txo.txidVersion == V2 && txo.spendTxid == ""
    }

    /** Unspent notes of the token. */
    predicate Concerns(txo: TXO) {
      IsLive(txo) && HashOf(txo).Some? && isToken(HashOf(txo).value) && txo.value > 0
    }

    /** Notes that stop the search: no token hash can be computed, or the random is missing. */
    predicate IsBroken(txo: TXO) {
      IsLive(txo) && (HashOf(txo).None? || (Concerns(txo) && txo.noteRandom == ""))
    }

    /** Unspent notes of the token that may be spent. */
    predicate IsSpendable(txo: TXO) {
      Concerns(txo) && inSpendableBucket(txo)
    }
  }

  /** Two hashes that agree but for case and prefix. */
  predicate SameHash(a: string, b: string) {
    Hex.ToLower(Hex.Strip0x(a)) == Hex.ToLower(Hex.Strip0x(b))
  }

  /** The comparison of token hashes that the program makes. */
  function OfToken(tokenHash: string, computedHash: TXO -> Option<string>, inSpendableBucket: TXO -> bool): Wanted {
    Wanted(hash => SameHash(hash, tokenHash), computedHash, inSpendableBucket)
  }

  // ----- Which notes may be spent, field by field

  /** The token hash of the note, stored or computed, is that of the token. */
  predicate IsOfToken(x: TXO, w: Wanted) {
    if x.tokenHash != "" then w.isToken(x.tokenHash) else w.computedHash(x).Some? && w.isToken(w.computedHash(x).value)
  }

  /** An unspent note of the token that is worth something, has its random and is in the spendable bucket. */
  predicate MayBeSpent(x: TXO, w: Wanted) {
    && x.txidVersion == V2 && x.spendTxid == "" && x.value > 0 && x.noteRandom != ""
    && IsOfToken(x, w) && w.inSpendableBucket(x)
  }

  /** An unspent note without a token hash, or one of the token that is worth something but has no random. */
  predicate StopsSearch(x: TXO, w: Wanted) {
    && x.txidVersion == V2 && x.spendTxid == ""
    && ((x.tokenHash == "" && w.computedHash(x).None?) || (IsOfToken(x, w) && x.value > 0 && x.noteRandom == ""))
  }

  /** With the comparison of the program, a note is of the token when the hashes agree but for case and prefix. */
  lemma OfTokenIff(x: TXO, tokenHash: string, computedHash: TXO -> Option<string>, inSpendableBucket: TXO -> bool)
    ensures var own := if x.tokenHash != "" then Some(x.tokenHash) else computedHash(x);
            IsOfToken(x, OfToken(tokenHash, computedHash, inSpendableBucket))
            <==> own.Some? && SameHash(own.value, tokenHash)
  {
    OfTokenCompares(tokenHash, computedHash, inSpendableBucket);
    IsOfTokenBy(x, OfToken(tokenHash, computedHash, inSpendableBucket));
  }

  lemma OfTokenCompares(tokenHash: string, computedHash: TXO -> Option<string>, inSpendableBucket: TXO -> bool)
    ensures var w := OfToken(tokenHash, computedHash, inSpendableBucket);
            w.computedHash == computedHash && forall h :: w.isToken(h) <==> SameHash(h, tokenHash)
  {
  }

  lemma IsOfTokenBy(x: TXO, w: Wanted)
    ensures var own := if x.tokenHash != "" then Some(x.tokenHash) else w.computedHash(x);
            IsOfToken(x, w) <==> own.Some? && w.isToken(own.value)
  {
  }

  lemma SpendableIff(x: TXO, w: Wanted)
    ensures w.IsBroken(x) <==> StopsSearch(x, w)
    ensures !w.IsBroken(x) ==> (w.IsSpendable(x) <==> MayBeSpent(x, w))
  {
  }

  lemma {:induction false} FilteredAre(txos: seq<TXO>, w: Wanted)
    ensures forall x :: x in Filtered(txos, w) <==> x in txos && w.IsSpendable(x)
  {
    if txos != [] {
      FilteredAre(txos[..|txos| - 1], w);
      assert txos == txos[..|txos| - 1] + [txos[|txos| - 1]];
    }
  }

  /** The notes that are offered are exactly those that may be spent. */
  lemma FilteredIff(txos: seq<TXO>, w: Wanted)
    requires forall x | x in txos :: !StopsSearch(x, w)
    ensures forall x :: x in Filtered(txos, w) <==> x in txos && MayBeSpent(x, w)
  {
    FilteredAre(txos, w);
    forall x | x in txos ensures w.IsSpendable(x) <==> MayBeSpent(x, w) {
      SpendableIff(x, w);
    }
  }

  lemma NoneBrokenIff(txos: seq<TXO>, w: Wanted)
    ensures NoneBroken(txos, w) <==> forall x | x in txos :: !StopsSearch(x, w)
  {
    forall x | x in txos ensures w.IsBroken(x) <==> StopsSearch(x, w) {
      SpendableIff(x, w);
    }
  }

  ghost predicate NoneBroken(txos: seq<TXO>, wanted: Wanted) {
    forall x | x in txos :: !wanted.IsBroken(x)
  }

  function NoteOf(txo: TXO): SolutionTXO {
    SolutionTXO(txo.nullifier, txo.txid, txo.tree, txo.position, Some(txo.value))
  }

  /** The notes offered for selection are the spendable ones among these, each in its tree, and
      the balances are their sums. */
  ghost predicate Offered(trees: seq<TreeBalance>, byId: map<string, TXO>, spendable: seq<TXO>) {
    && (forall t | 0 <= t < |trees| :: BalanceIsSum(trees[t]))
    && (forall t, u | 0 <= t < |trees| && u in trees[t].utxos ::
          u.id in byId && u == NoteOf(byId[u.id]) && byId[u.id].tree == t && byId[u.id] in spendable)
    && (forall x | x in spendable :: x.tree < |trees| && NoteOf(x) in trees[x.tree].utxos)
    && NoneTwice(trees)
  }

  ghost predicate NoneTwice(trees: seq<TreeBalance>) {
    forall t | 0 <= t < |trees| :: DistinctIds(trees[t].utxos)
  }

  /** No note is listed twice. */
  ghost predicate DistinctIds(utxos: seq<SolutionTXO>) {
    forall i, j | 0 <= i < j < |utxos| :: utxos[i].id != utxos[j].id
  }

  /** The entry of a stored note. */
  ghost predicate IsEntryOf(u: SolutionTXO, x: TXO) {
    u.id == x.nullifier && u.txid == x.txid && u.tree == x.tree && u.position == x.position && u.value == Some(x.value)
  }

  /** In every tree the notes of that tree that may be spent are listed, each once, and no others. */
  ghost predicate OfferedExactly(trees: seq<TreeBalance>, txos: seq<TXO>, w: Wanted) {
    && (forall t, u | 0 <= t < |trees| && u in trees[t].utxos ::
          exists x | x in txos :: IsEntryOf(u, x) && x.tree == t && MayBeSpent(x, w))
    && (forall x | x in txos && MayBeSpent(x, w) ::
          x.tree < |trees| && exists u | u in trees[x.tree].utxos :: IsEntryOf(u, x))
    && (forall t | 0 <= t < |trees| :: DistinctIds(trees[t].utxos) && BalanceIsSum(trees[t]))
  }

  lemma OfferedIsExact(trees: seq<TreeBalance>, byId: map<string, TXO>, txos: seq<TXO>, w: Wanted, notes: seq<TXO>)
    requires Offered(trees, byId, notes) && forall x :: x in notes <==> x in txos && MayBeSpent(x, w)
    ensures OfferedExactly(trees, txos, w)
  {
    forall t, u | 0 <= t < |trees| && u in trees[t].utxos
      ensures exists x | x in txos :: IsEntryOf(u, x) && x.tree == t && MayBeSpent(x, w)
    {
      assert byId[u.id] in notes;
    }
    forall x | x in txos && MayBeSpent(x, w)
      ensures x.tree < |trees| && exists u | u in trees[x.tree].utxos :: IsEntryOf(u, x)
    {
      assert IsEntryOf(NoteOf(x), x);
    }
  }

  function Filtered(txos: seq<TXO>, wanted: Wanted): seq<TXO> {
    if txos == [] then []
    else
      var front, last := Filtered(txos[..|txos| - 1], wanted), txos[|txos| - 1];
      if wanted.IsSpendable(last) then front + [last] else front
  }

  function Pad(trees: seq<TreeBalance>, n: nat): (r: seq<TreeBalance>)
    ensures |r| == if |trees| < n then n else |trees|
    ensures forall i | 0 <= i < |trees| :: r[i] == trees[i]
    ensures forall i | |trees| <= i < |r| :: r[i] == TreeBalance(None, [])
    decreases n - |trees|
  {
    if |trees| >= n then trees else Pad(trees + [TreeBalance(None, [])], n)
  }

  /** Adds a note to the balance of its tree; trees that are missing are added without notes. */
  function Deposit(trees: seq<TreeBalance>, txo: TXO): seq<TreeBalance> {
    var padded := Pad(trees, txo.tree + 1);
    var own := padded[txo.tree];
    var balance := if own.balance.Some? then own.balance.value else 0;
    padded[txo.tree := TreeBalance(Some(balance + txo.value), own.utxos + [NoteOf(txo)])]
  }

  method AddToTree(trees: seq<TreeBalance>, txo: TXO) returns (r: seq<TreeBalance>)
    ensures r == Deposit(trees, txo)
  {
    r := trees;
    while |r| <= txo.tree
      invariant Pad(r, txo.tree + 1) == Pad(trees, txo.tree + 1)
      decreases txo.tree + 1 - |r|
    {
      r := r + [TreeBalance(None, [])];
    }
    var own := r[txo.tree];
    if own.balance.None? {
      own := own.(balance := Some(0));
    }
    own := own.(balance := Some(own.balance.value + txo.value));
    own := own.(utxos := own.utxos + [NoteOf(txo)]);
    r := r[txo.tree := own];
  }

  lemma DepositSums(trees: seq<TreeBalance>, txo: TXO)
    requires forall t | 0 <= t < |trees| :: BalanceIsSum(trees[t])
    ensures forall t | 0 <= t < |Deposit(trees, txo)| :: BalanceIsSum(Deposit(trees, txo)[t])
  {
    var padded := Pad(trees, txo.tree + 1);
    assert BalanceIsSum(padded[txo.tree]);
    TotalSnoc(padded[txo.tree].utxos, NoteOf(txo));
  }

  lemma DepositOffers(trees: seq<TreeBalance>, byId: map<string, TXO>, spendable: seq<TXO>, txo: TXO)
    requires Offered(trees, byId, spendable) && txo.nullifier !in byId
    ensures Offered(Deposit(trees, txo), byId[txo.nullifier := txo], spendable + [txo])
  {
    DepositSums(trees, txo);
    DepositIsDistinct(trees, byId, txo);
    DepositIsKnown(trees, byId, spendable, txo);
  }

  lemma DepositIsKnown(trees: seq<TreeBalance>, byId: map<string, TXO>, spendable: seq<TXO>, txo: TXO)
    requires txo.nullifier !in byId
    requires forall t, u | 0 <= t < |trees| && u in trees[t].utxos ::
               u.id in byId && u == NoteOf(byId[u.id]) && byId[u.id].tree == t && byId[u.id] in spendable
    ensures var more, ids := Deposit(trees, txo), byId[txo.nullifier := txo];
            forall t, u | 0 <= t < |more| && u in more[t].utxos ::
              u.id in ids && u == NoteOf(ids[u.id]) && ids[u.id].tree == t && ids[u.id] in spendable + [txo]
  {
  }

  lemma DepositIsDistinct(trees: seq<TreeBalance>, byId: map<string, TXO>, txo: TXO)
    requires NoneTwice(trees) && (forall t, u | 0 <= t < |trees| && u in trees[t].utxos :: u.id in byId)
    requires txo.nullifier !in byId
    ensures NoneTwice(Deposit(trees, txo))
  {
    DistinctSnoc(Pad(trees, txo.tree + 1)[txo.tree].utxos, NoteOf(txo), byId);
  }

  lemma DistinctSnoc(utxos: seq<SolutionTXO>, u: SolutionTXO, byId: map<string, TXO>)
    requires DistinctIds(utxos) && (forall v | v in utxos :: v.id in byId) && u.id !in byId
    ensures DistinctIds(utxos + [u])
  {
    forall i | 0 <= i < |utxos| ensures utxos[i].id != u.id {
      assert utxos[i] in utxos;
    }
  }

  ghost predicate DistinctNullifiers(txos: seq<TXO>) {
    forall i, j | 0 <= i < j < |txos| :: txos[i].nullifier != txos[j].nullifier
  }

  /** The balances of these notes by tree. */
  function BalancesOf(notes: seq<TXO>): seq<TreeBalance> {
    if notes == [] then [] else Deposit(BalancesOf(notes[..|notes| - 1]), notes[|notes| - 1])
  }

  /** The note stored under a nullifier. */
  function Find(notes: seq<TXO>, id: string): Option<TXO> {
    if notes == [] then None
    else if notes[|notes| - 1].nullifier == id then Some(notes[|notes| - 1])
    else Find(notes[..|notes| - 1], id)
  }

  ghost predicate IsIndex(byId: map<string, TXO>, notes: seq<TXO>) {
    forall id :: (if id in byId then Some(byId[id]) else None) == Find(notes, id)
  }

  lemma BalancesSnoc(notes: seq<TXO>, txo: TXO)
    ensures BalancesOf(notes + [txo]) == Deposit(BalancesOf(notes), txo)
  {
    assert (notes + [txo])[..|notes|] == notes;
  }

  lemma IndexSnoc(byId: map<string, TXO>, notes: seq<TXO>, txo: TXO)
    requires IsIndex(byId, notes)
    ensures IsIndex(byId[txo.nullifier := txo], notes + [txo])
  {
    var more := byId[txo.nullifier := txo];
    assert (notes + [txo])[..|notes|] == notes;
    forall id ensures (if id in more then Some(more[id]) else None) == Find(notes + [txo], id) {
      assert (if id in byId then Some(byId[id]) else None) == Find(notes, id);
    }
  }

  /** The spendable notes of a token by tree and by nullifier, or an error when a note is broken. */
  method SpendableTokenTreeBalances(txos: seq<TXO>, wanted: Wanted)
    returns (r: Result<(seq<TreeBalance>, map<string, TXO>)>)
    requires DistinctNullifiers(txos)
    ensures r.Ok? <==> forall x | x in txos :: !StopsSearch(x, wanted)
    ensures r.Ok? ==> OfferedExactly(r.value.0, txos, wanted)
    ensures r.Ok? ==> r.value.0 == BalancesOf(Filtered(txos, wanted)) && IsIndex(r.value.1, Filtered(txos, wanted))
    ensures r.Ok? ==> Offered(r.value.0, r.value.1, Filtered(txos, wanted))
  {
    r := CollectSpendable(txos, wanted);
    NoneBrokenIff(txos, wanted);
    if r.Ok? {
      FilteredIff(txos, wanted);
      OfferedIsExact(r.value.0, r.value.1, txos, wanted, Filtered(txos, wanted));
    }
  }

  /** One note after the other, as the source does it. */
  method CollectSpendable(txos: seq<TXO>, wanted: Wanted) returns (r: Result<(seq<TreeBalance>, map<string, TXO>)>)
    requires DistinctNullifiers(txos)
    ensures r.Ok? <==> NoneBroken(txos, wanted)
    ensures r.Ok? ==> r.value.0 == BalancesOf(Filtered(txos, wanted)) && IsIndex(r.value.1, Filtered(txos, wanted))
    ensures r.Ok? ==> Offered(r.value.0, r.value.1, Filtered(txos, wanted))
  {
    var trees: seq<TreeBalance>, byId: map<string, TXO> := [], map[];
    ghost var notes: seq<TXO> := [];
    for i := 0 to |txos|
      invariant forall k | 0 <= k < i :: !wanted.IsBroken(txos[k])
      invariant notes == Filtered(txos[..i], wanted) && KnownIds(byId, txos, i)
      invariant trees == BalancesOf(notes) && IsIndex(byId, notes) && Offered(trees, byId, notes)
    {
      FilteredNext(txos, i, wanted);
      if wanted.IsBroken(txos[i]) {
        return Err("token hash or note random");
      }
      if wanted.IsSpendable(txos[i]) {
        DepositOffers(trees, byId, notes, txos[i]);
        BalancesSnoc(notes, txos[i]);
        IndexSnoc(byId, notes, txos[i]);
        trees := AddToTree(trees, txos[i]);
        byId := byId[txos[i].nullifier := txos[i]];
        notes := notes + [txos[i]];
      }
    }
    Seqs.Whole(txos);
    return Ok((trees, byId));
  }

  ghost predicate KnownIds(byId: map<string, TXO>, txos: seq<TXO>, i: nat)
    requires i <= |txos|
  {
    forall n | n in byId :: exists k | 0 <= k < i :: txos[k].nullifier == n
  }

  lemma FilteredNext(txos: seq<TXO>, i: nat, wanted: Wanted)
    requires i < |txos|
    ensures Filtered(txos[..i + 1], wanted)
         == if wanted.IsSpendable(txos[i]) then Filtered(txos[..i], wanted) + [txos[i]] else Filtered(txos[..i], wanted)
  {
    assert txos[..i + 1][..i] == txos[..i];
  }

  // ----- Selecting

  function ValuesOf(txos: seq<TXO>): (r: seq<Option<nat>>)
    ensures |r| == |txos| && forall i | 0 <= i < |txos| :: r[i] == Some(txos[i].value)
  {
    seq(|txos|, i requires 0 <= i < |txos| => Some(txos[i].value))
  }

  /** The stored notes that belong to the selected ones. */
  ghost predicate BelongTo(spend: seq<TXO>, selected: seq<SolutionTXO>) {
    |spend| == |selected| && forall i | 0 <= i < |spend| ::
      spend[i].nullifier == selected[i].id && spend[i].value == Val(selected[i])
  }

  lemma {:induction false} WorthOfSpent(spend: seq<TXO>, selected: seq<SolutionTXO>)
    requires BelongTo(spend, selected)
    ensures WorthOf(ValuesOf(spend)) == Total(selected)
  {
    if spend != [] {
      var n := |spend| - 1;
      WorthOfSpent(spend[..n], selected[..n]);
      assert ValuesOf(spend)[..n] == ValuesOf(spend[..n]);
    }
  }

  /** The stored notes of selected ones. */
  function SpentNotes(selected: seq<SolutionTXO>, notes: seq<TXO>): seq<TXO> {
    if selected == [] then []
    else
      var front, last := SpentNotes(selected[..|selected| - 1], notes), Find(notes, selected[|selected| - 1].id);
      if last.None? then front else front + [last.value]
  }

  /** Every selected note is found among these notes, and is theirs. */
  ghost predicate AreNotesOf(utxos: seq<SolutionTXO>, notes: seq<TXO>, tree: nat) {
    forall u | u in utxos ::
      var x := Find(notes, u.id); x.Some? && u == NoteOf(x.value) && x.value.tree == tree && x.value in notes
  }

  /** The selection, with the stored notes it spends; the notes are among those offered. */
  method SelectSpendableUTXOs(trees: seq<TreeBalance>, byId: map<string, TXO>, amount: int, ghost notes: seq<TXO>)
    returns (r: Option<(SimpleUTXOGroup, seq<TXO>)>)
    requires amount > 0 && Offered(trees, byId, notes) && IsIndex(byId, notes)
    ensures r.None? <==> Selected(trees, amount).None?
    ensures r.Some? ==>
      && Some(r.value.0) == Selected(trees, amount) && r.value.1 == SpentNotes(r.value.0.utxos, notes)
      && BelongTo(r.value.1, r.value.0.utxos) && WorthOf(ValuesOf(r.value.1)) == r.value.0.amount
      && DistinctNullifiers(r.value.1)
      && (forall x | x in r.value.1 :: x in notes && x.tree == r.value.0.spendingTree)
      && (r.value.1 != [] ==> r.value.0.amount >= amount)
  {
    var solution := CreateSimpleSatisfyingUTXOGroup(trees, amount);
    if solution.None? {
      return None;
    }
    SelectionIff(trees, amount);
    SelectedAreOffered(trees, amount);
    SelectedAreNotes(trees, byId, notes, solution.value.utxos, solution.value.spendingTree);
    var spend := CollectSpent(solution.value.utxos, byId, solution.value.spendingTree, notes);
    WorthOfSpent(spend, solution.value.utxos);
    SelectedAreDistinct(trees, amount, solution.value);
    return Some((solution.value, spend));
  }

  lemma {:induction false} AvailableIsPart(utxos: seq<SolutionTXO>, excluded: seq<string>)
    ensures multiset(Available(utxos, excluded)) <= multiset(utxos)
  {
    if utxos != [] {
      AvailableIsPart(utxos[..|utxos| - 1], excluded);
      assert utxos == utxos[..|utxos| - 1] + [utxos[|utxos| - 1]];
    }
  }

  lemma {:induction false} ListedOnce(utxos: seq<SolutionTXO>, u: SolutionTXO)
    requires DistinctIds(utxos)
    ensures multiset(utxos)[u] <= 1
  {
    if utxos != [] {
      var front, last := utxos[..|utxos| - 1], utxos[|utxos| - 1];
      ListedOnce(front, u);
      assert utxos == front + [last];
      if last == u {
        assert u !in front;
        assert u !in multiset(front);
      }
    }
  }

  lemma ListedTwice(utxos: seq<SolutionTXO>, i: nat, j: nat)
    requires i < j < |utxos| && utxos[i] == utxos[j]
    ensures multiset(utxos)[utxos[i]] >= 2
  {
    Seqs.SplitAt(utxos, j);
    assert utxos[i] in utxos[..j];
    assert multiset(utxos) == multiset(utxos[..j]) + multiset{utxos[j]} + multiset(utxos[j + 1..]);
  }

  lemma PartIsDistinct(part: seq<SolutionTXO>, all: seq<SolutionTXO>)
    requires multiset(part) <= multiset(all) && DistinctIds(all)
    ensures DistinctIds(part)
  {
    forall i, j | 0 <= i < j < |part| ensures part[i].id != part[j].id {
      if part[i].id == part[j].id {
        assert part[i] in multiset(all) && part[j] in multiset(all);
        var k :| 0 <= k < |all| && all[k] == part[i];
        var l :| 0 <= l < |all| && all[l] == part[j];
        ListedTwice(part, i, j);
        ListedOnce(all, part[i]);
      }
    }
  }

  /** No note is selected twice. */
  lemma SelectedAreDistinct(trees: seq<TreeBalance>, amount: int, group: SimpleUTXOGroup)
    requires amount > 0 && Selected(trees, amount) == Some(group)
    requires forall t | 0 <= t < |trees| :: BalanceIsSum(trees[t]) && DistinctIds(trees[t].utxos)
    ensures DistinctIds(group.utxos)
  {
    var offers := Offers(trees, amount);
    var t := LastOffer(offers, |offers|).value;
    OffersAt(trees, amount, t);
    if offers[t].value != [] {
      OfferSuffices(trees[t], amount);
      AvailableIsPart(trees[t].utxos, []);
      PartIsDistinct(group.utxos, trees[t].utxos);
    }
  }

  lemma SelectedAreNotes(trees: seq<TreeBalance>, byId: map<string, TXO>, notes: seq<TXO>,
                         utxos: seq<SolutionTXO>, tree: nat)
    requires Offered(trees, byId, notes) && IsIndex(byId, notes)
    requires tree < |trees| && forall u | u in utxos :: u in trees[tree].utxos
    ensures AreNotesOf(utxos, notes, tree)
  {
    forall u | u in utxos
      ensures var x := Find(notes, u.id);
              x.Some? && u == NoteOf(x.value) && x.value.tree == tree && x.value in notes
    {
      assert u in trees[tree].utxos;
    }
  }

  lemma SpentNext(utxos: seq<SolutionTXO>, byId: map<string, TXO>, tree: nat, notes: seq<TXO>, i: nat)
    requires IsIndex(byId, notes) && AreNotesOf(utxos, notes, tree) && i < |utxos|
    ensures utxos[i].id in byId
    ensures var x := byId[utxos[i].id];
            && x in notes && x.tree == tree && x.nullifier == utxos[i].id && x.value == Val(utxos[i])
            && SpentNotes(utxos[..i + 1], notes) == SpentNotes(utxos[..i], notes) + [x]
  {
    assert utxos[..i + 1][..i] == utxos[..i];
    assert utxos[i] in utxos;
    assert (if utxos[i].id in byId then Some(byId[utxos[i].id]) else None) == Find(notes, utxos[i].id);
    FindIsUnder(notes, utxos[i].id);
  }

  lemma {:induction false} FindIsUnder(notes: seq<TXO>, id: string)
    ensures Find(notes, id).Some? ==> Find(notes, id).value.nullifier == id
  {
    if notes != [] {
      FindIsUnder(notes[..|notes| - 1], id);
    }
  }

  method CollectSpent(utxos: seq<SolutionTXO>, byId: map<string, TXO>, ghost tree: nat, ghost notes: seq<TXO>)
    returns (spend: seq<TXO>)
    requires IsIndex(byId, notes) && AreNotesOf(utxos, notes, tree)
    ensures spend == SpentNotes(utxos, notes)
    ensures BelongTo(spend, utxos) && forall x | x in spend :: x in notes && x.tree == tree
  {
    spend := [];
    for i := 0 to |utxos|
      invariant spend == SpentNotes(utxos[..i], notes)
      invariant BelongTo(spend, utxos[..i]) && forall x | x in spend :: x in notes && x.tree == tree
    {
      SpentNext(utxos, byId, tree, notes, i);
      spend := spend + [byId[utxos[i].id]];
    }
    Seqs.Whole(utxos);
  }

  lemma SelectedAreOffered(trees: seq<TreeBalance>, amount: int)
    requires amount > 0 && (forall t | 0 <= t < |trees| :: BalanceIsSum(trees[t])) && Selected(trees, amount).Some?
    ensures Selected(trees, amount).value.spendingTree < |trees|
    ensures forall u | u in Selected(trees, amount).value.utxos ::
              u in trees[Selected(trees, amount).value.spendingTree].utxos
    ensures Selected(trees, amount).value.amount == Total(Selected(trees, amount).value.utxos)
  {
    var offers := Offers(trees, amount);
    var t := LastOffer(offers, |offers|).value;
    OffersAt(trees, amount, t);
    if offers[t].value != [] {
      OfferedFrom(trees[t], amount);
    }
  }

  lemma OfferedFrom(tree: TreeBalance, amount: int)
    requires amount > 0 && BalanceIsSum(tree) && Offer(tree, amount).Some? && Offer(tree, amount).value != []
    ensures forall u | u in Offer(tree, amount).value :: u in tree.utxos
  {
    OfferSuffices(tree, amount);
    forall u | u in Offer(tree, amount).value ensures u in tree.utxos {
      assert u in multiset(Offer(tree, amount).value);
      assert u in multiset(Available(tree.utxos, []));
    }
  }

  // ----- Balances

  function TotalBalance(trees: seq<TreeBalance>): nat {
    if trees == [] then 0
    else
      TotalBalance(trees[..|trees| - 1])
      + if trees[|trees| - 1].balance.Some? then trees[|trees| - 1].balance.value else 0
  }

  method TransactionTreeBalanceTotal(trees: seq<TreeBalance>) returns (total: nat)
    ensures total == TotalBalance(trees)
  {
    total := 0;
    for i := 0 to |trees|
      invariant total == TotalBalance(trees[..i])
    {
      assert trees[..i + 1][..i] == trees[..i];
      if trees[i].balance.Some? {
        total := total + trees[i].balance.value;
      }
    }
    Seqs.Whole(trees);
  }

  // ----- Spending everything

  ghost predicate AllPositive(utxos: seq<SolutionTXO>) {
    forall u | u in utxos :: Val(u) > 0
  }

  lemma {:induction false} MemberCounts(utxos: seq<SolutionTXO>, u: SolutionTXO)
    requires AllPositive(utxos) && u in utxos
    ensures Val(u) <= Total(utxos) && (|utxos| > 1 ==> Val(u) < Total(utxos))
  {
    var n := |utxos| - 1;
    assert utxos[n] in utxos;
    if u in utxos[..n] {
      MemberCounts(utxos[..n], u);
    } else if n > 0 {
      assert utxos[0] in utxos[..n];
      MemberCounts(utxos[..n], utxos[0]);
    }
  }

  lemma PrefixIsLess(utxos: seq<SolutionTXO>, n: nat)
    requires AllPositive(utxos) && n < |utxos|
    ensures Total(utxos[..n]) < Total(utxos)
  {
    Batches.TotalOfPrefix(utxos, n, |utxos| - 1);
    assert utxos[|utxos| - 1] in utxos;
  }

  /** All of a tree is covered exactly when it is held in at most ten notes. */
  lemma CoversAllIff(tree: TreeBalance)
    requires Total(tree.utxos) > 0
    ensures Covers(tree, Total(tree.utxos)) <==> |Available(tree.utxos, [])| <= Batches.MAX_NULLIFIERS
  {
    var filtered, total := Available(tree.utxos, []), Total(tree.utxos);
    ZeroNotesDoNotCount(tree.utxos);
    SortedLength(filtered);
    SortedKeeps(filtered);
    if |filtered| <= Batches.MAX_NULLIFIERS {
      Seqs.Whole(Sorted(filtered));
    } else {
      Batches.MembersOfPart(Sorted(filtered), filtered);
      PrefixIsLess(Sorted(filtered), Batches.MAX_NULLIFIERS);
      var exact := Batches.FirstExact(filtered, total);
      if exact.Some? {
        MemberCounts(filtered, exact.value);
      }
    }
  }

  /** What two trees hold is part of the balance. */
  lemma {:induction false} TreesCount(trees: seq<TreeBalance>, t: nat, u: nat)
    requires t < u < |trees| && forall i | 0 <= i < |trees| :: BalanceIsSum(trees[i])
    ensures Total(trees[t].utxos) + Total(trees[u].utxos) <= TotalBalance(trees)
  {
    var n := |trees| - 1;
    assert BalanceIsSum(trees[n]);
    if u < n {
      TreesCount(trees[..n], t, u);
    } else {
      TreeCounts(trees[..n], t);
    }
  }

  lemma {:induction false} TreeCounts(trees: seq<TreeBalance>, t: nat)
    requires t < |trees| && forall i | 0 <= i < |trees| :: BalanceIsSum(trees[i])
    ensures Total(trees[t].utxos) <= TotalBalance(trees)
  {
    var n := |trees| - 1;
    assert BalanceIsSum(trees[n]);
    if t < n {
      TreeCounts(trees[..n], t);
    }
  }

  ghost predicate AllSums(trees: seq<TreeBalance>) {
    forall t | 0 <= t < |trees| :: BalanceIsSum(trees[t])
  }

  /** Some tree covers the amount, and every later tree would take more than ten notes. */
  ghost predicate SomeTreeCovers(trees: seq<TreeBalance>, required: int) {
    exists t :: IsLastToCover(trees, required, t)
  }

  /** The last tree holds all value, in at most ten notes. */
  predicate LastHoldsAll(trees: seq<TreeBalance>) {
    && trees != [] && Total(trees[|trees| - 1].utxos) == TotalBalance(trees)
    && |Available(trees[|trees| - 1].utxos, [])| <= Batches.MAX_NULLIFIERS
  }

  /** The whole balance can only come from the last tree, and only in at most ten notes. */
  lemma LastCoversAllIff(trees: seq<TreeBalance>, total: nat)
    requires total == TotalBalance(trees) > 0 && AllSums(trees)
    ensures SomeTreeCovers(trees, total) <==> LastHoldsAll(trees)
  {
    if trees != [] {
      var n := |trees| - 1;
      TreeCounts(trees, n);
      if Total(trees[n].utxos) == total {
        CoversAllIff(trees[n]);
        assert Covers(trees[n], total) ==> IsLastToCover(trees, total, n);
      }
      forall t: nat | IsLastToCover(trees, total, t) ensures t == n && Total(trees[n].utxos) == total {
        if t < n {
          assert Refuses(trees[n], total);
          TreesCount(trees, t, n);
        }
      }
    }
  }
}
