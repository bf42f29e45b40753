/** Choosing notes of a single tree that are worth at least an amount
    (FindExactSolutionsOverTargetValue and CreateSimpleSatisfyingUTXOGroup in
    pkg/transaction/solutions.go). */
module SimpleSelection {
  import opened Wrappers
  import opened Notes
  import opened Batches
  import Seqs

  /** What one tree offers: nothing (None) when it would take more than ten notes, an empty
      selection when the tree is short, or notes that suffice. */
  function Offer(tree: TreeBalance, required: int): Option<seq<SolutionTXO>> {
    var filtered := Available(tree.utxos, []);
    var exact := FirstExact(filtered, required);
    var sorted := Sorted(filtered);
    var n := TakeCount(sorted, required, |sorted|, 0);
    if tree.balance.None? || tree.balance.value < required then Some([])
    else if exact.Some? then Some([exact.value])
    else if Total(sorted[..n]) < required || !(1 <= n <= MAX_NULLIFIERS) then None
    else Some(sorted[..n])
  }

  method FindExactSolutionsOverTargetValue(tree: TreeBalance, required: int) returns (r: Option<seq<SolutionTXO>>)
    ensures r == Offer(tree, required)
  {
    if tree.balance.None? || tree.balance.value < required {
      return Some([]);
    }
    var filtered := FilterZeroUTXOs(tree.utxos);
    var exact := FindExact(filtered, required);
    if exact.Some? {
      return Some([exact.value]);
    }
    var sorted := Sorted(filtered);
    var selected := TakeSmallest(sorted, required, |sorted|);
    var total := CalculateTotalSpend(selected);
    if total < required || !(1 <= |selected| <= MAX_NULLIFIERS) {
      return None;
    }
    return Some(selected);
  }

  /** A selection for an amount: the notes of one tree and their sum. */
  datatype SimpleUTXOGroup = SimpleUTXOGroup(utxos: seq<SolutionTXO>, spendingTree: nat, amount: nat)

  function Offers(trees: seq<TreeBalance>, required: int): (r: seq<Option<seq<SolutionTXO>>>)
    ensures |r| == |trees|
  {
    if trees == [] then [] else Offers(trees[..|trees| - 1], required) + [Offer(trees[|trees| - 1], required)]
  }

  lemma {:induction false} OffersAt(trees: seq<TreeBalance>, required: int, i: nat)
    requires i < |trees|
    ensures Offers(trees, required)[i] == Offer(trees[i], required)
  {
    if i < |trees| - 1 {
      OffersAt(trees[..|trees| - 1], required, i);
    }
  }

  /** The last of the first n offers. */
  function LastOffer<T>(offers: seq<Option<T>>, n: nat): (r: Option<nat>)
    requires n <= |offers|
    ensures r.Some? ==> r.value < n && offers[r.value].Some?
  {
    if n == 0 then None else if offers[n - 1].Some? then Some(n - 1) else LastOffer(offers, n - 1)
  }

  lemma {:induction false} LaterAreNone<T>(offers: seq<Option<T>>, n: nat)
    requires n <= |offers|
    ensures var r := LastOffer(offers, n); forall t | (if r.Some? then r.value + 1 else 0) <= t < n :: offers[t].None?
  {
    if n > 0 && offers[n - 1].None? {
      LaterAreNone(offers, n - 1);
    }
  }

  function Choose(offers: seq<Option<seq<SolutionTXO>>>): Option<SimpleUTXOGroup> {
    var last := LastOffer(offers, |offers|);
    if last.None? then None
    else Some(SimpleUTXOGroup(offers[last.value].value, last.value, Total(offers[last.value].value)))
  }

  function Selected(trees: seq<TreeBalance>, required: int): Option<SimpleUTXOGroup> {
    Choose(Offers(trees, required))
  }

  /** Goes through all trees; a later offer replaces an earlier one. */
  method CreateSimpleSatisfyingUTXOGroup(trees: seq<TreeBalance>, required: int) returns (r: Option<SimpleUTXOGroup>)
    ensures r == Selected(trees, required)
  {
    var selected: seq<SolutionTXO> := [];
    var spendingTree: Option<nat> := None;
    ghost var offers := Offers(trees, required);
    for tree := 0 to |trees|
      invariant IsChosen(offers, tree, spendingTree, selected)
    {
      var solutions := FindExactSolutionsOverTargetValue(trees[tree], required);
      OffersAt(trees, required, tree);
      ChooseNext(offers, tree, spendingTree, selected, solutions);
      if solutions.Some? {
        spendingTree := Some(tree);
        selected := solutions.value;
      }
    }
    if spendingTree.None? {
      return None;
    }
    var amount := CalculateTotalSpend(selected);
    return Some(SimpleUTXOGroup(selected, spendingTree.value, amount));
  }

  ghost predicate IsChosen(offers: seq<Option<seq<SolutionTXO>>>, n: nat, tree: Option<nat>, selected: seq<SolutionTXO>)
    requires n <= |offers|
  {
    tree == LastOffer(offers, n) && (tree.Some? ==> offers[tree.value] == Some(selected))
  }

  lemma ChooseNext(offers: seq<Option<seq<SolutionTXO>>>, n: nat, tree: Option<nat>, selected: seq<SolutionTXO>,
                   offer: Option<seq<SolutionTXO>>)
    requires n < |offers| && IsChosen(offers, n, tree, selected) && offers[n] == offer
    ensures if offer.Some? then IsChosen(offers, n + 1, Some(n), offer.value)
        else IsChosen(offers, n + 1, tree, selected)
  {
  }

  // ----- What an offer amounts to

  /** The recorded balance is the sum of the notes. */
  predicate BalanceIsSum(tree: TreeBalance) {
    (tree.balance.Some? ==> tree.balance.value == Total(tree.utxos)) && (tree.balance.None? ==> tree.utxos == [])
  }

  /** One note of exactly this value, or the ten smallest notes, suffice. */
  predicate CoverableByTen(tree: TreeBalance, required: int) {
    var filtered := Available(tree.utxos, []);
    var n := if |filtered| < MAX_NULLIFIERS then |filtered| else MAX_NULLIFIERS;
    FirstExact(filtered, required).Some? || (n <= |Sorted(filtered)| && Total(Sorted(filtered)[..n]) >= required)
  }

  lemma {:induction false} ZeroNotesDoNotCount(utxos: seq<SolutionTXO>)
    ensures Total(Available(utxos, [])) == Total(utxos)
  {
    if utxos != [] {
      var n := |utxos| - 1;
      ZeroNotesDoNotCount(utxos[..n]);
      if Val(utxos[n]) > 0 {
        TotalSnoc(Available(utxos[..n], []), utxos[n]);
      }
    }
  }

  /** How many of the smallest notes are taken: few enough exactly when the ten smallest suffice. */
  lemma TakenFits(sorted: seq<SolutionTXO>, required: int)
    requires required > 0 && Total(sorted) >= required
    ensures var n := TakeCount(sorted, required, |sorted|, 0);
            && Total(sorted[..n]) >= required && n >= 1 && n <= |sorted|
            && (n <= MAX_NULLIFIERS <==>
                  Total(sorted[..if |sorted| < MAX_NULLIFIERS then |sorted| else MAX_NULLIFIERS]) >= required)
            && Total(sorted[..n - 1]) < required
  {
    TakeCountStops(sorted, required, |sorted|, 0);
    Seqs.Whole(sorted);
    var n := TakeCount(sorted, required, |sorted|, 0);
    var k := if |sorted| < MAX_NULLIFIERS then |sorted| else MAX_NULLIFIERS;
    if n <= k {
      TotalOfPrefix(sorted, n, k);
    } else {
      TotalOfPrefix(sorted, k, n - 1);
    }
  }

  /** A tree offers notes exactly when it is worth enough and ten notes of it, or a single one of
      the exact value, suffice; it refuses when it is worth enough but would take more. */
  lemma OfferIff(tree: TreeBalance, required: int)
    requires required > 0 && BalanceIsSum(tree)
    ensures Offer(tree, required).None? <==> Total(tree.utxos) >= required && !CoverableByTen(tree, required)
    ensures Offer(tree, required) == Some([]) <==> Total(tree.utxos) < required
  {
    var filtered := Available(tree.utxos, []);
    ZeroNotesDoNotCount(tree.utxos);
    SortedLength(filtered);
    if Total(tree.utxos) >= required && FirstExact(filtered, required).None? {
      assert Total(Sorted(filtered)) == Total(filtered) by {
        SortedKeeps(filtered);
      }
      TakenFits(Sorted(filtered), required);
    }
  }

  /** The notes offered suffice, are notes of the tree, none twice, and the largest of them is
      needed. */
  lemma OfferSuffices(tree: TreeBalance, required: int)
    requires required > 0 && BalanceIsSum(tree) && Offer(tree, required).Some? && Offer(tree, required).value != []
    ensures var utxos := Offer(tree, required).value;
            && 1 <= |utxos| <= MAX_NULLIFIERS && Total(utxos) >= required
            && multiset(utxos) <= multiset(Available(tree.utxos, []))
            && exists u :: IsLargest(u, utxos) && Total(utxos) - required < Val(u)
  {
    var filtered := Available(tree.utxos, []);
    var exact := FirstExact(filtered, required);
    ZeroNotesDoNotCount(tree.utxos);
    if exact.Some? {
      SingleIsSelection(filtered, exact.value);
      assert Total([exact.value]) == Val(exact.value);
      assert IsLargest(exact.value, [exact.value]);
    } else {
      SortedKeeps(filtered);
      SortedIsAscending(filtered);
      TakenFits(Sorted(filtered), required);
      var n := TakeCount(Sorted(filtered), required, |Sorted(filtered)|, 0);
      PrefixOfSorted(filtered, n);
      PrefixOvershoot(Sorted(filtered), n, required);
    }
  }

  /** A note of exactly the required value is offered alone. */
  lemma ExactNoteIsOffered(tree: TreeBalance, required: int, u: SolutionTXO)
    requires required > 0 && BalanceIsSum(tree) && u in Available(tree.utxos, []) && Val(u) == required
    ensures exists v :: v in Available(tree.utxos, []) && Val(v) == required && Offer(tree, required) == Some([v])
  {
    var exact := FirstExact(Available(tree.utxos, []), required);
    assert exact.Some?;
    SingleIsSelection(Available(tree.utxos, []), exact.value);
    WorthAtLeast(Available(tree.utxos, []), u);
    ZeroNotesDoNotCount(tree.utxos);
  }

  /** Without one, the smallest notes are offered. */
  lemma OfferIsSmallest(tree: TreeBalance, required: int)
    requires Offer(tree, required).Some? && Offer(tree, required).value != []
    requires forall u | u in Available(tree.utxos, []) :: Val(u) != required
    ensures AreSmallest(Offer(tree, required).value, Available(tree.utxos, []))
  {
    var filtered := Available(tree.utxos, []);
    assert FirstExact(filtered, required).None?;
    PrefixIsSmallest(filtered, TakeCount(Sorted(filtered), required, |Sorted(filtered)|, 0));
  }

  lemma {:induction false} WorthAtLeast(utxos: seq<SolutionTXO>, u: SolutionTXO)
    requires u in utxos
    ensures Val(u) <= Total(utxos)
  {
    var n := |utxos| - 1;
    if u in utxos[..n] {
      WorthAtLeast(utxos[..n], u);
    }
  }

  // ----- What the selection amounts to

  /** The tree is worth the amount and ten notes of it suffice. */
  predicate Covers(tree: TreeBalance, required: int) {
    Total(tree.utxos) >= required && CoverableByTen(tree, required)
  }

  /** The tree is worth the amount but would take more than ten notes. */
  predicate Refuses(tree: TreeBalance, required: int) {
    Total(tree.utxos) >= required && !CoverableByTen(tree, required)
  }

  /** Tree t covers the amount, and every later tree refuses. */
  ghost predicate IsLastToCover(trees: seq<TreeBalance>, required: int, t: nat) {
    t < |trees| && Covers(trees[t], required) && forall u | t < u < |trees| :: Refuses(trees[u], required)
  }

  lemma OfferOf(tree: TreeBalance, required: int)
    requires required > 0 && BalanceIsSum(tree)
    ensures Offer(tree, required).None? <==> Refuses(tree, required)
    ensures Offer(tree, required).Some? && Offer(tree, required).value != [] <==> Covers(tree, required)
    ensures Covers(tree, required) ==> Total(Offer(tree, required).value) >= required
  {
    OfferIff(tree, required);
    if Covers(tree, required) {
      OfferSuffices(tree, required);
    }
  }

  ghost predicate OffersAreRight(trees: seq<TreeBalance>, required: int, offers: seq<Option<seq<SolutionTXO>>>) {
    |offers| == |trees| && forall t | 0 <= t < |trees| ::
      && (offers[t].None? <==> Refuses(trees[t], required))
      && (offers[t].Some? && offers[t].value != [] <==> Covers(trees[t], required))
      && (Covers(trees[t], required) ==> Total(offers[t].value) >= required)
  }

  lemma ChoiceIff(trees: seq<TreeBalance>, required: int, offers: seq<Option<seq<SolutionTXO>>>)
    requires OffersAreRight(trees, required, offers)
    ensures Choose(offers).Some? && Choose(offers).value.utxos != [] <==> exists t :: IsLastToCover(trees, required, t)
    ensures Choose(offers).Some? && Choose(offers).value.utxos != [] ==> Choose(offers).value.amount >= required
    ensures Choose(offers).None? <==> forall t | 0 <= t < |trees| :: Refuses(trees[t], required)
  {
    var last := LastOffer(offers, |offers|);
    LaterAreNone(offers, |offers|);
    if last.Some? && offers[last.value].value != [] {
      assert IsLastToCover(trees, required, last.value);
    }
  }

  /** Notes worth the amount are selected exactly when some tree covers it and every later tree
      is worth enough but would take more than ten notes: a later tree that is short discards
      what an earlier one offered. There is an error exactly when every tree refuses. */
  lemma SelectionIff(trees: seq<TreeBalance>, required: int)
    requires required > 0 && forall t | 0 <= t < |trees| :: BalanceIsSum(trees[t])
    ensures var r := Selected(trees, required);
            && (r.Some? && r.value.utxos != [] <==> exists t :: IsLastToCover(trees, required, t))
            && (r.Some? && r.value.utxos != [] ==> r.value.amount >= required)
            && (r.None? <==> forall t | 0 <= t < |trees| :: Refuses(trees[t], required))
  {
    forall t | 0 <= t < |trees|
      ensures Offers(trees, required)[t].None? <==> Refuses(trees[t], required)
      ensures Offers(trees, required)[t].Some? && Offers(trees, required)[t].value != [] <==> Covers(trees[t], required)
      ensures Covers(trees[t], required) ==> Total(Offers(trees, required)[t].value) >= required
    {
      OfferOf(trees[t], required);
      OffersAt(trees, required, t);
    }
    ChoiceIff(trees, required, Offers(trees, required));
  }

  /** One note of value 5 is not selected for the amount 5 when a tree with a note of value 1 follows:
      there is no error, and nothing is selected. */
  lemma ShortTreeDiscards(note: SolutionTXO, other: SolutionTXO)
    requires note.value == Some(5) && other.value == Some(1)
    ensures Selected([TreeBalance(Some(5), [note])], 5) == Some(SimpleUTXOGroup([note], 0, 5))
    ensures Selected([TreeBalance(Some(5), [note]), TreeBalance(Some(1), [other])], 5)
         == Some(SimpleUTXOGroup([], 1, 0))
  {
    AvailableSnoc([], note, []);
    assert [] + [note] == [note];
    TotalSnoc([], note);
  }
}
