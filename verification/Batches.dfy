/** Choosing notes of one tree (findNextSolutionBatch, FindExactSolutionsOverTargetValue and
    CreateSimpleSatisfyingUTXOGroup in pkg/transaction/solutions.go). */
module Batches {
  import opened Wrappers
  import opened Notes
  import Seqs

  /** A transaction spends one to ten notes. */
  const MAX_NULLIFIERS := 10

  // ----- What is chosen

  function FirstExact(utxos: seq<SolutionTXO>, required: int): (r: Option<SolutionTXO>)
    ensures r.Some? ==> r.value in utxos && Val(r.value) == required
    ensures r.None? ==> forall u | u in utxos :: Val(u) != required
  {
    if utxos == [] then None
    else if Val(utxos[0]) == required then Some(utxos[0])
    else FirstExact(utxos[1..], required)
  }

  /** Starting with n notes, how many are taken until they suffice, at most cap of them. */
  function TakeCount(sorted: seq<SolutionTXO>, required: int, cap: nat, n: nat): (m: nat)
    requires n <= |sorted|
    ensures n <= m <= |sorted|
    decreases |sorted| - n
  {
    if Total(sorted[..n]) >= required || n >= cap || n >= |sorted| then n
    else TakeCount(sorted, required, cap, n + 1)
  }

  /** The next batch of a tree: a note of exactly the required value, or the smallest notes up
      to the required value or the size of a transaction. */
  function NextBatch(utxos: seq<SolutionTXO>, required: int, excluded: seq<string>): Option<seq<SolutionTXO>> {
    var filtered := Available(utxos, excluded);
    var exact := FirstExact(filtered, required);
    var sorted := Sorted(filtered);
    var n := TakeCount(sorted, required, MAX_NULLIFIERS, 0);
    if filtered == [] then None
    else if exact.Some? then Some([exact.value])
    else if n == 0 then None
    else Some(sorted[..n])
  }

  method FindNextSolutionBatch(utxos: seq<SolutionTXO>, required: int, excluded: seq<string>)
    returns (r: Option<seq<SolutionTXO>>)
    ensures r == NextBatch(utxos, required, excluded)
  {
    var filtered := FilterAvailable(utxos, excluded);
    if filtered == [] {
      return None;
    }
    var exact := FindExact(filtered, required);
    if exact.Some? {
      return Some([exact.value]);
    }
    var selected := TakeSmallest(Sorted(filtered), required, MAX_NULLIFIERS);
    if selected == [] {
      return None;
    }
    return Some(selected);
  }

  method FindExact(utxos: seq<SolutionTXO>, required: int) returns (r: Option<SolutionTXO>)
    ensures r == FirstExact(utxos, required)
  {
    for i := 0 to |utxos|
      invariant FirstExact(utxos, required) == FirstExact(utxos[i..], required)
    {
      if Val(utxos[i]) == required {
        return Some(utxos[i]);
      }
    }
    return None;
  }

  method TakeSmallest(sorted: seq<SolutionTXO>, required: int, cap: nat) returns (selected: seq<SolutionTXO>)
    ensures selected == sorted[..TakeCount(sorted, required, cap, 0)]
  {
    selected := [];
    var total := CalculateTotalSpend(selected);
    while total < required && |selected| < cap && |selected| < |sorted|
      invariant |selected| <= |sorted| && selected == sorted[..|selected|]
      invariant total == Total(selected)
      invariant TakeCount(sorted, required, cap, 0) == TakeCount(sorted, required, cap, |selected|)
      decreases |sorted| - |selected|
    {
      selected := selected + [sorted[|selected|]];
      total := CalculateTotalSpend(selected);
    }
  }

  // ----- What the choice amounts to

  lemma {:induction false} TotalOfPrefix(s: seq<SolutionTXO>, m: nat, n: nat)
    requires m <= n <= |s|
    ensures Total(s[..m]) <= Total(s[..n])
  {
    assert s[..n] == s[..m] + s[m..n];
    TotalConcat(s[..m], s[m..n]);
  }

  /** Where taking stops: enough, the cap or the end; and before that it was not enough. */
  lemma {:induction false} TakeCountStops(sorted: seq<SolutionTXO>, required: int, cap: nat, n: nat)
    requires n <= |sorted| && n <= cap
    requires n > 0 ==> Total(sorted[..n - 1]) < required
    ensures var m := TakeCount(sorted, required, cap, n);
            && m <= cap
            && (Total(sorted[..m]) >= required || m == cap || m == |sorted|)
            && (m > 0 ==> Total(sorted[..m - 1]) < required)
    decreases |sorted| - n
  {
    if !(Total(sorted[..n]) >= required || n >= cap || n >= |sorted|) {
      TakeCountStops(sorted, required, cap, n + 1);
    }
  }

  /** No note of a batch is larger than this one. */
  ghost predicate IsLargest(u: SolutionTXO, batch: seq<SolutionTXO>) {
    u in batch && forall v | v in batch :: Val(v) <= Val(u)
  }

  lemma LastIsLargest(sorted: seq<SolutionTXO>, n: nat)
    requires Ascending(sorted) && 0 < n <= |sorted|
    ensures IsLargest(sorted[n - 1], sorted[..n])
  {
  }

  /** A prefix that has become enough with its last note exceeds the target by less than it. */
  lemma PrefixOvershoot(sorted: seq<SolutionTXO>, n: nat, required: int)
    requires Ascending(sorted) && 0 < n <= |sorted| && Total(sorted[..n - 1]) < required
    ensures Total(sorted[..n]) - required < Val(sorted[n - 1]) && IsLargest(sorted[n - 1], sorted[..n])
  {
    LastIsLargest(sorted, n);
    Seqs.PrefixSnoc(sorted, n - 1);
    TotalSnoc(sorted[..n - 1], sorted[n - 1]);
  }

  lemma MultisetOfPrefix<T>(t: seq<T>, n: nat)
    requires n <= |t|
    ensures multiset(t[..n]) <= multiset(t)
  {
    Seqs.Halves(t, n);
  }

  lemma KeysOfPrefix(t: seq<SolutionTXO>, n: nat)
    requires n <= |t|
    ensures multiset(Keys(t[..n])) <= multiset(Keys(t))
  {
    Seqs.Halves(t, n);
    KeysConcat(t[..n], t[n..]);
  }

  lemma MembersOfPart(part: seq<SolutionTXO>, s: seq<SolutionTXO>)
    requires multiset(part) <= multiset(s)
    ensures forall u | u in part :: u in s
  {
    forall u | u in part ensures u in s {
      assert u in multiset(part);
      assert u in multiset(s);
    }
  }

  lemma PrefixOfSorted(s: seq<SolutionTXO>, n: nat)
    requires n <= |Sorted(s)|
    ensures multiset(Sorted(s)[..n]) <= multiset(s)
    ensures multiset(Keys(Sorted(s)[..n])) <= multiset(Keys(s))
    ensures forall u | u in Sorted(s)[..n] :: u in s
  {
    SortedKeeps(s);
    MultisetOfPrefix(Sorted(s), n);
    KeysOfPrefix(Sorted(s), n);
    MembersOfPart(Sorted(s)[..n], s);
  }

  /** There is a next batch exactly when a spendable note is left. */
  lemma BatchExists(utxos: seq<SolutionTXO>, required: int, excluded: seq<string>)
    requires required > 0
    ensures NextBatch(utxos, required, excluded).None? <==> Available(utxos, excluded) == []
  {
    var filtered := Available(utxos, excluded);
    SortedLength(filtered);
    TakeCountStops(Sorted(filtered), required, MAX_NULLIFIERS, 0);
  }

  /** The notes of a batch: one to ten of the available ones, none of them twice. */
  lemma BatchIsSelection(utxos: seq<SolutionTXO>, required: int, excluded: seq<string>)
    requires required > 0 && NextBatch(utxos, required, excluded).Some?
    ensures var batch := NextBatch(utxos, required, excluded).value;
            && 1 <= |batch| <= MAX_NULLIFIERS
            && multiset(batch) <= multiset(Available(utxos, excluded))
            && multiset(Keys(batch)) <= multiset(Keys(Available(utxos, excluded)))
            && (forall u | u in batch :: u in Available(utxos, excluded))
  {
    var filtered := Available(utxos, excluded);
    var exact := FirstExact(filtered, required);
    if exact.Some? {
      SingleIsSelection(filtered, exact.value);
    } else {
      TakeCountStops(Sorted(filtered), required, MAX_NULLIFIERS, 0);
      PrefixOfSorted(filtered, TakeCount(Sorted(filtered), required, MAX_NULLIFIERS, 0));
    }
  }

  lemma SingleIsSelection(s: seq<SolutionTXO>, u: SolutionTXO)
    requires u in s
    ensures multiset([u]) <= multiset(s) && multiset(Keys([u])) <= multiset(Keys(s))
  {
    KeyOfMember(s, u);
    assert Keys([u]) == [UtxoIdPosition(u)];
  }

  /** A batch that suffices exceeds the target by less than its largest note; one that does not
      takes everything or fills a transaction. */
  lemma BatchIsTight(utxos: seq<SolutionTXO>, required: int, excluded: seq<string>)
    requires required > 0 && NextBatch(utxos, required, excluded).Some?
    ensures var batch := NextBatch(utxos, required, excluded).value;
            && Total(batch) > 0
            && (exists u :: IsLargest(u, batch) && Total(batch) - required < Val(u))
            && (Total(batch) < required ==>
                  |batch| == MAX_NULLIFIERS || multiset(batch) == multiset(Available(utxos, excluded)))
  {
    var filtered := Available(utxos, excluded);
    var exact := FirstExact(filtered, required);
    if exact.Some? {
      assert Total([exact.value]) == Val(exact.value);
      assert IsLargest(exact.value, [exact.value]);
    } else {
      SortedPrefixIsTight(filtered, required);
    }
  }

  lemma SortedPrefixIsTight(filtered: seq<SolutionTXO>, required: int)
    requires required > 0 && filtered != [] && forall u | u in filtered :: Val(u) > 0
    ensures var sorted := Sorted(filtered);
            var n := TakeCount(sorted, required, MAX_NULLIFIERS, 0);
            && n > 0 && Total(sorted[..n]) > 0
            && IsLargest(sorted[n - 1], sorted[..n]) && Total(sorted[..n]) - required < Val(sorted[n - 1])
            && (Total(sorted[..n]) < required ==> n == MAX_NULLIFIERS || multiset(sorted[..n]) == multiset(filtered))
  {
    var sorted := Sorted(filtered);
    SortedLength(filtered);
    SortedIsAscending(filtered);
    TakeCountStops(sorted, required, MAX_NULLIFIERS, 0);
    var n := TakeCount(sorted, required, MAX_NULLIFIERS, 0);
    PrefixOvershoot(sorted, n, required);
    PrefixIsPositive(filtered, n);
    if n == |sorted| {
      Seqs.Whole(sorted);
      SortedKeeps(filtered);
    }
  }

  lemma PrefixIsPositive(filtered: seq<SolutionTXO>, n: nat)
    requires 0 < n <= |Sorted(filtered)| && forall u | u in filtered :: Val(u) > 0
    ensures Total(Sorted(filtered)[..n]) > 0
  {
    var sorted := Sorted(filtered);
    PrefixOfSorted(filtered, n);
    Seqs.PrefixSnoc(sorted, n - 1);
    TotalSnoc(sorted[..n - 1], sorted[n - 1]);
    assert sorted[n - 1] in sorted[..n];
  }

  /** A note of exactly the required value is spent alone. */
  lemma ExactNoteAlone(utxos: seq<SolutionTXO>, required: int, excluded: seq<string>, u: SolutionTXO)
    requires u in Available(utxos, excluded) && Val(u) == required
    ensures exists v :: v in Available(utxos, excluded) && Val(v) == required
                        && NextBatch(utxos, required, excluded) == Some([v])
  {
    var exact := FirstExact(Available(utxos, excluded), required);
    assert exact.Some?;
  }

  /** Some of these notes, such that none that is left out is smaller. */
  ghost predicate AreSmallest(batch: seq<SolutionTXO>, all: seq<SolutionTXO>) {
    exists rest: seq<SolutionTXO> :: multiset(batch) + multiset(rest) == multiset(all)
      && forall u, v | u in batch && v in rest :: Val(u) <= Val(v)
  }

  lemma HalvesAscend(sorted: seq<SolutionTXO>, n: nat, u: SolutionTXO, v: SolutionTXO)
    requires Ascending(sorted) && n <= |sorted| && u in sorted[..n] && v in sorted[n..]
    ensures Val(u) <= Val(v)
  {
    var i :| 0 <= i < n && sorted[..n][i] == u;
    var j :| 0 <= j < |sorted| - n && sorted[n..][j] == v;
    assert sorted[i] == u && sorted[n + j] == v;
  }

  lemma HalvesKeep<T>(s: seq<T>, n: nat)
    requires n <= |s|
    ensures multiset(s[..n]) + multiset(s[n..]) == multiset(s)
  {
    Seqs.Halves(s, n);
  }

  lemma PrefixIsSmallest(all: seq<SolutionTXO>, n: nat)
    requires n <= |Sorted(all)|
    ensures AreSmallest(Sorted(all)[..n], all)
  {
    SortedKeeps(all);
    SortedIsAscending(all);
    SmallestOf(Sorted(all), n, all);
  }

  lemma SmallestOf(sorted: seq<SolutionTXO>, n: nat, all: seq<SolutionTXO>)
    requires n <= |sorted| && Ascending(sorted) && multiset(sorted) == multiset(all)
    ensures AreSmallest(sorted[..n], all)
  {
    HalvesKeep(sorted, n);
    forall u, v | u in sorted[..n] && v in sorted[n..] ensures Val(u) <= Val(v) {
      HalvesAscend(sorted, n, u, v);
    }
  }

  /** Without a note of exactly the required value, the smallest notes are taken. */
  lemma BatchIsSmallest(utxos: seq<SolutionTXO>, required: int, excluded: seq<string>)
    requires NextBatch(utxos, required, excluded).Some?
    requires forall u | u in Available(utxos, excluded) :: Val(u) != required
    ensures AreSmallest(NextBatch(utxos, required, excluded).value, Available(utxos, excluded))
  {
    var filtered := Available(utxos, excluded);
    assert FirstExact(filtered, required).None?;
    PrefixIsSmallest(filtered, TakeCount(Sorted(filtered), required, MAX_NULLIFIERS, 0));
  }
}
