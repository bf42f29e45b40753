/** What CreateSpendingSolutionsForValue guarantees: it succeeds exactly when the notes are
    worth enough, it conserves value, and no note is spent twice. */
module SpendingTheorems {
  import opened Wrappers
  import opened Notes
  import opened Batches
  import opened SpendingSolutions
  import Seqs

  // ----- Sums over groups

  function Spent(groups: seq<SpendingSolutionGroup>): nat {
    if groups == [] then 0 else Spent(groups[..|groups| - 1]) + Total(groups[|groups| - 1].utxos)
  }

  /** What a group hands over: the unshielded value and all its token outputs. */
  function Delivered(groups: seq<SpendingSolutionGroup>): int {
    if groups == [] then 0
    else
      var g := groups[|groups| - 1];
      Delivered(groups[..|groups| - 1]) + g.unshieldValue + Requested(g.tokenOutputs)
  }

  /** What a group contributes to the output that is being spread. */
  function PrimaryPart(g: SpendingSolutionGroup, isUnshield: bool): int {
    if isUnshield then g.unshieldValue else if g.tokenOutputs == [] then 0 else Amount(g.tokenOutputs[0])
  }

  function PrimaryDelivered(groups: seq<SpendingSolutionGroup>, isUnshield: bool): int {
    if groups == [] then 0
    else
      PrimaryDelivered(groups[..|groups| - 1], isUnshield) + PrimaryPart(groups[|groups| - 1], isUnshield)
  }

  function GroupKeys(groups: seq<SpendingSolutionGroup>): seq<string> {
    if groups == [] then [] else GroupKeys(groups[..|groups| - 1]) + Keys(groups[|groups| - 1].utxos)
  }

  // ----- The loop invariant

  /** A group spends one to ten spendable notes of its own tree and hands over no more than
      they are worth. */
  ghost predicate GroupIsSound(task: Task, excluded0: seq<string>, g: SpendingSolutionGroup)
    requires task.Valid()
  {
    && g.spendingTree < |task.trees|
    && 1 <= |g.utxos| <= MAX_NULLIFIERS
    && (forall u | u in g.utxos :: u in Available(task.trees[g.spendingTree].utxos, excluded0))
    && ChangeValue(g).Ok?
    && 0 < PrimaryPart(g, task.isUnshield) <= Total(g.utxos)
    && g.tokenData == task.outputs[0].tokenData
    && (if task.isUnshield then g.tokenOutputs == []
        else g.unshieldValue == 0 && g.tokenOutputs != [] && g.tokenOutputs[0].id == task.outputs[0].id)
  }

  ghost predicate NoSharedKeys(groups: seq<SpendingSolutionGroup>) {
    forall i, j, u, v | 0 <= i < j < |groups| && u in groups[i].utxos && v in groups[j].utxos ::
      UtxoIdPosition(u) != UtxoIdPosition(v)
  }

  /** The note that made the last group sufficient is larger than what was too much. */
  ghost predicate Tight(f: Fill) {
    f.amount <= 0 ==>
      f.groups != [] && exists u :: IsLargest(u, f.groups[|f.groups| - 1].utxos) && -f.amount < Val(u)
  }

  /** What is left of the outputs. */
  predicate RemainingIsRight(task: Task, f: Fill)
    requires task.Valid()
  {
    if f.amount > 0 then
      f.remaining == [task.outputs[0].(value := Some(f.amount))] + task.outputs[1..]
    else if -f.amount > 0 && |task.outputs| > 1 && !task.isUnshield then
      f.remaining == ReplaceOrRemoveRemainingOutput(task.outputs[1..], Amount(task.outputs[1]) + f.amount)
    else
      f.remaining == task.outputs[1..]
  }

  ghost predicate Inv(task: Task, excluded0: seq<string>, f: Fill)
    requires task.Valid()
  {
    && SumsAreRight(task, excluded0, f) && GroupsAreRight(task, excluded0, f.groups)
    && RemainingIsRight(task, f) && Tight(f)
  }

  ghost predicate SumsAreRight(task: Task, excluded0: seq<string>, f: Fill)
    requires task.Valid()
  {
    && f.amount == task.Goal() - Spent(f.groups)
    && PrimaryDelivered(f.groups, task.isUnshield) == Min(task.Goal(), Spent(f.groups))
    && Delivered(f.groups) + Requested(f.remaining) == Requested(task.outputs)
    && f.excluded == excluded0 + GroupKeys(f.groups)
  }

  ghost predicate GroupsAreRight(task: Task, excluded0: seq<string>, groups: seq<SpendingSolutionGroup>)
    requires task.Valid()
  {
    (forall g | g in groups :: GroupIsSound(task, excluded0, g)) && NoSharedKeys(groups)
  }

  lemma StartIsInv(task: Task, excluded: seq<string>)
    requires task.Valid()
    ensures Inv(task, excluded, Start(task, excluded))
  {
    assert excluded + [] == excluded;
    assert task.outputs == [task.outputs[0].(value := Some(task.Goal()))] + task.outputs[1..];
  }

  // ----- One pass keeps it

  /** The batch of a pass, and the circumstances in which it is found. */
  ghost predicate Found(task: Task, f: Fill, tree: nat, batch: seq<SolutionTXO>)
    requires task.Valid()
  {
    && tree < |task.trees| && f.amount > 0
    && NextBatch(task.trees[tree].utxos, f.amount, f.excluded) == Some(batch)
  }

  /** The group that a pass adds. */
  function Added(task: Task, f: Fill, tree: nat, batch: seq<SolutionTXO>): SpendingSolutionGroup
    requires task.Valid()
  {
    var groups := AddBatch(task, f, tree, batch).groups;
    groups[|groups| - 1]
  }

  lemma AddedGroup(task: Task, f: Fill, tree: nat, batch: seq<SolutionTXO>)
    requires task.Valid()
    ensures AddBatch(task, f, tree, batch).groups == f.groups + [Added(task, f, tree, batch)]
    ensures AddBatch(task, f, tree, batch).amount == f.amount - Total(batch)
    ensures AddBatch(task, f, tree, batch).excluded == f.excluded + Keys(batch)
    ensures Added(task, f, tree, batch).utxos == batch && Added(task, f, tree, batch).spendingTree == tree
    ensures PrimaryPart(Added(task, f, tree, batch), task.isUnshield) == Min(Total(batch), f.amount)
  {
  }

  lemma SumsSnoc(groups: seq<SpendingSolutionGroup>, g: SpendingSolutionGroup, isUnshield: bool)
    ensures Spent(groups + [g]) == Spent(groups) + Total(g.utxos)
    ensures Delivered(groups + [g]) == Delivered(groups) + g.unshieldValue + Requested(g.tokenOutputs)
    ensures PrimaryDelivered(groups + [g], isUnshield)
         == PrimaryDelivered(groups, isUnshield) + PrimaryPart(g, isUnshield)
    ensures GroupKeys(groups + [g]) == GroupKeys(groups) + Keys(g.utxos)
  {
    assert (groups + [g])[..|groups|] == groups;
  }

  /** What the added group hands over is what leaves the remaining outputs. */
  lemma PassConserves(task: Task, f: Fill, tree: nat, batch: seq<SolutionTXO>)
    requires task.Valid() && f.amount > 0 && Total(batch) > 0 && RemainingIsRight(task, f)
    ensures RemainingIsRight(task, AddBatch(task, f, tree, batch))
    ensures var g, f' := Added(task, f, tree, batch), AddBatch(task, f, tree, batch);
            && g.unshieldValue + Requested(g.tokenOutputs) + Requested(f'.remaining) == Requested(f.remaining)
            && ChangeValue(g).Ok?
  {
    RequestedCons(task.outputs[0].(value := Some(f.amount)), task.outputs[1..]);
    if f.amount > Total(batch) {
      PartialPass(task, f, tree, batch);
    } else if f.amount < Total(batch) && |task.outputs| > 1 && !task.isUnshield {
      PassWithSecond(task, f, tree, batch);
    } else {
      LastPass(task, f, tree, batch);
    }
  }

  lemma PartialPass(task: Task, f: Fill, tree: nat, batch: seq<SolutionTXO>)
    requires task.Valid() && f.amount > Total(batch) > 0 && RemainingIsRight(task, f)
    ensures var g, f' := Added(task, f, tree, batch), AddBatch(task, f, tree, batch);
            && g.unshieldValue + Requested(g.tokenOutputs) == Total(batch)
            && f'.remaining == [task.outputs[0].(value := Some(f.amount - Total(batch)))] + task.outputs[1..]
            && Requested(f'.remaining) == f.amount - Total(batch) + Requested(task.outputs[1..])
  {
    var first, rest := task.outputs[0], task.outputs[1..];
    assert f.remaining[0] == first.(value := Some(f.amount)) && f.remaining[1..] == rest;
    RequestedOne(first.(value := Some(Total(batch))));
    RequestedCons(first.(value := Some(f.amount - Total(batch))), rest);
  }

  lemma LastPass(task: Task, f: Fill, tree: nat, batch: seq<SolutionTXO>)
    requires task.Valid() && 0 < f.amount <= Total(batch) && RemainingIsRight(task, f)
    requires f.amount == Total(batch) || |task.outputs| == 1 || task.isUnshield
    ensures var g, f' := Added(task, f, tree, batch), AddBatch(task, f, tree, batch);
            g.unshieldValue + Requested(g.tokenOutputs) == f.amount && f'.remaining == task.outputs[1..]
  {
    var current := task.outputs[0].(value := Some(f.amount));
    assert f.remaining[1..] == task.outputs[1..];
    RequestedOne(current);
  }

  lemma PassWithSecond(task: Task, f: Fill, tree: nat, batch: seq<SolutionTXO>)
    requires task.Valid() && 0 < f.amount < Total(batch) && RemainingIsRight(task, f)
    requires |task.outputs| > 1 && !task.isUnshield
    ensures var g, f' := Added(task, f, tree, batch), AddBatch(task, f, tree, batch);
            var note := Min(Amount(task.outputs[1]), Total(batch) - f.amount);
            && g.unshieldValue + Requested(g.tokenOutputs) == f.amount + note
            && f'.remaining == ReplaceOrRemoveRemainingOutput(task.outputs[1..], Amount(task.outputs[1]) - note)
            && Requested(f'.remaining) == Requested(task.outputs[1..]) - note
            && RemainingIsRight(task, f')
  {
    var current, second, rest := task.outputs[0].(value := Some(f.amount)), task.outputs[1], task.outputs[1..];
    var note := Min(Amount(second), Total(batch) - f.amount);
    assert f.remaining[1..] == rest && rest[0] == second;
    RequestedTwo(current, second.(value := Some(note)));
    RequestedCons(second.(value := Some(Amount(second) - note)), rest[1..]);
    RequestedCons(second, rest[1..]);
    assert rest == [second] + rest[1..];
  }

  lemma RequestedCons(o: SolutionOutput, rest: seq<SolutionOutput>)
    ensures Requested([o] + rest) == Amount(o) + Requested(rest)
  {
    assert ([o] + rest)[1..] == rest;
  }

  lemma RequestedOne(o: SolutionOutput)
    ensures Requested([o]) == Amount(o) && Requested([]) == 0
  {
  }

  lemma RequestedTwo(o: SolutionOutput, p: SolutionOutput)
    ensures Requested([o] + [p]) == Amount(o) + Amount(p)
  {
    RequestedCons(o, [p]);
    RequestedOne(p);
  }

  lemma AvailableShrinks(utxos: seq<SolutionTXO>, first: seq<string>, more: seq<string>)
    ensures forall u | u in Available(utxos, first + more) :: u in Available(utxos, first)
  {
    AvailableTwice(utxos, first, more);
  }

  lemma {:induction false} KeysOfGroup(groups: seq<SpendingSolutionGroup>, i: nat, u: SolutionTXO)
    requires i < |groups| && u in groups[i].utxos
    ensures UtxoIdPosition(u) in GroupKeys(groups)
  {
    var n := |groups| - 1;
    if i == n {
      KeyOfMember(groups[n].utxos, u);
    } else {
      KeysOfGroup(groups[..n], i, u);
    }
  }

  lemma PassIsSound(task: Task, excluded0: seq<string>, f: Fill, tree: nat, batch: seq<SolutionTXO>)
    requires task.Valid() && Inv(task, excluded0, f) && Found(task, f, tree, batch)
    ensures GroupIsSound(task, excluded0, Added(task, f, tree, batch))
  {
    BatchIsSelection(task.trees[tree].utxos, f.amount, f.excluded);
    BatchIsTight(task.trees[tree].utxos, f.amount, f.excluded);
    AvailableShrinks(task.trees[tree].utxos, excluded0, GroupKeys(f.groups));
    PassConserves(task, f, tree, batch);
    AddedGroup(task, f, tree, batch);
  }

  /** Notes whose keys are not excluded yet share none with the groups before. */
  lemma FreshGroup(groups: seq<SpendingSolutionGroup>, g: SpendingSolutionGroup)
    requires NoSharedKeys(groups)
    requires forall v | v in g.utxos :: UtxoIdPosition(v) !in GroupKeys(groups)
    ensures NoSharedKeys(groups + [g])
  {
    forall i, u, v | 0 <= i < |groups| && u in groups[i].utxos && v in g.utxos
      ensures UtxoIdPosition(u) != UtxoIdPosition(v)
    {
      KeysOfGroup(groups, i, u);
    }
  }

  lemma BatchIsFresh(utxos: seq<SolutionTXO>, required: int, first: seq<string>, more: seq<string>)
    requires required > 0 && NextBatch(utxos, required, first + more).Some?
    ensures forall v | v in NextBatch(utxos, required, first + more).value :: UtxoIdPosition(v) !in more
  {
    BatchIsSelection(utxos, required, first + more);
    forall v | v in NextBatch(utxos, required, first + more).value ensures UtxoIdPosition(v) !in more {
      assert UtxoIdPosition(v) !in first + more;
    }
  }

  lemma PassIsFresh(task: Task, excluded0: seq<string>, f: Fill, tree: nat, batch: seq<SolutionTXO>)
    requires task.Valid() && Inv(task, excluded0, f) && Found(task, f, tree, batch)
    ensures NoSharedKeys(f.groups + [Added(task, f, tree, batch)])
  {
    AddedGroup(task, f, tree, batch);
    BatchIsFresh(task.trees[tree].utxos, f.amount, excluded0, GroupKeys(f.groups));
    FreshGroup(f.groups, Added(task, f, tree, batch));
  }

  lemma PassKeepsSums(task: Task, excluded0: seq<string>, f: Fill, tree: nat, batch: seq<SolutionTXO>)
    requires task.Valid() && f.amount > 0 && Total(batch) > 0
    requires RemainingIsRight(task, f) && SumsAreRight(task, excluded0, f)
    ensures SumsAreRight(task, excluded0, AddBatch(task, f, tree, batch))
  {
    AddedGroup(task, f, tree, batch);
    SumsSnoc(f.groups, Added(task, f, tree, batch), task.isUnshield);
    PassConserves(task, f, tree, batch);
    Seqs.Assoc(excluded0, GroupKeys(f.groups), Keys(batch));
  }

  lemma PassKeepsGroups(task: Task, excluded0: seq<string>, f: Fill, tree: nat, batch: seq<SolutionTXO>)
    requires task.Valid() && Inv(task, excluded0, f) && Found(task, f, tree, batch)
    ensures GroupsAreRight(task, excluded0, AddBatch(task, f, tree, batch).groups)
  {
    AddedGroup(task, f, tree, batch);
    PassIsSound(task, excluded0, f, tree, batch);
    PassIsFresh(task, excluded0, f, tree, batch);
  }

  lemma PassIsTight(task: Task, f: Fill, tree: nat, batch: seq<SolutionTXO>)
    requires task.Valid() && Found(task, f, tree, batch)
    ensures Tight(AddBatch(task, f, tree, batch)) && Total(batch) > 0
  {
    BatchIsTight(task.trees[tree].utxos, f.amount, f.excluded);
    AddedGroup(task, f, tree, batch);
    var groups := AddBatch(task, f, tree, batch).groups;
    assert groups[|groups| - 1] == Added(task, f, tree, batch);
  }

  lemma PassKeepsInv(task: Task, excluded0: seq<string>, f: Fill, tree: nat, batch: seq<SolutionTXO>)
    requires task.Valid() && Inv(task, excluded0, f) && Found(task, f, tree, batch)
    ensures Inv(task, excluded0, AddBatch(task, f, tree, batch))
  {
    PassIsTight(task, f, tree, batch);
    PassKeepsSums(task, excluded0, f, tree, batch);
    PassKeepsGroups(task, excluded0, f, tree, batch);
    PassConserves(task, f, tree, batch);
  }

  lemma {:induction false} FillTreeKeepsInv(task: Task, excluded0: seq<string>, f: Fill, tree: nat)
    requires task.Valid() && Inv(task, excluded0, f) && tree < |task.trees|
    ensures Inv(task, excluded0, FillTree(task, f, tree))
    decreases if f.amount > 0 then f.amount else 0
  {
    if f.amount > 0 {
      var batch := NextBatch(task.trees[tree].utxos, f.amount, f.excluded);
      if batch.Some? {
        BatchIsTight(task.trees[tree].utxos, f.amount, f.excluded);
        PassKeepsInv(task, excluded0, f, tree, batch.value);
        AddedGroup(task, f, tree, batch.value);
        FillTreeKeepsInv(task, excluded0, AddBatch(task, f, tree, batch.value), tree);
      }
    }
  }

  /** What every tree keeps holds after all of them. */
  lemma {:induction false} OverAllTrees(task: Task, f: Fill, tree: nat, holds: (Fill, nat) -> bool)
    requires task.Valid() && tree <= |task.trees| && holds(f, tree)
    requires forall g, t: nat | t < |task.trees| && holds(g, t) :: holds(FillTree(task, g, t), t + 1)
    ensures holds(FillTrees(task, f, tree), |task.trees|)
    decreases |task.trees| - tree
  {
    if tree < |task.trees| {
      OverAllTrees(task, FillTree(task, f, tree), tree + 1, holds);
    }
  }

  lemma FillTreesKeepsInv(task: Task, excluded0: seq<string>, f: Fill)
    requires task.Valid() && Inv(task, excluded0, f)
    ensures Inv(task, excluded0, FillTrees(task, f, 0))
  {
    var holds := (g: Fill, t: nat) => Inv(task, excluded0, g);
    forall g, t: nat | t < |task.trees| && holds(g, t) ensures holds(FillTree(task, g, t), t + 1) {
      FillTreeKeepsInv(task, excluded0, g, t);
    }
    OverAllTrees(task, f, 0, holds);
  }

  /** Whatever the trees, the outputs and the exclusions: when the output can be filled, the
      groups hand over exactly the requested value and no group more than it spends, what is
      delivered and what remains add up to what was asked for, every note spent was spendable,
      no two groups spend notes with the same key, and the last group exceeds what was still
      needed by less than one of its notes. */
  lemma SolutionsAreSound(task: Task, excluded0: seq<string>)
    requires task.Valid() && Finish(task, excluded0).amount <= 0
    ensures var f := Finish(task, excluded0);
            && PrimaryDelivered(f.groups, task.isUnshield) == task.Goal()
            && Delivered(f.groups) + Requested(f.remaining) == Requested(task.outputs)
            && f.excluded == excluded0 + GroupKeys(f.groups)
            && (forall g | g in f.groups :: GroupIsSound(task, excluded0, g))
            && NoSharedKeys(f.groups)
            && RemainingIsRight(task, f)
            && Tight(f)
  {
    StartIsInv(task, excluded0);
    FillTreesKeepsInv(task, excluded0, Start(task, excluded0));
  }

  // ----- Success means that the money is there

  function AllNotes(trees: seq<TreeBalance>): seq<SolutionTXO> {
    if trees == [] then [] else AllNotes(trees[..|trees| - 1]) + trees[|trees| - 1].utxos
  }

  /** What all notes are worth that can still be spent. */
  function Supply(trees: seq<TreeBalance>, excluded: seq<string>): nat {
    Total(Available(AllNotes(trees), excluded))
  }

  /** The spendable notes of all trees have pairwise different keys. */
  ghost predicate DistinctKeys(trees: seq<TreeBalance>, excluded: seq<string>) {
    NoDuplicates(Keys(Available(AllNotes(trees), excluded)))
  }

  /** What is available among some notes is available among others, no key more often. */
  ghost predicate Within(part: seq<SolutionTXO>, all: seq<SolutionTXO>, excluded: seq<string>) {
    && multiset(Keys(Available(part, excluded))) <= multiset(Keys(Available(all, excluded)))
    && forall u | u in Available(part, excluded) :: u in Available(all, excluded)
  }

  /** The notes of a tree stand together among all notes. */
  lemma {:induction false} SplitAround(trees: seq<TreeBalance>, tree: nat)
    returns (before: seq<SolutionTXO>, after: seq<SolutionTXO>)
    requires tree < |trees|
    ensures AllNotes(trees) == before + trees[tree].utxos + after
  {
    var n := |trees| - 1;
    if tree == n {
      before, after := AllNotes(trees[..n]), [];
    } else {
      before, after := SplitAround(trees[..n], tree);
      Seqs.Assoc(before + trees[tree].utxos, after, trees[n].utxos);
      after := after + trees[n].utxos;
    }
  }

  lemma WithinConcat(before: seq<SolutionTXO>, part: seq<SolutionTXO>, after: seq<SolutionTXO>, excluded: seq<string>)
    ensures Within(part, before + part + after, excluded)
  {
    AvailableConcat(before, part, excluded);
    AvailableConcat(before + part, after, excluded);
    KeysConcat(Available(before, excluded), Available(part, excluded));
    KeysConcat(Available(before + part, excluded), Available(after, excluded));
  }

  lemma TreeInAll(trees: seq<TreeBalance>, tree: nat, excluded: seq<string>)
    requires tree < |trees|
    ensures Within(trees[tree].utxos, AllNotes(trees), excluded)
  {
    var before, after := SplitAround(trees, tree);
    WithinConcat(before, trees[tree].utxos, after, excluded);
  }

  lemma {:induction false} RemoveAbsent(a: seq<SolutionTXO>, k: string)
    requires k !in Keys(a) && forall u | u in a :: Val(u) > 0
    ensures Available(a, [k]) == a
  {
    if a != [] {
      var n := |a| - 1;
      assert a == a[..n] + [a[n]];
      assert a[n] in a;
      RemoveAbsent(a[..n], k);
      AvailableSnoc(a[..n], a[n], [k]);
    }
  }

  /** Excluding one note takes away its value. */
  lemma {:induction false} RemoveOne(a: seq<SolutionTXO>, u: SolutionTXO)
    requires u in a && NoDuplicates(Keys(a)) && forall v | v in a :: Val(v) > 0
    ensures Total(Available(a, [UtxoIdPosition(u)])) + Val(u) == Total(a)
  {
    var n, k := |a| - 1, UtxoIdPosition(u);
    var front, last := a[..n], a[n];
    LastKeyIsNew(a);
    if last == u {
      RemoveAbsent(front, k);
    } else {
      assert a == front + [last];
      KeyOfMember(front, u);
      RemoveOne(front, u);
      TotalSnoc(Available(front, [k]), last);
    }
  }

  lemma LastKeyIsNew(a: seq<SolutionTXO>)
    requires a != [] && NoDuplicates(Keys(a))
    ensures NoDuplicates(Keys(a[..|a| - 1])) && UtxoIdPosition(a[|a| - 1]) !in Keys(a[..|a| - 1])
  {
    var front, k := Keys(a[..|a| - 1]), UtxoIdPosition(a[|a| - 1]);
    assert multiset(Keys(a)) == multiset(front) + multiset{k};
    forall x ensures multiset(front)[x] <= 1 {
      assert multiset(Keys(a))[x] <= 1;
    }
    assert multiset(Keys(a))[k] <= 1;
  }

  ghost predicate DistinctPlaces(a: seq<SolutionTXO>) {
    forall i, j | 0 <= i < j < |a| :: a[i].txid != a[j].txid || a[i].position != a[j].position
  }

  lemma NewKeyIff(front: seq<string>, k: string)
    ensures NoDuplicates(front + [k]) <==> NoDuplicates(front) && k !in front
  {
    assert multiset(front + [k]) == multiset(front) + multiset{k};
    if NoDuplicates(front + [k]) {
      forall x ensures multiset(front)[x] <= 1 {
        assert multiset(front + [k])[x] <= 1;
      }
      assert multiset(front + [k])[k] <= 1;
    }
  }

  lemma LastKeyIff(a: seq<SolutionTXO>)
    requires a != []
    ensures UtxoIdPosition(a[|a| - 1]) !in Keys(a[..|a| - 1])
       <==> forall i | 0 <= i < |a| - 1 :: a[i].txid != a[|a| - 1].txid || a[i].position != a[|a| - 1].position
  {
    var n := |a| - 1;
    var front, last := a[..n], a[n];
    forall i | 0 <= i < n && a[i].txid == last.txid && a[i].position == last.position
      ensures UtxoIdPosition(last) in Keys(front)
    {
      assert front[i] == a[i];
      KeyOfMember(front, a[i]);
    }
    if UtxoIdPosition(last) in Keys(front) {
      var u := MemberOfKey(front, UtxoIdPosition(last));
      KeyIsInjective(u, last);
      var i :| 0 <= i < n && front[i] == u;
      assert a[i] == u;
    }
  }

  /** Notes have distinct keys exactly when they have distinct transactions or positions. */
  lemma {:induction false} KeysAreDistinctIff(a: seq<SolutionTXO>)
    ensures NoDuplicates(Keys(a)) <==> DistinctPlaces(a)
  {
    if a != [] {
      var n := |a| - 1;
      KeysAreDistinctIff(a[..n]);
      NewKeyIff(Keys(a[..n]), UtxoIdPosition(a[n]));
      LastKeyIff(a);
      DistinctStep(a);
    }
  }

  lemma DistinctStep(a: seq<SolutionTXO>)
    requires a != []
    ensures DistinctPlaces(a)
       <==> (DistinctPlaces(a[..|a| - 1])
             && forall i | 0 <= i < |a| - 1 :: a[i].txid != a[|a| - 1].txid || a[i].position != a[|a| - 1].position)
  {
    var front := a[..|a| - 1];
    assert forall i | 0 <= i < |front| :: front[i] == a[i];
  }

  lemma {:induction false} AvailableKeys(a: seq<SolutionTXO>, excluded: seq<string>)
    ensures multiset(Keys(Available(a, excluded))) <= multiset(Keys(a))
  {
    if a != [] {
      var n := |a| - 1;
      AvailableKeys(a[..n], excluded);
      KeysConcat(Available(a[..n], excluded), [a[n]]);
      assert Keys([a[n]]) == [UtxoIdPosition(a[n])];
    }
  }

  lemma FewerKeys(a: seq<string>, b: seq<string>)
    requires multiset(a) <= multiset(b) && NoDuplicates(b)
    ensures NoDuplicates(a)
  {
    forall k ensures multiset(a)[k] <= 1 {
      assert multiset(b)[k] <= 1;
    }
  }

  /** Excluding a batch takes away its value, and only that. */
  lemma {:induction false} RemoveBatch(a: seq<SolutionTXO>, batch: seq<SolutionTXO>)
    requires NoDuplicates(Keys(a)) && NoDuplicates(Keys(batch))
    requires forall u | u in batch :: u in a
    requires forall v | v in a :: Val(v) > 0
    ensures Total(Available(a, Keys(batch))) + Total(batch) == Total(a)
  {
    if batch == [] {
      AvailableOfNothing(a);
    } else {
      var n := |batch| - 1;
      var front, last := batch[..n], batch[n];
      LastKeyIsNew(batch);
      assert batch == front + [last];
      RemoveBatch(a, front);
      AvailableTwice(a, Keys(front), [UtxoIdPosition(last)]);
      StillAvailable(a, last, Keys(front));
      AvailableKeys(a, Keys(front));
      FewerKeys(Keys(Available(a, Keys(front))), Keys(a));
      RemoveOne(Available(a, Keys(front)), last);
    }
  }

  lemma {:induction false} AvailableOfNothing(a: seq<SolutionTXO>)
    requires forall v | v in a :: Val(v) > 0
    ensures Available(a, []) == a
  {
    if a != [] {
      var front, last := a[..|a| - 1], a[|a| - 1];
      assert a == front + [last];
      AvailableOfNothing(front);
      AvailableSnoc(front, last, []);
    }
  }

  lemma {:induction false} StillAvailable(a: seq<SolutionTXO>, u: SolutionTXO, excluded: seq<string>)
    requires u in a && Val(u) > 0 && UtxoIdPosition(u) !in excluded
    ensures u in Available(a, excluded)
  {
    var n := |a| - 1;
    if u != a[n] {
      assert a == a[..n] + [a[n]];
      StillAvailable(a[..n], u, excluded);
    }
  }

  /** A pass takes the value of its batch out of the supply. */
  lemma PassSpendsSupply(task: Task, f: Fill, tree: nat, batch: seq<SolutionTXO>)
    requires task.Valid() && Found(task, f, tree, batch) && DistinctKeys(task.trees, f.excluded)
    ensures var f' := AddBatch(task, f, tree, batch);
            && Supply(task.trees, f'.excluded) + Total(batch) == Supply(task.trees, f.excluded)
            && DistinctKeys(task.trees, f'.excluded)
  {
    var a := Available(AllNotes(task.trees), f.excluded);
    BatchIsSelection(task.trees[tree].utxos, f.amount, f.excluded);
    TreeInAll(task.trees, tree, f.excluded);
    AvailableTwice(AllNotes(task.trees), f.excluded, Keys(batch));
    SupplyWithout(a, batch);
  }

  lemma SupplyWithout(a: seq<SolutionTXO>, batch: seq<SolutionTXO>)
    requires NoDuplicates(Keys(a)) && multiset(Keys(batch)) <= multiset(Keys(a))
    requires (forall u | u in batch :: u in a) && forall v | v in a :: Val(v) > 0
    ensures Total(Available(a, Keys(batch))) + Total(batch) == Total(a)
    ensures NoDuplicates(Keys(Available(a, Keys(batch))))
  {
    FewerKeys(Keys(batch), Keys(a));
    RemoveBatch(a, batch);
    AvailableKeys(a, Keys(batch));
    FewerKeys(Keys(Available(a, Keys(batch))), Keys(a));
  }

  /** The value spent so far is missing from the supply, and nothing else is. */
  ghost predicate Accounted(task: Task, excluded0: seq<string>, f: Fill)
    requires task.Valid()
  {
    && DistinctKeys(task.trees, f.excluded)
    && task.Goal() - f.amount == Supply(task.trees, excluded0) - Supply(task.trees, f.excluded)
  }

  /** A tree has been used up. */
  predicate Exhausted(task: Task, f: Fill, tree: nat)
    requires tree < |task.trees|
  {
    Available(task.trees[tree].utxos, f.excluded) == []
  }

  lemma ExhaustedStays(utxos: seq<SolutionTXO>, excluded: seq<string>, more: seq<string>)
    requires Available(utxos, excluded) == []
    ensures Available(utxos, excluded + more) == []
  {
    AvailableTwice(utxos, excluded, more);
  }

  lemma {:induction false} FillTreeAccounts(task: Task, excluded0: seq<string>, f: Fill, tree: nat)
    requires task.Valid() && tree < |task.trees| && Accounted(task, excluded0, f)
    ensures Accounted(task, excluded0, FillTree(task, f, tree))
    decreases if f.amount > 0 then f.amount else 0
  {
    if f.amount > 0 {
      var batch := NextBatch(task.trees[tree].utxos, f.amount, f.excluded);
      if batch.Some? {
        BatchIsTight(task.trees[tree].utxos, f.amount, f.excluded);
        AddedGroup(task, f, tree, batch.value);
        PassSpendsSupply(task, f, tree, batch.value);
        FillTreeAccounts(task, excluded0, AddBatch(task, f, tree, batch.value), tree);
      }
    }
  }

  /** A tree that does not suffice is used up, and trees that were used up stay so. */
  lemma {:induction false} FillTreeExhausts(task: Task, f: Fill, tree: nat)
    requires task.Valid() && tree < |task.trees|
    ensures var f' := FillTree(task, f, tree);
            && (f'.amount > 0 ==> f.amount > 0 && Exhausted(task, f', tree))
            && (forall t | 0 <= t < |task.trees| && Exhausted(task, f, t) :: Exhausted(task, f', t))
    decreases if f.amount > 0 then f.amount else 0
  {
    if f.amount > 0 {
      var batch := NextBatch(task.trees[tree].utxos, f.amount, f.excluded);
      BatchExists(task.trees[tree].utxos, f.amount, f.excluded);
      if batch.Some? {
        BatchIsTight(task.trees[tree].utxos, f.amount, f.excluded);
        AddedGroup(task, f, tree, batch.value);
        var f1 := AddBatch(task, f, tree, batch.value);
        forall t | 0 <= t < |task.trees| && Exhausted(task, f, t) ensures Exhausted(task, f1, t) {
          ExhaustedStays(task.trees[t].utxos, f.excluded, Keys(batch.value));
        }
        FillTreeExhausts(task, f1, tree);
      }
    }
  }

  /** Every tree below this one has been used up. */
  predicate ExhaustedBelow(task: Task, f: Fill, tree: nat)
    requires tree <= |task.trees|
  {
    tree == 0 || (Exhausted(task, f, tree - 1) && ExhaustedBelow(task, f, tree - 1))
  }

  lemma {:induction false} ExhaustedStaysBelow(task: Task, f: Fill, g: Fill, tree: nat)
    requires tree <= |task.trees| && ExhaustedBelow(task, f, tree)
    requires forall t | 0 <= t < |task.trees| && Exhausted(task, f, t) :: Exhausted(task, g, t)
    ensures ExhaustedBelow(task, g, tree)
  {
    if tree > 0 {
      ExhaustedStaysBelow(task, f, g, tree - 1);
    }
  }

  lemma {:induction false} ExhaustedAt(task: Task, f: Fill, tree: nat, t: nat)
    requires t < tree <= |task.trees| && ExhaustedBelow(task, f, tree)
    ensures Exhausted(task, f, t)
  {
    if t < tree - 1 {
      ExhaustedAt(task, f, tree - 1, t);
    }
  }

  predicate UsedUp(task: Task, f: Fill, tree: nat) {
    tree <= |task.trees| && (f.amount > 0 ==> ExhaustedBelow(task, f, tree))
  }

  lemma NextTreeIsUsedUp(task: Task, f: Fill, tree: nat)
    requires task.Valid() && tree < |task.trees| && UsedUp(task, f, tree)
    ensures UsedUp(task, FillTree(task, f, tree), tree + 1)
  {
    FillTreeExhausts(task, f, tree);
    if FillTree(task, f, tree).amount > 0 {
      ExhaustedStaysBelow(task, f, FillTree(task, f, tree), tree);
    }
  }

  lemma {:induction false} FillTreesExhausts(task: Task, f: Fill, tree: nat)
    requires task.Valid() && UsedUp(task, f, tree)
    ensures UsedUp(task, FillTrees(task, f, tree), |task.trees|)
    decreases |task.trees| - tree
  {
    if tree < |task.trees| {
      NextTreeIsUsedUp(task, f, tree);
      FillTreesExhausts(task, FillTree(task, f, tree), tree + 1);
    }
  }

  lemma FillTreesAccounts(task: Task, excluded0: seq<string>, f: Fill)
    requires task.Valid() && Accounted(task, excluded0, f)
    ensures Accounted(task, excluded0, FillTrees(task, f, 0))
  {
    var holds := (g: Fill, t: nat) => Accounted(task, excluded0, g);
    forall g, t: nat | t < |task.trees| && holds(g, t) ensures holds(FillTree(task, g, t), t + 1) {
      FillTreeAccounts(task, excluded0, g, t);
    }
    OverAllTrees(task, f, 0, holds);
  }

  lemma {:induction false} NothingLeft(trees: seq<TreeBalance>, excluded: seq<string>)
    requires forall t | 0 <= t < |trees| :: Available(trees[t].utxos, excluded) == []
    ensures Supply(trees, excluded) == 0
  {
    if trees != [] {
      var n := |trees| - 1;
      forall t | 0 <= t < n ensures Available(trees[..n][t].utxos, excluded) == [] {
        assert trees[..n][t] == trees[t];
      }
      NothingLeft(trees[..n], excluded);
      AvailableConcat(AllNotes(trees[..n]), trees[n].utxos, excluded);
    }
  }

  /** The output can be filled exactly when the spendable notes of all trees together are worth
      at least its value, however many batches that takes. */
  lemma SucceedsIffFunded(task: Task, excluded0: seq<string>)
    requires task.Valid() && DistinctKeys(task.trees, excluded0)
    ensures Finish(task, excluded0).amount <= 0 <==> Supply(task.trees, excluded0) >= task.Goal()
  {
    var f := Finish(task, excluded0);
    FillTreesAccounts(task, excluded0, Start(task, excluded0));
    FillTreesExhausts(task, Start(task, excluded0), 0);
    if f.amount > 0 {
      forall t | 0 <= t < |task.trees| ensures Available(task.trees[t].utxos, f.excluded) == [] {
        ExhaustedAt(task, f, |task.trees|, t);
      }
      NothingLeft(task.trees, f.excluded);
    }
  }

  // ----- Every key is spent at most once

  lemma JoinKeys(a: seq<string>, b: seq<string>)
    requires NoDuplicates(a) && NoDuplicates(b) && forall k | k in b :: k !in a
    ensures NoDuplicates(a + b)
  {
    forall k ensures multiset(a + b)[k] <= 1 {
      assert multiset(a)[k] <= 1 && multiset(b)[k] <= 1;
      assert multiset(a + b)[k] == multiset(a)[k] + multiset(b)[k];
      assert k in multiset(a) <==> k in a;
      assert k in multiset(b) <==> k in b;
    }
  }

  /** The keys spent so far, each of them once. */
  ghost predicate SpentOnce(task: Task, excluded0: seq<string>, f: Fill)
    requires task.Valid()
  {
    && DistinctKeys(task.trees, f.excluded) && NoDuplicates(GroupKeys(f.groups))
    && f.excluded == excluded0 + GroupKeys(f.groups)
  }

  /** The notes of a batch have different keys. */
  lemma BatchKeysDiffer(task: Task, f: Fill, tree: nat, batch: seq<SolutionTXO>)
    requires task.Valid() && Found(task, f, tree, batch) && DistinctKeys(task.trees, f.excluded)
    ensures NoDuplicates(Keys(batch))
  {
    BatchIsSelection(task.trees[tree].utxos, f.amount, f.excluded);
    TreeInAll(task.trees, tree, f.excluded);
    FewerKeys(Keys(batch), Keys(Available(AllNotes(task.trees), f.excluded)));
  }

  lemma PassSpendsOnce(task: Task, excluded0: seq<string>, f: Fill, tree: nat, batch: seq<SolutionTXO>)
    requires task.Valid() && Found(task, f, tree, batch) && SpentOnce(task, excluded0, f)
    ensures SpentOnce(task, excluded0, AddBatch(task, f, tree, batch))
  {
    AddedGroup(task, f, tree, batch);
    SumsSnoc(f.groups, Added(task, f, tree, batch), task.isUnshield);
    PassSpendsSupply(task, f, tree, batch);
    BatchKeysDiffer(task, f, tree, batch);
    BatchIsFresh(task.trees[tree].utxos, f.amount, excluded0, GroupKeys(f.groups));
    forall k | k in Keys(batch) ensures k !in GroupKeys(f.groups) {
      var u := MemberOfKey(batch, k);
    }
    JoinKeys(GroupKeys(f.groups), Keys(batch));
    Seqs.Assoc(excluded0, GroupKeys(f.groups), Keys(batch));
  }

  lemma {:induction false} FillTreeSpendsOnce(task: Task, excluded0: seq<string>, f: Fill, tree: nat)
    requires task.Valid() && tree < |task.trees| && SpentOnce(task, excluded0, f)
    ensures SpentOnce(task, excluded0, FillTree(task, f, tree))
    decreases if f.amount > 0 then f.amount else 0
  {
    if f.amount > 0 {
      var batch := NextBatch(task.trees[tree].utxos, f.amount, f.excluded);
      if batch.Some? {
        BatchIsTight(task.trees[tree].utxos, f.amount, f.excluded);
        AddedGroup(task, f, tree, batch.value);
        PassSpendsOnce(task, excluded0, f, tree, batch.value);
        FillTreeSpendsOnce(task, excluded0, AddBatch(task, f, tree, batch.value), tree);
      }
    }
  }

  /** When the spendable notes have different keys, no key occurs twice among all notes of all
      groups, neither in one group nor in two, and the keys spent stay excluded. */
  lemma NoKeyIsSpentTwice(task: Task, excluded0: seq<string>)
    requires task.Valid() && DistinctKeys(task.trees, excluded0)
    ensures var f := Finish(task, excluded0);
            NoDuplicates(GroupKeys(f.groups)) && f.excluded == excluded0 + GroupKeys(f.groups)
  {
    assert excluded0 + [] == excluded0;
    var holds := (g: Fill, t: nat) => SpentOnce(task, excluded0, g);
    forall g, t: nat | t < |task.trees| && holds(g, t) ensures holds(FillTree(task, g, t), t + 1) {
      FillTreeSpendsOnce(task, excluded0, g, t);
    }
    OverAllTrees(task, Start(task, excluded0), 0, holds);
  }

  // ----- Who is paid

  /** The group hands its part to the first output: by unshielding it, or as its first token output. */
  ghost predicate PaysFirst(task: Task, g: SpendingSolutionGroup)
    requires task.Valid()
  {
    if task.isUnshield then g.tokenOutputs == []
    else
      && g.unshieldValue == 0 && g.tokenOutputs != []
      && g.tokenOutputs[0].id == task.outputs[0].id && g.tokenOutputs[0].tokenData == task.outputs[0].tokenData
  }

  /** The group hands change to the second output, as its second and last token output. */
  ghost predicate PaysSecond(task: Task, g: SpendingSolutionGroup)
    requires task.Valid()
  {
    && !task.isUnshield && |task.outputs| > 1 && |g.tokenOutputs| == 2
    && g.tokenOutputs[1].id == task.outputs[1].id && g.tokenOutputs[1].tokenData == task.outputs[1].tokenData
  }

  /** Every group pays the first output; only the last group may also pay the second, and only when the first
      is overfilled. */
  ghost predicate ReceiversAreRight(task: Task, f: Fill)
    requires task.Valid()
  {
    forall i | 0 <= i < |f.groups| ::
      && PaysFirst(task, f.groups[i])
      && (|f.groups[i].tokenOutputs| <= 1 || (i == |f.groups| - 1 && f.amount < 0 && PaysSecond(task, f.groups[i])))
  }

  lemma AddedPays(task: Task, f: Fill, tree: nat, batch: seq<SolutionTXO>)
    requires task.Valid()
    ensures var g, f' := Added(task, f, tree, batch), AddBatch(task, f, tree, batch);
            PaysFirst(task, g) && (|g.tokenOutputs| <= 1 || (f'.amount < 0 && PaysSecond(task, g)))
  {
  }

  lemma PassKeepsReceivers(task: Task, f: Fill, tree: nat, batch: seq<SolutionTXO>)
    requires task.Valid() && f.amount > 0 && ReceiversAreRight(task, f)
    ensures ReceiversAreRight(task, AddBatch(task, f, tree, batch))
  {
    AddedGroup(task, f, tree, batch);
    AddedPays(task, f, tree, batch);
  }

  lemma {:induction false} FillTreeKeepsReceivers(task: Task, f: Fill, tree: nat)
    requires task.Valid() && tree < |task.trees| && ReceiversAreRight(task, f)
    ensures ReceiversAreRight(task, FillTree(task, f, tree))
    decreases if f.amount > 0 then f.amount else 0
  {
    if f.amount > 0 {
      var batch := NextBatch(task.trees[tree].utxos, f.amount, f.excluded);
      if batch.Some? {
        BatchIsTight(task.trees[tree].utxos, f.amount, f.excluded);
        AddedGroup(task, f, tree, batch.value);
        PassKeepsReceivers(task, f, tree, batch.value);
        FillTreeKeepsReceivers(task, AddBatch(task, f, tree, batch.value), tree);
      }
    }
  }

  lemma FinishHasReceivers(task: Task, excluded0: seq<string>)
    requires task.Valid()
    ensures ReceiversAreRight(task, Finish(task, excluded0))
  {
    var holds := (g: Fill, t: nat) => ReceiversAreRight(task, g);
    forall g, t: nat | t < |task.trees| && holds(g, t) ensures holds(FillTree(task, g, t), t + 1) {
      FillTreeKeepsReceivers(task, g, t);
    }
    OverAllTrees(task, Start(task, excluded0), 0, holds);
  }

  /** What a group hands to the output at position i. */
  function PartFor(g: SpendingSolutionGroup, i: nat, isUnshield: bool): int {
    if isUnshield then if i == 0 then g.unshieldValue else 0
    else if i < |g.tokenOutputs| then Amount(g.tokenOutputs[i]) else 0
  }

  function DeliveredTo(groups: seq<SpendingSolutionGroup>, i: nat, isUnshield: bool): int {
    if groups == [] then 0
    else DeliveredTo(groups[..|groups| - 1], i, isUnshield) + PartFor(groups[|groups| - 1], i, isUnshield)
  }

  /** The outputs that remain are the last ones requested, with the same receivers. */
  ghost predicate RemainAtTheEnd(outputs: seq<SolutionOutput>, remaining: seq<SolutionOutput>) {
    |remaining| <= |outputs| && forall j | 0 <= j < |remaining| ::
      var o := outputs[|outputs| - |remaining| + j];
      remaining[j].id == o.id && remaining[j].tokenData == o.tokenData
  }

  /** What remains of the output at position i. */
  function LeftFor(outputs: seq<SolutionOutput>, remaining: seq<SolutionOutput>, i: nat): int
    requires i < |outputs| && |remaining| <= |outputs|
  {
    var gone := |outputs| - |remaining|;
    if i < gone then 0 else Amount(remaining[i - gone])
  }

  /** Groups of at most two token outputs hand everything to the first two positions. */
  lemma {:induction false} DeliveredToTwo(task: Task, groups: seq<SpendingSolutionGroup>, i: nat)
    requires task.Valid()
    requires forall g | g in groups :: PaysFirst(task, g) && |g.tokenOutputs| <= 2
    ensures Delivered(groups) == DeliveredTo(groups, 0, task.isUnshield) + DeliveredTo(groups, 1, task.isUnshield)
    ensures DeliveredTo(groups, 0, task.isUnshield) == PrimaryDelivered(groups, task.isUnshield)
    ensures i > 1 ==> DeliveredTo(groups, i, task.isUnshield) == 0
  {
    if groups != [] {
      var front, last := groups[..|groups| - 1], groups[|groups| - 1];
      assert last in groups;
      DeliveredToTwo(task, front, i);
      PartsAreAll(task, last);
    }
  }

  lemma PartsAreAll(task: Task, g: SpendingSolutionGroup)
    requires task.Valid() && PaysFirst(task, g) && |g.tokenOutputs| <= 2
    ensures g.unshieldValue + Requested(g.tokenOutputs)
         == PartFor(g, 0, task.isUnshield) + PartFor(g, 1, task.isUnshield)
    ensures PartFor(g, 0, task.isUnshield) == PrimaryPart(g, task.isUnshield)
  {
    if !task.isUnshield {
      RequestedOne(g.tokenOutputs[0]);
      if |g.tokenOutputs| == 2 {
        RequestedTwo(g.tokenOutputs[0], g.tokenOutputs[1]);
        assert g.tokenOutputs == [g.tokenOutputs[0]] + [g.tokenOutputs[1]];
      } else {
        assert g.tokenOutputs == [g.tokenOutputs[0]];
      }
    }
  }

  /** What remains, position by position. */
  lemma RemainingByPosition(task: Task, f: Fill, i: nat)
    requires task.Valid() && RemainingIsRight(task, f) && i < |task.outputs|
    ensures RemainAtTheEnd(task.outputs, f.remaining)
    ensures LeftFor(task.outputs, f.remaining, 0) == if f.amount > 0 then f.amount else 0
    ensures i > 1 ==> LeftFor(task.outputs, f.remaining, i) == Amount(task.outputs[i])
    ensures Requested(f.remaining)
         == LeftFor(task.outputs, f.remaining, 0)
            + (if |task.outputs| > 1 then LeftFor(task.outputs, f.remaining, 1) + Requested(task.outputs[2..]) else 0)
  {
    var o := task.outputs;
    RequestedSplit(o);
    if f.amount > 0 {
      RequestedCons(o[0].(value := Some(f.amount)), o[1..]);
    } else if f.amount < 0 && |o| > 1 && !task.isUnshield {
      SecondRemains(o, f.remaining, Amount(o[1]) + f.amount);
    }
  }

  lemma RequestedSplit(o: seq<SolutionOutput>)
    requires o != []
    ensures Requested(o) == Amount(o[0]) + Requested(o[1..])
    ensures |o| > 1 ==> Requested(o[1..]) == Amount(o[1]) + Requested(o[2..])
    ensures |o| == 1 ==> Requested(o[1..]) == 0
  {
    if |o| > 1 {
      assert o[1..][1..] == o[2..];
    }
  }

  lemma SecondRemains(o: seq<SolutionOutput>, remaining: seq<SolutionOutput>, left: int)
    requires |o| > 1 && remaining == ReplaceOrRemoveRemainingOutput(o[1..], left)
    ensures RemainAtTheEnd(o, remaining) && LeftFor(o, remaining, 0) == 0
    ensures forall i | 1 < i < |o| :: LeftFor(o, remaining, i) == Amount(o[i])
    ensures Requested(remaining) == LeftFor(o, remaining, 1) + Requested(o[2..])
  {
    assert o[1..][1..] == o[2..];
    if left > 0 {
      RequestedCons(o[1].(value := Some(left)), o[2..]);
    }
  }

  /** Nobody else is paid, and nobody is forgotten: every group pays the first requested output, the last one
      perhaps also the second; and for every requested output, by its position, what is delivered to it and
      what remains of it add up to what was requested. */
  lemma EveryOutputIsServed(task: Task, excluded0: seq<string>, i: nat)
    requires task.Valid() && i < |task.outputs|
    ensures var f := Finish(task, excluded0);
            && ReceiversAreRight(task, f) && RemainAtTheEnd(task.outputs, f.remaining)
            && DeliveredTo(f.groups, i, task.isUnshield) + LeftFor(task.outputs, f.remaining, i)
               == Amount(task.outputs[i])
  {
    var f := Finish(task, excluded0);
    StartIsInv(task, excluded0);
    FillTreesKeepsInv(task, excluded0, Start(task, excluded0));
    FinishHasReceivers(task, excluded0);
    ServedByPosition(task, excluded0, f, i);
  }

  lemma ServedByPosition(task: Task, excluded0: seq<string>, f: Fill, i: nat)
    requires task.Valid() && i < |task.outputs| && SumsAreRight(task, excluded0, f) && RemainingIsRight(task, f)
    requires ReceiversAreRight(task, f)
    ensures RemainAtTheEnd(task.outputs, f.remaining)
    ensures DeliveredTo(f.groups, i, task.isUnshield) + LeftFor(task.outputs, f.remaining, i) == Amount(task.outputs[i])
  {
    forall g | g in f.groups ensures PaysFirst(task, g) && |g.tokenOutputs| <= 2 {
      var k :| 0 <= k < |f.groups| && f.groups[k] == g;
    }
    DeliveredToTwo(task, f.groups, i);
    RemainingByPosition(task, f, i);
    RequestedSplit(task.outputs);
  }
}
