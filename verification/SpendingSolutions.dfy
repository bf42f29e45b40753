/** Spreading an output over notes of several trees (CreateSpendingSolutionsForValue in
    pkg/transaction/solutions.go). */
module SpendingSolutions {
  import opened Wrappers
  import opened Notes
  import opened Batches
  import Seqs

  datatype SolutionOutput = SolutionOutput(id: string, value: Option<int>, tokenData: string)

  datatype SpendingSolutionGroup = SpendingSolutionGroup(
    spendingTree: nat,
    utxos: seq<SolutionTXO>,
    tokenOutputs: seq<SolutionOutput>,
    unshieldValue: int,
    tokenData: string)

  datatype Solutions = Solutions(
    groups: seq<SpendingSolutionGroup>,
    remaining: seq<SolutionOutput>,
    excluded: seq<string>)

  // ----- One output over the trees

  function Min(a: int, b: int): int {
    if a < b then a else b
  }

  function Amount(output: SolutionOutput): int {
    if output.value.Some? then output.value.value else 0
  }

  function Requested(outputs: seq<SolutionOutput>): int {
    if outputs == [] then 0 else Amount(outputs[0]) + Requested(outputs[1..])
  }

  function ReplaceOrRemoveRemainingOutput(remaining: seq<SolutionOutput>, amountToFill: int): seq<SolutionOutput> {
    if remaining == [] then []
    else if amountToFill > 0 then [remaining[0].(value := Some(amountToFill))] + remaining[1..]
    else remaining[1..]
  }

  function CreateSpendingSolutionGroup(output: SolutionOutput, tree: nat, solutionValue: int,
                                       utxos: seq<SolutionTXO>, isUnshield: bool): SpendingSolutionGroup
  {
    if isUnshield then SpendingSolutionGroup(tree, utxos, [], solutionValue, output.tokenData)
    else SpendingSolutionGroup(tree, utxos, [output.(value := Some(solutionValue))], 0, output.tokenData)
  }

  function ChangeValue(group: SpendingSolutionGroup): Result<int> {
    var change := Total(group.utxos) - (group.unshieldValue + Requested(group.tokenOutputs));
    if change < 0 then Err("negative change value - transaction not possible") else Ok(change)
  }

  /** What is asked for, and from what: the outputs, the first of them being spread. */
  datatype Task = Task(trees: seq<TreeBalance>, outputs: seq<SolutionOutput>, isUnshield: bool) {
    predicate Valid() {
      |outputs| > 0 && outputs[0].value.Some? && outputs[0].value.value > 0
    }

    /** Change of the last group may go to a second output, and that output has no value. */
    predicate LacksSecondValue() {
      |outputs| > 1 && !isUnshield && outputs[1].value.None?
    }

    function Goal(): int
      requires Valid()
    {
      outputs[0].value.value
    }
  }

  /** The loop variables. */
  datatype Fill = Fill(amount: int, groups: seq<SpendingSolutionGroup>, excluded: seq<string>,
                       remaining: seq<SolutionOutput>)

  /** One pass of the inner loop, for a batch that was found. */
  function AddBatch(task: Task, f: Fill, tree: nat, batch: seq<SolutionTXO>): Fill
    requires task.Valid()
  {
    var total := Total(batch);
    var group := CreateSpendingSolutionGroup(task.outputs[0], tree, Min(total, f.amount), batch, task.isUnshield);
    var amount := f.amount - total;
    var remaining := ReplaceOrRemoveRemainingOutput(f.remaining, amount);
    if -amount > 0 && |task.outputs| > 1 && !task.isUnshield then
      var second := task.outputs[1];
      var noteValue := Min(Amount(second), -amount);
      Fill(amount,
           f.groups + [group.(tokenOutputs := group.tokenOutputs + [second.(value := Some(noteValue))])],
           f.excluded + Keys(batch),
           ReplaceOrRemoveRemainingOutput(remaining, Amount(second) - noteValue))
    else
      Fill(amount, f.groups + [group], f.excluded + Keys(batch), remaining)
  }

  method ExcludeAll(excluded: seq<string>, utxos: seq<SolutionTXO>) returns (r: seq<string>)
    ensures r == excluded + Keys(utxos)
  {
    r := excluded;
    for i := 0 to |utxos|
      invariant r == excluded + Keys(utxos[..i])
    {
      Seqs.PrefixSnoc(utxos, i);
      KeysConcat(utxos[..i], [utxos[i]]);
      assert Keys([utxos[i]]) == [UtxoIdPosition(utxos[i])];
      Seqs.Assoc(excluded, Keys(utxos[..i]), [UtxoIdPosition(utxos[i])]);
      r := r + [UtxoIdPosition(utxos[i])];
    }
    Seqs.Whole(utxos);
  }

  /** One pass of the inner loop, step by step. */
  method SpendBatch(task: Task, f: Fill, tree: nat, batch: seq<SolutionTXO>) returns (next: Fill)
    requires task.Valid() && (task.LacksSecondValue() ==> f.amount >= Total(batch))
    ensures next == AddBatch(task, f, tree, batch)
  {
    var excluded := ExcludeAll(f.excluded, batch);
    var totalSpend := CalculateTotalSpend(batch);
    next := HandOver(task, f, tree, batch, totalSpend, excluded);
  }

  /** The group of a batch, and what is left to fill. */
  method HandOver(task: Task, f: Fill, tree: nat, batch: seq<SolutionTXO>, totalSpend: nat, excluded: seq<string>)
    returns (next: Fill)
    requires task.Valid() && totalSpend == Total(batch) && (task.LacksSecondValue() ==> f.amount >= totalSpend)
    ensures next == AddBatch(task, f, tree, batch).(excluded := excluded)
  {
    var group := CreateSpendingSolutionGroup(task.outputs[0], tree, Min(totalSpend, f.amount), batch, task.isUnshield);
    var amountToFill := f.amount - totalSpend;
    var remaining := ReplaceOrRemoveRemainingOutput(f.remaining, amountToFill);
    if amountToFill <= 0 {
      var change := -amountToFill;
      if change > 0 && |task.outputs| > 1 && !task.isUnshield {
        group, remaining := SpendChange(task.outputs[1], change, group, remaining);
      }
    }
    return Fill(amountToFill, f.groups + [group], excluded, remaining);
  }

  /** Change of the last group goes to the second output. */
  method SpendChange(second: SolutionOutput, change: nat, group: SpendingSolutionGroup, remaining: seq<SolutionOutput>)
    returns (more: SpendingSolutionGroup, left: seq<SolutionOutput>)
    requires second.value.Some?
    ensures var noteValue := Min(Amount(second), change);
            && more == group.(tokenOutputs := group.tokenOutputs + [second.(value := Some(noteValue))])
            && left == ReplaceOrRemoveRemainingOutput(remaining, Amount(second) - noteValue)
  {
    var noteValue := Min(second.value.value, change);
    var stillToFill := second.value.value - noteValue;
    more := group.(tokenOutputs := group.tokenOutputs + [second.(value := Some(noteValue))]);
    left := ReplaceOrRemoveRemainingOutput(remaining, stillToFill);
  }

  /** The inner loop: batches of one tree until the amount is filled or the tree is used up. */
  function FillTree(task: Task, f: Fill, tree: nat): Fill
    requires task.Valid() && tree < |task.trees|
    decreases if f.amount > 0 then f.amount else 0
  {
    if f.amount <= 0 then f
    else
      var batch := NextBatch(task.trees[tree].utxos, f.amount, f.excluded);
      if batch.None? then f
      else
        BatchIsTight(task.trees[tree].utxos, f.amount, f.excluded);
        FillTree(task, AddBatch(task, f, tree, batch.value), tree)
  }

  /** The outer loop over the trees. */
  function FillTrees(task: Task, f: Fill, tree: nat): Fill
    requires task.Valid() && tree <= |task.trees|
    decreases |task.trees| - tree
  {
    if tree == |task.trees| then f else FillTrees(task, FillTree(task, f, tree), tree + 1)
  }

  function Start(task: Task, excluded: seq<string>): Fill
    requires task.Valid()
  {
    Fill(task.Goal(), [], excluded, task.outputs)
  }

  /** The state in which both loops end. */
  function Finish(task: Task, excluded: seq<string>): Fill
    requires task.Valid()
  {
    FillTrees(task, Start(task, excluded), 0)
  }

  lemma {:induction false} FillTreesDone(task: Task, f: Fill, tree: nat)
    requires task.Valid() && tree <= |task.trees| && f.amount <= 0
    ensures FillTrees(task, f, tree) == f
    decreases |task.trees| - tree
  {
    if tree < |task.trees| {
      FillTreesDone(task, f, tree + 1);
    }
  }

  /** The batch that fills the amount is the last one. */
  lemma FillingEnds(task: Task, f: Fill, tree: nat, batch: seq<SolutionTXO>)
    requires task.Valid() && tree < |task.trees| && 0 < f.amount <= Total(batch)
    requires NextBatch(task.trees[tree].utxos, f.amount, f.excluded) == Some(batch)
    ensures FillTrees(task, FillTree(task, f, tree), tree + 1).amount == f.amount - Total(batch)
  {
    FillTreesDone(task, AddBatch(task, f, tree, batch), tree + 1);
  }

  const NULL_UTXO := SolutionTXO("null", "0x00", 0, 100000, Some(0))

  /** Spreads the first output over the notes. A second output without a value is only looked at when the
      first one is overfilled; the source then fails on the missing value. */
  method CreateSpendingSolutionsForValue(trees: seq<TreeBalance>, outputs: seq<SolutionOutput>,
                                         excluded0: seq<string>, isUnshield: bool)
    returns (r: Result<Solutions>)
    requires var task := Task(trees, outputs, isUnshield);
             task.Valid() && task.LacksSecondValue() ==> Finish(task, excluded0).amount >= 0
    ensures outputs == [] ==> r == Ok(Solutions([], [], excluded0))
    ensures outputs != [] && outputs[0].value.None? ==> r.Err?
    ensures outputs != [] && outputs[0].value.Some? && outputs[0].value.value < 0 ==>
              r == Ok(Solutions([], outputs, excluded0))
    ensures outputs != [] && outputs[0].value == Some(0) ==>
              var nothing := if isUnshield then [] else [SolutionOutput(outputs[0].id, Some(0), outputs[0].tokenData)];
              r == Ok(Solutions([SpendingSolutionGroup(0, [NULL_UTXO], nothing, 0, outputs[0].tokenData)],
                                outputs[1..], excluded0))
    ensures var task := Task(trees, outputs, isUnshield);
            task.Valid() ==>
              var f := Finish(task, excluded0);
              if f.amount > 0 then r.Err? else r == Ok(Solutions(f.groups, f.remaining, f.excluded))
  {
    if outputs == [] {
      return Ok(Solutions([], [], excluded0));
    }
    var primary := outputs[0];
    if primary.value.None? {
      return Err("primary output value is required");
    }
    if primary.value.value == 0 {
      var group := CreateSpendingSolutionGroup(primary, 0, 0, [NULL_UTXO], isUnshield);
      return Ok(Solutions([group], ReplaceOrRemoveRemainingOutput(outputs, 0), excluded0));
    }
    var task := Task(trees, outputs, isUnshield);
    var f := Fill(primary.value.value, [], excluded0, outputs);
    for tree := 0 to |trees|
      invariant f.amount <= 0 && !task.Valid() ==> f == Fill(primary.value.value, [], excluded0, outputs)
      invariant !task.Valid() ==> f.amount <= 0
      invariant task.Valid() ==> FillTrees(task, f, tree) == Finish(task, excluded0)
    {
      while f.amount > 0
        invariant f.amount <= 0 && !task.Valid() ==> f == Fill(primary.value.value, [], excluded0, outputs)
        invariant !task.Valid() ==> f.amount <= 0
        invariant task.Valid() ==> FillTrees(task, FillTree(task, f, tree), tree + 1) == Finish(task, excluded0)
        decreases f.amount
      {
        var batch := FindNextSolutionBatch(trees[tree].utxos, f.amount, f.excluded);
        if batch.None? {
          break;
        }
        BatchIsTight(trees[tree].utxos, f.amount, f.excluded);
        if f.amount < Total(batch.value) {
          FillingEnds(task, f, tree, batch.value);
        }
        f := SpendBatch(task, f, tree, batch.value);
      }
    }
    if f.amount > 0 {
      return Err("balance too low: requires additional UTXOs to satisfy spending solution");
    }
    return Ok(Solutions(f.groups, f.remaining, f.excluded));
  }
}
