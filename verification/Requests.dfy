/** Turning a batch of groups into transaction requests: change, outputs and initial values
    (pkg/transaction/batch.go, pkg/transaction/request.go). */
module Requests {
  import opened Wrappers
  import Seqs

  const MAX_OUTPUTS := 5

  datatype OutputType = Transfer | BroadcasterFee | Change

  /** A note that is to be spent; values may be missing, as the source's nil. */
  datatype Utxo = Utxo(position: nat, random: string, path: seq<string>, value: Option<nat>)

  /** A note for the wallet that has this master key. */
  datatype Output = Output(receiver: string, token: string, value: Option<nat>, random: string, outputType: OutputType)

  datatype UnshieldOutput = UnshieldOutput(toAddress: string, token: string, value: Option<nat>)

  /** Notes of one tree and one token, and what is to become of them. */
  datatype Group = Group(spendingTree: nat, merkleRoot: string, token: string, utxos: seq<Utxo>, outputs: seq<Output>,
                         unshield: Option<UnshieldOutput>)

  /** The groups that a wallet, named by its master key, spends together. */
  datatype Batch = Batch(wallet: string, groups: seq<Group>, changeRandoms: seq<string>,
                         noteIVs: seq<seq<string>>, annotationIVs: seq<seq<string>>)

  datatype RequestInputs = RequestInputs(
    spendingTree: nat,
    merkleRoot: string,
    token: string,
    utxos: seq<Utxo>,
    outputs: seq<Output>,
    unshield: Option<UnshieldOutput>,
    noteIVs: seq<string>,
    annotationIVs: seq<string>)

  // ----- What a request says

  datatype Spent = Spent(position: nat, random: string, path: seq<string>)

  datatype Receiver = Wallet(masterKey: string, random: string) | Address(address: string)

  /** What the hash of a new commitment is made of; the two initial values encrypt the note and its annotation. */
  datatype NoteOut = NoteOut(receiver: Receiver, token: string, value: nat)

  datatype Request = Request(
    spendingTree: nat,
    merkleRoot: string,
    token: string,
    spends: seq<Spent>,
    valueIn: seq<nat>,
    notesOut: seq<NoteOut>,
    valueOut: seq<nat>,
    ivs: seq<(string, string)>)

  function Worth(v: Option<nat>): nat {
    if v.Some? then v.value else 0
  }

  function Sum(values: seq<nat>): nat {
    if values == [] then 0 else Sum(values[..|values| - 1]) + values[|values| - 1]
  }

  function WorthOf(values: seq<Option<nat>>): nat {
    if values == [] then 0 else WorthOf(values[..|values| - 1]) + Worth(values[|values| - 1])
  }

  function OutputValues(outputs: seq<Output>): (r: seq<Option<nat>>)
    ensures |r| == |outputs| && forall i | 0 <= i < |outputs| :: r[i] == outputs[i].value
  {
    seq(|outputs|, i requires 0 <= i < |outputs| => outputs[i].value)
  }

  function UtxoValues(utxos: seq<Utxo>): (r: seq<Option<nat>>)
    ensures |r| == |utxos| && forall i | 0 <= i < |utxos| :: r[i] == utxos[i].value
  {
    seq(|utxos|, i requires 0 <= i < |utxos| => utxos[i].value)
  }

  lemma SumSnoc(values: seq<nat>, v: nat)
    ensures Sum(values + [v]) == Sum(values) + v
  {
    assert (values + [v])[..|values|] == values;
  }

  lemma WorthSnoc(values: seq<Option<nat>>, v: Option<nat>)
    ensures WorthOf(values + [v]) == WorthOf(values) + Worth(v)
  {
    assert (values + [v])[..|values|] == values;
  }

  // ----- Change

  function UnshieldWorth(unshield: Option<UnshieldOutput>): nat {
    if unshield.Some? then Worth(unshield.value.value) else 0
  }

  /** What comes in less what goes out. */
  function ChangeOf(g: Group): int {
    WorthOf(UtxoValues(g.utxos)) - WorthOf(OutputValues(g.outputs)) - UnshieldWorth(g.unshield)
  }

  method DummyGroupChangeValue(g: Group) returns (r: Option<nat>)
    ensures r == if ChangeOf(g) < 0 then None else Some(ChangeOf(g))
  {
    var totalIn, totalOut := 0, 0;
    var valuesIn := UtxoValues(g.utxos);
    for i := 0 to |g.utxos|
      invariant totalIn == WorthOf(valuesIn[..i])
    {
      Seqs.PrefixSnoc(valuesIn, i);
      WorthSnoc(valuesIn[..i], valuesIn[i]);
      totalIn := totalIn + Worth(g.utxos[i].value);
    }
    Seqs.Whole(valuesIn);
    var values := OutputValues(g.outputs);
    for i := 0 to |g.outputs|
      invariant totalOut == WorthOf(values[..i])
    {
      Seqs.PrefixSnoc(values, i);
      WorthSnoc(values[..i], values[i]);
      totalOut := totalOut + Worth(g.outputs[i].value);
    }
    Seqs.Whole(values);
    totalOut := totalOut + UnshieldWorth(g.unshield);
    return if totalIn < totalOut then None else Some(totalIn - totalOut);
  }

  /** No change, a change output, or an error when the random for it is missing. */
  function ChangeOutput(b: Batch, g: Group, index: nat): Option<seq<Output>> {
    var change := ChangeOf(g);
    if change < 0 then None
    else if change == 0 then Some([])
    else if index >= |b.changeRandoms| || b.changeRandoms[index] == "" then None
    else Some([Output(b.wallet, g.token, Some(change), b.changeRandoms[index], Change)])
  }

  method ChangeOutputForDummyGroup(b: Batch, g: Group, index: nat) returns (r: Option<seq<Output>>)
    ensures r == ChangeOutput(b, g, index)
  {
    var change := DummyGroupChangeValue(g);
    if change.None? {
      return None;
    }
    if change.value == 0 {
      return Some([]);
    }
    if index >= |b.changeRandoms| || b.changeRandoms[index] == "" {
      return None;
    }
    return Some([Output(b.wallet, g.token, Some(change.value), b.changeRandoms[index], Change)]);
  }

  // ----- Requests

  function Present(values: seq<Option<nat>>): (r: Option<seq<nat>>)
    ensures r.Some? ==> |r.value| == |values|
  {
    if values == [] then Some([])
    else
      var front, last := Present(values[..|values| - 1]), values[|values| - 1];
      if front.None? || last.None? then None else Some(front.value + [last.value])
  }

  method AllPresent(values: seq<Option<nat>>) returns (r: Option<seq<nat>>)
    ensures r == Present(values)
  {
    var out: seq<nat> := [];
    for i := 0 to |values|
      invariant Present(values[..i]) == Some(out)
    {
      assert values[..i + 1][..i] == values[..i];
      if values[i].None? {
        MissingStays(values, i + 1);
        return None;
      }
      out := out + [values[i].value];
    }
    Seqs.Whole(values);
    return Some(out);
  }

  lemma {:induction false} MissingStays(values: seq<Option<nat>>, i: nat)
    requires i <= |values| && Present(values[..i]).None?
    ensures Present(values).None?
    decreases |values| - i
  {
    if i < |values| {
      assert values[..i + 1][..i] == values[..i];
      MissingStays(values, i + 1);
    } else {
      Seqs.Whole(values);
    }
  }

  lemma {:induction false} PresentWorth(values: seq<Option<nat>>)
    requires Present(values).Some?
    ensures Sum(Present(values).value) == WorthOf(values)
  {
    if values != [] {
      PresentWorth(values[..|values| - 1]);
      SumSnoc(Present(values[..|values| - 1]).value, values[|values| - 1].value);
    }
  }

  function IVsAt(ivs: seq<seq<string>>, index: nat): seq<string> {
    if index < |ivs| then ivs[index] else []
  }

  function InputsFor(b: Batch, index: nat): Option<RequestInputs>
    requires index < |b.groups|
  {
    var g := b.groups[index];
    var change := ChangeOutput(b, g, index);
    if change.None? || Present(UtxoValues(g.utxos)).None? then None
    else Some(RequestInputs(g.spendingTree, g.merkleRoot, g.token, g.utxos, g.outputs + change.value, g.unshield,
                            IVsAt(b.noteIVs, index), IVsAt(b.annotationIVs, index)))
  }

  function SpentOf(utxos: seq<Utxo>): (r: seq<Spent>)
    ensures |r| == |utxos|
  {
    seq(|utxos|, i requires 0 <= i < |utxos| => Spent(utxos[i].position, utxos[i].random, utxos[i].path))
  }

  function NotesFor(outputs: seq<Output>): (r: seq<NoteOut>)
    ensures |r| == |outputs|
  {
    seq(|outputs|, i requires 0 <= i < |outputs| =>
      NoteOut(Wallet(outputs[i].receiver, outputs[i].random), outputs[i].token, Worth(outputs[i].value)))
  }

  /** The new notes, and what leaves the wallets. */
  function NotesOut(outputs: seq<Output>, unshield: Option<UnshieldOutput>): seq<NoteOut> {
    if unshield.None? then NotesFor(outputs)
    else
      var u := unshield.value;
      NotesFor(outputs) + [NoteOut(Address(u.toAddress), u.token, Worth(u.value))]
  }

  /** At most five outputs, every value given, and initial values for every output. */
  function Generated(inputs: RequestInputs): Option<Request> {
    var valuesIn, values := Present(UtxoValues(inputs.utxos)), Present(OutputValues(inputs.outputs));
    if |inputs.outputs| > MAX_OUTPUTS || valuesIn.None? || values.None? then None
    else if inputs.unshield.Some? && inputs.unshield.value.value.None? then None
    else if |inputs.noteIVs| < |inputs.outputs| || |inputs.annotationIVs| < |inputs.outputs| then None
    else
      var valuesOut :=
        if inputs.unshield.Some? then values.value + [inputs.unshield.value.value.value] else values.value;
      Some(Request(inputs.spendingTree, inputs.merkleRoot, inputs.token, SpentOf(inputs.utxos), valuesIn.value,
                   NotesOut(inputs.outputs, inputs.unshield), valuesOut,
                   Paired(inputs.noteIVs, inputs.annotationIVs, |inputs.outputs|)))
  }

  function Paired(noteIVs: seq<string>, annotationIVs: seq<string>, n: nat): (r: seq<(string, string)>)
    requires n <= |noteIVs| && n <= |annotationIVs|
    ensures |r| == n
  {
    seq(n, i requires 0 <= i < n => (noteIVs[i], annotationIVs[i]))
  }

  method RequestInputsForDummyGroup(b: Batch, index: nat) returns (r: Option<RequestInputs>)
    requires index < |b.groups|
    ensures r == InputsFor(b, index)
  {
    var g := b.groups[index];
    var change := ChangeOutputForDummyGroup(b, g, index);
    if change.None? {
      return None;
    }
    var values := AllPresent(UtxoValues(g.utxos));
    if values.None? {
      return None;
    }
    return Some(RequestInputs(g.spendingTree, g.merkleRoot, g.token, g.utxos, g.outputs + change.value, g.unshield,
                              IVsAt(b.noteIVs, index), IVsAt(b.annotationIVs, index)));
  }

  method GenerateTransactionRequest(inputs: RequestInputs) returns (r: Option<Request>)
    ensures r == Generated(inputs)
  {
    var valuesIn := AllPresent(UtxoValues(inputs.utxos));
    if valuesIn.None? {
      return None;
    }
    if |inputs.outputs| > MAX_OUTPUTS {
      return None;
    }
    var values := AllPresent(OutputValues(inputs.outputs));
    if values.None? {
      return None;
    }
    var valuesOut := values.value;
    if inputs.unshield.Some? {
      if inputs.unshield.value.value.None? {
        return None;
      }
      valuesOut := valuesOut + [inputs.unshield.value.value.value];
    }
    var ivs: seq<(string, string)> := [];
    for i := 0 to |inputs.outputs|
      invariant i <= |inputs.noteIVs| && i <= |inputs.annotationIVs|
      invariant ivs == Paired(inputs.noteIVs, inputs.annotationIVs, i)
    {
      if i >= |inputs.noteIVs| || i >= |inputs.annotationIVs| {
        return None;
      }
      ivs := ivs + [(inputs.noteIVs[i], inputs.annotationIVs[i])];
    }
    return Some(Request(inputs.spendingTree, inputs.merkleRoot, inputs.token, SpentOf(inputs.utxos), valuesIn.value,
                        NotesOut(inputs.outputs, inputs.unshield), valuesOut, ivs));
  }

  /** The request for a group of a batch. */
  function RequestFor(b: Batch, index: nat): Option<Request>
    requires index < |b.groups|
  {
    var inputs := InputsFor(b, index);
    if inputs.None? then None else Generated(inputs.value)
  }

  /** A request that conserves value and says what was asked for. */
  ghost predicate IsSound(b: Batch, index: nat, r: Request)
    requires index < |b.groups|
  {
    Some(r) == RequestFor(b, index) && Sum(r.valueIn) == Sum(r.valueOut) && SaysWhatWasAsked(b, index, r)
  }

  method GenerateFor(b: Batch, index: nat) returns (r: Option<Request>)
    requires index < |b.groups|
    ensures r.Some? <==> RequestFor(b, index).Some?
    ensures r.Some? ==> IsSound(b, index, r.value)
  {
    var inputs := RequestInputsForDummyGroup(b, index);
    if inputs.None? {
      return None;
    }
    r := GenerateTransactionRequest(inputs.value);
    if r.Some? {
      ValueIsConserved(b, index);
      RequestSays(b, index);
    }
  }

  lemma AllAreMade(b: Batch, out: seq<Request>)
    requires |out| == |b.groups| && forall k | 0 <= k < |out| :: IsSound(b, k, out[k])
    ensures forall k | 0 <= k < |b.groups| :: RequestFor(b, k).Some?
  {
    forall k | 0 <= k < |b.groups| ensures RequestFor(b, k).Some? {
      assert IsSound(b, k, out[k]);
    }
  }

  /** The requests for all groups, or an error for all. */
  method GenerateTransactions(b: Batch) returns (r: Option<seq<Request>>)
    ensures r.Some? <==> forall i | 0 <= i < |b.groups| :: RequestFor(b, i).Some?
    ensures r.Some? ==> |r.value| == |b.groups| && forall i | 0 <= i < |b.groups| :: IsSound(b, i, r.value[i])
  {
    var out: seq<Request> := [];
    for i := 0 to |b.groups|
      invariant |out| == i && forall k | 0 <= k < i :: IsSound(b, k, out[k])
    {
      var request := GenerateFor(b, i);
      if request.None? {
        assert RequestFor(b, i).None?;
        return None;
      }
      out := out + [request.value];
    }
    AllAreMade(b, out);
    return Some(out);
  }

  lemma OutputValuesConcat(a: seq<Output>, b: seq<Output>)
    ensures OutputValues(a + b) == OutputValues(a) + OutputValues(b)
  {
  }

  lemma ChangeWorth(outputs: seq<Output>, change: seq<Output>, c: nat)
    requires (change == [] && c == 0) || (|change| == 1 && change[0].value == Some(c))
    ensures WorthOf(OutputValues(outputs + change)) == WorthOf(OutputValues(outputs)) + c
  {
    OutputValuesConcat(outputs, change);
    if change == [] {
      assert OutputValues(outputs) + [] == OutputValues(outputs);
    } else {
      assert OutputValues(change) == [Some(c)];
      WorthSnoc(OutputValues(outputs), Some(c));
    }
  }

  /** Whatever the batch: in every request that is made, what comes in is what goes out, change
      and unshield included. */
  lemma ValueIsConserved(b: Batch, index: nat)
    requires index < |b.groups| && RequestFor(b, index).Some?
    ensures Sum(RequestFor(b, index).value.valueIn) == Sum(RequestFor(b, index).value.valueOut)
  {
    var g, inputs := b.groups[index], InputsFor(b, index).value;
    var change := ChangeOutput(b, g, index).value;
    ChangeWorth(g.outputs, change, ChangeOf(g));
    PresentWorth(UtxoValues(g.utxos));
    PresentWorth(OutputValues(inputs.outputs));
    var values := Present(OutputValues(inputs.outputs)).value;
    if g.unshield.Some? {
      SumSnoc(values, g.unshield.value.value.value);
    }
  }

  // ----- Who receives what

  /** The notes that go in are those of the group. */
  ghost predicate SpendsItsNotes(g: Group, r: Request) {
    && r.spendingTree == g.spendingTree && r.merkleRoot == g.merkleRoot && r.token == g.token
    && |r.spends| == |r.valueIn| == |g.utxos|
    && forall k | 0 <= k < |g.utxos| ::
         && r.spends[k].position == g.utxos[k].position && r.spends[k].random == g.utxos[k].random
         && r.spends[k].path == g.utxos[k].path && g.utxos[k].value == Some(r.valueIn[k])
  }

  /** The notes that come out are the outputs of the group, the change for the own wallet, if there is any, and
      what is unshielded, in this order. */
  ghost predicate PaysItsReceivers(b: Batch, index: nat, r: Request)
    requires index < |b.groups|
  {
    var g, n := b.groups[index], |b.groups[index].outputs|;
    && |r.valueOut| == |r.notesOut| && (forall k | 0 <= k < |r.notesOut| :: r.valueOut[k] == r.notesOut[k].value)
    && |r.notesOut| == n + (if ChangeOf(g) > 0 then 1 else 0) + (if g.unshield.Some? then 1 else 0)
    && (forall k | 0 <= k < n ::
          && r.notesOut[k].receiver == Wallet(g.outputs[k].receiver, g.outputs[k].random)
          && r.notesOut[k].token == g.outputs[k].token && g.outputs[k].value == Some(r.notesOut[k].value))
    && (ChangeOf(g) > 0 ==>
          && index < |b.changeRandoms| && r.notesOut[n].receiver == Wallet(b.wallet, b.changeRandoms[index])
          && r.notesOut[n].token == g.token && r.notesOut[n].value == ChangeOf(g))
    && (g.unshield.Some? ==>
          var last := r.notesOut[|r.notesOut| - 1];
          && last.receiver == Address(g.unshield.value.toAddress) && last.token == g.unshield.value.token
          && g.unshield.value.value == Some(last.value))
  }

  ghost predicate SaysWhatWasAsked(b: Batch, index: nat, r: Request)
    requires index < |b.groups|
  {
    SpendsItsNotes(b.groups[index], r) && PaysItsReceivers(b, index, r) && UsesItsIVs(b, index, r)
  }

  /** The new notes, without what is unshielded, are encrypted with the initial values given for them, in order. */
  ghost predicate UsesItsIVs(b: Batch, index: nat, r: Request)
    requires index < |b.groups|
  {
    var noteIVs, annotationIVs := IVsAt(b.noteIVs, index), IVsAt(b.annotationIVs, index);
    && |r.ivs| == |b.groups[index].outputs| + (if ChangeOf(b.groups[index]) > 0 then 1 else 0)
    && |r.ivs| <= |noteIVs| && |r.ivs| <= |annotationIVs|
    && forall k | 0 <= k < |r.ivs| :: r.ivs[k].0 == noteIVs[k] && r.ivs[k].1 == annotationIVs[k]
  }

  lemma {:induction false} PresentAt(values: seq<Option<nat>>, i: nat)
    requires Present(values).Some? && i < |values|
    ensures values[i] == Some(Present(values).value[i])
  {
    if i < |values| - 1 {
      PresentAt(values[..|values| - 1], i);
    }
  }

  lemma AllPresentAt(values: seq<Option<nat>>)
    requires Present(values).Some?
    ensures forall i | 0 <= i < |values| :: values[i] == Some(Present(values).value[i])
  {
    forall i | 0 <= i < |values| ensures values[i] == Some(Present(values).value[i]) {
      PresentAt(values, i);
    }
  }

  /** Every request says what was asked for: it spends the notes of its group and pays the receivers named there,
      each its token and value. */
  lemma RequestSays(b: Batch, index: nat)
    requires index < |b.groups| && RequestFor(b, index).Some?
    ensures SaysWhatWasAsked(b, index, RequestFor(b, index).value)
  {
    var g, inputs := b.groups[index], InputsFor(b, index).value;
    AllPresentAt(UtxoValues(g.utxos));
    PaysAll(b, index, inputs, ChangeOutput(b, g, index).value, RequestFor(b, index).value);
    UsesAll(b, index, inputs, ChangeOutput(b, g, index).value, RequestFor(b, index).value);
  }

  lemma UsesAll(b: Batch, index: nat, inputs: RequestInputs, change: seq<Output>, r: Request)
    requires index < |b.groups| && ChangeOutput(b, b.groups[index], index) == Some(change)
    requires inputs.outputs == b.groups[index].outputs + change && Generated(inputs) == Some(r)
    requires inputs.noteIVs == IVsAt(b.noteIVs, index) && inputs.annotationIVs == IVsAt(b.annotationIVs, index)
    ensures UsesItsIVs(b, index, r)
  {
  }

  lemma PaysAll(b: Batch, index: nat, inputs: RequestInputs, change: seq<Output>, r: Request)
    requires index < |b.groups| && ChangeOutput(b, b.groups[index], index) == Some(change)
    requires inputs.outputs == b.groups[index].outputs + change && inputs.unshield == b.groups[index].unshield
    requires Generated(inputs) == Some(r)
    ensures PaysItsReceivers(b, index, r)
  {
    AllPresentAt(OutputValues(inputs.outputs));
  }
}
