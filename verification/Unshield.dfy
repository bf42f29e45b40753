/** Assembling an unshield: keeping change, and paying the broadcaster fee
    (pkg/sdk/private_transactions.go and pkg/sdk/broadcaster.go). */
module Unshield {
  import opened Wrappers
  import opened Notes
  import opened SimpleSelection
  import opened SpendableNotes
  import opened WalletLedger
  import opened Requests
  import Batches
  import Seqs

  // ----- Assembling

  /** The random texts that are drawn for one unshield. */
  datatype Randoms = Randoms(change: string, noteIV: string, annotationIV: string,
                             fee: string, feeNoteIV: string, feeAnnotationIV: string)

  /** What an unshield asks for: an amount, or everything but the fee; the token; the own wallet, the address and
      the broadcaster that receive something. */
  datatype Wish = Wish(amount: Option<int>, fee: nat, token: string,
                       wallet: string, toAddress: string, broadcaster: string)

  /** Where a note lies in its tree. */
  datatype Proof = Proof(root: string, elements: seq<string>)

  function RootOf(proof: Option<Proof>): Option<string> {
    if proof.Some? then Some(proof.value.root) else None
  }

  /** All notes have a proof, and all proofs the same root. */
  predicate ShareRoot(spend: seq<TXO>, proofOf: TXO -> Option<Proof>) {
    forall x | x in spend :: proofOf(x).Some? && RootOf(proofOf(x)) == RootOf(proofOf(spend[0]))
  }

  function UtxosOf(spend: seq<TXO>, proofOf: TXO -> Option<Proof>): (r: seq<Utxo>)
    ensures |r| == |spend|
  {
    seq(|spend|, i requires 0 <= i < |spend| =>
      var path := if proofOf(spend[i]).Some? then proofOf(spend[i]).value.elements else [];
      Utxo(spend[i].position, spend[i].noteRandom, path, Some(spend[i].value)))
  }

  /** One group that unshields the amount; change gets a random and initial values, if there is any. */
  function Assembled(tree: nat, root: string, utxos: seq<Utxo>, amount: nat, change: int, wish: Wish,
                     randoms: Randoms): Batch
  {
    var unshield := UnshieldOutput(wish.toAddress, wish.token, Some(amount));
    var group := Group(tree, root, wish.token, utxos, [], Some(unshield));
    if change > 0 then Batch(wish.wallet, [group], [randoms.change], [[randoms.noteIV]], [[randoms.annotationIV]])
    else Batch(wish.wallet, [group], [], [], [])
  }

  method BuildUnshieldTokenBatchInputs(amount: nat, solution: SimpleUTXOGroup, spend: seq<TXO>, wish: Wish,
                                       proofOf: TXO -> Option<Proof>, randoms: Randoms) returns (r: Option<Batch>)
    requires forall x :: RootOf(proofOf(x)) != Some("")
    ensures r.Some? <==> spend != [] && ShareRoot(spend, proofOf) && solution.amount >= amount
    ensures r.Some? ==>
      r.value == Assembled(solution.spendingTree, proofOf(spend[0]).value.root, UtxosOf(spend, proofOf), amount,
                           solution.amount - amount, wish, randoms)
  {
    var merkleRoot := "";
    for i := 0 to |spend|
      invariant i == 0 <==> merkleRoot == ""
      invariant forall k | 0 <= k < i :: RootOf(proofOf(spend[k])) == Some(merkleRoot)
    {
      var proof := proofOf(spend[i]);
      if proof.None? {
        assert spend[i] in spend;
        return None;
      }
      assert RootOf(proof) == Some(proof.value.root);
      if merkleRoot == "" {
        merkleRoot := proof.value.root;
      } else if merkleRoot != proof.value.root {
        assert spend[i] in spend && spend[0] in spend;
        return None;
      }
    }
    if merkleRoot == "" || solution.amount < amount {
      return None;
    }
    return Some(Assembled(solution.spendingTree, merkleRoot, UtxosOf(spend, proofOf), amount, solution.amount - amount,
                          wish, randoms));
  }

  function First(ivs: seq<seq<string>>): seq<string> {
    if ivs == [] then [] else ivs[0]
  }

  /** The broadcaster fee is paid first, with its own initial values. */
  function WithFee(b: Batch, fee: Output, noteIV: string, annotationIV: string): Batch
    requires b.groups != []
  {
    b.(groups := [b.groups[0].(outputs := [fee] + b.groups[0].outputs)] + b.groups[1..],
       noteIVs := [[noteIV] + First(b.noteIVs)],
       annotationIVs := [[annotationIV] + First(b.annotationIVs)])
  }

  class PreparedUnshield {
    var inputs: Batch

    constructor (inputs: Batch)
      ensures this.inputs == inputs
    {
      this.inputs := inputs;
    }

    method ApplyBroadcasterFee(fee: Output, noteIV: string, annotationIV: string) returns (ok: bool)
      modifies this
      ensures ok == (old(inputs).groups != [])
      ensures inputs == if ok then WithFee(old(inputs), fee, noteIV, annotationIV) else old(inputs)
      ensures ok ==>
        && |inputs.groups| == |old(inputs).groups| && inputs.groups[1..] == old(inputs).groups[1..]
        && inputs.groups[0].outputs == [fee] + old(inputs).groups[0].outputs
        && inputs.noteIVs == [[noteIV] + First(old(inputs).noteIVs)]
        && inputs.annotationIVs == [[annotationIV] + First(old(inputs).annotationIVs)]
    {
      if inputs.groups == [] {
        return false;
      }
      var group := inputs.groups[0];
      group := group.(outputs := [fee] + group.outputs);
      inputs := inputs.(groups := [group] + inputs.groups[1..]);
      var noteIVs, annotationIVs := [noteIV], [annotationIV];
      if |inputs.noteIVs| > 0 {
        noteIVs := noteIVs + inputs.noteIVs[0];
      }
      if |inputs.annotationIVs| > 0 {
        annotationIVs := annotationIVs + inputs.annotationIVs[0];
      }
      inputs := inputs.(noteIVs := [noteIVs], annotationIVs := [annotationIVs]);
      assert [noteIV] + [] == [noteIV] && [annotationIV] + [] == [annotationIV];
      return true;
    }
  }

  // ----- Nothing is ever missing

  /** The change of the assembled group, before and after the fee. */
  function ChangeList(change: nat): seq<nat> {
    if change > 0 then [change] else []
  }

  lemma {:induction false} PresentValues(values: seq<Option<nat>>)
    requires forall v | v in values :: v.Some?
    ensures Present(values).Some?
  {
    if values != [] {
      PresentValues(values[..|values| - 1]);
    }
  }

  lemma PresentOutputs(values: seq<Option<nat>>, v: nat)
    requires Present(values).Some?
    ensures Present(values + [Some(v)]) == Some(Present(values).value + [v])
  {
    assert (values + [Some(v)])[..|values|] == values;
  }

  /** A request is made for a group whose change and values are known. */
  lemma RequestOfGroup(b: Batch, change: seq<Output>, values: seq<nat>, amount: nat)
    requires b.groups != [] && ChangeOutput(b, b.groups[0], 0) == Some(change)
    requires Present(UtxoValues(b.groups[0].utxos)).Some?
    requires Present(OutputValues(b.groups[0].outputs + change)) == Some(values)
    requires |b.groups[0].outputs + change| <= MAX_OUTPUTS
    requires b.groups[0].unshield.Some? && b.groups[0].unshield.value.value == Some(amount)
    requires |b.groups[0].outputs + change| <= |IVsAt(b.noteIVs, 0)|
    requires |b.groups[0].outputs + change| <= |IVsAt(b.annotationIVs, 0)|
    ensures RequestFor(b, 0).Some? && RequestFor(b, 0).value.valueOut == values + [amount]
  {
  }

  lemma OneValue(v: nat)
    ensures Present([Some(v)]) == Some([v]) && WorthOf([Some(v)]) == v
  {
    var all, none: seq<Option<nat>>, nothing: seq<nat> := [Some(v)], [], [];
    assert all[..0] == none;
    assert nothing + [v] == [v];
  }

  lemma ValuesOfOne(o: Output, v: nat)
    requires o.value == Some(v)
    ensures OutputValues([o]) == [Some(v)] && Present([Some(v)]) == Some([v]) && WorthOf([Some(v)]) == v
  {
    OneValue(v);
  }

  lemma ValuesOfTwo(o: Output, p: Output, v: nat, w: nat)
    requires o.value == Some(v) && p.value == Some(w)
    ensures OutputValues([o] + [p]) == [Some(v)] + [Some(w)] && Present([Some(v)] + [Some(w)]) == Some([v, w])
  {
    OneValue(v);
    PresentOutputs([Some(v)], w);
    assert [v] + [w] == [v, w];
  }

  lemma NoValues()
    ensures OutputValues([]) == [] && Present([]) == Some([]) && WorthOf([]) == 0
  {
  }

  /** Notes with their values. */
  ghost predicate AllValued(utxos: seq<Utxo>) {
    forall u | u in utxos :: u.value.Some?
  }

  lemma ValuedArePresent(utxos: seq<Utxo>)
    requires AllValued(utxos)
    ensures Present(UtxoValues(utxos)).Some?
  {
    forall v | v in UtxoValues(utxos) ensures v.Some? {
      var i :| 0 <= i < |utxos| && utxos[i].value == v;
    }
    PresentValues(UtxoValues(utxos));
  }

  /** A request without a fee is made whenever the notes are worth the amount: it pays the change
      back, if there is any, and unshields the amount. */
  lemma UnshieldIsRequested(tree: nat, root: string, utxos: seq<Utxo>, amount: nat, wish: Wish, randoms: Randoms)
    requires AllValued(utxos) && WorthOf(UtxoValues(utxos)) >= amount && randoms.change != ""
    ensures var change := WorthOf(UtxoValues(utxos)) - amount;
            var r := RequestFor(Assembled(tree, root, utxos, amount, change, wish, randoms), 0);
            r.Some? && r.value.valueOut == ChangeList(change) + [amount]
  {
    var change := WorthOf(UtxoValues(utxos)) - amount;
    var b := Assembled(tree, root, utxos, amount, change, wish, randoms);
    ValuedArePresent(utxos);
    NoValues();
    if change > 0 {
      var o := Output(wish.wallet, wish.token, Some(change), randoms.change, Change);
      ValuesOfOne(o, change);
      assert [] + [o] == [o];
      RequestOfGroup(b, [o], [change], amount);
    } else {
      var none: seq<Output> := [];
      assert none + none == none;
      RequestOfGroup(b, none, [], amount);
    }
  }

  /** With the fee, the request is made exactly when the notes are worth amount and fee, whether
      or not there is change before or after the fee; no random and no initial value is ever
      missing. */
  lemma FeeIsRequestedIff(tree: nat, root: string, utxos: seq<Utxo>, amount: nat, wish: Wish, randoms: Randoms)
    requires AllValued(utxos) && WorthOf(UtxoValues(utxos)) >= amount && randoms.change != "" && wish.fee > 0
    ensures var total := WorthOf(UtxoValues(utxos));
            var r := RequestFor(Paid(tree, root, utxos, amount, wish, randoms), 0);
            && (r.Some? <==> total >= amount + wish.fee)
            && (total >= amount + wish.fee ==>
                  r.value.valueOut == [wish.fee] + ChangeList(total - amount - wish.fee) + [amount])
  {
    var rest := WorthOf(UtxoValues(utxos)) - amount - wish.fee;
    var b := Paid(tree, root, utxos, amount, wish, randoms);
    ValuedArePresent(utxos);
    PaidChange(tree, root, utxos, amount, wish, randoms);
    if rest >= 0 {
      FeeIsRequested(b, tree, root, utxos, amount, rest, wish, randoms);
    }
  }

  lemma FeeIsRequested(b: Batch, tree: nat, root: string, utxos: seq<Utxo>, amount: nat, rest: nat, wish: Wish,
                       randoms: Randoms)
    requires b.wallet == wish.wallet && |b.groups| == 1 && Present(UtxoValues(utxos)).Some? && randoms.change != ""
    requires b.groups[0] == Group(tree, root, wish.token, utxos, [FeeOutput(wish, randoms)],
                                  Some(UnshieldOutput(wish.toAddress, wish.token, Some(amount))))
    requires ChangeOf(b.groups[0]) == rest && |IVsAt(b.noteIVs, 0)| >= 1 && |IVsAt(b.annotationIVs, 0)| >= 1
    requires rest > 0 ==>
               b.changeRandoms == [randoms.change] && |IVsAt(b.noteIVs, 0)| == |IVsAt(b.annotationIVs, 0)| == 2
    ensures RequestFor(b, 0).Some?
    ensures RequestFor(b, 0).value.valueOut == [wish.fee] + ChangeList(rest) + [amount]
  {
    if rest > 0 {
      var change := Output(wish.wallet, wish.token, Some(rest), randoms.change, Change);
      ValuesOfTwo(FeeOutput(wish, randoms), change, wish.fee, rest);
      RequestOfGroup(b, [change], [wish.fee, rest], amount);
    } else {
      ValuesOfOne(FeeOutput(wish, randoms), wish.fee);
      assert [FeeOutput(wish, randoms)] + [] == [FeeOutput(wish, randoms)];
      RequestOfGroup(b, [], [wish.fee], amount);
    }
  }

  function FeeOutput(wish: Wish, randoms: Randoms): Output {
    Output(wish.broadcaster, wish.token, Some(wish.fee), randoms.fee, BroadcasterFee)
  }

  /** The batch once the fee has been added. */
  function Paid(tree: nat, root: string, utxos: seq<Utxo>, amount: nat, wish: Wish, randoms: Randoms): Batch {
    WithFee(Assembled(tree, root, utxos, amount, WorthOf(UtxoValues(utxos)) - amount, wish, randoms),
            FeeOutput(wish, randoms), randoms.feeNoteIV, randoms.feeAnnotationIV)
  }

  lemma PaidChange(tree: nat, root: string, utxos: seq<Utxo>, amount: nat, wish: Wish, randoms: Randoms)
    requires WorthOf(UtxoValues(utxos)) >= amount && wish.fee > 0
    ensures var total, b := WorthOf(UtxoValues(utxos)), Paid(tree, root, utxos, amount, wish, randoms);
            && b.wallet == wish.wallet && |b.groups| == 1
            && b.groups[0] == Group(tree, root, wish.token, utxos, [FeeOutput(wish, randoms)],
                                    Some(UnshieldOutput(wish.toAddress, wish.token, Some(amount))))
            && ChangeOf(b.groups[0]) == total - amount - wish.fee
            && (total > amount ==>
                  b.changeRandoms == [randoms.change] && |IVsAt(b.noteIVs, 0)| == |IVsAt(b.annotationIVs, 0)| == 2)
            && |IVsAt(b.noteIVs, 0)| >= 1 && |IVsAt(b.annotationIVs, 0)| >= 1
            && HasFeeIVs(b, total > amount, randoms)
  {
    var b := Paid(tree, root, utxos, amount, wish, randoms);
    assert b.groups[0].outputs == [FeeOutput(wish, randoms)];
    ValuesOfOne(FeeOutput(wish, randoms), wish.fee);
  }

  // ----- From the stored notes to the request

  function WishedAmount(wish: Wish, trees: seq<TreeBalance>): int {
    if wish.amount.Some? then wish.amount.value else TotalBalance(trees) - wish.fee
  }

  /** What comes out of a request: the fee first, if one is paid, then the change, if there is
      any, then the amount. */
  function Payments(fee: nat, change: nat, amount: nat): seq<nat> {
    (if fee > 0 then [fee] else []) + ChangeList(change) + [amount]
  }

  /** The request spends these stored notes of one tree, each with its position, random and value and with a proof
      that has the root of the request. */
  ghost predicate SpendsNotes(r: Request, spend: seq<TXO>, tree: nat, proofOf: TXO -> Option<Proof>) {
    && r.spendingTree == tree && |r.spends| == |r.valueIn| == |spend|
    && forall k | 0 <= k < |spend| ::
         && proofOf(spend[k]) == Some(Proof(r.merkleRoot, r.spends[k].path))
         && r.spends[k].position == spend[k].position && r.spends[k].random == spend[k].noteRandom
         && r.valueIn[k] == spend[k].value
  }

  /** The broadcaster gets the fee, if there is one, the own wallet the change, if there is any, and the address
      the amount; nobody gets anything else. */
  ghost predicate PaysReceivers(r: Request, fee: nat, change: nat, amount: nat, wish: Wish, randoms: Randoms) {
    && r.token == wish.token
    && r.notesOut == (if fee > 0 then [NoteOut(Wallet(wish.broadcaster, randoms.fee), wish.token, fee)] else [])
                     + (if change > 0 then [NoteOut(Wallet(wish.wallet, randoms.change), wish.token, change)] else [])
                     + [NoteOut(Address(wish.toAddress), wish.token, amount)]
    && r.ivs == (if fee > 0 then [(randoms.feeNoteIV, randoms.feeAnnotationIV)] else [])
                + (if change > 0 then [(randoms.noteIV, randoms.annotationIV)] else [])
  }

  /** A request that spends these notes, pays fee, change and amount to their receivers, and conserves value. */
  ghost predicate Pays(r: Request, spend: seq<TXO>, tree: nat, selected: nat, fee: nat, amount: nat, wish: Wish,
                       proofOf: TXO -> Option<Proof>, randoms: Randoms)
  {
    && selected >= amount + fee
    && SpendsNotes(r, spend, tree, proofOf) && PaysReceivers(r, fee, selected - amount - fee, amount, wish, randoms)
    && r.valueOut == Payments(fee, selected - amount - fee, amount)
    && Sum(r.valueIn) == Sum(r.valueOut) == selected
  }

  /** Builds the request without the fee and, when a fee is to be paid, once more with it. */
  method RequestUnshield(solution: SimpleUTXOGroup, spend: seq<TXO>, amount: nat, wish: Wish,
                         proofOf: TXO -> Option<Proof>, randoms: Randoms) returns (r: Option<Request>)
    requires (forall x :: RootOf(proofOf(x)) != Some("")) && randoms.change != "" && amount > 0
    requires solution.amount == WorthOf(ValuesOf(spend)) && (spend != [] ==> solution.amount >= amount + wish.fee)
    ensures r.Some? <==> spend != [] && ShareRoot(spend, proofOf)
    ensures r.Some? ==>
      Pays(r.value, spend, solution.spendingTree, solution.amount, wish.fee, amount, wish, proofOf, randoms)
  {
    var inputs := BuildUnshieldTokenBatchInputs(amount, solution, spend, wish, proofOf, randoms);
    if inputs.None? {
      return None;
    }
    UtxosAre(spend, proofOf);
    ghost var root, utxos := proofOf(spend[0]).value.root, UtxosOf(spend, proofOf);
    r := RequestWithoutFee(inputs.value, solution.spendingTree, root, utxos, amount, wish, randoms);
    if wish.fee > 0 {
      r := RequestWithFee(inputs.value, solution.spendingTree, root, utxos, amount, wish, randoms);
    }
    RequestPays(r.value, spend, solution.spendingTree, root, solution.amount, amount, wish, proofOf, randoms);
  }

  /** A request of these notes that pays its receivers. */
  ghost predicate IsPaid(r: Request, tree: nat, root: string, utxos: seq<Utxo>, fee: nat, amount: nat, wish: Wish,
                         randoms: Randoms)
  {
    var total := WorthOf(UtxoValues(utxos));
    && total >= amount + fee && SpendsUtxos(r, tree, root, utxos)
    && PaysReceivers(r, fee, total - amount - fee, amount, wish, randoms)
    && r.valueOut == Payments(fee, total - amount - fee, amount) && Sum(r.valueIn) == Sum(r.valueOut)
  }

  ghost predicate SpendsUtxos(r: Request, tree: nat, root: string, utxos: seq<Utxo>) {
    && r.spendingTree == tree && r.merkleRoot == root && |r.spends| == |r.valueIn| == |utxos|
    && forall k | 0 <= k < |utxos| ::
         && r.spends[k].position == utxos[k].position && r.spends[k].random == utxos[k].random
         && r.spends[k].path == utxos[k].path && utxos[k].value == Some(r.valueIn[k])
  }

  method RequestWithoutFee(inputs: Batch, ghost tree: nat, ghost root: string, ghost utxos: seq<Utxo>,
                           ghost amount: nat, ghost wish: Wish, ghost randoms: Randoms) returns (r: Option<Request>)
    requires AllValued(utxos) && WorthOf(UtxoValues(utxos)) >= amount && randoms.change != ""
    requires inputs == Assembled(tree, root, utxos, amount, WorthOf(UtxoValues(utxos)) - amount, wish, randoms)
    ensures r.Some? && IsPaid(r.value, tree, root, utxos, 0, amount, wish, randoms)
  {
    UnshieldIsRequested(tree, root, utxos, amount, wish, randoms);
    r := OneRequest(inputs);
    NoValues();
    AssembledIs(tree, root, utxos, amount, WorthOf(UtxoValues(utxos)) - amount, wish, randoms);
    PaidWithoutFee(inputs, r.value, tree, root, utxos, amount, WorthOf(UtxoValues(utxos)) - amount, wish, randoms);
  }

  lemma AssembledIs(tree: nat, root: string, utxos: seq<Utxo>, amount: nat, change: nat, wish: Wish, randoms: Randoms)
    ensures var b := Assembled(tree, root, utxos, amount, change, wish, randoms);
            && b.wallet == wish.wallet && |b.groups| == 1
            && b.groups[0] == Group(tree, root, wish.token, utxos, [],
                                    Some(UnshieldOutput(wish.toAddress, wish.token, Some(amount))))
            && (change > 0 ==>
                  && b.changeRandoms == [randoms.change]
                  && b.noteIVs == [[randoms.noteIV]] && b.annotationIVs == [[randoms.annotationIV]])
  {
  }

  lemma PaidWithoutFee(b: Batch, r: Request, tree: nat, root: string, utxos: seq<Utxo>, amount: nat, change: nat,
                       wish: Wish, randoms: Randoms)
    requires change == WorthOf(UtxoValues(utxos)) - amount && |b.groups| == 1 && IsSound(b, 0, r)
    requires b.wallet == wish.wallet
    requires b.groups[0] == Group(tree, root, wish.token, utxos, [],
                                  Some(UnshieldOutput(wish.toAddress, wish.token, Some(amount))))
    requires change > 0 ==> b.changeRandoms == [randoms.change]
    requires change > 0 ==> b.noteIVs == [[randoms.noteIV]] && b.annotationIVs == [[randoms.annotationIV]]
    requires r.valueOut == ChangeList(change) + [amount] && ChangeOf(b.groups[0]) == change
    ensures IsPaid(r, tree, root, utxos, 0, amount, wish, randoms)
  {
    SpendsGroup(b.groups[0], r, tree, root, utxos);
    PaysChangeAndAmount(b, r, amount, change, wish, randoms);
    PaymentsWithoutFee(change, amount);
    PaidFrom(r, tree, root, utxos, 0, amount, change, wish, randoms);
  }

  lemma PaymentsWithoutFee(change: nat, amount: nat)
    ensures Payments(0, change, amount) == ChangeList(change) + [amount]
  {
    var none: seq<nat> := [];
    assert none + ChangeList(change) == ChangeList(change);
  }

  lemma PaidFrom(r: Request, tree: nat, root: string, utxos: seq<Utxo>, fee: nat, amount: nat, change: nat, wish: Wish,
                 randoms: Randoms)
    requires WorthOf(UtxoValues(utxos)) == fee + amount + change && SpendsUtxos(r, tree, root, utxos)
    requires PaysReceivers(r, fee, change, amount, wish, randoms) && r.valueOut == Payments(fee, change, amount)
    requires Sum(r.valueIn) == Sum(r.valueOut)
    ensures IsPaid(r, tree, root, utxos, fee, amount, wish, randoms)
  {
  }

  lemma SpendsGroup(g: Group, r: Request, tree: nat, root: string, utxos: seq<Utxo>)
    requires SpendsItsNotes(g, r) && g.spendingTree == tree && g.merkleRoot == root && g.utxos == utxos
    ensures SpendsUtxos(r, tree, root, utxos) && r.token == g.token
  {
  }

  lemma PaysChangeAndAmount(b: Batch, r: Request, amount: nat, change: nat, wish: Wish, randoms: Randoms)
    requires |b.groups| == 1 && PaysItsReceivers(b, 0, r) && r.token == wish.token && b.groups[0].token == wish.token
    requires UsesItsIVs(b, 0, r)
    requires change > 0 ==> b.noteIVs == [[randoms.noteIV]] && b.annotationIVs == [[randoms.annotationIV]]
    requires b.wallet == wish.wallet && (change > 0 ==> b.changeRandoms == [randoms.change])
    requires b.groups[0].outputs == [] && ChangeOf(b.groups[0]) == change
    requires b.groups[0].unshield == Some(UnshieldOutput(wish.toAddress, wish.token, Some(amount)))
    ensures PaysReceivers(r, 0, change, amount, wish, randoms)
  {
    var n := |r.notesOut|;
    assert r.notesOut[n - 1] == NoteOut(Address(wish.toAddress), wish.token, amount);
    if change > 0 {
      assert r.notesOut[0] == NoteOut(Wallet(wish.wallet, randoms.change), wish.token, change);
    }
  }

  method RequestWithFee(inputs: Batch, ghost tree: nat, ghost root: string, ghost utxos: seq<Utxo>, ghost amount: nat,
                        wish: Wish, randoms: Randoms) returns (r: Option<Request>)
    requires AllValued(utxos) && WorthOf(UtxoValues(utxos)) >= amount + wish.fee && randoms.change != "" && wish.fee > 0
    requires inputs == Assembled(tree, root, utxos, amount, WorthOf(UtxoValues(utxos)) - amount, wish, randoms)
    ensures r.Some? && IsPaid(r.value, tree, root, utxos, wish.fee, amount, wish, randoms)
  {
    var prepared := new PreparedUnshield(inputs);
    var applied := prepared.ApplyBroadcasterFee(FeeOutput(wish, randoms), randoms.feeNoteIV, randoms.feeAnnotationIV);
    FeeIsRequestedIff(tree, root, utxos, amount, wish, randoms);
    PaidChange(tree, root, utxos, amount, wish, randoms);
    r := OneRequest(prepared.inputs);
    PaidWithFee(prepared.inputs, r.value, tree, root, utxos, amount, wish, randoms);
  }

  lemma PaidWithFee(b: Batch, r: Request, tree: nat, root: string, utxos: seq<Utxo>, amount: nat, wish: Wish,
                    randoms: Randoms)
    requires WorthOf(UtxoValues(utxos)) >= amount + wish.fee && wish.fee > 0 && |b.groups| == 1 && IsSound(b, 0, r)
    requires b.wallet == wish.wallet && (WorthOf(UtxoValues(utxos)) > amount ==> b.changeRandoms == [randoms.change])
    requires b.groups[0] == Group(tree, root, wish.token, utxos, [FeeOutput(wish, randoms)],
                                  Some(UnshieldOutput(wish.toAddress, wish.token, Some(amount))))
    requires ChangeOf(b.groups[0]) == WorthOf(UtxoValues(utxos)) - amount - wish.fee
    requires HasFeeIVs(b, WorthOf(UtxoValues(utxos)) > amount, randoms)
    requires r.valueOut == [wish.fee] + ChangeList(WorthOf(UtxoValues(utxos)) - amount - wish.fee) + [amount]
    ensures IsPaid(r, tree, root, utxos, wish.fee, amount, wish, randoms)
  {
    var change := WorthOf(UtxoValues(utxos)) - amount - wish.fee;
    SpendsGroup(b.groups[0], r, tree, root, utxos);
    PaysFeeAndRest(b, r, amount, change, wish, randoms);
    PaidFrom(r, tree, root, utxos, wish.fee, amount, change, wish, randoms);
  }

  /** The initial values of the fee come first, then those of the change. */
  ghost predicate HasFeeIVs(b: Batch, withChange: bool, randoms: Randoms) {
    var noteIVs, annotationIVs := IVsAt(b.noteIVs, 0), IVsAt(b.annotationIVs, 0);
    && |noteIVs| > 0 && noteIVs[0] == randoms.feeNoteIV
    && |annotationIVs| > 0 && annotationIVs[0] == randoms.feeAnnotationIV
    && (withChange ==>
          && |noteIVs| > 1 && noteIVs[1] == randoms.noteIV
          && |annotationIVs| > 1 && annotationIVs[1] == randoms.annotationIV)
  }

  lemma PaysFeeAndRest(b: Batch, r: Request, amount: nat, change: nat, wish: Wish, randoms: Randoms)
    requires |b.groups| == 1 && PaysItsReceivers(b, 0, r) && r.token == wish.token && b.groups[0].token == wish.token
    requires b.wallet == wish.wallet && (change > 0 ==> b.changeRandoms == [randoms.change]) && wish.fee > 0
    requires UsesItsIVs(b, 0, r) && HasFeeIVs(b, change > 0, randoms)
    requires b.groups[0].outputs == [FeeOutput(wish, randoms)] && ChangeOf(b.groups[0]) == change
    requires b.groups[0].unshield == Some(UnshieldOutput(wish.toAddress, wish.token, Some(amount)))
    ensures PaysReceivers(r, wish.fee, change, amount, wish, randoms)
  {
    var n := |r.notesOut|;
    assert r.notesOut[0] == NoteOut(Wallet(wish.broadcaster, randoms.fee), wish.token, wish.fee);
    assert r.notesOut[n - 1] == NoteOut(Address(wish.toAddress), wish.token, amount);
    if change > 0 {
      assert r.notesOut[1] == NoteOut(Wallet(wish.wallet, randoms.change), wish.token, change);
    }
  }

  lemma UtxosAre(spend: seq<TXO>, proofOf: TXO -> Option<Proof>)
    ensures AllValued(UtxosOf(spend, proofOf)) && UtxoValues(UtxosOf(spend, proofOf)) == ValuesOf(spend)
  {
  }

  /** What is said of the inputs holds of the stored notes that they were made from. */
  lemma RequestPays(r: Request, spend: seq<TXO>, tree: nat, root: string, selected: nat, amount: nat, wish: Wish,
                    proofOf: TXO -> Option<Proof>, randoms: Randoms)
    requires spend != [] && ShareRoot(spend, proofOf) && RootOf(proofOf(spend[0])) == Some(root)
    requires selected == WorthOf(ValuesOf(spend)) && UtxoValues(UtxosOf(spend, proofOf)) == ValuesOf(spend)
    requires IsPaid(r, tree, root, UtxosOf(spend, proofOf), wish.fee, amount, wish, randoms)
    ensures Pays(r, spend, tree, selected, wish.fee, amount, wish, proofOf, randoms)
  {
    PaymentsAddUp(wish.fee, selected - amount - wish.fee, amount);
    forall k | 0 <= k < |spend| ensures proofOf(spend[k]) == Some(Proof(root, r.spends[k].path)) {
      assert spend[k] in spend;
    }
  }

  /** The request of the only group of a batch. */
  method OneRequest(b: Batch) returns (r: Option<Request>)
    requires |b.groups| == 1 && RequestFor(b, 0).Some?
    ensures r == RequestFor(b, 0) && IsSound(b, 0, r.value)
  {
    var all := GenerateTransactions(b);
    OnlyGroup(b, all);
    return Some(all.value[0]);
  }

  lemma OnlyGroup(b: Batch, r: Option<seq<Request>>)
    requires |b.groups| == 1 && RequestFor(b, 0).Some?
    requires r.Some? <==> forall i | 0 <= i < |b.groups| :: RequestFor(b, i).Some?
    requires r.Some? ==> |r.value| == |b.groups| && forall i | 0 <= i < |b.groups| :: IsSound(b, i, r.value[i])
    ensures r.Some? && |r.value| == 1 && IsSound(b, 0, r.value[0])
  {
  }

  // ----- What is requested for a wish

  /** The notes that an unshield spends, their tree and sum, and the amount. */
  datatype Plan = Plan(amount: nat, selected: nat, tree: nat, spend: seq<TXO>)

  /** The selection for amount and fee among these notes; none when the amount is not positive, when
      no tree offers anything, and when the last offer is empty. */
  function PlanFor(notes: seq<TXO>, wish: Wish): Option<Plan> {
    PlanAmong(BalancesOf(notes), notes, WishedAmount(wish, BalancesOf(notes)), wish.fee)
  }

  /** The same from the balances by tree, for an amount. */
  function PlanAmong(trees: seq<TreeBalance>, notes: seq<TXO>, amount: int, fee: nat): Option<Plan> {
    if amount <= 0 then None else PlanOf(amount, Selected(trees, amount + fee), notes)
  }

  function PlanOf(amount: nat, group: Option<SimpleUTXOGroup>, notes: seq<TXO>): Option<Plan> {
    if group.None? || group.value.utxos == [] then None
    else Some(Plan(amount, group.value.amount, group.value.spendingTree, SpentNotes(group.value.utxos, notes)))
  }

  method AmountFor(wish: Wish, trees: seq<TreeBalance>) returns (amount: int)
    ensures amount == WishedAmount(wish, trees)
  {
    if wish.amount.Some? {
      return wish.amount.value;
    }
    var balance := TransactionTreeBalanceTotal(trees);
    return balance - wish.fee;
  }

  /** The request for an amount and a fee, made exactly when the amount is positive, the selection for both is not
      empty and its notes share a root. */
  method RequestAmount(trees: seq<TreeBalance>, byId: map<string, TXO>, amount: int, wish: Wish,
                       proofOf: TXO -> Option<Proof>, randoms: Randoms, ghost notes: seq<TXO>)
    returns (r: Option<Request>)
    requires (forall x :: RootOf(proofOf(x)) != Some("")) && randoms.change != ""
    requires Offered(trees, byId, notes) && IsIndex(byId, notes)
    ensures IsRequestFor(r, PlanAmong(trees, notes, amount, wish.fee), wish, proofOf, randoms, notes)
  {
    if amount <= 0 {
      return None;
    }
    var selection := SelectSpendableUTXOs(trees, byId, amount + wish.fee, notes);
    if selection.None? {
      return None;
    }
    r := RequestSelection(selection.value.0, selection.value.1, amount, wish, proofOf, randoms, notes);
  }

  method RequestSelection(group: SimpleUTXOGroup, spend: seq<TXO>, amount: nat, wish: Wish,
                          proofOf: TXO -> Option<Proof>, randoms: Randoms, ghost notes: seq<TXO>)
    returns (r: Option<Request>)
    requires (forall x :: RootOf(proofOf(x)) != Some("")) && randoms.change != "" && amount > 0
    requires group.amount == WorthOf(ValuesOf(spend)) && (spend != [] ==> group.amount >= amount + wish.fee)
    requires spend == SpentNotes(group.utxos, notes) && |spend| == |group.utxos|
    requires AreSpendable(spend, notes, group.spendingTree)
    ensures IsRequestFor(r, PlanOf(amount, Some(group), notes), wish, proofOf, randoms, notes)
  {
    r := RequestUnshield(group, spend, amount, wish, proofOf, randoms);
  }

  /** Some of these notes, all of one tree and none twice. */
  ghost predicate AreSpendable(spend: seq<TXO>, notes: seq<TXO>, tree: nat) {
    DistinctNullifiers(spend) && forall x | x in spend :: x in notes && x.tree == tree
  }

  /** A request is made exactly when there is a plan whose notes share a root, and then it pays what
      was planned with notes that are spendable. */
  ghost predicate IsRequestFor(r: Option<Request>, plan: Option<Plan>, wish: Wish, proofOf: TXO -> Option<Proof>,
                               randoms: Randoms, notes: seq<TXO>)
  {
    && (r.Some? <==> plan.Some? && ShareRoot(plan.value.spend, proofOf))
    && (r.Some? ==>
          var p := plan.value;
          && Pays(r.value, p.spend, p.tree, p.selected, wish.fee, p.amount, wish, proofOf, randoms)
          && AreSpendable(p.spend, notes, p.tree))
  }

  method RequestWish(trees: seq<TreeBalance>, byId: map<string, TXO>, wish: Wish,
                     proofOf: TXO -> Option<Proof>, randoms: Randoms, ghost notes: seq<TXO>)
    returns (r: Option<Request>)
    requires (forall x :: RootOf(proofOf(x)) != Some("")) && randoms.change != ""
    requires Offered(trees, byId, notes) && IsIndex(byId, notes)
    ensures IsRequestFor(r, PlanAmong(trees, notes, WishedAmount(wish, trees), wish.fee), wish, proofOf, randoms, notes)
  {
    var amount := AmountFor(wish, trees);
    r := RequestAmount(trees, byId, amount, wish, proofOf, randoms, notes);
  }

  /** The request spends stored notes that may be spent: unspent notes of the token, each once, each with its
      position, random and value. */
  ghost predicate SpendsOnlyAllowed(r: Request, txos: seq<TXO>, w: Wanted) {
    exists spend: seq<TXO> ::
      && |spend| == |r.spends| == |r.valueIn| && DistinctNullifiers(spend)
      && forall k | 0 <= k < |spend| ::
           && spend[k] in txos && MayBeSpent(spend[k], w) && spend[k].tree == r.spendingTree
           && r.spends[k].position == spend[k].position && r.spends[k].random == spend[k].noteRandom
           && r.valueIn[k] == spend[k].value
  }

  lemma PlanIsAllowed(r: Request, plan: Plan, txos: seq<TXO>, w: Wanted, notes: seq<TXO>, proofOf: TXO -> Option<Proof>)
    requires SpendsNotes(r, plan.spend, plan.tree, proofOf) && AreSpendable(plan.spend, notes, plan.tree)
    requires forall x :: x in notes <==> x in txos && MayBeSpent(x, w)
    ensures SpendsOnlyAllowed(r, txos, w)
  {
    forall k | 0 <= k < |plan.spend|
      ensures plan.spend[k] in txos && MayBeSpent(plan.spend[k], w) && plan.spend[k].tree == r.spendingTree
    {
      assert plan.spend[k] in plan.spend;
    }
  }

  /** From the stored notes to the final request: it is made exactly when no note stops the search, the
      spendable notes allow the wish, and the notes that are spent share a root. It spends these
      notes, pays fee, change and amount to their receivers, and conserves value. */
  method PrepareUnshield(txos: seq<TXO>, wanted: Wanted, wish: Wish, proofOf: TXO -> Option<Proof>, randoms: Randoms)
    returns (r: Option<Request>)
    requires DistinctNullifiers(txos) && (forall x :: RootOf(proofOf(x)) != Some("")) && randoms.change != ""
    ensures (exists x :: x in txos && StopsSearch(x, wanted)) ==> r.None?
    ensures (forall x | x in txos :: !StopsSearch(x, wanted)) ==>
              IsRequestFor(r, PlanFor(Filtered(txos, wanted), wish), wish, proofOf, randoms, Filtered(txos, wanted))
    ensures r.Some? ==> SpendsOnlyAllowed(r.value, txos, wanted)
    ensures r.Some? ==> Sum(r.value.valueIn) == Sum(r.value.valueOut) && r.value.valueOut != []
    ensures r.Some? && wish.fee > 0 ==> r.value.valueOut[0] == wish.fee
    ensures r.Some? && wish.amount.Some? ==> r.value.valueOut[|r.value.valueOut| - 1] == wish.amount.value
  {
    var offered := SpendableTokenTreeBalances(txos, wanted);
    if offered.Err? {
      return None;
    }
    ghost var notes := Filtered(txos, wanted);
    r := RequestWish(offered.value.0, offered.value.1, wish, proofOf, randoms, notes);
    if r.Some? {
      ghost var plan := PlanFor(notes, wish).value;
      FilteredIff(txos, wanted);
      PlanIsAllowed(r.value, plan, txos, wanted, notes, proofOf);
      PaymentsEnds(wish.fee, plan.selected - plan.amount - wish.fee, plan.amount);
    }
  }

  /** There is a plan exactly when the amount is positive and, for amount and fee together, some tree
      covers it and every later tree would take more than ten notes. */
  lemma PlanIff(trees: seq<TreeBalance>, notes: seq<TXO>, amount: int, fee: nat)
    requires AllSums(trees)
    ensures PlanAmong(trees, notes, amount, fee).Some? <==> amount > 0 && SomeTreeCovers(trees, amount + fee)
  {
    if amount > 0 {
      SelectionIff(trees, amount + fee);
    }
  }

  /** The balances of notes are the sums of the notes. */
  lemma {:induction false} BalancesAreSums(notes: seq<TXO>)
    ensures AllSums(BalancesOf(notes))
  {
    if notes != [] {
      BalancesAreSums(notes[..|notes| - 1]);
      DepositSums(BalancesOf(notes[..|notes| - 1]), notes[|notes| - 1]);
    }
  }

  /** A wish for everything is granted exactly when the last tree holds all value, in at most ten
      notes: the program does not spend from several trees. */
  lemma EverythingIff(trees: seq<TreeBalance>, notes: seq<TXO>, total: nat, fee: nat)
    requires AllSums(trees) && total == TotalBalance(trees)
    ensures PlanAmong(trees, notes, total - fee, fee).Some? <==> total > fee && LastHoldsAll(trees)
  {
    PlanIff(trees, notes, total - fee, fee);
    if total > fee {
      assert total - fee + fee == total;
      LastCoversAllIff(trees, total);
    }
  }

  lemma PaymentsEnds(fee: nat, change: nat, amount: nat)
    ensures var p := Payments(fee, change, amount); p != [] && p[|p| - 1] == amount && (fee > 0 ==> p[0] == fee)
  {
  }

  lemma PaymentsAddUp(fee: nat, change: nat, amount: nat)
    ensures Sum(Payments(fee, change, amount)) == fee + change + amount
  {
    var none: seq<nat> := [];
    var first: seq<nat> := if fee > 0 then [fee] else [];
    SumSnoc(none, fee);
    assert none + [fee] == [fee];
    SumSnoc(first, change);
    assert first + none == first;
    SumSnoc(first + ChangeList(change), amount);
  }
}
