/** Reading one V3 accumulator update: the places of its commitments and the fees of its shields
    and unshields (ProcessV3AccumulatorStateUpdate and v3TreasuryFeeMap in pkg/events/v3.go). */
module Accumulator {
  import opened Wrappers
  import Seqs

  const TREE_MAX_ITEMS := 65536
  const UNSHIELD_ONLY := 99999
  const MIN_VALUE_WITH_FEE := 400
  const MIN_CIPHERTEXT_DIGITS := 32

  datatype Preimage = Preimage(isERC20: bool, tokenHash: string, value: nat)

  datatype Transaction = Transaction(commitmentsCount: nat, unshield: Preimage)

  datatype Shield = Shield(hash: string, preimage: Preimage)

  datatype TreasuryFee = TreasuryFee(tokenId: string, fee: nat)

  /** Ciphertexts are hex texts. */
  datatype Update = Update(
    commitments: seq<string>,
    ciphertexts: seq<string>,
    transactions: seq<Transaction>,
    shields: seq<Shield>,
    treasuryFees: seq<TreasuryFee>)

  datatype CommitmentEvent = CommitmentEvent(tree: nat, startPosition: nat, hashes: seq<string>, fee: nat)

  datatype RailgunTransaction = RailgunTransaction(treeOut: nat, positionOut: nat)

  datatype UnshieldEvent = UnshieldEvent(index: nat, tokenHash: string, amount: int, fee: nat)

  datatype Events = Events(
    commitments: seq<CommitmentEvent>,
    transactions: seq<RailgunTransaction>,
    unshields: seq<UnshieldEvent>)

  // ----- The cursor

  datatype Cursor = Cursor(tree: nat, index: nat) {
    function Global(): nat {
      tree * TREE_MAX_ITEMS + index
    }
  }

  /** A batch moves the cursor on; at the end of a tree it goes to the start of the next one. */
  function Advance(c: Cursor, count: nat): Cursor {
    if c.index + count >= TREE_MAX_ITEMS then Cursor(c.tree + 1, 0) else Cursor(c.tree, c.index + count)
  }

  function CursorAfter(start: Cursor, counts: seq<nat>): Cursor {
    if counts == [] then start else Advance(CursorAfter(start, counts[..|counts| - 1]), counts[|counts| - 1])
  }

  function Sum(counts: seq<nat>): nat {
    if counts == [] then 0 else Sum(counts[..|counts| - 1]) + counts[|counts| - 1]
  }

  /** The sizes of the batches: those of the transactions, then one for every shield. */
  function Counts(u: Update): (r: seq<nat>)
    ensures |r| == |u.transactions| + |u.shields|
    ensures forall i | 0 <= i < |u.transactions| :: r[i] == u.transactions[i].commitmentsCount
    ensures forall i | |u.transactions| <= i < |r| :: r[i] == 1
  {
    seq(|u.transactions|, i requires 0 <= i < |u.transactions| => u.transactions[i].commitmentsCount)
    + seq(|u.shields|, _ => 1)
  }

  /** Where batch i goes, and which commitments it takes. */
  function CursorOf(start: Cursor, u: Update, i: nat): Cursor
    requires i <= |u.transactions| + |u.shields|
  {
    CursorAfter(start, Counts(u)[..i])
  }

  function Offset(u: Update, i: nat): nat
    requires i <= |u.transactions| + |u.shields|
  {
    Sum(Counts(u)[..i])
  }

  lemma CursorStep(start: Cursor, u: Update, i: nat)
    requires i < |u.transactions| + |u.shields|
    ensures CursorOf(start, u, i + 1) == Advance(CursorOf(start, u, i), Counts(u)[i])
    ensures Offset(u, i + 1) == Offset(u, i) + Counts(u)[i]
  {
    assert Counts(u)[..i + 1][..i] == Counts(u)[..i];
  }

  // ----- Treasury fees

  datatype Portions = Portions(shield: nat, unshield: nat)

  /** The value of the first preimage of this token, or zero. */
  function FirstValue(preimages: seq<Preimage>, token: string): nat {
    if preimages == [] then 0
    else if preimages[0].tokenHash == token then preimages[0].value
    else FirstValue(preimages[1..], token)
  }

  function Unshields(u: Update): (r: seq<Preimage>)
    ensures |r| == |u.transactions| && forall i | 0 <= i < |r| :: r[i] == u.transactions[i].unshield
  {
    seq(|u.transactions|, i requires 0 <= i < |u.transactions| => u.transactions[i].unshield)
  }

  function Shielded(u: Update): (r: seq<Preimage>)
    ensures |r| == |u.shields| && forall i | 0 <= i < |r| :: r[i] == u.shields[i].preimage
  {
    seq(|u.shields|, i requires 0 <= i < |u.shields| => u.shields[i].preimage)
  }

  /** The smaller side gets its share of the fee rounded down, the other side the rest. */
  function Split(fee: nat, unshieldValue: nat, shieldValue: nat): (p: Portions)
    ensures p.shield + p.unshield == if unshieldValue + shieldValue == 0 then 0 else fee
  {
    var total := unshieldValue + shieldValue;
    if total == 0 then Portions(0, 0)
    else if unshieldValue < shieldValue then
      ShareAtMost(unshieldValue, fee, total);
      Portions(fee - unshieldValue * fee / total, unshieldValue * fee / total)
    else
      ShareAtMost(shieldValue, fee, total);
      Portions(shieldValue * fee / total, fee - shieldValue * fee / total)
  }

  lemma ShareAtMost(part: nat, fee: nat, total: nat)
    requires part <= total && total > 0
    ensures 0 <= part * fee / total <= fee
  {
    assert part * fee <= total * fee;
    DivAtMost(part * fee, fee, total);
  }

  lemma DivAtMost(x: nat, q: nat, d: nat)
    requires d > 0 && x <= d * q
    ensures 0 <= x / d <= q
  {
    assert d * (x / d - q) <= 0;
    NotPositive(d, x / d - q);
  }

  lemma NotPositive(d: nat, y: int)
    requires d > 0 && d * y <= 0
    ensures y <= 0
  {
  }

  /** The last fee listed for a token counts. */
  function FeeOf(fees: seq<TreasuryFee>, token: string): Option<nat> {
    if fees == [] then None
    else if fees[|fees| - 1].tokenId == token then Some(fees[|fees| - 1].fee)
    else FeeOf(fees[..|fees| - 1], token)
  }

  function PortionsOf(u: Update, token: string): Option<Portions> {
    var fee := FeeOf(u.treasuryFees, token);
    if fee.None? then None
    else Some(Split(fee.value, FirstValue(Unshields(u), token), FirstValue(Shielded(u), token)))
  }

  // ----- Portions, without the functions that compute them

  /** The value of the first preimage of this token; zero when there is none. */
  ghost predicate IsFirstValue(ps: seq<Preimage>, token: string, v: nat) {
    || (v == 0 && forall i | 0 <= i < |ps| :: ps[i].tokenHash != token)
    || exists i | 0 <= i < |ps| ::
         ps[i].tokenHash == token && ps[i].value == v && forall j | 0 <= j < i :: ps[j].tokenHash != token
  }

  /** The last fee listed for this token. */
  ghost predicate IsLastFee(fees: seq<TreasuryFee>, token: string, fee: nat) {
    exists i | 0 <= i < |fees| ::
      fees[i].tokenId == token && fees[i].fee == fee && forall j | i < j < |fees| :: fees[j].tokenId != token
  }

  /** The quotient x / d, rounded down. */
  ghost predicate IsQuotient(q: nat, x: nat, d: nat) {
    q * d <= x < (q + 1) * d
  }

  /** The side of the smaller value gets its share of the fee, rounded down, and the other side the rest; the shield
      side counts as the smaller one when both are worth the same. */
  ghost predicate IsFairSplit(p: Portions, fee: nat, unshieldValue: nat, shieldValue: nat) {
    var total := unshieldValue + shieldValue;
    if total == 0 then p.shield == 0 && p.unshield == 0
    else if unshieldValue < shieldValue then
      IsQuotient(p.unshield, fee * unshieldValue, total) && p.shield + p.unshield == fee
    else
      IsQuotient(p.shield, fee * shieldValue, total) && p.shield + p.unshield == fee
  }

  lemma {:induction false} FirstValueIsFirst(ps: seq<Preimage>, token: string)
    ensures IsFirstValue(ps, token, FirstValue(ps, token))
  {
    if ps != [] && ps[0].tokenHash != token {
      FirstValueIsFirst(ps[1..], token);
      FirstOfRest(ps, token, FirstValue(ps[1..], token));
    }
  }

  lemma FirstOfRest(ps: seq<Preimage>, token: string, v: nat)
    requires ps != [] && ps[0].tokenHash != token && IsFirstValue(ps[1..], token, v)
    ensures IsFirstValue(ps, token, v)
  {
    var rest := ps[1..];
    if i :| 0 <= i < |rest| && rest[i].tokenHash == token && rest[i].value == v
            && forall j | 0 <= j < i :: rest[j].tokenHash != token {
      assert ps[i + 1] == rest[i];
      forall j | 0 <= j < i + 1 ensures ps[j].tokenHash != token {
        assert j > 0 ==> ps[j] == rest[j - 1];
      }
    } else {
      forall i | 0 <= i < |ps| ensures ps[i].tokenHash != token {
        assert i > 0 ==> ps[i] == rest[i - 1];
      }
    }
  }

  lemma {:induction false} FeeOfIsLast(fees: seq<TreasuryFee>, token: string)
    ensures FeeOf(fees, token).Some? ==> IsLastFee(fees, token, FeeOf(fees, token).value)
    ensures FeeOf(fees, token).None? <==> forall i | 0 <= i < |fees| :: fees[i].tokenId != token
  {
    if fees != [] && fees[|fees| - 1].tokenId != token {
      var front, last := fees[..|fees| - 1], fees[|fees| - 1];
      FeeOfIsLast(front, token);
      assert fees == front + [last];
      if FeeOf(front, token).Some? {
        LastOfFront(front, last, token, FeeOf(front, token).value);
      } else {
        NoneOfFront(front, last, token);
      }
    }
  }

  lemma LastOfFront(front: seq<TreasuryFee>, last: TreasuryFee, token: string, fee: nat)
    requires IsLastFee(front, token, fee) && last.tokenId != token
    ensures IsLastFee(front + [last], token, fee)
    ensures exists i | 0 <= i < |front + [last]| :: (front + [last])[i].tokenId == token
  {
    var fees := front + [last];
    var i :| 0 <= i < |front| && front[i].tokenId == token && front[i].fee == fee
             && forall j | i < j < |front| :: front[j].tokenId != token;
    assert fees[i] == front[i];
  }

  lemma NoneOfFront(front: seq<TreasuryFee>, last: TreasuryFee, token: string)
    requires last.tokenId != token && forall i | 0 <= i < |front| :: front[i].tokenId != token
    ensures forall i | 0 <= i < |front + [last]| :: (front + [last])[i].tokenId != token
  {
  }

  lemma QuotientOfDiv(x: nat, d: nat)
    requires d > 0
    ensures x / d >= 0 && IsQuotient(x / d, x, d)
  {
  }

  lemma SplitIsFair(fee: nat, unshieldValue: nat, shieldValue: nat)
    ensures IsFairSplit(Split(fee, unshieldValue, shieldValue), fee, unshieldValue, shieldValue)
  {
    var total := unshieldValue + shieldValue;
    if total > 0 {
      assert unshieldValue * fee == fee * unshieldValue && shieldValue * fee == fee * shieldValue;
      QuotientOfDiv(fee * unshieldValue, total);
      QuotientOfDiv(fee * shieldValue, total);
    }
  }

  /** The portions are the fair split of the last fee listed for the token, by the first unshield and the first shield
      of that token. */
  ghost predicate ArePortionsOf(p: Portions, u: Update, token: string) {
    exists fee, v, w ::
      && IsLastFee(u.treasuryFees, token, fee) && IsFirstValue(Unshields(u), token, v)
      && IsFirstValue(Shielded(u), token, w) && IsFairSplit(p, fee, v, w)
  }

  lemma PortionsAreFair(u: Update, token: string)
    ensures PortionsOf(u, token).Some? ==> ArePortionsOf(PortionsOf(u, token).value, u, token)
    ensures PortionsOf(u, token).None? <==> forall i | 0 <= i < |u.treasuryFees| :: u.treasuryFees[i].tokenId != token
  {
    FeeOfIsLast(u.treasuryFees, token);
    FirstValueIsFirst(Unshields(u), token);
    FirstValueIsFirst(Shielded(u), token);
    if PortionsOf(u, token).Some? {
      SplitIsFair(FeeOf(u.treasuryFees, token).value, FirstValue(Unshields(u), token), FirstValue(Shielded(u), token));
    }
  }

  method FindFirstValue(preimages: seq<Preimage>, token: string) returns (value: nat)
    ensures value == FirstValue(preimages, token)
  {
    for i := 0 to |preimages|
      invariant FirstValue(preimages, token) == FirstValue(preimages[i..], token)
    {
      if preimages[i].tokenHash == token {
        return preimages[i].value;
      }
      assert preimages[i..][1..] == preimages[i + 1..];
    }
    return 0;
  }

  method TreasuryFeeMap(u: Update) returns (portions: map<string, Portions>)
    ensures forall token :: (if token in portions then Some(portions[token]) else None) == PortionsOf(u, token)
    ensures forall token | token in portions :: ArePortionsOf(portions[token], u, token)
    ensures forall fee | fee in u.treasuryFees :: fee.tokenId in portions
  {
    portions := CollectPortions(u);
    forall token ensures token in portions ==> ArePortionsOf(portions[token], u, token) {
      PortionsAreFair(u, token);
      assert (if token in portions then Some(portions[token]) else None) == PortionsOf(u, token);
    }
    forall fee | fee in u.treasuryFees ensures fee.tokenId in portions {
      PortionsAreFair(u, fee.tokenId);
      assert (if fee.tokenId in portions then Some(portions[fee.tokenId]) else None) == PortionsOf(u, fee.tokenId);
    }
  }

  method CollectPortions(u: Update) returns (portions: map<string, Portions>)
    ensures forall token :: (if token in portions then Some(portions[token]) else None) == PortionsOf(u, token)
  {
    portions := map[];
    for i := 0 to |u.treasuryFees|
      invariant forall token :: (if token in portions then Some(portions[token]) else None)
                             == PortionsOf(u.(treasuryFees := u.treasuryFees[..i]), token)
    {
      var fee := u.treasuryFees[i];
      assert u.treasuryFees[..i + 1][..i] == u.treasuryFees[..i];
      var unshieldValue := FindFirstValue(Unshields(u), fee.tokenId);
      var shieldValue := FindFirstValue(Shielded(u), fee.tokenId);
      SameSides(u, i);
      SameSides(u, i + 1);
      portions := portions[fee.tokenId := Split(fee.fee, unshieldValue, shieldValue)];
    }
    Seqs.Whole(u.treasuryFees);
  }

  lemma SameSides(u: Update, i: nat)
    requires i <= |u.treasuryFees|
    ensures Unshields(u.(treasuryFees := u.treasuryFees[..i])) == Unshields(u)
    ensures Shielded(u.(treasuryFees := u.treasuryFees[..i])) == Shielded(u)
  {
  }

  function TotalValue(preimages: seq<Preimage>): nat {
    if preimages == [] then 0 else TotalValue(preimages[..|preimages| - 1]) + preimages[|preimages| - 1].value
  }

  method SumValues(preimages: seq<Preimage>) returns (total: nat)
    ensures total == TotalValue(preimages)
  {
    total := 0;
    for i := 0 to |preimages|
      invariant total == TotalValue(preimages[..i])
    {
      assert preimages[..i + 1][..i] == preimages[..i];
      total := total + preimages[i].value;
    }
    Seqs.Whole(preimages);
  }

  /** The part of a portion that one preimage bears, rounded down; the values of all tokens make
      up the whole. */
  function FeeShare(portion: nat, p: Preimage, total: nat): nat {
    if total == 0 then 0 else ShareIsNat(portion * p.value, total); portion * p.value / total
  }

  lemma ShareIsNat(x: nat, total: nat)
    requires total > 0
    ensures x / total >= 0
  {
  }

  /** The fee of a preimage, or nothing when it is missing. */
  function FeeFor(portions: Option<Portions>, p: Preimage, isShield: bool, total: nat): Option<nat> {
    if !p.isERC20 then Some(0)
    else if portions.None? then None
    else
      var fee := FeeShare(if isShield then portions.value.shield else portions.value.unshield, p, total);
      if p.value >= MIN_VALUE_WITH_FEE && fee == 0 then None else Some(fee)
  }

  function UnshieldFee(u: Update, i: nat): Option<nat>
    requires i < |u.transactions|
  {
    var p := u.transactions[i].unshield;
    FeeFor(PortionsOf(u, p.tokenHash), p, false, TotalValue(Unshields(u)))
  }

  function ShieldFee(u: Update, i: nat): Option<nat>
    requires i < |u.shields|
  {
    var p := u.shields[i].preimage;
    FeeFor(PortionsOf(u, p.tokenHash), p, true, TotalValue(Shielded(u)))
  }

  // ----- Processing an update

  /** Every batch finds its commitments and ciphertexts, and every fee that is due is there. */
  ghost predicate Accepts(u: Update) {
    && AllAccepted(u, |u.transactions|)
    && (forall i | 0 <= i < |u.shields| :: ShieldFee(u, i).Some?)
  }

  ghost predicate HasItsCommitments(u: Update, i: nat)
    requires i < |u.transactions|
  {
    && Offset(u, i + 1) <= |u.commitments| && Offset(u, i + 1) <= |u.ciphertexts|
    && (forall k | Offset(u, i) <= k < Offset(u, i + 1) :: |u.ciphertexts[k]| >= MIN_CIPHERTEXT_DIGITS)
  }

  ghost predicate BatchAccepted(u: Update, i: nat)
    requires i < |u.transactions|
  {
    HasItsCommitments(u, i) && (u.transactions[i].unshield.value > 0 ==> UnshieldFee(u, i).Some?)
  }

  /** What is read of a transaction: its commitments at the cursor. */
  ghost predicate IsTransactEvent(start: Cursor, u: Update, i: nat, e: CommitmentEvent)
    requires i < |u.transactions|
  {
    && Offset(u, i) <= Offset(u, i + 1) <= |u.commitments|
    && e == CommitmentEvent(CursorOf(start, u, i).tree, CursorOf(start, u, i).index,
                            u.commitments[Offset(u, i)..Offset(u, i + 1)], 0)
  }

  /** A transaction that only unshields has no place in a tree. */
  function TransactionEvent(t: Transaction, c: Cursor): RailgunTransaction {
    if t.commitmentsCount == 0 && t.unshield.value > 0 then RailgunTransaction(UNSHIELD_ONLY, UNSHIELD_ONLY)
    else RailgunTransaction(c.tree, c.index)
  }

  /** A transaction without commitments that unshields stands at place 99999 of tree 99999, every other one at the
      cursor. */
  lemma TransactionHasPlace(t: Transaction, c: Cursor)
    ensures var e := TransactionEvent(t, c);
            if t.commitmentsCount == 0 && t.unshield.value > 0 then e.treeOut == 99999 && e.positionOut == 99999
            else e.treeOut == c.tree && e.positionOut == c.index
  {
  }

  ghost predicate IsShieldEvent(start: Cursor, u: Update, i: nat, e: CommitmentEvent)
    requires i < |u.shields|
  {
    var c := CursorOf(start, u, |u.transactions| + i);
    ShieldFee(u, i).Some? && e == CommitmentEvent(c.tree, c.index, [u.shields[i].hash], ShieldFee(u, i).value)
  }

  /** The unshields among the first n transactions. */
  function UnshieldEvents(u: Update, n: nat): seq<UnshieldEvent>
    requires n <= |u.transactions|
  {
    if n == 0 then []
    else
      var p := u.transactions[n - 1].unshield;
      if p.value > 0 && UnshieldFee(u, n - 1).Some? then
        var fee := UnshieldFee(u, n - 1).value;
        UnshieldEvents(u, n - 1) + [UnshieldEvent(n - 1, p.tokenHash, p.value - fee, fee)]
      else UnshieldEvents(u, n - 1)
  }

  type FeeMap = map<string, Portions>

  ghost predicate IsFeeMap(portions: FeeMap, u: Update) {
    forall token :: (if token in portions then Some(portions[token]) else None) == PortionsOf(u, token)
  }

  method CiphertextsFit(u: Update, from: nat, to: nat) returns (ok: bool)
    requires from <= to <= |u.ciphertexts|
    ensures ok <==> forall k | from <= k < to :: |u.ciphertexts[k]| >= MIN_CIPHERTEXT_DIGITS
  {
    for k := from to to
      invariant forall j | from <= j < k :: |u.ciphertexts[j]| >= MIN_CIPHERTEXT_DIGITS
    {
      if |u.ciphertexts[k]| < MIN_CIPHERTEXT_DIGITS {
        return false;
      }
    }
    return true;
  }

  method ReadBatch(u: Update, i: nat, cursor: Cursor, offset: nat, ghost start: Cursor)
    returns (r: Option<CommitmentEvent>)
    requires i < |u.transactions| && cursor == CursorOf(start, u, i) && offset == Offset(u, i)
    ensures r.Some? ==> IsTransactEvent(start, u, i, r.value)
    ensures r.Some? <==> HasItsCommitments(u, i)
  {
    CursorStep(start, u, i);
    var end := offset + u.transactions[i].commitmentsCount;
    if end > |u.commitments| || end > |u.ciphertexts| {
      return None;
    }
    var readable := CiphertextsFit(u, offset, end);
    if !readable {
      return None;
    }
    return Some(CommitmentEvent(cursor.tree, cursor.index, u.commitments[offset..end], 0));
  }

  method ReadUnshield(u: Update, i: nat, portions: FeeMap) returns (r: Option<UnshieldEvent>)
    requires i < |u.transactions| && IsFeeMap(portions, u)
    ensures r.Some? <==> UnshieldFee(u, i).Some?
    ensures r.Some? ==>
      var p, fee := u.transactions[i].unshield, UnshieldFee(u, i).value;
      r.value == UnshieldEvent(i, p.tokenHash, p.value - fee, fee)
  {
    var p := u.transactions[i].unshield;
    var total := SumValues(Unshields(u));
    var own := if p.tokenHash in portions then Some(portions[p.tokenHash]) else None;
    assert own == PortionsOf(u, p.tokenHash);
    var fee := FeeFor(own, p, false, total);
    return if fee.None? then None else Some(UnshieldEvent(i, p.tokenHash, p.value - fee.value, fee.value));
  }

  method ReadShield(u: Update, i: nat, cursor: Cursor, portions: FeeMap, ghost start: Cursor)
    returns (r: Option<CommitmentEvent>)
    requires i < |u.shields| && IsFeeMap(portions, u) && cursor == CursorOf(start, u, |u.transactions| + i)
    ensures r.Some? <==> ShieldFee(u, i).Some?
    ensures r.Some? ==> IsShieldEvent(start, u, i, r.value)
  {
    var p := u.shields[i].preimage;
    var total := SumValues(Shielded(u));
    var own := if p.tokenHash in portions then Some(portions[p.tokenHash]) else None;
    assert own == PortionsOf(u, p.tokenHash);
    var fee := FeeFor(own, p, true, total);
    return if fee.None? then None
      else Some(CommitmentEvent(cursor.tree, cursor.index, [u.shields[i].hash], fee.value));
  }

  ghost predicate AreTransactEvents(start: Cursor, u: Update, es: seq<CommitmentEvent>) {
    |es| <= |u.transactions| && forall i | 0 <= i < |es| :: IsTransactEvent(start, u, i, es[i])
  }

  ghost predicate AreTransactions(start: Cursor, u: Update, ts: seq<RailgunTransaction>) {
    |ts| <= |u.transactions|
    && forall i | 0 <= i < |ts| :: ts[i] == TransactionEvent(u.transactions[i], CursorOf(start, u, i))
  }

  ghost predicate AreShieldEvents(start: Cursor, u: Update, es: seq<CommitmentEvent>) {
    |es| <= |u.shields| && forall i | 0 <= i < |es| :: IsShieldEvent(start, u, i, es[i])
  }

  lemma TransactEventsGrow(start: Cursor, u: Update, es: seq<CommitmentEvent>, e: CommitmentEvent)
    requires AreTransactEvents(start, u, es) && |es| < |u.transactions| && IsTransactEvent(start, u, |es|, e)
    ensures AreTransactEvents(start, u, es + [e])
  {
  }

  lemma TransactionsGrow(start: Cursor, u: Update, ts: seq<RailgunTransaction>)
    requires AreTransactions(start, u, ts) && |ts| < |u.transactions|
    ensures AreTransactions(start, u, ts + [TransactionEvent(u.transactions[|ts|], CursorOf(start, u, |ts|))])
  {
  }

  /** One transaction: its commitments, its place, and its unshield if it has one. */
  method ProcessTransaction(u: Update, i: nat, cursor: Cursor, offset: nat, portions: FeeMap, ghost start: Cursor)
    returns (r: Option<(CommitmentEvent, seq<UnshieldEvent>)>)
    requires i < |u.transactions| && IsFeeMap(portions, u) && cursor == CursorOf(start, u, i) && offset == Offset(u, i)
    ensures r.Some? <==> BatchAccepted(u, i)
    ensures r.Some? ==> IsTransactEvent(start, u, i, r.value.0)
    ensures r.Some? ==> UnshieldEvents(u, i + 1) == UnshieldEvents(u, i) + r.value.1
  {
    var batch := ReadBatch(u, i, cursor, offset, start);
    if batch.None? {
      return None;
    }
    if u.transactions[i].unshield.value == 0 {
      return Some((batch.value, []));
    }
    var unshield := ReadUnshield(u, i, portions);
    return if unshield.None? then None else Some((batch.value, [unshield.value]));
  }

  ghost predicate AllAccepted(u: Update, n: nat)
    requires n <= |u.transactions|
  {
    n == 0 || (AllAccepted(u, n - 1) && BatchAccepted(u, n - 1))
  }

  lemma {:induction false} AcceptedEach(u: Update, n: nat, i: nat)
    requires i < n <= |u.transactions| && AllAccepted(u, n)
    ensures BatchAccepted(u, i)
  {
    if i < n - 1 {
      AcceptedEach(u, n - 1, i);
    }
  }

  lemma {:induction false} NotAccepted(u: Update, n: nat, i: nat)
    requires i < n <= |u.transactions| && !BatchAccepted(u, i)
    ensures !AllAccepted(u, n)
  {
    if i < n - 1 {
      NotAccepted(u, n - 1, i);
    }
  }

  method ProcessTransactions(u: Update, start: Cursor, portions: FeeMap) returns (r: Option<Events>, cursor: Cursor)
    requires IsFeeMap(portions, u)
    ensures r.Some? <==> AllAccepted(u, |u.transactions|)
    ensures r.Some? ==>
      && cursor == CursorOf(start, u, |u.transactions|)
      && |r.value.commitments| == |r.value.transactions| == |u.transactions|
      && AreTransactEvents(start, u, r.value.commitments)
      && AreTransactions(start, u, r.value.transactions)
      && r.value.unshields == UnshieldEvents(u, |u.transactions|)
  {
    cursor := start;
    var offset := 0;
    var commitments: seq<CommitmentEvent>, transactions: seq<RailgunTransaction> := [], [];
    var unshields: seq<UnshieldEvent> := [];
    for i := 0 to |u.transactions|
      invariant AllAccepted(u, i)
      invariant cursor == CursorOf(start, u, i) && offset == Offset(u, i)
      invariant |commitments| == i && AreTransactEvents(start, u, commitments)
      invariant |transactions| == i && AreTransactions(start, u, transactions)
      invariant unshields == UnshieldEvents(u, i)
    {
      var read := ProcessTransaction(u, i, cursor, offset, portions, start);
      if read.None? {
        NotAccepted(u, |u.transactions|, i);
        return None, cursor;
      }
      TransactEventsGrow(start, u, commitments, read.value.0);
      TransactionsGrow(start, u, transactions);
      commitments := commitments + [read.value.0];
      transactions := transactions + [TransactionEvent(u.transactions[i], cursor)];
      unshields := unshields + read.value.1;
      CursorStep(start, u, i);
      offset := offset + u.transactions[i].commitmentsCount;
      cursor := Advance(cursor, u.transactions[i].commitmentsCount);
    }
    return Some(Events(commitments, transactions, unshields)), cursor;
  }

  method ProcessShields(u: Update, ghost start: Cursor, after: Cursor, portions: FeeMap)
    returns (r: Option<seq<CommitmentEvent>>)
    requires IsFeeMap(portions, u) && after == CursorOf(start, u, |u.transactions|)
    ensures r.Some? <==> forall i | 0 <= i < |u.shields| :: ShieldFee(u, i).Some?
    ensures r.Some? ==> |r.value| == |u.shields| && AreShieldEvents(start, u, r.value)
  {
    var cursor, n := after, |u.transactions|;
    var events: seq<CommitmentEvent> := [];
    for i := 0 to |u.shields|
      invariant forall k | 0 <= k < i :: ShieldFee(u, k).Some?
      invariant cursor == CursorOf(start, u, n + i)
      invariant |events| == i && AreShieldEvents(start, u, events)
    {
      CursorStep(start, u, n + i);
      var shield := ReadShield(u, i, cursor, portions, start);
      if shield.None? {
        return None;
      }
      events := events + [shield.value];
      cursor := Advance(cursor, 1);
    }
    return Some(events);
  }

  /** Reads all transactions and shields of an update, or nothing when something is missing. */
  method ProcessUpdate(u: Update, start: Cursor) returns (r: Option<Events>)
    ensures r.Some? <==> Accepts(u)
    ensures r.Some? ==>
      var n := |u.transactions|;
      && |r.value.commitments| == n + |u.shields|
      && AreTransactEvents(start, u, r.value.commitments[..n]) && AreShieldEvents(start, u, r.value.commitments[n..])
      && |r.value.transactions| == n && AreTransactions(start, u, r.value.transactions)
      && r.value.unshields == UnshieldEvents(u, n)
  {
    var portions := TreasuryFeeMap(u);
    var read, cursor := ProcessTransactions(u, start, portions);
    if read.None? {
      return None;
    }
    var shields := ProcessShields(u, start, cursor, portions);
    if shields.None? {
      return None;
    }
    Seqs.Parts(read.value.commitments, shields.value);
    return Some(read.value.(commitments := read.value.commitments + shields.value));
  }
}
