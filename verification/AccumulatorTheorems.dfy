/** What reading a V3 accumulator update guarantees: places without gaps and fees within the
    treasury fee. */
module AccumulatorTheorems {
  import opened Wrappers
  import opened Accumulator
  import Seqs

  // ----- Places

  /** Batch i ends before, or at, the end of the tree in which it starts. */
  predicate BatchFits(start: Cursor, counts: seq<nat>, i: nat)
    requires i < |counts|
  {
    CursorAfter(start, counts[..i]).index + counts[i] <= TREE_MAX_ITEMS
  }

  /** Commitment j of batch i. */
  function PlaceOf(start: Cursor, counts: seq<nat>, i: nat, j: nat): Cursor
    requires i < |counts| && j < counts[i]
  {
    var c := CursorAfter(start, counts[..i]);
    Cursor(c.tree, c.index + j)
  }

  lemma {:induction false} CursorInTree(start: Cursor, counts: seq<nat>)
    requires start.index < TREE_MAX_ITEMS
    ensures CursorAfter(start, counts).index < TREE_MAX_ITEMS
  {
    if counts != [] {
      CursorInTree(start, counts[..|counts| - 1]);
    }
  }

  lemma {:induction false} CursorIsGlobal(start: Cursor, counts: seq<nat>, i: nat)
    requires start.index < TREE_MAX_ITEMS && i <= |counts| && forall k | 0 <= k < i :: BatchFits(start, counts, k)
    ensures CursorAfter(start, counts[..i]).Global() == start.Global() + Sum(counts[..i])
  {
    if i > 0 {
      CursorIsGlobal(start, counts, i - 1);
      assert counts[..i][..i - 1] == counts[..i - 1];
      assert BatchFits(start, counts, i - 1);
    }
  }

  /** Every commitment of the batches has a place within a tree exactly when no batch crosses the
      end of one. */
  lemma InTreesIff(start: Cursor, counts: seq<nat>)
    requires start.index < TREE_MAX_ITEMS
    ensures (forall i, j | 0 <= i < |counts| && 0 <= j < counts[i] ::
               PlaceOf(start, counts, i, j).index < TREE_MAX_ITEMS)
       <==> (forall i | 0 <= i < |counts| :: BatchFits(start, counts, i))
  {
    if forall i, j | 0 <= i < |counts| && 0 <= j < counts[i] :: PlaceOf(start, counts, i, j).index < TREE_MAX_ITEMS {
      forall i | 0 <= i < |counts| ensures BatchFits(start, counts, i) {
        CursorInTree(start, counts[..i]);
        if counts[i] > 0 {
          assert PlaceOf(start, counts, i, counts[i] - 1).index < TREE_MAX_ITEMS;
        }
      }
    }
    if forall i | 0 <= i < |counts| :: BatchFits(start, counts, i) {
      forall i, j | 0 <= i < |counts| && 0 <= j < counts[i]
        ensures PlaceOf(start, counts, i, j).index < TREE_MAX_ITEMS
      {
        assert BatchFits(start, counts, i);
      }
    }
  }

  /** Then the commitments have consecutive global positions from the start on. */
  lemma PlacesAreConsecutive(start: Cursor, counts: seq<nat>, i: nat, j: nat)
    requires start.index < TREE_MAX_ITEMS && i < |counts| && j < counts[i]
    requires forall k | 0 <= k < |counts| :: BatchFits(start, counts, k)
    ensures PlaceOf(start, counts, i, j).Global() == start.Global() + Sum(counts[..i]) + j
  {
    CursorIsGlobal(start, counts, i);
  }

  lemma AdvanceIsGlobal(c: Cursor, count: nat)
    requires c.index < TREE_MAX_ITEMS
    ensures Advance(c, count).Global() <= c.Global() + count
    ensures Advance(c, count).Global() == c.Global() + count <==> c.index + count <= TREE_MAX_ITEMS
  {
  }

  /** The cursor falls behind the number of commitments exactly when a batch crosses the end of a tree. */
  lemma {:induction false} BehindIffCrossed(start: Cursor, counts: seq<nat>, i: nat)
    requires start.index < TREE_MAX_ITEMS && i <= |counts|
    ensures CursorAfter(start, counts[..i]).Global() <= start.Global() + Sum(counts[..i])
    ensures CursorAfter(start, counts[..i]).Global() == start.Global() + Sum(counts[..i])
       <==> forall k | 0 <= k < i :: BatchFits(start, counts, k)
  {
    if i > 0 {
      BehindIffCrossed(start, counts, i - 1);
      CursorInTree(start, counts[..i - 1]);
      assert counts[..i][..i - 1] == counts[..i - 1];
      AdvanceIsGlobal(CursorAfter(start, counts[..i - 1]), counts[i - 1]);
      assert BatchFits(start, counts, i - 1)
        <==> CursorAfter(start, counts[..i - 1]).index + counts[i - 1] <= TREE_MAX_ITEMS;
    }
  }

  /** Every commitment has the global position that follows the one before it. */
  ghost predicate Consecutive(start: Cursor, counts: seq<nat>) {
    forall i, j | 0 <= i < |counts| && 0 <= j < counts[i] ::
      PlaceOf(start, counts, i, j).Global() == start.Global() + Sum(counts[..i]) + j
  }

  /** A batch that crosses the end of a tree breaks the row of positions exactly when another
      commitment follows it. */
  lemma ConsecutiveIff(start: Cursor, counts: seq<nat>)
    requires start.index < TREE_MAX_ITEMS
    ensures Consecutive(start, counts)
       <==> forall k, i | 0 <= k < i < |counts| && !BatchFits(start, counts, k) :: counts[i] == 0
  {
    forall i | 0 <= i < |counts|
      ensures CursorAfter(start, counts[..i]).Global() == start.Global() + Sum(counts[..i])
         <==> forall k | 0 <= k < i :: BatchFits(start, counts, k)
    {
      BehindIffCrossed(start, counts, i);
    }
    if Consecutive(start, counts) {
      forall k, i | 0 <= k < i < |counts| && !BatchFits(start, counts, k) ensures counts[i] == 0 {
        if counts[i] > 0 {
          assert PlaceOf(start, counts, i, 0).Global() == start.Global() + Sum(counts[..i]);
        }
      }
    }
  }

  /** The commitments that the first n transactions take, one after the other. */
  function Taken(u: Update, n: nat): seq<string>
    requires n <= |u.transactions| && Offset(u, n) <= |u.commitments|
  {
    if n == 0 then []
    else
      CursorStep(Cursor(0, 0), u, n - 1);
      Taken(u, n - 1) + u.commitments[Offset(u, n - 1)..Offset(u, n)]
  }

  /** Together they are the first commitments of the update. */
  lemma {:induction false} TakenIsPrefix(u: Update, n: nat)
    requires n <= |u.transactions| && Offset(u, n) <= |u.commitments|
    ensures Taken(u, n) == u.commitments[..Offset(u, n)]
  {
    if n > 0 {
      CursorStep(Cursor(0, 0), u, n - 1);
      TakenIsPrefix(u, n - 1);
    }
  }

  // ----- Fees

  /** What the unshield events attribute to a token. */
  function UnshieldFees(events: seq<UnshieldEvent>, token: string): nat {
    if events == [] then 0
    else
      var last := events[|events| - 1];
      UnshieldFees(events[..|events| - 1], token) + if last.tokenHash == token then last.fee else 0
  }

  /** What the first n shields attribute to a token. */
  function ShieldFees(u: Update, n: nat, token: string): nat
    requires n <= |u.shields|
  {
    if n == 0 then 0 else ShieldFees(u, n - 1, token) + OneShieldFee(u, n - 1, token)
  }

  function OneShieldFee(u: Update, n: nat, token: string): nat
    requires n < |u.shields|
  {
    if u.shields[n].preimage.tokenHash == token && ShieldFee(u, n).Some? then ShieldFee(u, n).value else 0
  }

  lemma {:induction false} TotalOfPrefix(ps: seq<Preimage>, n: nat)
    requires n <= |ps|
    ensures TotalValue(ps[..n]) <= TotalValue(ps)
    decreases |ps| - n
  {
    if n < |ps| {
      assert ps[..n + 1][..n] == ps[..n];
      TotalOfPrefix(ps, n + 1);
    } else {
      Seqs.Whole(ps);
    }
  }

  lemma TotalNext(ps: seq<Preimage>, n: nat)
    requires n < |ps|
    ensures TotalValue(ps[..n + 1]) == TotalValue(ps[..n]) + ps[n].value
  {
    assert ps[..n + 1][..n] == ps[..n];
  }

  lemma DivTimes(x: nat, d: nat)
    requires d > 0
    ensures d * (x / d) <= x
  {
  }

  /** A share, in units of the whole, is at most its value in units of the portion. */
  lemma ShareBound(portions: Option<Portions>, portion: nat, p: Preimage, isShield: bool, total: nat)
    requires portions.Some? ==> portion == if isShield then portions.value.shield else portions.value.unshield
    requires FeeFor(portions, p, isShield, total).Some?
    ensures total * FeeFor(portions, p, isShield, total).value <= portion * p.value
  {
    if p.isERC20 && total > 0 {
      DivTimes(portion * p.value, total);
    }
  }

  lemma Distribute(total: nat, a: nat, b: nat, portion: nat, v: nat, w: nat)
    requires total * a <= portion * v && total * b <= portion * w
    ensures total * (a + b) <= portion * (v + w)
  {
  }

  lemma BoundStep(total: nat, portion: nat, before: nat, fee: nat, after: nat, v: nat, w: nat, sum: nat)
    requires total * before <= portion * v && total * fee <= portion * w && after == before + fee && sum == v + w
    ensures total * after <= portion * sum
  {
    Distribute(total, before, fee, portion, v, w);
  }

  /** The portion of a token that goes to one side; nothing when no fee is listed for it. */
  function PortionOf(u: Update, token: string, isShield: bool): nat {
    var p := PortionsOf(u, token);
    if p.None? then 0 else if isShield then p.value.shield else p.value.unshield
  }

  lemma UnshieldShareBound(u: Update, n: nat, token: string)
    requires n < |u.transactions| && u.transactions[n].unshield.tokenHash == token && UnshieldFee(u, n).Some?
    ensures TotalValue(Unshields(u)) * UnshieldFee(u, n).value
         <= PortionOf(u, token, false) * u.transactions[n].unshield.value
  {
    ShareBound(PortionsOf(u, token), PortionOf(u, token, false), u.transactions[n].unshield, false,
        TotalValue(Unshields(u)));
  }

  lemma ShieldShareBound(u: Update, n: nat, token: string)
    requires n < |u.shields| && u.shields[n].preimage.tokenHash == token && ShieldFee(u, n).Some?
    ensures TotalValue(Shielded(u)) * ShieldFee(u, n).value <= PortionOf(u, token, true) * u.shields[n].preimage.value
  {
    ShareBound(PortionsOf(u, token), PortionOf(u, token, true), u.shields[n].preimage, true, TotalValue(Shielded(u)));
  }

  /** What the first n transactions attribute to a token. */
  function TransactionFees(u: Update, n: nat, token: string): nat
    requires n <= |u.transactions|
  {
    if n == 0 then 0 else TransactionFees(u, n - 1, token) + TransactionFee(u, n - 1, token)
  }

  function TransactionFee(u: Update, n: nat, token: string): nat
    requires n < |u.transactions|
  {
    var p := u.transactions[n].unshield;
    if p.value > 0 && p.tokenHash == token && UnshieldFee(u, n).Some? then UnshieldFee(u, n).value else 0
  }

  lemma {:induction false} FeesOfEvents(u: Update, n: nat, token: string)
    requires n <= |u.transactions|
    ensures UnshieldFees(UnshieldEvents(u, n), token) == TransactionFees(u, n, token)
  {
    if n > 0 {
      FeesOfEvents(u, n - 1, token);
      var before, after := UnshieldEvents(u, n - 1), UnshieldEvents(u, n);
      if after != before {
        assert after[..|after| - 1] == before;
      }
    }
  }

  lemma NoFeeIsBounded(total: nat, portion: nat, v: nat)
    ensures total * 0 <= portion * v
  {
  }

  lemma TransactionFeeBound(u: Update, n: nat, token: string)
    requires n < |u.transactions|
    ensures TotalValue(Unshields(u)) * TransactionFee(u, n, token)
         <= PortionOf(u, token, false) * u.transactions[n].unshield.value
    ensures u.transactions[n].unshield.value == 0 ==> TransactionFee(u, n, token) == 0
  {
    if TransactionFee(u, n, token) > 0 {
      UnshieldShareBound(u, n, token);
    } else {
      NoFeeIsBounded(TotalValue(Unshields(u)), PortionOf(u, token, false), u.transactions[n].unshield.value);
    }
  }

  lemma {:induction false} UnshieldFeesBound(u: Update, n: nat, token: string, total: nat, portion: nat)
    requires n <= |u.transactions| && total == TotalValue(Unshields(u)) && portion == PortionOf(u, token, false)
    ensures total * TransactionFees(u, n, token) <= portion * TotalValue(Unshields(u)[..n])
  {
    if n > 0 {
      UnshieldFeesBound(u, n - 1, token, total, portion);
      TransactionFeeBound(u, n - 1, token);
      TotalNext(Unshields(u), n - 1);
      BoundStep(total, portion, TransactionFees(u, n - 1, token), TransactionFee(u, n - 1, token),
                TransactionFees(u, n, token),
                TotalValue(Unshields(u)[..n - 1]), u.transactions[n - 1].unshield.value, TotalValue(Unshields(u)[..n]));
    }
  }

  lemma OneShieldFeeBound(u: Update, n: nat, token: string)
    requires n < |u.shields|
    ensures TotalValue(Shielded(u)) * OneShieldFee(u, n, token)
         <= PortionOf(u, token, true) * u.shields[n].preimage.value
  {
    if OneShieldFee(u, n, token) > 0 {
      ShieldShareBound(u, n, token);
    } else {
      NoFeeIsBounded(TotalValue(Shielded(u)), PortionOf(u, token, true), u.shields[n].preimage.value);
    }
  }

  lemma {:induction false} ShieldFeesBound(u: Update, n: nat, token: string, total: nat, portion: nat)
    requires n <= |u.shields| && total == TotalValue(Shielded(u)) && portion == PortionOf(u, token, true)
    ensures total * ShieldFees(u, n, token) <= portion * TotalValue(Shielded(u)[..n])
  {
    if n > 0 {
      ShieldFeesBound(u, n - 1, token, total, portion);
      OneShieldFeeBound(u, n - 1, token);
      TotalNext(Shielded(u), n - 1);
      BoundStep(total, portion, ShieldFees(u, n - 1, token), OneShieldFee(u, n - 1, token), ShieldFees(u, n, token),
                TotalValue(Shielded(u)[..n - 1]), u.shields[n - 1].preimage.value, TotalValue(Shielded(u)[..n]));
    }
  }

  lemma CancelTotal(total: nat, fees: nat, portion: nat, part: nat)
    requires total * fees <= portion * part && part <= total && total > 0
    ensures fees <= portion
  {
    assert portion * part <= portion * total;
    assert total * (fees - portion) <= 0;
    NotPositive(total, fees - portion);
  }

  lemma {:induction false} NothingAtZero(u: Update, n: nat, token: string)
    requires n <= |u.shields| && TotalValue(Shielded(u)) == 0
    ensures ShieldFees(u, n, token) == 0
  {
    if n > 0 {
      NothingAtZero(u, n - 1, token);
    }
  }

  lemma {:induction false} NoUnshieldAtZero(u: Update, n: nat, token: string)
    requires n <= |u.transactions| && TotalValue(Unshields(u)) == 0
    ensures TransactionFees(u, n, token) == 0
  {
    if n > 0 {
      NoUnshieldAtZero(u, n - 1, token);
      TransactionFeeBound(u, n - 1, token);
      TotalNext(Unshields(u), n - 1);
      TotalOfPrefix(Unshields(u), n);
    }
  }

  /** Whatever the rounding and whatever other tokens there are, the fees that the unshields and
      the shields of one update attribute to a token never exceed the treasury fee that is
      listed for it, and each side keeps to its own portion. */
  lemma FeesWithinTreasuryFee(u: Update, token: string)
    ensures var unshields := UnshieldFees(UnshieldEvents(u, |u.transactions|), token);
            var shields, fee := ShieldFees(u, |u.shields|, token), FeeOf(u.treasuryFees, token);
            && unshields <= PortionOf(u, token, false) && shields <= PortionOf(u, token, true)
            && unshields + shields <= (if fee.Some? then fee.value else 0)
  {
    FeesOfEvents(u, |u.transactions|, token);
    UnshieldFeesBound(u, |u.transactions|, token, TotalValue(Unshields(u)), PortionOf(u, token, false));
    ShieldFeesBound(u, |u.shields|, token, TotalValue(Shielded(u)), PortionOf(u, token, true));
    Seqs.Whole(Unshields(u));
    Seqs.Whole(Shielded(u));
    var a, b := TotalValue(Unshields(u)), TotalValue(Shielded(u));
    if a > 0 {
      CancelTotal(a, TransactionFees(u, |u.transactions|, token), PortionOf(u, token, false), a);
    } else {
      NoUnshieldAtZero(u, |u.transactions|, token);
    }
    if b > 0 {
      CancelTotal(b, ShieldFees(u, |u.shields|, token), PortionOf(u, token, true), b);
    } else {
      NothingAtZero(u, |u.shields|, token);
    }
  }

  // ----- Fees of single events

  /** A fee is the share of its preimage in the portion, rounded down, in terms of the value of all tokens. */
  lemma FeeIsShare(portions: Option<Portions>, p: Preimage, isShield: bool, total: nat)
    requires p.isERC20 && total > 0 && portions.Some? && FeeFor(portions, p, isShield, total).Some?
    ensures var portion := if isShield then portions.value.shield else portions.value.unshield;
            IsQuotient(FeeFor(portions, p, isShield, total).value, portion * p.value, total)
  {
    var portion := if isShield then portions.value.shield else portions.value.unshield;
    QuotientOfDiv(portion * p.value, total);
  }

  lemma WholeShare(portion: nat, value: nat)
    requires value > 0
    ensures portion * value / value == portion
  {
    QuotientOfDiv(portion * value, value);
    SameQuotient(portion * value / value, portion, portion * value, value);
  }

  lemma SameQuotient(p: nat, q: nat, x: nat, d: nat)
    requires d > 0 && IsQuotient(p, x, d) && x == q * d
    ensures p == q
  {
    if p < q {
      NextTimes(p, q, d);
    } else if p > q {
      NextTimes(q, p, d);
    }
  }

  lemma NextTimes(a: nat, b: nat, d: nat)
    requires a < b
    ensures (a + 1) * d <= b * d
  {
  }

  /** One transaction that unshields a token and one shield of it, with one fee listed. */
  ghost predicate IsSinglePair(u: Update, token: string, v: nat, w: nat, fee: nat) {
    && |u.transactions| == |u.shields| == |u.treasuryFees| == 1 && v > 0 && w > 0
    && u.transactions[0].unshield == Preimage(true, token, v) && u.shields[0].preimage == Preimage(true, token, w)
    && u.treasuryFees[0] == TreasuryFee(token, fee)
  }

  /** Then the unshield bears the portion of the unshields and the shield that of the shields, the amount that arrives
      is the value less its fee, and the two fees are the fair split of the fee by the two values. */
  lemma SinglePairBearsPortions(start: Cursor, u: Update, token: string, v: nat, w: nat, fee: nat, e: CommitmentEvent)
    requires IsSinglePair(u, token, v, w, fee) && Accepts(u) && IsShieldEvent(start, u, 0, e)
    ensures exists p: Portions ::
              && IsFairSplit(p, fee, v, w) && e.fee == p.shield
              && UnshieldEvents(u, 1) == [UnshieldEvent(0, token, v - p.unshield, p.unshield)]
  {
    var p := Split(fee, v, w);
    SplitIsFair(fee, v, w);
    SinglePairIsSplit(u, token, v, w, fee);
    WholeShare(p.unshield, v);
    WholeShare(p.shield, w);
    AcceptedEach(u, 1, 0);
    SingleTotals(u, token, v, w, fee);
    OneUnshieldEvent(u, token, v, p.unshield);
  }

  lemma SinglePairIsSplit(u: Update, token: string, v: nat, w: nat, fee: nat)
    requires IsSinglePair(u, token, v, w, fee)
    ensures PortionsOf(u, token) == Some(Split(fee, v, w))
  {
    assert u.treasuryFees[..0] == [];
  }

  lemma SingleTotals(u: Update, token: string, v: nat, w: nat, fee: nat)
    requires IsSinglePair(u, token, v, w, fee)
    ensures TotalValue(Unshields(u)) == v && TotalValue(Shielded(u)) == w
  {
    assert Unshields(u)[..0] == [] && Shielded(u)[..0] == [];
  }

  lemma OneUnshieldEvent(u: Update, token: string, v: nat, f: nat)
    requires |u.transactions| == 1 && u.transactions[0].unshield == Preimage(true, token, v) && v > 0
    requires UnshieldFee(u, 0) == Some(f)
    ensures UnshieldEvents(u, 1) == [UnshieldEvent(0, token, v - f, f)]
  {
    assert UnshieldEvents(u, 0) == [];
  }
}
