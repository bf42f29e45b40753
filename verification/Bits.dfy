/** Exclusive or on unbounded non-negative integers, bit by bit. */
module Bits {
  import P = Positional

  function Bit(r: nat, s: nat): (t: nat)
    ensures t < 2
  {
    if r == s then 0 else 1
  }

  function Xor(a: nat, b: nat): nat
    decreases a + b
  {
    if a == 0 && b == 0 then 0 else 2 * Xor(a / 2, b / 2) + Bit(a % 2, b % 2)
  }

  /** Both halves of the definition, for every pair of arguments. */
  lemma XorParts(a: nat, b: nat)
    ensures Xor(a, b) / 2 == Xor(a / 2, b / 2) && Xor(a, b) % 2 == Bit(a % 2, b % 2)
  {
  }

  lemma {:induction false} XorZero(a: nat)
    ensures Xor(a, 0) == a && Xor(0, a) == a
    decreases a
  {
    if a > 0 {
      XorZero(a / 2);
    }
  }

  lemma {:induction false} XorSelf(a: nat)
    ensures Xor(a, a) == 0
    decreases a
  {
    if a > 0 {
      XorSelf(a / 2);
    }
  }

  lemma {:induction false} XorCommutes(a: nat, b: nat)
    ensures Xor(a, b) == Xor(b, a)
    decreases a + b
  {
    if a > 0 || b > 0 {
      XorCommutes(a / 2, b / 2);
    }
  }

  lemma SameHalves(x: nat, y: nat)
    requires x / 2 == y / 2 && x % 2 == y % 2
    ensures x == y
  {
  }

  lemma BitAssociates(a: nat, b: nat, c: nat)
    requires a < 2 && b < 2 && c < 2
    ensures Bit(Bit(a, b), c) == Bit(a, Bit(b, c))
  {
  }

  lemma PartsOfLeft(a: nat, b: nat, c: nat)
    ensures Xor(Xor(a, b), c) / 2 == Xor(Xor(a / 2, b / 2), c / 2)
    ensures Xor(Xor(a, b), c) % 2 == Bit(Bit(a % 2, b % 2), c % 2)
  {
    XorParts(a, b);
    XorParts(Xor(a, b), c);
  }

  lemma PartsOfRight(a: nat, b: nat, c: nat)
    ensures Xor(a, Xor(b, c)) / 2 == Xor(a / 2, Xor(b / 2, c / 2))
    ensures Xor(a, Xor(b, c)) % 2 == Bit(a % 2, Bit(b % 2, c % 2))
  {
    XorParts(b, c);
    XorParts(a, Xor(b, c));
  }

  lemma {:induction false} XorAssociates(a: nat, b: nat, c: nat)
    ensures Xor(Xor(a, b), c) == Xor(a, Xor(b, c))
    decreases a + b + c
  {
    if a + b + c > 0 {
      XorAssociates(a / 2, b / 2, c / 2);
      PartsOfLeft(a, b, c);
      PartsOfRight(a, b, c);
      BitAssociates(a % 2, b % 2, c % 2);
      SameHalves(Xor(Xor(a, b), c), Xor(a, Xor(b, c)));
    }
  }

  lemma XorCancels(a: nat, b: nat)
    ensures Xor(Xor(a, b), b) == a
    ensures Xor(a, Xor(a, b)) == b
  {
    XorAssociates(a, b, b);
    XorAssociates(a, a, b);
    XorSelf(a);
    XorSelf(b);
    XorZero(a);
    XorZero(b);
  }

  /** Only equal numbers have exclusive or zero. */
  lemma XorDistinguishes(a: nat, b: nat)
    ensures Xor(a, b) == 0 <==> a == b
  {
    XorCancels(a, b);
    XorZero(b);
    XorSelf(a);
  }

  lemma XorPairs(a: nat, b: nat, c: nat, d: nat)
    ensures Xor(Xor(a, b), Xor(c, d)) == Xor(Xor(a, c), Xor(b, d))
  {
    XorAssociates(a, b, Xor(c, d));
    XorAssociates(b, c, d);
    XorCommutes(b, c);
    XorAssociates(c, b, d);
    XorAssociates(a, c, Xor(b, d));
  }

  lemma XorSwap(a: nat, b: nat, c: nat)
    ensures Xor(Xor(a, b), c) == Xor(Xor(a, c), b)
  {
    XorAssociates(a, b, c);
    XorCommutes(b, c);
    XorAssociates(a, c, b);
  }

  /** Dividing by 2^k is halving and then dividing by 2^(k-1). */
  lemma HalfThenShift(a: nat, k: nat)
    requires k > 0
    ensures a / P.Pow(2, k) == (a / 2) / P.Pow(2, k - 1)
    ensures a % P.Pow(2, k) == 2 * ((a / 2) % P.Pow(2, k - 1)) + a % 2
  {
    var p := P.Pow(2, k - 1);
    var q, r := P.Quot(a / 2, p), (a / 2) % p;
    P.MulAssoc(q, p, 2);
    P.DivModUnique(q, 2 * p, 2 * r + a % 2);
  }

  lemma NoShift(a: nat)
    ensures a / P.Pow(2, 0) == a && a % P.Pow(2, 0) == 0
  {
  }

  /** The bits of a number from position k on, and those below it. */
  function High(a: nat, k: nat): (h: nat)
    ensures h == a / P.Pow(2, k)
  {
    P.Quot(a, P.Pow(2, k))
  }

  function Low(a: nat, k: nat): (l: nat)
    ensures l == a % P.Pow(2, k) && l < P.Pow(2, k)
  {
    a % P.Pow(2, k)
  }

  /** Exclusive or acts separately on the bits above and below any position. */
  lemma {:induction false} XorSplits(a: nat, b: nat, k: nat)
    ensures High(Xor(a, b), k) == Xor(High(a, k), High(b, k))
    ensures Low(Xor(a, b), k) == Xor(Low(a, k), Low(b, k))
    decreases k
  {
    if k == 0 {
      SplitAtZero(a, b);
    } else {
      XorSplits(a / 2, b / 2, k - 1);
      SplitStep(a, b, k);
    }
  }

  lemma SplitAtZero(a: nat, b: nat)
    ensures High(Xor(a, b), 0) == Xor(High(a, 0), High(b, 0))
    ensures Low(Xor(a, b), 0) == Xor(Low(a, 0), Low(b, 0))
  {
    NoShift(a);
    NoShift(b);
    NoShift(Xor(a, b));
  }

  lemma SplitStep(a: nat, b: nat, k: nat)
    requires k > 0
    requires High(Xor(a / 2, b / 2), k - 1) == Xor(High(a / 2, k - 1), High(b / 2, k - 1))
    requires Low(Xor(a / 2, b / 2), k - 1) == Xor(Low(a / 2, k - 1), Low(b / 2, k - 1))
    ensures High(Xor(a, b), k) == Xor(High(a, k), High(b, k))
    ensures Low(Xor(a, b), k) == Xor(Low(a, k), Low(b, k))
  {
    XorParts(a, b);
    LowStep(a, k);
    LowStep(b, k);
    LowStep(Xor(a, b), k);
    XorJoins(Low(a / 2, k - 1), a % 2, Low(b / 2, k - 1), b % 2);
  }

  lemma LowStep(a: nat, k: nat)
    requires k > 0
    ensures High(a, k) == High(a / 2, k - 1) && Low(a, k) == 2 * Low(a / 2, k - 1) + a % 2
  {
    HalfThenShift(a, k);
  }

  lemma XorJoins(h: nat, l: nat, h': nat, l': nat)
    requires l < 2 && l' < 2
    ensures Xor(2 * h + l, 2 * h' + l') == 2 * Xor(h, h') + Bit(l, l')
  {
    XorParts(2 * h + l, 2 * h' + l');
  }

  /** Numbers below a power of two are closed under exclusive or. */
  lemma XorBound(a: nat, b: nat, k: nat)
    requires a < P.Pow(2, k) && b < P.Pow(2, k)
    ensures Xor(a, b) < P.Pow(2, k)
  {
    XorSplits(a, b, k);
    P.SmallMod(a, P.Pow(2, k));
    P.SmallMod(b, P.Pow(2, k));
    var q := P.Quot(Xor(a, b), P.Pow(2, k));
    assert q == 0;
    XorZero(0);
  }

  /** When the low bits of one argument are zero, exclusive or with a small number is addition. */
  lemma XorDisjoint(a: nat, b: nat, k: nat)
    requires b < P.Pow(2, k)
    ensures Xor(a * P.Pow(2, k), b) == a * P.Pow(2, k) + b
  {
    var p := P.Pow(2, k);
    XorSplits(a * p, b, k);
    P.DivModUnique(a, p, 0);
    P.SmallMod(b, p);
    XorZero(a);
    XorZero(b);
    var q := P.Quot(Xor(a * p, b), p);
    assert q == a;
  }

  /** Every bit of an exclusive or is the sum of the two bits, modulo two. */
  lemma BitOfXor(a: nat, b: nat, k: nat)
    ensures High(Xor(a, b), k) % 2 == (High(a, k) % 2 + High(b, k) % 2) % 2
  {
    XorSplits(a, b, k);
    LowestBit(High(a, k), High(b, k));
  }

  lemma LowestBit(a: nat, b: nat)
    ensures Xor(a, b) % 2 == (a % 2 + b % 2) % 2
  {
    XorParts(a, b);
    BitIsSum(a % 2, b % 2);
  }

  lemma BitIsSum(r: nat, s: nat)
    requires r < 2 && s < 2
    ensures Bit(r, s) == (r + s) % 2
  {
  }
}
