/** Positional notation in an arbitrary base, most significant digit first.

    Four parts of the program write numbers this way: hexadecimal text (base 16), decimal
    text and zero-padded store keys (base 10), wallet sources (base 37), and the regrouping
    of an address payload into 5-bit words (base 2). */
module Positional {

  function Pow(b: nat, k: nat): (p: nat)
    ensures b > 0 ==> p > 0
  {
    if k == 0 then 1 else b * Pow(b, k - 1)
  }

  /** Division with the facts about it that a symbolic base hides from the solver. */
  function Quot(n: nat, b: nat): (q: nat)
    requires b > 0
    ensures n == q * b + n % b
    ensures b > 1 && n > 0 ==> q < n
    ensures n > 0 && q == 0 ==> n % b == n
  {
    QuotFacts(n, b);
    n / b
  }

  lemma QuotFacts(n: nat, b: nat)
    requires b > 0
    ensures n / b >= 0 && n == (n / b) * b + n % b
    ensures b > 1 && n > 0 ==> n / b < n
  {
    ProductGrows(n / b, b);
  }

  lemma ProductGrows(q: int, b: nat)
    requires b > 0
    ensures q < 0 ==> q * b <= q
    ensures q > 0 && b > 1 ==> q * b > q
  {
  }

  predicate AreDigits(ds: seq<nat>, b: nat) {
    forall i | 0 <= i < |ds| :: ds[i] < b
  }

  lemma DigitsOfSlice(ds: seq<nat>, b: nat, i: nat, j: nat)
    requires AreDigits(ds, b) && i <= j <= |ds|
    ensures AreDigits(ds[i..j], b)
  {
  }

  /** The number that a digit string denotes. */
  function Value(ds: seq<nat>, b: nat): nat {
    if ds == [] then 0 else Value(ds[..|ds| - 1], b) * b + ds[|ds| - 1]
  }

  /** The k lowest digits of n. */
  function Fixed(n: nat, b: nat, k: nat): (ds: seq<nat>)
    requires b > 0
    ensures |ds| == k && AreDigits(ds, b)
  {
    if k == 0 then [] else Fixed(Quot(n, b), b, k - 1) + [n % b]
  }

  /** The digits of n without leading zeros; nothing for 0. */
  function Minimal(n: nat, b: nat): (ds: seq<nat>)
    requires b > 1
    ensures AreDigits(ds, b)
    ensures ds == [] <==> n == 0
    ensures ds != [] ==> ds[0] != 0
  {
    if n == 0 then [] else Minimal(Quot(n, b), b) + [n % b]
  }

  function Zeros(k: nat): (ds: seq<nat>)
    ensures |ds| == k && forall i | 0 <= i < k :: ds[i] == 0
  {
    seq(k, _ => 0)
  }

  function TrimZeros(ds: seq<nat>): (r: seq<nat>)
    ensures |r| <= |ds| && ds == Zeros(|ds| - |r|) + r
    ensures r != [] ==> r[0] != 0
  {
    if ds == [] || ds[0] != 0 then ds else TrimZeros(ds[1..])
  }

  lemma MulAssoc(x: int, y: int, z: int)
    ensures x * (y * z) == (x * y) * z
  {
  }

  lemma {:induction false} PowAdd(b: nat, j: nat, k: nat)
    ensures Pow(b, j + k) == Pow(b, j) * Pow(b, k)
  {
    if j > 0 {
      PowAdd(b, j - 1, k);
      MulAssoc(b, Pow(b, j - 1), Pow(b, k));
    }
  }

  lemma {:induction false} PowMonotone(b: nat, j: nat, k: nat)
    requires b > 0 && j <= k
    ensures Pow(b, j) <= Pow(b, k)
  {
    if j < k {
      PowMonotone(b, j, k - 1);
      MulGrows(Pow(b, k - 1), b);
    }
  }

  lemma MulGrows(x: nat, b: nat)
    requires b > 0
    ensures x <= b * x
  {
  }

  lemma {:induction false} ValueBound(ds: seq<nat>, b: nat)
    requires b > 0 && AreDigits(ds, b)
    ensures Value(ds, b) < Pow(b, |ds|)
  {
    if ds != [] {
      var front, v := ds[..|ds| - 1], Value(ds[..|ds| - 1], b);
      ValueBound(front, b);
      MulAtMost(v, Pow(b, |front|), b);
    }
  }

  lemma MulAtMost(v: nat, p: nat, b: nat)
    requires v < p
    ensures v * b + b <= b * p
  {
    assert (v + 1) * b <= p * b;
  }

  /** The number denoted by a digit string with one more digit. */
  lemma ValueSnoc(front: seq<nat>, last: nat, b: nat)
    ensures Value(front + [last], b) == Value(front, b) * b + last
  {
    assert (front + [last])[..|front|] == front;
  }

  /** The lowest digits of a number with one more digit. */
  lemma FixedSnoc(v: nat, last: nat, b: nat, k: nat)
    requires last < b
    ensures Fixed(v * b + last, b, k + 1) == Fixed(v, b, k) + [last]
  {
    DivModUnique(v, b, last);
  }

  lemma Regroup(v: nat, p: nat, f: nat, b: nat, last: nat)
    ensures (v * p + f) * b + last == v * (b * p) + (f * b + last)
  {
    MulAssoc(v, p, b);
  }

  lemma {:induction false} ValueConcat(a: seq<nat>, c: seq<nat>, b: nat)
    ensures Value(a + c, b) == Value(a, b) * Pow(b, |c|) + Value(c, b)
  {
    if c == [] {
      assert a + c == a;
    } else {
      var front, last := c[..|c| - 1], c[|c| - 1];
      ValueConcat(a, front, b);
      assert a + c == (a + front) + [last];
      ValueSnoc(a + front, last, b);
      Regroup(Value(a, b), Pow(b, |front|), Value(front, b), b, last);
    }
  }

  lemma {:induction false} FixedOfValue(ds: seq<nat>, b: nat)
    requires b > 0 && AreDigits(ds, b)
    ensures Fixed(Value(ds, b), b, |ds|) == ds
  {
    if ds != [] {
      var front, last := ds[..|ds| - 1], ds[|ds| - 1];
      FixedOfValue(front, b);
      FixedSnoc(Value(front, b), last, b, |front|);
    }
  }

  lemma DivModUnique(q: nat, b: nat, r: nat)
    requires r < b
    ensures (q * b + r) / b == q && (q * b + r) % b == r
  {
    var x := q * b + r;
    assert x == (x / b) * b + x % b;
    var d := x / b - q;
    assert d * b == r - x % b;
    assert 0 - b < d * b < b;
    SmallMultiple(d, b);
  }

  lemma SmallMultiple(d: int, b: nat)
    requires 0 - b < d * b < b
    ensures d == 0
  {
  }

  lemma {:induction false} ValueOfFixed(n: nat, b: nat, k: nat)
    requires b > 0
    ensures Value(Fixed(n, b, k), b) == n % Pow(b, k)
  {
    if k > 0 {
      ValueOfFixed(Quot(n, b), b, k - 1);
      ValueSnoc(Fixed(Quot(n, b), b, k - 1), n % b, b);
      ModStep(n, b, Pow(b, k - 1));
    }
  }

  lemma ModStep(n: nat, b: nat, p: nat)
    requires b > 0 && p > 0
    ensures b * p > 0 && n % (b * p) == Quot(n, b) % p * b + n % b
  {
    var q, r := Quot(n, b), n % b;
    var q', r' := Quot(q, p), q % p;
    Regroup(q', p, r', b, r);
    MulAtMost(r', p, b);
    DivModUnique(q', b * p, r' * b + r);
  }

  lemma {:induction false} ValueOfMinimal(n: nat, b: nat)
    requires b > 1
    ensures Value(Minimal(n, b), b) == n
  {
    if n > 0 {
      ValueOfMinimal(Quot(n, b), b);
      ValueSnoc(Minimal(Quot(n, b), b), n % b, b);
    }
  }

  lemma MinimalSnoc(v: nat, last: nat, b: nat)
    requires b > 1 && last < b && v * b + last > 0
    ensures Minimal(v * b + last, b) == Minimal(v, b) + [last]
  {
    DivModUnique(v, b, last);
  }

  lemma {:induction false} MinimalOfValue(ds: seq<nat>, b: nat)
    requires b > 1 && AreDigits(ds, b)
    requires ds != [] ==> ds[0] != 0
    ensures Minimal(Value(ds, b), b) == ds
  {
    if ds != [] {
      var front, last := ds[..|ds| - 1], ds[|ds| - 1];
      if front != [] {
        assert front[0] == ds[0];
      }
      MinimalOfValue(front, b);
      PositiveTop(Value(front, b), last, b, front == []);
      MinimalSnoc(Value(front, b), last, b);
    }
  }

  lemma PositiveTop(v: nat, last: nat, b: nat, single: bool)
    requires b > 1 && if single then last > 0 else v > 0
    ensures v * b + last > 0
  {
  }

  lemma ValueOfZeros(k: nat, b: nat)
    ensures Value(Zeros(k), b) == 0
  {
    if k > 0 {
      ValueOfZeros(k - 1, b);
      assert Zeros(k)[..k - 1] == Zeros(k - 1);
    }
  }

  /** Reading a digit string and writing it back loses the leading zeros and nothing else. */
  lemma {:induction false} MinimalTrims(ds: seq<nat>, b: nat)
    requires b > 1 && AreDigits(ds, b)
    ensures Minimal(Value(ds, b), b) == TrimZeros(ds)
  {
    var r := TrimZeros(ds);
    var zs := Zeros(|ds| - |r|);
    assert AreDigits(r, b) by {
      forall i | 0 <= i < |r| ensures r[i] < b {
        assert r[i] == ds[|zs| + i];
      }
    }
    LeadingZerosVanish(|zs|, r, b);
    MinimalOfValue(r, b);
  }

  lemma LeadingZerosVanish(k: nat, ds: seq<nat>, b: nat)
    ensures Value(Zeros(k) + ds, b) == Value(ds, b)
  {
    ValueConcat(Zeros(k), ds, b);
    ValueOfZeros(k, b);
  }

  /** Zero padding: the k lowest digits of a number below b^k are its digits behind zeros. */
  lemma {:induction false} FixedPads(n: nat, b: nat, k: nat)
    requires b > 1 && n < Pow(b, k)
    ensures |Minimal(n, b)| <= k
    ensures Fixed(n, b, k) == Zeros(k - |Minimal(n, b)|) + Minimal(n, b)
  {
    var ds := Fixed(n, b, k);
    assert Value(ds, b) == n by {
      ValueOfFixed(n, b, k);
      SmallMod(n, Pow(b, k));
    }
    MinimalTrims(ds, b);
  }

  /** The k lowest digits of a longer number are the end of its digit string. */
  lemma {:induction false} FixedIsSuffix(ds: seq<nat>, b: nat, k: nat)
    requires b > 0 && AreDigits(ds, b) && k <= |ds|
    ensures Fixed(Value(ds, b), b, k) == ds[|ds| - k..]
  {
    if k > 0 {
      var front, last := ds[..|ds| - 1], ds[|ds| - 1];
      FixedIsSuffix(front, b, k - 1);
      FixedSnoc(Value(front, b), last, b, k - 1);
      assert ds[|ds| - k..] == front[|front| - (k - 1)..] + [last];
    }
  }

  lemma SmallMod(n: nat, m: nat)
    requires n < m
    ensures n % m == n && n / m == 0
  {
    DivModUnique(0, m, n);
  }
}
