/** The order of byte-string keys, ranges of keys with a common prefix, and numbers in keys
    (pebblePrefixUpperBound and the key encoders in pkg/utxotree/pebble_store.go). */
module KeyOrder {
  import opened Wrappers
  import P = Positional
  import Hex
  import Seqs

  type Key = seq<nat>

  predicate AllBytes(k: Key) {
    forall i | 0 <= i < |k| :: k[i] < 256
  }

  /** The lexicographic order of the store. */
  predicate Less(a: Key, b: Key) {
    if b == [] then false
    else if a == [] then true
    else a[0] < b[0] || (a[0] == b[0] && Less(a[1..], b[1..]))
  }

  // ----- Prefix ranges

  /** What the upper bound of a prefix is: its last byte below 0xff counted up and the rest cut
      off, or none when there is no such byte. */
  ghost predicate IsUpperBound(prefix: Key, upper: Option<Key>) {
    match upper
    case None => forall i | 0 <= i < |prefix| :: prefix[i] == 255
    case Some(u) => exists i :: CountedUp(prefix, u, i)
  }

  ghost predicate CountedUp(prefix: Key, upper: Key, i: nat) {
    && i < |prefix| && prefix[i] < 255 && upper == prefix[..i] + [prefix[i] + 1]
    && forall j | i < j < |prefix| :: prefix[j] == 255
  }

  method PrefixUpperBound(prefix: Key) returns (upper: Option<Key>)
    requires AllBytes(prefix)
    ensures IsUpperBound(prefix, upper)
    ensures upper.Some? ==> AllBytes(upper.value)
  {
    var i := |prefix|;
    while i > 0
      invariant 0 <= i <= |prefix| && forall j | i <= j < |prefix| :: prefix[j] == 255
    {
      i := i - 1;
      if prefix[i] != 255 {
        assert CountedUp(prefix, prefix[..i] + [prefix[i] + 1], i);
        return Some(prefix[..i] + [prefix[i] + 1]);
      }
    }
    return None;
  }

  predicate InRange(k: Key, lower: Key, upper: Option<Key>) {
    !Less(k, lower) && (upper.Some? ==> Less(k, upper.value))
  }

  lemma {:induction false} PrefixIsLeast(prefix: Key, k: Key)
    requires prefix <= k
    ensures !Less(k, prefix)
  {
    if prefix != [] {
      PrefixIsLeast(prefix[1..], k[1..]);
    }
  }

  lemma {:induction false} NotLessThanTop(prefix: Key, k: Key)
    requires AllBytes(k) && forall i | 0 <= i < |prefix| :: prefix[i] == 255
    ensures !Less(k, prefix) <==> prefix <= k
  {
    if prefix != [] && k != [] {
      NotLessThanTop(prefix[1..], k[1..]);
      ConsPrefix(prefix, k);
    }
  }

  lemma ConsPrefix(prefix: Key, k: Key)
    requires prefix != [] && k != []
    ensures prefix <= k <==> prefix[0] == k[0] && prefix[1..] <= k[1..]
  {
    if prefix[0] == k[0] && prefix[1..] <= k[1..] {
      assert prefix == [prefix[0]] + prefix[1..];
      assert k == [k[0]] + k[1..];
    }
  }

  lemma {:induction false} CountedUpRange(prefix: Key, upper: Key, i: nat, k: Key)
    requires CountedUp(prefix, upper, i) && AllBytes(k)
    ensures !Less(k, prefix) && Less(k, upper) <==> prefix <= k
  {
    if k != [] {
      ConsPrefix(prefix, k);
      if i == 0 {
        LessThanNext(prefix, k);
      } else {
        assert upper[1..] == prefix[1..][..i - 1] + [prefix[1..][i - 1] + 1];
        CountedUpRange(prefix[1..], upper[1..], i - 1, k[1..]);
      }
    }
  }

  lemma LessThanNext(prefix: Key, k: Key)
    requires prefix != [] && k != [] && AllBytes(k) && forall j | 0 < j < |prefix| :: prefix[j] == 255
    ensures !Less(k, prefix) && k[0] < prefix[0] + 1 <==> prefix <= k
  {
    ConsPrefix(prefix, k);
    NotLessThanTop(prefix[1..], k[1..]);
  }

  /** A key lies in the range of a prefix exactly when it starts with the prefix. */
  lemma RangeIsPrefix(prefix: Key, upper: Option<Key>, k: Key)
    requires AllBytes(k) && IsUpperBound(prefix, upper)
    ensures InRange(k, prefix, upper) <==> prefix <= k
  {
    match upper
    case None => NotLessThanTop(prefix, k);
    case Some(u) =>
      var i :| CountedUp(prefix, u, i);
      CountedUpRange(prefix, u, i, k);
  }

  // ----- Common prefixes and fields of fixed width

  lemma {:induction false} LessAfterPrefix(p: Key, a: Key, b: Key)
    ensures Less(p + a, p + b) <==> Less(a, b)
  {
    if p == [] {
      assert p + a == a && p + b == b;
    } else {
      LessAfterPrefix(p[1..], a, b);
      assert (p + a)[1..] == p[1..] + a && (p + b)[1..] == p[1..] + b;
    }
  }

  /** A first field of fixed width decides unless it is the same. */
  lemma {:induction false} LessByFields(a: Key, b: Key, c: Key, d: Key)
    requires |a| == |b|
    ensures Less(a + c, b + d) <==> Less(a, b) || (a == b && Less(c, d))
  {
    if a == [] {
      assert a + c == c && b + d == d;
    } else {
      LessByFields(a[1..], b[1..], c, d);
      assert (a + c)[1..] == a[1..] + c && (b + d)[1..] == b[1..] + d;
      assert a == [a[0]] + a[1..] && b == [b[0]] + b[1..];
    }
  }

  /** Digit strings of one length are ordered as the numbers they denote. */
  lemma {:induction false} LessByValue(a: Key, b: Key, base: nat)
    requires |a| == |b| && base > 0 && P.AreDigits(a, base) && P.AreDigits(b, base)
    ensures Less(a, b) <==> P.Value(a, base) < P.Value(b, base)
  {
    if a != [] {
      LessByValue(a[1..], b[1..], base);
      FirstDigit(a, base);
      FirstDigit(b, base);
      FirstDigitDecides(a[0], P.Value(a[1..], base), b[0], P.Value(b[1..], base), P.Pow(base, |a| - 1));
    }
  }

  lemma FirstDigit(a: Key, base: nat)
    requires a != [] && base > 0 && P.AreDigits(a, base)
    ensures P.Value(a, base) == a[0] * P.Pow(base, |a| - 1) + P.Value(a[1..], base)
    ensures P.Value(a[1..], base) < P.Pow(base, |a| - 1)
  {
    assert a == [a[0]] + a[1..];
    P.ValueConcat([a[0]], a[1..], base);
    OneDigit(a[0], base);
    P.ValueBound(a[1..], base);
  }

  lemma OneDigit(d: nat, base: nat)
    ensures P.Value([d], base) == d
  {
    var none: seq<nat> := [];
    assert none + [d] == [d];
    P.ValueSnoc(none, d, base);
  }

  lemma FirstDigitDecides(d: nat, x: nat, e: nat, y: nat, p: nat)
    requires x < p && y < p
    ensures d * p + x < e * p + y <==> d < e || (d == e && x < y)
  {
    if d < e {
      assert (d + 1) * p <= e * p;
    } else if d > e {
      assert (e + 1) * p <= d * p;
    }
  }

  // ----- Numbers in keys

  const WIDTH := 20

  /** The text "%020d" of a number. */
  function Padded(n: nat): string {
    var t := Hex.BigIntText(n, 10);
    if |t| >= WIDTH then t else Hex.Zeros(WIDTH - |t|) + t
  }

  function Bytes(s: string): (k: Key)
    ensures |k| == |s|
  {
    seq(|s|, i requires 0 <= i < |s| => s[i] as nat)
  }

  /** Every 64-bit number has at most 20 decimal digits. */
  lemma FitsWidth(n: nat)
    requires n < 0x1_0000_0000_0000_0000
    ensures n < P.Pow(10, WIDTH)
  {
    assert P.Pow(10, 5) == 100000;
    P.PowAdd(10, 5, 5);
    P.PowAdd(10, 10, 10);
  }

  lemma PaddedDigits(n: nat)
    requires n < P.Pow(10, WIDTH)
    ensures P.AreDigits(P.Fixed(n, 10, WIDTH), 16)
    ensures Padded(n) == Hex.Text(P.Fixed(n, 10, WIDTH))
  {
    P.FixedPads(n, 10, WIDTH);
    var ds := P.Minimal(n, 10);
    if n == 0 {
      assert P.Fixed(n, 10, WIDTH) == P.Zeros(WIDTH);
      assert Padded(0) == Hex.Zeros(WIDTH - 1) + "0";
    } else {
      Hex.TextOfPadded(WIDTH - |ds|, ds);
    }
  }

  function Codes(ds: seq<nat>): (k: Key)
    ensures |k| == |ds| && forall i | 0 <= i < |ds| :: k[i] == ds[i] + 48
  {
    seq(|ds|, i requires 0 <= i < |ds| => ds[i] + 48)
  }

  lemma {:induction false} CodesKeepOrder(a: seq<nat>, b: seq<nat>)
    requires |a| == |b|
    ensures Less(Codes(a), Codes(b)) <==> Less(a, b)
  {
    if a != [] {
      CodesKeepOrder(a[1..], b[1..]);
      assert Codes(a)[1..] == Codes(a[1..]) && Codes(b)[1..] == Codes(b[1..]);
    }
  }

  lemma PaddedBytes(n: nat)
    requires n < P.Pow(10, WIDTH)
    ensures Bytes(Padded(n)) == Codes(P.Fixed(n, 10, WIDTH))
    ensures |Padded(n)| == WIDTH && AllBytes(Bytes(Padded(n)))
  {
    PaddedDigits(n);
    var ds := P.Fixed(n, 10, WIDTH);
    forall i | 0 <= i < WIDTH ensures Bytes(Padded(n))[i] == ds[i] + 48 {
      DecimalCode(ds[i]);
    }
  }

  lemma DecimalCode(d: nat)
    requires d < 10
    ensures Hex.DigitChar(d) as nat == d + 48
  {
  }

  /** Padded 64-bit numbers are ordered as numbers; in particular, no two are the same. */
  lemma PaddedOrder(m: nat, n: nat)
    requires m < 0x1_0000_0000_0000_0000 && n < 0x1_0000_0000_0000_0000
    ensures Less(Bytes(Padded(m)), Bytes(Padded(n))) <==> m < n
    ensures Padded(m) == Padded(n) <==> m == n
    ensures |Padded(m)| == WIDTH && AllBytes(Bytes(Padded(m)))
  {
    FitsWidth(m);
    FitsWidth(n);
    PaddedBytes(m);
    PaddedBytes(n);
    OrderOfFixed(m, n);
    OrderOfFixed(n, m);
    CodesKeepOrder(P.Fixed(m, 10, WIDTH), P.Fixed(n, 10, WIDTH));
    CodesKeepOrder(P.Fixed(n, 10, WIDTH), P.Fixed(m, 10, WIDTH));
    NotLessThanItself(Bytes(Padded(m)));
  }

  lemma OrderOfFixed(m: nat, n: nat)
    requires m < P.Pow(10, WIDTH) && n < P.Pow(10, WIDTH)
    ensures Less(P.Fixed(m, 10, WIDTH), P.Fixed(n, 10, WIDTH)) <==> m < n
  {
    LessByValue(P.Fixed(m, 10, WIDTH), P.Fixed(n, 10, WIDTH), 10);
    P.ValueOfFixed(m, 10, WIDTH);
    P.ValueOfFixed(n, 10, WIDTH);
    P.SmallMod(m, P.Pow(10, WIDTH));
    P.SmallMod(n, P.Pow(10, WIDTH));
  }

  lemma {:induction false} NotLessThanItself(k: Key)
    ensures !Less(k, k)
  {
    if k != [] {
      NotLessThanItself(k[1..]);
    }
  }
}
