/** Regrouping a byte string into 5-bit words and back (convertBits in pkg/address/bech32m.go).

    The meaning of a list of w-bit words is the string of all its bits; regrouping keeps that
    string, up to the zero padding at its end. */
module BitGroups {
  import opened Wrappers
  import opened Bits
  import P = Positional
  import Seqs

  /** The bits of a list of words, most significant bit of the first word first. */
  function Flatten(words: seq<nat>, w: nat): (bits: seq<nat>)
    ensures P.AreDigits(bits, 2)
  {
    if words == [] then [] else P.Fixed(words[0], 2, w) + Flatten(words[1..], w)
  }

  /** Cuts a bit string into words of w bits and drops what is left over. */
  function Group(bits: seq<nat>, w: nat): seq<nat>
    requires w > 0
  {
    if |bits| < w then [] else [P.Value(bits[..w], 2)] + Group(bits[w..], w)
  }

  /** The bits that Group drops. */
  function Rest(bits: seq<nat>, w: nat): (r: seq<nat>)
    requires w > 0
    ensures |r| < w && |r| <= |bits|
  {
    if |bits| < w then bits else Rest(bits[w..], w)
  }

  predicate InRange(words: seq<nat>, w: nat) {
    P.AreDigits(words, P.Pow(2, w))
  }

  /** The number of zero bits that complete the last word. */
  function PadLength(bits: seq<nat>, w: nat): (pad: nat)
    requires w > 0
    ensures pad < w
  {
    var rest := Rest(bits, w);
    if rest == [] then 0 else w - |rest|
  }

  function Filled(bits: seq<nat>, w: nat): seq<nat>
    requires w > 0
  {
    bits + P.Zeros(PadLength(bits, w))
  }

  /** The regrouping with padding: zero bits complete the last word. */
  function Padded(data: seq<nat>, from: nat, to: nat): Option<seq<nat>>
    requires from > 0 && to > 0
  {
    if InRange(data, from) then Some(Group(Filled(Flatten(data, from), to), to)) else None
  }

  /** The regrouping without padding: what is left over must be zero and less than a word. */
  function Unpadded(data: seq<nat>, from: nat, to: nat): Option<seq<nat>>
    requires from > 0 && to > 0
  {
    var bits := Flatten(data, from);
    var rest := Rest(bits, to);
    if !InRange(data, from) || |rest| >= from || rest != P.Zeros(|rest|) then None
    else Some(Group(bits, to))
  }

  method ConvertBits(data: seq<nat>, from: nat, to: nat, pad: bool) returns (r: Option<seq<nat>>)
    requires from > 0 && to > 0
    ensures r == if pad then Padded(data, from, to) else Unpadded(data, from, to)
  {
    var acc: nat, bits: nat := 0, 0;
    var out: seq<nat> := [];
    ghost var pending: seq<nat> := [];
    for k := 0 to |data|
      invariant Regrouping(data[..k], from, to, out, acc, bits, pending) && bits < to
    {
      if High(data[k], from) != 0 {
        OutOfRange(data, k, from);
        return None;
      }
      Push(data[..k], data[k], from, to, out, acc, pending);
      Seqs.PrefixSnoc(data, k);
      acc := Low(acc * P.Pow(2, from) + data[k], from + to - 1);
      pending := pending + P.Fixed(data[k], 2, from);
      bits := bits + from;
      bits, out, pending := EmitWords(data[..k + 1], from, to, out, acc, bits, pending);
    }
    Seqs.Whole(data);
    r := Finish(data, from, to, pad, out, acc, bits, pending);
  }

  /** After the loop: complete the last word, or check that nothing is left but padding. */
  method Finish(ghost data: seq<nat>, from: nat, to: nat, pad: bool, out: seq<nat>, acc: nat, bits: nat,
                ghost pending: seq<nat>)
    returns (r: Option<seq<nat>>)
    requires from > 0 && Regrouping(data, from, to, out, acc, bits, pending) && bits < to
    ensures r == if pad then Padded(data, from, to) else Unpadded(data, from, to)
  {
    if pad {
      FinishPadded(data, from, to, out, acc, pending);
      if bits > 0 {
        return Some(out + [Low(acc * P.Pow(2, to - bits), to)]);
      }
      return Some(out);
    }
    FinishUnpadded(data, from, to, out, acc, pending);
    if bits >= from || Low(acc * P.Pow(2, to - bits), to) != 0 {
      return None;
    }
    return Some(out);
  }

  /** The inner loop: writes words while the accumulator holds enough bits. */
  method EmitWords(ghost read: seq<nat>, ghost from: nat, to: nat, out0: seq<nat>, acc: nat, bits0: nat,
                   ghost pending0: seq<nat>)
    returns (bits: nat, out: seq<nat>, ghost pending: seq<nat>)
    requires to > 0 && Regrouping(read, from, to, out0, acc, bits0, pending0)
    ensures bits < to && Regrouping(read, from, to, out, acc, bits, pending)
  {
    bits, out, pending := bits0, out0, pending0;
    while bits >= to
      invariant Regrouping(read, from, to, out, acc, bits, pending)
    {
      Emit(read, from, to, out, acc, pending);
      bits := bits - to;
      out := out + [Low(High(acc, bits), to)];
      pending := pending[to..];
    }
  }

  // ----- The accumulator

  /** The low bits of the accumulator are the bits read and not yet written. */
  ghost predicate Holds(acc: nat, bits: nat, pending: seq<nat>) {
    |pending| == bits && P.AreDigits(pending, 2) && P.Value(pending, 2) == Low(acc, bits)
  }

  /** The bits read so far are those written followed by those pending. */
  ghost predicate Regrouping(read: seq<nat>, from: nat, to: nat, out: seq<nat>, acc: nat, bits: nat,
                             pending: seq<nat>)
  {
    && InRange(read, from) && InRange(out, to)
    && Flatten(read, from) == Flatten(out, to) + pending
    && Holds(acc, bits, pending)
  }

  lemma LowHigh(x: nat, t: nat, w: nat)
    ensures Low(x, t + w) == Low(High(x, t), w) * P.Pow(2, t) + Low(x, t)
  {
    var p, q := P.Pow(2, t), P.Pow(2, w);
    P.PowAdd(2, t, w);
    var h := P.Quot(High(x, t), q);
    P.Regroup(h, q, Low(High(x, t), w), p, Low(x, t));
    P.MulAtMost(Low(High(x, t), w), q, p);
    assert x == P.Quot(x, p) * p + Low(x, t);
    P.DivModUnique(h, p * q, Low(High(x, t), w) * p + Low(x, t));
  }

  lemma LowOfLow(x: nat, j: nat, m: nat)
    requires j <= m
    ensures Low(Low(x, m), j) == Low(x, j)
  {
    LowHigh(x, j, m - j);
    P.DivModUnique(Low(High(x, j), m - j), P.Pow(2, j), Low(x, j));
  }

  lemma LowOfShifted(x: nat, v: nat, b: nat, s: nat)
    requires v < P.Pow(2, s)
    ensures Low(x * P.Pow(2, s) + v, s + b) == Low(x, b) * P.Pow(2, s) + v
  {
    P.DivModUnique(x, P.Pow(2, s), v);
    LowHigh(x * P.Pow(2, s) + v, s, b);
  }

  lemma Push(read: seq<nat>, value: nat, from: nat, to: nat, out: seq<nat>, acc: nat, pending: seq<nat>)
    requires from > 0 && Regrouping(read, from, to, out, acc, |pending|, pending) && |pending| < to
    requires High(value, from) == 0
    ensures Regrouping(read + [value], from, to, out, Low(acc * P.Pow(2, from) + value, from + to - 1),
                       |pending| + from, pending + P.Fixed(value, 2, from))
  {
    var q := P.Quot(value, P.Pow(2, from));
    PushHolds(acc, pending, value, from, to);
    FlattenSnoc(read, value, from);
    Seqs.Assoc(Flatten(out, to), pending, P.Fixed(value, 2, from));
  }

  lemma PushHolds(acc: nat, pending: seq<nat>, value: nat, from: nat, to: nat)
    requires from > 0 && Holds(acc, |pending|, pending) && |pending| < to && value < P.Pow(2, from)
    ensures Holds(Low(acc * P.Pow(2, from) + value, from + to - 1), |pending| + from,
                  pending + P.Fixed(value, 2, from))
  {
    var bits := P.Fixed(value, 2, from);
    LowOfLow(acc * P.Pow(2, from) + value, from + |pending|, from + to - 1);
    LowOfShifted(acc, value, |pending|, from);
    P.ValueConcat(pending, bits, 2);
    P.ValueOfFixed(value, 2, from);
    P.SmallMod(value, P.Pow(2, from));
  }

  lemma Emit(read: seq<nat>, from: nat, to: nat, out: seq<nat>, acc: nat, pending: seq<nat>)
    requires to > 0 && Regrouping(read, from, to, out, acc, |pending|, pending) && to <= |pending|
    ensures Regrouping(read, from, to, out + [Low(High(acc, |pending| - to), to)], acc, |pending| - to,
                       pending[to..])
  {
    var word := Low(High(acc, |pending| - to), to);
    EmitHolds(acc, pending, to);
    FlattenSnoc(out, word, to);
    Seqs.Assoc(Flatten(out, to), pending[..to], pending[to..]);
    assert pending == pending[..to] + pending[to..];
  }

  lemma EmitHolds(acc: nat, pending: seq<nat>, to: nat)
    requires Holds(acc, |pending|, pending) && to <= |pending|
    ensures P.Fixed(Low(High(acc, |pending| - to), to), 2, to) == pending[..to]
    ensures Holds(acc, |pending| - to, pending[to..])
  {
    var t := |pending| - to;
    var head, tail := pending[..to], pending[to..];
    assert pending == head + tail;
    P.ValueConcat(head, tail, 2);
    P.ValueBound(tail, 2);
    LowHigh(acc, t, to);
    P.DivModUnique(P.Value(head, 2), P.Pow(2, t), P.Value(tail, 2));
    P.DivModUnique(Low(High(acc, t), to), P.Pow(2, t), Low(acc, t));
    P.FixedOfValue(head, 2);
  }

  lemma Complete(acc: nat, pending: seq<nat>, to: nat)
    requires Holds(acc, |pending|, pending) && |pending| < to
    ensures Low(acc * P.Pow(2, to - |pending|), to) == P.Value(pending + P.Zeros(to - |pending|), 2)
  {
    var s := to - |pending|;
    LowOfShifted(acc, 0, |pending|, s);
    P.ValueConcat(pending, P.Zeros(s), 2);
    P.ValueOfZeros(s, 2);
  }

  /** The padding test of the source sees exactly whether a leftover bit is set. */
  lemma Leftover(acc: nat, pending: seq<nat>, to: nat)
    requires Holds(acc, |pending|, pending) && |pending| < to
    ensures Low(acc * P.Pow(2, to - |pending|), to) == 0 <==> pending == P.Zeros(|pending|)
  {
    Complete(acc, pending, to);
    var s := to - |pending|;
    P.ValueConcat(pending, P.Zeros(s), 2);
    P.ValueOfZeros(s, 2);
    P.ValueOfZeros(|pending|, 2);
    P.FixedOfValue(pending, 2);
    P.FixedOfValue(P.Zeros(|pending|), 2);
    ZeroProduct(P.Value(pending, 2), P.Pow(2, s));
  }

  lemma ZeroProduct(v: nat, p: nat)
    requires p > 0
    ensures v * p == 0 <==> v == 0
  {
  }

  lemma FinishPadded(data: seq<nat>, from: nat, to: nat, out: seq<nat>, acc: nat, pending: seq<nat>)
    requires from > 0 && Regrouping(data, from, to, out, acc, |pending|, pending) && |pending| < to
    ensures Padded(data, from, to)
         == Some(if pending == [] then out else out + [Low(acc * P.Pow(2, to - |pending|), to)])
  {
    FilledGroups(out, pending, to);
    Complete(acc, pending, to);
  }

  lemma FinishUnpadded(data: seq<nat>, from: nat, to: nat, out: seq<nat>, acc: nat, pending: seq<nat>)
    requires from > 0 && Regrouping(data, from, to, out, acc, |pending|, pending) && |pending| < to
    ensures Unpadded(data, from, to)
         == if |pending| >= from || Low(acc * P.Pow(2, to - |pending|), to) != 0 then None else Some(out)
  {
    GroupOfFlatten(out, pending, to);
    Leftover(acc, pending, to);
  }

  lemma OutOfRange(data: seq<nat>, k: nat, from: nat)
    requires k < |data| && High(data[k], from) != 0
    ensures !InRange(data, from)
  {
    if data[k] < P.Pow(2, from) {
      P.SmallMod(data[k], P.Pow(2, from));
    }
  }

  // ----- Bit strings

  lemma {:induction false} FlattenConcat(a: seq<nat>, b: seq<nat>, w: nat)
    ensures Flatten(a + b, w) == Flatten(a, w) + Flatten(b, w)
  {
    if a == [] {
      assert a + b == b;
    } else {
      FlattenConcat(a[1..], b, w);
      assert (a + b)[1..] == a[1..] + b;
      Seqs.Assoc(P.Fixed(a[0], 2, w), Flatten(a[1..], w), Flatten(b, w));
    }
  }

  lemma FlattenSnoc(a: seq<nat>, x: nat, w: nat)
    ensures Flatten(a + [x], w) == Flatten(a, w) + P.Fixed(x, 2, w)
  {
    FlattenConcat(a, [x], w);
    assert Flatten([x], w) == P.Fixed(x, 2, w) + [];
  }

  lemma GroupCons(x: nat, more: seq<nat>, w: nat)
    requires w > 0 && x < P.Pow(2, w)
    ensures Group(P.Fixed(x, 2, w) + more, w) == [x] + Group(more, w)
    ensures Rest(P.Fixed(x, 2, w) + more, w) == Rest(more, w)
  {
    var bits := P.Fixed(x, 2, w) + more;
    assert bits[..w] == P.Fixed(x, 2, w) && bits[w..] == more;
    P.ValueOfFixed(x, 2, w);
    P.SmallMod(x, P.Pow(2, w));
  }

  /** Grouping undoes flattening and leaves over what did not fill a word. */
  lemma {:induction false} GroupOfFlatten(words: seq<nat>, rest: seq<nat>, w: nat)
    requires w > 0 && InRange(words, w) && |rest| < w
    ensures Group(Flatten(words, w) + rest, w) == words
    ensures Rest(Flatten(words, w) + rest, w) == rest
  {
    if words == [] {
      assert Flatten(words, w) + rest == rest;
    } else {
      GroupOfFlatten(words[1..], rest, w);
      GroupCons(words[0], Flatten(words[1..], w) + rest, w);
      Seqs.Assoc(P.Fixed(words[0], 2, w), Flatten(words[1..], w), rest);
    }
  }

  lemma GroupExact(words: seq<nat>, w: nat)
    requires w > 0 && InRange(words, w)
    ensures Group(Flatten(words, w), w) == words && Rest(Flatten(words, w), w) == []
  {
    GroupOfFlatten(words, [], w);
    assert Flatten(words, w) + [] == Flatten(words, w);
  }

  /** A full last word, given by its bits. */
  lemma GroupWithLast(words: seq<nat>, last: seq<nat>, w: nat)
    requires w > 0 && InRange(words, w) && |last| == w && P.AreDigits(last, 2)
    ensures P.Value(last, 2) < P.Pow(2, w)
    ensures Group(Flatten(words, w) + last, w) == words + [P.Value(last, 2)]
  {
    P.ValueBound(last, 2);
    P.FixedOfValue(last, 2);
    FlattenSnoc(words, P.Value(last, 2), w);
    GroupExact(words + [P.Value(last, 2)], w);
  }

  /** Filling up the bits of some words and a rest: the rest becomes one more word. */
  lemma FilledGroups(words: seq<nat>, rest: seq<nat>, w: nat)
    requires w > 0 && InRange(words, w) && |rest| < w && P.AreDigits(rest, 2)
    ensures var bits := Flatten(words, w) + rest;
            && PadLength(bits, w) == (if rest == [] then 0 else w - |rest|)
            && Group(Filled(bits, w), w)
               == if rest == [] then words else words + [P.Value(rest + P.Zeros(w - |rest|), 2)]
  {
    var bits := Flatten(words, w) + rest;
    GroupOfFlatten(words, rest, w);
    if rest == [] {
      assert bits + P.Zeros(0) == bits;
    } else {
      Seqs.Assoc(Flatten(words, w), rest, P.Zeros(w - |rest|));
      GroupWithLast(words, rest + P.Zeros(w - |rest|), w);
    }
  }

  // ----- Bytes to 5-bit words and back

  /** Flattening loses nothing. */
  lemma FlattenIsInjective(a: seq<nat>, b: seq<nat>, w: nat)
    requires w > 0 && InRange(a, w) && InRange(b, w) && Flatten(a, w) == Flatten(b, w)
    ensures a == b
  {
    GroupExact(a, w);
    GroupExact(b, w);
  }

  lemma FirstWord(bits: seq<nat>, w: nat)
    requires w > 0 && P.AreDigits(bits, 2) && |bits| >= w
    ensures P.AreDigits(bits[w..], 2)
    ensures P.Value(bits[..w], 2) < P.Pow(2, w)
    ensures P.Fixed(P.Value(bits[..w], 2), 2, w) == bits[..w]
  {
    P.DigitsOfSlice(bits, 2, 0, w);
    P.DigitsOfSlice(bits, 2, w, |bits|);
    P.ValueBound(bits[..w], 2);
    P.FixedOfValue(bits[..w], 2);
  }

  /** A bit string is its words followed by what is left over. */
  lemma {:induction false} FlattenOfGroup(bits: seq<nat>, w: nat)
    requires w > 0 && P.AreDigits(bits, 2)
    ensures InRange(Group(bits, w), w) && P.AreDigits(Rest(bits, w), 2)
    ensures bits == Flatten(Group(bits, w), w) + Rest(bits, w)
  {
    if |bits| < w {
      assert Flatten([], w) + bits == bits;
    } else {
      FirstWord(bits, w);
      FlattenOfGroup(bits[w..], w);
      FlattenConsGroup(bits, w);
    }
  }

  lemma FlattenConsGroup(bits: seq<nat>, w: nat)
    requires w > 0 && |bits| >= w
    requires P.Fixed(P.Value(bits[..w], 2), 2, w) == bits[..w]
    requires bits[w..] == Flatten(Group(bits[w..], w), w) + Rest(bits[w..], w)
    ensures bits == Flatten(Group(bits, w), w) + Rest(bits, w)
  {
    var x := P.Value(bits[..w], 2);
    assert Group(bits, w)[1..] == Group(bits[w..], w);
    Seqs.Assoc(bits[..w], Flatten(Group(bits[w..], w), w), Rest(bits[w..], w));
    assert bits == bits[..w] + bits[w..];
  }

  lemma {:induction false} FlattenLength(words: seq<nat>, w: nat)
    ensures |Flatten(words, w)| == |words| * w
  {
    if words != [] {
      FlattenLength(words[1..], w);
      assert |words| * w == (|words| - 1) * w + w;
    }
  }

  /** What the padded regrouping means: the same bits, then fewer zero bits than a word. */
  lemma PaddedBits(data: seq<nat>, from: nat, to: nat)
    requires from > 0 && to > 0 && InRange(data, from)
    ensures var words := Padded(data, from, to);
            && words.Some? && InRange(words.value, to)
            && Flatten(words.value, to) == Filled(Flatten(data, from), to)
  {
    var bits := Flatten(data, from);
    FlattenOfGroup(bits, to);
    FilledBits(Group(bits, to), Rest(bits, to), to);
  }

  lemma FilledBits(words: seq<nat>, rest: seq<nat>, w: nat)
    requires w > 0 && InRange(words, w) && |rest| < w && P.AreDigits(rest, 2)
    ensures var bits := Flatten(words, w) + rest;
            && InRange(Group(Filled(bits, w), w), w)
            && Flatten(Group(Filled(bits, w), w), w) == Filled(bits, w)
  {
    FilledGroups(words, rest, w);
    if rest == [] {
      var bits := Flatten(words, w) + rest;
      assert bits + P.Zeros(0) == bits == Flatten(words, w);
    } else {
      Seqs.Assoc(Flatten(words, w), rest, P.Zeros(w - |rest|));
      FlattenWithLast(words, rest + P.Zeros(w - |rest|), w);
    }
  }

  lemma FlattenWithLast(words: seq<nat>, last: seq<nat>, w: nat)
    requires w > 0 && InRange(words, w) && |last| == w && P.AreDigits(last, 2)
    ensures InRange(words + [P.Value(last, 2)], w)
    ensures Flatten(words + [P.Value(last, 2)], w) == Flatten(words, w) + last
  {
    P.ValueBound(last, 2);
    P.FixedOfValue(last, 2);
    FlattenSnoc(words, P.Value(last, 2), w);
  }

  /** The two regroupings of an address are inverse to each other, padding included: words
      decode to a byte string exactly when they are what that byte string encodes to. */
  lemma RegroupingInverts(words: seq<nat>, bytes: seq<nat>)
    requires InRange(bytes, 8)
    ensures Unpadded(words, 5, 8) == Some(bytes) <==> Padded(bytes, 8, 5) == Some(words)
  {
    PaddedBits(bytes, 8, 5);
    if Padded(bytes, 8, 5) == Some(words) {
      GroupOfFlatten(bytes, P.Zeros(PadLength(Flatten(bytes, 8), 5)), 8);
    }
    if Unpadded(words, 5, 8) == Some(bytes) {
      UnpaddedIsPadded(words, bytes);
    }
  }

  lemma UnpaddedIsPadded(words: seq<nat>, bytes: seq<nat>)
    requires Unpadded(words, 5, 8) == Some(bytes) && InRange(bytes, 8)
    ensures Padded(bytes, 8, 5) == Some(words)
  {
    var encoded := Padded(bytes, 8, 5).value;
    var rest := Rest(Flatten(words, 5), 8);
    PaddedBits(bytes, 8, 5);
    FlattenOfGroup(Flatten(words, 5), 8);
    assert Flatten(words, 5) == Flatten(bytes, 8) + P.Zeros(|rest|);
    FlattenLength(words, 5);
    FlattenLength(encoded, 5);
    SamePad(|words|, |encoded|, |Flatten(bytes, 8)|, |rest|, PadLength(Flatten(bytes, 8), 5));
    FlattenIsInjective(words, encoded, 5);
  }

  lemma SamePad(m: nat, n: nat, bits: nat, r: nat, p: nat)
    requires m * 5 == bits + r && n * 5 == bits + p && r < 5 && p < 5
    ensures r == p
  {
  }
}
