/** The Bech32m checksum (pkg/address/bech32m.go; BIP-350 section "Bech32m" and BIP-173
    section "Checksum").

    The checksum register is a polynomial over GF(2) with at most 30 coefficients, held in an
    integer. Everything known about it follows from two facts proved here: feeding it is
    linear, and shifting it loses nothing. */
module Bech32mChecksum {
  import opened Bits
  import P = Positional
  import Seqs

  const BECH32M_CONSTANT: nat := 0x2bc830a3

  // ----- The register

  function Generator(i: nat): nat
    requires i < 5
  {
    if i == 0 then 0x3b6a57b2
    else if i == 1 then 0x26508e6d
    else if i == 2 then 0x1ea119fa
    else if i == 3 then 0x3d4233dd
    else 0x2a1462b3
  }

  function Tap(top: nat, i: nat): nat
    requires i < 5
  {
    if High(top, i) % 2 == 1 then Generator(i) else 0
  }

  /** The generators selected by the lowest n of the five bits shifted out. */
  function Feedback(top: nat, n: nat): nat
    requires n <= 5
  {
    if n == 0 then 0 else Xor(Feedback(top, n - 1), Tap(top, n - 1))
  }

  function Shift(chk: nat): nat {
    Xor(Low(chk, 25) * 32, Feedback(High(chk, 25), 5))
  }

  function Step(chk: nat, word: nat): nat {
    Xor(Shift(chk), word)
  }

  /** The register after a run of words. */
  function Run(chk: nat, words: seq<nat>): nat {
    if words == [] then chk else Step(Run(chk, words[..|words| - 1]), words[|words| - 1])
  }

  method Polymod(values: seq<nat>) returns (chk: nat)
    ensures chk == Run(1, values)
  {
    chk := 1;
    for k := 0 to |values|
      invariant chk == Run(1, values[..k])
    {
      StepByParts(chk, values[k]);
      RunSnoc(1, values[..k], values[k]);
      Seqs.PrefixSnoc(values, k);
      chk := AddGenerators(Xor(Low(chk, 25) * 32, values[k]), High(chk, 25));
    }
    Seqs.Whole(values);
  }

  /** The inner loop over the five bits shifted out. */
  method AddGenerators(start: nat, top: nat) returns (chk: nat)
    ensures chk == Xor(start, Feedback(top, 5))
  {
    FeedbackStart(start, top);
    chk := start;
    for i := 0 to 5
      invariant chk == Xor(start, Feedback(top, i))
    {
      FeedbackStep(start, top, i);
      if High(top, i) % 2 == 1 {
        chk := Xor(chk, Generator(i));
      }
    }
  }

  lemma FeedbackStart(start: nat, top: nat)
    ensures Xor(start, Feedback(top, 0)) == start
  {
    XorZero(start);
  }

  lemma StepByParts(chk: nat, word: nat)
    ensures Xor(Xor(Low(chk, 25) * 32, word), Feedback(High(chk, 25), 5)) == Step(chk, word)
  {
    XorSwap(Low(chk, 25) * 32, word, Feedback(High(chk, 25), 5));
  }

  lemma FeedbackStep(start: nat, top: nat, i: nat)
    requires i < 5
    ensures Xor(start, Feedback(top, i + 1))
         == if High(top, i) % 2 == 1 then Xor(Xor(start, Feedback(top, i)), Generator(i))
            else Xor(start, Feedback(top, i))
  {
    XorAssociates(start, Feedback(top, i), Generator(i));
    XorZero(Feedback(top, i));
  }

  lemma RunSnoc(chk: nat, words: seq<nat>, word: nat)
    ensures Run(chk, words + [word]) == Step(Run(chk, words), word)
  {
    assert (words + [word])[..|words|] == words;
  }

  lemma {:induction false} RunConcat(chk: nat, a: seq<nat>, b: seq<nat>)
    ensures Run(chk, a + b) == Run(Run(chk, a), b)
  {
    if b == [] {
      assert a + b == a;
    } else {
      var front, last := b[..|b| - 1], b[|b| - 1];
      RunConcat(chk, a, front);
      assert a + b == (a + front) + [last];
      RunSnoc(chk, a + front, last);
    }
  }

  // ----- The register is linear over GF(2)

  lemma TapIsLinear(a: nat, b: nat, i: nat)
    requires i < 5
    ensures Tap(Xor(a, b), i) == Xor(Tap(a, i), Tap(b, i))
  {
    XorSplits(a, b, i);
    XorParts(High(a, i), High(b, i));
    XorSelf(Generator(i));
    XorZero(Generator(i));
    XorZero(0);
  }

  lemma {:induction false} FeedbackIsLinear(a: nat, b: nat, n: nat)
    requires n <= 5
    ensures Feedback(Xor(a, b), n) == Xor(Feedback(a, n), Feedback(b, n))
  {
    if n == 0 {
      XorZero(0);
    } else {
      FeedbackIsLinear(a, b, n - 1);
      TapIsLinear(a, b, n - 1);
      XorPairs(Feedback(a, n - 1), Tap(a, n - 1), Feedback(b, n - 1), Tap(b, n - 1));
    }
  }

  lemma Times32IsLinear(a: nat, b: nat)
    ensures Xor(a * 32, b * 32) == Xor(a, b) * 32
  {
    assert P.Pow(2, 5) == 32;
    XorSplits(a * 32, b * 32, 5);
    XorZero(0);
  }

  lemma ShiftIsLinear(a: nat, b: nat)
    ensures Shift(Xor(a, b)) == Xor(Shift(a), Shift(b))
  {
    XorSplits(a, b, 25);
    Times32IsLinear(Low(a, 25), Low(b, 25));
    FeedbackIsLinear(High(a, 25), High(b, 25), 5);
    XorPairs(Low(a, 25) * 32, Feedback(High(a, 25), 5), Low(b, 25) * 32, Feedback(High(b, 25), 5));
  }

  /** Word-by-word exclusive or. */
  function Xors(a: seq<nat>, b: seq<nat>): (c: seq<nat>)
    requires |a| == |b|
    ensures |c| == |a|
  {
    if a == [] then [] else Xors(a[..|a| - 1], b[..|b| - 1]) + [Xor(a[|a| - 1], b[|b| - 1])]
  }

  lemma {:induction false} RunIsLinear(x: nat, y: nat, a: seq<nat>, b: seq<nat>)
    requires |a| == |b|
    ensures Run(Xor(x, y), Xors(a, b)) == Xor(Run(x, a), Run(y, b))
  {
    if a != [] {
      var a', b', u, v := a[..|a| - 1], b[..|b| - 1], a[|a| - 1], b[|b| - 1];
      RunIsLinear(x, y, a', b');
      RunSnoc(Xor(x, y), Xors(a', b'), Xor(u, v));
      ShiftIsLinear(Run(x, a'), Run(y, b'));
      XorPairs(Shift(Run(x, a')), Shift(Run(y, b')), u, v);
    }
  }

  // ----- Shifting loses nothing

  /** The five lowest bits of a number. */
  datatype Five = Five(b0: nat, b1: nat, b2: nat, b3: nat, b4: nat)

  function LowFive(x: nat): Five {
    Five(x % 2, x / 2 % 2, x / 2 / 2 % 2, x / 2 / 2 / 2 % 2, x / 2 / 2 / 2 / 2 % 2)
  }

  lemma LowFiveOfXor(x: nat, y: nat)
    ensures var p, q := LowFive(x), LowFive(y);
            LowFive(Xor(x, y))
            == Five(Bit(p.b0, q.b0), Bit(p.b1, q.b1), Bit(p.b2, q.b2), Bit(p.b3, q.b3), Bit(p.b4, q.b4))
  {
    XorParts(x, y);
    XorParts(x / 2, y / 2);
    XorParts(x / 2 / 2, y / 2 / 2);
    XorParts(x / 2 / 2 / 2, y / 2 / 2 / 2);
    XorParts(x / 2 / 2 / 2 / 2, y / 2 / 2 / 2 / 2);
  }

  lemma GeneratorBits()
    ensures LowFive(0) == Five(0, 0, 0, 0, 0)
    ensures LowFive(Generator(0)) == Five(0, 1, 0, 0, 1)
    ensures LowFive(Generator(1)) == Five(1, 0, 1, 1, 0)
    ensures LowFive(Generator(2)) == Five(0, 1, 0, 1, 1)
    ensures LowFive(Generator(3)) == Five(1, 0, 1, 1, 1)
    ensures LowFive(Generator(4)) == Five(1, 1, 0, 0, 1)
  {
  }

  /** The low bits of the generators are linearly independent, so that the bits shifted out
      can be recovered from the five lowest bits of the result. */
  lemma FeedbackKernel(top: nat)
    requires LowFive(Feedback(top, 5)) == LowFive(0)
    ensures forall i | 0 <= i < 5 :: High(top, i) % 2 == 0
  {
    GeneratorBits();
    LowFiveOfXor(Feedback(top, 0), Tap(top, 0));
    LowFiveOfXor(Feedback(top, 1), Tap(top, 1));
    LowFiveOfXor(Feedback(top, 2), Tap(top, 2));
    LowFiveOfXor(Feedback(top, 3), Tap(top, 3));
    LowFiveOfXor(Feedback(top, 4), Tap(top, 4));
    FeedbackUnfolds(top);
  }

  lemma FeedbackUnfolds(top: nat)
    ensures Feedback(top, 0) == 0
    ensures forall i | 0 <= i < 5 :: Feedback(top, i + 1) == Xor(Feedback(top, i), Tap(top, i))
  {
  }

  /** The register has 30 bits. */
  predicate InRegister(x: nat) {
    x < P.Pow(2, 30)
  }

  predicate AllInRegister(words: seq<nat>) {
    forall i | 0 <= i < |words| :: InRegister(words[i])
  }

  lemma SizesOfPowers()
    ensures P.Pow(2, 5) == 32 && P.Pow(2, 25) == 0x200_0000 && P.Pow(2, 30) == 0x4000_0000
  {
    assert P.Pow(2, 10) == 1024;
    P.PowAdd(2, 10, 10);
    P.PowAdd(2, 20, 5);
    P.PowAdd(2, 20, 10);
  }

  lemma FeedbackOfZero(n: nat)
    requires n <= 5
    ensures Feedback(0, n) == 0
  {
    if n > 0 {
      FeedbackOfZero(n - 1);
      assert High(0, n - 1) == 0 by { P.SmallMod(0, P.Pow(2, n - 1)); }
      XorZero(0);
    }
  }

  lemma FiveBitsAreZero(top: nat)
    requires top < 32 && forall i | 0 <= i < 5 :: High(top, i) % 2 == 0
    ensures top == 0
  {
    assert P.Pow(2, 1) == 2 && P.Pow(2, 2) == 4 && P.Pow(2, 3) == 8 && P.Pow(2, 4) == 16;
    assert High(top, 0) % 2 == 0 && High(top, 1) % 2 == 0 && High(top, 2) % 2 == 0;
    assert High(top, 3) % 2 == 0 && High(top, 4) % 2 == 0;
  }

  lemma LowFiveOfTimes32(x: nat)
    ensures LowFive(x * 32) == LowFive(0)
  {
    assert x * 32 / 2 == x * 16;
    assert x * 16 / 2 == x * 8;
    assert x * 8 / 2 == x * 4;
    assert x * 4 / 2 == x * 2;
  }

  lemma TopOfRegister(a: nat)
    requires InRegister(a)
    ensures High(a, 25) < 32 && a == High(a, 25) * 0x200_0000 + Low(a, 25)
  {
    SizesOfPowers();
  }

  lemma ShiftKernel(a: nat)
    requires InRegister(a) && Shift(a) == 0
    ensures a == 0
  {
    var top, low := High(a, 25), Low(a, 25);
    TopOfRegister(a);
    XorDistinguishes(low * 32, Feedback(top, 5));
    LowFiveOfTimes32(low);
    FeedbackKernel(top);
    FiveBitsAreZero(top);
    FeedbackOfZero(5);
  }

  lemma GeneratorInRegister(i: nat)
    requires i < 5
    ensures InRegister(Generator(i))
  {
    SizesOfPowers();
  }

  lemma {:induction false} FeedbackInRegister(top: nat, n: nat)
    requires n <= 5
    ensures InRegister(Feedback(top, n))
  {
    SizesOfPowers();
    if n > 0 {
      FeedbackInRegister(top, n - 1);
      GeneratorInRegister(n - 1);
      XorBound(Feedback(top, n - 1), Tap(top, n - 1), 30);
    }
  }

  lemma ShiftInRegister(x: nat)
    ensures InRegister(Shift(x))
  {
    SizesOfPowers();
    FeedbackInRegister(High(x, 25), 5);
    XorBound(Low(x, 25) * 32, Feedback(High(x, 25), 5), 30);
  }

  lemma {:induction false} RunInRegister(x: nat, words: seq<nat>)
    requires InRegister(x) && AllInRegister(words)
    ensures InRegister(Run(x, words))
  {
    if words != [] {
      var front, last := words[..|words| - 1], words[|words| - 1];
      ShiftInRegister(Run(x, front));
      XorBound(Shift(Run(x, front)), last, 30);
    }
  }

  lemma StepIsInjective(x: nat, y: nat, word: nat)
    requires InRegister(x) && InRegister(y)
    requires Step(x, word) == Step(y, word)
    ensures x == y
  {
    XorCancels(Shift(x), word);
    XorCancels(Shift(y), word);
    ShiftIsLinear(x, y);
    XorSelf(Shift(x));
    XorBound(x, y, 30);
    ShiftKernel(Xor(x, y));
    XorDistinguishes(x, y);
  }

  /** Different registers stay different however long the same words follow. */
  lemma {:induction false} RunIsInjective(x: nat, y: nat, words: seq<nat>)
    requires InRegister(x) && InRegister(y) && AllInRegister(words)
    requires Run(x, words) == Run(y, words)
    ensures x == y
  {
    if words != [] {
      var front, last := words[..|words| - 1], words[|words| - 1];
      RunInRegister(x, front);
      RunInRegister(y, front);
      StepIsInjective(Run(x, front), Run(y, front), last);
      RunIsInjective(x, y, front);
    }
  }

  /** From an empty register, up to six 5-bit words are simply lined up. */
  lemma {:induction false} RunOfSix(words: seq<nat>)
    requires |words| <= 6 && P.AreDigits(words, 32)
    ensures Run(0, words) == P.Value(words, 32)
  {
    if words != [] {
      var front, last := words[..|words| - 1], words[|words| - 1];
      RunOfSix(front);
      var v := P.Value(front, 32);
      P.ValueBound(front, 32);
      PowersOf32();
      P.PowMonotone(32, |front|, 5);
      P.SmallMod(v, P.Pow(2, 25));
      FeedbackOfZero(5);
      XorZero(v * 32);
      XorDisjoint(v, last, 5);
    }
  }

  lemma PowersOf32()
    ensures P.Pow(2, 5) == 32 && P.Pow(2, 25) == P.Pow(32, 5) && P.Pow(2, 30) == P.Pow(32, 6)
  {
    SizesOfPowers();
    assert P.Pow(32, 2) == 1024;
    P.PowAdd(32, 2, 2);
    P.PowAdd(32, 4, 1);
    P.PowAdd(32, 4, 2);
  }

  // ----- Checksums

  /** The prefix as the checksum sees it: high parts of the characters, zero, low parts. */
  function HrpExpand(hrp: string): (words: seq<nat>)
    ensures AllInRegister(words)
  {
    SizesOfPowers();
    seq(|hrp|, i requires 0 <= i < |hrp| => (hrp[i] as int / 32) % 256)
    + [0]
    + seq(|hrp|, i requires 0 <= i < |hrp| => hrp[i] as int % 32)
  }

  function ChecksumMod(hrp: string, data: seq<nat>): nat {
    Xor(Run(1, HrpExpand(hrp) + data + P.Zeros(6)), BECH32M_CONSTANT)
  }

  function Checksum(hrp: string, data: seq<nat>): (words: seq<nat>)
    ensures |words| == 6 && P.AreDigits(words, 32)
  {
    P.Fixed(ChecksumMod(hrp, data), 32, 6)
  }

  predicate Verifies(hrp: string, words: seq<nat>) {
    Run(1, HrpExpand(hrp) + words) == BECH32M_CONSTANT
  }

  method CreateChecksum(hrp: string, data: seq<nat>) returns (out: seq<nat>)
    ensures out == Checksum(hrp, data)
  {
    var chk := Polymod(HrpExpand(hrp) + data + P.Zeros(6));
    var mod := Xor(chk, BECH32M_CONSTANT);
    out := [];
    for i := 0 to 6
      invariant out == FirstWords(mod, i)
    {
      WordOfMod(mod, i);
      out := out + [High(mod, 5 * (5 - i)) % 32];
    }
    AllWords(mod);
  }

  /** The i most significant of the six words of a checksum. */
  function FirstWords(m: nat, i: nat): seq<nat>
    requires i <= 6
  {
    P.Fixed(High(m, 5 * (6 - i)), 32, i)
  }

  lemma AllWords(m: nat)
    ensures FirstWords(m, 6) == P.Fixed(m, 32, 6)
  {
    assert High(m, 0) == m by { NoShift(m); }
  }

  lemma WordOfMod(m: nat, i: nat)
    requires i < 6
    ensures FirstWords(m, i + 1) == FirstWords(m, i) + [High(m, 5 * (5 - i)) % 32]
  {
    DropFive(m, 5 * (5 - i));
  }

  lemma DropFive(m: nat, k: nat)
    ensures P.Quot(High(m, k), 32) == High(m, k + 5)
  {
    PowersOf32();
    P.PowAdd(2, k, 5);
    var p := P.Pow(2, k);
    var q, r := High(m, k), Low(m, k);
    var q' := P.Quot(q, 32);
    assert m == P.Quot(m, p) * p + r;
    P.Regroup(q', 32, q % 32, p, r);
    P.MulAtMost(q % 32, 32, p);
    P.DivModUnique(q', p * 32, (q % 32) * p + r);
  }

  method VerifyChecksum(hrp: string, words: seq<nat>) returns (ok: bool)
    ensures ok == Verifies(hrp, words)
  {
    var chk := Polymod(HrpExpand(hrp) + words);
    ok := chk == BECH32M_CONSTANT;
  }

  lemma {:induction false} XorsWithZeros(k: nat, words: seq<nat>)
    requires |words| == k
    ensures Xors(P.Zeros(k), words) == words
  {
    if k > 0 {
      XorsWithZeros(k - 1, words[..k - 1]);
      assert P.Zeros(k)[..k - 1] == P.Zeros(k - 1);
      XorZero(words[k - 1]);
    }
  }

  /** BIP-350: data followed by its checksum verifies, whatever the prefix and the length. */
  lemma ChecksumVerifies(hrp: string, data: seq<nat>)
    requires AllInRegister(data)
    ensures Verifies(hrp, data + Checksum(hrp, data))
  {
    Seqs.Assoc(HrpExpand(hrp), data, Checksum(hrp, data));
    RunOfChecksum(hrp, data);
    ChecksumCancels(HrpExpand(hrp) + data, Checksum(hrp, data));
  }

  lemma ChecksumCancels(e: seq<nat>, cs: seq<nat>)
    requires |cs| == 6 && Run(0, cs) == Xor(Run(1, e + P.Zeros(6)), BECH32M_CONSTANT)
    ensures Run(1, e + cs) == BECH32M_CONSTANT
  {
    RunConcat(1, e, P.Zeros(6));
    RunConcat(1, e, cs);
    AppendingToZeros(Run(1, e), cs);
    XorCancels(Run(1, e + P.Zeros(6)), BECH32M_CONSTANT);
  }

  lemma AppendingToZeros(x: nat, cs: seq<nat>)
    requires |cs| == 6
    ensures Run(x, cs) == Xor(Run(x, P.Zeros(6)), Run(0, cs))
  {
    XorZero(x);
    XorsWithZeros(6, cs);
    RunIsLinear(x, 0, P.Zeros(6), cs);
  }

  lemma RunOfChecksum(hrp: string, data: seq<nat>)
    requires AllInRegister(data)
    ensures Run(0, Checksum(hrp, data)) == ChecksumMod(hrp, data)
  {
    ModInRegister(hrp, data);
    RunOfSix(Checksum(hrp, data));
    P.ValueOfFixed(ChecksumMod(hrp, data), 32, 6);
    PowersOf32();
    P.SmallMod(ChecksumMod(hrp, data), P.Pow(32, 6));
  }

  lemma ModInRegister(hrp: string, data: seq<nat>)
    requires AllInRegister(data)
    ensures InRegister(ChecksumMod(hrp, data))
  {
    SizesOfPowers();
    var all := HrpExpand(hrp) + data + P.Zeros(6);
    RunInRegister(1, all);
    XorBound(Run(1, all), BECH32M_CONSTANT, 30);
  }

  lemma {:induction false} XorsZero(a: seq<nat>, b: seq<nat>)
    requires |a| == |b| && P.Value(Xors(a, b), 32) == 0
    ensures a == b
  {
    if a != [] {
      var n := |a| - 1;
      P.ValueSnoc(Xors(a[..n], b[..n]), Xor(a[n], b[n]), 32);
      XorsZero(a[..n], b[..n]);
      XorDistinguishes(a[n], b[n]);
    }
  }

  lemma {:induction false} XorsAreDigits(a: seq<nat>, b: seq<nat>)
    requires |a| == |b| && P.AreDigits(a, 32) && P.AreDigits(b, 32)
    ensures P.AreDigits(Xors(a, b), 32)
  {
    if a != [] {
      SizesOfPowers();
      var n := |a| - 1;
      XorsAreDigits(a[..n], b[..n]);
      XorBound(a[n], b[n], 5);
    }
  }

  /** Every error burst is caught: of two valid words with the same prefix that differ only
      inside a window of six words, both cannot verify. Changing a single word, swapping two
      neighbours or rewriting the whole checksum are bursts of this kind. */
  lemma BurstsAreDetected(hrp: string, before: seq<nat>, a: seq<nat>, b: seq<nat>, after: seq<nat>)
    requires AllInRegister(before) && AllInRegister(after)
    requires |a| == |b| <= 6 && P.AreDigits(a, 32) && P.AreDigits(b, 32)
    requires Verifies(hrp, before + a + after) && Verifies(hrp, before + b + after)
    ensures a == b
  {
    SizesOfPowers();
    var e := HrpExpand(hrp) + before;
    FirstPart(hrp, before, a, after);
    FirstPart(hrp, before, b, after);
    RunInRegister(1, e);
    RunInRegister(Run(1, e), a);
    RunInRegister(Run(1, e), b);
    RunIsInjective(Run(Run(1, e), a), Run(Run(1, e), b), after);
    SixWordsAreLegible(Run(1, e), a, b);
  }

  lemma FirstPart(hrp: string, before: seq<nat>, a: seq<nat>, after: seq<nat>)
    ensures Run(1, HrpExpand(hrp) + (before + a + after)) == Run(Run(Run(1, HrpExpand(hrp) + before), a), after)
  {
    var e := HrpExpand(hrp) + before;
    Seqs.Assoc(HrpExpand(hrp), before + a, after);
    Seqs.Assoc(HrpExpand(hrp), before, a);
    RunConcat(1, e + a, after);
    RunConcat(1, e, a);
  }

  /** From any register, up to six words can be told apart by where they lead. */
  lemma SixWordsAreLegible(x: nat, a: seq<nat>, b: seq<nat>)
    requires |a| == |b| <= 6 && P.AreDigits(a, 32) && P.AreDigits(b, 32)
    requires Run(x, a) == Run(x, b)
    ensures a == b
  {
    RunIsLinear(x, x, a, b);
    XorSelf(x);
    XorSelf(Run(x, a));
    XorsAreDigits(a, b);
    RunOfSix(Xors(a, b));
    XorsZero(a, b);
  }

  /** The checksum is the only six words that verify. */
  lemma ChecksumIsUnique(hrp: string, data: seq<nat>, cs: seq<nat>)
    requires AllInRegister(data) && |cs| == 6 && P.AreDigits(cs, 32)
    ensures Verifies(hrp, data + cs) <==> cs == Checksum(hrp, data)
  {
    ChecksumVerifies(hrp, data);
    if Verifies(hrp, data + cs) {
      var own := Checksum(hrp, data);
      assert data + cs + [] == data + cs && data + own + [] == data + own;
      BurstsAreDetected(hrp, data, cs, own, []);
    }
  }
}
