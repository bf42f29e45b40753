/** The base-37 notation of wallet names (EncodeWalletSource and DecodeWalletSource in
    pkg/crypto/memo.go). */
module WalletSource {
  import opened Wrappers
  import opened Hex
  import P = Positional
  import Seqs

  const BASE := 37

  /** The place of a character in " 0123456789abcdefghijklmnopqrstuvwxyz". */
  function CharIndex(c: char): (d: Option<nat>)
    ensures d.Some? ==> d.value < BASE
    ensures d == Some(0) <==> c == ' '
  {
    if c == ' ' then Some(0)
    else if '0' <= c <= '9' then Some((c as int - '0' as int + 1) as nat)
    else if 'a' <= c <= 'z' then Some((c as int - 'a' as int + 11) as nat)
    else None
  }

  function IndexChar(d: nat): (c: char)
    requires d < BASE
    ensures CharIndex(c) == Some(d)
  {
    if d == 0 then ' '
    else if d <= 10 then ('0' as int + (d - 1)) as char
    else ('a' as int + (d - 11)) as char
  }

  predicate InCharset(s: string) {
    forall i | 0 <= i < |s| :: CharIndex(s[i]).Some?
  }

  function Indices(s: string): (ds: seq<nat>)
    requires InCharset(s)
    ensures |ds| == |s| && P.AreDigits(ds, BASE) && forall i | 0 <= i < |s| :: ds[i] == CharIndex(s[i]).value
  {
    seq(|s|, i requires 0 <= i < |s| => CharIndex(s[i]).value)
  }

  function Chars(ds: seq<nat>): (s: string)
    requires P.AreDigits(ds, BASE)
    ensures |s| == |ds| && forall i | 0 <= i < |s| :: s[i] == IndexChar(ds[i])
  {
    seq(|ds|, i requires 0 <= i < |ds| => IndexChar(ds[i]))
  }

  /** The number that a name stands for. */
  function SourceNumber(s: string): nat
    requires InCharset(ToLower(s))
  {
    P.Value(Indices(ToLower(s)), BASE)
  }

  /** Hex text of an odd length: one zero in front of an even number of digits. */
  function OddHex(n: nat): string {
    PadToOdd(BigIntText(n, 16))
  }

  function PadToOdd(t: string): string {
    if |t| % 2 == 1 then t else Zeros(1) + t
  }

  function Encoded(s: string): Option<string> {
    if s == "" then Some("")
    else if !InCharset(ToLower(s)) then None
    else Some(OddHex(SourceNumber(s)))
  }

  function Decoded(encoded: string): Option<string> {
    var n := HexToBigInt(encoded);
    if n.None? then None else if n.value <= 0 then Some("") else Some(Chars(P.Minimal(n.value, BASE)))
  }

  /** One more digit, with the weight of its place. */
  lemma PlaceStep(s: string, i: nat)
    requires i < |s| && InCharset(s[..i]) && CharIndex(s[i]).Some?
    ensures InCharset(s[..i + 1])
    ensures P.Value(Indices(s[..i]), BASE) * P.Pow(BASE, |s| - i) + CharIndex(s[i]).value * P.Pow(BASE, |s| - i - 1)
         == P.Value(Indices(s[..i + 1]), BASE) * P.Pow(BASE, |s| - i - 1)
  {
    Seqs.PrefixSnoc(s, i);
    assert Indices(s[..i + 1]) == Indices(s[..i]) + [CharIndex(s[i]).value];
    P.ValueSnoc(Indices(s[..i]), CharIndex(s[i]).value, BASE);
    AddPlace(P.Value(Indices(s[..i]), BASE), P.Pow(BASE, |s| - i - 1), CharIndex(s[i]).value);
  }

  lemma AddPlace(v: nat, p: nat, d: nat)
    ensures v * (BASE * p) + d * p == (v * BASE + d) * p
  {
  }

  /** Adds up the digits, each with the weight of its place. */
  method SumOfPlaces(s: string) returns (r: Option<nat>)
    ensures r == if InCharset(s) then Some(P.Value(Indices(s), BASE)) else None
  {
    var output: nat := 0;
    for i := 0 to |s|
      invariant InCharset(s[..i])
      invariant output == P.Value(Indices(s[..i]), BASE) * P.Pow(BASE, |s| - i)
    {
      var index := CharIndex(s[i]);
      if index.None? {
        return None;
      }
      PlaceStep(s, i);
      output := output + index.value * P.Pow(BASE, |s| - i - 1);
    }
    Seqs.Whole(s);
    return Some(output);
  }

  method EncodeWalletSource(source: string) returns (r: Option<string>)
    ensures r == Encoded(source)
  {
    if source == "" {
      return Some("");
    }
    var output := SumOfPlaces(ToLower(source));
    if output.None? {
      return None;
    }
    var outputHex := BigIntText(output.value, 16);
    if |outputHex| % 2 == 1 {
      return Some(outputHex);
    }
    return Some(Zeros(1) + outputHex);
  }

  /** Takes the digits off from the lowest on. */
  method DecodeWalletSource(encoded: string) returns (r: Option<string>)
    ensures r == Decoded(encoded)
  {
    var number := HexToBigInt(encoded);
    if number.None? {
      return None;
    }
    if number.value <= 0 {
      return Some("");
    }
    var out := TakeDigits(number.value);
    return Some(out);
  }

  method TakeDigits(number: nat) returns (out: string)
    ensures out == Chars(P.Minimal(number, BASE))
  {
    var n: nat := number;
    out := "";
    assert Chars(P.Minimal(number, BASE)) + out == Chars(P.Minimal(number, BASE));
    while n > 0
      invariant Chars(P.Minimal(number, BASE)) == Chars(P.Minimal(n, BASE)) + out
    {
      var remainder := n % BASE;
      LastChar(n, out);
      out := [IndexChar(remainder)] + out;
      n := (n - remainder) / BASE;
    }
    assert Chars(P.Minimal(0, BASE)) + out == out;
  }

  lemma LastChar(n: nat, out: string)
    requires n > 0
    ensures (n - n % BASE) / BASE == n / BASE
    ensures Chars(P.Minimal(n, BASE)) + out == Chars(P.Minimal(n / BASE, BASE)) + ([IndexChar(n % BASE)] + out)
  {
    CharsSnoc(P.Minimal(n / BASE, BASE), n % BASE);
    Seqs.Assoc(Chars(P.Minimal(n / BASE, BASE)), [IndexChar(n % BASE)], out);
  }

  lemma CharsSnoc(ds: seq<nat>, d: nat)
    requires P.AreDigits(ds, BASE) && d < BASE
    ensures P.AreDigits(ds + [d], BASE) && Chars(ds + [d]) == Chars(ds) + [IndexChar(d)]
  {
  }

  // ----- Names survive but for leading spaces

  function TrimLeadingSpaces(s: string): string {
    if s != "" && s[0] == ' ' then TrimLeadingSpaces(s[1..]) else s
  }

  lemma {:induction false} TrimIsTrimZeros(s: string)
    requires InCharset(s)
    ensures InCharset(TrimLeadingSpaces(s)) && P.TrimZeros(Indices(s)) == Indices(TrimLeadingSpaces(s))
  {
    if s != "" && s[0] == ' ' {
      assert Indices(s)[1..] == Indices(s[1..]);
      TrimIsTrimZeros(s[1..]);
    }
  }

  lemma CharOfIndex(c: char)
    requires CharIndex(c).Some?
    ensures IndexChar(CharIndex(c).value) == c
  {
  }

  lemma CharsOfIndices(s: string)
    requires InCharset(s)
    ensures Chars(Indices(s)) == s
  {
    forall i | 0 <= i < |s| ensures Chars(Indices(s))[i] == s[i] {
      CharOfIndex(s[i]);
    }
  }

  /** The characters of the number of a name are the name in lower case without leading spaces. */
  lemma CharsOfNumber(s: string)
    requires InCharset(ToLower(s))
    ensures Chars(P.Minimal(SourceNumber(s), BASE)) == TrimLeadingSpaces(ToLower(s))
  {
    var t := ToLower(s);
    P.MinimalTrims(Indices(t), BASE);
    TrimIsTrimZeros(t);
    CharsOfIndices(TrimLeadingSpaces(t));
  }

  /** A name of k characters stands for a number below 37^k. */
  lemma NumberBound(s: string)
    requires InCharset(ToLower(s))
    ensures SourceNumber(s) < P.Pow(BASE, |s|)
  {
    P.ValueBound(Indices(ToLower(s)), BASE);
  }

  /** Whatever the name, decoding an encoded name gives it back in lower case and without leading
      spaces. */
  lemma DecodedOfEncoded(s: string)
    requires s != "" && InCharset(ToLower(s))
    ensures Encoded(s).Some? && Decoded(Encoded(s).value) == Some(TrimLeadingSpaces(ToLower(s)))
  {
    var n := SourceNumber(s);
    OddHexReads(n);
    CharsOfNumber(s);
    if n == 0 {
      assert P.Minimal(n, BASE) == [];
    }
  }

  lemma OddHexReads(n: nat)
    ensures HexToBigInt(OddHex(n)) == Some(n)
    ensures IsLowerHex(OddHex(n)) && |OddHex(n)| % 2 == 1
  {
    OddHexDigits(n);
    ParseDigits(OddHex(n));
  }

  lemma OddHexDigits(n: nat)
    ensures IsLowerHex(OddHex(n)) && |OddHex(n)| % 2 == 1 && P.Value(Digits(OddHex(n), 16), 16) == n
  {
    TextValue(n, 16);
    PaddedValue(BigIntText(n, 16), OddHex(n), n);
  }

  lemma PaddedValue(t: string, u: string, n: nat)
    requires IsLowerHex(t) && P.Value(Digits(t, 16), 16) == n
    requires if |t| % 2 == 1 then u == t else u == Zeros(1) + t
    ensures IsLowerHex(u) && |u| % 2 == 1 && P.Value(Digits(u, 16), 16) == n
  {
    if |t| % 2 == 0 {
      ZeroInFront(t);
    }
  }

  lemma ZeroInFront(t: string)
    requires IsLowerHex(t)
    ensures IsLowerHex(Zeros(1) + t) && P.Value(Digits(Zeros(1) + t, 16), 16) == P.Value(Digits(t, 16), 16)
  {
    assert Digits(Zeros(1) + t, 16) == P.Zeros(1) + Digits(t, 16);
    P.LeadingZerosVanish(1, Digits(t, 16), 16);
  }
}
