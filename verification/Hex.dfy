/** Hexadecimal and decimal text of integers and bytes (pkg/crypto/bytes.go). */
module Hex {
  import opened Wrappers
  import P = Positional
  import Seqs

  type Byte = b: nat | b < 256

  function Lower(c: char): char {
    if 'A' <= c <= 'Z' then (c as int + 32) as char else c
  }

  function ToLower(s: string): (r: string)
    ensures |r| == |s| && forall i | 0 <= i < |s| :: r[i] == Lower(s[i])
  {
    seq(|s|, i requires 0 <= i < |s| => Lower(s[i]))
  }

  /** The white space that Go's strings.TrimSpace removes. */
  predicate IsSpace(c: char) {
    || '\t' <= c <= '\r' || c == ' ' || c == '\U{0085}' || c == '\U{00a0}' || c == '\U{1680}'
    || '\U{2000}' <= c <= '\U{200a}' || c == '\U{2028}' || c == '\U{2029}' || c == '\U{202f}'
    || c == '\U{205f}' || c == '\U{3000}'
  }

  function TrimLeft(s: string): string {
    if s != [] && IsSpace(s[0]) then TrimLeft(s[1..]) else s
  }

  function TrimRight(s: string): string {
    if s != [] && IsSpace(s[|s| - 1]) then TrimRight(s[..|s| - 1]) else s
  }

  function TrimSpace(s: string): string {
    TrimRight(TrimLeft(s))
  }

  function TrimPrefix(s: string, prefix: string): string {
    if prefix <= s then s[|prefix|..] else s
  }

  function Strip0x(s: string): string {
    TrimPrefix(TrimPrefix(TrimSpace(s), "0x"), "0X")
  }

  function CharDigit(c: char): (d: Option<nat>)
    ensures d.Some? ==> d.value < 16
  {
    if '0' <= c <= '9' then Some((c as int - '0' as int) as nat)
    else if 'a' <= c <= 'f' then Some((c as int - 'a' as int + 10) as nat)
    else if 'A' <= c <= 'F' then Some((c as int - 'A' as int + 10) as nat)
    else None
  }

  function DigitChar(d: nat): (c: char)
    requires d < 16
    ensures CharDigit(c) == Some(d) && Lower(c) == c && !IsSpace(c) && c != 'x' && c != 'X'
  {
    if d < 10 then ('0' as int + d) as char else ('a' as int + (d - 10)) as char
  }

  /** Every character is a digit of the base, which is 10 or 16 here. */
  predicate AllDigits(s: string, base: nat) {
    forall i | 0 <= i < |s| :: CharDigit(s[i]).Some? && CharDigit(s[i]).value < base
  }

  predicate IsLowerHex(s: string) {
    AllDigits(s, 16) && forall i | 0 <= i < |s| :: Lower(s[i]) == s[i]
  }

  function Digits(s: string, base: nat): (ds: seq<nat>)
    requires AllDigits(s, base)
    ensures |ds| == |s| && P.AreDigits(ds, base)
    ensures forall i | 0 <= i < |s| :: ds[i] == CharDigit(s[i]).value
  {
    seq(|s|, i requires 0 <= i < |s| => CharDigit(s[i]).value)
  }

  function Text(ds: seq<nat>): (s: string)
    requires P.AreDigits(ds, 16)
    ensures |s| == |ds| && forall i | 0 <= i < |s| :: s[i] == DigitChar(ds[i])
    ensures IsLowerHex(s)
  {
    seq(|ds|, i requires 0 <= i < |ds| => DigitChar(ds[i]))
  }

  /** Go's big.Int.SetString: an optional sign and at least one digit. */
  function ParseBigInt(s: string, base: nat): Option<int> {
    var signed := s != [] && (s[0] == '-' || s[0] == '+');
    var body := if signed then s[1..] else s;
    if body == [] || !AllDigits(body, base) then None
    else if signed && s[0] == '-' then Some(0 - P.Value(Digits(body, base), base))
    else Some(P.Value(Digits(body, base), base))
  }

  function HexToBigInt(s: string): Option<int> {
    ParseBigInt(Strip0x(s), 16)
  }

  function NumberishToBigInt(s: string): Option<int> {
    var t := TrimSpace(s);
    if "0x" <= t || "0X" <= t then HexToBigInt(t) else ParseBigInt(t, 10)
  }

  /** Go's big.Int.Text: "0", or the digits without leading zeros. */
  function BigIntText(n: nat, base: nat): (s: string)
    requires 1 < base <= 16
    ensures s != [] && IsLowerHex(s)
  {
    var ds := P.Minimal(n, base);
    if ds == [] then "0" else Text(ds)
  }

  function Zeros(k: nat): string {
    seq(k, _ => '0')
  }

  /** Cuts from the left or pads with zeros on the left to the given number of characters. */
  function FitLeft(s: string, width: nat): (r: string)
    ensures |r| == width
  {
    if |s| > width then s[|s| - width..] else Zeros(width - |s|) + s
  }

  function BigIntToHex(n: int, byteLength: nat): Option<string> {
    if n < 0 then None else Some(FitLeft(BigIntText(n, 16), byteLength * 2))
  }

  function FormatHexToByteLength(s: string, byteLength: nat): Option<string> {
    if byteLength == 0 then None
    else
      var h := ToLower(Strip0x(s));
      var h := if h == "" then "0" else h;
      if ParseBigInt(h, 16).None? then None else Some(FitLeft(h, byteLength * 2))
  }

  /** Go's hex.DecodeString: pairs of digits, nothing else. */
  function DecodeHex(s: string): (r: Option<seq<Byte>>)
    ensures r.Some? <==> |s| % 2 == 0 && AllDigits(s, 16)
    ensures r.Some? ==> |r.value| * 2 == |s|
  {
    if s == "" then Some([])
    else if |s| == 1 then None
    else
      var rest := DecodeHex(s[2..]);
      assert s == s[..2] + s[2..];
      if CharDigit(s[0]).None? || CharDigit(s[1]).None? || rest.None? then None
      else Some([CharDigit(s[0]).value * 16 + CharDigit(s[1]).value] + rest.value)
  }

  function BytesToHex(bytes: seq<Byte>): (s: string)
    ensures |s| == 2 * |bytes|
  {
    if bytes == [] then "" else ByteHex(bytes[0]) + BytesToHex(bytes[1..])
  }

  function ByteHex(b: Byte): (s: string)
    ensures |s| == 2 && IsLowerHex(s)
    ensures CharDigit(s[0]).value * 16 + CharDigit(s[1]).value == b
  {
    [DigitChar(b / 16), DigitChar(b % 16)]
  }

  function HexToBytes(s: string): Option<seq<Byte>> {
    var h := Strip0x(s);
    if h == "" then Some([]) else DecodeHex(if |h| % 2 == 1 then "0" + h else h)
  }

  // ----- Lemmas

  lemma {:induction false} BytesToHexIsLower(bytes: seq<Byte>)
    ensures IsLowerHex(BytesToHex(bytes))
  {
    if bytes != [] {
      BytesToHexIsLower(bytes[1..]);
    }
  }

  lemma {:induction false} DecodeOfEncode(bytes: seq<Byte>)
    ensures DecodeHex(BytesToHex(bytes)) == Some(bytes)
  {
    if bytes != [] {
      DecodeOfEncode(bytes[1..]);
      DecodeStep(bytes[0], bytes[1..], BytesToHex(bytes[1..]));
      assert bytes == [bytes[0]] + bytes[1..];
    }
  }

  lemma DecodeStep(first: Byte, rest: seq<Byte>, text: string)
    requires DecodeHex(text) == Some(rest)
    ensures DecodeHex(ByteHex(first) + text) == Some([first] + rest)
  {
    DecodeCons(ByteHex(first), text);
  }

  lemma DecodeCons(two: string, rest: string)
    requires |two| == 2 && AllDigits(two, 16) && DecodeHex(rest).Some?
    ensures DecodeHex(two + rest)
         == Some([CharDigit(two[0]).value * 16 + CharDigit(two[1]).value] + DecodeHex(rest).value)
  {
    var s := two + rest;
    assert s[0] == two[0] && s[1] == two[1] && s[2..] == rest;
  }

  lemma LowerDigit(c: char)
    requires CharDigit(c).Some? && Lower(c) == c
    ensures DigitChar(CharDigit(c).value) == c
  {
  }

  lemma ByteHexOfDigits(two: string)
    requires |two| == 2 && IsLowerHex(two)
    ensures ByteHex(CharDigit(two[0]).value * 16 + CharDigit(two[1]).value) == two
  {
  }

  lemma EncodeStep(two: string, rest: string)
    requires |two| == 2 && IsLowerHex(two) && DecodeHex(rest).Some? && BytesToHex(DecodeHex(rest).value) == rest
    ensures DecodeHex(two + rest).Some? && BytesToHex(DecodeHex(two + rest).value) == two + rest
  {
    DecodeCons(two, rest);
    ByteHexOfDigits(two);
    var first: Byte := CharDigit(two[0]).value * 16 + CharDigit(two[1]).value;
    BytesToHexCons(first, DecodeHex(rest).value);
  }

  lemma BytesToHexCons(first: Byte, rest: seq<Byte>)
    ensures BytesToHex([first] + rest) == ByteHex(first) + BytesToHex(rest)
  {
    assert ([first] + rest)[1..] == rest;
  }

  lemma {:induction false} EncodeOfDecode(s: string)
    requires |s| % 2 == 0 && IsLowerHex(s)
    ensures DecodeHex(s).Some? && BytesToHex(DecodeHex(s).value) == s
  {
    if s != "" {
      EncodeOfDecode(s[2..]);
      EncodeStep(s[..2], s[2..]);
      Seqs.Halves(s, 2);
    }
  }

  lemma {:induction false} BytesToHexConcat(a: seq<Byte>, b: seq<Byte>)
    ensures BytesToHex(a + b) == BytesToHex(a) + BytesToHex(b)
  {
    if a == [] {
      assert a + b == b;
    } else {
      BytesToHexConcat(a[1..], b);
      assert (a + b)[1..] == a[1..] + b;
      Seqs.Assoc(ByteHex(a[0]), BytesToHex(a[1..]), BytesToHex(b));
    }
  }

  /** Text made of digits only is not changed by stripping. */
  lemma StripDigits(s: string)
    requires AllDigits(s, 16)
    ensures TrimSpace(s) == s && Strip0x(s) == s
  {
    if s != [] {
      assert CharDigit(s[0]).Some? && CharDigit(s[|s| - 1]).Some?;
    }
    if |s| >= 2 {
      assert CharDigit(s[1]).Some?;
    }
  }

  lemma TextDigits(ds: seq<nat>)
    requires P.AreDigits(ds, 16)
    ensures Digits(Text(ds), 16) == ds
  {
  }

  lemma DigitsText(s: string)
    requires IsLowerHex(s)
    ensures Text(Digits(s, 16)) == s
  {
    forall i | 0 <= i < |s| ensures Text(Digits(s, 16))[i] == s[i] {
      LowerDigit(s[i]);
    }
  }

  lemma TextOfSlice(ds: seq<nat>, k: nat)
    requires P.AreDigits(ds, 16) && k <= |ds|
    ensures Text(ds[k..]) == Text(ds)[k..]
  {
  }

  lemma TextOfPadded(k: nat, ds: seq<nat>)
    requires P.AreDigits(ds, 16)
    ensures P.AreDigits(P.Zeros(k) + ds, 16) && Text(P.Zeros(k) + ds) == Zeros(k) + Text(ds)
  {
  }

  /** Fitting a digit text to a width takes the lowest digits of the number it denotes. */
  lemma FitLeftValue(s: string, width: nat)
    requires IsLowerHex(s)
    ensures FitLeft(s, width) == Text(P.Fixed(P.Value(Digits(s, 16), 16), 16, width))
  {
    var ds := Digits(s, 16);
    DigitsText(s);
    if |s| > width {
      P.FixedIsSuffix(ds, 16, width);
      TextOfSlice(ds, |ds| - width);
    } else {
      var k := width - |s|;
      TextOfPadded(k, ds);
      PaddedDigits(k, ds, width);
    }
  }

  lemma PaddedDigits(k: nat, ds: seq<nat>, width: nat)
    requires P.AreDigits(ds, 16) && width == k + |ds|
    ensures P.Fixed(P.Value(ds, 16), 16, width) == P.Zeros(k) + ds
  {
    P.LeadingZerosVanish(k, ds, 16);
    P.FixedOfValue(P.Zeros(k) + ds, 16);
  }

  lemma ZeroText(base: nat)
    requires base == 10 || base == 16
    ensures AllDigits("0", base) && P.Value(Digits("0", base), base) == 0
  {
    assert Digits("0", base) == P.Zeros(1);
    P.ValueOfZeros(1, base);
  }

  /** The text of a number denotes it. */
  lemma TextValue(n: nat, base: nat)
    requires base == 10 || base == 16
    ensures AllDigits(BigIntText(n, base), base) && P.Value(Digits(BigIntText(n, base), base), base) == n
  {
    if n == 0 {
      ZeroText(base);
      assert P.Minimal(n, base) == [];
    } else {
      P.ValueOfMinimal(n, base);
      DigitsOfText(P.Minimal(n, base), base);
    }
  }

  lemma DigitsOfText(ds: seq<nat>, base: nat)
    requires base <= 16 && P.AreDigits(ds, base)
    ensures P.AreDigits(ds, 16) && AllDigits(Text(ds), base) && Digits(Text(ds), base) == ds
  {
  }

  /** Fixed-width hex text reads back as the number modulo 16^digits. */
  lemma BigIntToHexRoundTrip(n: nat, byteLength: nat)
    requires byteLength > 0
    ensures BigIntToHex(n, byteLength).Some?
    ensures var s := BigIntToHex(n, byteLength).value;
            && s == Text(P.Fixed(n, 16, byteLength * 2))
            && |s| == byteLength * 2 && IsLowerHex(s)
            && HexToBigInt(s) == Some(n % P.Pow(16, byteLength * 2))
  {
    var t := BigIntText(n, 16);
    TextValue(n, 16);
    FitLeftValue(t, byteLength * 2);
    P.ValueOfFixed(n, 16, byteLength * 2);
    TextDigits(P.Fixed(n, 16, byteLength * 2));
    ParseDigits(FitLeft(t, byteLength * 2));
  }

  lemma ParseDigits(s: string)
    requires s != [] && AllDigits(s, 16)
    ensures ParseBigInt(s, 16) == HexToBigInt(s) == Some(P.Value(Digits(s, 16), 16))
  {
    StripDigits(s);
    ParseUnsigned(s, 16);
  }

  /** Hex text of full width survives a trip through the number it denotes. */
  lemma HexOfParsed(s: string, byteLength: nat)
    requires byteLength > 0 && |s| == byteLength * 2 && IsLowerHex(s)
    ensures HexToBigInt(s).Some? && HexToBigInt(s).value >= 0
    ensures HexToBigInt(s).value < P.Pow(16, byteLength * 2)
    ensures BigIntToHex(HexToBigInt(s).value, byteLength) == Some(s)
  {
    ParseDigits(s);
    var ds := Digits(s, 16);
    P.ValueBound(ds, 16);
    BigIntToHexRoundTrip(P.Value(ds, 16), byteLength);
    P.FixedOfValue(ds, 16);
    DigitsText(s);
  }

  /** Decimal text of a number reads back as that number. */
  lemma DecimalRoundTrip(n: nat)
    ensures NumberishToBigInt(BigIntText(n, 10)) == Some(n)
  {
    var t := BigIntText(n, 10);
    TextValue(n, 10);
    StripDigits(t);
    NoPrefix(t);
    ParseUnsigned(t, 10);
  }

  lemma NoPrefix(s: string)
    requires AllDigits(s, 16)
    ensures !("0x" <= s) && !("0X" <= s)
  {
    if |s| >= 2 {
      assert CharDigit(s[1]).Some?;
    }
  }

  lemma ParseUnsigned(s: string, base: nat)
    requires s != [] && AllDigits(s, base)
    ensures ParseBigInt(s, base) == Some(P.Value(Digits(s, base), base))
  {
    assert CharDigit(s[0]).Some?;
  }

  /** A lower-case hex text of the right width is its own formatted form. */
  lemma FormatIsIdentity(s: string, byteLength: nat)
    requires byteLength > 0 && |s| == byteLength * 2 && IsLowerHex(s)
    ensures FormatHexToByteLength(s, byteLength) == Some(s)
  {
    assert ToLower(Strip0x(s)) == s by {
      StripDigits(s);
      LowerIsIdentity(s);
    }
    assert ParseBigInt(s, 16).Some? by {
      ParseUnsigned(s, 16);
    }
    FitExact(s);
  }

  lemma LowerIsIdentity(s: string)
    requires IsLowerHex(s)
    ensures ToLower(s) == s
  {
  }

  lemma FitExact(s: string)
    ensures FitLeft(s, |s|) == s
  {
    assert Zeros(0) + s == s;
  }

  // ----- Formatted text

  predicate IsLower(s: string) {
    forall i | 0 <= i < |s| :: Lower(s[i]) == s[i]
  }

  /** A digit or a sign. */
  predicate IsPlain(s: string) {
    forall i | 0 <= i < |s| :: CharDigit(s[i]).Some? || s[i] == '+' || s[i] == '-'
  }

  lemma ParsedIsPlain(s: string)
    requires ParseBigInt(s, 16).Some?
    ensures IsPlain(s)
  {
    if s[0] == '-' || s[0] == '+' {
      forall i | 0 < i < |s| ensures CharDigit(s[i]).Some? {
        assert CharDigit(s[1..][i - 1]).Some?;
      }
    }
  }

  lemma StripPlain(s: string)
    requires IsPlain(s)
    ensures TrimSpace(s) == s && Strip0x(s) == s
  {
    if s != "" {
      assert !IsSpace(s[0]) && !IsSpace(s[|s| - 1]);
    }
    if |s| >= 2 {
      assert s[1] != 'x' && s[1] != 'X';
    }
  }

  lemma FitIsPlain(s: string, width: nat)
    requires IsLower(s) && IsPlain(s)
    ensures IsLower(FitLeft(s, width)) && IsPlain(FitLeft(s, width))
  {
  }

  /** Formatted text has its length and consists of lower-case digits and perhaps a sign. */
  lemma FormattedIsPlain(s: string, byteLength: nat)
    requires FormatHexToByteLength(s, byteLength).Some?
    ensures var f := FormatHexToByteLength(s, byteLength).value; |f| == byteLength * 2 && IsLower(f) && IsPlain(f)
  {
    var h := ToLower(Strip0x(s));
    LowerIsLower(Strip0x(s));
    FittedIsPlain(if h == "" then "0" else h, byteLength * 2);
  }

  lemma LowerIsLower(s: string)
    ensures IsLower(ToLower(s)) && IsLower("0")
  {
  }

  lemma FittedIsPlain(h: string, width: nat)
    requires IsLower(h) && ParseBigInt(h, 16).Some?
    ensures |FitLeft(h, width)| == width && IsLower(FitLeft(h, width)) && IsPlain(FitLeft(h, width))
  {
    ParsedIsPlain(h);
    FitIsPlain(h, width);
  }
}
