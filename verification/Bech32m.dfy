/** Bech32m strings (pkg/address/bech32m.go): a prefix, the separator '1', the payload in
    5-bit words and six checksum words. */
module Bech32m {
  import opened Wrappers
  import P = Positional
  import opened Hex
  import BitGroups
  import C = Bech32mChecksum
  import Seqs

  const CHARSET := "qpzry9x8gf2tvdw0s3jn54khce6mua7l"
  const ADDRESS_LENGTH_LIMIT := 127

  function LastIndexOf(s: string, c: char): (i: int)
    ensures -1 <= i < |s|
    ensures i >= 0 ==> s[i] == c
    ensures forall j | i < j < |s| :: s[j] != c
  {
    if s == "" then -1 else if s[|s| - 1] == c then |s| - 1 else LastIndexOf(s[..|s| - 1], c)
  }

  function CharOf(word: nat): char
    requires word < 32
  {
    CHARSET[word]
  }

  /** The reverse of the character set. */
  function WordOf(c: char): (w: Option<nat>)
    ensures w.Some? ==> w.value < 32 && CharOf(w.value) == c
  {
    if exists w: nat :: w < 32 && CharOf(w) == c then
      CharsetIsDistinct();
      var w: nat :| w < 32 && CharOf(w) == c;
      Some(w)
    else None
  }

  lemma CharsetIsDistinct()
    ensures |CHARSET| == 32 && forall i, j | 0 <= i < j < 32 :: CHARSET[i] != CHARSET[j]
  {
  }

  /** The characters of some 5-bit words. */
  function WordsText(words: seq<nat>): (s: string)
    requires P.AreDigits(words, 32)
    ensures |s| == |words| && forall i | 0 <= i < |s| :: s[i] == CharOf(words[i])
  {
    seq(|words|, i requires 0 <= i < |words| => CharOf(words[i]))
  }

  /** The 5-bit words of some characters, all of which must be in the character set. */
  function TextWords(s: string): (words: Option<seq<nat>>)
    ensures words.Some? <==> forall i | 0 <= i < |s| :: WordOf(s[i]).Some?
    ensures words.Some? ==> |words.value| == |s| && P.AreDigits(words.value, 32)
    ensures words.Some? ==> forall i | 0 <= i < |s| :: words.value[i] == WordOf(s[i]).value
  {
    if forall i | 0 <= i < |s| :: WordOf(s[i]).Some?
    then Some(seq(|s|, i requires 0 <= i < |s| => WordOf(s[i]).value))
    else None
  }

  function Bech32mEncode(hrp: string, data: seq<nat>): Result<string>
    requires P.AreDigits(data, 256)
  {
    BytesToWords(data);
    var words := BitGroups.Padded(data, 8, 5).value;
    var s := hrp + "1" + WordsText(words + C.Checksum(hrp, words));
    if |s| != ADDRESS_LENGTH_LIMIT then Err("invalid encoded address length") else Ok(s)
  }

  function Bech32mDecode(value: string): Result<(string, seq<nat>)> {
    if ToLower(value) != value then Err("mixed-case bech32 string")
    else if Split(value).None? then Err("invalid bech32 separator")
    else DecodeParts(Split(value).value.0, Split(value).value.1)
  }

  /** The parts before and after the last separator, when both are long enough. */
  function Split(value: string): (parts: Option<(string, string)>)
    ensures parts.Some? ==> |parts.value.1| >= 6 && value == parts.value.0 + "1" + parts.value.1
  {
    var separator := LastIndexOf(value, '1');
    if separator < 1 || separator + 7 > |value| then None
    else
      Seqs.SplitAt(value, separator);
      Some((value[..separator], value[separator + 1..]))
  }

  /** Decodes the prefix and the data part, given separately. */
  function DecodeParts(hrp: string, raw: string): Result<(string, seq<nat>)>
    requires |raw| >= 6
  {
    var words := TextWords(raw);
    if words.None? then Err("invalid bech32 character")
    else
      var payload := DecodeWords(hrp, words.value);
      if payload.Err? then Err(payload.reason) else Ok((hrp, payload.value))
  }

  /** Checks the checksum and regroups the words before it. */
  function DecodeWords(hrp: string, words: seq<nat>): Result<seq<nat>>
    requires |words| >= 6
  {
    var payload := BitGroups.Unpadded(words[..|words| - 6], 5, 8);
    if !C.Verifies(hrp, words) then Err("invalid checksum")
    else if payload.None? then Err("invalid padding")
    else Ok(payload.value)
  }

  lemma BytesToWords(data: seq<nat>)
    requires P.AreDigits(data, 256)
    ensures BitGroups.InRange(data, 8)
    ensures var words := BitGroups.Padded(data, 8, 5); words.Some? && P.AreDigits(words.value, 32)
  {
    assert P.Pow(2, 8) == 256 && P.Pow(2, 5) == 32;
    BitGroups.PaddedBits(data, 8, 5);
  }

  lemma WordsToBytes(words: seq<nat>)
    requires BitGroups.Unpadded(words, 5, 8).Some?
    ensures P.AreDigits(BitGroups.Unpadded(words, 5, 8).value, 256)
    ensures BitGroups.InRange(BitGroups.Unpadded(words, 5, 8).value, 8)
  {
    assert P.Pow(2, 8) == 256;
    BitGroups.FlattenOfGroup(BitGroups.Flatten(words, 5), 8);
  }

  /** A decoded payload is a byte string. */
  lemma DecodedIsBytes(value: string)
    requires Bech32mDecode(value).Ok?
    ensures P.AreDigits(Bech32mDecode(value).value.1, 256)
  {
    var raw := Split(value).value.1;
    var words := TextWords(raw).value;
    WordsToBytes(words[..|words| - 6]);
  }

  method EncodeString(hrp: string, data: seq<nat>) returns (r: Result<string>)
    requires P.AreDigits(data, 256)
    ensures r == Bech32mEncode(hrp, data)
  {
    BytesToWords(data);
    var words := BitGroups.ConvertBits(data, 8, 5, true);
    var checksum := C.CreateChecksum(hrp, words.value);
    var text := WriteWords(words.value + checksum);
    var out := hrp + "1" + text;
    if |out| != ADDRESS_LENGTH_LIMIT {
      return Err("invalid encoded address length");
    }
    return Ok(out);
  }

  method WriteWords(words: seq<nat>) returns (text: string)
    requires P.AreDigits(words, 32)
    ensures text == WordsText(words)
  {
    text := "";
    for i := 0 to |words|
      invariant |text| == i && forall j | 0 <= j < i :: text[j] == CharOf(words[j])
    {
      text := text + [CharOf(words[i])];
    }
  }

  method DecodeString(value: string) returns (r: Result<(string, seq<nat>)>)
    ensures r == Bech32mDecode(value)
  {
    if value != ToLower(value) {
      return Err("mixed-case bech32 string");
    }
    var separator := LastIndexOf(value, '1');
    if separator < 1 || separator + 7 > |value| {
      return Err("invalid bech32 separator");
    }
    assert Split(value) == Some((value[..separator], value[separator + 1..]));
    r := DecodeData(value[..separator], value[separator + 1..]);
  }

  method DecodeData(hrp: string, raw: string) returns (r: Result<(string, seq<nat>)>)
    requires |raw| >= 6
    ensures r == DecodeParts(hrp, raw)
  {
    var words := ReadWords(raw);
    if words.None? {
      return Err("invalid bech32 character");
    }
    var payload := CheckWords(hrp, words.value);
    if payload.Err? {
      return Err(payload.reason);
    }
    return Ok((hrp, payload.value));
  }

  method ReadWords(raw: string) returns (r: Option<seq<nat>>)
    ensures r == TextWords(raw)
  {
    var words: seq<nat> := [];
    for i := 0 to |raw|
      invariant |words| == i && forall j | 0 <= j < i :: WordOf(raw[j]) == Some(words[j])
    {
      var v := WordOf(raw[i]);
      if v.None? {
        return None;
      }
      words := words + [v.value];
    }
    assert words == TextWords(raw).value;
    return Some(words);
  }

  method CheckWords(hrp: string, words: seq<nat>) returns (r: Result<seq<nat>>)
    requires |words| >= 6
    ensures r == DecodeWords(hrp, words)
  {
    var ok := C.VerifyChecksum(hrp, words);
    if !ok {
      return Err("invalid checksum");
    }
    var payload := BitGroups.ConvertBits(words[..|words| - 6], 5, 8, false);
    if payload.None? {
      return Err("invalid padding");
    }
    return Ok(payload.value);
  }

  // ----- Encoding and decoding are inverse

  lemma CharsetIsPlain()
    ensures forall i | 0 <= i < 32 :: CHARSET[i] != '1' && !('A' <= CHARSET[i] <= 'Z')
  {
  }

  lemma CharRoundTrip(word: nat)
    requires word < 32
    ensures WordOf(CharOf(word)) == Some(word)
  {
    CharsetIsDistinct();
    assert CharOf(word) == CharOf(word);
  }

  lemma TextRoundTrip(words: seq<nat>)
    requires P.AreDigits(words, 32)
    ensures TextWords(WordsText(words)) == Some(words)
  {
    forall i | 0 <= i < |words| ensures WordOf(WordsText(words)[i]) == Some(words[i]) {
      CharRoundTrip(words[i]);
    }
    assert TextWords(WordsText(words)).value == words;
  }

  lemma TextIsPlain(words: seq<nat>)
    requires P.AreDigits(words, 32)
    ensures '1' !in WordsText(words) && ToLower(WordsText(words)) == WordsText(words)
  {
    CharsetIsPlain();
    forall i | 0 <= i < |words| ensures WordsText(words)[i] != '1' && !('A' <= WordsText(words)[i] <= 'Z') {
      assert WordsText(words)[i] == CHARSET[words[i]];
    }
  }

  lemma WordsRoundTrip(s: string)
    requires TextWords(s).Some?
    ensures WordsText(TextWords(s).value) == s
  {
  }

  /** Five-bit words fit in the checksum register. */
  lemma WordsFit(words: seq<nat>)
    requires P.AreDigits(words, 32)
    ensures C.AllInRegister(words)
  {
    C.SizesOfPowers();
  }

  lemma LastSeparator(hrp: string, text: string)
    requires '1' !in text
    ensures LastIndexOf(hrp + "1" + text, '1') == |hrp|
    ensures hrp != "" && |text| >= 6 ==> Split(hrp + "1" + text) == Some((hrp, text))
  {
    var s := hrp + "1" + text;
    assert s[|hrp|] == '1';
    assert s[..|hrp|] == hrp && s[|hrp| + 1..] == text;
    assert forall i | |hrp| < i < |s| :: s[i] == text[i - |hrp| - 1];
  }

  /** Words that decode are the words of what they decode to, followed by their checksum. */
  lemma WordsOfDecoded(hrp: string, words: seq<nat>)
    requires |words| >= 6 && P.AreDigits(words, 32) && DecodeWords(hrp, words).Ok?
    ensures var payload := DecodeWords(hrp, words).value;
            var pw := BitGroups.Padded(payload, 8, 5);
            && P.AreDigits(payload, 256)
            && pw.Some? && P.AreDigits(pw.value, 32)
            && words == pw.value + C.Checksum(hrp, pw.value)
  {
    var pw, cs := words[..|words| - 6], words[|words| - 6..];
    var payload := DecodeWords(hrp, words).value;
    assert words == pw + cs;
    WordsFit(pw);
    C.ChecksumIsUnique(hrp, pw, cs);
    WordsToBytes(pw);
    BitGroups.RegroupingInverts(pw, payload);
  }

  /** Every accepted string of the right length is the one its content is encoded to. */
  lemma EncodeOfDecode(s: string)
    requires Bech32mDecode(s).Ok? && |s| == ADDRESS_LENGTH_LIMIT
    ensures P.AreDigits(Bech32mDecode(s).value.1, 256)
    ensures Bech32mEncode(Bech32mDecode(s).value.0, Bech32mDecode(s).value.1) == Ok(s)
  {
    var (hrp, raw) := Split(s).value;
    EncodeOfParts(hrp, raw, s);
  }

  lemma EncodeOfParts(hrp: string, raw: string, s: string)
    requires |raw| >= 6 && DecodeParts(hrp, raw).Ok?
    requires s == hrp + "1" + raw && |s| == ADDRESS_LENGTH_LIMIT
    ensures P.AreDigits(DecodeParts(hrp, raw).value.1, 256)
    ensures DecodeParts(hrp, raw).value.0 == hrp
    ensures Bech32mEncode(hrp, DecodeParts(hrp, raw).value.1) == Ok(s)
  {
    WordsOfDecoded(hrp, TextWords(raw).value);
    WordsRoundTrip(raw);
  }

  /** The length of an accepted string follows from its prefix and payload. */
  lemma LengthFromPayload(s: string)
    requires Bech32mDecode(s).Ok?
    ensures var (hrp, payload) := Bech32mDecode(s).value;
            |s| == |hrp| + 1 + (8 * |payload| + 4) / 5 + 6
  {
    var (hrp, raw) := Split(s).value;
    WordsOfDecoded(hrp, TextWords(raw).value);
    PaddedLength(DecodeParts(hrp, raw).value.1);
  }

  lemma PaddedLength(payload: seq<nat>)
    requires P.AreDigits(payload, 256)
    ensures BitGroups.Padded(payload, 8, 5).Some?
    ensures |BitGroups.Padded(payload, 8, 5).value| == (8 * |payload| + 4) / 5
  {
    BytesToWords(payload);
    BitGroups.PaddedBits(payload, 8, 5);
    BitGroups.FlattenLength(payload, 8);
    BitGroups.FlattenLength(BitGroups.Padded(payload, 8, 5).value, 5);
  }

  lemma DecodeOfWords(hrp: string, pw: seq<nat>, data: seq<nat>)
    requires P.AreDigits(data, 256)
    requires BitGroups.Padded(data, 8, 5) == Some(pw) && P.AreDigits(pw, 32)
    ensures DecodeWords(hrp, pw + C.Checksum(hrp, pw)) == Ok(data)
  {
    var words := pw + C.Checksum(hrp, pw);
    assert words[..|words| - 6] == pw;
    WordsFit(pw);
    C.ChecksumVerifies(hrp, pw);
    BytesToWords(data);
    BitGroups.RegroupingInverts(pw, data);
  }

  /** Encoding a lower-case prefix and a payload gives a string that decodes to them. */
  lemma DecodeOfEncode(hrp: string, data: seq<nat>)
    requires P.AreDigits(data, 256)
    requires Bech32mEncode(hrp, data).Ok? && hrp != "" && ToLower(hrp) == hrp
    ensures Bech32mDecode(Bech32mEncode(hrp, data).value) == Ok((hrp, data))
  {
    BytesToWords(data);
    var pw := BitGroups.Padded(data, 8, 5).value;
    var words := pw + C.Checksum(hrp, pw);
    var text := WordsText(words);
    TextRoundTrip(words);
    TextIsPlain(words);
    DecodeOfWords(hrp, pw, data);
    DecodeOfText(hrp, words, text, data);
  }

  lemma DecodeOfText(hrp: string, words: seq<nat>, text: string, data: seq<nat>)
    requires hrp != "" && ToLower(hrp) == hrp && ToLower(text) == text && '1' !in text
    requires |words| >= 6 && TextWords(text) == Some(words) && DecodeWords(hrp, words) == Ok(data)
    ensures Bech32mDecode(hrp + "1" + text) == Ok((hrp, data))
  {
    var s := hrp + "1" + text;
    LastSeparator(hrp, text);
    LowerConcat(hrp, text);
  }

  lemma LowerConcat(hrp: string, text: string)
    requires ToLower(hrp) == hrp && ToLower(text) == text
    ensures ToLower(hrp + "1" + text) == hrp + "1" + text
  {
    var s := hrp + "1" + text;
    forall i | 0 <= i < |s| ensures ToLower(s)[i] == s[i] {
      if i < |hrp| {
        assert ToLower(hrp)[i] == hrp[i];
      } else if i > |hrp| {
        assert ToLower(text)[i - |hrp| - 1] == text[i - |hrp| - 1];
      }
    }
  }

  // ----- Errors are noticed

  /** Two accepted strings with the same prefix that differ at most inside six neighbouring
      characters of the data part are the same string. */
  lemma NeighboursAreRejected(hrp: string, before: string, a: string, b: string, after: string)
    requires |a| == |b| <= 6
    requires Bech32mDecode(hrp + "1" + (before + a + after)).Ok?
    requires Bech32mDecode(hrp + "1" + (before + b + after)).Ok?
    requires '1' !in before + a + after && '1' !in before + b + after
    ensures a == b
  {
    DataVerifies(hrp, before + a + after);
    DataVerifies(hrp, before + b + after);
    WordsOfParts(before, a, after);
    WordsOfParts(before, b, after);
    var v, w, x, y := TextWords(before).value, TextWords(a).value, TextWords(b).value, TextWords(after).value;
    WordsFit(v);
    WordsFit(y);
    C.BurstsAreDetected(hrp, v, w, x, y);
    WordsRoundTrip(a);
    WordsRoundTrip(b);
  }

  lemma DataVerifies(hrp: string, text: string)
    requires Bech32mDecode(hrp + "1" + text).Ok? && '1' !in text
    ensures TextWords(text).Some? && C.Verifies(hrp, TextWords(text).value)
  {
    LastSeparator(hrp, text);
    assert |hrp + "1" + text| == |hrp| + 1 + |text|;
  }

  lemma WordsOfParts(before: string, a: string, after: string)
    requires TextWords(before + a + after).Some?
    ensures TextWords(before).Some? && TextWords(a).Some? && TextWords(after).Some?
    ensures TextWords(before + a + after).value
         == TextWords(before).value + TextWords(a).value + TextWords(after).value
  {
    var s := before + a + after;
    forall i | 0 <= i < |before| ensures WordOf(before[i]).Some? { assert s[i] == before[i]; }
    forall i | 0 <= i < |a| ensures WordOf(a[i]).Some? { assert s[|before| + i] == a[i]; }
    forall i | 0 <= i < |after| ensures WordOf(after[i]).Some? { assert s[|before| + |a| + i] == after[i]; }
  }
}
