/** What decrypting an annotation gives back, for every key, initial value and cipher, and for
    names of every length. */
module AnnotationTheorems {
  import opened Wrappers
  import opened Hex
  import opened CtrBlocks
  import opened WalletSource
  import opened Annotation
  import P = Positional
  import Seqs

  // ----- Cutting hex text at bytes

  lemma {:induction false} HexSlice(bytes: seq<Byte>, a: nat, b: nat)
    requires a <= b <= |bytes|
    ensures BytesToHex(bytes)[2 * a..2 * b] == BytesToHex(bytes[a..b])
  {
    Seqs.Halves(bytes, b);
    Seqs.Halves(bytes[..b], a);
    BytesToHexConcat(bytes[..b], bytes[b..]);
    BytesToHexConcat(bytes[..b][..a], bytes[..b][a..]);
    assert bytes[..b][a..] == bytes[a..b];
  }

  lemma ConcatOfThree(a: string, b: string, c: string, x: seq<Byte>, y: seq<Byte>, z: seq<Byte>)
    requires BytesOf(a) == Some(x) && BytesOf(b) == Some(y) && BytesOf(c) == Some(z)
    ensures Concat([a, b, c]) == Some(x + y + z) && Lengths([a, b, c]) == [|x|, |y|, |z|]
  {
    var s := [a, b, c];
    ConcatNext(s, 0);
    ConcatNext(s, 1);
    ConcatNext(s, 2);
    Seqs.Whole(s);
    assert [] + x == x;
  }

  lemma CutOfThree(bytes: seq<Byte>, i: nat, j: nat, k: nat)
    requires i + j + k == |bytes|
    ensures Sum([i, j, k]) == |bytes|
    ensures Cut(bytes, [i, j, k]) == [bytes[..i], bytes[i..i + j], bytes[i + j..]]
  {
    SumOfThree(i, j, k);
    CutSnoc(bytes, [], i, [i], 0);
    CutSnoc(bytes, [i], j, [i, j], i);
    CutSnoc(bytes, [i, j], k, [i, j, k], i + j);
    assert bytes[i + j..i + j + k] == bytes[i + j..];
    assert bytes[0..0 + i] == bytes[..i];
  }

  lemma SumOfThree(i: nat, j: nat, k: nat)
    ensures Sum([]) == 0 && Sum([i]) == i && Sum([i, j]) == i + j && Sum([i, j, k]) == i + j + k
  {
    SumSnoc([], i);
    SumSnoc([i], j);
    SumSnoc([i, j], k);
    assert [] + [i] == [i] && [i] + [j] == [i, j] && [i, j] + [k] == [i, j, k];
  }

  lemma SplitOfThree(bytes: seq<Byte>, i: nat, j: nat, k: nat)
    requires i + j + k == |bytes|
    ensures Sum([i, j, k]) == |bytes|
    ensures Split(bytes, [i, j, k]) == [BytesToHex(bytes[..i]), BytesToHex(bytes[i..i + j]), BytesToHex(bytes[i + j..])]
  {
    CutOfThree(bytes, i, j, k);
  }

  // ----- What was written can be read

  lemma HexJoins(iv: seq<Byte>, x: seq<Byte>, y: seq<Byte>, z: seq<Byte>)
    ensures BytesToHex(iv) + BytesToHex(x) + BytesToHex(y) + BytesToHex(z) == BytesToHex(iv + (x + y + z))
  {
    BytesToHexConcat(iv, x);
    BytesToHexConcat(iv + x, y);
    BytesToHexConcat(iv + x + y, z);
    Seqs.Assoc(iv, x, y);
    Seqs.Assoc(iv, x + y, z);
  }

  lemma CryptIsSplit(ks: Keystream, key: seq<Byte>, iv: seq<Byte>, f: seq<string>, bytes: seq<Byte>, lengths: seq<nat>)
    requires Concat(f) == Some(bytes) && Lengths(f) == lengths
    ensures Sum(lengths) == |bytes| && Crypt(ks, key, iv, f) == Split(XorStream(ks(key, iv), bytes), lengths)
  {
    LengthsAddUp(f);
  }

  /** Three blocks under the cipher: the parts of the encrypted bytes. */
  lemma CryptOfThree(ks: Keystream, key: seq<Byte>, iv: seq<Byte>, f: seq<string>, p: seq<Byte>, c: seq<Byte>,
                     i: nat, j: nat, k: nat, lengths: seq<nat>)
    requires Concat(f) == Some(p) && Lengths(f) == lengths && lengths == [i, j, k] && i + j + k == |p|
    requires c == XorStream(ks(key, iv), p)
    ensures Crypt(ks, key, iv, f) == [BytesToHex(c[..i]), BytesToHex(c[i..i + j]), BytesToHex(c[i + j..])]
  {
    CryptIsSplit(ks, key, iv, f, p, lengths);
    SplitOfThree(c, i, j, k);
  }

  // ----- The blocks that decryption cuts

  const CUT := 48

  /** How many of the encrypted bytes are read: three blocks of 16 at most. */
  function ReadBytes(length: nat): nat {
    Min(length, CUT)
  }

  lemma TextSlices(iv: seq<Byte>, c: seq<Byte>, end: nat)
    requires |iv| == 16 && 32 <= end <= |c|
    ensures var h := BytesToHex(iv + c);
            |h| == 32 + 2 * |c| && h[0..32] == BytesToHex(iv) && h[32..64] == BytesToHex(c[..16])
    ensures var h := BytesToHex(iv + c);
            |h| == 32 + 2 * |c| && h[64..96] == BytesToHex(c[16..32]) && h[96..32 + 2 * end] == BytesToHex(c[32..end])
  {
    var all := iv + c;
    SliceBehind(iv, c, end);
    HexSlice(all, 0, 16);
    HexSlice(all, 16, 32);
    HexSlice(all, 32, 48);
    HexSlice(all, 48, 16 + end);
  }

  lemma SliceBehind<T>(iv: seq<T>, c: seq<T>, end: nat)
    requires |iv| == 16 && 32 <= end <= |c|
    ensures (iv + c)[0..16] == iv && (iv + c)[16..32] == c[..16]
    ensures (iv + c)[32..48] == c[16..32] && (iv + c)[48..16 + end] == c[32..end]
  {
  }

  lemma BlocksOfText(iv: seq<Byte>, c: seq<Byte>, end: nat)
    requires |iv| == 16 && |c| >= 46 && end == ReadBytes(|c|)
    ensures var h := BytesToHex(iv + c);
            && |h| >= 124 && h[..32] == BytesToHex(iv)
            && DataBlocks(h) == [BytesToHex(c[..16]), BytesToHex(c[16..32]), BytesToHex(c[32..end])]
  {
    TextSlices(iv, c, end);
    BlocksOfLength(BytesToHex(iv + c), 32 + 2 * end);
  }

  lemma BlocksOfLength(h: string, end: nat)
    requires |h| >= 124 && end == Min(|h|, 128)
    ensures h[..32] == h[0..32] && DataBlocks(h) == [h[32..64], h[64..96], h[96..end]]
  {
  }

  lemma ConcatOfBytes(x: seq<Byte>, y: seq<Byte>, z: seq<Byte>, f: seq<string>, lengths: seq<nat>)
    requires f == [BytesToHex(x), BytesToHex(y), BytesToHex(z)] && lengths == [|x|, |y|, |z|]
    ensures Concat(f) == Some(x + y + z) && Lengths(f) == lengths
  {
    KeyReadsBack(x);
    KeyReadsBack(y);
    KeyReadsBack(z);
    ConcatOfThree(BytesToHex(x), BytesToHex(y), BytesToHex(z), x, y, z);
  }

  lemma DecryptSplit(ks: Keystream, key: seq<Byte>, iv: seq<Byte>, f: seq<string>, c: seq<Byte>, p: seq<Byte>,
                     i: nat, j: nat, k: nat, lengths: seq<nat>)
    requires Concat(f) == Some(c) && Lengths(f) == lengths && lengths == [i, j, k] && i + j + k == |c|
    requires c == XorStream(ks(key, iv), p)
    ensures Crypt(ks, key, iv, f) == [BytesToHex(p[..i]), BytesToHex(p[i..i + j]), BytesToHex(p[i + j..])]
  {
    XorStreamTwice(ks(key, iv), p);
    CryptOfThree(ks, key, iv, f, c, p, i, j, k, lengths);
  }

  lemma OpenedBlocks(ks: Keystream, h: string, key: seq<Byte>, iv: seq<Byte>, blocks: seq<string>)
    requires |h| >= 64 && |key| == 32 && FixedBytesFromHex(h[..32], 16) == Some(iv)
    requires DataBlocks(h) == blocks && Concat(blocks).Some?
    ensures OpenedText(ks, h, key) == FromBlocks(Crypt(ks, key, iv, blocks))
  {
  }

  /** A stream does not look ahead. */
  lemma StreamOfPrefix(stream: nat -> nat, p: seq<Byte>, end: nat)
    requires end <= |p|
    ensures XorStream(stream, p)[..end] == XorStream(stream, p[..end])
  {
  }

  /** Decryption: the plaintext bytes, cut elsewhere, and no more than three full blocks. */
  lemma OpenedThree(ks: Keystream, key: seq<Byte>, iv: seq<Byte>, p: seq<Byte>, c: seq<Byte>, end: nat)
    requires |key| == 32 && |iv| == 16 && |p| >= 46 && c == XorStream(ks(key, iv), p) && end == ReadBytes(|p|)
    ensures OpenedText(ks, BytesToHex(iv + c), key)
         == FromBlocks([BytesToHex(p[..16]), BytesToHex(p[16..32]), BytesToHex(p[32..end])])
  {
    var f := [BytesToHex(c[..16]), BytesToHex(c[16..32]), BytesToHex(c[32..end])];
    BlocksOfText(iv, c, end);
    KeyReadsBack(iv);
    ConcatCut(c, end, f);
    CryptCut(ks, key, iv, p, c, end, f);
    OpenedBlocks(ks, BytesToHex(iv + c), key, iv, f);
  }

  lemma ConcatCut(c: seq<Byte>, end: nat, f: seq<string>)
    requires 32 <= end <= |c| && f == [BytesToHex(c[..16]), BytesToHex(c[16..32]), BytesToHex(c[32..end])]
    ensures Concat(f) == Some(c[..end]) && Lengths(f) == [16, 16, end - 32]
  {
    PartsOfPrefix(c, end);
    ConcatOfBytes(c[..16], c[16..32], c[32..end], f, [16, 16, end - 32]);
  }

  lemma CryptCut(ks: Keystream, key: seq<Byte>, iv: seq<Byte>, p: seq<Byte>, c: seq<Byte>, end: nat, f: seq<string>)
    requires 32 <= end <= |p| && c == XorStream(ks(key, iv), p)
    requires Concat(f) == Some(c[..end]) && Lengths(f) == [16, 16, end - 32]
    ensures Crypt(ks, key, iv, f) == [BytesToHex(p[..16]), BytesToHex(p[16..32]), BytesToHex(p[32..end])]
  {
    StreamOfPrefix(ks(key, iv), p, end);
    PartsOfPrefix(p, end);
    DecryptSplit(ks, key, iv, f, c[..end], p[..end], 16, 16, end - 32, [16, 16, end - 32]);
  }

  lemma PartsOfPrefix<T>(c: seq<T>, end: nat)
    requires 32 <= end <= |c|
    ensures c[..16] + c[16..32] + c[32..end] == c[..end]
    ensures c[..end][..16] == c[..16] && c[..end][16..32] == c[16..32] && c[..end][32..] == c[32..end]
  {
  }

  lemma ThreeParts<T>(c: seq<T>, i: nat, j: nat)
    requires i <= j <= |c|
    ensures c[..i] + c[i..j] + c[j..] == c
  {
  }

  /** Hex text of an odd length is read with a zero in front. */
  function Evened(s: string): (g: string)
    ensures |g| % 2 == 0 && |s| <= |g| <= |s| + 1
  {
    if |s| % 2 == 1 then Hex.Zeros(1) + s else s
  }

  lemma EvenedIsLower(s: string)
    requires IsLowerHex(s)
    ensures IsLowerHex(Evened(s))
  {
  }

  /** A lower-case hex text as bytes. */
  lemma TextAsBytes(s: string) returns (bytes: seq<Byte>)
    requires s != "" && IsLowerHex(s)
    ensures BytesOf(s) == Some(bytes) && 2 * |bytes| == |Evened(s)| && BytesToHex(bytes) == Evened(s)
  {
    StripDigits(s);
    EvenedIsLower(s);
    EncodeOfDecode(Evened(s));
    EvenedAsRead(s);
    bytes := DecodeHex(Evened(s)).value;
  }

  lemma EvenedAsRead(s: string)
    ensures Evened(s) == if |s| % 2 == 1 then "0" + s else s
  {
    assert Hex.Zeros(1) == "0";
  }

  /** Encryption: the initial value and the encrypted bytes as one text. */
  lemma CreatedThree(ks: Keystream, key: seq<Byte>, iv: seq<Byte>, a: string, b: string, d: string,
                     x: seq<Byte>, y: seq<Byte>, z: seq<Byte>, c: seq<Byte>)
    requires BytesOf(a) == Some(x) && BytesOf(b) == Some(y) && BytesOf(d) == Some(z)
    requires c == XorStream(ks(key, iv), x + y + z)
    ensures Concat([a, b, d]).Some?
    ensures var data := Crypt(ks, key, iv, [a, b, d]);
            BytesToHex(iv) + data[0] + data[1] + data[2] == BytesToHex(iv + c)
  {
    ConcatOfThree(a, b, d, x, y, z);
    CryptOfThree(ks, key, iv, [a, b, d], x + y + z, c, |x|, |y|, |z|, [|x|, |y|, |z|]);
    HexJoins(iv, c[..|x|], c[|x|..|x| + |y|], c[|x| + |y|..]);
    ThreeParts(c, |x|, |x| + |y|);
  }

  /** The fields come back from the other cut: the first whole, the last without its first byte and
      without what lies behind the third block. */
  lemma FieldsComeBack(ks: Keystream, key: seq<Byte>, iv: seq<Byte>, f0: string, f1: string, f2: string, g: string)
    requires |key| == 32 && |iv| == 16 && |f0| == 32 && |f1| == 30 && |f2| >= 30 && g == Evened(f2)
    requires IsLowerHex(f0) && IsLowerHex(f1) && IsLowerHex(f2)
    ensures Concat([f0, f1, f2]).Some?
    ensures var data := Crypt(ks, key, iv, [f0, f1, f2]);
            OpenedText(ks, BytesToHex(iv) + data[0] + data[1] + data[2], key)
            == FromBlocks([f0, f1 + g[..2], g[2..Min(|g|, 34)]])
    ensures var data := Crypt(ks, key, iv, [f0, f1, f2]);
            var text := BytesToHex(iv) + data[0] + data[1] + data[2];
            text != "" && Strip0x(text) == text
  {
    var x := TextAsBytes(f0);
    var y := TextAsBytes(f1);
    var z := TextAsBytes(f2);
    var c := XorStream(ks(key, iv), x + y + z);
    CreatedThree(ks, key, iv, f0, f1, f2, x, y, z, c);
    BytesComeBack(ks, key, iv, x, y, z, c, f0, f1, g);
  }

  lemma BytesComeBack(ks: Keystream, key: seq<Byte>, iv: seq<Byte>, x: seq<Byte>, y: seq<Byte>, z: seq<Byte>,
                      c: seq<Byte>,
                      f0: string, f1: string, g: string)
    requires |key| == 32 && |iv| == 16 && |x| == 16 && |y| == 15 && |z| >= 15 && c == XorStream(ks(key, iv), x + y + z)
    requires BytesToHex(x) == f0 && BytesToHex(y) == f1 && BytesToHex(z) == g
    ensures OpenedText(ks, BytesToHex(iv + c), key) == FromBlocks([f0, f1 + g[..2], g[2..Min(|g|, 34)]])
    ensures BytesToHex(iv + c) != "" && Strip0x(BytesToHex(iv + c)) == BytesToHex(iv + c)
  {
    OpenedElsewhere(ks, key, iv, x, y, z, x + y + z, c, Min(|z|, 17));
    TextIsStripped(iv + c);
  }

  lemma OpenedElsewhere(ks: Keystream, key: seq<Byte>, iv: seq<Byte>, x: seq<Byte>, y: seq<Byte>, z: seq<Byte>,
                        p: seq<Byte>, c: seq<Byte>, end: nat)
    requires |key| == 32 && |iv| == 16 && |x| == 16 && |y| == 15 && |z| >= 15 && p == x + y + z && end == Min(|z|, 17)
    requires c == XorStream(ks(key, iv), p)
    ensures OpenedText(ks, BytesToHex(iv + c), key)
         == FromBlocks([BytesToHex(x), BytesToHex(y) + BytesToHex(z)[..2], BytesToHex(z)[2..2 * end]])
  {
    OpenedThree(ks, key, iv, p, c, 31 + end);
    CutElsewhere(x, y, z, end);
  }

  lemma TextIsStripped(bytes: seq<Byte>)
    requires bytes != []
    ensures BytesToHex(bytes) != "" && Strip0x(BytesToHex(bytes)) == BytesToHex(bytes)
  {
    BytesToHexIsLower(bytes);
    StripDigits(BytesToHex(bytes));
  }

  lemma CutElsewhere(x: seq<Byte>, y: seq<Byte>, z: seq<Byte>, end: nat)
    requires |x| == 16 && |y| == 15 && 1 <= end <= |z|
    ensures var p := x + y + z;
            && BytesToHex(p[..16]) == BytesToHex(x)
            && BytesToHex(p[16..32]) == BytesToHex(y) + BytesToHex(z)[..2]
            && BytesToHex(p[32..31 + end]) == BytesToHex(z)[2..2 * end]
  {
    PartsElsewhere(x, y, z, end);
    BytesToHexConcat(y, z[0..1]);
    HexSlice(z, 0, 1);
    HexSlice(z, 1, end);
    FirstTwo(BytesToHex(z));
  }

  lemma FirstTwo(h: string)
    requires |h| >= 2
    ensures h[0..2] == h[..2]
  {
  }

  lemma PartsElsewhere<T>(x: seq<T>, y: seq<T>, z: seq<T>, end: nat)
    requires |x| == 16 && |y| == 15 && 1 <= end <= |z|
    ensures (x + y + z)[..16] == x && (x + y + z)[16..32] == y + z[0..1] && (x + y + z)[32..31 + end] == z[1..end]
  {
  }

  // ----- Names as numbers

  /** The number of a name; none stands for zero. */
  function NameNumber(walletSource: string): nat
    requires InCharset(ToLower(walletSource))
  {
    if walletSource == "" then 0 else SourceNumber(walletSource)
  }

  /** The digits of the last field as they are encrypted. */
  function LastField(n: nat): (g: string)
    ensures |g| >= 30 && |g| % 2 == 0
  {
    Evened(PadField(OddHex(n)))
  }

  /** The number that is read of the last field: without its first byte, and at most 16 bytes of it. */
  function NumberRead(n: nat): nat {
    LastFieldIsLower(n);
    ReadPart(LastField(n))
  }

  function ReadPart(g: string): nat
    requires IsLowerHex(g) && |g| >= 2
  {
    var part := g[2..Min(|g|, 34)];
    assert AllDigits(part, 16);
    P.Value(Digits(part, 16), 16)
  }

  lemma ZerosInFront(s: string, k: nat)
    requires IsLowerHex(s)
    ensures IsLowerHex(Hex.Zeros(k) + s) && P.Value(Digits(Hex.Zeros(k) + s, 16), 16) == P.Value(Digits(s, 16), 16)
  {
    assert Digits(Hex.Zeros(k) + s, 16) == P.Zeros(k) + Digits(s, 16);
    P.LeadingZerosVanish(k, Digits(s, 16), 16);
  }

  lemma PaddedField(s: string, n: nat)
    requires IsLowerHex(s) && P.Value(Digits(s, 16), 16) == n
    ensures IsLowerHex(PadField(s)) && P.Value(Digits(PadField(s), 16), 16) == n
  {
    if |s| < FIELD_DIGITS {
      ZerosInFront(s, FIELD_DIGITS - |s|);
    }
  }

  lemma EvenedValue(s: string, n: nat)
    requires IsLowerHex(s) && P.Value(Digits(s, 16), 16) == n
    ensures IsLowerHex(Evened(s)) && P.Value(Digits(Evened(s), 16), 16) == n
  {
    if |s| % 2 == 1 {
      ZerosInFront(s, 1);
    }
  }

  lemma LastFieldIsLower(n: nat)
    ensures IsLowerHex(LastField(n)) && P.Value(Digits(LastField(n), 16), 16) == n
  {
    OddHexDigits(n);
    PaddedField(OddHex(n), n);
    EvenedValue(PadField(OddHex(n)), n);
  }

  lemma ReadPartReads(g: string)
    requires IsLowerHex(g) && |g| >= 30
    ensures HexToBigInt(g[2..Min(|g|, 34)]) == Some(ReadPart(g))
  {
    ParseDigits(g[2..Min(|g|, 34)]);
  }

  lemma EmptyNameField()
    ensures PadField("") == PadField(OddHex(0))
  {
    var none: string := "";
    assert BigIntText(0, 16) == "0" by {
      assert P.Minimal(0, 16) == [];
    }
    assert OddHex(0) == Hex.Zeros(1);
    assert Hex.Zeros(FIELD_DIGITS - 1) + Hex.Zeros(1) == Hex.Zeros(FIELD_DIGITS) == Hex.Zeros(FIELD_DIGITS) + none;
  }

  lemma NameField(walletSource: string)
    requires InCharset(ToLower(walletSource))
    ensures Encoded(walletSource).Some? && PadField(Encoded(walletSource).value)
        == PadField(OddHex(NameNumber(walletSource)))
  {
    if walletSource == "" {
      EmptyNameField();
    }
  }

  lemma NameFieldIsLower(n: nat)
    ensures var f2 := PadField(OddHex(n)); IsLowerHex(f2) && |f2| >= 30 && Evened(f2) == LastField(n)
  {
    OddHexDigits(n);
    PaddedField(OddHex(n), n);
  }

  /** The name that is read: the characters of the number that is read. */
  function NameRead(walletSource: string): string
    requires InCharset(ToLower(walletSource))
  {
    Chars(P.Minimal(NumberRead(NameNumber(walletSource)), BASE))
  }

  // ----- When annotations can be created

  lemma TypeField(outputType: nat)
    ensures BigIntToHex(outputType, 1).Some?
    ensures var t := BigIntToHex(outputType, 1).value;
            |t| == 2 && IsLowerHex(t) && HexToBigInt(t) == Some(outputType % 256)
  {
    BigIntToHexRoundTrip(outputType, 1);
    assert P.Pow(16, 2) == 256;
  }

  /** The first field is hex exactly when the random has no sign. */
  lemma FirstFieldIff(typeHex: string, random: string)
    requires |typeHex| == 2 && IsLowerHex(typeHex) && |random| == 30 && IsLower(random) && IsPlain(random)
    ensures BytesOf(typeHex + random).Some? <==> AllDigits(random, 16)
  {
    JoinedDigitsIff(typeHex, random);
    PlainBytesIff(typeHex + random);
  }

  lemma PlainBytesIff(s: string)
    requires IsPlain(s) && |s| % 2 == 0
    ensures BytesOf(s).Some? <==> AllDigits(s, 16)
  {
    StripPlain(s);
  }

  lemma JoinedDigitsIff(a: string, b: string)
    requires AllDigits(a, 16) && IsPlain(b)
    ensures IsPlain(a + b) && (AllDigits(a + b, 16) <==> AllDigits(b, 16))
  {
    if AllDigits(a + b, 16) {
      forall i | 0 <= i < |b| ensures CharDigit(b[i]).Some? && CharDigit(b[i]).value < 16 {
        assert (a + b)[|a| + i] == b[i];
      }
    }
  }

  /** The values that make up an annotation. */
  predicate CanBeCreated(outputType: int, senderRandom: string, walletSource: string, key: seq<Byte>, ivHex: string) {
    && |key| == 32 && FixedBytesFromHex(ivHex, 16).Some? && outputType >= 0
    && FormatHexToByteLength(senderRandom, 15).Some? && AllDigits(FormatHexToByteLength(senderRandom, 15).value, 16)
    && InCharset(ToLower(walletSource))
  }

  lemma ThreeBlocksConcat(f0: string, f1: string, f2: string)
    requires f1 != "" && f2 != "" && IsLowerHex(f1) && IsLowerHex(f2)
    ensures Concat([f0, f1, f2]).Some? <==> BytesOf(f0).Some?
  {
    var y := TextAsBytes(f1);
    var z := TextAsBytes(f2);
    var s := [f0, f1, f2];
    ConcatNext(s, 0);
    ConcatNext(s, 1);
    ConcatNext(s, 2);
    Seqs.Whole(s);
  }

  lemma FieldsAre(outputType: nat, senderRandom: string, walletSource: string, typeHex: string, random: string,
                  f2: string)
    requires BigIntToHex(outputType, 1) == Some(typeHex) && FormatHexToByteLength(senderRandom, 15) == Some(random)
    requires Encoded(walletSource).Some? && PadField(Encoded(walletSource).value) == f2
    ensures Fields(outputType, senderRandom, walletSource) == Some([typeHex + random, Hex.Zeros(FIELD_DIGITS), f2])
  {
  }

  lemma FieldsConcatIff(outputType: nat, senderRandom: string, walletSource: string, random: string)
    requires FormatHexToByteLength(senderRandom, 15) == Some(random) && InCharset(ToLower(walletSource))
    ensures Fields(outputType, senderRandom, walletSource).Some?
    ensures Concat(Fields(outputType, senderRandom, walletSource).value).Some? <==> AllDigits(random, 16)
  {
    TypeField(outputType);
    FormattedIsPlain(senderRandom, 15);
    NameField(walletSource);
    NameFieldIsLower(NameNumber(walletSource));
    var typeHex, f2 := BigIntToHex(outputType, 1).value, PadField(OddHex(NameNumber(walletSource)));
    FieldsAre(outputType, senderRandom, walletSource, typeHex, random, f2);
    FirstFieldIff(typeHex, random);
    ZerosAreLower(FIELD_DIGITS);
    ThreeBlocksConcat(typeHex + random, Hex.Zeros(FIELD_DIGITS), f2);
  }

  lemma ZerosAreLower(k: nat)
    ensures IsLowerHex(Hex.Zeros(k)) && |Hex.Zeros(k)| == k
  {
  }

  lemma FieldsNeed(outputType: int, senderRandom: string, walletSource: string)
    ensures Fields(outputType, senderRandom, walletSource).Some? ==>
              outputType >= 0 && FormatHexToByteLength(senderRandom, 15).Some? && InCharset(ToLower(walletSource))
  {
  }

  /** An annotation is created exactly when key and initial value have their lengths, the output
      type is not negative, the random is hex without a sign and the name has allowed characters;
      there is no limit on the length of the name. */
  lemma CreatedIff(ks: Keystream, outputType: int, senderRandom: string, walletSource: string, key: seq<Byte>,
                   ivHex: string)
    ensures Created(ks, outputType, senderRandom, walletSource, key, ivHex).Some?
       <==> CanBeCreated(outputType, senderRandom, walletSource, key, ivHex)
  {
    FieldsNeed(outputType, senderRandom, walletSource);
    if outputType >= 0 && FormatHexToByteLength(senderRandom, 15).Some? && InCharset(ToLower(walletSource)) {
      FieldsConcatIff(outputType, senderRandom, walletSource, FormatHexToByteLength(senderRandom, 15).value);
    }
  }

  // ----- What is read

  lemma DecodedNumber(s: string, n: nat)
    requires HexToBigInt(s) == Some(n)
    ensures Decoded(s) == Some(Chars(P.Minimal(n, BASE)))
  {
  }

  lemma BlocksRead(b0: string, b1: string, b2: string, typeHex: string, random: string, t: nat, name: string)
    requires b0 == typeHex + random && |typeHex| == 2 && |random| == 30
    requires HexToBigInt(typeHex) == Some(t) && Decoded(b2) == Some(name)
    ensures FromBlocks([b0, b1, b2]) == Some(AnnotationData(t, random, name))
  {
    TypeAndRandom(typeHex, random);
  }

  lemma TypeAndRandom(typeHex: string, random: string)
    requires |typeHex| == 2 && |random| == 30
    ensures (typeHex + random)[..2] == typeHex && (typeHex + random)[2..32] == random
  {
  }

  lemma FieldsRead(ks: Keystream, key: seq<Byte>, iv: seq<Byte>, typeHex: string, random: string, f2: string, g: string,
                   t: nat, n: nat)
    requires |key| == 32 && |iv| == 16
    requires |typeHex| == 2 && IsLowerHex(typeHex) && HexToBigInt(typeHex) == Some(t)
    requires |random| == 30 && IsLowerHex(random)
    requires |f2| >= 30 && IsLowerHex(f2) && g == Evened(f2) && HexToBigInt(g[2..Min(|g|, 34)]) == Some(n)
    ensures var f := [typeHex + random, Hex.Zeros(FIELD_DIGITS), f2];
            && Concat(f).Some?
            && var data := Crypt(ks, key, iv, f);
               Opened(ks, BytesToHex(iv) + data[0] + data[1] + data[2], key)
               == Some(AnnotationData(t, random, Chars(P.Minimal(n, BASE))))
  {
    ZerosAreLower(FIELD_DIGITS);
    FieldsComeBack(ks, key, iv, typeHex + random, Hex.Zeros(FIELD_DIGITS), f2, g);
    DecodedNumber(g[2..Min(|g|, 34)], n);
    BlocksRead(typeHex + random, Hex.Zeros(FIELD_DIGITS) + g[..2], g[2..Min(|g|, 34)], typeHex, random, t,
               Chars(P.Minimal(n, BASE)));
  }

  lemma CreatedOfFields(ks: Keystream, outputType: int, senderRandom: string, walletSource: string,
                        key: seq<Byte>, ivHex: string, iv: seq<Byte>, f: seq<string>)
    requires Fields(outputType, senderRandom, walletSource) == Some(f) && |f| == 3 && Concat(f).Some?
    requires FixedBytesFromHex(ivHex, 16) == Some(iv) && |key| == 32
    ensures var data := Crypt(ks, key, iv, f);
            Created(ks, outputType, senderRandom, walletSource, key, ivHex)
            == Some(BytesToHex(iv) + data[0] + data[1] + data[2])
  {
  }

  lemma NameIsReadable(n: nat)
    ensures var g := LastField(n); |g| >= 30 && HexToBigInt(g[2..Min(|g|, 34)]) == Some(NumberRead(n))
  {
    LastFieldIsLower(n);
    ReadPartReads(LastField(n));
  }

  lemma DigitsAreLower(random: string)
    requires IsLower(random) && AllDigits(random, 16)
    ensures IsLowerHex(random)
  {
  }

  lemma ReadsBack(ks: Keystream, outputType: nat, senderRandom: string, walletSource: string, key: seq<Byte>,
                  ivHex: string,
                  random: string, typeHex: string, f2: string, n: nat)
    requires |key| == 32 && FixedBytesFromHex(ivHex, 16).Some? && InCharset(ToLower(walletSource))
    requires FormatHexToByteLength(senderRandom, 15) == Some(random) && |random| == 30 && IsLowerHex(random)
    requires BigIntToHex(outputType, 1) == Some(typeHex) && n == NameNumber(walletSource) && f2 == PadField(OddHex(n))
    ensures Created(ks, outputType, senderRandom, walletSource, key, ivHex).Some?
    ensures Opened(ks, Created(ks, outputType, senderRandom, walletSource, key, ivHex).value, key)
         == Some(AnnotationData(outputType % 256, random, NameRead(walletSource)))
  {
    TypeField(outputType);
    NameFieldIsLower(n);
    NameIsReadable(n);
    var iv := FixedBytesFromHex(ivHex, 16).value;
    FieldsRead(ks, key, iv, typeHex, random, f2, LastField(n), outputType % 256, NumberRead(n));
    NameField(walletSource);
    FieldsAre(outputType, senderRandom, walletSource, typeHex, random, f2);
    CreatedOfFields(ks, outputType, senderRandom, walletSource, key, ivHex, iv,
                    [typeHex + random, Hex.Zeros(FIELD_DIGITS), f2]);
  }

  /** Whatever was created: the output type is read modulo 256, the random as it was formatted, and
      the name from the part of its number that is read. */
  lemma AnnotationIsRead(ks: Keystream, outputType: int, senderRandom: string, walletSource: string,
                         key: seq<Byte>, ivHex: string)
    requires Created(ks, outputType, senderRandom, walletSource, key, ivHex).Some?
    ensures outputType >= 0 && FormatHexToByteLength(senderRandom, 15).Some? && InCharset(ToLower(walletSource))
    ensures Opened(ks, Created(ks, outputType, senderRandom, walletSource, key, ivHex).value, key)
         == Some(AnnotationData(outputType % 256, FormatHexToByteLength(senderRandom, 15).value,
             NameRead(walletSource)))
  {
    CreatedIff(ks, outputType, senderRandom, walletSource, key, ivHex);
    var random, n := FormatHexToByteLength(senderRandom, 15).value, NameNumber(walletSource);
    FormattedIsPlain(senderRandom, 15);
    DigitsAreLower(random);
    TypeField(outputType);
    ReadsBack(ks, outputType, senderRandom, walletSource, key, ivHex, random, BigIntToHex(outputType, 1).value,
              PadField(OddHex(n)), n);
  }

  // ----- When names survive

  /** A number has at most k digits exactly when it is below 16^k. */
  lemma DigitCount(n: nat, k: nat)
    requires k > 0
    ensures |BigIntText(n, 16)| <= k <==> n < P.Pow(16, k)
  {
    if n > 0 {
      P.ValueOfMinimal(n, 16);
      P.ValueBound(P.Minimal(n, 16), 16);
      if |P.Minimal(n, 16)| <= k {
        P.PowMonotone(16, |P.Minimal(n, 16)|, k);
      }
      if n < P.Pow(16, k) {
        P.FixedPads(n, 16, k);
      }
    }
  }

  /** How long the last field is: 30 digits at least, and otherwise the number with one or two zeros
      in front. */
  lemma LastFieldLength(n: nat)
    ensures var d := |BigIntText(n, 16)|;
            |LastField(n)| == if d < FIELD_DIGITS then FIELD_DIGITS else if d % 2 == 1 then d + 1 else d + 2
  {
    LengthOfParts(BigIntText(n, 16), OddHex(n));
  }

  lemma LengthOfParts(t: string, u: string)
    requires if |t| % 2 == 1 then u == t else u == Hex.Zeros(1) + t
    ensures |Evened(PadField(u))|
         == if |t| < FIELD_DIGITS then FIELD_DIGITS else if |t| % 2 == 1 then |t| + 1 else |t| + 2
  {
  }

  lemma DigitsOfPart(g: string, end: nat)
    requires AllDigits(g, 16) && 2 <= end <= |g|
    ensures AllDigits(g[2..end], 16) && Digits(g[2..end], 16) == Digits(g, 16)[2..end]
  {
  }

  lemma LowDigits(ds: seq<nat>, n: nat)
    requires P.AreDigits(ds, 16) && |ds| >= 2 && P.Value(ds, 16) == n
    ensures P.Value(ds[2..|ds|], 16) == n % P.Pow(16, |ds| - 2)
  {
    P.FixedIsSuffix(ds, 16, |ds| - 2);
    P.ValueOfFixed(n, 16, |ds| - 2);
    assert ds[2..|ds|] == ds[2..];
  }

  lemma FirstDigits(ds: seq<nat>)
    requires P.AreDigits(ds, 16) && |ds| >= 34
    ensures P.Value(ds[2..34], 16) < P.Pow(16, 32)
  {
    P.DigitsOfSlice(ds, 16, 2, 34);
    P.ValueBound(ds[2..34], 16);
  }

  lemma PartValue(g: string, end: nat)
    requires IsLowerHex(g) && |g| >= 30 && end == Min(|g|, 34)
    ensures AllDigits(g, 16) && P.AreDigits(Digits(g, 16)[2..end], 16)
    ensures ReadPart(g) == P.Value(Digits(g, 16)[2..end], 16)
  {
    DigitsOfPart(g, end);
  }

  /** Up to 34 digits, the number is read modulo a power of 16; of longer fields less than 16^32 is
      read. */
  lemma ReadPartIs(g: string, n: nat)
    requires IsLowerHex(g) && |g| >= 30 && P.Value(Digits(g, 16), 16) == n
    ensures |g| <= 34 ==> ReadPart(g) == n % P.Pow(16, |g| - 2)
    ensures |g| > 34 ==> ReadPart(g) < P.Pow(16, 32)
  {
    PartValue(g, Min(|g|, 34));
    if |g| <= 34 {
      LowDigits(Digits(g, 16), n);
    } else {
      FirstDigits(Digits(g, 16));
    }
  }

  lemma ModIsIdentityIff(n: nat, p: nat)
    requires p > 0
    ensures n % p == n <==> n < p
  {
    if n < p {
      P.SmallMod(n, p);
    }
  }

  /** The numbers that are read unchanged: those below 16^28, and those for which the byte that is cut
      off is zero. */
  predicate NumberSurvives(n: nat) {
    || n < P.Pow(16, 28)
    || (P.Pow(16, 29) <= n < P.Pow(16, 30))
    || (P.Pow(16, 31) <= n < P.Pow(16, 32))
  }

  lemma PowersAscend()
    ensures P.Pow(16, 28) <= P.Pow(16, 29) <= P.Pow(16, 30) <= P.Pow(16, 31) <= P.Pow(16, 32)
  {
    P.PowMonotone(16, 28, 29);
    P.PowMonotone(16, 29, 30);
    P.PowMonotone(16, 30, 31);
    P.PowMonotone(16, 31, 32);
  }

  /** The cases of the length of the number, with the powers of 16 as parameters. */
  lemma SurvivalByLength(n: nat, r: nat, d: nat, g: nat, p28: nat, p29: nat, p30: nat, p31: nat, p32: nat)
    requires p28 <= p29 <= p30 <= p31 <= p32
    requires g == if d < 30 then 30 else if d % 2 == 1 then d + 1 else d + 2
    requires (d <= 29 <==> n < p29) && (d <= 30 <==> n < p30) && (d <= 31 <==> n < p31) && (d <= 32 <==> n < p32)
    requires (g == 30 ==> (r == n <==> n < p28)) && (g == 32 ==> (r == n <==> n < p30))
    requires (g == 34 ==> (r == n <==> n < p32)) && (g > 34 ==> r < p32)
    ensures r == n <==> n < p28 || p29 <= n < p30 || p31 <= n < p32
  {
  }

  lemma ReadOfLength(n: nat, g: nat)
    requires |LastField(n)| == g
    ensures (g == 30 ==> (NumberRead(n) == n <==> n < P.Pow(16, 28)))
         && (g == 32 ==> (NumberRead(n) == n <==> n < P.Pow(16, 30)))
         && (g == 34 ==> (NumberRead(n) == n <==> n < P.Pow(16, 32)))
         && (g > 34 ==> NumberRead(n) < P.Pow(16, 32))
  {
    LastFieldIsLower(n);
    ReadPartIs(LastField(n), n);
    if g <= 34 {
      ModIsIdentityIff(n, P.Pow(16, g - 2));
    }
  }

  lemma NumberIsReadIff(n: nat)
    ensures NumberRead(n) == n <==> NumberSurvives(n)
  {
    LastFieldLength(n);
    ReadOfLength(n, |LastField(n)|);
    PowersAscend();
    DigitCount(n, 29);
    DigitCount(n, 30);
    DigitCount(n, 31);
    DigitCount(n, 32);
    SurvivalByLength(n, NumberRead(n), |BigIntText(n, 16)|, |LastField(n)|,
                     P.Pow(16, 28), P.Pow(16, 29), P.Pow(16, 30), P.Pow(16, 31), P.Pow(16, 32));
  }

  lemma CharsAreInjective(a: seq<nat>, b: seq<nat>)
    requires P.AreDigits(a, BASE) && P.AreDigits(b, BASE) && Chars(a) == Chars(b)
    ensures a == b
  {
    forall i | 0 <= i < |a| ensures a[i] == b[i] {
      assert CharIndex(Chars(a)[i]) == Some(a[i]);
      assert CharIndex(Chars(b)[i]) == Some(b[i]);
    }
  }

  lemma SameNameIff(m: nat, n: nat)
    ensures Chars(P.Minimal(m, BASE)) == Chars(P.Minimal(n, BASE)) <==> m == n
  {
    if Chars(P.Minimal(m, BASE)) == Chars(P.Minimal(n, BASE)) {
      CharsAreInjective(P.Minimal(m, BASE), P.Minimal(n, BASE));
      P.ValueOfMinimal(m, BASE);
      P.ValueOfMinimal(n, BASE);
    }
  }

  lemma NameOfNumber(walletSource: string)
    requires InCharset(ToLower(walletSource))
    ensures Chars(P.Minimal(NameNumber(walletSource), BASE)) == TrimLeadingSpaces(ToLower(walletSource))
  {
    if walletSource != "" {
      CharsOfNumber(walletSource);
    }
  }

  /** For every annotation that can be created, whatever the length of its name: decryption returns
      the name, in lower case and without leading spaces, if and only if its number is below 2^112,
      or from 2^116 on and below 2^120, or from 2^124 on and below 2^128. */
  lemma NameSurvivesIff(ks: Keystream, outputType: int, senderRandom: string, walletSource: string,
                        key: seq<Byte>, ivHex: string)
    requires Created(ks, outputType, senderRandom, walletSource, key, ivHex).Some?
    ensures InCharset(ToLower(walletSource))
    ensures var read := Opened(ks, Created(ks, outputType, senderRandom, walletSource, key, ivHex).value, key);
            && read.Some?
            && (read.value.walletSource == TrimLeadingSpaces(ToLower(walletSource))
                <==> NumberSurvives(NameNumber(walletSource)))
  {
    AnnotationIsRead(ks, outputType, senderRandom, walletSource, key, ivHex);
    var n := NameNumber(walletSource);
    NameOfNumber(walletSource);
    SameNameIff(NumberRead(n), n);
    NumberIsReadIff(n);
  }

  /** Names of up to 21 characters always survive; the program allows 16. */
  lemma ShortNamesSurvive(walletSource: string)
    requires InCharset(ToLower(walletSource)) && |walletSource| <= 21
    ensures NumberSurvives(NameNumber(walletSource))
  {
    if walletSource != "" {
      NumberBound(walletSource);
      P.PowMonotone(BASE, |walletSource|, 21);
    }
    PowersCompare();
  }

  lemma PowersCompare()
    ensures P.Pow(BASE, 21) < P.Pow(16, 28)
  {
    assert P.Pow(BASE, 3) == 50653;
    P.PowAdd(BASE, 3, 3);
    P.PowAdd(BASE, 6, 6);
    P.PowAdd(BASE, 12, 6);
    P.PowAdd(BASE, 18, 3);
    assert P.Pow(16, 4) == 65536;
    P.PowAdd(16, 4, 4);
    P.PowAdd(16, 8, 8);
    P.PowAdd(16, 16, 8);
    P.PowAdd(16, 24, 4);
  }

  // ----- What is encrypted

  /** The type in one byte, the random in fifteen, fifteen zero bytes, and then the number of the name. */
  ghost predicate IsPlaintext(t: string, outputType: nat, random: string, n: nat) {
    && |t| >= 92 && HexToBigInt(t[..2]) == Some(outputType % 256) && t[2..32] == random
    && (forall i | 32 <= i < 62 :: t[i] == '0')
    && AllDigits(t[62..], 16) && P.Value(Digits(t[62..], 16), 16) == n
  }

  lemma PlaintextOf(typeHex: string, random: string, zeros: string, last: string, t: string, outputType: nat, n: nat)
    requires |typeHex| == 2 && |random| == 30 && |zeros| == 30 && last == LastField(n)
    requires (forall i | 0 <= i < 30 :: zeros[i] == '0') && t == (typeHex + random) + zeros + last
    requires HexToBigInt(typeHex) == Some(outputType % 256)
    ensures IsPlaintext(t, outputType, random, n)
  {
    LastFieldIsLower(n);
    PartsOfText(typeHex, random, zeros, last, t);
  }

  lemma PartsOfText(a: string, b: string, c: string, d: string, t: string)
    requires |a| == 2 && |b| == 30 && |c| == 30 && t == (a + b) + c + d
    ensures t[..2] == a && t[2..32] == b && t[62..] == d && |t| == 62 + |d|
    ensures forall i | 32 <= i < 62 :: t[i] == c[i - 32]
  {
  }

  /** Whatever is created: behind the initial value stand the bytes of type, random, zeros and name, in this order, each
      exclusive or the key stream. */
  lemma AnnotationLayout(ks: Keystream, outputType: int, senderRandom: string, walletSource: string,
                         key: seq<Byte>, ivHex: string) returns (iv: seq<Byte>, p: seq<Byte>)
    requires Created(ks, outputType, senderRandom, walletSource, key, ivHex).Some?
    ensures outputType >= 0 && FormatHexToByteLength(senderRandom, 15).Some? && InCharset(ToLower(walletSource))
    ensures FixedBytesFromHex(ivHex, 16) == Some(iv)
    ensures IsPlaintext(BytesToHex(p), outputType, FormatHexToByteLength(senderRandom, 15).value,
                        NameNumber(walletSource))
    ensures Created(ks, outputType, senderRandom, walletSource, key, ivHex)
         == Some(BytesToHex(iv + XorStream(ks(key, iv), p)))
  {
    CreatedIff(ks, outputType, senderRandom, walletSource, key, ivHex);
    var random, n := FormatHexToByteLength(senderRandom, 15).value, NameNumber(walletSource);
    iv := FixedBytesFromHex(ivHex, 16).value;
    FormattedIsPlain(senderRandom, 15);
    DigitsAreLower(random);
    TypeField(outputType);
    NameField(walletSource);
    var typeHex, f2 := BigIntToHex(outputType, 1).value, PadField(OddHex(n));
    FieldsAre(outputType, senderRandom, walletSource, typeHex, random, f2);
    p := LayoutOf(ks, outputType, senderRandom, walletSource, key, ivHex, iv, typeHex, random, f2, n);
    ZerosAreZero(FIELD_DIGITS);
    PlaintextOf(typeHex, random, Hex.Zeros(FIELD_DIGITS), LastField(n), BytesToHex(p), outputType, n);
  }

  lemma LayoutOf(ks: Keystream, outputType: nat, senderRandom: string, walletSource: string, key: seq<Byte>,
                 ivHex: string, iv: seq<Byte>, typeHex: string, random: string, f2: string, n: nat)
    returns (p: seq<Byte>)
    requires |key| == 32 && FixedBytesFromHex(ivHex, 16) == Some(iv) && f2 == PadField(OddHex(n))
    requires Fields(outputType, senderRandom, walletSource) == Some([typeHex + random, Hex.Zeros(FIELD_DIGITS), f2])
    requires |typeHex| == 2 && IsLowerHex(typeHex) && |random| == 30 && IsLowerHex(random)
    ensures BytesToHex(p) == (typeHex + random) + Hex.Zeros(FIELD_DIGITS) + LastField(n)
    ensures Created(ks, outputType, senderRandom, walletSource, key, ivHex)
         == Some(BytesToHex(iv + XorStream(ks(key, iv), p)))
  {
    ZerosAreLower(FIELD_DIGITS);
    NameFieldIsLower(n);
    LowerJoin(typeHex, random);
    p := BytesOfFields(ks, outputType, senderRandom, walletSource, key, ivHex, iv, typeHex + random,
                       Hex.Zeros(FIELD_DIGITS), f2);
  }

  lemma ZerosAreZero(k: nat)
    ensures |Hex.Zeros(k)| == k && forall i | 0 <= i < k :: Hex.Zeros(k)[i] == '0'
  {
  }

  lemma LowerJoin(a: string, b: string)
    requires IsLowerHex(a) && IsLowerHex(b)
    ensures IsLowerHex(a + b)
  {
  }

  /** The bytes of the three fields, and what they are encrypted to. */
  lemma BytesOfFields(ks: Keystream, outputType: nat, senderRandom: string, walletSource: string, key: seq<Byte>,
                      ivHex: string, iv: seq<Byte>, f0: string, f1: string, f2: string) returns (p: seq<Byte>)
    requires |key| == 32 && FixedBytesFromHex(ivHex, 16) == Some(iv)
    requires Fields(outputType, senderRandom, walletSource) == Some([f0, f1, f2])
    requires IsLowerHex(f0) && IsLowerHex(f1) && IsLowerHex(f2) && |f0| == 32 && |f1| == 30 && f2 != ""
    ensures BytesToHex(p) == f0 + f1 + Evened(f2)
    ensures Created(ks, outputType, senderRandom, walletSource, key, ivHex)
         == Some(BytesToHex(iv + XorStream(ks(key, iv), p)))
  {
    var x := TextAsBytes(f0);
    var y := TextAsBytes(f1);
    var z := TextAsBytes(f2);
    p := x + y + z;
    JoinText(x, y, z, f0, f1, Evened(f2));
    CreatedThree(ks, key, iv, f0, f1, f2, x, y, z, XorStream(ks(key, iv), p));
    CreatedOfFields(ks, outputType, senderRandom, walletSource, key, ivHex, iv, [f0, f1, f2]);
  }

  lemma JoinText(x: seq<Byte>, y: seq<Byte>, z: seq<Byte>, a: string, b: string, c: string)
    requires BytesToHex(x) == a && BytesToHex(y) == b && BytesToHex(z) == c
    ensures BytesToHex(x + y + z) == a + b + c
  {
    BytesToHexConcat(x, y);
    BytesToHexConcat(x + y, z);
  }
}
