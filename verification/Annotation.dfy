/** Encrypted annotations of notes (CreateEncryptedNoteAnnotationDataV2 and
    DecryptNoteAnnotationDataV2 in pkg/crypto/memo.go). Encryption cuts the data into 16, 15 and
    15 bytes, decryption into 16, 16 and 14. */
module Annotation {
  import opened Wrappers
  import opened Hex
  import opened CtrBlocks
  import opened WalletSource
  import P = Positional
  import Seqs

  const FIELD_DIGITS := 30

  datatype AnnotationData = AnnotationData(outputType: int, senderRandom: string, walletSource: string)

  function PadField(s: string): string {
    if |s| < FIELD_DIGITS then Hex.Zeros(FIELD_DIGITS - |s|) + s else s
  }

  /** The three fields of the metadata. */
  function Fields(outputType: int, senderRandom: string, walletSource: string): Option<seq<string>> {
    var typeHex, random, source := BigIntToHex(outputType, 1), FormatHexToByteLength(senderRandom, 15),
        Encoded(walletSource);
    if typeHex.None? || random.None? || source.None? then None
    else Some([typeHex.value + random.value, Hex.Zeros(FIELD_DIGITS), PadField(source.value)])
  }

  /** Blocks under the cipher. */
  function Crypt(ks: Keystream, key: seq<Byte>, iv: seq<Byte>, blocks: seq<string>): (r: seq<string>)
    requires Concat(blocks).Some?
    ensures |r| == |blocks|
  {
    LengthsAddUp(blocks);
    Split(XorStream(ks(key, iv), Concat(blocks).value), Lengths(blocks))
  }

  lemma {:induction false} LengthsAddUp(blocks: seq<string>)
    requires Concat(blocks).Some?
    ensures Sum(Lengths(blocks)) == |Concat(blocks).value|
  {
    if blocks != [] {
      var n := |blocks| - 1;
      LengthsAddUp(blocks[..n]);
      assert Lengths(blocks)[..n] == Lengths(blocks[..n]);
    }
  }

  function Created(ks: Keystream, outputType: int, senderRandom: string, walletSource: string,
                   viewingPrivateKey: seq<Byte>, ivHex: string): Option<string>
  {
    var fields, iv := Fields(outputType, senderRandom, walletSource), FixedBytesFromHex(ivHex, 16);
    if fields.None? || iv.None? || |viewingPrivateKey| != 32 || Concat(fields.value).None? then None
    else
      var data := Crypt(ks, viewingPrivateKey, iv.value, fields.value);
      Some(BytesToHex(iv.value) + data[0] + data[1] + data[2])
  }

  method PadWithZeros(s: string) returns (r: string)
    ensures r == PadField(s)
  {
    r := s;
    while |r| < FIELD_DIGITS
      invariant PadField(r) == PadField(s)
      decreases FIELD_DIGITS - |r|
    {
      PadOne(r);
      r := Hex.Zeros(1) + r;
    }
  }

  method CreateEncryptedNoteAnnotationDataV2(ks: Keystream, outputType: int, senderRandom: string, walletSource: string,
                                             viewingPrivateKey: seq<Byte>, ivHex: string) returns (r: Option<string>)
    ensures r == Created(ks, outputType, senderRandom, walletSource, viewingPrivateKey, ivHex)
  {
    var typeHex := BigIntToHex(outputType, 1);
    var random := FormatHexToByteLength(senderRandom, 15);
    if typeHex.None? || random.None? {
      return None;
    }
    var source := EncodeWalletSource(walletSource);
    if source.None? {
      return None;
    }
    var field2 := PadWithZeros(source.value);
    KeyReadsBack(viewingPrivateKey);
    var ciphertext := AESCTREncryptHex(ks, [typeHex.value + random.value, Hex.Zeros(FIELD_DIGITS), field2],
                                       BytesToHex(viewingPrivateKey), ivHex);
    if ciphertext.None? {
      return None;
    }
    var data := ciphertext.value.data;
    return Some(ciphertext.value.iv + data[0] + data[1] + data[2]);
  }

  lemma PadOne(s: string)
    requires |s| < FIELD_DIGITS
    ensures PadField(Hex.Zeros(1) + s) == PadField(s)
  {
  }

  lemma KeyReadsBack(bytes: seq<Byte>)
    ensures BytesOf(BytesToHex(bytes)) == Some(bytes)
  {
    BytesToHexIsLower(bytes);
    StripDigits(BytesToHex(bytes));
    DecodeOfEncode(bytes);
  }

  function Min(a: nat, b: nat): nat {
    if a < b then a else b
  }

  /** The blocks behind the initial value: one, or up to three. */
  function DataBlocks(h: string): seq<string>
    requires |h| >= 64
  {
    if |h| == 64 then [h[32..64]]
    else [h[32..64], h[64..Min(|h|, 96)], h[Min(|h|, 96)..Min(|h|, 128)]]
  }

  function FromBlocks(blocks: seq<string>): Option<AnnotationData>
    requires blocks != []
  {
    if |blocks[0]| < 32 then None
    else
      var outputType := HexToBigInt(blocks[0][..2]);
      var source := if |blocks| > 2 then Decoded(blocks[2]) else Some("");
      if outputType.None? || source.None? then None
      else Some(AnnotationData(outputType.value, blocks[0][2..32], source.value))
  }

  method ReadBlocks(blocks: seq<string>) returns (r: Option<AnnotationData>)
    requires blocks != []
    ensures r == FromBlocks(blocks)
  {
    if |blocks[0]| < 32 {
      return None;
    }
    var outputType := HexToBigInt(blocks[0][..2]);
    if outputType.None? {
      return None;
    }
    var walletSource := "";
    if |blocks| > 2 {
      var source := DecodeWalletSource(blocks[2]);
      if source.None? {
        return None;
      }
      walletSource := source.value;
    }
    return Some(AnnotationData(outputType.value, blocks[0][2..32], walletSource));
  }

  function OpenedText(ks: Keystream, h: string, key: seq<Byte>): Option<AnnotationData> {
    if |h| < 64 then None
    else
      var iv := FixedBytesFromHex(h[..32], 16);
      if |key| != 32 || iv.None? || Concat(DataBlocks(h)).None? then None
      else FromBlocks(Crypt(ks, key, iv.value, DataBlocks(h)))
  }

  function Opened(ks: Keystream, annotationData: string, key: seq<Byte>): Option<AnnotationData> {
    if annotationData == "" then None else OpenedText(ks, Strip0x(annotationData), key)
  }

  method OpenText(ks: Keystream, h: string, key: seq<Byte>) returns (r: Option<AnnotationData>)
    ensures r == OpenedText(ks, h, key)
  {
    if |h| < 64 {
      return None;
    }
    KeyReadsBack(key);
    var decrypted := AESCTRDecryptHex(ks, Ciphertext(h[..32], DataBlocks(h)), BytesToHex(key));
    if decrypted.None? {
      return None;
    }
    r := ReadBlocks(decrypted.value);
  }

  method DecryptNoteAnnotationDataV2(ks: Keystream, annotationData: string, viewingPrivateKey: seq<Byte>)
    returns (r: Option<AnnotationData>)
    ensures r == Opened(ks, annotationData, viewingPrivateKey)
  {
    if annotationData == "" {
      return None;
    }
    r := OpenText(ks, Strip0x(annotationData), viewingPrivateKey);
  }
}
