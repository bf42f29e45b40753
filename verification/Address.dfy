/** 0zk addresses (pkg/address/address.go): version, master public key, network and viewing
    public key in one Bech32m string. */
module Address {
  import opened Wrappers
  import opened Bits
  import opened Hex
  import P = Positional
  import B = Bech32m
  import Seqs

  const PREFIX := "0zk"
  const CHAIN_ID_LIMIT := 0x100_0000_0000_0000

  /** The bytes of the word that masks the network. */
  const RAILGUN: seq<nat> := [0x72, 0x61, 0x69, 0x6c, 0x67, 0x75, 0x6e]

  datatype Chain = Chain(chainType: int, id: int)

  datatype AddressData = AddressData(
    masterPublicKey: string,
    viewingPublicKey: string,
    chain: Option<Chain>,
    version: int)

  // ----- Networks

  function AllF(k: nat): (s: string)
    ensures |s| == k
  {
    seq(k, _ => 'f')
  }

  /** The network of an address without a chain: sixteen times the digit f. */
  const ALL_CHAINS_NETWORK_ID := AllF(16)

  /** Lower-case hex text padded to the given number of bytes. */
  function HexText(n: nat, byteLength: nat): (s: string)
    ensures |s| == byteLength * 2
  {
    FitLeft(BigIntText(n, 16), byteLength * 2)
  }

  function ChainToNetworkID(chain: Option<Chain>): Result<string> {
    match chain
    case None => Ok(ALL_CHAINS_NETWORK_ID)
    case Some(c) =>
      if c.chainType < 0 || c.chainType > 255 then Err("chain type exceeds uint8")
      else if c.id < 0 then Err("chain id must be non-negative")
      else if c.id >= CHAIN_ID_LIMIT then Err("chain id exceeds uint56")
      else Ok(HexText(c.chainType, 1) + HexText(c.id, 7))
  }

  function NetworkIDToChain(networkID: string): Result<Option<Chain>> {
    if networkID == ALL_CHAINS_NETWORK_ID then Ok(None)
    else if |networkID| != 16 then Err("invalid network id length")
    else
      var chainType, id := HexToBigInt(networkID[..2]), HexToBigInt(networkID[2..]);
      if chainType.None? || id.None? then Err("invalid hex bigint")
      else Ok(Some(Chain(chainType.value, id.value)))
  }

  function XorByte(a: Byte, b: Byte): Byte {
    assert P.Pow(2, 8) == 256;
    XorBound(a, b, 8);
    Xor(a, b)
  }

  /** The bytes with the first seven of them masked. */
  function Masked(bytes: seq<Byte>): (r: seq<Byte>)
    ensures |r| == |bytes|
  {
    seq(|bytes|, i requires 0 <= i < |bytes| =>
          if i < 7 then XorByte(bytes[i], RAILGUN[i]) else bytes[i])
  }

  method MaskInPlace(bytes: array<Byte>)
    modifies bytes
    ensures bytes[..] == Masked(old(bytes[..]))
  {
    for i := 0 to bytes.Length
      invariant forall j | 0 <= j < bytes.Length ::
          bytes[j] == if j < i then Masked(old(bytes[..]))[j] else old(bytes[j])
    {
      if i < 7 {
        bytes[i] := XorByte(bytes[i], RAILGUN[i]);
      }
    }
  }

  function XorNetworkID(networkID: string): string {
    var bytes := DecodeHex(networkID);
    if bytes.None? then "" else BytesToHex(Masked(bytes.value))
  }

  // ----- Addresses

  function AddressHex(a: AddressData): Result<string> {
    var mpk := NumberishToBigInt(a.masterPublicKey);
    var viewing := FormatHexToByteLength(a.viewingPublicKey, 32);
    if mpk.None? then Err("master public key")
    else if mpk.value < 0 then Err("bigint must be positive")
    else if viewing.None? then Err("viewing public key")
    else
      var networkID :- ChainToNetworkID(a.chain);
      Ok("01" + HexText(mpk.value, 32) + XorNetworkID(networkID) + viewing.value)
  }

  function Encode(a: AddressData): Result<string> {
    var addressHex :- AddressHex(a);
    var bytes := DecodeHex(addressHex);
    if bytes.None? then Err("invalid byte") else B.Bech32mEncode(PREFIX, bytes.value)
  }

  function DecimalText(n: int): string {
    if n < 0 then "-" + BigIntText(-n, 10) else BigIntText(n, 10)
  }

  function DecodePayload(data: string): Result<AddressData>
    requires |data| == 146
  {
    var version, mpk := HexToBigInt(data[..2]), HexToBigInt(data[2..66]);
    if version.None? then Err("invalid hex bigint")
    else if version.value != 1 then Err("incorrect address version")
    else
      var chain :- NetworkIDToChain(XorNetworkID(data[66..82]));
      if mpk.None? then Err("invalid hex bigint")
      else Ok(AddressData(DecimalText(mpk.value), data[82..], chain, 1))
  }

  function Decode(value: string): Result<AddressData> {
    var parts := B.Bech32mDecode(value);
    if parts.Err? then Err(parts.reason)
    else if parts.value.0 != PREFIX then Err("invalid address prefix")
    else
      B.DecodedIsBytes(value);
      var data := BytesToHex(parts.value.1);
      if |data| != 146 then Err("invalid payload length") else DecodePayload(data)
  }

  // ----- Networks round trip

  lemma MaskTwice(bytes: seq<Byte>)
    ensures Masked(Masked(bytes)) == bytes
  {
    forall i | 0 <= i < |bytes| && i < 7 ensures Masked(Masked(bytes))[i] == bytes[i] {
      XorCancels(bytes[i], RAILGUN[i]);
    }
  }

  lemma MaskedNetwork(networkID: string)
    requires |networkID| == 16 && IsLowerHex(networkID)
    ensures |XorNetworkID(networkID)| == 16 && IsLowerHex(XorNetworkID(networkID))
    ensures XorNetworkID(XorNetworkID(networkID)) == networkID
  {
    var bytes := DecodeHex(networkID).value;
    EncodeOfDecode(networkID);
    BytesToHexIsLower(Masked(bytes));
    DecodeOfEncode(Masked(bytes));
    MaskTwice(bytes);
  }

  lemma SizesOfFields()
    ensures P.Pow(16, 2) == 256 && P.Pow(16, 14) == CHAIN_ID_LIMIT
  {
    assert P.Pow(16, 4) == 0x1_0000;
    P.PowAdd(16, 4, 4);
    P.PowAdd(16, 8, 4);
    P.PowAdd(16, 12, 2);
  }

  lemma HexTextParses(n: nat, byteLength: nat)
    requires byteLength > 0 && n < P.Pow(16, byteLength * 2)
    ensures HexToBigInt(HexText(n, byteLength)) == Some(n) && IsLowerHex(HexText(n, byteLength))
  {
    BigIntToHexRoundTrip(n, byteLength);
    P.SmallMod(n, P.Pow(16, byteLength * 2));
  }

  lemma {:induction false} AllOnes(k: nat)
    ensures P.Fixed(P.Pow(16, k) - 1, 16, k) == seq(k, _ => 15)
  {
    if k > 0 {
      AllOnes(k - 1);
      P.FixedSnoc(P.Pow(16, k - 1) - 1, 15, 16, k - 1);
    }
  }

  lemma HexTextOfOnes(byteLength: nat)
    requires byteLength > 0
    ensures HexText(P.Pow(16, byteLength * 2) - 1, byteLength) == AllF(byteLength * 2)
  {
    HexTextDigits(P.Pow(16, byteLength * 2) - 1, byteLength);
    AllOnes(byteLength * 2);
    TextOfOnes(seq(byteLength * 2, _ => 15));
  }

  lemma HexTextDigits(n: nat, byteLength: nat)
    requires byteLength > 0
    ensures HexText(n, byteLength) == Text(P.Fixed(n, 16, byteLength * 2))
  {
    BigIntToHexRoundTrip(n, byteLength);
  }

  lemma TextOfOnes(ds: seq<nat>)
    requires P.AreDigits(ds, 16) && forall i | 0 <= i < |ds| :: ds[i] == 15
    ensures Text(ds) == AllF(|ds|)
  {
  }

  lemma ParseFields(networkID: string, chainType: nat, id: nat)
    requires |networkID| == 16
    requires HexToBigInt(networkID[..2]) == Some(chainType) && HexToBigInt(networkID[2..]) == Some(id)
    ensures NetworkIDToChain(networkID)
         == Ok(if networkID == ALL_CHAINS_NETWORK_ID then None else Some(Chain(chainType, id)))
  {
  }

  lemma WriteFields(chainType: nat, id: nat)
    requires chainType <= 255 && id < CHAIN_ID_LIMIT
    ensures ChainToNetworkID(Some(Chain(chainType, id))) == Ok(HexText(chainType, 1) + HexText(id, 7))
  {
  }

  /** A network read from an address is written back the same. */
  lemma NetworkOfChain(networkID: string)
    requires |networkID| == 16 && IsLowerHex(networkID)
    ensures NetworkIDToChain(networkID).Ok?
    ensures ChainToNetworkID(NetworkIDToChain(networkID).value) == Ok(networkID)
  {
    var chainType, id := FieldsOf(networkID);
    ParseFields(networkID, chainType, id);
    WriteFields(chainType, id);
  }

  lemma FieldsOf(networkID: string) returns (chainType: nat, id: nat)
    requires |networkID| == 16 && IsLowerHex(networkID)
    ensures HexToBigInt(networkID[..2]) == Some(chainType) && HexToBigInt(networkID[2..]) == Some(id)
    ensures chainType <= 255 && id < CHAIN_ID_LIMIT
    ensures networkID == HexText(chainType, 1) + HexText(id, 7)
  {
    SizesOfFields();
    LowerHexSlice(networkID, 0, 2);
    LowerHexSlice(networkID, 2, 16);
    chainType := NumberOfText(networkID[..2], 1);
    id := NumberOfText(networkID[2..], 7);
    Seqs.Halves(networkID, 2);
  }

  /** Lower-case hex text of full width is the text of the number it denotes. */
  lemma NumberOfText(s: string, byteLength: nat) returns (n: nat)
    requires byteLength > 0 && |s| == byteLength * 2 && IsLowerHex(s)
    ensures HexToBigInt(s) == Some(n) && n < P.Pow(16, byteLength * 2) && HexText(n, byteLength) == s
  {
    HexOfParsed(s, byteLength);
    n := HexToBigInt(s).value;
  }

  /** The one chain whose network is taken for "all chains". */
  const AMBIGUOUS := Chain(255, CHAIN_ID_LIMIT - 1)

  lemma OnlyOnesAreAmbiguous(chainType: nat, id: nat)
    requires chainType <= 255 && id < CHAIN_ID_LIMIT
    ensures HexText(chainType, 1) + HexText(id, 7) == ALL_CHAINS_NETWORK_ID
       <==> Chain(chainType, id) == AMBIGUOUS
  {
    SizesOfFields();
    HexTextOfOnes(1);
    HexTextOfOnes(7);
    AllOnesIff(HexText(chainType, 1), HexText(id, 7));
    if HexText(chainType, 1) == AllF(2) {
      HexTextIsInjective(chainType, 255, 1);
    }
    if HexText(id, 7) == AllF(14) {
      HexTextIsInjective(id, CHAIN_ID_LIMIT - 1, 7);
    }
  }

  lemma AllOnesIff(a: string, b: string)
    requires |a| == 2 && |b| == 14
    ensures a + b == ALL_CHAINS_NETWORK_ID <==> a == AllF(2) && b == AllF(14)
  {
    assert AllF(2) + AllF(14) == ALL_CHAINS_NETWORK_ID;
    Seqs.SameParts(a, b, AllF(2), AllF(14));
  }

  lemma HexTextIsInjective(m: nat, n: nat, byteLength: nat)
    requires byteLength > 0 && m < P.Pow(16, byteLength * 2) && n < P.Pow(16, byteLength * 2)
    requires HexText(m, byteLength) == HexText(n, byteLength)
    ensures m == n
  {
    HexTextParses(m, byteLength);
    HexTextParses(n, byteLength);
  }

  /** A chain written into an address is read back, unless it is the ambiguous one. */
  lemma ChainOfNetwork(chain: Option<Chain>)
    requires ChainToNetworkID(chain).Ok?
    ensures var networkID := ChainToNetworkID(chain).value;
            && |networkID| == 16 && IsLowerHex(networkID)
            && NetworkIDToChain(networkID) == Ok(if chain == Some(AMBIGUOUS) then None else chain)
  {
    if chain.Some? {
      var c := chain.value;
      WriteFields(c.chainType, c.id);
      OnlyOnesAreAmbiguous(c.chainType, c.id);
      WrittenFieldsParse(c.chainType, c.id);
    }
  }

  lemma LowerHexConcat(a: string, b: string)
    requires IsLowerHex(a) && IsLowerHex(b)
    ensures IsLowerHex(a + b)
  {
  }

  lemma WrittenFieldsParse(chainType: nat, id: nat)
    requires chainType <= 255 && id < CHAIN_ID_LIMIT
    ensures var networkID := HexText(chainType, 1) + HexText(id, 7);
            && IsLowerHex(networkID)
            && NetworkIDToChain(networkID)
               == Ok(if networkID == ALL_CHAINS_NETWORK_ID then None else Some(Chain(chainType, id)))
  {
    SizesOfFields();
    HexTextParses(chainType, 1);
    HexTextParses(id, 7);
    Seqs.Parts(HexText(chainType, 1), HexText(id, 7));
    LowerHexConcat(HexText(chainType, 1), HexText(id, 7));
    ParseFields(HexText(chainType, 1) + HexText(id, 7), chainType, id);
  }

  // ----- Addresses round trip

  /** What an address says once it has been written: a decimal key of 256 bits, a formatted
      viewing key, and no chain instead of the ambiguous one. */
  function NormalForm(a: AddressData): AddressData
    requires AddressHex(a).Ok?
  {
    AddressData(
      BigIntText(NumberishToBigInt(a.masterPublicKey).value % P.Pow(16, 64), 10),
      FormatHexToByteLength(a.viewingPublicKey, 32).value,
      if a.chain == Some(AMBIGUOUS) then None else a.chain,
      1)
  }

  /** The four fields of an address in hexadecimal. */
  function Join(version: string, mpk: string, network: string, viewing: string): string {
    version + mpk + network + viewing
  }

  lemma JoinParts(version: string, mpk: string, network: string, viewing: string)
    requires |version| == 2 && |mpk| == 64 && |network| == 16 && |viewing| == 64
    ensures var data := Join(version, mpk, network, viewing);
            && |data| == 146 && data[..2] == version && data[2..66] == mpk
            && data[66..82] == network && data[82..] == viewing
  {
  }

  lemma SplitFields(data: string)
    requires |data| == 146
    ensures data == Join(data[..2], data[2..66], data[66..82], data[82..])
  {
  }

  lemma LowerHexSlice(s: string, i: nat, j: nat)
    requires IsLowerHex(s) && i <= j <= |s|
    ensures IsLowerHex(s[i..j])
  {
  }

  lemma VersionText()
    ensures HexText(1, 1) == "01" && IsLowerHex("01") && HexToBigInt("01") == Some(1)
  {
    SizesOfFields();
    HexTextParses(1, 1);
    assert BigIntText(1, 16) == "1";
    assert HexText(1, 1) == "01";
  }

  /** Only the text 01 denotes version 1. */
  lemma VersionIsText(v: string)
    requires |v| == 2 && IsLowerHex(v) && HexToBigInt(v) == Some(1)
    ensures v == "01"
  {
    VersionText();
    HexOfParsed(v, 1);
  }

  lemma ReadFields(mpk: string, network: string, viewing: string, n: nat, chain: Option<Chain>)
    requires |mpk| == 64 && |network| == 16 && |viewing| == 64
    requires HexToBigInt(mpk) == Some(n) && NetworkIDToChain(XorNetworkID(network)) == Ok(chain)
    ensures var data := Join("01", mpk, network, viewing);
            |data| == 146 && DecodePayload(data) == Ok(AddressData(BigIntText(n, 10), viewing, chain, 1))
  {
    VersionText();
    JoinParts("01", mpk, network, viewing);
  }

  lemma WriteAddress(a: AddressData, n: nat, networkID: string, viewing: string)
    requires NumberishToBigInt(a.masterPublicKey) == Some(n)
    requires FormatHexToByteLength(a.viewingPublicKey, 32) == Some(viewing)
    requires ChainToNetworkID(a.chain) == Ok(networkID)
    ensures AddressHex(a) == Ok(Join("01", HexText(n, 32), XorNetworkID(networkID), viewing))
  {
  }

  lemma FieldsAreLower(data: string)
    requires |data| == 146 && IsLowerHex(data)
    ensures IsLowerHex(data[..2]) && IsLowerHex(data[2..66]) && IsLowerHex(data[66..82]) && IsLowerHex(data[82..])
  {
  }

  /** Fields that are read are the fields of what they are read as. */
  lemma HexOfFields(v: string, m: string, x: string, w: string) returns (a: AddressData)
    requires |v| == 2 && |m| == 64 && |x| == 16 && |w| == 64
    requires IsLowerHex(v) && IsLowerHex(m) && IsLowerHex(x) && IsLowerHex(w)
    requires HexToBigInt(v) == Some(1)
    ensures |Join(v, m, x, w)| == 146 && DecodePayload(Join(v, m, x, w)) == Ok(a)
    ensures AddressHex(a) == Ok(Join(v, m, x, w))
  {
    VersionIsText(v);
    var n := NumberOfText(m, 32);
    MaskedNetwork(x);
    NetworkOfChain(XorNetworkID(x));
    var chain := NetworkIDToChain(XorNetworkID(x)).value;
    a := AddressData(BigIntText(n, 10), w, chain, 1);
    ReadFields(m, x, w, n, chain);
    DecimalRoundTrip(n);
    FormatIsIdentity(w, 32);
    WriteAddress(a, n, XorNetworkID(x), w);
  }

  /** A payload that decodes is the one its content is written to. */
  lemma HexOfPayload(data: string)
    requires |data| == 146 && IsLowerHex(data) && DecodePayload(data).Ok?
    ensures AddressHex(DecodePayload(data).value) == Ok(data)
  {
    FieldsAreLower(data);
    SplitFields(data);
    var a := HexOfFields(data[..2], data[2..66], data[66..82], data[82..]);
  }

  /** Every accepted address is the one its content encodes to. */
  lemma EncodeOfDecoded(s: string)
    requires Decode(s).Ok?
    ensures Encode(Decode(s).value) == Ok(s)
  {
    B.DecodedIsBytes(s);
    var payload: seq<Byte> := B.Bech32mDecode(s).value.1;
    BytesToHexIsLower(payload);
    HexOfPayload(BytesToHex(payload));
    DecodeOfEncode(payload);
    LengthOfDecoded(s);
    B.EncodeOfDecode(s);
  }

  lemma LengthOfDecoded(s: string)
    requires B.Bech32mDecode(s).Ok? && B.Bech32mDecode(s).value.0 == PREFIX
    requires |B.Bech32mDecode(s).value.1| == 73
    ensures |s| == B.ADDRESS_LENGTH_LIMIT
  {
    B.LengthFromPayload(s);
  }

  /** An address that was encoded decodes to its normal form. */
  lemma DecodeOfEncoded(a: AddressData)
    requires Encode(a).Ok?
    ensures Decode(Encode(a).value) == Ok(NormalForm(a))
  {
    var data := AddressHex(a).value;
    var bytes := DecodeHex(data).value;
    PayloadOfHex(a);
    EncodeOfDecode(data);
    DecodeFromPayload(bytes);
  }

  lemma DecodeFromPayload(bytes: seq<Byte>)
    requires B.Bech32mEncode(PREFIX, bytes).Ok? && |bytes| == 73
    ensures Decode(B.Bech32mEncode(PREFIX, bytes).value) == DecodePayload(BytesToHex(bytes))
  {
    assert ToLower(PREFIX) == PREFIX;
    B.DecodeOfEncode(PREFIX, bytes);
  }

  lemma HexTextModulo(n: nat)
    ensures HexToBigInt(HexText(n, 32)) == Some(n % P.Pow(16, 64)) && IsLowerHex(HexText(n, 32))
  {
    BigIntToHexRoundTrip(n, 32);
  }

  lemma JoinIsLower(version: string, mpk: string, network: string, viewing: string)
    requires |version| == 2 && |mpk| == 64 && |network| == 16 && |viewing| == 64
    requires IsLowerHex(version) && IsLowerHex(mpk) && IsLowerHex(network) && IsLower(viewing)
    ensures AllDigits(Join(version, mpk, network, viewing), 16) <==> AllDigits(viewing, 16)
    ensures AllDigits(viewing, 16) ==> IsLowerHex(Join(version, mpk, network, viewing))
  {
    var data := Join(version, mpk, network, viewing);
    assert forall i | 0 <= i < 64 :: data[82 + i] == viewing[i];
  }

  /** Encoding succeeds for exactly these addresses. */
  lemma EncodeIsDefined(a: AddressData)
    ensures Encode(a).Ok? <==>
              && NumberishToBigInt(a.masterPublicKey).Some? && NumberishToBigInt(a.masterPublicKey).value >= 0
              && ChainToNetworkID(a.chain).Ok?
              && FormatHexToByteLength(a.viewingPublicKey, 32).Some?
              && AllDigits(FormatHexToByteLength(a.viewingPublicKey, 32).value, 16)
  {
    if AddressHex(a).Ok? {
      PayloadOfHex(a);
      var data := AddressHex(a).value;
      if DecodeHex(data).Some? {
        EncodingFits(DecodeHex(data).value);
      }
    }
  }

  lemma EncodingFits(bytes: seq<Byte>)
    requires |bytes| == 73
    ensures B.Bech32mEncode(PREFIX, bytes).Ok?
  {
    B.PaddedLength(bytes);
  }

  lemma PayloadOfHex(a: AddressData)
    requires AddressHex(a).Ok?
    ensures var data := AddressHex(a).value;
            && |data| == 146
            && (AllDigits(data, 16) <==> AllDigits(FormatHexToByteLength(a.viewingPublicKey, 32).value, 16))
            && (AllDigits(data, 16) ==> IsLowerHex(data))
            && DecodePayload(data) == Ok(NormalForm(a))
  {
    var n: nat := NumberishToBigInt(a.masterPublicKey).value;
    var networkID, viewing := ChainToNetworkID(a.chain).value, FormatHexToByteLength(a.viewingPublicKey, 32).value;
    var x := XorNetworkID(networkID);
    WriteAddress(a, n, networkID, viewing);
    ChainOfNetwork(a.chain);
    MaskedNetwork(networkID);
    HexTextModulo(n);
    FormattedIsPlain(a.viewingPublicKey, 32);
    ReadFields(HexText(n, 32), x, viewing, n % P.Pow(16, 64), NormalForm(a).chain);
    JoinParts("01", HexText(n, 32), x, viewing);
    VersionText();
    JoinIsLower("01", HexText(n, 32), x, viewing);
  }

  // ----- What an address says

  lemma MaskIsRailgun()
    ensures |RAILGUN| == |"railgun"| && forall k | 0 <= k < |RAILGUN| :: RAILGUN[k] == "railgun"[k] as int
  {
  }

  /** The first seven bytes have their bits added to those of the mask, the others stay. */
  ghost predicate IsMaskOf(masked: seq<Byte>, bytes: seq<Byte>) {
    |masked| == |bytes| && forall k | 0 <= k < |bytes| ::
      if k < |RAILGUN| then forall i :: High(masked[k], i) % 2 == (High(bytes[k], i) % 2 + High(RAILGUN[k], i) % 2) % 2
      else masked[k] == bytes[k]
  }

  lemma MaskedIsMask(bytes: seq<Byte>)
    ensures IsMaskOf(Masked(bytes), bytes)
  {
    forall k | 0 <= k < |bytes| && k < |RAILGUN|
      ensures forall i :: High(Masked(bytes)[k], i) % 2 == (High(bytes[k], i) % 2 + High(RAILGUN[k], i) % 2) % 2
    {
      MaskedBits(bytes[k], RAILGUN[k], Masked(bytes)[k]);
    }
  }

  lemma MaskedBits(b: Byte, r: nat, m: nat)
    requires m == Xor(b, r)
    ensures forall i :: High(m, i) % 2 == (High(b, i) % 2 + High(r, i) % 2) % 2
  {
    forall i: nat ensures High(m, i) % 2 == (High(b, i) % 2 + High(r, i) % 2) % 2 {
      BitOfXor(b, r, i);
    }
  }

  /** The network of a chain: its type in one byte and its id in seven, or all ones. */
  ghost predicate IsNetworkOf(network: seq<Byte>, chain: Option<Chain>) {
    var text := BytesToHex(network);
    && |network| == 8
    && match chain
       case None => forall i | 0 <= i < 16 :: text[i] == 'f'
       case Some(c) => HexToBigInt(text[..2]) == Some(c.chainType) && HexToBigInt(text[2..]) == Some(c.id)
  }

  lemma NetworkBytes(chain: Option<Chain>, networkID: string) returns (network: seq<Byte>)
    requires ChainToNetworkID(chain) == Ok(networkID)
    ensures IsNetworkOf(network, chain) && XorNetworkID(networkID) == BytesToHex(Masked(network))
  {
    ChainOfNetwork(chain);
    network := DecodeHex(networkID).value;
    EncodeOfDecode(networkID);
    if chain.Some? {
      SizesOfFields();
      HexTextParses(chain.value.chainType, 1);
      HexTextParses(chain.value.id, 7);
      Seqs.Parts(HexText(chain.value.chainType, 1), HexText(chain.value.id, 7));
      P.SmallMod(chain.value.chainType, P.Pow(16, 2));
      P.SmallMod(chain.value.id, P.Pow(16, 14));
    }
  }

  /** The text that is encoded: version 1, the key in 32 bytes, the masked network, the formatted viewing key. */
  lemma AddressLayout(a: AddressData)
    requires AddressHex(a).Ok?
    ensures NumberishToBigInt(a.masterPublicKey).Some? && FormatHexToByteLength(a.viewingPublicKey, 32).Some?
    ensures var data := AddressHex(a).value;
            && |data| == 146 && data[..2] == "01"
            && HexToBigInt(data[2..66]) == Some(NumberishToBigInt(a.masterPublicKey).value % P.Pow(16, 64))
            && data[82..] == FormatHexToByteLength(a.viewingPublicKey, 32).value
            && IsMaskedNetwork(data[66..82], a.chain)
  {
    var n, viewing := NumberishToBigInt(a.masterPublicKey).value, FormatHexToByteLength(a.viewingPublicKey, 32).value;
    var networkID := ChainToNetworkID(a.chain).value;
    WriteAddress(a, n, networkID, viewing);
    NetworkIsMasked(a.chain, networkID);
    FormattedIsPlain(a.viewingPublicKey, 32);
    LayoutOfJoin(n, XorNetworkID(networkID), viewing, Join("01", HexText(n, 32), XorNetworkID(networkID), viewing));
  }

  /** The text of a network of this chain under the mask. */
  ghost predicate IsMaskedNetwork(text: string, chain: Option<Chain>) {
    exists network, masked :: IsNetworkOf(network, chain) && IsMaskOf(masked, network) && text == BytesToHex(masked)
  }

  lemma NetworkIsMasked(chain: Option<Chain>, networkID: string)
    requires ChainToNetworkID(chain) == Ok(networkID)
    ensures |XorNetworkID(networkID)| == 16 && IsMaskedNetwork(XorNetworkID(networkID), chain)
  {
    var network := NetworkBytes(chain, networkID);
    MaskedIsMask(network);
    ChainOfNetwork(chain);
    MaskedNetwork(networkID);
  }

  lemma LayoutOfJoin(n: nat, network: string, viewing: string, data: string)
    requires |network| == 16 && |viewing| == 64 && data == Join("01", HexText(n, 32), network, viewing)
    ensures |data| == 146 && data[..2] == "01" && data[66..82] == network && data[82..] == viewing
    ensures HexToBigInt(data[2..66]) == Some(n % P.Pow(16, 64))
  {
    BigIntToHexRoundTrip(n, 32);
    JoinParts("01", HexText(n, 32), network, viewing);
  }
}
