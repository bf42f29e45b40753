/** Hex blocks under a stream cipher (AESCTREncryptHex, AESCTRDecryptHex, concatHexBlocks and
    splitHexBlocks in pkg/crypto/aes.go). The cipher is any function from key and initial value
    to a stream of bytes; applying it is exclusive or with the stream. */
module CtrBlocks {
  import opened Wrappers
  import opened Hex
  import opened Bits
  import P = Positional
  import Seqs

  type Keystream = (seq<Byte>, seq<Byte>) -> (nat -> nat)

  datatype Ciphertext = Ciphertext(iv: string, data: seq<string>)

  function XorByte(a: Byte, s: nat): (b: Byte) {
    ByteBound(a, s % 256);
    Xor(a, s % 256)
  }

  lemma ByteBound(a: nat, s: nat)
    requires a < 256 && s < 256
    ensures Xor(a, s) < 256
  {
    assert P.Pow(2, 8) == 256 by {
      assert P.Pow(2, 4) == 16;
      P.PowAdd(2, 4, 4);
    }
    XorBound(a, s, 8);
  }

  function XorStream(stream: nat -> nat, data: seq<Byte>): (r: seq<Byte>)
    ensures |r| == |data| && forall i | 0 <= i < |data| :: r[i] == XorByte(data[i], stream(i))
  {
    seq<Byte>(|data|, i requires 0 <= i < |data| => XorByte(data[i], stream(i)))
  }

  /** The cipher adds the bits of the stream to those of the data. */
  lemma StreamAddsBits(stream: nat -> nat, data: seq<Byte>, i: nat, k: nat)
    requires i < |data|
    ensures High(XorStream(stream, data)[i], k) % 2 == (High(data[i], k) % 2 + High(stream(i) % 256, k) % 2) % 2
  {
    BitOfXor(data[i], stream(i) % 256, k);
  }

  lemma XorByteTwice(a: Byte, s: nat)
    ensures XorByte(XorByte(a, s), s) == a
  {
    XorAssociates(a, s % 256, s % 256);
    XorSelf(s % 256);
    XorZero(a);
  }

  /** Applying the cipher twice gives the data back. */
  lemma XorStreamTwice(stream: nat -> nat, data: seq<Byte>)
    ensures XorStream(stream, XorStream(stream, data)) == data
  {
    forall i | 0 <= i < |data| ensures XorStream(stream, XorStream(stream, data))[i] == data[i] {
      XorByteTwice(data[i], stream(i));
    }
  }

  // ----- Blocks

  function BytesOf(value: string): Option<seq<Byte>> {
    HexToBytes(value)
  }

  function Concat(values: seq<string>): Option<seq<Byte>> {
    if values == [] then Some([])
    else
      var front, last := Concat(values[..|values| - 1]), BytesOf(values[|values| - 1]);
      if front.None? || last.None? then None else Some(front.value + last.value)
  }

  function Lengths(values: seq<string>): (r: seq<nat>)
    ensures |r| == |values|
  {
    seq(|values|, i requires 0 <= i < |values| => if BytesOf(values[i]).Some? then |BytesOf(values[i]).value| else 0)
  }

  function Sum(lengths: seq<nat>): nat {
    if lengths == [] then 0 else Sum(lengths[..|lengths| - 1]) + lengths[|lengths| - 1]
  }

  /** Bytes cut into parts of these lengths. */
  function Cut<T>(bytes: seq<T>, lengths: seq<nat>): (r: seq<seq<T>>)
    requires Sum(lengths) <= |bytes|
    ensures |r| == |lengths|
  {
    if lengths == [] then []
    else
      var front, last := lengths[..|lengths| - 1], lengths[|lengths| - 1];
      Cut(bytes, front) + [bytes[Sum(front)..Sum(front) + last]]
  }

  function Hexes(parts: seq<seq<Byte>>): (r: seq<string>)
    ensures |r| == |parts|
  {
    seq(|parts|, i requires 0 <= i < |parts| => BytesToHex(parts[i]))
  }

  function Split(bytes: seq<Byte>, lengths: seq<nat>): (r: seq<string>)
    requires Sum(lengths) <= |bytes|
    ensures |r| == |lengths|
  {
    Hexes(Cut(bytes, lengths))
  }

  method ConcatHexBlocks(values: seq<string>) returns (r: Option<(seq<Byte>, seq<nat>)>)
    ensures r == if Concat(values).None? then None else Some((Concat(values).value, Lengths(values)))
    ensures r.Some? ==> Sum(Lengths(values)) == |Concat(values).value|
  {
    var out: seq<Byte>, lengths: seq<nat> := [], [];
    for i := 0 to |values|
      invariant IsGathered(values, i, out, lengths)
    {
      var decoded := BytesOf(values[i]);
      if decoded.None? {
        NoneFrom(values, i);
        return None;
      }
      GatherNext(values, i, out, lengths, decoded.value);
      lengths := lengths + [|decoded.value|];
      out := out + decoded.value;
    }
    AllGathered(values, out, lengths);
    return Some((out, lengths));
  }

  /** The bytes of the first i blocks. */
  ghost predicate IsGathered(values: seq<string>, i: nat, out: seq<Byte>, lengths: seq<nat>)
    requires i <= |values|
  {
    && Concat(values[..i]) == Some(out)
    && |lengths| == i && lengths == Lengths(values)[..i]
    && Sum(lengths) == |out|
  }

  lemma GatherNext(values: seq<string>, i: nat, out: seq<Byte>, lengths: seq<nat>, decoded: seq<Byte>)
    requires i < |values| && IsGathered(values, i, out, lengths) && BytesOf(values[i]) == Some(decoded)
    ensures IsGathered(values, i + 1, out + decoded, lengths + [|decoded|])
  {
    ConcatNext(values, i);
    LengthsNext(values, i, decoded);
    SumSnoc(lengths, |decoded|);
  }

  lemma LengthsNext(values: seq<string>, i: nat, decoded: seq<Byte>)
    requires i < |values| && BytesOf(values[i]) == Some(decoded)
    ensures Lengths(values)[..i + 1] == Lengths(values)[..i] + [|decoded|]
  {
    Seqs.PrefixSnoc(Lengths(values), i);
  }

  lemma NoneFrom(values: seq<string>, i: nat)
    requires i < |values| && BytesOf(values[i]).None?
    ensures Concat(values).None?
  {
    ConcatNext(values, i);
    NoneStays(values, i + 1);
  }

  lemma AllGathered(values: seq<string>, out: seq<Byte>, lengths: seq<nat>)
    requires IsGathered(values, |values|, out, lengths)
    ensures Concat(values) == Some(out) && lengths == Lengths(values) && Sum(lengths) == |out|
  {
    Seqs.Whole(values);
    Seqs.Whole(Lengths(values));
  }

  lemma ConcatNext(values: seq<string>, i: nat)
    requires i < |values|
    ensures Concat(values[..i + 1])
         == if Concat(values[..i]).None? || BytesOf(values[i]).None? then None
            else Some(Concat(values[..i]).value + BytesOf(values[i]).value)
  {
    assert values[..i + 1][..i] == values[..i];
  }

  lemma SumSnoc(lengths: seq<nat>, length: nat)
    ensures Sum(lengths + [length]) == Sum(lengths) + length
  {
    assert (lengths + [length])[..|lengths|] == lengths;
  }

  lemma {:induction false} NoneStays(values: seq<string>, i: nat)
    requires i <= |values| && Concat(values[..i]).None?
    ensures Concat(values).None?
    decreases |values| - i
  {
    if i < |values| {
      assert values[..i + 1][..i] == values[..i];
      NoneStays(values, i + 1);
    } else {
      Seqs.Whole(values);
    }
  }

  method SplitHexBlocks(bytes: seq<Byte>, lengths: seq<nat>) returns (blocks: seq<string>)
    requires Sum(lengths) == |bytes|
    ensures blocks == Split(bytes, lengths)
  {
    blocks := [];
    var offset := 0;
    ghost var done: seq<nat> := [];
    for i := 0 to |lengths|
      invariant done == lengths[..i] && offset == Sum(done) <= |bytes| && blocks == Split(bytes, done)
    {
      SumNext(lengths, i, done);
      SplitSnoc(bytes, done, lengths[i], done + [lengths[i]]);
      blocks := blocks + [BytesToHex(bytes[offset..offset + lengths[i]])];
      offset := offset + lengths[i];
      done := done + [lengths[i]];
    }
    Seqs.Whole(lengths);
  }

  lemma SumNext(lengths: seq<nat>, i: nat, done: seq<nat>)
    requires i < |lengths| && done == lengths[..i]
    ensures done + [lengths[i]] == lengths[..i + 1]
        && Sum(done + [lengths[i]]) == Sum(done) + lengths[i] <= Sum(lengths)
  {
    Seqs.PrefixSnoc(lengths, i);
    SumOfPrefix(lengths, i + 1);
    SumSnoc(done, lengths[i]);
  }

  lemma SplitSnoc(bytes: seq<Byte>, front: seq<nat>, last: nat, all: seq<nat>)
    requires all == front + [last] && Sum(all) <= |bytes|
    ensures Sum(all) == Sum(front) + last
    ensures Split(bytes, all) == Split(bytes, front) + [BytesToHex(bytes[Sum(front)..Sum(front) + last])]
  {
    SumSnoc(front, last);
    CutSnoc(bytes, front, last, all, Sum(front));
    HexesSnoc(Cut(bytes, front), bytes[Sum(front)..Sum(front) + last]);
  }

  lemma CutSnoc<T>(bytes: seq<T>, front: seq<nat>, last: nat, all: seq<nat>, offset: nat)
    requires all == front + [last] && Sum(front) == offset && Sum(all) == offset + last <= |bytes|
    ensures Cut(bytes, all) == Cut(bytes, front) + [bytes[offset..offset + last]]
  {
    assert all[..|all| - 1] == front && all[|all| - 1] == last;
  }

  lemma HexesSnoc(parts: seq<seq<Byte>>, last: seq<Byte>)
    ensures Hexes(parts + [last]) == Hexes(parts) + [BytesToHex(last)]
  {
  }

  lemma {:induction false} SumOfPrefix(lengths: seq<nat>, i: nat)
    requires i <= |lengths|
    ensures Sum(lengths[..i]) <= Sum(lengths)
    decreases |lengths| - i
  {
    if i < |lengths| {
      assert lengths[..i + 1][..i] == lengths[..i];
      SumOfPrefix(lengths, i + 1);
    } else {
      Seqs.Whole(lengths);
    }
  }

  function FixedBytesFromHex(value: string, length: nat): Option<seq<Byte>> {
    var out := BytesOf(value);
    if out.None? || |out.value| != length then None else out
  }

  /** What the cipher makes of blocks: their bytes, exclusive-or-ed with the stream. */
  ghost predicate IsEncrypted(ks: Keystream, key: seq<Byte>, iv: seq<Byte>, from: seq<string>, to: seq<string>) {
    && Concat(from).Some? && Sum(Lengths(from)) == |Concat(from).value|
    && to == Split(XorStream(ks(key, iv), Concat(from).value), Lengths(from))
  }

  method AESCTREncryptHex(ks: Keystream, plaintext: seq<string>, keyHex: string, ivHex: string)
    returns (r: Option<Ciphertext>)
    ensures r.Some?
       <==> FixedBytesFromHex(keyHex, 32).Some? && FixedBytesFromHex(ivHex, 16).Some? && Concat(plaintext).Some?
    ensures r.Some? ==>
      && r.value.iv == BytesToHex(BytesOf(ivHex).value)
      && IsEncrypted(ks, BytesOf(keyHex).value, BytesOf(ivHex).value, plaintext, r.value.data)
  {
    var key, iv := FixedBytesFromHex(keyHex, 32), FixedBytesFromHex(ivHex, 16);
    if key.None? || iv.None? {
      return None;
    }
    var bytes := ConcatHexBlocks(plaintext);
    if bytes.None? {
      return None;
    }
    var data := SplitHexBlocks(XorStream(ks(key.value, iv.value), bytes.value.0), bytes.value.1);
    return Some(Ciphertext(BytesToHex(iv.value), data));
  }

  method AESCTRDecryptHex(ks: Keystream, ciphertext: Ciphertext, keyHex: string) returns (r: Option<seq<string>>)
    ensures r.Some? <==>
      FixedBytesFromHex(keyHex, 32).Some? && FixedBytesFromHex(ciphertext.iv, 16).Some? && Concat(ciphertext.data).Some?
    ensures r.Some? ==> IsEncrypted(ks, BytesOf(keyHex).value, BytesOf(ciphertext.iv).value, ciphertext.data, r.value)
  {
    var key, iv := FixedBytesFromHex(keyHex, 32), FixedBytesFromHex(ciphertext.iv, 16);
    if key.None? || iv.None? {
      return None;
    }
    var bytes := ConcatHexBlocks(ciphertext.data);
    if bytes.None? {
      return None;
    }
    var data := SplitHexBlocks(XorStream(ks(key.value, iv.value), bytes.value.0), bytes.value.1);
    return Some(data);
  }
}
