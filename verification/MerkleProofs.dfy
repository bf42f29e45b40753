/** Merkle proofs (pkg/merkletree/merkletree.go).

    Poseidon of two field elements is an arbitrary function `h`; what the program adds to it,
    reducing the inputs into the field, is modelled. */
module MerkleProofs {
  import opened Wrappers
  import opened Hex
  import P = Positional
  import opened DenseTree

  /** The prime order of the field, SNARKPrimeDecimal. */
  const FIELD: nat := 21888242871839275222246405745257275088548364400416034343698204186575808495617

  type Hasher = (nat, nat) -> nat

  datatype MerkleProof = MerkleProof(leaf: string, indices: string, elements: seq<string>, root: string)

  function InField(n: int): (r: nat)
    ensures r < FIELD
    ensures 0 <= n < FIELD ==> r == n
  {
    n % FIELD
  }

  function HashLeftRight(h: Hasher, left: int, right: int): (r: nat)
    ensures r < FIELD
  {
    InField(h(InField(left), InField(right)))
  }

  /** The 32-byte hex text of a field element. */
  function FieldText(n: nat): (s: string)
    ensures BigIntToHex(n, 32) == Some(s)
  {
    BigIntToHex(n, 32).value
  }

  /** How the program reads the texts of a proof. */
  function Read(text: string): Option<int> {
    HexToBigInt(text)
  }

  // ----- The root that a proof leads to

  function Bit(n: int, i: nat): int {
    Shift(n, i) % 2
  }

  function Poseidon(h: Hasher): (int, int) -> nat {
    (left, right) => HashLeftRight(h, left, right)
  }

  /** Hashing upwards along the elements; the lowest bit of the index says on which side. */
  function PathValue(h: Hasher, indices: int, elements: seq<string>, current: int): Option<int>
    decreases |elements|
  {
    if elements == [] then Some(current)
    else
      var element := Read(elements[0]);
      if element.None? then None
      else PathValue(h, indices / 2, elements[1..], Step(Poseidon(h), indices % 2, element.value, current))
  }

  function RootOf(h: Hasher, proof: MerkleProof): Option<string> {
    var indices, leaf := Read(proof.indices), Read(proof.leaf);
    if indices.None? || leaf.None? then None
    else
      var root := PathValue(h, indices.value, proof.elements, leaf.value);
      if root.None? then None else BigIntToHex(root.value, 32)
  }

  method CalculateRoot(h: Hasher, proof: MerkleProof) returns (r: Option<string>)
    ensures r == RootOf(h, proof)
  {
    var indices, leaf := Read(proof.indices), Read(proof.leaf);
    if indices.None? || leaf.None? {
      return None;
    }
    var current := leaf.value;
    for i := 0 to |proof.elements|
      invariant PathValue(h, indices.value, proof.elements, leaf.value)
             == PathValue(h, Shift(indices.value, i), proof.elements[i..], current)
    {
      var element := Read(proof.elements[i]);
      PathFrom(h, Shift(indices.value, i), proof.elements, i, current);
      if element.None? {
        return None;
      }
      if Bit(indices.value, i) == 1 {
        current := HashLeftRight(h, element.value, current);
      } else {
        current := HashLeftRight(h, current, element.value);
      }
    }
    return BigIntToHex(current, 32);
  }

  /** The path from an element on. */
  lemma PathFrom(h: Hasher, indices: int, elements: seq<string>, i: nat, current: int)
    requires i < |elements|
    ensures PathValue(h, indices, elements[i..], current)
         == var element := Read(elements[i]);
            if element.None? then None
            else PathValue(h, indices / 2, elements[i + 1..], Step(Poseidon(h), indices % 2, element.value, current))
  {
    assert elements[i..][1..] == elements[i + 1..];
  }

  function TrimLeftZeros(s: string): (r: string)
    ensures |r| <= |s| && s == Hex.Zeros(|s| - |r|) + r
    ensures r != "" ==> r[0] != '0'
  {
    if s != "" && s[0] == '0' then TrimLeftZeros(s[1..]) else s
  }

  function NormalizeHex(s: string): string {
    var t := TrimLeftZeros(Strip0x(s));
    if t == "" then "0" else ToLower(t)
  }

  method VerifyProof(h: Hasher, proof: MerkleProof) returns (r: Option<bool>)
    ensures r == if RootOf(h, proof).None? then None else Some(Accepted(h, proof))
  {
    var root := CalculateRoot(h, proof);
    return if root.None? then None else Some(NormalizeHex(root.value) == NormalizeHex(proof.root));
  }

  predicate Accepted(h: Hasher, proof: MerkleProof) {
    RootOf(h, proof).Some? && NormalizeHex(RootOf(h, proof).value) == NormalizeHex(proof.root)
  }

  // ----- Texts of field elements

  lemma Squares(b: nat, k: nat)
    ensures P.Pow(b, 2 * k) == P.Pow(b, k) * P.Pow(b, k)
  {
    P.PowAdd(b, k, k);
  }

  lemma FieldFits()
    ensures FIELD < P.Pow(16, 64)
  {
    assert P.Pow(16, 2) == 256;
    Squares(16, 2);
    Squares(16, 4);
    Squares(16, 8);
    Squares(16, 16);
    Squares(16, 32);
  }

  /** A field element can be read back from its text, which is in normal form. */
  lemma FieldTextReadsBack(n: nat)
    requires n < FIELD
    ensures Read(FieldText(n)) == Some(n)
    ensures |FieldText(n)| == 64 && IsLowerHex(FieldText(n))
  {
    FieldFits();
    BigIntToHexRoundTrip(n, 32);
    P.SmallMod(n, P.Pow(16, 64));
  }

  /** Two texts of the same length that agree after normalisation are equal. */
  lemma NormalFormsDiffer(s: string, t: string)
    requires IsLowerHex(s) && IsLowerHex(t) && |s| == |t|
    requires NormalizeHex(s) == NormalizeHex(t)
    ensures s == t
  {
    StripDigits(s);
    StripDigits(t);
    TrimmedIsLower(s);
    TrimmedIsLower(t);
    assert TrimLeftZeros(s) == TrimLeftZeros(t);
  }

  lemma TrimmedIsLower(s: string)
    requires IsLowerHex(s)
    ensures ToLower(TrimLeftZeros(s)) == TrimLeftZeros(s)
  {
    var r := TrimLeftZeros(s);
    forall i | 0 <= i < |r| ensures Lower(r[i]) == r[i] {
      assert r[i] == s[|s| - |r| + i];
    }
  }

  // ----- A root determines its leaves, or the hash has a collision

  ghost predicate IsCollision(h: Hasher, a: (nat, nat), b: (nat, nat)) {
    && a != b
    && a.0 < FIELD && a.1 < FIELD && b.0 < FIELD && b.1 < FIELD
    && HashLeftRight(h, a.0, a.1) == HashLeftRight(h, b.0, b.1)
  }

  ghost predicate SameBits(m: int, n: int, k: nat) {
    forall i: nat | i < k :: Bit(m, i) == Bit(n, i)
  }

  lemma SameBitsOfHalf(m: int, n: int, k: nat)
    requires k > 0 && SameBits(m, n, k)
    ensures m % 2 == n % 2 && SameBits(m / 2, n / 2, k - 1)
  {
    assert Bit(m, 0) == Bit(n, 0);
    forall i: nat | i < k - 1 ensures Bit(m / 2, i) == Bit(n / 2, i) {
      ShiftOfHalf(m, i);
      ShiftOfHalf(n, i);
      assert Bit(m, i + 1) == Bit(n, i + 1);
    }
  }

  function Inputs(bit: int, element: int, current: int): (r: (nat, nat))
    ensures r.0 < FIELD && r.1 < FIELD
  {
    if bit == 1 then (InField(element), InField(current)) else (InField(current), InField(element))
  }

  lemma StepOfInputs(h: Hasher, bit: int, element: int, current: int)
    ensures Step(Poseidon(h), bit, element, current)
         == HashLeftRight(h, Inputs(bit, element, current).0, Inputs(bit, element, current).1)
    ensures 0 <= Step(Poseidon(h), bit, element, current) < FIELD
  {
  }

  /** Two ways up from different leaves that end in the same number meet in a collision. */
  lemma {:induction false} ClimbsCollide(h: Hasher, m: int, n: int, d: seq<int>, e: seq<int>, c: int, v: int)
    returns (a: (nat, nat), b: (nat, nat))
    requires |d| == |e| > 0 && SameBits(m, n, |d|) && InField(c) != InField(v)
    requires Climb(Poseidon(h), m, d, c) == Climb(Poseidon(h), n, e, v)
    ensures IsCollision(h, a, b)
    decreases |d|
  {
    SameBitsOfHalf(m, n, |d|);
    var c', v' := Step(Poseidon(h), m % 2, d[0], c), Step(Poseidon(h), n % 2, e[0], v);
    StepOfInputs(h, m % 2, d[0], c);
    StepOfInputs(h, n % 2, e[0], v);
    if c' == v' {
      a, b := Inputs(m % 2, d[0], c), Inputs(n % 2, e[0], v);
    } else {
      a, b := ClimbsCollide(h, m / 2, n / 2, d[1..], e[1..], c', v');
    }
  }

  lemma {:induction false} ClimbInField(h: Hasher, m: int, d: seq<int>, c: int)
    requires d != []
    ensures 0 <= Climb(Poseidon(h), m, d, c) < FIELD
    decreases |d|
  {
    StepOfInputs(h, m % 2, d[0], c);
    if d[1..] != [] {
      ClimbInField(h, m / 2, d[1..], Step(Poseidon(h), m % 2, d[0], c));
    }
  }

  // ----- Elements as numbers

  ghost predicate Denote(elements: seq<string>, numbers: seq<int>) {
    |elements| == |numbers| && forall i | 0 <= i < |elements| :: Read(elements[i]) == Some(numbers[i])
  }

  lemma {:induction false} PathIsClimb(h: Hasher, indices: int, elements: seq<string>, numbers: seq<int>, current: int)
    requires Denote(elements, numbers)
    ensures PathValue(h, indices, elements, current) == Some(Climb(Poseidon(h), indices, numbers, current))
    decreases |elements|
  {
    if elements != [] {
      assert Read(elements[0]) == Some(numbers[0]);
      PathIsClimb(h, indices / 2, elements[1..], numbers[1..], Step(Poseidon(h), indices % 2, numbers[0], current));
    }
  }

  lemma {:induction false} NumbersOfPath(h: Hasher, indices: int, elements: seq<string>, current: int)
    returns (numbers: seq<int>)
    requires PathValue(h, indices, elements, current).Some?
    ensures Denote(elements, numbers)
    decreases |elements|
  {
    numbers := [];
    if elements != [] {
      var number := Read(elements[0]).value;
      var rest := NumbersOfPath(h, indices / 2, elements[1..], Step(Poseidon(h), indices % 2, number, current));
      numbers := [number] + rest;
      DenoteCons(elements, number, rest);
    }
  }

  lemma DenoteCons(elements: seq<string>, number: int, rest: seq<int>)
    requires elements != [] && Read(elements[0]) == Some(number) && Denote(elements[1..], rest)
    ensures Denote(elements, [number] + rest)
  {
    ReadsCons(text => Read(text), elements, number, rest);
  }

  lemma ReadsCons(read: string -> Option<int>, elements: seq<string>, number: int, rest: seq<int>)
    requires |elements| == |rest| + 1 && read(elements[0]) == Some(number)
    requires forall i | 0 <= i < |rest| :: read(elements[1..][i]) == Some(rest[i])
    ensures forall i | 0 <= i < |elements| :: read(elements[i]) == Some(([number] + rest)[i])
  {
    forall i | 0 < i < |elements| ensures read(elements[i]) == Some(([number] + rest)[i]) {
      var j := i - 1;
      assert elements[1..][j] == elements[i] && read(elements[1..][j]) == Some(rest[j]);
    }
  }

  lemma RootIsText(h: Hasher, p: MerkleProof) returns (numbers: seq<int>)
    requires RootOf(h, p).Some? && p.elements != []
    ensures Denote(p.elements, numbers)
    ensures var n := Climb(Poseidon(h), Read(p.indices).value, numbers, Read(p.leaf).value);
            0 <= n < FIELD && RootOf(h, p) == Some(FieldText(n))
  {
    var indices, leaf := Read(p.indices).value, Read(p.leaf).value;
    numbers := NumbersOfPath(h, indices, p.elements, leaf);
    PathIsClimb(h, indices, p.elements, numbers, leaf);
    ClimbInField(h, indices, numbers, leaf);
  }

  lemma SameText(m: nat, n: nat)
    requires m < FIELD && n < FIELD && NormalizeHex(FieldText(m)) == NormalizeHex(FieldText(n))
    ensures m == n
  {
    FieldTextReadsBack(m);
    FieldTextReadsBack(n);
    NormalFormsDiffer(FieldText(m), FieldText(n));
  }

  /** Two accepted proofs of the same root, of the same length and with the same index bits,
      but with leaves that are different field elements, give a collision of the hash. */
  lemma AcceptedProofsCollide(h: Hasher, p: MerkleProof, q: MerkleProof) returns (a: (nat, nat), b: (nat, nat))
    requires Accepted(h, p) && Accepted(h, q) && p.root == q.root
    requires |p.elements| == |q.elements| > 0
    requires SameBits(Read(p.indices).value, Read(q.indices).value, |p.elements|)
    requires InField(Read(p.leaf).value) != InField(Read(q.leaf).value)
    ensures IsCollision(h, a, b)
  {
    var d := RootIsText(h, p);
    var e := RootIsText(h, q);
    var m, n := Read(p.indices).value, Read(q.indices).value;
    var c, v := Read(p.leaf).value, Read(q.leaf).value;
    SameText(Climb(Poseidon(h), m, d, c), Climb(Poseidon(h), n, e, v));
    a, b := ClimbsCollide(h, m, n, d, e, c, v);
  }
}
