/** Complete binary hash trees over numbers, and the ways from their leaves to their root. */
module DenseTree {
  import P = Positional

  /** A node of the complete tree over numbers. */
  function Dense(join: (int, int) -> nat, value: nat -> int, level: nat, index: nat): int {
    if level == 0 then value(index)
    else join(Dense(join, value, level - 1, 2 * index), Dense(join, value, level - 1, 2 * index + 1))
  }

  // ----- Ways up

  /** Arithmetic shift to the right, also of negative numbers, as big.Int.Bit sees them. */
  function Shift(n: int, i: nat): int {
    if i == 0 then n else Shift(n, i - 1) / 2
  }

  lemma {:induction false} ShiftOfHalf(n: int, i: nat)
    ensures Shift(n / 2, i) == Shift(n, i + 1)
  {
    if i > 0 {
      ShiftOfHalf(n, i - 1);
    }
  }

  lemma {:induction false} ShiftIsNat(n: nat, i: nat)
    ensures Shift(n, i) >= 0
  {
    if i > 0 {
      ShiftIsNat(n, i - 1);
    }
  }

  lemma {:induction false} ShiftedOut(n: nat, i: nat)
    requires n < P.Pow(2, i)
    ensures Shift(n, i) == 0
  {
    if i > 0 {
      ShiftOfHalf(n, i - 1);
      ShiftedOut(n / 2, i - 1);
    }
  }

  function Step(join: (int, int) -> nat, bit: int, element: int, current: int): int {
    if bit == 1 then join(element, current) else join(current, element)
  }

  /** Hashing upwards along the elements; the lowest bit of the index says on which side. */
  function Climb(join: (int, int) -> nat, index: int, elements: seq<int>, current: int): int
    decreases |elements|
  {
    if elements == [] then current
    else Climb(join, index / 2, elements[1..], Step(join, index % 2, elements[0], current))
  }

  function Sibling(index: nat): nat {
    if index % 2 == 0 then index + 1 else index - 1
  }

  /** The siblings on the way from a node up to level `top`. */
  function Siblings(join: (int, int) -> nat, value: nat -> int, level: nat, index: nat, top: nat): (r: seq<int>)
    requires level <= top
    ensures |r| == top - level
    decreases top - level
  {
    if level == top then []
    else [Dense(join, value, level, Sibling(index))] + Siblings(join, value, level + 1, index / 2, top)
  }

  lemma StepToParent(join: (int, int) -> nat, value: nat -> int, level: nat, index: nat)
    ensures Step(join, index % 2, Dense(join, value, level, Sibling(index)), Dense(join, value, level, index))
         == Dense(join, value, level + 1, index / 2)
  {
  }

  lemma ClimbCons(join: (int, int) -> nat, index: int, first: int, rest: seq<int>, current: int)
    ensures Climb(join, index, [first] + rest, current)
         == Climb(join, index / 2, rest, Step(join, index % 2, first, current))
  {
    assert ([first] + rest)[1..] == rest;
  }

  lemma ClimbStep(join: (int, int) -> nat, value: nat -> int, level: nat, index: nat, rest: seq<int>)
    ensures Climb(join, index, [Dense(join, value, level, Sibling(index))] + rest, Dense(join, value, level, index))
         == Climb(join, index / 2, rest, Dense(join, value, level + 1, index / 2))
  {
    StepToParent(join, value, level, index);
    ClimbCons(join, index, Dense(join, value, level, Sibling(index)), rest, Dense(join, value, level, index));
  }

  /** Hashing a node with its siblings leads to its ancestor. */
  lemma {:induction false} ClimbReachesAncestor(join: (int, int) -> nat, value: nat -> int,
                                                level: nat, index: nat, top: nat, ancestor: nat)
    requires level <= top && ancestor == Shift(index, top - level)
    ensures Climb(join, index, Siblings(join, value, level, index, top), Dense(join, value, level, index))
         == Dense(join, value, top, ancestor)
    decreases top - level
  {
    if level < top {
      ShiftOfHalf(index, top - level - 1);
      ClimbReachesAncestor(join, value, level + 1, index / 2, top, ancestor);
      ClimbStep(join, value, level, index, Siblings(join, value, level + 1, index / 2, top));
    }
  }

  /** The k-th sibling on the way up from a leaf. */
  lemma {:induction false} SiblingAt(join: (int, int) -> nat, value: nat -> int, level: nat, index: nat,
                                     top: nat, k: nat)
    requires level + k < top
    ensures Shift(index, k) >= 0
    ensures Siblings(join, value, level, index, top)[k] == Dense(join, value, level + k, Sibling(Shift(index, k)))
    decreases k
  {
    ShiftIsNat(index, k);
    if k > 0 {
      SiblingAt(join, value, level + 1, index / 2, top, k - 1);
      ShiftOfHalf(index, k - 1);
    }
  }
}
