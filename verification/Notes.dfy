/** Notes that can be spent, their sums, their keys and their order
    (the helpers of pkg/transaction/solutions.go). */
module Notes {
  import opened Wrappers
  import Hex
  import Seqs

  /** An unspent note; its value may be missing, as the source's nil. */
  datatype SolutionTXO = SolutionTXO(id: string, txid: string, tree: nat, position: nat, value: Option<nat>)

  datatype TreeBalance = TreeBalance(balance: Option<nat>, utxos: seq<SolutionTXO>)

  function Val(u: SolutionTXO): nat {
    if u.value.Some? then u.value.value else 0
  }

  function Total(utxos: seq<SolutionTXO>): nat {
    if utxos == [] then 0 else Total(utxos[..|utxos| - 1]) + Val(utxos[|utxos| - 1])
  }

  method CalculateTotalSpend(utxos: seq<SolutionTXO>) returns (total: nat)
    ensures total == Total(utxos)
  {
    total := 0;
    for i := 0 to |utxos|
      invariant total == Total(utxos[..i])
    {
      Seqs.PrefixSnoc(utxos, i);
      TotalSnoc(utxos[..i], utxos[i]);
      if utxos[i].value.Some? {
        total := total + utxos[i].value.value;
      }
    }
    Seqs.Whole(utxos);
  }

  lemma TotalSnoc(utxos: seq<SolutionTXO>, u: SolutionTXO)
    ensures Total(utxos + [u]) == Total(utxos) + Val(u)
  {
    assert (utxos + [u])[..|utxos|] == utxos;
  }

  lemma {:induction false} TotalConcat(a: seq<SolutionTXO>, b: seq<SolutionTXO>)
    ensures Total(a + b) == Total(a) + Total(b)
  {
    if b == [] {
      assert a + b == a;
    } else {
      var front, last := b[..|b| - 1], b[|b| - 1];
      TotalConcat(a, front);
      assert a + b == (a + front) + [last];
      TotalSnoc(a + front, last);
    }
  }

  // ----- Keys

  /** The text by which a note is excluded: transaction and position. */
  function UtxoIdPosition(u: SolutionTXO): string {
    u.txid + "-" + Hex.BigIntText(u.position, 10)
  }

  /** Two notes have the same key only if they agree on transaction and position. */
  lemma KeyIsInjective(u: SolutionTXO, v: SolutionTXO)
    requires UtxoIdPosition(u) == UtxoIdPosition(v)
    ensures u.txid == v.txid && u.position == v.position
  {
    var d, e := Hex.BigIntText(u.position, 10), Hex.BigIntText(v.position, 10);
    Hex.TextValue(u.position, 10);
    Hex.TextValue(v.position, 10);
    LastDash(u.txid, d, v.txid, e);
    LastDash(v.txid, e, u.txid, d);
    Seqs.SameParts(u.txid, "-" + d, v.txid, "-" + e);
    Seqs.SameParts("-", d, "-", e);
    Seqs.Assoc(u.txid, "-", d);
    Seqs.Assoc(v.txid, "-", e);
  }

  lemma LastDash(a: string, d: string, b: string, e: string)
    requires a + "-" + d == b + "-" + e && Hex.AllDigits(e, 10)
    ensures |d| >= |e|
  {
    var s := b + "-" + e;
    assert forall i | |b| < i < |s| :: s[i] == e[i - |b| - 1];
    assert (a + "-" + d)[|a|] == '-';
  }

  function Keys(utxos: seq<SolutionTXO>): (keys: seq<string>)
    ensures |keys| == |utxos|
  {
    if utxos == [] then [] else Keys(utxos[..|utxos| - 1]) + [UtxoIdPosition(utxos[|utxos| - 1])]
  }

  /** No text occurs twice. */
  ghost predicate NoDuplicates(keys: seq<string>) {
    forall k :: multiset(keys)[k] <= 1
  }

  lemma {:induction false} KeysConcat(a: seq<SolutionTXO>, b: seq<SolutionTXO>)
    ensures Keys(a + b) == Keys(a) + Keys(b)
  {
    if b == [] {
      assert a + b == a && Keys(a) + [] == Keys(a);
    } else {
      var n := |b| - 1;
      KeysConcat(a, b[..n]);
      assert (a + b)[..|a + b| - 1] == a + b[..n];
      Seqs.Assoc(Keys(a), Keys(b[..n]), [UtxoIdPosition(b[n])]);
    }
  }

  lemma {:induction false} KeyOfMember(utxos: seq<SolutionTXO>, u: SolutionTXO)
    requires u in utxos
    ensures UtxoIdPosition(u) in Keys(utxos)
  {
    var n := |utxos| - 1;
    if u != utxos[n] {
      assert utxos == utxos[..n] + [utxos[n]];
      KeyOfMember(utxos[..n], u);
    }
  }

  lemma {:induction false} MemberOfKey(utxos: seq<SolutionTXO>, k: string) returns (u: SolutionTXO)
    requires k in Keys(utxos)
    ensures u in utxos && UtxoIdPosition(u) == k
  {
    var n := |utxos| - 1;
    if UtxoIdPosition(utxos[n]) == k {
      u := utxos[n];
    } else {
      u := MemberOfKey(utxos[..n], k);
    }
  }

  // ----- Notes that are left

  /** The notes with a non-zero value whose key is not excluded. */
  function Available(utxos: seq<SolutionTXO>, excluded: seq<string>): (r: seq<SolutionTXO>)
    ensures forall u | u in r :: u in utxos && Val(u) > 0 && UtxoIdPosition(u) !in excluded
    ensures |r| <= |utxos|
  {
    if utxos == [] then []
    else
      var u := utxos[|utxos| - 1];
      var rest := Available(utxos[..|utxos| - 1], excluded);
      if Val(u) > 0 && UtxoIdPosition(u) !in excluded then rest + [u] else rest
  }

  /** Filtering as the source does it: first the zero notes, then the excluded ones. */
  method FilterAvailable(utxos: seq<SolutionTXO>, excluded: seq<string>) returns (filtered: seq<SolutionTXO>)
    ensures filtered == Available(utxos, excluded)
  {
    var nonZero := FilterZeroUTXOs(utxos);
    filtered := [];
    for i := 0 to |nonZero|
      invariant filtered == Available(nonZero[..i], excluded)
    {
      Seqs.PrefixSnoc(nonZero, i);
      AvailableSnoc(nonZero[..i], nonZero[i], excluded);
      assert nonZero[i] in nonZero;
      if UtxoIdPosition(nonZero[i]) !in excluded {
        filtered := filtered + [nonZero[i]];
      }
    }
    Seqs.Whole(nonZero);
    AvailableTwice(utxos, [], excluded);
    assert [] + excluded == excluded;
  }

  method FilterZeroUTXOs(utxos: seq<SolutionTXO>) returns (out: seq<SolutionTXO>)
    ensures out == Available(utxos, [])
  {
    out := [];
    for i := 0 to |utxos|
      invariant out == Available(utxos[..i], [])
    {
      Seqs.PrefixSnoc(utxos, i);
      AvailableSnoc(utxos[..i], utxos[i], []);
      if utxos[i].value.Some? && utxos[i].value.value != 0 {
        out := out + [utxos[i]];
      }
    }
    Seqs.Whole(utxos);
  }

  lemma AvailableSnoc(utxos: seq<SolutionTXO>, u: SolutionTXO, excluded: seq<string>)
    ensures Available(utxos + [u], excluded)
         == if Val(u) > 0 && UtxoIdPosition(u) !in excluded then Available(utxos, excluded) + [u]
            else Available(utxos, excluded)
  {
    assert (utxos + [u])[..|utxos|] == utxos;
  }

  lemma {:induction false} AvailableConcat(a: seq<SolutionTXO>, b: seq<SolutionTXO>, excluded: seq<string>)
    ensures Available(a + b, excluded) == Available(a, excluded) + Available(b, excluded)
  {
    if b == [] {
      assert a + b == a;
    } else {
      var front, last := b[..|b| - 1], b[|b| - 1];
      AvailableConcat(a, front, excluded);
      Seqs.Assoc(a, front, [last]);
      assert b == front + [last];
      AvailableSnoc(a + front, last, excluded);
      AvailableSnoc(front, last, excluded);
      Seqs.Assoc(Available(a, excluded), Available(front, excluded), [last]);
    }
  }

  /** Excluding more filters what was left before. */
  lemma {:induction false} AvailableTwice(utxos: seq<SolutionTXO>, first: seq<string>, second: seq<string>)
    ensures Available(Available(utxos, first), second) == Available(utxos, first + second)
  {
    if utxos != [] {
      var n := |utxos| - 1;
      AvailableTwice(utxos[..n], first, second);
      AvailableSnoc(Available(utxos[..n], first), utxos[n], second);
    }
  }

  // ----- Order

  predicate Ascending(utxos: seq<SolutionTXO>) {
    forall i, j | 0 <= i < j < |utxos| :: Val(utxos[i]) <= Val(utxos[j])
  }

  /** Puts a note in front of the first note that is not smaller. */
  function Insert(u: SolutionTXO, sorted: seq<SolutionTXO>): seq<SolutionTXO> {
    if sorted == [] || Val(u) <= Val(sorted[0]) then [u] + sorted
    else [sorted[0]] + Insert(u, sorted[1..])
  }

  /** Go's stable sort by ascending value. */
  function Sorted(utxos: seq<SolutionTXO>): seq<SolutionTXO> {
    if utxos == [] then [] else Insert(utxos[0], Sorted(utxos[1..]))
  }

  lemma ConsFacts(u: SolutionTXO, s: seq<SolutionTXO>)
    ensures multiset([u] + s) == multiset{u} + multiset(s)
    ensures Keys([u] + s) == [UtxoIdPosition(u)] + Keys(s)
    ensures Total([u] + s) == Val(u) + Total(s)
  {
    KeysConcat([u], s);
    TotalConcat([u], s);
    assert Keys([u]) == [UtxoIdPosition(u)];
    assert Total([u]) == Val(u);
  }

  lemma {:induction false} InsertKeepsNotes(u: SolutionTXO, s: seq<SolutionTXO>)
    ensures multiset(Insert(u, s)) == multiset{u} + multiset(s)
  {
    if s != [] && Val(u) > Val(s[0]) {
      InsertKeepsNotes(u, s[1..]);
      assert s == [s[0]] + s[1..];
    }
  }

  lemma KeysStep(u: SolutionTXO, first: SolutionTXO, rest: seq<SolutionTXO>, inserted: seq<SolutionTXO>)
    requires multiset(Keys(inserted)) == multiset{UtxoIdPosition(u)} + multiset(Keys(rest))
    ensures multiset(Keys([first] + inserted)) == multiset{UtxoIdPosition(u)} + multiset(Keys([first] + rest))
  {
    ConsFacts(first, rest);
    ConsFacts(first, inserted);
  }

  lemma {:induction false} InsertKeepsKeys(u: SolutionTXO, s: seq<SolutionTXO>)
    ensures multiset(Keys(Insert(u, s))) == multiset{UtxoIdPosition(u)} + multiset(Keys(s))
  {
    if s == [] || Val(u) <= Val(s[0]) {
      ConsFacts(u, s);
    } else {
      InsertKeepsKeys(u, s[1..]);
      KeysStep(u, s[0], s[1..], Insert(u, s[1..]));
      assert s == [s[0]] + s[1..];
    }
  }

  lemma {:induction false} InsertKeepsTotal(u: SolutionTXO, s: seq<SolutionTXO>)
    ensures Total(Insert(u, s)) == Val(u) + Total(s)
  {
    if s == [] || Val(u) <= Val(s[0]) {
      ConsFacts(u, s);
    } else {
      InsertKeepsTotal(u, s[1..]);
      ConsFacts(s[0], s[1..]);
      ConsFacts(s[0], Insert(u, s[1..]));
      assert s == [s[0]] + s[1..];
    }
  }

  lemma {:induction false} InsertKeepsOrder(u: SolutionTXO, s: seq<SolutionTXO>)
    requires Ascending(s)
    ensures Ascending(Insert(u, s))
    ensures forall v | v in Insert(u, s) :: v == u || v in s
  {
    if s != [] && Val(u) > Val(s[0]) {
      InsertKeepsOrder(u, s[1..]);
      AscendingCons(s[0], Insert(u, s[1..]));
    }
  }

  lemma AscendingCons(u: SolutionTXO, s: seq<SolutionTXO>)
    requires Ascending(s) && forall v | v in s :: Val(u) <= Val(v)
    ensures Ascending([u] + s)
  {
  }

  lemma {:induction false} SortedIsAscending(utxos: seq<SolutionTXO>)
    ensures Ascending(Sorted(utxos))
  {
    if utxos != [] {
      SortedIsAscending(utxos[1..]);
      InsertKeepsOrder(utxos[0], Sorted(utxos[1..]));
    }
  }

  lemma SortedCons(u: SolutionTXO, rest: seq<SolutionTXO>)
    ensures Sorted([u] + rest) == Insert(u, Sorted(rest))
  {
    assert ([u] + rest)[1..] == rest;
  }

  lemma SortedStep(u: SolutionTXO, rest: seq<SolutionTXO>, sorted: seq<SolutionTXO>)
    requires multiset(sorted) == multiset(rest) && multiset(Keys(sorted)) == multiset(Keys(rest))
    requires Total(sorted) == Total(rest)
    ensures multiset(Insert(u, sorted)) == multiset([u] + rest)
    ensures multiset(Keys(Insert(u, sorted))) == multiset(Keys([u] + rest))
    ensures Total(Insert(u, sorted)) == Total([u] + rest)
  {
    InsertKeepsNotes(u, sorted);
    InsertKeepsKeys(u, sorted);
    InsertKeepsTotal(u, sorted);
    ConsFacts(u, rest);
  }

  /** Sorting loses nothing: the same notes, the same keys, the same sum. */
  lemma {:induction false} SortedKeeps(utxos: seq<SolutionTXO>)
    ensures multiset(Sorted(utxos)) == multiset(utxos)
    ensures multiset(Keys(Sorted(utxos))) == multiset(Keys(utxos))
    ensures Total(Sorted(utxos)) == Total(utxos)
  {
    if utxos != [] {
      var u, rest := utxos[0], utxos[1..];
      SortedKeeps(rest);
      SortedStep(u, rest, Sorted(rest));
      SortedCons(u, rest);
      assert utxos == [u] + rest;
    }
  }

  lemma SortedLength(utxos: seq<SolutionTXO>)
    ensures |Sorted(utxos)| == |utxos|
  {
    SortedKeeps(utxos);
    assert |multiset(Sorted(utxos))| == |multiset(utxos)|;
  }
}
