/** The two accumulator loops of the archive: the multiplicative binomial and the
    in-place "next index combination" enumeration, proved against `Binom` and `Combos`. */
module CombinationLoop {
  import opened Combinatorics

  lemma ExactDivision(a: int, b: int)
    requires a > 0
    ensures (a * b) % a == 0 && (a * b) / a == b
  {
    var q, r := (a * b) / a, (a * b) % a;
    assert a * b == a * q + r;
    assert a * (b - q) == r;
    if b - q >= 1 {
      MultipleAtLeast(a, b - q);
    } else if b - q <= -1 {
      MultipleAtLeast(a, q - b);
    }
  }

  lemma {:induction false} MultipleAtLeast(a: int, d: int)
    requires a > 0 && d >= 1
    ensures a * d >= a
  {
  }

  method BinomialCount(n: int, k: int) returns (result: int)
    ensures result == if 0 <= k <= n then Binom(n, k) else 0
  {
    if k < 0 || k > n || n < 0 {
      return 0;
    }
    if k == 0 || k == n {
      BinomFull(n);
      return 1;
    }
    var m := k;
    if m > n - m {
      m := n - m;
      BinomSymmetric(n, k);
    }
    result := 1;
    for i := 0 to m
      invariant result == Binom(n, i)
    {
      BinomAbsorb(n, i);
      ExactDivision(i + 1, Binom(n, i + 1));
      assert (result * (n - i)) % (i + 1) == 0;  // no remainder is ever dropped
      result := result * (n - i) / (i + 1);
    }
  }

  // ---------- positions ----------

  /** Positions from lo on, each leaving room for the ones to its right. */
  ghost predicate Positions(c: seq<int>, lo: int, n: int) {
    forall i :: 0 <= i < |c| ==> lo <= c[i] <= n - |c| + i
  }

  function Pick(numbers: seq<int>, c: seq<int>): (r: seq<int>)
    ensures |r| == |c|
  {
    seq(|c|, i requires 0 <= i < |c| => if 0 <= c[i] < |numbers| then numbers[c[i]] else 0)
  }

  /** The k-element position lists lo <= i1 < ... < ik < n, in lexicographic order. */
  function IndexCombos(lo: nat, n: nat, k: nat): seq<seq<int>>
    decreases n - lo
  {
    if k == 0 then [[]]
    else if lo >= n then []
    else Prepend(lo, IndexCombos(lo + 1, n, k - 1)) + IndexCombos(lo + 1, n, k)
  }

  lemma IndexCombosByHead(lo: nat, n: nat, k: nat, with: seq<seq<int>>, without: seq<seq<int>>)
    requires k > 0 && lo < n && IndexCombos(lo + 1, n, k - 1) == with && IndexCombos(lo + 1, n, k) == without
    ensures IndexCombos(lo, n, k) == Prepend(lo, with) + without
  {
  }

  lemma {:induction false} IndexCombosCount(lo: nat, n: nat, k: nat)
    requires lo <= n
    ensures |IndexCombos(lo, n, k)| == Binom(n - lo, k)
    decreases n - lo
  {
    if k > 0 && lo < n {
      IndexCombosCount(lo + 1, n, k - 1);
      IndexCombosCount(lo + 1, n, k);
    }
  }

  lemma NothingToChoose(lo: nat, n: nat, k: nat)
    requires k == 0 || n <= lo
    ensures IndexCombos(lo, n, k) == Combos(Range(lo, n), k)
  {
    assert n <= lo ==> Range(lo, n) == [];
  }

  /** The combinations of the positions lo..n-1, by first position. */
  lemma RangeCombos(lo: nat, n: nat, k: nat, with: seq<seq<int>>, without: seq<seq<int>>)
    requires lo < n && k > 0 && Combos(Range(lo + 1, n), k - 1) == with && Combos(Range(lo + 1, n), k) == without
    ensures Combos(Range(lo, n), k) == Prepend(lo, with) + without
  {
    assert Range(lo, n)[0] == lo && Range(lo, n)[1..] == Range(lo + 1, n);
    CombosByHead(Range(lo, n), k, with, without);
  }

  lemma {:induction false} IndexCombosAreCombos(lo: nat, n: nat, k: nat)
    ensures IndexCombos(lo, n, k) == Combos(Range(lo, n), k)
    decreases n - lo
  {
    if k == 0 || n <= lo {
      NothingToChoose(lo, n, k);
    } else {
      var with, without := IndexCombos(lo + 1, n, k - 1), IndexCombos(lo + 1, n, k);
      IndexCombosByHead(lo, n, k, with, without);
      IndexCombosAreCombos(lo + 1, n, k - 1);
      IndexCombosAreCombos(lo + 1, n, k);
      RangeCombos(lo, n, k, with, without);
    }
  }

  /** Every strictly increasing choice of k of the n positions is listed, and nothing else. */
  lemma EveryPositionTuple(n: nat, k: nat, c: seq<int>)
    ensures c in IndexCombos(0, n, k) <==> |c| == k && Ascending(c) && Within(c, 0, n - 1)
  {
    var s := Range(0, n);
    IndexCombosAreCombos(0, n, k);
    RangeAscends(0, n);
    if c in Combos(s, k) {
      CombosMember(s, k, c);
      forall i | 0 <= i < |c| ensures 0 <= c[i] <= n - 1 {
        assert c[i] in Elements(s);
      }
    }
    if |c| == k && Ascending(c) && Within(c, 0, n - 1) {
      forall i | 0 <= i < |c| ensures c[i] in Elements(s) {
        assert s[c[i]] == c[i];
      }
      CombosComplete(s, c);
    }
  }

  /** In lexicographic order, hence each once. */
  lemma PositionTuplesInOrder(n: nat, k: nat, i: nat, j: nat)
    requires i < j < |IndexCombos(0, n, k)|
    ensures LexLess(IndexCombos(0, n, k)[i], IndexCombos(0, n, k)[j])
  {
    IndexCombosAreCombos(0, n, k);
    RangeAscends(0, n);
    CombosLexicographic(Range(0, n), k);
  }

  // ---------- reading the numbers off position lists ----------

  function ReadAll(numbers: seq<int>, rows: seq<seq<int>>): (r: seq<seq<int>>)
    ensures |r| == |rows|
  {
    if rows == [] then [] else [Pick(numbers, rows[0])] + ReadAll(numbers, rows[1..])
  }

  lemma {:induction false} ReadAllAt(numbers: seq<int>, rows: seq<seq<int>>, pos: nat)
    requires pos < |rows|
    ensures ReadAll(numbers, rows)[pos] == Pick(numbers, rows[pos])
  {
    if pos > 0 { ReadAllAt(numbers, rows[1..], pos - 1); }
  }

  lemma {:induction false} ReadAllConcat(numbers: seq<int>, a: seq<seq<int>>, b: seq<seq<int>>)
    ensures ReadAll(numbers, a + b) == ReadAll(numbers, a) + ReadAll(numbers, b)
  {
    if a == [] {
      assert a + b == b;
    } else {
      assert (a + b)[1..] == a[1..] + b && (a + b)[0] == a[0];
      ReadAllConcat(numbers, a[1..], b);
    }
  }

  lemma {:induction false} ReadAllPrepend(numbers: seq<int>, lo: nat, rows: seq<seq<int>>)
    requires lo < |numbers|
    ensures ReadAll(numbers, Prepend(lo, rows)) == Prepend(numbers[lo], ReadAll(numbers, rows))
  {
    if rows != [] {
      ReadAllPrepend(numbers, lo, rows[1..]);
      PickCons(numbers, lo, rows[0]);
      PrependCons(numbers[lo], Pick(numbers, rows[0]), ReadAll(numbers, rows[1..]));
      assert ([[lo] + rows[0]] + Prepend(lo, rows[1..]))[1..] == Prepend(lo, rows[1..]);
    }
  }

  lemma PickCons(numbers: seq<int>, lo: nat, c: seq<int>)
    requires lo < |numbers|
    ensures Pick(numbers, [lo] + c) == [numbers[lo]] + Pick(numbers, c)
  {
  }

  /** The combinations of a list are the combinations of its positions, read through the list. */
  lemma {:induction false} CombosByPosition(numbers: seq<int>, lo: nat, k: nat)
    requires lo <= |numbers|
    ensures Combos(numbers[lo..], k) == ReadAll(numbers, IndexCombos(lo, |numbers|, k))
    decreases |numbers| - lo
  {
    var n := |numbers|;
    if k == 0 {
      assert ReadAll(numbers, [[]]) == [[]];
    } else if lo < n {
      assert numbers[lo..][1..] == numbers[lo + 1..];
      CombosByPosition(numbers, lo + 1, k - 1);
      CombosByPosition(numbers, lo + 1, k);
      var with, without := IndexCombos(lo + 1, n, k - 1), IndexCombos(lo + 1, n, k);
      ReadAllConcat(numbers, Prepend(lo, with), without);
      ReadAllPrepend(numbers, lo, with);
    }
  }

  lemma CombosAt(numbers: seq<int>, k: nat, pos: nat)
    requires pos < |IndexCombos(0, |numbers|, k)|
    ensures |Combos(numbers, k)| == |IndexCombos(0, |numbers|, k)|
    ensures Combos(numbers, k)[pos] == Pick(numbers, IndexCombos(0, |numbers|, k)[pos])
  {
    assert numbers[0..] == numbers;
    CombosByPosition(numbers, 0, k);
    ReadAllAt(numbers, IndexCombos(0, |numbers|, k), pos);
  }

  // ---------- the next combination ----------

  /** Every position from i on is at its ceiling in a list over n positions. */
  ghost predicate CeilingFrom(c: seq<int>, n: int, i: int) {
    forall j :: 0 <= j < |c| && i <= j ==> c[j] == n - |c| + j
  }

  /** Position i bumped and everything to its right restarted. */
  function Bumped(c: seq<int>, i: nat): (r: seq<int>)
    requires i < |c|
    ensures |r| == |c|
  {
    if i == 0 then Range(c[0] + 1, c[0] + 1 + |c|) else [c[0]] + Bumped(c[1..], i - 1)
  }

  /** The position lists that come after c. */
  ghost function After(c: seq<int>, n: nat): seq<seq<int>>
    requires Positions(c, 0, n)
  {
    if c == [] then []
    else Prepend(c[0], After(c[1..], n)) + IndexCombos(c[0] + 1, n, |c|)
  }

  lemma AfterHead(c: seq<int>, n: nat, tail: seq<int>)
    requires Positions(c, 0, n) && c != [] && c[1..] == tail && Positions(tail, 0, n)
    ensures After(c, n) == Prepend(c[0], After(tail, n)) + IndexCombos(c[0] + 1, n, |c|)
  {
  }

  /** Stepping inside the first block of a two-block list. */
  lemma Splice(x: int, next: seq<int>, rest: seq<seq<int>>, without: seq<seq<int>>)
    ensures Prepend(x, [next] + rest) + without == [[x] + next] + (Prepend(x, rest) + without)
  {
    PrependCons(x, next, rest);
    var head, tail := [[x] + next], Prepend(x, rest);
    assert (head + tail) + without == head + (tail + without);
  }

  lemma NoneLeft(lo: nat, n: nat, k: nat)
    requires lo <= n < lo + k
    ensures IndexCombos(lo, n, k) == []
  {
    IndexCombosCount(lo, n, k);
    BinomZero(n - lo, k);
  }

  /** With every position at its ceiling the list is exhausted. */
  lemma {:induction false} NothingAfterCeiling(c: seq<int>, n: nat)
    requires Positions(c, 0, n) && CeilingFrom(c, n, 0)
    ensures After(c, n) == []
  {
    if c != [] {
      assert forall j :: 0 <= j < |c| - 1 ==> c[1..][j] == c[j + 1];
      NothingAfterCeiling(c[1..], n);
      NoneLeft(c[0] + 1, n, |c|);
    }
  }

  /** A list at the head of its block, and what comes after it. */
  lemma FirstOfBlock(c: seq<int>, n: nat, tail: seq<int>, without: seq<seq<int>>)
    requires Positions(c, 0, n) && c != [] && c[1..] == tail && Positions(tail, 0, n)
    requires IndexCombos(c[0] + 1, n, |c|) == without
    ensures Prepend(c[0], [tail] + After(tail, n)) + without == [c] + After(c, n)
  {
    AfterHead(c, n, tail);
    Splice(c[0], tail, After(tail, n), without);
    assert [c[0]] + tail == c;
  }

  lemma FirstStep(c: seq<int>, n: nat, tail: seq<int>)
    requires Positions(c, 0, n) && c != [] && c[1..] == tail && Positions(tail, 0, n)
    ensures IndexCombos(c[0] + 1, n, |tail|) == [tail] + After(tail, n) ==>
            IndexCombos(c[0], n, |c|) == [c] + After(c, n)
  {
    var without := IndexCombos(c[0] + 1, n, |c|);
    IndexCombosByHead(c[0], n, |c|, IndexCombos(c[0] + 1, n, |tail|), without);
    FirstOfBlock(c, n, tail, without);
  }

  /** The list starts with lo, lo+1, ..., and continues with what comes after that. */
  lemma {:induction false} FirstCombination(lo: nat, n: nat, k: nat)
    requires lo + k <= n
    ensures IndexCombos(lo, n, k) == [Range(lo, lo + k)] + After(Range(lo, lo + k), n)
    decreases n - lo
  {
    if k > 0 {
      var tail := Range(lo + 1, lo + k);
      FirstCombination(lo + 1, n, k - 1);
      FirstStep(Range(lo, lo + k), n, tail);
    }
  }

  lemma {:induction false} BumpedPositions(c: seq<int>, n: nat, i: nat)
    requires Positions(c, 0, n) && i < |c| && c[i] < n - |c| + i
    ensures Positions(Bumped(c, i), 0, n)
  {
    if i > 0 {
      assert forall j :: 0 <= j < |c| - 1 ==> c[1..][j] == c[j + 1];
      BumpedPositions(c[1..], n, i - 1);
    }
  }

  /** The first position bumped, everything after it being exhausted. */
  lemma BumpedFirstIsNext(c: seq<int>, n: nat)
    requires Positions(c, 0, n) && c != [] && c[0] < n - |c| && CeilingFrom(c, n, 1)
    ensures After(c, n) == [Bumped(c, 0)] + After(Bumped(c, 0), n)
  {
    var tail := c[1..];
    assert Positions(tail, 0, n) && CeilingFrom(tail, n, 0) by {
      assert forall j :: 0 <= j < |tail| ==> tail[j] == c[j + 1];
    }
    calc {
      After(c, n);
      Prepend(c[0], After(tail, n)) + IndexCombos(c[0] + 1, n, |c|);
      { NothingAfterCeiling(tail, n); assert Prepend(c[0], []) == []; }
      IndexCombos(c[0] + 1, n, |c|);
      { FirstCombination(c[0] + 1, n, |c|); }
      [Bumped(c, 0)] + After(Bumped(c, 0), n);
    }
  }

  /** The tail advanced is the whole list advanced. */
  lemma AdvancedTail(c: seq<int>, n: nat, tail: seq<int>, advanced: seq<int>, next: seq<int>)
    requires Positions(c, 0, n) && c != [] && c[1..] == tail && Positions(tail, 0, n)
    requires Positions(advanced, 0, n) && |advanced| == |c| && advanced[0] == c[0] && advanced[1..] == next
    requires Positions(next, 0, n)
    ensures After(tail, n) == [next] + After(next, n) ==> After(c, n) == [advanced] + After(advanced, n)
  {
    AfterHead(c, n, tail);
    FirstOfBlock(advanced, n, next, IndexCombos(c[0] + 1, n, |c|));
  }

  lemma TailPositions(c: seq<int>, n: nat, i: nat)
    requires Positions(c, 0, n) && 0 < i < |c| && CeilingFrom(c, n, i + 1)
    ensures Positions(c[1..], 0, n) && CeilingFrom(c[1..], n, i) && c[1..][i - 1] == c[i]
  {
    assert forall j :: 0 <= j < |c| - 1 ==> c[1..][j] == c[j + 1];
  }

  /** Bumping the rightmost position below its ceiling gives exactly the next list. */
  lemma {:induction false} BumpedIsNext(c: seq<int>, n: nat, i: nat)
    requires Positions(c, 0, n) && i < |c| && c[i] < n - |c| + i && CeilingFrom(c, n, i + 1)
    ensures Positions(Bumped(c, i), 0, n)
    ensures After(c, n) == [Bumped(c, i)] + After(Bumped(c, i), n)
  {
    BumpedPositions(c, n, i);
    if i == 0 {
      BumpedFirstIsNext(c, n);
    } else {
      TailPositions(c, n, i);
      BumpedIsNext(c[1..], n, i - 1);
      AdvancedTail(c, n, c[1..], Bumped(c, i), Bumped(c[1..], i - 1));
    }
  }

  lemma {:induction false} BumpedByIndex(c: seq<int>, i: nat)
    requires i < |c|
    ensures forall j :: 0 <= j < i ==> Bumped(c, i)[j] == c[j]
    ensures forall j :: i <= j < |c| ==> Bumped(c, i)[j] == c[i] + 1 + j - i
  {
    if i > 0 { BumpedByIndex(c[1..], i - 1); }
  }

  // ---------- the loop ----------

  method GenerateCombinations(numbers: seq<int>, k: int) returns (result: seq<seq<int>>)
    ensures result == if k > 0 then Combos(numbers, k) else []
    ensures k > 0 ==> |result| == Binom(|numbers|, k)
  {
    var n := |numbers|;
    if k > 0 { CombosCount(numbers, k); }
    if k > n || k <= 0 {
      if k > n && k > 0 { BinomZero(n, k); }
      return [];
    }
    if k == n {
      CombosAll(numbers);
      return [numbers];
    }
    var indices := new int[k];
    for i := 0 to k
      invariant forall j :: 0 <= j < i ==> indices[j] == j
    {
      indices[i] := i;
    }
    assert indices[..] == Range(0, k);
    result := Enumerate(numbers, indices);
  }

  /** The position list c is row `pos` of the enumeration, and the rows after it are those that come after c. */
  ghost predicate AtRow(n: nat, k: nat, pos: nat, c: seq<int>) {
    pos < |IndexCombos(0, n, k)| && Positions(c, 0, n) && IndexCombos(0, n, k)[pos..] == [c] + After(c, n)
  }

  lemma FirstRow(n: nat, k: nat)
    requires k <= n
    ensures AtRow(n, k, 0, Range(0, k))
  {
    FirstCombination(0, n, k);
    assert IndexCombos(0, n, k)[0..] == IndexCombos(0, n, k);
  }

  lemma RowRead(numbers: seq<int>, k: nat, pos: nat, c: seq<int>)
    requires AtRow(|numbers|, k, pos, c)
    ensures pos < |Combos(numbers, k)| && Combos(numbers, k)[pos] == Pick(numbers, c)
  {
    var all := IndexCombos(0, |numbers|, k);
    assert all[pos..][0] == all[pos];
    CombosAt(numbers, k, pos);
  }

  lemma RowAfter(n: nat, k: nat, pos: nat, c: seq<int>, next: seq<int>)
    requires AtRow(n, k, pos, c) && Positions(next, 0, n) && After(c, n) == [next] + After(next, n)
    ensures AtRow(n, k, pos + 1, next)
  {
    var all := IndexCombos(0, n, k);
    assert all[pos..][1..] == all[pos + 1..];
  }

  lemma LastRow(numbers: seq<int>, k: nat, pos: nat, c: seq<int>)
    requires AtRow(|numbers|, k, pos, c) && After(c, |numbers|) == []
    ensures pos + 1 == |Combos(numbers, k)|
  {
    CombosAt(numbers, k, pos);
  }

  method Enumerate(numbers: seq<int>, indices: array<int>) returns (result: seq<seq<int>>)
    requires indices.Length <= |numbers| && indices[..] == Range(0, indices.Length)
    modifies indices
    ensures result == Combos(numbers, indices.Length)
  {
    var n, k := |numbers|, indices.Length;
    ghost var goal := Combos(numbers, k);
    FirstRow(n, k);
    RowRead(numbers, k, 0, indices[..]);
    result := [];
    var more := true;
    while more
      invariant |result| <= |goal| && result == goal[..|result|]
      invariant if more then |result| < |goal| && AtRow(n, k, |result|, indices[..]) else |result| == |goal|
      decreases |goal| - |result|, more
    {
      var combo;
      combo, more := ReadRow(numbers, indices, |result|);
      result := result + [combo];
    }
  }

  /** Read the row the indices stand at, and move them to the next one. */
  method ReadRow(numbers: seq<int>, indices: array<int>, ghost pos: nat) returns (combo: seq<int>, more: bool)
    requires AtRow(|numbers|, indices.Length, pos, indices[..])
    modifies indices
    ensures pos < |Combos(numbers, indices.Length)| && combo == Combos(numbers, indices.Length)[pos]
    ensures if more
            then AtRow(|numbers|, indices.Length, pos + 1, indices[..]) && pos + 1 < |Combos(numbers, indices.Length)|
            else pos + 1 == |Combos(numbers, indices.Length)|
  {
    ghost var n, k, c := |numbers|, indices.Length, indices[..];
    RowRead(numbers, k, pos, c);
    combo := PickAt(numbers, indices);
    more := Advance(indices, |numbers|);
    if more {
      RowAfter(n, k, pos, c, indices[..]);
      RowRead(numbers, k, pos + 1, indices[..]);
    } else {
      LastRow(numbers, k, pos, c);
    }
  }

  /** Advance to the next combination in lexicographic index order; false when there is none. */
  method Advance(indices: array<int>, n: nat) returns (more: bool)
    requires Positions(indices[..], 0, n)
    modifies indices
    ensures more ==> Positions(indices[..], 0, n) && old(After(indices[..], n)) == [indices[..]] + After(indices[..], n)
    ensures !more ==> old(After(indices[..], n)) == []
  {
    var k := indices.Length;
    ghost var c := indices[..];
    var i := k - 1;
    while i >= 0 && indices[i] == n - k + i
      invariant -1 <= i < k
      invariant CeilingFrom(c, n, i + 1)
    {
      i := i - 1;
    }
    if i < 0 {
      NothingAfterCeiling(c, n);
      return false;
    }
    BumpedIsNext(c, n, i);
    Bump(indices, i);
    return true;
  }

  method PickAt(numbers: seq<int>, indices: array<int>) returns (combo: seq<int>)
    requires Positions(indices[..], 0, |numbers|)
    ensures combo == Pick(numbers, indices[..])
  {
    combo := [];
    for i := 0 to indices.Length
      invariant combo == Pick(numbers, indices[..i])
    {
      combo := combo + [numbers[indices[i]]];
    }
    assert indices[..indices.Length] == indices[..];
  }

  /** indices[i]++ and the refill of everything to its right. */
  method Bump(indices: array<int>, i: nat)
    requires i < indices.Length
    modifies indices
    ensures indices[..] == Bumped(old(indices[..]), i)
  {
    indices[i] := indices[i] + 1;
    for j := i + 1 to indices.Length
      invariant forall m :: 0 <= m < i ==> indices[m] == old(indices[m])
      invariant forall m :: i <= m < j ==> indices[m] == old(indices[i]) + 1 + m - i
    {
      indices[j] := indices[j - 1] + 1;
    }
    BumpedByIndex(old(indices[..]), i);
  }
}
