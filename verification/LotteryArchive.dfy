/** The preloaded view of one window of draws and the queries answered from it. */
module LotteryArchives {
  import opened Combinatorics
  import opened CombinationLoop
  import opened ComboMasks
  import opened TreeModel
  import opened GroupStatistics
  import opened LotteryTree
  import opened DateWindow

  datatype LotteryType = Lottery | TripleSeven | OneTwoThree

  const MAX_STRONG := 7
  const MAX_INT32 := 0x7fff_ffff

  function MaxNumber(lottery: LotteryType): (r: int)
    ensures r >= 10
  {
    match lottery
    case TripleSeven => 70
    case OneTwoThree => 10
    case Lottery => 37
  }

  // ---------- what is derived from the draws ----------

  function InsertSorted(x: int, s: seq<int>): seq<int> {
    if s == [] || x <= s[0] then [x] + s else [s[0]] + InsertSorted(x, s[1..])
  }

  /** sort.Ints */
  function SortInts(s: seq<int>): seq<int> {
    if s == [] then [] else InsertSorted(s[0], SortInts(s[1..]))
  }

  lemma {:induction false} InsertSortedMembers(x: int, s: seq<int>)
    ensures |InsertSorted(x, s)| == |s| + 1
    ensures forall y :: y in InsertSorted(x, s) <==> y == x || y in s
  {
    if s != [] {
      Uncons(s);
      InsertSortedMembers(x, s[1..]);
    }
  }

  lemma {:induction false} InsertSortedAscends(x: int, s: seq<int>)
    requires Ascending(s) && x !in s
    ensures Ascending(InsertSorted(x, s))
  {
    if s != [] {
      Uncons(s);
      var r := InsertSorted(x, s[1..]);
      InsertSortedMembers(x, s[1..]);
      if x <= s[0] {
        assert ([x] + s)[1..] == s;
      } else {
        InsertSortedAscends(x, s[1..]);
        assert ([s[0]] + r)[1..] == r;
        assert forall i :: 0 <= i < |r| ==> r[i] in r;
      }
    }
  }

  ghost predicate NonDecreasing(s: seq<int>) {
    s == [] || ((forall i :: 1 <= i < |s| ==> s[0] <= s[i]) && NonDecreasing(s[1..]))
  }

  lemma {:induction false} InsertSortedIsInsert(x: int, s: seq<int>)
    requires NonDecreasing(s)
    ensures multiset(InsertSorted(x, s)) == multiset(s) + multiset{x}
    ensures NonDecreasing(InsertSorted(x, s))
  {
    if s == [] || x <= s[0] {
      assert ([x] + s)[1..] == s;
    } else {
      var r := InsertSorted(x, s[1..]);
      InsertSortedIsInsert(x, s[1..]);
      InsertSortedMembers(x, s[1..]);
      Uncons(s);
      assert s == [s[0]] + s[1..];
      assert ([s[0]] + r)[1..] == r;
      forall i | 0 <= i < |r| ensures s[0] <= r[i] {
        assert r[i] in r;
      }
    }
  }

  lemma CountsByHead(s: seq<int>)
    requires s != []
    ensures multiset(s) == multiset(s[1..]) + multiset{s[0]}
  {
    assert s == [s[0]] + s[1..];
  }

  /** What a sort of numbers is, repeats included: the same numbers, each as often, in nondecreasing order. */
  lemma {:induction false} SortIntsIsSort(s: seq<int>)
    ensures multiset(SortInts(s)) == multiset(s) && NonDecreasing(SortInts(s))
  {
    if s != [] {
      SortIntsIsSort(s[1..]);
      InsertSortedIsInsert(s[0], SortInts(s[1..]));
      CountsByHead(s);
    }
  }

  /** Sorting keeps the numbers; without repeats the result is strictly increasing. */
  lemma {:induction false} SortIntsSorts(s: seq<int>)
    ensures |SortInts(s)| == |s| && Elements(SortInts(s)) == Elements(s)
    ensures Distinct(s) ==> Ascending(SortInts(s))
  {
    if s != [] {
      Uncons(s);
      SortIntsSorts(s[1..]);
      InsertSortedMembers(s[0], SortInts(s[1..]));
      forall y ensures y in Elements(SortInts(s)) <==> y in Elements(s) {
        assert y in Elements(SortInts(s[1..])) <==> y in Elements(s[1..]);
      }
      if Distinct(s) {
        assert s[0] !in Elements(s[1..]);
        assert s[0] !in SortInts(s[1..]);
        InsertSortedAscends(s[0], SortInts(s[1..]));
      }
    }
  }

  function NumbersOf(draws: seq<Draw>): (r: seq<seq<int>>)
    ensures |r| == |draws|
    ensures forall i :: 0 <= i < |r| ==> r[i] == draws[i].numbers
  {
    seq(|draws|, i requires 0 <= i < |draws| => draws[i].numbers)
  }

  function StrongsOf(draws: seq<Draw>): (r: seq<seq<int>>)
    ensures |r| == |draws|
    ensures forall i :: 0 <= i < |r| ==> r[i] == [draws[i].strong]
  {
    seq(|draws|, i requires 0 <= i < |draws| => [draws[i].strong])
  }

  /** The mask a complete draw contributes to the winning combinations. */
  function WinningMask(d: Draw): Word
    requires |d.numbers| >= 6
  {
    Mask(SortInts(d.numbers[..6]))
  }

  ghost function WinningMasks(draws: seq<Draw>): set<Word> {
    set i | 0 <= i < |draws| && |draws[i].numbers| >= 6 :: WinningMask(draws[i])
  }

  function FirstNumbers(es: seq<NodeEntry>): (r: seq<int>)
    requires forall i :: 0 <= i < |es| ==> |es[i].numbers| > 0
    ensures |r| == |es|
    ensures forall i :: 0 <= i < |r| ==> r[i] == es[i].numbers[0]
  {
    seq(|es|, i requires 0 <= i < |es| => es[i].numbers[0])
  }

  /** The tree of the regular numbers. */
  function NumberTree(lottery: LotteryType, draws: seq<Draw>): Tree {
    Built(MaxNumber(lottery), NumbersOf(draws), MAX_GROUP_SIZE)
  }

  function StrongTreeOf(draws: seq<Draw>): Tree { Built(MAX_STRONG + 2, StrongsOf(draws), 1) }

  lemma NumberTreeShaped(lottery: LotteryType, draws: seq<Draw>)
    ensures Shaped(NumberTree(lottery, draws), MaxNumber(lottery)) && NumberTree(lottery, draws).num == 0
  {
    InsertAllShaped(Fresh(0, MaxNumber(lottery)), NumbersOf(draws), MAX_GROUP_SIZE, MaxNumber(lottery));
  }

  lemma RankingNonemptyGroups(lottery: LotteryType, draws: seq<Draw>, k: nat, weak: bool)
    requires k > 0
    ensures forall i :: 0 <= i < |Ranking(NumberTree(lottery, draws), k, weak)| ==>
              |Ranking(NumberTree(lottery, draws), k, weak)[i].numbers| == k
  {
    var t := NumberTree(lottery, draws);
    NumberTreeShaped(lottery, draws);
    forall i | 0 <= i < |Ranking(t, k, weak)| ensures |Ranking(t, k, weak)[i].numbers| == k {
      RankingIsCanonical(t, MaxNumber(lottery), k, weak, Ranking(t, k, weak)[i]);
    }
  }

  /** The candidate order handed to the form generator. */
  ghost function NumberRanking(lottery: LotteryType, draws: seq<Draw>, weak: bool): seq<int> {
    if draws == [] then Range(1, MaxNumber(lottery) + 1)
    else
      RankingNonemptyGroups(lottery, draws, 1, weak);
      FirstNumbers(Ranking(NumberTree(lottery, draws), 1, weak))
  }

  ghost predicate DrawnIn(draws: seq<Draw>, x: int) {
    exists d :: 0 <= d < |draws| && x in draws[d].numbers
  }

  lemma {:induction false} SingletonSubsequence(x: int, s: seq<int>)
    ensures IsSubsequence([x], s) <==> x in s
  {
    if s != [] {
      SingletonSubsequence(x, s[1..]);
      assert IsSubsequence([x][1..], s[1..]);
      Uncons(s);
    }
  }

  /** A number has a depth-one node exactly when it is in range and was drawn. */
  lemma NumberNode(lottery: LotteryType, draws: seq<Draw>, x: int)
    ensures HasNode(NumberTree(lottery, draws), [x]) <==> 1 <= x <= MaxNumber(lottery) && DrawnIn(draws, x)
  {
    var data := NumbersOf(draws);
    BuiltNodes(MaxNumber(lottery), data, MAX_GROUP_SIZE, [x]);
    forall d | 0 <= d < |data| ensures IsSubsequence([x], data[d]) <==> x in draws[d].numbers {
      SingletonSubsequence(x, data[d]);
    }
    assert [x][1..] == [];
    assert Within([x], 1, MaxNumber(lottery)) <==> 1 <= [x][0] <= MaxNumber(lottery);
    if DrawnIn(draws, x) {
      var d :| 0 <= d < |draws| && x in draws[d].numbers;
      assert IsSubsequence([x], data[d]);
    }
  }

  /** The ranking lists exactly the in-range drawn numbers, each once. */
  lemma NumberRankingExact(lottery: LotteryType, draws: seq<Draw>, weak: bool, x: int)
    requires draws != []
    ensures x in NumberRanking(lottery, draws, weak) <==> 1 <= x <= MaxNumber(lottery) && DrawnIn(draws, x)
  {
    NumberNode(lottery, draws, x);
    RankedHasNode(lottery, draws, weak, x);
    NodeIsRanked(lottery, draws, weak, x);
  }

  lemma RankedHasNode(lottery: LotteryType, draws: seq<Draw>, weak: bool, x: int)
    requires draws != []
    ensures x in NumberRanking(lottery, draws, weak) ==> HasNode(NumberTree(lottery, draws), [x])
  {
    var t := NumberTree(lottery, draws);
    var r := Ranking(t, 1, weak);
    NumberTreeShaped(lottery, draws);
    RankingNonemptyGroups(lottery, draws, 1, weak);
    if x in NumberRanking(lottery, draws, weak) {
      var i :| 0 <= i < |r| && r[i].numbers[0] == x;
      RankingIsCanonical(t, MaxNumber(lottery), 1, weak, r[i]);
      assert r[i].numbers == [x];
    }
  }

  lemma NodeIsRanked(lottery: LotteryType, draws: seq<Draw>, weak: bool, x: int)
    requires draws != []
    ensures HasNode(NumberTree(lottery, draws), [x]) ==> x in NumberRanking(lottery, draws, weak)
  {
    var t := NumberTree(lottery, draws);
    var r := Ranking(t, 1, weak);
    NumberTreeShaped(lottery, draws);
    RankingNonemptyGroups(lottery, draws, 1, weak);
    RankingIsCanonical(t, MaxNumber(lottery), 1, weak, NodeEntry([x], Lookup(t, [x])));
    if HasNode(t, [x]) {
      var i :| 0 <= i < |r| && r[i] == NodeEntry([x], Lookup(t, [x]));
      assert NumberRanking(lottery, draws, weak)[i] == x;
    }
  }

  /** With no draws every number of the game is ranked, in ascending order. */
  lemma NoDrawsRanking(lottery: LotteryType, weak: bool)
    ensures var ranked := NumberRanking(lottery, [], weak);
            && |ranked| == MaxNumber(lottery) && Ascending(ranked)
            && forall x :: x in ranked <==> 1 <= x <= MaxNumber(lottery)
  {
    var ranked := NumberRanking(lottery, [], weak);
    RangeAscends(1, MaxNumber(lottery) + 1);
    forall x | 1 <= x <= MaxNumber(lottery) ensures x in ranked {
      assert ranked[x - 1] == x;
    }
  }

  /** How often a number occurs in the draws. */
  function TimesDrawn(draws: seq<Draw>, x: int): nat { TotalEmbeddings(NumbersOf(draws), [x]) }

  lemma RankedEntries(lottery: LotteryType, draws: seq<Draw>, weak: bool, i: nat, j: nat)
    returns (a: NodeEntry, b: NodeEntry)
    requires draws != [] && i < j < |NumberRanking(lottery, draws, weak)|
    ensures Precedes(weak, a, b)
    ensures var x := NumberRanking(lottery, draws, weak)[i]; a == NodeEntry([x], TimesDrawn(draws, x))
    ensures var y := NumberRanking(lottery, draws, weak)[j]; b == NodeEntry([y], TimesDrawn(draws, y))
  {
    var r := Ranking(NumberTree(lottery, draws), 1, weak);
    a, b := r[i], r[j];
    NumberTreeShaped(lottery, draws);
    RankingInOrder(NumberTree(lottery, draws), MaxNumber(lottery), 1, weak);
    CanonicalByIndex(weak, r, i, j);
    RankedCount(lottery, draws, weak, i);
    RankedCount(lottery, draws, weak, j);
  }

  lemma SingletonsPrecede(weak: bool, a: NodeEntry, b: NodeEntry)
    requires Precedes(weak, a, b) && |a.numbers| == |b.numbers| == 1
    ensures || (if weak then a.count < b.count else a.count > b.count)
            || (a.count == b.count && a.numbers[0] < b.numbers[0])
  {
    assert !LexLess(a.numbers[1..], b.numbers[1..]);
  }

  /** The order of the ranking: most (or least) often drawn first, and the smaller number first among equals. */
  lemma NumberRankingOrder(lottery: LotteryType, draws: seq<Draw>, weak: bool, i: nat, j: nat)
    requires draws != [] && i < j < |NumberRanking(lottery, draws, weak)|
    ensures var (x, y) := (NumberRanking(lottery, draws, weak)[i], NumberRanking(lottery, draws, weak)[j]);
            || (if weak then TimesDrawn(draws, x) < TimesDrawn(draws, y)
                else TimesDrawn(draws, x) > TimesDrawn(draws, y))
            || (TimesDrawn(draws, x) == TimesDrawn(draws, y) && x < y)
  {
    var a, b := RankedEntries(lottery, draws, weak, i, j);
    SingletonsPrecede(weak, a, b);
  }

  /** The count carried by an entry of the ranking. */
  lemma RankedCount(lottery: LotteryType, draws: seq<Draw>, weak: bool, i: nat)
    requires draws != [] && i < |NumberRanking(lottery, draws, weak)|
    ensures var x := NumberRanking(lottery, draws, weak)[i];
            Ranking(NumberTree(lottery, draws), 1, weak)[i] == NodeEntry([x], TimesDrawn(draws, x))
  {
    var t := NumberTree(lottery, draws);
    var e := Ranking(t, 1, weak)[i];
    NumberTreeShaped(lottery, draws);
    RankingMembers(t, MaxNumber(lottery), 1, weak, e);
    PathsAscend(t, MaxNumber(lottery), e.numbers);
    BuiltCounts(MaxNumber(lottery), NumbersOf(draws), MAX_GROUP_SIZE, e.numbers);
    assert e.numbers == [e.numbers[0]];
  }

  lemma NumberRankingDistinct(lottery: LotteryType, draws: seq<Draw>, weak: bool)
    ensures Distinct(NumberRanking(lottery, draws, weak))
    ensures Within(NumberRanking(lottery, draws, weak), 1, MaxNumber(lottery))
  {
    var ns := NumberRanking(lottery, draws, weak);
    if draws == [] {
      RangeAscends(1, MaxNumber(lottery) + 1);
      AscendingIsDistinct(ns);
    } else {
      forall i, j | 0 <= i < j < |ns| ensures ns[i] != ns[j] {
        NumberRankingOrder(lottery, draws, weak, i, j);
      }
      DistinctByIndex(ns);
      forall i | 0 <= i < |ns| ensures 1 <= ns[i] <= MaxNumber(lottery) {
        NumberRankingExact(lottery, draws, weak, ns[i]);
      }
    }
  }

  // ---------- strong numbers ----------

  /** How many draws had n as their strong number. */
  function StrongCount(draws: seq<Draw>, n: int): nat {
    if draws == [] then 0 else (if draws[0].strong == n then 1 else 0) + StrongCount(draws[1..], n)
  }

  lemma {:induction false} StrongEmbeddings(draws: seq<Draw>, n: int)
    ensures TotalEmbeddings(StrongsOf(draws), [n]) == StrongCount(draws, n)
  {
    if draws != [] {
      StrongEmbeddings(draws[1..], n);
      assert StrongsOf(draws)[1..] == StrongsOf(draws[1..]);
      assert Embeddings([draws[0].strong], [n]) == if draws[0].strong == n then 1 else 0;
    }
  }

  /** The strong tree's depth-one counts. */
  lemma StrongLookup(draws: seq<Draw>, n: int)
    requires 1 <= n <= MAX_STRONG + 2
    ensures Lookup(StrongTreeOf(draws), [n]) == StrongCount(draws, n)
    ensures HasNode(StrongTreeOf(draws), [n]) <==> StrongCount(draws, n) > 0
  {
    BuiltCounts(MAX_STRONG + 2, StrongsOf(draws), 1, [n]);
    StrongEmbeddings(draws, n);
    InsertAllShaped(Fresh(0, MAX_STRONG + 2), StrongsOf(draws), 1, MAX_STRONG + 2);
    NodeIffCounted(StrongTreeOf(draws), MAX_STRONG + 2, [n]);
  }

  /** Eligible as the top strong number: drawn, and in weak mode below the sentinel count. */
  predicate StrongCandidate(draws: seq<Draw>, weak: bool, n: int) {
    1 <= n <= MAX_STRONG && StrongCount(draws, n) > 0 && (weak ==> StrongCount(draws, n) < MAX_INT32)
  }

  /** best beats every other candidate; among equals it is the smallest number. */
  ghost predicate IsTopStrong(draws: seq<Draw>, weak: bool, upTo: int, best: int) {
    && (best == 0 <==> forall n :: 1 <= n <= upTo ==> !StrongCandidate(draws, weak, n))
    && (best != 0 ==> StrongCandidate(draws, weak, best) && best <= upTo)
    && (best != 0 ==> forall n :: 1 <= n <= upTo && StrongCandidate(draws, weak, n) ==>
          if weak then
            || StrongCount(draws, best) < StrongCount(draws, n)
            || (StrongCount(draws, best) == StrongCount(draws, n) && best <= n)
          else
            || StrongCount(draws, best) > StrongCount(draws, n)
            || (StrongCount(draws, best) == StrongCount(draws, n) && best <= n))
  }

  // ---------- winning combinations ----------

  ghost predicate WonBy(d: Draw, combo: seq<int>) {
    |d.numbers| >= 6 && Elements(d.numbers[..6]) == Elements(combo)
  }

  /** A combination has won exactly when its numbers are some draw's first six. */
  lemma HasWonMeans(draws: seq<Draw>, combo: seq<int>)
    requires Maskable(combo)
    requires forall d :: 0 <= d < |draws| && |draws[d].numbers| >= 6 ==> Maskable(draws[d].numbers[..6])
    ensures Mask(combo) in WinningMasks(draws) <==> exists d :: 0 <= d < |draws| && WonBy(draws[d], combo)
  {
    forall d | 0 <= d < |draws| && |draws[d].numbers| >= 6
      ensures WinningMask(draws[d]) == Mask(combo) <==> WonBy(draws[d], combo)
    {
      var six := draws[d].numbers[..6];
      SortIntsSorts(six);
      SameElementsSameMask(SortInts(six), six);
      MaskIsSet(six, combo);
    }
    if exists d :: 0 <= d < |draws| && WonBy(draws[d], combo) {
      var d :| 0 <= d < |draws| && WonBy(draws[d], combo);
      assert WinningMask(draws[d]) in WinningMasks(draws);
    }
  }

  // ---------- the archive ----------

  datatype HeatReport = HeatReport(observedPairHits: int, pairCount: int, expectedPairHits: real, heat: real)

  class LotteryArchive {
    const Type: LotteryType
    const Range: Window
    const Draws: seq<Draw>
    const Numbers: seq<seq<int>>
    const Strongs: seq<seq<int>>
    const WinningCombos: set<Word>
    const Tree: LoTree
    const StrongTree: LoTree

    ghost predicate Valid()
      reads this, Tree, Tree.Anchor, Tree.Anchor.Repr, StrongTree, StrongTree.Anchor, StrongTree.Anchor.Repr
    {
      && Tree.Valid() && StrongTree.Valid()
      && Numbers == NumbersOf(Draws) && Strongs == StrongsOf(Draws)
      && WinningCombos == WinningMasks(Draws)
      && Tree.Anchor.Model == NumberTree(Type, Draws)
      && StrongTree.Anchor.Model == StrongTreeOf(Draws)
    }

    constructor (lottery: LotteryType, range: Window, draws: seq<Draw>)
      ensures Valid() && fresh(this) && fresh(Tree) && fresh(StrongTree)
      ensures fresh(Tree.Anchor.Repr) && fresh(StrongTree.Anchor.Repr)
      ensures Type == lottery && Range == range && Draws == draws
    {
      var numbers, strongs, winning := Scan(draws);
      var tree := NewTree(MaxNumber(lottery), numbers, MAX_GROUP_SIZE);
      var strongTree := NewTree(MAX_STRONG + 2, strongs, 1);
      Type, Range, Draws := lottery, range, draws;
      Numbers, Strongs, WinningCombos := numbers, strongs, winning;
      Tree, StrongTree := tree, strongTree;
    }

    /** The draws' numbers and strong numbers, and the masks of the complete draws. */
    static method Scan(draws: seq<Draw>) returns (numbers: seq<seq<int>>, strongs: seq<seq<int>>, winning: set<Word>)
      ensures numbers == NumbersOf(draws) && strongs == StrongsOf(draws) && winning == WinningMasks(draws)
    {
      numbers, strongs, winning := [], [], {};
      for i := 0 to |draws|
        invariant numbers == NumbersOf(draws[..i]) && strongs == StrongsOf(draws[..i])
        invariant winning == WinningMasks(draws[..i])
      {
        var d := draws[i];
        WinningMasksAppend(draws[..i], d);
        assert draws[..i + 1] == draws[..i] + [d];
        numbers := numbers + [d.numbers];
        strongs := strongs + [[d.strong]];
        if |d.numbers| >= 6 {
          var mask := ComboMask(SortInts(d.numbers[..6]));
          winning := winning + {mask};
        }
      }
      assert draws[..|draws|] == draws;
    }

    static lemma WinningMasksAppend(draws: seq<Draw>, d: Draw)
      ensures WinningMasks(draws + [d]) == WinningMasks(draws) + if |d.numbers| >= 6 then {WinningMask(d)} else {}
    {
      var all := draws + [d];
      forall w | w in WinningMasks(draws) ensures w in WinningMasks(all) {
        var i :| 0 <= i < |draws| && |draws[i].numbers| >= 6 && w == WinningMask(draws[i]);
        assert all[i] == draws[i];
      }
      if |d.numbers| >= 6 {
        assert all[|draws|] == d;
        assert WinningMask(all[|draws|]) in WinningMasks(all);
      }
    }

    function Size(): nat { |Draws| }

    /** The regular numbers, most (or least) often drawn first; all of them when nothing was drawn. */
    method RankNumbers(mode: string) returns (ranked: seq<int>)
      requires Valid()
      ensures ranked == NumberRanking(Type, Draws, mode == WEAK)
    {
      if Size() == 0 {
        return Combinatorics.Range(1, MaxNumber(Type) + 1);
      }
      var entries := Tree.CollectNodes(1, mode);
      RankingNonemptyGroups(Type, Draws, 1, mode == WEAK);
      assert entries == Ranking(NumberTree(Type, Draws), 1, mode == WEAK);
      ranked := FirstNumbers(entries);
    }

    /** The most (or least) frequent strong number in 1..7, 0 when there is none. */
    method TopStrong(mode: string) returns (best: int)
      requires Valid()
      ensures Type != Lottery ==> best == 0
      ensures Type == Lottery ==> IsTopStrong(Draws, mode == WEAK, MAX_STRONG, best)
    {
      if Type != Lottery {
        return 0;
      }
      var bestCount := -1;
      best := 0;
      if mode == WEAK {
        bestCount := MAX_INT32;
      }
      var anchor := StrongTree.Anchor;
      assert anchor.Next.Length == MAX_STRONG + 2 by {
        InsertAllShaped(Fresh(0, MAX_STRONG + 2), StrongsOf(Draws), 1, MAX_STRONG + 2);
      }
      for i := 0 to MAX_STRONG
        invariant IsTopStrong(Draws, mode == WEAK, i, best)
        invariant bestCount == if best == 0 then (if mode == WEAK then MAX_INT32 else -1) else StrongCount(Draws, best)
      {
        StrongSlot(Draws, anchor.Model, i);
        anchor.SlotModel(i);
        TopStrongStep(Draws, mode == WEAK, i, best);
        if anchor.Next[i] != null {
          var num, count := i + 1, anchor.Next[i].Count;
          if mode == WEAK {
            if count < bestCount {
              best, bestCount := num, count;
            }
          } else if count > bestCount {
            best, bestCount := num, count;
          }
        }
      }
    }

    static lemma TopStrongStep(draws: seq<Draw>, weak: bool, i: nat, best: int)
      requires i < MAX_STRONG && IsTopStrong(draws, weak, i, best)
      ensures IsTopStrong(draws, weak, i + 1,
                if StrongCandidate(draws, weak, i + 1)
                   && (best == 0 || (if weak then StrongCount(draws, i + 1) < StrongCount(draws, best)
                                     else StrongCount(draws, i + 1) > StrongCount(draws, best)))
                then i + 1 else best)
    {
    }

    static lemma StrongSlot(draws: seq<Draw>, t: Tree, i: nat)
      requires t == StrongTreeOf(draws) && i < MAX_STRONG
      ensures i < |t.next|
      ensures t.next[i].Some? <==> StrongCount(draws, i + 1) > 0
      ensures t.next[i].Some? ==> t.next[i].value.count == StrongCount(draws, i + 1)
    {
      InsertAllShaped(Fresh(0, MAX_STRONG + 2), StrongsOf(draws), 1, MAX_STRONG + 2);
      StrongLookup(draws, i + 1);
      assert [i + 1][0] == i + 1 && [i + 1][1..] == [];
      assert Child(t, i + 1) == t.next[i];
    }

    /** The howMany first groups of the ranking. */
    method TopGroups(howMany: int, size: int, mode: string) returns (entries: seq<NodeEntry>)
      requires Valid()
      ensures size <= 0 || size > MAX_GROUP_SIZE || howMany <= 0 ==> entries == []
      ensures 0 < size <= MAX_GROUP_SIZE && howMany > 0 ==>
                var all := Ranking(Tree.Anchor.Model, size, mode == WEAK);
                entries == if |all| > howMany then all[..howMany] else all
    {
      if size <= 0 || size > MAX_GROUP_SIZE || howMany <= 0 {
        return [];
      }
      entries := Tree.CollectNodes(size, mode);
      if |entries| > howMany {
        entries := entries[..howMany];
      }
    }

    method HasWon(combo: seq<int>) returns (won: bool)
      ensures won <==> Mask(combo) in WinningCombos
    {
      if |WinningCombos| == 0 {
        return false;
      }
      var mask := ComboMask(combo);
      return mask in WinningCombos;
    }

    /** The summed counts of the form's pairs. */
    method ObservedPairHits(form: seq<int>) returns (observed: int)
      requires Valid()
      ensures observed == Readings(MaxNumber(Type), Numbers, Combos(form, 2))
      ensures AllAscending(Numbers) && Ascending(form) && Within(form, 1, MaxNumber(Type)) ==>
                observed == SharedGroups(Numbers, form, 2)
    {
      var groups := Tree.AnalyzeArray(form, MAX_GROUP_SIZE);
      observed := SumCounts(groups[1]);
      AnalysisReadings(MaxNumber(Type), Numbers, MAX_GROUP_SIZE, form, 2, false);
      if AllAscending(Numbers) && Ascending(form) && Within(form, 1, MaxNumber(Type)) {
        AnalysisSum(MaxNumber(Type), Numbers, MAX_GROUP_SIZE, form, 2, false);
      }
    }

    /** How often the form's pairs were drawn together, against chance. */
    method ScoreForm(form: seq<int>) returns (r: HeatReport)
      requires Valid()
      ensures r.pairCount == Binom(|form|, 2)
      ensures r.observedPairHits == Readings(MaxNumber(Type), Numbers, Combos(form, 2))
      ensures AllAscending(Numbers) && Ascending(form) && Within(form, 1, MaxNumber(Type)) ==>
                r.observedPairHits == SharedGroups(Numbers, form, 2)
      ensures Binom(MaxNumber(Type), 2) > 0
      ensures r.expectedPairHits == ExpectedPairHits(Size(), r.pairCount, 15, Binom(MaxNumber(Type), 2))
      ensures r.heat == Heat(r.observedPairHits, r.expectedPairHits)
    {
      var pairs := BinomialCount(|form|, 2);
      PairsAreBinom(|form|);
      var observed := ObservedPairHits(form);
      var drawPairs := BinomialCount(MAX_GROUP_SIZE, 2);
      var allPairs := BinomialCount(MaxNumber(Type), 2);
      PairsInDraw();
      PairsPositive(MaxNumber(Type));
      var expected := ExpectedPairHits(Size(), pairs, drawPairs, allPairs);
      r := HeatReport(observed, pairs, expected, Heat(observed, expected));
    }

    /** Draws times pairs times the chance drawPairs / allPairs that a given pair is in a draw. */
    static function ExpectedPairHits(draws: nat, pairs: int, drawPairs: int, allPairs: int): real
      requires allPairs > 0
    {
      draws as real * pairs as real * drawPairs as real / allPairs as real
    }

    static function Heat(observed: int, expected: real): real {
      if expected > 0.0 then 100.0 * observed as real / expected else 0.0
    }

    static lemma Undivided(x: real, y: real)
      requires y > 0.0
      ensures x / y * y == x
      ensures x > 0.0 <==> x / y > 0.0
    {
    }

    static lemma ProductPositive(a: nat, b: nat)
      ensures a as real * b as real == (a * b) as real
      ensures a * b > 0 <==> a > 0 && b > 0
    {
    }

    /** The expectation times the pairs of the game is draws x pairs of the form x pairs of a draw; it is positive
        exactly when there are draws and pairs. */
    static lemma ExpectedExactly(draws: nat, pairs: nat, drawPairs: nat, allPairs: nat)
      requires allPairs > 0 && drawPairs > 0
      ensures var e := ExpectedPairHits(draws, pairs, drawPairs, allPairs);
              && e * allPairs as real == (draws * pairs * drawPairs) as real
              && (e > 0.0 <==> draws > 0 && pairs > 0)
    {
      var both := draws * pairs;
      ProductPositive(draws, pairs);
      ProductPositive(both, drawPairs);
      Undivided((both * drawPairs) as real, allPairs as real);
    }

    /** Heat is 100 times observed over expected: 100 exactly when observed is what a positive expectation says, above
        it exactly when more was observed; without an expectation it is 0. */
    static lemma HeatExactly(observed: int, expected: real)
      ensures expected > 0.0 ==> Heat(observed, expected) * expected == 100.0 * observed as real
      ensures Heat(observed, expected) == 100.0 <==> expected > 0.0 && observed as real == expected
      ensures expected > 0.0 ==> (Heat(observed, expected) > 100.0 <==> observed as real > expected)
      ensures expected <= 0.0 ==> Heat(observed, expected) == 0.0
    {
      if expected > 0.0 {
        var h := Heat(observed, expected);
        Undivided(100.0 * observed as real, expected);
        assert (h - 100.0) * expected == 100.0 * (observed as real - expected);
        SameSign(h - 100.0, expected, 100.0 * (observed as real - expected));
      }
    }

    static lemma SameSign(a: real, b: real, c: real)
      requires b > 0.0 && a * b == c
      ensures (a > 0.0 <==> c > 0.0) && (a == 0.0 <==> c == 0.0)
    {
    }

    static method SumCounts(entries: seq<NodeEntry>) returns (sum: int)
      ensures sum == CountSum(entries)
    {
      sum := 0;
      for i := 0 to |entries|
        invariant sum + CountSum(entries[i..]) == CountSum(entries)
      {
        sum := sum + entries[i].count;
        assert entries[i..][1..] == entries[i + 1..];
      }
    }

    static lemma PairsAreBinom(n: nat)
      ensures n < 2 ==> Binom(n, 2) == 0
    {
      if n < 2 { BinomZero(n, 2); }
    }

    static lemma PairsInDraw()
      ensures Binom(6, 2) == 15
    {
      assert Binom(1, 2) == 0 && Binom(2, 2) == 1 && Binom(3, 2) == 3 && Binom(4, 2) == 6 && Binom(5, 2) == 10;
    }

    static lemma {:induction false} PairsPositive(n: nat)
      requires n >= 2
      ensures Binom(n, 2) > 0
    {
      if n > 2 { PairsPositive(n - 1); } else { BinomFull(2); }
    }
  }
}
