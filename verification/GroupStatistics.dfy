/** What the ranked groups of the tree say about the draws: canonical order and double counting. */
module GroupStatistics {
  import opened Combinatorics
  import opened TreeModel
  import opened TreeQueries

  // ---------- the ranking is canonical ----------

  /** Ranked ahead: by count, ties by smaller numbers first. */
  ghost predicate Precedes(weak: bool, a: NodeEntry, b: NodeEntry) {
    Before(weak, a, b) || (a.count == b.count && LexLess(a.numbers, b.numbers))
  }

  ghost predicate Canonical(weak: bool, s: seq<NodeEntry>) {
    s == [] || ((forall i :: 1 <= i < |s| ==> Precedes(weak, s[0], s[i])) && Canonical(weak, s[1..]))
  }

  ghost predicate LexEntries(s: seq<NodeEntry>) {
    s == [] || ((forall i :: 1 <= i < |s| ==> LexLess(s[0].numbers, s[i].numbers)) && LexEntries(s[1..]))
  }

  lemma TailOrdered(cs: seq<seq<int>>)
    requires LexOrdered(cs) && cs != []
    ensures LexOrdered(cs[1..]) && forall c :: c in cs[1..] ==> LexLess(cs[0], c)
  {
    forall i, j | 0 <= i < j < |cs| - 1 ensures LexLess(cs[1..][i], cs[1..][j]) {
      assert LexLess(cs[i + 1], cs[j + 1]);
    }
  }

  lemma {:induction false} HitsMember(t: Tree, cs: seq<seq<int>>, e: NodeEntry)
    ensures e in Hits(t, [], cs) <==> e.numbers in cs && e.count == Lookup(t, e.numbers) && e.count > 0
  {
    if cs != [] {
      HitsMember(t, cs[1..], e);
      assert [] + cs[0] == cs[0];
      assert cs == [cs[0]] + cs[1..];
    }
  }

  lemma {:induction false} HitsLexSorted(t: Tree, cs: seq<seq<int>>)
    requires LexOrdered(cs)
    ensures LexEntries(Hits(t, [], cs))
  {
    if cs != [] {
      TailOrdered(cs);
      HitsLexSorted(t, cs[1..]);
      var rest := Hits(t, [], cs[1..]);
      forall i | 0 <= i < |rest| ensures LexLess(cs[0], rest[i].numbers) {
        HitsMember(t, cs[1..], rest[i]);
      }
      var e := NodeEntry(cs[0], Lookup(t, cs[0]));
      assert [] + cs[0] == cs[0];
      assert ([e] + rest)[1..] == rest;
      assert Lookup(t, cs[0]) <= 0 ==> Hits(t, [], cs) == rest;
    }
  }

  lemma {:induction false} PlaceMember(weak: bool, e: NodeEntry, s: seq<NodeEntry>, x: NodeEntry)
    ensures x in Place(weak, e, s) <==> x == e || x in s
  {
    if s != [] && Before(weak, s[0], e) { PlaceMember(weak, e, s[1..], x); }
  }

  lemma {:induction false} RankedMember(weak: bool, s: seq<NodeEntry>, x: NodeEntry)
    ensures x in Ranked(weak, s) <==> x in s
  {
    if s != [] {
      RankedMember(weak, s[1..], x);
      PlaceMember(weak, s[0], Ranked(weak, s[1..]), x);
    }
  }

  lemma {:induction false} PlaceCanonical(weak: bool, e: NodeEntry, s: seq<NodeEntry>)
    requires Canonical(weak, s)
    requires forall i :: 0 <= i < |s| ==> LexLess(e.numbers, s[i].numbers)
    ensures Canonical(weak, Place(weak, e, s))
  {
    if s != [] && Before(weak, s[0], e) {
      PlaceCanonical(weak, e, s[1..]);
      var r := Place(weak, e, s[1..]);
      forall i | 0 <= i < |r| ensures Precedes(weak, s[0], r[i]) {
        PlaceMember(weak, e, s[1..], r[i]);
      }
      assert ([s[0]] + r)[1..] == r;
    } else {
      assert ([e] + s)[1..] == s;
    }
  }

  lemma {:induction false} RankedCanonical(weak: bool, s: seq<NodeEntry>)
    requires LexEntries(s)
    ensures Canonical(weak, Ranked(weak, s))
  {
    if s != [] {
      RankedCanonical(weak, s[1..]);
      var r := Ranked(weak, s[1..]);
      forall i | 0 <= i < |r| ensures LexLess(s[0].numbers, r[i].numbers) {
        RankedMember(weak, s[1..], r[i]);
      }
      PlaceCanonical(weak, s[0], r);
    }
  }

  lemma {:induction false} CanonicalByIndex(weak: bool, s: seq<NodeEntry>, i: nat, j: nat)
    requires Canonical(weak, s) && i < j < |s|
    ensures Precedes(weak, s[i], s[j])
    ensures s[i].numbers != s[j].numbers || s[i].count != s[j].count
  {
    if i > 0 {
      CanonicalByIndex(weak, s[1..], i - 1, j - 1);
    } else {
      LexIrreflexive(s[0].numbers);
    }
  }

  /** Groups of k numbers, ranked as CollectNodes ranks them. */
  function Ranking(t: Tree, k: nat, weak: bool): seq<NodeEntry>
    requires k > 0
  {
    Ranked(weak, CollectedFrom(t, 0, k - 1, []))
  }

  lemma AllGroupsSorted(lottery: int, k: nat)
    ensures LexOrdered(AllGroups(lottery, k))
  {
    RangeAscends(1, lottery + 1);
    CombosLexicographic(Range(1, lottery + 1), k);
  }

  lemma AllGroupsMember(lottery: int, k: nat, c: seq<int>)
    ensures c in AllGroups(lottery, k) <==> |c| == k && Ascending(c) && Within(c, 1, lottery)
  {
    var u := Range(1, lottery + 1);
    RangeAscends(1, lottery + 1);
    if c in AllGroups(lottery, k) {
      CombosMember(u, k, c);
      forall i | 0 <= i < |c| ensures 1 <= c[i] <= lottery { assert c[i] in Elements(u); }
    }
    if |c| == k && Ascending(c) && Within(c, 1, lottery) {
      forall i | 0 <= i < |c| ensures c[i] in Elements(u) { assert u[c[i] - 1] == c[i]; }
      CombosComplete(u, c);
    }
  }

  lemma RankingInOrder(t: Tree, lottery: int, k: nat, weak: bool)
    requires Shaped(t, lottery) && t.num == 0 && k > 0
    ensures Canonical(weak, Ranking(t, k, weak))
  {
    CollectionIsHits(t, lottery, k);
    AllGroupsSorted(lottery, k);
    HitsLexSorted(t, AllGroups(lottery, k));
    RankedCanonical(weak, Hits(t, [], AllGroups(lottery, k)));
  }

  lemma RankingMembers(t: Tree, lottery: int, k: nat, weak: bool, e: NodeEntry)
    requires Shaped(t, lottery) && t.num == 0 && k > 0
    ensures e in Ranking(t, k, weak) <==>
            |e.numbers| == k && HasNode(t, e.numbers) && e.count == Lookup(t, e.numbers)
  {
    var cs := AllGroups(lottery, k);
    CollectionIsHits(t, lottery, k);
    RankedMember(weak, Hits(t, [], cs), e);
    HitsMember(t, cs, e);
    AllGroupsMember(lottery, k, e.numbers);
    NodeIffCounted(t, lottery, e.numbers);
    if HasNode(t, e.numbers) { PathsAscend(t, lottery, e.numbers); }
  }

  /** The ranking lists every met group of k numbers exactly once with its count, in one fixed order. */
  lemma RankingIsCanonical(t: Tree, lottery: int, k: nat, weak: bool, e: NodeEntry)
    requires Shaped(t, lottery) && t.num == 0 && k > 0
    ensures Canonical(weak, Ranking(t, k, weak))
    ensures e in Ranking(t, k, weak) <==>
            |e.numbers| == k && HasNode(t, e.numbers) && e.count == Lookup(t, e.numbers)
  {
    RankingInOrder(t, lottery, k, weak);
    RankingMembers(t, lottery, k, weak, e);
  }

  /** A prefix of the ranking leaves out nothing better: every group listed comes strictly before every met
      group of that size that is not. */
  lemma OmittedGroupsRankLower(t: Tree, lottery: int, k: nat, weak: bool, n: nat, i: nat, e: NodeEntry)
    requires Shaped(t, lottery) && t.num == 0 && k > 0
    requires i < n <= |Ranking(t, k, weak)|
    requires |e.numbers| == k && HasNode(t, e.numbers) && e.count == Lookup(t, e.numbers)
    requires forall m :: 0 <= m < n ==> Ranking(t, k, weak)[m] != e
    ensures Precedes(weak, Ranking(t, k, weak)[i], e)
  {
    var all := Ranking(t, k, weak);
    RankingIsCanonical(t, lottery, k, weak, e);
    var j :| 0 <= j < |all| && all[j] == e;
    CanonicalByIndex(weak, all, i, j);
  }

  // ---------- double counting ----------

  function CountSum(es: seq<NodeEntry>): int {
    if es == [] then 0 else es[0].count + CountSum(es[1..])
  }

  lemma {:induction false} PlaceKeepsSum(weak: bool, e: NodeEntry, s: seq<NodeEntry>)
    ensures CountSum(Place(weak, e, s)) == e.count + CountSum(s)
  {
    if s != [] && Before(weak, s[0], e) {
      PlaceKeepsSum(weak, e, s[1..]);
    } else {
      assert ([e] + s)[1..] == s;
    }
  }

  lemma {:induction false} RankedKeepsSum(weak: bool, s: seq<NodeEntry>)
    ensures CountSum(Ranked(weak, s)) == CountSum(s)
  {
    if s != [] {
      RankedKeepsSum(weak, s[1..]);
      PlaceKeepsSum(weak, s[0], Ranked(weak, s[1..]));
    }
  }

  /** Group by group, then draw by draw. */
  function SumOverGroups(data: seq<seq<int>>, cs: seq<seq<int>>): nat {
    if cs == [] then 0 else TotalEmbeddings(data, cs[0]) + SumOverGroups(data, cs[1..])
  }

  function SumInDraw(d: seq<int>, cs: seq<seq<int>>): nat {
    if cs == [] then 0 else Embeddings(d, cs[0]) + SumInDraw(d, cs[1..])
  }

  /** Exchange of summation: peel one draw off every group. */
  lemma {:induction false} PeelDraw(data: seq<seq<int>>, cs: seq<seq<int>>)
    requires data != []
    ensures SumOverGroups(data, cs) == SumInDraw(data[0], cs) + SumOverGroups(data[1..], cs)
  {
    if cs != [] { PeelDraw(data, cs[1..]); }
  }

  lemma {:induction false} NoDrawsNoSum(cs: seq<seq<int>>)
    ensures SumOverGroups([], cs) == 0
  {
    if cs != [] { NoDrawsNoSum(cs[1..]); }
  }

  ghost predicate AllGroupsAscend(cs: seq<seq<int>>) {
    forall i :: 0 <= i < |cs| ==> Ascending(cs[i])
  }

  lemma {:induction false} SumInDrawCounts(d: seq<int>, cs: seq<seq<int>>)
    requires Ascending(d) && AllGroupsAscend(cs)
    ensures SumInDraw(d, cs) == |KeepInside(cs, Elements(d))|
  {
    if cs != [] {
      EmbeddingsInDraw(d, cs[0]);
      assert forall i :: 0 <= i < |cs| - 1 ==> cs[1..][i] == cs[i + 1];
      SumInDrawCounts(d, cs[1..]);
    }
  }

  /** The number of k-groups a list shares with each draw, summed over the draws. */
  function SharedGroups(data: seq<seq<int>>, s: seq<int>, k: nat): nat {
    if data == [] then 0
    else Binom(|Keep(s, Elements(data[0]))|, k) + SharedGroups(data[1..], s, k)
  }

  lemma {:induction false} SumOverGroupsIsShared(data: seq<seq<int>>, s: seq<int>, k: nat)
    requires AllAscending(data) && Ascending(s)
    ensures SumOverGroups(data, Combos(s, k)) == SharedGroups(data, s, k)
    decreases |data|
  {
    var cs := Combos(s, k);
    if data == [] {
      NoDrawsNoSum(cs);
    } else {
      PeelDraw(data, cs);
      forall i | 0 <= i < |cs| ensures Ascending(cs[i]) { CombosMember(s, k, cs[i]); }
      SumInDrawCounts(data[0], cs);
      CombosOfKept(s, k, Elements(data[0]));
      CombosCount(Keep(s, Elements(data[0])), k);
      assert forall d :: 0 <= d < |data| - 1 ==> data[1..][d] == data[d + 1];
      SumOverGroupsIsShared(data[1..], s, k);
    }
  }

  /** Every lookup of cs in t is the embedding total of data. */
  ghost predicate Counts(t: Tree, data: seq<seq<int>>, cs: seq<seq<int>>) {
    forall i :: 0 <= i < |cs| ==> Lookup(t, cs[i]) == TotalEmbeddings(data, cs[i])
  }

  lemma {:induction false} HitsSum(t: Tree, data: seq<seq<int>>, cs: seq<seq<int>>)
    requires Counts(t, data, cs)
    ensures CountSum(Hits(t, [], cs)) == SumOverGroups(data, cs)
  {
    if cs != [] {
      assert forall i :: 0 <= i < |cs| - 1 ==> cs[1..][i] == cs[i + 1];
      HitsSum(t, data, cs[1..]);
      var rest := Hits(t, [], cs[1..]);
      var e := NodeEntry([] + cs[0], Lookup(t, cs[0]));
      assert ([e] + rest)[1..] == rest;
      assert Lookup(t, cs[0]) <= 0 ==> Hits(t, [], cs) == rest;
    }
  }

  lemma BuiltCountsAll(lottery: int, data: seq<seq<int>>, depth: nat, s: seq<int>, k: nat)
    requires lottery >= 0 && lottery != 3 && 0 < k <= depth
    requires Ascending(s) && Within(s, 1, lottery)
    ensures Counts(Built(lottery, data, depth), data, Combos(s, k))
  {
    var cs := Combos(s, k);
    forall i | 0 <= i < |cs|
      ensures Lookup(Built(lottery, data, depth), cs[i]) == TotalEmbeddings(data, cs[i])
    {
      CombosMember(s, k, cs[i]);
      forall j | 0 <= j < |cs[i]| ensures 1 <= cs[i][j] <= lottery { assert cs[i][j] in Elements(s); }
      BuiltCounts(lottery, data, depth, cs[i]);
    }
  }

  /** Double counting: the counts reported for a form's k-groups add up to the k-groups the form
      shares with each draw. */
  lemma AnalysisSum(lottery: int, data: seq<seq<int>>, depth: nat, form: seq<int>, k: nat, weak: bool)
    requires lottery >= 0 && lottery != 3 && 0 < k <= depth
    requires AllAscending(data) && Ascending(form) && Within(form, 1, lottery)
    ensures CountSum(Ranked(weak, Analyzed(Built(lottery, data, depth), form, k, []))) == SharedGroups(data, form, k)
  {
    var t := Built(lottery, data, depth);
    InsertAllShaped(Fresh(0, lottery), data, depth, lottery);
    RankedKeepsSum(weak, Analyzed(t, form, k, []));
    AnalyzedIsHits(t, lottery, form, k, []);
    BuiltCountsAll(lottery, data, depth, form, k);
    HitsSum(t, data, Combos(form, k));
    SumOverGroupsIsShared(data, form, k);
  }

  /** How often a group is read off the draws; only an increasing group of the game's numbers is recorded. */
  ghost function Reading(lottery: int, data: seq<seq<int>>, p: seq<int>): nat {
    if Ascending(p) && Within(p, 1, lottery) then TotalEmbeddings(data, p) else 0
  }

  ghost function Readings(lottery: int, data: seq<seq<int>>, cs: seq<seq<int>>): nat {
    if cs == [] then 0 else Reading(lottery, data, cs[0]) + Readings(lottery, data, cs[1..])
  }

  lemma LookupIsReading(lottery: int, data: seq<seq<int>>, depth: nat, p: seq<int>)
    requires lottery >= 0 && lottery != 3 && p != [] && |p| <= depth
    ensures Lookup(Built(lottery, data, depth), p) == Reading(lottery, data, p)
  {
    if Ascending(p) && Within(p, 1, lottery) {
      BuiltCounts(lottery, data, depth, p);
    } else {
      InsertAllShaped(Fresh(0, lottery), data, depth, lottery);
      BuiltNodes(lottery, data, depth, p);
      NodeIffCounted(Built(lottery, data, depth), lottery, p);
    }
  }

  lemma {:induction false} HitsAreReadings(lottery: int, data: seq<seq<int>>, depth: nat, cs: seq<seq<int>>)
    requires lottery >= 0 && lottery != 3
    requires forall i :: 0 <= i < |cs| ==> cs[i] != [] && |cs[i]| <= depth
    ensures CountSum(Hits(Built(lottery, data, depth), [], cs)) == Readings(lottery, data, cs)
  {
    if cs != [] {
      var t := Built(lottery, data, depth);
      var rest := Hits(t, [], cs[1..]);
      assert forall i :: 0 <= i < |cs| - 1 ==> cs[1..][i] == cs[i + 1];
      HitsAreReadings(lottery, data, depth, cs[1..]);
      LookupIsReading(lottery, data, depth, cs[0]);
      var e := NodeEntry([] + cs[0], Lookup(t, cs[0]));
      assert ([e] + rest)[1..] == rest;
      assert Lookup(t, cs[0]) <= 0 ==> Hits(t, [], cs) == rest;
    }
  }

  /** For any form and any draws, sorted or not, in range or not: the analysis counts of size k add up to the
      readings of the form's k-selections. */
  lemma AnalysisReadings(lottery: int, data: seq<seq<int>>, depth: nat, form: seq<int>, k: nat, weak: bool)
    requires lottery >= 0 && lottery != 3 && 0 < k <= depth
    ensures CountSum(Ranked(weak, Analyzed(Built(lottery, data, depth), form, k, []))) ==
            Readings(lottery, data, Combos(form, k))
  {
    var t, cs := Built(lottery, data, depth), Combos(form, k);
    InsertAllShaped(Fresh(0, lottery), data, depth, lottery);
    RankedKeepsSum(weak, Analyzed(t, form, k, []));
    AnalyzedIsHits(t, lottery, form, k, []);
    forall i | 0 <= i < |cs| ensures cs[i] != [] && |cs[i]| <= depth { CombosMember(form, k, cs[i]); }
    HitsAreReadings(lottery, data, depth, cs);
  }

  /** The number of k-groups in each draw, summed over the draws. */
  function GroupsDrawn(data: seq<seq<int>>, k: nat): nat {
    if data == [] then 0 else Binom(|data[0]|, k) + GroupsDrawn(data[1..], k)
  }

  lemma {:induction false} SharedWithAll(lottery: int, data: seq<seq<int>>, k: nat)
    requires AllAscending(data) && forall d :: 0 <= d < |data| ==> Within(data[d], 1, lottery)
    ensures SharedGroups(data, Range(1, lottery + 1), k) == GroupsDrawn(data, k)
    decreases |data|
  {
    if data != [] {
      var u, d := Range(1, lottery + 1), data[0];
      RangeAscends(1, lottery + 1);
      KeepAscending(u, Elements(d));
      forall x ensures x in Keep(u, Elements(d)) <==> x in d {
        if x in d {
          var i :| 0 <= i < |d| && d[i] == x;
          assert u[x - 1] == x;
        }
      }
      AscendingExtensional(Keep(u, Elements(d)), d);
      assert forall i :: 0 <= i < |data| - 1 ==> data[1..][i] == data[i + 1];
      SharedWithAll(lottery, data[1..], k);
    }
  }

  /** Conservation: the counts of all k-groups add up to the k-groups drawn. */
  lemma CollectionSum(lottery: int, data: seq<seq<int>>, depth: nat, k: nat, weak: bool)
    requires lottery >= 0 && lottery != 3 && 0 < k <= depth
    requires AllAscending(data) && forall d :: 0 <= d < |data| ==> Within(data[d], 1, lottery)
    ensures CountSum(Ranking(Built(lottery, data, depth), k, weak)) == GroupsDrawn(data, k)
  {
    var t, u := Built(lottery, data, depth), Range(1, lottery + 1);
    InsertAllShaped(Fresh(0, lottery), data, depth, lottery);
    RankedKeepsSum(weak, CollectedFrom(t, 0, k - 1, []));
    CollectionIsHits(t, lottery, k);
    RangeAscends(1, lottery + 1);
    BuiltCountsAll(lottery, data, depth, u, k);
    HitsSum(t, data, AllGroups(lottery, k));
    SumOverGroupsIsShared(data, u, k);
    SharedWithAll(lottery, data, k);
  }
}
