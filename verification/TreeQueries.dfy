/** What walking the counting tree yields, against the plain enumeration of groups. */
module TreeQueries {
  import opened Combinatorics
  import opened TreeModel

  // ---------- reference: look every group up ----------

  /** The groups of cs that were met, in order, each with its count. */
  function Hits(t: Tree, prefix: seq<int>, cs: seq<seq<int>>): seq<NodeEntry> {
    if cs == [] then []
    else (if Lookup(t, cs[0]) > 0 then [NodeEntry(prefix + cs[0], Lookup(t, cs[0]))] else []) + Hits(t, prefix, cs[1..])
  }

  lemma {:induction false} HitsConcat(t: Tree, prefix: seq<int>, a: seq<seq<int>>, b: seq<seq<int>>)
    ensures Hits(t, prefix, a + b) == Hits(t, prefix, a) + Hits(t, prefix, b)
  {
    if a == [] {
      assert a + b == b;
    } else {
      assert (a + b)[1..] == a[1..] + b && (a + b)[0] == a[0];
      HitsConcat(t, prefix, a[1..], b);
    }
  }

  lemma HitsCons(t: Tree, prefix: seq<int>, c: seq<int>, cs: seq<seq<int>>)
    ensures Hits(t, prefix, [c] + cs) ==
            (if Lookup(t, c) > 0 then [NodeEntry(prefix + c, Lookup(t, c))] else []) + Hits(t, prefix, cs)
  {
    assert ([c] + cs)[1..] == cs;
  }

  /** Looking up the groups that start with x is looking their tails up below x's child. */
  lemma {:induction false} HitsPrepend(t: Tree, prefix: seq<int>, x: int, cs: seq<seq<int>>)
    ensures Hits(t, prefix, Prepend(x, cs)) ==
            match Child(t, x) { case Some(c) => Hits(c, prefix + [x], cs) case None => [] }
  {
    if cs != [] {
      HitsPrepend(t, prefix, x, cs[1..]);
      HitsCons(t, prefix, [x] + cs[0], Prepend(x, cs[1..]));
      assert ([x] + cs[0])[1..] == cs[0];
      assert prefix + ([x] + cs[0]) == prefix + [x] + cs[0];
    }
  }

  /** The groups of x's child that continue with k numbers of rest. */
  function HitsBelow(t: Tree, prefix: seq<int>, x: int, rest: seq<int>, k: nat): seq<NodeEntry> {
    match Child(t, x)
    case None => []
    case Some(c) => Hits(c, prefix + [x], Combos(rest, k))
  }

  /** Enumerating by first number. */
  lemma HitsByHead(t: Tree, prefix: seq<int>, s: seq<int>, k: nat)
    requires s != [] && k > 0
    ensures Hits(t, prefix, Combos(s, k)) ==
            HitsBelow(t, prefix, s[0], s[1..], k - 1) + Hits(t, prefix, Combos(s[1..], k))
  {
    HitsConcat(t, prefix, Prepend(s[0], Combos(s[1..], k - 1)), Combos(s[1..], k));
    HitsPrepend(t, prefix, s[0], Combos(s[1..], k - 1));
  }

  lemma HitsNone(t: Tree, prefix: seq<int>, k: nat)
    ensures Hits(t, prefix, Combos([], k + 1)) == []
  {
  }

  lemma HitsSelf(t: Tree, prefix: seq<int>)
    requires t.count > 0
    ensures Hits(t, prefix, [[]]) == [NodeEntry(prefix, t.count)]
  {
    assert prefix + [] == prefix;
    assert Hits(t, prefix, [[]]) == [NodeEntry(prefix, t.count)] + Hits(t, prefix, []);
  }

  // ---------- the walk of collectNodes ----------

  function Collected(t: Tree, remaining: nat, prefix: seq<int>): seq<NodeEntry>
    decreases remaining, 0, 0
  {
    if remaining == 0 then [NodeEntry(prefix + [t.num], t.count)]
    else CollectedFrom(t, 0, remaining - 1, prefix + [t.num])
  }

  function CollectedFrom(t: Tree, i: nat, remaining: nat, prefix: seq<int>): seq<NodeEntry>
    decreases remaining, 2, |t.next| - i
  {
    if i >= |t.next| then []
    else CollectedAt(t, i, remaining, prefix) + CollectedFrom(t, i + 1, remaining, prefix)
  }

  function CollectedAt(t: Tree, i: nat, remaining: nat, prefix: seq<int>): seq<NodeEntry>
    requires i < |t.next|
    decreases remaining, 1
  {
    if t.next[i].Some? then Collected(t.next[i].value, remaining, prefix) else []
  }

  /** The walk below t finds exactly the met groups of r+1 numbers larger than t's, in lexicographic order. */
  lemma {:induction false} CollectedFromIsHits(t: Tree, lottery: int, i: nat, r: nat, prefix: seq<int>, s: seq<int>)
    requires Shaped(t, lottery) && i <= |t.next| && s == Range(t.num + 1 + i, lottery + 1)
    ensures CollectedFrom(t, i, r, prefix) == Hits(t, prefix, Combos(s, r + 1))
    decreases r, 2, |t.next| - i
  {
    if s != [] {
      var x, rest := s[0], s[1..];
      assert rest == Range(t.num + 1 + (i + 1), lottery + 1);
      CollectedFromIsHits(t, lottery, i + 1, r, prefix, rest);
      CollectedAtIsHits(t, lottery, i, r, prefix, x, rest);
      CollectedFromStep(t, i, r, prefix, s);
    } else {
      HitsNone(t, prefix, r);
    }
  }

  lemma CollectedFromStep(t: Tree, i: nat, r: nat, prefix: seq<int>, s: seq<int>)
    requires i < |t.next| && s != []
    requires CollectedFrom(t, i + 1, r, prefix) == Hits(t, prefix, Combos(s[1..], r + 1))
    requires CollectedAt(t, i, r, prefix) == HitsBelow(t, prefix, s[0], s[1..], r)
    ensures CollectedFrom(t, i, r, prefix) == Hits(t, prefix, Combos(s, r + 1))
  {
    HitsByHead(t, prefix, s, r + 1);
  }

  lemma {:induction false} CollectedAtIsHits(t: Tree, lottery: int, i: nat, k: nat, prefix: seq<int>, x: int,
                                             rest: seq<int>)
    requires Shaped(t, lottery) && i < |t.next| && x == t.num + 1 + i && rest == Range(x + 1, lottery + 1)
    ensures CollectedAt(t, i, k, prefix) == HitsBelow(t, prefix, x, rest, k)
    decreases k, 1
  {
    if t.next[i].Some? {
      CollectedIsHits(t.next[i].value, lottery, k, prefix, rest);
    }
  }

  lemma {:induction false} CollectedIsHits(c: Tree, lottery: int, k: nat, prefix: seq<int>, rest: seq<int>)
    requires Shaped(c, lottery) && rest == Range(c.num + 1, lottery + 1)
    ensures Collected(c, k, prefix) == Hits(c, prefix + [c.num], Combos(rest, k))
    decreases k, 0
  {
    if k == 0 {
      HitsSelf(c, prefix + [c.num]);
    } else {
      var r := k - 1;
      calc {
        Collected(c, k, prefix);
        CollectedFrom(c, 0, r, prefix + [c.num]);
        { CollectedFromIsHits(c, lottery, 0, r, prefix + [c.num], rest); }
        Hits(c, prefix + [c.num], Combos(rest, r + 1));
      }
    }
  }

  // ---------- the walk of analyzeBuild ----------

  /** What group k receives when the walk stands at t with form still to go. */
  function Analyzed(t: Tree, form: seq<int>, k: nat, prefix: seq<int>): seq<NodeEntry>
    requires k > 0
    decreases |form|, 0
  {
    if form == [] then []
    else AnalyzedAt(t, form[0], form[1..], k - 1, prefix) + Analyzed(t, form[1..], k, prefix)
  }

  function AnalyzedAt(t: Tree, x: int, rest: seq<int>, k: nat, prefix: seq<int>): seq<NodeEntry>
    decreases |rest|, 2
  {
    match Child(t, x)
    case None => []
    case Some(c) => AnalyzedChild(c, rest, k, prefix + [x])
  }

  function AnalyzedChild(c: Tree, rest: seq<int>, k: nat, prefix: seq<int>): seq<NodeEntry>
    decreases |rest|, 1
  {
    if k == 0 then [NodeEntry(prefix, c.count)] else Analyzed(c, rest, k, prefix)
  }

  /** For any form at all, group k is the met k-element selections of the form, by position. */
  lemma {:induction false} AnalyzedIsHits(t: Tree, lottery: int, form: seq<int>, k: nat, prefix: seq<int>)
    requires Shaped(t, lottery) && k > 0
    ensures Analyzed(t, form, k, prefix) == Hits(t, prefix, Combos(form, k))
    decreases |form|, 0
  {
    if form != [] {
      var x, rest := form[0], form[1..];
      calc {
        Analyzed(t, form, k, prefix);
        AnalyzedAt(t, x, rest, k - 1, prefix) + Analyzed(t, rest, k, prefix);
        { AnalyzedIsHits(t, lottery, rest, k, prefix); }
        AnalyzedAt(t, x, rest, k - 1, prefix) + Hits(t, prefix, Combos(rest, k));
        { AnalyzedAtIsHits(t, lottery, x, rest, k - 1, prefix); }
        HitsBelow(t, prefix, x, rest, k - 1) + Hits(t, prefix, Combos(rest, k));
        { HitsByHead(t, prefix, form, k); }
        Hits(t, prefix, Combos(form, k));
      }
    }
  }

  lemma {:induction false} AnalyzedAtIsHits(t: Tree, lottery: int, x: int, rest: seq<int>, k: nat, prefix: seq<int>)
    requires Shaped(t, lottery)
    ensures AnalyzedAt(t, x, rest, k, prefix) == HitsBelow(t, prefix, x, rest, k)
    decreases |rest|, 2
  {
    if Child(t, x).Some? {
      AnalyzedChildIsHits(Child(t, x).value, lottery, rest, k, prefix + [x]);
    }
  }

  lemma {:induction false} AnalyzedChildIsHits(c: Tree, lottery: int, rest: seq<int>, k: nat, prefix: seq<int>)
    requires Shaped(c, lottery)
    ensures AnalyzedChild(c, rest, k, prefix) == Hits(c, prefix, Combos(rest, k))
    decreases |rest|, 1
  {
    if k == 0 {
      HitsSelf(c, prefix);
    } else {
      AnalyzedIsHits(c, lottery, rest, k, prefix);
    }
  }

  // ---------- stable ranking by count ----------

  /** The comparator handed to the stable sort. */
  predicate Before(weak: bool, a: NodeEntry, b: NodeEntry) {
    if weak then a.count < b.count else a.count > b.count
  }

  function Place(weak: bool, e: NodeEntry, s: seq<NodeEntry>): seq<NodeEntry> {
    if s == [] || !Before(weak, s[0], e) then [e] + s else [s[0]] + Place(weak, e, s[1..])
  }

  /** Stable sorting: entries with equal counts keep their order. */
  function Ranked(weak: bool, s: seq<NodeEntry>): seq<NodeEntry> {
    if s == [] then [] else Place(weak, s[0], Ranked(weak, s[1..]))
  }

  ghost predicate InOrder(weak: bool, s: seq<NodeEntry>) {
    s == [] || ((forall i :: 1 <= i < |s| ==> !Before(weak, s[i], s[0])) && InOrder(weak, s[1..]))
  }

  lemma {:induction false} PlacePermutes(weak: bool, e: NodeEntry, s: seq<NodeEntry>)
    ensures multiset(Place(weak, e, s)) == multiset{e} + multiset(s)
  {
    if s != [] && Before(weak, s[0], e) {
      PlacePermutes(weak, e, s[1..]);
      assert s == [s[0]] + s[1..];
    }
  }

  lemma {:induction false} RankedPermutes(weak: bool, s: seq<NodeEntry>)
    ensures multiset(Ranked(weak, s)) == multiset(s)
  {
    if s != [] {
      RankedPermutes(weak, s[1..]);
      PlacePermutes(weak, s[0], Ranked(weak, s[1..]));
      assert s == [s[0]] + s[1..];
    }
  }

  /** The entries of one count, in order. */
  function WithCount(s: seq<NodeEntry>, count: int): seq<NodeEntry> {
    if s == [] then []
    else if s[0].count == count then [s[0]] + WithCount(s[1..], count)
    else WithCount(s[1..], count)
  }

  lemma WithCountCons(e: NodeEntry, s: seq<NodeEntry>, count: int)
    ensures WithCount([e] + s, count) == if e.count == count then [e] + WithCount(s, count) else WithCount(s, count)
  {
    assert ([e] + s)[1..] == s;
  }

  lemma {:induction false} PlaceStable(weak: bool, e: NodeEntry, s: seq<NodeEntry>, count: int)
    ensures WithCount(Place(weak, e, s), count) == WithCount([e] + s, count)
  {
    WithCountCons(e, s, count);
    if s != [] && Before(weak, s[0], e) {
      PlaceStable(weak, e, s[1..], count);
      WithCountCons(s[0], Place(weak, e, s[1..]), count);
      WithCountCons(e, s[1..], count);
    }
  }

  /** Stability: among entries of equal count the ranking changes nothing. */
  lemma {:induction false} RankedStable(weak: bool, s: seq<NodeEntry>, count: int)
    ensures WithCount(Ranked(weak, s), count) == WithCount(s, count)
  {
    if s != [] {
      RankedStable(weak, s[1..], count);
      PlaceStable(weak, s[0], Ranked(weak, s[1..]), count);
      WithCountCons(s[0], Ranked(weak, s[1..]), count);
    }
  }

  lemma {:induction false} PlaceInOrder(weak: bool, e: NodeEntry, s: seq<NodeEntry>)
    requires InOrder(weak, s)
    ensures InOrder(weak, Place(weak, e, s))
  {
    if s != [] && Before(weak, s[0], e) {
      PlaceInOrder(weak, e, s[1..]);
      var r := Place(weak, e, s[1..]);
      forall i | 0 <= i < |r| ensures !Before(weak, r[i], s[0]) {
        PlacePermutes(weak, e, s[1..]);
        assert r[i] in multiset(r);
        assert r[i] == e || r[i] in s[1..];
      }
      assert ([s[0]] + r)[1..] == r;
    } else {
      assert ([e] + s)[1..] == s;
    }
  }

  lemma {:induction false} RankedInOrder(weak: bool, s: seq<NodeEntry>)
    ensures InOrder(weak, Ranked(weak, s))
  {
    if s != [] {
      RankedInOrder(weak, s[1..]);
      PlaceInOrder(weak, s[0], Ranked(weak, s[1..]));
    }
  }

  // ---------- cutting a ranking down to a form ----------

  /** The entries whose numbers all lie in S. */
  ghost function Contained(es: seq<NodeEntry>, S: set<int>): (r: seq<NodeEntry>)
    ensures forall i :: 0 <= i < |r| ==> r[i] in es
  {
    if es == [] then []
    else (if Inside(es[0].numbers, S) then [es[0]] else []) + Contained(es[1..], S)
  }

  lemma ContainedCons(e: NodeEntry, es: seq<NodeEntry>, S: set<int>)
    ensures Contained([e] + es, S) == (if Inside(e.numbers, S) then [e] else []) + Contained(es, S)
  {
    assert ([e] + es)[1..] == es;
  }

  lemma {:induction false} PlaceInFront(weak: bool, e: NodeEntry, s: seq<NodeEntry>)
    requires forall i :: 0 <= i < |s| ==> !Before(weak, s[i], e)
    ensures Place(weak, e, s) == [e] + s
  {
  }

  lemma {:induction false} ContainedPlace(weak: bool, e: NodeEntry, s: seq<NodeEntry>, S: set<int>)
    requires InOrder(weak, s)
    ensures Contained(Place(weak, e, s), S) ==
            if Inside(e.numbers, S) then Place(weak, e, Contained(s, S)) else Contained(s, S)
  {
    if s != [] && Before(weak, s[0], e) {
      var f := Contained(s[1..], S);
      ContainedCons(s[0], Place(weak, e, s[1..]), S);
      ContainedPlace(weak, e, s[1..], S);
      PlaceAfter(weak, e, s[0], f);
      assert !Inside(s[0].numbers, S) ==> Contained(s, S) == f;
    } else {
      ContainedCons(e, s, S);
      assert forall i :: 0 <= i < |s| ==> !Before(weak, s[i], e);
      PlaceInFront(weak, e, Contained(s, S));
      assert [e] + s == Place(weak, e, s);
    }
  }

  lemma PlaceAfter(weak: bool, e: NodeEntry, x: NodeEntry, s: seq<NodeEntry>)
    requires Before(weak, x, e)
    ensures Place(weak, e, [x] + s) == [x] + Place(weak, e, s)
  {
    assert ([x] + s)[1..] == s;
  }

  lemma RankedCons(weak: bool, e: NodeEntry, s: seq<NodeEntry>)
    ensures Ranked(weak, [e] + s) == Place(weak, e, Ranked(weak, s))
  {
    assert ([e] + s)[1..] == s;
  }

  /** Ranking first or cutting first is the same. */
  lemma {:induction false} RankedContained(weak: bool, s: seq<NodeEntry>, S: set<int>)
    ensures Contained(Ranked(weak, s), S) == Ranked(weak, Contained(s, S))
  {
    if s != [] {
      RankedContained(weak, s[1..], S);
      RankedInOrder(weak, s[1..]);
      ContainedPlace(weak, s[0], Ranked(weak, s[1..]), S);
      if Inside(s[0].numbers, S) {
        RankedCons(weak, s[0], Contained(s[1..], S));
      } else {
        assert Contained(s, S) == Contained(s[1..], S);
      }
    }
  }

  lemma {:induction false} HitsContained(t: Tree, cs: seq<seq<int>>, S: set<int>)
    ensures Contained(Hits(t, [], cs), S) == Hits(t, [], KeepInside(cs, S))
  {
    if cs != [] {
      HitsContained(t, cs[1..], S);
      var c := cs[0];
      assert [] + c == c;
      ContainedCons(NodeEntry(c, Lookup(t, c)), Hits(t, [], cs[1..]), S);
      HitsCons(t, [], c, KeepInside(cs[1..], S));
      assert Lookup(t, c) <= 0 ==> Hits(t, [], cs) == Hits(t, [], cs[1..]);
      assert !Inside(c, S) ==> KeepInside(cs, S) == KeepInside(cs[1..], S);
    }
  }

  /** Groups reaching outside 1..lottery are never met. */
  lemma {:induction false} HitsInRange(t: Tree, lottery: int, cs: seq<seq<int>>)
    requires Shaped(t, lottery) && t.num == 0
    ensures Hits(t, [], cs) == Hits(t, [], KeepInside(cs, Elements(Range(1, lottery + 1))))
  {
    if cs != [] {
      HitsInRange(t, lottery, cs[1..]);
      var U := Elements(Range(1, lottery + 1));
      var c := cs[0];
      HitsCons(t, [], c, KeepInside(cs[1..], U));
      if Lookup(t, c) > 0 { MetInRange(t, lottery, c); }
      if !Inside(c, U) {
        assert KeepInside(cs, U) == KeepInside(cs[1..], U);
        assert Hits(t, [], cs) == Hits(t, [], cs[1..]);
      }
    }
  }

  lemma MetInRange(t: Tree, lottery: int, c: seq<int>)
    requires Shaped(t, lottery) && t.num == 0 && Lookup(t, c) > 0
    ensures Inside(c, Elements(Range(1, lottery + 1)))
  {
    NodeIffCounted(t, lottery, c);
    PathsAscend(t, lottery, c);
    forall i | 0 <= i < |c| ensures c[i] in Range(1, lottery + 1) {
      assert Range(1, lottery + 1)[c[i] - 1] == c[i];
    }
  }

  lemma CutRanking(t: Tree, s: seq<int>, k: nat, weak: bool, S: set<int>)
    ensures Contained(Ranked(weak, Hits(t, [], Combos(s, k))), S) == Ranked(weak, Hits(t, [], Combos(Keep(s, S), k)))
  {
    RankedContained(weak, Hits(t, [], Combos(s, k)), S);
    HitsContained(t, Combos(s, k), S);
    CombosOfKept(s, k, S);
  }

  lemma SameNumbersKept(u: seq<int>, form: seq<int>)
    requires Ascending(u) && Ascending(form)
    ensures Keep(u, Elements(form)) == Keep(form, Elements(u))
  {
    KeepAscending(u, Elements(form));
    KeepAscending(form, Elements(u));
    AscendingExtensional(Keep(u, Elements(form)), Keep(form, Elements(u)));
  }

  /** Only the in-range numbers of a form matter. */
  lemma FormInRange(t: Tree, lottery: int, form: seq<int>, k: nat)
    requires Shaped(t, lottery) && t.num == 0
    ensures Hits(t, [], Combos(form, k)) == Hits(t, [], Combos(Keep(form, Elements(Range(1, lottery + 1))), k))
  {
    HitsInRange(t, lottery, Combos(form, k));
    CombosOfKept(form, k, Elements(Range(1, lottery + 1)));
  }

  /** The groups of the whole game, in lexicographic order. */
  function AllGroups(lottery: int, k: nat): seq<seq<int>> { Combos(Range(1, lottery + 1), k) }

  lemma CollectionIsHits(t: Tree, lottery: int, k: nat)
    requires Shaped(t, lottery) && t.num == 0 && k > 0
    ensures CollectedFrom(t, 0, k - 1, []) == Hits(t, [], AllGroups(lottery, k))
  {
    CollectedFromIsHits(t, lottery, 0, k - 1, [], Range(1, lottery + 1));
  }

  /** The groups of a form, ranked, are the groups of the whole game, ranked and cut down to the form. */
  lemma AnalysisIsFilteredCollection(t: Tree, lottery: int, form: seq<int>, k: nat, weak: bool)
    requires Shaped(t, lottery) && t.num == 0 && k > 0 && Ascending(form)
    ensures Ranked(weak, Analyzed(t, form, k, [])) ==
            Contained(Ranked(weak, CollectedFrom(t, 0, k - 1, [])), Elements(form))
  {
    var u := Range(1, lottery + 1);
    calc {
      Contained(Ranked(weak, CollectedFrom(t, 0, k - 1, [])), Elements(form));
      { CollectionIsHits(t, lottery, k); }
      Contained(Ranked(weak, Hits(t, [], Combos(u, k))), Elements(form));
      { CutRanking(t, u, k, weak, Elements(form)); }
      Ranked(weak, Hits(t, [], Combos(Keep(u, Elements(form)), k)));
      { RangeAscends(1, lottery + 1); SameNumbersKept(u, form); }
      Ranked(weak, Hits(t, [], Combos(Keep(form, Elements(u)), k)));
      { FormInRange(t, lottery, form, k); }
      Ranked(weak, Hits(t, [], Combos(form, k)));
      { AnalyzedIsHits(t, lottery, form, k, []); }
      Ranked(weak, Analyzed(t, form, k, []));
    }
  }
}
