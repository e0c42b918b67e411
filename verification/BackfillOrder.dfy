/** In which order the prize backfill takes the draws that lack prizes. */
module BackfillOrder {
  import opened DateWindow
  import opened ScrapeRunners

  ghost predicate DistinctDates(refs: set<DrawRef>) {
    forall a, b :: a in refs && b in refs && a.date == b.date ==> a == b
  }

  lemma ListedFallInDate(table: map<int, Draw>, limit: nat, refs: seq<DrawRef>, i: nat, j: nat)
    requires ListsLatest(table, limit, refs) && DistinctDates(Missing(table)) && i < j < |refs|
    ensures refs[i].date > refs[j].date
  {
    assert refs[j] !in refs[..i];
    assert refs[i] in Missing(table) && refs[j] in Missing(table) && refs[i] != refs[j];
  }

  /** The draws lacking prizes that are later than ref. */
  function Later(table: map<int, Draw>, ref: DrawRef): set<DrawRef> {
    set m | m in Missing(table) && m.date > ref.date
  }

  /** What the query lists, before any call: the draws with fewer than that many later ones. */
  function Reached(table: map<int, Draw>, limit: nat): set<DrawRef> {
    set m | m in Missing(table) && |Later(table, m)| < Listed(table, limit)
  }

  lemma {:induction false} RefCount(refs: seq<DrawRef>)
    requires forall i, j :: 0 <= i < j < |refs| ==> refs[i] != refs[j]
    ensures |RefSet(refs)| == |refs|
  {
    if refs != [] {
      var init, last := refs[..|refs| - 1], refs[|refs| - 1];
      RefCount(init);
      assert RefSet(refs) == RefSet(init) + {last};
      assert last !in RefSet(init);
    }
  }

  function RefSet(refs: seq<DrawRef>): set<DrawRef> { set r | r in refs }

  lemma LaterAreListedBefore(table: map<int, Draw>, limit: nat, refs: seq<DrawRef>, i: nat)
    requires ListsLatest(table, limit, refs) && DistinctDates(Missing(table)) && i < |refs|
    ensures Later(table, refs[i]) == RefSet(refs[..i]) && |Later(table, refs[i])| == i
  {
    forall m ensures m in Later(table, refs[i]) <==> m in RefSet(refs[..i]) {
      if m in refs[..i] {
        var k :| 0 <= k < i && refs[k] == m;
        ListedFallInDate(table, limit, refs, k, i);
      }
    }
    RefCount(refs[..i]);
  }

  lemma ListedIsReached(table: map<int, Draw>, limit: nat, refs: seq<DrawRef>)
    requires ListsLatest(table, limit, refs) && DistinctDates(Missing(table))
    ensures RefSet(refs) == Reached(table, limit)
  {
    forall m ensures m in RefSet(refs) <==> m in Reached(table, limit) {
      if m in refs {
        var i :| 0 <= i < |refs| && refs[i] == m;
        LaterAreListedBefore(table, limit, refs, i);
      } else if m in Missing(table) {
        RefCount(refs);
        assert RefSet(refs) <= Later(table, m) by {
          forall r | r in refs ensures r in Later(table, m) {
            var i :| 0 <= i < |refs| && refs[i] == r;
            assert m !in refs[..i];
            assert r in Missing(table) && r != m;
          }
        }
        SubsetCount(RefSet(refs), Later(table, m));
      }
    }
  }

  lemma {:induction false} SubsetCount(a: set<DrawRef>, b: set<DrawRef>)
    requires a <= b
    ensures |a| <= |b|
  {
    assert b == a + (b - a);
  }

  lemma SameNumberSameRef(table: map<int, Draw>, a: DrawRef, b: DrawRef)
    requires a in Missing(table) && b in Missing(table) && a.number == b.number
    ensures a == b
  {
  }

  ghost predicate AscendingNumbers(refs: seq<DrawRef>) {
    forall i, j :: 0 <= i < j < |refs| ==> refs[i].number < refs[j].number
  }

  /** A larger number never comes with a later date. */
  ghost predicate NumbersAgainstDates(refs: set<DrawRef>) {
    forall a, b :: a in refs && b in refs && a.number < b.number ==> a.date > b.date
  }

  lemma AscendingNeeds(table: map<int, Draw>, limit: nat, refs: seq<DrawRef>)
    requires ListsLatest(table, limit, refs) && DistinctDates(Missing(table)) && AscendingNumbers(refs)
    ensures NumbersAgainstDates(RefSet(refs))
  {
    forall a, b | a in RefSet(refs) && b in RefSet(refs) && a.number < b.number ensures a.date > b.date {
      var i :| 0 <= i < |refs| && refs[i] == a;
      var j :| 0 <= j < |refs| && refs[j] == b;
      if i < j { ListedFallInDate(table, limit, refs, i, j); }
    }
  }

  lemma AscendingFollows(table: map<int, Draw>, limit: nat, refs: seq<DrawRef>)
    requires ListsLatest(table, limit, refs) && DistinctDates(Missing(table)) && NumbersAgainstDates(RefSet(refs))
    ensures AscendingNumbers(refs)
  {
    forall i, j | 0 <= i < j < |refs| ensures refs[i].number < refs[j].number {
      var a, b := refs[i], refs[j];
      ListedFallInDate(table, limit, refs, i, j);
      assert a in RefSet(refs) && b in RefSet(refs) && a in Missing(table) && b in Missing(table);
      if a.number == b.number { SameNumberSameRef(table, a, b); }
    }
  }

  /** When the seeder does go in ascending draw-number order, as its comment says: exactly when, among the draws the
      query reaches, a larger number never comes with a later date. Stated for draws on distinct days. */
  lemma AscendingNumbersExactly(table: map<int, Draw>, limit: nat, refs: seq<DrawRef>)
    requires ListsLatest(table, limit, refs) && DistinctDates(Missing(table))
    ensures AscendingNumbers(refs) <==> NumbersAgainstDates(Reached(table, limit))
  {
    ListedIsReached(table, limit, refs);
    if AscendingNumbers(refs) { AscendingNeeds(table, limit, refs); }
    if NumbersAgainstDates(RefSet(refs)) { AscendingFollows(table, limit, refs); }
  }

  /** Draw numbers rise with time, so in practice the order is the opposite: of two draws lacking prizes the one with
      the higher number and later date is written first, whatever the batch size. */
  lemma LaterDrawFirst(a: Draw, b: Draw, limit: nat, refs: seq<DrawRef>)
    requires LacksPrizes(a) && LacksPrizes(b) && a.number < b.number && a.date < b.date
    requires ListsLatest(map[a.number := a, b.number := b], limit, refs)
    ensures refs != [] && refs[0].number == b.number
    ensures limit != 1 ==> |refs| == 2 && refs[1].number == a.number
  {
    var table, x, y := map[a.number := a, b.number := b], DrawRef(a.number, a.date), DrawRef(b.number, b.date);
    forall r ensures r in Missing(table) <==> r in {x, y} { MissingMember(table, r); }
    assert Missing(table) == {x, y};
    assert y !in refs[..0];
    assert refs[0] == y;
  }
}
