/** One scrape run: commit new draws, backfill prizes, and invalidate every cached window touched.

    The network and the database's own failures are nondeterministic here: any call may fail, any page may be
    missing. A ghost journal records commits and invalidations in the order they happen. */
module ScrapeRunners {
  import opened Options
  import opened DateWindow

  const PRIZE_BATCH_SIZE := 50
  const MAX_PRIZES_PER_RUN := 2000
  const MIN_PRIZE_DRAW_NUMBER := 2982
  /** 2018-01-30 */
  const MIN_PRIZE_DRAW_DATE := 736724
  const TIERS := 8

  /** Something the rest of the system can observe: rows committed together, or a range invalidated. */
  datatype Effect = Committed(rows: seq<Draw>) | Invalidated(range: Window)

  class Journal {
    ghost var effects: seq<Effect>

    constructor ()
      ensures effects == []
    {
      effects := [];
    }
  }

  // ---------- the date range of a batch ----------

  /** The min/max fold: a zero bound is replaced by the first date. */
  function Widened(w: Window, date: int): Window {
    Window(if w.from.Open? || date < w.from.day then On(date) else w.from,
           if w.to.Open? || date > w.to.day then On(date) else w.to)
  }

  function DateSpan(rows: seq<Draw>): Window {
    if rows == [] then Window(Open, Open) else Widened(DateSpan(rows[..|rows| - 1]), rows[|rows| - 1].date)
  }

  ghost predicate AllWithin(rows: seq<Draw>, range: Window) {
    forall i :: 0 <= i < |rows| ==> InWindow(range, rows[i].date)
  }

  /** The span of a nonempty batch is the least window holding all its dates. */
  lemma {:induction false} DateSpanIsLeast(rows: seq<Draw>)
    ensures AllWithin(rows, DateSpan(rows))
    ensures rows != [] ==> DateSpan(rows).from.On? && DateSpan(rows).to.On?
    ensures rows != [] ==> exists i, j :: 0 <= i < |rows| && 0 <= j < |rows|
                             && rows[i].date == DateSpan(rows).from.day && rows[j].date == DateSpan(rows).to.day
  {
    if rows != [] {
      var init, last := rows[..|rows| - 1], |rows| - 1;
      DateSpanIsLeast(init);
      var span := DateSpan(rows);
      var i, j := last, last;
      if init != [] {
        var a, b :| 0 <= a < |init| && 0 <= b < |init|
                    && init[a].date == DateSpan(init).from.day && init[b].date == DateSpan(init).to.day;
        if rows[last].date >= DateSpan(init).from.day { i := a; }
        if rows[last].date <= DateSpan(init).to.day { j := b; }
      }
      assert rows[i].date == span.from.day && rows[j].date == span.to.day;
    }
  }

  lemma DateSpanAppend(rows: seq<Draw>, d: Draw)
    ensures DateSpan(rows + [d]) == Widened(DateSpan(rows), d.date)
  {
    assert (rows + [d])[..|rows|] == rows;
  }

  // ---------- inserting draws ----------

  /** The fetched draws whose number is not in the table yet. */
  function NewRows(results: seq<Draw>, existing: set<int>): seq<Draw> {
    if results == [] then []
    else NewRows(results[..|results| - 1], existing)
         + (if results[|results| - 1].number in existing then [] else [results[|results| - 1]])
  }

  lemma NewRowsAppend(results: seq<Draw>, d: Draw, existing: set<int>)
    ensures NewRows(results + [d], existing) == NewRows(results, existing) + (if d.number in existing then [] else [d])
  {
    assert (results + [d])[..|results|] == results;
  }

  /** ON CONFLICT DO NOTHING: a row whose number is taken is not written. */
  function WithRow(table: map<int, Draw>, d: Draw): map<int, Draw> {
    if d.number in table then table else table[d.number := d]
  }

  function WithRows(table: map<int, Draw>, rows: seq<Draw>): map<int, Draw> {
    if rows == [] then table else WithRow(WithRows(table, rows[..|rows| - 1]), rows[|rows| - 1])
  }

  lemma WithRowsAppend(table: map<int, Draw>, rows: seq<Draw>, d: Draw)
    ensures WithRows(table, rows + [d]) == WithRow(WithRows(table, rows), d)
  {
    assert (rows + [d])[..|rows|] == rows;
  }

  /** The rows those insertions actually write. */
  function Written(table: map<int, Draw>, rows: seq<Draw>): seq<Draw> {
    if rows == [] then []
    else
      var init, last := rows[..|rows| - 1], rows[|rows| - 1];
      Written(table, init) + (if last.number in WithRows(table, init) then [] else [last])
  }

  /** Some row carries number n. */
  ghost predicate Lists(rows: seq<Draw>, n: int) {
    rows != [] && (rows[|rows| - 1].number == n || Lists(rows[..|rows| - 1], n))
  }

  ghost predicate DistinctNumbers(rows: seq<Draw>) {
    rows == [] || (!Lists(rows[..|rows| - 1], rows[|rows| - 1].number) && DistinctNumbers(rows[..|rows| - 1]))
  }

  lemma {:induction false} ListsByIndex(rows: seq<Draw>, n: int)
    ensures Lists(rows, n) <==> exists i :: 0 <= i < |rows| && rows[i].number == n
  {
    if rows != [] {
      var init, last := rows[..|rows| - 1], rows[|rows| - 1];
      ListsByIndex(init, n);
      assert forall i :: 0 <= i < |init| ==> init[i] == rows[i];
    }
  }

  /** Nothing is overwritten, every number listed is there afterwards, and the growth is what was written. */
  lemma {:induction false} WithRowsAdds(table: map<int, Draw>, rows: seq<Draw>)
    ensures forall n :: n in table ==> n in WithRows(table, rows) && WithRows(table, rows)[n] == table[n]
    ensures forall n :: n in WithRows(table, rows) <==> n in table || Lists(rows, n)
    ensures |WithRows(table, rows)| == |table| + |Written(table, rows)|
  {
    if rows != [] {
      var init, last := rows[..|rows| - 1], rows[|rows| - 1];
      WithRowsAdds(table, init);
      var t, u := WithRows(table, init), WithRows(table, rows);
      if last.number !in t {
        assert u.Keys == t.Keys + {last.number};
        assert |u| == |u.Keys| && |t| == |t.Keys|;
      }
    }
  }

  lemma {:induction false} WrittenAreRows(table: map<int, Draw>, rows: seq<Draw>)
    ensures |Written(table, rows)| <= |rows|
    ensures forall range :: AllWithin(rows, range) ==> AllWithin(Written(table, rows), range)
    ensures rows != [] && rows[0].number !in table ==> Written(table, rows) != []
  {
    if rows != [] {
      var init := rows[..|rows| - 1];
      WrittenAreRows(table, init);
      forall range | AllWithin(rows, range) ensures AllWithin(Written(table, rows), range) {
        assert AllWithin(init, range);
      }
    }
  }

  lemma {:induction false} NewRowsFresh(results: seq<Draw>, existing: set<int>)
    ensures forall i :: 0 <= i < |NewRows(results, existing)| ==>
              NewRows(results, existing)[i].number !in existing && NewRows(results, existing)[i] in results
  {
    if results != [] { NewRowsFresh(results[..|results| - 1], existing); }
  }

  lemma {:induction false} WrittenAll(table: map<int, Draw>, rows: seq<Draw>)
    requires forall i :: 0 <= i < |rows| ==> rows[i].number !in table
    ensures |Written(table, rows)| == |rows| <==> DistinctNumbers(rows)
  {
    if rows != [] {
      var init := rows[..|rows| - 1];
      WrittenAll(table, init);
      WrittenAreRows(table, init);
      WithRowsAdds(table, init);
    }
  }

  /** The first row numbered n. */
  function FirstOf(rows: seq<Draw>, n: int): Option<Draw> {
    if rows == [] then None
    else if FirstOf(rows[..|rows| - 1], n).Some? then FirstOf(rows[..|rows| - 1], n)
    else if rows[|rows| - 1].number == n then Some(rows[|rows| - 1])
    else None
  }

  lemma {:induction false} FirstOfByIndex(rows: seq<Draw>, n: int)
    ensures match FirstOf(rows, n)
            case None => forall i :: 0 <= i < |rows| ==> rows[i].number != n
            case Some(d) => exists i :: 0 <= i < |rows| && rows[i] == d && d.number == n
                                        && forall j :: 0 <= j < i ==> rows[j].number != n
  {
    if rows != [] {
      var init, last := rows[..|rows| - 1], |rows| - 1;
      FirstOfByIndex(init, n);
      assert forall i :: 0 <= i < last ==> init[i] == rows[i];
      if FirstOf(init, n).Some? {
        var i :| 0 <= i < last && init[i] == FirstOf(init, n).value && forall j :: 0 <= j < i ==> init[j].number != n;
        assert rows[i] == FirstOf(rows, n).value;
      } else if rows[last].number == n {
        assert rows[last] == FirstOf(rows, n).value;
      }
    }
  }

  /** The row stored under a number, if any. */
  function RowAt(table: map<int, Draw>, n: int): Option<Draw> { if n in table then Some(table[n]) else None }

  /** Which row a number holds after the insertions: the old one, else the first one inserted under it. */
  lemma {:induction false} WithRowsAt(table: map<int, Draw>, rows: seq<Draw>, n: int)
    ensures RowAt(WithRows(table, rows), n) == if n in table then Some(table[n]) else FirstOf(rows, n)
  {
    if rows != [] { WithRowsAt(table, rows[..|rows| - 1], n); }
  }

  lemma {:induction false} NewRowsFirst(results: seq<Draw>, existing: set<int>, n: int)
    ensures FirstOf(NewRows(results, existing), n) == if n in existing then None else FirstOf(results, n)
  {
    if results != [] {
      var init, last := results[..|results| - 1], results[|results| - 1];
      NewRowsFirst(init, existing, n);
      assert NewRows(init, existing) + [] == NewRows(init, existing);
      if last.number !in existing { FirstOfAppend(NewRows(init, existing), last, n); }
    }
  }

  lemma FirstOfAppend(rows: seq<Draw>, d: Draw, n: int)
    ensures FirstOf(rows + [d], n) ==
            if FirstOf(rows, n).Some? then FirstOf(rows, n) else if d.number == n then Some(d) else None
  {
    assert (rows + [d])[..|rows|] == rows;
  }

  /** The table after inserting a fetch: every number keeps its row, and a new one holds the row first fetched under it,
      as it was fetched. */
  lemma InsertedRows(table: map<int, Draw>, results: seq<Draw>, n: int)
    ensures RowAt(WithRows(table, NewRows(results, table.Keys)), n)
            == if n in table then Some(table[n]) else FirstOf(results, n)
  {
    WithRowsAt(table, NewRows(results, table.Keys), n);
    NewRowsFirst(results, table.Keys, n);
  }

  /** Every number keeps its row, a fetched one that is new holds the first row fetched under it, and no other does. */
  ghost predicate Inserted(table: map<int, Draw>, results: seq<Draw>, after: map<int, Draw>) {
    forall n :: RowAt(after, n) == if n in table then Some(table[n]) else FirstOf(results, n)
  }

  lemma AllInsertedRows(table: map<int, Draw>, results: seq<Draw>)
    ensures Inserted(table, results, WithRows(table, NewRows(results, table.Keys)))
  {
    forall n ensures RowAt(WithRows(table, NewRows(results, table.Keys)), n)
                     == if n in table then Some(table[n]) else FirstOf(results, n)
    {
      InsertedRows(table, results, n);
    }
  }

  /** The rows reported as committed are exactly the table's new entries, each once. */
  lemma {:induction false} WrittenExactly(table: map<int, Draw>, rows: seq<Draw>, d: Draw)
    ensures multiset(Written(table, rows))[d] ==
            if d.number !in table && RowAt(WithRows(table, rows), d.number) == Some(d) then 1 else 0
  {
    if rows != [] {
      var init, last := rows[..|rows| - 1], rows[|rows| - 1];
      WrittenExactly(table, init, d);
      WithRowsAt(table, init, d.number);
    }
  }

  /** The reported count is the number of rows added exactly when no draw number repeats among the new rows. */
  lemma InsertedCountExact(table: map<int, Draw>, results: seq<Draw>)
    ensures var rows := NewRows(results, table.Keys);
            |rows| == |WithRows(table, rows)| - |table| <==> DistinctNumbers(rows)
  {
    var rows := NewRows(results, table.Keys);
    NewRowsFresh(results, table.Keys);
    WithRowsAdds(table, rows);
    WrittenAll(table, rows);
  }

  /** It can differ: the same new draw listed twice is counted twice and added once. */
  lemma InsertedCountExample(d: Draw)
    ensures |NewRows([d, d], {})| == 2 && |WithRows(map[], NewRows([d, d], {}))| == 1
  {
    assert [d, d][..1] == [d] && [d][..0] == [];
    assert NewRows([d], {}) == [d];
    assert NewRows([d, d], {}) == [d, d];
    assert WithRows(map[], [d]) == map[d.number := d];
  }

  // ---------- backfilling prizes ----------

  /** Rows the prize backfill looks for. */
  predicate LacksPrizes(d: Draw) {
    d.prizes == [] && 1 <= d.strong <= 7 && d.number >= MIN_PRIZE_DRAW_NUMBER && d.date >= MIN_PRIZE_DRAW_DATE
  }

  /** A draw's identity and date. */
  datatype DrawRef = DrawRef(number: int, date: int)

  function Missing(table: map<int, Draw>): set<DrawRef> {
    set n | n in table && LacksPrizes(table[n]) :: DrawRef(n, table[n].date)
  }

  lemma MissingMember(table: map<int, Draw>, ref: DrawRef)
    ensures ref in Missing(table) <==>
            ref.number in table && LacksPrizes(table[ref.number]) && ref.date == table[ref.number].date
  {
  }

  /** Every row is stored under its own number. */
  ghost predicate Keyed(table: map<int, Draw>) { forall n :: n in table ==> table[n].number == n }

  function Overwritten(table: map<int, Draw>, rows: seq<Draw>): map<int, Draw> {
    if rows == [] then table else Overwritten(table, rows[..|rows| - 1])[rows[|rows| - 1].number := rows[|rows| - 1]]
  }

  lemma {:induction false} OverwrittenConcat(table: map<int, Draw>, a: seq<Draw>, b: seq<Draw>)
    ensures Overwritten(table, a + b) == Overwritten(Overwritten(table, a), b)
  {
    if b == [] {
      assert a + b == a;
    } else {
      OverwrittenConcat(table, a, b[..|b| - 1]);
      assert (a + b)[..|a + b| - 1] == a + b[..|b| - 1];
    }
  }

  lemma {:induction false} WithRowsKeyed(table: map<int, Draw>, rows: seq<Draw>)
    requires Keyed(table)
    ensures Keyed(WithRows(table, rows))
  {
    if rows != [] { WithRowsKeyed(table, rows[..|rows| - 1]); }
  }

  lemma OneFewerMissing(table: map<int, Draw>, n: int, amounts: seq<real>)
    requires n in table && LacksPrizes(table[n]) && |amounts| == TIERS
    ensures Missing(table[n := table[n].(prizes := amounts)]) == Missing(table) - {DrawRef(n, table[n].date)}
    ensures DrawRef(n, table[n].date) in Missing(table)
  {
    var after := table[n := table[n].(prizes := amounts)];
    forall ref ensures ref in Missing(after) <==> ref in Missing(table) - {DrawRef(n, table[n].date)} {
      MissingMember(table, ref);
      MissingMember(after, ref);
    }
  }

  /** Per-draw prize commits, one row each. */
  function EachCommitted(rows: seq<Draw>): seq<Effect> {
    seq(|rows|, i requires 0 <= i < |rows| => Committed([rows[i]]))
  }

  /** Each row is one that lacked prizes, with eight amounts and nothing else changed; no row twice. */
  ghost predicate OnlyPrizes(before: map<int, Draw>, rows: seq<Draw>) {
    && (forall i :: 0 <= i < |rows| ==> PrizesAdded(before, rows[i]))
    && (forall i, j :: 0 <= i < j < |rows| ==> rows[i].number != rows[j].number)
  }

  ghost predicate PrizesAdded(before: map<int, Draw>, d: Draw) {
    d.number in before && LacksPrizes(before[d.number])
    && |d.prizes| == TIERS && d == before[d.number].(prizes := d.prizes)
  }

  /** These rows, and nothing else, were given prizes. */
  ghost predicate Backfilled(before: map<int, Draw>, rows: seq<Draw>, after: map<int, Draw>) {
    && after == Overwritten(before, rows) && |Missing(after)| + |rows| == |Missing(before)|
    && OnlyPrizes(before, rows)
  }

  /** What the backfill may touch: rows without prizes, with a strong number of the game, from draw 2982 and 2018-01-30
      (day 736724) on. */
  lemma OnlyEligibleRows(before: map<int, Draw>, rows: seq<Draw>, after: map<int, Draw>, n: int)
    requires Backfilled(before, rows, after)
    ensures n in after <==> n in before
    ensures n in before && after[n] != before[n] ==>
              && before[n].prizes == [] && 1 <= before[n].strong <= 7
              && before[n].number >= 2982 && before[n].date >= 736724
              && |after[n].prizes| == 8 && after[n] == before[n].(prizes := after[n].prizes)
  {
    if i :| 0 <= i < |rows| && rows[i].number == n {
      OverwrittenAt(before, rows, i);
      assert PrizesAdded(before, rows[i]);
    } else {
      OverwrittenKeeps(before, rows, n);
    }
  }

  lemma {:induction false} OverwrittenKeeps(before: map<int, Draw>, rows: seq<Draw>, n: int)
    requires forall i :: 0 <= i < |rows| ==> rows[i].number != n
    ensures n in Overwritten(before, rows) <==> n in before
    ensures n in before ==> Overwritten(before, rows)[n] == before[n]
  {
    if rows != [] { OverwrittenKeeps(before, rows[..|rows| - 1], n); }
  }

  lemma {:induction false} OverwrittenAt(before: map<int, Draw>, rows: seq<Draw>, i: nat)
    requires i < |rows| && forall j :: i < j < |rows| ==> rows[j].number != rows[i].number
    ensures rows[i].number in Overwritten(before, rows) && Overwritten(before, rows)[rows[i].number] == rows[i]
  {
    var init := rows[..|rows| - 1];
    if i < |init| {
      assert init[i] == rows[i] && forall j :: i < j < |init| ==> init[j] == rows[j];
      OverwrittenAt(before, init, i);
    }
  }

  /** A row given prizes after others were was none of them, and had lacked prizes from the start. */
  lemma AddedLater(before: map<int, Draw>, rows: seq<Draw>, d: Draw)
    requires OnlyPrizes(before, rows) && PrizesAdded(Overwritten(before, rows), d)
    ensures PrizesAdded(before, d) && forall i :: 0 <= i < |rows| ==> rows[i].number != d.number
  {
    forall i | 0 <= i < |rows| ensures rows[i].number != d.number {
      OverwrittenAt(before, rows, i);
      assert |rows[i].prizes| == TIERS;
    }
    OverwrittenKeeps(before, rows, d.number);
  }

  lemma OnlyPrizesThen(before: map<int, Draw>, rows: seq<Draw>, batch: seq<Draw>)
    requires OnlyPrizes(before, rows) && OnlyPrizes(Overwritten(before, rows), batch)
    ensures OnlyPrizes(before, rows + batch)
  {
    forall i | 0 <= i < |batch|
      ensures PrizesAdded(before, batch[i]) && forall j :: 0 <= j < |rows| ==> rows[j].number != batch[i].number
    {
      AddedLater(before, rows, batch[i]);
    }
  }

  lemma BackfilledThen(a: map<int, Draw>, rows: seq<Draw>, b: map<int, Draw>, batch: seq<Draw>, c: map<int, Draw>)
    requires Backfilled(a, rows, b) && Backfilled(b, batch, c)
    ensures Backfilled(a, rows + batch, c)
  {
    OverwrittenConcat(a, rows, batch);
    OnlyPrizesThen(a, rows, batch);
  }

  lemma Associative<T>(a: seq<T>, b: seq<T>, c: seq<T>)
    ensures a + (b + c) == a + b + c
  {
  }

  lemma EachCommittedConcat(a: seq<Draw>, b: seq<Draw>)
    ensures EachCommitted(a + b) == EachCommitted(a) + EachCommitted(b)
  {
  }

  lemma OverwrittenOne(table: map<int, Draw>, d: Draw)
    ensures Overwritten(table, [d]) == table[d.number := d]
  {
    assert [d][..0] == [];
  }

  ghost predicate IsLatest(refs: set<DrawRef>, ref: DrawRef) {
    ref in refs && forall other :: other in refs ==> other.date <= ref.date
  }

  /** A nonempty set of draws has a latest one. */
  lemma {:induction false} LatestExists(refs: set<DrawRef>) returns (ref: DrawRef)
    requires refs != {}
    ensures IsLatest(refs, ref)
    decreases refs
  {
    ref :| ref in refs;
    var rest := refs - {ref};
    assert refs == rest + {ref};
    if rest != {} {
      var other := LatestExists(rest);
      if ref.date < other.date {
        ref := other;
      }
    }
  }

  /** How many draws one query lists. */
  function Listed(table: map<int, Draw>, limit: nat): (n: nat)
    ensures n <= |Missing(table)| && (limit > 0 ==> n <= limit)
    ensures n < |Missing(table)| ==> n == limit > 0
  {
    if limit > 0 && limit < |Missing(table)| then limit else |Missing(table)|
  }

  /** ORDER BY draw_date DESC LIMIT: each listed draw is the latest of those not listed before it. */
  ghost predicate ListsLatest(table: map<int, Draw>, limit: nat, refs: seq<DrawRef>) {
    && |refs| == Listed(table, limit)
    && (forall i :: 0 <= i < |refs| ==> refs[i] in Missing(table))
    && (forall i, j :: 0 <= i < j < |refs| ==> refs[i] != refs[j])
    && (forall i, m :: 0 <= i < |refs| && m in Missing(table) && m !in refs[..i] ==> m.date <= refs[i].date)
  }

  /** Part of a listing of `all`: refs listed, latest first, and left still to be listed. */
  ghost predicate PickedSoFar(all: set<DrawRef>, refs: seq<DrawRef>, left: set<DrawRef>) {
    && left <= all && |refs| + |left| == |all|
    && (forall m :: m in left <==> m in all && m !in refs)
    && (forall i :: 0 <= i < |refs| ==> refs[i] in all)
    && (forall i, j :: 0 <= i < j < |refs| ==> refs[i] != refs[j])
    && (forall i, m :: 0 <= i < |refs| && m in all && m !in refs[..i] ==> m.date <= refs[i].date)
  }

  lemma PickOne(all: set<DrawRef>, refs: seq<DrawRef>, left: set<DrawRef>, ref: DrawRef)
    requires PickedSoFar(all, refs, left) && IsLatest(left, ref)
    ensures PickedSoFar(all, refs + [ref], left - {ref})
  {
    var more := refs + [ref];
    assert forall i :: 0 <= i <= |refs| ==> more[..i] == refs[..i];
    assert refs[..|refs|] == refs;
  }

  class LotteryResultRepository {
    var table: map<int, Draw>
    const journal: Journal

    constructor (journal: Journal)
      ensures table == map[] && this.journal == journal
    {
      table, this.journal := map[], journal;
    }

    /** Insert the fetched draws not present yet, all or none; report how many and their date span. */
    method InsertNewDraws(results: seq<Draw>) returns (outcome: Option<(nat, Window)>)
      modifies `table, journal
      ensures outcome.None? ==> table == old(table) && journal.effects == old(journal.effects)
      ensures outcome.Some? ==>
                var rows := NewRows(results, old(table).Keys);
                && outcome.value == (|rows|, DateSpan(rows))
                && table == WithRows(old(table), rows)
                && Inserted(old(table), results, table)
                && journal.effects == old(journal.effects)
                                      + (if results == [] then [] else [Committed(Written(old(table), rows))])
    {
      if |results| == 0 {
        AllInsertedRows(table, results);
        return Some((0, Window(Open, Open)));
      }
      if * { return None; } // the query for existing numbers, or the start of the transaction, fails
      var existing := table.Keys;
      var pending, inserted, span := table, 0, Window(Open, Open);
      ghost var rows := [];
      for i := 0 to |results|
        invariant rows == NewRows(results[..i], existing) && inserted == |rows| && span == DateSpan(rows)
        invariant pending == WithRows(table, rows)
        invariant table == old(table) && journal.effects == old(journal.effects)
      {
        var result := results[i];
        assert results[..i + 1] == results[..i] + [result];
        NewRowsAppend(results[..i], result, existing);
        if result.number in existing {
          continue;
        }
        if * { return None; } // an insertion fails and the transaction is rolled back
        WithRowsAppend(table, rows, result);
        DateSpanAppend(rows, result);
        pending := WithRow(pending, result);
        inserted := inserted + 1;
        span := Window(if span.from.Open? || result.date < span.from.day then On(result.date) else span.from,
                       if span.to.Open? || result.date > span.to.day then On(result.date) else span.to);
        rows := rows + [result];
      }
      assert results[..|results|] == results;
      if * { return None; } // the commit fails
      AllInsertedRows(table, results);
      journal.effects := journal.effects + [Committed(Written(table, rows))];
      table := pending;
      return Some((inserted, span));
    }

    /** Up to limit draws lacking prizes (all of them if limit is 0), latest first. */
    method GetDrawsWithoutPrizeRefs(limit: nat) returns (refs: seq<DrawRef>)
      ensures ListsLatest(table, limit, refs)
    {
      refs := [];
      var left := Missing(table);
      while left != {} && (limit == 0 || |refs| < limit)
        invariant PickedSoFar(Missing(table), refs, left) && (limit == 0 || |refs| <= limit)
        decreases left
      {
        ghost var latest := LatestExists(left);
        var ref :| ref in left && forall m :: m in left ==> m.date <= ref.date;
        PickOne(Missing(table), refs, left, ref);
        refs, left := refs + [ref], left - {ref};
      }
    }

    /** Write one draw's prizes; its date comes back. */
    method UpdatePrizeAmounts(number: int, amounts: seq<real>) returns (date: Option<int>)
      requires Keyed(table)
      modifies `table, journal
      ensures Keyed(table)
      ensures date.None? ==> table == old(table) && journal.effects == old(journal.effects)
      ensures date.Some? ==>
                && number in old(table) && date.value == old(table)[number].date
                && table == old(table)[number := old(table)[number].(prizes := amounts)]
                && journal.effects == old(journal.effects) + [Committed([table[number]])]
    {
      if number !in table { return None; }
      if * { return None; }
      table := table[number := table[number].(prizes := amounts)];
      journal.effects := journal.effects + [Committed([table[number]])];
      return Some(table[number].date);
    }
  }

  /** The amounts read off a page: one per tier. */
  function AmountsOf(page: seq<real>): (r: seq<real>)
    ensures |r| == TIERS && (|page| == TIERS ==> r == page)
  {
    if |page| == TIERS then page else seq(TIERS, i => 0.0)
  }

  /** Every row holds the amounts of its own draw's page. */
  ghost predicate FromPages(rows: seq<Draw>, page: int -> seq<real>) {
    forall i :: 0 <= i < |rows| ==> rows[i].prizes == AmountsOf(page(rows[i].number))
  }

  class PrizeSeeder {
    const repo: LotteryResultRepository

    /** The site's prize page of each draw, when it can be fetched. */
    const page: int -> seq<real>

    constructor (repo: LotteryResultRepository, page: int -> seq<real>)
      ensures this.repo == repo && this.page == page
    {
      this.repo, this.page := repo, page;
    }

    /** One batch. On failure nothing is written; otherwise `rows` are the rows written, each committed on its own,
        and the count and the date span describe exactly those. `failures` counts the queries, fetches and updates that
        failed: every draw listed is written or is one of them. */
    method SeedMissingPrizes(batchSize: int)
      returns (outcome: Option<(nat, Window)>, ghost rows: seq<Draw>, ghost failures: nat)
      requires Keyed(repo.table)
      modifies repo`table, repo.journal
      ensures Keyed(repo.table)
      ensures repo.journal.effects == old(repo.journal.effects) + EachCommitted(rows)
      ensures Backfilled(old(repo.table), rows, repo.table) && FromPages(rows, page)
      ensures outcome.None? ==> rows == [] && failures > 0
      ensures outcome.Some? ==> outcome.value == (|rows|, DateSpan(rows))
      ensures outcome.Some? ==>
                |rows| + failures == Listed(old(repo.table), if batchSize <= 0 then 50 else batchSize)
      ensures |rows| <= if batchSize <= 0 then 50 else batchSize
    {
      rows, failures := [], 0;
      var limit := if batchSize <= 0 then 50 else batchSize;
      if * { return None, rows, 1; } // the query fails
      var refs := repo.GetDrawsWithoutPrizeRefs(limit);
      if |refs| == 0 {
        return Some((0, Window(Open, Open))), rows, failures;
      }
      var written, span;
      written, span, rows, failures := SeedEach(refs);
      return Some((written, span)), rows, failures;
    }

    /** The draws of a batch, one by one. */
    method SeedEach(refs: seq<DrawRef>)
      returns (written: nat, span: Window, ghost rows: seq<Draw>, ghost failures: nat)
      requires Keyed(repo.table)
      requires forall i :: 0 <= i < |refs| ==> refs[i] in Missing(repo.table)
      requires forall i, j :: 0 <= i < j < |refs| ==> refs[i] != refs[j]
      modifies repo`table, repo.journal
      ensures Seeded(old(repo.journal.effects), old(repo.table), rows)
      ensures written == |rows| && span == DateSpan(rows) && |rows| + failures == |refs|
    {
      written, span, rows, failures := 0, Window(Open, Open), [], 0;
      ghost var start, before := repo.journal.effects, repo.table;
      for i := 0 to |refs|
        invariant Seeded(start, before, rows)
        invariant written == |rows| && |rows| + failures == i && span == DateSpan(rows)
        invariant forall j :: i <= j < |refs| ==> refs[j] in Missing(repo.table)
      {
        ghost var row;
        var date;
        date, row := SeedNext(refs[i], start, before, rows);
        if date.None? {
          assert rows + row == rows;
          failures := failures + 1;
          continue;
        }
        written := written + 1;
        span := Window(if span.from.Open? || date.value < span.from.day then On(date.value) else span.from,
                       if span.to.Open? || date.value > span.to.day then On(date.value) else span.to);
        DateSpanAppend(rows, row[0]);
        rows := rows + row;
      }
    }

    /** The rows written since `before`, each committed on its own with the amounts of its page. */
    ghost predicate Seeded(start: seq<Effect>, before: map<int, Draw>, rows: seq<Draw>)
      reads repo, repo.journal
    {
      && Keyed(repo.table) && repo.journal.effects == start + EachCommitted(rows)
      && Backfilled(before, rows, repo.table) && FromPages(rows, page)
    }

    /** One draw more. */
    method SeedNext(ref: DrawRef, ghost start: seq<Effect>, ghost before: map<int, Draw>, ghost rows: seq<Draw>)
      returns (date: Option<int>, ghost row: seq<Draw>)
      requires Seeded(start, before, rows) && ref in Missing(repo.table)
      modifies repo`table, repo.journal
      ensures Seeded(start, before, rows + row)
      ensures date.None? ==> row == []
      ensures date.Some? ==> |row| == 1 && row[0].date == date.value
      ensures Missing(old(repo.table)) - {ref} <= Missing(repo.table)
    {
      ghost var now := repo.table;
      date, row := SeedDraw(ref);
      BackfilledThen(before, rows, now, row, repo.table);
      EachCommittedConcat(rows, row);
      Associative(start, EachCommitted(rows), EachCommitted(row));
    }

    /** Fetch one draw's prizes and write them; `row` is the row written, if any. */
    method SeedDraw(ref: DrawRef) returns (date: Option<int>, ghost row: seq<Draw>)
      requires Keyed(repo.table) && ref in Missing(repo.table)
      modifies repo`table, repo.journal
      ensures Keyed(repo.table)
      ensures date.None? ==> row == []
      ensures date.Some? ==> |row| == 1 && row[0].date == date.value
      ensures repo.journal.effects == old(repo.journal.effects) + EachCommitted(row)
      ensures Backfilled(old(repo.table), row, repo.table) && FromPages(row, page)
      ensures Missing(old(repo.table)) - {ref} <= Missing(repo.table)
    {
      row := [];
      if * { return None, row; } // the page cannot be fetched or parsed
      var amounts := AmountsOf(page(ref.number));
      ghost var before := repo.table;
      date := repo.UpdatePrizeAmounts(ref.number, amounts);
      if date.Some? {
        MissingMember(before, ref);
        OneFewerMissing(before, ref.number, amounts);
        row := [repo.table[ref.number]];
        OverwrittenOne(before, row[0]);
        assert EachCommitted(row) == [Committed(row)];
      }
    }
  }

  // ---------- the run ----------

  class CacheRangeInvalidator {
    const journal: Journal

    constructor (journal: Journal)
      ensures this.journal == journal
    {
      this.journal := journal;
    }

    method InvalidateRange(range: Window)
      modifies journal
      ensures journal.effects == old(journal.effects) + [Invalidated(range)]
    {
      journal.effects := journal.effects + [Invalidated(range)];
    }
  }

  /** Effect i, a commit, is followed by an invalidation whose range holds the date of every row it wrote. */
  ghost predicate CoveredAt(effects: seq<Effect>, i: nat)
    requires i < |effects| && effects[i].Committed?
  {
    effects[i].rows == []
    || exists j :: i < j < |effects| && effects[j].Invalidated? && AllWithin(effects[i].rows, effects[j].range)
  }

  ghost predicate Covered(effects: seq<Effect>) {
    forall i :: 0 <= i < |effects| && effects[i].Committed? ==> CoveredAt(effects, i)
  }

  /** The rows committed, in order. */
  ghost function RowsCommitted(effects: seq<Effect>): seq<Draw> {
    if effects == [] then []
    else if effects[|effects| - 1].Committed? then RowsCommitted(effects[..|effects| - 1]) + effects[|effects| - 1].rows
    else RowsCommitted(effects[..|effects| - 1])
  }

  ghost function Invalidations(effects: seq<Effect>): nat {
    if effects == [] then 0
    else Invalidations(effects[..|effects| - 1]) + (if effects[|effects| - 1].Invalidated? then 1 else 0)
  }

  lemma OneMore(effects: seq<Effect>, e: Effect)
    ensures RowsCommitted(effects + [e]) ==
            if e.Committed? then RowsCommitted(effects) + e.rows else RowsCommitted(effects)
    ensures Invalidations(effects + [e]) == Invalidations(effects) + (if e.Invalidated? then 1 else 0)
  {
    assert (effects + [e])[..|effects|] == effects;
  }

  lemma EachStep(effects: seq<Effect>, init: seq<Draw>, last: Draw)
    requires RowsCommitted(effects + EachCommitted(init)) == RowsCommitted(effects) + init
    requires Invalidations(effects + EachCommitted(init)) == Invalidations(effects)
    ensures RowsCommitted(effects + EachCommitted(init + [last])) == RowsCommitted(effects) + (init + [last])
    ensures Invalidations(effects + EachCommitted(init + [last])) == Invalidations(effects)
  {
    var e := Committed([last]);
    assert EachCommitted(init + [last]) == EachCommitted(init) + [e];
    Associative(effects, EachCommitted(init), [e]);
    OneMore(effects + EachCommitted(init), e);
    Associative(RowsCommitted(effects), init, [last]);
  }

  lemma {:induction false} EachCommittedRows(effects: seq<Effect>, rows: seq<Draw>)
    ensures RowsCommitted(effects + EachCommitted(rows)) == RowsCommitted(effects) + rows
    ensures Invalidations(effects + EachCommitted(rows)) == Invalidations(effects)
  {
    if rows == [] {
      assert effects + EachCommitted(rows) == effects;
    } else {
      var init, last := rows[..|rows| - 1], rows[|rows| - 1];
      EachCommittedRows(effects, init);
      EachStep(effects, init, last);
      assert rows == init + [last];
    }
  }

  /** A batch of commits followed by the invalidation of its span is covered, whatever came before. */
  lemma BatchCovered(effects: seq<Effect>, batch: seq<Effect>, range: Window)
    requires Covered(effects)
    requires forall i :: 0 <= i < |batch| ==> batch[i].Committed? && AllWithin(batch[i].rows, range)
    ensures Covered(effects + batch + [Invalidated(range)])
  {
    var all := effects + batch + [Invalidated(range)];
    forall i | 0 <= i < |all| && all[i].Committed? ensures CoveredAt(all, i) {
      if i < |effects| {
        assert CoveredAt(effects, i);
        if j :| i < j < |effects| && effects[j].Invalidated? && AllWithin(effects[i].rows, effects[j].range) {
          assert all[j].Invalidated? && AllWithin(all[i].rows, all[j].range);
        }
      } else {
        assert all[i] == batch[i - |effects|];
        assert all[|all| - 1].Invalidated?;
      }
    }
  }

  lemma EachWithinSpan(rows: seq<Draw>)
    ensures forall i :: 0 <= i < |rows| ==>
              EachCommitted(rows)[i].Committed? && AllWithin(EachCommitted(rows)[i].rows, DateSpan(rows))
  {
    DateSpanIsLeast(rows);
  }

  /** What inserting leaves in the journal: the commit, then the invalidation if a row was counted. */
  ghost function InsertEffects(table: map<int, Draw>, results: seq<Draw>, invalidates: bool): seq<Effect> {
    var rows := NewRows(results, table.Keys);
    (if results == [] then [] else [Committed(Written(table, rows))])
    + (if rows == [] || !invalidates then [] else [Invalidated(DateSpan(rows))])
  }

  ghost function BatchEffects(rows: seq<Draw>, invalidates: bool): seq<Effect> {
    if rows == [] then []
    else EachCommitted(rows) + (if invalidates then [Invalidated(DateSpan(rows))] else [])
  }

  /** The effects commit exactly these rows, invalidate at most this often, and leave no commit uncovered. */
  ghost predicate Records(effects: seq<Effect>, rows: seq<Draw>, most: nat, invalidates: bool) {
    RowsCommitted(effects) == rows && Invalidations(effects) <= most && (invalidates ==> Covered(effects))
  }

  lemma OneCommit(rows: seq<Draw>)
    ensures RowsCommitted([Committed(rows)]) == rows && Invalidations([Committed(rows)]) == 0
    ensures rows == [] ==> Covered([Committed(rows)])
  {
    OneMore([], Committed(rows));
    assert [] + [Committed(rows)] == [Committed(rows)];
  }

  lemma CommitInvalidated(rows: seq<Draw>, range: Window)
    requires AllWithin(rows, range)
    ensures Records([Committed(rows)] + [Invalidated(range)], rows, 1, true)
  {
    OneCommit(rows);
    OneMore([Committed(rows)], Invalidated(range));
    BatchCovered([], [Committed(rows)], range);
    assert [] + [Committed(rows)] == [Committed(rows)];
  }

  lemma InsertAdds(table: map<int, Draw>, results: seq<Draw>, invalidates: bool)
    ensures var written := Written(table, NewRows(results, table.Keys));
            Records(InsertEffects(table, results, invalidates), written, 1, invalidates)
  {
    var rows := NewRows(results, table.Keys);
    var written := Written(table, rows);
    var effects := InsertEffects(table, results, invalidates);
    if results == [] {
      assert effects == [];
    } else if rows == [] || !invalidates {
      OneCommit(written);
      assert effects == [Committed(written)];
    } else {
      WrittenAreRows(table, rows);
      DateSpanIsLeast(rows);
      CommitInvalidated(written, DateSpan(rows));
    }
  }

  lemma BatchAdds(effects: seq<Effect>, rows: seq<Draw>, most: nat, batch: seq<Draw>, invalidates: bool)
    requires batch != [] && Records(effects, rows, most, invalidates)
    ensures Records(effects + BatchEffects(batch, invalidates), rows + batch, most + 1, invalidates)
  {
    EachCommittedRows(effects, batch);
    var each := effects + EachCommitted(batch);
    if invalidates {
      EachWithinSpan(batch);
      BatchCovered(effects, EachCommitted(batch), DateSpan(batch));
      OneMore(each, Invalidated(DateSpan(batch)));
      assert effects + BatchEffects(batch, true) == each + [Invalidated(DateSpan(batch))];
    } else {
      assert effects + BatchEffects(batch, false) == each;
    }
  }

  lemma RecordsThen(a: seq<Effect>, rows: seq<Draw>, m: nat, b: seq<Effect>, more: seq<Draw>, n: nat, invalidates: bool)
    requires Records(a, rows, m, invalidates) && Records(b, more, n, invalidates)
    ensures Records(a + b, rows + more, m + n, invalidates)
  {
    CoveredConcat(a, b);
    CommittedConcat(a, b);
  }

  lemma RecordsAtMost(effects: seq<Effect>, rows: seq<Draw>, m: nat, n: nat, invalidates: bool)
    requires Records(effects, rows, m, invalidates) && m <= n
    ensures Records(effects, rows, n, invalidates)
  {
  }

  lemma CoveredConcat(a: seq<Effect>, b: seq<Effect>)
    ensures Covered(a) && Covered(b) ==> Covered(a + b)
  {
    if Covered(a) && Covered(b) {
      forall i | 0 <= i < |a + b| && (a + b)[i].Committed? ensures CoveredAt(a + b, i) {
        if i < |a| {
          assert CoveredAt(a, i);
          if j :| i < j < |a| && a[j].Invalidated? && AllWithin(a[i].rows, a[j].range) {
            assert (a + b)[j] == a[j];
          }
        } else {
          assert CoveredAt(b, i - |a|);
          if j :| i - |a| < j < |b| && b[j].Invalidated? && AllWithin(b[i - |a|].rows, b[j].range) {
            assert (a + b)[j + |a|] == b[j];
          }
        }
      }
    }
  }

  lemma ConcatStep(a: seq<Effect>, init: seq<Effect>, last: Effect)
    requires RowsCommitted(a + init) == RowsCommitted(a) + RowsCommitted(init)
    requires Invalidations(a + init) == Invalidations(a) + Invalidations(init)
    ensures RowsCommitted(a + (init + [last])) == RowsCommitted(a) + RowsCommitted(init + [last])
    ensures Invalidations(a + (init + [last])) == Invalidations(a) + Invalidations(init + [last])
  {
    OneMore(a + init, last);
    OneMore(init, last);
    Associative(a, init, [last]);
    if last.Committed? { Associative(RowsCommitted(a), RowsCommitted(init), last.rows); }
  }

  lemma {:induction false} CommittedConcat(a: seq<Effect>, b: seq<Effect>)
    ensures RowsCommitted(a + b) == RowsCommitted(a) + RowsCommitted(b)
    ensures Invalidations(a + b) == Invalidations(a) + Invalidations(b)
  {
    if b == [] {
      assert a + b == a;
    } else {
      var init, last := b[..|b| - 1], b[|b| - 1];
      CommittedConcat(a, init);
      ConcatStep(a, init, last);
      assert b == init + [last];
    }
  }

  /** A drain under way: where it started, the effects since, the rows given prizes, the writing rounds, and what failed
      in them. */
  datatype Progress = Progress(
    start: seq<Effect>, table: map<int, Draw>, effects: seq<Effect>, rows: seq<Draw>, rounds: nat, failures: nat)

  ghost predicate Tracks(p: Progress, effects: seq<Effect>, table: map<int, Draw>, invalidates: bool) {
    && effects == p.start + p.effects
    && Records(p.effects, p.rows, p.rounds, invalidates)
    && Backfilled(p.table, p.rows, table)
  }

  ghost function Advanced(p: Progress, batch: seq<Draw>, invalidates: bool): Progress {
    p.(effects := p.effects + BatchEffects(batch, invalidates),
       rows := p.rows + batch,
       rounds := p.rounds + if batch == [] then 0 else 1)
  }

  lemma AdvancedTracks(p: Progress, effects: seq<Effect>, now: map<int, Draw>, batch: seq<Draw>, after: map<int, Draw>,
                       invalidates: bool)
    requires Tracks(p, effects, now, invalidates) && Backfilled(now, batch, after)
    ensures Tracks(Advanced(p, batch, invalidates), effects + BatchEffects(batch, invalidates), after, invalidates)
  {
    BackfilledThen(p.table, p.rows, now, batch, after);
    var more := BatchEffects(batch, invalidates);
    assert p.start + p.effects + more == p.start + (p.effects + more);
    if batch == [] {
      assert p.effects + more == p.effects && p.rows + batch == p.rows;
    } else {
      BatchAdds(p.effects, p.rows, p.rounds, batch, invalidates);
    }
  }

  class ScraperRunner {
    const inserter: LotteryResultRepository
    const invalidator: CacheRangeInvalidator?
    const seeder: PrizeSeeder?
    const journal: Journal

    constructor (inserter: LotteryResultRepository, invalidator: CacheRangeInvalidator?, seeder: PrizeSeeder?)
      requires invalidator != null ==> invalidator.journal == inserter.journal
      requires seeder != null ==> seeder.repo == inserter
      ensures Wired()
    {
      this.inserter, this.invalidator, this.seeder := inserter, invalidator, seeder;
      journal := inserter.journal;
    }

    predicate Wired() {
      && inserter.journal == journal
      && (invalidator != null ==> invalidator.journal == journal)
      && (seeder != null ==> seeder.repo == inserter)
    }

    /** The new draws, then their span. */
    method Insert(results: seq<Draw>) returns (ok: bool, inserted: nat, ghost mine: seq<Effect>)
      requires Wired() && Keyed(inserter.table)
      modifies inserter`table, journal
      ensures Keyed(inserter.table)
      ensures journal.effects == old(journal.effects) + mine
      ensures !ok ==> inserted == 0 && mine == [] && inserter.table == old(inserter.table)
      ensures ok ==> var rows := NewRows(results, old(inserter.table).Keys);
                     && inserter.table == WithRows(old(inserter.table), rows)
                     && inserted == |rows|
                     && mine == InsertEffects(old(inserter.table), results, invalidator != null)
    {
      var outcome := inserter.InsertNewDraws(results);
      mine := [];
      if outcome.None? {
        return false, 0, mine;
      }
      ghost var table := old(inserter.table);
      WithRowsKeyed(table, NewRows(results, table.Keys));
      inserted := outcome.value.0;
      if inserted > 0 && invalidator != null {
        invalidator.InvalidateRange(outcome.value.1);
      }
      mine := InsertEffects(table, results, invalidator != null);
      ok := true;
    }

    /** One batch of prizes, then its span; 0 when nothing was written or the batch failed. */
    method Batch(s: PrizeSeeder) returns (written: nat, ghost rows: seq<Draw>, ghost failures: nat)
      requires Wired() && s == seeder && Keyed(inserter.table)
      modifies inserter`table, journal
      ensures Keyed(inserter.table)
      ensures written == |rows| <= PRIZE_BATCH_SIZE
      ensures journal.effects == old(journal.effects) + BatchEffects(rows, invalidator != null)
      ensures Backfilled(old(inserter.table), rows, inserter.table) && FromPages(rows, s.page)
      ensures failures == 0 ==> written == Listed(old(inserter.table), PRIZE_BATCH_SIZE)
    {
      var outcome;
      outcome, rows, failures := s.SeedMissingPrizes(PRIZE_BATCH_SIZE);
      if outcome.None? || outcome.value.0 == 0 {
        assert EachCommitted(rows) == [];
        return 0, rows, failures;
      }
      if invalidator != null {
        invalidator.InvalidateRange(outcome.value.1);
      }
      written := outcome.value.0;
    }

    /** A batch on top of what the drain has done so far. */
    method Round(s: PrizeSeeder, ghost done: Progress) returns (written: nat, ghost next: Progress)
      requires Wired() && s == seeder && Keyed(inserter.table)
      requires Tracks(done, journal.effects, inserter.table, invalidator != null) && FromPages(done.rows, s.page)
      modifies inserter`table, journal
      ensures Keyed(inserter.table)
      ensures Tracks(next, journal.effects, inserter.table, invalidator != null) && FromPages(next.rows, s.page)
      ensures next.start == done.start && next.table == done.table
      ensures |next.rows| == |done.rows| + written && written <= PRIZE_BATCH_SIZE
      ensures next.rounds == done.rounds + if written == 0 then 0 else 1
      ensures next.failures >= done.failures && |Missing(inserter.table)| + written == |Missing(old(inserter.table))|
      ensures next.failures == done.failures ==> written == Listed(old(inserter.table), PRIZE_BATCH_SIZE)
    {
      ghost var now := inserter.table;
      ghost var batch, failures;
      written, batch, failures := Batch(s);
      next := Advanced(done, batch, invalidator != null).(failures := done.failures + failures);
      AdvancedTracks(done, old(journal.effects), now, batch, inserter.table, invalidator != null);
    }

    /** Drain the prize backlog batch by batch: until it is empty, or the cap is reached, if nothing fails. */
    method Drain(s: PrizeSeeder) returns (total: nat, ghost done: Progress)
      requires Wired() && s == seeder && Keyed(inserter.table)
      modifies inserter`table, journal
      ensures Keyed(inserter.table)
      ensures done.start == old(journal.effects) && done.table == old(inserter.table)
      ensures Tracks(done, journal.effects, inserter.table, invalidator != null) && FromPages(done.rows, s.page)
      ensures total == |done.rows| < MAX_PRIZES_PER_RUN + PRIZE_BATCH_SIZE
      ensures done.rounds <= MAX_PRIZES_PER_RUN
      ensures done.failures == 0 ==> Missing(inserter.table) == {} || total >= MAX_PRIZES_PER_RUN
    {
      total, done := 0, Progress(journal.effects, inserter.table, [], [], 0, 0);
      assert done.start + [] == done.start;
      while total < MAX_PRIZES_PER_RUN
        invariant Keyed(inserter.table)
        invariant done.start == old(journal.effects) && done.table == old(inserter.table)
        invariant Tracks(done, journal.effects, inserter.table, invalidator != null) && FromPages(done.rows, s.page)
        invariant done.rounds <= total == |done.rows| < MAX_PRIZES_PER_RUN + PRIZE_BATCH_SIZE
        invariant done.rounds <= MAX_PRIZES_PER_RUN
        decreases MAX_PRIZES_PER_RUN - total
      {
        var written;
        written, done := Round(s, done);
        if written == 0 {
          assert done.failures == 0 ==> |Missing(inserter.table)| == 0;
          break;
        }
        total := total + written;
      }
    }

    /** The prize phase, if there is a seeder. */
    method Backfill() returns (total: nat, ghost rows: seq<Draw>, ghost more: seq<Effect>, ghost failures: nat)
      requires Wired() && Keyed(inserter.table)
      modifies inserter`table, journal
      ensures Keyed(inserter.table)
      ensures total == |rows| < MAX_PRIZES_PER_RUN + PRIZE_BATCH_SIZE
      ensures journal.effects == old(journal.effects) + more
      ensures Records(more, rows, MAX_PRIZES_PER_RUN, invalidator != null)
      ensures Backfilled(old(inserter.table), rows, inserter.table)
      ensures seeder != null ==> FromPages(rows, seeder.page)
      ensures seeder != null && failures == 0 ==> Missing(inserter.table) == {} || total >= MAX_PRIZES_PER_RUN
    {
      total, rows, more, failures := 0, [], [], 0;
      if seeder != null {
        ghost var done;
        total, done := Drain(seeder);
        rows, more, failures := done.rows, done.effects, done.failures;
        RecordsAtMost(more, rows, done.rounds, MAX_PRIZES_PER_RUN, invalidator != null);
      }
    }

    /** One run. However it ends, every row it committed was dated inside a range it has since passed to the
        invalidator; `prizes` counts the rows given prizes, the backlog shrinks by exactly that much, and the
        run stays under its cap. With a seeder, and nothing failing, it ends with the backlog empty or the cap reached.
        `fetched` is None when the fetch fails. */
    method RunOnce(fetched: Option<seq<Draw>>)
      returns (ok: bool, inserted: nat, prizes: nat, ghost mine: seq<Effect>, ghost given: seq<Draw>,
               ghost failures: nat)
      requires Wired() && Keyed(inserter.table)
      modifies inserter`table, journal
      ensures Keyed(inserter.table)
      ensures journal.effects == old(journal.effects) + mine
      ensures prizes < MAX_PRIZES_PER_RUN + PRIZE_BATCH_SIZE
      ensures !ok ==> inserted == prizes == 0 && mine == [] && inserter.table == old(inserter.table)
      ensures ok ==> fetched.Some?
      ensures ok ==> var added := NewRows(fetched.value, old(inserter.table).Keys);
                     && inserted == |added| && prizes == |given|
                     && Records(mine, Written(old(inserter.table), added) + given, 1 + MAX_PRIZES_PER_RUN,
                                invalidator != null)
                     && Backfilled(WithRows(old(inserter.table), added), given, inserter.table)
      ensures ok && seeder != null ==> FromPages(given, seeder.page)
      ensures ok && seeder != null && failures == 0 ==>
                Missing(inserter.table) == {} || prizes >= MAX_PRIZES_PER_RUN
    {
      inserted, prizes, mine, given, failures := 0, 0, [], [], 0;
      if fetched.None? {
        return false, inserted, prizes, mine, given, 1;
      }
      ghost var table := inserter.table;
      ok, inserted, mine := Insert(fetched.value);
      if !ok {
        failures := 1;
        return;
      }
      InsertAdds(table, fetched.value, invalidator != null);
      ghost var start, added := old(journal.effects), Written(table, NewRows(fetched.value, table.Keys));
      ghost var more;
      prizes, given, more, failures := Backfill();
      Associative(start, mine, more);
      RecordsThen(mine, added, 1, more, given, MAX_PRIZES_PER_RUN, invalidator != null);
      mine := mine + more;
    }
  }
}
