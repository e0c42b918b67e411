/** Draws, dates at day granularity, and the date windows that select draws. */
module DateWindow {
  import opened Options

  /** A window bound: a day, or the zero time meaning "no limit". */
  datatype Bound = Open | On(day: int)

  datatype Window = Window(from: Bound, to: Bound)

  /** One archived draw; prizes is empty when the row has no prize data. */
  datatype Draw = Draw(number: int, date: int, numbers: seq<int>, strong: int, prizes: seq<real>)

  /** 2004-02-12, counting 0001-01-01 as day 1. */
  const DEFAULT_FROM := 731623

  predicate InWindow(w: Window, day: int) {
    (w.from.On? ==> w.from.day <= day) && (w.to.On? ==> day <= w.to.day)
  }

  predicate Nonempty(w: Window) {
    w.from.On? && w.to.On? ==> w.from.day <= w.to.day
  }

  /** An open lower bound becomes the start of the current game format. */
  function NormalizeWindow(w: Window): Window {
    if w.from.Open? then w.(from := On(DEFAULT_FROM)) else w
  }

  predicate RangesOverlap(a: Window, b: Window) {
    if a.to.On? && b.from.On? && a.to.day < b.from.day then false
    else if b.to.On? && a.from.On? && b.to.day < a.from.day then false
    else true
  }

  /** Overlap is sharing a day, for windows that hold any day at all. */
  lemma OverlapIsSharedDay(a: Window, b: Window)
    ensures (exists day :: InWindow(a, day) && InWindow(b, day)) <==>
            RangesOverlap(a, b) && Nonempty(a) && Nonempty(b)
  {
    if RangesOverlap(a, b) && Nonempty(a) && Nonempty(b) {
      var day :=
        if a.from.On? && b.from.On? then (if a.from.day < b.from.day then b.from.day else a.from.day)
        else if a.from.On? then a.from.day
        else if b.from.On? then b.from.day
        else if a.to.On? && b.to.On? then (if a.to.day < b.to.day then a.to.day else b.to.day)
        else if a.to.On? then a.to.day
        else if b.to.On? then b.to.day
        else 0;
      assert InWindow(a, day) && InWindow(b, day);
    }
  }

  // ---------- selecting draws ----------

  /** The draws dated inside w, in order. */
  function Select(draws: seq<Draw>, w: Window): (r: seq<Draw>)
    ensures forall d :: d in r <==> d in draws && InWindow(w, d.date)
  {
    if draws == [] then []
    else if InWindow(w, draws[0].date) then [draws[0]] + Select(draws[1..], w)
    else Select(draws[1..], w)
  }

  /** The repository query: the rows of a date-ordered table inside the window. */
  function GetByDateRange(table: seq<Draw>, w: Window): seq<Draw> { Select(table, w) }

  lemma {:induction false} SelectAppend(draws: seq<Draw>, d: Draw, w: Window)
    ensures Select(draws + [d], w) == Select(draws, w) + (if InWindow(w, d.date) then [d] else [])
  {
    if draws == [] {
      assert draws + [d] == [d];
    } else {
      assert (draws + [d])[0] == draws[0] && (draws + [d])[1..] == draws[1..] + [d];
      SelectAppend(draws[1..], d, w);
    }
  }

  lemma {:induction false} SelectAll(draws: seq<Draw>)
    ensures Select(draws, Window(Open, Open)) == draws
  {
    if draws != [] { SelectAll(draws[1..]); }
  }

  method FilterDrawsByWindow(draws: seq<Draw>, w: Window) returns (filtered: seq<Draw>)
    ensures filtered == Select(draws, w)
  {
    if w.from.Open? && w.to.Open? {
      SelectAll(draws);
      return draws;
    }
    filtered := [];
    for i := 0 to |draws|
      invariant filtered == Select(draws[..i], w)
    {
      var d := draws[i];
      assert draws[..i + 1] == draws[..i] + [d];
      SelectAppend(draws[..i], d, w);
      if w.from.On? && d.date < w.from.day {
        continue;
      }
      if w.to.On? && w.to.day < d.date {
        continue;
      }
      filtered := filtered + [d];
    }
    assert draws[..|draws|] == draws;
  }

  // ---------- the union of two request windows ----------

  /** An unset request window has both bounds open. */
  function WindowFromProto(w: Option<Window>): Window {
    match w case None => Window(Open, Open) case Some(x) => x
  }

  function UnionWindows(a: Option<Window>, b: Option<Window>): Option<Window> {
    if a.None? then b
    else if b.None? then a
    else
      var (aw, bw) := (a.value, b.value);
      Some(Window(
        if bw.from.Open? || (aw.from.On? && bw.from.day < aw.from.day) then bw.from else aw.from,
        if bw.to.Open? || (aw.to.On? && bw.to.day > aw.to.day) then bw.to else aw.to))
  }

  /** outer's bounds are no tighter than inner's on either side; an open bound is the loosest. */
  predicate Spans(outer: Window, inner: Window) {
    && (outer.from.On? ==> inner.from.On? && outer.from.day <= inner.from.day)
    && (outer.to.On? ==> inner.to.On? && inner.to.day <= outer.to.day)
  }

  /** The union takes the earliest lower and the latest upper bound: it spans both windows, and every window that
      spans both spans it. */
  lemma UnionIsLeast(a: Window, b: Window, w: Window)
    ensures var u := UnionWindows(Some(a), Some(b)).value;
            Spans(u, a) && Spans(u, b) && (Spans(w, a) && Spans(w, b) ==> Spans(w, u))
  {
  }

  /** Every day of either window is a day of the union. */
  lemma UnionCovers(a: Window, b: Window, day: int)
    requires InWindow(a, day) || InWindow(b, day)
    ensures InWindow(UnionWindows(Some(a), Some(b)).value, day)
  {
  }

  /** The archive that a request loads for its two windows. */
  function LoadedDraws(table: seq<Draw>, a: Option<Window>, s: Option<Window>): seq<Draw> {
    GetByDateRange(table, NormalizeWindow(WindowFromProto(UnionWindows(a, s))))
  }

  lemma SelectCons(d: Draw, rest: seq<Draw>, w: Window)
    ensures Select([d] + rest, w) == if InWindow(w, d.date) then [d] + Select(rest, w) else Select(rest, w)
  {
    assert ([d] + rest)[1..] == rest;
  }

  lemma {:induction false} SelectTwice(table: seq<Draw>, outer: Window, inner: Window, w: Window)
    requires forall d :: d in table ==> (InWindow(outer, d.date) && InWindow(inner, d.date) <==> InWindow(w, d.date))
    ensures Select(Select(table, outer), inner) == Select(table, w)
  {
    if table != [] {
      var d, rest := table[0], table[1..];
      assert d in table && forall x :: x in rest ==> x in table;
      SelectTwice(rest, outer, inner, w);
      if InWindow(outer, d.date) { SelectCons(d, Select(rest, outer), inner); }
    }
  }

  /** When the union's open lower bound is not narrowed below the simulate window's. */
  predicate LosslessWindows(a: Option<Window>, s: Window) {
    a.None? || a.value.from.On? || s.from.Open? || s.from.day >= DEFAULT_FROM || !Nonempty(s)
  }

  /** Loading the union and cutting it to the simulate window loses nothing, on exactly these windows. */
  lemma LosslessLoading(a: Option<Window>, s: Window)
    ensures LosslessWindows(a, s) <==>
            forall table :: Select(LoadedDraws(table, a, Some(s)), s) == GetByDateRange(table, NormalizeWindow(s))
  {
    var loaded := NormalizeWindow(WindowFromProto(UnionWindows(a, Some(s))));
    if LosslessWindows(a, s) {
      forall table ensures Select(LoadedDraws(table, a, Some(s)), s) == GetByDateRange(table, NormalizeWindow(s)) {
        SelectTwice(table, loaded, s, NormalizeWindow(s));
      }
    } else {
      var d := Draw(1, s.from.day, [], 0, []);
      assert d in GetByDateRange([d], NormalizeWindow(s));
      assert d !in LoadedDraws([d], a, Some(s));
      assert d !in Select(LoadedDraws([d], a, Some(s)), s);
    }
  }

  /** A concrete loss: archive window open below, simulate window starting the day before 2004-02-12. */
  lemma LossyExample()
    ensures var a, s := Some(Window(Open, Open)), Window(On(DEFAULT_FROM - 1), On(DEFAULT_FROM - 1));
            var d := Draw(1, DEFAULT_FROM - 1, [1, 2, 3, 4, 5, 6], 7, []);
            Select(LoadedDraws([d], a, Some(s)), s) == [] && GetByDateRange([d], NormalizeWindow(s)) == [d]
  {
    var s := Window(On(DEFAULT_FROM - 1), On(DEFAULT_FROM - 1));
    var d := Draw(1, DEFAULT_FROM - 1, [1, 2, 3, 4, 5, 6], 7, []);
    assert [d][1..] == [];
    assert Select([d], s) == [d] + Select([], s);
    assert Select([d], Window(On(DEFAULT_FROM), Open)) == [];
  }
}
