/** What a backtest records: which tier a draw hits and how often, tier by tier over all draws, which draws are listed,
    which form is played and against which draws. */
module BacktestRecords {
  import opened Options
  import opened Combinatorics
  import opened DateWindow
  import opened Backtests
  import A = LotteryArchives

  // ---------- one draw ----------

  predicate StrongAgrees(userStrong: int, d: Draw) { 0 < userStrong && userStrong == d.strong }

  /** The tier of j matches, with the strong number and without. */
  function TierFor(j: int, agrees: bool): int { if agrees then 13 - 2 * j else 14 - 2 * j }

  /** How many of the form's combinations have exactly j numbers of the draw. */
  function Count(form: seq<int>, d: Draw, j: nat): nat
    requires j <= NUMBERS_PLAYED
  {
    var m := |Elements(form) * Elements(d.numbers)|;
    if m > |form| then 0 else Binom(m, j) * Binom(|form| - m, NUMBERS_PLAYED - j)
  }

  lemma TierForIs(j: nat, agrees: bool)
    requires 3 <= j <= 6
    ensures MatchToTier(j, agrees) == TierFor(j, agrees) && 1 <= TierFor(j, agrees) <= TIERS
  {
  }

  lemma CountedHits(d: Draw, form: seq<int>, agrees: bool, j: nat) returns (count: nat)
    requires Distinct(form) && 3 <= j <= 6
    ensures count == Count(form, d, j)
    ensures TierHits(Combos(form, NUMBERS_PLAYED), Elements(d.numbers), agrees, MatchToTier(j, agrees)) == count
    ensures TierHits(Combos(form, NUMBERS_PLAYED), Elements(d.numbers), agrees, MatchToTier(j, !agrees)) == 0
  {
    TierClosedForm(form, Elements(d.numbers), agrees, j);
    count := Count(form, d, j);
  }

  lemma DrawTier(d: Draw, form: seq<int>, userStrong: int, j: nat) returns (v: seq<nat>, count: nat)
    requires Distinct(form) && 3 <= j <= 6
    ensures v == DrawHits(d, Combos(form, NUMBERS_PLAYED), userStrong) && count == Count(form, d, j) && |v| == TIERS
    ensures v[TierFor(j, StrongAgrees(userStrong, d)) - 1] == count
    ensures v[TierFor(j, !StrongAgrees(userStrong, d)) - 1] == 0
  {
    var agrees := StrongAgrees(userStrong, d);
    count := CountedHits(d, form, agrees, j);
    TierForIs(j, agrees);
    TierForIs(j, !agrees);
    v := DrawHits(d, Combos(form, NUMBERS_PLAYED), userStrong);
  }

  function HitOf(tier: int, count: nat, prize: real): TierHit { TierHit(tier, count, prize, count as real * prize) }

  /** A tier is listed once with its figures if it was hit, and not at all otherwise. */
  lemma ListedHit(v: seq<nat>, prizes: seq<real>, tier: nat, h: TierHit)
    requires |v| == |prizes| && 1 <= tier <= |v|
    ensures h in HitList(v, prizes, |prizes|) && h.tier == tier <==>
            v[tier - 1] > 0 && h == HitOf(tier, v[tier - 1], prizes[tier - 1])
  {
    var list := HitList(v, prizes, |prizes|);
    HitListSorted(v, prizes, |prizes|);
    if h in list && h.tier == tier {
      var i :| 0 <= i < |list| && list[i] == h;
      var k := HitListComplete(v, prizes, |prizes|, tier);
      assert list[k].tier == list[i].tier;
    }
    if v[tier - 1] > 0 { var k := HitListComplete(v, prizes, |prizes|, tier); }
  }

  lemma ListedUnder(v: seq<nat>, prizes: seq<real>, tier: nat, other: nat, count: nat)
    requires |v| == |prizes| && 1 <= tier <= |v| && 1 <= other <= |v|
    requires v[tier - 1] == count && v[other - 1] == 0
    ensures RecordsUnder(HitList(v, prizes, |prizes|), tier, other, count, prizes[tier - 1])
  {
    var list := HitList(v, prizes, |prizes|);
    forall i | 0 <= i < |list|
      ensures list[i].tier != other
      ensures list[i].tier == tier ==> count > 0 && list[i].hits == count && list[i].amountPerHit == prizes[tier - 1]
    {
      ListedHit(v, prizes, tier, list[i]);
      ListedHit(v, prizes, other, list[i]);
    }
    if count > 0 { var i := HitListComplete(v, prizes, |prizes|, tier); }
  }

  /** The list shows the tier with this count and prize, or not at all if the count is 0, and never the other tier. */
  ghost predicate RecordsUnder(list: seq<TierHit>, tier: nat, other: nat, count: nat, prize: real) {
    && (forall i :: 0 <= i < |list| ==> list[i].tier != other)
    && (forall i :: 0 <= i < |list| && list[i].tier == tier ==>
          count > 0 && list[i].hits == count && list[i].amountPerHit == prize)
    && (count > 0 ==> exists i :: 0 <= i < |list| && list[i].tier == tier)
  }

  /** What a draw records for j matches: under the tier with the strong number exactly when the strong numbers agree,
      and nothing under the other; with its count, or not at all when there are none. */
  lemma DrawRecordExactly(d: Draw, form: seq<int>, userStrong: int, prizes: seq<real>, j: nat)
    requires Distinct(form) && 3 <= j <= 6 && |prizes| == TIERS
    ensures var list := HitList(DrawHits(d, Combos(form, NUMBERS_PLAYED), userStrong), prizes, |prizes|);
            var (tier, other) := (TierFor(j, StrongAgrees(userStrong, d)), TierFor(j, !StrongAgrees(userStrong, d)));
            1 <= tier <= TIERS && 1 <= other && RecordsUnder(list, tier, other, Count(form, d, j), prizes[tier - 1])
  {
    var v, count := DrawTier(d, form, userStrong, j);
    TierForIs(j, true);
    TierForIs(j, false);
    ListedUnder(v, prizes, TierFor(j, StrongAgrees(userStrong, d)), TierFor(j, !StrongAgrees(userStrong, d)), count);
  }

  // ---------- tier by tier over all draws ----------

  /** Combinations with j matches over the draws whose strong number agrees, or does not. */
  function TierCount(draws: seq<Draw>, form: seq<int>, userStrong: int, j: nat, agrees: bool): nat
    requires j <= NUMBERS_PLAYED
  {
    if draws == [] then 0
    else
      var last := draws[|draws| - 1];
      TierCount(draws[..|draws| - 1], form, userStrong, j, agrees)
      + if StrongAgrees(userStrong, last) == agrees then Count(form, last, j) else 0
  }

  /** The total of each tier, from the intersection sizes and strong numbers alone. */
  lemma {:induction false} TierTotalExactly(draws: seq<Draw>, form: seq<int>, req: Request, j: nat, agrees: bool)
    requires Distinct(form) && 3 <= j <= 6
    ensures TotalHits(draws, Combos(form, NUMBERS_PLAYED), req)[TierFor(j, agrees) - 1]
            == TierCount(draws, form, req.strong, j, agrees)
  {
    if draws == [] {
      TierForIs(j, agrees);
    } else {
      TierTotalExactly(draws[..|draws| - 1], form, req, j, agrees);
      var v, count := DrawTier(draws[|draws| - 1], form, req.strong, j);
    }
  }

  /** Over the draws, hits times the prize in force for the draw: the request's override if it is not negative, else the
      draw's own, else the default. */
  function TierMoney(draws: seq<Draw>, cs: seq<seq<int>>, req: Request, i: nat): real
    requires i < TIERS
  {
    if draws == [] then 0.0
    else
      var last := draws[|draws| - 1];
      TierMoney(draws[..|draws| - 1], cs, req, i)
      + DrawHits(last, cs, req.strong)[i] as real * PrizesFor(last, req.prizeAmounts)[i]
  }

  lemma {:induction false} TierMoneyExactly(draws: seq<Draw>, cs: seq<seq<int>>, req: Request, i: nat)
    requires i < TIERS
    ensures TotalAmounts(draws, cs, req)[i] == TierMoney(draws, cs, req, i)
  {
    if draws != [] {
      var last := draws[|draws| - 1];
      TierMoneyExactly(draws[..|draws| - 1], cs, req, i);
      NoHitsNoMoney(DrawHits(last, cs, req.strong)[i], PrizesFor(last, req.prizeAmounts)[i]);
    }
  }

  lemma NoHitsNoMoney(hits: nat, prize: real)
    ensures hits == 0 ==> hits as real * prize == 0.0
  {
  }

  /** Draws that carry a full table of their own prizes. */
  lemma {:induction false} RealPrizesCount(draws: seq<Draw>)
    ensures RealPrizes(draws) == |set i | 0 <= i < |draws| && |draws[i].prizes| == TIERS|
  {
    var full := set i | 0 <= i < |draws| && |draws[i].prizes| == TIERS;
    if draws == [] {
      assert full == {};
    } else {
      var init, last := draws[..|draws| - 1], |draws| - 1;
      var before := set i | 0 <= i < |init| && |init[i].prizes| == TIERS;
      RealPrizesCount(init);
      assert full == if |draws[last].prizes| == TIERS then before + {last} else before;
    }
  }

  // ---------- the draws listed ----------

  lemma {:induction false} AllResultsAt(draws: seq<Draw>, cs: seq<seq<int>>, req: Request)
    ensures |AllResults(draws, cs, req)| == |draws|
    ensures forall i :: 0 <= i < |draws| ==> AllResults(draws, cs, req)[i] == ResultOf(draws[i], cs, req)
  {
    if draws != [] { AllResultsAt(draws[..|draws| - 1], cs, req); }
  }

  ghost predicate Increasing(at: seq<nat>) { forall i, j :: 0 <= i < j < |at| ==> at[i] < at[j] }

  /** The listed records are those at these places, which are all the places with a prize. */
  ghost predicate Lists(rs: seq<DrawResult>, listed: seq<DrawResult>, at: seq<nat>) {
    && |at| == |listed| && Increasing(at)
    && (forall k :: 0 <= k < |at| ==> at[k] < |rs| && listed[k] == rs[at[k]] && rs[at[k]].prizeWon > 0.0)
    && (forall i: nat :: i < |rs| && rs[i].prizeWon > 0.0 ==> i in at)
  }

  lemma ListsOneMore(rs: seq<DrawResult>, listed: seq<DrawResult>, at: seq<nat>, r: DrawResult)
    requires Lists(rs, listed, at)
    ensures r.prizeWon > 0.0 ==> Lists(rs + [r], listed + [r], at + [|rs|])
    ensures r.prizeWon <= 0.0 ==> Lists(rs + [r], listed, at)
  {
    var more := at + [|rs|];
    assert forall i: nat :: i in at ==> i in more;
    assert more[|at|] == |rs|;
  }

  lemma {:induction false} WinningExactly(rs: seq<DrawResult>) returns (at: seq<nat>)
    ensures Lists(rs, Winning(rs), at)
  {
    if rs == [] {
      at := [];
    } else {
      var init, last := rs[..|rs| - 1], rs[|rs| - 1];
      at := WinningExactly(init);
      ListsOneMore(init, Winning(init), at, last);
      assert rs == init + [last];
      if last.prizeWon > 0.0 { at := at + [|init|]; }
    }
  }

  /** The record names the draw, and says whether it carries eight prizes of its own. */
  predicate ShowsDraw(r: DrawResult, d: Draw) {
    && r.drawNumber == d.number && r.drawDate == d.date
    && r.winningNumbers == d.numbers && r.winningStrong == d.strong && (r.usedRealPrizes <==> |d.prizes| == 8)
  }

  /** Which draws a backtest lists: exactly those that pay more than nothing, in order, each with its own record. */
  lemma ListedExactly(draws: seq<Draw>, cs: seq<seq<int>>, req: Request) returns (at: seq<nat>)
    ensures var listed := Winning(AllResults(draws, cs, req));
            && |at| == |listed| && Increasing(at)
            && (forall k :: 0 <= k < |at| ==>
                  at[k] < |draws| && listed[k] == ResultOf(draws[at[k]], cs, req) && ShowsDraw(listed[k], draws[at[k]]))
            && (forall i: nat :: i < |draws| ==> (i in at <==> DrawPrize(draws[i], cs, req) > 0.0))
  {
    var rs := AllResults(draws, cs, req);
    at := WinningExactly(rs);
    AllResultsAt(draws, cs, req);
    forall i: nat | i < |draws| ensures i in at <==> DrawPrize(draws[i], cs, req) > 0.0 {
      assert rs[i].prizeWon == DrawPrize(draws[i], cs, req);
      if i in at { var k :| 0 <= k < |at| && at[k] == i; }
    }
  }

  // ---------- the form that is played ----------

  /** Cleaning keeps the positive numbers, each as often. */
  lemma {:induction false} PositivesExactly(form: seq<int>, x: int)
    ensures multiset(Positives(form))[x] == if x > 0 then multiset(form)[x] else 0
  {
    if form != [] {
      var init, last := form[..|form| - 1], form[|form| - 1];
      PositivesExactly(init, x);
      assert form == init + [last];
    }
  }

  /** Of the distinct positive numbers the smallest twelve are played. */
  lemma PlayedFormExactly(form: seq<int>)
    ensures var played, positive := PlayedForm(form), Elements(Positives(form));
            && Ascending(played) && Elements(played) <= positive
            && |played| == (if |positive| > MAX_FORM_SIZE then MAX_FORM_SIZE else |positive|)
            && forall x, y :: x in Elements(played) && y in positive - Elements(played) ==> x < y
  {
    var nums := Firsts(Positives(form));
    FirstsDistinct(Positives(form));
    A.SortIntsSorts(nums);
    PlayedFormAscends(form);
    CombinationsPlayed(form);
    SameMembers(nums, Positives(form));
    FrontIsSmallest(A.SortInts(nums), |PlayedForm(form)|);
  }

  lemma InFront(s: seq<int>, n: nat, j: nat)
    requires n <= |s| && j < |s|
    ensures j < n ==> s[j] in Elements(s[..n])
  {
    if j < n { assert s[..n][j] == s[j]; }
  }

  lemma FrontIsSmallest(sorted: seq<int>, n: nat)
    requires Ascending(sorted) && n <= |sorted|
    ensures sorted[..|sorted|] == sorted && Elements(sorted[..n]) <= Elements(sorted)
    ensures forall x, y :: x in Elements(sorted[..n]) && y in Elements(sorted) - Elements(sorted[..n]) ==> x < y
  {
    AscendingByIndex(sorted);
    forall x, y | x in Elements(sorted[..n]) && y in Elements(sorted) - Elements(sorted[..n]) ensures x < y {
      var i :| 0 <= i < n && sorted[..n][i] == x;
      var j :| 0 <= j < |sorted| && sorted[j] == y;
      InFront(sorted, n, j);
      assert sorted[i] < sorted[j];
    }
  }

  lemma SameMembers(a: seq<int>, b: seq<int>)
    requires forall x :: x in a <==> x in b
    ensures Elements(a) == Elements(b)
  {
    forall x ensures x in Elements(a) <==> x in Elements(b) {
      assert x in a <==> x in b;
    }
  }

  // ---------- the draws in play ----------

  /** Without a simulate window the draws in play are the table's rows of the archive window, which starts on 2004-02-12
      if it is open below; with neither window, all rows since then. */
  lemma ArchiveWindowInPlay(table: seq<Draw>, req: Request, d: Draw)
    requires req.simulateWindow == None
    ensures var w := req.archiveWindow;
            DrawsInPlay(table, req) == Select(table, match w case Some(x) => NormalizeWindow(x)
                                                             case None => Window(On(731623), Open))
    ensures d in DrawsInPlay(table, req) <==>
            && d in table
            && (match req.archiveWindow
                case Some(w) => (if w.from.On? then w.from.day else 731623) <= d.date
                                && (w.to.On? ==> d.date <= w.to.day)
                case None => 731623 <= d.date)
  {
  }
}
