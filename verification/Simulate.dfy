/** The backtest: every combination of a form played against every draw of a window. */
module Backtests {
  import opened Combinatorics
  import opened CombinationLoop
  import opened Options
  import opened DateWindow
  import A = LotteryArchives

  const TIERS := 8
  const NUMBERS_PLAYED := 6
  const MAX_FORM_SIZE := 12
  const DEFAULT_TICKET_COST := 3.0
  const DEFAULT_PRIZES: seq<real> := [5_000_000.0, 750_000.0, 10_000.0, 2_000.0, 500.0, 150.0, 75.0, 15.0]

  /** Money won by one tier of one draw. */
  datatype TierHit = TierHit(tier: int, hits: nat, amountPerHit: real, total: real)

  datatype DrawResult = DrawResult(
    drawNumber: int, drawDate: int, winningNumbers: seq<int>, winningStrong: int,
    tierHits: seq<TierHit>, prizeWon: real, ticketCost: real, usedRealPrizes: bool)

  /** Prize amounts are overrides, per tier, when there are eight of them; a negative one overrides nothing. */
  datatype Request = Request(
    archiveWindow: Option<Window>, simulateWindow: Option<Window>,
    form: seq<int>, strong: int, ticketCost: real, prizeAmounts: seq<real>)

  datatype Summary = Summary(
    totalDraws: nat, totalCombinations: nat, totalSpent: real, totalWon: real, net: real,
    tierHits: seq<nat>, tierAmounts: seq<real>, drawsWithRealPrizes: nat)

  datatype Response = LoadFailed | InvalidForm | Backtest(draws: seq<DrawResult>, summary: Summary)

  // ---------- tiers ----------

  /** 6, 5, 4 or 3 matches, with the strong number or without; 0 for no prize. */
  function MatchToTier(matches: int, strongMatched: bool): (tier: int)
    ensures 3 <= matches <= 6 ==> tier == 2 * (6 - matches) + (if strongMatched then 1 else 2)
    ensures tier != 0 <==> 3 <= matches <= 6
  {
    match matches
    case 6 => if strongMatched then 1 else 2
    case 5 => if strongMatched then 3 else 4
    case 4 => if strongMatched then 5 else 6
    case 3 => if strongMatched then 7 else 8
    case _ => 0
  }

  /** The positions of combo that hold a number of S. */
  function Matches(combo: seq<int>, S: set<int>): nat {
    if combo == [] then 0 else (if combo[0] in S then 1 else 0) + Matches(combo[1..], S)
  }

  /** How many combinations have exactly j matches. */
  function MatchCount(cs: seq<seq<int>>, S: set<int>, j: int): nat {
    if cs == [] then 0 else (if Matches(cs[0], S) == j then 1 else 0) + MatchCount(cs[1..], S, j)
  }

  /** How many combinations fall into a tier. */
  function TierHits(cs: seq<seq<int>>, S: set<int>, strongMatched: bool, tier: int): nat {
    if cs == [] then 0
    else (if MatchToTier(Matches(cs[0], S), strongMatched) == tier then 1 else 0)
         + TierHits(cs[1..], S, strongMatched, tier)
  }

  /** How many combinations win anything: three matches or more. */
  function Wins(cs: seq<seq<int>>, S: set<int>): nat {
    if cs == [] then 0 else (if Matches(cs[0], S) >= 3 then 1 else 0) + Wins(cs[1..], S)
  }

  // ---------- enumeration against the closed form ----------

  lemma {:induction false} MatchCountConcat(a: seq<seq<int>>, b: seq<seq<int>>, S: set<int>, j: int)
    ensures MatchCount(a + b, S, j) == MatchCount(a, S, j) + MatchCount(b, S, j)
  {
    if a == [] {
      assert a + b == b;
    } else {
      assert (a + b)[1..] == a[1..] + b && (a + b)[0] == a[0];
      MatchCountConcat(a[1..], b, S, j);
    }
  }

  lemma MatchesCons(x: int, c: seq<int>, S: set<int>)
    ensures Matches([x] + c, S) == (if x in S then 1 else 0) + Matches(c, S)
  {
    assert ([x] + c)[1..] == c;
  }

  lemma {:induction false} MatchCountPrepend(x: int, cs: seq<seq<int>>, S: set<int>, j: int)
    ensures MatchCount(Prepend(x, cs), S, j) == MatchCount(cs, S, if x in S then j - 1 else j)
  {
    if cs != [] {
      MatchesCons(x, cs[0], S);
      MatchCountPrepend(x, cs[1..], S, j);
      assert ([[x] + cs[0]] + Prepend(x, cs[1..]))[1..] == Prepend(x, cs[1..]);
    }
  }

  lemma {:induction false} MatchesBounded(c: seq<int>, S: set<int>)
    ensures Matches(c, S) <= |c|
  {
    if c != [] { MatchesBounded(c[1..], S); }
  }

  /** The hypergeometric count: j of the m numbers drawn and k - j of the others. */
  function Hypergeometric(m: nat, others: nat, k: nat, j: int): nat {
    if 0 <= j <= k then Binom(m, j) * Binom(others, k - j) else 0
  }

  lemma HypergeometricDrawn(m: nat, others: nat, k: nat, j: int)
    requires k > 0
    ensures Hypergeometric(m + 1, others, k, j) ==
            Hypergeometric(m, others, k - 1, j - 1) + Hypergeometric(m, others, k, j)
  {
    if 0 < j <= k {
      var rest := Binom(others, k - j);
      assert Binom(m + 1, j) * rest == Binom(m, j - 1) * rest + Binom(m, j) * rest;
    }
  }

  lemma HypergeometricOther(m: nat, others: nat, k: nat, j: int)
    requires k > 0
    ensures Hypergeometric(m, others + 1, k, j) == Hypergeometric(m, others, k - 1, j) + Hypergeometric(m, others, k, j)
  {
    if 0 <= j < k {
      var chosen := Binom(m, j);
      assert chosen * Binom(others + 1, k - j) == chosen * Binom(others, k - 1 - j) + chosen * Binom(others, k - j);
    }
  }

  /** The combinations that hold the first entry, and those that do not. */
  lemma MatchCountByHead(form: seq<int>, k: nat, S: set<int>, j: int)
    requires form != [] && k > 0
    ensures MatchCount(Combos(form, k), S, j) ==
            MatchCount(Combos(form[1..], k - 1), S, if form[0] in S then j - 1 else j)
            + MatchCount(Combos(form[1..], k), S, j)
  {
    var with, without := Combos(form[1..], k - 1), Combos(form[1..], k);
    CombosByHead(form, k, with, without);
    MatchCountConcat(Prepend(form[0], with), without, S, j);
    MatchCountPrepend(form[0], with, S, j);
  }

  /** The combinations of k entries with exactly j matches, counted one entry at a time. */
  function Chosen(form: seq<int>, k: nat, S: set<int>, j: int): nat {
    if k == 0 then if j == 0 then 1 else 0
    else if form == [] then 0
    else Chosen(form[1..], k - 1, S, if form[0] in S then j - 1 else j) + Chosen(form[1..], k, S, j)
  }

  lemma EmptyChoice(S: set<int>, j: int)
    ensures MatchCount([[]], S, j) == if j == 0 then 1 else 0
  {
    var one: seq<seq<int>> := [[]];
    assert one[1..] == [];
  }

  lemma {:induction false} EnumeratedIsChosen(form: seq<int>, k: nat, S: set<int>, j: int)
    ensures MatchCount(Combos(form, k), S, j) == Chosen(form, k, S, j)
  {
    if k == 0 {
      EmptyChoice(S, j);
    } else if form != [] {
      MatchCountByHead(form, k, S, j);
      EnumeratedIsChosen(form[1..], k - 1, S, if form[0] in S then j - 1 else j);
      EnumeratedIsChosen(form[1..], k, S, j);
    }
  }

  lemma {:induction false} ChosenIsHypergeometric(form: seq<int>, k: nat, S: set<int>, j: int)
    ensures Matches(form, S) <= |form|
    ensures Chosen(form, k, S, j) == Hypergeometric(Matches(form, S), |form| - Matches(form, S), k, j)
  {
    MatchesBounded(form, S);
    if form != [] && k > 0 {
      var tail := form[1..];
      MatchesBounded(tail, S);
      var m := Matches(tail, S);
      ChosenIsHypergeometric(tail, k, S, j);
      if form[0] in S {
        ChosenIsHypergeometric(tail, k - 1, S, j - 1);
        HypergeometricDrawn(m, |tail| - m, k, j);
      } else {
        ChosenIsHypergeometric(tail, k - 1, S, j);
        HypergeometricOther(m, |tail| - m, k, j);
      }
    }
  }

  /** Enumeration equals the closed form: among the k-number combinations of a form, those with exactly j of the
      numbers drawn are C(m, j) * C(N - m, k - j), m being how many of the form's N entries were drawn. */
  lemma MatchesAreHypergeometric(form: seq<int>, k: nat, S: set<int>, j: int)
    ensures Matches(form, S) <= |form|
    ensures MatchCount(Combos(form, k), S, j) == Hypergeometric(Matches(form, S), |form| - Matches(form, S), k, j)
  {
    EnumeratedIsChosen(form, k, S, j);
    ChosenIsHypergeometric(form, k, S, j);
  }

  /** For a form without repeats, m is the size of its intersection with the draw. */
  lemma {:induction false} MatchesAreShared(form: seq<int>, S: set<int>)
    requires Distinct(form)
    ensures Matches(form, S) == |Elements(form) * S|
  {
    if form != [] {
      Uncons(form);
      MatchesAreShared(form[1..], S);
      var rest := Elements(form[1..]) * S;
      assert form[0] !in rest;
      assert Elements(form) * S == if form[0] in S then rest + {form[0]} else rest;
    } else {
      assert Elements(form) * S == {};
    }
  }

  /** A tier collects exactly the combinations with its number of matches, and only under its strong flag. */
  lemma {:induction false} TierOfMatches(cs: seq<seq<int>>, S: set<int>, strongMatched: bool, j: int)
    requires 3 <= j <= 6
    ensures TierHits(cs, S, strongMatched, MatchToTier(j, strongMatched)) == MatchCount(cs, S, j)
    ensures TierHits(cs, S, strongMatched, MatchToTier(j, !strongMatched)) == 0
  {
    if cs != [] { TierOfMatches(cs[1..], S, strongMatched, j); }
  }

  /** What one draw records for a form in the tier of j matches. */
  lemma TierClosedForm(form: seq<int>, S: set<int>, strongMatched: bool, j: int)
    requires Distinct(form) && 3 <= j <= 6
    ensures |Elements(form) * S| <= |form|
    ensures var m := |Elements(form) * S|;
            TierHits(Combos(form, 6), S, strongMatched, MatchToTier(j, strongMatched)) ==
            Binom(m, j) * Binom(|form| - m, 6 - j)
    ensures TierHits(Combos(form, 6), S, strongMatched, MatchToTier(j, !strongMatched)) == 0
  {
    MatchesAreHypergeometric(form, 6, S, j);
    MatchesAreShared(form, S);
    TierOfMatches(Combos(form, 6), S, strongMatched, j);
  }

  // ---------- sums over tiers ----------

  function SumInts(v: seq<nat>, n: nat): nat
    requires n <= |v|
  {
    if n == 0 then 0 else SumInts(v, n - 1) + v[n - 1]
  }

  function SumReals(v: seq<real>, n: nat): real
    requires n <= |v|
  {
    if n == 0 then 0.0 else SumReals(v, n - 1) + v[n - 1]
  }

  function PlusInts(a: seq<nat>, b: seq<nat>): (r: seq<nat>)
    requires |a| == |b|
    ensures |r| == |a| && forall i :: 0 <= i < |r| ==> r[i] == a[i] + b[i]
  {
    seq(|a|, i requires 0 <= i < |a| => a[i] + b[i])
  }

  function PlusReals(a: seq<real>, b: seq<real>): (r: seq<real>)
    requires |a| == |b|
    ensures |r| == |a| && forall i :: 0 <= i < |r| ==> r[i] == a[i] + b[i]
  {
    seq(|a|, i requires 0 <= i < |a| => a[i] + b[i])
  }

  lemma {:induction false} SumPlusInts(a: seq<nat>, b: seq<nat>, n: nat)
    requires n <= |a| == |b|
    ensures SumInts(PlusInts(a, b), n) == SumInts(a, n) + SumInts(b, n)
  {
    if n > 0 { SumPlusInts(a, b, n - 1); }
  }

  lemma {:induction false} SumPlusReals(a: seq<real>, b: seq<real>, n: nat)
    requires n <= |a| == |b|
    ensures SumReals(PlusReals(a, b), n) == SumReals(a, n) + SumReals(b, n)
  {
    if n > 0 { SumPlusReals(a, b, n - 1); }
  }

  /** Hits per tier. */
  function HitVector(cs: seq<seq<int>>, S: set<int>, strongMatched: bool): (v: seq<nat>)
    ensures |v| == TIERS
    ensures forall i :: 0 <= i < TIERS ==> v[i] == TierHits(cs, S, strongMatched, i + 1)
  {
    seq(TIERS, i => TierHits(cs, S, strongMatched, i + 1))
  }

  /** Money per tier. */
  function AmountVector(v: seq<nat>, prizes: seq<real>): (r: seq<real>)
    requires |v| == |prizes|
    ensures |r| == |v|
    ensures forall i :: 0 <= i < |v| ==> r[i] == if v[i] > 0 then v[i] as real * prizes[i] else 0.0
  {
    seq(|v|, i requires 0 <= i < |v| => if v[i] > 0 then v[i] as real * prizes[i] else 0.0)
  }

  function UnitVector(tier: int): (v: seq<nat>)
    ensures |v| == TIERS
    ensures forall i :: 0 <= i < TIERS ==> v[i] == if i + 1 == tier then 1 else 0
  {
    seq(TIERS, i => if i + 1 == tier then 1 else 0)
  }

  lemma {:induction false} UnitSum(tier: int, n: nat)
    requires n <= TIERS
    ensures SumInts(UnitVector(tier), n) == if 1 <= tier <= n then 1 else 0
  {
    if n > 0 { UnitSum(tier, n - 1); }
  }

  lemma {:induction false} ZeroSum(v: seq<nat>, n: nat)
    requires n <= |v| && forall i :: 0 <= i < |v| ==> v[i] == 0
    ensures SumInts(v, n) == 0
  {
    if n > 0 { ZeroSum(v, n - 1); }
  }

  /** All tiers together hold exactly the combinations with three matches or more. */
  lemma {:induction false} TiersCoverWins(cs: seq<seq<int>>, S: set<int>, strongMatched: bool)
    requires forall i :: 0 <= i < |cs| ==> |cs[i]| == NUMBERS_PLAYED
    ensures SumInts(HitVector(cs, S, strongMatched), TIERS) == Wins(cs, S)
  {
    var v := HitVector(cs, S, strongMatched);
    if cs == [] {
      ZeroSum(v, TIERS);
    } else {
      var matches := Matches(cs[0], S);
      var tier := MatchToTier(matches, strongMatched);
      MatchesBounded(cs[0], S);
      assert |cs[0]| == NUMBERS_PLAYED;
      assert 1 <= tier <= TIERS <==> matches >= 3;
      TiersCoverWins(cs[1..], S, strongMatched);
      assert v == PlusInts(UnitVector(tier), HitVector(cs[1..], S, strongMatched));
      SumPlusInts(UnitVector(tier), HitVector(cs[1..], S, strongMatched), TIERS);
      UnitSum(tier, TIERS);
    }
  }

  lemma {:induction false} WinsByMatches(cs: seq<seq<int>>, S: set<int>)
    requires forall i :: 0 <= i < |cs| ==> |cs[i]| == NUMBERS_PLAYED
    ensures Wins(cs, S) == MatchCount(cs, S, 3) + MatchCount(cs, S, 4) + MatchCount(cs, S, 5) + MatchCount(cs, S, 6)
  {
    if cs != [] {
      MatchesBounded(cs[0], S);
      assert |cs[0]| == NUMBERS_PLAYED;
      WinsByMatches(cs[1..], S);
    }
  }

  lemma CombosSized(form: seq<int>)
    ensures forall i :: 0 <= i < |Combos(form, NUMBERS_PLAYED)| ==> |Combos(form, NUMBERS_PLAYED)[i]| == NUMBERS_PLAYED
  {
    forall i | 0 <= i < |Combos(form, NUMBERS_PLAYED)| ensures |Combos(form, NUMBERS_PLAYED)[i]| == NUMBERS_PLAYED {
      CombosMember(form, NUMBERS_PLAYED, Combos(form, NUMBERS_PLAYED)[i]);
    }
  }

  // ---------- one draw ----------

  predicate StrongMatched(userStrong: int, d: Draw) { userStrong > 0 && userStrong == d.strong }

  /** The hits a draw records, tier by tier. */
  function DrawHits(d: Draw, cs: seq<seq<int>>, userStrong: int): seq<nat> {
    HitVector(cs, Elements(d.numbers), StrongMatched(userStrong, d))
  }

  /** The tiers among the first n that were hit. */
  function HitList(v: seq<nat>, prizes: seq<real>, n: nat): seq<TierHit>
    requires n <= |v| == |prizes|
  {
    if n == 0 then []
    else if v[n - 1] == 0 then HitList(v, prizes, n - 1)
    else HitList(v, prizes, n - 1) + [TierHit(n, v[n - 1], prizes[n - 1], v[n - 1] as real * prizes[n - 1])]
  }

  lemma HitListStep(v: seq<nat>, prizes: seq<real>, i: nat)
    requires i < |v| == |prizes|
    ensures HitList(v, prizes, i + 1) ==
            if v[i] == 0 then HitList(v, prizes, i)
            else HitList(v, prizes, i) + [TierHit(i + 1, v[i], prizes[i], v[i] as real * prizes[i])]
  {
  }

  lemma TierHitsAppend(cs: seq<seq<int>>, c: seq<int>, S: set<int>, strongMatched: bool, tier: int)
    ensures TierHits(cs + [c], S, strongMatched, tier) ==
            TierHits(cs, S, strongMatched, tier) + if MatchToTier(Matches(c, S), strongMatched) == tier then 1 else 0
    decreases |cs|
  {
    if cs == [] {
      assert cs + [c] == [c] && [c][1..] == [];
    } else {
      assert (cs + [c])[1..] == cs[1..] + [c] && (cs + [c])[0] == cs[0];
      TierHitsAppend(cs[1..], c, S, strongMatched, tier);
    }
  }

  lemma {:induction false} MatchesAppend(c: seq<int>, x: int, S: set<int>)
    ensures Matches(c + [x], S) == Matches(c, S) + if x in S then 1 else 0
  {
    if c == [] {
      assert c + [x] == [x] && [x][1..] == [];
    } else {
      assert (c + [x])[1..] == c[1..] + [x] && (c + [x])[0] == c[0];
      MatchesAppend(c[1..], x, S);
    }
  }

  method CountMatches(combo: seq<int>, winning: set<int>) returns (matches: nat)
    ensures matches == Matches(combo, winning)
  {
    matches := 0;
    for i := 0 to |combo|
      invariant matches == Matches(combo[..i], winning)
    {
      assert combo[..i + 1] == combo[..i] + [combo[i]];
      MatchesAppend(combo[..i], combo[i], winning);
      if combo[i] in winning {
        matches := matches + 1;
      }
    }
    assert combo[..|combo|] == combo;
  }

  method CountTiers(combinations: seq<seq<int>>, winning: set<int>, strongMatched: bool, counts: array<nat>)
    requires counts.Length == TIERS && forall i :: 0 <= i < TIERS ==> counts[i] == 0
    modifies counts
    ensures counts[..] == HitVector(combinations, winning, strongMatched)
  {
    for i := 0 to |combinations|
      invariant forall k :: 0 <= k < TIERS ==> counts[k] == TierHits(combinations[..i], winning, strongMatched, k + 1)
    {
      var combo := combinations[i];
      assert combinations[..i + 1] == combinations[..i] + [combo];
      forall t | 1 <= t <= TIERS
        ensures TierHits(combinations[..i + 1], winning, strongMatched, t) ==
                TierHits(combinations[..i], winning, strongMatched, t)
                + if MatchToTier(Matches(combo, winning), strongMatched) == t then 1 else 0
      {
        TierHitsAppend(combinations[..i], combo, winning, strongMatched, t);
      }
      var matches := CountMatches(combo, winning);
      var tier := MatchToTier(matches, strongMatched);
      if tier > 0 {
        counts[tier - 1] := counts[tier - 1] + 1;
      }
    }
    assert combinations[..|combinations|] == combinations;
  }

  /** The tiers that were hit, and what they pay together. */
  method ListHits(counts: array<nat>, prizes: seq<real>) returns (tierHits: seq<TierHit>, prizeWon: real)
    requires counts.Length == |prizes| == TIERS
    ensures tierHits == HitList(counts[..], prizes, TIERS)
    ensures prizeWon == SumReals(AmountVector(counts[..], prizes), TIERS)
  {
    ghost var v := counts[..];
    tierHits, prizeWon := [], 0.0;
    for i := 0 to TIERS
      invariant tierHits == HitList(v, prizes, i)
      invariant prizeWon == SumReals(AmountVector(v, prizes), i)
    {
      assert counts[i] == v[i];
      HitListStep(v, prizes, i);
      if counts[i] > 0 {
        var total := counts[i] as real * prizes[i];
        assert total == v[i] as real * prizes[i];
        tierHits := tierHits + [TierHit(i + 1, counts[i], prizes[i], total)];
        prizeWon := prizeWon + total;
      }
    }
  }

  method SimulateDraw(d: Draw, combinations: seq<seq<int>>, userStrong: int, prizes: seq<real>, costPerDraw: real)
    returns (r: DrawResult)
    requires |prizes| == TIERS
    ensures r.drawNumber == d.number && r.drawDate == d.date
    ensures r.winningNumbers == d.numbers && r.winningStrong == d.strong
    ensures r.tierHits == HitList(DrawHits(d, combinations, userStrong), prizes, TIERS)
    ensures forall i :: 0 <= i < |r.tierHits| ==>
              (r.tierHits[i].tier % 2 == 1 <==> 0 < userStrong && userStrong == d.strong)
    ensures r.prizeWon == SumReals(AmountVector(DrawHits(d, combinations, userStrong), prizes), TIERS)
    ensures r.ticketCost == costPerDraw && !r.usedRealPrizes
  {
    var winningSet := Elements(d.numbers);
    var strongMatched := userStrong > 0 && userStrong == d.strong;
    var counts := new nat[TIERS](i => 0);
    CountTiers(combinations, winningSet, strongMatched, counts);
    var tierHits, prizeWon := ListHits(counts, prizes);
    HitTiersByStrong(d, combinations, userStrong, prizes);
    r := DrawResult(d.number, d.date, d.numbers, d.strong, tierHits, prizeWon, costPerDraw, false);
  }

  /** The tiers a draw can hit: the odd ones when the strong numbers agree, the even ones when they do not. */
  lemma {:induction false} TierParity(cs: seq<seq<int>>, S: set<int>, strongMatched: bool, tier: int)
    requires tier > 0 && TierHits(cs, S, strongMatched, tier) > 0
    ensures tier % 2 == 1 <==> strongMatched
  {
    if MatchToTier(Matches(cs[0], S), strongMatched) != tier { TierParity(cs[1..], S, strongMatched, tier); }
  }

  lemma HitTiersByStrong(d: Draw, cs: seq<seq<int>>, userStrong: int, prizes: seq<real>)
    requires |prizes| == TIERS
    ensures var list := HitList(DrawHits(d, cs, userStrong), prizes, TIERS);
            forall i :: 0 <= i < |list| ==> (list[i].tier % 2 == 1 <==> 0 < userStrong && userStrong == d.strong)
  {
    var v := DrawHits(d, cs, userStrong);
    var list := HitList(v, prizes, TIERS);
    HitListSorted(v, prizes, TIERS);
    forall i | 0 <= i < |list| ensures list[i].tier % 2 == 1 <==> 0 < userStrong && userStrong == d.strong {
      assert 1 <= list[i].tier <= TIERS && v[list[i].tier - 1] > 0;
      TierParity(cs, Elements(d.numbers), StrongMatched(userStrong, d), list[i].tier);
    }
  }

  // ---------- the backtest's own copy of the combination loop ----------

  /** Row `pos` of the enumeration, read through the indices. */
  method ReadIndices(numbers: seq<int>, indices: array<int>, ghost pos: nat) returns (combo: seq<int>)
    requires AtRow(|numbers|, indices.Length, pos, indices[..])
    ensures pos < |Combos(numbers, indices.Length)| && combo == Combos(numbers, indices.Length)[pos]
  {
    RowRead(numbers, indices.Length, pos, indices[..]);
    combo := [];
    for i := 0 to indices.Length
      invariant combo == Pick(numbers, indices[..i])
    {
      combo := combo + [numbers[indices[i]]];
    }
    assert indices[..indices.Length] == indices[..];
  }

  /** Bump index i and restart those to its right. */
  method Restart(indices: array<int>, i: nat)
    requires i < indices.Length
    modifies indices
    ensures indices[..] == Bumped(old(indices[..]), i)
  {
    ghost var c := indices[..];
    BumpedByIndex(c, i);
    indices[i] := indices[i] + 1;
    for j := i + 1 to indices.Length
      invariant forall m :: 0 <= m < i ==> indices[m] == c[m]
      invariant forall m :: i <= m < j ==> indices[m] == c[i] + 1 + m - i
    {
      indices[j] := indices[j - 1] + 1;
    }
  }

  /** Find the rightmost index that can move and move it; false when none can. */
  method StepIndices(indices: array<int>, n: nat) returns (more: bool)
    requires Positions(indices[..], 0, n)
    modifies indices
    ensures if more
            then Positions(indices[..], 0, n) && old(After(indices[..], n)) == [indices[..]] + After(indices[..], n)
            else old(After(indices[..], n)) == []
  {
    var k := indices.Length;
    ghost var c := indices[..];
    var i := k - 1;
    while i >= 0 && indices[i] == n - k + i
      invariant -1 <= i < k
      invariant CeilingFrom(c, n, i + 1)
    {
      i := i - 1;
    }
    if i < 0 {
      NothingAfterCeiling(c, n);
      return false;
    }
    BumpedIsNext(c, n, i);
    Restart(indices, i);
    return true;
  }

  /** One round of the loop: read the row, move on. */
  method ReadAndStep(numbers: seq<int>, indices: array<int>, ghost pos: nat) returns (combo: seq<int>, more: bool)
    requires AtRow(|numbers|, indices.Length, pos, indices[..])
    modifies indices
    ensures pos < |Combos(numbers, indices.Length)| && combo == Combos(numbers, indices.Length)[pos]
    ensures if more
            then AtRow(|numbers|, indices.Length, pos + 1, indices[..]) && pos + 1 < |Combos(numbers, indices.Length)|
            else pos + 1 == |Combos(numbers, indices.Length)|
  {
    ghost var n, k, c := |numbers|, indices.Length, indices[..];
    combo := ReadIndices(numbers, indices, pos);
    more := StepIndices(indices, |numbers|);
    if more {
      RowAfter(n, k, pos, c, indices[..]);
      RowRead(numbers, k, pos + 1, indices[..]);
    } else {
      LastRow(numbers, k, pos, c);
    }
  }

  method AllRows(numbers: seq<int>, indices: array<int>) returns (result: seq<seq<int>>)
    requires indices.Length <= |numbers| && indices[..] == Range(0, indices.Length)
    modifies indices
    ensures result == Combos(numbers, indices.Length)
  {
    var k := indices.Length;
    ghost var goal := Combos(numbers, k);
    FirstRow(|numbers|, k);
    RowRead(numbers, k, 0, indices[..]);
    result := [];
    var more := true;
    while more
      invariant |result| <= |goal| && result == goal[..|result|]
      invariant if more then |result| < |goal| && AtRow(|numbers|, k, |result|, indices[..]) else |result| == |goal|
      decreases |goal| - |result|, more
    {
      var combo;
      combo, more := ReadAndStep(numbers, indices, |result|);
      result := result + [combo];
    }
  }

  /** The same list as the archive's loop, for all inputs. */
  method GenerateCombinations(numbers: seq<int>, k: int) returns (result: seq<seq<int>>)
    ensures result == if k > 0 then Combos(numbers, k) else []
  {
    if k > |numbers| || k <= 0 {
      if k > 0 { NoCombos(numbers, k); }
      return [];
    }
    if k == |numbers| {
      CombosAll(numbers);
      return [numbers];
    }
    var indices := new int[k];
    for i := 0 to k
      invariant forall j :: 0 <= j < i ==> indices[j] == j
    {
      indices[i] := i;
    }
    assert indices[..] == Range(0, k);
    result := AllRows(numbers, indices);
  }

  // ---------- the form that is played ----------

  function Positives(form: seq<int>): seq<int> {
    if form == [] then []
    else if form[|form| - 1] > 0 then Positives(form[..|form| - 1]) + [form[|form| - 1]]
    else Positives(form[..|form| - 1])
  }

  /** Each number at its first occurrence. */
  function Firsts(nums: seq<int>): (r: seq<int>)
    ensures forall x :: x in r <==> x in nums
  {
    if nums == [] then []
    else
      var init, last := nums[..|nums| - 1], nums[|nums| - 1];
      assert nums == init + [last];
      if last in Firsts(init) then Firsts(init) else Firsts(init) + [last]
  }

  lemma DistinctAppend(s: seq<int>, x: int)
    requires Distinct(s) && x !in s
    ensures Distinct(s + [x])
  {
    DistinctByIndex(s);
    DistinctByIndex(s + [x]);
  }

  lemma {:induction false} FirstsDistinct(nums: seq<int>)
    ensures Distinct(Firsts(nums))
  {
    if nums != [] {
      var init, last := nums[..|nums| - 1], nums[|nums| - 1];
      FirstsDistinct(init);
      if last !in Firsts(init) { DistinctAppend(Firsts(init), last); }
    }
  }

  method DedupAndSort(nums: seq<int>) returns (result: seq<int>)
    ensures result == A.SortInts(Firsts(nums))
    ensures Ascending(result) && Elements(result) == Elements(nums)
  {
    result := [];
    var seen: set<int> := {};
    for i := 0 to |nums|
      invariant result == Firsts(nums[..i]) && seen == Elements(result)
    {
      assert nums[..i + 1][..i] == nums[..i];
      if nums[i] !in seen {
        seen := seen + {nums[i]};
        result := result + [nums[i]];
      }
    }
    assert nums[..|nums|] == nums;
    FirstsDistinct(nums);
    A.SortIntsSorts(Firsts(nums));
    result := A.SortInts(result);
  }

  /** The form after cleaning: positive numbers, each once, ascending, at most twelve of them. */
  function PlayedForm(form: seq<int>): seq<int> {
    var sorted := A.SortInts(Firsts(Positives(form)));
    if |sorted| > MAX_FORM_SIZE then sorted[..MAX_FORM_SIZE] else sorted
  }

  lemma AscendingFront(s: seq<int>, n: nat)
    requires Ascending(s) && n <= |s|
    ensures Ascending(s[..n])
  {
    AscendingByIndex(s);
    AscendingByIndex(s[..n]);
  }

  lemma PlayedFormAscends(form: seq<int>)
    ensures Ascending(PlayedForm(form)) && |PlayedForm(form)| <= MAX_FORM_SIZE
  {
    var nums := Firsts(Positives(form));
    FirstsDistinct(Positives(form));
    A.SortIntsSorts(nums);
    if |A.SortInts(nums)| > MAX_FORM_SIZE { AscendingFront(A.SortInts(nums), MAX_FORM_SIZE); }
  }

  /** How many combinations are played: the length test comes before the duplicates go, so a form of six
      entries or more is accepted and plays no combination exactly when it has fewer than six distinct numbers. */
  lemma CombinationsPlayed(form: seq<int>)
    ensures var distinct := |Elements(Positives(form))|;
            && |PlayedForm(form)| == (if distinct > MAX_FORM_SIZE then MAX_FORM_SIZE else distinct)
            && |Combos(PlayedForm(form), NUMBERS_PLAYED)| == Binom(|PlayedForm(form)|, NUMBERS_PLAYED)
            && (Combos(PlayedForm(form), NUMBERS_PLAYED) == [] <==> distinct < NUMBERS_PLAYED)
  {
    var nums := Positives(form);
    FirstsDistinct(nums);
    A.SortIntsSorts(Firsts(nums));
    DistinctSize(Firsts(nums));
    assert Elements(Firsts(nums)) == Elements(nums);
    CombosCount(PlayedForm(form), NUMBERS_PLAYED);
    if |PlayedForm(form)| < NUMBERS_PLAYED {
      BinomZero(|PlayedForm(form)|, NUMBERS_PLAYED);
    } else {
      BinomPositive(|PlayedForm(form)|, NUMBERS_PLAYED);
    }
  }

  lemma {:induction false} BinomPositive(n: nat, k: nat)
    requires k <= n
    ensures Binom(n, k) > 0
  {
    if k > 0 { BinomPositive(n - 1, k - 1); }
  }

  lemma TooFewPlayNothing(form: seq<int>)
    requires |Elements(Positives(form))| < NUMBERS_PLAYED
    ensures Combos(PlayedForm(form), NUMBERS_PLAYED) == []
  {
    CombinationsPlayed(form);
  }

  lemma {:induction false} PositivesAll(form: seq<int>)
    requires forall i :: 0 <= i < |form| ==> form[i] > 0
    ensures Positives(form) == form
  {
    if form != [] { PositivesAll(form[..|form| - 1]); }
  }

  /** One number written six times or more passes the length test and plays nothing. */
  lemma RepeatsAccepted(form: seq<int>, x: int)
    requires x > 0 && |form| >= NUMBERS_PLAYED && forall i :: 0 <= i < |form| ==> form[i] == x
    ensures |Positives(form)| >= NUMBERS_PLAYED && Combos(PlayedForm(form), NUMBERS_PLAYED) == []
  {
    PositivesAll(form);
    assert form[0] == x;
    assert Elements(Positives(form)) == {x};
    TooFewPlayNothing(form);
  }

  // ---------- prizes ----------

  /** The effective prizes: override, else the draw's own, else the default, tier by tier. */
  function PrizesFor(d: Draw, overrides: seq<real>): (r: seq<real>)
    ensures |r| == TIERS
    ensures forall i :: 0 <= i < TIERS ==>
              r[i] == if |overrides| == TIERS && overrides[i] >= 0.0 then overrides[i]
                      else if |d.prizes| == TIERS then d.prizes[i] else DEFAULT_PRIZES[i]
  {
    seq(TIERS, i requires 0 <= i < TIERS =>
      if |overrides| == TIERS && overrides[i] >= 0.0 then overrides[i]
      else if |d.prizes| == TIERS then d.prizes[i] else DEFAULT_PRIZES[i])
  }

  /** The draw's own prizes, where it has a full table of them, are not negative. */
  predicate FairPrizes(d: Draw) {
    |d.prizes| == TIERS ==> forall i :: 0 <= i < TIERS ==> d.prizes[i] >= 0.0
  }

  // ---------- a whole window ----------

  /** The amounts one draw pays, tier by tier. */
  function DrawAmounts(d: Draw, cs: seq<seq<int>>, req: Request): (r: seq<real>)
    ensures |r| == TIERS
  {
    AmountVector(DrawHits(d, cs, req.strong), PrizesFor(d, req.prizeAmounts))
  }

  function DrawPrize(d: Draw, cs: seq<seq<int>>, req: Request): real {
    SumReals(DrawAmounts(d, cs, req), TIERS)
  }

  /** The price of a ticket: what the request says, unless it says nothing positive. */
  function TicketPrice(req: Request): (p: real)
    ensures p > 0.0 && (req.ticketCost > 0.0 ==> p == req.ticketCost)
  {
    if req.ticketCost <= 0.0 then DEFAULT_TICKET_COST else req.ticketCost
  }

  function TicketsCost(tickets: nat, price: real): real { tickets as real * price }

  function Cost(cs: seq<seq<int>>, req: Request): real {
    TicketsCost(|cs|, TicketPrice(req))
  }

  /** The record kept for one draw. */
  function ResultOf(d: Draw, cs: seq<seq<int>>, req: Request): DrawResult {
    DrawResult(d.number, d.date, d.numbers, d.strong,
               HitList(DrawHits(d, cs, req.strong), PrizesFor(d, req.prizeAmounts), TIERS),
               DrawPrize(d, cs, req), Cost(cs, req), |d.prizes| == TIERS)
  }

  function AllResults(draws: seq<Draw>, cs: seq<seq<int>>, req: Request): seq<DrawResult> {
    if draws == [] then []
    else AllResults(draws[..|draws| - 1], cs, req) + [ResultOf(draws[|draws| - 1], cs, req)]
  }

  /** The records that paid something, in order. */
  function Winning(rs: seq<DrawResult>): seq<DrawResult> {
    if rs == [] then []
    else if rs[|rs| - 1].prizeWon > 0.0 then Winning(rs[..|rs| - 1]) + [rs[|rs| - 1]]
    else Winning(rs[..|rs| - 1])
  }

  function ZeroInts(): seq<nat> { seq(TIERS, i => 0) }
  function ZeroReals(): seq<real> { seq(TIERS, i => 0.0) }

  function TotalHits(draws: seq<Draw>, cs: seq<seq<int>>, req: Request): (r: seq<nat>)
    ensures |r| == TIERS
  {
    if draws == [] then ZeroInts()
    else PlusInts(TotalHits(draws[..|draws| - 1], cs, req), DrawHits(draws[|draws| - 1], cs, req.strong))
  }

  function TotalAmounts(draws: seq<Draw>, cs: seq<seq<int>>, req: Request): (r: seq<real>)
    ensures |r| == TIERS
  {
    if draws == [] then ZeroReals()
    else PlusReals(TotalAmounts(draws[..|draws| - 1], cs, req), DrawAmounts(draws[|draws| - 1], cs, req))
  }

  function TotalWon(draws: seq<Draw>, cs: seq<seq<int>>, req: Request): real {
    if draws == [] then 0.0 else TotalWon(draws[..|draws| - 1], cs, req) + DrawPrize(draws[|draws| - 1], cs, req)
  }

  function RealPrizes(draws: seq<Draw>): nat {
    if draws == [] then 0
    else RealPrizes(draws[..|draws| - 1]) + if |draws[|draws| - 1].prizes| == TIERS then 1 else 0
  }

  function PrizeSum(rs: seq<DrawResult>): real {
    if rs == [] then 0.0 else PrizeSum(rs[..|rs| - 1]) + rs[|rs| - 1].prizeWon
  }

  // ---------- conservation ----------

  lemma {:induction false} ZeroRealSum(n: nat)
    requires n <= TIERS
    ensures SumReals(ZeroReals(), n) == 0.0
  {
    if n > 0 { ZeroRealSum(n - 1); }
  }

  /** The money won is the money of the eight tiers. */
  lemma {:induction false} WonIsTierSum(draws: seq<Draw>, cs: seq<seq<int>>, req: Request)
    ensures TotalWon(draws, cs, req) == SumReals(TotalAmounts(draws, cs, req), TIERS)
  {
    if draws == [] {
      ZeroRealSum(TIERS);
    } else {
      var init, last := draws[..|draws| - 1], draws[|draws| - 1];
      WonIsTierSum(init, cs, req);
      SumPlusReals(TotalAmounts(init, cs, req), DrawAmounts(last, cs, req), TIERS);
    }
  }

  lemma {:induction false} SumNonNegative(v: seq<real>, n: nat)
    requires n <= |v| && forall i :: 0 <= i < |v| ==> v[i] >= 0.0
    ensures SumReals(v, n) >= 0.0
  {
    if n > 0 { SumNonNegative(v, n - 1); }
  }

  lemma ProductNonNegative(n: nat, x: real)
    requires x >= 0.0
    ensures n as real * x >= 0.0
  {
  }

  lemma DrawPrizeNonNegative(d: Draw, cs: seq<seq<int>>, req: Request)
    requires FairPrizes(d)
    ensures DrawPrize(d, cs, req) >= 0.0
  {
    var v, prizes := DrawHits(d, cs, req.strong), PrizesFor(d, req.prizeAmounts);
    forall i | 0 <= i < TIERS ensures DrawAmounts(d, cs, req)[i] >= 0.0 {
      ProductNonNegative(v[i], prizes[i]);
    }
    SumNonNegative(DrawAmounts(d, cs, req), TIERS);
  }

  lemma {:induction false} WonIsPrizeSum(draws: seq<Draw>, cs: seq<seq<int>>, req: Request)
    requires forall i :: 0 <= i < |draws| ==> FairPrizes(draws[i])
    ensures var rs := AllResults(draws, cs, req);
            TotalWon(draws, cs, req) == PrizeSum(rs) && forall i :: 0 <= i < |rs| ==> rs[i].prizeWon >= 0.0
  {
    if draws != [] {
      var init, last := draws[..|draws| - 1], draws[|draws| - 1];
      WonIsPrizeSum(init, cs, req);
      DrawPrizeNonNegative(last, cs, req);
      var rs, r := AllResults(init, cs, req), ResultOf(last, cs, req);
      assert (rs + [r])[..|rs|] == rs;
    }
  }

  lemma {:induction false} WinningSum(rs: seq<DrawResult>)
    requires forall i :: 0 <= i < |rs| ==> rs[i].prizeWon >= 0.0
    ensures PrizeSum(Winning(rs)) == PrizeSum(rs)
  {
    if rs != [] {
      var kept, last := Winning(rs[..|rs| - 1]), rs[|rs| - 1];
      WinningSum(rs[..|rs| - 1]);
      assert (kept + [last])[..|kept|] == kept;
    }
  }

  /** With no negative prize, the trimmed list of winning draws still adds up to everything won. */
  lemma WonIsWinningSum(draws: seq<Draw>, cs: seq<seq<int>>, req: Request)
    requires forall i :: 0 <= i < |draws| ==> FairPrizes(draws[i])
    ensures TotalWon(draws, cs, req) == PrizeSum(Winning(AllResults(draws, cs, req)))
  {
    WonIsPrizeSum(draws, cs, req);
    WinningSum(AllResults(draws, cs, req));
  }

  /** All the draws' winning combinations, draw by draw. */
  function WinPairs(draws: seq<Draw>, cs: seq<seq<int>>): nat {
    if draws == [] then 0
    else WinPairs(draws[..|draws| - 1], cs) + Wins(cs, Elements(draws[|draws| - 1].numbers))
  }

  /** The hits of all tiers are the (draw, combination) pairs with at least three matches. */
  lemma {:induction false} HitsAreWinPairs(draws: seq<Draw>, cs: seq<seq<int>>, req: Request)
    requires forall i :: 0 <= i < |cs| ==> |cs[i]| == NUMBERS_PLAYED
    ensures SumInts(TotalHits(draws, cs, req), TIERS) == WinPairs(draws, cs)
  {
    if draws == [] {
      ZeroSum(ZeroInts(), TIERS);
    } else {
      var init, last := draws[..|draws| - 1], draws[|draws| - 1];
      HitsAreWinPairs(init, cs, req);
      SumPlusInts(TotalHits(init, cs, req), DrawHits(last, cs, req.strong), TIERS);
      TiersCoverWins(cs, Elements(last.numbers), StrongMatched(req.strong, last));
    }
  }

  /** The combinations of a form of N numbers that win against a draw sharing m of them. */
  function WinsOf(m: nat, n: nat): nat {
    if m > n then 0
    else Binom(m, 3) * Binom(n - m, 3) + Binom(m, 4) * Binom(n - m, 2) + Binom(m, 5) * Binom(n - m, 1)
         + Binom(m, 6) * Binom(n - m, 0)
  }

  lemma WinsClosedForm(form: seq<int>, S: set<int>)
    requires Distinct(form)
    ensures |Elements(form) * S| <= |form|
    ensures Wins(Combos(form, NUMBERS_PLAYED), S) == WinsOf(|Elements(form) * S|, |form|)
  {
    CombosSized(form);
    WinsByMatches(Combos(form, NUMBERS_PLAYED), S);
    MatchesAreShared(form, S);
    MatchesAreHypergeometric(form, NUMBERS_PLAYED, S, 3);
    MatchesAreHypergeometric(form, NUMBERS_PLAYED, S, 4);
    MatchesAreHypergeometric(form, NUMBERS_PLAYED, S, 5);
    MatchesAreHypergeometric(form, NUMBERS_PLAYED, S, 6);
  }

  /** Over all draws: the wins a form of distinct numbers collects, from the sizes of its intersections alone. */
  function SharedWins(draws: seq<Draw>, form: seq<int>): nat {
    if draws == [] then 0
    else SharedWins(draws[..|draws| - 1], form)
         + WinsOf(|Elements(form) * Elements(draws[|draws| - 1].numbers)|, |form|)
  }

  lemma {:induction false} WinPairsClosedForm(draws: seq<Draw>, form: seq<int>)
    requires Distinct(form)
    ensures WinPairs(draws, Combos(form, NUMBERS_PLAYED)) == SharedWins(draws, form)
  {
    if draws != [] {
      WinPairsClosedForm(draws[..|draws| - 1], form);
      WinsClosedForm(form, Elements(draws[|draws| - 1].numbers));
    }
  }

  // ---------- the accounting loop ----------

  function AddHit(h: seq<nat>, hit: TierHit): (r: seq<nat>)
    ensures |r| == |h|
  {
    if 0 <= hit.tier - 1 < |h| then h[hit.tier - 1 := h[hit.tier - 1] + hit.hits] else h
  }

  function AddAmount(a: seq<real>, hit: TierHit): (r: seq<real>)
    ensures |r| == |a|
  {
    if 0 <= hit.tier - 1 < |a| then a[hit.tier - 1 := a[hit.tier - 1] + hit.total] else a
  }

  ghost function HitsAdded(h: seq<nat>, list: seq<TierHit>): (r: seq<nat>)
    ensures |r| == |h|
  {
    if list == [] then h else AddHit(HitsAdded(h, list[..|list| - 1]), list[|list| - 1])
  }

  ghost function AmountsAdded(a: seq<real>, list: seq<TierHit>): (r: seq<real>)
    ensures |r| == |a|
  {
    if list == [] then a else AddAmount(AmountsAdded(a, list[..|list| - 1]), list[|list| - 1])
  }

  method AddTierHit(hit: TierHit, hits: array<nat>, amounts: array<real>)
    requires hits.Length == amounts.Length == TIERS
    modifies hits, amounts
    ensures hits[..] == AddHit(old(hits[..]), hit) && amounts[..] == AddAmount(old(amounts[..]), hit)
  {
    var idx := hit.tier - 1;
    if idx >= 0 && idx < TIERS {
      hits[idx] := hits[idx] + hit.hits;
      amounts[idx] := amounts[idx] + hit.total;
    }
  }

  /** Adding a draw's hits to the running totals. */
  method AddHits(tierHits: seq<TierHit>, hits: array<nat>, amounts: array<real>, ghost v: seq<nat>,
                 ghost prizes: seq<real>)
    requires hits.Length == amounts.Length == |v| == |prizes| == TIERS
    requires tierHits == HitList(v, prizes, TIERS)
    modifies hits, amounts
    ensures hits[..] == PlusInts(old(hits[..]), v)
    ensures amounts[..] == PlusReals(old(amounts[..]), AmountVector(v, prizes))
  {
    ghost var h, a := hits[..], amounts[..];
    for i := 0 to |tierHits|
      invariant hits[..] == HitsAdded(h, tierHits[..i]) && amounts[..] == AmountsAdded(a, tierHits[..i])
    {
      assert tierHits[..i + 1][..i] == tierHits[..i];
      AddTierHit(tierHits[i], hits, amounts);
    }
    assert tierHits[..|tierHits|] == tierHits;
    HitsAddedUp(h, v, prizes, TIERS);
    AmountsAddedUp(a, v, prizes, TIERS);
  }

  /** Every entry stands for one of the first n tiers, with the hits it has. */
  predicate TiersListed(list: seq<TierHit>, v: seq<nat>, n: nat)
    requires n <= |v|
  {
    forall i :: 0 <= i < |list| ==> 1 <= list[i].tier <= n && list[i].hits == v[list[i].tier - 1] > 0
  }

  predicate InTierOrder(list: seq<TierHit>) {
    forall i, j :: 0 <= i < j < |list| ==> list[i].tier < list[j].tier
  }

  lemma TierAppended(list: seq<TierHit>, hit: TierHit, v: seq<nat>, n: nat)
    requires 0 < n <= |v| && TiersListed(list, v, n - 1)
    requires hit.tier == n && hit.hits == v[n - 1] > 0
    ensures TiersListed(list + [hit], v, n)
    ensures InTierOrder(list) ==> InTierOrder(list + [hit])
  {
  }

  /** A draw's tier hits are listed in tier order, and only tiers that were hit. */
  lemma {:induction false} HitListSorted(v: seq<nat>, prizes: seq<real>, n: nat)
    requires n <= |v| == |prizes|
    ensures TiersListed(HitList(v, prizes, n), v, n) && InTierOrder(HitList(v, prizes, n))
  {
    if n > 0 {
      HitListSorted(v, prizes, n - 1);
      if v[n - 1] > 0 {
        var hit := TierHit(n, v[n - 1], prizes[n - 1], v[n - 1] as real * prizes[n - 1]);
        TierAppended(HitList(v, prizes, n - 1), hit, v, n);
      }
    }
  }

  /** Every tier that was hit is listed. */
  lemma {:induction false} HitListComplete(v: seq<nat>, prizes: seq<real>, n: nat, t: nat) returns (i: nat)
    requires 1 <= t <= n <= |v| == |prizes| && v[t - 1] > 0
    ensures i < |HitList(v, prizes, n)|
    ensures HitList(v, prizes, n)[i] == TierHit(t, v[t - 1], prizes[t - 1], v[t - 1] as real * prizes[t - 1])
  {
    if t == n {
      i := |HitList(v, prizes, n)| - 1;
    } else {
      i := HitListComplete(v, prizes, n - 1, t);
    }
  }

  lemma {:induction false} HitsAddedUp(h: seq<nat>, v: seq<nat>, prizes: seq<real>, n: nat)
    requires n <= |h| == |v| == |prizes|
    ensures var r := HitsAdded(h, HitList(v, prizes, n));
            forall i :: 0 <= i < |h| ==> r[i] == h[i] + if i < n then v[i] else 0
  {
    if n > 0 {
      HitsAddedUp(h, v, prizes, n - 1);
      var list := HitList(v, prizes, n - 1);
      if v[n - 1] > 0 {
        var hit := TierHit(n, v[n - 1], prizes[n - 1], v[n - 1] as real * prizes[n - 1]);
        assert (list + [hit])[..|list|] == list;
      }
    }
  }

  lemma {:induction false} AmountsAddedUp(a: seq<real>, v: seq<nat>, prizes: seq<real>, n: nat)
    requires n <= |a| == |v| == |prizes|
    ensures var r := AmountsAdded(a, HitList(v, prizes, n));
            forall i :: 0 <= i < |a| ==> r[i] == a[i] + if i < n then AmountVector(v, prizes)[i] else 0.0
  {
    if n > 0 {
      AmountsAddedUp(a, v, prizes, n - 1);
      var list := HitList(v, prizes, n - 1);
      if v[n - 1] > 0 {
        var hit := TierHit(n, v[n - 1], prizes[n - 1], v[n - 1] as real * prizes[n - 1]);
        assert (list + [hit])[..|list|] == list;
      }
    }
  }

  /** A ticket price paid n times over. */
  function Repeated(n: nat, c: real): real { if n == 0 then 0.0 else Repeated(n - 1, c) + c }

  lemma Distributes(a: real, b: real, p: real)
    ensures (a + b) * p == a * p + b * p
  {
  }

  /** n draws of k tickets at price p. */
  lemma {:induction false} RepeatedTickets(n: nat, k: nat, p: real)
    ensures Repeated(n, TicketsCost(k, p)) == TicketsCost(n * k, p)
  {
    if n > 0 {
      RepeatedTickets(n - 1, k, p);
      assert n * k == (n - 1) * k + k;
      Distributes(((n - 1) * k) as real, k as real, p);
    }
  }

  method CostPerDraw(combinations: seq<seq<int>>, req: Request) returns (c: real)
    ensures c == Cost(combinations, req)
  {
    var ticketCost := req.ticketCost;
    if ticketCost <= 0.0 {
      ticketCost := DEFAULT_TICKET_COST;
    }
    c := |combinations| as real * ticketCost;
  }

  /** The draws a request is played against: its simulate window, cut from what the union of its windows loads. */
  function DrawsInPlay(table: seq<Draw>, req: Request): seq<Draw> {
    var loaded := LoadedDraws(table, req.archiveWindow, req.simulateWindow);
    if req.simulateWindow.Some? then Select(loaded, req.simulateWindow.value) else loaded
  }

  method KeepPositives(form: seq<int>) returns (r: seq<int>)
    ensures r == Positives(form)
  {
    r := [];
    for i := 0 to |form|
      invariant r == Positives(form[..i])
    {
      assert form[..i + 1][..i] == form[..i];
      if form[i] > 0 {
        r := r + [form[i]];
      }
    }
    assert form[..|form|] == form;
  }

  /** One draw of the accounting loop. */
  method Record(d: Draw, combinations: seq<seq<int>>, req: Request, costPerDraw: real, hits: array<nat>,
                amounts: array<real>)
    returns (r: DrawResult)
    requires hits.Length == amounts.Length == TIERS && costPerDraw == Cost(combinations, req)
    modifies hits, amounts
    ensures r == ResultOf(d, combinations, req)
    ensures hits[..] == PlusInts(old(hits[..]), DrawHits(d, combinations, req.strong))
    ensures amounts[..] == PlusReals(old(amounts[..]), DrawAmounts(d, combinations, req))
  {
    var prizes := PrizesFor(d, req.prizeAmounts);
    r := SimulateDraw(d, combinations, req.strong, prizes, costPerDraw);
    r := r.(usedRealPrizes := |d.prizes| == TIERS);
    AddHits(r.tierHits, hits, amounts, DrawHits(d, combinations, req.strong), prizes);
  }

  lemma OneMoreDraw(draws: seq<Draw>, d: Draw, cs: seq<seq<int>>, req: Request)
    ensures AllResults(draws + [d], cs, req) == AllResults(draws, cs, req) + [ResultOf(d, cs, req)]
    ensures TotalWon(draws + [d], cs, req) == TotalWon(draws, cs, req) + DrawPrize(d, cs, req)
    ensures TotalHits(draws + [d], cs, req) == PlusInts(TotalHits(draws, cs, req), DrawHits(d, cs, req.strong))
    ensures TotalAmounts(draws + [d], cs, req) == PlusReals(TotalAmounts(draws, cs, req), DrawAmounts(d, cs, req))
    ensures RealPrizes(draws + [d]) == RealPrizes(draws) + if |d.prizes| == TIERS then 1 else 0
  {
    assert (draws + [d])[..|draws|] == draws;
  }

  /** The loop over the draws. */
  method Account(results: seq<Draw>, combinations: seq<seq<int>>, req: Request)
    returns (drawResults: seq<DrawResult>, spent: real, won: real, hits: seq<nat>, amounts: seq<real>, withReal: nat)
    ensures drawResults == AllResults(results, combinations, req)
    ensures spent == Repeated(|results|, Cost(combinations, req))
    ensures won == TotalWon(results, combinations, req)
    ensures hits == TotalHits(results, combinations, req)
    ensures amounts == TotalAmounts(results, combinations, req)
    ensures withReal == RealPrizes(results)
  {
    var tierTotalHits := new nat[TIERS](i => 0);
    var tierTotalAmount := new real[TIERS](i => 0.0);
    var costPerDraw := CostPerDraw(combinations, req);
    drawResults, spent, won, withReal := [], 0.0, 0.0, 0;
    assert tierTotalHits[..] == ZeroInts() && tierTotalAmount[..] == ZeroReals();
    for i := 0 to |results|
      invariant drawResults == AllResults(results[..i], combinations, req)
      invariant spent == Repeated(i, costPerDraw)
      invariant won == TotalWon(results[..i], combinations, req)
      invariant tierTotalHits[..] == TotalHits(results[..i], combinations, req)
      invariant tierTotalAmount[..] == TotalAmounts(results[..i], combinations, req)
      invariant withReal == RealPrizes(results[..i])
    {
      var d := results[i];
      assert results[..i + 1] == results[..i] + [d];
      OneMoreDraw(results[..i], d, combinations, req);
      if |d.prizes| == TIERS {
        withReal := withReal + 1;
      }
      var r := Record(d, combinations, req, costPerDraw, tierTotalHits, tierTotalAmount);
      drawResults := drawResults + [r];
      spent := spent + r.ticketCost;
      won := won + r.prizeWon;
    }
    assert results[..|results|] == results;
    hits, amounts := tierTotalHits[..], tierTotalAmount[..];
  }

  /** A summary of all the draws played, winning or not. */
  predicate Summarizes(s: Summary, draws: seq<Draw>, cs: seq<seq<int>>, req: Request) {
    && s.totalDraws == |draws| && s.totalCombinations == |draws| * |cs|
    && s.totalSpent == Repeated(|draws|, Cost(cs, req))
    && s.totalWon == TotalWon(draws, cs, req) && s.net == s.totalWon - s.totalSpent
    && s.tierHits == TotalHits(draws, cs, req) && s.tierAmounts == TotalAmounts(draws, cs, req)
    && s.drawsWithRealPrizes == RealPrizes(draws)
  }

  method KeepWinning(rs: seq<DrawResult>) returns (winningDraws: seq<DrawResult>)
    ensures winningDraws == Winning(rs)
  {
    winningDraws := [];
    for i := 0 to |rs|
      invariant winningDraws == Winning(rs[..i])
    {
      assert rs[..i + 1][..i] == rs[..i];
      if rs[i].prizeWon > 0.0 {
        winningDraws := winningDraws + [rs[i]];
      }
    }
    assert rs[..|rs|] == rs;
  }

  /** Money spent is draws x C(N, 6) x ticket price. */
  lemma MoneySpent(draws: seq<Draw>, form: seq<int>, req: Request)
    ensures Repeated(|draws|, Cost(Combos(form, NUMBERS_PLAYED), req))
            == TicketsCost(|draws| * Binom(|form|, NUMBERS_PLAYED), TicketPrice(req))
  {
    CombosCount(form, NUMBERS_PLAYED);
    RepeatedTickets(|draws|, Binom(|form|, NUMBERS_PLAYED), TicketPrice(req));
  }

  /** So many tickets at the requested price if that is positive, else at 3.0 each. */
  predicate ChargedAs(spent: real, tickets: nat, requested: real) {
    && (requested > 0.0 ==> spent == tickets as real * requested)
    && (requested <= 0.0 ==> spent == tickets as real * 3.0)
  }

  lemma Charged(n: nat, k: nat, req: Request) returns (tickets: nat, spent: real)
    ensures tickets == n * k && spent == Repeated(n, TicketsCost(k, TicketPrice(req)))
    ensures ChargedAs(spent, tickets, req.ticketCost)
  {
    RepeatedTickets(n, k, TicketPrice(req));
    tickets, spent := n * k, TicketsCost(n * k, TicketPrice(req));
  }

  lemma SpentAsRequested(s: Summary, draws: seq<Draw>, form: seq<int>, req: Request)
    requires s.totalSpent == Repeated(|draws|, Cost(Combos(form, NUMBERS_PLAYED), req))
    requires s.totalCombinations == |draws| * |Combos(form, NUMBERS_PLAYED)|
    ensures ChargedAs(s.totalSpent, s.totalCombinations, req.ticketCost)
  {
    var tickets, spent := Charged(|draws|, |Combos(form, NUMBERS_PLAYED)|, req);
    SameCharge(tickets, s.totalCombinations, spent, s.totalSpent, req.ticketCost);
  }

  lemma SameCharge(a: nat, b: nat, x: real, y: real, requested: real)
    requires a == b && x == y
    ensures ChargedAs(x, a, requested) ==> ChargedAs(y, b, requested)
  {
  }

  /** The books balance, in terms of the draws and the form alone: money won is the sum over tiers and, with no
      negative prize, over the winning draws listed; hits follow from how many numbers each draw shares with the
      form; money spent is draws x C(N, 6) x ticket price. */
  ghost predicate Balanced(s: Summary, listed: seq<DrawResult>, draws: seq<Draw>, form: seq<int>, req: Request) {
    && |s.tierHits| == |s.tierAmounts| == TIERS
    && s.totalWon == SumReals(s.tierAmounts, TIERS)
    && ((forall i :: 0 <= i < |draws| ==> FairPrizes(draws[i])) ==> s.totalWon == PrizeSum(listed))
    && SumInts(s.tierHits, TIERS) == SharedWins(draws, form)
    && s.totalCombinations == |draws| * Binom(|form|, NUMBERS_PLAYED)
    && ChargedAs(s.totalSpent, s.totalCombinations, req.ticketCost)
    && s.net == s.totalWon - s.totalSpent
  }

  lemma SummaryBalances(s: Summary, draws: seq<Draw>, form: seq<int>, req: Request)
    requires Distinct(form) && Summarizes(s, draws, Combos(form, NUMBERS_PLAYED), req)
    ensures Balanced(s, Winning(AllResults(draws, Combos(form, NUMBERS_PLAYED), req)), draws, form, req)
  {
    var cs := Combos(form, NUMBERS_PLAYED);
    WonIsTierSum(draws, cs, req);
    if forall i :: 0 <= i < |draws| ==> FairPrizes(draws[i]) { WonIsWinningSum(draws, cs, req); }
    CombosSized(form);
    HitsAreWinPairs(draws, cs, req);
    WinPairsClosedForm(draws, form);
    CombosCount(form, NUMBERS_PLAYED);
    SpentAsRequested(s, draws, form, req);
  }

  /** A whole backtest; `table` is None when the archive cannot be loaded, else it holds the draw rows in date order. */
  method Simulate(table: Option<seq<Draw>>, req: Request) returns (r: Response)
    ensures r == LoadFailed <==> table == None
    ensures r == InvalidForm <==> table.Some? && |Positives(req.form)| < NUMBERS_PLAYED
    ensures r.Backtest? ==>
              var draws, cs := DrawsInPlay(table.value, req), Combos(PlayedForm(req.form), NUMBERS_PLAYED);
              r.draws == Winning(AllResults(draws, cs, req)) && Summarizes(r.summary, draws, cs, req)
    ensures r.Backtest? ==>
              Balanced(r.summary, r.draws, DrawsInPlay(table.value, req), PlayedForm(req.form), req)
  {
    if table.None? {
      return LoadFailed;
    }
    var results := LoadedDraws(table.value, req.archiveWindow, req.simulateWindow);
    if req.simulateWindow.Some? {
      results := FilterDrawsByWindow(results, req.simulateWindow.value);
    }
    var form := KeepPositives(req.form);
    if |form| < NUMBERS_PLAYED {
      return InvalidForm;
    }
    form := DedupAndSort(form);
    var n := |form|;
    if n > MAX_FORM_SIZE {
      n := MAX_FORM_SIZE;
      form := form[..MAX_FORM_SIZE];
    }
    assert form == PlayedForm(req.form);
    var combinations := GenerateCombinations(form, NUMBERS_PLAYED);
    r := Played(results, combinations, req);
    PlayedFormAscends(req.form);
    AscendingIsDistinct(form);
    SummaryBalances(r.summary, results, form, req);
  }

  method Played(results: seq<Draw>, combinations: seq<seq<int>>, req: Request) returns (r: Response)
    ensures r.Backtest? && r.draws == Winning(AllResults(results, combinations, req))
    ensures Summarizes(r.summary, results, combinations, req)
  {
    var drawResults, spent, won, hits, amounts, withReal := Account(results, combinations, req);
    drawResults := KeepWinning(drawResults);
    r := Backtest(drawResults,
                  Summary(|results|, |results| * |combinations|, spent, won, won - spent, hits, amounts, withReal));
  }

  /** Every draw of the simulate window the table holds is played, on the windows that load without loss. */
  lemma DrawsInPlayAreWindow(table: seq<Draw>, req: Request)
    requires req.simulateWindow.Some? && LosslessWindows(req.archiveWindow, req.simulateWindow.value)
    ensures DrawsInPlay(table, req) == GetByDateRange(table, NormalizeWindow(req.simulateWindow.value))
  {
    LosslessLoading(req.archiveWindow, req.simulateWindow.value);
  }
}
