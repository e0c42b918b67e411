/** How many forms a batch delivers, and which fronts a search can reach when one number more is ranked than a form
    holds.

    A round whose search fails still records the regrouped front, if that front is not among the forms emitted. Only
    when it is does the batch stop short. That is not the point where clean fronts have run out: the next search of a
    batch is confined to the walks that its parity selects. */
module BatchLengths {
  import opened Combinatorics
  import opened ComboMasks
  import opened Options
  import opened LotteryArchives
  import opened DateWindow
  import opened FormGenerators
  import opened PastWinners

  // ---------- when a batch stops short ----------

  /** The two scripts played against each other, a used-up script giving the regrouped front once: within n rounds
      one is used up with the front already emitted. */
  predicate Stops(scripts: (seq<(Word, Parity)>, seq<(Word, Parity)>), p: Parity, seen: set<Word>, front: Word, n: nat)
    decreases n
  {
    n > 0 &&
    match NextFresh(if p == 0 then scripts.0 else scripts.1, seen)
    case None => front in seen || Stops(scripts, 1 - p, seen + {front}, front, n - 1)
    case Some((m, d)) => Stops(scripts, 1 - d, seen + {m}, front, n - 1)
  }

  lemma RoundFound(base: seq<int>, skip: nat, c: Parity, f: nat, seen: set<Word>, won: set<Word>, n: nat,
                   t: seq<int>, d: Parity)
    requires skip <= f <= |base| && n > 0 && First(base, skip, f, 1 - c, f, seen, won) == Some((t, d))
    ensures |t| == |base|
    ensures Batch(base, skip, c, f, seen, won, n) ==
            [t[..f]] + Batch(base, skip, d, f, seen + {Mask(t[..f])}, won, n - 1)
  {
  }

  /** One round, told by the scripts. */
  lemma Round(base: seq<int>, skip: nat, c: Parity, f: nat, seen: set<Word>, won: set<Word>, n: nat)
    returns (next: Option<(Word, Parity)>)
    requires skip <= f <= |base| && n > 0
    ensures next == NextFresh(if c == 1 then Scripts(base, skip, f, won).0 else Scripts(base, skip, f, won).1, seen)
    ensures match next
            case Some((m, d)) =>
              |Batch(base, skip, c, f, seen, won, n)| == 1 + |Batch(base, skip, d, f, seen + {m}, won, n - 1)|
            case None =>
              var front := Mask(base[..f]);
              |Batch(base, skip, c, f, seen, won, n)| ==
              if front in seen then 0 else 1 + |Batch(base, skip, 1 - c, f, seen + {front}, won, n - 1)|
  {
    OneRound(base, skip, 1 - c, f, seen, won);
    match First(base, skip, f, 1 - c, f, seen, won)
    case Some((t, d)) => next := Some((Mask(t[..f]), d));
    case None => next := None;
  }

  /** Any batch, any front. */
  lemma {:induction false} ShortExactly(base: seq<int>, skip: nat, c: Parity, f: nat, seen: set<Word>, won: set<Word>,
                                        n: nat)
    requires skip <= f <= |base|
    ensures |Batch(base, skip, c, f, seen, won, n)| <= n
    ensures |Batch(base, skip, c, f, seen, won, n)| < n <==>
            Stops(Scripts(base, skip, f, won), 1 - c, seen, Mask(base[..f]), n)
    decreases n
  {
    if n > 0 {
      var next := Round(base, skip, c, f, seen, won, n);
      if next.Some? {
        ShortExactly(base, skip, next.value.1, f, seen + {next.value.0}, won, n - 1);
      } else if Mask(base[..f]) !in seen {
        ShortExactly(base, skip, 1 - c, f, seen + {Mask(base[..f])}, won, n - 1);
      }
    }
  }

  /** A front that both scripts hold is gone once either is used up. */
  lemma {:induction false} FrontInScripts(scripts: (seq<(Word, Parity)>, seq<(Word, Parity)>), p: Parity,
                                          seen: set<Word>, front: Word, n: nat)
    requires front in MasksOf(scripts.0) && front in MasksOf(scripts.1)
    ensures Stops(scripts, p, seen, front, n) <==> RunsOut(scripts, p, seen, n)
    decreases n
  {
    if n > 0 {
      var s := if p == 0 then scripts.0 else scripts.1;
      FreshExactly(s, seen);
      if NextFresh(s, seen).Some? {
        var (m, d) := NextFresh(s, seen).value;
        FrontInScripts(scripts, 1 - d, seen + {m}, front, n - 1);
      }
    }
  }

  /** The scripts run out, and after the one form that this allows they run out again. */
  predicate RunsOutTwice(scripts: (seq<(Word, Parity)>, seq<(Word, Parity)>), p: Parity, seen: set<Word>, n: nat)
    decreases n
  {
    n > 0 &&
    match NextFresh(if p == 0 then scripts.0 else scripts.1, seen)
    case None => RunsOut(scripts, 1 - p, seen, n - 1)
    case Some((m, d)) => RunsOutTwice(scripts, 1 - d, seen + {m}, n - 1)
  }

  lemma {:induction false} FreshIgnores(s: seq<(Word, Parity)>, seen: set<Word>, front: Word)
    requires front !in MasksOf(s)
    ensures NextFresh(s, seen + {front}) == NextFresh(s, seen)
  {
    if s != [] { FreshIgnores(s[1..], seen, front); }
  }

  /** Once a front that neither script holds has been emitted. */
  lemma {:induction false} FrontEmitted(scripts: (seq<(Word, Parity)>, seq<(Word, Parity)>), p: Parity,
                                        seen: set<Word>, front: Word, n: nat)
    requires front !in MasksOf(scripts.0) && front !in MasksOf(scripts.1)
    ensures Stops(scripts, p, seen + {front}, front, n) <==> RunsOut(scripts, p, seen, n)
    decreases n
  {
    if n > 0 {
      var s := if p == 0 then scripts.0 else scripts.1;
      FreshIgnores(s, seen, front);
      if NextFresh(s, seen).Some? {
        var (m, d) := NextFresh(s, seen).value;
        FrontEmitted(scripts, 1 - d, seen + {m}, front, n - 1);
        assert seen + {front} + {m} == seen + {m} + {front};
      }
    }
  }

  lemma {:induction false} FrontOutsideScripts(scripts: (seq<(Word, Parity)>, seq<(Word, Parity)>), p: Parity,
                                               seen: set<Word>, front: Word, n: nat)
    requires front !in MasksOf(scripts.0) && front !in MasksOf(scripts.1) && front !in seen
    ensures Stops(scripts, p, seen, front, n) <==> RunsOutTwice(scripts, p, seen, n)
    decreases n
  {
    if n > 0 {
      var s := if p == 0 then scripts.0 else scripts.1;
      FreshExactly(s, seen);
      if NextFresh(s, seen).Some? {
        var (m, d) := NextFresh(s, seen).value;
        FrontOutsideScripts(scripts, 1 - d, seen + {m}, front, n - 1);
      } else {
        FrontEmitted(scripts, 1 - p, seen, front, n - 1);
      }
    }
  }

  /** The walk of no moves ends on the regrouped front: a clean one is in both scripts. */
  lemma CleanFrontReached(base: seq<int>, skip: nat, p: Parity, f: nat, won: set<Word>)
    requires skip <= f <= |base| && Clean(base[..f], won)
    ensures Mask(base[..f]) in Reach(base, skip, p, f, won)
  {
    assert Walk(base, skip, f, f, []) == base;
    assert StartsWith([], p);
    ReachIsWalks(base, skip, p, f, won, Mask(base[..f]));
  }

  lemma DirtyFrontNotReached(base: seq<int>, skip: nat, p: Parity, f: nat, won: set<Word>)
    requires skip <= f <= |base| && Distinct(base) && Maskable(base) && !Clean(base[..f], won)
    ensures Mask(base[..f]) !in Reach(base, skip, p, f, won)
  {
    var front := Mask(base[..f]);
    ReachIsWalks(base, skip, p, f, won, front);
    if moves :| StartsWith(moves, p) && Clean(Walk(base, skip, f, f, moves)[..f], won)
                && Mask(Walk(base, skip, f, f, moves)[..f]) == front {
      WalkPermutes(base, skip, f, f, moves);
      WalkKeeps(base, skip, f, f, moves);
      SameMaskSameClean(base, skip, Walk(base, skip, f, f, moves), f, won);
    }
  }

  lemma AfterMove(t: seq<int>, start: nat, check: nat, f: nat, moves: seq<Parity>) returns (s: seq<int>)
    requires start < f <= check < |t| && moves != []
    ensures |s| == |t| && multiset(s) == multiset(t)
    ensures Walk(t, start, check, f, moves) == Walk(s, start + 1 - moves[0], check + moves[0], f, moves[1..])
  {
    s := Swap(t, start, check);
    SwapPermutes(t, start, check);
  }

  /** A walk permutes the list. */
  lemma {:induction false} WalkPermutes(t: seq<int>, start: nat, check: nat, f: nat, moves: seq<Parity>)
    requires start <= f <= check <= |t|
    ensures multiset(Walk(t, start, check, f, moves)) == multiset(t)
    decreases |moves|
  {
    if moves == [] || start == f || check == |t| {
      assert Walk(t, start, check, f, moves) == t;
    } else {
      var s := AfterMove(t, start, check, f, moves);
      WalkPermutes(s, start + 1 - moves[0], check + moves[0], f, moves[1..]);
    }
  }

  /** A walk touches nothing before its first cursor, nor between the form's size and its second. */
  lemma {:induction false} WalkKeeps(t: seq<int>, start: nat, check: nat, f: nat, moves: seq<Parity>)
    requires start <= f <= check <= |t|
    ensures forall i :: 0 <= i < start || f <= i < check ==> Walk(t, start, check, f, moves)[i] == t[i]
    decreases |moves|
  {
    if moves != [] && start < f && check < |t| {
      WalkKeeps(Swap(t, start, check), start + 1 - moves[0], check + moves[0], f, moves[1..]);
    }
  }

  /** Fewer forms than asked for, from a fresh generator, when the regrouped front has not won. */
  lemma CleanFrontShortExactly(base: seq<int>, skip: nat, c: Parity, f: nat, won: set<Word>, n: nat)
    requires skip <= f <= |base| && Clean(base[..f], won)
    ensures |Batch(base, skip, c, f, {}, won, n)| < n <==> ScriptsRunOut(base, skip, 1 - c, f, won, n)
  {
    ShortExactly(base, skip, c, f, {}, won, n);
    CleanFrontReached(base, skip, 0, f, won);
    CleanFrontReached(base, skip, 1, f, won);
    FrontInScripts(Scripts(base, skip, f, won), 1 - c, {}, Mask(base[..f]), n);
  }

  ghost predicate ScriptsRunOutTwice(base: seq<int>, skip: nat, p: Parity, f: nat, won: set<Word>, n: nat)
    requires skip <= f <= |base|
  {
    RunsOutTwice(Scripts(base, skip, f, won), p, {}, n)
  }

  /** The same when it has: the past winner itself buys one round, entered with the other parity. */
  lemma DirtyFrontShortExactly(base: seq<int>, skip: nat, c: Parity, f: nat, won: set<Word>, n: nat)
    requires skip <= f <= |base| && Distinct(base) && Maskable(base) && !Clean(base[..f], won)
    ensures |Batch(base, skip, c, f, {}, won, n)| < n <==> ScriptsRunOutTwice(base, skip, 1 - c, f, won, n)
  {
    ShortExactly(base, skip, c, f, {}, won, n);
    DirtyFrontNotReached(base, skip, 0, f, won);
    DirtyFrontNotReached(base, skip, 1, f, won);
    FrontOutsideScripts(Scripts(base, skip, f, won), 1 - c, {}, Mask(base[..f]), n);
  }

  /** While each parity's walks reach a fresh clean set for every form still wanted, all forms are delivered. */
  lemma {:induction false} FullBatch(base: seq<int>, skip: nat, c: Parity, f: nat, seen: set<Word>, won: set<Word>,
                                     n: nat)
    requires skip <= f <= |base| && EnoughInReach(base, skip, f, seen, won, n)
    ensures |Batch(base, skip, c, f, seen, won, n)| == n
    decreases n
  {
    if n > 0 {
      FindsWhileInReach(base, skip, 1 - c, f, seen, won);
      var (t, d) := First(base, skip, f, 1 - c, f, seen, won).value;
      assert |seen + {Mask(t[..f])}| <= |seen| + 1;
      FullBatch(base, skip, d, f, seen + {Mask(t[..f])}, won, n - 1);
    }
  }

  // ---------- which positions a walk can exchange ----------

  /** Whatever follows, a first move of the second cursor leaves the first unpinned number out, and a first move of
      the first cursor brings the number after the front in. */
  lemma FirstMoveDecides(t: seq<int>, start: nat, f: nat, moves: seq<Parity>)
    requires start < f < |t| && moves != []
    ensures moves[0] == 1 ==> Walk(t, start, f, f, moves)[f] == t[start]
    ensures moves[0] == 0 ==> Walk(t, start, f, f, moves)[start] == t[f]
  {
    WalkKeeps(Swap(t, start, f), start + 1 - moves[0], f + moves[0], f, moves[1..]);
  }

  /** With one number more ranked than the form holds, a search entered with parity p can leave out the last number
      (no move), the first unpinned one, and, entered with parity 0, any other unpinned one. */
  predicate CanLeaveOut(start: nat, f: nat, p: Parity, j: nat)
    requires start <= f
  {
    j == f || (j == start < f) || (p == 0 && start < j < f)
  }

  lemma {:induction false} LeavesOut(t: seq<int>, start: nat, f: nat, p: Parity, moves: seq<Parity>) returns (j: nat)
    requires start <= f && |t| == f + 1 && StartsWith(moves, p)
    ensures j <= f && CanLeaveOut(start, f, p, j) && Walk(t, start, f, f, moves)[f] == t[j]
    decreases |moves|
  {
    if moves == [] || start == f {
      j := f;
    } else if moves[0] == 1 {
      FirstMoveDecides(t, start, f, moves);
      j := start;
    } else {
      var rest := moves[1..];
      var s := Swap(t, start, f);
      j := LeavesOut(s, start + 1, f, if rest == [] then 0 else rest[0], rest);
      if j == f { j := start; }
    }
  }

  function Zeros(k: nat): seq<Parity> { if k == 0 then [] else [0] + Zeros(k - 1) }

  /** Advancing the first cursor k + 1 times leaves out the number k places after it. */
  lemma {:induction false} ZerosLeaveOut(t: seq<int>, start: nat, f: nat, k: nat)
    requires start + k < f && |t| == f + 1
    ensures Walk(t, start, f, f, Zeros(k + 1))[f] == t[start + k]
    decreases k
  {
    var s := Swap(t, start, f);
    assert Zeros(k + 1) == [0] + Zeros(k) && Zeros(k + 1)[1..] == Zeros(k);
    if k > 0 { ZerosLeaveOut(s, start + 1, f, k - 1); }
  }

  lemma CanBeLeftOut(t: seq<int>, start: nat, f: nat, p: Parity, j: nat) returns (moves: seq<Parity>)
    requires start <= f && |t| == f + 1 && CanLeaveOut(start, f, p, j)
    ensures StartsWith(moves, p) && Walk(t, start, f, f, moves)[f] == t[j]
  {
    if j == f {
      moves := [];
    } else if p == 1 {
      moves := [1];
    } else {
      moves := Zeros(j - start + 1);
      ZerosLeaveOut(t, start, f, j - start);
    }
  }

  /** The front that leaves out the number at place j. */
  function FrontWithout(base: seq<int>, f: nat, j: nat): seq<int>
    requires j <= f && |base| == f + 1
  {
    Swap(base, j, f)[..f]
  }

  /** A rearrangement with x last has the other numbers in front. */
  lemma AllButLast(base: seq<int>, t: seq<int>, f: nat)
    requires Distinct(base) && |base| == |t| == f + 1 && multiset(t) == multiset(base)
    ensures Elements(t[..f]) == Elements(base) - {t[f]} && Distinct(t[..f])
  {
    DistinctPermutation(base, t);
    FrontDistinct(t, f);
    SamePermutationSameElements(t, base);
    DistinctByIndex(t);
    assert t == t[..f] + [t[f]];
    forall x ensures x in Elements(t[..f]) <==> x in Elements(base) - {t[f]} {
      if x in t[..f] { var i :| 0 <= i < f && t[i] == x; }
    }
  }

  lemma SameLeftOut(base: seq<int>, t: seq<int>, f: nat, j: nat, won: set<Word>)
    requires Distinct(base) && |base| == |t| == f + 1 && multiset(t) == multiset(base) && j <= f && t[f] == base[j]
    ensures Clean(t[..f], won) <==> Clean(FrontWithout(base, f, j), won)
  {
    SwapPermutes(base, j, f);
    AllButLast(base, t, f);
    AllButLast(base, Swap(base, j, f), f);
    var a, b := t[..f], FrontWithout(base, f, j);
    if Clean(a, won) { CleanIsSetProperty(a, b, won); }
    if Clean(b, won) { CleanIsSetProperty(b, a, won); }
  }

  /** Read off the positions: no walk ends clean exactly when each front that can be left with has won. */
  lemma NoWalkIsCleanExactly(base: seq<int>, skip: nat, p: Parity, f: nat, won: set<Word>)
    requires skip <= f && |base| == f + 1 && Distinct(base)
    ensures NoWalkIsClean(base, skip, p, f, won) <==>
            forall j :: 0 <= j <= f && CanLeaveOut(skip, f, p, j) ==> !Clean(FrontWithout(base, f, j), won)
  {
    if NoWalkIsClean(base, skip, p, f, won) {
      forall j | 0 <= j <= f && CanLeaveOut(skip, f, p, j) ensures !Clean(FrontWithout(base, f, j), won) {
        var moves := CanBeLeftOut(base, skip, f, p, j);
        WalkPermutes(base, skip, f, f, moves);
        SameLeftOut(base, Walk(base, skip, f, f, moves), f, j, won);
      }
    }
    if forall j :: 0 <= j <= f && CanLeaveOut(skip, f, p, j) ==> !Clean(FrontWithout(base, f, j), won) {
      forall moves | StartsWith(moves, p) ensures !Clean(Walk(base, skip, f, f, moves)[..f], won) {
        var j := LeavesOut(base, skip, f, p, moves);
        WalkPermutes(base, skip, f, f, moves);
        SameLeftOut(base, Walk(base, skip, f, f, moves), f, j, won);
      }
    }
  }

  // ---------- three forms, however many are asked for ----------

  /** With one number more than the form holds and nothing pinned: a search entered with parity 1 fails once the front
      without the first number has been emitted and the regrouped front is no candidate. */
  lemma OnlyFirstExchanged(base: seq<int>, f: nat, seen: set<Word>, won: set<Word>)
    requires |base| == f + 1 && f > 0
    requires !Acceptable(base, f, seen, won) && !Acceptable(Swap(base, 0, f), f, seen, won)
    ensures First(base, 0, f, 1, f, seen, won) == None
  {
    var s := Swap(base, 0, f);
    assert First(s, 0, f + 1, 0, f, seen, won) == None && First(s, 0, f + 1, 1, f, seen, won) == None;
  }

  /** The search entered with parity 0 then comes to the front without the second number. */
  lemma SecondExchanged(base: seq<int>, f: nat, seen: set<Word>, won: set<Word>)
    requires |base| == f + 1 && f > 1
    requires !Acceptable(base, f, seen, won) && !Acceptable(Swap(base, 0, f), f, seen, won)
    requires Acceptable(Swap(Swap(base, 0, f), 1, f), f, seen, won)
    ensures First(base, 0, f, 0, f, seen, won) == Some((Swap(Swap(base, 0, f), 1, f), 0))
  {
    var s := Swap(base, 0, f);
    var r := Swap(s, 1, f);
    assert First(r, 1, f + 1, 0, f, seen, won) == Some((r, 0));
    assert First(s, 1, f, 1, f, seen, won) == Some((r, 0));
  }

  lemma FrontMaskable(base: seq<int>, t: seq<int>, f: nat)
    requires multiset(t) == multiset(base) && Maskable(base) && f <= |t|
    ensures Maskable(t[..f])
  {
    SamePermutationSameElements(t, base);
    forall i | 0 <= i < f ensures 1 <= t[..f][i] <= 63 {
      assert t[i] in t;
      var j :| 0 <= j < |base| && base[j] == t[i];
    }
  }

  /** Two different numbers left out give two masks. */
  lemma LeftOutMasksDiffer(base: seq<int>, r: seq<int>, t: seq<int>, f: nat)
    requires Distinct(base) && Maskable(base) && |base| == |r| == |t| == f + 1
    requires multiset(r) == multiset(base) == multiset(t) && r[f] != t[f]
    ensures Mask(r[..f]) != Mask(t[..f])
  {
    AllButLast(base, r, f);
    AllButLast(base, t, f);
    FrontMaskable(base, r, f);
    FrontMaskable(base, t, f);
    SamePermutationSameElements(r, base);
    assert r[f] in r && r[f] in Elements(base) && r[f] !in Elements(r[..f]) && r[f] in Elements(t[..f]);
    MaskIsSet(r[..f], t[..f]);
  }

  /** What the first rounds leave. */
  lemma NarrowMasks(base: seq<int>, f: nat)
    requires |base| == f + 1 && f > 1 && Distinct(base) && Maskable(base)
    ensures var s := Swap(base, 0, f); var r := Swap(s, 1, f);
            && Mask(base[..f]) != Mask(s[..f]) && Mask(base[..f]) != Mask(r[..f]) && Mask(s[..f]) != Mask(r[..f])
  {
    var s := Swap(base, 0, f);
    var r := Swap(s, 1, f);
    SwapPermutes(base, 0, f);
    SwapPermutes(s, 1, f);
    DistinctByIndex(base);
    LeftOutMasksDiffer(base, base, s, f);
    LeftOutMasksDiffer(base, base, r, f);
    LeftOutMasksDiffer(base, s, r, f);
  }

  /** One number more ranked than the form holds, nothing pinned, a fresh generator, the front a past winner, and the
      fronts without the first and without the second number clean. */
  ghost predicate NarrowStart(base: seq<int>, f: nat, won: set<Word>) {
    f > 1 && OneToSpare(base, f, won) && Clean(Swap(Swap(base, 0, f), 1, f)[..f], won)
  }

  /** However many forms are asked for beyond two: the front without its first number, the past winner, and the front
      without its second number. */
  lemma NarrowBatchStops(base: seq<int>, f: nat, won: set<Word>, n: nat)
    requires NarrowStart(base, f, won) && n >= 3
    ensures Batch(base, 0, 0, f, {}, won, n)
            == [Swap(base, 0, f)[..f], base[..f], Swap(Swap(base, 0, f), 1, f)[..f]]
  {
    var s := Swap(base, 0, f);
    var r := Swap(s, 1, f);
    var a, b := Mask(s[..f]), Mask(base[..f]);
    NarrowMasks(base, f);
    assert First(s, 0, f + 1, 0, f, {}, won) == Some((s, 0));
    RoundFound(base, 0, 0, f, {}, won, n, s, 0);
    OnlyFirstExchanged(base, f, {} + {a}, won);
    LastRounds(base, f, {} + {a}, won, n - 1);
  }

  lemma LastRounds(base: seq<int>, f: nat, seen: set<Word>, won: set<Word>, n: nat)
    requires NarrowStart(base, f, won) && n >= 2 && seen == {Mask(Swap(base, 0, f)[..f])}
    requires First(base, 0, f, 1, f, seen, won) == None
    ensures Batch(base, 0, 0, f, seen, won, n) == [base[..f], Swap(Swap(base, 0, f), 1, f)[..f]]
  {
    var r, both := Swap(Swap(base, 0, f), 1, f), seen + {Mask(base[..f])};
    NarrowMasks(base, f);
    SecondExchanged(base, f, both, won);
    RoundFound(base, 0, 1, f, both, won, n - 1, r, 0);
    OnlyFirstExchanged(base, f, both + {Mask(r[..f])}, won);
    assert Batch(base, 0, 0, f, both + {Mask(r[..f])}, won, n - 2) == [];
  }

  // ---------- over any two draws that share five numbers ----------

  /** A shared number is ranked second, the least of those left. */
  lemma SecondRanked(a: Draw, b: Draw, ranked: seq<int>, x: int)
    requires ShareFive(a, b) && ranked == NumberRanking(Lottery, [a, b], false) && |ranked| == 7
    requires Elements(ranked) == Either(a, b) && x in Shared(a, b) && x != ranked[0]
    ensures ranked[1] in Shared(a, b) && ranked[1] <= x
  {
    assert x in Elements(ranked) && ranked[1] in Elements(ranked);
    var i :| 0 <= i < 7 && ranked[i] == x;
    DrawnTwice(a, b, x);
    DrawnTwice(a, b, ranked[1]);
    if i > 1 { NumberRankingOrder(Lottery, [a, b], false, 1, i); }
  }

  lemma AnotherShared(a: Draw, b: Draw, y: int) returns (x: int)
    requires ShareFive(a, b)
    ensures x in Shared(a, b) && x != y
  {
    var others := Shared(a, b) - {y};
    assert |Shared(a, b)| <= |others| + 1 by {
      Smaller(Shared(a, b), others + {y});
    }
    x :| x in others;
  }

  lemma Smaller(s: set<int>, t: set<int>)
    requires s <= t
    ensures |s| <= |t|
  {
    assert t == s + (t - s);
  }

  /** All ranked numbers but a shared one: a clean form. */
  lemma WithoutShared(a: Draw, b: Draw, ranked: seq<int>, t: seq<int>)
    requires ShareFive(a, b) && |ranked| == |t| == 7 && Distinct(ranked) && Maskable(ranked)
    requires Elements(ranked) == Either(a, b) && multiset(t) == multiset(ranked) && t[6] in Shared(a, b)
    ensures Elements(t[..6]) == Either(a, b) - {t[6]} && Clean(t[..6], WinningMasks([a, b]))
  {
    AllButLast(ranked, t, 6);
    AllButOne(a, b, t[6]);
    TwoDrawsMaskable(a, b);
    FrontMaskable(ranked, t, 6);
    CleanMeans(t[..6], [a, b]);
  }

  /** A walk that a search entered with parity 0 can make ends on a clean front of these numbers. */
  ghost predicate Reachable(ranked: seq<int>, won: set<Word>, numbers: set<int>)
    requires |ranked| == 7
  {
    exists moves :: StartsWith(moves, 0) && Elements(Walk(ranked, 0, 6, 6, moves)[..6]) == numbers
                    && Clean(Walk(ranked, 0, 6, 6, moves)[..6], won)
  }

  lemma WithoutSharedReachable(a: Draw, b: Draw, ranked: seq<int>, x: int)
    requires ShareFive(a, b) && |ranked| == 7 && Distinct(ranked) && Maskable(ranked)
    requires Elements(ranked) == Either(a, b) && ranked[6] !in Shared(a, b) && x in Shared(a, b)
    ensures Reachable(ranked, WinningMasks([a, b]), Either(a, b) - {x})
  {
    assert x in Elements(ranked);
    var j :| 0 <= j < 7 && ranked[j] == x;
    var moves := CanBeLeftOut(ranked, 0, 6, 0, j);
    WalkPermutes(ranked, 0, 6, 6, moves);
    WithoutShared(a, b, ranked, Walk(ranked, 0, 6, 6, moves));
  }

  /** The batch stops while walks of both parities still reach clean fronts. Over any two complete draws that share
      five numbers, the most frequent numbers first, a fresh generator asked for three six-number forms or more gives
      three: the seven numbers without the first ranked, one of the past draws itself, and the seven without the second
      ranked. Yet leaving out any of the five shared numbers gives a clean form that a walk of its search ends on. */
  lemma TwoDrawsDeliverThree(a: Draw, b: Draw, n: nat)
    requires ShareFive(a, b) && n >= 3
    ensures var ranked, won := NumberRanking(Lottery, [a, b], false), WinningMasks([a, b]);
            && |ranked| == 7 && ranked[0] in Shared(a, b) && ranked[1] in Shared(a, b) && ranked[0] != ranked[1]
            && var forms := Batch(ranked, 0, 0, 6, {}, won, n);
               && |forms| == 3 && !Clean(forms[1], won)
               && Elements(forms[0]) == Either(a, b) - {ranked[0]} && Elements(forms[1]) == Either(a, b) - {ranked[6]}
               && (Elements(forms[1]) == Elements(a.numbers) || Elements(forms[1]) == Elements(b.numbers))
               && Elements(forms[2]) == Either(a, b) - {ranked[1]}
    ensures |NumberRanking(Lottery, [a, b], false)| == 7
    ensures forall x :: x in Shared(a, b) ==>
              Reachable(NumberRanking(Lottery, [a, b], false), WinningMasks([a, b]), Either(a, b) - {x})
  {
    var won := WinningMasks([a, b]);
    var ranked := RankingOfTwo(a, b);
    var x := AnotherShared(a, b, ranked[0]);
    SecondRanked(a, b, ranked, x);
    DistinctByIndex(ranked);
    var s := Swap(ranked, 0, 6);
    SwapPermutes(ranked, 0, 6);
    SwapPermutes(s, 1, 6);
    WithoutShared(a, b, ranked, s);
    WithoutShared(a, b, ranked, Swap(s, 1, 6));
    FrontSets(ranked);
    FrontIsADraw(a, b, ranked);
    FrontIsDirty(a, b, ranked);
    NarrowBatchStops(ranked, 6, won, n);
    forall x | x in Shared(a, b) ensures Reachable(ranked, won, Either(a, b) - {x}) {
      WithoutSharedReachable(a, b, ranked, x);
    }
  }

  lemma ExampleSecond(a: Draw, b: Draw, ranked: seq<int>)
    requires ExampleDraws(a, b)
    requires ranked == NumberRanking(Lottery, [a, b], false) && |ranked| == 7 && ranked[0] == 1
    requires ranked[0] != ranked[1]
    ensures ranked[1] == 2
  {
    ExampleSharesFive(a, b);
    ExampleShared(a.numbers, b.numbers);
    var _ := RankingOfTwo(a, b);
    SecondRanked(a, b, ranked, 2);
  }

  lemma ExampleLeftOut(a: Draw, b: Draw)
    requires ExampleDraws(a, b)
    ensures Either(a, b) - {1} == {2, 3, 4, 5, 6, 7}
    ensures Either(a, b) - {7} == {1, 2, 3, 4, 5, 6}
    ensures Either(a, b) - {2} == {1, 3, 4, 5, 6, 7}
  {
    ExampleEither(a.numbers, b.numbers);
  }

  /** For instance: after the draws {1..6} and {1, 2, 3, 4, 6, 7}, however many forms are asked for beyond two, the
      forms are {2..7}, {1..6} and {1, 3, 4, 5, 6, 7}. */
  lemma ThreeFormsExample(a: Draw, b: Draw, n: nat)
    requires ExampleDraws(a, b) && n >= 3
    ensures var ranked := NumberRanking(Lottery, [a, b], false);
            |ranked| == 7
            && var forms := Batch(ranked, 0, 0, 6, {}, WinningMasks([a, b]), n);
               && |forms| == 3 && Elements(forms[0]) == {2, 3, 4, 5, 6, 7}
               && Elements(forms[1]) == {1, 2, 3, 4, 5, 6} && Elements(forms[2]) == {1, 3, 4, 5, 6, 7}
  {
    ExampleSharesFive(a, b);
    TwoDrawsDeliverThree(a, b, n);
    var ranked := ExampleRanking(a, b);
    ExampleSecond(a, b, ranked);
    ExampleLeftOut(a, b);
  }
}
