/** When a batch emits a combination that has already won.

    Generate ignores whether its search succeeded, so when a search runs dry the regrouped front itself is recorded,
    won or not. The candidates a search can reach, and the parity it would stop with at each, do not depend on what
    was emitted before: they are two fixed lists, one for each parity on entry, readable off the ranking and the
    winning combinations before anything is generated. Everything below is stated on those two lists. */
module PastWinners {
  import opened Combinatorics
  import opened ComboMasks
  import opened Options
  import opened TreeModel
  import opened LotteryArchives
  import opened DateWindow
  import opened FormGenerators

  // ---------- what a search visits ----------

  /** The fronts a search tries, in order, each with the parity it stops with if it accepts there. */
  function Visits(t: seq<int>, start: nat, check: nat, c: Parity, f: nat): seq<(seq<int>, Parity)>
    requires start <= f <= check <= |t|
    decreases f - start + |t| - check
  {
    [(t[..f], c)]
    + if start == f || check == |t| then []
      else Visits(Swap(t, start, check), start + 1 - c, check + c, 1 - c, f)
           + Visits(Swap(t, start, check), start + 1 - c, check + c, c, f)
  }

  /** The first visit that is unseen and clean. */
  ghost function FirstFresh(vs: seq<(seq<int>, Parity)>, seen: set<Word>, won: set<Word>): Option<(seq<int>, Parity)> {
    if vs == [] then None
    else if Mask(vs[0].0) !in seen && Clean(vs[0].0, won) then Some(vs[0])
    else FirstFresh(vs[1..], seen, won)
  }

  lemma FirstFreshCons(v: (seq<int>, Parity), vs: seq<(seq<int>, Parity)>, seen: set<Word>, won: set<Word>)
    ensures FirstFresh([v] + vs, seen, won) ==
            if Mask(v.0) !in seen && Clean(v.0, won) then Some(v) else FirstFresh(vs, seen, won)
  {
    assert ([v] + vs)[1..] == vs;
  }

  lemma {:induction false} FirstFreshConcat(a: seq<(seq<int>, Parity)>, b: seq<(seq<int>, Parity)>, seen: set<Word>,
                                            won: set<Word>)
    ensures FirstFresh(a + b, seen, won) ==
            if FirstFresh(a, seen, won).Some? then FirstFresh(a, seen, won) else FirstFresh(b, seen, won)
  {
    if a == [] {
      assert a + b == b;
    } else {
      assert (a + b)[1..] == a[1..] + b && (a + b)[0] == a[0];
      FirstFreshConcat(a[1..], b, seen, won);
    }
  }

  /** What the search found, as a front and a parity. */
  ghost function FoundFront(t: seq<int>, start: nat, check: nat, c: Parity, f: nat, seen: set<Word>, won: set<Word>)
    : Option<(seq<int>, Parity)>
    requires start <= f <= check <= |t|
  {
    match First(t, start, check, c, f, seen, won)
    case None => None
    case Some((r, d)) => Some((r[..f], d))
  }

  /** The backtracking search is a scan of its visits. */
  lemma {:induction false} SearchIsScan(t: seq<int>, start: nat, check: nat, c: Parity, f: nat, seen: set<Word>,
                                        won: set<Word>)
    requires start <= f <= check <= |t|
    ensures FoundFront(t, start, check, c, f, seen, won) == FirstFresh(Visits(t, start, check, c, f), seen, won)
    decreases f - start + |t| - check
  {
    if start == f || check == |t| {
      FirstFreshCons((t[..f], c), [], seen, won);
      assert Visits(t, start, check, c, f) == [(t[..f], c)] + [];
    } else {
      var s, start', check' := Swap(t, start, check), start + 1 - c, check + c;
      SearchIsScan(s, start', check', 1 - c, f, seen, won);
      SearchIsScan(s, start', check', c, f, seen, won);
      var a, b := Visits(s, start', check', 1 - c, f), Visits(s, start', check', c, f);
      FirstFreshCons((t[..f], c), a + b, seen, won);
      FirstFreshConcat(a, b, seen, won);
    }
  }

  // ---------- the two scripts ----------

  /** The clean visits, as masks. */
  ghost function Script(vs: seq<(seq<int>, Parity)>, won: set<Word>): seq<(Word, Parity)> {
    if vs == [] then []
    else if Clean(vs[0].0, won) then [(Mask(vs[0].0), vs[0].1)] + Script(vs[1..], won)
    else Script(vs[1..], won)
  }

  /** The script of a search over the regrouped ranking that is entered with parity p (after the flip). */
  ghost function ScriptFrom(base: seq<int>, skip: nat, p: Parity, f: nat, won: set<Word>): seq<(Word, Parity)>
    requires skip <= f <= |base|
  {
    Script(Visits(base, skip, f, p, f), won)
  }

  function NextFresh(s: seq<(Word, Parity)>, seen: set<Word>): Option<(Word, Parity)> {
    if s == [] then None
    else if s[0].0 !in seen then Some(s[0])
    else NextFresh(s[1..], seen)
  }

  function MasksOf(s: seq<(Word, Parity)>): set<Word> {
    if s == [] then {} else {s[0].0} + MasksOf(s[1..])
  }

  /** The clean masks a search entered with parity p can reach at all. */
  ghost function Reach(base: seq<int>, skip: nat, p: Parity, f: nat, won: set<Word>): set<Word>
    requires skip <= f <= |base|
  {
    MasksOf(ScriptFrom(base, skip, p, f, won))
  }

  lemma {:induction false} ScanOfScript(vs: seq<(seq<int>, Parity)>, seen: set<Word>, won: set<Word>)
    ensures match FirstFresh(vs, seen, won)
            case None => NextFresh(Script(vs, won), seen) == None
            case Some((x, d)) => NextFresh(Script(vs, won), seen) == Some((Mask(x), d))
  {
    if vs != [] {
      ScanOfScript(vs[1..], seen, won);
      if Clean(vs[0].0, won) {
        var rest := Script(vs[1..], won);
        assert ([(Mask(vs[0].0), vs[0].1)] + rest)[1..] == rest;
      }
    }
  }

  /** A script has something fresh exactly when it has a mask outside `seen`, and then that is what it gives. */
  lemma {:induction false} FreshExactly(s: seq<(Word, Parity)>, seen: set<Word>)
    ensures NextFresh(s, seen) == None <==> MasksOf(s) <= seen
    ensures NextFresh(s, seen).Some? ==> NextFresh(s, seen).value.0 in MasksOf(s) - seen
  {
    if s != [] {
      FreshExactly(s[1..], seen);
    }
  }

  /** Playing the two scripts against each other: each round takes the first fresh entry of the script its parity
      selects, and the parity noted there selects the next one. Some of n rounds finds its script used up. */
  predicate RunsOut(scripts: (seq<(Word, Parity)>, seq<(Word, Parity)>), p: Parity, seen: set<Word>, n: nat)
    decreases n
  {
    n > 0 &&
    match NextFresh(if p == 0 then scripts.0 else scripts.1, seen)
    case None => true
    case Some((m, d)) => RunsOut(scripts, 1 - d, seen + {m}, n - 1)
  }

  ghost function Scripts(base: seq<int>, skip: nat, f: nat, won: set<Word>): (seq<(Word, Parity)>, seq<(Word, Parity)>)
    requires skip <= f <= |base|
  {
    (ScriptFrom(base, skip, 0, f, won), ScriptFrom(base, skip, 1, f, won))
  }

  lemma OneRound(base: seq<int>, skip: nat, p: Parity, f: nat, seen: set<Word>, won: set<Word>)
    requires skip <= f <= |base|
    ensures match First(base, skip, f, p, f, seen, won)
            case None => NextFresh(ScriptFrom(base, skip, p, f, won), seen) == None
            case Some((t, d)) => NextFresh(ScriptFrom(base, skip, p, f, won), seen) == Some((Mask(t[..f]), d))
  {
    SearchIsScan(base, skip, f, p, f, seen, won);
    ScanOfScript(Visits(base, skip, f, p, f), seen, won);
  }

  lemma {:induction false} RunsDryIsRunsOut(base: seq<int>, skip: nat, c: Parity, f: nat, seen: set<Word>,
                                            won: set<Word>, n: nat)
    requires skip <= f <= |base|
    ensures RunsDry(base, skip, c, f, seen, won, n) <==> RunsOut(Scripts(base, skip, f, won), 1 - c, seen, n)
    decreases n
  {
    if n > 0 {
      OneRound(base, skip, 1 - c, f, seen, won);
      var found := First(base, skip, f, 1 - c, f, seen, won);
      if found.Some? {
        RunsDryIsRunsOut(base, skip, found.value.1, f, seen + {Mask(found.value.0[..f])}, won, n - 1);
      }
    }
  }

  ghost predicate EmitsPastWinner(base: seq<int>, skip: nat, c: Parity, f: nat, won: set<Word>, n: nat)
    requires skip <= f <= |base|
  {
    AnyDirty(Batch(base, skip, c, f, {}, won, n), won)
  }

  /** Of n rounds from a fresh generator, the first entered with parity p, some finds its script used up. */
  ghost predicate ScriptsRunOut(base: seq<int>, skip: nat, p: Parity, f: nat, won: set<Word>, n: nat)
    requires skip <= f <= |base|
  {
    RunsOut(Scripts(base, skip, f, won), p, {}, n)
  }

  /** Exactly when, for any number of forms: the regrouped front has won before, and the two scripts, fixed before the
      call, run out. */
  lemma PastWinnerExactly(base: seq<int>, skip: nat, c: Parity, f: nat, won: set<Word>, n: nat)
    requires skip <= f <= |base| && Distinct(base) && Maskable(base)
    ensures EmitsPastWinner(base, skip, c, f, won, n) <==>
            !Clean(base[..f], won) && ScriptsRunOut(base, skip, 1 - c, f, won, n)
  {
    DirtyExactly(base, skip, c, f, {}, won, n);
    RunsDryIsRunsOut(base, skip, c, f, {}, won, n);
  }

  // ---------- one form: no walk ends clean ----------

  /** moves is a run of cursor moves a search entered with parity p can make. */
  ghost predicate StartsWith(moves: seq<Parity>, p: Parity) { moves == [] || moves[0] == p }

  lemma OneRoundDry(base: seq<int>, skip: nat, c: Parity, f: nat, won: set<Word>)
    requires skip <= f <= |base|
    ensures RunsDry(base, skip, c, f, {}, won, 1) <==> First(base, skip, f, 1 - c, f, {}, won) == None
  {
    var found := First(base, skip, f, 1 - c, f, {}, won);
    if found.Some? {
      assert !RunsDry(base, skip, found.value.1, f, {} + {Mask(found.value.0[..f])}, won, 0);
    }
  }

  /** No walk of the cursors from the regrouped ranking ends on a clean front. The walk of no moves is one of them:
      it ends on the regrouped front itself. */
  ghost predicate NoWalkIsClean(base: seq<int>, skip: nat, p: Parity, f: nat, won: set<Word>)
    requires skip <= f <= |base|
  {
    forall moves :: StartsWith(moves, p) ==> !Clean(Walk(base, skip, f, f, moves)[..f], won)
  }

  lemma NothingFoundExactly(base: seq<int>, skip: nat, p: Parity, f: nat, won: set<Word>)
    requires skip <= f <= |base|
    ensures First(base, skip, f, p, f, {}, won) == None <==> NoWalkIsClean(base, skip, p, f, won)
  {
    FirstIffWalk(base, skip, f, p, f, {}, won);
    if First(base, skip, f, p, f, {}, won).Some? {
      var moves :| WalkFinds(base, skip, f, p, f, {}, won, moves);
      assert StartsWith(moves, p) && Clean(Walk(base, skip, f, f, moves)[..f], won);
    } else {
      forall moves | StartsWith(moves, p) ensures !Clean(Walk(base, skip, f, f, moves)[..f], won) {
        assert !WalkFinds(base, skip, f, p, f, {}, won, moves);
      }
    }
  }

  /** For one form: exactly when no walk ends clean. */
  lemma OneFormExactly(base: seq<int>, skip: nat, c: Parity, f: nat, won: set<Word>)
    requires skip <= f <= |base| && Distinct(base) && Maskable(base)
    ensures EmitsPastWinner(base, skip, c, f, won, 1) <==> NoWalkIsClean(base, skip, 1 - c, f, won)
  {
    DirtyExactly(base, skip, c, f, {}, won, 1);
    OneRoundDry(base, skip, c, f, won);
    NothingFoundExactly(base, skip, 1 - c, f, won);
    if NoWalkIsClean(base, skip, 1 - c, f, won) {
      assert StartsWith([], 1 - c);
      assert Walk(base, skip, f, f, []) == base;
    }
  }

  /** The masks a script can give are those of the clean fronts its walks end on. */
  lemma ReachIsWalks(base: seq<int>, skip: nat, p: Parity, f: nat, won: set<Word>, m: Word)
    requires skip <= f <= |base|
    ensures m in Reach(base, skip, p, f, won) <==>
            exists moves :: StartsWith(moves, p) && Clean(Walk(base, skip, f, f, moves)[..f], won)
                            && Mask(Walk(base, skip, f, f, moves)[..f]) == m
  {
    var vs := Visits(base, skip, f, p, f);
    ScriptMembers(vs, won, m);
    if m in Reach(base, skip, p, f, won) {
      var i :| 0 <= i < |vs| && Clean(vs[i].0, won) && Mask(vs[i].0) == m;
      var moves := VisitIsWalk(base, skip, f, p, f, i);
      assert StartsWith(moves, p);
    }
    if moves :| StartsWith(moves, p) && Clean(Walk(base, skip, f, f, moves)[..f], won)
                && Mask(Walk(base, skip, f, f, moves)[..f]) == m {
      var i := WalkIsVisit(base, skip, f, p, f, moves);
      assert Clean(vs[i].0, won) && Mask(vs[i].0) == m;
    }
  }

  lemma {:induction false} ScriptMembers(vs: seq<(seq<int>, Parity)>, won: set<Word>, m: Word)
    ensures m in MasksOf(Script(vs, won)) <==> exists i :: 0 <= i < |vs| && Clean(vs[i].0, won) && Mask(vs[i].0) == m
  {
    if vs != [] {
      ScriptMembers(vs[1..], won, m);
      var rest := Script(vs[1..], won);
      assert forall i :: 0 <= i < |vs| - 1 ==> vs[1..][i] == vs[i + 1];
      if Clean(vs[0].0, won) {
        var s := [(Mask(vs[0].0), vs[0].1)] + rest;
        assert s[1..] == rest;
      }
    }
  }

  /** A later visit belongs to the first try or to the second. */
  lemma LaterVisit(t: seq<int>, start: nat, check: nat, c: Parity, f: nat, i: nat)
    requires start < f <= check < |t| && 0 < i
    ensures var s := Swap(t, start, check);
            var first := Visits(s, start + 1 - c, check + c, 1 - c, f);
            var second := Visits(s, start + 1 - c, check + c, c, f);
            && |Visits(t, start, check, c, f)| == 1 + |first| + |second|
            && (i < 1 + |first| ==> Visits(t, start, check, c, f)[i] == first[i - 1])
            && (1 + |first| <= i < 1 + |first| + |second| ==>
                  Visits(t, start, check, c, f)[i] == second[i - 1 - |first|])
  {
  }

  lemma WalkOneMore(t: seq<int>, start: nat, check: nat, c: Parity, f: nat, rest: seq<Parity>)
    requires start < f <= check < |t|
    ensures Walk(t, start, check, f, [c] + rest) == Walk(Swap(t, start, check), start + 1 - c, check + c, f, rest)
  {
    assert ([c] + rest)[1..] == rest;
  }

  /** What is visited later is visited after a move. */
  lemma VisitBefore(t: seq<int>, start: nat, check: nat, c: Parity, f: nat, i: nat) returns (next: Parity, j: nat)
    requires start <= f <= check <= |t| && 0 < i < |Visits(t, start, check, c, f)|
    ensures start < f && check < |t| && j < |Visits(Swap(t, start, check), start + 1 - c, check + c, next, f)|
    ensures Visits(t, start, check, c, f)[i] == Visits(Swap(t, start, check), start + 1 - c, check + c, next, f)[j]
  {
    var first := |Visits(Swap(t, start, check), start + 1 - c, check + c, 1 - c, f)|;
    LaterVisit(t, start, check, c, f, i);
    if i < 1 + first {
      next, j := 1 - c, i - 1;
    } else {
      next, j := c, i - 1 - first;
    }
  }

  lemma {:induction false} VisitIsWalk(t: seq<int>, start: nat, check: nat, c: Parity, f: nat, i: nat)
    returns (moves: seq<Parity>)
    requires start <= f <= check <= |t| && i < |Visits(t, start, check, c, f)|
    ensures StartsWith(moves, c) && Walk(t, start, check, f, moves)[..f] == Visits(t, start, check, c, f)[i].0
    decreases f - start + |t| - check
  {
    if i == 0 {
      moves := [];
    } else {
      var next, j := VisitBefore(t, start, check, c, f, i);
      var rest := VisitIsWalk(Swap(t, start, check), start + 1 - c, check + c, next, f, j);
      moves := [c] + rest;
      WalkOneMore(t, start, check, c, f, rest);
    }
  }

  /** What is visited after a move is visited. */
  lemma VisitAfterMove(t: seq<int>, start: nat, check: nat, c: Parity, f: nat, next: Parity, j: nat) returns (i: nat)
    requires start < f <= check < |t|
    requires j < |Visits(Swap(t, start, check), start + 1 - c, check + c, next, f)|
    ensures i < |Visits(t, start, check, c, f)|
    ensures Visits(t, start, check, c, f)[i] == Visits(Swap(t, start, check), start + 1 - c, check + c, next, f)[j]
  {
    i := if next == c then 1 + |Visits(Swap(t, start, check), start + 1 - c, check + c, 1 - c, f)| + j else 1 + j;
    LaterVisit(t, start, check, c, f, i);
  }

  /** The first move of a walk: the rest is a walk from there, and what is visited from there is visited. */
  lemma FirstMove(t: seq<int>, start: nat, check: nat, c: Parity, f: nat, moves: seq<Parity>)
    returns (s: seq<int>, next: Parity)
    requires start < f <= check < |t| && moves != [] && moves[0] == c
    ensures |s| == |t| && StartsWith(moves[1..], next)
    ensures Walk(t, start, check, f, moves) == Walk(s, start + 1 - c, check + c, f, moves[1..])
    ensures var after := Visits(s, start + 1 - c, check + c, next, f);
            forall j :: 0 <= j < |after| ==> after[j] in Visits(t, start, check, c, f)
  {
    s := Swap(t, start, check);
    next := if |moves| > 1 && moves[1] == c then c else 1 - c;
    var after := Visits(s, start + 1 - c, check + c, next, f);
    forall j | 0 <= j < |after| ensures after[j] in Visits(t, start, check, c, f) {
      var i := VisitAfterMove(t, start, check, c, f, next, j);
    }
  }

  lemma PlaceOf(vs: seq<(seq<int>, Parity)>, v: (seq<int>, Parity)) returns (i: nat)
    requires v in vs
    ensures i < |vs| && vs[i] == v
  {
    i :| 0 <= i < |vs| && vs[i] == v;
  }

  lemma StartIsVisited(t: seq<int>, start: nat, check: nat, c: Parity, f: nat, moves: seq<Parity>)
    requires start <= f <= check <= |t| && (moves == [] || start == f || check == |t|)
    ensures Visits(t, start, check, c, f) != []
    ensures Visits(t, start, check, c, f)[0].0 == Walk(t, start, check, f, moves)[..f]
  {
  }

  lemma {:induction false} WalkIsVisit(t: seq<int>, start: nat, check: nat, c: Parity, f: nat, moves: seq<Parity>)
    returns (i: nat)
    requires start <= f <= check <= |t| && StartsWith(moves, c)
    ensures i < |Visits(t, start, check, c, f)|
    ensures Visits(t, start, check, c, f)[i].0 == Walk(t, start, check, f, moves)[..f]
    decreases f - start + |t| - check
  {
    if moves == [] || start == f || check == |t| {
      StartIsVisited(t, start, check, c, f, moves);
      i := 0;
    } else {
      var s, next := FirstMove(t, start, check, c, f, moves);
      var j := WalkIsVisit(s, start + 1 - c, check + c, next, f, moves[1..]);
      i := PlaceOf(Visits(t, start, check, c, f), Visits(s, start + 1 - c, check + c, next, f)[j]);
    }
  }

  // ---------- many forms: counting what can be reached ----------

  lemma SubsetIsSmaller(a: set<Word>, b: set<Word>)
    ensures a <= b ==> |a| <= |b|
  {
    if a <= b { assert b == a + (b - a); }
  }

  /** While a script holds more masks than were emitted, its search succeeds. */
  lemma FindsWhileInReach(base: seq<int>, skip: nat, p: Parity, f: nat, seen: set<Word>, won: set<Word>)
    requires skip <= f <= |base| && |seen| < |Reach(base, skip, p, f, won)|
    ensures First(base, skip, f, p, f, seen, won).Some?
  {
    OneRound(base, skip, p, f, seen, won);
    FreshExactly(ScriptFrom(base, skip, p, f, won), seen);
    SubsetIsSmaller(Reach(base, skip, p, f, won), seen);
  }

  /** Each parity's walks reach as many clean sets of numbers as forms are emitted or still wanted. */
  ghost predicate EnoughInReach(base: seq<int>, skip: nat, f: nat, seen: set<Word>, won: set<Word>, n: nat)
    requires skip <= f <= |base|
  {
    |seen| + n <= |Reach(base, skip, 0, f, won)| && |seen| + n <= |Reach(base, skip, 1, f, won)|
  }

  /** Then every form is clean. */
  lemma {:induction false} CleanWhileInReach(base: seq<int>, skip: nat, c: Parity, f: nat, seen: set<Word>,
                                             won: set<Word>, n: nat, i: nat)
    requires skip <= f <= |base| && EnoughInReach(base, skip, f, seen, won, n)
    requires i < |Batch(base, skip, c, f, seen, won, n)|
    ensures Clean(Batch(base, skip, c, f, seen, won, n)[i], won)
    decreases n
  {
    FindsWhileInReach(base, skip, 1 - c, f, seen, won);
    FirstIsCandidate(base, skip, f, 1 - c, f, seen, won);
    var (t, d) := First(base, skip, f, 1 - c, f, seen, won).value;
    if i > 0 {
      assert |seen + {Mask(t[..f])}| <= |seen| + 1;
      CleanWhileInReach(base, skip, d, f, seen + {Mask(t[..f])}, won, n - 1, i - 1);
    }
  }

  /** More forms than both scripts hold fresh masks for: one of them runs out. */
  lemma {:induction false} TooManyRunsOut(scripts: (seq<(Word, Parity)>, seq<(Word, Parity)>), p: Parity,
                                          seen: set<Word>, n: nat)
    requires n > |(MasksOf(scripts.0) + MasksOf(scripts.1)) - seen|
    ensures RunsOut(scripts, p, seen, n)
    decreases n
  {
    var s := if p == 0 then scripts.0 else scripts.1;
    FreshExactly(s, seen);
    if NextFresh(s, seen).Some? {
      var (m, d) := NextFresh(s, seen).value;
      var left := (MasksOf(scripts.0) + MasksOf(scripts.1)) - seen;
      assert m in left && (MasksOf(scripts.0) + MasksOf(scripts.1)) - (seen + {m}) == left - {m};
      TooManyRunsOut(scripts, 1 - d, seen + {m}, n - 1);
    }
  }

  /** Both parities' walks together reach fewer than n clean sets of numbers. */
  ghost predicate TooFewInReach(base: seq<int>, skip: nat, f: nat, won: set<Word>, n: nat)
    requires skip <= f <= |base|
  {
    n > |Reach(base, skip, 0, f, won) + Reach(base, skip, 1, f, won)|
  }

  lemma ManyRunOut(base: seq<int>, skip: nat, p: Parity, f: nat, won: set<Word>, n: nat)
    requires skip <= f <= |base|
    ensures TooFewInReach(base, skip, f, won, n) ==> ScriptsRunOut(base, skip, p, f, won, n)
  {
    var both := Reach(base, skip, 0, f, won) + Reach(base, skip, 1, f, won);
    if n > |both| {
      assert both - {} == both;
      TooManyRunsOut(Scripts(base, skip, f, won), p, {}, n);
    }
  }

  /** No past winner while no more forms are asked for than each parity's walks can reach. */
  lemma FewFormsHoldNoPastWinner(base: seq<int>, skip: nat, c: Parity, f: nat, won: set<Word>, n: nat)
    requires skip <= f <= |base| && EnoughInReach(base, skip, f, {}, won, n)
    ensures !EmitsPastWinner(base, skip, c, f, won, n)
  {
    var batch := Batch(base, skip, c, f, {}, won, n);
    forall i | 0 <= i < |batch| ensures Clean(batch[i], won) {
      CleanWhileInReach(base, skip, c, f, {}, won, n, i);
    }
  }

  /** The regrouped front has won, and more forms are asked for than walks reach. */
  ghost predicate MoreThanReach(base: seq<int>, skip: nat, f: nat, won: set<Word>, n: nat)
    requires skip <= f <= |base|
  {
    Distinct(base) && Maskable(base) && !Clean(base[..f], won) && TooFewInReach(base, skip, f, won, n)
  }

  /** A past winner, if the regrouped front is one, once more forms are asked for than both parities' walks reach. */
  lemma ManyFormsHoldPastWinner(base: seq<int>, skip: nat, c: Parity, f: nat, won: set<Word>, n: nat)
    requires skip <= f <= |base| && MoreThanReach(base, skip, f, won, n)
    ensures EmitsPastWinner(base, skip, c, f, won, n)
  {
    if !EmitsPastWinner(base, skip, c, f, won, n) {
      ManyRunOut(base, skip, 1 - c, f, won, n);
      PastWinnerExactly(base, skip, c, f, won, n);
      assert false;
    }
  }

  // ---------- the exception happens ----------

  /** A complete draw of the six-number game. */
  ghost predicate SixNumbers(d: Draw) {
    |d.numbers| == 6 && Distinct(d.numbers) && Within(d.numbers, 1, MaxNumber(Lottery))
  }

  /** The exception happens: over an archive of one complete draw, asking for one six-number form
      returns the very combination that won. */
  lemma SingleDrawReturnsPastWinner(d: Draw, weak: bool, c: Parity)
    requires SixNumbers(d)
    ensures var ranked := NumberRanking(Lottery, [d], weak);
            && Regrouped(ranked, [], 0) == (ranked, 0) && |ranked| == 6
            && Elements(ranked) == Elements(d.numbers)
            && Batch(ranked, 0, c, 6, {}, WinningMasks([d]), 1) == [ranked]
            && !Clean(ranked, WinningMasks([d]))
  {
    var draws, ranked := [d], NumberRanking(Lottery, [d], weak);
    SingleDrawRanking(d, weak);
    SamePastWinner(d, ranked);
    var won := WinningMasks(draws);
    assert ranked[..6] == ranked;
    assert First(ranked, 0, 6, 1 - c, 6, {}, won) == None;
    assert Batch(ranked, 0, 1 - c, 6, {Mask(ranked)}, won, 0) == [];
  }

  lemma SingleDrawRanking(d: Draw, weak: bool)
    requires SixNumbers(d)
    ensures |NumberRanking(Lottery, [d], weak)| == 6
    ensures Elements(NumberRanking(Lottery, [d], weak)) == Elements(d.numbers)
  {
    var draws, ranked := [d], NumberRanking(Lottery, [d], weak);
    NumberRankingDistinct(Lottery, draws, weak);
    forall x ensures x in Elements(ranked) <==> x in Elements(d.numbers) {
      NumberRankingExact(Lottery, draws, weak, x);
      if x in d.numbers {
        assert x in draws[0].numbers;
        var i :| 0 <= i < 6 && d.numbers[i] == x;
      }
    }
    assert Elements(ranked) == Elements(d.numbers);
    DistinctSize(ranked);
    DistinctSize(d.numbers);
  }

  lemma SamePastWinner(d: Draw, form: seq<int>)
    requires |d.numbers| == 6 == |form| && Elements(form) == Elements(d.numbers)
    ensures !Clean(form, WinningMasks([d]))
  {
    assert d.numbers[..6] == d.numbers && [d][0] == d;
    CombosAll(form);
    assert Combos(form, MIN_FORM_SIZE)[0] == form;
    SortIntsSorts(d.numbers);
    SameElementsSameMask(SortInts(d.numbers), form);
    assert WinningMask([d][0]) in WinningMasks([d]);
  }

  // ---------- and it happens while clean forms remain ----------

  /** One number more than the form holds, the front a past winner, the front with its first number exchanged clean. */
  ghost predicate OneToSpare(base: seq<int>, f: nat, won: set<Word>) {
    && |base| == f + 1 && f > 0 && Distinct(base) && Maskable(base)
    && !Clean(base[..f], won) && Clean(Swap(base, 0, f)[..f], won)
  }

  /** One number more than the form holds, nothing pinned, a fresh generator: if the front has won and the front with
      its first number exchanged has not, two forms asked for are the exchanged front and then the past winner. */
  lemma NarrowBatch(base: seq<int>, f: nat, won: set<Word>)
    requires OneToSpare(base, f, won)
    ensures Batch(base, 0, 0, f, {}, won, 2) == [Swap(base, 0, f)[..f], base[..f]]
  {
    var s := Swap(base, 0, f);
    var seen := {Mask(s[..f])};
    assert First(base, 0, f, 1, f, {}, won) == Some((s, 0));
    SwapPermutes(base, 0, f);
    if Mask(base[..f]) in seen { SameMaskSameClean(base, 0, s, f, won); }
    assert First(s, 0, f + 1, 1, f, seen, won) == None && First(s, 0, f + 1, 0, f, seen, won) == None;
    assert First(base, 0, f, 1, f, seen, won) == None;
    assert Batch(base, 0, 0, f, seen, won, 1) == [base[..f]] + Batch(base, 0, 1, f, seen + {Mask(base[..f])}, won, 0);
    assert {} + {Mask(s[..f])} == seen;
  }

  /** Two complete draws with five numbers in common. */
  ghost predicate ShareFive(a: Draw, b: Draw) {
    && |a.numbers| == 6 && |b.numbers| == 6 && Ascending(a.numbers) && Ascending(b.numbers)
    && Within(a.numbers, 1, MaxNumber(Lottery)) && Within(b.numbers, 1, MaxNumber(Lottery))
    && |Shared(a, b)| == 5
  }

  function Shared(a: Draw, b: Draw): set<int> { Elements(a.numbers) * Elements(b.numbers) }

  function Either(a: Draw, b: Draw): set<int> { Elements(a.numbers) + Elements(b.numbers) }

  lemma ReadOnce(s: seq<int>, x: int)
    requires Ascending(s)
    ensures Embeddings(s, [x]) == if x in s then 1 else 0
  {
    assert Ascending([x]);
    EmbeddingsInDraw(s, [x]);
    assert Inside([x], Elements(s)) <==> [x][0] in Elements(s);
  }

  lemma DrawnTwice(a: Draw, b: Draw, x: int)
    requires ShareFive(a, b)
    ensures TimesDrawn([a, b], x) == (if x in a.numbers then 1 else 0) + (if x in b.numbers then 1 else 0)
  {
    var data, one := NumbersOf([a, b]), [b.numbers];
    assert data == [a.numbers, b.numbers] && data[1..] == one && one[1..] == [];
    ReadOnce(a.numbers, x);
    ReadOnce(b.numbers, x);
    assert TotalEmbeddings(one, [x]) == Embeddings(b.numbers, [x]);
  }

  lemma SevenNumbers(a: Draw, b: Draw)
    requires ShareFive(a, b)
    ensures |Either(a, b)| == 7
    ensures |Elements(a.numbers) - Elements(b.numbers)| == 1 && |Elements(b.numbers) - Elements(a.numbers)| == 1
  {
    var A, B := Elements(a.numbers), Elements(b.numbers);
    AscendingIsDistinct(a.numbers);
    AscendingIsDistinct(b.numbers);
    DistinctSize(a.numbers);
    DistinctSize(b.numbers);
    assert A == (A - B) + A * B && B == (B - A) + A * B;
    assert A + B == (A - B) + B;
  }

  lemma RankedIsEither(a: Draw, b: Draw, x: int)
    requires ShareFive(a, b)
    ensures x in NumberRanking(Lottery, [a, b], false) <==> x in Either(a, b)
  {
    var draws := [a, b];
    NumberRankingExact(Lottery, draws, false, x);
    assert x in a.numbers ==> x in draws[0].numbers;
    assert x in b.numbers ==> x in draws[1].numbers;
    InRange(a.numbers, x);
    InRange(b.numbers, x);
  }

  /** The ranking of two such draws, most often drawn first. */
  lemma RankingOfTwo(a: Draw, b: Draw) returns (ranked: seq<int>)
    requires ShareFive(a, b)
    ensures ranked == NumberRanking(Lottery, [a, b], false)
    ensures |ranked| == 7 && Distinct(ranked) && Maskable(ranked) && Elements(ranked) == Either(a, b)
    ensures ranked[0] in Shared(a, b) && ranked[6] !in Shared(a, b)
  {
    var draws := [a, b];
    ranked := NumberRanking(Lottery, draws, false);
    NumberRankingDistinct(Lottery, draws, false);
    forall x ensures x in Elements(ranked) <==> x in Either(a, b) { RankedIsEither(a, b, x); }
    assert Elements(ranked) == Either(a, b);
    DistinctSize(ranked);
    SevenNumbers(a, b);
    FrontAndBack(a, b, ranked);
  }

  lemma InRange(s: seq<int>, x: int)
    requires Within(s, 1, MaxNumber(Lottery))
    ensures x in s ==> 1 <= x <= MaxNumber(Lottery)
  {
  }

  lemma FrontAndBack(a: Draw, b: Draw, ranked: seq<int>)
    requires ShareFive(a, b) && ranked == NumberRanking(Lottery, [a, b], false)
    requires |ranked| == 7 && Elements(ranked) == Either(a, b)
    ensures ranked[0] in Shared(a, b) && ranked[6] !in Shared(a, b)
  {
    SevenNumbers(a, b);
    assert ranked[0] in Elements(ranked) && ranked[6] in Elements(ranked);
    DrawnTwice(a, b, ranked[0]);
    DrawnTwice(a, b, ranked[6]);
    var x :| x in Shared(a, b);
    var y :| y in Elements(a.numbers) - Elements(b.numbers);
    DrawnTwice(a, b, x);
    DrawnTwice(a, b, y);
    assert x in Elements(ranked) && y in Elements(ranked);
    var i :| 0 <= i < 7 && ranked[i] == x;
    var j :| 0 <= j < 7 && ranked[j] == y;
    if i > 0 { NumberRankingOrder(Lottery, [a, b], false, 0, i); }
    if j < 6 { NumberRankingOrder(Lottery, [a, b], false, j, 6); }
  }

  /** The first ranked number is the least shared one, the last the larger of the other two. */
  lemma LeastAndLargest(a: Draw, b: Draw, ranked: seq<int>, x: int)
    requires ShareFive(a, b) && ranked == NumberRanking(Lottery, [a, b], false)
    requires |ranked| == 7 && Elements(ranked) == Either(a, b)
    requires ranked[0] in Shared(a, b) && ranked[6] !in Shared(a, b) && x in Either(a, b)
    ensures if x in Shared(a, b) then ranked[0] <= x else x <= ranked[6]
  {
    assert x in Elements(ranked) && ranked[6] in Elements(ranked);
    var i :| 0 <= i < 7 && ranked[i] == x;
    DrawnTwice(a, b, x);
    DrawnTwice(a, b, ranked[0]);
    DrawnTwice(a, b, ranked[6]);
    if i > 0 { NumberRankingOrder(Lottery, [a, b], false, 0, i); }
    if i < 6 { NumberRankingOrder(Lottery, [a, b], false, i, 6); }
  }

  /** All numbers of the two draws but one: a draw again if that one is not shared, else no draw fits inside. */
  lemma AllButOne(a: Draw, b: Draw, x: int)
    requires ShareFive(a, b) && x in Either(a, b)
    ensures x in Shared(a, b) ==> HoldsNoWinner(Either(a, b) - {x}, [a, b])
    ensures x !in Shared(a, b) ==>
              Either(a, b) - {x} == Elements(a.numbers) || Either(a, b) - {x} == Elements(b.numbers)
  {
    var draws, A, B := [a, b], Elements(a.numbers), Elements(b.numbers);
    SevenNumbers(a, b);
    assert a.numbers[..6] == a.numbers && b.numbers[..6] == b.numbers;
    if x in Shared(a, b) {
      forall d | 0 <= d < |draws| ensures !(Elements(draws[d].numbers[..6]) <= Either(a, b) - {x}) {
        assert draws[d] == a || draws[d] == b;
        assert x in Elements(draws[d].numbers[..6]);
      }
    } else if x in A {
      OnlyMember(A - B, x);
      assert Either(a, b) - {x} == B;
    } else {
      OnlyMember(B - A, x);
      assert Either(a, b) - {x} == A;
    }
  }

  lemma OnlyMember(s: set<int>, x: int)
    requires |s| == 1 && x in s
    ensures s == {x}
  {
    assert |s - {x}| == 0;
  }

  /** A front of all ranked numbers but the last, or but the first. */
  lemma FrontSets(ranked: seq<int>)
    requires |ranked| == 7 && Distinct(ranked)
    ensures Elements(ranked[..6]) == Elements(ranked) - {ranked[6]}
    ensures Elements(Swap(ranked, 0, 6)[..6]) == Elements(ranked) - {ranked[0]} && Distinct(Swap(ranked, 0, 6)[..6])
  {
    var s := Swap(ranked, 0, 6);
    DistinctByIndex(ranked);
    SwapPermutes(ranked, 0, 6);
    DistinctPermutation(ranked, s);
    FrontDistinct(s, 6);
    SamePermutationSameElements(s, ranked);
    DistinctByIndex(s);
    assert ranked == ranked[..6] + [ranked[6]] && s == s[..6] + [s[6]];
    forall x ensures x in Elements(ranked[..6]) <==> x in Elements(ranked) - {ranked[6]} {
      if x in ranked[..6] { var i :| 0 <= i < 6 && ranked[i] == x; }
    }
    forall x ensures x in Elements(s[..6]) <==> x in Elements(ranked) - {ranked[0]} {
      if x in s[..6] { var i :| 0 <= i < 6 && s[i] == x; }
    }
  }

  /** A search runs dry while clean forms remain. Over any two complete draws that share five numbers, the most
      frequent numbers first, two six-number forms from a fresh generator are: all seven numbers but the first ranked,
      which is clean, and then one of the two past draws itself. Yet each of the four other shared numbers, left out
      of the seven, gives a form that is clean and was not emitted. */
  lemma TwoDrawsReturnPastWinner(a: Draw, b: Draw)
    requires ShareFive(a, b)
    ensures var ranked, won := NumberRanking(Lottery, [a, b], false), WinningMasks([a, b]);
            && |ranked| == 7 && Regrouped(ranked, [], 0) == (ranked, 0) && ranked[0] in Shared(a, b)
            && var forms := Batch(ranked, 0, 0, 6, {}, won, 2);
               && |forms| == 2 && Elements(forms[0]) == Either(a, b) - {ranked[0]} && Clean(forms[0], won)
               && Elements(forms[1]) == Either(a, b) - {ranked[6]}
               && (Elements(forms[1]) == Elements(a.numbers) || Elements(forms[1]) == Elements(b.numbers))
               && !Clean(forms[1], won)
    ensures forall x :: x in Shared(a, b) ==> HoldsNoWinner(Either(a, b) - {x}, [a, b])
  {
    var draws, won := [a, b], WinningMasks([a, b]);
    var ranked := RankingOfTwo(a, b);
    forall x | x in Shared(a, b) ensures HoldsNoWinner(Either(a, b) - {x}, draws) { AllButOne(a, b, x); }
    FrontSets(ranked);
    FrontIsADraw(a, b, ranked);
    FrontIsDirty(a, b, ranked);
    ExchangedIsClean(a, b, ranked);
    NarrowBatch(ranked, 6, won);
  }

  lemma TwoDrawsMaskable(a: Draw, b: Draw)
    requires ShareFive(a, b)
    ensures MaskableDraws([a, b])
  {
    assert a.numbers[..6] == a.numbers && b.numbers[..6] == b.numbers;
    assert forall d :: 0 <= d < 2 ==> [a, b][d] == a || [a, b][d] == b;
  }

  lemma FrontIsADraw(a: Draw, b: Draw, ranked: seq<int>)
    requires ShareFive(a, b) && |ranked| == 7 && Distinct(ranked)
    requires Elements(ranked) == Either(a, b) && ranked[6] !in Shared(a, b)
    ensures Elements(ranked[..6]) == Elements(a.numbers) || Elements(ranked[..6]) == Elements(b.numbers)
  {
    FrontSets(ranked);
    assert ranked[6] in Elements(ranked);
    AllButOne(a, b, ranked[6]);
  }

  /** A form that is one of the past draws. */
  lemma PastDrawIsDirty(d: Draw, draws: seq<Draw>, form: seq<int>)
    requires d in draws && |d.numbers| == 6 && Distinct(d.numbers) && MaskableDraws(draws)
    requires Distinct(form) && Maskable(form) && Elements(form) == Elements(d.numbers)
    ensures !Clean(form, WinningMasks(draws))
  {
    var i :| 0 <= i < |draws| && draws[i] == d;
    assert d.numbers[..6] == d.numbers;
    DistinctSize(d.numbers);
    CleanMeans(form, draws);
  }

  lemma FrontIsDirty(a: Draw, b: Draw, ranked: seq<int>)
    requires ShareFive(a, b) && |ranked| == 7 && Distinct(ranked) && Maskable(ranked)
    requires Elements(ranked[..6]) == Elements(a.numbers) || Elements(ranked[..6]) == Elements(b.numbers)
    ensures !Clean(ranked[..6], WinningMasks([a, b]))
  {
    TwoDrawsMaskable(a, b);
    FrontDistinct(ranked, 6);
    AscendingIsDistinct(a.numbers);
    AscendingIsDistinct(b.numbers);
    if Elements(ranked[..6]) == Elements(a.numbers) {
      PastDrawIsDirty(a, [a, b], ranked[..6]);
    } else {
      PastDrawIsDirty(b, [a, b], ranked[..6]);
    }
  }

  lemma ExchangedIsClean(a: Draw, b: Draw, ranked: seq<int>)
    requires ShareFive(a, b) && |ranked| == 7 && Distinct(ranked) && Maskable(ranked)
    requires Elements(ranked) == Either(a, b) && ranked[0] in Shared(a, b)
    ensures Clean(Swap(ranked, 0, 6)[..6], WinningMasks([a, b]))
  {
    FrontSets(ranked);
    AllButOne(a, b, ranked[0]);
    TwoDrawsMaskable(a, b);
    CleanMeans(Swap(ranked, 0, 6)[..6], [a, b]);
  }

  lemma SixAscend(s: seq<int>)
    requires |s| == 6 && s[0] < s[1] < s[2] < s[3] < s[4] < s[5]
    ensures Ascending(s)
  {
    AscendingByIndex(s);
  }

  ghost predicate ExampleDraws(a: Draw, b: Draw) {
    a.numbers == [1, 2, 3, 4, 5, 6] && b.numbers == [1, 2, 3, 4, 6, 7]
  }

  lemma ExampleShared(a: seq<int>, b: seq<int>)
    requires a == [1, 2, 3, 4, 5, 6] && b == [1, 2, 3, 4, 6, 7]
    ensures Elements(a) * Elements(b) == {1, 2, 3, 4, 6}
  {
  }

  lemma ExampleEither(a: seq<int>, b: seq<int>)
    requires a == [1, 2, 3, 4, 5, 6] && b == [1, 2, 3, 4, 6, 7]
    ensures Elements(a) + Elements(b) == {1, 2, 3, 4, 5, 6, 7}
  {
  }

  lemma ExampleWithout(all: set<int>)
    requires all == {1, 2, 3, 4, 5, 6, 7}
    ensures all - {1} == {2, 3, 4, 5, 6, 7} && all - {7} == {1, 2, 3, 4, 5, 6}
  {
  }

  lemma ExampleFive(s: set<int>)
    requires s == {1, 2, 3, 4, 6}
    ensures |s| == 5
  {
  }

  lemma ExampleSharesFive(a: Draw, b: Draw)
    requires ExampleDraws(a, b)
    ensures ShareFive(a, b)
  {
    SixAscend(a.numbers);
    SixAscend(b.numbers);
    assert |Shared(a, b)| == 5 by {
      ExampleShared(a.numbers, b.numbers);
      ExampleFive(Shared(a, b));
    }
  }

  lemma ExampleRanking(a: Draw, b: Draw) returns (ranked: seq<int>)
    requires ExampleDraws(a, b)
    ensures ranked == NumberRanking(Lottery, [a, b], false) && |ranked| == 7 && ranked[0] == 1 && ranked[6] == 7
  {
    ExampleSharesFive(a, b);
    ranked := RankingOfTwo(a, b);
    ExampleShared(a.numbers, b.numbers);
    ExampleEither(a.numbers, b.numbers);
    LeastAndLargest(a, b, ranked, 1);
    LeastAndLargest(a, b, ranked, 7);
    assert ranked[6] in Elements(ranked);
  }

  /** For instance: after the draws {1..6} and {1, 2, 3, 4, 6, 7} the two forms are {2..7} and {1..6}. */
  lemma TwoDrawsExample(a: Draw, b: Draw)
    requires ExampleDraws(a, b)
    ensures var ranked := NumberRanking(Lottery, [a, b], false);
            |ranked| == 7
            && var forms := Batch(ranked, 0, 0, 6, {}, WinningMasks([a, b]), 2);
               |forms| == 2 && Elements(forms[0]) == {2, 3, 4, 5, 6, 7} && Elements(forms[1]) == {1, 2, 3, 4, 5, 6}
  {
    ExampleSharesFive(a, b);
    var ranked := ExampleRanking(a, b);
    TwoDrawsReturnPastWinner(a, b);
    ExampleEither(a.numbers, b.numbers);
    ExampleWithout(Either(a, b));
  }
}
