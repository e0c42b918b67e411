/** The backtracking generator of forms that have not won before. */
module FormGenerators {
  import opened Combinatorics
  import opened CombinationLoop
  import opened ComboMasks
  import opened Options
  import opened TreeModel
  import opened LotteryTree
  import opened LotteryArchives
  import opened DateWindow

  const MIN_FORM_SIZE := 6

  /** The branching parity. */
  type Parity = c: nat | c < 2

  // ---------- candidates ----------

  function Swap(t: seq<int>, i: nat, j: nat): (r: seq<int>)
    requires i < |t| && j < |t|
    ensures |r| == |t|
  {
    t[i := t[j]][j := t[i]]
  }

  lemma SwapTwice(t: seq<int>, i: nat, j: nat)
    requires i < |t| && j < |t|
    ensures Swap(Swap(t, i, j), i, j) == t
  {
  }

  lemma SwapPermutes(t: seq<int>, i: nat, j: nat)
    requires i < |t| && j < |t|
    ensures multiset(Swap(t, i, j)) == multiset(t)
  {
  }

  /** None of the six-number combinations playable from the form has won. */
  ghost predicate Clean(form: seq<int>, won: set<Word>) {
    forall i :: 0 <= i < |Combos(form, MIN_FORM_SIZE)| ==> Mask(Combos(form, MIN_FORM_SIZE)[i]) !in won
  }

  /** The first f entries are unseen in this batch and clean. */
  ghost predicate Acceptable(t: seq<int>, f: nat, seen: set<Word>, won: set<Word>)
    requires f <= |t|
  {
    Mask(t[..f]) !in seen && Clean(t[..f], won)
  }

  // ---------- the search as a function ----------

  /** The first acceptable candidate from t, and the parity the search stops with. The parity c is the one after
      the flip on entry: it decides which cursor moves, and both tries below move the same cursor, one with each
      parity, because a failed search always flips the parity an odd number of times. */
  ghost function First(t: seq<int>, start: nat, check: nat, c: Parity, f: nat, seen: set<Word>, won: set<Word>)
    : (r: Option<(seq<int>, Parity)>)
    requires start <= f <= check <= |t|
    ensures r.Some? ==> |r.value.0| == |t|
    decreases f - start + |t| - check
  {
    if Acceptable(t, f, seen, won) then Some((t, c))
    else if start == f || check == |t| then None
    else
      var next := First(Swap(t, start, check), start + 1 - c, check + c, 1 - c, f, seen, won);
      if next.Some? then next
      else First(Swap(t, start, check), start + 1 - c, check + c, c, f, seen, won)
  }

  /** A finished search from t entered with parity c (after the flip): found, list and parity left behind. */
  ghost predicate SearchEnds(t: seq<int>, start: nat, check: nat, c: Parity, f: nat, seen: set<Word>, won: set<Word>,
                             found: bool, r: seq<int>, d: Parity)
    requires start <= f <= check <= |t|
  {
    var first := First(t, start, check, c, f, seen, won);
    if found then first == Some((r, d)) else first == None && r == t && d == c
  }

  lemma SearchEndsAtOnce(t: seq<int>, start: nat, check: nat, c: Parity, f: nat, seen: set<Word>, won: set<Word>)
    requires start <= f <= check <= |t|
    ensures Acceptable(t, f, seen, won) ==> SearchEnds(t, start, check, c, f, seen, won, true, t, c)
    ensures !Acceptable(t, f, seen, won) && (start == f || check == |t|) ==>
              SearchEnds(t, start, check, c, f, seen, won, false, t, c)
  {
  }

  /** The first try decides when it succeeds; otherwise the second, with the same cursors, does. */
  lemma SearchTries(t: seq<int>, start: nat, check: nat, c: Parity, f: nat, seen: set<Word>, won: set<Word>,
                    found: bool, r: seq<int>, d: Parity, second: bool)
    requires start < f <= check < |t| && !Acceptable(t, f, seen, won)
    requires second ==> First(Swap(t, start, check), start + 1 - c, check + c, 1 - c, f, seen, won) == None
    requires SearchEnds(Swap(t, start, check), start + 1 - c, check + c, if second then c else 1 - c, f, seen, won,
                        found, r, d)
    requires found || second
    ensures SearchEnds(t, start, check, c, f, seen, won, found, if found then r else t, d)
  {
  }

  /** r is a permutation of t with the first `start` entries in place and an acceptable front. */
  ghost predicate IsCandidate(t: seq<int>, start: nat, f: nat, seen: set<Word>, won: set<Word>, r: seq<int>)
    requires start <= f <= |t|
  {
    |r| == |t| && multiset(r) == multiset(t) && r[..start] == t[..start] && Acceptable(r, f, seen, won)
  }

  /** A search that goes on past t hands back what one of its two tries does. */
  lemma TryThatFinds(t: seq<int>, start: nat, check: nat, c: Parity, f: nat, seen: set<Word>, won: set<Word>)
    returns (s: seq<int>, d: Parity)
    requires start <= f <= check <= |t| && !Acceptable(t, f, seen, won)
    requires First(t, start, check, c, f, seen, won).Some?
    ensures start < f && check < |t| == |s| && multiset(s) == multiset(t) && s[..start] == t[..start]
    ensures First(t, start, check, c, f, seen, won) == First(s, start + 1 - c, check + c, d, f, seen, won)
  {
    s := Swap(t, start, check);
    SwapPermutes(t, start, check);
    d := if First(s, start + 1 - c, check + c, 1 - c, f, seen, won).Some? then 1 - c else c;
  }

  lemma CandidateAfter(t: seq<int>, s: seq<int>, start: nat, later: nat, f: nat, seen: set<Word>, won: set<Word>,
                       r: seq<int>)
    requires start <= later <= f <= |t| == |s| && multiset(s) == multiset(t) && s[..start] == t[..start]
    ensures IsCandidate(s, later, f, seen, won, r) ==> IsCandidate(t, start, f, seen, won, r)
  {
    if |r| == |t| { assert r[..later][..start] == r[..start] && s[..later][..start] == s[..start]; }
  }

  /** What the search hands back. */
  lemma {:induction false} FirstIsCandidate(t: seq<int>, start: nat, check: nat, c: Parity, f: nat, seen: set<Word>,
                                            won: set<Word>)
    requires start <= f <= check <= |t|
    requires First(t, start, check, c, f, seen, won).Some?
    ensures IsCandidate(t, start, f, seen, won, First(t, start, check, c, f, seen, won).value.0)
    decreases f - start + |t| - check
  {
    if !Acceptable(t, f, seen, won) {
      var s, d := TryThatFinds(t, start, check, c, f, seen, won);
      FirstIsCandidate(s, start + 1 - c, check + c, d, f, seen, won);
      CandidateAfter(t, s, start, start + 1 - c, f, seen, won, First(t, start, check, c, f, seen, won).value.0);
    }
  }

  /** The candidate reached by a run of moves: swap the two cursors' entries, then advance `start` (move 0)
      or `check` (move 1). */
  function Walk(t: seq<int>, start: nat, check: nat, f: nat, moves: seq<Parity>): (r: seq<int>)
    requires start <= f <= check <= |t|
    ensures |r| == |t|
    decreases |moves|
  {
    if moves == [] || start == f || check == |t| then t
    else Walk(Swap(t, start, check), start + 1 - moves[0], check + moves[0], f, moves[1..])
  }

  ghost predicate WalkFinds(t: seq<int>, start: nat, check: nat, c: Parity, f: nat, seen: set<Word>, won: set<Word>,
                            moves: seq<Parity>)
    requires start <= f <= check <= |t|
  {
    (moves == [] || moves[0] == c) && Acceptable(Walk(t, start, check, f, moves), f, seen, won)
  }

  /** The search succeeds exactly when some monotone walk of the cursors, its first move fixed by the parity
      and all later moves free, ends on an acceptable candidate. */
  lemma {:induction false} FirstIffWalk(t: seq<int>, start: nat, check: nat, c: Parity, f: nat, seen: set<Word>,
                                        won: set<Word>)
    requires start <= f <= check <= |t|
    ensures First(t, start, check, c, f, seen, won).Some? <==>
            exists moves :: WalkFinds(t, start, check, c, f, seen, won, moves)
    decreases f - start + |t| - check
  {
    if Acceptable(t, f, seen, won) {
      assert WalkFinds(t, start, check, c, f, seen, won, []);
    } else if start < f && check < |t| {
      var s, start', check' := Swap(t, start, check), start + 1 - c, check + c;
      FirstIffWalk(s, start', check', 1 - c, f, seen, won);
      FirstIffWalk(s, start', check', c, f, seen, won);
      if exists moves :: WalkFinds(t, start, check, c, f, seen, won, moves) {
        var moves :| WalkFinds(t, start, check, c, f, seen, won, moves);
        var d, rest := WalkHead(t, start, check, c, f, seen, won, moves);
      }
      if First(t, start, check, c, f, seen, won).Some? {
        var d: Parity := if First(s, start', check', 1 - c, f, seen, won).Some? then 1 - c else c;
        var moves :| WalkFinds(s, start', check', d, f, seen, won, moves);
        WalkCons(t, start, check, c, f, seen, won, d, moves);
      }
    } else {
      forall moves ensures Walk(t, start, check, f, moves) == t {}
    }
  }

  lemma WalkHead(t: seq<int>, start: nat, check: nat, c: Parity, f: nat, seen: set<Word>, won: set<Word>,
                 moves: seq<Parity>)
    returns (d: Parity, rest: seq<Parity>)
    requires start < f <= check < |t| && !Acceptable(t, f, seen, won)
    requires WalkFinds(t, start, check, c, f, seen, won, moves)
    ensures WalkFinds(Swap(t, start, check), start + 1 - c, check + c, d, f, seen, won, rest)
  {
    rest := moves[1..];
    d := if rest == [] then c else rest[0];
  }

  lemma WalkCons(t: seq<int>, start: nat, check: nat, c: Parity, f: nat, seen: set<Word>, won: set<Word>, d: Parity,
                 moves: seq<Parity>)
    requires start < f <= check < |t|
    requires WalkFinds(Swap(t, start, check), start + 1 - c, check + c, d, f, seen, won, moves)
    ensures WalkFinds(t, start, check, c, f, seen, won, [c] + moves)
  {
    assert ([c] + moves)[1..] == moves;
  }

  /** The contract of a finished search: restored on failure; on success a permutation with the pinned entries
      in place and an acceptable front; and success exactly when some walk of the cursors finds one. */
  lemma SearchContract(t: seq<int>, start: nat, check: nat, c: Parity, f: nat, seen: set<Word>, won: set<Word>,
                       found: bool, r: seq<int>, d: Parity)
    requires start <= f <= check <= |t| && SearchEnds(t, start, check, c, f, seen, won, found, r, d)
    ensures found ==> IsCandidate(t, start, f, seen, won, r)
    ensures !found ==> r == t && d == c
    ensures found <==> exists moves :: WalkFinds(t, start, check, c, f, seen, won, moves)
  {
    if found { FirstIsCandidate(t, start, check, c, f, seen, won); }
    FirstIffWalk(t, start, check, c, f, seen, won);
  }

  // ---------- pinning the requested numbers ----------

  /** The first position from `start` on that holds `want`, or |t|. */
  function IndexFrom(t: seq<int>, want: int, start: nat): (j: nat)
    requires start <= |t|
    ensures start <= j <= |t|
    ensures j < |t| ==> t[j] == want
    ensures forall i :: start <= i < j ==> t[i] != want
    decreases |t| - start
  {
    if start == |t| || t[start] == want then start else IndexFrom(t, want, start + 1)
  }

  /** The candidate list with the requested numbers moved to the front, and how many were found. */
  function Regrouped(t: seq<int>, willBe: seq<int>, start: nat): (r: (seq<int>, nat))
    requires start <= |t|
    ensures |r.0| == |t| && start <= r.1 <= |t|
    decreases |willBe|
  {
    if willBe == [] then (t, start)
    else
      var j := IndexFrom(t, willBe[0], start);
      if j == |t| then Regrouped(t, willBe[1..], start)
      else Regrouped(Swap(t, start, j), willBe[1..], start + 1)
  }

  lemma {:induction false} RegroupedPermutes(t: seq<int>, willBe: seq<int>, start: nat)
    requires start <= |t|
    ensures multiset(Regrouped(t, willBe, start).0) == multiset(t)
    decreases |willBe|
  {
    if willBe != [] {
      var j := IndexFrom(t, willBe[0], start);
      if j == |t| {
        RegroupedPermutes(t, willBe[1..], start);
      } else {
        SwapPermutes(t, start, j);
        RegroupedPermutes(Swap(t, start, j), willBe[1..], start + 1);
      }
    }
  }

  lemma SamePermutationSameElements(a: seq<int>, b: seq<int>)
    requires multiset(a) == multiset(b)
    ensures forall x :: x in a <==> x in b
  {
    forall x ensures x in a <==> x in b {
      assert x in a <==> x in multiset(a);
      assert x in b <==> x in multiset(b);
    }
  }

  /** The pinned front is exactly the numbers pinned before plus the requested ones that are in the list. */
  lemma {:induction false} RegroupedPins(t: seq<int>, willBe: seq<int>, start: nat, x: int)
    requires start <= |t|
    ensures var (r, skip) := Regrouped(t, willBe, start);
            x in r[..skip] <==> x in t[..start] || (x in willBe && x in t)
    decreases |willBe|
  {
    if willBe != [] {
      Uncons(willBe);
      var want := willBe[0];
      var j := IndexFrom(t, want, start);
      if j == |t| {
        RegroupedPins(t, willBe[1..], start, x);
        if want in t {
          var i :| 0 <= i < |t| && t[i] == want;
          assert t[..start][i] == want;
        }
      } else {
        var s := Swap(t, start, j);
        RegroupedPins(s, willBe[1..], start + 1, x);
        SwapPermutes(t, start, j);
        SamePermutationSameElements(s, t);
        assert s[..start + 1] == t[..start] + [want];
      }
    }
  }

  /** Every ranked number that is not requested and lies behind the pinned front keeps its rank. */
  lemma {:induction false} RegroupedKeepsRanks(t: seq<int>, willBe: seq<int>, start: nat, i: nat)
    requires start <= |t| && Regrouped(t, willBe, start).1 <= i < |t| && t[i] !in willBe
    ensures Regrouped(t, willBe, start).0[i] == t[i]
    decreases |willBe|
  {
    if willBe != [] {
      Uncons(willBe);
      var j := IndexFrom(t, willBe[0], start);
      if j == |t| {
        RegroupedKeepsRanks(t, willBe[1..], start, i);
      } else {
        RegroupedKeepsRanks(Swap(t, start, j), willBe[1..], start + 1, i);
      }
    }
  }

  /** Of the requested numbers, those still `left`, each at its first request. */
  function Requested(willBe: seq<int>, left: set<int>): seq<int> {
    if willBe == [] then []
    else if willBe[0] in left then [willBe[0]] + Requested(willBe[1..], left - {willBe[0]})
    else Requested(willBe[1..], left)
  }

  lemma {:induction false} RegroupedOrderFrom(t: seq<int>, willBe: seq<int>, start: nat)
    requires start <= |t| && Distinct(t)
    ensures var (r, skip) := Regrouped(t, willBe, start);
            r[..skip] == t[..start] + Requested(willBe, Elements(t[start..]))
    decreases |willBe|
  {
    if willBe == [] {
      assert t[..start] + [] == t[..start];
    } else {
      var want, rest := willBe[0], willBe[1..];
      var j := IndexFrom(t, want, start);
      InBack(t, start, want, j);
      if j == |t| {
        RegroupedOrderFrom(t, rest, start);
      } else {
        var s := PinnedOne(t, start, j);
        RegroupedOrderFrom(s, rest, start + 1);
        Associated(t[..start], [want], Requested(rest, Elements(s[start + 1..])));
      }
    }
  }

  lemma Associated(a: seq<int>, b: seq<int>, c: seq<int>)
    ensures a + b + c == a + (b + c)
  {
  }

  lemma InBack(t: seq<int>, start: nat, want: int, j: nat)
    requires start <= |t| && j == IndexFrom(t, want, start)
    ensures want in Elements(t[start..]) <==> j < |t|
  {
    if want in t[start..] {
      var i :| 0 <= i < |t| - start && t[start..][i] == want;
      assert t[start + i] == want;
    }
    if j < |t| { assert t[start..][j - start] == want; }
  }

  lemma BackElements(s: seq<int>, n: nat)
    requires Distinct(s) && n <= |s|
    ensures Elements(s[n..]) == Elements(s) - Elements(s[..n])
  {
    DistinctByIndex(s);
    assert s == s[..n] + s[n..];
    forall x | x in s[n..] ensures x !in s[..n] {
      var i :| 0 <= i < |s| - n && s[n..][i] == x;
      assert s[n + i] == x;
    }
  }

  lemma FrontAfterSwap(t: seq<int>, start: nat, j: nat)
    requires start <= j < |t|
    ensures Swap(t, start, j)[..start + 1] == t[..start] + [t[j]]
  {
  }

  lemma OneElementMore(a: seq<int>, x: int)
    ensures Elements(a + [x]) == Elements(a) + {x}
  {
  }

  /** One number pinned by one swap. */
  lemma PinnedOne(t: seq<int>, start: nat, j: nat) returns (s: seq<int>)
    requires start <= j < |t| && Distinct(t)
    ensures s == Swap(t, start, j) && |s| == |t| && Distinct(s) && s[..start + 1] == t[..start] + [t[j]]
    ensures Elements(s[start + 1..]) == Elements(t[start..]) - {t[j]}
  {
    s := Swap(t, start, j);
    SwapPermutes(t, start, j);
    DistinctPermutation(t, s);
    SameElements(t, s);
    FrontAfterSwap(t, start, j);
    OneElementMore(t[..start], t[j]);
    BackElements(s, start + 1);
    BackElements(t, start);
  }

  lemma SameElements(a: seq<int>, b: seq<int>)
    requires multiset(a) == multiset(b)
    ensures Elements(a) == Elements(b)
  {
    SamePermutationSameElements(a, b);
    forall x ensures x in Elements(a) <==> x in Elements(b) {
      assert x in a <==> x in b;
    }
  }

  /** The front lists the requested numbers that are ranked, in the order of the request, each once. */
  lemma RegroupedInOrder(t: seq<int>, willBe: seq<int>)
    requires Distinct(t)
    ensures var (r, skip) := Regrouped(t, willBe, 0); r[..skip] == Requested(willBe, Elements(t))
  {
    RegroupedOrderFrom(t, willBe, 0);
    assert t[0..] == t && t[..0] == [];
    assert [] + Requested(willBe, Elements(t)) == Requested(willBe, Elements(t));
  }

  /** One request more exchanges exactly two numbers, or none if it is not ranked behind the front. */
  lemma {:induction false} RegroupedOneMore(t: seq<int>, willBe: seq<int>, want: int, start: nat)
    requires start <= |t|
    ensures var (r, skip) := Regrouped(t, willBe, start);
            var j := IndexFrom(r, want, skip);
            Regrouped(t, willBe + [want], start) == if j == |t| then (r, skip) else (Swap(r, skip, j), skip + 1)
    decreases |willBe|
  {
    if willBe == [] {
      assert [] + [want] == [want] && [want][1..] == [];
    } else {
      var j := IndexFrom(t, willBe[0], start);
      assert (willBe + [want])[0] == willBe[0] && (willBe + [want])[1..] == willBe[1..] + [want];
      if j == |t| {
        RegroupedOneMore(t, willBe[1..], want, start);
      } else {
        RegroupedOneMore(Swap(t, start, j), willBe[1..], want, start + 1);
      }
    }
  }

  lemma {:induction false} DistinctCounts(a: seq<int>, x: int)
    requires Distinct(a)
    ensures multiset(a)[x] <= 1
  {
    if a != [] {
      assert a == [a[0]] + a[1..];
      Uncons(a);
      DistinctCounts(a[1..], x);
    }
  }

  lemma {:induction false} CountsDistinct(b: seq<int>)
    requires forall x: int :: multiset(b)[x] <= 1
    ensures Distinct(b)
  {
    if b != [] {
      var rest := b[1..];
      assert b == [b[0]] + rest;
      assert forall x: int :: multiset(b)[x] == multiset(rest)[x] + (if x == b[0] then 1 else 0);
      CountsDistinct(rest);
      forall i | 1 <= i < |b| ensures b[i] != b[0] {
        assert rest[i - 1] in multiset(rest);
      }
    }
  }

  lemma DistinctPermutation(a: seq<int>, b: seq<int>)
    requires multiset(a) == multiset(b) && Distinct(a)
    ensures Distinct(b)
  {
    forall x: int ensures multiset(b)[x] <= 1 { DistinctCounts(a, x); }
    CountsDistinct(b);
  }

  /** A front of a list without repeats is without repeats. */
  lemma FrontDistinct(a: seq<int>, f: nat)
    requires Distinct(a) && f <= |a|
    ensures Distinct(a[..f])
  {
    DistinctByIndex(a);
    DistinctByIndex(a[..f]);
  }

  /** How many entries get pinned: the requested numbers present in the ranking. */
  lemma PinCount(t: seq<int>, willBe: seq<int>)
    requires Distinct(t)
    ensures Regrouped(t, willBe, 0).1 == |Elements(willBe) * Elements(t)|
  {
    var (r, skip) := Regrouped(t, willBe, 0);
    RegroupedPermutes(t, willBe, 0);
    DistinctPermutation(t, r);
    FrontDistinct(r, skip);
    DistinctSize(r[..skip]);
    forall x ensures x in Elements(r[..skip]) <==> x in Elements(willBe) * Elements(t) {
      RegroupedPins(t, willBe, 0, x);
    }
    assert Elements(r[..skip]) == Elements(willBe) * Elements(t);
  }

  // ---------- a whole batch ----------

  /** The leading candidates emitted from the regrouped base, n more to go. */
  ghost function Batch(base: seq<int>, skip: nat, c: Parity, f: nat, seen: set<Word>, won: set<Word>,
                       n: nat): seq<seq<int>>
    requires skip <= f <= |base|
    decreases n
  {
    if n == 0 then []
    else
      match First(base, skip, f, 1 - c, f, seen, won)
      case Some((t, d)) => [t[..f]] + Batch(base, skip, d, f, seen + {Mask(t[..f])}, won, n - 1)
      case None =>
        if Mask(base[..f]) in seen then []
        else [base[..f]] + Batch(base, skip, 1 - c, f, seen + {Mask(base[..f])}, won, n - 1)
  }

  /** Some search of the batch comes back empty-handed. */
  ghost predicate RunsDry(base: seq<int>, skip: nat, c: Parity, f: nat, seen: set<Word>, won: set<Word>, n: nat)
    requires skip <= f <= |base|
    decreases n
  {
    n > 0 &&
    match First(base, skip, f, 1 - c, f, seen, won)
    case None => true
    case Some((t, d)) => RunsDry(base, skip, d, f, seen + {Mask(t[..f])}, won, n - 1)
  }

  /** One emitted front: drawn from the list without repeats, pinned numbers in place. */
  ghost predicate IsFront(base: seq<int>, skip: nat, f: nat, lead: seq<int>)
    requires skip <= f <= |base|
  {
    && |lead| == f && lead[..skip] == base[..skip]
    && Distinct(lead) && (forall i :: 0 <= i < f ==> lead[i] in base)
  }

  lemma FrontOf(base: seq<int>, skip: nat, f: nat, t: seq<int>)
    requires skip <= f <= |base| && Distinct(base)
    requires |t| == |base| && multiset(t) == multiset(base) && t[..skip] == base[..skip]
    ensures IsFront(base, skip, f, t[..f])
  {
    DistinctPermutation(base, t);
    FrontDistinct(t, f);
    SamePermutationSameElements(t, base);
    assert t[..f][..skip] == t[..skip];
    assert forall i :: 0 <= i < f ==> t[..f][i] == t[i] && t[i] in t;
  }

  /** A search that succeeds leaves an unseen clean front. */
  lemma LeadFound(base: seq<int>, skip: nat, p: Parity, f: nat, seen: set<Word>, won: set<Word>, t: seq<int>, d: Parity)
    requires skip <= f <= |base| && Distinct(base) && First(base, skip, f, p, f, seen, won) == Some((t, d))
    ensures |t| == |base| && IsFront(base, skip, f, t[..f]) && Mask(t[..f]) !in seen && Clean(t[..f], won)
  {
    FirstIsCandidate(base, skip, f, p, f, seen, won);
    FrontOf(base, skip, f, t);
  }

  /** Every member of the batch is a front, unseen when emitted; it is clean or it is the base. */
  lemma {:induction false} BatchMember(base: seq<int>, skip: nat, c: Parity, f: nat, seen: set<Word>, won: set<Word>,
                                       n: nat, i: nat)
    requires skip <= f <= |base| && Distinct(base)
    requires i < |Batch(base, skip, c, f, seen, won, n)|
    ensures var lead := Batch(base, skip, c, f, seen, won, n)[i];
            IsFront(base, skip, f, lead) && Mask(lead) !in seen && (Clean(lead, won) || lead == base[..f])
    decreases n
  {
    var found := First(base, skip, f, 1 - c, f, seen, won);
    if found.Some? {
      var (t, d) := found.value;
      LeadFound(base, skip, 1 - c, f, seen, won, t, d);
      if i > 0 { BatchMember(base, skip, d, f, seen + {Mask(t[..f])}, won, n - 1, i - 1); }
    } else {
      FrontOf(base, skip, f, base);
      if i > 0 { BatchMember(base, skip, 1 - c, f, seen + {Mask(base[..f])}, won, n - 1, i - 1); }
    }
  }

  /** A clean regrouped front is the first form: the requested numbers, then the ranking from the top. */
  lemma FirstFormIsTop(base: seq<int>, skip: nat, c: Parity, f: nat, won: set<Word>, n: nat)
    requires skip <= f <= |base| && n > 0 && Clean(base[..f], won)
    ensures |Batch(base, skip, c, f, {}, won, n)| > 0 && Batch(base, skip, c, f, {}, won, n)[0] == base[..f]
  {
    assert First(base, skip, f, 1 - c, f, {}, won) == Some((base, 1 - c));
  }

  lemma {:induction false} BatchSize(base: seq<int>, skip: nat, c: Parity, f: nat, seen: set<Word>, won: set<Word>,
                                     n: nat)
    requires skip <= f <= |base|
    ensures |Batch(base, skip, c, f, seen, won, n)| <= n
    decreases n
  {
    if n > 0 {
      var found := First(base, skip, f, 1 - c, f, seen, won);
      if found.Some? {
        BatchSize(base, skip, found.value.1, f, seen + {Mask(found.value.0[..f])}, won, n - 1);
      } else if Mask(base[..f]) !in seen {
        BatchSize(base, skip, 1 - c, f, seen + {Mask(base[..f])}, won, n - 1);
      }
    }
  }

  /** No two members share a mask. */
  lemma {:induction false} BatchMasksDiffer(base: seq<int>, skip: nat, c: Parity, f: nat, seen: set<Word>,
                                            won: set<Word>, n: nat, i: nat, j: nat)
    requires skip <= f <= |base| && Distinct(base)
    requires i < j < |Batch(base, skip, c, f, seen, won, n)|
    ensures Mask(Batch(base, skip, c, f, seen, won, n)[i]) != Mask(Batch(base, skip, c, f, seen, won, n)[j])
    decreases n
  {
    var found := First(base, skip, f, 1 - c, f, seen, won);
    var lead := if found.Some? then found.value.0[..f] else base[..f];
    var d: Parity := if found.Some? then found.value.1 else 1 - c;
    if i == 0 {
      BatchMember(base, skip, d, f, seen + {Mask(lead)}, won, n - 1, j - 1);
    } else {
      BatchMasksDiffer(base, skip, d, f, seen + {Mask(lead)}, won, n - 1, i - 1, j - 1);
    }
  }

  /** Whether a form is clean depends on its numbers only. */
  lemma CleanIsSetProperty(a: seq<int>, b: seq<int>, won: set<Word>)
    requires Distinct(a) && Distinct(b) && Elements(a) == Elements(b) && Clean(a, won)
    ensures Clean(b, won)
  {
    var cs := Combos(b, MIN_FORM_SIZE);
    forall i | 0 <= i < |cs| ensures Mask(cs[i]) !in won {
      CombosMember(b, MIN_FORM_SIZE, cs[i]);
      DistinctSize(cs[i]);
      var S := Elements(cs[i]);
      InsideIsSubset(cs[i], Elements(b));
      CombosCoverSets(a, S);
      SameElementsSameMask(cs[i], Keep(a, S));
      var j :| 0 <= j < |Combos(a, MIN_FORM_SIZE)| && Combos(a, MIN_FORM_SIZE)[j] == Keep(a, S);
    }
  }

  lemma SameMaskSameClean(base: seq<int>, skip: nat, t: seq<int>, f: nat, won: set<Word>)
    requires skip <= f <= |base| && Distinct(base) && Maskable(base)
    requires |t| == |base| && multiset(t) == multiset(base) && t[..skip] == base[..skip]
    requires Mask(base[..f]) == Mask(t[..f]) && Clean(t[..f], won)
    ensures Clean(base[..f], won)
  {
    FrontOf(base, skip, f, t);
    FrontDistinct(base, f);
    forall i | 0 <= i < f ensures 1 <= t[..f][i] <= 63 { assert t[..f][i] in base; }
    MaskIsSet(base[..f], t[..f]);
    CleanIsSetProperty(t[..f], base[..f], won);
  }

  /** Some form of the batch holds a past winner. */
  ghost predicate AnyDirty(batch: seq<seq<int>>, won: set<Word>) {
    exists i :: 0 <= i < |batch| && !Clean(batch[i], won)
  }

  /** A round whose search succeeds: the claim for the remaining rounds is the claim for all. */
  lemma DirtyAfterSuccess(base: seq<int>, skip: nat, c: Parity, f: nat, seen: set<Word>, won: set<Word>, n: nat,
                          t: seq<int>, d: Parity)
    requires skip <= f <= |base| == |t| && Distinct(base) && Maskable(base) && n > 0
    requires First(base, skip, f, 1 - c, f, seen, won) == Some((t, d))
    requires var more := seen + {Mask(t[..f])};
             AnyDirty(Batch(base, skip, d, f, more, won, n - 1), won) <==>
             !Clean(base[..f], won) && Mask(base[..f]) !in more && RunsDry(base, skip, d, f, more, won, n - 1)
    ensures AnyDirty(Batch(base, skip, c, f, seen, won, n), won) <==>
            !Clean(base[..f], won) && Mask(base[..f]) !in seen && RunsDry(base, skip, c, f, seen, won, n)
  {
    FirstIsCandidate(base, skip, f, 1 - c, f, seen, won);
    DirtyTail(Batch(base, skip, c, f, seen, won, n), t[..f],
              Batch(base, skip, d, f, seen + {Mask(t[..f])}, won, n - 1), won);
    if Mask(base[..f]) == Mask(t[..f]) { SameMaskSameClean(base, skip, t, f, won); }
  }

  /** A past winner is emitted precisely when the base form has won before and some search of the batch runs dry. */
  lemma {:induction false} DirtyExactly(base: seq<int>, skip: nat, c: Parity, f: nat, seen: set<Word>, won: set<Word>,
                                        n: nat)
    requires skip <= f <= |base| && Distinct(base) && Maskable(base)
    ensures AnyDirty(Batch(base, skip, c, f, seen, won, n), won) <==>
            !Clean(base[..f], won) && Mask(base[..f]) !in seen && RunsDry(base, skip, c, f, seen, won, n)
    decreases n
  {
    if n > 0 {
      var found := First(base, skip, f, 1 - c, f, seen, won);
      if found.Some? {
        var (t, d) := found.value;
        DirtyExactly(base, skip, d, f, seen + {Mask(t[..f])}, won, n - 1);
        DirtyAfterSuccess(base, skip, c, f, seen, won, n, t, d);
      } else if Mask(base[..f]) !in seen {
        assert Batch(base, skip, c, f, seen, won, n)[0] == base[..f];
        assert !Acceptable(base, f, seen, won);
      }
    }
  }

  lemma DirtyTail(batch: seq<seq<int>>, lead: seq<int>, rest: seq<seq<int>>, won: set<Word>)
    requires batch == [lead] + rest && Clean(lead, won)
    ensures AnyDirty(batch, won) <==> AnyDirty(rest, won)
  {
    if AnyDirty(rest, won) {
      var i :| 0 <= i < |rest| && !Clean(rest[i], won);
      assert batch[i + 1] == rest[i];
    }
    if AnyDirty(batch, won) {
      var i :| 0 <= i < |batch| && !Clean(batch[i], won);
      assert i > 0 && rest[i - 1] == batch[i];
    }
  }

  // ---------- the emitted forms ----------

  /** A recorded form: the numbers sorted, the strong number appended. */
  function Form(lead: seq<int>, strong: int): seq<int> { SortInts(lead) + [strong] }

  function Forms(leads: seq<seq<int>>, strong: int): (r: seq<seq<int>>)
    ensures |r| == |leads|
    ensures forall i :: 0 <= i < |r| ==> r[i] == Form(leads[i], strong)
  {
    seq(|leads|, i requires 0 <= i < |leads| => Form(leads[i], strong))
  }

  lemma FormsAppend(leads: seq<seq<int>>, lead: seq<int>, strong: int)
    ensures Forms(leads + [lead], strong) == Forms(leads, strong) + [Form(lead, strong)]
  {
  }

  /** What a client may rely on for one form. */
  ghost predicate GoodForm(form: seq<int>, ranked: seq<int>, willBe: seq<int>, f: nat, strong: int) {
    && |form| == f + 1 && form[f] == strong
    && Ascending(form[..f])
    && (forall x :: x in Elements(form[..f]) ==> x in ranked)
    && (forall x :: x in willBe && x in ranked ==> x in Elements(form[..f]))
  }

  /** The batch guarantee: bounded size, well-made forms, pairwise different as sets, none a past winner
      except possibly the base form. */
  lemma GenerateGuarantee(ranked: seq<int>, willBe: seq<int>, c: Parity, f: nat, won: set<Word>, howMany: nat,
                          strong: int)
    requires Distinct(ranked) && Maskable(ranked) && f <= |ranked|
    requires |Elements(willBe) * Elements(ranked)| <= f
    ensures Regrouped(ranked, willBe, 0).1 <= f
    ensures var (base, skip) := Regrouped(ranked, willBe, 0);
            var forms := Forms(Batch(base, skip, c, f, {}, won, howMany), strong);
            && |forms| <= howMany
            && (forall i :: 0 <= i < |forms| ==> GoodForm(forms[i], ranked, willBe, f, strong))
            && (forall i, j :: 0 <= i < j < |forms| ==> Elements(forms[i][..f]) != Elements(forms[j][..f]))
            && (forall i :: 0 <= i < |forms| ==>
                  Clean(forms[i][..f], won) || Elements(forms[i][..f]) == Elements(base[..f]))
  {
    var (base, skip) := Regrouped(ranked, willBe, 0);
    PinCount(ranked, willBe);
    RegroupedPermutes(ranked, willBe, 0);
    DistinctPermutation(ranked, base);
    var leads := Batch(base, skip, c, f, {}, won, howMany);
    var forms := Forms(leads, strong);
    BatchSize(base, skip, c, f, {}, won, howMany);
    forall i | 0 <= i < |forms|
      ensures GoodForm(forms[i], ranked, willBe, f, strong)
      ensures Clean(forms[i][..f], won) || Elements(forms[i][..f]) == Elements(base[..f])
      ensures Elements(forms[i][..f]) == Elements(leads[i])
    {
      BatchMember(base, skip, c, f, {}, won, howMany, i);
      FormIsGood(ranked, willBe, f, leads[i], strong);
      if Clean(leads[i], won) { CleanIsSetProperty(leads[i], forms[i][..f], won); }
    }
    forall i, j | 0 <= i < j < |forms| ensures Elements(forms[i][..f]) != Elements(forms[j][..f]) {
      BatchMasksDiffer(base, skip, c, f, {}, won, howMany, i, j);
      if Elements(leads[i]) == Elements(leads[j]) { SameElementsSameMask(leads[i], leads[j]); }
    }
  }

  lemma FormIsGood(ranked: seq<int>, willBe: seq<int>, f: nat, lead: seq<int>, strong: int)
    requires Distinct(ranked) && f <= |ranked|
    requires var (base, skip) := Regrouped(ranked, willBe, 0); skip <= f && IsFront(base, skip, f, lead)
    ensures GoodForm(Form(lead, strong), ranked, willBe, f, strong)
    ensures Elements(Form(lead, strong)[..f]) == Elements(lead) && Distinct(Form(lead, strong)[..f])
  {
    var (base, skip) := Regrouped(ranked, willBe, 0);
    RegroupedPermutes(ranked, willBe, 0);
    SamePermutationSameElements(base, ranked);
    SortIntsSorts(lead);
    assert Form(lead, strong)[..f] == SortInts(lead);
    AscendingIsDistinct(SortInts(lead));
    forall x | x in willBe && x in ranked ensures x in Elements(lead) {
      RegroupedPins(ranked, willBe, 0, x);
      assert x in lead[..skip];
    }
    forall x | x in Elements(lead) ensures x in ranked {
      var i :| 0 <= i < |lead| && lead[i] == x;
      assert lead[i] in base;
    }
  }

  /** The draws' winning numbers fit the mask. */
  ghost predicate MaskableDraws(draws: seq<Draw>) {
    forall d :: 0 <= d < |draws| && |draws[d].numbers| >= 6 ==> Maskable(draws[d].numbers[..6])
  }

  /** No complete draw has all its six numbers in S. */
  ghost predicate HoldsNoWinner(S: set<int>, draws: seq<Draw>) {
    forall d :: 0 <= d < |draws| && |draws[d].numbers| >= 6 && |Elements(draws[d].numbers[..6])| == 6 ==>
      !(Elements(draws[d].numbers[..6]) <= S)
  }

  /** A form is clean exactly when no past draw's six numbers all lie in it. */
  lemma CleanMeans(form: seq<int>, draws: seq<Draw>)
    requires Distinct(form) && Maskable(form) && MaskableDraws(draws)
    ensures Clean(form, WinningMasks(draws)) <==> HoldsNoWinner(Elements(form), draws)
  {
    var cs := Combos(form, MIN_FORM_SIZE);
    forall i | 0 <= i < |cs|
      ensures Maskable(cs[i]) && Elements(cs[i]) <= Elements(form) && |Elements(cs[i])| == 6
    {
      CombosMember(form, MIN_FORM_SIZE, cs[i]);
      DistinctSize(cs[i]);
      InsideIsSubset(cs[i], Elements(form));
      forall j | 0 <= j < |cs[i]| ensures 1 <= cs[i][j] <= 63 { assert cs[i][j] in Elements(form); }
    }
    if Clean(form, WinningMasks(draws)) {
      forall d | 0 <= d < |draws| && |draws[d].numbers| >= 6 && |Elements(draws[d].numbers[..6])| == 6
        ensures !(Elements(draws[d].numbers[..6]) <= Elements(form))
      {
        var S := Elements(draws[d].numbers[..6]);
        if S <= Elements(form) {
          CombosCoverSets(form, S);
          var i :| 0 <= i < |cs| && cs[i] == Keep(form, S);
          HasWonMeans(draws, cs[i]);
          assert WonBy(draws[d], cs[i]);
        }
      }
    } else {
      var i :| 0 <= i < |cs| && Mask(cs[i]) in WinningMasks(draws);
      HasWonMeans(draws, cs[i]);
      var d :| 0 <= d < |draws| && WonBy(draws[d], cs[i]);
    }
  }

  /** What a batch delivers, in terms of the draws: at most so many well-made forms, pairwise different as sets of
      numbers, none holding a past winner except possibly the numbers of the regrouped front. */
  ghost predicate Delivers(forms: seq<seq<int>>, howMany: nat, ranked: seq<int>, willBe: seq<int>, f: nat, strong: int,
                           draws: seq<Draw>)
    requires f <= |ranked|
  {
    && |forms| <= howMany
    && (forall i :: 0 <= i < |forms| ==> GoodForm(forms[i], ranked, willBe, f, strong))
    && (forall i, j :: 0 <= i < j < |forms| ==> Elements(forms[i][..f]) != Elements(forms[j][..f]))
    && (forall i :: 0 <= i < |forms| ==>
          || HoldsNoWinner(Elements(forms[i][..f]), draws)
          || Elements(forms[i][..f]) == Elements(Regrouped(ranked, willBe, 0).0[..f]))
  }

  lemma BatchDelivers(ranked: seq<int>, willBe: seq<int>, c: Parity, f: nat, draws: seq<Draw>, howMany: nat,
                      strong: int)
    requires Distinct(ranked) && Maskable(ranked) && f <= |ranked| && MaskableDraws(draws)
    requires Regrouped(ranked, willBe, 0).1 <= f && |Elements(willBe) * Elements(ranked)| <= f
    ensures var (base, skip) := Regrouped(ranked, willBe, 0);
            Delivers(Forms(Batch(base, skip, c, f, {}, WinningMasks(draws), howMany), strong),
                     howMany, ranked, willBe, f, strong, draws)
  {
    var (base, skip) := Regrouped(ranked, willBe, 0);
    var forms := Forms(Batch(base, skip, c, f, {}, WinningMasks(draws), howMany), strong);
    GenerateGuarantee(ranked, willBe, c, f, WinningMasks(draws), howMany, strong);
    forall i | 0 <= i < |forms| && Clean(forms[i][..f], WinningMasks(draws))
      ensures HoldsNoWinner(Elements(forms[i][..f]), draws)
    {
      GoodFormMaskable(forms[i], ranked, willBe, f, strong);
      CleanMeans(forms[i][..f], draws);
    }
  }

  /** Outside the 1-70 game every ranked number fits the mask. */
  lemma RankingMaskable(lottery: LotteryType, draws: seq<Draw>, weak: bool)
    requires lottery != TripleSeven
    ensures Maskable(NumberRanking(lottery, draws, weak))
  {
    NumberRankingDistinct(lottery, draws, weak);
  }

  lemma GoodFormMaskable(form: seq<int>, ranked: seq<int>, willBe: seq<int>, f: nat, strong: int)
    requires Maskable(ranked) && GoodForm(form, ranked, willBe, f, strong)
    ensures Distinct(form[..f]) && Maskable(form[..f])
  {
    AscendingIsDistinct(form[..f]);
    forall i | 0 <= i < f ensures 1 <= form[..f][i] <= 63 {
      assert form[..f][i] in Elements(form[..f]);
    }
  }

  // ---------- the generator ----------

  lemma Shifted(leads: seq<seq<int>>, lead: seq<int>, next: seq<seq<int>>)
    ensures leads + ([lead] + next) == leads + [lead] + next
  {
  }

  class FormGenerator {
    const archive: LotteryArchive
    const formType: nat
    const mode: string

    var tries: array<int>
    var strong: int
    var results: seq<seq<int>>
    var seen: set<Word>
    var skip: nat
    var caseL: Parity

    constructor (archive: LotteryArchive, formType: int, mode: string)
      ensures this.archive == archive && this.mode == mode
      ensures this.formType == (if formType < MIN_FORM_SIZE then MIN_FORM_SIZE else formType)
      ensures caseL == 0 && results == [] && seen == {} && fresh(tries)
    {
      this.archive, this.mode := archive, mode;
      this.formType := if formType < MIN_FORM_SIZE then MIN_FORM_SIZE else formType;
      tries := new int[0];
      strong, results, seen, skip, caseL := 0, [], {}, 0, 0;
    }

    method Leading() returns (lead: seq<int>)
      ensures formType <= tries.Length ==> lead == tries[..formType]
      ensures formType > tries.Length ==> lead == tries[..]
    {
      var size := formType;
      if size > tries.Length {
        size := tries.Length;
      }
      lead := tries[..size];
    }

    method NotInResults() returns (ok: bool)
      requires formType <= tries.Length
      ensures ok <==> Mask(tries[..formType]) !in seen
    {
      var lead := Leading();
      var mask := ComboMask(lead);
      ok := mask !in seen;
    }

    method AllFormsCheck() returns (ok: bool)
      requires formType <= tries.Length
      ensures ok <==> Clean(tries[..formType], archive.WinningCombos)
    {
      var lead := Leading();
      var combos := GenerateCombinations(lead, MIN_FORM_SIZE);
      ok := NoneWon(combos);
    }

    method NoneWon(combos: seq<seq<int>>) returns (ok: bool)
      ensures ok <==> forall i :: 0 <= i < |combos| ==> Mask(combos[i]) !in archive.WinningCombos
    {
      for i := 0 to |combos|
        invariant forall j :: 0 <= j < i ==> Mask(combos[j]) !in archive.WinningCombos
      {
        var won := archive.HasWon(combos[i]);
        if won {
          return false;
        }
      }
      return true;
    }

    method Accepts() returns (ok: bool)
      requires formType <= tries.Length
      ensures ok <==> Acceptable(tries[..], formType, seen, archive.WinningCombos)
    {
      assert tries[..][..formType] == tries[..formType];
      ok := NotInResults();
      if ok {
        ok := AllFormsCheck();
      }
    }

    method SwapTries(i: nat, j: nat)
      requires i < tries.Length && j < tries.Length
      modifies tries
      ensures tries[..] == Swap(old(tries[..]), i, j)
    {
      tries[i], tries[j] := tries[j], tries[i];
    }

    /** Backtracking by swaps: on failure the list is restored, on success it is left at the candidate. */
    method Search(start: nat, check: nat) returns (found: bool)
      requires start <= formType <= check <= tries.Length
      modifies `caseL, tries
      ensures SearchEnds(old(tries[..]), start, check, 1 - old(caseL), formType, seen, archive.WinningCombos,
                         found, tries[..], caseL)
      decreases formType - start + tries.Length - check, 1
    {
      caseL := (caseL + 1) % 2;
      SearchEndsAtOnce(tries[..], start, check, caseL, formType, seen, archive.WinningCombos);
      found := Accepts();
      if found {
        return true;
      }
      if start == formType || check == tries.Length {
        return false;
      }
      found := TryBoth(start, check);
    }

    /** The rest of the search, past a candidate that is not acceptable. */
    method TryBoth(start: nat, check: nat) returns (found: bool)
      requires start < formType <= check < tries.Length
      requires !Acceptable(tries[..], formType, seen, archive.WinningCombos)
      modifies `caseL, tries
      ensures SearchEnds(old(tries[..]), start, check, old(caseL), formType, seen, archive.WinningCombos,
                         found, tries[..], caseL)
      decreases formType - start + tries.Length - check, 0
    {
      ghost var t, c, won := tries[..], caseL, archive.WinningCombos;
      SwapTries(start, check);
      found := Search(start + (caseL + 1) % 2, check + caseL);
      if found {
        SearchTries(t, start, check, c, formType, seen, won, true, tries[..], caseL, false);
        return true;
      }
      assert caseL == 1 - c && (caseL + 1) % 2 == c;  // an unsuccessful search leaves the parity flipped
      found := Search(start + caseL, check + (caseL + 1) % 2);
      SearchTries(t, start, check, c, formType, seen, won, found, tries[..], caseL, true);
      if found {
        return true;
      }
      SwapTries(start, check);
      SwapTwice(t, start, check);
      return false;
    }

    method Regroup(willBe: seq<int>)
      modifies `skip, tries
      ensures (tries[..], skip) == Regrouped(old(tries[..]), willBe, 0)
    {
      skip := 0;
      if |willBe| == 0 {
        return;
      }
      var start := 0;
      for i := 0 to |willBe|
        invariant start <= tries.Length
        invariant Regrouped(tries[..], willBe[i..], start) == Regrouped(old(tries[..]), willBe, 0)
      {
        var want := willBe[i];
        var j := start;
        while j < tries.Length && tries[j] != want
          invariant start <= j <= tries.Length
          invariant IndexFrom(tries[..], want, start) == IndexFrom(tries[..], want, j)
        {
          j := j + 1;
        }
        assert willBe[i..][0] == want && willBe[i..][1..] == willBe[i + 1..];
        if j < tries.Length {
          ghost var t := tries[..];
          tries[start], tries[j] := tries[j], tries[start];
          assert tries[..] == Swap(t, start, j);
          start := start + 1;
        }
      }
      skip := start;
    }

    /** Record the current front unless it was already emitted. */
    method AddResult() returns (added: bool)
      requires 0 < formType <= tries.Length
      modifies `seen, `results
      ensures var lead := tries[..formType];
              && (added <==> Mask(lead) !in old(seen))
              && (added ==> seen == old(seen) + {Mask(lead)} && results == old(results) + [Form(lead, strong)])
              && (!added ==> seen == old(seen) && results == old(results))
    {
      var lead := Leading();
      if |lead| == 0 {
        return false;
      }
      var combo := SortInts(lead);
      var mask := ComboMask(combo);
      SortIntsSorts(lead);
      SameElementsSameMask(combo, lead);
      if mask in seen {
        return false;
      }
      seen := seen + {mask};
      results := results + [combo + [strong]];
      return true;
    }

    ghost function Ranking(): seq<int> { NumberRanking(archive.Type, archive.Draws, mode == WEAK) }

    method Generate(howMany: int, willBe: seq<int>) returns (forms: seq<seq<int>>)
      requires archive.Valid() && formType >= MIN_FORM_SIZE
      requires formType <= |Ranking()| ==> |Elements(willBe) * Elements(Ranking())| <= formType
      modifies this
      ensures howMany <= 0 || |Ranking()| < formType ==> forms == []
      ensures howMany > 0 ==>
                if archive.Type == Lottery
                then IsTopStrong(archive.Draws, mode == WEAK, MAX_STRONG, strong)
                else strong == 0
      ensures howMany > 0 && formType <= |Ranking()| ==>
                var (base, pinned) := Regrouped(Ranking(), willBe, 0);
                pinned <= formType &&
                forms == Forms(Batch(base, pinned, old(caseL), formType, {}, archive.WinningCombos, howMany), strong)
      ensures howMany > 0 && formType <= |Ranking()| && archive.Type != TripleSeven && MaskableDraws(archive.Draws) ==>
                Delivers(forms, howMany, Ranking(), willBe, formType, strong, archive.Draws)
    {
      if howMany <= 0 {
        return [];
      }
      var ranked := Prepare();
      if |ranked| < formType {
        return [];
      }
      PinCount(ranked, willBe);
      ghost var c := caseL;
      Fill(howMany, ranked, willBe);
      forms := results;
      if archive.Type != TripleSeven && MaskableDraws(archive.Draws) {
        RankingMaskable(archive.Type, archive.Draws, mode == WEAK);
        BatchDelivers(ranked, willBe, c, formType, archive.Draws, howMany, strong);
      }
    }

    /** The ranking and the strong number, read once from the archive; fresh working state. */
    method Prepare() returns (ranked: seq<int>)
      requires archive.Valid()
      modifies this
      ensures ranked == Ranking() && Distinct(ranked) && fresh(tries)
      ensures if archive.Type == Lottery
              then IsTopStrong(archive.Draws, mode == WEAK, MAX_STRONG, strong)
              else strong == 0
      ensures caseL == old(caseL)
      ensures formType <= |ranked| ==> tries.Length == |ranked| && results == [] && seen == {}
    {
      ranked := archive.RankNumbers(mode);
      var top := archive.TopStrong(mode);
      NumberRankingDistinct(archive.Type, archive.Draws, mode == WEAK);
      strong := top;
      tries := new int[|ranked|];
      results, seen := [], {};
    }

    /** The loop of Generate. */
    method Fill(howMany: nat, ranked: seq<int>, willBe: seq<int>)
      requires 0 < formType <= |ranked| == tries.Length && results == [] && seen == {}
      requires Regrouped(ranked, willBe, 0).1 <= formType
      modifies this, tries
      ensures tries == old(tries) && strong == old(strong)
      ensures var (base, pinned) := Regrouped(ranked, willBe, 0);
              results == Forms(Batch(base, pinned, old(caseL), formType, {}, archive.WinningCombos, howMany), strong)
    {
      ghost var (base, pinned) := Regrouped(ranked, willBe, 0);
      ghost var won := archive.WinningCombos;
      ghost var all := Batch(base, pinned, caseL, formType, {}, won, howMany);
      ghost var leads, rest: seq<seq<int>> := [], all;
      assert leads + rest == all;
      for i := 0 to howMany
        invariant tries == old(tries) && strong == old(strong)
        invariant results == Forms(leads, strong)
        invariant all == leads + rest
        invariant rest == Batch(base, pinned, caseL, formType, seen, won, howMany - i)
      {
        var added, lead := Round(ranked, willBe, howMany - i);
        if !added {
          break;
        }
        FormsAppend(leads, lead, strong);
        ghost var next := Batch(base, pinned, caseL, formType, seen, won, howMany - i - 1);
        Shifted(leads, lead, next);
        leads, rest := leads + [lead], next;
      }
      assert rest == [] && leads + rest == leads;
    }

    /** One iteration: restore the ranking, pin, search, record. */
    method Round(ranked: seq<int>, willBe: seq<int>, ghost n: nat) returns (added: bool, ghost lead: seq<int>)
      requires 0 < formType <= |ranked| == tries.Length && n > 0
      requires Regrouped(ranked, willBe, 0).1 <= formType
      modifies this, tries
      ensures tries == old(tries) && strong == old(strong)
      ensures results == if added then old(results) + [Form(lead, strong)] else old(results)
      ensures var (base, pinned) := Regrouped(ranked, willBe, 0);
              Batch(base, pinned, old(caseL), formType, old(seen), archive.WinningCombos, n) ==
              if added then [lead] + Batch(base, pinned, caseL, formType, seen, archive.WinningCombos, n - 1) else []
    {
      ghost var (base, pinned) := Regrouped(ranked, willBe, 0);
      CopyTries(ranked);
      Regroup(willBe);
      var found := Search(skip, formType);
      lead := tries[..formType];
      added := AddResult();
      BatchStep(base, pinned, old(caseL), formType, old(seen), archive.WinningCombos, n, found, tries[..], caseL);
    }

    method CopyTries(ranked: seq<int>)
      requires |ranked| == tries.Length
      modifies tries
      ensures tries[..] == ranked
    {
      for i := 0 to tries.Length
        invariant tries[..i] == ranked[..i]
      {
        tries[i] := ranked[i];
      }
    }
  }

  /** One round of the batch, in terms of how its search ended. */
  lemma BatchStep(base: seq<int>, skip: nat, c: Parity, f: nat, seen: set<Word>, won: set<Word>, n: nat,
                  found: bool, r: seq<int>, d: Parity)
    requires skip <= f <= |base| == |r| && n > 0
    requires SearchEnds(base, skip, f, 1 - c, f, seen, won, found, r, d)
    ensures found ==> Mask(r[..f]) !in seen
    ensures Batch(base, skip, c, f, seen, won, n) ==
            if Mask(r[..f]) in seen then []
            else [r[..f]] + Batch(base, skip, d, f, seen + {Mask(r[..f])}, won, n - 1)
  {
    if found { FirstIsCandidate(base, skip, f, 1 - c, f, seen, won); }
  }
}
