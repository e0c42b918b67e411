/** Strictly increasing number groups, their enumeration and their counting.

    Everything the counting tree, the form analysis and the backtest promise is a
    statement about `Combos`: the k-element subsequences of a list of numbers, by
    position, in lexicographic order of positions. */
module Combinatorics {

  // ---------- binomial coefficients ----------

  /** Pascal's recurrence. */
  function Binom(n: nat, k: nat): nat {
    if k == 0 then 1 else if n == 0 then 0 else Binom(n - 1, k - 1) + Binom(n - 1, k)
  }

  lemma {:induction false} BinomZero(n: nat, k: nat)
    requires n < k
    ensures Binom(n, k) == 0
  {
    if n > 0 {
      BinomZero(n - 1, k - 1);
      BinomZero(n - 1, k);
    }
  }

  lemma {:induction false} BinomFull(n: nat)
    ensures Binom(n, n) == 1
  {
    if n > 0 {
      BinomFull(n - 1);
      BinomZero(n - 1, n);
    }
  }

  /** The absorption identity behind the exact division of the binomial loop. */
  lemma {:induction false} BinomAbsorb(n: nat, k: nat)
    requires k <= n
    ensures (k + 1) * Binom(n, k + 1) == (n - k) * Binom(n, k)
  {
    if n == 0 {
    } else if k == n {
      BinomZero(n, k + 1);
    } else if k == 0 {
      BinomAbsorb(n - 1, 0);
    } else {
      BinomAbsorb(n - 1, k);
      BinomAbsorb(n - 1, k - 1);
      AbsorbStep(n, k, Binom(n - 1, k + 1), Binom(n - 1, k), Binom(n - 1, k - 1));
    }
  }

  lemma AbsorbStep(n: int, k: int, a: int, b: int, c: int)
    requires (k + 1) * a == (n - 1 - k) * b
    requires k * b == (n - k) * c
    ensures (k + 1) * (b + a) == (n - k) * (c + b)
  {
    calc {
      (k + 1) * (b + a);
      (k + 1) * b + (k + 1) * a;
      (k + 1) * b + (n - 1 - k) * b;
      (k + 1 + n - 1 - k) * b;
      (k + (n - k)) * b;
      k * b + (n - k) * b;
      (n - k) * c + (n - k) * b;
    }
  }

  lemma {:induction false} BinomSymmetric(n: nat, k: nat)
    requires k <= n
    ensures Binom(n, k) == Binom(n, n - k)
  {
    if k == 0 {
      BinomFull(n);
    } else if k == n {
      BinomFull(n);
    } else {
      BinomSymmetric(n - 1, k - 1);
      BinomSymmetric(n - 1, k);
    }
  }

  // ---------- number lists ----------

  /** The numbers lo, lo+1, ..., hi-1. */
  function Range(lo: int, hi: int): (r: seq<int>)
    ensures |r| == if lo < hi then hi - lo else 0
    ensures forall i :: 0 <= i < |r| ==> r[i] == lo + i
  {
    seq(if lo < hi then hi - lo else 0, i => lo + i)
  }

  /** Membership in a nonempty list, head first. */
  lemma Uncons(s: seq<int>)
    requires s != []
    ensures forall x :: x in s <==> x == s[0] || x in s[1..]
    ensures Ascending(s) ==> forall x :: x in s[1..] ==> s[0] < x
    ensures Distinct(s) ==> forall x :: x in s[1..] ==> s[0] != x
  {
    assert s == [s[0]] + s[1..];
  }

  /** Strictly increasing. */
  ghost predicate Ascending(s: seq<int>) {
    s == [] || ((forall i :: 1 <= i < |s| ==> s[0] < s[i]) && Ascending(s[1..]))
  }

  /** Without repeats. */
  ghost predicate Distinct(s: seq<int>) {
    s == [] || ((forall i :: 1 <= i < |s| ==> s[0] != s[i]) && Distinct(s[1..]))
  }

  lemma {:induction false} AscendingByIndex(s: seq<int>)
    ensures Ascending(s) <==> forall i, j :: 0 <= i < j < |s| ==> s[i] < s[j]
  {
    if s != [] {
      AscendingByIndex(s[1..]);
      assert forall i :: 0 <= i < |s| - 1 ==> s[1..][i] == s[i + 1];
      if forall i, j :: 0 <= i < j < |s| ==> s[i] < s[j] {
        forall i, j | 0 <= i < j < |s| - 1 ensures s[1..][i] < s[1..][j] {}
      }
      if Ascending(s) {
        forall i, j | 0 <= i < j < |s| ensures s[i] < s[j] {
          assert s[j] == s[1..][j - 1];
          if i > 0 { assert s[i] == s[1..][i - 1]; }
        }
      }
    }
  }

  lemma {:induction false} DistinctByIndex(s: seq<int>)
    ensures Distinct(s) <==> forall i, j :: 0 <= i < j < |s| ==> s[i] != s[j]
  {
    if s != [] {
      DistinctByIndex(s[1..]);
      assert forall i :: 0 <= i < |s| - 1 ==> s[1..][i] == s[i + 1];
      if forall i, j :: 0 <= i < j < |s| ==> s[i] != s[j] {
        forall i, j | 0 <= i < j < |s| - 1 ensures s[1..][i] != s[1..][j] {}
      }
      if Distinct(s) {
        forall i, j | 0 <= i < j < |s| ensures s[i] != s[j] {
          assert s[j] == s[1..][j - 1];
          if i > 0 { assert s[i] == s[1..][i - 1]; }
        }
      }
    }
  }

  lemma {:induction false} AscendingIsDistinct(s: seq<int>)
    requires Ascending(s)
    ensures Distinct(s)
  {
    if s != [] { AscendingIsDistinct(s[1..]); }
  }

  lemma RangeAscends(lo: int, hi: int)
    ensures Ascending(Range(lo, hi))
  {
    AscendingByIndex(Range(lo, hi));
  }

  ghost predicate Within(s: seq<int>, lo: int, hi: int) {
    forall i :: 0 <= i < |s| ==> lo <= s[i] <= hi
  }

  function Elements(s: seq<int>): set<int> { set x | x in s }

  /** A list without repeats has as many entries as numbers. */
  lemma {:induction false} DistinctSize(a: seq<int>)
    requires Distinct(a)
    ensures |Elements(a)| == |a|
  {
    if a != [] {
      Uncons(a);
      DistinctSize(a[1..]);
      assert Elements(a) == Elements(a[1..]) + {a[0]};
      assert a[0] !in Elements(a[1..]);
    }
  }

  ghost predicate Inside(c: seq<int>, S: set<int>) { forall i :: 0 <= i < |c| ==> c[i] in S }

  /** The entries of s that lie in S, in order: a form cut down to a draw. */
  function Keep(s: seq<int>, S: set<int>): (r: seq<int>)
    ensures forall x :: x in r <==> x in s && x in S
  {
    if s == [] then []
    else if s[0] in S then [s[0]] + Keep(s[1..], S)
    else Keep(s[1..], S)
  }

  lemma {:induction false} AscendingExtensional(a: seq<int>, b: seq<int>)
    requires Ascending(a) && Ascending(b)
    requires forall x :: x in a <==> x in b
    ensures a == b
  {
    assert a != [] ==> a[0] in a;
    assert b != [] ==> b[0] in b;
    if a != [] {
      assert a[0] == b[0];
      forall x ensures x in a[1..] <==> x in b[1..] {
        assert x in a <==> x == a[0] || x in a[1..];
        assert x in b <==> x == b[0] || x in b[1..];
      }
      AscendingExtensional(a[1..], b[1..]);
      assert a == [a[0]] + a[1..] && b == [b[0]] + b[1..];
    }
  }

  lemma {:induction false} KeepAscending(s: seq<int>, S: set<int>)
    requires Ascending(s)
    ensures Ascending(Keep(s, S))
  {
    if s != [] {
      KeepAscending(s[1..], S);
      Uncons(s);
      var rest := Keep(s[1..], S);
      assert forall i :: 0 <= i < |rest| ==> rest[i] in s[1..];
      var whole := [s[0]] + rest;
      assert whole[1..] == rest;
      assert forall i :: 1 <= i < |whole| ==> whole[i] == rest[i - 1];
      assert Ascending(whole);
      assert s[0] !in S ==> Keep(s, S) == rest;
    }
  }

  // ---------- combinations ----------

  function Prepend(x: int, cs: seq<seq<int>>): (r: seq<seq<int>>)
    ensures |r| == |cs|
  {
    if cs == [] then [] else [[x] + cs[0]] + Prepend(x, cs[1..])
  }

  lemma {:induction false} PrependAt(x: int, cs: seq<seq<int>>, i: nat)
    requires i < |cs|
    ensures Prepend(x, cs)[i] == [x] + cs[i]
  {
    if i > 0 { PrependAt(x, cs[1..], i - 1); }
  }

  lemma PrependCons(x: int, c: seq<int>, cs: seq<seq<int>>)
    ensures Prepend(x, [c] + cs) == [[x] + c] + Prepend(x, cs)
  {
    assert ([c] + cs)[1..] == cs;
  }

  lemma {:induction false} PrependMember(x: int, cs: seq<seq<int>>, c: seq<int>)
    ensures c in Prepend(x, cs) <==> c != [] && c[0] == x && c[1..] in cs
  {
    if cs != [] {
      PrependMember(x, cs[1..], c);
      assert cs == [cs[0]] + cs[1..];
      assert c == [x] + cs[0] <==> c != [] && c[0] == x && c[1..] == cs[0];
    }
  }

  /** Every k-element subsequence of s by position, in lexicographic order of positions. */
  function Combos(s: seq<int>, k: nat): seq<seq<int>> {
    if k == 0 then [[]]
    else if s == [] then []
    else Prepend(s[0], Combos(s[1..], k - 1)) + Combos(s[1..], k)
  }

  lemma {:induction false} CombosCount(s: seq<int>, k: nat)
    ensures |Combos(s, k)| == Binom(|s|, k)
  {
    if k == 0 || s == [] {
      assert |Combos(s, k)| == if k == 0 then 1 else 0;
    } else {
      CombosCount(s[1..], k - 1);
      CombosCount(s[1..], k);
      CombosByHead(s, k, Combos(s[1..], k - 1), Combos(s[1..], k));
    }
  }

  /** Membership, one number at a time. */
  lemma CombosStep(s: seq<int>, k: nat, c: seq<int>, with: bool, without: bool)
    requires s != [] && k > 0
    requires with == (c != [] && c[0] == s[0] && c[1..] in Combos(s[1..], k - 1))
    requires without == (c in Combos(s[1..], k))
    ensures c in Combos(s, k) <==> with || without
  {
    PrependMember(s[0], Combos(s[1..], k - 1), c);
  }

  /** Membership in Combos, without the list. */
  ghost predicate IsCombo(s: seq<int>, k: nat, c: seq<int>) {
    if k == 0 then c == []
    else s != [] && ((c != [] && c[0] == s[0] && IsCombo(s[1..], k - 1, c[1..])) || IsCombo(s[1..], k, c))
  }

  lemma IsComboStep(s: seq<int>, k: nat, c: seq<int>, with: bool, without: bool)
    requires s != [] && k > 0
    requires with == (c != [] && c[0] == s[0] && IsCombo(s[1..], k - 1, c[1..]))
    requires without == IsCombo(s[1..], k, c)
    ensures IsCombo(s, k, c) <==> with || without
  {
  }

  lemma NothingToSelect(s: seq<int>, k: nat, c: seq<int>)
    requires k == 0 || s == []
    ensures c in Combos(s, k) <==> IsCombo(s, k, c)
  {
  }

  lemma {:induction false} MembersAreCombos(s: seq<int>, k: nat, c: seq<int>)
    ensures c in Combos(s, k) <==> IsCombo(s, k, c)
  {
    if k == 0 || s == [] {
      NothingToSelect(s, k, c);
    } else {
      var with := c != [] && c[0] == s[0] && c[1..] in Combos(s[1..], k - 1);
      var without := c in Combos(s[1..], k);
      CombosStep(s, k, c, with, without);
      if c != [] { MembersAreCombos(s[1..], k - 1, c[1..]); }
      MembersAreCombos(s[1..], k, c);
      IsComboStep(s, k, c, with, without);
    }
  }

  /** Putting s[0] in front of a selection from the rest. */
  lemma ConsMember(s: seq<int>, c: seq<int>)
    requires s != [] && c != [] && c[0] == s[0] && Inside(c[1..], Elements(s[1..]))
    ensures Inside(c, Elements(s))
    ensures Ascending(s) && Ascending(c[1..]) ==> Ascending(c)
    ensures Distinct(s) && Distinct(c[1..]) ==> Distinct(c)
  {
    Uncons(s);
    forall j | 1 <= j < |c| ensures c[j] in s[1..] {
      assert c[j] == c[1..][j - 1];
    }
  }

  lemma {:induction false} ComboShape(s: seq<int>, k: nat, c: seq<int>)
    requires IsCombo(s, k, c)
    ensures |c| == k && Inside(c, Elements(s))
    ensures Ascending(s) ==> Ascending(c)
    ensures Distinct(s) ==> Distinct(c)
  {
    if k > 0 {
      if c != [] && c[0] == s[0] && IsCombo(s[1..], k - 1, c[1..]) {
        ComboShape(s[1..], k - 1, c[1..]);
        ConsMember(s, c);
      } else {
        ComboShape(s[1..], k, c);
      }
    }
  }

  /** Every member has k entries, all from s, and is increasing when s is. */
  lemma CombosMember(s: seq<int>, k: nat, c: seq<int>)
    requires c in Combos(s, k)
    ensures |c| == k && Inside(c, Elements(s))
    ensures Ascending(s) ==> Ascending(c)
    ensures Distinct(s) ==> Distinct(c)
  {
    MembersAreCombos(s, k, c);
    ComboShape(s, k, c);
  }

  /** A selection that starts with s[0] continues in the rest of s; any other lies in the rest altogether. */
  lemma InsideTail(s: seq<int>, c: seq<int>)
    requires Ascending(s) && Ascending(c) && Inside(c, Elements(s)) && c != []
    ensures s != []
    ensures c[0] == s[0] ==> Inside(c[1..], Elements(s[1..]))
    ensures c[0] != s[0] ==> Inside(c, Elements(s[1..]))
  {
    assert c[0] in Elements(s);
    assert c[0] in s;
    Uncons(s);
    forall i | 0 <= i < |c| && (i > 0 || c[0] != s[0]) ensures c[i] in Elements(s[1..]) {
      assert c[i] in Elements(s);
      assert c[0] == s[0] || c[0] in s[1..];
    }
  }

  lemma {:induction false} SelectionIsCombo(s: seq<int>, c: seq<int>)
    requires Ascending(s) && Ascending(c) && Inside(c, Elements(s))
    ensures IsCombo(s, |c|, c)
  {
    if c != [] {
      InsideTail(s, c);
      if c[0] == s[0] {
        SelectionIsCombo(s[1..], c[1..]);
      } else {
        SelectionIsCombo(s[1..], c);
      }
    }
  }

  /** Any increasing selection from s is a combination of s. */
  lemma CombosComplete(s: seq<int>, c: seq<int>)
    requires Ascending(s) && Ascending(c) && Inside(c, Elements(s))
    ensures c in Combos(s, |c|)
  {
    SelectionIsCombo(s, c);
    MembersAreCombos(s, |c|, c);
  }

  lemma WholeByHead(s: seq<int>)
    requires s != []
    ensures Prepend(s[0], [s[1..]]) + [] == [s]
  {
    PrependCons(s[0], s[1..], []);
    assert [s[0]] + s[1..] == s;
  }

  lemma NoCombos(s: seq<int>, k: nat)
    requires |s| < k
    ensures Combos(s, k) == []
  {
    CombosCount(s, k);
    BinomZero(|s|, k);
  }

  lemma CombosByHead(s: seq<int>, k: nat, with: seq<seq<int>>, without: seq<seq<int>>)
    requires s != [] && k > 0 && Combos(s[1..], k - 1) == with && Combos(s[1..], k) == without
    ensures Combos(s, k) == Prepend(s[0], with) + without
  {
  }

  lemma {:induction false} CombosAll(s: seq<int>)
    ensures Combos(s, |s|) == [s]
  {
    if s != [] {
      CombosAll(s[1..]);
      NoCombos(s[1..], |s|);
      WholeByHead(s);
      CombosByHead(s, |s|, [s[1..]], []);
    }
  }

  lemma {:induction false} KeepSize(s: seq<int>, S: set<int>)
    requires Distinct(s) && S <= Elements(s)
    ensures |Keep(s, S)| == |S|
  {
    if s == [] {
      assert S == {};
    } else {
      Uncons(s);
      var R := S - {s[0]};
      KeepSize(s[1..], R);
      KeepIgnores(s[1..], S, s[0]);
      assert s[0] !in S ==> R == S;
    }
  }

  lemma {:induction false} KeepInsideMember(cs: seq<seq<int>>, S: set<int>, c: seq<int>)
    requires c in KeepInside(cs, S)
    ensures c in cs && Inside(c, S)
  {
    if c !in KeepInside(cs[1..], S) {
      assert c == cs[0];
    } else {
      KeepInsideMember(cs[1..], S, c);
    }
  }

  /** Every set of entries of s is the content of some combination of s. */
  lemma CombosCoverSets(s: seq<int>, S: set<int>)
    requires Distinct(s) && S <= Elements(s)
    ensures Keep(s, S) in Combos(s, |S|) && Elements(Keep(s, S)) == S
  {
    KeepSize(s, S);
    CombosAll(Keep(s, S));
    CombosOfKept(s, |S|, S);
    KeepInsideMember(Combos(s, |S|), S, Keep(s, S));
  }

  lemma {:induction false} KeepIgnores(s: seq<int>, S: set<int>, x: int)
    requires x !in s
    ensures Keep(s, S) == Keep(s, S - {x})
  {
    if s != [] {
      assert s[0] in s;
      KeepIgnores(s[1..], S, x);
    }
  }

  // ---------- lexicographic order ----------

  ghost predicate LexLess(a: seq<int>, b: seq<int>) {
    a != [] && b != [] && (a[0] < b[0] || (a[0] == b[0] && LexLess(a[1..], b[1..])))
  }

  lemma {:induction false} LexIrreflexive(a: seq<int>)
    ensures !LexLess(a, a)
  {
    if a != [] { LexIrreflexive(a[1..]); }
  }

  /** Strictly lexicographic, hence without repeats. */
  ghost predicate LexOrdered(cs: seq<seq<int>>) {
    forall i, j :: 0 <= i < j < |cs| ==> LexLess(cs[i], cs[j])
  }

  ghost predicate AllLess(a: seq<seq<int>>, b: seq<seq<int>>) {
    forall i, j :: 0 <= i < |a| && 0 <= j < |b| ==> LexLess(a[i], b[j])
  }

  lemma OrderedConcat(a: seq<seq<int>>, b: seq<seq<int>>)
    requires LexOrdered(a) && LexOrdered(b) && AllLess(a, b)
    ensures LexOrdered(a + b)
  {
  }

  lemma LexLessCons(x: int, a: seq<int>, b: seq<int>)
    requires LexLess(a, b)
    ensures LexLess([x] + a, [x] + b)
  {
    assert ([x] + a)[1..] == a && ([x] + b)[1..] == b;
  }

  lemma OrderedPrepend(x: int, cs: seq<seq<int>>)
    requires LexOrdered(cs)
    ensures LexOrdered(Prepend(x, cs))
  {
    forall i, j | 0 <= i < j < |cs| ensures LexLess(Prepend(x, cs)[i], Prepend(x, cs)[j]) {
      PrependAt(x, cs, i);
      PrependAt(x, cs, j);
      LexLessCons(x, cs[i], cs[j]);
    }
  }

  /** A combination without s[0] starts beyond it. */
  lemma StartsBeyond(s: seq<int>, k: nat, j: nat)
    requires Ascending(s) && s != [] && k > 0 && j < |Combos(s[1..], k)|
    ensures Combos(s[1..], k)[j] != [] && s[0] < Combos(s[1..], k)[j][0]
  {
    var c := Combos(s[1..], k)[j];
    CombosMember(s[1..], k, c);
    assert c[0] in Elements(s[1..]);
    Uncons(s);
  }

  /** Those with s[0] come before those without. */
  lemma WithBeforeWithout(s: seq<int>, k: nat, with: seq<seq<int>>)
    requires Ascending(s) && k > 0 && s != []
    ensures AllLess(Prepend(s[0], with), Combos(s[1..], k))
  {
    var without := Combos(s[1..], k);
    forall i, j | 0 <= i < |with| && 0 <= j < |without| ensures LexLess(Prepend(s[0], with)[i], without[j]) {
      PrependAt(s[0], with, i);
      StartsBeyond(s, k, j);
    }
  }

  /** For increasing s the enumeration is strictly lexicographic. */
  lemma {:induction false} CombosLexicographic(s: seq<int>, k: nat)
    requires Ascending(s)
    ensures LexOrdered(Combos(s, k))
  {
    if k > 0 && s != [] {
      var with, without := Combos(s[1..], k - 1), Combos(s[1..], k);
      CombosLexicographic(s[1..], k - 1);
      CombosLexicographic(s[1..], k);
      OrderedPrepend(s[0], with);
      WithBeforeWithout(s, k, with);
      OrderedConcat(Prepend(s[0], with), without);
      CombosByHead(s, k, with, without);
    }
  }

  // ---------- combinations inside a set ----------

  /** The combinations lying entirely in S, in order. */
  ghost function KeepInside(cs: seq<seq<int>>, S: set<int>): seq<seq<int>> {
    if cs == [] then []
    else if Inside(cs[0], S) then [cs[0]] + KeepInside(cs[1..], S)
    else KeepInside(cs[1..], S)
  }

  lemma {:induction false} KeepInsideConcat(a: seq<seq<int>>, b: seq<seq<int>>, S: set<int>)
    ensures KeepInside(a + b, S) == KeepInside(a, S) + KeepInside(b, S)
  {
    if a == [] {
      assert a + b == b;
    } else {
      assert (a + b)[1..] == a[1..] + b && (a + b)[0] == a[0];
      KeepInsideConcat(a[1..], b, S);
    }
  }

  lemma KeepInsideCons(c: seq<int>, cs: seq<seq<int>>, S: set<int>)
    ensures KeepInside([c] + cs, S) == (if Inside(c, S) then [c] else []) + KeepInside(cs, S)
  {
    assert ([c] + cs)[1..] == cs;
  }

  lemma InsideCons(x: int, c: seq<int>, S: set<int>)
    ensures Inside([x] + c, S) <==> x in S && Inside(c, S)
  {
    var p := [x] + c;
    assert p[0] == x;
    assert forall i :: 0 <= i < |c| ==> p[i + 1] == c[i];
  }

  lemma {:induction false} KeepInsidePrepend(x: int, cs: seq<seq<int>>, S: set<int>)
    ensures KeepInside(Prepend(x, cs), S) == if x in S then Prepend(x, KeepInside(cs, S)) else []
  {
    if cs != [] {
      var rest := KeepInside(cs[1..], S);
      KeepInsidePrepend(x, cs[1..], S);
      KeepInsideCons([x] + cs[0], Prepend(x, cs[1..]), S);
      InsideCons(x, cs[0], S);
      if Inside(cs[0], S) {
        PrependCons(x, cs[0], rest);
        assert KeepInside(cs, S) == [cs[0]] + rest;
      } else {
        assert KeepInside(cs, S) == rest;
      }
    }
  }

  lemma KeepInsideByHead(s: seq<int>, k: nat, S: set<int>)
    requires s != [] && k > 0
    ensures var with, without := Combos(s[1..], k - 1), Combos(s[1..], k);
            KeepInside(Combos(s, k), S) ==
            if s[0] in S then Prepend(s[0], KeepInside(with, S)) + KeepInside(without, S) else KeepInside(without, S)
  {
    var with, without := Combos(s[1..], k - 1), Combos(s[1..], k);
    KeepInsideConcat(Prepend(s[0], with), without, S);
    KeepInsidePrepend(s[0], with, S);
  }

  lemma NothingChosenKept(s: seq<int>, S: set<int>)
    ensures KeepInside(Combos(s, 0), S) == Combos(Keep(s, S), 0)
  {
    var none := Combos(s, 0);
    assert none == [[]] && none[1..] == [];
  }

  /** One more number, given the claim for the rest. */
  lemma OneMoreKept(s: seq<int>, k: nat, S: set<int>)
    requires s != [] && k > 0
    requires KeepInside(Combos(s[1..], k - 1), S) == Combos(Keep(s[1..], S), k - 1)
    requires KeepInside(Combos(s[1..], k), S) == Combos(Keep(s[1..], S), k)
    ensures KeepInside(Combos(s, k), S) == Combos(Keep(s, S), k)
  {
    KeepInsideByHead(s, k, S);
    KeepStep(s, k, S);
  }

  /** Cutting the combinations of s down to S is enumerating the combinations of s cut down to S. */
  lemma {:induction false} CombosOfKept(s: seq<int>, k: nat, S: set<int>)
    ensures KeepInside(Combos(s, k), S) == Combos(Keep(s, S), k)
  {
    if k == 0 {
      NothingChosenKept(s, S);
    } else if s != [] {
      CombosOfKept(s[1..], k - 1, S);
      CombosOfKept(s[1..], k, S);
      OneMoreKept(s, k, S);
    }
  }

  lemma KeepStep(s: seq<int>, k: nat, S: set<int>)
    requires s != [] && k > 0
    ensures var with, without := Combos(Keep(s[1..], S), k - 1), Combos(Keep(s[1..], S), k);
            Combos(Keep(s, S), k) == if s[0] in S then Prepend(s[0], with) + without else without
  {
    if s[0] in S {
      var rest := Keep(s[1..], S);
      assert ([s[0]] + rest)[1..] == rest;
    }
  }

  // ---------- embeddings ----------

  /** How many ways p can be read off s from left to right. */
  function Embeddings(s: seq<int>, p: seq<int>): nat {
    if p == [] then 1
    else if s == [] then 0
    else (if s[0] == p[0] then Embeddings(s[1..], p[1..]) else 0) + Embeddings(s[1..], p)
  }

  /** Some reading exists: p is a subsequence of s. */
  ghost predicate IsSubsequence(p: seq<int>, s: seq<int>) {
    p == [] || (s != [] && ((s[0] == p[0] && IsSubsequence(p[1..], s[1..])) || IsSubsequence(p, s[1..])))
  }

  lemma {:induction false} EmbeddingsPositive(s: seq<int>, p: seq<int>)
    ensures Embeddings(s, p) > 0 <==> IsSubsequence(p, s)
  {
    if p != [] && s != [] {
      EmbeddingsPositive(s[1..], p[1..]);
      EmbeddingsPositive(s[1..], p);
    }
  }

  /** Embeddings counts positions: it is how often p occurs among the combinations of s. */
  lemma {:induction false} EmbeddingsAreOccurrences(s: seq<int>, p: seq<int>)
    ensures Embeddings(s, p) == multiset(Combos(s, |p|))[p]
  {
    if p == [] {
      assert multiset(Combos(s, 0)) == multiset{[]};
    } else if s != [] {
      EmbeddingsAreOccurrences(s[1..], p[1..]);
      EmbeddingsAreOccurrences(s[1..], p);
      PrependOccurrences(s[0], Combos(s[1..], |p| - 1), p);
    }
  }

  lemma OneMoreOccurrence(c: seq<int>, cs: seq<seq<int>>, p: seq<int>)
    ensures multiset([c] + cs)[p] == multiset(cs)[p] + if c == p then 1 else 0
  {
  }

  lemma OccurrencesByHead(cs: seq<seq<int>>, p: seq<int>)
    requires cs != []
    ensures multiset(cs)[p] == multiset(cs[1..])[p] + if cs[0] == p then 1 else 0
  {
    OneMoreOccurrence(cs[0], cs[1..], p);
    assert cs == [cs[0]] + cs[1..];
  }

  lemma ConsIs(x: int, c: seq<int>, p: seq<int>)
    requires p != []
    ensures [x] + c == p <==> x == p[0] && c == p[1..]
  {
  }

  lemma {:induction false} PrependOccurrences(x: int, cs: seq<seq<int>>, p: seq<int>)
    requires p != []
    ensures multiset(Prepend(x, cs))[p] == if x == p[0] then multiset(cs)[p[1..]] else 0
  {
    if cs != [] {
      PrependOccurrences(x, cs[1..], p);
      OneMoreOccurrence([x] + cs[0], Prepend(x, cs[1..]), p);
      OccurrencesByHead(cs, p[1..]);
      ConsIs(x, cs[0], p);
    }
  }

  /** In an increasing draw a group occurs at most once, exactly when all its numbers were drawn. */
  lemma {:induction false} EmbeddingsInDraw(d: seq<int>, p: seq<int>)
    requires Ascending(d) && Ascending(p)
    ensures Embeddings(d, p) == if Inside(p, Elements(d)) then 1 else 0
  {
    if p != [] && d != [] {
      var rest := d[1..];
      EmbeddingsInDraw(rest, p[1..]);
      EmbeddingsInDraw(rest, p);
      Uncons(d);
      assert forall i :: 0 <= i < |p| - 1 ==> p[1..][i] == p[i + 1];
      assert forall i :: 1 <= i < |p| ==> p[i] == p[1..][i - 1];
      if d[0] == p[0] {
        assert p[0] !in rest;
        assert !Inside(p, Elements(rest));
        assert Inside(p, Elements(d)) <==> Inside(p[1..], Elements(rest));
      } else {
        assert p[0] in Elements(d) ==> p[0] in rest;
        assert Inside(p, Elements(d)) <==> Inside(p, Elements(rest));
      }
    } else if p != [] {
      assert p[0] !in Elements(d);
    }
  }
}
