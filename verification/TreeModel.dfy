/** The counting tree as a value: what one draw adds, and what the finished tree knows. */
module TreeModel {
  import opened Combinatorics
  import opened Options

  /** A node: its number, how often its group was met, and one slot per larger number. */
  datatype Tree = Node(num: int, count: int, next: seq<Option<Tree>>)

  /** One number group and how many times it was met. */
  datatype NodeEntry = NodeEntry(numbers: seq<int>, count: int)

  /** How many child slots a node for n gets in a game over 1..lottery. */
  function SlotCount(n: int, lottery: int): int {
    if lottery == 3 then lottery else lottery - n
  }

  predicate HasSlot(t: Tree, x: int) { 0 <= x - t.num - 1 < |t.next| }

  function Child(t: Tree, x: int): Option<Tree> {
    if HasSlot(t, x) then t.next[x - t.num - 1] else None
  }

  function Fresh(n: int, lottery: int): (t: Tree)
    requires SlotCount(n, lottery) >= 0
    ensures t.num == n && t.count == 1 && |t.next| == SlotCount(n, lottery)
    ensures forall i :: 0 <= i < |t.next| ==> t.next[i] == None
  {
    Node(n, 1, seq(SlotCount(n, lottery), i => None))
  }

  // ---------- inserting a draw ----------

  /** The child for x after one more visit. */
  function Visited(t: Tree, x: int): Tree
    requires HasSlot(t, x)
  {
    match Child(t, x)
    case None => Fresh(x, |t.next| + t.num)
    case Some(c) => c.(count := c.count + 1)
  }

  /** Every increasing subsequence of form of length up to k adds one to its node. */
  function Insert(t: Tree, form: seq<int>, k: nat): (r: Tree)
    ensures r.num == t.num && r.count == t.count && |r.next| == |t.next|
    decreases |form|, 1
  {
    if k == 0 || form == [] then t
    else Insert(Touch(t, form[0], form[1..], k - 1), form[1..], k)
  }

  function Touch(t: Tree, x: int, rest: seq<int>, k: nat): (r: Tree)
    ensures r.num == t.num && r.count == t.count && |r.next| == |t.next|
    decreases |rest|, 2
  {
    if HasSlot(t, x) then t.(next := t.next[x - t.num - 1 := Some(Insert(Visited(t, x), rest, k))]) else t
  }

  function InsertAll(t: Tree, data: seq<seq<int>>, k: nat): Tree
    decreases |data|
  {
    if data == [] then t else InsertAll(Insert(t, data[0], k), data[1..], k)
  }

  /** The tree over 1..lottery holding every draw of data to depth k. */
  function Built(lottery: int, data: seq<seq<int>>, k: nat): Tree
    requires lottery >= 0
  {
    InsertAll(Fresh(0, lottery), data, k)
  }

  // ---------- reading the tree ----------

  /** The count kept for path p below t, 0 when there is no such node. */
  function Lookup(t: Tree, p: seq<int>): int
    decreases |p|
  {
    if p == [] then t.count
    else match Child(t, p[0])
      case None => 0
      case Some(c) => Lookup(c, p[1..])
  }

  predicate HasNode(t: Tree, p: seq<int>)
    decreases |p|
  {
    p == [] || (Child(t, p[0]).Some? && HasNode(Child(t, p[0]).value, p[1..]))
  }

  /** Numbers grow along every path up to lottery, and every node was met at least once. */
  ghost predicate Shaped(t: Tree, lottery: int) {
    && t.num + |t.next| == lottery
    && t.count >= 1
    && forall i :: 0 <= i < |t.next| && t.next[i].Some? ==>
         t.next[i].value.num == t.num + 1 + i && Shaped(t.next[i].value, lottery)
  }

  // ---------- the counting theorem ----------

  lemma {:induction false} InsertShaped(t: Tree, form: seq<int>, k: nat, lottery: int)
    requires Shaped(t, lottery) && lottery != 3
    ensures Shaped(Insert(t, form, k), lottery)
    decreases |form|, 1
  {
    if k > 0 && form != [] {
      TouchShaped(t, form[0], form[1..], k - 1, lottery);
      InsertShaped(Touch(t, form[0], form[1..], k - 1), form[1..], k, lottery);
    }
  }

  lemma {:induction false} VisitedShaped(t: Tree, x: int, lottery: int)
    requires Shaped(t, lottery) && lottery != 3 && HasSlot(t, x)
    ensures Shaped(Visited(t, x), lottery) && Visited(t, x).num == x
  {
  }

  lemma {:induction false} TouchShaped(t: Tree, x: int, rest: seq<int>, k: nat, lottery: int)
    requires Shaped(t, lottery) && lottery != 3
    ensures Shaped(Touch(t, x, rest, k), lottery)
    decreases |rest|, 2
  {
    if HasSlot(t, x) {
      VisitedShaped(t, x, lottery);
      InsertShaped(Visited(t, x), rest, k, lottery);
    }
  }

  /** Visiting x touches only paths through x. */
  lemma TouchOther(t: Tree, x: int, rest: seq<int>, k: nat, p: seq<int>)
    requires p != [] && p[0] != x
    ensures Lookup(Touch(t, x, rest, k), p) == Lookup(t, p)
  {
    assert Child(Touch(t, x, rest, k), p[0]) == Child(t, p[0]);
  }

  lemma VisitedLookup(t: Tree, x: int, p: seq<int>)
    requires HasSlot(t, x)
    ensures Lookup(Visited(t, x), p) == Lookup(t, [x] + p) + (if p == [] then 1 else 0)
  {
    assert ([x] + p)[1..] == p;
    if p != [] && Child(t, x).Some? {
      assert Child(Visited(t, x), p[0]) == Child(Child(t, x).value, p[0]);
    }
  }

  /** One draw adds to every path of length at most k its number of embeddings in the draw. */
  lemma {:induction false} InsertCounts(t: Tree, form: seq<int>, k: nat, lottery: int, p: seq<int>)
    requires Shaped(t, lottery) && lottery != 3
    requires p != [] && |p| <= k && Ascending(p) && Within(p, t.num + 1, lottery)
    ensures Lookup(Insert(t, form, k), p) == Lookup(t, p) + Embeddings(form, p)
    decreases |form|, 0
  {
    if form != [] {
      var x, rest := form[0], form[1..];
      TouchShaped(t, x, rest, k - 1, lottery);
      TouchCounts(t, x, rest, k, lottery, p);
      InsertCounts(Touch(t, x, rest, k - 1), rest, k, lottery, p);
    }
  }

  /** Touching x counts the readings that start with it. */
  lemma {:induction false} TouchCounts(t: Tree, x: int, rest: seq<int>, k: nat, lottery: int, p: seq<int>)
    requires Shaped(t, lottery) && lottery != 3
    requires p != [] && |p| <= k && Ascending(p) && Within(p, t.num + 1, lottery)
    ensures Lookup(Touch(t, x, rest, k - 1), p) == Lookup(t, p) + if x == p[0] then Embeddings(rest, p[1..]) else 0
    decreases |rest|, 1
  {
    if x != p[0] {
      TouchOther(t, x, rest, k - 1, p);
    } else {
      var v := Visited(t, x);
      VisitedShaped(t, x, lottery);
      VisitedLookup(t, x, p[1..]);
      assert p == [x] + p[1..];
      assert Child(Touch(t, x, rest, k - 1), x) == Some(Insert(v, rest, k - 1));
      if |p| > 1 {
        assert forall i :: 0 <= i < |p| - 1 ==> p[1..][i] == p[i + 1] && p[0] < p[i + 1];
        InsertCounts(v, rest, k - 1, lottery, p[1..]);
      }
    }
  }

  /** The embeddings of p summed over all draws. */
  function TotalEmbeddings(data: seq<seq<int>>, p: seq<int>): nat {
    if data == [] then 0 else Embeddings(data[0], p) + TotalEmbeddings(data[1..], p)
  }

  lemma {:induction false} InsertAllCounts(t: Tree, data: seq<seq<int>>, k: nat, lottery: int, p: seq<int>)
    requires Shaped(t, lottery) && lottery != 3
    requires p != [] && |p| <= k && Ascending(p) && Within(p, t.num + 1, lottery)
    ensures Shaped(InsertAll(t, data, k), lottery)
    ensures Lookup(InsertAll(t, data, k), p) == Lookup(t, p) + TotalEmbeddings(data, p)
    decreases |data|
  {
    if data != [] {
      InsertShaped(t, data[0], k, lottery);
      InsertCounts(t, data[0], k, lottery, p);
      InsertAllCounts(Insert(t, data[0], k), data[1..], k, lottery, p);
    }
  }

  /** What a lookup in the built tree means: the embeddings of the group over all draws. */
  lemma BuiltCounts(lottery: int, data: seq<seq<int>>, k: nat, p: seq<int>)
    requires lottery >= 0 && lottery != 3
    requires p != [] && |p| <= k && Ascending(p) && Within(p, 1, lottery)
    ensures Lookup(Built(lottery, data, k), p) == TotalEmbeddings(data, p)
  {
    InsertAllCounts(Fresh(0, lottery), data, k, lottery, p);
    assert Child(Fresh(0, lottery), p[0]) == None;
  }

  lemma {:induction false} InsertAllShaped(t: Tree, data: seq<seq<int>>, k: nat, lottery: int)
    requires Shaped(t, lottery) && lottery != 3
    ensures Shaped(InsertAll(t, data, k), lottery) && InsertAll(t, data, k).num == t.num
    decreases |data|
  {
    if data != [] {
      InsertShaped(t, data[0], k, lottery);
      InsertAllShaped(Insert(t, data[0], k), data[1..], k, lottery);
    }
  }

  // ---------- which nodes exist ----------

  lemma {:induction false} NodeIffCounted(t: Tree, lottery: int, p: seq<int>)
    requires Shaped(t, lottery)
    ensures Lookup(t, p) >= 0 && (HasNode(t, p) <==> Lookup(t, p) > 0)
    decreases |p|
  {
    if p != [] && Child(t, p[0]).Some? {
      NodeIffCounted(Child(t, p[0]).value, lottery, p[1..]);
    }
  }

  lemma {:induction false} PathsAscend(t: Tree, lottery: int, p: seq<int>)
    requires Shaped(t, lottery) && HasNode(t, p)
    ensures Ascending(p) && Within(p, t.num + 1, lottery)
    decreases |p|
  {
    if p != [] {
      PathsAscend(Child(t, p[0]).value, lottery, p[1..]);
      assert forall i :: 1 <= i < |p| ==> p[i] == p[1..][i - 1];
    }
  }

  /** Inserting to depth k creates nothing deeper than k. */
  lemma {:induction false} InsertDepth(t: Tree, form: seq<int>, k: nat, p: seq<int>)
    requires |p| > k
    ensures HasNode(Insert(t, form, k), p) <==> HasNode(t, p)
    decreases |form|
  {
    if k > 0 && form != [] {
      var x, rest := form[0], form[1..];
      var touched := Touch(t, x, rest, k - 1);
      InsertDepth(touched, rest, k, p);
      if p[0] != x {
        assert Child(touched, p[0]) == Child(t, p[0]);
      } else if HasSlot(t, x) {
        var v := Visited(t, x);
        assert Child(touched, x) == Some(Insert(v, rest, k - 1));
        InsertDepth(v, rest, k - 1, p[1..]);
        if Child(t, x).Some? {
          assert Child(v, p[1]) == Child(Child(t, x).value, p[1]);
        }
      }
    }
  }

  lemma {:induction false} InsertAllDepth(t: Tree, data: seq<seq<int>>, k: nat, p: seq<int>)
    requires |p| > k
    ensures HasNode(InsertAll(t, data, k), p) <==> HasNode(t, p)
    decreases |data|
  {
    if data != [] {
      InsertDepth(t, data[0], k, p);
      InsertAllDepth(Insert(t, data[0], k), data[1..], k, p);
    }
  }

  lemma {:induction false} TotalPositive(data: seq<seq<int>>, p: seq<int>)
    ensures TotalEmbeddings(data, p) > 0 <==> exists d :: 0 <= d < |data| && IsSubsequence(p, data[d])
  {
    if data != [] {
      EmbeddingsPositive(data[0], p);
      TotalPositive(data[1..], p);
      if exists d :: 0 <= d < |data| - 1 && IsSubsequence(p, data[1..][d]) {
        var d :| 0 <= d < |data| - 1 && IsSubsequence(p, data[1..][d]);
        assert data[d + 1] == data[1..][d];
      }
      if exists d :: 0 <= d < |data| && IsSubsequence(p, data[d]) {
        var d :| 0 <= d < |data| && IsSubsequence(p, data[d]);
        assert d > 0 ==> data[1..][d - 1] == data[d];
      }
    }
  }

  /** Exactly the increasing in-range groups of at most k numbers met in some draw have a node. */
  lemma BuiltNodes(lottery: int, data: seq<seq<int>>, k: nat, p: seq<int>)
    requires lottery >= 0 && lottery != 3 && p != []
    ensures HasNode(Built(lottery, data, k), p) <==>
            && |p| <= k && Ascending(p) && Within(p, 1, lottery)
            && exists d :: 0 <= d < |data| && IsSubsequence(p, data[d])
  {
    var t := Built(lottery, data, k);
    InsertAllShaped(Fresh(0, lottery), data, k, lottery);
    NodeIffCounted(t, lottery, p);
    if |p| > k {
      InsertAllDepth(Fresh(0, lottery), data, k, p);
    } else if Ascending(p) && Within(p, 1, lottery) {
      BuiltCounts(lottery, data, k, p);
      TotalPositive(data, p);
    } else if HasNode(t, p) {
      PathsAscend(t, lottery, p);
    }
  }

  /** The number of draws that contain every number of p. */
  function DrawsContaining(data: seq<seq<int>>, p: seq<int>): nat {
    if data == [] then 0
    else (if Elements(p) <= Elements(data[0]) then 1 else 0) + DrawsContaining(data[1..], p)
  }

  ghost predicate AllAscending(data: seq<seq<int>>) {
    forall d :: 0 <= d < |data| ==> Ascending(data[d])
  }

  lemma InsideIsSubset(c: seq<int>, S: set<int>)
    ensures Inside(c, S) <==> Elements(c) <= S
  {
    if Elements(c) <= S {
      forall i | 0 <= i < |c| ensures c[i] in S { assert c[i] in Elements(c); }
    }
  }

  lemma {:induction false} TotalIsDrawsContaining(data: seq<seq<int>>, p: seq<int>)
    requires AllAscending(data) && Ascending(p)
    ensures TotalEmbeddings(data, p) == DrawsContaining(data, p)
  {
    if data != [] {
      EmbeddingsInDraw(data[0], p);
      InsideIsSubset(p, Elements(data[0]));
      TotalIsDrawsContaining(data[1..], p);
    }
  }

  /** For increasing draws the kept count is the number of draws containing the group. */
  lemma BuiltCountsDraws(lottery: int, data: seq<seq<int>>, k: nat, p: seq<int>)
    requires lottery >= 0 && lottery != 3 && AllAscending(data)
    requires p != [] && |p| <= k && Ascending(p) && Within(p, 1, lottery)
    ensures Lookup(Built(lottery, data, k), p) == DrawsContaining(data, p)
  {
    BuiltCounts(lottery, data, k, p);
    TotalIsDrawsContaining(data, p);
  }
}
