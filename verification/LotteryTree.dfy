/** The counting tree on the heap, as it is built and walked in place. */
module LotteryTree {
  import opened Options
  import opened TreeModel
  import opened TreeQueries

  class LoNode {
    const Num: int
    var Count: int
    const Prev: LoNode?
    const Next: array<LoNode?>

    ghost var Repr: set<object>
    ghost var Model: Tree

    ghost predicate Valid()
      reads this, Repr
      ensures Valid() ==> this in Repr && Next in Repr
      decreases Repr
    {
      && this in Repr && Next in Repr
      && Model.num == Num && Model.count == Count && |Model.next| == Next.Length
      && (forall i :: 0 <= i < Next.Length ==> Next[i] == null ==> Model.next[i] == None)
      && (forall i :: 0 <= i < Next.Length && Next[i] != null ==>
            && Next[i] in Repr && Next[i].Repr <= Repr
            && this !in Next[i].Repr && Next !in Next[i].Repr
            && Next[i].Valid() && Model.next[i] == Some(Next[i].Model))
      && (forall i, j :: 0 <= i < j < Next.Length && Next[i] != null && Next[j] != null ==>
            Next[i].Repr !! Next[j].Repr)
    }

    constructor (parent: LoNode?, n: int, lottery: int)
      requires SlotCount(n, lottery) >= 0
      ensures Valid() && fresh(Repr)
      ensures Model == Fresh(n, lottery) && Prev == parent && Num == n
    {
      Num, Count, Prev := n, 1, parent;
      Next := new LoNode?[SlotCount(n, lottery)](i => null);
      Model := Fresh(n, lottery);
      new;
      Repr := {this, Next};
    }

    /** The first visit of the child in slot t. */
    method Adopt(x: int, t: nat)
      requires Valid() && t == x - Num - 1 && t < Next.Length && Next[t] == null
      modifies this`Repr, this`Model, Next
      ensures Valid() && fresh(Repr - old(Repr)) && Next[t] != null
      ensures Model == old(Model).(next := old(Model).next[t := Some(Fresh(x, Next.Length + Num))])
    {
      var child := new LoNode(this, x, Next.Length + Num);
      Next[t] := child;
      Repr := Repr + child.Repr;
      Model := Model.(next := Model.next[t := Some(child.Model)]);
    }

    /** One more visit of a child that is there. */
    method Revisit(t: nat)
      requires Valid() && t < Next.Length && Next[t] != null
      modifies Repr
      ensures Valid() && Repr == old(Repr) && Next[t] != null
      ensures old(Model).next[t].Some?
      ensures var child := old(Model).next[t].value;
              Model == old(Model).(next := old(Model).next[t := Some(child.(count := child.count + 1))])
    {
      var child := Next[t];
      child.Count := child.Count + 1;
      child.Model := child.Model.(count := child.Model.count + 1);
      Model := Model.(next := Model.next[t := Some(child.Model)]);
    }

    /** What slot i of the child array shows. */
    lemma SlotModel(i: nat)
      requires Valid() && i < Next.Length
      ensures i < |Model.next|
      ensures Next[i] == null <==> Model.next[i] == None
      ensures Next[i] != null ==> Model.next[i].Some? && Model.next[i].value.count == Next[i].Count
    {
      if Next[i] != null { assert Next[i].Valid(); }
    }

    /** One more visit of the child in slot t, allocating it on the first. */
    method Enter(x: int, t: nat)
      requires Valid() && t == x - Num - 1 && t < Next.Length
      modifies Repr
      ensures Valid() && fresh(Repr - old(Repr)) && Next[t] != null
      ensures Model == old(Model).(next := old(Model).next[t := Some(Visited(old(Model), x))])
    {
      if Next[t] == null {
        Adopt(x, t);
      } else {
        Revisit(t);
      }
    }

    method Visit(form: seq<int>, i: nat, howMany: nat)
      requires Valid() && i < |form| && howMany > 0
      modifies Repr
      ensures Valid() && fresh(Repr - old(Repr))
      ensures Model == Touch(old(Model), form[i], form[i + 1..], howMany - 1)
      decreases howMany, 0
    {
      var treeIndex := form[i] - Num - 1;
      if treeIndex >= 0 && treeIndex < Next.Length {
        Enter(form[i], treeIndex);
        Descend(treeIndex, form, i + 1, howMany - 1);
      }
    }

    /** Build from the child in slot t. */
    method Descend(t: nat, form: seq<int>, current: nat, howMany: nat)
      requires Valid() && t < Next.Length && Next[t] != null && current <= |form|
      modifies Repr
      ensures Valid() && fresh(Repr - old(Repr))
      ensures old(Model).next[t].Some?
      ensures var child := Insert(old(Model).next[t].value, form[current..], howMany);
              Model == old(Model).(next := old(Model).next[t := Some(child)])
      decreases howMany, 2
    {
      Next[t].Build(form, current, howMany);
      Repr := Repr + Next[t].Repr;
      Model := Model.(next := Model.next[t := Some(Next[t].Model)]);
    }

    method Build(form: seq<int>, current: nat, howMany: nat)
      requires Valid() && current <= |form|
      modifies Repr
      ensures Valid() && fresh(Repr - old(Repr))
      ensures Model == Insert(old(Model), form[current..], howMany)
      decreases howMany, 1
    {
      if howMany == 0 {
        return;
      }
      for i := current to |form|
        invariant Valid() && fresh(Repr - old(Repr))
        invariant Insert(Model, form[i..], howMany) == Insert(old(Model), form[current..], howMany)
      {
        assert form[i..][1..] == form[i + 1..];
        Visit(form, i, howMany);
      }
    }

    /** Append the groups of `remaining` more numbers that start with this node. */
    method CollectNodes(remaining: nat, prefix: seq<int>, out: EntryList)
      requires Valid() && out !in Repr
      modifies out
      ensures Valid()
      ensures out.items == old(out.items) + Collected(Model, remaining, prefix)
      decreases remaining, 1
    {
      var numbers := prefix + [Num];
      if remaining == 0 {
        out.items := out.items + [NodeEntry(numbers, Count)];
        return;
      }
      CollectChildren(remaining - 1, numbers, out);
    }

    method CollectChildren(remaining: nat, numbers: seq<int>, out: EntryList)
      requires Valid() && out !in Repr
      modifies out
      ensures Valid()
      ensures out.items == old(out.items) + CollectedFrom(Model, 0, remaining, numbers)
      decreases remaining, 2
    {
      for i := 0 to Next.Length
        invariant Valid()
        invariant out.items + CollectedFrom(Model, i, remaining, numbers) ==
                  old(out.items) + CollectedFrom(Model, 0, remaining, numbers)
      {
        ghost var before := out.items;
        if Next[i] != null {
          Next[i].CollectNodes(remaining, numbers, out);
        }
        assert out.items == before + CollectedAt(Model, i, remaining, numbers);
      }
    }

    /** Append to every group what the form's numbers from `current` on reach below this node. */
    method AnalyzeBuild(form: seq<int>, current: nat, size: nat, maxSize: nat,
                        groups: array<seq<NodeEntry>>, prefix: seq<int>)
      requires Valid() && groups !in Repr && current <= |form|
      requires size <= maxSize <= groups.Length
      modifies groups
      ensures Valid()
      ensures forall g :: 0 <= g < groups.Length && !(size <= g < maxSize) ==> groups[g] == old(groups[g])
      ensures forall g :: size <= g < maxSize ==>
                groups[g] == old(groups[g]) + Analyzed(Model, form[current..], g - size + 1, prefix)
      decreases maxSize - size, 1
    {
      if size == maxSize {
        return;
      }
      for i := current to |form|
        invariant Valid()
        invariant forall g :: 0 <= g < groups.Length && !(size <= g < maxSize) ==> groups[g] == old(groups[g])
        invariant forall g :: size <= g < maxSize ==>
                    groups[g] + Analyzed(Model, form[i..], g - size + 1, prefix) ==
                    old(groups[g]) + Analyzed(Model, form[current..], g - size + 1, prefix)
      {
        ghost var before := groups[..];
        AnalyzeAt(form, i, size, maxSize, groups, prefix);
        forall g | size <= g < maxSize
          ensures groups[g] + Analyzed(Model, form[i + 1..], g - size + 1, prefix) ==
                  old(groups[g]) + Analyzed(Model, form[current..], g - size + 1, prefix)
        {
          AnalyzedStep(Model, form, i, g - size, prefix, before[g], groups[g]);
        }
      }
    }

    static lemma AnalyzedStep(t: Tree, form: seq<int>, i: nat, k: nat, prefix: seq<int>, a: seq<NodeEntry>,
                              b: seq<NodeEntry>)
      requires i < |form| && b == a + AnalyzedAt(t, form[i], form[i + 1..], k, prefix)
      ensures b + Analyzed(t, form[i + 1..], k + 1, prefix) == a + Analyzed(t, form[i..], k + 1, prefix)
    {
      assert form[i..][1..] == form[i + 1..] && form[i..][0] == form[i];
    }

    method AnalyzeAt(form: seq<int>, i: nat, size: nat, maxSize: nat,
                     groups: array<seq<NodeEntry>>, prefix: seq<int>)
      requires Valid() && groups !in Repr && i < |form|
      requires size < maxSize <= groups.Length
      modifies groups
      ensures Valid()
      ensures forall g :: 0 <= g < groups.Length && !(size <= g < maxSize) ==> groups[g] == old(groups[g])
      ensures forall g :: size <= g < maxSize ==>
                groups[g] == old(groups[g]) + AnalyzedAt(Model, form[i], form[i + 1..], g - size, prefix)
      decreases maxSize - size, 0
    {
      var treeIndex := form[i] - Num - 1;
      if treeIndex >= 0 && treeIndex < Next.Length && Next[treeIndex] != null {
        var child := Next[treeIndex];
        var newSize := size + 1;
        var numbers := prefix + [form[i]];
        groups[newSize - 1] := groups[newSize - 1] + [NodeEntry(numbers, child.Count)];
        child.AnalyzeBuild(form, i + 1, newSize, maxSize, groups, numbers);
      }
    }
  }

  /** The slice that the walk appends to through a pointer. */
  class EntryList {
    var items: seq<NodeEntry>

    constructor ()
      ensures items == []
    {
      items := [];
    }
  }

  const MAX_GROUP_SIZE := 6
  const WEAK := "weak"

  /** A tree over 1..lottery holding every draw of data to depth howMany. */
  method NewTree(lottery: int, data: seq<seq<int>>, howMany: nat) returns (tree: LoTree)
    requires lottery >= 0
    ensures fresh(tree) && tree.Valid() && fresh(tree.Anchor.Repr)
    ensures tree.Anchor.Model == Built(lottery, data, howMany)
  {
    tree := new LoTree(lottery);
    tree.Build(data, howMany);
  }

  class LoTree {
    const Anchor: LoNode
    const Lottery: int
    var BuildCalls: nat

    ghost predicate Valid()
      reads this, Anchor, Anchor.Repr
    {
      Anchor.Valid() && this !in Anchor.Repr
    }

    constructor (lottery: int)
      requires lottery >= 0
      ensures Valid() && fresh(Anchor.Repr)
      ensures Lottery == lottery && BuildCalls == 0 && Anchor.Model == Fresh(0, lottery)
    {
      Lottery := lottery;
      Anchor := new LoNode(null, 0, lottery);
      BuildCalls := 0;
    }

    method Build(data: seq<seq<int>>, howMany: nat)
      requires Valid()
      modifies this, Anchor.Repr
      ensures Valid() && fresh(Anchor.Repr - old(Anchor.Repr))
      ensures BuildCalls == |data|
      ensures Anchor.Model == InsertAll(old(Anchor.Model), data, howMany)
    {
      for i := 0 to |data|
        invariant Valid() && fresh(Anchor.Repr - old(Anchor.Repr))
        invariant InsertAll(Anchor.Model, data[i..], howMany) == InsertAll(old(Anchor.Model), data, howMany)
      {
        assert data[i..][1..] == data[i + 1..];
        Anchor.Build(data[i], 0, howMany);
        assert data[i][0..] == data[i];
      }
      BuildCalls := |data|;
    }

    method CollectNodes(size: int, mode: string) returns (entries: seq<NodeEntry>)
      requires Valid()
      ensures size <= 0 ==> entries == []
      ensures size > 0 ==> entries == Ranked(mode == WEAK, CollectedFrom(Anchor.Model, 0, size - 1, []))
    {
      if size <= 0 {
        return [];
      }
      var out := new EntryList();
      Anchor.CollectChildren(size - 1, [], out);
      assert out.items == CollectedFrom(Anchor.Model, 0, size - 1, []);
      entries := Ranked(mode == WEAK, out.items);
    }

    method AnalyzeArray(form: seq<int>, maxSize: nat) returns (groups: seq<seq<NodeEntry>>)
      requires Valid() && maxSize <= MAX_GROUP_SIZE
      ensures |groups| == MAX_GROUP_SIZE
      ensures forall g :: 0 <= g < MAX_GROUP_SIZE ==>
                groups[g] == if g < maxSize then Ranked(false, Analyzed(Anchor.Model, form, g + 1, [])) else []
    {
      var building := new seq<NodeEntry>[MAX_GROUP_SIZE](i => []);
      FillGroups(form, maxSize, building);
      groups := RankGroups(building);
    }

    method FillGroups(form: seq<int>, maxSize: nat, building: array<seq<NodeEntry>>)
      requires Valid() && building !in Anchor.Repr && maxSize <= building.Length
      requires forall g :: 0 <= g < building.Length ==> building[g] == []
      modifies building
      ensures Valid()
      ensures forall g :: 0 <= g < building.Length ==>
                building[g] == if g < maxSize then Analyzed(Anchor.Model, form, g + 1, []) else []
    {
      Anchor.AnalyzeBuild(form, 0, 0, maxSize, building, []);
      assert form[0..] == form;
      forall g | 0 <= g < maxSize ensures building[g] == Analyzed(Anchor.Model, form, g + 1, []) {
        assert building[g] == [] + Analyzed(Anchor.Model, form, g + 1, []);
      }
    }
  }

  method RankGroups(building: array<seq<NodeEntry>>) returns (groups: seq<seq<NodeEntry>>)
    ensures |groups| == building.Length
    ensures forall g :: 0 <= g < building.Length ==> groups[g] == Ranked(false, building[g])
  {
    groups := [];
    for g := 0 to building.Length
      invariant |groups| == g
      invariant forall h :: 0 <= h < g ==> groups[h] == Ranked(false, building[h])
    {
      groups := groups + [Ranked(false, building[g])];
    }
  }
}
