/** The LRU cache of archives, calls run to completion: a map and a doubly linked recency list. */
module LotteryManagers {
  import opened Options
  import opened DateWindow

  const MAX_CACHE_ENTRIES := 8

  /** What building an archive, or asking for one, comes to. */
  datatype Outcome<+A> = Ready(arch: A) | Failed(error: string)

  /** One resident archive, as the recency list shows it. */
  datatype Slot<+A> = Slot(key: Window, arch: Option<A>)

  // ---------- the recency list as a value ----------

  function SlotOf<A>(slots: seq<Slot<A>>, key: Window): Option<Slot<A>> {
    if slots == [] then None
    else if slots[0].key == key then Some(slots[0])
    else SlotOf(slots[1..], key)
  }

  function Without<A>(slots: seq<Slot<A>>, key: Window): seq<Slot<A>> {
    if slots == [] then []
    else if slots[0].key == key then slots[1..]
    else [slots[0]] + Without(slots[1..], key)
  }

  /** The windows that do not overlap the affected range stay, in order. */
  function Unaffected<A>(slots: seq<Slot<A>>, affected: Window): seq<Slot<A>> {
    if slots == [] then []
    else if RangesOverlap(slots[0].key, affected) then Unaffected(slots[1..], affected)
    else [slots[0]] + Unaffected(slots[1..], affected)
  }

  /** Room for one more: at capacity the least recently used slot goes. */
  function Evicted<A>(slots: seq<Slot<A>>): seq<Slot<A>> {
    if |slots| >= MAX_CACHE_ENTRIES then slots[..MAX_CACHE_ENTRIES - 1] else slots
  }

  /** The recency list after one request. */
  function AfterRequest<A>(slots: seq<Slot<A>>, key: Window, load: Outcome<A>): seq<Slot<A>> {
    match SlotOf(slots, key)
    case Some(slot) => [slot] + Without(slots, key)
    case None =>
      match load
      case Ready(a) => [Slot(key, Some(a))] + Evicted(slots)
      case Failed(_) => Evicted(slots)
  }

  /** What the request is answered: the resident archive, else the outcome of the load. */
  function Answer<A>(slots: seq<Slot<A>>, key: Window, load: Outcome<A>): Outcome<A> {
    match SlotOf(slots, key)
    case Some(slot) => if slot.arch.Some? then Ready(slot.arch.value) else load
    case None => load
  }

  lemma {:induction false} SlotAt<A>(slots: seq<Slot<A>>, key: Window, k: nat)
    requires k < |slots| && slots[k].key == key
    requires forall i :: 0 <= i < k ==> slots[i].key != key
    ensures SlotOf(slots, key) == Some(slots[k])
    ensures Without(slots, key) == slots[..k] + slots[k + 1..]
  {
    if k > 0 { SlotAt(slots[1..], key, k - 1); }
  }

  lemma {:induction false} NoSlot<A>(slots: seq<Slot<A>>, key: Window)
    requires forall i :: 0 <= i < |slots| ==> slots[i].key != key
    ensures SlotOf(slots, key) == None
  {
    if slots != [] { NoSlot(slots[1..], key); }
  }

  class CacheEntry<A> {
    const key: Window
    var arch: Option<A>
    var prev: CacheEntry?<A>
    var next: CacheEntry?<A>
    var loading: bool
    var err: Option<string>

    constructor (key: Window)
      ensures this.key == key && arch == None && prev == null && next == null && loading && err == None
    {
      this.key := key;
      arch, prev, next, loading, err := None, null, null, true, None;
    }
  }

  class LotteryManager<A> {
    var cache: map<Window, CacheEntry<A>>
    var head: CacheEntry?<A>
    var tail: CacheEntry?<A>

    /** The entries from head to tail. */
    ghost var order: seq<CacheEntry<A>>

    /** What each entry of the map shows. */
    ghost var shown: map<CacheEntry<A>, Slot<A>>

    /** The entries of the map. */
    ghost var entries: set<CacheEntry<A>>

    static ghost predicate Differ(list: seq<CacheEntry<A>>, i: nat, j: nat)
      requires i < j < |list|
    {
      list[i] != list[j]
    }

    /** No entry is listed twice. */
    static ghost predicate ListedOnce(list: seq<CacheEntry<A>>) {
      forall i, j :: 0 <= i < j < |list| ==> Differ(list, i, j)
    }

    static lemma AllDiffer(list: seq<CacheEntry<A>>)
      requires ListedOnce(list)
      ensures forall i, j :: 0 <= i < j < |list| ==> list[i] != list[j]
    {
      forall i, j | 0 <= i < j < |list| ensures list[i] != list[j] {
        assert Differ(list, i, j);
      }
    }

    ghost predicate Linked()
      reads this, order`prev, order`next
    {
      && ListedOnce(order)
      && head == (if order == [] then null else order[0])
      && tail == (if order == [] then null else order[|order| - 1])
      && (forall i {:trigger order[i].prev} :: 0 <= i < |order| ==>
            order[i].prev == if i == 0 then null else order[i - 1])
      && (forall i {:trigger order[i].next} :: 0 <= i < |order| ==>
            order[i].next == if i == |order| - 1 then null else order[i + 1])
    }

    constructor ()
      ensures Valid() && Slots() == []
    {
      cache, head, tail, order, entries, shown := map[], null, null, [], {}, map[];
    }

    method AddToFront(e: CacheEntry<A>)
      requires Linked() && e !in order
      modifies this`head, this`tail, this`order, e`prev, e`next, order`prev
      ensures Linked() && order == [e] + old(order)
    {
      AllDiffer(order);
      e.prev := null;
      e.next := head;
      if head != null {
        head.prev := e;
      }
      head := e;
      if tail == null {
        tail := e;
      }
      order := [e] + order;
    }

    method Remove(e: CacheEntry<A>, ghost k: nat)
      requires Linked() && k < |order| && order[k] == e
      modifies this`head, this`tail, this`order, order`prev, order`next
      ensures Linked() && order == old(order)[..k] + old(order)[k + 1..]
      ensures e.prev == null && e.next == null
    {
      AllDiffer(order);
      assert order[k].prev == if k == 0 then null else order[k - 1];
      assert order[k].next == if k == |order| - 1 then null else order[k + 1];
      if e.prev != null {
        e.prev.next := e.next;
      } else {
        head := e.next;
      }
      if e.next != null {
        e.next.prev := e.prev;
      } else {
        tail := e.prev;
      }
      e.prev := null;
      e.next := null;
      order := order[..k] + order[k + 1..];
    }

    method MoveToFront(e: CacheEntry<A>, ghost k: nat)
      requires Linked() && k < |order| && order[k] == e
      modifies this`head, this`tail, this`order, order`prev, order`next
      ensures Linked() && order == [e] + old(order)[..k] + old(order)[k + 1..]
    {
      if head == e {
        AllDiffer(order);
        assert k == 0;
        assert order == [e] + old(order)[..k] + old(order)[k + 1..];
        return;
      }
      Remove(e, k);
      AddToFront(e);
    }

    static ghost function Elements(list: seq<CacheEntry<A>>): set<CacheEntry<A>> { set x | x in list }

    /** The map and the list hold the same entries, each under its own window. */
    ghost predicate Indexed()
      reads this
    {
      && entries == Elements(order)
      && (forall x :: x in entries ==> x.key in cache && cache[x.key] == x)
      && (forall key :: key in cache ==> cache[key] in entries && cache[key].key == key)
    }

    /** x is not loading, holds its archive, and is shown as it is. */
    static ghost predicate Settled(x: CacheEntry<A>, shown: map<CacheEntry<A>, Slot<A>>)
      reads x`loading, x`err, x`arch
    {
      !x.loading && x.err == None && x.arch.Some? && x in shown && shown[x] == Slot(x.key, x.arch)
    }

    /** Every entry but e, whose load is under way, is settled. */
    ghost predicate Pending(e: CacheEntry<A>)
      reads this, entries`loading, entries`err, entries`arch
    {
      forall x :: x in entries && x != e ==> Settled(x, shown)
    }

    /** Between calls. */
    ghost predicate Valid()
      reads this, order`prev, order`next, entries`loading, entries`err, entries`arch
    {
      && Linked() && Indexed() && |order| <= MAX_CACHE_ENTRIES
      && (forall x :: x in entries ==> Settled(x, shown))
    }

    /** The recency list as a value. */
    static ghost function View(list: seq<CacheEntry<A>>, m: map<CacheEntry<A>, Slot<A>>): (r: seq<Slot<A>>)
      requires Elements(list) <= m.Keys
      ensures |r| == |list|
      ensures forall i :: 0 <= i < |r| ==> r[i] == m[list[i]]
    {
      seq(|list|, i requires 0 <= i < |list| => m[list[i]])
    }

    ghost function Slots(): seq<Slot<A>>
      reads this
      requires Indexed() && entries <= shown.Keys
    {
      View(order, shown)
    }

    // ----- hits -----

    /** A hit: the entry moves to the front. */
    method Touch(e: CacheEntry<A>, ghost k: nat)
      requires Valid() && k < |order| && order[k] == e
      modifies this`head, this`tail, this`order, order`prev, order`next
      ensures Valid() && order == [e] + old(order)[..k] + old(order)[k + 1..]
    {
      ghost var list := order;
      assert list == list[..k] + [e] + list[k + 1..];
      MoveToFront(e, k);
    }

    /** View of a list with one entry taken to the front. */
    static lemma ViewSpliced(list: seq<CacheEntry<A>>, m: map<CacheEntry<A>, Slot<A>>, k: nat)
      requires k < |list| && Elements(list) <= m.Keys
      ensures Elements([list[k]] + list[..k] + list[k + 1..]) <= m.Keys
      ensures View([list[k]] + list[..k] + list[k + 1..], m)
              == [m[list[k]]] + (View(list, m)[..k] + View(list, m)[k + 1..])
    {
      var moved := [list[k]] + list[..k] + list[k + 1..];
      forall x | x in moved ensures x in m.Keys {
        assert x in Elements(list);
      }
    }

    /** Moving an entry to the front of the list moves its slot to the front of the view. */
    static lemma ViewMoved(list: seq<CacheEntry<A>>, m: map<CacheEntry<A>, Slot<A>>, k: nat, key: Window)
      requires k < |list| && Elements(list) <= m.Keys && m[list[k]].key == key
      requires forall i :: 0 <= i < k ==> m[list[i]].key != key
      ensures Elements([list[k]] + list[..k] + list[k + 1..]) <= m.Keys
      ensures View([list[k]] + list[..k] + list[k + 1..], m) == [m[list[k]]] + Without(View(list, m), key)
      ensures SlotOf(View(list, m), key) == Some(m[list[k]])
    {
      SlotAt(View(list, m), key, k);
      ViewSpliced(list, m, k);
    }

    // ----- misses -----

    /** Unlink an entry and delete its key. */
    method Discard(e: CacheEntry<A>, ghost k: nat)
      requires Linked() && Indexed() && k < |order| && order[k] == e
      modifies this, order`prev, order`next
      ensures Linked() && Indexed()
      ensures order == old(order)[..k] + old(order)[k + 1..] && entries == old(entries) - {e}
      ensures shown == old(shown) && cache == old(cache) - {e.key}
    {
      ghost var list := order;
      SpliceElements(list, k);
      Remove(e, k);
      cache := cache - {e.key};
      entries := entries - {e};
    }

    /** Of entries that are settled but for e, e goes. */
    method Drop(e: CacheEntry<A>, ghost k: nat)
      requires Linked() && Indexed() && |order| <= MAX_CACHE_ENTRIES && Pending(e) && k < |order| && order[k] == e
      modifies this, order`prev, order`next
      ensures Valid() && shown == old(shown) && entries == old(entries) - {e}
      ensures order == old(order)[..k] + old(order)[k + 1..]
      ensures cache.Keys == old(cache.Keys) - {e.key}
    {
      assert forall x :: x in entries && x != e ==> Settled(x, shown);
      Discard(e, k);
    }

    static lemma SpliceElements(list: seq<CacheEntry<A>>, k: nat)
      requires k < |list| && ListedOnce(list)
      ensures Elements(list[..k] + list[k + 1..]) == Elements(list) - {list[k]}
    {
      AllDiffer(list);
      assert list == list[..k] + [list[k]] + list[k + 1..];
    }

    static lemma {:induction false} CountElements(list: seq<CacheEntry<A>>)
      requires ListedOnce(list)
      ensures |Elements(list)| == |list|
    {
      if list != [] {
        var init, last := list[..|list| - 1], list[|list| - 1];
        AllDiffer(list);
        CountElements(init);
        assert Elements(list) == Elements(init) + {last};
        assert last !in Elements(init);
      }
    }

    static lemma {:induction false} CountKeys(S: set<CacheEntry<A>>, m: map<Window, CacheEntry<A>>)
      requires forall x :: x in S ==> x.key in m && m[x.key] == x
      requires forall key :: key in m ==> m[key] in S && m[key].key == key
      ensures |m| == |S|
      decreases S
    {
      if S == {} {
        assert m.Keys == {};
      } else {
        var x :| x in S;
        CountKeys(S - {x}, m - {x.key});
        assert m.Keys == (m - {x.key}).Keys + {x.key};
      }
    }

    lemma CacheCount()
      requires Linked() && Indexed()
      ensures |cache| == |order|
    {
      CountElements(order);
      CountKeys(entries, cache);
    }

    /** A miss enters a loading entry at the front. */
    method Admit(e: CacheEntry<A>)
      requires Linked() && Indexed() && e !in entries && e.key !in cache
      modifies this, order`prev, order`next, e`prev, e`next
      ensures Linked() && Indexed()
      ensures order == [e] + old(order) && entries == old(entries) + {e} && shown == old(shown)
    {
      cache := cache[e.key := e];
      AddToFront(e);
      entries := entries + {e};
    }

    /** Over the limit, the least recently used entry goes, unless it is still loading. */
    method MakeRoom(ghost e: CacheEntry<A>)
      requires Linked() && Indexed() && 0 < |order| <= MAX_CACHE_ENTRIES + 1
      requires Pending(e) && order[0] == e
      modifies this, order`prev, order`next
      ensures Linked() && Indexed() && Pending(e) && entries <= old(entries) && shown == old(shown)
      ensures order == old(order)[..if |old(order)| > MAX_CACHE_ENTRIES then MAX_CACHE_ENTRIES else |old(order)|]
    {
      CacheCount();
      if |cache| > MAX_CACHE_ENTRIES {
        var victim := tail;
        AllDiffer(order);
        assert victim == order[|order| - 1] && victim != e && victim in entries;
        if victim != null && !victim.loading {
          Discard(victim, |order| - 1);
        }
      }
    }

    /** The load succeeded: publish the archive. */
    method Publish(e: CacheEntry<A>, arch: A)
      requires Linked() && Indexed() && order != [] && order[0] == e && |order| <= MAX_CACHE_ENTRIES && Pending(e)
      modifies this`shown, e`arch, e`err, e`loading
      ensures Valid() && shown == old(shown)[e := Slot(e.key, Some(arch))]
    {
      e.arch, e.err, e.loading := Some(arch), None, false;
      shown := shown[e := Slot(e.key, Some(arch))];
    }

    /** The load failed: drop the entry so that the next request retries. */
    method Retract(e: CacheEntry<A>, error: string)
      requires Linked() && Indexed() && order != [] && order[0] == e && |order| <= MAX_CACHE_ENTRIES && Pending(e)
      modifies this, order`prev, order`next, e`arch, e`err, e`loading
      ensures Valid() && order == old(order)[1..] && shown == old(shown) && entries <= old(entries)
    {
      WithoutFirst(order);
      MarkFailed(e, error);
      Drop(e, 0);
    }

    method MarkFailed(e: CacheEntry<A>, error: string)
      requires Linked() && Pending(e)
      modifies e`arch, e`err, e`loading
      ensures Linked() && Pending(e)
    {
      e.arch, e.err, e.loading := None, Some(error), false;
    }

    static lemma WithoutFirst(list: seq<CacheEntry<A>>)
      requires list != []
      ensures list[..0] + list[1..] == list[1..]
    {
    }

    /** The archive for a window: the resident one, or a fresh build. `load` is what building it now comes to. */
    method Archive(w: Window, load: Outcome<A>) returns (r: Outcome<A>)
      requires Valid()
      modifies this, order
      ensures Valid() && fresh(entries - old(entries))
      ensures Slots() == AfterRequest(old(Slots()), NormalizeWindow(w), load)
      ensures r == Answer(old(Slots()), NormalizeWindow(w), load)
    {
      var key := NormalizeWindow(w);
      if key in cache {
        r := Hit(cache[key]);
      } else {
        NoSlotFor(key);
        match load {
          case Ready(arch) => MissReady(key, arch);
          case Failed(error) => MissFailed(key, error);
        }
        r := load;
      }
    }

    /** Where an entry is in the list; no entry before it shows its window. */
    lemma PlaceOf(e: CacheEntry<A>) returns (k: nat)
      requires Valid() && e in entries
      ensures k < |order| && order[k] == e && Elements(order) <= shown.Keys && shown[e] == Slot(e.key, e.arch)
      ensures forall i :: 0 <= i < k ==> shown[order[i]].key != e.key
    {
      k :| 0 <= k < |order| && order[k] == e;
      AllDiffer(order);
      assert forall x :: x in entries ==> Settled(x, shown);
      forall i | 0 <= i < k ensures order[i] in shown && shown[order[i]].key != e.key {
        assert order[i] in entries && order[i] != order[k] && Settled(order[i], shown);
      }
    }

    method Hit(e: CacheEntry<A>) returns (r: Outcome<A>)
      requires Valid() && e in entries
      modifies this`head, this`tail, this`order, order`prev, order`next
      ensures Valid() && e.arch.Some? && r == Ready(e.arch.value)
      ensures SlotOf(old(Slots()), e.key) == Some(Slot(e.key, e.arch))
      ensures Slots() == [Slot(e.key, e.arch)] + Without(old(Slots()), e.key)
    {
      ghost var k := PlaceOf(e);
      ViewMoved(order, shown, k, e.key);
      Touch(e, k);
      r := Ready(e.arch.value);
    }

    /** A miss whose build succeeds. */
    method MissReady(key: Window, arch: A)
      requires Valid() && key !in cache
      modifies this, order`prev, order`next
      ensures Valid() && fresh(entries - old(entries))
      ensures Slots() == [Slot(key, Some(arch))] + Evicted(old(Slots()))
    {
      ghost var list, m := order, shown;
      var e := Reserve(key);
      Publish(e, arch);
      ViewAdded(list, m, e, Slot(key, Some(arch)));
    }

    /** A miss whose build fails: room was made all the same. */
    method MissFailed(key: Window, error: string)
      requires Valid() && key !in cache
      modifies this, order`prev, order`next
      ensures Valid() && fresh(entries - old(entries))
      ensures Slots() == Evicted(old(Slots()))
    {
      ghost var list, m := order, shown;
      var e := Reserve(key);
      Retract(e, error);
      ViewKept(list, m);
    }

    /** The locked part of a miss. */
    method Reserve(key: Window) returns (e: CacheEntry<A>)
      requires Valid() && key !in cache
      modifies this, order`prev, order`next
      ensures Linked() && Indexed() && fresh(e) && e.key == key && shown == old(shown)
      ensures order == [e] + Keep(old(order)) && |order| <= MAX_CACHE_ENTRIES
      ensures entries <= old(entries) + {e} && Pending(e)
    {
      e := new CacheEntry<A>(key);
      Admit(e);
      MakeRoom(e);
    }

    /** The entries that stay when one more comes in. */
    static function Keep(list: seq<CacheEntry<A>>): seq<CacheEntry<A>> {
      if |list| >= MAX_CACHE_ENTRIES then list[..MAX_CACHE_ENTRIES - 1] else list
    }

    static lemma ViewKept(list: seq<CacheEntry<A>>, m: map<CacheEntry<A>, Slot<A>>)
      requires Elements(list) <= m.Keys
      ensures Elements(Keep(list)) <= m.Keys && View(Keep(list), m) == Evicted(View(list, m))
    {
    }

    static lemma ViewAdded(list: seq<CacheEntry<A>>, m: map<CacheEntry<A>, Slot<A>>, e: CacheEntry<A>, s: Slot<A>)
      requires Elements(list) <= m.Keys && e !in list
      ensures Elements([e] + Keep(list)) <= m[e := s].Keys
      ensures View([e] + Keep(list), m[e := s]) == [s] + Evicted(View(list, m))
    {
      ViewKept(list, m);
    }

    lemma NoSlotFor(key: Window)
      requires Valid() && key !in cache
      ensures SlotOf(Slots(), key) == None
    {
      forall i | 0 <= i < |order| ensures Slots()[i].key != key { assert order[i] in entries; }
      NoSlot(Slots(), key);
    }

    // ----- invalidation -----

    /** The entries of list that are in S, in order. */
    static ghost function Remaining(list: seq<CacheEntry<A>>, S: set<CacheEntry<A>>): seq<CacheEntry<A>> {
      if list == [] then []
      else if list[0] in S then [list[0]] + Remaining(list[1..], S)
      else Remaining(list[1..], S)
    }

    static lemma {:induction false} RemainingFrom(list: seq<CacheEntry<A>>, S: set<CacheEntry<A>>, i: nat)
      returns (j: nat)
      requires i < |Remaining(list, S)|
      ensures j < |list| && list[j] == Remaining(list, S)[i]
    {
      if list[0] in S {
        if i == 0 {
          return 0;
        }
        var n := RemainingFrom(list[1..], S, i - 1);
        j := n + 1;
      } else {
        var n := RemainingFrom(list[1..], S, i);
        j := n + 1;
      }
    }

    static lemma {:induction false} RemainingAll(list: seq<CacheEntry<A>>, S: set<CacheEntry<A>>)
      requires forall i :: 0 <= i < |list| ==> list[i] in S
      ensures Remaining(list, S) == list
    {
      if list != [] { RemainingAll(list[1..], S); }
    }

    static lemma {:induction false} RemainingIgnores(list: seq<CacheEntry<A>>, S: set<CacheEntry<A>>, e: CacheEntry<A>)
      requires forall i :: 0 <= i < |list| ==> list[i] != e
      ensures Remaining(list, S) == Remaining(list, S - {e})
    {
      if list != [] { RemainingIgnores(list[1..], S, e); }
    }

    static lemma CutTail(x: CacheEntry<A>, rest: seq<CacheEntry<A>>, k: nat)
      requires k < |rest|
      ensures var r := [x] + rest;
              r[k + 1] == rest[k] && r[..k + 1] + r[k + 2..] == [x] + (rest[..k] + rest[k + 1..])
    {
    }

    static lemma {:induction false} RemainingDrop(list: seq<CacheEntry<A>>, S: set<CacheEntry<A>>, k: nat)
      requires ListedOnce(list)
      requires k < |Remaining(list, S)|
      ensures var r := Remaining(list, S); r[..k] + r[k + 1..] == Remaining(list, S - {r[k]})
    {
      var rest := Remaining(list[1..], S);
      AllDiffer(list);
      if list[0] !in S {
        RemainingDrop(list[1..], S, k);
        assert list[0] !in S - {rest[k]};
      } else if k == 0 {
        RemainingIgnores(list[1..], S, list[0]);
        assert ([list[0]] + rest)[..0] + ([list[0]] + rest)[1..] == rest;
      } else {
        RemainingDrop(list[1..], S, k - 1);
        var j := RemainingFrom(list[1..], S, k - 1);
        CutTail(list[0], rest, k - 1);
        assert list[0] in S - {rest[k - 1]} by { assert list[j + 1] == rest[k - 1] != list[0]; }
      }
    }

    static lemma {:induction false} ViewRemaining(list: seq<CacheEntry<A>>, m: map<CacheEntry<A>, Slot<A>>,
                                                  S: set<CacheEntry<A>>, affected: Window)
      requires Elements(list) <= m.Keys
      requires forall i :: 0 <= i < |list| ==> (list[i] in S <==> !RangesOverlap(m[list[i]].key, affected))
      ensures Elements(Remaining(list, S)) <= m.Keys
      ensures View(Remaining(list, S), m) == Unaffected(View(list, m), affected)
    {
      if list != [] {
        assert View(list, m)[1..] == View(list[1..], m);
        ViewRemaining(list[1..], m, S, affected);
      }
    }

    /** The same for an entry of a list of which some entries remain. */
    method DropListed(e: CacheEntry<A>, ghost list: seq<CacheEntry<A>>)
      requires Valid() && e in entries && order == Remaining(list, entries)
      requires ListedOnce(list)
      modifies this, order`prev, order`next
      ensures Valid() && shown == old(shown) && entries == old(entries) - {e} && order == Remaining(list, entries)
      ensures cache.Keys == old(cache.Keys) - {e.key}
    {
      ghost var k :| 0 <= k < |order| && order[k] == e;
      RemainingDrop(list, entries, k);
      Drop(e, k);
    }

    /** Which entries are left once one more key has been visited. */
    static lemma VisitedOneMore(all: set<CacheEntry<A>>, left: set<CacheEntry<A>>, pending: set<Window>,
                                e: CacheEntry<A>, affected: Window)
      requires forall x :: x in all ==> (x in left <==> x.key in pending || !RangesOverlap(x.key, affected))
      requires e in left && e.key in pending && forall x :: x in left ==> (x == e <==> x.key == e.key)
      ensures var left' := if RangesOverlap(e.key, affected) then left - {e} else left;
              forall x :: x in all ==> (x in left' <==> x.key in pending - {e.key} || !RangesOverlap(x.key, affected))
    {
    }

    /** Of the entries in `all`, those gone are the overlapping ones whose keys have been visited. */
    ghost predicate Sweeping(all: set<CacheEntry<A>>, list: seq<CacheEntry<A>>, pending: set<Window>, affected: Window)
      reads this
    {
      && entries <= all && pending <= cache.Keys
      && (forall x :: x in all ==> (x in entries <==> x.key in pending || !RangesOverlap(x.key, affected)))
      && order == Remaining(list, entries)
      && ListedOnce(list)
    }

    method VisitKey(key: Window, affected: Window, ghost all: set<CacheEntry<A>>, ghost list: seq<CacheEntry<A>>,
                    ghost pending: set<Window>)
      requires Valid() && key in pending && Sweeping(all, list, pending, affected)
      modifies this, order`prev, order`next
      ensures Valid() && shown == old(shown) && Sweeping(all, list, pending - {key}, affected)
      ensures entries <= old(entries)
    {
      var e := cache[key];
      VisitedOneMore(all, entries, pending, e, affected);
      if RangesOverlap(key, affected) {
        DropListed(e, list);
      }
    }

    lemma SweepStarts(affected: Window)
      requires Valid()
      ensures Sweeping(entries, order, cache.Keys, affected)
    {
      RemainingAll(order, entries);
    }

    static lemma StillListed(left: seq<CacheEntry<A>>, list: seq<CacheEntry<A>>)
      requires Elements(left) <= Elements(list)
      ensures forall i :: 0 <= i < |left| ==> left[i] in list
    {
      forall i | 0 <= i < |left| ensures left[i] in list {
        assert left[i] in Elements(list);
      }
    }

    /** With every key visited the list is cut down to the windows that do not overlap. */
    lemma SweepEnds(list: seq<CacheEntry<A>>, affected: Window)
      requires Valid() && Elements(list) <= shown.Keys && Sweeping(Elements(list), list, {}, affected)
      requires forall x :: x in list ==> shown[x].key == x.key
      ensures Slots() == Unaffected(View(list, shown), affected)
    {
      forall i | 0 <= i < |list|
        ensures list[i] in entries <==> !RangesOverlap(shown[list[i]].key, affected)
      {
        assert list[i] in Elements(list);
      }
      ViewRemaining(list, shown, entries, affected);
    }

    /** Drop every cached window that overlaps the affected range, in whatever order the map is visited. */
    method InvalidateRange(affected: Window)
      requires Valid()
      modifies this, order`prev, order`next
      ensures Valid() && entries <= old(entries)
      ensures Slots() == Unaffected(old(Slots()), affected)
    {
      ghost var list, all := order, entries;
      SweepStarts(affected);
      var pending := cache.Keys;
      while pending != {}
        invariant Valid() && shown == old(shown) && Sweeping(all, list, pending, affected)
        decreases pending
      {
        StillListed(order, list);
        var key :| key in pending;
        VisitKey(key, affected, all, list, pending);
        pending := pending - {key};
      }
      SweepEnds(list, affected);
    }

    method InvalidateAll()
      requires Valid()
      modifies this
      ensures Valid() && Slots() == []
    {
      cache := map[];
      head := null;
      tail := null;
      order, entries := [], {};
    }
  }

  // ---------- recency over whole runs ----------

  /** The recency list after a run of requests whose builds all succeed, latest request last. */
  function AfterRun<A>(run: seq<(Window, A)>): seq<Slot<A>> {
    if run == [] then []
    else AfterRequest(AfterRun(run[..|run| - 1]), run[|run| - 1].0, Ready(run[|run| - 1].1))
  }

  function KeysOf<A>(slots: seq<Slot<A>>): (r: seq<Window>)
    ensures |r| == |slots|
    ensures forall i :: 0 <= i < |r| ==> r[i] == slots[i].key
  {
    seq(|slots|, i requires 0 <= i < |slots| => slots[i].key)
  }

  function Dropped(ks: seq<Window>, key: Window): seq<Window> {
    if ks == [] then []
    else if ks[0] == key then ks[1..]
    else [ks[0]] + Dropped(ks[1..], key)
  }

  /** The windows requested in a run, most recently requested first, each once. */
  function Recent<A>(run: seq<(Window, A)>): seq<Window> {
    if run == [] then []
    else [run[|run| - 1].0] + Dropped(Recent(run[..|run| - 1]), run[|run| - 1].0)
  }

  function Newest(ks: seq<Window>): seq<Window> {
    if |ks| > MAX_CACHE_ENTRIES then ks[..MAX_CACHE_ENTRIES] else ks
  }

  lemma {:induction false} DropWithout<A>(slots: seq<Slot<A>>, key: Window)
    ensures KeysOf(Without(slots, key)) == Dropped(KeysOf(slots), key)
    ensures SlotOf(slots, key).Some? <==> key in KeysOf(slots)
    ensures SlotOf(slots, key).Some? ==> SlotOf(slots, key).value.key == key
  {
    if slots != [] {
      DropWithout(slots[1..], key);
      assert KeysOf(slots)[1..] == KeysOf(slots[1..]);
      assert KeysOf(slots) == [slots[0].key] + KeysOf(slots[1..]);
    }
  }

  lemma FrontByHead(ks: seq<Window>, n: nat)
    requires 0 < n <= |ks|
    ensures ks[..n][0] == ks[0] && ks[..n][1..] == ks[1..][..n - 1]
    ensures ks[..n] == [ks[0]] + ks[1..][..n - 1]
  {
  }

  /** Dropping from a front part or from the whole list agrees on the front. */
  lemma {:induction false} DropFront(ks: seq<Window>, key: Window, n: nat)
    requires n <= |ks|
    ensures key in ks[..n] ==> |Dropped(ks, key)| == |ks| - 1 && Dropped(ks[..n], key) == Dropped(ks, key)[..n - 1]
    ensures key !in ks[..n] ==> Dropped(ks[..n], key) == ks[..n] && n <= |Dropped(ks, key)| + 1
    ensures key !in ks[..n] && n > 0 ==> Dropped(ks, key)[..n - 1] == ks[..n - 1]
  {
    if n > 0 {
      FrontByHead(ks, n);
      if ks[0] != key { DropFront(ks[1..], key, n - 1); }
    }
  }

  /** What a request for key does to the resident windows. */
  function Renewed(ks: seq<Window>, key: Window): seq<Window> {
    if key in ks then [key] + Dropped(ks, key)
    else [key] + if |ks| >= MAX_CACHE_ENTRIES then ks[..MAX_CACHE_ENTRIES - 1] else ks
  }

  lemma KeysAfterRequest<A>(slots: seq<Slot<A>>, key: Window, a: A)
    ensures KeysOf(AfterRequest(slots, key, Ready(a))) == Renewed(KeysOf(slots), key)
  {
    DropWithout(slots, key);
  }

  lemma NewestRenewed(ks: seq<Window>, key: Window)
    ensures Renewed(Newest(ks), key) == Newest([key] + Dropped(ks, key))
  {
    var n := MAX_CACHE_ENTRIES;
    if |ks| <= n {
      DropFront(ks, key, |ks|);
      assert ks[..|ks|] == ks;
    } else {
      DropFront(ks, key, n);
      var d := Dropped(ks, key);
      assert ([key] + d)[..n] == [key] + d[..n - 1];
      assert key !in ks[..n] ==> ks[..n][..n - 1] == ks[..n - 1];
    }
  }

  /** After any run of successful requests the resident windows are the eight most recently requested
      distinct ones, most recent first. */
  lemma {:induction false} RunKeepsMostRecent<A>(run: seq<(Window, A)>)
    ensures KeysOf(AfterRun(run)) == Newest(Recent(run))
    decreases |run|
  {
    if run != [] {
      var before, last := run[..|run| - 1], run[|run| - 1];
      RunKeepsMostRecent(before);
      KeysAfterRequest(AfterRun(before), last.0, last.1);
      NewestRenewed(Recent(before), last.0);
    }
  }

  // ---------- runs with failures and invalidations ----------

  datatype Event<+A> = Requested(key: Window, load: Outcome<A>) | RangeInvalidated(affected: Window) | AllInvalidated

  /** The recency list after any run of calls, latest last. */
  function AfterEvents<A>(events: seq<Event<A>>): seq<Slot<A>> {
    if events == [] then []
    else
      var before := AfterEvents(events[..|events| - 1]);
      match events[|events| - 1]
      case Requested(key, load) => AfterRequest(before, key, load)
      case RangeInvalidated(affected) => Unaffected(before, affected)
      case AllInvalidated => []
  }

  /** Every window ever requested, most recently requested first, each once. */
  function RequestOrder<A>(events: seq<Event<A>>): seq<Window> {
    if events == [] then []
    else
      var before := RequestOrder(events[..|events| - 1]);
      match events[|events| - 1]
      case Requested(key, _) => [key] + Dropped(before, key)
      case _ => before
  }

  /** a is b with some entries left out. */
  ghost predicate SubOrder(a: seq<Window>, b: seq<Window>) {
    a == [] || (b != [] && ((a[0] == b[0] && SubOrder(a[1..], b[1..])) || SubOrder(a, b[1..])))
  }

  ghost predicate NoRepeats(ks: seq<Window>) {
    ks == [] || (ks[0] !in ks[1..] && NoRepeats(ks[1..]))
  }

  lemma {:induction false} DroppedAbsent(ks: seq<Window>, key: Window)
    requires key !in ks
    ensures Dropped(ks, key) == ks
  {
    if ks != [] { DroppedAbsent(ks[1..], key); }
  }

  lemma {:induction false} SubOrderMembers(a: seq<Window>, b: seq<Window>, key: Window)
    requires SubOrder(a, b) && key in a
    ensures key in b
  {
    if a[0] == b[0] && SubOrder(a[1..], b[1..]) {
      if key != a[0] {
        assert a == [a[0]] + a[1..];
        SubOrderMembers(a[1..], b[1..], key);
      }
    } else {
      SubOrderMembers(a, b[1..], key);
    }
  }

  lemma {:induction false} DroppedMembers(ks: seq<Window>, key: Window, other: Window)
    requires other in Dropped(ks, key)
    ensures other in ks
  {
    if ks[0] != key && other != ks[0] {
      DroppedMembers(ks[1..], key, other);
    }
  }

  lemma {:induction false} DroppedNoRepeats(ks: seq<Window>, key: Window)
    requires NoRepeats(ks)
    ensures NoRepeats([key] + Dropped(ks, key)) && NoRepeats(Dropped(ks, key)) && key !in Dropped(ks, key)
  {
    var d := Dropped(ks, key);
    if ks != [] && ks[0] != key {
      var rest := Dropped(ks[1..], key);
      DroppedNoRepeats(ks[1..], key);
      if ks[0] in rest { DroppedMembers(ks[1..], key, ks[0]); }
      assert d == [ks[0]] + rest && d[1..] == rest;
    }
    assert ([key] + d)[1..] == d;
  }

  lemma SubOrderCons(x: Window, a: seq<Window>, b: seq<Window>)
    requires SubOrder(a, b)
    ensures SubOrder([x] + a, [x] + b) && SubOrder(a, [x] + b)
  {
    assert ([x] + a)[1..] == a && ([x] + b)[1..] == b;
  }

  lemma {:induction false} SubOrderDropped(a: seq<Window>, b: seq<Window>, key: Window)
    requires SubOrder(a, b) && NoRepeats(b)
    ensures SubOrder(Dropped(a, key), Dropped(b, key))
  {
    if a != [] {
      if a[0] == b[0] && SubOrder(a[1..], b[1..]) {
        if a[0] != key {
          SubOrderDropped(a[1..], b[1..], key);
          SubOrderCons(a[0], Dropped(a[1..], key), Dropped(b[1..], key));
        }
      } else if b[0] == key {
        if key in a { SubOrderMembers(a, b[1..], key); }
        DroppedAbsent(a, key);
      } else {
        SubOrderDropped(a, b[1..], key);
        SubOrderCons(b[0], Dropped(a, key), Dropped(b[1..], key));
      }
    }
  }

  lemma {:induction false} SubOrderFront(a: seq<Window>, b: seq<Window>, n: nat)
    requires SubOrder(a, b) && n <= |a|
    ensures SubOrder(a[..n], b)
  {
    if n > 0 {
      if a[0] == b[0] && SubOrder(a[1..], b[1..]) {
        SubOrderFront(a[1..], b[1..], n - 1);
        assert a[..n][1..] == a[1..][..n - 1];
      } else {
        SubOrderFront(a, b[1..], n);
      }
    }
  }

  lemma KeysCons<A>(slot: Slot<A>, rest: seq<Slot<A>>)
    ensures KeysOf([slot] + rest) == [slot.key] + KeysOf(rest)
  {
  }

  lemma KeysUnaffected<A>(slots: seq<Slot<A>>, affected: Window)
    requires slots != []
    ensures var kept := Unaffected(slots[1..], affected);
            && |Unaffected(slots, affected)| <= |kept| + 1
            && KeysOf(Unaffected(slots, affected))
               == if RangesOverlap(slots[0].key, affected) then KeysOf(kept) else [slots[0].key] + KeysOf(kept)
  {
    KeysCons(slots[0], Unaffected(slots[1..], affected));
  }

  lemma {:induction false} SubOrderUnaffected<A>(slots: seq<Slot<A>>, b: seq<Window>, affected: Window)
    requires SubOrder(KeysOf(slots), b)
    ensures SubOrder(KeysOf(Unaffected(slots, affected)), b)
    ensures |Unaffected(slots, affected)| <= |slots|
    decreases |slots| + |b|
  {
    if slots != [] {
      var rest := slots[1..];
      assert KeysOf(slots)[1..] == KeysOf(rest);
      if slots[0].key == b[0] && SubOrder(KeysOf(rest), b[1..]) {
        SubOrderUnaffected(rest, b[1..], affected);
        SubOrderCons(b[0], KeysOf(Unaffected(rest, affected)), b[1..]);
        assert [b[0]] + b[1..] == b;
        KeysUnaffected(slots, affected);
      } else {
        SubOrderUnaffected(slots, b[1..], affected);
      }
    }
  }

  /** A request for a resident window. */
  lemma ResidentRequested<A>(slots: seq<Slot<A>>, order: seq<Window>, key: Window, slot: Slot<A>)
    requires SubOrder(KeysOf(slots), order) && NoRepeats(order) && SlotOf(slots, key) == Some(slot)
    ensures SubOrder(KeysOf([slot] + Without(slots, key)), [key] + Dropped(order, key))
    ensures |Without(slots, key)| == |slots| - 1
  {
    DropWithout(slots, key);
    SubOrderDropped(KeysOf(slots), order, key);
    KeysCons(slot, Without(slots, key));
    SubOrderCons(key, KeysOf(Without(slots, key)), Dropped(order, key));
    SlotLeaves(slots, key);
  }

  /** A request for a window that is not resident: what stays. */
  lemma AbsentRequested<A>(slots: seq<Slot<A>>, order: seq<Window>, key: Window)
    requires SubOrder(KeysOf(slots), order) && NoRepeats(order) && SlotOf(slots, key) == None
    ensures SubOrder(KeysOf(Evicted(slots)), Dropped(order, key))
  {
    DropWithout(slots, key);
    SubOrderDropped(KeysOf(slots), order, key);
    DroppedAbsent(KeysOf(slots), key);
    var kept := |Evicted(slots)|;
    assert KeysOf(Evicted(slots)) == KeysOf(slots)[..kept];
    SubOrderFront(KeysOf(slots), Dropped(order, key), kept);
  }

  /** What one request does to the order of the resident windows. */
  lemma SubOrderRequest<A>(slots: seq<Slot<A>>, order: seq<Window>, key: Window, load: Outcome<A>)
    requires SubOrder(KeysOf(slots), order) && NoRepeats(order) && |slots| <= MAX_CACHE_ENTRIES
    ensures SubOrder(KeysOf(AfterRequest(slots, key, load)), [key] + Dropped(order, key))
    ensures |AfterRequest(slots, key, load)| <= MAX_CACHE_ENTRIES
  {
    match SlotOf(slots, key)
    case Some(slot) =>
      ResidentRequested(slots, order, key, slot);
    case None =>
      AbsentRequested(slots, order, key);
      SubOrderCons(key, KeysOf(Evicted(slots)), Dropped(order, key));
      if load.Ready? { KeysCons(Slot(key, Some(load.arch)), Evicted(slots)); }
  }

  lemma {:induction false} SlotLeaves<A>(slots: seq<Slot<A>>, key: Window)
    requires SlotOf(slots, key).Some?
    ensures |Without(slots, key)| == |slots| - 1
  {
    if slots[0].key != key { SlotLeaves(slots[1..], key); }
  }

  /** After any run at all, failed builds and invalidations included, the resident windows are at most eight, and in
      the order in which they were last requested. */
  lemma {:induction false} RunKeepsRequestOrder<A>(events: seq<Event<A>>)
    ensures SubOrder(KeysOf(AfterEvents(events)), RequestOrder(events)) && NoRepeats(RequestOrder(events))
    ensures |AfterEvents(events)| <= MAX_CACHE_ENTRIES
    decreases |events|
  {
    if events != [] {
      var before, last := events[..|events| - 1], events[|events| - 1];
      RunKeepsRequestOrder(before);
      match last
      case Requested(key, load) =>
        SubOrderRequest(AfterEvents(before), RequestOrder(before), key, load);
        DroppedNoRepeats(RequestOrder(before), key);
      case RangeInvalidated(affected) => SubOrderUnaffected(AfterEvents(before), RequestOrder(before), affected);
      case AllInvalidated =>
    }
  }
}
