/** What the cache answers, and how long it keeps a window, over whole runs of calls. */
module RecencyRuns {
  import opened Options
  import opened DateWindow
  import opened LotteryManagers

  ghost predicate Resident<A>(slots: seq<Slot<A>>, w: Window) { SlotOf(slots, w).Some? }

  /** The window is resident with this archive. */
  ghost predicate Holds<A>(slots: seq<Slot<A>>, w: Window, arch: A) { SlotOf(slots, w) == Some(Slot(w, Some(arch))) }

  // ---------- one call ----------

  lemma {:induction false} SlotHasKey<A>(slots: seq<Slot<A>>, w: Window)
    ensures SlotOf(slots, w).Some? ==> SlotOf(slots, w).value in slots && SlotOf(slots, w).value.key == w
  {
    if slots != [] && slots[0].key != w { SlotHasKey(slots[1..], w); }
  }

  lemma SlotCons<A>(s: Slot<A>, rest: seq<Slot<A>>, w: Window)
    ensures SlotOf([s] + rest, w) == if s.key == w then Some(s) else SlotOf(rest, w)
  {
    assert ([s] + rest)[1..] == rest;
  }

  lemma {:induction false} WithoutOther<A>(slots: seq<Slot<A>>, key: Window, w: Window)
    requires w != key
    ensures SlotOf(Without(slots, key), w) == SlotOf(slots, w)
  {
    if slots != [] && slots[0].key != key {
      WithoutOther(slots[1..], key, w);
      SlotCons(slots[0], Without(slots[1..], key), w);
    }
  }

  lemma {:induction false} FrontSlot<A>(slots: seq<Slot<A>>, n: nat, w: Window)
    requires n <= |slots|
    ensures SlotOf(slots[..n], w).Some? ==> SlotOf(slots[..n], w) == SlotOf(slots, w)
    ensures SlotOf(slots[..n], w) == None && SlotOf(slots, w).Some? ==>
              exists i :: n <= i < |slots| && slots[i].key == w
  {
    if n > 0 {
      assert slots[..n][0] == slots[0] && slots[..n][1..] == slots[1..][..n - 1];
      FrontSlot(slots[1..], n - 1, w);
      if slots[0].key != w && SlotOf(slots[..n], w) == None && SlotOf(slots, w).Some? {
        var i :| n - 1 <= i < |slots| - 1 && slots[1..][i].key == w;
        assert slots[i + 1].key == w;
      }
    } else if SlotOf(slots, w).Some? {
      SlotHasKey(slots, w);
    }
  }

  /** A request changes what another window holds only by evicting it. */
  lemma OtherAfterRequest<A>(slots: seq<Slot<A>>, key: Window, load: Outcome<A>, w: Window)
    requires w != key
    ensures SlotOf(AfterRequest(slots, key, load), w) ==
            if Resident(slots, key) then SlotOf(slots, w) else SlotOf(Evicted(slots), w)
  {
    SlotHasKey(slots, key);
    match SlotOf(slots, key)
    case Some(slot) =>
      WithoutOther(slots, key, w);
      SlotCons(slot, Without(slots, key), w);
    case None =>
      if load.Ready? { SlotCons(Slot(key, Some(load.arch)), Evicted(slots), w); }
  }

  lemma {:induction false} UnaffectedSlot<A>(slots: seq<Slot<A>>, affected: Window, w: Window)
    ensures SlotOf(Unaffected(slots, affected), w) == if RangesOverlap(w, affected) then None else SlotOf(slots, w)
  {
    if slots != [] {
      UnaffectedSlot(slots[1..], affected, w);
      SlotCons(slots[0], Unaffected(slots[1..], affected), w);
    }
  }

  /** Only windows that were resident before are shown after an eviction, with what they held. */
  lemma EvictedSlot<A>(slots: seq<Slot<A>>, w: Window)
    ensures SlotOf(Evicted(slots), w).Some? ==> SlotOf(Evicted(slots), w) == SlotOf(slots, w)
  {
    if |slots| >= MAX_CACHE_ENTRIES { FrontSlot(slots, MAX_CACHE_ENTRIES - 1, w); }
  }

  // ---------- what a run answers ----------

  /** Event i is a request for w that found it absent and built this archive. */
  ghost predicate Builds<A>(events: seq<Event<A>>, i: nat, w: Window, arch: A) {
    i < |events| && events[i] == Requested(w, Ready(arch)) && !Resident(AfterEvents(events[..i]), w)
  }

  /** Event i is a request for w that found it absent, whatever came of it. */
  ghost predicate Misses<A>(events: seq<Event<A>>, i: nat, w: Window) {
    i < |events| && events[i].Requested? && events[i].key == w && !Resident(AfterEvents(events[..i]), w)
  }

  lemma StillBuilds<A>(events: seq<Event<A>>, n: nat, i: nat, w: Window, arch: A)
    requires n <= |events| && Builds(events[..n], i, w, arch)
    ensures Builds(events, i, w, arch)
  {
    assert events[..n][..i] == events[..i];
  }

  /** What a resident window holds is what the latest request that found it absent built. */
  lemma {:induction false} HeldWasBuilt<A>(events: seq<Event<A>>, w: Window) returns (i: nat, arch: A)
    requires Resident(AfterEvents(events), w)
    ensures Holds(AfterEvents(events), w, arch) && Builds(events, i, w, arch)
    ensures forall j :: i < j < |events| ==> !Misses(events, j, w)
    decreases |events|
  {
    var init, last := events[..|events| - 1], events[|events| - 1];
    var before := AfterEvents(init);
    if last.Requested? && last.key == w && !Resident(before, w) {
      i := |events| - 1;
      BuiltNow(before, w, last.load);
      arch := last.load.arch;
    } else {
      KeptFromBefore(before, last, w);
      i, arch := HeldWasBuilt(init, w);
      StillBuilds(events, |events| - 1, i, w, arch);
      forall j | i < j < |events| ensures !Misses(events, j, w) {
        if j < |init| { assert events[..j] == init[..j] && !Misses(init, j, w); }
      }
    }
  }

  lemma BuiltNow<A>(slots: seq<Slot<A>>, w: Window, load: Outcome<A>)
    requires !Resident(slots, w) && Resident(AfterRequest(slots, w, load), w)
    ensures load.Ready? && Holds(AfterRequest(slots, w, load), w, load.arch)
  {
    EvictedSlot(slots, w);
    if load.Ready? { SlotCons(Slot(w, Some(load.arch)), Evicted(slots), w); }
  }

  function AfterEvent<A>(slots: seq<Slot<A>>, event: Event<A>): seq<Slot<A>> {
    match event
    case Requested(key, load) => AfterRequest(slots, key, load)
    case RangeInvalidated(affected) => Unaffected(slots, affected)
    case AllInvalidated => []
  }

  lemma KeptFromBefore<A>(slots: seq<Slot<A>>, event: Event<A>, w: Window)
    requires Resident(AfterEvent(slots, event), w)
    requires event.Requested? && event.key == w ==> Resident(slots, w)
    ensures Resident(slots, w) && SlotOf(AfterEvent(slots, event), w) == SlotOf(slots, w)
  {
    match event
    case Requested(key, load) =>
      if key == w {
        SlotHasKey(slots, w);
        SlotCons(SlotOf(slots, w).value, Without(slots, w), w);
      } else {
        OtherAfterRequest(slots, key, load, w);
        EvictedSlot(slots, w);
      }
    case RangeInvalidated(affected) => UnaffectedSlot(slots, affected, w);
    case AllInvalidated =>
  }

  /** After any run: a request for a resident window is answered with the archive that the latest request which found
      it absent built, whatever building now would come to; a request for an absent one with what building comes to. */
  lemma AnsweredWithLatestBuild<A>(events: seq<Event<A>>, w: Window, load: Outcome<A>) returns (i: nat, arch: A)
    requires Resident(AfterEvents(events), w)
    ensures Answer(AfterEvents(events), w, load) == Ready(arch)
    ensures Builds(events, i, w, arch) && forall j :: i < j < |events| ==> !Misses(events, j, w)
  {
    i, arch := HeldWasBuilt(events, w);
  }

  lemma AbsentAnsweredWithLoad<A>(events: seq<Event<A>>, w: Window, load: Outcome<A>)
    requires !Resident(AfterEvents(events), w)
    ensures Answer(AfterEvents(events), w, load) == load
  {
  }

  /** In one step: what a successful miss built answers the next request for the window, whatever its load. */
  lemma MissThenHit<A>(events: seq<Event<A>>, w: Window, arch: A, load: Outcome<A>)
    requires !Resident(AfterEvents(events), w)
    ensures Answer(AfterEvents(events + [Requested(w, Ready(arch))]), w, load) == Ready(arch)
  {
    var more := events + [Requested(w, Ready(arch))];
    assert more[..|more| - 1] == events;
    SlotCons(Slot(w, Some(arch)), Evicted(AfterEvents(events)), w);
  }

  /** The outcome that a hit would have had changes nothing afterwards. */
  lemma {:induction false} HitLoadIrrelevant<A>(events: seq<Event<A>>, i: nat, w: Window, load: Outcome<A>, n: nat)
    requires i < |events| && events[i].Requested? && events[i].key == w && Resident(AfterEvents(events[..i]), w)
    requires n <= |events|
    ensures AfterEvents(events[i := Requested(w, load)][..n]) == AfterEvents(events[..n])
    decreases n
  {
    var other := events[i := Requested(w, load)];
    if n > 0 {
      HitLoadIrrelevant(events, i, w, load, n - 1);
      assert events[..n][..n - 1] == events[..n - 1] && other[..n][..n - 1] == other[..n - 1];
    }
  }

  // ---------- how long a window is kept ----------

  /** The other windows requested. */
  function Others<A>(events: seq<Event<A>>, w: Window): set<Window> {
    set i | 0 <= i < |events| && events[i].Requested? && events[i].key != w :: events[i].key
  }

  /** No invalidation reaches the window. */
  predicate Spared<A>(events: seq<Event<A>>, w: Window) {
    forall i :: 0 <= i < |events| ==>
      !events[i].AllInvalidated? && (events[i].RangeInvalidated? ==> !RangesOverlap(w, events[i].affected))
  }

  /** w is resident with arch, and only windows of S are ahead of it. */
  ghost predicate Behind<A>(slots: seq<Slot<A>>, w: Window, arch: A, S: set<Window>) {
    && |slots| <= MAX_CACHE_ENTRIES
    && exists p :: 0 <= p < |slots| && PlacedAt(slots, p, w, arch, S)
  }

  ghost predicate PlacedAt<A>(slots: seq<Slot<A>>, p: nat, w: Window, arch: A, S: set<Window>)
    requires p < |slots|
  {
    && slots[p] == Slot(w, Some(arch))
    && (forall i :: 0 <= i < p ==> slots[i].key in S && slots[i].key != w)
    && (forall i, j :: 0 <= i < j < p ==> slots[i].key != slots[j].key)
  }

  lemma PlacedHolds<A>(slots: seq<Slot<A>>, p: nat, w: Window, arch: A, S: set<Window>)
    requires p < |slots| && PlacedAt(slots, p, w, arch, S)
    ensures Holds(slots, w, arch)
  {
    SlotAt(slots, w, p);
  }

  /** Distinct windows of S ahead of w: no more than S has. */
  lemma {:induction false} AheadCounts<A>(slots: seq<Slot<A>>, p: nat, S: set<Window>)
    requires p <= |slots|
    requires forall i :: 0 <= i < p ==> slots[i].key in S
    requires forall i, j :: 0 <= i < j < p ==> slots[i].key != slots[j].key
    ensures p <= |S|
    decreases p
  {
    if p > 0 {
      var k := slots[p - 1].key;
      AheadCounts(slots, p - 1, S - {k});
    }
  }

  lemma {:induction false} FirstPlace<A>(slots: seq<Slot<A>>, key: Window) returns (q: nat)
    requires Resident(slots, key)
    ensures q < |slots| && slots[q].key == key && SlotOf(slots, key) == Some(slots[q])
    ensures forall i :: 0 <= i < q ==> slots[i].key != key
    ensures Without(slots, key) == slots[..q] + slots[q + 1..]
  {
    if slots[0].key == key {
      q := 0;
    } else {
      var n := FirstPlace(slots[1..], key);
      q := n + 1;
      assert forall i :: 0 < i < q ==> slots[i] == slots[1..][i - 1];
    }
    SlotAt(slots, key, q);
  }

  lemma {:induction false} NotShown<A>(slots: seq<Slot<A>>, key: Window)
    requires !Resident(slots, key)
    ensures forall i :: 0 <= i < |slots| ==> slots[i].key != key
  {
    if slots != [] {
      NotShown(slots[1..], key);
      assert forall i :: 0 < i < |slots| ==> slots[i] == slots[1..][i - 1];
    }
  }

  /** A hit on another window. */
  lemma BehindHit<A>(slots: seq<Slot<A>>, key: Window, q: nat, p: nat, w: Window, arch: A, S: set<Window>)
    requires p < |slots| && PlacedAt(slots, p, w, arch, S) && q < |slots| && slots[q].key == key != w
    requires forall i :: 0 <= i < q ==> slots[i].key != key
    ensures var after, at := [slots[q]] + (slots[..q] + slots[q + 1..]), if q < p then p else p + 1;
            at < |after| && PlacedAt(after, at, w, arch, S + {key})
  {
  }

  /** A miss on another window, after which the list is the front of the old one, with or without the new window. */
  lemma BehindMiss<A>(slots: seq<Slot<A>>, slot: Slot<A>, p: nat, w: Window, arch: A, S: set<Window>, kept: nat)
    requires p < kept <= |slots| && PlacedAt(slots, p, w, arch, S) && slot.key != w
    requires forall i :: 0 <= i < |slots| ==> slots[i].key != slot.key
    ensures PlacedAt(slots[..kept], p, w, arch, S + {slot.key})
    ensures PlacedAt([slot] + slots[..kept], p + 1, w, arch, S + {slot.key})
  {
  }

  /** An invalidation that spares w. */
  lemma {:induction false} BehindSpared<A>(slots: seq<Slot<A>>, affected: Window, p: nat, w: Window, arch: A,
                                           S: set<Window>)
    returns (at: nat)
    requires p < |slots| && PlacedAt(slots, p, w, arch, S) && !RangesOverlap(w, affected)
    ensures at < |Unaffected(slots, affected)| <= |slots|
    ensures PlacedAt(Unaffected(slots, affected), at, w, arch, S)
    decreases p
  {
    UnaffectedSize(slots, affected);
    if p == 0 {
      at := 0;
    } else {
      var first, rest := slots[0], slots[1..];
      assert forall i :: 0 <= i < p - 1 ==> rest[i] == slots[i + 1];
      at := BehindSpared(rest, affected, p - 1, w, arch, S - {first.key});
      if !RangesOverlap(first.key, affected) {
        at := at + 1;
        PlacedCons(first, Unaffected(rest, affected), at - 1, w, arch, S);
      }
    }
  }

  lemma PlacedCons<A>(first: Slot<A>, rest: seq<Slot<A>>, at: nat, w: Window, arch: A, S: set<Window>)
    requires at < |rest| && PlacedAt(rest, at, w, arch, S - {first.key}) && first.key in S && first.key != w
    ensures PlacedAt([first] + rest, at + 1, w, arch, S)
  {
  }

  lemma {:induction false} UnaffectedSize<A>(slots: seq<Slot<A>>, affected: Window)
    ensures |Unaffected(slots, affected)| <= |slots|
  {
    if slots != [] { UnaffectedSize(slots[1..], affected); }
  }

  lemma OthersOfOne<A>(event: Event<A>, w: Window)
    ensures Others([event], w) == if event.Requested? && event.key != w then {event.key} else {}
  {
    assert [event][0] == event;
  }

  lemma OthersConcat<A>(a: seq<Event<A>>, b: seq<Event<A>>, w: Window)
    ensures Others(a + b, w) == Others(a, w) + Others(b, w)
  {
    forall k ensures k in Others(a + b, w) <==> k in Others(a, w) || k in Others(b, w) {
      if i :| 0 <= i < |a| && a[i].Requested? && a[i].key != w && a[i].key == k { assert (a + b)[i] == a[i]; }
      if i :| 0 <= i < |b| && b[i].Requested? && b[i].key != w && b[i].key == k { assert (a + b)[|a| + i] == b[i]; }
    }
  }

  /** One call that spares w, of which at most seven other windows have been requested since. */
  lemma StaysBehind<A>(slots: seq<Slot<A>>, event: Event<A>, w: Window, arch: A, S: set<Window>)
    requires Behind(slots, w, arch, S) && Spared([event], w)
    requires |S + Others([event], w)| < MAX_CACHE_ENTRIES
    ensures Behind(AfterEvent(slots, event), w, arch, S + Others([event], w))
  {
    var p :| 0 <= p < |slots| && PlacedAt(slots, p, w, arch, S);
    assert [event][0] == event;
    match event
    case Requested(key, load) =>
      OthersOfOne(event, w);
      assert S + {} == S;
      RequestKeepsBehind(slots, key, load, p, w, arch, S);
    case RangeInvalidated(affected) =>
      var at := BehindSpared(slots, affected, p, w, arch, S);
      OthersOfOne(event, w);
      assert S + {} == S;
  }

  lemma RequestKeepsBehind<A>(slots: seq<Slot<A>>, key: Window, load: Outcome<A>, p: nat, w: Window, arch: A,
                              S: set<Window>)
    requires p < |slots| <= MAX_CACHE_ENTRIES && PlacedAt(slots, p, w, arch, S)
    requires key != w ==> |S + {key}| < MAX_CACHE_ENTRIES
    ensures Behind(AfterRequest(slots, key, load), w, arch, if key == w then S else S + {key})
  {
    if Resident(slots, key) {
      var q := FirstPlace(slots, key);
      if key == w {
        SlotAt(slots, w, p);
        assert PlacedAt([slots[q]] + Without(slots, w), 0, w, arch, S);
      } else {
        BehindHit(slots, key, q, p, w, arch, S);
      }
    } else {
      NotShown(slots, key);
      AheadCounts(slots, p, S - {key});
      assert S + {key} == (S - {key}) + {key};
      var kept := |Evicted(slots)|;
      assert Evicted(slots) == slots[..kept] && p < kept;
      var slot := Slot(key, if load.Ready? then Some(load.arch) else None);
      BehindMiss(slots, slot, p, w, arch, S, kept);
    }
  }

  lemma Fewer(s: set<Window>, t: set<Window>)
    requires s <= t
    ensures |s| <= |t|
  {
    assert t == s + (t - s);
  }

  lemma OneMoreEvent<A>(events: seq<Event<A>>, n: nat, m: nat, w: Window)
    requires n <= m < |events|
    ensures AfterEvents(events[..m + 1]) == AfterEvent(AfterEvents(events[..m]), events[m])
    ensures Others(events[n..m + 1], w) == Others(events[n..m], w) + Others([events[m]], w)
    ensures Spared(events[n..], w) ==> Spared([events[m]], w)
  {
    assert events[..m + 1][..m] == events[..m];
    assert events[n..m + 1] == events[n..m] + [events[m]];
    OthersConcat(events[n..m], [events[m]], w);
    if Spared(events[n..], w) { assert events[n..][m - n] == events[m]; }
  }

  lemma OthersSoFar<A>(events: seq<Event<A>>, n: nat, m: nat, w: Window)
    requires n <= m <= |events|
    ensures |Others(events[n..m], w)| <= |Others(events[n..], w)|
  {
    assert events[n..] == events[n..m] + events[m..];
    OthersConcat(events[n..m], events[m..], w);
    Fewer(Others(events[n..m], w), Others(events[n..], w));
  }

  lemma BehindOneMore<A>(events: seq<Event<A>>, n: nat, m: nat, w: Window, arch: A)
    requires n <= m < |events| && Spared(events[n..], w) && |Others(events[n..], w)| < MAX_CACHE_ENTRIES
    ensures Behind(AfterEvents(events[..m]), w, arch, Others(events[n..m], w)) ==>
            Behind(AfterEvents(events[..m + 1]), w, arch, Others(events[n..m + 1], w))
  {
    OneMoreEvent(events, n, m, w);
    OthersSoFar(events, n, m + 1, w);
    if Behind(AfterEvents(events[..m]), w, arch, Others(events[n..m], w)) {
      StaysBehind(AfterEvents(events[..m]), events[m], w, arch, Others(events[n..m], w));
    }
  }

  lemma {:induction false} BehindSoFar<A>(events: seq<Event<A>>, n: nat, m: nat, w: Window, arch: A)
    requires n <= m <= |events| && Behind(AfterEvents(events[..n]), w, arch, {})
    requires Spared(events[n..], w) && |Others(events[n..], w)| < MAX_CACHE_ENTRIES
    ensures Behind(AfterEvents(events[..m]), w, arch, Others(events[n..m], w))
    decreases m
  {
    if n == m {
      assert Others(events[n..m], w) == {};
    } else {
      BehindSoFar(events, n, m - 1, w, arch);
      BehindOneMore(events, n, m - 1, w, arch);
    }
  }

  /** After a request for w that leaves it resident, it leads the list. */
  lemma LeadsAfterRequest<A>(events: seq<Event<A>>, n: nat, w: Window, arch: A)
    requires 0 < n <= |events| && events[n - 1].Requested? && events[n - 1].key == w
    requires Holds(AfterEvents(events[..n]), w, arch)
    ensures Behind(AfterEvents(events[..n]), w, arch, {})
  {
    var before, slots := AfterEvents(events[..n - 1]), AfterEvents(events[..n]);
    assert events[..n][..n - 1] == events[..n - 1];
    RunKeepsRequestOrder(events[..n]);
    if Resident(before, w) {
      SlotHasKey(before, w);
    } else {
      EvictedSlot(before, w);
    }
    assert slots[0].key == w;
    assert PlacedAt(slots, 0, w, arch, {});
  }

  /** How long a window is kept, over any run: once requested and resident, it stays resident with the same archive,
      and every request for it is answered with that archive, as long as no invalidation reaches it and at most seven
      other windows are requested, whatever their loads come to. */
  lemma KeptWhileRecent<A>(events: seq<Event<A>>, n: nat, w: Window, arch: A, load: Outcome<A>)
    requires 0 < n <= |events| && events[n - 1].Requested? && events[n - 1].key == w
    requires Holds(AfterEvents(events[..n]), w, arch)
    requires Spared(events[n..], w) && |Others(events[n..], w)| <= 7
    ensures Holds(AfterEvents(events), w, arch) && Answer(AfterEvents(events), w, load) == Ready(arch)
  {
    LeadsAfterRequest(events, n, w, arch);
    BehindSoFar(events, n, |events|, w, arch);
    assert events[..|events|] == events;
    var slots, S := AfterEvents(events), Others(events[n..|events|], w);
    var p :| 0 <= p < |slots| && PlacedAt(slots, p, w, arch, S);
    PlacedHolds(slots, p, w, arch, S);
  }

  /** What an invalidation leaves: exactly the windows it does not reach, with what they held. */
  lemma InvalidationExactly<A>(events: seq<Event<A>>, affected: Window, w: Window)
    ensures SlotOf(AfterEvents(events + [RangeInvalidated(affected)]), w) ==
            if RangesOverlap(w, affected) then None else SlotOf(AfterEvents(events), w)
  {
    var more := events + [RangeInvalidated(affected)];
    assert more[..|more| - 1] == events;
    UnaffectedSlot(AfterEvents(events), affected, w);
  }

  /** A build that fails at capacity has evicted the least recently used window all the same; no other goes, and below
      capacity none. */
  lemma FailedMissEvictsLast<A>(events: seq<Event<A>>, w: Window, error: string)
    requires !Resident(AfterEvents(events), w)
    ensures var before, after := AfterEvents(events), AfterEvents(events + [Requested(w, Failed(error))]);
            |before| <= 8 && after == if |before| == 8 then before[..7] else before
  {
    var more := events + [Requested(w, Failed(error))];
    assert more[..|more| - 1] == events;
    RunKeepsRequestOrder(events);
  }
}
