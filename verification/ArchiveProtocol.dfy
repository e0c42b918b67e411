/** The archive cache under concurrency: every interleaving of requests, loads, writers and invalidations.

    A step is one critical section of the cache mutex, one database access, or one return to a caller.
    The recency list plays no part here; eviction may name any key at all, since a stale tail entry can
    name a key that has been loaded anew. */
module ArchiveProtocol {
  import opened Options
  import opened DateWindow

  // ---------- the table ----------

  /** Draw rows by draw number. */
  type Rows = map<int, Draw>

  /** The table after a log of committed row writes. */
  function TableAfter(log: seq<Draw>): Rows {
    if log == [] then map[] else TableAfter(log[..|log| - 1])[log[|log| - 1].number := log[|log| - 1]]
  }

  /** The rows an archive for window w is built from. */
  function RowsIn(t: Rows, w: Window): Rows { map n | n in t && InWindow(w, t[n].date) :: t[n] }

  // ---------- states ----------

  /** A load: under way, finished reading at a version of the log, published, or failed. */
  datatype Phase =
    | Loading
    | HasRead(version: nat, rows: Rows)
    | ReadFailed
    | Published(version: nat, rows: Rows)
    | Broken

  /** A cache entry; born is the version of the log when its load was started. */
  datatype Entry = Entry(key: Window, born: nat, phase: Phase)

  datatype Answer = Archive(version: nat, rows: Rows) | NoArchive | Error

  datatype Progress = Started | Waiting(entry: nat) | Building(entry: nat) | Answered(answer: Answer)

  /** A request; due are the writes it must see, all those invalidated before it started. */
  datatype Request = Request(key: Window, due: set<nat>, floor: nat, progress: Progress)

  datatype State = State(
    log: seq<Draw>,
    invalidated: set<nat>,         // writes whose range invalidation has returned
    floor: nat,                    // version at the last full invalidation
    cache: map<Window, nat>,
    entries: seq<Entry>,
    requests: map<nat, Request>,
    loads: map<Window, nat>,       // loads started, per key
    removals: map<Window, nat>)    // removals from the map, per key

  const INIT := State([], {}, 0, map[], [], map[], map[], map[])

  function CountOf(m: map<Window, nat>, k: Window): nat { if k in m then m[k] else 0 }

  datatype Step =
    | Begin(r: nat, w: Window)
    | LookupHit(r: nat)
    | LookupMiss(r: nat, evict: Option<Window>)
    | ReadOk(r: nat)
    | ReadError(r: nat)
    | FinishLoad(r: nat)
    | WaiterReturn(r: nat, sawClosed: bool)
    | Cancel(r: nat)
    | Commit(writes: seq<Draw>)
    | InvalidateRange(affected: Window)
    | InvalidateAll

  // ---------- steps ----------

  predicate IsBuilding(s: State, r: nat) {
    r in s.requests && s.requests[r].progress.Building? && s.requests[r].progress.entry < |s.entries|
  }

  predicate IsWaiting(s: State, r: nat) {
    r in s.requests && s.requests[r].progress.Waiting? && s.requests[r].progress.entry < |s.entries|
  }

  predicate IsStarted(s: State, r: nat) { r in s.requests && s.requests[r].progress.Started? }

  function EntryOf(s: State, r: nat): Entry
    requires IsBuilding(s, r) || IsWaiting(s, r)
  {
    s.entries[s.requests[r].progress.entry]
  }

  predicate Enabled(s: State, step: Step) {
    match step
    case Begin(r, _) => r !in s.requests
    case LookupHit(r) => IsStarted(s, r) && s.requests[r].key in s.cache
    case LookupMiss(r, _) => IsStarted(s, r) && s.requests[r].key !in s.cache
    case ReadOk(r) => IsBuilding(s, r) && EntryOf(s, r).phase.Loading?
    case ReadError(r) => IsBuilding(s, r) && EntryOf(s, r).phase.Loading?
    case FinishLoad(r) => IsBuilding(s, r) && (EntryOf(s, r).phase.HasRead? || EntryOf(s, r).phase.ReadFailed?)
    case WaiterReturn(r, _) => IsWaiting(s, r) && (EntryOf(s, r).phase.Published? || EntryOf(s, r).phase.Broken?)
    case Cancel(r) => IsWaiting(s, r)
    case Commit(_) => true
    case InvalidateRange(_) => true
    case InvalidateAll => true
  }

  function Progressed(s: State, r: nat, p: Progress): State
    requires r in s.requests
  {
    s.(requests := s.requests[r := s.requests[r].(progress := p)])
  }

  function WithPhase(s: State, e: nat, p: Phase): State
    requires e < |s.entries|
  {
    s.(entries := s.entries[e := s.entries[e].(phase := p)])
  }

  /** Delete the keys ks from the map; only those present are removals. */
  function Removed(s: State, ks: set<Window>): State {
    s.(cache := s.cache - ks,
       removals := s.removals + map k | k in s.cache && k in ks :: CountOf(s.removals, k) + 1)
  }

  function Apply(s: State, step: Step): State
    requires Enabled(s, step)
  {
    match step
    case Begin(r, w) =>
      s.(requests := s.requests[r := Request(NormalizeWindow(w), s.invalidated, s.floor, Started)])
    case LookupHit(r) =>
      Progressed(s, r, Waiting(s.cache[s.requests[r].key]))
    case LookupMiss(r, evict) =>
      var key, e := s.requests[r].key, |s.entries|;
      var entered := Progressed(s, r, Building(e)).(
                       entries := s.entries + [Entry(key, |s.log|, Loading)],
                       cache := s.cache[key := e],
                       loads := s.loads[key := CountOf(s.loads, key) + 1]);
      (match evict case None => entered case Some(k) => Removed(entered, {k}))
    case ReadOk(r) =>
      WithPhase(s, s.requests[r].progress.entry, HasRead(|s.log|, RowsIn(TableAfter(s.log), EntryOf(s, r).key)))
    case ReadError(r) =>
      WithPhase(s, s.requests[r].progress.entry, ReadFailed)
    case FinishLoad(r) =>
      (match EntryOf(s, r).phase
       case HasRead(v, rows) =>
         Progressed(WithPhase(s, s.requests[r].progress.entry, Published(v, rows)), r, Answered(Archive(v, rows)))
       case _ =>
         var broken := WithPhase(s, s.requests[r].progress.entry, Broken);
         Removed(Progressed(broken, r, Answered(Error)), {s.requests[r].key}))
    case WaiterReturn(r, sawClosed) =>
      // a waiter that finds the channel already cleared skips the error check
      (match EntryOf(s, r).phase
       case Published(v, rows) => Progressed(s, r, Answered(Archive(v, rows)))
       case _ => Progressed(s, r, Answered(if sawClosed then Error else NoArchive)))
    case Cancel(r) =>
      Progressed(s, r, Answered(Error))
    case Commit(writes) =>
      s.(log := s.log + writes)
    case InvalidateRange(affected) =>
      Removed(s, set k | k in s.cache && RangesOverlap(k, affected)).(
        invalidated := s.invalidated + set i | 0 <= i < |s.log| && InWindow(affected, s.log[i].date))
    case InvalidateAll =>
      Removed(s, s.cache.Keys).(floor := |s.log|)
  }

  // ---------- the invariant ----------

  /** Version v was taken after every write of `due` that window `key` contains, and after `floor`. */
  ghost predicate Fresh(log: seq<Draw>, key: Window, due: set<nat>, floor: nat, v: nat) {
    floor <= v && forall i :: i in due && i < |log| && InWindow(key, log[i].date) ==> i < v
  }

  /** rows are what window `key` contained at version v. */
  ghost predicate IsSnapshot(log: seq<Draw>, key: Window, v: nat, rows: Rows) {
    v <= |log| && rows == RowsIn(TableAfter(log[..v]), key)
  }

  ghost predicate EntryOk(s: State, e: Entry) {
    && e.born <= |s.log|
    && (e.phase.HasRead? ==> e.born <= e.phase.version && IsSnapshot(s.log, e.key, e.phase.version, e.phase.rows))
    && (e.phase.Published? ==> e.born <= e.phase.version && IsSnapshot(s.log, e.key, e.phase.version, e.phase.rows))
  }

  /** A request that holds an entry holds one for its window, started late enough. */
  ghost predicate HoldsFresh(s: State, q: Request, e: nat) {
    e < |s.entries| && s.entries[e].key == q.key && Fresh(s.log, q.key, q.due, q.floor, s.entries[e].born)
  }

  ghost predicate RequestOk(s: State, q: Request) {
    && q.due <= s.invalidated && q.floor <= s.floor
    && match q.progress
       case Started => true
       case Waiting(e) => HoldsFresh(s, q, e)
       case Building(e) => HoldsFresh(s, q, e)
       case Answered(Archive(v, rows)) => Fresh(s.log, q.key, q.due, q.floor, v) && IsSnapshot(s.log, q.key, v, rows)
       case Answered(_) => true
  }

  /** A resident entry was started after every write whose invalidation reached its window. */
  ghost predicate ResidentOk(s: State, k: Window) {
    && k in s.cache && s.cache[k] < |s.entries| && s.entries[s.cache[k]].key == k
    && Fresh(s.log, k, s.invalidated, s.floor, s.entries[s.cache[k]].born)
  }

  ghost predicate Inv(s: State) {
    && (forall i :: i in s.invalidated ==> i < |s.log|) && s.floor <= |s.log|
    && (forall e :: 0 <= e < |s.entries| ==> EntryOk(s, s.entries[e]))
    && (forall k :: k in s.cache ==> ResidentOk(s, k))
    && (forall r :: r in s.requests ==> RequestOk(s, s.requests[r]))
  }

  // ---------- the invariant is kept ----------

  /** Appending writes disturbs nothing already read. */
  lemma FreshGrows(log: seq<Draw>, writes: seq<Draw>, key: Window, due: set<nat>, floor: nat, v: nat)
    requires Fresh(log, key, due, floor, v) && forall i :: i in due ==> i < |log|
    ensures Fresh(log + writes, key, due, floor, v)
  {
  }

  lemma SnapshotGrows(log: seq<Draw>, writes: seq<Draw>, key: Window, v: nat, rows: Rows)
    requires IsSnapshot(log, key, v, rows)
    ensures IsSnapshot(log + writes, key, v, rows)
  {
    assert (log + writes)[..v] == log[..v];
  }

  lemma CommitKeeps(s: State, writes: seq<Draw>)
    requires Inv(s)
    ensures Inv(Apply(s, Commit(writes)))
  {
    var t := Apply(s, Commit(writes));
    forall e | 0 <= e < |t.entries| ensures EntryOk(t, t.entries[e]) {
      var p := s.entries[e].phase;
      assert EntryOk(s, s.entries[e]);
      if p.HasRead? || p.Published? { SnapshotGrows(s.log, writes, s.entries[e].key, p.version, p.rows); }
    }
    forall k | k in t.cache ensures ResidentOk(t, k) {
      assert ResidentOk(s, k);
      FreshGrows(s.log, writes, k, s.invalidated, s.floor, s.entries[s.cache[k]].born);
    }
    forall r | r in t.requests ensures RequestOk(t, t.requests[r]) {
      var q := s.requests[r];
      assert RequestOk(s, q);
      match q.progress
      case Waiting(e) => FreshGrows(s.log, writes, q.key, q.due, q.floor, s.entries[e].born);
      case Building(e) => FreshGrows(s.log, writes, q.key, q.due, q.floor, s.entries[e].born);
      case Answered(Archive(v, rows)) =>
        FreshGrows(s.log, writes, q.key, q.due, q.floor, v);
        SnapshotGrows(s.log, writes, q.key, v, rows);
      case _ =>
    }
  }

  lemma FreshLater(log: seq<Draw>, key: Window, due: set<nat>, floor: nat, due': set<nat>, floor': nat, v: nat, v': nat)
    requires Fresh(log, key, due, floor, v) && due' <= due && floor' <= floor && v <= v'
    ensures Fresh(log, key, due', floor', v')
  {
  }

  lemma BeginKeeps(s: State, r: nat, w: Window)
    requires Inv(s) && Enabled(s, Begin(r, w))
    ensures Inv(Apply(s, Begin(r, w)))
  {
  }

  /** Steps that change one request only, to a progress that is in order. */
  lemma ProgressKeeps(s: State, r: nat, p: Progress)
    requires Inv(s) && r in s.requests && RequestOk(s, s.requests[r].(progress := p))
    ensures Inv(Progressed(s, r, p))
  {
  }

  /** Steps that change the phase of one entry. */
  lemma PhaseKeeps(s: State, e: nat, p: Phase)
    requires Inv(s) && e < |s.entries| && EntryOk(s, s.entries[e].(phase := p))
    ensures Inv(WithPhase(s, e, p))
  {
  }

  lemma SameHolds(s: State, t: State, q: Request)
    requires s.log == t.log && s.invalidated == t.invalidated && s.floor == t.floor && |s.entries| <= |t.entries|
    requires forall e :: 0 <= e < |s.entries| ==>
               t.entries[e].key == s.entries[e].key && t.entries[e].born == s.entries[e].born
    requires RequestOk(s, q)
    ensures RequestOk(t, q)
  {
  }

  lemma RemovalKeeps(s: State, ks: set<Window>)
    requires Inv(s)
    ensures Inv(Removed(s, ks))
  {
  }

  lemma HitKeeps(s: State, r: nat)
    requires Inv(s) && Enabled(s, LookupHit(r))
    ensures Inv(Apply(s, LookupHit(r)))
  {
  }

  /** The state after a miss has entered its new entry, before any eviction. */
  function Entered(s: State, r: nat): State
    requires Enabled(s, LookupMiss(r, None))
  {
    Apply(s, LookupMiss(r, None))
  }

  lemma EnteredKeeps(s: State, r: nat)
    requires Inv(s) && Enabled(s, LookupMiss(r, None))
    ensures Inv(Entered(s, r))
  {
    var t, q, e := Entered(s, r), s.requests[r], |s.entries|;
    assert RequestOk(s, q);
    forall x | x in t.requests ensures RequestOk(t, t.requests[x]) {
      if x == r {
        assert HoldsFresh(t, t.requests[r], e);
      } else {
        assert RequestOk(s, s.requests[x]);
        SameHolds(s, t, s.requests[x]);
      }
    }
  }

  lemma MissKeeps(s: State, r: nat, evict: Option<Window>)
    requires Inv(s) && Enabled(s, LookupMiss(r, evict))
    ensures Inv(Apply(s, LookupMiss(r, evict)))
  {
    EnteredKeeps(s, r);
    if evict.Some? { RemovalKeeps(Entered(s, r), {evict.value}); }
  }

  lemma ReadKeeps(s: State, r: nat)
    requires Inv(s) && Enabled(s, ReadOk(r))
    ensures Inv(Apply(s, ReadOk(r)))
  {
    var e := s.requests[r].progress.entry;
    assert EntryOk(s, s.entries[e]);
    assert s.log[..|s.log|] == s.log;
    PhaseKeeps(s, e, HasRead(|s.log|, RowsIn(TableAfter(s.log), s.entries[e].key)));
  }

  lemma FinishKeeps(s: State, r: nat)
    requires Inv(s) && Enabled(s, FinishLoad(r))
    ensures Inv(Apply(s, FinishLoad(r)))
  {
    var q := s.requests[r];
    var e := q.progress.entry;
    assert RequestOk(s, q) && EntryOk(s, s.entries[e]);
    var p := s.entries[e].phase;
    if p.HasRead? {
      PhaseKeeps(s, e, Published(p.version, p.rows));
      FreshLater(s.log, q.key, q.due, q.floor, q.due, q.floor, s.entries[e].born, p.version);
      ProgressKeeps(WithPhase(s, e, Published(p.version, p.rows)), r, Answered(Archive(p.version, p.rows)));
    } else {
      PhaseKeeps(s, e, Broken);
      ProgressKeeps(WithPhase(s, e, Broken), r, Answered(Error));
      RemovalKeeps(Progressed(WithPhase(s, e, Broken), r, Answered(Error)), {q.key});
    }
  }

  lemma ReturnKeeps(s: State, r: nat, sawClosed: bool)
    requires Inv(s) && Enabled(s, WaiterReturn(r, sawClosed))
    ensures Inv(Apply(s, WaiterReturn(r, sawClosed)))
  {
    var q := s.requests[r];
    var e := q.progress.entry;
    assert RequestOk(s, q) && EntryOk(s, s.entries[e]);
    match s.entries[e].phase
    case Published(v, rows) =>
      FreshLater(s.log, q.key, q.due, q.floor, q.due, q.floor, s.entries[e].born, v);
      ProgressKeeps(s, r, Answered(Archive(v, rows)));
    case _ =>
      ProgressKeeps(s, r, Answered(if sawClosed then Error else NoArchive));
  }

  lemma InvalidateRangeKeeps(s: State, affected: Window)
    requires Inv(s)
    ensures Inv(Apply(s, InvalidateRange(affected)))
  {
  }

  lemma InvalidateAllKeeps(s: State)
    requires Inv(s)
    ensures Inv(Apply(s, InvalidateAll))
  {
  }

  lemma StepKeeps(s: State, step: Step)
    requires Inv(s) && Enabled(s, step)
    ensures Inv(Apply(s, step))
  {
    match step
    case Begin(r, w) => BeginKeeps(s, r, w);
    case LookupHit(r) => HitKeeps(s, r);
    case LookupMiss(r, evict) => MissKeeps(s, r, evict);
    case ReadOk(r) => ReadKeeps(s, r);
    case ReadError(r) =>
      assert EntryOk(s, EntryOf(s, r));
      PhaseKeeps(s, s.requests[r].progress.entry, ReadFailed);
    case FinishLoad(r) => FinishKeeps(s, r);
    case WaiterReturn(r, sawClosed) => ReturnKeeps(s, r, sawClosed);
    case Cancel(r) =>
      assert RequestOk(s, s.requests[r]);
      ProgressKeeps(s, r, Answered(Error));
    case Commit(writes) => CommitKeeps(s, writes);
    case InvalidateRange(affected) => InvalidateRangeKeeps(s, affected);
    case InvalidateAll => InvalidateAllKeeps(s);
  }

  // ---------- runs ----------

  /** A run: states[n + 1] is what step n makes of states[n], in any interleaving that the steps allow. */
  ghost predicate IsRun(states: seq<State>, steps: seq<Step>) {
    && |states| == |steps| + 1 && states[0] == INIT
    && forall n {:trigger steps[n]} :: 0 <= n < |steps| ==>
         Enabled(states[n], steps[n]) && states[n + 1] == Apply(states[n], steps[n])
  }

  lemma {:induction false} RunKeeps(states: seq<State>, steps: seq<Step>, n: nat)
    requires IsRun(states, steps) && n < |states|
    ensures Inv(states[n])
  {
    if n > 0 {
      RunKeeps(states, steps, n - 1);
      StepKeeps(states[n - 1], steps[n - 1]);
    }
  }

  /** What never shrinks or changes along a run. */
  ghost predicate Extends(s: State, t: State) {
    && s.log <= t.log && s.invalidated <= t.invalidated
    && (forall r :: r in s.requests ==>
          r in t.requests && t.requests[r].key == s.requests[r].key
          && t.requests[r].due == s.requests[r].due && t.requests[r].floor == s.requests[r].floor)
  }

  ghost predicate Grows(s: State, t: State) {
    s.floor <= t.floor && forall k: Window :: CountOf(s.loads, k) <= CountOf(t.loads, k)
  }

  lemma MissExtends(s: State, r: nat, evict: Option<Window>)
    requires Enabled(s, LookupMiss(r, evict))
    ensures Extends(s, Apply(s, LookupMiss(r, evict)))
  {
  }

  lemma FinishExtends(s: State, r: nat)
    requires Enabled(s, FinishLoad(r))
    ensures Extends(s, Apply(s, FinishLoad(r)))
  {
  }

  lemma StepExtends(s: State, step: Step)
    requires Enabled(s, step)
    ensures Extends(s, Apply(s, step))
  {
    if step.LookupMiss? {
      MissExtends(s, step.r, step.evict);
    } else if step.FinishLoad? {
      FinishExtends(s, step.r);
    }
  }

  lemma StepGrows(s: State, step: Step)
    requires Enabled(s, step) && s.floor <= |s.log|
    ensures Grows(s, Apply(s, step))
  {
  }

  lemma {:induction false} RunExtends(states: seq<State>, steps: seq<Step>, n: nat, m: nat)
    requires IsRun(states, steps) && n <= m < |states|
    ensures Extends(states[n], states[m]) && Grows(states[n], states[m])
    decreases m
  {
    if n < m {
      RunExtends(states, steps, n, m - 1);
      RunKeeps(states, steps, m - 1);
      StepExtends(states[m - 1], steps[m - 1]);
      StepGrows(states[m - 1], steps[m - 1]);
    }
  }

  lemma InvalidatedBy(s: State, affected: Window, i: nat)
    requires i < |s.log| && InWindow(affected, s.log[i].date)
    ensures i in Apply(s, InvalidateRange(affected)).invalidated
  {
  }

  lemma BegunWith(s: State, r: nat, w: Window)
    requires Enabled(s, Begin(r, w))
    ensures var t := Apply(s, Begin(r, w));
            r in t.requests && t.requests[r].key == NormalizeWindow(w)
            && t.requests[r].due == s.invalidated && t.requests[r].floor == s.floor
  {
  }

  /** Freshness in every interleaving: write i is committed before step a, which invalidates a range covering its
      date; request r begins at the later step b for a window containing that date. Any archive r is handed was
      read from a table that already held the write, and is what the window contained in that table. */
  lemma FreshArchives(states: seq<State>, steps: seq<Step>, a: nat, b: nat, c: nat, affected: Window, i: nat, r: nat,
                      w: Window)
    requires IsRun(states, steps) && a < b < |steps| && b < c < |states|
    requires steps[a] == InvalidateRange(affected) && steps[b] == Begin(r, w)
    requires i < |states[a].log| && InWindow(affected, states[a].log[i].date)
    requires InWindow(NormalizeWindow(w), states[a].log[i].date)
    ensures r in states[c].requests
    ensures states[c].requests[r].progress.Answered? && states[c].requests[r].progress.answer.Archive? ==>
              var archive := states[c].requests[r].progress.answer;
              && i < archive.version <= |states[c].log|
              && archive.rows == RowsIn(TableAfter(states[c].log[..archive.version]), NormalizeWindow(w))
  {
    DueOnceBegun(states, steps, a, b, c, affected, i, r, w);
    RunKeeps(states, steps, c);
    assert RequestOk(states[c], states[c].requests[r]);
  }

  /** The write is due for the request, which asks for the normalized window. */
  lemma DueOnceBegun(states: seq<State>, steps: seq<Step>, a: nat, b: nat, c: nat, affected: Window, i: nat, r: nat,
                     w: Window)
    requires IsRun(states, steps) && a < b < |steps| && b < c < |states|
    requires steps[a] == InvalidateRange(affected) && steps[b] == Begin(r, w)
    requires i < |states[a].log| && InWindow(affected, states[a].log[i].date)
    ensures i < |states[c].log| && states[c].log[i] == states[a].log[i]
    ensures r in states[c].requests && i in states[c].requests[r].due && states[c].requests[r].key == NormalizeWindow(w)
  {
    InvalidatedBy(states[a], affected, i);
    RunExtends(states, steps, a + 1, b);
    BegunWith(states[b], r, w);
    RunExtends(states, steps, b + 1, c);
    RunExtends(states, steps, a, c);
  }

  /** After a full invalidation no later request is handed anything read before it. */
  lemma FreshAfterInvalidateAll(states: seq<State>, steps: seq<Step>, a: nat, b: nat, c: nat, r: nat, w: Window)
    requires IsRun(states, steps) && a < b < |steps| && b < c < |states|
    requires steps[a] == InvalidateAll && steps[b] == Begin(r, w)
    ensures r in states[c].requests
    ensures states[c].requests[r].progress.Answered? && states[c].requests[r].progress.answer.Archive? ==>
              |states[a].log| <= states[c].requests[r].progress.answer.version
  {
    RunExtends(states, steps, a + 1, b);
    BegunWith(states[b], r, w);
    RunExtends(states, steps, b + 1, c);
    RunKeeps(states, steps, c);
    assert RequestOk(states[c], states[c].requests[r]);
  }

  /** A write not overwritten later is a row of every fresh archive whose window contains it. */
  lemma {:induction false} WrittenRow(log: seq<Draw>, i: nat)
    requires i < |log| && forall j :: i < j < |log| ==> log[j].number != log[i].number
    ensures log[i].number in TableAfter(log) && TableAfter(log)[log[i].number] == log[i]
  {
    var init := log[..|log| - 1];
    if i < |init| {
      assert forall j :: 0 <= j < |init| ==> init[j] == log[j];
      WrittenRow(init, i);
    }
  }

  /** The row itself: if no later write replaced it, a fresh archive lists it. */
  lemma FreshArchiveListsRow(states: seq<State>, steps: seq<Step>, a: nat, b: nat, c: nat, affected: Window, i: nat,
                             r: nat, w: Window)
    requires IsRun(states, steps) && a < b < |steps| && b < c < |states|
    requires steps[a] == InvalidateRange(affected) && steps[b] == Begin(r, w)
    requires i < |states[a].log| && InWindow(affected, states[a].log[i].date)
    requires InWindow(NormalizeWindow(w), states[a].log[i].date)
    requires forall j :: i < j < |states[c].log| ==> states[c].log[j].number != states[a].log[i].number
    ensures r in states[c].requests
    ensures states[c].requests[r].progress.Answered? && states[c].requests[r].progress.answer.Archive? ==>
              var rows, write := states[c].requests[r].progress.answer.rows, states[a].log[i];
              write.number in rows && rows[write.number] == write
  {
    FreshArchives(states, steps, a, b, c, affected, i, r, w);
    DueOnceBegun(states, steps, a, b, c, affected, i, r, w);
    var progress := states[c].requests[r].progress;
    if progress.Answered? && progress.answer.Archive? {
      var seen := states[c].log[..progress.answer.version];
      assert seen[i] == states[a].log[i] && forall j :: 0 <= j < |seen| ==> seen[j] == states[c].log[j];
      WrittenRow(seen, i);
    }
  }

  // ---------- single flight ----------

  /** Loads started for a key are its removals plus one if it is resident. */
  ghost predicate Accounted(s: State) {
    forall k: Window :: CountOf(s.loads, k) == CountOf(s.removals, k) + if k in s.cache then 1 else 0
  }

  lemma RemovedAccounted(s: State, ks: set<Window>)
    requires Accounted(s)
    ensures Accounted(Removed(s, ks))
  {
  }

  /** A miss starts one load and enters the key it found missing. */
  lemma MissAccounted(s: State, r: nat, evict: Option<Window>)
    requires Enabled(s, LookupMiss(r, evict)) && Accounted(s)
    ensures Accounted(Apply(s, LookupMiss(r, evict)))
  {
    var t := Entered(s, r);
    assert Accounted(t);
    if evict.Some? { RemovedAccounted(t, {evict.value}); }
  }

  lemma FinishAccounted(s: State, r: nat)
    requires Enabled(s, FinishLoad(r)) && Accounted(s)
    ensures Accounted(Apply(s, FinishLoad(r)))
  {
    var q := s.requests[r];
    if EntryOf(s, r).phase.ReadFailed? {
      RemovedAccounted(Progressed(WithPhase(s, q.progress.entry, Broken), r, Answered(Error)), {q.key});
    }
  }

  /** The steps that touch neither the map nor the two counts. */
  predicate LeavesMap(step: Step) {
    || step.Begin? || step.LookupHit? || step.ReadOk? || step.ReadError?
    || step.WaiterReturn? || step.Cancel? || step.Commit?
  }

  lemma MapUntouched(s: State, step: Step)
    requires Enabled(s, step) && LeavesMap(step)
    ensures var t := Apply(s, step); t.cache == s.cache && t.loads == s.loads && t.removals == s.removals
  {
  }

  lemma StepAccounted(s: State, step: Step)
    requires Enabled(s, step) && Accounted(s)
    ensures Accounted(Apply(s, step))
  {
    match step
    case LookupMiss(r, evict) => MissAccounted(s, r, evict);
    case FinishLoad(r) => FinishAccounted(s, r);
    case InvalidateRange(affected) => RemovedAccounted(s, set k | k in s.cache && RangesOverlap(k, affected));
    case InvalidateAll => RemovedAccounted(s, s.cache.Keys);
    case _ => MapUntouched(s, step);
  }

  lemma {:induction false} RunAccounted(states: seq<State>, steps: seq<Step>, n: nat)
    requires IsRun(states, steps) && n < |states|
    ensures Accounted(states[n])
  {
    if n > 0 {
      RunAccounted(states, steps, n - 1);
      StepAccounted(states[n - 1], steps[n - 1]);
    }
  }

  /** Two loads for one key never start without a removal of that key in between. */
  lemma SingleFlight(states: seq<State>, steps: seq<Step>, a: nat, b: nat, r: nat, q: nat, x: Option<Window>,
                     y: Option<Window>)
    requires IsRun(states, steps) && a < b < |steps|
    requires steps[a] == LookupMiss(r, x) && steps[b] == LookupMiss(q, y)
    ensures r in states[a].requests && q in states[b].requests
    ensures states[a].requests[r].key == states[b].requests[q].key ==>
              var k := states[a].requests[r].key;
              CountOf(states[a].removals, k) < CountOf(states[b].removals, k)
  {
    RunAccounted(states, steps, a);
    RunAccounted(states, steps, b);
    RunExtends(states, steps, a + 1, b);
    MissCounts(states[a], r, x);
  }

  lemma MissCounts(s: State, r: nat, x: Option<Window>)
    requires Enabled(s, LookupMiss(r, x))
    ensures CountOf(Apply(s, LookupMiss(r, x)).loads, s.requests[r].key) == CountOf(s.loads, s.requests[r].key) + 1
    ensures s.requests[r].key !in s.cache
  {
  }

  /** Each load is run by one request. */
  ghost predicate SoleBuilder(s: State) {
    forall r, q :: r in s.requests && q in s.requests && r != q
                   && s.requests[r].progress.Building? && s.requests[q].progress.Building? ==>
      s.requests[r].progress.entry != s.requests[q].progress.entry
  }

  lemma {:induction false} RunSoleBuilder(states: seq<State>, steps: seq<Step>, n: nat)
    requires IsRun(states, steps) && n < |states|
    ensures SoleBuilder(states[n])
  {
    if n > 0 {
      RunSoleBuilder(states, steps, n - 1);
      RunKeeps(states, steps, n - 1);
      StepSoleBuilder(states[n - 1], steps[n - 1]);
    }
  }

  /** Who builds after a step built before it, or has just started a new entry. */
  lemma BuiltBefore(s: State, step: Step, r: nat)
    requires Enabled(s, step) && r in Apply(s, step).requests && Apply(s, step).requests[r].progress.Building?
    ensures var p := Apply(s, step).requests[r].progress;
            || (r in s.requests && s.requests[r].progress == p)
            || (step.LookupMiss? && step.r == r && p.entry == |s.entries|)
  {
  }

  lemma StepSoleBuilder(s: State, step: Step)
    requires Inv(s) && SoleBuilder(s) && Enabled(s, step)
    ensures SoleBuilder(Apply(s, step))
  {
    var t := Apply(s, step).requests;
    forall r, q | r in t && q in t && r != q && t[r].progress.Building? && t[q].progress.Building?
      ensures t[r].progress.entry != t[q].progress.entry
    {
      BuiltBefore(s, step, r);
      BuiltBefore(s, step, q);
      assert r in s.requests ==> RequestOk(s, s.requests[r]);
      assert q in s.requests ==> RequestOk(s, s.requests[q]);
    }
  }

  // ---------- a waiter can come away empty-handed ----------

  /** A load that fails between a waiter's lookup and its look at the channel: the waiter skips the error check
      and is handed no archive and no error. */
  lemma NilArchiveReachable(w: Window) returns (states: seq<State>, steps: seq<Step>)
    ensures IsRun(states, steps)
    ensures var end := states[|states| - 1]; 2 in end.requests && end.requests[2].progress == Answered(NoArchive)
  {
    states, steps := [INIT], [];
    states, steps := Extended(states, steps, Begin(1, w));
    states, steps := Extended(states, steps, LookupMiss(1, None));
    states, steps := Extended(states, steps, Begin(2, w));
    states, steps := Extended(states, steps, LookupHit(2));
    states, steps := Extended(states, steps, ReadError(1));
    states, steps := Extended(states, steps, FinishLoad(1));
    states, steps := Extended(states, steps, WaiterReturn(2, false));
  }

  lemma Extended(states: seq<State>, steps: seq<Step>, step: Step) returns (longer: seq<State>, more: seq<Step>)
    requires IsRun(states, steps) && Enabled(states[|states| - 1], step)
    ensures IsRun(longer, more)
    ensures longer[|longer| - 1] == Apply(states[|states| - 1], step)
    ensures states <= longer && |longer| == |states| + 1
  {
    longer, more := states + [Apply(states[|states| - 1], step)], steps + [step];
    forall n | 0 <= n < |more| ensures Enabled(longer[n], more[n]) && longer[n + 1] == Apply(longer[n], more[n]) {
      if n < |steps| { assert more[n] == steps[n]; }
    }
  }

  /** The step that hands it over: a waiter's look at a broken load after its channel was cleared. */
  lemma NilAnswerStep(s: State, step: Step, r: nat)
    requires Enabled(s, step) && r in s.requests && s.requests[r].progress != Answered(NoArchive)
    ensures Apply(s, step).requests[r].progress == Answered(NoArchive) <==>
            step == WaiterReturn(r, false) && EntryOf(s, r).phase.Broken?
  {
  }

  ghost predicate HasFailed(s: State, e: nat) {
    e < |s.entries| && (s.entries[e].phase.ReadFailed? || s.entries[e].phase.Broken?)
  }

  /** An entry's load fails in one way only: a read error of the request that builds it. */
  lemma FailureStep(s: State, step: Step, e: nat)
    requires Enabled(s, step) && HasFailed(Apply(s, step), e) && !HasFailed(s, e)
    ensures step.ReadError? && s.requests[step.r].progress == Building(e) && e < |s.entries|
  {
  }

  /** Where in the run the load of a failed entry failed. */
  lemma {:induction false} FailureOf(states: seq<State>, steps: seq<Step>, n: nat, e: nat) returns (a: nat)
    requires IsRun(states, steps) && n < |states| && HasFailed(states[n], e)
    ensures a < n && steps[a].ReadError? && steps[a].r in states[a].requests
    ensures states[a].requests[steps[a].r].progress == Building(e) && e < |states[a].entries|
  {
    if HasFailed(states[n - 1], e) {
      a := FailureOf(states, steps, n - 1, e);
    } else {
      FailureStep(states[n - 1], steps[n - 1], e);
      a := n - 1;
    }
  }

  /** A request that builds, or has come away with an archive or an error. */
  ghost predicate Builds(s: State, q: nat) {
    q in s.requests && (s.requests[q].progress.Building?
                        || (s.requests[q].progress.Answered? && s.requests[q].progress.answer != NoArchive))
  }

  lemma BuilderStep(s: State, step: Step, q: nat)
    requires Enabled(s, step) && Builds(s, q)
    ensures Builds(Apply(s, step), q)
  {
  }

  lemma KeysKept(s: State, step: Step)
    requires Enabled(s, step)
    ensures var t := Apply(s, step);
            |s.entries| <= |t.entries| && forall e :: 0 <= e < |s.entries| ==> t.entries[e].key == s.entries[e].key
  {
  }

  /** Entries keep their keys, and a builder never waits. */
  lemma {:induction false} BuilderFinishes(states: seq<State>, steps: seq<Step>, n: nat, m: nat, e: nat, q: nat)
    requires IsRun(states, steps) && n <= m < |states|
    requires Builds(states[n], q) && e < |states[n].entries|
    ensures Builds(states[m], q)
    ensures e < |states[m].entries| && states[m].entries[e].key == states[n].entries[e].key
    decreases m
  {
    if n < m {
      BuilderFinishes(states, steps, n, m - 1, e, q);
      BuilderStep(states[m - 1], steps[m - 1], q);
      KeysKept(states[m - 1], steps[m - 1]);
    }
  }

  /** Where in the run a request came away empty-handed. */
  lemma {:induction false} NilAnswerOf(states: seq<State>, steps: seq<Step>, n: nat, r: nat) returns (b: nat)
    requires IsRun(states, steps) && n < |states|
    requires r in states[n].requests && states[n].requests[r].progress == Answered(NoArchive)
    ensures b < n && steps[b] == WaiterReturn(r, false)
    ensures Enabled(states[b], steps[b]) && EntryOf(states[b], r).phase.Broken?
  {
    var s, step := states[n - 1], steps[n - 1];
    if r in s.requests && s.requests[r].progress == Answered(NoArchive) {
      b := NilAnswerOf(states, steps, n - 1, r);
    } else {
      assert r in s.requests;
      NilAnswerStep(s, step, r);
      b := n - 1;
    }
  }

  /** A request answered with neither an archive nor an error: earlier in the run, another request for the same
      window had its read fail. In particular a run without a read error never gives that answer. */
  lemma NilArchiveNeedsReadError(states: seq<State>, steps: seq<Step>, n: nat, r: nat) returns (a: nat)
    requires IsRun(states, steps) && n < |states|
    requires r in states[n].requests && states[n].requests[r].progress == Answered(NoArchive)
    ensures a < n && steps[a].ReadError? && steps[a].r != r
    ensures steps[a].r in states[a].requests && states[a].requests[steps[a].r].key == states[n].requests[r].key
  {
    var b := NilAnswerOf(states, steps, n, r);
    var e := states[b].requests[r].progress.entry;
    a := FailureOf(states, steps, b, e);
    BuilderFinishes(states, steps, a, b, e, steps[a].r);
    RunKeeps(states, steps, a);
    RunKeeps(states, steps, b);
    assert RequestOk(states[a], states[a].requests[steps[a].r]) && RequestOk(states[b], states[b].requests[r]);
    RunExtends(states, steps, b, n);
  }

  /** Every load under way is some request's. */
  ghost predicate HasBuilder(s: State, e: nat) {
    exists q :: q in s.requests && s.requests[q].progress == Building(e)
  }

  ghost predicate LoadsHaveBuilders(s: State) {
    forall e :: 0 <= e < |s.entries| && !s.entries[e].phase.Published? && !s.entries[e].phase.Broken? ==>
      HasBuilder(s, e)
  }

  /** A builder goes on building until it publishes or breaks its entry. */
  lemma BuilderGoesOn(s: State, step: Step, e: nat, q: nat)
    requires Enabled(s, step) && q in s.requests && s.requests[q].progress == Building(e) && e < |s.entries|
    ensures var t := Apply(s, step);
            t.entries[e].phase.Published? || t.entries[e].phase.Broken?
            || (q in t.requests && t.requests[q].progress == Building(e))
  {
  }

  lemma StepHasBuilders(s: State, step: Step)
    requires LoadsHaveBuilders(s) && Enabled(s, step)
    ensures LoadsHaveBuilders(Apply(s, step))
  {
    var t := Apply(s, step);
    forall e | 0 <= e < |t.entries| && !t.entries[e].phase.Published? && !t.entries[e].phase.Broken?
      ensures HasBuilder(t, e)
    {
      if e < |s.entries| {
        assert HasBuilder(s, e);
        var q :| q in s.requests && s.requests[q].progress == Building(e);
        BuilderGoesOn(s, step, e, q);
      } else {
        assert t.requests[step.r].progress == Building(e);
      }
    }
  }

  lemma {:induction false} RunHasBuilders(states: seq<State>, steps: seq<Step>, n: nat)
    requires IsRun(states, steps) && n < |states|
    ensures LoadsHaveBuilders(states[n])
  {
    if n > 0 {
      RunHasBuilders(states, steps, n - 1);
      StepHasBuilders(states[n - 1], steps[n - 1]);
    }
  }

  /** Another run that goes on from this one, and ends with request r handed neither an archive nor an error. */
  ghost predicate EndsEmptyHanded(states: seq<State>, longer: seq<State>, more: seq<Step>, r: nat) {
    IsRun(longer, more) && states <= longer && ComesAwayEmpty(longer[|longer| - 1], r)
  }

  ghost predicate ComesAwayEmpty(s: State, r: nat) {
    r in s.requests && s.requests[r].progress == Answered(NoArchive)
  }

  /** The load has not read its rows, and may yet fail or has failed. */
  predicate Unread(p: Phase) { p.Loading? || p.ReadFailed? || p.Broken? }

  lemma BrokenLoadEmptyHanded(states: seq<State>, steps: seq<Step>, r: nat)
    returns (longer: seq<State>, more: seq<Step>)
    requires IsRun(states, steps) && IsWaiting(states[|states| - 1], r)
    requires EntryOf(states[|states| - 1], r).phase.Broken?
    ensures EndsEmptyHanded(states, longer, more, r)
  {
    longer, more := Extended(states, steps, WaiterReturn(r, false));
  }

  lemma FailedReadEmptyHanded(states: seq<State>, steps: seq<Step>, r: nat)
    returns (longer: seq<State>, more: seq<Step>)
    requires IsRun(states, steps) && IsWaiting(states[|states| - 1], r)
    requires EntryOf(states[|states| - 1], r).phase.ReadFailed?
    ensures EndsEmptyHanded(states, longer, more, r)
  {
    var s := states[|states| - 1];
    var e := s.requests[r].progress.entry;
    RunHasBuilders(states, steps, |states| - 1);
    assert HasBuilder(s, e);
    var q :| q in s.requests && s.requests[q].progress == Building(e);
    longer, more := Extended(states, steps, FinishLoad(q));
    longer, more := BrokenLoadEmptyHanded(longer, more, r);
  }

  lemma LoadingEmptyHanded(states: seq<State>, steps: seq<Step>, r: nat)
    returns (longer: seq<State>, more: seq<Step>)
    requires IsRun(states, steps) && IsWaiting(states[|states| - 1], r)
    requires EntryOf(states[|states| - 1], r).phase.Loading?
    ensures EndsEmptyHanded(states, longer, more, r)
  {
    var s := states[|states| - 1];
    var e := s.requests[r].progress.entry;
    RunHasBuilders(states, steps, |states| - 1);
    assert HasBuilder(s, e);
    var q :| q in s.requests && s.requests[q].progress == Building(e);
    longer, more := Extended(states, steps, ReadError(q));
    longer, more := FailedReadEmptyHanded(longer, more, r);
  }

  /** It waits on a load whose rows were read, or has come away with an archive or an error. */
  ghost predicate WillBeServed(s: State, r: nat) {
    r in s.requests
    && match s.requests[r].progress
       case Waiting(e) => e < |s.entries| && !Unread(s.entries[e].phase)
       case Answered(a) => a != NoArchive
       case _ => false
  }

  lemma ServedStep(s: State, step: Step, r: nat)
    requires Enabled(s, step) && WillBeServed(s, r)
    ensures WillBeServed(Apply(s, step), r)
  {
  }

  lemma {:induction false} StaysServed(states: seq<State>, steps: seq<Step>, n: nat, m: nat, r: nat)
    requires IsRun(states, steps) && n <= m < |states| && WillBeServed(states[n], r)
    ensures WillBeServed(states[m], r)
    decreases m
  {
    if n < m {
      StaysServed(states, steps, n, m - 1, r);
      ServedStep(states[m - 1], steps[m - 1], r);
    }
  }

  /** Exactly when a waiting request can still come away empty-handed, from any reachable state: as long as the load
      it waits on has not read its rows. */
  lemma EmptyHandedExactly(states: seq<State>, steps: seq<Step>, r: nat)
    requires IsRun(states, steps) && IsWaiting(states[|states| - 1], r)
    ensures (exists longer, more :: EndsEmptyHanded(states, longer, more, r)) <==>
            Unread(EntryOf(states[|states| - 1], r).phase)
  {
    var phase := EntryOf(states[|states| - 1], r).phase;
    if Unread(phase) {
      var longer, more;
      match phase
      case Loading => longer, more := LoadingEmptyHanded(states, steps, r);
      case ReadFailed => longer, more := FailedReadEmptyHanded(states, steps, r);
      case Broken => longer, more := BrokenLoadEmptyHanded(states, steps, r);
    } else {
      forall longer, more | EndsEmptyHanded(states, longer, more, r) ensures false {
        assert longer[|states| - 1] == states[|states| - 1];
        StaysServed(longer, more, |states| - 1, |longer| - 1, r);
      }
    }
  }
}
