/** What requests are answered, over runs of the cache protocol: who is turned away and why, who is served and with
    what, and when a window has to be loaded again. */
module ArchiveAnswers {
  import opened Options
  import opened DateWindow
  import opened ArchiveProtocol

  ghost predicate AnsweredWith(s: State, r: nat, a: Answer) {
    r in s.requests && s.requests[r].progress == Answered(a)
  }

  // ---------- who is answered an error ----------

  /** An error is handed over by a cancellation or by a load that failed. */
  lemma ErrorStep(s: State, step: Step, r: nat)
    requires Enabled(s, step) && AnsweredWith(Apply(s, step), r, Error) && !AnsweredWith(s, r, Error)
    ensures || step == Cancel(r)
            || (step == FinishLoad(r) && IsBuilding(s, r) && EntryOf(s, r).phase.ReadFailed?)
            || (step == WaiterReturn(r, true) && IsWaiting(s, r) && EntryOf(s, r).phase.Broken?)
  {
  }

  /** Where in the run the error was handed over. */
  lemma {:induction false} ErrorOf(states: seq<State>, steps: seq<Step>, n: nat, r: nat) returns (b: nat)
    requires IsRun(states, steps) && n < |states| && AnsweredWith(states[n], r, Error)
    ensures b < n
    ensures || steps[b] == Cancel(r)
            || ((IsBuilding(states[b], r) || IsWaiting(states[b], r))
                && HasFailed(states[b], states[b].requests[r].progress.entry))
  {
    if AnsweredWith(states[n - 1], r, Error) {
      b := ErrorOf(states, steps, n - 1, r);
    } else {
      ErrorStep(states[n - 1], steps[n - 1], r);
      b := n - 1;
    }
  }

  /** A request answered with an error was cancelled, or a read for its window failed before. */
  lemma ErrorNeedsCause(states: seq<State>, steps: seq<Step>, n: nat, r: nat) returns (a: nat)
    requires IsRun(states, steps) && n < |states| && AnsweredWith(states[n], r, Error)
    ensures a < n
    ensures || steps[a] == Cancel(r)
            || (steps[a].ReadError? && steps[a].r in states[a].requests
                && states[a].requests[steps[a].r].key == states[n].requests[r].key)
  {
    a := ErrorOf(states, steps, n, r);
    if steps[a] != Cancel(r) {
      var b, e := a, states[a].requests[r].progress.entry;
      a := FailureOf(states, steps, b, e);
      SameWindow(states, steps, a, b, e, steps[a].r, r);
      RunExtends(states, steps, b, n);
    }
  }

  /** The builder of an entry and a request that holds it later are for the same window. */
  lemma SameWindow(states: seq<State>, steps: seq<Step>, a: nat, b: nat, e: nat, q: nat, r: nat)
    requires IsRun(states, steps) && a <= b < |states|
    requires q in states[a].requests && states[a].requests[q].progress == Building(e)
    requires r in states[b].requests && states[b].requests[r].progress in {Building(e), Waiting(e)}
    ensures states[a].requests[q].key == states[b].requests[r].key
  {
    RunKeeps(states, steps, a);
    RunKeeps(states, steps, b);
    assert RequestOk(states[a], states[a].requests[q]) && RequestOk(states[b], states[b].requests[r]);
    BuilderFinishes(states, steps, a, b, e, q);
  }

  /** No cancellation of the request and no failed read for its window: if it is answered, with an archive. */
  lemma UndisturbedIsServed(states: seq<State>, steps: seq<Step>, n: nat, r: nat)
    requires IsRun(states, steps) && n < |states|
    requires r in states[n].requests && states[n].requests[r].progress.Answered?
    requires forall a :: 0 <= a < n ==> steps[a] != Cancel(r)
    requires forall a :: 0 <= a < n && steps[a].ReadError? && steps[a].r in states[a].requests ==>
               states[a].requests[steps[a].r].key != states[n].requests[r].key
    ensures states[n].requests[r].progress.answer.Archive?
  {
    match states[n].requests[r].progress.answer
    case Archive(_, _) =>
    case Error => var a := ErrorNeedsCause(states, steps, n, r);
    case NoArchive => var a := NilArchiveNeedsReadError(states, steps, n, r);
  }

  // ---------- a load whose rows were read ----------

  predicate WasRead(p: Phase, v: nat, rows: Rows) { p == HasRead(v, rows) || p == Published(v, rows) }

  /** The request waits on a load that read these rows, or has been handed them. */
  ghost predicate BoundTo(s: State, r: nat, v: nat, rows: Rows) {
    r in s.requests
    && match s.requests[r].progress
       case Waiting(e) => e < |s.entries| && WasRead(s.entries[e].phase, v, rows)
       case Answered(a) => a == Archive(v, rows)
       case _ => false
  }

  lemma RowsKept(s: State, step: Step, e: nat, v: nat, rows: Rows)
    requires Enabled(s, step) && e < |s.entries| && WasRead(s.entries[e].phase, v, rows)
    ensures e < |Apply(s, step).entries| && WasRead(Apply(s, step).entries[e].phase, v, rows)
  {
  }

  /** A waiting or answered request changes by its own return or cancellation only. */
  lemma WaiterStep(s: State, step: Step, r: nat)
    requires Enabled(s, step) && r in s.requests
    requires s.requests[r].progress.Waiting? || s.requests[r].progress.Answered?
    ensures step != WaiterReturn(r, true) && step != WaiterReturn(r, false) && step != Cancel(r) ==>
              r in Apply(s, step).requests && Apply(s, step).requests[r].progress == s.requests[r].progress
  {
  }

  lemma BoundStep(s: State, step: Step, r: nat, v: nat, rows: Rows)
    requires Enabled(s, step) && BoundTo(s, r, v, rows) && step != Cancel(r)
    ensures BoundTo(Apply(s, step), r, v, rows)
  {
    WaiterStep(s, step, r);
    if s.requests[r].progress.Waiting? { RowsKept(s, step, s.requests[r].progress.entry, v, rows); }
  }

  /** A request that waits on a load whose rows were read can only be handed those rows, unless it is cancelled. */
  lemma {:induction false} ServedWhatWasRead(states: seq<State>, steps: seq<Step>, n: nat, m: nat, r: nat, v: nat,
                                             rows: Rows)
    requires IsRun(states, steps) && n <= m < |states| && BoundTo(states[n], r, v, rows)
    requires forall a :: n <= a < m ==> steps[a] != Cancel(r)
    ensures BoundTo(states[m], r, v, rows)
    decreases m
  {
    if n < m {
      ServedWhatWasRead(states, steps, n, m - 1, r, v, rows);
      BoundStep(states[m - 1], steps[m - 1], r, v, rows);
    }
  }

  /** Another run that goes on from this one and ends with request r handed this archive. */
  ghost predicate EndsServed(states: seq<State>, longer: seq<State>, more: seq<Step>, r: nat, v: nat, rows: Rows) {
    IsRun(longer, more) && states <= longer && AnsweredWith(longer[|longer| - 1], r, Archive(v, rows))
  }

  lemma BuilderOf(states: seq<State>, steps: seq<Step>, e: nat) returns (q: nat)
    requires IsRun(states, steps) && e < |states[|states| - 1].entries|
    requires var p := states[|states| - 1].entries[e].phase; !p.Published? && !p.Broken?
    ensures var s := states[|states| - 1]; q in s.requests && s.requests[q].progress == Building(e)
  {
    var s := states[|states| - 1];
    RunHasBuilders(states, steps, |states| - 1);
    assert HasBuilder(s, e);
    q :| q in s.requests && s.requests[q].progress == Building(e);
  }

  /** And some continuation hands them over. */
  lemma ReadLoadServes(states: seq<State>, steps: seq<Step>, r: nat, v: nat, rows: Rows)
    returns (longer: seq<State>, more: seq<Step>)
    requires IsRun(states, steps) && IsWaiting(states[|states| - 1], r)
    requires WasRead(EntryOf(states[|states| - 1], r).phase, v, rows)
    ensures EndsServed(states, longer, more, r, v, rows)
  {
    longer, more := states, steps;
    var e := states[|states| - 1].requests[r].progress.entry;
    if EntryOf(states[|states| - 1], r).phase.HasRead? {
      var q := BuilderOf(states, steps, e);
      longer, more := Extended(states, steps, FinishLoad(q));
    }
    longer, more := Extended(longer, more, WaiterReturn(r, true));
  }

  // ---------- who can still be served ----------

  /** The request holds an entry whose load has failed. */
  predicate Hopeless(s: State, r: nat) {
    (IsWaiting(s, r) || IsBuilding(s, r)) && (EntryOf(s, r).phase.ReadFailed? || EntryOf(s, r).phase.Broken?)
  }

  ghost predicate TurnedAway(s: State, r: nat) {
    Hopeless(s, r) || AnsweredWith(s, r, Error) || AnsweredWith(s, r, NoArchive)
  }

  lemma TurnedAwayStep(s: State, step: Step, r: nat)
    requires Enabled(s, step) && TurnedAway(s, r)
    ensures TurnedAway(Apply(s, step), r)
  {
  }

  lemma {:induction false} StaysTurnedAway(states: seq<State>, steps: seq<Step>, n: nat, m: nat, r: nat)
    requires IsRun(states, steps) && n <= m < |states| && TurnedAway(states[n], r)
    ensures TurnedAway(states[m], r)
    decreases m
  {
    if n < m {
      StaysTurnedAway(states, steps, n, m - 1, r);
      TurnedAwayStep(states[m - 1], steps[m - 1], r);
    }
  }

  /** A builder's load is under way. */
  ghost predicate BuildersAtWork(s: State) {
    forall r :: IsBuilding(s, r) ==> !EntryOf(s, r).phase.Published? && !EntryOf(s, r).phase.Broken?
  }

  lemma StepAtWork(s: State, step: Step)
    requires Inv(s) && SoleBuilder(s) && BuildersAtWork(s) && Enabled(s, step)
    ensures BuildersAtWork(Apply(s, step))
  {
    var t := Apply(s, step);
    forall r | IsBuilding(t, r) ensures !EntryOf(t, r).phase.Published? && !EntryOf(t, r).phase.Broken? {
      BuiltBefore(s, step, r);
      if r in s.requests && s.requests[r].progress == t.requests[r].progress {
        assert RequestOk(s, s.requests[r]) && IsBuilding(s, r);
      }
    }
  }

  lemma {:induction false} RunAtWork(states: seq<State>, steps: seq<Step>, n: nat)
    requires IsRun(states, steps) && n < |states|
    ensures BuildersAtWork(states[n])
  {
    if n > 0 {
      RunAtWork(states, steps, n - 1);
      RunKeeps(states, steps, n - 1);
      RunSoleBuilder(states, steps, n - 1);
      StepAtWork(states[n - 1], steps[n - 1]);
    }
  }

  /** No window is resident with a broken load. */
  ghost predicate NoneBroken(s: State) {
    forall k :: k in s.cache ==> s.cache[k] < |s.entries| && !s.entries[s.cache[k]].phase.Broken?
  }

  lemma StepNoneBroken(s: State, step: Step)
    requires Inv(s) && NoneBroken(s) && Enabled(s, step)
    ensures NoneBroken(Apply(s, step))
  {
    var t := Apply(s, step);
    forall k | k in t.cache ensures t.cache[k] < |t.entries| && !t.entries[t.cache[k]].phase.Broken? {
      if k in s.cache {
        assert ResidentOk(s, k);
        if step.FinishLoad? { assert RequestOk(s, s.requests[step.r]); }
      }
    }
  }

  lemma {:induction false} RunNoneBroken(states: seq<State>, steps: seq<Step>, n: nat)
    requires IsRun(states, steps) && n < |states|
    ensures NoneBroken(states[n])
  {
    if n > 0 {
      RunNoneBroken(states, steps, n - 1);
      RunKeeps(states, steps, n - 1);
      StepNoneBroken(states[n - 1], steps[n - 1]);
    }
  }

  /** Some continuation hands request r an archive. */
  ghost predicate CanBeServed(states: seq<State>, r: nat) {
    exists longer, more, v, rows :: EndsServed(states, longer, more, r, v, rows)
  }

  lemma ServedLater(states: seq<State>, longer: seq<State>, r: nat)
    requires states <= longer && CanBeServed(longer, r)
    ensures CanBeServed(states, r)
  {
    var longest, more, v, rows :| EndsServed(longer, longest, more, r, v, rows);
    assert EndsServed(states, longest, more, r, v, rows);
  }

  lemma BuilderCanBeServed(states: seq<State>, steps: seq<Step>, r: nat)
    requires IsRun(states, steps) && IsBuilding(states[|states| - 1], r) && !Hopeless(states[|states| - 1], r)
    ensures CanBeServed(states, r)
  {
    RunAtWork(states, steps, |states| - 1);
    var longer, more := states, steps;
    if EntryOf(states[|states| - 1], r).phase.Loading? {
      longer, more := Extended(states, steps, ReadOk(r));
    }
    var p := EntryOf(longer[|longer| - 1], r).phase;
    var longest, most := Extended(longer, more, FinishLoad(r));
    assert EndsServed(states, longest, most, r, p.version, p.rows);
  }

  lemma WaiterCanBeServed(states: seq<State>, steps: seq<Step>, r: nat)
    requires IsRun(states, steps) && IsWaiting(states[|states| - 1], r) && !Hopeless(states[|states| - 1], r)
    ensures CanBeServed(states, r)
  {
    var longer, more := states, steps;
    if EntryOf(states[|states| - 1], r).phase.Loading? {
      var q := BuilderOf(states, steps, states[|states| - 1].requests[r].progress.entry);
      longer, more := Extended(states, steps, ReadOk(q));
    }
    var p := EntryOf(longer[|longer| - 1], r).phase;
    var longest, most := ReadLoadServes(longer, more, r, p.version, p.rows);
    assert EndsServed(states, longest, most, r, p.version, p.rows);
  }

  lemma AbsentCanBeServed(states: seq<State>, steps: seq<Step>, r: nat)
    requires IsRun(states, steps) && IsStarted(states[|states| - 1], r)
    requires states[|states| - 1].requests[r].key !in states[|states| - 1].cache
    ensures CanBeServed(states, r)
  {
    var longer, more := Extended(states, steps, LookupMiss(r, None));
    BuilderCanBeServed(longer, more, r);
    ServedLater(states, longer, r);
  }

  lemma StartedCanBeServed(states: seq<State>, steps: seq<Step>, r: nat)
    requires IsRun(states, steps) && IsStarted(states[|states| - 1], r)
    ensures CanBeServed(states, r)
  {
    var s := states[|states| - 1];
    var k := s.requests[r].key;
    if k !in s.cache {
      AbsentCanBeServed(states, steps, r);
    } else {
      RunKeeps(states, steps, |states| - 1);
      RunNoneBroken(states, steps, |states| - 1);
      assert ResidentOk(s, k);
      var e := s.cache[k];
      if s.entries[e].phase.ReadFailed? {
        // the failed load is retracted first, and the request loads anew
        var q := BuilderOf(states, steps, e);
        assert RequestOk(s, s.requests[q]);
        var longer, more := Extended(states, steps, FinishLoad(q));
        AbsentCanBeServed(longer, more, r);
        ServedLater(states, longer, r);
      } else {
        var longer, more := Extended(states, steps, LookupHit(r));
        WaiterCanBeServed(longer, more, r);
        ServedLater(states, longer, r);
      }
    }
  }

  /** From any reachable state an unanswered request can still be handed an archive, exactly unless it holds an entry
      whose load has failed. */
  lemma ServableExactly(states: seq<State>, steps: seq<Step>, r: nat)
    requires IsRun(states, steps)
    requires r in states[|states| - 1].requests && !states[|states| - 1].requests[r].progress.Answered?
    ensures CanBeServed(states, r) <==> !Hopeless(states[|states| - 1], r)
  {
    var s := states[|states| - 1];
    if Hopeless(s, r) {
      forall longer, more, v, rows | EndsServed(states, longer, more, r, v, rows) ensures false {
        assert longer[|states| - 1] == s;
        StaysTurnedAway(longer, more, |states| - 1, |longer| - 1, r);
      }
    } else {
      RunKeeps(states, steps, |states| - 1);
      assert RequestOk(s, s.requests[r]);
      match s.requests[r].progress
      case Started => StartedCanBeServed(states, steps, r);
      case Waiting(_) => WaiterCanBeServed(states, steps, r);
      case Building(_) => BuilderCanBeServed(states, steps, r);
    }
  }

  // ---------- where an archive comes from ----------

  /** The load behind the archive a step hands over. */
  lemma ArchiveStep(s: State, step: Step, r: nat, v: nat, rows: Rows) returns (e: nat)
    requires Enabled(s, step)
    requires AnsweredWith(Apply(s, step), r, Archive(v, rows)) && !AnsweredWith(s, r, Archive(v, rows))
    ensures r in s.requests && s.requests[r].progress in {Building(e), Waiting(e)}
    ensures e < |s.entries| && WasRead(s.entries[e].phase, v, rows)
  {
    e := s.requests[r].progress.entry;
  }

  lemma {:induction false} HandedAt(states: seq<State>, steps: seq<Step>, n: nat, r: nat, v: nat, rows: Rows)
    returns (b: nat, e: nat)
    requires IsRun(states, steps) && n < |states| && AnsweredWith(states[n], r, Archive(v, rows))
    ensures b < n && r in states[b].requests && states[b].requests[r].progress in {Building(e), Waiting(e)}
    ensures e < |states[b].entries| && WasRead(states[b].entries[e].phase, v, rows)
  {
    if AnsweredWith(states[n - 1], r, Archive(v, rows)) {
      b, e := HandedAt(states, steps, n - 1, r, v, rows);
    } else {
      b := n - 1;
      e := ArchiveStep(states[b], steps[b], r, v, rows);
    }
  }

  /** A load gets its rows in one way only: its builder reads the table. */
  lemma ReadStep(s: State, step: Step, e: nat, v: nat, rows: Rows)
    requires Enabled(s, step) && e < |Apply(s, step).entries| && WasRead(Apply(s, step).entries[e].phase, v, rows)
    requires !(e < |s.entries| && WasRead(s.entries[e].phase, v, rows))
    ensures step.ReadOk? && s.requests[step.r].progress == Building(e) && e < |s.entries|
    ensures v == |s.log| && rows == RowsIn(TableAfter(s.log), s.entries[e].key)
  {
  }

  lemma {:induction false} ReadAt(states: seq<State>, steps: seq<Step>, n: nat, e: nat, v: nat, rows: Rows)
    returns (a: nat)
    requires IsRun(states, steps) && n < |states|
    requires e < |states[n].entries| && WasRead(states[n].entries[e].phase, v, rows)
    ensures a < n && steps[a].ReadOk? && steps[a].r in states[a].requests
    ensures states[a].requests[steps[a].r].progress == Building(e) && e < |states[a].entries|
    ensures v == |states[a].log| && rows == RowsIn(TableAfter(states[a].log), states[a].entries[e].key)
  {
    if e < |states[n - 1].entries| && WasRead(states[n - 1].entries[e].phase, v, rows) {
      a := ReadAt(states, steps, n - 1, e, v, rows);
    } else {
      ReadStep(states[n - 1], steps[n - 1], e, v, rows);
      a := n - 1;
    }
  }

  /** Every archive handed out is what one read of the table, by a request for the same window, found there. */
  lemma ArchiveComesFromRead(states: seq<State>, steps: seq<Step>, n: nat, r: nat, v: nat, rows: Rows)
    returns (a: nat)
    requires IsRun(states, steps) && n < |states| && AnsweredWith(states[n], r, Archive(v, rows))
    ensures a < n && steps[a].ReadOk? && steps[a].r in states[a].requests
    ensures states[a].requests[steps[a].r].key == states[n].requests[r].key
    ensures v == |states[a].log| && rows == RowsIn(TableAfter(states[a].log), states[n].requests[r].key)
  {
    var b, e := HandedAt(states, steps, n, r, v, rows);
    a := ReadAt(states, steps, b, e, v, rows);
    SameWindow(states, steps, a, b, e, steps[a].r, r);
    RunExtends(states, steps, b, n);
    RunKeeps(states, steps, a);
    assert RequestOk(states[a], states[a].requests[steps[a].r]);
  }

  // ---------- what an archive lists ----------

  /** Write i is the last one for draw number n. */
  ghost predicate IsLastWrite(log: seq<Draw>, i: nat, n: int) {
    i < |log| && log[i].number == n && forall j :: i < j < |log| ==> log[j].number != n
  }

  lemma {:induction false} LastWriteOf(log: seq<Draw>, n: int) returns (i: nat)
    requires n in TableAfter(log)
    ensures IsLastWrite(log, i, n)
  {
    var last := |log| - 1;
    if log[last].number == n {
      i := last;
    } else {
      i := LastWriteOf(log[..last], n);
      assert forall j :: 0 <= j < last ==> log[..last][j] == log[j];
    }
  }

  /** An archive lists exactly the last writes, before it was read, of draws dated inside its window. */
  lemma ArchiveExactly(states: seq<State>, steps: seq<Step>, n: nat, r: nat, v: nat, rows: Rows, number: int, d: Draw)
    requires IsRun(states, steps) && n < |states| && AnsweredWith(states[n], r, Archive(v, rows))
    ensures v <= |states[n].log|
    ensures number in rows && rows[number] == d <==>
            exists i: nat :: IsLastWrite(states[n].log[..v], i, number) && states[n].log[i] == d
                        && InWindow(states[n].requests[r].key, d.date)
  {
    RunKeeps(states, steps, n);
    assert RequestOk(states[n], states[n].requests[r]);
    var seen := states[n].log[..v];
    if number in rows && rows[number] == d {
      var i := LastWriteOf(seen, number);
      WrittenRow(seen, i);
      assert seen[i] == states[n].log[i];
    }
    if i: nat :| IsLastWrite(seen, i, number) && states[n].log[i] == d && InWindow(states[n].requests[r].key, d.date) {
      WrittenRow(seen, i);
      assert seen[i] == states[n].log[i];
    }
  }

  // ---------- when a window is loaded again ----------

  /** The steps that take window k out of the cache. */
  predicate TakesOut(s: State, step: Step, k: Window) {
    match step
    case InvalidateRange(affected) => RangesOverlap(k, affected)
    case InvalidateAll => true
    case FinishLoad(r) => IsBuilding(s, r) && EntryOf(s, r).phase.ReadFailed? && s.requests[r].key == k
    case LookupMiss(_, evict) => evict == Some(k)
    case _ => false
  }

  /** A resident window leaves by such a step and by no other; otherwise it keeps its entry. */
  lemma LeavesExactly(s: State, step: Step, k: Window)
    requires Enabled(s, step) && k in s.cache
    ensures k !in Apply(s, step).cache <==> TakesOut(s, step, k)
    ensures k in Apply(s, step).cache ==> Apply(s, step).cache[k] == s.cache[k]
  {
  }

  lemma KeepsEntry(states: seq<State>, steps: seq<Step>, n: nat, k: Window)
    requires IsRun(states, steps) && n < |steps|
    ensures k in states[n].cache && !TakesOut(states[n], steps[n], k) ==>
              k in states[n + 1].cache && states[n + 1].cache[k] == states[n].cache[k]
  {
    if k in states[n].cache { LeavesExactly(states[n], steps[n], k); }
  }

  /** No step from n to m takes the window out. */
  ghost predicate Undisturbed(states: seq<State>, steps: seq<Step>, n: nat, m: nat, k: Window)
    requires |states| == |steps| + 1 && m <= |steps|
  {
    forall c {:trigger steps[c]} :: n <= c < m ==> !TakesOut(states[c], steps[c], k)
  }

  lemma {:induction false} StaysResident(states: seq<State>, steps: seq<Step>, n: nat, m: nat, k: Window)
    requires IsRun(states, steps) && n <= m < |states| && k in states[n].cache
    requires Undisturbed(states, steps, n, m, k)
    ensures k in states[m].cache && states[m].cache[k] == states[n].cache[k]
    decreases m
  {
    if n < m {
      StaysResident(states, steps, n, m - 1, k);
      KeepsEntry(states, steps, m - 1, k);
    }
  }

  /** A window is loaded twice only if an invalidation of it, its eviction or a failed load came in between. */
  lemma ReloadNeedsCause(states: seq<State>, steps: seq<Step>, a: nat, b: nat, r: nat, q: nat, x: Option<Window>,
                         y: Option<Window>, k: Window)
    returns (c: nat)
    requires IsRun(states, steps) && a < b < |steps|
    requires steps[a] == LookupMiss(r, x) && steps[b] == LookupMiss(q, y)
    requires r in states[a].requests && q in states[b].requests
    requires states[a].requests[r].key == k == states[b].requests[q].key
    ensures a <= c < b && TakesOut(states[c], steps[c], k)
  {
    if x == Some(k) {
      c := a;
    } else {
      assert k in states[a + 1].cache;
      if Undisturbed(states, steps, a + 1, b, k) {
        StaysResident(states, steps, a + 1, b, k);
        assert false;
      }
      c :| a + 1 <= c < b && TakesOut(states[c], steps[c], k);
    }
  }

  /** A resident archive is handed to a request that finds it, without a load. */
  lemma HitIsServed(states: seq<State>, steps: seq<Step>, r: nat, v: nat, rows: Rows)
    returns (longer: seq<State>, more: seq<Step>)
    requires IsRun(states, steps) && IsStarted(states[|states| - 1], r)
    requires var s := states[|states| - 1];
             var k := s.requests[r].key;
             k in s.cache && s.cache[k] < |s.entries| && s.entries[s.cache[k]].phase == Published(v, rows)
    ensures EndsServed(states, longer, more, r, v, rows)
    ensures longer[|longer| - 1].loads == states[|states| - 1].loads && |longer| == |states| + 2
  {
    longer, more := Extended(states, steps, LookupHit(r));
    longer, more := Extended(longer, more, WaiterReturn(r, false));
  }
}
