/** What a scrape run's coverage buys: replayed step by step among any other requests, loads and invalidations,
    every row it committed is in the archives handed out afterwards. */
module ScrapeFreshness {
  import opened DateWindow
  import opened ArchiveProtocol
  import S = ScrapeRunners

  /** Effect e as a step of the cache protocol. */
  function StepOf(e: S.Effect): Step {
    match e
    case Committed(rows) => Commit(rows)
    case Invalidated(range) => InvalidateRange(range)
  }

  /** The effects happen, in order, at the positions `at` of the run; anything may happen in between. */
  ghost predicate Replays(effects: seq<S.Effect>, steps: seq<Step>, at: seq<nat>) {
    && |at| == |effects|
    && (forall i :: 0 <= i < |at| ==> at[i] < |steps| && steps[at[i]] == StepOf(effects[i]))
    && (forall i, j :: 0 <= i < j < |at| ==> at[i] < at[j])
  }

  lemma CommitAppends(s: State, rows: seq<Draw>, k: nat)
    requires k < |rows|
    ensures var t := Apply(s, Commit(rows)); |s.log| + k < |t.log| && t.log[|s.log| + k] == rows[k]
  {
  }

  lemma KeptRow(states: seq<State>, steps: seq<Step>, n: nat, m: nat, p: nat)
    requires IsRun(states, steps) && n <= m < |states| && p < |states[n].log|
    ensures p < |states[m].log| && states[m].log[p] == states[n].log[p]
  {
    RunExtends(states, steps, n, m);
  }

  /** Where row k of effect i lands in the log. */
  ghost function PlaceOf(states: seq<State>, at: seq<nat>, i: nat, k: nat): nat
    requires i < |at| && at[i] < |states|
  {
    |states[at[i]].log| + k
  }

  /** Once committed, the row stays where it landed. */
  lemma CommittedRowStays(effects: seq<S.Effect>, states: seq<State>, steps: seq<Step>, at: seq<nat>, i: nat, k: nat,
                          m: nat)
    requires IsRun(states, steps) && Replays(effects, steps, at)
    requires i < |effects| && effects[i].Committed? && k < |effects[i].rows|
    requires at[i] < m < |states|
    ensures PlaceOf(states, at, i, k) < |states[m].log|
            && states[m].log[PlaceOf(states, at, i, k)] == effects[i].rows[k]
  {
    assert steps[at[i]] == Commit(effects[i].rows);
    CommitAppends(states[at[i]], effects[i].rows, k);
    KeptRow(states, steps, at[i] + 1, m, PlaceOf(states, at, i, k));
  }

  /** Every row a covered run committed is in what any later request is handed for a window containing it:
      the archive was read after the row was written, and is what the window then contained. */
  lemma CommittedRowSeen(effects: seq<S.Effect>, states: seq<State>, steps: seq<Step>, at: seq<nat>,
                         i: nat, k: nat, b: nat, c: nat, r: nat, w: Window)
    requires IsRun(states, steps) && Replays(effects, steps, at) && S.Covered(effects)
    requires i < |effects| && effects[i].Committed? && k < |effects[i].rows|
    requires forall j :: 0 <= j < |at| ==> at[j] < b
    requires b < |steps| && steps[b] == Begin(r, w) && b < c < |states|
    requires InWindow(NormalizeWindow(w), effects[i].rows[k].date)
    ensures PlaceOf(states, at, i, k) < |states[c].log|
            && states[c].log[PlaceOf(states, at, i, k)] == effects[i].rows[k]
    ensures r in states[c].requests
    ensures states[c].requests[r].progress.Answered? && states[c].requests[r].progress.answer.Archive? ==>
              var archive := states[c].requests[r].progress.answer;
              PlaceOf(states, at, i, k) < archive.version <= |states[c].log|
              && archive.rows == RowsIn(TableAfter(states[c].log[..archive.version]), NormalizeWindow(w))
  {
    assert S.CoveredAt(effects, i);
    var j :| i < j < |effects| && effects[j].Invalidated? && S.AllWithin(effects[i].rows, effects[j].range);
    assert steps[at[j]] == InvalidateRange(effects[j].range);
    CommittedRowStays(effects, states, steps, at, i, k, at[j]);
    CommittedRowStays(effects, states, steps, at, i, k, c);
    FreshArchives(states, steps, at[j], b, c, effects[j].range, PlaceOf(states, at, i, k), r, w);
  }
}
