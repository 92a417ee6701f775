/** A cancellation request is permanent, and after it almost nothing more runs. No assumption on leases. */
module Cancellation {
  import opened Values
  import opened StepIds
  import opened Table
  import opened Worker
  import opened Cells
  import opened Budget

  /** The attempts that were past their cancellation check, with their step function not called yet. */
  ghost function PastCheck(c: Cell): set<nat> {
    set a | a in c.workers && c.workers[a].phase.Checked?
  }

  /**
   * Since the flagged state `c`, only workers past their check called a step function, each the step it had
   * checked.
   */
  ghost predicate OnlyCheckedRan(c: Cell, d: Cell) {
    && d.row.cancelAt.Some? && c.runs <= d.runs
    && (forall i :: |c.runs| <= i < |d.runs| ==>
          && d.runs[i].attempt in PastCheck(c)
          && d.runs[i].stepId == c.workers[d.runs[i].attempt].phase.stepId)
    && (forall a :: a in PastCheck(d) ==> a in PastCheck(c) && d.workers[a].phase == c.workers[a].phase)
  }

  lemma OnlyCheckedStep(registry: Registry, c: Cell, d: Cell, st: CellStep)
    requires Enabled(registry, d, st) && OnlyCheckedRan(c, d)
    ensures OnlyCheckedRan(c, Apply(registry, d, st))
  {
    var e := Apply(registry, d, st);
    assert c.runs <= d.runs <= e.runs;
    forall a | a in PastCheck(e) ensures a in PastCheck(c) && e.workers[a].phase == c.workers[a].phase {
      assert a in PastCheck(d) && e.workers[a].phase == d.workers[a].phase;
    }
    forall i | |c.runs| <= i < |e.runs|
      ensures e.runs[i].attempt in PastCheck(c) && e.runs[i].stepId == c.workers[e.runs[i].attempt].phase.stepId
    {
      if i < |d.runs| {
        assert e.runs[i] == d.runs[i];
      } else {
        assert st.Start? && st.a in PastCheck(d);
      }
    }
  }

  lemma {:induction false} OnlyCheckedAlways(registry: Registry, states: seq<Cell>, steps: seq<CellStep>, i: nat,
                                             j: nat)
    requires IsHistory(registry, states, steps) && i <= j < |states|
    requires states[i].row.cancelAt.Some?
    ensures OnlyCheckedRan(states[i], states[j])
    decreases j - i
  {
    if i < j {
      OnlyCheckedAlways(registry, states, steps, i, j - 1);
      OnlyCheckedStep(registry, states[i], states[j - 1], steps[j - 1]);
    }
  }

  /**
   * Once the flag is on a row no later statement clears it, and over all later attempts together the number of step
   * functions called is at most the number of workers that were past their check when it was set.
   */
  lemma CancellationIsPermanent(registry: Registry, states: seq<Cell>, steps: seq<CellStep>, i: nat, j: nat)
    requires FromTheStart(registry, states, steps) && i <= j < |states|
    requires states[i].row.cancelAt.Some?
    ensures states[j].row.cancelAt.Some?
    ensures |states[i].runs| <= |states[j].runs| <= |states[i].runs| + |PastCheck(states[i])|
    ensures forall k :: |states[i].runs| <= k < |states[j].runs| ==>
              && states[j].runs[k].attempt in PastCheck(states[i])
              && states[j].runs[k].stepId == states[i].workers[states[j].runs[k].attempt].phase.stepId
  {
    OnlyCheckedAlways(registry, states, steps, i, j);
    AccountedAlways(registry, states, steps, j);
    LaterRuns(states[i], states[j], |states[j].runs|);
  }

  lemma {:induction false} LaterRuns(c: Cell, d: Cell, n: nat)
    requires OnlyCheckedRan(c, d) && RunsDistinct(d) && |c.runs| <= n <= |d.runs|
    ensures n - |c.runs| <= |PastCheck(c)|
  {
    var later := set k | |c.runs| <= k < n :: d.runs[k].attempt;
    LaterRunsSize(c, d, n);
    forall a | a in later ensures a in PastCheck(c) {
    }
    SubsetSize(later, PastCheck(c));
  }

  lemma {:induction false} LaterRunsSize(c: Cell, d: Cell, n: nat)
    requires OnlyCheckedRan(c, d) && RunsDistinct(d) && |c.runs| <= n <= |d.runs|
    ensures |set k | |c.runs| <= k < n :: d.runs[k].attempt| == n - |c.runs|
  {
    var later := set k | |c.runs| <= k < n :: d.runs[k].attempt;
    if n == |c.runs| {
      assert later == {};
    } else {
      LaterRunsSize(c, d, n - 1);
      var before := set k | |c.runs| <= k < n - 1 :: d.runs[k].attempt;
      assert later == before + {d.runs[n - 1].attempt};
      forall k | |c.runs| <= k < n - 1 ensures d.runs[k].attempt != d.runs[n - 1].attempt {
        assert d.runs[k] != d.runs[n - 1];
      }
    }
  }

  // ----- an attempt that meets a fresh step -----

  /** The worker's next call has no stored result. */
  ghost predicate MeetsFreshStep(registry: Registry, w: WorkerState) {
    && w.phase.InBody? && w.snap.name in registry
    && var next := registry[w.snap.name](w.snap.input, w.results);
       next.Call? && StepIdFor(next.name, Count(w.callCounts, next.name)) !in w.stepCache
  }

  /** The attempt is over or only its final write as cancelled is left. */
  ghost predicate Doomed(c: Cell, a: nat) {
    a <= c.row.attempts && (a in c.workers ==> c.workers[a].phase == Finishing(Cancels))
  }

  lemma DoomedStep(registry: Registry, c: Cell, st: CellStep, a: nat)
    requires Enabled(registry, c, st) && Doomed(c, a)
    ensures Doomed(Apply(registry, c, st), a)
    ensures st.Finish? && st.a == a ==> Apply(registry, c, st).row.status.Cancelled?
  {
  }

  lemma DoomedAlways(registry: Registry, states: seq<Cell>, steps: seq<CellStep>, k: nat, m: nat, a: nat)
    requires IsHistory(registry, states, steps) && k <= m < |states| && Doomed(states[k], a)
    ensures Doomed(states[m], a)
    ensures m < |steps| && steps[m].Finish? && steps[m].a == a ==> states[m + 1].row.status.Cancelled?
  {
    forall n | k <= n < m && Doomed(states[n], a) ensures Doomed(states[n + 1], a) {
      DoomedStep(registry, states[n], steps[n], a);
    }
    Persists(d => Doomed(d, a), states, k, m);
    if m < |steps| {
      DoomedStep(registry, states[m], steps[m], a);
    }
  }

  lemma MeetsAndDooms(registry: Registry, c: Cell, a: nat)
    requires Enabled(registry, c, Advance(a)) && c.row.cancelAt.Some? && MeetsFreshStep(registry, c.workers[a])
    requires a <= c.row.attempts
    ensures Doomed(Apply(registry, c, Advance(a)), a)
  {
  }

  /**
   * After the request an attempt that meets a step without a stored result can end in one way only: from then on it
   * calls nothing, and whenever its final write happens, however much later and whatever else happened to the row in
   * between, that write leaves the row cancelled.
   */
  lemma FreshStepCancels(registry: Registry, states: seq<Cell>, steps: seq<CellStep>, i: nat, k: nat, m: nat)
    requires FromTheStart(registry, states, steps) && i <= k < m < |states|
    requires states[i].row.cancelAt.Some?
    requires steps[k].Advance? && MeetsFreshStep(registry, states[k].workers[steps[k].a])
    ensures steps[k].a in states[m].workers ==> states[m].workers[steps[k].a].phase == Finishing(Cancels)
    ensures forall r :: |states[k].runs| <= r < |states[m].runs| ==> states[m].runs[r].attempt != steps[k].a
    ensures m < |steps| && steps[m].Finish? && steps[m].a == steps[k].a ==> states[m + 1].row.status.Cancelled?
  {
    var a := steps[k].a;
    OnlyGrows(registry, states, steps, i, k);
    AccountedAlways(registry, states, steps, k);
    MeetsAndDooms(registry, states[k], a);
    DoomedAlways(registry, states, steps, k + 1, m, a);
    DoomedCallsNothing(registry, states, steps, k + 1, m, a);
  }

  lemma {:induction false} DoomedCallsNothing(
    registry: Registry, states: seq<Cell>, steps: seq<CellStep>, k: nat, m: nat, a: nat)
    requires IsHistory(registry, states, steps) && k <= m < |states| && Doomed(states[k], a)
    ensures forall r :: |states[k].runs| <= r < |states[m].runs| ==> states[m].runs[r].attempt != a
    decreases m - k
  {
    if k < m {
      DoomedCallsNothing(registry, states, steps, k, m - 1, a);
      DoomedAlways(registry, states, steps, k, m - 1, a);
      StepGrows(registry, states[m - 1], steps[m - 1]);
    }
  }

  // ----- what can still be stored -----

  /** The steps that workers had entered, past their check, when the flag was set. */
  ghost function EnteredIds(c: Cell): set<string> {
    set a | a in c.workers && c.workers[a].InStep() :: c.workers[a].phase.stepId
  }

  /** Since the flagged state `c`, nothing was stored but results of steps entered before. */
  ghost predicate OnlyEnteredStored(c: Cell, d: Cell) {
    && d.row.cancelAt.Some?
    && d.log.Keys <= c.log.Keys + EnteredIds(c)
    && (forall a :: a in d.workers && d.workers[a].InStep() ==> d.workers[a].phase.stepId in EnteredIds(c))
  }

  lemma OnlyEnteredStep(registry: Registry, c: Cell, d: Cell, st: CellStep)
    requires Enabled(registry, d, st) && OnlyEnteredStored(c, d)
    ensures OnlyEnteredStored(c, Apply(registry, d, st))
  {
    var e := Apply(registry, d, st);
    forall a | a in e.workers && e.workers[a].InStep() ensures e.workers[a].phase.stepId in EnteredIds(c) {
      assert a in d.workers && d.workers[a].InStep() && e.workers[a].phase.stepId == d.workers[a].phase.stepId;
    }
  }

  /** After the request the log gains only results of steps that were entered before it. */
  lemma OnlyEnteredAlways(
    registry: Registry, states: seq<Cell>, steps: seq<CellStep>, i: nat, j: nat)
    requires IsHistory(registry, states, steps) && i <= j < |states| && states[i].row.cancelAt.Some?
    ensures OnlyEnteredStored(states[i], states[j])
  {
    var c := states[i];
    FlaggedItself(c);
    forall m | i <= m < j && OnlyEnteredStored(c, states[m]) ensures OnlyEnteredStored(c, states[m + 1]) {
      OnlyEnteredStep(registry, c, states[m], steps[m]);
    }
    Persists(d => OnlyEnteredStored(c, d), states, i, j);
  }

  lemma FlaggedItself(c: Cell)
    requires c.row.cancelAt.Some?
    ensures OnlyEnteredStored(c, c)
  {
  }
}
