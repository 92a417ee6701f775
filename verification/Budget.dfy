/** How often a workflow can be dispatched and a step function called, with no assumption on leases. */
module Budget {
  import opened Values
  import opened Table
  import opened Worker
  import opened Cells

  /** The step is behind the worker: it cannot call its function again. */
  ghost predicate Behind(w: WorkerState, stepId: string) {
    w.phase.Finishing? || stepId in w.stepCache || (w.phase.Executing? && w.phase.stepId == stepId)
  }

  ghost predicate Numbered(r: Row, a: nat, w: WorkerState) {
    && 1 <= a <= r.attempts
    && w.snap.attempts == a
    && SameSubmission(w.snap, r)
    && (w.phase.Starting? ==> w.stepCache == map[])
    && (w.phase.Checked? ==> w.phase.stepId !in w.stepCache)
  }

  ghost predicate WorkersNumbered(c: Cell) {
    forall a :: a in c.workers ==> Numbered(c.row, a, c.workers[a])
  }

  ghost predicate DispatchesPaidFor(c: Cell) {
    && (forall a :: a in c.requeuedBy ==> 1 <= a < c.row.maxAttempts && a <= c.row.attempts && a !in c.workers)
    && c.row.attempts + (if c.row.status.Pending? then 1 else 0) <= 1 + c.resets + |c.requeuedBy|
  }

  ghost predicate RunsDistinct(c: Cell) {
    && (forall i, j :: 0 <= i < j < |c.runs| ==> c.runs[i] != c.runs[j])
    && (forall i :: 0 <= i < |c.runs| ==> 1 <= c.runs[i].attempt <= c.row.attempts)
    && (forall i :: 0 <= i < |c.runs| && c.runs[i].attempt in c.workers ==>
          Behind(c.workers[c.runs[i].attempt], c.runs[i].stepId))
  }

  ghost predicate Accounted(c: Cell) {
    WorkersNumbered(c) && DispatchesPaidFor(c) && RunsDistinct(c)
  }

  lemma NumberedStep(registry: Registry, c: Cell, st: CellStep)
    requires Enabled(registry, c, st) && WorkersNumbered(c)
    ensures WorkersNumbered(Apply(registry, c, st))
  {
    var d := Apply(registry, c, st);
    forall a | a in d.workers ensures Numbered(d.row, a, d.workers[a]) {
      SubmissionIsFixed(registry, c, st);
      assert a in c.workers || st.Claim?;
    }
  }

  lemma PaidStep(registry: Registry, c: Cell, st: CellStep)
    requires Enabled(registry, c, st) && WorkersNumbered(c) && DispatchesPaidFor(c)
    ensures DispatchesPaidFor(Apply(registry, c, st))
  {
    if st.Finish? && Requeues(c.workers[st.a]) {
      assert |c.requeuedBy + {st.a}| == |c.requeuedBy| + 1;
    }
  }

  lemma RunsStep(registry: Registry, c: Cell, st: CellStep)
    requires Enabled(registry, c, st) && WorkersNumbered(c) && RunsDistinct(c)
    ensures RunsDistinct(Apply(registry, c, st))
  {
    var d := Apply(registry, c, st);
    assert c.row.attempts <= d.row.attempts;
    if st.Start? {
      assert Numbered(c.row, st.a, c.workers[st.a]);
      assert forall i :: 0 <= i < |c.runs| ==> c.runs[i] != Run(st.a, c.workers[st.a].phase.stepId);
    } else {
      assert d.runs == c.runs;
    }
    forall i | 0 <= i < |c.runs| && c.runs[i].attempt in d.workers
      ensures Behind(d.workers[c.runs[i].attempt], c.runs[i].stepId)
    {
      StillBehind(registry, c, st, c.runs[i].attempt, c.runs[i].stepId);
    }
  }

  lemma StillBehind(registry: Registry, c: Cell, st: CellStep, a: nat, stepId: string)
    requires Enabled(registry, c, st) && WorkersNumbered(c) && a <= c.row.attempts
    requires a in c.workers ==> Behind(c.workers[a], stepId)
    ensures a in Apply(registry, c, st).workers ==> Behind(Apply(registry, c, st).workers[a], stepId)
  {
    if a in c.workers {
      assert Numbered(c.row, a, c.workers[a]);
    }
  }

  /** Once accounted for, a cell stays so, whatever happens to it. */
  lemma {:induction false} AccountedAlways(registry: Registry, states: seq<Cell>, steps: seq<CellStep>, i: nat)
    requires FromTheStart(registry, states, steps) && i < |states|
    ensures Accounted(states[i])
  {
    if i > 0 {
      AccountedAlways(registry, states, steps, i - 1);
      NumberedStep(registry, states[i - 1], steps[i - 1]);
      PaidStep(registry, states[i - 1], steps[i - 1]);
      RunsStep(registry, states[i - 1], steps[i - 1]);
    }
  }

  /** How many times the function of step `stepId` was called. */
  ghost function RunsOf(runs: seq<Run>, stepId: string): nat {
    if runs == [] then 0
    else RunsOf(runs[..|runs| - 1], stepId) + if runs[|runs| - 1].stepId == stepId then 1 else 0
  }

  ghost function AttemptsOf(runs: seq<Run>, stepId: string): set<nat> {
    set i | 0 <= i < |runs| && runs[i].stepId == stepId :: runs[i].attempt
  }

  lemma {:induction false} RunsAreAttempts(runs: seq<Run>, stepId: string)
    requires forall i, j :: 0 <= i < j < |runs| ==> runs[i] != runs[j]
    ensures RunsOf(runs, stepId) == |AttemptsOf(runs, stepId)|
  {
    if runs != [] {
      var rest, last := runs[..|runs| - 1], runs[|runs| - 1];
      RunsAreAttempts(rest, stepId);
      AttemptsSnoc(runs, stepId);
      assert forall i :: 0 <= i < |rest| ==> rest[i] == runs[i] != last;
    }
  }

  lemma AttemptsSnoc(runs: seq<Run>, stepId: string)
    requires runs != []
    ensures var rest, last := runs[..|runs| - 1], runs[|runs| - 1];
            AttemptsOf(runs, stepId) ==
            AttemptsOf(rest, stepId) + (if last.stepId == stepId then {last.attempt} else {})
  {
    var rest := runs[..|runs| - 1];
    assert forall i :: 0 <= i < |rest| ==> rest[i] == runs[i];
    forall a | a in AttemptsOf(rest, stepId) ensures a in AttemptsOf(runs, stepId) {
      var i :| 0 <= i < |rest| && rest[i].stepId == stepId && rest[i].attempt == a;
      assert runs[i] == rest[i];
    }
    forall a | a in AttemptsOf(runs, stepId)
      ensures a in AttemptsOf(rest, stepId) || Run(a, stepId) == runs[|runs| - 1]
    {
      var i :| 0 <= i < |runs| && runs[i].stepId == stepId && runs[i].attempt == a;
      assert i < |rest| ==> rest[i] == runs[i];
    }
  }

  /**
   * Every row is dispatched at most max(1, maxAttempts) times plus once for each reclaim that reset it, and no step
   * function is called more often than the row was dispatched. Stale workers and crashes are allowed throughout.
   */
  lemma DispatchBudget(registry: Registry, states: seq<Cell>, steps: seq<CellStep>, i: nat, stepId: string)
    requires FromTheStart(registry, states, steps) && i < |states|
    ensures states[i].row.attempts <= Max(1, states[i].row.maxAttempts) + states[i].resets
    ensures RunsOf(states[i].runs, stepId) <= states[i].row.attempts
  {
    AccountedAlways(registry, states, steps, i);
    var c := states[i];
    SmallSet(c.requeuedBy, Max(1, c.row.maxAttempts));
    RunsAreAttempts(c.runs, stepId);
    SmallSet(AttemptsOf(c.runs, stepId), c.row.attempts + 1);
  }
}
