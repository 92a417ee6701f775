/** Everything about one workflow id, and each atomic step that can touch it. */
module Cells {
  import opened Values
  import opened Table
  import opened Worker

  /** One call of a step function, by attempt number and step id. */
  datatype Run = Run(attempt: nat, stepId: string)

  /**
   * The row, its step log, its live workers (from claim to final write, keyed by attempt number), and five
   * histories: reclaims that reset the row, attempts that requeued it, step functions called, step ids whose user
   * write was committed by a txStep, and what was thrown at each attempt from outside its body's own text.
   */
  datatype Cell = Cell(
    row: Row,
    log: Log,
    workers: map<nat, WorkerState>,
    resets: nat,
    requeuedBy: set<nat>,
    runs: seq<Run>,
    commits: multiset<string>,
    thrown: set<(nat, string)>)

  function NewCell(row: Row): Cell {
    Cell(row, map[], map[], 0, {}, [], multiset{}, {})
  }

  predicate IsNewRow(r: Row) {
    r.status.Pending? && r.attempts == 0 && r.executor.None? && r.startedAt.None? && r.endedAt.None?
    && r.output.None? && r.error.None? && r.cancelAt.None? && r.claimExpiresAt.None?
  }

  datatype CellStep =
    | Claim(exec: string, now: int, leaseMs: nat)
    | Reclaim(now: int)
    | ExtendLease(exec: string, expiry: int)
    | Cancel(now: int)
    | Load(a: nat)
    | Advance(a: nat)
    | Start(a: nat)
    | Commit(a: nat, value: Json)
    | Throws(a: nat, message: string)
    | Finish(a: nat, now: int)
    | Vanish(a: nat)       // a worker that stops without its final write: that write threw
    | Crash(exec: string)  // a process dies, and all its workers with it

  predicate Enabled(registry: Registry, c: Cell, st: CellStep) {
    match st
    case Claim(_, now, _) => c.row.status.Pending? && c.row.scheduledFor <= now
    case Load(a) => a in c.workers && c.workers[a].phase.Starting?
    case Advance(a) => a in c.workers && c.workers[a].phase.InBody? && c.workers[a].snap.name in registry
    case Start(a) => a in c.workers && c.workers[a].phase.Checked?
    case Commit(a, _) => a in c.workers && c.workers[a].phase.Executing?
    case Throws(a, _) =>
      && a in c.workers
      && (c.workers[a].phase.InBody? || c.workers[a].InStep()
          || (c.workers[a].phase.Finishing? && c.workers[a].phase.ending.Succeeds?))
    case Finish(a, _) => a in c.workers && c.workers[a].phase.Finishing?
    case Vanish(a) => a in c.workers
    case _ => true
  }

  function Renewed(workers: map<nat, WorkerState>, exec: string, expiry: int): map<nat, WorkerState> {
    map a | a in workers ::
      if workers[a].exec == exec then workers[a].(leaseUntil := expiry) else workers[a]
  }

  function Survivors(workers: map<nat, WorkerState>, exec: string): map<nat, WorkerState> {
    map a | a in workers && workers[a].exec != exec :: workers[a]
  }

  function Apply(registry: Registry, c: Cell, st: CellStep): Cell
    requires Enabled(registry, c, st)
  {
    match st
    case Claim(exec, now, leaseMs) =>
      var row := ClaimRow(c.row, exec, now, leaseMs);
      c.(row := row, workers := c.workers[row.attempts := NewWorker(exec, row, now + leaseMs)])
    case Reclaim(now) =>
      if Expired(c.row, now) then c.(row := ReclaimRow(c.row), resets := c.resets + 1) else c
    case ExtendLease(exec, expiry) =>
      c.(row := if OwnedBy(c.row, exec) then c.row.(claimExpiresAt := Some(expiry)) else c.row,
         workers := Renewed(c.workers, exec, expiry))
    case Cancel(now) => c.(row := CancelRow(c.row, now))
    case Load(a) => c.(workers := c.workers[a := LoadStep(registry, c.workers[a], c.log)])
    case Advance(a) =>
      var w := c.workers[a];
      c.(workers := c.workers[a := AdvanceStep(registry[w.snap.name], w, c.row.cancelAt.Some?)])
    case Start(a) =>
      c.(workers := c.workers[a := StartStep(c.workers[a])], runs := c.runs + [Run(a, c.workers[a].phase.stepId)])
    case Commit(a, value) =>
      var w := c.workers[a];
      c.(workers := c.workers[a := CommitStep(w, value)],
         log := InsertOrIgnore(c.log, w.phase.stepId, StepOk(w.phase.name, value)),
         commits := if w.phase.tx then c.commits + multiset{w.phase.stepId} else c.commits)
    case Throws(a, message) =>
      c.(workers := c.workers[a := ThrowStep(c.workers[a], message)], thrown := c.thrown + {(a, message)})
    case Finish(a, now) =>
      var w := c.workers[a];
      c.(row := FinishRow(c.row, w, now), workers := c.workers - {a},
         requeuedBy := if Requeues(w) then c.requeuedBy + {a} else c.requeuedBy)
    case Vanish(a) => c.(workers := c.workers - {a})
    case Crash(exec) => c.(workers := Survivors(c.workers, exec))
  }

  /** The states a cell goes through: `states[i+1]` follows from `states[i]` by the step `steps[i]`. */
  ghost predicate IsHistory(registry: Registry, states: seq<Cell>, steps: seq<CellStep>) {
    && |states| == |steps| + 1
    && forall i :: 0 <= i < |steps| ==>
         Enabled(registry, states[i], steps[i]) && states[i + 1] == Apply(registry, states[i], steps[i])
  }

  ghost predicate FromTheStart(registry: Registry, states: seq<Cell>, steps: seq<CellStep>) {
    && IsHistory(registry, states, steps)
    && IsNewRow(states[0].row)
    && states[0] == NewCell(states[0].row)
  }

  /** The cell `d` is what the step makes of `c`. */
  ghost predicate Leads(registry: Registry, c: Cell, st: CellStep, d: Cell) {
    Enabled(registry, c, st) && d == Apply(registry, c, st)
  }

  lemma HistoryOf(registry: Registry, states: seq<Cell>, steps: seq<CellStep>)
    requires |states| == |steps| + 1
    requires forall i :: 0 <= i < |steps| ==> Leads(registry, states[i], steps[i], states[i + 1])
    ensures IsHistory(registry, states, steps)
  {
    forall i | 0 <= i < |steps|
      ensures Enabled(registry, states[i], steps[i]) && states[i + 1] == Apply(registry, states[i], steps[i])
    {
      assert Leads(registry, states[i], steps[i], states[i + 1]);
    }
  }

  lemma ExtendHistory(registry: Registry, states: seq<Cell>, steps: seq<CellStep>, st: CellStep)
    requires IsHistory(registry, states, steps) && Enabled(registry, states[|steps|], st)
    ensures IsHistory(registry, states + [Apply(registry, states[|steps|], st)], steps + [st])
  {
  }

  /** What each step of a stretch keeps holds at its end. */
  lemma {:induction false} Persists(holds: Cell -> bool, states: seq<Cell>, i: nat, j: nat)
    requires i <= j < |states| && holds(states[i])
    requires forall m :: i <= m < j && holds(states[m]) ==> holds(states[m + 1])
    ensures holds(states[j])
    decreases j - i
  {
    if i < j {
      Persists(holds, states, i, j - 1);
    }
  }

  /** What the submitter fixed and no statement ever changes. */
  predicate SameSubmission(r: Row, s: Row) {
    r.name == s.name && r.queue == s.queue && r.input == s.input && r.maxAttempts == s.maxAttempts
    && r.createdAt == s.createdAt && r.key == s.key
  }

  lemma SubmissionIsFixed(registry: Registry, c: Cell, st: CellStep)
    requires Enabled(registry, c, st)
    ensures SameSubmission(c.row, Apply(registry, c, st).row)
  {
  }

  /** The step log only grows, and a stored row never changes: with no assumption on leases. */
  lemma LogOnlyGrows(registry: Registry, c: Cell, st: CellStep)
    requires Enabled(registry, c, st)
    ensures c.log.Keys <= Apply(registry, c, st).log.Keys
    ensures forall id :: id in c.log ==> Apply(registry, c, st).log[id] == c.log[id]
  {
  }

  /** `d` is a later state of the cell: nothing recorded in `c` was lost or changed. */
  ghost predicate Grew(c: Cell, d: Cell) {
    && SameSubmission(c.row, d.row)
    && c.row.attempts <= d.row.attempts && c.resets <= d.resets
    && c.log.Keys <= d.log.Keys && (forall id :: id in c.log ==> d.log[id] == c.log[id])
    && c.runs <= d.runs && c.commits <= d.commits && c.thrown <= d.thrown
    && (c.row.cancelAt.Some? ==> d.row.cancelAt.Some?)
  }

  /** Over a whole history, from any state on: submissions are fixed, logs and histories only grow, flags stay. */
  lemma {:induction false} OnlyGrows(registry: Registry, states: seq<Cell>, steps: seq<CellStep>, i: nat, j: nat)
    requires IsHistory(registry, states, steps)
    requires i <= j < |states|
    ensures Grew(states[i], states[j])
    decreases j - i
  {
    if i < j {
      StepGrows(registry, states[i], steps[i]);
      OnlyGrows(registry, states, steps, i + 1, j);
      GrewTransitive(states[i], states[i + 1], states[j]);
    }
  }

  lemma StepGrows(registry: Registry, c: Cell, st: CellStep)
    requires Enabled(registry, c, st)
    ensures Grew(c, Apply(registry, c, st))
  {
    SubmissionIsFixed(registry, c, st);
    LogOnlyGrows(registry, c, st);
  }

  lemma GrewTransitive(c: Cell, d: Cell, e: Cell)
    requires Grew(c, d) && Grew(d, e)
    ensures Grew(c, e)
  {
  }
}
