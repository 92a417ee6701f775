/** What timely heartbeats buy: at most one live worker for each row, coherent rows, final statuses. */
module Lease {
  import opened Values
  import opened Table
  import opened Worker
  import opened Cells

  /** No reclaim reads a clock at or past the lease of a live worker of the row. */
  ghost predicate TimelyStep(c: Cell, st: CellStep) {
    st.Reclaim? ==> forall a :: a in c.workers ==> st.now < c.workers[a].leaseUntil
  }

  ghost predicate Timely(states: seq<Cell>, steps: seq<CellStep>)
    requires |states| == |steps| + 1
  {
    forall i :: 0 <= i < |steps| ==> TimelyStep(states[i], steps[i])
  }

  /** Any live worker is the row's current attempt, and the row carries its executor and its lease. */
  ghost predicate Exclusive(c: Cell) {
    forall a :: a in c.workers ==>
      && a == c.row.attempts
      && OwnedBy(c.row, c.workers[a].exec)
      && c.row.claimExpiresAt == Some(c.workers[a].leaseUntil)
      && c.workers[a].snap.attempts == a
      && SameSubmission(c.workers[a].snap, c.row)
  }

  ghost predicate Coherent(r: Row) {
    match r.status
    case Pending =>
      r.executor.None? && r.claimExpiresAt.None? && r.startedAt.None? && r.endedAt.None? && r.output.None?
    case Running =>
      r.executor.Some? && r.claimExpiresAt.Some? && r.startedAt.Some? && r.endedAt.None? && r.output.None?
      && r.attempts >= 1
    case _ => r.executor.None? && r.claimExpiresAt.None? && r.endedAt.Some? && (r.status.Success? <==> r.output.Some?)
  }

  lemma ExclusiveStep(registry: Registry, c: Cell, st: CellStep)
    requires Enabled(registry, c, st) && TimelyStep(c, st)
    requires Exclusive(c) && Coherent(c.row)
    ensures Exclusive(Apply(registry, c, st)) && Coherent(Apply(registry, c, st).row)
  {
  }

  /** While leases are renewed in time, every state is exclusive and its row coherent. */
  lemma {:induction false} LeaseExclusion(registry: Registry, states: seq<Cell>, steps: seq<CellStep>, i: nat)
    requires FromTheStart(registry, states, steps) && Timely(states, steps) && i < |states|
    ensures Exclusive(states[i]) && Coherent(states[i].row)
  {
    if i > 0 {
      LeaseExclusion(registry, states, steps, i - 1);
      ExclusiveStep(registry, states[i - 1], steps[i - 1]);
    }
  }

  /** There is at most one live worker, and a reclaim does nothing to a row that has one. */
  lemma OneLiveWorker(registry: Registry, states: seq<Cell>, steps: seq<CellStep>, i: nat)
    requires FromTheStart(registry, states, steps) && Timely(states, steps) && i < |states|
    ensures |states[i].workers| <= 1
    ensures i < |steps| && steps[i].Reclaim? && states[i].workers != map[] ==> states[i + 1] == states[i]
  {
    LeaseExclusion(registry, states, steps, i);
    var c := states[i];
    assert c.workers.Keys <= {c.row.attempts};
    SubsetSize(c.workers.Keys, {c.row.attempts});
    assert |c.workers.Keys| == |c.workers|;
    if c.workers != map[] {
      assert c.row.attempts in c.workers by {
        var a :| a in c.workers;
      }
    }
  }

  /** A terminal status is never left again, and the output stored with it never changes. */
  lemma {:induction false} TerminalIsFinal(registry: Registry, states: seq<Cell>, steps: seq<CellStep>, i: nat, j: nat)
    requires FromTheStart(registry, states, steps) && Timely(states, steps) && i <= j < |states|
    requires states[i].row.status.Terminal()
    ensures states[j].row == states[i].row && states[j].log == states[i].log
    ensures states[j].workers == map[] && states[j].commits == states[i].commits && states[j].runs == states[i].runs
    decreases j - i
  {
    LeaseExclusion(registry, states, steps, j);
    if i < j {
      TerminalIsFinal(registry, states, steps, i, j - 1);
      LeaseExclusion(registry, states, steps, j - 1);
    }
    assert states[j].workers.Keys == {};
  }
}
