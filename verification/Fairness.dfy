/** No overtaking: nothing new gets ahead of a workflow that is ready and waiting. */
module Fairness {
  import opened Values
  import opened Table
  import opened Worker
  import opened Cells
  import opened Clusters

  /** The pending rows of the same claim that come strictly before the row `id`. */
  ghost function Ahead(k: Cluster, id: string, filter: QueueFilter): set<string>
    requires id in k.cells
  {
    set x | x in k.cells && k.cells[x].row.status.Pending? && Matches(k.cells[x].row, filter)
            && Before(k.cells[x].row, k.cells[id].row)
  }

  /** No reclaim, no run time before the clock, and the clock is read in the same step as the statement that uses it. */
  ghost predicate Punctual(k: Cluster, st: ClusterStep) {
    && !st.BootReclaim?
    && (st.WorkerDoes? && st.st.Finish? ==> st.st.now == k.time)
    && (st.InsertSubmitted? && st.n in k.submissions ==>
          k.submissions[st.n].row.createdAt == k.time <= k.submissions[st.n].row.scheduledFor)
  }

  ghost predicate Waiting(k: Cluster, id: string) {
    && id in k.cells && k.cells[id].row.status.Pending?
    && k.cells[id].row.scheduledFor <= k.time && k.cells[id].row.createdAt <= k.time
  }

  lemma {:induction false} BackoffPositive(n: nat)
    ensures Backoff(n) > 0
  {
    if n > 0 {
      Pow2AtLeast(n);
    }
  }

  /** A row that a step leaves pending is the row it was, or a requeued one that is due only later. */
  lemma StillPending(registry: Registry, k: Cluster, st: ClusterStep, k': Cluster, x: string)
    requires Next(registry, k, st, k') && Punctual(k, st) && x in k.cells && Moved(registry, k, st, k', x)
    requires k'.cells[x].row.status.Pending?
    ensures k'.cells[x].row == k.cells[x].row || k'.cells[x].row.scheduledFor > k.time
  {
    if Effect(k, st, x).Some? && Effect(k, st, x).value.Finish? {
      BackoffPositive(k.cells[x].workers[Effect(k, st, x).value.a].snap.attempts);
    }
  }

  /** A row inserted now is not due before the clock, and not created before it. */
  lemma NewcomerBehind(registry: Registry, k: Cluster, st: ClusterStep, k': Cluster, x: string)
    requires Next(registry, k, st, k') && Punctual(k, st) && x in k'.cells && x !in k.cells
    ensures k'.cells[x].row.createdAt == k.time <= k'.cells[x].row.scheduledFor
  {
    NewCellsAreEmpty(registry, k, st, k', x);
  }

  lemma AheadOne(registry: Registry, k: Cluster, st: ClusterStep, k': Cluster, id: string, filter: QueueFilter,
                 x: string)
    requires Next(registry, k, st, k') && Punctual(k, st) && Waiting(k, id)
    requires id in k'.cells && k'.cells[id].row == k.cells[id].row && x in Ahead(k', id, filter)
    ensures x in Ahead(k, id, filter)
  {
    EachCellMoves(registry, k, st, k');
    if x in k.cells {
      StillPending(registry, k, st, k', x);
    } else {
      NewcomerBehind(registry, k, st, k', x);
    }
  }

  lemma AheadStep(registry: Registry, k: Cluster, st: ClusterStep, k': Cluster, id: string, filter: QueueFilter)
    requires Next(registry, k, st, k') && Punctual(k, st) && Waiting(k, id)
    requires id in k'.cells && k'.cells[id].row == k.cells[id].row
    ensures Waiting(k', id) && Ahead(k', id, filter) <= Ahead(k, id, filter)
  {
    TimeGrows(registry, k, st, k');
    forall x | x in Ahead(k', id, filter) ensures x in Ahead(k, id, filter) {
      AheadOne(registry, k, st, k', id, filter, x);
    }
  }

  lemma TimeGrows(registry: Registry, k: Cluster, st: ClusterStep, k': Cluster)
    requires Next(registry, k, st, k')
    ensures k.time <= k'.time
  {
  }

  /** From i to j the row is `row` at every moment, and no step reclaims or is unpunctual. */
  ghost predicate Undisturbed(run: seq<Cluster>, steps: seq<ClusterStep>, i: nat, j: nat, id: string, row: Row)
    requires j < |run| == |steps| + 1
  {
    && (forall m :: i <= m <= j ==> id in run[m].cells && run[m].cells[id].row == row)
    && (forall m :: i <= m < j ==> Punctual(run[m], steps[m]))
  }

  ghost predicate NotOvertaken(k: Cluster, k': Cluster, id: string, filter: QueueFilter) {
    && id in k.cells && id in k'.cells
    && (Waiting(k, id) ==> Waiting(k', id) && Ahead(k', id, filter) <= Ahead(k, id, filter))
  }

  lemma {:induction false} Chain(run: seq<Cluster>, i: nat, j: nat, id: string, filter: QueueFilter)
    requires i <= j < |run| && Waiting(run[i], id)
    requires forall m :: i <= m < j ==> NotOvertaken(run[m], run[m + 1], id, filter)
    ensures Waiting(run[j], id) && Ahead(run[j], id, filter) <= Ahead(run[i], id, filter)
    decreases j - i
  {
    if i < j {
      assert NotOvertaken(run[i], run[i + 1], id, filter);
      Chain(run, i + 1, j, id, filter);
    }
  }

  lemma StepInRun(registry: Registry, run: seq<Cluster>, steps: seq<ClusterStep>, i: nat, j: nat, m: nat, id: string,
                  filter: QueueFilter, row: Row)
    requires IsRun(registry, run, steps) && i <= m < j < |run| && Undisturbed(run, steps, i, j, id, row)
    ensures NotOvertaken(run[m], run[m + 1], id, filter)
  {
    assert run[m].cells[id].row == row && run[m + 1].cells[id].row == row;
    if Waiting(run[m], id) {
      AheadStep(registry, run[m], steps[m], run[m + 1], id, filter);
    }
  }

  /** While a ready row waits, the set of rows strictly ahead of it never gains a member. */
  lemma NoOvertaking(registry: Registry, run: seq<Cluster>, steps: seq<ClusterStep>, i: nat, j: nat, id: string,
                     filter: QueueFilter)
    requires IsRun(registry, run, steps) && i <= j < |run| && Waiting(run[i], id)
    requires Undisturbed(run, steps, i, j, id, run[i].cells[id].row)
    ensures Waiting(run[j], id) && Ahead(run[j], id, filter) <= Ahead(run[i], id, filter)
  {
    forall m | i <= m < j ensures NotOvertaken(run[m], run[m + 1], id, filter) {
      StepInRun(registry, run, steps, i, j, m, id, filter, run[i].cells[id].row);
    }
    Chain(run, i, j, id, filter);
  }

  /** A claim that passes a ready row over has filled its limit, only with rows that are not behind it. */
  lemma PassedOver(rows: Rows, now: int, filter: QueueFilter, limit: nat, chosen: set<string>, id: string)
    requires IsClaim(rows, now, filter, limit, chosen)
    requires id in rows && Ready(rows[id], now, filter) && id !in chosen
    ensures |chosen| == limit
    ensures forall x :: x in chosen ==> !Before(rows[id], rows[x])
  {
    var ready := ReadyIds(rows, now, filter);
    SubsetSize(chosen + {id}, ready);
  }
}
