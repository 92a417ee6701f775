/** How many claims a run can hold, and which steps can make a row ready: no assumption on leases. */
module Dispatches {
  import opened Values
  import opened Table
  import opened Worker
  import opened Cells
  import opened Clusters

  // ----- sums over a table -----

  ghost function Sum(m: map<string, nat>): nat {
    if m == map[] then 0
    else
      var id :| id in m;
      m[id] + Sum(m - {id})
  }

  lemma {:induction false} SumSplit(m: map<string, nat>, id: string)
    requires id in m
    ensures Sum(m) == m[id] + Sum(m - {id})
  {
    var first :| id in m && first in m && Sum(m) == m[first] + Sum(m - {first});
    if first != id {
      SumSplit(m - {first}, id);
      SumSplit(m - {id}, first);
      assert m - {first} - {id} == m - {id} - {first};
    }
  }

  /** More ids and larger entries make a larger sum. */
  lemma {:induction false} SumGrows(m: map<string, nat>, n: map<string, nat>)
    requires m.Keys <= n.Keys && forall id :: id in m ==> m[id] <= n[id]
    ensures Sum(m) <= Sum(n)
  {
    if m != map[] {
      var id :| id in m;
      SumSplit(m, id);
      SumSplit(n, id);
      SumGrows(m - {id}, n - {id});
    }
  }

  lemma SumGrowsAt(m: map<string, nat>, n: map<string, nat>, id: string)
    requires m.Keys <= n.Keys && forall x :: x in m ==> m[x] <= n[x]
    requires id in m && m[id] < n[id]
    ensures Sum(m) < Sum(n)
  {
    SumSplit(m, id);
    SumSplit(n, id);
    SumGrows(m - {id}, n - {id});
  }

  // ----- every claim that takes a row is paid for -----

  ghost function AttemptsOf(k: Cluster): map<string, nat> {
    map id | id in k.cells :: k.cells[id].row.attempts
  }

  ghost function AllowancesOf(k: Cluster): map<string, nat> {
    map id | id in k.cells :: Max(1, k.cells[id].row.maxAttempts) + k.cells[id].resets
  }

  /** All dispatches made so far, and all that the submitted limits and the resets pay for. */
  ghost function Dispatched(k: Cluster): nat {
    Sum(AttemptsOf(k))
  }

  ghost function Allowed(k: Cluster): nat {
    Sum(AllowancesOf(k))
  }

  predicate Productive(st: ClusterStep) {
    st.ClaimRows? && st.chosen != {}
  }

  ghost function ProductiveClaims(steps: seq<ClusterStep>): nat {
    if steps == [] then 0
    else ProductiveClaims(steps[..|steps| - 1]) + if Productive(steps[|steps| - 1]) then 1 else 0
  }

  lemma CellAttempts(registry: Registry, k: Cluster, st: ClusterStep, k': Cluster, id: string)
    requires Next(registry, k, st, k') && id in k.cells && Moved(registry, k, st, k', id)
    ensures k.cells[id].row.attempts <= k'.cells[id].row.attempts
    ensures st.ClaimRows? && id in st.chosen ==> k.cells[id].row.attempts < k'.cells[id].row.attempts
  {
    if Effect(k, st, id).Some? {
      StepGrows(registry, k.cells[id], Effect(k, st, id).value);
    }
  }

  lemma ChosenAreStored(registry: Registry, k: Cluster, st: ClusterStep)
    requires CanStep(registry, k, st) && st.ClaimRows?
    ensures st.chosen <= k.cells.Keys
  {
    assert st.chosen <= ReadyIds(RowsOf(k), k.execs[st.exec].tick, st.filter);
  }

  lemma DispatchedStep(registry: Registry, k: Cluster, st: ClusterStep, k': Cluster)
    requires Next(registry, k, st, k')
    ensures Dispatched(k) + (if Productive(st) then 1 else 0) <= Dispatched(k')
  {
    EachCellMoves(registry, k, st, k');
    var m, n := AttemptsOf(k), AttemptsOf(k');
    forall id | id in m ensures id in n && m[id] <= n[id] {
      assert Moved(registry, k, st, k', id);
      CellAttempts(registry, k, st, k', id);
    }
    if Productive(st) {
      ChosenAreStored(registry, k, st);
      var id :| id in st.chosen;
      CellAttempts(registry, k, st, k', id);
      SumGrowsAt(m, n, id);
    } else {
      SumGrows(m, n);
    }
  }

  lemma RunPrefix(registry: Registry, run: seq<Cluster>, steps: seq<ClusterStep>, n: nat)
    requires IsRun(registry, run, steps) && n <= |steps|
    ensures IsRun(registry, run[..n + 1], steps[..n])
  {
    forall i | 0 <= i < n ensures Next(registry, run[..n + 1][i], steps[..n][i], run[..n + 1][i + 1]) {
      assert Next(registry, run[i], steps[i], run[i + 1]);
    }
  }

  lemma {:induction false} ClaimsAreDispatches(registry: Registry, run: seq<Cluster>, steps: seq<ClusterStep>)
    requires IsRun(registry, run, steps)
    ensures ProductiveClaims(steps) <= Dispatched(run[|steps|])
  {
    if steps != [] {
      var n := |steps| - 1;
      RunPrefix(registry, run, steps, n);
      ClaimsAreDispatches(registry, run[..n + 1], steps[..n]);
      assert Next(registry, run[n], steps[n], run[n + 1]);
      DispatchedStep(registry, run[n], steps[n], run[n + 1]);
    }
  }

  lemma WithinAllowance(registry: Registry, run: seq<Cluster>, steps: seq<ClusterStep>, i: nat)
    requires IsRun(registry, run, steps) && i < |run|
    ensures Dispatched(run[i]) <= Allowed(run[i])
  {
    forall id | id in run[i].cells ensures AttemptsOf(run[i])[id] <= AllowancesOf(run[i])[id] {
      ClusterBudget(registry, run, steps, i, i, id, "");
    }
    SumGrows(AttemptsOf(run[i]), AllowancesOf(run[i]));
  }

  /**
   * In every run, with any number of executors, crashes and stale workers: the claims that took a row number at most
   * the sum over all rows of max(1, maxAttempts) plus the reclaims that reset the row.
   */
  lemma ClaimsWithinAllowance(registry: Registry, run: seq<Cluster>, steps: seq<ClusterStep>)
    requires IsRun(registry, run, steps)
    ensures ProductiveClaims(steps) <= Dispatched(run[|steps|]) <= Allowed(run[|steps|])
  {
    ClaimsAreDispatches(registry, run, steps);
    WithinAllowance(registry, run, steps, |steps|);
  }

  // ----- how a row becomes ready -----

  predicate IsReady(k: Cluster, id: string, now: int, filter: QueueFilter) {
    id in k.cells && Ready(k.cells[id].row, now, filter)
  }

  /** The step inserts the row, requeues it, or resets it because its executor's lease has run out. */
  predicate MakesReady(k: Cluster, st: ClusterStep, id: string) {
    || (st.InsertSubmitted? && st.n in k.submissions && k.submissions[st.n].id == id && id !in k.cells)
    || (st.WorkerDoes? && st.id == id && st.st.Finish? && id in k.cells && st.st.a in k.cells[id].workers
        && Requeues(k.cells[id].workers[st.st.a]))
    || (st.BootReclaim? && st.exec in k.execs && id in k.cells && Expired(k.cells[id].row, k.execs[st.exec].bootedAt))
  }

  lemma ReadyCellStep(registry: Registry, c: Cell, st: CellStep, now: int, filter: QueueFilter)
    requires Enabled(registry, c, st)
    requires !Ready(c.row, now, filter) && Ready(Apply(registry, c, st).row, now, filter)
    ensures (st.Reclaim? && Expired(c.row, st.now)) || (st.Finish? && Requeues(c.workers[st.a]))
  {
  }

  lemma ReadyStep(registry: Registry, k: Cluster, st: ClusterStep, k': Cluster, id: string, now: int,
                  filter: QueueFilter)
    requires Next(registry, k, st, k')
    requires !IsReady(k, id, now, filter) && IsReady(k', id, now, filter)
    ensures MakesReady(k, st, id)
  {
    if id in k.cells {
      EachCellMoves(registry, k, st, k');
      assert Moved(registry, k, st, k', id);
      ReadyCellStep(registry, k.cells[id], Effect(k, st, id).value, now, filter);
    } else {
      NewCellsAreEmpty(registry, k, st, k', id);
    }
  }

  lemma ReadyAt(registry: Registry, run: seq<Cluster>, steps: seq<ClusterStep>, m: nat, id: string, now: int,
                filter: QueueFilter)
    requires IsRun(registry, run, steps) && m < |steps|
    requires !IsReady(run[m], id, now, filter) && IsReady(run[m + 1], id, now, filter)
    ensures MakesReady(run[m], steps[m], id)
  {
    assert Next(registry, run[m], steps[m], run[m + 1]);
    ReadyStep(registry, run[m], steps[m], run[m + 1], id, now, filter);
  }

  /** A row that is ready now and was not at an earlier moment was inserted, requeued or reset in between. */
  lemma {:induction false} BecameReady(registry: Registry, run: seq<Cluster>, steps: seq<ClusterStep>, i: nat, j: nat,
                                       id: string, now: int, filter: QueueFilter)
    returns (m: nat)
    requires IsRun(registry, run, steps) && i <= j < |run|
    requires !IsReady(run[i], id, now, filter) && IsReady(run[j], id, now, filter)
    ensures i <= m < j && MakesReady(run[m], steps[m], id)
    ensures !IsReady(run[m], id, now, filter) && IsReady(run[m + 1], id, now, filter)
    decreases j - i
  {
    m := j - 1;
    if IsReady(run[m], id, now, filter) {
      m := BecameReady(registry, run, steps, i, m, id, now, filter);
    } else {
      ReadyAt(registry, run, steps, m, id, now, filter);
    }
  }

  // ----- who can act -----

  /** Executors boot, tick, renew, reclaim and die at any moment, and a cancel request can always be made. */
  lemma ExecutorsCanAct(registry: Registry, k: Cluster, exec: string, id: string, until: int)
    ensures CanStep(registry, k, RequestCancel(id))
    ensures exec in k.execs <==> CanStep(registry, k, StartTick(exec))
    ensures exec in k.execs <==> CanStep(registry, k, Heartbeat(exec))
    ensures exec in k.execs <==> CanStep(registry, k, BootReclaim(exec))
    ensures exec in k.execs <==> CanStep(registry, k, Die(exec))
    ensures exec !in k.execs <==> CanStep(registry, k, Boot(exec, 0))
    ensures k.time <= until <==> CanStep(registry, k, Wait(until))
  {
  }

  /** A worker's step can be taken exactly when its row's cell allows it; a final write has read its clock by then. */
  lemma WorkersCanAct(registry: Registry, k: Cluster, id: string, cst: CellStep)
    requires id in k.cells && IsWorkerStep(cst)
    ensures CanStep(registry, k, WorkerDoes(id, cst)) <==>
            Enabled(registry, k.cells[id], cst) && (cst.Finish? ==> cst.now <= k.time)
  {
  }

  lemma CallsCanGoOn(registry: Registry, k: Cluster, n: nat)
    requires n in k.submissions
    ensures CanStep(registry, k, InsertSubmitted(n)) <==> k.submissions[n].phase == Inserting
    ensures CanStep(registry, k, SelectSubmitted(n)) <==> k.submissions[n].phase == Selecting
  {
  }
}
