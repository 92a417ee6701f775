/** The table that all executors share, as a run of the whole system, and what one executor's runtime knows of it. */
module SharedTables {
  import opened Values
  import opened Table
  import opened Worker
  import Cells
  import opened Clusters
  import opened Dispatches
  import opened Dispatcher

  lemma RunGrows(registry: Registry, run: seq<Cluster>, steps: seq<ClusterStep>, st: ClusterStep, k: Cluster)
    requires Clusters.IsRun(registry, run, steps) && Next(registry, run[|steps|], st, k)
    ensures Clusters.IsRun(registry, run + [k], steps + [st])
  {
    forall i | 0 <= i < |steps + [st]| ensures Next(registry, (run + [k])[i], (steps + [st])[i], (run + [k])[i + 1]) {
      if i < |steps| {
        assert Next(registry, run[i], steps[i], run[i + 1]);
      }
    }
  }

  /** The step is one of this executor's own dispatcher: its ticks, heartbeats and claims, or its end. */
  predicate IsOwn(st: ClusterStep, exec: string) {
    UsesExec(st) && st.exec == exec
  }

  /** What is appended to a run by others: nothing of this executor's dispatcher. */
  ghost predicate OnlyOthers(before: seq<ClusterStep>, after: seq<ClusterStep>, exec: string) {
    before <= after && forall i :: |before| <= i < |after| ==> !IsOwn(after[i], exec)
  }

  lemma OthersKeepExec(registry: Registry, k: Cluster, st: ClusterStep, k': Cluster, exec: string)
    requires Next(registry, k, st, k') && !IsOwn(st, exec) && exec in k.execs
    ensures exec in k'.execs && k'.execs[exec] == k.execs[exec]
  {
  }

  lemma CanClaim(registry: Registry, k: Cluster, st: ClusterStep)
    requires st.ClaimRows? && st.exec in k.execs
    requires IsClaim(RowsOf(k), k.execs[st.exec].tick, st.filter, st.limit, st.chosen)
    ensures CanStep(registry, k, st)
  {
    assert st.chosen <= ReadyIds(RowsOf(k), k.execs[st.exec].tick, st.filter);
  }

  /** A claim that did not fill its limit has left nothing ready. */
  lemma NoneReady(registry: Registry, k: Cluster, st: ClusterStep, k': Cluster)
    requires Next(registry, k, st, k') && st.ClaimRows? && |st.chosen| < st.limit
    ensures ReadyIds(RowsOf(k'), k.execs[st.exec].tick, st.filter) == {}
  {
    TableView(registry, k, st, k');
    SameSize(st.chosen, ReadyIds(RowsOf(k), k.execs[st.exec].tick, st.filter));
  }

  lemma SameSize(a: set<string>, b: set<string>)
    requires a <= b && |a| == |b|
    ensures a == b
  {
    assert |b - a| == |b| - |a|;
  }

  // ----- the workers that an executor has on that table -----

  /** Attempt `a` of the row `id` is alive and belongs to this executor. */
  predicate Alive(k: Cluster, exec: string, id: string, a: nat) {
    id in k.cells && a in k.cells[id].workers && k.cells[id].workers[a].exec == exec
  }

  ghost predicate NoNewcomer(k: Cluster, k': Cluster, exec: string) {
    forall id, a: nat :: Alive(k', exec, id, a) ==> Alive(k, exec, id, a)
  }

  lemma AliveStep(registry: Registry, k: Cluster, st: ClusterStep, k': Cluster, exec: string, id: string, a: nat)
    requires Next(registry, k, st, k') && Alive(k', exec, id, a)
    ensures || Alive(k, exec, id, a)
            || (st.ClaimRows? && st.exec == exec && id in st.chosen && a == k'.cells[id].row.attempts)
  {
    if id in k.cells {
      EachCellMoves(registry, k, st, k');
      assert Moved(registry, k, st, k', id);
      if Effect(k, st, id).Some? {
        AliveCellStep(registry, k.cells[id], Effect(k, st, id).value, exec, a);
      }
    } else {
      NewCellsAreEmpty(registry, k, st, k', id);
    }
  }

  lemma AliveCellStep(registry: Registry, c: Cells.Cell, st: Cells.CellStep, exec: string, a: nat)
    requires Cells.Enabled(registry, c, st)
    requires a in Cells.Apply(registry, c, st).workers && Cells.Apply(registry, c, st).workers[a].exec == exec
    ensures || (a in c.workers && c.workers[a].exec == exec)
            || (st.Claim? && st.exec == exec && a == Cells.Apply(registry, c, st).row.attempts)
  {
  }

  lemma NoNewcomerStep(registry: Registry, k: Cluster, st: ClusterStep, k': Cluster, exec: string)
    requires Next(registry, k, st, k') && !(st.ClaimRows? && st.exec == exec)
    ensures NoNewcomer(k, k', exec)
  {
    forall id, a: nat | Alive(k', exec, id, a) ensures Alive(k, exec, id, a) {
      AliveStep(registry, k, st, k', exec, id, a);
    }
  }

  /** The chosen rows are now running on this executor under a lease from its tick's clock; no other row changed. */
  ghost predicate Stamped(k: Cluster, k': Cluster, exec: string, chosen: set<string>) {
    && exec in k.execs && k'.cells.Keys == k.cells.Keys
    && forall id :: id in k.cells ==>
         var r, x := k.cells[id].row, k.execs[exec];
         k'.cells[id].row == if id !in chosen then r
           else r.(status := Running, executor := Some(exec), attempts := r.attempts + 1,
                   claimExpiresAt := Some(x.tick + x.leaseMs),
                   startedAt := if r.startedAt == None then Some(x.tick) else r.startedAt)
  }

  /**
   * The chosen rows were pending, due and of the queue asked for. A row with these columns is left behind only if the
   * limit was filled, and then no chosen row is behind it by scheduled_for and then created_at.
   */
  ghost predicate TookTheFirst(k: Cluster, now: int, filter: QueueFilter, limit: nat, chosen: set<string>) {
    && chosen <= k.cells.Keys && |chosen| <= limit
    && (forall id :: id in chosen ==> k.cells[id].row.status == Pending && k.cells[id].row.scheduledFor <= now)
    && (filter == NoQueue ==> forall id :: id in chosen ==> k.cells[id].row.queue == None)
    && (filter.Named? ==> forall id :: id in chosen ==> k.cells[id].row.queue == Some(filter.queue))
    && (forall id :: (id in k.cells && id !in chosen
                      && k.cells[id].row.status == Pending && k.cells[id].row.scheduledFor <= now
                      && (filter == NoQueue ==> k.cells[id].row.queue == None)
                      && (filter.Named? ==> k.cells[id].row.queue == Some(filter.queue))) ==>
          |chosen| == limit && forall x :: x in chosen ==>
            || k.cells[x].row.scheduledFor < k.cells[id].row.scheduledFor
            || (k.cells[x].row.scheduledFor == k.cells[id].row.scheduledFor
                && k.cells[x].row.createdAt <= k.cells[id].row.createdAt))
  }

  lemma FirstTaken(k: Cluster, now: int, filter: QueueFilter, limit: nat, chosen: set<string>)
    requires IsClaim(RowsOf(k), now, filter, limit, chosen)
    ensures TookTheFirst(k, now, filter, limit, chosen)
  {
    ClaimMeans(RowsOf(k), now, filter, limit, chosen);
    assert forall id :: id in k.cells ==> RowsOf(k)[id] == k.cells[id].row;
  }

  lemma ClaimedCells(registry: Registry, k: Cluster, st: ClusterStep, k': Cluster)
    requires Next(registry, k, st, k') && st.ClaimRows?
    ensures Stamped(k, k', st.exec, st.chosen)
  {
    EachCellMoves(registry, k, st, k');
    forall id | id in k.cells ensures Moved(registry, k, st, k', id) {
    }
  }

  /** The attempt that a claim began for each of its rows, as its answer tells. */
  function AttemptsClaimed(k: Cluster, chosen: set<string>): map<string, nat> {
    map id | id in chosen && id in k.cells :: k.cells[id].row.attempts
  }

  lemma ClaimedAlive(registry: Registry, k: Cluster, st: ClusterStep, k': Cluster)
    requires Next(registry, k, st, k') && st.ClaimRows?
    ensures AttemptsClaimed(k', st.chosen).Keys == st.chosen
    ensures forall id, a: nat :: Alive(k', st.exec, id, a) ==>
              Alive(k, st.exec, id, a) || (id in st.chosen && AttemptsClaimed(k', st.chosen)[id] == a)
  {
    ChosenAreStored(registry, k, st);
    EachCellMoves(registry, k, st, k');
    forall id, a: nat | Alive(k', st.exec, id, a)
      ensures Alive(k, st.exec, id, a) || (id in st.chosen && AttemptsClaimed(k', st.chosen)[id] == a)
    {
      AliveStep(registry, k, st, k', st.exec, id, a);
    }
  }

  /** A worker that the runtime has launched and not seen end works on this attempt. */
  ghost predicate WorksOn(unfinished: map<nat, Launched>, attemptOf: map<nat, nat>, id: string, a: nat) {
    exists w :: w in unfinished && w in attemptOf && unfinished[w].row == id && attemptOf[w] == a
  }

  /** Every live worker of the executor is known to its runtime: unfinished, or about to be launched. */
  ghost predicate Known(k: Cluster, exec: string, unfinished: map<nat, Launched>, attemptOf: map<nat, nat>,
                        arriving: map<string, nat>) {
    forall id, a: nat :: Alive(k, exec, id, a) ==>
      (id in arriving && arriving[id] == a) || WorksOn(unfinished, attemptOf, id, a)
  }

  lemma KnownLaunch(k: Cluster, exec: string, unfinished: map<nat, Launched>, attemptOf: map<nat, nat>,
                    arriving: map<string, nat>, w: nat, l: Launched)
    requires Known(k, exec, unfinished, attemptOf, arriving) && w !in unfinished && l.row in arriving
    ensures Known(k, exec, unfinished[w := l], attemptOf[w := arriving[l.row]], arriving - {l.row})
  {
    var more, of := unfinished[w := l], attemptOf[w := arriving[l.row]];
    forall id, a: nat | Alive(k, exec, id, a)
      ensures (id in arriving - {l.row} && arriving[id] == a) || WorksOn(more, of, id, a)
    {
      if WorksOn(unfinished, attemptOf, id, a) {
        var v :| v in unfinished && v in attemptOf && unfinished[v].row == id && attemptOf[v] == a;
        assert v in more && v in of && more[v].row == id && of[v] == a;
      } else if id == l.row {
        assert w in more && w in of && more[w].row == id && of[w] == a;
      }
    }
  }

  lemma KnownEnd(k: Cluster, exec: string, unfinished: map<nat, Launched>, attemptOf: map<nat, nat>,
                 arriving: map<string, nat>, w: nat)
    requires Known(k, exec, unfinished, attemptOf, arriving) && w in unfinished && w in attemptOf
    requires !Alive(k, exec, unfinished[w].row, attemptOf[w])
    ensures Known(k, exec, unfinished - {w}, attemptOf, arriving)
  {
    forall id, a: nat | Alive(k, exec, id, a)
      ensures (id in arriving && arriving[id] == a) || WorksOn(unfinished - {w}, attemptOf, id, a)
    {
      if WorksOn(unfinished, attemptOf, id, a) {
        var v :| v in unfinished && v in attemptOf && unfinished[v].row == id && attemptOf[v] == a;
        assert v in unfinished - {w} && (unfinished - {w})[v].row == id;
      }
    }
  }

  lemma KnownLater(k: Cluster, k': Cluster, exec: string, unfinished: map<nat, Launched>, attemptOf: map<nat, nat>,
                   arriving: map<string, nat>)
    requires Known(k, exec, unfinished, attemptOf, arriving) && NoNewcomer(k, k', exec)
    ensures Known(k', exec, unfinished, attemptOf, arriving)
  {
  }

  lemma KnownClaimed(k: Cluster, k': Cluster, exec: string, unfinished: map<nat, Launched>, attemptOf: map<nat, nat>,
                     claimed: map<string, nat>)
    requires Known(k, exec, unfinished, attemptOf, map[])
    requires forall id, a: nat :: Alive(k', exec, id, a) ==>
               Alive(k, exec, id, a) || (id in claimed && claimed[id] == a)
    ensures Known(k', exec, unfinished, attemptOf, claimed)
  {
  }

  lemma NobodyAlive(k: Cluster, exec: string, attemptOf: map<nat, nat>)
    requires Known(k, exec, map[], attemptOf, map[])
    ensures !HasWorker(k, exec)
  {
    if HasWorker(k, exec) {
      var id :| id in k.cells && exists a :: a in k.cells[id].workers && k.cells[id].workers[a].exec == exec;
      var a :| a in k.cells[id].workers && k.cells[id].workers[a].exec == exec;
      assert Alive(k, exec, id, a);
    }
  }

  class SharedTable {
    const registry: Registry
    var k: Cluster
    ghost var run: seq<Cluster>
    ghost var steps: seq<ClusterStep>

    /** The state is the last one of a run of the whole system, so every theorem about runs speaks of it. */
    ghost predicate Valid()
      reads this
    {
      Clusters.IsRun(registry, run, steps) && run[|steps|] == k
    }

    constructor (registry: Registry)
      ensures Valid() && this.registry == registry && steps == []
    {
      this.registry := registry;
      k, run, steps := EMPTY, [EMPTY], [];
    }

    /** One atomic step of the system. */
    method Take(st: ClusterStep, answer: string)
      requires Valid() && CanStep(registry, k, st) && (st.SelectSubmitted? ==> Answer(k, k.submissions[st.n], answer))
      modifies this
      ensures Valid() && steps == old(steps) + [st] && run == old(run) + [k]
      ensures k == Following(registry, old(k), st, answer) && Next(registry, old(k), st, k)
      ensures Dispatched(old(k)) + (if Productive(st) then 1 else 0) <= Dispatched(k)
    {
      FollowingIsNext(registry, k, st, answer);
      ghost var k' := Following(registry, k, st, answer);
      RunGrows(registry, run, steps, st, k');
      DispatchedStep(registry, k, st, k');
      k := Following(registry, k, st, answer);
      run, steps := run + [k], steps + [st];
    }

    method StartTick(exec: string)
      requires Valid() && exec in k.execs
      modifies this
      ensures Valid() && steps == old(steps) + [ClusterStep.StartTick(exec)] && run == old(run) + [k]
      ensures exec in k.execs && k.execs[exec].tick == k.time && k.execs[exec].leaseMs == old(k).execs[exec].leaseMs
      ensures Dispatched(old(k)) <= Dispatched(k) && NoNewcomer(old(k), k, exec)
    {
      Take(ClusterStep.StartTick(exec), "");
      NoNewcomerStep(registry, old(k), ClusterStep.StartTick(exec), k, exec);
    }

    method Heartbeat(exec: string)
      requires Valid() && exec in k.execs
      modifies this
      ensures Valid() && steps == old(steps) + [ClusterStep.Heartbeat(exec)] && run == old(run) + [k]
      ensures exec in k.execs && k.execs[exec].(beat := 0) == old(k).execs[exec].(beat := 0)
      ensures Dispatched(old(k)) <= Dispatched(k) && NoNewcomer(old(k), k, exec)
    {
      Take(ClusterStep.Heartbeat(exec), "");
      NoNewcomerStep(registry, old(k), ClusterStep.Heartbeat(exec), k, exec);
    }

    /** claimPending, with the `now` of the executor's current tick. */
    method Claim(exec: string, filter: QueueFilter, limit: nat) returns (chosen: set<string>)
      requires Valid() && exec in k.execs
      modifies this
      ensures Valid() && steps == old(steps) + [ClaimRows(exec, filter, limit, chosen)] && run == old(run) + [k]
      ensures exec in k.execs && k.execs[exec] == old(k).execs[exec]
      ensures |chosen| <= limit && (|chosen| < limit ==> ReadyIds(RowsOf(k), k.execs[exec].tick, filter) == {})
      ensures Dispatched(old(k)) + (if chosen != {} then 1 else 0) <= Dispatched(k)
      ensures TookTheFirst(old(k), old(k).execs[exec].tick, filter, limit, chosen) && Stamped(old(k), k, exec, chosen)
      ensures AttemptsClaimed(k, chosen).Keys == chosen
      ensures forall id, a: nat :: Alive(k, exec, id, a) ==>
                Alive(old(k), exec, id, a) || (id in chosen && AttemptsClaimed(k, chosen)[id] == a)
    {
      chosen := PickFirst(RowsOf(k), k.execs[exec].tick, limit, filter);
      var st := ClaimRows(exec, filter, limit, chosen);
      CanClaim(registry, k, st);
      FirstTaken(k, k.execs[exec].tick, filter, limit, chosen);
      Take(st, "");
      ClaimedCells(registry, old(k), st, k);
      ClaimedAlive(registry, old(k), st, k);
      if |chosen| < limit {
        NoneReady(registry, old(k), st, k);
      }
    }

    /** A step of anybody but this executor's dispatcher, if it is possible now. */
    method Others(st: ClusterStep, answer: string, exec: string)
      requires Valid() && exec in k.execs
      modifies this
      ensures Valid() && old(run) <= run && OnlyOthers(old(steps), steps, exec)
      ensures exec in k.execs && k.execs[exec] == old(k).execs[exec]
      ensures Dispatched(old(k)) <= Dispatched(k) && NoNewcomer(old(k), k, exec)
    {
      if !IsOwn(st, exec) && CanStep(registry, k, st)
         && (st.SelectSubmitted? ==> Answer(k, k.submissions[st.n], answer)) {
        Take(st, answer);
        OthersKeepExec(registry, old(k), st, k, exec);
        NoNewcomerStep(registry, old(k), st, k, exec);
      }
    }
  }

  // ----- what a claim leaves behind -----

  /**
   * Step `at` is the executor's latest own step, a claim with this filter in a tick that read the clock `now`; unless
   * it filled its limit it left nothing ready.
   */
  ghost predicate LastClaim(run: seq<Cluster>, steps: seq<ClusterStep>, exec: string, at: nat, filter: QueueFilter,
                            now: int) {
    && at < |steps| && |run| == |steps| + 1
    && steps[at].ClaimRows? && steps[at].exec == exec && steps[at].filter == filter
    && exec in run[at].execs && run[at].execs[exec].tick == now
    && OnlyOthers(steps[..at + 1], steps, exec)
    && (|steps[at].chosen| < steps[at].limit ==> ReadyIds(RowsOf(run[at + 1]), now, filter) == {})
  }

  lemma LastClaimStays(run: seq<Cluster>, steps: seq<ClusterStep>, run': seq<Cluster>, steps': seq<ClusterStep>,
                       exec: string, at: nat, filter: QueueFilter, now: int)
    requires LastClaim(run, steps, exec, at, filter, now)
    requires run <= run' && OnlyOthers(steps, steps', exec) && |run'| == |steps'| + 1
    ensures LastClaim(run', steps', exec, at, filter, now) && steps'[at] == steps[at]
  {
  }

  /** The executor's latest own step is a claim of the unnamed queue that took nothing and left nothing ready. */
  ghost predicate Emptied(table: SharedTable, exec: string, at: nat, now: int)
    reads table
  {
    && LastClaim(table.run, table.steps, exec, at, NoQueue, now)
    && table.steps[at].chosen == {} && ReadyIds(RowsOf(table.run[at + 1]), now, NoQueue) == {}
  }

  /** After step `at` the row was inserted, requeued, or reset because its executor's lease had run out. */
  ghost predicate ArrivedLate(table: SharedTable, at: nat, id: string)
    reads table
  {
    && |table.run| == |table.steps| + 1
    && exists m: nat :: at < m < |table.steps| && MakesReady(table.run[m], table.steps[m], id)
  }

  lemma LateArrival(table: SharedTable, exec: string, at: nat, now: int, id: string)
    requires table.Valid() && Emptied(table, exec, at, now) && IsReady(table.k, id, now, NoQueue)
    ensures ArrivedLate(table, at, id)
  {
    assert !IsReady(table.run[at + 1], id, now, NoQueue) by {
      assert id !in ReadyIds(RowsOf(table.run[at + 1]), now, NoQueue);
    }
    var m := BecameReady(table.registry, table.run, table.steps, at + 1, |table.steps|, id, now, NoQueue);
  }

  lemma LateArrivals(table: SharedTable, exec: string, at: nat, now: int)
    requires table.Valid() && Emptied(table, exec, at, now)
    ensures forall id :: IsReady(table.k, id, now, NoQueue) ==> ArrivedLate(table, at, id)
  {
    forall id | IsReady(table.k, id, now, NoQueue) ensures ArrivedLate(table, at, id) {
      LateArrival(table, exec, at, now, id);
    }
  }
}
