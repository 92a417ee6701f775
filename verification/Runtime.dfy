/** DurableRuntime's tick and its on-demand drain, with everything else going on between their awaits. */
module Runtimes {
  import opened Values
  import opened Table
  import opened Worker
  import opened Clusters
  import opened Dispatches
  import opened Dispatcher
  import opened SharedTables

  // ----- the counters of one runtime -----

  ghost function RowsOn(unfinished: map<nat, Launched>): set<string> {
    set w | w in unfinished :: unfinished[w].row
  }

  /** The counters are right and within their caps, and a row is in flight only for an unfinished worker. */
  ghost predicate Orderly(c: Config, p: Pool, launches: nat) {
    && c.globalConcurrency >= 1 && DistinctQueues(c)
    && Counted(c, p) && WithinCaps(c, p)
    && p.inFlight <= RowsOn(p.unfinished)
    && p.unfinished.Keys <= p.promises
    && forall w :: w in p.promises ==> w < launches
  }

  lemma OrderlyLaunch(c: Config, p: Pool, launches: nat, row: string, next: nat)
    requires Orderly(c, p, launches) && Fits(c, p, next, 1)
    ensures Orderly(c, Launch(p, launches, row, NameOf(c, next)), launches + 1)
  {
    var q := Launch(p, launches, row, NameOf(c, next));
    LaunchCounts(c, p, launches, row, NameOf(c, next));
    GrownWithinCaps(c, p, q, next, 1);
    LaunchedRows(p.unfinished, launches, Launched(row, NameOf(c, next)));
  }

  lemma LaunchedRows(unfinished: map<nat, Launched>, w: nat, l: Launched)
    requires w !in unfinished
    ensures RowsOn(unfinished[w := l]) == RowsOn(unfinished) + {l.row}
  {
    var after := unfinished[w := l];
    forall row | row in RowsOn(unfinished) + {l.row} ensures row in RowsOn(after) {
      if row in RowsOn(unfinished) {
        var v :| v in unfinished && unfinished[v].row == row;
        assert after[v].row == row;
      } else {
        assert after[w].row == row;
      }
    }
  }

  lemma FitsOneLess(c: Config, p: Pool, w: nat, row: string, next: nat, n: nat)
    requires Orderly(c, p, w) && n >= 1 && Fits(c, p, next, n)
    ensures Fits(c, p, next, 1) && Fits(c, Launch(p, w, row, NameOf(c, next)), next, n - 1)
  {
    LaunchCounts(c, p, w, row, NameOf(c, next));
  }

  lemma FitsFewer(c: Config, p: Pool, next: nat, n: nat, m: nat)
    requires Fits(c, p, next, n) && m <= n
    ensures Fits(c, p, next, m)
  {
  }

  lemma OrderlyEnd(c: Config, p: Pool, launches: nat, w: nat)
    requires Orderly(c, p, launches) && w in p.unfinished
    ensures Orderly(c, Finish(p, w), launches) && Shrunk(c, p, Finish(p, w))
  {
    FinishKeepsCaps(c, p, w);
    forall row | row in p.inFlight - {p.unfinished[w].row} ensures row in RowsOn(p.unfinished - {w}) {
      var v :| v in p.unfinished && p.unfinished[v].row == row;
      assert (p.unfinished - {w})[v].row == row;
    }
  }

  /** `q` has only lost workers of `p`, so what fitted beside `p` still fits. */
  ghost predicate Shrunk(c: Config, p: Pool, q: Pool) {
    && q.promises <= p.promises && q.inFlight <= p.inFlight
    && forall next, capacity :: Fits(c, p, next, capacity) ==> Fits(c, q, next, capacity)
  }

  lemma NobodyLeft(c: Config, p: Pool, launches: nat)
    requires Orderly(c, p, launches) && p.promises == {}
    ensures p.inFlight == {} && p.unfinished == map[]
  {
    assert RowsOn(p.unfinished) == {};
  }

  lemma SomebodyThere(c: Config, p: Pool, launches: nat)
    requires Orderly(c, p, launches) && CapacityFor(c, p, |c.queues|) == 0
    ensures p.promises != {}
  {
    assert p.inFlight != {};
    var row :| row in p.inFlight;
    var w :| w in p.unfinished && p.unfinished[w].row == row;
    assert w in p.promises;
  }

  // ----- one runtime on the shared table -----

  /**
   * What can happen while the runtime awaits something. A worker ends when its finally block runs, once its attempt is
   * over on the table, and its promise leaves inFlightWorkers later still.
   */
  datatype Move =
    | Elsewhere(st: ClusterStep, answer: string)
    | WorkerEnds(w: nat)
    | PromiseLeaves(w: nat)
    | DrainCalled
    | Stopped

  /** A look at the capacity of queue number `next`: the workers there were, and the length of the shared run. */
  datatype Glance = Glance(next: nat, at: nat, pool: Pool)

  /**
   * The places free at a look: those left of the global cap, and for a named queue at most those that its unfinished
   * workers leave of its concurrency.
   */
  ghost function FreeAt(c: Config, look: Glance): int {
    var global := c.globalConcurrency - |look.pool.inFlight|;
    if look.next >= |c.queues| then global
    else
      var q := c.queues[look.next];
      var own := q.concurrency - |OnQueue(look.pool.unfinished, q.name)|;
      if own < global then own else global
  }

  /**
   * If there was a place, a claim for just this queue and just the free places was sent and committed before step
   * `until`; and unless it filled them it left no row of the queue that was due by its tick's clock.
   */
  ghost predicate Asked(c: Config, exec: string, run: seq<Cluster>, steps: seq<ClusterStep>, look: Glance, until: nat) {
    && look.at <= until <= |steps| && |run| == |steps| + 1
    && (FreeAt(c, look) > 0 ==> exists m: nat :: look.at <= m < until && IsAnswer(c, exec, run, steps, look, m))
  }

  ghost predicate IsAnswer(c: Config, exec: string, run: seq<Cluster>, steps: seq<ClusterStep>, look: Glance, m: nat) {
    && m < |steps| && m + 1 < |run| && steps[m].ClaimRows? && steps[m].exec == exec && exec in run[m].execs
    && steps[m].limit == FreeAt(c, look)
    && steps[m].filter == (if look.next < |c.queues| then Named(c.queues[look.next].name) else NoQueue)
    && (|steps[m].chosen| < steps[m].limit ==>
          ReadyIds(RowsOf(run[m + 1]), run[m].execs[exec].tick, steps[m].filter) == {})
  }

  /** The looks are at queues 0, 1 and so on, and each was asked before the next look. */
  ghost predicate AskedInOrder(c: Config, exec: string, run: seq<Cluster>, steps: seq<ClusterStep>, looks: seq<Glance>,
                               from: nat) {
    forall i :: 0 <= i < |looks| ==>
      looks[i].next == i && from <= looks[i].at && Asked(c, exec, run, steps, looks[i], Until(looks, i, |steps|))
  }

  /** A look's answer comes before the next look, the last one's before `end`. */
  function Until(looks: seq<Glance>, i: nat, end: nat): nat
    requires i < |looks|
  {
    if i + 1 < |looks| then looks[i + 1].at else end
  }

  lemma AskedLater(c: Config, exec: string, run: seq<Cluster>, steps: seq<ClusterStep>, run': seq<Cluster>,
                   steps': seq<ClusterStep>, look: Glance, until: nat, until': nat)
    requires Asked(c, exec, run, steps, look, until) && run <= run' && steps <= steps' && |run'| == |steps'| + 1
    requires until <= until' <= |steps'|
    ensures Asked(c, exec, run', steps', look, until')
  {
    if FreeAt(c, look) > 0 {
      var m: nat :| look.at <= m < until && IsAnswer(c, exec, run, steps, look, m);
      assert IsAnswer(c, exec, run', steps', look, m);
    }
  }

  lemma AskedInOrderLater(c: Config, exec: string, run: seq<Cluster>, steps: seq<ClusterStep>, run': seq<Cluster>,
                          steps': seq<ClusterStep>, looks: seq<Glance>, from: nat)
    requires AskedInOrder(c, exec, run, steps, looks, from) && |run| == |steps| + 1
    requires run <= run' && steps <= steps' && |run'| == |steps'| + 1
    ensures AskedInOrder(c, exec, run', steps', looks, from)
  {
    forall i | 0 <= i < |looks| ensures Asked(c, exec, run', steps', looks[i], Until(looks, i, |steps'|)) {
      AskedLater(c, exec, run, steps, run', steps', looks[i], Until(looks, i, |steps|), Until(looks, i, |steps'|));
    }
  }

  /** One more queue is looked at, after the run has reached `look.at`, and asked. */
  lemma AskedNext(c: Config, exec: string, run: seq<Cluster>, steps: seq<ClusterStep>, run': seq<Cluster>,
                  steps': seq<ClusterStep>, looks: seq<Glance>, look: Glance, from: nat)
    requires AskedInOrder(c, exec, run, steps, looks, from) && from <= |steps|
    requires run <= run' && steps <= steps' && |run'| == |steps'| + 1 && |run| == |steps| + 1
    requires look.next == |looks| && look.at == |steps| && Asked(c, exec, run', steps', look, |steps'|)
    ensures AskedInOrder(c, exec, run', steps', looks + [look], from)
  {
    var all := looks + [look];
    forall i | 0 <= i < |looks| ensures Asked(c, exec, run', steps', all[i], Until(all, i, |steps'|)) {
      AskedLater(c, exec, run, steps, run', steps', looks[i], Until(looks, i, |steps|), Until(all, i, |steps'|));
    }
  }

  /** Between two steps of the run the executor has begun a tick, and renewed its leases in it if it was busy. */
  ghost predicate TickBegun(exec: string, steps: seq<ClusterStep>, from: nat, until: nat, busy: bool) {
    && until <= |steps|
    && exists m: nat, h: nat :: from <= m < until && steps[m] == ClusterStep.StartTick(exec)
         && (busy ==> m < h < until && steps[h] == ClusterStep.Heartbeat(exec))
  }

  lemma BegunBefore(exec: string, steps: seq<ClusterStep>, steps': seq<ClusterStep>, from: nat, until: nat, busy: bool)
    requires TickBegun(exec, steps, from, |steps|, busy) && steps <= steps' && |steps| <= until <= |steps'|
    ensures TickBegun(exec, steps', from, until, busy)
  {
    var m: nat, h: nat :| from <= m < |steps| && steps[m] == ClusterStep.StartTick(exec)
                          && (busy ==> m < h < |steps| && steps[h] == ClusterStep.Heartbeat(exec));
    assert steps'[m] == steps[m] && (busy ==> steps'[h] == steps[h]);
  }

  lemma AskedEarlier(c: Config, exec: string, run: seq<Cluster>, steps: seq<ClusterStep>, looks: seq<Glance>, from: nat,
                     earlier: nat)
    requires AskedInOrder(c, exec, run, steps, looks, from) && earlier <= from
    ensures AskedInOrder(c, exec, run, steps, looks, earlier)
  {
  }

  /** Each of these rows has an unfinished worker of its own, recorded for queue number `next`. */
  ghost predicate LaunchedFor(c: Config, unfinished: map<nat, Launched>, attemptOf: map<nat, nat>,
                              claimed: map<string, nat>, next: nat) {
    forall id :: id in claimed ==> exists w :: IsWorkerOf(c, unfinished, attemptOf, id, claimed[id], next, w)
  }

  ghost predicate IsWorkerOf(c: Config, unfinished: map<nat, Launched>, attemptOf: map<nat, nat>, id: string, a: nat,
                             next: nat, w: nat) {
    && w in unfinished && unfinished[w].row == id && w in attemptOf && attemptOf[w] == a
    && unfinished[w].queue == if next < |c.queues| then Some(c.queues[next].name) else None
  }

  lemma OneMoreLaunched(c: Config, unfinished: map<nat, Launched>, attemptOf: map<nat, nat>, claimed: map<string, nat>,
                        next: nat, w: nat, id: string, a: nat)
    requires LaunchedFor(c, unfinished, attemptOf, claimed, next) && w !in unfinished
    ensures LaunchedFor(c, unfinished[w := Launched(id, NameOf(c, next))], attemptOf[w := a], claimed[id := a], next)
  {
    var more, of, all := unfinished[w := Launched(id, NameOf(c, next))], attemptOf[w := a], claimed[id := a];
    forall x | x in all ensures exists v :: IsWorkerOf(c, more, of, x, all[x], next, v) {
      if x == id {
        assert IsWorkerOf(c, more, of, x, a, next, w);
      } else {
        var v :| IsWorkerOf(c, unfinished, attemptOf, x, claimed[x], next, v);
        assert IsWorkerOf(c, more, of, x, all[x], next, v);
      }
    }
  }

  /** The rows launched so far and those left make up the claimed ones. */
  ghost predicate Parts(claimed: map<string, nat>, done: map<string, nat>, left: map<string, nat>) {
    && (forall id :: id in claimed <==> id in done || id in left)
    && (forall id :: id in done ==> id in claimed && done[id] == claimed[id])
    && (forall id :: id in left ==> id in claimed && left[id] == claimed[id])
  }

  lemma OnePartLess(claimed: map<string, nat>, done: map<string, nat>, left: map<string, nat>, id: string)
    requires Parts(claimed, done, left) && id in left
    ensures Parts(claimed, done[id := left[id]], left - {id})
    ensures |left - {id}| == |left| - 1 && left - {id} != claimed
  {
    assert id in claimed && id !in left - {id};
  }

  lemma PartsEnd(claimed: map<string, nat>, done: map<string, nat>)
    requires Parts(claimed, done, map[])
    ensures done == claimed
  {
  }

  class DurableRuntime {
    const config: Config
    const executorId: string
    var dispatcherActive: bool
    var inFlight: set<string>
    var perQueueInFlight: map<string, int>
    var inFlightWorkers: set<nat>
    var unfinished: map<nat, Launched>
    var attemptOf: map<nat, nat>  // the attempt each launched worker was given
    var launches: nat
    var drainRequested: bool

    ghost var pool: Pool  // the four collections as one value
    ghost var lastCall: nat  // the length of the shared run when drain() was last called
    ghost var calls: nat  // how often it was called
    ghost var looks: seq<Glance>  // every look at a queue's capacity
    ghost var arriving: map<string, nat>  // attempts claimed on the table and not launched yet

    ghost predicate Valid()
      reads this
    {
      pool == Pool(inFlight, perQueueInFlight, unfinished, inFlightWorkers) && Orderly(config, pool, launches)
    }

    /** Every live worker that this executor has on the table is one of this runtime's. */
    ghost predicate Linked(k: Cluster)
      reads this
    {
      unfinished.Keys <= attemptOf.Keys && Known(k, executorId, unfinished, attemptOf, arriving)
    }

    ghost predicate Joined(table: SharedTable)
      reads this, table
    {
      && Valid() && table.Valid() && executorId in table.k.execs && lastCall <= |table.steps|
      && Linked(table.k)
    }

    /** No claim of this runtime is on its way. */
    ghost predicate Settled(table: SharedTable)
      reads this, table
    {
      Joined(table) && arriving == map[]
    }

    constructor (config: Config, executorId: string)
      requires config.globalConcurrency >= 1 && DistinctQueues(config)
      ensures Valid() && this.config == config && this.executorId == executorId
      ensures unfinished == map[] && arriving == map[] && !dispatcherActive && !drainRequested && lastCall == 0
    {
      this.config, this.executorId := config, executorId;
      dispatcherActive, drainRequested, lastCall, calls := false, false, 0, 0;
      inFlight, inFlightWorkers, unfinished, launches := {}, {}, map[], 0;
      attemptOf, arriving, looks := map[], map[], [];
      perQueueInFlight := map i | 0 <= i < |config.queues| :: config.queues[i].name := 0;
      pool := Dispatcher.Boot(config).pool;
      new;
      assert forall name :: OnQueue(map[], name) == {};
    }

    /** The free places, if any: named queues count the unfinished workers of their own too. `at` is the moment. */
    method CapacityForQueue(next: nat, ghost at: nat) returns (capacity: nat)
      requires Valid()
      modifies `looks
      ensures looks == old(looks) + [Glance(next, at, pool)]
      ensures capacity == Max(0, FreeAt(config, Glance(next, at, pool)))
      ensures capacity == CapacityFor(config, pool, next) && Fits(config, pool, next, capacity)
    {
      looks := looks + [Glance(next, at, pool)];
      var remaining := Max(0, config.globalConcurrency - |inFlight|);
      if next >= |config.queues| {
        return remaining;
      }
      var used := Used(perQueueInFlight, config.queues[next].name);
      capacity := Max(0, Min(remaining, config.queues[next].concurrency - used));
    }

    ghost predicate Mirrored()
      reads this
    {
      pool == Pool(inFlight, perQueueInFlight, unfinished, inFlightWorkers)
    }

    /** The bookkeeping at the start of launchWorker. */
    method Track(row: string, attempt: nat, queue: Option<string>)
      requires Mirrored()
      modifies `inFlight, `perQueueInFlight, `inFlightWorkers, `unfinished, `attemptOf, `launches, `pool
      ensures Mirrored() && pool == Launch(old(pool), old(launches), row, queue) && launches == old(launches) + 1
      ensures attemptOf == old(attemptOf)[old(launches) := attempt]
    {
      pool := Launch(pool, launches, row, queue);
      inFlight := inFlight + {row};
      if queue.Some? {
        perQueueInFlight := perQueueInFlight[queue.value := Used(perQueueInFlight, queue.value) + 1];
      }
      unfinished, attemptOf := unfinished[launches := Launched(row, queue)], attemptOf[launches := attempt];
      inFlightWorkers := inFlightWorkers + {launches};
      launches := launches + 1;
    }

    /** Its `finally` block. */
    method Untrack(w: nat)
      requires Mirrored() && w in unfinished
      modifies `inFlight, `perQueueInFlight, `unfinished, `pool
      ensures Mirrored() && pool == Finish(old(pool), w)
    {
      pool := Finish(pool, w);
      var l := unfinished[w];
      inFlight := inFlight - {l.row};
      if l.queue.Some? {
        var n := if l.queue.value in perQueueInFlight then perQueueInFlight[l.queue.value] else 1;
        perQueueInFlight := perQueueInFlight[l.queue.value := Max(0, n - 1)];
      }
      unfinished := unfinished - {w};
    }

    /** The row may still be in flight for an earlier worker that was taken for dead. */
    method LaunchWorker(row: string, attempt: nat, next: nat)
      requires Valid() && Fits(config, pool, next, 1)
      modifies `inFlight, `perQueueInFlight, `inFlightWorkers, `unfinished, `attemptOf, `launches, `pool
      ensures Valid() && pool == Launch(old(pool), old(launches), row, NameOf(config, next))
      ensures attemptOf == old(attemptOf)[old(launches) := attempt]
    {
      ghost var after := Launch(pool, launches, row, NameOf(config, next));
      assert Orderly(config, after, launches + 1) by { OrderlyLaunch(config, pool, launches, row, next); }
      Track(row, attempt, NameOf(config, next));
    }

    method WorkerEnded(w: nat)
      requires Valid() && w in unfinished
      modifies `inFlight, `perQueueInFlight, `unfinished, `pool
      ensures Valid() && pool == Finish(old(pool), w) && Shrunk(config, old(pool), pool)
    {
      ghost var after := Finish(pool, w);
      assert Orderly(config, after, launches) && Shrunk(config, pool, after) by {
        OrderlyEnd(config, pool, launches, w);
      }
      Untrack(w);
    }

    /** The promise of a worker whose finally block has run leaves inFlightWorkers. */
    method PromiseLeft(w: nat)
      requires Valid() && w !in unfinished
      modifies `inFlightWorkers, `pool
      ensures Valid() && Shrunk(config, old(pool), pool)
    {
      inFlightWorkers := inFlightWorkers - {w};
      pool := pool.(promises := inFlightWorkers);
    }

    /** A worker's finally block runs when its attempt is over on the table. */
    method WorkerMayEnd(table: SharedTable, w: nat)
      requires Joined(table)
      modifies `inFlight, `perQueueInFlight, `unfinished, `pool
      ensures Joined(table) && Shrunk(config, old(pool), pool)
    {
      if w in unfinished && !Alive(table.k, executorId, unfinished[w].row, attemptOf[w]) {
        KnownEnd(table.k, executorId, unfinished, attemptOf, arriving, w);
        WorkerEnded(w);
      }
    }

    method SomethingElsewhere(table: SharedTable, st: ClusterStep, answer: string)
      requires Joined(table)
      modifies table
      ensures Joined(table) && Elapsed(old(table.run), old(table.steps), table)
      ensures table.k.execs[executorId] == old(table.k).execs[executorId]
      ensures Dispatched(old(table.k)) <= Dispatched(table.k)
    {
      table.Others(st, answer, executorId);
      KnownLater(old(table.k), table.k, executorId, unfinished, attemptOf, arriving);
    }

    /** One thing that happens elsewhere. */
    method Happens(table: SharedTable, move: Move)
      requires Joined(table)
      modifies table, `inFlight, `perQueueInFlight, `inFlightWorkers, `unfinished, `pool,
               `dispatcherActive, `drainRequested, `lastCall, `calls
      ensures Joined(table) && Shrunk(config, old(pool), pool) && Elapsed(old(table.run), old(table.steps), table)
      ensures table.k.execs[executorId] == old(table.k).execs[executorId]
      ensures Heard(old(drainRequested), old(lastCall), old(calls))
      ensures dispatcherActive ==> old(dispatcherActive)
      ensures Dispatched(old(table.k)) <= Dispatched(table.k)
    {
      match move {
        case Elsewhere(st, answer) => SomethingElsewhere(table, st, answer);
        case WorkerEnds(w) => WorkerMayEnd(table, w);
        case PromiseLeaves(w) =>
          if w !in unfinished {
            PromiseLeft(w);
          }
        case DrainCalled => drainRequested, lastCall, calls := true, |table.steps|, calls + 1;
        case Stopped => dispatcherActive := false;
      }
    }

    /** A drain() call made since is remembered by the flag, and only such a call has raised it. */
    ghost predicate Heard(requested: bool, call: nat, count: nat)
      reads this
    {
      && count <= calls && (requested || lastCall != call ==> drainRequested)
      && (!requested && drainRequested ==> count < calls)
    }

    ghost predicate Elapsed(run: seq<Cluster>, steps: seq<ClusterStep>, table: SharedTable)
      reads table
    {
      run <= table.run && OnlyOthers(steps, table.steps, executorId)
    }

    /** An await: any number of things happen before it is over. */
    method Await(table: SharedTable)
      requires Joined(table)
      modifies table, `inFlight, `perQueueInFlight, `inFlightWorkers, `unfinished, `pool,
               `dispatcherActive, `drainRequested, `lastCall, `calls
      ensures Joined(table) && Shrunk(config, old(pool), pool) && Elapsed(old(table.run), old(table.steps), table)
      ensures table.k.execs[executorId] == old(table.k).execs[executorId]
      ensures Heard(old(drainRequested), old(lastCall), old(calls))
      ensures dispatcherActive ==> old(dispatcherActive)
      ensures Dispatched(old(table.k)) <= Dispatched(table.k)
    {
      var moves: seq<Move> := *;
      for i := 0 to |moves|
        invariant Joined(table) && Shrunk(config, old(pool), pool) && Elapsed(old(table.run), old(table.steps), table)
        invariant table.k.execs[executorId] == old(table.k).execs[executorId]
        invariant Heard(old(drainRequested), old(lastCall), old(calls))
        invariant dispatcherActive ==> old(dispatcherActive)
        invariant Dispatched(old(table.k)) <= Dispatched(table.k)
      {
        Happens(table, moves[i]);
      }
    }

    method LaunchOne(ghost k: Cluster, row: string, attempt: nat, next: nat, ghost n: nat, ghost done: map<string, nat>)
      requires Valid() && n >= 1 && Fits(config, pool, next, n)
      requires Linked(k) && row in arriving && arriving[row] == attempt
      requires LaunchedFor(config, unfinished, attemptOf, done, next)
      modifies `inFlight, `perQueueInFlight, `inFlightWorkers, `unfinished, `attemptOf, `launches, `pool, `arriving
      ensures Valid() && Fits(config, pool, next, n - 1) && inFlightWorkers == old(inFlightWorkers) + {old(launches)}
      ensures Linked(k) && arriving == old(arriving) - {row}
      ensures LaunchedFor(config, unfinished, attemptOf, done[row := attempt], next)
    {
      OneMoreLaunched(config, unfinished, attemptOf, done, next, launches, row, attempt);
      FitsOneLess(config, pool, launches, row, next, n);
      KnownLaunch(k, executorId, unfinished, attemptOf, arriving, launches, Launched(row, NameOf(config, next)));
      LaunchWorker(row, attempt, next);
      arriving := arriving - {row};
    }

    /** The claimed rows are launched one after the other. */
    method LaunchClaimed(ghost k: Cluster, claimed: map<string, nat>, next: nat)
      requires Valid() && Fits(config, pool, next, |claimed|) && Linked(k) && arriving == claimed
      modifies `inFlight, `perQueueInFlight, `inFlightWorkers, `unfinished, `attemptOf, `launches, `pool, `arriving
      ensures Valid() && Linked(k) && arriving == map[]
      ensures (claimed == map[] ==> pool == old(pool)) && (claimed != map[] ==> inFlightWorkers != {})
      ensures LaunchedFor(config, unfinished, attemptOf, claimed, next)
    {
      var left := claimed;
      ghost var done: map<string, nat> := map[];
      while left != map[]
        invariant Valid() && Fits(config, pool, next, |left|) && Linked(k) && arriving == left
        invariant if left == claimed then pool == old(pool) else inFlightWorkers != {}
        invariant LaunchedFor(config, unfinished, attemptOf, done, next) && Parts(claimed, done, left)
        decreases |left|
      {
        var id :| id in left;
        ghost var n := |left|;
        OnePartLess(claimed, done, left, id);
        LaunchOne(k, id, left[id], next, n, done);
        done, left := done[id := left[id]], left - {id};
      }
      PartsEnd(claimed, done);
    }

    /** The claim commits some time after it was sent, and its answer arrives later still. */
    method ClaimOverTime(table: SharedTable, filter: QueueFilter, limit: nat)
      returns (claimed: map<string, nat>, ghost at: nat)
      requires Settled(table)
      modifies table, `inFlight, `perQueueInFlight, `inFlightWorkers, `unfinished, `pool,
               `dispatcherActive, `drainRequested, `lastCall, `calls, `arriving
      ensures Joined(table) && arriving == claimed && old(table.run) <= table.run && old(table.steps) <= table.steps
      ensures table.k.execs[executorId] == old(table.k).execs[executorId]
      ensures LastClaim(table.run, table.steps, executorId, at, filter, table.k.execs[executorId].tick)
      ensures |old(table.steps)| <= at && table.steps[at] == ClaimRows(executorId, filter, limit, claimed.Keys)
      ensures |claimed| <= limit && Shrunk(config, old(pool), pool)
      ensures Dispatched(old(table.k)) + (if claimed != map[] then 1 else 0) <= Dispatched(table.k)
      ensures Heard(old(drainRequested), old(lastCall), old(calls))
      ensures dispatcherActive ==> old(dispatcherActive)
    {
      claimed, at := AwaitAndClaim(table, filter, limit);
      AwaitAnswer(table, at, filter);
    }

    method AwaitAndClaim(table: SharedTable, filter: QueueFilter, limit: nat)
      returns (claimed: map<string, nat>, ghost at: nat)
      requires Settled(table)
      modifies table, `inFlight, `perQueueInFlight, `inFlightWorkers, `unfinished, `pool,
               `dispatcherActive, `drainRequested, `lastCall, `calls, `arriving
      ensures Joined(table) && arriving == claimed
      ensures old(table.run) <= table.run
      ensures old(table.steps) <= table.steps
      ensures table.k.execs[executorId] == old(table.k).execs[executorId]
      ensures LastClaim(table.run, table.steps, executorId, at, filter, table.k.execs[executorId].tick)
      ensures |old(table.steps)| <= at && table.steps[at] == ClaimRows(executorId, filter, limit, claimed.Keys)
      ensures |claimed| <= limit
      ensures Shrunk(config, old(pool), pool)
      ensures Dispatched(old(table.k)) + (if claimed != map[] then 1 else 0) <= Dispatched(table.k)
      ensures Heard(old(drainRequested), old(lastCall), old(calls))
      ensures dispatcherActive ==> old(dispatcherActive)
    {
      Await(table);
      claimed, at := ClaimNow(table, filter, limit);
    }

    /** The await of a claim that has committed: it stays the executor's latest own step. */
    method AwaitAnswer(table: SharedTable, ghost at: nat, ghost filter: QueueFilter)
      requires Joined(table)
      requires LastClaim(table.run, table.steps, executorId, at, filter, table.k.execs[executorId].tick)
      modifies table, `inFlight, `perQueueInFlight, `inFlightWorkers, `unfinished, `pool,
               `dispatcherActive, `drainRequested, `lastCall, `calls
      ensures Joined(table) && Shrunk(config, old(pool), pool)
      ensures old(table.run) <= table.run && old(table.steps) <= table.steps
      ensures table.k.execs[executorId] == old(table.k).execs[executorId]
      ensures LastClaim(table.run, table.steps, executorId, at, filter, table.k.execs[executorId].tick)
      ensures table.steps[at] == old(table.steps)[at]
      ensures Heard(old(drainRequested), old(lastCall), old(calls))
      ensures dispatcherActive ==> old(dispatcherActive)
      ensures Dispatched(old(table.k)) <= Dispatched(table.k)
    {
      ghost var run, steps, now := table.run, table.steps, table.k.execs[executorId].tick;
      Await(table);
      LastClaimStays(run, steps, table.run, table.steps, executorId, at, filter, now);
    }

    method ClaimNow(table: SharedTable, filter: QueueFilter, limit: nat)
      returns (claimed: map<string, nat>, ghost at: nat)
      requires Settled(table)
      modifies table, `arriving
      ensures Joined(table) && arriving == claimed && old(table.run) <= table.run && old(table.steps) <= table.steps
      ensures table.k.execs[executorId] == old(table.k).execs[executorId]
      ensures LastClaim(table.run, table.steps, executorId, at, filter, table.k.execs[executorId].tick)
      ensures |old(table.steps)| == at && table.steps[at] == ClaimRows(executorId, filter, limit, claimed.Keys)
      ensures |claimed| <= limit
      ensures Dispatched(old(table.k)) + (if claimed != map[] then 1 else 0) <= Dispatched(table.k)
    {
      at := |table.steps|;
      claimed := ClaimKnown(table, filter, limit);
      assert |claimed| == |claimed.Keys|;
      assert table.steps[..at + 1] == table.steps;
    }

    method ClaimKnown(table: SharedTable, filter: QueueFilter, limit: nat) returns (claimed: map<string, nat>)
      requires Settled(table)
      modifies table, `arriving
      ensures Joined(table) && arriving == claimed
      ensures table.steps == old(table.steps) + [ClaimRows(executorId, filter, limit, claimed.Keys)]
      ensures table.run == old(table.run) + [table.k] && table.k.execs[executorId] == old(table.k).execs[executorId]
      ensures |claimed.Keys| <= limit
      ensures |claimed.Keys| < limit ==> ReadyIds(RowsOf(table.k), table.k.execs[executorId].tick, filter) == {}
      ensures Dispatched(old(table.k)) + (if claimed.Keys != {} then 1 else 0) <= Dispatched(table.k)
    {
      claimed := ClaimAttempts(table, filter, limit);
      arriving := claimed;
    }

    method ClaimAttempts(table: SharedTable, filter: QueueFilter, limit: nat) returns (claimed: map<string, nat>)
      requires Settled(table)
      modifies table
      ensures table.Valid() && executorId in table.k.execs
      ensures Known(table.k, executorId, unfinished, attemptOf, claimed)
      ensures table.steps == old(table.steps) + [ClaimRows(executorId, filter, limit, claimed.Keys)]
      ensures table.run == old(table.run) + [table.k] && table.k.execs[executorId] == old(table.k).execs[executorId]
      ensures |claimed.Keys| <= limit
      ensures |claimed.Keys| < limit ==> ReadyIds(RowsOf(table.k), table.k.execs[executorId].tick, filter) == {}
      ensures Dispatched(old(table.k)) + (if claimed.Keys != {} then 1 else 0) <= Dispatched(table.k)
    {
      var chosen := table.Claim(executorId, filter, limit);
      claimed := AttemptsClaimed(table.k, chosen);
      KnownClaimed(old(table.k), table.k, executorId, unfinished, attemptOf, claimed);
    }

    /** One claim of a tick: the capacity is read, the claim commits some time later, its answer arrives later still. */
    method ClaimQueue(table: SharedTable, next: nat, filter: QueueFilter)
      returns (sent: bool, claimed: map<string, nat>, ghost at: nat)
      requires Settled(table)
      requires filter == if next < |config.queues| then Named(config.queues[next].name) else NoQueue
      modifies table, this
      ensures Settled(table) && old(table.run) <= table.run && old(table.steps) <= table.steps
      ensures table.k.execs[executorId] == old(table.k).execs[executorId]
      ensures var look := Glance(next, |old(table.steps)|, old(pool));
              && looks == old(looks) + [look]
              && Asked(config, executorId, table.run, table.steps, look, |table.steps|)
      ensures sent <==> CapacityFor(config, old(pool), next) > 0
      ensures sent ==> LastClaim(table.run, table.steps, executorId, at, filter, table.k.execs[executorId].tick)
      ensures sent ==> |old(table.steps)| <= at && table.steps[at].chosen == claimed.Keys && table.steps[at].limit > 0
      ensures !sent ==> claimed == map[] && pool == old(pool)
      ensures LaunchedFor(config, unfinished, attemptOf, claimed, next)
      ensures if claimed == map[] then inFlightWorkers <= old(inFlightWorkers) else inFlightWorkers != {}
      ensures Dispatched(old(table.k)) + (if claimed != map[] then 1 else 0) <= Dispatched(table.k)
      ensures Heard(old(drainRequested), old(lastCall), old(calls))
      ensures dispatcherActive ==> old(dispatcherActive)
    {
      ghost var look := Glance(next, |table.steps|, pool);
      var capacity := CapacityForQueue(next, |table.steps|);
      sent, claimed, at := capacity > 0, map[], 0;
      if sent {
        claimed, at := ClaimAndLaunch(table, next, filter, capacity);
        assert IsAnswer(config, executorId, table.run, table.steps, look, at);
      }
    }

    method ClaimAndLaunch(table: SharedTable, next: nat, filter: QueueFilter, capacity: nat)
      returns (claimed: map<string, nat>, ghost at: nat)
      requires Settled(table) && capacity > 0 && Fits(config, pool, next, capacity)
      modifies table, this
      ensures Settled(table) && old(table.run) <= table.run && old(table.steps) <= table.steps
      ensures table.k.execs[executorId] == old(table.k).execs[executorId]
      ensures LastClaim(table.run, table.steps, executorId, at, filter, table.k.execs[executorId].tick)
      ensures |old(table.steps)| <= at && table.steps[at] == ClaimRows(executorId, filter, capacity, claimed.Keys)
      ensures if claimed == map[] then inFlightWorkers <= old(inFlightWorkers) else inFlightWorkers != {}
      ensures looks == old(looks) && LaunchedFor(config, unfinished, attemptOf, claimed, next)
      ensures Dispatched(old(table.k)) + (if claimed != map[] then 1 else 0) <= Dispatched(table.k)
      ensures Heard(old(drainRequested), old(lastCall), old(calls))
      ensures dispatcherActive ==> old(dispatcherActive)
    {
      claimed, at := ClaimOverTime(table, filter, capacity);
      LaunchAnswered(table, claimed, next, capacity);
    }

    method LaunchAnswered(table: SharedTable, claimed: map<string, nat>, next: nat, ghost capacity: nat)
      requires Joined(table) && arriving == claimed && |claimed| <= capacity && Fits(config, pool, next, capacity)
      modifies `inFlight, `perQueueInFlight, `inFlightWorkers, `unfinished, `attemptOf, `launches, `pool, `arriving
      ensures Settled(table)
      ensures dispatcherActive == old(dispatcherActive) && drainRequested == old(drainRequested)
      ensures lastCall == old(lastCall) && calls == old(calls)
      ensures if claimed == map[] then inFlightWorkers == old(inFlightWorkers) else inFlightWorkers != {}
      ensures LaunchedFor(config, unfinished, attemptOf, claimed, next)
    {
      FitsFewer(config, pool, next, capacity, |claimed|);
      LaunchClaimed(table.k, claimed, next);
    }

    method ReadClock(table: SharedTable)
      requires Joined(table)
      modifies table
      ensures Joined(table) && old(table.run) <= table.run && old(table.steps) <= table.steps
      ensures Dispatched(old(table.k)) <= Dispatched(table.k)
      ensures table.steps == old(table.steps) + [ClusterStep.StartTick(executorId)]
    {
      table.StartTick(executorId);
      KnownLater(old(table.k), table.k, executorId, unfinished, attemptOf, arriving);
    }

    method Beat(table: SharedTable)
      requires Joined(table)
      modifies table
      ensures Joined(table) && old(table.run) <= table.run && old(table.steps) <= table.steps
      ensures Dispatched(old(table.k)) <= Dispatched(table.k)
      ensures table.steps == old(table.steps) + [ClusterStep.Heartbeat(executorId)]
    {
      table.Heartbeat(executorId);
      KnownLater(old(table.k), table.k, executorId, unfinished, attemptOf, arriving);
    }

    /** The tick reads its clock, and renews the leases if anything is in flight. */
    method BeginTick(table: SharedTable)
      requires Joined(table)
      modifies table, `inFlight, `perQueueInFlight, `inFlightWorkers, `unfinished, `pool,
               `dispatcherActive, `drainRequested, `lastCall, `calls
      ensures Joined(table) && old(table.run) <= table.run && old(table.steps) <= table.steps
      ensures inFlightWorkers <= old(inFlightWorkers) && inFlight <= old(inFlight)
      ensures Dispatched(old(table.k)) <= Dispatched(table.k)
      ensures Heard(old(drainRequested), old(lastCall), old(calls))
      ensures dispatcherActive ==> old(dispatcherActive)
      ensures TickBegun(executorId, table.steps, |old(table.steps)|, |table.steps|, old(inFlight) != {})
    {
      ghost var from := |table.steps|;
      ReadClock(table);
      ghost var h := BeatIfBusy(table);
      assert table.steps[from] == ClusterStep.StartTick(executorId);
    }

    /** The heartbeat of a tick, and the update of the executor's own row, which no reclaim reads. */
    method BeatIfBusy(table: SharedTable) returns (ghost h: nat)
      requires Joined(table)
      modifies table, `inFlight, `perQueueInFlight, `inFlightWorkers, `unfinished, `pool,
               `dispatcherActive, `drainRequested, `lastCall, `calls
      ensures Joined(table) && old(table.run) <= table.run && old(table.steps) <= table.steps
      ensures inFlightWorkers <= old(inFlightWorkers) && inFlight <= old(inFlight)
      ensures Dispatched(old(table.k)) <= Dispatched(table.k)
      ensures Heard(old(drainRequested), old(lastCall), old(calls))
      ensures dispatcherActive ==> old(dispatcherActive)
      ensures old(inFlight) != {} ==>
                |old(table.steps)| <= h < |table.steps| && table.steps[h] == ClusterStep.Heartbeat(executorId)
    {
      h := 0;
      if inFlight != {} {
        h := AwaitAndBeat(table);
      }
      Await(table);
    }

    method AwaitAndBeat(table: SharedTable) returns (ghost h: nat)
      requires Joined(table)
      modifies table, `inFlight, `perQueueInFlight, `inFlightWorkers, `unfinished, `pool,
               `dispatcherActive, `drainRequested, `lastCall, `calls
      ensures Joined(table) && old(table.run) <= table.run && old(table.steps) <= table.steps
      ensures inFlightWorkers <= old(inFlightWorkers) && inFlight <= old(inFlight)
      ensures Dispatched(old(table.k)) <= Dispatched(table.k)
      ensures Heard(old(drainRequested), old(lastCall), old(calls))
      ensures dispatcherActive ==> old(dispatcherActive)
      ensures |old(table.steps)| <= h < |table.steps| && table.steps[h] == ClusterStep.Heartbeat(executorId)
    {
      Await(table);
      h := |table.steps|;
      Beat(table);
    }

    /**
     * Since a moment with workers `busy` and `dispatched` dispatches: any other worker there is was paid for by a
     * dispatch.
     */
    ghost predicate PaidFor(table: SharedTable, busy: set<nat>, dispatched: nat)
      reads this, table
    {
      dispatched <= Dispatched(table.k) && (inFlightWorkers <= busy || dispatched < Dispatched(table.k))
    }

    /** One claim for each named queue, in order. */
    method ClaimNamed(table: SharedTable, ghost busy: set<nat>, ghost dispatched: nat)
      requires Settled(table) && PaidFor(table, busy, dispatched)
      modifies table, this
      ensures Settled(table) && old(table.run) <= table.run && old(table.steps) <= table.steps
      ensures PaidFor(table, busy, dispatched)
      ensures Heard(old(drainRequested), old(lastCall), old(calls))
      ensures dispatcherActive ==> old(dispatcherActive)
      ensures |looks| == |old(looks)| + |config.queues| && old(looks) <= looks
      ensures AskedInOrder(config, executorId, table.run, table.steps, looks[|old(looks)|..], |old(table.steps)|)
    {
      ghost var first, from := |looks|, |table.steps|;
      for next := 0 to |config.queues|
        invariant Settled(table) && old(table.run) <= table.run && old(table.steps) <= table.steps
        invariant |looks| == first + next && old(looks) <= looks
        invariant AskedInOrder(config, executorId, table.run, table.steps, looks[first..], from)
        invariant PaidFor(table, busy, dispatched)
        invariant Heard(old(drainRequested), old(lastCall), old(calls))
        invariant dispatcherActive ==> old(dispatcherActive)
      {
        AskNamed(table, next, busy, dispatched, first, from);
      }
    }

    method AskNamed(table: SharedTable, next: nat, ghost busy: set<nat>, ghost dispatched: nat, ghost first: nat,
                    ghost from: nat)
      requires Settled(table) && PaidFor(table, busy, dispatched) && next < |config.queues|
      requires |looks| == first + next && from <= |table.steps|
      requires AskedInOrder(config, executorId, table.run, table.steps, looks[first..], from)
      modifies table, this
      ensures Settled(table) && old(table.run) <= table.run && old(table.steps) <= table.steps
      ensures |looks| == first + next + 1 && old(looks) <= looks
      ensures AskedInOrder(config, executorId, table.run, table.steps, looks[first..], from)
      ensures PaidFor(table, busy, dispatched)
      ensures Heard(old(drainRequested), old(lastCall), old(calls))
      ensures dispatcherActive ==> old(dispatcherActive)
    {
      ghost var run, steps, seen, look := table.run, table.steps, looks[first..], Glance(next, |table.steps|, pool);
      var _, _, _ := ClaimQueue(table, next, Named(config.queues[next].name));
      AskedNext(config, executorId, run, steps, table.run, table.steps, seen, look, from);
      assert looks[first..] == seen + [look];
    }

    /**
     * Then one for the rows without a queue. What was launched last is still there when the tick resolves. So is
     * somebody when the claim was not sent: the cap was full, and no promise leaves before the tick is seen to be over.
     */
    method ClaimUnnamed(table: SharedTable, ghost busy: set<nat>, ghost dispatched: nat)
      returns (sent: bool, ghost at: nat, ghost now: int)
      requires Settled(table) && PaidFor(table, busy, dispatched)
      modifies table, this
      ensures Settled(table) && old(table.run) <= table.run && old(table.steps) <= table.steps
      ensures PaidFor(table, busy, dispatched)
      ensures Heard(old(drainRequested), old(lastCall), old(calls))
      ensures dispatcherActive ==> old(dispatcherActive)
      ensures inFlightWorkers == {} ==> sent
      ensures sent && inFlightWorkers == {} ==> Emptied(table, executorId, at, now) && |old(table.steps)| <= at
      ensures var look := Glance(|config.queues|, |old(table.steps)|, old(pool));
              && looks == old(looks) + [look]
              && Asked(config, executorId, table.run, table.steps, look, |table.steps|)
    {
      var claimed;
      ghost var look := Glance(|config.queues|, |table.steps|, pool);
      sent, claimed, at := ClaimQueue(table, |config.queues|, NoQueue);
      now := table.k.execs[executorId].tick;
      if !sent {
        SomebodyThere(config, pool, launches);
      } else if claimed == map[] {
        AwaitNothing(table, at, look);
      }
    }

    /** The await that follows the answer of a claim that took nothing. */
    method AwaitNothing(table: SharedTable, ghost at: nat, ghost look: Glance)
      requires Settled(table)
      requires LastClaim(table.run, table.steps, executorId, at, NoQueue, table.k.execs[executorId].tick)
      requires Asked(config, executorId, table.run, table.steps, look, |table.steps|)
      modifies table, `inFlight, `perQueueInFlight, `inFlightWorkers, `unfinished, `pool,
               `dispatcherActive, `drainRequested, `lastCall, `calls
      ensures Settled(table) && inFlightWorkers <= old(inFlightWorkers) && looks == old(looks)
      ensures old(table.run) <= table.run && old(table.steps) <= table.steps
      ensures table.k.execs[executorId] == old(table.k).execs[executorId] && table.steps[at] == old(table.steps)[at]
      ensures LastClaim(table.run, table.steps, executorId, at, NoQueue, table.k.execs[executorId].tick)
      ensures Asked(config, executorId, table.run, table.steps, look, |table.steps|)
      ensures Dispatched(old(table.k)) <= Dispatched(table.k)
      ensures Heard(old(drainRequested), old(lastCall), old(calls))
      ensures dispatcherActive ==> old(dispatcherActive)
    {
      ghost var run, steps := table.run, table.steps;
      AwaitAnswer(table, at, NoQueue);
      AskedLater(config, executorId, run, steps, table.run, table.steps, look, |steps|, |table.steps|);
    }

    /** The clock and the leases, then each named queue in turn, then the rows without a queue. */
    method ActiveTick(table: SharedTable) returns (sent: bool, ghost at: nat, ghost now: int)
      requires Settled(table)
      modifies table, this
      ensures Settled(table) && old(table.run) <= table.run && old(table.steps) <= table.steps
      ensures PaidFor(table, old(inFlightWorkers), Dispatched(old(table.k)))
      ensures Heard(old(drainRequested), old(lastCall), old(calls))
      ensures dispatcherActive ==> old(dispatcherActive)
      ensures inFlightWorkers == {} ==> sent
      ensures sent && inFlightWorkers == {} ==> Emptied(table, executorId, at, now) && |old(table.steps)| <= at
      ensures old(looks) <= looks && |looks| == |old(looks)| + |config.queues| + 1
      ensures AskedInOrder(config, executorId, table.run, table.steps, looks[|old(looks)|..], |old(table.steps)|)
      ensures TickBegun(executorId, table.steps, |old(table.steps)|, looks[|old(looks)|].at, old(inFlight) != {})
    {
      ghost var busy, dispatched := inFlightWorkers, Dispatched(table.k);
      ghost var from, first := |table.steps|, |looks|;
      BeginTick(table);
      ghost var begun, steps := |table.steps|, table.steps;
      sent, at, now := ClaimAll(table, busy, dispatched, begun);
      BegunBefore(executorId, steps, table.steps, from, looks[first].at, old(inFlight) != {});
      AskedEarlier(config, executorId, table.run, table.steps, looks[first..], begun, from);
    }


    method ClaimAll(table: SharedTable, ghost busy: set<nat>, ghost dispatched: nat, ghost begun: nat)
      returns (sent: bool, ghost at: nat, ghost now: int)
      requires Settled(table) && PaidFor(table, busy, dispatched) && begun <= |table.steps|
      modifies table, this
      ensures Settled(table) && old(table.run) <= table.run && old(table.steps) <= table.steps
      ensures PaidFor(table, busy, dispatched)
      ensures Heard(old(drainRequested), old(lastCall), old(calls))
      ensures dispatcherActive ==> old(dispatcherActive)
      ensures inFlightWorkers == {} ==> sent
      ensures sent && inFlightWorkers == {} ==> Emptied(table, executorId, at, now) && |old(table.steps)| <= at
      ensures old(looks) <= looks && |looks| == |old(looks)| + |config.queues| + 1
      ensures AskedInOrder(config, executorId, table.run, table.steps, looks[|old(looks)|..], begun)
    {
      ClaimNamed(table, busy, dispatched);
      ghost var run, steps, seen := table.run, table.steps, looks[|old(looks)|..];
      ghost var look := Glance(|config.queues|, |table.steps|, pool);
      sent, at, now := ClaimUnnamed(table, busy, dispatched);
      AskedNext(config, executorId, run, steps, table.run, table.steps, seen, look, begun);
      assert looks[|old(looks)|..] == seen + [look];
    }

    /** A tick does nothing while the dispatcher is off. */
    method DispatchTick(table: SharedTable) returns (sent: bool, ghost at: nat, ghost now: int)
      requires Settled(table)
      modifies table, this
      ensures Settled(table) && old(table.run) <= table.run && old(table.steps) <= table.steps
      ensures PaidFor(table, old(inFlightWorkers), Dispatched(old(table.k)))
      ensures Heard(old(drainRequested), old(lastCall), old(calls))
      ensures dispatcherActive ==> old(dispatcherActive)
      ensures old(dispatcherActive) && inFlightWorkers == {} ==> sent
      ensures sent ==> old(dispatcherActive)
      ensures sent && inFlightWorkers == {} ==> Emptied(table, executorId, at, now) && |old(table.steps)| <= at
      ensures old(looks) <= looks && |looks| == |old(looks)| + if old(dispatcherActive) then |config.queues| + 1 else 0
      ensures AskedInOrder(config, executorId, table.run, table.steps, looks[|old(looks)|..], |old(table.steps)|)
      ensures old(dispatcherActive) ==>
                TickBegun(executorId, table.steps, |old(table.steps)|, looks[|old(looks)|].at, old(inFlight) != {})
    {
      sent, at, now := false, 0, 0;
      if dispatcherActive {
        sent, at, now := ActiveTick(table);
      } else {
        Await(table);
      }
    }

    /** Promise.allSettled on the workers of the batch; gives up waiting after `patience` turns. */
    method AwaitBatch(table: SharedTable, patience: nat) returns (left: nat)
      requires Joined(table)
      modifies table, `inFlight, `perQueueInFlight, `inFlightWorkers, `unfinished, `pool,
               `dispatcherActive, `drainRequested, `lastCall, `calls
      ensures Joined(table) && old(table.run) <= table.run && old(table.steps) <= table.steps
      ensures left <= patience && (left > 0 ==> inFlightWorkers == {})
      ensures Dispatched(old(table.k)) <= Dispatched(table.k)
      ensures Heard(old(drainRequested), old(lastCall), old(calls))
      ensures dispatcherActive ==> old(dispatcherActive)
    {
      left := patience;
      while left > 0 && inFlightWorkers != {}
        invariant Joined(table) && old(table.run) <= table.run && old(table.steps) <= table.steps && left <= patience
        invariant Dispatched(old(table.k)) <= Dispatched(table.k)
        invariant Heard(old(drainRequested), old(lastCall), old(calls))
        invariant dispatcherActive ==> old(dispatcherActive)
      {
        Await(table);
        left := left - 1;
      }
    }

    /** The last tick has looked at every queue in order, all after step `from` of the shared run, and asked it. */
    ghost predicate AllAsked(table: SharedTable, from: nat)
      reads this, table
    {
      var n := |config.queues| + 1;
      && |looks| >= n
      && AskedInOrder(config, executorId, table.run, table.steps, looks[|looks| - n..], from)
    }

    /**
     * The drain is where it is after `rounds` rounds that found workers to wait for, since a moment with workers
     * `busy`.
     */
    ghost predicate Accounted(table: SharedTable, rounds: nat, busy: set<nat>, dispatched: nat)
      reads this, table
    {
      || (rounds + dispatched <= Dispatched(table.k) && inFlightWorkers <= busy)
      || (rounds + dispatched <= Dispatched(table.k) + (if busy == {} then 0 else 1) && inFlightWorkers == {})
    }

    /** One turn of the inner loop: a tick, and unless nobody is in flight then the wait for the batch. */
    method Round(table: SharedTable, patience: nat, ghost rounds: nat, ghost busy: set<nat>, ghost dispatched: nat)
      returns (exits: bool, left: nat, ghost after: nat, sent: bool, ghost at: nat, ghost now: int)
      requires Settled(table) && Accounted(table, rounds, busy, dispatched)
      modifies table, this
      ensures Settled(table) && old(table.run) <= table.run && old(table.steps) <= table.steps
      ensures left <= patience && rounds <= after <= rounds + 1 && (exits <==> after == rounds)
      ensures after + dispatched <= Dispatched(table.k) + (if busy == {} then 0 else 1)
      ensures exits || left > 0 ==> Accounted(table, after, busy, dispatched) && inFlightWorkers == {}
      ensures Heard(old(drainRequested), old(lastCall), old(calls))
      ensures dispatcherActive ==> old(dispatcherActive)
      ensures exits && dispatcherActive ==> sent
      ensures exits && sent ==> Emptied(table, executorId, at, now) && |old(table.steps)| <= at
      ensures exits && sent ==> AllAsked(table, |old(table.steps)|)
    {
      sent, at, now := DispatchTick(table);
      exits, left, after := inFlightWorkers == {}, patience, rounds;
      if !exits {
        after := rounds + 1;
        left := AwaitBatch(table, patience);
      }
    }

    /** The inner loop: it ends when a tick leaves nobody in flight, or the observation does. */
    method Rounds(table: SharedTable, patience: nat, ghost rounds: nat, ghost busy: set<nat>, ghost dispatched: nat)
      returns (exits: bool, left: nat, ghost after: nat, ghost ticks: nat, sent: bool, ghost at: nat, ghost now: int)
      requires Settled(table) && Accounted(table, rounds, busy, dispatched) && patience > 0
      modifies table, this
      ensures Settled(table) && old(table.run) <= table.run && old(table.steps) <= table.steps
      ensures left < patience && (left > 0 ==> exits)
      ensures after + dispatched <= Dispatched(table.k) + (if busy == {} then 0 else 1)
      ensures rounds + ticks == after + (if exits then 1 else 0)
      ensures exits ==> Accounted(table, after, busy, dispatched) && inFlightWorkers == {}
      ensures Heard(old(drainRequested), old(lastCall), old(calls))
      ensures dispatcherActive ==> old(dispatcherActive)
      ensures exits && dispatcherActive ==> sent
      ensures exits && sent ==> Emptied(table, executorId, at, now) && |old(table.steps)| <= at
      ensures exits && sent ==> AllAsked(table, |old(table.steps)|)
    {
      exits, left, after, ticks, sent, at, now := false, patience, rounds, 0, false, 0, 0;
      while !exits && left > 0
        invariant Settled(table) && old(table.run) <= table.run && old(table.steps) <= table.steps
        invariant left <= patience && (exits ==> left < patience)
        invariant after + dispatched <= Dispatched(table.k) + (if busy == {} then 0 else 1)
        invariant rounds + ticks == after + (if exits then 1 else 0)
        invariant exits || left > 0 ==> Accounted(table, after, busy, dispatched)
        invariant exits ==> inFlightWorkers == {}
        invariant left < patience && left > 0 ==> inFlightWorkers == {}
        invariant Heard(old(drainRequested), old(lastCall), old(calls))
        invariant dispatcherActive ==> old(dispatcherActive)
        invariant exits && dispatcherActive ==> sent
        invariant exits && sent ==> Emptied(table, executorId, at, now) && |old(table.steps)| <= at
        invariant exits && sent ==> AllAsked(table, |old(table.steps)|)
        decreases left, !exits
      {
        exits, left, after, sent, at, now := Round(table, left - 1, after, busy, dispatched);
        ticks := ticks + 1;
      }
    }

    /** One pass of the outer loop: the request is taken down, and the inner loop runs. */
    method OnePass(table: SharedTable, patience: nat, ghost rounds: nat, ghost busy: set<nat>, ghost dispatched: nat)
      returns (exits: bool, left: nat, ghost after: nat, ghost ticks: nat, sent: bool, ghost at: nat, ghost now: int)
      requires Settled(table) && Accounted(table, rounds, busy, dispatched) && patience > 0
      modifies table, this
      ensures Settled(table) && old(table.run) <= table.run && old(table.steps) <= table.steps
      ensures left < patience && (left > 0 ==> exits) && ticks <= after - rounds + 1
      ensures after + dispatched <= Dispatched(table.k) + (if busy == {} then 0 else 1)
      ensures exits ==> Accounted(table, after, busy, dispatched) && inFlightWorkers == {}
      ensures dispatcherActive ==> old(dispatcherActive)
      ensures exits && dispatcherActive ==> sent
      ensures old(calls) <= calls && (drainRequested ==> old(calls) < calls)
      ensures exits && !drainRequested && sent ==>
                Emptied(table, executorId, at, now) && lastCall <= at && AllAsked(table, lastCall)
    {
      drainRequested := false;
      exits, left, after, ticks, sent, at, now := Rounds(table, patience, rounds, busy, dispatched);
      if exits && !drainRequested && sent {
        AllAskedEarlier(table, |old(table.steps)|, lastCall);
      }
    }

    lemma AllAskedEarlier(table: SharedTable, from: nat, earlier: nat)
      requires AllAsked(table, from) && earlier <= from
      ensures AllAsked(table, earlier)
    {
    }

    /** The outer loop: it begins again when drain() was called meanwhile. */
    method Passes(table: SharedTable, patience: nat)
      returns (ended: bool, ghost ticks: nat, sent: bool, ghost at: nat, ghost now: int)
      requires Settled(table) && drainRequested
      modifies table, this
      ensures Settled(table) && old(table.run) <= table.run && old(table.steps) <= table.steps
      ensures ticks + Dispatched(old(table.k)) <=
              Dispatched(table.k) + (if old(inFlightWorkers) == {} then 0 else 1) + 1 + (calls - old(calls))
      ensures old(calls) <= calls && (ended ==> !drainRequested && inFlightWorkers == {})
      ensures ended && sent ==> Emptied(table, executorId, at, now) && lastCall <= at && AllAsked(table, lastCall)
      ensures ended && dispatcherActive ==> sent
    {
      ghost var busy, dispatched := inFlightWorkers, Dispatched(table.k);
      ghost var rounds: nat, passes: nat, more: nat := 0, 0, 0;
      ticks, sent, at, now := 0, false, 0, 0;
      ended := false;
      var left := patience;
      while drainRequested && left > 0
        invariant Settled(table) && old(table.run) <= table.run && old(table.steps) <= table.steps
        invariant rounds + dispatched <= Dispatched(table.k) + (if busy == {} then 0 else 1)
        invariant left > 0 || ended ==> Accounted(table, rounds, busy, dispatched)
        invariant ticks <= rounds + passes
        invariant old(calls) <= calls && passes <= (if drainRequested then 0 else 1) + (calls - old(calls))
        invariant dispatcherActive ==> old(dispatcherActive)
        invariant !drainRequested && left > 0 ==> ended
        invariant ended ==> inFlightWorkers == {}
        invariant ended && !drainRequested && sent ==> Emptied(table, executorId, at, now) && lastCall <= at
        invariant ended && !drainRequested && sent ==> AllAsked(table, lastCall)
        invariant ended && dispatcherActive ==> sent
        decreases left
      {
        passes := passes + 1;
        ended, left, rounds, more, sent, at, now := OnePass(table, left, rounds, busy, dispatched);
        ticks := ticks + more;
      }
      ended := ended && !drainRequested;
    }

    /**
     * A drain with everybody else at work: others insert, cancel, claim and reclaim rows, workers end at any time, and
     * drain() is called again. At every moment each tick made so far is paid for: by a dispatch made since, and there
     * are no more of these than limits and resets allow, by a drain() call, or as the first one. When the drain ends
     * no worker is unfinished and none of this executor lives on the table. While the runtime is active its last claim
     * came after the last drain() call and left no row of the unnamed queue that was ready at its clock: one that is
     * ready by that clock now arrived later. The observation stops after `patience` ticks and turns of waiting.
     */
    method RunDrain(table: SharedTable, patience: nat)
      returns (ended: bool, ghost ticks: nat, sent: bool, ghost at: nat, ghost now: int)
      requires Settled(table) && drainRequested
      modifies table, this
      ensures Settled(table) && old(table.run) <= table.run && old(table.steps) <= table.steps
      ensures ticks + Dispatched(old(table.k)) <=
              Dispatched(table.k) + (if old(inFlightWorkers) == {} then 0 else 1) + 1 + (calls - old(calls))
      ensures old(calls) <= calls && Dispatched(table.k) <= Allowed(table.k)
      ensures ended ==> !drainRequested && unfinished == map[] && inFlight == {} && inFlightWorkers == {}
      ensures ended ==> !HasWorker(table.k, executorId)
      ensures ended && sent ==> Emptied(table, executorId, at, now) && lastCall <= at && AllAsked(table, lastCall)
      ensures ended && sent ==> forall id :: IsReady(table.k, id, now, NoQueue) ==> ArrivedLate(table, at, id)
      ensures ended && dispatcherActive ==> sent
    {
      ended, ticks, sent, at, now := Passes(table, patience);
      WithinAllowance(table.registry, table.run, table.steps, |table.steps|);
      if ended {
        NobodyLeft(config, pool, launches);
        NobodyAlive(table.k, executorId, attemptOf);
      }
      if ended && sent {
        LateArrivals(table, executorId, at, now);
      }
    }
  }
}
