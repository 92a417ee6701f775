/** Why attempts end as they do, and what can always happen to a row. No assumption on leases. */
module Endings {
  import opened Values
  import opened Table
  import opened Worker
  import opened Cells

  ghost predicate Replayed(log: Log, m: string) {
    exists id :: id in log && log[id].StepError? && log[id].message == m
  }

  /**
   * An attempt that is about to succeed has the value its body returns; one about to fail has what its body throws,
   * what was thrown at it, or the message of a stored failure; one about to be cancelled was asked to be; and one
   * without a definition has none.
   */
  ghost predicate Caused(registry: Registry, c: Cell, a: nat, w: WorkerState) {
    w.phase.Finishing? ==>
      var known := w.snap.name in registry;
      match w.phase.ending
      case Succeeds(v) => known && registry[w.snap.name](w.snap.input, w.results) == Return(v)
      case Fails(m) =>
        || (a, m) in c.thrown
        || (known && registry[w.snap.name](w.snap.input, w.results) == Throw(m))
        || (known && registry[w.snap.name](w.snap.input, w.results).Call? && Replayed(w.stepCache, m))
      case Cancels => c.row.cancelAt.Some? && known && registry[w.snap.name](w.snap.input, w.results).Call?
      case Unregistered => !known
  }

  ghost predicate AllCaused(registry: Registry, c: Cell) {
    forall a :: a in c.workers ==> Caused(registry, c, a, c.workers[a])
  }

  lemma AdvanceCaused(registry: Registry, c: Cell, a: nat)
    requires Enabled(registry, c, Advance(a))
    ensures Caused(registry, Apply(registry, c, Advance(a)), a, Apply(registry, c, Advance(a)).workers[a])
  {
  }

  lemma CausedStep(registry: Registry, c: Cell, st: CellStep, a: nat)
    requires Enabled(registry, c, st) && AllCaused(registry, c) && a in Apply(registry, c, st).workers
    ensures Caused(registry, Apply(registry, c, st), a, Apply(registry, c, st).workers[a])
  {
    if st.Advance? && st.a == a {
      AdvanceCaused(registry, c, a);
    } else if a in c.workers {
      assert Caused(registry, c, a, c.workers[a]);
    }
  }

  /** In every history, whatever happens to the row, each attempt that is about to end has its cause. */
  lemma {:induction false} EndingsAreCaused(registry: Registry, states: seq<Cell>, steps: seq<CellStep>, i: nat)
    requires FromTheStart(registry, states, steps) && i < |states|
    ensures AllCaused(registry, states[i])
  {
    if i > 0 {
      EndingsAreCaused(registry, states, steps, i - 1);
      forall a | a in states[i].workers ensures Caused(registry, states[i], a, states[i].workers[a]) {
        CausedStep(registry, states[i - 1], steps[i - 1], a);
      }
    }
  }

  /** What the final write leaves in the row, column by column, for each ending. */
  lemma FinalWrite(registry: Registry, c: Cell, a: nat, now: int)
    requires a in c.workers && c.workers[a].phase.Finishing?
    ensures Enabled(registry, c, Finish(a, now))
    ensures var w, r, s := c.workers[a], c.row, Apply(registry, c, Finish(a, now)).row;
            var done := r.(endedAt := Some(now), output := None, executor := None, claimExpiresAt := None);
            match w.phase.ending
            case Succeeds(v) => s == done.(status := Success, output := Some(v), error := None)
            case Cancels => s == done.(status := Status.Cancelled, error := Some(WAS_CANCELLED))
            case Unregistered => s == done.(status := Failed, error := Some(UNKNOWN_WORKFLOW))
            case Fails(m) =>
              s == if w.snap.attempts < w.snap.maxAttempts
                   then r.(status := Pending, executor := None, startedAt := None, claimExpiresAt := None,
                           scheduledFor := now + Backoff(w.snap.attempts))
                   else done.(status := Failed, error := Some(m))
    ensures Apply(registry, c, Finish(a, now)).workers == c.workers - {a}
  {
  }

  /** A live worker can always go on as its source does: no step of it waits for anything but itself. */
  lemma WorkerCanMove(registry: Registry, c: Cell, a: nat, value: Json, m: string, now: int)
    requires a in c.workers && (c.workers[a].phase.InBody? ==> c.workers[a].snap.name in registry)
    ensures Enabled(registry, c, Vanish(a))
    ensures match c.workers[a].phase
            case Starting => Enabled(registry, c, Load(a))
            case InBody => Enabled(registry, c, Advance(a)) && Enabled(registry, c, Throws(a, m))
            case Checked(_, _, _) => Enabled(registry, c, Start(a)) && Enabled(registry, c, Throws(a, m))
            case Executing(_, _, _) => Enabled(registry, c, Commit(a, value)) && Enabled(registry, c, Throws(a, m))
            case Finishing(ending) =>
              && Enabled(registry, c, Finish(a, now))
              && (ending.Succeeds? ==> Enabled(registry, c, Throws(a, m)))
  {
  }

  /**
   * A row can be claimed exactly when it is pending and due; boots, heartbeats, cancel requests and deaths come at
   * any time.
   */
  lemma RowCanBeTouched(registry: Registry, c: Cell, exec: string, now: int, leaseMs: nat)
    ensures Enabled(registry, c, Claim(exec, now, leaseMs)) <==> c.row.status == Pending && c.row.scheduledFor <= now
    ensures Enabled(registry, c, Reclaim(now)) && Enabled(registry, c, ExtendLease(exec, now))
    ensures Enabled(registry, c, CellStep.Cancel(now)) && Enabled(registry, c, Crash(exec))
  {
  }

  /** The histories count what they should: resets, calls of step functions, and what is thrown. */
  lemma HistoriesCount(registry: Registry, c: Cell, st: CellStep)
    requires Enabled(registry, c, st)
    ensures var d := Apply(registry, c, st);
            && d.resets == c.resets +
               (if st.Reclaim? && c.row.status == Running
                   && (c.row.claimExpiresAt == None || c.row.claimExpiresAt.value <= st.now) then 1 else 0)
            && d.runs == c.runs + (if st.Start? then [Run(st.a, c.workers[st.a].phase.stepId)] else [])
            && d.thrown == c.thrown + (if st.Throws? then {(st.a, st.message)} else {})
  {
  }

  /** A death takes exactly the workers of its own process, and a heartbeat renews exactly those of its executor. */
  lemma OwnWorkersOnly(registry: Registry, c: Cell, exec: string, expiry: int)
    ensures var d := Apply(registry, c, Crash(exec));
            && d == c.(workers := d.workers)
            && (forall a :: a in d.workers <==> a in c.workers && c.workers[a].exec != exec)
            && (forall a :: a in d.workers ==> d.workers[a] == c.workers[a])
    ensures var d := Apply(registry, c, ExtendLease(exec, expiry));
            && d.workers.Keys == c.workers.Keys
            && (forall a :: a in c.workers ==>
                  d.workers[a] == if c.workers[a].exec == exec then c.workers[a].(leaseUntil := expiry)
                                  else c.workers[a])
  {
  }
}
