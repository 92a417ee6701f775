/** runWorkflow itself: one attempt that updates its cache and counts step by step and writes the two tables. */
module Attempts {
  import opened Values
  import opened StepIds
  import opened Table
  import opened Worker
  import opened Replay

  /** What the world does at each turn: a step function's outcome. When no turn is left, the process has died. */
  datatype Outcome = Returns(value: Json) | Rejects(message: string)

  datatype Result = Succeeded | Errored | WasCancelled | Requeued | Died

  lemma LogOfInsert(steps: map<(string, string), StepRow>, id: string, stepId: string, row: StepRow, other: string)
    ensures LogOf(InsertOrIgnore(steps, (id, stepId), row), other) ==
            if other == id then InsertOrIgnore(LogOf(steps, id), stepId, row) else LogOf(steps, other)
  {
    assert (id, stepId) in steps <==> stepId in LogOf(steps, id);
  }

  class Attempt {
    const registry: Registry
    const id: string
    const row: Row
    ghost const exec: string
    ghost const leaseUntil: int
    var phase: Phase
    var stepCache: Log
    var callCounts: map<string, nat>
    var results: seq<Json>

    ghost function State(): WorkerState
      reads this
    {
      WorkerState(exec, row, leaseUntil, phase, stepCache, callCounts, results)
    }

    constructor (registry: Registry, id: string, row: Row, ghost exec: string, ghost leaseUntil: int)
      ensures this.registry == registry && this.id == id && this.row == row
      ensures State() == NewWorker(exec, row, leaseUntil)
    {
      this.registry, this.id, this.row, this.exec, this.leaseUntil := registry, id, row, exec, leaseUntil;
      phase, stepCache, callCounts, results := Starting, map[], map[], [];
    }

    method Load(db: Database)
      modifies this
      ensures State() == LoadStep(registry, old(State()), LogOf(db.steps, id))
      ensures row.name in registry ==> phase == InBody && stepCache == LogOf(db.steps, id)
      ensures row.name !in registry ==> phase == Finishing(Unregistered)
      ensures results == old(results) && callCounts == old(callCounts)
    {
      if row.name in registry {
        stepCache := db.SelectSteps(id);
        phase := InBody;
      } else {
        phase := Finishing(Unregistered);
      }
    }

    /** The body up to its next call, then beginStep: count the call, look in the cache, check for cancellation. */
    method Advance(db: Database)
      requires row.name in registry
      modifies this
      ensures State() ==
              AdvanceStep(registry[row.name], old(State()), id in db.rows && db.rows[id].cancelAt.Some?)
      ensures stepCache == old(stepCache)
      ensures match registry[row.name](row.input, old(results))
              case Return(v) =>
                phase == Finishing(Succeeds(v)) && results == old(results) && callCounts == old(callCounts)
              case Throw(m) =>
                phase == Finishing(Fails(m)) && results == old(results) && callCounts == old(callCounts)
              case Call(name, tx) =>
                var sequence := if name in old(callCounts) then old(callCounts)[name] else 0;
                var stepId := StepIdFor(name, sequence);
                && callCounts == old(callCounts)[name := sequence + 1]
                && (if stepId in stepCache && stepCache[stepId].StepOk?
                    then phase == old(phase) && results == old(results) + [stepCache[stepId].output]
                    else
                      && results == old(results)
                      && phase == if stepId in stepCache then Finishing(Fails(stepCache[stepId].message))
                                  else if id in db.rows && db.rows[id].cancelAt != None then Finishing(Cancels)
                                  else Checked(stepId, name, tx))
    {
      match registry[row.name](row.input, results) {
        case Return(v) => phase := Finishing(Succeeds(v));
        case Throw(m) => phase := Finishing(Fails(m));
        case Call(name, tx) =>
          var sequence := Count(callCounts, name);
          callCounts := callCounts[name := sequence + 1];
          var stepId := StepIdFor(name, sequence);
          if stepId in stepCache {
            match stepCache[stepId] {
              case StepOk(_, output) => results := results + [output];
              case StepError(_, message) => phase := Finishing(Fails(message));
            }
          } else if id in db.rows && db.rows[id].cancelAt.Some? {
            phase := Finishing(Cancels);
          } else {
            phase := Checked(stepId, name, tx);
          }
      }
    }

    method Start()
      requires phase.Checked?
      modifies this
      ensures State() == StartStep(old(State()))
    {
      phase := Executing(phase.stepId, phase.name, phase.tx);
    }

    /** The step function's value is stored, in the user's own transaction for a txStep, and then cached. */
    method Commit(db: Database, value: Json)
      requires phase.Executing?
      modifies this, db`steps
      ensures State() == CommitStep(old(State()), value)
      ensures db.steps ==
              InsertOrIgnore(old(db.steps), (id, old(phase).stepId), StepOk(old(phase).name, value))
      ensures phase == InBody && results == old(results) + [value] && callCounts == old(callCounts)
      ensures stepCache == old(stepCache)[old(phase).stepId := StepOk(old(phase).name, value)]
    {
      var stepRow := StepOk(phase.name, value);
      db.InsertStep(id, phase.stepId, stepRow);
      stepCache := stepCache[phase.stepId := stepRow];
      results := results + [value];
      phase := InBody;
    }

    method Fail(message: string)
      modifies this
      ensures State() == ThrowStep(old(State()), message)
    {
      phase := Finishing(Fails(message));
    }

    /** The final write: finalize, or requeue with backoff while attempts remain. */
    method Finish(db: Database, now: int) returns (result: Result)
      requires phase.Finishing?
      modifies db`rows
      ensures db.rows == if id in old(db.rows) then old(db.rows)[id := FinishRow(old(db.rows)[id], State(), now)]
                         else old(db.rows)
      ensures result == match phase.ending
                        case Succeeds(_) => Succeeded
                        case Cancels => WasCancelled
                        case Unregistered => Errored
                        case Fails(_) => if row.attempts < row.maxAttempts then Requeued else Errored
    {
      match phase.ending {
        case Succeeds(output) =>
          db.FinalizeWorkflow(id, Success, now, Some(output), None);
          result := Succeeded;
        case Cancels =>
          db.FinalizeWorkflow(id, Cancelled, now, None, Some(WAS_CANCELLED));
          result := WasCancelled;
        case Unregistered =>
          db.FinalizeWorkflow(id, Failed, now, None, Some(UNKNOWN_WORKFLOW));
          result := Errored;
        case Fails(m) =>
          if row.attempts < row.maxAttempts {
            db.RequeueWorkflow(id, now + Backoff(row.attempts));
            result := Requeued;
          } else {
            db.FinalizeWorkflow(id, Failed, now, None, Some(m));
            result := Errored;
          }
      }
    }
  }

  /** What the outcomes of this attempt throw at it. */
  ghost function Rejections(world: seq<Outcome>, a: nat): set<(nat, string)> {
    set k | 0 <= k < |world| && world[k].Rejects? :: (a, world[k].message)
  }

  ghost predicate OnTrack(attempt: Attempt, db: Database, path: seq<Json>, thrown: set<(nat, string)>)
    reads attempt, db
  {
    && attempt.row.name in attempt.registry
    && var body, input := attempt.registry[attempt.row.name], attempt.row.input;
       && Follows(body, input, path)
       && LogOf(db.steps, attempt.id) == LogAlong(body, input, path)
       && OnPath(body, input, path, LogAlong(body, input, path), thrown, attempt.row.attempts, attempt.State())
  }

  ghost predicate Flagged(attempt: Attempt, db: Database)
    reads db
  {
    attempt.id in db.rows && db.rows[attempt.id].cancelAt.Some?
  }

  /** Turns the worker has certainly needed so far: three for each result, and those into the step it is in. */
  ghost function Progress(attempt: Attempt): nat
    reads attempt
  {
    3 * |attempt.results| + match attempt.phase case Checked(_, _, _) => 1 case Executing(_, _, _) => 2 case _ => 0
  }

  /** A step function that was called returns or rejects. */
  method Settle(attempt: Attempt, db: Database, outcome: Outcome, ghost path: seq<Json>, ghost thrown: set<(nat,
                string)>)
    returns (ghost further: seq<Json>)
    requires OnTrack(attempt, db, path, thrown) && attempt.phase.Executing?
    requires outcome.Rejects? ==> (attempt.row.attempts, outcome.message) in thrown
    modifies attempt, db`steps
    ensures path <= further && OnTrack(attempt, db, further, thrown)
    ensures !attempt.phase.Starting? && !attempt.State().InStep()
    ensures forall other :: other != attempt.id ==> LogOf(db.steps, other) == old(LogOf(db.steps, other))
    ensures if outcome.Returns? then attempt.phase.InBody? && Progress(attempt) == old(Progress(attempt)) + 1
            else attempt.phase == Finishing(Fails(outcome.message))
  {
    match outcome {
      case Rejects(message) =>
        attempt.Fail(message);
        further := path;
      case Returns(value) =>
        var body, input := attempt.registry[attempt.row.name], attempt.row.input;
        CommitOnPath(body, input, path, thrown, attempt.row.attempts, attempt.State(), value);
        forall other {
          LogOfInsert(db.steps, attempt.id, attempt.phase.stepId, StepOk(attempt.phase.name, value), other);
        }
        further := path + [value];
        attempt.Commit(db, value);
    }
  }

  /** The body runs to its next call. */
  method ToNextCall(attempt: Attempt, db: Database, ghost path: seq<Json>, ghost thrown: set<(nat, string)>)
    returns (ghost further: seq<Json>)
    requires OnTrack(attempt, db, path, thrown) && attempt.phase.InBody?
    modifies attempt
    ensures path <= further && OnTrack(attempt, db, further, thrown) && !attempt.phase.Starting?
    ensures Flagged(attempt, db) ==> !attempt.State().InStep()
    ensures attempt.phase == Finishing(Cancels) ==> Flagged(attempt, db)
    ensures attempt.phase.Finishing? || Progress(attempt) > old(Progress(attempt))
  {
    further := AdvanceOnPath(attempt.registry[attempt.row.name], attempt.row.input, path, thrown, attempt.row.attempts,
                             attempt.State(), Flagged(attempt, db));
    attempt.Advance(db);
  }

  /** One turn of the worker: run the body to its next call, call a step function, or settle it. */
  method Turn(attempt: Attempt, db: Database, outcome: Outcome, ghost path: seq<Json>, ghost thrown: set<(nat, string)>)
    returns (ghost further: seq<Json>)
    requires OnTrack(attempt, db, path, thrown) && !attempt.phase.Starting? && !attempt.phase.Finishing?
    requires outcome.Rejects? ==> (attempt.row.attempts, outcome.message) in thrown
    modifies attempt, db`steps
    ensures path <= further && OnTrack(attempt, db, further, thrown) && !attempt.phase.Starting?
    ensures forall other :: other != attempt.id ==> LogOf(db.steps, other) == old(LogOf(db.steps, other))
    ensures Flagged(attempt, db) && !old(attempt.State().InStep()) ==>
              db.steps == old(db.steps) && !attempt.State().InStep()
    ensures attempt.phase == Finishing(Cancels) ==> Flagged(attempt, db)
    ensures attempt.phase.Finishing? || Progress(attempt) > old(Progress(attempt))
  {
    further := path;
    match attempt.phase {
      case InBody =>
        further := ToNextCall(attempt, db, path, thrown);
      case Checked(_, _, _) =>
        attempt.Start();
      case Executing(_, _, _) =>
        further := Settle(attempt, db, outcome, path, thrown);
    }
  }

  /** `s` is `r` with its lease renewed or its cancellation requested. */
  predicate LeaseOrFlag(r: Row, s: Row) {
    s.(claimExpiresAt := r.claimExpiresAt, cancelAt := r.cancelAt) == r && (r.cancelAt.Some? ==> s.cancelAt.Some?)
  }

  /**
   * What others do between two turns while the attempt holds its row: heartbeats and cancel requests on this row, and
   * anything at all to other rows and to the steps of other workflows.
   */
  method Meanwhile(db: Database, id: string)
    requires id in db.rows
    modifies db
    ensures id in db.rows && LeaseOrFlag(old(db.rows)[id], db.rows[id])
    ensures LogOf(db.steps, id) == old(LogOf(db.steps, id))
  {
    var others: Rows := *;
    var lease: Option<int> := *;
    var flag: Option<int> := *;
    var steps: map<(string, string), StepRow> := *;
    var own := db.rows[id].(claimExpiresAt := lease, cancelAt := if flag.Some? then flag else db.rows[id].cancelAt);
    db.rows := others[id := own];
    db.steps := (map key | key in steps && key.0 != id :: steps[key]) +
                (map key | key in db.steps && key.0 == id :: db.steps[key]);
  }

  /** Turns, and what others do between them, until the body ends or the process dies. */
  method RunTurns(attempt: Attempt, db: Database, world: seq<Outcome>, ghost before: seq<Json>)
    returns (ghost path: seq<Json>)
    requires OnTrack(attempt, db, before, Rejections(world, attempt.row.attempts))
    requires attempt.phase.InBody? && attempt.id in db.rows
    modifies attempt, db
    ensures before <= path && OnTrack(attempt, db, path, Rejections(world, attempt.row.attempts))
    ensures attempt.id in db.rows && LeaseOrFlag(old(db.rows)[attempt.id], db.rows[attempt.id])
    ensures old(Flagged(attempt, db)) ==> LogOf(db.steps, attempt.id) == old(LogOf(db.steps, attempt.id))
    ensures attempt.phase == Finishing(Cancels) ==> Flagged(attempt, db)
    ensures attempt.phase.Finishing? || |world| <= 3 * |path| + 2
  {
    ghost var thrown := Rejections(world, attempt.row.attempts);
    path := before;
    var turn := 0;
    while turn < |world| && !attempt.phase.Finishing?
      invariant before <= path && OnTrack(attempt, db, path, thrown) && !attempt.phase.Starting?
      invariant attempt.id in db.rows && LeaseOrFlag(old(db.rows)[attempt.id], db.rows[attempt.id])
      invariant old(Flagged(attempt, db)) ==>
                  LogOf(db.steps, attempt.id) == old(LogOf(db.steps, attempt.id)) && !attempt.State().InStep()
      invariant attempt.phase == Finishing(Cancels) ==> Flagged(attempt, db)
      invariant turn <= |world| && (attempt.phase.Finishing? || turn <= Progress(attempt))
    {
      Meanwhile(db, attempt.id);
      path := Turn(attempt, db, world[turn], path, thrown);
      turn := turn + 1;
    }
  }

  /**
   * What each result says about the row: `r` as claimed, `last` just before the final write, `s` as it is left. The
   * result says how the body ended along `path`, or that something was thrown at it.
   */
  ghost predicate Concluded(body: Body, r: Row, last: Row, s: Row, path: seq<Json>, thrown: set<(nat, string)>,
                            result: Result, now: int) {
    match result
    case Died => s == last
    case Succeeded =>
      && body(r.input, path).Return?
      && s == last.(status := Success, output := Some(body(r.input, path).value), error := None, endedAt := Some(now),
                    executor := None, claimExpiresAt := None)
    case WasCancelled =>
      && last.cancelAt.Some? && body(r.input, path).Call?
      && NextId(body, r.input, path) !in LogAlong(body, r.input, path)
      && s == last.(status := Cancelled, output := None, error := Some(WAS_CANCELLED), endedAt := Some(now),
                    executor := None, claimExpiresAt := None)
    case Requeued =>
      && r.attempts < r.maxAttempts && (exists m :: FailsWith(body, r.input, path, thrown, r.attempts, m))
      && s == last.(status := Pending, scheduledFor := now + Backoff(r.attempts), startedAt := None, executor := None,
                    claimExpiresAt := None)
    case Errored =>
      && r.attempts >= r.maxAttempts && s.error.Some?
      && FailsWith(body, r.input, path, thrown, r.attempts, s.error.value)
      && s == last.(status := Failed, output := None, error := s.error, endedAt := Some(now), executor := None,
                    claimExpiresAt := None)
  }

  /** The final write, when the body has ended. */
  method Conclude(attempt: Attempt, db: Database, now: int, ghost path: seq<Json>, ghost thrown: set<(nat, string)>)
    returns (result: Result)
    requires OnTrack(attempt, db, path, thrown)
    requires attempt.id in db.rows && LeaseOrFlag(attempt.row, db.rows[attempt.id])
    requires attempt.phase == Finishing(Cancels) ==> Flagged(attempt, db)
    modifies db`rows
    ensures attempt.id in db.rows && db.rows == old(db.rows)[attempt.id := db.rows[attempt.id]]
    ensures Concluded(attempt.registry[attempt.row.name], attempt.row, old(db.rows)[attempt.id], db.rows[attempt.id],
                      path, thrown, result, now)
    ensures result.Died? <==> !attempt.phase.Finishing?
  {
    if attempt.phase.Finishing? {
      result := attempt.Finish(db, now);
    } else {
      result := Died;
    }
  }

  /** A worker for a claimed row, its step cache loaded. */
  method BeginAttempt(db: Database, registry: Registry, id: string, ghost before: seq<Json>) returns (attempt: Attempt)
    requires id in db.rows && db.rows[id].name in registry
    requires Follows(registry[db.rows[id].name], db.rows[id].input, before)
    requires LogOf(db.steps, id) == LogAlong(registry[db.rows[id].name], db.rows[id].input, before)
    ensures fresh(attempt) && attempt.registry == registry && attempt.id == id && attempt.row == db.rows[id]
    ensures forall thrown :: OnTrack(attempt, db, before, thrown)
    ensures attempt.phase.InBody? && attempt.results == []
  {
    attempt := new Attempt(registry, id, db.rows[id], "", 0);
    attempt.Load(db);
    assert CountsAlong(registry[db.rows[id].name], db.rows[id].input, []) == map[];
  }

  /**
   * One attempt from its claim on, with the process dying after any number of turns and others at work between them.
   * It takes a log that replays the body along `before` to one that replays it along a path that continues `before`,
   * stores nothing if cancellation was requested before it began, changes nothing of its row until its final write,
   * and ends as the body does over the final log. If nothing rejects, there are turns enough and the body returns
   * there, it succeeds.
   */
  method RunWorkflow(db: Database, registry: Registry, id: string, world: seq<Outcome>, now: int,
                     ghost before: seq<Json>)
    returns (result: Result, ghost path: seq<Json>, ghost last: Row)
    requires id in db.rows && db.rows[id].name in registry
    requires Follows(registry[db.rows[id].name], db.rows[id].input, before)
    requires LogOf(db.steps, id) == LogAlong(registry[db.rows[id].name], db.rows[id].input, before)
    modifies db
    ensures before <= path && id in db.rows && LeaseOrFlag(old(db.rows)[id], last)
    ensures Concluded(registry[old(db.rows)[id].name], old(db.rows)[id], last, db.rows[id], path,
                      Rejections(world, old(db.rows)[id].attempts), result, now)
    ensures Follows(registry[old(db.rows)[id].name], old(db.rows)[id].input, path)
    ensures LogOf(db.steps, id) == LogAlong(registry[old(db.rows)[id].name], old(db.rows)[id].input, path)
    ensures old(db.rows)[id].cancelAt.Some? ==> LogOf(db.steps, id) == old(LogOf(db.steps, id))
    ensures result.Died? ==> |world| <= 3 * |path| + 2
    ensures (&& (forall k :: 0 <= k < |world| ==> world[k].Returns?) && |world| > 3 * |path| + 2
             && registry[old(db.rows)[id].name](old(db.rows)[id].input, path).Return?) ==>
              result.Succeeded?
  {
    var attempt := BeginAttempt(db, registry, id, before);
    path := RunTurns(attempt, db, world, before);
    Meanwhile(db, id);
    last := db.rows[id];
    assert Follows(registry[attempt.row.name], attempt.row.input, path);
    assert LogOf(db.steps, id) == LogAlong(registry[attempt.row.name], attempt.row.input, path);
    result := Conclude(attempt, db, now, path, Rejections(world, attempt.row.attempts));
  }
}
