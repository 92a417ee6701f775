/** Replay is transparent: across crashes, failures and re-dispatches a workflow runs as if it had never stopped. */
module Replay {
  import opened Values
  import opened Table
  import opened Worker
  import opened Cells
  import opened Lease

  /** What an attempt fails with: what the body throws at the end of the path, or what was thrown at the attempt. */
  ghost predicate FailsWith(body: Body, input: Json, path: seq<Json>, thrown: set<(nat, string)>, a: nat, m: string) {
    body(input, path) == Throw(m) || (a, m) in thrown
  }

  /**
   * The worker of attempt `a` has followed the body along `path`, or along a part of it that is already stored; and it
   * ends only as the body does at the end of the path, because something was thrown at it, or before a step that has
   * no stored result.
   */
  ghost predicate OnPath(body: Body, input: Json, path: seq<Json>, log: Log, thrown: set<(nat, string)>, a: nat,
                         w: WorkerState) {
    match w.phase
    case Starting => w.results == [] && w.callCounts == map[]
    case InBody =>
      && w.results <= path
      && w.callCounts == CountsAlong(body, input, w.results)
      && w.stepCache == log
    case Finishing(Succeeds(v)) => w.results == path && body(input, path) == Return(v)
    case Finishing(Fails(m)) => FailsWith(body, input, path, thrown, a, m)
    case Finishing(Cancels) => body(input, path).Call? && NextId(body, input, path) !in log
    case Finishing(Unregistered) => false
    case _ =>
      && w.results == path
      && body(input, path) == Call(w.phase.name, w.phase.tx)
      && w.phase.stepId == NextId(body, input, path) && w.phase.stepId !in log
      && w.callCounts == CountsAlong(body, input, path + [JNull])
      && w.stepCache == log
  }

  /**
   * The cell is what one uninterrupted evaluation leaves once its calls have been answered by `path`. A success has
   * its output; a failure has the error that the body throws there or that was thrown at its last attempt, and has
   * used up its attempts; a cancelled row was asked to be.
   */
  ghost predicate Replays(body: Body, c: Cell, path: seq<Json>) {
    && Follows(body, c.row.input, path)
    && c.log == LogAlong(body, c.row.input, path)
    && c.commits == multiset(TxIds(body, c.row.input, path))
    && (forall a :: a in c.workers ==> OnPath(body, c.row.input, path, c.log, c.thrown, a, c.workers[a]))
    && (forall a :: a in c.workers && c.workers[a].phase == Finishing(Cancels) ==> c.row.cancelAt.Some?)
    && Ends(body, c, path)
  }

  ghost predicate Ends(body: Body, c: Cell, path: seq<Json>) {
    && (c.row.status.Success? ==> c.row.output.Some? && body(c.row.input, path) == Return(c.row.output.value))
    && (c.row.status.Failed? ==>
          && c.row.error.Some? && c.row.attempts >= c.row.maxAttempts
          && FailsWith(body, c.row.input, path, c.thrown, c.row.attempts, c.row.error.value))
    && (c.row.status.Cancelled? ==> c.row.cancelAt.Some?)
  }

  lemma {:induction false} LoggedStepsAreOk(body: Body, input: Json, path: seq<Json>)
    ensures forall id :: id in LogAlong(body, input, path) ==> LogAlong(body, input, path)[id].StepOk?
  {
    if path != [] {
      LoggedStepsAreOk(body, input, path[..|path| - 1]);
    }
  }

  /** A call whose answer is in the cache is counted and its answer becomes a result. */
  lemma AdvanceAnswered(body: Body, w: WorkerState, cancelled: bool, value: Json)
    requires w.phase.InBody? && w.callCounts == CountsAlong(body, w.snap.input, w.results)
    requires body(w.snap.input, w.results).Call?
    requires Answers(w.stepCache, NextId(body, w.snap.input, w.results), value)
    ensures AdvanceStep(body, w, cancelled) ==
            w.(results := w.results + [value], callCounts := CountsAlong(body, w.snap.input, w.results + [value]))
  {
    Extend(body, w.snap.input, w.results, value);
  }

  /** Behind the end of the path, the next call is answered from the cache with the path's next value. */
  lemma AdvanceBehind(body: Body, input: Json, path: seq<Json>, thrown: set<(nat, string)>, a: nat, w: WorkerState,
                      cancelled: bool)
    requires Follows(body, input, path) && w.phase.InBody? && w.snap.input == input
    requires OnPath(body, input, path, LogAlong(body, input, path), thrown, a, w) && w.results != path
    ensures OnPath(body, input, path, LogAlong(body, input, path), thrown, a, AdvanceStep(body, w, cancelled))
  {
    var q := w.results;
    assert path[..|q|] == q && q + [path[|q|]] <= path;
    Replayed(body, input, path, |q|);
    AdvanceAnswered(body, w, cancelled, path[|q|]);
  }

  /** At the end of the path, a call of an id that is already stored lengthens the path without a new row. */
  lemma AdvanceRepeats(body: Body, input: Json, path: seq<Json>, thrown: set<(nat, string)>, a: nat, w: WorkerState,
                       cancelled: bool, value: Json)
    requires Follows(body, input, path) && w.phase.InBody? && w.snap.input == input
    requires OnPath(body, input, path, LogAlong(body, input, path), thrown, a, w) && w.results == path
    requires body(input, path).Call? && Answers(LogAlong(body, input, path), NextId(body, input, path), value)
    ensures var further := path + [value];
            && Follows(body, input, further)
            && LogAlong(body, input, further) == LogAlong(body, input, path)
            && TxIds(body, input, further) == TxIds(body, input, path)
            && OnPath(body, input, further, LogAlong(body, input, path), thrown, a, AdvanceStep(body, w, cancelled))
  {
    Extend(body, input, path, value);
    AdvanceAnswered(body, w, cancelled, value);
  }

  /** At the end of the path, anything else leaves the path as it is. */
  lemma AdvanceFresh(body: Body, input: Json, path: seq<Json>, thrown: set<(nat, string)>, a: nat, w: WorkerState,
                     cancelled: bool)
    requires Follows(body, input, path) && w.phase.InBody? && w.snap.input == input
    requires OnPath(body, input, path, LogAlong(body, input, path), thrown, a, w) && w.results == path
    requires body(input, path).Call? ==> NextId(body, input, path) !in LogAlong(body, input, path)
    ensures OnPath(body, input, path, LogAlong(body, input, path), thrown, a, AdvanceStep(body, w, cancelled))
  {
    if body(input, path).Call? {
      Extend(body, input, path, JNull);
    }
  }

  /** Running the body up to its next call keeps the worker on a path. */
  lemma AdvanceOnPath(body: Body, input: Json, path: seq<Json>, thrown: set<(nat, string)>, a: nat, w: WorkerState,
                      cancelled: bool)
    returns (further: seq<Json>)
    requires Follows(body, input, path) && w.phase.InBody? && w.snap.input == input
    requires OnPath(body, input, path, LogAlong(body, input, path), thrown, a, w)
    ensures Follows(body, input, further) && path <= further
    ensures LogAlong(body, input, further) == LogAlong(body, input, path)
    ensures TxIds(body, input, further) == TxIds(body, input, path)
    ensures OnPath(body, input, further, LogAlong(body, input, path), thrown, a, AdvanceStep(body, w, cancelled))
  {
    var log := LogAlong(body, input, path);
    further := path;
    if w.results != path {
      AdvanceBehind(body, input, path, thrown, a, w, cancelled);
    } else if body(input, path).Call? && NextId(body, input, path) in log {
      LoggedStepsAreOk(body, input, path);
      var value := log[NextId(body, input, path)].output;
      AdvanceRepeats(body, input, path, thrown, a, w, cancelled, value);
      further := path + [value];
    } else {
      AdvanceFresh(body, input, path, thrown, a, w, cancelled);
    }
  }

  /** Storing a fresh step's result lengthens the path by it. */
  lemma CommitOnPath(body: Body, input: Json, path: seq<Json>, thrown: set<(nat, string)>, a: nat, w: WorkerState,
                     value: Json)
    requires Follows(body, input, path) && w.phase.Executing?
    requires OnPath(body, input, path, LogAlong(body, input, path), thrown, a, w)
    ensures w.phase.stepId !in LogAlong(body, input, path)
    ensures var further := path + [value];
            && Follows(body, input, further)
            && LogAlong(body, input, further) ==
               LogAlong(body, input, path)[w.phase.stepId := StepOk(w.phase.name, value)]
            && w.phase.stepId !in TxIds(body, input, path)
            && TxIds(body, input, further) ==
               TxIds(body, input, path) + (if w.phase.tx then {w.phase.stepId} else {})
            && OnPath(body, input, further, LogAlong(body, input, further), thrown, a, CommitStep(w, value))
  {
    Extend(body, input, path, JNull);
    Extend(body, input, path, value);
    TxIdsAreLogged(body, input, path);
  }

  lemma AddToMultiset(s: set<string>, x: string)
    requires x !in s
    ensures multiset(s + {x}) == multiset(s) + multiset{x}
  {
  }

  lemma AdvanceReplays(registry: Registry, c: Cell, a: nat, path: seq<Json>) returns (further: seq<Json>)
    requires c.row.name in registry && Exclusive(c)
    requires Replays(registry[c.row.name], c, path) && Enabled(registry, c, Advance(a))
    ensures Replays(registry[c.row.name], Apply(registry, c, Advance(a)), further) && path <= further
  {
    var body, input, w := registry[c.row.name], c.row.input, c.workers[a];
    further := AdvanceOnPath(body, input, path, c.thrown, a, w, c.row.cancelAt.Some?);
    assert c.row.status.Running?;
  }

  lemma CommitReplays(registry: Registry, c: Cell, a: nat, value: Json, path: seq<Json>)
    requires c.row.name in registry && Exclusive(c)
    requires Replays(registry[c.row.name], c, path) && Enabled(registry, c, Commit(a, value))
    ensures Replays(registry[c.row.name], Apply(registry, c, Commit(a, value)), path + [value])
  {
    var body, input, w := registry[c.row.name], c.row.input, c.workers[a];
    var d, further := Apply(registry, c, Commit(a, value)), path + [value];
    CommitOnPath(body, input, path, c.thrown, a, w, value);
    assert d.row == c.row && d.row.status.Running?;
    assert d.log == LogAlong(body, input, further);
    assert d.commits == multiset(TxIds(body, input, further)) by {
      AddToMultiset(TxIds(body, input, path), w.phase.stepId);
    }
    forall b | b in d.workers ensures OnPath(body, input, further, d.log, d.thrown, b, d.workers[b]) {
      assert b in c.workers && b == a;
    }
  }

  /** The other steps leave log and writes alone, and a worker on its path where it is. */
  lemma OtherReplays(registry: Registry, c: Cell, st: CellStep, path: seq<Json>)
    requires c.row.name in registry && Exclusive(c) && Coherent(c.row) && !st.Advance? && !st.Commit?
    requires Replays(registry[c.row.name], c, path) && Enabled(registry, c, st)
    ensures Replays(registry[c.row.name], Apply(registry, c, st), path)
  {
    var body, d := registry[c.row.name], Apply(registry, c, st);
    forall a | a in d.workers ensures OnPath(body, c.row.input, path, c.log, d.thrown, a, d.workers[a]) {
      OtherOnPath(registry, c, st, path, a);
    }
    OtherOutput(registry, c, st, path);
  }

  lemma OtherOnPath(registry: Registry, c: Cell, st: CellStep, path: seq<Json>, a: nat)
    requires c.row.name in registry && Exclusive(c) && !st.Advance? && !st.Commit?
    requires Replays(registry[c.row.name], c, path) && Enabled(registry, c, st) && a in Apply(registry, c, st).workers
    ensures OnPath(registry[c.row.name], c.row.input, path, c.log, Apply(registry, c, st).thrown, a,
                   Apply(registry, c, st).workers[a])
  {
    if a in c.workers {
      assert OnPath(registry[c.row.name], c.row.input, path, c.log, c.thrown, a, c.workers[a]);
    }
  }

  lemma OtherOutput(registry: Registry, c: Cell, st: CellStep, path: seq<Json>)
    requires c.row.name in registry && Exclusive(c) && Coherent(c.row) && !st.Advance? && !st.Commit?
    requires Replays(registry[c.row.name], c, path) && Enabled(registry, c, st)
    ensures var d := Apply(registry, c, st);
            && d.log == c.log && d.commits == c.commits && d.row.input == c.row.input
            && Ends(registry[c.row.name], d, path)
  {
    if st.Finish? {
      assert OnPath(registry[c.row.name], c.row.input, path, c.log, c.thrown, st.a, c.workers[st.a]);
    }
  }

  lemma StepReplays(registry: Registry, c: Cell, st: CellStep, path: seq<Json>) returns (further: seq<Json>)
    requires c.row.name in registry && Exclusive(c) && Coherent(c.row)
    requires Replays(registry[c.row.name], c, path) && Enabled(registry, c, st)
    ensures Replays(registry[c.row.name], Apply(registry, c, st), further) && path <= further
  {
    if st.Advance? {
      further := AdvanceReplays(registry, c, st.a, path);
    } else if st.Commit? {
      CommitReplays(registry, c, st.a, st.value, path);
      further := path + [st.value];
    } else {
      OtherReplays(registry, c, st, path);
      further := path;
    }
  }

  /**
   * Under timely leases, at every moment of every history there is a sequence of step results such that the stored
   * log is exactly what one uninterrupted evaluation stores over them, live workers are on it, every user write of a
   * txStep was committed once for each stored transactional step, and a stored output is that evaluation's output.
   */
  lemma {:induction false} ReplayTransparency(registry: Registry, states: seq<Cell>, steps: seq<CellStep>, i: nat)
    returns (path: seq<Json>)
    requires FromTheStart(registry, states, steps) && Timely(states, steps) && i < |states|
    requires states[0].row.name in registry
    ensures states[i].row.name == states[0].row.name && states[i].row.input == states[0].row.input
    ensures Replays(registry[states[0].row.name], states[i], path)
  {
    if i == 0 {
      path := [];
    } else {
      var before := ReplayTransparency(registry, states, steps, i - 1);
      LeaseExclusion(registry, states, steps, i - 1);
      SubmissionIsFixed(registry, states[i - 1], steps[i - 1]);
      path := StepReplays(registry, states[i - 1], steps[i - 1], before);
    }
  }

  /** The transactional ids of a path are those its fresh transactional calls got. */
  lemma {:induction false} TxIdsMeaning(body: Body, input: Json, path: seq<Json>, stepId: string)
    requires Follows(body, input, path)
    ensures stepId in TxIds(body, input, path) <==>
            exists n :: 0 <= n < |path| && FreshTxCall(body, input, path[..n], stepId)
  {
    if path != [] {
      var p := path[..|path| - 1];
      TxIdsMeaning(body, input, p, stepId);
      forall n | 0 <= n < |p| ensures p[..n] == path[..n] {
      }
      assert path[..|p|] == p;
    }
  }

  ghost predicate FreshTxCall(body: Body, input: Json, path: seq<Json>, stepId: string) {
    && body(input, path).Call? && body(input, path).tx
    && NextId(body, input, path) == stepId && stepId !in LogAlong(body, input, path)
  }

  /** Exactly once: the user write of a step was committed once if its row is stored by a txStep, otherwise never. */
  lemma ExactlyOnce(registry: Registry, states: seq<Cell>, steps: seq<CellStep>, i: nat, stepId: string)
    returns (path: seq<Json>)
    requires FromTheStart(registry, states, steps) && Timely(states, steps) && i < |states|
    requires states[0].row.name in registry
    ensures Replays(registry[states[0].row.name], states[i], path)
    ensures var stored := exists n :: 0 <= n < |path| &&
                            FreshTxCall(registry[states[0].row.name], states[i].row.input, path[..n], stepId);
            && states[i].commits[stepId] == (if stored then 1 else 0)
            && (stored ==> stepId in states[i].log)
  {
    path := ReplayTransparency(registry, states, steps, i);
    TxIdsMeaning(registry[states[0].row.name], states[i].row.input, path, stepId);
    TxIdsAreLogged(registry[states[0].row.name], states[i].row.input, path);
  }
}
