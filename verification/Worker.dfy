/** Workflow bodies and the worker that replays one against its step log. */
module Worker {
  import opened Values
  import opened StepIds
  import opened Table

  /** What a body does next, given its input and the results of the steps it has called so far. */
  datatype Action = Call(name: string, tx: bool) | Return(value: Json) | Throw(message: string)

  type Body = (Json, seq<Json>) -> Action
  type Registry = map<string, Body>

  datatype Ending = Succeeds(output: Json) | Fails(message: string) | Cancels | Unregistered

  /** Where the worker is between two awaits. */
  datatype Phase =
    | Starting
    | InBody
    | Checked(stepId: string, name: string, tx: bool)   // past the cancellation check, step function not called yet
    | Executing(stepId: string, name: string, tx: bool) // step function called, nothing stored yet
    | Finishing(ending: Ending)                         // only the final write is left

  /** One attempt: the row as claimed, its lease, and the private state of runWorkflow. */
  datatype WorkerState = WorkerState(
    exec: string,
    snap: Row,
    leaseUntil: int,
    phase: Phase,
    stepCache: Log,
    callCounts: map<string, nat>,
    results: seq<Json>)
  {
    predicate InStep() {
      phase.Checked? || phase.Executing?
    }
  }

  function NewWorker(exec: string, snap: Row, leaseUntil: int): WorkerState {
    WorkerState(exec, snap, leaseUntil, Starting, map[], map[], [])
  }

  function Count(counts: map<string, nat>, name: string): nat {
    if name in counts then counts[name] else 0
  }

  /** Look the definition up; without one the row is finalized, with one the stored steps become the cache. */
  function LoadStep(registry: Registry, w: WorkerState, log: Log): WorkerState {
    if w.snap.name in registry then w.(phase := InBody, stepCache := log) else w.(phase := Finishing(Unregistered))
  }

  /** Run the body up to its next call: replay a stored step, or check for cancellation and enter a fresh one. */
  function AdvanceStep(body: Body, w: WorkerState, cancelled: bool): WorkerState {
    match body(w.snap.input, w.results)
    case Return(v) => w.(phase := Finishing(Succeeds(v)))
    case Throw(m) => w.(phase := Finishing(Fails(m)))
    case Call(name, tx) =>
      var sequence := Count(w.callCounts, name);
      var stepId := StepIdFor(name, sequence);
      var counted := w.(callCounts := w.callCounts[name := sequence + 1]);
      if stepId in w.stepCache then
        match w.stepCache[stepId]
        case StepOk(_, output) => counted.(results := w.results + [output])
        case StepError(_, message) => counted.(phase := Finishing(Fails(message)))
      else if cancelled then counted.(phase := Finishing(Cancels))
      else counted.(phase := Checked(stepId, name, tx))
  }

  function StartStep(w: WorkerState): WorkerState
    requires w.phase.Checked?
  {
    w.(phase := Executing(w.phase.stepId, w.phase.name, w.phase.tx))
  }

  /** The step function returned `value` and its row (and for txStep the user's write) committed. */
  function CommitStep(w: WorkerState, value: Json): WorkerState
    requires w.phase.Executing?
  {
    w.(phase := InBody, results := w.results + [value],
       stepCache := w.stepCache[w.phase.stepId := StepOk(w.phase.name, value)])
  }

  function ThrowStep(w: WorkerState, message: string): WorkerState {
    w.(phase := Finishing(Fails(message)))
  }

  function Backoff(attempts: nat): int {
    Min(60_000, 250 * Pow2(attempts))
  }

  /** A failed attempt goes back to pending while the attempts it knows of are below its limit. */
  predicate Requeues(w: WorkerState) {
    w.phase.Finishing? && w.phase.ending.Fails? && w.snap.attempts < w.snap.maxAttempts
  }

  const UNKNOWN_WORKFLOW := "No workflow registered"
  const WAS_CANCELLED := "Workflow was cancelled"

  /** The row after the worker's final write. */
  function FinishRow(r: Row, w: WorkerState, now: int): Row
    requires w.phase.Finishing?
  {
    match w.phase.ending
    case Succeeds(output) => FinalizeRow(r, Success, now, Some(output), None)
    case Cancels => FinalizeRow(r, Cancelled, now, None, Some(WAS_CANCELLED))
    case Unregistered => FinalizeRow(r, Failed, now, None, Some(UNKNOWN_WORKFLOW))
    case Fails(m) =>
      if w.snap.attempts < w.snap.maxAttempts then RequeueRow(r, now + Backoff(w.snap.attempts))
      else FinalizeRow(r, Failed, now, None, Some(m))
  }

  lemma {:induction false} BackoffRange(attempts: nat)
    requires attempts >= 1
    ensures 500 <= Backoff(attempts) <= 60_000
    ensures Backoff(attempts) <= Backoff(attempts + 1) <= 2 * Backoff(attempts)
  {
    Pow2AtLeast(attempts);
  }

  /** It starts at half a second and doubles until it reaches a minute. */
  lemma BackoffDoubles(attempts: nat)
    requires attempts >= 1
    ensures Backoff(1) == 500
    ensures Backoff(attempts + 1) == if 2 * Backoff(attempts) < 60_000 then 2 * Backoff(attempts) else 60_000
  {
    assert Pow2(0) == 1 && Pow2(1) == 2;
    assert Pow2(attempts + 1) == 2 * Pow2(attempts);
  }

  lemma {:induction false} Pow2AtLeast(n: nat)
    requires n >= 1
    ensures Pow2(n) >= 2
  {
    if n > 1 {
      Pow2AtLeast(n - 1);
    }
  }

  // ----- the reference: one uninterrupted evaluation of the body over given answers -----

  ghost function CountsAlong(body: Body, input: Json, path: seq<Json>): map<string, nat> {
    if path == [] then map[]
    else
      var p := path[..|path| - 1];
      var before := CountsAlong(body, input, p);
      match body(input, p)
      case Call(name, _) => before[name := Count(before, name) + 1]
      case _ => before
  }

  /** The id of the step the body calls after the answers in `path`. */
  ghost function NextId(body: Body, input: Json, path: seq<Json>): string
    requires body(input, path).Call?
  {
    var name := body(input, path).name;
    StepIdFor(name, Count(CountsAlong(body, input, path), name))
  }

  /** The step rows written when the body's calls are answered by `path`. */
  ghost function LogAlong(body: Body, input: Json, path: seq<Json>): Log {
    if path == [] then map[]
    else
      var p := path[..|path| - 1];
      var before := LogAlong(body, input, p);
      match body(input, p)
      case Call(name, _) => InsertOrIgnore(before, NextId(body, input, p), StepOk(name, path[|path| - 1]))
      case _ => before
  }

  /** Each answer in `path` answers a call, and an id that was answered before gets its stored answer again. */
  ghost predicate Follows(body: Body, input: Json, path: seq<Json>) {
    path == [] ||
    var p := path[..|path| - 1];
    && Follows(body, input, p)
    && body(input, p).Call?
    && Answers(LogAlong(body, input, path), NextId(body, input, p), path[|path| - 1])
  }

  ghost predicate Answers(log: Log, stepId: string, value: Json) {
    stepId in log && log[stepId].StepOk? && log[stepId].output == value
  }

  /** The ids among `path`'s fresh steps that are transactional. */
  ghost function TxIds(body: Body, input: Json, path: seq<Json>): set<string> {
    if path == [] then {}
    else
      var p := path[..|path| - 1];
      TxIds(body, input, p) +
      if body(input, p).Call? && body(input, p).tx && NextId(body, input, p) !in LogAlong(body, input, p)
      then {NextId(body, input, p)} else {}
  }

  lemma Extend(body: Body, input: Json, path: seq<Json>, value: Json)
    requires body(input, path).Call?
    ensures var name, stepId := body(input, path).name, NextId(body, input, path);
            && CountsAlong(body, input, path + [value]) ==
               CountsAlong(body, input, path)[name := Count(CountsAlong(body, input, path), name) + 1]
            && LogAlong(body, input, path + [value]) ==
               InsertOrIgnore(LogAlong(body, input, path), stepId, StepOk(name, value))
            && TxIds(body, input, path + [value]) == TxIds(body, input, path) +
               (if body(input, path).tx && stepId !in LogAlong(body, input, path) then {stepId} else {})
            && (Follows(body, input, path + [value]) <==>
                Follows(body, input, path) && Answers(LogAlong(body, input, path + [value]), stepId, value))
  {
    assert (path + [value])[..|path|] == path;
  }

  lemma {:induction false} TxIdsAreLogged(body: Body, input: Json, path: seq<Json>)
    ensures TxIds(body, input, path) <= LogAlong(body, input, path).Keys
  {
    if path != [] {
      TxIdsAreLogged(body, input, path[..|path| - 1]);
    }
  }

  /** A longer path keeps the stored answers. */
  lemma AnswersStay(body: Body, input: Json, path: seq<Json>, stepId: string, value: Json)
    requires Follows(body, input, path) && path != []
    requires Answers(LogAlong(body, input, path[..|path| - 1]), stepId, value)
    ensures Answers(LogAlong(body, input, path), stepId, value)
  {
  }

  /** A proper prefix of a followed path stops at a call whose stored answer is the path's next one. */
  lemma {:induction false} Replayed(body: Body, input: Json, path: seq<Json>, n: nat)
    requires Follows(body, input, path) && n < |path|
    ensures body(input, path[..n]).Call?
    ensures Answers(LogAlong(body, input, path), NextId(body, input, path[..n]), path[n])
  {
    var p := path[..|path| - 1];
    if n < |p| {
      Replayed(body, input, p, n);
      assert p[..n] == path[..n];
      AnswersStay(body, input, path, NextId(body, input, path[..n]), path[n]);
    } else {
      assert path[..n] == p;
    }
  }

  /** Two followed paths over one log never disagree: the shorter is a prefix of the longer. */
  lemma {:induction false} PathsAgree(body: Body, input: Json, path: seq<Json>, other: seq<Json>)
    requires Follows(body, input, path) && Follows(body, input, other)
    requires LogAlong(body, input, path) == LogAlong(body, input, other)
    requires |path| <= |other|
    ensures path <= other
  {
    PrefixAgree(body, input, path, other, |path|);
  }

  lemma {:induction false} PrefixAgree(body: Body, input: Json, path: seq<Json>, other: seq<Json>, n: nat)
    requires Follows(body, input, path) && Follows(body, input, other)
    requires LogAlong(body, input, path) == LogAlong(body, input, other)
    requires n <= |path| <= |other|
    ensures path[..n] == other[..n]
  {
    if n > 0 {
      PrefixAgree(body, input, path, other, n - 1);
      Replayed(body, input, path, n - 1);
      Replayed(body, input, other, n - 1);
      assert path[..n] == path[..n - 1] + [path[n - 1]];
      assert other[..n] == other[..n - 1] + [other[n - 1]];
    }
  }

  /** With names that contain no `#`, every call of a followed path is a step of its own: no id comes twice. */
  lemma {:induction false} PlainNamesGiveDistinctIds(body: Body, input: Json, path: seq<Json>, m: nat, n: nat)
    requires Follows(body, input, path) && m < n < |path|
    requires forall k :: 0 <= k <= n ==> body(input, path[..k]).Call? ==> '#' !in body(input, path[..k]).name
    ensures body(input, path[..m]).Call? && body(input, path[..n]).Call?
    ensures NextId(body, input, path[..m]) != NextId(body, input, path[..n])
  {
    Replayed(body, input, path, m);
    Replayed(body, input, path, n);
    var a, b := body(input, path[..m]).name, body(input, path[..n]).name;
    CountsGrow(body, input, path[..n], m, a);
    assert path[..n][..m] == path[..m];
    PlainNamesNeverClash(a, Count(CountsAlong(body, input, path[..m]), a),
                         b, Count(CountsAlong(body, input, path[..n]), b));
  }

  lemma {:induction false} CountsGrow(body: Body, input: Json, path: seq<Json>, m: nat, name: string)
    requires m <= |path|
    ensures Count(CountsAlong(body, input, path[..m]), name) <= Count(CountsAlong(body, input, path), name)
    ensures m < |path| && body(input, path[..m]).Call? && body(input, path[..m]).name == name ==>
              Count(CountsAlong(body, input, path[..m]), name) < Count(CountsAlong(body, input, path), name)
  {
    if m < |path| {
      var p := path[..|path| - 1];
      CountsGrow(body, input, p, m, name);
      assert p[..m] == path[..m];
    } else {
      assert path[..m] == path;
    }
  }
}
