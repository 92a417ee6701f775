/** syncUserToResend: the retry loop inside its one step, and how many upserts a workflow can make in all. */
module SyncUser {
  import opened Values
  import opened Table
  import opened Worker
  import opened Cells
  import opened StepIds
  import opened Budget
  import opened Clusters

  const MAX_STEP_ATTEMPTS := 5
  const BASE_BACKOFF_MS := 500
  const MAX_BACKOFF_MS := 15_000

  datatype Upsert =
    | UpsertOk
    | ClientError
    | ServerError(retryAfterMs: Option<int>)
    | NetworkError
  {
    predicate Transient() {
      ServerError? || NetworkError?
    }

    function RetryAfter(): Option<int> {
      if ServerError? then retryAfterMs else None
    }
  }

  function BackoffMs(attempt: nat, retryAfterMs: Option<int>): (ms: int)
    requires attempt >= 1
    ensures ms <= MAX_BACKOFF_MS
  {
    if retryAfterMs.Some? then Min(retryAfterMs.value, MAX_BACKOFF_MS)
    else Min(BASE_BACKOFF_MS * Pow2(attempt - 1), MAX_BACKOFF_MS)
  }

  /** Without a server hint the waits start at the base, never shrink, and stay at the cap from the sixth on. */
  lemma BackoffGrows(attempt: nat)
    requires attempt >= 1
    ensures BASE_BACKOFF_MS <= BackoffMs(attempt, None) <= BackoffMs(attempt + 1, None) <= MAX_BACKOFF_MS
    ensures attempt >= 6 ==> BackoffMs(attempt, None) == MAX_BACKOFF_MS
  {
    Pow2Grows(attempt - 1, 0);
    if attempt >= 6 {
      Pow2Grows(attempt - 1, 5);
      assert Pow2(1) == 2 && Pow2(3) == 8 && Pow2(5) == 32;
    }
  }

  /** Without a hint the wait starts at 500 ms and doubles until it reaches 15 s; a hint is obeyed up to 15 s. */
  lemma BackoffDoubles(attempt: nat, hint: int)
    requires attempt >= 1
    ensures BackoffMs(1, None) == 500
    ensures BackoffMs(attempt + 1, None) ==
            if 2 * BackoffMs(attempt, None) < 15_000 then 2 * BackoffMs(attempt, None) else 15_000
    ensures BackoffMs(attempt, Some(hint)) == if hint < 15_000 then hint else 15_000
  {
    assert Pow2(0) == 1 && Pow2(attempt) == 2 * Pow2(attempt - 1);
  }

  lemma {:induction false} Pow2Grows(n: nat, m: nat)
    requires m <= n
    ensures 1 <= Pow2(m) <= Pow2(n)
    decreases n
  {
    if m < n {
      Pow2Grows(n - 1, m);
    } else if n > 0 {
      Pow2Grows(n - 1, m - 1);
    }
  }

  /** What the service would answer to each call of one run of the loop, counted from 0. */
  type Answers = nat -> Upsert

  /** How many calls the loop makes in all when the first k answers were transient. */
  function CallsFrom(answers: Answers, k: nat): (calls: nat)
    requires k < MAX_STEP_ATTEMPTS
    ensures k < calls <= 5
    ensures forall m :: k <= m < calls - 1 ==> answers(m).Transient()
    ensures calls < 5 ==> !answers(calls - 1).Transient()
    decreases MAX_STEP_ATTEMPTS - k
  {
    if answers(k).Transient() && k + 1 < MAX_STEP_ATTEMPTS then CallsFrom(answers, k + 1) else k + 1
  }

  function Calls(answers: Answers): (calls: nat)
    ensures 1 <= calls <= 5
    ensures forall m :: 0 <= m < calls - 1 ==> answers(m).Transient()
    ensures calls < 5 ==> !answers(calls - 1).Transient()
  {
    CallsFrom(answers, 0)
  }

  ghost predicate OkAfterTransients(answers: Answers, k: nat) {
    k < 5 && answers(k).UpsertOk? && forall m: nat :: m < k ==> answers(m).Transient()
  }

  /** The last call was answered ok exactly when some ok answer is reached through transient ones. */
  lemma LastAnswer(answers: Answers)
    ensures answers(Calls(answers) - 1).UpsertOk? <==> exists k: nat :: OkAfterTransients(answers, k)
  {
    var last := Calls(answers) - 1;
    if answers(last).UpsertOk? {
      assert OkAfterTransients(answers, last);
    }
    forall k: nat | OkAfterTransients(answers, k) ensures k == last {
      assert k < last ==> answers(k).Transient();
      if last < k {
        assert false;
      }
    }
  }

  /** The waits are those told by the answers or by the backoff. */
  ghost predicate WaitsFor(answers: Answers, waits: seq<int>) {
    forall k :: 0 <= k < |waits| ==> waits[k] == BackoffMs(k + 1, answers(k).RetryAfter())
  }

  lemma WaitOnce(answers: Answers, waits: seq<int>)
    requires WaitsFor(answers, waits)
    ensures WaitsFor(answers, waits + [BackoffMs(|waits| + 1, answers(|waits|).RetryAfter())])
  {
  }

  /**
   * The loop stops at the first answer that is not transient, or at the fifth call, and waits between calls as told by
   * the answer or by the backoff.
   */
  method UpsertWithRetry(answers: Answers) returns (ok: bool, calls: nat, waits: seq<int>)
    ensures calls == Calls(answers) && |waits| == calls - 1
    ensures ok <==> exists k: nat :: OkAfterTransients(answers, k)
    ensures WaitsFor(answers, waits)
  {
    calls, waits := 0, [];
    LastAnswer(answers);
    while true
      invariant calls < MAX_STEP_ATTEMPTS && |waits| == calls && Calls(answers) == CallsFrom(answers, calls)
      invariant WaitsFor(answers, waits)
      decreases MAX_STEP_ATTEMPTS - calls
    {
      var answer := answers(calls);
      calls := calls + 1;
      if answer.UpsertOk? {
        return true, calls, waits;
      }
      if answer.ClientError? || calls == MAX_STEP_ATTEMPTS {
        return false, calls, waits;
      }
      WaitOnce(answers, waits);
      waits := waits + [BackoffMs(calls, answer.RetryAfter())];
    }
  }

  // ----- one workflow over all its attempts -----

  const SYNC_USER: Body := (input, results) => if |results| == 0 then Call("upsertContact", false) else Return(JNull)

  /**
   * One call of the step function: whether a Resend account is configured, what the service answers, and how many
   * calls the process lives to make.
   */
  datatype Service = Service(configured: bool, answers: Answers, lives: nat)

  function UpsertsOf(s: Service): nat {
    if !s.configured then 0 else if s.lives < Calls(s.answers) then s.lives else Calls(s.answers)
  }

  ghost function TotalUpserts(services: seq<Service>): nat {
    if services == [] then 0 else TotalUpserts(services[..|services| - 1]) + UpsertsOf(services[|services| - 1])
  }

  lemma {:induction false} TotalAtMost(services: seq<Service>)
    ensures TotalUpserts(services) <= MAX_STEP_ATTEMPTS * |services|
  {
    if services != [] {
      TotalAtMost(services[..|services| - 1]);
    }
  }

  ghost predicate OnlyStep(w: WorkerState) {
    && ((w.phase.Starting? || w.phase.InBody?) && w.results == [] ==> w.callCounts == map[])
    && (w.phase.Starting? ==> w.results == [])
    && (w.InStep() ==> w.phase.stepId == "upsertContact")
  }

  ghost predicate OnlyUpserts(c: Cell) {
    && (forall a :: a in c.workers ==> c.workers[a].snap.name == c.row.name && OnlyStep(c.workers[a]))
    && (forall i :: 0 <= i < |c.runs| ==> c.runs[i].stepId == "upsertContact")
  }

  /** A step keeps what holds of each worker, and a claim starts a new one. */
  lemma OnlyStepKept(registry: Registry, c: Cell, st: CellStep, a: nat)
    requires Enabled(registry, c, st) && a in Apply(registry, c, st).workers
    requires a in c.workers ==> c.workers[a].snap.name == c.row.name && OnlyStep(c.workers[a])
    requires c.row.name in registry && registry[c.row.name] == SYNC_USER
    ensures Apply(registry, c, st).workers[a].snap.name == c.row.name && OnlyStep(Apply(registry, c, st).workers[a])
  {
    if st.Advance? && st.a == a {
      AdvanceOnly(c.workers[a], c.row.cancelAt.Some?);
    }
  }

  lemma AdvanceOnly(w: WorkerState, cancelled: bool)
    requires OnlyStep(w) && w.phase.InBody?
    ensures OnlyStep(AdvanceStep(SYNC_USER, w, cancelled)) && AdvanceStep(SYNC_USER, w, cancelled).snap == w.snap
  {
    if w.results == [] {
      assert StepIdFor("upsertContact", Count(w.callCounts, "upsertContact")) == "upsertContact";
    }
  }

  lemma OnlyUpsertsStep(registry: Registry, c: Cell, st: CellStep)
    requires Enabled(registry, c, st) && OnlyUpserts(c)
    requires c.row.name in registry && registry[c.row.name] == SYNC_USER
    ensures OnlyUpserts(Apply(registry, c, st))
  {
    var d := Apply(registry, c, st);
    SubmissionIsFixed(registry, c, st);
    forall a | a in d.workers ensures d.workers[a].snap.name == d.row.name && OnlyStep(d.workers[a]) {
      OnlyStepKept(registry, c, st, a);
    }
    RunsGrow(registry, c, st);
  }

  lemma RunsGrow(registry: Registry, c: Cell, st: CellStep)
    requires Enabled(registry, c, st)
    ensures Apply(registry, c, st).runs ==
            if st.Start? then c.runs + [Run(st.a, c.workers[st.a].phase.stepId)] else c.runs
  {
  }

  lemma {:induction false} OnlyUpsertsAlways(registry: Registry, states: seq<Cell>, steps: seq<CellStep>, i: nat)
    requires FromTheStart(registry, states, steps) && i < |states|
    requires states[0].row.name in registry && registry[states[0].row.name] == SYNC_USER
    ensures OnlyUpserts(states[i])
  {
    if i > 0 {
      OnlyUpsertsAlways(registry, states, steps, i - 1);
      OnlyGrows(registry, states, steps, 0, i - 1);
      OnlyUpsertsStep(registry, states[i - 1], steps[i - 1]);
    }
  }

  lemma {:induction false} AllCounted(runs: seq<Run>, stepId: string)
    requires forall i :: 0 <= i < |runs| ==> runs[i].stepId == stepId
    ensures RunsOf(runs, stepId) == |runs|
  {
    if runs != [] {
      AllCounted(runs[..|runs| - 1], stepId);
    }
  }

  /**
   * Whatever crashes, stale workers and reclaims do and whatever the service answers: the workflow calls no step
   * function but the upsert, and it makes at most five upserts for each dispatch, so at most five times what its
   * limit and its resets allow.
   */
  lemma UpsertBudget(registry: Registry, run: seq<Cluster>, steps: seq<ClusterStep>, i: nat, id: string,
                     services: seq<Service>)
    requires IsRun(registry, run, steps) && i < |run| && id in run[i].cells
    requires run[i].cells[id].row.name == "syncUserToResend"
    requires "syncUserToResend" in registry && registry["syncUserToResend"] == SYNC_USER
    requires |services| == |run[i].cells[id].runs|
    ensures forall n :: 0 <= n < |services| ==> run[i].cells[id].runs[n].stepId == "upsertContact"
    ensures TotalUpserts(services) <= 5 * run[i].cells[id].row.attempts
    ensures TotalUpserts(services) <=
            5 * (Max(1, run[i].cells[id].row.maxAttempts) + run[i].cells[id].resets)
  {
    var states, csteps, mid := Projection(registry, run, steps, id, i, i);
    var c := run[i].cells[id];
    OnlyGrows(registry, states, csteps, 0, |csteps|);
    OnlyUpsertsAlways(registry, states, csteps, |csteps|);
    DispatchBudget(registry, states, csteps, |csteps|, "upsertContact");
    AllCounted(c.runs, "upsertContact");
    TotalAtMost(services);
  }
}
