/** The serial upload queue: a chain of promises and a depth counter. */
module UploadQueue {
  import opened Values

  const MAX_UPLOAD_QUEUE_DEPTH := 4

  /** `Ended` is a body that returned or threw while its `finally` has not run; then the result promise settles. */
  datatype Phase = Waiting | Active | Ended(ok: bool) | Settled(ok: bool)

  /** `after` is the tail this job was chained on: 0 for the promise resolved from the start, k for job k - 1. */
  datatype Job = Job(after: nat, phase: Phase)

  datatype Queue = Queue(tail: nat, depth: int, jobs: seq<Job>)

  datatype Event =
    | Submit
    | Start(i: nat)
    | End(i: nat, ok: bool)
    | Settle(i: nat)

  const EMPTY := Queue(0, 0, [])

  function SetPhase(q: Queue, i: nat, phase: Phase): Queue
    requires i < |q.jobs|
  {
    q.(jobs := q.jobs[i := q.jobs[i].(phase := phase)])
  }

  predicate TailSettled(q: Queue, tail: nat) {
    tail == 0 || (tail <= |q.jobs| && q.jobs[tail - 1].phase.Settled?)
  }

  predicate Enabled(q: Queue, e: Event) {
    match e
    case Submit => true
    case Start(i) => i < |q.jobs| && q.jobs[i].phase == Waiting && TailSettled(q, q.jobs[i].after)
    case End(i, _) => i < |q.jobs| && q.jobs[i].phase == Active
    case Settle(i) => i < |q.jobs| && q.jobs[i].phase.Ended?
  }

  predicate Accepts(q: Queue) {
    q.depth < MAX_UPLOAD_QUEUE_DEPTH
  }

  function Apply(q: Queue, e: Event): Queue
    requires Enabled(q, e)
  {
    match e
    case Submit =>
      if Accepts(q) then Queue(|q.jobs| + 1, q.depth + 1, q.jobs + [Job(q.tail, Waiting)]) else q
    case Start(i) => SetPhase(q, i, Active)
    case End(i, ok) => SetPhase(q, i, Ended(ok))
    case Settle(i) => SetPhase(q, i, Settled(q.jobs[i].phase.ok)).(depth := q.depth - 1)
  }

  /** Every event is enabled where it happens. */
  ghost predicate IsRun(q: Queue, events: seq<Event>)
    decreases |events|
  {
    events == [] || (Enabled(q, events[0]) && IsRun(Apply(q, events[0]), events[1..]))
  }

  ghost function After(q: Queue, events: seq<Event>): Queue
    requires IsRun(q, events)
    decreases |events|
  {
    if events == [] then q else After(Apply(q, events[0]), events[1..])
  }

  // ----- the invariant -----

  function Unsettled(jobs: seq<Job>): nat {
    if jobs == [] then 0
    else Unsettled(jobs[..|jobs| - 1]) + (if jobs[|jobs| - 1].phase.Settled? then 0 else 1)
  }

  /** The bodies that have been entered. */
  predicate Entered(j: Job) {
    !j.phase.Waiting?
  }

  /** Each job hangs on the one before it, and only settled jobs have entered successors. */
  ghost predicate Chained(q: Queue) {
    && q.tail == |q.jobs|
    && (forall i :: 0 <= i < |q.jobs| ==> q.jobs[i].after == i)
    && (forall i, j :: 0 <= i < j < |q.jobs| && Entered(q.jobs[j]) ==> q.jobs[i].phase.Settled?)
  }

  ghost predicate Counted(q: Queue) {
    q.depth == Unsettled(q.jobs) <= MAX_UPLOAD_QUEUE_DEPTH
  }

  lemma {:induction false} UnsettledUpdate(jobs: seq<Job>, i: nat, phase: Phase)
    requires i < |jobs|
    ensures Unsettled(jobs[i := jobs[i].(phase := phase)])
            == Unsettled(jobs) + (if jobs[i].phase.Settled? then 1 else 0) - (if phase.Settled? then 1 else 0)
  {
    var n, changed := |jobs| - 1, jobs[i := jobs[i].(phase := phase)];
    if i < n {
      assert changed[..n] == jobs[..n][i := jobs[i].(phase := phase)];
      UnsettledUpdate(jobs[..n], i, phase);
    } else {
      assert changed[..n] == jobs[..n];
    }
  }

  lemma StepKeepsChain(q: Queue, e: Event)
    requires Chained(q) && Enabled(q, e)
    ensures Chained(Apply(q, e))
  {
  }

  lemma StepKeepsCount(q: Queue, e: Event)
    requires Counted(q) && Enabled(q, e)
    ensures Counted(Apply(q, e))
  {
    match e
    case Submit =>
      if Accepts(q) {
        assert Apply(q, e).jobs[..|q.jobs|] == q.jobs;
      }
    case Start(i) => UnsettledUpdate(q.jobs, i, Active);
    case End(i, ok) => UnsettledUpdate(q.jobs, i, Ended(ok));
    case Settle(i) => UnsettledUpdate(q.jobs, i, Settled(q.jobs[i].phase.ok));
  }

  lemma {:induction false} RunKeeps(q: Queue, events: seq<Event>)
    requires Chained(q) && Counted(q) && IsRun(q, events)
    ensures Chained(After(q, events)) && Counted(After(q, events))
    decreases |events|
  {
    if events != [] {
      StepKeepsChain(q, events[0]);
      StepKeepsCount(q, events[0]);
      RunKeeps(Apply(q, events[0]), events[1..]);
    }
  }

  /** Over every run: the counter is the number of accepted jobs not settled, and it stays within 0 and 4. */
  lemma DepthCounts(events: seq<Event>)
    requires IsRun(EMPTY, events)
    ensures var q := After(EMPTY, events);
            q.depth == Unsettled(q.jobs) && 0 <= q.depth <= 4
  {
    RunKeeps(EMPTY, events);
  }

  /** A submission is refused exactly while four accepted jobs are unsettled. */
  lemma RefusedExactlyWhenFull(events: seq<Event>)
    requires IsRun(EMPTY, events)
    ensures var q := After(EMPTY, events);
            Apply(q, Submit) == q <==> Unsettled(q.jobs) == 4
  {
    RunKeeps(EMPTY, events);
    assert !Accepts(After(EMPTY, events)) || Apply(After(EMPTY, events), Submit).jobs != After(EMPTY, events).jobs;
  }

  /** At most one body is between its start and its release. */
  lemma OneActiveBody(events: seq<Event>, i: nat, j: nat)
    requires IsRun(EMPTY, events)
    requires i < |After(EMPTY, events).jobs| && j < |After(EMPTY, events).jobs|
    requires After(EMPTY, events).jobs[i].phase.Active? || After(EMPTY, events).jobs[i].phase.Ended?
    requires After(EMPTY, events).jobs[j].phase.Active? || After(EMPTY, events).jobs[j].phase.Ended?
    ensures i == j
  {
    RunKeeps(EMPTY, events);
  }

  // ----- order -----

  /** The jobs whose bodies start in a run, in the order they start. */
  function Starts(events: seq<Event>): seq<nat> {
    if events == [] then []
    else
      var last := events[|events| - 1];
      Starts(events[..|events| - 1]) + (if last.Start? then [last.i] else [])
  }

  function UpTo(n: nat): seq<nat> {
    seq(n, i requires 0 <= i < n => i)
  }

  ghost predicate EnteredAre(q: Queue, n: nat) {
    n <= |q.jobs| && forall i :: 0 <= i < |q.jobs| ==> (Entered(q.jobs[i]) <==> i < n)
  }

  lemma {:induction false} RunSnoc(q: Queue, events: seq<Event>)
    requires events != [] && IsRun(q, events)
    ensures IsRun(q, events[..|events| - 1])
    ensures Enabled(After(q, events[..|events| - 1]), events[|events| - 1])
    ensures After(q, events) == Apply(After(q, events[..|events| - 1]), events[|events| - 1])
    decreases |events|
  {
    if |events| > 1 {
      RunSnoc(Apply(q, events[0]), events[1..]);
      assert events[1..][..|events| - 2] == events[..|events| - 1][1..];
    }
  }

  lemma StartIsNext(q: Queue, n: nat, e: Event)
    requires Chained(q) && EnteredAre(q, n) && Enabled(q, e)
    ensures e.Start? ==> e.i == n
    ensures EnteredAre(Apply(q, e), if e.Start? then n + 1 else n)
  {
  }

  lemma {:induction false} StartsAlong(events: seq<Event>)
    requires IsRun(EMPTY, events)
    ensures Starts(events) == UpTo(|Starts(events)|)
    ensures EnteredAre(After(EMPTY, events), |Starts(events)|)
    decreases |events|
  {
    if events != [] {
      var before, e := events[..|events| - 1], events[|events| - 1];
      RunSnoc(EMPTY, events);
      StartsAlong(before);
      RunKeeps(EMPTY, before);
      StartIsNext(After(EMPTY, before), |Starts(before)|, e);
    }
  }

  /** Bodies start in acceptance order: the starts of a run are job 0, job 1, and so on, with no gap and no repeat. */
  lemma StartsInAcceptanceOrder(events: seq<Event>, k: nat)
    requires IsRun(EMPTY, events) && k < |Starts(events)|
    ensures Starts(events)[k] == k
  {
    StartsAlong(events);
  }

  // ----- progress -----

  /** What the first unsettled job does next, whatever happened to the jobs before it. */
  function NextOf(i: nat, phase: Phase): Event {
    match phase
    case Waiting => Start(i)
    case Active => End(i, true)
    case _ => Settle(i)
  }

  ghost predicate FirstUnsettled(q: Queue, i: nat) {
    && i < |q.jobs| && !q.jobs[i].phase.Settled?
    && forall j :: 0 <= j < i ==> q.jobs[j].phase.Settled?
  }

  /** A failed job blocks nobody: the first unsettled job can always move, and everyone behind it is still waiting. */
  lemma NeverBlocked(events: seq<Event>, i: nat)
    requires IsRun(EMPTY, events) && FirstUnsettled(After(EMPTY, events), i)
    ensures var q := After(EMPTY, events);
            && Enabled(q, NextOf(i, q.jobs[i].phase))
            && forall j :: i < j < |q.jobs| ==> q.jobs[j].phase == Waiting
  {
    RunKeeps(EMPTY, events);
  }

  function Left(phase: Phase): nat {
    match phase
    case Waiting => 3
    case Active => 2
    case Ended(_) => 1
    case Settled(_) => 0
  }

  function Work(jobs: seq<Job>): nat {
    if jobs == [] then 0 else Work(jobs[..|jobs| - 1]) + Left(jobs[|jobs| - 1].phase)
  }

  lemma {:induction false} WorkUpdate(jobs: seq<Job>, i: nat, phase: Phase)
    requires i < |jobs|
    ensures Work(jobs[i := jobs[i].(phase := phase)]) == Work(jobs) + Left(phase) - Left(jobs[i].phase)
  {
    var n, changed := |jobs| - 1, jobs[i := jobs[i].(phase := phase)];
    if i < n {
      assert changed[..n] == jobs[..n][i := jobs[i].(phase := phase)];
      WorkUpdate(jobs[..n], i, phase);
    } else {
      assert changed[..n] == jobs[..n];
    }
  }

  lemma StepWorks(q: Queue, e: Event)
    requires Enabled(q, e) && !e.Submit?
    ensures Work(Apply(q, e).jobs) == Work(q.jobs) - 1
  {
    match e
    case Start(i) => WorkUpdate(q.jobs, i, Active);
    case End(i, ok) => WorkUpdate(q.jobs, i, Ended(ok));
    case Settle(i) => WorkUpdate(q.jobs, i, Settled(q.jobs[i].phase.ok));
  }

  lemma {:induction false} WorkBound(jobs: seq<Job>)
    ensures Work(jobs) <= 3 * Unsettled(jobs)
    ensures Work(jobs) == 0 ==> Unsettled(jobs) == 0
  {
    if jobs != [] {
      WorkBound(jobs[..|jobs| - 1]);
    }
  }

  /** Without new submissions the queue empties: at most 12 more events are possible from any reachable state. */
  lemma {:induction false} Drains(q: Queue, events: seq<Event>)
    requires Chained(q) && Counted(q) && IsRun(q, events)
    requires forall k :: 0 <= k < |events| ==> !events[k].Submit?
    ensures |events| + Work(After(q, events).jobs) == Work(q.jobs) <= 12
    decreases |events|
  {
    WorkBound(q.jobs);
    if events != [] {
      StepKeepsChain(q, events[0]);
      StepKeepsCount(q, events[0]);
      StepWorks(q, events[0]);
      Drains(Apply(q, events[0]), events[1..]);
    }
  }

  // ----- the module variables and the functions that change them -----

  datatype Accepted = Queued(job: nat) | ServerBusy

  class PhotoUploads {
    var queueTail: nat
    var queueDepth: int
    var jobs: seq<Job>

    function State(): Queue
      reads this
    {
      Queue(queueTail, queueDepth, jobs)
    }

    ghost predicate Valid()
      reads this
    {
      Chained(State()) && Counted(State())
    }

    constructor ()
      ensures Valid() && State() == EMPTY
    {
      queueTail, queueDepth, jobs := 0, 0, [];
    }

    /** The check made before the request body is staged on disk. */
    method AssertPhotoUploadCapacity() returns (busy: bool)
      requires Valid()
      ensures busy <==> Unsettled(jobs) == 4
    {
      busy := queueDepth >= MAX_UPLOAD_QUEUE_DEPTH;
    }

    method WithUploadLock() returns (r: Accepted)
      requires Valid()
      modifies this
      ensures Valid() && State() == Apply(old(State()), Submit)
      ensures r.ServerBusy? <==> old(Unsettled(jobs)) == 4
      ensures r.Queued? ==> r.job == old(|jobs|) < |jobs| && jobs[r.job] == Job(r.job, Waiting)
      ensures r.ServerBusy? ==> State() == old(State())
    {
      StepKeepsChain(State(), Submit);
      StepKeepsCount(State(), Submit);
      if queueDepth >= MAX_UPLOAD_QUEUE_DEPTH {
        return ServerBusy;
      }
      queueDepth := queueDepth + 1;
      jobs := jobs + [Job(queueTail, Waiting)];
      queueTail := |jobs|;
      r := Queued(|jobs| - 1);
    }

    /** `run`: called when the promise the job hangs on has settled, either way. */
    method Run(i: nat) returns (depthAtAcquire: int)
      requires Valid() && Enabled(State(), Start(i))
      modifies this`jobs
      ensures Valid() && State() == Apply(old(State()), Start(i))
      ensures 1 <= depthAtAcquire <= 4
    {
      StepKeepsChain(State(), Start(i));
      StepKeepsCount(State(), Start(i));
      depthAtAcquire := queueDepth;
      jobs := jobs[i := jobs[i].(phase := Active)];
      UnsettledPositive(jobs, i);
    }

    /** The promise returned by the body settles. */
    method BodyEnds(i: nat, ok: bool)
      requires Valid() && Enabled(State(), End(i, ok))
      modifies this`jobs
      ensures Valid() && State() == Apply(old(State()), End(i, ok))
    {
      StepKeepsChain(State(), End(i, ok));
      StepKeepsCount(State(), End(i, ok));
      jobs := jobs[i := jobs[i].(phase := Ended(ok))];
    }

    /** The `finally` callback, after which the result and the tail settle. */
    method Release(i: nat)
      requires Valid() && Enabled(State(), Settle(i))
      modifies this
      ensures Valid() && State() == Apply(old(State()), Settle(i))
      ensures Unsettled(jobs) == old(Unsettled(jobs)) - 1
    {
      StepKeepsChain(State(), Settle(i));
      StepKeepsCount(State(), Settle(i));
      queueDepth := queueDepth - 1;
      jobs := jobs[i := jobs[i].(phase := Settled(jobs[i].phase.ok))];
    }
  }

  lemma {:induction false} UnsettledPositive(jobs: seq<Job>, i: nat)
    requires i < |jobs| && !jobs[i].phase.Settled?
    ensures Unsettled(jobs) >= 1
  {
    if i < |jobs| - 1 {
      UnsettledPositive(jobs[..|jobs| - 1], i);
    }
  }
}
