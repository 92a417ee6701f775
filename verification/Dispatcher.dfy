/** The in-memory side of one runtime: its tick loop, its capacity counters and its drain handshake. */
module Dispatcher {
  import opened Values

  datatype Queue = Queue(name: string, concurrency: nat)

  datatype Config = Config(auto: bool, globalConcurrency: nat, queues: seq<Queue>)

  datatype Launched = Launched(row: string, queue: Option<string>)

  /** inFlight, perQueueInFlight and inFlightWorkers, and the workers whose finally block has not run. */
  datatype Pool = Pool(
    inFlight: set<string>,
    perQueue: map<string, int>,
    unfinished: map<nat, Launched>,
    promises: set<nat>)

  /**
   * A tick is about to look at queue number `next` (the last one being the unnamed queue), or awaits its claim
   * there.
   */
  datatype Tick = Looking(next: nat) | Awaiting(next: nat, capacity: nat)

  /** The auto loop: its running ticks, and its pending timers and registered wake listeners, numbered by pair. */
  datatype Loop = Loop(started: bool, active: bool, ticks: set<nat>, timers: set<nat>, listeners: set<nat>)

  /** Where runDrain is: not running, in a tick, awaiting a batch of workers, or over with its finally still queued. */
  datatype Runner = Idle | Ticking(t: nat) | Settling(batch: set<nat>) | Leaving

  /** `calls` counts drain() calls; `served` is their number when runDrain last started a tick. */
  datatype Drain = Drain(requested: bool, runner: Runner, calls: nat, served: nat)

  datatype Runtime = Runtime(config: Config, pool: Pool, ticks: map<nat, Tick>, loop: Loop, drain: Drain)

  function Boot(config: Config): Runtime {
    Runtime(config, Pool({}, map i | 0 <= i < |config.queues| :: config.queues[i].name := 0, map[], {}), map[],
            Loop(false, false, {}, {}, {}), Drain(false, Idle, 0, 0))
  }

  // ----- the counters -----

  function Used(perQueue: map<string, int>, name: string): int {
    if name in perQueue then perQueue[name] else 0
  }

  function CapacityRemaining(c: Config, p: Pool): nat {
    Max(0, c.globalConcurrency - |p.inFlight|)
  }

  /** capacityForQueue; the unnamed queue is number |queues|. */
  function CapacityFor(c: Config, p: Pool, next: nat): nat {
    if next < |c.queues|
    then Max(0, Min(CapacityRemaining(c, p), c.queues[next].concurrency - Used(p.perQueue, c.queues[next].name)))
    else CapacityRemaining(c, p)
  }

  function NameOf(c: Config, next: nat): Option<string> {
    if next < |c.queues| then Some(c.queues[next].name) else None
  }

  /** launchWorker */
  function Launch(p: Pool, w: nat, row: string, queue: Option<string>): Pool {
    Pool(p.inFlight + {row},
         if queue.Some? then p.perQueue[queue.value := Used(p.perQueue, queue.value) + 1] else p.perQueue,
         p.unfinished[w := Launched(row, queue)],
         p.promises + {w})
  }

  function LaunchAll(p: Pool, ws: seq<nat>, rows: seq<string>, queue: Option<string>): Pool
    requires |ws| == |rows|
  {
    if ws == [] then p
    else Launch(LaunchAll(p, ws[..|ws| - 1], rows[..|rows| - 1], queue), ws[|ws| - 1], rows[|rows| - 1], queue)
  }

  /** The finally block of a worker. */
  function Finish(p: Pool, w: nat): Pool
    requires w in p.unfinished
  {
    var l := p.unfinished[w];
    p.(inFlight := p.inFlight - {l.row},
       perQueue := if l.queue.None? then p.perQueue
                   else var n := if l.queue.value in p.perQueue then p.perQueue[l.queue.value] else 1;
                        p.perQueue[l.queue.value := Max(0, n - 1)],
       unfinished := p.unfinished - {w})
  }

  // ----- the atomic sections -----

  datatype Event =
    | Start(t: nat)                                   // start(): in auto mode its first tick begins
    | TimerFires(pair: nat, t: nat)                   // a timer of the auto loop: it removes its listener
    | Wakes(pair: nat, t: nat)                        // a wake reaches a listener: it clears its timer
    | AutoTickEnds(t: nat, pair: nat)                 // its tick resolves or rejects, and its finally arms a pair
    | Stop
    | Look(t: nat)                                    // a tick reads a capacity and sends its claim, or skips it
    | Claims(t: nat, ws: seq<nat>, rows: seq<string>) // the claim answers and its workers are launched
    | WorkerEnds(w: nat)
    | Forget(w: nat)                                  // the worker's promise leaves inFlightWorkers
    | DrainCall(t: nat)
    | DrainTickEnds(t: nat, next: nat)                // the drain's tick resolves
    | DrainTickFails(t: nat)                          // the drain's tick rejects
    | Settled(t: nat)                                 // the awaited batch has settled
    | FinallyRuns(t: nat)                             // the finally of runDrain

  /** dispatchTick returns at once when the dispatcher is not active. */
  function NewTick(r: Runtime): Tick {
    if r.loop.active then Looking(0) else Looking(|r.config.queues| + 1)
  }

  /** The timer is spent, and its callback takes the listener off. */
  function OnTimer(loop: Loop, pair: nat): Loop {
    var spent := loop.(timers := loop.timers - {pair});
    spent.(listeners := spent.listeners - {pair})
  }

  /** The listener was registered for one wake, and it clears the timer. */
  function OnWake(loop: Loop, pair: nat): Loop {
    var spent := loop.(listeners := loop.listeners - {pair});
    spent.(timers := spent.timers - {pair})
  }

  function StartAuto(r: Runtime, t: nat): Runtime {
    if r.loop.active then r.(ticks := r.ticks[t := NewTick(r)], loop := r.loop.(ticks := r.loop.ticks + {t})) else r
  }

  /** runDrain starts a tick of its own. */
  function StartDrainTick(r: Runtime, t: nat, requested: bool): Runtime {
    r.(ticks := r.ticks[t := NewTick(r)], drain := Drain(requested, Ticking(t), r.drain.calls, r.drain.calls))
  }

  predicate Over(r: Runtime, t: nat) {
    t in r.ticks && r.ticks[t] == Looking(|r.config.queues| + 1)
  }

  /**
   * The drain's tick has returned, and runDrain looks at inFlightWorkers in the next microtask. A promise whose worker
   * ended before the tick returned has left by then; one whose worker ends in between leaves later.
   */
  predicate SeenOver(r: Runtime) {
    r.drain.runner.Ticking? && Over(r, r.drain.runner.t)
  }

  predicate Distinct<T(==)>(s: seq<T>) {
    forall i, j :: 0 <= i < j < |s| ==> s[i] != s[j]
  }

  predicate Enabled(r: Runtime, e: Event) {
    match e
    case Start(t) => !r.loop.started && t !in r.ticks
    case TimerFires(pair, t) => pair in r.loop.timers && t !in r.ticks
    case Wakes(pair, t) => pair in r.loop.listeners && t !in r.ticks
    case AutoTickEnds(t, pair) =>
      t in r.loop.ticks && t in r.ticks && pair !in r.loop.timers && pair !in r.loop.listeners
    case Stop => r.loop.active
    case Look(t) => t in r.ticks && r.ticks[t].Looking? && r.ticks[t].next <= |r.config.queues|
    case Claims(t, ws, rows) =>
      && t in r.ticks && r.ticks[t].Awaiting?
      && |ws| == |rows| <= r.ticks[t].capacity && Distinct(ws) && Distinct(rows)
      && (forall i :: 0 <= i < |ws| ==> ws[i] !in r.pool.unfinished && ws[i] !in r.pool.promises)
    case WorkerEnds(w) => w in r.pool.unfinished
    case Forget(w) => w in r.pool.promises && w !in r.pool.unfinished && !SeenOver(r)
    case DrainCall(t) => t !in r.ticks
    case DrainTickEnds(t, next) => r.drain.runner == Ticking(t) && Over(r, t) && next !in r.ticks
    case DrainTickFails(t) => r.drain.runner == Ticking(t)
    case Settled(t) =>
      r.drain.runner.Settling? && r.drain.runner.batch !! r.pool.unfinished.Keys && t !in r.ticks
    case FinallyRuns(t) => r.drain.runner.Leaving? && t !in r.ticks
  }

  function Apply(r: Runtime, e: Event): Runtime
    requires Enabled(r, e)
  {
    match e
    case Start(t) =>
      var s := r.(loop := r.loop.(started := true, active := true));
      if r.config.auto then StartAuto(s, t) else s
    case TimerFires(pair, t) => StartAuto(r.(loop := OnTimer(r.loop, pair)), t)
    case Wakes(pair, t) => StartAuto(r.(loop := OnWake(r.loop, pair)), t)
    case AutoTickEnds(t, pair) =>
      var loop := r.loop.(ticks := r.loop.ticks - {t});
      r.(ticks := r.ticks - {t},
         loop := if !loop.active then loop
                 else loop.(timers := loop.timers + {pair}, listeners := loop.listeners + {pair}))
    case Stop => r.(loop := r.loop.(active := false))
    case Look(t) =>
      var next := r.ticks[t].next;
      var capacity := CapacityFor(r.config, r.pool, next);
      r.(ticks := r.ticks[t := if capacity == 0 then Looking(next + 1) else Awaiting(next, capacity)])
    case Claims(t, ws, rows) =>
      var next := r.ticks[t].next;
      r.(ticks := r.ticks[t := Looking(next + 1)], pool := LaunchAll(r.pool, ws, rows, NameOf(r.config, next)))
    case WorkerEnds(w) => r.(pool := Finish(r.pool, w))
    case Forget(w) => r.(pool := r.pool.(promises := r.pool.promises - {w}))
    case DrainCall(t) =>
      var s := r.(drain := r.drain.(calls := r.drain.calls + 1, requested := true));
      if r.drain.runner.Idle? then StartDrainTick(s, t, false) else s
    case DrainTickEnds(t, next) =>
      var s := r.(ticks := r.ticks - {t});
      if r.pool.promises != {} then s.(drain := r.drain.(runner := Settling(r.pool.promises)))
      else if r.drain.requested then StartDrainTick(s, next, false)
      else s.(drain := r.drain.(runner := Leaving))
    case DrainTickFails(t) => r.(ticks := r.ticks - {t}, drain := r.drain.(runner := Leaving))
    case Settled(t) => StartDrainTick(r, t, r.drain.requested)
    case FinallyRuns(t) =>
      if r.drain.requested then StartDrainTick(r, t, false) else r.(drain := r.drain.(runner := Idle))
  }

  ghost predicate IsRun(run: seq<Runtime>, events: seq<Event>) {
    && |run| == |events| + 1
    && run[0] == Boot(run[0].config)
    && DistinctQueues(run[0].config)
    && forall i :: 0 <= i < |events| ==> Enabled(run[i], events[i]) && run[i + 1] == Apply(run[i], events[i])
  }

  /** registerQueue refuses a name it already has. */
  ghost predicate DistinctQueues(c: Config) {
    forall i, j :: 0 <= i < j < |c.queues| ==> c.queues[i].name != c.queues[j].name
  }

  ghost predicate Leads(r: Runtime, e: Event, s: Runtime) {
    Enabled(r, e) && s == Apply(r, e)
  }

  lemma RunOf(run: seq<Runtime>, events: seq<Event>, config: Config)
    requires |run| == |events| + 1 && run[0] == Boot(config) && DistinctQueues(config)
    requires forall i :: 0 <= i < |events| ==> Leads(run[i], events[i], run[i + 1])
    ensures IsRun(run, events)
  {
    forall i | 0 <= i < |events| ensures Enabled(run[i], events[i]) && run[i + 1] == Apply(run[i], events[i]) {
      assert Leads(run[i], events[i], run[i + 1]);
    }
  }

  // ----- what a tick does at each queue -----

  /**
   * A tick sends a claim exactly where there is a free place, for as many rows as there are: the places left of the
   * global cap, and at a named queue at most those its counter leaves. The answer launches its rows for that queue.
   */
  lemma LookStep(r: Runtime, t: nat)
    requires Enabled(r, Look(t))
    ensures var next := r.ticks[t].next;
            var global := r.config.globalConcurrency - |r.pool.inFlight|;
            var own := if next < |r.config.queues|
                       then r.config.queues[next].concurrency - Used(r.pool.perQueue, r.config.queues[next].name)
                       else global;
            var free := if own < global then own else global;
            Apply(r, Look(t)) == r.(ticks := r.ticks[t := if free > 0 then Awaiting(next, free) else Looking(next + 1)])
  {
  }

  // ----- no drain request is lost -----

  /** A call that no tick has followed yet is remembered by the flag, and somebody is there to see the flag. */
  ghost predicate RequestKept(d: Drain) {
    && d.served <= d.calls
    && (d.served < d.calls ==> d.requested)
    && (d.requested ==> !d.runner.Idle?)
  }

  lemma RequestKeptStep(r: Runtime, e: Event)
    requires Enabled(r, e) && RequestKept(r.drain)
    ensures RequestKept(Apply(r, e).drain)
  {
  }

  /** The flag is raised by a call that finds a drain running, and taken down only where a new pass begins. */
  lemma FlagStep(r: Runtime, e: Event)
    requires Enabled(r, e)
    ensures Apply(r, e).drain.requested ==
            match e
            case DrainCall(_) => r.drain.runner != Idle
            case DrainTickEnds(_, _) => r.drain.requested && r.pool.promises != {}
            case FinallyRuns(_) => false
            case _ => r.drain.requested
  {
  }

  /**
   * For every interleaving of drain() calls with the ticks, settlements, rejections and finally blocks of runDrain:
   * whenever no drain is running, no request is pending and a tick has started after every call made so far.
   */
  lemma {:induction false} NoLostDrainRequest(run: seq<Runtime>, events: seq<Event>, i: nat)
    requires IsRun(run, events) && i < |run|
    ensures RequestKept(run[i].drain)
    ensures run[i].drain.runner.Idle? ==> !run[i].drain.requested && run[i].drain.served == run[i].drain.calls
  {
    if i > 0 {
      NoLostDrainRequest(run, events, i - 1);
      RequestKeptStep(run[i - 1], events[i - 1]);
    }
  }

  // ----- the auto loop -----

  /**
   * A timer is pending exactly when its listener is registered, and there is never more than one of a running tick
   * and such a pair; while the auto loop is on there is exactly one.
   */
  ghost predicate AutoLoop(r: Runtime) {
    && r.loop.timers == r.loop.listeners
    && (!r.config.auto ==> r.loop.ticks == {} && r.loop.timers == {})
    && |r.loop.ticks| + |r.loop.timers| <= 1
    && (r.config.auto && r.loop.active ==> |r.loop.ticks| + |r.loop.timers| == 1)
    && (!r.loop.started ==> r.loop.ticks == {} && r.loop.timers == {} && !r.loop.active)
  }

  lemma Singleton(s: set<nat>, t: nat)
    ensures s == {} ==> |s + {t}| == 1
    ensures t in s ==> |s - {t}| == |s| - 1
  {
    if s == {} {
      assert s + {t} == {t};
    }
  }

  /** Whichever of the two handlers of a pair runs, it leaves neither armed. */
  lemma HandlersDisarm(loop: Loop, pair: nat)
    requires loop.timers == loop.listeners && |loop.ticks| + |loop.timers| <= 1 && pair in loop.timers
    ensures OnTimer(loop, pair) == OnWake(loop, pair) == loop.(timers := {}, listeners := {}) && loop.ticks == {}
  {
    Singleton(loop.timers, pair);
    assert loop.timers - {pair} == {};
  }

  lemma HandlerStep(r: Runtime, e: Event)
    requires Enabled(r, e) && AutoLoop(r) && (e.TimerFires? || e.Wakes?)
    ensures AutoLoop(Apply(r, e))
  {
    HandlersDisarm(r.loop, e.pair);
    Singleton({}, e.t);
  }

  lemma TickEndStep(r: Runtime, e: Event)
    requires Enabled(r, e) && AutoLoop(r) && e.AutoTickEnds?
    ensures AutoLoop(Apply(r, e))
  {
    Singleton(r.loop.ticks, e.t);
    Singleton(r.loop.timers, e.pair);
    assert r.loop.timers == {} && r.loop.ticks - {e.t} == {};
  }

  lemma AutoLoopStep(r: Runtime, e: Event)
    requires Enabled(r, e) && AutoLoop(r)
    ensures AutoLoop(Apply(r, e))
  {
    if e.TimerFires? || e.Wakes? {
      HandlerStep(r, e);
    } else if e.AutoTickEnds? {
      TickEndStep(r, e);
    } else if e.Start? {
      Singleton(r.loop.ticks, e.t);
    }
  }

  /**
   * In every run, drain() calls or not: timer and listener always disarm each other, so never do both start a tick,
   * the auto loop's own ticks never overlap, and while it is on it never stalls.
   */
  lemma {:induction false} AutoLoopAlways(run: seq<Runtime>, events: seq<Event>, i: nat)
    requires IsRun(run, events) && i < |run|
    ensures AutoLoop(run[i])
  {
    if i > 0 {
      AutoLoopAlways(run, events, i - 1);
      AutoLoopStep(run[i - 1], events[i - 1]);
    }
  }

  // ----- when ticks do not overlap -----

  /** A running tick belongs to the auto loop or to the drain. */
  ghost predicate TicksOwned(r: Runtime) {
    forall t :: t in r.ticks ==> t in r.loop.ticks || r.drain.runner == Ticking(t)
  }

  lemma TicksOwnedStep(r: Runtime, e: Event)
    requires Enabled(r, e) && TicksOwned(r)
    ensures TicksOwned(Apply(r, e))
  {
  }

  /** One mode at a time: the auto loop ticks without drain() calls, or drains tick without an auto loop. */
  ghost predicate OneDriver(r: Runtime, e: Event) {
    r.config.auto ==> !e.DrainCall?
  }

  ghost predicate NoDrainInAuto(r: Runtime) {
    r.config.auto ==> r.drain.runner.Idle? && !r.drain.requested
  }

  lemma NoDrainStep(r: Runtime, e: Event)
    requires Enabled(r, e) && OneDriver(r, e) && NoDrainInAuto(r)
    ensures NoDrainInAuto(Apply(r, e))
  {
  }

  ghost predicate OneTickAtMost(r: Runtime) {
    forall t, u :: t in r.ticks && u in r.ticks ==> t == u
  }

  lemma OneTick(r: Runtime)
    requires TicksOwned(r) && AutoLoop(r) && NoDrainInAuto(r)
    ensures OneTickAtMost(r)
  {
    forall t, u | t in r.ticks && u in r.ticks ensures t == u {
      if t in r.loop.ticks && u in r.loop.ticks && t != u {
        SubsetSize({t, u}, r.loop.ticks);
      }
    }
  }

  /** With one driver at a time no two ticks overlap. */
  lemma {:induction false} OneDriverNeverOverlaps(run: seq<Runtime>, events: seq<Event>, i: nat)
    requires IsRun(run, events) && i < |run|
    requires forall k :: 0 <= k < |events| ==> OneDriver(run[k], events[k])
    ensures TicksOwned(run[i]) && NoDrainInAuto(run[i]) && OneTickAtMost(run[i])
  {
    if i > 0 {
      OneDriverNeverOverlaps(run, events, i - 1);
      TicksOwnedStep(run[i - 1], events[i - 1]);
      NoDrainStep(run[i - 1], events[i - 1]);
    }
    AutoLoopAlways(run, events, i);
    OneTick(run[i]);
  }

  // ----- the counters stay within their caps -----

  ghost function OnQueue(unfinished: map<nat, Launched>, name: string): set<nat> {
    set w | w in unfinished && unfinished[w].queue == Some(name)
  }

  /** Every counter is the number of unfinished workers of its queue. */
  ghost predicate Counted(c: Config, p: Pool) {
    && (forall name :: name in p.perQueue ==> p.perQueue[name] == |OnQueue(p.unfinished, name)|)
    && (forall w :: w in p.unfinished && p.unfinished[w].queue.Some? ==> p.unfinished[w].queue.value in p.perQueue)
    && (forall i :: 0 <= i < |c.queues| ==> c.queues[i].name in p.perQueue)
  }

  ghost predicate WithinCaps(c: Config, p: Pool) {
    && |p.inFlight| <= c.globalConcurrency
    && (forall i :: 0 <= i < |c.queues| ==> Used(p.perQueue, c.queues[i].name) <= c.queues[i].concurrency)
  }

  /** `capacity` more workers may be launched on queue number `next`. */
  ghost predicate Fits(c: Config, p: Pool, next: nat, capacity: nat) {
    && |p.inFlight| + capacity <= c.globalConcurrency
    && (next < |c.queues| ==> Used(p.perQueue, c.queues[next].name) + capacity <= c.queues[next].concurrency)
  }

  /** What ticks have asked for still fits. */
  ghost predicate PromisesFit(r: Runtime) {
    forall t :: t in r.ticks && r.ticks[t].Awaiting? ==> Fits(r.config, r.pool, r.ticks[t].next, r.ticks[t].capacity)
  }

  lemma OnQueueLaunch(unfinished: map<nat, Launched>, w: nat, l: Launched, name: string)
    requires w !in unfinished
    ensures |OnQueue(unfinished[w := l], name)| == |OnQueue(unfinished, name)| + if l.queue == Some(name) then 1 else 0
  {
    var before, after := OnQueue(unfinished, name), OnQueue(unfinished[w := l], name);
    assert after == if l.queue == Some(name) then before + {w} else before;
  }

  lemma OnQueueFinish(unfinished: map<nat, Launched>, w: nat, name: string)
    requires w in unfinished
    ensures |OnQueue(unfinished - {w}, name)| ==
            |OnQueue(unfinished, name)| - if unfinished[w].queue == Some(name) then 1 else 0
  {
    var before, after := OnQueue(unfinished, name), OnQueue(unfinished - {w}, name);
    assert after == if unfinished[w].queue == Some(name) then before - {w} else before;
  }

  /** `s` has `n` more workers on `queue` than `p`, and otherwise the same counters. */
  ghost predicate Grown(p: Pool, s: Pool, queue: Option<string>, n: nat) {
    && s.perQueue.Keys == p.perQueue.Keys && |s.inFlight| <= |p.inFlight| + n
    && forall name :: name in p.perQueue ==>
         s.perQueue[name] == p.perQueue[name] + if queue == Some(name) then n else 0
  }

  lemma LaunchCounts(c: Config, p: Pool, w: nat, row: string, queue: Option<string>)
    requires Counted(c, p) && w !in p.unfinished && (queue.Some? ==> queue.value in p.perQueue)
    ensures Counted(c, Launch(p, w, row, queue)) && Grown(p, Launch(p, w, row, queue), queue, 1)
  {
    forall name ensures |OnQueue(p.unfinished[w := Launched(row, queue)], name)| ==
                        |OnQueue(p.unfinished, name)| + if queue == Some(name) then 1 else 0
    {
      OnQueueLaunch(p.unfinished, w, Launched(row, queue), name);
    }
  }

  lemma {:induction false} LaunchAllCounts(c: Config, p: Pool, ws: seq<nat>, rows: seq<string>, queue: Option<string>)
    requires Counted(c, p) && |ws| == |rows| && Distinct(ws) && (queue.Some? ==> queue.value in p.perQueue)
    requires forall i :: 0 <= i < |ws| ==> ws[i] !in p.unfinished
    ensures Counted(c, LaunchAll(p, ws, rows, queue)) && Grown(p, LaunchAll(p, ws, rows, queue), queue, |ws|)
  {
    if ws != [] {
      var n := |ws| - 1;
      LaunchAllCounts(c, p, ws[..n], rows[..n], queue);
      LaunchAllUnfinished(p, ws[..n], rows[..n], queue, ws[n]);
      LaunchCounts(c, LaunchAll(p, ws[..n], rows[..n], queue), ws[n], rows[n], queue);
    }
  }

  lemma {:induction false} LaunchAllUnfinished(p: Pool, ws: seq<nat>, rows: seq<string>, queue: Option<string>, w: nat)
    requires |ws| == |rows| && w !in p.unfinished && w !in ws
    ensures w !in LaunchAll(p, ws, rows, queue).unfinished
  {
    if ws != [] {
      LaunchAllUnfinished(p, ws[..|ws| - 1], rows[..|rows| - 1], queue, w);
    }
  }

  /** If only queue `next` grew, by no more than fitted, everything is still within its caps. */
  lemma GrownWithinCaps(c: Config, p: Pool, s: Pool, next: nat, n: nat)
    requires DistinctQueues(c) && Counted(c, p) && WithinCaps(c, p) && Fits(c, p, next, n)
    requires Grown(p, s, NameOf(c, next), n)
    ensures WithinCaps(c, s)
  {
    forall i | 0 <= i < |c.queues| ensures Used(s.perQueue, c.queues[i].name) <= c.queues[i].concurrency {
      assert Used(p.perQueue, c.queues[i].name) <= c.queues[i].concurrency;
    }
  }

  /** A finally block keeps the counters right, and the one it lowers was at least one: the clamp does nothing. */
  lemma FinishCounts(c: Config, p: Pool, w: nat)
    requires w in p.unfinished && Counted(c, p)
    ensures Counted(c, Finish(p, w))
    ensures p.unfinished[w].queue.Some? ==> p.perQueue[p.unfinished[w].queue.value] >= 1
  {
    var l := p.unfinished[w];
    forall name ensures |OnQueue(p.unfinished - {w}, name)| ==
                        |OnQueue(p.unfinished, name)| - if l.queue == Some(name) then 1 else 0
    {
      OnQueueFinish(p.unfinished, w, name);
    }
    assert l.queue.Some? ==> w in OnQueue(p.unfinished, l.queue.value);
  }

  lemma FinishKeepsCaps(c: Config, p: Pool, w: nat)
    requires w in p.unfinished && Counted(c, p) && WithinCaps(c, p)
    ensures Counted(c, Finish(p, w)) && WithinCaps(c, Finish(p, w))
    ensures forall next, capacity :: Fits(c, p, next, capacity) ==> Fits(c, Finish(p, w), next, capacity)
    ensures p.unfinished[w].queue.Some? ==> p.perQueue[p.unfinished[w].queue.value] >= 1
  {
    FinishCounts(c, p, w);
    SubsetSize(p.inFlight - {p.unfinished[w].row}, p.inFlight);
  }

  lemma CountedStep(r: Runtime, e: Event)
    requires Enabled(r, e) && Counted(r.config, r.pool)
    ensures Counted(r.config, Apply(r, e).pool) && Apply(r, e).config == r.config
  {
    match e {
      case Claims(t, ws, rows) => LaunchAllCounts(r.config, r.pool, ws, rows, NameOf(r.config, r.ticks[t].next));
      case WorkerEnds(w) => FinishCounts(r.config, r.pool, w);
      case _ =>
    }
  }

  /**
   * In every run, overlapping ticks included: each counter is the number of unfinished workers of its queue, and a
   * counter that is about to go down is at least one.
   */
  lemma {:induction false} CountersAreRight(run: seq<Runtime>, events: seq<Event>, i: nat)
    requires IsRun(run, events) && i < |run|
    ensures Counted(run[i].config, run[i].pool)
    ensures i < |events| && events[i].WorkerEnds? && run[i].pool.unfinished[events[i].w].queue.Some? ==>
              run[i].pool.perQueue[run[i].pool.unfinished[events[i].w].queue.value] >= 1
  {
    if i == 0 {
      assert forall name :: OnQueue(run[0].pool.unfinished, name) == {};
    } else {
      CountersAreRight(run, events, i - 1);
      CountedStep(run[i - 1], events[i - 1]);
    }
    if i < |events| && events[i].WorkerEnds? {
      FinishCounts(run[i].config, run[i].pool, events[i].w);
    }
  }

  ghost predicate Capped(r: Runtime) {
    DistinctQueues(r.config) && Counted(r.config, r.pool) && WithinCaps(r.config, r.pool) && PromisesFit(r)
  }

  lemma CappedStep(r: Runtime, e: Event)
    requires Enabled(r, e) && Capped(r) && OneTickAtMost(r)
    ensures Capped(Apply(r, e))
  {
    match e {
      case Claims(t, ws, rows) =>
        var next := r.ticks[t].next;
        LaunchAllCounts(r.config, r.pool, ws, rows, NameOf(r.config, next));
        GrownWithinCaps(r.config, r.pool, LaunchAll(r.pool, ws, rows, NameOf(r.config, next)), next, |ws|);
      case WorkerEnds(w) =>
        FinishKeepsCaps(r.config, r.pool, w);
      case _ =>
    }
  }

  /**
   * As long as ticks have not overlapped, every queue is within its concurrency and the rows in flight within the
   * global cap.
   */
  lemma {:induction false} ConcurrencyCaps(run: seq<Runtime>, events: seq<Event>, i: nat)
    requires IsRun(run, events) && i < |run|
    requires forall k :: 0 <= k < i ==> OneTickAtMost(run[k])
    ensures Capped(run[i])
  {
    if i == 0 {
      assert forall name :: OnQueue(run[0].pool.unfinished, name) == {};
    } else {
      ConcurrencyCaps(run, events, i - 1);
      CappedStep(run[i - 1], events[i - 1]);
    }
  }

  const CROWDED := Boot(Config(true, 1, []))
  const OVERLAP: seq<Event> :=
    [Start(0), DrainCall(1), Look(0), Look(1), Claims(0, [0], ["first"]), Claims(1, [1], ["second"])]

  lemma LaunchOnly(p: Pool, w: nat, row: string, queue: Option<string>)
    ensures LaunchAll(p, [w], [row], queue) == Launch(p, w, row, queue)
  {
    assert [w][..0] == [] && [row][..0] == [];
    assert LaunchAll(p, [], [], queue) == p;
  }

  lemma TwoLook() returns (run: seq<Runtime>)
    ensures |run| == 5 && run[0] == CROWDED && forall i :: 0 <= i < 4 ==> Leads(run[i], OVERLAP[i], run[i + 1])
    ensures !OneTickAtMost(run[2])
    ensures run[4].config == CROWDED.config && run[4].pool == CROWDED.pool
    ensures run[4].ticks == map[0 := Awaiting(0, 1), 1 := Awaiting(0, 1)]
  {
    var r1 := Apply(CROWDED, Start(0));
    var r2 := Apply(r1, DrainCall(1));
    assert r2.ticks == map[0 := Looking(0), 1 := Looking(0)];
    var r3 := Apply(r2, Look(0));
    run := [CROWDED, r1, r2, r3, Apply(r3, Look(1))];
  }

  lemma TwoClaim(r: Runtime) returns (s: Runtime, t: Runtime)
    requires r.config == CROWDED.config && r.pool == CROWDED.pool
    requires r.ticks == map[0 := Awaiting(0, 1), 1 := Awaiting(0, 1)]
    ensures Leads(r, OVERLAP[4], s) && Leads(s, OVERLAP[5], t)
    ensures t.config == r.config && |t.pool.inFlight| == 2
  {
    LaunchOnly(r.pool, 0, "first", None);
    s := Apply(r, Claims(0, [0], ["first"]));
    LaunchOnly(s.pool, 1, "second", None);
    t := Apply(s, Claims(1, [1], ["second"]));
    assert t.pool.inFlight == {"first", "second"};
  }

  /** And only so long: a drain() call beside the auto loop can make two ticks fill the same free place. */
  lemma OverlapBreaksTheCap() returns (run: seq<Runtime>)
    ensures IsRun(run, OVERLAP) && run[0] == CROWDED
    ensures !OneTickAtMost(run[2]) && |run[6].pool.inFlight| == 2 > run[6].config.globalConcurrency
  {
    var start := TwoLook();
    var s, t := TwoClaim(start[4]);
    run := start + [s, t];
    forall i | 0 <= i < 6 ensures Leads(run[i], OVERLAP[i], run[i + 1]) {
      assert i < 4 ==> Leads(start[i], OVERLAP[i], start[i + 1]);
    }
    RunOf(run, OVERLAP, Config(true, 1, []));
  }

  // ----- exactly when the caps hold -----

  ghost predicate Reachable(c: Config, r: Runtime) {
    exists run: seq<Runtime>, events: seq<Event> :: IsRun(run, events) && run[0].config == c && run[|events|] == r
  }

  /** Every runtime that this configuration can reach is within all its caps. */
  ghost predicate CapsHold(c: Config) {
    forall r :: Reachable(c, r) ==> WithinCaps(c, r.pool)
  }

  lemma ReachBoot(c: Config)
    requires DistinctQueues(c)
    ensures Reachable(c, Boot(c))
  {
    assert IsRun([Boot(c)], []);
  }

  lemma ReachNext(c: Config, r: Runtime, e: Event)
    requires Reachable(c, r) && Enabled(r, e)
    ensures Reachable(c, Apply(r, e))
  {
    var run: seq<Runtime>, events: seq<Event> :| IsRun(run, events) && run[0].config == c && run[|events|] == r;
    var run', events' := run + [Apply(r, e)], events + [e];
    forall i | 0 <= i < |events'| ensures Leads(run'[i], events'[i], run'[i + 1]) {
      assert i < |events| ==> Leads(run[i], events[i], run[i + 1]);
    }
    RunOf(run', events', c);
  }

  lemma {:induction false} SameConfig(run: seq<Runtime>, events: seq<Event>, i: nat)
    requires IsRun(run, events) && i < |run|
    ensures run[i].config == run[0].config
  {
    if i > 0 {
      SameConfig(run, events, i - 1);
    }
  }

  /**
   * A tick passes the named queues that are left without a row, whether their capacity is used up or nothing is
   * ready.
   */
  lemma {:induction false} PassQueues(c: Config, r: Runtime, t: nat, next: nat) returns (s: Runtime)
    requires Reachable(c, r) && r.config == c && next <= |c.queues| && t in r.ticks && r.ticks[t] == Looking(next)
    ensures Reachable(c, s) && s == r.(ticks := r.ticks[t := Looking(|c.queues|)])
    decreases |c.queues| - next
  {
    if next == |c.queues| {
      s := r;
      assert r.ticks[t := Looking(next)] == r.ticks;
    } else {
      var passed := PassOne(c, r, t, next);
      s := PassQueues(c, passed, t, next + 1);
    }
  }

  lemma PassOne(c: Config, r: Runtime, t: nat, next: nat) returns (s: Runtime)
    requires Reachable(c, r) && r.config == c && next < |c.queues| && t in r.ticks && r.ticks[t] == Looking(next)
    ensures Reachable(c, s) && s == r.(ticks := r.ticks[t := Looking(next + 1)])
  {
    ReachNext(c, r, Look(t));
    s := Apply(r, Look(t));
    if s.ticks[t].Awaiting? {
      ReachNext(c, s, Claims(t, [], []));
      s := Apply(s, Claims(t, [], []));
    }
  }

  /** Both the auto loop and a drain have a tick at the unnamed queue, and nothing is in flight. */
  lemma TwoAtTheEnd(c: Config) returns (r: Runtime)
    requires DistinctQueues(c) && c.auto
    ensures Reachable(c, r) && r.config == c && r.pool == Boot(c).pool
    ensures r.ticks == map[0 := Looking(|c.queues|), 1 := Looking(|c.queues|)]
  {
    ReachBoot(c);
    ReachNext(c, Boot(c), Start(0));
    r := Apply(Boot(c), Start(0));
    ReachNext(c, r, DrainCall(1));
    r := Apply(r, DrainCall(1));
    assert r.ticks == map[0 := Looking(0), 1 := Looking(0)];
    r := PassQueues(c, r, 0, 0);
    r := PassQueues(c, r, 1, 0);
  }

  /** Row names of different lengths. */
  function RowName(i: nat): string {
    seq(i, _ => 'r')
  }

  function Names(n: nat): seq<string> {
    seq(n, i requires 0 <= i < n => RowName(i))
  }

  function Numbers(n: nat): seq<nat> {
    seq(n, i requires 0 <= i < n => i)
  }

  /** Launching n differently named rows without a queue puts n rows in flight. */
  lemma {:induction false} LaunchMany(p: Pool, n: nat)
    requires p.inFlight == {}
    ensures var q := LaunchAll(p, Numbers(n), Names(n), None);
            && |q.inFlight| == n && forall row :: row in q.inFlight ==> |row| < n
  {
    if n > 0 {
      assert Numbers(n)[..n - 1] == Numbers(n - 1) && Names(n)[..n - 1] == Names(n - 1);
      LaunchMany(p, n - 1);
      assert RowName(n - 1) !in LaunchAll(p, Numbers(n - 1), Names(n - 1), None).inFlight;
    }
  }

  lemma BothFill(c: Config, r: Runtime) returns (s: Runtime)
    requires Reachable(c, r) && r.config == c && c.globalConcurrency >= 1 && r.pool == Boot(c).pool
    requires r.ticks == map[0 := Looking(|c.queues|), 1 := Looking(|c.queues|)]
    ensures Reachable(c, s) && |s.pool.inFlight| > c.globalConcurrency
  {
    var g := c.globalConcurrency;
    ReachNext(c, r, Look(0));
    var r1 := Apply(r, Look(0));
    ReachNext(c, r1, Look(1));
    var r2 := Apply(r1, Look(1));
    assert r2.ticks == map[0 := Awaiting(|c.queues|, g), 1 := Awaiting(|c.queues|, g)];
    s := FillTwice(c, r2, g);
  }

  lemma FillTwice(c: Config, r: Runtime, g: nat) returns (s: Runtime)
    requires Reachable(c, r) && r.config == c && g >= 1 && r.pool == Boot(c).pool
    requires r.ticks == map[0 := Awaiting(|c.queues|, g), 1 := Awaiting(|c.queues|, g)]
    ensures Reachable(c, s) && |s.pool.inFlight| == g + 1
  {
    s := FillFirst(c, r, g);
    s := FillSecond(c, s, g);
  }

  lemma FillFirst(c: Config, r: Runtime, g: nat) returns (s: Runtime)
    requires Reachable(c, r) && r.config == c && g >= 1 && r.pool == Boot(c).pool
    requires r.ticks == map[0 := Awaiting(|c.queues|, g), 1 := Awaiting(|c.queues|, g)]
    ensures Reachable(c, s) && s.config == c && 1 in s.ticks && s.ticks[1] == Awaiting(|c.queues|, g)
    ensures |s.pool.inFlight| == g && RowName(g) !in s.pool.inFlight
    ensures g !in s.pool.unfinished && g !in s.pool.promises
  {
    ManyNames(g);
    LaunchMany(r.pool, g);
    LaunchAllKeys(r.pool, Numbers(g), Names(g), None, g);
    ReachNext(c, r, Claims(0, Numbers(g), Names(g)));
    s := Apply(r, Claims(0, Numbers(g), Names(g)));
    assert s.pool == LaunchAll(r.pool, Numbers(g), Names(g), None);
  }

  lemma ManyNames(g: nat)
    ensures Distinct(Names(g)) && Distinct(Numbers(g)) && g !in Numbers(g)
  {
    var names := Names(g);
    forall i, j | 0 <= i < j < g ensures names[i] != names[j] {
      assert |names[i]| == i && |names[j]| == j;
    }
  }

  lemma FillSecond(c: Config, r: Runtime, g: nat) returns (s: Runtime)
    requires Reachable(c, r) && r.config == c && g >= 1 && 1 in r.ticks && r.ticks[1] == Awaiting(|c.queues|, g)
    requires |r.pool.inFlight| == g && RowName(g) !in r.pool.inFlight
    requires g !in r.pool.unfinished && g !in r.pool.promises
    ensures Reachable(c, s) && |s.pool.inFlight| == g + 1
  {
    LaunchOnly(r.pool, g, RowName(g), None);
    ReachNext(c, r, Claims(1, [g], [RowName(g)]));
    s := Apply(r, Claims(1, [g], [RowName(g)]));
    assert s.pool == Launch(r.pool, g, RowName(g), None);
  }

  lemma {:induction false} LaunchAllKeys(p: Pool, ws: seq<nat>, rows: seq<string>, queue: Option<string>, w: nat)
    requires |ws| == |rows|
    ensures w in LaunchAll(p, ws, rows, queue).unfinished ==> w in p.unfinished || w in ws
    ensures w in LaunchAll(p, ws, rows, queue).promises ==> w in p.promises || w in ws
  {
    if ws != [] {
      LaunchAllKeys(p, ws[..|ws| - 1], rows[..|rows| - 1], queue, w);
    }
  }

  /**
   * The caps hold in all runs of a configuration exactly when its mode is manual: in auto mode a drain() call beside
   * the loop can have two ticks fill the same free places, whatever the queues and the caps are.
   */
  lemma CapsHoldExactlyWhen(c: Config)
    requires DistinctQueues(c) && c.globalConcurrency >= 1
    ensures CapsHold(c) <==> !c.auto
  {
    if c.auto {
      var r := TwoAtTheEnd(c);
      var s := BothFill(c, r);
    } else {
      forall r | Reachable(c, r) ensures WithinCaps(c, r.pool) {
        ManualCaps(c, r);
      }
    }
  }

  lemma ManualCaps(c: Config, r: Runtime)
    requires Reachable(c, r) && !c.auto
    ensures WithinCaps(c, r.pool)
  {
    var run: seq<Runtime>, events: seq<Event> :| IsRun(run, events) && run[0].config == c && run[|events|] == r;
    forall k | 0 <= k < |run| ensures OneTickAtMost(run[k]) && run[k].config == c {
      SameConfig(run, events, k);
      forall m | 0 <= m < |events| ensures OneDriver(run[m], events[m]) {
        SameConfig(run, events, m);
      }
      OneDriverNeverOverlaps(run, events, k);
    }
    ConcurrencyCaps(run, events, |events|);
  }

  /** Unfinished workers are on distinct rows, all in flight. */
  ghost predicate OneWorkerPerRow(p: Pool) {
    && (forall w :: w in p.unfinished ==> p.unfinished[w].row in p.inFlight)
    && (forall v, w :: v in p.unfinished && w in p.unfinished && v != w ==> p.unfinished[v].row != p.unfinished[w].row)
    && |p.unfinished| == |p.inFlight|
  }

  lemma LaunchOnNewRow(p: Pool, w: nat, row: string, queue: Option<string>)
    requires OneWorkerPerRow(p) && w !in p.unfinished && row !in p.inFlight
    ensures OneWorkerPerRow(Launch(p, w, row, queue))
  {
  }

  lemma {:induction false} LaunchAllOnNewRows(p: Pool, ws: seq<nat>, rows: seq<string>, queue: Option<string>)
    requires OneWorkerPerRow(p) && |ws| == |rows| && Distinct(ws) && Distinct(rows)
    requires forall i :: 0 <= i < |ws| ==> ws[i] !in p.unfinished && rows[i] !in p.inFlight
    ensures OneWorkerPerRow(LaunchAll(p, ws, rows, queue))
    ensures forall row :: row in LaunchAll(p, ws, rows, queue).inFlight ==> row in p.inFlight || row in rows
  {
    if ws != [] {
      var n := |ws| - 1;
      LaunchAllOnNewRows(p, ws[..n], rows[..n], queue);
      LaunchAllUnfinished(p, ws[..n], rows[..n], queue, ws[n]);
      LaunchOnNewRow(LaunchAll(p, ws[..n], rows[..n], queue), ws[n], rows[n], queue);
    }
  }

  lemma FinishOnRow(p: Pool, w: nat)
    requires OneWorkerPerRow(p) && w in p.unfinished
    ensures OneWorkerPerRow(Finish(p, w))
  {
  }

  /** No row is claimed again before its worker has left inFlight. */
  ghost predicate ClaimsNewRows(r: Runtime, e: Event) {
    e.Claims? ==> forall m :: 0 <= m < |e.rows| ==> e.rows[m] !in r.pool.inFlight
  }

  lemma OneWorkerStep(r: Runtime, e: Event)
    requires Enabled(r, e) && OneWorkerPerRow(r.pool) && ClaimsNewRows(r, e)
    ensures OneWorkerPerRow(Apply(r, e).pool)
  {
    match e {
      case Claims(t, ws, rows) => LaunchAllOnNewRows(r.pool, ws, rows, NameOf(r.config, r.ticks[t].next));
      case WorkerEnds(w) => FinishOnRow(r.pool, w);
      case _ =>
    }
  }

  /**
   * As long as ticks have not overlapped and no row was claimed again before its worker had left inFlight, the cap
   * bounds the unfinished workers too.
   */
  lemma {:induction false} LiveWorkersCapped(run: seq<Runtime>, events: seq<Event>, i: nat)
    requires IsRun(run, events) && i < |run|
    requires forall k :: 0 <= k < i ==> OneTickAtMost(run[k]) && ClaimsNewRows(run[k], events[k])
    ensures OneWorkerPerRow(run[i].pool) && |run[i].pool.unfinished| <= run[i].config.globalConcurrency
  {
    ConcurrencyCaps(run, events, i);
    if i > 0 {
      LiveWorkersCapped(run, events, i - 1);
      OneWorkerStep(run[i - 1], events[i - 1]);
    }
  }

  // ----- when a drain ends -----

  /** Worker w was launched before event i and its promise has not left inFlightWorkers since. */
  ghost predicate Outstanding(events: seq<Event>, i: nat, w: nat) {
    exists k: nat :: LaunchedAt(events, k, i, w)
  }

  ghost predicate LaunchedAt(events: seq<Event>, k: nat, i: nat, w: nat) {
    && k < i <= |events| && events[k].Claims? && w in events[k].ws
    && forall m :: k < m < i ==> events[m] != Forget(w)
  }

  lemma {:induction false} LaunchAllPromises(p: Pool, ws: seq<nat>, rows: seq<string>, queue: Option<string>, w: nat)
    requires |ws| == |rows|
    ensures w in LaunchAll(p, ws, rows, queue).promises <==> w in p.promises || w in ws
  {
    if ws != [] {
      LaunchAllPromises(p, ws[..|ws| - 1], rows[..|rows| - 1], queue, w);
    }
  }

  lemma OutstandingStep(events: seq<Event>, i: nat, w: nat)
    requires i < |events|
    ensures Outstanding(events, i + 1, w) <==>
              (events[i].Claims? && w in events[i].ws) || (Outstanding(events, i, w) && events[i] != Forget(w))
  {
    if events[i].Claims? && w in events[i].ws {
      assert LaunchedAt(events, i, i + 1, w);
    } else if Outstanding(events, i, w) && events[i] != Forget(w) {
      var k: nat :| LaunchedAt(events, k, i, w);
      assert LaunchedAt(events, k, i + 1, w);
    }
    if Outstanding(events, i + 1, w) && !(events[i].Claims? && w in events[i].ws) {
      var k: nat :| LaunchedAt(events, k, i + 1, w);
      assert LaunchedAt(events, k, i, w);
    }
  }

  lemma PromisesStep(r: Runtime, e: Event, w: nat)
    requires Enabled(r, e)
    ensures w in Apply(r, e).pool.promises <==>
              (e.Claims? && w in e.ws) || (w in r.pool.promises && e != Forget(w))
  {
    if e.Claims? {
      LaunchAllPromises(r.pool, e.ws, e.rows, NameOf(r.config, r.ticks[e.t].next), w);
    }
  }

  lemma {:induction false} PromisesAreOutstanding(run: seq<Runtime>, events: seq<Event>, i: nat, w: nat)
    requires IsRun(run, events) && i < |run|
    ensures w in run[i].pool.promises <==> Outstanding(events, i, w)
  {
    if i > 0 {
      PromisesAreOutstanding(run, events, i - 1, w);
      PromisesStep(run[i - 1], events[i - 1], w);
      OutstandingStep(events, i - 1, w);
    }
  }

  /**
   * A drain whose tick resolves stops there exactly when no request is pending and every worker launched so far, by
   * this tick too, has already gone. Whether the tick claimed anything does not matter.
   */
  lemma DrainEndsExactlyWhen(run: seq<Runtime>, events: seq<Event>, i: nat)
    requires IsRun(run, events) && i < |events| && events[i].DrainTickEnds?
    ensures run[i + 1].drain.runner.Leaving? <==>
              !run[i].drain.requested && forall w :: !Outstanding(events, i, w)
  {
    forall w ensures w in run[i].pool.promises <==> Outstanding(events, i, w) {
      PromisesAreOutstanding(run, events, i, w);
    }
  }

  const TWO_QUEUES := Boot(Config(false, 2, [Queue("email", 1)]))
  const EARLY_END: seq<Event> :=
    [Start(0), DrainCall(1), Look(1), Claims(1, [0], ["letter"]), Look(1), WorkerEnds(0), Forget(0), Claims(1, [], []),
     DrainTickEnds(1, 2)]

  lemma LetterClaimed() returns (run: seq<Runtime>)
    ensures |run| == 5 && run[0] == TWO_QUEUES && forall i :: 0 <= i < 4 ==> Leads(run[i], EARLY_END[i], run[i + 1])
    ensures run[4].config == TWO_QUEUES.config && run[4].drain == Drain(false, Ticking(1), 1, 1)
    ensures run[4].ticks == map[1 := Looking(1)] && run[4].pool == Launch(TWO_QUEUES.pool, 0, "letter", Some("email"))
  {
    var r1 := Apply(TWO_QUEUES, Start(0));
    var r2 := Apply(r1, DrainCall(1));
    var r3 := Apply(r2, Look(1));
    assert r3.ticks == map[1 := Awaiting(0, 1)];
    LaunchOnly(r3.pool, 0, "letter", Some("email"));
    run := [TWO_QUEUES, r1, r2, r3, Apply(r3, Claims(1, [0], ["letter"]))];
  }

  lemma LetterGone(r: Runtime) returns (run: seq<Runtime>)
    requires r.config == TWO_QUEUES.config && r.drain == Drain(false, Ticking(1), 1, 1)
    requires r.ticks == map[1 := Looking(1)] && r.pool == Launch(TWO_QUEUES.pool, 0, "letter", Some("email"))
    ensures |run| == 4 && run[0] == r && forall i :: 0 <= i < 3 ==> Leads(run[i], EARLY_END[4 + i], run[i + 1])
    ensures run[1].ticks == run[3].ticks == map[1 := Awaiting(1, 1)]
    ensures run[3].config == r.config && run[3].drain == r.drain && run[3].pool.promises == {}
  {
    assert |r.pool.inFlight| == 1;
    var r5 := Apply(r, Look(1));
    assert r5.ticks == map[1 := Awaiting(1, 1)];
    var r6 := Apply(r5, WorkerEnds(0));
    assert r6.pool.unfinished == map[];
    var r7 := Apply(r6, Forget(0));
    assert r7.pool.promises == {};
    run := [r, r5, r6, r7];
  }

  lemma NothingFound(r: Runtime) returns (run: seq<Runtime>)
    requires r.config == TWO_QUEUES.config && r.drain == Drain(false, Ticking(1), 1, 1)
    requires r.ticks == map[1 := Awaiting(1, 1)] && r.pool.promises == {}
    ensures |run| == 3 && run[0] == r && forall i :: 0 <= i < 2 ==> Leads(run[i], EARLY_END[7 + i], run[i + 1])
    ensures run[2].drain.runner.Leaving?
  {
    var s := Apply(r, Claims(1, [], []));
    assert s.pool == r.pool && s.ticks == map[1 := Looking(2)];
    run := [r, s, Apply(s, DrainTickEnds(1, 2))];
  }

  /**
   * With a named queue a drain does stop after a tick that claimed a row: the row's worker comes to its end while the
   * tick waits for its claim of the unnamed queue, which finds nothing.
   */
  lemma DrainEndsEarly() returns (run: seq<Runtime>)
    ensures IsRun(run, EARLY_END) && run[0] == TWO_QUEUES
    ensures run[4].ticks == map[1 := Looking(1)] && "letter" in run[4].pool.inFlight
    ensures run[5].ticks == map[1 := Awaiting(1, 1)] && run[9].drain.runner.Leaving?
  {
    var start := LetterClaimed();
    var gone := LetterGone(start[4]);
    var end := NothingFound(gone[3]);
    run := start + gone[1..] + end[1..];
    forall i | 0 <= i < 9 ensures Leads(run[i], EARLY_END[i], run[i + 1]) {
      assert i < 4 ==> Leads(start[i], EARLY_END[i], start[i + 1]);
      assert 4 <= i < 7 ==> Leads(gone[i - 4], EARLY_END[4 + (i - 4)], gone[i - 3]);
      assert 7 <= i ==> Leads(end[i - 7], EARLY_END[7 + (i - 7)], end[i - 6]);
    }
    RunOf(run, EARLY_END, Config(false, 2, [Queue("email", 1)]));
  }
}
