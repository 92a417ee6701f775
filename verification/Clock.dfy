/** ctx.now(): the start time of the attempt, which is the clock its claim read. No assumption on leases. */
module Clocks {
  import opened Values
  import opened Table
  import opened Worker
  import opened Cells
  import opened Budget

  /** ctx.now() */
  function Now(w: WorkerState): int {
    if w.snap.startedAt.Some? then w.snap.startedAt.value else w.snap.createdAt
  }

  /** No statement leaves a pending row with a start time. */
  lemma {:induction false} PendingUnstarted(registry: Registry, states: seq<Cell>, steps: seq<CellStep>, i: nat)
    requires FromTheStart(registry, states, steps) && i < |states|
    ensures states[i].row.status.Pending? ==> states[i].row.startedAt.None?
  {
    if i > 0 {
      PendingUnstarted(registry, states, steps, i - 1);
      UnstartedStep(registry, states[i - 1], steps[i - 1]);
    }
  }

  lemma UnstartedStep(registry: Registry, c: Cell, st: CellStep)
    requires Enabled(registry, c, st) && (c.row.status.Pending? ==> c.row.startedAt.None?)
    ensures Apply(registry, c, st).row.status.Pending? ==> Apply(registry, c, st).row.startedAt.None?
  {
  }

  /** Attempt `a` has begun, and while it lives its ctx.now() is `time`. */
  ghost predicate Reads(c: Cell, a: nat, time: int) {
    a <= c.row.attempts && (a in c.workers ==> Now(c.workers[a]) == time)
  }

  lemma ReadsStep(registry: Registry, c: Cell, st: CellStep, a: nat, time: int)
    requires Enabled(registry, c, st) && Reads(c, a, time)
    ensures Reads(Apply(registry, c, st), a, time)
  {
  }

  lemma ReadsAlways(registry: Registry, states: seq<Cell>, steps: seq<CellStep>, k: nat, j: nat, a: nat, time: int)
    requires IsHistory(registry, states, steps) && k <= j < |states| && Reads(states[k], a, time)
    ensures Reads(states[j], a, time)
  {
    forall m | k <= m < j && Reads(states[m], a, time) ensures Reads(states[m + 1], a, time) {
      ReadsStep(registry, states[m], steps[m], a, time);
    }
    Persists(c => Reads(c, a, time), states, k, j);
  }

  /** Step k of the history claims the row for attempt `a`. */
  ghost predicate Begins(states: seq<Cell>, steps: seq<CellStep>, k: nat, a: nat) {
    k < |steps| && k < |states| && steps[k].Claim? && a == states[k].row.attempts + 1
  }

  /** At every moment of an attempt ctx.now() is the clock that its claim read. */
  lemma NowIsTheClaim(registry: Registry, states: seq<Cell>, steps: seq<CellStep>, k: nat, j: nat, a: nat)
    requires FromTheStart(registry, states, steps) && k < j < |states|
    requires Begins(states, steps, k, a) && a in states[j].workers
    ensures Now(states[j].workers[a]) == steps[k].now
  {
    PendingUnstarted(registry, states, steps, k);
    ReadsAlways(registry, states, steps, k + 1, j, a, steps[k].now);
  }

  /** Two attempts, or two moments of one, see the same ctx.now() exactly when their claims read the same clock. */
  lemma NowAgreesExactlyWhen(registry: Registry, states: seq<Cell>, steps: seq<CellStep>,
                             k: nat, i: nat, a: nat, m: nat, j: nat, b: nat)
    requires FromTheStart(registry, states, steps) && k < i < |states| && m < j < |states|
    requires Begins(states, steps, k, a) && a in states[i].workers
    requires Begins(states, steps, m, b) && b in states[j].workers
    ensures Now(states[i].workers[a]) == Now(states[j].workers[b]) <==> steps[k].now == steps[m].now
  {
    NowIsTheClaim(registry, states, steps, k, i, a);
    NowIsTheClaim(registry, states, steps, m, j, b);
  }

  const ROW := NewRow("report", None, JNull, 3, 0, 0, None)

  const ROW_AGAIN := ROW.(attempts := 1)

  /** The first attempt: claimed, dead with its executor, reset when its lease has run out. */
  lemma FirstAttempt(registry: Registry) returns (states: seq<Cell>)
    ensures IsHistory(registry, states, [Claim("first", 0, 10), Crash("first"), Reclaim(10)])
    ensures states[0] == NewCell(ROW) && states[3].row == ROW_AGAIN && states[3].workers == map[]
    ensures states[1].workers == map[1 := NewWorker("first", ClaimRow(ROW, "first", 0, 10), 10)]
  {
    var c0 := NewCell(ROW);
    var c1 := Apply(registry, c0, Claim("first", 0, 10));
    assert c1.workers == map[1 := NewWorker("first", ClaimRow(ROW, "first", 0, 10), 10)];
    var c2 := Apply(registry, c1, Crash("first"));
    assert c2.workers == map[];
    states := [c0, c1, c2, Apply(registry, c2, Reclaim(10))];
  }

  /** A replay does see another time: the second attempt of a row whose first executor died. */
  lemma ReplaySeesAnotherTime(registry: Registry) returns (states: seq<Cell>)
    ensures FromTheStart(registry, states,
                         [Claim("first", 0, 10), Crash("first"), Reclaim(10), Claim("second", 25, 10)])
    ensures 1 in states[1].workers && Now(states[1].workers[1]) == 0
    ensures 2 in states[4].workers && Now(states[4].workers[2]) == 25
  {
    var first := FirstAttempt(registry);
    var steps := [Claim("first", 0, 10), Crash("first"), Reclaim(10)];
    var second := Claim("second", 25, 10);
    states := first + [Apply(registry, first[3], second)];
    assert steps + [second] == [Claim("first", 0, 10), Crash("first"), Reclaim(10), Claim("second", 25, 10)];
    ExtendHistory(registry, first, steps, second);
  }
}
