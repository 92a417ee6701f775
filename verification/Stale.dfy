/**
 * What is lost without timely leases: exactly when a txStep repeats the user's write and when a terminal row is
 * final.
 */
module Stale {
  import opened Values
  import opened StepIds
  import opened Table
  import opened Worker
  import opened Cells
  import opened Budget
  import opened Lease
  import opened Replay

  /** Every call of this workflow that can get this step id is a txStep. What other workflows call does not matter. */
  ghost predicate AlwaysTx(registry: Registry, name: string, input: Json, stepId: string) {
    name in registry ==>
      forall results, n: nat ::
        CallsAs(registry[name], input, results, n, stepId) ==> registry[name](input, results).tx
  }

  ghost predicate CallsAs(body: Body, input: Json, results: seq<Json>, n: nat, stepId: string) {
    body(input, results).Call? && StepIdFor(body(input, results).name, n) == stepId
  }

  ghost predicate WritesMatchLog(c: Cell, stepId: string) {
    && (stepId in c.log <==> c.commits[stepId] > 0)
    && (forall a :: a in c.workers && c.workers[a].InStep() && c.workers[a].phase.stepId == stepId ==>
          c.workers[a].phase.tx)
  }

  lemma WritesStep(registry: Registry, c: Cell, st: CellStep, stepId: string)
    requires Enabled(registry, c, st) && WorkersNumbered(c) && WritesMatchLog(c, stepId)
    requires AlwaysTx(registry, c.row.name, c.row.input, stepId)
    ensures WritesMatchLog(Apply(registry, c, st), stepId)
  {
    if st.Advance? {
      var w := c.workers[st.a];
      assert Numbered(c.row, st.a, w);
      var body := registry[c.row.name];
      var next := body(c.row.input, w.results);
      if next.Call? && StepIdFor(next.name, Count(w.callCounts, next.name)) == stepId {
        assert CallsAs(body, c.row.input, w.results, Count(w.callCounts, next.name), stepId);
      }
    }
  }

  lemma {:induction false} WritesAlways(
    registry: Registry, states: seq<Cell>, steps: seq<CellStep>, i: nat, stepId: string)
    requires FromTheStart(registry, states, steps) && i < |states|
    requires AlwaysTx(registry, states[0].row.name, states[0].row.input, stepId)
    ensures WritesMatchLog(states[i], stepId)
  {
    if i > 0 {
      WritesAlways(registry, states, steps, i - 1, stepId);
      AccountedAlways(registry, states, steps, i - 1);
      OnlyGrows(registry, states, steps, 0, i - 1);
      WritesStep(registry, states[i - 1], steps[i - 1], stepId);
    }
  }

  /** Step k of the history commits the user's write of a transactional step with this id. */
  ghost predicate WritesAt(states: seq<Cell>, steps: seq<CellStep>, k: nat, stepId: string) {
    && k < |steps| && k < |states| && steps[k].Commit? && steps[k].a in states[k].workers
    && var phase := states[k].workers[steps[k].a].phase;
       phase.Executing? && phase.tx && phase.stepId == stepId
  }

  lemma WriteStep(registry: Registry, states: seq<Cell>, steps: seq<CellStep>, i: nat, stepId: string)
    requires IsHistory(registry, states, steps) && i < |steps|
    ensures states[i + 1].commits[stepId] ==
            states[i].commits[stepId] + if WritesAt(states, steps, i, stepId) then 1 else 0
  {
  }

  lemma {:induction false} WrittenExactlyWhen(
    registry: Registry, states: seq<Cell>, steps: seq<CellStep>, i: nat, stepId: string)
    requires FromTheStart(registry, states, steps) && i < |states|
    ensures states[i].commits[stepId] > 0 <==> exists k: nat :: k < i && WritesAt(states, steps, k, stepId)
  {
    if i > 0 {
      WrittenExactlyWhen(registry, states, steps, i - 1, stepId);
      WriteStep(registry, states, steps, i - 1, stepId);
    }
  }

  /**
   * With stale workers allowed, a transactional commit always commits the user's write, but its own row only if none
   * is stored. It repeats the write exactly when an earlier transactional commit of this id happened. For an id that
   * only transactional steps of the workflow use that is exactly when the step's row is stored at that moment.
   */
  lemma DoubleWriteExactlyWhen(registry: Registry, states: seq<Cell>, steps: seq<CellStep>, i: nat, stepId: string)
    requires FromTheStart(registry, states, steps) && WritesAt(states, steps, i, stepId)
    ensures states[i + 1].commits[stepId] == states[i].commits[stepId] + 1
    ensures states[i + 1].log == states[i].log <==> stepId in states[i].log
    ensures states[i + 1].commits[stepId] > 1 <==> exists k: nat :: k < i && WritesAt(states, steps, k, stepId)
    ensures AlwaysTx(registry, states[0].row.name, states[0].row.input, stepId) ==>
              (states[i + 1].commits[stepId] > 1 <==> stepId in states[i].log)
  {
    WriteStep(registry, states, steps, i, stepId);
    WrittenExactlyWhen(registry, states, steps, i, stepId);
    if AlwaysTx(registry, states[0].row.name, states[0].row.input, stepId) {
      WritesAlways(registry, states, steps, i, stepId);
    }
  }

  /**
   * With timely leases and an id that only transactional steps of the workflow use: one write if the row is
   * stored, none otherwise.
   */
  lemma OneWriteForEachRow(registry: Registry, states: seq<Cell>, steps: seq<CellStep>, i: nat, stepId: string)
    requires FromTheStart(registry, states, steps) && Timely(states, steps) && i < |states|
    requires states[0].row.name in registry
    requires AlwaysTx(registry, states[0].row.name, states[0].row.input, stepId)
    ensures states[i].commits[stepId] == if stepId in states[i].log then 1 else 0
  {
    var path := ExactlyOnce(registry, states, steps, i, stepId);
    WritesAlways(registry, states, steps, i, stepId);
  }

  lemma Join(registry: Registry, left: seq<Cell>, steps: seq<CellStep>, right: seq<Cell>, more: seq<CellStep>)
    requires IsHistory(registry, left, steps) && IsHistory(registry, right, more)
    requires left[|steps|] == right[0]
    ensures IsHistory(registry, left[..|steps|] + right, steps + more)
  {
    var states := left[..|steps|] + right;
    forall i | 0 <= i < |steps + more|
      ensures Enabled(registry, states[i], (steps + more)[i])
      ensures states[i + 1] == Apply(registry, states[i], (steps + more)[i])
    {
      if i < |steps| {
        assert states[i] == left[i] && states[i + 1] == left[i + 1];
      } else {
        assert states[i] == right[i - |steps|] && states[i + 1] == right[i + 1 - |steps|];
      }
    }
  }

  // ----- when a terminal row is final -----

  /** No history from here changes the row. */
  ghost predicate RowIsFinal(registry: Registry, c: Cell) {
    forall states: seq<Cell>, steps: seq<CellStep> ::
      IsHistory(registry, states, steps) && states[0] == c ==> states[|steps|].row == c.row
  }

  lemma RestingStep(registry: Registry, c: Cell, st: CellStep)
    requires Enabled(registry, c, st) && c.row.status.Terminal() && c.workers == map[]
    ensures Apply(registry, c, st) == c
  {
    assert Renewed(map[], "", 0) == map[] && Survivors(map[], "") == map[];
  }

  /** A terminal cell without workers never changes again, whatever happens. */
  lemma {:induction false} Resting(registry: Registry, states: seq<Cell>, steps: seq<CellStep>, i: nat)
    requires IsHistory(registry, states, steps) && i < |states|
    requires states[0].row.status.Terminal() && states[0].workers == map[]
    ensures states[i] == states[0]
  {
    if i > 0 {
      Resting(registry, states, steps, i - 1);
      RestingStep(registry, states[i - 1], steps[i - 1]);
    }
  }

  /** A worker that is alive can still end its attempt. */
  lemma ToFinishing(registry: Registry, c: Cell, a: nat) returns (states: seq<Cell>, steps: seq<CellStep>)
    requires a in c.workers
    ensures IsHistory(registry, states, steps) && states[0] == c
    ensures states[|steps|].row == c.row && a in states[|steps|].workers && states[|steps|].workers[a].phase.Finishing?
  {
    states, steps := [c], [];
    if c.workers[a].phase.Starting? {
      steps := [Load(a)];
      states := [c, Apply(registry, c, Load(a))];
    }
    var d := states[|steps|];
    if !d.workers[a].phase.Finishing? {
      steps := steps + [Throws(a, "")];
      states := states + [Apply(registry, d, Throws(a, ""))];
    }
  }

  lemma FinishChanges(registry: Registry, c: Cell, a: nat) returns (now: int)
    requires a in c.workers && c.workers[a].phase.Finishing? && c.row.status.Terminal()
    ensures Apply(registry, c, Finish(a, now)).row != c.row
  {
    now := if c.row.endedAt.Some? then c.row.endedAt.value + 1 else 0;
  }

  /** A live worker of a terminal row can overwrite it. */
  lemma LateWorkerChanges(registry: Registry, c: Cell, a: nat) returns (states: seq<Cell>, steps: seq<CellStep>)
    requires c.row.status.Terminal() && a in c.workers
    ensures IsHistory(registry, states, steps) && states[0] == c && states[|steps|].row != c.row
  {
    states, steps := ToFinishing(registry, c, a);
    var d := states[|steps|];
    var now := FinishChanges(registry, d, a);
    Join(registry, states, steps, [d, Apply(registry, d, Finish(a, now))], [Finish(a, now)]);
    states := states[..|steps|] + [d, Apply(registry, d, Finish(a, now))];
    steps := steps + [Finish(a, now)];
  }

  /** Without any assumption on leases: a terminal row is final exactly when no worker of it is left. */
  lemma FinalExactlyWhen(registry: Registry, c: Cell)
    requires c.row.status.Terminal()
    ensures RowIsFinal(registry, c) <==> c.workers == map[]
  {
    if c.workers == map[] {
      forall states: seq<Cell>, steps: seq<CellStep> | IsHistory(registry, states, steps) && states[0] == c
        ensures states[|steps|].row == c.row
      {
        Resting(registry, states, steps, |steps|);
      }
    } else {
      var a :| a in c.workers;
      var states, steps := LateWorkerChanges(registry, c, a);
    }
  }

  // ----- a history that shows it -----

  const PAY: Body := (input, results) => if |results| == 0 then Call("pay", true) else Return(results[0])

  const PAYMENTS: Registry := map["payment" := PAY]

  const PAYMENT_ROW := NewRow("payment", None, JNull, 3, 0, 0, None)

  /**
   * The first worker's lease runs out while it is in its step; a second worker takes the row over and finishes. The
   * first one's commit then writes a second time, and its final write replaces the finished row's output by a value
   * that is not the stored one.
   */
  const TAKEOVER: seq<CellStep> :=
    [Claim("first", 0, 10), Load(1), Advance(1), Start(1), Reclaim(10), Claim("second", 10, 10), Load(2), Advance(2),
     Start(2), Commit(2, JNum(2)), Advance(2), Finish(2, 20), Commit(1, JNum(1)), Advance(1), Finish(1, 21)]

  /** A worker of the payment workflow whose step function has just been called. */
  function InPay(exec: string, snap: Row, leaseUntil: int): WorkerState {
    WorkerState(exec, snap, leaseUntil, Executing("pay", "pay", true), map[], map["pay" := 1], [])
  }

  /** Claim and load. */
  lemma StartPay(c: Cell, exec: string, now: int, leaseMs: nat) returns (d: Cell, e: Cell)
    requires c.row.status.Pending? && c.row.scheduledFor <= now && c.row.name == "payment" && c.log == map[]
    ensures var a, row := c.row.attempts + 1, ClaimRow(c.row, exec, now, leaseMs);
            && Leads(PAYMENTS, c, Claim(exec, now, leaseMs), d) && Leads(PAYMENTS, d, Load(a), e)
            && e == c.(row := row, workers := c.workers[a := NewWorker(exec, row, now + leaseMs).(phase := InBody)])
  {
    var a, row := c.row.attempts + 1, ClaimRow(c.row, exec, now, leaseMs);
    var w := NewWorker(exec, row, now + leaseMs);
    d := Apply(PAYMENTS, c, Claim(exec, now, leaseMs));
    e := Apply(PAYMENTS, d, Load(a));
    assert LoadStep(PAYMENTS, w, map[]) == w.(phase := InBody);
    assert d.workers[a := w.(phase := InBody)] == c.workers[a := w.(phase := InBody)];
  }

  /** Run to the first call, and call the step's function. */
  lemma CallPay(c: Cell, a: nat) returns (d: Cell, e: Cell)
    requires a in c.workers && c.row.cancelAt.None? && c.workers[a].snap.name == "payment"
    requires c.workers[a] == NewWorker(c.workers[a].exec, c.workers[a].snap, c.workers[a].leaseUntil).(phase := InBody)
    ensures Leads(PAYMENTS, c, Advance(a), d) && Leads(PAYMENTS, d, Start(a), e)
    ensures var w := c.workers[a];
            e == c.(workers := c.workers[a := InPay(w.exec, w.snap, w.leaseUntil)], runs := c.runs + [Run(a, "pay")])
  {
    var w := c.workers[a];
    d := Apply(PAYMENTS, c, Advance(a));
    assert AdvanceStep(PAY, w, false) == w.(phase := Checked("pay", "pay", true), callCounts := map["pay" := 1]);
    e := Apply(PAYMENTS, d, Start(a));
    assert e.workers == c.workers[a := InPay(w.exec, w.snap, w.leaseUntil)];
  }

  /** Claim, load, run to the first call, and call the step's function. */
  lemma EnterPay(c: Cell, exec: string, now: int, leaseMs: nat) returns (states: seq<Cell>)
    requires c.row.status.Pending? && c.row.scheduledFor <= now
    requires c.row.name == "payment" && c.row.cancelAt.None? && c.log == map[] && c.row.attempts + 1 !in c.workers
    ensures var a, row := c.row.attempts + 1, ClaimRow(c.row, exec, now, leaseMs);
            && IsHistory(PAYMENTS, states, [Claim(exec, now, leaseMs), Load(a), Advance(a), Start(a)])
            && states[0] == c
            && states[4] == c.(row := row, workers := c.workers[a := InPay(exec, row, now + leaseMs)],
                               runs := c.runs + [Run(a, "pay")])
  {
    var a, row := c.row.attempts + 1, ClaimRow(c.row, exec, now, leaseMs);
    var c1, c2 := StartPay(c, exec, now, leaseMs);
    var c3, c4 := CallPay(c2, a);
    assert c4.workers == c.workers[a := InPay(exec, row, now + leaseMs)];
    states := [c, c1, c2, c3, c4];
    HistoryOf(PAYMENTS, states, [Claim(exec, now, leaseMs), Load(a), Advance(a), Start(a)]);
  }

  /** Commit the write, return from the body, and make the final write. */
  lemma FinishPay(c: Cell, a: nat, value: Json, now: int) returns (states: seq<Cell>)
    requires a in c.workers && c.workers[a] == InPay(c.workers[a].exec, c.workers[a].snap, c.workers[a].leaseUntil)
    requires c.workers[a].snap.name == "payment"
    ensures && IsHistory(PAYMENTS, states, [Commit(a, value), Advance(a), Finish(a, now)])
            && states[0] == c
            && states[3] == c.(row := FinalizeRow(c.row, Success, now, Some(value), None), workers := c.workers - {a},
                               log := InsertOrIgnore(c.log, "pay", StepOk("pay", value)),
                               commits := c.commits + multiset{"pay"})
  {
    var w1 := CommitStep(c.workers[a], value);
    var w2 := w1.(phase := Finishing(Succeeds(value)));
    var c1 := Apply(PAYMENTS, c, Commit(a, value));
    var c2 := Apply(PAYMENTS, c1, Advance(a));
    assert AdvanceStep(PAY, w1, c.row.cancelAt.Some?) == w2;
    assert c2.workers == c.workers[a := w2];
    var c3 := Apply(PAYMENTS, c2, Finish(a, now));
    assert c3.workers == c.workers - {a};
    states := [c, c1, c2, c3];
  }

  /** Both workers are in their step; the second one finishes, then the first one. */
  lemma BothFinish(c: Cell) returns (states: seq<Cell>)
    requires c.log == map[] && c.commits == multiset{} && 1 in c.workers && 2 in c.workers
    requires c.workers[1] == InPay("first", c.workers[1].snap, 10) && c.workers[1].snap.name == "payment"
    requires c.workers[2] == InPay("second", c.workers[2].snap, 20) && c.workers[2].snap.name == "payment"
    ensures IsHistory(PAYMENTS, states, TAKEOVER[9..]) && states[0] == c
    ensures states[3].row.status.Success? && states[3].row.output == Some(JNum(2))
    ensures states[6].row.status.Success? && states[6].row.output == Some(JNum(1))
    ensures states[6].log == map["pay" := StepOk("pay", JNum(2))] && states[6].commits == multiset{"pay", "pay"}
  {
    var won := FinishPay(c, 2, JNum(2), 20);
    var late := FinishPay(won[3], 1, JNum(1), 21);
    Join(PAYMENTS, won, TAKEOVER[9..12], late, TAKEOVER[12..]);
    states := won[..3] + late;
    assert TAKEOVER[9..12] == [Commit(2, JNum(2)), Advance(2), Finish(2, 20)];
    assert TAKEOVER[9..12] + TAKEOVER[12..] == TAKEOVER[9..];
  }

  /** From the reclaimed row on: the second worker finishes, then the first one does. */
  lemma SecondThenFirst(c: Cell) returns (states: seq<Cell>)
    requires c.row.status.Pending? && c.row.scheduledFor <= 10 && c.row.name == "payment" && c.row.cancelAt.None?
    requires c.log == map[] && c.row.attempts == 1 && 1 in c.workers
    requires c.workers == map[1 := InPay("first", c.workers[1].snap, 10)]
    requires c.workers[1].snap.name == "payment" && c.commits == multiset{}
    ensures IsHistory(PAYMENTS, states, TAKEOVER[5..]) && states[0] == c
    ensures states[7].row.status.Success? && states[7].row.output == Some(JNum(2))
    ensures states[10].row.status.Success? && states[10].row.output == Some(JNum(1))
    ensures states[10].log == map["pay" := StepOk("pay", JNum(2))] && states[10].commits == multiset{"pay", "pay"}
  {
    var second := EnterPay(c, "second", 10, 10);
    var ends := BothFinish(second[4]);
    Join(PAYMENTS, second, TAKEOVER[5..9], ends, TAKEOVER[9..]);
    states := second[..4] + ends;
    assert TAKEOVER[5..9] + TAKEOVER[9..] == TAKEOVER[5..];
  }

  /** The first worker enters its step, and its row is reset. */
  lemma FirstEnters() returns (states: seq<Cell>)
    ensures IsHistory(PAYMENTS, states, TAKEOVER[..5]) && states[0] == NewCell(PAYMENT_ROW)
    ensures var c := states[5];
            && c.row == PAYMENT_ROW.(attempts := 1) && c.log == map[] && c.commits == multiset{}
            && 1 in c.workers && c.workers == map[1 := InPay("first", c.workers[1].snap, 10)]
            && c.workers[1].snap.name == "payment"
    ensures states[4].workers == states[5].workers
  {
    var first := EnterPay(NewCell(PAYMENT_ROW), "first", 0, 10);
    var taken := Apply(PAYMENTS, first[4], Reclaim(10));
    assert taken.workers == map[1 := InPay("first", ClaimRow(PAYMENT_ROW, "first", 0, 10), 10)];
    ExtendHistory(PAYMENTS, first, TAKEOVER[..4], Reclaim(10));
    states := first + [taken];
    assert TAKEOVER[..4] + [Reclaim(10)] == TAKEOVER[..5];
  }

  /** The takeover really is a history, it commits the user's write twice, and it breaks replay and finality. */
  lemma TakeoverBreaksReplay() returns (states: seq<Cell>)
    ensures FromTheStart(PAYMENTS, states, TAKEOVER)
    ensures states[12].row.status.Success? && states[12].row.output == Some(JNum(2))
    ensures states[15].row.status.Success? && states[15].row.output == Some(JNum(1))
    ensures states[15].log == map["pay" := StepOk("pay", JNum(2))] && states[15].commits["pay"] == 2
    ensures !Timely(states, TAKEOVER)
  {
    var first := FirstEnters();
    var rest := SecondThenFirst(first[5]);
    Join(PAYMENTS, first, TAKEOVER[..5], rest, TAKEOVER[5..]);
    states := first[..5] + rest;
    assert TAKEOVER[..5] + TAKEOVER[5..] == TAKEOVER;
    assert states[4] == first[4] && states[12] == rest[7] && states[15] == rest[10];
    assert !TimelyStep(states[4], TAKEOVER[4]) by { assert 1 in first[4].workers; }
  }
}
