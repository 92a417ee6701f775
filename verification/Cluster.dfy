/** Any number of executors over one table: boots, ticks, claims, submissions and workers, interleaved freely. */
module Clusters {
  import opened Values
  import opened Table
  import opened Worker
  import opened Cells
  import opened Budget
  import opened Lease
  import opened Replay
  import Cancellation
  import Stale

  /** `beat` is the `now` of the last tick that renewed this executor's leases, or that found none to renew. */
  datatype Exec = Exec(leaseMs: nat, bootedAt: int, tick: int, beat: int)

  datatype SubmitPhase = Inserting | Selecting | Returned(id: string) | Threw

  /** One call of startWorkflow: the id and row it proposes, and how far it has come. */
  datatype Submission = Submission(id: string, row: Row, phase: SubmitPhase)

  datatype Cluster = Cluster(
    time: int,
    execs: map<string, Exec>,
    cells: map<string, Cell>,
    submissions: map<nat, Submission>)

  datatype ClusterStep =
    | Wait(until: int)
    | Boot(exec: string, leaseMs: nat)
    | BootReclaim(exec: string)
    | StartTick(exec: string)
    | Heartbeat(exec: string)
    | ClaimRows(exec: string, filter: QueueFilter, limit: nat, chosen: set<string>)
    | RequestCancel(id: string)
    | WorkerDoes(id: string, st: CellStep)
    | Die(exec: string)
    | Submit(n: nat, id: string, row: Row)
    | InsertSubmitted(n: nat)
    | SelectSubmitted(n: nat)

  const EMPTY := Cluster(0, map[], map[], map[])

  function RowsOf(k: Cluster): Rows {
    map id | id in k.cells :: k.cells[id].row
  }

  predicate HasWorker(k: Cluster, exec: string) {
    exists id :: id in k.cells && exists a :: a in k.cells[id].workers && k.cells[id].workers[a].exec == exec
  }

  predicate IsWorkerStep(st: CellStep) {
    !st.Claim? && !st.Reclaim? && !st.ExtendLease? && !st.Cancel? && !st.Crash?
  }

  /** What a cluster step does to the cell `id`, if anything. */
  function Effect(k: Cluster, st: ClusterStep, id: string): Option<CellStep> {
    match st
    case BootReclaim(e) => if e in k.execs then Some(Reclaim(k.execs[e].bootedAt)) else None
    case Heartbeat(e) => if e in k.execs then Some(ExtendLease(e, k.execs[e].tick + k.execs[e].leaseMs)) else None
    case ClaimRows(e, _, _, chosen) =>
      if e in k.execs && id in chosen then Some(Claim(e, k.execs[e].tick, k.execs[e].leaseMs)) else None
    case RequestCancel(x) => if id == x then Some(CellStep.Cancel(k.time)) else None
    case WorkerDoes(x, cst) => if id == x then Some(cst) else None
    case Die(e) => Some(Crash(e))
    case _ => None
  }

  predicate UsesExec(st: ClusterStep) {
    st.BootReclaim? || st.StartTick? || st.Heartbeat? || st.ClaimRows? || st.Die?
  }

  predicate CanStep(registry: Registry, k: Cluster, st: ClusterStep) {
    && (UsesExec(st) ==> st.exec in k.execs)
    && (forall id :: id in k.cells && Effect(k, st, id).Some? ==>
          Enabled(registry, k.cells[id], Effect(k, st, id).value))
    && match st
       case Wait(until) => k.time <= until
       case Boot(e, _) => e !in k.execs
       case ClaimRows(e, filter, limit, chosen) => IsClaim(RowsOf(k), k.execs[e].tick, filter, limit, chosen)
       case WorkerDoes(_, cst) => IsWorkerStep(cst) && (cst.Finish? ==> cst.now <= k.time)
       case Submit(n, _, row) => n !in k.submissions && IsNewRow(row)
       case InsertSubmitted(n) => n in k.submissions && k.submissions[n].phase.Inserting?
       case SelectSubmitted(n) => n in k.submissions && k.submissions[n].phase.Selecting?
       case _ => true
  }

  /** ON CONFLICT(idempotency_key) DO NOTHING comes before the primary-key error. */
  function AfterInsert(k: Cluster, n: nat): Cluster
    requires n in k.submissions
  {
    var s := k.submissions[n];
    if KeyTaken(RowsOf(k), s.row.key) then k.(submissions := k.submissions[n := s.(phase := Selecting)])
    else if s.id in k.cells then k.(submissions := k.submissions[n := s.(phase := Threw)])
    else k.(submissions := k.submissions[n := s.(phase := Selecting)], cells := k.cells[s.id := NewCell(s.row)])
  }

  /** Which ids the select of startWorkflow may answer with: an empty key is not looked up. */
  predicate Answer(k: Cluster, s: Submission, id: string) {
    if s.row.key.Some? && s.row.key.value != "" && KeyTaken(RowsOf(k), s.row.key)
    then id in k.cells && k.cells[id].row.key == s.row.key
    else id == s.id
  }

  function Stepped(registry: Registry, k: Cluster, st: ClusterStep): map<string, Cell>
    requires forall id :: id in k.cells && Effect(k, st, id).Some? ==>
               Enabled(registry, k.cells[id], Effect(k, st, id).value)
  {
    map id | id in k.cells ::
      match Effect(k, st, id) case None => k.cells[id] case Some(cst) => Apply(registry, k.cells[id], cst)
  }

  ghost predicate Next(registry: Registry, k: Cluster, st: ClusterStep, k': Cluster) {
    && CanStep(registry, k, st)
    && var moved := k.(cells := Stepped(registry, k, st));
       match st
       case Wait(until) => k' == k.(time := until)
       case Boot(e, leaseMs) => k' == k.(execs := k.execs[e := Exec(leaseMs, k.time, k.time, k.time)])
       case StartTick(e) =>
         var x := k.execs[e].(tick := k.time, beat := if HasWorker(k, e) then k.execs[e].beat else k.time);
         k' == k.(execs := k.execs[e := x])
       case Heartbeat(e) => k' == moved.(execs := k.execs[e := k.execs[e].(beat := k.execs[e].tick)])
       case Die(e) => k' == moved.(execs := k.execs - {e})
       case Submit(n, id, row) => k' == k.(submissions := k.submissions[n := Submission(id, row, Inserting)])
       case InsertSubmitted(n) => k' == AfterInsert(k, n)
       case SelectSubmitted(n) =>
         exists id :: Answer(k, k.submissions[n], id)
                   && k' == k.(submissions := k.submissions[n := k.submissions[n].(phase := Returned(id))])
       case _ => k' == moved
  }

  /** The state after a step; `answer` is what a select of startWorkflow answers. */
  function Following(registry: Registry, k: Cluster, st: ClusterStep, answer: string): Cluster
    requires CanStep(registry, k, st)
  {
    match st
    case Wait(until) => k.(time := until)
    case Boot(e, leaseMs) => k.(execs := k.execs[e := Exec(leaseMs, k.time, k.time, k.time)])
    case StartTick(e) =>
      var beat := if HasWorker(k, e) then k.execs[e].beat else k.time;
      k.(execs := k.execs[e := k.execs[e].(tick := k.time, beat := beat)])
    case Heartbeat(e) =>
      k.(cells := Stepped(registry, k, st), execs := k.execs[e := k.execs[e].(beat := k.execs[e].tick)])
    case Die(e) => k.(cells := Stepped(registry, k, st), execs := k.execs - {e})
    case Submit(n, id, row) => k.(submissions := k.submissions[n := Submission(id, row, Inserting)])
    case InsertSubmitted(n) => AfterInsert(k, n)
    case SelectSubmitted(n) => k.(submissions := k.submissions[n := k.submissions[n].(phase := Returned(answer))])
    case _ => k.(cells := Stepped(registry, k, st))
  }

  lemma FollowingIsNext(registry: Registry, k: Cluster, st: ClusterStep, answer: string)
    requires CanStep(registry, k, st) && (st.SelectSubmitted? ==> Answer(k, k.submissions[st.n], answer))
    ensures Next(registry, k, st, Following(registry, k, st, answer))
  {
  }

  ghost predicate IsRun(registry: Registry, run: seq<Cluster>, steps: seq<ClusterStep>) {
    && |run| == |steps| + 1
    && run[0] == EMPTY
    && forall i :: 0 <= i < |steps| ==> Next(registry, run[i], steps[i], run[i + 1])
  }

  /**
   * Every executor that has live workers renewed their leases less than its leaseMs after its previous renewal's
   * now.
   */
  ghost predicate HeartbeatsOnTime(k: Cluster) {
    forall e :: e in k.execs && HasWorker(k, e) ==> k.time < k.execs[e].beat + k.execs[e].leaseMs
  }

  /** The hypothesis on a run: heartbeats are on time whenever a booting executor reclaims. */
  ghost predicate OnTime(run: seq<Cluster>, steps: seq<ClusterStep>)
    requires |run| == |steps| + 1
  {
    forall i :: 0 <= i < |steps| && steps[i].BootReclaim? ==> HeartbeatsOnTime(run[i])
  }

  // ----- the tables see exactly the statements of the runtime -----

  /** A stored cell stays, and the step's effect on it is the whole change. */
  ghost predicate Moved(registry: Registry, k: Cluster, st: ClusterStep, k': Cluster, id: string) {
    && id in k.cells && id in k'.cells
    && (Effect(k, st, id).None? ==> k'.cells[id] == k.cells[id])
    && (Effect(k, st, id).Some? ==>
          && Enabled(registry, k.cells[id], Effect(k, st, id).value)
          && k'.cells[id] == Apply(registry, k.cells[id], Effect(k, st, id).value))
  }

  lemma EachCellMoves(registry: Registry, k: Cluster, st: ClusterStep, k': Cluster)
    requires Next(registry, k, st, k')
    ensures forall id :: id in k.cells ==> Moved(registry, k, st, k', id)
    ensures !st.InsertSubmitted? ==> k'.cells.Keys == k.cells.Keys
  {
  }

  /** Each step changes the row table by the statement it stands for. */
  lemma TableView(registry: Registry, k: Cluster, st: ClusterStep, k': Cluster)
    requires Next(registry, k, st, k')
    ensures st.BootReclaim? ==> RowsOf(k') == Reclaimed(RowsOf(k), k.execs[st.exec].bootedAt)
    ensures st.Heartbeat? ==>
              RowsOf(k') == Extended(RowsOf(k), st.exec, k.execs[st.exec].tick + k.execs[st.exec].leaseMs)
    ensures st.ClaimRows? ==>
              RowsOf(k') == Claimed(RowsOf(k), st.chosen, st.exec, k.execs[st.exec].tick, k.execs[st.exec].leaseMs)
    ensures st.InsertSubmitted? ==>
              RowsOf(k') == if !KeyTaken(RowsOf(k), k.submissions[st.n].row.key) && k.submissions[st.n].id !in RowsOf(k)
                            then RowsOf(k)[k.submissions[st.n].id := k.submissions[st.n].row] else RowsOf(k)
  {
    EachCellMoves(registry, k, st, k');
    if st.BootReclaim? {
      ReclaimView(registry, k, k', k.execs[st.exec].bootedAt);
    } else if st.Heartbeat? {
      HeartbeatView(registry, k, k', st.exec, k.execs[st.exec].tick + k.execs[st.exec].leaseMs);
    } else if st.ClaimRows? {
      ClaimView(registry, k, k', st.chosen, st.exec, k.execs[st.exec].tick, k.execs[st.exec].leaseMs);
    } else if st.InsertSubmitted? {
      InsertView(registry, k, st.n, k');
    }
  }

  /** The statements on one row, cancel and final write, change that row; worker steps that write no row change none. */
  lemma RowView(registry: Registry, k: Cluster, st: ClusterStep, k': Cluster)
    requires Next(registry, k, st, k') && (st.RequestCancel? || st.WorkerDoes?)
    ensures st.id !in k.cells ==> RowsOf(k') == RowsOf(k)
    ensures st.RequestCancel? && st.id in k.cells ==>
              RowsOf(k') == RowsOf(k)[st.id := CancelRow(RowsOf(k)[st.id], k.time)]
    ensures st.WorkerDoes? && st.id in k.cells ==> RowsOf(k') == RowsOf(k)[st.id := RowAfter(k.cells[st.id], st.st)]
  {
    var cst := if st.RequestCancel? then CellStep.Cancel(k.time) else st.st;
    OneCellMoves(registry, k, st, k');
    if st.id in k.cells {
      OneRow(registry, k.cells[st.id], cst);
    }
    OneRowChanged(k, k', st.id);
  }

  /** A cancel request and a worker step move one cell and leave the others. */
  lemma OneCellMoves(registry: Registry, k: Cluster, st: ClusterStep, k': Cluster)
    requires Next(registry, k, st, k') && (st.RequestCancel? || st.WorkerDoes?)
    ensures k'.cells.Keys == k.cells.Keys && forall x :: x in k.cells && x != st.id ==> k'.cells[x] == k.cells[x]
    ensures st.WorkerDoes? ==> IsWorkerStep(st.st)
    ensures st.id in k.cells ==>
              Leads(registry, k.cells[st.id], if st.RequestCancel? then CellStep.Cancel(k.time) else st.st,
                    k'.cells[st.id])
  {
    EachCellMoves(registry, k, st, k');
    forall x | x in k.cells && x != st.id ensures k'.cells[x] == k.cells[x] {
      assert Moved(registry, k, st, k', x);
    }
    if st.id in k.cells {
      assert Moved(registry, k, st, k', st.id);
    }
  }

  /** What a worker's step does to its row: only the final write touches it, whoever the row belongs to by then. */
  function RowAfter(c: Cell, cst: CellStep): Row {
    if cst.Finish? && cst.a in c.workers && c.workers[cst.a].phase.Finishing?
    then FinishRow(c.row, c.workers[cst.a], cst.now) else c.row
  }

  /** No other step changes the row table. */
  lemma QuietView(registry: Registry, k: Cluster, st: ClusterStep, k': Cluster)
    requires Next(registry, k, st, k') && !WritesRows(st)
    ensures RowsOf(k') == RowsOf(k)
  {
    if st.Die? {
      EachCellMoves(registry, k, st, k');
    }
  }

  /** The steps that send a statement to the row table. */
  predicate WritesRows(st: ClusterStep) {
    st.BootReclaim? || st.Heartbeat? || st.ClaimRows? || st.RequestCancel? || st.WorkerDoes? || st.InsertSubmitted?
  }

  /**
   * Each step changes the step logs by the statement it stands for: only a commit stores a row, and only where
   * none is.
   */
  lemma LogView(registry: Registry, k: Cluster, st: ClusterStep, k': Cluster, id: string)
    requires Next(registry, k, st, k') && id in k.cells
    ensures id in k'.cells
    ensures k'.cells[id].log ==
            if st.WorkerDoes? && st.id == id && st.st.Commit?
            then var phase := k.cells[id].workers[st.st.a].phase;
                 InsertOrIgnore(k.cells[id].log, phase.stepId, StepOk(phase.name, st.st.value))
            else k.cells[id].log
  {
    EachCellMoves(registry, k, st, k');
    assert Moved(registry, k, st, k', id);
  }

  lemma OneRowChanged(k: Cluster, k': Cluster, id: string)
    requires k'.cells.Keys == k.cells.Keys && forall x :: x in k.cells && x != id ==> k'.cells[x] == k.cells[x]
    ensures RowsOf(k') == if id in k.cells then RowsOf(k)[id := k'.cells[id].row] else RowsOf(k)
  {
  }

  lemma OneRow(registry: Registry, c: Cell, cst: CellStep)
    requires Enabled(registry, c, cst) && (IsWorkerStep(cst) || cst.Cancel?)
    ensures Apply(registry, c, cst).row == if cst.Cancel? then CancelRow(c.row, cst.now) else RowAfter(c, cst)
  {
  }

  lemma ReclaimView(registry: Registry, k: Cluster, k': Cluster, now: int)
    requires k'.cells.Keys == k.cells.Keys
    requires forall id :: id in k.cells ==> k'.cells[id] == Apply(registry, k.cells[id], Reclaim(now))
    ensures RowsOf(k') == Reclaimed(RowsOf(k), now)
  {
  }

  lemma HeartbeatView(registry: Registry, k: Cluster, k': Cluster, exec: string, expiry: int)
    requires k'.cells.Keys == k.cells.Keys
    requires forall id :: id in k.cells ==> k'.cells[id] == Apply(registry, k.cells[id], ExtendLease(exec, expiry))
    ensures RowsOf(k') == Extended(RowsOf(k), exec, expiry)
  {
  }

  lemma ClaimView(registry: Registry, k: Cluster, k': Cluster, chosen: set<string>, exec: string, now: int,
                  leaseMs: nat)
    requires k'.cells.Keys == k.cells.Keys
    requires forall id :: id in k.cells ==>
               if id in chosen
               then Enabled(registry, k.cells[id], Claim(exec, now, leaseMs))
                    && k'.cells[id] == Apply(registry, k.cells[id], Claim(exec, now, leaseMs))
               else k'.cells[id] == k.cells[id]
    ensures RowsOf(k') == Claimed(RowsOf(k), chosen, exec, now, leaseMs)
  {
  }

  lemma InsertView(registry: Registry, k: Cluster, n: nat, k': Cluster)
    requires n in k.submissions && k' == AfterInsert(k, n)
    ensures RowsOf(k') == if !KeyTaken(RowsOf(k), k.submissions[n].row.key) && k.submissions[n].id !in RowsOf(k)
                          then RowsOf(k)[k.submissions[n].id := k.submissions[n].row] else RowsOf(k)
  {
  }

  // ----- every cell of a run lives through a history of its own -----

  ghost predicate LeasesKnown(k: Cluster) {
    && (forall e :: e in k.execs ==> k.execs[e].bootedAt <= k.time && k.execs[e].beat <= k.execs[e].tick <= k.time)
    && (forall id, a :: id in k.cells && a in k.cells[id].workers ==> LeaseKnown(k, k.cells[id].workers[a]))
  }

  /** Submissions propose new rows, and what each executor's workers were promised is on record. */
  ghost predicate Sound(k: Cluster) {
    LeasesKnown(k) && forall n :: n in k.submissions ==> IsNewRow(k.submissions[n].row)
  }

  ghost predicate LeaseKnown(k: Cluster, w: WorkerState) {
    w.exec in k.execs && k.execs[w.exec].beat + k.execs[w.exec].leaseMs <= w.leaseUntil
  }

  /** One step of a cell keeps every worker's executor, and its lease unless the executor renews it. */
  lemma WorkersKept(registry: Registry, c: Cell, st: CellStep, a: nat)
    requires Enabled(registry, c, st) && a in Apply(registry, c, st).workers
    ensures var w := Apply(registry, c, st).workers[a];
            || (st.Claim? && w.exec == st.exec && w.leaseUntil == st.now + st.leaseMs)
            || (a in c.workers && w.exec == c.workers[a].exec && (st.Crash? ==> w.exec != st.exec)
                && w.leaseUntil == if st.ExtendLease? && w.exec == st.exec then st.expiry else c.workers[a].leaseUntil)
  {
  }

  /** How a step changes the executors: only its own, whose renewals never go back. */
  lemma ExecsStep(registry: Registry, k: Cluster, st: ClusterStep, k': Cluster)
    requires Next(registry, k, st, k') && LeasesKnown(k)
    ensures k.time <= k'.time
    ensures forall e :: e in k'.execs ==> k'.execs[e].bootedAt <= k'.time
    ensures forall e :: e in k'.execs ==> k'.execs[e].beat <= k'.execs[e].tick <= k'.time
    ensures forall e :: e in k.execs && !(st.Die? && st.exec == e) ==> e in k'.execs
    ensures forall e :: e in k.execs && e in k'.execs ==>
              && k'.execs[e].leaseMs == k.execs[e].leaseMs
              && ((st.Heartbeat? && st.exec == e && k'.execs[e].beat == k.execs[e].tick)
                  || (st.StartTick? && st.exec == e && !HasWorker(k, e))
                  || k'.execs[e].beat == k.execs[e].beat)
  {
  }

  lemma LeaseStep(registry: Registry, k: Cluster, st: ClusterStep, k': Cluster, id: string, a: nat)
    requires Next(registry, k, st, k') && LeasesKnown(k)
    requires id in k.cells && Moved(registry, k, st, k', id) && a in k'.cells[id].workers
    ensures LeaseKnown(k', k'.cells[id].workers[a])
  {
    ExecsStep(registry, k, st, k');
    var w := k'.cells[id].workers[a];
    if Effect(k, st, id).Some? {
      WorkersKept(registry, k.cells[id], Effect(k, st, id).value, a);
      assert IsWorkerStep(Effect(k, st, id).value) || !st.WorkerDoes?;
      if a in k.cells[id].workers && w.exec == k.cells[id].workers[a].exec {
        assert LeaseKnown(k, k.cells[id].workers[a]);
      }
    } else {
      assert LeaseKnown(k, w);
      assert HasWorker(k, w.exec);
    }
  }

  lemma LeasesKnownStep(registry: Registry, k: Cluster, st: ClusterStep, k': Cluster)
    requires Next(registry, k, st, k') && LeasesKnown(k)
    ensures LeasesKnown(k')
  {
    EachCellMoves(registry, k, st, k');
    ExecsStep(registry, k, st, k');
    forall id, a | id in k'.cells && a in k'.cells[id].workers ensures LeaseKnown(k', k'.cells[id].workers[a]) {
      if id in k.cells {
        LeaseStep(registry, k, st, k', id, a);
      } else {
        NewCellsAreEmpty(registry, k, st, k', id);
      }
    }
  }

  lemma NewCellsAreEmpty(registry: Registry, k: Cluster, st: ClusterStep, k': Cluster, id: string)
    requires Next(registry, k, st, k') && id in k'.cells && id !in k.cells
    ensures st.InsertSubmitted? && id == k.submissions[st.n].id
    ensures k'.cells[id] == NewCell(k.submissions[st.n].row) && !KeyTaken(RowsOf(k), k.submissions[st.n].row.key)
  {
  }

  lemma {:induction false} SoundAlways(registry: Registry, run: seq<Cluster>, steps: seq<ClusterStep>, i: nat)
    requires IsRun(registry, run, steps) && i < |run|
    ensures Sound(run[i])
  {
    if i > 0 {
      SoundAlways(registry, run, steps, i - 1);
      LeasesKnownStep(registry, run[i - 1], steps[i - 1], run[i]);
      SubmissionsStayNew(registry, run[i - 1], steps[i - 1], run[i]);
    }
  }

  lemma SubmissionsStayNew(registry: Registry, k: Cluster, st: ClusterStep, k': Cluster)
    requires Next(registry, k, st, k') && forall n :: n in k.submissions ==> IsNewRow(k.submissions[n].row)
    ensures forall n :: n in k'.submissions ==> IsNewRow(k'.submissions[n].row)
  {
  }

  /** On-time heartbeats of the executors make every reclaim timely for every cell. */
  lemma OnTimeIsTimely(k: Cluster, st: ClusterStep, id: string)
    requires LeasesKnown(k) && id in k.cells && Effect(k, st, id).Some?
    requires st.BootReclaim? ==> HeartbeatsOnTime(k)
    requires st.WorkerDoes? ==> IsWorkerStep(st.st)
    ensures TimelyStep(k.cells[id], Effect(k, st, id).value)
  {
    if st.BootReclaim? {
      forall a | a in k.cells[id].workers ensures k.execs[st.exec].bootedAt < k.cells[id].workers[a].leaseUntil {
        assert LeaseKnown(k, k.cells[id].workers[a]);
        assert HasWorker(k, k.cells[id].workers[a].exec);
      }
    }
  }

  /** A history of one cell, from its insertion, that passes `from` at index `mid` and ends in `to`. */
  ghost predicate Lives(registry: Registry, states: seq<Cell>, steps: seq<CellStep>, mid: nat, from: Cell, to: Cell) {
    FromTheStart(registry, states, steps) && mid < |states| && states[mid] == from && states[|steps|] == to
  }

  lemma ExtendTimely(registry: Registry, states: seq<Cell>, steps: seq<CellStep>, st: CellStep)
    requires IsHistory(registry, states, steps) && Timely(states, steps)
    requires Enabled(registry, states[|steps|], st) && TimelyStep(states[|steps|], st)
    ensures Timely(states + [Apply(registry, states[|steps|], st)], steps + [st])
  {
    forall i | 0 <= i < |steps + [st]|
      ensures TimelyStep((states + [Apply(registry, states[|steps|], st)])[i], (steps + [st])[i])
    {
      if i < |steps| {
        assert TimelyStep(states[i], steps[i]);
      }
    }
  }

  lemma LivesOn(registry: Registry, k: Cluster, st: ClusterStep, k': Cluster, id: string,
                states: seq<Cell>, csteps: seq<CellStep>, mid: nat, from: Cell)
    returns (states': seq<Cell>, csteps': seq<CellStep>)
    requires LeasesKnown(k) && Moved(registry, k, st, k', id) && (st.WorkerDoes? ==> IsWorkerStep(st.st))
    requires Lives(registry, states, csteps, mid, from, k.cells[id])
    ensures Lives(registry, states', csteps', mid, from, k'.cells[id])
    ensures Timely(states, csteps) && (st.BootReclaim? ==> HeartbeatsOnTime(k)) ==> Timely(states', csteps')
  {
    if Effect(k, st, id).Some? {
      var cst := Effect(k, st, id).value;
      states', csteps' := states + [Apply(registry, k.cells[id], cst)], csteps + [cst];
      ExtendHistory(registry, states, csteps, cst);
      if Timely(states, csteps) && (st.BootReclaim? ==> HeartbeatsOnTime(k)) {
        OnTimeIsTimely(k, st, id);
        ExtendTimely(registry, states, csteps, cst);
      }
    } else {
      states', csteps' := states, csteps;
    }
  }

  /** What one step of a run means for a cell that is stored before it. */
  lemma CellInRun(registry: Registry, run: seq<Cluster>, steps: seq<ClusterStep>, id: string, i: nat)
    requires IsRun(registry, run, steps) && i < |steps| && id in run[i].cells
    ensures LeasesKnown(run[i]) && Moved(registry, run[i], steps[i], run[i + 1], id)
    ensures steps[i].WorkerDoes? ==> IsWorkerStep(steps[i].st)
  {
    SoundAlways(registry, run, steps, i);
    assert Next(registry, run[i], steps[i], run[i + 1]);
    EachCellMoves(registry, run[i], steps[i], run[i + 1]);
  }

  lemma {:induction false} Origin(registry: Registry, run: seq<Cluster>, steps: seq<ClusterStep>, id: string, i: nat)
    returns (states: seq<Cell>, csteps: seq<CellStep>)
    requires IsRun(registry, run, steps) && i < |run| && id in run[i].cells
    ensures FromTheStart(registry, states, csteps) && states[|csteps|] == run[i].cells[id]
    ensures OnTime(run, steps) ==> Timely(states, csteps)
  {
    SoundAlways(registry, run, steps, i - 1);
    assert Next(registry, run[i - 1], steps[i - 1], run[i]);
    if id in run[i - 1].cells {
      states, csteps := Origin(registry, run, steps, id, i - 1);
      CellInRun(registry, run, steps, id, i - 1);
      states, csteps := LivesOn(registry, run[i - 1], steps[i - 1], run[i], id, states, csteps, |csteps|,
                                run[i - 1].cells[id]);
    } else {
      NewCellsAreEmpty(registry, run[i - 1], steps[i - 1], run[i], id);
      states, csteps := [run[i].cells[id]], [];
    }
  }

  /** Every run projects, for every stored id, onto a history of its cell; on-time runs onto timely histories. */
  lemma {:induction false} Projection(
    registry: Registry, run: seq<Cluster>, steps: seq<ClusterStep>, id: string, i: nat, j: nat)
    returns (states: seq<Cell>, csteps: seq<CellStep>, mid: nat)
    requires IsRun(registry, run, steps) && i <= j < |run| && id in run[i].cells
    ensures id in run[j].cells && Lives(registry, states, csteps, mid, run[i].cells[id], run[j].cells[id])
    ensures OnTime(run, steps) ==> Timely(states, csteps)
    decreases j - i
  {
    if i == j {
      states, csteps := Origin(registry, run, steps, id, i);
      mid := |csteps|;
    } else {
      states, csteps, mid := Projection(registry, run, steps, id, i, j - 1);
      CellInRun(registry, run, steps, id, j - 1);
      states, csteps := LivesOn(registry, run[j - 1], steps[j - 1], run[j], id, states, csteps, mid, run[i].cells[id]);
    }
  }

  // ----- the guarantees, over whole runs of any number of executors -----

  /** At most one live worker for each row, known to it; and a booting executor leaves such rows alone. */
  lemma ClusterExclusion(registry: Registry, run: seq<Cluster>, steps: seq<ClusterStep>, i: nat, id: string)
    requires IsRun(registry, run, steps) && OnTime(run, steps) && i < |run| && id in run[i].cells
    ensures Exclusive(run[i].cells[id]) && Coherent(run[i].cells[id].row) && |run[i].cells[id].workers| <= 1
    ensures i < |steps| && steps[i].BootReclaim? && run[i].cells[id].workers != map[] ==>
              id in run[i + 1].cells && run[i + 1].cells[id] == run[i].cells[id]
  {
    var states, csteps, mid := Projection(registry, run, steps, id, i, i);
    LeaseExclusion(registry, states, csteps, |csteps|);
    OneLiveWorker(registry, states, csteps, |csteps|);
    if i < |steps| && steps[i].BootReclaim? && run[i].cells[id].workers != map[] {
      assert Next(registry, run[i], steps[i], run[i + 1]);
      EachCellMoves(registry, run[i], steps[i], run[i + 1]);
      SoundAlways(registry, run, steps, i);
      OnTimeIsTimely(run[i], steps[i], id);
    }
  }

  /** A workflow that has reached a terminal status keeps its row, its log and its histories for ever. */
  lemma ClusterFinality(registry: Registry, run: seq<Cluster>, steps: seq<ClusterStep>, i: nat, j: nat, id: string)
    requires IsRun(registry, run, steps) && OnTime(run, steps) && i <= j < |run| && id in run[i].cells
    requires run[i].cells[id].row.status.Terminal()
    ensures id in run[j].cells && run[j].cells[id].row == run[i].cells[id].row
    ensures run[j].cells[id].log == run[i].cells[id].log && run[j].cells[id].commits == run[i].cells[id].commits
    ensures run[j].cells[id].runs == run[i].cells[id].runs && run[j].cells[id].workers == map[]
  {
    var states, csteps, mid := Projection(registry, run, steps, id, i, j);
    TerminalIsFinal(registry, states, csteps, mid, |csteps|);
  }

  /** The same with no assumption on leases, once a terminal row has no worker left: exactly then it is final. */
  lemma ClusterFinalWhenAlone(registry: Registry, run: seq<Cluster>, steps: seq<ClusterStep>, i: nat, j: nat,
                              id: string)
    requires IsRun(registry, run, steps) && i <= j < |run| && id in run[i].cells
    requires run[i].cells[id].row.status.Terminal() && run[i].cells[id].workers == map[]
    ensures id in run[j].cells && run[j].cells[id] == run[i].cells[id]
  {
    var states, csteps, mid := Projection(registry, run, steps, id, i, j);
    Stale.Resting(registry, states[mid..], csteps[mid..], |csteps| - mid);
  }

  lemma CancelStep(registry: Registry, k: Cluster, st: ClusterStep, k': Cluster, id: string)
    requires Next(registry, k, st, k') && st == RequestCancel(id) && id in k.cells
    requires k.cells[id].row.status == Pending
    ensures id in k'.cells
    ensures k'.cells[id] == k.cells[id].(row := k.cells[id].row.(status := Status.Cancelled, cancelAt := Some(k.time),
                                                                 endedAt := Some(k.time)))
  {
    EachCellMoves(registry, k, st, k');
    assert Moved(registry, k, st, k', id);
  }

  /**
   * A cancel request on a pending row that no worker holds ends it: with no assumption on leases, the row is cancelled
   * for ever, no step function of it is called again and nothing of it is stored.
   */
  lemma CancelledBeforeItRuns(registry: Registry, run: seq<Cluster>, steps: seq<ClusterStep>, i: nat, j: nat,
                              id: string)
    requires IsRun(registry, run, steps) && i < j < |run| && id in run[i].cells && steps[i] == RequestCancel(id)
    requires run[i].cells[id].row.status == Pending && run[i].cells[id].workers == map[]
    ensures id in run[j].cells
    ensures var r := run[i].cells[id].row;
            run[j].cells[id].row ==
            r.(status := Status.Cancelled, cancelAt := Some(run[i].time), endedAt := Some(run[i].time))
    ensures run[j].cells[id].runs == run[i].cells[id].runs && run[j].cells[id].log == run[i].cells[id].log
    ensures run[j].cells[id].workers == map[]
  {
    assert Next(registry, run[i], steps[i], run[i + 1]);
    CancelStep(registry, run[i], steps[i], run[i + 1], id);
    ClusterFinalWhenAlone(registry, run, steps, i + 1, j, id);
  }

  /**
   * A step id that only transactional steps of the workflow use: its write was committed once if its row is
   * stored, else never.
   */
  lemma ClusterExactlyOnce(registry: Registry, run: seq<Cluster>, steps: seq<ClusterStep>, i: nat, id: string,
                           stepId: string)
    requires IsRun(registry, run, steps) && OnTime(run, steps) && i < |run| && id in run[i].cells
    requires run[i].cells[id].row.name in registry
    requires Stale.AlwaysTx(registry, run[i].cells[id].row.name, run[i].cells[id].row.input, stepId)
    ensures run[i].cells[id].commits[stepId] == if stepId in run[i].cells[id].log then 1 else 0
  {
    var states, csteps, mid := Projection(registry, run, steps, id, i, i);
    OnlyGrows(registry, states, csteps, 0, |csteps|);
    Stale.OneWriteForEachRow(registry, states, csteps, |csteps|, stepId);
  }

  /** Replay transparency and exactly-once writes for every workflow of a registered name. */
  lemma ClusterReplay(registry: Registry, run: seq<Cluster>, steps: seq<ClusterStep>, i: nat, id: string)
    returns (path: seq<Json>)
    requires IsRun(registry, run, steps) && OnTime(run, steps) && i < |run| && id in run[i].cells
    requires run[i].cells[id].row.name in registry
    ensures Replays(registry[run[i].cells[id].row.name], run[i].cells[id], path)
  {
    var states, csteps, mid := Projection(registry, run, steps, id, i, i);
    OnlyGrows(registry, states, csteps, 0, |csteps|);
    path := ReplayTransparency(registry, states, csteps, |csteps|);
  }

  /** The dispatch budget needs no assumption on leases; neither does the permanence of what is recorded. */
  lemma ClusterBudget(registry: Registry, run: seq<Cluster>, steps: seq<ClusterStep>, i: nat, j: nat, id: string,
                      stepId: string)
    requires IsRun(registry, run, steps) && i <= j < |run| && id in run[i].cells
    ensures id in run[j].cells && Grew(run[i].cells[id], run[j].cells[id])
    ensures run[j].cells[id].row.attempts <= Max(1, run[j].cells[id].row.maxAttempts) + run[j].cells[id].resets
    ensures RunsOf(run[j].cells[id].runs, stepId) <= run[j].cells[id].row.attempts
  {
    var states, csteps, mid := Projection(registry, run, steps, id, i, j);
    OnlyGrows(registry, states, csteps, mid, |csteps|);
    DispatchBudget(registry, states, csteps, |csteps|, stepId);
  }

  /** After a cancellation request on a row, only step functions already past their check may still be called. */
  lemma ClusterCancellation(registry: Registry, run: seq<Cluster>, steps: seq<ClusterStep>, i: nat, j: nat, id: string)
    requires IsRun(registry, run, steps) && i <= j < |run| && id in run[i].cells
    requires run[i].cells[id].row.cancelAt.Some?
    ensures id in run[j].cells && run[j].cells[id].row.cancelAt.Some?
    ensures |run[j].cells[id].runs| <= |run[i].cells[id].runs| + |Cancellation.PastCheck(run[i].cells[id])|
    ensures OnTime(run, steps) ==> |run[j].cells[id].runs| <= |run[i].cells[id].runs| + 1
    ensures run[j].cells[id].log.Keys <= run[i].cells[id].log.Keys + Cancellation.EnteredIds(run[i].cells[id])
  {
    var states, csteps, mid := Projection(registry, run, steps, id, i, j);
    Cancellation.CancellationIsPermanent(registry, states, csteps, mid, |csteps|);
    Cancellation.OnlyEnteredAlways(registry, states, csteps, mid, |csteps|);
    if OnTime(run, steps) {
      ClusterExclusion(registry, run, steps, i, id);
      var c := run[i].cells[id];
      SubsetSize(Cancellation.PastCheck(c), c.workers.Keys);
      assert |c.workers.Keys| == |c.workers|;
    }
  }
}
