/** The two tables `_dc_workflow` and `_dc_step`, and every SQL statement the runtime sends to them. */
module Table {
  import opened Values

  datatype Status = Pending | Running | Success | Failed | Cancelled {
    predicate Terminal() {
      Success? || Failed? || Cancelled?
    }
  }

  /** One `_dc_workflow` row; its primary key is the key of the map it is stored in. */
  datatype Row = Row(
    name: string,
    status: Status,
    queue: Option<string>,
    input: Json,
    output: Option<Json>,
    error: Option<string>,
    attempts: nat,
    maxAttempts: int,
    executor: Option<string>,
    scheduledFor: int,
    createdAt: int,
    startedAt: Option<int>,
    endedAt: Option<int>,
    key: Option<string>,
    cancelAt: Option<int>,
    claimExpiresAt: Option<int>)

  /** One `_dc_step` row. A stored failure only comes from an older version; nothing here writes one. */
  datatype StepRow = StepOk(name: string, output: Json) | StepError(name: string, message: string)

  type Rows = map<string, Row>
  type Log = map<string, StepRow>

  // ----- what each statement does to a row it matches -----

  function NewRow(name: string, queue: Option<string>, input: Json, maxAttempts: int, scheduledFor: int, now: int,
                  key: Option<string>): Row {
    Row(name, Pending, queue, input, None, None, 0, maxAttempts, None, scheduledFor, now, None, None, key, None, None)
  }

  function ClaimRow(r: Row, exec: string, now: int, leaseMs: nat): Row {
    r.(status := Running, executor := Some(exec), startedAt := if r.startedAt.Some? then r.startedAt else Some(now),
       claimExpiresAt := Some(now + leaseMs), attempts := r.attempts + 1)
  }

  predicate Expired(r: Row, now: int) {
    r.status.Running? && (r.claimExpiresAt.None? || r.claimExpiresAt.value <= now)
  }

  function ReclaimRow(r: Row): Row {
    r.(status := Pending, executor := None, startedAt := None, claimExpiresAt := None)
  }

  predicate OwnedBy(r: Row, exec: string) {
    r.status.Running? && r.executor == Some(exec)
  }

  function FinalizeRow(r: Row, status: Status, endedAt: int, output: Option<Json>, error: Option<string>): Row {
    r.(status := status, endedAt := Some(endedAt), output := output, error := error, executor := None,
       claimExpiresAt := None)
  }

  function RequeueRow(r: Row, nextRunAt: int): Row {
    r.(status := Pending, executor := None, startedAt := None, claimExpiresAt := None, scheduledFor := nextRunAt)
  }

  function CancelRow(r: Row, now: int): Row {
    match r.status
    case Pending => r.(status := Cancelled, cancelAt := Some(now), endedAt := Some(now))
    case Running => r.(cancelAt := Some(now))
    case _ => r
  }

  /** INSERT OR IGNORE: the first row stored under an id stays. */
  function InsertOrIgnore<K>(log: map<K, StepRow>, id: K, row: StepRow): map<K, StepRow> {
    if id in log then log else log[id := row]
  }

  // ----- whole-table effects -----

  function Reclaimed(rows: Rows, now: int): Rows {
    map id | id in rows :: if Expired(rows[id], now) then ReclaimRow(rows[id]) else rows[id]
  }

  function Extended(rows: Rows, exec: string, newExpiry: int): Rows {
    map id | id in rows ::
      if OwnedBy(rows[id], exec) then rows[id].(claimExpiresAt := Some(newExpiry)) else rows[id]
  }

  function Claimed(rows: Rows, chosen: set<string>, exec: string, now: int, leaseMs: nat): Rows {
    map id | id in rows :: if id in chosen then ClaimRow(rows[id], exec, now, leaseMs) else rows[id]
  }

  predicate KeyTaken(rows: Rows, key: Option<string>) {
    key.Some? && exists id :: id in rows && rows[id].key == key
  }

  // ----- which rows a claim takes -----

  datatype QueueFilter = AnyQueue | NoQueue | Named(queue: string)

  predicate Matches(r: Row, filter: QueueFilter) {
    match filter
    case AnyQueue => true
    case NoQueue => r.queue.None?
    case Named(q) => r.queue == Some(q)
  }

  predicate Ready(r: Row, now: int, filter: QueueFilter) {
    r.status.Pending? && r.scheduledFor <= now && Matches(r, filter)
  }

  /** ORDER BY scheduled_for, created_at. Rows that tie come back in either order. */
  predicate Before(r: Row, s: Row) {
    r.scheduledFor < s.scheduledFor || (r.scheduledFor == s.scheduledFor && r.createdAt < s.createdAt)
  }

  function ReadyIds(rows: Rows, now: int, filter: QueueFilter): set<string> {
    set id | id in rows && Ready(rows[id], now, filter)
  }

  /** A claim may take exactly the sets that hold min(limit, ready) ready rows with no ready row ahead of them left. */
  predicate IsClaim(rows: Rows, now: int, filter: QueueFilter, limit: nat, chosen: set<string>) {
    var ready := ReadyIds(rows, now, filter);
    && chosen <= ready
    && |chosen| == Min(limit, |ready|)
    && forall id, left :: id in chosen && left in ready - chosen ==> !Before(rows[left], rows[id])
  }

  lemma {:induction false} SomeRowIsFirst(rows: Rows, pool: set<string>) returns (first: string)
    requires pool != {} && pool <= rows.Keys
    ensures first in pool && forall id :: id in pool ==> !Before(rows[id], rows[first])
  {
    var x :| x in pool;
    if pool == {x} {
      first := x;
    } else {
      var y := SomeRowIsFirst(rows, pool - {x});
      first := if Before(rows[x], rows[y]) then x else y;
    }
  }

  /** The rows are picked one at a time, each first among those left. */
  method PickFirst(rows: Rows, now: int, limit: nat, filter: QueueFilter) returns (chosen: set<string>)
    ensures IsClaim(rows, now, filter, limit, chosen)
  {
    var pool := ReadyIds(rows, now, filter);
    ghost var ready := pool;
    chosen := {};
    while |chosen| < limit && pool != {}
      invariant ready <= rows.Keys && chosen + pool == ready && chosen !! pool && |chosen| <= limit
      invariant forall id, left :: id in chosen && left in pool ==> !Before(rows[left], rows[id])
      decreases pool
    {
      var _ := SomeRowIsFirst(rows, pool);
      var first :| first in pool && forall id :: id in pool ==> !Before(rows[id], rows[first]);
      pool := pool - {first};
      chosen := chosen + {first};
    }
    assert ready - chosen == pool;
    assert |ready| == |chosen| + |pool|;
  }

  /**
   * What a claim takes, said of the rows' columns: pending rows that are due, of the queue asked for; if it leaves such
   * a row behind it has filled its limit, with rows that are not behind it by scheduled_for and then created_at.
   */
  lemma ClaimMeans(rows: Rows, now: int, filter: QueueFilter, limit: nat, chosen: set<string>)
    requires IsClaim(rows, now, filter, limit, chosen)
    ensures chosen <= rows.Keys && |chosen| <= limit
    ensures forall id :: id in chosen ==> rows[id].status == Pending && rows[id].scheduledFor <= now
    ensures filter == NoQueue ==> forall id :: id in chosen ==> rows[id].queue == None
    ensures filter.Named? ==> forall id :: id in chosen ==> rows[id].queue == Some(filter.queue)
    ensures forall id :: (id in rows && id !in chosen && rows[id].status == Pending && rows[id].scheduledFor <= now
                          && (filter == NoQueue ==> rows[id].queue == None)
                          && (filter.Named? ==> rows[id].queue == Some(filter.queue))) ==>
                |chosen| == limit && forall x :: x in chosen ==>
                  || rows[x].scheduledFor < rows[id].scheduledFor
                  || (rows[x].scheduledFor == rows[id].scheduledFor && rows[x].createdAt <= rows[id].createdAt)
  {
    var ready := ReadyIds(rows, now, filter);
    forall id | id in ready && id !in chosen
      ensures |chosen| == limit && forall x :: x in chosen ==> !Before(rows[id], rows[x])
    {
      SubsetSize(chosen + {id}, ready);
    }
  }

  datatype CancelResult = CancelledNow | Requested | Noop

  /** The database connection. Each method is one statement, or one committed transaction. */
  class Database {
    var rows: Rows
    var steps: map<(string, string), StepRow>

    constructor ()
      ensures rows == map[] && steps == map[]
    {
      rows, steps := map[], map[];
    }

    /** The insert of startWorkflow: ON CONFLICT(idempotency_key) DO NOTHING; a taken primary key throws. */
    method InsertWorkflow(id: string, row: Row) returns (ok: bool)
      modifies this`rows
      ensures ok == (KeyTaken(old(rows), row.key) || id !in old(rows))
      ensures rows == if !KeyTaken(old(rows), row.key) && id !in old(rows) then old(rows)[id := row] else old(rows)
      ensures var taken := row.key != None && exists x :: x in old(rows) && old(rows)[x].key == row.key;
              && (taken ==> ok && rows == old(rows))
              && (!taken && id in old(rows) ==> !ok && rows == old(rows))
              && (!taken && id !in old(rows) ==> ok && rows == old(rows)[id := row])
    {
      if KeyTaken(rows, row.key) {
        return true;
      }
      ok := id !in rows;
      if ok {
        rows := rows[id := row];
      }
    }

    method SelectByKey(key: string) returns (found: Option<string>)
      ensures found.Some? ==> found.value in rows && rows[found.value].key == Some(key)
      ensures found.None? ==> forall id :: id in rows ==> rows[id].key != Some(key)
      ensures found.Some? <==> KeyTaken(rows, Some(key))
    {
      if id :| id in rows && rows[id].key == Some(key) {
        found := Some(id);
      } else {
        found := None;
      }
    }

    method ClaimPending(exec: string, now: int, leaseMs: nat, limit: nat, filter: QueueFilter)
      returns (chosen: set<string>)
      modifies this`rows
      ensures IsClaim(old(rows), now, filter, limit, chosen)
      ensures rows == Claimed(old(rows), chosen, exec, now, leaseMs)
      ensures chosen <= old(rows).Keys == rows.Keys && |chosen| <= limit
      ensures forall id :: id in chosen ==> old(rows)[id].status == Pending && old(rows)[id].scheduledFor <= now
      ensures filter == NoQueue ==> forall id :: id in chosen ==> old(rows)[id].queue == None
      ensures filter.Named? ==> forall id :: id in chosen ==> old(rows)[id].queue == Some(filter.queue)
      ensures forall id :: (id in old(rows) && id !in chosen
                            && old(rows)[id].status == Pending && old(rows)[id].scheduledFor <= now
                            && (filter == NoQueue ==> old(rows)[id].queue == None)
                            && (filter.Named? ==> old(rows)[id].queue == Some(filter.queue))) ==>
                  |chosen| == limit && forall x :: x in chosen ==>
                    || old(rows)[x].scheduledFor < old(rows)[id].scheduledFor
                    || (old(rows)[x].scheduledFor == old(rows)[id].scheduledFor
                        && old(rows)[x].createdAt <= old(rows)[id].createdAt)
      ensures forall id :: id in chosen ==>
                var r := old(rows)[id];
                rows[id] == r.(status := Running, executor := Some(exec), claimExpiresAt := Some(now + leaseMs),
                               attempts := r.attempts + 1,
                               startedAt := if r.startedAt == None then Some(now) else r.startedAt)
      ensures forall id :: id in old(rows) && id !in chosen ==> rows[id] == old(rows)[id]
    {
      chosen := PickFirst(rows, now, limit, filter);
      ClaimMeans(rows, now, filter, limit, chosen);
      rows := Claimed(rows, chosen, exec, now, leaseMs);
    }

    /**
     * Running rows without a lease, or with one that has run out at `now`, are pending again without executor, start
     * time and lease, and are otherwise as they were; no other row changes. The count is that of the changed rows,
     * and a second reclaim at the same or an earlier time would find nothing.
     */
    method ReclaimExpired(now: int) returns (count: nat)
      modifies this`rows
      ensures rows.Keys == old(rows).Keys
      ensures forall id :: id in old(rows) ==>
                var r := old(rows)[id];
                rows[id] == if r.status == Running && (r.claimExpiresAt == None || r.claimExpiresAt.value <= now)
                            then r.(status := Pending, executor := None, startedAt := None, claimExpiresAt := None)
                            else r
      ensures count == |set id | id in old(rows) && rows[id] != old(rows)[id]|
      ensures forall id, earlier: int :: id in rows && earlier <= now ==> !Expired(rows[id], earlier)
    {
      var expired := set id | id in rows && Expired(rows[id], now);
      count := |expired|;
      rows := Reclaimed(rows, now);
      assert expired == set id | id in old(rows) && rows[id] != old(rows)[id];
    }

    /**
     * Running rows of this executor get the new expiry and nothing else; no other row changes. So until the new expiry
     * no reclaim finds any of them expired.
     */
    method ExtendLeases(exec: string, newExpiry: int)
      modifies this`rows
      ensures rows.Keys == old(rows).Keys
      ensures forall id :: id in old(rows) ==>
                var r := old(rows)[id];
                rows[id] == if r.status == Running && r.executor == Some(exec)
                            then r.(claimExpiresAt := Some(newExpiry)) else r
      ensures forall id, now: int ::
                id in rows && OwnedBy(rows[id], exec) && now < newExpiry ==> !Expired(rows[id], now)
    {
      rows := Extended(rows, exec, newExpiry);
    }

    /** No guard on status or owner: any row with this id is overwritten. */
    method FinalizeWorkflow(id: string, status: Status, endedAt: int, output: Option<Json>, error: Option<string>)
      modifies this`rows
      ensures rows == if id in old(rows)
                      then old(rows)[id := FinalizeRow(old(rows)[id], status, endedAt, output, error)]
                      else old(rows)
      ensures rows.Keys == old(rows).Keys && forall x :: x in old(rows) && x != id ==> rows[x] == old(rows)[x]
      ensures id in rows ==>
                rows[id] == old(rows)[id].(status := status, endedAt := Some(endedAt), output := output, error := error,
                                           executor := None, claimExpiresAt := None)
    {
      if id in rows {
        rows := rows[id := FinalizeRow(rows[id], status, endedAt, output, error)];
      }
    }

    /** No guard on status or owner here either. */
    method RequeueWorkflow(id: string, nextRunAt: int)
      modifies this`rows
      ensures rows == if id in old(rows) then old(rows)[id := RequeueRow(old(rows)[id], nextRunAt)] else old(rows)
      ensures rows.Keys == old(rows).Keys && forall x :: x in old(rows) && x != id ==> rows[x] == old(rows)[x]
      ensures id in rows ==>
                rows[id] == old(rows)[id].(status := Pending, executor := None, startedAt := None,
                                           claimExpiresAt := None, scheduledFor := nextRunAt)
    {
      if id in rows {
        rows := rows[id := RequeueRow(rows[id], nextRunAt)];
      }
    }

    /** A pending row is cancelled at once, a running one is flagged, and any other keeps all its columns. */
    method RequestCancel(id: string, now: int) returns (result: CancelResult)
      modifies this`rows
      ensures rows.Keys == old(rows).Keys && forall x :: x in old(rows) && x != id ==> rows[x] == old(rows)[x]
      ensures id !in rows ==> result == Noop
      ensures id in rows && old(rows)[id].status == Pending ==>
                && result == CancelledNow
                && rows[id] == old(rows)[id].(status := Cancelled, cancelAt := Some(now), endedAt := Some(now))
      ensures id in rows && old(rows)[id].status == Running ==>
                result == Requested && rows[id] == old(rows)[id].(cancelAt := Some(now))
      ensures id in rows && old(rows)[id].status != Pending && old(rows)[id].status != Running ==>
                result == Noop && rows[id] == old(rows)[id]
    {
      result := Noop;
      if id in rows {
        match rows[id].status {
          case Pending => result := CancelledNow;
          case Running => result := Requested;
          case _ =>
        }
        rows := rows[id := CancelRow(rows[id], now)];
      }
    }

    method InsertStep(id: string, stepId: string, row: StepRow)
      modifies this`steps
      ensures steps == InsertOrIgnore(old(steps), (id, stepId), row)
      ensures (id, stepId) in steps && forall key :: key in old(steps) ==> key in steps && steps[key] == old(steps)[key]
      ensures (id, stepId) !in old(steps) ==> steps[(id, stepId)] == row
      ensures forall key :: key in steps && key != (id, stepId) ==> key in old(steps)
    {
      if (id, stepId) !in steps {
        steps := steps[(id, stepId) := row];
      }
    }

    method SelectSteps(id: string) returns (log: Log)
      ensures log == LogOf(steps, id)
      ensures forall stepId :: stepId in log <==> (id, stepId) in steps
      ensures forall stepId :: stepId in log ==> log[stepId] == steps[(id, stepId)]
    {
      log := LogOf(steps, id);
    }
  }

  /** The step rows of one workflow. */
  function LogOf(steps: map<(string, string), StepRow>, id: string): Log {
    map key | key in steps && key.0 == id :: key.1 := steps[key]
  }
}
