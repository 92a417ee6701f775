/** startWorkflow: build the row, insert it unless its key is taken, and find out whose row it is. */
module Starts {
  import opened Values
  import opened Table
  import opened Cells

  /** A registered workflow, and the options of one call. */
  datatype Definition = Definition(defaultQueue: Option<string>, defaultMaxAttempts: int)

  datatype Options = Options(
    id: Option<string>,
    queue: Option<string>,
    maxAttempts: Option<int>,
    runAt: Option<int>,
    key: Option<string>)

  datatype Started = Handle(id: string) | UnknownWorkflow | IdTaken

  /** The first of the two that is given: the operator `??`. */
  function Or<T>(given: Option<T>, otherwise: Option<T>): Option<T> {
    if given.Some? then given else otherwise
  }

  function OrValue<T>(given: Option<T>, otherwise: T): T {
    if given.Some? then given.value else otherwise
  }

  /** What others may have done since: rows come, and go on, but keep what was submitted. */
  ghost predicate Later(before: Rows, after: Rows) {
    before.Keys <= after.Keys && forall id :: id in before ==> SameSubmission(before[id], after[id])
  }

  method Meanwhile(db: Database)
    modifies db`rows
    ensures Later(old(db.rows), db.rows)
  {
    var others: Rows := *;
    var now := db.rows;
    db.rows := map id | id in others.Keys + now.Keys ::
      if id !in now then others[id]
      else if id !in others then now[id]
      else others[id].(name := now[id].name, queue := now[id].queue, input := now[id].input,
                       maxAttempts := now[id].maxAttempts, createdAt := now[id].createdAt, key := now[id].key);
  }

  /**
   * An unregistered name changes nothing. Otherwise the row has its columns from the options and, where they leave one
   * out, from the definition and the clock. `at` is the table right after the insert: the row is new there unless its
   * key was taken, and a taken id without a taken key throws. The answer is the given or drawn id, or with a key that
   * is not empty the id of a row that has this key.
   */
  method StartWorkflow(db: Database, defs: map<string, Definition>, name: string, input: Json, o: Options,
                       drawn: string, now: int)
    returns (r: Started, ghost at: Rows)
    modifies db`rows
    ensures name !in defs ==> r == UnknownWorkflow && db.rows == old(db.rows)
    ensures name in defs ==>
              var id := if o.id == None then drawn else o.id.value;
              var taken := o.key != None && exists x :: x in old(db.rows) && old(db.rows)[x].key == o.key;
              && (taken ==> at == old(db.rows) && r.Handle?)
              && (!taken && id in old(db.rows) ==> r == IdTaken && db.rows == old(db.rows))
              && (!taken && id !in old(db.rows) ==>
                    r.Handle? && at.Keys == old(db.rows).Keys + {id} && IsNewRow(at[id]))
              && (r.Handle? ==> Later(at, db.rows))
              && (r.Handle? ==> forall x :: x in old(db.rows) ==> x in at && at[x] == old(db.rows)[x])
              && (r.Handle? && (o.key == None || o.key == Some("")) ==> r.id == id)
              && (r.Handle? && o.key != None && o.key != Some("") ==> r.id in db.rows && db.rows[r.id].key == o.key)
    ensures name in defs && r.Handle? && at != old(db.rows) ==>
              var id := if o.id == None then drawn else o.id.value;
              && id in at && at[id].name == name && at[id].input == input && at[id].key == o.key
              && at[id].queue == (if o.queue != None then o.queue else defs[name].defaultQueue)
              && at[id].maxAttempts == (if o.maxAttempts != None then o.maxAttempts.value
                                        else defs[name].defaultMaxAttempts)
              && at[id].scheduledFor == (if o.runAt != None then o.runAt.value else now)
              && at[id].createdAt == now
  {
    at := db.rows;
    if name !in defs {
      return UnknownWorkflow, at;
    }
    var id := OrValue(o.id, drawn);
    var row := NewRow(name, Or(o.queue, defs[name].defaultQueue), input,
                      OrValue(o.maxAttempts, defs[name].defaultMaxAttempts), OrValue(o.runAt, now), now, o.key);
    var ok := db.InsertWorkflow(id, row);
    at := db.rows;
    if !ok {
      return IdTaken, at;
    }
    Meanwhile(db);
    var effective := id;
    if o.key.Some? && o.key.value != "" {
      var existing := db.SelectByKey(o.key.value);
      if existing.Some? {
        effective := existing.value;
      }
    }
    r := Handle(effective);
  }
}
