/** startWorkflow called any number of times, its insert and its select interleaved with everything else. */
module Enqueue {
  import opened Values
  import opened Table
  import opened Worker
  import opened Cells
  import opened Clusters

  predicate Looked(key: Option<string>) {
    key.Some? && key.value != ""
  }

  ghost predicate UniqueKeys(k: Cluster) {
    forall x, y :: x in k.cells && y in k.cells && k.cells[x].row.key.Some? && k.cells[x].row.key == k.cells[y].row.key
                   ==> x == y
  }

  /** What a call may rely on after its insert, and what its answer means. */
  ghost predicate Honoured(k: Cluster, s: Submission) {
    match s.phase
    case Selecting =>
      && (s.row.key.Some? ==> KeyTaken(RowsOf(k), s.row.key))
      && (s.row.key.None? ==> s.id in k.cells && SameSubmission(k.cells[s.id].row, s.row))
    case Returned(id) =>
      && (s.row.key.Some? ==> KeyTaken(RowsOf(k), s.row.key))
      && (Looked(s.row.key) ==> id in k.cells && k.cells[id].row.key == s.row.key)
      && (!Looked(s.row.key) ==> id == s.id)
      && (s.row.key.None? ==> id in k.cells && SameSubmission(k.cells[id].row, s.row))
    case _ => true
  }

  ghost predicate Enqueued(k: Cluster) {
    UniqueKeys(k) && forall n :: n in k.submissions ==> Honoured(k, k.submissions[n])
  }

  lemma CellsKeepSubmissions(registry: Registry, k: Cluster, st: ClusterStep, k': Cluster)
    requires Next(registry, k, st, k')
    ensures forall id :: id in k.cells ==> id in k'.cells && SameSubmission(k.cells[id].row, k'.cells[id].row)
  {
    EachCellMoves(registry, k, st, k');
    forall id | id in k.cells ensures id in k'.cells && SameSubmission(k.cells[id].row, k'.cells[id].row) {
      assert Moved(registry, k, st, k', id);
      if Effect(k, st, id).Some? {
        SubmissionIsFixed(registry, k.cells[id], Effect(k, st, id).value);
      }
    }
  }

  lemma TakenStays(k: Cluster, k': Cluster, key: Option<string>)
    requires KeyTaken(RowsOf(k), key)
    requires forall id :: id in k.cells ==> id in k'.cells && SameSubmission(k.cells[id].row, k'.cells[id].row)
    ensures KeyTaken(RowsOf(k'), key)
  {
    var id :| id in RowsOf(k) && RowsOf(k)[id].key == key;
    assert id in RowsOf(k') && RowsOf(k')[id].key == key;
  }

  lemma UniqueStep(registry: Registry, k: Cluster, st: ClusterStep, k': Cluster)
    requires Next(registry, k, st, k') && UniqueKeys(k)
    ensures UniqueKeys(k')
  {
    CellsKeepSubmissions(registry, k, st, k');
    forall x, y | x in k'.cells && y in k'.cells
                  && k'.cells[x].row.key.Some? && k'.cells[x].row.key == k'.cells[y].row.key
      ensures x == y
    {
      if x in k.cells && y in k.cells {
      } else if x !in k.cells {
        NewKeyIsNew(registry, k, st, k', x, y);
      } else {
        NewKeyIsNew(registry, k, st, k', y, x);
      }
    }
  }

  lemma NewKeyIsNew(registry: Registry, k: Cluster, st: ClusterStep, k': Cluster, x: string, y: string)
    requires Next(registry, k, st, k') && x in k'.cells && x !in k.cells && y in k'.cells
    requires k'.cells[x].row.key.Some? && k'.cells[y].row.key == k'.cells[x].row.key
    ensures x == y
  {
    NewCellsAreEmpty(registry, k, st, k', x);
    CellsKeepSubmissions(registry, k, st, k');
    forall z | z in k.cells ensures k.cells[z].row.key != k'.cells[x].row.key {
      assert z in RowsOf(k) && RowsOf(k)[z].key == k.cells[z].row.key;
    }
    if y !in k.cells {
      NewCellsAreEmpty(registry, k, st, k', y);
    }
  }

  /** A call in progress moves on only by its own steps. */
  lemma SubmissionStep(registry: Registry, k: Cluster, st: ClusterStep, k': Cluster, n: nat)
    requires Next(registry, k, st, k') && n in k'.submissions
    requires !((st.Submit? || st.InsertSubmitted? || st.SelectSubmitted?) && st.n == n)
    ensures n in k.submissions && k'.submissions[n] == k.submissions[n]
  {
  }

  lemma OwnStep(registry: Registry, k: Cluster, st: ClusterStep, k': Cluster)
    requires Next(registry, k, st, k') && Enqueued(k)
    requires st.Submit? || st.InsertSubmitted? || st.SelectSubmitted?
    ensures st.n in k'.submissions && Honoured(k', k'.submissions[st.n])
  {
    if st.InsertSubmitted? {
      var s := k.submissions[st.n];
      if KeyTaken(RowsOf(k), s.row.key) {
      } else if s.id !in k.cells {
        assert s.id in RowsOf(k') && RowsOf(k')[s.id] == s.row;
      }
    } else if st.SelectSubmitted? {
      assert Honoured(k, k.submissions[st.n]);
    }
  }

  lemma EnqueuedStep(registry: Registry, k: Cluster, st: ClusterStep, k': Cluster)
    requires Next(registry, k, st, k') && Enqueued(k)
    ensures Enqueued(k')
  {
    UniqueStep(registry, k, st, k');
    CellsKeepSubmissions(registry, k, st, k');
    forall n | n in k'.submissions ensures Honoured(k', k'.submissions[n]) {
      if (st.Submit? || st.InsertSubmitted? || st.SelectSubmitted?) && st.n == n {
        OwnStep(registry, k, st, k');
      } else {
        SubmissionStep(registry, k, st, k', n);
        StillHonoured(k, k', k.submissions[n]);
      }
    }
  }

  lemma StillHonoured(k: Cluster, k': Cluster, s: Submission)
    requires Honoured(k, s)
    requires forall id :: id in k.cells ==> id in k'.cells && SameSubmission(k.cells[id].row, k'.cells[id].row)
    ensures Honoured(k', s)
  {
    if (s.phase.Selecting? || s.phase.Returned?) && s.row.key.Some? {
      TakenStays(k, k', s.row.key);
    }
  }

  lemma {:induction false} EnqueuedAlways(registry: Registry, run: seq<Cluster>, steps: seq<ClusterStep>, i: nat)
    requires IsRun(registry, run, steps) && i < |run|
    ensures Enqueued(run[i])
  {
    if i > 0 {
      EnqueuedAlways(registry, run, steps, i - 1);
      EnqueuedStep(registry, run[i - 1], steps[i - 1], run[i]);
    }
  }

  /**
   * All calls with one non-empty key are answered with one id; it names the only row with that key, now and later,
   * and that row's name, queue, input and limit never change.
   */
  lemma IdempotentEnqueue(registry: Registry, run: seq<Cluster>, steps: seq<ClusterStep>, i: nat, j: nat, m: nat,
                          n: nat)
    requires IsRun(registry, run, steps) && i <= j < |run|
    requires m in run[i].submissions && n in run[j].submissions
    requires run[i].submissions[m].phase.Returned? && run[j].submissions[n].phase.Returned?
    requires Looked(run[i].submissions[m].row.key) && run[i].submissions[m].row.key == run[j].submissions[n].row.key
    ensures var id := run[i].submissions[m].phase.id;
            && run[j].submissions[n].phase.id == id
            && id in run[i].cells && id in run[j].cells && run[j].cells[id].row.key == run[i].submissions[m].row.key
            && SameSubmission(run[i].cells[id].row, run[j].cells[id].row)
            && (forall x :: x in run[j].cells && run[j].cells[x].row.key == run[i].submissions[m].row.key ==> x == id)
  {
    EnqueuedAlways(registry, run, steps, i);
    EnqueuedAlways(registry, run, steps, j);
    assert Honoured(run[i], run[i].submissions[m]) && Honoured(run[j], run[j].submissions[n]);
    var id := run[i].submissions[m].phase.id;
    ClusterBudget(registry, run, steps, i, j, id, "");
  }

  /** The call whose insert stored the row is the one whose name, queue, input and limit everyone gets. */
  lemma FirstInsertWins(registry: Registry, run: seq<Cluster>, steps: seq<ClusterStep>, i: nat, j: nat, m: nat)
    requires IsRun(registry, run, steps) && i < j < |run|
    requires steps[i].InsertSubmitted? && steps[i].n in run[i].submissions
    requires var s := run[i].submissions[steps[i].n];
             Looked(s.row.key) && !KeyTaken(RowsOf(run[i]), s.row.key) && s.id !in run[i].cells
    requires m in run[j].submissions && run[j].submissions[m].phase.Returned?
    requires run[j].submissions[m].row.key == run[i].submissions[steps[i].n].row.key
    ensures var s := run[i].submissions[steps[i].n];
            && run[j].submissions[m].phase.id == s.id
            && s.id in run[j].cells && SameSubmission(s.row, run[j].cells[s.id].row)
  {
    assert Next(registry, run[i], steps[i], run[i + 1]);
    var id := run[i].submissions[steps[i].n].id;
    assert id in run[i + 1].cells;
    ClusterBudget(registry, run, steps, i + 1, j, id, "");
    EnqueuedAlways(registry, run, steps, j);
    assert Honoured(run[j], run[j].submissions[m]);
  }

  /**
   * An empty key is stored but never looked up, so a call's answer names a row with the call's key exactly when the
   * key is not empty, or no other row holds the empty key.
   */
  lemma AnswerNamesItsRow(registry: Registry, run: seq<Cluster>, steps: seq<ClusterStep>, i: nat, n: nat)
    requires IsRun(registry, run, steps) && i < |run| && n in run[i].submissions
    requires run[i].submissions[n].phase.Returned? && run[i].submissions[n].row.key.Some?
    ensures var s := run[i].submissions[n];
            && (s.phase.id in run[i].cells && run[i].cells[s.phase.id].row.key == s.row.key <==>
                Looked(s.row.key)
                || !(exists x :: x in run[i].cells && x != s.id && run[i].cells[x].row.key == Some("")))
  {
    EnqueuedAlways(registry, run, steps, i);
    var s := run[i].submissions[n];
    assert Honoured(run[i], s);
    if !Looked(s.row.key) {
      var x :| x in RowsOf(run[i]) && RowsOf(run[i])[x].key == Some("");
      assert x in run[i].cells && run[i].cells[x].row.key == Some("");
    }
  }
}
