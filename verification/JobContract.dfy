/**
The durable job resource: states, allowed transitions, rows and heads
(src/image23mf/contracts/jobs.py, src/image23mf/storage/jobs.py).

Identifiers are numbers: the code only ever compares them.
*/
module JobContract {
  import opened Wrappers
  import opened Identifiers

  datatype JobState = Queued | Running | Succeeded | Failed | Canceled | Superseded

  datatype JobType = Preview | Geometry | Export | Validation | PromptedEdit

  predicate Active(state: JobState) {
    state.Queued? || state.Running?
  }

  // The transition table of the job contract; a terminal state allows none.
  predicate Allowed(current: JobState, target: JobState) {
    match current
    case Queued => target.Running? || target.Failed? || target.Canceled? || target.Superseded?
    case Running => !Active(target)
    case _ => false
  }

  /** A job succeeds only once it runs, and may end otherwise from either active state. */
  lemma AllowedExactly(current: JobState, target: JobState)
    ensures Allowed(current, target) <==>
              || (current == Queued && target in {Running, Failed, Canceled, Superseded})
              || (current == Running && target in {Succeeded, Failed, Canceled, Superseded})
  {
  }

  datatype Job = Job(
    project: Id,
    jobType: JobType,
    revision: Option<Id>,
    key: Option<Id>,
    generation: nat,
    state: JobState,
    progress: real)

  datatype Head = Head(jobId: Id, generation: nat)

  datatype Artifact = Artifact(kind: string, derivationKey: string, path: string, sha256: Id)

  datatype Row = Row(jobId: Id, revision: Option<Id>, artifact: Artifact)

  /** The committed tables. `sealed` holds the revisions that refuse new artifact rows. */
  datatype Database = Database(
    jobs: map<Id, Job>,
    heads: map<(Id, Id), Head>,
    rows: seq<Row>,
    sealed: set<Id>)

  /** `JobRepository.enqueue`: one transaction supersedes the active head and installs a new one. */
  function EnqueueRow(db: Database, j: Id, project: Id, jobType: JobType, revision: Option<Id>, key: Option<Id>)
    : Database
  {
    if key.None? then
      db.(jobs := db.jobs[j := Job(project, jobType, revision, key, 0, Queued, 0.0)])
    else
      var slot := (project, key.value);
      var generation := if slot in db.heads then db.heads[slot].generation + 1 else 1;
      var jobs :=
        if SupersededBy(db, project, key).Some? then
          var previous := db.heads[slot].jobId;
          db.jobs[previous := db.jobs[previous].(state := Superseded)]
        else
          db.jobs;
      db.(jobs := jobs[j := Job(project, jobType, revision, key, generation, Queued, 0.0)],
          heads := db.heads[slot := Head(j, generation)])
  }

  // The id that `enqueue` reports as superseded: the head it replaces, when that was still active.
  function SupersededBy(db: Database, project: Id, key: Option<Id>): (r: Option<Id>)
    ensures r.Some? ==> r.value in db.jobs && Active(db.jobs[r.value].state)
  {
    if key.Some? && (project, key.value) in db.heads
       && db.heads[(project, key.value)].jobId in db.jobs
       && Active(db.jobs[db.heads[(project, key.value)].jobId].state)
    then Some(db.heads[(project, key.value)].jobId)
    else None
  }

  /** `JobRepository._transition`: an illegal transition raises and changes nothing. */
  function Transition(db: Database, j: Id, target: JobState): Database {
    if j in db.jobs && Allowed(db.jobs[j].state, target) then
      db.(jobs := db.jobs[j := db.jobs[j].(state := target,
                                           progress := if target.Succeeded? then 1.0 else db.jobs[j].progress)])
    else
      db
  }

  // True when `_transition` returns instead of raising: the state is already there, or may go there.
  predicate Accepted(db: Database, j: Id, target: JobState) {
    j in db.jobs && (db.jobs[j].state == target || Allowed(db.jobs[j].state, target))
  }

  /** Every queued or running row becomes failed; the rest stay as they are. */
  function FailActive(jobs: map<Id, Job>): map<Id, Job> {
    map j | j in jobs :: if Active(jobs[j].state) then jobs[j].(state := Failed) else jobs[j]
  }

  function RowsOf(rows: seq<Row>, j: Id): seq<Row> {
    if rows == [] then []
    else (if rows[0].jobId == j then [rows[0]] else []) + RowsOf(rows[1..], j)
  }

  function RowsFor(j: Id, revision: Option<Id>, artifacts: seq<Artifact>): (rows: seq<Row>)
    ensures |rows| == |artifacts|
  {
    seq(|artifacts|, i requires 0 <= i < |artifacts| => Row(j, revision, artifacts[i]))
  }

  lemma {:induction false} RowsOfAppend(a: seq<Row>, b: seq<Row>, j: Id)
    ensures RowsOf(a + b, j) == RowsOf(a, j) + RowsOf(b, j)
  {
    if a == [] {
      assert a + b == b;
    } else {
      assert (a + b)[0] == a[0] && (a + b)[1..] == a[1..] + b;
      RowsOfAppend(a[1..], b, j);
    }
  }

  lemma {:induction false} RowsOfUniform(rows: seq<Row>, owner: Id, j: Id)
    requires forall i :: 0 <= i < |rows| ==> rows[i].jobId == owner
    ensures RowsOf(rows, j) == if owner == j then rows else []
  {
    if rows != [] {
      RowsOfUniform(rows[1..], owner, j);
    }
  }

  lemma {:induction false} RowsOfMember(rows: seq<Row>, i: nat)
    requires i < |rows|
    ensures RowsOf(rows, rows[i].jobId) != []
  {
    if i > 0 {
      RowsOfMember(rows[1..], i - 1);
    }
  }
}
