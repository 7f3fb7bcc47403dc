/**
The worker publication protocol as a state machine (src/image23mf/workers.py, with the
startup step of src/image23mf/recovery.py).

Every action below is one atomic step of one thread: a piece of code under the manager's
lock, one committed transaction of the job repository, or the code between two checkpoints of
a publication. A publication's own transaction is split at its checkpoints; while it is open
it owns the writer lock of `BEGIN IMMEDIATE`, so no other step can write the tables, and its
rows stay private until the commit. An action that is not enabled changes nothing, so the runs
of the system are exactly the finite sequences of actions.
*/
module Workers {
  import opened Wrappers
  import opened Identifiers
  import opened JobContract

  /** Where the thread that serves one job stands. */
  datatype Phase =
    | Submitting(superseded: Option<Id>)   // the row is enqueued, the lock not yet taken
    | Pending                              // a future the pool has not started
    | Working                              // the row is running, the callback executes
    | Returned(result: seq<Artifact>)      // the callback returned
    | BlobsVerified(result: seq<Artifact>) // first checkpoint
    | TransactionOpened(result: seq<Artifact>)
    | RowsWritten(result: seq<Artifact>)   // inserted, not committed
    | DatabaseCommitted
    | CancelRead | CancelWrite             // inside `_cancel_persisted`
    | FailRead | FailWrite                 // inside `_fail_if_active`
    | Done

  /**
  `produced` is a history variable: what each callback returned, by job. `tokens` maps a
  registered job to whether its token was canceled.
  */
  datatype State = State(
    db: Database,
    writer: Option<Id>,
    phases: map<Id, Phase>,
    tokens: map<Id, bool>,
    closed: bool,
    produced: map<Id, seq<Artifact>>)

  /** What a callback may let out: it was canceled, it tried a forbidden transition, or it crashed. */
  datatype Raised = WorkCanceled | InvalidTransition | Crash

  datatype Action =
    | Enqueue(j: Id, project: Id, jobType: JobType, revision: Option<Id>, key: Option<Id>)
    | Register(j: Id)
    | CancelToken(j: Id)
    | CancelRow(j: Id)
    | Shutdown
    | DropPending(j: Id)
    | Start(j: Id)
    | CheckCanceled(j: Id)
    | Report(j: Id, progress: real)
    | WorkReturns(j: Id, result: seq<Artifact>)
    | WorkRaises(j: Id, raised: Raised)
    | VerifyBlobs(j: Id, intact: bool)
    | Begin(j: Id)
    | WriteRows(j: Id)
    | Commit(j: Id)
    | RaiseAtCheckpoint(j: Id)
    | FinishPublication(j: Id)
    | ReadRow(j: Id)
    | WriteRow(j: Id)
    | Forget(j: Id)
    | ProcessDeath
    | Reconcile
    | SealRevision(published: Id)

  function At(s: State, j: Id): Phase {
    if j in s.phases then s.phases[j] else Done
  }

  function Go(s: State, j: Id, phase: Phase): State {
    s.(phases := s.phases[j := phase])
  }

  predicate TokenCanceled(s: State, j: Id) {
    j in s.tokens && s.tokens[j]
  }

  // ----- submit, cancel and shutdown

  // The check of `_closed` before the enqueue is not part of this step: the manager may be
  // closed between the two, so the row can appear whatever `closed` says by then.
  function DoEnqueue(s: State, j: Id, project: Id, jobType: JobType, revision: Option<Id>, key: Option<Id>): State {
    if s.writer.Some? || j in s.db.jobs then s
    else
      s.(db := EnqueueRow(s.db, j, project, jobType, revision, key),
         phases := s.phases[j := Submitting(SupersededBy(s.db, project, key))])
  }

  // Under the lock: a closed manager withdraws the row; otherwise the superseded token is
  // canceled if it is there to be found, and the job gets its token and its future.
  function DoRegister(s: State, j: Id): State {
    match At(s, j)
    case Submitting(superseded) =>
      if s.closed then Go(s, j, CancelRead)
      else
        var tokens := if superseded.Some? && superseded.value in s.tokens
                      then s.tokens[superseded.value := true] else s.tokens;
        Go(s, j, Pending).(tokens := tokens[j := false])
    case _ => s
  }

  function DoCancelToken(s: State, j: Id): State {
    if j in s.tokens then s.(tokens := s.tokens[j := true]) else s
  }

  function DoCancelRow(s: State, j: Id): State {
    if s.writer.Some? then s else s.(db := Transition(s.db, j, Canceled))
  }

  function DoShutdown(s: State): State {
    if s.closed then s
    else s.(closed := true, tokens := map j | j in s.tokens :: true)
  }

  function DoDropPending(s: State, j: Id): State {
    if s.closed && At(s, j).Pending? then Go(s, j, Done) else s
  }

  // ----- the thread of one job

  function DoStart(s: State, j: Id): State {
    if !At(s, j).Pending? || s.writer.Some? then s
    else if Accepted(s.db, j, Running) then
      Go(s, j, Working).(db := Transition(s.db, j, Running))
    else
      Go(DoCancelToken(s, j), j, Done)
  }

  function DoCheckCanceled(s: State, j: Id): State {
    if At(s, j).Working? && TokenCanceled(s, j) then Go(s, j, CancelRead) else s
  }

  // `JobContext.report`: a canceled token or an argument out of range raises at once; a row that is no
  // longer running, or progress that would move backwards, cancels the token before it raises. The
  // callback may catch what is raised and go on, so its thread stays where it is; a callback that
  // lets the exception out takes a WorkRaises step next.
  function DoReport(s: State, j: Id, progress: real): State {
    if !At(s, j).Working? || s.writer.Some? || j !in s.db.jobs || TokenCanceled(s, j) || !(0.0 <= progress < 1.0) then s
    else if !s.db.jobs[j].state.Running? || progress < s.db.jobs[j].progress then DoCancelToken(s, j)
    else s.(db := s.db.(jobs := s.db.jobs[j := s.db.jobs[j].(progress := progress)]))
  }

  function DoWorkReturns(s: State, j: Id, result: seq<Artifact>): State {
    if At(s, j).Working? then Go(s, j, Returned(result)).(produced := s.produced[j := result]) else s
  }

  // A forbidden transition is taken for a sign that the job has ended: its token is canceled, its row left alone.
  function DoWorkRaises(s: State, j: Id, raised: Raised): State {
    if !At(s, j).Working? then s
    else
      match raised
      case WorkCanceled => Go(s, j, CancelRead)
      case InvalidTransition => Go(DoCancelToken(s, j), j, Done)
      case Crash => Go(s, j, FailRead)
  }

  /** What `str.strip` takes away. */
  predicate IsSpace(c: char) {
    var code := c as int;
    || 0x09 <= code <= 0x0D || 0x1C <= code <= 0x20 || code == 0x85 || code == 0xA0 || code == 0x1680
    || 0x2000 <= code <= 0x200A || code in {0x2028, 0x2029, 0x202F, 0x205F, 0x3000}
  }

  predicate Blank(text: string) {
    forall i :: 0 <= i < |text| ==> IsSpace(text[i])
  }

  predicate WellFormed(artifact: Artifact) {
    && !Blank(artifact.kind)
    && !Blank(artifact.derivationKey)
    && "artifacts/" <= artifact.path
  }

  /** The white space of Unicode, and the four separators of ASCII. */
  const SPACES: set<int> := {
    9, 10, 11, 12, 13, 28, 29, 30, 31, 32, 133, 160, 5760, 8192, 8193, 8194, 8195, 8196, 8197, 8198, 8199, 8200, 8201,
    8202, 8232, 8233, 8239, 8287, 12288}

  /** Kind and key hold more than white space, and the path begins in the artifacts namespace. */
  lemma WellFormedExactly(artifact: Artifact)
    ensures WellFormed(artifact) <==>
              && (exists i :: 0 <= i < |artifact.kind| && artifact.kind[i] as int !in SPACES)
              && (exists i :: 0 <= i < |artifact.derivationKey| && artifact.derivationKey[i] as int !in SPACES)
              && |artifact.path| >= 10 && artifact.path[..10] == "artifacts/"
  {
    assert forall c: char :: IsSpace(c) <==> c as int in SPACES;
    if |artifact.path| >= 10 && artifact.path[..10] == "artifacts/" {
      assert artifact.path == "artifacts/" + artifact.path[10..];
    }
  }

  // The second cancellation check, then the checks before the first checkpoint.
  function DoVerifyBlobs(s: State, j: Id, intact: bool): State {
    match At(s, j)
    case Returned(result) =>
      if TokenCanceled(s, j) then Go(s, j, CancelRead)
      else if intact && forall a :: a in result ==> WellFormed(a) then Go(s, j, BlobsVerified(result))
      else Go(s, j, FailRead)
    case _ => s
  }

  function DoBegin(s: State, j: Id): State {
    match At(s, j)
    case BlobsVerified(result) =>
      if s.writer.Some? then s else Go(s, j, TransactionOpened(result)).(writer := Some(j))
    case _ => s
  }

  // The row is running and, when it has a supersession key, is still the head at its generation.
  predicate Publishable(db: Database, j: Id) {
    && j in db.jobs
    && db.jobs[j].state.Running?
    && (db.jobs[j].key.Some? ==>
          var slot := (db.jobs[j].project, db.jobs[j].key.value);
          slot in db.heads && db.heads[slot] == Head(j, db.jobs[j].generation))
  }

  // One of the two unique indexes tells no difference between two rows.
  predicate Clash(a: Row, b: Row) {
    && a.artifact.kind == b.artifact.kind
    && a.artifact.derivationKey == b.artifact.derivationKey
    && (a.jobId == b.jobId || (b.revision.Some? && a.revision == b.revision))
  }

  predicate Sealed(sealed: set<Id>, row: Row) {
    row.revision.Some? && row.revision.value in sealed
  }

  // An insert the table refuses.
  predicate Conflicts(rows: seq<Row>, sealed: set<Id>, row: Row) {
    Sealed(sealed, row) || exists i :: 0 <= i < |rows| && Clash(rows[i], row)
  }

  predicate Insertable(rows: seq<Row>, sealed: set<Id>, inserted: seq<Row>)
    decreases |inserted|
  {
    inserted == []
    || (!Conflicts(rows, sealed, inserted[0]) && Insertable(rows + [inserted[0]], sealed, inserted[1..]))
  }

  /** All rows go in exactly when none is sealed, none clashes with an existing row, and no two with each other. */
  lemma {:induction false} InsertableExactly(rows: seq<Row>, sealed: set<Id>, inserted: seq<Row>)
    ensures Insertable(rows, sealed, inserted) <==>
              && (forall i :: 0 <= i < |inserted| && inserted[i].revision.Some? ==>
                    inserted[i].revision.value !in sealed)
              && (forall i, j :: 0 <= i < |rows| && 0 <= j < |inserted| ==> !Clash(rows[i], inserted[j]))
              && (forall i, j :: 0 <= i < j < |inserted| ==> !Clash(inserted[i], inserted[j]))
    decreases |inserted|
  {
    if inserted != [] {
      var first, rest, more := inserted[0], inserted[1..], rows + [inserted[0]];
      InsertableExactly(more, sealed, rest);
      assert more[|rows|] == first && forall i :: 0 <= i < |rows| ==> more[i] == rows[i];
      assert forall j :: 0 <= j < |rest| ==> rest[j] == inserted[j + 1];
      assert forall j :: 1 <= j < |inserted| ==> inserted[j] == rest[j - 1];
    }
  }

  /** The rows of one result have one owner, so they clash with each other exactly when two share kind and key. */
  lemma ResultFitsExactly(rows: seq<Row>, sealed: set<Id>, j: Id, revision: Option<Id>, result: seq<Artifact>)
    ensures Insertable(rows, sealed, RowsFor(j, revision, result)) <==>
              && (result == [] || revision.None? || revision.value !in sealed)
              && (forall i, k :: 0 <= i < |rows| && 0 <= k < |result|
                                 && (rows[i].jobId == j || (revision.Some? && rows[i].revision == revision)) ==>
                    !(rows[i].artifact.kind == result[k].kind
                      && rows[i].artifact.derivationKey == result[k].derivationKey))
              && (forall i, k :: 0 <= i < k < |result| ==>
                    !(result[i].kind == result[k].kind && result[i].derivationKey == result[k].derivationKey))
  {
    var inserted := RowsFor(j, revision, result);
    InsertableExactly(rows, sealed, inserted);
    forall i, k | 0 <= i < |rows| && 0 <= k < |result|
      ensures Clash(rows[i], inserted[k])
         <==> && (rows[i].jobId == j || (revision.Some? && rows[i].revision == revision))
              && rows[i].artifact.kind == result[k].kind
              && rows[i].artifact.derivationKey == result[k].derivationKey
    {
    }
    forall i, k | 0 <= i < k < |result|
      ensures Clash(inserted[i], inserted[k])
         <==> result[i].kind == result[k].kind && result[i].derivationKey == result[k].derivationKey
    {
    }
    if result != [] { assert inserted[0].revision == revision; }
  }

  // Returning false leaves the transaction empty; a refused insert rolls it back.
  function DoWriteRows(s: State, j: Id): State {
    match At(s, j)
    case TransactionOpened(result) =>
      if !Publishable(s.db, j) then Go(s, j, Done).(writer := None)
      else if !Insertable(s.db.rows, s.db.sealed, RowsFor(j, s.db.jobs[j].revision, result)) then
        Go(s, j, FailRead).(writer := None)
      else Go(s, j, RowsWritten(result))
    case _ => s
  }

  // The conditional update, then the commit. It publishes only while the row is still running.
  function DoCommit(s: State, j: Id): State {
    match At(s, j)
    case RowsWritten(result) =>
      if j !in s.db.jobs then s
      else
        var db := s.db.(rows := s.db.rows + RowsFor(j, s.db.jobs[j].revision, result));
        Go(s, j, DatabaseCommitted).(
          db := if s.db.jobs[j].state.Running? then Transition(db, j, Succeeded) else db,
          writer := None)
    case _ => s
  }

  // An exception out of a checkpoint: before the commit it rolls the transaction back.
  function DoRaiseAtCheckpoint(s: State, j: Id): State {
    match At(s, j)
    case BlobsVerified(_) => Go(s, j, FailRead)
    case TransactionOpened(_) => Go(s, j, FailRead).(writer := None)
    case RowsWritten(_) => Go(s, j, FailRead).(writer := None)
    case DatabaseCommitted => Go(s, j, FailRead)
    case _ => s
  }

  function DoFinishPublication(s: State, j: Id): State {
    if At(s, j).DatabaseCommitted? then Go(s, j, Done) else s
  }

  // `_cancel_persisted` and `_fail_if_active` read the row first and write it afterwards.
  function DoReadRow(s: State, j: Id): State {
    if j !in s.db.jobs then s
    else
      var state := s.db.jobs[j].state;
      match At(s, j)
      case CancelRead => Go(s, j, if Active(state) || state.Canceled? then CancelWrite else Done)
      case FailRead => Go(s, j, if Active(state) then FailWrite else Done)
      case _ => s
  }

  function DoWriteRow(s: State, j: Id): State {
    if s.writer.Some? then s
    else
      match At(s, j)
      case CancelWrite => Go(s, j, Done).(db := Transition(s.db, j, Canceled))
      case FailWrite => Go(s, j, Done).(db := Transition(s.db, j, Failed))
      case _ => s
  }

  function DoForget(s: State, j: Id): State {
    if At(s, j).Done? then s.(phases := s.phases - {j}, tokens := s.tokens - {j}) else s
  }

  // ----- process death and startup recovery

  /** Memory is lost, an open transaction with it; the committed tables stay. */
  function DoProcessDeath(s: State): State {
    State(s.db, None, map[], map[], false, s.produced)
  }

  // `_retry_action` has no entry for prompted edits: the lookup raises inside the transaction.
  predicate HasRetryAction(jobType: JobType) {
    !jobType.PromptedEdit?
  }

  predicate Recoverable(jobs: map<Id, Job>) {
    forall j :: j in jobs && Active(jobs[j].state) ==> HasRetryAction(jobs[j].jobType)
  }

  function DoReconcile(s: State): State {
    if s.writer.Some? || !Recoverable(s.db.jobs) then s
    else s.(db := s.db.(jobs := FailActive(s.db.jobs)))
  }

  function Apply(s: State, a: Action): State {
    match a
    case Enqueue(j, project, jobType, revision, key) => DoEnqueue(s, j, project, jobType, revision, key)
    case Register(j) => DoRegister(s, j)
    case CancelToken(j) => DoCancelToken(s, j)
    case CancelRow(j) => DoCancelRow(s, j)
    case Shutdown => DoShutdown(s)
    case DropPending(j) => DoDropPending(s, j)
    case Start(j) => DoStart(s, j)
    case CheckCanceled(j) => DoCheckCanceled(s, j)
    case Report(j, progress) => DoReport(s, j, progress)
    case WorkReturns(j, result) => DoWorkReturns(s, j, result)
    case WorkRaises(j, raised) => DoWorkRaises(s, j, raised)
    case VerifyBlobs(j, intact) => DoVerifyBlobs(s, j, intact)
    case Begin(j) => DoBegin(s, j)
    case WriteRows(j) => DoWriteRows(s, j)
    case Commit(j) => DoCommit(s, j)
    case RaiseAtCheckpoint(j) => DoRaiseAtCheckpoint(s, j)
    case FinishPublication(j) => DoFinishPublication(s, j)
    case ReadRow(j) => DoReadRow(s, j)
    case WriteRow(j) => DoWriteRow(s, j)
    case Forget(j) => DoForget(s, j)
    case ProcessDeath => DoProcessDeath(s)
    case Reconcile => DoReconcile(s)
    case SealRevision(published) =>
      if s.writer.Some? then s else s.(db := s.db.(sealed := s.db.sealed + {published}))
  }

  function Run(s: State, actions: seq<Action>): State
    decreases |actions|
  {
    if actions == [] then s else Run(Apply(s, actions[0]), actions[1..])
  }

  const INITIAL: State := State(Database(map[], map[], [], {}), None, map[], map[], false, map[])
}
