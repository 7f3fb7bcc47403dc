/** The invariant of the publication protocol, and what it gives over every run. */
module WorkerSafety {
  import opened Wrappers
  import opened Identifiers
  import opened JobContract
  import opened Workers

  // ----- the tables

  // A head names an existing job of its own project, key and generation.
  ghost predicate HeadNamesItsJob(db: Database, slot: (Id, Id))
    requires slot in db.heads
  {
    var head := db.heads[slot];
    && head.jobId in db.jobs
    && db.jobs[head.jobId].project == slot.0
    && db.jobs[head.jobId].key == Some(slot.1)
    && db.jobs[head.jobId].generation == head.generation
  }

  // A job with a supersession key is at or below its head's generation, and only the head is active.
  ghost predicate JobIsBelowItsHead(db: Database, j: Id)
    requires j in db.jobs
  {
    var job := db.jobs[j];
    match job.key
    case None => job.generation == 0
    case Some(key) =>
      && (job.project, key) in db.heads
      && var head := db.heads[(job.project, key)];
      && 1 <= job.generation <= head.generation
      && (head.jobId == j <==> job.generation == head.generation)
      && (Active(job.state) ==> head.jobId == j)
  }

  ghost predicate TablesInv(db: Database) {
    && (forall slot {:trigger HeadNamesItsJob(db, slot)} :: slot in db.heads ==> HeadNamesItsJob(db, slot))
    && (forall j {:trigger JobIsBelowItsHead(db, j)} :: j in db.jobs ==> JobIsBelowItsHead(db, j))
    && (forall j :: j in db.jobs ==> 0.0 <= db.jobs[j].progress <= 1.0)
    && (forall j :: j in db.jobs && db.jobs[j].state.Succeeded? ==> db.jobs[j].progress == 1.0)
  }

  // ----- who owns artifact rows

  predicate HasSucceeded(db: Database, j: Id) {
    j in db.jobs && db.jobs[j].state.Succeeded?
  }

  // What a job must own: nothing before it succeeds, then exactly the rows of its result.
  function Owned(s: State, j: Id): seq<Row> {
    if HasSucceeded(s.db, j) && j in s.produced then RowsFor(j, s.db.jobs[j].revision, s.produced[j]) else []
  }

  ghost predicate OwnershipInv(s: State) {
    && (forall j: Id :: RowsOf(s.db.rows, j) == Owned(s, j))
    && (forall j: Id :: HasSucceeded(s.db, j) ==> j in s.produced)
  }

  // ----- where the threads stand

  function ResultOf(phase: Phase): Option<seq<Artifact>> {
    match phase
    case Returned(result) => Some(result)
    case BlobsVerified(result) => Some(result)
    case TransactionOpened(result) => Some(result)
    case RowsWritten(result) => Some(result)
    case _ => None
  }

  predicate BeforeCommit(phase: Phase) {
    phase.Submitting? || phase.Pending? || phase.Working? || ResultOf(phase).Some?
  }

  predicate InTransaction(phase: Phase) {
    phase.TransactionOpened? || phase.RowsWritten?
  }

  ghost predicate ThreadInv(s: State, j: Id)
    requires j in s.phases
  {
    var phase := s.phases[j];
    && j in s.db.jobs
    && (BeforeCommit(phase) ==> !s.db.jobs[j].state.Succeeded?)
    && (ResultOf(phase).Some? ==> j in s.produced && s.produced[j] == ResultOf(phase).value)
    && (InTransaction(phase) <==> s.writer == Some(j))
    && (phase.RowsWritten? ==> Publishable(s.db, j))
  }

  ghost predicate Inv(s: State) {
    && TablesInv(s.db)
    && OwnershipInv(s)
    && (forall j {:trigger ThreadInv(s, j)} :: j in s.phases ==> ThreadInv(s, j))
    && (s.writer.Some? ==> s.writer.value in s.phases && InTransaction(s.phases[s.writer.value]))
  }

  lemma EnqueueKeepsHeads(db: Database, j: Id, project: Id, jobType: JobType, revision: Option<Id>, key: Option<Id>)
    requires TablesInv(db) && j !in db.jobs
    ensures var after := EnqueueRow(db, j, project, jobType, revision, key);
      forall slot :: slot in after.heads ==> HeadNamesItsJob(after, slot)
  {
    var after := EnqueueRow(db, j, project, jobType, revision, key);
    forall slot | slot in after.heads ensures HeadNamesItsJob(after, slot) {
      if slot in db.heads { assert HeadNamesItsJob(db, slot); }
    }
  }

  lemma EnqueueKeepsJob(db: Database, j: Id, project: Id, jobType: JobType, revision: Option<Id>, key: Option<Id>,
                        k: Id)
    requires TablesInv(db) && j !in db.jobs && k in db.jobs
    ensures var after := EnqueueRow(db, j, project, jobType, revision, key);
      k in after.jobs && JobIsBelowItsHead(after, k)
  {
    assert JobIsBelowItsHead(db, k);
    if key.Some? && (project, key.value) in db.heads { assert HeadNamesItsJob(db, (project, key.value)); }
  }

  lemma EnqueueKeepsProgress(db: Database, j: Id, project: Id, jobType: JobType, revision: Option<Id>, key: Option<Id>)
    requires TablesInv(db) && j !in db.jobs
    ensures forall k :: k in EnqueueRow(db, j, project, jobType, revision, key).jobs ==>
              var job := EnqueueRow(db, j, project, jobType, revision, key).jobs[k];
              0.0 <= job.progress <= 1.0 && (job.state.Succeeded? ==> job.progress == 1.0)
  {
  }

  lemma EnqueueKeepsTables(db: Database, j: Id, project: Id, jobType: JobType, revision: Option<Id>, key: Option<Id>)
    requires TablesInv(db) && j !in db.jobs
    ensures TablesInv(EnqueueRow(db, j, project, jobType, revision, key))
  {
    var after := EnqueueRow(db, j, project, jobType, revision, key);
    EnqueueKeepsHeads(db, j, project, jobType, revision, key);
    EnqueueKeepsProgress(db, j, project, jobType, revision, key);
    forall k | k in after.jobs ensures JobIsBelowItsHead(after, k) {
      if k in db.jobs { EnqueueKeepsJob(db, j, project, jobType, revision, key, k); }
    }
  }

  lemma TransitionKeepsTables(db: Database, j: Id, target: JobState)
    requires TablesInv(db)
    ensures TablesInv(Transition(db, j, target))
  {
    var after := Transition(db, j, target);
    forall slot | slot in after.heads ensures HeadNamesItsJob(after, slot) { assert HeadNamesItsJob(db, slot); }
    forall k | k in after.jobs ensures JobIsBelowItsHead(after, k) { assert JobIsBelowItsHead(db, k); }
  }

  lemma FailActiveKeepsTables(db: Database)
    requires TablesInv(db)
    ensures TablesInv(db.(jobs := FailActive(db.jobs)))
  {
    var after := db.(jobs := FailActive(db.jobs));
    forall slot | slot in after.heads ensures HeadNamesItsJob(after, slot) { assert HeadNamesItsJob(db, slot); }
    forall k | k in after.jobs ensures JobIsBelowItsHead(after, k) { assert JobIsBelowItsHead(db, k); }
  }

  // A step that moves one thread and leaves the tables, the writer and the results alone.
  lemma MoveKeepsInv(s: State, j: Id, phase: Phase)
    requires Inv(s) && j in s.phases
    requires !InTransaction(s.phases[j]) && !InTransaction(phase)
    requires BeforeCommit(phase) ==> BeforeCommit(s.phases[j])
    requires ResultOf(phase).Some? ==> ResultOf(phase) == ResultOf(s.phases[j])
    ensures Inv(Go(s, j, phase))
  {
    var t := Go(s, j, phase);
    assert forall k :: Owned(t, k) == Owned(s, k);
    forall k | k in t.phases ensures ThreadInv(t, k) {
      if k != j { assert ThreadInv(s, k); } else { assert ThreadInv(s, j); }
    }
  }

  // A step that rewrites the tables without touching rows or the set of succeeded jobs.
  lemma TablesStepKeepsInv(s: State, db: Database)
    requires Inv(s) && s.writer.None? && TablesInv(db)
    requires db.rows == s.db.rows
    requires forall j :: j in s.db.jobs ==> j in db.jobs && db.jobs[j].revision == s.db.jobs[j].revision
    requires forall j: Id :: HasSucceeded(db, j) <==> HasSucceeded(s.db, j)
    ensures Inv(s.(db := db))
  {
    var t := s.(db := db);
    assert forall k :: Owned(t, k) == Owned(s, k);
    forall k | k in t.phases ensures ThreadInv(t, k) {
      assert ThreadInv(s, k);
      assert HasSucceeded(db, k) <==> HasSucceeded(s.db, k);
    }
  }

  lemma TokensKeepInv(s: State, tokens: map<Id, bool>, closed: bool)
    requires Inv(s)
    ensures Inv(s.(tokens := tokens, closed := closed))
  {
    var t := s.(tokens := tokens, closed := closed);
    assert forall k :: Owned(t, k) == Owned(s, k);
    forall k | k in t.phases ensures ThreadInv(t, k) { assert ThreadInv(s, k); }
  }

  lemma NewThreadKeepsInv(s: State, j: Id, phase: Phase)
    requires Inv(s) && j !in s.phases && j in s.db.jobs && s.writer.None?
    requires phase.Submitting? && s.db.jobs[j].state.Queued?
    ensures Inv(Go(s, j, phase))
  {
    var t := Go(s, j, phase);
    assert forall k :: Owned(t, k) == Owned(s, k);
    forall k | k in t.phases ensures ThreadInv(t, k) {
      if k != j { assert ThreadInv(s, k); }
    }
  }

  lemma EnqueueAddsNoSuccess(db: Database, j: Id, project: Id, jobType: JobType, revision: Option<Id>, key: Option<Id>)
    requires j !in db.jobs
    ensures var after := EnqueueRow(db, j, project, jobType, revision, key);
      && after.rows == db.rows && j in after.jobs && after.jobs[j].state.Queued?
      && (forall k :: k in db.jobs ==> k in after.jobs && after.jobs[k].revision == db.jobs[k].revision)
      && (forall k: Id :: HasSucceeded(after, k) <==> HasSucceeded(db, k))
  {
  }

  lemma EnqueueKeepsInv(s: State, j: Id, project: Id, jobType: JobType, revision: Option<Id>, key: Option<Id>)
    requires Inv(s)
    ensures Inv(DoEnqueue(s, j, project, jobType, revision, key))
  {
    if s.writer.None? && j !in s.db.jobs {
      EnqueueAddsNoSuccess(s.db, j, project, jobType, revision, key);
      EnqueueKeepsTables(s.db, j, project, jobType, revision, key);
      var enqueued := s.(db := EnqueueRow(s.db, j, project, jobType, revision, key));
      TablesStepKeepsInv(s, enqueued.db);
      assert j in s.phases ==> ThreadInv(s, j);
      NewThreadKeepsInv(enqueued, j, Submitting(SupersededBy(s.db, project, key)));
    }
  }

  lemma TransitionKeepsInv(s: State, j: Id, target: JobState)
    requires Inv(s) && s.writer.None? && !target.Succeeded?
    ensures Inv(s.(db := Transition(s.db, j, target)))
  {
    var db := Transition(s.db, j, target);
    TransitionKeepsTables(s.db, j, target);
    assert forall k: Id :: HasSucceeded(db, k) <==> HasSucceeded(s.db, k);
    TablesStepKeepsInv(s, db);
  }

  lemma StartKeepsInv(s: State, j: Id)
    requires Inv(s)
    ensures Inv(DoStart(s, j))
  {
    if At(s, j).Pending? && s.writer.None? {
      if Accepted(s.db, j, Running) {
        TransitionKeepsInv(s, j, Running);
        MoveKeepsInv(s.(db := Transition(s.db, j, Running)), j, Working);
      } else {
        TokensKeepInv(s, DoCancelToken(s, j).tokens, s.closed);
        MoveKeepsInv(DoCancelToken(s, j), j, Done);
      }
    }
  }

  lemma ProgressKeepsTables(db: Database, j: Id, progress: real)
    requires TablesInv(db) && j in db.jobs && db.jobs[j].state.Running? && 0.0 <= progress < 1.0
    ensures var after := db.(jobs := db.jobs[j := db.jobs[j].(progress := progress)]);
      TablesInv(after) && forall k: Id :: HasSucceeded(after, k) <==> HasSucceeded(db, k)
  {
    var after := db.(jobs := db.jobs[j := db.jobs[j].(progress := progress)]);
    forall slot | slot in after.heads ensures HeadNamesItsJob(after, slot) { assert HeadNamesItsJob(db, slot); }
    forall k | k in after.jobs ensures JobIsBelowItsHead(after, k) { assert JobIsBelowItsHead(db, k); }
  }

  lemma ReportKeepsInv(s: State, j: Id, progress: real)
    requires Inv(s)
    ensures Inv(DoReport(s, j, progress))
  {
    if At(s, j).Working? && s.writer.None? && j in s.db.jobs && !TokenCanceled(s, j) && 0.0 <= progress < 1.0 {
      if s.db.jobs[j].state.Running? && s.db.jobs[j].progress <= progress {
        ProgressKeepsTables(s.db, j, progress);
        TablesStepKeepsInv(s, DoReport(s, j, progress).db);
      } else {
        TokensKeepInv(s, DoCancelToken(s, j).tokens, s.closed);
      }
    }
  }

  lemma WorkReturnsKeepsInv(s: State, j: Id, result: seq<Artifact>)
    requires Inv(s)
    ensures Inv(DoWorkReturns(s, j, result))
  {
    if At(s, j).Working? {
      var t := DoWorkReturns(s, j, result);
      assert ThreadInv(s, j);
      forall k ensures RowsOf(t.db.rows, k) == Owned(t, k) {
        assert Owned(s, k) == Owned(t, k);
      }
      forall k | k in t.phases ensures ThreadInv(t, k) { assert ThreadInv(s, k); }
    }
  }

  // Opening, abandoning or rolling back a transaction moves the writer lock with the thread.
  lemma LockKeepsInv(s: State, j: Id, phase: Phase)
    requires Inv(s) && j in s.phases
    requires BeforeCommit(phase) ==> BeforeCommit(s.phases[j])
    requires ResultOf(phase).Some? ==> ResultOf(phase) == ResultOf(s.phases[j])
    requires if InTransaction(phase) then s.writer.None? || s.writer == Some(j) else s.writer == Some(j)
    requires phase.RowsWritten? ==> Publishable(s.db, j)
    ensures Inv(Go(s, j, phase).(writer := if InTransaction(phase) then Some(j) else None))
  {
    var t := Go(s, j, phase).(writer := if InTransaction(phase) then Some(j) else None);
    assert forall k :: Owned(t, k) == Owned(s, k);
    forall k | k in t.phases ensures ThreadInv(t, k) {
      if k == j { assert ThreadInv(s, j); } else { assert ThreadInv(s, k); }
    }
  }

  lemma VerifyBlobsKeepsInv(s: State, j: Id, intact: bool)
    requires Inv(s)
    ensures Inv(DoVerifyBlobs(s, j, intact))
  {
    if At(s, j).Returned? {
      MoveKeepsInv(s, j, CancelRead);
      MoveKeepsInv(s, j, FailRead);
      MoveKeepsInv(s, j, BlobsVerified(At(s, j).result));
    }
  }

  lemma WriteKeepsInv(s: State, j: Id)
    requires Inv(s)
    ensures Inv(DoWriteRows(s, j))
  {
    if j in s.phases && s.phases[j].TransactionOpened? {
      var result := s.phases[j].result;
      assert ThreadInv(s, j);
      LockKeepsInv(s, j, Done);
      LockKeepsInv(s, j, FailRead);
      if Publishable(s.db, j) { LockKeepsInv(s, j, RowsWritten(result)); }
    }
  }

  lemma BeginKeepsInv(s: State, j: Id)
    requires Inv(s)
    ensures Inv(DoBegin(s, j))
  {
    if j in s.phases && s.phases[j].BlobsVerified? && s.writer.None? {
      assert ThreadInv(s, j);
      LockKeepsInv(s, j, TransactionOpened(s.phases[j].result));
    }
  }

  lemma RaiseKeepsInv(s: State, j: Id)
    requires Inv(s)
    ensures Inv(DoRaiseAtCheckpoint(s, j))
  {
    if j in s.phases {
      assert ThreadInv(s, j);
      if InTransaction(s.phases[j]) {
        LockKeepsInv(s, j, FailRead);
      } else {
        MoveKeepsInv(s, j, FailRead);
      }
    }
  }

  // The commit is the one step that makes a job succeed, and it brings exactly its rows.
  lemma CommitKeepsInv(s: State, j: Id)
    requires Inv(s)
    ensures Inv(DoCommit(s, j))
  {
    if j in s.phases && s.phases[j].RowsWritten? {
      var result := s.phases[j].result;
      assert ThreadInv(s, j);
      var inserted := RowsFor(j, s.db.jobs[j].revision, result);
      var db := s.db.(rows := s.db.rows + inserted);
      TransitionKeepsTables(s.db, j, Succeeded);
      var t := DoCommit(s, j);
      assert t.db == Transition(db, j, Succeeded);
      assert t.db.jobs == Transition(s.db, j, Succeeded).jobs && t.db.heads == s.db.heads;
      CommittedTables(Transition(s.db, j, Succeeded), t.db);
      CommitBringsItsRows(s, j);
      forall k | k in t.phases ensures ThreadInv(t, k) {
        assert ThreadInv(s, k);
      }
    }
  }

  lemma CommitSucceeds(s: State, j: Id)
    requires j in s.phases && s.phases[j].RowsWritten? && Publishable(s.db, j)
    ensures var t := DoCommit(s, j);
      && t.db.rows == s.db.rows + RowsFor(j, s.db.jobs[j].revision, s.phases[j].result)
      && t.db.jobs == s.db.jobs[j := s.db.jobs[j].(state := Succeeded, progress := 1.0)]
      && t.db.heads == s.db.heads && t.produced == s.produced && t.writer.None?
  {
  }

  lemma CommitChangesOneOwner(s: State, j: Id, k: Id)
    requires j in s.phases && s.phases[j].RowsWritten? && Publishable(s.db, j)
    requires j in s.produced && s.produced[j] == s.phases[j].result
    ensures Owned(DoCommit(s, j), k)
         == if k == j then RowsFor(j, s.db.jobs[j].revision, s.phases[j].result) else Owned(s, k)
  {
    CommitSucceeds(s, j);
  }

  lemma CommitAddsRows(s: State, j: Id, k: Id)
    requires j in s.phases && s.phases[j].RowsWritten? && Publishable(s.db, j)
    ensures RowsOf(DoCommit(s, j).db.rows, k)
         == RowsOf(s.db.rows, k)
            + if k == j then RowsFor(j, s.db.jobs[j].revision, s.phases[j].result) else []
  {
    CommitSucceeds(s, j);
    var inserted := RowsFor(j, s.db.jobs[j].revision, s.phases[j].result);
    RowsOfAppend(s.db.rows, inserted, k);
    RowsOfUniform(inserted, j, k);
  }

  lemma CommitBringsItsRows(s: State, j: Id)
    requires Inv(s) && j in s.phases && s.phases[j].RowsWritten?
    ensures forall k :: RowsOf(DoCommit(s, j).db.rows, k) == Owned(DoCommit(s, j), k)
  {
    assert ThreadInv(s, j);
    forall k ensures RowsOf(DoCommit(s, j).db.rows, k) == Owned(DoCommit(s, j), k) {
      assert RowsOf(s.db.rows, k) == Owned(s, k);
      CommitAddsRows(s, j, k);
      CommitChangesOneOwner(s, j, k);
      OwnsNothingYet(s, j);
    }
  }

  lemma OwnsNothingYet(s: State, j: Id)
    requires Inv(s) && j in s.phases && BeforeCommit(s.phases[j])
    ensures Owned(s, j) == []
  {
    assert ThreadInv(s, j);
  }

  lemma CommittedTables(a: Database, b: Database)
    requires TablesInv(a) && a.jobs == b.jobs && a.heads == b.heads
    ensures TablesInv(b)
  {
    forall slot | slot in b.heads ensures HeadNamesItsJob(b, slot) { assert HeadNamesItsJob(a, slot); }
    forall j | j in b.jobs ensures JobIsBelowItsHead(b, j) { assert JobIsBelowItsHead(a, j); }
  }

  lemma WriteRowKeepsInv(s: State, j: Id)
    requires Inv(s)
    ensures Inv(DoWriteRow(s, j))
  {
    if s.writer.None? && j in s.phases {
      var target := if s.phases[j].CancelWrite? then Canceled else Failed;
      TransitionKeepsInv(s, j, target);
      if s.phases[j].CancelWrite? || s.phases[j].FailWrite? {
        MoveKeepsInv(s.(db := Transition(s.db, j, target)), j, Done);
      }
    }
  }

  lemma ForgetKeepsInv(s: State, j: Id)
    requires Inv(s)
    ensures Inv(DoForget(s, j))
  {
    if At(s, j).Done? {
      var t := DoForget(s, j);
      if j in s.phases { assert ThreadInv(s, j); }
      assert forall k :: Owned(t, k) == Owned(s, k);
      forall k | k in t.phases ensures ThreadInv(t, k) { assert ThreadInv(s, k); }
    }
  }

  lemma ReconcileKeepsInv(s: State)
    requires Inv(s)
    ensures Inv(DoReconcile(s)) && Inv(DoProcessDeath(s))
  {
    var dead := DoProcessDeath(s);
    assert forall k :: Owned(dead, k) == Owned(s, k);
    if s.writer.None? {
      FailActiveKeepsTables(s.db);
      var db := s.db.(jobs := FailActive(s.db.jobs));
      assert forall k: Id :: HasSucceeded(db, k) <==> HasSucceeded(s.db, k);
      TablesStepKeepsInv(s, db);
    }
  }

  lemma RegisterKeepsInv(s: State, j: Id)
    requires Inv(s)
    ensures Inv(DoRegister(s, j))
  {
    if j in s.phases && s.phases[j].Submitting? {
      var t := DoRegister(s, j);
      MoveKeepsInv(s, j, CancelRead);
      MoveKeepsInv(s, j, Pending);
      TokensKeepInv(Go(s, j, Pending), t.tokens, s.closed);
    }
  }

  lemma CancelKeepsInv(s: State, j: Id)
    requires Inv(s)
    ensures Inv(DoCancelToken(s, j)) && Inv(DoCancelRow(s, j)) && Inv(DoShutdown(s)) && Inv(DoDropPending(s, j))
  {
    TokensKeepInv(s, DoCancelToken(s, j).tokens, s.closed);
    TokensKeepInv(s, DoShutdown(s).tokens, DoShutdown(s).closed);
    if s.writer.None? { TransitionKeepsInv(s, j, Canceled); }
    if At(s, j).Pending? { MoveKeepsInv(s, j, Done); }
  }

  lemma CallbackKeepsInv(s: State, j: Id, raised: Raised)
    requires Inv(s)
    ensures Inv(DoCheckCanceled(s, j)) && Inv(DoWorkRaises(s, j, raised)) && Inv(DoFinishPublication(s, j))
  {
    if At(s, j).Working? {
      MoveKeepsInv(s, j, CancelRead);
      MoveKeepsInv(s, j, FailRead);
      TokensKeepInv(s, DoCancelToken(s, j).tokens, s.closed);
      MoveKeepsInv(DoCancelToken(s, j), j, Done);
    }
    if At(s, j).DatabaseCommitted? { MoveKeepsInv(s, j, Done); }
  }

  lemma ReadRowKeepsInv(s: State, j: Id)
    requires Inv(s)
    ensures Inv(DoReadRow(s, j))
  {
    if j in s.phases && (s.phases[j].CancelRead? || s.phases[j].FailRead?) {
      MoveKeepsInv(s, j, CancelWrite);
      MoveKeepsInv(s, j, FailWrite);
      MoveKeepsInv(s, j, Done);
    }
  }

  lemma SealKeepsInv(s: State, published: Id)
    requires Inv(s)
    ensures Inv(Apply(s, SealRevision(published)))
  {
    if s.writer.None? {
      var db := s.db.(sealed := s.db.sealed + {published});
      CommittedTables(s.db, db);
      assert forall k: Id :: HasSucceeded(db, k) <==> HasSucceeded(s.db, k);
      TablesStepKeepsInv(s, db);
    }
  }

  predicate OfTransaction(a: Action) {
    a.Begin? || a.WriteRows? || a.Commit? || a.RaiseAtCheckpoint?
  }

  lemma TransactionStepKeepsInv(s: State, a: Action)
    requires Inv(s) && OfTransaction(a)
    ensures Inv(Apply(s, a))
  {
    match a
    case Begin(j) => BeginKeepsInv(s, j);
    case WriteRows(j) => WriteKeepsInv(s, j);
    case Commit(j) => CommitKeepsInv(s, j);
    case RaiseAtCheckpoint(j) => RaiseKeepsInv(s, j);
  }

  predicate OfCallback(a: Action) {
    a.CheckCanceled? || a.Report? || a.WorkReturns? || a.WorkRaises?
  }

  lemma CallbackStepKeepsInv(s: State, a: Action)
    requires Inv(s) && OfCallback(a)
    ensures Inv(Apply(s, a))
  {
    match a
    case CheckCanceled(j) => CallbackKeepsInv(s, j, WorkCanceled);
    case Report(j, progress) => ReportKeepsInv(s, j, progress);
    case WorkReturns(j, result) => WorkReturnsKeepsInv(s, j, result);
    case WorkRaises(j, raised) => CallbackKeepsInv(s, j, raised);
  }

  predicate OfManager(a: Action) {
    a.Enqueue? || a.Register? || a.CancelToken? || a.CancelRow? || a.Shutdown? || a.DropPending?
  }

  lemma ManagerStepKeepsInv(s: State, a: Action)
    requires Inv(s) && OfManager(a)
    ensures Inv(Apply(s, a))
  {
    match a
    case Enqueue(j, project, jobType, revision, key) => EnqueueKeepsInv(s, j, project, jobType, revision, key);
    case Register(j) => RegisterKeepsInv(s, j);
    case CancelToken(j) => CancelKeepsInv(s, j);
    case CancelRow(j) => CancelKeepsInv(s, j);
    case Shutdown => CancelKeepsInv(s, 0);
    case DropPending(j) => CancelKeepsInv(s, j);
  }

  /** One step from any state of the invariant, whatever the step. */
  lemma StepKeepsInv(s: State, a: Action)
    requires Inv(s)
    ensures Inv(Apply(s, a))
  {
    if OfTransaction(a) {
      TransactionStepKeepsInv(s, a);
    } else if OfCallback(a) {
      CallbackStepKeepsInv(s, a);
    } else if OfManager(a) {
      ManagerStepKeepsInv(s, a);
    } else {
      match a
      case Start(j) => StartKeepsInv(s, j);
      case VerifyBlobs(j, intact) => VerifyBlobsKeepsInv(s, j, intact);
      case FinishPublication(j) => CallbackKeepsInv(s, j, WorkCanceled);
      case ReadRow(j) => ReadRowKeepsInv(s, j);
      case WriteRow(j) => WriteRowKeepsInv(s, j);
      case Forget(j) => ForgetKeepsInv(s, j);
      case ProcessDeath => ReconcileKeepsInv(s);
      case Reconcile => ReconcileKeepsInv(s);
      case SealRevision(published) => SealKeepsInv(s, published);
    }
  }

  /** Every state that any interleaving reaches satisfies the invariant. */
  lemma {:induction false} RunKeepsInv(s: State, actions: seq<Action>)
    requires Inv(s)
    ensures Inv(Run(s, actions))
    decreases |actions|
  {
    if actions != [] {
      StepKeepsInv(s, actions[0]);
      RunKeepsInv(Apply(s, actions[0]), actions[1..]);
    }
  }

  lemma InitialInv()
    ensures Inv(INITIAL)
  {
  }

  // ----- how one row may change

  // A row keeps its identity, moves only along the transition table, never loses progress, and
  // once terminal never changes again.
  ghost predicate Evolves(a: Job, b: Job) {
    && a.project == b.project && a.jobType == b.jobType && a.revision == b.revision
    && a.key == b.key && a.generation == b.generation
    && a.progress <= b.progress
    && (a.state.Running? ==> !b.state.Queued?)
    && (!Active(a.state) ==> a == b)
  }

  ghost predicate AllEvolve(a: Database, b: Database) {
    forall j :: j in a.jobs ==> j in b.jobs && Evolves(a.jobs[j], b.jobs[j])
  }

  // The generation of the current head, 0 before the first one.
  function HeadGeneration(db: Database, slot: (Id, Id)): nat {
    if slot in db.heads then db.heads[slot].generation else 0
  }

  // Heads only move up, and a row that appears is newer than every head there was.
  ghost predicate GenerationsGrow(a: Database, b: Database) {
    && (forall slot: (Id, Id) :: HeadGeneration(a, slot) <= HeadGeneration(b, slot))
    && (forall j :: j in b.jobs && j !in a.jobs && b.jobs[j].key.Some? ==>
          HeadGeneration(a, (b.jobs[j].project, b.jobs[j].key.value)) < b.jobs[j].generation)
  }

  ghost predicate Later(a: Database, b: Database) {
    AllEvolve(a, b) && GenerationsGrow(a, b)
  }

  lemma EnqueueEvolves(db: Database, j: Id, project: Id, jobType: JobType, revision: Option<Id>, key: Option<Id>)
    requires TablesInv(db) && j !in db.jobs
    ensures Later(db, EnqueueRow(db, j, project, jobType, revision, key))
  {
  }

  lemma TransitionEvolves(db: Database, j: Id, target: JobState)
    requires TablesInv(db)
    ensures Later(db, Transition(db, j, target))
  {
  }

  lemma SameRowsEvolve(a: Database, b: Database)
    requires a.jobs == b.jobs && a.heads == b.heads
    ensures Later(a, b)
  {
  }

  lemma CommitEvolves(s: State, j: Id)
    requires Inv(s)
    ensures Later(s.db, DoCommit(s, j).db)
  {
    var m := Transition(s.db, j, Succeeded);
    TransitionEvolves(s.db, j, Succeeded);
    SameRowsEvolve(s.db, s.db);
    var t := DoCommit(s, j).db;
    if t.jobs != s.db.jobs {
      assert t.jobs == m.jobs && t.heads == m.heads;
      SameRowsEvolve(m, t);
      EvolutionComposes(s.db, m, t);
    }
  }

  lemma ReportEvolves(s: State, j: Id, progress: real)
    requires Inv(s)
    ensures Later(s.db, DoReport(s, j, progress).db)
  {
    SameRowsEvolve(s.db, s.db);
  }

  lemma StartEvolves(s: State, j: Id)
    requires Inv(s)
    ensures Later(s.db, DoStart(s, j).db)
  {
    SameRowsEvolve(s.db, s.db);
    TransitionEvolves(s.db, j, Running);
  }

  lemma WriteRowEvolves(s: State, j: Id)
    requires Inv(s)
    ensures Later(s.db, DoWriteRow(s, j).db)
  {
    SameRowsEvolve(s.db, s.db);
    TransitionEvolves(s.db, j, Canceled);
    TransitionEvolves(s.db, j, Failed);
  }

  lemma CancelRowEvolves(s: State, j: Id)
    requires Inv(s)
    ensures Later(s.db, DoCancelRow(s, j).db)
  {
    SameRowsEvolve(s.db, s.db);
    TransitionEvolves(s.db, j, Canceled);
  }

  lemma DoEnqueueEvolves(s: State, j: Id, project: Id, jobType: JobType, revision: Option<Id>, key: Option<Id>)
    requires Inv(s)
    ensures Later(s.db, DoEnqueue(s, j, project, jobType, revision, key).db)
  {
    SameRowsEvolve(s.db, s.db);
    if j !in s.db.jobs { EnqueueEvolves(s.db, j, project, jobType, revision, key); }
  }

  lemma ReconcileEvolves(s: State)
    requires Inv(s)
    ensures Later(s.db, DoReconcile(s).db)
  {
  }

  predicate ByItsThread(a: Action) {
    a.Start? || a.Report? || a.Commit? || a.WriteRow?
  }

  lemma ThreadStepEvolves(s: State, a: Action)
    requires Inv(s) && ByItsThread(a)
    ensures Later(s.db, Apply(s, a).db)
  {
    match a
    case Start(j) => StartEvolves(s, j);
    case Report(j, progress) => ReportEvolves(s, j, progress);
    case Commit(j) => CommitEvolves(s, j);
    case WriteRow(j) => WriteRowEvolves(s, j);
  }

  // Steps that only move a thread, a token or the lock.
  predicate LeavesTables(a: Action) {
    || a.Register? || a.CancelToken? || a.Shutdown? || a.DropPending? || a.CheckCanceled? || a.Forget?
    || a.WorkReturns? || a.WorkRaises? || a.VerifyBlobs? || a.Begin? || a.WriteRows? || a.RaiseAtCheckpoint?
    || a.FinishPublication? || a.ReadRow? || a.ProcessDeath?
  }

  lemma LeavesTablesAlone(s: State, a: Action)
    requires LeavesTables(a)
    ensures Apply(s, a).db == s.db
  {
  }

  lemma ReadStepEvolves(s: State, a: Action)
    requires LeavesTables(a)
    ensures Later(s.db, Apply(s, a).db)
  {
    LeavesTablesAlone(s, a);
    SameRowsEvolve(s.db, s.db);
  }

  lemma StepEvolves(s: State, a: Action)
    requires Inv(s)
    ensures Later(s.db, Apply(s, a).db)
  {
    if ByItsThread(a) {
      ThreadStepEvolves(s, a);
    } else {
      match a
      case Enqueue(j, project, jobType, revision, key) => DoEnqueueEvolves(s, j, project, jobType, revision, key);
      case CancelRow(j) => CancelRowEvolves(s, j);
      case Reconcile => ReconcileEvolves(s);
      case SealRevision(published) => SameRowsEvolve(s.db, Apply(s, a).db);
      case _ => ReadStepEvolves(s, a);
    }
  }

  /** Over a whole run: rows evolve, and generations of new rows exceed every earlier head. */
  lemma {:induction false} RunEvolves(s: State, actions: seq<Action>)
    requires Inv(s)
    ensures Later(s.db, Run(s, actions).db)
    decreases |actions|
  {
    if actions != [] {
      var m := Apply(s, actions[0]);
      StepKeepsInv(s, actions[0]);
      StepEvolves(s, actions[0]);
      RunEvolves(m, actions[1..]);
      EvolutionComposes(s.db, m.db, Run(s, actions).db);
    }
  }

  lemma EvolutionComposes(a: Database, b: Database, c: Database)
    requires Later(a, b) && Later(b, c)
    ensures Later(a, c)
  {
    forall j | j in c.jobs && j !in a.jobs && c.jobs[j].key.Some?
      ensures HeadGeneration(a, (c.jobs[j].project, c.jobs[j].key.value)) < c.jobs[j].generation
    {
      if j in b.jobs { assert Evolves(b.jobs[j], c.jobs[j]); }
    }
    forall j | j in a.jobs ensures j in c.jobs && Evolves(a.jobs[j], c.jobs[j]) {
      assert j in b.jobs && Evolves(a.jobs[j], b.jobs[j]) && Evolves(b.jobs[j], c.jobs[j]);
    }
  }

  // ----- main results

  /**
  In every interleaving of submits, cancels, supersessions, worker steps, exceptions at each
  checkpoint, process deaths and recoveries: every artifact row belongs to a succeeded job, and
  a succeeded job owns exactly the rows of the one result its callback returned.
  */
  lemma RowsBelongToSucceededJobs(actions: seq<Action>)
    ensures var s := Run(INITIAL, actions);
      && (forall i :: 0 <= i < |s.db.rows| ==> HasSucceeded(s.db, s.db.rows[i].jobId))
      && (forall j :: HasSucceeded(s.db, j) ==>
            && j in s.produced && |RowsOf(s.db.rows, j)| == |s.produced[j]|
            && forall i :: 0 <= i < |s.produced[j]| ==>
                 RowsOf(s.db.rows, j)[i] == Row(j, s.db.jobs[j].revision, s.produced[j][i]))
  {
    InitialInv();
    RunKeepsInv(INITIAL, actions);
    var s := Run(INITIAL, actions);
    forall i | 0 <= i < |s.db.rows| ensures HasSucceeded(s.db, s.db.rows[i].jobId) {
      RowsOfMember(s.db.rows, i);
      assert RowsOf(s.db.rows, s.db.rows[i].jobId) == Owned(s, s.db.rows[i].jobId);
    }
  }

  /** The states a row can be in after one step, by the state it was in. */
  predicate MayBecome(from: JobState, to: JobState) {
    match from
    case Queued => to in {Queued, Running, Failed, Canceled, Superseded}
    case Running => to in {Running, Succeeded, Failed, Canceled, Superseded}
    case _ => to == from
  }

  lemma ThreadStepFollowsTheTable(s: State, a: Action, j: Id)
    requires Inv(s) && j in s.db.jobs && ByItsThread(a)
    ensures j in Apply(s, a).db.jobs && MayBecome(s.db.jobs[j].state, Apply(s, a).db.jobs[j].state)
  {
  }

  lemma OtherStepFollowsTheTable(s: State, a: Action, j: Id)
    requires Inv(s) && j in s.db.jobs && !ByItsThread(a) && !LeavesTables(a)
    ensures j in Apply(s, a).db.jobs && MayBecome(s.db.jobs[j].state, Apply(s, a).db.jobs[j].state)
  {
  }

  /** No row skips a state: it succeeds only from running, and no step takes it back. */
  lemma StepFollowsTheTable(s: State, a: Action, j: Id)
    requires Inv(s) && j in s.db.jobs
    ensures j in Apply(s, a).db.jobs && MayBecome(s.db.jobs[j].state, Apply(s, a).db.jobs[j].state)
  {
    if LeavesTables(a) {
      LeavesTablesAlone(s, a);
    } else if ByItsThread(a) {
      ThreadStepFollowsTheTable(s, a, j);
    } else {
      OtherStepFollowsTheTable(s, a, j);
    }
  }

  // The one who holds the writer lock, and what it may do with it.
  predicate ByTheWriter(a: Action, j: Id) {
    a == WriteRows(j) || a == Commit(j) || a == RaiseAtCheckpoint(j)
  }

  lemma OthersLeaveTheLock(s: State, a: Action)
    requires Inv(s) && s.writer.Some? && !ByTheWriter(a, s.writer.value) && OfTransaction(a)
    ensures Apply(s, a).db == s.db && Apply(s, a).writer == s.writer
  {
    if a.j in s.phases { assert ThreadInv(s, a.j); }
  }

  lemma NoOneElseTakesTheLock(s: State, a: Action)
    requires s.writer.Some? && !OfTransaction(a) && !a.ProcessDeath?
    ensures Apply(s, a).db == s.db && Apply(s, a).writer == s.writer
  {
  }

  /** While a publication's transaction is open, no other step but the end of the process touches tables or lock. */
  lemma TablesAreLocked(s: State, a: Action)
    requires Inv(s) && s.writer.Some? && !ByTheWriter(a, s.writer.value) && !a.ProcessDeath?
    ensures Apply(s, a).db == s.db && Apply(s, a).writer == s.writer
  {
    if OfTransaction(a) {
      OthersLeaveTheLock(s, a);
    } else {
      NoOneElseTakesTheLock(s, a);
    }
  }

  lemma OtherStepsLeaveTheRows(s: State, a: Action)
    requires !a.Commit?
    ensures Apply(s, a).db.rows == s.db.rows
  {
    if LeavesTables(a) { LeavesTablesAlone(s, a); }
  }

  /** And what it has inserted shows in the tables only when it commits. */
  lemma OnlyTheCommitShows(s: State, a: Action)
    requires Inv(s) && Apply(s, a).db.rows != s.db.rows
    ensures a.Commit? && s.writer == Some(a.j) && At(s, a.j).RowsWritten? && a.j in Apply(s, a).db.jobs
    ensures Apply(s, a).db.jobs[a.j].state == Succeeded
  {
    if !a.Commit? {
      OtherStepsLeaveTheRows(s, a);
      assert false;
    }
    if a.j in s.phases {
      assert ThreadInv(s, a.j);
      if s.phases[a.j].RowsWritten? { CommitSucceeds(s, a.j); }
    }
  }

  /** A terminal row never changes again, whatever happens next. */
  lemma TerminalIsFinal(before: seq<Action>, after: seq<Action>, j: Id)
    requires j in Run(INITIAL, before).db.jobs && !Active(Run(INITIAL, before).db.jobs[j].state)
    ensures var t := Run(Run(INITIAL, before), after);
      j in t.db.jobs && t.db.jobs[j] == Run(INITIAL, before).db.jobs[j]
  {
    InitialInv();
    RunKeepsInv(INITIAL, before);
    RunEvolves(Run(INITIAL, before), after);
  }

  /**
  Once a newer generation of a supersession key is enqueued, no older one becomes succeeded:
  an older job that is succeeded later was succeeded already. No token takes part in the
  argument, so it holds when the superseding submit finds no token to cancel.
  */
  lemma SupersededNeverSucceeds(before: seq<Action>, after: seq<Action>, newer: Id, older: Id)
    requires newer in Run(INITIAL, before).db.jobs && older in Run(Run(INITIAL, before), after).db.jobs
    requires var n, o := Run(INITIAL, before).db.jobs[newer], Run(Run(INITIAL, before), after).db.jobs[older];
      n.key.Some? && n.key == o.key && n.project == o.project && o.generation < n.generation
    requires Run(Run(INITIAL, before), after).db.jobs[older].state.Succeeded?
    ensures older in Run(INITIAL, before).db.jobs && Run(INITIAL, before).db.jobs[older].state.Succeeded?
  {
    InitialInv();
    RunKeepsInv(INITIAL, before);
    var s := Run(INITIAL, before);
    RunEvolves(s, after);
    var t := Run(s, after);
    assert JobIsBelowItsHead(s.db, newer);
    assert older in s.db.jobs;
    assert Evolves(s.db.jobs[older], t.db.jobs[older]);
    assert JobIsBelowItsHead(s.db, older);
  }

  /** At most one job of a supersession key is active, and it is the newest there is. */
  lemma OneActiveJobPerKey(actions: seq<Action>, j: Id, other: Id)
    requires j in Run(INITIAL, actions).db.jobs && other in Run(INITIAL, actions).db.jobs
    requires var a, b := Run(INITIAL, actions).db.jobs[j], Run(INITIAL, actions).db.jobs[other];
      a.key.Some? && a.key == b.key && a.project == b.project && Active(a.state)
    ensures var a, b := Run(INITIAL, actions).db.jobs[j], Run(INITIAL, actions).db.jobs[other];
      if j == other then true else b.generation < a.generation && !Active(b.state)
  {
    InitialInv();
    RunKeepsInv(INITIAL, actions);
    var s := Run(INITIAL, actions);
    assert JobIsBelowItsHead(s.db, j) && JobIsBelowItsHead(s.db, other);
  }

  /**
  Startup recovery leaves no job active exactly when every active job has a retry action; the
  lookup raises on a prompted edit, and the transaction then rolls the whole recovery back.
  */
  lemma ReconcileCondition(s: State)
    requires Inv(s) && s.writer.None?
    ensures (forall j :: j in Apply(s, Reconcile).db.jobs ==> !Active(Apply(s, Reconcile).db.jobs[j].state))
            <==> (forall j :: j in s.db.jobs && Active(s.db.jobs[j].state) ==> !s.db.jobs[j].jobType.PromptedEdit?)
    ensures !Recoverable(s.db.jobs) ==> Apply(s, Reconcile) == s
  {
    if !Recoverable(s.db.jobs) {
      var j :| j in s.db.jobs && Active(s.db.jobs[j].state) && !HasRetryAction(s.db.jobs[j].jobType);
      assert Active(Apply(s, Reconcile).db.jobs[j].state);
    }
  }

  lemma RunFour(s: State, a: Action, b: Action, c: Action, d: Action)
    ensures Run(s, [a, b, c, d]) == Apply(Apply(Apply(Apply(s, a), b), c), d)
  {
    assert [a, b, c, d][1..] == [b, c, d] && [b, c, d][1..] == [c, d] && [c, d][1..] == [d] && [d][1..] == [];
    assert Run(Apply(Apply(Apply(s, a), b), c), [d]) == Apply(Apply(Apply(Apply(s, a), b), c), d);
    assert Run(Apply(Apply(s, a), b), [c, d]) == Run(Apply(Apply(Apply(s, a), b), c), [d]);
    assert Run(Apply(s, a), [b, c, d]) == Run(Apply(Apply(s, a), b), [c, d]);
  }

  lemma DeathBeforeTheStart()
    ensures var s := Apply(Apply(Apply(INITIAL, Enqueue(7, 1, PromptedEdit, None, None)), Register(7)), ProcessDeath);
            7 in s.db.jobs && s.db.jobs[7].state.Queued? && s.db.jobs[7].jobType.PromptedEdit? && s.writer.None?
  {
  }

  lemma PromptedEditStopsRecovery(s: State, j: Id)
    requires j in s.db.jobs && Active(s.db.jobs[j].state) && s.db.jobs[j].jobType.PromptedEdit?
    ensures Apply(s, Reconcile) == s
  {
    assert !Recoverable(s.db.jobs);
  }

  /** The failing case is reachable: one prompted edit, interrupted before it starts. */
  lemma InterruptedPromptedEditBlocksRecovery()
    ensures var s := Run(INITIAL, [Enqueue(7, 1, PromptedEdit, None, None), Register(7), ProcessDeath, Reconcile]);
      7 in s.db.jobs && s.db.jobs[7].state.Queued?
  {
    RunFour(INITIAL, Enqueue(7, 1, PromptedEdit, None, None), Register(7), ProcessDeath, Reconcile);
    DeathBeforeTheStart();
    var s := Apply(Apply(Apply(INITIAL, Enqueue(7, 1, PromptedEdit, None, None)), Register(7)), ProcessDeath);
    PromptedEditStopsRecovery(s, 7);
  }
}
