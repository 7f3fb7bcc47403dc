/**
The manager and its tables as mutable state: each method is one atomic step of
`LocalWorkerManager` (src/image23mf/workers.py), `JobRepository` (src/image23mf/storage/jobs.py)
or `StartupRecoveryService.reconcile` (src/image23mf/recovery.py), proved against the state
machine.
*/
module WorkerManager {
  import opened Wrappers
  import opened Identifiers
  import opened JobContract
  import opened Workers
  import opened WorkerSafety

  /** What `reconcile` reports about one interrupted job. */
  datatype Evidence = Evidence(jobId: Id, stateBefore: JobState)

  /** What a progress report comes to: the last two raise, and `NoLongerRunning` cancels the token first. */
  datatype Reported = Accepted | TokenIsCanceled | OutOfRange | NoLongerRunning

  datatype Outcome = Recovered(evidence: seq<Evidence>) | NoRetryAction(jobId: Id) | Locked

  /** The insert loop: each row meets the rows before it, those of its own result included. */
  method InsertRows(existing: seq<Row>, sealed: set<Id>, inserted: seq<Row>) returns (accepted: bool)
    ensures accepted <==> Insertable(existing, sealed, inserted)
  {
    assert existing + inserted[..0] == existing && inserted[0..] == inserted;
    for i := 0 to |inserted|
      invariant Insertable(existing, sealed, inserted)
                <==> Insertable(existing + inserted[..i], sealed, inserted[i..])
    {
      assert inserted[i..][1..] == inserted[i + 1..];
      assert existing + inserted[..i] + [inserted[i]] == existing + inserted[..i + 1];
      if Conflicts(existing + inserted[..i], sealed, inserted[i]) { return false; }
    }
    return true;
  }

  /** The rows `reconcile` reads and rewrites, with one piece of evidence for each it rewrites. */
  method FailInterrupted(jobs: map<Id, Job>) returns (outcome: Outcome, recovered: map<Id, Job>)
    ensures outcome.Recovered? <==> Recoverable(jobs)
    ensures outcome.Recovered? ==> recovered == FailActive(jobs)
    ensures outcome.Recovered? ==> forall j, before :: Evidence(j, before) in outcome.evidence <==> (
      j in jobs && Active(jobs[j].state) && before == jobs[j].state)
    ensures !outcome.Recovered? ==> outcome.NoRetryAction? && recovered == jobs
    ensures !outcome.Recovered? ==> Unretryable(jobs, outcome.jobId)
  {
    var evidence: seq<Evidence> := [];
    recovered := jobs;
    var remaining := jobs.Keys;
    while remaining != {}
      invariant remaining <= jobs.Keys == recovered.Keys
      invariant forall j :: j in jobs && j !in remaining && Active(jobs[j].state) ==> HasRetryAction(jobs[j].jobType)
      invariant forall j :: j in jobs ==>
        recovered[j] == if j !in remaining && Active(jobs[j].state) then jobs[j].(state := Failed) else jobs[j]
      invariant forall j, before :: Evidence(j, before) in evidence <==> (
        j in jobs && j !in remaining && Active(jobs[j].state) && before == jobs[j].state)
      decreases remaining
    {
      var j :| j in remaining;
      if Active(jobs[j].state) {
        if !HasRetryAction(jobs[j].jobType) { return NoRetryAction(j), jobs; }
        recovered := recovered[j := jobs[j].(state := Failed)];
        evidence := evidence + [Evidence(j, jobs[j].state)];
      }
      remaining := remaining - {j};
    }
    return Recovered(evidence), recovered;
  }

  predicate Unretryable(jobs: map<Id, Job>, j: Id) {
    j in jobs && Active(jobs[j].state) && jobs[j].jobType.PromptedEdit?
  }

  /** The rows that the open transaction has inserted and not committed. */
  ghost function Uncommitted(s: State): seq<Row> {
    if s.writer.Some? && s.writer.value in s.phases && s.writer.value in s.db.jobs
       && s.phases[s.writer.value].RowsWritten?
    then RowsFor(s.writer.value, s.db.jobs[s.writer.value].revision, s.phases[s.writer.value].result)
    else []
  }

  // ----- what the steps mean to a caller

  /** Every row is as it was, but for the superseded one. */
  ghost predicate OneRowReplaced(before: map<Id, Job>, after: map<Id, Job>, superseded: Option<Id>) {
    forall k :: k in before ==>
      && k in after
      && after[k] == if superseded == Some(k) then before[k].(state := Superseded) else before[k]
  }

  /** The new job is queued, heads its key, and is the one active job there; the replaced head is superseded. */
  ghost predicate Enqueued(before: State, after: State, j: Id, key: Option<Id>, superseded: Option<Id>) {
    && j in after.db.jobs && after.db.jobs[j].state.Queued? && after.db.jobs[j].key == key
    && after.db.rows == before.db.rows && after.tokens == before.tokens
    && (key.Some? ==>
          var slot := (after.db.jobs[j].project, key.value);
          && slot in after.db.heads && after.db.heads[slot] == Head(j, after.db.jobs[j].generation)
          && HeadGeneration(before.db, slot) < after.db.jobs[j].generation
          && forall k :: k in after.db.jobs && k != j
                         && after.db.jobs[k].key == key && after.db.jobs[k].project == slot.0 ==>
               !Active(after.db.jobs[k].state))
    && OneRowReplaced(before.db.jobs, after.db.jobs, superseded)
    && (superseded.Some? ==> superseded.value in before.db.jobs && Active(before.db.jobs[superseded.value].state))
  }

  lemma HeadHasItsRow(db: Database, project: Id, key: Option<Id>)
    requires TablesInv(db)
    ensures key.Some? && (project, key.value) in db.heads ==> db.heads[(project, key.value)].jobId in db.jobs
  {
    if key.Some? && (project, key.value) in db.heads { assert HeadNamesItsJob(db, (project, key.value)); }
  }

  lemma EnqueueMeans(s: State, j: Id, project: Id, jobType: JobType, revision: Option<Id>, key: Option<Id>)
    requires Inv(s) && s.writer.None? && j !in s.db.jobs
    ensures Inv(DoEnqueue(s, j, project, jobType, revision, key))
    ensures Uncommitted(DoEnqueue(s, j, project, jobType, revision, key)) == []
    ensures Enqueued(s, DoEnqueue(s, j, project, jobType, revision, key), j, key, SupersededBy(s.db, project, key))
  {
    EnqueueKeepsInv(s, j, project, jobType, revision, key);
    var t := DoEnqueue(s, j, project, jobType, revision, key);
    forall k | k in t.db.jobs && k != j && key.Some? && t.db.jobs[k].key == key && t.db.jobs[k].project == project
      ensures !Active(t.db.jobs[k].state)
    {
      assert JobIsBelowItsHead(t.db, k);
    }
    EnqueueTouchesOneRow(s.db, j, project, jobType, revision, key);
  }

  lemma EnqueueTouchesOneRow(db: Database, j: Id, project: Id, jobType: JobType, revision: Option<Id>, key: Option<Id>)
    requires TablesInv(db) && j !in db.jobs
    ensures OneRowReplaced(db.jobs, EnqueueRow(db, j, project, jobType, revision, key).jobs,
                           SupersededBy(db, project, key))
  {
    if key.Some? && (project, key.value) in db.heads { assert HeadNamesItsJob(db, (project, key.value)); }
  }

  /** The success and exactly the result's rows appear together; nothing else changes. */
  ghost predicate Published(before: State, after: State, j: Id, result: seq<Artifact>) {
    && j in after.db.jobs && after.db.jobs[j].state.Succeeded? && after.db.jobs[j].progress == 1.0
    && |RowsOf(after.db.rows, j)| == |result|
    && (forall i :: 0 <= i < |result| ==>
          RowsOf(after.db.rows, j)[i] == Row(j, after.db.jobs[j].revision, result[i]))
    && (forall k: Id :: k != j ==> RowsOf(after.db.rows, k) == RowsOf(before.db.rows, k))
    && (forall k :: k in before.db.jobs && k != j ==> k in after.db.jobs && after.db.jobs[k] == before.db.jobs[k])
    && after.db.heads == before.db.heads && after.tokens == before.tokens && after.writer.None?
  }

  lemma CommitMeans(s: State, j: Id)
    requires Inv(s) && j in s.phases && s.phases[j].RowsWritten?
    ensures Inv(DoCommit(s, j)) && Uncommitted(DoCommit(s, j)) == []
    ensures j in s.db.jobs && s.db.jobs[j].state.Running? && s.writer == Some(j)
    ensures Published(s, DoCommit(s, j), j, s.phases[j].result)
  {
    assert ThreadInv(s, j);
    CommitKeepsInv(s, j);
    CommitSucceeds(s, j);
    OwnsNothingYet(s, j);
    assert RowsOf(s.db.rows, j) == Owned(s, j);
    forall k: Id ensures RowsOf(DoCommit(s, j).db.rows, k) == RowsOf(s.db.rows, k)
                       + if k == j then RowsFor(j, s.db.jobs[j].revision, s.phases[j].result) else []
    {
      CommitAddsRows(s, j, k);
    }
  }

  class LocalWorkerManager {
    var jobs: map<Id, Job>
    var heads: map<(Id, Id), Head>
    var rows: seq<Row>
    var sealed: set<Id>
    var writer: Option<Id>
    var staged: seq<Row>  // inserted by the open transaction, not committed
    var phases: map<Id, Phase>
    var tokens: map<Id, bool>
    var closed: bool
    ghost var produced: map<Id, seq<Artifact>>

    ghost function View(): State
      reads this
    {
      State(Database(jobs, heads, rows, sealed), writer, phases, tokens, closed, produced)
    }

    /** The whole invariant of the protocol. */
    ghost predicate Valid()
      reads this
    {
      Inv(View()) && staged == Uncommitted(View())
    }

    constructor ()
      ensures Valid() && View() == INITIAL
    {
      jobs, heads, rows, sealed := map[], map[], [], {};
      writer, staged := None, [];
      phases, tokens, closed := map[], map[], false;
      produced := map[];
    }

    method Enqueue(j: Id, project: Id, jobType: JobType, revision: Option<Id>, key: Option<Id>)
      returns (superseded: Option<Id>)
      requires Valid() && j !in jobs && writer.None?
      modifies this
      ensures Valid() && View() == DoEnqueue(old(View()), j, project, jobType, revision, key)
      ensures superseded == SupersededBy(old(View().db), project, key)
      ensures Enqueued(old(View()), View(), j, key, superseded)
    {
      EnqueueMeans(View(), j, project, jobType, revision, key);
      HeadHasItsRow(View().db, project, key);
      superseded := InsertJob(j, project, jobType, revision, key);
    }

    // The enqueue transaction: the head is read, superseded when active, and replaced.
    method InsertJob(j: Id, project: Id, jobType: JobType, revision: Option<Id>, key: Option<Id>)
      returns (superseded: Option<Id>)
      requires j !in jobs && writer.None?
      requires key.Some? && (project, key.value) in heads ==> heads[(project, key.value)].jobId in jobs
      modifies this`jobs, this`heads, this`phases
      ensures View() == DoEnqueue(old(View()), j, project, jobType, revision, key)
      ensures superseded == SupersededBy(old(View().db), project, key)
    {
      superseded := None;
      var generation := 0;
      if key.Some? {
        var slot := (project, key.value);
        generation := 1;
        if slot in heads {
          generation := heads[slot].generation + 1;
          var previous := heads[slot].jobId;
          if Active(jobs[previous].state) {
            jobs := jobs[previous := jobs[previous].(state := Superseded)];
            superseded := Some(previous);
          }
        }
        heads := heads[slot := Head(j, generation)];
      }
      jobs := jobs[j := Job(project, jobType, revision, key, generation, Queued, 0.0)];
      phases := phases[j := Submitting(superseded)];
    }

    method Register(j: Id)
      requires Valid() && j in phases && phases[j].Submitting?
      modifies this
      ensures Valid() && View() == DoRegister(old(View()), j)
      ensures View().db == old(View().db)
      // A closed manager starts nothing: the row goes on to be withdrawn.
      ensures closed ==> tokens == old(tokens) && phases[j].CancelRead?
      // An open one has a live token for the job, and the superseded job's token is canceled if there is one.
      ensures !closed ==> phases[j].Pending? && tokens.Keys == old(tokens).Keys + {j} && !tokens[j]
      ensures !closed ==> forall k :: k in old(tokens) && k != j ==>
                tokens[k] == (old(tokens[k]) || old(phases)[j].superseded == Some(k))
    {
      RegisterKeepsInv(View(), j);
      if closed {
        phases := phases[j := CancelRead];
        return;
      }
      var superseded := phases[j].superseded;
      if superseded.Some? && superseded.value in tokens {
        tokens := tokens[superseded.value := true];
      }
      tokens := tokens[j := false];
      phases := phases[j := Pending];
    }

    method Shutdown()
      requires Valid()
      modifies this
      ensures Valid() && View() == DoShutdown(old(View()))
      ensures closed && tokens.Keys == old(tokens).Keys && View().db == old(View().db)
      ensures !old(closed) ==> forall k :: k in tokens ==> tokens[k]
    {
      ghost var before := View();
      CancelKeepsInv(before, 0);
      if closed { return; }
      closed := true;
      var remaining := tokens.Keys;
      while remaining != {}
        invariant remaining <= tokens.Keys == old(tokens).Keys
        invariant forall j :: j in tokens ==> tokens[j] == if j in remaining then old(tokens[j]) else true
        invariant View() == old(View()).(closed := true, tokens := tokens) && staged == old(staged)
        decreases remaining
      {
        var j :| j in remaining;
        tokens := tokens[j := true];
        remaining := remaining - {j};
      }
      assert tokens == map j | j in old(tokens) :: true;
      assert View() == DoShutdown(before);
    }

    method CancelRow(j: Id) returns (accepted: bool)
      requires Valid() && j in jobs && writer.None?
      modifies this
      ensures Valid() && View() == DoCancelRow(old(View()), j)
      ensures accepted <==> Active(old(jobs)[j].state) || old(jobs)[j].state.Canceled?
      ensures jobs == if accepted then old(jobs)[j := old(jobs)[j].(state := Canceled)] else old(jobs)
      ensures rows == old(rows) && heads == old(heads)
    {
      CancelKeepsInv(View(), j);
      accepted := jobs[j].state.Canceled? || Allowed(jobs[j].state, Canceled);
      if Allowed(jobs[j].state, Canceled) {
        jobs := jobs[j := jobs[j].(state := Canceled)];
      }
      assert !accepted || jobs == old(jobs)[j := old(jobs)[j].(state := Canceled)];
    }

    method Start(j: Id) returns (started: bool)
      requires Valid() && j in phases && phases[j].Pending? && writer.None?
      modifies this
      ensures Valid() && View() == DoStart(old(View()), j)
      ensures j in old(jobs) && (started <==> Active(old(jobs)[j].state))
      ensures started ==> jobs == old(jobs)[j := old(jobs)[j].(state := Running)] && phases[j].Working?
      ensures !started ==> jobs == old(jobs) && phases[j].Done? && (j in tokens ==> tokens[j])
      ensures rows == old(rows)
    {
      ghost var before := View();
      StartKeepsInv(before, j);
      assert ThreadInv(before, j);
      var state := jobs[j].state;
      started := state.Running? || Allowed(state, Running);
      if started {
        jobs := jobs[j := jobs[j].(state := Running)];
        phases := phases[j := Working];
      } else {
        if j in tokens { tokens := tokens[j := true]; }
        phases := phases[j := Done];
      }
      assert View() == DoStart(before, j);
    }

    /** `JobContext.report`. */
    method Report(j: Id, progress: real) returns (reported: Reported)
      requires Valid() && j in phases && phases[j].Working? && writer.None?
      modifies this
      ensures Valid() && View() == DoReport(old(View()), j, progress) && j in old(jobs)
      ensures reported.TokenIsCanceled? <==> j in old(tokens) && old(tokens)[j]
      ensures !reported.TokenIsCanceled? ==> (reported.OutOfRange? <==> !(0.0 <= progress < 1.0))
      ensures !reported.TokenIsCanceled? && !reported.OutOfRange? ==>
                (reported.Accepted? <==> old(jobs)[j].state == Running && old(jobs)[j].progress <= progress)
      ensures jobs == if reported.Accepted? then old(jobs)[j := old(jobs)[j].(progress := progress)] else old(jobs)
      ensures tokens == if reported.NoLongerRunning? && j in old(tokens) then old(tokens)[j := true] else old(tokens)
      ensures phases == old(phases) && rows == old(rows) && heads == old(heads)
    {
      ReportKeepsInv(View(), j, progress);
      assert ThreadInv(View(), j);
      if j in tokens && tokens[j] { return TokenIsCanceled; }
      if !(0.0 <= progress < 1.0) { return OutOfRange; }
      if !jobs[j].state.Running? || progress < jobs[j].progress {
        if j in tokens { tokens := tokens[j := true]; }
        return NoLongerRunning;
      }
      jobs := jobs[j := jobs[j].(progress := progress)];
      reported := Accepted;
    }

    method CancelToken(j: Id) returns (found: bool)
      requires Valid()
      modifies this
      ensures Valid() && View() == DoCancelToken(old(View()), j)
      ensures found <==> j in old(tokens)
      ensures tokens == if found then old(tokens)[j := true] else old(tokens)
      ensures View().db == old(View().db) && phases == old(phases)
    {
      CancelKeepsInv(View(), j);
      found := j in tokens;
      if found { tokens := tokens[j := true]; }
    }

    /** `check_canceled`, before the callback, inside it and after it: it lets a live job go on. */
    method CheckCanceled(j: Id) returns (canceled: bool)
      requires Valid() && j in phases && phases[j].Working?
      modifies this
      ensures Valid() && View() == DoCheckCanceled(old(View()), j)
      ensures canceled <==> j in tokens && tokens[j]
      ensures phases == if canceled then old(phases)[j := CancelRead] else old(phases)
      ensures View().db == old(View().db) && tokens == old(tokens)
    {
      CallbackKeepsInv(View(), j, WorkCanceled);
      canceled := j in tokens && tokens[j];
      if canceled { phases := phases[j := CancelRead]; }
    }

    method Return(j: Id, result: seq<Artifact>)
      requires Valid() && j in phases && phases[j].Working?
      modifies this
      ensures Valid() && View() == DoWorkReturns(old(View()), j, result)
      ensures phases == old(phases)[j := Returned(result)] && produced == old(produced)[j := result]
      ensures View().db == old(View().db) && tokens == old(tokens)
    {
      WorkReturnsKeepsInv(View(), j, result);
      assert ThreadInv(View(), j);
      phases, produced := phases[j := Returned(result)], produced[j := result];
    }

    /** `BEGIN IMMEDIATE`: from here on no one else writes. */
    method Begin(j: Id)
      requires Valid() && j in phases && phases[j].BlobsVerified? && writer.None?
      modifies this
      ensures Valid() && View() == DoBegin(old(View()), j)
      ensures writer == Some(j) && phases == old(phases)[j := TransactionOpened(old(phases)[j].result)]
      ensures View().db == old(View().db) && tokens == old(tokens)
    {
      BeginKeepsInv(View(), j);
      writer, phases := Some(j), phases[j := TransactionOpened(phases[j].result)];
    }

    method FinishPublication(j: Id)
      requires Valid() && j in phases && phases[j].DatabaseCommitted?
      modifies this
      ensures Valid() && View() == DoFinishPublication(old(View()), j)
      ensures phases == old(phases)[j := Done] && View().db == old(View().db) && tokens == old(tokens)
    {
      CallbackKeepsInv(View(), j, WorkCanceled);
      phases := phases[j := Done];
    }

    /** A future that the closing executor never started; its row stays queued for the next start-up. */
    method DropPending(j: Id)
      requires Valid() && closed && j in phases && phases[j].Pending?
      modifies this
      ensures Valid() && View() == DoDropPending(old(View()), j)
      ensures phases == old(phases)[j := Done] && View().db == old(View().db) && tokens == old(tokens)
    {
      CancelKeepsInv(View(), j);
      phases := phases[j := Done];
    }

    /** `_forget`: no token is left to cancel. */
    method Forget(j: Id)
      requires Valid() && j in phases && phases[j].Done?
      modifies this
      ensures Valid() && View() == DoForget(old(View()), j)
      ensures j !in phases && j !in tokens && View().db == old(View().db)
      ensures forall k :: k != j ==> (k in phases <==> k in old(phases)) && (k in tokens <==> k in old(tokens))
      ensures forall k :: k in phases ==> phases[k] == old(phases)[k]
      ensures forall k :: k in tokens ==> tokens[k] == old(tokens)[k]
    {
      ForgetKeepsInv(View(), j);
      assert ThreadInv(View(), j);
      phases, tokens := phases - {j}, tokens - {j};
    }

    /** The process ends and starts again: the committed tables are all there is. */
    method Die()
      requires Valid()
      modifies this
      ensures Valid() && View() == DoProcessDeath(old(View()))
      ensures View().db == old(View().db) && writer.None? && staged == []
      ensures phases == map[] && tokens == map[] && !closed
    {
      ReconcileKeepsInv(View());
      writer, staged, phases, tokens, closed := None, [], map[], map[], false;
    }

    /** Publishing a revision: from here on it refuses artifact rows. */
    method SealRevision(published: Id)
      requires Valid() && writer.None?
      modifies this
      ensures Valid() && sealed == old(sealed) + {published}
      ensures jobs == old(jobs) && heads == old(heads) && rows == old(rows)
      ensures phases == old(phases) && tokens == old(tokens) && writer.None?
    {
      SealKeepsInv(View(), published);
      sealed := sealed + {published};
    }

    // The handlers of `_execute`, for what the callback lets out.
    method Raise(j: Id, raised: Raised)
      requires Valid() && j in phases && phases[j].Working?
      modifies this
      ensures Valid() && View() == DoWorkRaises(old(View()), j, raised) && View().db == old(View().db)
      ensures phases[j] == if raised == WorkCanceled then CancelRead else if raised == Crash then FailRead else Done
      ensures tokens == if raised == InvalidTransition && j in old(tokens) then old(tokens)[j := true] else old(tokens)
    {
      CallbackKeepsInv(View(), j, raised);
      assert ThreadInv(View(), j);
      if raised == InvalidTransition && j in tokens { tokens := tokens[j := true]; }
      phases := phases[j := if raised == WorkCanceled then CancelRead else if raised == Crash then FailRead else Done];
    }

    /** The first half of `_cancel_persisted` and of `_fail_if_active`: whether the row is worth a write. */
    method ReadRow(j: Id) returns (goesOn: bool)
      requires Valid() && j in phases && (phases[j].CancelRead? || phases[j].FailRead?)
      modifies this
      ensures Valid() && View() == DoReadRow(old(View()), j) && View().db == old(View().db) && j in jobs
      ensures goesOn <==>
                jobs[j].state in {Queued, Running} || (old(phases)[j].CancelRead? && jobs[j].state == Canceled)
      ensures phases == old(phases)[
                j := if !goesOn then Done else if old(phases)[j].CancelRead? then CancelWrite else FailWrite]
    {
      ReadRowKeepsInv(View(), j);
      assert ThreadInv(View(), j);
      var state := jobs[j].state;
      if phases[j].CancelRead? {
        goesOn := state in {Queued, Running, Canceled};
        phases := phases[j := if goesOn then CancelWrite else Done];
      } else {
        goesOn := state in {Queued, Running};
        phases := phases[j := if goesOn then FailWrite else Done];
      }
    }

    /** The second half: `cancel` or `fail`, refused for a job that has ended in between. */
    method WriteRow(j: Id) returns (written: bool)
      requires Valid() && j in phases && (phases[j].CancelWrite? || phases[j].FailWrite?) && writer.None?
      modifies this
      ensures Valid() && View() == DoWriteRow(old(View()), j) && j in old(jobs)
      ensures written <==> old(jobs)[j].state in {Queued, Running}
      ensures written ==>
                jobs == old(jobs)[j := old(jobs)[j].(state := if old(phases)[j].CancelWrite? then Canceled else Failed)]
      ensures !written ==> jobs == old(jobs)
      ensures phases == old(phases)[j := Done] && tokens == old(tokens) && rows == old(rows) && heads == old(heads)
    {
      WriteRowKeepsInv(View(), j);
      assert ThreadInv(View(), j);
      var target := if phases[j].CancelWrite? then Canceled else Failed;
      written := Allowed(jobs[j].state, target);
      if written { jobs := jobs[j := jobs[j].(state := target)]; }
      phases := phases[j := Done];
    }

    method VerifyBlobs(j: Id, intact: bool) returns (verified: bool)
      requires Valid() && j in phases && phases[j].Returned?
      modifies this
      ensures Valid() && View() == DoVerifyBlobs(old(View()), j, intact)
      ensures verified <==>
                && !TokenCanceled(old(View()), j)
                && intact
                && forall a :: a in old(phases)[j].result ==> WellFormed(a)
      ensures verified <==> phases[j].BlobsVerified?
      ensures TokenCanceled(old(View()), j) ==> phases[j].CancelRead?
      ensures View().db == old(View().db)
    {
      ghost var before := View();
      VerifyBlobsKeepsInv(before, j, intact);
      var result := phases[j].result;
      if j in tokens && tokens[j] {
        phases := phases[j := CancelRead];
        return false;
      }
      verified := intact;
      for i := 0 to |result|
        invariant verified <==> intact && forall k :: 0 <= k < i ==> WellFormed(result[k])
      {
        if !WellFormed(result[i]) { verified := false; }
      }
      assert (forall k :: 0 <= k < |result| ==> WellFormed(result[k])) <==> forall a :: a in result ==> WellFormed(a);
      phases := phases[j := if verified then BlobsVerified(result) else FailRead];
      assert View() == DoVerifyBlobs(before, j, intact);
    }

    /** The body of the publication transaction up to its third checkpoint. */
    method WriteRows(j: Id) returns (written: bool)
      requires Valid() && j in phases && phases[j].TransactionOpened?
      modifies this
      ensures Valid() && View() == DoWriteRows(old(View()), j)
      ensures View().db == old(View().db)
      // Rows are staged exactly for a running job at the head of its key, and when the table takes them all.
      ensures written <==>
                && Publishable(old(View().db), j)
                && Insertable(old(rows), sealed, RowsFor(j, jobs[j].revision, old(phases)[j].result))
      ensures written ==> writer == Some(j) && phases[j] == RowsWritten(old(phases)[j].result)
      ensures written ==> |staged| == |old(phases)[j].result|
      ensures written ==> forall i :: 0 <= i < |staged| ==>
                staged[i] == Row(j, jobs[j].revision, old(phases)[j].result[i])
      // Without them the transaction ends empty: as a failure only when the table refuses a row.
      ensures !written ==> writer.None? && staged == []
      ensures !written ==> phases[j] == if Publishable(old(View().db), j) then FailRead else Done
    {
      ghost var before := View();
      WriteKeepsInv(before, j);
      assert ThreadInv(before, j);
      var result := phases[j].result;
      var job := jobs[j];
      var slot := (job.project, if job.key.Some? then job.key.value else 0);
      if !job.state.Running? || (job.key.Some? && (slot !in heads || heads[slot] != Head(j, job.generation))) {
        writer, phases := None, phases[j := Done];
        return false;
      }
      var inserted := RowsFor(j, job.revision, result);
      written := InsertRows(rows, sealed, inserted);
      if written {
        staged, phases := inserted, phases[j := RowsWritten(result)];
      } else {
        writer, phases := None, phases[j := FailRead];
      }
      assert View() == DoWriteRows(before, j);
    }

    method Commit(j: Id) returns (published: bool)
      requires Valid() && j in phases && phases[j].RowsWritten?
      modifies this
      ensures Valid() && View() == DoCommit(old(View()), j)
      // The conditional update never misses, and the job owns exactly what its callback returned.
      ensures published && Published(old(View()), View(), j, old(phases)[j].result)
      ensures rows == old(rows) + old(staged)
    {
      ghost var before := View();
      CommitMeans(before, j);
      assert staged == RowsFor(j, jobs[j].revision, phases[j].result);
      rows, staged, writer := rows + staged, [], None;
      published := jobs[j].state.Running?;
      if published {
        jobs := jobs[j := jobs[j].(state := Succeeded, progress := 1.0)];
      }
      phases := phases[j := DatabaseCommitted];
      assert View().db.rows == DoCommit(before, j).db.rows;
      assert View().db.jobs == DoCommit(before, j).db.jobs;
      assert View().phases == DoCommit(before, j).phases;
    }

    method RaiseAtCheckpoint(j: Id)
      requires Valid() && j in phases
      requires phases[j].BlobsVerified? || InTransaction(phases[j]) || phases[j].DatabaseCommitted?
      modifies this
      ensures Valid() && View() == DoRaiseAtCheckpoint(old(View()), j)
      ensures View().db == old(View().db) && phases[j].FailRead?
      ensures old(InTransaction(phases[j])) ==> writer.None? && staged == []
    {
      ghost var before := View();
      RaiseKeepsInv(before, j);
      assert ThreadInv(before, j);
      if phases[j].TransactionOpened? || phases[j].RowsWritten? {
        staged, writer := [], None;
      }
      phases := phases[j := FailRead];
      assert View() == DoRaiseAtCheckpoint(before, j);
    }

    /** `reconcile`: the whole recovery commits, or a missing retry action rolls it back. */
    method Reconcile() returns (outcome: Outcome)
      requires Valid()
      modifies this
      ensures Valid() && View() == DoReconcile(old(View()))
      ensures outcome.Locked? <==> old(writer).Some?
      ensures outcome.Recovered? <==> old(writer).None? && Recoverable(old(jobs))
      // After a recovery no job is active; the evidence lists each that was, and nothing else changed.
      ensures outcome.Recovered? ==> forall j :: j in jobs ==> !Active(jobs[j].state)
      ensures outcome.Recovered? ==>
        forall j, before :: Evidence(j, before) in outcome.evidence <==> (
          j in old(jobs) && Active(old(jobs)[j].state) && before == old(jobs)[j].state)
      ensures forall j :: j in old(jobs) && !Active(old(jobs)[j].state) ==> j in jobs && jobs[j] == old(jobs)[j]
      ensures rows == old(rows) && heads == old(heads)
      ensures outcome.NoRetryAction? ==> View() == old(View()) && Unretryable(jobs, outcome.jobId)
    {
      ReconcileKeepsInv(View());
      if writer.Some? { return Locked; }
      var recovered;
      outcome, recovered := FailInterrupted(jobs);
      jobs := recovered;
    }
  }
}
