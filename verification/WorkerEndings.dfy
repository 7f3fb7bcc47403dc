/**
How the end of a callback reaches the row of its job: `_cancel_persisted` and `_fail_if_active`, which
read the row in one step and write it in another (src/image23mf/workers.py:248-265, 342-363).
*/
module WorkerEndings {
  import opened Wrappers
  import opened Identifiers
  import opened JobContract
  import opened Workers
  import opened WorkerSafety

  /** The row of one job gets another state; nothing else in the tables changes. */
  ghost predicate RowEndsAs(before: Database, after: Database, j: Id, state: JobState) {
    && j in before.jobs && j in after.jobs
    && after.jobs[j].state == state && after.jobs[j] == before.jobs[j].(state := state)
    && (forall k :: k in before.jobs && k != j ==> k in after.jobs && after.jobs[k] == before.jobs[k])
    && (forall k :: k in after.jobs ==> k in before.jobs)
    && after.heads == before.heads && after.rows == before.rows && after.sealed == before.sealed
  }

  // ----- the single steps

  /** What lets a callback's end be recorded, and as what: nothing at all is written after a forbidden transition. */
  lemma RaisingMeans(s: State, j: Id, raised: Raised)
    requires At(s, j) == Working
    ensures var t := Apply(s, WorkRaises(j, raised));
            && t.db == s.db && t.writer == s.writer
            && At(t, j) == (if raised == WorkCanceled then CancelRead else if raised == Crash then FailRead else Done)
            && (raised == InvalidTransition ==> j in s.tokens ==> j in t.tokens && t.tokens[j])
            && (raised != InvalidTransition ==> t.tokens == s.tokens)
  {
  }

  /** A cancellation goes on to the write unless the job has ended otherwise, a failure only for an active job. */
  lemma ReadingMeans(s: State, j: Id)
    requires j in s.db.jobs && (At(s, j) == CancelRead || At(s, j) == FailRead)
    ensures var t, state := Apply(s, ReadRow(j)), s.db.jobs[j].state;
            && t.db == s.db && t.writer == s.writer && t.tokens == s.tokens
            && (At(s, j) == CancelRead ==>
                  At(t, j) == if state == Queued || state == Running || state == Canceled then CancelWrite else Done)
            && (At(s, j) == FailRead ==>
                  At(t, j) == if state == Queued || state == Running then FailWrite else Done)
  {
  }

  /** The write ends an active job as canceled or as failed; a job that has ended meanwhile stays as it is. */
  lemma WritingMeans(s: State, j: Id)
    requires j in s.db.jobs && s.writer.None? && (At(s, j) == CancelWrite || At(s, j) == FailWrite)
    ensures var t, state := Apply(s, WriteRow(j)), s.db.jobs[j].state;
            && At(t, j) == Done && t.writer.None? && t.tokens == s.tokens
            && (state == Queued || state == Running ==>
                  RowEndsAs(s.db, t.db, j, if At(s, j) == CancelWrite then Canceled else Failed))
            && (!(state == Queued || state == Running) ==> t.db == s.db)
  {
  }

  /** While another thread writes, the write waits. */
  lemma WritingWaits(s: State, j: Id)
    requires s.writer.Some?
    ensures Apply(s, WriteRow(j)) == s
  {
  }

  // ----- the steps of others in between

  predicate Ending(phase: Phase) {
    phase.CancelRead? || phase.CancelWrite? || phase.FailRead? || phase.FailWrite? || phase.Done?
  }

  /** Anything but this thread's own two steps and the end of the process. */
  predicate OthersOnly(actions: seq<Action>, j: Id) {
    forall i {:trigger actions[i]} :: 0 <= i < |actions| ==>
      actions[i] != ReadRow(j) && actions[i] != WriteRow(j) && !actions[i].ProcessDeath?
  }

  lemma TransactionStepsLeaveTheThread(s: State, a: Action, j: Id)
    requires Ending(At(s, j)) && OfTransaction(a)
    ensures At(Apply(s, a), j) == At(s, j)
  {
  }

  lemma CallbackStepsLeaveTheThread(s: State, a: Action, j: Id)
    requires Ending(At(s, j)) && OfCallback(a)
    ensures At(Apply(s, a), j) == At(s, j)
  {
  }

  lemma OtherStepsLeaveTheThread(s: State, a: Action, j: Id)
    requires j in s.db.jobs && Ending(At(s, j)) && a != ReadRow(j) && a != WriteRow(j) && !a.ProcessDeath?
    requires !OfTransaction(a) && !OfCallback(a)
    ensures At(Apply(s, a), j) == At(s, j)
  {
  }

  lemma OthersLeaveTheThread(s: State, a: Action, j: Id)
    requires j in s.db.jobs && Ending(At(s, j)) && a != ReadRow(j) && a != WriteRow(j) && !a.ProcessDeath?
    ensures At(Apply(s, a), j) == At(s, j)
  {
    if OfTransaction(a) {
      TransactionStepsLeaveTheThread(s, a, j);
    } else if OfCallback(a) {
      CallbackStepsLeaveTheThread(s, a, j);
    } else {
      OtherStepsLeaveTheThread(s, a, j);
    }
  }

  lemma {:induction false} OthersLeaveTheEnding(s: State, actions: seq<Action>, j: Id)
    requires Inv(s) && j in s.db.jobs && Ending(At(s, j)) && OthersOnly(actions, j)
    ensures Inv(Run(s, actions)) && j in Run(s, actions).db.jobs && At(Run(s, actions), j) == At(s, j)
    ensures !Active(s.db.jobs[j].state) ==> Run(s, actions).db.jobs[j] == s.db.jobs[j]
    decreases |actions|
  {
    if actions != [] {
      StepKeepsInv(s, actions[0]);
      StepEvolves(s, actions[0]);
      OthersLeaveTheThread(s, actions[0], j);
      OthersLeaveTheEnding(Apply(s, actions[0]), actions[1..], j);
    }
  }

  // ----- the whole way

  /** The states that the row of a job goes through from its callback's end to the end of its thread. */
  ghost function AfterRead(s: State, j: Id, raised: Raised, before: seq<Action>): State {
    Apply(Run(Apply(s, WorkRaises(j, raised)), before), ReadRow(j))
  }

  // Before the read: the thread waits to read, as its callback ended.
  lemma ReadIsReached(s: State, j: Id, raised: Raised, before: seq<Action>)
    requires Inv(s) && j in s.db.jobs && At(s, j) == Working && raised != InvalidTransition && OthersOnly(before, j)
    ensures var read := Run(Apply(s, WorkRaises(j, raised)), before);
            Inv(read) && j in read.db.jobs && At(read, j) == if raised == Crash then FailRead else CancelRead
  {
    StepKeepsInv(s, WorkRaises(j, raised));
    RaisingMeans(s, j, raised);
    OthersLeaveTheEnding(Apply(s, WorkRaises(j, raised)), before, j);
  }

  // Between the steps: the thread waits to write, or has found nothing to do.
  lemma WriteIsReached(s: State, j: Id, between: seq<Action>)
    requires Inv(s) && j in s.db.jobs && (At(s, j) == CancelRead || At(s, j) == FailRead) && OthersOnly(between, j)
    ensures var last := Run(Apply(s, ReadRow(j)), between);
            && j in last.db.jobs
            && (At(last, j) == Done ==> !Active(last.db.jobs[j].state))
            && (At(last, j) != Done ==> At(last, j) == if At(s, j) == FailRead then FailWrite else CancelWrite)
  {
    ReadingMeans(s, j);
    StepKeepsInv(s, ReadRow(j));
    OthersLeaveTheEnding(Apply(s, ReadRow(j)), between, j);
  }

  lemma NothingIsLeftToWrite(s: State, j: Id)
    requires At(s, j) == Done
    ensures Apply(s, WriteRow(j)) == s
  {
  }

  /**
  Whatever other threads do before and between its two steps: a crashed callback leaves its job failed
  and a canceled one leaves it canceled, unless the job has ended otherwise by then, and that stays.
  */
  lemma EndIsRecorded(s: State, j: Id, raised: Raised, before: seq<Action>, between: seq<Action>)
    requires Inv(s) && j in s.db.jobs && At(s, j) == Working && raised != InvalidTransition
    requires OthersOnly(before, j) && OthersOnly(between, j)
    requires Run(AfterRead(s, j, raised, before), between).writer.None?
    ensures var last := Run(AfterRead(s, j, raised, before), between);
            var t := Apply(last, WriteRow(j));
            && At(t, j) == Done && j in last.db.jobs
            && (Active(last.db.jobs[j].state) ==>
                  RowEndsAs(last.db, t.db, j, if raised == Crash then Failed else Canceled))
            && (!Active(last.db.jobs[j].state) ==> t.db == last.db)
  {
    ReadIsReached(s, j, raised, before);
    WriteIsReached(Run(Apply(s, WorkRaises(j, raised)), before), j, between);
    var last := Run(AfterRead(s, j, raised, before), between);
    if At(last, j) == Done {
      NothingIsLeftToWrite(last, j);
    } else {
      WritingMeans(last, j);
    }
  }

  /** Left alone, the job ends exactly as its callback did, and nothing else in the tables changes. */
  lemma LeftAloneItEnds(s: State, j: Id, raised: Raised)
    requires Inv(s) && s.writer.None? && j in s.db.jobs && Active(s.db.jobs[j].state)
    requires At(s, j) == Working && raised != InvalidTransition
    ensures RowEndsAs(s.db, Run(s, [WorkRaises(j, raised), ReadRow(j), WriteRow(j)]).db, j,
                      if raised == Crash then Failed else Canceled)
  {
    RunThree(s, WorkRaises(j, raised), ReadRow(j), WriteRow(j));
    RaisingMeans(s, j, raised);
    ReadingMeans(Apply(s, WorkRaises(j, raised)), j);
    WritingMeans(Apply(Apply(s, WorkRaises(j, raised)), ReadRow(j)), j);
  }

  // ----- and the way of a callback that returns

  /** The result goes through every check, with the writer lock free. */
  ghost predicate WillPublish(s: State, j: Id, result: seq<Artifact>) {
    && j in s.db.jobs && s.writer.None? && !TokenCanceled(s, j)
    && (forall a :: a in result ==> WellFormed(a))
    && Publishable(s.db, j) && Insertable(s.db.rows, s.db.sealed, RowsFor(j, s.db.jobs[j].revision, result))
  }

  /** The row ends succeeded and the artifact rows follow those there were; nothing else in the tables changes. */
  ghost predicate SucceedsWith(before: Database, after: Database, j: Id, result: seq<Artifact>) {
    && j in before.jobs
    && after.jobs == before.jobs[j := before.jobs[j].(state := Succeeded, progress := 1.0)]
    && after.heads == before.heads && after.sealed == before.sealed
    && before.rows <= after.rows && |after.rows| == |before.rows| + |result|
    && forall i :: 0 <= i < |result| ==> after.rows[|before.rows| + i] == Row(j, before.jobs[j].revision, result[i])
  }

  lemma ReturnReachesTheCheckpoint(s: State, j: Id, result: seq<Artifact>)
    requires At(s, j) == Working && WillPublish(s, j, result)
    ensures var t := Apply(Apply(s, WorkReturns(j, result)), VerifyBlobs(j, true));
            At(t, j) == BlobsVerified(result) && t.writer.None? && t.db == s.db
  {
    var returned := Apply(s, WorkReturns(j, result));
    assert At(returned, j) == Returned(result) && !TokenCanceled(returned, j) && returned.db == s.db;
  }

  lemma ReturnReachesTheTransaction(s: State, j: Id, result: seq<Artifact>)
    requires At(s, j) == Working && WillPublish(s, j, result)
    ensures var t := Apply(Apply(Apply(s, WorkReturns(j, result)), VerifyBlobs(j, true)), Begin(j));
            At(t, j) == TransactionOpened(result) && t.writer == Some(j) && t.db == s.db
  {
    ReturnReachesTheCheckpoint(s, j, result);
    BeginOpens(Apply(Apply(s, WorkReturns(j, result)), VerifyBlobs(j, true)), j, result);
  }

  lemma BeginOpens(s: State, j: Id, result: seq<Artifact>)
    requires At(s, j) == BlobsVerified(result) && s.writer.None?
    ensures var t := Apply(s, Begin(j)); At(t, j) == TransactionOpened(result) && t.writer == Some(j) && t.db == s.db
  {
  }

  lemma TransactionSucceeds(s: State, j: Id, result: seq<Artifact>)
    requires At(s, j) == TransactionOpened(result) && s.writer == Some(j) && Publishable(s.db, j)
    requires Insertable(s.db.rows, s.db.sealed, RowsFor(j, s.db.jobs[j].revision, result))
    ensures var t := Apply(Apply(Apply(s, WriteRows(j)), Commit(j)), FinishPublication(j));
            At(t, j) == Done && t.writer.None? && SucceedsWith(s.db, t.db, j, result)
  {
    var written := Apply(s, WriteRows(j));
    assert written == Go(s, j, RowsWritten(result));
    WrittenRowsSucceed(written, j);
  }

  lemma WrittenRowsSucceed(s: State, j: Id)
    requires j in s.phases && s.phases[j].RowsWritten? && Publishable(s.db, j)
    ensures var t := Apply(Apply(s, Commit(j)), FinishPublication(j));
            At(t, j) == Done && t.writer.None? && SucceedsWith(s.db, t.db, j, s.phases[j].result)
  {
    CommitSucceeds(s, j);
  }

  /** Left alone, a job whose callback returns ends succeeded, with one row for each artifact of the result. */
  lemma LeftAloneItPublishes(s: State, j: Id, result: seq<Artifact>)
    requires At(s, j) == Working && WillPublish(s, j, result)
    ensures var begun := Run(s, [WorkReturns(j, result), VerifyBlobs(j, true), Begin(j)]);
            var t := Run(begun, [WriteRows(j), Commit(j), FinishPublication(j)]);
            At(t, j) == Done && t.writer.None? && SucceedsWith(s.db, t.db, j, result)
  {
    RunThree(s, WorkReturns(j, result), VerifyBlobs(j, true), Begin(j));
    ReturnReachesTheTransaction(s, j, result);
    PublishesFrom(Run(s, [WorkReturns(j, result), VerifyBlobs(j, true), Begin(j)]), j, result);
  }

  lemma PublishesFrom(begun: State, j: Id, result: seq<Artifact>)
    requires At(begun, j) == TransactionOpened(result) && begun.writer == Some(j) && Publishable(begun.db, j)
    requires Insertable(begun.db.rows, begun.db.sealed, RowsFor(j, begun.db.jobs[j].revision, result))
    ensures var t := Run(begun, [WriteRows(j), Commit(j), FinishPublication(j)]);
            At(t, j) == Done && t.writer.None? && SucceedsWith(begun.db, t.db, j, result)
  {
    RunThree(begun, WriteRows(j), Commit(j), FinishPublication(j));
    TransactionSucceeds(begun, j, result);
  }

  /** A canceled token stops the callback at its next check, and the job ends canceled. */
  lemma CanceledTokenEndsTheJob(s: State, j: Id)
    requires Inv(s) && s.writer.None? && j in s.db.jobs && Active(s.db.jobs[j].state)
    requires At(s, j) == Working && j in s.tokens
    ensures RowEndsAs(s.db, Run(Apply(s, CancelToken(j)), [CheckCanceled(j), ReadRow(j), WriteRow(j)]).db, j, Canceled)
  {
    var stopped := Apply(s, CancelToken(j));
    RunThree(stopped, CheckCanceled(j), ReadRow(j), WriteRow(j));
    assert At(Apply(stopped, CheckCanceled(j)), j) == CancelRead && Apply(stopped, CheckCanceled(j)).db == s.db;
    ReadingMeans(Apply(stopped, CheckCanceled(j)), j);
    WritingMeans(Apply(Apply(stopped, CheckCanceled(j)), ReadRow(j)), j);
  }

  lemma RunThree(s: State, a: Action, b: Action, c: Action)
    ensures Run(s, [a, b, c]) == Apply(Apply(Apply(s, a), b), c)
  {
    assert [a, b, c][1..] == [b, c] && [b, c][1..] == [c] && [c][1..] == [];
    assert Run(Apply(Apply(s, a), b), [c]) == Apply(Apply(Apply(s, a), b), c);
    assert Run(Apply(s, a), [b, c]) == Run(Apply(Apply(s, a), b), [c]);
  }
}
