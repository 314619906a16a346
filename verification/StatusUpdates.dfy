/** What a successful status update says about the attempt (internal/store/store.go:363-415). */
module StatusUpdates {
  import opened Domain
  import opened Fleet
  import opened Jobs
  import opened Capacity
  import opened Ledger
  import Recount

  /** The job's current attempt shows the status. */
  ghost predicate AttemptShows(db: Db, j: string, status: JobStatus) {
    && j in db.jobs && db.jobs[j].attempt.Some? && db.jobs[j].attempt.value in db.attempts
    && db.attempts[db.jobs[j].attempt.value].status == status
  }

  ghost predicate JobShows(db: Db, j: string, status: JobStatus) {
    j in db.jobs && db.jobs[j].status == status && db.jobs[j].observed == status
  }

  // ---------------------------------------------------------------- the early return

  /** What the others have done when the loop returns early, because the job shows the status
      already; None if it does not return that way. */
  ghost function EarlyReturn(db: Db, j: string, status: JobStatus, rounds: seq<Round>): Option<seq<Op>>
    decreases |rounds|
  {
    if rounds == [] then None
    else
      var seen := Run(db, rounds[0].before);
      if j !in seen.jobs then None
      else
        var job := seen.jobs[j];
        if job.status == status && job.observed == status then Some(rounds[0].before)
        else if !CanTransition(job.status, status) then None
        else
          var now := Run(seen, rounds[0].between);
          if CommitStatus(now, j, job.status, CurrentAttempt(job), status).1 != Retry then None
          else
            var later := EarlyReturn(now, j, status, rounds[1..]);
            if later.Some? then Some(rounds[0].before + rounds[0].between + later.value) else None
  }

  /** An early return changes nothing, and finds the job showing the status. */
  lemma {:induction false} EarlyReturnIs(db: Db, j: string, status: JobStatus, rounds: seq<Round>)
    requires EarlyReturn(db, j, status, rounds).Some?
    ensures UpdateLoop(db, j, status, rounds) == (Run(db, EarlyReturn(db, j, status, rounds).value), Done)
    ensures JobShows(Run(db, EarlyReturn(db, j, status, rounds).value), j, status)
    decreases |rounds|
  {
    hide CommitStatus, CanTransition, Run;
    var first := rounds[0];
    var seen := Run(db, first.before);
    var job := seen.jobs[j];
    if !(job.status == status && job.observed == status) {
      var now := Run(seen, first.between);
      var later := EarlyReturn(now, j, status, rounds[1..]);
      EarlyReturnIs(now, j, status, rounds[1..]);
      RunAppend(db, first.before, first.between);
      RunAppend(db, first.before + first.between, later.value);
    }
  }

  /** Success without an early return is a commit, and the attempt shows the status. */
  lemma {:induction false} CommitShows(db: Db, j: string, status: JobStatus, rounds: seq<Round>)
    requires UpdateLoop(db, j, status, rounds).1 == Done && EarlyReturn(db, j, status, rounds).None?
    ensures AttemptShows(UpdateLoop(db, j, status, rounds).0, j, status)
    decreases |rounds|
  {
    hide CanTransition, Run, RevokedToken, IsTerminal;
    var seen := Run(db, rounds[0].before);
    var job := seen.jobs[j];
    var now := Run(seen, rounds[0].between);
    if CommitStatus(now, j, job.status, CurrentAttempt(job), status).1 == Retry {
      RetryChangesNothing(now, j, job.status, CurrentAttempt(job), status);
      hide CommitStatus;
      CommitShows(now, j, status, rounds[1..]);
    }
  }

  /** After a success the attempt shows the status if and only if the loop did not return early,
      or the attempt row showed it already when it did. */
  lemma {:induction false} SuccessShowsIff(db: Db, j: string, status: JobStatus, rounds: seq<Round>)
    requires UpdateLoop(db, j, status, rounds).1 == Done
    ensures var early := EarlyReturn(db, j, status, rounds);
            AttemptShows(UpdateLoop(db, j, status, rounds).0, j, status)
            <==> early.None? || AttemptShows(Run(db, early.value), j, status)
  {
    hide UpdateLoop, EarlyReturn, Run, AttemptShows;
    if EarlyReturn(db, j, status, rounds).Some? {
      EarlyReturnIs(db, j, status, rounds);
    } else {
      CommitShows(db, j, status, rounds);
    }
  }

  // ---------------------------------------------------------------- which rows fail

  /** Job rows and attempt rows in step: once a job shows a status, its attempt shows the same,
      unless it was set to STARTING by an acceptance, or the job was deleted. */
  ghost predicate InStep(db: Db, j: string) {
    j in db.jobs ==>
      && (db.jobs[j].observed == Deleting ==> db.jobs[j].status == Deleting || db.jobs[j].status == Deleted)
      && (db.jobs[j].attempt.Some? && db.jobs[j].status == db.jobs[j].observed && db.jobs[j].status != Deleted ==>
            db.jobs[j].attempt.value in db.attempts
            && (db.attempts[db.jobs[j].attempt.value].status == db.jobs[j].status
                || db.attempts[db.jobs[j].attempt.value].status == Starting))
  }

  /** The step is an acceptance that sets attempt `x` to STARTING. */
  ghost predicate Accepts(db: Db, op: Op, x: string) {
    && op.OpAccept? && op.assignment in db.assignments && db.assignments[op.assignment].node == op.node
    && x in db.attempts && db.attempts[x].assignment == op.assignment
  }

  /** The step writes attempt `x` in another way: together with a job row. */
  ghost predicate Writes(db: Db, op: Op, x: string) {
    match op
    case OpReserve(_, _, attempt, _, _, _) => attempt == x && Step(db, op).1 == Done
    case OpCommit(_, _, attempt, _) => attempt == x && Step(db, op).1 == Done
    case OpStop(j) =>
      j in db.jobs && db.jobs[j].attempt == Some(x) && x in db.attempts && db.attempts[x].job == j
      && Step(db, op).1 == Done && db.jobs[j].status != Queued
    case OpMarkStale(_, lostBefore) => exists j :: LosesJob(db, j, lostBefore) && db.jobs[j].attempt == Some(x)
    case _ => false
  }

  /** Attempt rows are written in these two ways only. */
  lemma AttemptFrame(db: Db, op: Op, x: string)
    requires Inv(db)
    ensures Accepts(db, op, x) ==> x in Step(db, op).0.attempts && Step(db, op).0.attempts[x].status == Starting
    ensures x in Step(db, op).0.attempts && !Accepts(db, op, x) && !Writes(db, op, x) ==>
              x in db.attempts && Step(db, op).0.attempts[x].status == db.attempts[x].status
    ensures x in db.attempts ==> x in Step(db, op).0.attempts
  {
    hide Inv, MaxOf, Numbers, IsHash, RevokedToken, IsTerminal, CanTransition, Stale, SoundReport, DistinctKeys;
  }

  /** What the other writes leave in the row. */
  lemma WriteLeaves(db: Db, op: Op, x: string)
    requires Inv(db) && Writes(db, op, x)
    ensures x in Step(db, op).0.attempts
    ensures Step(db, op).0.attempts[x].status
            == match op
               case OpReserve(_, _, _, _, _, _) => Assigned
               case OpCommit(_, _, _, to) => to
               case OpStop(_) => Stopping
               case _ => Lost
    ensures op.OpCommit? ==> op.j in Step(db, op).0.jobs && Step(db, op).0.jobs[op.j].status == op.to
                             && Step(db, op).0.attempts[x].job == op.j
  {
    hide MaxOf, Numbers, IsHash, RevokedToken, IsTerminal, CanTransition, Stale, TokensOk, TokensUnique, NumbersOk, RowsOk, OrderOk,
         NodesOk, DeletingOk;
    if op.OpMarkStale? {
      var j :| LosesJob(db, j, op.lostBefore) && db.jobs[j].attempt == Some(x);
      assert JobOk(db, j, db.jobs[j]);
    }
  }

  /** How a row changes that is not written together with an attempt. */
  ghost predicate RowFollows(job: Job, job': Job) {
    || (job'.status == job.status && job'.observed == job.observed)
    || (job'.status == Deleting && job'.observed == job.observed && job.status != Deleting && job.status != Deleted)
    || job'.status == Deleted
  }

  /** How the row of a job that has attempt `x` changes when attempt `x` is not written: not at
      all, or it is put to deletion, or it is deleted. */
  lemma JobFrame(db: Db, op: Op, j: string, x: string)
    requires Inv(db) && !Writes(db, op, x)
    requires var db' := Step(db, op).0; j in db'.jobs && db'.jobs[j].attempt == Some(x)
    ensures j in db.jobs && db.jobs[j].attempt == Some(x)
    ensures RowFollows(db.jobs[j], Step(db, op).0.jobs[j])
  {
    hide *;
    if j in db.jobs {
      RowHasAttempt(db, j);
    }
    if op.OpMarkStale? || op.OpReserve? || op.OpCommit? {
      WrittenTogether(db, op, j, x);
    } else {
      WrittenAlone(db, op, j, x);
    }
  }

  lemma WrittenAlone(db: Db, op: Op, j: string, x: string)
    requires !Writes(db, op, x) && !op.OpMarkStale? && !op.OpReserve? && !op.OpCommit?
    requires j in db.jobs ==> (db.jobs[j].attempt == Some(x) ==> x in db.attempts && db.attempts[x].job == j)
                              && (db.jobs[j].status == Queued ==> db.jobs[j].attempt.None?)
    requires var db' := Step(db, op).0; j in db'.jobs && db'.jobs[j].attempt == Some(x)
    ensures j in db.jobs && db.jobs[j].attempt == Some(x)
    ensures RowFollows(db.jobs[j], Step(db, op).0.jobs[j])
  {
    hide MaxOf, Numbers, IsHash, RevokedToken, CanTransition, Stale, SoundReport, DistinctKeys, Reserve, CommitStatus, MarkStaleNodes;
  }

  lemma RowHasAttempt(db: Db, j: string)
    requires Inv(db) && j in db.jobs
    ensures db.jobs[j].attempt.Some? ==> db.jobs[j].attempt.value in db.attempts && db.attempts[db.jobs[j].attempt.value].job == j
    ensures db.jobs[j].status == Queued ==> db.jobs[j].attempt.None?
  {
    hide TokensOk, TokensUnique, NumbersOk, RowsOk, OrderOk, NodesOk, DeletingOk;
    assert JobOk(db, j, db.jobs[j]);
  }

  /** These operations write a job row only together with the attempt it then has. */
  lemma WrittenTogether(db: Db, op: Op, j: string, x: string)
    requires !Writes(db, op, x) && (op.OpMarkStale? || op.OpReserve? || op.OpCommit?)
    requires var db' := Step(db, op).0; j in db'.jobs && db'.jobs[j].attempt == Some(x)
    ensures j in db.jobs && db.jobs[j].attempt == Some(x)
    ensures RowFollows(db.jobs[j], Step(db, op).0.jobs[j])
  {
    hide MaxOf, Numbers, IsHash, RevokedToken, CanTransition, Stale;
  }

  lemma StepKeepsInStep(db: Db, op: Op, j: string)
    requires Inv(db) && InStep(db, j)
    ensures InStep(Step(db, op).0, j)
  {
    var db' := Step(db, op).0;
    StepKeepsInv(db, op);
    ObservedDeleting(db, op, j);
    if j in db'.jobs && db'.jobs[j].attempt.Some? {
      var x := db'.jobs[j].attempt.value;
      AttemptThere(db', j);
      hide Inv, Step, Accepts;
      if Writes(db, op, x) {
        WriteLeaves(db, op, x);
        WriteShows(db, op, j, x);
      } else {
        AttemptFrame(db, op, x);
        JobFrame(db, op, j, x);
      }
    }
  }

  lemma AttemptThere(db: Db, j: string)
    requires Inv(db) && j in db.jobs && db.jobs[j].attempt.Some?
    ensures db.jobs[j].attempt.value in db.attempts && db.attempts[db.jobs[j].attempt.value].job == j
  {
    hide TokensOk, TokensUnique, NumbersOk, RowsOk, OrderOk, NodesOk, DeletingOk;
    assert JobOk(db, j, db.jobs[j]);
  }

  lemma ObservedDeleting(db: Db, op: Op, j: string)
    requires InStep(db, j)
    ensures var db' := Step(db, op).0;
            j in db'.jobs && db'.jobs[j].observed == Deleting ==> db'.jobs[j].status == Deleting || db'.jobs[j].status == Deleted
  {
    hide MaxOf, Numbers, IsHash, RevokedToken, CanTransition, Stale, SoundReport;
  }

  /** A write of attempt `x` leaves the job that has it with the same status. */
  lemma WriteShows(db: Db, op: Op, j: string, x: string)
    requires Inv(db) && Writes(db, op, x)
    requires var db' := Step(db, op).0; j in db'.jobs && db'.jobs[j].attempt == Some(x) && x in db'.attempts && db'.attempts[x].job == j
    ensures Step(db, op).0.jobs[j].status == Step(db, op).0.attempts[x].status
  {
    hide MaxOf, Numbers, IsHash, RevokedToken, IsTerminal, CanTransition, Stale, TokensOk, TokensUnique, NumbersOk, RowsOk, OrderOk,
         NodesOk, DeletingOk;
    if op.OpMarkStale? {
      var k :| LosesJob(db, k, op.lostBefore) && db.jobs[k].attempt == Some(x);
      assert JobOk(db, k, db.jobs[k]);
    }
  }

  lemma {:induction false} RunInStep(ops: seq<Op>, j: string)
    ensures Inv(Run(EMPTY, ops)) && InStep(Run(EMPTY, ops), j)
    decreases |ops|
  {
    EmptyInv();
    RunKeepsInv(EMPTY, ops);
    hide Inv, Step;
    if ops != [] {
      var before := ops[..|ops| - 1];
      RunInStep(before, j);
      StepKeepsInStep(Run(EMPTY, before), ops[|ops| - 1], j);
    }
  }

  // ---------------------------------------------------------------- history

  /** The last write of attempt `x` was an acceptance: it came after the write that brought the
      row in step with its job. */
  ghost predicate AcceptedLast(ops: seq<Op>, x: string) {
    exists k :: 0 <= k < |ops| && AcceptedAt(ops, x, k)
  }

  ghost predicate AcceptedAt(ops: seq<Op>, x: string, k: int)
    requires 0 <= k < |ops|
  {
    Accepts(Run(EMPTY, ops[..k]), ops[k], x) && NotWrittenSince(ops, x, k)
  }

  ghost predicate NotWrittenSince(ops: seq<Op>, x: string, k: int)
    requires 0 <= k < |ops|
  {
    forall i :: k < i < |ops| ==> !Writes(Run(EMPTY, ops[..i]), ops[i], x)
  }

  /** The row was last written by a commit of DELETED. */
  ghost predicate CommittedDeleted(ops: seq<Op>, x: string) {
    exists k :: 0 <= k < |ops| && DeletedAt(ops, x, k)
  }

  ghost predicate DeletedAt(ops: seq<Op>, x: string, k: int)
    requires 0 <= k < |ops|
  {
    && ops[k].OpCommit? && ops[k].to == Deleted && Writes(Run(EMPTY, ops[..k]), ops[k], x)
    && NotWrittenSince(ops, x, k)
    && forall i :: k < i < |ops| ==> !Accepts(Run(EMPTY, ops[..i]), ops[i], x)
  }

  lemma {:induction false} ReachableInv(ops: seq<Op>)
    ensures Inv(Run(EMPTY, ops))
  {
    EmptyInv();
    RunKeepsInv(EMPTY, ops);
  }

  lemma RunLast(ops: seq<Op>)
    requires ops != []
    ensures Run(EMPTY, ops) == Step(Run(EMPTY, ops[..|ops| - 1]), ops[|ops| - 1]).0
  {
  }

  lemma NotWrittenMore(ops: seq<Op>, op: Op, x: string, k: int)
    requires 0 <= k < |ops| && NotWrittenSince(ops, x, k) && !Writes(Run(EMPTY, ops), op, x)
    ensures NotWrittenSince(ops + [op], x, k)
  {
    hide Writes, Run;
    var all := ops + [op];
    forall i | k < i < |all| ensures !Writes(Run(EMPTY, all[..i]), all[i], x) {
      assert all[..i] == ops[..i];
      assert ops[..|ops|] == ops;
    }
  }

  lemma NotWrittenBefore(ops: seq<Op>, x: string, k: int)
    requires 0 <= k < |ops| - 1 && NotWrittenSince(ops, x, k)
    ensures NotWrittenSince(ops[..|ops| - 1], x, k) && !Writes(Run(EMPTY, ops[..|ops| - 1]), ops[|ops| - 1], x)
  {
    hide Writes, Run;
    var before := ops[..|ops| - 1];
    forall i | k < i < |before| ensures !Writes(Run(EMPTY, before[..i]), before[i], x) {
      assert before[..i] == ops[..i];
    }
  }

  /** An attempt whose last write was an acceptance is STARTING. */
  lemma {:induction false} AcceptedStarts(ops: seq<Op>, x: string, k: int)
    requires 0 <= k < |ops| && AcceptedAt(ops, x, k)
    ensures x in Run(EMPTY, ops).attempts && Run(EMPTY, ops).attempts[x].status == Starting
    decreases |ops|
  {
    hide Accepts, Writes, Run, Step, Inv;
    var before, last := ops[..|ops| - 1], ops[|ops| - 1];
    RunLast(ops);
    ReachableInv(before);
    if k < |ops| - 1 {
      NotWrittenBefore(ops, x, k);
      assert before[..k] == ops[..k];
      AcceptedStarts(before, x, k);
    }
    AttemptFrame(Run(EMPTY, before), last, x);
  }

  /** If a job shows a status but its attempt is STARTING instead, the attempt was accepted after
      it was last written with its job. */
  lemma {:induction false} StartingWasAccepted(ops: seq<Op>, j: string, x: string)
    requires var db := Run(EMPTY, ops);
             && j in db.jobs && db.jobs[j].attempt == Some(x) && db.jobs[j].status == db.jobs[j].observed
             && db.jobs[j].status != Deleted && db.jobs[j].status != Starting
             && x in db.attempts && db.attempts[x].status == Starting
    ensures AcceptedLast(ops, x)
    decreases |ops|
  {
    hide Accepts, Writes, Step, Inv;
    var before, last := ops[..|ops| - 1], ops[|ops| - 1];
    var was := Run(EMPTY, before);
    RunLast(ops);
    RunInStep(before, j);
    ReachableInv(ops);
    AttemptThere(Run(EMPTY, ops), j);
    hide Run;
    if Accepts(was, last, x) {
      assert AcceptedAt(ops, x, |ops| - 1);
    } else if Writes(was, last, x) {
      WriteShows(was, last, j, x);
    } else {
      AttemptFrame(was, last, x);
      JobFrame(was, last, j, x);
      StartingWasAccepted(before, j, x);
      var k :| 0 <= k < |before| && AcceptedAt(before, x, k);
      NotWrittenMore(before, last, x, k);
      assert before + [last] == ops && before[..k] == ops[..k];
      assert AcceptedAt(ops, x, k);
    }
  }

  lemma {:induction false} DeletedStays(ops: seq<Op>, x: string, k: int)
    requires 0 <= k < |ops| && DeletedAt(ops, x, k)
    ensures x in Run(EMPTY, ops).attempts && Run(EMPTY, ops).attempts[x].status == Deleted
    decreases |ops|
  {
    hide Accepts, Writes, Run, Step, Inv;
    var before, last := ops[..|ops| - 1], ops[|ops| - 1];
    RunLast(ops);
    ReachableInv(before);
    if k < |ops| - 1 {
      NotWrittenBefore(ops, x, k);
      DeletedBefore(ops, x, k);
      DeletedStays(before, x, k);
      AttemptFrame(Run(EMPTY, before), last, x);
    } else {
      WriteLeaves(Run(EMPTY, before), last, x);
    }
  }

  lemma DeletedBefore(ops: seq<Op>, x: string, k: int)
    requires 0 <= k < |ops| - 1 && DeletedAt(ops, x, k)
    ensures DeletedAt(ops[..|ops| - 1], x, k) && !Accepts(Run(EMPTY, ops[..|ops| - 1]), ops[|ops| - 1], x)
  {
    hide Accepts, Writes, Run;
    var before := ops[..|ops| - 1];
    NotWrittenBefore(ops, x, k);
    assert before[..k] == ops[..k];
    forall i | k < i < |before| ensures !Accepts(Run(EMPTY, before[..i]), before[i], x) {
      assert before[..i] == ops[..i];
    }
  }

  lemma DeletedMore(ops: seq<Op>, op: Op, x: string, k: int)
    requires 0 <= k < |ops| && DeletedAt(ops, x, k)
    requires !Writes(Run(EMPTY, ops), op, x) && !Accepts(Run(EMPTY, ops), op, x)
    ensures DeletedAt(ops + [op], x, k)
  {
    hide Accepts, Writes, Run;
    var all := ops + [op];
    NotWrittenMore(ops, op, x, k);
    assert all[..k] == ops[..k];
    forall i | k < i < |all| ensures !Accepts(Run(EMPTY, all[..i]), all[i], x) {
      assert all[..i] == ops[..i];
      assert ops[..|ops|] == ops;
    }
  }

  lemma {:induction false} DeletedWasCommitted(ops: seq<Op>, x: string)
    requires x in Run(EMPTY, ops).attempts && Run(EMPTY, ops).attempts[x].status == Deleted
    ensures CommittedDeleted(ops, x)
    decreases |ops|
  {
    hide Accepts, Writes, Step, Inv;
    var before, last := ops[..|ops| - 1], ops[|ops| - 1];
    var was := Run(EMPTY, before);
    RunLast(ops);
    ReachableInv(before);
    hide Run;
    AttemptFrame(was, last, x);
    if Writes(was, last, x) {
      WriteLeaves(was, last, x);
      assert DeletedAt(ops, x, |ops| - 1);
    } else if !Accepts(was, last, x) {
      DeletedWasCommitted(before, x);
      var k :| 0 <= k < |before| && DeletedAt(before, x, k);
      DeletedMore(before, last, x, k);
      assert before + [last] == ops;
      assert DeletedAt(ops, x, k);
    }
  }

  // ---------------------------------------------------------------- the exact condition

  /** Why the attempt of a job that shows the status may fail to: there is none, or it was
      accepted after it was last written with its job, or deletion left it alone. */
  ghost predicate Missed(ops: seq<Op>, j: string, status: JobStatus)
    requires j in Run(EMPTY, ops).jobs
  {
    var attempt := Run(EMPTY, ops).jobs[j].attempt;
    || attempt.None?
    || (status != Starting && status != Deleted && AcceptedLast(ops, attempt.value))
    || (status == Deleted && !CommittedDeleted(ops, attempt.value))
  }

  /** In every reachable state, the attempt of a job that shows a status shows it too, except in
      exactly these cases. */
  lemma {:induction false} AttemptShowsIff(ops: seq<Op>, j: string, status: JobStatus)
    requires JobShows(Run(EMPTY, ops), j, status)
    ensures AttemptShows(Run(EMPTY, ops), j, status) <==> !Missed(ops, j, status)
  {
    var db := Run(EMPTY, ops);
    RunInStep(ops, j);
    hide Run, Step, AcceptedAt, DeletedAt;
    if db.jobs[j].attempt.Some? {
      var x := db.jobs[j].attempt.value;
      AttemptThere(db, j);
      hide Inv;
      if status == Deleted {
        if CommittedDeleted(ops, x) {
          var k :| 0 <= k < |ops| && DeletedAt(ops, x, k);
          DeletedStays(ops, x, k);
        } else if db.attempts[x].status == Deleted {
          DeletedWasCommitted(ops, x);
        }
      } else {
        if AcceptedLast(ops, x) {
          var k :| 0 <= k < |ops| && AcceptedAt(ops, x, k);
          AcceptedStarts(ops, x, k);
        } else if status != Starting && db.attempts[x].status == Starting {
          StartingWasAccepted(ops, j, x);
        }
      }
    }
  }

  /** A successful status update leaves job and attempt with the status, exactly unless it
      returned early at a moment when the attempt row missed the status. */
  lemma UpdateReflectsAttempt(past: seq<Op>, j: string, status: JobStatus, rounds: seq<Round>)
    requires UpdateLoop(Run(EMPTY, past), j, status, rounds).1 == Done
    ensures var early := EarlyReturn(Run(EMPTY, past), j, status, rounds);
            && (early.Some? ==> JobShows(Run(EMPTY, past + early.value), j, status))
            && (AttemptShows(UpdateLoop(Run(EMPTY, past), j, status, rounds).0, j, status)
                <==> early.None? || !Missed(past + early.value, j, status))
  {
    var db := Run(EMPTY, past);
    SuccessShowsIff(db, j, status, rounds);
    hide Run, UpdateLoop, AttemptShows, Missed;
    var early := EarlyReturn(db, j, status, rounds);
    if early.Some? {
      EarlyReturnIs(db, j, status, rounds);
      RunAppend(EMPTY, past, early.value);
      AttemptShowsIff(past + early.value, j, status);
    }
  }

  /** The case without an attempt does occur: a job cancelled while it was queued. */
  lemma CancelledInQueueMisses(j: string, spec: JobSpec)
    requires ValidSpec(spec)
    ensures var past := [OpCreate(j, spec)] + [OpStop(j)];
            var r := UpdateLoop(Run(EMPTY, past), j, Cancelled, [Round([], [])]);
            r.1 == Done && !AttemptShows(r.0, j, Cancelled)
  {
    hide ValidSpec;
    var first, past := [OpCreate(j, spec)], [OpCreate(j, spec)] + [OpStop(j)];
    assert first[..0] == [] && past[..1] == first;
    assert Run(EMPTY, first) == Step(EMPTY, OpCreate(j, spec)).0;
  }

  /** So does the case of a late acceptance, whenever a job shows a status other than STARTING. */
  lemma LateAcceptanceMisses(past: seq<Op>, j: string, status: JobStatus, x: string)
    requires var db := Run(EMPTY, past);
             JobShows(db, j, status) && db.jobs[j].attempt == Some(x) && x in db.attempts && status != Starting
    ensures var a := Run(EMPTY, past).attempts[x];
            var r := UpdateLoop(Run(EMPTY, past), j, status, [Round([OpAccept(a.node, a.assignment)], [])]);
            r.1 == Done && !AttemptShows(r.0, j, status)
  {
    var db := Run(EMPTY, past);
    ReachableInv(past);
    AttemptRow(db, x);
    var op := OpAccept(db.attempts[x].node, db.attempts[x].assignment);
    assert [op][..0] == [];
    hide Inv;
    assert Run(db, [op]) == Step(db, op).0;
  }

  lemma AttemptRow(db: Db, x: string)
    requires Inv(db) && x in db.attempts
    ensures db.attempts[x].assignment in db.assignments && db.assignments[db.attempts[x].assignment].node == db.attempts[x].node
  {
    hide TokensOk, TokensUnique, NumbersOk, JobsOk, OrderOk, NodesOk, DeletingOk;
    assert RowOk(db, x, db.attempts[x]);
  }

  /** A job is placed on a node, and its agent reports the status. */
  function Reported1(j: string, spec: JobSpec, n: string, report: Node, x: string, assignment: string, token: string, u: string,
                     status: JobStatus): seq<Op>
  {
    [OpUpsert(n, report, 0)] + [OpCreate(j, spec)] + [OpReserve(j, n, x, assignment, token, [u])]
    + [OpCommit(j, Assigned, x, status)]
  }

  lemma ReportedJobExists(j: string, spec: JobSpec, n: string, report: Node, x: string, assignment: string, token: string, u: string,
                          status: JobStatus)
    requires ValidSpec(spec) && ValidNode(report) && IsHash(token) && CanTransition(Assigned, status)
    ensures var db := Run(EMPTY, Reported1(j, spec, n, report, x, assignment, token, u, status));
            && JobShows(db, j, status) && db.jobs[j].attempt == Some(x)
            && x in db.attempts && db.attempts[x].status == status
  {
    var two := [OpUpsert(n, report, 0)] + [OpCreate(j, spec)];
    var three := two + [OpReserve(j, n, x, assignment, token, [u])];
    Recount.RegisterAndCreate(j, spec, n, report);
    Recount.ReserveFirst(j, spec, n, report, x, assignment, token, u);
    Recount.RunMore(EMPTY, two, OpReserve(j, n, x, assignment, token, [u]));
    Recount.RunMore(EMPTY, three, OpCommit(j, Assigned, x, status));
    hide Run, ValidNode, ValidSpec, IsHash, CanTransition, RevokedToken;
  }

  /** There is such a past: a job reserved and reported running. */
  lemma RunningJobExists(j: string, spec: JobSpec, n: string, report: Node, x: string, assignment: string, token: string, u: string)
    requires ValidSpec(spec) && ValidNode(report) && IsHash(token)
    ensures var db := Run(EMPTY, Reported1(j, spec, n, report, x, assignment, token, u, Running));
            JobShows(db, j, Running) && db.jobs[j].attempt == Some(x) && x in db.attempts
  {
    ReportedJobExists(j, spec, n, report, x, assignment, token, u, Running);
    hide Run, ValidNode, ValidSpec, IsHash, Reported1;
  }

  /** And the case of deletion, whenever a job that has ended is deleted. */
  lemma DeletionMisses(db: Db, j: string)
    requires j in db.jobs && IsTerminal(db.jobs[j].status) && !AttemptShows(db, j, Deleted)
    ensures var r := UpdateLoop(db, j, Deleted, [Round([OpMarkDeleting(j)] + [OpMarkDeleted(j)], [])]);
            r.1 == Done && !AttemptShows(r.0, j, Deleted)
  {
    hide Run, Step, AttemptShows;
    Recount.RunMore(db, [], OpMarkDeleting(j));
    Recount.RunMore(db, [OpMarkDeleting(j)], OpMarkDeleted(j));
    assert [] + [OpMarkDeleting(j)] == [OpMarkDeleting(j)];
    NothingRuns(db);
    DeletedInTurn(db, j);
  }

  lemma DeletedInTurn(db: Db, j: string)
    requires j in db.jobs && IsTerminal(db.jobs[j].status)
    ensures var db' := Step(Step(db, OpMarkDeleting(j)).0, OpMarkDeleted(j)).0;
            JobShows(db', j, Deleted) && (AttemptShows(db', j, Deleted) <==> AttemptShows(db, j, Deleted))
    {
    hide Reserve, CreateJob, CommitStatus, Rerun, RequestStop, MarkStaleNodes, AcceptAssignment, Heartbeat, UpsertNode, DeleteNode,
         SetNodeStatus, UpdateNodeMetadata, SoundReport, IsHash, CanTransition;
  }

  /** There is such a past: a job reserved and reported failed. */
  lemma FailedJobExists(j: string, spec: JobSpec, n: string, report: Node, x: string, assignment: string, token: string, u: string)
    requires ValidSpec(spec) && ValidNode(report) && IsHash(token)
    ensures var past := Reported1(j, spec, n, report, x, assignment, token, u, Failed);
            j in Run(EMPTY, past).jobs && IsTerminal(Run(EMPTY, past).jobs[j].status) && !AttemptShows(Run(EMPTY, past), j, Deleted)
  {
    ReportedJobExists(j, spec, n, report, x, assignment, token, u, Failed);
    hide Run, ValidNode, ValidSpec, IsHash, Reported1;
  }
}
