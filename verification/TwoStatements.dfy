/** Operations that read a job in one statement and write it in another, without looking again
    (internal/store/store.go:445-479, 722-751): what they do when others act in between. */
module TwoStatements {
  import opened Domain
  import opened Fleet
  import opened Jobs
  import opened Capacity
  import opened Ledger
  import Recount
  import StatusUpdates

  // ---------------------------------------------------------------- rows are never lost

  lemma {:induction false} JobsRemain(db: Db, ops: seq<Op>, j: string)
    requires Inv(db) && j in db.jobs
    ensures Inv(Run(db, ops)) && j in Run(db, ops).jobs
    decreases |ops|
  {
    hide Inv, Step;
    if ops != [] {
      JobsRemain(db, ops[..|ops| - 1], j);
      StepKeepsInv(Run(db, ops[..|ops| - 1]), ops[|ops| - 1]);
      EveryStepIsAnEdge(Run(db, ops[..|ops| - 1]), ops[|ops| - 1], j);
    }
  }

  lemma {:induction false} StepKeepsAttempt(db: Db, op: Op, x: string)
    requires Inv(db) && x in db.attempts
    ensures x in Step(db, op).0.attempts && Step(db, op).0.attempts[x].job == db.attempts[x].job
  {
    if op.OpReserve? {
      hide Inv, IsHash, Numbers, MaxOf;
    } else {
      hide Step, Inv, JobsRelease, NodesGrow;
      StepReleases(db, op);
    }
  }

  lemma {:induction false} AttemptsRemain(db: Db, ops: seq<Op>, x: string)
    requires Inv(db) && x in db.attempts
    ensures x in Run(db, ops).attempts && Run(db, ops).attempts[x].job == db.attempts[x].job
    decreases |ops|
  {
    hide Inv, Step;
    if ops != [] {
      AttemptsRemain(db, ops[..|ops| - 1], x);
      RunKeepsInv(db, ops[..|ops| - 1]);
      StepKeepsAttempt(Run(db, ops[..|ops| - 1]), ops[|ops| - 1], x);
    }
  }

  lemma AttemptRow(db: Db, j: string)
    requires Inv(db) && j in db.jobs
    ensures IsActive(db.jobs[j].status) ==> db.jobs[j].attempt.Some?
    ensures db.jobs[j].attempt.Some? ==> db.jobs[j].attempt.value in db.attempts && db.attempts[db.jobs[j].attempt.value].job == j
    ensures db.jobs[j].attempt.Some? <==> db.jobs[j].node.Some?
    ensures db.jobs[j].node.Some? ==> db.jobs[j].node.value in db.nodes
    ensures db.jobs[j].status == Queued ==> db.jobs[j].attempt.None?
    ensures db.jobs[j].status != Deleted ==> ValidSpec(db.jobs[j].spec)
    ensures j in db.deleting ==> db.jobs[j].status == Deleting || db.jobs[j].status == Deleted
  {
    hide TokensOk, TokensUnique, NumbersOk, OrderOk, NodesOk, ValidSpec;
    assert JobOk(db, j, db.jobs[j]);
    if db.jobs[j].attempt.Some? {
      var x := db.jobs[j].attempt.value;
      assert RowOk(db, x, db.attempts[x]);
    }
  }

  lemma OrderListed(db: Db, j: string)
    requires Inv(db) && j in db.jobs
    ensures j in db.order && forall i, k :: 0 <= i < k < |db.order| ==> db.order[i] != db.order[k]
  {
  }

  // ---------------------------------------------------------------- stopping

  /** What is known of the rows that are written. */
  ghost predicate CanWrite(now: Db, j: string, x: string) {
    Inv(now) && j in now.jobs && x in now.attempts && now.attempts[x].job == j
  }

  lemma {:induction false} StopInTwoWrites(db: Db, j: string, between: seq<Op>)
    requires Inv(db) && j in db.jobs && Stoppable(db.jobs[j].status)
    ensures db.jobs[j].attempt.Some?
    ensures var now, x := Run(db, between), db.jobs[j].attempt.value;
            j in now.jobs && CanWrite(now, j, x) && StopInTwo(db, j, between).0 == WriteStop(now, j, Some(x))
  {
    JobsRemain(db, between, j);
    AttemptRow(db, j);
    AttemptsRemain(db, between, db.jobs[j].attempt.value);
    hide Run, Inv, WriteStop;
  }

  lemma WriteStopWrites(now: Db, j: string, x: string)
    requires CanWrite(now, j, x)
    ensures WriteStop(now, j, Some(x)) == now.(jobs := now.jobs[j := now.jobs[j].(status := Stopping)],
                                         attempts := now.attempts[x := now.attempts[x].(status := Stopping)])
    ensures SameAttempts(now.attempts, WriteStop(now, j, Some(x)).attempts)
  {
    hide Inv, RevokedToken;
  }

  ghost predicate RowStops(db: Db, attempt: Option<string>) {
    attempt.Some? && attempt.value in db.attempts && db.attempts[attempt.value].status == Stopping
  }

  /** One stop, or what amounts to it: the job can still be stopped and has the attempt that was
      read, or the rows say STOPPING already. */
  ghost predicate AsOneStop(now: Db, j: string, read: Option<string>)
    requires j in now.jobs
  {
    if Stoppable(now.jobs[j].status)
    then now.jobs[j].attempt == read || (RowStops(now, read) && RowStops(now, now.jobs[j].attempt))
    else now.jobs[j].status == Stopping && RowStops(now, read)
  }

  lemma OneRowWritten(rows: map<string, Attempt>, x: string, y: string)
    requires x in rows && y in rows
    ensures rows[x := rows[x].(status := Stopping)] == rows[y := rows[y].(status := Stopping)]
            <==> x == y || (rows[x].status == Stopping && rows[y].status == Stopping)
  {
    var a, b := rows[x := rows[x].(status := Stopping)], rows[y := rows[y].(status := Stopping)];
    if a == b && x != y {
      assert a[x] == b[x] && a[y] == b[y];
    }
  }

  lemma SameRow(rows: map<string, Attempt>, x: string)
    requires x in rows
    ensures rows[x := rows[x].(status := Stopping)] == rows <==> rows[x].status == Stopping
  {
    assert rows[x := rows[x].(status := Stopping)][x].status == Stopping;
  }

  lemma StopOfStoppable(now: Db, j: string, x: string)
    requires CanWrite(now, j, x) && Stoppable(now.jobs[j].status)
    ensures WriteStop(now, j, Some(x)) == RequestStop(now, j).0 <==> AsOneStop(now, j, Some(x))
  {
    AttemptRow(now, j);
    WriteStopWrites(now, j, x);
    hide Inv, WriteStop, SameAttempts, ValidSpec;
    var y := now.jobs[j].attempt.value;
    assert RequestStop(now, j).0 == now.(jobs := now.jobs[j := now.jobs[j].(status := Stopping)],
                                         attempts := now.attempts[y := now.attempts[y].(status := Stopping)]);
    hide RequestStop;
    OneRowWritten(now.attempts, x, y);
  }

  lemma StopOfOther(now: Db, j: string, x: string)
    requires CanWrite(now, j, x) && !Stoppable(now.jobs[j].status)
    ensures WriteStop(now, j, Some(x)) == RequestStop(now, j).0 <==> AsOneStop(now, j, Some(x))
  {
    WriteStopWrites(now, j, x);
    SameRow(now.attempts, x);
    hide Inv, WriteStop, SameAttempts;
    var row := now.jobs[j].(status := Stopping);
    if now.jobs[j].status == Stopping {
      assert RequestStop(now, j).0 == now && now.jobs[j := row] == now.jobs;
    } else {
      assert now.jobs[j := row][j].status == Stopping && RequestStop(now, j).0.jobs[j].status != Stopping;
    }
  }

  /** The two statements amount to one stop in exactly these cases. */
  lemma {:induction false} StopInTwoIsStopIff(db: Db, j: string, between: seq<Op>)
    requires Inv(db) && j in db.jobs && Stoppable(db.jobs[j].status)
    ensures var now := Run(db, between);
            j in now.jobs && (StopInTwo(db, j, between).0 == RequestStop(now, j).0 <==> AsOneStop(now, j, db.jobs[j].attempt))
  {
    StopInTwoWrites(db, j, between);
    hide Run, CanWrite, StopInTwo, WriteStop, RequestStop, AsOneStop, Stoppable, Inv;
    var now, x := Run(db, between), db.jobs[j].attempt.value;
    if Stoppable(now.jobs[j].status) {
      StopOfStoppable(now, j, x);
    } else {
      StopOfOther(now, j, x);
    }
  }

  /** The write is a legal transition if and only if the job can still be stopped, or is stopping. */
  lemma StopInTwoIsAnEdgeIff(db: Db, j: string, between: seq<Op>)
    requires Inv(db) && j in db.jobs && Stoppable(db.jobs[j].status)
    ensures var now, after := Run(db, between), StopInTwo(db, j, between).0;
            && j in now.jobs && j in after.jobs
            && (CanTransition(now.jobs[j].status, after.jobs[j].status)
                <==> Stoppable(now.jobs[j].status) || now.jobs[j].status == Stopping)
  {
    StopInTwoWrites(db, j, between);
    hide Run, Inv, StopInTwo, CanWrite, CanTransition, Stoppable;
    EdgesToStopping(Run(db, between).jobs[j].status);
  }

  lemma EdgesToStopping(from: JobStatus)
    ensures CanTransition(from, Stopping) <==> Stoppable(from) || from == Stopping
  {
  }

  /** The state is still a legal one if and only if the job has an attempt when it is written,
      and its deletion has not been accepted. */
  lemma {:induction false} StopInTwoKeepsInvIff(db: Db, j: string, between: seq<Op>)
    requires Inv(db) && j in db.jobs && Stoppable(db.jobs[j].status)
    ensures var now := Run(db, between);
            && j in now.jobs
            && (Inv(StopInTwo(db, j, between).0)
                <==> now.jobs[j].attempt.Some? && j !in now.deleting && ValidSpec(now.jobs[j].spec))
  {
    StopInTwoWrites(db, j, between);
    hide Run, StopInTwo, WriteStop, ValidSpec, Inv, CanWrite;
    WriteStopKeepsInvIff(Run(db, between), j, db.jobs[j].attempt.value);
  }

  lemma {:induction false} WriteStopKeepsInvIff(now: Db, j: string, x: string)
    requires CanWrite(now, j, x)
    ensures Inv(WriteStop(now, j, Some(x))) <==> now.jobs[j].attempt.Some? && j !in now.deleting && ValidSpec(now.jobs[j].spec)
  {
    var after := WriteStop(now, j, Some(x));
    WriteStopWrites(now, j, x);
    hide WriteStop;
    if now.jobs[j].attempt.Some? && j !in now.deleting && ValidSpec(now.jobs[j].spec) {
      SameAttemptsKeep(now, after);
      RevivalKeeps(now, after, j);
      hide JobsOk, TokensOk, TokensUnique, NumbersOk, RowsOk, OrderOk, NodesOk, DeletingOk, ValidSpec, SameAttempts;
    } else if Inv(after) {
      AttemptRow(after, j);
    }
  }

  lemma RevivalKeeps(now: Db, after: Db, j: string)
    requires Inv(now) && j in now.jobs && now.jobs[j].attempt.Some? && j !in now.deleting && ValidSpec(now.jobs[j].spec)
    requires after == now.(jobs := now.jobs[j := now.jobs[j].(status := Stopping)], attempts := after.attempts)
    requires SameAttempts(now.attempts, after.attempts)
    ensures JobsOk(after) && TokensOk(after) && OrderOk(after) && DeletingOk(after) && NodesOk(after)
  {
    hide NumbersOk, RowsOk, TokensUnique, ValidSpec, IsHash, RevokedToken;
    forall k | k in after.jobs ensures JobOk(after, k, after.jobs[k]) {
      assert JobOk(now, k, now.jobs[k]);
    }
    forall x | x in after.attempts ensures TokenLive(after, x) {
      RevokedIsNoHash(x);
      assert TokenLive(now, x);
    }
  }

  /** What writing the stop charges: nothing if the job is active, and otherwise its demand again. */
  function Recharged(job: Job, n: string, kind: Kind): int {
    if !IsActive(job.status) && job.node == Some(n) then Amount(job.spec.resources, kind) else 0
  }

  lemma WriteStopCharges(now: Db, j: string, x: string, n: string, kind: Kind)
    requires CanWrite(now, j, x)
    ensures Load(WriteStop(now, j, Some(x)), n, kind) == Load(now, n, kind) + Recharged(now.jobs[j], n, kind)
  {
    OrderListed(now, j);
    hide Inv, Usage, Amount;
    UsageUpdate(now.jobs, now.order, j, now.jobs[j].(status := Stopping), n, kind);
  }

  /** The job is active afterwards: its demand, given back when it ended, is charged to its node
      again, exactly if it was no longer active when it was written. */
  lemma {:induction false} StopInTwoCharges(db: Db, j: string, between: seq<Op>, n: string, kind: Kind)
    requires Inv(db) && j in db.jobs && Stoppable(db.jobs[j].status)
    ensures var now, after := Run(db, between), StopInTwo(db, j, between).0;
            && j in now.jobs && j in after.jobs && IsActive(after.jobs[j].status)
            && Load(after, n, kind) == Load(now, n, kind) + Recharged(now.jobs[j], n, kind)
  {
    StopInTwoWrites(db, j, between);
    hide Run, Inv, Load, StopInTwo, Recharged, CanWrite;
    WriteStopCharges(Run(db, between), j, db.jobs[j].attempt.value, n, kind);
  }

  /** The node the job was last on has room for it once more. */
  ghost predicate HasRoom(db: Db, j: string)
    requires j in db.jobs
  {
    forall n, kind :: db.jobs[j].node == Some(n) && n in db.nodes ==>
      Load(db, n, kind) + Amount(db.jobs[j].spec.resources, kind) <= Total(db.nodes[n].node, kind)
  }

  lemma {:induction false} WriteStopFitsIff(now: Db, j: string, x: string)
    requires CanWrite(now, j, x) && Fits(now)
    ensures Fits(WriteStop(now, j, Some(x))) <==> IsActive(now.jobs[j].status) || HasRoom(now, j)
  {
    var after, job := WriteStop(now, j, Some(x)), now.jobs[j];
    forall n, kind ensures Load(after, n, kind) == Load(now, n, kind) + Recharged(job, n, kind) {
      WriteStopCharges(now, j, x, n, kind);
    }
    hide Inv, CanWrite, Load, Total, Amount, IsActive;
    if Fits(after) && !IsActive(job.status) {
      forall n, kind | job.node == Some(n) && n in now.nodes
        ensures Load(now, n, kind) + Amount(job.spec.resources, kind) <= Total(now.nodes[n].node, kind)
      {
        assert Load(after, n, kind) <= Total(after.nodes[n].node, kind);
      }
    }
  }

  /** No node is overcommitted by it if and only if the job was still active when it was written,
      or its node has room for it once more. */
  lemma {:induction false} StopInTwoFitsIff(db: Db, j: string, between: seq<Op>)
    requires Inv(db) && j in db.jobs && Stoppable(db.jobs[j].status) && Fits(Run(db, between))
    ensures var now := Run(db, between);
            && j in now.jobs
            && (Fits(StopInTwo(db, j, between).0) <==> IsActive(now.jobs[j].status) || HasRoom(now, j))
  {
    StopInTwoWrites(db, j, between);
    hide Run, Inv, StopInTwo, WriteStop, CanWrite, Fits, HasRoom, IsActive;
    WriteStopFitsIff(Run(db, between), j, db.jobs[j].attempt.value);
  }

  // ---------------------------------------------------------------- a job stranded

  /** Nothing that anybody does changes the job any more. */
  ghost predicate Stuck(db: Db, j: string)
    requires j in db.jobs
  {
    forall ops: seq<Op> :: j in Run(db, ops).jobs && Run(db, ops).jobs[j] == db.jobs[j]
  }

  ghost predicate Stranded(db: Db, j: string) {
    j in db.jobs && db.jobs[j].status == Stopping && db.jobs[j].attempt.None? && db.jobs[j].node.None? && j !in db.deleting
  }

  lemma StaysStranded(db: Db, op: Op, j: string)
    requires Stranded(db, j)
    ensures Stranded(Step(db, op).0, j) && Step(db, op).0.jobs[j] == db.jobs[j]
  {
    hide MaxOf, Numbers, IsHash, RevokedToken, CanTransition, Stale, SoundReport, ValidSpec, DistinctKeys;
  }

  lemma {:induction false} StrandedForGood(db: Db, ops: seq<Op>, j: string)
    requires Stranded(db, j)
    ensures Stranded(Run(db, ops), j) && Run(db, ops).jobs[j] == db.jobs[j]
    decreases |ops|
  {
    hide Step;
    if ops != [] {
      StrandedForGood(db, ops[..|ops| - 1], j);
      StaysStranded(Run(db, ops[..|ops| - 1]), ops[|ops| - 1], j);
    }
  }

  lemma RunOne(db: Db, op: Op)
    ensures Run(db, [op]) == Step(db, op).0
  {
    assert [op][..0] == [];
  }

  /** The job stays STOPPING for good, whatever anybody does, if and only if it has no attempt
      when it is written, as after a rerun, and its deletion has not been accepted. */
  lemma {:induction false} StopInTwoStrandsIff(db: Db, j: string, between: seq<Op>)
    requires Inv(db) && j in db.jobs && Stoppable(db.jobs[j].status)
    ensures var now, after := Run(db, between), StopInTwo(db, j, between).0;
            && j in now.jobs && j in after.jobs && after.jobs[j].status == Stopping
            && (Stuck(after, j) <==> now.jobs[j].attempt.None? && j !in now.deleting)
            && (now.jobs[j].status == Queued ==> Stuck(after, j))
  {
    StopInTwoWrites(db, j, between);
    hide Inv, StopInTwo, Stuck, Run, CanWrite;
    WriteStopStrandsIff(Run(db, between), j, db.jobs[j].attempt.value);
  }

  lemma WriteStopStrandsIff(now: Db, j: string, x: string)
    requires CanWrite(now, j, x)
    ensures Stuck(WriteStop(now, j, Some(x)), j) <==> now.jobs[j].attempt.None? && j !in now.deleting
    ensures now.jobs[j].status == Queued ==> now.jobs[j].attempt.None? && j !in now.deleting
  {
    var after := WriteStop(now, j, Some(x));
    AttemptRow(now, j);
    WriteStopWrites(now, j, x);
    hide Inv, WriteStop, SameAttempts, ValidSpec, Run;
    if Stranded(after, j) {
      forall ops: seq<Op> ensures j in Run(after, ops).jobs && Run(after, ops).jobs[j] == after.jobs[j] {
        StrandedForGood(after, ops, j);
      }
    } else {
      MovesOn(after, j);
    }
  }

  lemma MovesOn(db: Db, j: string)
    requires j in db.jobs && db.jobs[j].status == Stopping
    requires db.jobs[j].attempt.Some? ==> db.jobs[j].attempt.value in db.attempts && db.attempts[db.jobs[j].attempt.value].job == j
    requires db.jobs[j].attempt.Some? || j in db.deleting
    ensures !Stuck(db, j)
  {
    var op := if db.jobs[j].attempt.Some? then OpCommit(j, Stopping, db.jobs[j].attempt.value, Cancelled) else OpMarkDeleted(j);
    RunOne(db, op);
    hide Run, RevokedToken;
    assert CanTransition(Stopping, Cancelled);
    assert Run(db, [op]).jobs[j] != db.jobs[j];
  }

  // ---------------------------------------------------------------- such runs exist

  function Reserved1(j: string, spec: JobSpec, n: string, report: Node, x: string, assignment: string, token: string, u: string): seq<Op> {
    [OpUpsert(n, report, 0)] + [OpCreate(j, spec)] + [OpReserve(j, n, x, assignment, token, [u])]
  }

  lemma ReservedShop(j: string, spec: JobSpec, n: string, report: Node, x: string, assignment: string, token: string, u: string)
    requires ValidSpec(spec) && ValidNode(report) && IsHash(token)
    ensures Run(EMPTY, Reserved1(j, spec, n, report, x, assignment, token, u))
            == Recount.Shop(j, Job(j, spec, Assigned, Queued, Some(n), Some(x)),
                            map[x := Attempt(j, 1, n, assignment, [u], Assigned, token)],
                            map[assignment := Assignment(j, x, n, [u])], n, report)
  {
    var two := [OpUpsert(n, report, 0)] + [OpCreate(j, spec)];
    Recount.RegisterAndCreate(j, spec, n, report);
    Recount.ReserveFirst(j, spec, n, report, x, assignment, token, u);
    hide Run, Step, Recount.Shop;
    Recount.RunMore(EMPTY, two, OpReserve(j, n, x, assignment, token, [u]));
  }

  lemma ReachableInv(ops: seq<Op>)
    ensures Inv(Run(EMPTY, ops))
  {
    EmptyInv();
    RunKeepsInv(EMPTY, ops);
  }

  /** A job placed on a node is read for a stop; it fails and is rerun; the stop is written, and
      the job is neither queued nor running, for good. */
  lemma StopStrandsARerunJob(j: string, spec: JobSpec, n: string, report: Node, x: string, assignment: string, token: string, u: string)
    requires ValidSpec(spec) && ValidNode(report) && IsHash(token)
    ensures var db := Run(EMPTY, Reserved1(j, spec, n, report, x, assignment, token, u));
            var between := [OpCommit(j, Assigned, x, Failed)] + [OpRerun(j)];
            && j in db.jobs && Stoppable(db.jobs[j].status)
            && j in Run(db, between).jobs && Run(db, between).jobs[j].status == Queued
            && j in StopInTwo(db, j, between).0.jobs && StopInTwo(db, j, between).0.jobs[j].status == Stopping
            && Stuck(StopInTwo(db, j, between).0, j) && !Inv(StopInTwo(db, j, between).0)
  {
    var db := Run(EMPTY, Reserved1(j, spec, n, report, x, assignment, token, u));
    var between := [OpCommit(j, Assigned, x, Failed)] + [OpRerun(j)];
    ReservedShop(j, spec, n, report, x, assignment, token, u);
    ReachableInv(Reserved1(j, spec, n, report, x, assignment, token, u));
    Recount.FailAndRerun(j, spec, n, report, x, assignment, token, u);
    RunOne(db, OpCommit(j, Assigned, x, Failed));
    Recount.RunMore(db, [OpCommit(j, Assigned, x, Failed)], OpRerun(j));
    hide Run, Step, Inv, StopInTwo, Stuck, Reserved1;
    StopInTwoStrandsIff(db, j, between);
    StopInTwoKeepsInvIff(db, j, between);
  }

  /** The job fails, and another one is placed on its node. */
  function Replaced(j: string, n: string, x: string, j2: string, spec2: JobSpec, x2: string, assignment2: string, token2: string): seq<Op> {
    [OpCommit(j, Assigned, x, Failed)] + [OpCreate(j2, spec2)] + [OpReserve(j2, n, x2, assignment2, token2, [])]
  }

  /** Only the first job demands anything of the only node, or only the second. */
  ghost predicate OnlyFirst(db: Db, j: string, spec: JobSpec, n: string, report: Node) {
    && db.order == [j] && j in db.jobs && db.jobs[j].status == Assigned && db.jobs[j].node == Some(n) && db.jobs[j].spec == spec
    && db.nodes.Keys == {n} && db.nodes[n].node == report.(id := n)
  }

  ghost predicate OnlySecond(db: Db, j: string, spec: JobSpec, n: string, report: Node, j2: string, spec2: JobSpec) {
    && db.order == [j, j2] && j in db.jobs && db.jobs[j].status == Failed && db.jobs[j].node == Some(n) && db.jobs[j].spec == spec
    && j2 in db.jobs && db.jobs[j2].status == Assigned && db.jobs[j2].node == Some(n) && db.jobs[j2].spec == spec2
    && db.nodes.Keys == {n} && db.nodes[n].node == report.(id := n)
  }

  lemma UsageOfOne(jobs: map<string, Job>, j: string, n: string, kind: Kind)
    requires j in jobs
    ensures Usage(jobs, [j], n, kind) == JobDemand(jobs[j], n, kind)
  {
    assert [j][..0] == [];
  }

  lemma FirstFits(db: Db, j: string, spec: JobSpec, n: string, report: Node)
    requires OnlyFirst(db, j, spec, n, report) && forall kind :: Amount(spec.resources, kind) <= Total(report, kind)
    ensures Fits(db)
  {
    hide Amount;
    forall kind ensures Load(db, n, kind) == Amount(spec.resources, kind) && Total(report.(id := n), kind) == Total(report, kind) {
      UsageOfOne(db.jobs, j, n, kind);
    }
  }

  lemma SecondFits(db: Db, j: string, spec: JobSpec, n: string, report: Node, j2: string, spec2: JobSpec)
    requires OnlySecond(db, j, spec, n, report, j2, spec2) && forall kind :: Amount(spec2.resources, kind) <= Total(report, kind)
    ensures Fits(db)
    ensures spec.resources.cpu + spec2.resources.cpu > report.cpuTotal ==> !HasRoom(db, j)
  {
    forall kind ensures Load(db, n, kind) == Amount(spec2.resources, kind) && Total(report.(id := n), kind) == Total(report, kind) {
      assert [j, j2][..1] == [j];
      UsageOfOne(db.jobs, j, n, kind);
    }
    hide Load;
    assert Amount(spec.resources, Cpu) == spec.resources.cpu && Total(db.nodes[n].node, Cpu) == report.cpuTotal;
  }

  lemma FailsFirst(j: string, spec: JobSpec, n: string, report: Node, x: string, assignment: string, token: string, u: string)
    ensures Step(Recount.Shop(j, Job(j, spec, Assigned, Queued, Some(n), Some(x)),
                              map[x := Attempt(j, 1, n, assignment, [u], Assigned, token)],
                              map[assignment := Assignment(j, x, n, [u])], n, report), OpCommit(j, Assigned, x, Failed)).0
            == Recount.Shop(j, Job(j, spec, Failed, Failed, Some(n), Some(x)),
                            map[x := Attempt(j, 1, n, assignment, [u], Failed, RevokedToken(x))],
                            map[assignment := Assignment(j, x, n, [u])], n, report)
  {
    hide RevokedToken;
    assert CanTransition(Assigned, Failed);
  }

  lemma PlacesSecond(db: Db, j: string, spec: JobSpec, n: string, report: Node, x: string, assignment: string, u: string,
                     j2: string, spec2: JobSpec, x2: string, assignment2: string, token2: string)
    requires ValidSpec(spec2) && IsHash(token2) && j2 != j && x2 != x && assignment2 != assignment
    requires db == Recount.Shop(j, Job(j, spec, Failed, Failed, Some(n), Some(x)),
                                map[x := Attempt(j, 1, n, assignment, [u], Failed, RevokedToken(x))],
                                map[assignment := Assignment(j, x, n, [u])], n, report)
    ensures OnlySecond(Step(Step(db, OpCreate(j2, spec2)).0, OpReserve(j2, n, x2, assignment2, token2, [])).0,
                       j, spec, n, report, j2, spec2)
  {
    RevokedIsNoHash(x);
    hide ValidSpec, IsHash, RevokedToken, MaxOf, Numbers;
  }

  lemma ReplacedIs(db: Db, j: string, spec: JobSpec, n: string, report: Node, x: string, assignment: string, token: string, u: string,
                   j2: string, spec2: JobSpec, x2: string, assignment2: string, token2: string)
    requires ValidSpec(spec2) && IsHash(token2) && j2 != j && x2 != x && assignment2 != assignment
    requires db == Recount.Shop(j, Job(j, spec, Assigned, Queued, Some(n), Some(x)),
                                map[x := Attempt(j, 1, n, assignment, [u], Assigned, token)],
                                map[assignment := Assignment(j, x, n, [u])], n, report)
    ensures OnlyFirst(db, j, spec, n, report)
    ensures OnlySecond(Run(db, Replaced(j, n, x, j2, spec2, x2, assignment2, token2)), j, spec, n, report, j2, spec2)
  {
    var one, two := [OpCommit(j, Assigned, x, Failed)], [OpCommit(j, Assigned, x, Failed)] + [OpCreate(j2, spec2)];
    FailsFirst(j, spec, n, report, x, assignment, token, u);
    hide Run, Step, ValidSpec, IsHash, OnlySecond;
    RunOne(db, OpCommit(j, Assigned, x, Failed));
    Recount.RunMore(db, one, OpCreate(j2, spec2));
    Recount.RunMore(db, two, OpReserve(j2, n, x2, assignment2, token2, []));
    PlacesSecond(Run(db, one), j, spec, n, report, x, assignment, u, j2, spec2, x2, assignment2, token2);
  }

  /** Two jobs that each fit on a node but not together: the first is read for a stop and fails, the
      second is placed, the stop is written, and the node is overcommitted. */
  lemma StopOvercommits(j: string, spec: JobSpec, n: string, report: Node, x: string, assignment: string, token: string, u: string,
                        j2: string, spec2: JobSpec, x2: string, assignment2: string, token2: string)
    requires ValidSpec(spec) && ValidSpec(spec2) && ValidNode(report) && IsHash(token) && IsHash(token2)
    requires j2 != j && x2 != x && assignment2 != assignment
    requires forall kind :: Amount(spec.resources, kind) <= Total(report, kind) && Amount(spec2.resources, kind) <= Total(report, kind)
    requires spec.resources.cpu + spec2.resources.cpu > report.cpuTotal
    ensures var db := Run(EMPTY, Reserved1(j, spec, n, report, x, assignment, token, u));
            var between := Replaced(j, n, x, j2, spec2, x2, assignment2, token2);
            && j in db.jobs && Stoppable(db.jobs[j].status)
            && Fits(db) && Fits(Run(db, between)) && !Fits(StopInTwo(db, j, between).0)
  {
    var past, between := Reserved1(j, spec, n, report, x, assignment, token, u), Replaced(j, n, x, j2, spec2, x2, assignment2, token2);
    var db := Run(EMPTY, past);
    ReservedShop(j, spec, n, report, x, assignment, token, u);
    ReachableInv(past);
    ReplacedIs(db, j, spec, n, report, x, assignment, token, u, j2, spec2, x2, assignment2, token2);
    FirstFits(db, j, spec, n, report);
    SecondFits(Run(db, between), j, spec, n, report, j2, spec2);
    hide Run, Inv, StopInTwo, Reserved1, Replaced, Recount.Shop, Fits, HasRoom, Amount, Total, ValidNode, ValidSpec, IsHash;
    StopInTwoFitsIff(db, j, between);
  }

  // ---------------------------------------------------------------- cancelling a queued job

  /** It amounts to one stop exactly if a stop would still cancel the job, or refuse to; and the
      job that was placed in between runs on although its stop was reported as done. */
  lemma {:induction false} CancelInTwoIsStopIff(db: Db, j: string, between: seq<Op>)
    requires Inv(db) && j in db.jobs && db.jobs[j].status == Queued
    ensures var now := Run(db, between);
            && j in now.jobs && Inv(StopInTwo(db, j, between).0)
            && (StopInTwo(db, j, between).0 == RequestStop(now, j).0 <==> !Stoppable(now.jobs[j].status))
            && (Stoppable(now.jobs[j].status) ==> StopInTwo(db, j, between) == (now, Done))
  {
    JobsRemain(db, between, j);
    var now := Run(db, between);
    StopKeeps(now, j);
    hide Run, Inv, SetAttemptStatus;
    if Stoppable(now.jobs[j].status) {
      assert RequestStop(now, j).0.jobs[j].status == Stopping;
    }
  }

  // ---------------------------------------------------------------- deleting

  lemma {:induction false} DeleteInTwoWrites(past: seq<Op>, j: string, between: seq<Op>)
    requires j in Run(EMPTY, past).jobs && Deletable(Run(EMPTY, past).jobs[j].status)
    ensures var now, after := Run(Run(EMPTY, past), between), DeleteInTwo(Run(EMPTY, past), j, between).0;
            && Run(EMPTY, past + between) == now && Inv(now) && Authorised(now, j) && j in now.jobs
            && after == WriteDeleting(now, j)
  {
    ReachableInv(past);
    JobsRemain(Run(EMPTY, past), between, j);
    RunAppend(EMPTY, past, between);
    RunAuthorised(past + between, j);
    hide Run, Inv, Authorised;
  }

  /** The write is a legal transition, and amounts to accepting the deletion in one statement, if
      and only if the job is neither active nor deleted when it is written. */
  lemma {:induction false} DeleteInTwoIsOneIff(past: seq<Op>, j: string, between: seq<Op>)
    requires j in Run(EMPTY, past).jobs && Deletable(Run(EMPTY, past).jobs[j].status)
    ensures var now, after := Run(Run(EMPTY, past), between), DeleteInTwo(Run(EMPTY, past), j, between).0;
            && j in now.jobs && j in after.jobs
            && (CanTransition(now.jobs[j].status, after.jobs[j].status)
                <==> !IsActive(now.jobs[j].status) && now.jobs[j].status != Deleted)
            && (after == MarkDeleting(now, j).0 <==> !IsActive(now.jobs[j].status) && now.jobs[j].status != Deleted)
  {
    DeleteInTwoWrites(past, j, between);
    hide Run, Inv, CanTransition, DeleteInTwo, Authorised, MarkDeleting;
    var now := Run(Run(EMPTY, past), between);
    EdgesToDeleting(now.jobs[j].status);
    DeletionIsOneIff(now, j);
  }

  lemma DeletionIsOneIff(now: Db, j: string)
    requires j in now.jobs
    ensures WriteDeleting(now, j) == MarkDeleting(now, j).0
            <==> !IsActive(now.jobs[j].status) && now.jobs[j].status != Deleted
  {
    assert now.jobs[j := now.jobs[j]] == now.jobs;
    assert now.jobs[j := now.jobs[j].(status := Deleting)][j].status == Deleting;
  }

  lemma EdgesToDeleting(from: JobStatus)
    ensures CanTransition(from, Deleting) <==> !IsActive(from) && from != Deleted
  {
  }

  /** The state is still a legal one if and only if the job is not active when it is written, and
      its specification has not been wiped.  An active job keeps its token. */
  lemma {:induction false} DeleteInTwoKeepsInvIff(past: seq<Op>, j: string, between: seq<Op>)
    requires j in Run(EMPTY, past).jobs && Deletable(Run(EMPTY, past).jobs[j].status)
    ensures var now, after := Run(Run(EMPTY, past), between), DeleteInTwo(Run(EMPTY, past), j, between).0;
            && j in now.jobs && j in after.jobs
            && (Inv(after) <==> !IsActive(now.jobs[j].status) && ValidSpec(now.jobs[j].spec))
            && (IsActive(now.jobs[j].status) ==> exists token :: IsHash(token) && Resolves(after, token, j))
  {
    DeleteInTwoWrites(past, j, between);
    var now, after := Run(Run(EMPTY, past), between), DeleteInTwo(Run(EMPTY, past), j, between).0;
    hide Run, DeleteInTwo;
    if IsActive(now.jobs[j].status) {
      TokenStays(now, after, j);
      hide *;
    } else if ValidSpec(now.jobs[j].spec) {
      SameAttemptsKeep(now, after);
      DeletionKeeps(now, after, j);
      hide JobsOk, TokensOk, TokensUnique, NumbersOk, RowsOk, OrderOk, NodesOk, DeletingOk, ValidSpec;
    } else if Inv(after) {
      AttemptRow(after, j);
    }
  }

  lemma TokenStays(now: Db, after: Db, j: string)
    requires j in now.jobs && IsActive(now.jobs[j].status) && Authorised(now, j)
    requires after == WriteDeleting(now, j)
    ensures exists token :: IsHash(token) && Resolves(after, token, j)
    ensures !Inv(after)
  {
    hide NumbersOk, RowsOk, TokensUnique, JobsOk, OrderOk, NodesOk, DeletingOk, IsHash;
    var x := now.jobs[j].attempt.value;
    assert Resolves(after, now.attempts[x].token, j);
    assert !TokenLive(after, x);
  }

  lemma DeletionKeeps(now: Db, after: Db, j: string)
    requires Inv(now) && j in now.jobs && !IsActive(now.jobs[j].status) && ValidSpec(now.jobs[j].spec)
    requires after == WriteDeleting(now, j)
    ensures JobsOk(after) && TokensOk(after) && OrderOk(after) && DeletingOk(after) && NodesOk(after)
  {
    hide NumbersOk, RowsOk, TokensUnique, ValidSpec, IsHash;
    forall k | k in after.jobs ensures JobOk(after, k, after.jobs[k]) {
      assert JobOk(now, k, now.jobs[k]);
    }
    forall x | x in after.attempts ensures TokenLive(after, x) {
      assert TokenLive(now, x);
    }
  }

  /** What an active job demanded of its node is no longer counted, and whatever happens later, the
      job is being deleted or deleted, so that it cannot be stopped or reported on any more. */
  lemma {:induction false} DeleteInTwoReleases(past: seq<Op>, j: string, between: seq<Op>, n: string, kind: Kind, later: seq<Op>)
    requires j in Run(EMPTY, past).jobs && Deletable(Run(EMPTY, past).jobs[j].status)
    ensures var now, after := Run(Run(EMPTY, past), between), DeleteInTwo(Run(EMPTY, past), j, between).0;
            && j in now.jobs
            && Load(after, n, kind) == Load(now, n, kind) - JobDemand(now.jobs[j], n, kind)
            && Leaving(Run(after, later), j)
  {
    DeleteInTwoWrites(past, j, between);
    var now, after := Run(Run(EMPTY, past), between), DeleteInTwo(Run(EMPTY, past), j, between).0;
    OrderListed(now, j);
    hide Run, Inv, Usage, Amount, DeleteInTwo, Authorised;
    UsageUpdate(now.jobs, now.order, j, now.jobs[j].(status := Deleting), n, kind);
    LeavesForGood(after, later, j);
  }

  ghost predicate Leaving(db: Db, j: string) {
    j in db.jobs && (db.jobs[j].status == Deleting || db.jobs[j].status == Deleted)
  }

  lemma StaysLeaving(db: Db, op: Op, j: string)
    requires Leaving(db, j)
    ensures Leaving(Step(db, op).0, j)
  {
    hide MaxOf, Numbers, IsHash, RevokedToken, Stale, SoundReport, ValidSpec, DistinctKeys;
  }

  lemma {:induction false} LeavesForGood(db: Db, ops: seq<Op>, j: string)
    requires Leaving(db, j)
    ensures Leaving(Run(db, ops), j)
    decreases |ops|
  {
    hide Step, Leaving;
    if ops != [] {
      LeavesForGood(db, ops[..|ops| - 1], j);
      StaysLeaving(Run(db, ops[..|ops| - 1]), ops[|ops| - 1], j);
    }
  }

  /** Such runs exist: a queued job is read for its deletion and placed on a node, and the deletion
      is written. */
  lemma DeletionOfAPlacedJob(j: string, spec: JobSpec, n: string, report: Node, x: string, assignment: string, token: string, u: string)
    requires ValidSpec(spec) && ValidNode(report) && IsHash(token)
    ensures var past := [OpUpsert(n, report, 0)] + [OpCreate(j, spec)];
            var between := [OpReserve(j, n, x, assignment, token, [u])];
            && j in Run(EMPTY, past).jobs && Deletable(Run(EMPTY, past).jobs[j].status)
            && j in Run(Run(EMPTY, past), between).jobs && IsActive(Run(Run(EMPTY, past), between).jobs[j].status)
            && !Inv(DeleteInTwo(Run(EMPTY, past), j, between).0)
  {
    var past, between := [OpUpsert(n, report, 0)] + [OpCreate(j, spec)], [OpReserve(j, n, x, assignment, token, [u])];
    Recount.RegisterAndCreate(j, spec, n, report);
    Recount.ReserveFirst(j, spec, n, report, x, assignment, token, u);
    RunOne(Run(EMPTY, past), between[0]);
    hide Run, Step, Inv, DeleteInTwo, ValidNode, ValidSpec, IsHash;
    DeleteInTwoKeepsInvIff(past, j, between);
  }

  // ---------------------------------------------------------------- giving up

  /** Both writes keep the state legal, and only release. */
  lemma {:induction false} LossReleases(db: Db, j: string)
    requires Inv(db)
    ensures Inv(LoseJob(db, j)) && Releases(db, LoseJob(db, j))
    ensures Inv(LoseAttempt(db, j)) && Releases(db, LoseAttempt(db, j))
  {
    NoChangeReleases(db);
    LoseJobReleases(db, j);
    LoseAttemptReleases(db, j);
  }

  lemma {:induction false} LoseJobReleases(db: Db, j: string)
    requires Inv(db) && Releases(db, db)
    ensures Inv(LoseJob(db, j)) && Releases(db, LoseJob(db, j))
  {
    var db' := LoseJob(db, j);
    if db' != db {
      AttemptsStay(db.attempts);
      LossEvolves(db, j);
      hide TokensOk, TokensUnique, NumbersOk, RowsOk, OrderOk, NodesOk, DeletingOk, JobsOk, JobEvolves, SameAttempts, NodesGrow,
           JobsRelease, IsHash;
      OneJobKeeps(db, db', j);
      OneJobReleases(db, db', j);
    }
  }

  lemma LossEvolves(db: Db, j: string)
    requires JobsOk(db) && j in db.jobs && Interruptible(db.jobs[j].status)
    ensures JobEvolves(db.jobs[j], LoseJob(db, j).jobs[j]) && LoseJob(db, j).jobs == db.jobs[j := LoseJob(db, j).jobs[j]]
    ensures IsActive(db.jobs[j].status) && IsActive(LoseJob(db, j).jobs[j].status)
  {
    assert JobOk(db, j, db.jobs[j]);
  }

  lemma {:induction false} LoseAttemptReleases(db: Db, j: string)
    requires Inv(db) && Releases(db, db)
    ensures Inv(LoseAttempt(db, j)) && Releases(db, LoseAttempt(db, j))
  {
    var db' := LoseAttempt(db, j);
    LossKeepsAttempts(db, j);
    JobsStay(db);
    NoJobReleases(db, db');
    hide TokensOk, TokensUnique, NumbersOk, RowsOk, OrderOk, NodesOk, DeletingOk, JobsOk, JobEvolves, NodesGrow, JobsRelease,
         SameAttempts, LoseAttempt, IsHash;
    EvolutionKeeps(db, db');
  }

  lemma LossKeepsAttempts(db: Db, j: string)
    ensures var db' := LoseAttempt(db, j);
            SameAttempts(db.attempts, db'.attempts) && db' == db.(attempts := db'.attempts)
  {
    hide RevokedToken;
  }

  /** However others interfere, giving up the selected jobs in turn keeps the state legal. */
  lemma {:induction false} LoseInTurnKeepsInv(db: Db, ids: seq<string>, rounds: seq<Round>)
    requires Inv(db)
    ensures Inv(LoseInTurn(db, ids, rounds))
    decreases |ids|
  {
    hide Inv, Run, LoseJob, LoseAttempt, Releases;
    if ids != [] {
      var round := if rounds == [] then Round([], []) else rounds[0];
      RunKeepsInv(db, round.before);
      LossReleases(Run(db, round.before), ids[0]);
      var written := LoseJob(Run(db, round.before), ids[0]);
      RunKeepsInv(written, round.between);
      LossReleases(Run(written, round.between), ids[0]);
      LoseInTurnKeepsInv(LoseAttempt(Run(written, round.between), ids[0]), ids[1..], if rounds == [] then [] else rounds[1..]);
    }
  }

  /** One turn writes a legal transition and then LOST into whatever attempt the job has by then, so
      that the two rows agree if and only if the job is LOST at that moment. */
  lemma {:induction false} LoseOneAgreesIff(db: Db, j: string, round: Round)
    requires Inv(db) && j in db.jobs
    ensures var now := Run(db, round.before);
            var later := Run(LoseJob(now, j), round.between);
            var after := LoseInTurn(db, [j], [round]);
            && j in now.jobs && CanTransition(now.jobs[j].status, LoseJob(now, j).jobs[j].status)
            && after == LoseAttempt(later, j) && j in later.jobs && after.jobs == later.jobs
            && (after.jobs[j].attempt.Some? ==>
                  (StatusUpdates.AttemptShows(after, j, after.jobs[j].status) <==> later.jobs[j].status == Lost))
  {
    hide *;
    var now := Run(db, round.before);
    JobsRemain(db, round.before, j);
    LossReleases(now, j);
    LossIsAnEdge(now, j);
    var later := Run(LoseJob(now, j), round.between);
    JobsRemain(LoseJob(now, j), round.between, j);
    OneTurn(db, j, round);
    LossAgreesIff(later, j);
  }

  lemma OneTurn(db: Db, j: string, round: Round)
    ensures LoseInTurn(db, [j], [round]) == LoseAttempt(Run(LoseJob(Run(db, round.before), j), round.between), j)
  {
    hide Run, LoseJob, LoseAttempt;
    assert [j][1..] == [] && [round][1..] == [];
  }

  lemma LossAgreesIff(later: Db, j: string)
    requires Inv(later) && j in later.jobs
    ensures var after := LoseAttempt(later, j);
            && after.jobs == later.jobs
            && (after.jobs[j].attempt.Some? ==>
                  (StatusUpdates.AttemptShows(after, j, after.jobs[j].status) <==> later.jobs[j].status == Lost))
  {
    AttemptRow(later, j);
    hide Inv, ValidSpec;
  }

  lemma LossIsAnEdge(now: Db, j: string)
    requires j in now.jobs
    ensures j in LoseJob(now, j).jobs && CanTransition(now.jobs[j].status, LoseJob(now, j).jobs[j].status)
  {
  }

  /** A running job is selected for being given up and succeeds before that is written: it shows
      SUCCEEDED, and its attempt LOST. */
  lemma SucceededAttemptIsLost(j: string, spec: JobSpec, n: string, report: Node, x: string, assignment: string, token: string, u: string)
    requires ValidSpec(spec) && ValidNode(report) && IsHash(token)
    ensures var db := Run(EMPTY, StatusUpdates.Reported1(j, spec, n, report, x, assignment, token, u, Running));
            var after := LoseInTurn(db, [j], [Round([OpCommit(j, Running, x, Succeeded)], [])]);
            && LosesJob(db, j, 1) && StatusUpdates.JobShows(after, j, Succeeded) && StatusUpdates.AttemptShows(after, j, Lost)
  {
    var past := StatusUpdates.Reported1(j, spec, n, report, x, assignment, token, u, Running);
    var db := Run(EMPTY, past);
    ReportedRunning(j, spec, n, report, x, assignment, token, u);
    ReachableInv(past);
    RunOne(db, OpCommit(j, Running, x, Succeeded));
    LoseOneAgreesIff(db, j, Round([OpCommit(j, Running, x, Succeeded)], []));
    NothingRuns(LoseJob(Run(db, [OpCommit(j, Running, x, Succeeded)]), j));
    AttemptRow(db, j);
    hide Run, Inv, ValidNode, ValidSpec, IsHash, RevokedToken, StatusUpdates.Reported1, LoseInTurn;
  }

  lemma ReportedRunning(j: string, spec: JobSpec, n: string, report: Node, x: string, assignment: string, token: string, u: string)
    requires ValidSpec(spec) && ValidNode(report) && IsHash(token)
    ensures var db := Run(EMPTY, StatusUpdates.Reported1(j, spec, n, report, x, assignment, token, u, Running));
            StatusUpdates.JobShows(db, j, Running) && db.jobs[j].attempt == Some(x) && LosesJob(db, j, 1)
  {
    ReservedShop(j, spec, n, report, x, assignment, token, u);
    hide Run, ValidNode, ValidSpec, IsHash, RevokedToken, Reserved1;
    Recount.RunMore(EMPTY, Reserved1(j, spec, n, report, x, assignment, token, u), OpCommit(j, Assigned, x, Running));
    assert CanTransition(Assigned, Running);
  }
}
