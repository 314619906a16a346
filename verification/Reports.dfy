/** Which reports about a job are accepted, status by status (internal/domain/types.go:553-571,
    internal/store/store.go:363-415), and what the other operations on jobs do to which. */
module Reports {
  import opened Domain
  import opened Fleet
  import opened Jobs

  /** Three rounds in which nobody interferes. */
  const QUIET := [Round([], []), Round([], []), Round([], [])]

  /** Statuses in which a report of another status is accepted. */
  function From(to: JobStatus): set<JobStatus> {
    match to
    case Queued => {}
    case Assigned => {}
    case PullingImage => {Assigned}
    case Starting => {Assigned, PullingImage}
    case Running => {Assigned, Starting, Lost}
    case Stopping => {Assigned, PullingImage, Starting, Running, Lost}
    case Succeeded => {Running, Lost}
    case Failed => {Assigned, PullingImage, Starting, Running, Stopping, Lost}
    case Cancelled => {Stopping, Lost}
    case Lost => {Assigned, PullingImage, Starting, Running, Stopping}
    case Deleting => {Succeeded, Failed, Cancelled}
    case Deleted => {Deleting}
  }

  /** Job and attempt row both show the status, and everything else is as it was. */
  ghost predicate RowsShow(db: Db, db': Db, j: string, to: JobStatus)
    requires j in db.jobs && db.jobs[j].attempt.Some? && db.jobs[j].attempt.value in db.attempts
  {
    var x := db.jobs[j].attempt.value;
    && db'.jobs == db.jobs[j := db.jobs[j].(status := to, observed := to)]
    && db'.attempts.Keys == db.attempts.Keys
    && (forall y :: y in db.attempts && y != x ==> db'.attempts[y] == db.attempts[y])
    && db'.attempts[x] == db.attempts[x].(status := to, token := db'.attempts[x].token)
    && (to !in {Succeeded, Failed, Cancelled} ==> db'.attempts[x].token == db.attempts[x].token)
    && (to in {Succeeded, Failed, Cancelled} ==> !IsHash(db'.attempts[x].token))
    && db' == db.(jobs := db'.jobs, attempts := db'.attempts)
  }

  /** The job answers to the report: it shows it already, or has an attempt and may take it. */
  ghost predicate Takes(job: Job, to: JobStatus) {
    if job.status == to then job.observed == to || job.attempt.Some? else job.attempt.Some? && job.status in From(to)
  }

  lemma TableIs(from: JobStatus, to: JobStatus)
    ensures CanTransition(from, to) <==> from == to || from in From(to) || (from == Queued && to in {Assigned, Cancelled, Deleting})
  {
  }

  /** A round in which nobody interferes. */
  lemma QuietRound(db: Db, j: string, to: JobStatus, rounds: seq<Round>)
    requires rounds != [] && rounds[0] == Round([], [])
    ensures UpdateLoop(db, j, to, rounds)
            == if j !in db.jobs then (db, NotFound)
               else if db.jobs[j].status == to && db.jobs[j].observed == to then (db, Done)
               else if !CanTransition(db.jobs[j].status, to) then (db, Conflict)
               else
                 var committed := CommitStatus(db, j, db.jobs[j].status, CurrentAttempt(db.jobs[j]), to);
                 if committed.1 == Retry then UpdateLoop(db, j, to, rounds[1..]) else committed
  {
    NothingRuns(db);
    RetryChangesNothing(db, j, if j in db.jobs then db.jobs[j].status else to,
                        if j in db.jobs then CurrentAttempt(db.jobs[j]) else "", to);
    hide Run, CanTransition, CommitStatus;
  }

  /** Three quiet rounds do what one does. */
  lemma QuietLoop(db: Db, j: string, to: JobStatus)
    requires j in db.jobs && (db.jobs[j].attempt.Some? ==>
               db.jobs[j].attempt.value in db.attempts && db.attempts[db.jobs[j].attempt.value].job == j)
    ensures var job := db.jobs[j];
            UpdateLoop(db, j, to, QUIET)
            == if job.status == to && job.observed == to then (db, Done)
               else if !CanTransition(job.status, to) || job.attempt.None? then (db, Conflict)
               else CommitStatus(db, j, job.status, job.attempt.value, to)
  {
    hide CanTransition, Reported, Run, UpdateLoop;
    QuietRound(db, j, to, QUIET);
    QuietRound(db, j, to, QUIET[1..]);
    QuietRound(db, j, to, QUIET[2..]);
    NoRounds(db, j, to);
    assert QUIET[1..][1..] == QUIET[2..] && QUIET[2..][1..] == [];
  }

  lemma NoRounds(db: Db, j: string, to: JobStatus)
    ensures UpdateLoop(db, j, to, []) == (db, Conflict)
  {
  }

  lemma CommitShows(db: Db, j: string, to: JobStatus)
    requires j in db.jobs && db.jobs[j].attempt.Some?
    requires db.jobs[j].attempt.value in db.attempts && db.attempts[db.jobs[j].attempt.value].job == j
    ensures var r := CommitStatus(db, j, db.jobs[j].status, db.jobs[j].attempt.value, to);
            r.1 == Done && RowsShow(db, r.0, j, to)
  {
    RevokedIsNoHash(db.jobs[j].attempt.value);
    hide RevokedToken, IsHash;
  }

  lemma ReachableRow(past: seq<Op>, j: string)
    requires j in Run(EMPTY, past).jobs
    ensures var db := Run(EMPTY, past); var job := db.jobs[j];
            && (job.attempt.Some? ==> job.attempt.value in db.attempts && db.attempts[job.attempt.value].job == j)
            && (job.status == Queued ==> job.attempt.None?)
            && (job.status in {Assigned, PullingImage, Starting, Running, Stopping, Lost} ==> job.attempt.Some?)
  {
    EmptyInv();
    RunKeepsInv(EMPTY, past);
    hide Run, TokensOk, TokensUnique, NumbersOk, RowsOk, OrderOk, NodesOk, DeletingOk, ValidSpec;
    var db := Run(EMPTY, past);
    assert JobOk(db, j, db.jobs[j]);
  }

  /** In every reachable state an undisturbed report succeeds exactly if the job takes it; then job
      and attempt show it and nothing else changes, and otherwise nothing changes at all. */
  lemma {:induction false} ReportsTaken(past: seq<Op>, j: string, to: JobStatus)
    requires j in Run(EMPTY, past).jobs
    ensures var db := Run(EMPTY, past);
            var job, r := db.jobs[j], UpdateLoop(db, j, to, QUIET);
            && (r.1 == Done <==> Takes(job, to)) && (r.1 != Done ==> r == (db, Conflict))
            && (r.1 == Done && job.status == job.observed == to ==> r.0 == db)
            && (r.1 == Done && !(job.status == job.observed == to) ==>
                  job.attempt.Some? && job.attempt.value in db.attempts && RowsShow(db, r.0, j, to))
  {
    var db := Run(EMPTY, past);
    ReachableRow(past, j);
    QuietLoop(db, j, to);
    TableIs(db.jobs[j].status, to);
    hide Run, UpdateLoop, CanTransition, CommitStatus, RowsShow;
    if db.jobs[j].attempt.Some? {
      CommitShows(db, j, to);
    }
  }

  /** A status update leads from a reachable state to a reachable one. */
  lemma StaysReachable(past: seq<Op>, j: string, to: JobStatus) returns (more: seq<Op>)
    ensures Run(EMPTY, more) == UpdateLoop(Run(EMPTY, past), j, to, QUIET).0
  {
    hide *;
    var others, commit := UpdateIsOneLegalCommit(Run(EMPTY, past), j, to, QUIET);
    RunAppend(EMPTY, past, others + commit);
    more := past + (others + commit);
    Explained(Run(EMPTY, past), j, to, UpdateLoop(Run(EMPTY, past), j, to, QUIET).0, UpdateLoop(Run(EMPTY, past), j, to, QUIET).1,
              others, commit);
  }

  lemma Explained(db: Db, j: string, to: JobStatus, db': Db, outcome: Outcome, others: seq<Op>, commit: seq<Op>)
    requires Explains(db, j, to, db', outcome, others, commit)
    ensures db' == Run(db, others + commit)
  {
  }

  /** In the state after `past`, the job and its current attempt both show the status. */
  ghost predicate Shows(past: seq<Op>, j: string, status: JobStatus) {
    var db := Run(EMPTY, past);
    && j in db.jobs && db.jobs[j].status == db.jobs[j].observed == status
    && db.jobs[j].attempt.Some? && db.jobs[j].attempt.value in db.attempts
    && db.attempts[db.jobs[j].attempt.value].status == status
  }

  /** One report that is taken. */
  lemma {:induction false} NextReport(past: seq<Op>, j: string, to: JobStatus) returns (more: seq<Op>)
    requires var db := Run(EMPTY, past);
             j in db.jobs && db.jobs[j].attempt.Some? && db.jobs[j].status in From(to) && db.jobs[j].status != to
    ensures UpdateLoop(Run(EMPTY, past), j, to, QUIET) == (Run(EMPTY, more), Done) && Shows(more, j, to)
  {
    more := StaysReachable(past, j, to);
    ReportsTaken(past, j, to);
    hide Run, UpdateLoop, From;
  }

  /** A job that is ASSIGNED takes all the reports of a run that goes well, one after the other. */
  lemma {:induction false} GoodRun(past: seq<Op>, j: string) returns (a: seq<Op>, b: seq<Op>, c: seq<Op>, d: seq<Op>)
    requires j in Run(EMPTY, past).jobs && Run(EMPTY, past).jobs[j].status == Assigned
    ensures UpdateLoop(Run(EMPTY, past), j, PullingImage, QUIET) == (Run(EMPTY, a), Done) && Shows(a, j, PullingImage)
    ensures UpdateLoop(Run(EMPTY, a), j, Starting, QUIET) == (Run(EMPTY, b), Done) && Shows(b, j, Starting)
    ensures UpdateLoop(Run(EMPTY, b), j, Running, QUIET) == (Run(EMPTY, c), Done) && Shows(c, j, Running)
    ensures UpdateLoop(Run(EMPTY, c), j, Succeeded, QUIET) == (Run(EMPTY, d), Done) && Shows(d, j, Succeeded)
  {
    ReachableRow(past, j);
    hide Run, UpdateLoop;
    a := NextReport(past, j, PullingImage);
    b := NextReport(a, j, Starting);
    c := NextReport(b, j, Running);
    d := NextReport(c, j, Succeeded);
  }

  /** A race lost is not the end: the update starts over from what the others have left. */
  lemma LostRaceIsRetried(db: Db, j: string, to: JobStatus, rounds: seq<Round>)
    requires rounds != [] && j in Run(db, rounds[0].before).jobs
    requires var job, now := Run(db, rounds[0].before).jobs[j], Run(Run(db, rounds[0].before), rounds[0].between);
             && !(job.status == job.observed == to) && (job.status == to || job.status in From(to))
             && (j !in now.jobs || now.jobs[j].status != job.status || now.jobs[j].attempt != job.attempt || job.attempt.None?)
             && (job.attempt.None? && j in now.jobs ==> now.jobs[j].attempt != Some(""))
    ensures UpdateLoop(db, j, to, rounds) == UpdateLoop(Run(Run(db, rounds[0].before), rounds[0].between), j, to, rounds[1..])
  {
    var seen := Run(db, rounds[0].before);
    var now, job := Run(seen, rounds[0].between), seen.jobs[j];
    TableIs(job.status, to);
    CommitRetries(now, j, job.status, CurrentAttempt(job), to);
    hide Run, CanTransition, CommitStatus, From;
  }

  // ---------------------------------------------------------------- the other operations, status by status

  /** Which jobs are rerun, stopped, put to deletion and given up, and what their rows show then. */
  lemma JobsByStatus(db: Db, j: string, lostBefore: int)
    requires j in db.jobs
    ensures var job, r := db.jobs[j], Rerun(db, j);
            && (r.1 == Done <==> job.status in {Succeeded, Failed, Cancelled})
            && (r.1 == Done ==> r.0 == db.(jobs := db.jobs[j := Job(job.id, job.spec, Queued, Queued, None, None)]))
            && (r.1 != Done ==> r == (db, Conflict))
    ensures var job, r := db.jobs[j], RequestStop(db, j);
            && (r.1 == Done <==> job.status in {Queued, Assigned, PullingImage, Starting, Running, Lost})
            && (r.1 == Done ==> r.0.jobs == db.jobs[j := if job.status == Queued then job.(status := Cancelled, observed := Cancelled)
                                                         else job.(status := Stopping)])
            && (r.1 != Done ==> r == (db, Conflict))
    ensures var job, r := db.jobs[j], MarkDeleting(db, j);
            && (r.1 == Conflict <==> job.status in {Assigned, PullingImage, Starting, Running, Stopping, Lost})
            && (r.1 != Conflict ==>
                  r == (db.(jobs := db.jobs[j := if job.status == Deleted then job else job.(status := Deleting)],
                            deleting := db.deleting + {j}), Done))
    ensures LosesJob(db, j, lostBefore) <==>
              var job := db.jobs[j];
              && job.status in {Assigned, PullingImage, Starting, Running, Stopping}
              && job.node.Some? && job.node.value in db.nodes && !db.nodes[job.node.value].removed
              && db.nodes[job.node.value].heartbeat < lostBefore
  {
    assert db.jobs[j := db.jobs[j]] == db.jobs;
    hide SetAttemptStatus;
  }

  /** A job is created, queued and last in order, exactly if its id is new and it asks for CPU and memory. */
  lemma CreationIs(db: Db, j: string, spec: JobSpec)
    ensures var r := CreateJob(db, j, spec);
            && (r.1 == Done <==> j !in db.jobs && spec.resources.cpu > 0 && spec.resources.memory > 0)
            && r.0 == if r.1 == Done then db.(jobs := db.jobs[j := Job(j, spec, Queued, Queued, None, None)], order := db.order + [j])
                      else db
  {
  }

  /** A reservation succeeds exactly for a queued job, a known node and new ids; it assigns the job and
      adds an attempt and an assignment, the attempt with the number of attempts so far and one more. */
  lemma {:induction false} ReservationIs(db: Db, j: string, n: string, attempt: string, assignment: string, token: string,
                                         gpus: seq<string>)
    requires Inv(db)
    ensures var r := Reserve(db, j, n, attempt, assignment, token, gpus);
            && (r.1 == Done <==>
                  && j in db.jobs && db.jobs[j].status == Queued && n in db.nodes
                  && attempt !in db.attempts && assignment !in db.assignments
                  && forall x :: x in db.attempts ==> db.attempts[x].token != token && db.attempts[x].assignment != assignment)
            && (r.1 != Done ==> r.0 == db)
            && (r.1 == Done ==>
                  r.0 == db.(jobs := db.jobs[j := db.jobs[j].(status := Assigned, node := Some(n), attempt := Some(attempt))],
                             attempts := db.attempts[attempt := Attempt(j, |AttemptsOf(db, j)| + 1, n, assignment, gpus, Assigned, token)],
                             assignments := db.assignments[assignment := Assignment(j, attempt, n, gpus)]))
  {
    NumberOfAttempts(db, j);
    hide Inv, MaxOf, Numbers;
  }

  ghost function AttemptsOf(db: Db, j: string): set<string> {
    set x | x in db.attempts && db.attempts[x].job == j
  }

  /** The greatest attempt number is the number of attempts. */
  lemma {:induction false} NumberOfAttempts(db: Db, j: string)
    requires Inv(db)
    ensures MaxOf(Numbers(db.attempts, j)) == |AttemptsOf(db, j)|
  {
    hide JobsOk, TokensOk, TokensUnique, RowsOk, OrderOk, NodesOk, DeletingOk, MaxOf;
    assert Consecutive(Numbers(db.attempts, j));
    UpTo(Numbers(db.attempts, j), MaxOf(Numbers(db.attempts, j)));
    ImageSize(db, AttemptsOf(db, j));
    assert (set x | x in AttemptsOf(db, j) :: db.attempts[x].number) == Numbers(db.attempts, j);
  }

  lemma {:induction false} UpTo(s: set<nat>, m: nat)
    requires forall n: nat :: n in s <==> 1 <= n <= m
    ensures |s| == m
    decreases m
  {
    if m == 0 {
      assert s == {};
    } else {
      UpTo(s - {m}, m - 1);
    }
  }

  lemma {:induction false} ImageSize(db: Db, xs: set<string>)
    requires forall x :: x in xs ==> x in db.attempts
    requires forall x, y :: x in xs && y in xs && db.attempts[x].number == db.attempts[y].number ==> x == y
    ensures |set x | x in xs :: db.attempts[x].number| == |xs|
    decreases xs
  {
    if xs != {} {
      var y :| y in xs;
      var rest := xs - {y};
      ImageSize(db, rest);
      assert (set x | x in xs :: db.attempts[x].number) == (set x | x in rest :: db.attempts[x].number) + {db.attempts[y].number};
    }
  }

  // ---------------------------------------------------------------- nodes

  /** Packages and GPUs of a report have names of their own. */
  ghost predicate NamesDiffer(report: Node) {
    && (forall i, k :: 0 <= i < k < |report.packages| ==> report.packages[i].id != report.packages[k].id)
    && (forall i, k :: 0 <= i < k < |report.gpus| ==> report.gpus[i].uuid != report.gpus[k].uuid)
  }

  /** A heartbeat replaces the row of a known node, which keeps DRAINING and its operator's labels; a
      registration replaces any row, which keeps whether it was removed. */
  lemma ReportsAreStored(db: Db, n: string, report: Node, now: int)
    ensures var r := Heartbeat(db, n, report, now);
            && (r.1 == Done <==> n in db.nodes && !db.nodes[n].removed && NamesDiffer(report))
            && (r.1 != Done ==> r.0 == db)
            && (r.1 == Done ==>
                  var row := db.nodes[n];
                  var status := if row.node.status == Draining then Draining else report.status;
                  r.0 == db.(nodes := db.nodes[n := NodeRow(report.(id := n, status := status), now, false, row.labels)]))
    ensures var r := UpsertNode(db, n, report, now);
            && (r.1 == Done <==> NamesDiffer(report)) && (r.1 != Done ==> r.0 == db)
            && (r.1 == Done ==>
                  && n in r.0.nodes && r.0 == db.(nodes := db.nodes[n := r.0.nodes[n]])
                  && r.0.nodes[n].node == report.(id := n) && r.0.nodes[n].heartbeat == now
                  && (n in db.nodes ==> r.0.nodes[n].removed == db.nodes[n].removed && r.0.nodes[n].labels == db.nodes[n].labels)
                  && (n !in db.nodes ==> !r.0.nodes[n].removed && r.0.nodes[n].labels == None))
  {
  }

  /** What an operator does to a node that is there, and that one with jobs on it is not deleted. */
  lemma OperatorsDo(db: Db, n: string, status: NodeStatus, labels: map<string, string>)
    ensures var there := n in db.nodes && !db.nodes[n].removed;
            && (!there ==> SetNodeStatus(db, n, status) == UpdateNodeMetadata(db, n, labels) == DeleteNode(db, n) == (db, NotFound))
            && (there ==>
                  && SetNodeStatus(db, n, status)
                     == (db.(nodes := db.nodes[n := db.nodes[n].(node := db.nodes[n].node.(status := status))]), Done)
                  && UpdateNodeMetadata(db, n, labels) == (db.(nodes := db.nodes[n := db.nodes[n].(labels := Some(labels))]), Done)
                  && (DeleteNode(db, n).1 == Done <==>
                        !exists j :: j in db.jobs && db.jobs[j].node == Some(n)
                                     && db.jobs[j].status in {Assigned, PullingImage, Starting, Running, Stopping, Lost})
                  && (DeleteNode(db, n).1 != Done ==> DeleteNode(db, n) == (db, Conflict))
                  && (DeleteNode(db, n).1 == Done ==>
                        && n in DeleteNode(db, n).0.nodes && DeleteNode(db, n).0.nodes[n].removed
                        && DeleteNode(db, n).0.nodes[n].node.status == Offline && DeleteNode(db, n).0.nodes[n].node.gpus == []
                        && DeleteNode(db, n).0 == db.(nodes := db.nodes[n := DeleteNode(db, n).0.nodes[n]])))
  {
  }

  // ---------------------------------------------------------------- nodes that report

  /** After a heartbeat at `now`, marking stale nodes with limits up to `now` leaves the node and
      the jobs on it alone. */
  lemma ReportingKeepsAlive(db: Db, n: string, report: Node, now: int, offlineBefore: int, lostBefore: int)
    requires Heartbeat(db, n, report, now).1 == Done && offlineBefore <= now && lostBefore <= now
    ensures var reported := Heartbeat(db, n, report, now).0;
            var after := MarkStaleNodes(reported, offlineBefore, lostBefore);
            && n in after.nodes && after.nodes[n] == reported.nodes[n]
            && (forall j :: j in db.jobs && db.jobs[j].node == Some(n) ==> j in after.jobs && after.jobs[j] == db.jobs[j])
  {
    hide DistinctKeys;
  }

  /** A node silent since before the limits is offline then, and the jobs that occupy it are lost. */
  lemma SilenceGivesUp(db: Db, n: string, offlineBefore: int, lostBefore: int)
    requires n in db.nodes && !db.nodes[n].removed
    ensures var after := MarkStaleNodes(db, offlineBefore, lostBefore);
            && n in after.nodes
            && (db.nodes[n].heartbeat < offlineBefore && db.nodes[n].node.status in {Online, Degraded} ==>
                  after.nodes[n] == db.nodes[n].(node := db.nodes[n].node.(status := Offline)))
            && (forall j :: j in db.jobs && db.jobs[j].node == Some(n) && db.nodes[n].heartbeat < lostBefore
                            && db.jobs[j].status in {Assigned, PullingImage, Starting, Running, Stopping} ==>
                  j in after.jobs && after.jobs[j] == db.jobs[j].(status := Lost, observed := Lost))
  {
  }
}
