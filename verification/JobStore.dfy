/** The store's job tables, updated statement by statement; each method performs the
    operation that module Jobs specifies. */
module JobStore {
  import opened Domain
  import opened Fleet
  import J = Jobs

  function LostJobs(jobs: map<string, Job>, lost: set<string>): map<string, Job> {
    map j | j in jobs :: if j in lost then jobs[j].(status := Lost, observed := Lost) else jobs[j]
  }

  ghost function LostAttempts(jobs: map<string, Job>, attempts: map<string, J.Attempt>, lost: set<string>): map<string, J.Attempt> {
    map x | x in attempts ::
      if exists j :: j in lost && j in jobs && jobs[j].attempt == Some(x) then attempts[x].(status := Lost) else attempts[x]
  }

  /** The stale-node operation taken apart: marking offline keeps heartbeats, and the jobs given
      up are the ones selected. */
  lemma StaleParts(db: J.Db, offlineBefore: int, lostBefore: int, lost: set<string>)
    requires forall j :: j in lost <==> J.LosesJob(J.MarkOffline(db, offlineBefore), j, lostBefore)
    ensures J.MarkStaleNodes(db, offlineBefore, lostBefore)
            == var mid := J.MarkOffline(db, offlineBefore);
               mid.(jobs := LostJobs(mid.jobs, lost), attempts := LostAttempts(mid.jobs, mid.attempts, lost))
  {
    forall j ensures j in lost <==> J.LosesJob(db, j, lostBefore) {
    }
  }

  /** Giving up jobs in turn, undisturbed, is giving them all up. */
  lemma {:induction false} GiveUpAll(db: J.Db, now: J.Db, ids: seq<string>, gone: set<string>)
    requires forall i, k :: 0 <= i < k < |ids| ==> ids[i] != ids[k]
    requires forall j :: j in ids ==> j !in gone && j in db.jobs && J.Interruptible(db.jobs[j].status)
    requires now == db.(jobs := LostJobs(db.jobs, gone), attempts := LostAttempts(db.jobs, db.attempts, gone))
    ensures var lost := gone + set j | j in ids;
            J.LoseInTurn(now, ids, []) == db.(jobs := LostJobs(db.jobs, lost), attempts := LostAttempts(db.jobs, db.attempts, lost))
    decreases |ids|
  {
    hide LostJobs, LostAttempts, J.Interruptible;
    if ids == [] {
      assert gone + (set j | j in ids) == gone;
    } else {
      var j, rest := ids[0], ids[1..];
      var more := gone + {j};
      assert j in ids && forall k :: k in rest ==> k in ids;
      J.NothingRuns(now);
      J.NothingRuns(J.LoseJob(now, j));
      OneMoreLost(db, gone, j);
      var next := J.LoseAttempt(J.LoseJob(now, j), j);
      GiveUpAll(db, next, rest, more);
      assert more + (set k | k in rest) == gone + set k | k in ids;
    }
  }

  lemma OneMoreLost(db: J.Db, gone: set<string>, j: string)
    requires j in db.jobs && j !in gone && J.Interruptible(db.jobs[j].status)
    ensures var now := db.(jobs := LostJobs(db.jobs, gone), attempts := LostAttempts(db.jobs, db.attempts, gone));
            J.LoseAttempt(J.LoseJob(now, j), j)
            == db.(jobs := LostJobs(db.jobs, gone + {j}), attempts := LostAttempts(db.jobs, db.attempts, gone + {j}))
  {
  }

  lemma {:induction false} QuietLoss(db: J.Db, offlineBefore: int, lostBefore: int, ids: seq<string>)
    requires forall j :: j in ids <==> J.LosesJob(J.MarkOffline(db, offlineBefore), j, lostBefore)
    requires forall i, k :: 0 <= i < k < |ids| ==> ids[i] != ids[k]
    ensures J.LoseInTurn(J.MarkOffline(db, offlineBefore), ids, []) == J.MarkStaleNodes(db, offlineBefore, lostBefore)
  {
    var mid := J.MarkOffline(db, offlineBefore);
    StaleParts(db, offlineBefore, lostBefore, set j | j in ids);
    assert LostJobs(mid.jobs, {}) == mid.jobs && LostAttempts(mid.jobs, mid.attempts, {}) == mid.attempts;
    GiveUpAll(mid, mid, ids, {});
    assert {} + (set j | j in ids) == set j | j in ids;
  }

  function Later(rounds: seq<J.Round>, k: nat): seq<J.Round> {
    if k < |rounds| then rounds[k..] else []
  }

  class Store {
    var jobs: map<string, Job>
    var order: seq<string>
    var attempts: map<string, J.Attempt>
    var assignments: map<string, J.Assignment>
    var nodes: map<string, J.NodeRow>
    var deleting: set<string>

    ghost function Tables(): J.Db
      reads this
    {
      J.Db(jobs, order, attempts, assignments, nodes, deleting)
    }

    constructor ()
      ensures Tables() == J.EMPTY
    {
      jobs, order, attempts, assignments, nodes, deleting := map[], [], map[], map[], map[], {};
    }

    method CreateJob(j: string, spec: JobSpec) returns (outcome: J.Outcome)
      modifies this`jobs, this`order
      ensures (Tables(), outcome) == J.CreateJob(old(Tables()), j, spec)
    {
      if j in jobs || !J.ValidSpec(spec) {
        return J.Refused;
      }
      jobs := jobs[j := Job(j, spec, Queued, Queued, None, None)];
      order := order + [j];
      return J.Done;
    }

    /** SELECT COALESCE(MAX(attempt_number), 0) FROM job_attempts WHERE job_id = j */
    method MaxAttemptNumber(j: string) returns (m: nat)
      ensures m == J.MaxOf(J.Numbers(attempts, j))
    {
      m := 0;
      var rest := attempts.Keys;
      while rest != {}
        invariant rest <= attempts.Keys
        invariant forall x :: x in attempts && x !in rest && attempts[x].job == j ==> attempts[x].number <= m
        invariant m > 0 ==> m in J.Numbers(attempts, j)
        decreases rest
      {
        var x :| x in rest;
        rest := rest - {x};
        if attempts[x].job == j && attempts[x].number > m {
          m := attempts[x].number;
          J.NumbersHas(attempts, x);
        }
      }
      ghost var numbers := J.Numbers(attempts, j);
      assert forall n :: n in numbers ==> n <= m;
    }

    method ReserveJob(j: string, node: string, attempt: string, assignment: string, token: string, gpus: seq<string>)
        returns (outcome: J.Outcome)
      modifies this`jobs, this`attempts, this`assignments
      ensures (Tables(), outcome) == J.Reserve(old(Tables()), j, node, attempt, assignment, token, gpus)
    {
      if j !in jobs || jobs[j].status != Queued {
        return J.Conflict;
      }
      // foreign key, primary keys and unique columns
      if node !in nodes || attempt in attempts || assignment in assignments
         || exists x :: x in attempts && (attempts[x].token == token || attempts[x].assignment == assignment) {
        return J.Refused;
      }
      jobs := jobs[j := jobs[j].(status := Assigned, node := Some(node), attempt := Some(attempt))];
      var number := MaxAttemptNumber(j);
      attempts := attempts[attempt := J.Attempt(j, number + 1, node, assignment, gpus, Assigned, token)];
      assignments := assignments[assignment := J.Assignment(j, attempt, node, gpus)];
      return J.Done;
    }

    method WriteStatus(j: string, attempt: string, to: JobStatus)
      requires j in jobs && attempt in attempts
      modifies this`jobs, this`attempts
      ensures jobs == old(jobs)[j := old(jobs)[j].(status := to, observed := to)]
      ensures attempts == old(attempts)[attempt := J.Reported(old(attempts)[attempt], attempt, to)]
    {
      jobs := jobs[j := jobs[j].(status := to, observed := to)];
      attempts := attempts[attempt := J.Reported(attempts[attempt], attempt, to)];
    }

    method CommitStatus(j: string, from: JobStatus, attempt: string, to: JobStatus) returns (outcome: J.Outcome)
      modifies this`jobs, this`attempts
      ensures (Tables(), outcome) == J.CommitStatus(old(Tables()), j, from, attempt, to)
    {
      hide J.CommitStatus, J.Reported;
      if j !in jobs || jobs[j].status != from || jobs[j].attempt != Some(attempt) {
        J.CommitRetries(Tables(), j, from, attempt, to);
        return J.Retry;
      }
      if attempt !in attempts || attempts[attempt].job != j {
        J.CommitConflicts(Tables(), j, from, attempt, to);
        return J.Conflict;
      }
      J.CommitWrites(Tables(), j, from, attempt, to);
      WriteStatus(j, attempt, to);
      return J.Done;
    }

    method RerunJob(j: string) returns (outcome: J.Outcome)
      modifies this`jobs
      ensures (Tables(), outcome) == J.Rerun(old(Tables()), j)
    {
      if j !in jobs || !IsTerminal(jobs[j].status) {
        return J.Conflict;
      }
      jobs := jobs[j := jobs[j].(status := Queued, observed := Queued, node := None, attempt := None)];
      return J.Done;
    }

    /** Reads the job, and then writes its row and that of its attempt, whatever other clients have
        done `between`; only the statement that cancels a queued job looks at the status again. */
    method RequestStop(j: string, between: seq<J.Op>) returns (outcome: J.Outcome)
      modifies this
      ensures (Tables(), outcome) == J.StopInTwo(old(Tables()), j, between)
      ensures between == [] ==> (Tables(), outcome) == J.RequestStop(old(Tables()), j)
      decreases if between == [] then 0 else 2, 2
    {
      hide J.Run;
      J.NothingRuns(Tables());
      if j !in jobs {
        return J.NotFound;
      }
      var job := jobs[j];
      if job.status == Queued {
        Interfere(between);
        if j in jobs && jobs[j].status == Queued {
          jobs := jobs[j := jobs[j].(status := Cancelled, observed := Cancelled)];
        }
        return J.Done;
      }
      if J.Stoppable(job.status) {
        Interfere(between);
        if j in jobs {
          jobs := jobs[j := jobs[j].(status := Stopping)];
          if job.attempt.Some? && job.attempt.value in attempts && attempts[job.attempt.value].job == j {
            attempts := attempts[job.attempt.value := attempts[job.attempt.value].(status := Stopping)];
          }
        }
        return J.Done;
      }
      return J.Conflict;
    }

    /** Reads the job, and then writes its row, whatever other clients have done `between`. */
    method MarkDeleting(j: string, between: seq<J.Op>) returns (outcome: J.Outcome)
      modifies this
      ensures (Tables(), outcome) == J.DeleteInTwo(old(Tables()), j, between)
      ensures between == [] ==> (Tables(), outcome) == J.MarkDeleting(old(Tables()), j)
      decreases if between == [] then 0 else 2, 2
    {
      hide J.Run;
      J.NothingRuns(Tables());
      if j !in jobs {
        return J.NotFound;
      }
      if IsActive(jobs[j].status) {
        return J.Conflict;
      }
      if jobs[j].status == Deleted || jobs[j].status == Deleting {
        deleting := deleting + {j};
        return J.Done;
      }
      Interfere(between);
      if j in jobs {
        jobs := jobs[j := jobs[j].(status := Deleting)];
        deleting := deleting + {j};
      }
      return J.Done;
    }

    method MarkDeleted(j: string) returns (outcome: J.Outcome)
      modifies this`jobs
      ensures (Tables(), outcome) == J.MarkDeleted(old(Tables()), j)
    {
      if j in jobs {
        jobs := jobs[j := jobs[j].(status := Deleted, observed := Deleted, spec := J.BLANK_SPEC)];
      }
      return J.Done;
    }

    /** Gives up a job, if its status still allows it. */
    method LoseJob(j: string)
      modifies this`jobs
      ensures Tables() == J.LoseJob(old(Tables()), j)
    {
      if j in jobs && J.Interruptible(jobs[j].status) {
        jobs := jobs[j := jobs[j].(status := Lost, observed := Lost)];
      }
    }

    /** Gives up the attempt that the job has by now. */
    method LoseAttempt(j: string)
      modifies this`attempts
      ensures Tables() == J.LoseAttempt(old(Tables()), j)
    {
      if j in jobs {
        attempts := map x | x in attempts ::
          if jobs[j].attempt == Some(x) then attempts[x].(status := Lost) else attempts[x];
      }
    }

    method MarkOffline(offlineBefore: int)
      modifies this`nodes
      ensures Tables() == J.MarkOffline(old(Tables()), offlineBefore)
    {
      nodes := map n | n in nodes ::
        if !nodes[n].removed && nodes[n].heartbeat < offlineBefore && nodes[n].node.status in {Online, Degraded}
        then nodes[n].(node := nodes[n].node.(status := Offline)) else nodes[n];
    }

    /** The jobs on nodes that have been silent for too long. */
    method SelectLost(lostBefore: int) returns (ids: seq<string>)
      ensures forall j :: j in ids <==> J.LosesJob(Tables(), j, lostBefore)
      ensures forall i, k :: 0 <= i < k < |ids| ==> ids[i] != ids[k]
    {
      ids := [];
      var rest := jobs.Keys;
      while rest != {}
        invariant rest <= jobs.Keys
        invariant forall j :: j in ids <==> j !in rest && J.LosesJob(Tables(), j, lostBefore)
        invariant forall i, k :: 0 <= i < k < |ids| ==> ids[i] != ids[k]
        decreases rest
      {
        var j :| j in rest;
        rest := rest - {j};
        if J.Interruptible(jobs[j].status) && jobs[j].node.Some? && jobs[j].node.value in nodes
           && !nodes[jobs[j].node.value].removed && nodes[jobs[j].node.value].heartbeat < lostBefore {
          ids := ids + [j];
        }
      }
    }

    /** Marks silent nodes offline, selects the jobs to give up, and then updates each job and its
        attempt, with what other clients do in between. */
    method MarkStaleNodes(offlineBefore: int, lostBefore: int, between: seq<J.Op>, rounds: seq<J.Round>)
        returns (ids: seq<string>)
      modifies this
      ensures var selected := J.Run(J.MarkOffline(old(Tables()), offlineBefore), between);
              && (forall j :: j in ids <==> J.LosesJob(selected, j, lostBefore))
              && (forall i, k :: 0 <= i < k < |ids| ==> ids[i] != ids[k])
              && Tables() == J.LoseInTurn(selected, ids, rounds)
      ensures between == [] && rounds == [] ==> Tables() == J.MarkStaleNodes(old(Tables()), offlineBefore, lostBefore)
      decreases if between == [] && rounds == [] then 0 else 2, 2
    {
      MarkOffline(offlineBefore);
      Interfere(between);
      ghost var selected := Tables();
      ids := SelectLost(lostBefore);
      GiveUp(ids, rounds);
      if between == [] && rounds == [] {
        J.NothingRuns(J.MarkOffline(old(Tables()), offlineBefore));
        QuietLoss(old(Tables()), offlineBefore, lostBefore, ids);
      }
    }

    method GiveUp(ids: seq<string>, rounds: seq<J.Round>)
      modifies this
      ensures Tables() == J.LoseInTurn(old(Tables()), ids, rounds)
      decreases if rounds == [] then 0 else 2, 1
    {
      hide J.Run, J.LoseJob, J.LoseAttempt;
      for k := 0 to |ids|
        invariant J.LoseInTurn(old(Tables()), ids, rounds) == J.LoseInTurn(Tables(), ids[k..], Later(rounds, k))
      {
        ghost var round := if k < |rounds| then rounds[k] else J.Round([], []);
        J.NothingRuns(Tables());
        if k < |rounds| {
          Interfere(rounds[k].before);
        }
        LoseJob(ids[k]);
        J.NothingRuns(Tables());
        if k < |rounds| {
          Interfere(rounds[k].between);
        }
        LoseAttempt(ids[k]);
        assert ids[k..][1..] == ids[k + 1..];
      }
    }

    method AcceptAssignment(node: string, assignment: string) returns (outcome: J.Outcome)
      modifies this`attempts
      ensures (Tables(), outcome) == J.AcceptAssignment(old(Tables()), node, assignment)
    {
      if assignment !in assignments || assignments[assignment].node != node {
        return J.NotFound;
      }
      attempts := map x | x in attempts ::
        if attempts[x].assignment == assignment then attempts[x].(status := Starting) else attempts[x];
      return J.Done;
    }

    method Heartbeat(n: string, report: Node, now: int) returns (outcome: J.Outcome)
      modifies this`nodes
      ensures (Tables(), outcome) == J.Heartbeat(old(Tables()), n, report, now)
    {
      if n !in nodes || nodes[n].removed {
        return J.NotFound;
      }
      if !J.DistinctKeys(report) {
        return J.Refused;
      }
      var status := report.status;
      if nodes[n].node.status == Draining {
        status := Draining;
      }
      nodes := nodes[n := J.NodeRow(report.(id := n, status := status), now, false, nodes[n].labels)];
      return J.Done;
    }

    method UpsertNode(n: string, report: Node, now: int) returns (outcome: J.Outcome)
      modifies this`nodes
      ensures (Tables(), outcome) == J.UpsertNode(old(Tables()), n, report, now)
    {
      if !J.DistinctKeys(report) {
        return J.Refused;
      }
      var removed, labels := n in nodes && nodes[n].removed, if n in nodes then nodes[n].labels else None;
      nodes := nodes[n := J.NodeRow(report.(id := n), now, removed, labels)];
      return J.Done;
    }

    method DeleteNode(n: string) returns (outcome: J.Outcome)
      modifies this`nodes
      ensures (Tables(), outcome) == J.DeleteNode(old(Tables()), n)
    {
      if n !in nodes || nodes[n].removed {
        return J.NotFound;
      }
      if exists j :: j in jobs && jobs[j].node == Some(n) && IsActive(jobs[j].status) {
        return J.Conflict;
      }
      nodes := nodes[n := nodes[n].(node := nodes[n].node.(status := Offline, gpus := []), removed := true)];
      return J.Done;
    }

    method SetNodeStatus(n: string, status: NodeStatus) returns (outcome: J.Outcome)
      modifies this`nodes
      ensures (Tables(), outcome) == J.SetNodeStatus(old(Tables()), n, status)
    {
      if n !in nodes || nodes[n].removed {
        return J.NotFound;
      }
      nodes := nodes[n := nodes[n].(node := nodes[n].node.(status := status))];
      return J.Done;
    }

    method UpdateNodeMetadata(n: string, labels: map<string, string>) returns (outcome: J.Outcome)
      modifies this`nodes
      ensures (Tables(), outcome) == J.UpdateNodeMetadata(old(Tables()), n, labels)
    {
      if n !in nodes || nodes[n].removed {
        return J.NotFound;
      }
      nodes := nodes[n := nodes[n].(labels := Some(labels))];
      return J.Done;
    }

    /** UUIDs per node over the assignment rows of active jobs. */
    method AllocatedGPUUUIDs() returns (result: map<string, set<string>>)
      ensures forall n, uuid :: (n in result && uuid in result[n]) <==> J.AllocatedOn(Tables(), n, uuid)
    {
      result := map[];
      var rest := assignments.Keys;
      while rest != {}
        invariant rest <= assignments.Keys
        invariant forall n, uuid :: n in result && uuid in result[n] ==> J.AllocatedOn(Tables(), n, uuid)
        invariant forall a, n, uuid :: J.RowHolds(Tables(), a, n, uuid) && a !in rest ==> n in result && uuid in result[n]
        decreases rest
      {
        var a :| a in rest;
        rest := rest - {a};
        var row := assignments[a];
        if row.job in jobs && IsActive(jobs[row.job].status) {
          var known := if row.node in result then result[row.node] else {};
          forall uuid | uuid in row.gpus ensures J.AllocatedOn(Tables(), row.node, uuid) {
            assert J.RowHolds(Tables(), a, row.node, uuid);
          }
          result := result[row.node := known + set id | id in row.gpus];
        }
      }
    }

    method JobByToken(token: string) returns (found: Option<string>)
      ensures found.Some? ==> J.Resolves(Tables(), token, found.value)
      ensures found.None? ==> forall j :: !J.Resolves(Tables(), token, j)
    {
      if j :| j in jobs && jobs[j].attempt.Some? && jobs[j].attempt.value in attempts
              && attempts[jobs[j].attempt.value].job == j && attempts[jobs[j].attempt.value].token == token {
        return Some(j);
      }
      return None;
    }

    /** Another client of the store performs one operation. */
    method Perform(op: J.Op)
      modifies this
      ensures Tables() == J.Step(old(Tables()), op).0
      decreases 0, 3
    {
      var outcome;
      match op {
        case OpCreate(j, spec) => outcome := CreateJob(j, spec);
        case OpReserve(j, node, attempt, assignment, token, gpus) =>
          if J.IsHash(token) {
            outcome := ReserveJob(j, node, attempt, assignment, token, gpus);
          }
        case OpCommit(j, from, attempt, to) =>
          if CanTransition(from, to) {
            outcome := CommitStatus(j, from, attempt, to);
          }
        case OpRerun(j) => outcome := RerunJob(j);
        case OpStop(j) => outcome := RequestStop(j, []);
        case OpMarkDeleting(j) => outcome := MarkDeleting(j, []);
        case OpMarkDeleted(j) =>
          if j in deleting {
            outcome := MarkDeleted(j);
          }
        case OpMarkStale(offlineBefore, lostBefore) =>
          var _ := MarkStaleNodes(offlineBefore, lostBefore, [], []);
        case OpAccept(node, assignment) => outcome := AcceptAssignment(node, assignment);
        case OpHeartbeat(n, report, now) =>
          if J.ValidNode(report) && (n in nodes ==> J.NotShrinking(nodes[n].node, report)) {
            outcome := Heartbeat(n, report, now);
          }
        case OpUpsert(n, report, now) =>
          if J.ValidNode(report) && (n in nodes ==> J.NotShrinking(nodes[n].node, report)) {
            outcome := UpsertNode(n, report, now);
          }
        case OpDeleteNode(n) => outcome := DeleteNode(n);
        case OpSetNodeStatus(n, status) => outcome := SetNodeStatus(n, status);
        case OpUpdateNodeMetadata(n, labels) => outcome := UpdateNodeMetadata(n, labels);
      }
    }

    method Interfere(ops: seq<J.Op>)
      modifies this
      ensures Tables() == J.Run(old(Tables()), ops)
      decreases if ops == [] then 0 else 1, 1
    {
      for i := 0 to |ops|
        invariant Tables() == J.Run(old(Tables()), ops[..i])
      {
        assert ops[..i + 1][..i] == ops[..i];
        Perform(ops[i]);
      }
      assert ops[..|ops|] == ops;
    }

    /** Applies an observed status: read the job, check the transition, then compare-and-swap
        job and attempt in one transaction; a lost race is retried with fresh state, three
        rounds in all.  `rounds` is what other clients do meanwhile. */
    method UpdateJobStatus(j: string, status: JobStatus, rounds: seq<J.Round>) returns (outcome: J.Outcome)
      requires |rounds| == 3
      modifies this
      ensures (Tables(), outcome) == J.UpdateLoop(old(Tables()), j, status, rounds)
    {
      hide J.CommitStatus, J.Run, CanTransition;
      var round := 0;
      while round < 3
        invariant 0 <= round <= 3
        invariant J.UpdateLoop(old(Tables()), j, status, rounds) == J.UpdateLoop(Tables(), j, status, rounds[round..])
      {
        assert rounds[round..][0] == rounds[round] && rounds[round..][1..] == rounds[round + 1..];
        Interfere(rounds[round].before);
        if j !in jobs {
          return J.NotFound;
        }
        var job := jobs[j];
        if job.status == status && job.observed == status {
          return J.Done;
        }
        if !CanTransition(job.status, status) {
          return J.Conflict;
        }
        Interfere(rounds[round].between);
        J.RetryChangesNothing(Tables(), j, job.status, J.CurrentAttempt(job), status);
        outcome := CommitStatus(j, job.status, J.CurrentAttempt(job), status);
        if outcome != J.Retry {
          return outcome;
        }
        round := round + 1;
      }
      return J.Conflict;
    }
  }
}
