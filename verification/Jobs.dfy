/** Jobs, attempts, assignments and nodes: the job lifecycle of the store
    (internal/store/store.go).  The database is a value; each operation is one atomic step. */
module Jobs {
  import opened Domain
  import opened Fleet

  datatype Attempt = Attempt(job: string, number: nat, node: string, assignment: string, gpus: seq<string>,
                             status: JobStatus, token: string)

  datatype Assignment = Assignment(job: string, attempt: string, node: string, gpus: seq<string>)

  /** A row of the node table; `labels` are those an operator has put in place of the reported ones. */
  datatype NodeRow = NodeRow(node: Node, heartbeat: int, removed: bool, labels: Option<map<string, string>>)

  /** `order` lists the jobs as created; `deleting` the ones whose deletion has been accepted
      and which a background task will mark deleted (internal/httpapi/api.go:632-644). */
  datatype Db = Db(jobs: map<string, Job>, order: seq<string>, attempts: map<string, Attempt>,
                   assignments: map<string, Assignment>, nodes: map<string, NodeRow>, deleting: set<string>)

  datatype Outcome = Done | NotFound | Conflict | Refused | Retry

  const EMPTY := Db(map[], [], map[], map[], map[], {})

  const BLANK_SPEC := JobSpec("", "", map[], Resources(0, "", 0, 0, 0, []))

  const REVOKED := "revoked:"

  /** What job submission validates about the amounts requested (internal/domain/validate.go:141). */
  predicate ValidSpec(spec: JobSpec) {
    spec.resources.cpu > 0 && spec.resources.memory > 0
  }

  predicate Interruptible(s: JobStatus) {
    s.Assigned? || s.PullingImage? || s.Starting? || s.Running? || s.Stopping?
  }

  // ---------------------------------------------------------------- attempt numbers

  ghost function Numbers(attempts: map<string, Attempt>, j: string): set<nat> {
    set x | x in attempts && attempts[x].job == j :: attempts[x].number
  }

  /** MAX of a column, 0 when there is none. */
  ghost function MaxOf(s: set<nat>): (m: nat)
    ensures forall n :: n in s ==> n <= m
    ensures s != {} ==> m in s
    ensures s == {} ==> m == 0
  {
    if s == {} then 0
    else
      var n :| n in s;
      var m := MaxOf(s - {n});
      assert forall k :: k in s ==> k == n || k in s - {n};
      if n > m || s == {n} then n else m
  }

  // ---------------------------------------------------------------- operations

  function CreateJob(db: Db, j: string, spec: JobSpec): (Db, Outcome) {
    if j in db.jobs || !ValidSpec(spec) then (db, Refused)
    else (db.(jobs := db.jobs[j := Job(j, spec, Queued, Queued, None, None)], order := db.order + [j]), Done)
  }

  ghost function Reserve(db: Db, j: string, node: string, attempt: string, assignment: string, token: string,
                         gpus: seq<string>): (Db, Outcome) {
    if j !in db.jobs || db.jobs[j].status != Queued then (db, Conflict)
    else if node !in db.nodes || attempt in db.attempts || assignment in db.assignments
            || (exists x :: x in db.attempts && (db.attempts[x].token == token || db.attempts[x].assignment == assignment))
    then (db, Refused)
    else
      (db.(jobs := db.jobs[j := db.jobs[j].(status := Assigned, node := Some(node), attempt := Some(attempt))],
           attempts := db.attempts[attempt := Attempt(j, MaxOf(Numbers(db.attempts, j)) + 1, node, assignment, gpus, Assigned, token)],
           assignments := db.assignments[assignment := Assignment(j, attempt, node, gpus)]), Done)
  }

  function RevokedToken(attempt: string): string {
    REVOKED + attempt
  }

  /** A terminal status revokes the token of attempt `x`. */
  function Reported(a: Attempt, x: string, to: JobStatus): Attempt {
    a.(status := to, token := if IsTerminal(to) then RevokedToken(x) else a.token)
  }

  /** The write half of a status update: a compare-and-swap on the job row, then its attempt row. */
  function CommitStatus(db: Db, j: string, from: JobStatus, attempt: string, to: JobStatus): (Db, Outcome) {
    if j !in db.jobs || db.jobs[j].status != from || db.jobs[j].attempt != Some(attempt) then (db, Retry)
    else if attempt !in db.attempts || db.attempts[attempt].job != j then (db, Conflict)
    else
      (db.(jobs := db.jobs[j := db.jobs[j].(status := to, observed := to)],
           attempts := db.attempts[attempt := Reported(db.attempts[attempt], attempt, to)]), Done)
  }

  function Rerun(db: Db, j: string): (Db, Outcome) {
    if j !in db.jobs || !IsTerminal(db.jobs[j].status) then (db, Conflict)
    else (db.(jobs := db.jobs[j := db.jobs[j].(status := Queued, observed := Queued, node := None, attempt := None)]), Done)
  }

  function SetAttemptStatus(db: Db, j: string, status: JobStatus): map<string, Attempt>
    requires j in db.jobs
  {
    var attempt := db.jobs[j].attempt;
    if attempt.Some? && attempt.value in db.attempts && db.attempts[attempt.value].job == j
    then db.attempts[attempt.value := db.attempts[attempt.value].(status := status)]
    else db.attempts
  }

  function RequestStop(db: Db, j: string): (Db, Outcome) {
    if j !in db.jobs then (db, NotFound)
    else if db.jobs[j].status == Queued then
      (db.(jobs := db.jobs[j := db.jobs[j].(status := Cancelled, observed := Cancelled)]), Done)
    else if Stoppable(db.jobs[j].status) then
      (db.(jobs := db.jobs[j := db.jobs[j].(status := Stopping)], attempts := SetAttemptStatus(db, j, Stopping)), Done)
    else (db, Conflict)
  }

  function MarkDeleting(db: Db, j: string): (Db, Outcome) {
    if j !in db.jobs then (db, NotFound)
    else if IsActive(db.jobs[j].status) then (db, Conflict)
    else if db.jobs[j].status in {Deleted, Deleting} then (db.(deleting := db.deleting + {j}), Done)
    else (db.(jobs := db.jobs[j := db.jobs[j].(status := Deleting)], deleting := db.deleting + {j}), Done)
  }

  function MarkDeleted(db: Db, j: string): (Db, Outcome) {
    if j !in db.jobs then (db, Done)
    else (db.(jobs := db.jobs[j := db.jobs[j].(status := Deleted, observed := Deleted, spec := BLANK_SPEC)]), Done)
  }

  predicate Stale(db: Db, n: string, before: int) {
    n in db.nodes && !db.nodes[n].removed && db.nodes[n].heartbeat < before
  }

  predicate LosesJob(db: Db, j: string, before: int) {
    j in db.jobs && Interruptible(db.jobs[j].status) && db.jobs[j].node.Some? && Stale(db, db.jobs[j].node.value, before)
  }

  ghost function MarkStaleNodes(db: Db, offlineBefore: int, lostBefore: int): Db {
    db.(nodes := map n | n in db.nodes ::
          if Stale(db, n, offlineBefore) && db.nodes[n].node.status in {Online, Degraded}
          then db.nodes[n].(node := db.nodes[n].node.(status := Offline)) else db.nodes[n],
        jobs := map j | j in db.jobs ::
          if LosesJob(db, j, lostBefore) then db.jobs[j].(status := Lost, observed := Lost) else db.jobs[j],
        attempts := map x | x in db.attempts ::
          if exists j :: LosesJob(db, j, lostBefore) && db.jobs[j].attempt == Some(x)
          then db.attempts[x].(status := Lost) else db.attempts[x])
  }

  function AcceptAssignment(db: Db, node: string, assignment: string): (Db, Outcome) {
    if assignment !in db.assignments || db.assignments[assignment].node != node then (db, NotFound)
    else
      (db.(attempts := map x | x in db.attempts ::
             if db.attempts[x].assignment == assignment then db.attempts[x].(status := Starting) else db.attempts[x]), Done)
  }

  // ---------------------------------------------------------------- nodes

  /** What the primary keys demand of a report: no package and no GPU twice. */
  predicate DistinctKeys(node: Node) {
    && (forall i, k :: 0 <= i < k < |node.packages| ==> node.packages[i].id != node.packages[k].id)
    && (forall i, k :: 0 <= i < k < |node.gpus| ==> node.gpus[i].uuid != node.gpus[k].uuid)
  }

  predicate ValidNode(node: Node) {
    && node.cpuTotal >= 0 && node.memoryTotal >= 0
    && (forall p :: p in node.packages ==> p.total >= 0)
    && DistinctKeys(node)
  }

  /** A node that offers no less CPU, memory and packages than before. */
  predicate NotShrinking(before: Node, after: Node) {
    && before.cpuTotal <= after.cpuTotal && before.memoryTotal <= after.memoryTotal
    && forall p :: p in before.packages ==> exists q :: q in after.packages && q.id == p.id && p.total <= q.total
  }

  /** The assumption about reports in a run: amounts are not negative, and nodes do not shrink. */
  predicate SoundReport(db: Db, n: string, report: Node) {
    ValidNode(report) && (n in db.nodes ==> NotShrinking(db.nodes[n].node, report))
  }

  function Heartbeat(db: Db, n: string, report: Node, now: int): (Db, Outcome) {
    if n !in db.nodes || db.nodes[n].removed then (db, NotFound)
    else if !DistinctKeys(report) then (db, Refused)
    else
      var status := if db.nodes[n].node.status == Draining then Draining else report.status;
      (db.(nodes := db.nodes[n := NodeRow(report.(id := n, status := status), now, false, db.nodes[n].labels)]), Done)
  }

  function UpsertNode(db: Db, n: string, report: Node, now: int): (Db, Outcome) {
    if !DistinctKeys(report) then (db, Refused)
    else
      var removed, labels := n in db.nodes && db.nodes[n].removed, if n in db.nodes then db.nodes[n].labels else None;
      (db.(nodes := db.nodes[n := NodeRow(report.(id := n), now, removed, labels)]), Done)
  }

  /** Draining and resuming a node. */
  function SetNodeStatus(db: Db, n: string, status: NodeStatus): (Db, Outcome) {
    if n !in db.nodes || db.nodes[n].removed then (db, NotFound)
    else (db.(nodes := db.nodes[n := db.nodes[n].(node := db.nodes[n].node.(status := status))]), Done)
  }

  function UpdateNodeMetadata(db: Db, n: string, labels: map<string, string>): (Db, Outcome) {
    if n !in db.nodes || db.nodes[n].removed then (db, NotFound)
    else (db.(nodes := db.nodes[n := db.nodes[n].(labels := Some(labels))]), Done)
  }

  ghost function DeleteNode(db: Db, n: string): (Db, Outcome) {
    if n !in db.nodes || db.nodes[n].removed then (db, NotFound)
    else if exists j :: j in db.jobs && db.jobs[j].node == Some(n) && IsActive(db.jobs[j].status) then (db, Conflict)
    else (db.(nodes := db.nodes[n := db.nodes[n].(node := db.nodes[n].node.(status := Offline, gpus := []), removed := true)]), Done)
  }

  // ---------------------------------------------------------------- queries

  /** GPU UUIDs per node of every assignment row whose job is active: rows of earlier attempts count too. */
  ghost predicate AllocatedOn(db: Db, n: string, uuid: string) {
    exists a :: RowHolds(db, a, n, uuid)
  }

  ghost predicate RowHolds(db: Db, a: string, n: string, uuid: string) {
    && a in db.assignments && db.assignments[a].node == n && uuid in db.assignments[a].gpus
    && db.assignments[a].job in db.jobs && IsActive(db.jobs[db.assignments[a].job].status)
  }

  /** Job `j` answers to this token: its current attempt carries it. */
  ghost predicate Resolves(db: Db, token: string, j: string) {
    && j in db.jobs && db.jobs[j].attempt.Some? && db.jobs[j].attempt.value in db.attempts
    && db.attempts[db.jobs[j].attempt.value].job == j && db.attempts[db.jobs[j].attempt.value].token == token
  }

  // ---------------------------------------------------------------- steps and runs

  datatype Op =
    | OpCreate(j: string, spec: JobSpec)
    | OpReserve(j: string, node: string, attempt: string, assignment: string, token: string, gpus: seq<string>)
    | OpCommit(j: string, from: JobStatus, attempt: string, to: JobStatus)
    | OpRerun(j: string)
    | OpStop(j: string)
    | OpMarkDeleting(j: string)
    | OpMarkDeleted(j: string)
    | OpMarkStale(offlineBefore: int, lostBefore: int)
    | OpAccept(node: string, assignment: string)
    | OpHeartbeat(n: string, report: Node, now: int)
    | OpUpsert(n: string, report: Node, now: int)
    | OpDeleteNode(n: string)
    | OpSetNodeStatus(n: string, status: NodeStatus)
    | OpUpdateNodeMetadata(n: string, labels: map<string, string>)

  /** A token as the program makes them: a hash, never of the revoked form. */
  predicate IsHash(token: string) {
    !(REVOKED <= token)
  }

  /** Commits are attempted only for legal transitions, reservations only with hashed tokens,
      a job is marked deleted only after its deletion was accepted, and reports are sound. */
  ghost function Step(db: Db, op: Op): (Db, Outcome) {
    match op
    case OpCreate(j, spec) => CreateJob(db, j, spec)
    case OpReserve(j, node, attempt, assignment, token, gpus) =>
      if IsHash(token) then Reserve(db, j, node, attempt, assignment, token, gpus) else (db, Refused)
    case OpCommit(j, from, attempt, to) =>
      if CanTransition(from, to) then CommitStatus(db, j, from, attempt, to) else (db, Conflict)
    case OpRerun(j) => Rerun(db, j)
    case OpStop(j) => RequestStop(db, j)
    case OpMarkDeleting(j) => MarkDeleting(db, j)
    case OpMarkDeleted(j) => if j in db.deleting then MarkDeleted(db, j) else (db, Refused)
    case OpMarkStale(offlineBefore, lostBefore) => (MarkStaleNodes(db, offlineBefore, lostBefore), Done)
    case OpAccept(node, assignment) => AcceptAssignment(db, node, assignment)
    case OpHeartbeat(n, report, now) => if SoundReport(db, n, report) then Heartbeat(db, n, report, now) else (db, Refused)
    case OpUpsert(n, report, now) => if SoundReport(db, n, report) then UpsertNode(db, n, report, now) else (db, Refused)
    case OpDeleteNode(n) => DeleteNode(db, n)
    case OpSetNodeStatus(n, status) => SetNodeStatus(db, n, status)
    case OpUpdateNodeMetadata(n, labels) => UpdateNodeMetadata(db, n, labels)
  }

  ghost function Run(db: Db, ops: seq<Op>): Db
    decreases |ops|
  {
    if ops == [] then db else Step(Run(db, ops[..|ops| - 1]), ops[|ops| - 1]).0
  }

  lemma NothingRuns(db: Db)
    ensures Run(db, []) == db
  {
  }

  // ---------------------------------------------------------------- operations of several statements

  /** What the rest of the world does between the statements of an operation. */
  datatype Round = Round(before: seq<Op>, between: seq<Op>)

  predicate Stoppable(status: JobStatus) {
    status in {Assigned, PullingImage, Starting, Running, Lost}
  }

  /** The job row is written whatever it has become, and so is that of the attempt that was read. */
  function WriteStop(db: Db, j: string, attempt: Option<string>): Db
    requires j in db.jobs
  {
    db.(jobs := db.jobs[j := db.jobs[j].(status := Stopping)],
        attempts := if attempt.Some? && attempt.value in db.attempts && db.attempts[attempt.value].job == j
                    then db.attempts[attempt.value := db.attempts[attempt.value].(status := Stopping)] else db.attempts)
  }

  /** Stopping a job: the row is read, others act, and the row is written; only the statement that
      cancels a queued job looks at the status again. */
  ghost function StopInTwo(db: Db, j: string, between: seq<Op>): (Db, Outcome) {
    if j !in db.jobs then (db, NotFound)
    else if db.jobs[j].status == Queued then
      var now := Run(db, between);
      if j in now.jobs && now.jobs[j].status == Queued
      then (now.(jobs := now.jobs[j := now.jobs[j].(status := Cancelled, observed := Cancelled)]), Done)
      else (now, Done)
    else if Stoppable(db.jobs[j].status) then
      var now := Run(db, between);
      if j in now.jobs then (WriteStop(now, j, db.jobs[j].attempt), Done) else (now, Done)
    else (db, Conflict)
  }

  predicate Deletable(status: JobStatus) {
    !IsActive(status) && status != Deleting && status != Deleted
  }

  function WriteDeleting(db: Db, j: string): Db
    requires j in db.jobs
  {
    db.(jobs := db.jobs[j := db.jobs[j].(status := Deleting)], deleting := db.deleting + {j})
  }

  /** Accepting a deletion: the row is read, others act, and the row is written whatever it has become. */
  ghost function DeleteInTwo(db: Db, j: string, between: seq<Op>): (Db, Outcome) {
    if j !in db.jobs then (db, NotFound)
    else if IsActive(db.jobs[j].status) then (db, Conflict)
    else if !Deletable(db.jobs[j].status) then (db.(deleting := db.deleting + {j}), Done)
    else
      var now := Run(db, between);
      (if j in now.jobs then WriteDeleting(now, j) else now, Done)
  }

  function MarkOffline(db: Db, before: int): Db {
    db.(nodes := map n | n in db.nodes ::
          if Stale(db, n, before) && db.nodes[n].node.status in {Online, Degraded}
          then db.nodes[n].(node := db.nodes[n].node.(status := Offline)) else db.nodes[n])
  }

  /** The job row is written if its status still allows it, the attempt row in any case. */
  function LoseJob(db: Db, j: string): Db {
    if j in db.jobs && Interruptible(db.jobs[j].status)
    then db.(jobs := db.jobs[j := db.jobs[j].(status := Lost, observed := Lost)]) else db
  }

  function LoseAttempt(db: Db, j: string): Db {
    if j !in db.jobs then db
    else
      db.(attempts := map x | x in db.attempts ::
            if db.jobs[j].attempt == Some(x) then db.attempts[x].(status := Lost) else db.attempts[x])
  }

  /** Giving up the selected jobs one after the other, with what others do around each. */
  ghost function LoseInTurn(db: Db, ids: seq<string>, rounds: seq<Round>): Db
    decreases |ids|
  {
    if ids == [] then db
    else
      var round := if rounds == [] then Round([], []) else rounds[0];
      var written := LoseJob(Run(db, round.before), ids[0]);
      var next := LoseAttempt(Run(written, round.between), ids[0]);
      LoseInTurn(next, ids[1..], if rounds == [] then [] else rounds[1..])
  }

  // ---------------------------------------------------------------- the invariant

  ghost predicate JobOk(db: Db, j: string, job: Job) {
    && job.id == j
    && (IsActive(job.status) ==> job.attempt.Some?)
    && (job.status == Queued ==> job.attempt.None?)
    && (job.attempt.None? ==> job.node.None?)
    && (job.attempt.Some? ==>
          && job.attempt.value in db.attempts && job.node.Some?
          && db.attempts[job.attempt.value].job == j && db.attempts[job.attempt.value].node == job.node.value)
    && (job.status != Deleted ==> ValidSpec(job.spec))
  }

  ghost predicate JobsOk(db: Db) {
    forall j :: j in db.jobs ==> JobOk(db, j, db.jobs[j])
  }

  /** An unrevoked token belongs to the current attempt of an active job. */
  ghost predicate TokenLive(db: Db, x: string) {
    x in db.attempts && IsHash(db.attempts[x].token) ==>
      && db.attempts[x].job in db.jobs
      && db.jobs[db.attempts[x].job].attempt == Some(x) && IsActive(db.jobs[db.attempts[x].job].status)
  }

  ghost predicate TokensOk(db: Db) {
    forall x :: x in db.attempts ==> TokenLive(db, x)
  }

  ghost predicate TokensUnique(db: Db) {
    forall x, y :: (x in db.attempts && y in db.attempts && x != y && IsHash(db.attempts[x].token))
      ==> db.attempts[x].token != db.attempts[y].token
  }

  /** Attempt numbers of a job are 1, 2, ..., n without repetition. */
  ghost predicate Consecutive(s: set<nat>) {
    forall n: nat :: n in s <==> 1 <= n <= MaxOf(s)
  }

  ghost predicate NumbersOk(db: Db) {
    && (forall j :: Consecutive(Numbers(db.attempts, j)))
    && (forall x, y :: (x in db.attempts && y in db.attempts && db.attempts[x].job == db.attempts[y].job
                        && db.attempts[x].number == db.attempts[y].number) ==> x == y)
  }

  ghost predicate RowOk(db: Db, x: string, a: Attempt) {
    && a.assignment in db.assignments
    && db.assignments[a.assignment] == Assignment(a.job, x, a.node, a.gpus)
    && a.node in db.nodes
  }

  ghost predicate RowsOk(db: Db) {
    forall x :: x in db.attempts ==> RowOk(db, x, db.attempts[x])
  }

  ghost predicate OrderOk(db: Db) {
    && (forall i :: 0 <= i < |db.order| ==> db.order[i] in db.jobs)
    && (forall i, k :: 0 <= i < k < |db.order| ==> db.order[i] != db.order[k])
    && (forall j :: j in db.jobs ==> j in db.order)
  }

  ghost predicate DeletingOk(db: Db) {
    forall j :: j in db.deleting ==> j in db.jobs && (db.jobs[j].status.Deleting? || db.jobs[j].status.Deleted?)
  }

  ghost predicate NodesOk(db: Db) {
    forall n :: n in db.nodes ==> db.nodes[n].node.id == n && ValidNode(db.nodes[n].node)
  }

  ghost predicate Inv(db: Db) {
    && JobsOk(db) && TokensOk(db) && TokensUnique(db) && NumbersOk(db) && RowsOk(db) && OrderOk(db) && DeletingOk(db) && NodesOk(db)
  }

  lemma EmptyInv()
    ensures Inv(EMPTY)
  {
  }

  // ---------------------------------------------------------------- preservation

  /** Attempt rows may change status and be revoked, but keep job, number, node, assignment and GPUs. */
  ghost predicate SameAttempts(a: map<string, Attempt>, b: map<string, Attempt>) {
    && a.Keys == b.Keys
    && forall x :: x in a ==> b[x] == a[x].(status := b[x].status, token := b[x].token)
                              && (b[x].token == a[x].token || b[x].token == RevokedToken(x))
  }

  lemma RevokedIsNoHash(x: string)
    ensures !IsHash(RevokedToken(x))
  {
  }

  lemma {:induction false} SameAttemptsKeep(db: Db, db': Db)
    requires Inv(db) && SameAttempts(db.attempts, db'.attempts)
    requires db'.assignments == db.assignments && db.nodes.Keys <= db'.nodes.Keys
    ensures NumbersOk(db') && RowsOk(db') && TokensUnique(db')
  {
    forall j ensures Numbers(db'.attempts, j) == Numbers(db.attempts, j) {
      SameNumbers(db.attempts, db'.attempts, j);
    }
    forall x ensures !IsHash(RevokedToken(x)) {
      RevokedIsNoHash(x);
    }
    hide Numbers, MaxOf, RevokedToken, IsHash;
    forall x | x in db'.attempts ensures RowOk(db', x, db'.attempts[x]) {
      assert RowOk(db, x, db.attempts[x]);
    }
  }

  lemma SameNumbers(a: map<string, Attempt>, b: map<string, Attempt>, j: string)
    requires SameAttempts(a, b)
    ensures Numbers(a, j) == Numbers(b, j)
  {
  }

  /** How one job row may change without a reservation: it does not become active, and if it
      stays active it keeps node, attempt and spec. */
  ghost predicate JobEvolves(before: Job, after: Job) {
    && after.id == before.id
    && (IsActive(after.status) ==> IsActive(before.status))
    && ((after.node == before.node && after.attempt == before.attempt)
        || (!IsActive(before.status) && after.node.None? && after.attempt.None?))
    && (after.status == Queued ==> after.node.None? && after.attempt.None?)
    && (after.spec == before.spec || after.status == Deleted)
    && (before.status == Deleted ==> after.status == Deleted)
    && (before.status.Deleting? ==> after.status.Deleting? || after.status.Deleted?)
  }

  /** A step that changes job rows as above and attempt rows with them keeps the job part. */
  lemma {:induction false} EvolutionKeeps(db: Db, db': Db)
    requires Inv(db) && db'.jobs.Keys == db.jobs.Keys && SameAttempts(db.attempts, db'.attempts)
    requires db' == db.(jobs := db'.jobs, attempts := db'.attempts)
    requires forall j :: j in db.jobs ==> JobEvolves(db.jobs[j], db'.jobs[j])
    requires forall x :: x in db'.attempts && IsHash(db'.attempts[x].token) && db.attempts[x].job in db.jobs ==>
               IsActive(db.jobs[db.attempts[x].job].status) ==> IsActive(db'.jobs[db.attempts[x].job].status)
    ensures Inv(db')
  {
    SameAttemptsKeep(db, db');
    EvolutionKeepsJobs(db, db');
    hide NumbersOk, RowsOk, TokensUnique, JobsOk, TokensOk, JobEvolves, SameAttempts;
  }

  lemma EvolutionKeepsJobs(db: Db, db': Db)
    requires JobsOk(db) && TokensOk(db) && OrderOk(db) && DeletingOk(db) && NodesOk(db)
    requires db'.jobs.Keys == db.jobs.Keys && SameAttempts(db.attempts, db'.attempts)
    requires db' == db.(jobs := db'.jobs, attempts := db'.attempts)
    requires forall j :: j in db.jobs ==> JobEvolves(db.jobs[j], db'.jobs[j])
    requires forall x :: x in db'.attempts && IsHash(db'.attempts[x].token) && db.attempts[x].job in db.jobs ==>
               IsActive(db.jobs[db.attempts[x].job].status) ==> IsActive(db'.jobs[db.attempts[x].job].status)
    ensures JobsOk(db') && TokensOk(db') && OrderOk(db') && DeletingOk(db') && NodesOk(db')
  {
    forall j | j in db'.jobs ensures JobOk(db', j, db'.jobs[j]) {
      assert JobOk(db, j, db.jobs[j]) && JobEvolves(db.jobs[j], db'.jobs[j]);
    }
    forall x | x in db'.attempts ensures TokenLive(db', x) {
      RevokedIsNoHash(x);
      assert TokenLive(db, x);
      if IsHash(db'.attempts[x].token) {
        assert JobEvolves(db.jobs[db.attempts[x].job], db'.jobs[db.attempts[x].job]);
      }
    }
  }

  lemma CreateKeeps(db: Db, j: string, spec: JobSpec)
    requires Inv(db)
    ensures Inv(CreateJob(db, j, spec).0)
  {
    var db' := CreateJob(db, j, spec).0;
    if j !in db.jobs && ValidSpec(spec) {
      SameAttemptsKeep(db, db');
      CreateKeepsJobs(db, j, spec);
      CreateKeepsOrder(db, j, spec);
      hide NumbersOk, RowsOk, TokensUnique, ValidSpec, JobsOk, TokensOk, OrderOk, NodesOk;
    }
  }

  lemma CreateKeepsJobs(db: Db, j: string, spec: JobSpec)
    requires JobsOk(db) && TokensOk(db) && j !in db.jobs && ValidSpec(spec)
    ensures JobsOk(CreateJob(db, j, spec).0) && TokensOk(CreateJob(db, j, spec).0)
  {
    hide ValidSpec, IsHash;
    var db' := CreateJob(db, j, spec).0;
    forall k | k in db'.jobs ensures JobOk(db', k, db'.jobs[k]) {
      if k != j {
        assert JobOk(db, k, db.jobs[k]);
      }
    }
    forall x | x in db'.attempts ensures TokenLive(db', x) {
      assert TokenLive(db, x);
    }
  }

  lemma CreateKeepsOrder(db: Db, j: string, spec: JobSpec)
    requires OrderOk(db) && j !in db.jobs && ValidSpec(spec)
    ensures OrderOk(CreateJob(db, j, spec).0)
  {
    hide ValidSpec;
    var db' := CreateJob(db, j, spec).0;
    assert db'.order[|db.order|] == j;
    forall k | k in db'.jobs ensures k in db'.order {
      if k != j {
        assert k in db.order;
      }
    }
  }

  /** One job row changes, its attempt row at most in status. */
  lemma {:induction false} OneJobKeeps(db: Db, db': Db, j: string)
    requires Inv(db) && j in db.jobs && j in db'.jobs && JobEvolves(db.jobs[j], db'.jobs[j])
    requires db' == db.(jobs := db.jobs[j := db'.jobs[j]], attempts := db'.attempts)
    requires SameAttempts(db.attempts, db'.attempts)
    requires forall x :: x in db'.attempts && IsHash(db'.attempts[x].token) && db.attempts[x].job == j ==>
               IsActive(db.jobs[j].status) ==> IsActive(db'.jobs[j].status)
    ensures Inv(db')
  {
    hide NumbersOk, RowsOk, TokensUnique, JobsOk, TokensOk, SameAttempts, IsHash, IsActive;
    forall k | k in db.jobs ensures JobEvolves(db.jobs[k], db'.jobs[k]) {
      if k != j {
        JobStays(db, k);
      }
    }
    EvolutionKeeps(db, db');
  }

  lemma JobStays(db: Db, k: string)
    requires JobsOk(db) && k in db.jobs
    ensures JobEvolves(db.jobs[k], db.jobs[k])
  {
  }

  /** What the transition relation allows: only a reservation starts a run, and a run ends
      in a terminal status. */
  lemma TransitionFacts(from: JobStatus, to: JobStatus)
    requires CanTransition(from, to)
    ensures IsActive(to) ==> IsActive(from) || from == Queued
    ensures IsActive(from) && !IsActive(to) ==> IsTerminal(to)
    ensures to == Queued ==> from == Queued
    ensures from == Deleted ==> to == Deleted
    ensures from == Deleting ==> to == Deleting || to == Deleted
  {
  }

  lemma {:induction false} CommitKeeps(db: Db, j: string, from: JobStatus, attempt: string, to: JobStatus)
    requires Inv(db) && CanTransition(from, to)
    ensures Inv(CommitStatus(db, j, from, attempt, to).0)
  {
    hide NumbersOk, RowsOk, TokensUnique, OrderOk, NodesOk, TokensOk, JobsOk, DeletingOk, IsHash, CanTransition,
         IsActive, IsTerminal, JobEvolves, SameAttempts;
    if CommitStatus(db, j, from, attempt, to).1 == Done {
      var db' := CommitStatus(db, j, from, attempt, to).0;
      CommitEvolves(db, j, from, attempt, to);
      OneJobKeeps(db, db', j);
    }
  }

  lemma {:induction false} CommitEvolves(db: Db, j: string, from: JobStatus, attempt: string, to: JobStatus)
    requires JobsOk(db) && TokensOk(db) && CanTransition(from, to)
    requires CommitStatus(db, j, from, attempt, to).1 == Done
    ensures var db' := CommitStatus(db, j, from, attempt, to).0;
            && JobEvolves(db.jobs[j], db'.jobs[j]) && SameAttempts(db.attempts, db'.attempts)
            && forall x :: x in db'.attempts && IsHash(db'.attempts[x].token) && db.attempts[x].job == j ==>
                 IsActive(from) ==> IsActive(to)
  {
    TransitionFacts(from, to);
    hide CanTransition, IsHash, RevokedToken, SameAttempts;
    CommitKeepsAttempts(db, j, from, attempt, to);
    CommitKeepsToken(db, j, from, attempt, to);
    assert JobOk(db, j, db.jobs[j]);
  }

  lemma CommitKeepsAttempts(db: Db, j: string, from: JobStatus, attempt: string, to: JobStatus)
    ensures SameAttempts(db.attempts, CommitStatus(db, j, from, attempt, to).0.attempts)
  {
    hide RevokedToken, IsTerminal;
  }

  lemma CommitKeepsToken(db: Db, j: string, from: JobStatus, attempt: string, to: JobStatus)
    requires TokensOk(db) && CommitStatus(db, j, from, attempt, to).1 == Done && CanTransition(from, to)
    ensures var db' := CommitStatus(db, j, from, attempt, to).0;
            forall x :: x in db'.attempts && IsHash(db'.attempts[x].token) && db.attempts[x].job == j ==>
              IsActive(from) ==> IsActive(to)
  {
    TransitionFacts(from, to);
    RevokedIsNoHash(attempt);
    hide CanTransition, IsHash, RevokedToken;
    var db' := CommitStatus(db, j, from, attempt, to).0;
    forall x | x in db'.attempts && IsHash(db'.attempts[x].token) && db.attempts[x].job == j
      ensures IsActive(from) ==> IsActive(to)
    {
      assert TokenLive(db, x);
    }
  }

  lemma RerunKeeps(db: Db, j: string)
    requires Inv(db)
    ensures Inv(Rerun(db, j).0)
  {
    hide NumbersOk, RowsOk, TokensUnique, OrderOk, NodesOk, IsHash, TokensOk;
    if Rerun(db, j).1 == Done {
      assert JobOk(db, j, db.jobs[j]);
      OneJobKeeps(db, Rerun(db, j).0, j);
    }
  }

  lemma StopKeeps(db: Db, j: string)
    requires Inv(db)
    ensures Inv(RequestStop(db, j).0)
  {
    hide NumbersOk, RowsOk, TokensUnique, OrderOk, NodesOk, IsHash, TokensOk, RevokedToken, JobEvolves, SameAttempts, IsActive, JobsOk;
    if RequestStop(db, j).1 == Done {
      StopEvolves(db, j);
      OneJobKeeps(db, RequestStop(db, j).0, j);
    }
  }

  lemma StopEvolves(db: Db, j: string)
    requires JobsOk(db) && RequestStop(db, j).1 == Done
    ensures var db' := RequestStop(db, j).0;
            && JobEvolves(db.jobs[j], db'.jobs[j]) && SameAttempts(db.attempts, db'.attempts)
            && (IsActive(db.jobs[j].status) ==> IsActive(db'.jobs[j].status))
  {
    hide IsHash, RevokedToken;
    assert JobOk(db, j, db.jobs[j]);
  }

  /** Remembering an accepted deletion. */
  lemma DeletingKeeps(db: Db, j: string)
    requires Inv(db) && j in db.jobs && (db.jobs[j].status.Deleting? || db.jobs[j].status.Deleted?)
    ensures Inv(db.(deleting := db.deleting + {j}))
  {
    var db' := db.(deleting := db.deleting + {j});
    SameAttemptsKeep(db, db');
    hide NumbersOk, RowsOk, TokensUnique;
    forall k | k in db'.jobs ensures JobOk(db', k, db'.jobs[k]) {
      assert JobOk(db, k, db.jobs[k]);
    }
    forall x | x in db'.attempts ensures TokenLive(db', x) {
      assert TokenLive(db, x);
    }
  }

  lemma {:induction false} MarkDeletingKeeps(db: Db, j: string)
    requires Inv(db)
    ensures Inv(MarkDeleting(db, j).0)
  {
    hide NumbersOk, RowsOk, TokensUnique, OrderOk, NodesOk, IsHash, TokensOk, RevokedToken;
    if MarkDeleting(db, j).1 == Done {
      var job := if db.jobs[j].status in {Deleted, Deleting} then db.jobs[j] else db.jobs[j].(status := Deleting);
      var mid := db.(jobs := db.jobs[j := job]);
      assert JobOk(db, j, db.jobs[j]);
      OneJobKeeps(db, mid, j);
      assert db.jobs[j := db.jobs[j]] == db.jobs;
      DeletingKeeps(mid, j);
    }
  }

  lemma MarkDeletedKeeps(db: Db, j: string)
    requires Inv(db) && j in db.deleting
    ensures Inv(MarkDeleted(db, j).0)
  {
    hide NumbersOk, RowsOk, TokensUnique, OrderOk, NodesOk, IsHash, TokensOk, RevokedToken;
    assert JobOk(db, j, db.jobs[j]);
    OneJobKeeps(db, MarkDeleted(db, j).0, j);
  }

  /** Only the node table changes, and no node disappears. */
  lemma NodesKeep(db: Db, db': Db)
    requires Inv(db) && db' == db.(nodes := db'.nodes) && db.nodes.Keys <= db'.nodes.Keys && NodesOk(db')
    ensures Inv(db')
  {
    SameAttemptsKeep(db, db');
    hide NumbersOk, RowsOk, TokensUnique, ValidNode;
    forall k | k in db'.jobs ensures JobOk(db', k, db'.jobs[k]) {
      assert JobOk(db, k, db.jobs[k]);
    }
    forall x | x in db'.attempts ensures TokenLive(db', x) {
      assert TokenLive(db, x);
    }
  }

  lemma {:induction false} MarkStaleKeeps(db: Db, offlineBefore: int, lostBefore: int)
    requires Inv(db)
    ensures Inv(MarkStaleNodes(db, offlineBefore, lostBefore))
  {
    hide NumbersOk, RowsOk, TokensUnique, OrderOk, IsHash, TokensOk, Stale, ValidNode, RevokedToken;
    var db' := MarkStaleNodes(db, offlineBefore, lostBefore);
    var mid := db.(nodes := db'.nodes);
    assert NodesOk(mid) by {
      forall n | n in mid.nodes ensures mid.nodes[n].node.id == n && ValidNode(mid.nodes[n].node) {
        StatusKeepsValid(db.nodes[n].node, Offline);
      }
    }
    NodesKeep(db, mid);
    LostEvolves(db, offlineBefore, lostBefore);
    hide MarkStaleNodes, JobsOk, JobEvolves, SameAttempts, NodesOk, IsActive;
    EvolutionKeeps(mid, db');
  }

  lemma LostEvolves(db: Db, offlineBefore: int, lostBefore: int)
    requires JobsOk(db)
    ensures var db' := MarkStaleNodes(db, offlineBefore, lostBefore);
            && db'.jobs.Keys == db.jobs.Keys && db'.nodes.Keys == db.nodes.Keys
            && SameAttempts(db.attempts, db'.attempts)
            && (forall j :: j in db.jobs ==> JobEvolves(db.jobs[j], db'.jobs[j]))
            && (forall j :: j in db.jobs && IsActive(db.jobs[j].status) ==> IsActive(db'.jobs[j].status))
            && db' == db.(nodes := db'.nodes, jobs := db'.jobs, attempts := db'.attempts)
  {
    hide Stale, IsHash, RevokedToken, ValidSpec;
    forall j | j in db.jobs ensures JobEvolves(db.jobs[j], MarkStaleNodes(db, offlineBefore, lostBefore).jobs[j]) {
      assert JobOk(db, j, db.jobs[j]);
    }
  }

  lemma StatusKeepsValid(node: Node, status: NodeStatus)
    requires ValidNode(node)
    ensures ValidNode(node.(status := status))
  {
  }

  lemma AcceptKeeps(db: Db, node: string, assignment: string)
    requires Inv(db)
    ensures Inv(AcceptAssignment(db, node, assignment).0)
  {
    hide NumbersOk, RowsOk, TokensUnique, OrderOk, IsHash, TokensOk, NodesOk, RevokedToken;
    var db' := AcceptAssignment(db, node, assignment).0;
    forall j | j in db.jobs ensures JobEvolves(db.jobs[j], db'.jobs[j]) {
      assert JobOk(db, j, db.jobs[j]);
    }
    EvolutionKeeps(db, db');
  }

  lemma NodeOpsKeep(db: Db, n: string, report: Node, now: int)
    requires Inv(db) && SoundReport(db, n, report)
    ensures Inv(Heartbeat(db, n, report, now).0)
    ensures Inv(UpsertNode(db, n, report, now).0)
  {
    NodeOpsValid(db, n, report, now);
    hide JobsOk, TokensOk, TokensUnique, NumbersOk, RowsOk, OrderOk, DeletingOk, NodesOk, NotShrinking, ValidNode;
    NodesKeep(db, Heartbeat(db, n, report, now).0);
    NodesKeep(db, UpsertNode(db, n, report, now).0);
  }

  lemma NodeOpsValid(db: Db, n: string, report: Node, now: int)
    requires NodesOk(db) && SoundReport(db, n, report)
    ensures NodesOk(Heartbeat(db, n, report, now).0)
    ensures NodesOk(UpsertNode(db, n, report, now).0)
  {
  }

  lemma DeleteNodeKeeps(db: Db, n: string)
    requires Inv(db)
    ensures Inv(DeleteNode(db, n).0)
  {
    hide JobsOk, TokensOk, TokensUnique, NumbersOk, RowsOk, OrderOk, DeletingOk;
    NodesKeep(db, DeleteNode(db, n).0);
  }

  lemma OperatorKeeps(db: Db, n: string, status: NodeStatus, labels: map<string, string>)
    requires Inv(db)
    ensures Inv(SetNodeStatus(db, n, status).0)
    ensures Inv(UpdateNodeMetadata(db, n, labels).0)
  {
    hide JobsOk, TokensOk, TokensUnique, NumbersOk, RowsOk, OrderOk, DeletingOk, ValidNode;
    if n in db.nodes {
      StatusKeepsValid(db.nodes[n].node, status);
    }
    NodesKeep(db, SetNodeStatus(db, n, status).0);
    NodesKeep(db, UpdateNodeMetadata(db, n, labels).0);
  }

  // ---------------------------------------------------------------- reservation

  lemma NumbersAdd(attempts: map<string, Attempt>, x: string, a: Attempt, j: string)
    requires x !in attempts
    ensures Numbers(attempts[x := a], j) == Numbers(attempts, j) + (if a.job == j then {a.number} else {})
  {
    var attempts' := attempts[x := a];
    forall n | n in Numbers(attempts, j) ensures n in Numbers(attempts', j) {
      var y :| y in attempts && attempts[y].job == j && attempts[y].number == n;
      assert attempts'[y].job == j && attempts'[y].number == n;
    }
    if a.job == j {
      assert attempts'[x].job == j && attempts'[x].number == a.number;
    }
  }

  lemma ConsecutiveNext(s: set<nat>)
    requires Consecutive(s)
    ensures Consecutive(s + {MaxOf(s) + 1}) && MaxOf(s) + 1 !in s
  {
  }

  lemma ReserveKeepsNumbers(db: Db, j: string, node: string, attempt: string, assignment: string, token: string, gpus: seq<string>)
    requires NumbersOk(db)
    requires Reserve(db, j, node, attempt, assignment, token, gpus).1 == Done
    ensures NumbersOk(Reserve(db, j, node, attempt, assignment, token, gpus).0)
  {
    hide MaxOf, Consecutive, Numbers;
    var db' := Reserve(db, j, node, attempt, assignment, token, gpus).0;
    var a := db'.attempts[attempt];
    ConsecutiveNext(Numbers(db.attempts, j));
    forall k ensures Consecutive(Numbers(db'.attempts, k)) {
      NumbersAdd(db.attempts, attempt, a, k);
      assert Numbers(db.attempts, k) + {} == Numbers(db.attempts, k);
    }
    forall x | x in db.attempts && db.attempts[x].job == j ensures db.attempts[x].number != a.number {
      NumbersHas(db.attempts, x);
    }
  }

  lemma NumbersHas(attempts: map<string, Attempt>, x: string)
    requires x in attempts
    ensures attempts[x].number in Numbers(attempts, attempts[x].job)
  {
  }

  lemma ReserveKeepsJobs(db: Db, j: string, node: string, attempt: string, assignment: string, token: string, gpus: seq<string>)
    requires JobsOk(db) && TokensOk(db) && TokensUnique(db) && RowsOk(db) && OrderOk(db) && DeletingOk(db) && IsHash(token)
    requires Reserve(db, j, node, attempt, assignment, token, gpus).1 == Done
    ensures var db' := Reserve(db, j, node, attempt, assignment, token, gpus).0;
            JobsOk(db') && TokensOk(db') && TokensUnique(db') && RowsOk(db') && OrderOk(db') && DeletingOk(db')
  {
    hide Numbers, MaxOf, IsHash;
    var db' := Reserve(db, j, node, attempt, assignment, token, gpus).0;
    forall k | k in db'.jobs ensures JobOk(db', k, db'.jobs[k]) {
      assert JobOk(db, k, db.jobs[k]);
    }
    forall x | x in db'.attempts ensures TokenLive(db', x) {
      if x != attempt {
        assert TokenLive(db, x);
        assert JobOk(db, j, db.jobs[j]);
      }
    }
    forall x | x in db'.attempts ensures RowOk(db', x, db'.attempts[x]) {
      if x != attempt {
        assert RowOk(db, x, db.attempts[x]);
      }
    }
  }

  lemma {:induction false} ReserveKeeps(db: Db, j: string, node: string, attempt: string, assignment: string, token: string,
                                        gpus: seq<string>)
    requires Inv(db) && IsHash(token)
    ensures Inv(Reserve(db, j, node, attempt, assignment, token, gpus).0)
  {
    hide NumbersOk, RowsOk, TokensUnique, OrderOk, IsHash, TokensOk, JobsOk, DeletingOk, Numbers, MaxOf;
    if Reserve(db, j, node, attempt, assignment, token, gpus).1 == Done {
      ReserveKeepsNumbers(db, j, node, attempt, assignment, token, gpus);
      ReserveKeepsJobs(db, j, node, attempt, assignment, token, gpus);
    }
  }

  lemma {:induction false} StepKeepsInv(db: Db, op: Op)
    requires Inv(db)
    ensures Inv(Step(db, op).0)
  {
    hide JobsOk, TokensOk, TokensUnique, NumbersOk, RowsOk, OrderOk, NodesOk,
         CreateJob, Reserve, CommitStatus, Rerun, RequestStop, MarkDeleting, MarkDeleted, MarkStaleNodes, AcceptAssignment,
         Heartbeat, UpsertNode, DeleteNode, SetNodeStatus, UpdateNodeMetadata, SoundReport, IsHash, CanTransition;
    match op
    case OpCreate(j, spec) => CreateKeeps(db, j, spec);
    case OpReserve(j, node, attempt, assignment, token, gpus) =>
      if IsHash(token) {
        ReserveKeeps(db, j, node, attempt, assignment, token, gpus);
      }
    case OpCommit(j, from, attempt, to) =>
      if CanTransition(from, to) {
        CommitKeeps(db, j, from, attempt, to);
      }
    case OpRerun(j) => RerunKeeps(db, j);
    case OpStop(j) => StopKeeps(db, j);
    case OpMarkDeleting(j) => MarkDeletingKeeps(db, j);
    case OpMarkDeleted(j) =>
      if j in db.deleting {
        MarkDeletedKeeps(db, j);
      }
    case OpMarkStale(offlineBefore, lostBefore) => MarkStaleKeeps(db, offlineBefore, lostBefore);
    case OpAccept(node, assignment) => AcceptKeeps(db, node, assignment);
    case OpHeartbeat(n, report, now) =>
      if SoundReport(db, n, report) {
        NodeOpsKeep(db, n, report, now);
      }
    case OpUpsert(n, report, now) =>
      if SoundReport(db, n, report) {
        NodeOpsKeep(db, n, report, now);
      }
    case OpDeleteNode(n) => DeleteNodeKeeps(db, n);
    case OpSetNodeStatus(n, status) => OperatorKeeps(db, n, status, map[]);
    case OpUpdateNodeMetadata(n, labels) => OperatorKeeps(db, n, Online, labels);
  }

  lemma {:induction false} RunKeepsInv(db: Db, ops: seq<Op>)
    requires Inv(db)
    ensures Inv(Run(db, ops))
    decreases |ops|
  {
    hide Inv, Step;
    if ops != [] {
      RunKeepsInv(db, ops[..|ops| - 1]);
      StepKeepsInv(Run(db, ops[..|ops| - 1]), ops[|ops| - 1]);
    }
  }

  // ---------------------------------------------------------------- main results

  /** In every reachable state: an active job has a node and an attempt of its own on that
      node, a queued job has neither, and the attempts of a job are numbered 1, 2, ..., n. */
  lemma {:induction false} LifecycleEver(ops: seq<Op>, j: string)
    ensures var db := Run(EMPTY, ops);
            && (j in db.jobs && IsActive(db.jobs[j].status) ==>
                  && db.jobs[j].node.Some? && db.jobs[j].attempt.Some? && db.jobs[j].attempt.value in db.attempts
                  && db.attempts[db.jobs[j].attempt.value].job == j
                  && db.attempts[db.jobs[j].attempt.value].node == db.jobs[j].node.value)
            && (j in db.jobs && db.jobs[j].status == Queued ==> db.jobs[j].node.None? && db.jobs[j].attempt.None?)
            && Consecutive(Numbers(db.attempts, j))
            && (forall x, y :: (x in db.attempts && y in db.attempts && db.attempts[x].job == db.attempts[y].job == j
                                && x != y) ==> db.attempts[x].number != db.attempts[y].number)
  {
    EmptyInv();
    RunKeepsInv(EMPTY, ops);
    var db := Run(EMPTY, ops);
    hide Run, Consecutive, Numbers;
    if j in db.jobs {
      assert JobOk(db, j, db.jobs[j]);
    }
  }

  /** In every reachable state a job token resolves to at most one job, and only while that
      job is active and the token's attempt is the current one. */
  lemma {:induction false} TokensEver(ops: seq<Op>, token: string, j: string)
    requires IsHash(token) && Resolves(Run(EMPTY, ops), token, j)
    ensures var db := Run(EMPTY, ops);
            && IsActive(db.jobs[j].status)
            && (forall x :: x in db.attempts && db.attempts[x].token == token ==> db.jobs[j].attempt == Some(x))
            && (forall k :: Resolves(db, token, k) ==> k == j)
  {
    EmptyInv();
    RunKeepsInv(EMPTY, ops);
    var db := Run(EMPTY, ops);
    hide Run, IsHash;
    assert TokenLive(db, db.jobs[j].attempt.value);
  }

  /** The job, if active, has an attempt whose token has not been revoked. */
  ghost predicate Authorised(db: Db, j: string) {
    j in db.jobs && IsActive(db.jobs[j].status) ==>
      && db.jobs[j].attempt.Some? && db.jobs[j].attempt.value in db.attempts
      && db.attempts[db.jobs[j].attempt.value].job == j && IsHash(db.attempts[db.jobs[j].attempt.value].token)
  }

  lemma {:induction false} ReserveAuthorises(db: Db, op: Op, j: string)
    requires op.OpReserve? && Authorised(db, j)
    ensures Authorised(Step(db, op).0, j)
  {
    hide MaxOf, Numbers, IsHash;
  }

  lemma {:induction false} CommitKeepsAuthorised(db: Db, op: Op, j: string)
    requires op.OpCommit? && JobsOk(db) && Authorised(db, j)
    ensures Authorised(Step(db, op).0, j)
  {
    hide IsHash, RevokedToken, CanTransition;
    if CanTransition(op.from, op.to) {
      TransitionFacts(op.from, op.to);
    }
    if j in db.jobs {
      assert JobOk(db, j, db.jobs[j]);
    }
  }

  /** The other operations leave every token alone, and start no job. */
  lemma {:induction false} OthersKeepAuthorised(db: Db, op: Op, j: string)
    requires !op.OpReserve? && !op.OpCommit? && Authorised(db, j)
    ensures Authorised(Step(db, op).0, j)
  {
    hide MaxOf, Numbers, IsHash, RevokedToken, CanTransition, Stale, SoundReport, ValidSpec, DistinctKeys, Reserve, CommitStatus;
  }

  lemma {:induction false} RunAuthorised(ops: seq<Op>, j: string)
    ensures Inv(Run(EMPTY, ops)) && Authorised(Run(EMPTY, ops), j)
    decreases |ops|
  {
    EmptyInv();
    RunKeepsInv(EMPTY, ops);
    if ops != [] {
      var before, op := Run(EMPTY, ops[..|ops| - 1]), ops[|ops| - 1];
      RunAuthorised(ops[..|ops| - 1], j);
      hide Step, Authorised, JobsOk, TokensOk, TokensUnique, NumbersOk, RowsOk, OrderOk, NodesOk, DeletingOk;
      if op.OpReserve? {
        ReserveAuthorises(before, op, j);
      } else if op.OpCommit? {
        CommitKeepsAuthorised(before, op, j);
      } else {
        OthersKeepAuthorised(before, op, j);
      }
    }
  }

  /** In every reachable state a job answers to some token exactly while it is active. */
  lemma {:induction false} ActiveIffAuthorised(ops: seq<Op>, j: string)
    ensures var db := Run(EMPTY, ops);
            j in db.jobs ==> (IsActive(db.jobs[j].status) <==> exists token :: IsHash(token) && Resolves(db, token, j))
  {
    RunAuthorised(ops, j);
    var db := Run(EMPTY, ops);
    hide Run, IsHash;
    if j in db.jobs && IsActive(db.jobs[j].status) {
      assert Resolves(db, db.attempts[db.jobs[j].attempt.value].token, j);
    } else if token :| IsHash(token) && Resolves(db, token, j) {
      TokensEver(ops, token, j);
    }
  }

  /** Every step moves every job along a legal transition or from a terminal status back to
      the queue, and no job row ever disappears. */
  lemma {:induction false} EveryStepIsAnEdge(db: Db, op: Op, j: string)
    requires Inv(db) && j in db.jobs
    ensures var db' := Step(db, op).0;
            && j in db'.jobs
            && (CanTransition(db.jobs[j].status, db'.jobs[j].status)
                || (IsTerminal(db.jobs[j].status) && db'.jobs[j].status == Queued))
  {
    hide Reserve, CommitStatus, MarkStaleNodes, Stale, IsHash, ValidSpec, SoundReport, DistinctKeys, JobsOk, TokensOk, TokensUnique,
         NumbersOk, RowsOk, OrderOk, NodesOk;
    if op.OpReserve? {
      hide *;
      ReserveIsAnEdge(db, op, j);
    } else if op.OpMarkStale? {
      hide *;
      StaleIsAnEdge(db, op, j);
    } else if op.OpCommit? {
      hide *;
      CommitIsAnEdge(db, op, j);
    }
  }

  lemma StaleIsAnEdge(db: Db, op: Op, j: string)
    requires j in db.jobs && op.OpMarkStale?
    ensures var db' := Step(db, op).0; j in db'.jobs && CanTransition(db.jobs[j].status, db'.jobs[j].status)
  {
    hide Stale;
  }

  lemma CommitIsAnEdge(db: Db, op: Op, j: string)
    requires j in db.jobs && op.OpCommit?
    ensures var db' := Step(db, op).0; j in db'.jobs && CanTransition(db.jobs[j].status, db'.jobs[j].status)
  {
    hide RevokedToken;
  }

  lemma ReserveIsAnEdge(db: Db, op: Op, j: string)
    requires j in db.jobs && op.OpReserve?
    ensures var db' := Step(db, op).0; j in db'.jobs && CanTransition(db.jobs[j].status, db'.jobs[j].status)
  {
  }

  lemma {:induction false} RunAppend(db: Db, a: seq<Op>, b: seq<Op>)
    ensures Run(db, a + b) == Run(Run(db, a), b)
    decreases |b|
  {
    hide Step;
    if b == [] {
      assert a + b == a;
    } else {
      assert (a + b)[..|a + b| - 1] == a + b[..|b| - 1];
      RunAppend(db, a, b[..|b| - 1]);
    }
  }

  // ---------------------------------------------------------------- what an operator has decided

  ghost predicate IsDraining(db: Db, n: string) {
    n in db.nodes && db.nodes[n].node.status == Draining
  }

  /** The operator resumes the node, or the node is registered again or deleted. */
  predicate EndsDraining(op: Op, n: string) {
    match op
    case OpSetNodeStatus(m, status) => m == n && status != Draining
    case OpUpsert(m, _, _) => m == n
    case OpDeleteNode(m) => m == n
    case _ => false
  }

  lemma StaysDraining(db: Db, op: Op, n: string)
    requires IsDraining(db, n) && !EndsDraining(op, n)
    ensures IsDraining(Step(db, op).0, n)
  {
    hide MaxOf, Numbers, IsHash, RevokedToken, CanTransition, SoundReport, ValidSpec, DistinctKeys;
  }

  /** Draining a node holds, whatever heartbeats report, until it is resumed, registered again or deleted. */
  lemma {:induction false} DrainingHolds(db: Db, ops: seq<Op>, n: string)
    requires IsDraining(db, n) && forall op :: op in ops ==> !EndsDraining(op, n)
    ensures IsDraining(Run(db, ops), n)
    decreases |ops|
  {
    hide Step, IsDraining, EndsDraining;
    if ops != [] {
      var last := ops[|ops| - 1];
      assert last in ops;
      DrainingHolds(db, ops[..|ops| - 1], n);
      StaysDraining(Run(db, ops[..|ops| - 1]), last, n);
    }
  }

  ghost predicate Labelled(db: Db, n: string, labels: map<string, string>) {
    n in db.nodes && db.nodes[n].labels == Some(labels)
  }

  lemma StaysLabelled(db: Db, op: Op, n: string, labels: map<string, string>)
    requires Labelled(db, n, labels) && !(op.OpUpdateNodeMetadata? && op.n == n)
    ensures Labelled(Step(db, op).0, n, labels)
  {
    hide MaxOf, Numbers, IsHash, RevokedToken, CanTransition, SoundReport, ValidSpec, DistinctKeys;
  }

  /** An operator's labels stay, whatever the node reports, until they are replaced. */
  lemma {:induction false} LabelsHold(db: Db, ops: seq<Op>, n: string, labels: map<string, string>)
    requires Labelled(db, n, labels) && forall op :: op in ops ==> !(op.OpUpdateNodeMetadata? && op.n == n)
    ensures Labelled(Run(db, ops), n, labels)
    decreases |ops|
  {
    hide Step, Labelled;
    if ops != [] {
      var last := ops[|ops| - 1];
      assert last in ops;
      LabelsHold(db, ops[..|ops| - 1], n, labels);
      StaysLabelled(Run(db, ops[..|ops| - 1]), last, n, labels);
    }
  }

  // ---------------------------------------------------------------- the retry loop of a status update

  function CurrentAttempt(job: Job): string {
    if job.attempt.Some? then job.attempt.value else ""
  }

  /** The loop, with one element of `rounds` for each round it may still take. */
  ghost function UpdateLoop(db: Db, j: string, status: JobStatus, rounds: seq<Round>): (Db, Outcome)
    decreases |rounds|
  {
    if rounds == [] then (db, Conflict)
    else
      var seen := Run(db, rounds[0].before);
      if j !in seen.jobs then (seen, NotFound)
      else
        var job := seen.jobs[j];
        if job.status == status && job.observed == status then (seen, Done)
        else if !CanTransition(job.status, status) then (seen, Conflict)
        else
          var now := Run(seen, rounds[0].between);
          var committed := CommitStatus(now, j, job.status, CurrentAttempt(job), status);
          if committed.1 == Retry then UpdateLoop(now, j, status, rounds[1..]) else committed
  }

  ghost predicate DoneBy(op: Op, rounds: seq<Round>) {
    exists k :: 0 <= k < |rounds| && (op in rounds[k].before || op in rounds[k].between)
  }

  /** The result is what the others did, followed by at most one commit along a legal
      transition, after which the job and its current attempt both show the status. */
  ghost predicate Explains(db: Db, j: string, status: JobStatus, db': Db, outcome: Outcome, others: seq<Op>, commit: seq<Op>) {
    && db' == Run(db, others + commit)
    && |commit| <= 1
    && (forall op :: op in commit ==>
          && op.OpCommit? && op.j == j && op.to == status && CanTransition(op.from, status)
          && outcome == Done && j in db'.jobs && db'.jobs[j].attempt == Some(op.attempt)
          && op.attempt in db'.attempts && db'.attempts[op.attempt].status == status)
    && (outcome == Done ==> j in db'.jobs && db'.jobs[j].status == status && db'.jobs[j].observed == status)
    && (outcome != Done ==> commit == [])
  }

  /** Whatever interferes, a status update amounts to what the others did, followed by at most
      one commit along a legal transition.  When it commits, the job and its current attempt
      both show the status; when it reports failure, it changed neither. */
  lemma {:induction false} UpdateIsOneLegalCommit(db: Db, j: string, status: JobStatus, rounds: seq<Round>)
      returns (others: seq<Op>, commit: seq<Op>)
    ensures Explains(db, j, status, UpdateLoop(db, j, status, rounds).0, UpdateLoop(db, j, status, rounds).1, others, commit)
    ensures forall op :: op in others ==> DoneBy(op, rounds)
    decreases |rounds|
  {
    hide CommitStatus, CanTransition, Run;
    others, commit := [], [];
    if rounds == [] {
      NothingDone(db, j, status);
    } else {
      var first := rounds[0];
      var seen := Run(db, first.before);
      others := first.before;
      assert others + [] == others;
      forall op | op in others ensures DoneBy(op, rounds) {
        assert op in rounds[0].before;
      }
      if j in seen.jobs {
        var job := seen.jobs[j];
        if !(job.status == status && job.observed == status) && CanTransition(job.status, status) {
          var now := Run(seen, first.between);
          RunAppend(db, first.before, first.between);
          others := first.before + first.between;
          forall op | op in others ensures DoneBy(op, rounds) {
            assert op in rounds[0].before || op in rounds[0].between;
          }
          var attempt := CurrentAttempt(job);
          if CommitStatus(now, j, job.status, attempt, status).1 == Retry {
            var more, last := UpdateIsOneLegalCommit(now, j, status, rounds[1..]);
            LaterRounds(more, rounds);
            RetryExplained(db, others, now, j, status, UpdateLoop(now, j, status, rounds[1..]).0,
                           UpdateLoop(now, j, status, rounds[1..]).1, more, last);
            others, commit := others + more, last;
          } else {
            commit := CommitExplained(db, others, now, j, job.status, attempt, status);
          }
        }
      }
    }
  }

  lemma CommitRetries(db: Db, j: string, from: JobStatus, attempt: string, to: JobStatus)
    requires j !in db.jobs || db.jobs[j].status != from || db.jobs[j].attempt != Some(attempt)
    ensures CommitStatus(db, j, from, attempt, to) == (db, Retry)
  {
  }

  lemma CommitConflicts(db: Db, j: string, from: JobStatus, attempt: string, to: JobStatus)
    requires j in db.jobs && db.jobs[j].status == from && db.jobs[j].attempt == Some(attempt)
    requires attempt !in db.attempts || db.attempts[attempt].job != j
    ensures CommitStatus(db, j, from, attempt, to) == (db, Conflict)
  {
  }

  lemma CommitWrites(db: Db, j: string, from: JobStatus, attempt: string, to: JobStatus)
    requires j in db.jobs && db.jobs[j].status == from && db.jobs[j].attempt == Some(attempt)
    requires attempt in db.attempts && db.attempts[attempt].job == j
    ensures CommitStatus(db, j, from, attempt, to)
            == (db.(jobs := db.jobs[j := db.jobs[j].(status := to, observed := to)],
                    attempts := db.attempts[attempt := Reported(db.attempts[attempt], attempt, to)]), Done)
  {
    hide Reported;
  }

  lemma RetryChangesNothing(db: Db, j: string, from: JobStatus, attempt: string, to: JobStatus)
    ensures CommitStatus(db, j, from, attempt, to).1 == Retry ==> CommitStatus(db, j, from, attempt, to).0 == db
  {
  }

  lemma NothingDone(db: Db, j: string, status: JobStatus)
    ensures Explains(db, j, status, db, Conflict, [], [])
  {
  }

  lemma LaterRounds(more: seq<Op>, rounds: seq<Round>)
    requires rounds != [] && forall op :: op in more ==> DoneBy(op, rounds[1..])
    ensures forall op :: op in more ==> DoneBy(op, rounds)
  {
  }

  lemma {:induction false} RetryExplained(db: Db, others: seq<Op>, now: Db, j: string, status: JobStatus, db': Db, outcome: Outcome,
                       more: seq<Op>, last: seq<Op>)
    requires now == Run(db, others) && Explains(now, j, status, db', outcome, more, last)
    ensures Explains(db, j, status, db', outcome, others + more, last)
  {
    hide Run, CanTransition;
    RunAppend(db, others, more + last);
    assert others + (more + last) == (others + more) + last;
  }

  lemma {:induction false} CommitExplained(db: Db, others: seq<Op>, now: Db, j: string, from: JobStatus, attempt: string, to: JobStatus)
      returns (commit: seq<Op>)
    requires now == Run(db, others) && CanTransition(from, to)
    requires CommitStatus(now, j, from, attempt, to).1 != Retry
    ensures Explains(db, j, to, CommitStatus(now, j, from, attempt, to).0, CommitStatus(now, j, from, attempt, to).1, others, commit)
  {
    hide CanTransition, Run, IsTerminal, RevokedToken;
    FinishCommit(db, others, now, j, from, attempt, to);
    commit := [];
    assert others + [] == others;
    if CommitStatus(now, j, from, attempt, to).1 == Done {
      commit := [OpCommit(j, from, attempt, to)];
    }
  }

  lemma FinishCommit(db: Db, others: seq<Op>, now: Db, j: string, from: JobStatus, attempt: string, to: JobStatus)
    requires now == Run(db, others) && CanTransition(from, to)
    ensures CommitStatus(now, j, from, attempt, to).0 == Run(db, others + [OpCommit(j, from, attempt, to)])
    ensures CommitStatus(now, j, from, attempt, to).1 != Done ==> CommitStatus(now, j, from, attempt, to).0 == now
  {
  }
}
