/** What the job tables say about the use of a node, and why no step other than a reservation
    ever raises it. */
module Ledger {
  import opened Domain
  import opened Fleet
  import opened Capacity
  import opened Jobs

  // ---------------------------------------------------------------- usage

  /** Demand of the listed jobs on node `n`. */
  function Usage(jobs: map<string, Job>, order: seq<string>, n: string, kind: Kind): int {
    if order == [] then 0
    else
      var last := order[|order| - 1];
      Usage(jobs, order[..|order| - 1], n, kind) + (if last in jobs then JobDemand(jobs[last], n, kind) else 0)
  }

  /** The undeleted jobs, newest first. */
  function Listing(jobs: map<string, Job>, order: seq<string>): seq<Job> {
    if order == [] then []
    else
      var last := order[|order| - 1];
      var rest := Listing(jobs, order[..|order| - 1]);
      if last in jobs && jobs[last].status != Deleted then [jobs[last]] + rest else rest
  }

  lemma {:induction false} DemandPrepend(job: Job, rest: seq<Job>, n: string, kind: Kind)
    ensures Demand([job] + rest, n, kind) == JobDemand(job, n, kind) + Demand(rest, n, kind)
  {
    if rest == [] {
      assert [job] + rest == [job] && [job][..0] == [];
    } else {
      assert ([job] + rest)[..|rest|] == [job] + rest[..|rest| - 1];
      DemandPrepend(job, rest[..|rest| - 1], n, kind);
    }
  }

  /** Leaving out deleted jobs leaves out no demand. */
  lemma {:induction false} ListingDemandsUsage(jobs: map<string, Job>, order: seq<string>, n: string, kind: Kind)
    ensures Demand(Listing(jobs, order), n, kind) == Usage(jobs, order, n, kind)
  {
    if order != [] {
      var last := order[|order| - 1];
      var rest := order[..|order| - 1];
      ListingDemandsUsage(jobs, rest, n, kind);
      if last in jobs {
        DemandPrepend(jobs[last], Listing(jobs, rest), n, kind);
      }
    }
  }

  lemma {:induction false} UsageElsewhere(jobs: map<string, Job>, order: seq<string>, j: string, job: Job, n: string, kind: Kind)
    requires j !in order
    ensures Usage(jobs[j := job], order, n, kind) == Usage(jobs, order, n, kind)
  {
    if order != [] {
      UsageElsewhere(jobs, order[..|order| - 1], j, job, n, kind);
    }
  }

  /** Changing one listed job changes the usage by the difference of its demand. */
  lemma {:induction false} UsageUpdate(jobs: map<string, Job>, order: seq<string>, j: string, job: Job, n: string, kind: Kind)
    requires j in jobs && j in order
    requires forall i, k :: 0 <= i < k < |order| ==> order[i] != order[k]
    ensures Usage(jobs[j := job], order, n, kind)
            == Usage(jobs, order, n, kind) - JobDemand(jobs[j], n, kind) + JobDemand(job, n, kind)
    decreases |order|
  {
    hide JobDemand;
    var rest, last := order[..|order| - 1], order[|order| - 1];
    if last == j {
      UsageElsewhere(jobs, rest, j, job, n, kind);
    } else {
      var i :| 0 <= i < |order| && order[i] == j;
      assert rest[i] == j;
      UsageUpdate(jobs, rest, j, job, n, kind);
    }
  }

  /** Usage falls when no job demands more. */
  lemma {:induction false} UsageFalls(jobs: map<string, Job>, jobs': map<string, Job>, order: seq<string>, n: string, kind: Kind)
    requires forall j :: j in order ==> j in jobs && j in jobs' && JobDemand(jobs'[j], n, kind) <= JobDemand(jobs[j], n, kind)
    ensures Usage(jobs', order, n, kind) <= Usage(jobs, order, n, kind)
    decreases |order|
  {
    hide JobDemand;
    if order != [] {
      var last := order[|order| - 1];
      assert last in order;
      UsageFalls(jobs, jobs', order[..|order| - 1], n, kind);
    }
  }

  lemma {:induction false} UsageOfIdle(jobs: map<string, Job>, order: seq<string>, more: seq<string>, n: string, kind: Kind)
    requires forall j :: j in more ==> j in jobs && !IsActive(jobs[j].status)
    ensures Usage(jobs, order + more, n, kind) == Usage(jobs, order, n, kind)
    decreases |more|
  {
    if more == [] {
      assert order + more == order;
    } else {
      var last := more[|more| - 1];
      assert last in more;
      assert (order + more)[..|order + more| - 1] == order + more[..|more| - 1];
      UsageOfIdle(jobs, order, more[..|more| - 1], n, kind);
    }
  }

  // ---------------------------------------------------------------- totals

  function PackageTotal(packages: seq<CPUPackage>, id: string): int {
    if packages == [] then 0
    else if packages[0].id == id then packages[0].total
    else PackageTotal(packages[1..], id)
  }

  /** What a node offers; a package it does not have offers nothing. */
  function Total(node: Node, kind: Kind): int {
    match kind
    case Cpu => node.cpuTotal
    case Memory => node.memoryTotal
    case Package(p) => PackageTotal(node.packages, p)
  }

  lemma {:induction false} PackageTotalIs(packages: seq<CPUPackage>, q: CPUPackage)
    requires q in packages
    requires forall i, k :: 0 <= i < k < |packages| ==> packages[i].id != packages[k].id
    ensures PackageTotal(packages, q.id) == q.total
    decreases |packages|
  {
    if packages[0] != q {
      var i :| 0 <= i < |packages| && packages[i] == q;
      assert packages[1..][i - 1] == q;
      PackageTotalIs(packages[1..], q);
    }
  }

  lemma {:induction false} PackageTotalSource(packages: seq<CPUPackage>, id: string)
    ensures PackageTotal(packages, id) == 0 || exists p :: p in packages && p.id == id && PackageTotal(packages, id) == p.total
    decreases |packages|
  {
    if packages != [] {
      PackageTotalSource(packages[1..], id);
      assert packages[0] in packages;
    }
  }

  lemma {:induction false} TotalsNonNegative(node: Node, kind: Kind)
    requires ValidNode(node)
    ensures Total(node, kind) >= 0
  {
    if kind.Package? {
      PackageTotalSource(node.packages, kind.id);
    }
  }

  lemma TotalsGrow(before: Node, after: Node, kind: Kind)
    requires NotShrinking(before, after) && ValidNode(after)
    ensures Total(before, kind) <= Total(after, kind)
  {
    if kind.Package? {
      TotalsNonNegative(after, kind);
      PackageTotalSource(before.packages, kind.id);
      if PackageTotal(before.packages, kind.id) != 0 {
        var p :| p in before.packages && p.id == kind.id && PackageTotal(before.packages, kind.id) == p.total;
        var q :| q in after.packages && q.id == p.id && p.total <= q.total;
        PackageTotalIs(after.packages, q);
      }
    }
  }

  // ---------------------------------------------------------------- the two safety properties

  ghost function Load(db: Db, n: string, kind: Kind): int {
    Usage(db.jobs, db.order, n, kind)
  }

  /** No node is overcommitted. */
  ghost predicate Fits(db: Db) {
    forall n, kind :: n in db.nodes ==> Load(db, n, kind) <= Total(db.nodes[n].node, kind)
  }

  /** Job `j` is active on node `n` and its current attempt holds the GPU. */
  ghost predicate HoldsGPU(db: Db, j: string, n: string, uuid: string) {
    && j in db.jobs && IsActive(db.jobs[j].status) && db.jobs[j].node == Some(n)
    && db.jobs[j].attempt.Some? && db.jobs[j].attempt.value in db.attempts
    && uuid in db.attempts[db.jobs[j].attempt.value].gpus
  }

  ghost predicate Exclusive(db: Db) {
    forall j, k, n, uuid :: HoldsGPU(db, j, n, uuid) && HoldsGPU(db, k, n, uuid) ==> j == k
  }

  /** A held GPU is always among those the store reports as allocated. */
  lemma HeldIsAllocated(db: Db, j: string, n: string, uuid: string)
    requires Inv(db) && HoldsGPU(db, j, n, uuid)
    ensures AllocatedOn(db, n, uuid)
  {
    hide NumbersOk, TokensOk, TokensUnique;
    assert JobOk(db, j, db.jobs[j]);
    var x := db.jobs[j].attempt.value;
    assert RowOk(db, x, db.attempts[x]);
    assert RowHolds(db, db.attempts[x].assignment, n, uuid);
  }

  // ---------------------------------------------------------------- everything but a reservation releases

  ghost predicate NodesGrow(nodes: map<string, NodeRow>, nodes': map<string, NodeRow>) {
    forall n :: n in nodes ==> n in nodes' && NotShrinking(nodes[n].node, nodes'[n].node)
  }

  ghost predicate JobsRelease(db: Db, db': Db) {
    && (forall j :: j in db.jobs ==> j in db'.jobs && JobEvolves(db.jobs[j], db'.jobs[j]))
    && (forall j :: j in db'.jobs && j !in db.jobs ==> !IsActive(db'.jobs[j].status))
    && db.order <= db'.order
    && (forall i :: |db.order| <= i < |db'.order| ==> db'.order[i] in db'.jobs && !IsActive(db'.jobs[db'.order[i]].status))
  }

  /** The rely condition of the scheduler. */
  ghost predicate Releases(db: Db, db': Db) {
    && JobsRelease(db, db') && NodesGrow(db.nodes, db'.nodes)
    && SameAttempts(db.attempts, db'.attempts)
  }

  lemma LoadFalls(db: Db, db': Db, n: string, kind: Kind)
    requires Inv(db) && JobsRelease(db, db')
    ensures Load(db', n, kind) <= Load(db, n, kind)
  {
    hide NumbersOk, TokensOk, TokensUnique, RowsOk, NodesOk, DeletingOk, Usage;
    forall j | j in db.order ensures j in db.jobs && j in db'.jobs && JobDemand(db'.jobs[j], n, kind) <= JobDemand(db.jobs[j], n, kind) {
      assert JobOk(db, j, db.jobs[j]) && JobEvolves(db.jobs[j], db'.jobs[j]);
    }
    hide JobEvolves, JobsOk, JobDemand;
    UsageFalls(db.jobs, db'.jobs, db.order, n, kind);
    var more := db'.order[|db.order|..];
    assert db'.order == db.order + more;
    UsageOfIdle(db'.jobs, db.order, more, n, kind);
  }

  lemma HoldingPersists(db: Db, db': Db, j: string, n: string, uuid: string)
    requires JobsOk(db) && JobsRelease(db, db') && SameAttempts(db.attempts, db'.attempts) && HoldsGPU(db', j, n, uuid)
    ensures HoldsGPU(db, j, n, uuid)
  {
  }

  /** Releasing keeps both safety properties. */
  lemma ReleaseKeepsSafety(db: Db, db': Db)
    requires Inv(db) && Inv(db') && Releases(db, db') && Fits(db) && Exclusive(db)
    requires forall n :: n in db'.nodes && n !in db.nodes ==> forall kind :: Load(db', n, kind) == 0
    ensures Fits(db') && Exclusive(db')
  {
    hide NumbersOk, TokensOk, TokensUnique, RowsOk, OrderOk, DeletingOk, JobsOk, JobsRelease, SameAttempts, HoldsGPU, Load, Total,
         NotShrinking, ValidNode;
    forall n, kind | n in db'.nodes ensures Load(db', n, kind) <= Total(db'.nodes[n].node, kind) {
      if n in db.nodes {
        LoadFalls(db, db', n, kind);
        TotalsGrow(db.nodes[n].node, db'.nodes[n].node, kind);
      } else {
        TotalsNonNegative(db'.nodes[n].node, kind);
      }
    }
    forall j, k, n, uuid | HoldsGPU(db', j, n, uuid) && HoldsGPU(db', k, n, uuid) ensures j == k {
      HoldingPersists(db, db', j, n, uuid);
      HoldingPersists(db, db', k, n, uuid);
    }
  }

  lemma {:induction false} NoneRunning(jobs: map<string, Job>, order: seq<string>, n: string, kind: Kind)
    requires forall j :: j in order ==> j in jobs && !RunsOn(jobs[j], n)
    ensures Usage(jobs, order, n, kind) == 0
  {
    hide RunsOn;
    if order != [] {
      assert order[|order| - 1] in order;
      NoneRunning(jobs, order[..|order| - 1], n, kind);
    }
  }

  lemma JobsStay(db: Db)
    requires JobsOk(db)
    ensures forall j :: j in db.jobs ==> JobEvolves(db.jobs[j], db.jobs[j])
  {
  }

  lemma NodesStay(nodes: map<string, NodeRow>)
    ensures NodesGrow(nodes, nodes)
  {
  }

  /** One job row changed. */
  lemma OneJobReleases(db: Db, db': Db, j: string)
    requires JobsOk(db) && j in db.jobs && j in db'.jobs && JobEvolves(db.jobs[j], db'.jobs[j])
    requires db'.jobs == db.jobs[j := db'.jobs[j]] && db'.order == db.order
    ensures JobsRelease(db, db')
  {
  }

  lemma NoJobReleases(db: Db, db': Db)
    requires JobsOk(db) && db'.jobs == db.jobs && db'.order == db.order
    ensures JobsRelease(db, db')
  {
  }

  lemma CreateReleases(db: Db, j: string, spec: JobSpec)
    requires JobsOk(db)
    ensures JobsRelease(db, CreateJob(db, j, spec).0)
  {
    JobsStay(db);
    hide JobsOk, ValidSpec, JobEvolves;
    var db' := CreateJob(db, j, spec).0;
    if db' != db {
      assert db'.order == db.order + [j];
    }
  }

  lemma {:induction false} CommitReleases(db: Db, j: string, from: JobStatus, attempt: string, to: JobStatus)
    requires JobsOk(db) && TokensOk(db) && CanTransition(from, to)
    ensures var db' := CommitStatus(db, j, from, attempt, to).0; JobsRelease(db, db') && SameAttempts(db.attempts, db'.attempts)
  {
    hide JobEvolves, SameAttempts, CanTransition, JobsOk, TokensOk, JobsRelease, IsHash, IsActive;
    var db' := CommitStatus(db, j, from, attempt, to).0;
    if CommitStatus(db, j, from, attempt, to).1 == Done {
      CommitEvolves(db, j, from, attempt, to);
      OneJobReleases(db, db', j);
    } else {
      NoJobReleases(db, db');
      AttemptsStay(db.attempts);
    }
  }

  lemma AttemptsStay(attempts: map<string, Attempt>)
    ensures SameAttempts(attempts, attempts)
  {
  }

  lemma {:induction false} StopReleases(db: Db, j: string)
    requires JobsOk(db)
    ensures var db' := RequestStop(db, j).0; JobsRelease(db, db') && SameAttempts(db.attempts, db'.attempts)
  {
    hide JobsRelease, JobsOk;
    var db' := RequestStop(db, j).0;
    if RequestStop(db, j).1 == Done {
      JobStays(db, j);
      assert JobEvolves(db.jobs[j], db'.jobs[j]) by {
        StopEvolves(db, j);
      }
      OneJobReleases(db, db', j);
    } else {
      NoJobReleases(db, db');
    }
  }

  lemma {:induction false} SimpleReleases(db: Db, j: string)
    requires JobsOk(db)
    ensures JobsRelease(db, Rerun(db, j).0)
    ensures JobsRelease(db, MarkDeleting(db, j).0)
  {
    hide JobsRelease;
    NoJobReleases(db, db);
    if j in db.jobs {
      assert JobOk(db, j, db.jobs[j]);
      NoJobReleases(db, MarkDeleting(db, j).0.(jobs := db.jobs));
      if Rerun(db, j).1 == Done {
        OneJobReleases(db, Rerun(db, j).0, j);
      }
      if MarkDeleting(db, j).1 == Done {
        assert db.jobs[j := db.jobs[j]] == db.jobs;
        OneJobReleases(db, MarkDeleting(db, j).0, j);
      }
    }
  }

  lemma DeletedReleases(db: Db, j: string)
    requires JobsOk(db) && DeletingOk(db) && j in db.deleting
    ensures JobsRelease(db, MarkDeleted(db, j).0)
  {
  }

  lemma StaleReleases(db: Db, offlineBefore: int, lostBefore: int)
    requires JobsOk(db)
    ensures Releases(db, MarkStaleNodes(db, offlineBefore, lostBefore))
  {
    StaleGrows(db, offlineBefore, lostBefore);
    LostEvolves(db, offlineBefore, lostBefore);
    hide MarkStaleNodes, JobEvolves, JobsOk, NodesGrow, SameAttempts;
  }

  /** One row of the node table changed for one that offers no less. */
  lemma OneNodeGrows(nodes: map<string, NodeRow>, n: string, row: NodeRow)
    requires n in nodes ==> NotShrinking(nodes[n].node, row.node)
    ensures NodesGrow(nodes, nodes[n := row])
  {
  }

  lemma Offers(a: Node, b: Node)
    requires a.cpuTotal == b.cpuTotal && a.memoryTotal == b.memoryTotal && a.packages == b.packages
    ensures NotShrinking(a, b)
    ensures forall c :: NotShrinking(c, a) ==> NotShrinking(c, b)
  {
  }

  lemma HeartbeatGrows(db: Db, n: string, report: Node, now: int)
    requires SoundReport(db, n, report)
    ensures NodesGrow(db.nodes, Heartbeat(db, n, report, now).0.nodes)
  {
    NodesStay(db.nodes);
    hide ValidNode, NotShrinking, NodesGrow;
    if Heartbeat(db, n, report, now).1 == Done {
      var row := Heartbeat(db, n, report, now).0.nodes[n];
      Offers(report, row.node);
      OneNodeGrows(db.nodes, n, row);
    }
  }

  lemma UpsertGrows(db: Db, n: string, report: Node, now: int)
    requires SoundReport(db, n, report)
    ensures NodesGrow(db.nodes, UpsertNode(db, n, report, now).0.nodes)
  {
  }

  lemma DeleteGrows(db: Db, n: string)
    ensures NodesGrow(db.nodes, DeleteNode(db, n).0.nodes)
  {
  }

  lemma OperatorGrows(db: Db, n: string, status: NodeStatus, labels: map<string, string>)
    ensures NodesGrow(db.nodes, SetNodeStatus(db, n, status).0.nodes)
    ensures NodesGrow(db.nodes, UpdateNodeMetadata(db, n, labels).0.nodes)
  {
  }

  lemma StaleGrows(db: Db, offlineBefore: int, lostBefore: int)
    ensures NodesGrow(db.nodes, MarkStaleNodes(db, offlineBefore, lostBefore).nodes)
  {
  }

  /** Only job rows changed. */
  lemma JobRowsRelease(db: Db, db': Db)
    requires JobsRelease(db, db') && db'.nodes == db.nodes && db'.attempts == db.attempts
    ensures Releases(db, db')
  {
  }

  lemma CreateReleasesStep(db: Db, j: string, spec: JobSpec)
    requires JobsOk(db)
    ensures Releases(db, CreateJob(db, j, spec).0)
  {
    CreateReleases(db, j, spec);
    hide JobsOk, JobsRelease, ValidSpec, Releases;
    JobRowsRelease(db, CreateJob(db, j, spec).0);
  }

  lemma RerunStepReleases(db: Db, j: string)
    requires JobsOk(db)
    ensures Releases(db, Rerun(db, j).0)
  {
    SimpleReleases(db, j);
    hide JobsOk, JobsRelease, Releases, IsTerminal, IsActive;
    JobRowsRelease(db, Rerun(db, j).0);
  }

  lemma DeletingTouchesJobs(db: Db, j: string)
    ensures MarkDeleting(db, j).0.nodes == db.nodes && MarkDeleting(db, j).0.attempts == db.attempts
  {
  }

  lemma {:induction false} DeletingStepReleases(db: Db, j: string)
    requires JobsOk(db)
    ensures Releases(db, MarkDeleting(db, j).0)
  {
    SimpleReleases(db, j);
    DeletingTouchesJobs(db, j);
    hide JobsOk, JobsRelease, Releases, MarkDeleting;
    JobRowsRelease(db, MarkDeleting(db, j).0);
  }

  lemma DeletedStepReleases(db: Db, j: string)
    requires JobsOk(db) && DeletingOk(db) && j in db.deleting
    ensures Releases(db, MarkDeleted(db, j).0)
  {
    DeletedReleases(db, j);
    hide JobsOk, JobsRelease, Releases, IsTerminal, IsActive;
    JobRowsRelease(db, MarkDeleted(db, j).0);
  }

  /** Every operation but a reservation only releases. */
  lemma {:induction false} StepReleases(db: Db, op: Op)
    requires Inv(db) && !op.OpReserve?
    ensures Releases(db, Step(db, op).0)
  {
    NoChangeReleases(db);
    var db' := Step(db, op).0;
    hide JobsOk, TokensOk, TokensUnique, NumbersOk, RowsOk, OrderOk, NodesOk, DeletingOk, Releases, CreateJob, Rerun, MarkDeleting,
         MarkDeleted, CommitStatus, RequestStop, MarkStaleNodes, AcceptAssignment, Heartbeat, UpsertNode, DeleteNode,
         SetNodeStatus, UpdateNodeMetadata, SoundReport, CanTransition, IsHash;
    match op
    case OpCreate(j, spec) => CreateReleasesStep(db, j, spec);
    case OpCommit(j, from, attempt, to) => CommitReleasesStep(db, j, from, attempt, to);
    case OpRerun(j) => RerunStepReleases(db, j);
    case OpStop(j) => StopReleasesStep(db, j);
    case OpMarkDeleting(j) => DeletingStepReleases(db, j);
    case OpMarkDeleted(j) =>
      if j in db.deleting {
        DeletingIsOk(db);
        DeletedStepReleases(db, j);
      }
    case OpMarkStale(offlineBefore, lostBefore) => StaleReleases(db, offlineBefore, lostBefore);
    case OpAccept(node, assignment) => AcceptReleases(db, node, assignment);
    case OpHeartbeat(n, report, now) =>
      if SoundReport(db, n, report) {
        ReportReleases(db, db', n, report, now);
      }
    case OpUpsert(n, report, now) =>
      if SoundReport(db, n, report) {
        ReportReleases(db, db', n, report, now);
      }
    case OpDeleteNode(n) => NodeDeletionReleases(db, n);
    case OpSetNodeStatus(n, status) => OperatorReleases(db, n, status, map[]);
    case OpUpdateNodeMetadata(n, labels) => OperatorReleases(db, n, Online, labels);
  }

  lemma DeletingIsOk(db: Db)
    requires Inv(db)
    ensures DeletingOk(db)
  {
  }

  lemma NoChangeReleases(db: Db)
    requires Inv(db)
    ensures Releases(db, db)
  {
  }

  lemma {:induction false} CommitReleasesStep(db: Db, j: string, from: JobStatus, attempt: string, to: JobStatus)
    requires Inv(db)
    ensures Releases(db, Step(db, OpCommit(j, from, attempt, to)).0)
  {
    NodesStay(db.nodes);
    AttemptsStay(db.attempts);
    NoJobReleases(db, db);
    if CanTransition(from, to) {
      CommitReleases(db, j, from, attempt, to);
    }
    hide JobsOk, TokensOk, TokensUnique, NumbersOk, RowsOk, OrderOk, NodesOk, DeletingOk, NodesGrow, SameAttempts, JobsRelease,
         CanTransition;
  }

  lemma {:induction false} StopReleasesStep(db: Db, j: string)
    requires Inv(db)
    ensures Releases(db, RequestStop(db, j).0)
  {
    NodesStay(db.nodes);
    StopReleases(db, j);
    hide JobsOk, TokensOk, TokensUnique, NumbersOk, RowsOk, OrderOk, NodesOk, DeletingOk, NodesGrow, SameAttempts, JobsRelease;
  }

  lemma AcceptReleases(db: Db, node: string, assignment: string)
    requires JobsOk(db)
    ensures Releases(db, AcceptAssignment(db, node, assignment).0)
  {
    NodesStay(db.nodes);
    NoJobReleases(db, AcceptAssignment(db, node, assignment).0);
    hide JobsOk, NodesGrow, JobsRelease, RevokedToken;
  }

  lemma {:induction false} ReportReleases(db: Db, db': Db, n: string, report: Node, now: int)
    requires Inv(db) && SoundReport(db, n, report)
    requires db' == Heartbeat(db, n, report, now).0 || db' == UpsertNode(db, n, report, now).0
    ensures Releases(db, db')
  {
    HeartbeatGrows(db, n, report, now);
    UpsertGrows(db, n, report, now);
    OnlyNodesRelease(db, db');
  }

  lemma NodeDeletionReleases(db: Db, n: string)
    requires Inv(db)
    ensures Releases(db, DeleteNode(db, n).0)
  {
    DeleteGrows(db, n);
    hide NodesGrow;
    OnlyNodesRelease(db, DeleteNode(db, n).0);
  }

  lemma OperatorReleases(db: Db, n: string, status: NodeStatus, labels: map<string, string>)
    requires Inv(db)
    ensures Releases(db, SetNodeStatus(db, n, status).0)
    ensures Releases(db, UpdateNodeMetadata(db, n, labels).0)
  {
    OperatorGrows(db, n, status, labels);
    hide NodesGrow;
    OnlyNodesRelease(db, SetNodeStatus(db, n, status).0);
    OnlyNodesRelease(db, UpdateNodeMetadata(db, n, labels).0);
  }

  lemma OnlyNodesRelease(db: Db, db': Db)
    requires Inv(db) && db' == db.(nodes := db'.nodes) && NodesGrow(db.nodes, db'.nodes)
    ensures Releases(db, db')
  {
    AttemptsStay(db.attempts);
    NoJobReleases(db, db');
    hide JobsOk, TokensOk, TokensUnique, NumbersOk, RowsOk, OrderOk, NodesOk, DeletingOk, NodesGrow, SameAttempts, JobsRelease;
  }

  /** What a report may change: storing one for node `n` keeps every node within its totals
      exactly when the report still offers what is in use.  The service accepts any report, so
      the safety results assume reports that do not shrink a node. */
  lemma ReportKeepsFitIff(db: Db, n: string, report: Node, now: int)
    requires Fits(db) && n in db.nodes
    ensures Fits(db.(nodes := db.nodes[n := db.nodes[n].(node := report.(id := n), heartbeat := now)]))
            <==> forall kind :: Load(db, n, kind) <= Total(report, kind)
  {
    var db' := db.(nodes := db.nodes[n := db.nodes[n].(node := report.(id := n), heartbeat := now)]);
    forall m, kind ensures Load(db', m, kind) == Load(db, m, kind) {
    }
    forall kind ensures Total(report.(id := n), kind) == Total(report, kind) {
    }
    hide Load, Total;
    if Fits(db') {
      forall kind ensures Load(db, n, kind) <= Total(report, kind) {
        assert Load(db', n, kind) <= Total(db'.nodes[n].node, kind);
      }
    }
  }
}
