/** The scheduler running against everybody else: whatever is interleaved with its passes,
    no node is overcommitted and no GPU is held twice (internal/scheduler/scheduler.go:51-82). */
module Scheduling {
  import opened Domain
  import opened Fleet
  import opened Capacity
  import opened Jobs
  import opened Ledger
  import Placement

  // ---------------------------------------------------------------- the transition system

  datatype Waiting = Waiting(job: string, spec: JobSpec)

  /** How far the one scheduler is in its pass, and the copies it has read. */
  datatype Phase =
    | Idle
    | HaveQueue(queue: seq<Waiting>)
    | HaveNodes(queue: seq<Waiting>, nodes: seq<Node>)
    | HaveJobs(queue: seq<Waiting>, nodes: seq<Node>, jobs: seq<Job>)
    | Passing(queue: seq<Waiting>, nodes: seq<Node>)

  datatype System = System(db: Db, phase: Phase)

  /** A step of the world outside, or one access of the scheduler to the store. */
  datatype Action =
    | Env(op: Op)
    | ReadQueue
    | ReadNodes(ids: seq<string>)
    | ReadJobs
    | ReadAllocations(allocations: map<string, set<string>>)
    | Place(attempt: string, assignment: string, token: string)
    | Abort

  /** The queued jobs, oldest first. */
  function Queue(jobs: map<string, Job>, order: seq<string>): seq<Waiting> {
    if order == [] then []
    else
      var last := order[|order| - 1];
      var before := Queue(jobs, order[..|order| - 1]);
      if last in jobs && jobs[last].status == Queued then before + [Waiting(last, jobs[last].spec)] else before
  }

  /** A node as listed: nothing counted on it yet. */
  function Blank(node: Node): Node {
    node.(cpuAllocated := 0, memoryAllocated := 0,
          packages := seq(|node.packages|, i requires 0 <= i < |node.packages| => node.packages[i].(used := 0)),
          gpus := seq(|node.gpus|, i requires 0 <= i < |node.gpus| => node.gpus[i].(busy := false)))
  }

  /** An operator's labels count instead of the reported ones. */
  function Shown(row: NodeRow): Node {
    if row.labels.Some? then row.node.(labels := row.labels.value) else row.node
  }

  function ListedNodes(rows: map<string, NodeRow>, ids: seq<string>): (r: seq<Node>)
    requires forall i :: 0 <= i < |ids| ==> ids[i] in rows
    ensures |r| == |ids|
  {
    seq(|ids|, i requires 0 <= i < |ids| => Blank(Shown(rows[ids[i]])))
  }

  /** The nodes not removed, each once, in some order. */
  ghost predicate ListsNodes(rows: map<string, NodeRow>, ids: seq<string>) {
    && (forall i :: 0 <= i < |ids| ==> ids[i] in rows && !rows[ids[i]].removed)
    && (forall i, k :: 0 <= i < k < |ids| ==> ids[i] != ids[k])
    && (forall n :: n in rows && !rows[n].removed ==> n in ids)
  }

  ghost predicate Represents(allocations: map<string, set<string>>, db: Db) {
    forall n, uuid :: uuid in Taken(allocations, n) <==> AllocatedOn(db, n, uuid)
  }

  function GPUSet(gpus: seq<string>): set<string> {
    set id | id in gpus
  }

  ghost function PlaceFirst(db: Db, queue: seq<Waiting>, nodes: seq<Node>, attempt: string, assignment: string, token: string): System
    requires queue != []
  {
    var first := queue[0];
    var chosen := Placement.Select(first.spec, nodes);
    if chosen.None? then System(db, Passing(queue[1..], nodes))
    else
      var reserved := Step(db, OpReserve(first.job, chosen.value.node.id, attempt, assignment, token, chosen.value.gpuUUIDs));
      match reserved.1
      case Done =>
        System(reserved.0, Passing(queue[1..],
               ReserveAll(nodes, chosen.value.node.id, first.spec.resources, GPUSet(chosen.value.gpuUUIDs))))
      case Conflict => System(db, Passing(queue[1..], nodes))
      case _ => System(db, Idle)
  }

  ghost function Act(sys: System, action: Action): System {
    match action
    case Env(op) => if op.OpReserve? then sys else sys.(db := Step(sys.db, op).0)
    case ReadQueue => if sys.phase.Idle? then sys.(phase := HaveQueue(Queue(sys.db.jobs, sys.db.order))) else sys
    case ReadNodes(ids) =>
      if sys.phase.HaveQueue? && ListsNodes(sys.db.nodes, ids)
      then sys.(phase := HaveNodes(sys.phase.queue, ListedNodes(sys.db.nodes, ids))) else sys
    case ReadJobs =>
      if sys.phase.HaveNodes?
      then sys.(phase := HaveJobs(sys.phase.queue, sys.phase.nodes, Listing(sys.db.jobs, sys.db.order))) else sys
    case ReadAllocations(allocations) =>
      if sys.phase.HaveJobs? && Represents(allocations, sys.db)
      then sys.(phase := Passing(sys.phase.queue, AccountAll(sys.phase.nodes, sys.phase.jobs, allocations))) else sys
    case Place(attempt, assignment, token) =>
      if !sys.phase.Passing? then sys
      else if sys.phase.queue == [] then sys.(phase := Idle)
      else PlaceFirst(sys.db, sys.phase.queue, sys.phase.nodes, attempt, assignment, token)
    case Abort => sys.(phase := Idle)
  }

  ghost function Acts(sys: System, actions: seq<Action>): System
    decreases |actions|
  {
    if actions == [] then sys else Act(Acts(sys, actions[..|actions| - 1]), actions[|actions| - 1])
  }

  // ---------------------------------------------------------------- the invariant

  ghost predicate QueueOk(db: Db, queue: seq<Waiting>) {
    forall i :: 0 <= i < |queue| ==>
      queue[i].job in db.jobs && (db.jobs[queue[i].job].spec == queue[i].spec || db.jobs[queue[i].job].status == Deleted)
  }

  /** A copied node offers no more than the store's row does now. */
  ghost predicate KnownNode(db: Db, node: Node) {
    node.id in db.nodes && NotShrinking(node, db.nodes[node.id].node)
  }

  ghost predicate KnownNodes(db: Db, nodes: seq<Node>) {
    forall i :: 0 <= i < |nodes| ==> KnownNode(db, nodes[i])
  }

  ghost predicate IsBlank(node: Node) {
    && node.cpuAllocated == 0 && node.memoryAllocated == 0
    && (forall i :: 0 <= i < |node.packages| ==> node.packages[i].used == 0)
  }

  ghost predicate AllBlank(nodes: seq<Node>) {
    forall i :: 0 <= i < |nodes| ==> IsBlank(nodes[i])
  }

  /** The copied jobs demand at least what the store's jobs demand now. */
  ghost predicate CoversLoad(db: Db, jobs: seq<Job>) {
    forall n, kind :: Load(db, n, kind) <= Demand(jobs, n, kind)
  }

  /** The snapshot counts at least what is in use now, and flags every held GPU. */
  ghost predicate CoversNode(db: Db, node: Node) {
    && Load(db, node.id, Cpu) <= node.cpuAllocated
    && Load(db, node.id, Memory) <= node.memoryAllocated
    && (forall p :: p in node.packages ==> Load(db, node.id, Package(p.id)) <= p.used)
    && (forall g, j :: g in node.gpus && HoldsGPU(db, j, node.id, g.uuid) ==> g.busy)
  }

  ghost predicate Covers(db: Db, nodes: seq<Node>) {
    forall i :: 0 <= i < |nodes| ==> CoversNode(db, nodes[i])
  }

  ghost predicate PhaseOk(db: Db, phase: Phase) {
    match phase
    case Idle => true
    case HaveQueue(queue) => QueueOk(db, queue)
    case HaveNodes(queue, nodes) => QueueOk(db, queue) && KnownNodes(db, nodes) && AllBlank(nodes)
    case HaveJobs(queue, nodes, jobs) => QueueOk(db, queue) && KnownNodes(db, nodes) && AllBlank(nodes) && CoversLoad(db, jobs)
    case Passing(queue, nodes) => QueueOk(db, queue) && KnownNodes(db, nodes) && Covers(db, nodes)
  }

  ghost predicate Safe(sys: System) {
    Inv(sys.db) && Fits(sys.db) && Exclusive(sys.db) && PhaseOk(sys.db, sys.phase)
  }

  lemma EmptyIsSafe()
    ensures Safe(System(EMPTY, Idle))
  {
  }

  // ---------------------------------------------------------------- steps of the world outside

  lemma QueueStays(db: Db, db': Db, queue: seq<Waiting>)
    requires JobsRelease(db, db') && QueueOk(db, queue)
    ensures QueueOk(db', queue)
  {
  }

  lemma NodesStayKnown(db: Db, db': Db, nodes: seq<Node>)
    requires NodesGrow(db.nodes, db'.nodes) && KnownNodes(db, nodes)
    ensures KnownNodes(db', nodes)
  {
  }

  lemma StaysCovered(db: Db, db': Db, nodes: seq<Node>)
    requires Inv(db) && Releases(db, db') && Covers(db, nodes)
    ensures Covers(db', nodes)
  {
    hide JobsRelease, SameAttempts, HoldsGPU, Load, JobsOk, NumbersOk, TokensOk, TokensUnique, RowsOk, OrderOk, NodesOk, DeletingOk;
    forall i | 0 <= i < |nodes| ensures CoversNode(db', nodes[i]) {
      var node := nodes[i];
      assert CoversNode(db, node);
      forall kind ensures Load(db', node.id, kind) <= Load(db, node.id, kind) {
        LoadFalls(db, db', node.id, kind);
      }
      forall g, j | g in node.gpus && HoldsGPU(db', j, node.id, g.uuid) ensures g.busy {
        HoldingPersists(db, db', j, node.id, g.uuid);
      }
    }
  }

  lemma LoadStaysCovered(db: Db, db': Db, jobs: seq<Job>)
    requires Inv(db) && Releases(db, db') && CoversLoad(db, jobs)
    ensures CoversLoad(db', jobs)
  {
    hide Inv, JobsRelease, Load, Demand;
    forall n, kind ensures Load(db', n, kind) <= Demand(jobs, n, kind) {
      LoadFalls(db, db', n, kind);
    }
  }

  lemma ReleaseKeepsSafe(sys: System, db': Db)
    requires Safe(sys) && Inv(db') && Releases(sys.db, db')
    ensures Safe(sys.(db := db'))
  {
    hide Inv, JobsRelease, SameAttempts, NodesGrow, Fits, Exclusive, QueueOk, KnownNodes, AllBlank, CoversLoad, Covers, Load;
    forall n | n in db'.nodes && n !in sys.db.nodes ensures forall kind :: Load(db', n, kind) == 0 {
      forall kind ensures Load(db', n, kind) == 0 {
        NewNodeUnused(sys.db, db', n, kind);
      }
    }
    ReleaseKeepsSafety(sys.db, db');
    match sys.phase
    case Idle =>
    case HaveQueue(queue) => QueueStays(sys.db, db', queue);
    case HaveNodes(queue, nodes) => QueueStays(sys.db, db', queue); NodesStayKnown(sys.db, db', nodes);
    case HaveJobs(queue, nodes, jobs) =>
      QueueStays(sys.db, db', queue); NodesStayKnown(sys.db, db', nodes); LoadStaysCovered(sys.db, db', jobs);
    case Passing(queue, nodes) =>
      QueueStays(sys.db, db', queue); NodesStayKnown(sys.db, db', nodes); StaysCovered(sys.db, db', nodes);
  }

  lemma NewNodeUnused(db: Db, db': Db, n: string, kind: Kind)
    requires Inv(db) && Inv(db') && JobsRelease(db, db') && n !in db.nodes
    ensures Load(db', n, kind) == 0
  {
    hide NumbersOk, TokensOk, TokensUnique, DeletingOk, NodesOk;
    forall j | j in db'.order ensures j in db'.jobs && !RunsOn(db'.jobs[j], n) {
      if j in db.jobs {
        assert JobOk(db, j, db.jobs[j]);
        assert JobEvolves(db.jobs[j], db'.jobs[j]);
        if db.jobs[j].attempt.Some? {
          var x := db.jobs[j].attempt.value;
          assert RowOk(db, x, db.attempts[x]);
        }
      }
    }
    NoneRunning(db'.jobs, db'.order, n, kind);
  }

  // ---------------------------------------------------------------- the scheduler reads

  lemma {:induction false} QueueIsOk(db: Db, order: seq<string>)
    ensures QueueOk(db, Queue(db.jobs, order))
    decreases |order|
  {
    if order != [] {
      QueueIsOk(db, order[..|order| - 1]);
    }
  }

  lemma ListedIsKnown(db: Db, ids: seq<string>)
    requires NodesOk(db) && ListsNodes(db.nodes, ids)
    ensures KnownNodes(db, ListedNodes(db.nodes, ids)) && AllBlank(ListedNodes(db.nodes, ids))
  {
  }

  lemma ListingCovers(db: Db)
    ensures CoversLoad(db, Listing(db.jobs, db.order))
  {
    forall n, kind ensures Load(db, n, kind) <= Demand(Listing(db.jobs, db.order), n, kind) {
      ListingDemandsUsage(db.jobs, db.order, n, kind);
    }
  }

  lemma {:induction false} AccountedCovers(db: Db, nodes: seq<Node>, jobs: seq<Job>, allocations: map<string, set<string>>)
    requires Inv(db) && KnownNodes(db, nodes) && AllBlank(nodes) && CoversLoad(db, jobs) && Represents(allocations, db)
    ensures KnownNodes(db, AccountAll(nodes, jobs, allocations)) && Covers(db, AccountAll(nodes, jobs, allocations))
  {
    hide Inv, Represents, CoversLoad, KnownNode, CoversNode, IsBlank, AccountNode;
    forall i | 0 <= i < |nodes|
      ensures KnownNode(db, AccountAll(nodes, jobs, allocations)[i]) && CoversNode(db, AccountAll(nodes, jobs, allocations)[i])
    {
      assert KnownNode(db, nodes[i]) && IsBlank(nodes[i]);
      AccountedNodeKnown(db, nodes[i], jobs, allocations);
      AccountedNodeCovers(db, nodes[i], jobs, allocations);
    }
  }

  lemma AccountedNodeKnown(db: Db, node: Node, jobs: seq<Job>, allocations: map<string, set<string>>)
    requires KnownNode(db, node)
    ensures KnownNode(db, AccountNode(node, jobs, allocations))
  {
  }

  lemma AccountedNodeCovers(db: Db, node: Node, jobs: seq<Job>, allocations: map<string, set<string>>)
    requires Inv(db) && IsBlank(node) && CoversLoad(db, jobs) && Represents(allocations, db)
    ensures CoversNode(db, AccountNode(node, jobs, allocations))
  {
    hide Inv, Demand, Load, HoldsGPU, AllocatedOn, Taken;
    var accounted := AccountNode(node, jobs, allocations);
    forall p | p in accounted.packages ensures Load(db, node.id, Package(p.id)) <= p.used {
      var i :| 0 <= i < |accounted.packages| && accounted.packages[i] == p;
    }
    forall g, j | g in accounted.gpus && HoldsGPU(db, j, node.id, g.uuid) ensures g.busy {
      HeldIsAllocated(db, j, node.id, g.uuid);
    }
  }

  // ---------------------------------------------------------------- the scheduler reserves

  /** What a successful reservation does to usage and to held GPUs. */
  lemma ReserveLoads(db: Db, j: string, n: string, attempt: string, assignment: string, token: string, gpus: seq<string>, m: string,
                     kind: Kind)
    requires Inv(db) && Reserve(db, j, n, attempt, assignment, token, gpus).1 == Done
    ensures Load(Reserve(db, j, n, attempt, assignment, token, gpus).0, m, kind)
            == Load(db, m, kind) + (if m == n then Amount(db.jobs[j].spec.resources, kind) else 0)
  {
    hide JobsOk, NumbersOk, TokensOk, TokensUnique, RowsOk, NodesOk, DeletingOk, Usage, Amount, MaxOf, Numbers;
    var job := db.jobs[j].(status := Assigned, node := Some(n), attempt := Some(attempt));
    UsageUpdate(db.jobs, db.order, j, job, m, kind);
  }

  lemma ReserveHolds(db: Db, j: string, n: string, attempt: string, assignment: string, token: string, gpus: seq<string>,
                     k: string, m: string, uuid: string)
    requires JobsOk(db) && Reserve(db, j, n, attempt, assignment, token, gpus).1 == Done
    ensures HoldsGPU(Reserve(db, j, n, attempt, assignment, token, gpus).0, k, m, uuid)
            <==> if k == j then m == n && uuid in gpus else HoldsGPU(db, k, m, uuid)
  {
  }

  ghost predicate FreeFor(db: Db, n: string, gpus: seq<string>) {
    forall k, uuid :: uuid in gpus ==> !HoldsGPU(db, k, n, uuid)
  }

  ghost predicate RoomFor(db: Db, n: string, r: Resources) {
    n in db.nodes && forall kind :: Load(db, n, kind) + Amount(r, kind) <= Total(db.nodes[n].node, kind)
  }

  /** A reservation with room and free GPUs keeps the safety properties. */
  lemma {:induction false} ReserveKeepsSafety(db: Db, j: string, n: string, attempt: string, assignment: string, token: string,
                                              gpus: seq<string>)
    requires Inv(db) && Fits(db) && Exclusive(db)
    requires Reserve(db, j, n, attempt, assignment, token, gpus).1 == Done
    requires FreeFor(db, n, gpus) && RoomFor(db, n, db.jobs[j].spec.resources)
    ensures var db' := Reserve(db, j, n, attempt, assignment, token, gpus).0; Fits(db') && Exclusive(db')
  {
    var db' := Reserve(db, j, n, attempt, assignment, token, gpus).0;
    assert db'.nodes == db.nodes;
    hide Inv, Load, HoldsGPU, Reserve, Amount, Total;
    forall m, kind | m in db'.nodes ensures Load(db', m, kind) <= Total(db'.nodes[m].node, kind) {
      ReserveLoads(db, j, n, attempt, assignment, token, gpus, m, kind);
    }
    forall k, l, m, uuid | HoldsGPU(db', k, m, uuid) && HoldsGPU(db', l, m, uuid) ensures k == l {
      InvGivesJobs(db);
      ReserveHolds(db, j, n, attempt, assignment, token, gpus, k, m, uuid);
      ReserveHolds(db, j, n, attempt, assignment, token, gpus, l, m, uuid);
    }
  }

  lemma InvGivesJobs(db: Db)
    requires Inv(db)
    ensures JobsOk(db)
  {
  }

  /** What the ranking's winner on a covering snapshot means for the store itself. */
  lemma WinnerFits(db: Db, spec: JobSpec, nodes: seq<Node>)
    requires Inv(db) && Fits(db) && KnownNodes(db, nodes) && Covers(db, nodes) && Placement.Select(spec, nodes).Some?
    ensures var w := Placement.Select(spec, nodes).value;
            RoomFor(db, w.node.id, spec.resources) && FreeFor(db, w.node.id, w.gpuUUIDs)
  {
    Placement.SelectIsFeasible(spec, nodes);
    hide Placement.Select, KnownNode, CoversNode, Inv, Fits, RoomFor, FreeFor;
    var w := Placement.Select(spec, nodes).value;
    var i :| 0 <= i < |nodes| && nodes[i] == w.node;
    assert KnownNode(db, nodes[i]) && CoversNode(db, nodes[i]);
    HasRoom(db, w.node, spec.resources);
    UnflaggedIsFree(db, w.node, w.gpuUUIDs);
  }

  lemma HasRoom(db: Db, node: Node, r: Resources)
    requires Inv(db) && Fits(db) && KnownNode(db, node) && CoversNode(db, node)
    requires node.cpuAllocated + r.cpu <= node.cpuTotal && node.memoryAllocated + r.memory <= node.memoryTotal
    requires r.package != "" ==> exists p :: p in node.packages && p.id == r.package && p.used + r.cpu <= p.total
    ensures RoomFor(db, node.id, r)
  {
    hide CoversNode, Inv, Fits, Load, Amount, Total, NotShrinking;
    forall kind ensures Load(db, node.id, kind) + Amount(r, kind) <= Total(db.nodes[node.id].node, kind) {
      KindFits(db, node, r, kind);
    }
  }

  lemma UnflaggedIsFree(db: Db, node: Node, gpus: seq<string>)
    requires CoversNode(db, node)
    requires forall id :: id in gpus ==> exists g :: g in node.gpus && g.uuid == id && !g.busy
    ensures FreeFor(db, node.id, gpus)
  {
  }

  lemma KindFits(db: Db, node: Node, r: Resources, kind: Kind)
    requires Inv(db) && Fits(db) && KnownNode(db, node) && CoversNode(db, node)
    requires node.cpuAllocated + r.cpu <= node.cpuTotal && node.memoryAllocated + r.memory <= node.memoryTotal
    requires r.package != "" ==> exists p :: p in node.packages && p.id == r.package && p.used + r.cpu <= p.total
    ensures Load(db, node.id, kind) + Amount(r, kind) <= Total(db.nodes[node.id].node, kind)
  {
    hide JobsOk, NumbersOk, TokensOk, TokensUnique, RowsOk, OrderOk, DeletingOk, Load, HoldsGPU, PackageTotal;
    if kind.Package? && kind.id != "" && kind.id == r.package {
      var p :| p in node.packages && p.id == r.package && p.used + r.cpu <= p.total;
      var q :| q in db.nodes[node.id].node.packages && q.id == p.id && p.total <= q.total;
      PackageTotalIs(db.nodes[node.id].node.packages, q);
    }
  }

  /** Reserving in the snapshot as in the store keeps the snapshot covering. */
  lemma {:induction false} ReservedCovers(db: Db, j: string, n: string, attempt: string, assignment: string, token: string,
                                          gpus: seq<string>, nodes: seq<Node>)
    requires Inv(db) && KnownNodes(db, nodes) && Covers(db, nodes)
    requires Reserve(db, j, n, attempt, assignment, token, gpus).1 == Done
    ensures var db' := Reserve(db, j, n, attempt, assignment, token, gpus).0;
            var nodes' := ReserveAll(nodes, n, db.jobs[j].spec.resources, GPUSet(gpus));
            KnownNodes(db', nodes') && Covers(db', nodes')
  {
    var db' := Reserve(db, j, n, attempt, assignment, token, gpus).0;
    assert db'.nodes == db.nodes;
    var nodes' := ReserveAll(nodes, n, db.jobs[j].spec.resources, GPUSet(gpus));
    InvGivesJobs(db);
    hide Inv, Reserve, Load, HoldsGPU, CoversNode, KnownNode, ReserveNode, GPUSet, JobsOk;
    forall m, kind ensures Load(db', m, kind) == Load(db, m, kind) + (if m == n then Amount(db.jobs[j].spec.resources, kind) else 0) {
      ReserveLoads(db, j, n, attempt, assignment, token, gpus, m, kind);
    }
    forall k, m, uuid ensures HoldsGPU(db', k, m, uuid) ==> HoldsGPU(db, k, m, uuid) || (m == n && uuid in gpus) {
      ReserveHolds(db, j, n, attempt, assignment, token, gpus, k, m, uuid);
    }
    forall i | 0 <= i < |nodes'| ensures KnownNode(db', nodes'[i]) && CoversNode(db', nodes'[i]) {
      assert KnownNode(db, nodes[i]) && CoversNode(db, nodes[i]);
      ReservedNodeCovers(db, db', nodes[i], db.jobs[j].spec.resources, n, gpus);
    }
  }

  lemma ReservedNodeCovers(db: Db, db': Db, node: Node, r: Resources, n: string, gpus: seq<string>)
    requires KnownNode(db, node) && CoversNode(db, node) && db'.nodes == db.nodes
    requires forall kind :: Load(db', node.id, kind) == Load(db, node.id, kind) + (if node.id == n then Amount(r, kind) else 0)
    requires forall k, uuid :: HoldsGPU(db', k, node.id, uuid) ==> HoldsGPU(db, k, node.id, uuid) || (node.id == n && uuid in gpus)
    ensures var node' := if node.id == n then ReserveNode(node, r, GPUSet(gpus)) else node;
            KnownNode(db', node') && CoversNode(db', node')
  {
  }

  lemma QueueAfterReserve(db: Db, j: string, n: string, attempt: string, assignment: string, token: string, gpus: seq<string>,
                          queue: seq<Waiting>)
    requires QueueOk(db, queue) && Reserve(db, j, n, attempt, assignment, token, gpus).1 == Done
    ensures QueueOk(Reserve(db, j, n, attempt, assignment, token, gpus).0, queue)
  {
  }

  lemma ReserveOutcomes(db: Db, j: string, n: string, attempt: string, assignment: string, token: string, gpus: seq<string>)
    ensures var r := Step(db, OpReserve(j, n, attempt, assignment, token, gpus));
            && (r.1 == Done ==> IsHash(token) && r == Reserve(db, j, n, attempt, assignment, token, gpus)
                                && j in db.jobs && db.jobs[j].status == Queued)
            && (r.1 != Done ==> r.0 == db)
  {
  }

  lemma {:induction false} PlaceKeepsSafe(db: Db, queue: seq<Waiting>, nodes: seq<Node>, attempt: string, assignment: string, token: string)
    requires Safe(System(db, Passing(queue, nodes))) && queue != []
    ensures Safe(PlaceFirst(db, queue, nodes, attempt, assignment, token))
  {
    hide Inv, Fits, Exclusive, KnownNodes, Covers, Placement.Select, Step, Reserve, ReserveAll, RoomFor, FreeFor, GPUSet, IsHash;
    var first := queue[0];
    var chosen := Placement.Select(first.spec, nodes);
    assert forall i :: 0 <= i < |queue[1..]| ==> queue[1..][i] == queue[i + 1];
    assert QueueOk(db, queue[1..]);
    if chosen.Some? {
      var n, gpus := chosen.value.node.id, chosen.value.gpuUUIDs;
      ReserveOutcomes(db, first.job, n, attempt, assignment, token, gpus);
      if Step(db, OpReserve(first.job, n, attempt, assignment, token, gpus)).1 == Done {
        WinnerFits(db, first.spec, nodes);
        ReserveKeepsSafety(db, first.job, n, attempt, assignment, token, gpus);
        ReservedCovers(db, first.job, n, attempt, assignment, token, gpus, nodes);
        QueueAfterReserve(db, first.job, n, attempt, assignment, token, gpus, queue[1..]);
        ReserveKeeps(db, first.job, n, attempt, assignment, token, gpus);
      }
    }
  }

  // ---------------------------------------------------------------- main results

  lemma ActKeepsSafe(sys: System, action: Action)
    requires Safe(sys)
    ensures Safe(Act(sys, action))
  {
    hide Inv, Fits, Exclusive, QueueOk, KnownNodes, AllBlank, CoversLoad, Covers, Step, PlaceFirst, Releases, Represents, ListsNodes,
         Queue, Listing, AccountAll;
    match action
    case Env(op) =>
      if !op.OpReserve? {
        StepKeepsInv(sys.db, op);
        StepReleases(sys.db, op);
        ReleaseKeepsSafe(sys, Step(sys.db, op).0);
      }
    case ReadQueue => QueueIsOk(sys.db, sys.db.order);
    case ReadNodes(ids) =>
      if sys.phase.HaveQueue? && ListsNodes(sys.db.nodes, ids) {
        InvGivesNodes(sys.db);
        ListedIsKnown(sys.db, ids);
      }
    case ReadJobs => ListingCovers(sys.db);
    case ReadAllocations(allocations) =>
      if sys.phase.HaveJobs? && Represents(allocations, sys.db) {
        AccountedCovers(sys.db, sys.phase.nodes, sys.phase.jobs, allocations);
      }
    case Place(attempt, assignment, token) =>
      if sys.phase.Passing? && sys.phase.queue != [] {
        PlaceKeepsSafe(sys.db, sys.phase.queue, sys.phase.nodes, attempt, assignment, token);
      }
    case Abort =>
  }

  lemma InvGivesNodes(db: Db)
    requires Inv(db)
    ensures NodesOk(db)
  {
  }

  lemma {:induction false} ActsKeepSafe(sys: System, actions: seq<Action>)
    requires Safe(sys)
    ensures Safe(Acts(sys, actions))
    decreases |actions|
  {
    hide Safe, Act;
    if actions != [] {
      ActsKeepSafe(sys, actions[..|actions| - 1]);
      ActKeepsSafe(Acts(sys, actions[..|actions| - 1]), actions[|actions| - 1]);
    }
  }

  /** Whatever runs between the scheduler's reads and reservations, the CPU, memory and
      per-package demand of the active jobs of a node never exceeds what the node offers. */
  lemma NoNodeIsEverOvercommitted(actions: seq<Action>, n: string, kind: Kind)
    requires n in Acts(System(EMPTY, Idle), actions).db.nodes
    ensures var db := Acts(System(EMPTY, Idle), actions).db; Usage(db.jobs, db.order, n, kind) <= Total(db.nodes[n].node, kind)
  {
    EmptyIsSafe();
    ActsKeepSafe(System(EMPTY, Idle), actions);
    var db := Acts(System(EMPTY, Idle), actions).db;
    hide Acts, Usage, Total, Inv, Exclusive, PhaseOk;
    assert Load(db, n, kind) <= Total(db.nodes[n].node, kind);
  }

  /** The job rows in the order given. */
  function Rows(jobs: map<string, Job>, order: seq<string>): seq<Job> {
    if order == [] then []
    else
      var last := order[|order| - 1];
      Rows(jobs, order[..|order| - 1]) + (if last in jobs then [jobs[last]] else [])
  }

  lemma {:induction false} UsageOfRows(jobs: map<string, Job>, order: seq<string>, n: string, kind: Kind)
    ensures Usage(jobs, order, n, kind) == Demand(Rows(jobs, order), n, kind)
    decreases |order|
  {
    if order != [] {
      var last := order[|order| - 1];
      var rest := Rows(jobs, order[..|order| - 1]);
      UsageOfRows(jobs, order[..|order| - 1], n, kind);
      if last in jobs {
        assert (rest + [jobs[last]])[..|rest|] == rest;
      } else {
        assert rest + [] == rest;
      }
    }
  }

  lemma OrderIsAll(db: Db)
    requires Inv(db)
    ensures forall j :: j in db.jobs <==> j in db.order
    ensures forall i, k :: 0 <= i < k < |db.order| ==> db.order[i] != db.order[k]
  {
    hide JobsOk, TokensOk, TokensUnique, NumbersOk, RowsOk, NodesOk, DeletingOk;
  }

  /** The same in the fields of jobs and nodes: over all jobs, each once, what is asked for on a node
      is within its totals, and on each of its packages within that of the package. */
  lemma {:induction false} NoPackageIsEverOvercommitted(actions: seq<Action>, n: string)
    requires n in Acts(System(EMPTY, Idle), actions).db.nodes
    ensures var db := Acts(System(EMPTY, Idle), actions).db;
            var jobs, node := Rows(db.jobs, db.order), db.nodes[n].node;
            && (forall j :: j in db.jobs <==> j in db.order)
            && (forall i, k :: 0 <= i < k < |db.order| ==> db.order[i] != db.order[k])
            && CpuUse(jobs, n) <= node.cpuTotal && MemoryUse(jobs, n) <= node.memoryTotal
            && forall p :: p in node.packages ==> PackageUse(jobs, n, p.id) <= p.total
  {
    EmptyIsSafe();
    ActsKeepSafe(System(EMPTY, Idle), actions);
    var db := Acts(System(EMPTY, Idle), actions).db;
    var jobs, node := Rows(db.jobs, db.order), db.nodes[n].node;
    DemandIsUse(jobs, n);
    OrderIsAll(db);
    hide Acts, Rows, CpuUse, MemoryUse, PackageUse, JobsOk, TokensOk, TokensUnique, NumbersOk, RowsOk, OrderOk, Exclusive, PhaseOk,
         Load, Demand;
    forall kind ensures Demand(jobs, n, kind) <= Total(node, kind) {
      NoNodeIsEverOvercommitted(actions, n, kind);
      UsageOfRows(db.jobs, db.order, n, kind);
    }
    assert Demand(jobs, n, Cpu) <= Total(node, Cpu) && Demand(jobs, n, Memory) <= Total(node, Memory);
    forall p | p in node.packages ensures PackageUse(jobs, n, p.id) <= p.total {
      PackageTotalIs(node.packages, p);
      assert Demand(jobs, n, Package(p.id)) <= Total(node, Package(p.id));
    }
  }

  /** ... and no two active jobs on a node hold the same GPU with their current attempts. */
  lemma {:induction false} NoGPUIsEverShared(actions: seq<Action>, j: string, k: string, n: string, uuid: string)
    requires var db := Acts(System(EMPTY, Idle), actions).db; HoldsGPU(db, j, n, uuid) && HoldsGPU(db, k, n, uuid)
    ensures j == k
  {
    EmptyIsSafe();
    ActsKeepSafe(System(EMPTY, Idle), actions);
    hide Acts, HoldsGPU, Inv, Fits, PhaseOk;
  }

  // ---------------------------------------------------------------- what is read

  lemma {:induction false} QueueHas(jobs: map<string, Job>, order: seq<string>, w: Waiting)
    ensures w in Queue(jobs, order) <==>
              w.job in order && w.job in jobs && jobs[w.job].status == Queued && jobs[w.job].spec == w.spec
    decreases |order|
  {
    if order != [] {
      var init, last := order[..|order| - 1], order[|order| - 1];
      QueueHas(jobs, init, w);
      assert order == init + [last];
    }
  }

  /** `a` was created before `b`. */
  ghost predicate CreatedBefore(order: seq<string>, a: string, b: string) {
    exists i, k :: 0 <= i < k < |order| && order[i] == a && order[k] == b
  }

  lemma CreatedBeforeMore(order: seq<string>, last: string, a: string, b: string)
    requires CreatedBefore(order, a, b) || (a in order && b == last)
    ensures CreatedBefore(order + [last], a, b)
  {
    var all := order + [last];
    if CreatedBefore(order, a, b) {
      var i, k :| 0 <= i < k < |order| && order[i] == a && order[k] == b;
      assert all[i] == a && all[k] == b;
    } else {
      var i :| 0 <= i < |order| && order[i] == a;
      assert all[i] == a && all[|order|] == b;
    }
  }

  lemma {:induction false} QueueInOrder(jobs: map<string, Job>, order: seq<string>, a: nat, b: nat)
    requires a < b < |Queue(jobs, order)|
    ensures CreatedBefore(order, Queue(jobs, order)[a].job, Queue(jobs, order)[b].job)
    decreases |order|
  {
    hide CreatedBefore;
    var init, last := order[..|order| - 1], order[|order| - 1];
    var before := Queue(jobs, init);
    assert order == init + [last];
    if b < |before| {
      QueueInOrder(jobs, init, a, b);
    } else {
      QueueHas(jobs, init, before[a]);
    }
    CreatedBeforeMore(init, last, Queue(jobs, order)[a].job, Queue(jobs, order)[b].job);
  }

  /** The queue holds exactly the queued jobs, with their specifications, in the order of creation. */
  lemma {:induction false} QueueIs(jobs: map<string, Job>, order: seq<string>)
    ensures var queue := Queue(jobs, order);
            && (forall j, spec :: Waiting(j, spec) in queue <==>
                  j in order && j in jobs && jobs[j].status == Queued && jobs[j].spec == spec)
            && (forall a, b :: 0 <= a < b < |queue| ==> CreatedBefore(order, queue[a].job, queue[b].job))
  {
    var queue := Queue(jobs, order);
    hide Queue, CreatedBefore;
    forall j, spec
      ensures Waiting(j, spec) in queue <==> j in order && j in jobs && jobs[j].status == Queued && jobs[j].spec == spec
    {
      QueueHas(jobs, order, Waiting(j, spec));
    }
    forall a, b | 0 <= a < b < |queue| ensures CreatedBefore(order, queue[a].job, queue[b].job) {
      QueueInOrder(jobs, order, a, b);
    }
  }

  /** A node is listed as it was reported, with an operator's labels if there are any, and nothing
      counted on it. */
  lemma ListedAs(rows: map<string, NodeRow>, ids: seq<string>, i: nat)
    requires i < |ids| && forall k :: 0 <= k < |ids| ==> ids[k] in rows
    ensures var row, node := rows[ids[i]], ListedNodes(rows, ids)[i];
            && node == row.node.(labels := node.labels, cpuAllocated := 0, memoryAllocated := 0, packages := node.packages,
                                 gpus := node.gpus)
            && node.labels == (match row.labels case Some(labels) => labels case None => row.node.labels)
            && |node.packages| == |row.node.packages| && |node.gpus| == |row.node.gpus|
            && (forall k :: 0 <= k < |node.packages| ==> node.packages[k] == row.node.packages[k].(used := 0))
            && (forall k :: 0 <= k < |node.gpus| ==> node.gpus[k] == row.node.gpus[k].(busy := false))
  {
  }

  // ---------------------------------------------------------------- a reservation nobody interferes with

  /** Some assignment row of job `j`, current or not, names the GPU. */
  ghost predicate RowOf(db: Db, j: string, n: string, uuid: string) {
    exists a :: a in db.assignments && db.assignments[a].job == j && db.assignments[a].node == n && uuid in db.assignments[a].gpus
  }

  /** After a reservation the store reports the chosen GPUs as allocated, and also those of
      all earlier assignment rows of that job. */
  lemma ReserveAllocates(db: Db, j: string, n: string, attempt: string, assignment: string, token: string, gpus: seq<string>,
                         m: string, uuid: string)
    requires Reserve(db, j, n, attempt, assignment, token, gpus).1 == Done
    ensures AllocatedOn(Reserve(db, j, n, attempt, assignment, token, gpus).0, m, uuid)
            <==> AllocatedOn(db, m, uuid) || (m == n && uuid in gpus) || RowOf(db, j, m, uuid)
  {
    hide MaxOf, Numbers;
    var db' := Reserve(db, j, n, attempt, assignment, token, gpus).0;
    if AllocatedOn(db, m, uuid) {
      var a :| RowHolds(db, a, m, uuid);
      assert RowHolds(db', a, m, uuid);
    }
    if m == n && uuid in gpus {
      assert RowHolds(db', assignment, m, uuid);
    }
    if RowOf(db, j, m, uuid) {
      var a :| a in db.assignments && db.assignments[a].job == j && db.assignments[a].node == m && uuid in db.assignments[a].gpus;
      assert RowHolds(db', a, m, uuid);
    }
    if AllocatedOn(db', m, uuid) {
      var a :| RowHolds(db', a, m, uuid);
      assert a == assignment || db.assignments[a].job == j || RowHolds(db, a, m, uuid);
    }
  }

  lemma {:induction false} ListingWithout(jobs: map<string, Job>, order: seq<string>, j: string, job: Job)
    requires j !in order
    ensures Listing(jobs[j := job], order) == Listing(jobs, order)
  {
    if order != [] {
      ListingWithout(jobs, order[..|order| - 1], j, job);
    }
  }

  lemma {:induction false} ListingUpdate(jobs: map<string, Job>, order: seq<string>, j: string, job: Job) returns (i: nat)
    requires j in jobs && j in order && jobs[j].status != Deleted && job.status != Deleted
    requires forall i, k :: 0 <= i < k < |order| ==> order[i] != order[k]
    ensures i < |Listing(jobs, order)| && Listing(jobs, order)[i] == jobs[j]
    ensures Listing(jobs[j := job], order) == Listing(jobs, order)[i := job]
    decreases |order|
  {
    var rest, last := order[..|order| - 1], order[|order| - 1];
    if last == j {
      ListingWithout(jobs, rest, j, job);
      i := 0;
    } else {
      var k :| 0 <= k < |order| && order[k] == j;
      assert rest[k] == j;
      i := ListingUpdate(jobs, rest, j, job);
      if last in jobs && jobs[last].status != Deleted {
        i := i + 1;
      }
    }
  }

  /** Every GPU of the node that some assignment row of the job names there is allocated already
      or among the GPUs chosen now. */
  ghost predicate RowsCovered(db: Db, j: string, n: string, gpus: seq<string>, node: Node) {
    forall g :: 0 <= g < |node.gpus| && RowOf(db, j, node.id, node.gpus[g].uuid) ==>
      AllocatedOn(db, node.id, node.gpus[g].uuid) || (node.id == n && node.gpus[g].uuid in gpus)
  }

  /** Reserving in the snapshot and recomputing from the store after the reservation give the
      same nodes up to GPU flags; the flags agree too exactly when the job's assignment rows are
      covered on every listed node. */
  lemma SnapshotRefinesStore(db: Db, j: string, n: string, attempt: string, assignment: string, token: string, gpus: seq<string>,
                             nodes: seq<Node>, allocations: map<string, set<string>>, allocations': map<string, set<string>>)
    requires Inv(db) && Represents(allocations, db)
    requires Reserve(db, j, n, attempt, assignment, token, gpus).1 == Done
    requires Represents(allocations', Reserve(db, j, n, attempt, assignment, token, gpus).0)
    ensures var db' := Reserve(db, j, n, attempt, assignment, token, gpus).0;
            var snapshot := ReserveAll(AccountAll(nodes, Listing(db.jobs, db.order), allocations), n, db.jobs[j].spec.resources,
                                       GPUSet(gpus));
            var recount := AccountAll(nodes, Listing(db'.jobs, db'.order), allocations');
            && Unflagged(snapshot) == Unflagged(recount)
            && (snapshot == recount <==>
                forall i :: 0 <= i < |nodes| ==> RowsCovered(db, j, n, gpus, nodes[i]))
  {
    var db' := Reserve(db, j, n, attempt, assignment, token, gpus).0;
    var v := AsReservation(db, j, n, attempt, assignment, token, gpus);
    forall m, uuid ensures AllocatedOn(db', m, uuid) <==> AllocatedOn(db, m, uuid) || (m == n && uuid in gpus) || RowOf(db, j, m, uuid) {
      ReserveAllocates(db, j, n, attempt, assignment, token, gpus, m, uuid);
    }
    hide Reserve, AllocatedOn, RowOf, Inv, AccountAll, ReserveAll, Listing, Represents, RowsCovered, AgreeOn, Unflagged, Commit, Claimed;
    var jobs := Listing(db.jobs, db.order);
    ReservationRefinesAccount(nodes, jobs, allocations, v);
    AccountsAgreeIff(nodes, Commit(jobs, v), Claimed(allocations, v), allocations');
    forall i | 0 <= i < |nodes|
      ensures AgreeOn(nodes[i], Claimed(allocations, v), allocations') <==> RowsCovered(db, j, n, gpus, nodes[i])
    {
      CoveredIffAgree(db, db', j, gpus, nodes[i], allocations, allocations', v);
    }
  }

  lemma CoveredIffAgree(db: Db, db': Db, j: string, gpus: seq<string>, node: Node, allocations: map<string, set<string>>,
                        allocations': map<string, set<string>>, v: Reservation)
    requires Represents(allocations, db) && Represents(allocations', db') && v.chosen == GPUSet(gpus)
    requires forall m, uuid :: AllocatedOn(db', m, uuid) <==>
               AllocatedOn(db, m, uuid) || (m == v.node && uuid in gpus) || RowOf(db, j, m, uuid)
    ensures AgreeOn(node, Claimed(allocations, v), allocations') <==> RowsCovered(db, j, v.node, gpus, node)
  {
    hide AllocatedOn, RowOf;
  }

  /** A successful reservation, as one on the list of jobs. */
  lemma AsReservation(db: Db, j: string, n: string, attempt: string, assignment: string, token: string, gpus: seq<string>)
      returns (v: Reservation)
    requires Inv(db) && Reserve(db, j, n, attempt, assignment, token, gpus).1 == Done
    ensures j in db.jobs && v.node == n && v.chosen == GPUSet(gpus) && v.job.spec == db.jobs[j].spec
    ensures Reserves(Listing(db.jobs, db.order), v)
    ensures var db' := Reserve(db, j, n, attempt, assignment, token, gpus).0;
            Listing(db'.jobs, db'.order) == Commit(Listing(db.jobs, db.order), v)
  {
    var job := db.jobs[j].(status := Assigned, node := Some(n), attempt := Some(attempt));
    OrderHas(db, j);
    var i := ListingUpdate(db.jobs, db.order, j, job);
    v := Reservation(i, n, job, GPUSet(gpus));
  }

  lemma OrderHas(db: Db, j: string)
    requires Inv(db) && j in db.jobs
    ensures j in db.order && forall i, k :: 0 <= i < k < |db.order| ==> db.order[i] != db.order[k]
  {
  }
}
