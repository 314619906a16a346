/** What an undisturbed pass achieves: it leaves no queued job behind that any node would still do for
    (internal/scheduler/scheduler.go:60-81). */
module Progress {
  import opened Domain
  import opened Fleet
  import opened Capacity
  import opened Jobs
  import opened Ledger
  import opened Scheduling
  import opened Placement
  import Sel = Selection
  import SchedulerLoop

  // ---------------------------------------------------------------- nodes fill up

  /** Same node, with no less taken of it. */
  ghost predicate Fuller(before: Node, after: Node) {
    && after == before.(cpuAllocated := after.cpuAllocated, memoryAllocated := after.memoryAllocated, packages := after.packages,
                        gpus := after.gpus)
    && before.cpuAllocated <= after.cpuAllocated && before.memoryAllocated <= after.memoryAllocated
    && |after.packages| == |before.packages| && |after.gpus| == |before.gpus|
    && (forall k :: 0 <= k < |before.packages| ==>
          after.packages[k] == before.packages[k].(used := after.packages[k].used)
          && before.packages[k].used <= after.packages[k].used)
    && (forall k :: 0 <= k < |before.gpus| ==>
          after.gpus[k] == before.gpus[k].(busy := after.gpus[k].busy) && (before.gpus[k].busy ==> after.gpus[k].busy))
  }

  ghost predicate AllFuller(before: seq<Node>, after: seq<Node>) {
    |after| == |before| && forall i :: 0 <= i < |before| ==> Fuller(before[i], after[i])
  }

  lemma FullerTwice(a: seq<Node>, b: seq<Node>, c: seq<Node>)
    requires AllFuller(a, b) && AllFuller(b, c)
    ensures AllFuller(a, c)
  {
    forall i | 0 <= i < |a| ensures Fuller(a[i], c[i]) {
      assert Fuller(a[i], b[i]) && Fuller(b[i], c[i]);
    }
  }

  lemma SameIsFuller(nodes: seq<Node>)
    ensures AllFuller(nodes, nodes)
  {
  }

  lemma ReserveFills(nodes: seq<Node>, n: string, r: Resources, chosen: set<string>)
    requires r.cpu >= 0 && r.memory >= 0
    ensures AllFuller(nodes, ReserveAll(nodes, n, r, chosen))
  {
  }

  /** Free GPUs of the fuller node were free before. */
  lemma {:induction false} FreeBefore(before: seq<GPU>, after: seq<GPU>, g: GPU)
    requires |after| == |before| && !g.busy
    requires forall k :: 0 <= k < |before| ==>
               after[k] == before[k].(busy := after[k].busy) && (before[k].busy ==> after[k].busy)
    ensures multiset(after)[g] <= multiset(before)[g]
    decreases |before|
  {
    if before != [] {
      var n := |before| - 1;
      FreeBefore(before[..n], after[..n], g);
      assert before == before[..n] + [before[n]] && after == after[..n] + [after[n]];
    }
  }

  lemma RoomBefore(spec: JobSpec, before: Node, after: Node)
    requires Fuller(before, after) && Sel.HasRoom(spec, after) && Sel.HasPackage(spec, after)
    ensures Sel.HasRoom(spec, before) && Sel.HasPackage(spec, before)
  {
    if spec.resources.package != "" {
      var k :| Sel.NamedAt(after, spec.resources.package, k)
               && spec.resources.cpu <= after.packages[k].total - after.packages[k].used;
      assert Sel.NamedAt(before, spec.resources.package, k);
    }
  }

  lemma {:induction false} GPUsBefore(spec: JobSpec, before: Node, after: Node)
    requires Fuller(before, after) && Sel.HasGPUs(spec, after)
    ensures Sel.HasGPUs(spec, before)
  {
    if spec.resources.gpuUUIDs == [] {
      var gpus: seq<GPU> :| Sel.Choice(spec, after, gpus);
      forall g ensures multiset(gpus)[g] <= multiset(before.gpus)[g] {
        if g in gpus {
          FreeBefore(before.gpus, after.gpus, g);
        }
      }
      assert Sel.Choice(spec, before, gpus);
    } else {
      forall id | id in spec.resources.gpuUUIDs ensures exists g :: g in before.gpus && g.uuid == id && !g.busy {
        var g :| g in after.gpus && g.uuid == id && !g.busy;
        var k :| 0 <= k < |after.gpus| && after.gpus[k] == g;
        assert before.gpus[k] == g;
      }
    }
  }

  /** What will not do does not do any better when it is fuller. */
  lemma WillDoBefore(spec: JobSpec, before: seq<Node>, after: seq<Node>)
    requires AllFuller(before, after) && forall node :: node in before ==> !Sel.WillDo(spec, node)
    ensures forall node :: node in after ==> !Sel.WillDo(spec, node)
  {
    forall i | 0 <= i < |after| ensures !Sel.WillDo(spec, after[i]) {
      assert Fuller(before[i], after[i]) && before[i] in before;
      if Sel.WillDo(spec, after[i]) {
        RoomBefore(spec, before[i], after[i]);
        GPUsBefore(spec, before[i], after[i]);
      }
    }
  }

  // ---------------------------------------------------------------- new ids

  /** The ids drawn for a turn are not in use. */
  ghost predicate IsFresh(db: Db, a: Action) {
    && a.Place? && IsHash(a.token) && a.attempt !in db.attempts && a.assignment !in db.assignments
    && forall x :: x in db.attempts ==> db.attempts[x].token != a.token && db.attempts[x].assignment != a.assignment
  }

  /** ... nor those of any other turn. */
  ghost predicate AllFresh(db: Db, actions: seq<Action>) {
    && (forall i :: 0 <= i < |actions| ==> IsFresh(db, actions[i]))
    && forall i, k :: 0 <= i < k < |actions| ==>
         actions[i].attempt != actions[k].attempt && actions[i].assignment != actions[k].assignment && actions[i].token != actions[k].token
  }

  lemma FreshTail(db: Db, actions: seq<Action>)
    requires AllFresh(db, actions) && actions != []
    ensures AllFresh(db, actions[1..])
  {
    hide IsFresh;
  }

  lemma StillFresh(db: Db, actions: seq<Action>, j: string, n: string, gpus: seq<string>)
    requires AllFresh(db, actions) && actions != []
    ensures var a := actions[0]; AllFresh(Reserve(db, j, n, a.attempt, a.assignment, a.token, gpus).0, actions[1..])
  {
    hide Numbers, MaxOf, IsHash;
  }

  // ---------------------------------------------------------------- one turn

  /** A turn that does not end the pass: the queue loses its first job, which either will not do
      anywhere, or is not queued any more. */
  ghost predicate Turned(db: Db, queue: seq<Waiting>, nodes: seq<Node>, db': Db, nodes': seq<Node>)
    requires queue != []
  {
    && (forall j :: j in db.jobs && db.jobs[j].status != Queued ==> j in db'.jobs && db'.jobs[j] == db.jobs[j])
    && (forall j :: j in db'.jobs ==> j in db.jobs)
    && (queue[0].job in db'.jobs && db'.jobs[queue[0].job].status == Queued ==>
          forall node :: node in nodes ==> !Sel.WillDo(queue[0].spec, node))
    && AllFuller(nodes, nodes') && Inv(db') && QueueOk(db', queue[1..]) && db'.nodes == db.nodes
  }

  /** The listed nodes are in the store. */
  ghost predicate Stored(db: Db, nodes: seq<Node>) {
    forall node :: node in nodes ==> node.id in db.nodes
  }

  lemma QueueTail(db: Db, queue: seq<Waiting>)
    requires QueueOk(db, queue) && queue != []
    ensures QueueOk(db, queue[1..])
  {
    forall i | 0 <= i < |queue[1..]|
      ensures queue[1..][i].job in db.jobs
              && (db.jobs[queue[1..][i].job].spec == queue[1..][i].spec || db.jobs[queue[1..][i].job].status == Deleted)
    {
      assert queue[1..][i] == queue[i + 1];
    }
  }

  lemma QueuedIsValid(db: Db, queue: seq<Waiting>)
    requires Inv(db) && QueueOk(db, queue) && queue != [] && queue[0].job in db.jobs && db.jobs[queue[0].job].status == Queued
    ensures queue[0].spec == db.jobs[queue[0].job].spec && queue[0].spec.resources.cpu > 0 && queue[0].spec.resources.memory > 0
  {
    hide TokensOk, TokensUnique, NumbersOk, RowsOk, OrderOk, NodesOk, DeletingOk;
    assert JobOk(db, queue[0].job, db.jobs[queue[0].job]);
  }

  lemma {:induction false} ReserveTurns(db: Db, queue: seq<Waiting>, nodes: seq<Node>, n: string, gpus: seq<string>, attempt: string,
                                        assignment: string, token: string)
    requires Inv(db) && queue != [] && QueueOk(db, queue) && IsHash(token)
    requires Reserve(db, queue[0].job, n, attempt, assignment, token, gpus).1 == Done
    ensures var db' := Reserve(db, queue[0].job, n, attempt, assignment, token, gpus).0;
            Turned(db, queue, nodes, db', ReserveAll(nodes, n, queue[0].spec.resources, GPUSet(gpus)))
  {
    QueuedIsValid(db, queue);
    ReserveFills(nodes, n, queue[0].spec.resources, GPUSet(gpus));
    ReserveKeeps(db, queue[0].job, n, attempt, assignment, token, gpus);
    QueueTail(db, queue);
    QueueAfterReserve(db, queue[0].job, n, attempt, assignment, token, gpus, queue[1..]);
    hide Inv, QueueOk, AllFuller, ReserveAll, GPUSet, IsHash, Numbers, MaxOf, Sel.WillDo;
  }

  lemma {:induction false} OneTurn(db: Db, queue: seq<Waiting>, nodes: seq<Node>, actions: seq<Action>)
    requires Inv(db) && queue != [] && QueueOk(db, queue) && Sel.DistinctGPUs(nodes) && Stored(db, nodes)
    requires AllFresh(db, actions) && actions != []
    ensures var a := actions[0];
            var sys := PlaceFirst(db, queue, nodes, a.attempt, a.assignment, a.token);
            && sys.phase.Passing? && sys.phase.queue == queue[1..]
            && Turned(db, queue, nodes, sys.db, sys.phase.nodes) && AllFresh(sys.db, actions[1..])
  {
    var a, first := actions[0], queue[0];
    var chosen := Select(first.spec, nodes);
    Sel.SelectsTheBest(first.spec, nodes);
    QueueTail(db, queue);
    SameIsFuller(nodes);
    FreshTail(db, actions);
    hide Select, Sel.WillDo, Sel.IsGiven, Sel.IsBest, Inv, Reserve, QueueOk, AllFuller, ReserveAll, GPUSet, IsHash, Sel.DistinctGPUs,
         AllFresh;
    if chosen.Some? {
      var n, gpus := chosen.value.node.id, chosen.value.gpuUUIDs;
      FirstIsFresh(db, actions);
      ReserveStep(db, first.job, n, a, gpus);
      StillFresh(db, actions, first.job, n, gpus);
      if Step(db, OpReserve(first.job, n, a.attempt, a.assignment, a.token, gpus)).1 == Done {
        ReserveTurns(db, queue, nodes, n, gpus, a.attempt, a.assignment, a.token);
      }
    }
  }

  lemma FirstIsFresh(db: Db, actions: seq<Action>)
    requires AllFresh(db, actions) && actions != []
    ensures IsFresh(db, actions[0])
  {
  }

  lemma ReserveStep(db: Db, j: string, n: string, a: Action, gpus: seq<string>)
    requires IsFresh(db, a) && n in db.nodes
    ensures var r := Step(db, OpReserve(j, n, a.attempt, a.assignment, a.token, gpus));
            && (r.1 == Done ==> r == Reserve(db, j, n, a.attempt, a.assignment, a.token, gpus))
            && (r.1 != Done ==> r.1 == Conflict && (j !in db.jobs || db.jobs[j].status != Queued))
  {
    hide IsHash, Numbers, MaxOf;
  }

  // ---------------------------------------------------------------- the pass

  lemma FirstAction(sys: System, actions: seq<Action>)
    requires actions != []
    ensures Acts(sys, actions) == Acts(Act(sys, actions[0]), actions[1..])
  {
    SchedulerLoop.ActsAppend(sys, [actions[0]], actions[1..]);
    SchedulerLoop.OneAct(sys, actions[0]);
    assert actions == [actions[0]] + actions[1..];
  }

  lemma FullerIsDistinct(before: seq<Node>, after: seq<Node>)
    requires AllFuller(before, after) && Sel.DistinctGPUs(before)
    ensures Sel.DistinctGPUs(after)
  {
    forall i | 0 <= i < |after|
      ensures forall a, b :: 0 <= a < b < |after[i].gpus| ==> after[i].gpus[a].uuid != after[i].gpus[b].uuid
    {
      assert Fuller(before[i], after[i]) && before[i] in before;
    }
  }

  /** Nothing is left over: no node of the snapshot would still do for a job that is still queued. */
  ghost predicate NothingLeft(queue: seq<Waiting>, db: Db, nodes: seq<Node>) {
    forall i :: 0 <= i < |queue| && queue[i].job in db.jobs && db.jobs[queue[i].job].status == Queued ==>
      forall node :: node in nodes ==> !Sel.WillDo(queue[i].spec, node)
  }

  lemma FullerIsStored(db: Db, before: seq<Node>, after: seq<Node>)
    requires AllFuller(before, after) && Stored(db, before)
    ensures Stored(db, after)
  {
    forall i | 0 <= i < |after| ensures after[i].id in db.nodes {
      assert Fuller(before[i], after[i]) && before[i] in before;
    }
  }

  /** A pass that nobody disturbs gets to the end of its queue, and leaves queued only jobs for which
      no node has what is needed after all that it has placed. */
  lemma {:induction false} PassLeavesNothing(db: Db, queue: seq<Waiting>, nodes: seq<Node>, actions: seq<Action>)
    requires Inv(db) && QueueOk(db, queue) && Sel.DistinctGPUs(nodes) && Stored(db, nodes)
    requires AllFresh(db, actions) && |actions| == |queue|
    ensures var last := Acts(System(db, Passing(queue, nodes)), actions);
            && last.phase.Passing? && last.phase.queue == []
            && AllFuller(nodes, last.phase.nodes) && NothingLeft(queue, last.db, last.phase.nodes)
            && (forall j :: j in db.jobs && db.jobs[j].status != Queued ==> j in last.db.jobs && last.db.jobs[j] == db.jobs[j])
            && (forall j :: j in last.db.jobs ==> j in db.jobs)
    decreases |queue|
  {
    hide Inv, QueueOk, Sel.WillDo, Sel.DistinctGPUs, PlaceFirst, AllFuller, Acts, AllFresh, Stored;
    var sys := System(db, Passing(queue, nodes));
    if queue == [] {
      SameIsFuller(nodes);
      NoActions(sys);
    } else {
      FirstAction(sys, actions);
      FirstIsFresh(db, actions);
      var a := actions[0];
      OneTurn(db, queue, nodes, actions);
      var next := PlaceFirst(db, queue, nodes, a.attempt, a.assignment, a.token);
      FullerIsDistinct(nodes, next.phase.nodes);
      FullerIsStored(db, nodes, next.phase.nodes);
      SameNodesStored(db, next.db, next.phase.nodes);
      PassLeavesNothing(next.db, queue[1..], next.phase.nodes, actions[1..]);
      var last := Acts(next, actions[1..]);
      FullerTwice(nodes, next.phase.nodes, last.phase.nodes);
      FirstLeavesNothing(db, queue, nodes, next.db, next.phase.nodes, last.db, last.phase.nodes);
    }
  }

  lemma SameNodesStored(db: Db, db': Db, nodes: seq<Node>)
    requires Stored(db, nodes) && db'.nodes == db.nodes
    ensures Stored(db', nodes)
  {
  }

  lemma NoActions(sys: System)
    ensures Acts(sys, []) == sys
  {
  }

  lemma FirstLeavesNothing(db: Db, queue: seq<Waiting>, nodes: seq<Node>, db': Db, nodes': seq<Node>, last: Db, lastNodes: seq<Node>)
    requires queue != [] && Turned(db, queue, nodes, db', nodes') && NothingLeft(queue[1..], last, lastNodes) && AllFuller(nodes, lastNodes)
    requires forall j :: j in db'.jobs && db'.jobs[j].status != Queued ==> j in last.jobs && last.jobs[j] == db'.jobs[j]
    requires forall j :: j in last.jobs ==> j in db'.jobs
    ensures NothingLeft(queue, last, lastNodes)
  {
    hide Inv, QueueOk, Sel.WillDo, AllFuller;
    forall i | 0 <= i < |queue| && queue[i].job in last.jobs && last.jobs[queue[i].job].status == Queued
      ensures forall node :: node in lastNodes ==> !Sel.WillDo(queue[i].spec, node)
    {
      if i == 0 {
        assert db'.jobs[queue[0].job].status == Queued;
        WillDoBefore(queue[0].spec, nodes, lastNodes);
      } else {
        assert queue[1..][i - 1] == queue[i];
      }
    }
  }

  // ---------------------------------------------------------------- from the store to the store

  /** The snapshot as the scheduler makes it. */
  function Snapshot(db: Db, ids: seq<string>, allocations: map<string, set<string>>): seq<Node>
    requires forall i :: 0 <= i < |ids| ==> ids[i] in db.nodes
  {
    AccountAll(ListedNodes(db.nodes, ids), Listing(db.jobs, db.order), allocations)
  }

  lemma SnapshotIsSound(db: Db, ids: seq<string>, allocations: map<string, set<string>>)
    requires NodesOk(db) && ListsNodes(db.nodes, ids)
    ensures Sel.DistinctGPUs(Snapshot(db, ids, allocations)) && Stored(db, Snapshot(db, ids, allocations))
  {
    hide Listing, Taken, Demand;
    var nodes := Snapshot(db, ids, allocations);
    forall i | 0 <= i < |nodes|
      ensures nodes[i].id in db.nodes
      ensures forall a, b :: 0 <= a < b < |nodes[i].gpus| ==> nodes[i].gpus[a].uuid != nodes[i].gpus[b].uuid
    {
      assert ValidNode(db.nodes[ids[i]].node);
    }
  }

  lemma QueuedInQueue(db: Db, j: string) returns (i: nat)
    requires Inv(db) && j in db.jobs && db.jobs[j].status == Queued
    ensures i < |Queue(db.jobs, db.order)| && Queue(db.jobs, db.order)[i] == Waiting(j, db.jobs[j].spec)
  {
    OrderIsAll(db);
    QueueHas(db.jobs, db.order, Waiting(j, db.jobs[j].spec));
    i :| 0 <= i < |Queue(db.jobs, db.order)| && Queue(db.jobs, db.order)[i] == Waiting(j, db.jobs[j].spec);
  }

  /** From reading the store to the last reservation with nobody else about: whatever is still queued
      in the store then would not fit on any node, counting all that has been placed. */
  lemma {:induction false} QuietPassLeavesNothing(db: Db, ids: seq<string>, allocations: map<string, set<string>>, actions: seq<Action>,
                                                  j: string)
    requires Inv(db) && ListsNodes(db.nodes, ids) && AllFresh(db, actions) && |actions| == |Queue(db.jobs, db.order)|
    ensures var nodes := Snapshot(db, ids, allocations);
            var last := Acts(System(db, Passing(Queue(db.jobs, db.order), nodes)), actions);
            && last.phase.Passing? && last.phase.queue == [] && AllFuller(nodes, last.phase.nodes)
            && (j in last.db.jobs && last.db.jobs[j].status == Queued ==>
                  j in db.jobs && forall node :: node in last.phase.nodes ==> !Sel.WillDo(db.jobs[j].spec, node))
  {
    var nodes, queue := Snapshot(db, ids, allocations), Queue(db.jobs, db.order);
    QueueIsOk(db, db.order);
    InvGivesNodes(db);
    SnapshotIsSound(db, ids, allocations);
    hide Inv, NodesOk, Snapshot, Queue, AllFuller, Acts, AllFresh, Sel.DistinctGPUs, Stored, Sel.WillDo, QueueOk, ListsNodes;
    PassLeavesNothing(db, queue, nodes, actions);
    var last := Acts(System(db, Passing(queue, nodes)), actions);
    if j in last.db.jobs && last.db.jobs[j].status == Queued {
      var i := QueuedInQueue(db, j);
      assert queue[i].job == j;
    }
  }
}
