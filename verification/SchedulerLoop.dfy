/** The scheduling pass itself, on the store and an array of nodes, while other clients use
    the store between its accesses (internal/scheduler/scheduler.go:51-82). */
module SchedulerLoop {
  import opened Domain
  import opened Fleet
  import opened Capacity
  import opened Scheduling
  import opened Ledger
  import J = Jobs
  import JobStore
  import Placement
  import Selection

  /** What others do before a reservation, and the fresh values it uses. */
  datatype Turn = Turn(others: seq<J.Op>, attempt: string, assignment: string, token: string)

  /** What others do during a pass. */
  datatype World = World(first: seq<J.Op>, second: seq<J.Op>, third: seq<J.Op>, fourth: seq<J.Op>, turn: nat -> Turn)

  /** There is only one scheduler: nobody else reserves. */
  ghost predicate Outside(ops: seq<J.Op>) {
    forall op :: op in ops ==> !op.OpReserve?
  }

  ghost predicate OutsideWorld(w: World) {
    && Outside(w.first) && Outside(w.second) && Outside(w.third) && Outside(w.fourth)
    && forall k: nat :: Outside(w.turn(k).others)
  }

  ghost function OneTurn(db: J.Db, queue: seq<Waiting>, nodes: seq<Node>, turn: Turn): System
    requires queue != []
  {
    PlaceFirst(J.Run(db, turn.others), queue, nodes, turn.attempt, turn.assignment, turn.token)
  }

  ghost function Turns(db: J.Db, queue: seq<Waiting>, nodes: seq<Node>, k: nat, turn: nat -> Turn): J.Db
    decreases |queue|
  {
    if queue == [] then db
    else
      var sys := OneTurn(db, queue, nodes, turn(k));
      if sys.phase.Passing? then Turns(sys.db, queue[1..], sys.phase.nodes, k + 1, turn) else sys.db
  }

  ghost function Pass(db: J.Db, w: World, ids: seq<string>, allocations: map<string, set<string>>): J.Db
    requires ReadsFit(db, w, ids)
  {
    var a := J.Run(db, w.first);
    var queue := Queue(a.jobs, a.order);
    if queue == [] then a
    else
      var b := J.Run(a, w.second);
      var c := J.Run(b, w.third);
      var d := J.Run(c, w.fourth);
      Turns(d, queue, AccountAll(ListedNodes(b.nodes, ids), Listing(c.jobs, c.order), allocations), 0, w.turn)
  }

  ghost predicate ReadsFit(db: J.Db, w: World, ids: seq<string>) {
    var a := J.Run(db, w.first);
    Queue(a.jobs, a.order) != [] ==> ListsNodes(J.Run(a, w.second).nodes, ids)
  }

  ghost predicate AllocationsFit(db: J.Db, w: World, allocations: map<string, set<string>>) {
    var a := J.Run(db, w.first);
    Queue(a.jobs, a.order) != [] ==> Represents(allocations, J.Run(J.Run(J.Run(a, w.second), w.third), w.fourth))
  }

  // ---------------------------------------------------------------- a pass is a run of the system

  lemma {:induction false} ActsAppend(sys: System, a: seq<Action>, b: seq<Action>)
    ensures Acts(sys, a + b) == Acts(Acts(sys, a), b)
    decreases |b|
  {
    hide Act;
    if b == [] {
      assert a + b == a;
    } else {
      assert (a + b)[..|a + b| - 1] == a + b[..|b| - 1];
      ActsAppend(sys, a, b[..|b| - 1]);
    }
  }

  lemma OneAct(sys: System, action: Action)
    ensures Acts(sys, [action]) == Act(sys, action)
  {
  }

  lemma {:induction false} OthersAct(sys: System, ops: seq<J.Op>) returns (actions: seq<Action>)
    requires Outside(ops)
    ensures Acts(sys, actions) == sys.(db := J.Run(sys.db, ops))
    decreases |ops|
  {
    hide J.Step;
    actions := [];
    if ops != [] {
      var before := OthersAct(sys, ops[..|ops| - 1]);
      actions := before + [Env(ops[|ops| - 1])];
      assert actions[..|actions| - 1] == before;
    }
  }

  lemma Then(sys: System, actions: seq<Action>, ops: seq<J.Op>, action: Action) returns (more: seq<Action>)
    requires Outside(ops)
    ensures Acts(sys, more) == Act(Acts(sys, actions).(db := J.Run(Acts(sys, actions).db, ops)), action)
  {
    hide Act, J.Run, Acts;
    var others := OthersAct(Acts(sys, actions), ops);
    more := actions + others + [action];
    ActsAppend(sys, actions, others);
    ActsAppend(sys, actions + others, [action]);
    OneAct(Acts(sys, actions + others), action);
  }

  lemma {:induction false} TurnsAreRun(sys: System, actions: seq<Action>, db: J.Db, queue: seq<Waiting>, nodes: seq<Node>, k: nat,
                                      turn: nat -> Turn)
      returns (more: seq<Action>)
    requires forall i: nat :: Outside(turn(i).others)
    requires Acts(sys, actions) == System(db, Passing(queue, nodes))
    ensures Acts(sys, more) == System(Turns(db, queue, nodes, k, turn), Idle)
    decreases |queue|
  {
    hide J.Run, Acts, PlaceFirst, Outside;
    if queue == [] {
      OneAct(Acts(sys, actions), Abort);
      more := actions + [Abort];
      ActsAppend(sys, actions, [Abort]);
    } else {
      var t := turn(k);
      more := Then(sys, actions, t.others, Place(t.attempt, t.assignment, t.token));
      var next := OneTurn(db, queue, nodes, t);
      PlaceFirstPhase(J.Run(db, t.others), queue, nodes, t.attempt, t.assignment, t.token);
      if next.phase.Passing? {
        more := TurnsAreRun(sys, more, next.db, queue[1..], next.phase.nodes, k + 1, turn);
      }
    }
  }

  lemma PlaceFirstPhase(db: J.Db, queue: seq<Waiting>, nodes: seq<Node>, attempt: string, assignment: string, token: string)
    requires queue != []
    ensures var sys := PlaceFirst(db, queue, nodes, attempt, assignment, token);
            sys.phase.Idle? || (sys.phase.Passing? && sys.phase.queue == queue[1..])
  {
  }

  lemma PassIsRun(db: J.Db, w: World, ids: seq<string>, allocations: map<string, set<string>>) returns (actions: seq<Action>)
    requires OutsideWorld(w) && ReadsFit(db, w, ids) && AllocationsFit(db, w, allocations)
    ensures Acts(System(db, Idle), actions) == System(Pass(db, w, ids, allocations), Idle)
  {
    hide J.Run, Acts, Represents, ListsNodes, Turns, AccountAll, ListedNodes, Listing, Queue, Outside;
    var sys := System(db, Idle);
    assert Acts(sys, []) == sys by {
      ActsOfNothing(sys);
    }
    actions := Then(sys, [], w.first, ReadQueue);
    if Acts(sys, actions).phase.queue == [] {
      OneAct(Acts(sys, actions), Abort);
      ActsAppend(sys, actions, [Abort]);
      actions := actions + [Abort];
    } else {
      actions := Then(sys, actions, w.second, ReadNodes(ids));
      actions := Then(sys, actions, w.third, ReadJobs);
      actions := Then(sys, actions, w.fourth, ReadAllocations(allocations));
      var passing := Acts(sys, actions);
      actions := TurnsAreRun(sys, actions, passing.db, passing.phase.queue, passing.phase.nodes, 0, w.turn);
    }
  }

  lemma ActsOfNothing(sys: System)
    ensures Acts(sys, []) == sys
  {
  }

  // ---------------------------------------------------------------- reading the store

  method QueuedJobs(store: JobStore.Store) returns (queue: seq<Waiting>)
    ensures queue == Queue(store.jobs, store.order)
  {
    queue := [];
    for i := 0 to |store.order|
      invariant queue == Queue(store.jobs, store.order[..i])
    {
      assert store.order[..i + 1][..i] == store.order[..i];
      var j := store.order[i];
      if j in store.jobs && store.jobs[j].status == Queued {
        queue := queue + [Waiting(j, store.jobs[j].spec)];
      }
    }
    assert store.order[..|store.order|] == store.order;
  }

  method ListJobs(store: JobStore.Store) returns (jobs: seq<Job>)
    ensures jobs == Listing(store.jobs, store.order)
  {
    jobs := [];
    for i := 0 to |store.order|
      invariant jobs == Listing(store.jobs, store.order[..i])
    {
      assert store.order[..i + 1][..i] == store.order[..i];
      var j := store.order[i];
      if j in store.jobs && store.jobs[j].status != Deleted {
        jobs := [store.jobs[j]] + jobs;
      }
    }
    assert store.order[..|store.order|] == store.order;
  }

  ghost predicate IsListing(rows: map<string, J.NodeRow>, ids: seq<string>, nodes: seq<Node>) {
    ListsNodes(rows, ids) && nodes == ListedNodes(rows, ids)
  }

  method ListNodes(store: JobStore.Store) returns (nodes: seq<Node>)
    ensures exists ids :: IsListing(store.nodes, ids, nodes)
  {
    nodes := [];
    ghost var ids: seq<string> := [];
    var rest := store.nodes.Keys;
    while rest != {}
      invariant rest <= store.nodes.Keys
      invariant forall i :: 0 <= i < |ids| ==> ids[i] in store.nodes && !store.nodes[ids[i]].removed && ids[i] !in rest
      invariant forall i, k :: 0 <= i < k < |ids| ==> ids[i] != ids[k]
      invariant forall n :: n in store.nodes && n !in rest && !store.nodes[n].removed ==> n in ids
      invariant nodes == ListedNodes(store.nodes, ids)
      decreases rest
    {
      var n :| n in rest;
      rest := rest - {n};
      if !store.nodes[n].removed {
        nodes := nodes + [Blank(Shown(store.nodes[n]))];
        ids := ids + [n];
      }
    }
    assert IsListing(store.nodes, ids, nodes);
  }

  lemma ListedAreDistinct(db: J.Db, ids: seq<string>)
    requires J.NodesOk(db) && ListsNodes(db.nodes, ids)
    ensures DistinctIds(ListedNodes(db.nodes, ids))
  {
  }

  // ---------------------------------------------------------------- the pass

  /** Tries the queued jobs in turn, reserving in the store and then in the snapshot.  A lost
      race is skipped; a refused reservation ends the pass. */
  method PlaceAll(store: JobStore.Store, queue: seq<Waiting>, nodes: array<Node>, w: World)
    modifies store, nodes
    ensures store.Tables() == Turns(old(store.Tables()), queue, old(nodes[..]), 0, w.turn)
  {
    hide J.Run, J.Reserve, Placement.Select, ReserveAll;
    ghost var first, snapshot := store.Tables(), nodes[..];
    assert queue[0..] == queue;
    for k := 0 to |queue|
      invariant Turns(first, queue, snapshot, 0, w.turn) == Turns(store.Tables(), queue[k..], nodes[..], k, w.turn)
    {
      assert queue[k..][0] == queue[k] && queue[k..][1..] == queue[k + 1..];
      var t := w.turn(k);
      store.Interfere(t.others);
      var spec := queue[k].spec;
      var selected, code := Selection.SelectNode(spec, nodes[..]);
      if selected.Some? {
        if !J.IsHash(t.token) {
          return;
        }
        var chosen := selected.value;
        ReserveOutcomes(store.Tables(), queue[k].job, chosen.node.id, t.attempt, t.assignment, t.token, chosen.gpuUUIDs);
        var outcome := store.ReserveJob(queue[k].job, chosen.node.id, t.attempt, t.assignment, t.token, chosen.gpuUUIDs);
        if outcome == J.Done {
          ReserveInSnapshot(nodes, chosen.node.id, spec.resources, chosen.gpuUUIDs);
        } else if outcome != J.Conflict {
          return;
        }
      }
    }
    assert queue[|queue|..] == [];
  }

  /** One pass of the scheduler, whatever others do meanwhile. */
  method Schedule(store: JobStore.Store, w: World) returns (ghost ids: seq<string>, ghost allocations: map<string, set<string>>)
    requires Safe(System(store.Tables(), Idle)) && OutsideWorld(w)
    modifies store
    ensures ReadsFit(old(store.Tables()), w, ids) && AllocationsFit(old(store.Tables()), w, allocations)
    ensures store.Tables() == Pass(old(store.Tables()), w, ids, allocations)
    ensures Safe(System(store.Tables(), Idle))
  {
    hide J.Run, J.Inv, Fits, Exclusive, OutsideWorld, Represents, ListsNodes, Turns, AccountAll, ListedNodes, Listing, Queue;
    ghost var db := store.Tables();
    ids, allocations := [], map[];
    store.Interfere(w.first);
    var queue := QueuedJobs(store);
    if queue != [] {
      store.Interfere(w.second);
      var listed := ListNodes(store);
      ids :| IsListing(store.nodes, ids, listed);
      InvAfter(db, w);
      ListedAreDistinct(store.Tables(), ids);
      var nodes := new Node[|listed|](i requires 0 <= i < |listed| => listed[i]);
      assert nodes[..] == listed;
      store.Interfere(w.third);
      var jobs := ListJobs(store);
      store.Interfere(w.fourth);
      var held := store.AllocatedGPUUUIDs();
      allocations := held;
      HeldRepresents(held, store.Tables());
      Account(nodes, jobs, held);
      PlaceAll(store, queue, nodes, w);
    }
    ghost var actions := PassIsRun(db, w, ids, allocations);
    ActsKeepSafe(System(db, Idle), actions);
  }

  lemma HeldRepresents(held: map<string, set<string>>, db: J.Db)
    requires forall n, uuid :: (n in held && uuid in held[n]) <==> J.AllocatedOn(db, n, uuid)
    ensures Represents(held, db)
  {
  }

  lemma InvAfter(db: J.Db, w: World)
    requires J.Inv(db)
    ensures J.NodesOk(J.Run(J.Run(db, w.first), w.second))
  {
    J.RunKeepsInv(db, w.first);
    J.RunKeepsInv(J.Run(db, w.first), w.second);
    InvGivesNodes(J.Run(J.Run(db, w.first), w.second));
  }
}
