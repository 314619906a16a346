/** Usage of nodes by active jobs: recomputed from scratch (internal/capacity/capacity.go) and
    updated while a scheduling pass reserves (internal/scheduler/scheduler.go:257-281). */
module Capacity {
  import opened Domain
  import opened Fleet

  /** What is counted: CPU and memory of a node, and CPU of one of its packages. */
  datatype Kind = Cpu | Memory | Package(id: string)

  function Amount(r: Resources, kind: Kind): int {
    match kind
    case Cpu => r.cpu
    case Memory => r.memory
    case Package(p) => if p != "" && r.package == p then r.cpu else 0
  }

  predicate RunsOn(job: Job, n: string) {
    IsActive(job.status) && job.node == Some(n)
  }

  function JobDemand(job: Job, n: string, kind: Kind): int {
    if RunsOn(job, n) then Amount(job.spec.resources, kind) else 0
  }

  function Demand(jobs: seq<Job>, n: string, kind: Kind): int {
    if jobs == [] then 0 else Demand(jobs[..|jobs| - 1], n, kind) + JobDemand(jobs[|jobs| - 1], n, kind)
  }

  function Taken(allocations: map<string, set<string>>, n: string): set<string> {
    if n in allocations then allocations[n] else {}
  }

  function AccountNode(node: Node, jobs: seq<Job>, allocations: map<string, set<string>>): Node {
    var taken := Taken(allocations, node.id);
    node.(cpuAllocated := node.cpuAllocated + Demand(jobs, node.id, Cpu),
          memoryAllocated := node.memoryAllocated + Demand(jobs, node.id, Memory),
          packages := seq(|node.packages|, i requires 0 <= i < |node.packages| =>
            var p := node.packages[i]; p.(used := p.used + Demand(jobs, node.id, Package(p.id)))),
          gpus := seq(|node.gpus|, i requires 0 <= i < |node.gpus| =>
            var g := node.gpus[i]; g.(busy := g.uuid in taken)))
  }

  function AccountAll(nodes: seq<Node>, jobs: seq<Job>, allocations: map<string, set<string>>): (r: seq<Node>)
    ensures |r| == |nodes|
  {
    seq(|nodes|, i requires 0 <= i < |nodes| => AccountNode(nodes[i], jobs, allocations))
  }

  function ReserveNode(node: Node, r: Resources, chosen: set<string>): Node {
    node.(cpuAllocated := node.cpuAllocated + r.cpu,
          memoryAllocated := node.memoryAllocated + r.memory,
          packages := seq(|node.packages|, i requires 0 <= i < |node.packages| =>
            var p := node.packages[i]; p.(used := p.used + Amount(r, Package(p.id)))),
          gpus := seq(|node.gpus|, i requires 0 <= i < |node.gpus| =>
            var g := node.gpus[i]; g.(busy := g.busy || g.uuid in chosen)))
  }

  function ReserveAll(nodes: seq<Node>, n: string, r: Resources, chosen: set<string>): (s: seq<Node>)
    ensures |s| == |nodes|
  {
    seq(|nodes|, i requires 0 <= i < |nodes| => if nodes[i].id == n then ReserveNode(nodes[i], r, chosen) else nodes[i])
  }

  // ---------------------------------------------------------------- demand

  /** Changing one job changes the demand by the difference of its own. */
  lemma {:induction false} DemandUpdate(jobs: seq<Job>, i: nat, job: Job, n: string, kind: Kind)
    requires i < |jobs|
    ensures Demand(jobs[i := job], n, kind) == Demand(jobs, n, kind) - JobDemand(jobs[i], n, kind) + JobDemand(job, n, kind)
    decreases |jobs|
  {
    var k := |jobs| - 1;
    if i == k {
      assert jobs[i := job][..k] == jobs[..k];
    } else {
      assert jobs[i := job][..k] == jobs[..k][i := job];
      DemandUpdate(jobs[..k], i, job, n, kind);
    }
  }

  // ---------------------------------------------------------------- in the fields of jobs and nodes

  /** Statuses in which a job occupies its node. */
  const OCCUPYING := {Assigned, PullingImage, Starting, Running, Stopping, Lost}

  function CpuUse(jobs: seq<Job>, n: string): int {
    if jobs == [] then 0
    else
      var job := jobs[|jobs| - 1];
      CpuUse(jobs[..|jobs| - 1], n) + (if job.status in OCCUPYING && job.node == Some(n) then job.spec.resources.cpu else 0)
  }

  function MemoryUse(jobs: seq<Job>, n: string): int {
    if jobs == [] then 0
    else
      var job := jobs[|jobs| - 1];
      MemoryUse(jobs[..|jobs| - 1], n) + (if job.status in OCCUPYING && job.node == Some(n) then job.spec.resources.memory else 0)
  }

  /** CPU asked for on one package; naming no package asks for none. */
  function PackageUse(jobs: seq<Job>, n: string, p: string): int {
    if jobs == [] then 0
    else
      var job := jobs[|jobs| - 1];
      PackageUse(jobs[..|jobs| - 1], n, p)
      + (if job.status in OCCUPYING && job.node == Some(n) && p != "" && job.spec.resources.package == p then job.spec.resources.cpu else 0)
  }

  lemma {:induction false} DemandIsUse(jobs: seq<Job>, n: string)
    ensures Demand(jobs, n, Cpu) == CpuUse(jobs, n) && Demand(jobs, n, Memory) == MemoryUse(jobs, n)
    ensures forall p :: Demand(jobs, n, Package(p)) == PackageUse(jobs, n, p)
    decreases |jobs|
  {
    if jobs != [] {
      DemandIsUse(jobs[..|jobs| - 1], n);
    }
  }

  /** CPU, memory and packages of a node grow by what the jobs on it ask for, and its GPUs are busy
      exactly if they are allocated. */
  ghost predicate Counted(before: Node, after: Node, jobs: seq<Job>, allocations: map<string, set<string>>) {
    && after == before.(cpuAllocated := before.cpuAllocated + CpuUse(jobs, before.id),
                        memoryAllocated := before.memoryAllocated + MemoryUse(jobs, before.id),
                        packages := after.packages, gpus := after.gpus)
    && |after.packages| == |before.packages| && |after.gpus| == |before.gpus|
    && (forall k :: 0 <= k < |before.packages| ==>
          var p := before.packages[k]; after.packages[k] == p.(used := p.used + PackageUse(jobs, before.id, p.id)))
    && (forall k :: 0 <= k < |before.gpus| ==>
          var g := before.gpus[k]; after.gpus[k] == g.(busy := before.id in allocations && g.uuid in allocations[before.id]))
  }

  /** Likewise by what one reservation asks for. */
  ghost predicate Grown(before: Node, after: Node, r: Resources, gpuUUIDs: seq<string>) {
    && after == before.(cpuAllocated := before.cpuAllocated + r.cpu, memoryAllocated := before.memoryAllocated + r.memory,
                        packages := after.packages, gpus := after.gpus)
    && |after.packages| == |before.packages| && |after.gpus| == |before.gpus|
    && (forall k :: 0 <= k < |before.packages| ==>
          var p := before.packages[k];
          after.packages[k] == if r.package != "" && p.id == r.package then p.(used := p.used + r.cpu) else p)
    && (forall k :: 0 <= k < |before.gpus| ==>
          var g := before.gpus[k]; after.gpus[k] == g.(busy := g.busy || g.uuid in gpuUUIDs))
  }

  lemma AccountCounts(nodes: seq<Node>, jobs: seq<Job>, allocations: map<string, set<string>>)
    ensures forall i :: 0 <= i < |nodes| ==> Counted(nodes[i], AccountAll(nodes, jobs, allocations)[i], jobs, allocations)
  {
    forall i | 0 <= i < |nodes| ensures Counted(nodes[i], AccountAll(nodes, jobs, allocations)[i], jobs, allocations) {
      DemandIsUse(jobs, nodes[i].id);
      hide Demand, CpuUse, MemoryUse, PackageUse;
    }
  }

  lemma ReserveGrows(nodes: seq<Node>, n: string, r: Resources, gpuUUIDs: seq<string>)
    ensures forall i :: 0 <= i < |nodes| ==>
              var after := ReserveAll(nodes, n, r, set id | id in gpuUUIDs)[i];
              if nodes[i].id == n then Grown(nodes[i], after, r, gpuUUIDs) else after == nodes[i]
  {
  }

  // ---------------------------------------------------------------- the fast form refines the simple one

  datatype Reservation = Reservation(index: nat, node: string, job: Job, chosen: set<string>)

  /** Job `index` of the list, so far not running anywhere, becomes the active `job` on `node`. */
  ghost predicate Reserves(jobs: seq<Job>, v: Reservation) {
    && v.index < |jobs| && !IsActive(jobs[v.index].status)
    && RunsOn(v.job, v.node)
  }

  function Commit(jobs: seq<Job>, v: Reservation): (r: seq<Job>)
    requires v.index < |jobs|
    ensures |r| == |jobs|
  {
    jobs[v.index := v.job]
  }

  function Claimed(allocations: map<string, set<string>>, v: Reservation): map<string, set<string>> {
    allocations[v.node := Taken(allocations, v.node) + v.chosen]
  }

  /** Reserving in the snapshot gives the snapshot that recomputation would give for the
      updated jobs and GPU allocations. */
  lemma ReservationRefinesAccount(nodes: seq<Node>, jobs: seq<Job>, allocations: map<string, set<string>>, v: Reservation)
    requires Reserves(jobs, v)
    ensures ReserveAll(AccountAll(nodes, jobs, allocations), v.node, v.job.spec.resources, v.chosen)
            == AccountAll(nodes, Commit(jobs, v), Claimed(allocations, v))
  {
    var fast := ReserveAll(AccountAll(nodes, jobs, allocations), v.node, v.job.spec.resources, v.chosen);
    var simple := AccountAll(nodes, Commit(jobs, v), Claimed(allocations, v));
    forall i | 0 <= i < |nodes| ensures fast[i] == simple[i] {
      ReservationRefinesNode(nodes[i], jobs, allocations, v);
    }
  }

  lemma ReservationRefinesNode(node: Node, jobs: seq<Job>, allocations: map<string, set<string>>, v: Reservation)
    requires Reserves(jobs, v)
    ensures var accounted := AccountNode(node, jobs, allocations);
            (if node.id == v.node then ReserveNode(accounted, v.job.spec.resources, v.chosen) else accounted)
            == AccountNode(node, Commit(jobs, v), Claimed(allocations, v))
  {
    forall kind ensures Demand(Commit(jobs, v), node.id, kind)
                        == Demand(jobs, node.id, kind) + (if node.id == v.node then Amount(v.job.spec.resources, kind) else 0)
    {
      DemandUpdate(jobs, v.index, v.job, node.id, kind);
    }
    hide Demand;
    var accounted := AccountNode(node, jobs, allocations);
    var fast := if node.id == v.node then ReserveNode(accounted, v.job.spec.resources, v.chosen) else accounted;
    var simple := AccountNode(node, Commit(jobs, v), Claimed(allocations, v));
    assert fast.packages == simple.packages;
    assert fast.gpus == simple.gpus;
  }

  function ReserveMany(nodes: seq<Node>, vs: seq<Reservation>): seq<Node> {
    if vs == [] then nodes
    else ReserveAll(ReserveMany(nodes, vs[..|vs| - 1]), vs[|vs| - 1].node, vs[|vs| - 1].job.spec.resources, vs[|vs| - 1].chosen)
  }

  ghost predicate ReservesMany(jobs: seq<Job>, vs: seq<Reservation>)
    decreases |vs|
  {
    vs == [] || (ReservesMany(jobs, vs[..|vs| - 1]) && Reserves(CommitMany(jobs, vs[..|vs| - 1]), vs[|vs| - 1]))
  }

  function CommitMany(jobs: seq<Job>, vs: seq<Reservation>): (r: seq<Job>)
    decreases |vs|
  {
    if vs == [] then jobs
    else
      var before := CommitMany(jobs, vs[..|vs| - 1]);
      if vs[|vs| - 1].index < |before| then Commit(before, vs[|vs| - 1]) else before
  }

  function ClaimedMany(allocations: map<string, set<string>>, vs: seq<Reservation>): map<string, set<string>>
    decreases |vs|
  {
    if vs == [] then allocations else Claimed(ClaimedMany(allocations, vs[..|vs| - 1]), vs[|vs| - 1])
  }

  /** After any number of reservations in a pass the snapshot is still what recomputation gives. */
  lemma {:induction false} PassRefinesAccount(nodes: seq<Node>, jobs: seq<Job>, allocations: map<string, set<string>>, vs: seq<Reservation>)
    requires ReservesMany(jobs, vs)
    ensures ReserveMany(AccountAll(nodes, jobs, allocations), vs)
            == AccountAll(nodes, CommitMany(jobs, vs), ClaimedMany(allocations, vs))
    decreases |vs|
  {
    if vs != [] {
      var before, last := vs[..|vs| - 1], vs[|vs| - 1];
      PassRefinesAccount(nodes, jobs, allocations, before);
      ReservationRefinesAccount(nodes, CommitMany(jobs, before), ClaimedMany(allocations, before), last);
    }
  }

  // ---------------------------------------------------------------- when two accounts agree

  /** The same nodes with all GPU flags cleared. */
  function Unflagged(nodes: seq<Node>): seq<Node> {
    seq(|nodes|, i requires 0 <= i < |nodes| =>
      nodes[i].(gpus := seq(|nodes[i].gpus|, g requires 0 <= g < |nodes[i].gpus| => nodes[i].gpus[g].(busy := false))))
  }

  /** Two accounts of the same jobs differ in GPU flags only, and agree exactly when the two
      allocations agree on the GPUs of the nodes listed. */
  lemma AccountsAgreeIff(nodes: seq<Node>, jobs: seq<Job>, a: map<string, set<string>>, b: map<string, set<string>>)
    ensures Unflagged(AccountAll(nodes, jobs, a)) == Unflagged(AccountAll(nodes, jobs, b))
    ensures AccountAll(nodes, jobs, a) == AccountAll(nodes, jobs, b)
            <==> forall i :: 0 <= i < |nodes| ==> AgreeOn(nodes[i], a, b)
  {
    var x, y := AccountAll(nodes, jobs, a), AccountAll(nodes, jobs, b);
    forall i | 0 <= i < |nodes|
      ensures x[i] == y[i] <==> AgreeOn(nodes[i], a, b)
      ensures Unflagged(x)[i] == Unflagged(y)[i]
    {
      AccountedAgreeIff(nodes[i], jobs, a, b);
    }
    hide AccountNode, AgreeOn;
    assert x == y <==> forall i :: 0 <= i < |nodes| ==> x[i] == y[i];
  }

  ghost predicate AgreeOn(node: Node, a: map<string, set<string>>, b: map<string, set<string>>) {
    forall g :: 0 <= g < |node.gpus| ==> (node.gpus[g].uuid in Taken(a, node.id) <==> node.gpus[g].uuid in Taken(b, node.id))
  }

  lemma AccountedAgreeIff(node: Node, jobs: seq<Job>, a: map<string, set<string>>, b: map<string, set<string>>)
    ensures var x, y := AccountNode(node, jobs, a), AccountNode(node, jobs, b);
            && x == y.(gpus := x.gpus) && |x.gpus| == |y.gpus|
            && (forall g :: 0 <= g < |x.gpus| ==> x.gpus[g].(busy := false) == y.gpus[g].(busy := false))
            && (x == y <==> AgreeOn(node, a, b))
  {
    hide Demand;
    var x, y := AccountNode(node, jobs, a), AccountNode(node, jobs, b);
    assert x.packages == y.packages;
    forall g | 0 <= g < |node.gpus|
      ensures x.gpus[g] == y.gpus[g] <==> (node.gpus[g].uuid in Taken(a, node.id) <==> node.gpus[g].uuid in Taken(b, node.id))
    {
    }
    assert x.gpus == y.gpus <==> forall g :: 0 <= g < |node.gpus| ==> x.gpus[g] == y.gpus[g];
  }

  // ---------------------------------------------------------------- the two loops

  method FlagGPUs(gpus: seq<GPU>, taken: set<string>) returns (flagged: seq<GPU>)
    ensures |flagged| == |gpus|
    ensures forall i :: 0 <= i < |gpus| ==> flagged[i] == gpus[i].(busy := gpus[i].uuid in taken)
  {
    flagged := gpus;
    for i := 0 to |gpus|
      invariant |flagged| == |gpus|
      invariant forall k :: 0 <= k < i ==> flagged[k] == gpus[k].(busy := gpus[k].uuid in taken)
      invariant forall k :: i <= k < |gpus| ==> flagged[k] == gpus[k]
    {
      flagged := flagged[i := flagged[i].(busy := flagged[i].uuid in taken)];
    }
  }

  method AddToPackages(packages: seq<CPUPackage>, r: Resources) returns (updated: seq<CPUPackage>)
    ensures |updated| == |packages|
    ensures forall i :: 0 <= i < |packages| ==>
              updated[i] == packages[i].(used := packages[i].used + Amount(r, Package(packages[i].id)))
  {
    updated := packages;
    if r.package != "" {
      for i := 0 to |packages|
        invariant |updated| == |packages|
        invariant forall k :: 0 <= k < i ==>
          updated[k] == packages[k].(used := packages[k].used + Amount(r, Package(packages[k].id)))
        invariant forall k :: i <= k < |packages| ==> updated[k] == packages[k]
      {
        if updated[i].id == r.package {
          updated := updated[i := updated[i].(used := updated[i].used + r.cpu)];
        }
      }
    }
  }

  /** Adds one active job to the node it runs on. */
  lemma AccountOneMore(node: Node, jobs: seq<Job>, job: Job, allocations: map<string, set<string>>, packages: seq<CPUPackage>)
    requires RunsOn(job, node.id)
    requires var done := AccountNode(node, jobs, allocations);
             && |packages| == |done.packages|
             && forall i :: 0 <= i < |packages| ==>
                  packages[i] == done.packages[i].(used := done.packages[i].used + Amount(job.spec.resources, Package(done.packages[i].id)))
    ensures var done := AccountNode(node, jobs, allocations);
            AccountNode(node, jobs + [job], allocations)
            == done.(cpuAllocated := done.cpuAllocated + job.spec.resources.cpu,
                     memoryAllocated := done.memoryAllocated + job.spec.resources.memory, packages := packages)
  {
  }

  lemma DemandAppend(jobs: seq<Job>, job: Job, n: string)
    ensures forall kind :: Demand(jobs + [job], n, kind) == Demand(jobs, n, kind) + JobDemand(job, n, kind)
  {
  }

  lemma AccountUnchanged(node: Node, jobs: seq<Job>, job: Job, allocations: map<string, set<string>>)
    requires !RunsOn(job, node.id)
    ensures AccountNode(node, jobs + [job], allocations) == AccountNode(node, jobs, allocations)
  {
    DemandAppend(jobs, job, node.id);
    hide Demand;
    var more, done := AccountNode(node, jobs + [job], allocations), AccountNode(node, jobs, allocations);
    assert more.packages == done.packages;
    assert more.gpus == done.gpus;
  }

  ghost predicate Indexes(byId: map<string, nat>, nodes: seq<Node>) {
    && (forall k :: 0 <= k < |nodes| ==> nodes[k].id in byId && byId[nodes[k].id] == k)
    && (forall id :: id in byId ==> byId[id] < |nodes| && nodes[byId[id]].id == id)
  }

  method FlagNodes(nodes: array<Node>, allocations: map<string, set<string>>) returns (byId: map<string, nat>)
    requires DistinctIds(nodes[..])
    modifies nodes
    ensures nodes[..] == AccountAll(old(nodes[..]), [], allocations)
    ensures Indexes(byId, old(nodes[..]))
  {
    ghost var before := nodes[..];
    byId := map[];
    for i := 0 to nodes.Length
      invariant forall k :: 0 <= k < i ==> nodes[k] == AccountNode(before[k], [], allocations)
      invariant forall k :: i <= k < nodes.Length ==> nodes[k] == before[k]
      invariant Indexes(byId, before[..i])
    {
      byId := byId[nodes[i].id := i];
      var flagged := FlagGPUs(nodes[i].gpus, Taken(allocations, nodes[i].id));
      nodes[i] := nodes[i].(gpus := flagged);
      assert nodes[i].gpus == AccountNode(before[i], [], allocations).gpus;
      assert nodes[i].packages == AccountNode(before[i], [], allocations).packages;
    }
    assert before[..nodes.Length] == before;
  }

  method AddJob(nodes: array<Node>, byId: map<string, nat>, job: Job, ghost before: seq<Node>, ghost jobs: seq<Job>,
                ghost allocations: map<string, set<string>>)
    requires Indexes(byId, before)
    requires nodes[..] == AccountAll(before, jobs, allocations)
    modifies nodes
    ensures nodes[..] == AccountAll(before, jobs + [job], allocations)
  {
    forall k | 0 <= k < nodes.Length && !RunsOn(job, before[k].id)
      ensures AccountNode(before[k], jobs + [job], allocations) == AccountNode(before[k], jobs, allocations)
    {
      AccountUnchanged(before[k], jobs, job, allocations);
    }
    if IsActive(job.status) && job.node.Some? && job.node.value in byId {
      var at := byId[job.node.value];
      var node := nodes[at];
      assert node == AccountNode(before[at], jobs, allocations);
      var packages := AddToPackages(node.packages, job.spec.resources);
      AccountOneMore(before[at], jobs, job, allocations, packages);
      hide AccountNode;
      nodes[at] := node.(cpuAllocated := node.cpuAllocated + job.spec.resources.cpu,
                         memoryAllocated := node.memoryAllocated + job.spec.resources.memory, packages := packages);
    }
  }

  method Account(nodes: array<Node>, jobs: seq<Job>, allocations: map<string, set<string>>)
    requires DistinctIds(nodes[..])
    modifies nodes
    ensures nodes[..] == AccountAll(old(nodes[..]), jobs, allocations)
    ensures forall i :: 0 <= i < nodes.Length ==> Counted(old(nodes[i]), nodes[i], jobs, allocations)
  {
    ghost var before := nodes[..];
    AccountCounts(before, jobs, allocations);
    hide AccountAll, Counted;
    var byId := FlagNodes(nodes, allocations);
    assert jobs[..0] == [];
    for j := 0 to |jobs|
      invariant nodes[..] == AccountAll(before, jobs[..j], allocations)
    {
      assert jobs[..j + 1] == jobs[..j] + [jobs[j]];
      AddJob(nodes, byId, jobs[j], before, jobs[..j], allocations);
    }
    assert jobs[..|jobs|] == jobs;
  }

  method ReserveInSnapshot(nodes: array<Node>, n: string, r: Resources, gpuUUIDs: seq<string>)
    modifies nodes
    ensures nodes[..] == ReserveAll(old(nodes[..]), n, r, set id | id in gpuUUIDs)
    ensures forall i :: 0 <= i < nodes.Length ==>
              if old(nodes[i]).id == n then Grown(old(nodes[i]), nodes[i], r, gpuUUIDs) else nodes[i] == old(nodes[i])
  {
    var chosen := set id | id in gpuUUIDs;
    ghost var before := nodes[..];
    ReserveGrows(before, n, r, gpuUUIDs);
    hide Grown;
    for i := 0 to nodes.Length
      invariant forall k :: 0 <= k < i ==>
        nodes[k] == if before[k].id == n then ReserveNode(before[k], r, chosen) else before[k]
      invariant forall k :: i <= k < nodes.Length ==> nodes[k] == before[k]
    {
      if nodes[i].id == n {
        var packages := AddToPackages(nodes[i].packages, r);
        var gpus := nodes[i].gpus;
        for g := 0 to |gpus|
          invariant |gpus| == |before[i].gpus|
          invariant forall k :: 0 <= k < g ==>
                      gpus[k] == before[i].gpus[k].(busy := before[i].gpus[k].busy || before[i].gpus[k].uuid in chosen)
          invariant forall k :: g <= k < |gpus| ==> gpus[k] == before[i].gpus[k]
        {
          if gpus[g].uuid in chosen {
            gpus := gpus[g := gpus[g].(busy := true)];
          }
        }
        nodes[i] := nodes[i].(cpuAllocated := nodes[i].cpuAllocated + r.cpu, packages := packages,
                              memoryAllocated := nodes[i].memoryAllocated + r.memory, gpus := gpus);
        assert nodes[i].packages == ReserveNode(before[i], r, chosen).packages;
        assert nodes[i].gpus == ReserveNode(before[i], r, chosen).gpus;
      }
    }
  }
}
