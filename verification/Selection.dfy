/** What the choice of a node means in the fields of nodes and jobs
    (internal/scheduler/scheduler.go:84-255). */
module Selection {
  import opened Domain
  import opened Fleet
  import opened Sorting
  import opened Placement

  /** The key of the table of GPUs (internal/store/migrations/001_initial.sql:47-53). */
  ghost predicate DistinctGPUs(nodes: seq<Node>) {
    forall node :: node in nodes ==>
      forall i, k :: 0 <= i < k < |node.gpus| ==> node.gpus[i].uuid != node.gpus[k].uuid
  }

  // ---------------------------------------------------------------- which nodes will do

  /** The node asked for, if one is; online; labelled as asked for, with "" for a label that is not
      there; with enough CPU and memory left. */
  ghost predicate HasRoom(spec: JobSpec, node: Node) {
    && (spec.target == "" || node.id == spec.target)
    && node.status == Online
    && (forall key :: key in spec.selector ==> (if key in node.labels then node.labels[key] else "") == spec.selector[key])
    && spec.resources.cpu <= node.cpuTotal - node.cpuAllocated
    && spec.resources.memory <= node.memoryTotal - node.memoryAllocated
  }

  /** The first package of that name. */
  ghost predicate NamedAt(node: Node, name: string, k: int) {
    && 0 <= k < |node.packages| && node.packages[k].id == name
    && forall i :: 0 <= i < k ==> node.packages[i].id != name
  }

  /** If a package is asked for, the node can pin jobs to packages, has it, and has enough left of it. */
  ghost predicate HasPackage(spec: JobSpec, node: Node) {
    spec.resources.package != "" ==>
      && "cpu_package_affinity" in node.capabilities
      && exists k :: NamedAt(node, spec.resources.package, k)
                     && spec.resources.cpu <= node.packages[k].total - node.packages[k].used
  }

  /** GPUs the job could be given: those it names, or as many as it wants that are big enough; in
      any case free. */
  ghost predicate Choice(spec: JobSpec, node: Node, gpus: seq<GPU>) {
    && |gpus| == spec.resources.gpuCount && multiset(gpus) <= multiset(node.gpus)
    && (forall g :: g in gpus ==> !g.busy && spec.resources.minVRAM <= g.vram)
  }

  ghost predicate HasGPUs(spec: JobSpec, node: Node) {
    if spec.resources.gpuUUIDs != [] then
      && |spec.resources.gpuUUIDs| == spec.resources.gpuCount
      && forall id :: id in spec.resources.gpuUUIDs ==> exists g :: g in node.gpus && g.uuid == id && !g.busy
    else exists gpus: seq<GPU> :: Choice(spec, node, gpus)
  }

  ghost predicate WillDo(spec: JobSpec, node: Node) {
    HasRoom(spec, node) && HasPackage(spec, node) && HasGPUs(spec, node)
  }

  lemma {:induction false} FindPackageIs(packages: seq<CPUPackage>, name: string, k: nat)
    requires k < |packages| && packages[k].id == name && forall i :: 0 <= i < k ==> packages[i].id != name
    ensures FindPackage(packages, name) == Some(packages[k])
    decreases k
  {
    if k > 0 {
      FindPackageIs(packages[1..], name, k - 1);
    }
  }

  lemma {:induction false} FindPackageAt(node: Node, packages: seq<CPUPackage>, name: string) returns (k: nat)
    requires FindPackage(packages, name).Some?
    ensures k < |packages| && packages[k].id == name && forall i :: 0 <= i < k ==> packages[i].id != name
    decreases |packages|
  {
    k := 0;
    if packages[0].id != name {
      k := FindPackageAt(node, packages[1..], name);
      k := k + 1;
    }
  }

  lemma PackageIff(spec: JobSpec, node: Node)
    ensures HasPackage(spec, node) <==> Passes(spec, node, 5) && Passes(spec, node, 6) && Passes(spec, node, 7)
    ensures forall k :: NamedAt(node, spec.resources.package, k) ==>
              FindPackage(node.packages, spec.resources.package) == Some(node.packages[k])
  {
    var name := spec.resources.package;
    forall k | NamedAt(node, name, k) ensures FindPackage(node.packages, name) == Some(node.packages[k]) {
      FindPackageIs(node.packages, name, k);
    }
    if FindPackage(node.packages, name).Some? {
      var k := FindPackageAt(node, node.packages, name);
      assert NamedAt(node, name, k);
    }
    hide FindPackage;
  }

  lemma {:induction false} FindGPUIs(gpus: seq<GPU>, g: GPU)
    requires g in gpus && forall h :: h in gpus && h != g ==> h.uuid != g.uuid
    ensures FindGPU(gpus, g.uuid) == Some(g)
    decreases |gpus|
  {
    var init, last := gpus[..|gpus| - 1], gpus[|gpus| - 1];
    assert last in gpus;
    if last.uuid != g.uuid {
      FindGPUIs(init, g);
    }
  }

  lemma NamedFreeIff(node: Node, id: string)
    requires forall i, k :: 0 <= i < k < |node.gpus| ==> node.gpus[i].uuid != node.gpus[k].uuid
    ensures (var g := FindGPU(Inventory(node), id); g.Some? && !g.value.busy)
            <==> exists g :: g in node.gpus && g.uuid == id && !g.busy
  {
    hide Inventory;
    forall g ensures g in Inventory(node) <==> g in node.gpus {
      InventoryIsNode(node, g);
    }
    if g :| g in node.gpus && g.uuid == id && !g.busy {
      FindGPUIs(Inventory(node), g);
    }
  }

  lemma WillDoIff(spec: JobSpec, node: Node)
    requires forall i, k :: 0 <= i < k < |node.gpus| ==> node.gpus[i].uuid != node.gpus[k].uuid
    ensures Feasible(spec, node) <==> WillDo(spec, node)
  {
    PackageIff(spec, node);
    forall id ensures (var g := FindGPU(Inventory(node), id); g.Some? && !g.value.busy)
                      <==> exists g :: g in node.gpus && g.uuid == id && !g.busy
    {
      NamedFreeIff(node, id);
    }
    RoomIff(spec, node);
    ChoiceIff(spec, node);
    hide HasPackage, HasRoom, FindPackage, FindGPU, Inventory, LabelsMatch, Choice;
    ClearsAll(spec, node);
  }

  lemma RoomIff(spec: JobSpec, node: Node)
    ensures HasRoom(spec, node) <==>
              Passes(spec, node, 0) && Passes(spec, node, 1) && Passes(spec, node, 2) && Passes(spec, node, 3) && Passes(spec, node, 4)
  {
  }

  lemma ClearsAll(spec: JobSpec, node: Node)
    ensures Clears(spec, node, 9) <==>
              && Passes(spec, node, 0) && Passes(spec, node, 1) && Passes(spec, node, 2) && Passes(spec, node, 3)
              && Passes(spec, node, 4) && Passes(spec, node, 5) && Passes(spec, node, 6) && Passes(spec, node, 7)
              && Passes(spec, node, 8) && Passes(spec, node, 9)
  {
    hide Passes;
    if Passes(spec, node, 0) && Passes(spec, node, 1) && Passes(spec, node, 2) && Passes(spec, node, 3) && Passes(spec, node, 4)
       && Passes(spec, node, 5) && Passes(spec, node, 6) && Passes(spec, node, 7) && Passes(spec, node, 8) && Passes(spec, node, 9) {
      forall i | 0 <= i <= 9 ensures Passes(spec, node, i) {
        assert i in {0, 1, 2, 3, 4, 5, 6, 7, 8, 9};
      }
    }
  }

  lemma ChoiceIff(spec: JobSpec, node: Node)
    ensures spec.resources.gpuUUIDs == [] ==> (GPUsAvailable(spec, node) <==> exists gpus: seq<GPU> :: Choice(spec, node, gpus))
  {
    forall gpus: seq<GPU>
      ensures Choice(spec, node, gpus) <==>
                |gpus| == spec.resources.gpuCount && multiset(gpus) <= multiset(node.gpus)
                && forall g :: g in gpus ==> EligibleGPU(g, spec.resources.minVRAM)
    {
    }
    hide Choice, EligibleGPU;
    if spec.resources.gpuUUIDs == [] && GPUsAvailable(spec, node) {
      var alt: seq<GPU> :| |alt| == spec.resources.gpuCount && multiset(alt) <= multiset(node.gpus)
                           && forall g :: g in alt ==> EligibleGPU(g, spec.resources.minVRAM);
      assert Choice(spec, node, alt);
    }
  }

  // ---------------------------------------------------------------- which of them is chosen

  /** Less VRAM wasted; else less memory left over, less CPU, or the smaller id. */
  ghost predicate NotWorse(node: Node, waste: int, other: Node, waste': int) {
    var memory, memory' := node.memoryTotal - node.memoryAllocated, other.memoryTotal - other.memoryAllocated;
    var cpu, cpu' := node.cpuTotal - node.cpuAllocated, other.cpuTotal - other.cpuAllocated;
    || waste < waste'
    || (waste == waste' && memory < memory')
    || (waste == waste' && memory == memory' && cpu < cpu')
    || (waste == waste' && memory == memory' && cpu == cpu' && !Earlier(other.id, node.id))
  }

  /** What the winner is given: the GPUs it names, wasting nothing, or a choice of its node's GPUs and
      what they waste; and the CPUs of its package. */
  ghost predicate IsGiven(spec: JobSpec, w: Candidate) {
    && w.package == spec.resources.package
    && (if w.package == "" then w.cpuSet == []
        else exists k :: NamedAt(w.node, w.package, k) && w.cpuSet == w.node.packages[k].logicalCPUs)
    && (if spec.resources.gpuUUIDs != [] then w.gpuUUIDs == spec.resources.gpuUUIDs && w.vramWaste == 0
        else exists gpus: seq<GPU> :: Given(spec, w, gpus))
  }

  ghost predicate Given(spec: JobSpec, w: Candidate, gpus: seq<GPU>) {
    && Choice(spec, w.node, gpus)
    && |w.gpuUUIDs| == |gpus| && (forall i :: 0 <= i < |gpus| ==> w.gpuUUIDs[i] == gpus[i].uuid)
    && w.vramWaste == Waste(gpus, spec.resources.minVRAM)
  }

  lemma RankedIsNotWorse(spec: JobSpec, w: Candidate, c: Candidate)
    requires CandidateOf(spec, w.node) == Some(w) && CandidateOf(spec, c.node) == Some(c) && !RankedBefore(c, w)
    ensures NotWorse(w.node, w.vramWaste, c.node, c.vramWaste)
  {
    hide Clears, ChosenGPUs, StringLess, Earlier, FindPackage;
    StringLessIff(c.node.id, w.node.id);
  }

  lemma NotWorseStill(node: Node, waste: int, other: Node, waste': int, more: int)
    requires NotWorse(node, waste, other, waste') && waste' <= more
    ensures NotWorse(node, waste, other, more)
  {
  }

  lemma CandidateIsGiven(spec: JobSpec, w: Candidate)
    requires CandidateOf(spec, w.node) == Some(w)
    ensures IsGiven(spec, w)
  {
    PackageIff(spec, w.node);
    ClearsAll(spec, w.node);
    var r := spec.resources;
    hide Clears, Inventory, Passes, FindPackage, Choice;
    if r.package != "" {
      var k :| NamedAt(w.node, r.package, k);
    }
    if r.gpuUUIDs == [] {
      var e := Eligible(Inventory(w.node), r.minVRAM);
      PickIsPrefix(Inventory(w.node), r.minVRAM, r.gpuCount);
      var gpus := e[..AtMost(|e|, r.gpuCount)];
      PrefixWithin(e, |gpus|);
      EligibleIn(w.node, gpus, r.minVRAM);
      assert Choice(spec, w.node, gpus) by {
        hide *;
        IsChoice(spec, w.node, gpus);
      }
      hide Pick, Eligible, Waste;
      assert Given(spec, w, gpus);
    }
  }

  lemma IsChoice(spec: JobSpec, node: Node, gpus: seq<GPU>)
    requires |gpus| == spec.resources.gpuCount && multiset(gpus) <= multiset(node.gpus)
    requires forall g :: g in gpus ==> EligibleGPU(g, spec.resources.minVRAM)
    ensures Choice(spec, node, gpus)
  {
  }

  function WasteOf(spec: JobSpec, gpus: seq<GPU>): int {
    if spec.resources.gpuUUIDs != [] then 0 else Waste(gpus, spec.resources.minVRAM)
  }

  ghost predicate MayGet(spec: JobSpec, node: Node, gpus: seq<GPU>) {
    WillDo(spec, node) && (spec.resources.gpuUUIDs == [] ==> Choice(spec, node, gpus))
  }

  /** No other node that will do, and no other choice of GPUs there, is better. */
  ghost predicate IsBest(spec: JobSpec, nodes: seq<Node>, w: Candidate) {
    forall other: Node, gpus: seq<GPU> ::
      other in nodes && MayGet(spec, other, gpus) ==> NotWorse(w.node, w.vramWaste, other, WasteOf(spec, gpus))
  }

  lemma {:induction false} OthersAreNoBetter(spec: JobSpec, nodes: seq<Node>, other: Node, gpus: seq<GPU>)
    requires DistinctGPUs(nodes) && Select(spec, nodes).Some? && other in nodes && MayGet(spec, other, gpus)
    ensures var w := Select(spec, nodes).value;
            NotWorse(w.node, w.vramWaste, other, WasteOf(spec, gpus))
  {
    SelectIsLeast(spec, nodes);
    SelectIsBest(spec, nodes);
    WillDoIff(spec, other);
    CandidateIffFeasible(spec, other);
    var w, c := Select(spec, nodes).value, CandidateOf(spec, other).value;
    CandidateWaste(spec, other);
    CandidatesAre(spec, nodes, c);
    hide Select, Candidates, CandidateOf, WillDo, RankedBefore, NotWorse, Waste, Feasible, DistinctGPUs;
    RankedIsNotWorse(spec, w, c);
    if spec.resources.gpuUUIDs == [] {
      GreedyPickIsOptimal(spec, other, gpus);
      NotWorseStill(w.node, w.vramWaste, other, c.vramWaste, Waste(gpus, spec.resources.minVRAM));
    }
  }

  lemma CandidateWaste(spec: JobSpec, node: Node)
    requires CandidateOf(spec, node).Some?
    ensures CandidateOf(spec, node).value.node == node
    ensures spec.resources.gpuUUIDs != [] ==> CandidateOf(spec, node).value.vramWaste == 0
  {
    hide Clears, Pick, FindPackage;
  }

  /** A node is selected if and only if some listed node will do; the winner is one of them, is given
      what the job asks for, and is the best. */
  lemma {:induction false} SelectsTheBest(spec: JobSpec, nodes: seq<Node>)
    requires DistinctGPUs(nodes)
    ensures Select(spec, nodes).Some? <==> exists node :: node in nodes && WillDo(spec, node)
    ensures Select(spec, nodes).Some? ==>
              var w := Select(spec, nodes).value;
              w.node in nodes && WillDo(spec, w.node) && IsGiven(spec, w) && IsBest(spec, nodes, w)
  {
    SelectIsComplete(spec, nodes);
    forall node | node in nodes ensures Feasible(spec, node) <==> WillDo(spec, node) {
      WillDoIff(spec, node);
    }
    hide Select, Feasible, WillDo, CandidateOf, RankedBefore, IsGiven, MayGet, NotWorse, WasteOf;
    if Select(spec, nodes).Some? {
      CandidateIsGiven(spec, Select(spec, nodes).value);
      forall other: Node, gpus: seq<GPU>
        | other in nodes && MayGet(spec, other, gpus)
        ensures var w := Select(spec, nodes).value;
                NotWorse(w.node, w.vramWaste, other, WasteOf(spec, gpus))
      {
        OthersAreNoBetter(spec, nodes, other, gpus);
      }
    }
  }

  // ---------------------------------------------------------------- which GPUs are chosen

  lemma {:induction false} EligibleIsSorted(gpus: seq<GPU>, minVRAM: int)
    requires Sorted(gpus, GPULess)
    ensures Sorted(Eligible(gpus, minVRAM), GPULess)
    ensures forall g :: g in Eligible(gpus, minVRAM) <==> g in gpus && !g.busy && minVRAM <= g.vram
    decreases |gpus|
  {
    hide GPULess;
    if gpus != [] {
      var init, last := gpus[..|gpus| - 1], gpus[|gpus| - 1];
      EligibleIsSorted(init, minVRAM);
      assert gpus == init + [last];
      var e := Eligible(init, minVRAM);
      forall i | 0 <= i < |e| ensures !GPULess(last, e[i]) {
        assert e[i] in e;
        var k :| 0 <= k < |init| && init[k] == e[i];
      }
    }
  }

  /** Of the GPUs that would do, the smallest are chosen, and of equally large ones those whose UUIDs
      come first. */
  lemma SmallestAreChosen(spec: JobSpec, nodes: seq<Node>, g: GPU, h: GPU)
    requires DistinctGPUs(nodes) && Select(spec, nodes).Some? && spec.resources.gpuUUIDs == []
    requires var w := Select(spec, nodes).value;
             && g in w.node.gpus && g.uuid in w.gpuUUIDs
             && h in w.node.gpus && h.uuid !in w.gpuUUIDs && !h.busy && spec.resources.minVRAM <= h.vram
    ensures g.vram < h.vram || (g.vram == h.vram && Earlier(g.uuid, h.uuid))
  {
    SelectIsBest(spec, nodes);
    hide Select, Clears, RankedBefore, Inventory, StringLess, Earlier, FindPackage, Pick;
    var w := Select(spec, nodes).value;
    assert w.gpuUUIDs == Pick(Inventory(w.node), spec.resources.minVRAM, spec.resources.gpuCount).0;
    hide CandidateOf;
    PickedBefore(w.node, spec.resources.minVRAM, spec.resources.gpuCount, g, h);
  }

  lemma PickedBefore(node: Node, minVRAM: int, count: int, g: GPU, h: GPU)
    requires forall i, k :: 0 <= i < k < |node.gpus| ==> node.gpus[i].uuid != node.gpus[k].uuid
    requires g in node.gpus && g.uuid in Pick(Inventory(node), minVRAM, count).0
    requires h in node.gpus && h.uuid !in Pick(Inventory(node), minVRAM, count).0 && !h.busy && minVRAM <= h.vram
    ensures g.vram < h.vram || (g.vram == h.vram && Earlier(g.uuid, h.uuid))
  {
    hide *;
    var e := Eligible(Inventory(node), minVRAM);
    PickIsPrefix(Inventory(node), minVRAM, count);
    InventorySorted(node, minVRAM);
    var i := PickedAt(e, AtMost(|e|, count), g.uuid);
    SameUUID(node, e[i], g);
    var k :| 0 <= k < |e| && e[k] == h;
    NotPickedAt(e, AtMost(|e|, count), k);
    LesserOf(e, i, k);
    StringLessIff(g.uuid, h.uuid);
  }

  lemma InventorySorted(node: Node, minVRAM: int)
    ensures Sorted(Eligible(Inventory(node), minVRAM), GPULess)
    ensures forall g :: g in Eligible(Inventory(node), minVRAM) <==> g in node.gpus && !g.busy && minVRAM <= g.vram
    ensures forall n, count :: AtMost(n, count) <= n
  {
    GPULessIsOrder();
    SortSorts(node.gpus, GPULess);
    EligibleIsSorted(Inventory(node), minVRAM);
    hide Eligible, Sort, Sorted, StrictOrder, GPULess, Inventory;
    forall g ensures g in Inventory(node) <==> g in node.gpus {
      InventoryIsNode(node, g);
    }
  }

  lemma PickedAt(e: seq<GPU>, m: nat, uuid: string) returns (i: nat)
    requires m <= |e| && uuid in UUIDs(e[..m])
    ensures i < m && e[i].uuid == uuid
  {
    i :| 0 <= i < m && UUIDs(e[..m])[i] == uuid;
  }

  lemma NotPickedAt(e: seq<GPU>, m: nat, k: nat)
    requires m <= |e| && k < |e| && e[k].uuid !in UUIDs(e[..m])
    ensures m <= k
  {
    forall i | 0 <= i < m ensures e[i].uuid in UUIDs(e[..m]) {
      assert UUIDs(e[..m])[i] == e[i].uuid;
    }
  }

  lemma SameUUID(node: Node, g: GPU, h: GPU)
    requires forall i, k :: 0 <= i < k < |node.gpus| ==> node.gpus[i].uuid != node.gpus[k].uuid
    requires g in node.gpus && h in node.gpus && g.uuid == h.uuid
    ensures g == h
  {
  }

  lemma LesserOf(e: seq<GPU>, i: nat, k: nat)
    requires Sorted(e, GPULess) && i < k < |e| && e[i].uuid != e[k].uuid
    ensures e[i].vram < e[k].vram || (e[i].vram == e[k].vram && StringLess(e[i].uuid, e[k].uuid))
  {
    assert !GPULess(e[k], e[i]);
    StringLessTotal(e[i].uuid, e[k].uuid);
  }

  // ---------------------------------------------------------------- why no node will do

  ghost predicate Asked(spec: JobSpec, node: Node) {
    spec.target == "" || node.id == spec.target
  }

  ghost predicate Labelled(spec: JobSpec, node: Node) {
    && Asked(spec, node) && node.status == Online
    && forall key :: key in spec.selector ==> (if key in node.labels then node.labels[key] else "") == spec.selector[key]
  }

  ghost predicate HasCpu(spec: JobSpec, node: Node) {
    Labelled(spec, node) && spec.resources.cpu <= node.cpuTotal - node.cpuAllocated
  }

  ghost predicate PinsPackages(spec: JobSpec, node: Node) {
    HasRoom(spec, node) && "cpu_package_affinity" in node.capabilities
  }

  ghost predicate NamesPackage(spec: JobSpec, node: Node) {
    PinsPackages(spec, node) && exists p :: p in node.packages && p.id == spec.resources.package
  }

  ghost predicate NamesGPUs(spec: JobSpec, node: Node) {
    && HasRoom(spec, node) && HasPackage(spec, node)
    && forall id :: id in spec.resources.gpuUUIDs ==> exists g :: g in node.gpus && g.uuid == id
  }

  ghost predicate FreesGPUs(spec: JobSpec, node: Node) {
    && HasRoom(spec, node) && HasPackage(spec, node)
    && forall id :: id in spec.resources.gpuUUIDs ==> exists g :: g in node.gpus && g.uuid == id && !g.busy
  }

  ghost predicate HasLargeGPU(spec: JobSpec, node: Node) {
    HasRoom(spec, node) && HasPackage(spec, node) && exists g :: g in node.gpus && spec.resources.minVRAM <= g.vram
  }

  /** The job asks for something that no node has, together with all that is numbered before it. */
  ghost predicate Lacks(spec: JobSpec, nodes: seq<Node>, k: nat) {
    var r := spec.resources;
    match k
    case 0 => spec.target != "" && !(exists node :: node in nodes && Asked(spec, node))
    case 1 => !(exists node :: node in nodes && Asked(spec, node) && node.status == Online)
    case 2 => !(exists node :: node in nodes && Labelled(spec, node))
    case 3 => !(exists node :: node in nodes && HasCpu(spec, node))
    case 4 => !(exists node :: node in nodes && HasRoom(spec, node))
    case 5 => r.package != "" && !(exists node :: node in nodes && PinsPackages(spec, node))
    case 6 => r.package != "" && !(exists node :: node in nodes && NamesPackage(spec, node))
    case 7 => r.package != "" && !(exists node :: node in nodes && HasRoom(spec, node) && HasPackage(spec, node))
    case 8 => r.gpuUUIDs != [] && !(exists node :: node in nodes && NamesGPUs(spec, node))
    case 9 => r.gpuUUIDs != [] && !(exists node :: node in nodes && FreesGPUs(spec, node))
    case 10 => r.gpuUUIDs == [] && r.gpuCount > 0 && !(exists node :: node in nodes && HasLargeGPU(spec, node))
    case _ => false
  }

  /** Why a job waits when no node will do: the first thing it lacks. */
  ghost function Reason(spec: JobSpec, nodes: seq<Node>): string {
    if Lacks(spec, nodes, 0) then "REQUESTED_NODE_NOT_FOUND"
    else if Lacks(spec, nodes, 1) then (if spec.target != "" then "REQUESTED_NODE_UNAVAILABLE" else "NO_ONLINE_NODE")
    else if Lacks(spec, nodes, 2) then "NODE_SELECTOR_MISMATCH"
    else if Lacks(spec, nodes, 3) then "INSUFFICIENT_CPU"
    else if Lacks(spec, nodes, 4) then "INSUFFICIENT_MEMORY"
    else if Lacks(spec, nodes, 5) then "CPU_AFFINITY_UNSUPPORTED"
    else if Lacks(spec, nodes, 6) then "REQUESTED_CPU_PACKAGE_NOT_FOUND"
    else if Lacks(spec, nodes, 7) then "INSUFFICIENT_CPU_PACKAGE"
    else if Lacks(spec, nodes, 8) then "REQUESTED_GPU_NOT_FOUND"
    else if Lacks(spec, nodes, 9) then "REQUESTED_GPU_ALLOCATED"
    else if Lacks(spec, nodes, 10) then "NO_COMPATIBLE_GPU"
    else "RESOURCES_ALLOCATED"
  }

  /** Clearing filters 0 to `k`, for a job that asks for `k`, in the fields of the node. */
  ghost predicate Meets(spec: JobSpec, node: Node, k: nat) {
    match k
    case 0 => Asked(spec, node)
    case 1 => Asked(spec, node) && node.status == Online
    case 2 => Labelled(spec, node)
    case 3 => HasCpu(spec, node)
    case 4 => HasRoom(spec, node)
    case 5 => PinsPackages(spec, node)
    case 6 => NamesPackage(spec, node)
    case 7 => HasRoom(spec, node) && HasPackage(spec, node)
    case 8 => NamesGPUs(spec, node)
    case 9 => FreesGPUs(spec, node)
    case _ => HasLargeGPU(spec, node)
  }

  lemma NamedIff(node: Node, id: string)
    ensures FindGPU(Inventory(node), id).Some? <==> exists g :: g in node.gpus && g.uuid == id
  {
    hide Inventory;
    forall g ensures g in Inventory(node) <==> g in node.gpus {
      InventoryIsNode(node, g);
    }
    if g :| g in node.gpus && g.uuid == id {
      FindGPUSome(Inventory(node), g);
    }
  }

  lemma {:induction false} FindGPUSome(gpus: seq<GPU>, g: GPU)
    requires g in gpus
    ensures FindGPU(gpus, g.uuid).Some?
    decreases |gpus|
  {
    if gpus[|gpus| - 1].uuid != g.uuid {
      FindGPUSome(gpus[..|gpus| - 1], g);
    }
  }

  lemma PackageSteps(spec: JobSpec, node: Node)
    requires spec.resources.package != ""
    ensures Passes(spec, node, 5) <==> "cpu_package_affinity" in node.capabilities
    ensures Passes(spec, node, 6) <==> exists p :: p in node.packages && p.id == spec.resources.package
  {
    if p :| p in node.packages && p.id == spec.resources.package {
      FindPackageSome(node.packages, p);
    }
  }

  lemma {:induction false} FindPackageSome(packages: seq<CPUPackage>, p: CPUPackage)
    requires p in packages
    ensures FindPackage(packages, p.id).Some?
    decreases |packages|
  {
    if packages[0].id != p.id {
      FindPackageSome(packages[1..], p);
    }
  }

  lemma GPUSteps(spec: JobSpec, node: Node)
    requires forall i, k :: 0 <= i < k < |node.gpus| ==> node.gpus[i].uuid != node.gpus[k].uuid
    ensures Passes(spec, node, 8) <==> forall id :: id in spec.resources.gpuUUIDs ==> exists g :: g in node.gpus && g.uuid == id
    ensures Passes(spec, node, 9) <==>
              forall id :: id in spec.resources.gpuUUIDs ==> exists g :: g in node.gpus && g.uuid == id && !g.busy
    ensures spec.resources.gpuUUIDs == [] && spec.resources.gpuCount > 0 ==>
              (Passes(spec, node, 10) <==> exists g :: g in node.gpus && spec.resources.minVRAM <= g.vram)
  {
    forall id
      ensures FindGPU(Inventory(node), id).Some? <==> exists g :: g in node.gpus && g.uuid == id
      ensures (var g := FindGPU(Inventory(node), id); g.Some? && !g.value.busy)
              <==> exists g :: g in node.gpus && g.uuid == id && !g.busy
    {
      NamedIff(node, id);
      NamedFreeIff(node, id);
    }
    hide FindGPU, Inventory;
  }

  lemma RoomSteps(spec: JobSpec, node: Node)
    ensures Passes(spec, node, 0) <==> Asked(spec, node)
    ensures Passes(spec, node, 0) && Passes(spec, node, 1) <==> Asked(spec, node) && node.status == Online
    ensures Passes(spec, node, 0) && Passes(spec, node, 1) && Passes(spec, node, 2) <==> Labelled(spec, node)
    ensures Labelled(spec, node) && Passes(spec, node, 3) <==> HasCpu(spec, node)
    ensures HasCpu(spec, node) && Passes(spec, node, 4) <==> HasRoom(spec, node)
  {
  }

  lemma ClearsStep(spec: JobSpec, node: Node, k: nat)
    ensures Clears(spec, node, k) <==> Passes(spec, node, k) && (k > 0 ==> Clears(spec, node, k - 1))
  {
    hide Passes;
  }

  lemma {:induction false} ClearsIff(spec: JobSpec, node: Node, k: nat)
    requires k < STAGES && Applies(spec, k)
    requires forall i, k :: 0 <= i < k < |node.gpus| ==> node.gpus[i].uuid != node.gpus[k].uuid
    ensures Clears(spec, node, k) <==> Meets(spec, node, k)
  {
    forall m: nat ensures Clears(spec, node, m) <==> Passes(spec, node, m) && (m > 0 ==> Clears(spec, node, m - 1)) {
      ClearsStep(spec, node, m);
    }
    RoomSteps(spec, node);
    PackageIff(spec, node);
    if spec.resources.package != "" {
      PackageSteps(spec, node);
    }
    GPUSteps(spec, node);
    NoPackageSteps(spec, node);
    hide Passes, Clears, HasPackage, Labelled, HasCpu, HasRoom, Asked;
  }

  lemma NoPackageSteps(spec: JobSpec, node: Node)
    ensures spec.resources.gpuUUIDs == [] ==> Passes(spec, node, 8) && Passes(spec, node, 9)
  {
  }

  lemma SomeClearsIff(spec: JobSpec, nodes: seq<Node>, k: nat)
    requires DistinctGPUs(nodes) && k < STAGES && Applies(spec, k)
    ensures SomeClears(spec, nodes, k) <==> exists node :: node in nodes && Meets(spec, node, k)
  {
    hide Clears, Meets, Applies;
    forall node | node in nodes ensures Clears(spec, node, k) <==> Meets(spec, node, k) {
      ClearsIff(spec, node, k);
    }
  }

  lemma LacksIff(spec: JobSpec, nodes: seq<Node>, k: nat)
    requires DistinctGPUs(nodes) && k < STAGES
    ensures Lacks(spec, nodes, k) <==> Applies(spec, k) && !SomeClears(spec, nodes, k)
  {
    if Applies(spec, k) {
      SomeClearsIff(spec, nodes, k);
    }
    hide SomeClears, DistinctGPUs, Asked, Labelled, HasCpu, HasRoom, HasPackage, PinsPackages, NamesPackage, NamesGPUs, FreesGPUs,
         HasLargeGPU;
  }

  lemma ReasonIs(spec: JobSpec, nodes: seq<Node>, k: nat)
    requires DistinctGPUs(nodes) && IsBlocking(spec, nodes, k)
    ensures Code(spec, k) == Reason(spec, nodes)
  {
    forall i: nat | i < STAGES ensures Lacks(spec, nodes, i) <==> Applies(spec, i) && !SomeClears(spec, nodes, i) {
      LacksIff(spec, nodes, i);
    }
    hide SomeClears, DistinctGPUs, Lacks, Applies;
    forall i: nat | i < k ensures !Lacks(spec, nodes, i) {
    }
    assert Lacks(spec, nodes, k);
  }

  lemma NothingBlocks(spec: JobSpec, nodes: seq<Node>)
    requires DistinctGPUs(nodes) && forall k :: 0 <= k < STAGES && Applies(spec, k) ==> SomeClears(spec, nodes, k)
    ensures Reason(spec, nodes) == "RESOURCES_ALLOCATED"
  {
    forall i: nat | i < STAGES ensures !Lacks(spec, nodes, i) {
      LacksIff(spec, nodes, i);
    }
    hide SomeClears, DistinctGPUs, Lacks, Applies;
  }

  // ---------------------------------------------------------------- the program

  /** Either the best candidate, or the code of the first requested filter that no node clears
      (RESOURCES_ALLOCATED when every one of them is cleared by some node). */
  method SelectNode(spec: JobSpec, nodes: seq<Node>) returns (selected: Option<Candidate>, code: string)
    ensures selected == Select(spec, nodes)
    ensures DistinctGPUs(nodes) ==> (selected.Some? <==> exists node :: node in nodes && WillDo(spec, node))
    ensures DistinctGPUs(nodes) && selected.Some? ==>
              var w := selected.value;
              code == "" && w.node in nodes && WillDo(spec, w.node) && IsGiven(spec, w) && IsBest(spec, nodes, w)
    ensures selected.None? ==>
              || (exists k :: IsBlocking(spec, nodes, k) && code == Code(spec, k))
              || (code == "RESOURCES_ALLOCATED"
                  && forall k :: 0 <= k < STAGES && Applies(spec, k) ==> SomeClears(spec, nodes, k))
    ensures DistinctGPUs(nodes) && selected.None? ==> code == Reason(spec, nodes)
  {
    hide Candidates, SomeClears, DistinctGPUs, Reason, WillDo, IsGiven, IsBest, Code;
    if DistinctGPUs(nodes) {
      SelectsTheBest(spec, nodes);
    }
    var has, candidates := FilterNodes(spec, nodes);
    if candidates == [] {
      var k := 0;
      while k < STAGES
        invariant 0 <= k <= STAGES
        invariant forall i :: 0 <= i < k && Applies(spec, i) ==> has[i]
      {
        if Applies(spec, k) && !has[k] {
          assert IsBlocking(spec, nodes, k);
          if DistinctGPUs(nodes) {
            ReasonIs(spec, nodes, k);
          }
          return None, Code(spec, k);
        }
        k := k + 1;
      }
      if DistinctGPUs(nodes) {
        NothingBlocks(spec, nodes);
      }
      return None, "RESOURCES_ALLOCATED";
    }
    SortKeepsElements(candidates, RankedBefore);
    var ranked := Sort(candidates, RankedBefore);
    return Some(ranked[0]), "";
  }
}
