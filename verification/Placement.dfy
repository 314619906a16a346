/** Choosing a node for a job (internal/scheduler/scheduler.go:84-255): a chain of filters, a
    greedy GPU pick, and a ranking by waste. */
module Placement {
  import opened Domain
  import opened Fleet
  import opened Sorting

  // ---------------------------------------------------------------- the filters

  const STAGES := 11

  predicate LabelsMatch(labels: map<string, string>, selector: map<string, string>) {
    forall key :: key in selector ==> (if key in labels then labels[key] else "") == selector[key]
  }

  function FindPackage(packages: seq<CPUPackage>, id: string): (r: Option<CPUPackage>)
    ensures r.Some? ==> r.value in packages && r.value.id == id
  {
    if packages == [] then None
    else if packages[0].id == id then Some(packages[0])
    else FindPackage(packages[1..], id)
  }

  /** The GPU a UUID-keyed table built from the list would hold. */
  function FindGPU(gpus: seq<GPU>, uuid: string): (r: Option<GPU>)
    ensures r.Some? ==> r.value in gpus && r.value.uuid == uuid
  {
    if gpus == [] then None
    else if gpus[|gpus| - 1].uuid == uuid then Some(gpus[|gpus| - 1])
    else FindGPU(gpus[..|gpus| - 1], uuid)
  }

  predicate GPULess(x: GPU, y: GPU) {
    x.vram < y.vram || (x.vram == y.vram && StringLess(x.uuid, y.uuid))
  }

  function Inventory(node: Node): seq<GPU> {
    Sort(node.gpus, GPULess)
  }

  /** Filter number `k` in the order in which the program applies them; a filter the job does
      not ask for passes. */
  predicate Passes(spec: JobSpec, node: Node, k: nat) {
    var r := spec.resources;
    match k
    case 0 => spec.target == "" || node.id == spec.target
    case 1 => node.status == Online
    case 2 => LabelsMatch(node.labels, spec.selector)
    case 3 => node.cpuTotal - node.cpuAllocated >= r.cpu
    case 4 => node.memoryTotal - node.memoryAllocated >= r.memory
    case 5 => r.package == "" || "cpu_package_affinity" in node.capabilities
    case 6 => r.package == "" || FindPackage(node.packages, r.package).Some?
    case 7 =>
      r.package == ""
      || (var p := FindPackage(node.packages, r.package); p.Some? && p.value.total - p.value.used >= r.cpu)
    case 8 => forall id :: id in r.gpuUUIDs ==> FindGPU(Inventory(node), id).Some?
    case 9 => forall id :: id in r.gpuUUIDs ==> var g := FindGPU(Inventory(node), id); g.Some? && !g.value.busy
    case 10 => r.gpuUUIDs != [] || r.gpuCount <= 0 || exists g :: g in node.gpus && g.vram >= r.minVRAM
    case _ => true
  }

  ghost predicate Clears(spec: JobSpec, node: Node, k: nat) {
    forall i :: 0 <= i <= k ==> Passes(spec, node, i)
  }

  predicate Applies(spec: JobSpec, k: nat) {
    match k
    case 0 => spec.target != ""
    case 5 => spec.resources.package != ""
    case 6 => spec.resources.package != ""
    case 7 => spec.resources.package != ""
    case 8 => spec.resources.gpuUUIDs != []
    case 9 => spec.resources.gpuUUIDs != []
    case 10 => spec.resources.gpuUUIDs == [] && spec.resources.gpuCount > 0
    case _ => k < STAGES
  }

  function Code(spec: JobSpec, k: nat): string {
    match k
    case 0 => "REQUESTED_NODE_NOT_FOUND"
    case 1 => if spec.target != "" then "REQUESTED_NODE_UNAVAILABLE" else "NO_ONLINE_NODE"
    case 2 => "NODE_SELECTOR_MISMATCH"
    case 3 => "INSUFFICIENT_CPU"
    case 4 => "INSUFFICIENT_MEMORY"
    case 5 => "CPU_AFFINITY_UNSUPPORTED"
    case 6 => "REQUESTED_CPU_PACKAGE_NOT_FOUND"
    case 7 => "INSUFFICIENT_CPU_PACKAGE"
    case 8 => "REQUESTED_GPU_NOT_FOUND"
    case 9 => "REQUESTED_GPU_ALLOCATED"
    case 10 => "NO_COMPATIBLE_GPU"
    case _ => "RESOURCES_ALLOCATED"
  }

  ghost predicate SomeClears(spec: JobSpec, nodes: seq<Node>, k: nat) {
    exists node :: node in nodes && Clears(spec, node, k)
  }

  /** The first filter, among those the job asks for, that no node clears. */
  ghost predicate IsBlocking(spec: JobSpec, nodes: seq<Node>, k: nat) {
    && k < STAGES && Applies(spec, k) && !SomeClears(spec, nodes, k)
    && forall i :: 0 <= i < k && Applies(spec, i) ==> SomeClears(spec, nodes, i)
  }

  // ---------------------------------------------------------------- candidates

  datatype Candidate = Candidate(node: Node, gpuUUIDs: seq<string>, vramWaste: int, ramWaste: int, cpuWaste: int,
                                 package: string, cpuSet: seq<int>)

  predicate EligibleGPU(g: GPU, minVRAM: int) {
    !g.busy && g.vram >= minVRAM
  }

  /** The greedy pick: the first `count` eligible GPUs of the list, and what they waste. */
  function Pick(gpus: seq<GPU>, minVRAM: int, count: int): (seq<string>, int) {
    if gpus == [] then ([], 0)
    else
      var before := Pick(gpus[..|gpus| - 1], minVRAM, count);
      var g := gpus[|gpus| - 1];
      if EligibleGPU(g, minVRAM) && |before.0| < count then (before.0 + [g.uuid], before.1 + (g.vram - minVRAM)) else before
  }

  function ChosenGPUs(spec: JobSpec, node: Node): (seq<string>, int) {
    var r := spec.resources;
    if r.gpuUUIDs != [] then (r.gpuUUIDs, 0) else Pick(Inventory(node), r.minVRAM, r.gpuCount)
  }

  ghost function CandidateOf(spec: JobSpec, node: Node): Option<Candidate> {
    var r := spec.resources;
    var chosen := ChosenGPUs(spec, node);
    if !Clears(spec, node, 9) || |chosen.0| != r.gpuCount then None
    else
      var package := FindPackage(node.packages, r.package);
      Some(Candidate(node, chosen.0, chosen.1,
                     node.memoryTotal - node.memoryAllocated - r.memory, node.cpuTotal - node.cpuAllocated - r.cpu,
                     r.package, if r.package != "" && package.Some? then package.value.logicalCPUs else []))
  }

  ghost function Candidates(spec: JobSpec, nodes: seq<Node>): seq<Candidate> {
    if nodes == [] then []
    else
      var before := Candidates(spec, nodes[..|nodes| - 1]);
      var c := CandidateOf(spec, nodes[|nodes| - 1]);
      if c.Some? then before + [c.value] else before
  }

  predicate RankedBefore(a: Candidate, b: Candidate) {
    if a.vramWaste != b.vramWaste then a.vramWaste < b.vramWaste
    else if a.ramWaste != b.ramWaste then a.ramWaste < b.ramWaste
    else if a.cpuWaste != b.cpuWaste then a.cpuWaste < b.cpuWaste
    else StringLess(a.node.id, b.node.id)
  }

  ghost function Select(spec: JobSpec, nodes: seq<Node>): Option<Candidate> {
    var candidates := Candidates(spec, nodes);
    if candidates == [] then None
    else
      SortKeepsElements(candidates, RankedBefore);
      Some(Sort(candidates, RankedBefore)[0])
  }

  // ---------------------------------------------------------------- orders

  lemma RankedBeforeIsOrder()
    ensures StrictOrder(RankedBefore)
    ensures forall a: Candidate, b: Candidate :: a.node.id != b.node.id ==> RankedBefore(a, b) || RankedBefore(b, a)
  {
    StringLessIsOrder();
    hide StringLess;
    forall x: Candidate ensures !RankedBefore(x, x) {
    }
    forall x: Candidate, y: Candidate, z: Candidate | RankedBefore(x, y) && RankedBefore(y, z) ensures RankedBefore(x, z) {
    }
    forall x: Candidate, y: Candidate, z: Candidate | RankedBefore(x, z) ensures RankedBefore(x, y) || RankedBefore(y, z) {
    }
  }

  lemma GPULessIsOrder()
    ensures StrictOrder(GPULess)
    ensures forall a: GPU, b: GPU :: a.uuid != b.uuid ==> GPULess(a, b) || GPULess(b, a)
  {
    StringLessIsOrder();
    hide StringLess;
  }

  // ---------------------------------------------------------------- the winner

  lemma {:induction false} CandidatesAre(spec: JobSpec, nodes: seq<Node>, c: Candidate)
    ensures c in Candidates(spec, nodes) <==> exists node: Node :: node in nodes && CandidateOf(spec, node) == Some(c)
    decreases |nodes|
  {
    hide CandidateOf;
    if nodes != [] {
      var init, last := nodes[..|nodes| - 1], nodes[|nodes| - 1];
      CandidatesAre(spec, init, c);
      assert forall node :: node in nodes <==> node in init || node == last;
    }
  }

  /** The ranking picks a candidate that no other one precedes. */
  lemma {:induction false} SelectIsLeast(spec: JobSpec, nodes: seq<Node>)
    ensures Select(spec, nodes).None? <==> Candidates(spec, nodes) == []
    ensures Select(spec, nodes).Some? ==>
              var w := Select(spec, nodes).value;
              && w in Candidates(spec, nodes)
              && forall c :: c in Candidates(spec, nodes) ==> !RankedBefore(c, w)
  {
    hide Candidates, RankedBefore, StringLess;
    var candidates := Candidates(spec, nodes);
    if candidates != [] {
      RankedBeforeIsOrder();
      SortSorts(candidates, RankedBefore);
      SortKeepsElements(candidates, RankedBefore);
      var ranked := Sort(candidates, RankedBefore);
      hide Sort;
      InMultiset(candidates, ranked[0]);
      InMultiset(ranked, ranked[0]);
      forall c | c in candidates ensures !RankedBefore(c, ranked[0]) {
        InMultiset(candidates, c);
        InMultiset(ranked, c);
        var i :| 0 <= i < |ranked| && ranked[i] == c;
        if i == 0 {
          assert StrictOrder(RankedBefore);
        }
      }
    }
  }

  /** A candidate is selected exactly when there is one, and it is the one with the least (VRAM,
      memory, CPU) waste, then node id. */
  lemma SelectIsBest(spec: JobSpec, nodes: seq<Node>)
    ensures Select(spec, nodes).Some? <==> exists node :: node in nodes && CandidateOf(spec, node).Some?
    ensures Select(spec, nodes).Some? ==>
              var w := Select(spec, nodes).value;
              && w.node in nodes && CandidateOf(spec, w.node) == Some(w)
              && forall node :: node in nodes && CandidateOf(spec, node).Some? && node.id != w.node.id
                                ==> RankedBefore(w, CandidateOf(spec, node).value)
  {
    SelectIsLeast(spec, nodes);
    RankedBeforeIsOrder();
    hide Select, RankedBefore, Clears, ChosenGPUs, StrictOrder;
    if Select(spec, nodes).Some? {
      var w := Select(spec, nodes).value;
      CandidatesAre(spec, nodes, w);
      forall node | node in nodes && CandidateOf(spec, node).Some? && node.id != w.node.id
        ensures RankedBefore(w, CandidateOf(spec, node).value)
      {
        CandidatesAre(spec, nodes, CandidateOf(spec, node).value);
      }
    } else {
      forall node | node in nodes ensures CandidateOf(spec, node).None? {
        if CandidateOf(spec, node).Some? {
          CandidatesAre(spec, nodes, CandidateOf(spec, node).value);
        }
      }
    }
  }

  /** The choice does not depend on the order in which the nodes are listed. */
  lemma SelectIgnoresOrder(spec: JobSpec, nodes: seq<Node>, nodes': seq<Node>)
    requires DistinctIds(nodes) && multiset(nodes) == multiset(nodes')
    ensures Select(spec, nodes) == Select(spec, nodes')
    ensures forall k :: IsBlocking(spec, nodes, k) <==> IsBlocking(spec, nodes', k)
  {
    SelectIsBest(spec, nodes);
    SelectIsBest(spec, nodes');
    RankedBeforeIsOrder();
    hide Select, CandidateOf, RankedBefore, Clears, Applies;
    forall node ensures node in nodes <==> node in nodes' {
      InMultiset(nodes, node);
      InMultiset(nodes', node);
    }
    if Select(spec, nodes).Some? {
      var w, w' := Select(spec, nodes).value, Select(spec, nodes').value;
      if w.node.id == w'.node.id {
        var i :| 0 <= i < |nodes| && nodes[i] == w.node;
        var j :| 0 <= j < |nodes| && nodes[j] == w'.node;
      }
    }
    forall k ensures SomeClears(spec, nodes, k) <==> SomeClears(spec, nodes', k) {
    }
  }

  /** What a winner guarantees about its node, as the snapshot sees it. */
  lemma SelectIsFeasible(spec: JobSpec, nodes: seq<Node>)
    requires Select(spec, nodes).Some?
    ensures var w := Select(spec, nodes).value;
            var r := spec.resources;
            && w.node in nodes && w.node.status == Online && (spec.target == "" || w.node.id == spec.target)
            && w.node.cpuAllocated + r.cpu <= w.node.cpuTotal
            && w.node.memoryAllocated + r.memory <= w.node.memoryTotal
            && w.package == r.package && |w.gpuUUIDs| == r.gpuCount
            && (r.package != "" ==> exists p :: p in w.node.packages && p.id == r.package && p.used + r.cpu <= p.total)
            && (forall id :: id in w.gpuUUIDs ==> exists g :: g in w.node.gpus && g.uuid == id && !g.busy)
  {
    SelectIsBest(spec, nodes);
    var w := Select(spec, nodes).value;
    var r := spec.resources;
    hide Select, RankedBefore, LabelsMatch, Inventory, Pick;
    assert forall i :: 0 <= i <= 9 ==> Passes(spec, w.node, i);
    assert Passes(spec, w.node, 0) && Passes(spec, w.node, 1) && Passes(spec, w.node, 3) && Passes(spec, w.node, 4);
    assert Passes(spec, w.node, 7) && Passes(spec, w.node, 9);
    forall id | id in w.gpuUUIDs ensures exists g :: g in w.node.gpus && g.uuid == id && !g.busy {
      if r.gpuUUIDs != [] {
        InventoryIsNode(w.node, FindGPU(Inventory(w.node), id).value);
      } else {
        PickIsFree(Inventory(w.node), r.minVRAM, r.gpuCount, id);
        var g :| g in Inventory(w.node) && g.uuid == id && EligibleGPU(g, r.minVRAM);
        InventoryIsNode(w.node, g);
      }
    }
  }

  lemma InventoryIsNode(node: Node, g: GPU)
    ensures g in Inventory(node) <==> g in node.gpus
  {
    SortKeepsElements(node.gpus, GPULess);
    InMultiset(node.gpus, g);
    InMultiset(Inventory(node), g);
  }

  lemma {:induction false} PickIsFree(gpus: seq<GPU>, minVRAM: int, count: int, id: string)
    requires id in Pick(gpus, minVRAM, count).0
    ensures exists g :: g in gpus && g.uuid == id && EligibleGPU(g, minVRAM)
    decreases |gpus|
  {
    var g := gpus[|gpus| - 1];
    if id in Pick(gpus[..|gpus| - 1], minVRAM, count).0 {
      PickIsFree(gpus[..|gpus| - 1], minVRAM, count, id);
      var h :| h in gpus[..|gpus| - 1] && h.uuid == id && EligibleGPU(h, minVRAM);
      assert h in gpus;
    } else {
      assert g in gpus;
    }
  }

  // ---------------------------------------------------------------- the greedy GPU pick is optimal

  function Eligible(gpus: seq<GPU>, minVRAM: int): seq<GPU> {
    if gpus == [] then []
    else
      var before := Eligible(gpus[..|gpus| - 1], minVRAM);
      if EligibleGPU(gpus[|gpus| - 1], minVRAM) then before + [gpus[|gpus| - 1]] else before
  }

  function Waste(gpus: seq<GPU>, minVRAM: int): int {
    if gpus == [] then 0 else Waste(gpus[..|gpus| - 1], minVRAM) + (gpus[|gpus| - 1].vram - minVRAM)
  }

  function UUIDs(gpus: seq<GPU>): seq<string> {
    seq(|gpus|, i requires 0 <= i < |gpus| => gpus[i].uuid)
  }

  function AtMost(n: nat, count: int): nat {
    if count <= 0 then 0 else if n < count then n else count
  }

  lemma {:induction false} PickIsPrefix(gpus: seq<GPU>, minVRAM: int, count: int)
    ensures var e := Eligible(gpus, minVRAM);
            Pick(gpus, minVRAM, count) == (UUIDs(e[..AtMost(|e|, count)]), Waste(e[..AtMost(|e|, count)], minVRAM))
    decreases |gpus|
  {
    var e := Eligible(gpus, minVRAM);
    if gpus == [] {
      assert e[..0] == [];
    } else {
      var init, g := gpus[..|gpus| - 1], gpus[|gpus| - 1];
      PickIsPrefix(init, minVRAM, count);
      var e0 := Eligible(init, minVRAM);
      var m := AtMost(|e0|, count);
      assert e0[..|e0|] == e0;
      if EligibleGPU(g, minVRAM) {
        assert e == e0 + [g];
        if m < count {
          assert m == |e0| && AtMost(|e|, count) == |e|;
          assert e[..|e|] == e && e[..|e| - 1] == e0;
          assert UUIDs(e) == UUIDs(e0) + [g.uuid];
          assert Waste(e, minVRAM) == Waste(e0, minVRAM) + (g.vram - minVRAM);
        } else {
          assert AtMost(|e|, count) == m;
          assert e[..m] == e0[..m];
        }
      } else {
        assert e == e0;
      }
    }
  }

  lemma {:induction false} EligibleElements(gpus: seq<GPU>, minVRAM: int, g: GPU)
    ensures multiset(Eligible(gpus, minVRAM))[g] == if EligibleGPU(g, minVRAM) then multiset(gpus)[g] else 0
    decreases |gpus|
  {
    if gpus != [] {
      var init, last := gpus[..|gpus| - 1], gpus[|gpus| - 1];
      EligibleElements(init, minVRAM, g);
      assert gpus == init + [last];
    }
  }

  ghost predicate AscendingVRAM(gpus: seq<GPU>) {
    forall i, j :: 0 <= i < j < |gpus| ==> gpus[i].vram <= gpus[j].vram
  }

  lemma {:induction false} EligibleAscends(gpus: seq<GPU>, minVRAM: int)
    requires AscendingVRAM(gpus)
    ensures AscendingVRAM(Eligible(gpus, minVRAM))
    ensures forall g :: g in Eligible(gpus, minVRAM) ==> g in gpus
    decreases |gpus|
  {
    if gpus != [] {
      var init := gpus[..|gpus| - 1];
      EligibleAscends(init, minVRAM);
      var e0 := Eligible(init, minVRAM);
      forall i | 0 <= i < |e0| ensures e0[i].vram <= gpus[|gpus| - 1].vram {
        assert e0[i] in init;
      }
      forall g | g in Eligible(gpus, minVRAM) ensures g in gpus {
        if g != gpus[|gpus| - 1] {
          assert g in init;
        }
      }
    }
  }

  lemma {:induction false} WasteAppend(a: seq<GPU>, g: GPU, minVRAM: int)
    ensures Waste(a + [g], minVRAM) == Waste(a, minVRAM) + (g.vram - minVRAM)
  {
  }

  lemma {:induction false} WasteWithout(a: seq<GPU>, g: GPU, b: seq<GPU>, minVRAM: int)
    ensures Waste(a + [g] + b, minVRAM) == Waste(a + b, minVRAM) + (g.vram - minVRAM)
    decreases |b|
  {
    if b == [] {
      assert a + [g] + b == a + [g] && a + b == a;
      WasteAppend(a, g, minVRAM);
    } else {
      var init, last := b[..|b| - 1], b[|b| - 1];
      WasteWithout(a, g, init, minVRAM);
      assert a + [g] + b == (a + [g] + init) + [last] && a + b == (a + init) + [last];
      WasteAppend(a + [g] + init, last, minVRAM);
      WasteAppend(a + init, last, minVRAM);
    }
  }

  /** Exchange argument: the first k of an ascending list waste no more than any k of it. */
  lemma {:induction false} FirstWasteLeast(e: seq<GPU>, alt: seq<GPU>, minVRAM: int)
    requires AscendingVRAM(e) && multiset(alt) <= multiset(e)
    ensures |alt| <= |e|
    ensures Waste(e[..|alt|], minVRAM) <= Waste(alt, minVRAM)
    decreases |e|
  {
    if e == [] {
      NothingTaken(alt);
    } else {
      var init, last := e[..|e| - 1], e[|e| - 1];
      assert e == init + [last];
      assert multiset(e) == multiset(init) + multiset{last};
      hide Waste;
      if last in alt {
        var rest := TakeOut(alt, last, minVRAM);
        CancelOne(multiset(rest), multiset(init), last);
        FirstWasteLeast(init, rest, minVRAM);
        OneMore(e, rest, minVRAM);
      } else {
        NotTheLast(multiset(alt), multiset(init), last);
        FirstWasteLeast(init, alt, minVRAM);
        assert e[..|alt|] == init[..|alt|];
      }
    }
  }

  lemma NothingTaken(alt: seq<GPU>)
    requires multiset(alt) <= multiset{}
    ensures alt == []
  {
    assert multiset(alt) == multiset{} == multiset([]);
    SameSize(alt, []);
  }

  lemma TakeOut(alt: seq<GPU>, x: GPU, minVRAM: int) returns (rest: seq<GPU>)
    requires x in alt
    ensures |rest| == |alt| - 1 && multiset(alt) == multiset(rest) + multiset{x}
    ensures Waste(alt, minVRAM) == Waste(rest, minVRAM) + (x.vram - minVRAM)
  {
    var i :| 0 <= i < |alt| && alt[i] == x;
    rest := alt[..i] + alt[i + 1..];
    assert alt == alt[..i] + [x] + alt[i + 1..];
    WasteWithout(alt[..i], x, alt[i + 1..], minVRAM);
  }

  lemma {:induction false} OneMore(e: seq<GPU>, rest: seq<GPU>, minVRAM: int)
    requires e != [] && AscendingVRAM(e) && |rest| < |e|
    requires Waste(e[..|e| - 1][..|rest|], minVRAM) <= Waste(rest, minVRAM)
    ensures Waste(e[..|rest| + 1], minVRAM) <= Waste(rest, minVRAM) + (e[|e| - 1].vram - minVRAM)
  {
    hide Waste;
    var k := |rest|;
    assert e[..k + 1] == e[..|e| - 1][..k] + [e[k]];
    WasteAppend(e[..|e| - 1][..k], e[k], minVRAM);
  }

  lemma CancelOne(a: multiset<GPU>, b: multiset<GPU>, x: GPU)
    requires a + multiset{x} <= b + multiset{x}
    ensures a <= b
  {
    forall y ensures a[y] <= b[y] {
      assert (a + multiset{x})[y] <= (b + multiset{x})[y];
    }
  }

  lemma NotTheLast(a: multiset<GPU>, b: multiset<GPU>, x: GPU)
    requires a <= b + multiset{x} && x !in a
    ensures a <= b
  {
  }

  lemma InventoryAscends(node: Node)
    ensures AscendingVRAM(Inventory(node))
  {
    GPULessIsOrder();
    SortSorts(node.gpus, GPULess);
    var s := Inventory(node);
    forall i, j | 0 <= i < j < |s| ensures s[i].vram <= s[j].vram {
      assert !GPULess(s[j], s[i]);
    }
  }

  /** No other choice of that many free GPUs of the node with enough memory wastes less. */
  lemma {:induction false} GreedyPickIsOptimal(spec: JobSpec, node: Node, alt: seq<GPU>)
    requires spec.resources.gpuUUIDs == [] && CandidateOf(spec, node).Some?
    requires |alt| == spec.resources.gpuCount && multiset(alt) <= multiset(node.gpus)
    requires forall g :: g in alt ==> !g.busy && g.vram >= spec.resources.minVRAM
    ensures CandidateOf(spec, node).value.vramWaste <= Waste(alt, spec.resources.minVRAM)
  {
    var m, count := spec.resources.minVRAM, spec.resources.gpuCount;
    hide Clears, Sort;
    var s := Inventory(node);
    var e := Eligible(s, m);
    SortKeepsElements(node.gpus, GPULess);
    InventoryAscends(node);
    EligibleAscends(s, m);
    forall g ensures multiset(alt)[g] <= multiset(e)[g] {
      EligibleElements(s, m, g);
      if multiset(alt)[g] > 0 {
        InMultiset(alt, g);
      }
    }
    FirstWasteLeast(e, alt, m);
    PickIsPrefix(s, m, count);
  }

  /** The GPUs asked for can be had: as many as are named, or some choice of that many free GPUs
      of the node with enough memory. */
  ghost predicate GPUsAvailable(spec: JobSpec, node: Node) {
    var r := spec.resources;
    if r.gpuUUIDs != [] then |r.gpuUUIDs| == r.gpuCount
    else
      exists alt: seq<GPU> ::
        |alt| == r.gpuCount && multiset(alt) <= multiset(node.gpus) && forall g :: g in alt ==> EligibleGPU(g, r.minVRAM)
  }

  /** The node passes the filters up to the requested GPUs being there and free, and has the
      GPUs asked for. */
  ghost predicate Feasible(spec: JobSpec, node: Node) {
    Clears(spec, node, 9) && GPUsAvailable(spec, node)
  }

  lemma EligibleIn(node: Node, alt: seq<GPU>, minVRAM: int)
    ensures (multiset(alt) <= multiset(node.gpus) && forall g :: g in alt ==> EligibleGPU(g, minVRAM))
            <==> multiset(alt) <= multiset(Eligible(Inventory(node), minVRAM))
  {
    var s := Inventory(node);
    var e := Eligible(s, minVRAM);
    SortKeepsElements(node.gpus, GPULess);
    hide Sort, Eligible, EligibleGPU;
    forall g ensures multiset(e)[g] == if EligibleGPU(g, minVRAM) then multiset(node.gpus)[g] else 0 {
      EligibleElements(s, minVRAM, g);
    }
    forall g ensures g in alt <==> multiset(alt)[g] > 0 {
      InMultiset(alt, g);
    }
  }

  lemma PrefixWithin(e: seq<GPU>, n: nat)
    requires n <= |e|
    ensures multiset(e[..n]) <= multiset(e)
  {
    assert e == e[..n] + e[n..];
  }

  /** The filter loop makes a candidate of exactly the feasible nodes. */
  lemma CandidateIffFeasible(spec: JobSpec, node: Node)
    ensures CandidateOf(spec, node).Some? <==> Feasible(spec, node)
  {
    var r := spec.resources;
    if r.gpuUUIDs == [] {
      hide Clears, Sort;
      var e := Eligible(Inventory(node), r.minVRAM);
      PickIsPrefix(Inventory(node), r.minVRAM, r.gpuCount);
      if 0 <= r.gpuCount <= |e| {
        PrefixWithin(e, r.gpuCount);
        EligibleIn(node, e[..r.gpuCount], r.minVRAM);
        assert |e[..r.gpuCount]| == r.gpuCount;
      } else {
        forall alt: seq<GPU> | multiset(alt) <= multiset(node.gpus) && forall g :: g in alt ==> EligibleGPU(g, r.minVRAM)
          ensures |alt| != r.gpuCount
        {
          EligibleIn(node, alt, r.minVRAM);
          InventoryAscends(node);
          EligibleAscends(Inventory(node), r.minVRAM);
          FirstWasteLeast(e, alt, r.minVRAM);
        }
      }
    }
  }

  /** A node is selected exactly when some node is feasible, and it is the feasible node with
      the least (VRAM, memory, CPU) waste, then id. */
  lemma SelectIsComplete(spec: JobSpec, nodes: seq<Node>)
    ensures Select(spec, nodes).Some? <==> exists node :: node in nodes && Feasible(spec, node)
    ensures Select(spec, nodes).Some? ==>
              var w := Select(spec, nodes).value;
              && w.node in nodes && Feasible(spec, w.node) && CandidateOf(spec, w.node) == Some(w)
              && forall node :: node in nodes && Feasible(spec, node) && node.id != w.node.id
                                ==> CandidateOf(spec, node).Some? && RankedBefore(w, CandidateOf(spec, node).value)
  {
    SelectIsBest(spec, nodes);
    forall node ensures CandidateOf(spec, node).Some? <==> Feasible(spec, node) {
      CandidateIffFeasible(spec, node);
    }
    hide Select, Feasible, CandidateOf, RankedBefore;
  }

  /** The pick does not depend on the order in which the node reports its GPUs. */
  lemma PickIgnoresInventoryOrder(node: Node, node': Node)
    requires multiset(node.gpus) == multiset(node'.gpus)
    requires forall g, h :: g in node.gpus && h in node.gpus && g != h ==> g.uuid != h.uuid
    ensures Inventory(node) == Inventory(node')
  {
    GPULessIsOrder();
    SortSorts(node.gpus, GPULess);
    SortSorts(node'.gpus, GPULess);
    SortKeepsElements(node.gpus, GPULess);
    SortKeepsElements(node'.gpus, GPULess);
    var a, b := Inventory(node), Inventory(node');
    hide Sort, GPULess;
    forall x, y | x in a && y in a && x != y ensures GPULess(x, y) || GPULess(y, x) {
      InventoryIsNode(node, x);
      InventoryIsNode(node, y);
    }
    SortedIsUnique(a, b, GPULess);
  }

  // ---------------------------------------------------------------- the program

  method MatchLabels(labels: map<string, string>, selector: map<string, string>) returns (ok: bool)
    ensures ok == LabelsMatch(labels, selector)
  {
    var keys := selector.Keys;
    while keys != {}
      invariant keys <= selector.Keys
      invariant forall key :: key in selector && key !in keys ==>
                  (if key in labels then labels[key] else "") == selector[key]
      decreases keys
    {
      var key :| key in keys;
      keys := keys - {key};
      if (if key in labels then labels[key] else "") != selector[key] {
        return false;
      }
    }
    return true;
  }

  method SearchPackage(packages: seq<CPUPackage>, id: string) returns (selected: Option<CPUPackage>)
    ensures selected == FindPackage(packages, id)
  {
    var index := 0;
    while index < |packages|
      invariant 0 <= index <= |packages|
      invariant FindPackage(packages, id) == FindPackage(packages[index..], id)
    {
      if packages[index].id == id {
        return Some(packages[index]);
      }
      assert packages[index..][1..] == packages[index + 1..];
      index := index + 1;
    }
    return None;
  }

  /** The UUID-keyed table of GPUs. */
  method IndexGPUs(gpus: seq<GPU>) returns (byId: map<string, GPU>)
    ensures forall id :: FindGPU(gpus, id) == if id in byId then Some(byId[id]) else None
  {
    byId := map[];
    for i := 0 to |gpus|
      invariant forall id :: FindGPU(gpus[..i], id) == if id in byId then Some(byId[id]) else None
    {
      assert gpus[..i + 1][..i] == gpus[..i];
      byId := byId[gpus[i].uuid := gpus[i]];
    }
    assert gpus[..|gpus|] == gpus;
  }

  /** The explicitly requested GPUs: are they all there, and all free? */
  method RequestedGPUs(gpus: seq<GPU>, wanted: seq<string>) returns (allExist: bool, allFree: bool, chosen: seq<string>)
    ensures allExist == forall id :: id in wanted ==> FindGPU(gpus, id).Some?
    ensures allExist ==> chosen == wanted
    ensures allExist ==> allFree == forall id :: id in wanted ==> !FindGPU(gpus, id).value.busy
  {
    var byId := IndexGPUs(gpus);
    hide FindGPU;
    allExist, allFree, chosen := true, true, [];
    for i := 0 to |wanted|
      invariant allExist && chosen == wanted[..i]
      invariant forall k :: 0 <= k < i ==> FindGPU(gpus, wanted[k]).Some?
      invariant allFree == forall k :: 0 <= k < i ==> !FindGPU(gpus, wanted[k]).value.busy
    {
      var id := wanted[i];
      if id !in byId {
        assert id in wanted && FindGPU(gpus, id).None?;
        return false, allFree, chosen;
      }
      if byId[id].busy {
        allFree := false;
      }
      chosen := chosen + [id];
    }
    assert wanted[..|wanted|] == wanted;
  }

  method GreedyGPUs(gpus: seq<GPU>, minVRAM: int, count: int) returns (hasModel: bool, chosen: seq<string>, waste: int)
    ensures hasModel == exists g :: g in gpus && g.vram >= minVRAM
    ensures (chosen, waste) == Pick(gpus, minVRAM, count)
  {
    hasModel, chosen, waste := false, [], 0;
    for i := 0 to |gpus|
      invariant hasModel == exists k :: 0 <= k < i && gpus[k].vram >= minVRAM
      invariant (chosen, waste) == Pick(gpus[..i], minVRAM, count)
    {
      assert gpus[..i + 1][..i] == gpus[..i];
      var g := gpus[i];
      if g.vram >= minVRAM {
        hasModel := true;
      }
      if !g.busy && g.vram >= minVRAM && |chosen| < count {
        chosen := chosen + [g.uuid];
        waste := waste + (g.vram - minVRAM);
      }
    }
    assert gpus[..|gpus|] == gpus;
  }

  /** One turn of the filter loop: how many of the filters the node clears, and the candidate
      it makes if it clears them all and the GPU count fits. */
  method Evaluate(spec: JobSpec, node: Node) returns (cleared: nat, candidate: Option<Candidate>)
    ensures cleared <= STAGES
    ensures forall k :: 0 <= k < STAGES ==> (k < cleared <==> Clears(spec, node, k))
    ensures candidate == CandidateOf(spec, node)
  {
    hide LabelsMatch, Inventory, FindPackage, FindGPU, Pick, Sort;
    var r := spec.resources;
    candidate := None;
    if spec.target != "" && node.id != spec.target {
      assert !Passes(spec, node, 0);
      return 0, None;
    }
    if node.status != Online {
      assert !Passes(spec, node, 1);
      return 1, None;
    }
    var labels := MatchLabels(node.labels, spec.selector);
    if !labels {
      assert !Passes(spec, node, 2);
      return 2, None;
    }
    var cpuFree := node.cpuTotal - node.cpuAllocated;
    if cpuFree < r.cpu {
      assert !Passes(spec, node, 3);
      return 3, None;
    }
    var memoryFree := node.memoryTotal - node.memoryAllocated;
    if memoryFree < r.memory {
      assert !Passes(spec, node, 4);
      return 4, None;
    }
    var cpuSet: seq<int> := [];
    if r.package != "" {
      if "cpu_package_affinity" !in node.capabilities {
        assert !Passes(spec, node, 5);
        return 5, None;
      }
      var selected := SearchPackage(node.packages, r.package);
      if selected.None? {
        assert !Passes(spec, node, 6);
        return 6, None;
      }
      if selected.value.total - selected.value.used < r.cpu {
        assert !Passes(spec, node, 7);
        return 7, None;
      }
      cpuSet := selected.value.logicalCPUs;
    }
    assert Clears(spec, node, 7);
    cleared, candidate := EvaluateGPUs(spec, node, cpuSet);
  }

  method EvaluateGPUs(spec: JobSpec, node: Node, cpuSet: seq<int>) returns (cleared: nat, candidate: Option<Candidate>)
    requires Clears(spec, node, 7)
    requires var r := spec.resources;
             cpuSet == if r.package != "" && FindPackage(node.packages, r.package).Some?
                       then FindPackage(node.packages, r.package).value.logicalCPUs else []
    ensures cleared <= STAGES
    ensures forall k :: 0 <= k < STAGES ==> (k < cleared <==> Clears(spec, node, k))
    ensures candidate == CandidateOf(spec, node)
  {
    hide LabelsMatch, FindPackage, FindGPU, Pick, Sort;
    var r := spec.resources;
    var gpus := Sort(node.gpus, GPULess);
    var chosen: seq<string>, vramWaste := [], 0;
    cleared := STAGES;
    if r.gpuUUIDs != [] {
      var allExist, allFree;
      allExist, allFree, chosen := RequestedGPUs(gpus, r.gpuUUIDs);
      if !allExist {
        assert !Passes(spec, node, 8);
        return 8, None;
      }
      if !allFree {
        assert Passes(spec, node, 8) && !Passes(spec, node, 9);
        return 9, None;
      }
      assert Passes(spec, node, 8) && Passes(spec, node, 9) && Passes(spec, node, 10);
    } else {
      assert Passes(spec, node, 8) && Passes(spec, node, 9);
      var hasModel;
      hasModel, chosen, vramWaste := GreedyGPUs(gpus, r.minVRAM, r.gpuCount);
      assert hasModel == exists g :: g in node.gpus && g.vram >= r.minVRAM by {
        forall g ensures g in gpus <==> g in node.gpus {
          InventoryIsNode(node, g);
        }
      }
      if !hasModel && r.gpuCount > 0 {
        cleared := 10;
        assert !Passes(spec, node, 10);
      }
    }
    if |chosen| != r.gpuCount {
      return cleared, None;
    }
    candidate := Some(Candidate(node, chosen, vramWaste, node.memoryTotal - node.memoryAllocated - r.memory,
                                node.cpuTotal - node.cpuAllocated - r.cpu, r.package, cpuSet));
  }

  lemma SomeClearsOneMore(spec: JobSpec, nodes: seq<Node>, node: Node, k: nat)
    ensures SomeClears(spec, nodes + [node], k) <==> SomeClears(spec, nodes, k) || Clears(spec, node, k)
  {
  }

  /** The filter loop over all nodes: which filters some node cleared, and the candidates. */
  method FilterNodes(spec: JobSpec, nodes: seq<Node>) returns (has: seq<bool>, candidates: seq<Candidate>)
    ensures |has| == STAGES
    ensures forall k :: 0 <= k < STAGES ==> has[k] == SomeClears(spec, nodes, k)
    ensures candidates == Candidates(spec, nodes)
  {
    hide Clears, CandidateOf;
    has := seq(STAGES, _ => false);
    candidates := [];
    for i := 0 to |nodes|
      invariant |has| == STAGES
      invariant forall k :: 0 <= k < STAGES ==> has[k] == SomeClears(spec, nodes[..i], k)
      invariant candidates == Candidates(spec, nodes[..i])
    {
      assert nodes[..i + 1] == nodes[..i] + [nodes[i]];
      assert nodes[..i + 1][..i] == nodes[..i];
      var cleared, candidate := Evaluate(spec, nodes[i]);
      has := seq(STAGES, k requires 0 <= k < |has| => has[k] || k < cleared);
      if candidate.Some? {
        candidates := candidates + [candidate.value];
      }
      forall k | 0 <= k < STAGES ensures has[k] == SomeClears(spec, nodes[..i + 1], k) {
        SomeClearsOneMore(spec, nodes[..i], nodes[i], k);
      }
    }
    assert nodes[..|nodes|] == nodes;
  }
}
