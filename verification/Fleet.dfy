/** Nodes, jobs and resource requests (internal/domain/types.go). */
module Fleet {
  import opened Domain

  datatype GPU = GPU(uuid: string, vram: int, busy: bool)

  datatype CPUPackage = CPUPackage(id: string, logicalCPUs: seq<int>, total: int, used: int)

  datatype NodeStatus = Online | Draining | Offline | Degraded

  datatype Node = Node(id: string, status: NodeStatus, labels: map<string, string>, capabilities: seq<string>,
                       cpuTotal: int, cpuAllocated: int, memoryTotal: int, memoryAllocated: int,
                       packages: seq<CPUPackage>, gpus: seq<GPU>)

  datatype Resources = Resources(cpu: int, package: string, memory: int, gpuCount: int, minVRAM: int, gpuUUIDs: seq<string>)

  datatype JobSpec = JobSpec(image: string, target: string, selector: map<string, string>, resources: Resources)

  datatype Job = Job(id: string, spec: JobSpec, status: JobStatus, observed: JobStatus,
                     node: Option<string>, attempt: Option<string>)

  ghost predicate DistinctIds(nodes: seq<Node>) {
    forall i, j :: 0 <= i < j < |nodes| ==> nodes[i].id != nodes[j].id
  }
}
