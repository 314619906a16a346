/** Status vocabularies and transition relations (internal/domain/types.go). */
module Domain {

  datatype Option<+T> = None | Some(value: T)

  datatype JobStatus =
    | Queued | Assigned | PullingImage | Starting | Running | Stopping
    | Cancelled | Succeeded | Failed | Lost | Deleting | Deleted

  datatype BuildStatus =
    | BuildCreated | BuildAnalyzing | BuildBuilding | BuildSucceeded | BuildFailed | BuildCancelled

  datatype BuildMode = Railpack | Dockerfile

  datatype AssignmentStatus =
    | AssignmentPending | AssignmentRunning | AssignmentSucceeded | AssignmentFailed | AssignmentCancelled

  predicate IsActive(s: JobStatus) {
    s.Assigned? || s.PullingImage? || s.Starting? || s.Running? || s.Stopping? || s.Lost?
  }

  predicate IsTerminal(s: JobStatus) {
    s.Succeeded? || s.Failed? || s.Cancelled?
  }

  function NextStatuses(from: JobStatus): set<JobStatus> {
    match from
    case Queued => {Assigned, Cancelled, Deleting}
    case Assigned => {PullingImage, Starting, Running, Stopping, Failed, Lost}
    case PullingImage => {Starting, Stopping, Failed, Lost}
    case Starting => {Running, Stopping, Failed, Lost}
    case Running => {Stopping, Succeeded, Failed, Lost}
    case Stopping => {Cancelled, Failed, Lost}
    case Lost => {Running, Stopping, Succeeded, Failed, Cancelled}
    case Cancelled => {Deleting}
    case Succeeded => {Deleting}
    case Failed => {Deleting}
    case Deleting => {Deleted}
    case Deleted => {}
  }

  predicate CanTransition(from: JobStatus, to: JobStatus) {
    from == to || to in NextStatuses(from)
  }

  function NextBuildStatuses(from: BuildStatus): set<BuildStatus> {
    match from
    case BuildCreated => {BuildAnalyzing, BuildBuilding, BuildFailed, BuildCancelled}
    case BuildAnalyzing => {BuildBuilding, BuildFailed, BuildCancelled}
    case BuildBuilding => {BuildSucceeded, BuildFailed, BuildCancelled}
    case _ => {}
  }

  predicate CanBuildTransition(from: BuildStatus, to: BuildStatus) {
    from == to || to in NextBuildStatuses(from)
  }

  predicate BuildTerminal(s: BuildStatus) {
    s.BuildSucceeded? || s.BuildFailed? || s.BuildCancelled?
  }
}
