/** Source builds: leased assignments, managed artifacts and the jobs that pin them
    (internal/store/build_assignments.go, managed_artifacts.go, builds.go).

    The database is a value, each store method one transaction on it.  A transaction that
    fails leaves the database as it was. */
module Builds {
  import opened Domain
  import opened ManagedReference
  import opened Text

  datatype Build = Build(owner: string, mode: BuildMode, status: BuildStatus, digest: string, failureReason: string)

  datatype Assignment = Assignment(buildId: string, status: AssignmentStatus, cancelRequested: bool,
                                   builder: Option<string>, lease: Option<int>, createdAt: int)

  datatype Artifact = Artifact(owner: string, digest: string, sha256: string, size: int, runtimeImage: string,
                               lastReferenced: int)

  datatype Job = Job(owner: string, image: string, status: JobStatus)

  datatype Db = Db(builds: map<string, Build>, events: map<string, seq<BuildStatus>>, plans: set<string>,
                   assignments: map<string, Assignment>, artifacts: map<string, Artifact>, jobs: map<string, Job>)

  datatype Outcome = Done | NotFound | Conflict | Rejected

  const EMPTY := Db(map[], map[], {}, map[], map[], map[])

  // ---------------------------------------------------------------- small vocabulary

  function RuntimeImage(buildId: string): string {
    "jobdock.local/managed/" + buildId + ":artifact"
  }

  predicate ValidArtifact(buildId: string, a: Artifact) {
    && !Blank(buildId) && !Blank(a.owner)
    && ValidDigest(a.digest) && ValidSHA256(a.sha256)
    && a.size > 0 && a.runtimeImage == RuntimeImage(buildId)
  }

  /** The part of build validation that depends on the status. */
  predicate ValidStatusFields(status: BuildStatus, digest: string, failureReason: string) {
    && (status == BuildSucceeded ==> ValidDigest(digest))
    && (status != BuildSucceeded ==> digest == "")
    && (status == BuildFailed ==> !Blank(failureReason))
  }

  predicate Open(s: AssignmentStatus) {
    s == AssignmentPending || s == AssignmentRunning
  }

  function OutcomeStatus(s: AssignmentStatus): BuildStatus
    requires !Open(s)
  {
    match s
    case AssignmentSucceeded => BuildSucceeded
    case AssignmentFailed => BuildFailed
    case AssignmentCancelled => BuildCancelled
  }

  /** Writes a build's new status and appends it to the build's event log. */
  function WithStatus(db: Db, b: string, status: BuildStatus, digest: string, failureReason: string): Db
    requires b in db.builds
  {
    var log := if b in db.events then db.events[b] else [];
    db.(builds := db.builds[b := db.builds[b].(status := status, digest := digest, failureReason := failureReason)],
        events := db.events[b := log + [status]])
  }

  ghost predicate HasAssignment(db: Db, b: string) {
    exists a :: a in db.assignments && db.assignments[a].buildId == b
  }

  /** Some non-deleted job runs exactly this image. */
  ghost predicate Referenced(db: Db, image: string) {
    exists j :: j in db.jobs && db.jobs[j].status != Deleted && db.jobs[j].image == image
  }

  // ---------------------------------------------------------------- transactions

  function CreateBuild(db: Db, b: string, owner: string, mode: BuildMode): (Db, Outcome) {
    if b in db.builds then (db, Conflict)
    else (db.(builds := db.builds[b := Build(owner, mode, BuildCreated, "", "")], events := db.events[b := [BuildCreated]]), Done)
  }

  function SaveBuildPlan(db: Db, b: string): (Db, Outcome) {
    if b !in db.builds then (db, NotFound)
    else if db.builds[b].status != BuildAnalyzing || b in db.plans then (db, Conflict)
    else (db.(plans := db.plans + {b}), Done)
  }

  ghost function QueueBuild(db: Db, b: string, a: string, now: int): (Db, Outcome) {
    if b !in db.builds then (db, NotFound)
    else if HasAssignment(db, b) then (db, Done)
    else
      var build := db.builds[b];
      if build.mode == Railpack && build.status != BuildAnalyzing then (db, Conflict)
      else if build.mode == Railpack && b !in db.plans then (db, NotFound)
      else if build.mode == Dockerfile && build.status != BuildCreated then (db, Conflict)
      else if Blank(a) || Blank(b) then (db, Rejected)
      else if a in db.assignments then (db, Conflict)
      else
        (WithStatus(db, b, BuildBuilding, build.digest, "")
         .(assignments := db.assignments[a := Assignment(b, AssignmentPending, false, None, None, now)]), Done)
  }

  predicate Claimable(x: Assignment, builder: string, now: int) {
    && !x.cancelRequested
    && (x.status == AssignmentPending
        || (x.status == AssignmentRunning
            && (x.builder == Some(builder) || (x.lease.Some? && x.lease.value < now))))
  }

  /** The claim order: the builder's own assignments first, then the oldest. */
  predicate ClaimedBefore(x: Assignment, y: Assignment, builder: string) {
    var ownX, ownY := x.builder == Some(builder), y.builder == Some(builder);
    if ownX != ownY then ownX else x.createdAt <= y.createdAt
  }

  ghost predicate IsNext(db: Db, a: string, builder: string, now: int) {
    && a in db.assignments && Claimable(db.assignments[a], builder, now)
    && forall c :: c in db.assignments && Claimable(db.assignments[c], builder, now)
                   ==> ClaimedBefore(db.assignments[a], db.assignments[c], builder)
  }

  /** Hands assignment `a`, one the query may select, to `builder`. */
  function Claim(db: Db, a: string, builder: string, now: int, lease: nat): (Db, Outcome)
    requires a in db.assignments
  {
    var x := db.assignments[a];
    if x.buildId !in db.builds then (db, NotFound)
    else if db.builds[x.buildId].mode == Railpack && x.buildId !in db.plans then (db, NotFound)
    else
      (db.(assignments := db.assignments[a := x.(status := AssignmentRunning, builder := Some(builder), lease := Some(now + lease))]),
       Done)
  }

  function Renew(db: Db, a: string, builder: string, now: int, lease: nat): (Db, Outcome) {
    if a in db.assignments && db.assignments[a].builder == Some(builder) && db.assignments[a].status == AssignmentRunning
    then (db.(assignments := db.assignments[a := db.assignments[a].(lease := Some(now + lease))]), Done)
    else (db, Conflict)
  }

  function CancelRow(x: Assignment): Assignment {
    x.(cancelRequested := true, status := if x.status == AssignmentPending then AssignmentCancelled else x.status)
  }

  predicate CancelTarget(x: Assignment, b: string) {
    x.buildId == b && Open(x.status)
  }

  ghost function RequestCancellation(db: Db, b: string): (Db, Outcome) {
    if b !in db.builds then (db, NotFound)
    else if db.builds[b].status == BuildCancelled then (db, Done)
    else if db.builds[b].status != BuildBuilding then (db, Conflict)
    else if !exists a :: a in db.assignments && CancelTarget(db.assignments[a], b) then (db, Conflict)
    else
      (WithStatus(db, b, BuildCancelled, db.builds[b].digest, "")
       .(assignments := map a | a in db.assignments ::
           if CancelTarget(db.assignments[a], b) then CancelRow(db.assignments[a]) else db.assignments[a]), Done)
  }

  /** The builder column as the program reads it: NULL is the empty string. */
  function Holder(x: Assignment): string {
    if x.builder.Some? then x.builder.value else ""
  }

  function Complete(db: Db, a: string, builder: string, requested: AssignmentStatus, digest: string, message: string): (Db, Outcome) {
    if Open(requested) then (db, Rejected)
    else if a !in db.assignments then (db, NotFound)
    else
      var x := db.assignments[a];
      if Holder(x) != builder then (db, Conflict)
      else if x.status != AssignmentRunning && x.status != requested then (db, Conflict)
      else if x.buildId !in db.builds then (db, NotFound)
      else
        var build := db.builds[x.buildId];
        var stopped := x.cancelRequested || build.status == BuildCancelled;
        var status := if stopped then AssignmentCancelled else requested;
        var reason := if stopped then "Build cancelled" else message;
        if status == AssignmentSucceeded
           && (x.buildId !in db.artifacts || db.artifacts[x.buildId].digest != digest) then (db, Conflict)
        else
          var closed := db.assignments[a := x.(status := status, lease := None)];
          if build.status != BuildBuilding then (db.(assignments := closed), Done)
          else
            var buildStatus := OutcomeStatus(status);
            var buildDigest := if status == AssignmentSucceeded then digest else "";
            var failure := if status == AssignmentFailed then reason else "";
            if !ValidStatusFields(buildStatus, buildDigest, failure) then (db, Rejected)
            else (WithStatus(db, x.buildId, buildStatus, buildDigest, failure).(assignments := closed), Done)
  }

  function UpdateStatus(db: Db, b: string, status: BuildStatus, digest: string, message: string): (Db, Outcome) {
    if b !in db.builds then (db, NotFound)
    else if db.builds[b].status == status then (db, Done)
    else if !CanBuildTransition(db.builds[b].status, status) then (db, Conflict)
    else
      var failure := if status == BuildFailed then message else "";
      if !ValidStatusFields(status, digest, failure) then (db, Rejected)
      else (WithStatus(db, b, status, digest, failure), Done)
  }

  function SaveArtifact(db: Db, b: string, artifact: Artifact): (Db, Outcome) {
    if !ValidArtifact(b, artifact) then (db, Rejected)
    else if b !in db.builds then (db, NotFound)
    else if db.builds[b].owner != artifact.owner || db.builds[b].status != BuildBuilding then (db, Conflict)
    else if b !in db.artifacts then (db.(artifacts := db.artifacts[b := artifact]), Done)
    else
      var stored := db.artifacts[b];
      if stored.digest == artifact.digest && stored.sha256 == artifact.sha256 && stored.size == artifact.size
         && stored.runtimeImage == artifact.runtimeImage
      then (db.(artifacts := db.artifacts[b := stored.(lastReferenced := artifact.lastReferenced)]), Done)
      else (db, Conflict)
  }

  function Touch(db: Db, b: string, now: int): Db {
    if b in db.artifacts then db.(artifacts := db.artifacts[b := db.artifacts[b].(lastReferenced := now)]) else db
  }

  function CreateJobWithArtifact(db: Db, j: string, owner: string, image: string, b: string, digest: string, now: int): (Db, Outcome) {
    if b !in db.artifacts || db.artifacts[b].owner != owner || db.artifacts[b].digest != digest
       || b !in db.builds || db.builds[b].status != BuildSucceeded then (db, NotFound)
    else if j in db.jobs then (db, Conflict)
    else (Touch(db.(jobs := db.jobs[j := Job(owner, image, Queued)]), b, now), Done)
  }

  /** Job submission: the image reference decides between a managed and a plain job. */
  function SubmitJob(db: Db, j: string, owner: string, image: string, now: int): (Db, Outcome) {
    match Parse(image)
    case Invalid => (db, Rejected)
    case Managed(b, digest) => CreateJobWithArtifact(db, j, owner, image, b, digest, now)
    case NotManaged =>
      if j in db.jobs then (db, Conflict) else (db.(jobs := db.jobs[j := Job(owner, image, Queued)]), Done)
  }

  ghost predicate Collectable(db: Db, b: string, before: int) {
    && b in db.artifacts && db.artifacts[b].lastReferenced < before
    && !Referenced(db, Reference(b, db.artifacts[b].digest))
  }

  ghost function CollectGarbage(db: Db, before: int): Db {
    db.(artifacts := map b | b in db.artifacts && !Collectable(db, b, before) :: db.artifacts[b])
  }

  /** Which artifacts are left: those referred to lately, and those whose image an undeleted job runs. */
  lemma CollectionLeaves(db: Db, before: int, b: string)
    ensures b in CollectGarbage(db, before).artifacts <==>
              && b in db.artifacts
              && (before <= db.artifacts[b].lastReferenced
                  || exists j :: j in db.jobs && db.jobs[j].status != Deleted
                                 && db.jobs[j].image == "jobdock://build/" + b + "@" + db.artifacts[b].digest)
    ensures b in CollectGarbage(db, before).artifacts ==> CollectGarbage(db, before).artifacts[b] == db.artifacts[b]
    ensures CollectGarbage(db, before) == db.(artifacts := CollectGarbage(db, before).artifacts)
  {
  }

  /** Removes a build and everything the schema cascades to. */
  function WithoutBuild(db: Db, b: string): Db {
    Db(db.builds - {b}, db.events - {b}, db.plans - {b},
       map a | a in db.assignments && db.assignments[a].buildId != b :: db.assignments[a],
       db.artifacts - {b}, db.jobs)
  }

  ghost function DeleteBuild(db: Db, b: string): (Db, Outcome) {
    if b !in db.builds then (db, NotFound)
    else if db.builds[b].status in {BuildAnalyzing, BuildBuilding} then (db, Conflict)
    else if db.builds[b].digest != "" && Referenced(db, Reference(b, db.builds[b].digest)) then (db, Conflict)
    else (WithoutBuild(db, b), Done)
  }

  /** What the job lifecycle may do to the job table: an image never changes except that
      deletion blanks it, and deletion is final. */
  ghost predicate JobsEvolve(jobs: map<string, Job>, jobs': map<string, Job>) {
    && jobs.Keys == jobs'.Keys
    && forall j :: j in jobs ==>
         && (jobs'[j].image == jobs[j].image || (jobs'[j].status == Deleted && jobs'[j].image == ""))
         && (jobs[j].status == Deleted ==> jobs'[j].status == Deleted)
  }

  // ---------------------------------------------------------------- runs

  datatype Op =
    | OpCreate(b: string, owner: string, mode: BuildMode)
    | OpStartAnalysis(b: string)
    | OpSavePlan(b: string)
    | OpAnalysisFailed(b: string, reason: string)
    | OpQueue(b: string, a: string)
    | OpClaim(a: string, builder: string)
    | OpRenew(a: string, builder: string)
    | OpCancelRunning(b: string)
    | OpCancelEarly(b: string)
    | OpComplete(a: string, builder: string, status: AssignmentStatus, digest: string, message: string)
    | OpSaveArtifact(b: string, artifact: Artifact)
    | OpTouch(b: string)
    | OpSubmit(j: string, owner: string, image: string)
    | OpCollect(before: int)
    | OpDelete(b: string)
    | OpJobs(jobs: map<string, Job>)

  datatype Timed = At(now: int, op: Op)

  /** One step of the service.  Analysis is started only for Railpack builds and reports
      failure only while no plan has been saved (internal/httpapi/builds.go:133-173);
      a selection that is not the one the claim query makes is not a step. */
  ghost function Step(db: Db, t: Timed, lease: nat): (Db, Outcome) {
    match t.op
    case OpCreate(b, owner, mode) => CreateBuild(db, b, owner, mode)
    case OpStartAnalysis(b) =>
      if b in db.builds && db.builds[b].mode == Railpack then UpdateStatus(db, b, BuildAnalyzing, "", "") else (db, Rejected)
    case OpSavePlan(b) => SaveBuildPlan(db, b)
    case OpAnalysisFailed(b, reason) =>
      if b in db.builds && db.builds[b].mode == Railpack && b !in db.plans
      then UpdateStatus(db, b, BuildFailed, "", reason) else (db, Rejected)
    case OpQueue(b, a) => QueueBuild(db, b, a, t.now)
    case OpClaim(a, builder) =>
      if IsNext(db, a, builder, t.now) then Claim(db, a, builder, t.now, lease) else (db, NotFound)
    case OpRenew(a, builder) => Renew(db, a, builder, t.now, lease)
    case OpCancelRunning(b) => RequestCancellation(db, b)
    case OpCancelEarly(b) => UpdateStatus(db, b, BuildCancelled, "", "Cancelled by user")
    case OpComplete(a, builder, status, digest, message) => Complete(db, a, builder, status, digest, message)
    case OpSaveArtifact(b, artifact) => SaveArtifact(db, b, artifact)
    case OpTouch(b) => (Touch(db, b, t.now), Done)
    case OpSubmit(j, owner, image) => SubmitJob(db, j, owner, image, t.now)
    case OpCollect(before) => (CollectGarbage(db, before), Done)
    case OpDelete(b) => DeleteBuild(db, b)
    case OpJobs(jobs) => if JobsEvolve(db.jobs, jobs) then (db.(jobs := jobs), Done) else (db, Rejected)
  }

  ghost function Run(db: Db, steps: seq<Timed>, lease: nat): Db
    decreases |steps|
  {
    if steps == [] then db else Step(Run(db, steps[..|steps| - 1], lease), steps[|steps| - 1], lease).0
  }

  // ---------------------------------------------------------------- the invariant

  ghost predicate LegalHistory(log: seq<BuildStatus>) {
    && |log| > 0 && log[0] == BuildCreated
    && forall i :: 0 < i < |log| ==> log[i] in NextBuildStatuses(log[i - 1])
  }

  ghost predicate HistoryReplays(db: Db, b: string) {
    && b in db.events && LegalHistory(db.events[b])
    && b in db.builds && db.events[b][|db.events[b]| - 1] == db.builds[b].status
  }

  ghost predicate HistoriesReplay(db: Db) {
    && db.events.Keys == db.builds.Keys
    && forall b :: b in db.builds ==> HistoryReplays(db, b)
  }

  ghost predicate DigestMatchesStatus(build: Build) {
    if build.status == BuildSucceeded then ValidDigest(build.digest) else build.digest == ""
  }

  ghost predicate DigestsMatchStatus(db: Db) {
    forall b :: b in db.builds ==> DigestMatchesStatus(db.builds[b])
  }

  /** An open assignment belongs to a build that is building or was cancelled under it;
      a closed one has its build's outcome. */
  ghost predicate Agrees(db: Db, x: Assignment) {
    && x.buildId in db.builds
    && var status := db.builds[x.buildId].status;
       && (Open(x.status) ==> status == BuildBuilding || status == BuildCancelled)
       && (!Open(x.status) ==> status == OutcomeStatus(x.status))
       && (x.cancelRequested ==> status == BuildCancelled)
       && (db.builds[x.buildId].mode == Railpack ==> x.buildId in db.plans)
  }

  ghost predicate RowsAgree(db: Db) {
    forall a :: a in db.assignments ==> Agrees(db, db.assignments[a])
  }

  ghost predicate RunningIsHeld(db: Db) {
    forall a :: a in db.assignments && db.assignments[a].status == AssignmentRunning ==>
      db.assignments[a].builder.Some? && db.assignments[a].lease.Some?
  }

  ghost predicate OnePerBuild(db: Db) {
    forall a, c :: a in db.assignments && c in db.assignments && db.assignments[a].buildId == db.assignments[c].buildId
      ==> a == c
  }

  ghost predicate BuildingIsAssigned(db: Db) {
    forall b :: b in db.builds && db.builds[b].status == BuildBuilding ==> HasAssignment(db, b)
  }

  ghost predicate ArtifactAgrees(db: Db, b: string, digest: string) {
    && b in db.builds && ValidDigest(digest)
    && (db.builds[b].status == BuildSucceeded ==> digest == db.builds[b].digest)
  }

  ghost predicate ArtifactsAgree(db: Db) {
    forall b :: b in db.artifacts ==> ArtifactAgrees(db, b, db.artifacts[b].digest)
  }

  /** The image `(b, digest)` can be run: its build succeeded with it and its artifact is there. */
  ghost predicate Live(db: Db, b: string, digest: string) {
    && b in db.builds && db.builds[b].status == BuildSucceeded && db.builds[b].digest == digest
    && b in db.artifacts && db.artifacts[b].digest == digest
  }

  ghost predicate ImageLive(db: Db, image: string) {
    Parse(image).Managed? ==> Live(db, Parse(image).buildId, Parse(image).digest)
  }

  ghost predicate NoDanglingImages(db: Db) {
    forall j :: j in db.jobs && db.jobs[j].status != Deleted ==> ImageLive(db, db.jobs[j].image)
  }

  ghost predicate Inv(db: Db) {
    && HistoriesReplay(db) && DigestsMatchStatus(db)
    && RowsAgree(db) && RunningIsHeld(db) && OnePerBuild(db) && BuildingIsAssigned(db)
    && ArtifactsAgree(db) && NoDanglingImages(db)
  }

  lemma EmptyInv()
    ensures Inv(EMPTY)
  {
  }

  // ---------------------------------------------------------------- preservation, part by part

  lemma AppendKeepsHistory(log: seq<BuildStatus>, status: BuildStatus)
    requires LegalHistory(log) && status in NextBuildStatuses(log[|log| - 1])
    ensures LegalHistory(log + [status])
  {
  }

  lemma StatusKeepsHistories(db: Db, b: string, status: BuildStatus, digest: string, failure: string)
    requires HistoriesReplay(db) && b in db.builds
    requires status in NextBuildStatuses(db.builds[b].status)
    ensures HistoriesReplay(WithStatus(db, b, status, digest, failure))
  {
    hide LegalHistory;
    var db' := WithStatus(db, b, status, digest, failure);
    assert HistoryReplays(db, b);
    AppendKeepsHistory(db.events[b], status);
    forall c | c in db'.builds ensures HistoryReplays(db', c) {
      if c != b {
        assert HistoryReplays(db, c);
      }
    }
  }

  /** Live images stay live, so the jobs that run them do not dangle. */
  lemma JobsCarry(db: Db, db': Db)
    requires NoDanglingImages(db) && db'.jobs == db.jobs
    requires forall b, digest :: Live(db, b, digest) ==> Live(db', b, digest)
    ensures NoDanglingImages(db')
  {
  }

  /** Rows other than `except` keep agreeing when their builds are untouched. */
  lemma RowsCarry(db: Db, db': Db, b: string)
    requires RowsAgree(db) && db.plans <= db'.plans
    requires forall a :: a in db'.assignments ==>
               Agrees(db', db'.assignments[a])
               || (a in db.assignments && db'.assignments[a] == db.assignments[a] && db.assignments[a].buildId != b)
    requires forall c :: c in db.builds && c != b ==> c in db'.builds && db'.builds[c] == db.builds[c]
    ensures RowsAgree(db')
  {
  }

  lemma BuildingCarry(db: Db, db': Db)
    requires BuildingIsAssigned(db)
    requires forall c :: c in db'.builds && db'.builds[c].status == BuildBuilding && !HasAssignment(db', c) ==>
               c in db.builds && db.builds[c].status == BuildBuilding
    requires forall a :: a in db.assignments && db.assignments[a].buildId in db'.builds ==>
               a in db'.assignments && db'.assignments[a].buildId == db.assignments[a].buildId
    ensures BuildingIsAssigned(db')
  {
  }

  lemma StatusKeepsBuildRows(db: Db, b: string, status: BuildStatus, digest: string, failure: string)
    requires DigestsMatchStatus(db) && ArtifactsAgree(db) && NoDanglingImages(db) && b in db.builds
    requires !BuildTerminal(db.builds[b].status) && ValidStatusFields(status, digest, failure)
    requires status == BuildSucceeded && b in db.artifacts ==> db.artifacts[b].digest == digest
    ensures var db' := WithStatus(db, b, status, digest, failure);
            DigestsMatchStatus(db') && ArtifactsAgree(db') && NoDanglingImages(db')
  {
  }

  // ---------------------------------------------------------------- preservation, step by step

  lemma {:induction false} CreateBuildKeeps(db: Db, b: string, owner: string, mode: BuildMode)
    requires Inv(db)
    ensures Inv(CreateBuild(db, b, owner, mode).0)
  {
    hide HistoriesReplay, RowsAgree, RunningIsHeld, OnePerBuild, BuildingIsAssigned, ArtifactsAgree,
         NoDanglingImages, DigestsMatchStatus;
    if b !in db.builds {
      CreateBuildKeepsBuilds(db, b, owner, mode);
      CreateBuildKeepsRows(db, b, owner, mode);
    }
  }

  lemma CreateBuildKeepsBuilds(db: Db, b: string, owner: string, mode: BuildMode)
    requires b !in db.builds && HistoriesReplay(db) && DigestsMatchStatus(db) && ArtifactsAgree(db) && NoDanglingImages(db)
    ensures var db' := CreateBuild(db, b, owner, mode).0;
            HistoriesReplay(db') && DigestsMatchStatus(db') && ArtifactsAgree(db') && NoDanglingImages(db')
  {
    hide Parse, LegalHistory;
    var db' := CreateBuild(db, b, owner, mode).0;
    FreshHistory();
    forall c | c in db'.builds ensures HistoryReplays(db', c) {
      if c != b {
        assert HistoryReplays(db, c);
      }
    }
    forall c | c in db'.artifacts ensures ArtifactAgrees(db', c, db'.artifacts[c].digest) {
      assert ArtifactAgrees(db, c, db.artifacts[c].digest);
    }
    JobsCarry(db, db');
  }

  lemma CreateBuildKeepsRows(db: Db, b: string, owner: string, mode: BuildMode)
    requires b !in db.builds && RowsAgree(db) && RunningIsHeld(db) && OnePerBuild(db) && BuildingIsAssigned(db)
    ensures var db' := CreateBuild(db, b, owner, mode).0;
            RowsAgree(db') && RunningIsHeld(db') && OnePerBuild(db') && BuildingIsAssigned(db')
  {
  }

  lemma FreshHistory()
    ensures LegalHistory([BuildCreated])
  {
  }

  lemma SavePlanKeeps(db: Db, b: string)
    requires Inv(db)
    ensures Inv(SaveBuildPlan(db, b).0)
  {
    hide Parse, LegalHistory;
    var db' := SaveBuildPlan(db, b).0;
    if db' != db {
      forall c | c in db'.builds ensures HistoryReplays(db', c) {
        assert HistoryReplays(db, c);
      }
      forall c | c in db'.artifacts ensures ArtifactAgrees(db', c, db'.artifacts[c].digest) {
        assert ArtifactAgrees(db, c, db.artifacts[c].digest);
      }
      forall a | a in db'.assignments ensures Agrees(db', db'.assignments[a]) {
        assert Agrees(db, db.assignments[a]);
      }
      BuildingCarry(db, db');
      JobsCarry(db, db');
    }
  }

  /** A status update keeps the invariant as long as it does not fail a build that is being built. */
  lemma {:induction false} UpdateStatusKeeps(db: Db, b: string, status: BuildStatus, message: string)
    requires Inv(db) && status in {BuildAnalyzing, BuildFailed, BuildCancelled}
    requires status == BuildFailed && b in db.builds ==> db.builds[b].status != BuildBuilding
    ensures Inv(UpdateStatus(db, b, status, "", message).0)
  {
    hide HistoriesReplay, DigestsMatchStatus, ArtifactsAgree, NoDanglingImages, HasAssignment,
         RowsAgree, RunningIsHeld, OnePerBuild, BuildingIsAssigned, WithStatus, ValidStatusFields;
    if UpdateStatus(db, b, status, "", message).1 == Done && db.builds[b].status != status {
      var failure := if status == BuildFailed then message else "";
      StatusKeepsHistories(db, b, status, "", failure);
      StatusKeepsBuildRows(db, b, status, "", failure);
      UpdateStatusKeepsRows(db, b, status, failure);
    }
  }

  lemma UpdateStatusKeepsRows(db: Db, b: string, status: BuildStatus, failure: string)
    requires RowsAgree(db) && RunningIsHeld(db) && OnePerBuild(db) && BuildingIsAssigned(db) && b in db.builds
    requires (status == BuildCancelled && db.builds[b].status == BuildBuilding)
             || (status in {BuildAnalyzing, BuildFailed, BuildCancelled} && db.builds[b].status in {BuildCreated, BuildAnalyzing})
    ensures var db' := WithStatus(db, b, status, "", failure);
            RowsAgree(db') && RunningIsHeld(db') && OnePerBuild(db') && BuildingIsAssigned(db')
  {
    var db' := WithStatus(db, b, status, "", failure);
    forall a | a in db'.assignments ensures Agrees(db', db'.assignments[a]) {
      assert Agrees(db, db.assignments[a]);
    }
    BuildingCarry(db, db');
  }

  lemma {:induction false} QueueBuildKeeps(db: Db, b: string, a: string, now: int)
    requires Inv(db)
    ensures Inv(QueueBuild(db, b, a, now).0)
  {
    hide HistoriesReplay, RowsAgree, RunningIsHeld, OnePerBuild, BuildingIsAssigned, ArtifactsAgree,
         NoDanglingImages, DigestsMatchStatus, HasAssignment, WithStatus;
    if QueueBuild(db, b, a, now).1 == Done && !HasAssignment(db, b) {
      DigestOf(db, b);
      var mid := WithStatus(db, b, BuildBuilding, "", "");
      StatusKeepsHistories(db, b, BuildBuilding, "", "");
      StatusKeepsBuildRows(db, b, BuildBuilding, "", "");
      SameBuilds(mid, QueueBuild(db, b, a, now).0);
      QueueBuildKeepsRows(db, b, a, now);
    }
  }

  lemma QueueBuildKeepsRows(db: Db, b: string, a: string, now: int)
    requires RowsAgree(db) && RunningIsHeld(db) && OnePerBuild(db) && BuildingIsAssigned(db)
    requires QueueBuild(db, b, a, now).1 == Done && !HasAssignment(db, b)
    ensures var db' := QueueBuild(db, b, a, now).0;
            RowsAgree(db') && RunningIsHeld(db') && OnePerBuild(db') && BuildingIsAssigned(db')
  {
    var db' := QueueBuild(db, b, a, now).0;
    RowsCarry(db, db', b);
    assert db'.assignments[a].buildId == b;
    assert HasAssignment(db', b);
    BuildingCarry(db, db');
  }

  /** Histories, digests, artifacts and jobs do not depend on the assignment table. */
  lemma SameBuilds(db: Db, db': Db)
    requires db' == db.(assignments := db'.assignments)
    requires HistoriesReplay(db) && DigestsMatchStatus(db) && ArtifactsAgree(db) && NoDanglingImages(db)
    ensures HistoriesReplay(db') && DigestsMatchStatus(db') && ArtifactsAgree(db') && NoDanglingImages(db')
  {
  }

  /** Changing one assignment row in place, without moving it to another build. */
  lemma RowKeeps(db: Db, a: string, x: Assignment)
    requires Inv(db) && a in db.assignments && x.buildId == db.assignments[a].buildId
    requires Agrees(db, x)
    requires x.status == AssignmentRunning ==> x.builder.Some? && x.lease.Some?
    ensures Inv(db.(assignments := db.assignments[a := x]))
  {
    hide HistoriesReplay, DigestsMatchStatus, ArtifactsAgree, NoDanglingImages,
         RowsAgree, RunningIsHeld, OnePerBuild, BuildingIsAssigned, Agrees;
    SameBuilds(db, db.(assignments := db.assignments[a := x]));
    RowKeepsRows(db, a, x);
  }

  lemma RowKeepsRows(db: Db, a: string, x: Assignment)
    requires RowsAgree(db) && RunningIsHeld(db) && OnePerBuild(db) && BuildingIsAssigned(db)
    requires a in db.assignments && x.buildId == db.assignments[a].buildId
    requires Agrees(db, x)
    requires x.status == AssignmentRunning ==> x.builder.Some? && x.lease.Some?
    ensures var db' := db.(assignments := db.assignments[a := x]);
            RowsAgree(db') && RunningIsHeld(db') && OnePerBuild(db') && BuildingIsAssigned(db')
  {
    var db' := db.(assignments := db.assignments[a := x]);
    forall c | c in db'.assignments ensures Agrees(db', db'.assignments[c]) {
      if c != a {
        assert Agrees(db, db.assignments[c]);
      }
    }
    BuildingCarry(db, db');
  }

  lemma ClaimKeeps(db: Db, a: string, builder: string, now: int, lease: nat)
    requires Inv(db) && a in db.assignments && Claimable(db.assignments[a], builder, now)
    ensures Inv(Claim(db, a, builder, now, lease).0)
    ensures Claim(db, a, builder, now, lease).1 == Done
  {
    hide Parse, LegalHistory, HistoriesReplay, DigestsMatchStatus, ArtifactsAgree, NoDanglingImages;
    var x := db.assignments[a];
    assert Agrees(db, x);
    RowKeeps(db, a, x.(status := AssignmentRunning, builder := Some(builder), lease := Some(now + lease)));
  }

  lemma RenewKeeps(db: Db, a: string, builder: string, now: int, lease: nat)
    requires Inv(db)
    ensures Inv(Renew(db, a, builder, now, lease).0)
  {
    hide Parse, LegalHistory, HistoriesReplay, DigestsMatchStatus, ArtifactsAgree, NoDanglingImages;
    if a in db.assignments {
      assert Agrees(db, db.assignments[a]);
      RowKeeps(db, a, db.assignments[a].(lease := Some(now + lease)));
    }
  }

  /** With one assignment per build, cancelling "all open assignments of b" changes one row. */
  lemma CancelIsOneRow(db: Db, b: string, a: string)
    requires OnePerBuild(db) && a in db.assignments && CancelTarget(db.assignments[a], b)
    ensures (map c | c in db.assignments ::
               if CancelTarget(db.assignments[c], b) then CancelRow(db.assignments[c]) else db.assignments[c])
            == db.assignments[a := CancelRow(db.assignments[a])]
  {
  }

  /** A build's outcome is recorded on the build and on its one assignment together. */
  lemma OutcomeKeeps(db: Db, a: string, x: Assignment, status: BuildStatus, digest: string, failure: string)
    requires Inv(db) && a in db.assignments && x.buildId == db.assignments[a].buildId
    requires x.buildId in db.builds && db.builds[x.buildId].status == BuildBuilding
    requires BuildTerminal(status) && ValidStatusFields(status, digest, failure)
    requires if Open(x.status) then status == BuildCancelled else status == OutcomeStatus(x.status)
    requires x.cancelRequested ==> status == BuildCancelled
    requires x.status == AssignmentRunning ==> x.builder.Some? && x.lease.Some?
    requires status == BuildSucceeded && x.buildId in db.artifacts ==> db.artifacts[x.buildId].digest == digest
    ensures Inv(WithStatus(db, x.buildId, status, digest, failure).(assignments := db.assignments[a := x]))
  {
    hide HistoriesReplay, RowsAgree, RunningIsHeld, OnePerBuild, BuildingIsAssigned, ArtifactsAgree,
         NoDanglingImages, DigestsMatchStatus, WithStatus, ValidStatusFields;
    var b := x.buildId;
    var mid := WithStatus(db, b, status, digest, failure);
    StatusKeepsHistories(db, b, status, digest, failure);
    StatusKeepsBuildRows(db, b, status, digest, failure);
    SameBuilds(mid, mid.(assignments := db.assignments[a := x]));
    OutcomeKeepsRows(db, a, x, status, digest, failure);
  }

  lemma OutcomeKeepsRows(db: Db, a: string, x: Assignment, status: BuildStatus, digest: string, failure: string)
    requires RowsAgree(db) && RunningIsHeld(db) && OnePerBuild(db) && BuildingIsAssigned(db)
    requires a in db.assignments && x.buildId == db.assignments[a].buildId
    requires x.buildId in db.builds && db.builds[x.buildId].status == BuildBuilding && BuildTerminal(status)
    requires if Open(x.status) then status == BuildCancelled else status == OutcomeStatus(x.status)
    requires x.cancelRequested ==> status == BuildCancelled
    requires x.status == AssignmentRunning ==> x.builder.Some? && x.lease.Some?
    ensures var db' := WithStatus(db, x.buildId, status, digest, failure).(assignments := db.assignments[a := x]);
            RowsAgree(db') && RunningIsHeld(db') && OnePerBuild(db') && BuildingIsAssigned(db')
  {
    var db' := WithStatus(db, x.buildId, status, digest, failure).(assignments := db.assignments[a := x]);
    assert Agrees(db, db.assignments[a]);
    RowsCarry(db, db', x.buildId);
    BuildingCarry(db, db');
  }

  lemma {:induction false} CancellationKeeps(db: Db, b: string)
    requires Inv(db)
    ensures Inv(RequestCancellation(db, b).0)
  {
    hide Parse, LegalHistory, HistoriesReplay, DigestsMatchStatus, ArtifactsAgree, NoDanglingImages;
    if b in db.builds && db.builds[b].status == BuildBuilding
       && exists a :: a in db.assignments && CancelTarget(db.assignments[a], b) {
      var a :| a in db.assignments && CancelTarget(db.assignments[a], b);
      CancelIsOneRow(db, b, a);
      assert db.builds[b].digest == "" by { DigestOf(db, b); }
      OutcomeKeeps(db, a, CancelRow(db.assignments[a]), BuildCancelled, "", "");
    }
  }

  lemma DigestOf(db: Db, b: string)
    requires DigestsMatchStatus(db) && b in db.builds && db.builds[b].status != BuildSucceeded
    ensures db.builds[b].digest == ""
  {
  }

  lemma {:induction false} CompleteKeeps(db: Db, a: string, builder: string, requested: AssignmentStatus, digest: string, message: string)
    requires Inv(db)
    ensures Inv(Complete(db, a, builder, requested, digest, message).0)
  {
    hide Parse, LegalHistory, HistoriesReplay, DigestsMatchStatus, ArtifactsAgree, NoDanglingImages;
    var db' := Complete(db, a, builder, requested, digest, message).0;
    if Complete(db, a, builder, requested, digest, message).1 == Done {
      var x := db.assignments[a];
      var build := db.builds[x.buildId];
      var stopped := x.cancelRequested || build.status == BuildCancelled;
      var status := if stopped then AssignmentCancelled else requested;
      var closed := x.(status := status, lease := None);
      assert Agrees(db, x);
      if build.status == BuildBuilding {
        var buildDigest := if status == AssignmentSucceeded then digest else "";
        var failure := if status == AssignmentFailed then message else "";
        OutcomeKeeps(db, a, closed, OutcomeStatus(status), buildDigest, failure);
      } else {
        RowKeeps(db, a, closed);
      }
    }
  }

  /** Artifact and job rows may come and go as long as live images keep theirs. */
  lemma ArtifactsKeep(db: Db, db': Db)
    requires Inv(db) && db' == db.(artifacts := db'.artifacts, jobs := db'.jobs)
    requires ArtifactsAgree(db') && NoDanglingImages(db')
    ensures Inv(db')
  {
    hide Parse, LegalHistory, ArtifactsAgree, NoDanglingImages;
    forall c | c in db'.builds ensures HistoryReplays(db', c) {
      assert HistoryReplays(db, c);
    }
    forall a | a in db'.assignments ensures Agrees(db', db'.assignments[a]) {
      assert Agrees(db, db.assignments[a]);
    }
    BuildingCarry(db, db');
  }

  lemma SaveArtifactKeeps(db: Db, b: string, artifact: Artifact)
    requires Inv(db)
    ensures Inv(SaveArtifact(db, b, artifact).0)
  {
    hide HistoriesReplay, RowsAgree, RunningIsHeld, OnePerBuild, BuildingIsAssigned, ArtifactsAgree, NoDanglingImages,
         ValidArtifact;
    var db' := SaveArtifact(db, b, artifact).0;
    SaveArtifactAgrees(db, b, artifact);
    ArtifactsKeep(db, db');
  }

  lemma SaveArtifactAgrees(db: Db, b: string, artifact: Artifact)
    requires ArtifactsAgree(db) && NoDanglingImages(db)
    ensures var db' := SaveArtifact(db, b, artifact).0;
            ArtifactsAgree(db') && NoDanglingImages(db')
  {
    hide Parse, Blank, RuntimeImage, ValidSHA256, ValidDigest;
    var db' := SaveArtifact(db, b, artifact).0;
    forall c | c in db'.artifacts ensures ArtifactAgrees(db', c, db'.artifacts[c].digest) {
      if c in db.artifacts {
        assert ArtifactAgrees(db, c, db.artifacts[c].digest);
      }
    }
    JobsCarry(db, db');
  }

  lemma TouchKeeps(db: Db, b: string, now: int)
    requires Inv(db)
    ensures Inv(Touch(db, b, now))
  {
    hide Parse, HistoriesReplay, RowsAgree, RunningIsHeld, OnePerBuild, BuildingIsAssigned;
    var db' := Touch(db, b, now);
    forall c | c in db'.artifacts ensures ArtifactAgrees(db', c, db'.artifacts[c].digest) {
      assert ArtifactAgrees(db, c, db.artifacts[c].digest);
    }
    JobsCarry(db, db');
    ArtifactsKeep(db, db');
  }

  /** The job table may change to any table whose live jobs run live images. */
  lemma JobTableKeeps(db: Db, jobs: map<string, Job>)
    requires Inv(db)
    requires forall j :: j in jobs && jobs[j].status != Deleted ==> ImageLive(db, jobs[j].image)
    ensures Inv(db.(jobs := jobs))
  {
    hide Parse, HistoriesReplay, RowsAgree, RunningIsHeld, OnePerBuild, BuildingIsAssigned;
    var db' := db.(jobs := jobs);
    forall c | c in db'.artifacts ensures ArtifactAgrees(db', c, db'.artifacts[c].digest) {
      assert ArtifactAgrees(db, c, db.artifacts[c].digest);
    }
    forall j | j in jobs && jobs[j].status != Deleted ensures ImageLive(db', jobs[j].image) {
      assert ImageLive(db, jobs[j].image);
    }
    ArtifactsKeep(db, db');
  }

  lemma NewJobKeeps(db: Db, j: string, job: Job)
    requires Inv(db) && j !in db.jobs && ImageLive(db, job.image)
    ensures Inv(db.(jobs := db.jobs[j := job]))
  {
    hide Parse, ImageLive, HistoriesReplay, RowsAgree, RunningIsHeld, OnePerBuild, BuildingIsAssigned;
    JobTableKeeps(db, db.jobs[j := job]);
  }

  lemma {:induction false} SubmitKeeps(db: Db, j: string, owner: string, image: string, now: int)
    requires Inv(db)
    ensures Inv(SubmitJob(db, j, owner, image, now).0)
  {
    hide Parse, HistoriesReplay, RowsAgree, RunningIsHeld, OnePerBuild, BuildingIsAssigned, NoDanglingImages;
    if SubmitJob(db, j, owner, image, now).1 == Done {
      var job := Job(owner, image, Queued);
      if Parse(image).Managed? {
        var b := Parse(image).buildId;
        assert ArtifactAgrees(db, b, db.artifacts[b].digest);
        NewJobKeeps(db, j, job);
        TouchKeeps(db.(jobs := db.jobs[j := job]), b, now);
      } else {
        NewJobKeeps(db, j, job);
      }
    }
  }

  /** A job that still needs an image counts as a reference to it. */
  lemma LiveJobReferences(db: Db, j: string)
    requires NoDanglingImages(db) && j in db.jobs && db.jobs[j].status != Deleted && Parse(db.jobs[j].image).Managed?
    ensures var p := Parse(db.jobs[j].image);
            Live(db, p.buildId, p.digest) && Referenced(db, Reference(p.buildId, p.digest)) && ValidDigest(p.digest)
  {
  }

  lemma CollectKeeps(db: Db, before: int)
    requires Inv(db)
    ensures Inv(CollectGarbage(db, before))
  {
    hide Parse, HistoriesReplay, RowsAgree, RunningIsHeld, OnePerBuild, BuildingIsAssigned, Referenced;
    var db' := CollectGarbage(db, before);
    forall j | j in db'.jobs && db'.jobs[j].status != Deleted ensures ImageLive(db', db'.jobs[j].image) {
      if Parse(db.jobs[j].image).Managed? {
        LiveJobReferences(db, j);
      }
    }
    forall c | c in db'.artifacts ensures ArtifactAgrees(db', c, db'.artifacts[c].digest) {
      assert ArtifactAgrees(db, c, db.artifacts[c].digest);
    }
    ArtifactsKeep(db, db');
  }

  lemma {:induction false} DeleteKeeps(db: Db, b: string)
    requires Inv(db)
    ensures Inv(DeleteBuild(db, b).0)
  {
    hide HistoriesReplay, RowsAgree, RunningIsHeld, OnePerBuild, BuildingIsAssigned, ArtifactsAgree, NoDanglingImages,
         DigestsMatchStatus, Referenced, WithoutBuild;
    if DeleteBuild(db, b).1 == Done {
      DeleteKeepsJobs(db, b);
      DeleteKeepsBuilds(db, b);
      DeleteKeepsRows(db, b);
    }
  }

  lemma DeleteKeepsBuilds(db: Db, b: string)
    requires HistoriesReplay(db) && DigestsMatchStatus(db) && ArtifactsAgree(db)
    ensures var db' := WithoutBuild(db, b);
            HistoriesReplay(db') && DigestsMatchStatus(db') && ArtifactsAgree(db')
  {
  }

  lemma DeleteKeepsRows(db: Db, b: string)
    requires RowsAgree(db) && RunningIsHeld(db) && OnePerBuild(db) && BuildingIsAssigned(db)
    ensures var db' := WithoutBuild(db, b);
            RowsAgree(db') && RunningIsHeld(db') && OnePerBuild(db') && BuildingIsAssigned(db')
  {
    var db' := WithoutBuild(db, b);
    forall a | a in db'.assignments ensures Agrees(db', db'.assignments[a]) {
      assert Agrees(db, db.assignments[a]);
    }
    BuildingCarry(db, db');
  }

  lemma DeleteKeepsJobs(db: Db, b: string)
    requires Inv(db) && DeleteBuild(db, b).1 == Done
    ensures NoDanglingImages(WithoutBuild(db, b))
  {
    hide Parse, Referenced, HistoriesReplay, RowsAgree, RunningIsHeld, OnePerBuild, BuildingIsAssigned, ArtifactsAgree;
    var db' := WithoutBuild(db, b);
    forall j | j in db'.jobs && db'.jobs[j].status != Deleted ensures ImageLive(db', db'.jobs[j].image) {
      if Parse(db.jobs[j].image).Managed? {
        LiveJobReferences(db, j);
      }
    }
  }

  lemma JobsKeep(db: Db, jobs: map<string, Job>)
    requires Inv(db) && JobsEvolve(db.jobs, jobs)
    ensures Inv(db.(jobs := jobs))
  {
    hide Live, HistoriesReplay, RowsAgree, RunningIsHeld, OnePerBuild, BuildingIsAssigned, ArtifactsAgree;
    forall j | j in jobs && jobs[j].status != Deleted ensures ImageLive(db, jobs[j].image) {
      assert ImageLive(db, db.jobs[j].image);
    }
    JobTableKeeps(db, jobs);
  }

  /** A Railpack build without a saved plan has no assignment, so it is not being built. */
  lemma UnplannedIsUnassigned(db: Db, b: string)
    requires RowsAgree(db) && BuildingIsAssigned(db) && b in db.builds && db.builds[b].mode == Railpack && b !in db.plans
    ensures !HasAssignment(db, b) && db.builds[b].status != BuildBuilding
  {
  }

  /** Every step of the service keeps the invariant.  A failed analysis never meets a build
      that is being built, because such a Railpack build has a saved plan. */
  lemma {:induction false} StepKeepsInv(db: Db, t: Timed, lease: nat)
    requires Inv(db)
    ensures Inv(Step(db, t, lease).0)
  {
    hide CreateBuild, SaveBuildPlan, QueueBuild, Claim, Renew, RequestCancellation, Complete, UpdateStatus,
         SaveArtifact, Touch, SubmitJob, CollectGarbage, DeleteBuild, JobsEvolve,
         HistoriesReplay, RowsAgree, RunningIsHeld, OnePerBuild, BuildingIsAssigned, ArtifactsAgree,
         NoDanglingImages, DigestsMatchStatus, Claimable, ClaimedBefore, HasAssignment;
    match t.op
    case OpCreate(b, owner, mode) => CreateBuildKeeps(db, b, owner, mode);
    case OpStartAnalysis(b) => UpdateStatusKeeps(db, b, BuildAnalyzing, "");
    case OpSavePlan(b) => SavePlanKeeps(db, b);
    case OpAnalysisFailed(b, reason) =>
      if b in db.builds && db.builds[b].mode == Railpack && b !in db.plans {
        UnplannedIsUnassigned(db, b);
        UpdateStatusKeeps(db, b, BuildFailed, reason);
      }
    case OpQueue(b, a) => QueueBuildKeeps(db, b, a, t.now);
    case OpClaim(a, builder) =>
      if IsNext(db, a, builder, t.now) {
        ClaimKeeps(db, a, builder, t.now, lease);
      }
    case OpRenew(a, builder) => RenewKeeps(db, a, builder, t.now, lease);
    case OpCancelRunning(b) => CancellationKeeps(db, b);
    case OpCancelEarly(b) => UpdateStatusKeeps(db, b, BuildCancelled, "Cancelled by user");
    case OpComplete(a, builder, status, digest, message) => CompleteKeeps(db, a, builder, status, digest, message);
    case OpSaveArtifact(b, artifact) => SaveArtifactKeeps(db, b, artifact);
    case OpTouch(b) => TouchKeeps(db, b, t.now);
    case OpSubmit(j, owner, image) => SubmitKeeps(db, j, owner, image, t.now);
    case OpCollect(before) => CollectKeeps(db, before);
    case OpDelete(b) => DeleteKeeps(db, b);
    case OpJobs(jobs) =>
      if JobsEvolve(db.jobs, jobs) {
        JobsKeep(db, jobs);
      }
  }

  lemma {:induction false} RunKeepsInv(db: Db, steps: seq<Timed>, lease: nat)
    requires Inv(db)
    ensures Inv(Run(db, steps, lease))
    decreases |steps|
  {
    hide Inv, Step;
    if steps != [] {
      var before := steps[..|steps| - 1];
      RunKeepsInv(db, before, lease);
      StepKeepsInv(Run(db, before, lease), steps[|steps| - 1], lease);
    }
  }

  // ---------------------------------------------------------------- main results: artifacts

  /** In every reachable state, a job that is not deleted and runs a managed image finds the
      build succeeded with that digest and the artifact still stored. */
  lemma {:induction false} NoDanglingImagesEver(steps: seq<Timed>, lease: nat, j: string)
    ensures var db := Run(EMPTY, steps, lease);
            j in db.jobs && db.jobs[j].status != Deleted && Parse(db.jobs[j].image).Managed? ==>
              var p := Parse(db.jobs[j].image);
              && p.buildId in db.builds && db.builds[p.buildId].status == BuildSucceeded
              && db.builds[p.buildId].digest == p.digest
              && p.buildId in db.artifacts && db.artifacts[p.buildId].digest == p.digest
  {
    hide Parse, Step;
    EmptyInv();
    RunKeepsInv(EMPTY, steps, lease);
    var db := Run(EMPTY, steps, lease);
    if j in db.jobs && db.jobs[j].status != Deleted {
      assert ImageLive(db, db.jobs[j].image);
    }
  }

  /** A stored artifact is never replaced: while its row stays, its contents are the ones saved first. */
  lemma {:induction false} ArtifactsAreImmutable(db: Db, t: Timed, lease: nat, b: string)
    requires b in db.artifacts && b in Step(db, t, lease).0.artifacts
    ensures var (x, y) := (db.artifacts[b], Step(db, t, lease).0.artifacts[b]);
            y == x.(lastReferenced := y.lastReferenced)
                 || (t.op.OpSaveArtifact? && y == x.(lastReferenced := t.op.artifact.lastReferenced))
  {
    hide UpdateStatus, QueueBuild, RequestCancellation, Complete, Claim, Renew, SubmitJob, DeleteBuild, SaveArtifact,
         JobsEvolve, Claimable, ClaimedBefore;
    match t.op
    case OpStartAnalysis(c) => StatusKeepsArtifacts(db, c, BuildAnalyzing, "");
    case OpAnalysisFailed(c, reason) => StatusKeepsArtifacts(db, c, BuildFailed, reason);
    case OpCancelEarly(c) => StatusKeepsArtifacts(db, c, BuildCancelled, "Cancelled by user");
    case OpQueue(c, a) => RowsKeepArtifacts(db, c, a, "", t.now, lease);
    case OpCancelRunning(c) => RowsKeepArtifacts(db, c, "", "", t.now, lease);
    case OpComplete(a, builder, status, digest, message) => CompleteKeepsArtifacts(db, a, builder, status, digest, message);
    case OpClaim(a, builder) =>
      if IsNext(db, a, builder, t.now) { RowsKeepArtifacts(db, "", a, builder, t.now, lease); }
    case OpRenew(a, builder) => RowsKeepArtifacts(db, "", a, builder, t.now, lease);
    case OpSaveArtifact(c, artifact) => SaveKeepsStored(db, c, artifact, b);
    case OpSubmit(j, owner, image) => SubmitOnlyTouches(db, j, owner, image, t.now, b);
    case OpDelete(c) => DeleteOnlyDrops(db, c, b);
    case OpCreate(_, _, _) =>
    case OpSavePlan(_) =>
    case OpTouch(_) =>
    case OpCollect(_) =>
    case OpJobs(_) =>
  }

  lemma StatusKeepsArtifacts(db: Db, c: string, status: BuildStatus, message: string)
    ensures UpdateStatus(db, c, status, "", message).0.artifacts == db.artifacts
  {
  }

  lemma RowsKeepArtifacts(db: Db, c: string, a: string, builder: string, now: int, lease: nat)
    ensures QueueBuild(db, c, a, now).0.artifacts == db.artifacts
    ensures RequestCancellation(db, c).0.artifacts == db.artifacts
    ensures a in db.assignments ==> Claim(db, a, builder, now, lease).0.artifacts == db.artifacts
    ensures Renew(db, a, builder, now, lease).0.artifacts == db.artifacts
  {
    hide Blank, HasAssignment;
  }

  lemma CompleteKeepsArtifacts(db: Db, a: string, builder: string, status: AssignmentStatus, digest: string, message: string)
    ensures Complete(db, a, builder, status, digest, message).0.artifacts == db.artifacts
  {
  }

  lemma SaveKeepsStored(db: Db, c: string, artifact: Artifact, b: string)
    requires b in db.artifacts && b in SaveArtifact(db, c, artifact).0.artifacts
    ensures var (x, y) := (db.artifacts[b], SaveArtifact(db, c, artifact).0.artifacts[b]);
            y == x || y == x.(lastReferenced := artifact.lastReferenced)
  {
  }

  lemma SubmitOnlyTouches(db: Db, j: string, owner: string, image: string, now: int, b: string)
    requires b in db.artifacts
    ensures var db' := SubmitJob(db, j, owner, image, now).0;
            b in db'.artifacts && (db'.artifacts[b] == db.artifacts[b] || db'.artifacts[b] == db.artifacts[b].(lastReferenced := now))
  {
  }

  lemma DeleteOnlyDrops(db: Db, c: string, b: string)
    requires b in db.artifacts && b in DeleteBuild(db, c).0.artifacts
    ensures DeleteBuild(db, c).0.artifacts[b] == db.artifacts[b]
  {
  }

  // ---------------------------------------------------------------- main results: outcomes

  /** In every reachable state the event log of a build is a walk along legal transitions
      that ends in its status, and a closed assignment carries its build's outcome. */
  lemma {:induction false} OutcomesAgreeEver(steps: seq<Timed>, lease: nat)
    ensures var db := Run(EMPTY, steps, lease);
            && db.events.Keys == db.builds.Keys
            && (forall b :: b in db.builds ==>
                  LegalHistory(db.events[b]) && db.events[b][|db.events[b]| - 1] == db.builds[b].status)
            && (forall a :: a in db.assignments && !Open(db.assignments[a].status) ==>
                  db.assignments[a].buildId in db.builds
                  && db.builds[db.assignments[a].buildId].status == OutcomeStatus(db.assignments[a].status))
  {
    hide Step;
    EmptyInv();
    RunKeepsInv(EMPTY, steps, lease);
    var db := Run(EMPTY, steps, lease);
    forall b | b in db.builds
      ensures LegalHistory(db.events[b]) && db.events[b][|db.events[b]| - 1] == db.builds[b].status
    {
      assert HistoryReplays(db, b);
    }
    forall a | a in db.assignments && !Open(db.assignments[a].status)
      ensures db.assignments[a].buildId in db.builds
              && db.builds[db.assignments[a].buildId].status == OutcomeStatus(db.assignments[a].status)
    {
      assert Agrees(db, db.assignments[a]);
    }
  }

  /** A build becomes SUCCEEDED in one way only: the builder that holds its running
      assignment, with no cancellation requested, completes it with the digest of the
      artifact already stored for the build. */
  lemma {:induction false} SuccessNeedsArtifact(db: Db, t: Timed, lease: nat, b: string)
    requires Inv(db)
    requires var db' := Step(db, t, lease).0; b in db'.builds && db'.builds[b].status == BuildSucceeded
    requires b in db.builds ==> db.builds[b].status != BuildSucceeded
    ensures && t.op.OpComplete? && t.op.status == AssignmentSucceeded
            && t.op.a in db.assignments
            && var x := db.assignments[t.op.a];
               && x.buildId == b && x.status == AssignmentRunning && x.builder == Some(t.op.builder) && !x.cancelRequested
               && b in db.builds && db.builds[b].status == BuildBuilding
               && b in db.artifacts && db.artifacts[b].digest == t.op.digest == Step(db, t, lease).0.builds[b].digest
  {
    hide HistoriesReplay, OnePerBuild, BuildingIsAssigned, ArtifactsAgree, NoDanglingImages, DigestsMatchStatus,
         ValidDigest, WithStatus, Step;
    OnlyCompletionSucceeds(db, t, lease, b);
    var x := db.assignments[t.op.a];
    assert Agrees(db, x);
  }

  lemma {:induction false} OnlyCompletionSucceeds(db: Db, t: Timed, lease: nat, b: string)
    requires var db' := Step(db, t, lease).0; b in db'.builds && db'.builds[b].status == BuildSucceeded
    requires b in db.builds ==> db.builds[b].status != BuildSucceeded
    ensures t.op.OpComplete? && t.op.a in db.assignments && db.assignments[t.op.a].buildId == b
    ensures var (a, builder) := (t.op.a, t.op.builder);
            var x := db.assignments[a];
            && Holder(x) == builder && b in db.builds && db.builds[b].status == BuildBuilding
            && t.op.status == AssignmentSucceeded && !x.cancelRequested
            && b in db.artifacts && db.artifacts[b].digest == t.op.digest == Step(db, t, lease).0.builds[b].digest
            && (x.status == AssignmentRunning || x.status == AssignmentSucceeded)
  {
    hide UpdateStatus, QueueBuild, RequestCancellation, Complete, Claim, Renew, SaveArtifact, SubmitJob, DeleteBuild,
         JobsEvolve, Claimable, ClaimedBefore;
    match t.op
    case OpStartAnalysis(c) => UpdateMoves(db, c, BuildAnalyzing, "", b);
    case OpAnalysisFailed(c, reason) => UpdateMoves(db, c, BuildFailed, reason, b);
    case OpCancelEarly(c) => UpdateMoves(db, c, BuildCancelled, "Cancelled by user", b);
    case OpQueue(c, a) => QueueMoves(db, c, a, t.now, b);
    case OpCancelRunning(c) => CancellationMoves(db, c, b);
    case OpComplete(a, builder, status, digest, message) => CompleteMoves(db, a, builder, status, digest, message, b);
    case OpClaim(a, builder) =>
      if a in db.assignments { ClaimOnlyRows(db, a, builder, t.now, lease); }
    case OpRenew(a, builder) => ClaimOnlyRows(db, a, builder, t.now, lease);
    case OpSaveArtifact(c, artifact) => SaveOnlyArtifacts(db, c, artifact);
    case OpSubmit(j, owner, image) => SubmitKeepsBuilds(db, j, owner, image, t.now);
    case OpDelete(c) => DeleteOnlyRemoves(db, c);
    case OpCreate(_, _, _) =>
    case OpSavePlan(_) =>
    case OpTouch(_) =>
    case OpCollect(_) =>
    case OpJobs(_) =>
  }

  // How each transaction can move one build `b`: not at all, or along a legal transition
  // that its log records.

  ghost predicate Unmoved(db: Db, db': Db, b: string) {
    && (b in db'.builds <==> b in db.builds) && (b in db.builds ==> db'.builds[b] == db.builds[b])
    && (b in db'.events <==> b in db.events) && (b in db.events ==> db'.events[b] == db.events[b])
  }

  ghost predicate Moved(db: Db, db': Db, b: string) {
    && b in db.builds && b in db'.builds
    && db'.builds[b].status in NextBuildStatuses(db.builds[b].status)
    && b in db'.events && db'.events[b] == (if b in db.events then db.events[b] else []) + [db'.builds[b].status]
  }

  lemma WithStatusMoves(db: Db, c: string, status: BuildStatus, digest: string, failure: string, b: string)
    requires c in db.builds && status in NextBuildStatuses(db.builds[c].status)
    ensures var db' := WithStatus(db, c, status, digest, failure);
            if b == c then Moved(db, db', b) && db'.builds[b].status == status else Unmoved(db, db', b)
  {
  }

  lemma {:induction false} UpdateMoves(db: Db, c: string, status: BuildStatus, message: string, b: string)
    ensures var db' := UpdateStatus(db, c, status, "", message).0;
            Unmoved(db, db', b) || (Moved(db, db', b) && b == c && db'.builds[b].status == status)
  {
    hide ValidStatusFields, NextBuildStatuses, WithStatus;
    if c in db.builds && db.builds[c].status != status && CanBuildTransition(db.builds[c].status, status) {
      WithStatusMoves(db, c, status, "", if status == BuildFailed then message else "", b);
    }
  }

  lemma QueueMoves(db: Db, c: string, a: string, now: int, b: string)
    ensures var db' := QueueBuild(db, c, a, now).0;
            Unmoved(db, db', b) || (Moved(db, db', b) && b == c && db'.builds[b].status == BuildBuilding)
  {
    hide HasAssignment, Blank;
  }

  lemma CancellationMoves(db: Db, c: string, b: string)
    ensures var db' := RequestCancellation(db, c).0;
            Unmoved(db, db', b) || (Moved(db, db', b) && b == c && db'.builds[b].status == BuildCancelled)
  {
  }

  lemma CompleteMoves(db: Db, a: string, builder: string, status: AssignmentStatus, digest: string, message: string, b: string)
    ensures var db' := Complete(db, a, builder, status, digest, message).0;
            Unmoved(db, db', b)
            || (&& Moved(db, db', b) && a in db.assignments && db.assignments[a].buildId == b
                && db.builds[b].status == BuildBuilding
                && var x := db.assignments[a];
                   && Holder(x) == builder && (x.status == AssignmentRunning || x.status == status)
                   && (db'.builds[b].status == BuildSucceeded ==>
                         && status == AssignmentSucceeded && !x.cancelRequested
                         && b in db.artifacts && db.artifacts[b].digest == digest == db'.builds[b].digest))
  {
    hide ValidStatusFields;
  }

  lemma ClaimOnlyRows(db: Db, a: string, builder: string, now: int, lease: nat)
    ensures a in db.assignments ==>
              var db' := Claim(db, a, builder, now, lease).0; db'.builds == db.builds && db'.events == db.events
    ensures var db' := Renew(db, a, builder, now, lease).0; db'.builds == db.builds && db'.events == db.events
  {
  }

  lemma SaveOnlyArtifacts(db: Db, c: string, artifact: Artifact)
    ensures var db' := SaveArtifact(db, c, artifact).0; db'.builds == db.builds && db'.events == db.events
  {
  }

  lemma SubmitKeepsBuilds(db: Db, j: string, owner: string, image: string, now: int)
    ensures var db' := SubmitJob(db, j, owner, image, now).0; db'.builds == db.builds && db'.events == db.events
  {
    hide Parse;
  }

  lemma DeleteOnlyRemoves(db: Db, c: string)
    ensures var db' := DeleteBuild(db, c).0;
            && (db'.builds == db.builds || db'.builds == db.builds - {c})
            && (db'.events == db.events || db'.events == db.events - {c})
  {
  }

  /** A terminal build is final: no step changes its row or its log, except deleting it. */
  lemma {:induction false} TerminalIsFinal(db: Db, t: Timed, lease: nat, b: string)
    requires Inv(db) && b in db.builds && BuildTerminal(db.builds[b].status)
    requires t.op != OpDelete(b)
    ensures var db' := Step(db, t, lease).0;
            && b in db'.builds && db'.builds[b] == db.builds[b]
            && b in db.events && b in db'.events && db'.events[b] == db.events[b]
  {
    hide *;
    HistoryExists(db, b);
    StepMoves(db, t, lease, b);
    NoWayOut(db, Step(db, t, lease).0, b);
  }

  lemma NoWayOut(db: Db, db': Db, b: string)
    requires b in db.builds && b in db.events && BuildTerminal(db.builds[b].status)
    requires Unmoved(db, db', b) || Moved(db, db', b)
    ensures b in db'.builds && db'.builds[b] == db.builds[b] && b in db'.events && db'.events[b] == db.events[b]
  {
  }

  lemma SameIsUnmoved(db: Db, db': Db, b: string)
    requires db'.builds == db.builds && db'.events == db.events
    ensures Unmoved(db, db', b)
  {
  }

  /** One step of the service moves an existing build along a legal transition and appends just
      the new status to its log, or leaves both alone. */
  lemma StepMoves(db: Db, t: Timed, lease: nat, b: string)
    requires b in db.builds && t.op != OpDelete(b)
    ensures var db' := Step(db, t, lease).0; Unmoved(db, db', b) || Moved(db, db', b)
  {
    hide Unmoved, Moved, UpdateStatus, QueueBuild, RequestCancellation, Complete, Claim, Renew, SaveArtifact, SubmitJob,
         CollectGarbage, DeleteBuild, CreateBuild, SaveBuildPlan, Touch, JobsEvolve, Claimable, ClaimedBefore;
    SameIsUnmoved(db, db, b);
    match t.op
    case OpStartAnalysis(c) => UpdateMoves(db, c, BuildAnalyzing, "", b);
    case OpAnalysisFailed(c, reason) => UpdateMoves(db, c, BuildFailed, reason, b);
    case OpCancelEarly(c) => UpdateMoves(db, c, BuildCancelled, "Cancelled by user", b);
    case OpQueue(c, a) => QueueMoves(db, c, a, t.now, b);
    case OpCancelRunning(c) => CancellationMoves(db, c, b);
    case OpComplete(a, builder, status, digest, message) => CompleteMoves(db, a, builder, status, digest, message, b);
    case OpClaim(a, builder) =>
      if IsNext(db, a, builder, t.now) {
        ClaimOnlyRows(db, a, builder, t.now, lease);
        SameIsUnmoved(db, Claim(db, a, builder, t.now, lease).0, b);
      }
    case OpRenew(a, builder) =>
      ClaimOnlyRows(db, a, builder, t.now, lease);
      SameIsUnmoved(db, Renew(db, a, builder, t.now, lease).0, b);
    case OpSaveArtifact(c, artifact) =>
      SaveOnlyArtifacts(db, c, artifact);
      SameIsUnmoved(db, SaveArtifact(db, c, artifact).0, b);
    case OpSubmit(j, owner, image) =>
      SubmitKeepsBuilds(db, j, owner, image, t.now);
      SameIsUnmoved(db, SubmitJob(db, j, owner, image, t.now).0, b);
    case OpDelete(c) => DeleteMoves(db, c, b);
    case OpCreate(c, owner, mode) => OthersMove(db, c, owner, mode, t.now, 0, b);
    case OpSavePlan(c) => OthersMove(db, c, "", Railpack, t.now, 0, b);
    case OpTouch(c) => OthersMove(db, c, "", Railpack, t.now, 0, b);
    case OpCollect(before) => OthersMove(db, "", "", Railpack, t.now, before, b);
    case OpJobs(jobs) => SameIsUnmoved(db, db.(jobs := jobs), b);
  }

  lemma DeleteMoves(db: Db, c: string, b: string)
    requires c != b
    ensures Unmoved(db, DeleteBuild(db, c).0, b)
  {
  }

  lemma OthersMove(db: Db, c: string, owner: string, mode: BuildMode, now: int, before: int, b: string)
    requires b in db.builds
    ensures Unmoved(db, CreateBuild(db, c, owner, mode).0, b)
    ensures Unmoved(db, SaveBuildPlan(db, c).0, b)
    ensures Unmoved(db, Touch(db, c, now), b)
    ensures Unmoved(db, CollectGarbage(db, before), b)
  {
  }

  /** ... so a build that was cancelled (or failed) never succeeds later, whatever happens. */
  lemma {:induction false} TerminalStaysForever(db: Db, steps: seq<Timed>, lease: nat, b: string)
    requires Inv(db) && b in db.builds && BuildTerminal(db.builds[b].status)
    requires forall t :: t in steps ==> t.op != OpDelete(b)
    ensures var db' := Run(db, steps, lease);
            && b in db'.builds && db'.builds[b] == db.builds[b]
            && b in db.events && b in db'.events && db'.events[b] == db.events[b]
    decreases |steps|
  {
    hide Inv, Step;
    if steps == [] {
      HistoryExists(db, b);
    } else {
      var before := steps[..|steps| - 1];
      TerminalStaysForever(db, before, lease, b);
      RunKeepsInv(db, before, lease);
      TerminalIsFinal(Run(db, before, lease), steps[|steps| - 1], lease, b);
    }
  }

  lemma HistoryExists(db: Db, b: string)
    requires Inv(db) && b in db.builds
    ensures b in db.events
  {
  }

  /** Failing a build keeps the invariant exactly when the build is not being built.  The
      service only does it from analysis, which ends before a Railpack build can be queued. */
  lemma {:induction false} FailingKeepsAgreementIff(db: Db, b: string, reason: string)
    requires Inv(db) && b in db.builds && db.builds[b].status != BuildFailed
    requires UpdateStatus(db, b, BuildFailed, "", reason).1 == Done
    ensures Inv(UpdateStatus(db, b, BuildFailed, "", reason).0) <==> db.builds[b].status != BuildBuilding
  {
    hide HistoriesReplay, OnePerBuild, ArtifactsAgree, NoDanglingImages, DigestsMatchStatus, Parse, Blank, ValidDigest;
    var db' := UpdateStatus(db, b, BuildFailed, "", reason).0;
    if db.builds[b].status == BuildBuilding {
      assert HasAssignment(db, b);
      var a :| a in db.assignments && db.assignments[a].buildId == b;
      assert Agrees(db, db.assignments[a]);
      assert !Agrees(db', db'.assignments[a]);
    } else {
      forall a | a in db.assignments ensures db.assignments[a].buildId != b {
        assert Agrees(db, db.assignments[a]);
      }
      UpdateStatusKeeps(db, b, BuildFailed, reason);
    }
  }

  /** What would go wrong otherwise: a build failed under a running builder that has already
      stored its artifact ends FAILED with a SUCCEEDED assignment. */
  lemma FailingUnderABuilderDisagrees(db: Db, a: string, builder: string, reason: string)
    requires Inv(db) && a in db.assignments && !Blank(reason)
    requires var x := db.assignments[a];
             && x.status == AssignmentRunning && x.builder == Some(builder)
             && x.buildId in db.builds && db.builds[x.buildId].status == BuildBuilding && x.buildId in db.artifacts
    ensures var b := db.assignments[a].buildId;
            var failed := UpdateStatus(db, b, BuildFailed, "", reason).0;
            var (db', outcome) := Complete(failed, a, builder, AssignmentSucceeded, db.artifacts[b].digest, "");
            && outcome == Done && a in db'.assignments && db'.assignments[a].status == AssignmentSucceeded
            && b in db'.builds && db'.builds[b].status == BuildFailed
  {
    hide HistoriesReplay, OnePerBuild, BuildingIsAssigned, ArtifactsAgree, NoDanglingImages, DigestsMatchStatus,
         RunningIsHeld, Parse, ValidDigest;
    assert Agrees(db, db.assignments[a]);
  }

  // ---------------------------------------------------------------- main results: handing out work

  /** Not to be handed to this builder: its cancellation is requested, it is closed, or it runs
      under another builder whose lease has not ended. */
  predicate Withheld(x: Assignment, builder: string, now: int) {
    || x.cancelRequested
    || x.status in {AssignmentSucceeded, AssignmentFailed, AssignmentCancelled}
    || (x.status == AssignmentRunning && x.builder != Some(builder) && (x.lease.None? || now <= x.lease.value))
  }

  lemma ClaimableIff(x: Assignment, builder: string, now: int)
    ensures Claimable(x, builder, now) <==> !Withheld(x, builder, now)
  {
  }

  /** The assignment to be handed out: the builder's own if it has one, and otherwise the oldest. */
  ghost predicate IsHandedOut(db: Db, a: string, builder: string, now: int) {
    && a in db.assignments && !Withheld(db.assignments[a], builder, now)
    && forall c :: c in db.assignments && !Withheld(db.assignments[c], builder, now) ==>
         if db.assignments[a].builder == Some(builder)
         then db.assignments[c].builder == Some(builder) ==> db.assignments[a].createdAt <= db.assignments[c].createdAt
         else db.assignments[c].builder != Some(builder) && db.assignments[a].createdAt <= db.assignments[c].createdAt
  }

  lemma IsNextIff(db: Db, a: string, builder: string, now: int)
    ensures IsNext(db, a, builder, now) <==> IsHandedOut(db, a, builder, now)
  {
    forall x: Assignment ensures Claimable(x, builder, now) <==> !Withheld(x, builder, now) {
      ClaimableIff(x, builder, now);
    }
    hide Claimable, Withheld;
  }

  /** When there is one open assignment left, not to be cancelled, and its lease has ended or it has
      never been claimed, the next builder that asks, whoever it is, holds it for the full lease. */
  lemma {:induction false} WorkIsHandedOn(db: Db, a: string, builder: string, now: int, lease: nat)
    requires Inv(db) && a in db.assignments && !db.assignments[a].cancelRequested
    requires var x := db.assignments[a];
             x.status == AssignmentPending || (x.status == AssignmentRunning && x.lease.Some? && x.lease.value < now)
    requires forall c :: c in db.assignments && c != a ==>
               db.assignments[c].status in {AssignmentSucceeded, AssignmentFailed, AssignmentCancelled}
    ensures forall c :: IsNext(db, c, builder, now) <==> c == a
    ensures var r := Step(db, At(now, OpClaim(a, builder)), lease);
            && r.1 == Done && HeldBy(r.0, a, builder, now + lease)
            && r.0.assignments[a].status == AssignmentRunning && r.0.assignments[a].builder == Some(builder)
  {
    hide HistoriesReplay, DigestsMatchStatus, RunningIsHeld, OnePerBuild, BuildingIsAssigned, ArtifactsAgree, NoDanglingImages, IsNext;
    forall c ensures IsNext(db, c, builder, now) <==> IsHandedOut(db, c, builder, now) {
      IsNextIff(db, c, builder, now);
    }
    assert Agrees(db, db.assignments[a]);
  }

  /** No work is ever stuck: in a reachable state with an open assignment not to be cancelled, once
      all leases have ended, whoever asks is handed one. */
  lemma {:induction false} WorkIsNeverStuck(steps: seq<Timed>, lease: nat, a: string, builder: string, now: int) returns (next: string)
    requires var db := Run(EMPTY, steps, lease);
             && a in db.assignments && Open(db.assignments[a].status) && !db.assignments[a].cancelRequested
             && forall c :: c in db.assignments && db.assignments[c].lease.Some? ==> db.assignments[c].lease.value < now
    ensures var db := Run(EMPTY, steps, lease);
            && IsNext(db, next, builder, now) && Step(db, At(now, OpClaim(next, builder)), lease).1 == Done
            && HeldBy(Step(db, At(now, OpClaim(next, builder)), lease).0, next, builder, now + lease)
  {
    EmptyInv();
    RunKeepsInv(EMPTY, steps, lease);
    var db := Run(EMPTY, steps, lease);
    hide Run, HistoriesReplay, DigestsMatchStatus, OnePerBuild, BuildingIsAssigned, ArtifactsAgree, NoDanglingImages;
    var open := set c | c in db.assignments && Claimable(db.assignments[c], builder, now);
    assert a in open;
    next := FirstOf(db, open, builder);
    assert Agrees(db, db.assignments[next]);
  }

  lemma {:induction false} FirstOf(db: Db, some: set<string>, builder: string) returns (next: string)
    requires some != {} && forall c :: c in some ==> c in db.assignments
    ensures next in some
    ensures forall c :: c in some ==> ClaimedBefore(db.assignments[next], db.assignments[c], builder)
    decreases some
  {
    next :| next in some;
    if some != {next} {
      var best := FirstOf(db, some - {next}, builder);
      if !ClaimedBefore(db.assignments[next], db.assignments[best], builder) {
        next := best;
      }
    }
  }

  // ---------------------------------------------------------------- main results: leases

  /** `builder` has the assignment, and while it runs its lease does not end before `until`. */
  ghost predicate HeldBy(db: Db, a: string, builder: string, until: int) {
    && a in db.assignments && db.assignments[a].status != AssignmentPending
    && db.assignments[a].builder == Some(builder)
    && (db.assignments[a].status == AssignmentRunning ==>
          db.assignments[a].lease.Some? && db.assignments[a].lease.value >= until)
  }

  /** A claim or a renewal at `now` gives the lease until `now + lease`. */
  lemma ClaimOrRenewHolds(db: Db, a: string, builder: string, now: int, lease: nat)
    ensures a in db.assignments && Claim(db, a, builder, now, lease).1 == Done
            ==> HeldBy(Claim(db, a, builder, now, lease).0, a, builder, now + lease)
    ensures Renew(db, a, builder, now, lease).1 == Done ==> HeldBy(Renew(db, a, builder, now, lease).0, a, builder, now + lease)
  {
  }

  /** Until the lease ends, no other builder is offered the assignment. */
  lemma HeldExcludesOthers(db: Db, a: string, builder: string, until: int, other: string, now: int)
    requires HeldBy(db, a, builder, until) && other != builder && now <= until
    ensures !IsNext(db, a, other, now)
  {
  }

  lemma LeaseStep(db: Db, t: Timed, lease: nat, a: string, builder: string, until: int)
    requires HeldBy(db, a, builder, until) && t.now <= until <= t.now + lease
    requires t.op != OpDelete(db.assignments[a].buildId)
    ensures HeldBy(Step(db, t, lease).0, a, builder, until)
    ensures Step(db, t, lease).0.assignments[a].buildId == db.assignments[a].buildId
  {
    hide Parse, JobsEvolve, HasAssignment, Referenced, Blank, ValidDigest, ValidArtifact, CanBuildTransition;
  }

  /** Lease safety.  From a claim or renewal at `start`, and as long as the clock stays within
      [start, start + lease], whatever the other builders, users and collectors do, the builder
      keeps the assignment: nobody else can hold it. */
  lemma {:induction false} LeaseIsExclusive(db: Db, a: string, builder: string, start: int, steps: seq<Timed>, lease: nat)
    requires HeldBy(db, a, builder, start + lease)
    requires forall t :: t in steps ==> start <= t.now <= start + lease && t.op != OpDelete(db.assignments[a].buildId)
    ensures HeldBy(Run(db, steps, lease), a, builder, start + lease)
    ensures Run(db, steps, lease).assignments[a].buildId == db.assignments[a].buildId
    decreases |steps|
  {
    hide Step, HeldBy;
    assert a in db.assignments by { HeldExists(db, a, builder, start + lease); }
    if steps != [] {
      var before := steps[..|steps| - 1];
      LeaseIsExclusive(db, a, builder, start, before, lease);
      HeldExists(Run(db, before, lease), a, builder, start + lease);
      LeaseStep(Run(db, before, lease), steps[|steps| - 1], lease, a, builder, start + lease);
    }
  }

  lemma HeldExists(db: Db, a: string, builder: string, until: int)
    requires HeldBy(db, a, builder, until)
    ensures a in db.assignments
  {
  }

  ghost predicate NotHolder(db: Db, a: string, builder: string) {
    a in db.assignments ==> Holder(db.assignments[a]) != builder
  }

  lemma NotHolderStep(db: Db, t: Timed, lease: nat, a: string, builder: string)
    requires builder != "" && NotHolder(db, a, builder) && t.op != OpClaim(a, builder)
    ensures NotHolder(Step(db, t, lease).0, a, builder)
  {
    hide Parse, JobsEvolve, HasAssignment, Referenced, Blank, ValidDigest, ValidArtifact, CanBuildTransition;
  }

  /** A builder that does not hold the assignment, for instance because its lease ran out and
      another one took over, can neither renew nor complete it until it claims it again. */
  lemma {:induction false} LostLeaseStaysLost(db: Db, a: string, builder: string, steps: seq<Timed>, lease: nat)
    requires builder != "" && NotHolder(db, a, builder)
    requires forall t :: t in steps ==> t.op != OpClaim(a, builder)
    ensures var db' := Run(db, steps, lease);
            && NotHolder(db', a, builder)
            && (forall now :: Renew(db', a, builder, now, lease) == (db', Conflict))
            && (forall status, digest, message ::
                  var (db'', outcome) := Complete(db', a, builder, status, digest, message);
                  db'' == db' && outcome != Done)
    decreases |steps|
  {
    hide Step, OutcomeStatus, ValidStatusFields, WithStatus;
    if steps != [] {
      var before := steps[..|steps| - 1];
      LostLeaseStaysLost(db, a, builder, before, lease);
      NotHolderStep(Run(db, before, lease), steps[|steps| - 1], lease, a, builder);
    }
  }
}
