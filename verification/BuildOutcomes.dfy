/** When the transactions on builds succeed, and what they leave, in the fields of builds and
    assignments (internal/store/builds.go, build_assignments.go, managed_artifacts.go). */
module BuildOutcomes {
  import opened Domain
  import opened ManagedReference
  import opened Text
  import opened Builds

  /** Statuses a build may be moved to. */
  function Next(from: BuildStatus): set<BuildStatus> {
    match from
    case BuildCreated => {BuildAnalyzing, BuildBuilding, BuildFailed, BuildCancelled}
    case BuildAnalyzing => {BuildBuilding, BuildFailed, BuildCancelled}
    case BuildBuilding => {BuildSucceeded, BuildFailed, BuildCancelled}
    case BuildSucceeded => {}
    case BuildFailed => {}
    case BuildCancelled => {}
  }

  /** Only this build's row and log change: it shows the status, which is appended to its log. */
  ghost predicate Recorded(db: Db, db': Db, b: string, status: BuildStatus)
    requires b in db.builds && b in db.events
  {
    && db'.builds.Keys == db.builds.Keys && db'.events.Keys == db.events.Keys
    && (forall c :: c in db.builds && c != b ==> db'.builds[c] == db.builds[c])
    && (forall c :: c in db.events && c != b ==> db'.events[c] == db.events[c])
    && db'.builds[b].status == status && db'.events[b] == db.events[b] + [status]
    && db'.builds[b].owner == db.builds[b].owner && db'.builds[b].mode == db.builds[b].mode
    && db' == db.(builds := db'.builds, events := db'.events, assignments := db'.assignments)
  }

  /** Other assignments stay as they are. */
  ghost predicate OnlyRow(db: Db, db': Db, a: string) {
    && db'.assignments.Keys == db.assignments.Keys
    && forall c :: c in db.assignments && c != a ==> db'.assignments[c] == db.assignments[c]
  }

  /** A build is created once. */
  lemma CreateIs(db: Db, b: string, owner: string, mode: BuildMode)
    ensures var r := CreateBuild(db, b, owner, mode);
            && (r.1 == Done <==> b !in db.builds)
            && r.0 == if r.1 == Done then db.(builds := db.builds[b := Build(owner, mode, BuildCreated, "", "")],
                                              events := db.events[b := [BuildCreated]]) else db
  {
  }

  /** A status update succeeds if the build shows the status already, or may move there with the
      digest or the reason that the status needs. */
  lemma UpdateStatusIs(db: Db, b: string, status: BuildStatus, digest: string, message: string)
    requires Inv(db) && b in db.builds && b in db.events
    ensures var from, r := db.builds[b].status, UpdateStatus(db, b, status, digest, message);
            && (r.1 == Done <==>
                  || status == from
                  || (status in Next(from)
                      && (if status == BuildSucceeded then ValidDigest(digest) else digest == "")
                      && (status == BuildFailed ==> exists i :: 0 <= i < |message| && !Space(message[i]))))
            && (r.1 != Done || status == from ==> r.0 == db)
            && (r.1 == Done && status != from ==>
                  && Recorded(db, r.0, b, status) && r.0.assignments == db.assignments && r.0.builds[b].digest == digest
                  && r.0.builds[b].failureReason == (if status == BuildFailed then message else ""))
  {
    hide Inv, ValidDigest, Space;
  }

  /** A plan is saved once, while the build is analysed. */
  lemma SavePlanIs(db: Db, b: string)
    ensures var r := SaveBuildPlan(db, b);
            && (r.1 == Done <==> b in db.builds && db.builds[b].status == BuildAnalyzing && b !in db.plans)
            && r.0 == if r.1 == Done then db.(plans := db.plans + {b}) else db
  {
  }

  /** A build without an assignment gets one, and starts building, if it is a Railpack build that is
      analysed and planned, or a Dockerfile build just created; one that has an assignment is left alone. */
  lemma QueueIs(db: Db, b: string, a: string, now: int)
    requires Inv(db) && b in db.builds && b in db.events && !Blank(a) && !Blank(b) && a !in db.assignments
    ensures var build, r := db.builds[b], QueueBuild(db, b, a, now);
            var queued := exists c :: c in db.assignments && db.assignments[c].buildId == b;
            var ready := if build.mode == Railpack then build.status == BuildAnalyzing && b in db.plans else build.status == BuildCreated;
            && (r.1 == Done <==> queued || ready)
            && (queued || !ready ==> r.0 == db)
            && (!queued && ready ==>
                  && Recorded(db, r.0, b, BuildBuilding)
                  && r.0.assignments == db.assignments[a := Assignment(b, AssignmentPending, false, None, None, now)])
  {
    hide Inv, Blank;
  }

  /** Renewing needs to be the builder of a running assignment; only its lease changes. */
  lemma RenewIs(db: Db, a: string, builder: string, now: int, lease: nat)
    ensures var r := Renew(db, a, builder, now, lease);
            && (r.1 == Done <==>
                  a in db.assignments && db.assignments[a].builder == Some(builder) && db.assignments[a].status == AssignmentRunning)
            && r.0 == if r.1 == Done then db.(assignments := db.assignments[a := db.assignments[a].(lease := Some(now + lease))])
                      else db
  {
  }

  /** A running build's cancellation succeeds if it is cancelled already, or its assignment is open:
      then the build is cancelled at once, pending work is closed and running work is told to stop. */
  lemma {:induction false} CancellationIs(db: Db, b: string)
    requires Inv(db) && b in db.builds && b in db.events
    ensures var build, r := db.builds[b], RequestCancellation(db, b);
            var open := exists a :: a in db.assignments && db.assignments[a].buildId == b
                                    && db.assignments[a].status in {AssignmentPending, AssignmentRunning};
            && (r.1 == Done <==> build.status == BuildCancelled || (build.status == BuildBuilding && open))
            && (r.1 != Done || build.status == BuildCancelled ==> r.0 == db)
            && (r.1 == Done && build.status != BuildCancelled ==>
                  && Recorded(db, r.0, b, BuildCancelled) && r.0.assignments.Keys == db.assignments.Keys
                  && forall a :: a in db.assignments ==>
                       var x := db.assignments[a];
                       r.0.assignments[a] ==
                         if x.buildId != b || x.status !in {AssignmentPending, AssignmentRunning} then x
                         else if x.status == AssignmentPending then x.(cancelRequested := true, status := AssignmentCancelled)
                         else x.(cancelRequested := true))
  {
    hide Inv;
  }

  /** What a builder may report as the end of its work. */
  ghost predicate MayEnd(db: Db, x: Assignment, builder: string, requested: AssignmentStatus, digest: string, message: string) {
    && requested in {AssignmentSucceeded, AssignmentFailed, AssignmentCancelled}
    && (x.builder == Some(builder) || (x.builder == None && builder == ""))
    && (x.status == AssignmentRunning || x.status == requested)
    && x.buildId in db.builds
    && (requested == AssignmentSucceeded && !x.cancelRequested && db.builds[x.buildId].status != BuildCancelled ==>
          x.buildId in db.artifacts && db.artifacts[x.buildId].digest == digest)
    && (requested == AssignmentFailed && !x.cancelRequested && db.builds[x.buildId].status == BuildBuilding ==>
          exists i :: 0 <= i < |message| && !Space(message[i]))
  }

  /** Completing succeeds exactly if the report may be made. */
  lemma {:induction false} CompletesIff(db: Db, a: string, builder: string, requested: AssignmentStatus, digest: string, message: string)
    requires Inv(db) && a in db.assignments
    ensures var r := Complete(db, a, builder, requested, digest, message);
            && (r.1 == Done <==> MayEnd(db, db.assignments[a], builder, requested, digest, message))
            && (r.1 != Done ==> r.0 == db)
  {
    DigestIsValid(db, db.assignments[a].buildId);
    hide Inv, ValidDigest, Space, WithStatus;
  }

  /** Then work to be cancelled ends as cancelled, whatever is reported, and a build that is building
      takes the outcome. */
  lemma {:induction false} CompleteLeaves(db: Db, a: string, builder: string, requested: AssignmentStatus, digest: string, message: string)
    requires a in db.assignments && db.assignments[a].buildId in db.events
    requires Complete(db, a, builder, requested, digest, message).1 == Done
    ensures var x, db' := db.assignments[a], Complete(db, a, builder, requested, digest, message).0;
            && x.buildId in db.builds
            && var build := db.builds[x.buildId];
               var stopped := x.cancelRequested || build.status == BuildCancelled;
               && OnlyRow(db, db', a)
               && db'.assignments[a] == x.(status := if stopped then AssignmentCancelled else requested, lease := None)
               && (build.status != BuildBuilding ==> db' == db.(assignments := db'.assignments))
               && (build.status == BuildBuilding ==>
                     && Recorded(db, db', x.buildId, if stopped || requested == AssignmentCancelled then BuildCancelled
                                                     else if requested == AssignmentSucceeded then BuildSucceeded else BuildFailed)
                     && db'.builds[x.buildId].digest == (if !stopped && requested == AssignmentSucceeded then digest else ""))
  {
    hide ValidDigest, Space, Blank;
  }

  lemma DigestIsValid(db: Db, b: string)
    requires Inv(db)
    ensures b in db.artifacts ==> ValidDigest(db.artifacts[b].digest)
  {
    if b in db.artifacts {
      assert ArtifactAgrees(db, b, db.artifacts[b].digest);
    }
  }

  /** An artifact is stored for a build of the same owner that is building, and if it is the first one
      or the same as before; the time of the last reference is taken over. */
  lemma SaveArtifactIs(db: Db, b: string, artifact: Artifact)
    requires ValidArtifact(b, artifact)
    ensures var r := SaveArtifact(db, b, artifact);
            && (r.1 == Done <==>
                  && b in db.builds && db.builds[b].owner == artifact.owner && db.builds[b].status == BuildBuilding
                  && (b in db.artifacts ==>
                        artifact == db.artifacts[b].(owner := artifact.owner, lastReferenced := artifact.lastReferenced)))
            && (r.1 != Done ==> r.0 == db)
            && (r.1 == Done ==>
                  && r.0 == db.(artifacts := r.0.artifacts) && b in r.0.artifacts
                  && r.0.artifacts == db.artifacts[b := r.0.artifacts[b]]
                  && r.0.artifacts[b] == artifact.(owner := r.0.artifacts[b].owner)
                  && r.0.artifacts[b].owner == (if b in db.artifacts then db.artifacts[b].owner else artifact.owner))
  {
    hide ValidArtifact;
  }

  /** What makes an artifact fit to be stored. */
  lemma ValidArtifactIs(b: string, artifact: Artifact)
    ensures ValidArtifact(b, artifact) <==>
              && (exists i :: 0 <= i < |b| && !Space(b[i])) && (exists i :: 0 <= i < |artifact.owner| && !Space(artifact.owner[i]))
              && IsDigest(artifact.digest) && |artifact.sha256| == 64 && (forall i :: 0 <= i < 64 ==> IsHex(artifact.sha256[i]))
              && artifact.size > 0 && artifact.runtimeImage == "jobdock.local/managed/" + b + ":artifact"
  {
    DigestIs(artifact.digest);
    hide Space, IsDigest, ValidDigest;
  }

  predicate IsHex(c: char) {
    c in {'0', '1', '2', '3', '4', '5', '6', '7', '8', '9', 'a', 'b', 'c', 'd', 'e', 'f'}
  }

  /** "sha256:" and 64 hexadecimal digits. */
  predicate IsDigest(s: string) {
    |s| == 71 && s[0] == 's' && s[1] == 'h' && s[2] == 'a' && s[3] == '2' && s[4] == '5' && s[5] == '6' && s[6] == ':'
    && forall i | 7 <= i < 71 :: IsHex(s[i])
  }

  lemma HexIs(c: char)
    ensures HexDigit(c) <==> IsHex(c)
  {
  }

  lemma DigestIs(s: string)
    ensures ValidDigest(s) <==> IsDigest(s)
  {
    forall c ensures HexDigit(c) <==> IsHex(c) {
      HexIs(c);
    }
    hide HexDigit, IsHex;
    if |s| == 71 {
      assert forall i | 7 <= i < 71 :: s[i] == s[7..][i - 7];
      assert s[..7] == "sha256:" <==> forall i | 0 <= i < 7 :: s[i] == "sha256:"[i];
    }
  }

  /** An image is a managed one if and only if it is written like this, and any other image under the
      scheme is refused. */
  lemma ImageIs(image: string, b: string, digest: string)
    ensures Parse(image) == Managed(b, digest) <==>
              image == "jobdock://build/" + b + "@" + digest && b != "" && '/' !in b && '@' !in b && IsDigest(digest)
    ensures Parse(image) == NotManaged <==> !("jobdock://" <= image)
  {
    DigestIs(digest);
    hide IsDigest, ValidDigest;
    if Parse(image) == Managed(b, digest) {
      ParseIsExact(image);
    }
    if ValidBuildId(b) && ValidDigest(digest) {
      ReferenceRoundTrip(b, digest);
    }
  }

  /** A job with a managed image is created exactly if the artifact of the succeeded build, with that
      digest and of that owner, is there; it then counts as referred to. */
  lemma SubmitIs(db: Db, j: string, owner: string, b: string, digest: string, now: int)
    requires IsDigest(digest) && b != "" && '/' !in b && '@' !in b
    ensures var image := "jobdock://build/" + b + "@" + digest;
            var r := SubmitJob(db, j, owner, image, now);
            && (r.1 == Done <==>
                  && j !in db.jobs && b in db.builds && db.builds[b].status == BuildSucceeded
                  && b in db.artifacts && db.artifacts[b].owner == owner && db.artifacts[b].digest == digest)
            && (r.1 != Done ==> r.0 == db)
            && (r.1 == Done ==>
                  r.0 == db.(jobs := db.jobs[j := Job(owner, image, Queued)],
                             artifacts := db.artifacts[b := db.artifacts[b].(lastReferenced := now)]))
  {
    ImageIs("jobdock://build/" + b + "@" + digest, b, digest);
    hide Parse, IsDigest;
  }

  /** A build is deleted, with all that belongs to it, exactly if it is neither analysed nor building
      and no undeleted job runs its image. */
  lemma DeleteIs(db: Db, b: string)
    requires b in db.builds
    ensures var r := DeleteBuild(db, b);
            && (r.1 == Done <==>
                  && db.builds[b].status !in {BuildAnalyzing, BuildBuilding}
                  && (db.builds[b].digest != "" ==>
                        !exists j :: j in db.jobs && db.jobs[j].status != Deleted
                                     && db.jobs[j].image == "jobdock://build/" + b + "@" + db.builds[b].digest))
            && (r.1 != Done ==> r.0 == db)
            && (r.1 == Done ==>
                  && r.0.builds == db.builds - {b} && r.0.events == db.events - {b} && r.0.plans == db.plans - {b}
                  && r.0.artifacts == db.artifacts - {b} && r.0.jobs == db.jobs
                  && (forall a :: a in r.0.assignments <==> a in db.assignments && db.assignments[a].buildId != b)
                  && forall a :: a in r.0.assignments ==> r.0.assignments[a] == db.assignments[a])
  {
  }

  // ---------------------------------------------------------------- a build that goes well

  /** The only build, with its log and its plan; nothing else but perhaps its assignment and artifact. */
  ghost predicate Alone(db: Db, b: string, owner: string, mode: BuildMode, status: BuildStatus) {
    && db.builds.Keys == {b} && db.builds[b].owner == owner && db.builds[b].mode == mode && db.builds[b].status == status
    && db.builds[b].digest == "" && b in db.events && db.jobs == map[]
  }

  lemma OneMoreStep(steps: seq<Timed>, t: Timed, lease: nat)
    ensures Run(EMPTY, steps + [t], lease) == Step(Run(EMPTY, steps, lease), t, lease).0
  {
    hide Step;
    assert (steps + [t])[..|steps|] == steps;
  }

  /** Created, and if it is a Railpack build analysed and planned. */
  lemma {:induction false} Prepared(b: string, owner: string, mode: BuildMode, now: int, lease: nat) returns (steps: seq<Timed>)
    ensures var db := Run(EMPTY, steps, lease);
            && Alone(db, b, owner, mode, if mode == Railpack then BuildAnalyzing else BuildCreated)
            && (mode == Railpack ==> b in db.plans) && db.assignments == map[] && db.artifacts == map[]
  {
    hide Run;
    steps := [];
    OneMoreStep(steps, At(now, OpCreate(b, owner, mode)), lease);
    NoSteps(lease);
    steps := steps + [At(now, OpCreate(b, owner, mode))];
    if mode == Railpack {
      OneMoreStep(steps, At(now, OpStartAnalysis(b)), lease);
      steps := steps + [At(now, OpStartAnalysis(b))];
      OneMoreStep(steps, At(now, OpSavePlan(b)), lease);
      steps := steps + [At(now, OpSavePlan(b))];
    }
  }

  lemma NoSteps(lease: nat)
    ensures Run(EMPTY, [], lease) == EMPTY
  {
  }

  /** Queued and claimed. */
  lemma {:induction false} Claimed(b: string, owner: string, mode: BuildMode, a: string, builder: string, now: int, lease: nat)
      returns (steps: seq<Timed>)
    requires !Blank(a) && !Blank(b)
    ensures var db := Run(EMPTY, steps, lease);
            && Alone(db, b, owner, mode, BuildBuilding) && db.artifacts == map[]
            && db.assignments == map[a := Assignment(b, AssignmentRunning, false, Some(builder), Some(now + lease), now)]
  {
    steps := Prepared(b, owner, mode, now, lease);
    hide Run, Blank;
    OneMoreStep(steps, At(now, OpQueue(b, a)), lease);
    steps := steps + [At(now, OpQueue(b, a))];
    OneMoreStep(steps, At(now, OpClaim(a, builder)), lease);
    steps := steps + [At(now, OpClaim(a, builder))];
  }

  /** Whatever the build mode, a build whose builder publishes the artifact and reports success
      succeeds with that digest, and a job can then be submitted that runs its image. */
  lemma {:induction false} GoodBuild(b: string, owner: string, mode: BuildMode, a: string, builder: string, artifact: Artifact,
                                     j: string, now: int, lease: nat) returns (steps: seq<Timed>)
    requires !Blank(a) && ValidBuildId(b) && ValidArtifact(b, artifact) && artifact.owner == owner
    ensures var db := Run(EMPTY, steps, lease);
            && b in db.builds && db.builds[b].status == BuildSucceeded && db.builds[b].digest == artifact.digest
            && db.jobs == map[j := Job(owner, "jobdock://build/" + b + "@" + artifact.digest, Queued)]
  {
    steps := Claimed(b, owner, mode, a, builder, now, lease);
    hide Run, Blank, ValidDigest, ValidSHA256, ValidBuildId, Parse;
    var stored := At(now, OpSaveArtifact(b, artifact));
    OneMoreStep(steps, stored, lease);
    steps := steps + [stored];
    var completed := At(now, OpComplete(a, builder, AssignmentSucceeded, artifact.digest, ""));
    OneMoreStep(steps, completed, lease);
    steps := steps + [completed];
    var submitted := At(now, OpSubmit(j, owner, "jobdock://build/" + b + "@" + artifact.digest));
    ReferenceRoundTrip(b, artifact.digest);
    OneMoreStep(steps, submitted, lease);
    steps := steps + [submitted];
  }
}
