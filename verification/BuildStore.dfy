/** The store itself: tables the transactions update statement by statement.  Each method is
    proved to perform exactly the transaction that module Builds specifies. */
module BuildStore {
  import opened Domain
  import opened ManagedReference
  import opened Text
  import B = Builds

  type Outcome = B.Outcome

  class Store {
    var builds: map<string, B.Build>
    var events: map<string, seq<BuildStatus>>
    var plans: set<string>
    var assignments: map<string, B.Assignment>
    var artifacts: map<string, B.Artifact>
    var jobs: map<string, B.Job>

    ghost function Tables(): B.Db
      reads this
    {
      B.Db(builds, events, plans, assignments, artifacts, jobs)
    }

    constructor ()
      ensures Tables() == B.EMPTY
    {
      builds, events, plans, assignments, artifacts, jobs := map[], map[], {}, map[], map[], map[];
    }

    method RecordStatus(b: string, status: BuildStatus, digest: string, failureReason: string)
      requires b in builds
      modifies this`builds, this`events
      ensures Tables() == B.WithStatus(old(Tables()), b, status, digest, failureReason)
    {
      builds := builds[b := builds[b].(status := status, digest := digest, failureReason := failureReason)];
      var log := if b in events then events[b] else [];
      events := events[b := log + [status]];
    }

    method CreateBuild(b: string, owner: string, mode: BuildMode) returns (outcome: Outcome)
      modifies this`builds, this`events
      ensures (Tables(), outcome) == B.CreateBuild(old(Tables()), b, owner, mode)
    {
      if b in builds {
        return B.Conflict;
      }
      builds := builds[b := B.Build(owner, mode, BuildCreated, "", "")];
      events := events[b := [BuildCreated]];
      return B.Done;
    }

    method SaveBuildPlan(b: string) returns (outcome: Outcome)
      modifies this`plans
      ensures (Tables(), outcome) == B.SaveBuildPlan(old(Tables()), b)
    {
      if b !in builds {
        return B.NotFound;
      }
      if builds[b].status != BuildAnalyzing || b in plans {
        return B.Conflict;
      }
      plans := plans + {b};
      return B.Done;
    }

    method QueueBuild(b: string, a: string, now: int) returns (outcome: Outcome)
      modifies this`builds, this`events, this`assignments
      ensures (Tables(), outcome) == B.QueueBuild(old(Tables()), b, a, now)
    {
      if b !in builds {
        return B.NotFound;
      }
      var build := builds[b];
      if exists x :: x in assignments && assignments[x].buildId == b {
        return B.Done;
      }
      match build.mode {
        case Railpack =>
          if build.status != BuildAnalyzing {
            return B.Conflict;
          }
          if b !in plans {
            return B.NotFound;
          }
        case Dockerfile =>
          if build.status != BuildCreated {
            return B.Conflict;
          }
      }
      if Blank(a) || Blank(b) {
        return B.Rejected;
      }
      if a in assignments {
        return B.Conflict;
      }
      RecordStatus(b, BuildBuilding, build.digest, "");
      assignments := assignments[a := B.Assignment(b, AssignmentPending, false, None, None, now)];
      return B.Done;
    }

    /** The claim query: the first claimable assignment in claim order, if there is one. */
    method SelectNext(builder: string, now: int) returns (next: Option<string>)
      ensures next.Some? ==> B.IsNext(Tables(), next.value, builder, now) && B.IsHandedOut(Tables(), next.value, builder, now)
      ensures next.None? ==> forall a :: a in assignments ==> !B.Claimable(assignments[a], builder, now)
      ensures next.None? <==> forall a :: a in assignments ==> B.Withheld(assignments[a], builder, now)
    {
      var rest := assignments.Keys;
      next := None;
      while rest != {}
        invariant rest <= assignments.Keys
        invariant next.Some? ==> next.value in assignments && B.Claimable(assignments[next.value], builder, now)
        invariant forall a :: a in assignments && a !in rest && B.Claimable(assignments[a], builder, now) ==>
                    next.Some? && B.ClaimedBefore(assignments[next.value], assignments[a], builder)
        decreases rest
      {
        var a :| a in rest;
        rest := rest - {a};
        if B.Claimable(assignments[a], builder, now)
           && (next.None? || !B.ClaimedBefore(assignments[next.value], assignments[a], builder)) {
          next := Some(a);
        }
      }
      forall a | a in assignments
        ensures B.Claimable(assignments[a], builder, now) <==> !B.Withheld(assignments[a], builder, now)
      {
        B.ClaimableIff(assignments[a], builder, now);
      }
      if next.Some? {
        B.IsNextIff(Tables(), next.value, builder, now);
      }
    }

    method NextBuildWork(builder: string, now: int, lease: nat) returns (claimed: Option<string>, outcome: Outcome)
      modifies this`assignments
      ensures claimed.Some? ==>
                && B.IsNext(old(Tables()), claimed.value, builder, now)
                && (Tables(), outcome) == B.Claim(old(Tables()), claimed.value, builder, now, lease)
      ensures claimed.Some? ==> B.IsHandedOut(old(Tables()), claimed.value, builder, now)
      ensures claimed.None? ==> Tables() == old(Tables()) && outcome == B.NotFound
      ensures claimed.None? <==> forall a :: a in old(assignments) ==> B.Withheld(old(assignments)[a], builder, now)
    {
      claimed := SelectNext(builder, now);
      if claimed.None? {
        return claimed, B.NotFound;
      }
      var a := claimed.value;
      var x := assignments[a];
      ghost var before := Tables();
      assignments := assignments[a := x.(status := AssignmentRunning, builder := Some(builder), lease := Some(now + lease))];
      if x.buildId !in builds || (builds[x.buildId].mode == Railpack && x.buildId !in plans) {
        assignments := assignments[a := x];
        assert assignments == before.assignments;
        return claimed, B.NotFound;
      }
      return claimed, B.Done;
    }

    method RenewBuildAssignment(a: string, builder: string, now: int, lease: nat) returns (outcome: Outcome)
      modifies this`assignments
      ensures (Tables(), outcome) == B.Renew(old(Tables()), a, builder, now, lease)
    {
      if a !in assignments || assignments[a].builder != Some(builder) || assignments[a].status != AssignmentRunning {
        return B.Conflict;
      }
      assignments := assignments[a := assignments[a].(lease := Some(now + lease))];
      return B.Done;
    }

    method RequestBuildCancellation(b: string) returns (outcome: Outcome)
      modifies this`builds, this`events, this`assignments
      ensures (Tables(), outcome) == B.RequestCancellation(old(Tables()), b)
    {
      if b !in builds {
        return B.NotFound;
      }
      if builds[b].status == BuildCancelled {
        return B.Done;
      }
      if builds[b].status != BuildBuilding {
        return B.Conflict;
      }
      if !exists a :: a in assignments && B.CancelTarget(assignments[a], b) {
        return B.Conflict;
      }
      assignments := map a | a in assignments ::
        if B.CancelTarget(assignments[a], b) then B.CancelRow(assignments[a]) else assignments[a];
      RecordStatus(b, BuildCancelled, builds[b].digest, "");
      return B.Done;
    }

    method CompleteBuildAssignment(a: string, builder: string, requested: AssignmentStatus, digest: string, message: string)
        returns (outcome: Outcome)
      modifies this`builds, this`events, this`assignments
      ensures (Tables(), outcome) == B.Complete(old(Tables()), a, builder, requested, digest, message)
    {
      if requested !in {AssignmentSucceeded, AssignmentFailed, AssignmentCancelled} {
        return B.Rejected;
      }
      if a !in assignments {
        return B.NotFound;
      }
      var x := assignments[a];
      if B.Holder(x) != builder || (x.status != AssignmentRunning && x.status != requested) {
        return B.Conflict;
      }
      if x.buildId !in builds {
        return B.NotFound;
      }
      var build := builds[x.buildId];
      var status, text := requested, message;
      var published := digest;
      if x.cancelRequested || build.status == BuildCancelled {
        status, published, text := AssignmentCancelled, "", "Build cancelled";
      }
      if status == AssignmentSucceeded
         && (x.buildId !in artifacts || artifacts[x.buildId].digest != published) {
        return B.Conflict;
      }
      if build.status == BuildBuilding {
        var buildStatus, failure := BuildSucceeded, "";
        match status {
          case AssignmentFailed => buildStatus, published, failure := BuildFailed, "", text;
          case AssignmentCancelled => buildStatus, published := BuildCancelled, "";
          case _ =>
        }
        if !B.ValidStatusFields(buildStatus, published, failure) {
          return B.Rejected;
        }
        RecordStatus(x.buildId, buildStatus, published, failure);
      }
      assignments := assignments[a := x.(status := status, lease := None)];
      return B.Done;
    }

    method UpdateBuildStatus(b: string, status: BuildStatus, digest: string, message: string) returns (outcome: Outcome)
      modifies this`builds, this`events
      ensures (Tables(), outcome) == B.UpdateStatus(old(Tables()), b, status, digest, message)
    {
      if b !in builds {
        return B.NotFound;
      }
      if builds[b].status == status {
        return B.Done;
      }
      if !CanBuildTransition(builds[b].status, status) {
        return B.Conflict;
      }
      var failure := "";
      if status == BuildFailed {
        failure := message;
      }
      if !B.ValidStatusFields(status, digest, failure) {
        return B.Rejected;
      }
      RecordStatus(b, status, digest, failure);
      return B.Done;
    }

    method SaveManagedArtifact(b: string, artifact: B.Artifact) returns (outcome: Outcome)
      modifies this`artifacts
      ensures (Tables(), outcome) == B.SaveArtifact(old(Tables()), b, artifact)
    {
      if !B.ValidArtifact(b, artifact) {
        return B.Rejected;
      }
      if b !in builds {
        return B.NotFound;
      }
      if builds[b].owner != artifact.owner || builds[b].status != BuildBuilding {
        return B.Conflict;
      }
      if b in artifacts {
        var stored := artifacts[b];
        if stored.(owner := artifact.owner, lastReferenced := artifact.lastReferenced) != artifact {
          return B.Conflict;
        }
        artifacts := artifacts[b := stored.(lastReferenced := artifact.lastReferenced)];
      } else {
        artifacts := artifacts[b := artifact];
      }
      return B.Done;
    }

    method SubmitJob(j: string, owner: string, image: string, now: int) returns (outcome: Outcome)
      modifies this`jobs, this`artifacts
      ensures (Tables(), outcome) == B.SubmitJob(old(Tables()), j, owner, image, now)
    {
      match Parse(image) {
        case Invalid =>
          return B.Rejected;
        case Managed(b, digest) =>
          if b !in artifacts || artifacts[b].owner != owner || artifacts[b].digest != digest
             || b !in builds || builds[b].status != BuildSucceeded {
            return B.NotFound;
          }
          if j in jobs {
            return B.Conflict;
          }
          jobs := jobs[j := B.Job(owner, image, Queued)];
          artifacts := artifacts[b := artifacts[b].(lastReferenced := now)];
          return B.Done;
        case NotManaged =>
          if j in jobs {
            return B.Conflict;
          }
          jobs := jobs[j := B.Job(owner, image, Queued)];
          return B.Done;
      }
    }

    predicate IsReferenced(image: string)
      reads this`jobs
    {
      exists j :: j in jobs && jobs[j].status != Deleted && jobs[j].image == image
    }

    /** Selects the expired, unreferenced artifacts and deletes them row by row, checking each again. */
    method GarbageCollectManagedArtifacts(before: int) returns (collected: set<string>)
      modifies this`artifacts
      ensures Tables() == B.CollectGarbage(old(Tables()), before)
      ensures forall b :: b in collected <==> B.Collectable(old(Tables()), b, before)
      ensures collected == old(artifacts).Keys - artifacts.Keys
    {
      ghost var stored := artifacts;
      collected := set b | b in artifacts && artifacts[b].lastReferenced < before
                           && !IsReferenced(Reference(b, artifacts[b].digest));
      assert forall b :: b in collected <==> B.Collectable(old(Tables()), b, before);
      var rest := collected;
      while rest != {}
        invariant rest <= collected
        invariant artifacts == map b | b in stored && (b !in collected || b in rest) :: stored[b]
        decreases rest
      {
        var b :| b in rest;
        if artifacts[b].lastReferenced < before && !IsReferenced(Reference(b, artifacts[b].digest)) {
          artifacts := artifacts - {b};
        }
        rest := rest - {b};
      }
    }

    method DeleteBuild(b: string) returns (outcome: Outcome)
      modifies this
      ensures (Tables(), outcome) == B.DeleteBuild(old(Tables()), b)
    {
      if b !in builds {
        return B.NotFound;
      }
      if builds[b].status == BuildAnalyzing || builds[b].status == BuildBuilding {
        return B.Conflict;
      }
      if builds[b].digest != "" && IsReferenced(Reference(b, builds[b].digest)) {
        return B.Conflict;
      }
      // ON DELETE CASCADE takes the events, plan, assignment and artifact along
      builds, events, plans := builds - {b}, events - {b}, plans - {b};
      assignments := map a | a in assignments && assignments[a].buildId != b :: assignments[a];
      artifacts := artifacts - {b};
      return B.Done;
    }
  }
}
