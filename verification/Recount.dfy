/** The snapshot of a pass against a recount from the store after it
    (internal/scheduler/scheduler.go:60-81, internal/capacity/capacity.go:27-53). */
module Recount {
  import opened Domain
  import opened Fleet
  import opened Capacity
  import opened Jobs
  import opened Ledger
  import opened Scheduling

  // ---------------------------------------------------------------- any number of reservations

  /** Each of the operations is a reservation, and each succeeds. */
  ghost predicate AllReserve(db: Db, rs: seq<Op>) {
    forall k :: 0 <= k < |rs| ==> rs[k].OpReserve? && Step(Run(db, rs[..k]), rs[k]).1 == Done
  }

  ghost function ResourcesOf(db: Db, j: string): Resources {
    if j in db.jobs then db.jobs[j].spec.resources else BLANK_SPEC.resources
  }

  /** The snapshot after reserving in it what was reserved in the store. */
  ghost function Reserved(snapshot: seq<Node>, db: Db, rs: seq<Op>): seq<Node>
    requires forall k :: 0 <= k < |rs| ==> rs[k].OpReserve?
  {
    if rs == [] then snapshot
    else
      var before, last := rs[..|rs| - 1], rs[|rs| - 1];
      ReserveAll(Reserved(snapshot, db, before), last.node, ResourcesOf(Run(db, before), last.j), GPUSet(last.gpus))
  }

  /** One of the reservations chose the GPU. */
  ghost predicate ChosenBy(rs: seq<Op>, m: string, uuid: string) {
    exists k :: 0 <= k < |rs| && rs[k].OpReserve? && rs[k].node == m && uuid in rs[k].gpus
  }

  /** An assignment row of one of the reserved jobs, made before the pass, names the GPU. */
  ghost predicate NamedBefore(db: Db, rs: seq<Op>, m: string, uuid: string) {
    exists k :: 0 <= k < |rs| && rs[k].OpReserve? && RowOf(db, rs[k].j, m, uuid)
  }

  ghost predicate PassCovered(db: Db, rs: seq<Op>, node: Node) {
    forall g :: 0 <= g < |node.gpus| && NamedBefore(db, rs, node.id, node.gpus[g].uuid) ==>
      AllocatedOn(db, node.id, node.gpus[g].uuid) || ChosenBy(rs, node.id, node.gpus[g].uuid)
  }

  lemma ReserveKeepsRows(db: Db, j: string, n: string, attempt: string, assignment: string, token: string, gpus: seq<string>,
                         k: string, m: string, uuid: string)
    requires Reserve(db, j, n, attempt, assignment, token, gpus).1 == Done
    ensures RowOf(Reserve(db, j, n, attempt, assignment, token, gpus).0, k, m, uuid)
            <==> RowOf(db, k, m, uuid) || (k == j && m == n && uuid in gpus)
  {
    hide MaxOf, Numbers;
    var db' := Reserve(db, j, n, attempt, assignment, token, gpus).0;
    if RowOf(db, k, m, uuid) {
      var a :| a in db.assignments && db.assignments[a].job == k && db.assignments[a].node == m && uuid in db.assignments[a].gpus;
      assert db'.assignments[a] == db.assignments[a];
    }
    if k == j && m == n && uuid in gpus {
      assert db'.assignments[assignment] == Assignment(j, attempt, n, gpus);
    }
  }

  lemma ChosenMore(rs: seq<Op>, last: Op, m: string, uuid: string)
    requires last.OpReserve?
    ensures ChosenBy(rs + [last], m, uuid) <==> ChosenBy(rs, m, uuid) || (last.node == m && uuid in last.gpus)
  {
    var all := rs + [last];
    if ChosenBy(rs, m, uuid) {
      var k :| 0 <= k < |rs| && rs[k].OpReserve? && rs[k].node == m && uuid in rs[k].gpus;
      assert all[k] == rs[k];
    }
    assert all[|rs|] == last;
  }

  lemma NamedMore(db: Db, rs: seq<Op>, last: Op, m: string, uuid: string)
    requires last.OpReserve?
    ensures NamedBefore(db, rs + [last], m, uuid) <==> NamedBefore(db, rs, m, uuid) || RowOf(db, last.j, m, uuid)
  {
    hide RowOf;
    var all := rs + [last];
    if NamedBefore(db, rs, m, uuid) {
      var k :| 0 <= k < |rs| && rs[k].OpReserve? && RowOf(db, rs[k].j, m, uuid);
      assert all[k] == rs[k];
    }
    assert all[|rs|] == last;
  }

  lemma LastReserves(db: Db, rs: seq<Op>)
    requires rs != [] && AllReserve(db, rs)
    ensures var before, last := rs[..|rs| - 1], rs[|rs| - 1];
            && AllReserve(db, before) && rs == before + [last] && last.OpReserve? && IsHash(last.token)
            && Run(db, rs) == Reserve(Run(db, before), last.j, last.node, last.attempt, last.assignment, last.token, last.gpus).0
            && Reserve(Run(db, before), last.j, last.node, last.attempt, last.assignment, last.token, last.gpus).1 == Done
  {
    hide Reserve, IsHash, Run;
    var before, last := rs[..|rs| - 1], rs[|rs| - 1];
    forall k | 0 <= k < |before| ensures before[k].OpReserve? && Step(Run(db, before[..k]), before[k]).1 == Done {
      assert before[..k] == rs[..k] && before[k] == rs[k];
    }
    RunLast(db, rs);
    ReserveOutcomes(Run(db, before), last.j, last.node, last.attempt, last.assignment, last.token, last.gpus);
  }

  lemma RunLast(db: Db, rs: seq<Op>)
    requires rs != []
    ensures Run(db, rs) == Step(Run(db, rs[..|rs| - 1]), rs[|rs| - 1]).0
  {
  }

  /** What the store reports as allocated after the pass, and which rows it holds. */
  lemma {:induction false} PassAllocates(db: Db, rs: seq<Op>, m: string, uuid: string)
    requires AllReserve(db, rs)
    ensures AllocatedOn(Run(db, rs), m, uuid) <==> AllocatedOn(db, m, uuid) || ChosenBy(rs, m, uuid) || NamedBefore(db, rs, m, uuid)
    ensures forall j :: (RowOf(db, j, m, uuid) ==> RowOf(Run(db, rs), j, m, uuid))
                        && (RowOf(Run(db, rs), j, m, uuid) ==> RowOf(db, j, m, uuid) || ChosenBy(rs, m, uuid))
    decreases |rs|
  {
    if rs != [] {
      hide AllocatedOn, RowOf, Reserve, Run, ChosenBy, NamedBefore, AllReserve;
      var before, last := rs[..|rs| - 1], rs[|rs| - 1];
      LastReserves(db, rs);
      PassAllocates(db, before, m, uuid);
      ChosenMore(before, last, m, uuid);
      NamedMore(db, before, last, m, uuid);
      ReserveAllocates(Run(db, before), last.j, last.node, last.attempt, last.assignment, last.token, last.gpus, m, uuid);
      forall j
        ensures RowOf(Run(db, rs), j, m, uuid)
                <==> RowOf(Run(db, before), j, m, uuid) || (j == last.j && m == last.node && uuid in last.gpus)
      {
        ReserveKeepsRows(Run(db, before), last.j, last.node, last.attempt, last.assignment, last.token, last.gpus, j, m, uuid);
      }
    }
  }

  /** The pass as reservations on the list of jobs. */
  lemma {:induction false} AsReservations(db: Db, rs: seq<Op>, snapshot: seq<Node>) returns (vs: seq<Reservation>)
    requires Inv(db) && AllReserve(db, rs)
    ensures Inv(Run(db, rs)) && ReservesMany(Listing(db.jobs, db.order), vs)
    ensures CommitMany(Listing(db.jobs, db.order), vs) == Listing(Run(db, rs).jobs, Run(db, rs).order)
    ensures ReserveMany(snapshot, vs) == Reserved(snapshot, db, rs)
    ensures |vs| == |rs| && forall k :: 0 <= k < |rs| ==> vs[k].node == rs[k].node && vs[k].chosen == GPUSet(rs[k].gpus)
    decreases |rs|
  {
    hide *;
    if rs == [] {
      vs := [];
      NoReservations(db, snapshot);
    } else {
      var before, last := rs[..|rs| - 1], rs[|rs| - 1];
      var mid := Run(db, before);
      BeforeReserves(db, rs);
      var init := AsReservations(db, before, snapshot);
      var v := NextReservation(db, rs);
      vs := init + [v];
      OneMoreReservation(Listing(db.jobs, db.order), Listing(mid.jobs, mid.order), init, v);
      ReservedLast(db, rs, snapshot, mid);
    }
  }

  lemma NoReservations(db: Db, snapshot: seq<Node>)
    ensures Run(db, []) == db && ReserveMany(snapshot, []) == Reserved(snapshot, db, []) && ReservesMany(Listing(db.jobs, db.order), [])
    ensures CommitMany(Listing(db.jobs, db.order), []) == Listing(db.jobs, db.order)
  {
  }

  lemma BeforeReserves(db: Db, rs: seq<Op>)
    requires rs != [] && AllReserve(db, rs)
    ensures AllReserve(db, rs[..|rs| - 1]) && forall k :: 0 <= k < |rs| ==> rs[k].OpReserve?
  {
    LastReserves(db, rs);
    hide Run, Reserve;
  }

  /** The last reservation of the pass, on the list of jobs as it was before. */
  lemma NextReservation(db: Db, rs: seq<Op>) returns (v: Reservation)
    requires rs != [] && AllReserve(db, rs) && Inv(Run(db, rs[..|rs| - 1]))
    ensures rs[|rs| - 1].OpReserve? && v.node == rs[|rs| - 1].node && v.chosen == GPUSet(rs[|rs| - 1].gpus)
    ensures var mid, now := Run(db, rs[..|rs| - 1]), Run(db, rs);
            && Inv(now) && Reserves(Listing(mid.jobs, mid.order), v) && v.index < |Listing(mid.jobs, mid.order)|
            && Listing(now.jobs, now.order) == Commit(Listing(mid.jobs, mid.order), v)
            && v.job.spec.resources == ResourcesOf(mid, rs[|rs| - 1].j)
  {
    hide Inv, Reserve, Run, Listing, AllReserve, Reserves, Commit, GPUSet, IsHash;
    var mid, last := Run(db, rs[..|rs| - 1]), rs[|rs| - 1];
    LastReserves(db, rs);
    v := AsReservation(mid, last.j, last.node, last.attempt, last.assignment, last.token, last.gpus);
    ReserveKeeps(mid, last.j, last.node, last.attempt, last.assignment, last.token, last.gpus);
    InRange(Listing(mid.jobs, mid.order), v);
  }

  lemma OneMoreReservation(jobs: seq<Job>, now: seq<Job>, init: seq<Reservation>, v: Reservation)
    requires ReservesMany(jobs, init) && CommitMany(jobs, init) == now && Reserves(now, v)
    ensures ReservesMany(jobs, init + [v]) && CommitMany(jobs, init + [v]) == Commit(now, v)
    ensures forall snapshot :: ReserveMany(snapshot, init + [v])
                               == ReserveAll(ReserveMany(snapshot, init), v.node, v.job.spec.resources, v.chosen)
  {
    assert (init + [v])[..|init|] == init;
    InRange(now, v);
    hide ReserveAll, Reserves, Commit;
  }

  lemma ReservedLast(db: Db, rs: seq<Op>, snapshot: seq<Node>, mid: Db)
    requires rs != [] && (forall k :: 0 <= k < |rs| ==> rs[k].OpReserve?) && mid == Run(db, rs[..|rs| - 1])
    ensures var last := rs[|rs| - 1];
            Reserved(snapshot, db, rs)
            == ReserveAll(Reserved(snapshot, db, rs[..|rs| - 1]), last.node, ResourcesOf(mid, last.j), GPUSet(last.gpus))
  {
    hide ReserveAll, Run;
  }

  lemma InRange(jobs: seq<Job>, v: Reservation)
    requires Reserves(jobs, v)
    ensures v.index < |jobs|
  {
  }

  lemma {:induction false} ClaimedByPass(allocations: map<string, set<string>>, vs: seq<Reservation>, rs: seq<Op>, m: string, uuid: string)
    requires |vs| == |rs|
    requires forall k :: 0 <= k < |rs| ==> rs[k].OpReserve? && vs[k].node == rs[k].node && vs[k].chosen == GPUSet(rs[k].gpus)
    ensures uuid in Taken(ClaimedMany(allocations, vs), m) <==> uuid in Taken(allocations, m) || ChosenBy(rs, m, uuid)
    decreases |vs|
  {
    if vs != [] {
      var n := |vs| - 1;
      ClaimedByPass(allocations, vs[..n], rs[..n], m, uuid);
      ChosenMore(rs[..n], rs[n], m, uuid);
      assert rs == rs[..n] + [rs[n]];
    }
  }

  /** After any number of successful reservations the snapshot of the pass equals a recount from
      the store up to GPU flags, and in the flags too exactly when, on every listed node, the
      GPUs named by earlier rows of the jobs reserved were allocated before or chosen since. */
  lemma {:induction false} PassRefinesStore(db: Db, rs: seq<Op>, nodes: seq<Node>, allocations: map<string, set<string>>,
                                            allocations': map<string, set<string>>)
    requires Inv(db) && AllReserve(db, rs) && Represents(allocations, db) && Represents(allocations', Run(db, rs))
    ensures var db' := Run(db, rs);
            var snapshot := Reserved(AccountAll(nodes, Listing(db.jobs, db.order), allocations), db, rs);
            var recount := AccountAll(nodes, Listing(db'.jobs, db'.order), allocations');
            && Unflagged(snapshot) == Unflagged(recount)
            && (snapshot == recount <==> forall i :: 0 <= i < |nodes| ==> PassCovered(db, rs, nodes[i]))
  {
    var jobs := Listing(db.jobs, db.order);
    var account := AccountAll(nodes, jobs, allocations);
    var vs := AsReservations(db, rs, account);
    hide Inv, Run, Listing, AccountAll, ReserveMany, Reserved, Represents, Unflagged, AgreeOn, PassCovered, ReservesMany,
         CommitMany, ClaimedMany, GPUSet;
    PassRefinesAccount(nodes, jobs, allocations, vs);
    AccountsAgreeIff(nodes, CommitMany(jobs, vs), ClaimedMany(allocations, vs), allocations');
    forall i | 0 <= i < |nodes| ensures AgreeOn(nodes[i], ClaimedMany(allocations, vs), allocations') <==> PassCovered(db, rs, nodes[i]) {
      PassCoveredIffAgree(db, rs, nodes[i], allocations, allocations', vs);
    }
  }

  lemma PassCoveredIffAgree(db: Db, rs: seq<Op>, node: Node, allocations: map<string, set<string>>, allocations': map<string, set<string>>,
                            vs: seq<Reservation>)
    requires AllReserve(db, rs) && Represents(allocations, db) && Represents(allocations', Run(db, rs)) && |vs| == |rs|
    requires forall k :: 0 <= k < |rs| ==> vs[k].node == rs[k].node && vs[k].chosen == GPUSet(rs[k].gpus)
    ensures AgreeOn(node, ClaimedMany(allocations, vs), allocations') <==> PassCovered(db, rs, node)
  {
    forall uuid
      ensures uuid in Taken(ClaimedMany(allocations, vs), node.id) <==> AllocatedOn(db, node.id, uuid) || ChosenBy(rs, node.id, uuid)
      ensures uuid in Taken(allocations', node.id)
              <==> AllocatedOn(db, node.id, uuid) || ChosenBy(rs, node.id, uuid) || NamedBefore(db, rs, node.id, uuid)
    {
      ClaimedByPass(allocations, vs, rs, node.id, uuid);
      PassAllocates(db, rs, node.id, uuid);
    }
    hide AllReserve, ChosenBy, NamedBefore, AllocatedOn, Run, Taken, ClaimedMany, Represents;
  }

  // ---------------------------------------------------------------- where the flags differ

  /** A job runs with GPU `u`, fails and is queued again. */
  function Rerunning(j: string, spec: JobSpec, n: string, report: Node, attempt: string, assignment: string, token: string,
                     u: string): seq<Op> {
    [OpUpsert(n, report, 0), OpCreate(j, spec), OpReserve(j, n, attempt, assignment, token, [u]),
     OpCommit(j, Assigned, attempt, Failed), OpRerun(j)]
  }

  lemma RunMore(db: Db, ops: seq<Op>, op: Op)
    ensures Run(db, ops + [op]) == Step(Run(db, ops), op).0
  {
    hide Step;
    assert (ops + [op])[..|ops|] == ops;
  }

  ghost function Shop(j: string, job: Job, attempts: map<string, Attempt>, assignments: map<string, Assignment>, n: string,
                      report: Node): Db {
    Db(map[j := job], [j], attempts, assignments, map[n := NodeRow(report.(id := n), 0, false, None)], {})
  }

  /** The job waits again, and its first assignment row is still there. */
  ghost function Rerun1(j: string, spec: JobSpec, n: string, report: Node, attempt: string, assignment: string, u: string): Db {
    Shop(j, Job(j, spec, Queued, Queued, None, None), map[attempt := Attempt(j, 1, n, assignment, [u], Failed, RevokedToken(attempt))],
         map[assignment := Assignment(j, attempt, n, [u])], n, report)
  }

  lemma RegisterAndCreate(j: string, spec: JobSpec, n: string, report: Node)
    requires ValidSpec(spec) && ValidNode(report)
    ensures Run(EMPTY, [OpUpsert(n, report, 0)] + [OpCreate(j, spec)])
            == Shop(j, Job(j, spec, Queued, Queued, None, None), map[], map[], n, report)
  {
    assert [OpUpsert(n, report, 0)] == [] + [OpUpsert(n, report, 0)];
    RunMore(EMPTY, [], OpUpsert(n, report, 0));
    RunMore(EMPTY, [OpUpsert(n, report, 0)], OpCreate(j, spec));
    hide ValidNode, ValidSpec;
  }

  lemma ReserveFirst(j: string, spec: JobSpec, n: string, report: Node, attempt: string, assignment: string, token: string, u: string)
    requires IsHash(token)
    ensures Step(Shop(j, Job(j, spec, Queued, Queued, None, None), map[], map[], n, report),
                 OpReserve(j, n, attempt, assignment, token, [u])).0
            == Shop(j, Job(j, spec, Assigned, Queued, Some(n), Some(attempt)),
                    map[attempt := Attempt(j, 1, n, assignment, [u], Assigned, token)],
                    map[assignment := Assignment(j, attempt, n, [u])], n, report)
  {
    assert Numbers(map[], j) == {};
    hide IsHash, Numbers;
  }

  lemma FailAndRerun(j: string, spec: JobSpec, n: string, report: Node, attempt: string, assignment: string, token: string, u: string)
    ensures var db := Shop(j, Job(j, spec, Assigned, Queued, Some(n), Some(attempt)),
                           map[attempt := Attempt(j, 1, n, assignment, [u], Assigned, token)],
                           map[assignment := Assignment(j, attempt, n, [u])], n, report);
            Step(Step(db, OpCommit(j, Assigned, attempt, Failed)).0, OpRerun(j)).0 == Rerun1(j, spec, n, report, attempt, assignment, u)
  {
    hide RevokedToken;
    assert CanTransition(Assigned, Failed);
  }

  lemma RerunLeavesRow(j: string, spec: JobSpec, n: string, report: Node, attempt: string, assignment: string, token: string, u: string)
    requires ValidSpec(spec) && ValidNode(report) && IsHash(token)
    ensures Run(EMPTY, Rerunning(j, spec, n, report, attempt, assignment, token, u)) == Rerun1(j, spec, n, report, attempt, assignment, u)
  {
    var ops := Rerunning(j, spec, n, report, attempt, assignment, token, u);
    assert ops[..2] == [ops[0]] + [ops[1]] && ops[..3] == ops[..2] + [ops[2]];
    assert ops[..4] == ops[..3] + [ops[3]] && ops == ops[..4] + [ops[4]];
    RegisterAndCreate(j, spec, n, report);
    ReserveFirst(j, spec, n, report, attempt, assignment, token, u);
    FailAndRerun(j, spec, n, report, attempt, assignment, token, u);
    hide Step, Run, Shop;
    RunMore(EMPTY, ops[..2], ops[2]);
    RunMore(EMPTY, ops[..3], ops[3]);
    RunMore(EMPTY, ops[..4], ops[4]);
  }

  /** The flags do differ: placed without the GPU of its first run, the job leaves that GPU free in
      the snapshot, while a recount reports it allocated. */
  lemma FlagsDifferAfterRerun(j: string, spec: JobSpec, n: string, report: Node, attempt: string, assignment: string, token: string,
                              u: string, attempt2: string, assignment2: string, token2: string, gpus: seq<string>, g: nat,
                              allocations: map<string, set<string>>, allocations': map<string, set<string>>)
    requires ValidSpec(spec) && ValidNode(report) && IsHash(token) && IsHash(token2)
    requires attempt2 != attempt && assignment2 != assignment && u !in gpus
    requires g < |report.gpus| && report.gpus[g].uuid == u
    requires var db := Run(EMPTY, Rerunning(j, spec, n, report, attempt, assignment, token, u));
             Represents(allocations, db)
             && Represents(allocations', Reserve(db, j, n, attempt2, assignment2, token2, gpus).0)
    ensures var db := Run(EMPTY, Rerunning(j, spec, n, report, attempt, assignment, token, u));
            var reserved := Reserve(db, j, n, attempt2, assignment2, token2, gpus);
            var nodes := [Blank(report.(id := n))];
            && reserved.1 == Done
            && ReserveAll(AccountAll(nodes, Listing(db.jobs, db.order), allocations), n, spec.resources, GPUSet(gpus))
               != AccountAll(nodes, Listing(reserved.0.jobs, reserved.0.order), allocations')
  {
    var ops := Rerunning(j, spec, n, report, attempt, assignment, token, u);
    var db := Run(EMPTY, ops);
    EmptyInv();
    RunKeepsInv(EMPTY, ops);
    RerunLeavesRow(j, spec, n, report, attempt, assignment, token, u);
    hide Run, Rerunning;
    StaleRow(j, spec, n, report, attempt, assignment, u, attempt2, assignment2, token2, gpus);
    var node := Blank(report.(id := n));
    assert node.gpus[g].uuid == u && node.id == n;
    assert !RowsCovered(db, j, n, gpus, node);
    assert db.jobs[j].spec == spec;
    hide Reserve, Rerun1, Shop, RowsCovered, Blank, AllocatedOn, RowOf, Inv;
    SnapshotRefinesStore(db, j, n, attempt2, assignment2, token2, gpus, [node], allocations, allocations');
    assert [node][0] == node;
  }

  lemma StaleRow(j: string, spec: JobSpec, n: string, report: Node, attempt: string, assignment: string, u: string,
                 attempt2: string, assignment2: string, token2: string, gpus: seq<string>)
    requires attempt2 != attempt && assignment2 != assignment && IsHash(token2)
    ensures var db := Rerun1(j, spec, n, report, attempt, assignment, u);
            && RowOf(db, j, n, u) && !AllocatedOn(db, n, u)
            && Reserve(db, j, n, attempt2, assignment2, token2, gpus).1 == Done
  {
    var db := Rerun1(j, spec, n, report, attempt, assignment, u);
    assert db.assignments[assignment].job == j;
    RevokedIsNoHash(attempt);
    hide IsHash, RevokedToken, Numbers, MaxOf;
  }
}
