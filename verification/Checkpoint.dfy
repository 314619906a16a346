/** Checkpoint transfer: the server's offset-checked, quota-limited append and its atomic
    promotion (internal/filestore/filestore.go:819-952), and the client that uploads a
    directory over a faulty network (internal/agent/agent.go:795-866). */
module Checkpoint {

  type Bytes = seq<bv8>

  /** A file of one checkpoint synchronisation. */
  datatype Key = Key(sync: string, path: string)

  /** The job's directories: bytes of output, promoted generations, and files being staged. */
  datatype Store = Store(limit: int, output: nat, generations: set<string>, promoted: map<Key, Bytes>, staging: map<Key, Bytes>)

  datatype Result = Accepted | Mismatch | LimitExceeded | Broken

  const CHUNK := 0x10_0000

  // ---------------------------------------------------------------- sizes

  ghost function SizeOf(files: map<Key, Bytes>): nat {
    if files == map[] then 0
    else
      var k :| k in files;
      |files[k]| + SizeOf(files - {k})
  }

  lemma {:induction false} SizeOfWithout(files: map<Key, Bytes>, k: Key)
    requires k in files
    ensures SizeOf(files) == |files[k]| + SizeOf(files - {k})
    decreases |files|
  {
    var x :| x in files && SizeOf(files) == |files[x]| + SizeOf(files - {x});
    if x != k {
      SizeOfWithout(files - {x}, k);
      SizeOfWithout(files - {k}, x);
      assert files - {x} - {k} == files - {k} - {x};
    }
  }

  lemma SizeOfUpdate(files: map<Key, Bytes>, k: Key, v: Bytes)
    ensures SizeOf(files[k := v]) == SizeOf(files) - (if k in files then |files[k]| else 0) + |v|
  {
    SizeOfWithout(files[k := v], k);
    if k in files {
      SizeOfWithout(files, k);
      assert files[k := v] - {k} == files - {k};
    } else {
      assert files[k := v] - {k} == files;
    }
  }

  lemma UnionWithout(a: map<Key, Bytes>, b: map<Key, Bytes>, k: Key)
    requires a.Keys !! b.Keys && k in b
    ensures a.Keys !! (b - {k}).Keys && k in a + b
    ensures (a + b) - {k} == a + (b - {k}) && (a + b)[k] == b[k]
  {
  }

  lemma {:induction false} SizeOfUnion(a: map<Key, Bytes>, b: map<Key, Bytes>)
    requires a.Keys !! b.Keys
    ensures SizeOf(a + b) == SizeOf(a) + SizeOf(b)
    decreases |b|, 1
  {
    if b == map[] {
      assert a + b == a;
    } else {
      var k :| k in b;
      OneMore(a, b, k);
    }
  }

  lemma {:induction false} OneMore(a: map<Key, Bytes>, b: map<Key, Bytes>, k: Key)
    requires a.Keys !! b.Keys && k in b
    ensures SizeOf(a + b) == SizeOf(a) + SizeOf(b)
    decreases |b|, 0
  {
    hide SizeOf;
    UnionWithout(a, b, k);
    SizeOfWithout(b, k);
    SizeOfWithout(a + b, k);
    SizeOfUnion(a, b - {k});
  }

  ghost function Used(store: Store): nat {
    store.output + SizeOf(store.promoted) + SizeOf(store.staging)
  }

  // ---------------------------------------------------------------- the server

  function StagedBytes(store: Store, k: Key): Bytes {
    if k in store.staging then store.staging[k] else []
  }

  function AtMost(a: nat, b: nat): nat {
    if a < b then a else b
  }

  /** One upload request.  `delivered` is what could be read of its body; `failed` says that
      reading it ended in an error.  The copy stops one byte beyond what the quota leaves, so an
      error behind that byte is never seen; one reported together with that byte is.  The file
      is created even when nothing is written. */
  ghost function Append(store: Store, k: Key, offset: nat, delivered: Bytes, failed: bool): (Store, nat, Result) {
    var now := StagedBytes(store, k);
    var created := store.(staging := store.staging[k := now]);
    if |now| != offset then (created, |now|, Mismatch)
    else
      var remaining := store.limit - Used(store);
      if remaining <= 0 then (created, offset, LimitExceeded)
      else
        var written := AtMost(|delivered|, remaining + 1);
        if failed && |delivered| <= remaining + 1 then
          (store.(staging := store.staging[k := now + delivered[..written]]), offset + written, Broken)
        else if written > remaining then
          (store.(staging := store.staging[k := now + delivered[..remaining]]), offset + remaining, LimitExceeded)
        else (store.(staging := store.staging[k := now + delivered]), offset + written, Accepted)
  }

  ghost predicate Matches(store: Store, sync: string, manifest: map<string, nat>) {
    && (forall p :: p in manifest ==> Key(sync, p) in store.staging && |store.staging[Key(sync, p)]| == manifest[p])
    && (forall k :: k in store.staging && k.sync == sync ==> k.path in manifest)
  }

  function OfSync(files: map<Key, Bytes>, sync: string): map<Key, Bytes> {
    map k | k in files && k.sync == sync :: files[k]
  }

  function NotOfSync(files: map<Key, Bytes>, sync: string): map<Key, Bytes> {
    map k | k in files && k.sync != sync :: files[k]
  }

  /** Promotion of a staged generation, if it is what the manifest says. */
  ghost function Confirm(store: Store, sync: string, manifest: map<string, nat>): (Store, bool) {
    if sync in store.generations then (store, true)
    else if !Matches(store, sync, manifest) then (store, false)
    else
      (store.(generations := store.generations + {sync}, promoted := store.promoted + OfSync(store.staging, sync),
              staging := NotOfSync(store.staging, sync)), true)
  }

  ghost predicate StoreOk(store: Store) {
    forall k :: k in store.promoted ==> k.sync in store.generations
  }

  /** The read fails together with exactly the first byte that the quota does not leave room for. */
  ghost predicate FailsBeyondLimit(store: Store, k: Key, offset: nat, delivered: Bytes, failed: bool) {
    && failed && offset == |StagedBytes(store, k)| && Used(store) < store.limit
    && |delivered| == store.limit - Used(store) + 1
  }

  /** From within the quota, an append stays within it if and only if it does not fail in that
      way; beyond the quota it changes no total. */
  lemma AppendRespectsLimit(store: Store, k: Key, offset: nat, delivered: Bytes, failed: bool)
    ensures var after := Append(store, k, offset, delivered, failed).0;
            && (Used(store) <= store.limit ==> (Used(after) <= store.limit <==> !FailsBeyondLimit(store, k, offset, delivered, failed)))
            && (Used(store) > store.limit ==> Used(after) == Used(store))
            && (Used(after) > store.limit ==> Used(after) == Used(store) || Used(after) == store.limit + 1)
  {
    var now := StagedBytes(store, k);
    SizeOfUpdate(store.staging, k, now);
    SizeOfUpdate(store.staging, k, StagedBytes(Append(store, k, offset, delivered, failed).0, k));
  }

  /** Then one byte more than the quota allows stays behind. */
  lemma OneByteBeyondLimit(store: Store, k: Key, delivered: Bytes)
    requires Used(store) < store.limit && |delivered| == store.limit - Used(store) + 1
    ensures Used(Append(store, k, |StagedBytes(store, k)|, delivered, true).0) == store.limit + 1
  {
    SizeOfUpdate(store.staging, k, StagedBytes(store, k) + delivered);
    assert delivered[..|delivered|] == delivered;
  }

  /** Promotion moves files and changes no total; confirming again changes nothing. */
  lemma ConfirmConserves(store: Store, sync: string, manifest: map<string, nat>)
    requires StoreOk(store)
    ensures var after := Confirm(store, sync, manifest).0;
            StoreOk(after) && Used(after) == Used(store) && Confirm(after, sync, manifest).0 == after
  {
    var mine, rest := OfSync(store.staging, sync), NotOfSync(store.staging, sync);
    if sync !in store.generations && Matches(store, sync, manifest) {
      SizeOfUnion(store.promoted, mine);
      SizeOfUnion(rest, mine);
      assert rest + mine == store.staging;
    }
  }

  /** A promoted generation never changes again. */
  lemma GenerationsAreImmutable(store: Store, sync: string, k: Key, offset: nat, delivered: Bytes, failed: bool, other: string,
                                manifest: map<string, nat>)
    requires StoreOk(store) && sync in store.generations
    ensures OfSync(Append(store, k, offset, delivered, failed).0.promoted, sync) == OfSync(store.promoted, sync)
    ensures OfSync(Confirm(store, other, manifest).0.promoted, sync) == OfSync(store.promoted, sync)
    ensures sync in Append(store, k, offset, delivered, failed).0.generations && sync in Confirm(store, other, manifest).0.generations
  {
    AppendKeepsPromoted(store, k, offset, delivered, failed);
    hide Append, Confirm, OfSync;
    ConfirmKeepsGeneration(store, sync, other, manifest);
  }

  lemma AppendKeepsPromoted(store: Store, k: Key, offset: nat, delivered: Bytes, failed: bool)
    ensures var after := Append(store, k, offset, delivered, failed).0;
            after.promoted == store.promoted && after.generations == store.generations
  {
    hide Used;
  }

  lemma ConfirmKeepsGeneration(store: Store, sync: string, other: string, manifest: map<string, nat>)
    requires StoreOk(store) && sync in store.generations
    ensures OfSync(Confirm(store, other, manifest).0.promoted, sync) == OfSync(store.promoted, sync)
    ensures sync in Confirm(store, other, manifest).0.generations
  {
    hide Matches;
    var more := OfSync(store.staging, other);
    if other != sync {
      assert forall k :: k in more ==> k.sync == other;
      assert OfSync(store.promoted + more, sync) == OfSync(store.promoted, sync);
    }
  }

  // ---------------------------------------------------------------- one synchronisation under faults

  datatype Request = Request(path: string, offset: nat, body: Bytes)

  datatype Reply = Reply(request: Request, next: nat, ok: bool)

  datatype Client = Uploading(at: nat, offset: nat) | Stopped

  /** The store, every request and reply ever sent, the client, and whether the client has
      asked for confirmation. */
  datatype World = World(store: Store, sent: set<Request>, replies: set<Reply>, client: Client, asked: bool)

  /** What is transferred: the files of the directory in the order walked, with their contents. */
  datatype Job = Job(sync: string, files: seq<string>, source: map<string, Bytes>)

  ghost predicate JobOk(job: Job) {
    forall p :: p in job.files <==> p in job.source
  }

  /** Requests may be delivered late, repeatedly, or in part; replies may arrive late or never. */
  datatype Step =
    | Begin
    | Send
    | Deliver(request: Request, taken: nat, failed: bool)
    | Receive(reply: Reply)
    | GiveUp
    | NextFile
    | Ask
    | Promote
    | Others(store: Store)

  function Sizes(source: map<string, Bytes>): map<string, nat> {
    map p | p in source :: |source[p]|
  }

  function CurrentRequest(job: Job, at: nat, offset: nat): Request
    requires at < |job.files| && job.files[at] in job.source && offset <= |job.source[job.files[at]]|
  {
    var data := job.source[job.files[at]];
    Request(job.files[at], offset, data[offset..offset + AtMost(CHUNK, |data| - offset)])
  }

  predicate CanSend(job: Job, client: Client) {
    && client.Uploading? && client.at < |job.files| && job.files[client.at] in job.source
    && client.offset < |job.source[job.files[client.at]]|
  }

  /** The rest of the server touches neither this synchronisation's files nor its generation. */
  ghost predicate LeavesAlone(store: Store, store': Store, sync: string) {
    && (sync in store.generations <==> sync in store'.generations)
    && OfSync(store'.promoted, sync) == OfSync(store.promoted, sync)
    && OfSync(store'.staging, sync) == OfSync(store.staging, sync)
  }

  /** The reply to an upload: a read error is answered without an offset. */
  function ReplyTo(request: Request, next: nat, result: Result): Reply {
    Reply(request, if result == Broken then 0 else next, result == Accepted)
  }

  ghost function Take(job: Job, w: World, step: Step): World {
    match step
    case Begin => w.(client := Uploading(0, 0))
    case Send =>
      if CanSend(job, w.client) then w.(sent := w.sent + {CurrentRequest(job, w.client.at, w.client.offset)}) else w
    case Deliver(request, taken, failed) =>
      if request in w.sent && taken <= |request.body| && (!failed ==> taken == |request.body|) then
        var done := Append(w.store, Key(job.sync, request.path), request.offset, request.body[..taken], failed);
        w.(store := done.0, replies := w.replies + {ReplyTo(request, done.1, done.2)})
      else w
    case Receive(reply) =>
      if reply in w.replies && CanSend(job, w.client) && reply.request == CurrentRequest(job, w.client.at, w.client.offset)
         && (reply.ok || reply.next > w.client.offset)
      then
        if reply.next <= w.client.offset || reply.next > |job.source[reply.request.path]| then w.(client := Stopped)
        else w.(client := Uploading(w.client.at, reply.next))
      else w
    case GiveUp => w.(client := Stopped)
    case NextFile =>
      if w.client.Uploading? && w.client.at < |job.files| && job.files[w.client.at] in job.source
         && w.client.offset == |job.source[job.files[w.client.at]]|
      then w.(client := Uploading(w.client.at + 1, 0)) else w
    case Ask => if w.client.Uploading? && w.client.at == |job.files| then w.(asked := true) else w
    case Promote => if w.asked then w.(store := Confirm(w.store, job.sync, Sizes(job.source)).0) else w
    case Others(store) => if LeavesAlone(w.store, store, job.sync) then w.(store := store) else w
  }

  ghost function Run(job: Job, w: World, steps: seq<Step>): World
    decreases |steps|
  {
    if steps == [] then w else Take(job, Run(job, w, steps[..|steps| - 1]), steps[|steps| - 1])
  }

  // ---------------------------------------------------------------- the invariant

  /** Every staged file is a prefix of its source file, and no empty file is staged. */
  ghost predicate StagedOk(job: Job, store: Store) {
    forall p :: Key(job.sync, p) in store.staging ==>
      p in job.source && job.source[p] != [] && store.staging[Key(job.sync, p)] <= job.source[p]
  }

  /** The promoted generation, once there, is the source. */
  ghost predicate PromotedOk(job: Job, store: Store) {
    forall p :: (Key(job.sync, p) in store.promoted <==> job.sync in store.generations && p in job.source)
                && (Key(job.sync, p) in store.promoted ==> store.promoted[Key(job.sync, p)] == job.source[p])
  }

  /** The first `n` bytes of the file are staged, or all is promoted. */
  ghost predicate Durable(job: Job, store: Store, p: string, n: nat) {
    job.sync in store.generations || n <= |StagedBytes(store, Key(job.sync, p))|
  }

  ghost predicate RequestOk(job: Job, r: Request) {
    && r.path in job.source && r.body != [] && r.offset + |r.body| <= |job.source[r.path]|
    && r.body == job.source[r.path][r.offset..r.offset + |r.body|]
  }

  ghost predicate ReplyOk(job: Job, store: Store, r: Reply) {
    Durable(job, store, r.request.path, r.next)
  }

  function Length(job: Job, p: string): nat {
    if p in job.source then |job.source[p]| else 0
  }

  ghost predicate ClientOk(job: Job, store: Store, client: Client) {
    client.Uploading? ==>
      && client.at <= |job.files|
      && (forall i :: 0 <= i < client.at ==> Durable(job, store, job.files[i], Length(job, job.files[i])))
      && (client.at < |job.files| ==>
            client.offset <= Length(job, job.files[client.at]) && Durable(job, store, job.files[client.at], client.offset))
  }

  ghost predicate AllDurable(job: Job, store: Store) {
    forall p :: p in job.source ==> Durable(job, store, p, |job.source[p]|)
  }

  ghost predicate WorldOk(job: Job, w: World) {
    && JobOk(job) && StagedOk(job, w.store) && PromotedOk(job, w.store)
    && (forall r :: r in w.sent ==> RequestOk(job, r))
    && (forall r :: r in w.replies ==> ReplyOk(job, w.store, r))
    && ClientOk(job, w.store, w.client)
    && (w.asked ==> AllDurable(job, w.store))
  }

  /** What was durable stays durable. */
  ghost predicate Advances(job: Job, store: Store, store': Store) {
    forall p, n :: Durable(job, store, p, n) ==> Durable(job, store', p, n)
  }

  lemma AdvanceKeeps(job: Job, w: World, store': Store)
    requires WorldOk(job, w) && Advances(job, w.store, store') && StagedOk(job, store') && PromotedOk(job, store')
    ensures WorldOk(job, w.(store := store'))
  {
  }

  lemma AppendExtends(job: Job, store: Store, r: Request, taken: nat, failed: bool)
    requires StagedOk(job, store) && RequestOk(job, r) && taken <= |r.body|
    ensures var k := Key(job.sync, r.path);
            var done := Append(store, k, r.offset, r.body[..taken], failed);
            && done.0 == store.(staging := store.staging[k := StagedBytes(done.0, k)])
            && StagedBytes(store, k) <= StagedBytes(done.0, k) <= job.source[r.path]
            && done.1 <= |StagedBytes(done.0, k)|
  {
    hide Used;
    var k := Key(job.sync, r.path);
    var now, data := StagedBytes(store, k), job.source[r.path];
    var done := Append(store, k, r.offset, r.body[..taken], failed);
    assert now <= data;
    if |now| == r.offset {
      var grown := StagedBytes(done.0, k);
      assert now == data[..r.offset];
      forall i | 0 <= i < |grown| ensures grown[i] == data[i] {
        if i >= r.offset {
          assert grown[i] == r.body[i - r.offset];
        }
      }
    }
  }

  lemma {:induction false} DeliverKeeps(job: Job, w: World, r: Request, taken: nat, failed: bool)
    requires WorldOk(job, w) && r in w.sent && taken <= |r.body|
    ensures WorldOk(job, Take(job, w, Deliver(r, taken, failed)))
  {
    assert RequestOk(job, r);
    var k := Key(job.sync, r.path);
    var done := Append(w.store, k, r.offset, r.body[..taken], failed);
    AppendExtends(job, w.store, r, taken, failed);
    hide Append;
    assert Advances(job, w.store, done.0);
    assert PromotedOk(job, done.0);
    AdvanceKeeps(job, w, done.0);
    hide StagedOk, PromotedOk, RequestOk, ClientOk, AllDurable, JobOk;
    assert ReplyOk(job, done.0, ReplyTo(r, done.1, done.2));
  }

  lemma PromoteKeeps(job: Job, w: World)
    requires WorldOk(job, w) && w.asked
    ensures WorldOk(job, w.(store := Confirm(w.store, job.sync, Sizes(job.source)).0))
  {
    var store' := Confirm(w.store, job.sync, Sizes(job.source)).0;
    PromotionIsSource(job, w.store);
    AdvanceKeeps(job, w, store');
  }

  lemma PromotionIsSource(job: Job, store: Store)
    requires StagedOk(job, store) && PromotedOk(job, store)
    ensures var store' := Confirm(store, job.sync, Sizes(job.source)).0;
            Advances(job, store, store') && StagedOk(job, store') && PromotedOk(job, store')
  {
  }

  lemma OthersKeep(job: Job, w: World, store': Store)
    requires WorldOk(job, w) && LeavesAlone(w.store, store', job.sync)
    ensures WorldOk(job, w.(store := store'))
  {
    forall p ensures Key(job.sync, p) in store'.staging <==> Key(job.sync, p) in w.store.staging {
      assert Key(job.sync, p) in OfSync(store'.staging, job.sync) <==> Key(job.sync, p) in store'.staging;
    }
    forall p ensures Key(job.sync, p) in store'.promoted <==> Key(job.sync, p) in w.store.promoted {
      assert Key(job.sync, p) in OfSync(store'.promoted, job.sync) <==> Key(job.sync, p) in store'.promoted;
    }
    forall p | Key(job.sync, p) in store'.staging ensures store'.staging[Key(job.sync, p)] == w.store.staging[Key(job.sync, p)] {
      assert OfSync(store'.staging, job.sync)[Key(job.sync, p)] == OfSync(w.store.staging, job.sync)[Key(job.sync, p)];
    }
    forall p | Key(job.sync, p) in store'.promoted ensures store'.promoted[Key(job.sync, p)] == w.store.promoted[Key(job.sync, p)] {
      assert OfSync(store'.promoted, job.sync)[Key(job.sync, p)] == OfSync(w.store.promoted, job.sync)[Key(job.sync, p)];
    }
    hide LeavesAlone, OfSync;
    AdvanceKeeps(job, w, store');
  }

  lemma TakeKeepsOk(job: Job, w: World, step: Step)
    requires WorldOk(job, w)
    ensures WorldOk(job, Take(job, w, step))
  {
    hide StagedOk, PromotedOk, AllDurable, LeavesAlone, Append, Confirm;
    match step
    case Deliver(request, taken, failed) =>
      if request in w.sent && taken <= |request.body| {
        DeliverKeeps(job, w, request, taken, failed);
      }
    case Promote =>
      if w.asked {
        PromoteKeeps(job, w);
      }
    case Others(store) =>
      if LeavesAlone(w.store, store, job.sync) {
        OthersKeep(job, w, store);
      }
    case Ask => AskKeeps(job, w);
    case _ => ClientKeeps(job, w, step);
  }

  lemma AskKeeps(job: Job, w: World)
    requires WorldOk(job, w)
    ensures WorldOk(job, Take(job, w, Ask))
  {
  }

  lemma ClientKeeps(job: Job, w: World, step: Step)
    requires WorldOk(job, w) && (step.Begin? || step.Send? || step.Receive? || step.GiveUp? || step.NextFile?)
    ensures WorldOk(job, Take(job, w, step))
  {
    hide StagedOk, PromotedOk, AllDurable;
    if step.Receive? && step.reply in w.replies {
      assert ReplyOk(job, w.store, step.reply);
    }
    assert forall i :: 0 <= i < |job.files| ==> job.files[i] in job.source;
  }

  lemma {:induction false} RunKeepsOk(job: Job, w: World, steps: seq<Step>)
    requires WorldOk(job, w)
    ensures WorldOk(job, Run(job, w, steps))
    decreases |steps|
  {
    hide WorldOk, Take;
    if steps != [] {
      RunKeepsOk(job, w, steps[..|steps| - 1]);
      TakeKeepsOk(job, Run(job, w, steps[..|steps| - 1]), steps[|steps| - 1]);
    }
  }

  // ---------------------------------------------------------------- main results

  /** Nothing of this synchronisation has happened yet. */
  ghost predicate Fresh(job: Job, w: World) {
    && JobOk(job) && job.sync !in w.store.generations
    && (forall k :: k in w.store.promoted || k in w.store.staging ==> k.sync != job.sync)
    && w.sent == {} && w.replies == {} && w.client == Uploading(0, 0) && !w.asked
  }

  lemma FreshIsOk(job: Job, w: World)
    requires Fresh(job, w)
    ensures WorldOk(job, w)
  {
  }

  /** Under any loss, delay, duplication or partial delivery, staged files are prefixes of the
      source files, and a promoted generation is exactly the source. */
  lemma {:induction false} TransferIsFaithful(job: Job, w: World, steps: seq<Step>, p: string)
    requires Fresh(job, w)
    ensures var store := Run(job, w, steps).store;
            && (Key(job.sync, p) in store.staging ==> p in job.source && store.staging[Key(job.sync, p)] <= job.source[p])
            && (job.sync in store.generations ==> (Key(job.sync, p) in store.promoted <==> p in job.source))
            && (Key(job.sync, p) in store.promoted ==>
                  job.sync in store.generations && p in job.source && store.promoted[Key(job.sync, p)] == job.source[p])
  {
    FreshIsOk(job, w);
    RunKeepsOk(job, w, steps);
    hide Run;
  }

  /** Once the client has uploaded everything, confirmation succeeds exactly when no source
      file is empty: the client never sends an empty file. */
  lemma ConfirmedIffNoEmptyFile(job: Job, w: World, steps: seq<Step>)
    requires Fresh(job, w) && Run(job, w, steps).asked
    ensures Confirm(Run(job, w, steps).store, job.sync, Sizes(job.source)).1 <==> forall p :: p in job.source ==> job.source[p] != []
  {
    FreshIsOk(job, w);
    RunKeepsOk(job, w, steps);
    GenerationHasNoEmptyFile(job, w, steps);
    var store := Run(job, w, steps).store;
    hide Run;
    if forall p :: p in job.source ==> job.source[p] != [] {
      if job.sync !in store.generations {
        forall p | p in Sizes(job.source)
          ensures Key(job.sync, p) in store.staging && |store.staging[Key(job.sync, p)]| == Sizes(job.source)[p]
        {
          assert Durable(job, store, p, |job.source[p]|);
        }
      }
    } else {
      var p :| p in job.source && job.source[p] == [];
      assert p in Sizes(job.source);
      assert Key(job.sync, p) !in store.staging;
    }
  }

  /** A directory with an empty file is never promoted. */
  lemma {:induction false} GenerationHasNoEmptyFile(job: Job, w: World, steps: seq<Step>)
    requires Fresh(job, w)
    ensures job.sync in Run(job, w, steps).store.generations ==> forall p :: p in job.source ==> job.source[p] != []
    decreases |steps|
  {
    if steps != [] {
      var before := Run(job, w, steps[..|steps| - 1]);
      GenerationHasNoEmptyFile(job, w, steps[..|steps| - 1]);
      FreshIsOk(job, w);
      RunKeepsOk(job, w, steps[..|steps| - 1]);
      hide Run, WorldOk, Take;
      var after := Take(job, before, steps[|steps| - 1]);
      if job.sync !in before.store.generations && job.sync in after.store.generations {
        GenerationFormed(job, before, steps[|steps| - 1]);
      }
    }
  }

  lemma GenerationFormed(job: Job, w: World, step: Step)
    requires WorldOk(job, w) && job.sync !in w.store.generations && job.sync in Take(job, w, step).store.generations
    ensures forall p :: p in job.source ==> job.source[p] != []
  {
  }

  /** An accepted reply moves the client strictly forward within the file. */
  lemma OffsetsIncrease(job: Job, w: World, step: Step)
    requires WorldOk(job, w) && w.client.Uploading? && Take(job, w, step).client.Uploading? && !step.Begin?
    ensures var c, c' := w.client, Take(job, w, step).client;
            c' == c || c'.at > c.at || (c'.at == c.at < |job.files| && c.offset < c'.offset <= Length(job, job.files[c.at]))
  {
  }

  // ---------------------------------------------------------------- confirmation

  /** A generation is confirmed exactly if it has been already, or the files staged for it are those of
      the manifest, each with its size; then they are promoted together. */
  lemma ConfirmIs(store: Store, sync: string, manifest: map<string, nat>)
    ensures var r := Confirm(store, sync, manifest);
            && (r.1 <==>
                  || sync in store.generations
                  || ((set k | k in store.staging && k.sync == sync :: k.path) == manifest.Keys
                      && forall p :: p in manifest && Key(sync, p) in store.staging ==> |store.staging[Key(sync, p)]| == manifest[p]))
            && (!r.1 || sync in store.generations ==> r.0 == store)
            && (r.1 && sync !in store.generations ==>
                  && r.0 == store.(generations := store.generations + {sync}, promoted := r.0.promoted, staging := r.0.staging)
                  && (forall k :: k in r.0.promoted <==> k in store.promoted || (k in store.staging && k.sync == sync))
                  && (forall k :: k in store.staging && k.sync == sync ==> r.0.promoted[k] == store.staging[k])
                  && (forall k :: k in store.promoted && !(k in store.staging && k.sync == sync) ==> r.0.promoted[k] == store.promoted[k])
                  && (forall k :: k in r.0.staging <==> k in store.staging && k.sync != sync)
                  && (forall k :: k in r.0.staging ==> r.0.staging[k] == store.staging[k]))
  {
    var staged := set k | k in store.staging && k.sync == sync :: k.path;
    forall k | k in store.staging && k.sync == sync ensures k.path in staged && k == Key(sync, k.path) {
    }
    forall p | Key(sync, p) in store.staging ensures p in staged {
      assert Key(sync, p).path == p;
    }
    forall p | p in staged ensures Key(sync, p) in store.staging {
    }
  }

  /** A request carries the next mebibyte of the file, or what is left of it. */
  lemma RequestCarries(job: Job, at: nat, offset: nat)
    requires at < |job.files| && job.files[at] in job.source && offset <= |job.source[job.files[at]]|
    ensures var data, r := job.source[job.files[at]], CurrentRequest(job, at, offset);
            && r.path == job.files[at] && r.offset == offset
            && r.body == data[offset..if |data| <= offset + 1048576 then |data| else offset + 1048576]
  {
  }
}
