/** The checkpoint store as files that are appended to and moved, and the upload loop of the
    agent against it (internal/filestore/filestore.go:819-952, internal/agent/agent.go:795-866). */
module CheckpointFiles {
  import opened Checkpoint

  lemma NoBytes()
    ensures SizeOf(map[]) == 0
  {
  }

  /** Creating an empty file takes no room. */
  lemma OpeningIsFree(store: Store, k: Key)
    ensures Used(store.(staging := store.staging[k := StagedBytes(store, k)])) == Used(store)
  {
    SizeOfUpdate(store.staging, k, StagedBytes(store, k));
    hide SizeOf;
  }

  class FileStore {
    var limit: int
    var output: nat
    var generations: set<string>
    var promoted: map<Key, Bytes>
    var staging: map<Key, Bytes>

    ghost function Files(): Store
      reads this
    {
      Store(limit, output, generations, promoted, staging)
    }

    constructor (limit: int)
      ensures Files() == Store(limit, 0, {}, map[], map[])
    {
      this.limit, output, generations, promoted, staging := limit, 0, {}, map[], map[];
    }

    /** Adds up the sizes met on a walk over the files. */
    static method DirectorySize(files: map<Key, Bytes>) returns (size: nat)
      ensures size == SizeOf(files)
    {
      size := 0;
      var rest := files;
      NoBytes();
      while rest != map[]
        invariant size + SizeOf(rest) == SizeOf(files)
        decreases |rest|
      {
        hide SizeOf;
        var k :| k in rest;
        SizeOfWithout(rest, k);
        size := size + |rest[k]|;
        rest := rest - {k};
      }
    }

    method RemainingBytes() returns (remaining: int)
      ensures remaining == limit - Used(Files())
    {
      hide SizeOf;
      var promotedBytes := DirectorySize(promoted);
      var stagingBytes := DirectorySize(staging);
      var used := output + promotedBytes + stagingBytes;
      return limit - used;
    }

    /** Copies at most one byte more than remains, and takes that byte back. */
    method CopyInto(k: Key, delivered: Bytes, failed: bool, remaining: nat) returns (written: nat, result: Result)
      requires k in staging && remaining > 0
      modifies this`staging
      ensures result == if failed && |delivered| <= remaining + 1 then Broken
                        else if |delivered| > remaining then LimitExceeded else Accepted
      ensures written == if result == LimitExceeded then remaining else |delivered|
      ensures written <= |delivered| && staging == old(staging)[k := old(staging)[k] + delivered[..written]]
    {
      var size := |staging[k]|;
      written := AtMost(|delivered|, remaining + 1);
      staging := staging[k := staging[k] + delivered[..written]];
      if failed && |delivered| <= remaining + 1 {
        return written, Broken;
      }
      if written > remaining {
        staging := staging[k := staging[k][..size + remaining]];
        assert staging[k] == old(staging)[k] + delivered[..remaining];
        return remaining, LimitExceeded;
      }
      return written, Accepted;
    }

    method AppendCheckpoint(k: Key, offset: nat, delivered: Bytes, failed: bool) returns (next: nat, result: Result)
      modifies this`staging
      ensures (Files(), next, result) == Append(old(Files()), k, offset, delivered, failed)
    {
      var now := if k in staging then staging[k] else [];
      OpeningIsFree(Files(), k);
      hide Used;
      staging := staging[k := now];
      if |now| != offset {
        return |now|, Mismatch;
      }
      var remaining := RemainingBytes();
      if remaining <= 0 {
        return offset, LimitExceeded;
      }
      var written;
      written, result := CopyInto(k, delivered, failed, remaining);
      assert staging == old(staging)[k := now + delivered[..written]];
      assert delivered[..|delivered|] == delivered;
      next := offset + written;
    }

    /** The two checks of a confirmation: every file named is staged in full, and nothing else is staged. */
    method MatchManifest(sync: string, manifest: map<string, nat>) returns (ok: bool)
      ensures ok == Matches(Files(), sync, manifest)
    {
      var names := manifest.Keys;
      while names != {}
        invariant names <= manifest.Keys
        invariant forall p :: p in manifest && p !in names ==> Key(sync, p) in staging && |staging[Key(sync, p)]| == manifest[p]
        decreases names
      {
        var p :| p in names;
        names := names - {p};
        if Key(sync, p) !in staging || |staging[Key(sync, p)]| != manifest[p] {
          return false;
        }
      }
      var rest := staging.Keys;
      while rest != {}
        invariant rest <= staging.Keys
        invariant forall k :: k in staging && k.sync == sync && k !in rest ==> k.path in manifest
        decreases rest
      {
        var k :| k in rest;
        rest := rest - {k};
        if k.sync == sync && (k.path !in manifest || manifest[k.path] != |staging[k]|) {
          assert k.path in manifest ==> k == Key(sync, k.path);
          return false;
        }
      }
      return true;
    }

    method ConfirmCheckpoint(sync: string, manifest: map<string, nat>) returns (ok: bool)
      modifies this`generations, this`promoted, this`staging
      ensures (Files(), ok) == Confirm(old(Files()), sync, manifest)
    {
      if sync in generations {
        return true;
      }
      var matches := MatchManifest(sync, manifest);
      if !matches {
        return false;
      }
      promoted := promoted + OfSync(staging, sync);
      staging := NotOfSync(staging, sync);
      generations := generations + {sync};
      return true;
    }
  }

  // ---------------------------------------------------------------- the network

  /** An earlier request for the same file that arrives only now, or again. */
  datatype Stray = Stray(offset: nat, length: nat, failed: bool)

  /** What happens to one exchange: strays first, then the request, of which `taken` bytes are
      read if it fails, and then the reply. */
  datatype Fate = Fate(strays: seq<Stray>, taken: nat, failed: bool, lost: bool)

  ghost predicate Faultless(net: nat -> Fate) {
    forall t: nat :: net(t).strays == [] && !net(t).failed && !net(t).lost
  }

  /** The file's staged bytes are a prefix of its contents. */
  ghost predicate Prefix(store: Store, k: Key, data: Bytes) {
    StagedBytes(store, k) <= data
  }

  /** Between the two states only the staged file `k` was written, and it only grew. */
  ghost predicate Grew(before: Store, after: Store, k: Key) {
    && after == before.(staging := after.staging)
    && after.staging - {k} == before.staging - {k}
    && StagedBytes(before, k) <= StagedBytes(after, k)
  }

  lemma GrewChains(a: Store, b: Store, c: Store, k: Key)
    requires Grew(a, b, k) && Grew(b, c, k)
    ensures Grew(a, c, k)
  {
  }

  /** Appending any slice of the data at its own offset keeps the prefix. */
  lemma SliceKeepsPrefix(store: Store, k: Key, data: Bytes, offset: nat, delivered: Bytes, failed: bool)
    requires Prefix(store, k, data) && offset + |delivered| <= |data| && delivered == data[offset..offset + |delivered|]
    ensures var done := Append(store, k, offset, delivered, failed);
            Prefix(done.0, k, data) && Grew(store, done.0, k) && done.1 <= |StagedBytes(done.0, k)|
  {
    hide Used;
    var done := Append(store, k, offset, delivered, failed);
    var now, grown := StagedBytes(store, k), StagedBytes(done.0, k);
    assert done.0.staging - {k} == store.staging - {k};
    if |now| == offset {
      assert now == data[..offset];
      forall i | 0 <= i < |grown| ensures grown[i] == data[i] {
        if i >= offset {
          assert grown[i] == delivered[i - offset];
        }
      }
    }
  }

  lemma GrewBy(before: Store, after: Store, k: Key)
    requires Grew(before, after, k) && (k in after.staging || k !in before.staging)
    ensures Used(after) == Used(before) + |StagedBytes(after, k)| - |StagedBytes(before, k)|
  {
    hide SizeOf;
    if k in after.staging {
      SizeOfWithout(after.staging, k);
    }
    assert k !in after.staging ==> after.staging - {k} == after.staging;
    if k in before.staging {
      SizeOfWithout(before.staging, k);
    } else {
      assert before.staging - {k} == before.staging;
    }
  }

  /** One exchange: the server's answer, or 0 and no success. */
  method Exchange(server: FileStore, k: Key, data: Bytes, offset: nat, fate: Fate) returns (next: nat, good: bool)
    requires offset < |data| && Prefix(server.Files(), k, data)
    modifies server`staging
    ensures Prefix(server.Files(), k, data) && Grew(old(server.Files()), server.Files(), k)
    ensures next <= |StagedBytes(server.Files(), k)|
    ensures fate.strays == [] && !fate.failed && !fate.lost ==>
              var body := data[offset..offset + AtMost(CHUNK, |data| - offset)];
              var done := Append(old(server.Files()), k, offset, body, false);
              server.Files() == done.0 && next == done.1 && good == (done.2 == Accepted)
  {
    ghost var before := server.Files();
    for i := 0 to |fate.strays|
      invariant Prefix(server.Files(), k, data) && Grew(before, server.Files(), k)
      invariant fate.strays == [] ==> server.Files() == before
    {
      hide Append, Prefix, Grew;
      var s := fate.strays[i];
      var from := AtMost(s.offset, |data|);
      var delivered := data[from..from + AtMost(s.length, |data| - from)];
      ghost var middle := server.Files();
      SliceKeepsPrefix(middle, k, data, from, delivered, s.failed);
      var _, _ := server.AppendCheckpoint(k, from, delivered, s.failed);
      GrewChains(before, middle, server.Files(), k);
    }
    hide Append, Prefix, Grew;
    var want := AtMost(CHUNK, |data| - offset);
    var count := if fate.failed then AtMost(fate.taken, want) else want;
    ghost var middle := server.Files();
    SliceKeepsPrefix(middle, k, data, offset, data[offset..offset + count], fate.failed);
    var result;
    next, result := server.AppendCheckpoint(k, offset, data[offset..offset + count], fate.failed);
    GrewChains(before, middle, server.Files(), k);
    good := result == Accepted && !fate.lost;
    if fate.lost || result == Broken {
      next := 0;
    }
    if !fate.failed {
      NotBroken(middle, k, offset, data[offset..offset + count]);
    }
  }

  lemma NotBroken(store: Store, k: Key, offset: nat, delivered: Bytes)
    ensures Append(store, k, offset, delivered, false).2 != Broken
  {
  }

  /** Up to five attempts at one chunk; an offset beyond the current one is taken even from an
      error reply. */
  method SendChunk(server: FileStore, k: Key, data: Bytes, offset: nat, net: nat -> Fate, tick: nat)
      returns (next: nat, answered: bool, tick': nat)
    requires offset < |data| && Prefix(server.Files(), k, data) && offset <= |StagedBytes(server.Files(), k)|
    modifies server`staging
    ensures Prefix(server.Files(), k, data) && Grew(old(server.Files()), server.Files(), k)
    ensures next <= |StagedBytes(server.Files(), k)|
    ensures Faultless(net) ==> Sent(old(server.Files()), server.Files(), k, data, offset, next, answered)
    ensures if answered then tick < tick' <= tick + 5 else tick' == tick + 5
  {
    next, answered, tick' := 0, false, tick;
    ghost var before := server.Files();
    for attempt := 0 to 5
      invariant Prefix(server.Files(), k, data) && Grew(before, server.Files(), k)
      invariant Faultless(net) && attempt > 0 ==> Stuck(before, server.Files(), k, offset)
      invariant attempt == 0 ==> server.Files() == before
      invariant next <= |StagedBytes(server.Files(), k)| && !answered && tick' == tick + attempt
    {
      hide Append, Prefix, Grew;
      ghost var middle := server.Files();
      var good;
      next, good := Exchange(server, k, data, offset, net(tick'));
      GrewChains(before, middle, server.Files(), k);
      tick' := tick' + 1;
      if Faultless(net) {
        FaultlessExchange(before, middle, server.Files(), k, data, offset, next, good, attempt);
      }
      if good || next > offset {
        return next, true, tick';
      }
    }
  }

  /** Without faults nothing moves only when the quota is used up. */
  ghost predicate Stuck(before: Store, after: Store, k: Key, offset: nat) {
    && StagedBytes(after, k) == StagedBytes(before, k) && |StagedBytes(before, k)| == offset
    && k in after.staging && Used(before) >= before.limit && Grew(before, after, k)
  }

  /** Without faults an answered chunk ends at the staged size, within the quota if it wrote anything. */
  ghost predicate Sent(before: Store, after: Store, k: Key, data: Bytes, offset: nat, next: nat, answered: bool) {
    if answered then
      && next == |StagedBytes(after, k)| && k in after.staging
      && (StagedBytes(after, k) == StagedBytes(before, k) || Used(after) <= after.limit)
      && next > offset
    else Stuck(before, after, k, offset)
  }

  lemma SameElsewhere(a: map<Key, Bytes>, b: map<Key, Bytes>, k: Key, v: Bytes)
    requires a - {k} == b - {k}
    ensures a[k := v] == b[k := v]
  {
    forall x | x != k ensures (x in a <==> x in b) && (x in a ==> a[x] == b[x]) {
      assert x in a - {k} <==> x in b - {k};
      assert x in a ==> (a - {k})[x] == (b - {k})[x];
    }
  }

  lemma FaultlessExchange(before: Store, middle: Store, after: Store, k: Key, data: Bytes, offset: nat, next: nat, good: bool, attempt: nat)
    requires offset < |data| && Prefix(middle, k, data) && offset <= |StagedBytes(before, k)|
    requires Grew(before, middle, k) && Grew(before, after, k)
    requires attempt == 0 ==> middle == before
    requires attempt > 0 ==> Stuck(before, middle, k, offset)
    requires var done := Append(middle, k, offset, data[offset..offset + AtMost(CHUNK, |data| - offset)], false);
             after == done.0 && next == done.1 && good == (done.2 == Accepted)
    ensures good || next > offset ==> Sent(before, after, k, data, offset, next, true)
    ensures !(good || next > offset) ==> Stuck(before, after, k, offset)
  {
    hide SizeOf;
    var now := StagedBytes(middle, k);
    SizeOfUpdate(middle.staging, k, now);
    SizeOfUpdate(middle.staging, k, StagedBytes(after, k));
    SizeOfUpdate(before.staging, k, now);
    SameElsewhere(before.staging, middle.staging, k, now);
  }

  /** The upload loop for one file: however the network behaves it ends, and when it reports
      success the file is staged in full.  Without faults it succeeds exactly when nothing is
      missing or the missing bytes fit the quota. */
  method UploadFile(server: FileStore, k: Key, data: Bytes, net: nat -> Fate, tick: nat) returns (ok: bool, tick': nat)
    requires Prefix(server.Files(), k, data)
    modifies server`staging
    ensures Prefix(server.Files(), k, data) && Grew(old(server.Files()), server.Files(), k)
    ensures ok ==> StagedBytes(server.Files(), k) == data
    ensures data == [] ==> server.Files() == old(server.Files())
    ensures data != [] && ok ==> k in server.staging
    ensures Faultless(net) ==>
              (ok <==> Fits(old(server.Files()), k, data))
  {
    tick' := tick;
    var offset := 0;
    ghost var before := server.Files();
    while offset < |data|
      invariant offset <= |data| && Prefix(server.Files(), k, data) && Grew(before, server.Files(), k)
      invariant offset <= |StagedBytes(server.Files(), k)|
      invariant data == [] ==> server.Files() == before
      invariant Faultless(net) ==> Progress(before, server.Files(), k, offset)
      decreases |data| - offset
    {
      hide Prefix, Grew, Faultless, Used, Progress, Sent;
      ghost var middle := server.Files();
      var next, answered;
      next, answered, tick' := SendChunk(server, k, data, offset, net, tick');
      GrewChains(before, middle, server.Files(), k);
      if Faultless(net) {
        ProgressOrFull(before, middle, server.Files(), k, data, offset, next, answered);
      }
      if !answered || next <= offset || next > |data| {
        return false, tick';
      }
      offset := next;
    }
    if Faultless(net) {
      Arrived(before, server.Files(), k, data, offset);
    }
    ok := true;
  }

  ghost predicate Progress(before: Store, now: Store, k: Key, offset: nat) {
    || (offset == 0 && now == before)
    || (offset == |StagedBytes(now, k)| && k in now.staging
        && (StagedBytes(now, k) == StagedBytes(before, k) || Used(now) <= now.limit))
  }

  ghost predicate Fits(before: Store, k: Key, data: Bytes) {
    StagedBytes(before, k) == data || Used(before) + |data| - |StagedBytes(before, k)| <= before.limit
  }

  lemma ProgressOrFull(before: Store, middle: Store, after: Store, k: Key, data: Bytes, offset: nat, next: nat, answered: bool)
    requires offset < |data| && Progress(before, middle, k, offset) && Sent(middle, after, k, data, offset, next, answered)
    requires Grew(before, middle, k) && Grew(middle, after, k) && Prefix(after, k, data)
    ensures Grew(before, after, k)
    ensures answered ==> next > offset && next <= |data| && Progress(before, after, k, next)
    ensures !answered ==> !Fits(before, k, data)
  {
    GrewBy(before, after, k);
    GrewBy(middle, after, k);
    hide Used;
  }

  lemma Arrived(before: Store, now: Store, k: Key, data: Bytes, offset: nat)
    requires offset == |data| && Progress(before, now, k, offset) && Prefix(now, k, data) && Grew(before, now, k)
    ensures Fits(before, k, data)
  {
    if k in now.staging {
      GrewBy(before, now, k);
    }
    hide Used;
  }

  // ---------------------------------------------------------------- a whole synchronisation

  ghost function Total(job: Job, n: nat): nat
    requires n <= |job.files|
  {
    if n == 0 then 0 else Total(job, n - 1) + Length(job, job.files[n - 1])
  }

  lemma {:induction false} TotalGrows(job: Job, m: nat, n: nat)
    requires m <= n <= |job.files|
    ensures Total(job, m) <= Total(job, n)
    decreases n
  {
    if m < n {
      TotalGrows(job, m, n - 1);
    }
  }

  /** The first `n` files are staged in full. */
  ghost predicate Staged(job: Job, store: Store, n: nat)
    requires n <= |job.files|
  {
    forall i :: 0 <= i < n ==>
      StagedBytes(store, Key(job.sync, job.files[i])) == (if job.files[i] in job.source then job.source[job.files[i]] else [])
  }

  /** Nothing but the first `n` files has been written. */
  ghost predicate OnlyFirst(job: Job, store: Store, n: nat)
    requires n <= |job.files|
  {
    forall k :: k in store.staging && k.sync == job.sync ==> k.path in job.files[..n]
  }

  ghost predicate Distinct(job: Job) {
    forall i, j :: 0 <= i < j < |job.files| ==> job.files[i] != job.files[j]
  }

  ghost predicate NoEmptyFile(job: Job) {
    forall p :: p in job.source ==> job.source[p] != []
  }

  lemma UploadKeeps(job: Job, before: Store, after: Store, n: nat)
    requires JobOk(job) && Distinct(job) && n < |job.files|
    requires StagedOk(job, before) && PromotedOk(job, before)
    requires var k := Key(job.sync, job.files[n]);
             var data := job.source[job.files[n]];
             && Grew(before, after, k) && Prefix(after, k, data) && (data == [] ==> after == before)
    ensures StagedOk(job, after) && PromotedOk(job, after)
    ensures Staged(job, before, n) ==> Staged(job, after, n)
    ensures OnlyFirst(job, before, n) ==> OnlyFirst(job, after, n + 1)
  {
    var k := Key(job.sync, job.files[n]);
    assert job.files[n] in job.source;
    forall x | x != k
      ensures (x in after.staging <==> x in before.staging) && (x in after.staging ==> after.staging[x] == before.staging[x])
    {
      assert x in before.staging - {k} <==> x in before.staging;
      assert x in after.staging - {k} <==> x in after.staging;
      assert x in after.staging ==> (after.staging - {k})[x] == after.staging[x] && (before.staging - {k})[x] == before.staging[x];
    }
    if OnlyFirst(job, before, n) {
      assert job.files[..n + 1] == job.files[..n] + [job.files[n]];
      assert job.files[n] in job.files[..n + 1];
    }
  }

  /** Uploads every file, then asks for confirmation.  Success means that the promoted
      generation is the source.  Without faults, and starting from nothing, it succeeds exactly
      when no file is empty and all of them fit the quota. */
  method Synchronise(server: FileStore, job: Job, net: nat -> Fate) returns (confirmed: bool)
    requires JobOk(job) && Distinct(job) && StagedOk(job, server.Files()) && PromotedOk(job, server.Files())
    requires job.sync !in server.generations
    modifies server
    ensures StagedOk(job, server.Files()) && PromotedOk(job, server.Files())
    ensures confirmed <==> job.sync in server.generations
    ensures Faultless(net) && OnlyFirst(job, old(server.Files()), 0) ==>
              (confirmed <==> NoEmptyFile(job)
                              && (job.files == [] || Used(old(server.Files())) + Total(job, |job.files|) <= old(server.limit)))
  {
    ghost var before := server.Files();
    var tick := 0;
    var ok := true;
    for n := 0 to |job.files|
      invariant server.Files() == before.(staging := server.staging)
      invariant StagedOk(job, server.Files()) && PromotedOk(job, server.Files()) && Staged(job, server.Files(), n)
      invariant Faultless(net) && OnlyFirst(job, before, 0) ==> OnlyFirst(job, server.Files(), n) && Counted(job, before, server.Files(), n)
    {
      hide StagedOk, PromotedOk, Prefix, Grew, OnlyFirst, Counted, Staged, Total, Fits, Used, Faultless, SizeOf, Distinct;
      var p := job.files[n];
      assert p in job.files;
      var k := Key(job.sync, p);
      ghost var middle := server.Files();
      StagedIsPrefix(job, middle, p);
      ok, tick := UploadFile(server, k, job.source[p], net, tick);
      UploadKeeps(job, middle, server.Files(), n);
      GrewSame(middle, server.Files(), k);
      if Faultless(net) && OnlyFirst(job, before, 0) {
        CountOne(job, before, middle, server.Files(), n, ok);
      }
      if !ok {
        return false;
      }
      StagedOne(job, server.Files(), n);
    }
    hide Used, SizeOf;
    ghost var staged := server.Files();
    confirmed := server.ConfirmCheckpoint(job.sync, Sizes(job.source));
    PromotionIsSource(job, staged);
    MatchesIff(job, staged);
    hide StagedOk, PromotedOk, Matches;
    if Faultless(net) && OnlyFirst(job, before, 0) && job.files != [] && NoEmptyFile(job) {
      assert job.files[|job.files| - 1] in job.files;
    }
  }

  ghost predicate Counted(job: Job, before: Store, now: Store, n: nat)
    requires n <= |job.files|
  {
    && Used(now) == Used(before) + Total(job, n)
    && (Total(job, n) == 0 || Used(now) <= before.limit)
  }

  lemma GrewSame(before: Store, after: Store, k: Key)
    requires Grew(before, after, k)
    ensures after == before.(staging := after.staging)
  {
  }

  lemma StagedIsPrefix(job: Job, store: Store, p: string)
    requires StagedOk(job, store) && p in job.source
    ensures Prefix(store, Key(job.sync, p), job.source[p])
  {
  }

  lemma StagedOne(job: Job, store: Store, n: nat)
    requires n < |job.files| && job.files[n] in job.source && Staged(job, store, n)
    requires StagedBytes(store, Key(job.sync, job.files[n])) == job.source[job.files[n]]
    ensures Staged(job, store, n + 1)
  {
  }

  lemma CountOne(job: Job, before: Store, middle: Store, after: Store, n: nat, ok: bool)
    requires n < |job.files| && job.files[n] in job.source && Distinct(job)
    requires middle == before.(staging := middle.staging)
    requires OnlyFirst(job, middle, n) && Counted(job, before, middle, n)
    requires var k := Key(job.sync, job.files[n]);
             var data := job.source[job.files[n]];
             && Grew(middle, after, k) && (ok <==> Fits(middle, k, data)) && (ok ==> StagedBytes(after, k) == data)
             && (data == [] ==> after == middle) && (data != [] && ok ==> k in after.staging)
    ensures ok ==> Counted(job, before, after, n + 1)
    ensures !ok ==> Used(before) + Total(job, |job.files|) > before.limit
  {
    hide SizeOf;
    var k := Key(job.sync, job.files[n]);
    assert k !in middle.staging;
    if ok && job.source[job.files[n]] != [] {
      GrewBy(middle, after, k);
    }
    TotalGrows(job, n + 1, |job.files|);
    hide Used;
  }

  /** With everything staged, the manifest matches exactly when no file is empty. */
  lemma MatchesIff(job: Job, store: Store)
    requires JobOk(job) && StagedOk(job, store) && Staged(job, store, |job.files|)
    ensures Matches(store, job.sync, Sizes(job.source)) <==> NoEmptyFile(job)
  {
  }
}
