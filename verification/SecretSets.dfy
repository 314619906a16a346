/** Redaction with several secrets: when the way a stream is cut makes no difference to what
    is released (internal/agent/redactor.go:25-59).  All secrets here are free of stars. */
module SecretSets {
  import opened Redactor

  ghost predicate Usable(secrets: seq<seq<byte>>) {
    AllNonEmpty(secrets) && AllStarFree(secrets)
  }

  /** What is released does not depend on how the stream is cut. */
  ghost predicate ChunkIndependent(secrets: seq<seq<byte>>)
    requires AllNonEmpty(secrets)
  {
    forall chunks :: Redact(secrets, chunks) == MaskAll(Flatten(chunks), secrets)
  }

  /** Masking what is masked already, together with more data, is masking all of it at once. */
  ghost predicate Remasks(secrets: seq<seq<byte>>)
    requires AllNonEmpty(secrets)
  {
    forall raw, data :: MaskAll(MaskAll(raw, secrets) + data, secrets) == MaskAll(raw + data, secrets)
  }

  // ---------------------------------------------------------------- conditions on the secrets themselves

  /** `t` occurs in `s` and ends before `s` does. */
  ghost predicate EndsInside(t: seq<byte>, s: seq<byte>) {
    exists m :: OccursAt(s, t, m) && m + |t| < |s|
  }

  /** `s` goes on where a proper suffix of `t`, from offset `m`, leaves off. */
  predicate RunsIntoAt(t: seq<byte>, s: seq<byte>, m: int) {
    0 < m < |t| && t[m..] <= s
  }

  ghost predicate RunsInto(t: seq<byte>, s: seq<byte>) {
    exists m :: RunsIntoAt(t, s, m)
  }

  /** A later secret never ends before an overlapping earlier one does, so that no cut can
      complete the later one first. */
  ghost predicate InOrder(secrets: seq<seq<byte>>) {
    forall i, j :: 0 <= i < j < |secrets| ==>
      secrets[i] == secrets[j] || (!EndsInside(secrets[j], secrets[i]) && !RunsInto(secrets[j], secrets[i]))
  }

  predicate Tiles(t: seq<byte>, s: seq<byte>)
    requires 0 < |t|
  {
    Scan(s, t) == Stars(|s|)
  }

  /** For two secrets, masked in the order `s`, `t`: either `t` contains `s` and so is never
      met, or wherever a cut can complete `t` inside or in front of `s`, masking `t` first
      leaves what masking `s` first leaves. */
  ghost predicate PairSafe(s: seq<byte>, t: seq<byte>)
    requires 0 < |t|
  {
    || Contains(t, s)
    || ((EndsInside(t, s) ==> Tiles(t, s))
        && forall m :: RunsIntoAt(t, s, m) ==> s <= t[..m] + s)
  }

  /** Overlapping occurrences of which `t` ends first are one of the two cases above. */
  lemma Apart(d: seq<byte>, t: seq<byte>, k: int, s: seq<byte>, i: int)
    requires OccursAt(d, t, k) && OccursAt(d, s, i) && k + |t| < i + |s|
    ensures k + |t| <= i || EndsInside(t, s) || RunsInto(t, s)
  {
    if i <= k {
      forall p | 0 <= p < |t| ensures s[k - i + p] == t[p] {
        assert d[i..i + |s|][k - i + p] == d[k..k + |t|][p];
      }
      assert s[k - i..k - i + |t|] == t;
      assert OccursAt(s, t, k - i);
    } else if i < k + |t| {
      var m := i - k;
      assert t[m..] == d[k..k + |t|][m..] == d[i..k + |t|];
      assert s[..|t| - m] == d[i..i + |s|][..|t| - m] == d[i..k + |t|];
      assert t[m..] <= s;
      assert RunsIntoAt(t, s, m);
    }
  }

  // ---------------------------------------------------------------- one secret

  lemma FirstAndLast(s: seq<byte>)
    requires 0 < |s| && StarFree(s)
    ensures s[0] != STAR && s[|s| - 1] != STAR
  {
  }

  lemma CleanScan(d: seq<byte>, s: seq<byte>, i: int)
    requires 0 < |s| && StarFree(s)
    ensures !OccursAt(Scan(d, s), s, i)
  {
    FirstAndLast(s);
    ScanCleans(d, s);
  }

  lemma ScanSkipsHead(out: seq<byte>, x: seq<byte>, s: seq<byte>)
    requires 0 < |s| && forall i :: 0 <= i < |out| ==> !OccursAt(out + x, s, i)
    ensures Scan(out + x, s) == out + Scan(x, s)
  {
    ScanSkips(out + x, s, |out|);
    assert (out + x)[..|out|] == out && (out + x)[|out|..] == x;
  }

  lemma RemaskOne(raw: seq<byte>, data: seq<byte>, s: seq<byte>)
    requires 0 < |s| && StarFree(s)
    ensures Scan(Scan(raw, s) + data, s) == Scan(raw + data, s)
  {
    FirstAndLast(s);
    var out, held := ScanResumes(raw, s);
    forall i | 0 <= i < |out| ensures !OccursAt(out + (held + data), s, i) {
      CleanScan(raw, s, i);
      if OccursAt(out + (held + data), s, i) {
        WithinMasked(out, held, data, s, i);
      }
    }
    ScanSkipsHead(out, held + data, s);
    Assoc(out, held, data);
  }

  lemma WithinMasked(out: seq<byte>, held: seq<byte>, data: seq<byte>, s: seq<byte>, i: int)
    requires OccursAt(out + (held + data), s, i) && i + |s| <= |out| + |held|
    ensures OccursAt(out + held, s, i)
  {
    assert (out + held)[i..i + |s|] == (out + (held + data))[i..i + |s|];
  }

  // ---------------------------------------------------------------- starring elsewhere does not disturb a mask

  /** `e` is `a` with more stars; `b` is `a` masked.  The same mask laid over `e`. */
  function Over(b: seq<byte>, a: seq<byte>, e: seq<byte>): (r: seq<byte>)
    requires |b| == |a| == |e|
    ensures |r| == |a|
  {
    seq(|a|, i requires 0 <= i < |a| => if b[i] != a[i] then STAR else e[i])
  }

  ghost predicate IntactFor(a: seq<byte>, e: seq<byte>, t: seq<byte>) {
    forall i :: OccursAt(a, t, i) ==> OccursAt(e, t, i)
  }

  ghost predicate Intact(a: seq<byte>, e: seq<byte>, secrets: seq<seq<byte>>) {
    Starred(e, a) && forall t :: t in secrets ==> IntactFor(a, e, t)
  }

  lemma IntactTail(a: seq<byte>, e: seq<byte>, t: seq<byte>, n: nat)
    requires n <= |a| && Starred(e, a) && IntactFor(a, e, t)
    ensures Starred(e[n..], a[n..]) && IntactFor(a[n..], e[n..], t)
  {
    forall i | OccursAt(a[n..], t, i) ensures OccursAt(e[n..], t, i) {
      OccursShift(a, t, n, i);
      OccursShift(e, t, n, i);
    }
  }

  lemma {:induction false} ScanOver(a: seq<byte>, e: seq<byte>, t: seq<byte>)
    requires 0 < |t| && StarFree(t) && Starred(e, a) && IntactFor(a, e, t)
    ensures Scan(e, t) == Over(Scan(a, t), a, e)
    decreases |a|
  {
    hide OccursAt, Starred, IntactFor;
    if |a| < |t| {
      NothingOver(a, e);
    } else {
      SameHead(a, e, t);
      OccursFirst(a, t);
      OccursFirst(e, t);
      var n := if a[..|t|] == t then |t| else 1;
      IntactTail(a, e, t, n);
      ScanOver(a[n..], e[n..], t);
      OverStep(a, e, t, n);
    }
  }

  /** One step of the two scans side by side. */
  lemma OverStep(a: seq<byte>, e: seq<byte>, t: seq<byte>, n: nat)
    requires |a| == |e| && 0 < |t| <= |a| && StarFree(t) && (a[..|t|] == t <==> e[..|t|] == t)
    requires n == if a[..|t|] == t then |t| else 1
    requires Scan(e[n..], t) == Over(Scan(a[n..], t), a[n..], e[n..])
    ensures Scan(e, t) == Over(Scan(a, t), a, e)
  {
    ScanFirst(a, t);
    ScanFirst(e, t);
    hide Scan;
    if a[..|t|] == t {
      OverConcat(Stars(n), Scan(a[n..], t), t, a[n..], t, e[n..]);
      assert a == t + a[n..] && e == t + e[n..];
      assert Over(Stars(n), t, t) == Stars(n);
    } else {
      OverConcat([a[0]], Scan(a[n..], t), [a[0]], a[n..], [e[0]], e[n..]);
      assert a == [a[0]] + a[n..] && e == [e[0]] + e[n..];
      assert Over([a[0]], [a[0]], [e[0]]) == [e[0]];
    }
  }

  lemma ScanFirst(d: seq<byte>, t: seq<byte>)
    requires 0 < |t| <= |d|
    ensures Scan(d, t) == if d[..|t|] == t then Stars(|t|) + Scan(d[|t|..], t) else [d[0]] + Scan(d[1..], t)
  {
  }

  lemma ScanShort(d: seq<byte>, t: seq<byte>)
    requires |d| < |t|
    ensures Scan(d, t) == d
  {
  }

  lemma OverConcat(b: seq<byte>, b': seq<byte>, a: seq<byte>, a': seq<byte>, e: seq<byte>, e': seq<byte>)
    requires |b| == |a| == |e| && |b'| == |a'| == |e'|
    ensures Over(b + b', a + a', e + e') == Over(b, a, e) + Over(b', a', e')
  {
  }

  lemma NothingOver(a: seq<byte>, e: seq<byte>)
    requires Starred(e, a)
    ensures Over(a, a, e) == e
  {
  }

  lemma SameHead(a: seq<byte>, e: seq<byte>, t: seq<byte>)
    requires StarFree(t) && Starred(e, a) && IntactFor(a, e, t)
    ensures |e| == |a| && (OccursAt(e, t, 0) <==> OccursAt(a, t, 0))
  {
    if OccursAt(e, t, 0) {
      OccurrenceIsOlder(e, a, t, 0);
    }
  }

  lemma {:induction false} MaskOver(a: seq<byte>, e: seq<byte>, secrets: seq<seq<byte>>)
    requires Usable(secrets) && Intact(a, e, secrets)
    ensures MaskAll(e, secrets) == Over(MaskAll(a, secrets), a, e)
    decreases |secrets|
  {
    if secrets == [] {
      assert Over(a, a, e) == e;
    } else {
      var t, rest := secrets[0], secrets[1..];
      var a', e' := Scan(a, t), Scan(e, t);
      ScanOver(a, e, t);
      StillIntact(a, e, t, rest);
      MaskOver(a', e', rest);
      MaskAllMasks(a', rest);
      forall i | 0 <= i < |a| ensures a'[i] == a[i] || a'[i] == STAR {
        ScanMarks(a, t, i);
      }
      var r := MaskAll(a', rest);
      hide MaskAll, InsideSecret, Clean;
      assert Over(r, a', e') == Over(r, a, e);
    }
  }

  lemma {:induction false} StillIntact(a: seq<byte>, e: seq<byte>, t: seq<byte>, rest: seq<seq<byte>>)
    requires 0 < |t| && StarFree(t) && Usable(rest) && Intact(a, e, rest) && IntactFor(a, e, t)
    requires Scan(e, t) == Over(Scan(a, t), a, e)
    ensures Intact(Scan(a, t), Scan(e, t), rest)
  {
    var a', e' := Scan(a, t), Scan(e, t);
    forall i | 0 <= i < |a| ensures a'[i] == a[i] || a'[i] == STAR {
      ScanMarks(a, t, i);
    }
    hide Scan;
    forall u, i | u in rest && OccursAt(a', u, i) ensures OccursAt(e', u, i) {
      OccurrenceIsOlder(a', a, u, i);
      assert IntactFor(a, e, u);
      assert OccursAt(e, u, i);
      forall p | 0 <= p < |u| ensures e'[i + p] == u[p] {
        assert a'[i + p] == a'[i..i + |u|][p] && a[i + p] == a[i..i + |u|][p] && e[i + p] == e[i..i + |u|][p];
      }
      assert e'[i..i + |u|] == u;
    }
  }

  // ---------------------------------------------------------------- several secrets, in order

  lemma RestInOrder(secrets: seq<seq<byte>>)
    requires secrets != [] && InOrder(secrets)
    ensures InOrder(secrets[1..])
    ensures forall t :: t in secrets[1..] ==> t == secrets[0] || (!EndsInside(t, secrets[0]) && !RunsInto(t, secrets[0]))
  {
    hide EndsInside, RunsInto;
    var rest := secrets[1..];
    forall i, j | 0 <= i < j < |rest|
      ensures rest[i] == rest[j] || (!EndsInside(rest[j], rest[i]) && !RunsInto(rest[j], rest[i]))
    {
      assert rest[i] == secrets[i + 1] && rest[j] == secrets[j + 1];
    }
  }

  /** Masking the other secrets in the first part leaves every occurrence of `s` that only the
      second part completes. */
  lemma HeadSurvives(a: seq<byte>, data: seq<byte>, s: seq<byte>, rest: seq<seq<byte>>, i: int)
    requires 0 < |s| && StarFree(s) && Usable(rest) && OccursAt(a + data, s, i)
    requires forall k :: !OccursAt(a, s, k)
    requires forall t :: t in rest ==> t == s || (!EndsInside(t, s) && !RunsInto(t, s))
    ensures OccursAt(MaskAll(a, rest) + data, s, i)
  {
    var b := MaskAll(a, rest);
    MaskAllMasks(a, rest);
    hide EndsInside, RunsInto, MaskAll;
    CompletedByData(a, data, s, i);
    forall p | i <= p < i + |s| ensures (b + data)[p] == (a + data)[p] {
      if p < |a| && b[p] != a[p] {
        var t, k :| t in rest && OccursAt(a, t, k) && k <= p < k + |t|;
        OccursOn(a, data, t, k);
        Apart(a + data, t, k, s, i);
      }
    }
    assert (b + data)[i..i + |s|] == (a + data)[i..i + |s|];
  }

  lemma CompletedByData(a: seq<byte>, data: seq<byte>, s: seq<byte>, i: int)
    requires OccursAt(a + data, s, i)
    ensures i + |s| > |a| || OccursAt(a, s, i)
  {
    if i + |s| <= |a| {
      assert a[i..i + |s|] == (a + data)[i..i + |s|];
    }
  }

  lemma OccursOn(a: seq<byte>, data: seq<byte>, t: seq<byte>, k: int)
    requires OccursAt(a, t, k)
    ensures OccursAt(a + data, t, k)
  {
    assert (a + data)[k..k + |t|] == a[k..k + |t|];
  }

  /** Masking `s` across the boundary leaves every occurrence of the other secrets in the first part. */
  lemma {:induction false} TailSurvives(a: seq<byte>, data: seq<byte>, s: seq<byte>, t: seq<byte>, k: int)
    requires 0 < |s| && 0 < |t| && OccursAt(a, t, k)
    requires forall i :: !OccursAt(a, s, i)
    requires t == s || (!EndsInside(t, s) && !RunsInto(t, s))
    ensures OccursAt(Scan(a + data, s)[..|a|], t, k)
  {
    var e := Scan(a + data, s);
    hide EndsInside, RunsInto, Scan;
    forall p | k <= p < k + |t| ensures e[p] == a[p] {
      ScanMarks(a + data, s, p);
      if e[p] != (a + data)[p] {
        var i :| OccursAt(a + data, s, i) && i <= p < i + |s|;
        CompletedByData(a, data, s, i);
        OccursOn(a, data, t, k);
        Apart(a + data, t, k, s, i);
      }
    }
    assert e[..|a|][k..k + |t|] == a[k..k + |t|];
  }

  /** Laying one mask over another, position by position. */
  lemma OverParts(a: seq<byte>, data: seq<byte>, b: seq<byte>, e: seq<byte>)
    requires |b| == |a| && |e| == |a| + |data|
    requires Starred(b, a) && Starred(e, a + data)
    ensures Over(e, a + data, b + data) == Over(b, a, e[..|a|]) + e[|a|..]
  {
  }

  lemma MaskStars(d: seq<byte>, secrets: seq<seq<byte>>)
    requires Usable(secrets)
    ensures Starred(MaskAll(d, secrets), d)
  {
    MaskAllMasks(d, secrets);
  }

  lemma ScanOnlyStars(d: seq<byte>, s: seq<byte>)
    requires 0 < |s|
    ensures Starred(Scan(d, s), d)
  {
    forall i | 0 <= i < |d| ensures Scan(d, s)[i] == d[i] || Scan(d, s)[i] == STAR {
      ScanMarks(d, s, i);
    }
  }

  lemma {:induction false} RemaskInOrder(secrets: seq<seq<byte>>, raw: seq<byte>, data: seq<byte>)
    requires Usable(secrets) && InOrder(secrets)
    ensures MaskAll(MaskAll(raw, secrets) + data, secrets) == MaskAll(raw + data, secrets)
    decreases |secrets|
  {
    if secrets != [] {
      var s, rest := secrets[0], secrets[1..];
      var a := Scan(raw, s);
      var b := MaskAll(a, rest);
      RestInOrder(secrets);
      assert StarFree(s) && Usable(rest);
      hide InOrder, StarFree;
      RemaskOne(raw, data, s);
      RemaskStep(a, data, s, rest, raw);
      var e := Scan(a + data, s);
      RemaskInOrder(rest, e[..|a|], e[|a|..]);
      assert e[..|a|] + e[|a|..] == e;
    }
  }

  /** The second masking of `s` sees the first part masked by the other secrets already. */
  lemma {:induction false} RemaskStep(a: seq<byte>, data: seq<byte>, s: seq<byte>, rest: seq<seq<byte>>, raw: seq<byte>)
    requires 0 < |s| && StarFree(s) && Usable(rest) && a == Scan(raw, s)
    requires forall t :: t in rest ==> t == s || (!EndsInside(t, s) && !RunsInto(t, s))
    ensures var e := Scan(a + data, s);
            Scan(MaskAll(a, rest) + data, s) == MaskAll(e[..|a|], rest) + e[|a|..]
  {
    var b, e := MaskAll(a, rest), Scan(a + data, s);
    forall k ensures !OccursAt(a, s, k) {
      CleanScan(raw, s, k);
    }
    hide *;
    MaskStars(a, rest);
    ScanOnlyStars(a + data, s);
    StarredParts(a, b, data, e);
    forall i | OccursAt(a + data, s, i) ensures OccursAt(b + data, s, i) {
      HeadSurvives(a, data, s, rest, i);
    }
    HeadOver(a, b, data, s);
    forall t, k | t in rest && OccursAt(a, t, k) ensures OccursAt(e[..|a|], t, k) {
      TailSurvives(a, data, s, t, k);
    }
    TailOver(a, e[..|a|], rest);
    OverParts(a, data, b, e);
  }

  lemma StarredParts(a: seq<byte>, b: seq<byte>, data: seq<byte>, e: seq<byte>)
    requires Starred(b, a) && Starred(e, a + data)
    ensures Starred(b + data, a + data) && Starred(e[..|a|], a)
  {
  }

  lemma {:induction false} HeadOver(a: seq<byte>, b: seq<byte>, data: seq<byte>, s: seq<byte>)
    requires 0 < |s| && StarFree(s) && |b| == |a| && Starred(b + data, a + data)
    requires forall i :: OccursAt(a + data, s, i) ==> OccursAt(b + data, s, i)
    ensures Scan(b + data, s) == Over(Scan(a + data, s), a + data, b + data)
  {
    hide Scan, OccursAt;
    ScanOver(a + data, b + data, s);
  }

  lemma {:induction false} TailOver(a: seq<byte>, e: seq<byte>, rest: seq<seq<byte>>)
    requires Usable(rest) && Starred(e, a)
    requires forall t, k :: t in rest && OccursAt(a, t, k) ==> OccursAt(e, t, k)
    ensures MaskAll(e, rest) == Over(MaskAll(a, rest), a, e)
  {
    hide MaskAll, OccursAt;
    MaskOver(a, e, rest);
  }

  // ---------------------------------------------------------------- from masking to streaming

  lemma {:induction false} MaskSkipsHead(out: seq<byte>, x: seq<byte>, secrets: seq<seq<byte>>)
    requires Usable(secrets)
    requires forall s, i :: s in secrets && 0 <= i < |out| ==> !OccursAt(out + x, s, i)
    ensures MaskAll(out + x, secrets) == out + MaskAll(x, secrets)
    decreases |secrets|
  {
    if secrets != [] {
      var s, rest := secrets[0], secrets[1..];
      assert s in secrets;
      ScanSkipsHead(out, x, s);
      ScanOnlyStars(out + x, s);
      forall t, i | t in rest && 0 <= i < |out| ensures !OccursAt(out + Scan(x, s), t, i) {
        assert t in secrets;
        if OccursAt(out + Scan(x, s), t, i) {
          OccurrenceIsOlder(out + Scan(x, s), out + x, t, i);
        }
      }
      MaskSkipsHead(out, Scan(x, s), rest);
    }
  }

  /** Holding back one byte less than the longest secret is enough: what has been released is
      never masked again. */
  lemma HeldIsEnough(out: seq<byte>, pending: seq<byte>, data: seq<byte>, secrets: seq<seq<byte>>)
    requires Usable(secrets) && Clean(out + pending, secrets) && |pending| == MaxLength(secrets) - 1
    ensures MaskAll(out + pending + data, secrets) == out + MaskAll(pending + data, secrets)
  {
    hide MaskAll, MaxLength;
    forall s, i | s in secrets && 0 <= i < |out| ensures !OccursAt(out + (pending + data), s, i) {
      MaxLengthBounds(secrets, s);
      if OccursAt(out + (pending + data), s, i) {
        WithinMasked(out, pending, data, s, i);
      }
    }
    MaskSkipsHead(out, pending + data, secrets);
    Assoc(out, pending, data);
  }

  ghost predicate Tracks(out: seq<byte>, pending: seq<byte>, raw: seq<byte>, secrets: seq<seq<byte>>)
    requires AllNonEmpty(secrets)
  {
    || (out == [] && pending == raw)
    || (|pending| == MaxLength(secrets) - 1 && out + pending == MaskAll(raw, secrets))
  }

  /** Masking what is held together with more data completes the masking of the stream. */
  lemma TracksFlush(out: seq<byte>, pending: seq<byte>, raw: seq<byte>, data: seq<byte>, secrets: seq<seq<byte>>)
    requires Usable(secrets) && Remasks(secrets) && Tracks(out, pending, raw, secrets)
    ensures out + MaskAll(pending + data, secrets) == MaskAll(raw + data, secrets)
  {
    hide MaxLength;
    MaskAllMasks(raw, secrets);
    hide MaskAll, Clean;
    if out == [] && pending == raw {
    } else {
      HeldIsEnough(out, pending, data, secrets);
      assert MaskAll(MaskAll(raw, secrets) + data, secrets) == MaskAll(raw + data, secrets);
    }
  }

  lemma TracksPush(out: seq<byte>, pending: seq<byte>, raw: seq<byte>, data: seq<byte>, secrets: seq<seq<byte>>)
    requires Usable(secrets) && Remasks(secrets) && MaxLength(secrets) > 0 && Tracks(out, pending, raw, secrets)
    ensures var r := PushSpec(secrets, pending, data); Tracks(out + r.0, r.1, raw + data, secrets)
  {
    var r := PushSpec(secrets, pending, data);
    PushSplits(secrets, pending, data);
    TracksFlush(out, pending, raw, data, secrets);
    hide PushSpec, MaskAll, MaxLength, Remasks;
    if |pending + data| < MaxLength(secrets) {
      assert out + [] == out;
      if !(out == [] && pending == raw) {
        assert data == [] && pending + data == pending && raw + data == raw;
      }
    } else {
      Assoc(out, r.0, r.1);
    }
  }

  lemma {:induction false} PushesTrack(secrets: seq<seq<byte>>, chunks: seq<seq<byte>>)
    requires Usable(secrets) && Remasks(secrets) && MaxLength(secrets) > 0
    ensures var r := Pushes(secrets, chunks); Tracks(r.0, r.1, Flatten(chunks), secrets)
    decreases |chunks|
  {
    hide Tracks, Remasks, PushSpec, MaxLength, MaskAll;
    if chunks == [] {
      NothingTracked(secrets);
    } else {
      var before := chunks[..|chunks| - 1];
      PushesTrack(secrets, before);
      var r := Pushes(secrets, before);
      TracksPush(r.0, r.1, Flatten(before), chunks[|chunks| - 1], secrets);
    }
  }

  lemma NothingTracked(secrets: seq<seq<byte>>)
    requires AllNonEmpty(secrets)
    ensures Tracks([], [], [], secrets)
  {
  }

  lemma RemasksIsEnough(secrets: seq<seq<byte>>)
    requires Usable(secrets) && Remasks(secrets)
    ensures ChunkIndependent(secrets)
  {
    forall chunks ensures Redact(secrets, chunks) == MaskAll(Flatten(chunks), secrets) {
      if secrets == [] {
        PushesWithoutSecrets(chunks);
      } else {
        MaxLengthBounds(secrets, secrets[0]);
        PushesTrack(secrets, chunks);
        hide Pushes, Tracks, MaxLength, MaskAll, Remasks, Flatten;
        var r := Pushes(secrets, chunks);
        TracksFlush(r.0, r.1, Flatten(chunks), [], secrets);
        assert r.1 + [] == r.1 && Flatten(chunks) + [] == Flatten(chunks);
      }
    }
  }

  /** Any number of secrets: if no later one ever ends before an overlapping earlier one, every
      way of cutting a stream releases the masking of the whole stream. */
  lemma OrderedSecretsChunkIndependence(secrets: seq<seq<byte>>)
    requires Usable(secrets) && InOrder(secrets)
    ensures ChunkIndependent(secrets)
  {
    forall raw, data ensures MaskAll(MaskAll(raw, secrets) + data, secrets) == MaskAll(raw + data, secrets) {
      RemaskInOrder(secrets, raw, data);
    }
    hide MaskAll, InOrder;
    RemasksIsEnough(secrets);
  }

  // ---------------------------------------------------------------- two secrets: the condition suffices

  /** If no occurrence straddles the boundary, the two parts are scanned independently. */
  lemma {:induction false} ScanSplits(x: seq<byte>, y: seq<byte>, t: seq<byte>)
    requires 0 < |t|
    requires forall i :: OccursAt(x + y, t, i) ==> i + |t| <= |x| || i >= |x|
    ensures Scan(x + y, t) == Scan(x, t) + Scan(y, t)
    decreases |x|
  {
    if x == [] {
      assert x + y == y;
    } else if |x + y| >= |t| {
      OccursFirst(x + y, t);
      var n := if (x + y)[..|t|] == t then |t| else 1;
      assert n <= |x|;
      StillSplits(x, y, t, n);
      ScanSplits(x[n..], y, t);
      SplitStep(x, y, t, n);
    } else {
      ScanShort(x, t);
      ScanShort(y, t);
    }
  }

  lemma SplitStep(x: seq<byte>, y: seq<byte>, t: seq<byte>, n: nat)
    requires 0 < |t| <= |x + y| && x != []
    requires n == if (x + y)[..|t|] == t then |t| else 1
    requires n <= |x| && (x + y)[n..] == x[n..] + y && Scan(x[n..] + y, t) == Scan(x[n..], t) + Scan(y, t)
    ensures Scan(x + y, t) == Scan(x, t) + Scan(y, t)
  {
    ScanFirst(x + y, t);
    if |x| >= |t| {
      ScanFirst(x, t);
      assert x[..|t|] == (x + y)[..|t|];
    } else {
      ScanShort(x, t);
      ScanShort(x[1..], t);
      assert [x[0]] + x[1..] == x;
    }
    hide Scan;
    Assoc(if (x + y)[..|t|] == t then Stars(|t|) else [x[0]], Scan(x[n..], t), Scan(y, t));
  }

  lemma StillSplits(x: seq<byte>, y: seq<byte>, t: seq<byte>, n: nat)
    requires n <= |x| && forall i :: OccursAt(x + y, t, i) ==> i + |t| <= |x| || i >= |x|
    ensures (x + y)[n..] == x[n..] + y
    ensures forall i :: OccursAt(x[n..] + y, t, i) ==> i + |t| <= |x[n..]| || i >= |x[n..]|
  {
    assert (x + y)[n..] == x[n..] + y;
    forall i | OccursAt(x[n..] + y, t, i) ensures i + |t| <= |x[n..]| || i >= |x[n..]| {
      OccursShift(x + y, t, n, i);
    }
  }

  lemma {:induction false} TiledScan(s: seq<byte>, t: seq<byte>, y: seq<byte>)
    requires 0 < |t| && StarFree(s) && Tiles(t, s)
    ensures Scan(s + y, t) == Stars(|s|) + Scan(y, t)
    decreases |s|
  {
    if s == [] {
      assert s + y == y;
    } else {
      assert Scan(s, t)[0] == STAR != s[0];
      var rest := s[|t|..];
      assert s == t + rest;
      ScanMatch(rest, t);
      assert Scan(rest, t) == Scan(s, t)[|t|..] == Stars(|rest|);
      TiledScan(rest, t, y);
      Assoc(t, rest, y);
      ScanMatch(rest + y, t);
    }
  }

  lemma {:induction false} FirstOccurrence(d: seq<byte>, s: seq<byte>, i: int) returns (j: int)
    requires 0 < |s| && OccursAt(d, s, i)
    ensures OccursAt(d, s, j) && forall k :: 0 <= k < j ==> !OccursAt(d, s, k)
    decreases i
  {
    j := i;
    if k :| 0 <= k < i && OccursAt(d, s, k) {
      j := FirstOccurrence(d, s, k);
    }
  }

  /** An occurrence of `t` that leads into one of `s`. */
  lemma LeadIn(d: seq<byte>, s: seq<byte>, t: seq<byte>, j: int, i: int)
    requires OccursAt(d, s, j) && OccursAt(d, t, i) && i < j < i + |t|
    ensures var m := j - i;
            OccursAt(t, s, m) || (RunsIntoAt(t, s, m) && (s <= t[..m] + s ==> OccursAt(d, s, i)))
  {
    var m := j - i;
    assert forall p :: 0 <= p < |t| ==> t[p] == d[i..i + |t|][p] == d[i + p];
    assert forall p :: 0 <= p < |s| ==> s[p] == d[j..j + |s|][p] == d[j + p];
    if |t| - m >= |s| {
      assert t[m..m + |s|] == s;
    } else {
      assert t[m..] == s[..|t| - m];
      assert d[i..j + |s|] == t[..m] + s;
      assert d[i..i + |s|] == d[i..j + |s|][..|s|];
    }
  }

  /** No occurrence of `t` leads into the first occurrence of `s`. */
  lemma NothingLeadsIn(d: seq<byte>, s: seq<byte>, t: seq<byte>, j: int, i: int)
    requires !Contains(t, s) && forall m :: RunsIntoAt(t, s, m) ==> s <= t[..m] + s
    requires OccursAt(d, s, j) && (forall k :: 0 <= k < j ==> !OccursAt(d, s, k)) && OccursAt(d, t, i)
    ensures i + |t| <= j || i >= j
  {
    if i < j < i + |t| {
      LeadIn(d, s, t, j, i);
    }
  }

  /** When `t` tiles `s`, masking `s` first changes nothing. */
  lemma {:induction false} TiledMask(d: seq<byte>, s: seq<byte>, t: seq<byte>)
    requires 0 < |s| && 0 < |t| && StarFree(s) && StarFree(t) && !Contains(t, s) && Tiles(t, s)
    requires forall m :: RunsIntoAt(t, s, m) ==> s <= t[..m] + s
    ensures Scan(Scan(d, s), t) == Scan(d, t)
    decreases |d|
  {
    hide RunsIntoAt, Tiles, StarFree;
    if !Contains(d, s) {
      ScanIdentity(d, s);
    } else {
      var i :| OccursAt(d, s, i);
      var j := FirstOccurrence(d, s, i);
      var head, rest := d[..j], d[j + |s|..];
      assert d == head + (s + rest);
      TiledMask(rest, s, t);
      hide Scan;
      ScanSkipsHead(head, s + rest, s);
      ScanMatch(rest, s);
      forall k | OccursAt(d, t, k) ensures k + |t| <= |head| || k >= |head| {
        NothingLeadsIn(d, s, t, j, k);
      }
      ScanSplits(head, s + rest, t);
      TiledScan(s, t, rest);
      StarsStop(head, |s|, Scan(rest, s), t);
    }
  }

  lemma StarsStop(head: seq<byte>, n: nat, x: seq<byte>, t: seq<byte>)
    requires 0 < n && 0 < |t| && StarFree(t)
    ensures Scan(head + (Stars(n) + x), t) == Scan(head, t) + (Stars(n) + Scan(x, t))
  {
    FirstAndLast(t);
    ScanStars(n, x, t);
    var d := head + (Stars(n) + x);
    assert d[|head|] == STAR;
    forall i | 0 <= i < |head| < i + |t| ensures !OccursAt(d, t, i) {
      NotAtByte(d, t, i, |head| - i);
    }
    ScanSplits(head, Stars(n) + x, t);
  }

  lemma TwoUsable(s: seq<byte>, t: seq<byte>)
    requires 0 < |s| && 0 < |t| && StarFree(s) && StarFree(t)
    ensures Usable([s, t])
  {
  }

  /** `s` and `t` both begin the same longer string. */
  lemma PrefixesOfOne(s: seq<byte>, t: seq<byte>, w: seq<byte>)
    requires s <= w && t <= w && 0 < |s|
    ensures Contains(t, s) || EndsInside(t, s)
  {
    if |s| <= |t| {
      assert t[..|s|] == s;
      assert OccursAt(t, s, 0);
    } else {
      assert s[..|t|] == t;
      assert OccursAt(s, t, 0);
    }
  }

  lemma SafePairRemasks(s: seq<byte>, t: seq<byte>)
    requires 0 < |s| && 0 < |t| && StarFree(s) && StarFree(t) && PairSafe(s, t)
    ensures Usable([s, t]) && ChunkIndependent([s, t])
  {
    TwoUsable(s, t);
    if !Contains(t, s) && !EndsInside(t, s) {
      if m :| RunsIntoAt(t, s, m) {
        PrefixesOfOne(s, t, t[..m] + s);
      }
      OrderedSecretsChunkIndependence([s, t]);
    } else {
      forall raw, data ensures MaskAll(MaskAll(raw, [s, t]) + data, [s, t]) == MaskAll(raw + data, [s, t]) {
        OneOfTwoRemasks(s, t, raw, data);
      }
      hide MaskAll, Contains;
      RemasksIsEnough([s, t]);
    }
  }

  /** Only one of the two secrets matters. */
  lemma OneOfTwoRemasks(s: seq<byte>, t: seq<byte>, raw: seq<byte>, data: seq<byte>)
    requires 0 < |s| && 0 < |t| && StarFree(s) && StarFree(t) && PairSafe(s, t)
    requires Contains(t, s) || EndsInside(t, s)
    ensures AllNonEmpty([s, t]) && MaskAll(MaskAll(raw, [s, t]) + data, [s, t]) == MaskAll(raw + data, [s, t])
  {
    forall d ensures AllNonEmpty([s, t]) && MaskAll(d, [s, t]) == if Contains(t, s) then Scan(d, s) else Scan(d, t) {
      TwoSecrets(d, s, t);
      if Contains(t, s) {
        NeverMet(d, s, t);
      } else {
        TiledMask(d, s, t);
      }
    }
    RemaskOne(raw, data, if Contains(t, s) then s else t);
  }

  lemma NeverMet(d: seq<byte>, s: seq<byte>, t: seq<byte>)
    requires 0 < |s| && 0 < |t| && StarFree(s) && Contains(t, s)
    ensures Scan(Scan(d, s), t) == Scan(d, s)
  {
    var e := Scan(d, s);
    var k :| OccursAt(t, s, k);
    forall i ensures !OccursAt(e, t, i) {
      CleanScan(d, s, i + k);
      if OccursAt(e, t, i) {
        OccursWithin(e, t, i, s, k);
      }
    }
    hide Scan;
    ScanIdentity(e, t);
  }

  lemma OccursWithin(d: seq<byte>, t: seq<byte>, i: int, s: seq<byte>, k: int)
    requires OccursAt(d, t, i) && OccursAt(t, s, k)
    ensures OccursAt(d, s, i + k)
  {
    forall p | 0 <= p < |s| ensures d[i + k + p] == s[p] {
      assert d[i..i + |t|][k + p] == t[k..k + |s|][p];
    }
    assert d[i + k..i + k + |s|] == s;
  }

  // ---------------------------------------------------------------- two secrets: the condition is needed

  lemma {:induction false} MaskPads(n: nat, d: seq<byte>, secrets: seq<seq<byte>>)
    requires Usable(secrets)
    ensures MaskAll(Stars(n) + d, secrets) == Stars(n) + MaskAll(d, secrets)
    decreases |secrets|
  {
    if secrets != [] {
      FirstAndLast(secrets[0]);
      ScanStars(n, d, secrets[0]);
      MaskPads(n, Scan(d, secrets[0]), secrets[1..]);
    }
  }

  lemma MaskOfClean(d: seq<byte>, secrets: seq<seq<byte>>)
    requires Usable(secrets) && Clean(d, secrets)
    ensures MaskAll(d, secrets) == d
  {
    assert d + [] == d;
    forall s, i | s in secrets && 0 <= i < |d| ensures !OccursAt(d + [], s, i) {
      assert !Contains(d, s);
    }
    MaskSkipsHead(d, [], secrets);
    MaskStars([], secrets);
  }

  lemma TailIsClean(out: seq<byte>, x: seq<byte>, secrets: seq<seq<byte>>)
    requires Clean(out + x, secrets)
    ensures Clean(x, secrets)
  {
    forall s, i | s in secrets && OccursAt(x, s, i) ensures Contains(out + x, s) {
      assert (out + x)[|out| + i..|out| + i + |s|] == x[i..i + |s|];
      assert OccursAt(out + x, s, |out| + i);
    }
  }

  /** Two chunks, the first long enough to be released in part. */
  lemma {:induction false} TwoChunks(secrets: seq<seq<byte>>, a: seq<byte>, b: seq<byte>)
    requires Usable(secrets) && 0 < MaxLength(secrets) <= |a|
    ensures Redact(secrets, [a, b]) == MaskAll(MaskAll(a, secrets) + b, secrets)
    ensures Flatten([a, b]) == a + b
  {
    PushTwo(secrets, a, b);
    PushSplits(secrets, [], a);
    assert [] + a == a;
    MaskAllMasks(a, secrets);
    hide PushSpec, MaskAll, MaxLength, Clean, Redact;
    var first := PushSpec(secrets, [], a);
    SecondFlush(secrets, first.0, first.1, b);
  }

  lemma SecondFlush(secrets: seq<seq<byte>>, out: seq<byte>, pending: seq<byte>, b: seq<byte>)
    requires Usable(secrets) && Clean(out + pending, secrets) && |pending| == MaxLength(secrets) - 1
    ensures var r := PushSpec(secrets, pending, b);
            out + r.0 + MaskAll(r.1, secrets) == MaskAll(out + pending + b, secrets)
  {
    var r := PushSpec(secrets, pending, b);
    PushSplits(secrets, pending, b);
    MaskAllMasks(pending + b, secrets);
    HeldIsEnough(out, pending, b, secrets);
    hide PushSpec, MaskAll, MaxLength, Clean;
    if |pending + b| < MaxLength(secrets) {
      assert out + r.0 == out;
    } else {
      TailIsClean(r.0, r.1, secrets);
      MaskOfClean(r.1, secrets);
      Assoc(out, r.0, r.1);
    }
  }

  lemma PushTwo(secrets: seq<seq<byte>>, a: seq<byte>, b: seq<byte>)
    requires AllNonEmpty(secrets)
    ensures var first := PushSpec(secrets, [], a);
            var second := PushSpec(secrets, first.1, b);
            Redact(secrets, [a, b]) == first.0 + second.0 + MaskAll(second.1, secrets)
    ensures Flatten([a, b]) == a + b
  {
    assert [a, b][..1] == [a];
    PushFirst(secrets, a);
    hide PushSpec, MaskAll;
  }

  lemma PushFirst(secrets: seq<seq<byte>>, a: seq<byte>)
    requires AllNonEmpty(secrets)
    ensures Pushes(secrets, [a]) == PushSpec(secrets, [], a) && Flatten([a]) == a
  {
    hide PushSpec;
    assert [a][..0] == [];
    assert [] + PushSpec(secrets, [], a).0 == PushSpec(secrets, [], a).0;
    assert [] + a == a;
  }

  /** A stream on which masking in two parts differs from masking at once. */
  lemma CutShows(secrets: seq<seq<byte>>, x: seq<byte>, y: seq<byte>)
    requires Usable(secrets) && MaskAll(MaskAll(x, secrets) + y, secrets) != MaskAll(x + y, secrets)
    ensures !ChunkIndependent(secrets)
  {
    assert secrets != [];
    MaxLengthBounds(secrets, secrets[0]);
    var pad := Stars(MaxLength(secrets));
    TwoChunks(secrets, pad + x, y);
    MaskPads(|pad|, x, secrets);
    MaskPads(|pad|, MaskAll(x, secrets) + y, secrets);
    MaskPads(|pad|, x + y, secrets);
    hide MaskAll, Redact, MaxLength, Flatten;
    Assoc(pad, x, y);
    Assoc(pad, MaskAll(x, secrets), y);
    var chunks := [pad + x, y];
    assert Redact(secrets, chunks) == pad + MaskAll(MaskAll(x, secrets) + y, secrets);
    assert MaskAll(Flatten(chunks), secrets) == pad + MaskAll(x + y, secrets);
    DifferBehind(pad, MaskAll(MaskAll(x, secrets) + y, secrets), MaskAll(x + y, secrets));
  }

  /** Any number of secrets, exactly: every way of cutting a stream releases the masking of the
      whole stream if and only if what is masked may be masked again together with more data. */
  lemma ChunkIndependentIff(secrets: seq<seq<byte>>)
    requires Usable(secrets)
    ensures ChunkIndependent(secrets) <==> Remasks(secrets)
  {
    hide ChunkIndependent, MaskAll;
    if Remasks(secrets) {
      RemasksIsEnough(secrets);
    } else {
      var x, y :| MaskAll(MaskAll(x, secrets) + y, secrets) != MaskAll(x + y, secrets);
      CutShows(secrets, x, y);
    }
  }

  lemma DifferBehind(pad: seq<byte>, a: seq<byte>, b: seq<byte>)
    requires a != b
    ensures pad + a != pad + b
  {
    assert (pad + a)[|pad|..] == a && (pad + b)[|pad|..] == b;
  }

  lemma ShorterIsClean(d: seq<byte>, s: seq<byte>)
    requires 0 < |s| && (|d| < |s| || (|d| == |s| && d != s))
    ensures Scan(d, s) == d
  {
    if |d| == |s| {
      assert d[..|s|] == d;
      assert [d[0]] + d[1..] == d;
    }
  }

  /** A cut right after an occurrence of `t` inside `s`. */
  lemma CutInside(s: seq<byte>, t: seq<byte>, m: int)
    requires Usable([s, t]) && 0 < |s| && 0 < |t| && StarFree(s) && StarFree(t)
    requires OccursAt(s, t, m) && m + |t| < |s| && !Tiles(t, s)
    ensures !ChunkIndependent([s, t])
  {
    FirstAndLast(t);
    var x, y := s[..m + |t|], s[m + |t|..];
    assert x + y == s && s + [] == s;
    TwoSecrets(x, s, t);
    ShorterIsClean(x, s);
    var x' := Scan(x, t);
    assert x[m..m + |t|] == s[m..m + |t|];
    ScanErases(x, t, m);
    TwoSecrets(x' + y, s, t);
    assert (x' + y)[..|x'|] == x' && s[..|x'|] == x;
    ShorterIsClean(x' + y, s);
    RemaskOne(x, y, t);
    TwoSecrets(s, s, t);
    ScanMatch([], s);
    ScanStars(|s|, [], t);
    assert Stars(|s|) + [] == Stars(|s|);
    assert MaskAll(s, [s, t]) == Stars(|s|);
    hide *;
    CutShows([s, t], x, y);
  }

  lemma {:induction false} ScanStarsBy(d: seq<byte>, s: seq<byte>, m: int)
    requires 0 < |s| && OccursAt(d, s, m)
    ensures exists p :: 0 <= p <= m && Scan(d, s)[p] == STAR
    decreases m
  {
    OccursFirst(d, s);
    if d[..|s|] == s {
      assert Scan(d, s)[0] == STAR;
    } else {
      OccursShift(d, s, 1, m - 1);
      ScanStarsBy(d[1..], s, m - 1);
      var p :| 0 <= p <= m - 1 && Scan(d[1..], s)[p] == STAR;
      assert Scan(d, s)[p + 1] == STAR;
    }
  }

  /** A cut right after an occurrence of `t` that leads into `s`. */
  lemma CutBefore(s: seq<byte>, t: seq<byte>, m: int)
    requires Usable([s, t]) && 0 < |s| && 0 < |t| && StarFree(s) && StarFree(t)
    requires !Contains(t, s) && RunsIntoAt(t, s, m) && !(s <= t[..m] + s)
    ensures !ChunkIndependent([s, t])
  {
    var x, y, w := t, s[|t| - m..], t[..m] + s;
    assert x + y == w;
    TwoSecrets(t, s, t);
    ScanIdentity(t, s);
    ScanMatch([], t);
    assert t + [] == t && Stars(|t|) + [] == Stars(|t|);
    assert MaskAll(x, [s, t]) == Stars(|t|);
    MaskStars(Stars(|t|) + y, [s, t]);
    LeadKept(s, t, m);
    CutShows([s, t], x, y);
  }

  /** Masking the overlap at once keeps its first byte. */
  lemma {:induction false} LeadKept(s: seq<byte>, t: seq<byte>, m: int)
    requires 0 < |s| && 0 < |t| && StarFree(s) && StarFree(t)
    requires RunsIntoAt(t, s, m) && !(s <= t[..m] + s)
    ensures AllNonEmpty([s, t]) && MaskAll(t[..m] + s, [s, t])[0] == t[0] != STAR
  {
    var w := t[..m] + s;
    var e := Scan(w, s);
    TwoSecrets(w, s, t);
    LeadStarred(w, s, t, m);
    HeadKept(e, t);
    hide Scan, MaskAll;
  }

  lemma LeadStarred(w: seq<byte>, s: seq<byte>, t: seq<byte>, m: int)
    requires 0 < |s| && StarFree(t) && 0 < m < |t| && w == t[..m] + s && !(s <= w)
    ensures Scan(w, s)[0] == t[0] && !OccursAt(Scan(w, s), t, 0)
  {
    assert w[m..m + |s|] == s;
    ScanStarsBy(w, s, m);
    HeadKept(w, s);
    var e := Scan(w, s);
    hide Scan;
    var p :| 0 <= p <= m && e[p] == STAR;
    if |e| >= |t| {
      NotAtByte(e, t, 0, p);
    }
  }

  lemma HeadKept(d: seq<byte>, s: seq<byte>)
    requires 0 < |s| && d != [] && !OccursAt(d, s, 0)
    ensures Scan(d, s)[0] == d[0]
  {
  }

  /** Two secrets, exactly: every way of cutting a stream releases the masking of the whole
      stream if and only if the pair is safe in its order. */
  lemma TwoSecretsChunkIndependence(s: seq<byte>, t: seq<byte>)
    requires 0 < |s| && 0 < |t| && StarFree(s) && StarFree(t)
    ensures AllNonEmpty([s, t]) && (ChunkIndependent([s, t]) <==> PairSafe(s, t))
  {
    TwoUsable(s, t);
    hide ChunkIndependent, Tiles, StarFree, Contains, RunsIntoAt, OccursAt;
    if PairSafe(s, t) {
      SafePairRemasks(s, t);
    } else if EndsInside(t, s) && !Tiles(t, s) {
      var m :| OccursAt(s, t, m) && m + |t| < |s|;
      CutInside(s, t, m);
    } else {
      var m :| RunsIntoAt(t, s, m) && !(s <= t[..m] + s);
      CutBefore(s, t, m);
    }
  }
}
