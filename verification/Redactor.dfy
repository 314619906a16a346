/** The agent's streaming secret redactor (internal/agent/redactor.go).

    A redactor holds back the last `max - 1` bytes of what it has seen, so that a secret
    that arrives in pieces is still masked before any part of it is released.  The first
    half of the module is the specification and what is proved about it; the class at the
    end is the redactor itself. */
module Redactor {

  type byte = b: int | 0 <= b < 256

  const STAR: byte := 42

  // ---------------------------------------------------------------- masking one buffer

  function Stars(n: nat): (r: seq<byte>)
    ensures |r| == n
    ensures forall i :: 0 <= i < n ==> r[i] == STAR
  {
    seq(n, _ => STAR)
  }

  ghost predicate OccursAt(d: seq<byte>, s: seq<byte>, i: int) {
    0 <= i && i + |s| <= |d| && d[i..i + |s|] == s
  }

  ghost predicate Contains(d: seq<byte>, s: seq<byte>) {
    exists i :: OccursAt(d, s, i)
  }

  /** Masking as a left-to-right scan: a match is starred and skipped, any other byte is kept. */
  function Scan(d: seq<byte>, s: seq<byte>): (r: seq<byte>)
    requires |s| > 0
    ensures |r| == |d|
    decreases |d|
  {
    if |d| < |s| then d
    else if d[..|s|] == s then Stars(|s|) + Scan(d[|s|..], s)
    else [d[0]] + Scan(d[1..], s)
  }

  predicate AllNonEmpty(secrets: seq<seq<byte>>) {
    forall s :: s in secrets ==> |s| > 0
  }

  function MaskAll(d: seq<byte>, secrets: seq<seq<byte>>): (r: seq<byte>)
    requires AllNonEmpty(secrets)
    ensures |r| == |d|
    decreases |secrets|
  {
    if secrets == [] then d else MaskAll(Scan(d, secrets[0]), secrets[1..])
  }

  lemma OccursShift(d: seq<byte>, s: seq<byte>, n: nat, i: nat)
    requires n <= |d|
    ensures OccursAt(d[n..], s, i) <==> OccursAt(d, s, n + i)
  {
  }

  lemma OccursFirst(d: seq<byte>, s: seq<byte>)
    requires |s| <= |d|
    ensures OccursAt(d, s, 0) <==> d[..|s|] == s
  {
  }

  /** Bytes in front of the first occurrence pass through a scan unchanged. */
  lemma {:induction false} ScanSkips(d: seq<byte>, s: seq<byte>, n: nat)
    requires 0 < |s| && n <= |d|
    requires forall i :: 0 <= i < n ==> !OccursAt(d, s, i)
    ensures Scan(d, s) == d[..n] + Scan(d[n..], s)
    decreases n
  {
    if n == 0 {
      assert d[0..] == d;
    } else if |d| < |s| {
      assert d == d[..n] + d[n..];
    } else {
      OccursFirst(d, s);
      forall i | 0 <= i < n - 1 ensures !OccursAt(d[1..], s, i) {
        OccursShift(d, s, 1, i);
      }
      ScanSkips(d[1..], s, n - 1);
      assert d[1..][n - 1..] == d[n..];
      assert d[..n] == [d[0]] + d[1..][..n - 1];
    }
  }

  lemma ScanIdentity(d: seq<byte>, s: seq<byte>)
    requires 0 < |s|
    requires !Contains(d, s)
    ensures Scan(d, s) == d
  {
    forall i | 0 <= i < |d| ensures !OccursAt(d, s, i) {
    }
    ScanSkips(d, s, |d|);
    assert d[|d|..] == [];
    assert d[..|d|] == d;
  }

  /** A scan only ever writes stars, and only inside an occurrence of the secret. */
  lemma {:induction false} ScanMarks(d: seq<byte>, s: seq<byte>, i: nat)
    requires 0 < |s| && i < |d|
    ensures Scan(d, s)[i] == d[i]
            || (Scan(d, s)[i] == STAR && exists j :: OccursAt(d, s, j) && j <= i < j + |s|)
    decreases |d|, 1
  {
    if |d| < |s| {
    } else if d[..|s|] == s {
      if i < |s| {
        OccursFirst(d, s);
        assert OccursAt(d, s, 0);
      } else {
        ScanMarksTail(d, s, |s|, i);
      }
    } else if i > 0 {
      ScanMarksTail(d, s, 1, i);
    }
  }

  lemma {:induction false} ScanMarksTail(d: seq<byte>, s: seq<byte>, n: nat, i: nat)
    requires 0 < |s| && 0 < n <= i < |d|
    ensures Scan(d[n..], s)[i - n] == d[i]
            || (Scan(d[n..], s)[i - n] == STAR && exists j :: OccursAt(d, s, j) && j <= i < j + |s|)
    decreases |d|, 0
  {
    ScanMarks(d[n..], s, i - n);
    hide Scan;
    if Scan(d[n..], s)[i - n] != d[i] {
      var j :| OccursAt(d[n..], s, j) && j <= i - n < j + |s|;
      OccursShift(d, s, n, j);
      assert OccursAt(d, s, n + j);
    }
  }

  /** A short prefix of a scan is either untouched or ends in a star. */
  lemma {:induction false} ScanPrefix(d: seq<byte>, s: seq<byte>, m: nat)
    requires 1 <= m <= |s| && m <= |d|
    ensures Scan(d, s)[..m] == d[..m] || Scan(d, s)[m - 1] == STAR
    decreases |d|
  {
    if |d| >= |s| && d[..|s|] != s {
      if m > 1 {
        ScanPrefix(d[1..], s, m - 1);
        assert d[..m] == [d[0]] + d[1..][..m - 1];
        assert Scan(d, s)[..m] == [d[0]] + Scan(d[1..], s)[..m - 1];
      }
    }
  }

  /** A secret that neither begins nor ends with a star is gone after a scan. */
  lemma {:induction false} ScanCleans(d: seq<byte>, s: seq<byte>)
    requires 0 < |s| && s[0] != STAR && s[|s| - 1] != STAR
    ensures !Contains(Scan(d, s), s)
    decreases |d|
  {
    var r := Scan(d, s);
    if |d| < |s| {
    } else if d[..|s|] == s {
      ScanCleans(d[|s|..], s);
      assert r[|s|..] == Scan(d[|s|..], s);
      forall i ensures !OccursAt(r, s, i) {
        if 0 <= i < |s| {
          assert r[i] == STAR;
          NotAtByte(r, s, i, 0);
        } else if i >= |s| {
          OccursShift(r, s, |s|, i - |s|);
        }
      }
    } else {
      ScanCleans(d[1..], s);
      assert r[1..] == Scan(d[1..], s);
      forall i ensures !OccursAt(r, s, i) {
        if i == 0 {
          OccursFirst(r, s);
          ScanPrefix(d, s, |s|);
          if r[|s| - 1] == STAR {
            NotAtByte(r, s, 0, |s| - 1);
          }
        } else if i > 0 {
          OccursShift(r, s, 1, i - 1);
        }
      }
    }
  }

  lemma NotAtByte(d: seq<byte>, s: seq<byte>, i: nat, k: nat)
    requires k < |s| && i + k < |d| && d[i + k] != s[k]
    ensures !OccursAt(d, s, i)
  {
  }

  // ---------------------------------------------------------------- streaming

  function MaxLength(secrets: seq<seq<byte>>): nat {
    if secrets == [] then 0
    else
      var m := MaxLength(secrets[..|secrets| - 1]);
      var last := |secrets[|secrets| - 1]|;
      if last > m then last else m
  }

  lemma {:induction false} MaxLengthBounds(secrets: seq<seq<byte>>, s: seq<byte>)
    requires s in secrets
    ensures |s| <= MaxLength(secrets)
    decreases |secrets|
  {
    if s != secrets[|secrets| - 1] {
      MaxLengthBounds(secrets[..|secrets| - 1], s);
    }
  }

  /** One push: the bytes released, and the bytes held back. */
  function PushSpec(secrets: seq<seq<byte>>, pending: seq<byte>, data: seq<byte>): (r: (seq<byte>, seq<byte>))
    requires AllNonEmpty(secrets)
  {
    var max := MaxLength(secrets);
    if max == 0 then (data, pending)
    else
      var combined := pending + data;
      var keep := max - 1;
      if |combined| <= keep then ([], combined)
      else
        var masked := MaskAll(combined, secrets);
        (masked[..|combined| - keep], masked[|combined| - keep..])
  }

  function Pushes(secrets: seq<seq<byte>>, chunks: seq<seq<byte>>): (r: (seq<byte>, seq<byte>))
    requires AllNonEmpty(secrets)
    decreases |chunks|
  {
    if chunks == [] then ([], [])
    else
      var (out, pending) := Pushes(secrets, chunks[..|chunks| - 1]);
      var (safe, rest) := PushSpec(secrets, pending, chunks[|chunks| - 1]);
      (out + safe, rest)
  }

  /** Everything a fresh redactor releases for a stream that arrives as `chunks` and is then flushed. */
  function Redact(secrets: seq<seq<byte>>, chunks: seq<seq<byte>>): seq<byte>
    requires AllNonEmpty(secrets)
  {
    var (out, pending) := Pushes(secrets, chunks);
    out + MaskAll(pending, secrets)
  }

  function Flatten(chunks: seq<seq<byte>>): seq<byte>
    decreases |chunks|
  {
    if chunks == [] then [] else Flatten(chunks[..|chunks| - 1]) + chunks[|chunks| - 1]
  }

  // ---------------------------------------------------------------- one secret

  /** Leading stars are inert for a secret that does not begin with one. */
  lemma {:induction false} ScanStars(n: nat, d: seq<byte>, s: seq<byte>)
    requires 0 < |s| && s[0] != STAR
    ensures Scan(Stars(n) + d, s) == Stars(n) + Scan(d, s)
  {
    forall i | 0 <= i < n ensures !OccursAt(Stars(n) + d, s, i) {
      NotAtByte(Stars(n) + d, s, i, 0);
    }
    ScanSkips(Stars(n) + d, s, n);
    assert (Stars(n) + d)[n..] == d;
    assert (Stars(n) + d)[..n] == Stars(n);
  }

  function Held(n: nat, s: seq<byte>): nat
    requires 0 < |s|
  {
    if n < |s| - 1 then n else |s| - 1
  }

  lemma Assoc(a: seq<byte>, b: seq<byte>, c: seq<byte>)
    ensures a + (b + c) == (a + b) + c
  {
  }

  lemma ScanMatch(rest: seq<byte>, s: seq<byte>)
    requires 0 < |s|
    ensures Scan(s + rest, s) == Stars(|s|) + Scan(rest, s)
  {
  }

  lemma ScanKeep(c: byte, rest: seq<byte>, s: seq<byte>)
    requires 0 < |s| && !OccursAt([c] + rest, s, 0)
    ensures Scan([c] + rest, s) == [c] + Scan(rest, s)
  {
  }

  /** The scan of `d` is `out + held`, where `held` is its last `|s| - 1` bytes (or all of it);
      however the stream goes on, only `held` still matters. */
  ghost predicate Resumable(d: seq<byte>, s: seq<byte>, out: seq<byte>, held: seq<byte>)
    requires 0 < |s|
  {
    && Scan(d, s) == out + held
    && |held| == Held(|d|, s)
    && forall more :: Scan(d + more, s) == out + Scan(held + more, s)
  }

  lemma {:induction false} ScanResumes(d: seq<byte>, s: seq<byte>) returns (out: seq<byte>, held: seq<byte>)
    requires 0 < |s| && s[0] != STAR
    ensures Resumable(d, s, out, held)
    decreases |d|
  {
    if |d| < |s| {
      out, held := [], d;
      forall more ensures Scan(d + more, s) == out + Scan(held + more, s) {
      }
    } else if d[..|s|] == s {
      var rest := d[|s|..];
      assert d == s + rest;
      out, held := ScanResumes(rest, s);
      out, held := ResumeAfterMatch(rest, s, out, held);
    } else {
      var rest := d[1..];
      assert d == [d[0]] + rest;
      OccursFirst(d, s);
      out, held := ScanResumes(rest, s);
      out := ResumeAfterByte(d[0], rest, s, out, held);
    }
  }

  lemma ResumeAfterByte(c: byte, rest: seq<byte>, s: seq<byte>, out1: seq<byte>, held: seq<byte>) returns (out: seq<byte>)
    requires 0 < |s| <= 1 + |rest| && !OccursAt([c] + rest, s, 0)
    requires Resumable(rest, s, out1, held)
    ensures Resumable([c] + rest, s, out, held)
  {
    hide Scan;
    out := [c] + out1;
    var d := [c] + rest;
    ScanKeep(c, rest, s);
    Assoc([c], out1, held);
    forall more ensures Scan(d + more, s) == out + Scan(held + more, s) {
      var tail := rest + more;
      Assoc([c], rest, more);
      OccursFirst(d, s);
      OccursFirst([c] + tail, s);
      assert ([c] + tail)[..|s|] == d[..|s|];
      ScanKeep(c, tail, s);
      Assoc([c], out1, Scan(held + more, s));
    }
  }

  lemma ResumeAfterMatch(rest: seq<byte>, s: seq<byte>, out1: seq<byte>, held1: seq<byte>)
      returns (out: seq<byte>, held: seq<byte>)
    requires 0 < |s| && s[0] != STAR
    requires Resumable(rest, s, out1, held1)
    ensures Resumable(s + rest, s, out, held)
  {
    hide Scan;
    var k := |s|;
    var d := s + rest;
    ScanMatch(rest, s);
    if |held1| == k - 1 {
      out, held := Stars(k) + out1, held1;
      Assoc(Stars(k), out1, held1);
      forall more ensures Scan(d + more, s) == out + Scan(held + more, s) {
        Assoc(s, rest, more);
        ScanMatch(rest + more, s);
        Assoc(Stars(k), out1, Scan(held1 + more, s));
      }
    } else {
      var j := k - 1 - |held1|;
      out, held := Stars(k - j), Stars(j) + held1;
      assert |out1| == 0;
      StarsSplit(k - j, j, held1);
      forall more ensures Scan(d + more, s) == out + Scan(held + more, s) {
        Assoc(s, rest, more);
        ScanMatch(rest + more, s);
        Assoc(Stars(j), held1, more);
        ScanStars(j, held1 + more, s);
        StarsSplit(k - j, j, Scan(held1 + more, s));
      }
    }
  }

  lemma StarsSplit(m: nat, n: nat, d: seq<byte>)
    ensures Stars(m + n) + d == Stars(m) + (Stars(n) + d)
  {
  }

  lemma MaskOneSecret(d: seq<byte>, s: seq<byte>)
    requires 0 < |s|
    ensures AllNonEmpty([s]) && MaskAll(d, [s]) == Scan(d, s) && MaxLength([s]) == |s|
    ensures |d| < |s| ==> Scan(d, s) == d
  {
  }

  /** What has been released, followed by what is held, is always the scan of the whole stream. */
  lemma {:induction false} PushesTrackScan(s: seq<byte>, chunks: seq<seq<byte>>)
    requires 0 < |s| && s[0] != STAR
    requires AllNonEmpty([s])
    ensures var (out, pending) := Pushes([s], chunks);
            Resumable(Flatten(chunks), s, out, pending)
    decreases |chunks|
  {
    if chunks == [] {
      forall more: seq<byte> ensures Scan([] + more, s) == [] + Scan([] + more, s) {
      }
    } else {
      var before := chunks[..|chunks| - 1];
      PushesTrackScan(s, before);
      var (out, pending) := Pushes([s], before);
      PushTracksScan(s, Flatten(before), out, pending, chunks[|chunks| - 1]);
    }
  }

  lemma PushTracksScan(s: seq<byte>, raw: seq<byte>, out: seq<byte>, pending: seq<byte>, data: seq<byte>)
    requires 0 < |s| && s[0] != STAR && AllNonEmpty([s])
    requires Resumable(raw, s, out, pending)
    ensures var (safe, rest) := PushSpec([s], pending, data);
            Resumable(raw + data, s, out + safe, rest)
  {
    var combined := pending + data;
    var keep := |s| - 1;
    MaskOneSecret(combined, s);
    var (safe, rest) := PushSpec([s], pending, data);
    var o, h := ScanResumes(combined, s);
    if |combined| <= keep {
      assert Scan(combined, s) == combined;
    } else {
      var masked := Scan(combined, s);
      assert masked == safe + rest;
    }
    assert |h| == |rest| && o + h == safe + rest;
    SplitUnique(o, h, safe, rest);
    assert |raw| == |out| + |pending|;
    Assoc(out, safe, rest);
    forall more ensures Scan(raw + data + more, s) == out + safe + Scan(rest + more, s) {
      Assoc(raw, data, more);
      Assoc(pending, data, more);
      assert Scan(raw + (data + more), s) == out + Scan(pending + (data + more), s);
      assert Scan(combined + more, s) == safe + Scan(rest + more, s);
      Assoc(out, safe, Scan(rest + more, s));
    }
  }

  lemma SplitUnique(a: seq<byte>, b: seq<byte>, c: seq<byte>, d: seq<byte>)
    requires a + b == c + d && |b| == |d|
    ensures a == c && b == d
  {
    assert (a + b)[..|a|] == a && (c + d)[..|c|] == c;
    assert (a + b)[|a|..] == b && (c + d)[|c|..] == d;
  }

  lemma RedactsAsScan(s: seq<byte>, chunks: seq<seq<byte>>)
    requires 0 < |s| && s[0] != STAR
    requires AllNonEmpty([s])
    ensures Redact([s], chunks) == Scan(Flatten(chunks), s)
  {
    PushesTrackScan(s, chunks);
    var (out, pending) := Pushes([s], chunks);
    MaskOneSecret(pending, s);
  }

  lemma {:induction false} ScanOfStarSecret(d: seq<byte>, n: nat)
    requires 0 < n
    ensures Scan(d, Stars(n)) == d
    decreases |d|
  {
    if |d| < n {
    } else if d[..n] == Stars(n) {
      ScanOfStarSecret(d[n..], n);
    } else {
      ScanOfStarSecret(d[1..], n);
    }
  }

  lemma PushesAppend(secrets: seq<seq<byte>>, chunks: seq<seq<byte>>, data: seq<byte>)
    requires AllNonEmpty(secrets)
    ensures var (out, pending) := Pushes(secrets, chunks);
            var (safe, rest) := PushSpec(secrets, pending, data);
            Pushes(secrets, chunks + [data]) == (out + safe, rest)
    ensures Flatten(chunks + [data]) == Flatten(chunks) + data
  {
  }

  /** A push either holds everything or splits the masked buffer. */
  lemma PushSplits(secrets: seq<seq<byte>>, pending: seq<byte>, data: seq<byte>)
    requires AllNonEmpty(secrets) && MaxLength(secrets) > 0
    ensures var (safe, rest) := PushSpec(secrets, pending, data);
            var combined := pending + data;
            var keep := MaxLength(secrets) - 1;
            && (|combined| <= keep ==> safe == [] && rest == combined)
            && (|combined| > keep ==> safe + rest == MaskAll(combined, secrets))
            && |rest| == if |pending| + |data| <= keep then |pending| + |data| else keep
  {
  }

  lemma {:induction false} PushOne(s: seq<byte>, pending: seq<byte>, data: seq<byte>, safe: seq<byte>, rest: seq<byte>)
    requires 0 < |s| && AllNonEmpty([s])
    requires (safe, rest) == PushSpec([s], pending, data)
    ensures safe + rest == Scan(pending + data, s)
  {
    hide *;
    MaskOneSecret(pending + data, s);
    PushSplits([s], pending, data);
    assert [] + (pending + data) == pending + data;
  }

  lemma PushOneHolds(s: seq<byte>, pending: seq<byte>, data: seq<byte>)
    requires 0 < |s| && AllNonEmpty([s])
    ensures |PushSpec([s], pending, data).1| == Held(|pending| + |data|, s)
  {
    hide Scan, MaskAll, MaxLength, PushSpec;
    MaskOneSecret(pending + data, s);
    PushSplits([s], pending, data);
  }

  lemma {:induction false} PushesOfStarSecret(n: nat, chunks: seq<seq<byte>>)
    requires 0 < n && AllNonEmpty([Stars(n)])
    ensures var (out, pending) := Pushes([Stars(n)], chunks);
            out + pending == Flatten(chunks)
    decreases |chunks|
  {
    if chunks != [] {
      var before, data := chunks[..|chunks| - 1], chunks[|chunks| - 1];
      PushesOfStarSecret(n, before);
      var (out, pending) := Pushes([Stars(n)], before);
      var (safe, rest) := PushSpec([Stars(n)], pending, data);
      PushOne(Stars(n), pending, data, safe, rest);
      PushOneHolds(Stars(n), pending, data);
      ScanOfStarSecret(pending + data, n);
      Assoc(out, pending, data);
      Assoc(out, safe, rest);
    }
  }

  lemma RedactsStarSecret(n: nat, chunks: seq<seq<byte>>)
    requires 0 < n && AllNonEmpty([Stars(n)])
    ensures Redact([Stars(n)], chunks) == Scan(Flatten(chunks), Stars(n))
  {
    PushesOfStarSecret(n, chunks);
    var (_, pending) := Pushes([Stars(n)], chunks);
    MaskOneSecret(pending, Stars(n));
    ScanOfStarSecret(pending, n);
    ScanOfStarSecret(Flatten(chunks), n);
  }

  lemma {:induction false} RedactOne(s: seq<byte>, a: seq<byte>)
    requires 0 < |s| && AllNonEmpty([s])
    ensures Flatten([a]) == a
    ensures var (safe, rest) := PushSpec([s], [], a);
            Pushes([s], [a]) == (safe, rest) && Redact([s], [a]) == safe + Scan(rest, s)
  {
    PushesAppend([s], [], a);
    assert [] + [a] == [a];
    var (safe, rest) := PushSpec([s], [], a);
    assert [] + safe == safe && [] + a == a;
    MaskOneSecret(rest, s);
  }

  lemma {:induction false} RedactPair(s: seq<byte>, a: seq<byte>, b: seq<byte>)
    requires 0 < |s| && AllNonEmpty([s])
    ensures Flatten([a, b]) == a + b
    ensures var (out0, p0) := PushSpec([s], [], a);
            var (out1, p1) := PushSpec([s], p0, b);
            Redact([s], [a, b]) == out0 + out1 + Scan(p1, s)
  {
    RedactOne(s, a);
    PushesAppend([s], [a], b);
    assert [a] + [b] == [a, b];
    var (_, p0) := PushSpec([s], [], a);
    var (_, p1) := PushSpec([s], p0, b);
    MaskOneSecret(p1, s);
  }

  lemma ScanPairOfStarLed(s: seq<byte>)
    requires 0 < |s|
    ensures Scan(s + s[1..], s) == Stars(|s|) + s[1..]
    ensures Scan(s, s) == Stars(|s|)
  {
  }

  lemma StarLedFirstChunk(s: seq<byte>)
    requires 0 < |s| && AllNonEmpty([s])
    ensures PushSpec([s], [], s) == (Stars(1), Stars(|s| - 1))
  {
    hide Scan;
    ScanPairOfStarLed(s);
    assert [] + s == s;
    var (safe, rest) := PushSpec([s], [], s);
    PushOne(s, [], s, safe, rest);
    PushOneHolds(s, [], s);
    assert Stars(|s|) == Stars(1) + Stars(|s| - 1);
    SplitUnique(safe, rest, Stars(1), Stars(|s| - 1));
  }

  lemma OccursAfter(pad: seq<byte>, s: seq<byte>)
    ensures OccursAt(pad + s, s, |pad|)
  {
  }

  lemma OneStar(s: seq<byte>)
    requires |s| == 1 && s[0] == STAR
    ensures s == Stars(1)
  {
  }

  /** The tail of a masked first copy and the rest of a second one read as the secret again. */
  lemma StarLedRematch(s: seq<byte>)
    requires 1 < |s| && s[0] == STAR && s != Stars(|s|)
    ensures Scan(Stars(|s| - 1) + s[1..], s) != Stars(|s| - 1) + s[1..]
  {
    var k, w := |s|, s[1..];
    var combined := Stars(k - 1) + w;
    assert s == Stars(1) + w;
    var pad := Stars(k - 2);
    StarsSplit(k - 2, 1, w);
    assert combined == pad + s;
    OccursAfter(pad, s);
    ScanErases(combined, s, k - 2);
  }

  /** A secret that begins with a star (but is not all stars) is masked differently when its
      first copy and the rest of a second one arrive in separate chunks. */
  lemma StarLedSecretDependsOnChunks(s: seq<byte>)
    requires 0 < |s| && s[0] == STAR && s != Stars(|s|)
    requires AllNonEmpty([s])
    ensures Redact([s], [s, s[1..]]) != Scan(Flatten([s, s[1..]]), s)
  {
    hide *;
    if |s| == 1 {
      OneStar(s);
    }
    StarLedChunked(s);
    StarLedWhole(s);
    StarLedRematch(s);
    DropFirst(Stars(1), Scan(Stars(|s| - 1) + s[1..], s), Stars(|s| - 1) + s[1..]);
  }

  lemma {:induction false} StarLedWhole(s: seq<byte>)
    requires 0 < |s| && AllNonEmpty([s])
    ensures Scan(Flatten([s, s[1..]]), s) == Stars(1) + (Stars(|s| - 1) + s[1..])
  {
    hide *;
    RedactPair(s, s, s[1..]);
    ScanPairOfStarLed(s);
    StarsSplit(1, |s| - 1, s[1..]);
  }

  lemma {:induction false} StarLedChunked(s: seq<byte>)
    requires 0 < |s| && AllNonEmpty([s])
    ensures Redact([s], [s, s[1..]]) == Stars(1) + Scan(Stars(|s| - 1) + s[1..], s)
  {
    var k, w := |s|, s[1..];
    RedactPair(s, s, w);
    StarLedFirstChunk(s);
    var (out1, p1) := PushSpec([s], Stars(k - 1), w);
    PushOne(s, Stars(k - 1), w, out1, p1);
    PushOneHolds(s, Stars(k - 1), w);
    assert Scan(p1, s) == p1;
    Assoc(Stars(1), out1, p1);
  }

  lemma DropFirst(a: seq<byte>, b: seq<byte>, c: seq<byte>)
    requires b != c
    ensures a + b != a + c
  {
    assert (a + b)[|a|..] == b && (a + c)[|a|..] == c;
  }

  /** If a secret with a non-star byte occurs anywhere, a scan changes the buffer. */
  lemma {:induction false} ScanErases(d: seq<byte>, s: seq<byte>, i: int)
    requires 0 < |s| && s != Stars(|s|)
    requires OccursAt(d, s, i)
    ensures Scan(d, s) != d
    decreases |d|
  {
    OccursFirst(d, s);
    if d[..|s|] == s {
      assert Scan(d, s)[..|s|] == Stars(|s|);
    } else {
      OccursShift(d, s, 1, i - 1);
      ScanErases(d[1..], s, i - 1);
      assert Scan(d, s)[1..] == Scan(d[1..], s);
    }
  }

  /** Chunk independence, exactly: with one secret, every way of cutting a stream gives the
      masking of the whole stream if and only if the secret does not begin with a star
      (or is nothing but stars, when masking changes nothing). */
  lemma {:induction false} SingleSecretChunkIndependence(s: seq<byte>)
    requires 0 < |s| && AllNonEmpty([s])
    ensures (forall chunks :: Redact([s], chunks) == Scan(Flatten(chunks), s))
            <==> (s[0] != STAR || s == Stars(|s|))
  {
    hide *;
    if s[0] != STAR {
      forall chunks ensures Redact([s], chunks) == Scan(Flatten(chunks), s) {
        RedactsAsScan(s, chunks);
      }
    } else if s == Stars(|s|) {
      forall chunks ensures Redact([s], chunks) == Scan(Flatten(chunks), s) {
        PushesOfStarSecret(|s|, chunks);
        RedactsStarSecret(|s|, chunks);
      }
    } else {
      StarLedSecretDependsOnChunks(s);
    }
  }

  lemma StarLedOutput(s: seq<byte>)
    requires 0 < |s| && AllNonEmpty([s])
    ensures Redact([s], [s + s[1..]]) == Stars(|s|) + s[1..]
  {
    var k, w := |s|, s[1..];
    RedactOne(s, s + w);
    ScanPairOfStarLed(s);
    assert [] + (s + w) == s + w;
    var (safe, rest) := PushSpec([s], [], s + w);
    PushOne(s, [], s + w, safe, rest);
    PushOneHolds(s, [], s + w);
    SplitUnique(safe, rest, Stars(k), w);
  }

  /** A star-led secret leaks: `s` followed by its own tail is released with `s` visible in it. */
  lemma StarLedSecretLeaks(s: seq<byte>)
    requires 0 < |s| && s[0] == STAR && AllNonEmpty([s])
    ensures Contains(Redact([s], [s + s[1..]]), s)
  {
    var k, w := |s|, s[1..];
    StarLedOutput(s);
    assert s == Stars(1) + w;
    StarsSplit(k - 1, 1, w);
    OccursAfter(Stars(k - 1), s);
  }

  lemma {:induction false} StarTailedScan(s: seq<byte>, n: nat)
    requires 0 < n < |s| && s[0] != STAR
    requires forall i :: n <= i < |s| ==> s[i] == STAR
    ensures Scan(s[..n] + s, s) == s[..n] + Stars(|s|)
  {
    var v := s[..n];
    var d := v + s;
    forall i | 0 <= i < n ensures !OccursAt(d, s, i) {
      // a copy at i would need d[i] == s[0], no star, and d[i + n] == s[n], a star;
      // but both of these bytes of v + s are s[i]
      assert d[i] == s[i] && d[i + n] == s[i];
      if s[i] == STAR {
        NotAtByte(d, s, i, 0);
      } else {
        NotAtByte(d, s, i, n);
      }
    }
    ScanSkips(d, s, n);
    assert d[n..] == s && d[..n] == v;
    ScanPairOfStarLed(s);
  }

  /** A secret that ends with stars leaks too: its body without the trailing stars, followed by itself. */
  lemma StarTailedSecretLeaks(s: seq<byte>, m: nat)
    requires 0 < m < |s| && s[0] != STAR && AllNonEmpty([s])
    requires forall i :: |s| - m <= i < |s| ==> s[i] == STAR
    requires s[|s| - m - 1] != STAR
    ensures Contains(Redact([s], [s[..|s| - m] + s]), s)
  {
    var n := |s| - m;
    var d := s[..n] + s;
    StarTailedScan(s, n);
    RedactsAsScan(s, [d]);
    RedactOne(s, d);
    var out := s[..n] + Stars(|s|);
    assert out[0..0 + |s|] == s;
    assert OccursAt(out, s, 0);
  }

  lemma {:induction false} TrailingStars(s: seq<byte>, n: nat) returns (m: nat)
    requires 0 < n < |s| && s[0] != STAR
    requires forall i :: |s| - n <= i < |s| ==> s[i] == STAR
    ensures 0 < m < |s| && s[|s| - m - 1] != STAR
    ensures forall i :: |s| - m <= i < |s| ==> s[i] == STAR
    decreases |s| - n
  {
    if s[|s| - n - 1] != STAR {
      m := n;
    } else {
      m := TrailingStars(s, n + 1);
    }
  }

  /** What masking promises, exactly: with one secret, no stream and no chunking releases the
      secret if and only if it neither begins nor ends with a star. */
  lemma SingleSecretNeverReleased(s: seq<byte>)
    requires 0 < |s| && AllNonEmpty([s])
    ensures (forall chunks :: !Contains(Redact([s], chunks), s))
            <==> (s[0] != STAR && s[|s| - 1] != STAR)
  {
    hide *;
    if s[0] == STAR {
      StarLedSecretLeaks(s);
    } else if s[|s| - 1] == STAR {
      var m := TrailingStars(s, 1);
      StarTailedSecretLeaks(s, m);
    } else {
      forall chunks ensures !Contains(Redact([s], chunks), s) {
        RedactsAsScan(s, chunks);
        ScanCleans(Flatten(chunks), s);
      }
    }
  }

  // ---------------------------------------------------------------- any set of secrets

  ghost predicate StarFree(s: seq<byte>) {
    STAR !in s
  }

  ghost predicate AllStarFree(secrets: seq<seq<byte>>) {
    forall s :: s in secrets ==> StarFree(s)
  }

  ghost predicate InsideSecret(raw: seq<byte>, secrets: seq<seq<byte>>, i: int) {
    exists s, j :: s in secrets && OccursAt(raw, s, j) && j <= i < j + |s|
  }

  /** `t` is `raw` with some bytes starred, each of them inside an occurrence of a secret in `raw`. */
  ghost predicate Masks(t: seq<byte>, raw: seq<byte>, secrets: seq<seq<byte>>) {
    |t| == |raw| &&
    forall i :: 0 <= i < |t| && t[i] != raw[i] ==> t[i] == STAR && InsideSecret(raw, secrets, i)
  }

  ghost predicate Clean(t: seq<byte>, secrets: seq<seq<byte>>) {
    forall s :: s in secrets ==> !Contains(t, s)
  }

  /** `t` differs from `raw` only by stars. */
  ghost predicate Starred(t: seq<byte>, raw: seq<byte>) {
    |t| == |raw| && forall i :: 0 <= i < |t| ==> t[i] == raw[i] || t[i] == STAR
  }

  lemma OccurrenceIsOlder(t: seq<byte>, raw: seq<byte>, s: seq<byte>, i: int)
    requires Starred(t, raw) && StarFree(s) && OccursAt(t, s, i)
    ensures OccursAt(raw, s, i)
  {
  }

  lemma {:induction false} MaskAllMasks(d: seq<byte>, secrets: seq<seq<byte>>)
    requires AllNonEmpty(secrets) && AllStarFree(secrets)
    ensures Masks(MaskAll(d, secrets), d, secrets)
    ensures Clean(MaskAll(d, secrets), secrets)
    decreases |secrets|
  {
    if secrets != [] {
      var s, rest := secrets[0], secrets[1..];
      var e := Scan(d, s);
      var r := MaskAll(d, secrets);
      forall i | 0 <= i < |d| ensures e[i] == d[i] || (e[i] == STAR && InsideSecret(d, secrets, i)) {
        ScanMarks(d, s, i);
      }
      MaskAllMasks(e, rest);
      forall i | 0 <= i < |r| && r[i] != d[i] ensures r[i] == STAR && InsideSecret(d, secrets, i) {
        if r[i] != e[i] {
          var s', j :| s' in rest && OccursAt(e, s', j) && j <= i < j + |s'|;
          OccurrenceIsOlder(e, d, s', j);
          assert s' in secrets;
        }
      }
      assert s[0] in s && s[|s| - 1] in s;
      ScanCleans(d, s);
      forall s' | s' in secrets ensures !Contains(r, s') {
        if s' != s { assert s' in rest; }
        else if Contains(r, s) {
          var i :| OccursAt(r, s, i);
          OccurrenceIsOlder(r, e, s, i);
        }
      }
    }
  }

  /** Masking the held bytes together with new data extends a masking of the stream so far. */
  lemma MaskingExtends(out: seq<byte>, pending: seq<byte>, raw: seq<byte>, data: seq<byte>, secrets: seq<seq<byte>>)
    requires AllNonEmpty(secrets) && AllStarFree(secrets)
    requires Masks(out + pending, raw, secrets)
    ensures Masks(out + MaskAll(pending + data, secrets), raw + data, secrets)
  {
    var r := MaskAll(pending + data, secrets);
    MaskAllMasks(pending + data, secrets);
    hide MaskAll, InsideSecret;
    var t, t', raw' := out + pending, out + r, raw + data;
    forall i | 0 <= i < |t'| && t'[i] != raw'[i] ensures t'[i] == STAR && InsideSecret(raw', secrets, i) {
      if i < |t| && t[i] != raw[i] {
        InsideGrows(raw, data, secrets, i);
        if i >= |out| {
          assert (pending + data)[i - |out|] == STAR;
        }
      } else {
        assert r[i - |out|] != (pending + data)[i - |out|];
        NewlyInside(out, pending, raw, data, secrets, i);
      }
    }
  }

  lemma NewlyInside(out: seq<byte>, pending: seq<byte>, raw: seq<byte>, data: seq<byte>, secrets: seq<seq<byte>>, i: int)
    requires AllStarFree(secrets) && Masks(out + pending, raw, secrets)
    requires i >= |out| && InsideSecret(pending + data, secrets, i - |out|)
    ensures InsideSecret(raw + data, secrets, i)
  {
    var combined, raw' := pending + data, raw + data;
    var s, j :| s in secrets && OccursAt(combined, s, j) && j <= i - |out| < j + |s|;
    hide InsideSecret;
    var held := raw'[|out|..];
    assert forall k :: 0 <= k < |pending| ==> (out + pending)[|out| + k] == pending[k];
    assert Starred(combined, held);
    OccurrenceIsOlder(combined, held, s, j);
    assert raw'[|out| + j..|out| + j + |s|] == held[j..j + |s|];
    assert OccursAt(raw', s, |out| + j);
    OccursInside(raw', secrets, s, |out| + j, i);
  }

  lemma OccursInside(raw: seq<byte>, secrets: seq<seq<byte>>, s: seq<byte>, j: int, i: int)
    requires s in secrets && OccursAt(raw, s, j) && j <= i < j + |s|
    ensures InsideSecret(raw, secrets, i)
  {
  }

  lemma OccursInTail(out: seq<byte>, r: seq<byte>, s: seq<byte>, i: int)
    requires OccursAt(out + r, s, i) && i >= |out|
    ensures OccursAt(r, s, i - |out|)
  {
    assert (out + r)[i..i + |s|] == r[i - |out|..i - |out| + |s|];
  }

  lemma OccursInFront(out: seq<byte>, pending: seq<byte>, r: seq<byte>, s: seq<byte>, i: int)
    requires OccursAt(out + r, s, i) && i < |out| && |s| <= |pending| + 1 && StarFree(s)
    requires |pending| <= |r| && Starred(r[..|pending|], pending)
    ensures Contains(out + pending, s)
  {
    var t, u := out + pending, out + r[..|pending|];
    assert u[i..i + |s|] == (out + r)[i..i + |s|];
    assert Starred(u, t);
    OccurrenceIsOlder(u, t, s, i);
  }

  /** No secret straddles the released and the held part. */
  lemma {:induction false} ReleaseIsClean(out: seq<byte>, pending: seq<byte>, data: seq<byte>, secrets: seq<seq<byte>>)
    requires AllNonEmpty(secrets) && AllStarFree(secrets) && MaxLength(secrets) > 0
    requires out == [] || (|pending| == MaxLength(secrets) - 1 && Clean(out + pending, secrets))
    ensures Clean(out + MaskAll(pending + data, secrets), secrets)
  {
    var r := MaskAll(pending + data, secrets);
    MaskAllMasks(pending + data, secrets);
    assert Starred(r[..|pending|], pending);
    hide MaskAll, Masks, Starred, OccursAt, InsideSecret;
    forall s | s in secrets ensures !Contains(out + r, s) {
      if Contains(out + r, s) {
        var i :| OccursAt(out + r, s, i);
        MaxLengthBounds(secrets, s);
        if i >= |out| {
          OccursInTail(out, r, s, i);
        } else {
          OccursInFront(out, pending, r, s, i);
        }
      }
    }
  }

  /** The streaming invariant: what has been released and what is held together mask the
      stream so far; once anything has been released they are also clean. */
  ghost predicate Streamed(out: seq<byte>, pending: seq<byte>, raw: seq<byte>, secrets: seq<seq<byte>>)
    requires AllNonEmpty(secrets)
  {
    && Masks(out + pending, raw, secrets)
    && (out == [] || (|pending| == MaxLength(secrets) - 1 && Clean(out + pending, secrets)))
  }

  lemma MasksExtend(t: seq<byte>, raw: seq<byte>, data: seq<byte>, secrets: seq<seq<byte>>)
    requires Masks(t, raw, secrets)
    ensures Masks(t + data, raw + data, secrets)
  {
    forall i | 0 <= i < |t + data| && (t + data)[i] != (raw + data)[i]
      ensures (t + data)[i] == STAR && InsideSecret(raw + data, secrets, i)
    {
      assert t[i] != raw[i];
      InsideGrows(raw, data, secrets, i);
    }
  }

  lemma InsideGrows(raw: seq<byte>, data: seq<byte>, secrets: seq<seq<byte>>, i: int)
    requires InsideSecret(raw, secrets, i)
    ensures InsideSecret(raw + data, secrets, i)
  {
    var s, j :| s in secrets && OccursAt(raw, s, j) && j <= i < j + |s|;
    assert (raw + data)[j..j + |s|] == raw[j..j + |s|];
    assert OccursAt(raw + data, s, j);
  }

  lemma PushStreams(secrets: seq<seq<byte>>, out: seq<byte>, pending: seq<byte>, raw: seq<byte>, data: seq<byte>)
    requires AllNonEmpty(secrets) && AllStarFree(secrets) && MaxLength(secrets) > 0
    requires Streamed(out, pending, raw, secrets)
    ensures var (safe, rest) := PushSpec(secrets, pending, data);
            Streamed(out + safe, rest, raw + data, secrets)
  {
    hide MaskAll, PushSpec, MaxLength, Masks, Clean;
    var combined := pending + data;
    var (safe, rest) := PushSpec(secrets, pending, data);
    PushSplits(secrets, pending, data);
    Assoc(out, safe, rest);
    if |combined| < MaxLength(secrets) {
      assert safe == [] && out + [] == out;
      if out != [] {
        assert data == [] && combined == pending && raw + data == raw;
      }
      Assoc(out, pending, data);
      MasksExtend(out + pending, raw, data, secrets);
    } else {
      assert safe + rest == MaskAll(combined, secrets);
      MaskingExtends(out, pending, raw, data, secrets);
      ReleaseIsClean(out, pending, data, secrets);
    }
  }

  lemma {:induction false} PushesStream(secrets: seq<seq<byte>>, chunks: seq<seq<byte>>)
    requires AllNonEmpty(secrets) && AllStarFree(secrets) && MaxLength(secrets) > 0
    ensures var (out, pending) := Pushes(secrets, chunks);
            Streamed(out, pending, Flatten(chunks), secrets)
    decreases |chunks|
  {
    if chunks != [] {
      var before := chunks[..|chunks| - 1];
      PushesStream(secrets, before);
      var (out, pending) := Pushes(secrets, before);
      PushStreams(secrets, out, pending, Flatten(before), chunks[|chunks| - 1]);
    }
  }

  lemma {:induction false} PushesWithoutSecrets(chunks: seq<seq<byte>>)
    ensures AllNonEmpty([]) && Pushes([], chunks) == (Flatten(chunks), [])
    decreases |chunks|
  {
    if chunks != [] {
      PushesWithoutSecrets(chunks[..|chunks| - 1]);
    }
  }

  /** For any list of star-free secrets and any chunking: the output has the input's length,
      contains no secret, and differs from the input only by stars placed inside genuine
      occurrences of a secret in the raw stream. */
  lemma RedactionIsSafe(secrets: seq<seq<byte>>, chunks: seq<seq<byte>>)
    requires AllNonEmpty(secrets) && AllStarFree(secrets)
    ensures Masks(Redact(secrets, chunks), Flatten(chunks), secrets)
    ensures Clean(Redact(secrets, chunks), secrets)
  {
    if secrets == [] {
      PushesWithoutSecrets(chunks);
    } else {
      MaxLengthBounds(secrets, secrets[0]);
      PushesStream(secrets, chunks);
      var (out, pending) := Pushes(secrets, chunks);
      var raw := Flatten(chunks);
      assert pending + [] == pending && raw + [] == raw;
      MaskingExtends(out, pending, raw, [], secrets);
      ReleaseIsClean(out, pending, [], secrets);
    }
  }

  /** With several secrets the exact output does depend on the chunking, even when they have
      the same length: "bc" is masked before "ab" unless the stream is cut after "ab". */
  lemma SeveralSecretsDependOnChunks(a: byte, b: byte, c: byte)
    requires a != b && b != c && a != c && STAR !in [a, b, c]
    ensures var secrets := [[b, c], [a, b]];
            AllNonEmpty(secrets) && AllStarFree(secrets) &&
            Flatten([[a, b], [c]]) == [a, b, c] &&
            MaskAll([a, b, c], secrets) == [a, STAR, STAR] &&
            Redact(secrets, [[a, b], [c]]) == [STAR, STAR, c]
  {
    var ab, bc := [a, b], [b, c];
    var secrets := [bc, ab];
    TwoMasks(a, b, c);
    TwoPushes(a, b, c);
    PushesAppend(secrets, [], ab);
    PushesAppend(secrets, [ab], [c]);
    assert [] + [ab] == [ab] && [ab] + [[c]] == [ab, [c]];
    assert [] + ab == ab && ab + [c] == [a, b, c];
    assert [] + [STAR] == [STAR] && [STAR] + [STAR] + [c] == [STAR, STAR, c];
  }

  lemma TwoPushes(a: byte, b: byte, c: byte)
    requires a != b && b != c && a != c && STAR !in [a, b, c]
    ensures var secrets := [[b, c], [a, b]];
            && AllNonEmpty(secrets)
            && PushSpec(secrets, [], [a, b]) == ([STAR], [STAR])
            && PushSpec(secrets, [STAR], [c]) == ([STAR], [c])
  {
    hide Scan, MaskAll, PushSpec;
    var secrets := [[b, c], [a, b]];
    TwoMasks(a, b, c);
    MaxLengthAppend([[b, c]], [a, b]);
    MaxLengthAppend([], [b, c]);
    assert [] + [[b, c]] == [[b, c]] && [[b, c]] + [[a, b]] == secrets;
    assert [] + [a, b] == [a, b];
    PushSplits(secrets, [], [a, b]);
    var (safe0, rest0) := PushSpec(secrets, [], [a, b]);
    assert [STAR] + [STAR] == [STAR, STAR] && [STAR] + [c] == [STAR, c];
    SplitUnique(safe0, rest0, [STAR], [STAR]);
    PushSplits(secrets, [STAR], [c]);
    var (safe1, rest1) := PushSpec(secrets, [STAR], [c]);
    SplitUnique(safe1, rest1, [STAR], [c]);
  }

  lemma TwoMasks(a: byte, b: byte, c: byte)
    requires a != b && b != c && a != c && STAR !in [a, b, c]
    ensures var secrets := [[b, c], [a, b]];
            && AllNonEmpty(secrets)
            && MaskAll([a, b, c], secrets) == [a, STAR, STAR]
            && MaskAll([a, b], secrets) == [STAR, STAR]
            && MaskAll([STAR, c], secrets) == [STAR, c]
            && MaskAll([c], secrets) == [c]
  {
    var ab, bc := [a, b], [b, c];
    assert STAR != a && STAR != b && STAR != c;
    assert MaskAll([a, b, c], [bc, ab]) == [a, STAR, STAR] by {
      TwoSecrets([a, b, c], bc, ab);
      assert [a, b, c] == [a] + bc;
      NotAtByte([a] + bc, bc, 0, 0);
      ScanKeep(a, bc, bc);
      ScanPairOfStarLed(bc);
      NothingToMask([a, STAR, STAR], ab);
      assert [a] + Stars(2) == [a, STAR, STAR];
    }
    assert MaskAll(ab, [bc, ab]) == [STAR, STAR] by {
      TwoSecrets(ab, bc, ab);
      NothingToMask(ab, bc);
      ScanPairOfStarLed(ab);
      assert Stars(2) == [STAR, STAR];
    }
    assert MaskAll([STAR, c], [bc, ab]) == [STAR, c] by {
      TwoSecrets([STAR, c], bc, ab);
      NothingToMask([STAR, c], bc);
      NothingToMask([STAR, c], ab);
    }
    TwoSecrets([c], bc, ab);
  }

  lemma TwoSecrets(d: seq<byte>, s: seq<byte>, t: seq<byte>)
    requires 0 < |s| && 0 < |t|
    ensures AllNonEmpty([s, t]) && MaskAll(d, [s, t]) == Scan(Scan(d, s), t)
  {
    assert [s, t][1..] == [t];
    MaskOneSecret(Scan(d, s), t);
  }

  lemma NothingToMask(d: seq<byte>, s: seq<byte>)
    requires |s| == 2
    requires forall i :: 0 <= i < |d| - 1 ==> d[i] != s[0] || d[i + 1] != s[1]
    ensures Scan(d, s) == d
  {
    forall i ensures !OccursAt(d, s, i) {
      if 0 <= i < |d| - 1 {
        if d[i] != s[0] {
          NotAtByte(d, s, i, 0);
        } else {
          NotAtByte(d, s, i, 1);
        }
      }
    }
    ScanIdentity(d, s);
  }

  // ---------------------------------------------------------------- the redactor

  function NonEmpty(values: seq<seq<byte>>): (r: seq<seq<byte>>)
    ensures AllNonEmpty(r)
  {
    if values == [] then []
    else
      var init := NonEmpty(values[..|values| - 1]);
      if values[|values| - 1] == [] then init else init + [values[|values| - 1]]
  }

  lemma {:induction false} MaxLengthAppend(secrets: seq<seq<byte>>, s: seq<byte>)
    ensures MaxLength(secrets + [s]) == if |s| > MaxLength(secrets) then |s| else MaxLength(secrets)
  {
  }

  lemma NonEmptyStep(values: seq<seq<byte>>, n: nat)
    requires n < |values|
    ensures NonEmpty(values[..n + 1]) == NonEmpty(values[..n]) + (if values[n] == [] then [] else [values[n]])
  {
    assert values[..n + 1][..n] == values[..n];
  }

  lemma {:induction false} MatchStep(done: seq<byte>, rest: seq<byte>, s: seq<byte>, index: nat)
    requires 0 < |s| && OccursAt(rest, s, index)
    requires forall i :: 0 <= i < index ==> !OccursAt(rest, s, i)
    ensures done + Scan(rest, s) == done + rest[..index] + Stars(|s|) + Scan(rest[index + |s|..], s)
  {
    var after := rest[index + |s|..];
    ScanSkips(rest, s, index);
    assert rest[index..] == s + after;
    ScanMatch(after, s);
    Assoc(done, rest[..index], Stars(|s|) + Scan(after, s));
    Assoc(done + rest[..index], Stars(|s|), Scan(after, s));
  }

  /** The first occurrence of `secret`, or -1. */
  method Index(data: seq<byte>, secret: seq<byte>) returns (index: int)
    ensures index < 0 ==> !Contains(data, secret)
    ensures index >= 0 ==> OccursAt(data, secret, index) && forall i :: 0 <= i < index ==> !OccursAt(data, secret, i)
  {
    index := 0;
    while index + |secret| <= |data|
      invariant 0 <= index
      invariant forall i :: 0 <= i < index ==> !OccursAt(data, secret, i)
    {
      if data[index..index + |secret|] == secret {
        return;
      }
      index := index + 1;
    }
    index := -1;
  }

  class StreamRedactor {
    var secrets: seq<seq<byte>>
    var pending: seq<byte>
    var max: nat

    ghost predicate Valid()
      reads this
    {
      AllNonEmpty(secrets) && max == MaxLength(secrets)
    }

    constructor (values: seq<seq<byte>>)
      ensures Valid()
      ensures secrets == NonEmpty(values) && pending == []
    {
      var list: seq<seq<byte>>, longest := [], 0;
      var n := 0;
      while n < |values|
        invariant 0 <= n <= |values|
        invariant list == NonEmpty(values[..n])
        invariant longest == MaxLength(list)
      {
        NonEmptyStep(values, n);
        if values[n] != [] {
          MaxLengthAppend(list, values[n]);
          list := list + [values[n]];
          if |values[n]| > longest {
            longest := |values[n]|;
          }
        }
        n := n + 1;
      }
      assert values[..n] == values;
      secrets, pending, max := list, [], longest;
    }

    method WriteStars(result: array<byte>, index: nat, count: nat)
      requires index + count <= result.Length
      modifies result
      ensures result[..] == old(result[..index]) + Stars(count) + old(result[index + count..])
    {
      var offset := 0;
      while offset < count
        invariant 0 <= offset <= count
        invariant forall i :: index <= i < index + offset ==> result[i] == STAR
        invariant forall i :: 0 <= i < result.Length && !(index <= i < index + offset) ==> result[i] == old(result[i])
      {
        result[index + offset] := STAR;
        offset := offset + 1;
      }
    }

    /** Stars the first match at or after `start`; returns where it ends, or -1. */
    method MaskNext(result: array<byte>, secret: seq<byte>, start: nat, ghost done: seq<byte>, ghost rest: seq<byte>)
        returns (next: int)
      requires 0 < |secret| && |done| == start && result[..] == done + rest
      modifies result
      ensures next < 0 ==> result[..] == old(result[..]) && Scan(rest, secret) == rest
      ensures next >= 0 ==> start < next <= result.Length
                            && result[..next] + old(result[next..]) == result[..]
                            && done + Scan(rest, secret) == result[..next] + Scan(old(result[next..]), secret)
    {
      hide Scan;
      assert result[start..] == rest by {
        assert result[start..] == result[..][start..];
      }
      next := Index(result[start..], secret);
      if next < 0 {
        ScanIdentity(rest, secret);
        return;
      }
      var index := next + start;
      MatchStep(done, rest, secret, next);
      assert result[..index] == done + rest[..next] by {
        assert result[..index] == result[..][..index];
      }
      ghost var after := result[index + |secret|..];
      assert after == rest[next + |secret|..] by {
        assert after == result[..][index + |secret|..];
      }
      WriteStars(result, index, |secret|);
      next := index + |secret|;
      assert result[..next] == result[..][..next];
    }

    /** Overwrites every match of one secret in place. */
    method MaskSecret(result: array<byte>, secret: seq<byte>)
      requires 0 < |secret|
      modifies result
      ensures result[..] == Scan(old(result[..]), secret)
    {
      ghost var d := result[..];
      ghost var rest := d;
      var start := 0;
      assert result[..0] + d == d;
      while true
        invariant 0 <= start && start + |rest| == result.Length == |d|
        invariant result[..] == result[..start] + rest
        invariant Scan(d, secret) == result[..start] + Scan(rest, secret)
        decreases |rest|
      {
        ghost var tail := result[..];
        var next := MaskNext(result, secret, start, result[..start], rest);
        if next < 0 {
          break;
        }
        rest := tail[next..];
        start := next;
      }
    }

    method Mask(data: seq<byte>) returns (masked: seq<byte>)
      requires Valid()
      ensures masked == MaskAll(data, secrets)
    {
      var result := new byte[|data|](i requires 0 <= i < |data| => data[i]);
      assert result[..] == data;
      var n := 0;
      while n < |secrets|
        invariant 0 <= n <= |secrets|
        invariant AllNonEmpty(secrets[n..])
        invariant MaskAll(result[..], secrets[n..]) == MaskAll(data, secrets)
      {
        assert secrets[n..][1..] == secrets[n + 1..];
        MaskSecret(result, secrets[n]);
        n := n + 1;
      }
      masked := result[..];
    }

    method Push(data: seq<byte>) returns (safe: seq<byte>)
      requires Valid()
      modifies this`pending
      ensures Valid()
      ensures (safe, pending) == PushSpec(secrets, old(pending), data)
    {
      if max == 0 {
        return data;
      }
      var combined := pending + data;
      var keep := max - 1;
      if |combined| <= keep {
        pending := combined;
        return [];
      }
      var cut := |combined| - keep;
      var masked := Mask(combined);
      safe := masked[..cut];
      pending := masked[cut..];
    }

    method Flush() returns (tail: seq<byte>)
      requires Valid()
      modifies this`pending
      ensures Valid()
      ensures tail == MaskAll(old(pending), secrets) && pending == []
    {
      tail := Mask(pending);
      pending := [];
    }
  }
}
