/** Printer and parser of managed image references (internal/domain/managed_artifact.go). */
module ManagedReference {

  const SCHEME := "jobdock://"
  const PREFIX := "jobdock://build/"
  const DIGEST_LENGTH := 71

  datatype Parsed = NotManaged | Invalid | Managed(buildId: string, digest: string)

  predicate HexDigit(c: char) {
    '0' <= c <= '9' || 'a' <= c <= 'f'
  }

  predicate ValidSHA256(s: string) {
    |s| == 64 && forall i :: 0 <= i < 64 ==> HexDigit(s[i])
  }

  predicate ValidDigest(s: string) {
    |s| == DIGEST_LENGTH && s[..7] == "sha256:" && ValidSHA256(s[7..])
  }

  predicate ValidBuildId(s: string) {
    |s| > 0 && '/' !in s && '@' !in s
  }

  function Reference(buildId: string, digest: string): string {
    PREFIX + buildId + "@" + digest
  }

  function IndexOfAt(s: string): (i: nat)
    ensures i <= |s|
    ensures '@' !in s[..i]
    ensures i < |s| ==> s[i] == '@'
  {
    if s == [] || s[0] == '@' then 0
    else
      var i := IndexOfAt(s[1..]);
      assert s[..i + 1] == [s[0]] + s[1..][..i];
      i + 1
  }

  function Parse(reference: string): Parsed {
    if !(SCHEME <= reference) then NotManaged
    else if !(PREFIX <= reference) then Invalid
    else
      var rest := reference[|PREFIX|..];
      var at := IndexOfAt(rest);
      if at == |rest| then Invalid
      else
        var buildId, digest := rest[..at], rest[at + 1..];
        if ValidBuildId(buildId) && ValidDigest(digest) then Managed(buildId, digest) else Invalid
  }

  lemma {:induction false} AtIsFirst(id: string, tail: string)
    requires '@' !in id
    ensures IndexOfAt(id + "@" + tail) == |id|
  {
    if id == [] {
      assert (id + "@" + tail)[0] == '@';
    } else {
      assert (id + "@" + tail)[0] == id[0];
      assert (id + "@" + tail)[1..] == id[1..] + "@" + tail;
      AtIsFirst(id[1..], tail);
    }
  }

  /** Printing then parsing gives the parts back exactly when they are well formed. */
  lemma ReferenceRoundTrip(buildId: string, digest: string)
    ensures Parse(Reference(buildId, digest)) == Managed(buildId, digest)
            <==> ValidBuildId(buildId) && ValidDigest(digest)
  {
    hide ValidDigest, ValidBuildId;
    if Parse(Reference(buildId, digest)) == Managed(buildId, digest) {
      ParseIsExact(Reference(buildId, digest));
    }
    if ValidBuildId(buildId) && ValidDigest(digest) {
      ParseOfReference(buildId, digest);
    }
  }

  lemma ParseOfReference(buildId: string, digest: string)
    requires ValidBuildId(buildId) && ValidDigest(digest)
    ensures Parse(Reference(buildId, digest)) == Managed(buildId, digest)
  {
    hide ValidDigest;
    var r := Reference(buildId, digest);
    var rest := buildId + "@" + digest;
    assert r == PREFIX + rest && PREFIX == SCHEME + "build/";
    assert r == SCHEME + ("build/" + rest);
    assert r[|PREFIX|..] == rest;
    AtIsFirst(buildId, digest);
    assert rest[..|buildId|] == buildId && rest[|buildId| + 1..] == digest;
  }

  /** Whatever parses as managed is the printed form of what it parses to. */
  lemma ParseIsExact(reference: string)
    requires Parse(reference).Managed?
    ensures reference == Reference(Parse(reference).buildId, Parse(reference).digest)
    ensures ValidBuildId(Parse(reference).buildId) && ValidDigest(Parse(reference).digest)
  {
  }
}
