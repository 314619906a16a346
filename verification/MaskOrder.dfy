/** Redaction with several secrets: when the order in which they are masked, that of a map
    iteration (internal/agent/redactor.go:13-21), makes no difference. */
module MaskOrder {
  import opened Redactor
  import opened SecretSets

  /** Masking `s` and `t` in either order masks the same bytes of every stream. */
  ghost predicate Commute(s: seq<byte>, t: seq<byte>)
    requires 0 < |s| && 0 < |t|
  {
    forall d :: MaskAll(d, [s, t]) == MaskAll(d, [t, s])
  }

  /** Wherever `t` leads into `s`, an occurrence of `s` begins there as well. */
  predicate LeadsBack(t: seq<byte>, s: seq<byte>) {
    forall m | 0 < m < |t| :: RunsIntoAt(t, s, m) ==> s <= t[..m] + s
  }

  /** The condition on the secrets themselves: if one contains the other, it is a row of copies of
      it, and if one leads into the other, nothing is lost by masking either first. */
  ghost predicate OrderFree(s: seq<byte>, t: seq<byte>)
    requires 0 < |s| && 0 < |t|
  {
    && (Contains(t, s) ==> Tiles(s, t))
    && (Contains(s, t) ==> Tiles(t, s))
    && LeadsBack(t, s) && LeadsBack(s, t)
  }

  lemma BothOrders(d: seq<byte>, s: seq<byte>, t: seq<byte>)
    requires 0 < |s| && 0 < |t|
    ensures MaskAll(d, [s, t]) == Scan(Scan(d, s), t) && MaskAll(d, [t, s]) == Scan(Scan(d, t), s)
  {
    TwoSecrets(d, s, t);
    TwoSecrets(d, t, s);
  }

  // ---------------------------------------------------------------- the condition suffices

  lemma SameOrSmaller(s: seq<byte>, t: seq<byte>)
    requires Contains(t, s) && Contains(s, t)
    ensures s == t
  {
    var i :| OccursAt(t, s, i);
    var k :| OccursAt(s, t, k);
    assert t[0..|t|] == t;
  }

  /** `s` is contained in `t`, and `t` is a row of copies of it. */
  lemma RowOfCopies(d: seq<byte>, s: seq<byte>, t: seq<byte>)
    requires 0 < |s| && 0 < |t| && StarFree(s) && StarFree(t) && Contains(t, s) && Tiles(s, t) && LeadsBack(s, t)
    ensures Scan(Scan(d, s), t) == Scan(Scan(d, t), s)
  {
    if Contains(s, t) {
      SameOrSmaller(s, t);
    } else {
      hide Scan, Contains, OccursAt;
      NeverMet(d, s, t);
      TiledMask(d, t, s);
    }
  }

  /** Secrets of which neither contains the other nor leads into it never overlap. */
  lemma NeverOverlap(d: seq<byte>, s: seq<byte>, t: seq<byte>, i: int, k: int)
    requires 0 < |s| && 0 < |t| && OccursAt(d, s, i) && OccursAt(d, t, k)
    requires !Contains(s, t) && !Contains(t, s) && LeadsBack(t, s) && LeadsBack(s, t)
    ensures i + |s| <= k || k + |t| <= i
  {
    NoneInside(s, t);
    NoneInside(t, s);
    hide EndsInside, RunsInto, LeadsBack;
    if k + |t| < i + |s| {
      Apart(d, t, k, s, i);
    } else if i + |s| < k + |t| {
      Apart(d, s, i, t, k);
    } else if i < k + |t| && k < i + |s| {
      SameEnd(d, s, t, i, k);
    }
  }

  lemma SameEnd(d: seq<byte>, s: seq<byte>, t: seq<byte>, i: int, k: int)
    requires OccursAt(d, s, i) && OccursAt(d, t, k) && i + |s| == k + |t|
    ensures Contains(s, t) || Contains(t, s)
  {
    if |t| <= |s| {
      assert s[k - i..k - i + |t|] == d[i..i + |s|][k - i..] == d[k..k + |t|];
      assert OccursAt(s, t, k - i);
    } else {
      assert t[i - k..i - k + |s|] == d[k..k + |t|][i - k..] == d[i..i + |s|];
      assert OccursAt(t, s, i - k);
    }
  }

  lemma NoneInside(s: seq<byte>, t: seq<byte>)
    requires 0 < |s| && !Contains(s, t) && !Contains(t, s) && LeadsBack(t, s)
    ensures !EndsInside(t, s) && !RunsInto(t, s)
  {
    if m :| RunsIntoAt(t, s, m) {
      var w := t[..m] + s;
      assert t <= w && s <= w;
      PrefixesOfOne(s, t, w);
    }
  }

  /** Masking `s` leaves every occurrence of `t` as it is. */
  lemma OtherIntact(d: seq<byte>, s: seq<byte>, t: seq<byte>)
    requires 0 < |s| && 0 < |t|
    requires forall i, k :: OccursAt(d, s, i) && OccursAt(d, t, k) ==> i + |s| <= k || k + |t| <= i
    ensures Starred(Scan(d, s), d) && IntactFor(d, Scan(d, s), t)
  {
    ScanOnlyStars(d, s);
    var e := Scan(d, s);
    forall k | OccursAt(d, t, k) ensures OccursAt(e, t, k) {
      forall p | k <= p < k + |t| ensures e[p] == d[p] {
        ScanMarks(d, s, p);
      }
      assert e[k..k + |t|] == d[k..k + |t|];
    }
  }

  lemma ApartCommute(d: seq<byte>, s: seq<byte>, t: seq<byte>)
    requires 0 < |s| && 0 < |t| && StarFree(s) && StarFree(t)
    requires !Contains(s, t) && !Contains(t, s) && LeadsBack(t, s) && LeadsBack(s, t)
    ensures Scan(Scan(d, s), t) == Scan(Scan(d, t), s)
  {
    forall i, k | OccursAt(d, s, i) && OccursAt(d, t, k) ensures i + |s| <= k || k + |t| <= i {
      NeverOverlap(d, s, t, i, k);
    }
    hide Scan, Contains, LeadsBack, OccursAt, IntactFor, StarFree;
    OtherIntact(d, s, t);
    OtherIntact(d, t, s);
    ScanOver(d, Scan(d, s), t);
    ScanOver(d, Scan(d, t), s);
    OverEither(d, Scan(d, s), Scan(d, t));
  }

  lemma OverEither(d: seq<byte>, x: seq<byte>, y: seq<byte>)
    requires Starred(x, d) && Starred(y, d)
    ensures Over(x, d, y) == Over(y, d, x)
  {
  }

  lemma OrderFreeCommute(s: seq<byte>, t: seq<byte>)
    requires 0 < |s| && 0 < |t| && StarFree(s) && StarFree(t) && OrderFree(s, t)
    ensures Commute(s, t)
  {
    hide Contains, Tiles, LeadsBack, StarFree;
    forall d ensures MaskAll(d, [s, t]) == MaskAll(d, [t, s]) {
      BothOrders(d, s, t);
      if Contains(t, s) {
        RowOfCopies(d, s, t);
      } else if Contains(s, t) {
        RowOfCopies(d, t, s);
      } else {
        ApartCommute(d, s, t);
      }
    }
  }

  // ---------------------------------------------------------------- the condition is needed

  /** The longer secret itself, when it is not a row of copies of the shorter one. */
  lemma InsideShows(s: seq<byte>, t: seq<byte>)
    requires 0 < |s| && 0 < |t| && StarFree(s) && StarFree(t) && Contains(t, s) && !Tiles(s, t)
    ensures MaskAll(t, [s, t]) != MaskAll(t, [t, s])
  {
    BothOrders(t, s, t);
    FirstAndLast(s);
    var i :| OccursAt(t, s, i);
    ScanErases(t, s, i);
    ShorterIsClean(Scan(t, s), t);
    ScanMatch([], t);
    assert t + [] == t;
    ScanStars(|t|, [], s);
    assert Stars(|t|) + [] == Stars(|t|);
  }

  /** The two secrets overlapping. */
  lemma OverlapShows(s: seq<byte>, t: seq<byte>, m: int)
    requires 0 < |s| && 0 < |t| && StarFree(s) && StarFree(t) && RunsIntoAt(t, s, m) && !(s <= t[..m] + s)
    ensures MaskAll(t[..m] + s, [s, t]) != MaskAll(t[..m] + s, [t, s])
  {
    hide *;
    OverlapIs(s, t, m);
    LeadKept(s, t, m);
    HeadMasked(s, t, s[|t| - m..]);
  }

  lemma OverlapIs(s: seq<byte>, t: seq<byte>, m: int)
    requires RunsIntoAt(t, s, m)
    ensures 0 < m < |t| && |t| - m <= |s| && t[..m] + s == t + s[|t| - m..]
  {
  }

  lemma HeadMasked(s: seq<byte>, t: seq<byte>, rest: seq<byte>)
    requires 0 < |s| && 0 < |t|
    ensures MaskAll(t + rest, [t, s])[0] == STAR
  {
    BothOrders(t + rest, s, t);
    ScanMatch(rest, t);
    hide Scan, MaskAll;
    var e := Scan(t + rest, t);
    assert e[0] == STAR;
    ScanOnlyStars(e, s);
  }

  /** Two secrets, exactly: which bytes are masked does not depend on their order if and only if
      they are as above. */
  lemma {:induction false} TwoSecretsOrderIndependence(s: seq<byte>, t: seq<byte>)
    requires 0 < |s| && 0 < |t| && StarFree(s) && StarFree(t)
    ensures Commute(s, t) <==> OrderFree(s, t)
  {
    hide Contains, Tiles, RunsIntoAt, StarFree, MaskAll;
    if OrderFree(s, t) {
      OrderFreeCommute(s, t);
    } else if Contains(t, s) && !Tiles(s, t) {
      InsideShows(s, t);
    } else if Contains(s, t) && !Tiles(t, s) {
      InsideShows(t, s);
    } else if !LeadsBack(t, s) {
      var m :| 0 < m < |t| && RunsIntoAt(t, s, m) && !(s <= t[..m] + s);
      OverlapShows(s, t, m);
    } else {
      var m :| 0 < m < |s| && RunsIntoAt(s, t, m) && !(t <= s[..m] + t);
      OverlapShows(t, s, m);
    }
  }

  /** Order does matter: of two secrets that overlap, the one masked first wins. */
  lemma OrderMatters(a: byte, b: byte, c: byte)
    requires a != b && b != c && a != c && STAR !in [a, b, c]
    ensures MaskAll([a, b, c], [[a, b], [b, c]]) == [STAR, STAR, c]
    ensures MaskAll([a, b, c], [[b, c], [a, b]]) == [a, STAR, STAR]
  {
    TwoMasks(a, b, c);
    var ab, bc := [a, b], [b, c];
    assert STAR != a && STAR != b && STAR != c;
    TwoSecrets([a, b, c], ab, bc);
    assert [a, b, c] == ab + [c];
    ScanMatch([c], ab);
    NothingToMask([c], ab);
    assert Stars(2) + [c] == [STAR, STAR, c];
    NothingToMask([STAR, STAR, c], bc);
  }

  // ---------------------------------------------------------------- any number of secrets

  ghost predicate AllOrderFree(secrets: seq<seq<byte>>)
    requires AllNonEmpty(secrets)
  {
    forall i, k :: 0 <= i < k < |secrets| ==> OrderFree(secrets[i], secrets[k])
  }

  /** Masking secret `k` before those in front of it. */
  lemma {:induction false} MaskSooner(d: seq<byte>, secrets: seq<seq<byte>>, k: nat)
    requires Usable(secrets) && AllOrderFree(secrets) && k < |secrets|
    ensures AllNonEmpty([secrets[k]] + (secrets[..k] + secrets[k + 1..]))
    ensures MaskAll(d, secrets) == MaskAll(d, [secrets[k]] + (secrets[..k] + secrets[k + 1..]))
    decreases k
  {
    var x := secrets[k];
    var others := secrets[..k] + secrets[k + 1..];
    assert ([x] + others)[1..] == others;
    if k == 0 {
      assert [x] + others == secrets;
    } else {
      var h, rest := secrets[0], secrets[1..];
      var fewer := rest[..k - 1] + rest[k..];
      assert others == [h] + fewer && rest[k - 1] == x;
      TailOrderFree(secrets);
      MaskSooner(Scan(d, h), rest, k - 1);
      OrderFreeCommute(h, x);
      hide *;
      SwapFirst(d, h, x, fewer);
    }
  }

  lemma TailOrderFree(secrets: seq<seq<byte>>)
    requires Usable(secrets) && AllOrderFree(secrets) && secrets != []
    ensures Usable(secrets[1..]) && AllOrderFree(secrets[1..])
  {
    hide OrderFree, StarFree;
    var rest := secrets[1..];
    forall i, j | 0 <= i < j < |rest| ensures OrderFree(rest[i], rest[j]) {
      assert rest[i] == secrets[i + 1] && rest[j] == secrets[j + 1];
    }
  }

  lemma SwapFirst(d: seq<byte>, h: seq<byte>, x: seq<byte>, rest: seq<seq<byte>>)
    requires 0 < |h| && 0 < |x| && Commute(h, x) && AllNonEmpty(rest)
    ensures AllNonEmpty([x] + rest) && AllNonEmpty([x] + ([h] + rest))
    ensures MaskAll(Scan(d, h), [x] + rest) == MaskAll(d, [x] + ([h] + rest))
  {
    BothOrders(d, h, x);
    assert ([x] + rest)[1..] == rest && ([x] + ([h] + rest))[1..] == [h] + rest && ([h] + rest)[1..] == rest;
    hide Scan;
    assert MaskAll(d, [h, x]) == MaskAll(d, [x, h]);
  }

  lemma Without(secrets: seq<seq<byte>>, k: nat)
    requires k < |secrets|
    ensures multiset(secrets[..k] + secrets[k + 1..]) == multiset(secrets) - multiset{secrets[k]}
  {
    assert secrets == secrets[..k] + [secrets[k]] + secrets[k + 1..];
  }

  /** Any number of secrets: if no two of them depend on their order, every order masks the same
      bytes. */
  lemma {:induction false} AnyOrderMasksAlike(d: seq<byte>, secrets: seq<seq<byte>>, other: seq<seq<byte>>)
    requires Usable(secrets) && AllOrderFree(secrets) && multiset(other) == multiset(secrets)
    ensures AllNonEmpty(other) && MaskAll(d, other) == MaskAll(d, secrets)
    decreases |other|
  {
    hide OrderFree, StarFree;
    forall t | t in other ensures t in secrets {
      assert t in multiset(other);
    }
    if other == [] {
      assert |multiset(secrets)| == |multiset(other)|;
    } else {
      var x, rest := other[0], other[1..];
      assert other == [x] + rest && x in other;
      var k :| 0 <= k < |secrets| && secrets[k] == x;
      var fewer := secrets[..k] + secrets[k + 1..];
      MaskSooner(d, secrets, k);
      Without(secrets, k);
      FewerOrderFree(secrets, k);
      AnyOrderMasksAlike(Scan(d, x), fewer, rest);
      assert ([x] + fewer)[1..] == fewer;
    }
  }

  lemma FewerOrderFree(secrets: seq<seq<byte>>, k: nat)
    requires Usable(secrets) && AllOrderFree(secrets) && k < |secrets|
    ensures var fewer := secrets[..k] + secrets[k + 1..]; Usable(fewer) && AllOrderFree(fewer)
  {
    hide OrderFree, StarFree;
    var fewer := secrets[..k] + secrets[k + 1..];
    forall i | 0 <= i < |fewer| ensures fewer[i] == secrets[if i < k then i else i + 1] {
    }
  }
}
