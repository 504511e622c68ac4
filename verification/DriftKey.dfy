/** The string hashObservedSources feeds to SHA-256. */
module DriftKey {
  import opened Strings

  datatype ObservedSource = ObservedSource(digest: string, revision: string, url: string, originRevision: string)

  type Sources = map<string, ObservedSource>

  function Part(alias: string, s: ObservedSource): string {
    alias + "=[digest=" + s.digest + ",revision=" + s.revision + ",url=" + s.url + "]"
  }

  ghost function Parts(sources: Sources, aliases: seq<string>): seq<string>
    requires forall a :: a in aliases ==> a in sources
  {
    seq(|aliases|, i requires 0 <= i < |aliases| => assert aliases[i] in aliases; Part(aliases[i], sources[aliases[i]]))
  }

  // ------------------------------------------------------------------- sorting

  ghost predicate Sorted(r: seq<string>) {
    forall i, j :: 0 <= i < j < |r| ==> !Less(r[j], r[i])
  }

  function Place(k: string, r: seq<string>): seq<string> {
    if r == [] || !Less(r[0], k) then [k] + r else [r[0]] + Place(k, r[1..])
  }

  /** sort.Strings on strings that need not be distinct. */
  function Sort(ks: seq<string>): seq<string> {
    if ks == [] then [] else Place(ks[|ks| - 1], Sort(ks[..|ks| - 1]))
  }

  lemma {:induction false} PlaceElements(k: string, r: seq<string>)
    ensures multiset(Place(k, r)) == multiset(r) + multiset{k}
  {
    hide Less;
    if r != [] && Less(r[0], k) {
      PlaceElements(k, r[1..]);
      assert r == [r[0]] + r[1..];
    }
  }

  lemma {:induction false} PlaceSorts(k: string, r: seq<string>)
    requires Sorted(r)
    ensures Sorted(Place(k, r))
  {
    hide Less;
    if r == [] {
    } else if !Less(r[0], k) {
      forall j | 0 <= j < |r|
        ensures !Less(r[j], k)
      {
        if Less(r[j], k) {
          LessTrichotomy(r[0], r[j]);
          if Less(r[0], r[j]) {
            LessTransitive(r[0], r[j], k);
          }
        }
      }
    } else {
      var rest := Place(k, r[1..]);
      PlaceSorts(k, r[1..]);
      PlaceElements(k, r[1..]);
      LessTrichotomy(r[0], k);
      forall j | 0 <= j < |rest|
        ensures !Less(rest[j], r[0])
      {
        assert rest[j] in multiset(rest);
        assert rest[j] == k || rest[j] in r[1..];
      }
    }
  }

  lemma {:induction false} SortSorts(ks: seq<string>)
    ensures Sorted(Sort(ks)) && multiset(Sort(ks)) == multiset(ks)
  {
    if ks != [] {
      SortSorts(ks[..|ks| - 1]);
      PlaceSorts(ks[|ks| - 1], Sort(ks[..|ks| - 1]));
      PlaceElements(ks[|ks| - 1], Sort(ks[..|ks| - 1]));
      assert ks == ks[..|ks| - 1] + [ks[|ks| - 1]];
    }
  }

  lemma SortedTail(a: seq<string>)
    requires a != [] && Sorted(a)
    ensures Sorted(a[1..]) && multiset(a[1..]) == multiset(a) - multiset{a[0]}
    ensures forall x :: x in a ==> !Less(x, a[0])
  {
    assert a == [a[0]] + a[1..];
    LessTrichotomy(a[0], a[0]);
  }

  lemma {:induction false} SortedUnique(a: seq<string>, b: seq<string>)
    requires Sorted(a) && Sorted(b) && multiset(a) == multiset(b)
    ensures a == b
    decreases |a|
  {
    hide Less, Sorted;
    assert |multiset(a)| == |a| && |multiset(b)| == |b|;
    if a != [] {
      SortedTail(a);
      SortedTail(b);
      assert a[0] in multiset(b) && b[0] in multiset(a);
      LessTrichotomy(a[0], b[0]);
      assert a[0] == b[0];
      SortedUnique(a[1..], b[1..]);
      assert a == [a[0]] + a[1..] && b == [b[0]] + b[1..];
    }
  }

  // ---------------------------------------------------------------- the string

  ghost function PreImage(sources: Sources): string {
    Join(Sort(Parts(sources, Listing(sources.Keys))), '\n')
  }

  lemma PartsCons(sources: Sources, k: string, r: seq<string>)
    requires k in sources && forall a :: a in r ==> a in sources
    ensures forall a :: a in [k] + r ==> a in sources
    ensures Parts(sources, [k] + r) == [Part(k, sources[k])] + Parts(sources, r)
  {
  }

  lemma {:induction false} PartsOfInsert(sources: Sources, k: string, r: seq<string>)
    requires k in sources && k !in r && forall a :: a in r ==> a in sources
    ensures forall a :: a in Insert(k, r) ==> a in sources
    ensures multiset(Parts(sources, Insert(k, r))) == multiset(Parts(sources, r)) + multiset{Part(k, sources[k])}
  {
    hide Part, Parts, Less;
    if r == [] || Less(k, r[0]) {
      PartsCons(sources, k, r);
    } else {
      assert r == [r[0]] + r[1..];
      PartsOfInsert(sources, k, r[1..]);
      PartsCons(sources, r[0], r[1..]);
      PartsCons(sources, r[0], Insert(k, r[1..]));
    }
  }

  lemma ListingGrows(s: set<string>, k: string)
    requires k !in s
    ensures Listing(s + {k}) == Insert(k, Listing(s))
  {
    InsertLists(k, Listing(s));
    ListingUnique(Listing(s + {k}), Insert(k, Listing(s)), s + {k});
  }

  /** hashObservedSources up to the hash. The map is iterated in an arbitrary
      order, which the result does not depend on. */
  method HashedString(sources: Sources) returns (text: string)
    ensures text == PreImage(sources)
  {
    hide Part, Sort, Less;
    var parts: seq<string> := [];
    var rest := sources.Keys;
    while rest != {}
      invariant rest <= sources.Keys
      invariant multiset(parts) == multiset(Parts(sources, Listing(sources.Keys - rest)))
      decreases rest
    {
      var alias :| alias in rest;
      ListingGrows(sources.Keys - rest, alias);
      assert sources.Keys - (rest - {alias}) == sources.Keys - rest + {alias};
      PartsOfInsert(sources, alias, Listing(sources.Keys - rest));
      parts, rest := parts + [Part(alias, sources[alias])], rest - {alias};
    }
    assert sources.Keys - rest == sources.Keys;
    SortSorts(parts);
    SortSorts(Parts(sources, Listing(sources.Keys)));
    SortedUnique(Sort(parts), Sort(Parts(sources, Listing(sources.Keys))));
    return Join(Sort(parts), '\n');
  }

  // --------------------------------------------------------------- injectivity

  const SEPARATOR := ",url="

  predicate OccursAt(s: string, t: string, i: int) {
    0 <= i <= |s| - |t| && s[i..i + |t|] == t
  }

  ghost predicate Contains(s: string, t: string) {
    exists i :: OccursAt(s, t, i)
  }

  /** What sources can report: the patterns of aliases and digests exclude '=' and
      ',' respectively, and nothing spans lines. Revisions and URLs are otherwise
      arbitrary. */
  ghost predicate Received(sources: Sources) {
    forall a :: a in sources ==>
                  && '=' !in a && '\n' !in a
                  && ',' !in sources[a].digest && '\n' !in sources[a].digest
                  && '\n' !in sources[a].revision && '\n' !in sources[a].url
  }

  ghost predicate CleanRevisions(sources: Sources) {
    forall a :: a in sources ==> !Contains(sources[a].revision, SEPARATOR)
  }

  /** The same aliases with the same digests, revisions and URLs. */
  ghost predicate SameArtifacts(m: Sources, n: Sources) {
    && m.Keys == n.Keys
    && forall a :: a in m.Keys && a in n.Keys ==>
                     m[a].digest == n[a].digest && m[a].revision == n[a].revision && m[a].url == n[a].url
  }

  function AfterAlias(s: ObservedSource): string {
    "[digest=" + (s.digest + [','] + AfterDigest(s))
  }

  function AfterDigest(s: ObservedSource): string {
    "revision=" + (s.revision + SEPARATOR + (s.url + "]"))
  }

  lemma PartShape(alias: string, s: ObservedSource)
    ensures Part(alias, s) == alias + ['='] + AfterAlias(s)
  {
    assert "=[digest=" == ['='] + "[digest=";
    assert ",revision=" == [','] + "revision=";
  }

  /** The separator cannot overlap itself: if it can be read at two places of a
      text, everything it separates contains it. */
  lemma SeparatorReadTwice(x: string, y: string, x': string, y': string)
    requires x + SEPARATOR + y == x' + SEPARATOR + y'
    ensures |x| < |x'| ==> Contains(x', SEPARATOR) && Contains(y, SEPARATOR)
    ensures |x| == |x'| ==> x == x' && y == y'
  {
    var text, i, j := x + SEPARATOR + y, |x|, |x'|;
    assert text[i..i + 5] == SEPARATOR && text[j..j + 5] == SEPARATOR;
    assert x == text[..i] && x' == text[..j] && y == text[i + 5..] && y' == text[j + 5..];
    assert text[i..i + 5][1] == text[i + 1] && text[i..i + 5][2] == text[i + 2];
    assert text[i..i + 5][3] == text[i + 3] && text[i..i + 5][4] == text[i + 4];
    assert text[j..j + 5][0] == text[j] == ',';
    if i < j {
      assert j >= i + 5;
      assert x'[i..i + 5] == text[i..i + 5] && y[j - i - 5..j - i] == text[j..j + 5];
      assert OccursAt(x', SEPARATOR, i) && OccursAt(y, SEPARATOR, j - i - 5);
    }
  }

  lemma ClosingBracket(url: string)
    ensures Contains(url + "]", SEPARATOR) ==> Contains(url, SEPARATOR)
  {
    if Contains(url + "]", SEPARATOR) {
      var i :| OccursAt(url + "]", SEPARATOR, i);
      assert (url + "]")[i..i + 5][4] == '=';
      assert url[i..i + 5] == (url + "]")[i..i + 5];
      assert OccursAt(url, SEPARATOR, i);
    }
  }

  /** What two parts with the same text have in common. */
  lemma SamePart(a: string, s: ObservedSource, b: string, t: ObservedSource)
    requires '=' !in a && '=' !in b && ',' !in s.digest && ',' !in t.digest
    requires Part(a, s) == Part(b, t)
    ensures a == b && s.digest == t.digest
    ensures s.revision + SEPARATOR + (s.url + "]") == t.revision + SEPARATOR + (t.url + "]")
  {
    PartShape(a, s);
    PartShape(b, t);
    CutOnce(a, AfterAlias(s), b, AfterAlias(t), '=');
    CutFront("[digest=", s.digest + [','] + AfterDigest(s), t.digest + [','] + AfterDigest(t));
    CutOnce(s.digest, AfterDigest(s), t.digest, AfterDigest(t), ',');
    CutFront("revision=", s.revision + SEPARATOR + (s.url + "]"), t.revision + SEPARATOR + (t.url + "]"));
  }

  /** Equal parts describe the same artifact unless the one with the longer
      revision has the separator in it and the other one has it in its URL. */
  lemma PartsDiffer(a: string, s: ObservedSource, b: string, t: ObservedSource)
    requires '=' !in a && '=' !in b && ',' !in s.digest && ',' !in t.digest
    requires Part(a, s) == Part(b, t)
    ensures a == b && s.digest == t.digest
    ensures |s.revision| == |t.revision| ==> s.revision == t.revision && s.url == t.url
    ensures |s.revision| < |t.revision| ==> Contains(t.revision, SEPARATOR) && Contains(s.url, SEPARATOR)
  {
    SamePart(a, s, b, t);
    SeparatorReadTwice(s.revision, s.url + "]", t.revision, t.url + "]");
    ClosingBracket(s.url);
    if |s.revision| == |t.revision| {
      assert (s.url + "]")[..|s.url|] == s.url && (t.url + "]")[..|t.url|] == t.url;
    }
  }

  ghost function SortedParts(sources: Sources): (r: seq<string>) {
    Sort(Parts(sources, Listing(sources.Keys)))
  }

  lemma SortedPartsMembers(sources: Sources, part: string)
    ensures part in SortedParts(sources) <==> exists a :: a in sources && part == Part(a, sources[a])
  {
    hide Part, Sort;
    var aliases := Listing(sources.Keys);
    var parts := Parts(sources, aliases);
    SortSorts(parts);
    assert part in SortedParts(sources) <==> part in multiset(Sort(parts));
    assert part in parts <==> part in multiset(parts);
    if part in parts {
      var i :| 0 <= i < |parts| && parts[i] == part;
      assert aliases[i] in aliases;
    }
    if a :| a in sources && part == Part(a, sources[a]) {
      assert a in aliases;
      var i :| 0 <= i < |aliases| && aliases[i] == a;
      assert parts[i] == part;
    }
  }

  lemma PartIsFree(sources: Sources, a: string)
    requires Received(sources) && a in sources
    ensures '\n' !in Part(a, sources[a]) && Part(a, sources[a]) != ""
  {
  }

  lemma PartsAreFree(sources: Sources)
    requires Received(sources)
    ensures Free(SortedParts(sources), '\n') && "" !in SortedParts(sources)
  {
    forall part | part in SortedParts(sources)
      ensures '\n' !in part && part != ""
    {
      SortedPartsMembers(sources, part);
      var a :| a in sources && part == Part(a, sources[a]);
      PartIsFree(sources, a);
    }
  }

  lemma JoinInjective(p: seq<string>, q: seq<string>, sep: char)
    requires Free(p, sep) && Free(q, sep) && "" !in p && "" !in q
    requires Join(p, sep) == Join(q, sep)
    ensures p == q
  {
    if p != [] {
      SplitJoin(p, sep);
    }
    if q != [] {
      SplitJoin(q, sep);
    }
    assert Split("", sep) == [""] && "" in [""];
  }

  lemma SameSortedParts(m: Sources, n: Sources)
    requires Received(m) && Received(n)
    ensures PreImage(m) == PreImage(n) <==> SortedParts(m) == SortedParts(n)
  {
    hide Received, Part, Sort, Free;
    if PreImage(m) == PreImage(n) {
      PartsAreFree(m);
      PartsAreFree(n);
      JoinInjective(SortedParts(m), SortedParts(n), '\n');
    }
  }

  /** Every alias of m is one of n, with the same part. */
  lemma OneWay(m: Sources, n: Sources, a: string)
    requires Received(m) && Received(n) && SortedParts(m) == SortedParts(n) && a in m
    ensures a in n && Part(a, m[a]) == Part(a, n[a])
  {
    var part := Part(a, m[a]);
    SortedPartsMembers(m, part);
    SortedPartsMembers(n, part);
    var b :| b in n && part == Part(b, n[b]);
    hide Part;
    PartsDiffer(a, m[a], b, n[b]);
  }

  lemma SameParts(m: Sources, n: Sources)
    requires m.Keys == n.Keys && forall a :: a in m && a in n ==> Part(a, m[a]) == Part(a, n[a])
    ensures PreImage(m) == PreImage(n)
  {
    hide Part, Sort;
    var aliases := Listing(m.Keys);
    forall i | 0 <= i < |aliases|
      ensures Parts(m, aliases)[i] == Parts(n, aliases)[i]
    {
      assert aliases[i] in aliases;
    }
    assert Parts(m, aliases) == Parts(n, aliases);
  }

  lemma SameArtifactsSamePreImage(m: Sources, n: Sources)
    requires SameArtifacts(m, n)
    ensures PreImage(m) == PreImage(n)
  {
    SameParts(m, n);
  }

  /** Among observations whose revisions are free of the separator the hashed
      string identifies the artifacts: it is the same exactly when every alias,
      digest, revision and URL is. (The origin revision is not part of it.) */
  lemma PreImageIdentifies(m: Sources, n: Sources)
    requires Received(m) && Received(n) && CleanRevisions(m) && CleanRevisions(n)
    ensures PreImage(m) == PreImage(n) <==> SameArtifacts(m, n)
  {
    hide Part, PreImage, SortedParts;
    if PreImage(m) == PreImage(n) {
      SameSortedParts(m, n);
      forall a | a in m.Keys + n.Keys
        ensures a in m && a in n && m[a].digest == n[a].digest && m[a].revision == n[a].revision && m[a].url == n[a].url
      {
        if a in m {
          OneWay(m, n, a);
        } else {
          OneWay(n, m, a);
        }
        PartsDiffer(a, m[a], a, n[a]);
        PartsDiffer(a, n[a], a, m[a]);
      }
    }
    if SameArtifacts(m, n) {
      SameArtifactsSamePreImage(m, n);
    }
  }

  // ---------------------------------------------------------------- look-alikes

  /** The separator occurs only where the part puts it. */
  ghost predicate Unambiguous(s: ObservedSource) {
    !Contains(s.revision, SEPARATOR) && !Contains(s.url, SEPARATOR)
  }

  lemma TwoReadings(a: string, digest: string, x: string, y: string, u: string, o: string)
    ensures Part(a, ObservedSource(digest, x + SEPARATOR + y, u, o))
         == Part(a, ObservedSource(digest, x, y + SEPARATOR + u, o))
  {
    PartShape(a, ObservedSource(digest, x + SEPARATOR + y, u, o));
    PartShape(a, ObservedSource(digest, x, y + SEPARATOR + u, o));
    assert (x + SEPARATOR + y) + SEPARATOR + (u + "]") == x + SEPARATOR + ((y + SEPARATOR + u) + "]");
  }

  /** An ambiguous source has a look-alike: another one with the same part. */
  lemma LookAlike(a: string, s: ObservedSource) returns (t: ObservedSource)
    requires !Unambiguous(s)
    ensures Part(a, t) == Part(a, s) && t.revision != s.revision && t.digest == s.digest
    ensures forall c :: (c in t.revision || c in t.url) ==> c in s.revision || c in s.url || c in SEPARATOR
  {
    hide Part;
    if Contains(s.revision, SEPARATOR) {
      var i :| OccursAt(s.revision, SEPARATOR, i);
      var x, y := s.revision[..i], s.revision[i + |SEPARATOR|..];
      assert s.revision == x + SEPARATOR + y;
      t := ObservedSource(s.digest, x, y + SEPARATOR + s.url, s.originRevision);
      TwoReadings(a, s.digest, x, y, s.url, s.originRevision);
    } else {
      var i :| OccursAt(s.url, SEPARATOR, i);
      var y, u := s.url[..i], s.url[i + |SEPARATOR|..];
      assert s.url == y + SEPARATOR + u;
      t := ObservedSource(s.digest, s.revision + SEPARATOR + y, u, s.originRevision);
      TwoReadings(a, s.digest, s.revision, y, u, s.originRevision);
    }
  }

  lemma AmbiguousObservation(m: Sources, a: string) returns (n: Sources)
    requires Received(m) && a in m && !Unambiguous(m[a])
    ensures Received(n) && PreImage(n) == PreImage(m) && !SameArtifacts(m, n)
  {
    hide Part, Unambiguous;
    var t := LookAlike(a, m[a]);
    n := m[a := t];
    SameParts(m, n);
    assert n[a].revision != m[a].revision;
    forall b | b in n
      ensures '\n' !in n[b].revision && '\n' !in n[b].url
    {
      assert '\n' !in SEPARATOR;
    }
  }

  lemma UnambiguousObservation(m: Sources, n: Sources)
    requires Received(m) && Received(n) && PreImage(n) == PreImage(m)
    requires forall a :: a in m ==> Unambiguous(m[a])
    ensures SameArtifacts(m, n)
  {
    hide Part, PreImage, SortedParts;
    SameSortedParts(m, n);
    forall a | a in m.Keys + n.Keys
      ensures a in m && a in n && m[a].digest == n[a].digest && m[a].revision == n[a].revision && m[a].url == n[a].url
    {
      if a in m {
        OneWay(m, n, a);
      } else {
        OneWay(n, m, a);
      }
      PartsDiffer(a, m[a], a, n[a]);
      PartsDiffer(a, n[a], a, m[a]);
    }
  }

  /** The hashed string of an observation is that of no other one if and only if
      none of its revisions and URLs contains the separator. */
  lemma IdentifiedExactly(m: Sources)
    requires Received(m)
    ensures (forall n :: Received(n) && PreImage(n) == PreImage(m) ==> SameArtifacts(m, n)) <==>
              (forall a :: a in m ==> Unambiguous(m[a]))
  {
    hide PreImage, Received, Unambiguous, SameArtifacts;
    if forall a :: a in m ==> Unambiguous(m[a]) {
      forall n | Received(n) && PreImage(n) == PreImage(m)
        ensures SameArtifacts(m, n)
      {
        UnambiguousObservation(m, n);
      }
    } else {
      var a :| a in m && !Unambiguous(m[a]);
      var n := AmbiguousObservation(m, a);
    }
  }

  /** A branch name may contain the separator, and then two different artifacts
      have the same string. */
  lemma SeparatorsCanCollide()
    ensures var digest := "sha256:5e88";
            var m := map["repo" := ObservedSource(digest, "a,url=b@sha1:c0de", "http://host/x.tgz", "")];
            var n := map["repo" := ObservedSource(digest, "a", "b@sha1:c0de,url=http://host/x.tgz", "")];
            PreImage(m) == PreImage(n) && !SameArtifacts(m, n)
  {
    hide Part, PreImage;
    var digest, x, y, u := "sha256:5e88", "a", "b@sha1:c0de", "http://host/x.tgz";
    TwoReadings("repo", digest, x, y, u, "");
    assert x + SEPARATOR + y == "a,url=b@sha1:c0de" && y + SEPARATOR + u == "b@sha1:c0de,url=http://host/x.tgz";
    var m := map["repo" := ObservedSource(digest, x + SEPARATOR + y, u, "")];
    var n := map["repo" := ObservedSource(digest, x, y + SEPARATOR + u, "")];
    SameParts(m, n);
    assert m["repo"].revision != n["repo"].revision;
  }
}
