/** What .values resolves to, said of the text of target paths, of what the
    ConfigMaps hold and of what spec.values decodes to. */
module ValuesLaws {
  import opened Wrappers
  import opened ValueTree
  import opened Strings
  import opened Values

  // ------------------------------------------------------------ target paths

  /** targetPath is the parts with dots between them; the empty path is the root. */
  ghost predicate Spells(parts: Path, targetPath: string) {
    && targetPath == Join(parts, '.')
    && forall i :: 0 <= i < |parts| ==> parts[i] != "" && '.' !in parts[i]
  }

  /** A path with an empty segment: a dot at either end, or two in a row. */
  ghost predicate Malformed(targetPath: string) {
    && targetPath != ""
    && (|| targetPath[0] == '.' || targetPath[|targetPath| - 1] == '.'
        || exists i :: DoubleAt(targetPath, i, '.'))
  }

  predicate DoubleAt(s: string, i: int, c: char) {
    0 <= i < |s| - 1 && s[i] == c && s[i + 1] == c
  }

  lemma {:induction false} EmptyAfterFirst(s: string, sep: char)
    ensures "" in Split(s, sep)[1..] <==> (s != "" && s[|s| - 1] == sep) || exists i :: DoubleAt(s, i, sep)
    ensures Split(s, sep)[0] == "" <==> s == "" || s[0] == sep
  {
    if s != "" {
      var t, rest := s[1..], Split(s[1..], sep);
      EmptyAfterFirst(t, sep);
      assert rest == [rest[0]] + rest[1..];
      if i :| DoubleAt(s, i, sep) {
        assert i == 0 || DoubleAt(t, i - 1, sep);
      }
      if i :| DoubleAt(t, i, sep) {
        assert DoubleAt(s, i + 1, sep);
      }
      if s[0] == sep {
        assert Split(s, sep)[1..] == rest;
        assert t != "" && t[0] == sep ==> DoubleAt(s, 0, sep);
      } else {
        assert Split(s, sep)[1..] == rest[1..];
      }
    }
  }

  lemma RefusedExactly(targetPath: string)
    ensures ValidTargetPath(targetPath) <==> !Malformed(targetPath)
  {
    if targetPath != "" {
      var parts := Split(targetPath, '.');
      EmptyAfterFirst(targetPath, '.');
      assert parts == [parts[0]] + parts[1..];
    }
  }

  lemma SegmentsAreTheParts(parts: Path, targetPath: string)
    requires Spells(parts, targetPath)
    ensures Segments(targetPath) == parts && ValidTargetPath(targetPath)
  {
    assert Split("", '.') == [""] && "" in [""];
    if parts != [] {
      SplitJoin(parts, '.');
    }
  }

  /** Every well-formed path has its parts. */
  lemma PathHasParts(targetPath: string) returns (parts: Path)
    requires !Malformed(targetPath)
    ensures Spells(parts, targetPath)
  {
    RefusedExactly(targetPath);
    parts := Segments(targetPath);
    if targetPath != "" {
      JoinSplit(targetPath, '.');
      SplitIsFree(targetPath, '.');
      assert forall i :: 0 <= i < |parts| ==> parts[i] in parts;
    }
  }

  /** t has v at the end of the parts, a map on the way there, and nothing beside. */
  ghost predicate HoldsOnly(t: Value, parts: Path, v: Value) {
    && Get(t, parts) == Some(v)
    && (forall i :: 0 <= i < |parts| ==> ShapeAt(t, parts[..i]) == Branch)
    && forall p: Path :: !(p <= parts) && !(parts <= p) ==> Get(t, p) == None
  }

  lemma PlacedHoldsOnly(parts: Path, v: Value)
    ensures HoldsOnly(PlaceAt(parts, v), parts, v)
  {
    PlaceAtRoundTrip(parts, v);
    forall i | 0 <= i < |parts|
      ensures ShapeAt(PlaceAt(parts, v), parts[..i]) == Branch
    {
      PlaceAtShape(parts, v, parts[..i]);
    }
    forall p: Path | !(p <= parts) && !(parts <= p)
      ensures Get(PlaceAt(parts, v), p) == None
    {
      PlaceAtShape(parts, v, p);
    }
  }

  /** Placing a value at a dotted path. */
  ghost predicate PlacedMeans(targetPath: string, v: Value, r: Result<Value, ValuesError>) {
    if targetPath == "" then r == if v.Map? then Success(v) else Failure(RootNeedsObject)
    else if Malformed(targetPath) then r == Failure(EmptySegment)
    else r.Success? && exists parts :: Spells(parts, targetPath) && HoldsOnly(r.value, parts, v)
  }

  lemma PlacedIsMeant(targetPath: string, v: Value)
    ensures PlacedMeans(targetPath, v, Placed(targetPath, v))
  {
    hide ValidTargetPath, HoldsOnly;
    RefusedExactly(targetPath);
    if targetPath != "" && !Malformed(targetPath) {
      var parts := PathHasParts(targetPath);
      SegmentsAreTheParts(parts, targetPath);
      PlacedHoldsOnly(parts, v);
    }
  }

  /** The round trip: for any non-empty list of non-empty, dot-free parts, placing
      at the dotted path succeeds, and looking up the parts gives the value back. */
  lemma DottedRoundTrip(parts: Path, v: Value)
    requires parts != [] && forall i :: 0 <= i < |parts| ==> parts[i] != "" && '.' !in parts[i]
    ensures var r := Placed(Join(parts, '.'), v); r.Success? && HoldsOnly(r.value, parts, v)
  {
    hide HoldsOnly;
    assert Spells(parts, Join(parts, '.'));
    SegmentsAreTheParts(parts, Join(parts, '.'));
    PlacedHoldsOnly(parts, v);
    SplitJoin(parts, '.');
    assert Join(parts, '.') != "";
  }

  /** For instance "global.image". */
  lemma TwoPartPath(a: string, b: string, v: Value)
    requires a != "" && b != "" && '.' !in a && '.' !in b
    ensures Placed(a + "." + b, v) == Success(Map(map[a := Map(map[b := v])]))
  {
    var parts := [a, b];
    assert parts[1..] == [b];
    assert Join(parts, '.') == a + "." + b;
    SegmentsAreTheParts(parts, a + "." + b);
    assert PlaceAt([b], v) == Map(map[b := v]);
  }

  // ------------------------------------------------------------ one reference

  /** The value a ConfigMap's data contributes: the decoded text of the selected
      key, or every key as a string. */
  ghost predicate ContentIs(ref: ValuesReference, data: map<string, string>, decode: string -> Option<Value>, v: Value)
  {
    if ref.valuesKey == "" then
      && v.Map? && v.entries.Keys == data.Keys
      && forall k :: k in data ==> v.entries[k] == Leaf(Text(data[k]))
    else ref.valuesKey in data && decode(data[ref.valuesKey]) == Some(v)
  }

  ghost predicate ContributionMeans(r: Resolver, ref: ValuesReference, ns: string,
                                    c: Result<Option<Value>, ValuesError>)
  {
    if ref.kind != "" && ref.kind != "ConfigMap" then c == Failure(UnsupportedKind)
    else if r.noCrossNamespaceRefs && ref.namespace != "" && ref.namespace != ns then c == Failure(AccessDenied)
    else
      match r.read(if ref.namespace == "" then ns else ref.namespace, ref.name)
      case NotFound => c == if ref.optional then Success(None) else Failure(FetchFailed)
      case Unreadable => c == Failure(FetchFailed)
      case Found(data) =>
        if ref.valuesKey != "" && ref.valuesKey !in data then
          c == if ref.optional then Success(None) else Failure(FetchFailed)
        else if ref.valuesKey != "" && DoesNotDecode(r, data[ref.valuesKey]) then
          c == if ref.optional then Success(None) else Failure(Undecodable)
        else
          exists v :: ContentIs(ref, data, r.decode, v) && ContentContributes(ref.targetPath, v, c)
  }

  predicate DoesNotDecode(r: Resolver, text: string) {
    r.decode(text) == None
  }

  ghost predicate ContentContributes(targetPath: string, v: Value, c: Result<Option<Value>, ValuesError>) {
    if targetPath == "" && v == Leaf(Null) then c == Success(None)
    else
      match c
      case Failure(err) => PlacedMeans(targetPath, v, Failure(err))
      case Success(t) => t.Some? && PlacedMeans(targetPath, v, Success(t.value))
  }

  lemma ContributionIsMeant(r: Resolver, ref: ValuesReference, ns: string)
    ensures ContributionMeans(r, ref, ns, Contribution(r, ref, ns))
  {
    hide PlacedMeans, Placed;
    var read := r.read(if ref.namespace == "" then ns else ref.namespace, ref.name);
    if read.Found? {
      var content := Injected(read.data, ref.valuesKey, r.decode);
      if content.Success? {
        assert ContentIs(ref, read.data, r.decode, content.value);
        PlacedIsMeant(ref.targetPath, content.value);
        if Readable(r, ref, ns) {
          assert ContentContributes(ref.targetPath, content.value, Contribution(r, ref, ns));
        }
      }
    }
  }

  // -------------------------------------------------------------- the whole tree

  /** spec.values is empty, null or a map. */
  ghost predicate InlineIsUsable(raw: string, decode: string -> Option<Value>) {
    raw == "" || (decode(raw).Some? && (decode(raw).value.Map? || decode(raw).value == Leaf(Null)))
  }

  /** Given that every reference resolves, resolving fails exactly on a spec.values
      that does not decode, or decodes to something that is neither a map nor null. */
  lemma InlineFailsExactly(r: Resolver, refs: seq<ValuesReference>, raw: string, ns: string)
    requires AllResolve(r, refs, ns)
    ensures Resolvable(r, refs, raw, ns) <==> InlineIsUsable(raw, r.decode)
  {
  }

  /** c is what the reference contributes, and it touches the path. */
  ghost predicate Shows(r: Resolver, ref: ValuesReference, ns: string, c: Value, p: Path) {
    Contribution(r, ref, ns) == Success(Some(c)) && Touches(c, p)
  }

  /** No reference from position i on touches the path. */
  ghost predicate SilentFrom(r: Resolver, refs: seq<ValuesReference>, ns: string, p: Path, i: nat) {
    forall j, d :: i <= j < |refs| ==> !Shows(r, refs[j], ns, d, p)
  }

  lemma LastReference(r: Resolver, refs: seq<ValuesReference>, ns: string, p: Path)
    requires AllResolve(r, refs, ns) && refs != []
    ensures var n := |refs| - 1;
            && AllResolve(r, refs[..n], ns) && Contribution(r, refs[n], ns).Success?
            && var before := Fold(EMPTY, Contributed(r, refs[..n], ns));
               && (forall c :: Shows(r, refs[n], ns, c, p) ==>
                                 ShapeAt(Fold(EMPTY, Contributed(r, refs, ns)), p) == ShapeAt(c, p))
               && ((forall c :: !Shows(r, refs[n], ns, c, p)) ==>
                     ShapeAt(Fold(EMPTY, Contributed(r, refs, ns)), p) == ShapeAt(before, p))
  {
    hide Contribution, ShapeAt, Touches, Fold;
    var n := |refs| - 1;
    assert refs[n] in refs && forall ref :: ref in refs[..n] ==> ref in refs;
    var before, c := Fold(EMPTY, Contributed(r, refs[..n], ns)), Contribution(r, refs[n], ns).value;
    FoldOptional(EMPTY, Contributed(r, refs[..n], ns), c);
    if c.Some? {
      MergeShape(before, c.value, p);
      assert Touches(c.value, p) ==> Shows(r, refs[n], ns, c.value, p);
    }
  }

  lemma {:induction false} LastReferenceShows(r: Resolver, refs: seq<ValuesReference>, ns: string, p: Path, i: nat,
                                              c: Value)
    requires AllResolve(r, refs, ns) && i < |refs| && Shows(r, refs[i], ns, c, p) && SilentFrom(r, refs, ns, p, i + 1)
    ensures ShapeAt(Fold(EMPTY, Contributed(r, refs, ns)), p) == ShapeAt(c, p)
  {
    hide Contribution, ShapeAt, Shows, Fold, Contributed;
    var n := |refs| - 1;
    LastReference(r, refs, ns, p);
    if i < n {
      assert SilentFrom(r, refs[..n], ns, p, i + 1);
      LastReferenceShows(r, refs[..n], ns, p, i, c);
    }
  }

  lemma {:induction false} NothingShows(r: Resolver, refs: seq<ValuesReference>, ns: string, p: Path)
    requires AllResolve(r, refs, ns) && SilentFrom(r, refs, ns, p, 0)
    ensures ShapeAt(Fold(EMPTY, Contributed(r, refs, ns)), p) == ShapeAt(EMPTY, p)
  {
    hide Contribution, ShapeAt, Shows;
    if refs != [] {
      var n := |refs| - 1;
      LastReference(r, refs, ns, p);
      assert SilentFrom(r, refs[..n], ns, p, 0);
      NothingShows(r, refs[..n], ns, p);
    }
  }

  /** What .values shows at a path: the inline map if it touches the path, else the
      contribution of the last reference that touches it, else nothing. */
  lemma ValuesShow(r: Resolver, refs: seq<ValuesReference>, raw: string, ns: string, p: Path)
    requires Resolvable(r, refs, raw, ns)
    ensures var tree, inline := ValuesTree(r, refs, raw, ns), if raw == "" then None else r.decode(raw);
            if inline.Some? && inline.value.Map? && Touches(inline.value, p) then
              ShapeAt(tree, p) == ShapeAt(inline.value, p)
            else
              && (forall i: nat, c :: i < |refs| && Shows(r, refs[i], ns, c, p) && SilentFrom(r, refs, ns, p, i + 1) ==>
                                        ShapeAt(tree, p) == ShapeAt(c, p))
              && (SilentFrom(r, refs, ns, p, 0) ==> ShapeAt(tree, p) == ShapeAt(EMPTY, p))
  {
    hide Contribution, ShapeAt, Touches, Shows, SilentFrom, Contributed, Fold;
    var sofar, inline := Fold(EMPTY, Contributed(r, refs, ns)), Inline(raw, r.decode).value;
    FoldOptional(EMPTY, Contributed(r, refs, ns), inline);
    if inline.Some? {
      MergeShape(sofar, inline.value, p);
    }
    forall i: nat, c | i < |refs| && Shows(r, refs[i], ns, c, p) && SilentFrom(r, refs, ns, p, i + 1)
      ensures ShapeAt(sofar, p) == ShapeAt(c, p)
    {
      LastReferenceShows(r, refs, ns, p, i, c);
    }
    if SilentFrom(r, refs, ns, p, 0) {
      NothingShows(r, refs, ns, p);
    }
  }

  /** Adjacent references whose target paths have parts neither of which is a prefix
      of the other can be swapped. */
  lemma SwapBesides(r: Resolver, xs: seq<ValuesReference>, a: ValuesReference, b: ValuesReference,
                    ys: seq<ValuesReference>, raw: string, ns: string, pa: Path, pb: Path)
    requires Spells(pa, a.targetPath) && Spells(pb, b.targetPath) && !(pa <= pb) && !(pb <= pa)
    ensures Resolvable(r, xs + [a, b] + ys, raw, ns) <==> Resolvable(r, xs + [b, a] + ys, raw, ns)
    ensures Resolvable(r, xs + [a, b] + ys, raw, ns) ==>
              ValuesTree(r, xs + [a, b] + ys, raw, ns) == ValuesTree(r, xs + [b, a] + ys, raw, ns)
  {
    SegmentsAreTheParts(pa, a.targetPath);
    SegmentsAreTheParts(pb, b.targetPath);
    SwapIncomparable(r, xs, a, b, ys, raw, ns);
  }
}
