/** Algebraic laws of deepMerge, each derived from the path-by-path view. */
module MergeLaws {
  import opened ValueTree

  /** An empty object is a two-sided identity among maps; on the left it is the
      fold's starting value. */
  lemma EmptyMapIsIdentity<L>(v: Tree<L>)
    requires v.Map?
    ensures Merge(Map(map[]), v) == v == Merge(v, Map(map[]))
  {
    var e: Tree<L> := Map(map[]);
    assert Merge(e, v).entries == v.entries;
    assert Merge(v, e).entries == v.entries;
  }

  lemma MergeIdempotent<L>(a: Tree<L>, b: Tree<L>)
    ensures Merge(Merge(a, b), b) == Merge(a, b)
  {
    forall p
      ensures ShapeAt(Merge(Merge(a, b), b), p) == ShapeAt(Merge(a, b), p)
    {
      MergeShape(a, b, p);
      MergeShape(Merge(a, b), b, p);
    }
    ShapesDetermineTree(Merge(Merge(a, b), b), Merge(a, b));
  }

  // ----------------------------------------------------------- commutation

  /** c and d say the same wherever both have a say. */
  ghost predicate Agree<L>(c: Tree<L>, d: Tree<L>) {
    forall p :: Touches(c, p) && Touches(d, p) ==> ShapeAt(c, p) == ShapeAt(d, p)
  }

  /** Two contributions can be applied in either order exactly when they agree,
      whatever they are applied to. */
  lemma CommuteExactly<L>(a: Tree<L>, c: Tree<L>, d: Tree<L>)
    ensures Merge(Merge(a, c), d) == Merge(Merge(a, d), c) <==> Agree(c, d)
  {
    var cd, dc := Merge(Merge(a, c), d), Merge(Merge(a, d), c);
    forall p
      ensures Touches(c, p) && Touches(d, p) ==> ShapeAt(cd, p) == ShapeAt(d, p) && ShapeAt(dc, p) == ShapeAt(c, p)
      ensures !(Touches(c, p) && Touches(d, p)) ==> ShapeAt(cd, p) == ShapeAt(dc, p)
    {
      MergeShape(a, c, p);
      MergeShape(Merge(a, c), d, p);
      MergeShape(a, d, p);
      MergeShape(Merge(a, d), c, p);
    }
    if Agree(c, d) {
      ShapesDetermineTree(cd, dc);
    }
  }

  /** Values placed at segment-wise incomparable paths agree. */
  lemma IncomparablePlacementsAgree<L>(p: Path, v: Tree<L>, q: Path, w: Tree<L>)
    requires !(p <= q) && !(q <= p)
    ensures Agree(PlaceAt(p, v), PlaceAt(q, w))
  {
    forall r | Touches(PlaceAt(p, v), r) && Touches(PlaceAt(q, w), r)
      ensures ShapeAt(PlaceAt(p, v), r) == ShapeAt(PlaceAt(q, w), r)
    {
      PlaceAtTouches(p, v, r);
      PlaceAtTouches(q, w, r);
      PlaceAtShape(p, v, r);
      PlaceAtShape(q, w, r);
    }
  }

  // --------------------------------------------------------- associativity

  /** c has a map where b has a non-map. */
  ghost predicate Revives<L>(b: Tree<L>, c: Tree<L>, p: Path) {
    ShapeAt(b, p).Atom? && ShapeAt(c, p).Branch?
  }

  ghost predicate Associates<L>(a: Tree<L>, b: Tree<L>, c: Tree<L>) {
    Merge(Merge(a, b), c) == Merge(a, Merge(b, c))
  }

  /** deepMerge is not associative. The two bracketings agree for every left
      operand exactly when c nowhere has a map where b has a non-map. */
  lemma AssociateExactly<L(!new)>(b: Tree<L>, c: Tree<L>)
    ensures (forall a :: Associates(a, b, c)) <==> !exists p :: Revives(b, c, p)
  {
    if p :| Revives(b, c, p) {
      RevivalBreaksAssociativity(b, c, p);
      var f := FreshKey(Get(c, p).value.entries.Keys);
      var a := PlaceAt(p + [f], Get(b, p).value);
      assert !Associates(a, b, c);
    } else {
      forall a
        ensures Associates(a, b, c)
      {
        AssociateWithoutRevival(a, b, c);
      }
    }
  }

  lemma AssociateWithoutRevival<L>(a: Tree<L>, b: Tree<L>, c: Tree<L>)
    requires !exists p :: Revives(b, c, p)
    ensures Associates(a, b, c)
  {
    forall p
      ensures ShapeAt(Merge(Merge(a, b), c), p) == ShapeAt(Merge(a, Merge(b, c)), p)
    {
      MergeShape(Merge(a, b), c, p);
      MergeShape(a, b, p);
      MergeShape(a, Merge(b, c), p);
      MergeShape(b, c, p);
      TouchesMerge(b, c, p);
    }
    ShapesDetermineTree(Merge(Merge(a, b), c), Merge(a, Merge(b, c)));
  }

  /** Without a revival a merge touches what either operand touches. */
  lemma {:induction false} TouchesMerge<L>(b: Tree<L>, c: Tree<L>, p: Path)
    requires !exists q :: Revives(b, c, q)
    ensures Touches(Merge(b, c), p) <==> Touches(b, p) || Touches(c, p)
    decreases p
  {
    if p != [] {
      assert !Revives(b, c, []);
      TouchesUnfold(b, p);
      TouchesUnfold(c, p);
      TouchesUnfold(Merge(b, c), p);
      var k := p[0];
      if b.Map? && c.Map? && k in b.entries && k in c.entries {
        forall q
          ensures !Revives(b.entries[k], c.entries[k], q)
        {
          assert ([k] + q)[1..] == q;
          assert !Revives(b, c, [k] + q);
        }
        TouchesMerge(b.entries[k], c.entries[k], p[1..]);
      }
    }
  }

  /** A revival loses, in one bracketing only, whatever the left operand holds
      under the revived map. */
  lemma RevivalBreaksAssociativity<L>(b: Tree<L>, c: Tree<L>, p: Path)
    requires Revives(b, c, p)
    ensures !Associates(PlaceAt(p + [FreshKey(Get(c, p).value.entries.Keys)], Get(b, p).value), b, c)
  {
    var f := FreshKey(Get(c, p).value.entries.Keys);
    var r := p + [f];
    var a := PlaceAt(r, Get(b, p).value);
    assert r[..|p|] == p;
    GetAppend(b, p, [f]);
    GetAppend(c, p, [f]);
    BranchAboveUntouched(c, p, f);
    assert Touches(b, r);
    MergeShape(a, b, r);
    MergeShape(Merge(a, b), c, r);
    assert ShapeAt(Merge(Merge(a, b), c), r) == Absent;

    MergeShape(b, c, p);
    MergeShape(b, c, r);
    GetAppend(Merge(b, c), p, [f]);
    BranchAboveUntouched(Merge(b, c), p, f);
    MergeShape(a, Merge(b, c), r);
    PlaceAtShape(r, Get(b, p).value, r);
    assert r[|r|..] == [];
  }

  lemma {:induction false} GetAppend<L>(v: Tree<L>, p: Path, q: Path)
    ensures Get(v, p + q) == if Get(v, p).Some? then Get(Get(v, p).value, q) else Get(v, p)
  {
    if p == [] {
      assert p + q == q;
    } else {
      assert (p + q)[1..] == p[1..] + q;
      if v.Map? && p[0] in v.entries {
        GetAppend(v.entries[p[0]], p[1..], q);
      }
    }
  }

  /** A tree that has a map at p without the key k leaves p + [k] untouched. */
  lemma {:induction false} BranchAboveUntouched<L>(v: Tree<L>, p: Path, k: string)
    requires ShapeAt(v, p).Branch? && ShapeAt(v, p + [k]) == Absent
    ensures !Touches(v, p + [k])
  {
    var r := p + [k];
    TouchesUnfold(v, r);
    if p == [] {
      ShapeAtKey(v, k);
      assert r == [k];
    } else {
      assert r[1..] == p[1..] + [k];
      BranchAboveUntouched(v.entries[p[0]], p[1..], k);
    }
  }

  // -------------------------------------------------------------- repeats

  /** The contributions with every occurrence of a value but its last dropped. */
  function KeepLast<L(==)>(cs: seq<Tree<L>>): seq<Tree<L>> {
    if cs == [] then []
    else if cs[0] in cs[1..] then KeepLast(cs[1..])
    else [cs[0]] + KeepLast(cs[1..])
  }

  /** Only the last mention of a repeated contribution matters. */
  lemma {:induction false} RepeatsAreRedundant<L>(init: Tree<L>, cs: seq<Tree<L>>)
    ensures Fold(init, KeepLast(cs)) == Fold(init, cs)
    decreases |cs|
  {
    if cs != [] {
      var c, rest := cs[0], cs[1..];
      assert cs == [c] + rest;
      FoldAppend(init, [c], rest);
      assert [c][..0] == [];
      if c in rest {
        forall p
          ensures ShapeAt(Fold(Merge(init, c), rest), p) == ShapeAt(Fold(init, rest), p)
        {
          MergeShape(init, c, p);
          FoldForgetsStart(Merge(init, c), init, rest, p);
        }
        ShapesDetermineTree(Fold(Merge(init, c), rest), Fold(init, rest));
        RepeatsAreRedundant(init, rest);
      } else {
        RepeatsAreRedundant(Merge(init, c), rest);
        FoldAppend(init, [c], KeepLast(rest));
      }
    }
  }

  /** The positions from i on after which the element does not occur again, ascending. */
  ghost function LastPositions<T>(s: seq<T>, i: nat): (pos: seq<nat>)
    requires i <= |s|
    ensures forall j {:trigger j in pos} :: j in pos <==> i <= j < |s| && s[j] !in s[j + 1..]
    ensures forall j, k :: 0 <= j < k < |pos| ==> pos[j] < pos[k]
    decreases |s| - i
  {
    if i == |s| then []
    else if s[i] in s[i + 1..] then LastPositions(s, i + 1)
    else
      var rest := LastPositions(s, i + 1);
      assert forall k :: 0 <= k < |rest| ==> rest[k] in rest;
      [i] + rest
  }

  lemma {:induction false} KeepLastFrom<L>(cs: seq<Tree<L>>, i: nat)
    requires i <= |cs|
    ensures var pos := LastPositions(cs, i);
            && |KeepLast(cs[i..])| == |pos|
            && forall k :: 0 <= k < |pos| ==> pos[k] in pos && pos[k] < |cs| && KeepLast(cs[i..])[k] == cs[pos[k]]
    decreases |cs| - i
  {
    if i < |cs| {
      KeepLastFrom(cs, i + 1);
      assert cs[i..][0] == cs[i] && cs[i..][1..] == cs[i + 1..];
    }
  }

  /** What is kept: the contributions at exactly the positions after which they do
      not occur again, in order. */
  lemma {:induction false} KeepLastExactly<L>(cs: seq<Tree<L>>) returns (pos: seq<nat>)
    ensures forall i, j :: 0 <= i < j < |pos| ==> pos[i] < pos[j]
    ensures forall i {:trigger i in pos} :: i in pos <==> 0 <= i < |cs| && cs[i] !in cs[i + 1..]
    ensures |KeepLast(cs)| == |pos| && forall k :: 0 <= k < |pos| ==> pos[k] < |cs| && KeepLast(cs)[k] == cs[pos[k]]
  {
    pos := LastPositions(cs, 0);
    KeepLastFrom(cs, 0);
    assert cs[0..] == cs;
  }

  /** The smallest failure: an intermediate scalar is overwritten by a map. */
  lemma AssociativityFails<L>(l: L)
    ensures var a := Map(map["x" := Map(map["p" := Leaf(l)])]);
            var b := Map(map["x" := Leaf(l)]);
            var c := Map(map["x" := Map(map["q" := Leaf(l)])]);
            !Associates(a, b, c)
  {
    var a := Map(map["x" := Map(map["p" := Leaf(l)])]);
    var b := Map(map["x" := Leaf(l)]);
    var c := Map(map["x" := Map(map["q" := Leaf(l)])]);
    var ab, bc := Merge(a, b), Merge(b, c);
    assert "x" in a.entries && "x" in b.entries && "x" in c.entries;
    assert ab.entries["x"] == Merge(a.entries["x"], b.entries["x"]) == b.entries["x"];
    assert bc.entries["x"] == Merge(b.entries["x"], c.entries["x"]) == c.entries["x"];
    assert Merge(ab, c).entries["x"] == c.entries["x"];
    assert Merge(a, bc).entries["x"] == Merge(a.entries["x"], c.entries["x"]);
    assert "p" in Merge(a.entries["x"], c.entries["x"]).entries;
  }

  // ----------------------------------------------------------- fresh keys

  ghost function MaxLength(s: set<string>): (n: nat)
    ensures forall k :: k in s ==> |k| <= n
  {
    if s == {} then 0
    else
      var k :| k in s;
      var rest := MaxLength(s - {k});
      assert forall j :: j in s ==> j == k || j in s - {k};
      if |k| > rest then |k| else rest
  }

  ghost function FreshKey(s: set<string>): (k: string)
    ensures k !in s
  {
    seq(MaxLength(s) + 1, _ => 'x')
  }
}
