/** The decoder-shaped trees that flow through values resolution and the
    pipeline, and the functional meaning of deepMerge on them.

    A path-by-path view (ShapeAt) determines a tree completely, and the notion
    of a contribution touching a path (Touches) says which of several merged
    contributions is visible at that path. */
module ValueTree {
  import opened Wrappers

  /** L is the type of everything that is neither a map[string]any nor a []any:
      null, booleans, numbers, strings and raw byte slices. */
  datatype Tree<L> =
    | Leaf(leaf: L)
    | Map(entries: map<string, Tree<L>>)
    | List(items: seq<Tree<L>>)

  type Path = seq<string>

  /** The leaves of a decoded document, and the bytes a raw load yields. */
  datatype Scalar = Null | Bool(b: bool) | Number(n: real) | Text(s: string) | Raw(bytes: seq<bv8>)

  type Value = Tree<Scalar>

  const EMPTY: Value := Map(map[])

  /** What a reader sees at one path: nothing, a map to descend into, or a value
      that merging replaces wholesale. */
  datatype Shape<L> = Absent | Branch | Atom(value: Tree<L>)

  function Get<L>(v: Tree<L>, p: Path): Option<Tree<L>> {
    if p == [] then Some(v)
    else if v.Map? && p[0] in v.entries then Get(v.entries[p[0]], p[1..])
    else None
  }

  function ShapeAt<L>(v: Tree<L>, p: Path): Shape<L> {
    match Get(v, p)
    case None => Absent
    case Some(Map(_)) => Branch
    case Some(w) => Atom(w)
  }

  /** v has a say at p: it defines p, or it puts a non-map above p. */
  ghost predicate Touches<L>(v: Tree<L>, p: Path) {
    || ShapeAt(v, p) != Absent
    || exists i :: 0 <= i < |p| && ShapeAt(v, p[..i]).Atom?
  }

  /** deepMerge: maps recurse, on every other pair of types b replaces a. */
  function Merge<L>(a: Tree<L>, b: Tree<L>): Tree<L>
    decreases b
  {
    if a.Map? && b.Map? then
      Map(map k | k in a.entries.Keys + b.entries.Keys ::
            if k !in b.entries then a.entries[k]
            else if k !in a.entries then b.entries[k]
            else Merge(a.entries[k], b.entries[k]))
    else
      b
  }

  /** The left fold both mergeStep.Eval and Resolver.Resolve compute. */
  function Fold<L>(init: Tree<L>, cs: seq<Tree<L>>): Tree<L> {
    if cs == [] then init
    else Merge(Fold(init, cs[..|cs| - 1]), cs[|cs| - 1])
  }

  /** The nested single-entry maps placeAtPath wraps around a value. */
  function PlaceAt<L>(p: Path, v: Tree<L>): Tree<L> {
    if p == [] then v
    else Map(map[p[0] := PlaceAt(p[1..], v)])
  }

  // ---------------------------------------------------------------- paths

  lemma TouchesUnfold<L>(v: Tree<L>, p: Path)
    requires p != []
    ensures Touches(v, p) <==> !v.Map? || (p[0] in v.entries && Touches(v.entries[p[0]], p[1..]))
  {
    if !v.Map? {
      assert ShapeAt(v, p[..0]).Atom?;
    } else if p[0] in v.entries {
      var w, q := v.entries[p[0]], p[1..];
      forall i | 0 <= i < |q|
        ensures ShapeAt(w, q[..i]) == ShapeAt(v, p[..i + 1])
      {
        assert p[..i + 1][1..] == q[..i];
      }
      if i :| 0 < i < |p| && ShapeAt(v, p[..i]).Atom? {
        assert ShapeAt(w, q[..i - 1]) == ShapeAt(v, p[..i - 1 + 1]);
      }
      if i :| 0 <= i < |q| && ShapeAt(w, q[..i]).Atom? {
        assert ShapeAt(v, p[..i + 1]).Atom?;
      }
    }
  }

  lemma ShapeAtKey<L>(v: Tree<L>, k: string)
    requires v.Map?
    ensures ShapeAt(v, [k]) == if k in v.entries then ShapeAt(v.entries[k], []) else Absent
  {
    assert [k][1..] == [];
  }

  /** Two trees that look the same at every path are the same tree. */
  lemma {:induction false} ShapesDetermineTree<L>(a: Tree<L>, b: Tree<L>)
    requires forall p :: ShapeAt(a, p) == ShapeAt(b, p)
    ensures a == b
    decreases a
  {
    assert ShapeAt(a, []) == ShapeAt(b, []);
    if a.Map? {
      forall k
        ensures k in a.entries <==> k in b.entries
        ensures k in a.entries && k in b.entries ==> a.entries[k] == b.entries[k]
      {
        ShapeAtKey(a, k);
        ShapeAtKey(b, k);
        assert ShapeAt(a, [k]) == ShapeAt(b, [k]);
        if k in a.entries && k in b.entries {
          forall q
            ensures ShapeAt(a.entries[k], q) == ShapeAt(b.entries[k], q)
          {
            assert ([k] + q)[1..] == q;
            assert ShapeAt(a, [k] + q) == ShapeAt(b, [k] + q);
          }
          ShapesDetermineTree(a.entries[k], b.entries[k]);
        }
      }
    }
  }

  /** The heart of the merge semantics: at every path the later tree is visible
      if it touches the path, and otherwise the earlier one is. */
  lemma {:induction false} MergeShape<L>(a: Tree<L>, b: Tree<L>, p: Path)
    ensures ShapeAt(Merge(a, b), p) == if Touches(b, p) then ShapeAt(b, p) else ShapeAt(a, p)
    decreases p
  {
    if p != [] {
      TouchesUnfold(b, p);
      if a.Map? && b.Map? && p[0] in a.entries && p[0] in b.entries {
        MergeShape(a.entries[p[0]], b.entries[p[0]], p[1..]);
      }
    }
  }

  // ---------------------------------------------------------------- folds

  ghost predicate Untouched<L>(cs: seq<Tree<L>>, p: Path) {
    forall j :: 0 <= j < |cs| ==> !Touches(cs[j], p)
  }

  ghost predicate IsLastToucher<L>(cs: seq<Tree<L>>, p: Path, i: nat) {
    i < |cs| && Touches(cs[i], p) && Untouched(cs[i + 1..], p)
  }

  /** Last-touch theorem: at every path the fold shows the last contribution
      that touches it, and the initial tree if none does. */
  lemma {:induction false} LastTouchWins<L>(init: Tree<L>, cs: seq<Tree<L>>, p: Path)
    ensures Untouched(cs, p) || exists i: nat :: IsLastToucher(cs, p, i)
    ensures forall i: nat :: IsLastToucher(cs, p, i) ==> ShapeAt(Fold(init, cs), p) == ShapeAt(cs[i], p)
    ensures Untouched(cs, p) ==> ShapeAt(Fold(init, cs), p) == ShapeAt(init, p)
  {
    hide Touches, ShapeAt, Merge;
    if cs != [] {
      var front, c := cs[..|cs| - 1], cs[|cs| - 1];
      LastTouchWins(init, front, p);
      MergeShape(Fold(init, front), c, p);
      if Touches(c, p) {
        assert IsLastToucher(cs, p, |cs| - 1);
      } else {
        forall i: nat | i < |front|
          ensures IsLastToucher(cs, p, i) <==> IsLastToucher(front, p, i)
        {
          assert cs[i + 1..] == front[i + 1..] + [c];
        }
      }
      forall i: nat | IsLastToucher(cs, p, i)
        ensures ShapeAt(Fold(init, cs), p) == ShapeAt(cs[i], p)
      {
        if i < |front| {
          assert cs[i + 1..][|front| - i - 1] == c;
        }
      }
    }
  }

  lemma {:induction false} FoldAppend<L>(init: Tree<L>, xs: seq<Tree<L>>, ys: seq<Tree<L>>)
    ensures Fold(init, xs + ys) == Fold(Fold(init, xs), ys)
  {
    if ys == [] {
      assert xs + ys == xs;
    } else {
      var last := |ys| - 1;
      assert (xs + ys)[..|xs + ys| - 1] == xs + ys[..last];
      FoldAppend(init, xs, ys[..last]);
    }
  }

  /** Starting trees that agree at p, or any contribution touching p, make the
      fold's shape at p independent of where it started. */
  lemma {:induction false} FoldForgetsStart<L>(a: Tree<L>, b: Tree<L>, cs: seq<Tree<L>>, p: Path)
    requires ShapeAt(a, p) == ShapeAt(b, p) || exists c :: c in cs && Touches(c, p)
    ensures ShapeAt(Fold(a, cs), p) == ShapeAt(Fold(b, cs), p)
  {
    if cs != [] {
      var front, c := cs[..|cs| - 1], cs[|cs| - 1];
      assert cs == front + [c];
      MergeShape(Fold(a, front), c, p);
      MergeShape(Fold(b, front), c, p);
      if !Touches(c, p) {
        FoldForgetsStart(a, b, front, p);
      }
    }
  }

  // ------------------------------------------------------------ placement

  /** Reading a placed value back at its own path returns it, null included. */
  lemma {:induction false} PlaceAtRoundTrip<L>(q: Path, v: Tree<L>)
    ensures Get(PlaceAt(q, v), q) == Some(v)
  {
    if q != [] {
      PlaceAtRoundTrip(q[1..], v);
    }
  }

  /** A placed value is visible exactly at and below its path; above it there
      are only maps, and beside it there is nothing. */
  lemma {:induction false} PlaceAtShape<L>(q: Path, v: Tree<L>, p: Path)
    ensures q <= p ==> ShapeAt(PlaceAt(q, v), p) == ShapeAt(v, p[|q|..])
    ensures p < q ==> ShapeAt(PlaceAt(q, v), p) == Branch
    ensures !(q <= p) && !(p <= q) ==> ShapeAt(PlaceAt(q, v), p) == Absent
  {
    if q != [] && p != [] && q[0] == p[0] {
      PlaceAtShape(q[1..], v, p[1..]);
      assert q <= p <==> q[1..] <= p[1..];
      assert p <= q <==> p[1..] <= q[1..];
      if q <= p {
        assert p[1..][|q[1..]|..] == p[|q|..];
      }
    } else if q == [] {
      assert p[|q|..] == p;
    }
  }

  lemma {:induction false} PlaceAtTouches<L>(q: Path, v: Tree<L>, p: Path)
    ensures Touches(PlaceAt(q, v), p) <==> (p <= q || (q <= p && Touches(v, p[|q|..])))
  {
    if q == [] {
      assert p[|q|..] == p;
    } else if p == [] {
    } else {
      TouchesUnfold(PlaceAt(q, v), p);
      if q[0] == p[0] {
        PlaceAtTouches(q[1..], v, p[1..]);
        assert q <= p <==> q[1..] <= p[1..];
        assert p <= q <==> p[1..] <= q[1..];
        if q <= p {
          assert p[1..][|q[1..]|..] == p[|q|..];
        }
      }
    }
  }
}
