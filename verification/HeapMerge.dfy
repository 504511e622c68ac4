/** deepClone, deepMerge and the merge step on mutable Go values: maps and
    slices are heap objects that may be shared, and a value denotes the tree one
    reads off it. The only modifies clause is that of the loop that fills the map
    deepMerge has just made, so nothing here writes to an object that existed
    before deepMerge or deepClone was called. */
module HeapMerge {
  import opened Wrappers
  import opened ValueTree
  import opened MergeWork

  /** Everything deepClone's default branch returns as it is. A byte slice is a
      reference, so a raw value stays shared between a tree and its clone. */
  datatype GoLeaf = Null | Bool(b: bool) | Number(n: real) | Text(s: string) | Raw(bytes: array<bv8>)

  datatype Any = Scalar(leaf: GoLeaf) | Object(obj: MapObject) | Slice(arr: array<Any>)

  type HeapTree = Tree<GoLeaf>

  class MapObject {
    var entries: map<string, Any>

    constructor ()
      ensures entries == map[]
    {
      entries := map[];
    }
  }

  /** r, read in the current heap, is the tree v, and every map and slice on the
      way is in S. Substructure may be shared. */
  ghost predicate Denotes(r: Any, v: HeapTree, S: set<object>)
    reads S
    decreases v, 1
  {
    match v
    case Leaf(l) =>
      r == Scalar(l)
    case Map(m) =>
      && r.Object? && r.obj in S
      && r.obj.entries.Keys == m.Keys
      && EntriesDenote(r.obj.entries, v, S)
    case List(xs) =>
      && r.Slice? && (r.arr as object) in S
      && r.arr.Length == |xs|
      && ItemsDenote(r.arr[..], v, S)
  }

  /** The entries es are some of the entries of the map v. */
  ghost predicate EntriesDenote(es: map<string, Any>, v: HeapTree, S: set<object>)
    requires v.Map?
    reads S
    decreases v, 0
  {
    forall k :: k in es ==> k in v.entries && Denotes(es[k], v.entries[k], S)
  }

  /** The items rs are the first items of the list v. */
  ghost predicate ItemsDenote(rs: seq<Any>, v: HeapTree, S: set<object>)
    requires v.List?
    reads S
    decreases v, 0
  {
    |rs| <= |v.items| && forall i :: 0 <= i < |rs| ==> Denotes(rs[i], v.items[i], S)
  }

  lemma {:induction false} DenotesMonotone(r: Any, v: HeapTree, S: set<object>, T: set<object>)
    requires Denotes(r, v, S) && S <= T
    ensures Denotes(r, v, T)
    decreases v
  {
    match v
    case Leaf(_) =>
    case Map(m) =>
      forall k | k in m
        ensures Denotes(r.obj.entries[k], m[k], T)
      {
        DenotesMonotone(r.obj.entries[k], m[k], S, T);
      }
    case List(xs) =>
      forall i | 0 <= i < |xs|
        ensures Denotes(r.arr[i], xs[i], T)
      {
        assert Denotes(r.arr[..][i], xs[i], S);
        DenotesMonotone(r.arr[i], xs[i], S, T);
      }
  }

  lemma SetEntry(es: map<string, Any>, v: HeapTree, F: set<object>, k: string, child: Any, x: HeapTree, G: set<object>)
    requires v.Map? && EntriesDenote(es, v, F) && Denotes(child, x, G)
    ensures EntriesDenote(es[k := child], Map(v.entries[k := x]), F + G)
  {
    DenotesMonotone(child, x, G, F + G);
    forall j | j in es
      ensures Denotes(es[j], v.entries[j], F + G)
    {
      DenotesMonotone(es[j], v.entries[j], F, F + G);
    }
  }

  lemma AppendItem(rs: seq<Any>, v: HeapTree, F: set<object>, child: Any, G: set<object>)
    requires v.List? && |rs| < |v.items|
    requires ItemsDenote(rs, v, F) && Denotes(child, v.items[|rs|], G)
    ensures ItemsDenote(rs + [child], v, F + G)
  {
    DenotesMonotone(child, v.items[|rs|], G, F + G);
    forall j | 0 <= j < |rs|
      ensures Denotes(rs[j], v.items[j], F + G)
    {
      DenotesMonotone(rs[j], v.items[j], F, F + G);
    }
  }

  lemma AddOwner(r: Any, v: HeapTree, F: set<object>, owner: object)
    requires !v.Leaf?
    requires v.Map? ==>
               && r.Object? && r.obj == owner
               && r.obj.entries.Keys == v.entries.Keys && EntriesDenote(r.obj.entries, v, F)
    requires v.List? ==> r.Slice? && r.arr == owner && r.arr.Length == |v.items| && ItemsDenote(r.arr[..], v, F)
    ensures Denotes(r, v, F + {owner})
  {
    if v.Map? {
      forall j | j in v.entries
        ensures Denotes(r.obj.entries[j], v.entries[j], F + {owner})
      {
        DenotesMonotone(r.obj.entries[j], v.entries[j], F, F + {owner});
      }
    } else {
      forall j | 0 <= j < |v.items|
        ensures Denotes(r.arr[..][j], v.items[j], F + {owner})
      {
        DenotesMonotone(r.arr[..][j], v.items[j], F, F + {owner});
      }
    }
  }

  // --------------------------------------------------------------- methods

  /** A structurally equal copy all of whose maps and slices are new. */
  method DeepClone(r: Any, ghost v: HeapTree, ghost S: set<object>)
    returns (c: Any, ghost F: set<object>, ghost visits: nat)
    requires Denotes(r, v, S)
    ensures fresh(F)
    ensures Denotes(c, v, F)
    ensures visits == Size(v)
    decreases v, 1
  {
    match r
    case Object(o) =>
      var out;
      out, F, visits := CloneEntries(o, v, S);
      AddOwner(Object(out), v, F, out);
      c, F, visits := Object(out), F + {out}, visits + 1;
    case Slice(a) =>
      var out;
      out, F, visits := CloneSlice(a, v, S);
      c, visits := Slice(out), visits + 1;
    case Scalar(_) =>
      c, F, visits := r, {}, 1;
  }

  /** The loop that deepClone and deepMerge share: a new map holding a clone of
      every entry of o, visited in any order. */
  method CloneEntries(o: MapObject, ghost v: HeapTree, ghost S: set<object>)
    returns (out: MapObject, ghost F: set<object>, ghost visits: nat)
    requires Denotes(Object(o), v, S)
    ensures fresh(out) && fresh(F) && out !in F
    ensures out.entries.Keys == v.entries.Keys && EntriesDenote(out.entries, v, F)
    ensures visits == SizeOfEntries(v, v.entries.Keys)
    decreases v, 0
  {
    hide Size;
    out := new MapObject();
    F, visits := {}, 0;
    var rest := o.entries.Keys;
    while rest != {}
      invariant rest <= o.entries.Keys == v.entries.Keys
      invariant fresh(out) && fresh(F) && out !in F
      invariant out.entries.Keys == o.entries.Keys - rest
      invariant EntriesDenote(out.entries, v, F)
      invariant visits == SizeOfEntries(v, v.entries.Keys - rest)
      decreases rest
    {
      var k :| k in rest;
      var child, G, n := DeepClone(o.entries[k], v.entries[k], S);
      CountEntry(v, rest, k);
      visits := visits + n;
      SetEntry(out.entries, v, F, k, child, v.entries[k], G);
      assert v.entries[k := v.entries[k]] == v.entries;
      F, rest := F + G, rest - {k};
      out.entries := out.entries[k := child];
    }
  }

  lemma CountEntry(v: HeapTree, rest: set<string>, k: string)
    requires v.Map? && k in rest && rest <= v.entries.Keys
    ensures SizeOfEntries(v, v.entries.Keys - (rest - {k}))
         == SizeOfEntries(v, v.entries.Keys - rest) + Size(v.entries[k])
  {
    AddEntry(v, v.entries.Keys - rest, k);
    assert v.entries.Keys - rest + {k} == v.entries.Keys - (rest - {k});
  }

  lemma NoItems(v: HeapTree)
    requires v.List?
    ensures ItemsDenote([], v, {})
  {
  }

  lemma ItemDenotes(a: array<Any>, v: HeapTree, S: set<object>, i: nat)
    requires Denotes(Slice(a), v, S) && i < a.Length
    ensures v.List? && a.Length == |v.items| && Denotes(a[i], v.items[i], S)
  {
    assert a[..][i] == a[i];
  }

  method CloneSlice(a: array<Any>, ghost v: HeapTree, ghost S: set<object>)
    returns (out: array<Any>, ghost F: set<object>, ghost visits: nat)
    requires Denotes(Slice(a), v, S)
    ensures fresh(F)
    ensures Denotes(Slice(out), v, F)
    ensures visits == SizeOfItems(v, |v.items|)
    decreases v, 0
  {
    hide Size, ItemsDenote;
    out := new Any[a.Length](_ => Scalar(GoLeaf.Null));
    F, visits := {}, 0;
    NoItems(v);
    assert out[..0] == [];
    for i := 0 to a.Length
      invariant fresh(out) && fresh(F) && (out as object) !in F
      invariant ItemsDenote(out[..i], v, F)
      invariant visits == SizeOfItems(v, i)
    {
      ItemDenotes(a, v, S, i);
      var child, G, n := DeepClone(a[i], v.items[i], S);
      visits := visits + n;
      AppendItem(out[..i], v, F, child, G);
      F := F + G;
      out[i] := child;
      assert out[..i + 1] == out[..i] + [child];
    }
    assert out[..] == out[..a.Length];
    AddOwner(Slice(out), v, F, out);
    F := F + {out};
  }

  /** A tree that denotes the functional merge, all of whose maps and slices are
      new, whatever order the two maps are iterated in. The visits are counted,
      and bounded. */
  method DeepMerge(a: Any, b: Any, ghost va: HeapTree, ghost vb: HeapTree, ghost S: set<object>, ghost T: set<object>)
    returns (c: Any, ghost F: set<object>, ghost visits: nat)
    requires Denotes(a, va, S) && Denotes(b, vb, T)
    ensures fresh(F)
    ensures Denotes(c, Merge(va, vb), F)
    ensures visits == Work(va, vb) <= MapDepth(va) * Size(va) + Size(vb)
    decreases vb, 2
  {
    hide Size, SizeOfEntries, WorkOnKeys, MapDepth;
    WorkBound(va, vb);
    if a.Object? && b.Object? {
      var out;
      ghost var n;
      out, F, visits := CloneEntries(a.obj, va, S);
      F, n := MergeEntries(out, b.obj, va, vb, F, T);
      AddOwner(Object(out), Merge(va, vb), F, out);
      c, F, visits := Object(out), F + {out}, 1 + visits + n;
    } else {
      c, F, visits := DeepClone(b, vb, T);
    }
  }

  /** What the result holds once the keys in done of vb have been merged. */
  ghost function Blend(va: HeapTree, vb: HeapTree, done: set<string>): (v: HeapTree)
    requires va.Map? && vb.Map? && done <= vb.entries.Keys
    ensures v.Map?
  {
    var goal := Merge(va, vb).entries;
    Map(map k | k in va.entries.Keys + done :: if k in done then goal[k] else va.entries[k])
  }

  /** deepMerge's second loop: out holds clones of va's entries and ends up
      holding the merged entries. */
  method MergeEntries(out: MapObject, o: MapObject, ghost va: HeapTree, ghost vb: HeapTree,
                      ghost F0: set<object>, ghost T: set<object>)
    returns (ghost F: set<object>, ghost visits: nat)
    requires va.Map? && vb.Map?
    requires out !in F0 && out !in T
    requires out.entries.Keys == va.entries.Keys && EntriesDenote(out.entries, va, F0)
    requires Denotes(Object(o), vb, T)
    modifies out
    ensures fresh(F - F0) && F0 <= F && out !in F
    ensures out.entries.Keys == Merge(va, vb).entries.Keys && EntriesDenote(out.entries, Merge(va, vb), F)
    ensures visits == WorkOnKeys(va, vb, vb.entries.Keys)
    decreases vb, 1
  {
    hide Merge, Blend, Denotes, EntriesDenote, WorkOnKey;
    F, visits := F0, 0;
    ghost var done: set<string> := {};
    BlendEnds(va, vb);
    SameKeys(o, vb, T);
    var rest := o.entries.Keys;
    while rest != {}
      invariant rest <= vb.entries.Keys && done == vb.entries.Keys - rest
      invariant fresh(F - F0) && F0 <= F && out !in F
      invariant Denotes(Object(o), vb, T)
      invariant HoldsBlend(out.entries, va, vb, done, F)
      invariant visits == WorkOnKeys(va, vb, done)
      decreases rest
    {
      var k :| k in rest;
      var child, G, n := MergeChild(out.entries, k, o, va, vb, done, F, T);
      BlendStep(out.entries, va, vb, done, F, k, child, G);
      AddKey(va, vb, done, k);
      visits := visits + n;
      F, rest, done := F + G, rest - {k}, done + {k};
      out.entries := out.entries[k := child];
    }
    assert done == vb.entries.Keys;
  }

  lemma SameKeys(o: MapObject, v: HeapTree, T: set<object>)
    requires v.Map? && Denotes(Object(o), v, T)
    ensures o.entries.Keys == v.entries.Keys
  {
  }

  ghost predicate HoldsBlend(es: map<string, Any>, va: HeapTree, vb: HeapTree, done: set<string>, F: set<object>)
    requires va.Map? && vb.Map? && done <= vb.entries.Keys
    reads F
  {
    es.Keys == va.entries.Keys + done && EntriesDenote(es, Blend(va, vb, done), F)
  }

  lemma BlendEnds(va: HeapTree, vb: HeapTree)
    requires va.Map? && vb.Map?
    ensures Blend(va, vb, {}) == va
    ensures Blend(va, vb, vb.entries.Keys) == Merge(va, vb)
    ensures Merge(va, vb).entries.Keys == va.entries.Keys + vb.entries.Keys
  {
    assert Blend(va, vb, {}).entries == va.entries;
    assert Blend(va, vb, vb.entries.Keys).entries == Merge(va, vb).entries;
  }

  lemma BlendStep(es: map<string, Any>, va: HeapTree, vb: HeapTree, done: set<string>, F: set<object>,
                  k: string, child: Any, G: set<object>)
    requires va.Map? && vb.Map? && done <= vb.entries.Keys && k in vb.entries && k !in done
    requires HoldsBlend(es, va, vb, done, F)
    requires Denotes(child, Merge(va, vb).entries[k], G)
    ensures HoldsBlend(es[k := child], va, vb, done + {k}, F + G)
  {
    var before, after := Blend(va, vb, done), Blend(va, vb, done + {k});
    assert after.entries == before.entries[k := Merge(va, vb).entries[k]];
    SetEntry(es, before, F, k, child, Merge(va, vb).entries[k], G);
  }

  /** One iteration: merge into the clone if a had the key, clone b's value if
      it had not. */
  method MergeChild(es: map<string, Any>, k: string, o: MapObject, ghost va: HeapTree, ghost vb: HeapTree,
                    ghost done: set<string>, ghost F: set<object>, ghost T: set<object>)
    returns (child: Any, ghost G: set<object>, ghost visits: nat)
    requires va.Map? && vb.Map? && done <= vb.entries.Keys && k in vb.entries && k !in done
    requires HoldsBlend(es, va, vb, done, F)
    requires Denotes(Object(o), vb, T)
    ensures fresh(G)
    ensures Denotes(child, Merge(va, vb).entries[k], G)
    ensures visits == WorkOnKey(va, vb, k)
    decreases vb, 0
  {
    hide Size, Work;
    if k in es {
      child, G, visits := DeepMerge(es[k], o.entries[k], va.entries[k], vb.entries[k], F, T);
    } else {
      child, G, visits := DeepClone(o.entries[k], vb.entries[k], T);
    }
  }

  // ------------------------------------------------------------- merge step

  datatype MergeError = NotDefined(name: string) | NotAMap(name: string)

  /** Whether the merge step rejects the named source, and why. */
  ghost function SourceProblem(vals: map<string, HeapTree>, name: string): Option<MergeError> {
    if name !in vals then Some(NotDefined(name))
    else if !vals[name].Map? then Some(NotAMap(name))
    else None
  }

  ghost function Sources(vals: map<string, HeapTree>, from: seq<string>): seq<HeapTree>
    requires forall i :: 0 <= i < |from| ==> from[i] in vals
  {
    seq(|from|, i requires 0 <= i < |from| => vals[from[i]])
  }

  ghost predicate OutputsDenote(outputs: map<string, Any>, vals: map<string, HeapTree>, S: set<object>)
    reads S
  {
    outputs.Keys == vals.Keys && forall name :: name in outputs ==> Denotes(outputs[name], vals[name], S)
  }

  lemma FoldNothing(vals: map<string, HeapTree>, from: seq<string>)
    ensures Fold(Map(map[]), Sources(vals, from[..0])) == Map(map[])
  {
  }

  lemma FoldOneMore(vals: map<string, HeapTree>, from: seq<string>, i: nat)
    requires i < |from| && forall j :: 0 <= j <= i ==> from[j] in vals
    ensures Fold(Map(map[]), Sources(vals, from[..i + 1]))
         == Merge(Fold(Map(map[]), Sources(vals, from[..i])), vals[from[i]])
  {
    var sofar, next := Sources(vals, from[..i]), Sources(vals, from[..i + 1]);
    assert next[..|next| - 1] == sofar && next[|next| - 1] == vals[from[i]];
  }

  /** mergeStep.Eval: the fold of the named outputs as a wholly new tree, or the
      problem of the first source that has one. Every output still denotes what
      it did, so later steps see earlier outputs intact. */
  method EvalMerge(from: seq<string>, outputs: map<string, Any>, ghost vals: map<string, HeapTree>, ghost S: set<object>)
    returns (r: Result<Any, MergeError>, ghost F: set<object>)
    requires OutputsDenote(outputs, vals, S)
    ensures OutputsDenote(outputs, vals, S)
    ensures r.Success? <==> forall i :: 0 <= i < |from| ==> SourceProblem(vals, from[i]) == None
    ensures r.Success? ==> fresh(F) && Denotes(r.value, Fold(Map(map[]), Sources(vals, from)), F)
    ensures r.Failure? ==> exists i :: 0 <= i < |from| && SourceProblem(vals, from[i]) == Some(r.error)
                             && forall j :: 0 <= j < i ==> SourceProblem(vals, from[j]) == None
  {
    hide Fold, Sources, Merge, Work, MapDepth, Size;
    var out := new MapObject();
    var acc := Object(out);
    F := {out};
    FoldNothing(vals, from);
    for i := 0 to |from|
      invariant fresh(F)
      invariant OutputsDenote(outputs, vals, S)
      invariant forall j :: 0 <= j < i ==> SourceProblem(vals, from[j]) == None
      invariant Denotes(acc, Fold(Map(map[]), Sources(vals, from[..i])), F)
    {
      var name := from[i];
      if name !in outputs {
        return Failure(NotDefined(name)), {};
      }
      var val := outputs[name];
      if !val.Object? {
        return Failure(NotAMap(name)), {};
      }
      FoldOneMore(vals, from, i);
      ghost var visits;
      acc, F, visits := DeepMerge(acc, val, Fold(Map(map[]), Sources(vals, from[..i])), vals[name], F, S);
    }
    assert from[..|from|] == from;
    r := Success(acc);
  }
}
