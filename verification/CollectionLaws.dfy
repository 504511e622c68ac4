/** What filter, map, group and load do to a collection, stated on positions and
    keys rather than on the loops that compute it. */
module CollectionLaws {
  import opened Wrappers
  import opened ValueTree
  import opened Strings
  import opened Templates
  import opened Pipeline
  import opened PipelineEval

  // ------------------------------------------------------------- subsequences

  ghost predicate AscendingPositions(pos: seq<nat>) {
    forall i, j :: 0 <= i < j < |pos| ==> pos[i] < pos[j]
  }

  /** The positions whose flag is set, in order. */
  ghost function Positions(flags: seq<bool>): seq<nat> {
    if flags == [] then []
    else
      var n := |flags| - 1;
      if flags[n] then Positions(flags[..n]) + [n] else Positions(flags[..n])
  }

  lemma {:induction false} PositionsAscend(flags: seq<bool>)
    ensures AscendingPositions(Positions(flags))
    ensures forall j :: 0 <= j < |Positions(flags)| ==> Positions(flags)[j] < |flags|
  {
    if flags != [] {
      PositionsAscend(flags[..|flags| - 1]);
    }
  }

  lemma {:induction false} PositionsMark(flags: seq<bool>, i: int)
    ensures i in Positions(flags) <==> 0 <= i < |flags| && flags[i]
  {
    if flags != [] {
      PositionsMark(flags[..|flags| - 1], i);
    }
  }

  lemma {:induction false} SelectAtPositions<T>(items: seq<T>, flags: seq<bool>)
    requires |items| == |flags|
    ensures |Select(items, flags)| == |Positions(flags)|
    ensures forall j :: 0 <= j < |Positions(flags)| ==>
                          Positions(flags)[j] < |items| && Select(items, flags)[j] == items[Positions(flags)[j]]
  {
    if items != [] {
      SelectAtPositions(items[..|items| - 1], flags[..|items| - 1]);
    }
  }

  /** out is items at the positions where the flag is set, in order. */
  ghost predicate PicksExactly<T>(out: seq<T>, items: seq<T>, flags: seq<bool>, pos: seq<nat>)
    requires |items| == |flags|
  {
    && AscendingPositions(pos)
    && (forall i :: i in pos <==> 0 <= i < |flags| && flags[i])
    && |out| == |pos|
    && forall j :: 0 <= j < |pos| ==> pos[j] < |items| && out[j] == items[pos[j]]
  }

  lemma SelectPicksExactly<T>(items: seq<T>, flags: seq<bool>) returns (pos: seq<nat>)
    requires |items| == |flags|
    ensures PicksExactly(Select(items, flags), items, flags, pos)
  {
    pos := Positions(flags);
    PositionsAscend(flags);
    SelectAtPositions(items, flags);
    forall i
      ensures i in pos <==> 0 <= i < |flags| && flags[i]
    {
      PositionsMark(flags, i);
    }
  }

  /** A filtered list is the subsequence of the items that satisfy the predicate,
      in the order of the input. */
  lemma FilterListLaw(e: Expr, from: string, scope: Scope, w: World) returns (pos: seq<nat>)
    requires Filtered(e, from, scope, w).Success? && scope.outputs[from].List?
    ensures var xs, r := scope.outputs[from].items, Filtered(e, from, scope, w).value;
            && r.List? && |r.items| == |pos| && AscendingPositions(pos)
            && (forall i :: i in pos <==> 0 <= i < |xs| && Keep(e, ListBindings(xs[i], i), scope, w) == Success(true))
            && forall j :: 0 <= j < |pos| ==> pos[j] < |xs| && r.items[j] == xs[pos[j]]
  {
    var xs := scope.outputs[from].items;
    var rs := KeepList(e, xs, scope, w);
    SequenceMeaning(rs);
    pos := SelectPicksExactly(xs, Sequence(rs).value);
    forall i
      ensures i in pos <==> 0 <= i < |xs| && Keep(e, ListBindings(xs[i], i), scope, w) == Success(true)
    {
      if 0 <= i < |xs| {
        assert rs[i] == Keep(e, ListBindings(xs[i], i), scope, w);
      }
    }
  }

  /** A filtered map keeps exactly the entries that satisfy the predicate. */
  lemma FilterMapLaw(e: Expr, from: string, scope: Scope, w: World, k: string)
    requires Filtered(e, from, scope, w).Success? && scope.outputs[from].Map?
    ensures var m, r := scope.outputs[from].entries, Filtered(e, from, scope, w).value;
            && r.Map?
            && (k in r.entries <==> k in m && Keep(e, MapBindings(m[k], k), scope, w) == Success(true))
            && (k in r.entries && k in m ==> r.entries[k] == m[k])
  {
    var m := scope.outputs[from].entries;
    var rs, keys := KeepMap(e, m, scope, w), Listing(m.Keys);
    SequenceMeaning(rs);
    var flags := Sequence(rs).value;
    var pos := SelectPicksExactly(keys, flags);
    if k in m {
      assert k in keys;
      var i :| 0 <= i < |keys| && keys[i] == k;
      assert rs[i] == Keep(e, MapBindings(m[k], k), scope, w);
      if flags[i] {
        assert i in pos;
      } else if k in Select(keys, flags) {
        var j :| 0 <= j < |pos| && keys[pos[j]] == k;
        assert pos[j] in pos;
        SameKeySamePosition(keys, i, pos[j]);
      }
    }
  }

  lemma SameKeySamePosition(keys: seq<string>, i: nat, j: nat)
    requires Ascending(keys) && i < |keys| && j < |keys| && keys[i] == keys[j]
    ensures i == j
  {
    if i < j {
      LessTrichotomy(keys[i], keys[j]);
    } else if j < i {
      LessTrichotomy(keys[j], keys[i]);
    }
  }

  /** map on a list keeps its length and works position by position. */
  lemma MapListLaw(e: Expr, from: string, scope: Scope, w: World, i: nat)
    requires Mapped(e, from, scope, w).Success? && scope.outputs[from].List?
    ensures var xs, r := scope.outputs[from].items, Mapped(e, from, scope, w).value;
            && r.List? && |r.items| == |xs|
            && (i < |xs| ==> NewItem(e, ListBindings(xs[i], i), scope, w) == Success(r.items[i]))
  {
    var xs := scope.outputs[from].items;
    var rs := NewList(e, xs, scope, w);
    SequenceMeaning(rs);
    if i < |xs| {
      assert rs[i] == Success(Sequence(rs).value[i]);
    }
  }

  /** map on a map keeps its keys and works key by key. */
  lemma MapMapLaw(e: Expr, from: string, scope: Scope, w: World, k: string)
    requires Mapped(e, from, scope, w).Success? && scope.outputs[from].Map?
    ensures var m, r := scope.outputs[from].entries, Mapped(e, from, scope, w).value;
            && r.Map? && (k in r.entries <==> k in m)
            && (k in m && k in r.entries ==> NewItem(e, MapBindings(m[k], k), scope, w) == Success(r.entries[k]))
  {
    var m := scope.outputs[from].entries;
    var rs, keys := NewEntries(e, m, scope, w), Listing(m.Keys);
    SequenceMeaning(rs);
    var vs := Sequence(rs).value;
    ZipMeaning(keys, vs);
    assert k in keys <==> k in m;
    if k in m {
      var i :| 0 <= i < |keys| && keys[i] == k;
      assert rs[i] == Success(vs[i]);
    }
  }

  lemma {:induction false} ZipMeaning(keys: seq<string>, vs: seq<Value>)
    requires Ascending(keys) && |keys| == |vs|
    ensures forall k :: k in Zip(keys, vs) <==> k in keys
    ensures forall i :: 0 <= i < |keys| ==> Zip(keys, vs)[keys[i]] == vs[i]
  {
    if keys != [] {
      var n := |keys| - 1;
      ZipMeaning(keys[..n], vs[..n]);
      assert keys == keys[..n] + [keys[n]];
      forall i | 0 <= i < n
        ensures keys[i] == keys[..n][i] != keys[n] && vs[i] == vs[..n][i]
      {
        LessTrichotomy(keys[i], keys[n]);
      }
    }
  }

  // ------------------------------------------------------------------- group

  /** A fragment yields a key exactly when it renders something that is not all
      white space, and the key is that without the white space around it. */
  lemma KeyMeaning(e: Expr, bindings: Data, scope: Scope, w: World) returns (pre: string, post: string)
    ensures KeyFor(e, bindings, scope, w).Success? <==>
              Rendered(e, bindings, scope, w).Success? && !AllSpace(Rendered(e, bindings, scope, w).value)
    ensures KeyFor(e, bindings, scope, w).Success? ==>
              var key := KeyFor(e, bindings, scope, w).value;
              && Rendered(e, bindings, scope, w).value == pre + key + post && AllSpace(pre) && AllSpace(post)
              && key != "" && !IsSpace(key[0]) && !IsSpace(key[|key| - 1])
  {
    pre, post := "", "";
    if Rendered(e, bindings, scope, w).Success? {
      pre, post := TrimSpaceMeaning(Rendered(e, bindings, scope, w).value);
    }
  }

  /** The key of every item, when grouping succeeds. */
  ghost predicate KeysOf(keys: seq<string>, e: Expr, xs: seq<Value>, scope: Scope, w: World) {
    |keys| == |xs| && forall i :: 0 <= i < |xs| ==> KeyFor(e, ListBindings(xs[i], i), scope, w) == Success(keys[i])
  }

  /** Grouping gives every item a non-empty key and forms the buckets of the keys
      that occur. */
  lemma GroupKeysLaw(e: Expr, from: string, scope: Scope, w: World) returns (keys: seq<string>)
    requires Grouped(e, from, scope, w).Success?
    ensures scope.outputs[from].List?
    ensures KeysOf(keys, e, scope.outputs[from].items, scope, w) && "" !in keys
    ensures Grouped(e, from, scope, w).value == Map(Buckets(scope.outputs[from].items, keys))
  {
    var xs := scope.outputs[from].items;
    var rs := GroupKeys(e, xs, scope, w);
    SequenceMeaning(rs);
    keys := Sequence(rs).value;
    forall i | 0 <= i < |xs|
      ensures KeyFor(e, ListBindings(xs[i], i), scope, w) == Success(keys[i])
    {
      assert rs[i] == Success(keys[i]);
    }
  }

  /** Stable partition: there is a bucket for exactly the keys that occur, none
      is empty, and each holds the items with its key in input order. */
  lemma BucketLaw(xs: seq<Value>, keys: seq<string>, k: string) returns (pos: seq<nat>)
    requires |xs| == |keys|
    ensures k in Buckets(xs, keys) <==> k in keys
    ensures forall i :: i in pos <==> 0 <= i < |xs| && keys[i] == k
    ensures AscendingPositions(pos) && (k in keys ==> pos != [])
    ensures k in keys ==> Buckets(xs, keys)[k] == List(seq(|pos|, j requires 0 <= j < |pos| =>
                            assert pos[j] in pos; xs[pos[j]]))
  {
    pos := SelectPicksExactly(xs, seq(|keys|, i requires 0 <= i < |keys| => keys[i] == k));
    if k in keys {
      var i :| 0 <= i < |keys| && keys[i] == k;
      assert i in pos;
      assert Bucket(xs, keys, k) == seq(|pos|, j requires 0 <= j < |pos| => assert pos[j] in pos; xs[pos[j]]);
    }
  }

  /** The buckets named by ks, one after another. */
  ghost function Concatenated(xs: seq<Value>, keys: seq<string>, ks: seq<string>): seq<Value>
    requires |xs| == |keys|
  {
    if ks == [] then [] else Concatenated(xs, keys, ks[..|ks| - 1]) + Bucket(xs, keys, ks[|ks| - 1])
  }

  ghost function WithKeyIn(xs: seq<Value>, keys: seq<string>, ks: seq<string>): seq<Value>
    requires |xs| == |keys|
  {
    Select(xs, seq(|keys|, i requires 0 <= i < |keys| => keys[i] in ks))
  }

  /** Taken together the buckets hold the input multiset: nothing is lost, added
      or put in two buckets. */
  lemma GroupConserves(xs: seq<Value>, keys: seq<string>)
    requires |xs| == |keys|
    ensures multiset(Concatenated(xs, keys, Listing(Buckets(xs, keys).Keys))) == multiset(xs)
  {
    var ks := Listing(Buckets(xs, keys).Keys);
    ConcatenatedConserves(xs, keys, ks);
    forall i | 0 <= i < |keys|
      ensures keys[i] in ks
    {
      assert keys[i] in keys;
    }
    SelectAll(xs, seq(|keys|, i requires 0 <= i < |keys| => keys[i] in ks));
  }

  lemma {:induction false} ConcatenatedConserves(xs: seq<Value>, keys: seq<string>, ks: seq<string>)
    requires |xs| == |keys| && Ascending(ks)
    ensures multiset(Concatenated(xs, keys, ks)) == multiset(WithKeyIn(xs, keys, ks))
  {
    var flags := seq(|keys|, i requires 0 <= i < |keys| => keys[i] in ks);
    if ks == [] {
      SelectNone(xs, flags);
    } else {
      var n := |ks| - 1;
      assert ks == ks[..n] + [ks[n]];
      ConcatenatedConserves(xs, keys, ks[..n]);
      forall i | 0 <= i < n
        ensures ks[i] != ks[n]
      {
        LessTrichotomy(ks[i], ks[n]);
      }
      SelectSplits(xs, seq(|keys|, i requires 0 <= i < |keys| => keys[i] in ks[..n]),
                   seq(|keys|, i requires 0 <= i < |keys| => keys[i] == ks[n]), flags);
    }
  }

  lemma {:induction false} SelectNone<T>(items: seq<T>, flags: seq<bool>)
    requires |items| == |flags| && forall i :: 0 <= i < |flags| ==> !flags[i]
    ensures Select(items, flags) == []
  {
    if items != [] {
      SelectNone(items[..|items| - 1], flags[..|items| - 1]);
    }
  }

  lemma {:induction false} SelectAll<T>(items: seq<T>, flags: seq<bool>)
    requires |items| == |flags| && forall i :: 0 <= i < |flags| ==> flags[i]
    ensures Select(items, flags) == items
  {
    if items != [] {
      SelectAll(items[..|items| - 1], flags[..|items| - 1]);
    }
  }

  lemma {:induction false} SelectSplits<T>(items: seq<T>, f: seq<bool>, g: seq<bool>, h: seq<bool>)
    requires |items| == |f| == |g| == |h|
    requires forall i :: 0 <= i < |h| ==> (h[i] <==> f[i] || g[i]) && !(f[i] && g[i])
    ensures multiset(Select(items, h)) == multiset(Select(items, f)) + multiset(Select(items, g))
  {
    if items != [] {
      var n := |items| - 1;
      SelectSplits(items[..n], f[..n], g[..n], h[..n]);
    }
  }

  // -------------------------------------------------------------------- load

  ghost predicate KeysSucceed(keys: seq<Result<string, EvalError>>) {
    forall i :: 0 <= i < |keys| ==> keys[i].Success?
  }

  lemma {:induction false} KeyedKeys(keys: seq<Result<string, EvalError>>, vs: seq<Value>)
    requires |keys| == |vs| && Keyed(keys, vs).Success?
    ensures KeysSucceed(keys) && forall k :: k in Keyed(keys, vs).value <==> Success(k) in keys
  {
    if keys != [] {
      var n := |keys| - 1;
      KeyedKeys(keys[..n], vs[..n]);
      assert keys == keys[..n] + [keys[n]];
    }
  }

  lemma DistinctSnoc<T>(xs: seq<T>, x: T)
    ensures Distinct(xs + [x]) <==> Distinct(xs) && x !in xs
  {
    var all := xs + [x];
    assert forall i :: 0 <= i < |xs| ==> all[i] == xs[i];
    if x in xs {
      var i :| 0 <= i < |xs| && xs[i] == x;
      assert all[i] == all[|xs|];
    }
    if Distinct(all) {
      assert forall i, j :: 0 <= i < j < |xs| ==> all[i] != all[j];
    }
  }

  lemma {:induction false} KeyedSucceeds(keys: seq<Result<string, EvalError>>, vs: seq<Value>)
    requires |keys| == |vs|
    ensures Keyed(keys, vs).Success? <==> KeysSucceed(keys) && Distinct(keys)
  {
    hide Distinct;
    if keys == [] {
      NothingIsDistinct<Result<string, EvalError>>();
    } else {
      var n := |keys| - 1;
      assert keys == keys[..n] + [keys[n]];
      KeyedSucceeds(keys[..n], vs[..n]);
      DistinctSnoc(keys[..n], keys[n]);
      if Keyed(keys[..n], vs[..n]).Success? {
        KeyedKeys(keys[..n], vs[..n]);
      }
      assert KeysSucceed(keys) <==> KeysSucceed(keys[..n]) && keys[n].Success?;
    }
  }

  lemma NothingIsDistinct<T>()
    ensures Distinct<T>([])
  {
  }

  lemma {:induction false} KeyedPairs(keys: seq<Result<string, EvalError>>, vs: seq<Value>)
    requires |keys| == |vs| && Keyed(keys, vs).Success?
    ensures var m := Keyed(keys, vs).value;
            && |m| == |keys|
            && forall i :: 0 <= i < |keys| ==> keys[i].Success? && keys[i].value in m && m[keys[i].value] == vs[i]
  {
    if keys != [] {
      var n := |keys| - 1;
      KeyedPairs(keys[..n], vs[..n]);
      assert forall i :: 0 <= i < n ==> keys[..n][i] == keys[i] && vs[..n][i] == vs[i];
    }
  }

  /** load with "as: map" succeeds exactly when every match has a key and no two
      matches share one, and then pairs keys with files one to one. */
  lemma {:induction false} LoadAsMapIsBijection(keys: seq<Result<string, EvalError>>, vs: seq<Value>)
    requires |keys| == |vs|
    ensures Keyed(keys, vs).Success? <==> KeysSucceed(keys) && Distinct(keys)
    ensures Keyed(keys, vs).Success? ==>
              var m := Keyed(keys, vs).value;
              && |m| == |keys|
              && (forall i :: 0 <= i < |keys| ==> keys[i].Success? && keys[i].value in m && m[keys[i].value] == vs[i])
              && (forall k :: k in m ==> Success(k) in keys)
  {
    hide Keyed, KeysSucceed, Distinct;
    KeyedSucceeds(keys, vs);
    if Keyed(keys, vs).Success? {
      KeyedKeys(keys, vs);
      KeyedPairs(keys, vs);
    }
  }
}
