/** How many nodes deepClone and deepMerge visit. deepMerge first clones a's
    entries and then merges into the clones, so entries on both sides are visited
    again at every level. */
module MergeWork {
  import opened ValueTree

  /** The nodes of a tree: what deepClone visits. */
  ghost function Size<L>(v: Tree<L>): nat
    decreases v, 1
  {
    match v
    case Leaf(_) => 1
    case Map(m) => 1 + SizeOfEntries(v, m.Keys)
    case List(xs) => 1 + SizeOfItems(v, |xs|)
  }

  ghost function SizeOfEntries<L>(v: Tree<L>, ks: set<string>): nat
    requires v.Map? && ks <= v.entries.Keys
    decreases v, 0, ks
  {
    if ks == {} then 0
    else
      var k :| k in ks;
      Size(v.entries[k]) + SizeOfEntries(v, ks - {k})
  }

  ghost function SizeOfItems<L>(v: Tree<L>, n: nat): nat
    requires v.List? && n <= |v.items|
    decreases v, 0, n
  {
    if n == 0 then 0 else SizeOfItems(v, n - 1) + Size(v.items[n - 1])
  }

  /** How many maps are nested in one another. */
  ghost function MapDepth<L>(v: Tree<L>): nat
    decreases v, 1
  {
    if v.Map? then 1 + DeepestOf(v, v.entries.Keys) else 0
  }

  ghost function DeepestOf<L>(v: Tree<L>, ks: set<string>): nat
    requires v.Map? && ks <= v.entries.Keys
    decreases v, 0, ks
  {
    if ks == {} then 0
    else
      var k :| k in ks;
      var d, rest := MapDepth(v.entries[k]), DeepestOf(v, ks - {k});
      if d < rest then rest else d
  }

  /** What deepMerge visits: b on two values that are not both maps, and
      otherwise a's entries once and then every key of b. */
  ghost function Work<L>(a: Tree<L>, b: Tree<L>): nat
    decreases b, 2
  {
    if a.Map? && b.Map? then 1 + SizeOfEntries(a, a.entries.Keys) + WorkOnKeys(a, b, b.entries.Keys)
    else Size(b)
  }

  ghost function WorkOnKey<L>(a: Tree<L>, b: Tree<L>, k: string): nat
    requires a.Map? && b.Map? && k in b.entries
    decreases b, 0
  {
    if k in a.entries then Work(a.entries[k], b.entries[k]) else Size(b.entries[k])
  }

  ghost function WorkOnKeys<L>(a: Tree<L>, b: Tree<L>, ks: set<string>): nat
    requires a.Map? && b.Map? && ks <= b.entries.Keys
    decreases b, 1, ks
  {
    if ks == {} then 0
    else
      var k :| k in ks;
      WorkOnKey(a, b, k) + WorkOnKeys(a, b, ks - {k})
  }

  // ------------------------------------------------ sums do not mind the order

  lemma {:induction false} AddEntry<L>(v: Tree<L>, ks: set<string>, k: string)
    requires v.Map? && ks <= v.entries.Keys && k in v.entries && k !in ks
    ensures SizeOfEntries(v, ks + {k}) == SizeOfEntries(v, ks) + Size(v.entries[k])
    decreases ks
  {
    hide Size;
    var all := ks + {k};
    var j :| j in all && SizeOfEntries(v, all) == Size(v.entries[j]) + SizeOfEntries(v, all - {j});
    if j == k {
      assert all - {k} == ks;
    } else {
      assert all - {j} == (ks - {j}) + {k} && ks == (ks - {j}) + {j};
      AddEntry(v, ks - {j}, k);
      AddEntry(v, ks - {j}, j);
    }
  }

  lemma {:induction false} AddKey<L>(a: Tree<L>, b: Tree<L>, ks: set<string>, k: string)
    requires a.Map? && b.Map? && ks <= b.entries.Keys && k in b.entries && k !in ks
    ensures WorkOnKeys(a, b, ks + {k}) == WorkOnKeys(a, b, ks) + WorkOnKey(a, b, k)
    decreases ks
  {
    hide WorkOnKey;
    var all := ks + {k};
    var j :| j in all && WorkOnKeys(a, b, all) == WorkOnKey(a, b, j) + WorkOnKeys(a, b, all - {j});
    if j == k {
      assert all - {k} == ks;
    } else {
      assert all - {j} == (ks - {j}) + {k} && ks == (ks - {j}) + {j};
      AddKey(a, b, ks - {j}, k);
      AddKey(a, b, ks - {j}, j);
    }
  }

  lemma {:induction false} MoreEntries<L>(v: Tree<L>, ks: set<string>, js: set<string>)
    requires v.Map? && ks <= js <= v.entries.Keys
    ensures SizeOfEntries(v, ks) <= SizeOfEntries(v, js)
    decreases js - ks
  {
    hide Size;
    if ks != js {
      var k :| k in js && k !in ks;
      AddEntry(v, ks, k);
      MoreEntries(v, ks + {k}, js);
    }
  }

  lemma {:induction false} DeeperThanEntry<L>(v: Tree<L>, ks: set<string>, k: string)
    requires v.Map? && k in ks && ks <= v.entries.Keys
    ensures MapDepth(v.entries[k]) <= DeepestOf(v, ks)
    decreases ks
  {
    hide MapDepth;
    var j :| j in ks
             && DeepestOf(v, ks) >= MapDepth(v.entries[j]) && DeepestOf(v, ks) >= DeepestOf(v, ks - {j});
    if j != k {
      DeeperThanEntry(v, ks - {j}, k);
    }
  }

  // -------------------------------------------------------------------- bound

  lemma MultiplyMonotone(x: nat, y: nat, s: nat)
    requires x <= y
    ensures x * s <= y * s
  {
  }

  lemma Distribute(d: nat, s: nat, t: nat)
    ensures d * (s + t) == d * s + d * t
  {
  }

  /** The bound on the keys visited so far, d being the depth below a. */
  lemma {:induction false} KeysBound<L>(a: Tree<L>, b: Tree<L>, ks: set<string>, d: nat)
    requires a.Map? && b.Map? && ks <= b.entries.Keys && MapDepth(a) == 1 + d
    ensures WorkOnKeys(a, b, ks) <= d * SizeOfEntries(a, ks * a.entries.Keys) + SizeOfEntries(b, ks)
    decreases b, 1, ks
  {
    hide Size, Work, MapDepth;
    if ks == {} {
      assert ks * a.entries.Keys == {};
    } else {
      var k :| k in ks;
      var rest := ks - {k};
      assert ks == rest + {k};
      KeysBound(a, b, rest, d);
      AddKey(a, b, rest, k);
      AddEntry(b, rest, k);
      KeyBound(a, b, k, d);
      var both := rest * a.entries.Keys;
      if k in a.entries {
        assert ks * a.entries.Keys == both + {k};
        AddEntry(a, both, k);
        Distribute(d, SizeOfEntries(a, both), Size(a.entries[k]));
      } else {
        assert ks * a.entries.Keys == both;
      }
    }
  }

  lemma {:induction false} KeyBound<L>(a: Tree<L>, b: Tree<L>, k: string, d: nat)
    requires a.Map? && b.Map? && k in b.entries && MapDepth(a) == 1 + d
    ensures WorkOnKey(a, b, k) <= (if k in a.entries then d * Size(a.entries[k]) else 0) + Size(b.entries[k])
    decreases b, 0
  {
    hide Size, Work;
    if k in a.entries {
      WorkBound(a.entries[k], b.entries[k]);
      DeeperThanEntry(a, a.entries.Keys, k);
      MultiplyMonotone(MapDepth(a.entries[k]), d, Size(a.entries[k]));
    }
  }

  /** deepMerge(a, b) visits at most depth(a) * size(a) + size(b) nodes. */
  lemma {:induction false} WorkBound<L>(a: Tree<L>, b: Tree<L>)
    ensures Work(a, b) <= MapDepth(a) * Size(a) + Size(b)
    decreases b, 2
  {
    if a.Map? && b.Map? {
      var d, s := MapDepth(a) - 1, SizeOfEntries(a, a.entries.Keys);
      var both := b.entries.Keys * a.entries.Keys;
      KeysBound(a, b, b.entries.Keys, d);
      MoreEntries(a, both, a.entries.Keys);
      MultiplyMonotone2(d, SizeOfEntries(a, both), s);
      assert (d + 1) * (1 + s) >= d * s + s;
    }
  }

  lemma MultiplyMonotone2(d: nat, s: nat, t: nat)
    requires s <= t
    ensures d * s <= d * t
  {
  }
}
