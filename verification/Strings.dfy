/** The string operations of Go's standard library that the modelled code relies
    on: strings.Split and Join on a separator character, strings.TrimSpace, and
    sort.Strings with the order it sorts by. */
module Strings {

  // ---------------------------------------------------------- split and join

  function Split(s: string, sep: char): (parts: seq<string>)
    ensures parts != []
  {
    if s == "" then [""]
    else
      var rest := Split(s[1..], sep);
      if s[0] == sep then [""] + rest else [[s[0]] + rest[0]] + rest[1..]
  }

  function Join(parts: seq<string>, sep: char): string {
    if |parts| == 0 then ""
    else if |parts| == 1 then parts[0]
    else parts[0] + [sep] + Join(parts[1..], sep)
  }

  ghost predicate Free(parts: seq<string>, sep: char) {
    forall i :: 0 <= i < |parts| ==> sep !in parts[i]
  }

  lemma {:induction false} SplitIsFree(s: string, sep: char)
    ensures Free(Split(s, sep), sep)
  {
    if s != "" {
      SplitIsFree(s[1..], sep);
    }
  }

  /** Joining undoes splitting, so Split is injective. */
  lemma {:induction false} JoinSplit(s: string, sep: char)
    ensures Join(Split(s, sep), sep) == s
  {
    if s != "" {
      JoinSplit(s[1..], sep);
      var rest := Split(s[1..], sep);
      if s[0] == sep {
        assert ([""] + rest)[1..] == rest;
      } else {
        assert ([[s[0]] + rest[0]] + rest[1..])[1..] == rest[1..];
      }
    }
  }

  /** Splitting undoes joining when no part contains the separator. */
  lemma {:induction false} SplitJoin(parts: seq<string>, sep: char)
    requires parts != [] && Free(parts, sep)
    ensures Split(Join(parts, sep), sep) == parts
  {
    if |parts| == 1 {
      SplitFree(parts[0], sep);
    } else {
      SplitJoin(parts[1..], sep);
      SplitAppend(parts[0], Join(parts[1..], sep), sep);
      assert parts[0] + [sep] + Join(parts[1..], sep) == parts[0] + ([sep] + Join(parts[1..], sep));
    }
  }

  lemma {:induction false} SplitFree(s: string, sep: char)
    requires sep !in s
    ensures Split(s, sep) == [s]
  {
    if s != "" {
      SplitFree(s[1..], sep);
      assert s == [s[0]] + s[1..];
    }
  }

  lemma {:induction false} SplitAppend(s: string, t: string, sep: char)
    requires sep !in s
    ensures Split(s + ([sep] + t), sep) == [s] + Split(t, sep)
  {
    if s == "" {
      assert s + ([sep] + t) == [sep] + t;
    } else {
      SplitAppend(s[1..], t, sep);
      var whole := s + ([sep] + t);
      assert whole[1..] == s[1..] + ([sep] + t) && whole[0] == s[0];
      assert [s[0]] + s[1..] == s;
      assert ([s[1..]] + Split(t, sep))[1..] == Split(t, sep);
    }
  }

  /** Text up to the first separator can be read back. */
  lemma CutOnce(a: string, x: string, b: string, y: string, sep: char)
    requires sep !in a && sep !in b && a + [sep] + x == b + [sep] + y
    ensures a == b && x == y
  {
    var s, t := a + [sep] + x, b + [sep] + y;
    assert forall i :: 0 <= i < |a| ==> s[i] == a[i] && a[i] in a;
    assert forall i :: 0 <= i < |b| ==> t[i] == b[i] && b[i] in b;
    assert s[|a|] == sep && t[|b|] == sep;
    assert |a| == |b|;
    assert a == s[..|a|] && b == t[..|b|] && x == s[|a| + 1..] && y == t[|b| + 1..];
  }

  lemma CutFront(p: string, x: string, y: string)
    requires p + x == p + y
    ensures x == y
  {
    assert (p + x)[|p|..] == x && (p + y)[|p|..] == y;
  }

  // ---------------------------------------------------------------- trimming

  predicate IsSpace(c: char) {
    c == ' ' || c == '\n' || c == '\t' || c == '\r' || c == '\U{b}' || c == '\U{c}'
  }

  function TrimLeft(s: string): string {
    if s != "" && IsSpace(s[0]) then TrimLeft(s[1..]) else s
  }

  function TrimRight(s: string): string {
    if s != "" && IsSpace(s[|s| - 1]) then TrimRight(s[..|s| - 1]) else s
  }

  function TrimSpace(s: string): string {
    TrimRight(TrimLeft(s))
  }

  ghost predicate AllSpace(s: string) {
    forall i :: 0 <= i < |s| ==> IsSpace(s[i])
  }

  lemma {:induction false} TrimLeftMeaning(s: string) returns (pre: string)
    ensures s == pre + TrimLeft(s) && AllSpace(pre)
    ensures TrimLeft(s) != "" ==> !IsSpace(TrimLeft(s)[0])
  {
    if s != "" && IsSpace(s[0]) {
      var rest := TrimLeftMeaning(s[1..]);
      pre := [s[0]] + rest;
      assert s == [s[0]] + s[1..];
    } else {
      pre := "";
    }
  }

  lemma {:induction false} TrimRightMeaning(s: string) returns (post: string)
    ensures s == TrimRight(s) + post && AllSpace(post)
    ensures TrimRight(s) != "" ==> !IsSpace(TrimRight(s)[|TrimRight(s)| - 1])
  {
    if s != "" && IsSpace(s[|s| - 1]) {
      var rest := TrimRightMeaning(s[..|s| - 1]);
      post := rest + [s[|s| - 1]];
      assert s == s[..|s| - 1] + [s[|s| - 1]];
    } else {
      post := "";
    }
  }

  /** TrimSpace takes off exactly the outer white space, and leaves nothing exactly
      when there is nothing else. */
  lemma TrimSpaceMeaning(s: string) returns (pre: string, post: string)
    ensures s == pre + TrimSpace(s) + post && AllSpace(pre) && AllSpace(post)
    ensures TrimSpace(s) == "" <==> AllSpace(s)
    ensures var t := TrimSpace(s); t != "" ==> !IsSpace(t[0]) && !IsSpace(t[|t| - 1])
  {
    pre := TrimLeftMeaning(s);
    var left := TrimLeft(s);
    post := TrimRightMeaning(left);
    assert left == TrimSpace(s) + post;
    if TrimSpace(s) != "" {
      assert left[0] == TrimSpace(s)[0];
      assert s[|pre|] == left[0];
    }
  }

  // ----------------------------------------------------------------- sorting

  /** The lexicographic order sort.Strings uses. */
  predicate Less(a: string, b: string) {
    if b == "" then false
    else if a == "" then true
    else a[0] < b[0] || (a[0] == b[0] && Less(a[1..], b[1..]))
  }

  lemma {:induction false} LessTrichotomy(a: string, b: string)
    ensures a == b || Less(a, b) || Less(b, a)
    ensures Less(a, b) ==> a != b && !Less(b, a)
  {
    if a != "" && b != "" {
      LessTrichotomy(a[1..], b[1..]);
      if a[0] == b[0] && a[1..] == b[1..] {
        assert a == [a[0]] + a[1..] && b == [b[0]] + b[1..];
      }
    }
  }

  lemma {:induction false} LessTransitive(a: string, b: string, c: string)
    requires Less(a, b) && Less(b, c)
    ensures Less(a, c)
  {
    if a != "" {
      if a[0] == b[0] && b[0] == c[0] {
        LessTransitive(a[1..], b[1..], c[1..]);
      }
    }
  }

  /** a and b agree before position i, and there a ends or has the smaller
      character. */
  predicate DiffersAt(a: string, b: string, i: int) {
    && 0 <= i <= |a| && i < |b| && a[..i] == b[..i]
    && (i == |a| || a[i] < b[i])
  }

  /** The order is lexicographic: it is decided by the first difference. */
  lemma {:induction false} LessExactly(a: string, b: string)
    ensures Less(a, b) <==> exists i :: DiffersAt(a, b, i)
  {
    if a == "" && b != "" {
      assert DiffersAt(a, b, 0);
    } else if a != "" && b != "" {
      var x, y := a[1..], b[1..];
      LessExactly(x, y);
      if a[0] < b[0] {
        assert DiffersAt(a, b, 0);
      } else if a[0] == b[0] && Less(x, y) {
        var i :| DiffersAt(x, y, i);
        assert a[..i + 1] == [a[0]] + x[..i] && b[..i + 1] == [b[0]] + y[..i];
        assert DiffersAt(a, b, i + 1);
      }
      if i :| DiffersAt(a, b, i) {
        if i > 0 {
          assert a[0] == a[..i][0] && b[0] == b[..i][0];
          assert x[..i - 1] == a[..i][1..] && y[..i - 1] == b[..i][1..];
          assert DiffersAt(x, y, i - 1);
        }
      }
    }
  }

  ghost predicate Ascending(r: seq<string>) {
    forall i, j :: 0 <= i < j < |r| ==> Less(r[i], r[j])
  }

  /** r lists the set s in ascending order. */
  ghost predicate Lists(r: seq<string>, s: set<string>) {
    Ascending(r) && forall k :: k in r <==> k in s
  }

  function Insert(k: string, r: seq<string>): seq<string> {
    if r == [] || Less(k, r[0]) then [k] + r
    else if k == r[0] then r
    else [r[0]] + Insert(k, r[1..])
  }

  lemma {:induction false} InsertLists(k: string, r: seq<string>)
    requires Ascending(r)
    ensures Ascending(Insert(k, r))
    ensures forall j :: j in Insert(k, r) <==> j == k || j in r
  {
    if r == [] {
    } else if Less(k, r[0]) {
      forall i | 0 < i < |r|
        ensures Less(k, r[i])
      {
        LessTransitive(k, r[0], r[i]);
      }
    } else if k != r[0] {
      LessTrichotomy(k, r[0]);
      var rest := Insert(k, r[1..]);
      InsertLists(k, r[1..]);
      assert r == [r[0]] + r[1..];
      forall i | 0 <= i < |rest|
        ensures Less(r[0], rest[i])
      {
        assert rest[i] in rest;
      }
    }
  }

  /** What sort.Strings leaves when it is given the distinct strings ks. */
  function SortDistinct(ks: seq<string>): (r: seq<string>)
  {
    if ks == [] then [] else Insert(ks[|ks| - 1], SortDistinct(ks[..|ks| - 1]))
  }

  lemma {:induction false} SortDistinctLists(ks: seq<string>)
    ensures Lists(SortDistinct(ks), set k | k in ks)
  {
    if ks != [] {
      SortDistinctLists(ks[..|ks| - 1]);
      InsertLists(ks[|ks| - 1], SortDistinct(ks[..|ks| - 1]));
      assert ks == ks[..|ks| - 1] + [ks[|ks| - 1]];
    }
  }

  lemma FirstMember(r: seq<string>)
    ensures r == [] || exists k :: k in r
  {
    if r != [] {
      assert r[0] in r;
    }
  }

  /** A set has only one ascending listing, so sorting erases the order in which
      a map was iterated. */
  lemma {:induction false} ListingUnique(a: seq<string>, b: seq<string>, s: set<string>)
    requires Lists(a, s) && Lists(b, s)
    ensures a == b
    decreases |a|
  {
    FirstMember(a);
    FirstMember(b);
    if a != [] {
      assert a[0] in s && a[0] in b && b[0] in s && b[0] in a;
      var i :| 0 <= i < |b| && b[i] == a[0];
      var j :| 0 <= j < |a| && a[j] == b[0];
      LessTrichotomy(a[0], b[0]);
      forall k
        ensures k in a[1..] <==> k in s - {a[0]}
        ensures k in b[1..] <==> k in s - {a[0]}
      {
        LessTrichotomy(a[0], a[0]);
        assert a == [a[0]] + a[1..] && b == [b[0]] + b[1..];
      }
      ListingUnique(a[1..], b[1..], s - {a[0]});
    }
  }

  ghost function Listing(s: set<string>): (r: seq<string>)
    ensures Lists(r, s)
  {
    if s == {} then []
    else
      var k :| k in s;
      var rest := Listing(s - {k});
      InsertLists(k, rest);
      Insert(k, rest)
  }

  /** sortedKeys: collect the keys in map order, then sort them. */
  method SortedKeys<V>(m: map<string, V>) returns (keys: seq<string>)
    ensures keys == Listing(m.Keys)
  {
    keys := [];
    var rest := m.Keys;
    while rest != {}
      invariant rest <= m.Keys
      invariant forall k :: k in keys <==> k in m.Keys - rest
      decreases rest
    {
      var k :| k in rest;
      keys, rest := keys + [k], rest - {k};
    }
    SortDistinctLists(keys);
    assert (set k | k in keys) == m.Keys;
    keys := SortDistinct(keys);
    ListingUnique(keys, Listing(m.Keys), m.Keys);
  }
}
