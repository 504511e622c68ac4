/** The staging root of one artifact: an os.Root held as a mutable tree of
    entries, and the two functions of internal/builder that write to it. */
module Staging {
  import opened Wrappers
  import opened DestPath

  datatype Entry = Dir | File(content: string)

  /** Everything below the root, by path. The root itself is the empty path. */
  type FileTree = map<Components, Entry>

  datatype FsError = Exists | NoParent | IsDirectory

  ghost predicate IsDir(t: FileTree, p: Components) {
    p == [] || (p in t && t[p].Dir?)
  }

  function Parent(p: Components): Components
    requires p != []
  {
    p[..|p| - 1]
  }

  /** Every entry lies in a directory. */
  ghost predicate WellFormed(t: FileTree) {
    forall p :: p in t ==> p != [] && IsDir(t, Parent(p))
  }

  /** The non-empty prefixes of p, p included. */
  ghost function Prefixes(p: Components): set<Components> {
    set i | 1 <= i <= |p| :: p[..i]
  }

  /** t with a directory at every prefix of p where there was nothing. */
  ghost function WithDirs(t: FileTree, p: Components): FileTree {
    map q | q in t.Keys + Prefixes(p) :: if q in t then t[q] else Dir
  }

  /** Some proper ancestor of p is a file. */
  ghost predicate FileAbove(t: FileTree, p: Components) {
    exists i :: 0 < i < |p| && p[..i] in t && t[p[..i]].File?
  }

  /** The effect of staging a file. */
  ghost function Staged(t: FileTree, p: Components, content: string): FileTree
    requires p != []
  {
    WithDirs(t, Parent(p))[p := File(content)]
  }

  ghost predicate Stageable(t: FileTree, p: Components) {
    !FileAbove(t, p) && !(p in t && t[p].Dir?)
  }

  class StagingRoot {
    var entries: FileTree

    /** Opening a directory that already holds t. */
    constructor (t: FileTree)
      ensures entries == t
    {
      entries := t;
    }

    /** os.Root.Mkdir. */
    method Mkdir(p: Components) returns (r: Option<FsError>)
      requires p != [] && WellFormed(entries)
      modifies this
      ensures WellFormed(entries)
      ensures r == if p in old(entries) then Some(Exists)
                   else if !IsDir(old(entries), Parent(p)) then Some(NoParent) else None
      ensures entries == if r == None then old(entries)[p := Dir] else old(entries)
    {
      if p in entries {
        return Some(Exists);
      }
      if |p| > 1 && !(p[..|p| - 1] in entries && entries[p[..|p| - 1]].Dir?) {
        return Some(NoParent);
      }
      entries := entries[p := Dir];
      return None;
    }

    /** os.Root.Create and the write that follows it. */
    method Create(p: Components, content: string) returns (r: Option<FsError>)
      requires p != [] && WellFormed(entries)
      modifies this
      ensures WellFormed(entries)
      ensures r == None <==> IsDir(old(entries), Parent(p)) && !(p in old(entries) && old(entries)[p].Dir?)
      ensures entries == if r == None then old(entries)[p := File(content)] else old(entries)
    {
      hide WellFormed;
      if p in entries && entries[p].Dir? {
        return Some(IsDirectory);
      }
      if |p| > 1 && !(p[..|p| - 1] in entries && entries[p[..|p| - 1]].Dir?) {
        return Some(NoParent);
      }
      FileKeepsWellFormed(entries, p, content);
      entries := entries[p := File(content)];
      return None;
    }

    /** mkdirAll: try the directory itself, then its parent and the directory
        again. It fails exactly below a file and then changes nothing; it also
        reports success when the path itself is an existing file. */
    method MkdirAll(p: Components) returns (ok: bool)
      requires WellFormed(entries)
      modifies this
      ensures WellFormed(entries)
      ensures ok <==> !FileAbove(old(entries), p)
      ensures entries == if ok then WithDirs(old(entries), p) else old(entries)
      decreases |p|
    {
      if p == [] {
        assert WithDirs(entries, p) == entries;
        return true;
      }
      ghost var before := entries;
      MkdirCases(before, p);
      var first := Mkdir(p);
      if first == None || first == Some(Exists) {
        return true;
      }
      var parent := p[..|p| - 1];
      var up := MkdirAll(parent);
      if !up {
        return false;
      }
      var second := Mkdir(p);
      return second == None || second == Some(Exists);
    }

    /** writeStagedFile: creates the missing ancestors and the file. It fails,
        changing nothing, exactly when an ancestor is a file or the path is a
        directory. */
    method WriteStagedFile(p: Components, content: string) returns (ok: bool)
      requires p != [] && WellFormed(entries)
      modifies this
      ensures WellFormed(entries)
      ensures ok <==> Stageable(old(entries), p)
      ensures entries == if ok then Staged(old(entries), p, content) else old(entries)
    {
      ghost var before := entries;
      WriteCases(before, p);
      var dir := p[..|p| - 1];
      if dir != [] {
        var made := MkdirAll(dir);
        if !made {
          return false;
        }
      } else {
        assert WithDirs(entries, dir) == entries;
      }
      var r := Create(p, content);
      return r == None;
    }
  }

  // ------------------------------------------------------------ tree lemmas

  lemma {:induction false} AncestorsAreDirs(t: FileTree, p: Components, i: nat)
    requires WellFormed(t) && p in t && i < |p|
    ensures IsDir(t, p[..i])
    decreases |p| - i
  {
    if i + 1 == |p| {
    } else {
      AncestorsAreDirs(t, p, i + 1);
      assert Parent(p[..i + 1]) == p[..i];
    }
  }

  lemma FileHasNoChildren(t: FileTree, p: Components)
    requires WellFormed(t) && p != [] && !(p in t && t[p].Dir?)
    ensures forall q :: q in t && |q| > 1 ==> Parent(q) != p
  {
  }

  lemma FileKeepsWellFormed(t: FileTree, p: Components, content: string)
    requires p != [] && WellFormed(t) && IsDir(t, Parent(p)) && !(p in t && t[p].Dir?)
    ensures WellFormed(t[p := File(content)])
  {
    FileHasNoChildren(t, p);
  }

  lemma ParentPrefixes(p: Components)
    requires p != []
    ensures Prefixes(p) == Prefixes(Parent(p)) + {p}
  {
    assert p[..|p|] == p;
    forall i | 1 <= i < |p|
      ensures p[..i] == Parent(p)[..i]
    {
    }
  }

  lemma PrefixesPresent(t: FileTree, p: Components)
    requires WellFormed(t) && (p == [] || p in t)
    ensures WithDirs(t, p) == t && !FileAbove(t, p)
  {
    forall i | 1 <= i < |p|
      ensures p[..i] in t && t[p[..i]].Dir?
    {
      AncestorsAreDirs(t, p, i);
    }
    assert p[..|p|] == p;
  }

  lemma FileAboveSplits(t: FileTree, p: Components)
    requires p != [] && [] !in t
    ensures FileAbove(t, p) <==> FileAbove(t, Parent(p)) || (Parent(p) in t && t[Parent(p)].File?)
  {
    forall i | 0 < i < |p|
      ensures p[..i] == Parent(p)[..i]
    {
    }
    assert Parent(p) == p[..|p| - 1];
    if i :| 0 < i < |p| - 1 && Parent(p)[..i] in t && t[Parent(p)[..i]].File? {
      assert p[..i] in t && t[p[..i]].File?;
    }
  }

  lemma WithDirsMeaning(t: FileTree, p: Components)
    requires p != []
    ensures p in WithDirs(t, p)
    ensures p in t ==> WithDirs(t, p)[p] == t[p]
    ensures p !in t ==> WithDirs(t, p)[p] == Dir
  {
    assert p[..|p|] == p;
  }

  /** The case analysis behind MkdirAll. */
  lemma MkdirCases(t: FileTree, p: Components)
    requires WellFormed(t) && p != []
    ensures p in t ==> WithDirs(t, p) == t && !FileAbove(t, p)
    ensures p !in t && IsDir(t, Parent(p)) ==> WithDirs(t, p) == t[p := Dir] && !FileAbove(t, p)
    ensures FileAbove(t, p) <==> FileAbove(t, Parent(p)) || (Parent(p) in t && t[Parent(p)].File?)
    ensures p !in t && !FileAbove(t, Parent(p)) ==>
              var u := WithDirs(t, Parent(p));
              && p !in u
              && (IsDir(u, Parent(p)) <==> !FileAbove(t, p))
              && (IsDir(u, Parent(p)) ==> u[p := Dir] == WithDirs(t, p))
              && (!IsDir(u, Parent(p)) ==> u == t)
  {
    FileAboveSplits(t, p);
    ParentPrefixes(p);
    if p in t {
      PrefixesPresent(t, p);
    } else {
      if IsDir(t, Parent(p)) {
        PrefixesPresent(t, Parent(p));
      }
      var u := WithDirs(t, Parent(p));
      assert p !in Prefixes(Parent(p));
      assert u[p := Dir] == WithDirs(t, p);
      if Parent(p) != [] {
        WithDirsMeaning(t, Parent(p));
        if Parent(p) in t {
          PrefixesPresent(t, Parent(p));
        }
      }
    }
  }

  /** The case analysis behind WriteStagedFile. */
  lemma WriteCases(t: FileTree, p: Components)
    requires WellFormed(t) && p != []
    ensures FileAbove(t, p) <==> FileAbove(t, Parent(p)) || (Parent(p) in t && t[Parent(p)].File?)
    ensures var u := WithDirs(t, Parent(p));
            && (!FileAbove(t, Parent(p)) ==> (IsDir(u, Parent(p)) <==> !FileAbove(t, p)))
            && (p in u <==> p in t) && (p in t ==> u[p] == t[p])
            && (p in t || (Parent(p) in t && t[Parent(p)].File?) ==> u == t)
  {
    FileAboveSplits(t, p);
    ParentPrefixes(p);
    assert p !in Prefixes(Parent(p));
    if p in t {
      AncestorsAreDirs(t, p, |p| - 1);
      PrefixesPresent(t, Parent(p));
    }
    if Parent(p) != [] {
      WithDirsMeaning(t, Parent(p));
      if Parent(p) in t {
        PrefixesPresent(t, Parent(p));
      }
    }
  }
}
