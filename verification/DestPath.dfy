/** Destination paths of rendered templates: lexical cleaning (filepath.Clean),
    the checks of renderDestPath, and what an accepted path denotes. */
module DestPath {
  import opened Wrappers
  import opened Strings

  type Components = seq<string>

  // ------------------------------------------------------------------- clean

  /** One pass over the components with a stack, as filepath.Clean works: ".."
      removes a preceding ordinary component, stays at the front of a relative
      path and disappears at the root. */
  function Reduce(stack: Components, comps: Components, rooted: bool): Components
    decreases |comps|
  {
    if comps == [] then stack
    else
      var c, rest := comps[0], comps[1..];
      if c == "" || c == "." then Reduce(stack, rest, rooted)
      else if c != ".." then Reduce(stack + [c], rest, rooted)
      else if stack != [] && stack[|stack| - 1] != ".." then Reduce(stack[..|stack| - 1], rest, rooted)
      else if rooted then Reduce(stack, rest, rooted)
      else Reduce(stack + [".."], rest, rooted)
  }

  predicate IsAbs(path: string) {
    path != "" && path[0] == '/'
  }

  function CleanComponents(path: string): Components {
    Reduce([], Split(path, '/'), IsAbs(path))
  }

  /** filepath.Clean on a system with '/' as separator. */
  function Clean(path: string): string {
    var cs := CleanComponents(path);
    if IsAbs(path) then "/" + Join(cs, '/')
    else if cs == [] then "."
    else Join(cs, '/')
  }

  // ---------------------------------------------------------------- meaning

  /** A place relative to the staging root: so many levels above it, then down. */
  datatype Location = Location(ups: nat, down: Components)

  function Walk(l: Location, comps: Components): Location
    decreases |comps|
  {
    if comps == [] then l
    else
      var c, rest := comps[0], comps[1..];
      if c == "" || c == "." then Walk(l, rest)
      else if c != ".." then Walk(l.(down := l.down + [c]), rest)
      else if l.down != [] then Walk(l.(down := l.down[..|l.down| - 1]), rest)
      else Walk(l.(ups := l.ups + 1), rest)
  }

  /** Where following a relative path from the staging root leads. */
  function Target(path: string): Location {
    Walk(Location(0, []), Split(path, '/'))
  }

  function Climb(n: nat): Components {
    seq(n, _ => "..")
  }

  function Spelled(l: Location): Components {
    Climb(l.ups) + l.down
  }

  ghost predicate Ordinary(c: string) {
    c != "" && c != "." && c != ".." && '/' !in c
  }

  ghost predicate AllOrdinary(cs: Components) {
    forall i :: 0 <= i < |cs| ==> Ordinary(cs[i])
  }

  /** Cleaning a relative path spells out where the path leads. */
  lemma {:induction false} ReduceSpellsWalk(l: Location, comps: Components)
    requires AllOrdinary(l.down) && Free(comps, '/')
    ensures AllOrdinary(Walk(l, comps).down)
    ensures Reduce(Spelled(l), comps, false) == Spelled(Walk(l, comps))
    decreases |comps|
  {
    if comps != [] {
      var c, rest := comps[0], comps[1..];
      if c == "" || c == "." {
        ReduceSpellsWalk(l, rest);
      } else if c != ".." {
        assert Spelled(l) + [c] == Spelled(l.(down := l.down + [c]));
        ReduceSpellsWalk(l.(down := l.down + [c]), rest);
      } else if l.down != [] {
        var up := l.(down := l.down[..|l.down| - 1]);
        assert Spelled(l)[..|Spelled(l)| - 1] == Spelled(up);
        ReduceSpellsWalk(up, rest);
      } else {
        var up := l.(ups := l.ups + 1);
        assert Spelled(l) + [".."] == Spelled(up);
        ReduceSpellsWalk(up, rest);
      }
    }
  }

  lemma CleanSpellsTarget(path: string)
    requires !IsAbs(path)
    ensures CleanComponents(path) == Spelled(Target(path)) && AllOrdinary(Target(path).down)
  {
    SplitIsFree(path, '/');
    assert Spelled(Location(0, [])) == [];
    ReduceSpellsWalk(Location(0, []), Split(path, '/'));
  }

  lemma SpelledInjective(l: Location, m: Location)
    requires AllOrdinary(l.down) && AllOrdinary(m.down) && Spelled(l) == Spelled(m)
    ensures l == m
  {
    assert l.down != [] ==> Spelled(l)[l.ups] == l.down[0];
    assert m.down != [] ==> Spelled(m)[m.ups] == m.down[0];
    assert l.ups == m.ups;
    assert l.down == Spelled(l)[l.ups..] && m.down == Spelled(m)[m.ups..];
  }

  lemma SplitSpelled(l: Location)
    requires AllOrdinary(l.down) && Spelled(l) != []
    ensures Split(Join(Spelled(l), '/'), '/') == Spelled(l)
  {
    var cs := Spelled(l);
    forall i | 0 <= i < |cs|
      ensures '/' !in cs[i]
    {
      if i >= l.ups {
        assert cs[i] == l.down[i - l.ups];
      }
    }
    SplitJoin(cs, '/');
  }

  /** Two relative paths lead to the same place exactly when they clean to the
      same string, so comparing cleaned strings detects every collision and
      nothing else. */
  lemma CleanIsCanonical(p: string, q: string)
    requires !IsAbs(p) && !IsAbs(q)
    ensures Clean(p) == Clean(q) <==> Target(p) == Target(q)
  {
    CleanSpellsTarget(p);
    CleanSpellsTarget(q);
    var cp, cq := CleanComponents(p), CleanComponents(q);
    if Clean(p) == Clean(q) {
      if cp != [] {
        DotIsNotSpelled(p);
      }
      if cq != [] {
        DotIsNotSpelled(q);
      }
      if cp != [] && cq != [] {
        SplitSpelled(Target(p));
        SplitSpelled(Target(q));
      }
      SpelledInjective(Target(p), Target(q));
    }
  }

  lemma DotIsNotSpelled(path: string)
    requires !IsAbs(path) && CleanComponents(path) != []
    ensures Clean(path) != "."
  {
    CleanSpellsTarget(path);
    SplitSpelled(Target(path));
    SplitFree(".", '/');
    assert CleanComponents(path)[0] != ".";
  }

  // ---------------------------------------------------------- renderDestPath

  const ARTIFACT_PREFIX := "@artifact/"

  datatype DestError = NoArtifactPrefix | EmptyTemplate | RenderFailed | RenderedEmpty | InvalidPath

  /** Strings.HasPrefix(cleaned, ".."), "." and absolute paths are refused. */
  predicate Refused(cleaned: string) {
    cleaned == "." || ".." <= cleaned || IsAbs(cleaned)
  }

  /** renderDestPath, with render standing for the engine on the scope at hand. */
  function RenderDestPath(toRef: string, render: string -> Option<string>): Result<string, DestError> {
    if !(ARTIFACT_PREFIX <= toRef) then Failure(NoArtifactPrefix)
    else if toRef[|ARTIFACT_PREFIX|..] == "" then Failure(EmptyTemplate)
    else
      match render(toRef[|ARTIFACT_PREFIX|..])
      case None => Failure(RenderFailed)
      case Some(out) =>
        if TrimSpace(out) == "" then Failure(RenderedEmpty)
        else if Refused(Clean(TrimSpace(out))) then Failure(InvalidPath)
        else Success(Clean(TrimSpace(out)))
  }

  /** The staged location a destination string names. */
  function ComponentsOf(dest: string): Components {
    Split(dest, '/')
  }

  /** A rendered path is accepted exactly when it is relative, leads to a place
      strictly below the staging root, and does not begin with a component that
      starts with two dots. */
  lemma AcceptedExactly(path: string)
    ensures !Refused(Clean(path)) <==>
              && !IsAbs(path) && Target(path).ups == 0 && Target(path).down != []
              && !(".." <= Target(path).down[0])
    ensures !Refused(Clean(path)) ==>
              ComponentsOf(Clean(path)) == Target(path).down && AllOrdinary(Target(path).down)
  {
    if IsAbs(path) {
      assert IsAbs(Clean(path));
    } else {
      CleanSpellsTarget(path);
      var l := Target(path);
      if Spelled(l) != [] {
        DotIsNotSpelled(path);
        SplitSpelled(l);
        JoinStartsWithFirst(Spelled(l));
        assert Spelled(l)[0] == if l.ups > 0 then ".." else l.down[0];
        assert l.ups == 0 ==> Spelled(l) == l.down;
      }
    }
  }

  /** A path that leads below the staging root and is refused all the same. */
  lemma HarmlessButRefused()
    ensures !IsAbs("..a/b") && Target("..a/b") == Location(0, ["..a", "b"]) && Refused(Clean("..a/b"))
  {
    hide Clean, Reduce, Split;
    var cs := ["..a", "b"];
    assert cs[1..] == ["b"] && cs[1..][1..] == [];
    assert Join(cs, '/') == "..a/b";
    SplitJoin(cs, '/');
    assert Walk(Location(0, []), cs) == Walk(Location(0, ["..a"]), ["b"]) == Location(0, cs);
    AcceptedExactly("..a/b");
    assert ".." <= "..a";
  }

  lemma JoinStartsWithFirst(cs: Components)
    requires cs != [] && cs[0] != ""
    ensures Join(cs, '/')[0] == cs[0][0]
    ensures ".." <= Join(cs, '/') <==> ".." <= cs[0]
  {
    if |cs| > 1 {
      var whole := Join(cs, '/');
      assert whole == cs[0] + ("/" + Join(cs[1..], '/'));
      assert |cs[0]| == 1 ==> whole[1] == '/';
      assert |cs[0]| > 1 ==> whole[1] == cs[0][1];
      assert ".." <= whole <==> whole[0] == '.' && whole[1] == '.';
    }
  }

  /** Every destination renderDestPath returns names a non-empty list of ordinary
      components, and different destinations name different locations. */
  lemma DestinationsAreCanonical(toRef: string, render: string -> Option<string>)
    requires RenderDestPath(toRef, render).Success?
    ensures var dest := RenderDestPath(toRef, render).value;
            && ComponentsOf(dest) != [] && AllOrdinary(ComponentsOf(dest))
            && Join(ComponentsOf(dest), '/') == dest
  {
    var out := render(toRef[|ARTIFACT_PREFIX|..]).value;
    AcceptedExactly(TrimSpace(out));
    JoinSplit(Clean(TrimSpace(out)), '/');
  }
}
