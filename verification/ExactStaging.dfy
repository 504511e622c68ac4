/** Staging a list of outputs, one after another, into a root: when it succeeds,
    and exactly what it leaves. */
module ExactStaging {
  import opened Wrappers
  import opened Strings
  import opened DestPath
  import opened Staging

  /** A file to stage. */
  datatype Output = Output(path: Components, content: string)

  ghost function StageAll(t: FileTree, outs: seq<Output>): FileTree
    requires forall o :: o in outs ==> o.path != []
  {
    if outs == [] then t
    else
      var o := outs[|outs| - 1];
      assert o in outs;
      Staged(StageAll(t, outs[..|outs| - 1]), o.path, o.content)
  }

  /** Every output finds its path unused and can be written in its turn. */
  ghost predicate AllStageable(t: FileTree, outs: seq<Output>)
    requires forall o :: o in outs ==> o.path != []
  {
    outs != [] ==>
      var front, last := outs[..|outs| - 1], outs[|outs| - 1];
      && AllStageable(t, front)
      && (forall o :: o in front ==> o.path != last.path)
      && Stageable(StageAll(t, front), last.path)
  }

  /** No path equals or lies below another. */
  ghost predicate PrefixFree(outs: seq<Output>) {
    forall i, j :: 0 <= i < |outs| && 0 <= j < |outs| && i != j ==> !(outs[i].path <= outs[j].path)
  }

  /** t consists of the outputs and of the directories above them, nothing else. */
  ghost predicate ExactlyHolds(t: FileTree, outs: seq<Output>) {
    && (forall o :: o in outs ==> o.path != [] && o.path in t && t[o.path] == File(o.content))
    && (forall q :: q in t && t[q].File? ==> exists o :: o in outs && o.path == q)
    && (forall q :: q in t && t[q].Dir? <==> q != [] && exists o :: o in outs && q < o.path)
  }

  lemma ProperPrefix(q: Components, p: Components)
    ensures q < p <==> |q| < |p| && q == p[..|q|]
  {
  }

  /** p is comparable with none of the outputs' paths. */
  ghost predicate Apart(outs: seq<Output>, p: Components) {
    forall o :: o in outs ==> !(o.path <= p) && !(p <= o.path)
  }

  lemma StageableIsApart(t: FileTree, outs: seq<Output>, p: Components)
    requires ExactlyHolds(t, outs) && p != []
    requires Stageable(t, p) && forall o :: o in outs ==> o.path != p
    ensures Apart(outs, p)
  {
    forall o | o in outs
      ensures !(o.path <= p) && !(p <= o.path)
    {
      ProperPrefix(o.path, p);
      assert o.path != [] && o.path in t && t[o.path].File?;
    }
  }

  lemma ApartIsStageable(t: FileTree, outs: seq<Output>, p: Components)
    requires ExactlyHolds(t, outs) && p != [] && Apart(outs, p)
    ensures Stageable(t, p) && forall o :: o in outs ==> o.path != p
  {
    forall i | 0 < i < |p| && p[..i] in t
      ensures !t[p[..i]].File?
    {
      assert p[..i] <= p;
    }
  }

  lemma PrefixesMeaning(p: Components, q: Components)
    requires p != []
    ensures q in Prefixes(Parent(p)) <==> q != [] && q < p
  {
    if q != [] && q < p {
      assert Parent(p)[..|q|] == q;
    }
    if q in Prefixes(Parent(p)) {
      var i :| 1 <= i <= |Parent(p)| && q == Parent(p)[..i];
      assert q == p[..i];
    }
  }

  lemma StagedKeys(t: FileTree, p: Components, content: string, q: Components)
    requires p != []
    ensures q in Staged(t, p, content) <==> q in t || (q != [] && q <= p)
    ensures q in Staged(t, p, content) && q != p ==> Staged(t, p, content)[q] == if q in t then t[q] else Dir
    ensures Staged(t, p, content)[p] == File(content)
  {
    PrefixesMeaning(p, q);
    assert q <= p <==> q == p || q < p;
    assert q in WithDirs(t, Parent(p)) <==> q in t || q in Prefixes(Parent(p));
  }

  lemma StageKeepsExactness(t: FileTree, outs: seq<Output>, o: Output)
    requires ExactlyHolds(t, outs) && o.path != []
    requires Apart(outs, o.path)
    ensures ExactlyHolds(Staged(t, o.path, o.content), outs + [o])
  {
    var u, all := Staged(t, o.path, o.content), outs + [o];
    StagedKeys(t, o.path, o.content, o.path);
    forall x | x in all
      ensures x.path != [] && x.path in u && u[x.path] == File(x.content)
    {
      StagedKeys(t, o.path, o.content, x.path);
    }
    forall q
      ensures q in u && u[q].File? ==> exists x :: x in all && x.path == q
      ensures q in u && u[q].Dir? <==> q != [] && exists x :: x in all && q < x.path
    {
      StagedKeys(t, o.path, o.content, q);
      assert o in all;
      assert forall x :: x in outs ==> x in all;
      if q == o.path {
        assert !exists x :: x in all && q < x.path;
      } else if q in t {
        if t[q].File? {
          assert !(q < o.path);
        }
      }
    }
  }

  lemma PrefixFreeSnoc(outs: seq<Output>, o: Output)
    ensures PrefixFree(outs + [o]) <==> PrefixFree(outs) && Apart(outs, o.path)
  {
    var all, n := outs + [o], |outs|;
    assert forall i :: 0 <= i < n ==> all[i] == outs[i];
    if PrefixFree(all) {
      forall x | x in outs
        ensures !(x.path <= o.path) && !(o.path <= x.path)
      {
        var i :| 0 <= i < n && outs[i] == x;
        assert !(all[i].path <= all[n].path) && !(all[n].path <= all[i].path);
      }
    }
    if PrefixFree(outs) && Apart(outs, o.path) {
      forall i, j | 0 <= i < n + 1 && 0 <= j < n + 1 && i != j
        ensures !(all[i].path <= all[j].path)
      {
        if i < n && j < n {
          assert !(outs[i].path <= outs[j].path);
        } else if i < n {
          assert outs[i] in outs;
        } else {
          assert outs[j] in outs;
        }
      }
    }
  }

  /** From an empty root, staging succeeds exactly when no destination equals or
      lies below another, and then leaves exactly the outputs, each with its own
      content, and the directories above them. */
  lemma {:induction false} StagingFromEmpty(outs: seq<Output>)
    requires forall o :: o in outs ==> o.path != []
    ensures AllStageable(map[], outs) <==> PrefixFree(outs)
    ensures PrefixFree(outs) ==> ExactlyHolds(StageAll(map[], outs), outs)
    decreases |outs|
  {
    if outs != [] {
      var front, o := outs[..|outs| - 1], outs[|outs| - 1];
      assert outs == front + [o];
      StagingFromEmpty(front);
      PrefixFreeSnoc(front, o);
      if PrefixFree(front) {
        StageNext(StageAll(map[], front), front, o);
      }
    }
  }

  lemma StageNext(t: FileTree, outs: seq<Output>, o: Output)
    requires ExactlyHolds(t, outs) && o.path != []
    ensures Stageable(t, o.path) && (forall x :: x in outs ==> x.path != o.path) <==> Apart(outs, o.path)
    ensures Apart(outs, o.path) ==> ExactlyHolds(Staged(t, o.path, o.content), outs + [o])
  {
    if Stageable(t, o.path) && (forall x :: x in outs ==> x.path != o.path) {
      StageableIsApart(t, outs, o.path);
    }
    if Apart(outs, o.path) {
      ApartIsStageable(t, outs, o.path);
      StageKeepsExactness(t, outs, o);
    }
  }

  // ------------------------------------------------- a root with leftovers

  /** s is m laid over t. */
  ghost predicate LaidOver(s: FileTree, m: FileTree, t: FileTree) {
    && s.Keys == t.Keys + m.Keys
    && forall q :: q in s ==> s[q] == if q in m then m[q] else t[q]
  }

  /** What a root already holds cannot make an impossible staging possible, and is
      still there afterwards, under what an empty root would have received. */
  lemma {:induction false} StagingOverLeftovers(t: FileTree, outs: seq<Output>)
    requires forall o :: o in outs ==> o.path != []
    requires AllStageable(t, outs)
    ensures AllStageable(map[], outs) && LaidOver(StageAll(t, outs), StageAll(map[], outs), t)
  {
    if outs != [] {
      var front, o := outs[..|outs| - 1], outs[|outs| - 1];
      assert o in outs;
      StagingOverLeftovers(t, front);
      var s, m := StageAll(t, front), StageAll(map[], front);
      StagingLaidOver(s, m, t, o.path, o.content);
    }
  }

  lemma StagingLaidOver(s: FileTree, m: FileTree, t: FileTree, p: Components, content: string)
    requires LaidOver(s, m, t) && p != [] && Stageable(s, p)
    ensures Stageable(m, p) && LaidOver(Staged(s, p, content), Staged(m, p, content), t)
  {
    forall i | 0 < i < |p| && p[..i] in m
      ensures !m[p[..i]].File?
    {
      assert p[..i] in s;
    }
    var s', m' := Staged(s, p, content), Staged(m, p, content);
    forall q
      ensures q in s' <==> q in t || q in m'
      ensures q in s' ==> s'[q] == if q in m' then m'[q] else t[q]
    {
      StagedKeys(s, p, content, q);
      StagedKeys(m, p, content, q);
      if q in s && q in m' && q !in m && q != p {
        assert q == p[..|q|];
      }
    }
  }

  lemma LaidOverCovered(s: FileTree, m: FileTree, t: FileTree)
    requires LaidOver(s, m, t)
    ensures t.Keys <= s.Keys
    ensures t.Keys <= m.Keys ==> s == m
  {
  }

  ghost predicate AtOrAbove(q: Components, outs: seq<Output>) {
    exists o :: o in outs && q <= o.path
  }

  lemma ExactEntries(t: FileTree, outs: seq<Output>, q: Components)
    requires ExactlyHolds(t, outs) && q != []
    ensures q in t <==> AtOrAbove(q, outs)
  {
    if AtOrAbove(q, outs) {
      var o :| o in outs && q <= o.path;
      assert q == o.path || q < o.path;
    }
    if q in t && t[q].File? {
      var o :| o in outs && o.path == q;
      assert q <= o.path;
    }
  }

  /** Staging into a root that already holds t is exact if and only if everything
      in t is at or above one of the outputs. */
  lemma ExactOverLeftovers(t: FileTree, outs: seq<Output>)
    requires WellFormed(t) && forall o :: o in outs ==> o.path != []
    requires AllStageable(t, outs)
    ensures ExactlyHolds(StageAll(t, outs), outs) <==> forall q :: q in t ==> AtOrAbove(q, outs)
  {
    hide ExactlyHolds, AllStageable, AtOrAbove, StageAll, PrefixFree, LaidOver;
    var s, m := StageAll(t, outs), StageAll(map[], outs);
    StagingOverLeftovers(t, outs);
    StagingFromEmpty(outs);
    LaidOverCovered(s, m, t);
    if forall q :: q in t ==> AtOrAbove(q, outs) {
      forall q | q in t
        ensures q in m
      {
        ExactEntries(m, outs, q);
      }
    }
    if ExactlyHolds(s, outs) {
      forall q | q in t
        ensures AtOrAbove(q, outs)
      {
        ExactEntries(s, outs, q);
      }
    }
  }

  ghost function Files(t: FileTree): set<Components> {
    set q | q in t && t[q].File?
  }

  /** As many files as outputs. */
  lemma {:induction false} CountPaths(outs: seq<Output>)
    requires PrefixFree(outs)
    ensures |set o | o in outs :: o.path| == |outs|
    decreases |outs|
  {
    if outs != [] {
      var n := |outs| - 1;
      assert outs == outs[..n] + [outs[n]];
      PrefixFreeSnoc(outs[..n], outs[n]);
      CountPaths(outs[..n]);
      assert (set o | o in outs :: o.path) == (set o | o in outs[..n] :: o.path) + {outs[n].path};
      assert outs[n].path !in set o | o in outs[..n] :: o.path;
    }
  }

  lemma OneFileEach(t: FileTree, outs: seq<Output>)
    requires PrefixFree(outs) && ExactlyHolds(t, outs)
    ensures |Files(t)| == |outs|
  {
    CountPaths(outs);
    assert Files(t) == set o | o in outs :: o.path;
  }

  // ------------------------------------------------------------------- plans

  /** A rendered template: the destination string it was given and the file to
      write there. */
  datatype Planned = Planned(dest: string, out: Output)

  /** Destination strings and staged paths determine each other. */
  ghost predicate Canonical(p: Planned) {
    p.out.path != [] && p.out.path == ComponentsOf(p.dest)
  }

  /** None stands for a template that cannot be rendered. */
  type Plan = ps: seq<Option<Planned>> | forall p :: p in ps && p.Some? ==> Canonical(p.value) witness []

  ghost predicate AllPlanned(ps: Plan) {
    forall p :: p in ps ==> p.Some?
  }

  ghost function Outputs(ps: Plan): (outs: seq<Output>)
    requires AllPlanned(ps)
    ensures |outs| == |ps| && forall o :: o in outs ==> o.path != []
  {
    var outs := seq(|ps|, i requires 0 <= i < |ps| => assert ps[i] in ps; ps[i].value.out);
    assert forall i :: 0 <= i < |ps| ==> ps[i] in ps && outs[i] == ps[i].value.out;
    outs
  }

  /** Everything can be rendered and staged in order, starting from t. */
  ghost predicate Doable(ps: Plan, t: FileTree) {
    AllPlanned(ps) && AllStageable(t, Outputs(ps))
  }

  /** Where a run of applyTemplate calls has got to. */
  ghost predicate Progress(t0: FileTree, t: FileTree, paths: set<string>, done: Plan) {
    && Doable(done, t0)
    && t == StageAll(t0, Outputs(done))
    && forall d :: d in paths <==> exists p :: p in done && p.value.dest == d
  }

  lemma ProgressStarts(t0: FileTree)
    ensures Progress(t0, t0, {}, [])
  {
  }

  lemma OutputsSnoc(done: Plan, p: Planned)
    requires AllPlanned(done) && Canonical(p)
    ensures (forall x :: x in done + [Some(p)] ==> x.Some?)
    ensures AllPlanned(done + [Some(p)]) && Outputs(done + [Some(p)]) == Outputs(done) + [p.out]
    ensures (Outputs(done) + [p.out])[..|done|] == Outputs(done)
  {
  }

  /** One more template goes through exactly when it renders, its destination is
      not in the ledger, and its path can be written. */
  lemma NextPlanned(t0: FileTree, t: FileTree, paths: set<string>, done: Plan, p: Option<Planned>)
    requires Progress(t0, t, paths, done) && (p.Some? ==> Canonical(p.value))
    ensures Doable(done + [p], t0) <==> p.Some? && p.value.dest !in paths && Stageable(t, p.value.out.path)
  {
    if p.Some? {
      OutputsSnoc(done, p.value);
      DestinationsMatchPaths(paths, done, p.value);
    } else {
      assert p in done + [p];
    }
  }

  lemma ProgressStep(t0: FileTree, t: FileTree, paths: set<string>, done: Plan, p: Planned)
    requires Progress(t0, t, paths, done) && Canonical(p) && Doable(done + [Some(p)], t0)
    ensures Progress(t0, Staged(t, p.out.path, p.out.content), paths + {p.dest}, done + [Some(p)])
  {
    OutputsSnoc(done, p);
    forall d
      ensures d in paths + {p.dest} <==> exists x :: x in done + [Some(p)] && x.value.dest == d
    {
      if d in paths {
        var x :| x in done && x.value.dest == d;
        assert x in done + [Some(p)];
      }
      if d == p.dest {
        assert Some(p) in done + [Some(p)];
      }
    }
  }

  lemma DestinationsMatchPaths(paths: set<string>, done: Plan, p: Planned)
    requires AllPlanned(done) && Canonical(p)
    requires forall d :: d in paths <==> exists x :: x in done && x.value.dest == d
    ensures p.dest !in paths <==> forall o :: o in Outputs(done) ==> o.path != p.out.path
  {
    var outs := Outputs(done);
    assert forall i :: 0 <= i < |done| ==> done[i] in done && outs[i] == done[i].value.out;
    if p.dest in paths {
      var x :| x in done && x.value.dest == p.dest;
      var i :| 0 <= i < |done| && done[i] == x;
      assert outs[i] in outs;
    } else {
      forall o | o in outs
        ensures o.path != p.out.path
      {
        var i :| 0 <= i < |outs| && outs[i] == o;
        JoinSplit(done[i].value.dest, '/');
        JoinSplit(p.dest, '/');
      }
    }
  }

  /** A plan whose beginning cannot be done cannot be done. */
  lemma DoablePrefix(ps: Plan, n: nat, t: FileTree)
    requires n <= |ps| && Doable(ps, t)
    ensures (forall p :: p in ps[..n] ==> p in ps) && Doable(ps[..n], t)
    decreases |ps|
  {
    assert forall p :: p in ps[..n] ==> p in ps;
    if n == |ps| {
      assert ps[..n] == ps;
    } else {
      var k := |ps| - 1;
      var front: Plan := ps[..k];
      assert Outputs(ps)[..k] == Outputs(front);
      assert front[..n] == ps[..n];
      DoablePrefix(front, n, t);
    }
  }
}
