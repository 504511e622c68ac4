/** Which pipeline specs compile, and to what: said of the strings and fields of
    the spec. */
module SpecLaws {
  import opened Wrappers
  import opened Strings
  import opened Templates
  import opened SourceRefs
  import opened Pipeline
  import opened PipelineLaws

  /** A load step: "@alias/pattern" with a declared alias and a pattern that stays
      inside the source, one of the four formats with yaml for none, and a key
      expression exactly when the shape is "map". */
  ghost predicate LoadDenotes(ls: LoadSpec, s: Step, aliases: set<string>) {
    && s.Load?
    && ls.from == "@" + s.alias + "/" + s.pattern && s.alias != "" && '/' !in s.alias && s.alias in aliases
    && s.pattern != "" && s.pattern[0] != '/' && ".." !in Split(s.pattern, '/')
    && s.format == (if ls.format == "" then "yaml" else ls.format)
    && (s.format == "yaml" || s.format == "json" || s.format == "text" || s.format == "raw")
    && if ls.shape == "map" then ls.keyExpr.Parsed? && s.loadKey == Some(ls.keyExpr.expr)
       else ls.keyExpr.Blank? && s.loadKey == None
  }

  /** The compiled step is the one the spec asks for by its first verb, takes its
      input from earlier steps and has a parsed expression. */
  ghost predicate StepDenotes(ps: PipelineStep, s: Step, aliases: set<string>, earlier: set<string>) {
    && s.name == ps.name
    && if ps.load.Some? then LoadDenotes(ps.load.value, s, aliases)
       else if ps.filter.Some? then
         var fs := ps.filter.value;
         fs.from in earlier && fs.where.Parsed? && s == Filter(ps.name, fs.from, fs.where.expr)
       else if ps.mapEach.Some? then
         var ms := ps.mapEach.value;
         ms.from in earlier && ms.expr.Parsed? && s == MapEach(ps.name, ms.from, ms.expr.expr)
       else if ps.group.Some? then
         var gs := ps.group.value;
         gs.from in earlier && gs.keyExpr.Parsed? && s == Group(ps.name, gs.from, gs.keyExpr.expr)
       else if ps.merge.Some? then
         var from := ps.merge.value.from;
         && (forall n :: n in from ==> n in earlier)
         && (forall i, j :: 0 <= i < j < |from| ==> from[i] != from[j])
         && s == MergeAll(ps.name, from)
       else false
  }

  lemma LoadTranslates(ps: PipelineStep, s: Step, aliases: set<string>, earlier: set<string>)
    requires ps.load.Some?
    ensures StepDenotes(ps, s, aliases, earlier) <==> Translated(ps) == Some(s) && InScope(s, aliases, earlier)
  {
    hide SplitSourceRef;
    var ls := ps.load.value;
    if s.Load? {
      SplitMeaning(ls.from, s.alias, s.pattern);
    }
    if SplitSourceRef(ls.from).Some? {
      var ref := SplitSourceRef(ls.from).value;
      SplitMeaning(ls.from, ref.alias, ref.rest);
    }
  }

  lemma Translates(ps: PipelineStep, s: Step, aliases: set<string>, earlier: set<string>)
    ensures StepDenotes(ps, s, aliases, earlier) <==> Translated(ps) == Some(s) && InScope(s, aliases, earlier)
  {
    if ps.load.Some? {
      LoadTranslates(ps, s, aliases, earlier);
    }
  }

  ghost function EarlierNames(spec: seq<PipelineStep>, i: nat): set<string>
    requires i <= |spec|
  {
    set j | 0 <= j < i :: spec[j].name
  }

  /** A pipeline compiles exactly when every step has a new name other than "values"
      and asks for something that exists. */
  lemma CompilesExactly(spec: seq<PipelineStep>, aliases: set<string>)
    ensures Compiles(spec, aliases) <==>
              forall i :: 0 <= i < |spec| ==>
                            && spec[i].name != "values"
                            && (forall j :: 0 <= j < i ==> spec[j].name != spec[i].name)
                            && exists s :: StepDenotes(spec[i], s, aliases, EarlierNames(spec, i))
  {
    hide Translated, InScope, StepDenotes;
    forall i | 0 <= i < |spec|
      ensures StepCompiles(spec, i, aliases) <==>
                && spec[i].name != "values"
                && (forall j :: 0 <= j < i ==> spec[j].name != spec[i].name)
                && exists s :: StepDenotes(spec[i], s, aliases, EarlierNames(spec, i))
    {
      NamesBefore(spec, i);
      var earlier := StepNames(spec[..i]);
      if Translated(spec[i]).Some? {
        Translates(spec[i], Translated(spec[i]).value, aliases, earlier);
      }
      if s :| StepDenotes(spec[i], s, aliases, earlier) {
        Translates(spec[i], s, aliases, earlier);
      }
    }
  }

  /** The compiled program has, for every step of the spec, what that step asks for. */
  lemma ProgramDenotes(spec: seq<PipelineStep>, aliases: set<string>, i: nat)
    requires Compiles(spec, aliases) && i < |spec|
    ensures StepDenotes(spec[i], Program(spec, aliases)[i], aliases, EarlierNames(spec, i))
  {
    hide Translated, InScope, StepDenotes;
    assert StepCompiles(spec, i, aliases);
    NamesBefore(spec, i);
    Translates(spec[i], Program(spec, aliases)[i], aliases, StepNames(spec[..i]));
  }

  lemma NamesBefore(spec: seq<PipelineStep>, i: nat)
    requires i <= |spec|
    ensures StepNames(spec[..i]) == EarlierNames(spec, i)
  {
    assert forall j :: 0 <= j < i ==> spec[..i][j] == spec[j];
  }
}
