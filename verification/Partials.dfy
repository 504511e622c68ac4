/** Helm-style partials: which _helpers.tpl files apply to a template
    (internal/builder/partials.go), and which definition of a name wins once they
    are parsed (internal/render/gotemplate.go). */
module Partials {
  import opened Wrappers
  import opened Strings

  const PARTIAL_FILENAME := "_helpers.tpl"

  // ------------------------------------------------------------ the chain

  function NonEmpty(parts: seq<string>): seq<string> {
    if parts == [] then []
    else
      var front := NonEmpty(parts[..|parts| - 1]);
      if parts[|parts| - 1] == "" then front else front + [parts[|parts| - 1]]
  }

  /** The directory components of a path; doubled and trailing slashes add none. */
  function DirParts(dir: string): seq<string> {
    NonEmpty(Split(dir, '/'))
  }

  /** The alias root, then one component more at a time. */
  ghost function ChainTo(parts: seq<string>): (out: seq<string>)
    ensures |out| == |parts| + 1 && forall i :: 0 <= i < |out| ==> out[i] == Join(parts[..i], '/')
  {
    seq(|parts| + 1, i requires 0 <= i < |parts| + 1 => Join(parts[..i], '/'))
  }

  ghost function Chain(dir: string): seq<string> {
    ChainTo(DirParts(dir))
  }

  /** partialChainDirs. */
  method PartialChainDirs(dir: string) returns (out: seq<string>)
    ensures out == Chain(dir)
  {
    if dir == "" {
      SplitEmpty();
      assert DirParts(dir) == [];
      return [""];
    }
    var parts := Split(dir, '/');
    out := [""];
    var cur := "";
    for i := 0 to |parts|
      invariant out == ChainTo(NonEmpty(parts[..i]))
      invariant cur == Join(NonEmpty(parts[..i]), '/')
      invariant "" !in NonEmpty(parts[..i])
    {
      var p := parts[i];
      assert parts[..i + 1][..i] == parts[..i];
      if p != "" {
        ExtendJoin(NonEmpty(parts[..i]), p);
        cur := if cur == "" then p else cur + "/" + p;
        ChainSnoc(NonEmpty(parts[..i]), p);
        out := out + [cur];
      }
    }
    assert parts[..|parts|] == parts;
  }

  lemma ChainSnoc(parts: seq<string>, p: string)
    ensures ChainTo(parts + [p]) == ChainTo(parts) + [Join(parts + [p], '/')]
  {
    forall i | 0 <= i <= |parts|
      ensures (parts + [p])[..i] == parts[..i]
    {
    }
    assert (parts + [p])[..|parts| + 1] == parts + [p];
  }

  lemma {:induction false} ExtendJoin(parts: seq<string>, p: string)
    requires "" !in parts && p != ""
    ensures Join(parts, '/') == "" <==> parts == []
    ensures Join(parts + [p], '/') == if parts == [] then p else Join(parts, '/') + "/" + p
  {
    if |parts| == 1 {
      assert (parts + [p])[1..] == [p];
    } else if |parts| > 1 {
      ExtendJoin(parts[1..], p);
      assert (parts + [p])[1..] == parts[1..] + [p];
    }
  }

  lemma {:induction false} NonEmptyParts(parts: seq<string>)
    ensures "" !in NonEmpty(parts)
    ensures Free(parts, '/') ==> Free(NonEmpty(parts), '/')
    ensures "" !in parts ==> NonEmpty(parts) == parts
  {
    if parts != [] {
      NonEmptyParts(parts[..|parts| - 1]);
      assert parts == parts[..|parts| - 1] + [parts[|parts| - 1]];
    }
  }

  /** Every ancestor directory exactly once, root first: entry i is the path of
      the first i components, so each is a proper prefix of the next. */
  lemma ChainListsAncestors(dir: string, i: nat, j: nat)
    requires i <= |DirParts(dir)| && j <= |DirParts(dir)|
    ensures |Chain(dir)| == |DirParts(dir)| + 1
    ensures i > 0 ==> Split(Chain(dir)[i], '/') == DirParts(dir)[..i]
    ensures Chain(dir)[i] == "" <==> i == 0
    ensures Chain(dir)[i] == Chain(dir)[j] <==> i == j
  {
    var parts := DirParts(dir);
    SplitIsFree(dir, '/');
    NonEmptyParts(Split(dir, '/'));
    AncestorSplits(parts, i);
    AncestorSplits(parts, j);
    assert |parts[..i]| == i && |parts[..j]| == j;
  }

  lemma AncestorSplits(parts: seq<string>, i: nat)
    requires "" !in parts && Free(parts, '/') && i <= |parts|
    ensures Join(parts[..i], '/') == "" <==> i == 0
    ensures i > 0 ==> Split(Join(parts[..i], '/'), '/') == parts[..i]
  {
    if i > 0 {
      assert Free(parts[..i], '/');
      SplitJoin(parts[..i], '/');
      SplitEmpty();
      assert parts[..i][0] == parts[0] != "";
    }
  }

  /** For a clean path the chain is that of the template's own ancestors. */
  lemma {:induction false} TemplateAncestors(srcPath: string)
    requires "" !in Split(srcPath, '/')
    ensures var cs := Split(srcPath, '/'); DirParts(TemplateDir(srcPath)) == cs[..|cs| - 1]
  {
    var cs := Split(srcPath, '/');
    var up := cs[..|cs| - 1];
    SplitIsFree(srcPath, '/');
    NonEmptyParts(up);
    if up == [] {
      SplitEmpty();
      assert NonEmpty([""]) == NonEmpty([]) by {
        assert [""][..0] == [];
      }
    } else {
      SplitJoin(up, '/');
    }
  }

  lemma SplitEmpty()
    ensures Split("", '/') == [""]
  {
  }

  // ----------------------------------------------------------- discovery

  datatype FileInfo = Missing | StatFailed | Irregular | TooLarge | Unreadable | Readable(content: string)

  /** A template source under the name it is parsed as. */
  datatype Partial = Partial(name: string, src: string)

  function PartialPath(dir: string): string {
    if dir == "" then PARTIAL_FILENAME else dir + "/" + PARTIAL_FILENAME
  }

  predicate Fatal(info: FileInfo) {
    info.StatFailed? || info.TooLarge? || info.Unreadable?
  }

  /** path.Dir of a clean relative path, with "." written as the alias root. */
  function TemplateDir(srcPath: string): string {
    var cs := Split(srcPath, '/');
    if |cs| == 1 then "" else Join(cs[..|cs| - 1], '/')
  }

  /** The readable partials among the given directories, in their order. */
  ghost function Found(dirs: seq<string>, files: string -> FileInfo): seq<Partial> {
    if dirs == [] then []
    else
      var d := dirs[|dirs| - 1];
      var front, info := Found(dirs[..|dirs| - 1], files), files(PartialPath(d));
      if info.Readable? then front + [Partial(PartialPath(d), info.content)] else front
  }

  ghost function Discovered(srcPath: string, files: string -> FileInfo): Option<seq<Partial>> {
    var chain := Chain(TemplateDir(srcPath));
    if exists d :: d in chain && Fatal(files(PartialPath(d))) then None else Some(Found(chain, files))
  }

  method CollectPartials(dirs: seq<string>, files: string -> FileInfo) returns (r: Option<seq<Partial>>)
    ensures r == if exists d :: d in dirs && Fatal(files(PartialPath(d))) then None else Some(Found(dirs, files))
  {
    var partials: seq<Partial> := [];
    for i := 0 to |dirs|
      invariant partials == Found(dirs[..i], files)
      invariant forall d :: d in dirs[..i] ==> !Fatal(files(PartialPath(d)))
    {
      var d := dirs[i];
      var info := files(PartialPath(d));
      assert dirs[..i + 1][..i] == dirs[..i] && dirs[..i + 1] == dirs[..i] + [d];
      if info.Missing? || info.Irregular? {
        continue;
      }
      if !info.Readable? {
        assert d in dirs;
        return None;
      }
      partials := partials + [Partial(PartialPath(d), info.content)];
    }
    assert dirs[..|dirs|] == dirs;
    return Some(partials);
  }

  /** discoverPartials: fails only on a partial that exists but cannot be used
      safely; missing and irregular entries are skipped. */
  method DiscoverPartials(srcPath: string, files: string -> FileInfo) returns (r: Option<seq<Partial>>)
    ensures r == Discovered(srcPath, files)
  {
    var dirs := PartialChainDirs(TemplateDir(srcPath));
    r := CollectPartials(dirs, files);
  }

  // -------------------------------------------------------------- parsing

  /** One named template body; blank when it renders nothing but space. */
  datatype Body = Body(text: string, blank: bool)

  /** What one source defines, its own body included. */
  type Defines = map<string, Body>

  /** Parsing a text under a name: the name is that of the text's own body. */
  type Parser = (string, string) -> Option<Defines>

  /** text/template adds the bodies of a parsed file to the tree: a later body
      replaces an earlier one unless the later one is blank. */
  function Associate(tree: Defines, defs: Defines): Defines {
    map n | n in tree.Keys + defs.Keys :: if n in defs && !(n in tree && defs[n].blank) then defs[n] else tree[n]
  }

  ghost function Associated(files: seq<Defines>): Defines {
    if files == [] then map[] else Associate(Associated(files[..|files| - 1]), files[|files| - 1])
  }

  /** Everything parsed before rendering: the partials in the order given, then
      the main template. */
  ghost function ParseOrder(partials: seq<Partial>, main: Partial, parse: Parser): seq<Defines>
    requires forall p :: p in partials ==> parse(p.name, p.src).Some?
    requires parse(main.name, main.src).Some?
  {
    seq(|partials|, i requires 0 <= i < |partials| =>
          assert partials[i] in partials; parse(partials[i].name, partials[i].src).value)
      + [parse(main.name, main.src).value]
  }

  /** The parse phase of GoEngine.Render. */
  method ParseAll(partials: seq<Partial>, main: Partial, parse: Parser) returns (r: Option<Defines>)
    ensures r.Some? <==> (forall p :: p in partials ==> parse(p.name, p.src).Some?) && parse(main.name, main.src).Some?
    ensures r.Some? ==> r.value == Associated(ParseOrder(partials, main, parse))
  {
    var tree: Defines := map[];
    ghost var parsed: seq<Defines> := [];
    for i := 0 to |partials|
      invariant forall p :: p in partials[..i] ==> parse(p.name, p.src).Some?
      invariant |parsed| == i && forall j :: 0 <= j < i ==> parse(partials[j].name, partials[j].src) == Some(parsed[j])
      invariant tree == Associated(parsed)
    {
      var defs := parse(partials[i].name, partials[i].src);
      assert partials[..i + 1] == partials[..i] + [partials[i]];
      if defs.None? {
        assert partials[i] in partials;
        return None;
      }
      assert (parsed + [defs.value])[..i] == parsed;
      tree, parsed := Associate(tree, defs.value), parsed + [defs.value];
    }
    assert partials[..|partials|] == partials;
    var defs := parse(main.name, main.src);
    if defs.None? {
      return None;
    }
    assert ParseOrder(partials, main, parse) == parsed + [defs.value];
    assert (parsed + [defs.value])[..|partials|] == parsed;
    return Some(Associate(tree, defs.value));
  }

  ghost predicate Solid(defs: Defines, n: string) {
    n in defs && !defs[n].blank
  }

  /** The last file with a non-blank definition of a name wins. */
  lemma {:induction false} LastSolidDefineWins(files: seq<Defines>, n: string, i: nat)
    requires i < |files| && Solid(files[i], n)
    requires forall j :: i < j < |files| ==> !Solid(files[j], n)
    ensures n in Associated(files) && Associated(files)[n] == files[i][n]
    decreases |files|
  {
    var k := |files| - 1;
    if i < k {
      LastSolidDefineWins(files[..k], n, i);
    }
  }

  lemma {:induction false} OnlyDefinedNames(files: seq<Defines>, n: string)
    ensures n in Associated(files) <==> exists i :: 0 <= i < |files| && n in files[i]
  {
    if files != [] {
      var k := |files| - 1;
      OnlyDefinedNames(files[..k], n);
      if i :| 0 <= i < |files| && n in files[i] {
        if i < k {
          assert n in files[..k][i];
        }
      }
      if i :| 0 <= i < k && n in files[..k][i] {
        assert n in files[i];
      }
    }
  }

  ghost predicate SolidIn(files: string -> FileInfo, dir: string, n: string, parse: Parser) {
    var info := files(PartialPath(dir));
    info.Readable? && parse(PartialPath(dir), info.content).Some? && Solid(parse(PartialPath(dir), info.content).value, n)
  }

  /** Nearest partial wins: "include n" resolves to the main template's own
      definition if it has one, and otherwise to the _helpers.tpl in the deepest
      ancestor directory of the template that defines n. */
  lemma {:induction false} NearestPartialWins(chain: seq<string>, files: string -> FileInfo, main: Partial,
                                              parse: Parser, n: string)
    requires forall p :: p in Found(chain, files) ==> parse(p.name, p.src).Some?
    requires parse(main.name, main.src).Some?
    ensures var tree, own := Associated(ParseOrder(Found(chain, files), main, parse)), parse(main.name, main.src).value;
            && (Solid(own, n) ==> n in tree && tree[n] == own[n])
            && (!Solid(own, n) ==>
                  forall i {:trigger chain[i]} :: 0 <= i < |chain| && SolidIn(files, chain[i], n, parse)
                    && (forall j :: i < j < |chain| ==> !SolidIn(files, chain[j], n, parse))
                    ==> n in tree && tree[n] == parse(PartialPath(chain[i]), files(PartialPath(chain[i])).content).value[n])
  {
    hide Found, Associated;
    var partials := Found(chain, files);
    var order := ParseOrder(partials, main, parse);
    var k := |partials|;
    if Solid(parse(main.name, main.src).value, n) {
      LastSolidDefineWins(order, n, k);
    } else {
      forall i | 0 <= i < |chain| && SolidIn(files, chain[i], n, parse)
                   && (forall j :: i < j < |chain| ==> !SolidIn(files, chain[j], n, parse))
        ensures n in Associated(order)
        ensures Associated(order)[n] == parse(PartialPath(chain[i]), files(PartialPath(chain[i])).content).value[n]
      {
        var at := FoundPosition(chain, files, n, parse, i);
        LastSolidDefineWins(order, n, at);
      }
    }
  }

  /** Where the deepest solid partial sits in the list of found partials. */
  lemma {:induction false} FoundPosition(chain: seq<string>, files: string -> FileInfo, n: string,
                                         parse: Parser, i: nat)
    returns (at: nat)
    requires forall p :: p in Found(chain, files) ==> parse(p.name, p.src).Some?
    requires i < |chain| && SolidIn(files, chain[i], n, parse)
    requires forall j :: i < j < |chain| ==> !SolidIn(files, chain[j], n, parse)
    ensures at < |Found(chain, files)|
    ensures Found(chain, files)[at] == Partial(PartialPath(chain[i]), files(PartialPath(chain[i])).content)
    ensures forall b :: at < b < |Found(chain, files)| ==>
              var later := Found(chain, files)[b];
              later in Found(chain, files) && !Solid(parse(later.name, later.src).value, n)
    decreases |chain|
  {
    var k := |chain| - 1;
    var front := Found(chain[..k], files);
    if i == k {
      at := |front|;
    } else {
      assert forall p :: p in front ==> p in Found(chain, files);
      at := FoundPosition(chain[..k], files, n, parse, i);
    }
  }

  /** The directory of the first i components of a template path. */
  function Ancestor(srcPath: string, i: nat): string
    requires i < |Split(srcPath, '/')|
  {
    Join(Split(srcPath, '/')[..i], '/')
  }

  /** The same for the template at srcPath: partials are looked for in the
      directories made of the first i components of its path, the template's own
      directory being the deepest. */
  lemma {:induction false} NearestAncestorWins(srcPath: string, files: string -> FileInfo, main: Partial, parse: Parser,
                                               n: string, i: nat)
    requires "" !in Split(srcPath, '/') && Discovered(srcPath, files).Some?
    requires forall p :: p in Discovered(srcPath, files).value ==> parse(p.name, p.src).Some?
    requires parse(main.name, main.src).Some? && !Solid(parse(main.name, main.src).value, n)
    requires i < |Split(srcPath, '/')| && SolidIn(files, Ancestor(srcPath, i), n, parse)
    requires forall j :: i < j < |Split(srcPath, '/')| ==> !SolidIn(files, Ancestor(srcPath, j), n, parse)
    ensures var tree, winner := Associated(ParseOrder(Discovered(srcPath, files).value, main, parse)),
                                PartialPath(Ancestor(srcPath, i));
            n in tree && tree[n] == parse(winner, files(winner).content).value[n]
  {
    hide Found, Associated, SolidIn, ParseOrder;
    var chain, cs := Chain(TemplateDir(srcPath)), Split(srcPath, '/');
    TemplateAncestors(srcPath);
    assert |chain| == |cs|;
    forall j | 0 <= j < |cs|
      ensures chain[j] == Ancestor(srcPath, j)
    {
      assert cs[..|cs| - 1][..j] == cs[..j];
    }
    NearestPartialWins(chain, files, main, parse, n);
    assert SolidIn(files, chain[i], n, parse);
  }
}
