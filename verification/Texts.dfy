/** What the rendered text of a fragment means, said of the text itself. */
module Texts {
  import opened Wrappers
  import opened Strings
  import opened PipelineEval

  predicate White(c: char) {
    c == ' ' || c == '\t' || c == '\n' || c == '\r' || c == '\U{b}' || c == '\U{c}'
  }

  ghost predicate AllWhite(s: string) {
    forall i :: 0 <= i < |s| ==> White(s[i])
  }

  /** text is core with white space around it. */
  ghost predicate Framed(text: string, core: string) {
    exists pre, post :: AllWhite(pre) && AllWhite(post) && text == pre + core + post
  }

  ghost predicate SaysYes(text: string) {
    exists core :: core in ["1", "t", "T", "TRUE", "true", "True"] && Framed(text, core)
  }

  ghost predicate SaysNo(text: string) {
    AllWhite(text) || exists core :: core in ["0", "f", "F", "FALSE", "false", "False"] && Framed(text, core)
  }

  /** key is text without the white space around it, and not empty. */
  ghost predicate IsKey(text: string, key: string) {
    && Framed(text, key) && key != ""
    && !White(key[0]) && !White(key[|key| - 1])
  }

  lemma BlankMeansSpace(s: string)
    ensures AllWhite(s) <==> AllSpace(s)
  {
  }

  /** Only one text is left when the white space around it is taken off. */
  lemma FramedUnique(text: string, a: string, b: string)
    requires Framed(text, a) && Framed(text, b)
    requires a != "" && !White(a[0]) && !White(a[|a| - 1])
    requires b != "" && !White(b[0]) && !White(b[|b| - 1])
    ensures a == b
  {
    var pa, qa :| AllWhite(pa) && AllWhite(qa) && text == pa + a + qa;
    var pb, qb :| AllWhite(pb) && AllWhite(qb) && text == pb + b + qb;
    SameCore(pa, a, qa, pb, b, qb);
  }

  lemma SameCore(pa: string, a: string, qa: string, pb: string, b: string, qb: string)
    requires AllWhite(pa) && AllWhite(qa) && AllWhite(pb) && AllWhite(qb) && pa + a + qa == pb + b + qb
    requires a != "" && !White(a[0]) && !White(a[|a| - 1])
    requires b != "" && !White(b[0]) && !White(b[|b| - 1])
    ensures a == b
  {
    hide White, AllWhite;
    var text := pa + a + qa;
    assert text == pa + (a + qa) && text == pb + (b + qb) && text == (pa + a) + qa && text == (pb + b) + qb;
    assert text[|pa|] == a[0] && text[|pb|] == b[0];
    NotInFront(text, pa, pb, b + qb);
    NotInFront(text, pb, pa, a + qa);
    assert (pa + a)[|pa + a| - 1] == a[|a| - 1] && (pb + b)[|pb + b| - 1] == b[|b| - 1];
    NotBehind(text, pa + a, qa, pb + b, qb);
    NotBehind(text, pb + b, qb, pa + a, qa);
    assert a == text[|pa|..|pa| + |a|] && b == text[|pb|..|pb| + |b|];
  }

  lemma NotInFront(text: string, p: string, q: string, rest: string)
    requires text == q + rest && AllWhite(q) && |p| < |text| && !White(text[|p|])
    ensures |q| <= |p|
  {
    assert forall i :: 0 <= i < |q| ==> text[i] == q[i];
  }

  lemma NotBehind(text: string, x: string, p: string, y: string, q: string)
    requires text == x + p && text == y + q && AllWhite(p)
    requires y != "" && !White(y[|y| - 1])
    ensures |y| <= |x|
  {
    assert forall i :: 0 <= i < |p| ==> text[|x| + i] == p[i];
    assert text[|y| - 1] == y[|y| - 1];
  }

  // ------------------------------------------------------- the code's functions

  lemma TrimIsFramed(text: string)
    ensures Framed(text, TrimSpace(text))
    ensures TrimSpace(text) == "" <==> AllWhite(text)
    ensures var t := TrimSpace(text); t != "" ==> !White(t[0]) && !White(t[|t| - 1])
  {
    var pre, post := TrimSpaceMeaning(text);
    BlankMeansSpace(pre);
    BlankMeansSpace(post);
    BlankMeansSpace(text);
    assert text == pre + TrimSpace(text) + post;
  }

  lemma TrimIsCore(text: string, core: string)
    requires core != "" && !White(core[0]) && !White(core[|core| - 1])
    ensures Framed(text, core) <==> TrimSpace(text) == core
  {
    TrimIsFramed(text);
    if Framed(text, core) {
      if AllWhite(text) {
        FramedIsNotBlank(text, core);
      }
      FramedUnique(text, core, TrimSpace(text));
    }
  }

  lemma FramedIsNotBlank(text: string, core: string)
    requires core != "" && !White(core[0]) && Framed(text, core)
    ensures !AllWhite(text)
  {
    var pre, post :| AllWhite(pre) && AllWhite(post) && text == pre + core + post;
    assert text[|pre|] == core[0];
  }

  /** A truth literal around which there may be white space; each starts and ends
      with something visible. */
  lemma TruthLiterals(text: string)
    ensures SaysYes(text) <==> TrimSpace(text) in ["1", "t", "T", "TRUE", "true", "True"]
    ensures SaysNo(text) <==> TrimSpace(text) == "" || TrimSpace(text) in ["0", "f", "F", "FALSE", "false", "False"]
  {
    hide Framed;
    TrimIsFramed(text);
    forall core | core in ["1", "t", "T", "TRUE", "true", "True", "0", "f", "F", "FALSE", "false", "False"]
      ensures Framed(text, core) <==> TrimSpace(text) == core
    {
      TrimIsCore(text, core);
    }
  }

  /** filter decides on the trimmed text: it keeps an item exactly if the text says
      yes, drops it exactly if it is blank or says no, and rejects anything else. */
  lemma TruthyExactly(text: string)
    ensures TruthyString(text) == Success(true) <==> SaysYes(text)
    ensures TruthyString(text) == Success(false) <==> SaysNo(text)
    ensures !SaysYes(text) && !SaysNo(text) ==> TruthyString(text) == Failure(NotBoolean)
    ensures !(SaysYes(text) && SaysNo(text))
  {
    hide SaysYes, SaysNo, TrimSpace;
    TruthLiterals(text);
  }

  lemma TrimmedKey(text: string, key: string)
    ensures IsKey(text, key) <==> key != "" && TrimSpace(text) == key
  {
    TrimIsFramed(text);
    if key != "" && !White(key[0]) && !White(key[|key| - 1]) {
      TrimIsCore(text, key);
    }
  }
}
