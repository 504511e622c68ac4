/** The "@alias/path" references of pipeline loads and artifact templates. Three
    places in the controller parse them independently. */
module SourceRefs {
  import opened Wrappers

  datatype Ref = Ref(alias: string, rest: string)

  /** strings.IndexByte: the first position of c, or -1. */
  function IndexOf(s: string, c: char): (i: int)
    ensures -1 <= i < |s|
    ensures i >= 0 ==> s[i] == c && c !in s[..i]
    ensures i < 0 ==> c !in s
  {
    if s == "" then -1
    else if s[0] == c then 0
    else
      var i := IndexOf(s[1..], c);
      assert s == [s[0]] + s[1..];
      if i < 0 then -1
      else
        assert s[..i + 1] == [s[0]] + s[1..][..i];
        i + 1
  }

  /** splitSourceRef (pipeline) and templateSourceAlias (validation) share this
      test. */
  function SplitSourceRef(ref: string): Option<Ref> {
    if ref == "" || ref[0] != '@' then None
    else
      var body := ref[1..];
      var i := IndexOf(body, '/');
      if i <= 0 || i == |body| - 1 then None
      else Some(Ref(body[..i], body[i + 1..]))
  }

  /** strings.SplitN(s, sep, 2). */
  function SplitN2(s: string, sep: char): seq<string> {
    var i := IndexOf(s, sep);
    if i < 0 then [s] else [s[..i], s[i + 1..]]
  }

  datatype RefError = NotAReference | ArtifactAsSource

  /** parseSourceRef (builder). */
  function ParseSourceRef(ref: string): Result<Ref, RefError> {
    if ref == "" || ref[0] != '@' then Failure(NotAReference)
    else
      var parts := SplitN2(ref[1..], '/');
      if |parts| != 2 || parts[0] == "" || parts[1] == "" then Failure(NotAReference)
      else if parts[0] == "artifact" then Failure(ArtifactAsSource)
      else Success(Ref(parts[0], parts[1]))
  }

  /** The builder accepts what validation accepts, except the alias "artifact",
      which validation lets through. */
  lemma ParsersAgree(ref: string)
    ensures ParseSourceRef(ref).Success? <==> SplitSourceRef(ref).Some? && SplitSourceRef(ref).value.alias != "artifact"
    ensures ParseSourceRef(ref).Success? ==> ParseSourceRef(ref).value == SplitSourceRef(ref).value
    ensures ParseSourceRef(ref) == Failure(ArtifactAsSource) <==>
              SplitSourceRef(ref).Some? && SplitSourceRef(ref).value.alias == "artifact"
  {
  }

  /** What a reference means: exactly the strings "@" + alias + "/" + rest with a
      slash-free, non-empty alias and a non-empty rest. */
  lemma SplitMeaning(ref: string, alias: string, rest: string)
    ensures SplitSourceRef(ref) == Some(Ref(alias, rest)) <==>
              ref == "@" + alias + "/" + rest && '/' !in alias && alias != "" && rest != ""
  {
    hide IndexOf;
    if SplitSourceRef(ref) == Some(Ref(alias, rest)) {
      var body := ref[1..];
      assert ref == "@" + body && body == alias + "/" + rest;
    }
    if ref == "@" + alias + "/" + rest && '/' !in alias && alias != "" && rest != "" {
      var body := ref[1..];
      assert body == alias + "/" + rest;
      assert body[|alias|] == '/' && body[..|alias|] == alias && body[|alias| + 1..] == rest;
    }
  }
}
