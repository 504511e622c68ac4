/** A small concrete expression language standing for the per-item template
    fragments of a pipeline (keyExpr, where, expr), evaluated with
    missingkey=error against a map of named values. */
module Templates {
  import opened Wrappers
  import opened ValueTree

  type Data = map<string, Value>

  /** Copying one map into another entry by entry, in map order. */
  method CopyInto(base: Data, extra: Data) returns (out: Data)
    ensures out == base + extra
  {
    out := base;
    var rest := extra.Keys;
    while rest != {}
      invariant rest <= extra.Keys
      invariant out == base + (extra - rest)
      decreases rest
    {
      var k :| k in rest;
      out, rest := out[k := extra[k]], rest - {k};
    }
    assert extra - {} == extra;
  }

  datatype Expr =
    | Literal(text: string)
    | Field(name: string, rest: Path)
    | Equal(left: Expr, right: Expr)
    | If(cond: Expr, thn: Expr, els: Expr)
    | Concat(first: Expr, second: Expr)

  datatype TemplateError = MissingKey | NotComparable

  function Eval(e: Expr, data: Data, show: Value -> string): Result<Value, TemplateError> {
    match e
    case Literal(t) => Success(Leaf(Text(t)))
    case Field(name, rest) =>
      if name !in data then Failure(MissingKey)
      else
        (match Get(data[name], rest)
         case None => Failure(MissingKey)
         case Some(v) => Success(v))
    case Equal(l, r) =>
      var a :- Eval(l, data, show);
      var b :- Eval(r, data, show);
      if a.Leaf? && b.Leaf? then Success(Leaf(Bool(a == b))) else Failure(NotComparable)
    case If(c, t, f) =>
      var b :- Eval(c, data, show);
      if Truth(b) then Eval(t, data, show) else Eval(f, data, show)
    case Concat(l, r) =>
      var a :- Eval(l, data, show);
      var b :- Eval(r, data, show);
      Success(Leaf(Text(show(a) + show(b))))
  }

  predicate Truth(v: Value) {
    match v
    case Leaf(Null) => false
    case Leaf(Bool(b)) => b
    case Leaf(Number(n)) => n != 0.0
    case Leaf(Text(s)) => s != ""
    case Leaf(Raw(bytes)) => bytes != []
    case Map(m) => m != map[]
    case List(xs) => xs != []
  }

  /** itemTemplate.render. */
  function Render(e: Expr, data: Data, show: Value -> string): Result<string, TemplateError> {
    var v :- Eval(e, data, show);
    Success(show(v))
  }

  /** The top-level names an expression can read. */
  function Names(e: Expr): set<string> {
    match e
    case Literal(_) => {}
    case Field(name, _) => {name}
    case Equal(l, r) => Names(l) + Names(r)
    case If(c, t, f) => Names(c) + Names(t) + Names(f)
    case Concat(l, r) => Names(l) + Names(r)
  }

  /** Both maps give every name in ns the same value, or leave it out. */
  ghost predicate AgreeOn(d: Data, d': Data, ns: set<string>) {
    forall n :: n in ns ==> (n in d <==> n in d') && (n in d && n in d' ==> d[n] == d'[n])
  }

  /** An expression depends only on the names it reads. */
  lemma {:induction false} EvalFrame(e: Expr, d: Data, d': Data, show: Value -> string)
    requires AgreeOn(d, d', Names(e))
    ensures Eval(e, d, show) == Eval(e, d', show)
    decreases e
  {
    match e
    case Literal(_) =>
    case Field(_, _) =>
    case Equal(l, r) =>
      EvalFrame(l, d, d', show);
      EvalFrame(r, d, d', show);
    case If(c, t, f) =>
      EvalFrame(c, d, d', show);
      EvalFrame(t, d, d', show);
      EvalFrame(f, d, d', show);
    case Concat(l, r) =>
      EvalFrame(l, d, d', show);
      EvalFrame(r, d, d', show);
  }
}
