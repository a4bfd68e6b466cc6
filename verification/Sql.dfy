/**
 * The other compiler: a query as a WHERE clause over stored rows, evaluated in three-valued logic,
 * and why it selects the rows whose records the live predicate accepts.
 */
module Sql {
  import opened Prelude
  import opened Rql

  datatype FieldKind = FieldString | FieldNumber | FieldBool | FieldJSON | FieldSeverity | FieldTimestamp

  /** A value in a result: Truth(true), Truth(false) and Null are the three truth values. */
  datatype Val = Null | Word(w: string) | Whole(i: int) | Real(f: Float) | Truth(b: bool) | Moment(at: int)

  datatype Expr =
    | Column(name: string)
    | Constant(flag: bool)
    | Param(i: nat)
    | IsNull(e: Expr)
    | IsNotNull(e: Expr)
    | Compare(op: Op, a: Expr, b: Expr)
    | ILike(a: Expr, pattern: Expr)
    | RegexpMatches(a: Expr, pattern: Expr)
    | CastText(e: Expr)
    | TryNumber(e: Expr)
    | TryBool(e: Expr)
    | SeverityCase(e: Expr)
    | RawPath(path: string)
    | Extract(e: Expr, path: string)
    | Coalesce(a: Expr, b: Expr)
    | Negate(e: Expr)
    | All(all: seq<Expr>)
    | Any(any: seq<Expr>)

  /** What a row reads as: a column by name, and a path into raw when raw is a JSON document. */
  datatype Row = Row(column: string -> Val, rawPath: string -> Val)

  // ---- evaluation ----

  /** LIKE with backslash as the escape: % is any text, _ any character. */
  predicate Like(s: string, p: string)
    decreases |p|, |s|
  {
    if p == "" then s == ""
    else if p[0] == '\\' then |p| > 1 && s != "" && s[0] == p[1] && Like(s[1..], p[2..])
    else if p[0] == '%' then Like(s, p[1..]) || (s != "" && Like(s[1..], p))
    else if p[0] == '_' then s != "" && Like(s[1..], p[1..])
    else s != "" && s[0] == p[0] && Like(s[1..], p[1..])
  }

  function Class(f: Float): int {
    match f
    case Infinite(negative) => if negative then 0 else 2
    case Finite(_) => 1
    case NaN => 3
  }

  /** DuckDB's total order on doubles, NaN above everything and equal to itself. */
  function DoubleOrder(a: Float, b: Float): int {
    if Class(a) != Class(b) then Class(a) - Class(b)
    else if !a.Finite? || a.r == b.r then 0
    else if a.r < b.r then -1 else 1
  }

  function Tri(b: bool): Val {
    Truth(b)
  }

  /** Comparison of two values: unknown if either is missing, and of two kinds only as numbers. */
  function Compares(lib: Lib, op: Op, a: Val, b: Val): Val {
    match (a, b)
    case (Word(x), Word(y)) => Tri(CompareStrings(x, y, op))
    case (Whole(x), Whole(y)) => Tri(OrderIs(if x < y then -1 else if x > y then 1 else 0, op))
    case (Whole(x), Real(y)) => Tri(OrderIs(DoubleOrder(lib.widen(x), y), op))
    case (Real(x), Whole(y)) => Tri(OrderIs(DoubleOrder(x, lib.widen(y)), op))
    case (Real(x), Real(y)) => Tri(OrderIs(DoubleOrder(x, y), op))
    case (Truth(x), Truth(y)) => Tri(CompareBools(x, y, op))
    case (Moment(x), Moment(y)) => Tri(CompareInts(x, y, op))
    case _ => Null
  }

  function Shown(lib: Lib, v: Val): Val {
    match v
    case Null => Null
    case Word(w) => Word(w)
    case Whole(i) => Word(lib.showInt(i))
    case Real(f) => Word(lib.showFloat(f))
    case Truth(b) => Word(if b then "true" else "false")
    case Moment(at) => Word(lib.showInstant(at))
  }

  function Conjoin(vals: seq<Val>): Val {
    if exists i :: 0 <= i < |vals| && vals[i] == Truth(false) then Truth(false)
    else if forall i :: 0 <= i < |vals| ==> vals[i] == Truth(true) then Truth(true)
    else Null
  }

  function Disjoin(vals: seq<Val>): Val {
    if exists i :: 0 <= i < |vals| && vals[i] == Truth(true) then Truth(true)
    else if forall i :: 0 <= i < |vals| ==> vals[i] == Truth(false) then Truth(false)
    else Null
  }

  /** CASE WHEN nullif(e, '') IS NULL THEN NULL ELSE CASE upper(e) WHEN ... ELSE the default END END. */
  function SeverityOf(lib: Lib, v: Val): Val {
    match v
    case Word(w) =>
      if w == "" then Null
      else Whole(if lib.upper(w) in SeverityRank then SeverityRank[lib.upper(w)] else DefaultSeverityRank)
    case _ => Null
  }

  function Eval(lib: Lib, e: Expr, row: Row, args: seq<Val>): Val {
    match e
    case Column(name) => row.column(name)
    case Constant(b) => Truth(b)
    case Param(i) => if i < |args| then args[i] else Null
    case IsNull(e) => Truth(Eval(lib, e, row, args).Null?)
    case IsNotNull(e) => Truth(!Eval(lib, e, row, args).Null?)
    case Compare(op, a, b) => Compares(lib, op, Eval(lib, a, row, args), Eval(lib, b, row, args))
    case ILike(a, p) =>
      (match (Eval(lib, a, row, args), Eval(lib, p, row, args))
       case (Word(s), Word(pattern)) => Truth(Like(Lower(lib, s), Lower(lib, pattern)))
       case _ => Null)
    case RegexpMatches(a, p) =>
      (match (Eval(lib, a, row, args), Eval(lib, p, row, args))
       case (Word(s), Word(pattern)) => Truth(lib.matches(pattern, s))
       case _ => Null)
    case CastText(e) => Shown(lib, Eval(lib, e, row, args))
    case TryNumber(e) =>
      (match Eval(lib, e, row, args)
       case Word(w) => if lib.number(w).Some? then Real(lib.number(w).value) else Null
       case Whole(i) => Real(lib.widen(i))
       case Real(f) => Real(f)
       case _ => Null)
    case TryBool(e) =>
      (match Eval(lib, e, row, args)
       case Word(w) => if lib.truth(w).Some? then Truth(lib.truth(w).value) else Null
       case Truth(b) => Truth(b)
       case _ => Null)
    case SeverityCase(e) => SeverityOf(lib, Eval(lib, e, row, args))
    case RawPath(path) => row.rawPath(path)
    case Extract(e, path) =>
      (match Eval(lib, e, row, args)
       case Word(w) => if lib.extract(w, path).Some? then Word(lib.extract(w, path).value) else Null
       case _ => Null)
    case Coalesce(a, b) => if Eval(lib, a, row, args).Null? then Eval(lib, b, row, args) else Eval(lib, a, row, args)
    case Negate(e) =>
      (match Eval(lib, e, row, args)
       case Truth(b) => Truth(!b)
       case _ => Null)
    // Nothing between parentheses is no clause at all.
    case All(es) => if es == [] then Null else Conjoin(seq(|es|, i requires 0 <= i < |es| => Eval(lib, es[i], row, args)))
    case Any(es) => if es == [] then Null else Disjoin(seq(|es|, i requires 0 <= i < |es| => Eval(lib, es[i], row, args)))
  }

  // ---- compiling ----

  datatype Resolution = Unresolved(kind: FieldKind) | Resolved(expr: Expr, kind: FieldKind)

  datatype Compiled = Compiled(expr: Expr, args: seq<Val>)

  /** A substring as a pattern: its own wildcards and backslashes are only characters. */
  function Escape(s: string): string {
    if s == "" then ""
    else (if s[0] in {'\\', '%', '_'} then ['\\', s[0]] else [s[0]]) + Escape(s[1..])
  }

  function Pattern(s: string): string {
    "%" + Escape(s) + "%"
  }

  function Textual(expr: Expr, kind: FieldKind): Expr {
    if kind == FieldString then expr else CastText(expr)
  }

  /** =, <, <=, > and >=, by the kind of what they compare. */
  function Ordered(lib: Lib, op: Op, literal: Literal, expr: Expr, kind: FieldKind, n: nat): Result<Compiled, Error> {
    match kind
    case FieldSeverity =>
      var level := LevelOf(lib, literal);
      if op == Equals then Ok(Compiled(Compare(op, expr, Param(n)), [Word(level)]))
      else Ok(Compiled(Compare(op, SeverityCase(expr), Param(n)), [Whole(Rank(lib, level))]))
    case FieldNumber =>
      if literal.kind != KindNumber then Ok(Compiled(Constant(false), []))
      else Ok(Compiled(Compare(op, expr, Param(n)), [Real(literal.num)]))
    case FieldBool =>
      if literal.kind != KindBool then Ok(Compiled(Constant(false), []))
      else Ok(Compiled(Compare(op, expr, Param(n)), [Truth(literal.flag)]))
    case FieldTimestamp =>
      (match lib.instant(literal.str)
       case None => Err(NotATimestamp)
       case Some(at) => Ok(Compiled(Compare(op, expr, Param(n)), [Moment(at)])))
    case _ =>
      if literal.kind == KindNumber then Ok(Compiled(Compare(op, TryNumber(expr), Param(n)), [Real(literal.num)]))
      else Ok(Compiled(Compare(op, expr, Param(n)), [Word(literal.str)]))
  }

  function CompileComparison(lib: Lib, resolve: string -> Resolution, field: string, op: Op, literal: Literal, n: nat): Result<Compiled, Error> {
    match resolve(field)
    case Unresolved(_) => Ok(Compiled(Constant(false), []))
    case Resolved(expr, kind) =>
      if op == Exists then Ok(Compiled(IsNotNull(expr), []))
      else if literal.kind == KindNull then
        if op == Equals then Ok(Compiled(IsNull(expr), [])) else Err(NullNeedsEquals)
      else if op == Contains then Ok(Compiled(ILike(Textual(expr, kind), Param(n)), [Word(Pattern(literal.str))]))
      else if op == Matches then
        if lib.regexp(literal.str) then Ok(Compiled(RegexpMatches(Textual(expr, kind), Param(n)), [Word(literal.str)])) else Err(BadPattern)
      else Ordered(lib, op, literal, expr, kind, n)
  }

  /** A node, when n arguments are bound already. */
  function Compile(lib: Lib, resolve: string -> Resolution, node: Node, n: nat): Result<Compiled, Error> {
    match node
    case Comparison(field, op, literal) => CompileComparison(lib, resolve, field, op, literal, n)
    case Text(text) =>
      Ok(Compiled(Any([ILike(Column("msg"), Param(n)), ILike(Column("raw"), Param(n + 1))]), [Word(Pattern(text)), Word(Pattern(text))]))
    case And(children) =>
      (match CompileEach(lib, resolve, children, n)
       case Ok((es, args)) => Ok(Compiled(All(es), args))
       case Err(e) => Err(e))
    case Or(children) =>
      (match CompileEach(lib, resolve, children, n)
       case Ok((es, args)) => Ok(Compiled(Any(es), args))
       case Err(e) => Err(e))
    case Not(child) =>
      (match Compile(lib, resolve, child, n)
       case Ok(c) => Ok(Compiled(Negate(Coalesce(c.expr, Constant(false))), c.args))
       case Err(e) => Err(e))
  }

  function CompileEach(lib: Lib, resolve: string -> Resolution, nodes: seq<Node>, n: nat): Result<(seq<Expr>, seq<Val>), Error> {
    if nodes == [] then Ok(([], []))
    else
      match Compile(lib, resolve, nodes[0], n)
      case Err(e) => Err(e)
      case Ok(c) =>
        match CompileEach(lib, resolve, nodes[1..], n + |c.args|)
        case Err(e) => Err(e)
        case Ok((es, args)) => Ok(([c.expr] + es, c.args + args))
  }

  // ---- patterns ----

  const Special := {'\\', '%', '_'}

  /** Case never turns a letter into a wildcard, nor a wildcard into anything. */
  ghost predicate FoldOk(lib: Lib) {
    forall c: char :: if c in Special then lib.fold(c) == c else lib.fold(c) !in Special
  }

  lemma LowerCons(lib: Lib, s: string)
    requires s != ""
    ensures Lower(lib, s) == [lib.fold(s[0])] + Lower(lib, s[1..])
  {
  }

  lemma LowerAppend(lib: Lib, a: string, b: string)
    ensures Lower(lib, a + b) == Lower(lib, a) + Lower(lib, b)
  {
  }

  lemma {:induction false} LowerEscape(lib: Lib, s: string)
    requires FoldOk(lib)
    ensures Lower(lib, Escape(s)) == Escape(Lower(lib, s))
  {
    if s != "" {
      LowerCons(lib, s);
      LowerEscape(lib, s[1..]);
      var head := if s[0] in Special then ['\\', s[0]] else [s[0]];
      LowerAppend(lib, head, Escape(s[1..]));
      assert Lower(lib, s)[1..] == Lower(lib, s[1..]);
      assert Lower(lib, head) == if s[0] in Special then ['\\', s[0]] else [lib.fold(s[0])];
    }
  }

  /** An escaped text followed by % matches exactly what begins with the text. */
  lemma {:induction false} LikeStarts(s: string, v: string)
    ensures Like(s, Escape(v) + "%") <==> v <= s
  {
    if v == "" {
      assert Escape(v) + "%" == "%";
      LikeAnything(s);
    } else {
      var p := Escape(v) + "%";
      var rest := Escape(v[1..]) + "%";
      if v[0] in Special {
        assert p == ['\\', v[0]] + rest;
        assert p[2..] == rest;
      } else {
        assert p == [v[0]] + rest;
        assert p[1..] == rest;
      }
      if s != "" {
        LikeStarts(s[1..], v[1..]);
        assert v <= s <==> s[0] == v[0] && v[1..] <= s[1..];
      }
    }
  }

  lemma {:induction false} LikeAnything(s: string)
    ensures Like(s, "%")
  {
    if s == "" {
      assert Like(s, "%"[1..]);
    } else {
      LikeAnything(s[1..]);
    }
  }

  lemma {:induction false} LikeWithin(s: string, v: string)
    ensures Like(s, Pattern(v)) <==> Within(s, v)
  {
    var p := Pattern(v);
    assert p[0] == '%' && p[1..] == Escape(v) + "%";
    LikeStarts(s, v);
    if s != "" {
      LikeWithin(s[1..], v);
    }
  }

  /** The pattern for a substring finds it, whatever it is made of and whatever its case. */
  lemma ILikeIsWithin(lib: Lib, s: string, v: string)
    requires FoldOk(lib)
    ensures Like(Lower(lib, s), Lower(lib, Pattern(v))) <==> Within(Lower(lib, s), Lower(lib, v))
  {
    LowerAppend(lib, "%" + Escape(v), "%");
    LowerAppend(lib, "%", Escape(v));
    LowerEscape(lib, v);
    assert Lower(lib, "%") == "%";
    assert Lower(lib, Pattern(v)) == Pattern(Lower(lib, v));
    LikeWithin(Lower(lib, s), Lower(lib, v));
  }
}
