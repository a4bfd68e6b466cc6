/** One query, two compilers, one meaning. */
module Agreement {
  import opened Prelude
  import opened Rql
  import opened Sql

  // ---- placeholders ----

  /** The placeholders of an expression, as they appear when it is written out. */
  function Holders(e: Expr): seq<nat> {
    match e
    case Column(_) => []
    case Constant(_) => []
    case Param(i) => [i]
    case IsNull(e) => Holders(e)
    case IsNotNull(e) => Holders(e)
    case Compare(_, a, b) => Holders(a) + Holders(b)
    case ILike(a, p) => Holders(a) + Holders(p)
    case RegexpMatches(a, p) => Holders(a) + Holders(p)
    case CastText(e) => Holders(e)
    case TryNumber(e) => Holders(e)
    case TryBool(e) => Holders(e)
    case SeverityCase(e) => Holders(e) + Holders(e)
    case RawPath(_) => []
    case Extract(e, _) => Holders(e)
    case Coalesce(a, b) => Holders(a) + Holders(b)
    case Negate(e) => Holders(e)
    case All(es) => HoldersOf(es)
    case Any(es) => HoldersOf(es)
  }

  function HoldersOf(es: seq<Expr>): seq<nat> {
    if es == [] then [] else Holders(es[0]) + HoldersOf(es[1..])
  }

  function Range(from: nat, n: nat): seq<nat> {
    seq(n, i requires 0 <= i < n => from + i)
  }

  lemma RangeJoins(from: nat, a: nat, b: nat)
    ensures Range(from, a) + Range(from + a, b) == Range(from, a + b)
  {
  }

  ghost predicate Plain(resolve: string -> Resolution) {
    forall field :: resolve(field).Resolved? ==> Holders(resolve(field).expr) == []
  }

  /**
   * Placeholders are positional: written out left to right they are exactly the arguments, in the
   * order they were bound.
   */
  lemma {:induction false} PlaceholdersInOrder(lib: Lib, resolve: string -> Resolution, node: Node, n: nat)
    requires Plain(resolve)
    ensures var c := Compile(lib, resolve, node, n); c.Ok? ==> Holders(c.value.expr) == Range(n, |c.value.args|)
    decreases node
  {
    match node
    case Comparison(field, op, literal) => ComparisonInOrder(lib, resolve, field, op, literal, n);
    case Text(text) => TextInOrder(lib, resolve, text, n);
    case And(children) => EachInOrder(lib, resolve, node, children, n);
    case Or(children) => EachInOrder(lib, resolve, node, children, n);
    case Not(child) =>
      PlaceholdersInOrder(lib, resolve, child, n);
      if Compile(lib, resolve, child, n).Ok? {
        NegationHolders(lib, resolve, child, n);
      }
  }

  lemma TextInOrder(lib: Lib, resolve: string -> Resolution, text: string, n: nat)
    ensures Compile(lib, resolve, Text(text), n).Ok?
    ensures var c := Compile(lib, resolve, Text(text), n).value; Holders(c.expr) == Range(n, |c.args|)
  {
    var msg, raw := ILike(Column("msg"), Param(n)), ILike(Column("raw"), Param(n + 1));
    HoldersTwo(msg, raw);
    assert Holders(Any([msg, raw])) == [n] + [n + 1];
  }

  lemma NegationHolders(lib: Lib, resolve: string -> Resolution, child: Node, n: nat)
    requires Compile(lib, resolve, child, n).Ok?
    ensures Holders(Compile(lib, resolve, Not(child), n).value.expr) == Holders(Compile(lib, resolve, child, n).value.expr)
  {
    var e := Compile(lib, resolve, child, n).value.expr;
    assert Holders(Coalesce(e, Constant(false))) == Holders(e) + Holders(Constant(false));
  }

  lemma ComparisonInOrder(lib: Lib, resolve: string -> Resolution, field: string, op: Op, literal: Literal, n: nat)
    requires resolve(field).Resolved? ==> Holders(resolve(field).expr) == []
    ensures var c := CompileComparison(lib, resolve, field, op, literal, n); c.Ok? ==> Holders(c.value.expr) == Range(n, |c.value.args|)
  {
    if resolve(field).Resolved? {
      var expr, kind := resolve(field).expr, resolve(field).kind;
      OrderedInOrder(lib, op, literal, expr, kind, n);
    }
  }

  lemma OrderedInOrder(lib: Lib, op: Op, literal: Literal, expr: Expr, kind: FieldKind, n: nat)
    requires Holders(expr) == []
    ensures var c := Ordered(lib, op, literal, expr, kind, n); c.Ok? ==> Holders(c.value.expr) == Range(n, |c.value.args|)
  {
    CompareHolder(op, expr, n);
    CompareHolder(op, SeverityCase(expr), n);
    CompareHolder(op, TryNumber(expr), n);
    match kind
    case FieldSeverity => assert Holders(SeverityCase(expr)) == [];
    case FieldNumber =>
    case FieldBool =>
    case FieldTimestamp =>
    case FieldString => assert Holders(TryNumber(expr)) == [];
    case FieldJSON => assert Holders(TryNumber(expr)) == [];
  }

  lemma CompareHolder(op: Op, e: Expr, n: nat)
    ensures Holders(e) == [] ==> Holders(Compare(op, e, Param(n))) == Range(n, 1)
  {
    assert Range(n, 1) == [n];
  }

  lemma AllSmaller(parent: Node, nodes: seq<Node>)
    requires nodes != [] && forall i :: 0 <= i < |nodes| ==> nodes[i] < parent
    ensures forall i :: 0 <= i < |nodes[1..]| ==> nodes[1..][i] < parent
  {
  }

  lemma HoldersCons(e: Expr, es: seq<Expr>)
    ensures HoldersOf([e] + es) == Holders(e) + HoldersOf(es)
  {
    assert ([e] + es)[1..] == es;
  }

  lemma HoldersJoin(e: Expr, es: seq<Expr>, n: nat, a: nat, b: nat)
    requires Holders(e) == Range(n, a) && HoldersOf(es) == Range(n + a, b)
    ensures HoldersOf([e] + es) == Range(n, a + b)
  {
    HoldersCons(e, es);
    RangeJoins(n, a, b);
  }

  lemma HoldersTwo(a: Expr, b: Expr)
    ensures HoldersOf([a, b]) == Holders(a) + Holders(b)
  {
    assert [a, b][1..] == [b];
    assert [b][1..] == [];
    assert HoldersOf([b]) == Holders(b);
  }

  lemma {:induction false} EachInOrder(lib: Lib, resolve: string -> Resolution, parent: Node, nodes: seq<Node>, n: nat)
    requires Plain(resolve) && forall i :: 0 <= i < |nodes| ==> nodes[i] < parent
    ensures var c := CompileEach(lib, resolve, nodes, n); c.Ok? ==> HoldersOf(c.value.0) == Range(n, |c.value.1|)
    decreases parent, 0, |nodes|, 1
  {
    if nodes != [] && CompileEach(lib, resolve, nodes, n).Ok? {
      var (es, own) := CompileEach(lib, resolve, nodes, n).value;
      var first, more, rest := CompilesFirst(lib, resolve, nodes, n, es, own);
      PlaceholdersInOrder(lib, resolve, nodes[0], n);
      RestInOrder(lib, resolve, parent, nodes, n, first, more, rest);
    }
  }

  lemma {:induction false} RestInOrder(lib: Lib, resolve: string -> Resolution, parent: Node, nodes: seq<Node>, n: nat, first: Compiled, more: seq<Expr>, rest: seq<Val>)
    requires Plain(resolve) && nodes != [] && forall i :: 0 <= i < |nodes| ==> nodes[i] < parent
    ensures CompileEach(lib, resolve, nodes[1..], n + |first.args|) == Ok((more, rest)) && Holders(first.expr) == Range(n, |first.args|) ==>
              HoldersOf([first.expr] + more) == Range(n, |first.args| + |rest|)
    decreases parent, 0, |nodes|, 0
  {
    AllSmaller(parent, nodes);
    EachInOrder(lib, resolve, parent, nodes[1..], n + |first.args|);
    if CompileEach(lib, resolve, nodes[1..], n + |first.args|) == Ok((more, rest)) && Holders(first.expr) == Range(n, |first.args|) {
      HoldersJoin(first.expr, more, n, |first.args|, |rest|);
    }
  }

  // ---- what a row has to do with a record ----

  /** A column of this kind, read for this field, holds what the record holds. */
  predicate Represents(lib: Lib, field: string, v: Option<Value>, kind: FieldKind, s: Val) {
    match v
    case None => s == Null
    case Some(Str(t)) => (kind == FieldString || kind == FieldSeverity) && s == Word(t)
    case Some(Json(t)) => (kind == FieldJSON || kind == FieldString) && s == Word(t)
    case Some(Int(i)) => kind == FieldNumber && (s == Whole(i) || (field != "seq" && s == Real(lib.widen(i))))
    case Some(Number(f)) => kind == FieldNumber && field != "seq" && s == Real(f)
    case Some(Boolean(b)) => kind == FieldBool && s == Truth(b)
    case Some(NullValue) => false
  }

  ghost predicate Reads(lib: Lib, resolve: string -> Resolution, field: string, rec: Record, row: Row) {
    var v := Lookup(lib, rec, field);
    match resolve(field)
    case Unresolved(_) => v.None?
    case Resolved(expr, kind) =>
      var s := Eval(lib, expr, row, []);
      && Holders(expr) == []
      && (kind == FieldSeverity <==> IsSeverityField(field))
      && (kind == FieldTimestamp <==> IsTimestampField(field))
      && if IsTimestampField(field) then s == Moment(TimestampOf(rec, field)) else Represents(lib, field, v, kind, s)
  }

  /** A number's or a boolean's text, read as one again, is what was shown; and no boolean reads as a number. */
  predicate ReadsBack(lib: Lib, v: Value) {
    match v
    case Int(i) => lib.number(TextOf(lib, v)) == Some(lib.widen(i))
    case Number(f) => lib.number(TextOf(lib, v)) == Some(f)
    case Boolean(b) => lib.truth(TextOf(lib, v)) == Some(b) && lib.number(TextOf(lib, v)).None?
    case _ => true
  }

  /** What is read is the record's value as text, with no column to say what kind it was. */
  ghost predicate ReadsAsText(lib: Lib, resolve: string -> Resolution, field: string, rec: Record, row: Row) {
    var v := Lookup(lib, rec, field);
    && resolve(field).Resolved? && resolve(field).kind == FieldString && Holders(resolve(field).expr) == []
    && !IsSeverityField(field) && !IsTimestampField(field)
    && v.Some? && !v.value.NullValue? && ReadsBack(lib, v.value)
    && Eval(lib, resolve(field).expr, row, []) == Word(TextOf(lib, v.value))
  }

  /** Text answers any literal but a bare number as text, where a number or a boolean answers only its own kind. */
  predicate TextAnswersAlike(lib: Lib, v: Value, op: Op, literal: Literal) {
    || op in {Exists, Contains, Matches} || literal.kind == KindNull || literal.kind == KindNumber
    || !(v.Int? || v.Number? || v.Boolean?)
    || (CompareStrings(TextOf(lib, v), literal.str, op) <==> v.Boolean? && literal.kind == KindBool && CompareBools(v.b, literal.flag, op))
  }

  /** A stored level has no space around it: ingest trims it, and the inline CASE does not. */
  predicate LevelTrimmed(lib: Lib, rec: Record) {
    lib.upper(lib.trim(rec.level)) == lib.upper(rec.level)
  }

  /** What a comparison needs of the store for both readings of it to agree. */
  ghost predicate ComparisonOk(lib: Lib, resolve: string -> Resolution, field: string, op: Op, literal: Literal, rec: Record, row: Row) {
    && (Reads(lib, resolve, field, rec, row) ||
        (ReadsAsText(lib, resolve, field, rec, row) && TextAnswersAlike(lib, Lookup(lib, rec, field).value, op, literal)))
    && (resolve(field).Unresolved? ==> literal.kind != KindNull)
    && ((op == Contains || op == Matches) && resolve(field).Resolved? ==> resolve(field).kind != FieldNumber || field == "seq")
    && (IsSeverityField(field) ==> LevelTrimmed(lib, rec))
  }

  /** Full text needs msg and raw to be stored as they passed; a row stores nothing for an empty one. */
  ghost predicate TextOk(text: string, rec: Record, row: Row) {
    && row.column("msg") == (if rec.msg == "" then Null else Word(rec.msg))
    && row.column("raw") == (if rec.raw == "" then Null else Word(rec.raw))
    && (text != "" || rec.msg != "" || rec.raw != "")
  }

  ghost predicate Faithful(lib: Lib, resolve: string -> Resolution, node: Node, rec: Record, row: Row) {
    match node
    case Comparison(field, op, literal) => ComparisonOk(lib, resolve, field, op, literal, rec, row)
    case Text(text) => TextOk(text, rec, row)
    case And(children) => children != [] && forall i :: 0 <= i < |children| ==> Faithful(lib, resolve, children[i], rec, row)
    case Or(children) => children != [] && forall i :: 0 <= i < |children| ==> Faithful(lib, resolve, children[i], rec, row)
    case Not(child) => Faithful(lib, resolve, child, rec, row)
  }

  ghost predicate IsTruth(v: Val) {
    v == Null || v == Truth(true) || v == Truth(false)
  }

  // ---- comparisons ----

  lemma FloatsAgree(a: Float, b: Float, op: Op)
    ensures CompareFloats(a, b, op) == OrderIs(DoubleOrder(a, b), op)
  {
  }

  lemma {:induction false} EvalPlain(lib: Lib, e: Expr, row: Row, args: seq<Val>)
    requires Holders(e) == []
    ensures Eval(lib, e, row, args) == Eval(lib, e, row, [])
    decreases e
  {
    match e
    case IsNull(e) => EvalPlain(lib, e, row, args);
    case IsNotNull(e) => EvalPlain(lib, e, row, args);
    case Compare(_, a, b) => EvalPlain(lib, a, row, args); EvalPlain(lib, b, row, args);
    case ILike(a, b) => EvalPlain(lib, a, row, args); EvalPlain(lib, b, row, args);
    case RegexpMatches(a, b) => EvalPlain(lib, a, row, args); EvalPlain(lib, b, row, args);
    case CastText(e) => EvalPlain(lib, e, row, args);
    case TryNumber(e) => EvalPlain(lib, e, row, args);
    case TryBool(e) => EvalPlain(lib, e, row, args);
    case SeverityCase(e) => EvalPlain(lib, e, row, args);
    case Extract(e, _) => EvalPlain(lib, e, row, args);
    case Coalesce(a, b) => EvalPlain(lib, a, row, args); EvalPlain(lib, b, row, args);
    case Negate(e) => EvalPlain(lib, e, row, args);
    case All(es) =>
      EvalAllPlain(lib, e, es, row, args);
      assert Values(lib, es, row, args) == Values(lib, es, row, []);
    case Any(es) =>
      EvalAllPlain(lib, e, es, row, args);
      assert Values(lib, es, row, args) == Values(lib, es, row, []);
    case _ =>
  }

  lemma {:induction false} EvalAllPlain(lib: Lib, parent: Expr, es: seq<Expr>, row: Row, args: seq<Val>)
    requires HoldersOf(es) == [] && forall i :: 0 <= i < |es| ==> es[i] < parent
    ensures forall i :: 0 <= i < |es| ==> Eval(lib, es[i], row, args) == Eval(lib, es[i], row, [])
    decreases parent, 0, |es|
  {
    if es != [] {
      EvalPlain(lib, es[0], row, args);
      EvalAllPlain(lib, parent, es[1..], row, args);
      forall i | 0 <= i < |es|
        ensures Eval(lib, es[i], row, args) == Eval(lib, es[i], row, [])
      {
        assert i > 0 ==> es[i] == es[1..][i - 1];
      }
    }
  }

  function Values(lib: Lib, es: seq<Expr>, row: Row, args: seq<Val>): seq<Val> {
    seq(|es|, i requires 0 <= i < |es| => Eval(lib, es[i], row, args))
  }

  /** Where arguments bound from n on stand among all of them. */
  ghost predicate Bound(args: seq<Val>, n: nat, own: seq<Val>) {
    n + |own| <= |args| && args[n..n + |own|] == own
  }

  lemma FirstArgument(args: seq<Val>, n: nat, own: seq<Val>)
    requires Bound(args, n, own) && own != []
    ensures n < |args| && args[n] == own[0]
  {
    assert args[n] == args[n..n + |own|][0];
  }

  // Each kind of comparison, once the field and the argument have been read.

  ghost predicate Agree(lib: Lib, field: string, op: Op, literal: Literal, rec: Record, v: Val) {
    IsTruth(v) && (v == Truth(true) <==> AcceptsComparison(lib, field, op, literal, rec))
  }

  predicate Ordering(op: Op, literal: Literal) {
    op !in {Exists, Contains, Matches} && literal.kind != KindNull
  }

  lemma LevelNames(lib: Lib, field: string, literal: Literal, rec: Record, s: Val)
    requires literal.kind != KindNull && IsSeverityField(field) && Represents(lib, field, Lookup(lib, rec, field), FieldSeverity, s)
    ensures Agree(lib, field, Equals, literal, rec, Compares(lib, Equals, s, Word(LevelOf(lib, literal))))
  {
  }

  lemma LevelRanks(lib: Lib, field: string, op: Op, literal: Literal, rec: Record, s: Val)
    requires Ordering(op, literal) && op != Equals && IsSeverityField(field) && LevelTrimmed(lib, rec)
    requires Represents(lib, field, Lookup(lib, rec, field), FieldSeverity, s)
    ensures Agree(lib, field, op, literal, rec, Compares(lib, op, SeverityOf(lib, s), Val.Whole(Rank(lib, LevelOf(lib, literal)))))
  {
  }

  lemma Numbers(lib: Lib, field: string, op: Op, literal: Literal, rec: Record, s: Val)
    requires Ordering(op, literal) && literal.kind == KindNumber && !IsSeverityField(field) && !IsTimestampField(field)
    requires Represents(lib, field, Lookup(lib, rec, field), FieldNumber, s)
    ensures Agree(lib, field, op, literal, rec, Compares(lib, op, s, Real(literal.num)))
  {
    match s
    case Whole(i) => FloatsAgree(lib.widen(i), literal.num, op);
    case Real(f) => FloatsAgree(f, literal.num, op);
    case _ =>
  }

  lemma Bools(lib: Lib, field: string, op: Op, literal: Literal, rec: Record, s: Val)
    requires Ordering(op, literal) && literal.kind == KindBool && !IsSeverityField(field) && !IsTimestampField(field)
    requires Represents(lib, field, Lookup(lib, rec, field), FieldBool, s)
    ensures Agree(lib, field, op, literal, rec, Compares(lib, op, s, Truth(literal.flag)))
  {
  }

  /** A number or a boolean answers no other kind of literal, in either. */
  lemma OtherKinds(lib: Lib, field: string, op: Op, literal: Literal, kind: FieldKind, rec: Record, s: Val)
    requires Ordering(op, literal) && !IsSeverityField(field) && !IsTimestampField(field)
    requires (kind == FieldNumber && literal.kind != KindNumber) || (kind == FieldBool && literal.kind != KindBool)
    requires Represents(lib, field, Lookup(lib, rec, field), kind, s)
    ensures Agree(lib, field, op, literal, rec, Truth(false))
  {
  }

  lemma Times(lib: Lib, field: string, op: Op, literal: Literal, rec: Record)
    requires Ordering(op, literal) && IsTimestampField(field) && lib.instant(literal.str).Some?
    ensures Agree(lib, field, op, literal, rec, Compares(lib, op, Moment(TimestampOf(rec, field)), Moment(lib.instant(literal.str).value)))
  {
  }

  lemma Words(lib: Lib, field: string, op: Op, literal: Literal, kind: FieldKind, rec: Record, s: Val)
    requires Ordering(op, literal) && literal.kind != KindNumber && !IsSeverityField(field) && !IsTimestampField(field)
    requires (kind == FieldString || kind == FieldJSON) && Represents(lib, field, Lookup(lib, rec, field), kind, s)
    ensures Agree(lib, field, op, literal, rec, Compares(lib, op, s, Word(literal.str)))
  {
  }

  function AsNumber(lib: Lib, v: Val): Val {
    match v
    case Word(w) => if lib.number(w).Some? then Real(lib.number(w).value) else Null
    case Whole(i) => Real(lib.widen(i))
    case Real(f) => Real(f)
    case _ => Null
  }

  /** Text compared with a bare number is read as one. */
  lemma WordsAsNumbers(lib: Lib, field: string, op: Op, literal: Literal, kind: FieldKind, rec: Record, s: Val)
    requires Ordering(op, literal) && literal.kind == KindNumber && !IsSeverityField(field) && !IsTimestampField(field)
    requires (kind == FieldString || kind == FieldJSON) && Represents(lib, field, Lookup(lib, rec, field), kind, s)
    ensures Agree(lib, field, op, literal, rec, Compares(lib, op, AsNumber(lib, s), Real(literal.num)))
  {
    if s.Word? && lib.number(s.w).Some? {
      FloatsAgree(lib.number(s.w).value, literal.num, op);
    }
  }

  lemma Texts(lib: Lib, field: string, literal: Literal, kind: FieldKind, rec: Record, s: Val)
    requires FoldOk(lib) && literal.kind != KindNull && Shows(lib, field, kind, rec, s)
    ensures var shown := Shown(lib, s);
            && Agree(lib, field, Matches, literal, rec, if shown.Word? then Truth(lib.matches(literal.str, shown.w)) else Null)
            && Agree(lib, field, Contains, literal, rec, if shown.Word? then Truth(Like(Lower(lib, shown.w), Lower(lib, Pattern(literal.str)))) else Null)
  {
    var v := Lookup(lib, rec, field);
    if v.Some? {
      ILikeIsWithin(lib, TextOf(lib, v.value), literal.str);
    }
  }

  /** What a text operator reads is the record's value as text. */
  ghost predicate Shows(lib: Lib, field: string, kind: FieldKind, rec: Record, s: Val) {
    && (kind != FieldNumber || field == "seq")
    && if IsTimestampField(field) then s == Moment(TimestampOf(rec, field)) else Represents(lib, field, Lookup(lib, rec, field), kind, s)
  }

  // And with the reading.

  lemma EvalCompare(lib: Lib, op: Op, e: Expr, row: Row, n: nat, args: seq<Val>, own: Val)
    requires Holders(e) == [] && Bound(args, n, [own])
    ensures Eval(lib, Compare(op, e, Param(n)), row, args) == Compares(lib, op, Eval(lib, e, row, []), own)
  {
    EvalPlain(lib, e, row, args);
    FirstArgument(args, n, [own]);
    assert Eval(lib, Param(n), row, args) == own;
  }

  lemma OrderedAgrees(lib: Lib, field: string, op: Op, literal: Literal, expr: Expr, kind: FieldKind, rec: Record, row: Row, n: nat, args: seq<Val>)
    requires Ordering(op, literal) && Reads(lib, (f: string) => Resolved(expr, kind), field, rec, row) && (IsSeverityField(field) ==> LevelTrimmed(lib, rec))
    requires var c := Ordered(lib, op, literal, expr, kind, n); c.Ok? && Bound(args, n, c.value.args)
    ensures Agree(lib, field, op, literal, rec, Eval(lib, Ordered(lib, op, literal, expr, kind, n).value.expr, row, args))
  {
    var s := Eval(lib, expr, row, []);
    match kind
    case FieldSeverity =>
      var level := LevelOf(lib, literal);
      if op == Equals {
        EvalCompare(lib, op, expr, row, n, args, Word(level));
        LevelNames(lib, field, literal, rec, s);
      } else {
        assert Holders(SeverityCase(expr)) == [] && Eval(lib, SeverityCase(expr), row, []) == SeverityOf(lib, s);
        EvalCompare(lib, op, SeverityCase(expr), row, n, args, Val.Whole(Rank(lib, level)));
        LevelRanks(lib, field, op, literal, rec, s);
      }
    case FieldNumber =>
      if literal.kind == KindNumber {
        EvalCompare(lib, op, expr, row, n, args, Real(literal.num));
        Numbers(lib, field, op, literal, rec, s);
      } else {
        OtherKinds(lib, field, op, literal, kind, rec, s);
      }
    case FieldBool =>
      if literal.kind == KindBool {
        EvalCompare(lib, op, expr, row, n, args, Truth(literal.flag));
        Bools(lib, field, op, literal, rec, s);
      } else {
        OtherKinds(lib, field, op, literal, kind, rec, s);
      }
    case FieldTimestamp =>
      EvalCompare(lib, op, expr, row, n, args, Moment(lib.instant(literal.str).value));
      Times(lib, field, op, literal, rec);
    case _ => TextOrderedAgrees(lib, field, op, literal, expr, kind, rec, row, n, args);
  }

  lemma TextOrderedAgrees(lib: Lib, field: string, op: Op, literal: Literal, expr: Expr, kind: FieldKind, rec: Record, row: Row, n: nat, args: seq<Val>)
    requires Ordering(op, literal) && Reads(lib, (f: string) => Resolved(expr, kind), field, rec, row) && (kind == FieldString || kind == FieldJSON)
    requires var c := Ordered(lib, op, literal, expr, kind, n); c.Ok? && Bound(args, n, c.value.args)
    ensures Agree(lib, field, op, literal, rec, Eval(lib, Ordered(lib, op, literal, expr, kind, n).value.expr, row, args))
  {
    var s := Eval(lib, expr, row, []);
    if literal.kind == KindNumber {
      assert Holders(TryNumber(expr)) == [] && Eval(lib, TryNumber(expr), row, []) == AsNumber(lib, s);
      EvalCompare(lib, op, TryNumber(expr), row, n, args, Real(literal.num));
      WordsAsNumbers(lib, field, op, literal, kind, rec, s);
    } else {
      EvalCompare(lib, op, expr, row, n, args, Word(literal.str));
      Words(lib, field, op, literal, kind, rec, s);
    }
  }

  // ---- queries ----

  lemma EvalText(lib: Lib, expr: Expr, kind: FieldKind, row: Row, n: nat, args: seq<Val>, own: string)
    requires Holders(expr) == [] && Bound(args, n, [Word(own)]) && (kind == FieldString ==> Eval(lib, expr, row, []).Null? || Eval(lib, expr, row, []).Word?)
    ensures var shown := Shown(lib, Eval(lib, expr, row, []));
            && Eval(lib, RegexpMatches(Textual(expr, kind), Param(n)), row, args) == (if shown.Word? then Truth(lib.matches(own, shown.w)) else Null)
            && Eval(lib, ILike(Textual(expr, kind), Param(n)), row, args) == (if shown.Word? then Truth(Like(Lower(lib, shown.w), Lower(lib, own))) else Null)
  {
    EvalPlain(lib, expr, row, args);
    FirstArgument(args, n, [Word(own)]);
    assert Eval(lib, Param(n), row, args) == Word(own);
    assert Eval(lib, Textual(expr, kind), row, args) == Shown(lib, Eval(lib, expr, row, []));
  }

  lemma {:induction false} ContainsAgrees(lib: Lib, resolve: string -> Resolution, field: string, op: Op, literal: Literal, rec: Record, row: Row, n: nat, args: seq<Val>)
    requires FoldOk(lib) && ComparisonOk(lib, resolve, field, op, literal, rec, row) && resolve(field).Resolved?
    requires Reads(lib, resolve, field, rec, row)
    requires (op == Contains || op == Matches) && literal.kind != KindNull
    requires var c := CompileComparison(lib, resolve, field, op, literal, n); c.Ok? && Bound(args, n, c.value.args)
    ensures Agree(lib, field, op, literal, rec, Eval(lib, CompileComparison(lib, resolve, field, op, literal, n).value.expr, row, args))
  {
    var expr, kind := resolve(field).expr, resolve(field).kind;
    Texts(lib, field, literal, kind, rec, Eval(lib, expr, row, []));
    EvalText(lib, expr, kind, row, n, args, if op == Contains then Pattern(literal.str) else literal.str);
  }

  /**
   * A value read out of raw is text. It answers as the record does exactly when the literal is a bare number,
   * or asks for text or for nothing, or would get the same answer from a text.
   */
  lemma AsTextAgreesIff(lib: Lib, resolve: string -> Resolution, field: string, op: Op, literal: Literal, rec: Record, row: Row, n: nat, args: seq<Val>)
    requires FoldOk(lib) && ReadsAsText(lib, resolve, field, rec, row)
    requires var c := CompileComparison(lib, resolve, field, op, literal, n); c.Ok? && Bound(args, n, c.value.args)
    ensures var v := Eval(lib, CompileComparison(lib, resolve, field, op, literal, n).value.expr, row, args);
            IsTruth(v) && ((v == Truth(true) <==> AcceptsComparison(lib, field, op, literal, rec)) <==>
                           TextAnswersAlike(lib, Lookup(lib, rec, field).value, op, literal))
  {
    var expr, v := resolve(field).expr, Lookup(lib, rec, field).value;
    if op == Exists || literal.kind == KindNull {
      EvalPlain(lib, expr, row, args);
    } else if op == Contains || op == Matches {
      ILikeIsWithin(lib, TextOf(lib, v), literal.str);
      EvalText(lib, expr, FieldString, row, n, args, if op == Contains then Pattern(literal.str) else literal.str);
    } else {
      TextOrderedIff(lib, field, op, literal, expr, rec, v, row, n, args);
    }
  }

  lemma TextOrderedIff(lib: Lib, field: string, op: Op, literal: Literal, expr: Expr, rec: Record, v: Value, row: Row, n: nat, args: seq<Val>)
    requires Ordering(op, literal) && !IsSeverityField(field) && !IsTimestampField(field) && Holders(expr) == []
    requires Lookup(lib, rec, field) == Some(v) && !v.NullValue? && ReadsBack(lib, v) && Eval(lib, expr, row, []) == Word(TextOf(lib, v))
    requires var c := Ordered(lib, op, literal, expr, FieldString, n); c.Ok? && Bound(args, n, c.value.args)
    ensures var s := Eval(lib, Ordered(lib, op, literal, expr, FieldString, n).value.expr, row, args);
            IsTruth(s) && ((s == Truth(true) <==> AcceptsComparison(lib, field, op, literal, rec)) <==> TextAnswersAlike(lib, v, op, literal))
  {
    if literal.kind == KindNumber {
      assert Holders(TryNumber(expr)) == [] && Eval(lib, TryNumber(expr), row, []) == AsNumber(lib, Word(TextOf(lib, v)));
      EvalCompare(lib, op, TryNumber(expr), row, n, args, Real(literal.num));
      NumberReadsAlike(lib, v, literal, op);
    } else {
      EvalCompare(lib, op, expr, row, n, args, Word(literal.str));
    }
  }

  lemma NumberReadsAlike(lib: Lib, v: Value, literal: Literal, op: Op)
    requires ReadsBack(lib, v) && !v.NullValue? && literal.kind == KindNumber && op !in {Exists, Contains, Matches}
    ensures Compares(lib, op, AsNumber(lib, Word(TextOf(lib, v))), Real(literal.num)) == Truth(true) <==> CompareValue(lib, v, literal, op)
    ensures IsTruth(Compares(lib, op, AsNumber(lib, Word(TextOf(lib, v))), Real(literal.num)))
  {
    var number := lib.number(TextOf(lib, v));
    if number.Some? {
      FloatsAgree(number.value, literal.num, op);
    }
  }

  /** A boolean spelled as it is shown is compared alike as text. */
  lemma SpelledAsShown(lib: Lib, b: bool, op: Op, literal: Literal)
    requires literal.kind == KindBool && literal.str == if literal.flag then "true" else "false"
    ensures TextAnswersAlike(lib, Boolean(b), op, literal)
  {
    assert TextBefore("false", "true") && !TextBefore("true", "false") && !TextBefore("true", "true") && !TextBefore("false", "false");
  }

  lemma ComparisonAgrees(lib: Lib, resolve: string -> Resolution, field: string, op: Op, literal: Literal, rec: Record, row: Row, n: nat, args: seq<Val>)
    requires FoldOk(lib) && ComparisonOk(lib, resolve, field, op, literal, rec, row)
    requires var c := CompileComparison(lib, resolve, field, op, literal, n); c.Ok? && Bound(args, n, c.value.args)
    ensures Agree(lib, field, op, literal, rec, Eval(lib, CompileComparison(lib, resolve, field, op, literal, n).value.expr, row, args))
  {
    if !Reads(lib, resolve, field, rec, row) {
      AsTextAgreesIff(lib, resolve, field, op, literal, rec, row, n, args);
    } else if resolve(field).Resolved? {
      var expr, kind := resolve(field).expr, resolve(field).kind;
      if op == Exists || literal.kind == KindNull {
        EvalPlain(lib, expr, row, args);
      } else if op == Contains || op == Matches {
        ContainsAgrees(lib, resolve, field, op, literal, rec, row, n, args);
      } else {
        OrderedAgrees(lib, field, op, literal, expr, kind, rec, row, n, args);
      }
    }
  }

  lemma WithinNothing(s: string, v: string)
    ensures v == "" ==> Within(s, v)
    ensures s == "" && v != "" ==> !Within(s, v)
  {
  }

  /** A column holding a text, or nothing for an empty one, against the pattern of another. */
  lemma FindsPattern(lib: Lib, column: Expr, i: nat, s: string, text: string, row: Row, args: seq<Val>)
    requires FoldOk(lib) && column.Column? && row.column(column.name) == (if s == "" then Null else Word(s))
    requires i < |args| && args[i] == Word(Pattern(text))
    ensures Eval(lib, ILike(column, Param(i)), row, args) == if s == "" then Null else Truth(Within(Lower(lib, s), Lower(lib, text)))
    ensures s == "" ==> (Within(Lower(lib, s), Lower(lib, text)) <==> text == "")
    ensures text == "" ==> Within(Lower(lib, s), Lower(lib, text))
  {
    ILikeIsWithin(lib, s, text);
    WithinNothing(Lower(lib, s), Lower(lib, text));
  }

  lemma DisjoinTwo(x: Val, y: Val)
    ensures IsTruth(Disjoin([x, y]))
    ensures Disjoin([x, y]) == Truth(true) <==> x == Truth(true) || y == Truth(true)
  {
    assert [x, y][0] == x && [x, y][1] == y;
  }

  lemma TextAgrees(lib: Lib, resolve: string -> Resolution, text: string, rec: Record, row: Row, n: nat, args: seq<Val>)
    requires FoldOk(lib) && TextOk(text, rec, row) && Bound(args, n, [Word(Pattern(text)), Word(Pattern(text))])
    ensures var v := Eval(lib, Compile(lib, resolve, Text(text), n).value.expr, row, args);
            IsTruth(v) && (v == Truth(true) <==> Accepts(lib, Text(text), rec))
  {
    var es := [ILike(Column("msg"), Param(n)), ILike(Column("raw"), Param(n + 1))];
    assert args[n] == args[n..n + 2][0] && args[n + 1] == args[n..n + 2][1];
    assert Compile(lib, resolve, Text(text), n).value.expr == Any(es);
    Joined(lib, es, row, args);
    assert Values(lib, es, row, args) == [Eval(lib, es[0], row, args), Eval(lib, es[1], row, args)];
    DisjoinTwo(Eval(lib, es[0], row, args), Eval(lib, es[1], row, args));
    FindsPattern(lib, Column("msg"), n, rec.msg, text, row, args);
    FindsPattern(lib, Column("raw"), n + 1, rec.raw, text, row, args);
  }

  ghost predicate AllAgree(lib: Lib, nodes: seq<Node>, rec: Record, vals: seq<Val>) {
    |vals| == |nodes| && (nodes != [] ==> Answers(lib, nodes[0], rec, vals[0]) && AllAgree(lib, nodes[1..], rec, vals[1..]))
  }

  ghost predicate Answers(lib: Lib, node: Node, rec: Record, v: Val) {
    IsTruth(v) && (v == Truth(true) <==> Accepts(lib, node, rec))
  }

  lemma {:induction false} AllAgreeAt(lib: Lib, nodes: seq<Node>, rec: Record, vals: seq<Val>, i: nat)
    requires AllAgree(lib, nodes, rec, vals) && i < |nodes|
    ensures |vals| == |nodes| && Answers(lib, nodes[i], rec, vals[i])
  {
    if i > 0 {
      AllAgreeAt(lib, nodes[1..], rec, vals[1..], i - 1);
    }
  }

  ghost predicate AllFaithful(lib: Lib, resolve: string -> Resolution, nodes: seq<Node>, rec: Record, row: Row) {
    forall i :: 0 <= i < |nodes| ==> Faithful(lib, resolve, nodes[i], rec, row)
  }

  lemma AgreesCons(lib: Lib, nodes: seq<Node>, rec: Record, e: Expr, es: seq<Expr>, row: Row, args: seq<Val>)
    requires nodes != []
    ensures AllAgree(lib, nodes[1..], rec, Values(lib, es, row, args)) && Answers(lib, nodes[0], rec, Eval(lib, e, row, args)) ==>
              AllAgree(lib, nodes, rec, Values(lib, [e] + es, row, args))
  {
    ValuesCons(lib, e, es, row, args);
    assert Values(lib, [e] + es, row, args)[1..] == Values(lib, es, row, args);
  }

  lemma FaithfulRest(lib: Lib, resolve: string -> Resolution, nodes: seq<Node>, rec: Record, row: Row)
    requires nodes != [] && AllFaithful(lib, resolve, nodes, rec, row)
    ensures Faithful(lib, resolve, nodes[0], rec, row) && AllFaithful(lib, resolve, nodes[1..], rec, row)
  {
  }

  lemma {:induction false} EachAgrees(lib: Lib, resolve: string -> Resolution, nodes: seq<Node>, rec: Record, row: Row, n: nat, es: seq<Expr>, own: seq<Val>, args: seq<Val>)
    requires FoldOk(lib) && AllFaithful(lib, resolve, nodes, rec, row)
    requires CompileEach(lib, resolve, nodes, n) == Ok((es, own)) && Bound(args, n, own)
    ensures AllAgree(lib, nodes, rec, Values(lib, es, row, args))
    decreases nodes, 2
  {
    if nodes != [] {
      var first, more, rest := CompilesFirst(lib, resolve, nodes, n, es, own);
      FirstAgrees(lib, resolve, nodes, rec, row, n, first, rest, args);
      RestAgrees(lib, resolve, nodes, rec, row, n, first, more, rest, args);
    }
  }

  lemma {:induction false} RestAgrees(lib: Lib, resolve: string -> Resolution, nodes: seq<Node>, rec: Record, row: Row, n: nat, first: Compiled, more: seq<Expr>, rest: seq<Val>, args: seq<Val>)
    requires FoldOk(lib) && nodes != [] && AllFaithful(lib, resolve, nodes[1..], rec, row) && Bound(args, n + |first.args|, rest)
    ensures CompileEach(lib, resolve, nodes[1..], n + |first.args|) == Ok((more, rest)) && Answers(lib, nodes[0], rec, Eval(lib, first.expr, row, args)) ==>
              AllAgree(lib, nodes, rec, Values(lib, [first.expr] + more, row, args))
    decreases nodes, 0
  {
    if CompileEach(lib, resolve, nodes[1..], n + |first.args|) == Ok((more, rest)) {
      EachAgrees(lib, resolve, nodes[1..], rec, row, n + |first.args|, more, rest, args);
      AgreesCons(lib, nodes, rec, first.expr, more, row, args);
    }
  }

  lemma {:induction false} FirstAgrees(lib: Lib, resolve: string -> Resolution, nodes: seq<Node>, rec: Record, row: Row, n: nat, first: Compiled, rest: seq<Val>, args: seq<Val>)
    requires FoldOk(lib) && nodes != [] && AllFaithful(lib, resolve, nodes, rec, row) && Bound(args, n, first.args + rest)
    ensures AllFaithful(lib, resolve, nodes[1..], rec, row) && Bound(args, n + |first.args|, rest)
    ensures Compile(lib, resolve, nodes[0], n) == Ok(first) ==> Answers(lib, nodes[0], rec, Eval(lib, first.expr, row, args))
    decreases nodes, 0
  {
    FaithfulRest(lib, resolve, nodes, rec, row);
    BoundSplits(args, n, first.args, rest);
    if Compile(lib, resolve, nodes[0], n) == Ok(first) {
      Agrees(lib, resolve, nodes[0], rec, row, n, first, args);
    }
  }

  /** A list that compiles is its first node compiled, and then the rest. */
  lemma CompilesFirst(lib: Lib, resolve: string -> Resolution, nodes: seq<Node>, n: nat, es: seq<Expr>, own: seq<Val>)
    returns (first: Compiled, more: seq<Expr>, rest: seq<Val>)
    requires nodes != [] && CompileEach(lib, resolve, nodes, n) == Ok((es, own))
    ensures Compile(lib, resolve, nodes[0], n) == Ok(first)
    ensures CompileEach(lib, resolve, nodes[1..], n + |first.args|) == Ok((more, rest))
    ensures es == [first.expr] + more && own == first.args + rest
  {
    first := Compile(lib, resolve, nodes[0], n).value;
    var tail := CompileEach(lib, resolve, nodes[1..], n + |first.args|).value;
    more, rest := tail.0, tail.1;
  }

  lemma ValuesCons(lib: Lib, e: Expr, es: seq<Expr>, row: Row, args: seq<Val>)
    ensures Values(lib, [e] + es, row, args) == [Eval(lib, e, row, args)] + Values(lib, es, row, args)
  {
  }

  lemma BoundSplits(args: seq<Val>, n: nat, a: seq<Val>, b: seq<Val>)
    requires Bound(args, n, a + b)
    ensures Bound(args, n, a) && Bound(args, n + |a|, b)
  {
    var own := a + b;
    assert own[..|a|] == a && own[|a|..] == b;
    assert args[n..n + |own|][..|a|] == args[n..n + |a|];
    assert args[n..n + |own|][|a|..] == args[n + |a|..n + |own|];
  }

  /** The clause is true of a row exactly when the live predicate accepts its record. */
  lemma {:induction false} Agrees(lib: Lib, resolve: string -> Resolution, node: Node, rec: Record, row: Row, n: nat, c: Compiled, args: seq<Val>)
    requires FoldOk(lib) && Faithful(lib, resolve, node, rec, row)
    requires Compile(lib, resolve, node, n) == Ok(c) && Bound(args, n, c.args)
    ensures Answers(lib, node, rec, Eval(lib, c.expr, row, args))
    decreases node, 0
  {
    match node
    case Comparison(field, op, literal) => ComparisonAgrees(lib, resolve, field, op, literal, rec, row, n, args);
    case Text(text) => TextAgrees(lib, resolve, text, rec, row, n, args);
    case And(children) =>
      var es := CompileEach(lib, resolve, children, n).value.0;
      EachAgrees(lib, resolve, children, rec, row, n, es, c.args, args);
      JoinAgrees(lib, children, rec, es, row, args);
    case Or(children) =>
      var es := CompileEach(lib, resolve, children, n).value.0;
      EachAgrees(lib, resolve, children, rec, row, n, es, c.args, args);
      JoinAgrees(lib, children, rec, es, row, args);
    case Not(child) =>
      var inner := Compile(lib, resolve, child, n).value;
      Agrees(lib, resolve, child, rec, row, n, inner, args);
      NotTrue(lib, inner.expr, row, args);
  }

  lemma JoinAgrees(lib: Lib, nodes: seq<Node>, rec: Record, es: seq<Expr>, row: Row, args: seq<Val>)
    requires nodes != [] && AllAgree(lib, nodes, rec, Values(lib, es, row, args))
    ensures var v := Eval(lib, All(es), row, args); IsTruth(v) && (v == Truth(true) <==> Accepts(lib, And(nodes), rec))
    ensures var v := Eval(lib, Any(es), row, args); IsTruth(v) && (v == Truth(true) <==> Accepts(lib, Or(nodes), rec))
  {
    Joined(lib, es, row, args);
    var vals := Values(lib, es, row, args);
    forall i | 0 <= i < |nodes| ensures |vals| == |nodes| && Answers(lib, nodes[i], rec, vals[i]) { AllAgreeAt(lib, nodes, rec, vals, i); }
  }

  /** NOT of unknown would be unknown; with the coalesce it is true. */
  lemma NotTrue(lib: Lib, e: Expr, row: Row, args: seq<Val>)
    requires IsTruth(Eval(lib, e, row, args))
    ensures Eval(lib, Negate(Coalesce(e, Constant(false))), row, args) == Truth(Eval(lib, e, row, args) != Truth(true))
  {
    assert Eval(lib, Coalesce(e, Constant(false)), row, args) == if Eval(lib, e, row, args).Null? then Truth(false) else Eval(lib, e, row, args);
  }

  lemma Joined(lib: Lib, es: seq<Expr>, row: Row, args: seq<Val>)
    ensures es != [] ==> Eval(lib, All(es), row, args) == Conjoin(Values(lib, es, row, args))
    ensures es != [] ==> Eval(lib, Any(es), row, args) == Disjoin(Values(lib, es, row, args))
  {
  }

  // ---- refusals ----

  /** Fields resolve to the kind their name calls for. */
  ghost predicate WellKinded(resolve: string -> Resolution) {
    forall field :: resolve(field).Resolved? ==>
      && (resolve(field).kind == FieldSeverity <==> IsSeverityField(field))
      && (resolve(field).kind == FieldTimestamp <==> IsTimestampField(field))
  }

  /** The first refusal in reading order among comparisons whose field resolves. */
  function RefusedInHistory(lib: Lib, resolve: string -> Resolution, node: Node): Option<Error> {
    match node
    case Comparison(field, _, _) => if resolve(field).Unresolved? then None else Refused(lib, node)
    case Text(_) => None
    case And(children) => FirstInHistory(lib, resolve, children)
    case Or(children) => FirstInHistory(lib, resolve, children)
    case Not(child) => RefusedInHistory(lib, resolve, child)
  }

  function FirstInHistory(lib: Lib, resolve: string -> Resolution, nodes: seq<Node>): Option<Error> {
    if nodes == [] then None
    else if RefusedInHistory(lib, resolve, nodes[0]).Some? then RefusedInHistory(lib, resolve, nodes[0])
    else FirstInHistory(lib, resolve, nodes[1..])
  }

  function ErrorOf<T>(r: Result<T, Error>): Option<Error> {
    match r
    case Ok(_) => None
    case Err(e) => Some(e)
  }

  /** History refuses what the tail refuses, for the first reason there is, but for fields that resolve to nothing: those it does not look at. */
  lemma {:induction false} HistoryRefuses(lib: Lib, resolve: string -> Resolution, node: Node, n: nat)
    requires WellKinded(resolve)
    ensures ErrorOf(Compile(lib, resolve, node, n)) == RefusedInHistory(lib, resolve, node)
    decreases node
  {
    match node
    case Comparison(field, op, literal) =>
    case Text(text) =>
    case And(children) => EachRefusal(lib, resolve, node, children, n);
    case Or(children) => EachRefusal(lib, resolve, node, children, n);
    case Not(child) => HistoryRefuses(lib, resolve, child, n);
  }

  lemma {:induction false} EachRefusal(lib: Lib, resolve: string -> Resolution, parent: Node, nodes: seq<Node>, n: nat)
    requires WellKinded(resolve) && forall i :: 0 <= i < |nodes| ==> nodes[i] < parent
    ensures ErrorOf(CompileEach(lib, resolve, nodes, n)) == FirstInHistory(lib, resolve, nodes)
    decreases parent, 0, |nodes|
  {
    if nodes != [] {
      HistoryRefuses(lib, resolve, nodes[0], n);
      if Compile(lib, resolve, nodes[0], n).Ok? {
        EachRefusal(lib, resolve, parent, nodes[1..], n + |Compile(lib, resolve, nodes[0], n).value.args|);
      }
    }
  }

  ghost predicate Resolvable(resolve: string -> Resolution, node: Node) {
    match node
    case Comparison(field, _, _) => resolve(field).Resolved?
    case Text(_) => true
    case And(children) => forall i :: 0 <= i < |children| ==> Resolvable(resolve, children[i])
    case Or(children) => forall i :: 0 <= i < |children| ==> Resolvable(resolve, children[i])
    case Not(child) => Resolvable(resolve, child)
  }

  /** History refuses nothing the tail accepts; and where every field resolves, the two refuse alike. */
  lemma {:induction false} RefusalsAgree(lib: Lib, resolve: string -> Resolution, node: Node)
    ensures RefusedInHistory(lib, resolve, node).Some? ==> Refused(lib, node).Some?
    ensures Resolvable(resolve, node) ==> RefusedInHistory(lib, resolve, node) == Refused(lib, node)
    decreases node
  {
    match node
    case Comparison(field, op, literal) =>
    case Text(text) =>
    case And(children) => EachRefusalAgrees(lib, resolve, node, children);
    case Or(children) => EachRefusalAgrees(lib, resolve, node, children);
    case Not(child) => RefusalsAgree(lib, resolve, child);
  }

  lemma {:induction false} EachRefusalAgrees(lib: Lib, resolve: string -> Resolution, parent: Node, nodes: seq<Node>)
    requires forall i :: 0 <= i < |nodes| ==> nodes[i] < parent
    ensures FirstInHistory(lib, resolve, nodes).Some? ==> FirstRefused(lib, nodes).Some?
    ensures (forall i :: 0 <= i < |nodes| ==> Resolvable(resolve, nodes[i])) ==> FirstInHistory(lib, resolve, nodes) == FirstRefused(lib, nodes)
    decreases parent, 0, |nodes|
  {
    if nodes != [] {
      RefusalsAgree(lib, resolve, nodes[0]);
      EachRefusalAgrees(lib, resolve, parent, nodes[1..]);
    }
  }

  // ---- where they part ----

  /** A field nothing can have: history answers no to everything, the tail says yes to =null. */
  lemma UnresolvedAgreesIff(lib: Lib, resolve: string -> Resolution, field: string, op: Op, literal: Literal, rec: Record, row: Row, n: nat, args: seq<Val>)
    requires resolve(field).Unresolved? && Lookup(lib, rec, field).None? && !IsTimestampField(field)
    requires Refused(lib, Comparison(field, op, literal)).None?
    ensures var v := Eval(lib, CompileComparison(lib, resolve, field, op, literal, n).value.expr, row, args);
            (v == Truth(true) <==> AcceptsComparison(lib, field, op, literal, rec)) <==> !(op == Equals && literal.kind == KindNull)
  {
  }

  /** Full text over a record stored as it passed agrees unless both the phrase and the record are empty. */
  lemma EmptyTextAgreesIff(lib: Lib, resolve: string -> Resolution, text: string, rec: Record, row: Row, n: nat, args: seq<Val>)
    requires FoldOk(lib) && Bound(args, n, [Word(Pattern(text)), Word(Pattern(text))])
    requires row.column("msg") == (if rec.msg == "" then Null else Word(rec.msg)) && row.column("raw") == (if rec.raw == "" then Null else Word(rec.raw))
    ensures var v := Eval(lib, Compile(lib, resolve, Text(text), n).value.expr, row, args);
            (v == Truth(true) <==> Accepts(lib, Text(text), rec)) <==> text != "" || rec.msg != "" || rec.raw != ""
  {
    if text != "" || rec.msg != "" || rec.raw != "" {
      TextAgrees(lib, resolve, text, rec, row, n, args);
    } else {
      var es := [ILike(Column("msg"), Param(n)), ILike(Column("raw"), Param(n + 1))];
      assert args[n] == args[n..n + 2][0] && args[n + 1] == args[n..n + 2][1];
      FindsPattern(lib, Column("msg"), n, rec.msg, text, row, args);
      FindsPattern(lib, Column("raw"), n + 1, rec.raw, text, row, args);
      Joined(lib, es, row, args);
      assert Values(lib, es, row, args) == [Eval(lib, es[0], row, args), Eval(lib, es[1], row, args)];
      DisjoinTwo(Null, Null);
      WithinNothing(Lower(lib, rec.msg), Lower(lib, text));
    }
  }

  /** raw is always there live, and stored only when it is not empty. */
  lemma RawExistsAgreesIff(lib: Lib, resolve: string -> Resolution, literal: Literal, rec: Record, row: Row, n: nat, args: seq<Val>)
    requires resolve("raw") == Resolved(Column("raw"), FieldString) && row.column("raw") == if rec.raw == "" then Null else Word(rec.raw)
    ensures var v := Eval(lib, CompileComparison(lib, resolve, "raw", Exists, literal, n).value.expr, row, args);
            (v == Truth(true) <==> AcceptsComparison(lib, "raw", Exists, literal, rec)) <==> rec.raw != ""
  {
  }

  // ---- levels as ingest stores them ----

  function TrimLeft(isSpace: char -> bool, s: string): string {
    if s != "" && isSpace(s[0]) then TrimLeft(isSpace, s[1..]) else s
  }

  function TrimRight(isSpace: char -> bool, s: string): string {
    if s != "" && isSpace(s[|s| - 1]) then TrimRight(isSpace, s[..|s| - 1]) else s
  }

  function TrimSpace(isSpace: char -> bool, s: string): string {
    TrimRight(isSpace, TrimLeft(isSpace, s))
  }

  function Raised(raise: char -> char, s: string): (r: string)
    ensures |r| == |s|
  {
    seq(|s|, i requires 0 <= i < |s| => raise(s[i]))
  }

  /** The names of levels, by how they are written in lower case. */
  datatype Spelling = Spelling(isSpace: char -> bool, raise: char -> char, lower: string -> string, names: map<string, string>)

  /** A level as ingest stores it: one it knows by its name, any other in capitals; and never the space around it. */
  function NormalLevel(sp: Spelling, text: string): string {
    var trimmed := TrimSpace(sp.isSpace, text);
    if trimmed == "" then ""
    else if sp.lower(trimmed) in sp.names then sp.names[sp.lower(trimmed)]
    else Raised(sp.raise, trimmed)
  }

  predicate Bare(isSpace: char -> bool, s: string) {
    s == "" || (!isSpace(s[0]) && !isSpace(s[|s| - 1]))
  }

  lemma {:induction false} TrimmedLeft(isSpace: char -> bool, s: string)
    ensures var r := TrimLeft(isSpace, s); r == "" || !isSpace(r[0])
  {
    if s != "" && isSpace(s[0]) {
      TrimmedLeft(isSpace, s[1..]);
    }
  }

  lemma {:induction false} TrimmedRight(isSpace: char -> bool, s: string)
    requires s == "" || !isSpace(s[0])
    ensures Bare(isSpace, TrimRight(isSpace, s))
    decreases |s|
  {
    if s != "" && isSpace(s[|s| - 1]) {
      TrimmedRight(isSpace, s[..|s| - 1]);
    }
  }

  /** What ingest stores as a level has no space around it, so it ranks as it stands as it does trimmed. */
  lemma IngestedLevelIsTrimmed(lib: Lib, sp: Spelling, text: string, rec: Record)
    requires forall s :: lib.trim(s) == TrimSpace(sp.isSpace, s)
    requires (forall c: char :: !sp.isSpace(c) ==> !sp.isSpace(sp.raise(c))) && forall k <- sp.names :: Bare(sp.isSpace, sp.names[k])
    requires rec.level == NormalLevel(sp, text) || rec.level in sp.names.Values
    ensures lib.trim(rec.level) == rec.level && LevelTrimmed(lib, rec)
  {
    TrimmedLeft(sp.isSpace, text);
    TrimmedRight(sp.isSpace, TrimLeft(sp.isSpace, text));
    assert Bare(sp.isSpace, rec.level);
  }
}

/** The SQL compiler's own code: it appends to its arguments as it goes, and counts them for its placeholders. */
module SqlCompiler {
  import opened Prelude
  import opened Rql
  import opened Sql

  class Compiler {
    const lib: Lib
    const resolve: string -> Resolution
    var args: seq<Val>

    constructor (lib: Lib, resolve: string -> Resolution)
      ensures this.lib == lib && this.resolve == resolve && args == []
    {
      this.lib, this.resolve, args := lib, resolve, [];
    }

    method Bind(v: Val) returns (e: Expr)
      modifies this`args
      ensures args == old(args) + [v] && e == Param(|old(args)|)
    {
      e := Param(|args|);
      args := args + [v];
    }

    method CompileNode(node: Node) returns (r: Result<Expr, Error>)
      modifies this`args
      ensures match Sql.Compile(lib, resolve, node, |old(args)|)
              case Ok(c) => r == Ok(c.expr) && args == old(args) + c.args
              case Err(e) => r == Err(e)
      decreases node
    {
      match node
      case And(children) =>
        var es := Join(children, node);
        r := if es.Ok? then Ok(All(es.value)) else Err(es.error);
      case Or(children) =>
        var es := Join(children, node);
        r := if es.Ok? then Ok(Any(es.value)) else Err(es.error);
      case Not(child) =>
        var inner := CompileNode(child);
        r := if inner.Ok? then Ok(Negate(Coalesce(inner.value, Constant(false)))) else inner;
      case Text(text) =>
        var msg := Bind(Word(Pattern(text)));
        var raw := Bind(Word(Pattern(text)));
        r := Ok(Any([ILike(Column("msg"), msg), ILike(Column("raw"), raw)]));
      case Comparison(field, op, literal) =>
        r := Comparison(field, op, literal);
    }

    method Join(children: seq<Node>, ghost parent: Node) returns (r: Result<seq<Expr>, Error>)
      requires forall i :: 0 <= i < |children| ==> children[i] < parent
      modifies this`args
      ensures match CompileEach(lib, resolve, children, |old(args)|)
              case Ok((es, own)) => r == Ok(es) && args == old(args) + own
              case Err(e) => r == Err(e)
      decreases parent, 0
    {
      var parts: seq<Expr> := [];
      var i := 0;
      assert children[0..] == children;
      Begins(CompileEach(lib, resolve, children, |args|));
      assert args[|args|..] == [];
      while i < |children|
        invariant 0 <= i <= |children| && |old(args)| <= |args| && args[..|old(args)|] == old(args)
        invariant Continues(CompileEach(lib, resolve, children, |old(args)|), parts, args[|old(args)|..],
                            CompileEach(lib, resolve, children[i..], |args|))
      {
        ghost var sofar := args[|old(args)|..];
        ghost var from := |args|;
        var expr := CompileNode(children[i]);
        assert children[i..][1..] == children[i + 1..];
        if expr.Err? {
          return Err(expr.error);
        }
        ghost var own := Sql.Compile(lib, resolve, children[i], from).value.args;
        assert args[|old(args)|..] == sofar + own;
        Continued(lib, resolve, children[i..], from, parts, sofar);
        parts := parts + [expr.value];
        i := i + 1;
      }
      assert args == old(args) + args[|old(args)|..];
      assert parts + [] == parts && args[|old(args)|..] + [] == args[|old(args)|..];
      r := Ok(parts);
    }

    method Comparison(field: string, op: Op, literal: Literal) returns (r: Result<Expr, Error>)
      modifies this`args
      ensures match CompileComparison(lib, resolve, field, op, literal, |old(args)|)
              case Ok(c) => r == Ok(c.expr) && args == old(args) + c.args
              case Err(e) => r == Err(e)
    {
      var resolved := resolve(field);
      if resolved.Unresolved? {
        return Ok(Constant(false));
      }
      var expr, kind := resolved.expr, resolved.kind;
      if op == Exists {
        return Ok(IsNotNull(expr));
      }
      if literal.kind == KindNull {
        return if op == Equals then Ok(IsNull(expr)) else Err(NullNeedsEquals);
      }
      if op == Contains {
        var p := Bind(Word(Pattern(literal.str)));
        return Ok(ILike(Textual(expr, kind), p));
      }
      if op == Matches {
        if !lib.regexp(literal.str) {
          return Err(BadPattern);
        }
        var p := Bind(Word(literal.str));
        return Ok(RegexpMatches(Textual(expr, kind), p));
      }
      r := OrderedComparison(op, literal, expr, kind);
    }

    method OrderedComparison(op: Op, literal: Literal, expr: Expr, kind: FieldKind) returns (r: Result<Expr, Error>)
      modifies this`args
      ensures match Ordered(lib, op, literal, expr, kind, |old(args)|)
              case Ok(c) => r == Ok(c.expr) && args == old(args) + c.args
              case Err(e) => r == Err(e)
    {
      var bound;
      match kind
      case FieldSeverity =>
        var level := LevelOf(lib, literal);
        bound := Bind(if op == Equals then Word(level) else Whole(Rank(lib, level)));
        r := Ok(Compare(op, if op == Equals then expr else SeverityCase(expr), bound));
      case FieldNumber =>
        if literal.kind != KindNumber {
          return Ok(Constant(false));
        }
        bound := Bind(Real(literal.num));
        r := Ok(Compare(op, expr, bound));
      case FieldBool =>
        if literal.kind != KindBool {
          return Ok(Constant(false));
        }
        bound := Bind(Truth(literal.flag));
        r := Ok(Compare(op, expr, bound));
      case FieldTimestamp =>
        var at := lib.instant(literal.str);
        if at.None? {
          return Err(NotATimestamp);
        }
        bound := Bind(Moment(at.value));
        r := Ok(Compare(op, expr, bound));
      case _ =>
        if literal.kind == KindNumber {
          bound := Bind(Real(literal.num));
          r := Ok(Compare(op, TryNumber(expr), bound));
        } else {
          bound := Bind(Word(literal.str));
          r := Ok(Compare(op, expr, bound));
        }
    }
  }

  type Joined = Result<(seq<Expr>, seq<Val>), Error>

  /** What a whole list comes to, given what its first part did and what the rest will. */
  ghost predicate Continues(whole: Joined, parts: seq<Expr>, bound: seq<Val>, rest: Joined) {
    match rest
    case Err(e) => whole == Err(e)
    case Ok((es, args)) => whole == Ok((parts + es, bound + args))
  }

  lemma Begins(whole: Joined)
    ensures Continues(whole, [], [], whole)
  {
    if whole.Ok? {
      assert [] + whole.value.0 == whole.value.0 && [] + whole.value.1 == whole.value.1;
    }
  }

  lemma Continued(lib: Lib, resolve: string -> Resolution, nodes: seq<Node>, n: nat, parts: seq<Expr>, bound: seq<Val>)
    requires nodes != [] && Sql.Compile(lib, resolve, nodes[0], n).Ok?
    ensures var first := Sql.Compile(lib, resolve, nodes[0], n).value;
            forall whole :: Continues(whole, parts, bound, CompileEach(lib, resolve, nodes, n)) ==>
              Continues(whole, parts + [first.expr], bound + first.args, CompileEach(lib, resolve, nodes[1..], n + |first.args|))
  {
    var first := Sql.Compile(lib, resolve, nodes[0], n).value;
    match CompileEach(lib, resolve, nodes[1..], n + |first.args|)
    case Ok((es, args)) =>
      Assoc(parts, [first.expr], es);
      Assoc(bound, first.args, args);
    case Err(_) =>
  }
}
