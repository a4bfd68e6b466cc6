/**
 * The query language: its trees, and what they mean for a record as it passes by.
 *
 * What both compilers leave to a library -- case, patterns, reading and showing numbers, times and
 * JSON -- is a parameter they share.
 */
module Rql {
  import opened Prelude

  datatype Op = Equals | Contains | Matches | Less | LessEqual | Greater | GreaterEqual | Exists

  datatype Kind = KindString | KindNumber | KindBool | KindNull | KindWildcard

  /** An IEEE double, as far as order goes. */
  datatype Float = Finite(r: real) | Infinite(negative: bool) | NaN

  datatype Literal = Literal(kind: Kind, str: string, num: Float, flag: bool, quoted: bool)

  datatype Node =
    | Comparison(field: string, op: Op, value: Literal)
    | Text(text: string)
    | And(all: seq<Node>)
    | Or(any: seq<Node>)
    | Not(child: Node)

  datatype Value = NullValue | Str(s: string) | Int(i: int) | Number(f: Float) | Boolean(b: bool) | Json(document: string)

  /** A record in flight. Times are in microseconds, the precision storage keeps and comparisons truncate to. */
  datatype Record = Record(
    ts: int, ingestTs: int, seqno: int, stream: string, level: string, msg: string, host: string, raw: string,
    isObject: bool, fields: map<string, Value>)

  datatype Lib = Lib(
    fold: char -> char,
    upper: string -> string,
    trim: string -> string,
    regexp: string -> bool,
    matches: (string, string) -> bool,
    widen: int -> Float,
    number: string -> Option<Float>,
    truth: string -> Option<bool>,
    extract: (string, string) -> Option<string>,
    instant: string -> Option<int>,
    showInstant: int -> string,
    showInt: int -> string,
    showFloat: Float -> string,
    encode: string -> string,
    pino: int -> Option<string>,
    level: string -> string)

  datatype Error = NullNeedsEquals | BadPattern | NotATimestamp

  function Lower(lib: Lib, s: string): (r: string)
    ensures |r| == |s|
  {
    seq(|s|, i requires 0 <= i < |s| => lib.fold(s[i]))
  }

  predicate Within(s: string, needle: string) {
    needle <= s || (s != "" && Within(s[1..], needle))
  }

  // ---- severity ----

  const SeverityRank: map<string, int> := map[
    "TRACE" := 10, "DEBUG" := 20, "INFO" := 30, "NOTICE" := 35, "WARN" := 40,
    "ERROR" := 50, "CRITICAL" := 55, "ALERT" := 58, "EMERGENCY" := 60, "FATAL" := 60]

  const DefaultSeverityRank := 33

  function Rank(lib: Lib, level: string): int {
    var name := lib.upper(lib.trim(level));
    if name in SeverityRank then SeverityRank[name] else if level == "" then 0 else DefaultSeverityRank
  }

  /** A level literal as ingest would have stored it: a bare whole number is on pino's scale. */
  function LevelOf(lib: Lib, literal: Literal): string {
    if literal.kind == KindNumber && literal.num.Finite? && literal.num.r == literal.num.r.Floor as real && lib.pino(literal.num.r.Floor).Some?
    then lib.pino(literal.num.r.Floor).value
    else lib.level(literal.str)
  }

  predicate IsSeverityField(field: string) {
    field == "level" || field == "severity"
  }

  predicate IsTimestampField(field: string) {
    field == "ts" || field == "time" || field == "ingest_ts"
  }

  function TimestampOf(rec: Record, field: string): int {
    if field == "ingest_ts" then rec.ingestTs else rec.ts
  }

  // ---- comparing ----

  /** Go's < on doubles: nothing is less than NaN, nor it than anything. */
  predicate GoLess(a: Float, b: Float) {
    match (a, b)
    case (NaN, _) => false
    case (_, NaN) => false
    case (Finite(x), Finite(y)) => x < y
    case (Finite(_), Infinite(negative)) => !negative
    case (Infinite(negative), Finite(_)) => negative
    case (Infinite(n), Infinite(m)) => n && !m
  }

  predicate OrderIs(order: int, op: Op) {
    match op
    case Equals => order == 0
    case Less => order < 0
    case LessEqual => order <= 0
    case Greater => order > 0
    case GreaterEqual => order >= 0
    case _ => false
  }

  predicate CompareFloats(a: Float, b: Float, op: Op) {
    var order :=
      if a.NaN? && b.NaN? then 0
      else if a.NaN? || GoLess(b, a) then 1
      else if b.NaN? || GoLess(a, b) then -1
      else 0;
    OrderIs(order, op)
  }

  predicate CompareStrings(a: string, b: string, op: Op) {
    match op
    case Equals => a == b
    case Less => TextBefore(a, b)
    case LessEqual => a == b || TextBefore(a, b)
    case Greater => TextBefore(b, a)
    case GreaterEqual => a == b || TextBefore(b, a)
    case _ => false
  }

  predicate CompareBools(a: bool, b: bool, op: Op) {
    OrderIs(if a && !b then 1 else if !a && b then -1 else 0, op)
  }

  predicate CompareInts(a: int, b: int, op: Op) {
    OrderIs(if a < b then -1 else if a > b then 1 else 0, op)
  }

  /** A value as text. */
  function TextOf(lib: Lib, v: Value): string {
    match v
    case NullValue => ""
    case Str(s) => s
    case Int(i) => lib.showInt(i)
    case Number(f) => lib.showFloat(f)
    case Boolean(b) => if b then "true" else "false"
    case Json(d) => d
  }

  function NumericOf(lib: Lib, v: Value): Option<Float> {
    match v
    case Int(i) => Some(lib.widen(i))
    case Number(f) => Some(f)
    case Str(s) => lib.number(s)
    case Json(d) => lib.number(d)
    case _ => None
  }

  /** A number or a boolean answers only its own kind of literal; text reads a bare number as one. */
  predicate CompareValue(lib: Lib, v: Value, literal: Literal, op: Op) {
    if v.Int? || v.Number? then
      literal.kind == KindNumber && CompareFloats(NumericOf(lib, v).value, literal.num, op)
    else if v.Boolean? then
      literal.kind == KindBool && CompareBools(v.b, literal.flag, op)
    else if literal.kind == KindNumber then
      NumericOf(lib, v).Some? && CompareFloats(NumericOf(lib, v).value, literal.num, op)
    else
      CompareStrings(TextOf(lib, v), literal.str, op)
  }

  // ---- reading a record ----

  function Present(s: string): Option<Value> {
    if s == "" then None else Some(Str(s))
  }

  function Cut(field: string): Option<(string, string)> {
    if field == "" then None
    else if field[0] == '.' then Some(("", field[1..]))
    else match Cut(field[1..])
         case None => None
         case Some((head, tail)) => Some(([field[0]] + head, tail))
  }

  /** Envelope fields first, then promoted keys, then a path into a nested document. */
  function Lookup(lib: Lib, rec: Record, field: string): Option<Value> {
    if IsSeverityField(field) then Present(rec.level)
    else if field == "msg" || field == "message" then Present(rec.msg)
    else if field == "stream" then Some(Str(rec.stream))
    else if field == "host" then Present(rec.host)
    else if field == "raw" then Some(Str(rec.raw))
    else if field == "seq" then Some(Int(rec.seqno))
    else if IsTimestampField(field) then Some(Str(lib.showInstant(TimestampOf(rec, field))))
    else if field == "is_json" then Some(Boolean(rec.isObject))
    else if field in rec.fields then
      if rec.fields[field].NullValue? then None else Some(rec.fields[field])
    else
      match Cut(field)
      case Some((head, tail)) =>
        if head in rec.fields && rec.fields[head].Json? then
          match lib.extract(rec.fields[head].document, tail)
          case Some(text) => Some(Str(text))
          case None => None
        else None
      case None => None
  }

  // ---- the live predicate ----

  /** What compiling a query to a predicate refuses, the first such thing in reading order. */
  function Refused(lib: Lib, node: Node): Option<Error> {
    match node
    case Comparison(field, op, literal) =>
      if op == Exists then None
      else if literal.kind == KindNull then if op == Equals then None else Some(NullNeedsEquals)
      else if op == Matches then if lib.regexp(literal.str) then None else Some(BadPattern)
      else if op == Contains || IsSeverityField(field) then None
      else if IsTimestampField(field) then if lib.instant(literal.str).Some? then None else Some(NotATimestamp)
      else None
    case Text(_) => None
    case And(children) => FirstRefused(lib, children)
    case Or(children) => FirstRefused(lib, children)
    case Not(child) => Refused(lib, child)
  }

  function FirstRefused(lib: Lib, nodes: seq<Node>): Option<Error> {
    if nodes == [] then None
    else if Refused(lib, nodes[0]).Some? then Refused(lib, nodes[0])
    else FirstRefused(lib, nodes[1..])
  }

  predicate AcceptsComparison(lib: Lib, field: string, op: Op, literal: Literal, rec: Record) {
    var v := Lookup(lib, rec, field);
    if op == Exists then v.Some?
    else if literal.kind == KindNull then v.None?
    else if op == Matches then v.Some? && lib.matches(literal.str, TextOf(lib, v.value))
    else if op == Contains then v.Some? && Within(Lower(lib, TextOf(lib, v.value)), Lower(lib, literal.str))
    else if IsSeverityField(field) then
      var level := LevelOf(lib, literal);
      v.Some? &&
      if op == Equals then TextOf(lib, v.value) == level
      else CompareInts(Rank(lib, TextOf(lib, v.value)), Rank(lib, level), op)
    else if IsTimestampField(field) then
      lib.instant(literal.str).Some? && CompareInts(TimestampOf(rec, field), lib.instant(literal.str).value, op)
    else v.Some? && CompareValue(lib, v.value, literal, op)
  }

  /** Whether a record passes a query. */
  predicate Accepts(lib: Lib, node: Node, rec: Record) {
    match node
    case Comparison(field, op, literal) => AcceptsComparison(lib, field, op, literal, rec)
    case Text(text) => Within(Lower(lib, rec.msg), Lower(lib, text)) || Within(Lower(lib, rec.raw), Lower(lib, text))
    case And(children) => forall i :: 0 <= i < |children| ==> Accepts(lib, children[i], rec)
    case Or(children) => exists i :: 0 <= i < |children| && Accepts(lib, children[i], rec)
    case Not(child) => !Accepts(lib, child, rec)
  }
}
