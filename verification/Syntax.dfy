/**
 * The query language as text: lexing, parsing and printing.
 *
 * Positions in error messages are left out. What a space is, how case is folded, and how numbers are
 * read and shown are parameters.
 */
module Syntax {
  import opened Prelude
  import opened Rql

  datatype Text = Conventions(isSpace: char -> bool, lower: string -> string, decimal: string -> Option<Float>, show: Float -> string)

  /** adjacent: no space came before it. The end of input is the end of the tokens. */
  datatype Token =
    | Word(text: string, adjacent: bool)
    | Phrase(text: string, adjacent: bool)
    | Open(adjacent: bool)
    | Close(adjacent: bool)

  datatype ParseError =
    | Unterminated | Unexpected | AndNeedsMore | NotNeedsMore | EmptyParentheses | Unclosed | UnexpectedClose | UnexpectedEnd
    | NoField | NoValue | StarNeedsEquals

  // ---- operators ----

  predicate IsOperator(c: char) {
    c == '=' || c == ':' || c == '<' || c == '>'
  }

  /** The operator text begins with, the longer of two that fit, and its length. */
  function OperatorAt(s: string): (r: (Op, nat))
    requires s != "" && IsOperator(s[0])
    ensures 1 <= r.1 <= |s| && r.1 <= 2
  {
    var second := if |s| > 1 then s[1] else ' ';
    if s[0] == ':' then if second == '~' then (Matches, 2) else (Contains, 1)
    else if s[0] == '>' then if second == '=' then (GreaterEqual, 2) else (Greater, 1)
    else if s[0] == '<' then if second == '=' then (LessEqual, 2) else (Less, 1)
    else (Equals, 1)
  }

  datatype Chunk = Chunk(field: string, op: Op, rest: string)

  /** A chunk split at its leftmost operator. */
  function Split(s: string): Option<Chunk> {
    if s == "" then None
    else if IsOperator(s[0]) then Some(Chunk("", OperatorAt(s).0, s[OperatorAt(s).1..]))
    else
      match Split(s[1..])
      case None => None
      case Some(c) => Some(c.(field := [s[0]] + c.field))
  }

  /** Whether an apostrophe after this much of a chunk begins a quoted string. */
  predicate OpensQuote(prefix: string) {
    prefix == "-" || (Split(prefix).Some? && Split(prefix).value.rest == "")
  }

  // ---- lexing ----

  /** The text up to the closing quote, unescaped, and what follows it. */
  function LexQuoted(s: string, quote: char): (r: Option<(string, string)>)
    ensures r.Some? ==> |r.value.1| < |s|
  {
    if s == "" then None
    else if s[0] == '\\' then
      if |s| == 1 then None
      else
        match LexQuoted(s[2..], quote)
        case None => None
        case Some((text, rest)) => Some(([s[1]] + text, rest))
    else if s[0] == quote then Some(("", s[1..]))
    else
      match LexQuoted(s[1..], quote)
      case None => None
      case Some((text, rest)) => Some(([s[0]] + text, rest))
  }

  /** Whether a chunk that has come this far ends before its k-th character. */
  predicate Stops(t: Text, s: string, k: nat)
    requires k < |s|
  {
    t.isSpace(s[k]) || s[k] == '(' || s[k] == ')' || s[k] == '"' || (s[k] == '\'' && OpensQuote(s[..k]))
  }

  function WordEnd(t: Text, s: string, k: nat): (end: nat)
    requires k <= |s|
    ensures k <= end <= |s|
    ensures end < |s| ==> Stops(t, s, end)
    ensures forall j :: k <= j < end ==> !Stops(t, s, j)
    decreases |s| - k
  {
    if k == |s| || Stops(t, s, k) then k else WordEnd(t, s, k + 1)
  }

  function Prepend(tok: Token, r: Result<seq<Token>, ParseError>): Result<seq<Token>, ParseError> {
    match r
    case Ok(toks) => Ok([tok] + toks)
    case Err(e) => Err(e)
  }

  function Lex(t: Text, s: string, space: bool): Result<seq<Token>, ParseError>
    decreases |s|
  {
    if s == "" then Ok([])
    else if t.isSpace(s[0]) then Lex(t, s[1..], true)
    else if s[0] == '(' then Prepend(Open(!space), Lex(t, s[1..], false))
    else if s[0] == ')' then Prepend(Close(!space), Lex(t, s[1..], false))
    else if s[0] == '"' || s[0] == '\'' then
      match LexQuoted(s[1..], s[0])
      case None => Err(Unterminated)
      case Some((text, rest)) => Prepend(Phrase(text, !space), Lex(t, rest, false))
    else
      var end := WordEnd(t, s, 1);
      Prepend(Word(s[..end], !space), Lex(t, s[end..], false))
  }

  // ---- parsing ----

  function LiteralOf(t: Text, s: string): Literal {
    var lower := t.lower(s);
    if lower == "true" then Literal(KindBool, s, Finite(0.0), true, false)
    else if lower == "false" then Literal(KindBool, s, Finite(0.0), false, false)
    else if lower == "null" || lower == "nil" then Literal(KindNull, s, Finite(0.0), false, false)
    else if t.decimal(s).Some? then Literal(KindNumber, s, t.decimal(s).value, false, false)
    else Literal(KindString, s, Finite(0.0), false, false)
  }

  function Quoted(s: string): Literal {
    Literal(KindString, s, Finite(0.0), false, true)
  }

  const Star := Literal(KindWildcard, "", Finite(0.0), false, false)

  predicate Keyword(toks: seq<Token>, word: string) {
    toks != [] && toks[0].Word? && toks[0].text == word
  }

  type Parsed = Result<(Node, seq<Token>), ParseError>

  /** A word, and the quoted string its operator may be waiting for. */
  function ParseChunk(t: Text, text: string, rest: seq<Token>): (r: Parsed)
    ensures r.Ok? ==> |r.value.1| <= |rest|
  {
    match Split(text)
    case None => Ok((Node.Text(text), rest))
    case Some(c) =>
      if c.field == "" then Err(NoField)
      else if c.rest == "" then
        if rest != [] && rest[0].Phrase? && rest[0].adjacent then Ok((Comparison(c.field, c.op, Quoted(rest[0].text)), rest[1..]))
        else Err(NoValue)
      else if c.rest == "*" then
        if c.op != Equals then Err(StarNeedsEquals) else Ok((Comparison(c.field, Exists, Star), rest))
      else Ok((Comparison(c.field, c.op, LiteralOf(t, c.rest)), rest))
  }

  function ParsePrimary(t: Text, toks: seq<Token>): (r: Parsed)
    ensures r.Ok? ==> |r.value.1| < |toks|
    decreases |toks|, 0
  {
    if toks == [] then Err(UnexpectedEnd)
    else
      match toks[0]
      case Open(_) =>
        if toks[1..] != [] && toks[1].Close? then Err(EmptyParentheses)
        else
          (match ParseOr(t, toks[1..])
           case Err(e) => Err(e)
           case Ok((inner, rest)) =>
             if rest != [] && rest[0].Close? then Ok((inner, rest[1..])) else Err(Unclosed))
      case Close(_) => Err(UnexpectedClose)
      case Phrase(text, _) => Ok((Node.Text(text), toks[1..]))
      case Word(text, _) => ParseChunk(t, text, toks[1..])
  }

  function Negated(r: Parsed): Parsed {
    match r
    case Ok((child, rest)) => Ok((Not(child), rest))
    case Err(e) => Err(e)
  }

  /** A lone minus pressed against a phrase or a group. */
  predicate MinusBefore(toks: seq<Token>) {
    |toks| > 1 && toks[0].Word? && toks[0].text == "-" && toks[1].adjacent && (toks[1].Phrase? || toks[1].Open?)
  }

  function ParseUnary(t: Text, toks: seq<Token>): (r: Parsed)
    ensures r.Ok? ==> |r.value.1| < |toks|
    decreases |toks|, 1
  {
    if Keyword(toks, "NOT") then
      if toks[1..] == [] then Err(NotNeedsMore) else Negated(ParseUnary(t, toks[1..]))
    else if MinusBefore(toks) then Negated(ParsePrimary(t, toks[1..]))
    else if toks != [] && toks[0].Word? && |toks[0].text| > 1 && toks[0].text[0] == '-' then
      Negated(ParseChunk(t, toks[0].text[1..], toks[1..]))
    else ParsePrimary(t, toks)
  }

  function ParseAnd(t: Text, toks: seq<Token>): (r: Parsed)
    ensures r.Ok? ==> |r.value.1| < |toks|
    decreases |toks|, 2
  {
    match ParseUnary(t, toks)
    case Err(e) => Err(e)
    case Ok((first, rest)) => AndLoop(t, [first], rest)
  }

  predicate EndsAnd(toks: seq<Token>) {
    toks == [] || toks[0].Close? || Keyword(toks, "OR")
  }

  /** The terms after the first, with or without AND between them. */
  function AndLoop(t: Text, children: seq<Node>, toks: seq<Token>): (r: Parsed)
    requires children != []
    ensures r.Ok? ==> |r.value.1| <= |toks|
    decreases |toks|, 2
  {
    if EndsAnd(toks) then Ok((if |children| == 1 then children[0] else And(children), toks))
    else if Keyword(toks, "AND") && (toks[1..] == [] || toks[1].Close?) then Err(AndNeedsMore)
    else
      match ParseUnary(t, if Keyword(toks, "AND") then toks[1..] else toks)
      case Err(e) => Err(e)
      case Ok((next, rest)) => AndLoop(t, children + [next], rest)
  }

  function ParseOr(t: Text, toks: seq<Token>): (r: Parsed)
    ensures r.Ok? ==> |r.value.1| < |toks|
    decreases |toks|, 3
  {
    match ParseAnd(t, toks)
    case Err(e) => Err(e)
    case Ok((first, rest)) => OrLoop(t, [first], rest)
  }

  function OrLoop(t: Text, children: seq<Node>, toks: seq<Token>): (r: Parsed)
    requires children != []
    ensures r.Ok? ==> |r.value.1| <= |toks|
    decreases |toks|, 3
  {
    if !Keyword(toks, "OR") then Ok((if |children| == 1 then children[0] else Or(children), toks))
    else
      match ParseAnd(t, toks[1..])
      case Err(e) => Err(e)
      case Ok((next, rest)) => OrLoop(t, children + [next], rest)
  }

  /** An empty query is no node, and matches everything. */
  function ParseTokens(t: Text, toks: seq<Token>): Result<Option<Node>, ParseError> {
    if toks == [] then Ok(None)
    else
      match ParseOr(t, toks)
      case Err(e) => Err(e)
      case Ok((node, rest)) => if rest == [] then Ok(Some(node)) else Err(Unexpected)
  }

  function Parse(t: Text, s: string): Result<Option<Node>, ParseError> {
    match Lex(t, s, true)
    case Err(e) => Err(e)
    case Ok(toks) => ParseTokens(t, toks)
  }

  // ---- printing ----

  function EscapeQuotes(s: string, quote: char): string {
    if s == "" then ""
    else (if s[0] == '\\' || s[0] == quote then ['\\', s[0]] else [s[0]]) + EscapeQuotes(s[1..], quote)
  }

  function Between(quote: char, s: string): string {
    [quote] + EscapeQuotes(s, quote) + [quote]
  }

  function InQuotes(s: string): string {
    Between('"', s)
  }

  const Awkward := {' ', '\t', '"', '\'', '(', ')', '<', '>', '=', ':', '-'}

  predicate NeedsQuoting(s: string) {
    s == "" || exists i :: 0 <= i < |s| && s[i] in Awkward
  }

  predicate IsKeyword(s: string) {
    s == "AND" || s == "OR" || s == "NOT"
  }

  function ShowOp(op: Op): string {
    match op
    case Contains => ":"
    case Matches => ":~"
    case Less => "<"
    case LessEqual => "<="
    case Greater => ">"
    case GreaterEqual => ">="
    case Exists => "=*"
    case Equals => "="
  }

  function ShowLiteral(t: Text, l: Literal): string {
    match l.kind
    case KindNumber => t.show(l.num)
    case KindBool => if l.flag then "true" else "false"
    case KindNull => "null"
    case KindWildcard => "*"
    case KindString => if l.quoted || NeedsQuoting(l.str) then InQuotes(l.str) else l.str
  }

  function ShowText(s: string): string {
    if NeedsQuoting(s) || IsKeyword(s) then InQuotes(s) else s
  }

  function Show(t: Text, node: Node): string
    decreases node, 0
  {
    match node
    case Comparison(field, op, value) => if op == Exists then field + "=*" else field + ShowOp(op) + ShowLiteral(t, value)
    case Text(text) => ShowText(text)
    case Not(child) =>
      if child.Comparison? || child.Text? then "-" + Show(t, child) else "NOT (" + Show(t, child) + ")"
    case And(children) => ShowAll(t, children)
    case Or(children) => ShowAny(t, children)
  }

  /** A child in an And or an Or, in parentheses where precedence would change its meaning. */
  function Group(t: Text, node: Node, insideOr: bool): string
    decreases node, 1
  {
    if node.Or? || (node.And? && insideOr) then "(" + Show(t, node) + ")" else Show(t, node)
  }

  function ShowAll(t: Text, nodes: seq<Node>): string
    decreases nodes, 2
  {
    if nodes == [] then ""
    else if |nodes| == 1 then Group(t, nodes[0], false)
    else Group(t, nodes[0], false) + " " + ShowAll(t, nodes[1..])
  }

  function ShowAny(t: Text, nodes: seq<Node>): string
    decreases nodes, 2
  {
    if nodes == [] then ""
    else if |nodes| == 1 then Group(t, nodes[0], true)
    else Group(t, nodes[0], true) + " OR " + ShowAny(t, nodes[1..])
  }
}
