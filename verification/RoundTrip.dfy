/** Printing a query and parsing it back: the same query, in its canonical spelling. */
module RoundTrip {
  import opened Prelude
  import opened Rql
  import opened Syntax

  // ---- what is asked of the conventions ----

  const Marks := {'(', ')', '"', '\'', '-', '=', ':', '<', '>', '*', '~', 'A', 'N', 'D', 'O', 'R', 'T', 't', 'r', 'u', 'e', 'f', 'a', 'l', 's', 'n'}

  predicate Bare(t: Text, s: string) {
    forall i :: 0 <= i < |s| ==> !t.isSpace(s[i]) && s[i] !in {'(', ')', '"', '\''}
  }

  /** A number reads back from the way it is shown, which is a plain word. */
  predicate ShowsBack(t: Text, f: Float) {
    var s := t.show(f);
    && s != "" && s != "*" && Bare(t, s) && s[0] !in {'~', '='}
    && t.decimal(s) == Some(f)
    && t.lower(s) !in {"true", "false", "null", "nil"}
  }

  ghost predicate Sane(t: Text) {
    && t.isSpace(' ')
    && (forall c :: c in Marks ==> !t.isSpace(c))
    && (forall word :: word in {"true", "false", "null"} ==> t.lower(word) == word)
    && (forall s :: t.decimal(s).Some? ==> ShowsBack(t, t.decimal(s).value))
  }

  // ---- what the parser returns ----

  predicate FieldOk(t: Text, field: string, negated: bool) {
    && field != "" && field[0] != '\'' && (negated || field[0] != '-')
    && forall i :: 0 <= i < |field| ==> !t.isSpace(field[i]) && field[i] !in {'(', ')', '"'} && !IsOperator(field[i])
  }

  /** A value after an operator: quoted, or a word that is read as this literal and not as more operator. */
  predicate LiteralOk(t: Text, op: Op, l: Literal) {
    if l.quoted then l == Quoted(l.str)
    else
      && l == LiteralOf(t, l.str) && l.str != "" && l.str != "*"
      && (forall i :: 0 <= i < |l.str| ==> !t.isSpace(l.str[i]) && l.str[i] !in {'(', ')', '"'})
      && Fits(op, l.str)
  }

  /** Text that does not lengthen the operator it follows, nor open a quote after it. */
  predicate Fits(op: Op, s: string) {
    s != "" ==> s[0] != '\'' && (op == Contains ==> s[0] != '~') && (op == Less || op == Greater ==> s[0] != '=')
  }

  predicate Shape(t: Text, node: Node, negated: bool) {
    match node
    case Comparison(field, op, value) => FieldOk(t, field, negated) && if op == Exists then value == Star else LiteralOk(t, op, value)
    case Text(_) => true
    case Not(child) => Shape(t, child, true)
    case And(children) => |children| >= 2 && forall i :: 0 <= i < |children| ==> Shape(t, children[i], false)
    case Or(children) => |children| >= 2 && forall i :: 0 <= i < |children| ==> Shape(t, children[i], false)
  }

  /** A phrase that is shown without quotes is one word. */
  predicate PhraseOk(t: Text, s: string) {
    NeedsQuoting(s) || IsKeyword(s) || forall i :: 0 <= i < |s| ==> !t.isSpace(s[i])
  }

  predicate PhrasesOk(t: Text, node: Node) {
    match node
    case Comparison(_, _, _) => true
    case Text(s) => PhraseOk(t, s)
    case Not(child) => PhrasesOk(t, child)
    case And(children) => forall i :: 0 <= i < |children| ==> PhrasesOk(t, children[i])
    case Or(children) => forall i :: 0 <= i < |children| ==> PhrasesOk(t, children[i])
  }

  // ---- the canonical form ----

  function CanonLiteral(t: Text, l: Literal): Literal {
    match l.kind
    case KindNumber => Literal(KindNumber, t.show(l.num), l.num, false, false)
    case KindBool => Literal(KindBool, if l.flag then "true" else "false", Finite(0.0), l.flag, false)
    case KindNull => Literal(KindNull, "null", Finite(0.0), false, false)
    case KindWildcard => Star
    case KindString => if l.quoted || NeedsQuoting(l.str) then Quoted(l.str) else l
  }

  /** An And directly inside an And is one And; bare literals are respelled; a value that needs quotes has them. */
  function Canon(t: Text, node: Node): Node
    decreases node, 0
  {
    match node
    case Comparison(field, op, value) => Comparison(field, op, CanonLiteral(t, value))
    case Text(s) => Node.Text(s)
    case Not(child) => Not(Canon(t, child))
    case And(children) => And(CanonAll(t, children))
    case Or(children) => Or(CanonAny(t, children))
  }

  function Conjuncts(t: Text, node: Node): seq<Node>
    decreases node, 1
  {
    if node.And? then CanonAll(t, node.all) else [Canon(t, node)]
  }

  function CanonAll(t: Text, nodes: seq<Node>): seq<Node>
    decreases nodes, 2
  {
    if nodes == [] then [] else Conjuncts(t, nodes[0]) + CanonAll(t, nodes[1..])
  }

  function CanonAny(t: Text, nodes: seq<Node>): seq<Node>
    decreases nodes, 2
  {
    if nodes == [] then [] else [Canon(t, nodes[0])] + CanonAny(t, nodes[1..])
  }

  // ---- the tokens of a printed query ----

  function ComparisonToks(t: Text, minus: string, field: string, op: Op, value: Literal, adjacent: bool): seq<Token> {
    if op == Exists then [Word(minus + field + "=*", adjacent)]
    else if value.kind == KindString && (value.quoted || NeedsQuoting(value.str)) then [Word(minus + field + ShowOp(op), adjacent), Phrase(value.str, true)]
    else [Word(minus + field + ShowOp(op) + ShowLiteral(t, value), adjacent)]
  }

  function TextToks(minus: string, s: string, adjacent: bool): seq<Token> {
    if NeedsQuoting(s) || IsKeyword(s) then
      if minus == "" then [Phrase(s, adjacent)] else [Word(minus, adjacent), Phrase(s, true)]
    else [Word(minus + s, adjacent)]
  }

  function Toks(t: Text, node: Node, adjacent: bool): seq<Token>
    decreases node, 0
  {
    match node
    case Comparison(field, op, value) => ComparisonToks(t, "", field, op, value, adjacent)
    case Text(s) => TextToks("", s, adjacent)
    case Not(Comparison(field, op, value)) => ComparisonToks(t, "-", field, op, value, adjacent)
    case Not(Text(s)) => TextToks("-", s, adjacent)
    case Not(child) => [Word("NOT", adjacent), Open(false)] + Toks(t, child, true) + [Close(true)]
    case And(children) => ToksAll(t, children, adjacent)
    case Or(children) => ToksAny(t, children, adjacent)
  }

  function GroupToks(t: Text, node: Node, insideOr: bool, adjacent: bool): seq<Token>
    decreases node, 1
  {
    if node.Or? || (node.And? && insideOr) then [Open(adjacent)] + Toks(t, node, true) + [Close(true)] else Toks(t, node, adjacent)
  }

  function ToksAll(t: Text, nodes: seq<Node>, adjacent: bool): seq<Token>
    decreases nodes, 2
  {
    if nodes == [] then [] else GroupToks(t, nodes[0], false, adjacent) + ToksAll(t, nodes[1..], false)
  }

  function ToksAny(t: Text, nodes: seq<Node>, adjacent: bool): seq<Token>
    decreases nodes, 2
  {
    if nodes == [] then []
    else if |nodes| == 1 then GroupToks(t, nodes[0], true, adjacent)
    else GroupToks(t, nodes[0], true, adjacent) + [Word("OR", false)] + ToksAny(t, nodes[1..], false)
  }

  // ---- lexing one word or one quoted string ----

  predicate WordOk(t: Text, w: string) {
    && w != "" && !t.isSpace(w[0]) && w[0] !in {'(', ')', '"', '\''}
    && forall k :: 1 <= k < |w| ==> !Stops(t, w, k)
  }

  predicate Breaks(t: Text, rest: string) {
    rest == "" || t.isSpace(rest[0]) || rest[0] in {'(', ')', '"'}
  }

  function PrependAll(toks: seq<Token>, r: Result<seq<Token>, ParseError>): Result<seq<Token>, ParseError> {
    match r
    case Ok(more) => Ok(toks + more)
    case Err(e) => Err(e)
  }

  lemma LexWord(t: Text, w: string, rest: string, space: bool)
    requires WordOk(t, w) && Breaks(t, rest)
    ensures Lex(t, w + rest, space) == PrependAll([Word(w, !space)], Lex(t, rest, false))
  {
    var s := w + rest;
    var end := WordEnd(t, s, 1);
    forall k | 1 <= k < |w|
      ensures !Stops(t, s, k)
    {
      assert s[..k] == w[..k] && !Stops(t, w, k);
    }
    assert |w| < |s| ==> Stops(t, s, |w|);
    assert s[..|w|] == w && s[|w|..] == rest;
  }

  lemma {:induction false} LexEscaped(s: string, quote: char, rest: string)
    requires quote != '\\'
    ensures LexQuoted(EscapeQuotes(s, quote) + [quote] + rest, quote) == Some((s, rest))
  {
    if s == "" {
      assert (EscapeQuotes(s, quote) + [quote] + rest)[1..] == rest;
    } else {
      LexEscaped(s[1..], quote, rest);
      LexEscapedChar(s[0], quote, EscapeQuotes(s[1..], quote) + [quote] + rest);
      EscapedFirst(s, quote, rest);
      assert [s[0]] + s[1..] == s;
    }
  }

  function Escaped(c: char, quote: char): string {
    if c == '\\' || c == quote then ['\\', c] else [c]
  }

  lemma EscapedFirst(s: string, quote: char, rest: string)
    requires s != ""
    ensures EscapeQuotes(s, quote) + [quote] + rest == Escaped(s[0], quote) + (EscapeQuotes(s[1..], quote) + [quote] + rest)
  {
  }

  lemma LexEscapedChar(c: char, quote: char, after: string)
    requires quote != '\\'
    ensures LexQuoted(Escaped(c, quote) + after, quote) ==
            match LexQuoted(after, quote)
            case None => None
            case Some((text, rest)) => Some(([c] + text, rest))
  {
    if c == '\\' || c == quote {
      assert (Escaped(c, quote) + after)[2..] == after;
    } else {
      assert (Escaped(c, quote) + after)[1..] == after;
    }
  }

  /** A string in quotes of either kind is one phrase. */
  lemma LexBetween(t: Text, quote: char, s: string, rest: string, space: bool)
    requires (quote == '"' || quote == '\'') && !t.isSpace(quote)
    ensures Lex(t, Between(quote, s) + rest, space) == PrependAll([Phrase(s, !space)], Lex(t, rest, false))
  {
    LexEscaped(s, quote, rest);
    var all := Between(quote, s) + rest;
    assert all[0] == quote && all[1..] == EscapeQuotes(s, quote) + [quote] + rest;
  }

  lemma LexPhrase(t: Text, s: string, rest: string, space: bool)
    requires Sane(t)
    ensures Lex(t, InQuotes(s) + rest, space) == PrependAll([Phrase(s, !space)], Lex(t, rest, false))
  {
    assert '"' in Marks;
    LexBetween(t, '"', s, rest, space);
  }

  lemma PrependTwice(a: seq<Token>, b: seq<Token>, r: Result<seq<Token>, ParseError>)
    ensures PrependAll(a, PrependAll(b, r)) == PrependAll(a + b, r)
  {
    if r.Ok? {
      Assoc(a, b, r.value);
    }
  }

  // ---- splitting ----

  predicate NoOperator(s: string) {
    forall i :: 0 <= i < |s| ==> !IsOperator(s[i])
  }

  lemma {:induction false} SplitNone(s: string)
    requires NoOperator(s)
    ensures Split(s).None?
  {
    if s != "" {
      SplitNone(s[1..]);
    }
  }

  /** A field, an operator and what does not lengthen it split back into the three. */
  lemma OperatorFirst(op: Op, rest: string)
    requires op != Exists && Fits(op, rest)
    ensures Split(ShowOp(op) + rest) == Some(Chunk("", op, rest))
  {
    var s, n := ShowOp(op) + rest, |ShowOp(op)|;
    assert s[n..] == rest;
    assert n == 1 && rest != "" ==> s[1] == rest[0];
  }

  lemma {:induction false} SplitBack(field: string, op: Op, rest: string)
    requires NoOperator(field) && op != Exists && Fits(op, rest)
    ensures Split(field + ShowOp(op) + rest) == Some(Chunk(field, op, rest))
  {
    var s := field + ShowOp(op) + rest;
    if field == "" {
      assert s == ShowOp(op) + rest;
      OperatorFirst(op, rest);
    } else {
      SplitBack(field[1..], op, rest);
      assert s[1..] == field[1..] + ShowOp(op) + rest;
      assert [field[0]] + field[1..] == field;
    }
  }

  // ---- lexing a printed query ----

  /** A field and what follows it in its chunk are one word: no apostrophe in it opens a quote. */
  lemma FieldWord(t: Text, minus: string, field: string, tail: string)
    requires Sane(t) && (minus == "" || minus == "-") && FieldOk(t, field, minus == "-") && Bare(t, tail)
    ensures WordOk(t, minus + field + tail)
  {
    var w := minus + field + tail;
    assert w[0] == if minus == "" then field[0] else '-';
    forall k | 1 <= k < |w|
      ensures !Stops(t, w, k)
    {
      var m := |minus| + |field|;
      if k >= m {
        assert w[k] == tail[k - m];
      } else {
        assert w[k] == if k < |minus| then '-' else field[k - |minus|];
        assert forall j :: 0 <= j < k ==> w[..k][j] == if j < |minus| then '-' else field[j - |minus|];
        SplitNone(w[..k]);
        if w[..k] == "-" {
          assert w[0] == "-"[0];
        }
      }
    }
  }

  lemma BareLiteral(t: Text, op: Op, l: Literal)
    requires Sane(t) && LiteralOk(t, op, l) && !(l.kind == KindString && (l.quoted || NeedsQuoting(l.str)))
    ensures Bare(t, ShowLiteral(t, l)) && ShowLiteral(t, l) != "" && ShowLiteral(t, l) != "*" && Fits(op, ShowLiteral(t, l))
    ensures LiteralOf(t, ShowLiteral(t, l)) == CanonLiteral(t, l)
  {
    assert t.lower("true") == "true" && t.lower("false") == "false" && t.lower("null") == "null";
    assert l == LiteralOf(t, l.str);
    if l.kind == KindNumber {
      assert ShowsBack(t, t.decimal(l.str).value);
    }
  }

  lemma OpBare(t: Text, op: Op)
    requires Sane(t)
    ensures Bare(t, ShowOp(op)) && ShowOp(op) != "" && (op != Exists ==> IsOperator(ShowOp(op)[0]))
  {
  }

  lemma BareJoins(t: Text, a: string, b: string)
    requires Bare(t, a) && Bare(t, b)
    ensures Bare(t, a + b)
  {
  }

  /** A comparison that is one word. */
  lemma LexBare(t: Text, minus: string, field: string, tail: string, rest: string, space: bool)
    requires Sane(t) && (minus == "" || minus == "-") && FieldOk(t, field, minus == "-") && Breaks(t, rest) && Bare(t, tail)
    ensures Lex(t, minus + (field + tail) + rest, space) == PrependAll([Word(minus + (field + tail), !space)], Lex(t, rest, false))
  {
    FieldWord(t, minus, field, tail);
    Assoc(minus, field, tail);
    LexWord(t, minus + (field + tail), rest, space);
  }

  /** A comparison that is a word and a quoted string. */
  lemma LexQuotedComparison(t: Text, minus: string, field: string, op: Op, s: string, rest: string, space: bool)
    requires Sane(t) && (minus == "" || minus == "-") && FieldOk(t, field, minus == "-")
    ensures Lex(t, minus + (field + ShowOp(op) + InQuotes(s)) + rest, space) ==
            PrependAll([Word(minus + field + ShowOp(op), !space), Phrase(s, true)], Lex(t, rest, false))
  {
    var w := minus + field + ShowOp(op);
    OpBare(t, op);
    FieldWord(t, minus, field, ShowOp(op));
    LexWordPhrase(t, w, s, rest, space);
    Assoc(minus, field + ShowOp(op), InQuotes(s));
    Assoc(minus, field, ShowOp(op));
  }

  lemma LexWordPhrase(t: Text, w: string, s: string, rest: string, space: bool)
    requires Sane(t) && WordOk(t, w)
    ensures Lex(t, w + InQuotes(s) + rest, space) == PrependAll([Word(w, !space), Phrase(s, true)], Lex(t, rest, false))
  {
    assert (InQuotes(s) + rest)[0] == '"';
    LexWord(t, w, InQuotes(s) + rest, space);
    LexPhrase(t, s, rest, false);
    PrependTwice([Word(w, !space)], [Phrase(s, true)], Lex(t, rest, false));
    Assoc(w, InQuotes(s), rest);
    assert [Word(w, !space)] + [Phrase(s, true)] == [Word(w, !space), Phrase(s, true)];
  }

  lemma LexComparison(t: Text, minus: string, field: string, op: Op, value: Literal, rest: string, space: bool)
    requires Sane(t) && (minus == "" || minus == "-") && FieldOk(t, field, minus == "-") && Breaks(t, rest)
    requires if op == Exists then value == Star else LiteralOk(t, op, value)
    ensures Lex(t, minus + Show(t, Comparison(field, op, value)) + rest, space) ==
            PrependAll(ComparisonToks(t, minus, field, op, value, !space), Lex(t, rest, false))
  {
    if op == Exists {
      LexBare(t, minus, field, "=*", rest, space);
      Assoc(minus, field, "=*");
    } else if value.kind == KindString && (value.quoted || NeedsQuoting(value.str)) {
      LexQuotedComparison(t, minus, field, op, value.str, rest, space);
    } else {
      var tail := ShowOp(op) + ShowLiteral(t, value);
      OpBare(t, op);
      BareLiteral(t, op, value);
      BareJoins(t, ShowOp(op), ShowLiteral(t, value));
      LexBare(t, minus, field, tail, rest, space);
      Assoc(field, ShowOp(op), ShowLiteral(t, value));
      Assoc(minus, field, tail);
      Assoc(minus + field, ShowOp(op), ShowLiteral(t, value));
    }
  }

  lemma TextWord(t: Text, minus: string, s: string)
    requires Sane(t) && (minus == "" || minus == "-") && PhraseOk(t, s) && !NeedsQuoting(s) && !IsKeyword(s)
    ensures WordOk(t, minus + s)
  {
    var w := minus + s;
    forall k | 0 <= k < |w|
      ensures !t.isSpace(w[k]) && w[k] !in {'(', ')', '"', '\''}
    {
      assert w[k] == if k < |minus| then '-' else s[k - |minus|];
    }
  }

  lemma LexText(t: Text, minus: string, s: string, rest: string, space: bool)
    requires Sane(t) && (minus == "" || minus == "-") && PhraseOk(t, s) && Breaks(t, rest)
    ensures Lex(t, minus + ShowText(s) + rest, space) == PrependAll(TextToks(minus, s, !space), Lex(t, rest, false))
  {
    if !NeedsQuoting(s) && !IsKeyword(s) {
      TextWord(t, minus, s);
      LexWord(t, minus + s, rest, space);
    } else if minus == "" {
      assert minus + ShowText(s) + rest == InQuotes(s) + rest;
      LexPhrase(t, s, rest, space);
    } else {
      LexWordPhrase(t, minus, s, rest, space);
    }
  }

  /** A printed query ends its last token: what follows it is nothing, a space or a parenthesis. */
  predicate Follows(rest: string) {
    rest == "" || rest[0] == ' ' || rest[0] == ')'
  }

  lemma LexSpace(t: Text, rest: string, space: bool)
    requires Sane(t)
    ensures Lex(t, " " + rest, space) == Lex(t, rest, true)
  {
    assert (" " + rest)[1..] == rest;
  }

  lemma LexOpen(t: Text, rest: string, space: bool)
    requires Sane(t)
    ensures Lex(t, "(" + rest, space) == PrependAll([Open(!space)], Lex(t, rest, false))
  {
    assert ("(" + rest)[1..] == rest;
  }

  lemma LexClose(t: Text, rest: string, space: bool)
    requires Sane(t)
    ensures Lex(t, ")" + rest, space) == PrependAll([Close(!space)], Lex(t, rest, false))
  {
    assert (")" + rest)[1..] == rest;
  }

  /** A node in parentheses. */
  lemma {:induction false} LexParens(t: Text, node: Node, rest: string, space: bool)
    requires Sane(t) && Shape(t, node, false) && PhrasesOk(t, node)
    ensures Lex(t, "(" + Show(t, node) + ")" + rest, space) == PrependAll([Open(!space)] + Toks(t, node, true) + [Close(true)], Lex(t, rest, false))
    decreases node, 1
  {
    var shown, toks := Show(t, node), Toks(t, node, true);
    LexShow(t, node, ")" + rest, false);
    LexClose(t, rest, false);
    PrependTwice(toks, [Close(true)], Lex(t, rest, false));
    LexOpen(t, shown + (")" + rest), space);
    PrependTwice([Open(!space)], toks + [Close(true)], Lex(t, rest, false));
    ParensPieces(shown, rest, toks, !space);
  }

  lemma ParensPieces(shown: string, rest: string, toks: seq<Token>, adjacent: bool)
    ensures "(" + shown + ")" + rest == "(" + (shown + (")" + rest))
    ensures [Open(adjacent)] + (toks + [Close(true)]) == [Open(adjacent)] + toks + [Close(true)]
  {
  }

  lemma LexNotGroup(t: Text, child: Node, rest: string, space: bool)
    requires Sane(t) && Shape(t, child, false) && PhrasesOk(t, child)
    ensures Lex(t, "NOT (" + Show(t, child) + ")" + rest, space) ==
            PrependAll([Word("NOT", !space), Open(false)] + Toks(t, child, true) + [Close(true)], Lex(t, rest, false))
    decreases child, 2
  {
    var inner := "(" + Show(t, child) + ")" + rest;
    var toks := Toks(t, child, true);
    LexNotWord(t, inner, space);
    LexParens(t, child, rest, true);
    PrependTwice([Word("NOT", !space)], [Open(false)] + toks + [Close(true)], Lex(t, rest, false));
    NotPieces(Show(t, child), rest, toks, !space);
  }

  lemma LexNotWord(t: Text, inner: string, space: bool)
    requires Sane(t)
    ensures Lex(t, "NOT " + inner, space) == PrependAll([Word("NOT", !space)], Lex(t, inner, true))
  {
    assert "NOT " + inner == "NOT" + (" " + inner);
    LexWord(t, "NOT", " " + inner, space);
    LexSpace(t, inner, false);
  }

  lemma NotPieces(shown: string, rest: string, toks: seq<Token>, adjacent: bool)
    ensures "NOT (" + shown + ")" + rest == "NOT " + ("(" + shown + ")" + rest)
    ensures [Word("NOT", adjacent)] + ([Open(false)] + toks + [Close(true)]) == [Word("NOT", adjacent), Open(false)] + toks + [Close(true)]
  {
  }

  lemma LexNot(t: Text, child: Node, rest: string, space: bool)
    requires Sane(t) && Shape(t, child, true) && PhrasesOk(t, child) && Follows(rest)
    ensures Lex(t, Show(t, Not(child)) + rest, space) == PrependAll(Toks(t, Not(child), !space), Lex(t, rest, false))
    decreases child, 3
  {
    match child
    case Comparison(field, op, value) => LexComparison(t, "-", field, op, value, rest, space);
    case Text(s) => LexText(t, "-", s, rest, space);
    case _ => LexNotGroup(t, child, rest, space);
  }

  /** The tokens of a printed query are the ones expected, whatever follows. */
  lemma {:induction false} LexShow(t: Text, node: Node, rest: string, space: bool)
    requires Sane(t) && Shape(t, node, false) && PhrasesOk(t, node) && Follows(rest)
    ensures Lex(t, Show(t, node) + rest, space) == PrependAll(Toks(t, node, !space), Lex(t, rest, false))
    decreases node, 0
  {
    match node
    case Comparison(field, op, value) =>
      LexComparison(t, "", field, op, value, rest, space);
      assert "" + Show(t, node) == Show(t, node);
    case Text(s) =>
      LexText(t, "", s, rest, space);
      assert "" + ShowText(s) == ShowText(s);
    case Not(child) => LexNot(t, child, rest, space);
    case And(children) => LexAll(t, children, rest, space);
    case Or(children) => LexAny(t, children, rest, space);
  }

  lemma LexGroup(t: Text, node: Node, insideOr: bool, rest: string, space: bool)
    requires Sane(t) && Shape(t, node, false) && PhrasesOk(t, node) && Follows(rest)
    ensures Lex(t, Group(t, node, insideOr) + rest, space) == PrependAll(GroupToks(t, node, insideOr, !space), Lex(t, rest, false))
    decreases node, 2
  {
    if node.Or? || (node.And? && insideOr) {
      LexParens(t, node, rest, space);
    } else {
      LexShow(t, node, rest, space);
    }
  }

  lemma {:induction false} LexAll(t: Text, nodes: seq<Node>, rest: string, space: bool)
    requires Sane(t) && nodes != [] && Follows(rest) && forall i :: 0 <= i < |nodes| ==> Shape(t, nodes[i], false) && PhrasesOk(t, nodes[i])
    ensures Lex(t, ShowAll(t, nodes) + rest, space) == PrependAll(ToksAll(t, nodes, !space), Lex(t, rest, false))
    decreases nodes, 3
  {
    if |nodes| == 1 {
      LexGroup(t, nodes[0], false, rest, space);
      assert nodes[1..] == [] && GroupToks(t, nodes[0], false, !space) + [] == GroupToks(t, nodes[0], false, !space);
    } else {
      var more := ShowAll(t, nodes[1..]) + rest;
      assert ShowAll(t, nodes) + rest == Group(t, nodes[0], false) + (" " + more);
      LexGroup(t, nodes[0], false, " " + more, space);
      LexSpace(t, more, false);
      LexAll(t, nodes[1..], rest, true);
      PrependTwice(GroupToks(t, nodes[0], false, !space), ToksAll(t, nodes[1..], false), Lex(t, rest, false));
    }
  }

  lemma {:induction false} LexAny(t: Text, nodes: seq<Node>, rest: string, space: bool)
    requires Sane(t) && nodes != [] && Follows(rest) && forall i :: 0 <= i < |nodes| ==> Shape(t, nodes[i], false) && PhrasesOk(t, nodes[i])
    ensures Lex(t, ShowAny(t, nodes) + rest, space) == PrependAll(ToksAny(t, nodes, !space), Lex(t, rest, false))
    decreases nodes, 3
  {
    if |nodes| == 1 {
      LexGroup(t, nodes[0], true, rest, space);
    } else {
      var more := ShowAny(t, nodes[1..]) + rest;
      LexOr(t, more);
      assert ShowAny(t, nodes) + rest == Group(t, nodes[0], true) + (" OR " + more);
      LexGroup(t, nodes[0], true, " OR " + more, space);
      LexAny(t, nodes[1..], rest, true);
      PrependTwice([Word("OR", false)], ToksAny(t, nodes[1..], false), Lex(t, rest, false));
      PrependTwice(GroupToks(t, nodes[0], true, !space), [Word("OR", false)] + ToksAny(t, nodes[1..], false), Lex(t, rest, false));
      Assoc(GroupToks(t, nodes[0], true, !space), [Word("OR", false)], ToksAny(t, nodes[1..], false));
    }
  }

  lemma LexOr(t: Text, more: string)
    requires Sane(t)
    ensures Lex(t, " OR " + more, false) == PrependAll([Word("OR", false)], Lex(t, more, true))
  {
    assert " OR " + more == " " + ("OR" + (" " + more));
    LexSpace(t, "OR" + (" " + more), false);
    LexWord(t, "OR", " " + more, true);
    LexSpace(t, more, false);
  }

  // ---- parsing the tokens of a printed query ----

  lemma ExistsChunk(t: Text, field: string, more: seq<Token>)
    requires FieldOk(t, field, true)
    ensures ParseChunk(t, field + "=*", more) == Ok((Comparison(field, Exists, Star), more))
  {
    SplitBack(field, Equals, "*");
    assert field + "=*" == field + ShowOp(Equals) + "*";
  }

  lemma QuotedChunk(t: Text, field: string, op: Op, s: string, more: seq<Token>)
    requires FieldOk(t, field, true) && op != Exists
    ensures ParseChunk(t, field + ShowOp(op), [Phrase(s, true)] + more) == Ok((Comparison(field, op, Quoted(s)), more))
  {
    SplitBack(field, op, "");
    assert field + ShowOp(op) == field + ShowOp(op) + "";
    assert ([Phrase(s, true)] + more)[1..] == more;
  }

  lemma BareChunk(t: Text, field: string, op: Op, text: string, more: seq<Token>)
    requires FieldOk(t, field, true) && op != Exists && Fits(op, text) && text != "" && text != "*"
    ensures ParseChunk(t, field + ShowOp(op) + text, more) == Ok((Comparison(field, op, LiteralOf(t, text)), more))
  {
    SplitBack(field, op, text);
  }

  /** The chunk of a printed comparison, minus and all taken off. */
  lemma ChunkParses(t: Text, field: string, op: Op, value: Literal, more: seq<Token>)
    requires Sane(t) && FieldOk(t, field, true) && if op == Exists then value == Star else LiteralOk(t, op, value)
    ensures var toks := ComparisonToks(t, "", field, op, value, false);
            ParseChunk(t, toks[0].text, toks[1..] + more) == Ok((Canon(t, Comparison(field, op, value)), more))
  {
    var toks := ComparisonToks(t, "", field, op, value, false);
    assert "" + field == field && [] + more == more;
    if op == Exists {
      ExistsChunk(t, field, more);
    } else if value.kind == KindString && (value.quoted || NeedsQuoting(value.str)) {
      QuotedChunk(t, field, op, value.str, more);
      assert toks[1..] == [Phrase(value.str, true)];
    } else {
      BareLiteral(t, op, value);
      BareChunk(t, field, op, ShowLiteral(t, value), more);
    }
  }

  /** A word that holds an operator is no keyword and no lone minus. */
  lemma OperatorWord(w: string, i: nat)
    requires i < |w| && IsOperator(w[i])
    ensures !IsKeyword(w) && w != "-"
  {
  }

  /** The word of a printed comparison, with and without its minus. */
  lemma ComparisonText(t: Text, minus: string, field: string, op: Op, value: Literal, adjacent: bool)
    ensures var toks, plain := ComparisonToks(t, minus, field, op, value, adjacent), ComparisonToks(t, "", field, op, value, false);
            toks[0].Word? && plain[0].Word? && toks[0].text == minus + plain[0].text && toks[1..] == plain[1..]
  {
    assert "" + field == field;
    Assoc(minus, field, "=*");
    Assoc(minus, field, ShowOp(op));
    Assoc(minus, field + ShowOp(op), ShowLiteral(t, value));
  }

  lemma ComparisonHead(t: Text, minus: string, field: string, op: Op, value: Literal, adjacent: bool)
    requires FieldOk(t, field, true) && (minus == "" || minus == "-")
    ensures var toks, plain := ComparisonToks(t, minus, field, op, value, adjacent), ComparisonToks(t, "", field, op, value, false);
            && toks[0].Word? && plain[0].Word? && toks[0].text == minus + plain[0].text && toks[1..] == plain[1..]
            && !IsKeyword(toks[0].text) && toks[0].text != "-" && |plain[0].text| > 0 && plain[0].text[0] == field[0]
  {
    ComparisonText(t, minus, field, op, value, adjacent);
    ComparisonStarts(t, field, op, value);
    HeadHasOperator(minus, field, op, ComparisonToks(t, "", field, op, value, false)[0].text);
  }

  lemma ComparisonStarts(t: Text, field: string, op: Op, value: Literal)
    ensures field + ShowOp(op) <= ComparisonToks(t, "", field, op, value, false)[0].text
  {
    assert "" + field == field;
  }

  lemma HeadHasOperator(minus: string, field: string, op: Op, plain: string)
    requires field != "" && field + ShowOp(op) <= plain
    ensures !IsKeyword(minus + plain) && minus + plain != "-" && plain[0] == field[0]
  {
    var w, k := minus + plain, |minus| + |field|;
    assert w[k] == plain[|field|] == (field + ShowOp(op))[|field|] == ShowOp(op)[0];
    OperatorWord(w, k);
  }

  /** A comparison or a phrase, alone or negated, parses as one term. */
  lemma SimpleParses(t: Text, node: Node, adjacent: bool, more: seq<Token>)
    requires Sane(t) && Shape(t, node, false) && PhrasesOk(t, node)
    requires node.Comparison? || node.Text? || (node.Not? && (node.child.Comparison? || node.child.Text?))
    ensures ParseUnary(t, Toks(t, node, adjacent) + more) == Ok((Canon(t, node), more))
  {
    match node
    case Comparison(field, op, value) => PlainComparisonParses(t, field, op, value, adjacent, more);
    case Text(s) => PlainTextParses(t, s, adjacent, more);
    case Not(Comparison(field, op, value)) => MinusComparisonParses(t, field, op, value, adjacent, more);
    case Not(Text(s)) => MinusTextParses(t, s, adjacent, more);
  }

  lemma {:induction false} PlainComparisonParses(t: Text, field: string, op: Op, value: Literal, adjacent: bool, more: seq<Token>)
    requires Sane(t) && FieldOk(t, field, false) && if op == Exists then value == Star else LiteralOk(t, op, value)
    ensures ParseUnary(t, ComparisonToks(t, "", field, op, value, adjacent) + more) == Ok((Canon(t, Comparison(field, op, value)), more))
  {
    var toks := ComparisonToks(t, "", field, op, value, adjacent);
    ComparisonHead(t, "", field, op, value, adjacent);
    ChunkParses(t, field, op, value, more);
    assert (toks + more)[1..] == toks[1..] + more;
  }

  lemma MinusComparisonParses(t: Text, field: string, op: Op, value: Literal, adjacent: bool, more: seq<Token>)
    requires Sane(t) && FieldOk(t, field, true) && if op == Exists then value == Star else LiteralOk(t, op, value)
    ensures ParseUnary(t, ComparisonToks(t, "-", field, op, value, adjacent) + more) == Ok((Not(Canon(t, Comparison(field, op, value))), more))
  {
    var toks := ComparisonToks(t, "-", field, op, value, adjacent);
    ComparisonHead(t, "-", field, op, value, adjacent);
    ChunkParses(t, field, op, value, more);
    assert (toks + more)[1..] == toks[1..] + more;
    assert toks[0].text[1..] == ComparisonToks(t, "", field, op, value, false)[0].text;
  }

  lemma PlainIsNoOperator(s: string)
    requires !NeedsQuoting(s)
    ensures Split(s).None? && s != "" && s[0] != '-'
  {
    forall i | 0 <= i < |s|
      ensures !IsOperator(s[i])
    {
      assert s[i] !in Awkward;
    }
    assert s[0] !in Awkward;
    SplitNone(s);
  }

  lemma PlainTextParses(t: Text, s: string, adjacent: bool, more: seq<Token>)
    ensures ParseUnary(t, TextToks("", s, adjacent) + more) == Ok((Node.Text(s), more))
  {
    var toks := TextToks("", s, adjacent);
    assert (toks + more)[1..] == more;
    if !NeedsQuoting(s) && !IsKeyword(s) {
      PlainIsNoOperator(s);
      assert "" + s == s;
    }
  }

  lemma MinusTextParses(t: Text, s: string, adjacent: bool, more: seq<Token>)
    ensures ParseUnary(t, TextToks("-", s, adjacent) + more) == Ok((Not(Node.Text(s)), more))
  {
    var toks := TextToks("-", s, adjacent);
    if NeedsQuoting(s) || IsKeyword(s) {
      assert (toks + more)[1..] == [Phrase(s, true)] + more;
      assert ([Phrase(s, true)] + more)[1..] == more;
    } else {
      var w := "-" + s;
      PlainIsNoOperator(s);
      assert toks == [Word(w, adjacent)] && (toks + more)[1..] == more;
      assert w[0] == '-' && w[1..] == s && w != "NOT";
    }
  }

  /** A printed query begins a term: not with a closing parenthesis, nor with AND or OR. */
  lemma {:induction false} TermBegins(t: Text, node: Node, adjacent: bool)
    requires Shape(t, node, true)
    ensures var toks := Toks(t, node, adjacent);
            toks != [] && !toks[0].Close? && !(toks[0].Word? && (toks[0].text == "AND" || toks[0].text == "OR"))
    decreases node, 0
  {
    match node
    case Comparison(field, op, value) => ComparisonHead(t, "", field, op, value, adjacent);
    case Text(s) => assert "" + s == s;
    case Not(Comparison(field, op, value)) => ComparisonHead(t, "-", field, op, value, adjacent);
    case Not(Text(s)) => assert ("-" + s)[0] == '-';
    case Not(_) =>
    case And(children) => GroupBegins(t, children[0], false, adjacent);
    case Or(children) => GroupBegins(t, children[0], true, adjacent);
  }

  lemma {:induction false} GroupBegins(t: Text, node: Node, insideOr: bool, adjacent: bool)
    requires Shape(t, node, false)
    ensures var toks := GroupToks(t, node, insideOr, adjacent);
            toks != [] && !toks[0].Close? && !(toks[0].Word? && (toks[0].text == "AND" || toks[0].text == "OR"))
    decreases node, 1
  {
    TermBegins(t, node, adjacent);
  }

  /** The first part of some tokens parsed as a term, the loop of an And goes on with it. */
  lemma AndTakes(t: Text, done: seq<Node>, toks: seq<Token>, next: Node, more: seq<Token>)
    requires done != [] && ParseUnary(t, toks) == Ok((next, more))
    requires toks != [] && !toks[0].Close? && !(toks[0].Word? && (toks[0].text == "AND" || toks[0].text == "OR"))
    ensures AndLoop(t, done, toks) == AndLoop(t, done + [next], more)
  {
  }

  /** A group in parentheses parses as what it holds. */
  lemma {:induction false} ParensParse(t: Text, node: Node, adjacent: bool, more: seq<Token>)
    requires Sane(t) && Shape(t, node, false) && PhrasesOk(t, node)
    ensures ParsePrimary(t, [Open(adjacent)] + Toks(t, node, true) + [Close(true)] + more) == Ok((Canon(t, node), more))
    decreases node, 6
  {
    var inner := Toks(t, node, true);
    var toks := [Open(adjacent)] + inner + [Close(true)] + more;
    TermBegins(t, node, true);
    assert toks[1..] == inner + ([Close(true)] + more);
    assert toks[1] == inner[0];
    OrParses(t, node, true, [Close(true)] + more);
    assert ([Close(true)] + more)[1..] == more;
  }

  /** Anything but a bare And or Or parses as one term. */
  lemma {:induction false} UnaryParses(t: Text, node: Node, adjacent: bool, more: seq<Token>)
    requires Sane(t) && Shape(t, node, false) && PhrasesOk(t, node) && !node.And? && !node.Or?
    ensures ParseUnary(t, Toks(t, node, adjacent) + more) == Ok((Canon(t, node), more))
    decreases node, 0
  {
    if node.Not? && !node.child.Comparison? && !node.child.Text? {
      var inner := [Open(false)] + Toks(t, node.child, true) + [Close(true)] + more;
      ParensParse(t, node.child, false, more);
      assert Toks(t, node, adjacent) + more == [Word("NOT", adjacent)] + inner;
      assert ([Word("NOT", adjacent)] + inner)[1..] == inner;
      assert ParseUnary(t, inner) == ParsePrimary(t, inner);
    } else {
      SimpleParses(t, node, adjacent, more);
    }
  }

  /** The loop of an And over one printed child: its conjuncts, if it is an And itself. */
  lemma {:induction false} AndLoopChild(t: Text, done: seq<Node>, node: Node, adjacent: bool, more: seq<Token>)
    requires Sane(t) && Shape(t, node, false) && PhrasesOk(t, node) && done != []
    ensures AndLoop(t, done, GroupToks(t, node, false, adjacent) + more) == AndLoop(t, done + Conjuncts(t, node), more)
    decreases node, 7
  {
    var toks := GroupToks(t, node, false, adjacent);
    GroupBegins(t, node, false, adjacent);
    if node.And? {
      AndLoopParses(t, done, node.all, adjacent, more);
    } else if node.Or? {
      ParensParse(t, node, adjacent, more);
      AndTakes(t, done, toks + more, Canon(t, node), more);
    } else {
      UnaryParses(t, node, adjacent, more);
      AndTakes(t, done, toks + more, Canon(t, node), more);
    }
  }

  lemma {:induction false} AndLoopParses(t: Text, done: seq<Node>, nodes: seq<Node>, adjacent: bool, more: seq<Token>)
    requires Sane(t) && done != [] && forall i :: 0 <= i < |nodes| ==> Shape(t, nodes[i], false) && PhrasesOk(t, nodes[i])
    ensures AndLoop(t, done, ToksAll(t, nodes, adjacent) + more) == AndLoop(t, done + CanonAll(t, nodes), more)
    decreases nodes, 8
  {
    if nodes == [] {
      assert ToksAll(t, nodes, adjacent) + more == more;
      assert done + CanonAll(t, nodes) == done;
    } else {
      var rest := ToksAll(t, nodes[1..], false) + more;
      Assoc(GroupToks(t, nodes[0], false, adjacent), ToksAll(t, nodes[1..], false), more);
      AndLoopChild(t, done, nodes[0], adjacent, rest);
      AndLoopParses(t, done + Conjuncts(t, nodes[0]), nodes[1..], false, more);
      Assoc(done, Conjuncts(t, nodes[0]), CanonAll(t, nodes[1..]));
    }
  }

  lemma {:induction false} CanonAllSize(t: Text, nodes: seq<Node>)
    requires forall i :: 0 <= i < |nodes| ==> Shape(t, nodes[i], false)
    ensures |CanonAll(t, nodes)| >= |nodes|
    decreases nodes
  {
    if nodes != [] {
      if nodes[0].And? {
        CanonAllSize(t, nodes[0].all);
      }
      CanonAllSize(t, nodes[1..]);
    }
  }

  /** A printed list of conjuncts: its first term, and the loop over the others. */
  lemma {:induction false} AndParses(t: Text, nodes: seq<Node>, adjacent: bool, more: seq<Token>)
    requires Sane(t) && nodes != [] && forall i :: 0 <= i < |nodes| ==> Shape(t, nodes[i], false) && PhrasesOk(t, nodes[i])
    ensures CanonAll(t, nodes) != []
    ensures ParseAnd(t, ToksAll(t, nodes, adjacent) + more) == AndLoop(t, CanonAll(t, nodes), more)
    decreases nodes, 8
  {
    var node, rest := nodes[0], ToksAll(t, nodes[1..], false) + more;
    CanonAllSize(t, nodes);
    Assoc(GroupToks(t, node, false, adjacent), ToksAll(t, nodes[1..], false), more);
    if node.And? {
      AndParses(t, node.all, adjacent, rest);
      AndLoopParses(t, CanonAll(t, node.all), nodes[1..], false, more);
      assert GroupToks(t, node, false, adjacent) == ToksAll(t, node.all, adjacent);
      assert CanonAll(t, nodes) == CanonAll(t, node.all) + CanonAll(t, nodes[1..]);
    } else {
      if node.Or? {
        ParensParse(t, node, adjacent, rest);
        assert ParseUnary(t, GroupToks(t, node, false, adjacent) + rest) == Ok((Canon(t, node), rest));
      } else {
        UnaryParses(t, node, adjacent, rest);
      }
      AndLoopParses(t, [Canon(t, node)], nodes[1..], false, more);
    }
  }

  /** A child of an Or: one term, or an And in parentheses. */
  lemma {:induction false} OrChildParses(t: Text, node: Node, adjacent: bool, more: seq<Token>)
    requires Sane(t) && Shape(t, node, false) && PhrasesOk(t, node) && EndsAnd(more)
    ensures ParseAnd(t, GroupToks(t, node, true, adjacent) + more) == Ok((Canon(t, node), more))
    decreases node, 7
  {
    if node.And? || node.Or? {
      ParensParse(t, node, adjacent, more);
      assert ParseUnary(t, GroupToks(t, node, true, adjacent) + more) == Ok((Canon(t, node), more));
    } else {
      UnaryParses(t, node, adjacent, more);
    }
  }

  lemma {:induction false} OrLoopParses(t: Text, done: seq<Node>, nodes: seq<Node>, more: seq<Token>)
    requires Sane(t) && done != [] && nodes != [] && forall i :: 0 <= i < |nodes| ==> Shape(t, nodes[i], false) && PhrasesOk(t, nodes[i])
    requires more == [] || more[0].Close?
    ensures OrLoop(t, done, [Word("OR", false)] + ToksAny(t, nodes, false) + more) == Ok((Or(done + CanonAny(t, nodes)), more))
    decreases nodes, 8
  {
    var next := Canon(t, nodes[0]);
    if |nodes| == 1 {
      OrChildParses(t, nodes[0], false, more);
      OrTakes(t, done, ToksAny(t, nodes, false) + more, next, more);
      Assoc([Word("OR", false)], ToksAny(t, nodes, false), more);
      assert CanonAny(t, nodes) == [next];
    } else {
      var child, others := GroupToks(t, nodes[0], true, false), ToksAny(t, nodes[1..], false);
      var rest := [Word("OR", false)] + others + more;
      OrChildParses(t, nodes[0], false, rest);
      OrTakes(t, done, child + rest, next, rest);
      OrPieces(child, others, more);
      OrLoopParses(t, done + [next], nodes[1..], more);
      Assoc(done, [next], CanonAny(t, nodes[1..]));
    }
  }

  lemma OrTakes(t: Text, done: seq<Node>, toks: seq<Token>, next: Node, rest: seq<Token>)
    requires done != [] && ParseAnd(t, toks) == Ok((next, rest))
    ensures OrLoop(t, done, [Word("OR", false)] + toks) == OrLoop(t, done + [next], rest)
  {
    assert ([Word("OR", false)] + toks)[1..] == toks;
  }

  lemma OrPieces(child: seq<Token>, others: seq<Token>, more: seq<Token>)
    ensures [Word("OR", false)] + (child + [Word("OR", false)] + others) + more == [Word("OR", false)] + (child + ([Word("OR", false)] + others + more))
  {
  }

  lemma {:induction false} OrParses(t: Text, node: Node, adjacent: bool, more: seq<Token>)
    requires Sane(t) && Shape(t, node, false) && PhrasesOk(t, node) && (more == [] || more[0].Close?)
    ensures ParseOr(t, Toks(t, node, adjacent) + more) == Ok((Canon(t, node), more))
    decreases node, 5
  {
    match node
    case And(children) =>
      AndParses(t, children, adjacent, more);
      CanonAllSize(t, children);
    case Or(children) => OrNodeParses(t, children, adjacent, more);
    case _ =>
      UnaryParses(t, node, adjacent, more);
      OneTerm(t, Toks(t, node, adjacent) + more, Canon(t, node), more);
  }

  lemma {:induction false} OrNodeParses(t: Text, children: seq<Node>, adjacent: bool, more: seq<Token>)
    requires Sane(t) && Shape(t, Or(children), false) && PhrasesOk(t, Or(children)) && (more == [] || more[0].Close?)
    ensures ParseOr(t, Toks(t, Or(children), adjacent) + more) == Ok((Canon(t, Or(children)), more))
    decreases Or(children), 4
  {
    var rest := [Word("OR", false)] + ToksAny(t, children[1..], false) + more;
    assert Toks(t, Or(children), adjacent) + more == GroupToks(t, children[0], true, adjacent) + rest;
    OrChildParses(t, children[0], adjacent, rest);
    OrLoopParses(t, [Canon(t, children[0])], children[1..], more);
  }

  lemma OneTerm(t: Text, toks: seq<Token>, node: Node, more: seq<Token>)
    requires ParseUnary(t, toks) == Ok((node, more)) && (more == [] || more[0].Close?)
    ensures ParseOr(t, toks) == Ok((node, more))
  {
    assert ParseAnd(t, toks) == Ok((node, more));
  }

  /** Printed and parsed back, a query of the parser's is itself, in canonical form. */
  lemma PrintedParsesBack(t: Text, node: Node)
    requires Sane(t) && Shape(t, node, false) && PhrasesOk(t, node)
    ensures Parse(t, Show(t, node)) == Ok(Some(Canon(t, node)))
  {
    assert Show(t, node) + "" == Show(t, node);
    LexShow(t, node, "", true);
    assert Toks(t, node, false) + [] == Toks(t, node, false);
    OrParses(t, node, false, []);
    TermBegins(t, node, false);
  }

  // ---- and means the same ----

  /** Every bare literal but null is already spelled the way it is shown. */
  predicate Spelled(t: Text, node: Node) {
    match node
    case Comparison(_, op, value) => op == Exists || value.kind == KindNull || CanonLiteral(t, value).str == value.str
    case Text(_) => true
    case Not(child) => Spelled(t, child)
    case And(children) => forall i :: 0 <= i < |children| ==> Spelled(t, children[i])
    case Or(children) => forall i :: 0 <= i < |children| ==> Spelled(t, children[i])
  }

  ghost predicate AllAccept(lib: Lib, nodes: seq<Node>, rec: Record) {
    forall i :: 0 <= i < |nodes| ==> Accepts(lib, nodes[i], rec)
  }

  ghost predicate SomeAccepts(lib: Lib, nodes: seq<Node>, rec: Record) {
    exists i :: 0 <= i < |nodes| && Accepts(lib, nodes[i], rec)
  }

  lemma AllAcceptJoin(lib: Lib, a: seq<Node>, b: seq<Node>, rec: Record)
    ensures AllAccept(lib, a + b, rec) <==> AllAccept(lib, a, rec) && AllAccept(lib, b, rec)
  {
    if AllAccept(lib, a + b, rec) {
      forall i | 0 <= i < |a| ensures Accepts(lib, a[i], rec) { assert (a + b)[i] == a[i]; }
      forall i | 0 <= i < |b| ensures Accepts(lib, b[i], rec) { assert (a + b)[|a| + i] == b[i]; }
    }
  }

  lemma SomeAcceptsJoin(lib: Lib, a: Node, b: seq<Node>, rec: Record)
    ensures SomeAccepts(lib, [a] + b, rec) <==> Accepts(lib, a, rec) || SomeAccepts(lib, b, rec)
  {
    if Accepts(lib, a, rec) {
      assert ([a] + b)[0] == a;
    }
    if SomeAccepts(lib, b, rec) {
      var i :| 0 <= i < |b| && Accepts(lib, b[i], rec);
      assert ([a] + b)[i + 1] == b[i];
    }
  }

  /** The canonical form accepts the same records, so a query clicked together and retyped means what it did. */
  lemma {:induction false} CanonMeansTheSame(lib: Lib, t: Text, node: Node, rec: Record)
    requires Spelled(t, node)
    ensures Accepts(lib, Canon(t, node), rec) == Accepts(lib, node, rec)
    decreases node, 0
  {
    match node
    case Comparison(field, op, value) =>
    case Text(_) =>
    case Not(child) => CanonMeansTheSame(lib, t, child, rec);
    case And(children) =>
      CanonAllMeans(lib, t, children, rec);
      assert Accepts(lib, node, rec) == AllAccept(lib, children, rec);
      assert Accepts(lib, Canon(t, node), rec) == AllAccept(lib, CanonAll(t, children), rec);
    case Or(children) =>
      CanonAnyMeans(lib, t, children, rec);
      assert Accepts(lib, node, rec) == SomeAccepts(lib, children, rec);
      assert Accepts(lib, Canon(t, node), rec) == SomeAccepts(lib, CanonAny(t, children), rec);
  }

  lemma {:induction false} CanonAllMeans(lib: Lib, t: Text, nodes: seq<Node>, rec: Record)
    requires forall i :: 0 <= i < |nodes| ==> Spelled(t, nodes[i])
    ensures AllAccept(lib, CanonAll(t, nodes), rec) <==> AllAccept(lib, nodes, rec)
    decreases nodes, 2
  {
    if nodes != [] {
      ConjunctsMean(lib, t, nodes[0], rec);
      CanonAllMeans(lib, t, nodes[1..], rec);
      AllAcceptJoin(lib, Conjuncts(t, nodes[0]), CanonAll(t, nodes[1..]), rec);
      AllAcceptJoin(lib, [nodes[0]], nodes[1..], rec);
      assert [nodes[0]] + nodes[1..] == nodes && [nodes[0]][0] == nodes[0];
    }
  }

  lemma {:induction false} ConjunctsMean(lib: Lib, t: Text, node: Node, rec: Record)
    requires Spelled(t, node)
    ensures AllAccept(lib, Conjuncts(t, node), rec) <==> Accepts(lib, node, rec)
    decreases node, 1
  {
    if node.And? {
      CanonAllMeans(lib, t, node.all, rec);
      assert Accepts(lib, node, rec) == AllAccept(lib, node.all, rec);
    } else {
      CanonMeansTheSame(lib, t, node, rec);
      assert Conjuncts(t, node)[0] == Canon(t, node);
    }
  }

  lemma {:induction false} CanonAnyMeans(lib: Lib, t: Text, nodes: seq<Node>, rec: Record)
    requires forall i :: 0 <= i < |nodes| ==> Spelled(t, nodes[i])
    ensures SomeAccepts(lib, CanonAny(t, nodes), rec) <==> SomeAccepts(lib, nodes, rec)
    decreases nodes, 2
  {
    if nodes != [] {
      CanonMeansTheSame(lib, t, nodes[0], rec);
      CanonAnyMeans(lib, t, nodes[1..], rec);
      SomeAcceptsJoin(lib, Canon(t, nodes[0]), CanonAny(t, nodes[1..]), rec);
      SomeAcceptsJoin(lib, nodes[0], nodes[1..], rec);
      assert [nodes[0]] + nodes[1..] == nodes;
    }
  }
}
