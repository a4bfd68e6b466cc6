/** What the parser returns, and so when printing it is undone: exactly when no bare phrase hides a space. */
module ParserShape {
  import opened Prelude
  import opened Rql
  import opened Syntax
  import opened RoundTrip

  // ---- tokens ----

  ghost predicate TokensOk(t: Text, toks: seq<Token>) {
    forall i :: 0 <= i < |toks| && toks[i].Word? ==> WordOk(t, toks[i].text)
  }

  lemma LexedWord(t: Text, s: string)
    requires s != "" && !t.isSpace(s[0]) && s[0] !in {'(', ')', '"', '\''}
    ensures WordOk(t, s[..WordEnd(t, s, 1)])
  {
    var end := WordEnd(t, s, 1);
    var w := s[..end];
    forall k | 1 <= k < |w|
      ensures !Stops(t, w, k)
    {
      assert !Stops(t, s, k);
      assert w[..k] == s[..k] && w[k] == s[k];
    }
  }

  lemma {:induction false} LexTokens(t: Text, s: string, space: bool)
    ensures Lex(t, s, space).Ok? ==> TokensOk(t, Lex(t, s, space).value)
    decreases |s|
  {
    if s == "" {
    } else if t.isSpace(s[0]) {
      LexTokens(t, s[1..], true);
    } else if s[0] == '(' || s[0] == ')' {
      LexTokens(t, s[1..], false);
    } else if s[0] == '"' || s[0] == '\'' {
      if LexQuoted(s[1..], s[0]).Some? {
        LexTokens(t, LexQuoted(s[1..], s[0]).value.1, false);
      }
    } else {
      LexedWord(t, s);
      LexTokens(t, s[WordEnd(t, s, 1)..], false);
    }
  }

  // ---- chunks ----

  /** The three parts of a chunk are it, and the operator is as long as it can be. */
  lemma {:induction false} SplitParts(s: string)
    ensures Split(s).Some? ==>
              var c := Split(s).value;
              && s == c.field + ShowOp(c.op) + c.rest && NoOperator(c.field) && c.op != Exists
              && (c.rest != "" ==> (c.op == Contains ==> c.rest[0] != '~') && (c.op == Less || c.op == Greater ==> c.rest[0] != '='))
  {
    if s != "" && !IsOperator(s[0]) {
      SplitParts(s[1..]);
      assert s == [s[0]] + s[1..];
    } else if s != "" {
      var n := OperatorAt(s).1;
      assert s == s[..n] + s[n..];
      assert s[..n] == ShowOp(OperatorAt(s).0);
    }
  }

  /** An apostrophe never follows the operator of a word: it would have begun a quoted string. */
  lemma NoQuoteAfterOperator(t: Text, w: string, minus: string, c: Chunk)
    requires WordOk(t, w) && w == minus + (c.field + ShowOp(c.op) + c.rest) && NoOperator(minus) && NoOperator(c.field) && c.op != Exists
    requires c.rest != "" && c.field != ""
    ensures c.rest[0] != '\''
  {
    var k := |w| - |c.rest|;
    assert w[k] == c.rest[0];
    assert w[..k] == minus + c.field + ShowOp(c.op);
    SplitBack(minus + c.field, c.op, "");
    assert minus + c.field + ShowOp(c.op) + "" == w[..k];
    assert 1 <= k < |w| && !Stops(t, w, k);
  }

  lemma ChunkShape(t: Text, w: string, minus: string, text: string, rest: seq<Token>)
    requires WordOk(t, w) && (minus == "" || minus == "-") && w == minus + text && text != "" && text[0] != '\''
    requires minus == "" ==> text[0] != '-' || text == "-"
    ensures var r := ParseChunk(t, text, rest); r.Ok? ==> Shape(t, r.value.0, minus == "-")
  {
    SplitParts(text);
    PlainLetters(t, w, minus, text);
    if Split(text).Some? && Split(text).value.field != "" {
      var c := Split(text).value;
      ChunkField(t, minus, text, c);
      if c.rest != "" && c.rest != "*" {
        NoQuoteAfterOperator(t, w, minus, c);
        ChunkLiteral(t, text, c);
      }
    }
  }

  lemma ChunkLiteral(t: Text, text: string, c: Chunk)
    requires text == c.field + ShowOp(c.op) + c.rest && c.rest != "" && c.rest != "*" && c.rest[0] != '\''
    requires (c.op == Contains ==> c.rest[0] != '~') && (c.op == Less || c.op == Greater ==> c.rest[0] != '=')
    requires forall i :: 0 <= i < |text| ==> !t.isSpace(text[i]) && text[i] !in {'(', ')', '"'}
    ensures LiteralOk(t, c.op, LiteralOf(t, c.rest))
  {
    assert forall i :: 0 <= i < |c.rest| ==> c.rest[i] == text[|text| - |c.rest| + i];
  }

  /** What is left of a word after its minus has no space, parenthesis or quotation mark. */
  lemma PlainLetters(t: Text, w: string, minus: string, text: string)
    requires WordOk(t, w) && (minus == "" || minus == "-") && w == minus + text && text != ""
    ensures forall i :: 0 <= i < |text| ==> !t.isSpace(text[i]) && text[i] !in {'(', ')', '"'}
  {
    forall i | 0 <= i < |text|
      ensures !t.isSpace(text[i]) && text[i] !in {'(', ')', '"'}
    {
      assert text[i] == w[|minus| + i];
      assert |minus| + i > 0 ==> !Stops(t, w, |minus| + i);
    }
  }

  lemma ChunkField(t: Text, minus: string, text: string, c: Chunk)
    requires text == c.field + ShowOp(c.op) + c.rest && NoOperator(c.field) && c.field != "" && (minus == "" || minus == "-")
    requires forall i :: 0 <= i < |text| ==> !t.isSpace(text[i]) && text[i] !in {'(', ')', '"'}
    requires text[0] != '\'' && (minus == "" ==> text[0] != '-' || text == "-")
    requires c.op != Exists
    ensures FieldOk(t, c.field, minus == "-")
  {
    assert forall i :: 0 <= i < |c.field| ==> c.field[i] == text[i];
  }

  // ---- trees ----

  lemma ShapeNegated(t: Text, node: Node)
    requires Shape(t, node, false)
    ensures Shape(t, node, true)
  {
  }

  lemma RestOk(t: Text, toks: seq<Token>, k: nat)
    requires TokensOk(t, toks) && k <= |toks|
    ensures TokensOk(t, toks[k..])
  {
  }

  lemma {:induction false} PrimaryShape(t: Text, toks: seq<Token>)
    requires TokensOk(t, toks)
    requires toks != [] && toks[0].Word? ==> toks[0].text[0] != '-' || toks[0].text == "-"
    ensures var r := ParsePrimary(t, toks); r.Ok? ==> Shape(t, r.value.0, false) && TokensOk(t, r.value.1)
    decreases |toks|, 0
  {
    if toks != [] {
      RestOk(t, toks, 1);
      match toks[0]
      case Open(_) => OrShape(t, toks[1..]);
      case Word(text, _) =>
        assert "" + text == text;
        ChunkShape(t, text, "", text, toks[1..]);
      case _ =>
    }
  }

  lemma {:induction false} UnaryShape(t: Text, toks: seq<Token>)
    requires TokensOk(t, toks)
    ensures var r := ParseUnary(t, toks); r.Ok? ==> Shape(t, r.value.0, false) && TokensOk(t, r.value.1)
    decreases |toks|, 1
  {
    if Keyword(toks, "NOT") {
      RestOk(t, toks, 1);
      UnaryShape(t, toks[1..]);
      if ParseUnary(t, toks[1..]).Ok? {
        ShapeNegated(t, ParseUnary(t, toks[1..]).value.0);
      }
    } else if MinusBefore(toks) {
      RestOk(t, toks, 1);
      PrimaryShape(t, toks[1..]);
      if ParsePrimary(t, toks[1..]).Ok? {
        ShapeNegated(t, ParsePrimary(t, toks[1..]).value.0);
      }
    } else if toks != [] && toks[0].Word? && |toks[0].text| > 1 && toks[0].text[0] == '-' {
      RestOk(t, toks, 1);
      MinusWordShape(t, toks[0].text, toks[1..]);
    } else {
      PrimaryShape(t, toks);
    }
  }

  lemma MinusWordShape(t: Text, w: string, rest: seq<Token>)
    requires WordOk(t, w) && |w| > 1 && w[0] == '-' && TokensOk(t, rest)
    ensures var r := ParseChunk(t, w[1..], rest); r.Ok? ==> Shape(t, r.value.0, true) && TokensOk(t, r.value.1)
  {
    assert w[..1] == "-" && !Stops(t, w, 1);
    assert w == "-" + w[1..];
    ChunkShape(t, w, "-", w[1..], rest);
    if rest != [] {
      RestOk(t, rest, 1);
    }
  }

  lemma {:induction false} AndLoopShape(t: Text, done: seq<Node>, toks: seq<Token>)
    requires TokensOk(t, toks) && done != [] && forall i :: 0 <= i < |done| ==> Shape(t, done[i], false)
    ensures var r := AndLoop(t, done, toks); r.Ok? ==> Shape(t, r.value.0, false) && TokensOk(t, r.value.1)
    decreases |toks|, 2
  {
    if !EndsAnd(toks) {
      RestOk(t, toks, 1);
      var from := if Keyword(toks, "AND") then toks[1..] else toks;
      UnaryShape(t, from);
      if ParseUnary(t, from).Ok? {
        AndLoopShape(t, done + [ParseUnary(t, from).value.0], ParseUnary(t, from).value.1);
      }
    }
  }

  lemma {:induction false} AndShape(t: Text, toks: seq<Token>)
    requires TokensOk(t, toks)
    ensures var r := ParseAnd(t, toks); r.Ok? ==> Shape(t, r.value.0, false) && TokensOk(t, r.value.1)
    decreases |toks|, 2
  {
    UnaryShape(t, toks);
    if ParseUnary(t, toks).Ok? {
      AndLoopShape(t, [ParseUnary(t, toks).value.0], ParseUnary(t, toks).value.1);
    }
  }

  lemma {:induction false} OrLoopShape(t: Text, done: seq<Node>, toks: seq<Token>)
    requires TokensOk(t, toks) && done != [] && forall i :: 0 <= i < |done| ==> Shape(t, done[i], false)
    ensures var r := OrLoop(t, done, toks); r.Ok? ==> Shape(t, r.value.0, false) && TokensOk(t, r.value.1)
    decreases |toks|, 3
  {
    if Keyword(toks, "OR") {
      RestOk(t, toks, 1);
      AndShape(t, toks[1..]);
      if ParseAnd(t, toks[1..]).Ok? {
        OrLoopShape(t, done + [ParseAnd(t, toks[1..]).value.0], ParseAnd(t, toks[1..]).value.1);
      }
    }
  }

  lemma {:induction false} OrShape(t: Text, toks: seq<Token>)
    requires TokensOk(t, toks)
    ensures var r := ParseOr(t, toks); r.Ok? ==> Shape(t, r.value.0, false) && TokensOk(t, r.value.1)
    decreases |toks|, 3
  {
    AndShape(t, toks);
    if ParseAnd(t, toks).Ok? {
      OrLoopShape(t, [ParseAnd(t, toks).value.0], ParseAnd(t, toks).value.1);
    }
  }

  /** Every tree the parser returns has the shape printing relies on. */
  lemma ParsedShape(t: Text, s: string)
    ensures Parse(t, s).Ok? && Parse(t, s).value.Some? ==> Shape(t, Parse(t, s).value.value, false)
  {
    LexTokens(t, s, true);
    if Lex(t, s, true).Ok? {
      OrShape(t, Lex(t, s, true).value);
    }
  }

  // ---- where printing is not undone ----

  /** A phrase a printer would show without quotes: plain text, and no keyword. */
  predicate Plain(s: string) {
    !NeedsQuoting(s) && !IsKeyword(s)
  }

  /** A word that ends with its operator, and so takes the quoted string after it. */
  predicate Takes(tok: Token) {
    tok.Word? && Split(tok.text).Some? && Split(tok.text).value.rest == ""
  }

  /** Words hold no space, and a plain phrase only ever stands where an operator takes it. */
  ghost predicate Clean(t: Text, toks: seq<Token>) {
    && TokensOk(t, toks)
    && forall i :: 0 <= i < |toks| && toks[i].Phrase? && Plain(toks[i].text) ==> i > 0 && Takes(toks[i - 1]) && toks[i].adjacent
  }

  lemma CleanRest(t: Text, toks: seq<Token>)
    requires Clean(t, toks) && toks != [] && !Takes(toks[0])
    ensures Clean(t, toks[1..])
  {
    forall i | 0 <= i < |toks[1..]| && toks[1..][i].Phrase? && Plain(toks[1..][i].text)
      ensures i > 0 && Takes(toks[1..][i - 1]) && toks[1..][i].adjacent
    {
      assert toks[1..][i] == toks[i + 1];
    }
  }

  lemma CleanAfterTaken(t: Text, toks: seq<Token>)
    requires Clean(t, toks) && |toks| > 1 && toks[1].Phrase?
    ensures Clean(t, toks[2..])
  {
    forall i | 0 <= i < |toks[2..]| && toks[2..][i].Phrase? && Plain(toks[2..][i].text)
      ensures i > 0 && Takes(toks[2..][i - 1]) && toks[2..][i].adjacent
    {
      assert toks[2..][i] == toks[i + 2];
      assert !Takes(toks[1]);
    }
  }

  lemma WordHasNoSpace(t: Text, w: string)
    requires WordOk(t, w)
    ensures forall i :: 0 <= i < |w| ==> !t.isSpace(w[i])
  {
    forall i | 0 <= i < |w|
      ensures !t.isSpace(w[i])
    {
      assert i > 0 ==> !Stops(t, w, i);
    }
  }

  lemma {:induction false} SplitAfterMinus(s: string)
    ensures Split("-" + s).Some? <==> Split(s).Some?
    ensures Split(s).Some? ==> Split("-" + s).value.rest == Split(s).value.rest
  {
    assert ("-" + s)[1..] == s;
  }

  lemma TailIsPlain(t: Text, w: string, text: string)
    requires (text == w || w == "-" + text) && forall i :: 0 <= i < |w| ==> !t.isSpace(w[i])
    ensures PhraseOk(t, text)
  {
    assert forall i :: 0 <= i < |text| ==> text[i] == w[|w| - |text| + i];
  }

  /** What a chunk parses to holds no phrase, or a word. */
  lemma ChunkClean(t: Text, toks: seq<Token>, text: string)
    requires Clean(t, toks) && toks != [] && toks[0].Word? && (text == toks[0].text || toks[0].text == "-" + text)
    ensures var r := ParseChunk(t, text, toks[1..]); r.Ok? ==> PhrasesOk(t, r.value.0) && Clean(t, r.value.1)
  {
    WordHasNoSpace(t, toks[0].text);
    SplitAfterMinus(text);
    if Split(text).None? {
      TailIsPlain(t, toks[0].text, text);
      CleanRest(t, toks);
    } else if Split(text).value.rest == "" {
      if |toks| > 1 && toks[1].Phrase? {
        CleanAfterTaken(t, toks);
        assert toks[1..][1..] == toks[2..];
      }
    } else {
      CleanRest(t, toks);
    }
  }

  lemma {:induction false} PrimaryClean(t: Text, toks: seq<Token>)
    requires Clean(t, toks)
    ensures var r := ParsePrimary(t, toks); r.Ok? ==> PhrasesOk(t, r.value.0) && Clean(t, r.value.1)
    decreases |toks|, 0
  {
    if toks != [] {
      match toks[0]
      case Open(_) =>
        CleanRest(t, toks);
        OrClean(t, toks[1..]);
        var r := ParseOr(t, toks[1..]);
        if r.Ok? && r.value.1 != [] && r.value.1[0].Close? {
          CleanRest(t, r.value.1);
        }
      case Close(_) =>
      case Phrase(text, _) => CleanRest(t, toks);
      case Word(text, _) => ChunkClean(t, toks, text);
    }
  }

  lemma {:induction false} UnaryClean(t: Text, toks: seq<Token>)
    requires Clean(t, toks)
    ensures var r := ParseUnary(t, toks); r.Ok? ==> PhrasesOk(t, r.value.0) && Clean(t, r.value.1)
    decreases |toks|, 1
  {
    if Keyword(toks, "NOT") {
      SplitNone("NOT");
      CleanRest(t, toks);
      UnaryClean(t, toks[1..]);
    } else if MinusBefore(toks) {
      SplitNone("-");
      CleanRest(t, toks);
      PrimaryClean(t, toks[1..]);
    } else if toks != [] && toks[0].Word? && |toks[0].text| > 1 && toks[0].text[0] == '-' {
      assert toks[0].text == "-" + toks[0].text[1..];
      ChunkClean(t, toks, toks[0].text[1..]);
    } else {
      PrimaryClean(t, toks);
    }
  }

  lemma {:induction false} AndLoopClean(t: Text, done: seq<Node>, toks: seq<Token>)
    requires Clean(t, toks) && done != [] && forall i :: 0 <= i < |done| ==> PhrasesOk(t, done[i])
    ensures var r := AndLoop(t, done, toks); r.Ok? ==> PhrasesOk(t, r.value.0) && Clean(t, r.value.1)
    decreases |toks|, 2
  {
    if !EndsAnd(toks) {
      if Keyword(toks, "AND") {
        SplitNone("AND");
        CleanRest(t, toks);
      }
      var from := if Keyword(toks, "AND") then toks[1..] else toks;
      UnaryClean(t, from);
      if ParseUnary(t, from).Ok? {
        AndLoopClean(t, done + [ParseUnary(t, from).value.0], ParseUnary(t, from).value.1);
      }
    }
  }

  lemma {:induction false} AndClean(t: Text, toks: seq<Token>)
    requires Clean(t, toks)
    ensures var r := ParseAnd(t, toks); r.Ok? ==> PhrasesOk(t, r.value.0) && Clean(t, r.value.1)
    decreases |toks|, 2
  {
    UnaryClean(t, toks);
    if ParseUnary(t, toks).Ok? {
      AndLoopClean(t, [ParseUnary(t, toks).value.0], ParseUnary(t, toks).value.1);
    }
  }

  lemma {:induction false} OrLoopClean(t: Text, done: seq<Node>, toks: seq<Token>)
    requires Clean(t, toks) && done != [] && forall i :: 0 <= i < |done| ==> PhrasesOk(t, done[i])
    ensures var r := OrLoop(t, done, toks); r.Ok? ==> PhrasesOk(t, r.value.0) && Clean(t, r.value.1)
    decreases |toks|, 3
  {
    if Keyword(toks, "OR") {
      SplitNone("OR");
      CleanRest(t, toks);
      AndClean(t, toks[1..]);
      if ParseAnd(t, toks[1..]).Ok? {
        OrLoopClean(t, done + [ParseAnd(t, toks[1..]).value.0], ParseAnd(t, toks[1..]).value.1);
      }
    }
  }

  lemma {:induction false} OrClean(t: Text, toks: seq<Token>)
    requires Clean(t, toks)
    ensures var r := ParseOr(t, toks); r.Ok? ==> PhrasesOk(t, r.value.0) && Clean(t, r.value.1)
    decreases |toks|, 3
  {
    AndClean(t, toks);
    if ParseAnd(t, toks).Ok? {
      OrLoopClean(t, [ParseAnd(t, toks).value.0], ParseAnd(t, toks).value.1);
    }
  }

  // ---- what is printed lexes clean ----

  /** Whatever came before it, this text lexes clean. */
  ghost predicate CleanText(t: Text, s: string) {
    forall space: bool :: Lex(t, s, space).Ok? ==> Clean(t, Lex(t, s, space).value)
  }

  lemma CleanCons(t: Text, toks: seq<Token>, more: seq<Token>)
    requires Clean(t, more) && TokensOk(t, toks)
    requires forall i :: 0 <= i < |toks| && toks[i].Phrase? && Plain(toks[i].text) ==> i > 0 && Takes(toks[i - 1]) && toks[i].adjacent
    ensures Clean(t, toks + more)
  {
    var all := toks + more;
    forall i | 0 <= i < |all| && all[i].Phrase? && Plain(all[i].text)
      ensures i > 0 && Takes(all[i - 1]) && all[i].adjacent
    {
      if i >= |toks| {
        assert all[i] == more[i - |toks|];
        assert all[i - 1] == more[i - |toks| - 1];
      }
    }
  }

  /** Tokens in front of clean text. */
  lemma CleanLex(t: Text, s: string, toks: seq<Token>, rest: string, space: bool)
    requires Lex(t, s, space) == PrependAll(toks, Lex(t, rest, false)) && CleanText(t, rest) && TokensOk(t, toks)
    requires forall i :: 0 <= i < |toks| && toks[i].Phrase? && Plain(toks[i].text) ==> i > 0 && Takes(toks[i - 1]) && toks[i].adjacent
    ensures Lex(t, s, space).Ok? ==> Clean(t, Lex(t, s, space).value)
  {
    if Lex(t, rest, false).Ok? {
      CleanCons(t, toks, Lex(t, rest, false).value);
    }
  }

  lemma CleanComparison(t: Text, minus: string, field: string, op: Op, value: Literal, rest: string)
    requires Sane(t) && (minus == "" || minus == "-") && FieldOk(t, field, minus == "-") && Breaks(t, rest) && CleanText(t, rest)
    requires if op == Exists then value == Star else LiteralOk(t, op, value)
    ensures CleanText(t, minus + Show(t, Comparison(field, op, value)) + rest)
  {
    var s := minus + Show(t, Comparison(field, op, value)) + rest;
    forall space: bool
      ensures Lex(t, s, space).Ok? ==> Clean(t, Lex(t, s, space).value)
    {
      LexComparison(t, minus, field, op, value, rest, space);
      var toks := ComparisonToks(t, minus, field, op, value, !space);
      ComparisonWordOk(t, minus, field, op, value, !space);
      CleanLex(t, s, toks, rest, space);
    }
  }

  lemma ComparisonWordOk(t: Text, minus: string, field: string, op: Op, value: Literal, adjacent: bool)
    requires Sane(t) && (minus == "" || minus == "-") && FieldOk(t, field, minus == "-")
    requires if op == Exists then value == Star else LiteralOk(t, op, value)
    ensures var toks := ComparisonToks(t, minus, field, op, value, adjacent);
            && TokensOk(t, toks)
            && forall i :: 0 <= i < |toks| && toks[i].Phrase? ==> i > 0 && Takes(toks[i - 1]) && toks[i].adjacent
  {
    OpBare(t, op);
    if op == Exists {
      FieldWord(t, minus, field, "=*");
    } else if value.kind == KindString && (value.quoted || NeedsQuoting(value.str)) {
      FieldWord(t, minus, field, ShowOp(op));
      SplitBack(minus + field, op, "");
      assert minus + field + ShowOp(op) + "" == minus + field + ShowOp(op);
    } else {
      BareLiteral(t, op, value);
      BareJoins(t, ShowOp(op), ShowLiteral(t, value));
      FieldWord(t, minus, field, ShowOp(op) + ShowLiteral(t, value));
      Assoc(minus + field, ShowOp(op), ShowLiteral(t, value));
    }
  }

  predicate Unquoted(s: string) {
    forall i :: 0 <= i < |s| ==> s[i] !in {'(', ')', '"', '\''}
  }

  /** Text without quotes or parentheses lexes to words, however many. */
  lemma {:induction false} CleanWords(t: Text, s: string, rest: string, space: bool)
    requires Unquoted(s) && Breaks(t, rest) && CleanText(t, rest)
    ensures Lex(t, s + rest, space).Ok? ==> Clean(t, Lex(t, s + rest, space).value)
    decreases |s|
  {
    var all := s + rest;
    if s == "" {
      assert all == rest;
    } else if t.isSpace(s[0]) {
      assert all[1..] == s[1..] + rest;
      CleanWords(t, s[1..], rest, true);
    } else {
      var end := WordEnd(t, all, 1);
      assert end > |s| ==> !Stops(t, all, |s|);
      assert all[..end] == s[..end] && all[end..] == s[end..] + rest;
      LexedWord(t, all);
      CleanWords(t, s[end..], rest, false);
      if Lex(t, all[end..], false).Ok? {
        CleanCons(t, [Word(all[..end], !space)], Lex(t, all[end..], false).value);
      }
    }
  }

  lemma CleanPhrase(t: Text, minus: string, s: string, rest: string)
    requires Sane(t) && (minus == "" || minus == "-") && Breaks(t, rest) && CleanText(t, rest)
    ensures CleanText(t, minus + ShowText(s) + rest)
  {
    forall space: bool
      ensures var all := minus + ShowText(s) + rest; Lex(t, all, space).Ok? ==> Clean(t, Lex(t, all, space).value)
    {
      var all := minus + ShowText(s) + rest;
      if Plain(s) {
        PlainUnquoted(minus, s);
        CleanWords(t, minus + s, rest, space);
      } else {
        LexText(t, minus, s, rest, space);
        CleanLex(t, all, TextToks(minus, s, !space), rest, space);
      }
    }
  }

  lemma PlainUnquoted(minus: string, s: string)
    requires Plain(s) && (minus == "" || minus == "-")
    ensures Unquoted(minus + s)
  {
    var u := minus + s;
    forall i | 0 <= i < |u|
      ensures u[i] !in {'(', ')', '"', '\''}
    {
      assert u[i] == if i < |minus| then '-' else s[i - |minus|];
      assert i >= |minus| ==> s[i - |minus|] !in Awkward;
    }
  }

  lemma CleanSpace(t: Text, rest: string)
    requires Sane(t) && CleanText(t, rest)
    ensures CleanText(t, " " + rest)
  {
    forall space: bool
      ensures Lex(t, " " + rest, space) == Lex(t, rest, true)
    {
      LexSpace(t, rest, space);
    }
  }

  lemma CleanClose(t: Text, rest: string)
    requires Sane(t) && CleanText(t, rest)
    ensures CleanText(t, ")" + rest)
  {
    forall space: bool
      ensures Lex(t, ")" + rest, space).Ok? ==> Clean(t, Lex(t, ")" + rest, space).value)
    {
      LexClose(t, rest, space);
      CleanLex(t, ")" + rest, [Close(!space)], rest, space);
    }
  }

  lemma CleanOpen(t: Text, rest: string)
    requires Sane(t) && CleanText(t, rest)
    ensures CleanText(t, "(" + rest)
  {
    forall space: bool
      ensures Lex(t, "(" + rest, space).Ok? ==> Clean(t, Lex(t, "(" + rest, space).value)
    {
      LexOpen(t, rest, space);
      CleanLex(t, "(" + rest, [Open(!space)], rest, space);
    }
  }

  lemma CleanWord(t: Text, w: string, rest: string)
    requires Sane(t) && WordOk(t, w) && Breaks(t, rest) && CleanText(t, rest)
    ensures CleanText(t, w + rest)
  {
    forall space: bool
      ensures Lex(t, w + rest, space).Ok? ==> Clean(t, Lex(t, w + rest, space).value)
    {
      LexWord(t, w, rest, space);
      CleanLex(t, w + rest, [Word(w, !space)], rest, space);
    }
  }

  lemma {:induction false} CleanParens(t: Text, node: Node, rest: string)
    requires Sane(t) && Shape(t, node, false) && CleanText(t, rest)
    ensures CleanText(t, "(" + Show(t, node) + ")" + rest)
    decreases node, 1
  {
    CleanClose(t, rest);
    CleanShow(t, node, ")" + rest);
    CleanOpen(t, Show(t, node) + (")" + rest));
    assert "(" + Show(t, node) + ")" + rest == "(" + (Show(t, node) + (")" + rest));
  }

  /** A printed query lexes clean, whatever its phrases. */
  lemma {:induction false} CleanShow(t: Text, node: Node, rest: string)
    requires Sane(t) && Shape(t, node, false) && Follows(rest) && CleanText(t, rest)
    ensures CleanText(t, Show(t, node) + rest)
    decreases node, 0
  {
    match node
    case Comparison(field, op, value) =>
      CleanComparison(t, "", field, op, value, rest);
      assert "" + Show(t, node) == Show(t, node);
    case Text(s) =>
      CleanPhrase(t, "", s, rest);
      assert "" + ShowText(s) == ShowText(s);
    case Not(child) => CleanNot(t, child, rest);
    case And(children) => CleanAll(t, children, rest);
    case Or(children) => CleanAny(t, children, rest);
  }

  lemma CleanNot(t: Text, child: Node, rest: string)
    requires Sane(t) && Shape(t, child, true) && Follows(rest) && CleanText(t, rest)
    ensures CleanText(t, Show(t, Not(child)) + rest)
    decreases child, 3
  {
    match child
    case Comparison(field, op, value) => CleanComparison(t, "-", field, op, value, rest);
    case Text(s) => CleanPhrase(t, "-", s, rest);
    case _ =>
      var inner := "(" + Show(t, child) + ")" + rest;
      CleanParens(t, child, rest);
      CleanSpace(t, inner);
      CleanWord(t, "NOT", " " + inner);
      NotPieces(Show(t, child), rest, [], true);
      assert "NOT " + inner == "NOT" + (" " + inner);
  }

  lemma CleanGroup(t: Text, node: Node, insideOr: bool, rest: string)
    requires Sane(t) && Shape(t, node, false) && Follows(rest) && CleanText(t, rest)
    ensures CleanText(t, Group(t, node, insideOr) + rest)
    decreases node, 2
  {
    if node.Or? || (node.And? && insideOr) {
      CleanParens(t, node, rest);
    } else {
      CleanShow(t, node, rest);
    }
  }

  lemma {:induction false} CleanAll(t: Text, nodes: seq<Node>, rest: string)
    requires Sane(t) && nodes != [] && Follows(rest) && CleanText(t, rest) && forall i :: 0 <= i < |nodes| ==> Shape(t, nodes[i], false)
    ensures CleanText(t, ShowAll(t, nodes) + rest)
    decreases nodes, 3
  {
    if |nodes| == 1 {
      CleanGroup(t, nodes[0], false, rest);
    } else {
      var more := ShowAll(t, nodes[1..]) + rest;
      CleanAll(t, nodes[1..], rest);
      CleanSpace(t, more);
      CleanGroup(t, nodes[0], false, " " + more);
      assert ShowAll(t, nodes) + rest == Group(t, nodes[0], false) + (" " + more);
    }
  }

  lemma {:induction false} CleanAny(t: Text, nodes: seq<Node>, rest: string)
    requires Sane(t) && nodes != [] && Follows(rest) && CleanText(t, rest) && forall i :: 0 <= i < |nodes| ==> Shape(t, nodes[i], false)
    ensures CleanText(t, ShowAny(t, nodes) + rest)
    decreases nodes, 3
  {
    if |nodes| == 1 {
      CleanGroup(t, nodes[0], true, rest);
    } else {
      var more := ShowAny(t, nodes[1..]) + rest;
      CleanAny(t, nodes[1..], rest);
      CleanSpace(t, more);
      CleanWord(t, "OR", " " + more);
      CleanSpace(t, "OR" + (" " + more));
      CleanGroup(t, nodes[0], true, " " + ("OR" + (" " + more)));
      assert ShowAny(t, nodes) + rest == Group(t, nodes[0], true) + (" " + ("OR" + (" " + more)));
    }
  }

  lemma {:induction false} CanonPhrases(t: Text, node: Node)
    ensures PhrasesOk(t, Canon(t, node)) <==> PhrasesOk(t, node)
    decreases node, 0
  {
    match node
    case Not(child) => CanonPhrases(t, child);
    case And(children) => CanonAllPhrases(t, children);
    case Or(children) => CanonAnyPhrases(t, children);
    case _ =>
  }

  ghost predicate AllPhrasesOk(t: Text, nodes: seq<Node>) {
    forall i :: 0 <= i < |nodes| ==> PhrasesOk(t, nodes[i])
  }

  lemma AllPhrasesSplit(t: Text, a: seq<Node>, b: seq<Node>)
    ensures AllPhrasesOk(t, a + b) <==> AllPhrasesOk(t, a) && AllPhrasesOk(t, b)
  {
    if AllPhrasesOk(t, a + b) {
      forall i | 0 <= i < |a| ensures PhrasesOk(t, a[i]) { assert (a + b)[i] == a[i]; }
      forall i | 0 <= i < |b| ensures PhrasesOk(t, b[i]) { assert (a + b)[|a| + i] == b[i]; }
    }
  }

  lemma {:induction false} CanonAllPhrases(t: Text, nodes: seq<Node>)
    ensures AllPhrasesOk(t, CanonAll(t, nodes)) <==> AllPhrasesOk(t, nodes)
    decreases nodes, 2
  {
    if nodes != [] {
      if nodes[0].And? {
        CanonAllPhrases(t, nodes[0].all);
      } else {
        CanonPhrases(t, nodes[0]);
      }
      CanonAllPhrases(t, nodes[1..]);
      AllPhrasesSplit(t, Conjuncts(t, nodes[0]), CanonAll(t, nodes[1..]));
      AllPhrasesSplit(t, [nodes[0]], nodes[1..]);
      assert [nodes[0]] + nodes[1..] == nodes;
      assert AllPhrasesOk(t, [nodes[0]]) <==> PhrasesOk(t, nodes[0]) by {
        assert [nodes[0]][0] == nodes[0];
      }
      if !nodes[0].And? {
        assert Conjuncts(t, nodes[0])[0] == Canon(t, nodes[0]);
      }
    }
  }

  lemma {:induction false} CanonAnyPhrases(t: Text, nodes: seq<Node>)
    ensures AllPhrasesOk(t, CanonAny(t, nodes)) <==> AllPhrasesOk(t, nodes)
    decreases nodes, 2
  {
    if nodes != [] {
      CanonPhrases(t, nodes[0]);
      CanonAnyPhrases(t, nodes[1..]);
      AllPhrasesSplit(t, [Canon(t, nodes[0])], CanonAny(t, nodes[1..]));
      AllPhrasesSplit(t, [nodes[0]], nodes[1..]);
      assert [nodes[0]] + nodes[1..] == nodes;
      assert [nodes[0]][0] == nodes[0] && [Canon(t, nodes[0])][0] == Canon(t, nodes[0]);
    }
  }

  /** A query that comes back from printing had no bare phrase that hides a space. */
  lemma PrintedParsesClean(t: Text, node: Node)
    requires Sane(t) && Shape(t, node, false) && Parse(t, Show(t, node)) == Ok(Some(Canon(t, node)))
    ensures PhrasesOk(t, node)
  {
    assert Show(t, node) + "" == Show(t, node);
    CleanShow(t, node, "");
    var toks := Lex(t, Show(t, node), true).value;
    OrClean(t, toks);
    CanonPhrases(t, node);
  }

  /**
   * For every query the parser can return, printing and parsing again gives it back in canonical form
   * if and only if each phrase that prints without quotes holds no space.
   */
  lemma RoundTripIff(t: Text, s: string, node: Node)
    requires Sane(t) && Parse(t, s) == Ok(Some(node))
    ensures Parse(t, Show(t, node)) == Ok(Some(Canon(t, node))) <==> PhrasesOk(t, node)
  {
    ParsedShape(t, s);
    if PhrasesOk(t, node) {
      PrintedParsesBack(t, node);
    } else if Parse(t, Show(t, node)) == Ok(Some(Canon(t, node))) {
      PrintedParsesClean(t, node);
    }
  }

  lemma TwoWords(t: Text)
    requires Sane(t) && t.isSpace('\n') && !t.isSpace('a') && !t.isSpace('b')
    ensures Lex(t, "a\nb", true) == Ok([Word("a", false), Word("b", false)])
  {
    assert "a\nb" == "a" + "\nb";
    LexWord(t, "a", "\nb", true);
    assert "\nb"[0] == '\n' && "\nb"[1..] == "b";
    assert Lex(t, "\nb", false) == Lex(t, "b", true);
    LexWord(t, "b", "", true);
    assert "b" + "" == "b" && [Word("b", false)] + [] == [Word("b", false)];
    assert [Word("a", false)] + [Word("b", false)] == [Word("a", false), Word("b", false)];
  }

  lemma TwoTerms(t: Text)
    ensures ParseTokens(t, [Word("a", false), Word("b", false)]) == Ok(Some(And([Node.Text("a"), Node.Text("b")])))
  {
    var a, b := [Word("a", false)], [Word("b", false)];
    var toks := [Word("a", false), Word("b", false)];
    PlainTextParses(t, "a", false, b);
    PlainTextParses(t, "b", false, []);
    assert TextToks("", "a", false) + b == toks;
    assert TextToks("", "b", false) + [] == b;
    AndTakes(t, [Node.Text("a")], b, Node.Text("b"), []);
    BothTerms(t, toks, b, Node.Text("a"), Node.Text("b"));
  }

  lemma BothTerms(t: Text, toks: seq<Token>, rest: seq<Token>, a: Node, b: Node)
    requires toks != [] && ParseUnary(t, toks) == Ok((a, rest)) && AndLoop(t, [a], rest) == AndLoop(t, [a] + [b], [])
    ensures ParseTokens(t, toks) == Ok(Some(And([a, b])))
  {
    assert [a] + [b] == [a, b];
    assert AndLoop(t, [a, b], []) == Ok((And([a, b]), []));
    assert ParseAnd(t, toks) == AndLoop(t, [a], rest);
    assert OrLoop(t, [And([a, b])], []) == Ok((And([a, b]), []));
  }

  lemma OnePhrase(t: Text, s: string)
    requires Sane(t)
    ensures Parse(t, InQuotes(s)) == Ok(Some(Node.Text(s)))
  {
    assert InQuotes(s) + "" == InQuotes(s);
    LexPhrase(t, s, "", true);
    var toks := [Phrase(s, false)];
    assert toks + [] == toks && toks[1..] == [];
    OneTerm(t, toks, Node.Text(s), []);
  }

  /** Where it fails: a quoted phrase with a line break in it comes back as two words. */
  lemma LineBreakIsLost(t: Text)
    requires Sane(t) && t.isSpace('\n') && !t.isSpace('a') && !t.isSpace('b')
    ensures Parse(t, InQuotes("a\nb")) == Ok(Some(Node.Text("a\nb")))
    ensures Parse(t, Show(t, Node.Text("a\nb"))) == Ok(Some(And([Node.Text("a"), Node.Text("b")])))
  {
    OnePhrase(t, "a\nb");
    ShownBare(t);
    TwoWords(t);
    TwoTerms(t);
  }

  lemma ShownBare(t: Text)
    ensures Show(t, Node.Text("a\nb")) == "a\nb"
  {
    assert forall i :: 0 <= i < |"a\nb"| ==> "a\nb"[i] in {'a', '\n', 'b'};
  }
}
