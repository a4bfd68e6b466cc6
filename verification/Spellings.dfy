/** Other ways to write the same query: AND between terms, NOT for a minus, apostrophes for quotation marks, nil for null. */
module Spellings {
  import opened Prelude
  import opened Rql
  import opened Syntax
  import opened RoundTrip
  import opened ParserShape

  // ---- changing what follows some tokens ----

  /** The last token ends a term, so the parser has one when it is past it. */
  predicate EndsTerm(toks: seq<Token>) {
    toks != [] &&
    match toks[|toks| - 1]
    case Word(text, _) => !IsKeyword(text)
    case Open(_) => false
    case _ => true
  }

  /** A token that closes nothing, ends no And, and is not pressed against the token before it. */
  predicate StandsAlone(tok: Token) {
    !tok.Close? && !(tok.Word? && tok.text == "OR") && (tok.Word? || !tok.adjacent)
  }

  /**
   * Two ways to go on that the parser cannot tell apart: after a whole term, and if anywhere, at the beginning of a term
   * too.
   */
  ghost predicate Alike(t: Text, u: seq<Token>, v: seq<Token>, anywhere: bool) {
    && u != [] && v != [] && StandsAlone(u[0]) && StandsAlone(v[0])
    && (forall children :: children != [] ==> AndLoop(t, children, u) == AndLoop(t, children, v))
    && (anywhere ==> ParseUnary(t, u) == ParseUnary(t, v))
  }

  predicate Leads(p: seq<Token>, anywhere: bool) {
    anywhere || p == [] || EndsTerm(p)
  }

  ghost predicate Before(p: seq<Token>, x: seq<Token>, y: seq<Token>, u: seq<Token>, v: seq<Token>, anywhere: bool) {
    Leads(p, anywhere) && x == p + u && y == p + v
  }

  /** What is left to parse is the same, or has not reached the difference. */
  ghost predicate Rests(x: seq<Token>, y: seq<Token>, u: seq<Token>, v: seq<Token>, anywhere: bool) {
    x == y || exists p :: Before(p, x, y, u, v, anywhere)
  }

  ghost predicate Same(a: Parsed, b: Parsed, u: seq<Token>, v: seq<Token>, anywhere: bool) {
    match (a, b)
    case (Err(e), Err(f)) => e == f
    case (Ok((n, x)), Ok((m, y))) => n == m && Rests(x, y, u, v, anywhere)
    case _ => false
  }

  lemma LeadsOn(p: seq<Token>, u: seq<Token>, anywhere: bool)
    requires p != [] && Leads(p, anywhere)
    ensures (p + u)[1..] == p[1..] + u && Leads(p[1..], anywhere) && (p[1..] != [] || anywhere || EndsTerm([p[0]]))
  {
    if p[1..] == [] {
      assert p == [p[0]];
    }
  }

  lemma ChunkSame(t: Text, text: string, p: seq<Token>, u: seq<Token>, v: seq<Token>, anywhere: bool)
    requires Alike(t, u, v, anywhere) && Leads(p, anywhere)
    ensures Same(ParseChunk(t, text, p + u), ParseChunk(t, text, p + v), u, v, anywhere)
  {
    assert Before(p, p + u, p + v, u, v, anywhere);
    if p == [] {
      assert p + u == u && p + v == v;
    } else {
      LeadsOn(p, u, anywhere);
      LeadsOn(p, v, anywhere);
      assert Before(p[1..], (p + u)[1..], (p + v)[1..], u, v, anywhere);
    }
  }

  lemma GroupIs(t: Text, toks: seq<Token>)
    requires toks != [] && toks[0].Open?
    ensures ParsePrimary(t, toks) == if toks[1..] != [] && toks[1].Close? then Err(EmptyParentheses) else Closed(ParseOr(t, toks[1..]))
  {
  }

  lemma {:induction false} PrimarySame(t: Text, p: seq<Token>, u: seq<Token>, v: seq<Token>, anywhere: bool)
    requires Alike(t, u, v, anywhere) && Leads(p, anywhere) && p != []
    ensures Same(ParsePrimary(t, p + u), ParsePrimary(t, p + v), u, v, anywhere)
    decreases |p|, 0
  {
    LeadsOn(p, u, anywhere);
    LeadsOn(p, v, anywhere);
    assert Before(p[1..], (p + u)[1..], (p + v)[1..], u, v, anywhere);
    match p[0]
    case Open(_) =>
      GroupIs(t, p + u);
      GroupIs(t, p + v);
      OrSame(t, p[1..], u, v, anywhere);
      ClosesSame(ParseOr(t, p[1..] + u), ParseOr(t, p[1..] + v), u, v, anywhere);
    case Word(text, _) => ChunkSame(t, text, p[1..], u, v, anywhere);
    case _ =>
  }

  /** The group in parentheses whose inside has been parsed. */
  function Closed(r: Parsed): Parsed {
    match r
    case Err(e) => Err(e)
    case Ok((inner, rest)) => if rest != [] && rest[0].Close? then Ok((inner, rest[1..])) else Err(Unclosed)
  }

  lemma ClosesSame(a: Parsed, b: Parsed, u: seq<Token>, v: seq<Token>, anywhere: bool)
    requires u != [] && v != [] && StandsAlone(u[0]) && StandsAlone(v[0]) && Same(a, b, u, v, anywhere)
    ensures Same(Closed(a), Closed(b), u, v, anywhere)
  {
    if a.Ok? && a.value.1 != b.value.1 {
      var x, y := a.value.1, b.value.1;
      var p :| Before(p, x, y, u, v, anywhere);
      if p == [] {
        assert x == u && y == v;
      } else {
        LeadsOn(p, u, anywhere);
        LeadsOn(p, v, anywhere);
        assert Before(p[1..], x[1..], y[1..], u, v, anywhere);
      }
    }
  }

  lemma {:induction false} UnarySame(t: Text, p: seq<Token>, u: seq<Token>, v: seq<Token>, anywhere: bool)
    requires Alike(t, u, v, anywhere) && Leads(p, anywhere) && (p != [] || anywhere)
    ensures Same(ParseUnary(t, p + u), ParseUnary(t, p + v), u, v, anywhere)
    decreases |p|, 1
  {
    if p == [] {
      assert p + u == u && p + v == v;
    } else {
      LeadsOn(p, u, anywhere);
      LeadsOn(p, v, anywhere);
      if Keyword(p, "NOT") {
        UnarySame(t, p[1..], u, v, anywhere);
      } else if MinusBefore(p) {
        PrimarySame(t, p[1..], u, v, anywhere);
      } else if p[0].Word? && |p[0].text| > 1 && p[0].text[0] == '-' {
        ChunkSame(t, p[0].text[1..], p[1..], u, v, anywhere);
      } else {
        PrimarySame(t, p, u, v, anywhere);
      }
    }
  }

  lemma {:induction false} AndSame(t: Text, p: seq<Token>, u: seq<Token>, v: seq<Token>, anywhere: bool)
    requires Alike(t, u, v, anywhere) && Leads(p, anywhere) && (p != [] || anywhere)
    ensures Same(ParseAnd(t, p + u), ParseAnd(t, p + v), u, v, anywhere)
    decreases |p|, 3
  {
    UnarySame(t, p, u, v, anywhere);
    if ParseUnary(t, p + u).Ok? {
      var first, x, y := ParseUnary(t, p + u).value.0, ParseUnary(t, p + u).value.1, ParseUnary(t, p + v).value.1;
      if x != y {
        var q :| Before(q, x, y, u, v, anywhere);
        AndLoopSame(t, [first], q, u, v, anywhere);
      }
    }
  }

  lemma {:induction false} AndLoopSame(t: Text, children: seq<Node>, p: seq<Token>, u: seq<Token>, v: seq<Token>, anywhere: bool)
    requires Alike(t, u, v, anywhere) && Leads(p, anywhere) && children != []
    ensures Same(AndLoop(t, children, p + u), AndLoop(t, children, p + v), u, v, anywhere)
    decreases |p|, 2
  {
    if p == [] {
      assert p + u == u && p + v == v;
    } else if EndsAnd(p) {
      assert Before(p, p + u, p + v, u, v, anywhere);
    } else {
      LeadsOn(p, u, anywhere);
      LeadsOn(p, v, anywhere);
      var q := if Keyword(p, "AND") then p[1..] else p;
      if !(Keyword(p, "AND") && p[1..] != [] && p[1].Close?) {
        UnarySame(t, q, u, v, anywhere);
        if ParseUnary(t, q + u).Ok? {
          var next, x, y := ParseUnary(t, q + u).value.0, ParseUnary(t, q + u).value.1, ParseUnary(t, q + v).value.1;
          if x != y {
            var more :| Before(more, x, y, u, v, anywhere);
            AndLoopSame(t, children + [next], more, u, v, anywhere);
          }
        }
      }
    }
  }

  lemma {:induction false} OrSame(t: Text, p: seq<Token>, u: seq<Token>, v: seq<Token>, anywhere: bool)
    requires Alike(t, u, v, anywhere) && Leads(p, anywhere) && (p != [] || anywhere)
    ensures Same(ParseOr(t, p + u), ParseOr(t, p + v), u, v, anywhere)
    decreases |p|, 5
  {
    AndSame(t, p, u, v, anywhere);
    if ParseAnd(t, p + u).Ok? {
      var first, x, y := ParseAnd(t, p + u).value.0, ParseAnd(t, p + u).value.1, ParseAnd(t, p + v).value.1;
      if x != y {
        var q :| Before(q, x, y, u, v, anywhere);
        OrLoopSame(t, [first], q, u, v, anywhere);
      }
    }
  }

  lemma {:induction false} OrLoopSame(t: Text, children: seq<Node>, p: seq<Token>, u: seq<Token>, v: seq<Token>, anywhere: bool)
    requires Alike(t, u, v, anywhere) && Leads(p, anywhere) && children != []
    ensures Same(OrLoop(t, children, p + u), OrLoop(t, children, p + v), u, v, anywhere)
    decreases |p|, 4
  {
    assert Before(p, p + u, p + v, u, v, anywhere);
    if p == [] {
      assert p + u == u && p + v == v;
    } else if Keyword(p, "OR") {
      LeadsOn(p, u, anywhere);
      LeadsOn(p, v, anywhere);
      AndSame(t, p[1..], u, v, anywhere);
      if ParseAnd(t, p[1..] + u).Ok? {
        var next, x, y := ParseAnd(t, p[1..] + u).value.0, ParseAnd(t, p[1..] + u).value.1, ParseAnd(t, p[1..] + v).value.1;
        if x != y {
          var q :| Before(q, x, y, u, v, anywhere);
          OrLoopSame(t, children + [next], q, u, v, anywhere);
        }
      }
    }
  }

  /** Where the two are alike, so is the whole query. */
  lemma TokensSame(t: Text, p: seq<Token>, u: seq<Token>, v: seq<Token>, anywhere: bool)
    requires Alike(t, u, v, anywhere) && Leads(p, anywhere) && (p != [] || anywhere)
    ensures ParseTokens(t, p + u) == ParseTokens(t, p + v)
  {
    OrSame(t, p, u, v, anywhere);
    if ParseOr(t, p + u).Ok? {
      var x, y := ParseOr(t, p + u).value.1, ParseOr(t, p + v).value.1;
      if x != y {
        var q :| Before(q, x, y, u, v, anywhere);
      }
    }
  }

  // ---- AND ----

  predicate BeginsTerm(toks: seq<Token>) {
    toks != [] && !toks[0].Close? && !Keyword(toks, "AND") && !Keyword(toks, "OR")
  }

  /** Past a term, AND changes nothing about how the next is taken. */
  lemma AndSkips(t: Text, children: seq<Node>, toks: seq<Token>, adjacent: bool)
    requires children != [] && BeginsTerm(toks)
    ensures AndLoop(t, children, [Word("AND", adjacent)] + toks) == AndLoop(t, children, toks)
  {
    assert ([Word("AND", adjacent)] + toks)[1..] == toks;
  }

  /** Between two terms, AND may be left out. */
  lemma AndBetweenTerms(t: Text, before: seq<Token>, after: seq<Token>, adjacent: bool)
    requires EndsTerm(before) && BeginsTerm(after) && StandsAlone(after[0])
    ensures ParseTokens(t, before + ([Word("AND", adjacent)] + after)) == ParseTokens(t, before + after)
  {
    var u := [Word("AND", adjacent)] + after;
    forall children: seq<Node> | children != []
      ensures AndLoop(t, children, u) == AndLoop(t, children, after)
    {
      AndSkips(t, children, after, adjacent);
    }
    TokensSame(t, before, u, after, false);
  }

  // ---- NOT ----

  /** What may be negated by a minus: a phrase, a group, or a word that is not itself a negation. */
  predicate Negatable(toks: seq<Token>) {
    toks != [] && !toks[0].Close? && (toks[0].Word? ==> toks[0].text != "" && toks[0].text[0] != '-' && toks[0].text != "NOT")
  }

  /** The same tokens with a minus pressed against them. */
  function WithMinus(toks: seq<Token>, adjacent: bool): seq<Token>
    requires Negatable(toks)
  {
    match toks[0]
    case Word(text, _) => [Word("-" + text, adjacent)] + toks[1..]
    case Phrase(text, _) => [Word("-", adjacent), Phrase(text, true)] + toks[1..]
    case _ => [Word("-", adjacent), Open(true)] + toks[1..]
  }

  lemma NotIsMinus(t: Text, toks: seq<Token>, adjacent: bool)
    requires Negatable(toks)
    ensures ParseUnary(t, [Word("NOT", adjacent)] + toks) == ParseUnary(t, WithMinus(toks, adjacent))
  {
    var u, v := [Word("NOT", adjacent)] + toks, WithMinus(toks, adjacent);
    assert u[1..] == toks;
    assert ParseUnary(t, toks) == ParsePrimary(t, toks);
    match toks[0]
    case Word(text, _) =>
      var w := "-" + text;
      assert v[0].text == w && w[0] == '-' && w[1..] == text && v[1..] == toks[1..];
    case Phrase(text, _) =>
      assert v[1..] == [Phrase(text, true)] + toks[1..];
      assert v[1..][1..] == toks[1..];
    case Open(_) =>
      assert v[1..] == [Open(true)] + toks[1..];
      assert v[1..][1..] == toks[1..];
    case Close(_) =>
  }

  /** Wherever it stands, NOT before a term is a minus pressed against it. */
  lemma NotAnywhere(t: Text, before: seq<Token>, after: seq<Token>, adjacent: bool)
    requires Negatable(after)
    ensures ParseTokens(t, before + ([Word("NOT", adjacent)] + after)) == ParseTokens(t, before + WithMinus(after, adjacent))
  {
    var u, v := [Word("NOT", adjacent)] + after, WithMinus(after, adjacent);
    NotIsMinus(t, after, adjacent);
    assert v[0].Word? && v[0].text[0] == '-';
    TokensSame(t, before, u, v, true);
  }

  // ---- in the text of a query ----

  lemma LexQuotedJoins(s: string, quote: char, more: string)
    requires LexQuoted(s, quote).Some?
    ensures LexQuoted(s + more, quote) == Some((LexQuoted(s, quote).value.0, LexQuoted(s, quote).value.1 + more))
    decreases |s|
  {
    if s[0] == '\\' {
      LexQuotedJoins(s[2..], quote, more);
      assert (s + more)[2..] == s[2..] + more;
    } else {
      assert (s + more)[1..] == s[1..] + more;
      if s[0] != quote {
        LexQuotedJoins(s[1..], quote, more);
      }
    }
  }

  lemma WordEndIs(t: Text, s: string, k: nat, end: nat)
    requires k <= end <= |s| && (end < |s| ==> Stops(t, s, end)) && forall j :: k <= j < end ==> !Stops(t, s, j)
    ensures WordEnd(t, s, k) == end
  {
  }

  /** The first token of a text, or the space it begins with, and what follows. */
  datatype Lexeme = Lexeme(toks: seq<Token>, rest: string, space: bool)

  function First(t: Text, s: string, space: bool): (r: Option<Lexeme>)
    requires s != ""
    ensures r.Some? ==> |r.value.rest| < |s|
  {
    if t.isSpace(s[0]) then Some(Lexeme([], s[1..], true))
    else if s[0] == '(' then Some(Lexeme([Open(!space)], s[1..], false))
    else if s[0] == ')' then Some(Lexeme([Close(!space)], s[1..], false))
    else if s[0] == '"' || s[0] == '\'' then
      match LexQuoted(s[1..], s[0])
      case None => None
      case Some((text, rest)) => Some(Lexeme([Phrase(text, !space)], rest, false))
    else
      var end := WordEnd(t, s, 1);
      Some(Lexeme([Word(s[..end], !space)], s[end..], false))
  }

  lemma LexFirst(t: Text, s: string, space: bool)
    requires s != ""
    ensures Lex(t, s, space) == match First(t, s, space)
                                case None => Err(Unterminated)
                                case Some(l) => PrependAll(l.toks, Lex(t, l.rest, l.space))
  {
    PrependNone(Lex(t, s[1..], true));
  }

  lemma PrependNone(r: Result<seq<Token>, ParseError>)
    ensures PrependAll([], r) == r
  {
    if r.Ok? {
      assert [] + r.value == r.value;
    }
  }

  /** Whether what follows this text does not go on a word it ends in. */
  predicate EndsHere(t: Text, before: string, more: string)
    decreases |before|
  {
    before == "" ||
    match First(t, before, false)
    case None => false
    case Some(l) => EndsHere(t, l.rest, more) && (l.rest == "" && l.toks != [] && l.toks[0].Word? ==> Ends(t, before, more))
  }

  predicate Ends(t: Text, word: string, more: string) {
    more == "" || t.isSpace(more[0]) || more[0] in {'(', ')', '"'} || (more[0] == '\'' && OpensQuote(word))
  }

  lemma FirstJoins(t: Text, s: string, more: string, space: bool)
    requires s != "" && First(t, s, space).Some? && EndsHere(t, s, more)
    ensures var l := First(t, s, space).value; First(t, s + more, space) == Some(l.(rest := l.rest + more)) && EndsHere(t, l.rest, more)
  {
    var all := s + more;
    assert all[0] == s[0] && all[1..] == s[1..] + more;
    if t.isSpace(s[0]) || s[0] == '(' || s[0] == ')' {
    } else if s[0] == '"' || s[0] == '\'' {
      LexQuotedJoins(s[1..], s[0], more);
    } else {
      var end := WordEnd(t, s, 1);
      forall k | 1 <= k <= end && k < |s|
        ensures Stops(t, all, k) <==> Stops(t, s, k)
      {
        assert all[..k] == s[..k] && all[k] == s[k];
      }
      assert all[..|s|] == s;
      WordEndIs(t, all, 1, end);
      assert all[..end] == s[..end] && all[end..] == s[end..] + more;
    }
  }

  /** Two texts lexed alike, after a text at whose end both end a word. */
  lemma {:induction false} LexSame(t: Text, before: string, u: string, v: string, space: bool)
    requires Lex(t, before, space).Ok? && EndsHere(t, before, u) && EndsHere(t, before, v)
    requires forall sp: bool :: Lex(t, u, sp) == Lex(t, v, sp)
    ensures Lex(t, before + u, space) == Lex(t, before + v, space)
    decreases |before|
  {
    if before == "" {
      assert before + u == u && before + v == v;
    } else {
      LexFirst(t, before, space);
      FirstJoins(t, before, u, space);
      FirstJoins(t, before, v, space);
      LexFirst(t, before + u, space);
      LexFirst(t, before + v, space);
      var l := First(t, before, space).value;
      LexSame(t, l.rest, u, v, l.space);
    }
  }

  lemma {:induction false} SpaceEnds(t: Text, before: string, more: string, space: bool)
    requires t.isSpace(' ') && Lex(t, before, space).Ok? && more != "" && more[0] == ' '
    ensures EndsHere(t, before, more)
    decreases |before|
  {
    if before != "" {
      LexFirst(t, before, space);
      var l := First(t, before, space).value;
      SpaceEnds(t, l.rest, more, l.space);
    }
  }

  lemma {:induction false} LexJoins(t: Text, before: string, more: string, space: bool)
    requires t.isSpace(' ') && Lex(t, before, space).Ok?
    ensures Lex(t, before + " " + more, space) == PrependAll(Lex(t, before, space).value, Lex(t, more, true))
    decreases |before|
  {
    var tail := " " + more;
    assert before + " " + more == before + tail && tail[1..] == more;
    if before == "" {
      assert before + tail == tail;
      PrependNone(Lex(t, more, true));
    } else {
      SpaceEnds(t, before, tail, space);
      LexFirst(t, before, space);
      FirstJoins(t, before, tail, space);
      LexFirst(t, before + tail, space);
      var l := First(t, before, space).value;
      LexJoins(t, l.rest, more, l.space);
      assert l.rest + " " + more == l.rest + tail;
      PrependTwice(l.toks, Lex(t, l.rest, l.space).value, Lex(t, more, true));
    }
  }

  /** After a space, the first token is pressed against nothing. */
  lemma {:induction false} FirstAlone(t: Text, s: string)
    ensures Lex(t, s, true).Ok? && Lex(t, s, true).value != [] ==> !Lex(t, s, true).value[0].adjacent
    decreases |s|
  {
    if s != "" && t.isSpace(s[0]) {
      FirstAlone(t, s[1..]);
    }
  }

  /** Two ways to go on after some text and a space, from which the same comes of any tokens before them. */
  ghost predicate GoOnAlike(t: Text, done: seq<Token>, u: Result<seq<Token>, ParseError>, v: Result<seq<Token>, ParseError>) {
    match (u, v)
    case (Ok(x), Ok(y)) => ParseTokens(t, done + x) == ParseTokens(t, done + y)
    case (Err(e), Err(f)) => e == f
    case _ => false
  }

  lemma ParseJoins(t: Text, before: string, u: string, v: string)
    requires Sane(t) && Lex(t, before, true).Ok? && GoOnAlike(t, Lex(t, before, true).value, Lex(t, u, true), Lex(t, v, true))
    ensures Parse(t, before + " " + u) == Parse(t, before + " " + v)
  {
    LexJoins(t, before, u, true);
    LexJoins(t, before, v, true);
  }

  /** AND between two terms may be left out. */
  lemma AndIsOptional(t: Text, before: string, after: string)
    requires Sane(t) && Lex(t, before, true).Ok? && EndsTerm(Lex(t, before, true).value)
    requires Lex(t, after, true).Ok? ==> BeginsTerm(Lex(t, after, true).value)
    ensures Parse(t, before + " AND " + after) == Parse(t, before + " " + after)
  {
    var u := "AND" + " " + after;
    LexKeyword(t, "AND", after);
    FirstAlone(t, after);
    AndGoesOn(t, Lex(t, before, true).value, Lex(t, after, true));
    ParseJoins(t, before, u, after);
    AndPlaces(before, after);
  }

  lemma AndPlaces(before: string, after: string)
    ensures before + " AND " + after == before + " " + ("AND" + " " + after)
  {
  }

  lemma AndGoesOn(t: Text, done: seq<Token>, after: Result<seq<Token>, ParseError>)
    requires EndsTerm(done) && (after.Ok? ==> BeginsTerm(after.value) && !after.value[0].adjacent)
    ensures GoOnAlike(t, done, PrependAll([Word("AND", false)], after), after)
  {
    if after.Ok? {
      AndBetweenTerms(t, done, after.value, false);
    }
  }

  lemma LexKeyword(t: Text, word: string, after: string)
    requires Sane(t) && (word == "AND" || word == "NOT")
    ensures Lex(t, word + " " + after, true) == PrependAll([Word(word, false)], Lex(t, after, true))
  {
    assert WordOk(t, word);
    assert word + " " + after == word + (" " + after);
    LexWord(t, word, " " + after, true);
    LexSpace(t, after, false);
  }

  /** A term a minus may be pressed against. */
  predicate MinusFits(t: Text, after: string) {
    && after != "" && !t.isSpace(after[0]) && after[0] != '-' && after[0] != ')'
    && (Lex(t, after, true).Ok? ==> !Keyword(Lex(t, after, true).value, "NOT"))
  }

  /** NOT before a term is a minus pressed against it. */
  lemma NotMayBeMinus(t: Text, before: string, after: string)
    requires Sane(t) && Lex(t, before, true).Ok? && MinusFits(t, after)
    ensures Parse(t, before + " NOT " + after) == Parse(t, before + " -" + after)
  {
    var u, v := "NOT" + " " + after, "-" + after;
    LexKeyword(t, "NOT", after);
    LexMinus(t, after);
    NotGoesOn(t, Lex(t, before, true).value, Lex(t, after, true), Lex(t, v, true));
    ParseJoins(t, before, u, v);
    NotPlaces(before, after);
  }

  lemma NotPlaces(before: string, after: string)
    ensures before + " NOT " + after == before + " " + ("NOT" + " " + after) && before + " -" + after == before + " " + ("-" + after)
  {
  }

  lemma NotGoesOn(t: Text, done: seq<Token>, after: Result<seq<Token>, ParseError>, minus: Result<seq<Token>, ParseError>)
    requires match after
             case Ok(toks) => Negatable(toks) && minus == Ok(WithMinus(toks, false))
             case Err(e) => minus == Err(e)
    ensures GoOnAlike(t, done, PrependAll([Word("NOT", false)], after), minus)
  {
    if after.Ok? {
      NotAnywhere(t, done, after.value, false);
    }
  }

  lemma LexMinus(t: Text, after: string)
    requires Sane(t) && MinusFits(t, after)
    ensures match Lex(t, after, true)
            case Ok(toks) => Negatable(toks) && Lex(t, "-" + after, true) == Ok(WithMinus(toks, false))
            case Err(e) => Lex(t, "-" + after, true) == Err(e)
  {
    var s := "-" + after;
    LexFirst(t, after, true);
    LexFirst(t, s, true);
    MinusFirst(t, after);
    if after[0] in {'(', '"', '\''} {
      LexFirst(t, after, false);
    }
    if First(t, after, true).Some? {
      var l := First(t, after, true).value;
      if Lex(t, l.rest, false).Ok? {
        WithMinusIs(l.toks[0], Lex(t, l.rest, false).value);
      }
    }
  }

  lemma WithMinusIs(tok: Token, more: seq<Token>)
    ensures Negatable([tok] + more) ==>
              WithMinus([tok] + more, false) ==
              match tok
              case Word(text, _) => [Word("-" + text, false)] + more
              case Phrase(text, _) => [Word("-", false)] + ([Phrase(text, true)] + more)
              case _ => [Word("-", false)] + ([Open(true)] + more)
  {
    assert ([tok] + more)[1..] == more;
  }

  /** What a minus before a text makes of its first token. */
  lemma MinusFirst(t: Text, after: string)
    requires Sane(t) && after != "" && !t.isSpace(after[0]) && after[0] != '-' && after[0] != ')'
    ensures First(t, "-" + after, true) ==
            if after[0] in {'(', '"', '\''} then Some(Lexeme([Word("-", false)], after, false))
            else var l := First(t, after, true).value; Some(Lexeme([Word("-" + l.toks[0].text, false)], l.rest, false))
  {
    var s := "-" + after;
    assert s[..1] == "-" && s[1..] == after && '-' in Marks;
    if after[0] in {'(', '"', '\''} {
      WordEndIs(t, s, 1, 1);
    } else {
      var end := WordEnd(t, after, 1);
      forall k | 1 < k <= end + 1 && k < |s|
        ensures Stops(t, s, k) <==> Stops(t, after, k - 1)
      {
        assert s[k] == after[k - 1] && s[..k] == "-" + after[..k - 1];
        MinusOpens(after[..k - 1]);
      }
      WordEndIs(t, s, 1, end + 1);
      assert s[..end + 1] == "-" + after[..end] && s[end + 1..] == after[end..];
    }
  }

  lemma MinusOpens(s: string)
    requires s != "" && s[0] != '-'
    ensures OpensQuote("-" + s) == OpensQuote(s)
  {
    assert ("-" + s)[1..] == s;
  }

  // ---- apostrophes ----

  /** Where an apostrophe begins a quoted string, it does what a quotation mark does. */
  lemma QuotesAlike(t: Text, before: string, text: string, after: string)
    requires Sane(t) && Lex(t, before, true).Ok? && EndsHere(t, before, "'")
    ensures Parse(t, before + Between('\'', text) + after) == Parse(t, before + Between('"', text) + after)
  {
    var u, v := Between('\'', text) + after, Between('"', text) + after;
    assert '\'' in Marks && '"' in Marks;
    forall sp: bool
      ensures Lex(t, u, sp) == Lex(t, v, sp)
    {
      LexBetween(t, '\'', text, after, sp);
      LexBetween(t, '"', text, after, sp);
    }
    FirstDecides(t, before, "'", u);
    FirstDecides(t, before, "'", v);
    LexSame(t, before, u, v, true);
    Assoc(before, Between('\'', text), after);
    Assoc(before, Between('"', text), after);
  }

  lemma {:induction false} FirstDecides(t: Text, before: string, u: string, v: string)
    requires u != "" && v != "" && (u[0] == v[0] || v[0] == '"') && EndsHere(t, before, u)
    ensures EndsHere(t, before, v)
    decreases |before|
  {
    if before != "" {
      FirstDecides(t, First(t, before, false).value.rest, u, v);
    }
  }

  // ---- nil ----

  /** The same tree with every null spelled one way. */
  function Nulled(node: Node): Node {
    match node
    case Comparison(field, op, l) => Comparison(field, op, if l.kind == KindNull then Literal(KindNull, "null", l.num, l.flag, l.quoted) else l)
    case Text(s) => Node.Text(s)
    case Not(child) => Not(Nulled(child))
    case And(children) => And(seq(|children|, i requires 0 <= i < |children| => Nulled(children[i])))
    case Or(children) => Or(seq(|children|, i requires 0 <= i < |children| => Nulled(children[i])))
  }

  function NulledAll(nodes: seq<Node>): seq<Node> {
    seq(|nodes|, i requires 0 <= i < |nodes| => Nulled(nodes[i]))
  }

  /** How null is spelled means nothing to the records a query accepts, nor to what is refused of it. */
  lemma {:induction false} NulledMeansTheSame(lib: Lib, node: Node, rec: Record)
    ensures Accepts(lib, Nulled(node), rec) == Accepts(lib, node, rec)
    ensures Refused(lib, Nulled(node)) == Refused(lib, node)
  {
    match node
    case Comparison(_, _, _) =>
    case Text(_) =>
    case Not(child) => NulledMeansTheSame(lib, child, rec);
    case And(children) =>
      forall i | 0 <= i < |children|
        ensures Accepts(lib, Nulled(children[i]), rec) == Accepts(lib, children[i], rec) && Refused(lib, Nulled(children[i])) == Refused(lib, children[i])
      {
        NulledMeansTheSame(lib, children[i], rec);
      }
      FirstNulledRefused(lib, children, NulledAll(children));
      assert Nulled(node).all == NulledAll(children);
    case Or(children) =>
      forall i | 0 <= i < |children|
        ensures Accepts(lib, Nulled(children[i]), rec) == Accepts(lib, children[i], rec) && Refused(lib, Nulled(children[i])) == Refused(lib, children[i])
      {
        NulledMeansTheSame(lib, children[i], rec);
      }
      FirstNulledRefused(lib, children, NulledAll(children));
      assert Nulled(node).any == NulledAll(children);
  }

  lemma {:induction false} FirstNulledRefused(lib: Lib, a: seq<Node>, b: seq<Node>)
    requires |a| == |b| && forall i :: 0 <= i < |a| ==> Refused(lib, b[i]) == Refused(lib, a[i])
    ensures FirstRefused(lib, b) == FirstRefused(lib, a)
  {
    if a != [] {
      FirstNulledRefused(lib, a[1..], b[1..]);
    }
  }

  /** A word that compares a field with null. */
  predicate AsksForNull(t: Text, text: string) {
    Split(text).Some? && var c := Split(text).value; c.rest != "" && c.rest != "*" && LiteralOf(t, c.rest).kind == KindNull
  }

  /** Such a word with null spelled out. */
  function NullWord(t: Text, text: string): string {
    if AsksForNull(t, text) then Split(text).value.field + ShowOp(Split(text).value.op) + "null" else text
  }

  function NullToken(t: Text, tok: Token): Token {
    if tok.Word? then Word(NullWord(t, tok.text), tok.adjacent) else tok
  }

  function NullTokens(t: Text, toks: seq<Token>): seq<Token> {
    seq(|toks|, i requires 0 <= i < |toks| => NullToken(t, toks[i]))
  }

  function NullParsed(t: Text, r: Parsed): Parsed {
    match r
    case Ok((node, rest)) => Ok((Nulled(node), NullTokens(t, rest)))
    case Err(e) => Err(e)
  }

  lemma NullWordSplits(t: Text, text: string)
    requires AsksForNull(t, text)
    ensures Split(NullWord(t, text)) == Some(Split(text).value.(rest := "null"))
  {
    var c := Split(text).value;
    SplitParts(text);
    SplitBack(c.field, c.op, "null");
  }

  /** A word and its respelling: neither is a keyword or a minus, and they begin alike. */
  lemma NullWordHead(t: Text, text: string)
    requires AsksForNull(t, text)
    ensures var w := NullWord(t, text); !IsKeyword(w) && !IsKeyword(text) && w != "-" && text != "-"
    ensures var w := NullWord(t, text); w != "" && text != "" && w[0] == text[0] && (|w| > 1 <==> |text| > 1)
  {
    var c := Split(text).value;
    SplitParts(text);
    assert text[|c.field|] == ShowOp(c.op)[0] == NullWord(t, text)[|c.field|];
    OperatorWord(text, |c.field|);
    OperatorWord(NullWord(t, text), |c.field|);
  }

  lemma NullWordTail(t: Text, text: string)
    requires text != "" && !IsOperator(text[0])
    ensures NullWord(t, text) == [text[0]] + NullWord(t, text[1..])
  {
    assert text == [text[0]] + text[1..];
    if AsksForNull(t, text) {
      var c := Split(text[1..]).value;
      assert Split(text).value.field == [text[0]] + c.field;
      Assoc([text[0]], c.field, ShowOp(c.op));
      Assoc([text[0]], c.field + ShowOp(c.op), "null");
    }
  }

  lemma ChunkNulled(t: Text, text: string, rest: seq<Token>)
    requires t.lower("null") == "null"
    ensures ParseChunk(t, NullWord(t, text), NullTokens(t, rest)) == NullParsed(t, ParseChunk(t, text, rest))
  {
    NullTail(t, rest);
    if AsksForNull(t, text) {
      NullWordSplits(t, text);
    }
  }

  lemma NullTail(t: Text, toks: seq<Token>)
    ensures toks != [] ==> NullTokens(t, toks)[1..] == NullTokens(t, toks[1..])
  {
  }

  lemma {:induction false} PrimaryNulled(t: Text, toks: seq<Token>)
    requires t.lower("null") == "null"
    ensures ParsePrimary(t, NullTokens(t, toks)) == NullParsed(t, ParsePrimary(t, toks))
    decreases |toks|, 0
  {
    NullTail(t, toks);
    if toks != [] {
      match toks[0]
      case Open(_) =>
        OrNulled(t, toks[1..]);
        if ParseOr(t, toks[1..]).Ok? {
          NullTail(t, ParseOr(t, toks[1..]).value.1);
        }
        GroupIs(t, toks);
        GroupIs(t, NullTokens(t, toks));
      case Word(text, _) => ChunkNulled(t, text, toks[1..]);
      case _ =>
    }
  }

  lemma {:induction false} UnaryNulled(t: Text, toks: seq<Token>)
    requires t.lower("null") == "null"
    ensures ParseUnary(t, NullTokens(t, toks)) == NullParsed(t, ParseUnary(t, toks))
    decreases |toks|, 1
  {
    NullTail(t, toks);
    if toks != [] {
      UnaryNulledHead(t, toks);
      if Keyword(toks, "NOT") {
        UnaryNulled(t, toks[1..]);
      } else if MinusBefore(toks) {
        PrimaryNulled(t, toks[1..]);
      } else if toks[0].Word? && |toks[0].text| > 1 && toks[0].text[0] == '-' {
        NullWordTail(t, toks[0].text);
        ChunkNulled(t, toks[0].text[1..], toks[1..]);
      } else {
        PrimaryNulled(t, toks);
      }
    }
  }

  lemma UnaryNulledHead(t: Text, toks: seq<Token>)
    requires toks != []
    ensures Keyword(NullTokens(t, toks), "NOT") == Keyword(toks, "NOT") && MinusBefore(NullTokens(t, toks)) == MinusBefore(toks)
    ensures Keyword(NullTokens(t, toks), "AND") == Keyword(toks, "AND") && Keyword(NullTokens(t, toks), "OR") == Keyword(toks, "OR")
    ensures toks[0].Word? ==>
              var w := NullWord(t, toks[0].text); (|w| > 1 && w[0] == '-' <==> |toks[0].text| > 1 && toks[0].text[0] == '-')
  {
    if toks[0].Word? && AsksForNull(t, toks[0].text) {
      NullWordHead(t, toks[0].text);
    }
  }

  lemma NulledNext(children: seq<Node>, next: Node)
    ensures NulledAll(children + [next]) == NulledAll(children) + [Nulled(next)]
  {
  }

  lemma {:induction false} AndNulled(t: Text, toks: seq<Token>)
    requires t.lower("null") == "null"
    ensures ParseAnd(t, NullTokens(t, toks)) == NullParsed(t, ParseAnd(t, toks))
    decreases |toks|, 3
  {
    UnaryNulled(t, toks);
    if ParseUnary(t, toks).Ok? {
      var first, rest := ParseUnary(t, toks).value.0, ParseUnary(t, toks).value.1;
      AndLoopNulled(t, [first], rest);
      assert NulledAll([first]) == [Nulled(first)];
    }
  }

  lemma {:induction false} AndLoopNulled(t: Text, children: seq<Node>, toks: seq<Token>)
    requires t.lower("null") == "null" && children != []
    ensures AndLoop(t, NulledAll(children), NullTokens(t, toks)) == NullParsed(t, AndLoop(t, children, toks))
    decreases |toks|, 2
  {
    NullTail(t, toks);
    if toks != [] {
      UnaryNulledHead(t, toks);
      var q := if Keyword(toks, "AND") then toks[1..] else toks;
      UnaryNulled(t, q);
      if !EndsAnd(toks) && ParseUnary(t, q).Ok? {
        var next, rest := ParseUnary(t, q).value.0, ParseUnary(t, q).value.1;
        AndLoopNulled(t, children + [next], rest);
        NulledNext(children, next);
      }
    }
  }

  lemma {:induction false} OrNulled(t: Text, toks: seq<Token>)
    requires t.lower("null") == "null"
    ensures ParseOr(t, NullTokens(t, toks)) == NullParsed(t, ParseOr(t, toks))
    decreases |toks|, 5
  {
    AndNulled(t, toks);
    if ParseAnd(t, toks).Ok? {
      var first, rest := ParseAnd(t, toks).value.0, ParseAnd(t, toks).value.1;
      OrLoopNulled(t, [first], rest);
      assert NulledAll([first]) == [Nulled(first)];
    }
  }

  lemma {:induction false} OrLoopNulled(t: Text, children: seq<Node>, toks: seq<Token>)
    requires t.lower("null") == "null" && children != []
    ensures OrLoop(t, NulledAll(children), NullTokens(t, toks)) == NullParsed(t, OrLoop(t, children, toks))
    decreases |toks|, 4
  {
    NullTail(t, toks);
    if toks != [] {
      UnaryNulledHead(t, toks);
      if Keyword(toks, "OR") {
        AndNulled(t, toks[1..]);
        if ParseAnd(t, toks[1..]).Ok? {
          var next, rest := ParseAnd(t, toks[1..]).value.0, ParseAnd(t, toks[1..]).value.1;
          OrLoopNulled(t, children + [next], rest);
          NulledNext(children, next);
        }
      }
    }
  }

  /** Refused alike, or trees that accept this record alike and are refused alike by the compilers. */
  ghost predicate MeanTheSame(lib: Lib, a: Result<Option<Node>, ParseError>, b: Result<Option<Node>, ParseError>, rec: Record) {
    if a.Ok? && b.Ok? then
      if a.value.None? || b.value.None? then a.value.None? && b.value.None?
      else Accepts(lib, a.value.value, rec) == Accepts(lib, b.value.value, rec) && Refused(lib, a.value.value) == Refused(lib, b.value.value)
    else a.Err? && b.Err? && a.error == b.error
  }

  /** Queries that differ in how they spell null are refused alike, or parse to trees that mean the same. */
  lemma NilIsNull(t: Text, lib: Lib, a: seq<Token>, b: seq<Token>, rec: Record)
    requires t.lower("null") == "null" && NullTokens(t, a) == NullTokens(t, b)
    ensures MeanTheSame(lib, ParseTokens(t, a), ParseTokens(t, b), rec)
  {
    OrNulled(t, a);
    OrNulled(t, b);
    NullEmpty(t, a, b);
    if a != [] && ParseOr(t, a).Ok? {
      NullEmpty(t, ParseOr(t, a).value.1, ParseOr(t, b).value.1);
      NulledMeansTheSame(lib, ParseOr(t, a).value.0, rec);
      NulledMeansTheSame(lib, ParseOr(t, b).value.0, rec);
    }
  }

  lemma NullEmpty(t: Text, a: seq<Token>, b: seq<Token>)
    requires NullTokens(t, a) == NullTokens(t, b)
    ensures a == [] <==> b == []
  {
    assert |NullTokens(t, a)| == |a| && |NullTokens(t, b)| == |b|;
  }

  /** `field=nil` is `field=null`, anywhere in a query. */
  lemma NilMayBeNull(t: Text, lib: Lib, before: string, minus: string, field: string, op: Op, after: string, rec: Record)
    requires Sane(t) && !t.isSpace('i') && t.lower("nil") == "nil" && Lex(t, before, true).Ok?
    requires (minus == "" || minus == "-") && FieldOk(t, field, minus == "-") && op != Exists
    ensures var w := minus + (field + ShowOp(op));
            MeanTheSame(lib, Parse(t, before + " " + (w + "nil" + " " + after)), Parse(t, before + " " + (w + "null" + " " + after)), rec)
  {
    var w := minus + (field + ShowOp(op));
    LexNull(t, minus, field, op, "nil", after);
    LexNull(t, minus, field, op, "null", after);
    LexJoins(t, before, w + "nil" + " " + after, true);
    LexJoins(t, before, w + "null" + " " + after, true);
    if Lex(t, after, true).Ok? {
      var first, last := Lex(t, before, true).value, Lex(t, after, true).value;
      NullPlaces(t, first, minus, field, op, last);
      NilIsNull(t, lib, first + ([Word(w + "nil", false)] + last), first + ([Word(w + "null", false)] + last), rec);
    }
  }

  /** The two spellings of a comparison with null are one. */
  lemma NullPlaces(t: Text, first: seq<Token>, minus: string, field: string, op: Op, last: seq<Token>)
    requires (minus == "" || minus == "-") && NoOperator(field) && op != Exists && t.lower("nil") == "nil" && t.lower("null") == "null"
    ensures var w := minus + (field + ShowOp(op));
            NullTokens(t, first + ([Word(w + "nil", false)] + last)) == NullTokens(t, first + ([Word(w + "null", false)] + last))
  {
    Assoc(minus, field, ShowOp(op));
    SplitBack(minus + field, op, "nil");
    SplitBack(minus + field, op, "null");
    var w := minus + (field + ShowOp(op));
    assert w == minus + field + ShowOp(op);
    assert NullWord(t, w + "nil") == NullWord(t, w + "null");
  }

  lemma LexNull(t: Text, minus: string, field: string, op: Op, spelled: string, after: string)
    requires Sane(t) && !t.isSpace('i') && (minus == "" || minus == "-") && FieldOk(t, field, minus == "-") && op != Exists
    requires spelled == "nil" || spelled == "null"
    ensures Lex(t, minus + (field + ShowOp(op)) + spelled + " " + after, true) == PrependAll([Word(minus + (field + ShowOp(op)) + spelled, false)], Lex(t, after, true))
  {
    OpBare(t, op);
    BareJoins(t, ShowOp(op), spelled);
    LexBare(t, minus, field, ShowOp(op) + spelled, " " + after, true);
    LexSpace(t, after, false);
    Assoc(field, ShowOp(op), spelled);
    Assoc(minus, field + ShowOp(op), spelled);
    Assoc(minus + (field + ShowOp(op)) + spelled, " ", after);
  }
}
