/** The lexer and parser as they run: an index over characters, a position over tokens, and a token rewritten in place. */
module Parser {
  import opened Prelude
  import opened Rql
  import opened Syntax
  import RoundTrip

  // ---- the lexer ----

  /** Where the quoted string that begins at start ends, and what it says. */
  method LexQuotedAt(s: string, start: nat) returns (r: Option<(string, nat)>)
    requires start < |s|
    ensures match LexQuoted(s[start + 1..], s[start])
            case None => r.None?
            case Some((text, rest)) => r.Some? && r.value.0 == text && start < r.value.1 <= |s| && s[r.value.1..] == rest
  {
    var quote := s[start];
    var text := "";
    var i := start + 1;
    Nothing(LexQuoted(s[i..], quote));
    while i < |s|
      invariant start < i <= |s|
      invariant LexQuoted(s[start + 1..], quote) == Before(text, LexQuoted(s[i..], quote))
      decreases |s| - i
    {
      QuotedStep(s, i, quote);
      if s[i] == '\\' {
        if i + 1 == |s| {
          return None;
        }
        assert Before(text, Before([s[i + 1]], LexQuoted(s[i + 2..], quote))) == Before(text + [s[i + 1]], LexQuoted(s[i + 2..], quote)) by {
          BeforeTwice(text, [s[i + 1]], LexQuoted(s[i + 2..], quote));
        }
        text := text + [s[i + 1]];
        i := i + 2;
      } else if s[i] == quote {
        assert text + "" == text;
        return Some((text, i + 1));
      } else {
        BeforeTwice(text, [s[i]], LexQuoted(s[i + 1..], quote));
        text := text + [s[i]];
        i := i + 1;
      }
    }
    return None;
  }

  function Before(text: string, r: Option<(string, string)>): Option<(string, string)> {
    match r
    case None => None
    case Some((more, rest)) => Some((text + more, rest))
  }

  lemma Nothing(r: Option<(string, string)>)
    ensures Before("", r) == r
  {
    if r.Some? {
      assert "" + r.value.0 == r.value.0;
    }
  }

  lemma BeforeTwice(a: string, b: string, r: Option<(string, string)>)
    ensures Before(a, Before(b, r)) == Before(a + b, r)
  {
    if r.Some? {
      Assoc(a, b, r.value.0);
    }
  }

  lemma QuotedStep(s: string, i: nat, quote: char)
    requires i < |s|
    ensures LexQuoted(s[i..], quote) ==
            if s[i] == '\\' then if i + 1 == |s| then None else Before([s[i + 1]], LexQuoted(s[i + 2..], quote))
            else if s[i] == quote then Some(("", s[i + 1..]))
            else Before([s[i]], LexQuoted(s[i + 1..], quote))
  {
    assert s[i..][1..] == s[i + 1..];
    if i + 1 < |s| {
      assert s[i..][2..] == s[i + 2..];
    }
  }

  lemma LexStep(t: Text, s: string, i: nat, space: bool)
    requires i < |s| && t.isSpace(s[i])
    ensures Lex(t, s[i..], space) == Lex(t, s[i + 1..], true)
  {
    assert s[i..][1..] == s[i + 1..];
  }

  lemma LexParen(t: Text, s: string, i: nat, space: bool)
    requires i < |s| && !t.isSpace(s[i]) && (s[i] == '(' || s[i] == ')')
    ensures Lex(t, s[i..], space) == RoundTrip.PrependAll([if s[i] == '(' then Open(!space) else Close(!space)], Lex(t, s[i + 1..], false))
  {
    assert s[i..][1..] == s[i + 1..];
  }

  lemma LexString(t: Text, s: string, i: nat, space: bool)
    requires i < |s| && !t.isSpace(s[i]) && (s[i] == '"' || s[i] == '\'')
    ensures match LexQuoted(s[i + 1..], s[i])
            case None => Lex(t, s[i..], space) == Err(Unterminated)
            case Some((text, rest)) => Lex(t, s[i..], space) == RoundTrip.PrependAll([Phrase(text, !space)], Lex(t, rest, false))
  {
    assert s[i..][1..] == s[i + 1..];
  }

  lemma LexChunk(t: Text, s: string, i: nat, end: nat, space: bool)
    requires i < end <= |s| && !t.isSpace(s[i]) && s[i] !in {'(', ')', '"', '\''} && end - i == WordEnd(t, s[i..], 1)
    ensures Lex(t, s[i..], space) == RoundTrip.PrependAll([Word(s[i..end], !space)], Lex(t, s[end..], false))
  {
    assert s[i..][..end - i] == s[i..end] && s[i..][end - i..] == s[end..];
  }

  /** Where the word that begins at start ends. */
  method WordEndAt(t: Text, s: string, start: nat) returns (end: nat)
    requires start < |s|
    ensures start < end <= |s| && end - start == WordEnd(t, s[start..], 1)
  {
    end := start + 1;
    while end < |s| && !(t.isSpace(s[end]) || s[end] == '(' || s[end] == ')' || s[end] == '"' || (s[end] == '\'' && OpensQuote(s[start..end])))
      invariant start < end <= |s| && WordEnd(t, s[start..], 1) == WordEnd(t, s[start..], end - start)
    {
      assert s[start..][..end - start] == s[start..end];
      end := end + 1;
    }
    if end < |s| {
      assert s[start..][..end - start] == s[start..end];
    }
  }

  method LexAll(t: Text, s: string) returns (r: Result<seq<Token>, ParseError>)
    ensures r == Lex(t, s, true)
  {
    var toks: seq<Token> := [];
    var i, space := 0, true;
    assert s[0..] == s;
    Begins(Lex(t, s, true));
    while i < |s|
      invariant 0 <= i <= |s| && Lex(t, s, true) == RoundTrip.PrependAll(toks, Lex(t, s[i..], space))
      decreases |s| - i
    {
      if t.isSpace(s[i]) {
        LexStep(t, s, i, space);
        space := true;
        i := i + 1;
        continue;
      }
      var tok, next;
      if s[i] == '(' || s[i] == ')' {
        LexParen(t, s, i, space);
        tok := if s[i] == '(' then Open(!space) else Close(!space);
        next := i + 1;
      } else if s[i] == '"' || s[i] == '\'' {
        LexString(t, s, i, space);
        var quoted := LexQuotedAt(s, i);
        if quoted.None? {
          return Err(Unterminated);
        }
        tok, next := Phrase(quoted.value.0, !space), quoted.value.1;
      } else {
        next := WordEndAt(t, s, i);
        LexChunk(t, s, i, next, space);
        tok := Word(s[i..next], !space);
      }
      RoundTrip.PrependTwice(toks, [tok], Lex(t, s[next..], false));
      toks := toks + [tok];
      i := next;
      space := false;
    }
    assert toks + [] == toks;
    r := Ok(toks);
  }

  lemma Begins(r: Result<seq<Token>, ParseError>)
    ensures RoundTrip.PrependAll([], r) == r
  {
    if r.Ok? {
      assert [] + r.value == r.value;
    }
  }

  // ---- the parser ----

  class Reader {
    const t: Text
    var tokens: seq<Token>
    var pos: nat

    constructor (t: Text, tokens: seq<Token>)
      ensures this.t == t && Valid() && Rest() == tokens
    {
      this.t, this.tokens, pos := t, tokens, 0;
    }

    predicate Valid()
      reads this
    {
      pos <= |tokens|
    }

    /** What is left to read. */
    function Rest(): seq<Token>
      reads this
      requires Valid()
    {
      tokens[pos..]
    }

    /** What a method reads off is what the grammar's function takes. */
    ghost predicate Reads(r: Result<Node, ParseError>, parsed: Parsed)
      reads this
    {
      Valid() &&
      match parsed
      case Ok((node, rest)) => r == Ok(node) && Rest() == rest
      case Err(e) => r == Err(e)
    }

    method Next() returns (tok: Token)
      requires Valid() && Rest() != []
      modifies this`pos
      ensures Valid() && tok == old(Rest())[0] && Rest() == old(Rest())[1..]
    {
      tok := tokens[pos];
      pos := pos + 1;
    }

    method ReadChunk(text: string) returns (r: Result<Node, ParseError>)
      requires Valid()
      modifies this`pos
      ensures Reads(r, ParseChunk(t, text, old(Rest()))) && pos >= old(pos)
    {
      var split := SplitOperator(text);
      if split.None? {
        return Ok(Node.Text(text));
      }
      var c := split.value;
      if c.field == "" {
        return Err(NoField);
      }
      if c.rest == "" {
        if Rest() != [] && Rest()[0].Phrase? && Rest()[0].adjacent {
          var next := Next();
          return Ok(Comparison(c.field, c.op, Quoted(next.text)));
        }
        return Err(NoValue);
      }
      if c.rest == "*" {
        return if c.op != Equals then Err(StarNeedsEquals) else Ok(Comparison(c.field, Exists, Star));
      }
      r := Ok(Comparison(c.field, c.op, LiteralOf(t, c.rest)));
    }

    method ReadPrimary() returns (r: Result<Node, ParseError>)
      requires Valid()
      modifies this
      ensures Reads(r, ParsePrimary(t, old(Rest()))) && |tokens| == old(|tokens|)
      decreases |tokens| - pos, 0
    {
      if Rest() == [] {
        return Err(UnexpectedEnd);
      }
      ghost var before := Rest();
      var tok := Next();
      match tok
      case Open(_) =>
        assert before[1..] != [] ==> before[1] == Rest()[0];
        if Rest() != [] && Rest()[0].Close? {
          return Err(EmptyParentheses);
        }
        r := ReadOr();
        if r.Ok? {
          if Rest() == [] || !Rest()[0].Close? {
            return Err(Unclosed);
          }
          var close := Next();
        }
      case Close(_) => r := Err(UnexpectedClose);
      case Phrase(text, _) => r := Ok(Node.Text(text));
      case Word(text, _) => r := ReadChunk(text);
    }

    method ReadUnary() returns (r: Result<Node, ParseError>)
      requires Valid()
      modifies this
      ensures Reads(r, ParseUnary(t, old(Rest()))) && |tokens| == old(|tokens|)
      decreases |tokens| - pos, 1
    {
      ghost var before := Rest();
      if Keyword(Rest(), "NOT") {
        var not := Next();
        if Rest() == [] {
          return Err(NotNeedsMore);
        }
        r := ReadUnary();
        return Negate(r);
      }
      if MinusBefore(Rest()) {
        var minus := Next();
        r := ReadPrimary();
        return Negate(r);
      }
      if Rest() != [] && Rest()[0].Word? && |Rest()[0].text| > 1 && Rest()[0].text[0] == '-' {
        // The rest of the chunk is analysed again, in the token's own place.
        tokens := tokens[pos := Word(tokens[pos].text[1..], tokens[pos].adjacent)];
        assert Rest() == [Word(before[0].text[1..], before[0].adjacent)] + before[1..];
        assert Rest()[1..] == before[1..];
        r := ReadPrimary();
        return Negate(r);
      }
      r := ReadPrimary();
    }

    method ReadAnd() returns (r: Result<Node, ParseError>)
      requires Valid()
      modifies this
      ensures Reads(r, ParseAnd(t, old(Rest()))) && |tokens| == old(|tokens|)
      decreases |tokens| - pos, 2
    {
      ghost var before := Rest();
      r := ReadUnary();
      if r.Err? {
        return;
      }
      var children := [r.value];
      while !EndsAnd(Rest())
        invariant Valid() && |tokens| == old(|tokens|) && children != [] && |Rest()| < |before|
        invariant ParseAnd(t, before) == AndLoop(t, children, Rest())
        decreases |Rest()|
      {
        if Keyword(Rest(), "AND") {
          ghost var here := Rest();
          var and := Next();
          assert here[1..] != [] ==> here[1] == Rest()[0];
          if Rest() == [] || Rest()[0].Close? {
            return Err(AndNeedsMore);
          }
        }
        r := ReadUnary();
        if r.Err? {
          return;
        }
        children := children + [r.value];
      }
      r := Ok(if |children| == 1 then children[0] else And(children));
    }

    method ReadOr() returns (r: Result<Node, ParseError>)
      requires Valid()
      modifies this
      ensures Reads(r, ParseOr(t, old(Rest()))) && |tokens| == old(|tokens|)
      decreases |tokens| - pos, 3
    {
      ghost var before := Rest();
      r := ReadAnd();
      if r.Err? {
        return;
      }
      var children := [r.value];
      while Keyword(Rest(), "OR")
        invariant Valid() && |tokens| == old(|tokens|) && children != [] && |Rest()| < |before|
        invariant ParseOr(t, before) == OrLoop(t, children, Rest())
        decreases |Rest()|
      {
        var or := Next();
        r := ReadAnd();
        if r.Err? {
          return;
        }
        children := children + [r.value];
      }
      r := Ok(if |children| == 1 then children[0] else Or(children));
    }
  }

  function Negate(r: Result<Node, ParseError>): Result<Node, ParseError> {
    match r
    case Ok(child) => Ok(Not(child))
    case Err(e) => Err(e)
  }

  method ParseQuery(t: Text, s: string) returns (r: Result<Option<Node>, ParseError>)
    ensures r == Parse(t, s)
  {
    var toks := LexAll(t, s);
    if toks.Err? {
      return Err(toks.error);
    }
    if toks.value == [] {
      return Ok(None);
    }
    var reader := new Reader(t, toks.value);
    var node := reader.ReadOr();
    if node.Err? {
      return Err(node.error);
    }
    if reader.Rest() != [] {
      return Err(Unexpected);
    }
    r := Ok(Some(node.value));
  }

  // ---- the operator of a chunk ----

  const Operators: seq<(string, Op)> := [(":~", Matches), (">=", GreaterEqual), ("<=", LessEqual), ("=", Equals), (":", Contains), (">", Greater), ("<", Less)]

  /** Where a text first occurs in another. */
  function Index(s: string, sub: string): Option<nat> {
    if sub <= s then Some(0)
    else if s == "" then None
    else match Index(s[1..], sub)
         case None => None
         case Some(i) => Some(i + 1)
  }

  datatype Best = Best(at: nat, op: Op, len: nat)

  /** The better of the best so far and a candidate: further left, or there and longer. */
  function Better(chunk: string, best: Option<Best>, candidate: (string, Op)): Option<Best> {
    match Index(chunk, candidate.0)
    case None => best
    case Some(at) =>
      if best.None? || at < best.value.at || (at == best.value.at && |candidate.0| > best.value.len) then Some(Best(at, candidate.1, |candidate.0|)) else best
  }

  function BestOf(chunk: string, candidates: seq<(string, Op)>): Option<Best> {
    if candidates == [] then None else Better(chunk, BestOf(chunk, candidates[..|candidates| - 1]), candidates[|candidates| - 1])
  }

  method SplitOperator(chunk: string) returns (r: Option<Chunk>)
    ensures r == Split(chunk)
  {
    var best: Option<Best> := None;
    var i := 0;
    while i < |Operators|
      invariant 0 <= i <= |Operators| && best == BestOf(chunk, Operators[..i])
    {
      assert Operators[..i + 1][..i] == Operators[..i];
      best := Better(chunk, best, Operators[i]);
      i := i + 1;
    }
    assert Operators[..|Operators|] == Operators;
    BestSplits(chunk);
    if best.None? {
      return None;
    }
    var b := best.value;
    r := Some(Chunk(chunk[..b.at], b.op, chunk[b.at + b.len..]));
  }

  /** One more character that is no operator moves every candidate one further. */
  lemma {:induction false} BestShifts(chunk: string, candidates: seq<(string, Op)>)
    requires chunk != "" && !IsOperator(chunk[0])
    requires forall i :: 0 <= i < |candidates| ==> candidates[i].0 != "" && IsOperator(candidates[i].0[0])
    ensures BestOf(chunk, candidates) ==
            match BestOf(chunk[1..], candidates)
            case None => None
            case Some(b) => Some(b.(at := b.at + 1))
    decreases |candidates|
  {
    if candidates != [] {
      BestShifts(chunk, candidates[..|candidates| - 1]);
    }
  }

  lemma TwoFirst(chunk: string, a: char, b: char)
    requires chunk != ""
    ensures [a, b] <= chunk <==> chunk[0] == a && |chunk| > 1 && chunk[1] == b
    ensures [a] <= chunk <==> chunk[0] == a
  {
  }

  /** The longest candidate a chunk begins with. */
  function Longest(chunk: string, candidates: seq<(string, Op)>): Option<(Op, nat)> {
    if candidates == [] then None else Longer(chunk, Longest(chunk, candidates[..|candidates| - 1]), candidates[|candidates| - 1])
  }

  function Longer(chunk: string, best: Option<(Op, nat)>, candidate: (string, Op)): Option<(Op, nat)> {
    if candidate.0 <= chunk && (best.None? || |candidate.0| > best.value.1) then Some((candidate.1, |candidate.0|)) else best
  }

  lemma {:induction false} LongestIsBest(chunk: string, candidates: seq<(string, Op)>)
    ensures match Longest(chunk, candidates)
            case Some((op, len)) => BestOf(chunk, candidates) == Some(Best(0, op, len))
            case None => BestOf(chunk, candidates).Some? ==> BestOf(chunk, candidates).value.at > 0
    decreases |candidates|
  {
    if candidates != [] {
      LongestIsBest(chunk, candidates[..|candidates| - 1]);
    }
  }

  lemma LongestStep(chunk: string, k: nat)
    requires k < |Operators|
    ensures Longest(chunk, Operators[..k + 1]) == Longer(chunk, Longest(chunk, Operators[..k]), Operators[k])
  {
    assert Operators[..k + 1][..k] == Operators[..k];
  }

  lemma LongestOfSeven(chunk: string)
    requires chunk != "" && IsOperator(chunk[0])
    ensures Longest(chunk, Operators) == Some(OperatorAt(chunk))
  {
    TwoFirst(chunk, ':', '~');
    TwoFirst(chunk, '>', '=');
    TwoFirst(chunk, '<', '=');
    TwoFirst(chunk, '=', '=');
    LongestStep(chunk, 0);
    LongestStep(chunk, 1);
    LongestStep(chunk, 2);
    LongestStep(chunk, 3);
    LongestStep(chunk, 4);
    LongestStep(chunk, 5);
    LongestStep(chunk, 6);
    assert Operators[..7] == Operators;
  }

  /** An operator at the front is the best there is: the longer one, if two fit. */
  lemma FrontIsBest(chunk: string)
    requires chunk != "" && IsOperator(chunk[0])
    ensures BestOf(chunk, Operators) == Some(Best(0, OperatorAt(chunk).0, OperatorAt(chunk).1))
  {
    LongestOfSeven(chunk);
    LongestIsBest(chunk, Operators);
  }

  lemma {:induction false} NothingIsBest(candidates: seq<(string, Op)>)
    requires forall i :: 0 <= i < |candidates| ==> candidates[i].0 != ""
    ensures BestOf("", candidates).None?
    decreases |candidates|
  {
    if candidates != [] {
      NothingIsBest(candidates[..|candidates| - 1]);
    }
  }

  /** The loop over the operators finds the leftmost, and of two there the longer. */
  lemma {:induction false} BestSplits(chunk: string)
    ensures match BestOf(chunk, Operators)
            case None => Split(chunk).None?
            case Some(b) => b.at + b.len <= |chunk| && Split(chunk) == Some(Chunk(chunk[..b.at], b.op, chunk[b.at + b.len..]))
  {
    if chunk == "" {
      NothingIsBest(Operators);
    } else if IsOperator(chunk[0]) {
      FrontIsBest(chunk);
    } else {
      BestSplits(chunk[1..]);
      BestShifts(chunk, Operators);
      var best := BestOf(chunk[1..], Operators);
      if best.Some? {
        assert chunk[1..][best.value.at + best.value.len..] == chunk[best.value.at + 1 + best.value.len..];
        assert [chunk[0]] + chunk[1..][..best.value.at] == chunk[..best.value.at + 1];
      }
    }
  }
}
