/** What a comparison asks of a record, said without the tables and orders it is computed with. */
module Meaning {
  import opened Prelude
  import opened Rql
  import opened Syntax
  import opened RoundTrip

  // ---- levels ----

  /** The levels, least severe first. */
  const Levels := ["TRACE", "DEBUG", "INFO", "NOTICE", "WARN", "ERROR", "CRITICAL", "ALERT", "EMERGENCY", "FATAL"]

  /** A level's place in the list; EMERGENCY and FATAL are one place. */
  function Severity(i: nat): nat {
    if i == 9 then 8 else i
  }

  /** A name of the list is in capitals already, with no space around it. */
  ghost predicate Capitals(lib: Lib) {
    forall i :: 0 <= i < |Levels| ==> lib.upper(lib.trim(Levels[i])) == Levels[i]
  }

  /** A level that is not on the list. */
  predicate Unknown(lib: Lib, level: string) {
    level != "" && lib.upper(lib.trim(level)) !in Levels
  }

  lemma RankedAreListed(name: string)
    requires name in SeverityRank
    ensures name in Levels
  {
    assert name == Levels[0] || name == Levels[1] || name == Levels[2] || name == Levels[3] || name == Levels[4]
        || name == Levels[5] || name == Levels[6] || name == Levels[7] || name == Levels[8] || name == Levels[9];
  }

  lemma RankOf(lib: Lib, i: nat)
    requires Capitals(lib) && i < |Levels|
    ensures Rank(lib, Levels[i]) == [10, 20, 30, 35, 40, 50, 55, 58, 60, 60][i]
  {
    assert lib.upper(lib.trim(Levels[i])) == Levels[i];
  }

  /** Two levels of the list rank as they stand in it. */
  lemma RanksFollowTheList(lib: Lib, i: nat, j: nat)
    requires Capitals(lib) && i < |Levels| && j < |Levels|
    ensures Rank(lib, Levels[i]) < Rank(lib, Levels[j]) <==> Severity(i) < Severity(j)
  {
    RankOf(lib, i);
    RankOf(lib, j);
  }

  /** A level that is not on the list ranks above INFO and below NOTICE, and none at all below every level. */
  lemma UnknownRanks(lib: Lib, other: string, i: nat)
    requires Capitals(lib) && i < |Levels| && Unknown(lib, other)
    ensures Rank(lib, other) != Rank(lib, Levels[i])
    ensures Rank(lib, Levels[i]) < Rank(lib, other) <==> i <= 2
    ensures lib.upper(lib.trim("")) !in Levels ==> Rank(lib, "") < Rank(lib, Levels[i]) && Rank(lib, "") < Rank(lib, other)
  {
    RankOf(lib, i);
    if lib.upper(lib.trim(other)) in SeverityRank {
      RankedAreListed(lib.upper(lib.trim(other)));
    }
    if lib.upper(lib.trim("")) in SeverityRank {
      RankedAreListed(lib.upper(lib.trim("")));
    }
  }

  lemma SeverityCompares(lib: Lib, field: string, literal: Literal, rec: Record)
    requires (field == "level" || field == "severity") && literal.kind != KindNull && rec.level != ""
    ensures Accepts(lib, Comparison(field, Equals, literal), rec) <==> rec.level == LevelOf(lib, literal)
    ensures forall op :: op in {Less, LessEqual, Greater, GreaterEqual} ==>
              (Accepts(lib, Comparison(field, op, literal), rec)
               <==> CompareInts(Rank(lib, rec.level), Rank(lib, LevelOf(lib, literal)), op))
  {
    assert Lookup(lib, rec, field) == Some(Str(rec.level));
  }

  /** Asked for a level of the list, a record answers by name to equality, and by its level's place to the rest. */
  lemma LevelsCompare(lib: Lib, field: string, literal: Literal, rec: Record, i: nat, j: nat)
    requires Capitals(lib) && (field == "level" || field == "severity") && literal.kind != KindNull
    requires i < |Levels| && rec.level == Levels[i] && j < |Levels| && LevelOf(lib, literal) == Levels[j]
    ensures Accepts(lib, Comparison(field, Equals, literal), rec) <==> i == j
    ensures Accepts(lib, Comparison(field, GreaterEqual, literal), rec) <==> Severity(i) >= Severity(j)
    ensures Accepts(lib, Comparison(field, Greater, literal), rec) <==> Severity(i) > Severity(j)
    ensures Accepts(lib, Comparison(field, LessEqual, literal), rec) <==> Severity(i) <= Severity(j)
    ensures Accepts(lib, Comparison(field, Less, literal), rec) <==> Severity(i) < Severity(j)
  {
    RanksFollowTheList(lib, i, j);
    RanksFollowTheList(lib, j, i);
    NamesDiffer(i, j);
    SeverityCompares(lib, field, literal, rec);
  }

  lemma NamesDiffer(i: nat, j: nat)
    requires i < |Levels| && j < |Levels|
    ensures Levels[i] == Levels[j] <==> i == j
  {
  }

  /** A level that is not on the list stands between INFO and NOTICE, whichever side of the comparison it is on. */
  lemma UnknownCompares(lib: Lib, field: string, literal: Literal, rec: Record, j: nat)
    requires Capitals(lib) && (field == "level" || field == "severity") && literal.kind != KindNull && j < |Levels|
    ensures Unknown(lib, rec.level) && LevelOf(lib, literal) == Levels[j] ==>
              (Accepts(lib, Comparison(field, GreaterEqual, literal), rec) <==> j <= 2)
              && (Accepts(lib, Comparison(field, Greater, literal), rec) <==> j <= 2)
              && (Accepts(lib, Comparison(field, LessEqual, literal), rec) <==> j >= 3)
              && (Accepts(lib, Comparison(field, Less, literal), rec) <==> j >= 3)
    ensures rec.level == Levels[j] && Unknown(lib, LevelOf(lib, literal)) ==>
              (Accepts(lib, Comparison(field, GreaterEqual, literal), rec) <==> j >= 3)
              && (Accepts(lib, Comparison(field, Greater, literal), rec) <==> j >= 3)
              && (Accepts(lib, Comparison(field, LessEqual, literal), rec) <==> j <= 2)
              && (Accepts(lib, Comparison(field, Less, literal), rec) <==> j <= 2)
  {
    assert Levels[j] != "";
    if rec.level != "" {
      SeverityCompares(lib, field, literal, rec);
    }
    if Unknown(lib, rec.level) {
      UnknownRanks(lib, rec.level, j);
    }
    if Unknown(lib, LevelOf(lib, literal)) {
      UnknownRanks(lib, LevelOf(lib, literal), j);
    }
  }

  /** A record without a level answers to no level, but to null. */
  lemma NoLevelCompares(lib: Lib, field: string, op: Op, literal: Literal, rec: Record)
    requires (field == "level" || field == "severity") && rec.level == ""
    ensures Accepts(lib, Comparison(field, op, literal), rec) <==> op != Exists && literal.kind == KindNull
  {
  }

  // ---- how a level is asked for ----

  /** The numbers loggers write for levels. */
  const PinoLevels: map<int, string> := map[10 := "TRACE", 20 := "DEBUG", 30 := "INFO", 40 := "WARN", 50 := "ERROR", 60 := "FATAL"]

  ghost predicate ReadsPino(lib: Lib) {
    forall n: int :: lib.pino(n) == if n in PinoLevels then Some(PinoLevels[n]) else None
  }

  /** A bare number that is on the scale is the level it is written for; any other literal is the level its text names. */
  lemma LevelAsked(lib: Lib, literal: Literal)
    requires ReadsPino(lib)
    ensures forall n :: n in PinoLevels && literal.kind == KindNumber && literal.num == Finite(n as real) ==> LevelOf(lib, literal) == PinoLevels[n]
    ensures (literal.kind == KindNumber ==> forall n :: n in PinoLevels ==> literal.num != Finite(n as real)) ==> LevelOf(lib, literal) == lib.level(literal.str)
  {
    assert literal.num.Finite? ==> lib.pino(literal.num.r.Floor) == if literal.num.r.Floor in PinoLevels then Some(PinoLevels[literal.num.r.Floor]) else None;
  }

  /** `level>=40` finds the levels from WARN up, as `level>=50` those from ERROR up; and so the others of the scale. */
  lemma PinoCompares(lib: Lib, field: string, literal: Literal, rec: Record, i: nat, k: nat)
    requires Capitals(lib) && ReadsPino(lib) && (field == "level" || field == "severity")
    requires i < |Levels| && rec.level == Levels[i] && k < 6 && literal.kind == KindNumber && literal.num == Finite((10 * k + 10) as real)
    ensures var j := [0, 1, 2, 4, 5, 9][k];
            && (Accepts(lib, Comparison(field, Equals, literal), rec) <==> i == j)
            && (Accepts(lib, Comparison(field, GreaterEqual, literal), rec) <==> Severity(i) >= Severity(j))
            && (Accepts(lib, Comparison(field, Less, literal), rec) <==> Severity(i) < Severity(j))
  {
    LevelAsked(lib, literal);
    var n := 10 * k + 10;
    assert n in PinoLevels && PinoLevels[n] == Levels[[0, 1, 2, 4, 5, 9][k]];
    LevelsCompare(lib, field, literal, rec, i, [0, 1, 2, 4, 5, 9][k]);
  }

  // ---- numbers, text, times ----

  /** A field that is compared as a value, rather than as a level or a time. */
  predicate IsPlain(field: string) {
    field !in {"level", "severity", "ts", "time", "ingest_ts"}
  }

  ghost predicate Outdoes(x: Float, y: Float) {
    (x.NaN? && !y.NaN?) || (x == Infinite(false) && (y.Finite? || y == Infinite(true))) || (x.Finite? && y == Infinite(true))
  }

  predicate IsOrder(op: Op) {
    op in {Equals, Less, LessEqual, Greater, GreaterEqual}
  }

  lemma ValuesCompare(lib: Lib, field: string, literal: Literal, rec: Record)
    requires IsPlain(field) && literal.kind != KindNull
    ensures forall op :: IsOrder(op) ==>
              (Accepts(lib, Comparison(field, op, literal), rec)
               <==> Lookup(lib, rec, field).Some? && CompareValue(lib, Lookup(lib, rec, field).value, literal, op))
  {
  }

  /** A number among doubles: as numbers go, between the infinities, and NaN above all and equal to itself. */
  lemma NumbersCompare(lib: Lib, field: string, literal: Literal, rec: Record, x: Float)
    requires IsPlain(field) && literal.kind == KindNumber
    requires Lookup(lib, rec, field).Some? && NumericOf(lib, Lookup(lib, rec, field).value) == Some(x)
    ensures var y := literal.num;
            && (x.Finite? && y.Finite? ==>
                  (Accepts(lib, Comparison(field, Equals, literal), rec) <==> x.r == y.r)
                  && (Accepts(lib, Comparison(field, Less, literal), rec) <==> x.r < y.r)
                  && (Accepts(lib, Comparison(field, LessEqual, literal), rec) <==> x.r <= y.r)
                  && (Accepts(lib, Comparison(field, Greater, literal), rec) <==> x.r > y.r)
                  && (Accepts(lib, Comparison(field, GreaterEqual, literal), rec) <==> x.r >= y.r))
            && (Outdoes(x, y) ==>
                  Accepts(lib, Comparison(field, Greater, literal), rec) && Accepts(lib, Comparison(field, GreaterEqual, literal), rec)
                  && !Accepts(lib, Comparison(field, Equals, literal), rec)
                  && !Accepts(lib, Comparison(field, Less, literal), rec) && !Accepts(lib, Comparison(field, LessEqual, literal), rec))
            && (Outdoes(y, x) ==>
                  Accepts(lib, Comparison(field, Less, literal), rec) && Accepts(lib, Comparison(field, LessEqual, literal), rec)
                  && !Accepts(lib, Comparison(field, Equals, literal), rec)
                  && !Accepts(lib, Comparison(field, Greater, literal), rec) && !Accepts(lib, Comparison(field, GreaterEqual, literal), rec))
            && (x == y ==> Accepts(lib, Comparison(field, Equals, literal), rec))
  {
    ValuesCompare(lib, field, literal, rec);
  }

  /** One text before another: they part at some character, the smaller one in the first, or the first ends there. */
  lemma {:induction false} TextBeforeIff(a: string, b: string)
    ensures TextBefore(a, b) <==> (a != b && a <= b) || Parts(a, b)
    decreases |a|
  {
    if a != "" && b != "" {
      assert a == [a[0]] + a[1..] && b == [b[0]] + b[1..];
      PartsAtFirst(a, b);
      if a[0] == b[0] {
        TextBeforeIff(a[1..], b[1..]);
        PartsLater(a, b);
        PartsEarlier(a, b);
      }
    }
  }

  ghost predicate PartsAt(a: string, b: string, k: int) {
    0 <= k < |a| && k < |b| && a[..k] == b[..k] && a[k] < b[k]
  }

  ghost predicate Parts(a: string, b: string) {
    exists k :: PartsAt(a, b, k)
  }

  lemma PartsAtFirst(a: string, b: string)
    requires a != "" && b != ""
    ensures a[0] < b[0] ==> Parts(a, b)
    ensures Parts(a, b) ==> a[0] <= b[0]
  {
    if a[0] < b[0] {
      assert PartsAt(a, b, 0);
    }
    if Parts(a, b) {
      var k :| PartsAt(a, b, k);
      assert k > 0 ==> a[0] == a[..k][0] && b[0] == b[..k][0];
    }
  }

  lemma PartsLater(a: string, b: string)
    requires a != "" && b != "" && a[0] == b[0]
    ensures Parts(a, b) ==> Parts(a[1..], b[1..])
  {
    if Parts(a, b) {
      var k :| PartsAt(a, b, k);
      assert k > 0;
      assert a[1..][..k - 1] == a[..k][1..] && b[1..][..k - 1] == b[..k][1..];
      assert PartsAt(a[1..], b[1..], k - 1);
    }
  }

  lemma PartsEarlier(a: string, b: string)
    requires a != "" && b != "" && a[0] == b[0]
    ensures Parts(a[1..], b[1..]) ==> Parts(a, b)
  {
    if Parts(a[1..], b[1..]) {
      var k :| PartsAt(a[1..], b[1..], k);
      assert a[..k + 1] == [a[0]] + a[1..][..k] && b[..k + 1] == [b[0]] + b[1..][..k];
      assert PartsAt(a, b, k + 1);
    }
  }

  /** Text against a word compares as text. */
  lemma TextCompares(lib: Lib, field: string, literal: Literal, rec: Record, text: string)
    requires IsPlain(field) && literal.kind == KindString && Lookup(lib, rec, field) == Some(Str(text))
    ensures Accepts(lib, Comparison(field, Equals, literal), rec) <==> text == literal.str
    ensures Accepts(lib, Comparison(field, Less, literal), rec) <==> (text != literal.str && text <= literal.str) || Parts(text, literal.str)
    ensures Accepts(lib, Comparison(field, Greater, literal), rec) <==> (text != literal.str && literal.str <= text) || Parts(literal.str, text)
    ensures Accepts(lib, Comparison(field, LessEqual, literal), rec) <==> text <= literal.str || Parts(text, literal.str)
    ensures Accepts(lib, Comparison(field, GreaterEqual, literal), rec) <==> literal.str <= text || Parts(literal.str, text)
  {
    TextBeforeIff(text, literal.str);
    TextBeforeIff(literal.str, text);
    ValuesCompare(lib, field, literal, rec);
  }

  /** A number answers no word, and a boolean only a boolean, false before true. */
  lemma KindsCompare(lib: Lib, field: string, literal: Literal, rec: Record, v: Value)
    requires IsPlain(field) && Lookup(lib, rec, field) == Some(v) && literal.kind != KindNull
    ensures ((v.Int? || v.Number?) && literal.kind != KindNumber) || (v.Boolean? && literal.kind != KindBool) ==>
              forall op :: IsOrder(op) ==> !Accepts(lib, Comparison(field, op, literal), rec)
    ensures v.Boolean? && literal.kind == KindBool ==>
              (Accepts(lib, Comparison(field, Equals, literal), rec) <==> v.b == literal.flag)
              && (Accepts(lib, Comparison(field, Less, literal), rec) <==> !v.b && literal.flag)
              && (Accepts(lib, Comparison(field, Greater, literal), rec) <==> v.b && !literal.flag)
              && (Accepts(lib, Comparison(field, LessEqual, literal), rec) <==> (v.b ==> literal.flag))
              && (Accepts(lib, Comparison(field, GreaterEqual, literal), rec) <==> (literal.flag ==> v.b))
  {
    ValuesCompare(lib, field, literal, rec);
  }

  /** Event time and ingest time, each against its own instant. */
  lemma TimesCompare(lib: Lib, field: string, literal: Literal, rec: Record, at: int)
    requires field in {"ts", "time", "ingest_ts"} && literal.kind != KindNull && lib.instant(literal.str) == Some(at)
    ensures var time := if field == "ingest_ts" then rec.ingestTs else rec.ts;
            && (Accepts(lib, Comparison(field, Equals, literal), rec) <==> time == at)
            && (Accepts(lib, Comparison(field, Less, literal), rec) <==> time < at)
            && (Accepts(lib, Comparison(field, LessEqual, literal), rec) <==> time <= at)
            && (Accepts(lib, Comparison(field, Greater, literal), rec) <==> time > at)
            && (Accepts(lib, Comparison(field, GreaterEqual, literal), rec) <==> time >= at)
  {
  }

  // ---- text anywhere ----

  /** A text within another begins somewhere in it. */
  lemma {:induction false} WithinIff(s: string, needle: string)
    ensures Within(s, needle) <==> exists i :: 0 <= i <= |s| && needle <= s[i..]
    decreases |s|
  {
    if s != "" {
      WithinIff(s[1..], needle);
      if needle <= s {
        assert s[0..] == s;
      } else if Within(s[1..], needle) {
        var i :| 0 <= i <= |s[1..]| && needle <= s[1..][i..];
        assert s[i + 1..] == s[1..][i..];
      }
      forall i | 0 <= i <= |s| && needle <= s[i..] ensures Within(s, needle) {
        if i > 0 {
          assert s[1..][i - 1..] == s[i..];
        } else {
          assert s[i..] == s;
        }
      }
    } else {
      assert s[0..] == s;
    }
  }

  /** `field:text` finds the text anywhere in what the field holds, case aside. */
  lemma ContainsMeans(lib: Lib, field: string, literal: Literal, rec: Record)
    requires literal.kind != KindNull
    ensures Accepts(lib, Comparison(field, Contains, literal), rec) <==>
            Lookup(lib, rec, field).Some?
            && var s := Lower(lib, TextOf(lib, Lookup(lib, rec, field).value));
               exists i :: 0 <= i <= |s| && Lower(lib, literal.str) <= s[i..]
  {
    if Lookup(lib, rec, field).Some? {
      WithinIff(Lower(lib, TextOf(lib, Lookup(lib, rec, field).value)), Lower(lib, literal.str));
    }
  }

  // ---- from the text of a query to the records it accepts ----

  /** The operators as they are written. */
  const Written: seq<(string, Op)> :=
    [("=", Equals), (":", Contains), (":~", Matches), ("<", Less), ("<=", LessEqual), (">", Greater), (">=", GreaterEqual)]

  /** A value that is written without quotes, and does not lengthen the operator before it. */
  predicate PlainValue(t: Text, op: Op, word: string) {
    && word != "" && word != "*" && Bare(t, word)
    && (op == Contains ==> word[0] != '~') && (op == Less || op == Greater ==> word[0] != '=')
  }

  /** A field, an operator and a word are that comparison, and a minus before them is its negation. */
  lemma OperatorsRead(t: Text, field: string, i: nat, word: string)
    requires Sane(t) && FieldOk(t, field, false) && i < |Written| && PlainValue(t, Written[i].1, word)
    ensures var n := Comparison(field, Written[i].1, LiteralOf(t, word));
            && Parse(t, field + Written[i].0 + word) == Ok(Some(n))
            && Parse(t, "-" + (field + Written[i].0 + word)) == Ok(Some(Not(n)))
  {
    var op := Written[i].1;
    assert ShowOp(op) == Written[i].0;
    ChunkQuery(t, "", field, op, word);
    ChunkQuery(t, "-", field, op, word);
    assert "" + (field + ShowOp(op) + word) == field + ShowOp(op) + word;
  }

  lemma ChunkQuery(t: Text, minus: string, field: string, op: Op, word: string)
    requires Sane(t) && FieldOk(t, field, false) && op != Exists && PlainValue(t, op, word) && (minus == "" || minus == "-")
    ensures var n := Comparison(field, op, LiteralOf(t, word));
            Parse(t, minus + (field + ShowOp(op) + word)) == Ok(Some(if minus == "" then n else Not(n)))
  {
    var tail, chunk := ShowOp(op) + word, field + ShowOp(op) + word;
    OpBare(t, op);
    BareJoins(t, ShowOp(op), word);
    Assoc(field, ShowOp(op), word);
    LexBare(t, minus, field, tail, "", true);
    assert minus + chunk + "" == minus + chunk && field + tail == chunk;
    assert [Word(minus + chunk, false)] + [] == [Word(minus + chunk, false)];
    assert Lex(t, minus + chunk, true) == Ok([Word(minus + chunk, false)]);
    BareChunk(t, field, op, word, []);
    HeadHasOperator(minus, field, op, chunk);
    ChunkAlone(t, minus, chunk, Comparison(field, op, LiteralOf(t, word)));
  }

  /** One word, and what it is parsed to. */
  lemma ChunkAlone(t: Text, minus: string, chunk: string, node: Node)
    requires (minus == "" || minus == "-") && chunk != "" && !IsKeyword(minus + chunk) && (minus == "" ==> chunk[0] != '-')
    requires ParseChunk(t, chunk, []) == Ok((node, []))
    ensures ParseTokens(t, [Word(minus + chunk, false)]) == Ok(Some(if minus == "" then node else Not(node)))
  {
    var w := minus + chunk;
    var toks := [Word(w, false)];
    assert toks[1..] == [];
    if minus == "" {
      assert w == chunk;
    } else {
      assert w[0] == '-' && w[1..] == chunk;
    }
    assert ParseUnary(t, toks) == Ok((if minus == "" then node else Not(node), []));
    OneTerm(t, toks, if minus == "" then node else Not(node), []);
  }

  /** The query parses, and accepts the record exactly as said. */
  ghost predicate AcceptedAs(t: Text, lib: Lib, query: string, rec: Record, answer: bool) {
    Parse(t, query).Ok? && Parse(t, query).value.Some? && Accepts(lib, Parse(t, query).value.value, rec) == answer
  }

  lemma Asks(t: Text, lib: Lib, field: string, i: nat, word: string, rec: Record)
    requires Sane(t) && FieldOk(t, field, false) && i < |Written| && PlainValue(t, Written[i].1, word)
    ensures AcceptedAs(t, lib, field + Written[i].0 + word, rec, Accepts(lib, Comparison(field, Written[i].1, LiteralOf(t, word)), rec))
  {
    OperatorsRead(t, field, i, word);
  }

  /** `field>=5` accepts exactly the records whose field is a number of at least five; and so the other orders. */
  lemma NumberQueries(t: Text, lib: Lib, field: string, word: string, x: real, y: real, rec: Record)
    requires Sane(t) && FieldOk(t, field, false) && PlainValue(t, Less, word) && IsPlain(field)
    requires t.decimal(word) == Some(Finite(y)) && t.lower(word) !in {"true", "false", "null", "nil"}
    requires Lookup(lib, rec, field).Some? && NumericOf(lib, Lookup(lib, rec, field).value) == Some(Finite(x))
    ensures AcceptedAs(t, lib, field + "=" + word, rec, x == y)
    ensures AcceptedAs(t, lib, field + "<" + word, rec, x < y)
    ensures AcceptedAs(t, lib, field + "<=" + word, rec, x <= y)
    ensures AcceptedAs(t, lib, field + ">" + word, rec, x > y)
    ensures AcceptedAs(t, lib, field + ">=" + word, rec, x >= y)
  {
    Asks(t, lib, field, 0, word, rec);
    Asks(t, lib, field, 3, word, rec);
    Asks(t, lib, field, 4, word, rec);
    Asks(t, lib, field, 5, word, rec);
    Asks(t, lib, field, 6, word, rec);
    NumbersCompare(lib, field, LiteralOf(t, word), rec, Finite(x));
  }

  /** `field=true`, `field=false` and `field=null` ask for just that. */
  lemma WordQueries(t: Text, lib: Lib, field: string, rec: Record, b: bool)
    requires Sane(t) && FieldOk(t, field, false) && IsPlain(field)
    ensures Lookup(lib, rec, field) == Some(Boolean(b)) ==>
              AcceptedAs(t, lib, field + "=" + "true", rec, b) && AcceptedAs(t, lib, field + "=" + "false", rec, !b)
    ensures AcceptedAs(t, lib, field + "=" + "null", rec, Lookup(lib, rec, field).None?)
  {
    assert t.lower("true") == "true" && t.lower("false") == "false" && t.lower("null") == "null";
    Asks(t, lib, field, 0, "true", rec);
    Asks(t, lib, field, 0, "false", rec);
    Asks(t, lib, field, 0, "null", rec);
    if Lookup(lib, rec, field) == Some(Boolean(b)) {
      KindsCompare(lib, field, LiteralOf(t, "true"), rec, Boolean(b));
      KindsCompare(lib, field, LiteralOf(t, "false"), rec, Boolean(b));
    }
  }

  /** `level>=X` as written accepts exactly the levels from X on. */
  lemma LevelQueries(t: Text, lib: Lib, field: string, word: string, rec: Record, i: nat, j: nat)
    requires Sane(t) && FieldOk(t, field, false) && (field == "level" || field == "severity") && PlainValue(t, Less, word)
    requires Capitals(lib) && LiteralOf(t, word).kind != KindNull && j < |Levels| && LevelOf(lib, LiteralOf(t, word)) == Levels[j]
    requires i < |Levels| && rec.level == Levels[i]
    ensures AcceptedAs(t, lib, field + "=" + word, rec, i == j)
    ensures AcceptedAs(t, lib, field + ">=" + word, rec, Severity(i) >= Severity(j))
    ensures AcceptedAs(t, lib, field + "<" + word, rec, Severity(i) < Severity(j))
  {
    Asks(t, lib, field, 0, word, rec);
    Asks(t, lib, field, 6, word, rec);
    Asks(t, lib, field, 3, word, rec);
    LevelsCompare(lib, field, LiteralOf(t, word), rec, i, j);
  }
}
