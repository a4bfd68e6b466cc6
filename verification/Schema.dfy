/**
 * The columns a batch is written under: the same whatever order its records come in, named apart,
 * and wide enough for every value, so that what was read back can be written and read again unchanged.
 */
module Schema {
  import opened Prelude
  import opened Decimals
  import opened Ordering
  import opened Rql
  import opened Sql
  import Resolver

  type Column = Resolver.Column

  const MaxColumns: nat := 512

  // ---- kinds ----

  function KindName(v: Value): string {
    match v
    case NullValue => "null"
    case Str(_) => "string"
    case Int(_) => "int"
    case Number(_) => "float"
    case Boolean(_) => "boolean"
    case Json(_) => "json"
  }

  const NullKind := "null"

  /** The kinds seen for a key, and how many of its values were not null. */
  datatype KindSet = KindSet(seen: set<string>, count: nat)

  const Unseen := KindSet({}, 0)

  function Add(k: KindSet, kind: string): KindSet {
    KindSet(k.seen + {kind}, if kind == NullKind then k.count else k.count + 1)
  }

  function Only(kinds: set<string>): Option<string> {
    if kinds == {"boolean"} then Some("boolean")
    else if kinds == {"int"} then Some("int")
    else if kinds == {"float"} then Some("float")
    else if kinds == {"string"} then Some("string")
    else if kinds == {"json"} then Some("json")
    else None
  }

  datatype Width = Width(kind: string, polymorphic: bool)

  /** One kind is itself, integers among floats are floats, and anything else mixed is text. */
  function Widest(k: KindSet): Option<Width> {
    var kinds := k.seen - {NullKind};
    if k.count == 0 then None
    else if Only(kinds).Some? then Some(Width(Only(kinds).value, false))
    else if kinds <= {"int", "float"} then Some(Width("float", false))
    else Some(Width("string", true))
  }

  function Tally(recs: seq<Record>, key: string): KindSet {
    if recs == [] then Unseen
    else
      var before, fields := Tally(recs[..|recs| - 1], key), recs[|recs| - 1].fields;
      if key in fields then Add(before, KindName(fields[key])) else before
  }

  lemma {:induction false} TallyWithout(recs: seq<Record>, key: string, i: nat)
    requires i < |recs|
    ensures var others, fields := Tally(recs[..i] + recs[i + 1..], key), recs[i].fields;
            Tally(recs, key) == if key in fields then Add(others, KindName(fields[key])) else others
    decreases |recs|
  {
    var n := |recs| - 1;
    if i < n {
      TallyWithout(recs[..n], key, i);
      assert recs[..n][..i] == recs[..i];
      assert (recs[..i] + recs[i + 1..])[..n - 1] == recs[..i] + recs[..n][i + 1..];
    } else {
      assert recs[..i] + recs[i + 1..] == recs[..n];
    }
  }

  /** What is known of a key does not depend on the order of the records. */
  lemma {:induction false} TallyIsOrderFree(a: seq<Record>, b: seq<Record>, key: string)
    requires multiset(a) == multiset(b)
    ensures Tally(a, key) == Tally(b, key)
    decreases |a|
  {
    assert |multiset(a)| == |a| && |multiset(b)| == |b|;
    if a != [] {
      var n := |a| - 1;
      assert a[n] in multiset(b);
      var i :| 0 <= i < |b| && b[i] == a[n];
      RemovedBoth(a, b, i);
      TallyIsOrderFree(a[..n], b[..i] + b[i + 1..], key);
      TallyWithout(b, key, i);
    }
  }

  ghost predicate ShowsKind(recs: seq<Record>, key: string, kind: string) {
    exists i :: 0 <= i < |recs| && ShowsKindAt(recs[i], key, kind)
  }

  predicate ShowsKindAt(rec: Record, key: string, kind: string) {
    key in rec.fields && KindName(rec.fields[key]) == kind
  }

  lemma ShowsKindNext(recs: seq<Record>, key: string, kind: string)
    requires recs != []
    ensures ShowsKind(recs, key, kind) <==> ShowsKind(recs[..|recs| - 1], key, kind) || ShowsKindAt(recs[|recs| - 1], key, kind)
  {
    var front := recs[..|recs| - 1];
    if ShowsKind(recs, key, kind) {
      var i :| 0 <= i < |recs| && ShowsKindAt(recs[i], key, kind);
      assert i < |front| ==> ShowsKindAt(front[i], key, kind);
    }
    if ShowsKind(front, key, kind) {
      var i :| 0 <= i < |front| && ShowsKindAt(front[i], key, kind);
      assert ShowsKindAt(recs[i], key, kind);
    }
  }

  lemma CountsNext(k: KindSet, kind: string)
    requires k.count > 0 <==> k.seen - {NullKind} != {}
    ensures Add(k, kind).count > 0 <==> Add(k, kind).seen - {NullKind} != {}
  {
    var now := Add(k, kind);
    if kind == NullKind {
      assert now.seen - {NullKind} == k.seen - {NullKind};
    } else {
      assert kind in now.seen - {NullKind};
    }
  }

  /** A kind was seen exactly if some record has a value of it, and a value counts unless it is null. */
  lemma {:induction false} TallySays(recs: seq<Record>, key: string)
    ensures forall kind :: kind in Tally(recs, key).seen <==> ShowsKind(recs, key, kind)
    ensures Tally(recs, key).count > 0 <==> Tally(recs, key).seen - {NullKind} != {}
    ensures Tally(recs, key).seen <= {"null", "boolean", "int", "float", "string", "json"}
    decreases |recs|
  {
    if recs != [] {
      TallySays(recs[..|recs| - 1], key);
      forall kind ensures kind in Tally(recs, key).seen <==> ShowsKind(recs, key, kind) { ShowsKindNext(recs, key, kind); }
      var fields, before := recs[|recs| - 1].fields, Tally(recs[..|recs| - 1], key);
      if key in fields {
        CountsNext(before, KindName(fields[key]));
      }
    }
  }

  ghost predicate OnlyShows(recs: seq<Record>, key: string, kinds: set<string>) {
    forall kind :: ShowsKind(recs, key, kind) ==> kind in kinds
  }

  /**
   * A key of one kind gets a column of it, one of whole numbers and others a column of floats, and one of any other mixture
   * a column of text, marked; a key with no value gets none.
   */
  lemma WidestSays(recs: seq<Record>, key: string, kind: string, other: string)
    ensures OnlyShows(recs, key, {"null"}) ==> Widest(Tally(recs, key)) == None
    ensures kind != "null" && ShowsKind(recs, key, kind) && OnlyShows(recs, key, {"null", kind}) ==>
              Widest(Tally(recs, key)) == Some(Width(kind, false))
    ensures ShowsKind(recs, key, "int") && ShowsKind(recs, key, "float") && OnlyShows(recs, key, {"null", "int", "float"}) ==>
              Widest(Tally(recs, key)) == Some(Width("float", false))
    ensures ShowsKind(recs, key, kind) && ShowsKind(recs, key, other) && kind != other && kind != "null" && kind !in {"int", "float"} && other != "null" ==>
              Widest(Tally(recs, key)) == Some(Width("string", true))
  {
    TallySays(recs, key);
    if OnlyShows(recs, key, {"null"}) {
      KindsSeen(recs, key, {});
    }
    if kind != "null" && ShowsKind(recs, key, kind) && OnlyShows(recs, key, {"null", kind}) {
      KindsSeen(recs, key, {kind});
      OneSeen(recs, key, kind);
    }
    if ShowsKind(recs, key, "int") && ShowsKind(recs, key, "float") && OnlyShows(recs, key, {"null", "int", "float"}) {
      KindsSeen(recs, key, {"int", "float"});
      MixedSeen(recs, key, "int", "float");
    }
    if ShowsKind(recs, key, kind) && ShowsKind(recs, key, other) && kind != other && kind != "null" && other != "null" {
      MixedSeen(recs, key, kind, other);
    }
  }

  lemma KindsSeen(recs: seq<Record>, key: string, kinds: set<string>)
    requires "null" !in kinds && OnlyShows(recs, key, {"null"} + kinds) && forall kind <- kinds :: ShowsKind(recs, key, kind)
    ensures Tally(recs, key).seen - {NullKind} == kinds
  {
    TallySays(recs, key);
  }

  lemma OneSeen(recs: seq<Record>, key: string, kind: string)
    requires Tally(recs, key).seen - {NullKind} == {kind}
    ensures Tally(recs, key).count > 0 && Only({kind}) == Some(kind)
  {
    TallySays(recs, key);
    assert kind in Tally(recs, key).seen - {NullKind};
  }

  lemma MixedSeen(recs: seq<Record>, key: string, a: string, b: string)
    requires ShowsKind(recs, key, a) && ShowsKind(recs, key, b) && a != b && a != "null" && b != "null"
    ensures Tally(recs, key).count > 0 && Only(Tally(recs, key).seen - {NullKind}) == None
    ensures a in Tally(recs, key).seen - {NullKind}
  {
    TallySays(recs, key);
    var kinds := Tally(recs, key).seen - {NullKind};
    assert a in kinds && b in kinds;
  }

  predicate Holds(rec: Record, key: string) {
    key in rec.fields && !rec.fields[key].NullValue?
  }

  /** The records that hold a value for a key. */
  function Holders(recs: seq<Record>, key: string): set<nat> {
    set i: nat | i < |recs| && Holds(recs[i], key)
  }

  lemma HoldersNext(front: seq<Record>, rec: Record, key: string)
    ensures |Holders(front + [rec], key)| == |Holders(front, key)| + if Holds(rec, key) then 1 else 0
  {
    var recs := front + [rec];
    assert Holders(recs, key) == if Holds(rec, key) then Holders(front, key) + {|front|} else Holders(front, key);
  }

  /** A key counts the records that hold a value for it. */
  lemma {:induction false} TallyCounts(recs: seq<Record>, key: string)
    ensures Tally(recs, key).count == |Holders(recs, key)|
    decreases |recs|
  {
    if recs != [] {
      var n := |recs| - 1;
      TallyCounts(recs[..n], key);
      HoldersNext(recs[..n], recs[n], key);
      assert recs == recs[..n] + [recs[n]];
    }
  }

  // ---- which keys are kept ----

  datatype Candidate = Candidate(key: string, width: Width, count: nat)

  function CandidateOf(recs: seq<Record>, key: string): Option<Candidate> {
    var tally := Tally(recs, key);
    match Widest(tally)
    case None => None
    case Some(width) => Some(Candidate(key, width, tally.count))
  }

  /** Commoner keys first, then by name. */
  predicate Commoner(a: Candidate, b: Candidate) {
    a.count > b.count || (a.count == b.count && TextBefore(a.key, b.key))
  }

  lemma CommonerOrders()
    ensures Asymmetric(Commoner) && Transitive(Commoner)
  {
    forall x: Candidate, y: Candidate | Commoner(x, y) ensures !Commoner(y, x) { TextTotal(x.key, y.key); }
    forall x: Candidate, y: Candidate, z: Candidate | Commoner(x, y) && Commoner(y, z) ensures Commoner(x, z) {
      if x.count == y.count == z.count {
        TextTransitive(x.key, y.key, z.key);
      }
    }
  }

  ghost predicate IsRanking(recs: seq<Record>, ranked: seq<Candidate>) {
    && Strict(Commoner, ranked)
    && forall c :: c in ranked <==> CandidateOf(recs, c.key) == Some(c)
  }

  function Kept(ranked: seq<Candidate>): seq<Candidate> {
    if |ranked| > MaxColumns then ranked[..MaxColumns] else ranked
  }

  lemma RankingIsOrderFree(a: seq<Record>, b: seq<Record>, r: seq<Candidate>, s: seq<Candidate>)
    requires multiset(a) == multiset(b) && IsRanking(a, r) && IsRanking(b, s)
    ensures r == s
  {
    forall c: Candidate ensures c in r <==> c in s {
      TallyIsOrderFree(a, b, c.key);
    }
    CommonerOrders();
    OneOrder(Commoner, r, s);
  }

  // ---- what columns are called ----

  const FieldPrefix := "a_"

  const EnvelopeNames := {"ts", "ingest_ts", "stream", "seq", "level", "msg", "host", "is_json", "raw"}

  predicate Plain(c: char) {
    'a' <= c <= 'z' || 'A' <= c <= 'Z' || '0' <= c <= '9' || c == '_'
  }

  function Mangled(key: string): (r: string)
    ensures |r| == |key|
  {
    seq(|key|, i requires 0 <= i < |key| => if Plain(key[i]) then key[i] else '_')
  }

  function Base(key: string): string {
    if key == "" then FieldPrefix + "field" else FieldPrefix + Mangled(key)
  }

  function LowerChar(c: char): char {
    if 'A' <= c <= 'Z' then (c as int + 32) as char else c
  }

  /** A name without regard to case, for the characters a name is made of. */
  function Folded(name: string): (r: string)
    ensures |r| == |name|
  {
    seq(|name|, i requires 0 <= i < |name| => LowerChar(name[i]))
  }

  /** The n-th name tried for a key. */
  function Nth(base: string, n: nat): string {
    if n <= 1 then base else base + "_" + Decimal(n)
  }

  /** The first of those names that is not taken. */
  ghost predicate IsName(key: string, taken: set<string>, name: string) {
    exists n: nat :: n > 0 && FirstFree(Base(key), taken, name, n)
  }

  ghost predicate FirstFree(base: string, taken: set<string>, name: string, n: nat) {
    && name == Nth(base, n) && Folded(name) !in taken
    && forall m: nat :: 0 < m < n ==> Folded(Nth(base, m)) in taken
  }

  lemma OneName(key: string, taken: set<string>, a: string, b: string)
    requires IsName(key, taken, a) && IsName(key, taken, b)
    ensures a == b
  {
    var n: nat :| n > 0 && FirstFree(Base(key), taken, a, n);
    var m: nat :| m > 0 && FirstFree(Base(key), taken, b, m);
    assert n < m ==> Folded(Nth(Base(key), n)) in taken;
    assert m < n ==> Folded(Nth(Base(key), m)) in taken;
  }

  /** A key's column, if the name is free: letters, digits and underscores as they stand, an underscore for anything else. */
  lemma PlainName(key: string, taken: set<string>, name: string, i: nat)
    requires IsName(key, taken, name) && key != "" && i < |key| && Folded("a_" + Mangled(key)) !in taken
    ensures |name| == |key| + 2 && name[..2] == "a_"
    ensures var c := key[i]; name[2 + i] == if 'a' <= c <= 'z' || 'A' <= c <= 'Z' || '0' <= c <= '9' || c == '_' then c else '_'
  {
    var n: nat :| n > 0 && FirstFree(Base(key), taken, name, n);
    assert Base(key) == Nth(Base(key), 1) == "a_" + Mangled(key);
    assert name[..2] == "a_";
  }

  lemma FoldedJoin(a: string, b: string)
    ensures Folded(a + b) == Folded(a) + Folded(b)
  {
  }

  lemma FoldedDigits(n: nat)
    ensures Folded(Decimal(n)) == Decimal(n)
  {
    DecimalParses(n);
  }

  /** No two names tried are the same, whatever their case. */
  lemma NamesTriedDiffer(base: string, n: nat, m: nat)
    requires 0 < n < m
    ensures Folded(Nth(base, n)) != Folded(Nth(base, m))
  {
    FoldedJoin(base + "_", Decimal(m));
    FoldedDigits(m);
    assert Folded(Nth(base, m)) == Folded(base + "_") + Decimal(m);
    assert |Folded(base + "_")| == |base| + 1;
    if n > 1 {
      FoldedJoin(base + "_", Decimal(n));
      FoldedDigits(n);
      assert Folded(Nth(base, n)) == Folded(base + "_") + Decimal(n);
      DecimalParses(n);
      DecimalParses(m);
      assert Folded(Nth(base, n))[|base| + 1..] == Decimal(n) && Folded(Nth(base, m))[|base| + 1..] == Decimal(m);
    }
  }

  lemma Fewer(a: set<string>, b: set<string>)
    requires a <= b
    ensures |a| <= |b|
  {
    assert b == a + (b - a);
  }

  ghost predicate Tried(base: string, n: nat, tried: set<string>) {
    |tried| == n - 1 && forall t :: t in tried <==> exists m: nat :: 0 < m < n && t == Folded(Nth(base, m))
  }

  lemma TriedNext(base: string, n: nat, tried: set<string>)
    requires n > 0 && Tried(base, n, tried)
    ensures Tried(base, n + 1, tried + {Folded(Nth(base, n))})
  {
    var t := Folded(Nth(base, n));
    if t in tried {
      var m: nat :| 0 < m < n && t == Folded(Nth(base, m));
      NamesTriedDiffer(base, m, n);
    }
  }

  lemma AllTaken(base: string, n: nat, tried: set<string>, taken: set<string>)
    requires n > 0 && Tried(base, n, tried) && tried <= taken && Folded(Nth(base, n)) !in taken
    ensures FirstFree(base, taken, Nth(base, n), n)
  {
    forall m: nat | 0 < m < n ensures Folded(Nth(base, m)) in taken {
      assert Folded(Nth(base, m)) in tried;
    }
  }

  method BaseOf(key: string) returns (base: string)
    ensures base == Base(key)
  {
    base := "";
    for i := 0 to |key|
      invariant base == Mangled(key[..i])
    {
      assert Mangled(key[..i + 1]) == Mangled(key[..i]) + [if Plain(key[i]) then key[i] else '_'];
      base := base + [if Plain(key[i]) then key[i] else '_'];
    }
    assert key[..|key|] == key;
    base := FieldPrefix + base;
    if base == FieldPrefix {
      base := FieldPrefix + "field";
    }
  }

  /** Tries names until one is free, which comes to an end because only so many are taken. */
  method ColumnName(key: string, taken: set<string>) returns (name: string)
    ensures IsName(key, taken, name)
  {
    var base := BaseOf(key);
    name := base;
    var n: nat := 1;
    ghost var tried: set<string> := {};
    while Folded(name) in taken
      invariant n > 0 && name == Nth(base, n) && Tried(base, n, tried) && tried <= taken && n - 1 <= |taken|
      decreases |taken| + 1 - n
    {
      TriedNext(base, n, tried);
      tried := tried + {Folded(name)};
      Fewer(tried, taken);
      n := n + 1;
      name := Nth(base, n);
    }
    AllTaken(base, n, tried, taken);
  }

  // ---- the schema ----

  ghost function Taken(cols: seq<Column>): set<string> {
    EnvelopeNames + set c <- cols :: Folded(c.name)
  }

  /** Each key kept has a column of its width, under the first name left free by those before it. */
  ghost predicate IsNaming(kept: seq<Candidate>, named: seq<Column>) {
    |named| == |kept| && forall i :: 0 <= i < |kept| ==> NamedAt(kept, named, i)
  }

  ghost predicate NamedAt(kept: seq<Candidate>, named: seq<Column>, i: nat)
    requires i < |kept| == |named|
  {
    NamedAfter(kept[i], Taken(named[..i]), named[i])
  }

  ghost predicate NamedAfter(c: Candidate, taken: set<string>, column: Column) {
    && column.key == c.key && column.kind == c.width.kind && column.polymorphic == c.width.polymorphic
    && IsName(c.key, taken, column.name)
  }

  predicate ByName(a: Column, b: Column) {
    TextBefore(a.name, b.name)
  }

  ghost predicate IsSchema(recs: seq<Record>, cols: seq<Column>, dropped: nat) {
    exists ranked, named :: Derived(recs, ranked, named, cols, dropped)
  }

  ghost predicate Derived(recs: seq<Record>, ranked: seq<Candidate>, named: seq<Column>, cols: seq<Column>, dropped: nat) {
    && IsRanking(recs, ranked) && IsNaming(Kept(ranked), named) && dropped == |ranked| - |Kept(ranked)|
    && Strict(ByName, cols) && |cols| == |named| && forall c :: c in cols <==> c in named
  }

  lemma ByNameOrders()
    ensures Asymmetric(ByName) && Transitive(ByName)
  {
    forall x: Column, y: Column | ByName(x, y) ensures !ByName(y, x) { TextTotal(x.name, y.name); }
    forall x: Column, y: Column, z: Column | ByName(x, y) && ByName(y, z) ensures ByName(x, z) { TextTransitive(x.name, y.name, z.name); }
  }

  lemma SameColumn(c: Candidate, taken: set<string>, a: Column, b: Column)
    requires NamedAfter(c, taken, a) && NamedAfter(c, taken, b)
    ensures a == b
  {
    OneName(c.key, taken, a.name, b.name);
  }

  lemma SameNext(kept: seq<Candidate>, a: seq<Column>, b: seq<Column>, i: nat)
    requires IsNaming(kept, a) && IsNaming(kept, b) && i < |kept| && a[..i] == b[..i]
    ensures a[i] == b[i]
  {
    assert NamedAt(kept, a, i) && NamedAt(kept, b, i);
    SameColumn(kept[i], Taken(a[..i]), a[i], b[i]);
  }

  lemma {:induction false} OneNaming(kept: seq<Candidate>, a: seq<Column>, b: seq<Column>, i: nat)
    requires IsNaming(kept, a) && IsNaming(kept, b) && i <= |kept|
    ensures a[..i] == b[..i]
  {
    if i > 0 {
      OneNaming(kept, a, b, i - 1);
      SameNext(kept, a, b, i - 1);
      assert a[..i] == a[..i - 1] + [a[i - 1]] && b[..i] == b[..i - 1] + [b[i - 1]];
    }
  }

  /** The same records in any order give the same columns. */
  lemma SchemaIsOrderFree(a: seq<Record>, b: seq<Record>, c: seq<Column>, d: seq<Column>, n: nat, m: nat)
    requires multiset(a) == multiset(b) && IsSchema(a, c, n) && IsSchema(b, d, m)
    ensures c == d && n == m
  {
    var r, x :| Derived(a, r, x, c, n);
    var s, y :| Derived(b, s, y, d, m);
    RankingIsOrderFree(a, b, r, s);
    OneNaming(Kept(r), x, y, |x|);
    assert x == x[..|x|] && y == y[..|y|];
    ByNameOrders();
    OneOrder(ByName, c, d);
  }

  /** Takes in every value of every record. */
  method Observe(recs: seq<Record>) returns (observed: map<string, KindSet>)
    ensures forall key :: key in observed <==> Tally(recs, key) != Unseen
    ensures forall key :: key in observed ==> observed[key] == Tally(recs, key)
  {
    observed := map[];
    for i := 0 to |recs|
      invariant forall key :: key in observed <==> Tally(recs[..i], key) != Unseen
      invariant forall key :: key in observed ==> observed[key] == Tally(recs[..i], key)
    {
      assert recs[..i + 1][..i] == recs[..i];
      observed := ObserveOne(recs[..i], recs[i], observed);
    }
    assert recs[..|recs|] == recs;
  }

  method ObserveOne(ghost before: seq<Record>, rec: Record, observed0: map<string, KindSet>) returns (observed: map<string, KindSet>)
    requires forall key :: key in observed0 <==> Tally(before, key) != Unseen
    requires forall key :: key in observed0 ==> observed0[key] == Tally(before, key)
    ensures forall key :: key in observed <==> Tally(before + [rec], key) != Unseen
    ensures forall key :: key in observed ==> observed[key] == Tally(before + [rec], key)
  {
    observed := observed0;
    var left := rec.fields.Keys;
    assert (before + [rec])[..|before|] == before;
    while left != {}
      invariant left <= rec.fields.Keys
      invariant forall key :: key in observed <==> if key in left then Tally(before, key) != Unseen else Tally(before + [rec], key) != Unseen
      invariant forall key :: key in observed ==> observed[key] == if key in left then Tally(before, key) else Tally(before + [rec], key)
    {
      var key :| key in left;
      var found := if key in observed then observed[key] else Unseen;
      observed := observed[key := Add(found, KindName(rec.fields[key]))];
      left := left - {key};
    }
  }

  /** The keys that ever had a value, in no order at all. */
  method Candidates(ghost recs: seq<Record>, observed: map<string, KindSet>) returns (found: seq<Candidate>)
    requires forall key :: key in observed <==> Tally(recs, key) != Unseen
    requires forall key :: key in observed ==> observed[key] == Tally(recs, key)
    ensures forall c :: c in found <==> CandidateOf(recs, c.key) == Some(c)
    ensures Comparable(Commoner, found)
  {
    found := [];
    var left := observed.Keys;
    while left != {}
      invariant left <= observed.Keys
      invariant forall c :: c in found <==> c.key in observed && c.key !in left && CandidateOf(recs, c.key) == Some(c)
      invariant Comparable(Commoner, found)
    {
      var key :| key in left;
      match Widest(observed[key]) {
        case None =>
        case Some(width) =>
          var c := Candidate(key, width, observed[key].count);
          forall i | 0 <= i < |found| ensures Commoner(found[i], c) || Commoner(c, found[i]) {
            assert found[i] in found;
            TextTotal(found[i].key, key);
          }
          found := found + [c];
      }
      left := left - {key};
    }
  }

  method Rank(recs: seq<Record>) returns (ranked: seq<Candidate>)
    ensures IsRanking(recs, ranked)
  {
    var observed := Observe(recs);
    var candidates := Candidates(recs, observed);
    CommonerOrders();
    SortByIs(Commoner, candidates);
    ranked := SortBy(Commoner, candidates);
  }

  method BuildSchema(recs: seq<Record>) returns (cols: seq<Column>, dropped: nat)
    ensures IsSchema(recs, cols, dropped)
  {
    var ranked := Rank(recs);
    dropped := 0;
    var kept := ranked;
    if |kept| > MaxColumns {
      dropped := |kept| - MaxColumns;
      kept := kept[..MaxColumns];
    }
    var named := Name(kept);
    cols := SortBy(ByName, named);
    SortedByName(kept, named);
    assert Derived(recs, ranked, named, cols, dropped);
  }

  lemma NamedStill(kept: seq<Candidate>, i: nat, named: seq<Column>, column: Column, j: nat)
    requires j < i < |kept| && IsNaming(kept[..i], named)
    ensures NamedAt(kept[..i + 1], named + [column], j)
  {
    assert NamedAt(kept[..i], named, j);
    var more := named + [column];
    assert more[..j] == named[..j] && more[j] == named[j] && kept[..i + 1][j] == kept[..i][j];
  }

  lemma NamingNext(kept: seq<Candidate>, i: nat, named: seq<Column>, column: Column)
    requires i < |kept| && IsNaming(kept[..i], named) && NamedAfter(kept[i], Taken(named), column)
    ensures IsNaming(kept[..i + 1], named + [column]) && Taken(named + [column]) == Taken(named) + {Folded(column.name)}
  {
    var some, more := kept[..i + 1], named + [column];
    assert more[..i] == named;
    forall j | 0 <= j < |some| ensures NamedAt(some, more, j) {
      if j < i {
        NamedStill(kept, i, named, column, j);
      }
    }
  }

  method Name(kept: seq<Candidate>) returns (named: seq<Column>)
    ensures IsNaming(kept, named)
  {
    named := [];
    var taken := EnvelopeNames;
    for i := 0 to |kept|
      invariant IsNaming(kept[..i], named) && taken == Taken(named)
    {
      var c := kept[i];
      var name := ColumnName(c.key, taken);
      var column := Resolver.Column.Column(name, c.key, c.width.kind, c.width.polymorphic);
      NamingNext(kept, i, named, column);
      named, taken := named + [column], taken + {Folded(name)};
    }
    assert kept[..|kept|] == kept;
  }

  // ---- names and keys are apart ----

  lemma IsTaken(cols: seq<Column>, i: nat)
    requires i < |cols|
    ensures Folded(cols[i].name) in Taken(cols)
  {
    assert cols[i] in cols;
  }

  /** What a name has to do with those before it. */
  lemma NameIsFree(kept: seq<Candidate>, named: seq<Column>, i: nat)
    requires IsNaming(kept, named) && i < |kept|
    ensures Folded(named[i].name) !in Taken(named[..i]) && FieldPrefix <= named[i].name && named[i].key == kept[i].key
    ensures named[i].kind == kept[i].width.kind && named[i].polymorphic == kept[i].width.polymorphic
  {
    assert NamedAt(kept, named, i);
  }

  lemma NamesDiffer(kept: seq<Candidate>, named: seq<Column>, i: nat, j: nat)
    requires IsNaming(kept, named) && i < j < |named|
    ensures Folded(named[i].name) != Folded(named[j].name)
  {
    IsTaken(named[..j], i);
    NameIsFree(kept, named, j);
  }

  lemma NamesCompare(kept: seq<Candidate>, named: seq<Column>)
    requires IsNaming(kept, named)
    ensures Comparable(ByName, named)
  {
    forall i, j | 0 <= i < j < |named| ensures ByName(named[i], named[j]) || ByName(named[j], named[i]) {
      NamesDiffer(kept, named, i, j);
      TextTotal(named[i].name, named[j].name);
    }
  }

  lemma SortedByName(kept: seq<Candidate>, named: seq<Column>)
    requires IsNaming(kept, named)
    ensures Strict(ByName, SortBy(ByName, named)) && |SortBy(ByName, named)| == |named|
    ensures forall c :: c in SortBy(ByName, named) <==> c in named
  {
    ByNameOrders();
    NamesCompare(kept, named);
    SortByIs(ByName, named);
  }

  /** No two columns are one to a reader that ignores case, no two hold one key, and none is the envelope's. */
  ghost predicate Apart(cols: seq<Column>) {
    && (forall i, j :: 0 <= i < j < |cols| ==> Folded(cols[i].name) != Folded(cols[j].name) && cols[i].key != cols[j].key)
    && forall i :: 0 <= i < |cols| ==> FieldPrefix <= cols[i].name && Folded(cols[i].name) !in EnvelopeNames
  }

  lemma KeysDiffer(recs: seq<Record>, ranked: seq<Candidate>, i: nat, j: nat)
    requires IsRanking(recs, ranked) && i < j < |ranked|
    ensures ranked[i].key != ranked[j].key
  {
    TextTotal(ranked[i].key, ranked[i].key);
    assert !Commoner(ranked[i], ranked[i]) && Commoner(ranked[i], ranked[j]);
    assert ranked[i] in ranked && ranked[j] in ranked;
  }

  /** A column is that of some key kept. */
  lemma ColumnOfKept(recs: seq<Record>, ranked: seq<Candidate>, named: seq<Column>, cols: seq<Column>, dropped: nat, c: Column) returns (i: nat)
    requires Derived(recs, ranked, named, cols, dropped) && c in cols
    ensures i < |named| && named[i] == c && CandidateOf(recs, c.key) == Some(ranked[i])
    ensures ranked[i].width == WidthOf(c) && ranked[i].key == c.key
    ensures FieldPrefix <= c.name && Folded(c.name) !in EnvelopeNames
  {
    i :| 0 <= i < |named| && named[i] == c;
    NameIsFree(Kept(ranked), named, i);
    assert Kept(ranked)[i] == ranked[i] && ranked[i] in ranked;
  }

  function WidthOf(c: Column): Width {
    Width(c.kind, c.polymorphic)
  }

  /** What a column is taken to hold is what the batch showed of its key. */
  lemma ColumnsAsSeen(recs: seq<Record>, cols: seq<Column>, dropped: nat, c: Column)
    requires IsSchema(recs, cols, dropped) && c in cols
    ensures Widest(Tally(recs, c.key)) == Some(Width(c.kind, c.polymorphic))
    ensures FieldPrefix <= c.name && Folded(c.name) !in EnvelopeNames
  {
    var ranked, named :| Derived(recs, ranked, named, cols, dropped);
    var i := ColumnOfKept(recs, ranked, named, cols, dropped, c);
  }

  lemma ColumnsAreApart(recs: seq<Record>, cols: seq<Column>, dropped: nat)
    requires IsSchema(recs, cols, dropped)
    ensures Apart(cols) && |cols| <= MaxColumns
  {
    var ranked, named :| Derived(recs, ranked, named, cols, dropped);
    forall i, j | 0 <= i < j < |cols| ensures Folded(cols[i].name) != Folded(cols[j].name) && cols[i].key != cols[j].key {
      assert cols[i] in cols && cols[j] in cols && ByName(cols[i], cols[j]);
      var p := ColumnOfKept(recs, ranked, named, cols, dropped, cols[i]);
      var q := ColumnOfKept(recs, ranked, named, cols, dropped, cols[j]);
      TextTotal(cols[i].name, cols[j].name);
      assert p != q;
      var first, second := if p < q then p else q, if p < q then q else p;
      NamesDiffer(Kept(ranked), named, first, second);
      KeysDiffer(recs, ranked, first, second);
    }
    forall i | 0 <= i < |cols| ensures FieldPrefix <= cols[i].name && Folded(cols[i].name) !in EnvelopeNames {
      ColumnsAsSeen(recs, cols, dropped, cols[i]);
    }
  }

  /** A key left out was no commoner than any that was kept, and none is left out while there is room. */
  lemma LeftOutIsRarer(recs: seq<Record>, cols: seq<Column>, dropped: nat, key: string, c: Column)
    requires IsSchema(recs, cols, dropped) && c in cols
    requires CandidateOf(recs, key).Some? && forall d <- cols :: d.key != key
    ensures var kept, out := |Holders(recs, c.key)|, |Holders(recs, key)|; kept > out || (kept == out && TextBefore(c.key, key))
    ensures dropped > 0 && |cols| == 512
  {
    TallyCounts(recs, c.key);
    TallyCounts(recs, key);
    var ranked, named :| Derived(recs, ranked, named, cols, dropped);
    var i := ColumnOfKept(recs, ranked, named, cols, dropped, c);
    var out := CandidateOf(recs, key).value;
    assert out in ranked;
    forall j | 0 <= j < |named| ensures ranked[j] != out {
      NameIsFree(Kept(ranked), named, j);
      assert named[j] in cols && Kept(ranked)[j] == ranked[j];
    }
    var j :| 0 <= j < |ranked| && ranked[j] == out;
  }

  // ---- values in columns ----

  lemma OnlyIs(kinds: set<string>, kind: string)
    requires kind in kinds && Only(kinds).Some?
    ensures Only(kinds) == Some(kind) && kind in {"boolean", "int", "float", "string", "json"}
  {
  }

  /** A value of a kind seen fits the width that came of it. */
  lemma WidestFits(lib: Lib, k: KindSet, v: Value)
    requires Widest(k).Some? && KindName(v) in k.seen && !v.NullValue?
    ensures Resolver.Stored(lib, v, Widest(k).value.kind) != Val.Null
    ensures !Widest(k).value.polymorphic ==> Resolver.Fits(v, Widest(k).value.kind)
  {
    var kinds := k.seen - {NullKind};
    assert KindName(v) in kinds;
    if Only(kinds).Some? {
      OnlyIs(kinds, KindName(v));
    }
  }

  /** Every value of a key kept has a place in its column. */
  lemma ValuesFit(lib: Lib, recs: seq<Record>, cols: seq<Column>, dropped: nat, i: nat, c: Column)
    requires IsSchema(recs, cols, dropped) && c in cols && i < |recs|
    requires c.key in recs[i].fields && !recs[i].fields[c.key].NullValue?
    ensures Resolver.Stored(lib, recs[i].fields[c.key], c.kind) != Val.Null
    ensures !c.polymorphic ==> Resolver.Fits(recs[i].fields[c.key], c.kind)
  {
    var v := recs[i].fields[c.key];
    ColumnsAsSeen(recs, cols, dropped, c);
    TallySays(recs, c.key);
    assert ShowsKindAt(recs[i], c.key, KindName(v));
    WidestFits(lib, Tally(recs, c.key), v);
  }
}
