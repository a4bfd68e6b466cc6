/** Which column a field reads, over files that keep different ones; and that it is the right one. */
module Resolver {
  import opened Prelude
  import opened Rql
  import opened Sql
  import opened Agreement

  datatype Column = Column(name: string, key: string, kind: string, polymorphic: bool)

  datatype File = File(hasRaw: bool, columns: seq<Column>)

  datatype Facts = Facts(column: string, kind: string, present: nat, polymorphic: bool)

  datatype Table = Table(facts: map<string, Facts>, files: nat, withRaw: nat)

  // ---- what the loops of NewResolver come to ----

  function Columns(files: seq<File>): seq<Column> {
    if files == [] then [] else Columns(files[..|files| - 1]) + files[|files| - 1].columns
  }

  function WithRaw(files: seq<File>): nat {
    if files == [] then 0 else WithRaw(files[..|files| - 1]) + if files[|files| - 1].hasRaw then 1 else 0
  }

  function AddFact(facts: map<string, Facts>, c: Column): map<string, Facts> {
    var f := if c.key in facts then facts[c.key] else Facts(c.name, c.kind, 0, false);
    var differs := c.polymorphic || f.kind != c.kind;
    facts[c.key := Facts(if f.column == c.name then f.column else "", if differs then "string" else f.kind, f.present + 1, f.polymorphic || differs)]
  }

  /** So far: what is known of each key, the first key to use each folded column name, and the keys that met another there. */
  datatype Seen = Seen(facts: map<string, Facts>, owners: map<string, string>, shared: set<string>)

  function See(fold: string -> string, seen: Seen, c: Column): Seen {
    var folded := fold(c.name);
    Seen(AddFact(seen.facts, c),
         if folded in seen.owners then seen.owners else seen.owners[folded := c.key],
         if folded in seen.owners && seen.owners[folded] != c.key then seen.shared + {seen.owners[folded], c.key} else seen.shared)
  }

  function SeenOf(fold: string -> string, cols: seq<Column>): Seen {
    if cols == [] then Seen(map[], map[], {}) else See(fold, SeenOf(fold, cols[..|cols| - 1]), cols[|cols| - 1])
  }

  function Unshared(seen: Seen): map<string, Facts> {
    map key | key in seen.facts :: if key in seen.shared then seen.facts[key].(column := "") else seen.facts[key]
  }

  function TableOf(fold: string -> string, files: seq<File>): Table {
    Table(Unshared(SeenOf(fold, Columns(files))), |files|, WithRaw(files))
  }

  lemma SeenMore(fold: string -> string, before: seq<Column>, columns: seq<Column>, j: nat)
    requires j < |columns|
    ensures SeenOf(fold, before + columns[..j + 1]) == See(fold, SeenOf(fold, before + columns[..j]), columns[j])
  {
    assert (before + columns[..j + 1])[..|before| + j] == before + columns[..j];
  }

  /** Takes in one file's columns. */
  method AddColumns(fold: string -> string, ghost before: seq<Column>, columns: seq<Column>, seen0: Seen) returns (seen: Seen)
    requires seen0 == SeenOf(fold, before)
    ensures seen == SeenOf(fold, before + columns)
  {
    seen := seen0;
    var j := 0;
    assert before + columns[..0] == before;
    while j < |columns|
      invariant 0 <= j <= |columns| && seen == SeenOf(fold, before + columns[..j])
    {
      SeenMore(fold, before, columns, j);
      seen := AddColumn(fold, seen, columns[j]);
      j := j + 1;
    }
    assert columns[..|columns|] == columns;
  }

  method AddColumn(fold: string -> string, seen0: Seen, c: Column) returns (seen: Seen)
    ensures seen == See(fold, seen0, c)
  {
    var folded := fold(c.name);
    var owners, shared := seen0.owners, seen0.shared;
    if folded !in owners {
      owners := owners[folded := c.key];
    } else if owners[folded] != c.key {
      shared := shared + {owners[folded], c.key};
    }
    seen := Seen(AddFact(seen0.facts, c), owners, shared);
  }

  method NewResolver(fold: string -> string, files: seq<File>) returns (t: Table)
    ensures t == TableOf(fold, files)
  {
    var seen, withRaw: nat := Seen(map[], map[], {}), 0;
    var i := 0;
    while i < |files|
      invariant 0 <= i <= |files| && withRaw == WithRaw(files[..i]) && seen == SeenOf(fold, Columns(files[..i]))
    {
      assert files[..i + 1][..i] == files[..i];
      if files[i].hasRaw {
        withRaw := withRaw + 1;
      }
      seen := AddColumns(fold, Columns(files[..i]), files[i].columns, seen);
      i := i + 1;
    }
    assert files[..|files|] == files;
    t := Table(Unshared(seen), |files|, withRaw);
  }

  // ---- resolving ----

  const EnvelopeColumns: map<string, (string, FieldKind)> := map[
    "ts" := ("ts", FieldTimestamp), "time" := ("ts", FieldTimestamp), "ingest_ts" := ("ingest_ts", FieldTimestamp),
    "stream" := ("stream", FieldString), "seq" := ("seq", FieldNumber),
    "level" := ("level", FieldSeverity), "severity" := ("level", FieldSeverity),
    "msg" := ("msg", FieldString), "message" := ("msg", FieldString),
    "host" := ("host", FieldString), "raw" := ("raw", FieldString), "is_json" := ("is_json", FieldBool)]

  function KindOf(kind: string): FieldKind {
    if kind == "int" || kind == "float" then FieldNumber
    else if kind == "boolean" then FieldBool
    else if kind == "json" then FieldJSON
    else FieldString
  }

  /** A key out of raw, as the type its column has. */
  function CastFromRaw(field: string, kind: FieldKind): Expr {
    if kind == FieldNumber then TryNumber(RawPath(field))
    else if kind == FieldBool then TryBool(RawPath(field))
    else RawPath(field)
  }

  function Resolve(t: Table, field: string): Resolution {
    if field in EnvelopeColumns then Resolved(Expr.Column(EnvelopeColumns[field].0), EnvelopeColumns[field].1)
    else
      var dotted := Cut(field);
      if dotted.Some? && dotted.value.0 in t.facts && t.facts[dotted.value.0].column != "" && t.facts[dotted.value.0].kind == "json" then
        var facts := t.facts[dotted.value.0];
        var expr := Extract(Expr.Column(facts.column), dotted.value.1);
        Resolved(if t.files > facts.present && t.withRaw > 0 then Coalesce(expr, RawPath(field)) else expr, FieldString)
      else if field !in t.facts then
        if t.withRaw == 0 then Unresolved(FieldString) else Resolved(RawPath(field), FieldString)
      else
        var facts := t.facts[field];
        var kind := KindOf(facts.kind);
        if facts.column == "" then
          if t.withRaw == 0 then Unresolved(kind) else Resolved(RawPath(field), FieldString)
        else if t.files <= facts.present || t.withRaw == 0 then Resolved(Expr.Column(facts.column), kind)
        else Resolved(Coalesce(Expr.Column(facts.column), CastFromRaw(field, kind)), kind)
  }

  lemma ResolvePlain(t: Table, field: string)
    ensures Resolve(t, field).Resolved? ==> Holders(Resolve(t, field).expr) == []
  {
    if Resolve(t, field).Resolved? {
      match Resolve(t, field).expr
      case Coalesce(a, b) => assert Holders(a) == [] && Holders(b) == [];
      case _ =>
    }
  }

  // ---- what the facts say ----

  ghost predicate Keeps(cols: seq<Column>, key: string) {
    exists i :: 0 <= i < |cols| && cols[i].key == key
  }

  /** Every column of a key has this name. */
  ghost predicate Named(cols: seq<Column>, key: string, name: string) {
    forall i :: 0 <= i < |cols| && cols[i].key == key ==> cols[i].name == name
  }

  /** Every column of a key has this one kind, and none went polymorphic. */
  ghost predicate Typed(cols: seq<Column>, key: string, kind: string) {
    forall i :: 0 <= i < |cols| && cols[i].key == key ==> cols[i].kind == kind && !cols[i].polymorphic
  }

  ghost predicate NamesGiven(cols: seq<Column>) {
    forall i :: 0 <= i < |cols| ==> cols[i].name != ""
  }

  lemma {:induction false} FactsSay(fold: string -> string, cols: seq<Column>, key: string)
    requires NamesGiven(cols)
    ensures var facts := SeenOf(fold, cols).facts;
            && (key in facts <==> Keeps(cols, key))
            && (key in facts ==>
              var f := facts[key];
              && f.present > 0
              && (f.column != "" ==> Named(cols, key, f.column))
              && (forall name :: Named(cols, key, name) ==> f.column == name)
              && (forall kind :: Typed(cols, key, kind) ==> f.kind == kind)
              && ((forall kind :: !Typed(cols, key, kind)) ==> f.kind == "string"))
    decreases |cols|
  {
    if cols != [] {
      var n := |cols| - 1;
      var front, c := cols[..n], cols[n];
      FactsSay(fold, front, key);
      assert cols == front + [c];
      if c.key == key {
        assert Keeps(cols, key);
        OneMoreColumn(cols);
        assert Typed(cols, key, c.kind) <==> Typed(front, key, c.kind) && !c.polymorphic;
        if !Keeps(front, key) {
          Unkept(front, key);
          assert Named(cols, key, c.name);
        }
      } else {
        SameKey(cols, key);
      }
    }
  }

  lemma OneMoreColumn(cols: seq<Column>)
    requires cols != []
    ensures var front, c := cols[..|cols| - 1], cols[|cols| - 1];
            && (forall name :: Named(cols, c.key, name) <==> Named(front, c.key, name) && c.name == name)
            && (forall kind :: Typed(cols, c.key, kind) <==> Typed(front, c.key, kind) && c.kind == kind && !c.polymorphic)
  {
    var front := cols[..|cols| - 1];
    forall i | 0 <= i < |front|
      ensures front[i] == cols[i]
    {
    }
  }

  lemma Unkept(cols: seq<Column>, key: string)
    requires !Keeps(cols, key)
    ensures (forall name :: Named(cols, key, name)) && (forall kind :: Typed(cols, key, kind))
  {
  }

  lemma SameKey(cols: seq<Column>, key: string)
    requires cols != [] && cols[|cols| - 1].key != key
    ensures var front := cols[..|cols| - 1];
            && (Keeps(cols, key) <==> Keeps(front, key))
            && (forall name :: Named(cols, key, name) <==> Named(front, key, name))
            && (forall kind :: Typed(cols, key, kind) <==> Typed(front, key, kind))
  {
    var front := cols[..|cols| - 1];
    forall i | 0 <= i < |front|
      ensures front[i] == cols[i]
    {
    }
    if Keeps(cols, key) {
      var i :| 0 <= i < |cols| && cols[i].key == key;
      assert front[i].key == key;
    }
  }

  /** A key met another at a column name, whatever their case. */
  ghost predicate Meets(fold: string -> string, cols: seq<Column>, key: string) {
    exists i, j :: 0 <= i < |cols| && 0 <= j < |cols| && cols[i].key == key && cols[j].key != key && fold(cols[i].name) == fold(cols[j].name)
  }

  /** An owner is the key of the first column of its name. */
  ghost predicate Owns(fold: string -> string, cols: seq<Column>, folded: string, key: string) {
    exists i :: 0 <= i < |cols| && fold(cols[i].name) == folded && cols[i].key == key
  }

  lemma {:induction false} OwnersSay(fold: string -> string, cols: seq<Column>, folded: string)
    ensures var owners := SeenOf(fold, cols).owners;
            && (folded in owners <==> exists i :: 0 <= i < |cols| && fold(cols[i].name) == folded)
            && (folded in owners ==> Owns(fold, cols, folded, owners[folded]))
    decreases |cols|
  {
    if cols != [] {
      var n := |cols| - 1;
      var front := cols[..n];
      OwnersSay(fold, front, folded);
      var owners := SeenOf(fold, front).owners;
      if folded in owners {
        var i :| 0 <= i < |front| && fold(front[i].name) == folded && front[i].key == owners[folded];
        assert fold(cols[i].name) == folded && cols[i].key == owners[folded];
      } else {
        forall i | 0 <= i < n
          ensures fold(cols[i].name) != folded
        {
          assert fold(front[i].name) != folded;
        }
        assert fold(cols[n].name) == fold(cols[n].name);
      }
    }
  }

  lemma MeetsMore(fold: string -> string, cols: seq<Column>, c: Column, key: string)
    ensures Meets(fold, cols, key) ==> Meets(fold, cols + [c], key)
  {
    if Meets(fold, cols, key) {
      var i, j :| 0 <= i < |cols| && 0 <= j < |cols| && cols[i].key == key && cols[j].key != key && fold(cols[i].name) == fold(cols[j].name);
      assert (cols + [c])[i] == cols[i] && (cols + [c])[j] == cols[j];
    }
  }

  /** Meeting an owner of another key: both are shared from now on. */
  lemma MeetsOwner(fold: string -> string, cols: seq<Column>, c: Column, owner: string)
    requires Owns(fold, cols, fold(c.name), owner) && owner != c.key
    ensures Meets(fold, cols + [c], owner) && Meets(fold, cols + [c], c.key)
  {
    var i :| 0 <= i < |cols| && fold(cols[i].name) == fold(c.name) && cols[i].key == owner;
    assert (cols + [c])[i] == cols[i] && (cols + [c])[|cols|] == c;
  }

  /** A key that meets the newest column met someone before, or is that column's, or owns its name. */
  lemma MeetsNewest(fold: string -> string, cols: seq<Column>, c: Column, key: string)
    requires Meets(fold, cols + [c], key) && !Meets(fold, cols, key)
    ensures exists i :: 0 <= i < |cols| && fold(cols[i].name) == fold(c.name)
    ensures forall owner :: Owns(fold, cols, fold(c.name), owner) ==> owner != c.key && (key == owner || key == c.key)
  {
    var more := cols + [c];
    var i, j :| 0 <= i < |more| && 0 <= j < |more| && more[i].key == key && more[j].key != key && fold(more[i].name) == fold(more[j].name);
    assert i == |cols| || j == |cols|;
    var other := if i == |cols| then j else i;
    assert more[other] == cols[other] && fold(cols[other].name) == fold(c.name);
    forall owner | Owns(fold, cols, fold(c.name), owner)
      ensures owner != c.key && (key == owner || key == c.key)
    {
      var k :| 0 <= k < |cols| && fold(cols[k].name) == fold(c.name) && cols[k].key == owner;
      assert cols[other].key == key ==> cols[k].key == key;
    }
  }

  /** The shared keys are those that met another, in whatever order the columns came. */
  lemma {:induction false} SharedSay(fold: string -> string, cols: seq<Column>, key: string)
    ensures key in SeenOf(fold, cols).shared <==> Meets(fold, cols, key)
    decreases |cols|
  {
    if cols != [] {
      var n := |cols| - 1;
      var front, c := cols[..n], cols[n];
      assert cols == front + [c];
      SharedSay(fold, front, key);
      OwnersSay(fold, front, fold(c.name));
      MeetsMore(fold, front, c, key);
      var owners := SeenOf(fold, front).owners;
      if fold(c.name) in owners && owners[fold(c.name)] != c.key {
        MeetsOwner(fold, front, c, owners[fold(c.name)]);
      }
      if Meets(fold, cols, key) && !Meets(fold, front, key) {
        MeetsNewest(fold, front, c, key);
      }
    }
  }

  // ---- reading a stored row ----

  /** The column a name reads in one file: the first whose name is it, case aside. */
  function Find(fold: string -> string, columns: seq<Column>, name: string): Option<Column> {
    if columns == [] then None
    else if fold(columns[0].name) == fold(name) then Some(columns[0])
    else Find(fold, columns[1..], name)
  }

  lemma {:induction false} FindSays(fold: string -> string, columns: seq<Column>, name: string)
    ensures match Find(fold, columns, name)
            case None => forall i :: 0 <= i < |columns| ==> fold(columns[i].name) != fold(name)
            case Some(c) => c in columns && fold(c.name) == fold(name)
  {
    if columns != [] && fold(columns[0].name) != fold(name) {
      FindSays(fold, columns[1..], name);
      forall i | 0 <= i < |columns| && Find(fold, columns, name).None?
        ensures fold(columns[i].name) != fold(name)
      {
        assert i > 0 ==> columns[i] == columns[1..][i - 1];
      }
    }
  }

  lemma {:induction false} ColumnsHave(files: seq<File>, f: File, c: Column)
    requires f in files && c in f.columns
    ensures c in Columns(files)
    decreases |files|
  {
    var n := |files| - 1;
    assert files == files[..n] + [files[n]];
    if f != files[n] {
      ColumnsHave(files[..n], f, c);
    }
  }

  /**
   * A key that resolves to a column never reads another key's: in a file that keeps the key the
   * name reads its column, and in one that does not it reads nothing.
   */
  lemma ReadsItsOwn(fold: string -> string, files: seq<File>, f: File, key: string)
    requires NamesGiven(Columns(files)) && f in files
    requires var t := TableOf(fold, files); key in t.facts && t.facts[key].column != ""
    ensures match Find(fold, f.columns, TableOf(fold, files).facts[key].column)
            case Some(c) => c in f.columns && c.key == key
            case None => forall i :: 0 <= i < |f.columns| ==> f.columns[i].key != key
  {
    var cols := Columns(files);
    var name := TableOf(fold, files).facts[key].column;
    FactsSay(fold, cols, key);
    SharedSay(fold, cols, key);
    FindSays(fold, f.columns, name);
    match Find(fold, f.columns, name)
    case Some(c) =>
      ColumnsHave(files, f, c);
      var i :| 0 <= i < |cols| && cols[i].key == key;
      var j :| 0 <= j < |cols| && cols[j] == c;
      assert fold(cols[i].name) == fold(cols[j].name);
    case None =>
      forall i | 0 <= i < |f.columns|
        ensures f.columns[i].key != key
      {
        ColumnsHave(files, f, f.columns[i]);
        var j :| 0 <= j < |cols| && cols[j] == f.columns[i];
      }
  }

  // ---- the order of the files ----

  function CountKey(cols: seq<Column>, key: string): nat {
    if cols == [] then 0 else CountKey(cols[..|cols| - 1], key) + if cols[|cols| - 1].key == key then 1 else 0
  }

  lemma {:induction false} PresentCounts(fold: string -> string, cols: seq<Column>, key: string)
    ensures var facts := SeenOf(fold, cols).facts; CountKey(cols, key) == if key in facts then facts[key].present else 0
    decreases |cols|
  {
    if cols != [] {
      PresentCounts(fold, cols[..|cols| - 1], key);
    }
  }

  lemma {:induction false} CountAppend(a: seq<Column>, b: seq<Column>, key: string)
    ensures CountKey(a + b, key) == CountKey(a, key) + CountKey(b, key)
    decreases |b|
  {
    if b == [] {
      assert a + b == a;
    } else {
      assert (a + b)[..|a + b| - 1] == a + b[..|b| - 1];
      CountAppend(a, b[..|b| - 1], key);
    }
  }

  /** What a list of files adds up to, as far as resolving one key goes. */
  datatype Summary = Summary(columns: multiset<Column>, withRaw: nat, present: nat)

  function SummaryOf(files: seq<File>, key: string): Summary {
    Summary(multiset(Columns(files)), WithRaw(files), CountKey(Columns(files), key))
  }

  function Plus(a: Summary, b: Summary): Summary {
    Summary(a.columns + b.columns, a.withRaw + b.withRaw, a.present + b.present)
  }

  lemma {:induction false} FilesAppend(a: seq<File>, b: seq<File>)
    ensures Columns(a + b) == Columns(a) + Columns(b) && WithRaw(a + b) == WithRaw(a) + WithRaw(b)
    decreases |b|
  {
    if b == [] {
      assert a + b == a;
    } else {
      var n := |b| - 1;
      FilesAppend(a, b[..n]);
      assert (a + b)[..|a + b| - 1] == a + b[..n];
      Assoc(Columns(a), Columns(b[..n]), b[n].columns);
    }
  }

  lemma TallyAppend(a: seq<File>, b: seq<File>, key: string)
    ensures SummaryOf(a + b, key) == Plus(SummaryOf(a, key), SummaryOf(b, key))
  {
    FilesAppend(a, b);
    CountAppend(Columns(a), Columns(b), key);
  }

  function SummaryOfFile(f: File, key: string): Summary {
    Summary(multiset(f.columns), if f.hasRaw then 1 else 0, CountKey(f.columns, key))
  }

  lemma TallyMore(files: seq<File>, key: string)
    requires files != []
    ensures SummaryOf(files, key) == Plus(SummaryOf(files[..|files| - 1], key), SummaryOfFile(files[|files| - 1], key))
  {
    CountAppend(Columns(files[..|files| - 1]), files[|files| - 1].columns, key);
  }

  lemma PlusMiddle(a: Summary, f: Summary, b: Summary)
    ensures Plus(Plus(a, f), b) == Plus(Plus(a, b), f)
  {
  }

  lemma TallyMiddle(a: seq<File>, f: File, b: seq<File>, key: string)
    ensures SummaryOf(a + [f] + b, key) == Plus(SummaryOf(a + b, key), SummaryOfFile(f, key))
  {
    TallyAppend(a + [f], b, key);
    TallyAppend(a, b, key);
    TallyMore(a + [f], key);
    assert (a + [f])[..|a|] == a;
    PlusMiddle(SummaryOf(a, key), SummaryOfFile(f, key), SummaryOf(b, key));
  }

  lemma {:induction false} TallyPermuted(a: seq<File>, b: seq<File>, key: string)
    requires multiset(a) == multiset(b)
    ensures SummaryOf(a, key) == SummaryOf(b, key)
    decreases |a|
  {
    assert |a| == |multiset(a)| == |multiset(b)| == |b|;
    if a != [] {
      var n := |a| - 1;
      assert a[n] in multiset(b);
      var i :| 0 <= i < |b| && b[i] == a[n];
      assert b == b[..i] + [b[i]] + b[i + 1..];
      TallyMiddle(b[..i], b[i], b[i + 1..], key);
      TallyMore(a, key);
      RemovedBoth(a, b, i);
      TallyPermuted(a[..n], b[..i] + b[i + 1..], key);
    }
  }

  lemma SameMembers(a: seq<Column>, b: seq<Column>, i: nat) returns (j: nat)
    requires multiset(a) == multiset(b) && i < |a|
    ensures j < |b| && b[j] == a[i]
  {
    assert a[i] in multiset(b);
    j :| 0 <= j < |b| && b[j] == a[i];
  }

  /** What the same columns say of a key, in any order, going one way. */
  lemma SaysAsMuch(fold: string -> string, a: seq<Column>, b: seq<Column>, key: string)
    requires multiset(a) == multiset(b)
    ensures NamesGiven(a) ==> NamesGiven(b)
    ensures Keeps(a, key) ==> Keeps(b, key)
    ensures forall name :: Named(a, key, name) ==> Named(b, key, name)
    ensures forall kind :: Typed(a, key, kind) ==> Typed(b, key, kind)
    ensures Meets(fold, a, key) ==> Meets(fold, b, key)
  {
    forall j | 0 <= j < |b|
      ensures b[j] in a
    {
      var i := SameMembers(b, a, j);
    }
    if Keeps(a, key) {
      var i :| 0 <= i < |a| && a[i].key == key;
      var j := SameMembers(a, b, i);
    }
    if Meets(fold, a, key) {
      var i, k :| 0 <= i < |a| && 0 <= k < |a| && a[i].key == key && a[k].key != key && fold(a[i].name) == fold(a[k].name);
      var j := SameMembers(a, b, i);
      var l := SameMembers(a, b, k);
      assert b[j].key == key && b[l].key != key && fold(b[j].name) == fold(b[l].name);
    }
  }

  lemma SameFacts(fold: string -> string, a: seq<File>, b: seq<File>, key: string)
    requires multiset(a) == multiset(b) && NamesGiven(Columns(a))
    ensures var s, t := TableOf(fold, a), TableOf(fold, b);
            && s.files == t.files && s.withRaw == t.withRaw && (key in s.facts <==> key in t.facts)
            && (key in s.facts ==> s.facts[key].column == t.facts[key].column && s.facts[key].kind == t.facts[key].kind && s.facts[key].present == t.facts[key].present)
  {
    assert |a| == |multiset(a)| == |multiset(b)| == |b|;
    TallyPermuted(a, b, key);
    var c, d := Columns(a), Columns(b);
    SaysAsMuch(fold, c, d, key);
    SaysAsMuch(fold, d, c, key);
    FactsSay(fold, c, key);
    FactsSay(fold, d, key);
    PresentCounts(fold, c, key);
    PresentCounts(fold, d, key);
    SharedSay(fold, c, key);
    SharedSay(fold, d, key);
    if key in SeenOf(fold, c).facts {
      SameKinds(fold, c, d, key);
    }
  }

  lemma SameKinds(fold: string -> string, c: seq<Column>, d: seq<Column>, key: string)
    requires NamesGiven(c) && NamesGiven(d)
    requires forall kind :: Typed(c, key, kind) <==> Typed(d, key, kind)
    requires forall name :: Named(c, key, name) <==> Named(d, key, name)
    requires key in SeenOf(fold, c).facts && key in SeenOf(fold, d).facts
    ensures SeenOf(fold, c).facts[key].kind == SeenOf(fold, d).facts[key].kind
    ensures SeenOf(fold, c).facts[key].column == SeenOf(fold, d).facts[key].column
  {
    FactsSay(fold, c, key);
    FactsSay(fold, d, key);
    if kind :| Typed(c, key, kind) {
      assert Typed(d, key, kind);
    }
  }

  /** The answer does not depend on the order the files come in. */
  lemma FileOrderIsNothing(fold: string -> string, a: seq<File>, b: seq<File>, field: string)
    requires multiset(a) == multiset(b) && NamesGiven(Columns(a))
    ensures Resolve(TableOf(fold, a), field) == Resolve(TableOf(fold, b), field)
  {
    SameFacts(fold, a, b, field);
    if Cut(field).Some? {
      SameFacts(fold, a, b, Cut(field).value.0);
    }
  }

  // ---- rows as stored ----

  /** A value in a column of some kind: widened, written as text, or, if it cannot be either, nothing. */
  function Stored(lib: Lib, v: Value, kind: string): Val {
    if v.NullValue? then Null
    else if kind == "boolean" then if v.Boolean? then Truth(v.b) else Null
    else if kind == "int" then if v.Int? then Whole(v.i) else Null
    else if kind == "float" then if v.Number? then Real(v.f) else if v.Int? then Real(lib.widen(v.i)) else Null
    else if kind == "json" then Word(if v.Str? then lib.encode(v.s) else TextOf(lib, v))
    else Word(TextOf(lib, v))
  }

  function Optional(s: string): Val {
    if s == "" then Null else Word(s)
  }

  function ColumnOf(lib: Lib, fold: string -> string, f: File, rec: Record, name: string): Val {
    if name == "ts" then Moment(rec.ts)
    else if name == "ingest_ts" then Moment(rec.ingestTs)
    else if name == "stream" then Word(rec.stream)
    else if name == "seq" then Whole(rec.seqno)
    else if name == "level" then Optional(rec.level)
    else if name == "msg" then Optional(rec.msg)
    else if name == "host" then Optional(rec.host)
    else if name == "is_json" then Truth(rec.isObject)
    else if name == "raw" then if f.hasRaw then Optional(rec.raw) else Null
    else
      match Find(fold, f.columns, name)
      case Some(c) => if c.key in rec.fields then Stored(lib, rec.fields[c.key], c.kind) else Null
      case None => Null
  }

  /** The row a file holds for a record, among files read together by name. */
  function RowOf(lib: Lib, fold: string -> string, f: File, rec: Record): Row {
    Row((name: string) => ColumnOf(lib, fold, f, rec, name),
        (path: string) => if f.hasRaw && rec.raw != "" && lib.extract(rec.raw, path).Some? then Word(lib.extract(rec.raw, path).value) else Null)
  }

  function ResolveIn(t: Table): string -> Resolution {
    (field: string) => Resolve(t, field)
  }

  predicate Fits(v: Value, kind: string) {
    match v
    case Str(_) => kind == "string"
    case Int(_) => kind == "int" || kind == "float"
    case Number(_) => kind == "float"
    case Boolean(_) => kind == "boolean"
    case Json(_) => kind == "json"
    case NullValue => true
  }

  const PromotedPrefix := "a_"

  /** Promoted columns are named apart from the envelope. */
  ghost predicate Prefixed(cols: seq<Column>) {
    forall i :: 0 <= i < |cols| ==> PromotedPrefix <= cols[i].name
  }

  ghost predicate OneKind(cols: seq<Column>, key: string) {
    exists kind :: kind in {"int", "float", "boolean", "string", "json"} && Typed(cols, key, kind)
  }

  predicate Undotted(key: string) {
    '.' !in key
  }

  lemma {:induction false} UndottedUncut(key: string)
    requires Undotted(key)
    ensures Cut(key).None?
  {
    if key != "" {
      assert key[0] in key;
      forall c | c in key[1..] ensures c in key {}
      UndottedUncut(key[1..]);
    }
  }

  // ---- what a key reads in a file ----

  /** The column a file keeps a key in. */
  function ColumnFor(cols: seq<Column>, key: string): Option<Column> {
    if cols == [] then None
    else if cols[0].key == key then Some(cols[0])
    else ColumnFor(cols[1..], key)
  }

  /** No file keeps a key twice. */
  ghost predicate KeysOnce(files: seq<File>) {
    forall f <- files :: forall i, j :: 0 <= i < j < |f.columns| ==> f.columns[i].key != f.columns[j].key
  }

  /** What a record's own file holds of a key in a column. */
  function OwnCell(lib: Lib, f: File, rec: Record, key: string): Val {
    match ColumnFor(f.columns, key)
    case Some(c) => if key in rec.fields then Stored(lib, rec.fields[key], c.kind) else Null
    case None => Null
  }

  /** What its line has to say of it. */
  function LineCell(lib: Lib, f: File, rec: Record, key: string): Val {
    if f.hasRaw && rec.raw != "" && lib.extract(rec.raw, key).Some? then Word(lib.extract(rec.raw, key).value) else Null
  }

  function Cast(lib: Lib, v: Val, kind: FieldKind): Val {
    if kind == FieldNumber then AsNumber(lib, v)
    else if kind == FieldBool then (match v case Word(w) => if lib.truth(w).Some? then Truth(lib.truth(w).value) else Null case Truth(b) => Truth(b) case _ => Null)
    else v
  }

  lemma {:induction false} ColumnForSays(cols: seq<Column>, key: string)
    ensures match ColumnFor(cols, key)
            case Some(c) => c in cols && c.key == key
            case None => forall c <- cols :: c.key != key
    ensures CountKey(cols, key) > 0 <==> ColumnFor(cols, key).Some?
    ensures (forall i, j :: 0 <= i < j < |cols| ==> cols[i].key != cols[j].key) ==> CountKey(cols, key) <= 1
    decreases |cols|
  {
    if cols != [] {
      ColumnForSays(cols[1..], key);
      assert cols == [cols[0]] + cols[1..];
      CountAppend([cols[0]], cols[1..], key);
      assert CountKey([cols[0]], key) == if cols[0].key == key then 1 else 0 by {
        assert [cols[0]][..0] == [];
      }
    }
  }

  function KeepingFiles(files: seq<File>, key: string): nat {
    if files == [] then 0
    else KeepingFiles(files[..|files| - 1], key) + if ColumnFor(files[|files| - 1].columns, key).Some? then 1 else 0
  }

  /** As many columns as files keep the key; and all of them keep it exactly if that is as many as there are. */
  lemma {:induction false} KeepingCounts(files: seq<File>, key: string)
    requires KeysOnce(files)
    ensures CountKey(Columns(files), key) == KeepingFiles(files, key) <= |files|
    ensures KeepingFiles(files, key) == |files| <==> forall f <- files :: ColumnFor(f.columns, key).Some?
    decreases |files|
  {
    if files != [] {
      var front, last := files[..|files| - 1], files[|files| - 1];
      assert files == front + [last];
      assert forall f <- front :: f in files;
      KeepingCounts(front, key);
      CountAppend(Columns(front), last.columns, key);
      ColumnForSays(last.columns, key);
    }
  }

  lemma {:induction false} SomeHaveRaw(files: seq<File>, f: File)
    requires f in files && f.hasRaw
    ensures WithRaw(files) > 0
    decreases |files|
  {
    var n := |files| - 1;
    assert files == files[..n] + [files[n]];
    if f != files[n] {
      SomeHaveRaw(files[..n], f);
    }
  }

  /** A key is read from a column exactly if the files agree on its name and no other key meets it there. */
  ghost predicate HasName(fold: string -> string, cols: seq<Column>, key: string) {
    Keeps(cols, key) && !Meets(fold, cols, key) && exists name :: Named(cols, key, name)
  }

  lemma NameIsKnown(fold: string -> string, files: seq<File>, key: string)
    requires NamesGiven(Columns(files))
    ensures var t := TableOf(fold, files);
            HasName(fold, Columns(files), key) <==> key in t.facts && t.facts[key].column != ""
    ensures var t := TableOf(fold, files); key in t.facts ==> t.facts[key].kind == SeenOf(fold, Columns(files)).facts[key].kind
  {
    var cols := Columns(files);
    FactsSay(fold, cols, key);
    SharedSay(fold, cols, key);
    if Keeps(cols, key) && exists name :: Named(cols, key, name) {
      var name :| Named(cols, key, name);
      var i :| 0 <= i < |cols| && cols[i].key == key;
      assert cols[i].name == name;
    }
  }

  /** A field resolves to nothing exactly when no file has raw and no one column is known to be it. */
  lemma UnresolvedIff(fold: string -> string, files: seq<File>, key: string)
    requires NamesGiven(Columns(files)) && key !in EnvelopeColumns && Undotted(key)
    ensures Resolve(TableOf(fold, files), key).Unresolved? <==> WithRaw(files) == 0 && !HasName(fold, Columns(files), key)
  {
    UndottedUncut(key);
    NameIsKnown(fold, files, key);
  }

  lemma PromotedCell(lib: Lib, fold: string -> string, f: File, rec: Record, name: string)
    requires name !in {"ts", "ingest_ts", "stream", "seq", "level", "msg", "host", "is_json", "raw"}
    ensures ColumnOf(lib, fold, f, rec, name) ==
            match Find(fold, f.columns, name)
            case Some(c) => if c.key in rec.fields then Stored(lib, rec.fields[c.key], c.kind) else Null
            case None => Null
  {
  }

  lemma NameOfKey(fold: string -> string, files: seq<File>, key: string)
    requires NamesGiven(Columns(files)) && Prefixed(Columns(files)) && HasName(fold, Columns(files), key)
    ensures var t := TableOf(fold, files);
            && key in t.facts && t.facts[key].column != ""
            && t.facts[key].column !in {"ts", "ingest_ts", "stream", "seq", "level", "msg", "host", "is_json", "raw"}
  {
    NameIsKnown(fold, files, key);
    FactsSay(fold, Columns(files), key);
    NotEnvelope(Columns(files), key, TableOf(fold, files).facts[key].column);
  }

  /** The cell under the name a key resolves to is the file's own cell for the key. */
  lemma NamedCell(lib: Lib, fold: string -> string, files: seq<File>, f: File, rec: Record, key: string)
    requires f in files && NamesGiven(Columns(files)) && KeysOnce(files)
    requires var t := TableOf(fold, files); key in t.facts && t.facts[key].column != ""
    ensures OwnCell(lib, f, rec, key) ==
            match Find(fold, f.columns, TableOf(fold, files).facts[key].column)
            case Some(c) => if c.key in rec.fields then Stored(lib, rec.fields[c.key], c.kind) else Null
            case None => Null
  {
    ReadsItsOwn(fold, files, f, key);
    ColumnForSays(f.columns, key);
    match Find(fold, f.columns, TableOf(fold, files).facts[key].column)
    case Some(c) => OneColumn(f.columns, c, ColumnFor(f.columns, key).value);
    case None =>
  }

  lemma OneColumn(cols: seq<Column>, c: Column, d: Column)
    requires c in cols && d in cols && c.key == d.key
    requires forall i, j :: 0 <= i < j < |cols| ==> cols[i].key != cols[j].key
    ensures c == d
  {
    var i :| 0 <= i < |cols| && cols[i] == c;
    var j :| 0 <= j < |cols| && cols[j] == d;
  }

  lemma EvalCast(lib: Lib, row: Row, key: string, kind: FieldKind)
    ensures Eval(lib, CastFromRaw(key, kind), row, []) == Cast(lib, row.rawPath(key), kind)
    ensures Holders(CastFromRaw(key, kind)) == []
  {
    assert Eval(lib, RawPath(key), row, []) == row.rawPath(key);
  }

  /**
   * What a key is to read in a stored row: its own cell in the record's own file, and failing that, unless every
   * file keeps the key, what the line says of it, cast to the kind of the column. A key with no name of its own
   * reads what the line says, as text.
   */
  ghost function KeyValue(lib: Lib, fold: string -> string, files: seq<File>, f: File, rec: Record, key: string, kind: FieldKind): Val {
    var own, line := OwnCell(lib, f, rec, key), LineCell(lib, f, rec, key);
    if !HasName(fold, Columns(files), key) then line
    else if own != Null || (forall g <- files :: ColumnFor(g.columns, key).Some?) then own
    else Cast(lib, line, kind)
  }

  /** An undotted key that resolves reads that and never another key's value, whatever the files. */
  lemma KeyEvaluates(lib: Lib, fold: string -> string, files: seq<File>, f: File, rec: Record, key: string)
    requires f in files && NamesGiven(Columns(files)) && Prefixed(Columns(files)) && KeysOnce(files)
    requires key !in EnvelopeColumns && Undotted(key) && Resolve(TableOf(fold, files), key).Resolved?
    ensures var r := Resolve(TableOf(fold, files), key);
            && (HasName(fold, Columns(files), key) ==> key in TableOf(fold, files).facts && r.kind == KindOf(TableOf(fold, files).facts[key].kind))
            && (!HasName(fold, Columns(files), key) ==> r.kind == FieldString)
            && Eval(lib, r.expr, RowOf(lib, fold, f, rec), []) == KeyValue(lib, fold, files, f, rec, key, r.kind)
  {
    if HasName(fold, Columns(files), key) {
      NamedKeyEvaluates(lib, fold, files, f, rec, key);
    } else {
      NamelessKeyEvaluates(lib, fold, files, f, rec, key);
    }
  }

  lemma NamelessKeyEvaluates(lib: Lib, fold: string -> string, files: seq<File>, f: File, rec: Record, key: string)
    requires NamesGiven(Columns(files)) && key !in EnvelopeColumns && Undotted(key) && !HasName(fold, Columns(files), key)
    requires Resolve(TableOf(fold, files), key).Resolved?
    ensures var r := Resolve(TableOf(fold, files), key);
            r.kind == FieldString && Eval(lib, r.expr, RowOf(lib, fold, f, rec), []) == LineCell(lib, f, rec, key)
  {
    NamelessKeyResolves(fold, files, key);
    assert Eval(lib, RawPath(key), RowOf(lib, fold, f, rec), []) == LineCell(lib, f, rec, key);
  }

  lemma NamelessKeyResolves(fold: string -> string, files: seq<File>, key: string)
    requires NamesGiven(Columns(files)) && key !in EnvelopeColumns && Undotted(key) && !HasName(fold, Columns(files), key)
    ensures var r := Resolve(TableOf(fold, files), key); if WithRaw(files) == 0 then r.Unresolved? else r == Resolved(RawPath(key), FieldString)
  {
    UndottedUncut(key);
    NameIsKnown(fold, files, key);
  }

  /** A key with a name of its own resolves to that column, and raw beside it if some file may need it. */
  lemma NamedKeyResolves(fold: string -> string, files: seq<File>, key: string)
    requires NamesGiven(Columns(files)) && KeysOnce(files) && key !in EnvelopeColumns && Undotted(key)
    requires var t := TableOf(fold, files); key in t.facts && t.facts[key].column != ""
    ensures var t := TableOf(fold, files);
            var column, kind := Expr.Column(t.facts[key].column), KindOf(t.facts[key].kind);
            Resolve(t, key) == Resolved(if (forall g <- files :: ColumnFor(g.columns, key).Some?) || WithRaw(files) == 0 then column
                                        else Coalesce(column, CastFromRaw(key, kind)), kind)
  {
    UndottedUncut(key);
    PresentCounts(fold, Columns(files), key);
    KeepingCounts(files, key);
  }

  lemma NamedKeyEvaluates(lib: Lib, fold: string -> string, files: seq<File>, f: File, rec: Record, key: string)
    requires f in files && NamesGiven(Columns(files)) && Prefixed(Columns(files)) && KeysOnce(files)
    requires key !in EnvelopeColumns && Undotted(key) && HasName(fold, Columns(files), key)
    ensures var t, r := TableOf(fold, files), Resolve(TableOf(fold, files), key);
            && r.Resolved? && key in t.facts && r.kind == KindOf(t.facts[key].kind)
            && Eval(lib, r.expr, RowOf(lib, fold, f, rec), []) == KeyValue(lib, fold, files, f, rec, key, r.kind)
  {
    NameOfKey(fold, files, key);
    var facts, row := TableOf(fold, files).facts[key], RowOf(lib, fold, f, rec);
    NamedCell(lib, fold, files, f, rec, key);
    PromotedCell(lib, fold, f, rec, facts.column);
    NamedKeyResolves(fold, files, key);
    EvalBoth(lib, row, facts.column, key, KindOf(facts.kind));
    if f.hasRaw {
      SomeHaveRaw(files, f);
    }
  }

  lemma EvalBoth(lib: Lib, row: Row, name: string, key: string, kind: FieldKind)
    ensures Eval(lib, Expr.Column(name), row, []) == row.column(name)
    ensures Eval(lib, Coalesce(Expr.Column(name), CastFromRaw(key, kind)), row, []) ==
            if row.column(name) != Null then row.column(name) else Cast(lib, row.rawPath(key), kind)
  {
    EvalCast(lib, row, key, kind);
    assert Eval(lib, Expr.Column(name), row, []) == row.column(name);
  }

  /** Null, the key's own value as its own file stores it, or what the line says of that key. */
  lemma KeyReadsNoOther(lib: Lib, fold: string -> string, files: seq<File>, f: File, rec: Record, key: string)
    requires f in files && NamesGiven(Columns(files)) && Prefixed(Columns(files)) && KeysOnce(files)
    requires key !in EnvelopeColumns && Undotted(key) && Resolve(TableOf(fold, files), key).Resolved?
    ensures var r := Resolve(TableOf(fold, files), key);
            var s := Eval(lib, r.expr, RowOf(lib, fold, f, rec), []);
            || s == Null
            || (exists c :: c in f.columns && c.key == key && key in rec.fields && s == Stored(lib, rec.fields[key], c.kind))
            || (f.hasRaw && lib.extract(rec.raw, key).Some? && s == Cast(lib, Word(lib.extract(rec.raw, key).value), r.kind))
  {
    KeyEvaluates(lib, fold, files, f, rec, key);
    ColumnForSays(f.columns, key);
  }

  // ---- what history needs to answer as the tail does ----

  /** The line says what the record holds of a key, as text that reads back, or nothing where it holds nothing. */
  predicate LineAgrees(lib: Lib, rec: Record, key: string) {
    if HoldsKey(rec, key) then lib.extract(rec.raw, key) == Some(TextOf(lib, rec.fields[key])) && ReadsBack(lib, rec.fields[key])
    else lib.extract(rec.raw, key).None?
  }

  predicate HoldsKey(rec: Record, key: string) {
    key in rec.fields && !rec.fields[key].NullValue?
  }

  /** The line is there to be read. */
  predicate LineKept(f: File, rec: Record) {
    f.hasRaw && rec.raw != ""
  }

  /**
   * What a key read from a column needs: one kind, and the value either in a column of the record's own file, or,
   * where that file has no column for it, in its line.
   */
  ghost predicate NamedKeyOk(lib: Lib, files: seq<File>, f: File, rec: Record, key: string) {
    && OneKind(Columns(files), key)
    && (LineKept(f, rec) ==> (HoldsKey(rec, key) && ColumnFor(f.columns, key).Some?) || LineAgrees(lib, rec, key))
    && (HoldsKey(rec, key) ==>
          && (forall c <- Columns(files) :: c.key == key ==> Fits(rec.fields[key], c.kind))
          && (ColumnFor(f.columns, key).Some? || LineKept(f, rec)))
  }

  /** A key that has to be read from raw needs the line. */
  ghost predicate RawKeyOk(lib: Lib, f: File, rec: Record, key: string) {
    && (LineKept(f, rec) ==> LineAgrees(lib, rec, key))
    && (HoldsKey(rec, key) ==> LineKept(f, rec))
  }

  /** Any undotted key of one kind, in any mix of files that keep it in a column and files that have it only in raw. */
  ghost predicate KeyOk(lib: Lib, fold: string -> string, files: seq<File>, f: File, rec: Record, key: string) {
    && key !in EnvelopeColumns && Undotted(key)
    && if HasName(fold, Columns(files), key) then NamedKeyOk(lib, files, f, rec, key) else RawKeyOk(lib, f, rec, key)
  }

  lemma NotEnvelope(cols: seq<Column>, key: string, name: string)
    requires Prefixed(cols) && Keeps(cols, key) && Named(cols, key, name)
    ensures name !in {"ts", "ingest_ts", "stream", "seq", "level", "msg", "host", "is_json", "raw"}
  {
    var i :| 0 <= i < |cols| && cols[i].key == key;
    assert name[1] == '_';
  }

  lemma StoredRepresents(lib: Lib, key: string, v: Value, kind: string)
    requires Fits(v, kind) && !v.NullValue? && key != "seq"
    ensures Represents(lib, key, Some(v), KindOf(kind), Stored(lib, v, kind)) && Stored(lib, v, kind) != Null
  {
  }

  /** A value out of the line, cast to the kind of its column elsewhere, is the record's all the same. */
  lemma CastRepresents(lib: Lib, key: string, v: Value, kind: string)
    requires Fits(v, kind) && !v.NullValue? && key != "seq" && ReadsBack(lib, v)
    ensures Represents(lib, key, Some(v), KindOf(kind), Cast(lib, Word(TextOf(lib, v)), KindOf(kind)))
  {
  }

  lemma LookupKey(lib: Lib, rec: Record, key: string)
    requires key !in EnvelopeColumns && Undotted(key)
    ensures Lookup(lib, rec, key) == if HoldsKey(rec, key) then Some(rec.fields[key]) else None
    ensures !IsSeverityField(key) && !IsTimestampField(key) && key != "seq"
  {
    UndottedUncut(key);
  }

  /** The kind of a key of one kind is that of each of its columns. */
  lemma KindIsTheirs(fold: string -> string, files: seq<File>, key: string)
    requires NamesGiven(Columns(files)) && Keeps(Columns(files), key) && OneKind(Columns(files), key)
    ensures var t := TableOf(fold, files);
            key in t.facts && (exists c :: c in Columns(files) && c.key == key) && forall c <- Columns(files) :: c.key == key ==> c.kind == t.facts[key].kind
  {
    var cols := Columns(files);
    FactsSay(fold, cols, key);
    var kind :| kind in {"int", "float", "boolean", "string", "json"} && Typed(cols, key, kind);
    var i :| 0 <= i < |cols| && cols[i].key == key;
    assert cols[i] in cols;
  }

  /** A key with a name of its own reads what the record holds, from its column or from the line. */
  lemma NamedKeyReads(lib: Lib, fold: string -> string, files: seq<File>, f: File, rec: Record, key: string)
    requires f in files && NamesGiven(Columns(files)) && Prefixed(Columns(files)) && KeysOnce(files)
    requires KeyOk(lib, fold, files, f, rec, key) && HasName(fold, Columns(files), key)
    ensures var r := Resolve(TableOf(fold, files), key);
            && r.Resolved?
            && Represents(lib, key, if HoldsKey(rec, key) then Some(rec.fields[key]) else None, r.kind, Eval(lib, r.expr, RowOf(lib, fold, f, rec), []))
  {
    var t := TableOf(fold, files);
    UnresolvedIff(fold, files, key);
    KeyEvaluates(lib, fold, files, f, rec, key);
    KindIsTheirs(fold, files, key);
    ColumnForSays(f.columns, key);
    LookupKey(lib, rec, key);
    if HoldsKey(rec, key) {
      var v, kind := rec.fields[key], t.facts[key].kind;
      StoredRepresents(lib, key, v, kind);
      match ColumnFor(f.columns, key)
      case Some(c) => ColumnsHave(files, f, c);
      case None => CastRepresents(lib, key, v, kind);
    }
  }

  /** Such a key reads what the record holds; one without a name of its own reads it as text. */
  lemma KeyReads(lib: Lib, fold: string -> string, files: seq<File>, f: File, rec: Record, key: string)
    requires f in files && NamesGiven(Columns(files)) && Prefixed(Columns(files)) && KeysOnce(files) && KeyOk(lib, fold, files, f, rec, key)
    ensures var resolve, row := ResolveIn(TableOf(fold, files)), RowOf(lib, fold, f, rec);
            if HasName(fold, Columns(files), key) || !HoldsKey(rec, key) then Reads(lib, resolve, key, rec, row) else ReadsAsText(lib, resolve, key, rec, row)
  {
    LookupKey(lib, rec, key);
    ResolvePlain(TableOf(fold, files), key);
    UnresolvedIff(fold, files, key);
    if f.hasRaw {
      SomeHaveRaw(files, f);
    }
    if Resolve(TableOf(fold, files), key).Resolved? {
      KeyEvaluates(lib, fold, files, f, rec, key);
      KindsOfKeys(fold, files, key);
      if HasName(fold, Columns(files), key) {
        NamedKeyReads(lib, fold, files, f, rec, key);
      }
    }
  }

  /** No key but the envelope's has a severity or a time. */
  lemma KindsOfKeys(fold: string -> string, files: seq<File>, field: string)
    ensures var r := Resolve(TableOf(fold, files), field);
            r.Resolved? ==> (r.kind == FieldSeverity <==> IsSeverityField(field)) && (r.kind == FieldTimestamp <==> IsTimestampField(field))
  {
    EnvelopeKinds(field);
    if field !in EnvelopeColumns {
      PromotedKinds(TableOf(fold, files), field);
    }
  }

  lemma EnvelopeKinds(field: string)
    ensures IsSeverityField(field) || IsTimestampField(field) ==> field in EnvelopeColumns
    ensures field in EnvelopeColumns ==> (EnvelopeColumns[field].1 == FieldSeverity <==> IsSeverityField(field))
    ensures field in EnvelopeColumns ==> (EnvelopeColumns[field].1 == FieldTimestamp <==> IsTimestampField(field))
  {
  }

  lemma PromotedKinds(t: Table, field: string)
    requires field !in EnvelopeColumns
    ensures Resolve(t, field).Resolved? ==> Resolve(t, field).kind != FieldSeverity && Resolve(t, field).kind != FieldTimestamp
  {
  }

  /** An envelope field reads the record's; raw has to be stored, and not empty. */
  lemma EnvelopeReads(lib: Lib, fold: string -> string, files: seq<File>, f: File, rec: Record, field: string)
    requires field in EnvelopeColumns && (field == "raw" ==> f.hasRaw && rec.raw != "")
    ensures Reads(lib, ResolveIn(TableOf(fold, files)), field, rec, RowOf(lib, fold, f, rec))
  {
    var (column, kind) := EnvelopeColumns[field];
    assert Resolve(TableOf(fold, files), field) == Resolved(Expr.Column(column), kind);
    assert Eval(lib, Expr.Column(column), RowOf(lib, fold, f, rec), []) == ColumnOf(lib, fold, f, rec, column);
    EnvelopeRepresents(lib, fold, f, rec, field);
  }

  lemma EnvelopeRepresents(lib: Lib, fold: string -> string, f: File, rec: Record, field: string)
    requires field in EnvelopeColumns && (field == "raw" ==> f.hasRaw && rec.raw != "")
    ensures var (column, kind) := EnvelopeColumns[field];
            var s := ColumnOf(lib, fold, f, rec, column);
            && (kind == FieldSeverity <==> IsSeverityField(field)) && (kind == FieldTimestamp <==> IsTimestampField(field))
            && if IsTimestampField(field) then s == Moment(TimestampOf(rec, field)) else Represents(lib, field, Lookup(lib, rec, field), kind, s)
  {
  }

  ghost predicate FieldOk(lib: Lib, fold: string -> string, files: seq<File>, f: File, rec: Record, field: string) {
    if field in EnvelopeColumns then field == "raw" ==> f.hasRaw && rec.raw != "" else KeyOk(lib, fold, files, f, rec, field)
  }

  /** The queries both compilers are to agree on, over one stored record. */
  ghost predicate QueryOk(lib: Lib, fold: string -> string, files: seq<File>, f: File, rec: Record, node: Node) {
    match node
    case Comparison(field, op, literal) =>
      var r := Resolve(TableOf(fold, files), field);
      && FieldOk(lib, fold, files, f, rec, field)
      && (field !in EnvelopeColumns && !HasName(fold, Columns(files), field) && HoldsKey(rec, field) ==> TextAnswersAlike(lib, rec.fields[field], op, literal))
      && (r.Unresolved? ==> literal.kind != KindNull)
      && ((op == Contains || op == Matches) && r.Resolved? ==> r.kind != FieldNumber || field == "seq")
      && (IsSeverityField(field) ==> LevelTrimmed(lib, rec))
    case Text(text) => (f.hasRaw || rec.raw == "") && (text != "" || rec.msg != "" || rec.raw != "")
    case And(children) => children != [] && forall i :: 0 <= i < |children| ==> QueryOk(lib, fold, files, f, rec, children[i])
    case Or(children) => children != [] && forall i :: 0 <= i < |children| ==> QueryOk(lib, fold, files, f, rec, children[i])
    case Not(child) => QueryOk(lib, fold, files, f, rec, child)
  }

  lemma ComparisonIsFaithful(lib: Lib, fold: string -> string, files: seq<File>, f: File, rec: Record, field: string, op: Op, literal: Literal)
    requires f in files && NamesGiven(Columns(files)) && Prefixed(Columns(files)) && KeysOnce(files)
    requires QueryOk(lib, fold, files, f, rec, Comparison(field, op, literal))
    ensures ComparisonOk(lib, ResolveIn(TableOf(fold, files)), field, op, literal, rec, RowOf(lib, fold, f, rec))
  {
    if field in EnvelopeColumns {
      EnvelopeReads(lib, fold, files, f, rec, field);
    } else {
      KeyReads(lib, fold, files, f, rec, field);
      LookupKey(lib, rec, field);
    }
  }

  lemma {:induction false} QueryIsFaithful(lib: Lib, fold: string -> string, files: seq<File>, f: File, rec: Record, node: Node)
    requires f in files && NamesGiven(Columns(files)) && Prefixed(Columns(files)) && KeysOnce(files) && QueryOk(lib, fold, files, f, rec, node)
    ensures Faithful(lib, ResolveIn(TableOf(fold, files)), node, rec, RowOf(lib, fold, f, rec))
    decreases node, 1
  {
    match node
    case Comparison(field, op, literal) => ComparisonIsFaithful(lib, fold, files, f, rec, field, op, literal);
    case Text(text) =>
    case And(children) => EachIsFaithful(lib, fold, files, f, rec, node, children);
    case Or(children) => EachIsFaithful(lib, fold, files, f, rec, node, children);
    case Not(child) => QueryIsFaithful(lib, fold, files, f, rec, child);
  }

  lemma {:induction false} EachIsFaithful(lib: Lib, fold: string -> string, files: seq<File>, f: File, rec: Record, parent: Node, nodes: seq<Node>)
    requires f in files && NamesGiven(Columns(files)) && Prefixed(Columns(files)) && KeysOnce(files)
    requires forall i :: 0 <= i < |nodes| ==> nodes[i] < parent && QueryOk(lib, fold, files, f, rec, nodes[i])
    ensures forall i :: 0 <= i < |nodes| ==> Faithful(lib, ResolveIn(TableOf(fold, files)), nodes[i], rec, RowOf(lib, fold, f, rec))
    decreases parent, 0
  {
    forall i | 0 <= i < |nodes|
      ensures Faithful(lib, ResolveIn(TableOf(fold, files)), nodes[i], rec, RowOf(lib, fold, f, rec))
    {
      QueryIsFaithful(lib, fold, files, f, rec, nodes[i]);
    }
  }

  /**
   * Two compilers, one meaning: over any files, in any order, the clause compiled for them selects
   * a stored row exactly when the live predicate accepts the record it was stored from.
   */
  lemma HistoryAnswersAsTheTail(lib: Lib, fold: string -> string, files: seq<File>, f: File, rec: Record, node: Node)
    requires FoldOk(lib) && f in files && NamesGiven(Columns(files)) && Prefixed(Columns(files)) && KeysOnce(files) && QueryOk(lib, fold, files, f, rec, node)
    requires Compile(lib, ResolveIn(TableOf(fold, files)), node, 0).Ok?
    ensures var c := Compile(lib, ResolveIn(TableOf(fold, files)), node, 0).value;
            Eval(lib, c.expr, RowOf(lib, fold, f, rec), c.args) == Truth(true) <==> Accepts(lib, node, rec)
  {
    var c := Compile(lib, ResolveIn(TableOf(fold, files)), node, 0).value;
    QueryIsFaithful(lib, fold, files, f, rec, node);
    assert c.args[0..|c.args|] == c.args;
    Agrees(lib, ResolveIn(TableOf(fold, files)), node, rec, RowOf(lib, fold, f, rec), 0, c, c.args);
  }

  // ---- where history and the tail part ----

  /** What is refused over any files: the first refusal among comparisons whose field is to be found in them. */
  lemma HistoryRefusesOver(lib: Lib, fold: string -> string, files: seq<File>, node: Node)
    ensures ErrorOf(Compile(lib, ResolveIn(TableOf(fold, files)), node, 0)) == RefusedInHistory(lib, ResolveIn(TableOf(fold, files)), node)
    ensures Compile(lib, ResolveIn(TableOf(fold, files)), node, 0).Err? ==> Refused(lib, node).Some?
  {
    forall field | Resolve(TableOf(fold, files), field).Resolved?
      ensures var kind := Resolve(TableOf(fold, files), field).kind;
              (kind == FieldSeverity <==> IsSeverityField(field)) && (kind == FieldTimestamp <==> IsTimestampField(field))
    {
      KindsOfKeys(fold, files, field);
    }
    HistoryRefuses(lib, ResolveIn(TableOf(fold, files)), node, 0);
    RefusalsAgree(lib, ResolveIn(TableOf(fold, files)), node);
  }

  /** A bad pattern over a field no file has: the tail refuses it, history answers no. */
  lemma BadPatternGoesUnseen(lib: Lib, fold: string -> string, literal: Literal)
    requires literal.kind == KindString && !lib.regexp(literal.str)
    ensures var query := Comparison("nope", Matches, literal);
            Refused(lib, query) == Some(BadPattern) && Compile(lib, ResolveIn(TableOf(fold, [])), query, 0) == Ok(Compiled(Constant(false), []))
  {
    assert !HasName(fold, Columns([]), "nope");
    UnresolvedIff(fold, [], "nope");
  }

  /** A number or a boolean of a key with no name of its own is read as text: the two agree exactly where text answers alike. */
  lemma RawReadAgreesIff(lib: Lib, fold: string -> string, files: seq<File>, f: File, rec: Record, key: string, op: Op, literal: Literal)
    requires FoldOk(lib) && f in files && NamesGiven(Columns(files)) && Prefixed(Columns(files)) && KeysOnce(files)
    requires KeyOk(lib, fold, files, f, rec, key) && !HasName(fold, Columns(files), key) && HoldsKey(rec, key)
    requires Compile(lib, ResolveIn(TableOf(fold, files)), Comparison(key, op, literal), 0).Ok?
    ensures var c := Compile(lib, ResolveIn(TableOf(fold, files)), Comparison(key, op, literal), 0).value;
            (Eval(lib, c.expr, RowOf(lib, fold, f, rec), c.args) == Truth(true) <==> Accepts(lib, Comparison(key, op, literal), rec)) <==>
            TextAnswersAlike(lib, rec.fields[key], op, literal)
  {
    var c := Compile(lib, ResolveIn(TableOf(fold, files)), Comparison(key, op, literal), 0).value;
    KeyReads(lib, fold, files, f, rec, key);
    LookupKey(lib, rec, key);
    assert c.args[0..|c.args|] == c.args;
    AsTextAgreesIff(lib, ResolveIn(TableOf(fold, files)), key, op, literal, rec, RowOf(lib, fold, f, rec), 0, c.args);
  }

  /** Two keys whose column names differ in case, in two files without raw: a record is stored, and history cannot find it. */
  lemma SharedKeyIsLost(lib: Lib, fold: string -> string, c: Column, d: Column, rec: Record, text: string)
    requires c.key != d.key && fold(c.name) == fold(d.name) && c.name != "" && d.name != "" && c.kind == "string"
    requires c.key !in EnvelopeColumns && Undotted(c.key) && c.key in rec.fields && rec.fields[c.key] == Str(text)
    ensures var f, g := File(false, [c]), File(false, [d]);
            var query := Comparison(c.key, Equals, Literal(KindString, text, Finite(0.0), false, false));
            && OwnCell(lib, f, rec, c.key) == Word(text) && Accepts(lib, query, rec)
            && Compile(lib, ResolveIn(TableOf(fold, [f, g])), query, 0) == Ok(Compiled(Constant(false), []))
  {
    var f, g := File(false, [c]), File(false, [d]);
    SharedResolves(fold, c, d);
    TailFinds(lib, rec, c.key, text);
    OneCell(lib, f, rec, c);
    NothingCompiled(lib, ResolveIn(TableOf(fold, [f, g])), Comparison(c.key, Equals, Literal(KindString, text, Finite(0.0), false, false)));
  }

  lemma SharedResolves(fold: string -> string, c: Column, d: Column)
    requires c.key != d.key && fold(c.name) == fold(d.name) && c.name != "" && d.name != ""
    requires c.key !in EnvelopeColumns && Undotted(c.key)
    ensures Resolve(TableOf(fold, [File(false, [c]), File(false, [d])]), c.key).Unresolved?
  {
    var f, g := File(false, [c]), File(false, [d]);
    TwoFiles(f, g);
    TwoMeet(fold, c, d);
    UnresolvedIff(fold, [f, g], c.key);
  }

  lemma OneCell(lib: Lib, f: File, rec: Record, c: Column)
    requires f.columns == [c] && c.key in rec.fields
    ensures OwnCell(lib, f, rec, c.key) == Stored(lib, rec.fields[c.key], c.kind)
  {
  }

  lemma NothingCompiled(lib: Lib, resolve: string -> Resolution, query: Node)
    requires query.Comparison? && resolve(query.field).Unresolved?
    ensures Compile(lib, resolve, query, 0) == Ok(Compiled(Constant(false), []))
  {
  }

  lemma TwoFiles(f: File, g: File)
    requires !f.hasRaw && !g.hasRaw
    ensures Columns([f, g]) == f.columns + g.columns && WithRaw([f, g]) == 0
  {
    assert [f, g][..1] == [f] && [f][..0] == [];
    assert Columns([f]) == Columns([]) + f.columns && WithRaw([f]) == 0;
  }

  lemma TwoMeet(fold: string -> string, c: Column, d: Column)
    requires c.key != d.key && fold(c.name) == fold(d.name) && c.name != "" && d.name != ""
    ensures Meets(fold, [c] + [d], c.key) && NamesGiven([c] + [d])
  {
    var cols := [c] + [d];
    assert cols[0] == c && cols[1] == d;
  }

  lemma TailFinds(lib: Lib, rec: Record, key: string, text: string)
    requires key !in EnvelopeColumns && Undotted(key) && key in rec.fields && rec.fields[key] == Str(text)
    ensures Accepts(lib, Comparison(key, Equals, Literal(KindString, text, Finite(0.0), false, false)), rec)
  {
    LookupKey(lib, rec, key);
  }
}
