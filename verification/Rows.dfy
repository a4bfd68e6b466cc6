/** Records written as rows of a file and read back: nothing is lost that the schema keeps, and a second time changes nothing. */
module Rows {
  import opened Prelude
  import opened Rql
  import opened Sql
  import opened Schema
  import Resolver

  /** One row by column name; a cell that is null is not there. */
  type Cells = map<string, Val>

  // ---- writing ----

  function Same(name: string): string {
    name
  }

  /** What a column of the envelope holds, as a query reads it from a file with no others. */
  function EnvelopeCell(lib: Lib, rec: Record, keepRaw: bool, name: string): Val {
    Resolver.ColumnOf(lib, Same, Resolver.File.File(keepRaw, []), rec, name)
  }

  function EnvelopeOf(lib: Lib, rec: Record, keepRaw: bool): Cells {
    map name | name in EnvelopeNames && EnvelopeCell(lib, rec, keepRaw, name) != Val.Null :: EnvelopeCell(lib, rec, keepRaw, name)
  }

  predicate Stores(lib: Lib, rec: Record, c: Column) {
    c.key in rec.fields && Resolver.Stored(lib, rec.fields[c.key], c.kind) != Val.Null
  }

  function RowOf(lib: Lib, cols: seq<Column>, rec: Record, keepRaw: bool): Cells {
    if cols == [] then EnvelopeOf(lib, rec, keepRaw)
    else
      var c, row := cols[|cols| - 1], RowOf(lib, cols[..|cols| - 1], rec, keepRaw);
      if Stores(lib, rec, c) then row[c.name := Resolver.Stored(lib, rec.fields[c.key], c.kind)] else row
  }

  predicate HasValue(rec: Record, key: string) {
    key in rec.fields && !rec.fields[key].NullValue?
  }

  /** The records with nothing to put in a column. */
  function Lacking(recs: seq<Record>, key: string): nat {
    if recs == [] then 0
    else Lacking(recs[..|recs| - 1], key) + if HasValue(recs[|recs| - 1], key) then 0 else 1
  }

  datatype Written = Refused | Written(cols: seq<Column>, dropped: nat, rows: seq<Cells>, nulls: seq<nat>)

  /** Writes one record's row, and counts the columns it leaves null. */
  method WriteRow(lib: Lib, cols: seq<Column>, rec: Record, keepRaw: bool, nulls0: seq<nat>) returns (row: Cells, nulls: seq<nat>)
    requires |nulls0| == |cols|
    ensures row == RowOf(lib, cols, rec, keepRaw)
    ensures |nulls| == |cols| && forall j :: 0 <= j < |cols| ==> nulls[j] == nulls0[j] + if Stores(lib, rec, cols[j]) then 0 else 1
  {
    row, nulls := EnvelopeOf(lib, rec, keepRaw), nulls0;
    for j := 0 to |cols|
      invariant row == RowOf(lib, cols[..j], rec, keepRaw) && |nulls| == |cols|
      invariant forall k :: 0 <= k < |cols| ==> nulls[k] == nulls0[k] + if k < j && !Stores(lib, rec, cols[k]) then 1 else 0
    {
      var c := cols[j];
      assert cols[..j + 1][..j] == cols[..j];
      if c.key !in rec.fields || rec.fields[c.key].NullValue? {
        nulls := nulls[j := nulls[j] + 1];
      } else {
        var value := Resolver.Stored(lib, rec.fields[c.key], c.kind);
        if value == Val.Null {
          nulls := nulls[j := nulls[j] + 1];
        } else {
          row := row[c.name := value];
        }
      }
    }
    assert cols[..|cols|] == cols;
  }

  /** The records that end up with nothing in a column. */
  function NotHeld(lib: Lib, recs: seq<Record>, c: Column): nat {
    if recs == [] then 0
    else NotHeld(lib, recs[..|recs| - 1], c) + if Stores(lib, recs[|recs| - 1], c) then 0 else 1
  }

  method WriteRows(lib: Lib, recs: seq<Record>, cols: seq<Column>, keepRaw: bool) returns (rows: seq<Cells>, nulls: seq<nat>)
    ensures |rows| == |recs| && forall i :: 0 <= i < |recs| ==> rows[i] == RowOf(lib, cols, recs[i], keepRaw)
    ensures |nulls| == |cols| && forall j :: 0 <= j < |cols| ==> nulls[j] == NotHeld(lib, recs, cols[j])
  {
    rows, nulls := [], seq(|cols|, i => 0);
    for i := 0 to |recs|
      invariant |rows| == i && forall k :: 0 <= k < i ==> rows[k] == RowOf(lib, cols, recs[k], keepRaw)
      invariant |nulls| == |cols| && forall j :: 0 <= j < |cols| ==> nulls[j] == NotHeld(lib, recs[..i], cols[j])
    {
      var row, more := WriteRow(lib, cols, recs[i], keepRaw, nulls);
      assert recs[..i + 1][..i] == recs[..i];
      rows, nulls := rows + [row], more;
    }
    assert recs[..|recs|] == recs;
  }

  /**
   * Writes a batch under its own schema. A column's null count is exact: the records that have no value
   * for its key, and none whose value was too wide for it.
   */
  method Write(lib: Lib, recs: seq<Record>, keepRaw: bool) returns (file: Written)
    ensures file.Refused? <==> recs == []
    ensures file.Written? ==>
              && IsSchema(recs, file.cols, file.dropped)
              && |file.rows| == |recs| && (forall i :: 0 <= i < |recs| ==> file.rows[i] == RowOf(lib, file.cols, recs[i], keepRaw))
              && |file.nulls| == |file.cols| && forall j :: 0 <= j < |file.cols| ==> file.nulls[j] == Lacking(recs, file.cols[j].key)
  {
    if recs == [] {
      return Refused;
    }
    var cols, dropped := BuildSchema(recs);
    var rows, nulls := WriteRows(lib, recs, cols, keepRaw);
    forall j | 0 <= j < |cols| ensures nulls[j] == Lacking(recs, cols[j].key) {
      NoneLeftOut(lib, recs, cols, dropped, cols[j]);
      NullsAreExact(lib, recs, cols[j]);
    }
    file := Written.Written(cols, dropped, rows, nulls);
  }

  /** No value of a key kept is left out of its column. */
  lemma NoneLeftOut(lib: Lib, recs: seq<Record>, cols: seq<Column>, dropped: nat, c: Column)
    requires IsSchema(recs, cols, dropped) && c in cols
    ensures forall i :: 0 <= i < |recs| ==> (Stores(lib, recs[i], c) <==> HasValue(recs[i], c.key))
  {
    forall i | 0 <= i < |recs| && HasValue(recs[i], c.key) ensures Stores(lib, recs[i], c) {
      ValuesFit(lib, recs, cols, dropped, i, c);
    }
  }

  lemma {:induction false} NullsAreExact(lib: Lib, recs: seq<Record>, c: Column)
    requires forall i :: 0 <= i < |recs| ==> (Stores(lib, recs[i], c) <==> HasValue(recs[i], c.key))
    ensures NotHeld(lib, recs, c) == Lacking(recs, c.key)
  {
    if recs != [] {
      NullsAreExact(lib, recs[..|recs| - 1], c);
    }
  }

  // ---- reading ----

  datatype Reader = Reader(looksNested: string -> bool, document: string -> bool)

  /** A value out of a cell: text is what its column was declared to hold, or a guess if that is neither text nor a document. */
  function Decode(rd: Reader, v: Val, kind: string): Value {
    match v
    case Truth(b) => Boolean(b)
    case Whole(i) => Int(i)
    case Moment(at) => Int(at)
    case Real(f) => Number(f)
    case Word(w) =>
      if kind == "string" then Str(w) else if kind == "json" then Json(w) else if rd.looksNested(w) then Json(w) else Str(w)
    case Null => NullValue
  }

  function FieldsOf(rd: Reader, cols: seq<Column>, row: Cells): map<string, Value> {
    if cols == [] then map[]
    else
      var c, fields := cols[|cols| - 1], FieldsOf(rd, cols[..|cols| - 1], row);
      if c.name in row then fields[c.key := Decode(rd, row[c.name], c.kind)] else fields
  }

  function TextAt(row: Cells, name: string): string {
    if name in row && row[name].Word? then row[name].w else ""
  }

  function TimeAt(row: Cells, name: string): int {
    if name in row && row[name].Moment? then row[name].at else 0
  }

  /** A record is an object again only if its line is there and still is one. */
  function ReadRow(rd: Reader, cols: seq<Column>, row: Cells): Record {
    var raw := TextAt(row, "raw");
    Record(
      TimeAt(row, "ts"), TimeAt(row, "ingest_ts"), if "seq" in row && row["seq"].Whole? then row["seq"].i else 0,
      TextAt(row, "stream"), TextAt(row, "level"), TextAt(row, "msg"), TextAt(row, "host"), raw,
      "is_json" in row && row["is_json"] == Truth(true) && raw != "" && rd.document(raw),
      FieldsOf(rd, cols, row))
  }

  function Rewritten(lib: Lib, rd: Reader, cols: seq<Column>, rec: Record, keepRaw: bool): Record {
    ReadRow(rd, cols, RowOf(lib, cols, rec, keepRaw))
  }

  // ---- what comes back ----

  lemma NotOfEnvelope(name: string)
    requires FieldPrefix <= name
    ensures name !in EnvelopeNames
  {
    assert name[1] == '_';
  }

  lemma ApartPrefix(cols: seq<Column>)
    requires Apart(cols) && cols != []
    ensures Apart(cols[..|cols| - 1])
  {
  }

  /** The cells of the envelope are as they would be without columns. */
  lemma {:induction false} EnvelopeStays(lib: Lib, cols: seq<Column>, rec: Record, keepRaw: bool, name: string)
    requires Apart(cols) && name in EnvelopeNames
    ensures var row, v := RowOf(lib, cols, rec, keepRaw), EnvelopeCell(lib, rec, keepRaw, name);
            (name in row <==> v != Val.Null) && (name in row ==> row[name] == v)
    decreases |cols|
  {
    if cols != [] {
      ApartPrefix(cols);
      EnvelopeStays(lib, cols[..|cols| - 1], rec, keepRaw, name);
      NotOfEnvelope(cols[|cols| - 1].name);
    }
  }

  lemma {:induction false} NoOtherCell(lib: Lib, cols: seq<Column>, rec: Record, keepRaw: bool, name: string)
    requires name !in EnvelopeNames && forall i :: 0 <= i < |cols| ==> cols[i].name != name
    ensures name !in RowOf(lib, cols, rec, keepRaw)
    decreases |cols|
  {
    if cols != [] {
      NoOtherCell(lib, cols[..|cols| - 1], rec, keepRaw, name);
    }
  }

  lemma {:induction false} CellIs(lib: Lib, cols: seq<Column>, rec: Record, keepRaw: bool, i: nat)
    requires Apart(cols) && i < |cols|
    ensures var row, c := RowOf(lib, cols, rec, keepRaw), cols[i];
            (c.name in row <==> Stores(lib, rec, c)) && (Stores(lib, rec, c) ==> row[c.name] == Resolver.Stored(lib, rec.fields[c.key], c.kind))
    decreases |cols|
  {
    var n := |cols| - 1;
    ApartPrefix(cols);
    assert Folded(cols[i].name) != Folded(cols[n].name) || i == n;
    if i < n {
      CellIs(lib, cols[..n], rec, keepRaw, i);
    } else {
      NotOfEnvelope(cols[n].name);
      NoOtherCell(lib, cols[..n], rec, keepRaw, cols[n].name);
    }
  }

  lemma {:induction false} FieldIs(rd: Reader, cols: seq<Column>, row: Cells, i: nat)
    requires Apart(cols) && i < |cols|
    ensures var fields, c := FieldsOf(rd, cols, row), cols[i];
            (c.key in fields <==> c.name in row) && (c.name in row ==> fields[c.key] == Decode(rd, row[c.name], c.kind))
    decreases |cols|
  {
    var n := |cols| - 1;
    ApartPrefix(cols);
    if i < n {
      FieldIs(rd, cols[..n], row, i);
    } else {
      NoOtherField(rd, cols[..n], row, cols[n].key);
    }
  }

  lemma {:induction false} NoOtherField(rd: Reader, cols: seq<Column>, row: Cells, key: string)
    requires forall i :: 0 <= i < |cols| ==> cols[i].key != key
    ensures key !in FieldsOf(rd, cols, row)
    decreases |cols|
  {
    if cols != [] {
      NoOtherField(rd, cols[..|cols| - 1], row, key);
    }
  }

  /** The value a record comes back with for a key that has a column. */
  lemma FieldComesBack(lib: Lib, rd: Reader, cols: seq<Column>, rec: Record, keepRaw: bool, i: nat)
    requires Apart(cols) && i < |cols|
    ensures var fields, c := Rewritten(lib, rd, cols, rec, keepRaw).fields, cols[i];
            && (c.key in fields <==> Stores(lib, rec, c))
            && (Stores(lib, rec, c) ==> fields[c.key] == Decode(rd, Resolver.Stored(lib, rec.fields[c.key], c.kind), c.kind))
  {
    CellIs(lib, cols, rec, keepRaw, i);
    FieldIs(rd, cols, RowOf(lib, cols, rec, keepRaw), i);
  }

  /** What a value in a column of some kind comes back as. */
  function Returned(lib: Lib, v: Value, kind: string): Value {
    if kind == "float" && v.Int? then Number(lib.widen(v.i))
    else if kind == KindName(v) then v
    else Str(TextOf(lib, v))
  }

  lemma DecodesAs(lib: Lib, rd: Reader, v: Value, kind: string)
    requires !v.NullValue? && Resolver.Stored(lib, v, kind) != Val.Null && (kind == "json" ==> v.Json?)
    requires kind in {"boolean", "int", "float", "string", "json"}
    ensures Decode(rd, Resolver.Stored(lib, v, kind), kind) == Returned(lib, v, kind)
    ensures KindName(Returned(lib, v, kind)) == kind
  {
  }

  /**
   * A record comes back with every key the schema kept, each value as it was but for integers
   * among floats and keys of mixed kinds, and with nothing else.
   */
  lemma FieldsComeBack(lib: Lib, rd: Reader, recs: seq<Record>, cols: seq<Column>, dropped: nat, keepRaw: bool, i: nat, key: string)
    requires IsSchema(recs, cols, dropped) && i < |recs|
    ensures var fields, back := recs[i].fields, Rewritten(lib, rd, cols, recs[i], keepRaw).fields;
            && (key in back <==> key in fields && !fields[key].NullValue? && exists c :: c in cols && c.key == key)
            && (key in back ==> exists c :: c in cols && c.key == key && back[key] == Returned(lib, fields[key], c.kind) && KindName(back[key]) == c.kind
                                            && (!c.polymorphic && KindName(fields[key]) == c.kind ==> back[key] == fields[key]))
  {
    var fields, back := recs[i].fields, Rewritten(lib, rd, cols, recs[i], keepRaw).fields;
    ColumnsAreApart(recs, cols, dropped);
    if j :| 0 <= j < |cols| && cols[j].key == key {
      var c := cols[j];
      assert c in cols;
      FieldComesBack(lib, rd, cols, recs[i], keepRaw, j);
      if key in fields && !fields[key].NullValue? {
        ValuesFit(lib, recs, cols, dropped, i, c);
        WidthIsKind(lib, recs, cols, dropped, i, c);
        DecodesAs(lib, rd, fields[key], c.kind);
      }
    } else {
      NoOtherField(rd, cols, RowOf(lib, cols, recs[i], keepRaw), key);
      assert forall c :: c in cols ==> c.key != key;
    }
  }

  lemma WidthIsKind(lib: Lib, recs: seq<Record>, cols: seq<Column>, dropped: nat, i: nat, c: Column)
    requires IsSchema(recs, cols, dropped) && c in cols && i < |recs| && c.key in recs[i].fields && !recs[i].fields[c.key].NullValue?
    ensures c.kind in {"boolean", "int", "float", "string", "json"} && (c.kind == "json" ==> recs[i].fields[c.key].Json?)
  {
    var v := recs[i].fields[c.key];
    ColumnsAsSeen(recs, cols, dropped, c);
    InSeen(recs, i, c.key);
    KindNames(v);
    JsonIsOnlyJson(Tally(recs, c.key), KindName(v));
  }

  lemma KindNames(v: Value)
    ensures (KindName(v) == NullKind <==> v.NullValue?) && (KindName(v) == "json" <==> v.Json?)
  {
  }

  lemma JsonIsOnlyJson(k: KindSet, kind: string)
    requires Widest(k).Some? && kind in k.seen && kind != NullKind
    ensures Widest(k).value.kind in {"boolean", "int", "float", "string", "json"} && (Widest(k).value.kind == "json" ==> kind == "json")
  {
    var kinds := k.seen - {NullKind};
    assert kind in kinds;
    if Only(kinds).Some? {
      OnlyIs(kinds, kind);
    }
  }

  // ---- a second time ----

  lemma TextComesBack(lib: Lib, cols: seq<Column>, rec: Record, keepRaw: bool, name: string)
    requires Apart(cols) && name in {"stream", "level", "msg", "host", "raw"}
    ensures var v := EnvelopeCell(lib, rec, keepRaw, name);
            TextAt(RowOf(lib, cols, rec, keepRaw), name) == if v.Word? then v.w else ""
  {
    EnvelopeStays(lib, cols, rec, keepRaw, name);
  }

  lemma EnvelopeText(lib: Lib, rec: Record, keepRaw: bool)
    ensures EnvelopeCell(lib, rec, keepRaw, "stream") == Word(rec.stream)
    ensures EnvelopeCell(lib, rec, keepRaw, "level") == Resolver.Optional(rec.level)
    ensures EnvelopeCell(lib, rec, keepRaw, "msg") == Resolver.Optional(rec.msg)
    ensures EnvelopeCell(lib, rec, keepRaw, "host") == Resolver.Optional(rec.host)
    ensures EnvelopeCell(lib, rec, keepRaw, "raw") == if keepRaw then Resolver.Optional(rec.raw) else Val.Null
  {
  }

  lemma NumbersComeBack(lib: Lib, cols: seq<Column>, rec: Record, keepRaw: bool)
    requires Apart(cols)
    ensures var row := RowOf(lib, cols, rec, keepRaw);
            && TimeAt(row, "ts") == rec.ts && TimeAt(row, "ingest_ts") == rec.ingestTs
            && "seq" in row && row["seq"] == Whole(rec.seqno) && "is_json" in row && row["is_json"] == Truth(rec.isObject)
  {
    EnvelopeStays(lib, cols, rec, keepRaw, "ts");
    EnvelopeStays(lib, cols, rec, keepRaw, "ingest_ts");
    EnvelopeStays(lib, cols, rec, keepRaw, "seq");
    EnvelopeStays(lib, cols, rec, keepRaw, "is_json");
  }

  /** The envelope comes back as it was, but that a line not kept is no longer a document. */
  lemma EnvelopeComesBack(lib: Lib, rd: Reader, cols: seq<Column>, rec: Record, keepRaw: bool)
    requires Apart(cols)
    ensures var back := Rewritten(lib, rd, cols, rec, keepRaw);
            && back.ts == rec.ts && back.ingestTs == rec.ingestTs && back.seqno == rec.seqno && back.stream == rec.stream
            && back.level == rec.level && back.msg == rec.msg && back.host == rec.host
            && back.raw == (if keepRaw then rec.raw else "")
            && back.isObject == (rec.isObject && back.raw != "" && rd.document(back.raw))
  {
    EnvelopeText(lib, rec, keepRaw);
    TextComesBack(lib, cols, rec, keepRaw, "stream");
    TextComesBack(lib, cols, rec, keepRaw, "level");
    TextComesBack(lib, cols, rec, keepRaw, "msg");
    TextComesBack(lib, cols, rec, keepRaw, "host");
    TextComesBack(lib, cols, rec, keepRaw, "raw");
    NumbersComeBack(lib, cols, rec, keepRaw);
  }

  function AllRewritten(lib: Lib, rd: Reader, cols: seq<Column>, recs: seq<Record>, keepRaw: bool): seq<Record> {
    seq(|recs|, i requires 0 <= i < |recs| => Rewritten(lib, rd, cols, recs[i], keepRaw))
  }

  /** Every value read back is of its column's kind. */
  lemma OneKindEach(lib: Lib, rd: Reader, recs: seq<Record>, cols: seq<Column>, dropped: nat, keepRaw: bool, key: string, kind: string)
    requires IsSchema(recs, cols, dropped)
    requires kind in Tally(AllRewritten(lib, rd, cols, recs, keepRaw), key).seen
    ensures exists c :: c in cols && c.key == key && c.kind == kind && kind != NullKind
  {
    var again := AllRewritten(lib, rd, cols, recs, keepRaw);
    TallySays(again, key);
    var i :| 0 <= i < |again| && ShowsKindAt(again[i], key, kind);
    FieldsComeBack(lib, rd, recs, cols, dropped, keepRaw, i, key);
    var c :| c in cols && c.key == key && KindName(again[i].fields[key]) == c.kind;
    WidthIsKind(lib, recs, cols, dropped, i, c);
  }

  lemma {:induction false} FewKeys(cols: seq<Column>) returns (keys: set<string>)
    ensures |keys| <= |cols| && forall c <- cols :: c.key in keys
    decreases |cols|
  {
    if cols == [] {
      keys := {};
    } else {
      keys := FewKeys(cols[..|cols| - 1]);
      keys := keys + {cols[|cols| - 1].key};
    }
  }

  lemma {:induction false} AsManyKeys(ranked: seq<Candidate>, keys: set<string>)
    requires (forall i, j :: 0 <= i < j < |ranked| ==> ranked[i].key != ranked[j].key) && forall r <- ranked :: r.key in keys
    ensures |ranked| <= |keys|
    decreases |ranked|
  {
    if ranked != [] {
      var front, key := ranked[..|ranked| - 1], ranked[|ranked| - 1].key;
      assert ranked[|ranked| - 1] in ranked;
      forall r | r in front ensures r.key in keys - {key} { }
      AsManyKeys(front, keys - {key});
    }
  }

  /** Every key with a value has a column here. */
  ghost predicate Covered(recs: seq<Record>, cols: seq<Column>) {
    forall key :: Tally(recs, key).count > 0 ==> exists c :: c in cols && c.key == key
  }

  /** The keys read back are no more than there were columns, so none is left out a second time. */
  lemma RoomForAll(recs: seq<Record>, ranked: seq<Candidate>, cols: seq<Column>)
    requires IsRanking(recs, ranked) && |cols| <= MaxColumns
    requires Covered(recs, cols)
    ensures Kept(ranked) == ranked
  {
    forall i, j | 0 <= i < j < |ranked| ensures ranked[i].key != ranked[j].key { KeysDiffer(recs, ranked, i, j); }
    var keys := FewKeys(cols);
    forall r | r in ranked ensures r.key in keys {
      assert CandidateOf(recs, r.key) == Some(r);
      assert Tally(recs, r.key).count > 0;
      var c :| c in cols && c.key == r.key;
    }
    AsManyKeys(ranked, keys);
  }

  /** Where there is room, every key with a value has a column, of its one kind if it has only one. */
  lemma HasColumn(recs: seq<Record>, before: seq<Column>, cols: seq<Column>, dropped: nat, key: string, kind: string) returns (c: Column)
    requires IsSchema(recs, cols, dropped) && |before| <= MaxColumns
    requires Covered(recs, before)
    requires Tally(recs, key).seen == {kind} && kind != NullKind
    ensures dropped == 0 && c in cols && c.key == key && c.kind == kind && !c.polymorphic
  {
    var ranked, named :| Derived(recs, ranked, named, cols, dropped);
    RoomForAll(recs, ranked, before);
    TallySays(recs, key);
    assert kind in Tally(recs, key).seen;
    var only := Tally(recs, key).seen - {NullKind};
    assert only == {kind};
    OnlyOne(only, kind);
    var candidate := Candidate(key, Width(kind, false), Tally(recs, key).count);
    assert CandidateOf(recs, key) == Some(candidate);
    assert candidate in ranked;
    var i :| 0 <= i < |ranked| && ranked[i] == candidate;
    NameIsFree(ranked, named, i);
    c := named[i];
    assert c in named;
  }

  lemma OnlyOne(kinds: set<string>, kind: string)
    requires kinds == {kind} && kind in {"null", "boolean", "int", "float", "string", "json"} && kind != NullKind
    ensures Only(kinds) == Some(kind)
  {
    assert kind in kinds;
  }

  /** What was read back shows each key with the one kind of its column. */
  lemma ReadBackIsUniform(lib: Lib, rd: Reader, recs: seq<Record>, cols: seq<Column>, dropped: nat, keepRaw: bool, key: string)
    requires IsSchema(recs, cols, dropped)
    ensures var tally := Tally(AllRewritten(lib, rd, cols, recs, keepRaw), key);
            && (tally.count > 0 ==> exists c :: c in cols && c.key == key)
            && (tally.seen != {} ==> exists kind :: tally.seen == {kind} && kind != NullKind)
  {
    var again := AllRewritten(lib, rd, cols, recs, keepRaw);
    var seen := Tally(again, key).seen;
    TallySays(again, key);
    ColumnsAreApart(recs, cols, dropped);
    if kind :| kind in seen {
      OneKindEach(lib, rd, recs, cols, dropped, keepRaw, key, kind);
      forall other | other in seen ensures other == kind {
        OneKindEach(lib, rd, recs, cols, dropped, keepRaw, key, other);
      }
      assert seen == {kind};
    }
  }

  /** Writing what was read back and reading it again changes no record, and leaves no key out. */
  lemma SecondTimeIsSame(lib: Lib, rd: Reader, recs: seq<Record>, cols: seq<Column>, dropped: nat, keepRaw: bool, cols2: seq<Column>, dropped2: nat, i: nat)
    requires IsSchema(recs, cols, dropped) && i < |recs|
    requires IsSchema(AllRewritten(lib, rd, cols, recs, keepRaw), cols2, dropped2)
    ensures var again := AllRewritten(lib, rd, cols, recs, keepRaw);
            Rewritten(lib, rd, cols2, again[i], keepRaw) == again[i] && (again[i].fields != map[] ==> dropped2 == 0)
  {
    var again := AllRewritten(lib, rd, cols, recs, keepRaw);
    var rec, back := again[i], Rewritten(lib, rd, cols2, again[i], keepRaw);
    ColumnsAreApart(recs, cols, dropped);
    ColumnsAreApart(again, cols2, dropped2);
    EnvelopeComesBack(lib, rd, cols, recs[i], keepRaw);
    EnvelopeComesBack(lib, rd, cols2, rec, keepRaw);
    forall key | key in rec.fields ensures key in back.fields && back.fields[key] == rec.fields[key] && dropped2 == 0 {
      var c := SecondColumn(lib, rd, recs, cols, dropped, keepRaw, cols2, dropped2, i, key);
      FieldStays(lib, rd, cols2, rec, keepRaw, c);
    }
    forall key | key !in rec.fields ensures key !in back.fields {
      NoNewField(lib, rd, cols2, rec, keepRaw, key);
    }
    assert back.fields == rec.fields;
    if rec.fields != map[] {
      var key :| key in rec.fields;
    }
  }

  /** A value of its column's own kind stays as it is. */
  lemma FieldStays(lib: Lib, rd: Reader, cols: seq<Column>, rec: Record, keepRaw: bool, c: Column)
    requires Apart(cols) && c in cols && c.key in rec.fields && c.kind == KindName(rec.fields[c.key]) && c.kind != NullKind
    ensures var back := Rewritten(lib, rd, cols, rec, keepRaw).fields; c.key in back && back[c.key] == rec.fields[c.key]
  {
    var i :| 0 <= i < |cols| && cols[i] == c;
    FieldComesBack(lib, rd, cols, rec, keepRaw, i);
    DecodesAs(lib, rd, rec.fields[c.key], c.kind);
  }

  lemma NoNewField(lib: Lib, rd: Reader, cols: seq<Column>, rec: Record, keepRaw: bool, key: string)
    requires Apart(cols) && key !in rec.fields
    ensures key !in Rewritten(lib, rd, cols, rec, keepRaw).fields
  {
    if i :| 0 <= i < |cols| && cols[i].key == key {
      FieldComesBack(lib, rd, cols, rec, keepRaw, i);
    } else {
      NoOtherField(rd, cols, RowOf(lib, cols, rec, keepRaw), key);
    }
  }

  lemma ReadBackIsCovered(lib: Lib, rd: Reader, recs: seq<Record>, cols: seq<Column>, dropped: nat, keepRaw: bool)
    requires IsSchema(recs, cols, dropped)
    ensures Covered(AllRewritten(lib, rd, cols, recs, keepRaw), cols)
  {
    forall key | Tally(AllRewritten(lib, rd, cols, recs, keepRaw), key).count > 0 ensures exists c :: c in cols && c.key == key {
      ReadBackIsUniform(lib, rd, recs, cols, dropped, keepRaw, key);
    }
  }

  lemma ReadBackKind(lib: Lib, rd: Reader, recs: seq<Record>, cols: seq<Column>, dropped: nat, keepRaw: bool, i: nat, key: string)
    requires IsSchema(recs, cols, dropped) && i < |recs| && key in AllRewritten(lib, rd, cols, recs, keepRaw)[i].fields
    ensures var again := AllRewritten(lib, rd, cols, recs, keepRaw);
            var kind := KindName(again[i].fields[key]);
            Tally(again, key).seen == {kind} && kind != NullKind
  {
    InSeen(AllRewritten(lib, rd, cols, recs, keepRaw), i, key);
    ReadBackIsUniform(lib, rd, recs, cols, dropped, keepRaw, key);
  }

  lemma InSeen(recs: seq<Record>, i: nat, key: string)
    requires i < |recs| && key in recs[i].fields
    ensures KindName(recs[i].fields[key]) in Tally(recs, key).seen
  {
    TallySays(recs, key);
    assert ShowsKindAt(recs[i], key, KindName(recs[i].fields[key]));
  }

  /** The column a key read back has the second time. */
  lemma SecondColumn(lib: Lib, rd: Reader, recs: seq<Record>, cols: seq<Column>, dropped: nat, keepRaw: bool, cols2: seq<Column>, dropped2: nat, i: nat, key: string)
    returns (c: Column)
    requires IsSchema(recs, cols, dropped) && i < |recs|
    requires IsSchema(AllRewritten(lib, rd, cols, recs, keepRaw), cols2, dropped2)
    requires key in AllRewritten(lib, rd, cols, recs, keepRaw)[i].fields
    ensures dropped2 == 0 && c in cols2 && c.key == key && c.kind != NullKind
    ensures c.kind == KindName(AllRewritten(lib, rd, cols, recs, keepRaw)[i].fields[key])
  {
    ColumnsAreApart(recs, cols, dropped);
    ReadBackIsCovered(lib, rd, recs, cols, dropped, keepRaw);
    ReadBackKind(lib, rd, recs, cols, dropped, keepRaw, i, key);
    var again := AllRewritten(lib, rd, cols, recs, keepRaw);
    c := HasColumn(again, cols, cols2, dropped2, key, KindName(again[i].fields[key]));
  }

  // ---- queries over such files ----

  ghost predicate Suits(f: Resolver.File) {
    && (forall i :: 0 <= i < |f.columns| ==> FieldPrefix <= f.columns[i].name)
    && forall i, j :: 0 <= i < j < |f.columns| ==> f.columns[i].key != f.columns[j].key
  }

  lemma {:induction false} AllSuit(files: seq<Resolver.File>)
    requires forall i :: 0 <= i < |files| ==> Suits(files[i])
    ensures Resolver.NamesGiven(Resolver.Columns(files)) && Resolver.Prefixed(Resolver.Columns(files)) && Resolver.KeysOnce(files)
    decreases |files|
  {
    if files != [] {
      var n := |files| - 1;
      assert files == files[..n] + [files[n]];
      AllSuit(files[..n]);
    }
  }

  /** Files written under their batches' schemas meet what resolving a field asks of the columns it sees. */
  lemma FilesSuitResolving(batches: seq<seq<Record>>, files: seq<Resolver.File>, dropped: seq<nat>)
    requires |batches| == |files| == |dropped| && forall i :: 0 <= i < |files| ==> IsSchema(batches[i], files[i].columns, dropped[i])
    ensures Resolver.NamesGiven(Resolver.Columns(files)) && Resolver.Prefixed(Resolver.Columns(files)) && Resolver.KeysOnce(files)
  {
    forall i | 0 <= i < |files| ensures Suits(files[i]) { ColumnsAreApart(batches[i], files[i].columns, dropped[i]); }
    AllSuit(files);
  }

  /** And where a key stayed of one kind, its values are kept in a column fit for them. */
  lemma FilesKeepKeys(lib: Lib, recs: seq<Record>, f: Resolver.File, dropped: nat, i: nat, key: string)
    requires IsSchema(recs, f.columns, dropped) && i < |recs| && HasValue(recs[i], key)
    requires exists c :: c in f.columns && c.key == key && !c.polymorphic
    ensures var c := Resolver.ColumnFor(f.columns, key); c.Some? && Resolver.Fits(recs[i].fields[key], c.value.kind)
  {
    var c :| c in f.columns && c.key == key && !c.polymorphic;
    Resolver.ColumnForSays(f.columns, key);
    ColumnsAreApart(recs, f.columns, dropped);
    Resolver.OneColumn(f.columns, c, Resolver.ColumnFor(f.columns, key).value);
    ValuesFit(lib, recs, f.columns, dropped, i, c);
  }
}
