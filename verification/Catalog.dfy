/**
 * The catalog: which files exist, what each holds, and the counters kept beside them.
 *
 * Every operation is one transaction, so it is a function from catalog to catalog, and a
 * failed one leaves what it was given. Rows are keyed by path, which the schema declares
 * unique; ids are handed out once and never again.
 */
module Catalog {
  import opened Prelude

  /** streams/<dir>/<day>/L<level>-<first>-<micros>[-r<rewrite>].parquet; the day follows from micros. */
  datatype Path = Path(dir: string, level: nat, first: nat, micros: int, rewrite: Option<nat>)

  datatype Column = Column(name: string, key: string, kind: string, polymorphic: bool, nulls: nat)

  datatype File = File(
    path: Path, stream: string, level: nat, minTs: int, maxTs: int, minSeq: nat, maxSeq: nat,
    rows: nat, bytes: nat, hasRaw: bool, levelFloor: string, columns: seq<Column>)

  datatype State = Live | Tombstoned(at: int)

  datatype Row = Row(id: nat, file: File, state: State)

  datatype Rollup = Rollup(firstSeen: int, lastSeen: int, rows: nat, bytes: nat)

  datatype Key = Key(kind: string, polymorphic: bool, occurrences: int, firstSeen: int, lastSeen: int)

  datatype Cat = Cat(
    files: map<Path, Row>,
    streams: map<string, Rollup>,
    keys: map<(string, string), Key>,
    pending: map<Path, int>,
    maxSeq: nat,
    nextId: nat)

  const Empty := Cat(map[], map[], map[], map[], 0, 1)

  predicate LiveAt(files: map<Path, Row>, p: Path) {
    p in files && files[p].state.Live?
  }

  function Min(a: int, b: int): int {
    if a <= b then a else b
  }

  function Max(a: int, b: int): int {
    if a >= b then a else b
  }

  // ---- registering ----

  /** The key inventory after one column of a file; counted says whether its rows are new. */
  function AddKey(keys: map<(string, string), Key>, f: File, c: Column, counted: bool): map<(string, string), Key> {
    var at := (f.stream, c.key);
    var more := if counted then f.rows - c.nulls else 0;
    if at !in keys then keys[at := Key(c.kind, c.polymorphic, more, f.minTs, f.maxTs)]
    else
      var k := keys[at];
      keys[at := Key(
        if k.kind == c.kind then k.kind else "string",
        k.polymorphic || c.polymorphic || k.kind != c.kind,
        k.occurrences + more,
        k.firstSeen,
        Max(k.lastSeen, f.maxTs))]
  }

  function AddKeys(keys: map<(string, string), Key>, f: File, columns: seq<Column>, counted: bool): map<(string, string), Key> {
    if columns == [] then keys
    else AddKey(AddKeys(keys, f, columns[..|columns| - 1], counted), f, columns[|columns| - 1], counted)
  }

  function AddRollup(streams: map<string, Rollup>, f: File): map<string, Rollup> {
    if f.stream !in streams then streams[f.stream := Rollup(f.minTs, f.maxTs, f.rows, f.bytes)]
    else
      var r := streams[f.stream];
      streams[f.stream := Rollup(Min(r.firstSeen, f.minTs), Max(r.lastSeen, f.maxTs), r.rows + f.rows, r.bytes + f.bytes)]
  }

  /** Inserts a file, or finds it already there; either way it is no longer pending. */
  function Insert(c: Cat, f: File, counted: bool): (Cat, bool) {
    var d := c.(pending := c.pending - {f.path});
    if f.path in c.files then (d, true)
    else
      (d.(files := c.files[f.path := Row(c.nextId, f, Live)],
      nextId := c.nextId + 1,
      keys := AddKeys(c.keys, f, f.columns, counted),
      streams := AddRollup(c.streams, f),
      maxSeq := Max(c.maxSeq, f.maxSeq)), false)
  }

  function Register(c: Cat, f: File): (Cat, bool) {
    Insert(c, f, true)
  }

  // ---- retiring ----

  function TakeOff(r: Rollup, f: File): Rollup {
    r.(rows := Max(0, r.rows - f.rows), bytes := Max(0, r.bytes - f.bytes))
  }

  /** Tombstones a file that is still live and takes it off its stream's counters. */
  function RetireOne(c: Cat, p: Path, now: int): Cat {
    if !LiveAt(c.files, p) then c
    else
      var f := c.files[p].file;
      c.(files := c.files[p := c.files[p].(state := Tombstoned(now))],
      streams := if f.stream in c.streams then c.streams[f.stream := TakeOff(c.streams[f.stream], f)] else c.streams)
  }

  function Retire(c: Cat, paths: seq<Path>, now: int): Cat {
    if paths == [] then c else RetireOne(Retire(c, paths[..|paths| - 1], now), paths[|paths| - 1], now)
  }

  datatype Error = ErrRegistered(path: Path)

  function InsertAll(c: Cat, outputs: seq<File>): Result<Cat, Error> {
    if outputs == [] then Ok(c)
    else
      match InsertAll(c, outputs[..|outputs| - 1])
      case Err(e) => Err(e)
      case Ok(d) =>
        var f := outputs[|outputs| - 1];
        if Insert(d, f, false).1 then Err(ErrRegistered(f.path)) else Ok(Insert(d, f, false).0)
  }

  /** Publishes outputs and retires inputs, or fails and changes nothing. */
  function Replace(c: Cat, outputs: seq<File>, inputs: seq<Path>, now: int): Result<Cat, Error> {
    match InsertAll(c, outputs)
    case Err(e) => Err(e)
    case Ok(d) => Ok(Retire(d, inputs, now))
  }

  function Forget(c: Cat, p: Path): Cat {
    c.(files := c.files - {p})
  }

  // ---- declarations ----

  function Intend(c: Cat, paths: set<Path>, now: int): Cat {
    c.(pending := Declared(c.pending, c.files, paths, now))
  }

  function Declared(pending: map<Path, int>, files: map<Path, Row>, paths: set<Path>, now: int): map<Path, int> {
    pending + (map p | p in paths && p !in files :: now)
  }

  function Registered(c: Cat, paths: set<Path>): set<Path> {
    set p | p in paths && p in c.files
  }

  /** Settles one declaration; the flag says whether its object is to be deleted. */
  function Discard(c: Cat, p: Path, before: int): (Cat, bool) {
    if p !in c.pending || c.pending[p] >= before then (c, false)
    else (c.(pending := c.pending - {p}), p !in c.files)
  }

  function Collectable(c: Cat, before: int): set<Path> {
    set p | p in c.files && c.files[p].state.Tombstoned? && c.files[p].state.at <= before
  }

  function Abandoned(c: Cat, before: int): set<Path> {
    set p | p in c.pending && c.pending[p] < before
  }

  // ---- sums over the files ----

  datatype Counter = Rows | Bytes

  /** What a row adds to one of a stream's counters: nothing, once it is a tombstone. */
  function Weight(row: Row, stream: string, k: Counter): nat {
    if !row.state.Live? || row.file.stream != stream then 0 else if k.Rows? then row.file.rows else row.file.bytes
  }

  ghost function Total(files: map<Path, Row>, stream: string, k: Counter): nat
    decreases |files|
  {
    if files == map[] then 0
    else
      var p :| p in files;
      Weight(files[p], stream, k) + Total(files - {p}, stream, k)
  }

  lemma {:induction false} TotalSplit(files: map<Path, Row>, stream: string, k: Counter, p: Path)
    requires p in files
    ensures Total(files, stream, k) == Weight(files[p], stream, k) + Total(files - {p}, stream, k)
    decreases |files|
  {
    var q :| q in files && Total(files, stream, k) == Weight(files[q], stream, k) + Total(files - {q}, stream, k);
    if p != q {
      TotalSplit(files - {q}, stream, k, p);
      TotalSplit(files - {p}, stream, k, q);
      assert files - {p} - {q} == files - {q} - {p};
    }
  }

  lemma TotalPut(files: map<Path, Row>, stream: string, k: Counter, p: Path, row: Row)
    ensures Total(files[p := row], stream, k) + (if p in files then Weight(files[p], stream, k) else 0) ==
            Total(files, stream, k) + Weight(row, stream, k)
  {
    TotalSplit(files[p := row], stream, k, p);
    assert files[p := row] - {p} == files - {p};
    if p in files {
      TotalSplit(files, stream, k, p);
    } else {
      assert files - {p} == files;
    }
  }

  lemma {:induction false} NoFilesNoTotal(files: map<Path, Row>, stream: string, k: Counter)
    requires forall p :: p in files ==> files[p].file.stream != stream
    ensures Total(files, stream, k) == 0
    decreases |files|
  {
    if files != map[] {
      var p :| p in files;
      TotalSplit(files, stream, k, p);
      NoFilesNoTotal(files - {p}, stream, k);
    }
  }

  // ---- the invariant ----

  function Count(r: Rollup, k: Counter): nat {
    if k.Rows? then r.rows else r.bytes
  }

  ghost predicate CountsRight(files: map<Path, Row>, streams: map<string, Rollup>) {
    && (forall p :: p in files ==> files[p].file.stream in streams)
    && (forall s, k :: s in streams ==> Count(streams[s], k) == Total(files, s, k))
  }

  ghost predicate IdsRight(c: Cat) {
    && (forall p :: p in c.files ==> c.files[p].id < c.nextId)
    && (forall p, q :: p in c.files && q in c.files && c.files[p].id == c.files[q].id ==> p == q)
  }

  /** The counters are the sums over live files, ids are unique, no path is both declared and registered. */
  ghost predicate Inv(c: Cat) {
    && CountsRight(c.files, c.streams)
    && IdsRight(c)
    && c.pending.Keys !! c.files.Keys
    && (forall p :: p in c.files ==> c.files[p].file.path == p && c.files[p].file.maxSeq <= c.maxSeq)
  }

  lemma EmptyInv()
    ensures Inv(Empty)
  {
  }

  lemma AddedCounts(files: map<Path, Row>, streams: map<string, Rollup>, row: Row)
    requires CountsRight(files, streams) && row.file.path !in files && row.state.Live?
    ensures CountsRight(files[row.file.path := row], AddRollup(streams, row.file))
  {
    var f := row.file;
    var after := AddRollup(streams, f);
    forall s, k | s in after
      ensures Count(after[s], k) == Total(files[f.path := row], s, k)
    {
      TotalPut(files, s, k, f.path, row);
      if s !in streams {
        NoFilesNoTotal(files, s, k);
      }
    }
  }

  lemma InsertInv(c: Cat, f: File, counted: bool)
    requires Inv(c)
    ensures Inv(Insert(c, f, counted).0)
  {
    if f.path !in c.files {
      AddedCounts(c.files, c.streams, Row(c.nextId, f, Live));
    }
  }

  /** A live file's rows and bytes are in its stream's counters, so taking them off never meets the clamp at zero. */
  lemma ClampNeverFires(c: Cat, p: Path)
    requires Inv(c) && LiveAt(c.files, p)
    ensures var f := c.files[p].file;
            && f.stream in c.streams && f.rows <= c.streams[f.stream].rows && f.bytes <= c.streams[f.stream].bytes
            && TakeOff(c.streams[f.stream], f) ==
               c.streams[f.stream].(rows := c.streams[f.stream].rows - f.rows, bytes := c.streams[f.stream].bytes - f.bytes)
  {
    var s := c.files[p].file.stream;
    TotalSplit(c.files, s, Rows, p);
    TotalSplit(c.files, s, Bytes, p);
    assert Count(c.streams[s], Rows) == Total(c.files, s, Rows);
    assert Count(c.streams[s], Bytes) == Total(c.files, s, Bytes);
  }

  lemma RetireOneInv(c: Cat, p: Path, now: int)
    requires Inv(c)
    ensures Inv(RetireOne(c, p, now))
  {
    if LiveAt(c.files, p) {
      var d := RetireOne(c, p, now);
      ClampNeverFires(c, p);
      forall s, k | s in d.streams
        ensures Count(d.streams[s], k) == Total(d.files, s, k)
      {
        TotalPut(c.files, s, k, p, d.files[p]);
        assert Count(c.streams[s], k) == Total(c.files, s, k);
      }
    }
  }

  lemma {:induction false} RetireInv(c: Cat, paths: seq<Path>, now: int)
    requires Inv(c)
    ensures Inv(Retire(c, paths, now))
    decreases |paths|
  {
    if paths != [] {
      RetireInv(c, paths[..|paths| - 1], now);
      RetireOneInv(Retire(c, paths[..|paths| - 1], now), paths[|paths| - 1], now);
    }
  }

  /** What retiring does to the rows: exactly the live ones named become tombstones. */
  lemma {:induction false} RetireFiles(c: Cat, paths: seq<Path>, now: int)
    ensures var d := Retire(c, paths, now);
            && d == c.(files := d.files, streams := d.streams)
            && d.files.Keys == c.files.Keys
            && forall p :: p in c.files ==>
                 d.files[p] == if p in paths && LiveAt(c.files, p) then c.files[p].(state := Tombstoned(now)) else c.files[p]
    decreases |paths|
  {
    if paths != [] {
      var n := |paths| - 1;
      RetireFiles(c, paths[..n], now);
      assert paths == paths[..n] + [paths[n]];
    }
  }

  lemma {:induction false} InsertAllInv(c: Cat, outputs: seq<File>)
    requires Inv(c)
    ensures InsertAll(c, outputs).Ok? ==> Inv(InsertAll(c, outputs).value)
    decreases |outputs|
  {
    if outputs != [] {
      var n := |outputs| - 1;
      InsertAllInv(c, outputs[..n]);
      if InsertAll(c, outputs[..n]).Ok? {
        InsertInv(InsertAll(c, outputs[..n]).value, outputs[n], false);
      }
    }
  }

  lemma ReplaceInv(c: Cat, outputs: seq<File>, inputs: seq<Path>, now: int)
    requires Inv(c)
    ensures Replace(c, outputs, inputs, now).Ok? ==> Inv(Replace(c, outputs, inputs, now).value)
  {
    InsertAllInv(c, outputs);
    if InsertAll(c, outputs).Ok? {
      RetireInv(InsertAll(c, outputs).value, inputs, now);
    }
  }

  /** A row may be forgotten once it is a tombstone; a live one still counts. */
  lemma ForgetInv(c: Cat, p: Path)
    requires Inv(c) && !LiveAt(c.files, p)
    ensures Inv(Forget(c, p))
  {
    if p in c.files {
      forall s, k | s in c.streams
        ensures Count(c.streams[s], k) == Total(c.files - {p}, s, k)
      {
        TotalSplit(c.files, s, k, p);
        assert Count(c.streams[s], k) == Total(c.files, s, k);
      }
    } else {
      assert c.files - {p} == c.files;
    }
  }

  lemma IntendInv(c: Cat, paths: set<Path>, now: int)
    requires Inv(c)
    ensures Inv(Intend(c, paths, now))
  {
  }

  lemma DiscardInv(c: Cat, p: Path, before: int)
    requires Inv(c)
    ensures Inv(Discard(c, p, before).0)
  {
  }

  // ---- the key inventory ----

  function Occurrences(keys: map<(string, string), Key>, at: (string, string)): int {
    if at in keys then keys[at].occurrences else 0
  }

  /** The non-null values a file's columns hold for one key. */
  function Values(f: File, columns: seq<Column>, at: (string, string)): int {
    if columns == [] then 0
    else
      var c := columns[|columns| - 1];
      Values(f, columns[..|columns| - 1], at) + if at == (f.stream, c.key) then f.rows - c.nulls else 0
  }

  lemma {:induction false} AddKeysCount(keys: map<(string, string), Key>, f: File, columns: seq<Column>, counted: bool, at: (string, string))
    ensures Occurrences(AddKeys(keys, f, columns, counted), at) ==
            Occurrences(keys, at) + if counted then Values(f, columns, at) else 0
    decreases |columns|
  {
    if columns != [] {
      AddKeysCount(keys, f, columns[..|columns| - 1], counted, at);
    }
  }

  lemma {:induction false} InsertAllEffects(c: Cat, outputs: seq<File>, at: (string, string))
    ensures InsertAll(c, outputs).Ok? ==>
              var d := InsertAll(c, outputs).value;
              Occurrences(d.keys, at) == Occurrences(c.keys, at) && c.maxSeq <= d.maxSeq
    decreases |outputs|
  {
    if outputs != [] {
      var n := |outputs| - 1;
      InsertAllEffects(c, outputs[..n], at);
      if InsertAll(c, outputs[..n]).Ok? {
        AddKeysCount(InsertAll(c, outputs[..n]).value.keys, outputs[n], outputs[n].columns, false, at);
      }
    }
  }

  // ---- any sequence of transactions ----

  datatype Op =
    | RegisterOp(f: File)
    | ReplaceOp(outputs: seq<File>, inputs: seq<Path>, now: int)
    | TombstoneOp(paths: seq<Path>, now: int)
    | ForgetOp(path: Path)
    | IntendOp(declared: set<Path>, now: int)
    | DiscardOp(path: Path, before: int)

  /** One transaction. A failed one rolls back, and only a tombstone is ever forgotten. */
  function Apply(c: Cat, op: Op): Cat {
    match op
    case RegisterOp(f) => Register(c, f).0
    case ReplaceOp(outputs, inputs, now) =>
      (match Replace(c, outputs, inputs, now)
       case Ok(d) => d
       case Err(_) => c)
    case TombstoneOp(paths, now) => Retire(c, paths, now)
    case ForgetOp(p) => if LiveAt(c.files, p) then c else Forget(c, p)
    case IntendOp(declared, now) => Intend(c, declared, now)
    case DiscardOp(p, before) => Discard(c, p, before).0
  }

  function After(ops: seq<Op>): Cat {
    if ops == [] then Empty else Apply(After(ops[..|ops| - 1]), ops[|ops| - 1])
  }

  /** The values a transaction newly registers for one key. */
  function Gained(c: Cat, op: Op, at: (string, string)): int {
    if op.RegisterOp? && op.f.path !in c.files then Values(op.f, op.f.columns, at) else 0
  }

  /** The highest sequence number so far, after the files a transaction adds. */
  function Raised(before: nat, c: Cat, op: Op): nat {
    match op
    case RegisterOp(f) => if f.path in c.files then before else Max(before, f.maxSeq)
    case ReplaceOp(outputs, inputs, now) => if InsertAll(c, outputs).Ok? then HighestOf(before, outputs) else before
    case _ => before
  }

  function RegisteredValues(ops: seq<Op>, at: (string, string)): int {
    if ops == [] then 0
    else RegisteredValues(ops[..|ops| - 1], at) + Gained(After(ops[..|ops| - 1]), ops[|ops| - 1], at)
  }

  function HighestSeq(ops: seq<Op>): nat {
    if ops == [] then 0
    else Raised(HighestSeq(ops[..|ops| - 1]), After(ops[..|ops| - 1]), ops[|ops| - 1])
  }

  function HighestOf(before: nat, outputs: seq<File>): nat {
    if outputs == [] then before else Max(HighestOf(before, outputs[..|outputs| - 1]), outputs[|outputs| - 1].maxSeq)
  }

  lemma {:induction false} InsertAllMaxSeq(c: Cat, outputs: seq<File>)
    ensures InsertAll(c, outputs).Ok? ==> InsertAll(c, outputs).value.maxSeq == HighestOf(c.maxSeq, outputs)
    decreases |outputs|
  {
    if outputs != [] {
      InsertAllMaxSeq(c, outputs[..|outputs| - 1]);
    }
  }

  lemma ApplyInv(c: Cat, op: Op)
    requires Inv(c)
    ensures Inv(Apply(c, op))
  {
    match op
    case RegisterOp(f) => InsertInv(c, f, true);
    case ReplaceOp(outputs, inputs, now) => ReplaceInv(c, outputs, inputs, now);
    case TombstoneOp(paths, now) => RetireInv(c, paths, now);
    case ForgetOp(p) => if !LiveAt(c.files, p) { ForgetInv(c, p); }
    case IntendOp(declared, now) => IntendInv(c, declared, now);
    case DiscardOp(p, before) => DiscardInv(c, p, before);
  }

  lemma ApplyEffects(c: Cat, op: Op, at: (string, string))
    ensures Occurrences(Apply(c, op).keys, at) == Occurrences(c.keys, at) + Gained(c, op, at)
    ensures Apply(c, op).maxSeq == Raised(c.maxSeq, c, op)
  {
    match op
    case RegisterOp(f) => AddKeysCount(c.keys, f, f.columns, true, at);
    case ReplaceOp(outputs, inputs, now) =>
      InsertAllEffects(c, outputs, at);
      InsertAllMaxSeq(c, outputs);
      if InsertAll(c, outputs).Ok? {
        RetireFiles(InsertAll(c, outputs).value, inputs, now);
      }
    case TombstoneOp(paths, now) => RetireFiles(c, paths, now);
    case _ =>
  }

  /**
   * Over any sequence of transactions the stream counters equal the sums over live files, no
   * path is both declared and registered, a key's occurrences are moved by first registrations
   * and nothing else, and max_seq is the highest sequence number ever registered -- forgotten
   * rows included.
   */
  lemma {:induction false} CatalogConserves(ops: seq<Op>, at: (string, string))
    ensures var c := After(ops);
            Inv(c) && Occurrences(c.keys, at) == RegisteredValues(ops, at) && c.maxSeq == HighestSeq(ops)
    decreases |ops|
  {
    if ops == [] {
      EmptyInv();
    } else {
      var n := |ops| - 1;
      CatalogConserves(ops[..n], at);
      ApplyInv(After(ops[..n]), ops[n]);
      ApplyEffects(After(ops[..n]), ops[n], at);
    }
  }

  // ---- what is known of a key, and of a stream ----

  /** One file's column of a key, or a file of a stream. */
  datatype Recording = Recording(kind: string, polymorphic: bool, minTs: int, maxTs: int)

  /** The files a transaction adds. */
  function NewFiles(c: Cat, op: Op): seq<File> {
    match op
    case RegisterOp(f) => if f.path in c.files then [] else [f]
    case ReplaceOp(outputs, _, _) => if InsertAll(c, outputs).Ok? then outputs else []
    case _ => []
  }

  function ColumnsOf(f: File, columns: seq<Column>, at: (string, string)): seq<Recording> {
    if columns == [] then []
    else
      var c := columns[|columns| - 1];
      ColumnsOf(f, columns[..|columns| - 1], at) + if at == (f.stream, c.key) then [Recording(c.kind, c.polymorphic, f.minTs, f.maxTs)] else []
  }

  function KeyIn(files: seq<File>, at: (string, string)): seq<Recording> {
    if files == [] then []
    else var f := files[|files| - 1]; KeyIn(files[..|files| - 1], at) + ColumnsOf(f, f.columns, at)
  }

  function StreamIn(files: seq<File>, stream: string): seq<Recording> {
    if files == [] then []
    else var f := files[|files| - 1]; StreamIn(files[..|files| - 1], stream) + if f.stream == stream then [Recording("", false, f.minTs, f.maxTs)] else []
  }

  /** Every file ever added, in order. */
  function EverAdded(ops: seq<Op>): seq<File> {
    if ops == [] then [] else var n := |ops| - 1; EverAdded(ops[..n]) + NewFiles(After(ops[..n]), ops[n])
  }

  ghost predicate LatestIs(rs: seq<Recording>, at: int) {
    (forall r <- rs :: r.maxTs <= at) && exists r :: r in rs && r.maxTs == at
  }

  ghost predicate EarliestIs(rs: seq<Recording>, at: int) {
    (forall r <- rs :: r.minTs >= at) && exists r :: r in rs && r.minTs == at
  }

  ghost predicate OneKind(rs: seq<Recording>, kind: string) {
    forall r <- rs :: r.kind == kind
  }

  ghost predicate SomePolymorphic(rs: seq<Recording>) {
    exists r :: r in rs && r.polymorphic
  }

  /**
   * A key whose columns were all of one kind is of that kind, and any other is text; it is polymorphic if any of its
   * columns was or if they were not of one kind. It was first seen in the first of their files, and last in the latest.
   */
  ghost predicate KeySays(keys: map<(string, string), Key>, at: (string, string), rs: seq<Recording>) {
    && (at in keys <==> rs != [])
    && (rs != [] ==>
          && (keys[at].kind == if OneKind(rs, rs[0].kind) then rs[0].kind else "string")
          && (keys[at].polymorphic <==> SomePolymorphic(rs) || !OneKind(rs, rs[0].kind))
          && keys[at].firstSeen == rs[0].minTs && LatestIs(rs, keys[at].lastSeen))
  }

  /** A stream was first seen at the earliest record of any of its files, and last at the latest. */
  ghost predicate StreamSays(streams: map<string, Rollup>, stream: string, rs: seq<Recording>) {
    && (stream in streams <==> rs != [])
    && (rs != [] ==> EarliestIs(rs, streams[stream].firstSeen) && LatestIs(rs, streams[stream].lastSeen))
  }

  lemma LatestNext(rs: seq<Recording>, r: Recording, at: int)
    requires rs == [] || LatestIs(rs, at)
    ensures LatestIs(rs + [r], if rs == [] then r.maxTs else Max(at, r.maxTs))
  {
    var next := rs + [r];
    assert next[|rs|] == r;
    if rs != [] {
      var x :| x in rs && x.maxTs == at;
      assert x in next && r in next;
    }
  }

  lemma EarliestNext(rs: seq<Recording>, r: Recording, at: int)
    requires rs == [] || EarliestIs(rs, at)
    ensures EarliestIs(rs + [r], if rs == [] then r.minTs else Min(at, r.minTs))
  {
    var next := rs + [r];
    assert next[|rs|] == r;
    if rs != [] {
      var x :| x in rs && x.minTs == at;
      assert x in next && r in next;
    }
  }

  lemma KindsNext(rs: seq<Recording>, r: Recording, kind: string)
    ensures OneKind(rs + [r], kind) <==> OneKind(rs, kind) && r.kind == kind
    ensures SomePolymorphic(rs + [r]) <==> SomePolymorphic(rs) || r.polymorphic
  {
    var next := rs + [r];
    assert next[|rs|] == r;
    forall x ensures x in next <==> x in rs || x == r {
    }
    if SomePolymorphic(rs) {
      var x :| x in rs && x.polymorphic;
      assert x in next;
    }
  }

  lemma KeyNext(keys: map<(string, string), Key>, f: File, c: Column, counted: bool, rs: seq<Recording>)
    requires KeySays(keys, (f.stream, c.key), rs)
    ensures KeySays(AddKey(keys, f, c, counted), (f.stream, c.key), rs + [Recording(c.kind, c.polymorphic, f.minTs, f.maxTs)])
  {
    var at, r := (f.stream, c.key), Recording(c.kind, c.polymorphic, f.minTs, f.maxTs);
    var next := rs + [r];
    assert next[0] == if rs == [] then r else rs[0];
    KindsNext(rs, r, next[0].kind);
    LatestNext(rs, r, if rs == [] then 0 else keys[at].lastSeen);
    if rs != [] && !OneKind(rs, rs[0].kind) {
      assert next[0].kind == rs[0].kind;
    }
  }

  lemma {:induction false} KeysNext(keys: map<(string, string), Key>, f: File, columns: seq<Column>, counted: bool, at: (string, string), rs: seq<Recording>)
    requires KeySays(keys, at, rs)
    ensures KeySays(AddKeys(keys, f, columns, counted), at, rs + ColumnsOf(f, columns, at))
    decreases |columns|
  {
    if columns == [] {
      assert rs + [] == rs;
    } else {
      var n := |columns| - 1;
      var before := rs + ColumnsOf(f, columns[..n], at);
      KeysNext(keys, f, columns[..n], counted, at, rs);
      if at == (f.stream, columns[n].key) {
        KeyNext(AddKeys(keys, f, columns[..n], counted), f, columns[n], counted, before);
        Assoc(rs, ColumnsOf(f, columns[..n], at), [Recording(columns[n].kind, columns[n].polymorphic, f.minTs, f.maxTs)]);
      } else {
        assert before + [] == before && ColumnsOf(f, columns, at) == ColumnsOf(f, columns[..n], at);
      }
    }
  }

  lemma StreamNext(streams: map<string, Rollup>, f: File, stream: string, rs: seq<Recording>)
    requires StreamSays(streams, stream, rs)
    ensures StreamSays(AddRollup(streams, f), stream, rs + if f.stream == stream then [Recording("", false, f.minTs, f.maxTs)] else [])
  {
    if f.stream == stream {
      var r := Recording("", false, f.minTs, f.maxTs);
      LatestNext(rs, r, if rs == [] then 0 else streams[stream].lastSeen);
      EarliestNext(rs, r, if rs == [] then 0 else streams[stream].firstSeen);
    } else {
      assert rs + [] == rs;
    }
  }

  ghost predicate CatSays(c: Cat, at: (string, string), files: seq<File>) {
    KeySays(c.keys, at, KeyIn(files, at)) && StreamSays(c.streams, at.0, StreamIn(files, at.0))
  }

  lemma InsertSays(c: Cat, f: File, counted: bool, at: (string, string), files: seq<File>)
    requires CatSays(c, at, files)
    ensures CatSays(Insert(c, f, counted).0, at, files + if f.path in c.files then [] else [f])
  {
    if f.path in c.files {
      assert files + [] == files;
    } else {
      assert (files + [f])[..|files|] == files;
      KeysNext(c.keys, f, f.columns, counted, at, KeyIn(files, at));
      StreamNext(c.streams, f, at.0, StreamIn(files, at.0));
    }
  }

  lemma NewSays(c: Cat, f: File, at: (string, string), files: seq<File>)
    requires CatSays(c, at, files) && !Insert(c, f, false).1
    ensures CatSays(Insert(c, f, false).0, at, files + [f])
  {
    InsertSays(c, f, false, at, files);
  }

  lemma {:induction false} InsertAllSays(c: Cat, outputs: seq<File>, at: (string, string), files: seq<File>)
    requires CatSays(c, at, files)
    ensures InsertAll(c, outputs).Ok? ==> CatSays(InsertAll(c, outputs).value, at, files + outputs)
    decreases |outputs|
  {
    if outputs == [] {
      assert files + outputs == files;
    } else {
      var n := |outputs| - 1;
      InsertAllSays(c, outputs[..n], at, files);
      assert files + outputs == files + outputs[..n] + [outputs[n]];
      if InsertAll(c, outputs).Ok? {
        NewSays(InsertAll(c, outputs[..n]).value, outputs[n], at, files + outputs[..n]);
      }
    }
  }

  /** Retiring takes nothing back of what is known of keys, or of when a stream was seen. */
  lemma {:induction false} RetireSays(c: Cat, paths: seq<Path>, now: int, at: (string, string), files: seq<File>)
    requires CatSays(c, at, files)
    ensures CatSays(Retire(c, paths, now), at, files)
    decreases |paths|
  {
    if paths != [] {
      RetireSays(c, paths[..|paths| - 1], now, at, files);
    }
  }

  lemma ApplySays(c: Cat, op: Op, at: (string, string), files: seq<File>)
    requires CatSays(c, at, files)
    ensures CatSays(Apply(c, op), at, files + NewFiles(c, op))
  {
    assert files + [] == files;
    match op
    case RegisterOp(f) => InsertSays(c, f, true, at, files);
    case ReplaceOp(outputs, inputs, now) =>
      InsertAllSays(c, outputs, at, files);
      if InsertAll(c, outputs).Ok? {
        RetireSays(InsertAll(c, outputs).value, inputs, now, at, files + outputs);
      }
    case TombstoneOp(paths, now) => RetireSays(c, paths, now, at, files);
    case _ =>
  }

  /** Over any sequence of transactions, what the catalog says of a key and of a stream is what all the files ever added say. */
  lemma {:induction false} InventoryIsTrue(ops: seq<Op>, at: (string, string))
    ensures KeySays(After(ops).keys, at, KeyIn(EverAdded(ops), at)) && StreamSays(After(ops).streams, at.0, StreamIn(EverAdded(ops), at.0))
    decreases |ops|
  {
    if ops != [] {
      var n := |ops| - 1;
      InventoryIsTrue(ops[..n], at);
      ApplySays(After(ops[..n]), ops[n], at, EverAdded(ops[..n]));
    }
  }
}

/** The store behind those transactions: tables updated in place, each method the transaction of the same name. */
module CatalogStore {
  import opened Prelude
  import opened Catalog

  class Tables {
    var files: map<Path, Row>
    var streams: map<string, Rollup>
    var keys: map<(string, string), Key>
    var pending: map<Path, int>
    var maxSeq: nat
    var nextId: nat

    function View(): Cat
      reads this
    {
      Cat(files, streams, keys, pending, maxSeq, nextId)
    }

    constructor ()
      ensures View() == Empty && Inv(View())
    {
      files, streams, keys, pending, maxSeq, nextId := map[], map[], map[], map[], 0, 1;
    }

    /** Records every column of a new file in the key inventory. */
    method RecordKeys(f: File, counted: bool)
      modifies this`keys
      ensures keys == AddKeys(old(keys), f, f.columns, counted)
    {
      var i := 0;
      while i < |f.columns|
        invariant 0 <= i <= |f.columns|
        invariant keys == AddKeys(old(keys), f, f.columns[..i], counted)
      {
        var c := f.columns[i];
        assert f.columns[..i + 1][..i] == f.columns[..i];
        var at := (f.stream, c.key);
        var more := if counted then f.rows - c.nulls else 0;
        if at !in keys {
          keys := keys[at := Key(c.kind, c.polymorphic, more, f.minTs, f.maxTs)];
        } else {
          var k := keys[at];
          keys := keys[at := Key(
            if k.kind == c.kind then k.kind else "string",
            k.polymorphic || c.polymorphic || k.kind != c.kind,
            k.occurrences + more,
            k.firstSeen,
            Max(k.lastSeen, f.maxTs))];
        }
        i := i + 1;
      }
      assert f.columns[..|f.columns|] == f.columns;
    }

    method InsertFile(f: File, counted: bool) returns (existed: bool)
      modifies this
      ensures (View(), existed) == Insert(old(View()), f, counted)
    {
      pending := pending - {f.path};
      if f.path in files {
        return true;
      }
      files := files[f.path := Row(nextId, f, Live)];
      nextId := nextId + 1;
      RecordKeys(f, counted);
      if f.stream in streams {
        var r := streams[f.stream];
        streams := streams[f.stream := Rollup(Min(r.firstSeen, f.minTs), Max(r.lastSeen, f.maxTs), r.rows + f.rows, r.bytes + f.bytes)];
      } else {
        streams := streams[f.stream := Rollup(f.minTs, f.maxTs, f.rows, f.bytes)];
      }
      if f.maxSeq > maxSeq {
        maxSeq := f.maxSeq;
      }
      return false;
    }

    method Register(f: File) returns (existed: bool)
      modifies this
      ensures (View(), existed) == Catalog.Register(old(View()), f)
    {
      existed := InsertFile(f, true);
    }

    method RetireAll(paths: seq<Path>, now: int)
      modifies this`files, this`streams
      ensures View() == Retire(old(View()), paths, now)
    {
      var i := 0;
      while i < |paths|
        invariant 0 <= i <= |paths|
        invariant View() == Retire(old(View()), paths[..i], now)
      {
        assert paths[..i + 1][..i] == paths[..i];
        var p := paths[i];
        if LiveAt(files, p) {
          var f := files[p].file;
          files := files[p := files[p].(state := Tombstoned(now))];
          if f.stream in streams {
            streams := streams[f.stream := TakeOff(streams[f.stream], f)];
          }
        }
        i := i + 1;
      }
      assert paths[..|paths|] == paths;
    }

    /** Inserts outputs until one is refused, which leaves the ones before it for the caller to roll back. */
    method InsertOutputs(outputs: seq<File>) returns (failed: Option<Error>)
      modifies this
      ensures InsertAll(old(View()), outputs) == if failed.None? then Ok(View()) else Err(failed.value)
    {
      var i := 0;
      while i < |outputs|
        invariant 0 <= i <= |outputs|
        invariant InsertAll(old(View()), outputs[..i]) == Ok(View())
      {
        assert outputs[..i + 1][..i] == outputs[..i];
        var existed := InsertFile(outputs[i], false);
        if existed {
          StillFails(old(View()), outputs, i + 1);
          return Some(ErrRegistered(outputs[i].path));
        }
        i := i + 1;
      }
      assert outputs[..|outputs|] == outputs;
      return None;
    }

    /** One transaction: an output already registered rolls back everything before it. */
    method Replace(outputs: seq<File>, inputs: seq<Path>, now: int) returns (failed: Option<Error>)
      modifies this
      ensures match Catalog.Replace(old(View()), outputs, inputs, now)
              case Ok(d) => failed.None? && View() == d
              case Err(e) => failed == Some(e) && View() == old(View())
    {
      var files0, streams0, keys0, pending0, maxSeq0, nextId0 := files, streams, keys, pending, maxSeq, nextId;
      failed := InsertOutputs(outputs);
      if failed.None? {
        RetireAll(inputs, now);
      } else {
        files, streams, keys, pending, maxSeq, nextId := files0, streams0, keys0, pending0, maxSeq0, nextId0;
      }
    }

    method Tombstone(paths: seq<Path>, now: int)
      modifies this
      ensures View() == Retire(old(View()), paths, now)
    {
      if |paths| != 0 {
        RetireAll(paths, now);
      }
    }

    method Forget(p: Path)
      modifies this`files
      ensures View() == Catalog.Forget(old(View()), p)
    {
      files := files - {p};
    }

    /** Declares every path that is not registered, and reports those that are. */
    method Intend(paths: set<Path>, now: int) returns (registered: set<Path>)
      modifies this`pending
      ensures View() == Catalog.Intend(old(View()), paths, now)
      ensures registered == Registered(old(View()), paths)
    {
      registered := DeclareEach(paths, now);
    }

    method DeclareEach(paths: set<Path>, now: int) returns (registered: set<Path>)
      modifies this`pending
      ensures pending == Declared(old(pending), files, paths, now) && registered == Known(files, paths)
    {
      registered := {};
      var left := paths;
      while left != {}
        invariant left <= paths && SoFar(old(pending), files, paths - left, now, pending, registered)
        decreases |left|
      {
        var p :| p in left;
        assert paths - left + {p} == paths - (left - {p});
        DeclareOne(old(pending), files, paths - left, p, now, pending, registered);
        left := left - {p};
        if p in files {
          registered := registered + {p};
        } else {
          pending := pending[p := now];
        }
      }
      assert paths - left == paths;
    }

    method Discard(p: Path, before: int) returns (removed: bool)
      modifies this`pending
      ensures (View(), removed) == Catalog.Discard(old(View()), p, before)
    {
      if p !in pending {
        return false;
      }
      if pending[p] >= before {
        return false;
      }
      removed := p !in files;
      pending := pending - {p};
    }
  }

  function Known(files: map<Path, Row>, paths: set<Path>): set<Path> {
    set p | p in paths && p in files
  }

  ghost predicate SoFar(before: map<Path, int>, files: map<Path, Row>, paths: set<Path>, now: int, pending: map<Path, int>, registered: set<Path>) {
    pending == Declared(before, files, paths, now) && registered == Known(files, paths)
  }

  lemma DeclareOne(before: map<Path, int>, files: map<Path, Row>, paths: set<Path>, p: Path, now: int, pending: map<Path, int>, registered: set<Path>)
    requires SoFar(before, files, paths, now, pending, registered)
    ensures SoFar(before, files, paths + {p}, now, if p in files then pending else pending[p := now], if p in files then registered + {p} else registered)
  {
    var more := Declared(before, files, paths + {p}, now);
    assert p in files ==> more == pending;
    assert p !in files ==> more == pending[p := now];
  }

  /** Once an output is refused, so is every longer list that starts the same way. */
  lemma {:induction false} StillFails(c: Cat, outputs: seq<File>, i: nat)
    requires 0 < i <= |outputs| && InsertAll(c, outputs[..i]).Err?
    ensures InsertAll(c, outputs) == InsertAll(c, outputs[..i])
    decreases |outputs|
  {
    if i == |outputs| {
      assert outputs[..i] == outputs;
    } else {
      var n := |outputs| - 1;
      assert outputs[..n][..i] == outputs[..i];
      StillFails(c, outputs[..n], i);
    }
  }
}
