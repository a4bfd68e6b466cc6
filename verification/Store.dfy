/**
 * The durable store as a machine: the write-ahead log, the batch, the objects, the catalog, the
 * flusher, the compactor, the two garbage collectors and the clock, each taking its next step
 * whenever it likes, and a crash between any two.
 *
 * What a segment, a batch or a file holds is modelled as records; Wal.dfy says why a segment on
 * disk is its records. A record is known by its sequence number.
 */
module Store {
  import opened Prelude
  import opened Catalog

  datatype Rec = Rec(seqno: nat, stream: string, micros: int, severity: int)

  datatype Config = Config(grace: nat, orphanGrace: nat, safe: string -> string)

  /** The flusher: between cycles, holding a segment's records, or some way through its streams. */
  datatype Flush =
    | Resting
    | Loaded(n: nat, recs: seq<Rec>)
    | Persisting(n: nat, recs: seq<Rec>, declared: int, todo: set<string>, writing: Option<string>, failed: bool)

  datatype Merge =
    | NoMerge
    | Merging(inputs: seq<Path>, kept: multiset<Rec>, name: Path, declared: int, written: bool)

  datatype Collector =
    | Waiting
    | Listed(files: set<Path>)
    | Floored(files: set<Path>, floor: Option<nat>, removed: set<Path>)

  /** A query that took a file off a file list at some moment, and what it means to read. */
  datatype Reader = Reader(at: int, path: Path, content: multiset<Rec>)

  datatype Store = Store(
    now: int,
    seqno: nat,
    number: nat,
    active: seq<Rec>,
    synced: nat,
    batch: seq<Rec>,
    sealed: map<nat, seq<Rec>>,
    unflushed: set<nat>,
    objects: map<Path, multiset<Rec>>,
    cat: Cat,
    flush: Flush,
    merge: Merge,
    gc: Collector,
    // History: records in play, records promised, records retention dropped, file lists taken.
    known: set<Rec>,
    stored: set<Rec>,
    discarded: set<Rec>,
    base: nat,
    readers: set<Reader>)

  const Fresh := Store(0, 0, 1, [], 0, [], map[], {}, map[], Catalog.Empty, Resting, NoMerge, Waiting, {}, {}, {}, 0, {})

  // ---- names ----

  function OfStream(recs: seq<Rec>, stream: string): seq<Rec> {
    if recs == [] then []
    else if recs[0].stream == stream then [recs[0]] + OfStream(recs[1..], stream)
    else OfStream(recs[1..], stream)
  }

  lemma {:induction false} OfStreamHas(recs: seq<Rec>, stream: string)
    ensures forall r :: r in OfStream(recs, stream) <==> r in recs && r.stream == stream
  {
    if recs != [] {
      OfStreamHas(recs[1..], stream);
      assert recs == [recs[0]] + recs[1..];
    }
  }

  function Streams(recs: seq<Rec>): set<string> {
    set r | r in recs :: r.stream
  }

  /** The path a flush gives one stream of a segment: named after its first record there. */
  function NameOf(cfg: Config, recs: seq<Rec>, stream: string): Path
    requires stream in Streams(recs)
  {
    OfStreamHas(recs, stream);
    var first := OfStream(recs, stream)[0];
    Path(cfg.safe(stream), 0, first.seqno, first.micros, None)
  }

  function Names(cfg: Config, recs: seq<Rec>): set<Path> {
    set stream | stream in Streams(recs) :: NameOf(cfg, recs, stream)
  }

  function Part(recs: seq<Rec>, stream: string): multiset<Rec> {
    multiset(OfStream(recs, stream))
  }

  ghost predicate Rising(recs: seq<Rec>) {
    forall i, j :: 0 <= i < j < |recs| ==> recs[i].seqno < recs[j].seqno
  }

  lemma {:induction false} RisingPart(recs: seq<Rec>, stream: string)
    requires Rising(recs)
    ensures Rising(OfStream(recs, stream))
    ensures forall r :: Part(recs, stream)[r] <= 1
    ensures forall r :: r in Part(recs, stream) <==> r in recs && r.stream == stream
  {
    OfStreamHas(recs, stream);
    OfStreamRises(recs, stream);
    RisingOnce(OfStream(recs, stream));
  }

  lemma {:induction false} OfStreamRises(recs: seq<Rec>, stream: string)
    requires Rising(recs)
    ensures Rising(OfStream(recs, stream))
  {
    if recs != [] {
      OfStreamRises(recs[1..], stream);
      OfStreamHas(recs[1..], stream);
      var rest := OfStream(recs[1..], stream);
      forall i | 0 <= i < |rest|
        ensures recs[0].seqno < rest[i].seqno
      {
        assert rest[i] in rest;
      }
    }
  }

  lemma {:induction false} RisingOnce(recs: seq<Rec>)
    requires Rising(recs)
    ensures forall r :: multiset(recs)[r] <= 1
  {
    if recs != [] {
      RisingOnce(recs[1..]);
      assert recs == [recs[0]] + recs[1..];
      assert recs[0] !in recs[1..];
    }
  }

  // ---- where records are ----

  /** What the live files hold: the only thing a query ever sees. */
  function Shelf(files: map<Path, Row>, objects: map<Path, multiset<Rec>>): map<Path, multiset<Rec>> {
    map p | p in files && p in objects && LiveAt(files, p) :: objects[p]
  }

  ghost predicate OnShelf(live: map<Path, multiset<Rec>>, r: Rec) {
    exists p :: p in live && r in live[p]
  }

  ghost predicate InSealed(sealed: map<nat, seq<Rec>>, r: Rec) {
    exists n, i :: n in sealed && 0 <= i < |sealed[n]| && sealed[n][i] == r
  }

  /** Whether the file a flush of this segment would write for its i-th record is already registered. */
  ghost predicate Landed(cfg: Config, files: map<Path, Row>, recs: seq<Rec>, i: nat)
    requires i < |recs|
  {
    NameOf(cfg, recs, recs[i].stream) in files
  }

  /** Everything the inputs hold, counted as often as they hold it. */
  function Gather(objects: map<Path, multiset<Rec>>, inputs: seq<Path>): multiset<Rec> {
    if inputs == [] then multiset{}
    else
      var p := inputs[|inputs| - 1];
      Gather(objects, inputs[..|inputs| - 1]) + if p in objects then objects[p] else multiset{}
  }

  ghost predicate Distinct(paths: seq<Path>) {
    forall i, j :: 0 <= i < j < |paths| ==> paths[i] != paths[j]
  }

  // ---- what a file's row says about its records ----

  function Low(recs: seq<Rec>): nat
    requires recs != []
  {
    if |recs| == 1 || recs[0].seqno <= Low(recs[1..]) then recs[0].seqno else Low(recs[1..])
  }

  function High(recs: seq<Rec>): nat
    requires recs != []
  {
    if |recs| == 1 || recs[0].seqno >= High(recs[1..]) then recs[0].seqno else High(recs[1..])
  }

  function Oldest(recs: seq<Rec>): int
    requires recs != []
  {
    if |recs| == 1 || recs[0].micros <= Oldest(recs[1..]) then recs[0].micros else Oldest(recs[1..])
  }

  function Newest(recs: seq<Rec>): int
    requires recs != []
  {
    if |recs| == 1 || recs[0].micros >= Newest(recs[1..]) then recs[0].micros else Newest(recs[1..])
  }

  lemma {:induction false} InRange(recs: seq<Rec>)
    requires recs != []
    ensures forall r :: r in recs ==> Low(recs) <= r.seqno <= High(recs) && Oldest(recs) <= r.micros <= Newest(recs)
  {
    if |recs| > 1 {
      InRange(recs[1..]);
      assert recs == [recs[0]] + recs[1..];
    }
  }

  // ---- the steps ----

  ghost predicate Describes(f: File, path: Path, content: multiset<Rec>) {
    && f.path == path && f.level == path.level
    && f.rows == |content|
    && (forall r :: r in content ==> f.minSeq <= r.seqno <= f.maxSeq && f.minTs <= r.micros <= f.maxTs)
  }

  ghost predicate IsFloor(sealed: map<nat, seq<Rec>>, floor: Option<nat>) {
    match floor
    case None => forall n :: n in sealed ==> sealed[n] == []
    case Some(f) =>
      exists n :: n in sealed && sealed[n] != [] && sealed[n][0].seqno == f && forall m :: m in sealed && m < n ==> sealed[m] == []
  }

  ghost predicate IsHighest(top: nat, maxSeq: nat, sealed: map<nat, seq<Rec>>) {
    && maxSeq <= top
    && (forall n, i :: n in sealed && 0 <= i < |sealed[n]| ==> sealed[n][i].seqno <= top)
    && (top == maxSeq || exists n, i :: n in sealed && 0 <= i < |sealed[n]| && sealed[n][i].seqno == top)
  }

  datatype Step =
    | Append(stream: string, micros: int, severity: int, accepted: bool)
    | Sync(upTo: nat)
    | Seal
    | Retry(n: nat)
    | Declare
    | WriteObject(stream: string)
    | RegisterFile(f: File)
    | Skip(stream: string)
    | GiveUp
    | Finish(removed: bool)
    | BeginMerge(inputs: seq<Path>, kept: multiset<Rec>, first: Rec)
    | BeginRewrite(input: Path, kept: multiset<Rec>, first: Rec)
    | WriteMerged
    | Publish(f: File)
    | AbortMerge
    | DropAll(inputs: seq<Path>)
    | List
    | TakeFloor(floor: Option<nat>)
    | RemoveObject(path: Path)
    | ForgetRow(path: Path)
    | Rest
    | Sweep(path: Path, before: int)
    | Snapshot(path: Path)
    | Tick(elapsed: nat)
    | CrashAndRecover(survivors: nat, top: nat)
  {
    predicate Ingest?() {
      Append? || Sync? || Seal? || Retry? || Declare? || WriteObject? || RegisterFile? || Skip? || GiveUp? || Finish?
    }

    predicate Compaction?() {
      BeginMerge? || BeginRewrite? || WriteMerged? || Publish? || AbortMerge? || DropAll?
    }
  }

  /** The WAL takes the record, or refuses it and the number it was given is spent all the same. */
  function DoAppend(s: Store, stream: string, micros: int, severity: int, accepted: bool): Store {
    var r := Rec(s.seqno + 1, stream, micros, severity);
    if accepted then s.(seqno := s.seqno + 1, active := s.active + [r], batch := s.batch + [r], known := s.known + {r})
    else s.(seqno := s.seqno + 1)
  }

  function Elements(recs: seq<Rec>): set<Rec> {
    set r | r in recs
  }

  /** A successful sync promises the records accepted before it was called. */
  function DoSync(s: Store, upTo: nat): Store {
    if s.synced <= upTo <= |s.active| then s.(synced := upTo, stored := s.stored + Elements(s.active[..upTo])) else s
  }

  /** Rotates the log and takes the batch, with no append in between. */
  function DoSeal(s: Store): Store {
    if s.flush.Resting? && s.batch != [] then
      s.(sealed := s.sealed[s.number := s.active], number := s.number + 1,
      flush := Loaded(s.number, s.batch),
      stored := s.stored + Elements(s.active),
      active := [], batch := [], synced := 0, base := s.seqno)
    else s
  }

  /** Reads back a segment an earlier cycle, or an earlier process, could not finish. */
  function DoRetry(s: Store, n: nat): Store {
    if s.flush.Resting? && n in s.unflushed && n in s.sealed then
      s.(flush := Loaded(n, s.sealed[n]), unflushed := s.unflushed - {n})
    else s
  }

  function Unlanded(cfg: Config, recs: seq<Rec>, files: map<Path, Row>): set<string> {
    set stream | stream in Streams(recs) && NameOf(cfg, recs, stream) !in files
  }

  /** Declares every stream's file, and learns which are registered already. */
  function DoDeclare(cfg: Config, s: Store): Store {
    if s.flush.Loaded? then
      var recs := s.flush.recs;
      s.(cat := Intend(s.cat, Names(cfg, recs), s.now),
      flush := Persisting(s.flush.n, recs, s.now, Unlanded(cfg, recs, s.cat.files), None, false))
    else s
  }

  predicate MayWrite(s: Store, stream: string) {
    s.flush.Persisting? && s.flush.writing.None? && stream in s.flush.todo && stream in Streams(s.flush.recs)
  }

  function DoWrite(cfg: Config, s: Store, stream: string): Store {
    if MayWrite(s, stream) then
      s.(objects := s.objects[NameOf(cfg, s.flush.recs, stream) := Part(s.flush.recs, stream)],
      flush := s.flush.(writing := Some(stream)))
    else s
  }

  /** A write registers within the time its declaration is good for, or not at all. */
  ghost predicate MayRegister(cfg: Config, s: Store, f: File) {
    && s.flush.Persisting? && s.flush.writing.Some?
    && var stream := s.flush.writing.value;
    && stream in Streams(s.flush.recs)
    && f.stream == stream
    && Describes(f, NameOf(cfg, s.flush.recs, stream), Part(s.flush.recs, stream))
    && s.now <= s.flush.declared + cfg.orphanGrace
  }

  ghost function DoRegister(cfg: Config, s: Store, f: File): Store {
    if MayRegister(cfg, s, f) then
      s.(cat := Register(s.cat, f).0,
      flush := s.flush.(todo := s.flush.todo - {s.flush.writing.value}, writing := None))
    else s
  }

  /** A stream whose write or registration failed is left for a retry; the others go on. */
  function DoSkip(s: Store, stream: string): Store {
    if s.flush.Persisting? && stream in s.flush.todo && (s.flush.writing.None? || s.flush.writing.value == stream) then
      s.(flush := s.flush.(todo := s.flush.todo - {stream}, writing := None, failed := true))
    else s
  }

  /** A cycle that fails before it has written anything. */
  function DoGiveUp(s: Store): Store {
    if s.flush.Loaded? then s.(flush := Resting, unflushed := s.unflushed + {s.flush.n}) else s
  }

  /** Removes a segment every stream of which has landed, or keeps it for a retry. */
  function DoFinish(s: Store, removed: bool): Store {
    if s.flush.Persisting? && s.flush.todo == {} then
      if removed && !s.flush.failed then s.(flush := Resting, sealed := s.sealed - {s.flush.n})
      else s.(flush := Resting, unflushed := s.unflushed + {s.flush.n})
    else s
  }

  ghost predicate MayMerge(s: Store, inputs: seq<Path>, kept: multiset<Rec>, first: Rec) {
    && s.merge.NoMerge?
    && inputs != [] && Distinct(inputs)
    && inputs[0] in s.cat.files
    && (forall p :: p in inputs ==>
          LiveAt(s.cat.files, p) && p.level == inputs[0].level && s.cat.files[p].file.stream == s.cat.files[inputs[0]].file.stream)
    && kept <= Gather(s.objects, inputs)
    && first in kept
  }

  function MergedName(cfg: Config, stream: string, level: nat, first: Rec): Path {
    Path(cfg.safe(stream), level, first.seqno, first.micros, None)
  }

  /** Declares a merge's output, unless its name is taken, which refuses the merge. */
  ghost function Declaring(s: Store, inputs: seq<Path>, kept: multiset<Rec>, name: Path): Store {
    var t := s.(cat := Intend(s.cat, {name}, s.now));
    if name in s.cat.files then t else t.(merge := Merging(inputs, kept, name, s.now, false))
  }

  ghost function DoBeginMerge(cfg: Config, s: Store, inputs: seq<Path>, kept: multiset<Rec>, first: Rec): Store {
    if MayMerge(s, inputs, kept, first) then
      Declaring(s, inputs, kept, MergedName(cfg, s.cat.files[inputs[0]].file.stream, inputs[0].level + 1, first))
    else s
  }

  ghost function DoBeginRewrite(cfg: Config, s: Store, input: Path, kept: multiset<Rec>, first: Rec): Store {
    if MayMerge(s, [input], kept, first) && input.level >= 1 then
      assert input in [input];
      Declaring(s, [input], kept,
                MergedName(cfg, s.cat.files[input].file.stream, input.level, first).(rewrite := Some(s.cat.files[input].id)))
    else s
  }

  function DoWriteMerged(s: Store): Store {
    if s.merge.Merging? then s.(objects := s.objects[s.merge.name := s.merge.kept], merge := s.merge.(written := true)) else s
  }

  function Dropped(objects: map<Path, multiset<Rec>>, inputs: seq<Path>, kept: multiset<Rec>): set<Rec> {
    set r | r in Gather(objects, inputs) && r !in kept
  }

  ghost predicate MayPublish(cfg: Config, s: Store, f: File) {
    && s.merge.Merging? && s.merge.written
    && Describes(f, s.merge.name, s.merge.kept)
    && s.now <= s.merge.declared + cfg.orphanGrace
  }

  ghost function DoPublish(cfg: Config, s: Store, f: File): Store {
    if MayPublish(cfg, s, f) then
      match Replace(s.cat, [f], s.merge.inputs, s.now)
      case Err(_) => s.(merge := NoMerge)
      case Ok(c) => s.(cat := c, merge := NoMerge, discarded := s.discarded + Dropped(s.objects, s.merge.inputs, s.merge.kept))
    else s
  }

  function DoAbort(s: Store): Store {
    s.(merge := NoMerge)
  }

  /** Retires files nothing of which is kept: expiry, or a merge that downsampled everything away. */
  ghost function DoDropAll(s: Store, inputs: seq<Path>): Store {
    if s.merge.NoMerge? && Distinct(inputs) && (forall p :: p in inputs ==> LiveAt(s.cat.files, p)) then
      s.(cat := Retire(s.cat, inputs, s.now), discarded := s.discarded + Dropped(s.objects, inputs, multiset{}))
    else s
  }

  function DoList(cfg: Config, s: Store): Store {
    if s.gc.Waiting? then s.(gc := Listed(Collectable(s.cat, s.now - cfg.grace))) else s
  }

  /** A floor that could not be read counts as zero, which keeps every row. */
  ghost function DoTakeFloor(s: Store, floor: Option<nat>): Store {
    if s.gc.Listed? && (IsFloor(s.sealed, floor) || floor == Some(0)) then s.(gc := Floored(s.gc.files, floor, {})) else s
  }

  function DoRemoveObject(s: Store, p: Path): Store {
    if s.gc.Floored? && p in s.gc.files then s.(objects := s.objects - {p}, gc := s.gc.(removed := s.gc.removed + {p})) else s
  }

  function DoForgetRow(s: Store, p: Path): Store {
    if s.gc.Floored? && p in s.gc.removed && p in s.gc.files && p in s.cat.files then
      var t := s.(gc := s.gc.(files := s.gc.files - {p}));
      if p.level == 0 && s.gc.floor.Some? && s.cat.files[p].file.maxSeq >= s.gc.floor.value then t
      else t.(cat := Forget(s.cat, p))
    else s
  }

  /** The sweep settles one declaration at least OrphanGrace old, under the catalog's write lock. */
  function DoSweep(cfg: Config, s: Store, p: Path, before: int): Store {
    if before <= s.now - cfg.orphanGrace then
      var (c, remove) := Discard(s.cat, p, before);
      s.(cat := c, objects := if remove then s.objects - {p} else s.objects)
    else s
  }

  function DoRest(s: Store): Store {
    s.(gc := Waiting)
  }

  function DoTick(s: Store, elapsed: nat): Store {
    s.(now := s.now + elapsed)
  }

  function DoSnapshot(s: Store, p: Path): Store {
    if LiveAt(s.cat.files, p) && p in s.objects then s.(readers := s.readers + {Reader(s.now, p, s.objects[p])}) else s
  }

  /** The segments a crash leaves, and the records it loses. */
  function Left(s: Store, survivors: nat): map<nat, seq<Rec>>
    requires survivors <= |s.active|
  {
    if survivors == 0 then s.sealed else s.sealed[s.number := s.active[..survivors]]
  }

  function Lost(s: Store, survivors: nat): set<Rec>
    requires survivors <= |s.active|
  {
    Elements(s.active[survivors..])
  }

  predicate MayCrash(s: Store, survivors: nat) {
    s.synced <= survivors <= |s.active|
  }

  /**
   * The process dies and another opens the same directory. A prefix of the active segment
   * survives, at least what was promised; every segment on disk is to be replayed; numbering
   * continues from the highest the catalog and the segments know.
   */
  ghost function DoCrash(s: Store, survivors: nat, top: nat): Store {
    if MayCrash(s, survivors) && IsHighest(top, s.cat.maxSeq, Left(s, survivors)) then
      var left := Left(s, survivors);
      s.(sealed := left, number := s.number + 1, unflushed := left.Keys,
      seqno := top, base := top, active := [], batch := [], synced := 0,
      flush := Resting, merge := NoMerge, gc := Waiting,
      known := s.known - Lost(s, survivors))
    else s
  }

  ghost function Take(cfg: Config, s: Store, step: Step): Store {
    match step
    case Append(stream, micros, severity, accepted) => DoAppend(s, stream, micros, severity, accepted)
    case Sync(upTo) => DoSync(s, upTo)
    case Seal => DoSeal(s)
    case Retry(n) => DoRetry(s, n)
    case Declare => DoDeclare(cfg, s)
    case WriteObject(stream) => DoWrite(cfg, s, stream)
    case RegisterFile(f) => DoRegister(cfg, s, f)
    case Skip(stream) => DoSkip(s, stream)
    case GiveUp => DoGiveUp(s)
    case Finish(removed) => DoFinish(s, removed)
    case BeginMerge(inputs, kept, first) => DoBeginMerge(cfg, s, inputs, kept, first)
    case BeginRewrite(input, kept, first) => DoBeginRewrite(cfg, s, input, kept, first)
    case WriteMerged => DoWriteMerged(s)
    case Publish(f) => DoPublish(cfg, s, f)
    case AbortMerge => DoAbort(s)
    case DropAll(inputs) => DoDropAll(s, inputs)
    case List => DoList(cfg, s)
    case TakeFloor(floor) => DoTakeFloor(s, floor)
    case RemoveObject(p) => DoRemoveObject(s, p)
    case ForgetRow(p) => DoForgetRow(s, p)
    case Rest => DoRest(s)
    case Sweep(p, before) => DoSweep(cfg, s, p, before)
    case Snapshot(p) => DoSnapshot(s, p)
    case Tick(elapsed) => DoTick(s, elapsed)
    case CrashAndRecover(survivors, top) => DoCrash(s, survivors, top)
  }

  ghost function Run(cfg: Config, steps: seq<Step>): Store {
    if steps == [] then Fresh else Take(cfg, Run(cfg, steps[..|steps| - 1]), steps[|steps| - 1])
  }
}
