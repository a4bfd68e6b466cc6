/**
 * Compaction and retention: which files a pass merges, what the output holds, what it is called,
 * and why repeated passes come to rest.
 *
 * Times are in microseconds. A record's severity is the rank of its level; what it
 * holds in the clustering column is given as a rank in that column's order, or none.
 */
module Compact {
  import opened Prelude
  import opened Catalog
  import opened Store
  import StoreInvariant

  datatype Policy = Policy(deleteAfter: nat, dropRawAfter: nat, minLevelAfter: string, downsampleAfter: nat)

  datatype Options = Options(
    l1MinFiles: nat, l1After: nat, l2After: nat, maxInputFiles: nat, maxInputRows: nat,
    cluster: Option<Rec -> Option<int>>, keepRaw: bool, policy: Policy,
    rank: string -> int, safe: string -> string,
    // What the writer makes of rows: how many bytes, and which columns.
    size: (seq<Rec>, bool) -> nat, columns: seq<Rec> -> seq<Column>)

  /** The catalog and the objects it points at, rows in stored order. */
  datatype Disk = Disk(cat: Cat, objects: map<Path, seq<Rec>>)

  // ---- retention ----

  /** Old enough for downsampling, and below the level it keeps. */
  predicate Drops(o: Options, now: int, r: Rec) {
    o.policy.downsampleAfter != 0 && o.policy.minLevelAfter != "" &&
    r.micros <= now - o.policy.downsampleAfter && r.severity < o.rank(o.policy.minLevelAfter)
  }

  function Kept(o: Options, now: int, recs: seq<Rec>): seq<Rec> {
    if recs == [] then []
    else
      var n := |recs| - 1;
      Kept(o, now, recs[..n]) + if Drops(o, now, recs[n]) then [] else [recs[n]]
  }

  /** The floor a file of these records can promise: the policy's, if downsampling applied to all of them. */
  function FloorOf(o: Options, now: int, recs: seq<Rec>): string {
    if o.policy.downsampleAfter != 0 && o.policy.minLevelAfter != "" && forall r :: r in recs ==> r.micros <= now - o.policy.downsampleAfter
    then o.policy.minLevelAfter else ""
  }

  function KeepsRaw(o: Options, now: int, recs: seq<Rec>): bool {
    o.keepRaw && (o.policy.dropRawAfter == 0 || exists r :: r in recs && r.micros > now - o.policy.dropRawAfter)
  }

  lemma {:induction false} KeptOrDropped(o: Options, now: int, recs: seq<Rec>, r: Rec)
    ensures multiset(Kept(o, now, recs))[r] == if Drops(o, now, r) then 0 else multiset(recs)[r]
    decreases |recs|
  {
    if recs != [] {
      var n := |recs| - 1;
      KeptOrDropped(o, now, recs[..n], r);
      assert recs == recs[..n] + [recs[n]];
    }
  }

  /** Retention keeps precisely the records it should, as often as they came. */
  lemma KeptExactly(o: Options, now: int, recs: seq<Rec>, r: Rec)
    ensures multiset(Kept(o, now, recs))[r] ==
            if o.policy.downsampleAfter == 0 || o.policy.minLevelAfter == "" || r.micros > now - o.policy.downsampleAfter || r.severity >= o.rank(o.policy.minLevelAfter)
            then multiset(recs)[r] else 0
  {
    KeptOrDropped(o, now, recs, r);
  }

  lemma KeptCounts(o: Options, now: int, recs: seq<Rec>)
    ensures forall r :: multiset(Kept(o, now, recs))[r] ==
              if o.policy.downsampleAfter == 0 || o.policy.minLevelAfter == "" || r.micros > now - o.policy.downsampleAfter || r.severity >= o.rank(o.policy.minLevelAfter)
              then multiset(recs)[r] else 0
  {
    forall r ensures multiset(Kept(o, now, recs))[r] ==
                     if o.policy.downsampleAfter == 0 || o.policy.minLevelAfter == "" || r.micros > now - o.policy.downsampleAfter || r.severity >= o.rank(o.policy.minLevelAfter)
                     then multiset(recs)[r] else 0
    {
      KeptExactly(o, now, recs, r);
    }
  }

  lemma KeptMembers(o: Options, now: int, recs: seq<Rec>, r: Rec)
    ensures r in Kept(o, now, recs) <==> r in recs && !Drops(o, now, r)
  {
    KeptOrDropped(o, now, recs, r);
    assert r in recs <==> r in multiset(recs);
    assert r in Kept(o, now, recs) <==> r in multiset(Kept(o, now, recs));
  }

  /** A floor is never promised falsely. */
  lemma FloorIsTruthful(o: Options, now: int, recs: seq<Rec>)
    ensures FloorOf(o, now, recs) != "" ==> forall r :: r in Kept(o, now, recs) ==> r.severity >= o.rank(FloorOf(o, now, recs))
  {
    forall r | r in Kept(o, now, recs) && FloorOf(o, now, recs) != ""
      ensures r.severity >= o.rank(FloorOf(o, now, recs))
    {
      KeptMembers(o, now, recs, r);
    }
  }

  // ---- order ----

  /** The order rows are stored in: the clustering column, nothing last, then time, then number. */
  predicate Before(o: Options, clustered: bool, a: Rec, b: Rec) {
    if clustered && o.cluster.Some? && o.cluster.value(a) != o.cluster.value(b) then
      o.cluster.value(b).None? || (o.cluster.value(a).Some? && o.cluster.value(a).value < o.cluster.value(b).value)
    else if a.micros != b.micros then a.micros < b.micros
    else a.seqno < b.seqno
  }

  /** A stable sort: each record goes after those not after it. */
  function Place(o: Options, clustered: bool, recs: seq<Rec>, r: Rec): seq<Rec> {
    if recs == [] || !Before(o, clustered, r, recs[|recs| - 1]) then recs + [r]
    else Place(o, clustered, recs[..|recs| - 1], r) + [recs[|recs| - 1]]
  }

  function Ordered(o: Options, clustered: bool, recs: seq<Rec>): seq<Rec> {
    if recs == [] then [] else Place(o, clustered, Ordered(o, clustered, recs[..|recs| - 1]), recs[|recs| - 1])
  }

  ghost predicate InOrder(o: Options, clustered: bool, recs: seq<Rec>) {
    forall i, j :: 0 <= i < j < |recs| ==> !Before(o, clustered, recs[j], recs[i])
  }

  /**
   * What the order is: where rows are clustered, by the column's value, rows without one last; and among rows that
   * are not, or have the same value, the earlier before the later, and the lower number first at one time.
   */
  lemma EarlierFirst(o: Options, clustered: bool, recs: seq<Rec>, i: nat, j: nat)
    requires i < j < |recs|
    ensures var rows := Ordered(o, clustered, recs);
            |rows| == |recs| &&
            var a, b := rows[i], rows[j];
            var unclustered := !clustered || o.cluster.None?;
            && (unclustered || o.cluster.value(a) == o.cluster.value(b) ==> a.micros < b.micros || (a.micros == b.micros && a.seqno <= b.seqno))
            && (!unclustered && o.cluster.value(b).Some? ==> o.cluster.value(a).Some? && o.cluster.value(a).value <= o.cluster.value(b).value)
  {
    OrderedIsSorted(o, clustered, recs);
    assert |multiset(Ordered(o, clustered, recs))| == |multiset(recs)|;
  }

  /** Records with one number are one record. */
  ghost predicate Numbered(recs: seq<Rec>) {
    forall i, j :: 0 <= i < |recs| && 0 <= j < |recs| && recs[i].seqno == recs[j].seqno ==> recs[i] == recs[j]
  }

  lemma {:induction false} PlaceKeeps(o: Options, clustered: bool, recs: seq<Rec>, r: Rec)
    ensures multiset(Place(o, clustered, recs, r)) == multiset(recs) + multiset{r}
    ensures |Place(o, clustered, recs, r)| == |recs| + 1
    decreases |recs|
  {
    if recs != [] {
      var n := |recs| - 1;
      PlaceKeeps(o, clustered, recs[..n], r);
      assert recs == recs[..n] + [recs[n]];
    }
  }

  lemma PlaceMember(o: Options, clustered: bool, recs: seq<Rec>, r: Rec, i: nat)
    requires i < |Place(o, clustered, recs, r)|
    ensures Place(o, clustered, recs, r)[i] == r || Place(o, clustered, recs, r)[i] in recs
  {
    PlaceKeeps(o, clustered, recs, r);
    assert Place(o, clustered, recs, r)[i] in multiset(Place(o, clustered, recs, r));
  }

  lemma {:induction false} PlaceInOrder(o: Options, clustered: bool, recs: seq<Rec>, r: Rec)
    requires InOrder(o, clustered, recs)
    ensures InOrder(o, clustered, Place(o, clustered, recs, r))
    decreases |recs|
  {
    if recs != [] && Before(o, clustered, r, recs[|recs| - 1]) {
      var n := |recs| - 1;
      PlaceInOrder(o, clustered, recs[..n], r);
      var front := Place(o, clustered, recs[..n], r);
      forall i | 0 <= i < |front|
        ensures !Before(o, clustered, recs[n], front[i])
      {
        PlaceMember(o, clustered, recs[..n], r, i);
        if front[i] != r {
          var k :| 0 <= k < n && recs[k] == front[i];
        }
      }
    } else if recs != [] {
      PlaceLast(o, clustered, recs, r);
    }
  }

  lemma PlaceLast(o: Options, clustered: bool, recs: seq<Rec>, r: Rec)
    requires InOrder(o, clustered, recs) && recs != [] && !Before(o, clustered, r, recs[|recs| - 1])
    ensures InOrder(o, clustered, recs + [r])
  {
    forall i | 0 <= i < |recs|
      ensures !Before(o, clustered, r, recs[i])
    {
      assert i < |recs| - 1 ==> !Before(o, clustered, recs[|recs| - 1], recs[i]);
    }
  }

  lemma {:induction false} OrderedIsSorted(o: Options, clustered: bool, recs: seq<Rec>)
    ensures InOrder(o, clustered, Ordered(o, clustered, recs)) && multiset(Ordered(o, clustered, recs)) == multiset(recs)
    ensures |Ordered(o, clustered, recs)| == |recs|
    decreases |recs|
  {
    if recs != [] {
      var n := |recs| - 1;
      OrderedIsSorted(o, clustered, recs[..n]);
      PlaceInOrder(o, clustered, Ordered(o, clustered, recs[..n]), recs[n]);
      PlaceKeeps(o, clustered, Ordered(o, clustered, recs[..n]), recs[n]);
      assert recs == recs[..n] + [recs[n]];
    }
  }

  lemma FirstIsFirst(o: Options, clustered: bool, a: seq<Rec>, b: seq<Rec>)
    requires InOrder(o, clustered, a) && InOrder(o, clustered, b) && multiset(a) == multiset(b) && a != [] && b != []
    requires Numbered(a)
    ensures a[0] == b[0]
  {
    assert a[0] in multiset(b) && b[0] in multiset(a);
    var i :| 0 <= i < |a| && a[i] == b[0];
    var j :| 0 <= j < |b| && b[j] == a[0];
    assert i != 0 ==> !Before(o, clustered, b[0], a[0]);
    assert j != 0 ==> !Before(o, clustered, a[0], b[0]);
  }

  lemma WithoutFirst(o: Options, clustered: bool, a: seq<Rec>)
    requires InOrder(o, clustered, a) && a != []
    ensures InOrder(o, clustered, a[1..]) && multiset(a[1..]) == multiset(a) - multiset{a[0]}
    ensures Numbered(a) ==> Numbered(a[1..])
  {
    assert a == [a[0]] + a[1..];
  }

  /** Of records with different numbers, sorted means one list. */
  lemma {:induction false} SortedIsUnique(o: Options, clustered: bool, a: seq<Rec>, b: seq<Rec>)
    requires InOrder(o, clustered, a) && InOrder(o, clustered, b) && multiset(a) == multiset(b)
    requires Numbered(a)
    ensures a == b
    decreases |a|
  {
    assert |a| == |multiset(a)| == |multiset(b)| == |b|;
    if a != [] {
      FirstIsFirst(o, clustered, a, b);
      WithoutFirst(o, clustered, a);
      WithoutFirst(o, clustered, b);
      SortedIsUnique(o, clustered, a[1..], b[1..]);
    }
  }

  lemma SameNumbers(a: seq<Rec>, b: seq<Rec>)
    requires multiset(a) == multiset(b) && Numbered(a)
    ensures Numbered(b)
  {
    forall i, j | 0 <= i < |b| && 0 <= j < |b| && b[i].seqno == b[j].seqno
      ensures b[i] == b[j]
    {
      assert b[i] in multiset(a) && b[j] in multiset(a);
    }
  }

  /** However its inputs are read, a merge stores the same rows in the same order, and so has the same name. */
  lemma OrderForgetsInput(o: Options, clustered: bool, a: seq<Rec>, b: seq<Rec>)
    requires multiset(a) == multiset(b) && Numbered(a)
    ensures Ordered(o, clustered, a) == Ordered(o, clustered, b)
  {
    OrderedIsSorted(o, clustered, a);
    OrderedIsSorted(o, clustered, b);
    SameNumbers(a, Ordered(o, clustered, a));
    SortedIsUnique(o, clustered, Ordered(o, clustered, a), Ordered(o, clustered, b));
  }

  // ---- one merge ----

  /** Files in turn, until the rows so far are more than a merge should read. */
  function Select(files: seq<File>, limit: nat, rows: nat): seq<File> {
    if files == [] || rows > limit then [] else [files[0]] + Select(files[1..], limit, rows + files[0].rows)
  }

  /** The files of a group that one merge takes. */
  function Chosen(o: Options, group: seq<File>): seq<File> {
    Select(if |group| > o.maxInputFiles then group[..o.maxInputFiles] else group, o.maxInputRows, 0)
  }

  lemma {:induction false} SelectIsPrefix(files: seq<File>, limit: nat, rows: nat)
    ensures Select(files, limit, rows) <= files
  {
    if files != [] && rows <= limit {
      SelectIsPrefix(files[1..], limit, rows + files[0].rows);
      assert files == [files[0]] + files[1..];
    }
  }

  lemma ChosenIsPrefix(o: Options, group: seq<File>)
    ensures Chosen(o, group) <= group && |Chosen(o, group)| <= o.maxInputFiles
    ensures group != [] && o.maxInputFiles > 0 ==> Chosen(o, group) != []
  {
    var files := if |group| > o.maxInputFiles then group[..o.maxInputFiles] else group;
    SelectIsPrefix(files, o.maxInputRows, 0);
    assert files <= group;
  }

  function RowsIn(files: seq<File>): nat {
    if files == [] then 0 else files[0].rows + RowsIn(files[1..])
  }

  lemma {:induction false} SelectFills(files: seq<File>, limit: nat, rows: nat)
    ensures var taken := Select(files, limit, rows);
            && (taken != [] ==> rows + RowsIn(taken[..|taken| - 1]) <= limit)
            && (|taken| < |files| ==> rows + RowsIn(taken) > limit)
  {
    if files != [] && rows <= limit {
      SelectFills(files[1..], limit, rows + files[0].rows);
      var rest := Select(files[1..], limit, rows + files[0].rows);
      var taken := [files[0]] + rest;
      assert taken[1..] == rest;
      if rest != [] {
        assert taken[..|taken| - 1] == [files[0]] + rest[..|rest| - 1];
        assert taken[..|taken| - 1][1..] == rest[..|rest| - 1];
      }
    }
  }

  /** A merge takes files in turn: never more than it may, none once their rows are more than it should read, and none left out before that. */
  lemma ChosenFills(o: Options, group: seq<File>)
    ensures var taken := Chosen(o, group);
            && taken <= group && |taken| <= o.maxInputFiles
            && (taken != [] ==> RowsIn(taken[..|taken| - 1]) <= o.maxInputRows)
            && (|taken| < |group| ==> |taken| == o.maxInputFiles || RowsIn(taken) > o.maxInputRows)
  {
    ChosenIsPrefix(o, group);
    SelectFills(if |group| > o.maxInputFiles then group[..o.maxInputFiles] else group, o.maxInputRows, 0);
  }

  function Paths(files: seq<File>): (paths: seq<Path>)
    ensures |paths| == |files| && forall i :: 0 <= i < |files| ==> paths[i] == files[i].path
  {
    if files == [] then [] else Paths(files[..|files| - 1]) + [files[|files| - 1].path]
  }

  predicate Readable(objects: map<Path, seq<Rec>>, files: seq<File>) {
    forall f :: f in files ==> f.path in objects
  }

  function Holding(objects: map<Path, seq<Rec>>, f: File): seq<Rec> {
    if f.path in objects then objects[f.path] else []
  }

  function Contents(objects: map<Path, seq<Rec>>, files: seq<File>): seq<Rec> {
    if files == [] then [] else Contents(objects, files[..|files| - 1]) + Holding(objects, files[|files| - 1])
  }

  /** What a merge of a group stores: its files' records, less what retention drops, in order. */
  function RowsOf(o: Options, now: int, d: Disk, group: seq<File>, level: nat): seq<Rec> {
    Ordered(o, level == 2, Kept(o, now, Contents(d.objects, Chosen(o, group))))
  }

  /** Named after the first row; a rewrite, one file to one at its own level, also after the file it replaces. */
  function OutputName(o: Options, cat: Cat, stream: string, level: nat, first: Rec, inputs: seq<File>): Path {
    Path(o.safe(stream), level, first.seqno, first.micros,
         if |inputs| == 1 && inputs[0].level == level && inputs[0].path in cat.files then Some(cat.files[inputs[0].path].id) else None)
  }

  /** The file a merge writes, unless nothing is left to write. */
  function Output(o: Options, now: int, d: Disk, group: seq<File>, stream: string, level: nat): Option<File> {
    var rows := RowsOf(o, now, d, group, level);
    if rows == [] then None
    else
      var raw := KeepsRaw(o, now, rows);
      Some(File(OutputName(o, d.cat, stream, level, rows[0], Chosen(o, group)), stream, level, Oldest(rows), Newest(rows), Low(rows), High(rows),
                |rows|, o.size(rows, raw), raw, FloorOf(o, now, Contents(d.objects, Chosen(o, group))), o.columns(rows)))
  }

  datatype Failure = Unreadable | Taken(name: Path)

  /** Declares, writes and publishes the output, and retires what it replaces. */
  function Published(d: Disk, f: File, rows: seq<Rec>, inputs: seq<Path>, now: int): Result<Disk, Failure> {
    if f.path in d.cat.files then Err(Taken(f.path))
    else
      match Replace(Intend(d.cat, {f.path}, now), [f], inputs, now)
      case Ok(c) => Ok(Disk(c, d.objects[f.path := rows]))
      case Err(e) => Err(Taken(e.path))
  }

  /** Reads what the group's first files hold, drops what retention says, and replaces those files by one that holds the rest. */
  function Merged(o: Options, now: int, d: Disk, group: seq<File>, stream: string, level: nat): Result<Disk, Failure> {
    var inputs := Chosen(o, group);
    if inputs == [] then Ok(d)
    else if !Readable(d.objects, inputs) then Err(Unreadable)
    else
      match Output(o, now, d, group, stream, level)
      case None => Ok(d.(cat := Retire(d.cat, Paths(inputs), now)))
      case Some(f) => Published(d, f, RowsOf(o, now, d, group, level), Paths(inputs), now)
  }

  lemma MergedIs(o: Options, now: int, d: Disk, group: seq<File>, stream: string, level: nat)
    requires Chosen(o, group) != [] && Readable(d.objects, Chosen(o, group))
    ensures Merged(o, now, d, group, stream, level) ==
            match Output(o, now, d, group, stream, level)
            case None => Ok(d.(cat := Retire(d.cat, Paths(Chosen(o, group)), now)))
            case Some(f) => Published(d, f, RowsOf(o, now, d, group, level), Paths(Chosen(o, group)), now)
  {
  }

  // ---- what is due ----

  function Aged(f: File, now: int, after: nat): bool {
    f.maxTs < now - after
  }

  /** Whether a policy has caught up with a whole file. */
  predicate Due(o: Options, now: int, f: File) {
    || (f.hasRaw && o.policy.dropRawAfter != 0 && Aged(f, now, o.policy.dropRawAfter))
    || (o.policy.downsampleAfter != 0 && o.policy.minLevelAfter != "" && Aged(f, now, o.policy.downsampleAfter)
        && (f.levelFloor == "" || o.rank(f.levelFloor) < o.rank(o.policy.minLevelAfter)))
  }

  /**
   * A file that is not due has nothing to lose: once all of it is past a horizon its lines are gone, and, if its floor is
   * true, every record left reaches the least level kept. And a file is due only if all of it is past a horizon.
   */
  lemma DueMeans(o: Options, now: int, f: File, recs: seq<Rec>)
    requires forall r <- recs :: r.micros <= f.maxTs && (f.levelFloor != "" ==> r.severity >= o.rank(f.levelFloor))
    ensures !Due(o, now, f) && o.policy.dropRawAfter != 0 && f.maxTs < now - o.policy.dropRawAfter ==> !f.hasRaw
    ensures !Due(o, now, f) && o.policy.downsampleAfter != 0 && o.policy.minLevelAfter != "" && f.maxTs < now - o.policy.downsampleAfter ==>
              forall r <- recs :: r.severity >= o.rank(o.policy.minLevelAfter)
    ensures Due(o, now, f) ==>
              || (o.policy.dropRawAfter != 0 && forall r <- recs :: r.micros < now - o.policy.dropRawAfter)
              || (o.policy.downsampleAfter != 0 && forall r <- recs :: r.micros < now - o.policy.downsampleAfter)
  {
  }

  /** The rows of a merge are what retention keeps, in order. */
  lemma RowsAreKept(o: Options, now: int, d: Disk, group: seq<File>, level: nat)
    ensures var read, rows := Contents(d.objects, Chosen(o, group)), RowsOf(o, now, d, group, level);
            && InOrder(o, level == 2, rows) && multiset(rows) == multiset(Kept(o, now, read))
            && forall r :: r in rows <==> r in read && !Drops(o, now, r)
  {
    var read, rows := Contents(d.objects, Chosen(o, group)), RowsOf(o, now, d, group, level);
    OrderedIsSorted(o, level == 2, Kept(o, now, read));
    forall r
      ensures r in rows <==> r in read && !Drops(o, now, r)
    {
      KeptMembers(o, now, read, r);
      assert r in rows <==> r in multiset(rows);
      assert r in Kept(o, now, read) <==> r in multiset(Kept(o, now, read));
    }
  }

  /** What is written never is due: each condition is one the rewrite clears. */
  lemma OutputIsNotDue(o: Options, now: int, d: Disk, group: seq<File>, stream: string, level: nat)
    ensures var out := Output(o, now, d, group, stream, level); out.Some? ==> !Due(o, now, out.value)
  {
    RowsAreKept(o, now, d, group, level);
    if RowsOf(o, now, d, group, level) != [] {
      InRange(RowsOf(o, now, d, group, level));
    }
  }

  // ---- what a merge does to the files ----

  /** Rows say where their files are, and at which level. */
  ghost predicate InShape(files: map<Path, Row>) {
    forall p :: p in files ==> files[p].file.path == p && files[p].file.level == p.level
  }

  /** These files are live, as described, at one level. */
  ghost predicate LiveFiles(files: map<Path, Row>, group: seq<File>, level: nat) {
    forall i :: 0 <= i < |group| ==> LiveAt(files, group[i].path) && files[group[i].path].file == group[i] && group[i].level == level
  }

  lemma ReplaceOne(c: Cat, f: File, inputs: seq<Path>, now: int)
    requires f.path !in c.files && f.path.level >= 1 && f.level == f.path.level && forall p :: p in inputs ==> LiveAt(c.files, p)
    ensures var after := Replace(Intend(c, {f.path}, now), [f], inputs, now);
            after.Ok? && StoreInvariant.Refiled(c.files, after.value.files, inputs, Some(Row(c.nextId, f, Live)), now)
  {
    var d := Intend(c, {f.path}, now);
    assert InsertAll(d, [f][..0]) == Ok(d);
    RetireFiles(Insert(d, f, false).0, inputs, now);
  }

  lemma RetireSome(c: Cat, inputs: seq<Path>, now: int)
    requires forall p :: p in inputs ==> LiveAt(c.files, p)
    ensures StoreInvariant.Refiled(c.files, Retire(c, inputs, now).files, inputs, None, now)
  {
    RetireFiles(c, inputs, now);
  }

  /** The row a merge adds, if it keeps anything. */
  function Added(o: Options, now: int, d: Disk, group: seq<File>, stream: string, level: nat): Option<Row> {
    match Output(o, now, d, group, stream, level)
    case None => None
    case Some(f) => Some(Row(d.cat.nextId, f, Live))
  }

  lemma ChosenLive(o: Options, files: map<Path, Row>, group: seq<File>, level: nat)
    requires LiveFiles(files, group, level)
    ensures LiveFiles(files, Chosen(o, group), level)
    ensures forall p :: p in Paths(Chosen(o, group)) ==> LiveAt(files, p) && files[p].file.level == level
  {
    ChosenIsPrefix(o, group);
    forall i | 0 <= i < |Chosen(o, group)|
      ensures Chosen(o, group)[i] == group[i]
    {
    }
  }

  /** A merge that succeeds retires exactly the files it chose, and adds at most one, which is not due. */
  lemma MergeRefiles(o: Options, now: int, d: Disk, group: seq<File>, stream: string, from: nat, level: nat)
    requires LiveFiles(d.cat.files, group, from) && level >= 1
    requires Merged(o, now, d, group, stream, level).Ok? && Chosen(o, group) != []
    ensures var out := Added(o, now, d, group, stream, level);
            && StoreInvariant.Refiled(d.cat.files, Merged(o, now, d, group, stream, level).value.cat.files, Paths(Chosen(o, group)), out, now)
            && (out.Some? ==> out.value.file.level == level && !Due(o, now, out.value.file))
  {
    var inputs, out := Paths(Chosen(o, group)), Output(o, now, d, group, stream, level);
    ChosenLive(o, d.cat.files, group, from);
    OutputIsNotDue(o, now, d, group, stream, level);
    if out.None? {
      RetireSome(d.cat, inputs, now);
    } else if out.value.path !in d.cat.files {
      ReplaceOne(d.cat, out.value, inputs, now);
    }
  }

  // ---- the measure ----

  ghost function At(files: map<Path, Row>, level: nat): set<Path> {
    set p | p in files && LiveAt(files, p) && files[p].file.level == level
  }

  ghost function DueAt(o: Options, now: int, files: map<Path, Row>): set<Path> {
    set p | p in files && LiveAt(files, p) && files[p].file.level == 2 && Due(o, now, files[p].file)
  }

  ghost function AllLive(files: map<Path, Row>): set<Path> {
    set p | p in files && LiveAt(files, p)
  }

  datatype Measure = Measure(l0: nat, l1: nat, due: nat, live: nat)

  ghost predicate Less(a: Measure, b: Measure) {
    || a.l0 < b.l0
    || (a.l0 == b.l0 && a.l1 < b.l1)
    || (a.l0 == b.l0 && a.l1 == b.l1 && a.due < b.due)
    || (a.l0 == b.l0 && a.l1 == b.l1 && a.due == b.due && a.live < b.live)
  }

  ghost function MeasureOf(o: Options, now: int, files: map<Path, Row>): Measure {
    Measure(|At(files, 0)|, |At(files, 1)|, |DueAt(o, now, files)|, |AllLive(files)|)
  }

  lemma Fewer<T>(a: set<T>, b: set<T>)
    requires a <= b
    ensures |a| <= |b| && (a != b ==> |a| < |b|)
  {
    assert b == a + (b - a);
  }

  /** Every merge makes the measure smaller: it empties the level it takes from, or a file of the last level is due no more. */
  lemma MergeShrinks(o: Options, now: int, files: map<Path, Row>, after: map<Path, Row>, inputs: seq<Path>, out: Option<Row>, from: nat, level: nat)
    requires StoreInvariant.Refiled(files, after, inputs, out, now) && inputs != []
    requires forall p :: p in inputs ==> files[p].file.level == from
    requires out.Some? ==> out.value.file.level == level && !Due(o, now, out.value.file)
    requires (from == 0 && level == 1) || (from == 1 && level == 2) || (from == 2 && level == 2 && forall p :: p in inputs ==> Due(o, now, files[p].file))
    ensures Less(MeasureOf(o, now, after), MeasureOf(o, now, files))
  {
    assert inputs[0] in inputs;
    if from == 0 {
      assert inputs[0] in At(files, 0) && inputs[0] !in At(after, 0);
      Fewer(At(after, 0), At(files, 0));
    } else {
      assert At(after, 0) == At(files, 0);
      if from == 1 {
        assert inputs[0] in At(files, 1) && inputs[0] !in At(after, 1);
        Fewer(At(after, 1), At(files, 1));
      } else {
        assert At(after, 1) == At(files, 1);
        assert inputs[0] in DueAt(o, now, files) && inputs[0] !in DueAt(o, now, after);
        Fewer(DueAt(o, now, after), DueAt(o, now, files));
      }
    }
  }

  lemma ExpireShrinks(o: Options, now: int, files: map<Path, Row>, after: map<Path, Row>, inputs: seq<Path>)
    requires StoreInvariant.Refiled(files, after, inputs, None, now) && inputs != []
    ensures Less(MeasureOf(o, now, after), MeasureOf(o, now, files))
  {
    assert inputs[0] in inputs;
    assert inputs[0] in AllLive(files) && inputs[0] !in AllLive(after);
    Fewer(At(after, 0), At(files, 0));
    Fewer(At(after, 1), At(files, 1));
    Fewer(DueAt(o, now, after), DueAt(o, now, files));
    Fewer(AllLive(after), AllLive(files));
  }

  // ---- grouping ----

  datatype Bucket = Bucket(stream: string, key: int, files: seq<File>)

  const Hour := 3_600_000_000
  const Day := 24 * Hour

  function Period(level: nat): (period: int)
    ensures period > 0
  {
    if level == 1 then Day else Hour
  }

  /** A file groups with the period its oldest record belongs to; division rounds down, for times before the epoch too. */
  function KeyOf(f: File, level: nat): (string, int) {
    (f.stream, f.minTs / Period(level))
  }

  function InBucket(files: seq<File>, level: nat, key: (string, int)): seq<File> {
    if files == [] then []
    else
      var n := |files| - 1;
      InBucket(files[..n], level, key) + if KeyOf(files[n], level) == key then [files[n]] else []
  }

  /** The keys of some files, in order of first appearance. */
  function Keys(files: seq<File>, level: nat): seq<(string, int)> {
    if files == [] then []
    else
      var n := |files| - 1;
      Keys(files[..n], level) + if KeyOf(files[n], level) in Keys(files[..n], level) then [] else [KeyOf(files[n], level)]
  }

  function BucketOf(files: seq<File>, level: nat, key: (string, int)): Bucket {
    Bucket(key.0, key.1, InBucket(files, level, key))
  }

  function Buckets(files: seq<File>, level: nat): seq<Bucket> {
    var keys := Keys(files, level);
    seq(|keys|, i requires 0 <= i < |keys| => BucketOf(files, level, keys[i]))
  }

  lemma {:induction false} KeysOnce(files: seq<File>, level: nat)
    ensures forall i, j :: 0 <= i < j < |Keys(files, level)| ==> Keys(files, level)[i] != Keys(files, level)[j]
    decreases |files|
  {
    if files != [] {
      KeysOnce(files[..|files| - 1], level);
    }
  }

  lemma {:induction false} BucketHas(files: seq<File>, level: nat, key: (string, int), f: File)
    ensures f in InBucket(files, level, key) <==> f in files && KeyOf(f, level) == key
    decreases |files|
  {
    if files != [] {
      var n := |files| - 1;
      BucketHas(files[..n], level, key, f);
      assert files == files[..n] + [files[n]];
    }
  }

  lemma {:induction false} EveryKey(files: seq<File>, level: nat, f: File)
    requires f in files
    ensures KeyOf(f, level) in Keys(files, level)
    decreases |files|
  {
    var n := |files| - 1;
    assert files == files[..n] + [files[n]];
    if f != files[n] {
      EveryKey(files[..n], level, f);
    }
  }

  /** Every file is in one bucket: its own stream's, for its own period. */
  lemma BucketsPartition(files: seq<File>, level: nat, f: File)
    requires f in files
    ensures exists i :: 0 <= i < |Buckets(files, level)| && f in Buckets(files, level)[i].files
    ensures forall i, j | 0 <= i < |Buckets(files, level)| && 0 <= j < |Buckets(files, level)| ::
              f in Buckets(files, level)[i].files && f in Buckets(files, level)[j].files ==> i == j
  {
    var keys := Keys(files, level);
    EveryKey(files, level, f);
    var i :| 0 <= i < |keys| && keys[i] == KeyOf(f, level);
    BucketHas(files, level, keys[i], f);
    assert f in Buckets(files, level)[i].files;
    forall j | 0 <= j < |keys| && f in Buckets(files, level)[j].files
      ensures j == i
    {
      BucketHas(files, level, keys[j], f);
      KeysOnce(files, level);
    }
  }

  /** Files are in one bucket exactly if they are of one stream and their oldest records fall in one hour, or one day at level one. */
  lemma TogetherIff(files: seq<File>, level: nat, f: File, g: File)
    requires f in files && g in files
    ensures var period := if level == 1 then 86_400_000_000 else 3_600_000_000;
            (exists i :: 0 <= i < |Buckets(files, level)| && f in Buckets(files, level)[i].files && g in Buckets(files, level)[i].files) <==>
            f.stream == g.stream && exists k: int :: Within(k, period, f.minTs) && Within(k, period, g.minTs)
  {
    var keys, period := Keys(files, level), Period(level);
    BucketsPartition(files, level, f);
    var i :| 0 <= i < |Buckets(files, level)| && f in Buckets(files, level)[i].files;
    BucketHas(files, level, keys[i], f);
    BucketHas(files, level, keys[i], g);
    InPeriod(f.minTs, period);
    InPeriod(g.minTs, period);
    if k :| Within(k, period, f.minTs) && Within(k, period, g.minTs) {
      OnePeriod(f.minTs, period, k);
      OnePeriod(g.minTs, period, k);
    }
    if j :| 0 <= j < |Buckets(files, level)| && f in Buckets(files, level)[j].files && g in Buckets(files, level)[j].files {
      assert j == i;
    }
  }

  /** A moment in the k-th period since the epoch. */
  predicate Within(k: int, period: int, at: int) {
    k * period <= at < k * period + period
  }

  lemma InPeriod(at: int, period: int)
    requires period > 0
    ensures Within(at / period, period, at)
  {
  }

  lemma OnePeriod(at: int, period: int, k: int)
    requires period > 0 && Within(k, period, at)
    ensures at / period == k
  {
    var d := at / period - k;
    InPeriod(at, period);
    assert d * period == at / period * period - k * period;
    Multiple(d, period);
  }

  lemma Multiple(d: int, period: int)
    requires period > 0
    ensures d >= 1 ==> d * period >= period
    ensures d <= -1 ==> d * period <= -period
  {
    if d >= 1 {
      assert d * period == period + (d - 1) * period;
    } else if d <= -1 {
      assert d * period == -period + (d + 1) * period;
    }
  }

  /** Two buckets share no file. */
  lemma BucketsApart(files: seq<File>, level: nat, i: nat, j: nat, f: File)
    requires i < |Buckets(files, level)| && j < |Buckets(files, level)| && i != j
    requires f in Buckets(files, level)[i].files
    ensures f in files && f.stream == Buckets(files, level)[i].stream && f !in Buckets(files, level)[j].files
  {
    var keys := Keys(files, level);
    BucketHas(files, level, keys[i], f);
    BucketHas(files, level, keys[j], f);
    KeysOnce(files, level);
  }

  /** The newest record among some files. */
  function Latest(files: seq<File>): int
    requires files != []
  {
    var n := |files| - 1;
    if n == 0 || files[n].maxTs > Latest(files[..n]) then files[n].maxTs else Latest(files[..n])
  }

  /** Enough files to be worth a merge, or old enough that more will not come. */
  predicate Eligible(o: Options, now: int, files: seq<File>, level: nat) {
    files != [] &&
    var aged := now - Latest(files) > if level == 1 then o.l2After else o.l1After;
    if level == 0 then |files| >= o.l1MinFiles || aged else aged
  }

  lemma {:induction false} LatestIsMost(files: seq<File>)
    requires files != []
    ensures (exists f :: f in files && f.maxTs == Latest(files)) && forall f :: f in files ==> f.maxTs <= Latest(files)
    decreases |files|
  {
    var n := |files| - 1;
    assert files == files[..n] + [files[n]];
    if n > 0 {
      LatestIsMost(files[..n]);
    }
  }

  /** When a group is worth a merge: all its files old enough, or at level zero, enough of them. */
  lemma EligibleIff(o: Options, now: int, files: seq<File>, level: nat)
    ensures Eligible(o, now, files, level) <==>
            && files != []
            && ((level == 0 && |files| >= o.l1MinFiles) || forall f :: f in files ==> f.maxTs < now - if level == 1 then o.l2After else o.l1After)
  {
    if files != [] {
      LatestIsMost(files);
    }
  }

  // ---- files a pass still has before it ----

  ghost predicate Apart(files: seq<File>) {
    forall i, j :: 0 <= i < j < |files| ==> files[i].path != files[j].path
  }

  ghost predicate Lists(files: seq<File>, p: Path) {
    exists i :: 0 <= i < |files| && files[i].path == p
  }

  /** The live files of a level, but for the paths left. */
  ghost predicate Listing(files: map<Path, Row>, group: seq<File>, left: set<Path>, level: nat) {
    && LiveFiles(files, group, level) && Apart(group)
    && (forall i :: 0 <= i < |group| ==> group[i].path !in left)
    && forall p :: LiveAt(files, p) && files[p].file.level == level && p !in left ==> Lists(group, p)
  }

  lemma ListNext(files: map<Path, Row>, group: seq<File>, left: set<Path>, level: nat, p: Path)
    requires Listing(files, group, left, level) && p in left && p in files && InShape(files)
    ensures var more := if LiveAt(files, p) && files[p].file.level == level then group + [files[p].file] else group;
            Listing(files, more, left - {p}, level)
  {
    if LiveAt(files, p) && files[p].file.level == level {
      ListMore(group, files[p].file);
    }
  }

  lemma ListMore(files: seq<File>, f: File)
    ensures Lists(files + [f], f.path) && forall p :: Lists(files, p) ==> Lists(files + [f], p)
  {
    assert (files + [f])[|files|] == f;
    forall p | Lists(files, p)
      ensures Lists(files + [f], p)
    {
      var i :| 0 <= i < |files| && files[i].path == p;
      assert (files + [f])[i] == files[i];
    }
  }

  // ---- a pass, and what it leaves ----

  /** All the live files of a level, in some order. */
  ghost predicate IsListing(files: map<Path, Row>, listed: seq<File>, level: nat) {
    && LiveFiles(files, listed, level) && Apart(listed)
    && forall p :: LiveAt(files, p) && files[p].file.level == level ==> Lists(listed, p)
  }

  /** A merge that fails leaves everything as it was. */
  function Attempted(o: Options, now: int, d: Disk, group: seq<File>, stream: string, level: nat): Disk {
    match Merged(o, now, d, group, stream, level)
    case Ok(after) => after
    case Err(_) => d
  }

  /** Nothing to merge, or nothing that can be. */
  ghost predicate Stuck(o: Options, now: int, d: Disk, group: seq<File>, stream: string, level: nat) {
    Merged(o, now, d, group, stream, level).Err? || Chosen(o, group) == []
  }

  /** A merge that a pass considers, and whether it is worth it. */
  datatype Job = Job(files: seq<File>, stream: string, level: nat, wanted: bool)

  function BucketJobs(o: Options, now: int, groups: seq<Bucket>, level: nat): seq<Job> {
    seq(|groups|, i requires 0 <= i < |groups| => BucketJob(o, now, groups[i], level))
  }

  function BucketJob(o: Options, now: int, group: Bucket, level: nat): Job {
    Job(group.files, group.stream, level + 1, Eligible(o, now, group.files, level))
  }

  function FileJobs(o: Options, now: int, files: seq<File>): seq<Job> {
    seq(|files|, i requires 0 <= i < |files| => FileJob(o, now, files[i]))
  }

  function FileJob(o: Options, now: int, f: File): Job {
    Job([f], f.stream, 2, Due(o, now, f))
  }

  /** What one merge comes to: nothing if it is not wanted. */
  function Done(o: Options, now: int, d: Disk, job: Job): Disk {
    if job.wanted then Attempted(o, now, d, job.files, job.stream, job.level) else d
  }

  /** Every merge that is wanted, one after the other. */
  function AllDone(o: Options, now: int, d: Disk, jobs: seq<Job>): Disk {
    if jobs == [] then d else Done(o, now, AllDone(o, now, d, jobs[..|jobs| - 1]), jobs[|jobs| - 1])
  }

  ghost predicate IsStuck(o: Options, now: int, d: Disk, job: Job) {
    job.wanted ==> Stuck(o, now, d, job.files, job.stream, job.level)
  }

  ghost predicate AllStuck(o: Options, now: int, d: Disk, jobs: seq<Job>) {
    forall job <- jobs :: IsStuck(o, now, d, job)
  }

  /** Some way through the merges of a pass over one level. */
  ghost predicate Underway(o: Options, now: int, before: Disk, d: Disk, jobs: seq<Job>, merged: nat) {
    && d == AllDone(o, now, before, jobs)
    && (merged > 0 ==> Less(MeasureOf(o, now, d.cat.files), MeasureOf(o, now, before.cat.files)))
    && (merged == 0 ==> d == before && AllStuck(o, now, before, jobs))
  }

  lemma LessLess(a: Measure, b: Measure, c: Measure)
    requires Less(a, b) && Less(b, c)
    ensures Less(a, c)
  {
  }

  lemma UnderwayNext(o: Options, now: int, before: Disk, d: Disk, after: Disk, jobs: seq<Job>, i: nat, merged: nat, done: bool)
    requires i < |jobs| && Underway(o, now, before, d, jobs[..i], merged) && after == Done(o, now, d, jobs[i])
    requires if done then Less(MeasureOf(o, now, after.cat.files), MeasureOf(o, now, d.cat.files)) else after == d && IsStuck(o, now, d, jobs[i])
    ensures Underway(o, now, before, after, jobs[..i + 1], if done then merged + 1 else merged)
  {
    assert jobs[..i + 1][..i] == jobs[..i];
    if done && merged > 0 {
      LessLess(MeasureOf(o, now, after.cat.files), MeasureOf(o, now, d.cat.files), MeasureOf(o, now, before.cat.files));
    }
    if !done && merged == 0 {
      StuckNext(o, now, before, jobs, i);
    }
  }

  lemma StuckNext(o: Options, now: int, d: Disk, jobs: seq<Job>, i: nat)
    requires i < |jobs| && AllStuck(o, now, d, jobs[..i]) && IsStuck(o, now, d, jobs[i])
    ensures AllStuck(o, now, d, jobs[..i + 1])
  {
    assert jobs[..i + 1] == jobs[..i] + [jobs[i]];
  }

  ghost predicate LevelAtRest(o: Options, now: int, d: Disk, level: nat) {
    exists listed :: IsListing(d.cat.files, listed, level) && AllStuck(o, now, d, BucketJobs(o, now, Buckets(listed, level), level))
  }

  /**
   * At rest: no file has aged out, and every bucket worth merging and every file that is due is one whose merge fails
   * or has nothing to read.
   */
  ghost predicate AtRest(o: Options, now: int, d: Disk) {
    && (o.policy.deleteAfter != 0 ==> forall p :: LiveAt(d.cat.files, p) ==> !Aged(d.cat.files[p].file, now, o.policy.deleteAfter))
    && LevelAtRest(o, now, d, 0) && LevelAtRest(o, now, d, 1)
    && exists listed :: IsListing(d.cat.files, listed, 2) && AllStuck(o, now, d, FileJobs(o, now, listed))
  }

  lemma StillLive(files: map<Path, Row>, after: map<Path, Row>, inputs: seq<Path>, out: Option<Row>, now: int, group: seq<File>, level: nat)
    requires LiveFiles(files, group, level) && StoreInvariant.Refiled(files, after, inputs, out, now)
    requires forall i :: 0 <= i < |group| ==> group[i].path !in inputs
    ensures LiveFiles(after, group, level)
  {
  }
}

/** The compactor's own code: loops over files and records, against what Compact says they come to. */
module Compaction {
  import opened Prelude
  import opened Catalog
  import opened Store
  import opened Compact

  class Compactor {
    const o: Options
    var cat: Cat
    var objects: map<Path, seq<Rec>>

    function View(): Disk
      reads this
    {
      Disk(cat, objects)
    }

    method ApplyRetention(recs: seq<Rec>, now: int) returns (kept: seq<Rec>, floor: string)
      ensures kept == Kept(o, now, recs) && floor == FloorOf(o, now, recs)
      ensures forall r :: multiset(kept)[r] ==
                if o.policy.downsampleAfter == 0 || o.policy.minLevelAfter == "" || r.micros > now - o.policy.downsampleAfter || r.severity >= o.rank(o.policy.minLevelAfter)
                then multiset(recs)[r] else 0
      ensures floor == if o.policy.downsampleAfter != 0 && o.policy.minLevelAfter != "" && forall r :: r in recs ==> r.micros <= now - o.policy.downsampleAfter
                       then o.policy.minLevelAfter else ""
    {
      kept, floor := Retain(recs, now);
      KeptCounts(o, now, recs);
    }

    method Retain(recs: seq<Rec>, now: int) returns (kept: seq<Rec>, floor: string)
      ensures kept == Kept(o, now, recs) && floor == FloorOf(o, now, recs)
    {
      if o.policy.downsampleAfter == 0 || o.policy.minLevelAfter == "" {
        KeepsAll(o, now, recs);
        return recs, "";
      }
      var cutoff := now - o.policy.downsampleAfter;
      var least := o.rank(o.policy.minLevelAfter);
      var whole := true;
      kept := [];
      var i := 0;
      while i < |recs|
        invariant 0 <= i <= |recs|
        invariant kept == Kept(o, now, recs[..i])
        invariant whole <==> forall k :: 0 <= k < i ==> recs[k].micros <= cutoff
      {
        assert recs[..i + 1][..i] == recs[..i];
        var r := recs[i];
        if r.micros > cutoff {
          kept := kept + [r];
          whole := false;
        } else if r.severity >= least {
          kept := kept + [r];
        }
        i := i + 1;
      }
      assert recs[..|recs|] == recs;
      floor := if whole then o.policy.minLevelAfter else "";
    }

    /** Raw goes only when every record is past the horizon. */
    method KeepRaw(recs: seq<Rec>, now: int) returns (keep: bool)
      ensures keep == KeepsRaw(o, now, recs)
      ensures keep <==> o.keepRaw && (o.policy.dropRawAfter == 0 || exists r :: r in recs && r.micros > now - o.policy.dropRawAfter)
    {
      if !o.keepRaw {
        return false;
      }
      if o.policy.dropRawAfter == 0 {
        return true;
      }
      var i := 0;
      while i < |recs|
        invariant 0 <= i <= |recs|
        invariant forall k :: 0 <= k < i ==> recs[k].micros <= now - o.policy.dropRawAfter
      {
        if recs[i].micros > now - o.policy.dropRawAfter {
          return true;
        }
        i := i + 1;
      }
      return false;
    }

    method Bucketize(files: seq<File>, level: nat) returns (out: seq<Bucket>)
      ensures out == Buckets(files, level)
    {
      var index: map<(string, int), nat> := map[];
      out := [];
      var i := 0;
      while i < |files|
        invariant 0 <= i <= |files| && Bucketed(files[..i], level, index, out)
      {
        var f := files[i];
        var key := KeyOf(f, level);
        BucketNext(files, i, level, index, out);
        if key !in index {
          index := index[key := |out|];
          out := out + [Bucket(key.0, key.1, [])];
        }
        var at := index[key];
        out := out[at := out[at].(files := out[at].files + [f])];
        i := i + 1;
      }
      assert files[..|files|] == files;
    }

    method IsEligible(group: seq<File>, level: nat, now: int) returns (yes: bool)
      ensures yes == Eligible(o, now, group, level)
    {
      if group == [] {
        return false;
      }
      var newest := group[0].maxTs;
      var i := 0;
      while i < |group|
        invariant 0 <= i <= |group|
        invariant newest == Latest(if i == 0 then [group[0]] else group[..i])
      {
        assert i > 0 ==> group[..i + 1][..i] == group[..i];
        if group[i].maxTs > newest {
          newest := group[i].maxTs;
        }
        i := i + 1;
      }
      assert group[..|group|] == group;
      var aged := now - newest > if level == 1 then o.l2After else o.l1After;
      yes := if level == 0 then |group| >= o.l1MinFiles || aged else aged;
    }

    /** Reads files until there are rows enough; fails at the first that cannot be read. */
    method ReadInputs(group: seq<File>) returns (inputs: seq<File>, read: seq<Rec>, ok: bool)
      ensures ok == Readable(objects, Chosen(o, group))
      ensures ok ==> inputs == Chosen(o, group) && read == Contents(objects, inputs)
    {
      var files := if |group| > o.maxInputFiles then group[..o.maxInputFiles] else group;
      inputs, read := [], [];
      var rows: nat := 0;
      while |inputs| < |files| && rows <= o.maxInputRows
        invariant Taking(files, o.maxInputRows, inputs, rows)
        invariant Readable(objects, inputs) && read == Contents(objects, inputs)
        decreases |files| - |inputs|
      {
        var f := files[|inputs|];
        TakingNext(files, o.maxInputRows, inputs, rows);
        if f.path !in objects {
          CannotRead(objects, Chosen(o, group), f);
          return inputs, read, false;
        }
        ContentsNext(objects, inputs, f);
        read := read + objects[f.path];
        inputs := inputs + [f];
        rows := rows + f.rows;
      }
      TakingDone(files, o.maxInputRows, inputs, rows);
      ok := true;
    }

    /** Merges a group's files into one at the given level; a merge that fails changes nothing. */
    method MergeGroup(group: seq<File>, stream: string, level: nat, now: int) returns (merged: bool, failed: Option<Failure>)
      modifies this
      ensures match Merged(o, now, old(View()), group, stream, level)
              case Ok(after) => View() == after && failed.None? && merged == (Chosen(o, group) != [])
              case Err(e) => View() == old(View()) && failed == Some(e) && !merged
    {
      var inputs, read, ok := ReadInputs(group);
      if !ok {
        return false, Some(Unreadable);
      }
      if inputs == [] {
        return false, None;
      }
      var f, rows := Prepare(group, inputs, read, stream, level, now);
      MergedIs(o, now, View(), group, stream, level);
      if f.None? {
        RetireOnly(cat, Paths(inputs), now);
        cat := Replace(cat, [], Paths(inputs), now).value;
        return true, None;
      }
      failed := Publish(f.value, rows, Paths(inputs), now);
      merged := failed.None?;
    }

    /** What is left to write of the records read, in order, and the row that describes it. */
    method Prepare(ghost group: seq<File>, inputs: seq<File>, read: seq<Rec>, stream: string, level: nat, now: int) returns (f: Option<File>, rows: seq<Rec>)
      requires inputs == Chosen(o, group) && read == Contents(objects, inputs)
      ensures f == Output(o, now, View(), group, stream, level) && rows == RowsOf(o, now, View(), group, level)
    {
      var kept, floor := ApplyRetention(read, now);
      OrderedIsSorted(o, level == 2, kept);
      rows := Ordered(o, level == 2, kept);
      if kept == [] {
        return None, rows;
      }
      var raw := KeepRaw(rows, now);
      var name := OutputName(o, cat, stream, level, rows[0], inputs);
      f := Some(File(name, stream, level, Oldest(rows), Newest(rows), Low(rows), High(rows), |rows|, o.size(rows, raw), raw, floor, o.columns(rows)));
    }

    /** Declares a file, refuses if its name is taken, writes it and swaps it for its inputs. */
    method Publish(f: File, rows: seq<Rec>, inputs: seq<Path>, now: int) returns (failed: Option<Failure>)
      modifies this
      ensures match Published(old(View()), f, rows, inputs, now)
              case Ok(after) => View() == after && failed.None?
              case Err(e) => View() == old(View()) && failed == Some(e)
    {
      if f.path in cat.files {
        return Some(Taken(f.path));
      }
      var published := Replace(Intend(cat, {f.path}, now), [f], inputs, now);
      assert InsertAll(Intend(cat, {f.path}, now), [f][..0]) == Ok(Intend(cat, {f.path}, now));
      objects := objects[f.path := rows];
      cat := published.value;
      return None;
    }

    /** The live files at one level, in whatever order the catalog lists them. */
    method Prune(level: nat) returns (files: seq<File>)
      requires InShape(cat.files)
      ensures IsListing(cat.files, files, level)
    {
      files := [];
      var left := cat.files.Keys;
      while left != {}
        invariant left <= cat.files.Keys && Listing(cat.files, files, left, level)
        decreases |left|
      {
        var p :| p in left;
        ListNext(cat.files, files, left, level, p);
        left := left - {p};
        if LiveAt(cat.files, p) && cat.files[p].file.level == level {
          files := files + [cat.files[p].file];
        }
      }
    }

    /** Merges one group if it is worth it; the files of the groups after it stay as they were. */
    method MergeNext(ghost listed: seq<File>, groups: seq<Bucket>, i: nat, level: nat, now: int) returns (done: bool)
      requires level <= 1 && InShape(cat.files) && groups == Buckets(listed, level) && i < |groups|
      requires forall j :: i <= j < |groups| ==> LiveFiles(cat.files, groups[j].files, level)
      modifies this
      ensures InShape(cat.files)
      ensures forall j :: i < j < |groups| ==> LiveFiles(cat.files, groups[j].files, level)
      ensures View() == Done(o, now, old(View()), BucketJob(o, now, groups[i], level))
      ensures if done then Less(MeasureOf(o, now, cat.files), MeasureOf(o, now, old(cat.files)))
              else View() == old(View()) && IsStuck(o, now, View(), BucketJob(o, now, groups[i], level))
    {
      ghost var before := View();
      done := IsEligible(groups[i].files, level, now);
      if done {
        var failed;
        done, failed := MergeGroup(groups[i].files, groups[i].stream, level + 1, now);
        if done {
          MergeProgress(o, now, before, groups[i].files, groups[i].stream, level, level + 1);
          OthersLive(o, now, before, listed, level, i);
        }
      }
    }

    /** Every eligible group is merged once; one that fails does not stop the rest. */
    method MergeLevel(level: nat, now: int) returns (merged: nat, ghost listed: seq<File>)
      requires level <= 1 && InShape(cat.files)
      modifies this
      ensures InShape(cat.files)
      ensures IsListing(old(cat.files), listed, level) && View() == AllDone(o, now, old(View()), BucketJobs(o, now, Buckets(listed, level), level))
      ensures merged > 0 ==> Less(MeasureOf(o, now, cat.files), MeasureOf(o, now, old(cat.files)))
      ensures merged == 0 ==> View() == old(View()) && LevelAtRest(o, now, View(), level)
    {
      merged := 0;
      var files := Prune(level);
      var groups := Bucketize(files, level);
      var i := 0;
      listed := files;
      ghost var before, jobs := View(), BucketJobs(o, now, groups, level);
      GroupsLive(cat.files, files, level);
      while i < |groups|
        invariant 0 <= i <= |groups| && InShape(cat.files)
        invariant forall j :: i <= j < |groups| ==> LiveFiles(cat.files, groups[j].files, level)
        invariant Underway(o, now, before, View(), jobs[..i], merged)
      {
        ghost var d := View();
        var done := MergeNext(files, groups, i, level, now);
        UnderwayNext(o, now, before, d, View(), jobs, i, merged, done);
        if done {
          merged := merged + 1;
        }
        i := i + 1;
      }
      assert jobs[..|groups|] == jobs;
    }

    /** Each file of the last level that is due is rewritten on its own. */
    method RewriteLevel(now: int) returns (merged: nat, ghost listed: seq<File>)
      requires InShape(cat.files)
      modifies this
      ensures InShape(cat.files)
      ensures IsListing(old(cat.files), listed, 2) && View() == AllDone(o, now, old(View()), FileJobs(o, now, listed))
      ensures merged > 0 ==> Less(MeasureOf(o, now, cat.files), MeasureOf(o, now, old(cat.files)))
      ensures merged == 0 ==> View() == old(View()) && AllStuck(o, now, View(), FileJobs(o, now, listed))
    {
      merged := 0;
      var files := Prune(2);
      var i := 0;
      listed := files;
      ghost var before, jobs := View(), FileJobs(o, now, files);
      while i < |files|
        invariant 0 <= i <= |files| && InShape(cat.files)
        invariant forall j :: i <= j < |files| ==> LiveFiles(cat.files, [files[j]], 2)
        invariant Underway(o, now, before, View(), jobs[..i], merged)
      {
        ghost var d := View();
        var done := RewriteNext(files, i, now);
        UnderwayNext(o, now, before, d, View(), jobs, i, merged, done);
        if done {
          merged := merged + 1;
        }
        i := i + 1;
      }
      assert jobs[..|files|] == jobs;
    }

    /** Rewrites one file if it is due; those after it stay as they were. */
    method RewriteNext(files: seq<File>, i: nat, now: int) returns (done: bool)
      requires i < |files| && InShape(cat.files) && Apart(files)
      requires forall j :: i <= j < |files| ==> LiveFiles(cat.files, [files[j]], 2)
      modifies this
      ensures InShape(cat.files)
      ensures forall j :: i < j < |files| ==> LiveFiles(cat.files, [files[j]], 2)
      ensures View() == Done(o, now, old(View()), FileJob(o, now, files[i]))
      ensures if done then Less(MeasureOf(o, now, cat.files), MeasureOf(o, now, old(cat.files)))
              else View() == old(View()) && IsStuck(o, now, View(), FileJob(o, now, files[i]))
    {
      ghost var before := View();
      done := Due(o, now, files[i]);
      if done {
        var failed;
        done, failed := MergeGroup([files[i]], files[i].stream, 2, now);
        if done {
          MergeProgress(o, now, before, [files[i]], files[i].stream, 2, 2);
          RestLive(o, now, before, files, i);
        }
      }
    }

    /** Retires files whose newest record is past the horizon. */
    method Expire(now: int) returns (expired: nat)
      requires InShape(cat.files)
      modifies this
      ensures InShape(cat.files)
      ensures if expired == 0 then View() == old(View())
              else Less(MeasureOf(o, now, cat.files), MeasureOf(o, now, old(cat.files)))
      ensures o.policy.deleteAfter != 0 ==> forall p :: LiveAt(cat.files, p) ==> !Aged(cat.files[p].file, now, o.policy.deleteAfter)
      ensures forall p :: LiveAt(old(cat.files), p) && !(o.policy.deleteAfter != 0 && Aged(old(cat.files)[p].file, now, o.policy.deleteAfter)) ==>
                p in cat.files && cat.files[p] == old(cat.files)[p]
    {
      if o.policy.deleteAfter == 0 {
        return 0;
      }
      var doomed := Doomed(now);
      expired := |doomed|;
      if expired == 0 {
        return;
      }
      RetireSome(cat, doomed, now);
      RetireFiles(cat, doomed, now);
      ExpireShrinks(o, now, cat.files, Retire(cat, doomed, now).files, doomed);
      RefiledShape(cat.files, Retire(cat, doomed, now).files, doomed, None, now);
      cat := Retire(cat, doomed, now);
    }

    /** The live files whose newest record is past the horizon. */
    method Doomed(now: int) returns (doomed: seq<Path>)
      ensures forall p :: p in doomed <==> LiveAt(cat.files, p) && Aged(cat.files[p].file, now, o.policy.deleteAfter)
    {
      doomed := [];
      var left := cat.files.Keys;
      while left != {}
        invariant left <= cat.files.Keys
        invariant forall p :: p in doomed <==> p !in left && LiveAt(cat.files, p) && Aged(cat.files[p].file, now, o.policy.deleteAfter)
        decreases |left|
      {
        var p :| p in left;
        left := left - {p};
        if LiveAt(cat.files, p) && Aged(cat.files[p].file, now, o.policy.deleteAfter) {
          doomed := doomed + [p];
        }
      }
    }

    /** One pass: expire, merge upwards, then apply retention where no merge will. */
    method RunOnce(now: int) returns (changed: bool)
      requires InShape(cat.files)
      modifies this
      ensures InShape(cat.files)
      ensures if changed then Less(MeasureOf(o, now, cat.files), MeasureOf(o, now, old(cat.files))) else View() == old(View()) && AtRest(o, now, View())
    {
      var expired := Expire(now);
      ghost var listed;
      var first, second, third;
      first, listed := MergeLevel(0, now);
      second, listed := MergeLevel(1, now);
      third, listed := RewriteLevel(now);
      changed := expired + first + second + third != 0;
    }

    /** With the clock stopped, passes end: sooner or later one finds nothing it can do, and there is nothing to be done. */
    method RunUntilIdle(now: int)
      requires InShape(cat.files)
      modifies this
      ensures InShape(cat.files) && AtRest(o, now, View())
    {
      var changed := true;
      while changed
        invariant InShape(cat.files) && (!changed ==> AtRest(o, now, View()))
        decreases MeasureOf(o, now, cat.files).l0, MeasureOf(o, now, cat.files).l1, MeasureOf(o, now, cat.files).due, MeasureOf(o, now, cat.files).live, changed
      {
        changed := RunOnce(now);
      }
    }
  }

  lemma RetireOnly(c: Cat, inputs: seq<Path>, now: int)
    ensures Replace(c, [], inputs, now) == Ok(Retire(c, inputs, now))
  {
  }

  lemma RestLive(o: Options, now: int, d: Disk, listed: seq<File>, i: nat)
    requires i < |listed|
    requires forall j :: i <= j < |listed| ==> LiveFiles(d.cat.files, [listed[j]], 2)
    ensures var m := Merged(o, now, d, [listed[i]], listed[i].stream, 2);
            m.Ok? && Chosen(o, [listed[i]]) != [] ==>
              forall j :: i < j < |listed| && listed[j].path != listed[i].path ==> LiveFiles(m.value.cat.files, [listed[j]], 2)
  {
    var m := Merged(o, now, d, [listed[i]], listed[i].stream, 2);
    if m.Ok? && Chosen(o, [listed[i]]) != [] {
      MergeRefiles(o, now, d, [listed[i]], listed[i].stream, 2, 2);
      ChosenIsPrefix(o, [listed[i]]);
      forall j | i < j < |listed| && listed[j].path != listed[i].path
        ensures LiveFiles(m.value.cat.files, [listed[j]], 2)
      {
        StillLive(d.cat.files, m.value.cat.files, Paths(Chosen(o, [listed[i]])), Added(o, now, d, [listed[i]], listed[i].stream, 2), now, [listed[j]], 2);
      }
    }
  }

  lemma GroupsLive(files: map<Path, Row>, listed: seq<File>, level: nat)
    requires LiveFiles(files, listed, level)
    ensures forall j :: 0 <= j < |Buckets(listed, level)| ==> LiveFiles(files, Buckets(listed, level)[j].files, level)
  {
    forall j, k | 0 <= j < |Buckets(listed, level)| && 0 <= k < |Buckets(listed, level)[j].files|
      ensures var f := Buckets(listed, level)[j].files[k]; LiveAt(files, f.path) && files[f.path].file == f && f.level == level
    {
      var f := Buckets(listed, level)[j].files[k];
      BucketHas(listed, level, Keys(listed, level)[j], f);
      assert f in listed;
    }
  }

  lemma RefiledShape(files: map<Path, Row>, after: map<Path, Row>, inputs: seq<Path>, out: Option<Row>, now: int)
    requires InShape(files) && StoreInvariant.Refiled(files, after, inputs, out, now)
    ensures InShape(after)
  {
    forall p | p in after
      ensures after[p].file.path == p && after[p].file.level == p.level
    {
      assert p in files ==> after[p].file == files[p].file;
    }
  }

  lemma ChosenDue(o: Options, now: int, files: map<Path, Row>, group: seq<File>)
    requires LiveFiles(files, group, 2) && forall f :: f in group ==> Due(o, now, f)
    ensures forall p :: p in Paths(Chosen(o, group)) ==> p in files && Due(o, now, files[p].file)
  {
    ChosenIsPrefix(o, group);
    forall p | p in Paths(Chosen(o, group))
      ensures p in files && Due(o, now, files[p].file)
    {
      var i :| 0 <= i < |Chosen(o, group)| && Chosen(o, group)[i].path == p;
      assert group[i] in group;
    }
  }

  /** A merge that took something made progress. */
  lemma MergeProgress(o: Options, now: int, d: Disk, group: seq<File>, stream: string, from: nat, level: nat)
    requires InShape(d.cat.files) && LiveFiles(d.cat.files, group, from)
    requires (from == 0 && level == 1) || (from == 1 && level == 2) || (from == 2 && level == 2 && forall f :: f in group ==> Due(o, now, f))
    requires Merged(o, now, d, group, stream, level).Ok? && Chosen(o, group) != []
    ensures var after := Merged(o, now, d, group, stream, level).value;
            InShape(after.cat.files) && Less(MeasureOf(o, now, after.cat.files), MeasureOf(o, now, d.cat.files))
  {
    var after := Merged(o, now, d, group, stream, level).value.cat.files;
    MergeRefiles(o, now, d, group, stream, from, level);
    RefiledShape(d.cat.files, after, Paths(Chosen(o, group)), Added(o, now, d, group, stream, level), now);
    ChosenLive(o, d.cat.files, group, from);
    if from == 2 {
      ChosenDue(o, now, d.cat.files, group);
    }
    MergeShrinks(o, now, d.cat.files, after, Paths(Chosen(o, group)), Added(o, now, d, group, stream, level), from, level);
  }

  /** What a merge takes of one bucket is nothing of another. */
  lemma ChosenElsewhere(o: Options, files: map<Path, Row>, listed: seq<File>, level: nat, i: nat, j: nat)
    requires i < |Buckets(listed, level)| && j < |Buckets(listed, level)| && i != j
    requires LiveFiles(files, Buckets(listed, level)[i].files, level) && LiveFiles(files, Buckets(listed, level)[j].files, level)
    ensures var taken := Paths(Chosen(o, Buckets(listed, level)[i].files));
            forall k :: 0 <= k < |Buckets(listed, level)[j].files| ==> Buckets(listed, level)[j].files[k].path !in taken
  {
    var b, group := Buckets(listed, level)[i], Buckets(listed, level)[j].files;
    ChosenIsPrefix(o, b.files);
    forall k | 0 <= k < |group|
      ensures group[k].path !in Paths(Chosen(o, b.files))
    {
      BucketsApart(listed, level, j, i, group[k]);
    }
  }

  /** Merging one bucket leaves the files of another live. */
  lemma OtherLive(o: Options, now: int, d: Disk, listed: seq<File>, level: nat, i: nat, j: nat)
    requires i < |Buckets(listed, level)| && j < |Buckets(listed, level)| && i != j && level <= 1
    requires LiveFiles(d.cat.files, Buckets(listed, level)[i].files, level) && LiveFiles(d.cat.files, Buckets(listed, level)[j].files, level)
    requires var b := Buckets(listed, level)[i]; Merged(o, now, d, b.files, b.stream, level + 1).Ok? && Chosen(o, b.files) != []
    ensures var b := Buckets(listed, level)[i];
            LiveFiles(Merged(o, now, d, b.files, b.stream, level + 1).value.cat.files, Buckets(listed, level)[j].files, level)
  {
    var b, group := Buckets(listed, level)[i], Buckets(listed, level)[j].files;
    var after := Merged(o, now, d, b.files, b.stream, level + 1).value.cat.files;
    MergeRefiles(o, now, d, b.files, b.stream, level, level + 1);
    ChosenElsewhere(o, d.cat.files, listed, level, i, j);
    StillLive(d.cat.files, after, Paths(Chosen(o, b.files)), Added(o, now, d, b.files, b.stream, level + 1), now, group, level);
  }

  lemma OthersLive(o: Options, now: int, d: Disk, listed: seq<File>, level: nat, i: nat)
    requires i < |Buckets(listed, level)| && level <= 1
    requires forall j :: i <= j < |Buckets(listed, level)| ==> LiveFiles(d.cat.files, Buckets(listed, level)[j].files, level)
    ensures var b := Buckets(listed, level)[i];
            var m := Merged(o, now, d, b.files, b.stream, level + 1);
            m.Ok? && Chosen(o, b.files) != [] ==>
              forall j :: i < j < |Buckets(listed, level)| ==> LiveFiles(m.value.cat.files, Buckets(listed, level)[j].files, level)
  {
    var b := Buckets(listed, level)[i];
    var m := Merged(o, now, d, b.files, b.stream, level + 1);
    if m.Ok? && Chosen(o, b.files) != [] {
      forall j | i < j < |Buckets(listed, level)|
        ensures LiveFiles(m.value.cat.files, Buckets(listed, level)[j].files, level)
      {
        OtherLive(o, now, d, listed, level, i, j);
      }
    }
  }

  lemma {:induction false} KeepsAll(o: Options, now: int, recs: seq<Rec>)
    requires o.policy.downsampleAfter == 0 || o.policy.minLevelAfter == ""
    ensures Kept(o, now, recs) == recs
    decreases |recs|
  {
    if recs != [] {
      KeepsAll(o, now, recs[..|recs| - 1]);
    }
  }

  /** What has been taken is the first of what will be. */
  ghost predicate Taking(files: seq<File>, maxRows: nat, inputs: seq<File>, rows: nat) {
    && |inputs| <= |files| && inputs == files[..|inputs|]
    && Select(files, maxRows, 0) == inputs + Select(files[|inputs|..], maxRows, rows)
  }

  lemma TakingNext(files: seq<File>, maxRows: nat, inputs: seq<File>, rows: nat)
    requires Taking(files, maxRows, inputs, rows) && |inputs| < |files| && rows <= maxRows
    ensures var f := files[|inputs|]; f in Select(files, maxRows, 0) && Taking(files, maxRows, inputs + [f], rows + f.rows)
  {
    var f := files[|inputs|];
    assert files[|inputs|..][1..] == files[|inputs| + 1..];
    Assoc(inputs, [f], Select(files[|inputs| + 1..], maxRows, rows + f.rows));
  }

  lemma CannotRead(objects: map<Path, seq<Rec>>, files: seq<File>, f: File)
    requires f in files && f.path !in objects
    ensures !Readable(objects, files)
  {
  }

  lemma TakingDone(files: seq<File>, maxRows: nat, inputs: seq<File>, rows: nat)
    requires Taking(files, maxRows, inputs, rows) && (|inputs| == |files| || rows > maxRows)
    ensures inputs == Select(files, maxRows, 0)
  {
    assert inputs + [] == inputs;
  }

  lemma ContentsNext(objects: map<Path, seq<Rec>>, inputs: seq<File>, f: File)
    ensures Contents(objects, inputs + [f]) == Contents(objects, inputs) + Holding(objects, f)
  {
    assert (inputs + [f])[..|inputs|] == inputs;
  }

  /** The buckets so far, and where each key's is. */
  ghost predicate Bucketed(files: seq<File>, level: nat, index: map<(string, int), nat>, out: seq<Bucket>) {
    && out == Buckets(files, level)
    && (forall key :: key in index <==> key in Keys(files, level))
    && forall key :: key in index ==> index[key] < |out| && Keys(files, level)[index[key]] == key
  }

  lemma BucketNext(files: seq<File>, i: nat, level: nat, index: map<(string, int), nat>, out: seq<Bucket>)
    requires i < |files| && Bucketed(files[..i], level, index, out)
    ensures var key := KeyOf(files[i], level);
            var more := if key in index then index else index[key := |out|];
            var all := if key in index then out else out + [Bucket(key.0, key.1, [])];
            more[key] < |all| && Bucketed(files[..i + 1], level, more, all[more[key] := all[more[key]].(files := all[more[key]].files + [files[i]])])
  {
    var key := KeyOf(files[i], level);
    BucketsGrow(files, i, level, if key in index then index[key] else 0);
  }

  /** One more file joins its bucket, a new one if there is none. */
  lemma BucketsGrow(files: seq<File>, i: nat, level: nat, at: nat)
    requires i < |files|
    requires KeyOf(files[i], level) in Keys(files[..i], level) ==> at < |Keys(files[..i], level)| && Keys(files[..i], level)[at] == KeyOf(files[i], level)
    ensures var key := KeyOf(files[i], level);
            var before := Buckets(files[..i], level);
            var all := if key in Keys(files[..i], level) then before else before + [Bucket(key.0, key.1, [])];
            var spot := if key in Keys(files[..i], level) then at else |before|;
            && Buckets(files[..i + 1], level) == all[spot := all[spot].(files := all[spot].files + [files[i]])]
            && Keys(files[..i + 1], level) == if key in Keys(files[..i], level) then Keys(files[..i], level) else Keys(files[..i], level) + [key]
  {
    var key := KeyOf(files[i], level);
    assert files[..i + 1][..i] == files[..i];
    KeysOnce(files[..i + 1], level);
    if key !in Keys(files[..i], level) {
      NoBucket(files[..i], level, key);
    }
    var before := Buckets(files[..i], level);
    var all := if key in Keys(files[..i], level) then before else before + [Bucket(key.0, key.1, [])];
    var spot := if key in Keys(files[..i], level) then at else |before|;
    var keys := Keys(files[..i + 1], level);
    assert keys[spot] == key;
    forall k | 0 <= k < |keys|
      ensures BucketOf(files[..i + 1], level, keys[k]) == all[spot := all[spot].(files := all[spot].files + [files[i]])][k]
    {
      assert keys[k] == key <==> k == spot;
    }
  }

  lemma {:induction false} NoBucket(files: seq<File>, level: nat, key: (string, int))
    requires key !in Keys(files, level)
    ensures InBucket(files, level, key) == []
    decreases |files|
  {
    if files != [] {
      NoBucket(files[..|files| - 1], level, key);
    }
  }
}
