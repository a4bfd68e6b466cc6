/** What holds in every state of the store, and why each step keeps it. */
module StoreInvariant {
  import opened Prelude
  import opened Catalog
  import opened Store

  // ---- the invariant, one concern at a time ----

  ghost predicate SegmentsOk(known: set<Rec>, seqno: nat, base: nat, number: nat, active: seq<Rec>, sealed: map<nat, seq<Rec>>) {
    && base <= seqno
    && (forall r :: r in known ==> r.seqno <= seqno)
    && (forall a, b :: a in known && b in known && a.seqno == b.seqno ==> a == b)
    && Rising(active)
    && (forall i :: 0 <= i < |active| ==> active[i] in known && active[i].seqno > base)
    && (forall n :: n in sealed ==> n < number && Rising(sealed[n]))
    && (forall n, i :: n in sealed && 0 <= i < |sealed[n]| ==> sealed[n][i] in known && sealed[n][i].seqno <= base)
    && (forall n, m, i, j :: n in sealed && m in sealed && n < m && 0 <= i < |sealed[n]| && 0 <= j < |sealed[m]| ==>
          sealed[n][i].seqno < sealed[m][j].seqno)
  }

  /** Live files hold nothing twice and share nothing. */
  ghost predicate Disjoint(live: map<Path, multiset<Rec>>) {
    && (forall p, r :: p in live && r in live[p] ==> live[p][r] == 1)
    && (forall p, q, r :: p in live && q in live && r in live[p] && r in live[q] ==> p == q)
  }

  /** Nor do they hold anything retention dropped. */
  ghost predicate ShelfOk(live: map<Path, multiset<Rec>>, known: set<Rec>, discarded: set<Rec>, base: nat, maxSeq: nat) {
    && Disjoint(live)
    && (forall p, r :: p in live && r in live[p] ==> r in known && r.seqno <= base && r.seqno <= maxSeq && r !in discarded)
  }

  ghost predicate DiscardedOk(known: set<Rec>, discarded: set<Rec>, base: nat, maxSeq: nat) {
    forall r :: r in discarded ==> r in known && r.seqno <= base && r.seqno <= maxSeq
  }

  /** Live files are readable, and every row's path says its level and a record no newer than its file. */
  ghost predicate RowsOk(files: map<Path, Row>, objects: map<Path, multiset<Rec>>, base: nat) {
    && (forall p :: LiveAt(files, p) ==> p in objects)
    && (forall p :: p in files ==> files[p].file.level == p.level && p.first <= base && p.first <= files[p].file.maxSeq)
  }

  /** A sealed segment's records are in a live file, or discarded, exactly when their path is registered. */
  ghost predicate LandingOk(cfg: Config, sealed: map<nat, seq<Rec>>, files: map<Path, Row>, live: map<Path, multiset<Rec>>, discarded: set<Rec>) {
    forall n, i :: n in sealed && 0 <= i < |sealed[n]| ==>
      (Landed(cfg, files, sealed[n], i) <==> OnShelf(live, sealed[n][i]) || sealed[n][i] in discarded)
  }

  /** No record that could still be merged into a file of some name is the one that name came from. */
  ghost predicate NamesOk(cfg: Config, sealed: map<nat, seq<Rec>>, files: map<Path, Row>, live: map<Path, multiset<Rec>>) {
    && (forall p, q, r :: p in files && p.level >= 1 && p.rewrite.None? && q in live && r in live[q] && q.level < p.level ==>
          r.seqno != p.first)
    && (forall p, n, i :: p in files && p.level >= 1 && p.rewrite.None? && n in sealed && 0 <= i < |sealed[n]| && !Landed(cfg, files, sealed[n], i) ==>
          sealed[n][i].seqno != p.first)
  }

  /** A rewrite is named after the file it replaces, which is not live any more. */
  ghost predicate RewritesOk(files: map<Path, Row>, nextId: nat) {
    && (forall p :: p in files && p.rewrite.Some? ==> p.level >= 1 && p.rewrite.value < nextId)
    && (forall p, q :: p in files && p.rewrite.Some? && LiveAt(files, q) ==> files[q].id != p.rewrite.value)
  }

  ghost predicate FlushOk(cfg: Config, flush: Flush, sealed: map<nat, seq<Rec>>, files: map<Path, Row>, pending: map<Path, int>, objects: map<Path, multiset<Rec>>, now: int) {
    match flush
    case Resting => true
    case Loaded(n, recs) => n in sealed && recs == sealed[n]
    case Persisting(n, recs, declared, todo, writing, failed) =>
      && n in sealed && recs == sealed[n]
      && declared <= now
      && todo <= Streams(recs)
      && (writing.Some? ==> writing.value in todo)
      && (forall stream :: stream in todo ==> NameOf(cfg, recs, stream) !in files)
      && (!failed ==> forall stream :: stream in Streams(recs) - todo ==> NameOf(cfg, recs, stream) in files)
      && (now <= declared + cfg.orphanGrace ==>
            && (forall stream :: stream in todo ==> NameOf(cfg, recs, stream) in pending && pending[NameOf(cfg, recs, stream)] == declared)
            && (writing.Some? ==>
                  var name := NameOf(cfg, recs, writing.value);
                  name in objects && objects[name] == Part(recs, writing.value)))
  }

  ghost predicate MergeOk(cfg: Config, merge: Merge, files: map<Path, Row>, pending: map<Path, int>, objects: map<Path, multiset<Rec>>, now: int) {
    match merge
    case NoMerge => true
    case Merging(inputs, kept, name, declared, written) =>
      && inputs != [] && Distinct(inputs)
      && declared <= now
      && (forall p :: p in inputs ==> LiveAt(files, p))
      && (if name.rewrite.None? then forall p :: p in inputs ==> p.level + 1 == name.level
          else |inputs| == 1 && inputs[0].level == name.level && inputs[0] in files && name.rewrite.value == files[inputs[0]].id)
      && name.level >= 1
      && name !in files
      && kept <= Gather(objects, inputs)
      && (exists r :: r in kept && r.seqno == name.first)
      && (now <= declared + cfg.orphanGrace ==>
            && name in pending && pending[name] == declared
            && (written ==> name in objects && objects[name] == kept))
  }

  ghost predicate CollectorOk(cfg: Config, gc: Collector, files: map<Path, Row>, sealed: map<nat, seq<Rec>>, now: int) {
    && (!gc.Waiting? ==> forall p :: p in gc.files ==>
          p in files && files[p].state.Tombstoned? && files[p].state.at + cfg.grace <= now)
    && (gc.Floored? ==> forall p, n, stream ::
          p in gc.files && p.level == 0 && !(gc.floor.Some? && files[p].file.maxSeq >= gc.floor.value) && n in sealed && stream in Streams(sealed[n]) ==>
            NameOf(cfg, sealed[n], stream) != p)
  }

  /** A file on a file list taken at t is there, unchanged, until t plus the grace period. */
  ghost predicate ReadersOk(cfg: Config, readers: set<Reader>, files: map<Path, Row>, objects: map<Path, multiset<Rec>>, now: int) {
    forall v :: v in readers ==>
      && v.at <= now
      && (|| v.at + cfg.grace <= now
          || (&& v.path in files && v.path in objects && objects[v.path] == v.content
              && (files[v.path].state.Live? || v.at <= files[v.path].state.at)))
  }

  /** Every record in play is somewhere, and promised ones are not only in what a crash could lose. */
  ghost predicate PlacesOk(known: set<Rec>, stored: set<Rec>, live: map<Path, multiset<Rec>>, discarded: set<Rec>, sealed: map<nat, seq<Rec>>, active: seq<Rec>, synced: nat) {
    && synced <= |active|
    && stored <= known
    && (forall i :: synced <= i < |active| ==> active[i] !in stored)
    && (forall r :: r in known ==> OnShelf(live, r) || r in discarded || InSealed(sealed, r) || r in active)
  }

  /** Every segment on disk is being flushed or waiting to be retried. */
  ghost predicate RetryOk(flush: Flush, sealed: map<nat, seq<Rec>>, unflushed: set<nat>) {
    if flush.Resting? then sealed.Keys == unflushed else sealed.Keys == unflushed + {flush.n} && flush.n !in unflushed
  }

  /** What is true of the records, the segments and the files. */
  ghost predicate DataOk(cfg: Config, s: Store) {
    var live := Shelf(s.cat.files, s.objects);
    && s.batch == s.active
    && SegmentsOk(s.known, s.seqno, s.base, s.number, s.active, s.sealed)
    && ShelfOk(live, s.known, s.discarded, s.base, s.cat.maxSeq)
    && DiscardedOk(s.known, s.discarded, s.base, s.cat.maxSeq)
    && RowsOk(s.cat.files, s.objects, s.base)
    && LandingOk(cfg, s.sealed, s.cat.files, live, s.discarded)
    && NamesOk(cfg, s.sealed, s.cat.files, live)
    && RewritesOk(s.cat.files, s.cat.nextId)
    && PlacesOk(s.known, s.stored, live, s.discarded, s.sealed, s.active, s.synced)
    && Catalog.Inv(s.cat)
  }

  /** What is true of the work in progress. */
  ghost predicate WorkOk(cfg: Config, s: Store) {
    && FlushOk(cfg, s.flush, s.sealed, s.cat.files, s.cat.pending, s.objects, s.now)
    && MergeOk(cfg, s.merge, s.cat.files, s.cat.pending, s.objects, s.now)
    && CollectorOk(cfg, s.gc, s.cat.files, s.sealed, s.now)
    && ReadersOk(cfg, s.readers, s.cat.files, s.objects, s.now)
    && RetryOk(s.flush, s.sealed, s.unflushed)
  }

  ghost predicate Inv(cfg: Config, s: Store) {
    DataOk(cfg, s) && WorkOk(cfg, s)
  }

  lemma FreshInv(cfg: Config)
    ensures Inv(cfg, Fresh)
  {
    EmptyInv();
  }

  // ---- each step keeps the invariant ----

  lemma AppendSegments(s: Store, r: Rec)
    requires SegmentsOk(s.known, s.seqno, s.base, s.number, s.active, s.sealed) && r.seqno == s.seqno + 1
    ensures SegmentsOk(s.known + {r}, s.seqno + 1, s.base, s.number, s.active + [r], s.sealed)
  {
  }

  lemma AppendPlaces(s: Store, r: Rec, live: map<Path, multiset<Rec>>)
    requires PlacesOk(s.known, s.stored, live, s.discarded, s.sealed, s.active, s.synced) && r !in s.known
    ensures PlacesOk(s.known + {r}, s.stored, live, s.discarded, s.sealed, s.active + [r], s.synced)
  {
  }

  lemma MoreKnown(live: map<Path, multiset<Rec>>, known: set<Rec>, more: set<Rec>, discarded: set<Rec>, base: nat, maxSeq: nat)
    requires ShelfOk(live, known, discarded, base, maxSeq) && DiscardedOk(known, discarded, base, maxSeq)
    ensures ShelfOk(live, known + more, discarded, base, maxSeq) && DiscardedOk(known + more, discarded, base, maxSeq)
  {
  }

  lemma AppendKeeps(cfg: Config, s: Store, stream: string, micros: int, severity: int, accepted: bool)
    requires Inv(cfg, s)
    ensures Inv(cfg, DoAppend(s, stream, micros, severity, accepted))
  {
    if accepted {
      var r := Rec(s.seqno + 1, stream, micros, severity);
      var live := Shelf(s.cat.files, s.objects);
      AppendSegments(s, r);
      MoreKnown(live, s.known, {r}, s.discarded, s.base, s.cat.maxSeq);
      AppendPlaces(s, r, live);
    }
  }

  lemma SyncKeeps(cfg: Config, s: Store, upTo: nat)
    requires Inv(cfg, s)
    ensures Inv(cfg, DoSync(s, upTo))
  {
    if s.synced <= upTo <= |s.active| {
      SyncPlaces(s, upTo, Shelf(s.cat.files, s.objects));
    }
  }

  lemma SyncPlaces(s: Store, upTo: nat, live: map<Path, multiset<Rec>>)
    requires PlacesOk(s.known, s.stored, live, s.discarded, s.sealed, s.active, s.synced)
    requires SegmentsOk(s.known, s.seqno, s.base, s.number, s.active, s.sealed) && s.synced <= upTo <= |s.active|
    ensures PlacesOk(s.known, s.stored + Elements(s.active[..upTo]), live, s.discarded, s.sealed, s.active, upTo)
  {
    forall i | upTo <= i < |s.active|
      ensures s.active[i] !in Elements(s.active[..upTo])
    {
      forall j | 0 <= j < upTo ensures s.active[j].seqno < s.active[i].seqno {}
    }
  }

  /** Work in progress is no part of what is true of the data. */
  lemma SameData(cfg: Config, s: Store, t: Store)
    requires DataOk(cfg, s)
    requires s.batch == t.batch && s.known == t.known && s.seqno == t.seqno && s.base == t.base && s.number == t.number
    requires s.active == t.active && s.sealed == t.sealed && s.discarded == t.discarded && s.stored == t.stored && s.synced == t.synced
    requires s.cat.files == t.cat.files && s.cat.nextId == t.cat.nextId && s.cat.maxSeq == t.cat.maxSeq && Catalog.Inv(t.cat)
    requires s.objects == t.objects
    ensures DataOk(cfg, t)
  {
  }

  lemma RetryWork(cfg: Config, s: Store, n: nat)
    requires WorkOk(cfg, s)
    ensures WorkOk(cfg, DoRetry(s, n))
  {
  }

  lemma RetryKeeps(cfg: Config, s: Store, n: nat)
    requires Inv(cfg, s)
    ensures Inv(cfg, DoRetry(s, n))
  {
    SameData(cfg, s, DoRetry(s, n));
    RetryWork(cfg, s, n);
  }

  lemma GiveUpWork(cfg: Config, s: Store)
    requires WorkOk(cfg, s)
    ensures WorkOk(cfg, DoGiveUp(s))
  {
  }

  lemma GiveUpKeeps(cfg: Config, s: Store)
    requires Inv(cfg, s)
    ensures Inv(cfg, DoGiveUp(s))
  {
    SameData(cfg, s, DoGiveUp(s));
    GiveUpWork(cfg, s);
  }

  // ---- sealing ----

  /** A path a flush would use is named after a record of the segment. */
  lemma NameIsARecord(cfg: Config, recs: seq<Rec>, stream: string) returns (i: nat)
    requires stream in Streams(recs)
    ensures i < |recs| && recs[i].stream == stream
    ensures NameOf(cfg, recs, stream) == Path(cfg.safe(stream), 0, recs[i].seqno, recs[i].micros, None)
  {
    OfStreamHas(recs, stream);
    var first := OfStream(recs, stream)[0];
    i :| 0 <= i < |recs| && recs[i] == first;
  }

  lemma SealSegments(s: Store)
    requires SegmentsOk(s.known, s.seqno, s.base, s.number, s.active, s.sealed)
    ensures SegmentsOk(s.known, s.seqno, s.seqno, s.number + 1, [], s.sealed[s.number := s.active])
  {
  }

  /** Records no file and no other segment has seen. */
  ghost predicate Beyond(recs: seq<Rec>, base: nat) {
    forall i :: 0 <= i < |recs| ==> recs[i].seqno > base
  }

  /** No file is named after such a record, so none of them has landed. */
  lemma NewNames(cfg: Config, recs: seq<Rec>, base: nat, stream: string)
    requires Beyond(recs, base) && stream in Streams(recs)
    ensures NameOf(cfg, recs, stream).first > base
  {
    var i := NameIsARecord(cfg, recs, stream);
  }

  lemma NewLanding(cfg: Config, s: Store, recs: seq<Rec>, live: map<Path, multiset<Rec>>)
    requires Beyond(recs, s.base)
    requires ShelfOk(live, s.known, s.discarded, s.base, s.cat.maxSeq) && DiscardedOk(s.known, s.discarded, s.base, s.cat.maxSeq)
    requires RowsOk(s.cat.files, s.objects, s.base) && LandingOk(cfg, s.sealed, s.cat.files, live, s.discarded)
    ensures LandingOk(cfg, s.sealed[s.number := recs], s.cat.files, live, s.discarded)
  {
    var sealed := s.sealed[s.number := recs];
    forall n, i | n in sealed && 0 <= i < |sealed[n]|
      ensures Landed(cfg, s.cat.files, sealed[n], i) <==> OnShelf(live, sealed[n][i]) || sealed[n][i] in s.discarded
    {
      if n == s.number {
        assert recs[i].stream in Streams(recs);
        NewNames(cfg, recs, s.base, recs[i].stream);
      }
    }
  }

  lemma NewSegmentNames(cfg: Config, s: Store, recs: seq<Rec>, live: map<Path, multiset<Rec>>)
    requires Beyond(recs, s.base) && RowsOk(s.cat.files, s.objects, s.base) && NamesOk(cfg, s.sealed, s.cat.files, live)
    ensures NamesOk(cfg, s.sealed[s.number := recs], s.cat.files, live)
  {
  }

  lemma SealCollector(cfg: Config, s: Store)
    requires SegmentsOk(s.known, s.seqno, s.base, s.number, s.active, s.sealed)
    requires RowsOk(s.cat.files, s.objects, s.base) && CollectorOk(cfg, s.gc, s.cat.files, s.sealed, s.now)
    ensures CollectorOk(cfg, s.gc, s.cat.files, s.sealed[s.number := s.active], s.now)
  {
    forall stream | stream in Streams(s.active)
      ensures NameOf(cfg, s.active, stream).first > s.base
    {
      NewNames(cfg, s.active, s.base, stream);
    }
  }

  /** A record of a segment, or of the part of the active one that is sealed, is in a segment afterwards. */
  lemma SealedStays(s: Store, n: nat, r: Rec)
    requires InSealed(s.sealed, r) && (forall m :: m in s.sealed ==> m < s.number)
    ensures InSealed(s.sealed[s.number := s.active[..if n <= |s.active| then n else 0]], r)
  {
    var left := s.sealed[s.number := s.active[..if n <= |s.active| then n else 0]];
    var m, i :| m in s.sealed && 0 <= i < |s.sealed[m]| && s.sealed[m][i] == r;
    assert m in left && left[m] == s.sealed[m];
  }

  lemma SealPlaces(s: Store, live: map<Path, multiset<Rec>>)
    requires SegmentsOk(s.known, s.seqno, s.base, s.number, s.active, s.sealed)
    requires PlacesOk(s.known, s.stored, live, s.discarded, s.sealed, s.active, s.synced)
    ensures PlacesOk(s.known, s.stored + Elements(s.active), live, s.discarded, s.sealed[s.number := s.active], [], 0)
  {
    var sealed := s.sealed[s.number := s.active];
    assert s.active[..|s.active|] == s.active;
    forall r | r in s.known
      ensures OnShelf(live, r) || r in s.discarded || InSealed(sealed, r)
    {
      if InSealed(s.sealed, r) {
        SealedStays(s, |s.active|, r);
      } else if r in s.active {
        var i :| 0 <= i < |s.active| && s.active[i] == r;
        assert s.number in sealed && sealed[s.number][i] == r;
      }
    }
  }

  lemma BaseRises(s: Store, live: map<Path, multiset<Rec>>, base: nat)
    requires ShelfOk(live, s.known, s.discarded, s.base, s.cat.maxSeq) && DiscardedOk(s.known, s.discarded, s.base, s.cat.maxSeq)
    requires RowsOk(s.cat.files, s.objects, s.base) && s.base <= base
    ensures ShelfOk(live, s.known, s.discarded, base, s.cat.maxSeq) && DiscardedOk(s.known, s.discarded, base, s.cat.maxSeq)
    ensures RowsOk(s.cat.files, s.objects, base)
  {
  }

  lemma SealKeeps(cfg: Config, s: Store)
    requires Inv(cfg, s)
    ensures Inv(cfg, DoSeal(s))
  {
    if s.flush.Resting? && s.batch != [] {
      var live := Shelf(s.cat.files, s.objects);
      SealData(cfg, s, live);
      SealWork(cfg, s);
    }
  }

  lemma SealWork(cfg: Config, s: Store)
    requires SegmentsOk(s.known, s.seqno, s.base, s.number, s.active, s.sealed) && s.batch == s.active
    requires RowsOk(s.cat.files, s.objects, s.base) && WorkOk(cfg, s) && s.flush.Resting? && s.batch != []
    ensures WorkOk(cfg, DoSeal(s))
  {
    SealCollector(cfg, s);
  }

  lemma SealData(cfg: Config, s: Store, live: map<Path, multiset<Rec>>)
    requires DataOk(cfg, s) && live == Shelf(s.cat.files, s.objects) && s.flush.Resting? && s.batch != []
    ensures DataOk(cfg, DoSeal(s))
  {
    SealSegments(s);
    NewLanding(cfg, s, s.active, live);
    NewSegmentNames(cfg, s, s.active, live);
    SealPlaces(s, live);
    BaseRises(s, live, s.seqno);
  }

  // ---- flushing ----

  /** Declaring paths neither touches files nor makes any declaration older. */
  lemma IntendKeepsMerge(cfg: Config, s: Store, paths: set<Path>)
    requires MergeOk(cfg, s.merge, s.cat.files, s.cat.pending, s.objects, s.now)
    requires s.merge.Merging? ==> s.merge.name !in paths
    ensures MergeOk(cfg, s.merge, s.cat.files, Intend(s.cat, paths, s.now).pending, s.objects, s.now)
  {
  }

  lemma NamesAreFlushes(cfg: Config, recs: seq<Rec>)
    ensures forall p :: p in Names(cfg, recs) ==> p.level == 0
  {
  }

  lemma DeclareFlush(cfg: Config, s: Store)
    requires s.flush.Loaded? && FlushOk(cfg, s.flush, s.sealed, s.cat.files, s.cat.pending, s.objects, s.now)
    ensures var t := DoDeclare(cfg, s); FlushOk(cfg, t.flush, s.sealed, s.cat.files, t.cat.pending, s.objects, s.now)
  {
    var recs := s.flush.recs;
    var todo := Unlanded(cfg, recs, s.cat.files);
    forall stream | stream in todo
      ensures NameOf(cfg, recs, stream) in Names(cfg, recs)
    {
    }
  }

  lemma DeclareKeeps(cfg: Config, s: Store)
    requires Inv(cfg, s)
    ensures Inv(cfg, DoDeclare(cfg, s))
  {
    if s.flush.Loaded? {
      DeclareFlush(cfg, s);
      NamesAreFlushes(cfg, s.flush.recs);
      IntendKeepsMerge(cfg, s, Names(cfg, s.flush.recs));
      IntendInv(s.cat, Names(cfg, s.flush.recs), s.now);
    }
  }

  // ---- writing objects ----

  ghost predicate SameLive(files: map<Path, Row>, objects: map<Path, multiset<Rec>>, after: map<Path, multiset<Rec>>) {
    forall p :: LiveAt(files, p) ==> (p in objects <==> p in after) && (p in objects ==> after[p] == objects[p])
  }

  lemma ShelfSame(files: map<Path, Row>, objects: map<Path, multiset<Rec>>, after: map<Path, multiset<Rec>>)
    requires SameLive(files, objects, after)
    ensures Shelf(files, after) == Shelf(files, objects)
  {
  }

  lemma {:induction false} GatherSame(objects: map<Path, multiset<Rec>>, after: map<Path, multiset<Rec>>, inputs: seq<Path>)
    requires forall p :: p in inputs ==> (p in objects <==> p in after) && (p in objects ==> after[p] == objects[p])
    ensures Gather(after, inputs) == Gather(objects, inputs)
    decreases |inputs|
  {
    if inputs != [] {
      GatherSame(objects, after, inputs[..|inputs| - 1]);
    }
  }

  /** What becomes of other objects and other declarations is nothing to a merge. */
  lemma MergeUndisturbed(cfg: Config, merge: Merge, files: map<Path, Row>, pending: map<Path, int>, pendingAfter: map<Path, int>, objects: map<Path, multiset<Rec>>, after: map<Path, multiset<Rec>>, now: int)
    requires MergeOk(cfg, merge, files, pending, objects, now) && SameLive(files, objects, after)
    requires merge.Merging? && now <= merge.declared + cfg.orphanGrace ==>
               && merge.name in pendingAfter && pendingAfter[merge.name] == pending[merge.name]
               && (merge.written ==> merge.name in after && after[merge.name] == objects[merge.name])
    ensures MergeOk(cfg, merge, files, pendingAfter, after, now)
  {
    if merge.Merging? {
      GatherSame(objects, after, merge.inputs);
    }
  }

  /** Writing an object no row points at, under a name no merge is using, disturbs only the flusher. */
  lemma WrittenAside(cfg: Config, s: Store, p: Path, content: multiset<Rec>)
    requires RowsOk(s.cat.files, s.objects, s.base) && ReadersOk(cfg, s.readers, s.cat.files, s.objects, s.now)
    requires MergeOk(cfg, s.merge, s.cat.files, s.cat.pending, s.objects, s.now) && p !in s.cat.files
    ensures var after := s.objects[p := content];
            && Shelf(s.cat.files, after) == Shelf(s.cat.files, s.objects)
            && RowsOk(s.cat.files, after, s.base)
            && ReadersOk(cfg, s.readers, s.cat.files, after, s.now)
            && ((s.merge.Merging? ==> s.merge.name != p) ==> MergeOk(cfg, s.merge, s.cat.files, s.cat.pending, after, s.now))
  {
    var after := s.objects[p := content];
    ShelfSame(s.cat.files, s.objects, after);
    if s.merge.Merging? ==> s.merge.name != p {
      MergeUndisturbed(cfg, s.merge, s.cat.files, s.cat.pending, s.cat.pending, s.objects, after, s.now);
    }
  }

  lemma WriteFlush(cfg: Config, s: Store, stream: string)
    requires MayWrite(s, stream) && FlushOk(cfg, s.flush, s.sealed, s.cat.files, s.cat.pending, s.objects, s.now)
    ensures var t := DoWrite(cfg, s, stream); FlushOk(cfg, t.flush, s.sealed, s.cat.files, s.cat.pending, t.objects, s.now)
  {
  }

  lemma WriteKeeps(cfg: Config, s: Store, stream: string)
    requires Inv(cfg, s)
    ensures Inv(cfg, DoWrite(cfg, s, stream))
  {
    if MayWrite(s, stream) {
      WrittenAside(cfg, s, NameOf(cfg, s.flush.recs, stream), Part(s.flush.recs, stream));
      WriteFlush(cfg, s, stream);
    }
  }

  lemma WriteMerge(cfg: Config, s: Store)
    requires s.merge.Merging? && MergeOk(cfg, s.merge, s.cat.files, s.cat.pending, s.objects, s.now)
    ensures var t := DoWriteMerged(s); MergeOk(cfg, t.merge, s.cat.files, s.cat.pending, t.objects, s.now)
  {
    GatherSame(s.objects, DoWriteMerged(s).objects, s.merge.inputs);
  }

  lemma WriteMergedKeeps(cfg: Config, s: Store)
    requires Inv(cfg, s)
    ensures Inv(cfg, DoWriteMerged(s))
  {
    if s.merge.Merging? {
      WrittenAside(cfg, s, s.merge.name, s.merge.kept);
      WriteMergedWork(cfg, s);
    }
  }

  lemma WriteMergedWork(cfg: Config, s: Store)
    requires s.merge.Merging? && WorkOk(cfg, s)
    requires ReadersOk(cfg, s.readers, s.cat.files, s.objects[s.merge.name := s.merge.kept], s.now)
    ensures WorkOk(cfg, DoWriteMerged(s))
  {
    WriteMerge(cfg, s);
    WriteMergedFlush(cfg, s, s.objects[s.merge.name := s.merge.kept]);
  }

  lemma WriteMergedFlush(cfg: Config, s: Store, after: map<Path, multiset<Rec>>)
    requires FlushOk(cfg, s.flush, s.sealed, s.cat.files, s.cat.pending, s.objects, s.now)
    requires forall p: Path :: p.level == 0 && p in s.objects ==> p in after && after[p] == s.objects[p]
    ensures FlushOk(cfg, s.flush, s.sealed, s.cat.files, s.cat.pending, after, s.now)
  {
  }

  lemma SkipWork(cfg: Config, s: Store, stream: string)
    requires WorkOk(cfg, s)
    ensures WorkOk(cfg, DoSkip(s, stream))
  {
  }

  lemma SkipData(cfg: Config, s: Store, stream: string)
    requires DataOk(cfg, s)
    ensures DataOk(cfg, DoSkip(s, stream))
  {
    SameData(cfg, s, DoSkip(s, stream));
  }

  lemma SkipKeeps(cfg: Config, s: Store, stream: string)
    requires Inv(cfg, s)
    ensures Inv(cfg, DoSkip(s, stream))
  {
    SkipWork(cfg, s, stream);
    SkipData(cfg, s, stream);
  }

  // ---- registering ----

  lemma SameName(cfg: Config, s: Store, n: nat, stream: string, m: nat, other: string)
    requires SegmentsOk(s.known, s.seqno, s.base, s.number, s.active, s.sealed)
    requires n in s.sealed && m in s.sealed && stream in Streams(s.sealed[n]) && other in Streams(s.sealed[m])
    requires NameOf(cfg, s.sealed[n], stream) == NameOf(cfg, s.sealed[m], other)
    ensures n == m && stream == other
  {
    var i := NameIsARecord(cfg, s.sealed[n], stream);
    var j := NameIsARecord(cfg, s.sealed[m], other);
    assert s.sealed[n][i] == s.sealed[m][j];
    assert s.sealed[n][i].seqno == s.sealed[m][j].seqno;
  }

  /** What the flusher is about to register: records that are nowhere but in its segment. */
  ghost predicate Registering(cfg: Config, s: Store, f: File, name: Path, content: multiset<Rec>) {
    && MayRegister(cfg, s, f)
    && name == NameOf(cfg, s.flush.recs, s.flush.writing.value) && content == Part(s.flush.recs, s.flush.writing.value)
  }

  ghost predicate SegmentsLand(cfg: Config, s: Store) {
    && SegmentsOk(s.known, s.seqno, s.base, s.number, s.active, s.sealed)
    && LandingOk(cfg, s.sealed, s.cat.files, Shelf(s.cat.files, s.objects), s.discarded)
    && FlushOk(cfg, s.flush, s.sealed, s.cat.files, s.cat.pending, s.objects, s.now)
  }

  lemma PartRecord(cfg: Config, s: Store, f: File, name: Path, content: multiset<Rec>, r: Rec) returns (i: nat)
    requires SegmentsLand(cfg, s) && Registering(cfg, s, f, name, content) && r in content
    ensures s.flush.n in s.sealed && i < |s.sealed[s.flush.n]| && s.sealed[s.flush.n][i] == r
    ensures content[r] == 1 && !Landed(cfg, s.cat.files, s.sealed[s.flush.n], i)
  {
    RisingPart(s.flush.recs, s.flush.writing.value);
    i :| 0 <= i < |s.flush.recs| && s.flush.recs[i] == r;
  }

  lemma PartIsNew(cfg: Config, s: Store, f: File, name: Path, content: multiset<Rec>)
    requires SegmentsLand(cfg, s) && Registering(cfg, s, f, name, content)
    ensures name !in s.cat.files && name in s.objects && s.objects[name] == content
    ensures forall r :: r in content ==>
              content[r] == 1 && r in s.known && r.seqno <= s.base && r !in s.discarded && !OnShelf(Shelf(s.cat.files, s.objects), r)
  {
    forall r | r in content
      ensures content[r] == 1 && r in s.known && r.seqno <= s.base && r !in s.discarded && !OnShelf(Shelf(s.cat.files, s.objects), r)
    {
      var i := PartRecord(cfg, s, f, name, content, r);
    }
  }

  lemma ShelfGains(files: map<Path, Row>, objects: map<Path, multiset<Rec>>, p: Path, row: Row)
    requires p !in files && p in objects && row.state.Live?
    ensures Shelf(files[p := row], objects) == Shelf(files, objects)[p := objects[p]]
  {
  }

  lemma GainOnShelf(live: map<Path, multiset<Rec>>, p: Path, content: multiset<Rec>)
    requires p !in live
    ensures forall r :: OnShelf(live[p := content], r) <==> OnShelf(live, r) || r in content
  {
    var after := live[p := content];
    forall r
      ensures OnShelf(after, r) <==> OnShelf(live, r) || r in content
    {
      if r in content {
        assert after[p] == content;
      }
      if OnShelf(live, r) {
        var q :| q in live && r in live[q];
        assert after[q] == live[q];
      }
    }
  }

  /** New records in a new file: nothing on the shelf is held twice. */
  lemma GainShelf(live: map<Path, multiset<Rec>>, p: Path, content: multiset<Rec>, known: set<Rec>, discarded: set<Rec>, base: nat, maxSeq: nat, maxAfter: nat)
    requires ShelfOk(live, known, discarded, base, maxSeq) && maxSeq <= maxAfter && p !in live
    requires forall r :: r in content ==> content[r] == 1 && r in known && r.seqno <= base && r.seqno <= maxAfter && r !in discarded
    requires forall q, r :: q in live && r in content ==> r !in live[q]
    ensures ShelfOk(live[p := content], known, discarded, base, maxAfter)
  {
    GainDisjoint(live, p, content);
    var after := live[p := content];
    forall q, r | q in after && r in after[q]
      ensures r in known && r.seqno <= base && r.seqno <= maxAfter && r !in discarded
    {
      if q != p {
        assert q in live && after[q] == live[q] && r in live[q];
      }
    }
  }

  lemma GainDisjoint(live: map<Path, multiset<Rec>>, p: Path, content: multiset<Rec>)
    requires Disjoint(live) && p !in live
    requires forall r :: r in content ==> content[r] == 1
    requires forall q, r :: q in live && r in content ==> r !in live[q]
    ensures Disjoint(live[p := content])
  {
    var after := live[p := content];
    forall q, r | q in after && r in after[q] ensures after[q][r] == 1 {
      if q != p {
        assert q in live && after[q] == live[q] && r in live[q];
      }
    }
    forall q, t, r | q in after && t in after && r in after[q] && r in after[t]
      ensures q == t
    {
      if q != p && t != p {
        assert q in live && t in live && r in live[q] && r in live[t];
      }
    }
  }

  lemma RegisterLanding(cfg: Config, s: Store, f: File, name: Path, content: multiset<Rec>, live: map<Path, multiset<Rec>>, files: map<Path, Row>)
    requires SegmentsLand(cfg, s) && Registering(cfg, s, f, name, content)
    requires files.Keys == s.cat.files.Keys + {name}
    requires forall r :: OnShelf(live, r) <==> OnShelf(Shelf(s.cat.files, s.objects), r) || r in content
    ensures LandingOk(cfg, s.sealed, files, live, s.discarded)
  {
    forall n, i | n in s.sealed && 0 <= i < |s.sealed[n]|
      ensures Landed(cfg, files, s.sealed[n], i) <==> OnShelf(live, s.sealed[n][i]) || s.sealed[n][i] in s.discarded
    {
      RegisterLandsPart(cfg, s, f, name, content, n, i);
    }
  }

  /** The part registered is exactly the records whose file this is. */
  lemma RegisterLandsPart(cfg: Config, s: Store, f: File, name: Path, content: multiset<Rec>, n: nat, i: nat)
    requires SegmentsOk(s.known, s.seqno, s.base, s.number, s.active, s.sealed)
    requires FlushOk(cfg, s.flush, s.sealed, s.cat.files, s.cat.pending, s.objects, s.now) && Registering(cfg, s, f, name, content)
    requires n in s.sealed && i < |s.sealed[n]|
    ensures s.sealed[n][i] in content <==> NameOf(cfg, s.sealed[n], s.sealed[n][i].stream) == name
  {
    var recs, stream, r := s.flush.recs, s.flush.writing.value, s.sealed[n][i];
    RisingPart(recs, stream);
    if NameOf(cfg, s.sealed[n], r.stream) == name {
      SameName(cfg, s, n, r.stream, s.flush.n, stream);
    }
    if r in content {
      OfOneSegment(s, n, i);
    }
  }

  /** A record of the segment being flushed is of no other. */
  lemma OfOneSegment(s: Store, n: nat, i: nat)
    requires SegmentsOk(s.known, s.seqno, s.base, s.number, s.active, s.sealed)
    requires !s.flush.Resting? && s.flush.n in s.sealed && s.flush.recs == s.sealed[s.flush.n]
    requires n in s.sealed && i < |s.sealed[n]| && s.sealed[n][i] in s.flush.recs
    ensures n == s.flush.n
  {
    var j :| 0 <= j < |s.flush.recs| && s.flush.recs[j] == s.sealed[n][i];
    assert s.sealed[s.flush.n][j].seqno == s.sealed[n][i].seqno;
  }

  lemma RegisterNames(cfg: Config, s: Store, f: File, name: Path, content: multiset<Rec>, files: map<Path, Row>)
    requires SegmentsLand(cfg, s) && Registering(cfg, s, f, name, content)
    requires NamesOk(cfg, s.sealed, s.cat.files, Shelf(s.cat.files, s.objects)) && files.Keys == s.cat.files.Keys + {name}
    ensures NamesOk(cfg, s.sealed, files, Shelf(s.cat.files, s.objects)[name := content])
  {
    var live := Shelf(s.cat.files, s.objects);
    forall p, r | p in s.cat.files && p.level >= 1 && p.rewrite.None? && r in content
      ensures r.seqno != p.first
    {
      var i := PartRecord(cfg, s, f, name, content, r);
    }
    NamesGain(cfg, s.sealed, s.cat.files, files, live, name, content);
  }

  /** A new live file disturbs no name, if it holds none of the records names of higher levels came from. */
  lemma NamesGain(cfg: Config, sealed: map<nat, seq<Rec>>, files: map<Path, Row>, after: map<Path, Row>, live: map<Path, multiset<Rec>>, name: Path, content: multiset<Rec>)
    requires NamesOk(cfg, sealed, files, live) && after.Keys == files.Keys + {name} && name.level == 0
    requires forall p, r :: p in files && p.level >= 1 && p.rewrite.None? && r in content ==> r.seqno != p.first
    ensures NamesOk(cfg, sealed, after, live[name := content])
  {
    forall p, n, i | p in after && p.level >= 1 && p.rewrite.None? && n in sealed && 0 <= i < |sealed[n]| && !Landed(cfg, after, sealed[n], i)
      ensures sealed[n][i].seqno != p.first
    {
      assert !Landed(cfg, files, sealed[n], i);
    }
  }

  lemma RegisterFlush(cfg: Config, s: Store, f: File, name: Path, content: multiset<Rec>)
    requires SegmentsOk(s.known, s.seqno, s.base, s.number, s.active, s.sealed)
    requires FlushOk(cfg, s.flush, s.sealed, s.cat.files, s.cat.pending, s.objects, s.now) && Registering(cfg, s, f, name, content)
    ensures var t := DoRegister(cfg, s, f); FlushOk(cfg, t.flush, s.sealed, t.cat.files, t.cat.pending, s.objects, s.now)
  {
    var recs, stream := s.flush.recs, s.flush.writing.value;
    forall other | other in s.flush.todo && other != stream
      ensures NameOf(cfg, recs, other) != name
    {
      if NameOf(cfg, recs, other) == name {
        SameName(cfg, s, s.flush.n, other, s.flush.n, stream);
      }
    }
  }

  lemma RegisterPlaces(s: Store, live: map<Path, multiset<Rec>>, after: map<Path, multiset<Rec>>)
    requires PlacesOk(s.known, s.stored, live, s.discarded, s.sealed, s.active, s.synced)
    requires forall r :: OnShelf(live, r) ==> OnShelf(after, r)
    ensures PlacesOk(s.known, s.stored, after, s.discarded, s.sealed, s.active, s.synced)
  {
  }

  lemma NotOnShelf(live: map<Path, multiset<Rec>>, content: multiset<Rec>)
    requires forall r :: r in content ==> !OnShelf(live, r)
    ensures forall q, r :: q in live && r in content ==> r !in live[q]
  {
    forall q, r | q in live && r in content
      ensures r !in live[q]
    {
      assert !OnShelf(live, r);
    }
  }

  /** The row a flush adds: its name and its range come from records of its segment. */
  lemma RegisterRows(files: map<Path, Row>, objects: map<Path, multiset<Rec>>, base: nat, id: nat, f: File)
    requires RowsOk(files, objects, base) && RewritesOk(files, id) && f.path !in files
    requires f.path in objects && f.level == f.path.level && f.path.first <= base && f.path.first <= f.maxSeq && f.path.rewrite.None?
    ensures RowsOk(files[f.path := Row(id, f, Live)], objects, base) && RewritesOk(files[f.path := Row(id, f, Live)], id + 1)
  {
  }

  lemma NameInRange(cfg: Config, s: Store, f: File, name: Path, content: multiset<Rec>)
    requires SegmentsLand(cfg, s) && Registering(cfg, s, f, name, content)
    ensures f.path == name && name.first <= s.base && name.first <= f.maxSeq && name.rewrite.None? && name.level == 0
  {
    var i := NameIsARecord(cfg, s.flush.recs, s.flush.writing.value);
    RisingPart(s.flush.recs, s.flush.writing.value);
    assert s.flush.recs[i] in content;
  }

  lemma RegisterShelf(cfg: Config, s: Store, f: File, name: Path, content: multiset<Rec>)
    requires SegmentsLand(cfg, s) && Registering(cfg, s, f, name, content)
    requires ShelfOk(Shelf(s.cat.files, s.objects), s.known, s.discarded, s.base, s.cat.maxSeq)
    ensures var t := DoRegister(cfg, s, f);
            var live := Shelf(s.cat.files, s.objects);
            && name !in s.cat.files && name !in live && name in s.objects
            && t.cat.files == s.cat.files[name := Row(s.cat.nextId, f, Live)]
            && Shelf(t.cat.files, s.objects) == live[name := content]
            && ShelfOk(live[name := content], s.known, s.discarded, s.base, t.cat.maxSeq)
            && (forall r :: OnShelf(live[name := content], r) <==> OnShelf(live, r) || r in content)
  {
    var live := Shelf(s.cat.files, s.objects);
    PartIsNew(cfg, s, f, name, content);
    ShelfGains(s.cat.files, s.objects, name, Row(s.cat.nextId, f, Live));
    NotOnShelf(live, content);
    GainShelf(live, name, content, s.known, s.discarded, s.base, s.cat.maxSeq, Register(s.cat, f).0.maxSeq);
    GainOnShelf(live, name, content);
  }

  /** The new shelf, and what is true of it. */
  lemma RegisterHolds(cfg: Config, s: Store, f: File, name: Path, content: multiset<Rec>)
    requires SegmentsLand(cfg, s) && Registering(cfg, s, f, name, content)
    requires ShelfOk(Shelf(s.cat.files, s.objects), s.known, s.discarded, s.base, s.cat.maxSeq)
    ensures var t := DoRegister(cfg, s, f); ShelfOk(Shelf(t.cat.files, t.objects), t.known, t.discarded, t.base, t.cat.maxSeq)
  {
    RegisterShelf(cfg, s, f, name, content);
  }

  lemma RegisterRecords(cfg: Config, s: Store, f: File, name: Path, content: multiset<Rec>)
    requires SegmentsLand(cfg, s) && Registering(cfg, s, f, name, content)
    requires ShelfOk(Shelf(s.cat.files, s.objects), s.known, s.discarded, s.base, s.cat.maxSeq)
    requires NamesOk(cfg, s.sealed, s.cat.files, Shelf(s.cat.files, s.objects))
    ensures var t := DoRegister(cfg, s, f);
            var live := Shelf(t.cat.files, t.objects);
            LandingOk(cfg, t.sealed, t.cat.files, live, t.discarded) && NamesOk(cfg, t.sealed, t.cat.files, live)
  {
    RegisterShelf(cfg, s, f, name, content);
    RegisterMore(cfg, s, f, name, content, DoRegister(cfg, s, f).cat.files);
  }

  lemma RegisterMore(cfg: Config, s: Store, f: File, name: Path, content: multiset<Rec>, files: map<Path, Row>)
    requires SegmentsLand(cfg, s) && Registering(cfg, s, f, name, content) && files.Keys == s.cat.files.Keys + {name}
    requires ShelfOk(Shelf(s.cat.files, s.objects), s.known, s.discarded, s.base, s.cat.maxSeq)
    requires NamesOk(cfg, s.sealed, s.cat.files, Shelf(s.cat.files, s.objects))
    requires var live := Shelf(s.cat.files, s.objects); forall r :: OnShelf(live[name := content], r) <==> OnShelf(live, r) || r in content
    ensures var live := Shelf(s.cat.files, s.objects)[name := content];
            LandingOk(cfg, s.sealed, files, live, s.discarded) && NamesOk(cfg, s.sealed, files, live)
  {
    RegisterLanding(cfg, s, f, name, content, Shelf(s.cat.files, s.objects)[name := content], files);
    RegisterNames(cfg, s, f, name, content, files);
  }

  lemma RegisterPlaced(cfg: Config, s: Store, f: File, name: Path, content: multiset<Rec>)
    requires SegmentsLand(cfg, s) && Registering(cfg, s, f, name, content)
    requires ShelfOk(Shelf(s.cat.files, s.objects), s.known, s.discarded, s.base, s.cat.maxSeq)
    requires PlacesOk(s.known, s.stored, Shelf(s.cat.files, s.objects), s.discarded, s.sealed, s.active, s.synced)
    ensures var t := DoRegister(cfg, s, f); PlacesOk(t.known, t.stored, Shelf(t.cat.files, t.objects), t.discarded, t.sealed, t.active, t.synced)
  {
    RegisterShelf(cfg, s, f, name, content);
    RegisterPlaces(s, Shelf(s.cat.files, s.objects), Shelf(s.cat.files, s.objects)[name := content]);
  }

  lemma RegisterCatalog(cfg: Config, s: Store, f: File, name: Path, content: multiset<Rec>)
    requires SegmentsLand(cfg, s) && Registering(cfg, s, f, name, content)
    requires RowsOk(s.cat.files, s.objects, s.base) && RewritesOk(s.cat.files, s.cat.nextId) && Catalog.Inv(s.cat)
    requires DiscardedOk(s.known, s.discarded, s.base, s.cat.maxSeq)
    ensures var t := DoRegister(cfg, s, f);
            && RowsOk(t.cat.files, t.objects, t.base) && RewritesOk(t.cat.files, t.cat.nextId) && Catalog.Inv(t.cat)
            && DiscardedOk(t.known, t.discarded, t.base, t.cat.maxSeq)
  {
    PartIsNew(cfg, s, f, name, content);
    NameInRange(cfg, s, f, name, content);
    RegisterRows(s.cat.files, s.objects, s.base, s.cat.nextId, f);
    InsertInv(s.cat, f, true);
  }

  lemma RegisterData(cfg: Config, s: Store, f: File, name: Path, content: multiset<Rec>)
    requires DataOk(cfg, s) && SegmentsLand(cfg, s) && Registering(cfg, s, f, name, content)
    ensures DataOk(cfg, DoRegister(cfg, s, f))
  {
    RegisterHolds(cfg, s, f, name, content);
    RegisterRecords(cfg, s, f, name, content);
    RegisterPlaced(cfg, s, f, name, content);
    RegisterCatalog(cfg, s, f, name, content);
    var t := DoRegister(cfg, s, f);
    assert SegmentsOk(t.known, t.seqno, t.base, t.number, t.active, t.sealed);
  }

  lemma RegisterWork(cfg: Config, s: Store, f: File, name: Path, content: multiset<Rec>)
    requires WorkOk(cfg, s) && SegmentsLand(cfg, s) && Registering(cfg, s, f, name, content) && RowsOk(s.cat.files, s.objects, s.base)
    ensures WorkOk(cfg, DoRegister(cfg, s, f))
  {
    PartIsNew(cfg, s, f, name, content);
    RegisterFlush(cfg, s, f, name, content);
    RegisterMerge(cfg, s, f, name);
  }

  lemma RegisterMerge(cfg: Config, s: Store, f: File, name: Path)
    requires MergeOk(cfg, s.merge, s.cat.files, s.cat.pending, s.objects, s.now)
    requires name !in s.cat.files && name.level == 0 && f.path == name
    ensures MergeOk(cfg, s.merge, Register(s.cat, f).0.files, Register(s.cat, f).0.pending, s.objects, s.now)
  {
  }

  lemma RegisterKeeps(cfg: Config, s: Store, f: File)
    requires Inv(cfg, s)
    ensures Inv(cfg, DoRegister(cfg, s, f))
  {
    if MayRegister(cfg, s, f) {
      var name, content := NameOf(cfg, s.flush.recs, s.flush.writing.value), Part(s.flush.recs, s.flush.writing.value);
      RegisterData(cfg, s, f, name, content);
      RegisterWork(cfg, s, f, name, content);
    }
  }

  // ---- finishing ----

  lemma FinishWork(cfg: Config, s: Store, removed: bool)
    requires WorkOk(cfg, s)
    ensures WorkOk(cfg, DoFinish(s, removed))
  {
  }

  /** A segment every stream of which has landed holds nothing that is not in a live file or discarded. */
  lemma FinishPlaces(cfg: Config, s: Store, live: map<Path, multiset<Rec>>)
    requires LandingOk(cfg, s.sealed, s.cat.files, live, s.discarded)
    requires FlushOk(cfg, s.flush, s.sealed, s.cat.files, s.cat.pending, s.objects, s.now)
    requires s.flush.Persisting? && s.flush.todo == {} && !s.flush.failed
    requires PlacesOk(s.known, s.stored, live, s.discarded, s.sealed, s.active, s.synced)
    ensures PlacesOk(s.known, s.stored, live, s.discarded, s.sealed - {s.flush.n}, s.active, s.synced)
  {
    var n := s.flush.n;
    var left := s.sealed - {n};
    forall r | r in s.known && InSealed(s.sealed, r)
      ensures OnShelf(live, r) || r in s.discarded || InSealed(left, r)
    {
      var m, i :| m in s.sealed && 0 <= i < |s.sealed[m]| && s.sealed[m][i] == r;
      if m == n {
        assert r.stream in Streams(s.sealed[n]);
        assert Landed(cfg, s.cat.files, s.sealed[n], i);
      } else {
        assert m in left && left[m] == s.sealed[m];
      }
    }
  }

  lemma FewerSegments(cfg: Config, s: Store, live: map<Path, multiset<Rec>>, n: nat)
    requires SegmentsOk(s.known, s.seqno, s.base, s.number, s.active, s.sealed)
    requires LandingOk(cfg, s.sealed, s.cat.files, live, s.discarded) && NamesOk(cfg, s.sealed, s.cat.files, live)
    ensures SegmentsOk(s.known, s.seqno, s.base, s.number, s.active, s.sealed - {n})
    ensures LandingOk(cfg, s.sealed - {n}, s.cat.files, live, s.discarded) && NamesOk(cfg, s.sealed - {n}, s.cat.files, live)
  {
  }

  lemma FinishKeeps(cfg: Config, s: Store, removed: bool)
    requires Inv(cfg, s)
    ensures Inv(cfg, DoFinish(s, removed))
  {
    FinishWork(cfg, s, removed);
    if s.flush.Persisting? && s.flush.todo == {} && removed && !s.flush.failed {
      var live := Shelf(s.cat.files, s.objects);
      FinishPlaces(cfg, s, live);
      FewerSegments(cfg, s, live, s.flush.n);
    }
  }

  // ---- merging ----

  /** A merge takes what all its inputs hold. */
  ghost predicate InInputs(live: map<Path, multiset<Rec>>, inputs: seq<Path>, r: Rec) {
    exists i :: 0 <= i < |inputs| && inputs[i] in live && r in live[inputs[i]]
  }

  lemma InInputsStep(live: map<Path, multiset<Rec>>, inputs: seq<Path>, r: Rec)
    requires inputs != []
    ensures var n := |inputs| - 1;
            InInputs(live, inputs, r) <==> InInputs(live, inputs[..n], r) || (inputs[n] in live && r in live[inputs[n]])
  {
    var front := inputs[..|inputs| - 1];
    if InInputs(live, front, r) {
      var i :| 0 <= i < |front| && front[i] in live && r in live[front[i]];
      assert inputs[i] == front[i];
    }
    if InInputs(live, inputs, r) {
      var i :| 0 <= i < |inputs| && inputs[i] in live && r in live[inputs[i]];
      assert i < |front| ==> front[i] == inputs[i];
    }
  }

  lemma {:induction false} GatherRecord(objects: map<Path, multiset<Rec>>, live: map<Path, multiset<Rec>>, inputs: seq<Path>, r: Rec)
    requires Disjoint(live) && Distinct(inputs)
    requires forall i :: 0 <= i < |inputs| ==> inputs[i] in live && inputs[i] in objects && objects[inputs[i]] == live[inputs[i]]
    ensures r in Gather(objects, inputs) <==> InInputs(live, inputs, r)
    ensures Gather(objects, inputs)[r] <= 1
    decreases |inputs|
  {
    if inputs != [] {
      var front := inputs[..|inputs| - 1];
      GatherRecord(objects, live, front, r);
      InInputsStep(live, inputs, r);
      if InInputs(live, front, r) {
        var i :| 0 <= i < |front| && front[i] in live && r in live[front[i]];
        assert inputs[i] == front[i];
        assert inputs[i] != inputs[|inputs| - 1];
      }
    }
  }

  lemma GatherOnce(objects: map<Path, multiset<Rec>>, live: map<Path, multiset<Rec>>, inputs: seq<Path>)
    requires Disjoint(live) && Distinct(inputs)
    requires forall i :: 0 <= i < |inputs| ==> inputs[i] in live && inputs[i] in objects && objects[inputs[i]] == live[inputs[i]]
    ensures forall r :: r in Gather(objects, inputs) <==> InInputs(live, inputs, r)
    ensures forall r :: Gather(objects, inputs)[r] <= 1
  {
    forall r
      ensures r in Gather(objects, inputs) <==> InInputs(live, inputs, r)
      ensures Gather(objects, inputs)[r] <= 1
    {
      GatherRecord(objects, live, inputs, r);
    }
  }

  /** The name of a merge is never taken, although two streams may share a directory. */
  lemma MergeNameIsFree(cfg: Config, s: Store, inputs: seq<Path>, kept: multiset<Rec>, first: Rec)
    requires Inv(cfg, s) && MayMerge(s, inputs, kept, first)
    ensures MergedName(cfg, s.cat.files[inputs[0]].file.stream, inputs[0].level + 1, first) !in s.cat.files
  {
    var live := Shelf(s.cat.files, s.objects);
    KeptIsIn(s, inputs, kept, first, live);
    NameIsFree(cfg, s.sealed, s.cat.files, live, inputs, first, MergedName(cfg, s.cat.files[inputs[0]].file.stream, inputs[0].level + 1, first));
  }

  lemma KeptIsIn(s: Store, inputs: seq<Path>, kept: multiset<Rec>, first: Rec, live: map<Path, multiset<Rec>>)
    requires MayMerge(s, inputs, kept, first) && live == Shelf(s.cat.files, s.objects) && Disjoint(live)
    requires forall p :: LiveAt(s.cat.files, p) ==> p in s.objects
    ensures InInputs(live, inputs, first) && forall i :: 0 <= i < |inputs| ==> inputs[i].level < inputs[0].level + 1
  {
    InputsReadable(s, inputs);
    GatherRecord(s.objects, live, inputs, first);
    forall i | 0 <= i < |inputs|
      ensures inputs[i].level == inputs[0].level
    {
      assert inputs[i] in inputs;
    }
  }

  lemma NameIsFree(cfg: Config, sealed: map<nat, seq<Rec>>, files: map<Path, Row>, live: map<Path, multiset<Rec>>, inputs: seq<Path>, first: Rec, name: Path)
    requires NamesOk(cfg, sealed, files, live) && InInputs(live, inputs, first)
    requires name.level >= 1 && name.rewrite.None? && name.first == first.seqno
    requires forall i :: 0 <= i < |inputs| ==> inputs[i].level < name.level
    ensures name !in files
  {
    var i :| 0 <= i < |inputs| && inputs[i] in live && first in live[inputs[i]];
  }

  /** Nor is that of a rewrite: it carries the id of a file that is still live. */
  lemma RewriteNameIsFree(cfg: Config, s: Store, input: Path, kept: multiset<Rec>, first: Rec)
    requires Inv(cfg, s) && MayMerge(s, [input], kept, first)
    ensures input in s.cat.files
    ensures MergedName(cfg, s.cat.files[input].file.stream, input.level, first).(rewrite := Some(s.cat.files[input].id)) !in s.cat.files
  {
    assert input in [input];
  }

  lemma DeclaringWork(cfg: Config, s: Store, inputs: seq<Path>, kept: multiset<Rec>, first: Rec, name: Path)
    requires WorkOk(cfg, s) && MayMerge(s, inputs, kept, first) && name !in s.cat.files
    requires name.level >= 1 && name.first == first.seqno
    requires if name.rewrite.None? then inputs[0].level + 1 == name.level
             else |inputs| == 1 && inputs[0].level == name.level && name.rewrite.value == s.cat.files[inputs[0]].id
    ensures WorkOk(cfg, Declaring(s, inputs, kept, name))
  {
    var t := Declaring(s, inputs, kept, name);
    assert name in t.cat.pending && t.cat.pending[name] == s.now;
    assert MergeOk(cfg, t.merge, t.cat.files, t.cat.pending, t.objects, t.now);
  }

  lemma DeclaringKeeps(cfg: Config, s: Store, inputs: seq<Path>, kept: multiset<Rec>, first: Rec, name: Path)
    requires Inv(cfg, s) && MayMerge(s, inputs, kept, first) && name !in s.cat.files
    requires name.level >= 1 && name.first == first.seqno
    requires if name.rewrite.None? then inputs[0].level + 1 == name.level
             else |inputs| == 1 && inputs[0].level == name.level && name.rewrite.value == s.cat.files[inputs[0]].id
    ensures Inv(cfg, Declaring(s, inputs, kept, name))
  {
    IntendInv(s.cat, {name}, s.now);
    SameData(cfg, s, Declaring(s, inputs, kept, name));
    DeclaringWork(cfg, s, inputs, kept, first, name);
  }

  lemma BeginMergeKeeps(cfg: Config, s: Store, inputs: seq<Path>, kept: multiset<Rec>, first: Rec)
    requires Inv(cfg, s)
    ensures Inv(cfg, DoBeginMerge(cfg, s, inputs, kept, first))
  {
    if MayMerge(s, inputs, kept, first) {
      MergeNameIsFree(cfg, s, inputs, kept, first);
      DeclaringKeeps(cfg, s, inputs, kept, first, MergedName(cfg, s.cat.files[inputs[0]].file.stream, inputs[0].level + 1, first));
    }
  }

  lemma BeginRewriteKeeps(cfg: Config, s: Store, input: Path, kept: multiset<Rec>, first: Rec)
    requires Inv(cfg, s)
    ensures Inv(cfg, DoBeginRewrite(cfg, s, input, kept, first))
  {
    if MayMerge(s, [input], kept, first) && input.level >= 1 {
      RewriteNameIsFree(cfg, s, input, kept, first);
      DeclaringKeeps(cfg, s, [input], kept, first,
                     MergedName(cfg, s.cat.files[input].file.stream, input.level, first).(rewrite := Some(s.cat.files[input].id)));
    }
  }

  lemma AbortKeeps(cfg: Config, s: Store)
    requires Inv(cfg, s)
    ensures Inv(cfg, DoAbort(s))
  {
    SameData(cfg, s, DoAbort(s));
  }

  // ---- publishing a merge, and dropping files ----

  /** The shelf after a merge: inputs gone, perhaps one output in their place. */
  ghost predicate Swapped(live: map<Path, multiset<Rec>>, after: map<Path, multiset<Rec>>, inputs: seq<Path>, out: Option<Path>, kept: multiset<Rec>) {
    && (forall p :: p in after <==> (p in live && p !in inputs) || out == Some(p))
    && (forall p :: p in live && p !in inputs ==> after[p] == live[p])
    && (if out.Some? then out.value !in live && after[out.value] == kept else kept == multiset{})
  }

  /** What a merge keeps and drops is exactly what its inputs held. */
  ghost predicate Split(live: map<Path, multiset<Rec>>, inputs: seq<Path>, kept: multiset<Rec>, dropped: set<Rec>) {
    && (forall r :: r in kept ==> kept[r] == 1)
    && (forall r :: InInputs(live, inputs, r) <==> r in kept || r in dropped)
    && (forall r :: r in kept ==> r !in dropped)
  }

  lemma GatherSplits(objects: map<Path, multiset<Rec>>, live: map<Path, multiset<Rec>>, inputs: seq<Path>, kept: multiset<Rec>)
    requires Disjoint(live) && Distinct(inputs) && kept <= Gather(objects, inputs)
    requires forall i :: 0 <= i < |inputs| ==> inputs[i] in live && inputs[i] in objects && objects[inputs[i]] == live[inputs[i]]
    ensures Split(live, inputs, kept, Dropped(objects, inputs, kept))
  {
    GatherOnce(objects, live, inputs);
    forall r | r in kept
      ensures kept[r] == 1 && r in Gather(objects, inputs)
    {
      assert kept[r] <= Gather(objects, inputs)[r];
    }
  }

  lemma KeptWasLive(live: map<Path, multiset<Rec>>, inputs: seq<Path>, kept: multiset<Rec>, dropped: set<Rec>, r: Rec) returns (p: Path)
    requires Split(live, inputs, kept, dropped) && (r in kept || r in dropped)
    ensures p in live && r in live[p] && p in inputs
  {
    assert InInputs(live, inputs, r);
    var i :| 0 <= i < |inputs| && inputs[i] in live && r in live[inputs[i]];
    p := inputs[i];
  }

  /** Nothing appears on the shelf or leaves it for nowhere. */
  lemma SwapPlaces(live: map<Path, multiset<Rec>>, after: map<Path, multiset<Rec>>, inputs: seq<Path>, out: Option<Path>, kept: multiset<Rec>, dropped: set<Rec>, r: Rec)
    requires Swapped(live, after, inputs, out, kept) && Split(live, inputs, kept, dropped)
    ensures OnShelf(after, r) || r in dropped <==> OnShelf(live, r)
  {
    if r in dropped || r in kept {
      var p := KeptWasLive(live, inputs, kept, dropped, r);
    }
    if OnShelf(live, r) && r !in dropped {
      var p :| p in live && r in live[p];
      if p in inputs {
        var i :| 0 <= i < |inputs| && inputs[i] == p;
        assert InInputs(live, inputs, r);
        assert out.Some? && out.value in after && r in after[out.value];
      } else {
        assert p in after && r in after[p];
      }
    }
    if OnShelf(after, r) {
      var p :| p in after && r in after[p];
      if out != Some(p) {
        assert p in live && r in live[p];
      } else {
        assert r in kept;
      }
    }
  }

  /** Where a record on the new shelf was before. */
  lemma SwapOrigin(live: map<Path, multiset<Rec>>, after: map<Path, multiset<Rec>>, inputs: seq<Path>, out: Option<Path>, kept: multiset<Rec>, dropped: set<Rec>, q: Path, r: Rec) returns (p: Path)
    requires Swapped(live, after, inputs, out, kept) && Split(live, inputs, kept, dropped) && q in after && r in after[q]
    ensures p in live && r in live[p]
    ensures if out == Some(q) then p in inputs && r in kept && after[q][r] == 1 else p == q && p !in inputs && after[q] == live[q]
  {
    if out == Some(q) {
      p := KeptWasLive(live, inputs, kept, dropped, r);
    } else {
      p := q;
    }
  }

  lemma SwapOnce(live: map<Path, multiset<Rec>>, after: map<Path, multiset<Rec>>, inputs: seq<Path>, out: Option<Path>, kept: multiset<Rec>, dropped: set<Rec>)
    requires Swapped(live, after, inputs, out, kept) && Split(live, inputs, kept, dropped) && Disjoint(live)
    ensures Disjoint(after)
    ensures forall p, r :: p in after && r in after[p] ==> r !in dropped
  {
    forall q, r | q in after && r in after[q]
      ensures after[q][r] == 1 && r !in dropped
    {
      var p := SwapOrigin(live, after, inputs, out, kept, dropped, q, r);
      if r in dropped {
        var other := KeptWasLive(live, inputs, kept, dropped, r);
      }
    }
    forall q, t, r | q in after && t in after && r in after[q] && r in after[t]
      ensures q == t
    {
      var p := SwapOrigin(live, after, inputs, out, kept, dropped, q, r);
      var u := SwapOrigin(live, after, inputs, out, kept, dropped, t, r);
    }
  }

  lemma SwapShelf(live: map<Path, multiset<Rec>>, after: map<Path, multiset<Rec>>, inputs: seq<Path>, out: Option<Path>, kept: multiset<Rec>, dropped: set<Rec>,
                  known: set<Rec>, discarded: set<Rec>, base: nat, maxSeq: nat, maxAfter: nat)
    requires Swapped(live, after, inputs, out, kept) && Split(live, inputs, kept, dropped) && maxSeq <= maxAfter
    requires ShelfOk(live, known, discarded, base, maxSeq) && DiscardedOk(known, discarded, base, maxSeq)
    ensures ShelfOk(after, known, discarded + dropped, base, maxAfter) && DiscardedOk(known, discarded + dropped, base, maxAfter)
  {
    SwapOnce(live, after, inputs, out, kept, dropped);
    forall q, r | q in after && r in after[q]
      ensures r in known && r.seqno <= base && r.seqno <= maxSeq && r !in discarded
    {
      var p := SwapOrigin(live, after, inputs, out, kept, dropped, q, r);
    }
    forall r | r in dropped
      ensures r in known && r.seqno <= base && r.seqno <= maxSeq
    {
      var p := KeptWasLive(live, inputs, kept, dropped, r);
    }
  }

  /** What a merge or an expiry does to the rows: its inputs retired, its output, if any, inserted. */
  ghost predicate Refiled(files: map<Path, Row>, after: map<Path, Row>, inputs: seq<Path>, out: Option<Row>, now: int) {
    && (forall p :: p in after <==> p in files || (out.Some? && p == out.value.file.path))
    && (forall p :: p in files ==> after[p] == if p in inputs then files[p].(state := Tombstoned(now)) else files[p])
    && (forall p :: p in inputs ==> LiveAt(files, p))
    && (out.Some? ==>
          && var p := out.value.file.path;
          && p !in files && after[p] == out.value && out.value.state.Live?
          && p.level >= 1 && out.value.file.level == p.level)
  }

  lemma RefiledShelf(files: map<Path, Row>, after: map<Path, Row>, objects: map<Path, multiset<Rec>>, inputs: seq<Path>, out: Option<Row>, now: int, kept: multiset<Rec>)
    requires Refiled(files, after, inputs, out, now)
    requires if out.Some? then out.value.file.path in objects && objects[out.value.file.path] == kept else kept == multiset{}
    ensures Swapped(Shelf(files, objects), Shelf(after, objects), inputs, if out.Some? then Some(out.value.file.path) else None, kept)
  {
    var live, then' := Shelf(files, objects), Shelf(after, objects);
    forall p
      ensures p in then' <==> (p in live && p !in inputs) || (out.Some? && out.value.file.path == p)
    {
      if p in files {
        assert after[p] == if p in inputs then files[p].(state := Tombstoned(now)) else files[p];
      }
    }
    forall p | p in live && p !in inputs
      ensures then'[p] == live[p]
    {
      assert p in then';
    }
  }

  /** Names of flushed files are at level zero, so no merge registers or takes away one of them. */
  lemma RefiledLanding(cfg: Config, sealed: map<nat, seq<Rec>>, files: map<Path, Row>, after: map<Path, Row>, inputs: seq<Path>, out: Option<Row>, now: int)
    requires Refiled(files, after, inputs, out, now)
    ensures forall n, i :: n in sealed && 0 <= i < |sealed[n]| ==> (Landed(cfg, after, sealed[n], i) <==> Landed(cfg, files, sealed[n], i))
  {
  }

  /** Everything a merge or an expiry moves: rows from files to after, records from live to shelf or to dropped. */
  datatype Exchange = Exchange(files: map<Path, Row>, after: map<Path, Row>, live: map<Path, multiset<Rec>>, shelf: map<Path, multiset<Rec>>,
                               inputs: seq<Path>, out: Option<Row>, kept: multiset<Rec>, dropped: set<Rec>, now: int)
  {
    function At(): Option<Path> {
      if out.Some? then Some(out.value.file.path) else None
    }

    ghost predicate Valid() {
      && Refiled(files, after, inputs, out, now)
      && Swapped(live, shelf, inputs, At(), kept)
      && Split(live, inputs, kept, dropped)
      && Disjoint(live)
      && (out.Some? ==> exists r :: r in kept && r.seqno == out.value.file.path.first)
    }

    /** The level is the next one up for a merge, and the same for a rewrite, which is named by what it replaces. */
    ghost predicate Levelled() {
      out.Some? ==>
        var name := out.value.file.path;
        && out.value.id !in (set p | p in files :: files[p].id)
        && (forall p :: p in inputs ==> if name.rewrite.None? then p.level < name.level else p in files && name.rewrite == Some(files[p].id) && p.level <= name.level)
    }
  }

  /** Records with one number are one record. */
  ghost predicate Numbered(known: set<Rec>) {
    forall a, b :: a in known && b in known && a.seqno == b.seqno ==> a == b
  }

  lemma ExchangeName(cfg: Config, sealed: map<nat, seq<Rec>>, e: Exchange, known: set<Rec>, p: Path, q: Path, r: Rec)
    requires e.Valid() && e.Levelled() && NamesOk(cfg, sealed, e.files, e.live) && Numbered(known)
    requires forall p, r :: p in e.live && r in e.live[p] ==> r in known
    requires p in e.after && p.level >= 1 && p.rewrite.None? && q in e.shelf && r in e.shelf[q] && q.level < p.level
    ensures r.seqno != p.first
  {
    var was := SwapOrigin(e.live, e.shelf, e.inputs, e.At(), e.kept, e.dropped, q, r);
    if e.At() == Some(p) {
      var first :| first in e.kept && first.seqno == p.first;
      var input := KeptWasLive(e.live, e.inputs, e.kept, e.dropped, first);
      assert r == first ==> was == input;
    } else {
      assert p in e.files && was.level < p.level;
    }
  }

  lemma ExchangeSealedName(cfg: Config, sealed: map<nat, seq<Rec>>, e: Exchange, known: set<Rec>, discarded: set<Rec>, p: Path, n: nat, i: nat)
    requires e.Valid() && NamesOk(cfg, sealed, e.files, e.live) && Numbered(known)
    requires LandingOk(cfg, sealed, e.files, e.live, discarded)
    requires forall p, r :: p in e.live && r in e.live[p] ==> r in known
    requires p in e.after && p.level >= 1 && p.rewrite.None? && n in sealed && i < |sealed[n]| && sealed[n][i] in known
    requires !Landed(cfg, e.files, sealed[n], i)
    ensures sealed[n][i].seqno != p.first
  {
    if e.At() == Some(p) {
      FirstIsLanded(cfg, sealed, e, discarded, p, n, i);
    } else {
      assert p in e.files;
    }
  }

  /** The record an output is named after was in a file, so its segment's copy has landed. */
  lemma FirstIsLanded(cfg: Config, sealed: map<nat, seq<Rec>>, e: Exchange, discarded: set<Rec>, p: Path, n: nat, i: nat)
    requires e.Valid() && LandingOk(cfg, sealed, e.files, e.live, discarded) && e.At() == Some(p) && n in sealed && i < |sealed[n]|
    ensures exists first :: first in e.kept && first.seqno == p.first && OnShelf(e.live, first) && (first == sealed[n][i] ==> Landed(cfg, e.files, sealed[n], i))
  {
    var first :| first in e.kept && first.seqno == p.first;
    var input := KeptWasLive(e.live, e.inputs, e.kept, e.dropped, first);
    assert OnShelf(e.live, first);
  }

  lemma ExchangeNames(cfg: Config, sealed: map<nat, seq<Rec>>, e: Exchange, known: set<Rec>, discarded: set<Rec>)
    requires e.Valid() && e.Levelled() && NamesOk(cfg, sealed, e.files, e.live) && Numbered(known)
    requires LandingOk(cfg, sealed, e.files, e.live, discarded)
    requires forall p, r :: p in e.live && r in e.live[p] ==> r in known
    requires forall n, i :: n in sealed && 0 <= i < |sealed[n]| ==> sealed[n][i] in known
    ensures NamesOk(cfg, sealed, e.after, e.shelf)
  {
    RefiledLanding(cfg, sealed, e.files, e.after, e.inputs, e.out, e.now);
    forall p, q, r | p in e.after && p.level >= 1 && p.rewrite.None? && q in e.shelf && r in e.shelf[q] && q.level < p.level
      ensures r.seqno != p.first
    {
      ExchangeName(cfg, sealed, e, known, p, q, r);
    }
    forall p, n, i | p in e.after && p.level >= 1 && p.rewrite.None? && n in sealed && 0 <= i < |sealed[n]| && !Landed(cfg, e.after, sealed[n], i)
      ensures sealed[n][i].seqno != p.first
    {
      ExchangeSealedName(cfg, sealed, e, known, discarded, p, n, i);
    }
  }

  lemma ExchangeLanding(cfg: Config, sealed: map<nat, seq<Rec>>, e: Exchange, discarded: set<Rec>)
    requires e.Valid() && LandingOk(cfg, sealed, e.files, e.live, discarded)
    ensures LandingOk(cfg, sealed, e.after, e.shelf, discarded + e.dropped)
  {
    RefiledLanding(cfg, sealed, e.files, e.after, e.inputs, e.out, e.now);
    forall n, i | n in sealed && 0 <= i < |sealed[n]|
      ensures Landed(cfg, e.after, sealed[n], i) <==> OnShelf(e.shelf, sealed[n][i]) || sealed[n][i] in discarded + e.dropped
    {
      SwapPlaces(e.live, e.shelf, e.inputs, e.At(), e.kept, e.dropped, sealed[n][i]);
    }
  }

  lemma ExchangePlaces(e: Exchange, s: Store)
    requires e.Valid() && PlacesOk(s.known, s.stored, e.live, s.discarded, s.sealed, s.active, s.synced)
    ensures PlacesOk(s.known, s.stored, e.shelf, s.discarded + e.dropped, s.sealed, s.active, s.synced)
  {
    forall r | r in s.known && OnShelf(e.live, r)
      ensures OnShelf(e.shelf, r) || r in e.dropped
    {
      SwapPlaces(e.live, e.shelf, e.inputs, e.At(), e.kept, e.dropped, r);
    }
  }

  lemma ExchangeRows(e: Exchange, objects: map<Path, multiset<Rec>>, base: nat)
    requires e.Valid() && RowsOk(e.files, objects, base)
    requires e.out.Some? ==> var f := e.out.value.file; f.path in objects && f.path.first <= base && f.path.first <= f.maxSeq
    ensures RowsOk(e.after, objects, base)
  {
  }

  lemma ExchangeRewrites(e: Exchange, nextId: nat)
    requires Refiled(e.files, e.after, e.inputs, e.out, e.now) && e.Levelled() && RewritesOk(e.files, nextId)
    requires forall p :: p in e.files ==> e.files[p].id < nextId
    requires forall p, q :: p in e.files && q in e.files && e.files[p].id == e.files[q].id ==> p == q
    requires e.out.Some? ==> e.out.value.id == nextId && e.inputs != []
    ensures RewritesOk(e.after, if e.out.Some? then nextId + 1 else nextId)
  {
    if e.out.Some? && e.out.value.file.path.rewrite.Some? {
      RewriteIsOld(e, nextId);
    }
    forall p, q | p in e.after && p.rewrite.Some? && LiveAt(e.after, q)
      ensures e.after[q].id != p.rewrite.value
    {
      if e.out.Some? && p == e.out.value.file.path {
        RewriteReplaces(e, nextId, p, q);
      }
    }
  }

  lemma RewriteIsOld(e: Exchange, nextId: nat)
    requires Refiled(e.files, e.after, e.inputs, e.out, e.now) && e.Levelled() && e.inputs != []
    requires e.out.Some? && e.out.value.file.path.rewrite.Some? && forall p :: p in e.files ==> e.files[p].id < nextId
    ensures e.out.value.file.path.rewrite.value < nextId
  {
    assert e.inputs[0] in e.inputs;
  }

  /** What a rewrite replaces is live no more. */
  lemma RewriteReplaces(e: Exchange, nextId: nat, p: Path, q: Path)
    requires Refiled(e.files, e.after, e.inputs, e.out, e.now) && e.Levelled()
    requires (forall p :: p in e.files ==> e.files[p].id < nextId) && (e.out.Some? ==> e.out.value.id == nextId)
    requires forall p, q :: p in e.files && q in e.files && e.files[p].id == e.files[q].id ==> p == q
    requires e.out.Some? && p == e.out.value.file.path && e.inputs != [] && p.rewrite.Some? && LiveAt(e.after, q)
    ensures e.after[q].id != p.rewrite.value
  {
    var input := e.inputs[0];
    assert input in e.inputs && input in e.files && p.rewrite == Some(e.files[input].id);
    assert q in e.files && q != e.out.value.file.path ==> e.after[q].id == e.files[q].id && q != input;
  }

  /** A merge or an expiry keeps what is true of the data. */
  lemma ExchangeData(cfg: Config, s: Store, t: Store, e: Exchange)
    requires DataOk(cfg, s)
    requires t == s.(cat := t.cat, discarded := s.discarded + e.dropped, merge := t.merge)
    requires e.files == s.cat.files && e.after == t.cat.files && e.live == Shelf(s.cat.files, s.objects) && e.shelf == Shelf(t.cat.files, s.objects)
    requires e.Valid() && e.Levelled()
    requires RowsOk(t.cat.files, s.objects, s.base) && RewritesOk(t.cat.files, t.cat.nextId)
    requires s.cat.maxSeq <= t.cat.maxSeq && Catalog.Inv(t.cat)
    ensures DataOk(cfg, t)
  {
    SwapShelf(e.live, e.shelf, e.inputs, e.At(), e.kept, e.dropped, s.known, s.discarded, s.base, s.cat.maxSeq, t.cat.maxSeq);
    ExchangeLanding(cfg, s.sealed, e, s.discarded);
    ExchangeNames(cfg, s.sealed, e, s.known, s.discarded);
    ExchangePlaces(e, s);
  }

  lemma RefiledWork(cfg: Config, s: Store, t: Store, inputs: seq<Path>, out: Option<Row>)
    requires WorkOk(cfg, s) && Refiled(s.cat.files, t.cat.files, inputs, out, s.now)
    requires t == s.(cat := t.cat, discarded := t.discarded, merge := NoMerge)
    requires forall p :: p in s.cat.pending && p.level == 0 ==> p in t.cat.pending && t.cat.pending[p] == s.cat.pending[p]
    ensures WorkOk(cfg, t)
  {
    RefiledFlush(cfg, s, t, inputs, out);
    RefiledCollector(cfg, s, t, inputs, out);
    RefiledReaders(cfg, s, t, inputs, out);
  }

  lemma RefiledFlush(cfg: Config, s: Store, t: Store, inputs: seq<Path>, out: Option<Row>)
    requires FlushOk(cfg, s.flush, s.sealed, s.cat.files, s.cat.pending, s.objects, s.now)
    requires Refiled(s.cat.files, t.cat.files, inputs, out, s.now)
    requires forall p :: p in s.cat.pending && p.level == 0 ==> p in t.cat.pending && t.cat.pending[p] == s.cat.pending[p]
    ensures FlushOk(cfg, s.flush, s.sealed, t.cat.files, t.cat.pending, s.objects, s.now)
  {
  }

  lemma RefiledCollector(cfg: Config, s: Store, t: Store, inputs: seq<Path>, out: Option<Row>)
    requires CollectorOk(cfg, s.gc, s.cat.files, s.sealed, s.now) && Refiled(s.cat.files, t.cat.files, inputs, out, s.now)
    ensures CollectorOk(cfg, s.gc, t.cat.files, s.sealed, s.now)
  {
  }

  lemma RefiledReaders(cfg: Config, s: Store, t: Store, inputs: seq<Path>, out: Option<Row>)
    requires ReadersOk(cfg, s.readers, s.cat.files, s.objects, s.now) && Refiled(s.cat.files, t.cat.files, inputs, out, s.now)
    ensures ReadersOk(cfg, s.readers, t.cat.files, s.objects, s.now)
  {
  }

  lemma PublishFiles(s: Store, f: File)
    requires s.merge.Merging? && f.path == s.merge.name && f.level == f.path.level
    requires s.merge.name !in s.cat.files && s.merge.name.level >= 1 && (forall p :: p in s.merge.inputs ==> LiveAt(s.cat.files, p))
    ensures var c := Replace(s.cat, [f], s.merge.inputs, s.now);
            && c.Ok?
            && Refiled(s.cat.files, c.value.files, s.merge.inputs, Some(Row(s.cat.nextId, f, Live)), s.now)
            && c.value.pending == s.cat.pending - {f.path} && c.value.nextId == s.cat.nextId + 1
            && c.value.maxSeq == Max(s.cat.maxSeq, f.maxSeq)
  {
    assert InsertAll(s.cat, [f][..0]) == Ok(s.cat);
    RetireFiles(Insert(s.cat, f, false).0, s.merge.inputs, s.now);
  }

  function Publication(s: Store, f: File, after: map<Path, Row>): Exchange
    requires s.merge.Merging?
  {
    Exchange(s.cat.files, after, Shelf(s.cat.files, s.objects), Shelf(after, s.objects),
             s.merge.inputs, Some(Row(s.cat.nextId, f, Live)), s.merge.kept, Dropped(s.objects, s.merge.inputs, s.merge.kept), s.now)
  }

  lemma PublicationValid(cfg: Config, s: Store, f: File, after: map<Path, Row>)
    requires MayPublish(cfg, s, f) && MergeOk(cfg, s.merge, s.cat.files, s.cat.pending, s.objects, s.now)
    requires Refiled(s.cat.files, after, s.merge.inputs, Some(Row(s.cat.nextId, f, Live)), s.now)
    requires Disjoint(Shelf(s.cat.files, s.objects)) && (forall p :: LiveAt(s.cat.files, p) ==> p in s.objects)
    requires forall p :: p in s.cat.files ==> s.cat.files[p].id < s.cat.nextId
    ensures Publication(s, f, after).Valid() && Publication(s, f, after).Levelled()
  {
    var e := Publication(s, f, after);
    RefiledShelf(s.cat.files, after, s.objects, e.inputs, e.out, s.now, e.kept);
    InputsReadable(s, e.inputs);
    GatherSplits(s.objects, e.live, e.inputs, e.kept);
    PublicationLevelled(cfg, s, f, after);
  }

  lemma PublicationLevelled(cfg: Config, s: Store, f: File, after: map<Path, Row>)
    requires MayPublish(cfg, s, f) && MergeOk(cfg, s.merge, s.cat.files, s.cat.pending, s.objects, s.now)
    requires forall p :: p in s.cat.files ==> s.cat.files[p].id < s.cat.nextId
    ensures Publication(s, f, after).Levelled()
  {
    var e := Publication(s, f, after);
    forall p | p in e.inputs
      ensures if f.path.rewrite.None? then p.level < f.path.level else p in e.files && f.path.rewrite == Some(e.files[p].id) && p.level <= f.path.level
    {
      var i :| 0 <= i < |e.inputs| && e.inputs[i] == p;
    }
  }

  lemma InputsReadable(s: Store, inputs: seq<Path>)
    requires forall p :: p in inputs ==> LiveAt(s.cat.files, p)
    requires forall p :: LiveAt(s.cat.files, p) ==> p in s.objects
    ensures var live := Shelf(s.cat.files, s.objects);
            forall i :: 0 <= i < |inputs| ==> inputs[i] in live && inputs[i] in s.objects && s.objects[inputs[i]] == live[inputs[i]]
  {
    forall i | 0 <= i < |inputs|
      ensures LiveAt(s.cat.files, inputs[i])
    {
      assert inputs[i] in inputs;
    }
  }

  /** A record a merge keeps is one of its inputs', so it was sealed and is counted in the highest number. */
  lemma KeptIsOld(s: Store, inputs: seq<Path>, kept: multiset<Rec>, r: Rec, live: map<Path, multiset<Rec>>)
    requires r in kept && kept <= Gather(s.objects, inputs) && Distinct(inputs)
    requires forall p :: p in inputs ==> LiveAt(s.cat.files, p)
    requires forall p :: LiveAt(s.cat.files, p) ==> p in s.objects
    requires live == Shelf(s.cat.files, s.objects) && ShelfOk(live, s.known, s.discarded, s.base, s.cat.maxSeq)
    ensures r.seqno <= s.base
  {
    InputsReadable(s, inputs);
    GatherRecord(s.objects, live, inputs, r);
  }

  lemma PublishRange(cfg: Config, s: Store, f: File)
    requires MayPublish(cfg, s, f) && MergeOk(cfg, s.merge, s.cat.files, s.cat.pending, s.objects, s.now)
    requires ShelfOk(Shelf(s.cat.files, s.objects), s.known, s.discarded, s.base, s.cat.maxSeq)
    requires forall p :: LiveAt(s.cat.files, p) ==> p in s.objects
    ensures f.path in s.objects && f.path.first <= s.base && f.path.first <= f.maxSeq
  {
    var first :| first in s.merge.kept && first.seqno == s.merge.name.first;
    KeptIsOld(s, s.merge.inputs, s.merge.kept, first, Shelf(s.cat.files, s.objects));
  }

  lemma ExchangeOut(e: Exchange, s: Store)
    requires e.Valid() && e.Levelled() && e.files == s.cat.files && RowsOk(e.files, s.objects, s.base) && RewritesOk(e.files, s.cat.nextId) && Catalog.Inv(s.cat)
    requires e.out.Some? ==> var f := e.out.value.file; f.path in s.objects && f.path.first <= s.base && f.path.first <= f.maxSeq
    requires e.out.Some? ==> e.out.value.id == s.cat.nextId && e.inputs != []
    ensures RowsOk(e.after, s.objects, s.base) && RewritesOk(e.after, if e.out.Some? then s.cat.nextId + 1 else s.cat.nextId)
  {
    ExchangeRows(e, s.objects, s.base);
    ExchangeRewrites(e, s.cat.nextId);
  }

  lemma PublishExchanges(cfg: Config, s: Store, f: File, after: map<Path, Row>) returns (e: Exchange)
    requires DataOk(cfg, s) && MergeOk(cfg, s.merge, s.cat.files, s.cat.pending, s.objects, s.now) && MayPublish(cfg, s, f)
    requires Refiled(s.cat.files, after, s.merge.inputs, Some(Row(s.cat.nextId, f, Live)), s.now)
    ensures e == Publication(s, f, after) && e.Valid() && e.Levelled() && RowsOk(after, s.objects, s.base) && RewritesOk(after, s.cat.nextId + 1)
    ensures var c := Replace(s.cat, [f], s.merge.inputs, s.now); c.Ok? ==> Catalog.Inv(c.value)
  {
    ReplaceInv(s.cat, [f], s.merge.inputs, s.now);
    e := Publication(s, f, after);
    PublicationValid(cfg, s, f, after);
    PublishRange(cfg, s, f);
    ExchangeOut(e, s);
  }

  lemma PublishData(cfg: Config, s: Store, f: File)
    requires DataOk(cfg, s) && MergeOk(cfg, s.merge, s.cat.files, s.cat.pending, s.objects, s.now) && MayPublish(cfg, s, f)
    ensures DataOk(cfg, DoPublish(cfg, s, f))
  {
    PublishFiles(s, f);
    var t := DoPublish(cfg, s, f);
    var e := PublishExchanges(cfg, s, f, t.cat.files);
    ExchangeData(cfg, s, t, e);
  }

  lemma PublishKeeps(cfg: Config, s: Store, f: File)
    requires Inv(cfg, s)
    ensures Inv(cfg, DoPublish(cfg, s, f))
  {
    if MayPublish(cfg, s, f) {
      PublishData(cfg, s, f);
      PublishWork(cfg, s, f);
    }
  }

  lemma PublishWork(cfg: Config, s: Store, f: File)
    requires WorkOk(cfg, s) && MayPublish(cfg, s, f)
    ensures WorkOk(cfg, DoPublish(cfg, s, f))
  {
    PublishFiles(s, f);
    RefiledWork(cfg, s, DoPublish(cfg, s, f), s.merge.inputs, Some(Row(s.cat.nextId, f, Live)));
  }

  lemma DropFiles(s: Store, inputs: seq<Path>)
    requires forall p :: p in inputs ==> LiveAt(s.cat.files, p)
    ensures var c := Retire(s.cat, inputs, s.now);
            Refiled(s.cat.files, c.files, inputs, None, s.now) && c.pending == s.cat.pending && c.nextId == s.cat.nextId && c.maxSeq == s.cat.maxSeq
  {
    RetireFiles(s.cat, inputs, s.now);
  }

  function Removal(s: Store, inputs: seq<Path>, after: map<Path, Row>): Exchange {
    Exchange(s.cat.files, after, Shelf(s.cat.files, s.objects), Shelf(after, s.objects),
             inputs, None, multiset{}, Dropped(s.objects, inputs, multiset{}), s.now)
  }

  lemma RemovalValid(s: Store, inputs: seq<Path>, after: map<Path, Row>)
    requires Refiled(s.cat.files, after, inputs, None, s.now) && Distinct(inputs)
    requires Disjoint(Shelf(s.cat.files, s.objects)) && (forall p :: LiveAt(s.cat.files, p) ==> p in s.objects)
    ensures Removal(s, inputs, after).Valid() && Removal(s, inputs, after).Levelled()
  {
    var e := Removal(s, inputs, after);
    RefiledShelf(s.cat.files, after, s.objects, inputs, None, s.now, multiset{});
    InputsReadable(s, inputs);
    GatherSplits(s.objects, e.live, inputs, multiset{});
  }

  lemma DropExchanges(cfg: Config, s: Store, inputs: seq<Path>, after: map<Path, Row>) returns (e: Exchange)
    requires DataOk(cfg, s) && s.merge.NoMerge? && Distinct(inputs) && (forall p :: p in inputs ==> LiveAt(s.cat.files, p))
    requires after == Retire(s.cat, inputs, s.now).files
    ensures e == Removal(s, inputs, after) && e.Valid() && e.Levelled() && RowsOk(after, s.objects, s.base) && RewritesOk(after, s.cat.nextId)
    ensures Catalog.Inv(Retire(s.cat, inputs, s.now))
  {
    e := Removal(s, inputs, after);
    DropFiles(s, inputs);
    RetireInv(s.cat, inputs, s.now);
    RemovalValid(s, inputs, after);
    ExchangeOut(e, s);
  }

  lemma DropData(cfg: Config, s: Store, inputs: seq<Path>)
    requires DataOk(cfg, s) && s.merge.NoMerge? && Distinct(inputs) && (forall p :: p in inputs ==> LiveAt(s.cat.files, p))
    ensures DataOk(cfg, DoDropAll(s, inputs))
  {
    DropFiles(s, inputs);
    var t := DoDropAll(s, inputs);
    var e := DropExchanges(cfg, s, inputs, t.cat.files);
    ExchangeData(cfg, s, t, e);
  }

  lemma DropAllKeeps(cfg: Config, s: Store, inputs: seq<Path>)
    requires Inv(cfg, s)
    ensures Inv(cfg, DoDropAll(s, inputs))
  {
    if s.merge.NoMerge? && Distinct(inputs) && (forall p :: p in inputs ==> LiveAt(s.cat.files, p)) {
      DropData(cfg, s, inputs);
      DropWork(cfg, s, inputs);
    }
  }

  lemma DropWork(cfg: Config, s: Store, inputs: seq<Path>)
    requires WorkOk(cfg, s) && s.merge.NoMerge? && Distinct(inputs) && (forall p :: p in inputs ==> LiveAt(s.cat.files, p))
    ensures WorkOk(cfg, DoDropAll(s, inputs))
  {
    DropFiles(s, inputs);
    RefiledWork(cfg, s, DoDropAll(s, inputs), inputs, None);
  }

  // ---- garbage collection ----

  lemma ListKeeps(cfg: Config, s: Store)
    requires Inv(cfg, s)
    ensures Inv(cfg, DoList(cfg, s))
  {
    SameData(cfg, s, DoList(cfg, s));
    ListWork(cfg, s);
  }

  lemma ListWork(cfg: Config, s: Store)
    requires WorkOk(cfg, s)
    ensures WorkOk(cfg, DoList(cfg, s))
  {
  }

  lemma FloorIsLow(sealed: map<nat, seq<Rec>>, known: set<Rec>, seqno: nat, base: nat, number: nat, active: seq<Rec>, floor: Option<nat>, n: nat, i: nat)
    requires SegmentsOk(known, seqno, base, number, active, sealed) && IsFloor(sealed, floor) && n in sealed && i < |sealed[n]|
    ensures floor.Some? && sealed[n][i].seqno >= floor.value
  {
  }

  lemma TakeFloorWork(cfg: Config, s: Store, floor: Option<nat>)
    requires WorkOk(cfg, s) && RowsOk(s.cat.files, s.objects, s.base)
    requires SegmentsOk(s.known, s.seqno, s.base, s.number, s.active, s.sealed)
    ensures WorkOk(cfg, DoTakeFloor(s, floor))
  {
    TakeFloorCollector(cfg, s, floor);
  }

  lemma TakeFloorCollector(cfg: Config, s: Store, floor: Option<nat>)
    requires CollectorOk(cfg, s.gc, s.cat.files, s.sealed, s.now) && RowsOk(s.cat.files, s.objects, s.base)
    requires SegmentsOk(s.known, s.seqno, s.base, s.number, s.active, s.sealed)
    ensures CollectorOk(cfg, DoTakeFloor(s, floor).gc, s.cat.files, s.sealed, s.now)
  {
    if s.gc.Listed? && IsFloor(s.sealed, floor) {
      forall p, n, stream | p in s.gc.files && p.level == 0 && !(floor.Some? && s.cat.files[p].file.maxSeq >= floor.value) && n in s.sealed && stream in Streams(s.sealed[n])
        ensures NameOf(cfg, s.sealed[n], stream) != p
      {
        var i := NameIsARecord(cfg, s.sealed[n], stream);
        FloorIsLow(s.sealed, s.known, s.seqno, s.base, s.number, s.active, floor, n, i);
      }
    }
  }

  lemma TakeFloorKeeps(cfg: Config, s: Store, floor: Option<nat>)
    requires Inv(cfg, s)
    ensures Inv(cfg, DoTakeFloor(s, floor))
  {
    SameData(cfg, s, DoTakeFloor(s, floor));
    TakeFloorWork(cfg, s, floor);
  }

  /** Deleting an object no live row points at, none a reader may still read and none a writer means to register. */
  lemma DeletedAside(cfg: Config, s: Store, t: Store, p: Path)
    requires DataOk(cfg, s) && t == s.(objects := s.objects - {p}, cat := t.cat, gc := t.gc)
    requires t.cat == s.cat.(pending := t.cat.pending) && t.cat.pending.Keys <= s.cat.pending.Keys
    requires !LiveAt(s.cat.files, p)
    ensures DataOk(cfg, t)
  {
    ShelfSame(s.cat.files, s.objects, t.objects);
  }

  /** What deleting one object, or settling one declaration, must leave alone. */
  ghost predicate Unneeded(cfg: Config, s: Store, p: Path) {
    && !LiveAt(s.cat.files, p)
    && (s.flush.Persisting? && s.now <= s.flush.declared + cfg.orphanGrace && s.flush.todo <= Streams(s.flush.recs) ==>
          forall stream :: stream in s.flush.todo ==> NameOf(cfg, s.flush.recs, stream) != p)
    && (s.merge.Merging? && s.now <= s.merge.declared + cfg.orphanGrace ==> s.merge.name != p)
    && (forall v :: v in s.readers && v.path == p ==> v.at + cfg.grace <= s.now)
  }

  /** Nothing in progress misses an object or a declaration it does not need. */
  lemma DeletedWork(cfg: Config, s: Store, t: Store, p: Path)
    requires WorkOk(cfg, s) && Unneeded(cfg, s, p)
    requires t == s.(objects := s.objects - {p}, cat := t.cat) && t.cat == s.cat.(pending := t.cat.pending)
    requires t.cat.pending == s.cat.pending || t.cat.pending == s.cat.pending - {p}
    ensures WorkOk(cfg, t)
  {
    DeletedFlush(cfg, s, t, p);
    DeletedReaders(cfg, s, t, p);
    MergeUndisturbed(cfg, s.merge, s.cat.files, s.cat.pending, t.cat.pending, s.objects, t.objects, s.now);
  }

  lemma DeletedFlush(cfg: Config, s: Store, t: Store, p: Path)
    requires FlushOk(cfg, s.flush, s.sealed, s.cat.files, s.cat.pending, s.objects, s.now) && Unneeded(cfg, s, p)
    requires t.objects == s.objects - {p} && (t.cat.pending == s.cat.pending || t.cat.pending == s.cat.pending - {p})
    ensures FlushOk(cfg, s.flush, s.sealed, s.cat.files, t.cat.pending, t.objects, s.now)
  {
  }

  lemma DeletedReaders(cfg: Config, s: Store, t: Store, p: Path)
    requires ReadersOk(cfg, s.readers, s.cat.files, s.objects, s.now) && Unneeded(cfg, s, p) && t.objects == s.objects - {p}
    ensures ReadersOk(cfg, s.readers, s.cat.files, t.objects, s.now)
  {
  }

  /** An object whose file was retired a grace period ago is needed by nobody. */
  lemma CollectedUnneeded(cfg: Config, s: Store, p: Path)
    requires WorkOk(cfg, s) && s.gc.Floored? && p in s.gc.files
    ensures Unneeded(cfg, s, p)
  {
  }

  lemma RemoveObjectKeeps(cfg: Config, s: Store, p: Path)
    requires Inv(cfg, s)
    ensures Inv(cfg, DoRemoveObject(s, p))
  {
    if s.gc.Floored? && p in s.gc.files {
      CollectedUnneeded(cfg, s, p);
      DeletedAside(cfg, s, DoRemoveObject(s, p), p);
      RemoveObjectWork(cfg, s, p);
    }
  }

  lemma RemoveObjectWork(cfg: Config, s: Store, p: Path)
    requires WorkOk(cfg, s) && Unneeded(cfg, s, p)
    ensures WorkOk(cfg, DoRemoveObject(s, p))
  {
    DeletedWork(cfg, s, s.(objects := s.objects - {p}), p);
  }

  lemma DiscardedUnneeded(cfg: Config, s: Store, p: Path, before: int)
    requires WorkOk(cfg, s) && before <= s.now - cfg.orphanGrace
    requires p in s.cat.pending && s.cat.pending[p] < before && p !in s.cat.files
    ensures Unneeded(cfg, s, p)
  {
    if s.flush.Persisting? && s.now <= s.flush.declared + cfg.orphanGrace && s.flush.todo <= Streams(s.flush.recs) {
      forall stream | stream in s.flush.todo
        ensures NameOf(cfg, s.flush.recs, stream) != p
      {
      }
    }
  }

  lemma SweepKeeps(cfg: Config, s: Store, p: Path, before: int)
    requires Inv(cfg, s)
    ensures Inv(cfg, DoSweep(cfg, s, p, before))
  {
    if before <= s.now - cfg.orphanGrace && p in s.cat.pending && s.cat.pending[p] < before {
      DeclaredAside(s.cat, p);
      DiscardedUnneeded(cfg, s, p, before);
      DeletedAside(cfg, s, DoSweep(cfg, s, p, before), p);
      DeletedWork(cfg, s, DoSweep(cfg, s, p, before), p);
    }
  }

  lemma DeclaredAside(c: Cat, p: Path)
    requires Catalog.Inv(c) && p in c.pending
    ensures p !in c.files
  {
  }

  /** No segment left could ask for the row that is forgotten. */
  lemma ForgetData(cfg: Config, s: Store, t: Store, p: Path)
    requires DataOk(cfg, s) && t == s.(cat := Forget(s.cat, p), gc := t.gc) && !LiveAt(s.cat.files, p)
    requires forall n, stream :: n in s.sealed && stream in Streams(s.sealed[n]) ==> NameOf(cfg, s.sealed[n], stream) != p
    ensures DataOk(cfg, t)
  {
    ForgetInv(s.cat, p);
    ForgetShelf(s.cat.files, s.objects, p);
    ForgetLanding(cfg, s.sealed, s.cat.files, p);
    ForgetNames(cfg, s, p);
  }

  lemma ForgetShelf(files: map<Path, Row>, objects: map<Path, multiset<Rec>>, p: Path)
    requires !LiveAt(files, p)
    ensures Shelf(files - {p}, objects) == Shelf(files, objects)
  {
  }

  lemma ForgetLanding(cfg: Config, sealed: map<nat, seq<Rec>>, files: map<Path, Row>, p: Path)
    requires forall n, stream :: n in sealed && stream in Streams(sealed[n]) ==> NameOf(cfg, sealed[n], stream) != p
    ensures forall n, i :: n in sealed && 0 <= i < |sealed[n]| ==> (Landed(cfg, files - {p}, sealed[n], i) <==> Landed(cfg, files, sealed[n], i))
  {
    forall n, i | n in sealed && 0 <= i < |sealed[n]|
      ensures Landed(cfg, files - {p}, sealed[n], i) <==> Landed(cfg, files, sealed[n], i)
    {
      assert sealed[n][i].stream in Streams(sealed[n]);
    }
  }

  lemma ForgetNames(cfg: Config, s: Store, p: Path)
    requires NamesOk(cfg, s.sealed, s.cat.files, Shelf(s.cat.files, s.objects)) && !LiveAt(s.cat.files, p)
    requires forall n, stream :: n in s.sealed && stream in Streams(s.sealed[n]) ==> NameOf(cfg, s.sealed[n], stream) != p
    ensures NamesOk(cfg, s.sealed, s.cat.files - {p}, Shelf(s.cat.files - {p}, s.objects))
  {
    ForgetShelf(s.cat.files, s.objects, p);
    ForgetLanding(cfg, s.sealed, s.cat.files, p);
  }

  lemma ForgetWork(cfg: Config, s: Store, p: Path)
    requires WorkOk(cfg, s) && s.gc.Floored? && p in s.gc.files
    requires forall n, stream :: n in s.sealed && stream in Streams(s.sealed[n]) ==> NameOf(cfg, s.sealed[n], stream) != p
    ensures WorkOk(cfg, s.(cat := Forget(s.cat, p), gc := s.gc.(files := s.gc.files - {p})))
  {
    ForgetFlush(cfg, s, p);
    ForgetMerge(cfg, s, p);
    ForgetCollector(cfg, s, p);
    ForgetReaders(cfg, s, p);
  }

  lemma ForgetMerge(cfg: Config, s: Store, p: Path)
    requires MergeOk(cfg, s.merge, s.cat.files, s.cat.pending, s.objects, s.now) && !LiveAt(s.cat.files, p)
    ensures MergeOk(cfg, s.merge, s.cat.files - {p}, s.cat.pending, s.objects, s.now)
  {
    if s.merge.Merging? {
      assert s.merge.inputs[0] in s.merge.inputs;
    }
  }

  lemma ForgetCollector(cfg: Config, s: Store, p: Path)
    requires CollectorOk(cfg, s.gc, s.cat.files, s.sealed, s.now) && s.gc.Floored? && p in s.gc.files
    ensures CollectorOk(cfg, s.gc.(files := s.gc.files - {p}), s.cat.files - {p}, s.sealed, s.now)
  {
  }

  lemma ForgetReaders(cfg: Config, s: Store, p: Path)
    requires CollectorOk(cfg, s.gc, s.cat.files, s.sealed, s.now) && s.gc.Floored? && p in s.gc.files
    requires ReadersOk(cfg, s.readers, s.cat.files, s.objects, s.now)
    ensures ReadersOk(cfg, s.readers, s.cat.files - {p}, s.objects, s.now)
  {
  }

  lemma ForgetFlush(cfg: Config, s: Store, p: Path)
    requires FlushOk(cfg, s.flush, s.sealed, s.cat.files, s.cat.pending, s.objects, s.now)
    requires forall n, stream :: n in s.sealed && stream in Streams(s.sealed[n]) ==> NameOf(cfg, s.sealed[n], stream) != p
    ensures FlushOk(cfg, s.flush, s.sealed, s.cat.files - {p}, s.cat.pending, s.objects, s.now)
  {
  }

  predicate MayForget(s: Store, p: Path) {
    && s.gc.Floored? && p in s.gc.removed && p in s.gc.files && p in s.cat.files
    && !(p.level == 0 && s.gc.floor.Some? && s.cat.files[p].file.maxSeq >= s.gc.floor.value)
  }

  /** A flushed file's row is forgotten only when no segment on disk would be flushed to its path. */
  lemma ForgottenUnreachable(cfg: Config, s: Store, p: Path)
    requires CollectorOk(cfg, s.gc, s.cat.files, s.sealed, s.now) && MayForget(s, p)
    ensures !LiveAt(s.cat.files, p)
    ensures forall n, stream :: n in s.sealed && stream in Streams(s.sealed[n]) ==> NameOf(cfg, s.sealed[n], stream) != p
  {
  }

  lemma ForgetRowKeeps(cfg: Config, s: Store, p: Path)
    requires Inv(cfg, s)
    ensures Inv(cfg, DoForgetRow(s, p))
  {
    if MayForget(s, p) {
      ForgottenUnreachable(cfg, s, p);
      ForgetData(cfg, s, DoForgetRow(s, p), p);
      ForgetWork(cfg, s, p);
    } else {
      SameData(cfg, s, DoForgetRow(s, p));
      PassOverWork(cfg, s, p);
    }
  }

  lemma PassOverWork(cfg: Config, s: Store, p: Path)
    requires WorkOk(cfg, s) && !MayForget(s, p)
    ensures WorkOk(cfg, DoForgetRow(s, p))
  {
  }

  // ---- readers and the clock ----

  lemma SnapshotKeeps(cfg: Config, s: Store, p: Path)
    requires Inv(cfg, s)
    ensures Inv(cfg, DoSnapshot(s, p))
  {
    if LiveAt(s.cat.files, p) && p in s.objects {
      SameData(cfg, s, DoSnapshot(s, p));
      SnapshotWork(cfg, s, p);
    }
  }

  lemma SnapshotWork(cfg: Config, s: Store, p: Path)
    requires WorkOk(cfg, s)
    ensures WorkOk(cfg, DoSnapshot(s, p))
  {
  }

  lemma TickKeeps(cfg: Config, s: Store, elapsed: nat)
    requires Inv(cfg, s)
    ensures Inv(cfg, DoTick(s, elapsed))
  {
    SameData(cfg, s, DoTick(s, elapsed));
    TickWork(cfg, s, elapsed);
  }

  lemma TickWork(cfg: Config, s: Store, elapsed: nat)
    requires WorkOk(cfg, s)
    ensures WorkOk(cfg, DoTick(s, elapsed))
  {
  }

  // ---- the crash ----

  lemma LostIsNew(s: Store, survivors: nat)
    requires SegmentsOk(s.known, s.seqno, s.base, s.number, s.active, s.sealed) && survivors <= |s.active|
    ensures forall r :: r in Lost(s, survivors) ==> r.seqno > s.base && r !in s.active[..survivors]
  {
    forall r | r in Lost(s, survivors)
      ensures r.seqno > s.base && r !in s.active[..survivors]
    {
      var j :| 0 <= j < |s.active[survivors..]| && s.active[survivors..][j] == r;
      assert s.active[survivors + j] == r;
      forall i | 0 <= i < survivors ensures s.active[i] != r {}
    }
  }

  lemma CrashPlace(s: Store, survivors: nat, live: map<Path, multiset<Rec>>, r: Rec)
    requires (forall n :: n in s.sealed ==> n < s.number) && survivors <= |s.active|
    requires InSealed(s.sealed, r) || r in s.active
    ensures InSealed(Left(s, survivors), r) || r in Lost(s, survivors)
  {
    var left := Left(s, survivors);
    if InSealed(s.sealed, r) {
      SealedStays(s, survivors, r);
    } else {
      var i :| 0 <= i < |s.active| && s.active[i] == r;
      if i >= survivors {
        assert s.active[survivors..][i - survivors] == r;
      } else {
        assert s.number in left && left[s.number][i] == r;
      }
    }
  }

  lemma PromisedSurvive(s: Store, survivors: nat)
    requires s.synced <= survivors <= |s.active| && (forall i :: s.synced <= i < |s.active| ==> s.active[i] !in s.stored)
    ensures forall r :: r in s.stored ==> r !in Lost(s, survivors)
  {
    forall r | r in Lost(s, survivors)
      ensures r !in s.stored
    {
      var j :| 0 <= j < |s.active[survivors..]| && s.active[survivors..][j] == r;
      assert s.active[survivors + j] == r;
    }
  }

  lemma CrashPlaces(s: Store, survivors: nat, live: map<Path, multiset<Rec>>)
    requires (forall n :: n in s.sealed ==> n < s.number) && s.synced <= survivors <= |s.active|
    requires PlacesOk(s.known, s.stored, live, s.discarded, s.sealed, s.active, s.synced)
    ensures PlacesOk(s.known - Lost(s, survivors), s.stored, live, s.discarded, Left(s, survivors), [], 0)
  {
    PromisedSurvive(s, survivors);
    forall r | r in s.known && (InSealed(s.sealed, r) || r in s.active)
      ensures InSealed(Left(s, survivors), r) || r in Lost(s, survivors)
    {
      CrashPlace(s, survivors, live, r);
    }
  }

  lemma CrashSegments(s: Store, survivors: nat, top: nat, live: map<Path, multiset<Rec>>)
    requires SegmentsOk(s.known, s.seqno, s.base, s.number, s.active, s.sealed) && s.synced <= survivors <= |s.active|
    requires ShelfOk(live, s.known, s.discarded, s.base, s.cat.maxSeq) && DiscardedOk(s.known, s.discarded, s.base, s.cat.maxSeq)
    requires PlacesOk(s.known - Lost(s, survivors), s.stored, live, s.discarded, Left(s, survivors), [], 0)
    requires IsHighest(top, s.cat.maxSeq, Left(s, survivors))
    ensures SegmentsOk(s.known - Lost(s, survivors), top, top, s.number + 1, [], Left(s, survivors))
  {
    CrashBound(s, survivors, top, live);
    CrashNumbered(s, survivors, top);
  }

  lemma CrashNumbered(s: Store, survivors: nat, top: nat)
    requires SegmentsOk(s.known, s.seqno, s.base, s.number, s.active, s.sealed) && survivors <= |s.active|
    requires IsHighest(top, s.cat.maxSeq, Left(s, survivors)) && forall r :: r in s.known - Lost(s, survivors) ==> r.seqno <= top
    ensures SegmentsOk(s.known - Lost(s, survivors), top, top, s.number + 1, [], Left(s, survivors))
  {
    CrashOrder(s, survivors);
    CrashSegmentsBound(s, survivors, top);
    FewerKnown(s.known, Lost(s, survivors));
    Renumbered(s.known - Lost(s, survivors), Left(s, survivors), s.number + 1, top);
  }

  lemma FewerKnown(known: set<Rec>, lost: set<Rec>)
    requires forall a, b :: a in known && b in known && a.seqno == b.seqno ==> a == b
    ensures forall a, b :: a in known - lost && b in known - lost && a.seqno == b.seqno ==> a == b
  {
  }

  lemma Renumbered(known: set<Rec>, sealed: map<nat, seq<Rec>>, number: nat, top: nat)
    requires forall r :: r in known ==> r.seqno <= top
    requires forall a, b :: a in known && b in known && a.seqno == b.seqno ==> a == b
    requires forall n :: n in sealed ==> n < number && Rising(sealed[n])
    requires forall n, i :: n in sealed && 0 <= i < |sealed[n]| ==> sealed[n][i] in known
    requires forall n, i :: n in sealed && 0 <= i < |sealed[n]| ==> sealed[n][i].seqno <= top
    requires forall n, m, i, j :: n in sealed && m in sealed && n < m && 0 <= i < |sealed[n]| && 0 <= j < |sealed[m]| ==>
               sealed[n][i].seqno < sealed[m][j].seqno
    ensures SegmentsOk(known, top, top, number, [], sealed)
  {
  }

  lemma CrashBound(s: Store, survivors: nat, top: nat, live: map<Path, multiset<Rec>>)
    requires ShelfOk(live, s.known, s.discarded, s.base, s.cat.maxSeq) && DiscardedOk(s.known, s.discarded, s.base, s.cat.maxSeq) && survivors <= |s.active|
    requires PlacesOk(s.known - Lost(s, survivors), s.stored, live, s.discarded, Left(s, survivors), [], 0)
    requires IsHighest(top, s.cat.maxSeq, Left(s, survivors))
    ensures forall r :: r in s.known - Lost(s, survivors) ==> r.seqno <= top
  {
  }

  lemma CrashSegmentsBound(s: Store, survivors: nat, top: nat)
    requires survivors <= |s.active| && IsHighest(top, s.cat.maxSeq, Left(s, survivors))
    ensures forall n, i :: n in Left(s, survivors) && 0 <= i < |Left(s, survivors)[n]| ==> Left(s, survivors)[n][i].seqno <= top
  {
  }

  lemma CrashOrder(s: Store, survivors: nat)
    requires SegmentsOk(s.known, s.seqno, s.base, s.number, s.active, s.sealed) && survivors <= |s.active|
    ensures var left := Left(s, survivors);
            && (forall n :: n in left ==> n < s.number + 1 && Rising(left[n]))
            && (forall n, i :: n in left && 0 <= i < |left[n]| ==> left[n][i] in s.known - Lost(s, survivors))
            && (forall n, m, i, j :: n in left && m in left && n < m && 0 <= i < |left[n]| && 0 <= j < |left[m]| ==>
                  left[n][i].seqno < left[m][j].seqno)
  {
    LostIsNew(s, survivors);
  }

  lemma CrashShelf(s: Store, survivors: nat, top: nat, live: map<Path, multiset<Rec>>)
    requires SegmentsOk(s.known, s.seqno, s.base, s.number, s.active, s.sealed) && survivors <= |s.active|
    requires ShelfOk(live, s.known, s.discarded, s.base, s.cat.maxSeq) && DiscardedOk(s.known, s.discarded, s.base, s.cat.maxSeq)
    requires RowsOk(s.cat.files, s.objects, s.base) && Catalog.Inv(s.cat) && s.cat.maxSeq <= top
    ensures var known := s.known - Lost(s, survivors);
            && ShelfOk(live, known, s.discarded, top, s.cat.maxSeq) && DiscardedOk(known, s.discarded, top, s.cat.maxSeq)
            && RowsOk(s.cat.files, s.objects, top)
  {
    LostIsNew(s, survivors);
  }

  lemma CrashLanding(cfg: Config, s: Store, survivors: nat, live: map<Path, multiset<Rec>>)
    requires SegmentsOk(s.known, s.seqno, s.base, s.number, s.active, s.sealed) && survivors <= |s.active|
    requires ShelfOk(live, s.known, s.discarded, s.base, s.cat.maxSeq) && DiscardedOk(s.known, s.discarded, s.base, s.cat.maxSeq)
    requires RowsOk(s.cat.files, s.objects, s.base) && LandingOk(cfg, s.sealed, s.cat.files, live, s.discarded) && NamesOk(cfg, s.sealed, s.cat.files, live)
    ensures LandingOk(cfg, Left(s, survivors), s.cat.files, live, s.discarded) && NamesOk(cfg, Left(s, survivors), s.cat.files, live)
  {
    NewLanding(cfg, s, s.active[..survivors], live);
    NewSegmentNames(cfg, s, s.active[..survivors], live);
  }

  lemma CrashRecords(cfg: Config, s: Store, survivors: nat, top: nat)
    requires DataOk(cfg, s) && MayCrash(s, survivors) && IsHighest(top, s.cat.maxSeq, Left(s, survivors))
    ensures var t := DoCrash(s, survivors, top);
            && PlacesOk(t.known, t.stored, Shelf(t.cat.files, t.objects), t.discarded, t.sealed, t.active, t.synced)
            && SegmentsOk(t.known, t.seqno, t.base, t.number, t.active, t.sealed)
  {
    var live := Shelf(s.cat.files, s.objects);
    CrashPlaces(s, survivors, live);
    CrashSegments(s, survivors, top, live);
  }

  lemma CrashFiles(cfg: Config, s: Store, survivors: nat, top: nat)
    requires DataOk(cfg, s) && MayCrash(s, survivors) && IsHighest(top, s.cat.maxSeq, Left(s, survivors))
    ensures var t := DoCrash(s, survivors, top);
            var live := Shelf(t.cat.files, t.objects);
            && ShelfOk(live, t.known, t.discarded, t.base, t.cat.maxSeq) && DiscardedOk(t.known, t.discarded, t.base, t.cat.maxSeq)
            && RowsOk(t.cat.files, t.objects, t.base)
            && LandingOk(cfg, t.sealed, t.cat.files, live, t.discarded) && NamesOk(cfg, t.sealed, t.cat.files, live)
  {
    var live := Shelf(s.cat.files, s.objects);
    CrashShelf(s, survivors, top, live);
    CrashLanding(cfg, s, survivors, live);
  }

  lemma CrashData(cfg: Config, s: Store, survivors: nat, top: nat)
    requires DataOk(cfg, s) && MayCrash(s, survivors) && IsHighest(top, s.cat.maxSeq, Left(s, survivors))
    ensures DataOk(cfg, DoCrash(s, survivors, top))
  {
    CrashRecords(cfg, s, survivors, top);
    CrashFiles(cfg, s, survivors, top);
  }

  lemma CrashWork(cfg: Config, s: Store, survivors: nat, top: nat)
    requires WorkOk(cfg, s) && MayCrash(s, survivors) && IsHighest(top, s.cat.maxSeq, Left(s, survivors))
    ensures WorkOk(cfg, DoCrash(s, survivors, top))
  {
  }

  lemma CrashKeeps(cfg: Config, s: Store, survivors: nat, top: nat)
    requires Inv(cfg, s)
    ensures Inv(cfg, DoCrash(s, survivors, top))
  {
    if MayCrash(s, survivors) && IsHighest(top, s.cat.maxSeq, Left(s, survivors)) {
      CrashData(cfg, s, survivors, top);
      CrashWork(cfg, s, survivors, top);
    }
  }

  // ---- every run ----

  lemma RestKeeps(cfg: Config, s: Store)
    requires Inv(cfg, s)
    ensures Inv(cfg, DoRest(s))
  {
    SameData(cfg, s, DoRest(s));
  }

  lemma IngestKeeps(cfg: Config, s: Store, step: Step)
    requires Inv(cfg, s) && step.Ingest?()
    ensures Inv(cfg, Take(cfg, s, step))
  {
    match step
    case Append(stream, micros, severity, accepted) => AppendKeeps(cfg, s, stream, micros, severity, accepted);
    case Sync(upTo) => SyncKeeps(cfg, s, upTo);
    case Seal => SealKeeps(cfg, s);
    case Retry(n) => RetryKeeps(cfg, s, n);
    case Declare => DeclareKeeps(cfg, s);
    case WriteObject(stream) => WriteKeeps(cfg, s, stream);
    case RegisterFile(f) => RegisterKeeps(cfg, s, f);
    case Skip(stream) => SkipKeeps(cfg, s, stream);
    case GiveUp => GiveUpKeeps(cfg, s);
    case Finish(removed) => FinishKeeps(cfg, s, removed);
  }

  /** Names each step's function, so that what follows need not unfold it. */
  lemma TakeCompaction(cfg: Config, s: Store, step: Step)
    ensures step.BeginMerge? ==> Take(cfg, s, step) == DoBeginMerge(cfg, s, step.inputs, step.kept, step.first)
    ensures step.BeginRewrite? ==> Take(cfg, s, step) == DoBeginRewrite(cfg, s, step.input, step.kept, step.first)
    ensures step.WriteMerged? ==> Take(cfg, s, step) == DoWriteMerged(s)
    ensures step.Publish? ==> Take(cfg, s, step) == DoPublish(cfg, s, step.f)
    ensures step.AbortMerge? ==> Take(cfg, s, step) == DoAbort(s)
    ensures step.DropAll? ==> Take(cfg, s, step) == DoDropAll(s, step.inputs)
  {
  }

  lemma TakeOther(cfg: Config, s: Store, step: Step)
    ensures step.List? ==> Take(cfg, s, step) == DoList(cfg, s)
    ensures step.TakeFloor? ==> Take(cfg, s, step) == DoTakeFloor(s, step.floor)
    ensures step.RemoveObject? ==> Take(cfg, s, step) == DoRemoveObject(s, step.path)
    ensures step.ForgetRow? ==> Take(cfg, s, step) == DoForgetRow(s, step.path)
    ensures step.Rest? ==> Take(cfg, s, step) == DoRest(s)
    ensures step.Sweep? ==> Take(cfg, s, step) == DoSweep(cfg, s, step.path, step.before)
    ensures step.Snapshot? ==> Take(cfg, s, step) == DoSnapshot(s, step.path)
    ensures step.Tick? ==> Take(cfg, s, step) == DoTick(s, step.elapsed)
    ensures step.CrashAndRecover? ==> Take(cfg, s, step) == DoCrash(s, step.survivors, step.top)
  {
  }

  lemma CompactionKeeps(cfg: Config, s: Store, step: Step)
    requires Inv(cfg, s) && step.Compaction?()
    ensures Inv(cfg, Take(cfg, s, step))
  {
    TakeCompaction(cfg, s, step);
    match step
    case BeginMerge(inputs, kept, first) => BeginMergeKeeps(cfg, s, inputs, kept, first);
    case BeginRewrite(input, kept, first) => BeginRewriteKeeps(cfg, s, input, kept, first);
    case WriteMerged => WriteMergedKeeps(cfg, s);
    case Publish(f) => PublishKeeps(cfg, s, f);
    case AbortMerge => AbortKeeps(cfg, s);
    case DropAll(inputs) => DropAllKeeps(cfg, s, inputs);
  }

  lemma OtherKeeps(cfg: Config, s: Store, step: Step)
    requires Inv(cfg, s) && !step.Ingest?() && !step.Compaction?()
    ensures Inv(cfg, Take(cfg, s, step))
  {
    TakeOther(cfg, s, step);
    if step.List? || step.TakeFloor? || step.RemoveObject? || step.ForgetRow? || step.Rest? {
      CollectionKeeps(cfg, s, step);
    } else if step.Sweep? {
      SweepKeeps(cfg, s, step.path, step.before);
    } else if step.Snapshot? {
      SnapshotKeeps(cfg, s, step.path);
    } else if step.Tick? {
      TickKeeps(cfg, s, step.elapsed);
    } else {
      CrashKeeps(cfg, s, step.survivors, step.top);
    }
  }

  lemma CollectionKeeps(cfg: Config, s: Store, step: Step)
    requires Inv(cfg, s) && (step.List? || step.TakeFloor? || step.RemoveObject? || step.ForgetRow? || step.Rest?)
    ensures Inv(cfg, Take(cfg, s, step))
  {
    TakeOther(cfg, s, step);
    match step
    case List => ListKeeps(cfg, s);
    case TakeFloor(floor) => TakeFloorKeeps(cfg, s, floor);
    case RemoveObject(p) => RemoveObjectKeeps(cfg, s, p);
    case ForgetRow(p) => ForgetRowKeeps(cfg, s, p);
    case Rest => RestKeeps(cfg, s);
  }

  lemma TakeKeeps(cfg: Config, s: Store, step: Step)
    requires Inv(cfg, s)
    ensures Inv(cfg, Take(cfg, s, step))
  {
    if step.Ingest?() {
      IngestKeeps(cfg, s, step);
    } else if step.Compaction?() {
      CompactionKeeps(cfg, s, step);
    } else {
      OtherKeeps(cfg, s, step);
    }
  }

  lemma {:induction false} RunInv(cfg: Config, steps: seq<Step>)
    ensures Inv(cfg, Run(cfg, steps))
    decreases |steps|
  {
    if steps == [] {
      FreshInv(cfg);
    } else {
      RunInv(cfg, steps[..|steps| - 1]);
      TakeKeeps(cfg, Run(cfg, steps[..|steps| - 1]), steps[|steps| - 1]);
    }
  }
}
