/** What the invariant means to whoever relies on the store: conservation, safe garbage collection, names and numbers used once. */
module StoreTheorems {
  import opened Prelude
  import opened Catalog
  import opened Store
  import opened StoreInvariant

  /** In one live file, once. */
  ghost predicate HeldOnce(live: map<Path, multiset<Rec>>, r: Rec) {
    exists p :: p in live && live[p][r] == 1 && forall q :: q in live && r in live[q] ==> q == p
  }

  /** In a segment that will be flushed, under a path nothing is registered at yet. */
  ghost predicate AwaitsFlush(cfg: Config, s: Store, r: Rec) {
    exists n, i ::
      && n in s.sealed && 0 <= i < |s.sealed[n]| && s.sealed[n][i] == r
      && !Landed(cfg, s.cat.files, s.sealed[n], i)
      && (n in s.unflushed || (!s.flush.Resting? && s.flush.n == n))
  }

  /** In the part of the active segment a sync has covered. */
  ghost predicate AwaitsSeal(s: Store, r: Rec) {
    exists i :: 0 <= i < s.synced <= |s.active| && s.active[i] == r
  }

  lemma ShelfIsOnce(live: map<Path, multiset<Rec>>, r: Rec)
    requires Disjoint(live)
    ensures HeldOnce(live, r) <==> OnShelf(live, r)
  {
    if OnShelf(live, r) {
      var p :| p in live && r in live[p];
      assert live[p][r] == 1;
    }
  }

  lemma SealedAwaits(cfg: Config, s: Store, r: Rec)
    requires LandingOk(cfg, s.sealed, s.cat.files, Shelf(s.cat.files, s.objects), s.discarded) && RetryOk(s.flush, s.sealed, s.unflushed)
    ensures AwaitsFlush(cfg, s, r) ==> !OnShelf(Shelf(s.cat.files, s.objects), r) && r !in s.discarded
    ensures InSealed(s.sealed, r) && !OnShelf(Shelf(s.cat.files, s.objects), r) && r !in s.discarded ==> AwaitsFlush(cfg, s, r)
  {
    if InSealed(s.sealed, r) && !OnShelf(Shelf(s.cat.files, s.objects), r) && r !in s.discarded {
      var n, i :| n in s.sealed && 0 <= i < |s.sealed[n]| && s.sealed[n][i] == r;
      assert !Landed(cfg, s.cat.files, s.sealed[n], i);
      assert n in s.sealed.Keys;
    }
  }

  /** A synced record of the active segment is in no file, no other segment, and not discarded. */
  lemma ActiveIsNew(cfg: Config, s: Store, r: Rec)
    requires SegmentsOk(s.known, s.seqno, s.base, s.number, s.active, s.sealed)
    requires ShelfOk(Shelf(s.cat.files, s.objects), s.known, s.discarded, s.base, s.cat.maxSeq) && DiscardedOk(s.known, s.discarded, s.base, s.cat.maxSeq)
    requires AwaitsSeal(s, r)
    ensures !OnShelf(Shelf(s.cat.files, s.objects), r) && r !in s.discarded && !AwaitsFlush(cfg, s, r)
  {
    var i :| 0 <= i < s.synced <= |s.active| && s.active[i] == r;
  }

  lemma StoredIsSomewhere(s: Store, r: Rec)
    requires PlacesOk(s.known, s.stored, Shelf(s.cat.files, s.objects), s.discarded, s.sealed, s.active, s.synced) && r in s.stored
    ensures OnShelf(Shelf(s.cat.files, s.objects), r) || r in s.discarded || InSealed(s.sealed, r) || AwaitsSeal(s, r)
  {
    if r in s.active {
      var i :| 0 <= i < |s.active| && s.active[i] == r;
    }
  }

  /**
   * Conservation. Whatever ran, in whatever order, with crashes anywhere, a record once promised is
   * in exactly one of four places: one live file, once; dropped by retention; a segment waiting to be
   * flushed, under a path not registered; or the synced part of the active segment.
   */
  lemma Conservation(cfg: Config, steps: seq<Step>, r: Rec)
    requires r in Run(cfg, steps).stored
    ensures var s := Run(cfg, steps);
            var held, dropped, flush, seal := HeldOnce(Shelf(s.cat.files, s.objects), r), r in s.discarded, AwaitsFlush(cfg, s, r), AwaitsSeal(s, r);
            && (held || dropped || flush || seal)
            && !(held && dropped) && !(held && flush) && !(held && seal)
            && !(dropped && flush) && !(dropped && seal) && !(flush && seal)
  {
    RunInv(cfg, steps);
    Somewhere(cfg, Run(cfg, steps), r);
  }

  lemma Somewhere(cfg: Config, s: Store, r: Rec)
    requires StoreInvariant.Inv(cfg, s) && r in s.stored
    ensures var held, dropped, flush, seal := HeldOnce(Shelf(s.cat.files, s.objects), r), r in s.discarded, AwaitsFlush(cfg, s, r), AwaitsSeal(s, r);
            && (held || dropped || flush || seal)
            && !(held && dropped) && !(held && flush) && !(held && seal)
            && !(dropped && flush) && !(dropped && seal) && !(flush && seal)
  {
    ShelfIsOnce(Shelf(s.cat.files, s.objects), r);
    SealedAwaits(cfg, s, r);
    StoredIsSomewhere(s, r);
    if AwaitsSeal(s, r) {
      ActiveIsNew(cfg, s, r);
    }
  }

  lemma StoredStays(cfg: Config, s: Store, step: Step)
    ensures s.stored <= Take(cfg, s, step).stored
  {
  }

  /** A promise is never taken back: no step, and no crash, unstores a record. */
  lemma {:induction false} StoredForever(cfg: Config, steps: seq<Step>, k: nat)
    requires k <= |steps|
    ensures Run(cfg, steps[..k]).stored <= Run(cfg, steps).stored
    decreases |steps|
  {
    if k == |steps| {
      assert steps[..k] == steps;
    } else {
      var n := |steps| - 1;
      StoredForever(cfg, steps[..n], k);
      assert steps[..n][..k] == steps[..k];
      StoredStays(cfg, Run(cfg, steps[..n]), steps[n]);
    }
  }

  // ---- what is stored is what was sent ----

  /** The record of an accepted append: its stream, time and severity as given, under the next number. */
  ghost predicate IsAppended(cfg: Config, steps: seq<Step>, k: nat, r: Rec) {
    && k < |steps| && steps[k].Append? && steps[k].accepted
    && r.seqno == Run(cfg, steps[..k]).seqno + 1
    && r.stream == steps[k].stream && r.micros == steps[k].micros && r.severity == steps[k].severity
  }

  /** A step puts a record in play only if it is an append that is accepted, and then that one. */
  lemma KnownGrows(cfg: Config, s: Store, step: Step)
    ensures var t := Take(cfg, s, step);
            forall r :: r in t.known && r !in s.known ==>
              step.Append? && step.accepted && r.seqno == s.seqno + 1 && r.stream == step.stream && r.micros == step.micros && r.severity == step.severity
  {
  }

  /** Every record in play is one that was appended, as it was appended. */
  lemma {:induction false} InPlayWasAppended(cfg: Config, steps: seq<Step>, r: Rec) returns (k: nat)
    requires r in Run(cfg, steps).known
    ensures IsAppended(cfg, steps, k, r)
    decreases |steps|
  {
    var n := |steps| - 1;
    KnownGrows(cfg, Run(cfg, steps[..n]), steps[n]);
    if r in Run(cfg, steps[..n]).known {
      k := InPlayWasAppended(cfg, steps[..n], r);
      assert steps[..n][..k] == steps[..k];
    } else {
      k := n;
    }
  }

  /** A record promised, in a file, in a segment, in the batch or discarded was appended with that stream, time and severity. */
  lemma StoredAsSent(cfg: Config, steps: seq<Step>, r: Rec) returns (k: nat)
    requires var s := Run(cfg, steps);
             r in s.stored || r in s.active || r in s.batch || InSealed(s.sealed, r) || OnShelf(Shelf(s.cat.files, s.objects), r)
    ensures IsAppended(cfg, steps, k, r)
  {
    RunInv(cfg, steps);
    k := InPlayWasAppended(cfg, steps, r);
  }

  /** And every append accepted puts its record in play, at the end of the active segment. */
  lemma AppendIsInPlay(cfg: Config, steps: seq<Step>, k: nat)
    requires k < |steps| && steps[k].Append? && steps[k].accepted
    ensures var before, after := Run(cfg, steps[..k]), Run(cfg, steps[..k + 1]);
            && after.active != [] && after.active[..|after.active| - 1] == before.active
            && IsAppended(cfg, steps, k, after.active[|after.active| - 1]) && after.active[|after.active| - 1] in after.known
  {
    assert steps[..k + 1][..k] == steps[..k];
  }

  /** A sync that reaches the end of the active segment promises all of it; and so does sealing it. */
  lemma SyncAndSealPromise(cfg: Config, s: Store, r: Rec)
    requires StoreInvariant.Inv(cfg, s) && r in s.active
    ensures r in Take(cfg, s, Sync(|s.active|)).stored
    ensures s.flush.Resting? ==> r in Take(cfg, s, Seal).stored
  {
    assert s.active[..|s.active|] == s.active;
  }

  /** Only a merge and an expiry discard, and only what the files they retire hold and the merge does not keep. */
  lemma OnlyRetentionDiscards(cfg: Config, s: Store, step: Step)
    ensures var t := Take(cfg, s, step);
            && s.discarded <= t.discarded
            && (t.discarded != s.discarded ==> step.Publish? || step.DropAll?)
            && (forall r :: r in t.discarded - s.discarded ==>
                  if step.Publish? then s.merge.Merging? && r in Gather(s.objects, s.merge.inputs) && r !in s.merge.kept
                  else step.DropAll? && r in Gather(s.objects, step.inputs))
  {
  }

  /** Segment and batch are the same list, whatever appends and rotations did; and a flush holds what a replay of its segment gives. */
  lemma BatchIsSegment(cfg: Config, steps: seq<Step>)
    ensures var s := Run(cfg, steps);
            && s.batch == s.active
            && (!s.flush.Resting? ==> s.flush.n in s.sealed && s.flush.recs == s.sealed[s.flush.n])
  {
    RunInv(cfg, steps);
  }

  /** However often a segment is replayed, what a flush registers is new: no row there, and no record of it in any file. */
  lemma NothingRegisteredTwice(cfg: Config, steps: seq<Step>, f: File)
    requires MayRegister(cfg, Run(cfg, steps), f)
    ensures var s := Run(cfg, steps);
            && f.path !in s.cat.files && !Register(s.cat, f).1
            && forall r :: r in Part(s.flush.recs, s.flush.writing.value) ==> !OnShelf(Shelf(s.cat.files, s.objects), r) && r !in s.discarded
  {
    RunInv(cfg, steps);
    var s := Run(cfg, steps);
    PartIsNew(cfg, s, f, NameOf(cfg, s.flush.recs, s.flush.writing.value), Part(s.flush.recs, s.flush.writing.value));
  }

  /** The one object a step may write or delete, if any. */
  ghost function Touched(cfg: Config, s: Store, step: Step): Option<Path> {
    match step
    case WriteObject(stream) => if MayWrite(s, stream) then Some(NameOf(cfg, s.flush.recs, stream)) else None
    case WriteMerged => if s.merge.Merging? then Some(s.merge.name) else None
    case RemoveObject(p) => if s.gc.Floored? && p in s.gc.files then Some(p) else None
    case Sweep(p, before) => if p in s.cat.files then None else Some(p)
    case _ => None
  }

  lemma OthersUntouched(cfg: Config, s: Store, step: Step, p: Path)
    requires Touched(cfg, s, step) != Some(p)
    ensures var t := Take(cfg, s, step); (p in s.objects <==> p in t.objects) && (p in s.objects ==> t.objects[p] == s.objects[p])
  {
    if step.Ingest?() {
      IngestUntouched(cfg, s, step, p);
    } else {
      OtherUntouched(cfg, s, step, p);
    }
  }

  lemma IngestUntouched(cfg: Config, s: Store, step: Step, p: Path)
    requires step.Ingest?() && Touched(cfg, s, step) != Some(p)
    ensures var t := Take(cfg, s, step); (p in s.objects <==> p in t.objects) && (p in s.objects ==> t.objects[p] == s.objects[p])
  {
  }

  lemma OtherUntouched(cfg: Config, s: Store, step: Step, p: Path)
    requires !step.Ingest?() && Touched(cfg, s, step) != Some(p)
    ensures var t := Take(cfg, s, step); (p in s.objects <==> p in t.objects) && (p in s.objects ==> t.objects[p] == s.objects[p])
  {
  }

  lemma TouchedNotLive(cfg: Config, s: Store, step: Step, p: Path)
    requires WorkOk(cfg, s) && Touched(cfg, s, step) == Some(p)
    ensures !LiveAt(s.cat.files, p)
  {
  }

  /** The object of a live file is neither deleted nor overwritten, by any step of any run. */
  lemma LiveObjectsSafe(cfg: Config, steps: seq<Step>, step: Step, p: Path)
    requires LiveAt(Run(cfg, steps).cat.files, p)
    ensures var s, t := Run(cfg, steps), Take(cfg, Run(cfg, steps), step);
            p in s.objects && p in t.objects && t.objects[p] == s.objects[p]
  {
    RunInv(cfg, steps);
    if Touched(cfg, Run(cfg, steps), step) == Some(p) {
      TouchedNotLive(cfg, Run(cfg, steps), step, p);
    } else {
      OthersUntouched(cfg, Run(cfg, steps), step, p);
    }
  }

  /** A file on a list taken at some time reads the same until a grace period later. */
  lemma ReadersAreSafe(cfg: Config, steps: seq<Step>, v: Reader)
    requires v in Run(cfg, steps).readers && Run(cfg, steps).now < v.at + cfg.grace
    ensures v.path in Run(cfg, steps).objects && Run(cfg, steps).objects[v.path] == v.content
  {
    RunInv(cfg, steps);
  }

  /** Only rows retired a grace period ago are forgotten, and those of flushed files only when no segment on disk could produce them again. */
  lemma ForgottenForGood(cfg: Config, steps: seq<Step>, step: Step, p: Path)
    requires var s := Run(cfg, steps); p in s.cat.files && p !in Take(cfg, s, step).cat.files
    ensures var s := Run(cfg, steps);
            && s.cat.files[p].state.Tombstoned? && s.cat.files[p].state.at + cfg.grace <= s.now
            && forall n, stream :: n in s.sealed && stream in Streams(s.sealed[n]) ==> NameOf(cfg, s.sealed[n], stream) != p
  {
    RunInv(cfg, steps);
    ForgottenByCollector(cfg, Run(cfg, steps), step, p);
    ForgottenUnreachable(cfg, Run(cfg, steps), p);
  }

  lemma ForgottenByCollector(cfg: Config, s: Store, step: Step, p: Path)
    requires p in s.cat.files && p !in Take(cfg, s, step).cat.files
    ensures step == ForgetRow(p) && MayForget(s, p)
  {
    if step.Compaction?() {
      CompactionForgetsNothing(cfg, s, step);
    } else {
      TakeOther(cfg, s, step);
    }
  }

  lemma CompactionForgetsNothing(cfg: Config, s: Store, step: Step)
    requires step.Compaction?()
    ensures s.cat.files.Keys <= Take(cfg, s, step).cat.files.Keys
  {
    TakeCompaction(cfg, s, step);
    if step.Publish? && MayPublish(cfg, s, step.f) {
      assert InsertAll(s.cat, [step.f][..0]) == Ok(s.cat);
      RetireFiles(Insert(s.cat, step.f, false).0, s.merge.inputs, s.now);
    }
    if step.DropAll? {
      RetireFiles(s.cat, step.inputs, s.now);
    }
  }

  /** A merge is never refused for its name: neither when it declares its output nor when it publishes. */
  lemma NoMergeIsRefused(cfg: Config, steps: seq<Step>, inputs: seq<Path>, kept: multiset<Rec>, first: Rec)
    requires MayMerge(Run(cfg, steps), inputs, kept, first)
    ensures DoBeginMerge(cfg, Run(cfg, steps), inputs, kept, first).merge.Merging?
  {
    RunInv(cfg, steps);
    MergeNameIsFree(cfg, Run(cfg, steps), inputs, kept, first);
  }

  lemma NoRewriteIsRefused(cfg: Config, steps: seq<Step>, input: Path, kept: multiset<Rec>, first: Rec)
    requires MayMerge(Run(cfg, steps), [input], kept, first) && input.level >= 1
    ensures DoBeginRewrite(cfg, Run(cfg, steps), input, kept, first).merge.Merging?
  {
    RunInv(cfg, steps);
    RewriteNameIsFree(cfg, Run(cfg, steps), input, kept, first);
  }

  lemma NoPublishIsRefused(cfg: Config, steps: seq<Step>, f: File)
    requires MayPublish(cfg, Run(cfg, steps), f)
    ensures Replace(Run(cfg, steps).cat, [f], Run(cfg, steps).merge.inputs, Run(cfg, steps).now).Ok?
  {
    RunInv(cfg, steps);
    PublishFiles(Run(cfg, steps), f);
  }

  /** A record accepted now gets a number no record in play, and none ever promised, has. */
  lemma NumbersAreNew(cfg: Config, steps: seq<Step>, stream: string, micros: int, severity: int, r: Rec)
    requires r in Run(cfg, steps).known || r in Run(cfg, steps).stored || r in Run(cfg, steps).discarded || OnShelf(Shelf(Run(cfg, steps).cat.files, Run(cfg, steps).objects), r)
    ensures r.seqno < DoAppend(Run(cfg, steps), stream, micros, severity, true).seqno
  {
    RunInv(cfg, steps);
  }
}
