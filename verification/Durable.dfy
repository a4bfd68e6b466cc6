/**
 * The durable store's own code: appends, seals, flushes, retries and replays that change fields in
 * place, each shown to be a run of the steps in Store.dfy.
 *
 * The log, the disk and the catalog are fields too; whether an operation on them succeeds is up to
 * the environment, a choice made where the call is.
 */
module Durable {
  import opened Prelude
  import opened Catalog
  import opened Store

  // ---- grouping ----

  /** A batch: each stream's records, in the order they were appended. */
  function Grouped(recs: seq<Rec>): map<string, seq<Rec>> {
    map stream | stream in Streams(recs) :: OfStream(recs, stream)
  }

  lemma {:induction false} OfStreamAppend(recs: seq<Rec>, r: Rec, stream: string)
    ensures OfStream(recs + [r], stream) == OfStream(recs, stream) + if r.stream == stream then [r] else []
  {
    if recs == [] {
      assert [r][1..] == [];
    } else {
      assert (recs + [r])[1..] == recs[1..] + [r];
      OfStreamAppend(recs[1..], r, stream);
    }
  }

  lemma {:induction false} NoRecords(recs: seq<Rec>, stream: string)
    requires stream !in Streams(recs)
    ensures OfStream(recs, stream) == []
  {
    if recs != [] {
      assert recs[0] in recs && forall r :: r in recs[1..] ==> r in recs;
      NoRecords(recs[1..], stream);
    }
  }

  /** A record goes to the end of its own stream's list. */
  function Joined(g: map<string, seq<Rec>>, r: Rec): map<string, seq<Rec>> {
    g[r.stream := (if r.stream in g then g[r.stream] else []) + [r]]
  }

  lemma GroupedNone()
    ensures Grouped([]) == map[]
  {
  }

  /** Appending to a record's own stream keeps the grouping. */
  lemma GroupedAppend(recs: seq<Rec>, r: Rec)
    ensures Grouped(recs + [r]) == Joined(Grouped(recs), r)
  {
    var g, more := Grouped(recs), Grouped(recs + [r]);
    var after := Joined(g, r);
    StreamsAppend(recs, r);
    assert more.Keys == after.Keys;
    forall stream | stream in more
      ensures more[stream] == after[stream]
    {
      OfStreamAppend(recs, r, stream);
      if stream !in g {
        NoRecords(recs, stream);
      }
    }
  }

  predicate IsBatch(taken: map<string, seq<Rec>>, recs: seq<Rec>, i: nat)
    requires i <= |recs|
  {
    taken == Grouped(recs[..i])
  }

  lemma BatchNext(taken: map<string, seq<Rec>>, recs: seq<Rec>, i: nat)
    requires i < |recs| && IsBatch(taken, recs, i)
    ensures IsBatch(Joined(taken, recs[i]), recs, i + 1)
  {
    assert recs[..i + 1] == recs[..i] + [recs[i]];
    GroupedAppend(recs[..i], recs[i]);
  }

  lemma StreamsAppend(recs: seq<Rec>, r: Rec)
    ensures Streams(recs + [r]) == Streams(recs) + {r.stream}
  {
    assert forall x :: x in recs + [r] <==> x in recs || x == r;
  }

  // ---- runs from any state ----

  ghost function Through(cfg: Config, s: Store, steps: seq<Step>): Store {
    if steps == [] then s else Take(cfg, Through(cfg, s, steps[..|steps| - 1]), steps[|steps| - 1])
  }

  lemma ThroughOne(cfg: Config, s: Store, steps: seq<Step>, step: Step)
    ensures Through(cfg, s, steps + [step]) == Take(cfg, Through(cfg, s, steps), step)
  {
    assert (steps + [step])[..|steps|] == steps;
  }

  lemma ThroughFirst(cfg: Config, s: Store, step: Step, after: seq<Step>)
    ensures Through(cfg, s, [step] + after) == Through(cfg, Take(cfg, s, step), after)
  {
    ThroughThrough(cfg, s, [step], after);
    ThroughOne(cfg, s, [], step);
    assert [] + [step] == [step];
  }

  lemma {:induction false} ThroughThrough(cfg: Config, s: Store, before: seq<Step>, after: seq<Step>)
    ensures Through(cfg, s, before + after) == Through(cfg, Through(cfg, s, before), after)
    decreases |after|
  {
    if after == [] {
      assert before + after == before;
    } else {
      var n := |after| - 1;
      ThroughThrough(cfg, s, before, after[..n]);
      assert (before + after)[..|before + after| - 1] == before + after[..n];
    }
  }

  lemma {:induction false} RunThrough(cfg: Config, steps: seq<Step>)
    ensures Through(cfg, Fresh, steps) == Run(cfg, steps)
    decreases |steps|
  {
    if steps != [] {
      RunThrough(cfg, steps[..|steps| - 1]);
    }
  }

  /** A method called in a reachable state, and doing what some steps do, ends in a reachable state. */
  lemma RunOn(cfg: Config, before: seq<Step>, after: seq<Step>)
    ensures Through(cfg, Run(cfg, before), after) == Run(cfg, before + after)
  {
    RunThrough(cfg, before);
    RunThrough(cfg, before + after);
    ThroughThrough(cfg, Fresh, before, after);
  }

  // ---- the catalog's record of a file ----

  /** The row a flush registers; its size and columns are the writer's business. */
  function FileOf(name: Path, stream: string, recs: seq<Rec>, bytes: nat, hasRaw: bool, columns: seq<Column>): File
    requires recs != []
  {
    File(name, stream, name.level, Oldest(recs), Newest(recs), Low(recs), High(recs), |recs|, bytes, hasRaw, "", columns)
  }

  lemma FileDescribes(name: Path, stream: string, recs: seq<Rec>, bytes: nat, hasRaw: bool, columns: seq<Column>)
    requires recs != []
    ensures Describes(FileOf(name, stream, recs, bytes, hasRaw, columns), name, multiset(recs))
  {
    InRange(recs);
    forall r | r in multiset(recs) ensures r in recs {}
  }

  // ---- the store ----

  function Members(list: seq<nat>): set<nat> {
    set n | n in list
  }

  ghost predicate Unique(list: seq<nat>) {
    forall i, j :: 0 <= i < j < |list| ==> list[i] != list[j]
  }

  class Server {
    const cfg: Config
    /** Whether log, disk and catalog do all they are asked; if not, any of it may fail. */
    const healthy: bool
    var now: int
    var seqno: nat
    var number: nat
    var active: seq<Rec>
    var synced: nat
    var sealed: map<nat, seq<Rec>>
    var batch: map<string, seq<Rec>>
    var rows: nat
    var unflushed: seq<nat>
    var objects: map<Path, multiset<Rec>>
    var cat: Cat
    // The flusher's progress, what other goroutines are doing, and the history.
    ghost var other: Store
    // seqno, except while recovery is still looking for the highest number.
    ghost var highest: nat

    ghost function ViewWith(waiting: set<nat>): Store
      reads this
    {
      other.(now := now, seqno := highest, number := number, active := active, synced := synced, batch := active,
      sealed := sealed, unflushed := waiting, objects := objects, cat := cat)
    }

    ghost function View(): Store
      reads this
    {
      ViewWith(Members(unflushed))
    }

    /** The batch in memory is the active segment's records, grouped; the retry list holds segments, once each. */
    ghost predicate Valid()
      reads this
    {
      && seqno == highest
      && batch == Grouped(active) && rows == |active|
      && Unique(unflushed)
      && (forall n :: n in unflushed ==> n in sealed && n < number)
    }

    constructor (cfg: Config, healthy: bool)
      ensures Valid() && this.cfg == cfg && this.healthy == healthy && View() == Fresh
    {
      this.cfg, this.healthy := cfg, healthy;
      now, seqno, number, active, synced, sealed := 0, 0, 1, [], 0, map[];
      batch, rows, unflushed, objects, cat := map[], 0, [], map[], Catalog.Empty;
      other, highest := Fresh, 0;
    }

    /** How the environment answers. */
    method Answer() returns (yes: bool)
      ensures healthy ==> yes
    {
      yes := *;
      yes := yes || healthy;
    }

    /** The number is spent whatever the log says; the record is in segment and batch, or in neither. */
    method Append(stream: string, micros: int, severity: int) returns (ok: bool)
      requires Valid()
      modifies this`seqno, this`highest, this`active, this`batch, this`rows, this`other
      ensures Valid() && View() == DoAppend(old(View()), stream, micros, severity, ok)
      ensures seqno == old(seqno) + 1 && active == old(active) + if ok then [Rec(old(seqno) + 1, stream, micros, severity)] else []
      ensures healthy ==> ok
    {
      seqno := seqno + 1;
      highest := seqno;
      var r := Rec(seqno, stream, micros, severity);
      ok := Answer();
      if ok {
        Buffer(r);
      }
    }

    /** A record the log has accepted joins the batch. */
    method Buffer(r: Rec)
      requires batch == Grouped(active) && rows == |active|
      modifies this`active, this`batch, this`rows, this`other
      ensures active == old(active) + [r] && batch == Grouped(active) && rows == |active|
      ensures other == old(other).(known := old(other.known) + {r})
    {
      GroupedAppend(active, r);
      active := active + [r];
      batch := Joined(batch, r);
      rows := rows + 1;
      other := other.(known := other.known + {r});
    }

    /** Rotates the log and takes the batch: nothing, and nothing changed, if there is none or the rotation fails. */
    method Seal() returns (failed: bool, segment: Option<nat>, taken: map<string, seq<Rec>>, ghost recs: seq<Rec>)
      requires Valid() && other.flush.Resting?
      modifies this`sealed, this`number, this`active, this`synced, this`batch, this`rows, this`other
      ensures Valid() && unflushed == old(unflushed)
      ensures segment.None? ==> View() == old(View()) && (failed || active == [])
      ensures healthy ==> !failed
      ensures segment.Some? ==>
                && View() == DoSeal(old(View())) && View().flush == Loaded(segment.value, recs)
                && taken == Grouped(recs) && recs == old(active) && segment.value !in unflushed
    {
      if rows == 0 {
        return false, None, map[], [];
      }
      var rotated := Answer();
      if !rotated {
        return true, None, map[], [];
      }
      failed, segment, taken, recs := false, Some(number), batch, active;
      Swap();
    }

    /** The active segment is sealed and another begun, and the batch starts afresh with it. */
    method Swap()
      requires Valid() && other.flush.Resting? && active != []
      modifies this`sealed, this`number, this`active, this`synced, this`batch, this`rows, this`other
      ensures View() == DoSeal(old(View())) && View().flush == Loaded(old(number), old(active))
      ensures Valid()
    {
      other := other.(flush := Loaded(number, active), stored := other.stored + Elements(active), base := seqno);
      StartAfresh();
    }

    method StartAfresh()
      modifies this`sealed, this`number, this`active, this`synced, this`batch, this`rows
      ensures sealed == old(sealed)[old(number) := old(active)] && number == old(number) + 1 && active == [] && synced == 0
      ensures batch == Grouped(active) && rows == |active|
    {
      GroupedNone();
      sealed := sealed[number := active];
      number, active, synced := number + 1, [], 0;
      batch, rows := map[], 0;
    }

    /** Registers a written object; one that is refused is left for a retry. */
    method Enter(stream: string, name: Path, records: seq<Rec>, ghost waiting: set<nat>) returns (ok: bool, ghost step: Step)
      requires other.flush.Persisting? && other.flush.writing == Some(stream) && now == other.flush.declared
      requires stream in other.flush.todo && stream in Streams(other.flush.recs) && records == OfStream(other.flush.recs, stream) && records != []
      requires name == NameOf(cfg, other.flush.recs, stream)
      modifies this`cat, this`other
      ensures ViewWith(waiting) == Take(cfg, old(ViewWith(waiting)), step)
      ensures other.flush == old(other.flush).(todo := old(other.flush.todo) - {stream}, writing := None, failed := old(other.flush.failed) || !ok)
      ensures old(cat.files.Keys) <= cat.files.Keys && (ok ==> name in cat.files) && (healthy ==> ok)
    {
      ok := Answer();
      if !ok {
        step := Skip(stream);
        other := other.(flush := other.flush.(todo := other.flush.todo - {stream}, writing := None, failed := true));
        return;
      }
      var bytes: nat, hasRaw: bool, columns: seq<Column> := *, *, *;
      var f := FileOf(name, stream, records, bytes, hasRaw, columns);
      FileDescribes(name, stream, records, bytes, hasRaw, columns);
      assert MayRegister(cfg, ViewWith(waiting), f);
      step := RegisterFile(f);
      cat := Register(cat, f).0;
      other := other.(flush := other.flush.(todo := other.flush.todo - {stream}, writing := None));
    }

    /** Writes and registers one stream's file. */
    method Write(stream: string, records: seq<Rec>, ghost waiting: set<nat>) returns (ok: bool, ghost steps: seq<Step>)
      requires MayWrite(ViewWith(waiting), stream) && records == OfStream(other.flush.recs, stream) && records != []
      requires now == other.flush.declared
      modifies this`objects, this`cat, this`other
      ensures ViewWith(waiting) == Through(cfg, old(ViewWith(waiting)), steps)
      ensures other.flush == old(other.flush).(todo := old(other.flush.todo) - {stream}, failed := old(other.flush.failed) || !ok)
      ensures old(cat.files.Keys) <= cat.files.Keys && (healthy ==> ok)
      ensures ok ==> var name := NameOf(cfg, old(other.flush.recs), stream);
                     name in cat.files && name in objects && objects[name] == multiset(records)
    {
      var name := Path(cfg.safe(stream), 0, records[0].seqno, records[0].micros, None);
      ghost var before := ViewWith(waiting);
      ok := Answer();
      if !ok {
        other := other.(flush := other.flush.(todo := other.flush.todo - {stream}, failed := true));
        ThroughOne(cfg, before, [], Skip(stream));
        return false, [] + [Skip(stream)];
      }
      objects := objects[name := multiset(records)];
      other := other.(flush := other.flush.(writing := Some(stream)));
      ThroughOne(cfg, before, [], WriteObject(stream));
      steps := [] + [WriteObject(stream)];
      assert ViewWith(waiting) == Through(cfg, before, steps);
      ghost var step;
      ok, step := Enter(stream, name, records, waiting);
      ThroughOne(cfg, before, steps, step);
      steps := steps + [step];
    }

    /** Declares every stream's file, and learns which are registered. With no streams there is nothing to declare. */
    method Declare(taken: map<string, seq<Rec>>, ghost waiting: set<nat>) returns (declared: bool, registered: set<Path>)
      requires other.flush.Loaded? && taken == Grouped(other.flush.recs)
      modifies this`cat, this`other
      ensures ViewWith(waiting) == if declared then DoDeclare(cfg, old(ViewWith(waiting))) else old(ViewWith(waiting))
      ensures declared ==> registered == Registered(old(cat), Names(cfg, old(other.flush.recs)))
      ensures cat.files == old(cat.files) && (healthy ==> declared)
    {
      ghost var recs := other.flush.recs;
      declared := true;
      if taken != map[] {
        declared := Answer();
        if !declared {
          return false, {};
        }
      }
      var names := set stream | stream in taken :: NameFor(cfg, stream, taken);
      NamesAgree(cfg, recs);
      registered := Registered(cat, names);
      other := other.(flush := Persisting(other.flush.n, recs, now, Unlanded(cfg, recs, cat.files), None, false));
      cat := Intend(cat, names, now);
    }

    /** Writes every stream that was not registered; one that fails does not stop the others. */
    method WriteAll(taken: map<string, seq<Rec>>, registered: set<Path>, ghost waiting: set<nat>) returns (ok: bool, ghost steps: seq<Step>)
      requires other.flush.Persisting? && taken == Grouped(other.flush.recs) && other.flush.writing.None?
      requires other.flush.declared == now && !other.flush.failed
      requires other.flush.todo == set stream | stream in Streams(other.flush.recs) && NameOf(cfg, other.flush.recs, stream) !in registered
      requires registered <= cat.files.Keys
      modifies this`objects, this`cat, this`other
      ensures ViewWith(waiting) == Through(cfg, old(ViewWith(waiting)), steps)
      ensures other.flush == old(other.flush).(todo := {}, failed := !ok)
      ensures ok ==> Names(cfg, old(other.flush.recs)) <= cat.files.Keys
      ensures old(cat.files.Keys) <= cat.files.Keys && (healthy ==> ok)
    {
      ghost var before := ViewWith(waiting);
      ghost var recs, todo := other.flush.recs, other.flush.todo;
      ok, steps := true, [];
      NamesAgree(cfg, recs);
      var left := taken.Keys;
      assert todo * left == todo;
      while left != {}
        invariant left <= Streams(recs)
        invariant ViewWith(waiting) == Through(cfg, before, steps)
        invariant other.flush == before.flush.(todo := todo * left, failed := !ok)
        invariant registered <= cat.files.Keys && before.cat.files.Keys <= cat.files.Keys && (healthy ==> ok)
        invariant ok ==> Registers(cfg, recs, left, cat.files)
        decreases |left|
      {
        var stream :| stream in left;
        ghost var more;
        var written;
        written, more := WriteNext(taken, registered, stream, left, ok, waiting);
        ThroughThrough(cfg, before, steps, more);
        steps := steps + more;
        ok := ok && written;
        Narrows(todo, left, stream);
        left := left - {stream};
      }
    }

    /** The next stream's file, unless it is registered already. */
    method WriteNext(taken: map<string, seq<Rec>>, registered: set<Path>, stream: string, ghost left: set<string>, ghost sofar: bool, ghost waiting: set<nat>)
      returns (ok: bool, ghost steps: seq<Step>)
      requires other.flush.Persisting? && taken == Grouped(other.flush.recs) && other.flush.writing.None?
      requires other.flush.declared == now && stream in left && left <= Streams(other.flush.recs)
      requires stream in other.flush.todo <==> NameOf(cfg, other.flush.recs, stream) !in registered
      requires registered <= cat.files.Keys && (sofar ==> Registers(cfg, other.flush.recs, left, cat.files))
      modifies this`objects, this`cat, this`other
      ensures ViewWith(waiting) == Through(cfg, old(ViewWith(waiting)), steps)
      ensures other.flush == old(other.flush).(todo := old(other.flush.todo) - {stream}, failed := old(other.flush.failed) || !ok)
      ensures old(cat.files.Keys) <= cat.files.Keys && (healthy ==> ok)
      ensures sofar && ok ==> Registers(cfg, old(other.flush.recs), left - {stream}, cat.files)
    {
      ghost var recs := other.flush.recs;
      NamesAgree(cfg, recs);
      NonEmpty(recs, stream);
      ok, steps := true, [];
      if NameFor(cfg, stream, taken) !in registered {
        ok, steps := Write(stream, taken[stream], waiting);
      } else {
        assert other.flush.todo - {stream} == other.flush.todo;
      }
    }

    method Persist(taken: map<string, seq<Rec>>, ghost waiting: set<nat>) returns (ok: bool, ghost steps: seq<Step>)
      requires other.flush.Loaded? && taken == Grouped(other.flush.recs)
      modifies this`objects, this`cat, this`other
      ensures ViewWith(waiting) == Through(cfg, old(ViewWith(waiting)), steps)
      ensures !other.flush.Resting? && other.flush.n == old(other.flush.n)
      ensures other.flush.Persisting? ==> other.flush.todo == {} && other.flush.failed == !ok
      ensures ok ==> other.flush.Persisting? && Names(cfg, old(other.flush.recs)) <= cat.files.Keys
      ensures old(cat.files.Keys) <= cat.files.Keys && (healthy ==> ok)
    {
      ghost var before := ViewWith(waiting);
      var registered;
      ok, registered := Declare(taken, waiting);
      if !ok {
        return false, [];
      }
      ok, steps := WriteAll(taken, registered, waiting);
      ThroughFirst(cfg, before, Step.Declare, steps);
      steps := [Step.Declare] + steps;
    }

    /** Reads a segment back into a batch, and finds its highest number. */
    static method Read(recs: seq<Rec>) returns (taken: map<string, seq<Rec>>, maxSeq: nat)
      ensures taken == Grouped(recs)
      ensures maxSeq == Highest(recs)
    {
      taken, maxSeq := map[], 0;
      var i := 0;
      while i < |recs|
        invariant 0 <= i <= |recs| && IsBatch(taken, recs, i) && maxSeq == Highest(recs[..i])
      {
        BatchNext(taken, recs, i);
        assert recs[..i + 1][..i] == recs[..i];
        taken, maxSeq := Joined(taken, recs[i]), if recs[i].seqno > maxSeq then recs[i].seqno else maxSeq;
        i := i + 1;
      }
      assert recs[..|recs|] == recs;
    }

    /** After persisting: the segment goes if all of it landed and it can be removed; otherwise it is kept for a retry. */
    method Settle(n: nat, persisted: bool, ghost waiting: set<nat>) returns (gone: bool, ghost step: Step)
      requires !other.flush.Resting? && other.flush.n == n && n !in waiting && (persisted ==> other.flush.Persisting?)
      requires other.flush.Persisting? ==> other.flush.todo == {} && other.flush.failed == !persisted
      modifies this`sealed, this`other
      ensures ViewWith(if gone then waiting else waiting + {n}) == Take(cfg, old(ViewWith(waiting)), step)
      ensures other.flush.Resting? && sealed == if gone then old(sealed) - {n} else old(sealed)
      ensures (gone ==> persisted) && (healthy && persisted ==> gone)
    {
      step := if other.flush.Loaded? then GiveUp else Finish(false);
      other := other.(flush := Resting);
      gone := false;
      if persisted {
        gone := Answer();
        if gone {
          sealed := sealed - {n};
          step := Finish(true);
        }
      }
    }

    /** Persists a loaded batch and settles its segment: what a flush and a replay both end with. */
    method Land(n: nat, taken: map<string, seq<Rec>>, ghost waiting: set<nat>) returns (ok: bool, gone: bool, ghost steps: seq<Step>)
      requires other.flush.Loaded? && other.flush.n == n && taken == Grouped(other.flush.recs) && n !in waiting
      modifies this`objects, this`cat, this`sealed, this`other
      ensures ViewWith(if gone then waiting else waiting + {n}) == Through(cfg, old(ViewWith(waiting)), steps)
      ensures other.flush.Resting? && sealed == if gone then old(sealed) - {n} else old(sealed)
      ensures (gone ==> ok) && (ok ==> Names(cfg, old(other.flush.recs)) <= cat.files.Keys)
      ensures old(cat.files.Keys) <= cat.files.Keys && (healthy ==> gone)
    {
      ghost var before := ViewWith(waiting);
      ghost var step;
      ok, steps := Persist(taken, waiting);
      gone, step := Settle(n, ok, waiting);
      ThroughOne(cfg, before, steps, step);
      steps := steps + [step];
    }

    /** Replays one segment: everything in it that is not registered yet is written, and then it is removed. */
    method Replay(n: nat, ghost waiting: set<nat>) returns (gone: bool, maxSeq: nat, ghost steps: seq<Step>)
      requires other.flush.Resting? && n in sealed && n in waiting
      modifies this`objects, this`cat, this`sealed, this`other
      ensures ViewWith(if gone then waiting - {n} else waiting) == Through(cfg, old(ViewWith(waiting)), steps)
      ensures other.flush.Resting? && sealed == if gone then old(sealed) - {n} else old(sealed)
      ensures maxSeq == Highest(old(sealed)[n])
      ensures (gone ==> Names(cfg, old(sealed)[n]) <= cat.files.Keys) && old(cat.files.Keys) <= cat.files.Keys && (healthy ==> gone)
    {
      ghost var before := ViewWith(waiting);
      var taken;
      taken, maxSeq := Read(sealed[n]);
      other := other.(flush := Loaded(n, sealed[n]));
      assert ViewWith(waiting - {n}) == Take(cfg, before, Retry(n));
      ghost var after := ViewWith(waiting - {n});
      var ok;
      ok, gone, steps := Land(n, taken, waiting - {n});
      assert waiting - {n} + {n} == waiting;
      ThroughFirst(cfg, before, Retry(n), steps);
      steps := [Retry(n)] + steps;
    }

    /** Replays the retry list in order; a failure does not stop the rest. */
    method RetryAll() returns (ok: bool, ghost steps: seq<Step>)
      requires Valid() && other.flush.Resting?
      modifies this`objects, this`cat, this`sealed, this`unflushed, this`other
      ensures Valid() && other.flush.Resting? && View() == Through(cfg, old(View()), steps)
      ensures ok == (unflushed == []) && (healthy ==> ok)
      ensures AllLanded(cfg, old(unflushed), unflushed, old(sealed), sealed, cat.files) && old(cat.files.Keys) <= cat.files.Keys
    {
      ghost var before, segments := View(), sealed;
      steps := [];
      var remaining := [];
      var i := 0;
      while i < |unflushed|
        invariant 0 <= i <= |unflushed| && unflushed == old(unflushed)
        invariant before.cat.files.Keys <= cat.files.Keys && (healthy ==> remaining == [])
        invariant AllLanded(cfg, unflushed[..i], remaining, segments, sealed, cat.files)
        invariant other.flush.Resting?
        invariant Progress(unflushed, i, remaining, sealed)
        invariant ViewWith(Pending(unflushed, i, remaining)) == Through(cfg, before, steps)
      {
        var n := unflushed[i];
        Next(unflushed, i, remaining, sealed);
        var gone, maxSeq;
        ghost var more;
        ghost var left, files := sealed, cat.files;
        gone, maxSeq, more := Replay(n, Pending(unflushed, i, remaining));
        ThroughThrough(cfg, before, steps, more);
        steps := steps + more;
        OneLanded(cfg, unflushed, i, remaining, segments, left, files, sealed, cat.files, gone);
        if !gone {
          remaining := remaining + [n];
        }
        i := i + 1;
      }
      assert unflushed[..i] == unflushed;
      NoneToCome(unflushed, remaining, sealed);
      assert forall n :: n in remaining ==> n in unflushed;
      unflushed := remaining;
      ok := remaining == [];
    }

    /** One cycle: the retry list first, then whatever is buffered. A cycle that succeeds leaves no record without its file. */
    method Flush() returns (ok: bool, ghost steps: seq<Step>)
      requires Valid() && other.flush.Resting?
      modifies this
      ensures Valid() && other.flush.Resting? && View() == Through(cfg, old(View()), steps)
      ensures ok ==> active == [] && forall n :: n in unflushed ==> Names(cfg, sealed[n]) <= cat.files.Keys
      ensures ok ==> Names(cfg, old(active)) <= cat.files.Keys
      ensures ok ==> forall n :: n in old(unflushed) ==> n !in sealed && Names(cfg, old(sealed)[n]) <= cat.files.Keys
      ensures healthy ==> ok && unflushed == []
    {
      ghost var before := View();
      var retried, flushed;
      ghost var more;
      retried, steps := RetryAll();
      flushed, more := FlushActive();
      ThroughThrough(cfg, before, steps, more);
      steps := steps + more;
      ok := retried && flushed;
    }

    /** Seals what is buffered and lands it; a segment that does not go joins the retry list. */
    method FlushActive() returns (ok: bool, ghost steps: seq<Step>)
      requires Valid() && other.flush.Resting?
      modifies this
      ensures Valid() && other.flush.Resting? && View() == Through(cfg, old(View()), steps)
      ensures ok ==> active == [] && forall n :: n in unflushed ==> n in old(unflushed) || Names(cfg, sealed[n]) <= cat.files.Keys
      ensures ok ==> Names(cfg, old(active)) <= cat.files.Keys
      ensures old(cat.files.Keys) <= cat.files.Keys && forall n :: n in sealed ==> n in old(sealed) || n >= old(number)
      ensures healthy ==> ok && unflushed == old(unflushed)
    {
      ghost var before := View();
      var failed, segment, taken;
      ghost var recs;
      failed, segment, taken, recs := Seal();
      if segment.None? {
        return !failed, [];
      }
      ok, steps := LandActive(segment.value, taken);
      ThroughFirst(cfg, before, Step.Seal, steps);
      steps := [Step.Seal] + steps;
    }

    /** Lands the segment just sealed, or keeps it for a retry. */
    method LandActive(n: nat, taken: map<string, seq<Rec>>) returns (ok: bool, ghost steps: seq<Step>)
      requires Valid() && other.flush.Loaded? && other.flush.n == n && taken == Grouped(other.flush.recs)
      requires n !in unflushed && n in sealed && n < number && sealed[n] == other.flush.recs
      modifies this`objects, this`cat, this`sealed, this`unflushed, this`other
      ensures Valid() && other.flush.Resting? && View() == Through(cfg, old(View()), steps)
      ensures ok ==> forall m :: m in unflushed ==> m in old(unflushed) || Names(cfg, sealed[m]) <= cat.files.Keys
      ensures ok ==> Names(cfg, old(other.flush.recs)) <= cat.files.Keys
      ensures old(cat.files.Keys) <= cat.files.Keys && sealed.Keys <= old(sealed.Keys) && (healthy ==> ok && unflushed == old(unflushed))
    {
      var gone;
      ok, gone, steps := Land(n, taken, Members(unflushed));
      if !gone {
        Retain(n);
      }
    }

    /** A segment that did not go waits to be tried again. */
    method Retain(n: nat)
      requires n !in unflushed && Unique(unflushed)
      modifies this`unflushed
      ensures unflushed == old(unflushed) + [n] && Unique(unflushed) && Members(unflushed) == Members(old(unflushed)) + {n}
    {
      OneMore(unflushed, n);
      unflushed := unflushed + [n];
    }

    /** The segments on disk, oldest first. */
    method Orphans() returns (list: seq<nat>)
      ensures Members(list) == sealed.Keys && Climbs(list)
    {
      list := [];
      var left, done := sealed.Keys, {};
      while left != {}
        invariant done + left == sealed.Keys && Members(list) == done && Climbs(list) && Below(list, left)
        decreases |left|
      {
        var n := Least(left);
        OneMore(list, n);
        ClimbsOn(list, left, n);
        list := list + [n];
        left, done := left - {n}, done + {n};
      }
    }

    /** Opens what a crash left: numbering starts from the catalog, and replaying every segment raises it to what they hold. */
    method Open(survivors: nat) returns (ghost top: nat, ghost steps: seq<Step>)
      requires MayCrash(View(), survivors) && (forall n :: n in sealed ==> n < number)
      modifies this
      ensures Valid() && other.flush.Resting?
      ensures IsHighest(top, old(cat.maxSeq), Left(old(View()), survivors))
      ensures View() == Through(cfg, DoCrash(old(View()), survivors, top), steps)
    {
      ghost var before := View();
      if survivors != 0 {
        sealed := sealed[number := active[..survivors]];
      }
      Restart();
      top := HighestExists(cat.maxSeq, sealed);
      highest := top;
      ghost var reopened := DoCrash(before, survivors, top);
      other := reopened;
      assert ViewWith(sealed.Keys) == reopened;
      steps := Recover(reopened);
    }

    /** A new process starts with nothing in memory, and numbers from what the catalog remembers. */
    method Restart()
      modifies this`number, this`active, this`synced, this`batch, this`rows, this`unflushed, this`seqno
      ensures number == old(number) + 1 && active == [] && synced == 0 && batch == map[] && rows == 0 && unflushed == [] && seqno == cat.maxSeq
    {
      number, active, synced, batch, rows, unflushed := number + 1, [], 0, map[], 0, [];
      seqno := cat.maxSeq;
    }

    /** Replays one more segment; one that will not land is kept, and its records count all the same. */
    method RecoverOne(list: seq<nat>, i: nat, ghost maxSeq: nat, ghost segments: map<nat, seq<Rec>>) returns (ghost steps: seq<Step>)
      requires i < |list| && Progress(list, i, unflushed, sealed) && other.flush.Resting?
      requires Covers(seqno, maxSeq, segments, list, i) && forall n :: n in sealed ==> n in segments && sealed[n] == segments[n]
      modifies this`objects, this`cat, this`sealed, this`unflushed, this`seqno, this`other
      ensures Progress(list, i + 1, unflushed, sealed) && other.flush.Resting?
      ensures Covers(seqno, maxSeq, segments, list, i + 1) && forall n :: n in sealed ==> n in old(sealed) && sealed[n] == segments[n]
      ensures ViewWith(Pending(list, i + 1, unflushed)) == Through(cfg, old(ViewWith(Pending(list, i, unflushed))), steps)
    {
      var n := list[i];
      Next(list, i, unflushed, sealed);
      var gone, most;
      gone, most, steps := Replay(n, Pending(list, i, unflushed));
      HighestSays(segments[n]);
      CoversNext(seqno, maxSeq, segments, list, i, most);
      if most > seqno {
        seqno := most;
      }
      if !gone {
        unflushed := unflushed + [n];
      }
    }

    /** Replays the segments listed, in order. */
    method ReplayAll(list: seq<nat>, ghost maxSeq: nat, ghost segments: map<nat, seq<Rec>>) returns (ghost steps: seq<Step>)
      requires Progress(list, 0, unflushed, sealed) && other.flush.Resting? && sealed == segments && Covers(seqno, maxSeq, segments, list, 0)
      modifies this`objects, this`cat, this`sealed, this`unflushed, this`seqno, this`other
      ensures Unique(unflushed) && (forall n :: n in unflushed ==> n in sealed) && (forall n :: n in sealed ==> n in segments)
      ensures other.flush.Resting? && Covers(seqno, maxSeq, segments, list, |list|)
      ensures View() == Through(cfg, old(ViewWith(Pending(list, 0, unflushed))), steps)
    {
      ghost var before := ViewWith(Pending(list, 0, unflushed));
      steps := [];
      var i := 0;
      while i < |list|
        invariant 0 <= i <= |list| && other.flush.Resting?
        invariant Progress(list, i, unflushed, sealed)
        invariant Covers(seqno, maxSeq, segments, list, i) && forall n :: n in sealed ==> n in segments && sealed[n] == segments[n]
        invariant ViewWith(Pending(list, i, unflushed)) == Through(cfg, before, steps)
      {
        ghost var more := RecoverOne(list, i, maxSeq, segments);
        ThroughThrough(cfg, before, steps, more);
        steps := steps + more;
        i := i + 1;
      }
      NoneToCome(list, unflushed, sealed);
    }

    /** Replays every segment on disk. */
    method Recover(ghost reopened: Store) returns (ghost steps: seq<Step>)
      requires ViewWith(sealed.Keys) == reopened && other.flush.Resting? && unflushed == [] && seqno == cat.maxSeq
      requires batch == map[] && active == [] && rows == 0
      requires (forall n :: n in sealed ==> n < number) && IsHighest(highest, cat.maxSeq, sealed)
      modifies this`objects, this`cat, this`sealed, this`unflushed, this`seqno, this`other
      ensures Valid() && other.flush.Resting? && View() == Through(cfg, reopened, steps)
    {
      ghost var segments, maxSeq := sealed, cat.maxSeq;
      var list := Orphans();
      AllToCome(list, sealed);
      GroupedNone();
      steps := ReplayAll(list, maxSeq, segments);
      CoversAll(seqno, maxSeq, segments, list, highest);
    }

    /** The first record's number in the oldest segment that holds one, or none. */
    method Floor() returns (floor: Option<nat>)
      ensures IsFloor(sealed, floor)
    {
      var list := Orphans();
      var i := 0;
      while i < |list|
        invariant 0 <= i <= |list|
        invariant forall k :: 0 <= k < i ==> list[k] in sealed && sealed[list[k]] == []
      {
        assert list[i] in Members(list);
        if sealed[list[i]] != [] {
          forall m | m in sealed && m < list[i]
            ensures sealed[m] == []
          {
            assert m in Members(list);
            var k :| 0 <= k < |list| && list[k] == m;
          }
          return Some(sealed[list[i]][0].seqno);
        }
        i := i + 1;
      }
      forall n | n in sealed
        ensures sealed[n] == []
      {
        assert n in Members(list);
      }
      return None;
    }

    /** Deletes one retired file's object, and its row unless a replay might still look for it. */
    method CollectOne(p: Path, floor: Option<nat>) returns (deleted: bool, forgotten: bool, ghost steps: seq<Step>)
      requires other.gc.Floored? && other.gc.floor == floor && p in other.gc.files && p in cat.files
      requires cat.files[p].file.level == p.level
      modifies this`objects, this`cat, this`other
      ensures View() == Through(cfg, old(View()), steps)
      ensures other.gc.Floored? && other.gc.floor == floor && old(other.gc.files) - {p} <= other.gc.files <= old(other.gc.files)
      ensures objects == (if deleted then old(objects) - {p} else old(objects)) && (healthy ==> deleted)
      ensures healthy ==> (forgotten <==> !(p.level == 0 && floor.Some? && old(cat.files)[p].file.maxSeq >= floor.value))
      ensures cat.files == if forgotten then old(cat.files) - {p} else old(cat.files)
      ensures forgotten ==> deleted && !(p.level == 0 && floor.Some? && old(cat.files)[p].file.maxSeq >= floor.value)
    {
      ghost var before := View();
      steps, forgotten := [], false;
      deleted := Answer();
      if !deleted {
        return;
      }
      DeleteObject(p);
      forgotten, steps := MayForget(p, floor);
      ThroughFirst(cfg, before, RemoveObject(p), steps);
      steps := [RemoveObject(p)] + steps;
    }

    /** Forgets a row whose object is gone, unless it is a flush's own and a segment may still name it. */
    method MayForget(p: Path, floor: Option<nat>) returns (forgotten: bool, ghost steps: seq<Step>)
      requires other.gc.Floored? && other.gc.floor == floor && p in other.gc.files && p in other.gc.removed && p in cat.files
      requires cat.files[p].file.level == p.level
      modifies this`cat, this`other
      ensures View() == Through(cfg, old(View()), steps)
      ensures other.gc == if forgotten then old(other.gc).(files := old(other.gc.files) - {p}) else old(other.gc)
      ensures cat.files == if forgotten then old(cat.files) - {p} else old(cat.files)
      ensures forgotten ==> !(p.level == 0 && floor.Some? && old(cat.files)[p].file.maxSeq >= floor.value)
      ensures healthy ==> forgotten || (p.level == 0 && floor.Some? && old(cat.files)[p].file.maxSeq >= floor.value)
    {
      steps, forgotten := [], false;
      var file := cat.files[p].file;
      if file.level == 0 && floor.Some? && file.maxSeq >= floor.value {
        return;
      }
      forgotten := Answer();
      if forgotten {
        ghost var before := View();
        ForgetFile(p);
        ThroughOne(cfg, before, [], ForgetRow(p));
        steps := [] + [ForgetRow(p)];
      }
    }

    method DeleteObject(p: Path)
      requires other.gc.Floored? && p in other.gc.files
      modifies this`objects, this`other
      ensures View() == Take(cfg, old(View()), RemoveObject(p)) && objects == old(objects) - {p}
      ensures other.gc == old(other.gc).(removed := old(other.gc.removed) + {p})
    {
      objects := objects - {p};
      other := other.(gc := other.gc.(removed := other.gc.removed + {p}));
    }

    method ForgetFile(p: Path)
      requires other.gc.Floored? && p in other.gc.files && p in other.gc.removed && p in cat.files
      requires !(p.level == 0 && other.gc.floor.Some? && cat.files[p].file.maxSeq >= other.gc.floor.value)
      modifies this`cat, this`other
      ensures View() == Take(cfg, old(View()), ForgetRow(p)) && cat.files == old(cat.files) - {p}
      ensures other.gc == old(other.gc).(files := old(other.gc.files) - {p})
    {
      cat := Forget(cat, p);
      other := other.(gc := other.gc.(files := other.gc.files - {p}));
    }

    /** Lists what may go, and finds how far back a replay could reach; a floor that cannot be read keeps every row. */
    method BeginCollect() returns (listed: set<Path>, floor: Option<nat>, ghost steps: seq<Step>)
      requires other.gc.Waiting?
      modifies this`other
      ensures View() == Through(cfg, old(View()), steps) && listed == Collectable(cat, now - cfg.grace)
      ensures other.gc == Floored(listed, floor, {}) && (IsFloor(sealed, floor) || floor == Some(0))
      ensures healthy ==> IsFloor(sealed, floor)
    {
      ghost var before := View();
      listed := Collectable(cat, now - cfg.grace);
      floor := Floor();
      var known := Answer();
      if !known {
        floor := Some(0);
      }
      NoteFloor(listed, floor);
      steps := [List] + [TakeFloor(floor)];
      ThroughFirst(cfg, before, List, [TakeFloor(floor)]);
      ThroughOne(cfg, Take(cfg, before, List), [], TakeFloor(floor));
      assert [] + [TakeFloor(floor)] == [TakeFloor(floor)];
    }

    method NoteFloor(listed: set<Path>, floor: Option<nat>)
      requires other.gc.Waiting? && listed == Collectable(cat, now - cfg.grace) && (IsFloor(sealed, floor) || floor == Some(0))
      modifies this`other
      ensures View() == Take(cfg, Take(cfg, old(View()), List), TakeFloor(floor))
      ensures other.gc == Floored(listed, floor, {})
    {
      other := other.(gc := Floored(listed, floor, {}));
    }

    /** Deletes files retired a grace period ago; each deletion is independent. */
    method Collect() returns (ghost floor: Option<nat>, ghost steps: seq<Step>)
      requires other.gc.Waiting? && forall p :: p in cat.files ==> cat.files[p].file.level == p.level
      modifies this`objects, this`cat, this`other
      ensures View() == Through(cfg, old(View()), steps) && other.gc.Waiting?
      ensures healthy ==> IsFloor(sealed, floor)
      ensures healthy ==> forall p :: p in old(cat.files) && old(cat.files)[p].state.Tombstoned? && old(cat.files)[p].state.at <= now - cfg.grace ==>
                p !in objects && (p in cat.files <==> p.level == 0 && floor.Some? && old(cat.files)[p].file.maxSeq >= floor.value)
      ensures forall p :: p in old(cat.files) && !(old(cat.files)[p].state.Tombstoned? && old(cat.files)[p].state.at <= now - cfg.grace) ==>
                (p in objects <==> p in old(objects)) && p in cat.files && cat.files[p] == old(cat.files)[p]
    {
      ghost var before := View();
      ghost var more;
      var listed, low;
      listed, low, steps := BeginCollect();
      floor := low;
      more := CollectAll(listed, low);
      ThroughThrough(cfg, before, steps, more);
      steps := steps + more;
      EndCollect();
      ThroughOne(cfg, before, steps, Rest);
      steps := steps + [Rest];
    }

    method EndCollect()
      requires other.gc.Floored?
      modifies this`other
      ensures View() == Take(cfg, old(View()), Rest) && other.gc.Waiting? && objects == old(objects) && cat == old(cat)
    {
      other := other.(gc := Waiting);
    }

    /** Each file listed, one after another. */
    method CollectAll(listed: set<Path>, floor: Option<nat>) returns (ghost steps: seq<Step>)
      requires other.gc.Floored? && other.gc.floor == floor && listed <= other.gc.files
      requires forall p :: p in listed ==> p in cat.files && cat.files[p].file.level == p.level
      modifies this`objects, this`cat, this`other
      ensures View() == Through(cfg, old(View()), steps) && other.gc.Floored?
      ensures healthy ==> Collected(listed, floor, old(cat.files), cat.files, objects)
      ensures Others(listed, old(cat.files), cat.files, old(objects), objects)
    {
      ghost var before, files, shelf := View(), cat.files, objects;
      steps := [];
      var left := listed;
      while left != {}
        invariant left <= listed && Others(listed, files, cat.files, shelf, objects)
        invariant forall p :: p in left ==> p in files && p in cat.files && cat.files[p] == files[p]
        invariant healthy ==> Collected(listed - left, floor, files, cat.files, objects)
        invariant other.gc.Floored? && other.gc.floor == floor && left <= other.gc.files
        invariant forall p :: p in left ==> p in cat.files && cat.files[p].file.level == p.level
        invariant View() == Through(cfg, before, steps)
        decreases |left|
      {
        var p :| p in left;
        var deleted, forgotten;
        ghost var more;
        ghost var was, held := cat.files, objects;
        deleted, forgotten, more := CollectOne(p, floor);
        ThroughThrough(cfg, before, steps, more);
        steps := steps + more;
        if healthy {
          CollectedNext(listed, left, p, floor, files, was, cat.files, held, objects);
        }
        left := left - {p};
      }
      assert listed - left == listed;
    }

    /** Settles declarations older than the orphan grace; a failed deletion leaves its declaration. */
    method Sweep() returns (ghost steps: seq<Step>)
      modifies this`objects, this`cat
      ensures View() == Through(cfg, old(View()), steps)
      ensures healthy ==> forall p :: p in old(cat.pending) && old(cat.pending)[p] < now - cfg.orphanGrace ==>
                p !in cat.pending && (p !in cat.files ==> p !in objects)
      ensures cat.files == old(cat.files) && forall p :: p in old(cat.pending) && old(cat.pending)[p] >= now - cfg.orphanGrace ==>
                p in cat.pending && cat.pending[p] == old(cat.pending)[p] && (p in objects <==> p in old(objects))
    {
      ghost var before := View();
      ghost var pending := cat.pending;
      steps := [];
      var cutoff := now - cfg.orphanGrace;
      var left := Abandoned(cat, cutoff);
      while left != {}
        invariant View() == Through(cfg, before, steps)
        invariant cat.files == before.cat.files && left <= Abandoned(before.cat, cutoff)
        invariant healthy ==> forall p :: p in Abandoned(before.cat, cutoff) && p !in left ==> p !in cat.pending && (p !in cat.files ==> p !in objects)
        invariant forall p :: p in left ==> p in cat.pending && cat.pending[p] == pending[p]
        invariant forall p :: p in pending && pending[p] >= cutoff ==> p in cat.pending && cat.pending[p] == pending[p] && (p in objects <==> p in before.objects)
        decreases |left|
      {
        var p :| p in left;
        var deleted := Answer();
        if deleted {
          SweepOne(p, cutoff);
          ThroughOne(cfg, before, steps, Step.Sweep(p, cutoff));
          steps := steps + [Step.Sweep(p, cutoff)];
        }
        left := left - {p};
      }
    }

    /** Settles one declaration, and takes its object with it if it was never registered. */
    method SweepOne(p: Path, cutoff: int)
      requires cutoff == now - cfg.orphanGrace
      modifies this`objects, this`cat
      ensures View() == Take(cfg, old(View()), Step.Sweep(p, cutoff))
      ensures cat.files == old(cat.files) && objects.Keys <= old(objects.Keys)
      ensures p in old(cat.pending) && old(cat.pending)[p] < cutoff ==> cat.pending == old(cat.pending) - {p} && objects == if p in cat.files then old(objects) else old(objects) - {p}
    {
      var (c, remove) := Discard(cat, p, cutoff);
      cat := c;
      if remove {
        objects := objects - {p};
      }
    }
  }

  /** The files done have no object, and a row only where a replay might still look for it. */
  ghost predicate Collected(done: set<Path>, floor: Option<nat>, before: map<Path, Row>, files: map<Path, Row>, objects: map<Path, multiset<Rec>>) {
    forall p :: p in done && p in before ==>
      p !in objects && (p in files <==> p.level == 0 && floor.Some? && before[p].file.maxSeq >= floor.value)
  }

  /** Files that are not listed stay as they were. */
  ghost predicate Others(listed: set<Path>, before: map<Path, Row>, files: map<Path, Row>, shelf: map<Path, multiset<Rec>>, objects: map<Path, multiset<Rec>>) {
    forall p :: p !in listed ==> (p in objects <==> p in shelf) && (p in before ==> p in files && files[p] == before[p])
  }

  lemma CollectedNext(listed: set<Path>, left: set<Path>, p: Path, floor: Option<nat>, before: map<Path, Row>, was: map<Path, Row>, files: map<Path, Row>,
                      held: map<Path, multiset<Rec>>, objects: map<Path, multiset<Rec>>)
    requires p in left && left <= listed && p in before && p in was && was[p] == before[p] && Collected(listed - left, floor, before, was, held)
    requires objects == held - {p}
    requires files == if p.level == 0 && floor.Some? && was[p].file.maxSeq >= floor.value then was else was - {p}
    ensures Collected(listed - (left - {p}), floor, before, files, objects)
  {
  }

  /** Numbering has caught up with the catalog and with the first i segments, and gone no further. */
  ghost predicate Covers(seqno: nat, maxSeq: nat, segments: map<nat, seq<Rec>>, list: seq<nat>, i: nat)
    requires i <= |list|
  {
    && maxSeq <= seqno
    && (seqno == maxSeq || exists n, k :: n in segments && 0 <= k < |segments[n]| && segments[n][k].seqno == seqno)
    && (forall j, k :: 0 <= j < i && list[j] in segments && 0 <= k < |segments[list[j]]| ==> segments[list[j]][k].seqno <= seqno)
  }

  lemma CoversNext(seqno: nat, maxSeq: nat, segments: map<nat, seq<Rec>>, list: seq<nat>, i: nat, most: nat)
    requires i < |list| && Covers(seqno, maxSeq, segments, list, i) && list[i] in segments
    requires forall k :: 0 <= k < |segments[list[i]]| ==> segments[list[i]][k].seqno <= most
    requires most == 0 || exists k :: 0 <= k < |segments[list[i]]| && segments[list[i]][k].seqno == most
    ensures Covers(if most > seqno then most else seqno, maxSeq, segments, list, i + 1)
  {
  }

  lemma CoversAll(seqno: nat, maxSeq: nat, segments: map<nat, seq<Rec>>, list: seq<nat>, highest: nat)
    requires Covers(seqno, maxSeq, segments, list, |list|) && Members(list) == segments.Keys && IsHighest(highest, maxSeq, segments)
    ensures seqno == highest
  {
    forall n, k | n in segments && 0 <= k < |segments[n]|
      ensures segments[n][k].seqno <= seqno
    {
      assert n in Members(list);
      var j :| 0 <= j < |list| && list[j] == n;
    }
  }

  lemma {:induction false} HighestExists(maxSeq: nat, sealed: map<nat, seq<Rec>>) returns (top: nat)
    ensures IsHighest(top, maxSeq, sealed)
    decreases |sealed|
  {
    if sealed == map[] {
      top := maxSeq;
    } else {
      var n :| n in sealed;
      var rest := sealed - {n};
      top := HighestExists(maxSeq, rest);
      if top != maxSeq {
        var m, i :| m in rest && 0 <= i < |rest[m]| && rest[m][i].seqno == top;
        assert m in sealed && sealed[m] == rest[m];
      }
      var k := 0;
      while k < |sealed[n]|
        invariant 0 <= k <= |sealed[n]| && maxSeq <= top
        invariant forall m, i :: m in rest && 0 <= i < |rest[m]| ==> rest[m][i].seqno <= top
        invariant forall i :: 0 <= i < k ==> sealed[n][i].seqno <= top
        invariant top == maxSeq || exists m, i :: m in sealed && 0 <= i < |sealed[m]| && sealed[m][i].seqno == top
      {
        if sealed[n][k].seqno > top {
          top := sealed[n][k].seqno;
        }
        k := k + 1;
      }
      forall m, i | m in sealed && 0 <= i < |sealed[m]|
        ensures sealed[m][i].seqno <= top
      {
        assert m != n ==> m in rest && rest[m] == sealed[m];
      }
    }
  }

  ghost predicate Climbs(list: seq<nat>) {
    forall i, j :: 0 <= i < j < |list| ==> list[i] < list[j]
  }

  ghost predicate Below(list: seq<nat>, left: set<nat>) {
    forall i, m :: 0 <= i < |list| && m in left ==> list[i] < m
  }

  lemma ClimbsOn(list: seq<nat>, left: set<nat>, n: nat)
    requires Climbs(list) && Below(list, left) && n in left && forall m :: m in left ==> n <= m
    ensures Climbs(list + [n]) && Below(list + [n], left - {n})
  {
  }

  lemma OneMore(list: seq<nat>, n: nat)
    ensures Members(list + [n]) == Members(list) + {n}
  {
    assert forall m :: m in list + [n] <==> m in list || m == n;
  }

  function Least(left: set<nat>): (n: nat)
    requires left != {}
    ensures n in left && forall m :: m in left ==> n <= m
  {
    LeastExists(left);
    var n :| n in left && forall m :: m in left ==> n <= m;
    n
  }

  lemma LeastExists(left: set<nat>)
    requires left != {}
    ensures exists n :: n in left && forall m :: m in left ==> n <= m
  {
    var least := SomeLeast(left);
  }

  lemma {:induction false} SomeLeast(left: set<nat>) returns (least: nat)
    requires left != {}
    ensures least in left && forall m :: m in left ==> least <= m
    decreases |left|
  {
    var first :| first in left;
    var rest := left - {first};
    least := first;
    if rest != {} {
      var other := SomeLeast(rest);
      least := if first <= other then first else other;
    }
    forall m | m in left
      ensures least <= m
    {
      assert m == first || m in rest;
    }
  }

  /** Some way through a list of segments: what is kept comes from the part done, and that and the rest are on disk. */
  ghost predicate Progress(list: seq<nat>, i: nat, kept: seq<nat>, sealed: map<nat, seq<Rec>>)
    requires i <= |list|
  {
    && Unique(list) && Unique(kept)
    && (forall n :: n in kept ==> n in list[..i] && n in sealed)
    && (forall n :: n in list[i..] ==> n in sealed)
  }

  /** What is still to be replayed, and what is to be tried again. */
  function Pending(list: seq<nat>, i: nat, kept: seq<nat>): set<nat>
    requires i <= |list|
  {
    Members(kept) + Members(list[i..])
  }

  /** What is no longer on the list is no longer on disk, and each of its streams has its file. */
  ghost predicate AllLanded(cfg: Config, list: seq<nat>, kept: seq<nat>, segments: map<nat, seq<Rec>>, sealed: map<nat, seq<Rec>>, files: map<Path, Row>) {
    && (forall n :: n in sealed ==> n in segments && sealed[n] == segments[n])
    && forall n :: n in list && n !in kept ==> n !in sealed && n in segments && Names(cfg, segments[n]) <= files.Keys
  }

  lemma OneLanded(cfg: Config, list: seq<nat>, i: nat, kept: seq<nat>, segments: map<nat, seq<Rec>>,
                  left: map<nat, seq<Rec>>, files: map<Path, Row>, sealed: map<nat, seq<Rec>>, now: map<Path, Row>, gone: bool)
    requires i < |list| && AllLanded(cfg, list[..i], kept, segments, left, files) && list[i] in left && files.Keys <= now.Keys
    requires sealed == (if gone then left - {list[i]} else left) && (gone ==> Names(cfg, left[list[i]]) <= now.Keys)
    ensures AllLanded(cfg, list[..i + 1], if gone then kept else kept + [list[i]], segments, sealed, now)
  {
    assert list[..i + 1] == list[..i] + [list[i]];
  }

  lemma AllToCome(list: seq<nat>, sealed: map<nat, seq<Rec>>)
    requires Climbs(list) && Members(list) == sealed.Keys
    ensures Progress(list, 0, [], sealed) && Pending(list, 0, []) == sealed.Keys
  {
    assert list[0..] == list;
    assert forall n :: n in list ==> n in Members(list);
  }

  lemma NoneToCome(list: seq<nat>, kept: seq<nat>, sealed: map<nat, seq<Rec>>)
    requires Progress(list, |list|, kept, sealed)
    ensures Pending(list, |list|, kept) == Members(kept) && Unique(kept) && forall n :: n in kept ==> n in sealed
  {
    assert list[|list|..] == [];
  }

  lemma Next(list: seq<nat>, i: nat, kept: seq<nat>, sealed: map<nat, seq<Rec>>)
    requires i < |list| && Progress(list, i, kept, sealed)
    ensures list[i] in sealed && list[i] in Pending(list, i, kept)
    ensures Progress(list, i + 1, kept, sealed - {list[i]}) && Pending(list, i + 1, kept) == Pending(list, i, kept) - {list[i]}
    ensures Progress(list, i + 1, kept + [list[i]], sealed) && Pending(list, i + 1, kept + [list[i]]) == Pending(list, i, kept)
  {
    var n := list[i];
    assert list[i..] == [n] + list[i + 1..];
    assert list[..i + 1] == list[..i] + [n];
    assert forall m :: m in kept + [n] <==> m in kept || m == n;
    assert forall k :: 0 <= k < i ==> list[..i][k] == list[k];
    assert forall k :: i < k < |list| ==> list[i + 1..][k - i - 1] == list[k];
  }

  /** The highest number among some records. */
  function Highest(recs: seq<Rec>): nat {
    if recs == [] then 0
    else
      var before, last := Highest(recs[..|recs| - 1]), recs[|recs| - 1].seqno;
      if last > before then last else before
  }

  lemma {:induction false} HighestSays(recs: seq<Rec>)
    ensures forall i :: 0 <= i < |recs| ==> recs[i].seqno <= Highest(recs)
    ensures Highest(recs) == 0 || exists i :: 0 <= i < |recs| && recs[i].seqno == Highest(recs)
    decreases |recs|
  {
    if recs != [] {
      var n := |recs| - 1;
      var before := recs[..n];
      HighestSays(before);
      forall i | 0 <= i < |recs| ensures recs[i].seqno <= Highest(recs) {
        assert i < n ==> recs[i] == before[i];
      }
      if Highest(recs) == Highest(before) && Highest(before) != 0 {
        var i :| 0 <= i < n && before[i].seqno == Highest(before);
        assert recs[i].seqno == Highest(recs);
      } else {
        assert recs[n].seqno == Highest(recs);
      }
    }
  }

  lemma Narrows(todo: set<string>, left: set<string>, stream: string)
    ensures todo * left - {stream} == todo * (left - {stream})
  {
  }

  /** Every stream but those left has its file registered. */
  ghost predicate Registers(cfg: Config, recs: seq<Rec>, left: set<string>, files: map<Path, Row>) {
    forall stream :: stream in Streams(recs) && stream !in left ==> NameOf(cfg, recs, stream) in files
  }

  function NameFor(cfg: Config, stream: string, taken: map<string, seq<Rec>>): Path
    requires stream in taken
  {
    var records := taken[stream];
    if records == [] then Path(cfg.safe(stream), 0, 0, 0, None)
    else Path(cfg.safe(stream), 0, records[0].seqno, records[0].micros, None)
  }

  lemma NonEmpty(recs: seq<Rec>, stream: string)
    requires stream in Streams(recs)
    ensures OfStream(recs, stream) != []
  {
    OfStreamHas(recs, stream);
    var r :| r in recs && r.stream == stream;
    assert r in OfStream(recs, stream);
  }

  /** The names a batch gives are the names its segment gives. */
  lemma NamesAgree(cfg: Config, recs: seq<Rec>)
    ensures forall stream :: stream in Streams(recs) ==> NameFor(cfg, stream, Grouped(recs)) == NameOf(cfg, recs, stream)
    ensures (set stream | stream in Grouped(recs) :: NameFor(cfg, stream, Grouped(recs))) == Names(cfg, recs)
  {
    forall stream | stream in Streams(recs)
      ensures NameFor(cfg, stream, Grouped(recs)) == NameOf(cfg, recs, stream)
    {
      NonEmpty(recs, stream);
    }
    forall p | p in Names(cfg, recs)
      ensures p in set stream | stream in Grouped(recs) :: NameFor(cfg, stream, Grouped(recs))
    {
      var stream :| stream in Streams(recs) && NameOf(cfg, recs, stream) == p;
      assert stream in Grouped(recs);
    }
  }
}
