/** What a merge comes to: exactly its inputs' records less what retention drops, under a name that depends on nothing else. */
module CompactTheorems {
  import opened Prelude
  import opened Catalog
  import opened Store
  import opened Compact
  import StoreInvariant

  /** A file's row says what its object holds. */
  lemma OutputDescribes(o: Options, now: int, d: Disk, group: seq<File>, stream: string, level: nat)
    ensures var rows, out := RowsOf(o, now, d, group, level), Output(o, now, d, group, stream, level);
            && (out.None? <==> rows == [])
            && (out.Some? ==>
                  && Describes(out.value, out.value.path, multiset(rows)) && out.value.path.first == rows[0].seqno
                  && out.value.level == level && out.value.path.level == level
                  && (out.value.levelFloor != "" ==> forall r :: r in rows ==> r.severity >= o.rank(out.value.levelFloor)))
  {
    var rows, out := RowsOf(o, now, d, group, level), Output(o, now, d, group, stream, level);
    RowsAreKept(o, now, d, group, level);
    if rows != [] {
      RangeDescribes(out.value, rows);
      FloorHolds(o, now, Contents(d.objects, Chosen(o, group)), rows);
    }
  }

  lemma RangeDescribes(f: File, rows: seq<Rec>)
    requires rows != [] && f.level == f.path.level && f.rows == |rows|
    requires f.minSeq == Low(rows) && f.maxSeq == High(rows) && f.minTs == Oldest(rows) && f.maxTs == Newest(rows)
    ensures Describes(f, f.path, multiset(rows))
  {
    InRange(rows);
    assert |multiset(rows)| == |rows|;
  }

  lemma FloorHolds(o: Options, now: int, read: seq<Rec>, rows: seq<Rec>)
    requires multiset(rows) == multiset(Kept(o, now, read))
    ensures FloorOf(o, now, read) != "" ==> forall r :: r in rows ==> r.severity >= o.rank(FloorOf(o, now, read))
  {
    FloorIsTruthful(o, now, read);
    forall r | r in rows ensures r in Kept(o, now, read) {
      assert r in multiset(rows);
    }
  }

  /**
   * The output holds each record of the inputs as often as they do, except those downsampling drops;
   * it is in order, is described by its row, promises no floor it does not keep, and nothing else is touched.
   */
  lemma MergeIsExact(o: Options, now: int, d: Disk, group: seq<File>, stream: string, level: nat)
    requires Merged(o, now, d, group, stream, level).Ok? && Chosen(o, group) != []
    ensures var after, read := Merged(o, now, d, group, stream, level).value, Contents(d.objects, Chosen(o, group));
            match Output(o, now, d, group, stream, level)
            case None => after.objects == d.objects && forall r :: r in read ==>
              o.policy.downsampleAfter != 0 && o.policy.minLevelAfter != "" && r.micros <= now - o.policy.downsampleAfter && r.severity < o.rank(o.policy.minLevelAfter)
            case Some(f) =>
              && f.path !in d.cat.files && f.path in after.objects && after.objects == d.objects[f.path := after.objects[f.path]]
              && var rows := after.objects[f.path];
              && (forall r: Rec :: multiset(rows)[r] ==
                   if o.policy.downsampleAfter == 0 || o.policy.minLevelAfter == "" || r.micros > now - o.policy.downsampleAfter || r.severity >= o.rank(o.policy.minLevelAfter)
                   then multiset(read)[r] else 0)
              && InOrder(o, level == 2, rows) && rows != [] && f.path.first == rows[0].seqno
              && Describes(f, f.path, multiset(rows))
              && (f.levelFloor != "" ==> forall r :: r in rows ==> r.severity >= o.rank(f.levelFloor))
  {
    MergeKeeps(o, now, d, group, stream, level);
    KeepsOrDrops(o, now);
  }

  lemma MergeKeeps(o: Options, now: int, d: Disk, group: seq<File>, stream: string, level: nat)
    requires Merged(o, now, d, group, stream, level).Ok? && Chosen(o, group) != []
    ensures var after, read := Merged(o, now, d, group, stream, level).value, Contents(d.objects, Chosen(o, group));
            match Output(o, now, d, group, stream, level)
            case None => after.objects == d.objects && forall r :: r in read ==> Drops(o, now, r)
            case Some(f) =>
              && f.path !in d.cat.files && f.path in after.objects && after.objects == d.objects[f.path := after.objects[f.path]]
              && var rows := after.objects[f.path];
              && (forall r: Rec :: multiset(rows)[r] == if Drops(o, now, r) then 0 else multiset(read)[r])
              && InOrder(o, level == 2, rows) && rows != [] && f.path.first == rows[0].seqno
              && Describes(f, f.path, multiset(rows))
              && (f.levelFloor != "" ==> forall r :: r in rows ==> r.severity >= o.rank(f.levelFloor))
  {
    var read := Contents(d.objects, Chosen(o, group));
    RowsAreKept(o, now, d, group, level);
    OutputDescribes(o, now, d, group, stream, level);
    forall r ensures multiset(Kept(o, now, read))[r] == if Drops(o, now, r) then 0 else multiset(read)[r] {
      KeptOrDropped(o, now, read, r);
    }
  }

  lemma KeepsOrDrops(o: Options, now: int)
    ensures forall r :: !Drops(o, now, r) <==>
              o.policy.downsampleAfter == 0 || o.policy.minLevelAfter == "" || r.micros > now - o.policy.downsampleAfter || r.severity >= o.rank(o.policy.minLevelAfter)
  {
  }

  // ---- names ----

  lemma {:induction false} ContentsAppend(objects: map<Path, seq<Rec>>, a: seq<File>, b: seq<File>)
    ensures Contents(objects, a + b) == Contents(objects, a) + Contents(objects, b)
    decreases |b|
  {
    if b == [] {
      assert a + b == a;
    } else {
      var n := |b| - 1;
      ContentsAppend(objects, a, b[..n]);
      assert (a + b)[..|a + b| - 1] == a + b[..n] && (a + b)[|a + b| - 1] == b[n];
      Assoc(Contents(objects, a), Contents(objects, b[..n]), Holding(objects, b[n]));
    }
  }

  lemma ContentsMiddle(objects: map<Path, seq<Rec>>, a: seq<File>, f: File, b: seq<File>)
    ensures multiset(Contents(objects, a + [f] + b)) == multiset(Contents(objects, a + b)) + multiset(Holding(objects, f))
  {
    ContentsAppend(objects, a + [f], b);
    ContentsAppend(objects, a, b);
    assert (a + [f])[..|a|] == a;
    assert Contents(objects, a + [f]) == Contents(objects, a) + Holding(objects, f);
  }

  /** Reading files in another order reads the same records. */
  lemma {:induction false} ContentsPermuted(objects: map<Path, seq<Rec>>, a: seq<File>, b: seq<File>)
    requires multiset(a) == multiset(b)
    ensures multiset(Contents(objects, a)) == multiset(Contents(objects, b))
    decreases |a|
  {
    assert |a| == |multiset(a)| == |multiset(b)| == |b|;
    if a != [] {
      var n := |a| - 1;
      assert a[n] in multiset(b);
      var i :| 0 <= i < |b| && b[i] == a[n];
      assert b == b[..i] + [b[i]] + b[i + 1..];
      ContentsMiddle(objects, b[..i], b[i], b[i + 1..]);
      RemovedBoth(a, b, i);
      ContentsPermuted(objects, a[..n], b[..i] + b[i + 1..]);
    }
  }

  lemma {:induction false} KeptPermuted(o: Options, now: int, a: seq<Rec>, b: seq<Rec>)
    requires multiset(a) == multiset(b)
    ensures multiset(Kept(o, now, a)) == multiset(Kept(o, now, b))
  {
    forall r
      ensures multiset(Kept(o, now, a))[r] == multiset(Kept(o, now, b))[r]
    {
      KeptExactly(o, now, a, r);
      KeptExactly(o, now, b, r);
    }
  }

  /** The output's rows, and so its name, depend only on which files go in. */
  lemma NameForgetsOrder(o: Options, now: int, objects: map<Path, seq<Rec>>, a: seq<File>, b: seq<File>, level: nat)
    requires multiset(a) == multiset(b) && Numbered(Kept(o, now, Contents(objects, a)))
    ensures Ordered(o, level == 2, Kept(o, now, Contents(objects, a))) == Ordered(o, level == 2, Kept(o, now, Contents(objects, b)))
  {
    ContentsPermuted(objects, a, b);
    KeptPermuted(o, now, Contents(objects, a), Contents(objects, b));
    OrderForgetsInput(o, level == 2, Kept(o, now, Contents(objects, a)), Kept(o, now, Contents(objects, b)));
  }

  // ---- a merge is steps of the store ----

  /** What the store's model keeps of the objects: their records, whatever the order. */
  function Unordered(objects: map<Path, seq<Rec>>): map<Path, multiset<Rec>> {
    map p | p in objects :: multiset(objects[p])
  }

  lemma {:induction false} GatherIsContents(objects: map<Path, seq<Rec>>, files: seq<File>)
    ensures Gather(Unordered(objects), Paths(files)) == multiset(Contents(objects, files))
    decreases |files|
  {
    if files != [] {
      var n := |files| - 1;
      GatherIsContents(objects, files[..n]);
      assert Paths(files)[..n] == Paths(files[..n]);
    }
  }

  /** What the compactor hands a merge: live files of one stream and level, each once. */
  ghost predicate GroupOk(files: map<Path, Row>, group: seq<File>, stream: string, from: nat) {
    && InShape(files) && LiveFiles(files, group, from) && Apart(group)
    && forall i :: 0 <= i < |group| ==> group[i].stream == stream
  }

  lemma {:induction false} InBucketApart(files: seq<File>, level: nat, key: (string, int))
    requires Apart(files)
    ensures Apart(InBucket(files, level, key))
    decreases |files|
  {
    if files != [] {
      var n := |files| - 1;
      InBucketApart(files[..n], level, key);
      forall i | 0 <= i < |InBucket(files[..n], level, key)|
        ensures InBucket(files[..n], level, key)[i].path != files[n].path
      {
        BucketHas(files[..n], level, key, InBucket(files[..n], level, key)[i]);
      }
    }
  }

  /** Every group a pass hands to a merge is such a group. */
  lemma BucketIsGroup(files: map<Path, Row>, listed: seq<File>, level: nat, i: nat)
    requires InShape(files) && LiveFiles(files, listed, level) && Apart(listed) && i < |Buckets(listed, level)|
    ensures GroupOk(files, Buckets(listed, level)[i].files, Buckets(listed, level)[i].stream, level)
  {
    var key := Keys(listed, level)[i];
    InBucketApart(listed, level, key);
    forall k | 0 <= k < |InBucket(listed, level, key)|
      ensures InBucket(listed, level, key)[k] in listed && InBucket(listed, level, key)[k].stream == key.0
    {
      BucketHas(listed, level, key, InBucket(listed, level, key)[k]);
    }
  }

  lemma ChosenTogether(o: Options, files: map<Path, Row>, group: seq<File>, stream: string, from: nat)
    requires GroupOk(files, group, stream, from)
    ensures var paths := Paths(Chosen(o, group));
            && Distinct(paths)
            && forall p :: p in paths ==> LiveAt(files, p) && p.level == from && files[p].file.stream == stream
  {
    ChosenIsPrefix(o, group);
    forall i | 0 <= i < |Chosen(o, group)|
      ensures Chosen(o, group)[i] == group[i]
    {
    }
  }

  /** A store and a disk that agree on files and objects. */
  ghost predicate Agree(s: Store, d: Disk) {
    s.cat == d.cat && s.objects == Unordered(d.objects) && s.merge.NoMerge?
  }

  /** A merge nothing of which is kept drops its inputs. */
  lemma DropIsStep(cfg: Config, o: Options, d: Disk, s: Store, group: seq<File>, stream: string, from: nat, level: nat)
    requires Agree(s, d) && GroupOk(d.cat.files, group, stream, from)
    requires Merged(o, s.now, d, group, stream, level).Ok? && Chosen(o, group) != [] && Output(o, s.now, d, group, stream, level).None?
    ensures var t := Take(cfg, s, DropAll(Paths(Chosen(o, group))));
            && Agree(t, Merged(o, s.now, d, group, stream, level).value)
            && t.discarded == s.discarded + set r | r in Contents(d.objects, Chosen(o, group)) &&
                 o.policy.downsampleAfter != 0 && o.policy.minLevelAfter != "" && r.micros <= s.now - o.policy.downsampleAfter && r.severity < o.rank(o.policy.minLevelAfter)
  {
    DropsAsStep(cfg, o, d, s, group, stream, from, level);
    WhatDrops(o, s.now, Contents(d.objects, Chosen(o, group)));
  }

  lemma DropsAsStep(cfg: Config, o: Options, d: Disk, s: Store, group: seq<File>, stream: string, from: nat, level: nat)
    requires Agree(s, d) && GroupOk(d.cat.files, group, stream, from)
    requires Merged(o, s.now, d, group, stream, level).Ok? && Chosen(o, group) != [] && Output(o, s.now, d, group, stream, level).None?
    ensures var t := Take(cfg, s, DropAll(Paths(Chosen(o, group))));
            && Agree(t, Merged(o, s.now, d, group, stream, level).value)
            && t.discarded == s.discarded + set r | r in Contents(d.objects, Chosen(o, group)) && Drops(o, s.now, r)
  {
    MergeKeeps(o, s.now, d, group, stream, level);
    GatherIsContents(d.objects, Chosen(o, group));
    assert forall r :: r in multiset(Contents(d.objects, Chosen(o, group))) <==> r in Contents(d.objects, Chosen(o, group));
    ChosenTogether(o, d.cat.files, group, stream, from);
    DropStep(cfg, s, Paths(Chosen(o, group)));
  }

  lemma DropStep(cfg: Config, s: Store, inputs: seq<Path>)
    requires s.merge.NoMerge? && Distinct(inputs) && forall p :: p in inputs ==> LiveAt(s.cat.files, p)
    ensures var t := Take(cfg, s, DropAll(inputs));
            && t.cat == Retire(s.cat, inputs, s.now) && t.objects == s.objects && t.merge.NoMerge?
            && t.discarded == s.discarded + Dropped(s.objects, inputs, multiset{})
  {
  }

  /** The step that begins a merge, or a rewrite, of these inputs. */
  function Begin(inputs: seq<Path>, rows: seq<Rec>, level: nat): Step
    requires inputs != [] && rows != []
  {
    if inputs[0].level == level then BeginRewrite(inputs[0], multiset(rows), rows[0]) else BeginMerge(inputs, multiset(rows), rows[0])
  }

  lemma BeginStep(cfg: Config, s: Store, inputs: seq<Path>, rows: seq<Rec>, level: nat, name: Path)
    requires rows != [] && inputs != [] && MayMerge(s, inputs, multiset(rows), rows[0]) && name !in s.cat.files
    requires level == inputs[0].level + 1 || (|inputs| == 1 && level == inputs[0].level >= 1)
    requires name == MergedName(cfg, s.cat.files[inputs[0]].file.stream, level, rows[0]).(rewrite := if inputs[0].level == level then Some(s.cat.files[inputs[0]].id) else None)
    ensures Take(cfg, s, Begin(inputs, rows, level)) == s.(cat := Intend(s.cat, {name}, s.now), merge := Merging(inputs, multiset(rows), name, s.now, false))
  {
    if inputs[0].level == level {
      assert inputs == [inputs[0]];
    }
  }

  lemma PublishStep(cfg: Config, d: Disk, s: Store, f: File, rows: seq<Rec>, inputs: seq<Path>)
    requires s.cat == Intend(d.cat, {f.path}, s.now) && s.merge == Merging(inputs, multiset(rows), f.path, s.now, false) && s.objects == Unordered(d.objects)
    requires Describes(f, f.path, multiset(rows)) && Published(d, f, rows, inputs, s.now).Ok?
    ensures var t := Take(cfg, Take(cfg, s, WriteMerged), Publish(f));
            && Agree(t, Published(d, f, rows, inputs, s.now).value)
            && t.discarded == s.discarded + Dropped(s.objects[f.path := multiset(rows)], inputs, multiset(rows))
  {
    assert Unordered(d.objects[f.path := rows]) == Unordered(d.objects)[f.path := multiset(rows)];
    WriteStep(cfg, s, f);
  }

  lemma WriteStep(cfg: Config, s: Store, f: File)
    requires s.merge.Merging? && s.merge.name == f.path && !s.merge.written && s.now <= s.merge.declared + cfg.orphanGrace && Describes(f, f.path, s.merge.kept)
    requires Replace(s.cat, [f], s.merge.inputs, s.now).Ok?
    ensures var t := Take(cfg, Take(cfg, s, WriteMerged), Publish(f));
            && t.cat == Replace(s.cat, [f], s.merge.inputs, s.now).value && t.objects == s.objects[f.path := s.merge.kept] && t.merge.NoMerge?
            && t.discarded == s.discarded + Dropped(s.objects[f.path := s.merge.kept], s.merge.inputs, s.merge.kept)
  {
    var u := Take(cfg, s, WriteMerged);
    assert u == s.(objects := s.objects[f.path := s.merge.kept], merge := s.merge.(written := true));
    assert MayPublish(cfg, u, f);
  }

  lemma MayMergeChosen(o: Options, d: Disk, s: Store, group: seq<File>, stream: string, from: nat, level: nat)
    requires Agree(s, d) && GroupOk(d.cat.files, group, stream, from) && Chosen(o, group) != []
    requires RowsOf(o, s.now, d, group, level) != []
    ensures var inputs, rows := Paths(Chosen(o, group)), RowsOf(o, s.now, d, group, level);
            && MayMerge(s, inputs, multiset(rows), rows[0])
            && inputs[0].level == from && s.cat.files[inputs[0]].file.stream == stream
  {
    var inputs := Paths(Chosen(o, group));
    ChosenTogether(o, d.cat.files, group, stream, from);
    GatherIsContents(d.objects, Chosen(o, group));
    RowsAreKept(o, s.now, d, group, level);
    KeptWithin(o, s.now, Contents(d.objects, Chosen(o, group)));
    assert inputs[0] in inputs;
  }

  /** Any other merge is three steps of the store: it begins, writes and publishes. */
  lemma PublishIsSteps(cfg: Config, o: Options, d: Disk, s: Store, group: seq<File>, stream: string, from: nat, level: nat)
    requires Agree(s, d) && cfg.safe == o.safe && GroupOk(d.cat.files, group, stream, from)
    requires level == from + 1 || (level == from == 2 && |group| == 1)
    requires Merged(o, s.now, d, group, stream, level).Ok? && Chosen(o, group) != [] && Output(o, s.now, d, group, stream, level).Some?
    ensures RowsOf(o, s.now, d, group, level) != []
    ensures var begin := Begin(Paths(Chosen(o, group)), RowsOf(o, s.now, d, group, level), level);
            var f := Output(o, s.now, d, group, stream, level).value;
            var t := Take(cfg, Take(cfg, Take(cfg, s, begin), WriteMerged), Publish(f));
            && Agree(t, Merged(o, s.now, d, group, stream, level).value)
            && t.discarded == s.discarded + set r | r in Contents(d.objects, Chosen(o, group)) &&
                 o.policy.downsampleAfter != 0 && o.policy.minLevelAfter != "" && r.micros <= s.now - o.policy.downsampleAfter && r.severity < o.rank(o.policy.minLevelAfter)
  {
    PublishesAsSteps(cfg, o, d, s, group, stream, from, level);
    WhatDrops(o, s.now, Contents(d.objects, Chosen(o, group)));
  }

  lemma PublishesAsSteps(cfg: Config, o: Options, d: Disk, s: Store, group: seq<File>, stream: string, from: nat, level: nat)
    requires Agree(s, d) && cfg.safe == o.safe && GroupOk(d.cat.files, group, stream, from)
    requires level == from + 1 || (level == from == 2 && |group| == 1)
    requires Merged(o, s.now, d, group, stream, level).Ok? && Chosen(o, group) != [] && Output(o, s.now, d, group, stream, level).Some?
    ensures RowsOf(o, s.now, d, group, level) != []
    ensures var begin := Begin(Paths(Chosen(o, group)), RowsOf(o, s.now, d, group, level), level);
            var f := Output(o, s.now, d, group, stream, level).value;
            var t := Take(cfg, Take(cfg, Take(cfg, s, begin), WriteMerged), Publish(f));
            && Agree(t, Merged(o, s.now, d, group, stream, level).value)
            && t.discarded == s.discarded + set r | r in Contents(d.objects, Chosen(o, group)) && Drops(o, s.now, r)
  {
    var inputs, rows, f := Paths(Chosen(o, group)), RowsOf(o, s.now, d, group, level), Output(o, s.now, d, group, stream, level).value;
    MayMergeChosen(o, d, s, group, stream, from, level);
    OutputDescribes(o, s.now, d, group, stream, level);
    ChosenIsPrefix(o, group);
    BeginStep(cfg, s, inputs, rows, level, f.path);
    PublishStep(cfg, d, Take(cfg, s, Begin(inputs, rows, level)), f, rows, inputs);
    DroppedExactly(o, s.now, d, group, stream, level, f.path);
  }

  lemma WhatDrops(o: Options, now: int, read: seq<Rec>)
    ensures (set r | r in read && Drops(o, now, r)) ==
            set r | r in read && o.policy.downsampleAfter != 0 && o.policy.minLevelAfter != "" && r.micros <= now - o.policy.downsampleAfter && r.severity < o.rank(o.policy.minLevelAfter)
  {
  }

  /** What a merge leaves out is what downsampling drops, and nothing else. */
  lemma DroppedExactly(o: Options, now: int, d: Disk, group: seq<File>, stream: string, level: nat, name: Path)
    requires name !in Paths(Chosen(o, group)) && Readable(d.objects, Chosen(o, group))
    ensures var rows := multiset(RowsOf(o, now, d, group, level));
            Dropped(Unordered(d.objects)[name := rows], Paths(Chosen(o, group)), rows)
            == set r | r in Contents(d.objects, Chosen(o, group)) && Drops(o, now, r)
  {
    var read, rows := Contents(d.objects, Chosen(o, group)), RowsOf(o, now, d, group, level);
    GatherIsContents(d.objects, Chosen(o, group));
    StoreInvariant.GatherSame(Unordered(d.objects), Unordered(d.objects)[name := multiset(rows)], Paths(Chosen(o, group)));
    RowsAreKept(o, now, d, group, level);
    forall r ensures r in multiset(read) && r !in multiset(rows) <==> r in read && Drops(o, now, r) {
      KeptMembers(o, now, read, r);
      assert r in multiset(read) <==> r in read;
      assert r in multiset(rows) <==> r in multiset(Kept(o, now, read));
      assert r in multiset(Kept(o, now, read)) <==> r in Kept(o, now, read);
    }
  }

  lemma KeptWithin(o: Options, now: int, read: seq<Rec>)
    ensures multiset(Kept(o, now, read)) <= multiset(read)
  {
    forall r
      ensures multiset(Kept(o, now, read))[r] <= multiset(read)[r]
    {
      KeptExactly(o, now, read, r);
    }
  }
}
