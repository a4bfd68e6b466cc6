/**
 * The write-ahead log: one append-only file of frames at a time, sealed and replaced by rotation.
 *
 * The log's own fields are the program's; beside them a state carries what a disk and a
 * history would show: the bytes of the active file, how many of them an fsync has forced out,
 * how long the file has ever been, the records accepted and how many of them were promised.
 * Every I/O outcome is a parameter of the step that meets it.
 */
module Wal {
  import opened Prelude
  import opened Frames

  const BufferSize: nat := 262144

  /** How a write of the buffer went: whole, or n bytes of it and then whether those were cut off again. */
  datatype WriteOutcome = Whole | Short(n: nat, cut: bool)

  /** The outcomes a step may meet: the repeated cut, the write, the fsyncs, the new segment file. */
  datatype Io = Io(recut: bool, write: WriteOutcome, fsync: bool, dirsync: bool, create: bool)

  /** A Sync between the two halves that hold the log's lock. */
  datatype Syncing = Idle | InFlight(upTo: nat, listed: bool, covered: nat)

  /** A segment no longer written to: its bytes, the records it was given and those promised to a caller. */
  datatype Sealed<!R> = Sealed(bytes: seq<byte>, given: seq<R>, promised: seq<R>)

  datatype Log<!R> = Log(
    active: nat,
    closed: bool,
    buffer: seq<byte>,
    written: nat,
    synced: nat,
    torn: bool,
    pending: nat,
    listed: bool,
    syncing: Syncing,
    sealed: map<nat, Sealed<R>>,
    file: seq<byte>,
    durable: nat,
    named: bool,
    images: set<seq<byte>>,
    accepted: seq<R>,
    acked: nat,
    vouched: nat)

  function Opened<R>(active: nat, sealed: map<nat, Sealed<R>>): Log<R> {
    Log(active, false, Magic, 0, 0, false, 0, false, Idle, sealed, [], 0, false, {[]}, [], 0, 0)
  }

  // ---- the steps ----

  function Put<R>(s: Log<R>, content: seq<byte>): Log<R> {
    s.(file := content, images := s.images + {content})
  }

  function CutOff<R>(s: Log<R>): Log<R> {
    if s.written <= |s.file| then Put(s, s.file[..s.written]) else s
  }

  /** Writes the buffer to a file that ends on a frame boundary. */
  function WriteBuffer<R>(s: Log<R>, write: WriteOutcome): (Log<R>, bool) {
    match write
    case Whole => (Put(s, s.file + s.buffer).(written := s.written + |s.buffer|, buffer := []), true)
    case Short(n, cut) =>
      var u := Put(s, s.file + s.buffer[..if n <= |s.buffer| then n else |s.buffer|]);
      if n == 0 then (s, false)
      else if cut then (CutOff(u), false)
      else (u.(torn := true), false)
  }

  /** Moves the buffer into the file, after cutting off what an earlier failed write left there. */
  function WriteOut<R>(s: Log<R>, io: Io): (Log<R>, bool) {
    if s.torn && !io.recut then (s, false)
    else
      var t := if s.torn then CutOff(s).(torn := false) else s;
      if t.buffer == [] then (t, true) else WriteBuffer(t, io.write)
  }

  function Append<R>(codec: Codec<R>, s: Log<R>, r: R, io: Io): (Log<R>, bool) {
    if !Fits(codec, r) || s.closed then (s, false)
    else
      var full := s.buffer != [] && |s.buffer| + 8 + |codec.marshal(r)| > BufferSize;
      var (t, ok) := if full then WriteOut(s, io) else (s, true);
      if !ok then (t, false)
      else
        (t.(buffer := t.buffer + Frame(codec, r), pending := t.pending + 1, accepted := t.accepted + [r]), true)
  }

  predicate Dirty<R>(s: Log<R>) {
    s.buffer != [] || s.torn || s.written != s.synced || !s.listed
  }

  /** The first half of Sync: write, and note what the fsync will cover. Done means it returned already. */
  datatype Begun = Done(ok: bool) | Waiting

  function SyncBegin<R>(s: Log<R>, io: Io): (Log<R>, Begun) {
    if s.closed || !Dirty(s) then (s, Done(true))
    else
      var (t, ok) := WriteOut(s, io);
      if !ok then (t, Done(false))
      else (t.(syncing := InFlight(t.written, t.listed, t.pending), vouched := |t.accepted|), Waiting)
  }

  /** The second half: the fsync's outcome. Appends may have landed in between. */
  function SyncEnd<R>(s: Log<R>, io: Io): (Log<R>, bool)
    requires s.syncing.InFlight? && s.syncing.covered <= s.pending
  {
    var f := s.syncing;
    var t := s.(syncing := Idle);
    if !io.fsync || (!f.listed && !io.dirsync) then (t, false)
    else
      (t.(synced := f.upTo, listed := true, pending := t.pending - f.covered,
      durable := f.upTo, named := true, acked := t.vouched), true)
  }

  /** The fsync of a file everything has been written to, and what is recorded once it has succeeded. */
  function Settle<R>(s: Log<R>, io: Io): (Log<R>, bool) {
    if !io.fsync || (!s.listed && !io.dirsync) then (s, false)
    else
      (s.(synced := s.written, listed := true, pending := 0,
      durable := s.written, named := true, acked := |s.accepted|), true)
  }

  /** Sync for a caller that holds both locks, so nothing lands in between. */
  function SyncLocked<R>(s: Log<R>, io: Io): (Log<R>, bool) {
    if !Dirty(s) then (s, true)
    else
      var (t, ok) := WriteOut(s, io);
      if !ok then (t, false) else Settle(t, io)
  }

  function Rotate<R>(s: Log<R>, io: Io): (Log<R>, bool) {
    if s.closed then (s, false)
    else
      var (t, ok) := SyncLocked(s, io);
      if !ok || !io.create then (t, false)
      else (Opened(t.active + 1, t.sealed[t.active := Sealed(t.file, t.accepted, t.accepted)]), true)
  }

  function Close<R>(s: Log<R>, io: Io): (Log<R>, bool) {
    if s.closed then (s, true)
    else
      var (t, ok) := SyncLocked(s, io);
      (t.(closed := true), ok)
  }

  function Remove<R>(s: Log<R>, number: nat): (Log<R>, bool) {
    if number == s.active then (s, false) else (s.(sealed := s.sealed - {number}), true)
  }

  /** The number Open gives a fresh segment: one past the last on disk, all of which are below n. */
  function NextNumber<R>(sealed: map<nat, Sealed<R>>, n: nat): (next: nat) {
    if n == 0 then 1 else if n - 1 in sealed then n else NextNumber(sealed, n - 1)
  }

  /**
   * What a crash may leave of the active file: the first k bytes of something it has held, at
   * least as many as were forced out, and zeros where it had been extended and not yet written.
   */
  ghost predicate Survives<R>(s: Log<R>, k: nat, image: seq<byte>) {
    image in s.images && s.durable <= k <= |image|
  }

  /** The machine dies and the log is opened again. A file whose name was never forced out may be gone. */
  ghost function Crash<R>(s: Log<R>, k: nat, zeros: nat, image: seq<byte>, gone: bool): Log<R>
    requires Survives(s, k, image) && (gone ==> !s.named)
  {
    var left := if gone then s.sealed
                else s.sealed[s.active := Sealed(image[..k] + Zeros(zeros), s.accepted, s.accepted[..if s.acked <= |s.accepted| then s.acked else 0])];
    Opened(NextNumber(left, s.active + 1), left)
  }

  // ---- the invariant ----

  ghost predicate Covers<R>(codec: Codec<R>, rs: seq<R>, n: nat, bytes: nat)
    requires AllFit(codec, rs)
  {
    n <= |rs| && |Segment(codec, rs[..n])| <= bytes
  }

  /** How the file and the buffer share out all the bytes the segment has been given. */
  ghost predicate Laid<R>(all: seq<byte>, s: Log<R>) {
    && s.written <= |s.file|
    && s.file in s.images
    && (forall image :: image in s.images ==> IsPrefix(image, all))
    && s.buffer == all[s.written..]
    && (if s.torn then s.buffer != [] else |s.file| == s.written)
  }

  /** What has been forced to disk and promised. */
  ghost predicate Promised<R>(codec: Codec<R>, s: Log<R>)
    requires AllFit(codec, s.accepted)
  {
    && s.durable == s.synced <= s.written
    && s.listed == s.named
    && s.acked <= |s.accepted|
    && (s.acked > 0 ==> s.named && Covers(codec, s.accepted, s.acked, s.durable))
    && s.pending == |s.accepted| - s.acked
    && (!Dirty(s) ==> s.acked == |s.accepted|)
  }

  ghost predicate FlightOk<R>(codec: Codec<R>, s: Log<R>)
    requires AllFit(codec, s.accepted)
  {
    s.syncing.InFlight? ==>
      && !s.closed
      && s.synced <= s.syncing.upTo <= s.written
      && s.syncing.listed == s.listed
      && s.acked + s.syncing.covered == s.vouched <= |s.accepted|
      && |Segment(codec, s.accepted[..s.vouched])| == s.syncing.upTo
  }

  /** A segment on disk yields, in order, records it was given, and all those that were promised. */
  ghost predicate Kept<R>(codec: Codec<R>, z: Sealed<R>) {
    var got := ReadSegment(codec, z.bytes);
    IsPrefix(z.promised, got.records) && IsPrefix(got.records, z.given) && (got.ending.Clean? || got.records == [])
  }

  ghost predicate SealedOk<R>(codec: Codec<R>, sealed: map<nat, Sealed<R>>, active: nat) {
    forall n :: n in sealed ==> n < active && Kept(codec, sealed[n])
  }

  ghost predicate Inv<R>(codec: Codec<R>, s: Log<R>) {
    && AllFit(codec, s.accepted)
    && Laid(Segment(codec, s.accepted), s)
    && Promised(codec, s)
    && FlightOk(codec, s)
    && SealedOk(codec, s.sealed, s.active)
  }

  lemma OpenedInv<R>(codec: Codec<R>, active: nat, sealed: map<nat, Sealed<R>>)
    requires SealedOk(codec, sealed, active)
    ensures Inv(codec, Opened<R>(active, sealed))
  {
  }

  // ---- every step keeps it ----

  lemma CutOffLaid<R>(all: seq<byte>, s: Log<R>)
    requires Laid(all, s)
    ensures Laid(all, CutOff(s).(torn := false)) && |CutOff(s).file| == s.written
  {
  }

  lemma PutLaid<R>(all: seq<byte>, s: Log<R>, n: nat)
    requires Laid(all, s) && !s.torn && n <= |s.buffer| && s.buffer != []
    ensures Laid(all, Put(s, s.file + s.buffer[..n]).(torn := true))
    ensures Laid(all, Put(s, s.file + s.buffer).(written := s.written + |s.buffer|, buffer := []))
  {
  }

  ghost predicate Moved<R>(all: seq<byte>, s: Log<R>, t: Log<R>, ok: bool) {
    && Laid(all, t)
    && t == s.(torn := t.torn, file := t.file, images := t.images, written := t.written, buffer := t.buffer)
    && (ok ==> t.buffer == [] && !t.torn && t.written == |all|)
    && (!ok ==> t.written == s.written && t.buffer == s.buffer)
    && s.written <= t.written
  }

  lemma WriteBufferLaid<R>(all: seq<byte>, s: Log<R>, write: WriteOutcome)
    requires Laid(all, s) && !s.torn && s.buffer != []
    ensures var (t, ok) := WriteBuffer(s, write); Moved(all, s, t, ok)
  {
    match write
    case Whole =>
      PutLaid(all, s, |s.buffer|);
    case Short(n, cut) =>
      var m := if n <= |s.buffer| then n else |s.buffer|;
      PutLaid(all, s, m);
      var u := Put(s, s.file + s.buffer[..m]);
      CutOffLaid(all, u.(torn := true));
      assert CutOff(u) == CutOff(u.(torn := true)).(torn := false);
  }

  /** Writing out moves bytes from the buffer to the file and touches nothing else. */
  lemma WriteOutLaid<R>(all: seq<byte>, s: Log<R>, io: Io)
    requires Laid(all, s)
    ensures var (t, ok) := WriteOut(s, io); Moved(all, s, t, ok)
  {
    CutOffLaid(all, s);
    if !s.torn || io.recut {
      var t := if s.torn then CutOff(s).(torn := false) else s;
      assert Laid(all, t);
      if t.buffer != [] {
        WriteBufferLaid(all, t, io.write);
      }
    }
  }

  lemma WriteOutInv<R>(codec: Codec<R>, s: Log<R>, io: Io)
    requires Inv(codec, s)
    ensures var (t, ok) := WriteOut(s, io); Inv(codec, t) && Moved(Segment(codec, s.accepted), s, t, ok)
  {
    WriteOutLaid(Segment(codec, s.accepted), s, io);
  }

  lemma {:induction false} SegmentGrows<R>(codec: Codec<R>, rs: seq<R>, n: nat)
    requires AllFit(codec, rs) && n <= |rs|
    ensures |Segment(codec, rs[..n])| + 8 * (|rs| - n) <= |Segment(codec, rs)|
    decreases |rs|
  {
    if n < |rs| {
      assert rs[..|rs| - 1][..n] == rs[..n];
      SegmentGrows(codec, rs[..|rs| - 1], n);
    } else {
      assert rs[..n] == rs;
    }
  }

  lemma AppendInv<R>(codec: Codec<R>, s: Log<R>, r: R, io: Io)
    requires Inv(codec, s)
    ensures var (t, ok) := Append(codec, s, r, io);
            && Inv(codec, t)
            && t.accepted == (if ok then s.accepted + [r] else s.accepted)
            && t.acked == s.acked && t.durable == s.durable && t.syncing == s.syncing && t.vouched == s.vouched && t.closed == s.closed
  {
    var full := s.buffer != [] && |s.buffer| + 8 + |codec.marshal(r)| > BufferSize;
    var (t, ok) := if full then WriteOut(s, io) else (s, true);
    if full {
      WriteOutInv(codec, s, io);
    }
    if Fits(codec, r) && !s.closed && ok {
      AddFrameInv(codec, t, r);
    }
  }

  lemma AddFrameInv<R>(codec: Codec<R>, s: Log<R>, r: R)
    requires Inv(codec, s) && Fits(codec, r)
    ensures Inv(codec, s.(buffer := s.buffer + Frame(codec, r), pending := s.pending + 1, accepted := s.accepted + [r]))
  {
    var t := s.(buffer := s.buffer + Frame(codec, r), pending := s.pending + 1, accepted := s.accepted + [r]);
    assert t.accepted[..|s.accepted|] == s.accepted;
    Assoc(Magic, Encode(codec, s.accepted), Frame(codec, r));
    assert Segment(codec, t.accepted) == Segment(codec, s.accepted) + Frame(codec, r);
    assert t.accepted[..s.acked] == s.accepted[..s.acked];
    if s.syncing.InFlight? {
      assert t.accepted[..s.vouched] == s.accepted[..s.vouched];
    }
  }

  lemma SyncBeginInv<R>(codec: Codec<R>, s: Log<R>, io: Io)
    requires Inv(codec, s) && s.syncing.Idle?
    ensures var (t, begun) := SyncBegin(s, io);
            && Inv(codec, t) && t.accepted == s.accepted && t.acked == s.acked && t.durable == s.durable
            && (begun.Waiting? <==> t.syncing.InFlight?)
            && (begun.Waiting? ==> t.vouched == |s.accepted|)
  {
    if !s.closed && Dirty(s) {
      WriteOutInv(codec, s, io);
      assert s.accepted[..|s.accepted|] == s.accepted;
    }
  }

  lemma SyncEndInv<R>(codec: Codec<R>, s: Log<R>, io: Io)
    requires Inv(codec, s) && s.syncing.InFlight?
    ensures var (t, ok) := SyncEnd(s, io);
            && Inv(codec, t) && t.accepted == s.accepted && s.durable <= t.durable && t.syncing.Idle?
            && t.acked == (if ok then s.vouched else s.acked)
  {
    var (t, ok) := SyncEnd(s, io);
    SegmentGrows(codec, s.accepted, s.vouched);
  }

  lemma SyncLockedInv<R>(codec: Codec<R>, s: Log<R>, io: Io)
    requires Inv(codec, s) && s.syncing.Idle?
    ensures var (t, ok) := SyncLocked(s, io);
            && Inv(codec, t) && t.accepted == s.accepted && s.acked <= t.acked
            && t.syncing.Idle? && t.active == s.active && t.sealed == s.sealed && t.closed == s.closed
            && (ok ==> !Dirty(t) && t.file == Segment(codec, s.accepted))
  {
    if Dirty(s) {
      WriteOutInv(codec, s, io);
    }
    assert s.accepted[..|s.accepted|] == s.accepted;
  }

  /** A segment sealed by rotation replays exactly what it was given, and all of that was promised. */
  lemma WholeKept<R(!new)>(codec: Codec<R>, rs: seq<R>)
    requires Sound(codec) && AllFit(codec, rs)
    ensures Kept(codec, Sealed(Segment(codec, rs), rs, rs)) && ReadSegment(codec, Segment(codec, rs)) == Replayed(rs, Clean)
  {
    ReadSegmentThen(codec, rs, []);
    assert Segment(codec, rs) + [] == Segment(codec, rs);
    assert rs + [] == rs;
  }

  lemma RotateInv<R(!new)>(codec: Codec<R>, s: Log<R>, io: Io)
    requires Sound(codec) && Inv(codec, s) && s.syncing.Idle?
    ensures var (t, ok) := Rotate(s, io);
            && Inv(codec, t)
            && (ok ==> t == Opened(s.active + 1, s.sealed[s.active := Sealed(Segment(codec, s.accepted), s.accepted, s.accepted)]))
            && (!ok ==> t.accepted == s.accepted && t.sealed == s.sealed && t.active == s.active && s.acked <= t.acked)
  {
    if !s.closed {
      SyncLockedInv(codec, s, io);
      var (t, ok) := SyncLocked(s, io);
      if ok && io.create {
        WholeKept(codec, s.accepted);
        OpenedInv(codec, t.active + 1, t.sealed[t.active := Sealed(t.file, t.accepted, t.accepted)]);
      }
    }
  }

  lemma CloseInv<R>(codec: Codec<R>, s: Log<R>, io: Io)
    requires Inv(codec, s) && s.syncing.Idle?
    ensures var (t, ok) := Close(s, io); Inv(codec, t) && t.accepted == s.accepted && s.acked <= t.acked
  {
    if !s.closed {
      SyncLockedInv(codec, s, io);
    }
  }

  lemma RemoveInv<R>(codec: Codec<R>, s: Log<R>, number: nat)
    requires Inv(codec, s)
    ensures Inv(codec, Remove(s, number).0)
  {
  }

  // ---- crashes ----

  lemma NextNumberPast<R>(sealed: map<nat, Sealed<R>>, n: nat)
    requires forall m :: m in sealed ==> m < n
    ensures forall m :: m in sealed ==> m < NextNumber(sealed, n)
  {
    if n > 0 && n - 1 !in sealed {
      assert forall m :: m in sealed ==> m < n - 1;
      NextNumberPast(sealed, n - 1);
    }
  }

  /**
   * Whatever survives a crash of the active segment replays a prefix of the records it accepted,
   * and that prefix holds every record a successful sync promised.
   */
  lemma SurvivorsKept<R(!new)>(codec: Codec<R>, s: Log<R>, k: nat, zeros: nat, image: seq<byte>)
    requires Sound(codec) && Inv(codec, s) && AllRejectTorn(codec, s.accepted) && Survives(s, k, image)
    ensures Kept(codec, Sealed(image[..k] + Zeros(zeros), s.accepted, s.accepted[..s.acked]))
  {
    var all := Segment(codec, s.accepted);
    assert image[..k] == all[..k];
    ReplayOfCutSegment(codec, s.accepted, k, zeros);
    var m := Complete(codec, s.accepted, k);
    if s.acked > 0 {
      CompleteCovers(codec, s.accepted, k, s.acked);
      assert s.accepted[..m][..s.acked] == s.accepted[..s.acked];
    } else {
      assert s.accepted[..0] == [];
    }
  }

  lemma SealedAdd<R>(codec: Codec<R>, sealed: map<nat, Sealed<R>>, active: nat, z: Sealed<R>)
    requires SealedOk(codec, sealed, active) && Kept(codec, z)
    ensures SealedOk(codec, sealed[active := z], active + 1)
  {
  }

  lemma ReopenedInv<R>(codec: Codec<R>, sealed: map<nat, Sealed<R>>, n: nat)
    requires SealedOk(codec, sealed, n)
    ensures Inv(codec, Opened<R>(NextNumber(sealed, n), sealed))
  {
    NextNumberPast(sealed, n);
    OpenedInv(codec, NextNumber(sealed, n), sealed);
  }

  lemma CrashInv<R(!new)>(codec: Codec<R>, s: Log<R>, k: nat, zeros: nat, image: seq<byte>, gone: bool)
    requires Sound(codec) && Inv(codec, s) && AllRejectTorn(codec, s.accepted) && Survives(s, k, image) && (gone ==> !s.named)
    ensures Inv(codec, Crash(s, k, zeros, image, gone))
    ensures gone ==> s.acked == 0
  {
    if gone {
      ReopenedInv(codec, s.sealed, s.active + 1);
    } else {
      var z := Sealed(image[..k] + Zeros(zeros), s.accepted, s.accepted[..s.acked]);
      SurvivorsKept(codec, s, k, zeros, image);
      SealedAdd(codec, s.sealed, s.active, z);
      ReopenedInv(codec, s.sealed[s.active := z], s.active + 1);
    }
  }

  // ---- runs ----

  datatype Step<!R> =
    | AppendStep(r: R, io: Io)
    | SyncBeginStep(io: Io)
    | SyncEndStep(io: Io)
    | RotateStep(io: Io)
    | CloseStep(io: Io)
    | RemoveStep(number: nat)
    | CrashStep(k: nat, zeros: nat, image: seq<byte>, gone: bool)

  /** One step. A step the log's locks hold back, or a crash no disk could show, changes nothing. */
  ghost function Take<R>(codec: Codec<R>, s: Log<R>, step: Step<R>): Log<R> {
    match step
    case AppendStep(r, io) => Append(codec, s, r, io).0
    case SyncBeginStep(io) => if s.syncing.Idle? then SyncBegin(s, io).0 else s
    case SyncEndStep(io) => if s.syncing.InFlight? && s.syncing.covered <= s.pending then SyncEnd(s, io).0 else s
    case RotateStep(io) => if s.syncing.Idle? then Rotate(s, io).0 else s
    case CloseStep(io) => if s.syncing.Idle? then Close(s, io).0 else s
    case RemoveStep(number) => Remove(s, number).0
    case CrashStep(k, zeros, image, gone) =>
      if Survives(s, k, image) && (gone ==> !s.named) then Crash(s, k, zeros, image, gone) else s
  }

  ghost function Run<R>(codec: Codec<R>, steps: seq<Step<R>>): Log<R> {
    if steps == [] then Opened(1, map[]) else Take(codec, Run(codec, steps[..|steps| - 1]), steps[|steps| - 1])
  }

  /** What the theorems ask of an encoding and a checksum: of each record appended, that no torn frame passes for it. */
  ghost predicate Trusted<R(!new)>(codec: Codec<R>, steps: seq<Step<R>>) {
    Sound(codec) && forall i :: 0 <= i < |steps| ==> Appendable(codec, steps[i])
  }

  ghost predicate Appendable<R(!new)>(codec: Codec<R>, step: Step<R>) {
    step.AppendStep? && Fits(codec, step.r) ==> RejectsTorn(codec, step.r)
  }

  /** The records of the active segment come from appends. */
  lemma TakeAccepts<R(!new)>(codec: Codec<R>, s: Log<R>, step: Step<R>)
    requires Inv(codec, s) && AllRejectTorn(codec, s.accepted) && Appendable(codec, step) && AllFit(codec, Take(codec, s, step).accepted)
    ensures AllRejectTorn(codec, Take(codec, s, step).accepted)
  {
    if step.AppendStep? {
      AppendAccepts(codec, s, step.r, step.io);
    } else {
      OthersAccept(codec, s, step);
    }
  }

  lemma AppendAccepts<R>(codec: Codec<R>, s: Log<R>, r: R, io: Io)
    ensures var t := Append(codec, s, r, io).0; t.accepted == s.accepted || (Fits(codec, r) && t.accepted == s.accepted + [r])
  {
    WriteOutAccepts(s, io);
  }

  lemma WriteOutAccepts<R>(s: Log<R>, io: Io)
    ensures WriteOut(s, io).0.accepted == s.accepted
  {
    WriteBufferAccepts(s, io.write);
    WriteBufferAccepts(CutOff(s).(torn := false), io.write);
  }

  lemma WriteBufferAccepts<R>(s: Log<R>, write: WriteOutcome)
    ensures WriteBuffer(s, write).0.accepted == s.accepted
  {
  }

  lemma OthersAccept<R>(codec: Codec<R>, s: Log<R>, step: Step<R>)
    requires !step.AppendStep?
    ensures var t := Take(codec, s, step); t.accepted == s.accepted || t.accepted == []
  {
    match step
    case SyncBeginStep(io) => WriteOutAccepts(s, io);
    case RotateStep(io) => WriteOutAccepts(s, io);
    case CloseStep(io) => WriteOutAccepts(s, io);
    case _ =>
  }

  lemma TakeInv<R(!new)>(codec: Codec<R>, s: Log<R>, step: Step<R>)
    requires Sound(codec) && Inv(codec, s) && AllRejectTorn(codec, s.accepted)
    ensures Inv(codec, Take(codec, s, step))
  {
    match step
    case AppendStep(r, io) => AppendInv(codec, s, r, io);
    case SyncBeginStep(io) => if s.syncing.Idle? { SyncBeginInv(codec, s, io); }
    case SyncEndStep(io) => if s.syncing.InFlight? { SyncEndInv(codec, s, io); }
    case RotateStep(io) => if s.syncing.Idle? { RotateInv(codec, s, io); }
    case CloseStep(io) => if s.syncing.Idle? { CloseInv(codec, s, io); }
    case RemoveStep(number) => RemoveInv(codec, s, number);
    case CrashStep(k, zeros, image, gone) =>
      if Survives(s, k, image) && (gone ==> !s.named) {
        CrashInv(codec, s, k, zeros, image, gone);
      }
  }

  lemma {:induction false} RunInv<R(!new)>(codec: Codec<R>, steps: seq<Step<R>>)
    requires Trusted(codec, steps)
    ensures Inv(codec, Run(codec, steps)) && AllRejectTorn(codec, Run(codec, steps).accepted)
    decreases |steps|
  {
    if steps == [] {
      OpenedInv<R>(codec, 1, map[]);
    } else {
      var before := Run(codec, steps[..|steps| - 1]);
      RunInv(codec, steps[..|steps| - 1]);
      TakeInv(codec, before, steps[|steps| - 1]);
      TakeAccepts(codec, before, steps[|steps| - 1]);
    }
  }

  /**
   * The crash theorem. After any run of appends, syncs, rotations and crashes, with any of them
   * failing anywhere, every sealed segment still on disk -- and whatever a crash now would leave
   * of the active one -- replays a prefix of the records it accepted that holds every record
   * promised, and reports no damage beyond a header that never reached the disk.
   */
  lemma CrashTheorem<R(!new)>(codec: Codec<R>, steps: seq<Step<R>>)
    requires Trusted(codec, steps)
    ensures var s := Run(codec, steps);
            && (forall n :: n in s.sealed ==> Kept(codec, s.sealed[n]))
            && s.acked <= |s.accepted|
            && forall k: nat, zeros: nat, image :: Survives(s, k, image) ==>
                 Kept(codec, Sealed(image[..k] + Zeros(zeros), s.accepted, s.accepted[..s.acked]))
  {
    RunInv(codec, steps);
    var s := Run(codec, steps);
    forall k: nat, zeros: nat, image | Survives(s, k, image)
      ensures Kept(codec, Sealed(image[..k] + Zeros(zeros), s.accepted, s.accepted[..s.acked]))
    {
      SurvivorsKept(codec, s, k, zeros, image);
    }
  }

  // ---- what a sync promises ----

  /** Appends, each with whatever I/O it meets, in order. */
  function AppendAll<R>(codec: Codec<R>, s: Log<R>, appends: seq<(R, Io)>): Log<R> {
    if appends == [] then s
    else
      var n := |appends| - 1;
      Append(codec, AppendAll(codec, s, appends[..n]), appends[n].0, appends[n].1).0
  }

  lemma {:induction false} AppendAllInv<R>(codec: Codec<R>, s: Log<R>, appends: seq<(R, Io)>)
    requires Inv(codec, s)
    ensures var t := AppendAll(codec, s, appends);
            Inv(codec, t) && IsPrefix(s.accepted, t.accepted) && t.syncing == s.syncing && t.vouched == s.vouched && t.acked == s.acked
    decreases |appends|
  {
    if appends != [] {
      var n := |appends| - 1;
      AppendAllInv(codec, s, appends[..n]);
      AppendInv(codec, AppendAll(codec, s, appends[..n]), appends[n].0, appends[n].1);
    }
  }

  /**
   * A Sync that succeeds promises every record accepted before it was called, however many
   * appends land while its fsync runs -- and none of those, so Pending counts exactly them.
   */
  lemma SyncPromises<R>(codec: Codec<R>, s: Log<R>, begin: Io, appends: seq<(R, Io)>, end: Io)
    requires Inv(codec, s) && s.syncing.Idle? && SyncBegin(s, begin).1.Waiting?
    ensures var during := AppendAll(codec, SyncBegin(s, begin).0, appends);
            && during.syncing.InFlight? && during.syncing.covered <= during.pending
            && var (t, ok) := SyncEnd(during, end);
            && IsPrefix(s.accepted, t.accepted)
            && (ok ==> t.acked == |s.accepted| && t.pending == |t.accepted| - |s.accepted|)
            && (!ok ==> t.acked == s.acked && t.pending == |t.accepted| - s.acked)
  {
    SyncBeginInv(codec, s, begin);
    AppendAllInv(codec, SyncBegin(s, begin).0, appends);
    SyncEndInv(codec, AppendAll(codec, SyncBegin(s, begin).0, appends), end);
  }

  /** Nothing is dirty exactly when everything accepted has been promised (or there is nothing). */
  lemma CleanMeansPromised<R>(codec: Codec<R>, s: Log<R>)
    requires Inv(codec, s)
    ensures s.acked == |s.accepted| <==> !Dirty(s) || s.accepted == []
  {
    if s.acked == |s.accepted| && s.accepted != [] {
      assert s.accepted[..s.acked] == s.accepted;
    }
  }

  /**
   * A Sync that returns success at once vouches for every accepted record exactly when the log
   * was not closed over unsynced records. A closed log answers success without looking, and
   * Close marks the log closed even when its own sync failed.
   */
  lemma ImmediateSync<R>(codec: Codec<R>, s: Log<R>, io: Io)
    requires Inv(codec, s) && s.syncing.Idle? && SyncBegin(s, io).1 == Done(true)
    ensures SyncBegin(s, io).0 == s
    ensures s.acked == |s.accepted| <==> !(s.closed && Dirty(s) && s.accepted != [])
  {
    CleanMeansPromised(codec, s);
  }

  /** One record, a close whose fsync fails, and a sync that then reports success. */
  lemma SyncAfterFailedClose<R>(codec: Codec<R>, r: R, good: Io, bad: Io)
    requires Fits(codec, r) && |codec.marshal(r)| < 1000 && !bad.fsync
    ensures var s := Close(Append(codec, Opened(1, map[]), r, good).0, bad).0;
            SyncBegin(s, good) == (s, Done(true)) && s.accepted == [r] && s.acked == 0
  {
  }

  // ---- the oldest record a replay could produce ----

  function Holding<R>(codec: Codec<R>, z: Sealed<R>): seq<R> {
    ReadSegment(codec, z.bytes).records
  }

  /** The first record of the oldest segment numbered n or later that holds one. */
  function Oldest<R>(codec: Codec<R>, sealed: map<nat, Sealed<R>>, n: nat, active: nat): Option<R>
    decreases active - n
  {
    if n >= active then None
    else if n in sealed && Holding(codec, sealed[n]) != [] then Some(Holding(codec, sealed[n])[0])
    else Oldest(codec, sealed, n + 1, active)
  }

  ghost predicate Increasing<R>(key: R -> nat, rs: seq<R>) {
    forall i, j :: 0 <= i < j < |rs| ==> key(rs[i]) < key(rs[j])
  }

  /** Keys only grow, within a segment and from one segment to the next. */
  ghost predicate Ordered<R>(codec: Codec<R>, key: R -> nat, sealed: map<nat, Sealed<R>>) {
    && (forall n :: n in sealed ==> Increasing(key, Holding(codec, sealed[n])))
    && (forall n, m, i, j | n in sealed && m in sealed && n < m
          && 0 <= i < |Holding(codec, sealed[n])| && 0 <= j < |Holding(codec, sealed[m])| ::
          key(Holding(codec, sealed[n])[i]) < key(Holding(codec, sealed[m])[j]))
  }

  /** The oldest record is the first of the first segment that holds any. */
  lemma {:induction false} OldestIsFirst<R>(codec: Codec<R>, sealed: map<nat, Sealed<R>>, n: nat, active: nat, m: nat) returns (k: nat)
    requires n <= m < active && m in sealed && Holding(codec, sealed[m]) != []
    ensures n <= k <= m && k in sealed && Holding(codec, sealed[k]) != [] && Oldest(codec, sealed, n, active) == Some(Holding(codec, sealed[k])[0])
    decreases active - n
  {
    if n in sealed && Holding(codec, sealed[n]) != [] {
      k := n;
    } else {
      k := OldestIsFirst(codec, sealed, n + 1, active, m);
    }
  }

  /** No record in any sealed segment has a key below the floor. */
  lemma OldestIsLeast<R>(codec: Codec<R>, key: R -> nat, sealed: map<nat, Sealed<R>>, n: nat, active: nat, m: nat, j: nat)
    requires Ordered(codec, key, sealed) && n <= m < active
    requires m in sealed && j < |Holding(codec, sealed[m])|
    ensures Oldest(codec, sealed, n, active).Some?
    ensures key(Oldest(codec, sealed, n, active).value) <= key(Holding(codec, sealed[m])[j])
  {
    var k := OldestIsFirst(codec, sealed, n, active, m);
    FirstIsLeast(codec, key, sealed, k, m, j);
  }

  lemma FirstIsLeast<R>(codec: Codec<R>, key: R -> nat, sealed: map<nat, Sealed<R>>, n: nat, m: nat, j: nat)
    requires Ordered(codec, key, sealed) && n <= m && n in sealed && m in sealed
    requires Holding(codec, sealed[n]) != [] && j < |Holding(codec, sealed[m])|
    ensures key(Holding(codec, sealed[n])[0]) <= key(Holding(codec, sealed[m])[j])
  {
    var first := Holding(codec, sealed[n]);
    assert Increasing(key, first);
  }

  /** And when there is none, no sealed segment holds a record. */
  lemma {:induction false} NoOldestNoRecords<R>(codec: Codec<R>, sealed: map<nat, Sealed<R>>, n: nat, active: nat, m: nat)
    requires Oldest(codec, sealed, n, active).None? && n <= m < active && m in sealed
    ensures Holding(codec, sealed[m]) == []
    decreases active - n
  {
    if m != n {
      NoOldestNoRecords(codec, sealed, n + 1, active, m);
    }
  }
}

/** The log itself: the program's fields, and each operation proved to be the step of the same name. */
module WalLog {
  import opened Prelude
  import opened Frames
  import opened Wal

  class SegmentLog<R> {
    const codec: Codec<R>
    var active: nat
    var closed: bool
    var buffer: seq<byte>
    var written: nat
    var synced: nat
    var torn: bool
    var pending: nat
    var listed: bool
    var syncing: Syncing

    // The disk and the history, which the program has no fields for.
    var file: seq<byte>
    var segments: map<nat, Sealed<R>>
    var durable: nat
    var named: bool
    var images: set<seq<byte>>
    var accepted: seq<R>
    var acked: nat
    var vouched: nat

    function View(): Log<R>
      reads this
    {
      Log(active, closed, buffer, written, synced, torn, pending, listed, syncing, segments, file, durable, named, images, accepted, acked, vouched)
    }

    /** What the methods rely on; all else they keep is Inv of the view, which every step keeps. */
    ghost predicate Valid()
      reads this
    {
      written <= |file|
    }

    constructor (codec: Codec<R>)
      ensures Valid() && this.codec == codec && View() == Opened(1, map[]) && Inv(codec, View())
    {
      this.codec := codec;
      active, closed, buffer, written, synced := 1, false, Magic, 0, 0;
      torn, pending, listed, syncing, file, segments := false, 0, false, Idle, [], map[];
      durable, named, images, accepted, acked, vouched := 0, false, {[]}, [], 0, 0;
    }

    method Truncate()
      requires written <= |file|
      modifies this`file, this`images
      ensures View() == CutOff(old(View()))
    {
      file := file[..written];
      images := images + {file};
    }

    /** Moves the buffer into the segment file. */
    method WriteLocked(io: Io) returns (ok: bool)
      requires Valid()
      modifies this`file, this`images, this`torn, this`written, this`buffer
      ensures Valid()
      ensures (View(), ok) == WriteOut(old(View()), io)
    {
      if torn {
        if !io.recut {
          return false;
        }
        Truncate();
        torn := false;
      }
      if buffer == [] {
        return true;
      }
      ok := WriteBuffered(io.write);
    }

    method WriteBuffered(write: WriteOutcome) returns (ok: bool)
      requires Valid()
      modifies this`file, this`images, this`torn, this`written, this`buffer
      ensures Valid()
      ensures (View(), ok) == WriteBuffer(old(View()), write)
    {
      match write
      case Whole =>
        file := file + buffer;
        images := images + {file};
        written := written + |buffer|;
        buffer := [];
        return true;
      case Short(n, cut) =>
        if n > 0 {
          file := file + buffer[..if n <= |buffer| then n else |buffer|];
          images := images + {file};
          if cut {
            Truncate();
          } else {
            torn := true;
          }
        }
        return false;
    }

    /** Adds one record, or refuses it and leaves nothing of it behind. */
    method Append(r: R, io: Io) returns (ok: bool)
      requires Valid()
      modifies this
      ensures Valid()
      ensures (View(), ok) == Wal.Append(codec, old(View()), r, io)
    {
      var payload := codec.marshal(r);
      if |payload| > MaxFrame {
        return false;
      }
      if closed {
        return false;
      }
      if buffer != [] && |buffer| + 8 + |payload| > BufferSize {
        ok := WriteLocked(io);
        if !ok {
          return false;
        }
      }
      Add(r);
      return true;
    }

    method Add(r: R)
      requires Fits(codec, r)
      modifies this`buffer, this`pending, this`accepted
      ensures View() == old(View()).(buffer := old(buffer) + Frame(codec, r), pending := old(pending) + 1, accepted := old(accepted) + [r])
    {
      buffer := buffer + Frame(codec, r);
      pending := pending + 1;
      accepted := accepted + [r];
    }

    method IsDirty() returns (dirty: bool)
      ensures dirty == Dirty(View())
    {
      return buffer != [] || torn || written != synced || !listed;
    }

    /** Sync up to the fsync: what runs under the log's lock before it is let go. */
    method BeginSync(io: Io) returns (begun: Begun)
      requires Valid() && syncing.Idle?
      modifies this
      ensures Valid()
      ensures (View(), begun) == SyncBegin(old(View()), io)
    {
      var dirty := IsDirty();
      if closed || !dirty {
        return Done(true);
      }
      var ok := WriteLocked(io);
      if !ok {
        return Done(false);
      }
      syncing := InFlight(written, listed, pending);
      vouched := |accepted|;
      return Waiting;
    }

    /** The fsync, and what is recorded once it has succeeded. */
    method EndSync(io: Io) returns (ok: bool)
      requires Valid() && syncing.InFlight? && syncing.covered <= pending
      modifies this
      ensures Valid()
      ensures (View(), ok) == SyncEnd(old(View()), io)
    {
      var flight := syncing;
      syncing := Idle;
      if !io.fsync {
        return false;
      }
      if !flight.listed && !io.dirsync {
        return false;
      }
      Mark(flight.upTo, pending - flight.covered, vouched);
      return true;
    }

    /** What an fsync that succeeded leaves on record. */
    method Mark(upTo: nat, left: nat, promised: nat)
      modifies this`synced, this`listed, this`pending, this`durable, this`named, this`acked
      ensures View() == old(View()).(synced := upTo, listed := true, pending := left, durable := upTo, named := true, acked := promised)
    {
      synced, listed, pending := upTo, true, left;
      durable, named, acked := upTo, true, promised;
    }

    method SettleWritten(io: Io) returns (ok: bool)
      requires Valid()
      modifies this`synced, this`listed, this`pending, this`durable, this`named, this`acked
      ensures Valid()
      ensures (View(), ok) == Settle(old(View()), io)
    {
      if !io.fsync || (!listed && !io.dirsync) {
        return false;
      }
      Mark(written, 0, |accepted|);
      return true;
    }

    method SyncHeld(io: Io) returns (ok: bool)
      requires Valid() && syncing.Idle?
      modifies this`file, this`images, this`torn, this`written, this`buffer
      modifies this`synced, this`listed, this`pending, this`durable, this`named, this`acked
      ensures Valid()
      ensures (View(), ok) == SyncLocked(old(View()), io)
    {
      var dirty := IsDirty();
      if !dirty {
        return true;
      }
      ok := WriteLocked(io);
      if ok {
        ok := SettleWritten(io);
      }
    }

    /** Leaves the file behind as a sealed segment and begins an empty one. */
    method StartSegment()
      modifies this
      ensures segments == old(segments)[old(active) := Sealed(old(file), old(accepted), old(accepted))]
      ensures View() == Opened(old(active) + 1, segments)
    {
      segments := segments[active := Sealed(file, accepted, accepted)];
      active := active + 1;
      NewFile();
      NewBuffer();
    }

    /** Nothing written yet, and the header waiting to be. */
    method NewBuffer()
      modifies this`closed, this`syncing, this`buffer, this`written, this`synced, this`torn, this`pending, this`listed
      ensures !closed && syncing == Idle && buffer == Magic && written == 0 && synced == 0 && !torn && pending == 0 && !listed
    {
      closed, syncing, buffer := false, Idle, Magic;
      written, synced, torn, pending, listed := 0, 0, false, 0, false;
    }

    /** An empty file, of which nothing is durable and nothing promised. */
    method NewFile()
      modifies this`file, this`durable, this`named, this`images, this`accepted, this`acked, this`vouched
      ensures file == [] && durable == 0 && !named && images == {[]} && accepted == [] && acked == 0 && vouched == 0
    {
      file, durable, named, images := [], 0, false, {[]};
      accepted, acked, vouched := [], 0, 0;
    }

    /** Seals the active segment and starts the next, or changes nothing but what it synced. */
    method Rotate(io: Io) returns (sealed: Option<nat>)
      requires Valid() && syncing.Idle?
      modifies this
      ensures Valid()
      ensures View() == Wal.Rotate(old(View()), io).0 && sealed.Some? == Wal.Rotate(old(View()), io).1
      ensures sealed.Some? ==> sealed.value == old(active)
    {
      if closed {
        return None;
      }
      var ok := SyncHeld(io);
      if !ok || !io.create {
        return None;
      }
      sealed := Some(active);
      StartSegment();
    }

    /** Deletes a sealed segment. */
    method Remove(number: nat) returns (ok: bool)
      requires Valid()
      modifies this`segments
      ensures Valid()
      ensures (View(), ok) == Wal.Remove(old(View()), number)
    {
      if number == active {
        return false;
      }
      segments := segments - {number};
      return true;
    }

    /** The first record of the oldest sealed segment that holds one. */
    method Floor() returns (first: Option<R>)
      requires Valid()
      ensures first == Oldest(codec, segments, 0, active)
    {
      var n := 0;
      while n < active
        invariant 0 <= n <= active
        invariant Oldest(codec, segments, 0, active) == Oldest(codec, segments, n, active)
      {
        if n in segments {
          var records, _ := Replay(codec, segments[n].bytes);
          if records != [] {
            return Some(records[0]);
          }
        }
        n := n + 1;
      }
      return None;
    }
  }
}
