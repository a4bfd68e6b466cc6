/** The store kept in memory: a ring of records per stream, numbered, and merged again for a tail that watches them all. */
module Memory {
  import opened Prelude
  import opened Store
  import opened Backlog

  // ---- a ring ----

  class Ring {
    var items: array<Option<Rec>>
    var start: nat
    var count: nat

    ghost predicate Valid()
      reads this, items
    {
      RingOk(items[..], start, count)
    }

    /** The records held, oldest first. */
    ghost function Contents(): seq<Rec>
      requires Valid()
      reads this, items
    {
      Held(items[..], start, count)
    }

    constructor (size: nat)
      requires size > 0
      ensures Valid() && Contents() == [] && items.Length == size && fresh(items)
    {
      items := new Option<Rec>[size](_ => None);
      start, count := 0, 0;
    }

    /** The newest takes the place of the oldest, once the ring is full. */
    method Push(r: Rec)
      requires Valid()
      modifies this`start, this`count, items
      ensures Valid() && items == old(items)
      ensures Contents() == LastN(old(Contents()) + [r], items.Length)
      ensures Contents() == (if |old(Contents())| == items.Length then old(Contents())[1..] else old(Contents())) + [r]
    {
      var end, next := Around(items.Length, start + count), Around(items.Length, start + 1);
      ghost var before := items[..];
      PushedAround(before, start, count, r);
      Put(end, r);
      if count == items.Length {
        start := next;
      } else {
        count := count + 1;
      }
    }

    method Put(at: nat, r: Rec)
      requires at < items.Length
      modifies items
      ensures items[..] == old(items[..])[at := Some(r)]
    {
      items[at] := Some(r);
    }

    /** Up to limit of the newest, oldest first; zero or less is all of them. */
    method Slice(limit: int) returns (out: seq<Rec>)
      requires Valid()
      ensures out == if limit > 0 then LastN(Contents(), limit) else Contents()
    {
      var n := if 0 < limit < count then limit else count;
      ghost var held := Contents();
      out := [];
      var i := count - n;
      while i < count
        invariant count - n <= i <= count && out == held[count - n..i]
      {
        HeldAround(items[..], start, count, i);
        TakeNext(held, count - n, i);
        out := out + [items[Around(items.Length, start + i)].value];
        i := i + 1;
      }
    }
  }

  ghost predicate RingOk(items: seq<Option<Rec>>, start: nat, count: nat) {
    && start < |items| && count <= |items|
    && forall i :: 0 <= i < count ==> items[At(|items|, start, i)].Some?
  }

  ghost function Held(items: seq<Option<Rec>>, start: nat, count: nat): (s: seq<Rec>)
    requires RingOk(items, start, count)
    ensures |s| == count
  {
    seq(count, i requires 0 <= i < count => items[At(|items|, start, i)].value)
  }

  lemma HeldAt(items: seq<Option<Rec>>, start: nat, count: nat, i: nat)
    requires RingOk(items, start, count) && i < count
    ensures items[At(|items|, start, i)] == Some(Held(items, start, count)[i])
  {
  }

  lemma HeldAround(items: seq<Option<Rec>>, start: nat, count: nat, i: nat)
    requires RingOk(items, start, count) && i < count
    ensures items[Around(|items|, start + i)] == Some(Held(items, start, count)[i])
  {
    Wraps(|items|, start, i);
    HeldAt(items, start, count, i);
  }

  lemma TakeNext<T>(s: seq<T>, from: nat, i: nat)
    requires from <= i < |s|
    ensures s[from..i + 1] == s[from..i] + [s[i]]
  {
  }

  /** The same, with positions that go around. */
  lemma PushedAround(items: seq<Option<Rec>>, start: nat, count: nat, r: Rec)
    requires RingOk(items, start, count)
    ensures var full := count == |items|;
            var after := items[Around(|items|, start + count) := Some(r)];
            var next, n := if full then Around(|items|, start + 1) else start, if full then count else count + 1;
            RingOk(after, next, n) && Held(after, next, n) == LastN(Held(items, start, count) + [r], |items|)
  {
    Wraps(|items|, start, count);
    Wraps(|items|, start, 1);
    Pushed(items, start, count, r);
  }

  /** Writing past the end, and moving the start along once that is the start itself. */
  lemma Pushed(items: seq<Option<Rec>>, start: nat, count: nat, r: Rec)
    requires RingOk(items, start, count)
    ensures var full := count == |items|;
            var end := if full then start else At(|items|, start, count);
            var after := items[end := Some(r)];
            var next := if full then (if |items| == 1 then start else At(|items|, start, 1)) else start;
            var n := if full then count else count + 1;
            RingOk(after, next, n) && Held(after, next, n) == LastN(Held(items, start, count) + [r], |items|)
  {
    if count == |items| {
      PushedFull(items, start, r);
    } else {
      var after := items[At(|items|, start, count) := Some(r)];
      forall i | 0 <= i <= count
        ensures after[At(|items|, start, i)] == if i == count then Some(r) else items[At(|items|, start, i)]
      {
      }
      assert Held(after, start, count + 1) == Held(items, start, count) + [r];
    }
  }

  lemma PushedFull(items: seq<Option<Rec>>, start: nat, r: Rec)
    requires RingOk(items, start, |items|)
    ensures var size := |items|;
            var next, after := if size == 1 then start else At(size, start, 1), items[start := Some(r)];
            RingOk(after, next, size) && Held(after, next, size) == LastN(Held(items, start, size) + [r], size)
  {
    var size := |items|;
    var next, after := if size == 1 then start else At(size, start, 1), items[start := Some(r)];
    AtNext(size, start, size);
    forall i | 0 <= i < size
      ensures after[At(size, next, i)] == if i == size - 1 then Some(r) else items[At(size, start, i + 1)]
    {
    }
    assert Held(after, next, size) == (Held(items, start, size) + [r])[1..];
  }

  /** Where the i-th record from start is. */
  function At(size: nat, start: nat, i: nat): (k: nat)
    requires start < size && i < size
    ensures k < size
  {
    if start + i < size then start + i else start + i - size
  }

  function Around(size: nat, k: nat): (r: nat)
    requires size > 0
    ensures r < size
  {
    k % size
  }

  lemma Wraps(size: nat, start: nat, i: nat)
    requires start < size && i <= size
    ensures Around(size, start + i) == if i == size then start else At(size, start, i)
  {
    Remainder(size, start + i);
  }

  lemma Remainder(size: nat, k: nat)
    requires k < 2 * size
    ensures k % size == if k < size then k else k - size
  {
    var q := k / size;
    assert k == q * size + k % size;
    assert q >= 2 ==> q * size >= 2 * size;
  }

  lemma AtNext(size: nat, start: nat, count: nat)
    requires start < size && count == size
    ensures var next := if size == 1 then start else At(size, start, 1);
            && (forall i :: 0 <= i < count - 1 ==> At(size, next, i) == At(size, start, i + 1))
            && At(size, next, count - 1) == start
  {
  }

  // ---- what the rings hold of a history ----

  /** The records among the last size of their own stream. */
  function Recent(history: seq<Rec>, size: nat): seq<Rec> {
    if history == [] then []
    else (if |OfStream(history, history[0].stream)| <= size then [history[0]] else []) + Recent(history[1..], size)
  }

  lemma OfStreamCons(r: Rec, recs: seq<Rec>, stream: string)
    ensures OfStream([r] + recs, stream) == if r.stream == stream then [r] + OfStream(recs, stream) else OfStream(recs, stream)
  {
    assert ([r] + recs)[1..] == recs;
  }

  lemma LastNCons(r: Rec, recs: seq<Rec>, n: nat)
    ensures LastN([r] + recs, n) == if |recs| < n then [r] + LastN(recs, n) else LastN(recs, n)
  {
  }

  lemma {:induction false} RecentOfStream(history: seq<Rec>, size: nat, stream: string)
    ensures OfStream(Recent(history, size), stream) == LastN(OfStream(history, stream), size)
  {
    if history != [] {
      var r, rest := history[0], Recent(history[1..], size);
      RecentOfStream(history[1..], size, stream);
      assert history == [r] + history[1..];
      OfStreamCons(r, history[1..], stream);
      OfStreamCons(r, rest, stream);
      LastNCons(r, OfStream(history[1..], stream), size);
      assert Recent(history, size) == if |OfStream(history, r.stream)| <= size then [r] + rest else rest;
    }
  }

  lemma {:induction false} RecentHas(history: seq<Rec>, size: nat)
    ensures forall r :: r in Recent(history, size) ==> r in history
  {
    if history != [] {
      RecentHas(history[1..], size);
      assert history == [history[0]] + history[1..];
    }
  }

  lemma {:induction false} RecentRising(history: seq<Rec>, size: nat)
    requires Rising(history)
    ensures Rising(Recent(history, size))
  {
    if history != [] {
      RecentRising(history[1..], size);
      RecentHas(history[1..], size);
      var rest := Recent(history[1..], size);
      forall i | 0 <= i < |rest|
        ensures history[0].seqno < rest[i].seqno
      {
        assert rest[i] in rest;
      }
    }
  }

  lemma {:induction false} OfStreamSize(history: seq<Rec>, stream: string)
    ensures |OfStream(history, stream)| <= |history|
  {
    if history != [] {
      OfStreamSize(history[1..], stream);
    }
  }

  lemma {:induction false} RecentAll(history: seq<Rec>, size: nat)
    requires |history| <= size
    ensures Recent(history, size) == history
  {
    if history != [] {
      OfStreamSize(history, history[0].stream);
      RecentAll(history[1..], size);
      assert [history[0]] + history[1..] == history;
    }
  }

  lemma LastNShorter(a: seq<Rec>, b: seq<Rec>, n: nat)
    ensures |LastN(b, n)| == n ==> LastN(a + b, n) == LastN(b, n)
  {
  }

  /** The last n of what the rings hold are the last n there were, as long as n is no more than a ring holds. */
  lemma {:induction false} RecentSuffix(history: seq<Rec>, size: nat, n: nat)
    requires n <= size
    ensures LastN(Recent(history, size), n) == LastN(history, n)
  {
    if |history| <= n {
      RecentAll(history, size);
    } else {
      RecentSuffix(history[1..], size, n);
      var rest := Recent(history[1..], size);
      LastNShorter(if |OfStream(history, history[0].stream)| <= size then [history[0]] else [], rest, n);
      LastNShorter([history[0]], history[1..], n);
      assert [history[0]] + history[1..] == history;
      assert |LastN(rest, n)| == n;
    }
  }

  /** The records of some streams. */
  function OfStreams(recs: seq<Rec>, streams: set<string>): seq<Rec> {
    if recs == [] then []
    else (if recs[0].stream in streams then [recs[0]] else []) + OfStreams(recs[1..], streams)
  }

  lemma {:induction false} OneMoreStream(recs: seq<Rec>, streams: set<string>, stream: string)
    requires stream !in streams
    ensures multiset(OfStreams(recs, streams + {stream})) == multiset(OfStreams(recs, streams)) + multiset(OfStream(recs, stream))
  {
    if recs != [] {
      OneMoreStream(recs[1..], streams, stream);
    }
  }

  lemma {:induction false} NoStreams(recs: seq<Rec>)
    ensures OfStreams(recs, {}) == []
  {
    if recs != [] {
      NoStreams(recs[1..]);
    }
  }

  lemma {:induction false} EveryStream(recs: seq<Rec>, streams: set<string>)
    requires forall r :: r in recs ==> r.stream in streams
    ensures OfStreams(recs, streams) == recs
  {
    if recs != [] {
      assert recs[0] in recs;
      forall r | r in recs[1..] ensures r in recs {}
      EveryStream(recs[1..], streams);
      assert [recs[0]] + recs[1..] == recs;
    }
  }

  lemma {:induction false} OfStreamMore(history: seq<Rec>, r: Rec, stream: string)
    ensures OfStream(history + [r], stream) == OfStream(history, stream) + if r.stream == stream then [r] else []
  {
    if history == [] {
      assert [r][1..] == [];
    } else {
      assert (history + [r])[1..] == history[1..] + [r];
      OfStreamMore(history[1..], r, stream);
    }
  }

  // ---- the store ----

  /** The rings are kept as what they hold; Ring says that pushing and slicing are LastN. */
  class Memory {
    const size: nat
    var seqno: nat
    var order: seq<string>
    var streams: map<string, seq<Rec>>
    ghost var history: seq<Rec>

    ghost predicate Valid()
      reads this
    {
      && size > 0 && Rising(history) && (forall r :: r in history ==> r.seqno <= seqno)
      && (forall s :: s in order <==> s in streams)
      && RingsHold(history, streams, size)
    }

    constructor (size: nat)
      ensures Valid() && history == [] && this.size == if size < 1 then 100 else size
    {
      this.size := if size < 1 then 100 else size;
      seqno, order, streams, history := 0, [], map[], [];
    }

    /** Numbers a record and puts it in its stream's ring. */
    method Append(stream: string, micros: int, severity: int)
      requires Valid()
      modifies this
      ensures Valid() && seqno == old(seqno) + 1 && history == old(history) + [Rec(seqno, stream, micros, severity)]
    {
      var r := Rec(seqno + 1, stream, micros, severity);
      HistoryMore(history, r, seqno);
      Hold(r);
      history := history + [r];
      seqno := seqno + 1;
    }

    /** Puts a record in its stream's ring, a new one if need be. */
    method Hold(r: Rec)
      requires size > 0 && RingsHold(history, streams, size) && forall s :: s in order <==> s in streams
      modifies this`streams, this`order
      ensures RingsHold(history + [r], streams, size) && forall s :: s in order <==> s in streams
    {
      RingsMore(history, streams, r, size);
      var ring := [];
      if r.stream in streams {
        ring := streams[r.stream];
      } else {
        order := order + [r.stream];
      }
      streams := streams[r.stream := LastN(ring + [r], size)];
    }

    /** Every ring's records, one ring after another. */
    method Gather() returns (merged: seq<Rec>)
      requires Valid()
      ensures multiset(merged) == multiset(OfStreams(Recent(history, size), streams.Keys))
    {
      merged := [];
      var left := streams.Keys;
      NoStreams(Recent(history, size));
      assert streams.Keys - left == {};
      while left != {}
        invariant left <= streams.Keys
        invariant multiset(merged) == multiset(OfStreams(Recent(history, size), streams.Keys - left))
        decreases |left|
      {
        var s :| s in left;
        GatherMore(history, size, streams.Keys, left, s, merged, streams[s]);
        merged := merged + streams[s];
        left := left - {s};
      }
      assert streams.Keys - left == streams.Keys;
    }

    /** Recent records, oldest first: one stream's, or every stream's merged by number. */
    method Backlog(stream: string, limit: int) returns (out: seq<Rec>)
      requires Valid()
      ensures stream != "" ==> out == LastN(OfStream(history, stream), if 0 < limit < size then limit else size)
      ensures stream == "" ==> out == LastN(Recent(history, size), if limit <= 0 then size else limit)
    {
      if stream == "" {
        var merged := Gather();
        Merges(history, size, streams.Keys, merged);
        return LastN(Sorted(merged), if limit <= 0 then size else limit);
      }
      if stream !in streams {
        NoneYet(history, stream);
        return [];
      }
      out := if limit > 0 then LastN(streams[stream], limit) else streams[stream];
      LastNTwice(OfStream(history, stream), size, if limit > 0 then limit else size);
    }
  }

  ghost predicate RingsHold(history: seq<Rec>, streams: map<string, seq<Rec>>, size: nat) {
    && Streams(history) <= streams.Keys
    && forall s :: s in streams ==> streams[s] == LastN(OfStream(history, s), size)
  }

  lemma RingsMore(history: seq<Rec>, streams: map<string, seq<Rec>>, r: Rec, size: nat)
    requires RingsHold(history, streams, size) && size > 0
    ensures var ring := if r.stream in streams then streams[r.stream] else [];
            RingsHold(history + [r], streams[r.stream := LastN(ring + [r], size)], size)
  {
    var ring := if r.stream in streams then streams[r.stream] else [];
    var after := streams[r.stream := LastN(ring + [r], size)];
    OneMoreRecord(history, r);
    forall s | s in after
      ensures after[s] == LastN(OfStream(history + [r], s), size)
    {
      OfStreamMore(history, r, s);
      if s == r.stream {
        RingMore(history, streams, r, size);
      } else {
        assert OfStream(history, s) + [] == OfStream(history, s);
      }
    }
  }

  lemma RingMore(history: seq<Rec>, streams: map<string, seq<Rec>>, r: Rec, size: nat)
    requires RingsHold(history, streams, size) && size > 0
    ensures var ring := if r.stream in streams then streams[r.stream] else [];
            LastN(ring + [r], size) == LastN(OfStream(history, r.stream) + [r], size)
  {
    if r.stream !in streams {
      NoneYet(history, r.stream);
    }
    LastNAgain(OfStream(history, r.stream), r, size);
  }

  lemma GatherMore(history: seq<Rec>, size: nat, all: set<string>, left: set<string>, s: string, merged: seq<Rec>, part: seq<Rec>)
    requires s in left && left <= all && part == LastN(OfStream(history, s), size)
    requires multiset(merged) == multiset(OfStreams(Recent(history, size), all - left))
    ensures multiset(merged + part) == multiset(OfStreams(Recent(history, size), all - (left - {s})))
  {
    RecentOfStream(history, size, s);
    OneMoreStream(Recent(history, size), all - left, s);
    assert all - (left - {s}) == (all - left) + {s};
  }

  lemma HistoryMore(history: seq<Rec>, r: Rec, seqno: nat)
    requires Rising(history) && (forall x :: x in history ==> x.seqno <= seqno) && r.seqno == seqno + 1
    ensures Rising(history + [r]) && forall x :: x in history + [r] ==> x.seqno <= seqno + 1
    ensures Streams(history + [r]) == Streams(history) + {r.stream}
  {
    OneMoreRecord(history, r);
    forall i | 0 <= i < |history| ensures history[i].seqno < r.seqno { assert history[i] in history; }
  }

  lemma OneMoreRecord(history: seq<Rec>, r: Rec)
    ensures Streams(history + [r]) == Streams(history) + {r.stream}
  {
    assert forall x :: x in history + [r] <==> x in history || x == r;
  }

  lemma {:induction false} NoneYet(history: seq<Rec>, stream: string)
    requires stream !in Streams(history)
    ensures OfStream(history, stream) == []
  {
    if history != [] {
      assert history[0] in history && forall r :: r in history[1..] ==> r in history;
      NoneYet(history[1..], stream);
    }
  }

  lemma LastNAgain(s: seq<Rec>, r: Rec, n: nat)
    requires n > 0
    ensures LastN(LastN(s, n) + [r], n) == LastN(s + [r], n)
  {
  }

  lemma LastNTwice(s: seq<Rec>, n: nat, m: nat)
    ensures LastN(LastN(s, n), m) == LastN(s, if m < n then m else n)
  {
  }

  /** Whatever order the rings are read in, sorting by number gives what they hold in the order it came. */
  lemma Merges(history: seq<Rec>, size: nat, streams: set<string>, merged: seq<Rec>)
    requires Rising(history) && Streams(history) <= streams
    requires multiset(merged) == multiset(OfStreams(Recent(history, size), streams))
    ensures Sorted(merged) == Recent(history, size)
  {
    RecentRising(history, size);
    RecentHas(history, size);
    EveryStream(Recent(history, size), streams);
    SortedIs(merged);
    RisingIsUnique(Recent(history, size), Sorted(merged));
  }

  /** A tail of every stream opens with the last N records there were, for any N a ring has room for. */
  lemma MergedBacklogIsLast(history: seq<Rec>, size: nat, limit: int)
    requires limit <= size
    ensures var n := if limit <= 0 then size else limit;
            LastN(Recent(history, size), n) == LastN(history, n)
  {
    RecentSuffix(history, size, if limit <= 0 then size else limit);
  }
}
