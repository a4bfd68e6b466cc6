/** Recent records in memory: a ring per stream, their merge, and what a restart reads back into them. */
module Backlog {
  import opened Prelude
  import opened Store
  import Durable

  function LastN<T>(s: seq<T>, n: nat): seq<T> {
    if |s| <= n then s else s[|s| - n..]
  }

  // ---- order by number ----

  /** Sorted by number: each record goes after those with a smaller one. */
  function Put(sorted: seq<Rec>, r: Rec): seq<Rec> {
    if sorted == [] || sorted[|sorted| - 1].seqno <= r.seqno then sorted + [r]
    else Put(sorted[..|sorted| - 1], r) + [sorted[|sorted| - 1]]
  }

  function Sorted(recs: seq<Rec>): seq<Rec> {
    if recs == [] then [] else Put(Sorted(recs[..|recs| - 1]), recs[|recs| - 1])
  }

  /** The n records with the highest numbers, in order. */
  function Newest(recs: seq<Rec>, n: nat): seq<Rec> {
    LastN(Sorted(recs), n)
  }

  ghost predicate NonFalling(recs: seq<Rec>) {
    forall i, j :: 0 <= i < j < |recs| ==> recs[i].seqno <= recs[j].seqno
  }

  /** The newest are as many as asked for, or all there are, and none left out has a higher number than any of them. */
  lemma NewestAreHighest(recs: seq<Rec>, n: nat)
    ensures |Newest(recs, n)| == if |recs| < n then |recs| else n
    ensures multiset(Newest(recs, n)) <= multiset(recs) && NonFalling(Newest(recs, n))
    ensures forall x, y :: x in multiset(recs) - multiset(Newest(recs, n)) && y in Newest(recs, n) ==> x.seqno <= y.seqno
  {
    SortedIs(recs);
    Halves(Sorted(recs), n);
  }

  lemma Halves(sorted: seq<Rec>, n: nat)
    requires NonFalling(sorted)
    ensures var high := LastN(sorted, n);
            && |high| == (if |sorted| < n then |sorted| else n)
            && multiset(high) <= multiset(sorted) && NonFalling(high)
            && forall x, y :: x in multiset(sorted) - multiset(high) && y in high ==> x.seqno <= y.seqno
  {
    var high := LastN(sorted, n);
    var low := sorted[..|sorted| - |high|];
    assert sorted == low + high;
    LowAndHigh(low, high);
  }

  lemma LowAndHigh(low: seq<Rec>, high: seq<Rec>)
    requires NonFalling(low + high)
    ensures NonFalling(high) && multiset(low + high) - multiset(high) == multiset(low)
    ensures forall x, y :: x in low && y in high ==> x.seqno <= y.seqno
  {
    var all := low + high;
    forall i, j | 0 <= i < j < |high| ensures high[i].seqno <= high[j].seqno {
      assert all[|low| + i] == high[i] && all[|low| + j] == high[j];
    }
    forall x, y | x in low && y in high ensures x.seqno <= y.seqno {
      var i :| 0 <= i < |low| && low[i] == x;
      var j :| 0 <= j < |high| && high[j] == y;
      assert all[i] == x && all[|low| + j] == y;
    }
  }

  /** No two records with one number. */
  ghost predicate Distinct(recs: seq<Rec>) {
    forall i, j :: 0 <= i < j < |recs| ==> recs[i].seqno != recs[j].seqno
  }

  lemma {:induction false} PutAt(sorted: seq<Rec>, r: Rec) returns (p: nat)
    requires NonFalling(sorted)
    ensures p <= |sorted| && Put(sorted, r) == sorted[..p] + [r] + sorted[p..]
    ensures (forall i :: 0 <= i < p ==> sorted[i].seqno <= r.seqno) && forall i :: p <= i < |sorted| ==> sorted[i].seqno > r.seqno
    decreases |sorted|
  {
    if sorted == [] || sorted[|sorted| - 1].seqno <= r.seqno {
      p := |sorted|;
      assert sorted[..p] == sorted && sorted[p..] == [] && sorted + [r] + [] == sorted + [r];
    } else {
      var n := |sorted| - 1;
      p := PutAt(sorted[..n], r);
      assert sorted[..n][..p] == sorted[..p];
      assert sorted[..n][p..] + [sorted[n]] == sorted[p..];
      Assoc(sorted[..p] + [r], sorted[..n][p..], [sorted[n]]);
    }
  }

  lemma {:induction false} PutCounts(sorted: seq<Rec>, r: Rec)
    ensures multiset(Put(sorted, r)) == multiset(sorted) + multiset{r} && |Put(sorted, r)| == |sorted| + 1
    decreases |sorted|
  {
    if sorted != [] {
      var n := |sorted| - 1;
      PutCounts(sorted[..n], r);
      assert sorted == sorted[..n] + [sorted[n]];
    }
  }

  lemma Between(sorted: seq<Rec>, r: Rec, p: nat)
    requires NonFalling(sorted) && p <= |sorted|
    requires (forall i :: 0 <= i < p ==> sorted[i].seqno <= r.seqno) && forall i :: p <= i < |sorted| ==> sorted[i].seqno > r.seqno
    ensures NonFalling(sorted[..p] + [r] + sorted[p..])
  {
    var put := sorted[..p] + [r] + sorted[p..];
    forall i | 0 <= i < |put|
      ensures put[i] == if i < p then sorted[i] else if i == p then r else sorted[i - 1]
    {
    }
  }

  lemma PutIs(sorted: seq<Rec>, r: Rec)
    requires NonFalling(sorted)
    ensures NonFalling(Put(sorted, r)) && multiset(Put(sorted, r)) == multiset(sorted) + multiset{r} && |Put(sorted, r)| == |sorted| + 1
  {
    PutCounts(sorted, r);
    var p := PutAt(sorted, r);
    Between(sorted, r, p);
  }

  lemma {:induction false} SortedIs(recs: seq<Rec>)
    ensures NonFalling(Sorted(recs)) && multiset(Sorted(recs)) == multiset(recs) && |Sorted(recs)| == |recs|
    decreases |recs|
  {
    if recs != [] {
      var n := |recs| - 1;
      SortedIs(recs[..n]);
      PutIs(Sorted(recs[..n]), recs[n]);
      assert recs == recs[..n] + [recs[n]];
    }
  }

  lemma {:induction false} RisingIsUnique(a: seq<Rec>, b: seq<Rec>)
    requires Rising(a) && NonFalling(b) && multiset(a) == multiset(b)
    ensures a == b
    decreases |a|
  {
    assert |a| == |multiset(a)| == |multiset(b)| == |b|;
    if a != [] {
      SameFirst(a, b);
      assert a == [a[0]] + a[1..] && b == [b[0]] + b[1..];
      assert multiset(a[1..]) == multiset(a) - multiset{a[0]};
      assert multiset(b[1..]) == multiset(b) - multiset{b[0]};
      RisingIsUnique(a[1..], b[1..]);
    }
  }

  lemma SameFirst(a: seq<Rec>, b: seq<Rec>)
    requires Rising(a) && NonFalling(b) && multiset(a) == multiset(b) && a != [] && b != []
    ensures a[0] == b[0]
  {
    assert a[0] in multiset(b) && b[0] in multiset(a);
    var i :| 0 <= i < |a| && a[i] == b[0];
    var j :| 0 <= j < |b| && b[j] == a[0];
  }

  /** Sorting does not care what order it is given. */
  lemma SortedForgets(a: seq<Rec>, b: seq<Rec>)
    requires multiset(a) == multiset(b) && Distinct(a)
    ensures Sorted(a) == Sorted(b)
  {
    SortedIs(a);
    SortedIs(b);
    DistinctSorted(a, Sorted(a));
    RisingIsUnique(Sorted(a), Sorted(b));
  }

  lemma DistinctSorted(a: seq<Rec>, s: seq<Rec>)
    requires Distinct(a) && NonFalling(s) && multiset(a) == multiset(s)
    ensures Rising(s)
  {
    DistinctMoves(a, s);
  }

  /** Distinct numbers stay distinct in any order. */
  lemma {:induction false} DistinctMoves(a: seq<Rec>, b: seq<Rec>)
    requires Distinct(a) && multiset(a) == multiset(b)
    ensures Distinct(b)
    decreases |b|
  {
    assert |a| == |multiset(a)| == |multiset(b)| == |b|;
    if b != [] {
      var n := |b| - 1;
      assert b[n] in multiset(a);
      var i :| 0 <= i < |a| && a[i] == b[n];
      var rest := a[..i] + a[i + 1..];
      RemovedBoth(b, a, i);
      DistinctMoves(rest, b[..n]);
      forall k | 0 <= k < n
        ensures b[k].seqno != b[n].seqno
      {
        assert b[..n][k] in multiset(rest);
        var m :| 0 <= m < |rest| && rest[m] == b[k];
        assert rest[m] == if m < i then a[m] else a[m + 1];
      }
    }
  }

  // ---- keeping the newest while reading ----

  lemma SuffixAfter<T>(s: seq<T>, p: nat, x: T, n: nat)
    requires p + n <= |s|
    ensures LastN(s[..p] + [x] + s[p..], n) == LastN(s, n)
  {
  }

  /** A record older than n others is not among the newest n. */
  lemma OldIsDropped(s: seq<Rec>, r: Rec, n: nat)
    requires |Newest(s, n)| == n && forall i :: 0 <= i < n ==> Newest(s, n)[i].seqno > r.seqno
    ensures Newest(s + [r], n) == Newest(s, n)
  {
    SortedIs(s);
    assert (s + [r])[..|s|] == s;
    PutBelow(Sorted(s), r, n);
  }

  lemma PutBelow(sorted: seq<Rec>, r: Rec, n: nat)
    requires NonFalling(sorted) && |LastN(sorted, n)| == n && forall i :: 0 <= i < n ==> LastN(sorted, n)[i].seqno > r.seqno
    ensures LastN(Put(sorted, r), n) == LastN(sorted, n)
  {
    var p := PutAt(sorted, r);
    assert n > 0 ==> sorted[|sorted| - n] == LastN(sorted, n)[0];
    SuffixAfter(sorted, p, r, n);
  }

  /** Reading on after trimming keeps the same as trimming at the end. */
  lemma TrimEarly(a: seq<Rec>, b: seq<Rec>, n: nat)
    requires Distinct(a + b)
    ensures Newest(Newest(a, n) + b, n) == Newest(a + b, n)
  {
    SortedIs(a);
    var sorted := Sorted(a);
    if |a| <= n {
      SameWith(a, sorted, b);
      SortedForgets(a + b, sorted + b);
    } else {
      var top, low := Newest(a, n), sorted[..|sorted| - n];
      assert sorted == low + top;
      SameWith(a, low + top, b);
      Swaps(low, top, b);
      SortedForgets(a + b, top + b + low);
      DistinctSorted2(a, b);
      DropAll(top + b, low, top, n);
    }
  }

  lemma SameWith(a: seq<Rec>, c: seq<Rec>, b: seq<Rec>)
    requires multiset(a) == multiset(c)
    ensures multiset(a + b) == multiset(c + b)
  {
  }

  lemma Swaps(a: seq<Rec>, b: seq<Rec>, c: seq<Rec>)
    ensures multiset(a + b + c) == multiset(b + c + a)
  {
  }

  lemma DistinctSorted2(a: seq<Rec>, b: seq<Rec>)
    requires Distinct(a + b)
    ensures Rising(Sorted(a))
  {
    assert forall i, j :: 0 <= i < j < |a| ==> (a + b)[i] == a[i] && (a + b)[j] == a[j];
    SortedIs(a);
    DistinctSorted(a, Sorted(a));
  }

  /** n records above some others keep those out of the newest n, whatever else there is. */
  lemma {:induction false} DropAll(s: seq<Rec>, low: seq<Rec>, top: seq<Rec>, n: nat)
    requires |top| == n && top <= s
    requires forall i, j :: 0 <= i < |low| && 0 <= j < n ==> low[i].seqno < top[j].seqno
    ensures Newest(s + low, n) == Newest(s, n)
    decreases |low|
  {
    if low == [] {
      assert s + low == s;
    } else {
      var m := |low| - 1;
      DropAll(s, low[..m], top, n);
      AboveTop(s + low[..m], top, low[m], n);
      OldIsDropped(s + low[..m], low[m], n);
      assert s + low == (s + low[..m]) + [low[m]];
    }
  }

  /** If n of some records are above r, the newest n all are. */
  lemma AboveTop(s: seq<Rec>, top: seq<Rec>, r: Rec, n: nat)
    requires |top| == n && top <= s && forall j :: 0 <= j < n ==> r.seqno < top[j].seqno
    ensures |Newest(s, n)| == n && forall i :: 0 <= i < n ==> Newest(s, n)[i].seqno > r.seqno
  {
    SortedIs(s);
    var sorted := Sorted(s);
    var k := Count(sorted, r);
    CountSame(s, sorted, r);
    CountPrefix(s, top, r);
    CountSuffix(sorted, r);
  }

  /** How many are above r. */
  function Count(s: seq<Rec>, r: Rec): nat {
    if s == [] then 0 else Count(s[..|s| - 1], r) + if s[|s| - 1].seqno > r.seqno then 1 else 0
  }

  lemma {:induction false} CountAppend(a: seq<Rec>, b: seq<Rec>, r: Rec)
    ensures Count(a + b, r) == Count(a, r) + Count(b, r)
    decreases |b|
  {
    if b == [] {
      assert a + b == a;
    } else {
      assert (a + b)[..|a + b| - 1] == a + b[..|b| - 1];
      CountAppend(a, b[..|b| - 1], r);
    }
  }

  lemma {:induction false} CountSame(a: seq<Rec>, b: seq<Rec>, r: Rec)
    requires multiset(a) == multiset(b)
    ensures Count(a, r) == Count(b, r)
    decreases |a|
  {
    assert |a| == |multiset(a)| == |multiset(b)| == |b|;
    if a != [] {
      var n := |a| - 1;
      assert a[n] in multiset(b);
      var i :| 0 <= i < |b| && b[i] == a[n];
      RemovedBoth(a, b, i);
      CountSame(a[..n], b[..i] + b[i + 1..], r);
      CountAppend(b[..i], b[i + 1..], r);
      CountAppend(b[..i] + [b[i]], b[i + 1..], r);
      assert b == b[..i] + [b[i]] + b[i + 1..];
      assert (b[..i] + [b[i]])[..i] == b[..i];
    }
  }

  lemma {:induction false} CountPrefix(s: seq<Rec>, top: seq<Rec>, r: Rec)
    requires top <= s && forall j :: 0 <= j < |top| ==> r.seqno < top[j].seqno
    ensures Count(s, r) >= |top|
    decreases |s|
  {
    if |s| > |top| {
      CountPrefix(s[..|s| - 1], top, r);
    } else if s != [] {
      CountPrefix(s[..|s| - 1], top[..|top| - 1], r);
    }
  }

  /** In order, the ones above r are the last ones. */
  lemma {:induction false} CountSuffix(s: seq<Rec>, r: Rec)
    requires NonFalling(s)
    ensures Count(s, r) <= |s| && forall i :: |s| - Count(s, r) <= i < |s| ==> s[i].seqno > r.seqno
    decreases |s|
  {
    if s != [] {
      var n := |s| - 1;
      CountSuffix(s[..n], r);
      if s[n].seqno <= r.seqno {
        NoneAbove(s, r);
      }
    }
  }

  lemma {:induction false} NoneAbove(s: seq<Rec>, r: Rec)
    requires forall i :: 0 <= i < |s| ==> s[i].seqno <= r.seqno
    ensures Count(s, r) == 0
    decreases |s|
  {
    if s != [] {
      NoneAbove(s[..|s| - 1], r);
    }
  }

  // ---- the reader and the restart ----

  /**
   * Reads a file's rows in pieces, keeping the newest: whenever the pile reaches twice the limit only
   * the top of it is kept. Zero keeps everything, in file order.
   */
  method ReadWith(pieces: seq<seq<Rec>>, limit: nat) returns (recs: seq<Rec>)
    requires Distinct(Flat(pieces))
    ensures recs == if limit == 0 then Flat(pieces) else Newest(Flat(pieces), limit)
  {
    recs := [];
    var i := 0;
    FlatSplit(pieces, 0);
    while i < |pieces|
      invariant 0 <= i <= |pieces|
      invariant limit == 0 ==> recs == Flat(pieces[..i])
      invariant limit > 0 ==> Distinct(recs + Flat(pieces[i..])) && Newest(recs + Flat(pieces[i..]), limit) == Newest(Flat(pieces), limit)
    {
      FlatMore(pieces, i);
      Assoc(recs, pieces[i], Flat(pieces[i + 1..]));
      recs := recs + pieces[i];
      if limit > 0 && |recs| >= 2 * limit {
        TrimEarly(recs, Flat(pieces[i + 1..]), limit);
        DistinctTrim(recs, Flat(pieces[i + 1..]), limit);
        recs := Newest(recs, limit);
      }
      i := i + 1;
    }
    assert pieces[..|pieces|] == pieces;
    assert recs + [] == recs;
    if limit > 0 {
      recs := Newest(recs, limit);
    }
  }

  function Flat(pieces: seq<seq<Rec>>): seq<Rec> {
    if pieces == [] then [] else pieces[0] + Flat(pieces[1..])
  }

  lemma FlatMore(pieces: seq<seq<Rec>>, i: nat)
    requires i < |pieces|
    ensures Flat(pieces[i..]) == pieces[i] + Flat(pieces[i + 1..])
    ensures Flat(pieces[..i + 1]) == Flat(pieces[..i]) + pieces[i]
  {
    assert pieces[i..][1..] == pieces[i + 1..];
    assert pieces[..i + 1] == pieces[..i] + [pieces[i]];
    FlatAppend(pieces[..i], pieces[i]);
  }

  lemma {:induction false} FlatAppend(pieces: seq<seq<Rec>>, last: seq<Rec>)
    ensures Flat(pieces + [last]) == Flat(pieces) + last
  {
    if pieces == [] {
      assert [] + [last] == [last] && [last][1..] == [];
      assert last + [] == last && [] + last == last;
    } else {
      FlatAppend(pieces[1..], last);
      assert (pieces + [last])[1..] == pieces[1..] + [last];
      Assoc(pieces[0], Flat(pieces[1..]), last);
    }
  }

  lemma FlatSplit(pieces: seq<seq<Rec>>, i: nat)
    requires i == 0
    ensures pieces[i..] == pieces && pieces[..i] == [] && [] + Flat(pieces[i..]) == Flat(pieces)
  {
  }

  lemma DistinctSuffix(s: seq<Rec>, k: nat)
    requires Distinct(s) && k <= |s|
    ensures Distinct(s[k..])
  {
  }

  lemma DistinctTrim(a: seq<Rec>, b: seq<Rec>, n: nat)
    requires Distinct(a + b)
    ensures Distinct(Newest(a, n) + b)
  {
    SortedIs(a);
    var sorted := Sorted(a);
    var k := |sorted| - |Newest(a, n)|;
    SameWith(a, sorted, b);
    DistinctMoves(a + b, sorted + b);
    DistinctSuffix(sorted + b, k);
    assert (sorted + b)[k..] == Newest(a, n) + b;
  }

  /** A live file, as a restart sees it. */
  datatype File = File(maxSeq: nat, rows: seq<seq<Rec>>)

  ghost predicate Describes(f: File) {
    forall i :: 0 <= i < |Flat(f.rows)| ==> Flat(f.rows)[i].seqno <= f.maxSeq
  }

  function AllRows(files: seq<File>): seq<Rec> {
    if files == [] then [] else Flat(files[0].rows) + AllRows(files[1..])
  }

  /** Highest numbers first. */
  ghost predicate NewestFirst(files: seq<File>) {
    forall i, j :: 0 <= i < j < |files| ==> files[i].maxSeq >= files[j].maxSeq
  }

  /**
   * The newest records of one stream over all its live files. The walk stops once no file left can hold
   * anything newer than the oldest record kept, and each file is read with the same limit.
   */
  method NewestOf(files: seq<File>, backlog: nat) returns (recs: seq<Rec>)
    requires backlog > 0 && NewestFirst(files) && Distinct(AllRows(files)) && forall i :: 0 <= i < |files| ==> Describes(files[i])
    ensures recs == Newest(AllRows(files), backlog)
  {
    recs := [];
    var i := 0;
    assert files[0..] == files && [] + AllRows(files) == AllRows(files);
    while i < |files|
      invariant 0 <= i <= |files| && Keeps(recs, AllRows(files[i..]), AllRows(files), backlog)
    {
      if |recs| >= backlog && files[i].maxSeq < recs[0].seqno {
        NothingNewer(recs, files[i..], backlog);
        return;
      }
      assert files[i..][1..] == files[i + 1..];
      KeepsNext(recs, Flat(files[i].rows), AllRows(files[i + 1..]), AllRows(files), backlog);
      var batch := ReadWith(files[i].rows, backlog);
      recs := Newest(recs + batch, backlog);
      i := i + 1;
    }
    assert recs + [] == recs;
    NewestOfSorted(recs, backlog);
  }

  /** What is kept so far, with all that is still to be read, has the same newest records as everything. */
  ghost predicate Keeps(recs: seq<Rec>, rest: seq<Rec>, all: seq<Rec>, n: nat) {
    NonFalling(recs) && |recs| <= n && Distinct(recs + rest) && Newest(recs + rest, n) == Newest(all, n)
  }

  lemma KeepsNext(recs: seq<Rec>, rows: seq<Rec>, rest: seq<Rec>, all: seq<Rec>, n: nat)
    requires Keeps(recs, rows + rest, all, n)
    ensures Distinct(rows) && Keeps(Newest(recs + Newest(rows, n), n), rest, all, n)
  {
    Assoc(recs, rows, rest);
    DistinctParts(recs, rows, rest);
    JoinTrimmed(recs, rows, rest, n);
    SortedIs(recs + Newest(rows, n));
  }

  lemma DistinctParts(a: seq<Rec>, b: seq<Rec>, c: seq<Rec>)
    requires Distinct(a + b + c)
    ensures Distinct(b) && Distinct(a + b) && Distinct(b + c)
  {
    assert forall i :: 0 <= i < |b| ==> (a + b + c)[|a| + i] == b[i];
    assert forall i :: 0 <= i < |a + b| ==> (a + b + c)[i] == (a + b)[i];
    assert forall i :: 0 <= i < |b + c| ==> (a + b + c)[|a| + i] == (b + c)[i];
  }

  /** Trimming one file before it joins the others, and the lot after, loses nothing that counts. */
  lemma JoinTrimmed(recs: seq<Rec>, rows: seq<Rec>, rest: seq<Rec>, n: nat)
    requires Distinct(recs + rows + rest)
    ensures var kept := Newest(recs + Newest(rows, n), n);
            Distinct(kept + rest) && Newest(kept + rest, n) == Newest(recs + rows + rest, n)
  {
    var batch := Newest(rows, n);
    // First the file alone is trimmed, with everything else after it.
    assert multiset(rows + (recs + rest)) == multiset(recs + rows + rest);
    DistinctMoves(recs + rows + rest, rows + (recs + rest));
    TrimEarly(rows, recs + rest, n);
    DistinctTrim(rows, recs + rest, n);
    SortedForgets(rows + (recs + rest), recs + rows + rest);
    // Then it joins the others.
    assert multiset(batch + (recs + rest)) == multiset(recs + batch + rest);
    DistinctMoves(batch + (recs + rest), recs + batch + rest);
    SortedForgets(batch + (recs + rest), recs + batch + rest);
    TrimEarly(recs + batch, rest, n);
    DistinctTrim(recs + batch, rest, n);
  }

  lemma {:induction false} AllRowsBelow(files: seq<File>, bound: nat)
    requires forall i :: 0 <= i < |files| ==> Describes(files[i]) && files[i].maxSeq < bound
    ensures forall i :: 0 <= i < |AllRows(files)| ==> AllRows(files)[i].seqno < bound
  {
    if files != [] {
      AllRowsBelow(files[1..], bound);
      forall i | 0 <= i < |AllRows(files)|
        ensures AllRows(files)[i].seqno < bound
      {
        var first := Flat(files[0].rows);
        assert AllRows(files)[i] == if i < |first| then first[i] else AllRows(files[1..])[i - |first|];
      }
    }
  }

  lemma {:induction false} NewestOfSorted(s: seq<Rec>, n: nat)
    requires NonFalling(s) && |s| <= n && Distinct(s)
    ensures Newest(s, n) == s
  {
    SortedIs(s);
    DistinctSorted(s, Sorted(s));
    RisingIsUnique(Sorted(s), s);
  }

  /** When every file left is older than everything kept, what is kept is the answer. */
  lemma {:induction false} NothingNewer(recs: seq<Rec>, files: seq<File>, n: nat)
    requires n > 0 && |recs| == n && NonFalling(recs) && files != [] && NewestFirst(files) && files[0].maxSeq < recs[0].seqno
    requires Distinct(recs + AllRows(files)) && forall i :: 0 <= i < |files| ==> Describes(files[i])
    ensures Newest(recs + AllRows(files), n) == recs
  {
    AllRowsBelow(files, recs[0].seqno);
    DropAll(recs, AllRows(files), recs, n);
    assert forall i :: 0 <= i < |recs| ==> (recs + AllRows(files))[i] == recs[i];
    NewestOfSorted(recs, n);
  }
}
