/**
 * A live tail: a subscription opened before the backlog is read, a bounded queue that drops rather
 * than stalls ingest, and a floor that keeps what both hold from being sent twice.
 *
 * An append pushes a record into the rings and then publishes it, and a tail may read its backlog
 * between the two; appends themselves are one at a time.
 */
module LiveTail {
  import opened Prelude
  import opened Store
  import opened Backlog
  import Durable

  /** Which records the subscription is for, and which the filter accepts. */
  datatype Filter = Filter(watches: Rec -> bool, matches: Rec -> bool, size: nat, capacity: nat)

  datatype Event = Line(r: Rec) | StreamList

  datatype Tail = Tail(
    history: seq<Rec>,
    published: nat,
    since: Option<nat>,
    queue: seq<Event>,
    dropped: nat,
    reported: nat,
    floor: Option<nat>,
    sent: seq<Rec>,
    // What was dropped, the backlog as it was read, the sum of the losses reported.
    lost: seq<Event>,
    backlog: seq<Rec>,
    told: nat)

  const Start := Tail([], 0, None, [], 0, 0, None, [], [], [], 0)

  function Select(p: Rec -> bool, recs: seq<Rec>): seq<Rec> {
    if recs == [] then [] else Select(p, recs[..|recs| - 1]) + if p(recs[|recs| - 1]) then [recs[|recs| - 1]] else []
  }

  /** The rings' answer when every record kept so far fits: the last size records watched. */
  function BacklogOf(f: Filter, history: seq<Rec>): seq<Rec> {
    LastN(Select(f.watches, history), f.size)
  }

  function Highest(recs: seq<Rec>): nat {
    if recs == [] then 0
    else
      var rest := Highest(recs[..|recs| - 1]);
      if recs[|recs| - 1].seqno > rest then recs[|recs| - 1].seqno else rest
  }

  // ---- steps ----

  datatype Step =
    | Push(r: Rec)
    | Publish
    | Announce
    | Subscribe
    | ReadBacklog
    | Receive
    | Report

  /** Delivers without blocking, counting what does not fit. */
  function Send(f: Filter, t: Tail, e: Event): Tail {
    if |t.queue| < f.capacity then t.(queue := t.queue + [e]) else t.(dropped := t.dropped + 1, lost := t.lost + [e])
  }

  predicate MayPush(t: Tail, r: Rec) {
    t.published == |t.history| && r.seqno > (if t.history == [] then 0 else t.history[|t.history| - 1].seqno)
  }

  function Take(f: Filter, t: Tail, step: Step): Tail {
    match step
    case Push(r) => if MayPush(t, r) then t.(history := t.history + [r]) else t
    case Publish =>
      if t.published < |t.history| then
        var r := t.history[t.published];
        var u := t.(published := t.published + 1);
        if t.since.Some? && f.watches(r) then Send(f, u, Line(r)) else u
      else t
    case Announce => if t.since.Some? then Send(f, t, StreamList) else t
    case Subscribe => if t.since.None? then t.(since := Some(t.published)) else t
    case ReadBacklog =>
      if t.since.Some? && t.floor.None? then
        var backlog := BacklogOf(f, t.history);
        t.(backlog := backlog, floor := Some(Highest(backlog)), sent := t.sent + Select(f.matches, backlog))
      else t
    case Receive =>
      if t.floor.Some? && t.queue != [] then
        var e, u := t.queue[0], t.(queue := t.queue[1..]);
        if e.Line? && e.r.seqno > t.floor.value && f.matches(e.r) then u.(sent := t.sent + [e.r]) else u
      else t
    case Report =>
      if t.dropped > t.reported then t.(reported := t.dropped, told := t.told + (t.dropped - t.reported)) else t
  }

  function Run(f: Filter, steps: seq<Step>): Tail {
    if steps == [] then Start else Take(f, Run(f, steps[..|steps| - 1]), steps[|steps| - 1])
  }

  // ---- the invariant ----

  ghost predicate Listed(recs: seq<Rec>, r: Rec) {
    exists i :: 0 <= i < |recs| && recs[i] == r
  }

  ghost predicate Queued(events: seq<Event>, r: Rec) {
    exists i :: 0 <= i < |events| && events[i] == Line(r)
  }

  /** Queued lines are watched, already published, and in order. */
  ghost predicate QueueOk(f: Filter, published: seq<Rec>, queue: seq<Event>) {
    && (forall i :: 0 <= i < |queue| && queue[i].Line? ==> f.watches(queue[i].r) && Listed(published, queue[i].r))
    && (forall i, j :: 0 <= i < j < |queue| && queue[i].Line? && queue[j].Line? ==> queue[i].r.seqno < queue[j].r.seqno)
  }

  /** What was sent is in order and matches, and comes before whatever in the queue is still to be sent. */
  ghost predicate SentOk(f: Filter, published: seq<Rec>, queue: seq<Event>, floor: Option<nat>, sent: seq<Rec>) {
    && Rising(sent)
    && (forall i :: 0 <= i < |sent| ==> f.matches(sent[i]))
    && (floor.None? ==> sent == [])
    && (floor.Some? ==> forall i :: 0 <= i < |sent| ==> sent[i].seqno <= floor.value || Listed(published, sent[i]))
    && (floor.Some? ==> forall i, j :: 0 <= i < |sent| && 0 <= j < |queue| && queue[j].Line? && queue[j].r.seqno > floor.value ==>
          sent[i].seqno < queue[j].r.seqno)
  }

  /** A record is in the queue, lost and counted, sent, or was for the backlog to send. */
  ghost predicate Known(t: Tail, r: Rec) {
    Queued(t.queue, r) || Queued(t.lost, r) || Listed(t.sent, r) || (t.floor.Some? && r.seqno <= t.floor.value)
  }

  /** Every record wanted that was published since the subscription is accounted for. */
  ghost predicate Accounted(f: Filter, t: Tail)
    requires t.published <= |t.history|
  {
    t.since.Some? ==>
      && t.since.value <= t.published
      && forall k :: t.since.value <= k < t.published && f.watches(t.history[k]) && f.matches(t.history[k]) ==> Known(t, t.history[k])
  }

  /** The backlog was the last of what was watched; whatever is above the floor came after the subscription. */
  ghost predicate FloorOk(f: Filter, t: Tail) {
    t.floor.Some? ==>
      && t.since.Some?
      && t.floor.value == Highest(t.backlog) && (forall i :: 0 <= i < |t.backlog| ==> Listed(t.history, t.backlog[i]))
      && (forall i :: 0 <= i < |t.backlog| && f.matches(t.backlog[i]) ==> Listed(t.sent, t.backlog[i]))
      && (forall k :: 0 <= k < |t.history| && f.watches(t.history[k]) && t.backlog != [] && t.history[k].seqno >= t.backlog[0].seqno ==>
            Listed(t.backlog, t.history[k]) || t.history[k].seqno > t.floor.value)
      && (forall k :: 0 <= k < |t.history| && f.watches(t.history[k]) && t.history[k].seqno > t.floor.value ==> k >= t.since.value)
  }

  ghost predicate CountsOk(t: Tail) {
    && Rising(t.history) && t.published <= |t.history| <= t.published + 1
    && (forall k :: 0 <= k < |t.history| ==> t.history[k].seqno > 0)
    && (t.since.None? ==> t.queue == [] && t.floor.None?)
    && t.dropped == |t.lost| && t.told == t.reported <= t.dropped
  }

  ghost predicate Inv(f: Filter, t: Tail) {
    && CountsOk(t)
    && QueueOk(f, t.history[..t.published], t.queue)
    && SentOk(f, t.history[..t.published], t.queue, t.floor, t.sent)
    && Accounted(f, t) && FloorOk(f, t)
  }

  // ---- each step keeps it ----

  lemma ListedMore(recs: seq<Rec>, r: Rec, more: seq<Rec>)
    requires Listed(recs, r)
    ensures Listed(recs + more, r)
  {
    var i :| 0 <= i < |recs| && recs[i] == r;
    assert (recs + more)[i] == r;
  }

  lemma {:induction false} HighestIs(recs: seq<Rec>)
    ensures forall i :: 0 <= i < |recs| ==> recs[i].seqno <= Highest(recs)
    ensures recs != [] ==> exists i :: 0 <= i < |recs| && recs[i].seqno == Highest(recs)
    ensures recs == [] ==> Highest(recs) == 0
    decreases |recs|
  {
    if recs != [] {
      var n := |recs| - 1;
      HighestIs(recs[..n]);
      if n > 0 {
        var i :| 0 <= i < n && recs[..n][i].seqno == Highest(recs[..n]);
        assert recs[i].seqno == Highest(recs[..n]);
      }
      assert recs[n].seqno >= 0;
    }
  }

  lemma PushKeeps(f: Filter, t: Tail, r: Rec)
    requires Inv(f, t)
    ensures Inv(f, Take(f, t, Push(r)))
  {
    if MayPush(t, r) {
      var u := Take(f, t, Push(r));
      assert u.history[..u.published] == t.history[..t.published];
      PushFloor(f, t, r);
    }
  }

  lemma PushFloor(f: Filter, t: Tail, r: Rec)
    requires CountsOk(t) && FloorOk(f, t) && Accounted(f, t) && MayPush(t, r)
    ensures FloorOk(f, t.(history := t.history + [r]))
  {
    if t.floor.Some? {
      HighestIs(t.backlog);
      forall i | 0 <= i < |t.backlog|
        ensures Listed(t.history + [r], t.backlog[i]) && t.backlog[i].seqno < r.seqno
      {
        ListedMore(t.history, t.backlog[i], [r]);
      }
    }
  }

  lemma KnownStays(t: Tail, u: Tail, r: Rec)
    requires Known(t, r) && t.sent == u.sent && t.floor == u.floor
    requires t.queue <= u.queue && t.lost <= u.lost
    ensures Known(u, r)
  {
    if Queued(t.queue, r) {
      var i :| 0 <= i < |t.queue| && t.queue[i] == Line(r);
      assert u.queue[i] == Line(r);
    } else if Queued(t.lost, r) {
      var i :| 0 <= i < |t.lost| && t.lost[i] == Line(r);
      assert u.lost[i] == Line(r);
    }
  }

  lemma PublishKeeps(f: Filter, t: Tail)
    requires Inv(f, t)
    ensures Inv(f, Take(f, t, Step.Publish))
  {
    if t.published < |t.history| {
      PublishOrder(f, t, t.history[..t.published], t.history[t.published]);
      assert t.history[..t.published + 1] == t.history[..t.published] + [t.history[t.published]];
      PublishAccounts(f, t);
    }
  }

  /** One more record is published, newer than all before; it may go to the end of the queue. */
  lemma PublishOrder(f: Filter, t: Tail, before: seq<Rec>, r: Rec)
    requires QueueOk(f, before, t.queue) && SentOk(f, before, t.queue, t.floor, t.sent) && forall i :: 0 <= i < |before| ==> before[i].seqno < r.seqno
    ensures QueueOk(f, before + [r], t.queue) && SentOk(f, before + [r], t.queue, t.floor, t.sent)
    ensures f.watches(r) ==> QueueOk(f, before + [r], t.queue + [Line(r)]) && SentOk(f, before + [r], t.queue + [Line(r)], t.floor, t.sent)
  {
    var after := before + [r];
    forall x | Listed(before, x)
      ensures Listed(after, x) && x.seqno < r.seqno
    {
      ListedMore(before, x, [r]);
    }
    assert after[|before|] == r;
  }

  lemma PublishAccounts(f: Filter, t: Tail)
    requires CountsOk(t) && Accounted(f, t) && t.published < |t.history|
    ensures Accounted(f, Take(f, t, Step.Publish))
  {
    var r := t.history[t.published];
    var u := Take(f, t, Step.Publish);
    if t.since.Some? {
      forall k | t.since.value <= k < u.published && f.watches(t.history[k]) && f.matches(t.history[k])
        ensures Known(u, t.history[k])
      {
        if k < t.published {
          KnownStays(t, u, t.history[k]);
        } else if |t.queue| < f.capacity {
          assert u.queue[|t.queue|] == Line(r);
        } else {
          assert u.lost[|t.lost|] == Line(r);
        }
      }
    }
  }

  lemma AnnounceOrder(f: Filter, published: seq<Rec>, queue: seq<Event>, floor: Option<nat>, sent: seq<Rec>)
    requires QueueOk(f, published, queue) && SentOk(f, published, queue, floor, sent)
    ensures QueueOk(f, published, queue + [StreamList]) && SentOk(f, published, queue + [StreamList], floor, sent)
  {
  }

  lemma AnnounceAccounts(f: Filter, t: Tail)
    requires t.published <= |t.history| && Accounted(f, t)
    ensures Accounted(f, Take(f, t, Announce))
  {
    var u := Take(f, t, Announce);
    if t.since.Some? {
      forall k | t.since.value <= k < t.published && f.watches(t.history[k]) && f.matches(t.history[k])
        ensures Known(u, t.history[k])
      {
        KnownStays(t, u, t.history[k]);
      }
    }
  }

  lemma AnnounceKeeps(f: Filter, t: Tail)
    requires Inv(f, t)
    ensures Inv(f, Take(f, t, Announce))
  {
    AnnounceOrder(f, t.history[..t.published], t.queue, t.floor, t.sent);
    AnnounceAccounts(f, t);
  }

  lemma {:induction false} SelectIs(p: Rec -> bool, recs: seq<Rec>)
    requires Rising(recs)
    ensures Rising(Select(p, recs)) && forall r :: Listed(Select(p, recs), r) <==> Listed(recs, r) && p(r)
    decreases |recs|
  {
    if recs != [] {
      var n := |recs| - 1;
      SelectIs(p, recs[..n]);
      var front := Select(p, recs[..n]);
      forall i | 0 <= i < |front|
        ensures front[i].seqno < recs[n].seqno
      {
        assert Listed(front, front[i]);
      }
      forall r
        ensures Listed(Select(p, recs), r) <==> Listed(recs, r) && p(r)
      {
        ListedLast(recs, r);
        assert Listed(front, r) <==> Listed(recs[..n], r) && p(r);
        if p(recs[n]) {
          assert Select(p, recs) == front + [recs[n]];
          ListedLast(front + [recs[n]], r);
          assert (front + [recs[n]])[..|front|] == front;
        } else {
          assert Select(p, recs) == front;
        }
      }
    }
  }

  lemma ListedLast(recs: seq<Rec>, r: Rec)
    requires recs != []
    ensures Listed(recs, r) <==> Listed(recs[..|recs| - 1], r) || recs[|recs| - 1] == r
  {
    if Listed(recs, r) {
      var i :| 0 <= i < |recs| && recs[i] == r;
      assert i < |recs| - 1 ==> recs[..|recs| - 1][i] == r;
    }
    if Listed(recs[..|recs| - 1], r) {
      var i :| 0 <= i < |recs| - 1 && recs[..|recs| - 1][i] == r;
      assert recs[i] == r;
    }
  }

  lemma LastHas(recs: seq<Rec>, n: nat, r: Rec)
    requires Rising(recs) && n > 0
    ensures var last := LastN(recs, n);
            && (Listed(last, r) <==> Listed(recs, r) && last != [] && r.seqno >= last[0].seqno)
            && (Listed(recs, r) ==> last != [] && r.seqno <= last[|last| - 1].seqno)
  {
    var last := LastN(recs, n);
    var k := |recs| - |last|;
    if Listed(last, r) {
      var i :| 0 <= i < |last| && last[i] == r;
      assert recs[i + k] == r;
    }
    if Listed(recs, r) {
      var i :| 0 <= i < |recs| && recs[i] == r;
      assert last[|last| - 1] == recs[|recs| - 1];
      assert i >= k ==> last[i - k] == r;
    }
  }

  /** The backlog: of what is watched, everything at or above its first, and nothing is above its highest. */
  lemma BacklogHas(f: Filter, history: seq<Rec>, r: Rec)
    requires Rising(history) && f.size > 0
    ensures var backlog := BacklogOf(f, history);
            && (Listed(backlog, r) <==> Listed(history, r) && f.watches(r) && backlog != [] && r.seqno >= backlog[0].seqno)
            && (Listed(history, r) && f.watches(r) ==> r.seqno <= Highest(backlog))
  {
    SelectIs(f.watches, history);
    LastHas(Select(f.watches, history), f.size, r);
    HighestIs(BacklogOf(f, history));
  }

  lemma BacklogRises(f: Filter, history: seq<Rec>)
    requires Rising(history)
    ensures Rising(BacklogOf(f, history)) && Rising(Select(f.matches, BacklogOf(f, history)))
    ensures forall r :: Listed(Select(f.matches, BacklogOf(f, history)), r) <==> Listed(BacklogOf(f, history), r) && f.matches(r)
  {
    SelectIs(f.watches, history);
    SelectIs(f.matches, BacklogOf(f, history));
  }

  lemma ReadBacklogKeeps(f: Filter, t: Tail)
    requires Inv(f, t) && f.size > 0
    ensures Inv(f, Take(f, t, ReadBacklog))
  {
    if t.since.Some? && t.floor.None? {
      ReadBacklogSent(f, t);
      ReadBacklogAccounts(f, t);
      ReadBacklogFloor(f, t);
    }
  }

  lemma ReadBacklogSent(f: Filter, t: Tail)
    requires Rising(t.history) && t.published <= |t.history| && f.size > 0 && t.since.Some? && t.floor.None? && t.sent == []
    requires QueueOk(f, t.history[..t.published], t.queue)
    ensures var u := Take(f, t, ReadBacklog); SentOk(f, t.history[..t.published], u.queue, u.floor, u.sent)
  {
    var u := Take(f, t, ReadBacklog);
    BacklogRises(f, t.history);
    assert u.sent == Select(f.matches, u.backlog);
    HighestIs(u.backlog);
    forall i | 0 <= i < |u.sent|
      ensures f.matches(u.sent[i]) && u.sent[i].seqno <= u.floor.value
    {
      assert Listed(u.sent, u.sent[i]);
    }
    QueueBelowFloor(f, t);
  }

  /** Everything queued by the time the backlog is read is in it, or older. */
  lemma QueueBelowFloor(f: Filter, t: Tail)
    requires Rising(t.history) && t.published <= |t.history| && f.size > 0 && QueueOk(f, t.history[..t.published], t.queue)
    ensures forall j :: 0 <= j < |t.queue| && t.queue[j].Line? ==> t.queue[j].r.seqno <= Highest(BacklogOf(f, t.history))
  {
    forall j | 0 <= j < |t.queue| && t.queue[j].Line?
      ensures t.queue[j].r.seqno <= Highest(BacklogOf(f, t.history))
    {
      ListedEarlier(t.history, t.published, t.queue[j].r);
      BacklogHas(f, t.history, t.queue[j].r);
    }
  }

  lemma ListedEarlier(recs: seq<Rec>, n: nat, r: Rec)
    requires n <= |recs| && Listed(recs[..n], r)
    ensures Listed(recs, r)
  {
    var i :| 0 <= i < n && recs[..n][i] == r;
    assert recs[i] == r;
  }

  lemma ReadBacklogAccounts(f: Filter, t: Tail)
    requires Rising(t.history) && t.published <= |t.history| && f.size > 0 && t.since.Some? && t.floor.None? && Accounted(f, t)
    ensures Accounted(f, Take(f, t, ReadBacklog))
  {
    forall k | 0 <= k < |t.history| && f.watches(t.history[k])
      ensures t.history[k].seqno <= Highest(BacklogOf(f, t.history))
    {
      assert Listed(t.history, t.history[k]);
      BacklogHas(f, t.history, t.history[k]);
    }
  }

  lemma ReadBacklogFloor(f: Filter, t: Tail)
    requires CountsOk(t) && f.size > 0 && t.since.Some? && t.floor.None? && t.sent == []
    ensures FloorOk(f, Take(f, t, ReadBacklog))
  {
    var u := Take(f, t, ReadBacklog);
    BacklogRises(f, t.history);
    assert u.sent == Select(f.matches, u.backlog);
    forall i | 0 <= i < |u.backlog|
      ensures Listed(t.history, u.backlog[i]) && (f.matches(u.backlog[i]) ==> Listed(u.sent, u.backlog[i]))
    {
      assert Listed(u.backlog, u.backlog[i]);
      BacklogHas(f, t.history, u.backlog[i]);
    }
    forall k | 0 <= k < |t.history| && f.watches(t.history[k])
      ensures t.history[k].seqno <= u.floor.value
      ensures u.backlog != [] && t.history[k].seqno >= u.backlog[0].seqno ==> Listed(u.backlog, t.history[k])
    {
      assert Listed(t.history, t.history[k]);
      BacklogHas(f, t.history, t.history[k]);
    }
  }

  lemma ReceiveKeeps(f: Filter, t: Tail)
    requires Inv(f, t)
    ensures Inv(f, Take(f, t, Receive))
  {
    if t.floor.Some? && t.queue != [] {
      ReceiveOrder(f, t);
      ReceiveAccounts(f, t);
      ReceiveFloor(f, t);
    }
  }

  lemma ReceiveOrder(f: Filter, t: Tail)
    requires QueueOk(f, t.history[..if t.published <= |t.history| then t.published else 0], t.queue)
    requires t.published <= |t.history| && SentOk(f, t.history[..t.published], t.queue, t.floor, t.sent) && t.floor.Some? && t.queue != []
    ensures var u := Take(f, t, Receive);
            QueueOk(f, t.history[..t.published], u.queue) && SentOk(f, t.history[..t.published], u.queue, u.floor, u.sent)
  {
    var u := Take(f, t, Receive);
    forall i | 0 <= i < |u.queue|
      ensures u.queue[i] == t.queue[i + 1]
    {
    }
  }

  lemma ReceiveAccounts(f: Filter, t: Tail)
    requires t.published <= |t.history| && Accounted(f, t) && t.floor.Some? && t.queue != []
    ensures Accounted(f, Take(f, t, Receive))
  {
    var u := Take(f, t, Receive);
    if t.since.Some? {
      forall k | t.since.value <= k < t.published && f.watches(t.history[k]) && f.matches(t.history[k])
        ensures Known(u, t.history[k])
      {
        ReceivedIsKnown(f, t, t.history[k]);
      }
    }
  }

  lemma ReceivedIsKnown(f: Filter, t: Tail, r: Rec)
    requires t.floor.Some? && t.queue != [] && Known(t, r) && f.matches(r)
    ensures Known(Take(f, t, Receive), r)
  {
    var u := Take(f, t, Receive);
    if Queued(t.queue, r) {
      var i :| 0 <= i < |t.queue| && t.queue[i] == Line(r);
      if i > 0 {
        assert u.queue[i - 1] == Line(r);
      } else if r.seqno > t.floor.value {
        assert u.sent[|t.sent|] == r;
      }
    } else if Listed(t.sent, r) {
      var i :| 0 <= i < |t.sent| && t.sent[i] == r;
      assert u.sent[i] == r;
    }
  }

  lemma ReceiveFloor(f: Filter, t: Tail)
    requires FloorOk(f, t) && t.floor.Some? && t.queue != []
    ensures FloorOk(f, Take(f, t, Receive))
  {
    var u := Take(f, t, Receive);
    forall r | Listed(t.sent, r)
      ensures Listed(u.sent, r)
    {
      var i :| 0 <= i < |t.sent| && t.sent[i] == r;
      assert u.sent[i] == r;
    }
  }

  lemma TakeKeeps(f: Filter, t: Tail, step: Step)
    requires Inv(f, t) && f.size > 0
    ensures Inv(f, Take(f, t, step))
  {
    match step
    case Push(r) => PushKeeps(f, t, r);
    case Publish => PublishKeeps(f, t);
    case Announce => AnnounceKeeps(f, t);
    case Subscribe =>
    case ReadBacklog => ReadBacklogKeeps(f, t);
    case Receive => ReceiveKeeps(f, t);
    case Report =>
  }

  lemma {:induction false} RunInv(f: Filter, steps: seq<Step>)
    requires f.size > 0
    ensures Inv(f, Run(f, steps))
    decreases |steps|
  {
    if steps != [] {
      RunInv(f, steps[..|steps| - 1]);
      TakeKeeps(f, Run(f, steps[..|steps| - 1]), steps[|steps| - 1]);
    }
  }

  // ---- what a client can rely on ----

  /** Backlog and lines together, the numbers sent strictly increase: nothing is sent twice or out of order, and only what matches. */
  lemma SentInOrder(f: Filter, steps: seq<Step>)
    requires f.size > 0
    ensures var t := Run(f, steps); Rising(t.sent) && forall i :: 0 <= i < |t.sent| ==> f.matches(t.sent[i])
  {
    RunInv(f, steps);
  }

  /**
   * Every record the tail is for, from the first of its backlog on, is sent, or in the queue, or not
   * published yet, or was dropped; and the count of what was dropped is exact, and reported truly.
   */
  lemma NoSilentGap(f: Filter, steps: seq<Step>, k: nat)
    requires f.size > 0
    requires var t := Run(f, steps);
             && t.floor.Some? && k < |t.history| && f.watches(t.history[k]) && f.matches(t.history[k])
             && (t.backlog != [] ==> t.history[k].seqno >= t.backlog[0].seqno)
    ensures var t := Run(f, steps);
            && (Listed(t.sent, t.history[k]) || Queued(t.queue, t.history[k]) || k >= t.published || Queued(t.lost, t.history[k]))
            && t.dropped == |t.lost| && t.told == t.reported <= t.dropped
  {
    RunInv(f, steps);
    var t := Run(f, steps);
    HighestIs(t.backlog);
  }
}

/** The subscription registry and the event loop, as they run. */
module TailSession {
  import opened Prelude
  import opened LiveTail
  import Store

  /** One live feed: a bounded channel, and how many events did not fit. */
  datatype Subscription = Subscription(stream: string, channel: seq<Event>, capacity: nat, dropped: nat)

  function Sent(s: Subscription, e: Event): Subscription {
    if |s.channel| < s.capacity then s.(channel := s.channel + [e]) else s.(dropped := s.dropped + 1)
  }

  predicate Wants(s: Subscription, e: Event) {
    e.StreamList? || s.stream == "" || s.stream == e.r.stream
  }

  class Fanout {
    var next: nat
    var subs: map<nat, Subscription>
    var closed: bool

    ghost predicate Valid()
      reads this
    {
      forall id :: id in subs ==> id < next
    }

    constructor ()
      ensures Valid() && subs == map[] && !closed
    {
      next, subs, closed := 0, map[], false;
    }

    /** Registers a feed, under a number no other has; a closed registry takes none. */
    method Subscribe(stream: string, buffer: int) returns (id: Option<nat>)
      requires Valid()
      modifies this`next, this`subs
      ensures Valid() && (id.None? <==> closed)
      ensures id.None? ==> subs == old(subs)
      ensures id.Some? ==> id.value !in old(subs) && subs == old(subs)[id.value := Subscription(stream, [], if buffer < 1 then 256 else buffer, 0)]
    {
      if closed {
        return None;
      }
      id := Some(next);
      subs := subs[next := Subscription(stream, [], if buffer < 1 then 256 else buffer, 0)];
      next := next + 1;
    }

    method Remove(id: nat)
      requires Valid()
      modifies this`subs
      ensures Valid() && subs == old(subs) - {id}
    {
      subs := subs - {id};
    }

    /** Delivers an event to every subscription that wants it, and stalls for none. */
    method Publish(e: Event)
      requires Valid()
      modifies this`subs
      ensures Valid() && subs.Keys == old(subs.Keys)
      ensures forall id :: id in subs ==>
                var s := old(subs)[id];
                if e.Line? && s.stream != "" && s.stream != e.r.stream then subs[id] == s
                else if |s.channel| < s.capacity then subs[id] == s.(channel := s.channel + [e])
                else subs[id] == s.(dropped := s.dropped + 1)
    {
      var left := subs.Keys;
      while left != {}
        invariant Valid() && subs.Keys == old(subs.Keys) && left <= subs.Keys
        invariant forall id :: id in subs ==>
                    subs[id] == if id !in left && Wants(old(subs)[id], e) then Sent(old(subs)[id], e) else old(subs)[id]
        decreases |left|
      {
        var id :| id in left;
        left := left - {id};
        if Wants(subs[id], e) {
          subs := subs[id := Sent(subs[id], e)];
        }
      }
    }

    method Close()
      modifies this`subs, this`closed
      ensures closed && subs == map[]
    {
      closed, subs := true, map[];
    }
  }

  /** A tail's own state; the rest of its world, and what it forgets, are ghost. */
  class Session {
    const f: Filter
    var queue: seq<Event>
    var dropped: nat
    var floor: Option<nat>
    var sent: seq<Store.Rec>
    var reported: nat
    ghost var world: Tail

    ghost function View(): Tail
      reads this
    {
      world.(queue := queue, dropped := dropped, floor := floor, sent := sent, reported := reported)
    }

    /** Delivers without blocking, counting what does not fit. */
    method Send(e: Event)
      modifies this`queue, this`dropped, this`world
      ensures View() == LiveTail.Send(f, old(View()), e)
    {
      if |queue| < f.capacity {
        queue := queue + [e];
      } else {
        dropped := dropped + 1;
        world := world.(lost := world.lost + [e]);
      }
    }

    /** Sends the backlog, filtered, and takes the highest number in it, wherever that stands, as the floor. */
    method SendBacklog(backlog: seq<Store.Rec>)
      requires floor.None? && world.since.Some? && backlog == BacklogOf(f, world.history)
      modifies this`floor, this`sent, this`world
      ensures View() == Take(f, old(View()), ReadBacklog)
    {
      var highest: nat, filtered := 0, [];
      var i := 0;
      while i < |backlog|
        invariant 0 <= i <= |backlog| && highest == Highest(backlog[..i]) && filtered == Select(f.matches, backlog[..i])
      {
        assert backlog[..i + 1][..i] == backlog[..i];
        if backlog[i].seqno > highest {
          highest := backlog[i].seqno;
        }
        if f.matches(backlog[i]) {
          filtered := filtered + [backlog[i]];
        }
        i := i + 1;
      }
      assert backlog[..|backlog|] == backlog;
      floor, sent := Some(highest), sent + filtered;
      world := world.(backlog := backlog);
    }

    /** Takes one event off the channel, and sends it if it was not in the backlog and is wanted. */
    method Receive()
      requires floor.Some? && queue != []
      modifies this`queue, this`sent
      ensures View() == Take(f, old(View()), Step.Receive)
    {
      var e := queue[0];
      queue := queue[1..];
      if e.Line? && e.r.seqno > floor.value && f.matches(e.r) {
        sent := sent + [e.r];
      }
    }

    /** Tells the client how many events it has missed since it was last told. */
    method Report() returns (missed: nat)
      modifies this`reported, this`world
      ensures View() == Take(f, old(View()), Step.Report)
      ensures missed == if old(dropped) > old(reported) then old(dropped) - old(reported) else 0
    {
      missed := 0;
      if dropped > reported {
        missed := dropped - reported;
        world := world.(told := world.told + missed);
        reported := dropped;
      }
    }
  }
}
