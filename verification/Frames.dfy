/**
 * The bytes of a write-ahead log segment, and the loop that reads them back.
 *
 * A segment is a magic header followed by frames of [u32 length][u32 checksum][payload],
 * integers little-endian. The payload encoding and the checksum are parameters: everything
 * here holds for any encoding that decodes what it encodes, and says what it asks of the
 * checksum.
 */
module Frames {
  import opened Prelude

  const Magic: seq<byte> := [82, 84, 87, 65, 76, 1]
  const MaxFrame: nat := 67108864

  type word32 = n: int | 0 <= n < 0x1_0000_0000

  datatype Codec<!R> = Codec(marshal: R -> seq<byte>, decode: seq<byte> -> Option<R>, crc: seq<byte> -> word32)

  /** What the model asks of the payload encoding: it is never empty and reads back as it was written. */
  ghost predicate Sound<R(!new)>(codec: Codec<R>) {
    forall r: R :: |codec.marshal(r)| > 0 && codec.decode(codec.marshal(r)) == Some(r)
  }

  predicate Fits<R>(codec: Codec<R>, r: R) {
    |codec.marshal(r)| <= MaxFrame
  }

  predicate AllFit<R>(codec: Codec<R>, rs: seq<R>) {
    forall i :: 0 <= i < |rs| ==> Fits(codec, rs[i])
  }

  // ---- little-endian words ----

  function Le32(n: word32): (s: seq<byte>)
    ensures |s| == 4
  {
    [n % 256, (n / 256) % 256, (n / 65536) % 256, (n / 16777216) % 256]
  }

  function FromLe32(s: seq<byte>): (n: word32)
    requires |s| == 4
  {
    s[0] as int + 256 * (s[1] as int) + 65536 * (s[2] as int) + 16777216 * (s[3] as int)
  }

  lemma Le32RoundTrip(n: word32)
    ensures FromLe32(Le32(n)) == n
  {
    var a := n / 256;
    var b := a / 256;
    assert n / 65536 == b;
    assert n / 16777216 == b / 256;
  }

  // ---- writing ----

  function RawFrame(payload: seq<byte>, sum: word32): (f: seq<byte>)
    requires |payload| <= MaxFrame
    ensures |f| == 8 + |payload|
  {
    Le32(|payload|) + Le32(sum) + payload
  }

  /** One frame: the length, the checksum of the payload, and the payload. */
  function Frame<R>(codec: Codec<R>, r: R): (f: seq<byte>)
    requires Fits(codec, r)
    ensures |f| == 8 + |codec.marshal(r)|
  {
    RawFrame(codec.marshal(r), codec.crc(codec.marshal(r)))
  }

  /** A frame byte by byte: the length and the checksum, each from its lowest byte up, and then the payload. */
  lemma FrameLayout<R>(codec: Codec<R>, r: R)
    requires Fits(codec, r)
    ensures var f, n, sum := Frame(codec, r), |codec.marshal(r)|, codec.crc(codec.marshal(r));
            && f[0] as int + 256 * (f[1] as int) + 65536 * (f[2] as int) + 16777216 * (f[3] as int) == n
            && f[4] as int + 256 * (f[5] as int) + 65536 * (f[6] as int) + 16777216 * (f[7] as int) == sum
            && f[8..] == codec.marshal(r)
  {
    var f, n, sum := Frame(codec, r), |codec.marshal(r)|, codec.crc(codec.marshal(r));
    assert f[..4] == Le32(n) && f[4..8] == Le32(sum);
    Le32RoundTrip(n);
    Le32RoundTrip(sum);
    assert forall i :: 0 <= i < 4 ==> f[i] == f[..4][i] && f[4 + i] == f[4..8][i];
  }

  function Encode<R>(codec: Codec<R>, rs: seq<R>): (s: seq<byte>)
    requires AllFit(codec, rs)
  {
    if rs == [] then [] else Encode(codec, rs[..|rs| - 1]) + Frame(codec, rs[|rs| - 1])
  }

  /** A whole segment holding rs. */
  function Segment<R>(codec: Codec<R>, rs: seq<R>): (s: seq<byte>)
    requires AllFit(codec, rs)
  {
    Magic + Encode(codec, rs)
  }

  lemma {:induction false} EncodeAppend<R>(codec: Codec<R>, a: seq<R>, b: seq<R>)
    requires AllFit(codec, a) && AllFit(codec, b)
    ensures AllFit(codec, a + b) && Encode(codec, a + b) == Encode(codec, a) + Encode(codec, b)
  {
    if b == [] {
      assert a + b == a;
    } else {
      var n := |b| - 1;
      assert (a + b)[..|a + b| - 1] == a + b[..n];
      EncodeAppend(codec, a, b[..n]);
    }
  }

  lemma EncodeCons<R>(codec: Codec<R>, rs: seq<R>)
    requires rs != [] && AllFit(codec, rs)
    ensures Encode(codec, rs) == Frame(codec, rs[0]) + Encode(codec, rs[1..])
  {
    assert rs == [rs[0]] + rs[1..];
    assert [rs[0]][..0] == [];
    EncodeAppend(codec, [rs[0]], rs[1..]);
  }

  // ---- reading ----

  datatype Ending = Clean | Corrupt

  datatype Replayed<R> = Replayed(records: seq<R>, ending: Ending)

  predicate AllZero(s: seq<byte>) {
    forall i :: 0 <= i < |s| ==> s[i] == 0
  }

  function Zeros(n: nat): (s: seq<byte>)
    ensures |s| == n && AllZero(s)
  {
    seq(n, _ => 0)
  }

  /** Whether the frame at the front of s is whole. */
  predicate Whole(s: seq<byte>) {
    |s| >= 8 && FromLe32(s[..4]) <= MaxFrame && |s| >= 8 + FromLe32(s[..4])
  }

  function PayloadOf(s: seq<byte>): seq<byte>
    requires Whole(s)
  {
    s[8..8 + FromLe32(s[..4])]
  }

  function After(s: seq<byte>): seq<byte>
    requires Whole(s)
  {
    s[8 + FromLe32(s[..4])..]
  }

  /** Whether replay accepts the frame at the front of s: not empty, and its checksum holds. */
  predicate Passes<R>(codec: Codec<R>, s: seq<byte>)
    requires Whole(s)
  {
    FromLe32(s[..4]) != 0 && codec.crc(PayloadOf(s)) == FromLe32(s[4..8])
  }

  /** What replay makes of the bytes after the header. */
  function ReadFrames<R>(codec: Codec<R>, s: seq<byte>): Replayed<R>
    decreases |s|
  {
    if |s| < 8 then Replayed([], Clean)
    else if FromLe32(s[..4]) > MaxFrame then Replayed([], Corrupt)
    else if |s| < 8 + FromLe32(s[..4]) then Replayed([], Clean)
    else if !Passes(codec, s) then Replayed([], if AllZero(After(s)) then Clean else Corrupt)
    else
      match codec.decode(PayloadOf(s))
      case None => Replayed([], Corrupt)
      case Some(r) =>
        var rest := ReadFrames(codec, After(s));
        Replayed([r] + rest.records, rest.ending)
  }

  /** What replay makes of a whole segment file. */
  function ReadSegment<R>(codec: Codec<R>, s: seq<byte>): Replayed<R> {
    if |s| < |Magic| then Replayed([], Clean)
    else if s[..|Magic|] != Magic then Replayed([], Corrupt)
    else ReadFrames(codec, s[|Magic|..])
  }

  // ---- what is written is what is read ----

  lemma RawFrameParts(payload: seq<byte>, sum: word32, tail: seq<byte>)
    requires |payload| <= MaxFrame
    ensures var s := RawFrame(payload, sum) + tail;
            Whole(s) && PayloadOf(s) == payload && After(s) == tail && FromLe32(s[..4]) == |payload| && FromLe32(s[4..8]) == sum
  {
    var s := RawFrame(payload, sum) + tail;
    assert s[..4] == Le32(|payload|);
    assert s[4..8] == Le32(sum);
    Le32RoundTrip(|payload|);
    Le32RoundTrip(sum);
  }

  lemma ReadOne<R(!new)>(codec: Codec<R>, r: R, rest: seq<byte>)
    requires Sound(codec) && Fits(codec, r)
    ensures ReadFrames(codec, Frame(codec, r) + rest) ==
            Replayed([r] + ReadFrames(codec, rest).records, ReadFrames(codec, rest).ending)
  {
    RawFrameParts(codec.marshal(r), codec.crc(codec.marshal(r)), rest);
  }

  lemma {:induction false} ReadEncoded<R(!new)>(codec: Codec<R>, rs: seq<R>, tail: seq<byte>, end: Replayed<R>)
    requires Sound(codec) && AllFit(codec, rs) && end == ReadFrames(codec, tail)
    ensures ReadFrames(codec, Encode(codec, rs) + tail) == Replayed(rs + end.records, end.ending)
    decreases |rs|
  {
    if rs == [] {
      assert Encode(codec, rs) + tail == tail;
      assert rs + end.records == end.records;
    } else {
      var n := |rs| - 1;
      var last := Frame(codec, rs[n]) + tail;
      ReadOne(codec, rs[n], tail);
      ReadEncoded(codec, rs[..n], last, Replayed([rs[n]] + end.records, end.ending));
      Assoc(Encode(codec, rs[..n]), Frame(codec, rs[n]), tail);
      Regroup(rs, end.records);
    }
  }

  // ---- a torn tail ----

  /** The bytes of s up to cut, and zeros in place of the rest. */
  function ZeroFilled(s: seq<byte>, cut: nat): (t: seq<byte>)
    requires cut <= |s|
    ensures |t| == |s|
  {
    s[..cut] + Zeros(|s| - cut)
  }

  /**
   * What the torn-write theorems ask of the checksum: a frame cut short anywhere and filled
   * out with zeros does not pass for a frame.
   */
  ghost predicate RejectsTorn<R>(codec: Codec<R>, r: R)
    requires Fits(codec, r)
  {
    forall cut :: 0 <= cut < |Frame(codec, r)| && Whole(ZeroFilled(Frame(codec, r), cut)) ==>
      !Passes(codec, ZeroFilled(Frame(codec, r), cut))
  }

  ghost predicate AllRejectTorn<R>(codec: Codec<R>, rs: seq<R>)
    requires AllFit(codec, rs)
  {
    forall i :: 0 <= i < |rs| ==> RejectsTorn(codec, rs[i])
  }

  lemma LengthShrinks(f: seq<byte>, t: seq<byte>)
    requires |f| == 4 && |t| == 4
    requires exists cut :: 0 <= cut <= 4 && t == f[..cut] + Zeros(4 - cut)
    ensures FromLe32(t) <= FromLe32(f)
  {
    var cut :| 0 <= cut <= 4 && t == f[..cut] + Zeros(4 - cut);
    assert forall i :: 0 <= i < 4 ==> t[i] <= f[i];
  }

  /** The words at the front of a torn frame: its length is no longer than the frame's. */
  lemma TornLength<R>(codec: Codec<R>, r: R, cut: nat, zeros: nat)
    requires Fits(codec, r) && cut < |Frame(codec, r)| && cut + zeros >= 8
    ensures FromLe32((Frame(codec, r)[..cut] + Zeros(zeros))[..4]) <= |codec.marshal(r)|
    ensures cut >= 4 ==> FromLe32((Frame(codec, r)[..cut] + Zeros(zeros))[..4]) == |codec.marshal(r)|
  {
    var f := Frame(codec, r);
    var s := f[..cut] + Zeros(zeros);
    var c4 := if cut < 4 then cut else 4;
    assert f[..4] == Le32(|codec.marshal(r)|);
    Le32RoundTrip(|codec.marshal(r)|);
    assert s[..4] == f[..4][..c4] + Zeros(4 - c4);
    LengthShrinks(f[..4], s[..4]);
  }

  /** A frame cut short, with any number of zeros after it, reads as nothing at all. */
  lemma TornReadsAsNothing<R>(codec: Codec<R>, r: R, cut: nat, zeros: nat)
    requires Fits(codec, r) && RejectsTorn(codec, r) && cut < |Frame(codec, r)|
    ensures ReadFrames(codec, Frame(codec, r)[..cut] + Zeros(zeros)) == Replayed([], Clean)
  {
    var f := Frame(codec, r);
    var s := f[..cut] + Zeros(zeros);
    if |s| >= 8 {
      TornLength(codec, r, cut, zeros);
      var n := FromLe32(s[..4]);
      if |s| >= 8 + n {
        TornFails(codec, r, cut, zeros);
        assert AllZero(After(s));
      }
    }
  }

  lemma TornFails<R>(codec: Codec<R>, r: R, cut: nat, zeros: nat)
    requires Fits(codec, r) && RejectsTorn(codec, r) && cut < |Frame(codec, r)| && cut + zeros >= 8
    requires Whole(Frame(codec, r)[..cut] + Zeros(zeros))
    ensures !Passes(codec, Frame(codec, r)[..cut] + Zeros(zeros))
  {
    var f := Frame(codec, r);
    var s := f[..cut] + Zeros(zeros);
    var t := ZeroFilled(f, cut);
    TornLength(codec, r, cut, zeros);
    var n := FromLe32(s[..4]);
    assert s[..4] == t[..4] && s[4..8] == t[4..8] && s[8..8 + n] == t[8..8 + n];
  }

  lemma ZerosReadAsNothing<R>(codec: Codec<R>, zeros: nat)
    ensures ReadFrames(codec, Zeros(zeros)) == Replayed([], Clean)
  {
    var s := Zeros(zeros);
    if zeros >= 8 {
      assert FromLe32(s[..4]) == 0;
    }
  }

  // ---- theorems about replay ----

  /** How many of rs lie wholly within the first k bytes of their segment. */
  function Complete<R>(codec: Codec<R>, rs: seq<R>, k: nat): (m: nat)
    requires AllFit(codec, rs)
    ensures m <= |rs|
  {
    if rs == [] then 0
    else if |Segment(codec, rs)| <= k then |rs|
    else Complete(codec, rs[..|rs| - 1], k)
  }

  lemma {:induction false} CompleteBounds<R>(codec: Codec<R>, rs: seq<R>, k: nat)
    requires AllFit(codec, rs) && |Magic| <= k <= |Segment(codec, rs)|
    ensures var m := Complete(codec, rs, k);
            |Segment(codec, rs[..m])| <= k && (m < |rs| ==> k < |Segment(codec, rs[..m])| + |Frame(codec, rs[m])|)
    decreases |rs|
  {
    if rs != [] && |Segment(codec, rs)| > k {
      var n := |rs| - 1;
      assert |Segment(codec, rs)| == |Segment(codec, rs[..n])| + |Frame(codec, rs[n])|;
      if k < |Segment(codec, rs[..n])| {
        CompleteBounds(codec, rs[..n], k);
        var m := Complete(codec, rs[..n], k);
        assert rs[..n][..m] == rs[..m] && (m < n ==> rs[..n][m] == rs[m]);
      } else {
        CompleteAll(codec, rs[..n], k);
      }
    }
    assert rs[..|rs|] == rs;
  }

  lemma CompleteAll<R>(codec: Codec<R>, rs: seq<R>, k: nat)
    requires AllFit(codec, rs) && |Segment(codec, rs)| <= k
    ensures Complete(codec, rs, k) == |rs|
  {
  }

  /** Every record whose frame ends at or before k counts as complete. */
  lemma {:induction false} CompleteCovers<R>(codec: Codec<R>, rs: seq<R>, k: nat, n: nat)
    requires AllFit(codec, rs) && n <= |rs| && |Segment(codec, rs[..n])| <= k
    ensures n <= Complete(codec, rs, k)
    decreases |rs|
  {
    if n == |rs| {
      assert rs[..n] == rs;
      CompleteAll(codec, rs, k);
    } else if |Segment(codec, rs)| > k {
      assert rs[..|rs| - 1][..n] == rs[..n];
      CompleteCovers(codec, rs[..|rs| - 1], k, n);
    }
  }

  lemma SegmentSplit<R>(codec: Codec<R>, rs: seq<R>, m: nat)
    requires AllFit(codec, rs) && m < |rs|
    ensures Segment(codec, rs) == Segment(codec, rs[..m]) + Frame(codec, rs[m]) + Encode(codec, rs[m + 1..])
  {
    assert rs == rs[..m] + rs[m..];
    EncodeAppend(codec, rs[..m], rs[m..]);
    EncodeCons(codec, rs[m..]);
    assert rs[m..][1..] == rs[m + 1..];
    Assoc(Magic, Encode(codec, rs[..m]), Encode(codec, rs[m..]));
    Assoc(Segment(codec, rs[..m]), Frame(codec, rs[m]), Encode(codec, rs[m + 1..]));
  }

  lemma ReadSegmentThen<R(!new)>(codec: Codec<R>, rs: seq<R>, tail: seq<byte>)
    requires Sound(codec) && AllFit(codec, rs)
    ensures ReadSegment(codec, Segment(codec, rs) + tail) ==
            Replayed(rs + ReadFrames(codec, tail).records, ReadFrames(codec, tail).ending)
  {
    var s := Segment(codec, rs) + tail;
    assert s[..|Magic|] == Magic;
    assert s[|Magic|..] == Encode(codec, rs) + tail;
    ReadEncoded(codec, rs, tail, ReadFrames(codec, tail));
  }

  lemma CutSegment<R>(codec: Codec<R>, rs: seq<R>, m: nat, k: nat, zeros: seq<byte>)
    requires AllFit(codec, rs) && m < |rs|
    requires |Segment(codec, rs[..m])| <= k <= |Segment(codec, rs[..m])| + |Frame(codec, rs[m])|
    requires k <= |Segment(codec, rs)|
    ensures Segment(codec, rs)[..k] + zeros ==
            Segment(codec, rs[..m]) + (Frame(codec, rs[m])[..k - |Segment(codec, rs[..m])|] + zeros)
  {
    SegmentSplit(codec, rs, m);
  }

  /**
   * A segment cut at any byte and extended by any number of zeros replays exactly its complete
   * frames, with no error -- unless the cut falls inside the header and the zeros fill it out,
   * which reads as a header that is not this format's.
   */
  lemma ReplayOfCutSegment<R(!new)>(codec: Codec<R>, rs: seq<R>, k: nat, zeros: nat)
    requires Sound(codec) && AllFit(codec, rs) && AllRejectTorn(codec, rs) && k <= |Segment(codec, rs)|
    ensures ReadSegment(codec, Segment(codec, rs)[..k] + Zeros(zeros)) ==
            if k < |Magic| <= k + zeros then Replayed([], Corrupt) else Replayed(rs[..Complete(codec, rs, k)], Clean)
  {
    var s := Segment(codec, rs)[..k] + Zeros(zeros);
    var m := Complete(codec, rs, k);
    if k < |Magic| {
      HeaderCut(codec, rs, k);
      if |Magic| <= k + zeros {
        assert s[5] == 0 && Magic[5] == 1;
      }
    } else {
      CompleteBounds(codec, rs, k);
      if m == |rs| {
        assert rs[..m] == rs;
        assert Segment(codec, rs)[..k] == Segment(codec, rs);
        ReadSegmentThen(codec, rs, Zeros(zeros));
        ZerosReadAsNothing(codec, zeros);
        assert rs + [] == rs;
      } else {
        var cut := k - |Segment(codec, rs[..m])|;
        CutSegment(codec, rs, m, k, Zeros(zeros));
        ReadSegmentThen(codec, rs[..m], Frame(codec, rs[m])[..cut] + Zeros(zeros));
        TornReadsAsNothing(codec, rs[m], cut, zeros);
        assert rs[..m] + [] == rs[..m];
      }
    }
  }

  lemma {:induction false} HeaderCut<R>(codec: Codec<R>, rs: seq<R>, k: nat)
    requires AllFit(codec, rs) && k < |Magic|
    ensures Complete(codec, rs, k) == 0
    decreases |rs|
  {
    if rs != [] {
      HeaderCut(codec, rs[..|rs| - 1], k);
    }
  }

  /**
   * A payload altered with its length left alone, in a way the checksum notices: replay yields
   * exactly the records before it, and reports the damage if and only if anything but zeros
   * follows the altered frame.
   */
  lemma ReplayOfDamagedSegment<R(!new)>(codec: Codec<R>, rs: seq<R>, i: nat, altered: seq<byte>, after: seq<byte>)
    requires Sound(codec) && AllFit(codec, rs) && i < |rs|
    requires |altered| == |codec.marshal(rs[i])| && codec.crc(altered) != codec.crc(codec.marshal(rs[i]))
    ensures ReadSegment(codec, Segment(codec, rs[..i]) + (RawFrame(altered, codec.crc(codec.marshal(rs[i]))) + after)) ==
            Replayed(rs[..i], if AllZero(after) then Clean else Corrupt)
  {
    var sum := codec.crc(codec.marshal(rs[i]));
    ReadSegmentThen(codec, rs[..i], RawFrame(altered, sum) + after);
    RawFrameParts(altered, sum, after);
    assert rs[..i] + [] == rs[..i];
  }

  /** Damage anywhere but in the last record is always reported. */
  lemma DamageBeforeTheLastIsReported<R(!new)>(codec: Codec<R>, rs: seq<R>, i: nat, altered: seq<byte>)
    requires Sound(codec) && AllFit(codec, rs) && i + 1 < |rs|
    requires |altered| == |codec.marshal(rs[i])| && codec.crc(altered) != codec.crc(codec.marshal(rs[i]))
    ensures ReadSegment(codec, Segment(codec, rs[..i]) + (RawFrame(altered, codec.crc(codec.marshal(rs[i]))) + Encode(codec, rs[i + 1..]))) ==
            Replayed(rs[..i], Corrupt)
  {
    FramesAreNotZeros(codec, rs[i + 1..], []);
    assert Encode(codec, rs[i + 1..]) + [] == Encode(codec, rs[i + 1..]);
    ReplayOfDamagedSegment(codec, rs, i, altered, Encode(codec, rs[i + 1..]));
  }

  /** The next frame is not zeros. */
  lemma FramesAreNotZeros<R(!new)>(codec: Codec<R>, rs: seq<R>, after: seq<byte>)
    requires Sound(codec) && AllFit(codec, rs) && rs != []
    ensures !AllZero(Encode(codec, rs) + after)
  {
    EncodeCons(codec, rs);
    var n := |codec.marshal(rs[0])|;
    var s := Encode(codec, rs) + after;
    assert s[..4] == Le32(n);
    Le32RoundTrip(n);
    assert FromLe32(Le32(n)) != 0;
    var j :| 0 <= j < 4 && Le32(n)[j] != 0;
    assert s[j] != 0;
  }

  function RawEncode<R>(codec: Codec<R>, payloads: seq<seq<byte>>): (s: seq<byte>)
    requires forall p :: p in payloads ==> |p| <= MaxFrame
  {
    if payloads == [] then []
    else RawFrame(payloads[0], codec.crc(payloads[0])) + RawEncode(codec, payloads[1..])
  }

  ghost predicate Decodes<R>(codec: Codec<R>, payloads: seq<seq<byte>>, rs: seq<R>) {
    && |payloads| == |rs|
    && (forall p :: p in payloads ==> 0 < |p| <= MaxFrame)
    && (forall i :: 0 <= i < |rs| ==> codec.decode(payloads[i]) == Some(rs[i]))
  }

  /** Whatever the bytes, every record replay yields is a whole frame of them, checksum and all, in order. */
  lemma {:induction false} ReplayInventsNothing<R>(codec: Codec<R>, s: seq<byte>) returns (payloads: seq<seq<byte>>)
    ensures Decodes(codec, payloads, ReadFrames(codec, s).records)
    ensures IsPrefix(RawEncode(codec, payloads), s)
    decreases |s|
  {
    payloads := [];
    if ReadFrames(codec, s).records != [] {
      var rest := ReplayInventsNothing(codec, After(s));
      payloads := [PayloadOf(s)] + rest;
      assert payloads[1..] == rest;
      Le32OfFrom(s[..4]);
      Le32OfFrom(s[4..8]);
      var f := RawFrame(PayloadOf(s), codec.crc(PayloadOf(s)));
      assert f == s[..|f|];
      assert s[|f|..] == After(s);
    }
  }

  lemma Le32OfFrom(s: seq<byte>)
    requires |s| == 4
    ensures Le32(FromLe32(s)) == s
  {
    var n := FromLe32(s);
    assert n / 256 == s[1] as int + 256 * (s[2] as int) + 65536 * (s[3] as int);
    assert n / 65536 == s[2] as int + 256 * (s[3] as int);
    assert n / 16777216 == s[3] as int;
  }

  // ---- the read loops ----

  /** Whether everything left of a file is zero bytes, including nothing at all. */
  method ZeroToEnd(s: seq<byte>) returns (zero: bool)
    ensures zero == AllZero(s)
  {
    var i := 0;
    while i < |s|
      invariant 0 <= i <= |s|
      invariant forall j :: 0 <= j < i ==> s[j] == 0
    {
      if s[i] != 0 {
        return false;
      }
      i := i + 1;
    }
    return true;
  }

  /** Reads a segment file frame by frame. */
  method Replay<R>(codec: Codec<R>, s: seq<byte>) returns (records: seq<R>, ending: Ending)
    ensures Replayed(records, ending) == ReadSegment(codec, s)
  {
    records := [];
    if |s| < |Magic| {
      return [], Clean;
    }
    if s[..|Magic|] != Magic {
      return [], Corrupt;
    }
    var rest := s[|Magic|..];
    while true
      invariant ReadSegment(codec, s) ==
                Replayed(records + ReadFrames(codec, rest).records, ReadFrames(codec, rest).ending)
      decreases |rest|
    {
      assert records + [] == records;
      if |rest| < 8 {
        return records, Clean;
      }
      var length, sum := FromLe32(rest[..4]), FromLe32(rest[4..8]);
      if length > MaxFrame {
        return records, Corrupt;
      }
      if |rest| < 8 + length {
        return records, Clean;
      }
      var payload := rest[8..8 + length];
      if length == 0 || codec.crc(payload) != sum {
        var torn := ZeroToEnd(rest[8 + length..]);
        return records, if torn then Clean else Corrupt;
      }
      match codec.decode(payload)
      case None =>
        return records, Corrupt;
      case Some(r) =>
        var more := ReadFrames(codec, rest[8 + length..]).records;
        Assoc(records, [r], more);
        records := records + [r];
        rest := rest[8 + length..];
    }
  }
}
