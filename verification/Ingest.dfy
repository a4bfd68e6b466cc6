/**
 * Line ingest that can be resumed: however the body arrives and wherever storage first refuses, what is
 * stored is exactly the lines counted as accepted, so sending the rest from there stores each line once.
 */
module Ingest {
  import opened Prelude

  const Newline: byte := 10

  /** The longest line stored; the rest of a longer one is read and thrown away. */
  const MaxLine: nat := 1048576

  /** Whether there is nothing but white space in a line. */
  type Blank = seq<byte> -> bool

  // ---- lines of a body ----

  ghost predicate HasNewline(s: seq<byte>) {
    exists i :: 0 <= i < |s| && s[i] == Newline
  }

  /** The first line, without its newline. */
  function First(s: seq<byte>): seq<byte> {
    if s == [] || s[0] == Newline then [] else [s[0]] + First(s[1..])
  }

  /** What comes after the first line and its newline. */
  function After(s: seq<byte>): (r: seq<byte>)
    ensures s != [] ==> |r| < |s|
    ensures s == [] ==> r == []
  {
    if s == [] then [] else if s[0] == Newline then s[1..] else After(s[1..])
  }

  /** The lines of a body: a last one without a newline counts if there is something in it and the body did not fail there. */
  ghost function LinesOf(s: seq<byte>, whole: bool): seq<seq<byte>>
    decreases |s|
  {
    if HasNewline(s) then [First(s)] + LinesOf(After(s), whole)
    else if s != [] && whole then [s]
    else []
  }

  function Cut(line: seq<byte>): seq<byte> {
    if |line| > MaxLine then line[..MaxLine] else line
  }

  /** What storing some lines comes to: the ones that are not blank, each cut to the limit, in order. */
  function Stored(blank: Blank, lines: seq<seq<byte>>): seq<seq<byte>> {
    if lines == [] then []
    else
      var line := Cut(lines[|lines| - 1]);
      Stored(blank, lines[..|lines| - 1]) + if blank(line) then [] else [line]
  }

  lemma {:induction false} StoredAppend(blank: Blank, a: seq<seq<byte>>, b: seq<seq<byte>>)
    ensures Stored(blank, a + b) == Stored(blank, a) + Stored(blank, b)
    decreases |b|
  {
    if b == [] {
      assert a + b == a;
    } else {
      assert (a + b)[..|a + b| - 1] == a + b[..|b| - 1];
      StoredAppend(blank, a, b[..|b| - 1]);
    }
  }

  /** Among others, a line is stored in its place unless it is blank, the first 1048576 bytes of it. */
  lemma StoredOne(blank: Blank, before: seq<seq<byte>>, line: seq<byte>, after: seq<seq<byte>>)
    ensures var kept := if |line| > 1048576 then line[..1048576] else line;
            Stored(blank, before + [line] + after) == Stored(blank, before) + (if blank(kept) then [] else [kept]) + Stored(blank, after)
  {
    StoredAppend(blank, before + [line], after);
    assert (before + [line])[..|before|] == before;
  }

  /** Lines written out, each ended by a newline. */
  function Joined(lines: seq<seq<byte>>): seq<byte> {
    if lines == [] then [] else lines[0] + [10] + Joined(lines[1..])
  }

  /** Lines written out, and perhaps one more without its newline, are the lines of the body. */
  lemma {:induction false} LinesComeBack(lines: seq<seq<byte>>, last: seq<byte>, whole: bool)
    requires (forall line <- lines :: !HasNewline(line)) && !HasNewline(last)
    ensures LinesOf(Joined(lines) + last, whole) == lines + if last != [] && whole then [last] else []
  {
    var s := Joined(lines) + last;
    if lines == [] {
      assert s == last;
    } else {
      var rest := Joined(lines[1..]) + last;
      assert s == lines[0] + [Newline] + rest && lines[0] in lines;
      LineEnds(lines[0], rest);
      LinesComeBack(lines[1..], last, whole);
      assert lines == [lines[0]] + lines[1..];
    }
  }

  /** Resuming at the line a first attempt stopped at stores every line that is not blank once, in order. */
  lemma {:induction false} ResumeStoresOnce(blank: Blank, lines: seq<seq<byte>>, accepted: nat)
    requires accepted <= |lines|
    ensures Stored(blank, lines[..accepted]) + Stored(blank, lines[accepted..]) == Stored(blank, lines)
  {
    StoredAppend(blank, lines[..accepted], lines[accepted..]);
    assert lines[..accepted] + lines[accepted..] == lines;
  }

  /** The body from its accepted-th line on. */
  function Skip(s: seq<byte>, lines: nat): seq<byte>
    decreases lines
  {
    if lines == 0 then s else Skip(After(s), lines - 1)
  }

  /** Skipping lines of the bytes is skipping lines. */
  lemma {:induction false} SkipLines(s: seq<byte>, whole: bool, k: nat)
    requires k <= |LinesOf(s, whole)|
    ensures LinesOf(Skip(s, k), whole) == LinesOf(s, whole)[k..]
    decreases k
  {
    if k > 0 {
      if HasNewline(s) {
        SkipLines(After(s), whole, k - 1);
        assert LinesOf(s, whole)[k..] == LinesOf(After(s), whole)[k - 1..];
      } else {
        NoneAfter(s);
        assert LinesOf(s, whole)[k..] == [];
      }
    }
  }

  lemma {:induction false} NoneAfter(s: seq<byte>)
    requires !HasNewline(s)
    ensures After(s) == [] && First(s) == s
  {
    if s != [] {
      assert s[0] != Newline;
      forall i | 0 <= i < |s[1..]| ensures s[1..][i] != Newline { assert s[1..][i] == s[i + 1]; }
      NoneAfter(s[1..]);
    }
  }

  // ---- reading ----

  /** How a read of the buffer ended: at a newline, with the buffer full, or with the body. */
  datatype Ending = AtNewline | Full | Ended

  /** A buffered body, which ends well or with a failure; where the buffer fills up is not for us to say. */
  class Body {
    var rest: seq<byte>
    const whole: bool

    /** The bytes up to a newline, or up to wherever the buffer is full, or all there are. */
    method ReadSlice() returns (chunk: seq<byte>, ending: Ending)
      modifies this`rest
      ensures old(rest) == chunk + rest
      ensures ending == AtNewline ==> chunk != [] && chunk[|chunk| - 1] == Newline && !HasNewline(chunk[..|chunk| - 1])
      ensures ending != AtNewline ==> !HasNewline(chunk)
      ensures ending == Full ==> chunk != []
      ensures ending == Ended ==> rest == []
    {
      var i := 0;
      ghost var before := rest;
      while i < |rest| && rest[i] != Newline
        invariant 0 <= i <= |rest| && rest == before && !HasNewline(rest[..i])
      {
        var full: bool := *;
        if full && i > 0 {
          chunk, ending, rest := rest[..i], Full, rest[i..];
          return;
        }
        assert rest[..i + 1] == rest[..i] + [rest[i]];
        i := i + 1;
      }
      if i < |rest| {
        chunk, ending, rest := rest[..i + 1], AtNewline, rest[i + 1..];
        assert chunk[..|chunk| - 1] == before[..i];
      } else {
        chunk, ending, rest := rest, Ended, [];
        assert chunk == before[..i];
      }
    }

    /** The next line, cut to the limit however long it is, and whether it was cut and whether the body ended with it. */
    method ReadLine() returns (line: seq<byte>, cut: bool, ended: bool)
      modifies this`rest
      ensures line == Cut(First(old(rest))) && cut == (|First(old(rest))| > MaxLine)
      ensures rest == After(old(rest)) && ended == !HasNewline(old(rest))
    {
      line, cut := [], false;
      ghost var before, read := rest, [];
      while true
        invariant before == read + rest && !HasNewline(read)
        invariant line == Cut(read) && cut == (|read| > MaxLine)
        decreases |rest|
      {
        var chunk, ending := ReadSlice();
        Assoc(read, chunk, rest);
        if ending == AtNewline {
          FirstLine(read, chunk, rest);
          chunk := chunk[..|chunk| - 1];
        }
        CutMore(read, chunk);
        NoNewlines(read, chunk);
        if |chunk| > MaxLine - |line| {
          line, cut := line + chunk[..MaxLine - |line|], true;
        } else {
          line := line + chunk;
        }
        read := read + chunk;
        if ending != Full {
          if ending == Ended {
            assert read + [] == read;
            NoneAfter(before);
          }
          return line, cut, ending == Ended;
        }
      }
    }
  }

  /** A chunk more of a line, kept as far as there is room. */
  lemma CutMore(read: seq<byte>, chunk: seq<byte>)
    ensures var line, room := Cut(read), MaxLine - |Cut(read)|;
            && room >= 0
            && Cut(read + chunk) == (if |chunk| > room then line + chunk[..room] else line + chunk)
            && (|read + chunk| > MaxLine <==> |read| > MaxLine || |chunk| > room)
  {
  }

  lemma FirstLine(read: seq<byte>, chunk: seq<byte>, rest: seq<byte>)
    requires !HasNewline(read) && chunk != [] && chunk[|chunk| - 1] == Newline && !HasNewline(chunk[..|chunk| - 1])
    ensures var s := read + chunk + rest; First(s) == read + chunk[..|chunk| - 1] && After(s) == rest && HasNewline(s)
  {
    var line := chunk[..|chunk| - 1];
    NoNewlines(read, line);
    LineEnds(read + line, rest);
    assert chunk == line + [Newline];
    assert read + chunk + rest == read + line + [Newline] + rest;
  }

  lemma NoNewlines(a: seq<byte>, b: seq<byte>)
    requires !HasNewline(a) && !HasNewline(b)
    ensures !HasNewline(a + b)
  {
  }

  lemma {:induction false} LineEnds(line: seq<byte>, rest: seq<byte>)
    requires !HasNewline(line)
    ensures var s := line + [Newline] + rest; First(s) == line && After(s) == rest && HasNewline(s)
  {
    var s := line + [Newline] + rest;
    assert s[|line|] == Newline;
    if line == [] {
      assert s[1..] == rest;
    } else {
      assert line[0] != Newline;
      forall i | 0 <= i < |line[1..]| ensures line[1..][i] != Newline { assert line[1..][i] == line[i + 1]; }
      LineEnds(line[1..], rest);
      assert s[1..] == line[1..] + [Newline] + rest;
    }
  }

  // ---- the request ----

  datatype Answer = Answer(accepted: nat, rejected: nat, truncated: nat)

  /** How many of some lines were stored short. */
  function Shortened(blank: Blank, lines: seq<seq<byte>>): nat {
    if lines == [] then 0
    else
      var line := lines[|lines| - 1];
      Shortened(blank, lines[..|lines| - 1]) + if |line| > MaxLine && !blank(Cut(line)) then 1 else 0
  }

  class Receiver {
    const blank: Blank
    var stored: seq<seq<byte>>

    /** Storage takes a line or refuses it. */
    method Append(line: seq<byte>) returns (ok: bool)
      modifies this`stored
      ensures stored == if ok then old(stored) + [line] else old(stored)
    {
      ok := *;
      if ok {
        stored := stored + [line];
      }
    }

    /**
     * Stores the lines of a body until one is refused or the body fails. What is stored is exactly the first
     * so many lines; the answer says how many, or none if they could not be synced.
     */
    method Lines(body: Body) returns (answer: Answer, synced: bool, ghost taken: nat)
      modifies this`stored, body`rest
      ensures var lines := LinesOf(old(body.rest), body.whole);
              && taken <= |lines| && stored == old(stored) + Stored(blank, lines[..taken])
              && answer.accepted == (if synced then taken else 0)
              && answer.truncated == Shortened(blank, lines[..taken])
              && (answer.rejected == 0 ==> synced && taken == |lines| && body.whole)
              && (!body.whole || !synced ==> answer.rejected == 1) && answer.rejected <= 1
    {
      ghost var bytes, lines := body.rest, LinesOf(body.rest, body.whole);
      var accepted, truncated, failed, done := 0, 0, false, false;
      taken := 0;
      assert stored + Stored(blank, lines[..0]) == stored;
      while !done
        invariant taken == accepted <= |lines| && stored == old(stored) + Stored(blank, lines[..taken])
        invariant truncated == Shortened(blank, lines[..taken])
        invariant !done ==> !failed && LinesOf(body.rest, body.whole) == lines[taken..]
        invariant done && !failed ==> body.whole && taken == |lines|
        decreases !done, |body.rest|
      {
        ghost var left := body.rest;
        var line, cut, ended := body.ReadLine();
        if ended {
          NoneAfter(left);
        }
        if ended && !body.whole {
          // What was cut off by the failure is a fragment, not a line.
          failed, done := true, true;
        } else if ended && line == [] {
          CutNothing(left);
          done := true;
        } else {
          LineIsNext(lines, taken, left, body.whole);
          StoredNext(blank, old(stored), lines, taken);
          var ok := true;
          if !blank(line) {
            ok := Append(line);
          }
          if ok {
            accepted, taken := accepted + 1, taken + 1;
            if cut && !blank(line) {
              truncated := truncated + 1;
            }
          }
          failed, done := !ok, !ok || ended;
        }
      }
      synced := true;
      if accepted != 0 {
        synced := *;
      }
      answer := Answer(if synced then accepted else 0, if failed || !synced then 1 else 0, truncated);
    }
  }

  lemma CutNothing(s: seq<byte>)
    requires Cut(s) == []
    ensures s == []
  {
  }

  /** What was just read is the next of the lines. */
  lemma LineIsNext(lines: seq<seq<byte>>, taken: nat, left: seq<byte>, whole: bool)
    requires taken <= |lines| && LinesOf(left, whole) == lines[taken..] && (HasNewline(left) || (whole && left != []))
    ensures taken < |lines| && lines[taken] == First(left) && LinesOf(After(left), whole) == lines[taken + 1..]
  {
    assert lines[taken..][0] == lines[taken] && lines[taken..][1..] == lines[taken + 1..];
    if !HasNewline(left) {
      NoneAfter(left);
    }
  }

  lemma {:induction false} StoredNext(blank: Blank, before: seq<seq<byte>>, lines: seq<seq<byte>>, taken: nat)
    requires taken < |lines|
    ensures before + Stored(blank, lines[..taken + 1]) ==
            before + Stored(blank, lines[..taken]) + if blank(Cut(lines[taken])) then [] else [Cut(lines[taken])]
    ensures Shortened(blank, lines[..taken + 1]) ==
            Shortened(blank, lines[..taken]) + if |lines[taken]| > MaxLine && !blank(Cut(lines[taken])) then 1 else 0
  {
    var next := lines[..taken + 1];
    assert next[..taken] == lines[..taken] && next[taken] == lines[taken];
  }

  // ---- sending the rest ----

  /** However much of a body arrived before it failed, its lines are the first lines of the body. */
  lemma {:induction false} CutBodyHasFirstLines(arrived: seq<byte>, lost: seq<byte>)
    ensures LinesOf(arrived, false) <= LinesOf(arrived + lost, true)
    decreases |arrived|
  {
    if HasNewline(arrived) {
      NewlineStays(arrived, lost);
      CutBodyHasFirstLines(After(arrived), lost);
    }
  }

  lemma {:induction false} NewlineStays(s: seq<byte>, t: seq<byte>)
    requires HasNewline(s)
    ensures HasNewline(s + t) && First(s + t) == First(s) && After(s + t) == After(s) + t
  {
    var i :| 0 <= i < |s| && s[i] == Newline;
    assert (s + t)[i] == Newline;
    if s[0] == Newline {
      assert (s + t)[1..] == s[1..] + t;
    } else {
      assert s[1..][i - 1] == Newline;
      NewlineStays(s[1..], t);
      assert (s + t)[1..] == s[1..] + t;
    }
  }

  /**
   * Wherever the first attempt stopped, at a refused line or because the rest of the body never arrived,
   * sending the body again from the line it had accepted up to stores every line that is not blank once.
   */
  lemma {:induction false} ResumingStoresOnce(blank: Blank, arrived: seq<byte>, lost: seq<byte>, whole: bool, taken: nat)
    requires whole ==> lost == []
    requires taken <= |LinesOf(arrived, whole)|
    ensures var body := arrived + lost;
            Stored(blank, LinesOf(arrived, whole)[..taken]) + Stored(blank, LinesOf(Skip(body, taken), true))
            == Stored(blank, LinesOf(body, true))
  {
    var body := arrived + lost;
    if whole {
      assert body == arrived;
    } else {
      CutBodyHasFirstLines(arrived, lost);
      assert LinesOf(arrived, whole)[..taken] == LinesOf(body, true)[..taken];
    }
    SkipLines(body, true, taken);
    ResumeStoresOnce(blank, LinesOf(body, true), taken);
  }
}
