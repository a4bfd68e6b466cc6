/**
 * Search by pages: following the cursor from page to page, over a store that changes in between,
 * shows every record that stays exactly once and in order.
 */
module Paging {
  import opened Prelude
  import opened Decimals

  type uint64 = x: int | 0 <= x < 0x1_0000_0000_0000_0000 witness 0

  /** Times are microseconds since 1970, and the zero time is the first of January of the year one. */
  const ZeroTime: int := -62135596800000000

  const DefaultWindow: int := 86_400_000_000

  const DefaultLimit: int := 200

  const DefaultMaxRows: int := 10_000

  // ---- cursors as text ----

  datatype Cursor = Cursor(ts: int, number: uint64, from: int, to: int)

  datatype CursorError = Malformed | BadTimestamp | BadSequence | BadWindow

  const Separator: char := ':'

  predicate Fits(x: int) {
    -0x8000_0000_0000_0000 <= x < 0x8000_0000_0000_0000
  }

  /** What is left of a number in 64 bits. */
  function Wrap(x: int): (r: int)
    ensures Fits(r) && (Fits(x) ==> r == x)
  {
    (x + 0x8000_0000_0000_0000) % 0x1_0000_0000_0000_0000 - 0x8000_0000_0000_0000
  }

  function Sign(n: nat, negative: bool): int {
    if negative then -(n as int) else n
  }

  function ShowInt(x: int): string {
    if x < 0 then "-" + Decimal(-x) else Decimal(x)
  }

  function ParseInt(s: string): Option<int> {
    var signed := s != "" && (s[0] == '-' || s[0] == '+');
    match ParseDecimal(if signed then s[1..] else s)
    case None => None
    case Some(n) =>
      var x := Sign(n, signed && s[0] == '-');
      if Fits(x) then Some(x) else None
  }

  function ParseUint(s: string): Option<uint64> {
    match ParseDecimal(s)
    case None => None
    case Some(n) => if n < 0x1_0000_0000_0000_0000 then Some(n) else None
  }

  function Split(s: string): (parts: seq<string>)
    ensures parts != []
  {
    if s == "" then [""]
    else
      var rest := Split(s[1..]);
      if s[0] == Separator then [""] + rest else [[s[0]] + rest[0]] + rest[1..]
  }

  function ShowCursor(c: Cursor): string {
    Join([ShowInt(Wrap(c.ts)), Decimal(c.number)] + if c.from != ZeroTime || c.to != ZeroTime then [ShowInt(Wrap(c.from)), ShowInt(Wrap(c.to))] else [])
  }

  function Join(parts: seq<string>): string
    requires parts != []
  {
    if |parts| == 1 then parts[0] else parts[0] + ([Separator] + Join(parts[1..]))
  }

  function ParseCursor(text: string): Result<Option<Cursor>, CursorError> {
    if text == "" then Ok(None)
    else
      var parts := Split(text);
      if |parts| != 2 && |parts| != 4 then Err(Malformed)
      else match (ParseInt(parts[0]), ParseUint(parts[1]))
           case (None, _) => Err(BadTimestamp)
           case (_, None) => Err(BadSequence)
           case (Some(ts), Some(number)) =>
             if |parts| == 2 then Ok(Some(Cursor(ts, number, ZeroTime, ZeroTime)))
             else match (ParseInt(parts[2]), ParseInt(parts[3]))
                  case (Some(from), Some(to)) => Ok(Some(Cursor(ts, number, from, to)))
                  case _ => Err(BadWindow)
  }

  lemma SignedParses(digits: string, n: nat, negative: bool)
    requires digits != "" && '0' <= digits[0] <= '9' && ParseDecimal(digits) == Some(n) && Fits(Sign(n, negative))
    ensures ParseInt(if negative then "-" + digits else digits) == Some(Sign(n, negative))
  {
    assert ("-" + digits)[1..] == digits;
  }

  lemma IntParses(x: int)
    requires Fits(x)
    ensures ParseInt(ShowInt(x)) == Some(x) && Separator !in ShowInt(x)
  {
    var n: nat := if x < 0 then -x else x;
    DecimalParses(n);
    SignedParses(Decimal(n), n, x < 0);
  }

  lemma {:induction false} SplitOne(a: string)
    requires Separator !in a
    ensures Split(a) == [a]
  {
    if a != "" {
      SplitOne(a[1..]);
      assert [a[0]] + a[1..] == a;
    }
  }

  lemma {:induction false} SplitFirst(a: string, rest: string)
    requires Separator !in a
    ensures Split(a + ([Separator] + rest)) == [a] + Split(rest)
  {
    var s := a + ([Separator] + rest);
    if a == "" {
      assert s == [Separator] + rest && s[1..] == rest;
    } else {
      SplitFirst(a[1..], rest);
      assert s[0] == a[0] && s[1..] == a[1..] + ([Separator] + rest);
      assert [a[0]] + a[1..] == a;
    }
  }

  /** Splitting undoes joining. */
  lemma {:induction false} SplitJoin(parts: seq<string>)
    requires parts != [] && forall part <- parts :: Separator !in part
    ensures Split(Join(parts)) == parts
    decreases |parts|
  {
    if |parts| == 1 {
      SplitOne(parts[0]);
    } else {
      SplitJoin(parts[1..]);
      SplitFirst(parts[0], Join(parts[1..]));
      assert [parts[0]] + parts[1..] == parts;
    }
  }

  lemma {:induction false} JoinIsText(parts: seq<string>)
    requires |parts| > 1
    ensures Join(parts) != ""
  {
  }

  lemma NumberParses(n: uint64)
    ensures ParseUint(Decimal(n)) == Some(n) && Separator !in Decimal(n)
  {
    DecimalParses(n);
  }

  /** Reading a cursor back gives it again, at the precision of a microsecond in 64 bits. */
  lemma CursorRoundTrip(c: Cursor)
    ensures ParseCursor(ShowCursor(c)) == Ok(Some(Cursor(Wrap(c.ts), c.number, Wrap(c.from), Wrap(c.to))))
  {
    var ts, number, from, to := ShowInt(Wrap(c.ts)), Decimal(c.number), ShowInt(Wrap(c.from)), ShowInt(Wrap(c.to));
    IntParses(Wrap(c.ts));
    NumberParses(c.number);
    IntParses(Wrap(c.from));
    IntParses(Wrap(c.to));
    SplitJoin([ts, number]);
    SplitJoin([ts, number] + [from, to]);
    JoinIsText([ts, number]);
    JoinIsText([ts, number] + [from, to]);
    assert [ts, number] + [] == [ts, number];
  }

  /** A cursor comes back as it was exactly when its times fit. */
  lemma CursorComesBackIff(c: Cursor)
    ensures ParseCursor(ShowCursor(c)) == Ok(Some(c)) <==> Fits(c.ts) && Fits(c.from) && Fits(c.to)
  {
    CursorRoundTrip(c);
  }

  // ---- rows and their order ----

  datatype Row = Row(ts: int, number: uint64, stream: string, raw: string)

  /** What the catalog says of a file, and the rows in it. */
  datatype File = File(stream: string, minTs: int, maxTs: int, rows: seq<Row>)

  /** A number as the column holds it. */
  function Signed(n: uint64): int {
    if n < 0x8000_0000_0000_0000 then n else n - 0x1_0000_0000_0000_0000
  }

  predicate Less(ts: int, number: uint64, ts2: int, number2: uint64) {
    ts < ts2 || (ts == ts2 && Signed(number) < Signed(number2))
  }

  /** One row before another in the direction asked for. */
  predicate Before(ascending: bool, a: Row, b: Row) {
    if ascending then Less(a.ts, a.number, b.ts, b.number) else Less(b.ts, b.number, a.ts, a.number)
  }

  predicate Past(ascending: bool, c: Cursor, r: Row) {
    if ascending then r.ts > c.ts || (r.ts == c.ts && Signed(r.number) > Signed(c.number))
    else r.ts < c.ts || (r.ts == c.ts && Signed(r.number) < Signed(c.number))
  }

  ghost predicate Chain(ascending: bool, rows: seq<Row>) {
    forall i, j :: 0 <= i < j < |rows| ==> Before(ascending, rows[i], rows[j])
  }

  /** No two rows share their place. */
  ghost predicate Distinct(rows: seq<Row>) {
    forall i, j :: 0 <= i < j < |rows| ==> Apart(rows[i], rows[j])
  }

  predicate SamePlace(a: Row, b: Row) {
    a.ts == b.ts && a.number == b.number
  }

  predicate Apart(a: Row, b: Row) {
    !SamePlace(a, b)
  }

  function RowsOf(files: seq<File>): seq<Row> {
    if files == [] then [] else RowsOf(files[..|files| - 1]) + files[|files| - 1].rows
  }

  ghost predicate Truthful(files: seq<File>) {
    forall i, r :: 0 <= i < |files| && r in files[i].rows ==> files[i].minTs <= r.ts <= files[i].maxTs && r.stream == files[i].stream
  }

  // ---- a page ----

  datatype Request = Request(matches: Row -> bool, stream: string, from: int, to: int, limit: int, ascending: bool, cursor: Option<Cursor>)

  datatype Window = Window(from: int, to: int)

  datatype Page = Page(rows: seq<Row>, next: Option<Cursor>, window: Window)

  /** A window with its ends filled in. */
  function Filled(w: Window, now: int): Window {
    var to := if w.to == ZeroTime then now else w.to;
    Window(if w.from == ZeroTime then to - DefaultWindow else w.from, to)
  }

  /** The window of the page before if there was one, or the one asked for. */
  function WindowOf(req: Request, now: int): Window {
    var carried := req.cursor.Some? && req.cursor.value.from != ZeroTime;
    Filled(if carried then Window(req.cursor.value.from, req.cursor.value.to) else Window(req.from, req.to), now)
  }

  /** More than the cap gets the cap, and no size at all the default. */
  function LimitOf(limit: int, maxRows: int): (r: int)
    ensures maxRows > 0 ==> 1 <= r <= maxRows && (1 <= limit <= maxRows ==> r == limit) && (limit > maxRows ==> r == maxRows)
    ensures limit <= 0 && maxRows >= 200 ==> r == 200
  {
    if limit <= 0 then (if maxRows < DefaultLimit then maxRows else DefaultLimit)
    else if limit > maxRows then maxRows
    else limit
  }

  /** What the catalog leaves out without opening a file. */
  function Prune(files: seq<File>, stream: string, w: Window): seq<File> {
    if files == [] then []
    else
      var f := files[|files| - 1];
      var kept := (stream == "" || f.stream == stream)
                  && (w.from == ZeroTime || f.maxTs >= w.from) && (w.to == ZeroTime || f.minTs <= w.to);
      Prune(files[..|files| - 1], stream, w) + if kept then [f] else []
  }

  predicate InScope(req: Request, w: Window, r: Row) {
    && w.from <= r.ts <= w.to
    && (req.stream == "" || r.stream == req.stream)
    && (req.cursor.Some? ==> Past(req.ascending, req.cursor.value, r))
  }

  predicate Wanted(req: Request, w: Window, r: Row) {
    InScope(req, w, r) && req.matches(r)
  }

  function Put(ascending: bool, rows: seq<Row>, r: Row): seq<Row> {
    if rows == [] || !Before(ascending, r, rows[|rows| - 1]) then rows + [r]
    else Put(ascending, rows[..|rows| - 1], r) + [rows[|rows| - 1]]
  }

  /** The rows wanted, in order. */
  function Select(req: Request, w: Window, rows: seq<Row>): seq<Row> {
    if rows == [] then []
    else
      var r, before := rows[|rows| - 1], Select(req, w, rows[..|rows| - 1]);
      if Wanted(req, w, r) then Put(req.ascending, before, r) else before
  }

  /**
   * What one page promises: the first so many of the rows wanted, in order, and a cursor at the last of them
   * exactly when there are more.
   */
  ghost predicate IsPage(files: seq<File>, req: Request, now: int, maxRows: int, page: Page) {
    var w, limit, asc := WindowOf(req, now), LimitOf(req.limit, maxRows), req.ascending;
    && page.window == w
    && Chain(asc, page.rows) && |page.rows| <= limit
    && (forall r <- page.rows :: r in RowsOf(files) && Wanted(req, w, r))
    && match page.next
       case None => forall r <- RowsOf(files) :: Wanted(req, w, r) ==> r in page.rows
       case Some(c) =>
         && |page.rows| == limit > 0
         && var last := page.rows[limit - 1];
         && c == PlaceOf(last, w)
         && (forall r <- RowsOf(files) :: Wanted(req, w, r) ==> r in page.rows || Before(asc, last, r))
         && exists r :: r in RowsOf(files) && Wanted(req, w, r) && Before(asc, last, r)
  }

  class Engine {
    var files: seq<File>
    const maxRows: int

    constructor (configured: int, files: seq<File>)
      requires configured >= 0
      ensures this.files == files && maxRows > 0 && (configured > 0 ==> maxRows == configured)
    {
      this.files := files;
      maxRows := if configured == 0 then DefaultMaxRows else configured;
    }

    /** The window with its ends filled in, and the files that may hold rows of it. */
    method Plan(stream: string, asked: Window, now: int) returns (w: Window, plan: seq<File>)
      ensures w.to == if asked.to == ZeroTime then now else asked.to
      ensures w.from == if asked.from == ZeroTime then w.to - 86_400_000_000 else asked.from
      ensures plan == Prune(files, stream, w)
    {
      var from, to := asked.from, asked.to;
      if to == ZeroTime {
        to := now;
      }
      if from == ZeroTime {
        from := to - DefaultWindow;
      }
      w := Window(from, to);
      plan := Prune(files, stream, w);
    }

    method Search(req: Request, now: int) returns (page: Page)
      requires Truthful(files) && Distinct(RowsOf(files)) && maxRows > 0
      ensures IsPage(files, req, now, maxRows, page)
      ensures var carried := req.cursor.Some? && req.cursor.value.from != ZeroTime;
              var from, to := if carried then req.cursor.value.from else req.from, if carried then req.cursor.value.to else req.to;
              && page.window.to == (if to == ZeroTime then now else to)
              && page.window.from == if from == ZeroTime then page.window.to - 86_400_000_000 else from
    {
      var asked := Window(req.from, req.to);
      if req.cursor.Some? && req.cursor.value.from != ZeroTime {
        asked := Window(req.cursor.value.from, req.cursor.value.to);
      }
      var w, plan := Plan(req.stream, asked, now);
      var limit := req.limit;
      if limit <= 0 {
        limit := if maxRows < DefaultLimit then maxRows else DefaultLimit;
      } else if limit > maxRows {
        limit := maxRows;
      }
      assert w == WindowOf(req, now) && limit == LimitOf(req.limit, maxRows);
      var records := Query(req, w, RowsOf(plan), limit + 1);
      var next := None;
      if |records| > limit {
        next := Some(PlaceOf(records[limit - 1], w));
        records := records[..limit];
      }
      page := Page(records, next, w);
      CutIsPage(Select(req, w, RowsOf(plan)), w, limit);
      SearchPage(files, req, now, maxRows);
    }
  }

  lemma CutIsPage(all: seq<Row>, w: Window, limit: nat)
    requires limit > 0
    ensures var records := if |all| > limit + 1 then all[..limit + 1] else all;
            PageOf(all, w, limit) ==
            if |records| > limit then Page(records[..limit], Some(PlaceOf(records[limit - 1], w)), w) else Page(records, None, w)
  {
    assert |all| > limit + 1 ==> all[..limit + 1][..limit] == all[..limit];
  }

  function PlaceOf(r: Row, w: Window): Cursor {
    Cursor(r.ts, r.number, w.from, w.to)
  }

  /** No more of the rows wanted than asked for. */
  function Query(req: Request, w: Window, rows: seq<Row>, n: nat): seq<Row> {
    var all := Select(req, w, rows);
    if |all| > n then all[..n] else all
  }

  function PageOf(all: seq<Row>, w: Window, limit: nat): Page
    requires limit > 0
  {
    if |all| > limit then Page(all[..limit], Some(PlaceOf(all[limit - 1], w)), w) else Page(all, None, w)
  }

  /** The first so many of all the rows wanted, and a cursor if that is not all of them, make a page. */
  lemma FirstPage(files: seq<File>, req: Request, now: int, maxRows: int, all: seq<Row>)
    requires maxRows > 0 && Chain(req.ascending, all)
    requires forall r :: r in all <==> r in RowsOf(files) && Wanted(req, WindowOf(req, now), r)
    ensures var limit := LimitOf(req.limit, maxRows); IsPage(files, req, now, maxRows, PageOf(all, WindowOf(req, now), limit))
  {
    var limit := LimitOf(req.limit, maxRows);
    if |all| > limit {
      FirstOnes(req.ascending, all, limit);
      assert all[limit] in all && Before(req.ascending, all[limit - 1], all[limit]);
      assert all[..limit][limit - 1] == all[limit - 1];
      forall r | r in all[..limit] ensures r in all { }
    }
  }

  lemma SearchPage(files: seq<File>, req: Request, now: int, maxRows: int)
    requires Truthful(files) && Distinct(RowsOf(files)) && maxRows > 0
    ensures var w, limit := WindowOf(req, now), LimitOf(req.limit, maxRows);
            IsPage(files, req, now, maxRows, PageOf(Select(req, w, RowsOf(Prune(files, req.stream, w))), w, limit))
  {
    var w := WindowOf(req, now);
    SelectIsAll(files, req, w);
    FirstPage(files, req, now, maxRows, Select(req, w, RowsOf(Prune(files, req.stream, w))));
  }

  lemma FirstOnes(ascending: bool, all: seq<Row>, n: nat)
    requires Chain(ascending, all) && 0 < n < |all|
    ensures Chain(ascending, all[..n])
    ensures forall r <- all :: r in all[..n] || Before(ascending, all[n - 1], r)
  {
    forall i | 0 <= i < |all| ensures all[i] in all[..n] || Before(ascending, all[n - 1], all[i]) {
      assert i < n ==> all[..n][i] == all[i];
    }
  }

  lemma {:induction false} PutIs(ascending: bool, rows: seq<Row>, r: Row)
    requires Chain(ascending, rows) && forall x <- rows :: Apart(x, r)
    ensures Chain(ascending, Put(ascending, rows, r))
    ensures forall x :: x in Put(ascending, rows, r) <==> x in rows || x == r
    decreases |rows|
  {
    var n := |rows| - 1;
    if rows == [] || !Before(ascending, r, rows[n]) {
      if rows != [] {
        assert rows[n] in rows;
        forall i | 0 <= i < |rows| ensures Before(ascending, rows[i], r) { }
      }
    } else {
      assert rows == rows[..n] + [rows[n]];
      PutIs(ascending, rows[..n], r);
      var put := Put(ascending, rows[..n], r);
      forall x | x in put ensures Before(ascending, x, rows[n]) { }
    }
  }

  lemma LastIsApart(rows: seq<Row>)
    requires rows != [] && Distinct(rows)
    ensures var front, last := rows[..|rows| - 1], rows[|rows| - 1];
            (forall x <- front :: Apart(x, last)) && forall x :: x in rows <==> x in front || x == last
  {
    assert rows == rows[..|rows| - 1] + [rows[|rows| - 1]];
  }

  lemma {:induction false} SelectIs(req: Request, w: Window, rows: seq<Row>)
    requires Distinct(rows)
    ensures Chain(req.ascending, Select(req, w, rows))
    ensures forall r :: r in Select(req, w, rows) <==> r in rows && Wanted(req, w, r)
    decreases |rows|
  {
    if rows != [] {
      var n := |rows| - 1;
      LastIsApart(rows);
      SelectIs(req, w, rows[..n]);
      if Wanted(req, w, rows[n]) {
        PutIs(req.ascending, Select(req, w, rows[..n]), rows[n]);
      }
    }
  }

  lemma DistinctParts(a: seq<Row>, b: seq<Row>)
    ensures Distinct(a + b) <==> Distinct(a) && Distinct(b) && forall x, y :: x in a && y in b ==> Apart(x, y)
  {
    var s := a + b;
    if Distinct(s) {
      forall i, j | 0 <= i < j < |a| ensures Apart(a[i], a[j]) { assert s[i] == a[i] && s[j] == a[j]; }
      forall i, j | 0 <= i < j < |b| ensures Apart(b[i], b[j]) { assert s[|a| + i] == b[i] && s[|a| + j] == b[j]; }
      forall x, y | x in a && y in b ensures Apart(x, y) {
        var i :| 0 <= i < |a| && a[i] == x;
        var j :| 0 <= j < |b| && b[j] == y;
        assert s[i] == x && s[|a| + j] == y;
      }
    }
  }

  /** Leaving files out leaves out only rows outside the window or of another stream. */
  lemma {:induction false} PruneIs(files: seq<File>, req: Request, w: Window)
    requires Truthful(files) && Distinct(RowsOf(files))
    ensures Distinct(RowsOf(Prune(files, req.stream, w)))
    ensures forall r :: r in RowsOf(Prune(files, req.stream, w)) ==> r in RowsOf(files)
    ensures forall r :: r in RowsOf(files) && InScope(req, w, r) ==> r in RowsOf(Prune(files, req.stream, w))
    decreases |files|
  {
    if files != [] {
      var n := |files| - 1;
      var f, before := files[n], Prune(files[..n], req.stream, w);
      DistinctParts(RowsOf(files[..n]), f.rows);
      PruneIs(files[..n], req, w);
      DistinctParts(RowsOf(before), f.rows);
      assert (before + [f])[..|before|] == before;
      assert RowsOf(before + [f]) == RowsOf(before) + f.rows;
      assert before + [] == before;
    }
  }

  lemma SelectIsAll(files: seq<File>, req: Request, w: Window)
    requires Truthful(files) && Distinct(RowsOf(files))
    ensures var all := Select(req, w, RowsOf(Prune(files, req.stream, w)));
            && Chain(req.ascending, all)
            && forall r :: r in all <==> r in RowsOf(files) && Wanted(req, w, r)
  {
    PruneIs(files, req, w);
    SelectIs(req, w, RowsOf(Prune(files, req.stream, w)));
  }

  /** One row's place after another's: later, or as late and numbered higher, as the column holds the numbers. */
  predicate Later(a: Row, b: Row) {
    a.ts > b.ts || (a.ts == b.ts && Signed(a.number) > Signed(b.number))
  }

  /** A first page asked for without a window is of the day up to now: what matches in it is on the page, or comes after all of it. */
  lemma LastDayIsSearched(files: seq<File>, req: Request, now: int, maxRows: int, page: Page, r: Row)
    requires IsPage(files, req, now, maxRows, page) && req.cursor.None? && req.from == ZeroTime && req.to == ZeroTime
    requires r in RowsOf(files) && req.matches(r) && (req.stream == "" || r.stream == req.stream)
    requires now - 86_400_000_000 <= r.ts <= now
    ensures r in page.rows || (page.next.Some? && forall x <- page.rows :: if req.ascending then Later(r, x) else Later(x, r))
  {
    assert Wanted(req, page.window, r);
    if r !in page.rows {
      var last := page.rows[|page.rows| - 1];
      forall i | 0 <= i < |page.rows| ensures page.rows[i] == last || Before(req.ascending, page.rows[i], last) {
      }
    }
  }

  /** And what is older, or later, is not on it. */
  lemma OnlyLastDayIsShown(files: seq<File>, req: Request, now: int, maxRows: int, page: Page, r: Row)
    requires IsPage(files, req, now, maxRows, page) && req.cursor.None? && req.from == ZeroTime && req.to == ZeroTime && r in page.rows
    ensures now - 86_400_000_000 <= r.ts <= now && req.matches(r) && (req.stream == "" || r.stream == req.stream)
  {
  }

  /** A cursor carries its window whatever the next request asks for exactly when neither end is the zero time. */
  lemma CursorCarriesWindowIff(c: Cursor)
    ensures (forall req: Request, now: int :: req.cursor == Some(c) ==> WindowOf(req, now) == Window(c.from, c.to)) <==>
            c.from != ZeroTime && c.to != ZeroTime
  {
    if c.from == ZeroTime || c.to == ZeroTime {
      var asked := Request(r => true, "", 1, 2, 0, true, Some(c));
      var other := asked.(from := 3);
      assert WindowOf(asked, 5) != WindowOf(other, 5) || WindowOf(asked, 5) != WindowOf(asked, 6);
    }
  }

  // ---- a walk from page to page ----

  /** One page as it was asked for and answered, and what the store held then. */
  datatype Visit = Visit(files: seq<File>, req: Request, now: int, page: Page)

  /** The same search, page after page, each continued from the text of the cursor before. */
  ghost predicate IsWalk(visits: seq<Visit>, maxRows: int) {
    && visits != [] && maxRows > 0 && visits[0].req.cursor.None?
    && visits[0].page.window.from != ZeroTime && visits[0].page.window.to != ZeroTime
    && Fits(visits[0].page.window.from) && Fits(visits[0].page.window.to)
    && forall i :: 0 <= i < |visits| ==> IsStep(visits, i, maxRows)
  }

  ghost predicate IsStep(visits: seq<Visit>, i: nat, maxRows: int)
    requires i < |visits|
  {
    var first, v := visits[0], visits[i];
    && IsPage(v.files, v.req, v.now, maxRows, v.page)
    && (forall r <- RowsOf(v.files) :: Fits(r.ts))
    && v.req.matches == first.req.matches && v.req.stream == first.req.stream && v.req.ascending == first.req.ascending
    && (i > 0 ==> Follows(visits[i - 1], v))
  }

  ghost predicate Follows(a: Visit, b: Visit) {
    a.page.next.Some? && b.req.cursor.Some? && ParseCursor(ShowCursor(a.page.next.value)) == Ok(b.req.cursor)
  }

  function Shown(visits: seq<Visit>): seq<Row> {
    if visits == [] then [] else Shown(visits[..|visits| - 1]) + visits[|visits| - 1].page.rows
  }

  /** Wanted by the search as a whole: in the window of its first page. */
  predicate Sought(first: Visit, r: Row) {
    && first.page.window.from <= r.ts <= first.page.window.to
    && (first.req.stream == "" || r.stream == first.req.stream)
    && first.req.matches(r)
  }

  /** One record as the store held it at every page, sought each time; what is held of it besides its place may change. */
  ghost predicate Stays(visits: seq<Visit>, rows: seq<Row>) {
    && |rows| == |visits|
    && forall i :: 0 <= i < |visits| ==> rows[i] in RowsOf(visits[i].files) && Sought(visits[0], rows[i]) && SamePlace(rows[0], rows[i])
  }

  /** Held by the store at some page. */
  ghost predicate Seen(visits: seq<Visit>, r: Row) {
    exists i :: 0 <= i < |visits| && r in RowsOf(visits[i].files)
  }

  lemma ShownNext(visits: seq<Visit>, k: nat)
    requires k < |visits|
    ensures Shown(visits[..k + 1]) == Shown(visits[..k]) + visits[k].page.rows
  {
    assert visits[..k + 1][..k] == visits[..k];
  }

  /** The place a page ends at. */
  function EndOf(page: Page): Cursor
    requires page.rows != []
  {
    PlaceOf(page.rows[|page.rows| - 1], page.window)
  }

  lemma CursorIsCarried(c: Cursor, next: Option<Cursor>)
    requires Fits(c.ts) && Fits(c.from) && Fits(c.to) && ParseCursor(ShowCursor(c)) == Ok(next)
    ensures next == Some(c)
  {
    CursorRoundTrip(c);
  }

  /** What a step says of its window and its end, and no more. */
  lemma StepEnds(visits: seq<Visit>, maxRows: int, i: nat)
    requires IsWalk(visits, maxRows) && i < |visits|
    ensures var v := visits[i];
            && v.page.window == WindowOf(v.req, v.now)
            && (v.page.next.Some? ==> v.page.rows != [] && v.page.next == Some(EndOf(v.page)) && Fits(EndOf(v.page).ts))
  {
    assert IsStep(visits, i, maxRows);
    var page := visits[i].page;
    if page.next.Some? {
      assert page.rows[|page.rows| - 1] in page.rows;
    }
  }

  /** A page that follows another starts past its last row. */
  lemma StepCarries(visits: seq<Visit>, maxRows: int, i: nat)
    requires IsWalk(visits, maxRows) && 0 < i < |visits| && Fits(visits[i - 1].page.window.from) && Fits(visits[i - 1].page.window.to)
    ensures visits[i - 1].page.rows != [] && visits[i].req.cursor == Some(EndOf(visits[i - 1].page))
  {
    assert IsStep(visits, i, maxRows);
    StepEnds(visits, maxRows, i - 1);
    CursorIsCarried(visits[i - 1].page.next.value, visits[i].req.cursor);
  }

  /** Every page is over the window of the first. */
  lemma {:induction false} SameWindow(visits: seq<Visit>, maxRows: int, i: nat)
    requires IsWalk(visits, maxRows) && i < |visits|
    ensures visits[i].page.window == visits[0].page.window
    ensures i > 0 ==> visits[i - 1].page.rows != [] && visits[i].req.cursor == Some(EndOf(visits[i - 1].page))
  {
    if i > 0 {
      SameWindow(visits, maxRows, i - 1);
      StepCarries(visits, maxRows, i);
      StepEnds(visits, maxRows, i);
    }
  }

  /** More to come, and a row after the end of this page. */
  predicate Ahead(v: Visit, ascending: bool, r: Row) {
    v.page.next.Some? && v.page.rows != [] && Before(ascending, v.page.rows[|v.page.rows| - 1], r)
  }

  /** Rows of a page are sought, and past where it started. */
  lemma PageIsSound(first: Visit, v: Visit, maxRows: int, r: Row)
    requires IsPage(v.files, v.req, v.now, maxRows, v.page) && SameSearch(first, v) && r in v.page.rows
    ensures Sought(first, r) && r in RowsOf(v.files)
    ensures v.req.cursor.Some? ==> Past(first.req.ascending, v.req.cursor.value, r)
  {
    assert Wanted(v.req, v.page.window, r);
  }

  /** Rows sought past where a page started are on it, or after it. */
  lemma PageIsComplete(first: Visit, v: Visit, maxRows: int, r: Row)
    requires IsPage(v.files, v.req, v.now, maxRows, v.page) && SameSearch(first, v) && r in RowsOf(v.files) && Sought(first, r)
    requires v.req.cursor.Some? ==> Past(first.req.ascending, v.req.cursor.value, r)
    ensures r in v.page.rows || Ahead(v, first.req.ascending, r)
  {
    assert Wanted(v.req, v.page.window, r);
  }

  ghost predicate SameSearch(first: Visit, v: Visit) {
    && v.req.matches == first.req.matches && v.req.stream == first.req.stream && v.req.ascending == first.req.ascending
    && v.page.window == first.page.window
  }

  /** Each page of a walk is a page of the same search, past the end of the one before. */
  lemma WalkPage(visits: seq<Visit>, maxRows: int, k: nat)
    requires IsWalk(visits, maxRows) && k < |visits|
    ensures var v := visits[k];
            && IsPage(v.files, v.req, v.now, maxRows, v.page) && SameSearch(visits[0], v)
            && (k == 0 ==> v.req.cursor.None?)
            && (k > 0 ==> visits[k - 1].page.next.Some? && visits[k - 1].page.rows != [] && v.req.cursor == Some(EndOf(visits[k - 1].page)))
  {
    assert IsStep(visits, k, maxRows);
    SameWindow(visits, maxRows, k);
  }

  /** What a page adds: rows of the search, ahead before. */
  lemma PageAdds(visits: seq<Visit>, maxRows: int, k: nat, r: Row)
    requires IsWalk(visits, maxRows) && k < |visits| && r in visits[k].page.rows
    ensures Sought(visits[0], r) && r in RowsOf(visits[k].files)
    ensures k > 0 ==> Ahead(visits[k - 1], visits[0].req.ascending, r)
  {
    WalkPage(visits, maxRows, k);
    PageIsSound(visits[0], visits[k], maxRows, r);
  }

  /** A row sought that was ahead before a page is on the page, or still ahead. */
  lemma PageLeaves(visits: seq<Visit>, maxRows: int, k: nat, r: Row)
    requires IsWalk(visits, maxRows) && k < |visits| && Sought(visits[0], r) && r in RowsOf(visits[k].files)
    requires k > 0 ==> Ahead(visits[k - 1], visits[0].req.ascending, r)
    ensures r in visits[k].page.rows || Ahead(visits[k], visits[0].req.ascending, r)
  {
    WalkPage(visits, maxRows, k);
    PageIsComplete(visits[0], visits[k], maxRows, r);
  }

  ghost predicate AllAfter(ascending: bool, before: seq<Row>, rows: seq<Row>) {
    before != [] && forall r <- rows :: Before(ascending, before[|before| - 1], r)
  }

  lemma PageInOrder(visits: seq<Visit>, maxRows: int, k: nat)
    requires IsWalk(visits, maxRows) && k < |visits|
    ensures Chain(visits[0].req.ascending, visits[k].page.rows)
    ensures k > 0 ==> AllAfter(visits[0].req.ascending, visits[k - 1].page.rows, visits[k].page.rows)
  {
    WalkPage(visits, maxRows, k);
    if k > 0 {
      forall r | r in visits[k].page.rows ensures Ahead(visits[k - 1], visits[0].req.ascending, r) {
        PageAdds(visits, maxRows, k, r);
      }
    }
  }

  lemma Joined(ascending: bool, shown: seq<Row>, a: seq<Row>, b: seq<Row>)
    requires Chain(ascending, shown + a) && Chain(ascending, b) && AllAfter(ascending, a, b)
    ensures Chain(ascending, (shown + a) + b)
  {
    var before := shown + a;
    assert before[|before| - 1] == a[|a| - 1];
    forall i, j | 0 <= i < j < |before + b| ensures Before(ascending, (before + b)[i], (before + b)[j]) {
      if i < |before| <= j {
        assert b[j - |before|] in b;
        assert i < |before| - 1 ==> Before(ascending, before[i], before[|before| - 1]);
      }
    }
  }

  /** Wherever a walk stands, what it has shown is in order. */
  lemma {:induction false} ShownInOrder(visits: seq<Visit>, maxRows: int, k: nat)
    requires IsWalk(visits, maxRows) && k < |visits|
    ensures Chain(visits[0].req.ascending, Shown(visits[..k + 1]))
  {
    PageInOrder(visits, maxRows, k);
    ShownNext(visits, k);
    if k == 0 {
      assert Shown(visits[..1]) == visits[0].page.rows;
    } else {
      ShownInOrder(visits, maxRows, k - 1);
      ShownNext(visits, k - 1);
      Joined(visits[0].req.ascending, Shown(visits[..k - 1]), visits[k - 1].page.rows, visits[k].page.rows);
    }
  }

  /** And all of it belongs to the search. */
  lemma {:induction false} ShownIsSought(visits: seq<Visit>, maxRows: int, k: nat, r: Row)
    requires IsWalk(visits, maxRows) && k < |visits| && r in Shown(visits[..k + 1])
    ensures Sought(visits[0], r) && Seen(visits, r)
  {
    ShownNext(visits, k);
    if r in visits[k].page.rows {
      PageAdds(visits, maxRows, k, r);
    } else if k > 0 {
      ShownIsSought(visits, maxRows, k - 1, r);
    }
  }

  /** And of what has been there all along it leaves out only what is ahead. */
  lemma {:induction false} ShownOrAhead(visits: seq<Visit>, maxRows: int, k: nat, rows: seq<Row>)
    requires IsWalk(visits, maxRows) && k < |visits| && Stays(visits, rows)
    ensures (exists i :: 0 <= i <= k && rows[i] in Shown(visits[..k + 1])) || Ahead(visits[k], visits[0].req.ascending, rows[k])
  {
    ShownNext(visits, k);
    if k == 0 {
      PageLeaves(visits, maxRows, k, rows[k]);
    } else {
      ShownOrAhead(visits, maxRows, k - 1, rows);
      if Ahead(visits[k - 1], visits[0].req.ascending, rows[k - 1]) {
        PageLeaves(visits, maxRows, k, rows[k]);
      } else {
        var i :| 0 <= i <= k - 1 && rows[i] in Shown(visits[..k]);
        assert rows[i] in Shown(visits[..k + 1]);
      }
    }
  }

  /** However many pages and whatever lands in between: in order, none twice, none that does not belong. */
  lemma PagesInOrder(visits: seq<Visit>, maxRows: int)
    requires IsWalk(visits, maxRows)
    ensures var shown := Shown(visits);
            && (forall i, j :: 0 <= i < j < |shown| ==> if visits[0].req.ascending then Later(shown[j], shown[i]) else Later(shown[i], shown[j]))
            && forall r :: multiset(shown)[r] <= 1
    ensures forall r <- Shown(visits) :: Sought(visits[0], r) && Seen(visits, r)
  {
    assert visits[..|visits|] == visits;
    ShownInOrder(visits, maxRows, |visits| - 1);
    NoneTwice(visits[0].req.ascending, Shown(visits));
    forall r | r in Shown(visits) ensures Sought(visits[0], r) && Seen(visits, r) {
      ShownIsSought(visits, maxRows, |visits| - 1, r);
    }
  }

  lemma {:induction false} NoneTwice(ascending: bool, rows: seq<Row>)
    requires Chain(ascending, rows)
    ensures forall r :: multiset(rows)[r] <= 1
    decreases |rows|
  {
    if rows != [] {
      var n := |rows| - 1;
      NoneTwice(ascending, rows[..n]);
      assert rows == rows[..n] + [rows[n]];
      assert rows[n] !in rows[..n];
    }
  }

  /** A walk to the end shows every record that was there for all of it, exactly once, even one that lost its line on the way. */
  lemma PagesShowEverything(visits: seq<Visit>, maxRows: int, rows: seq<Row>)
    requires IsWalk(visits, maxRows) && visits[|visits| - 1].page.next.None? && Stays(visits, rows)
    ensures exists i: nat :: OnlyAt(Shown(visits), rows[0], i)
  {
    var n, shown := |visits| - 1, Shown(visits);
    assert visits[..n + 1] == visits;
    ShownOrAhead(visits, maxRows, n, rows);
    ShownInOrder(visits, maxRows, n);
    var k :| 0 <= k <= n && rows[k] in shown;
    var i :| 0 <= i < |shown| && shown[i] == rows[k];
    forall j | 0 <= j < |shown| && SamePlace(rows[0], shown[j]) ensures j == i {
      assert i < j ==> Before(visits[0].req.ascending, shown[i], shown[j]);
      assert j < i ==> Before(visits[0].req.ascending, shown[j], shown[i]);
    }
    assert SamePlace(rows[0], rows[k]);
    assert OnlyAt(shown, rows[0], i);
  }

  /** A record's place among some rows, and no other is its. */
  ghost predicate OnlyAt(rows: seq<Row>, r: Row, i: nat) {
    i < |rows| && SamePlace(r, rows[i]) && forall j :: 0 <= j < |rows| && SamePlace(r, rows[j]) ==> j == i
  }

  ghost predicate Still(visits: seq<Visit>, files: seq<File>) {
    forall i :: 0 <= i < |visits| ==> visits[i].files == files
  }

  /** Over a store that stands still a walk shows only the rows sought, and at its end all of them. */
  lemma StillWalkShows(visits: seq<Visit>, maxRows: int, files: seq<File>, r: Row)
    requires IsWalk(visits, maxRows) && Still(visits, files)
    ensures r in Shown(visits) ==> r in RowsOf(files) && Sought(visits[0], r)
    ensures visits[|visits| - 1].page.next.None? && r in RowsOf(files) && Sought(visits[0], r) ==> r in Shown(visits)
  {
    assert visits[..|visits|] == visits;
    if r in Shown(visits) {
      ShownIsSought(visits, maxRows, |visits| - 1, r);
      var i :| 0 <= i < |visits| && r in RowsOf(visits[i].files);
      assert visits[i].files == files;
    } else if visits[|visits| - 1].page.next.None? && r in RowsOf(files) && Sought(visits[0], r) {
      StillIsShown(visits, maxRows, files, r);
    }
  }

  lemma StillIsShown(visits: seq<Visit>, maxRows: int, files: seq<File>, r: Row)
    requires IsWalk(visits, maxRows) && Still(visits, files) && visits[|visits| - 1].page.next.None?
    requires r in RowsOf(files) && Sought(visits[0], r)
    ensures r in Shown(visits)
  {
    var n, rows := |visits| - 1, seq(|visits|, i => r);
    assert visits[..n + 1] == visits;
    assert Stays(visits, rows);
    ShownOrAhead(visits, maxRows, n, rows);
    var i :| 0 <= i <= n && rows[i] in Shown(visits[..n + 1]);
  }

  /** And it does come to its end. */
  lemma StillWalkEnds(visits: seq<Visit>, maxRows: int, files: seq<File>)
    requires IsWalk(visits, maxRows) && Still(visits, files)
    ensures |visits| <= |RowsOf(files)| + 1
  {
    assert visits[..|visits|] == visits;
    EachPageShows(visits, maxRows, |visits| - 1);
    ShownInOrder(visits, maxRows, |visits| - 1);
    forall r | r in Shown(visits) ensures r in RowsOf(files) { StillWalkShows(visits, maxRows, files, r); }
    NoMoreThan(visits[0].req.ascending, Shown(visits), RowsOf(files));
  }

  lemma {:induction false} EachPageShows(visits: seq<Visit>, maxRows: int, k: nat)
    requires IsWalk(visits, maxRows) && k < |visits|
    ensures |Shown(visits[..k + 1])| >= if visits[k].page.rows != [] then k + 1 else k
  {
    ShownNext(visits, k);
    if k > 0 {
      EachPageShows(visits, maxRows, k - 1);
      SameWindow(visits, maxRows, k);
    }
  }

  lemma {:induction false} NoMoreThan(ascending: bool, a: seq<Row>, b: seq<Row>)
    requires Chain(ascending, a) && forall r <- a :: r in b
    ensures |a| <= |b|
  {
    NoneTwice(ascending, a);
    assert multiset(a) <= multiset(b) by {
      forall r ensures multiset(a)[r] <= multiset(b)[r] {
        if r in a {
          assert r in multiset(b);
        }
      }
    }
    assert multiset(b) == multiset(a) + (multiset(b) - multiset(a));
    assert |multiset(a)| == |a| && |multiset(b)| == |b|;
  }
}
