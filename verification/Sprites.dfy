/**
 internal/agent/thumbnail.go: how many tiles a scrubbing sheet has, where they are, and the index that says so.
 */
module Sprites {

  import opened Integers
  import opened Texts
  import opened Manifests

  const MAX_THUMBNAILS: int := 100
  const MIN_INTERVAL: int := 1
  const DEFAULT_COLUMNS: int := 10

  // ---- counting ----

  /** int(duration.Seconds()), of a duration in milliseconds. */
  function Seconds(durationMs: int): int {
    GoDiv(durationMs, 1000)
  }

  function Interval(durationMs: int): int {
    var seconds := Seconds(durationMs);
    if seconds <= 0 then MIN_INTERVAL
    else
      var interval := RoundUp(seconds, MAX_THUMBNAILS);
      if interval < MIN_INTERVAL then MIN_INTERVAL else interval
  }

  function Count(durationMs: int, interval: int): int {
    var seconds := Seconds(durationMs);
    if seconds <= 0 || interval <= 0 then 1
    else
      var count := seconds / interval;
      if count < 1 then 1 else count
  }

  function Columns(asked: int, count: int): int {
    var columns := if asked <= 0 then DEFAULT_COLUMNS else asked;
    if columns < count then columns else count
  }

  function Rows(count: int, columns: int): int
    requires columns > 0
  {
    RoundUp(count, columns)
  }

  /**
   A sheet has 1 to 100 tiles. Their cues cover the programme's whole seconds from zero up to less than one interval
   from the end, and never run past it, unless there is not even one whole second. The interval is the shortest at which a
   hundred tiles reach the end.
   */
  lemma SheetSize(durationMs: int)
    ensures var interval := Interval(durationMs);
            var count := Count(durationMs, interval);
            var seconds := Seconds(durationMs);
            && interval >= 1 && 1 <= count <= 100
            && (seconds >= 1 ==> seconds - interval < count * interval <= seconds)
            && (seconds >= 1 ==> 100 * (interval - 1) < seconds <= 100 * interval)
            && (seconds <= 0 ==> count * interval == 1)
            && (durationMs >= 0 ==> 1000 * seconds <= durationMs < 1000 * seconds + 1000) && (durationMs < 0 ==> seconds <= 0)
  {
    var seconds, interval := Seconds(durationMs), Interval(durationMs);
    if seconds >= 1 {
      RoundUpIsCeiling(seconds, MAX_THUMBNAILS);
      var count := seconds / interval;
      assert seconds == interval * count + seconds % interval;
      assert interval <= seconds;
      AtLeastOne(seconds, interval);
      if count > MAX_THUMBNAILS { MulMonotone(interval, MAX_THUMBNAILS + 1, count); }
    }
  }

  /** The grid: no more columns than tiles, and the last row is the only one that may be short. */
  lemma GridFits(asked: int, count: int)
    requires count >= 1
    ensures var columns := Columns(asked, count);
            && 1 <= columns <= count
            && (1 <= asked <= count ==> columns == asked) && (asked > count ==> columns == count)
            && (asked <= 0 ==> columns == if count < 10 then count else 10)
            && Rows(count, columns) >= 1 && columns * (Rows(count, columns) - 1) < count <= columns * Rows(count, columns)
  {
    RoundUpIsCeiling(count, Columns(asked, count));
  }

  // ---- the tiles ----

  datatype Tile = Tile(x: int, y: int, width: int, height: int)

  function TileOf(i: nat, columns: int, width: int, height: int): Tile
    requires columns > 0
  {
    Tile((i % columns) * width, (i / columns) * height, width, height)
  }

  predicate Inside(t: Tile, width: int, height: int) {
    0 <= t.x && t.x + t.width <= width && 0 <= t.y && t.y + t.height <= height
  }

  /** Neither overlaps the other: they are apart in one direction. */
  predicate Apart(t: Tile, u: Tile) {
    t.x + t.width <= u.x || u.x + u.width <= t.x || t.y + t.height <= u.y || u.y + u.height <= t.y
  }

  lemma Spaced(a: int, b: int, unit: int)
    requires a < b && unit >= 0
    ensures a * unit + unit <= b * unit
  {
    MulMonotone(unit, a + 1, b);
    assert a * unit == unit * a && b * unit == unit * b && unit * (a + 1) == unit * a + unit;
  }

  lemma TileInside(i: nat, count: int, columns: int, width: int, height: int)
    requires i < count && columns >= 1 && width >= 1 && height >= 1
    ensures Inside(TileOf(i, columns, width, height), columns * width, Rows(count, columns) * height)
  {
    RoundUpIsCeiling(count, columns);
    var row, rows := i / columns, Rows(count, columns);
    assert i == columns * row + i % columns;
    if row >= rows { MulMonotone(columns, rows, row); }
    Spaced(i % columns, columns, width);
    Spaced(row, rows, height);
    MulMonotone(width, 0, i % columns);
    MulMonotone(height, 0, row);
  }

  lemma TilesApart(i: nat, j: nat, columns: int, width: int, height: int)
    requires i < j && columns >= 1 && width >= 1 && height >= 1
    ensures Apart(TileOf(i, columns, width, height), TileOf(j, columns, width, height))
  {
    assert i == columns * (i / columns) + i % columns && j == columns * (j / columns) + j % columns;
    var a, b, c, d := i % columns, j % columns, i / columns, j / columns;
    if c < d { Spaced(c, d, height); }
    else if d < c { Spaced(d, c, height); }
    else if a < b { Spaced(a, b, width); }
  }

  /** For every duration and column count: the tiles lie in the sheet, and no two of them overlap. */
  lemma TilesFill(durationMs: int, asked: int, width: int, height: int)
    requires width >= 1 && height >= 1
    ensures var count := Count(durationMs, Interval(durationMs));
            var columns := Columns(asked, count);
            && count >= 1 && columns >= 1
            && (forall i: nat | i < count ::
                  Inside(TileOf(i, columns, width, height), columns * width, Rows(count, columns) * height))
            && (forall i: nat, j: nat | i < j < count ::
                  Apart(TileOf(i, columns, width, height), TileOf(j, columns, width, height)))
  {
    SheetSize(durationMs);
    var count := Count(durationMs, Interval(durationMs));
    GridFits(asked, count);
    var columns := Columns(asked, count);
    forall i: nat | i < count
      ensures Inside(TileOf(i, columns, width, height), columns * width, Rows(count, columns) * height)
    {
      TileInside(i, count, columns, width, height);
    }
    forall i: nat, j: nat | i < j < count
      ensures Apart(TileOf(i, columns, width, height), TileOf(j, columns, width, height))
    {
      TilesApart(i, j, columns, width, height);
    }
  }

  /** The order in which the sheet is filled: along a row from the left, then the next row, as the cues count them. */
  lemma ReadingOrder(i: nat, columns: int, width: int, height: int)
    requires columns >= 1
    ensures TileOf(0, columns, width, height) == Tile(0, 0, width, height)
    ensures var t, u := TileOf(i, columns, width, height), TileOf(i + 1, columns, width, height);
            if (i + 1) % columns == 0 then u.x == 0 && u.y == t.y + height else u.x == t.x + width && u.y == t.y
  {
    NextTile(i, columns);
    assert (i % columns + 1) * width == i % columns * width + width;
    assert (i / columns + 1) * height == i / columns * height + height;
  }

  lemma NextTile(i: nat, columns: int)
    requires columns >= 1
    ensures (i + 1) % columns == 0 ==> (i + 1) / columns == i / columns + 1
    ensures (i + 1) % columns != 0 ==> (i + 1) / columns == i / columns && (i + 1) % columns == i % columns + 1
  {
    var q, k := i / columns, i % columns;
    assert i == columns * q + k;
    if k + 1 < columns {
      QuotientUnique(i + 1, columns, q);
      assert i + 1 == columns * q + (i + 1) % columns;
    } else {
      assert columns * (q + 1) == columns * q + columns;
      QuotientUnique(i + 1, columns, q + 1);
      assert i + 1 == columns * (q + 1) + (i + 1) % columns;
    }
  }

  // ---- the index ----

  /** The time format of WebVTT. */
  function Clock(hours: string, minutes: string, seconds: string, millis: string): string {
    hours + ":" + (minutes + ":" + (seconds + "." + millis))
  }

  /** A whole number of seconds as a time. */
  function VttTime(seconds: nat): string {
    Clock(Padded(seconds / 3600, 2), Padded(seconds % 3600 / 60, 2), Padded(seconds % 60, 2), Padded(0, 3))
  }

  /** When tile i begins. */
  function Moment(i: nat, interval: nat): (t: nat)
    ensures t == i * interval
  {
    MulMonotone(interval, 0, i);
    i * interval
  }

  function Timing(i: nat, interval: nat): string {
    VttTime(Moment(i, interval)) + " --> " + VttTime(Moment(i + 1, interval))
  }

  datatype Sheet = Sheet(interval: nat, columns: nat, width: nat, height: nat)

  datatype Cell = Cell(x: nat, y: nat, width: nat, height: nat)

  function CellOf(i: nat, s: Sheet): (c: Cell)
    requires s.columns > 0
    ensures TileOf(i, s.columns, s.width, s.height) == Tile(c.x, c.y, c.width, c.height)
  {
    MulMonotone(s.width, 0, i % s.columns);
    MulMonotone(s.height, 0, i / s.columns);
    Cell((i % s.columns) * s.width, (i / s.columns) * s.height, s.width, s.height)
  }

  function Fragment(c: Cell): string {
    Decimal(c.x) + "," + (Decimal(c.y) + "," + (Decimal(c.width) + "," + Decimal(c.height)))
  }

  function Payload(i: nat, s: Sheet, sheet: string): string
    requires s.columns > 0
  {
    sheet + REGION + Fragment(CellOf(i, s))
  }

  function Header(): seq<string> {
    ["WEBVTT", ""]
  }

  /** The lines of an index: a header, then a timing, a payload and a blank line for each cue. */
  function Cues(count: nat, timing: nat -> string, payload: nat -> string): seq<string> {
    if count == 0 then Header()
    else Cues(count - 1, timing, payload) + [timing(count - 1)] + [payload(count - 1)] + [""]
  }

  function Timings(s: Sheet): nat -> string {
    (i: nat) => Timing(i, s.interval)
  }

  function Payloads(s: Sheet, sheet: string): nat -> string
    requires s.columns > 0
  {
    (i: nat) => Payload(i, s, sheet)
  }

  function IndexLines(count: nat, s: Sheet, sheet: string): seq<string>
    requires s.columns > 0
  {
    Cues(count, Timings(s), Payloads(s, sheet))
  }

  lemma JoinOne(lines: seq<string>, a: string)
    ensures Join(lines + [a]) == Join(lines) + (a + "\n")
  {
    assert (lines + [a])[..|lines|] == lines;
  }

  lemma JoinThree(lines: seq<string>, a: string, b: string, c: string)
    ensures Join(lines + [a] + [b] + [c]) == Join(lines) + (a + "\n") + (b + "\n") + (c + "\n")
  {
    JoinOne(lines, a);
    JoinOne(lines + [a], b);
    JoinOne(lines + [a] + [b], c);
  }

  lemma JoinTwo(a: string, b: string)
    ensures Join([a, b]) == a + "\n" + (b + "\n")
  {
    assert [a, b][..1] == [a] && [a][..0] == [];
    assert Join([a]) == "" + a + "\n" == a + "\n";
  }

  /** The builder's loop writes exactly these lines. */
  method SpriteIndex(count: int, s: Sheet, sheet: string) returns (text: string)
    requires s.columns > 0
    ensures text == Join(IndexLines(if count < 0 then 0 else count, s, sheet))
  {
    text := Write(count, Timings(s), Payloads(s, sheet));
  }

  method Write(count: int, timing: nat -> string, payload: nat -> string) returns (text: string)
    ensures text == Join(Cues(if count < 0 then 0 else count, timing, payload))
  {
    JoinTwo("WEBVTT", "");
    text := "WEBVTT" + "\n" + ("" + "\n");
    var i := 0;
    while i < count
      invariant 0 <= i && (i <= count || i == 0)
      invariant text == Join(Cues(i, timing, payload))
    {
      JoinThree(Cues(i, timing, payload), timing(i), payload(i), "");
      text := text + (timing(i) + "\n") + (payload(i) + "\n") + ("" + "\n");
      i := i + 1;
    }
  }

  // ---- reading the index back ----

  datatype Read<T> = Unreadable | Reads(value: T)

  function ReadNumber(s: string): Read<nat> {
    if s != "" && Digits(s) then Reads(Value(s)) else Unreadable
  }

  function ReadFields(h: string, m: string, c: string, t: string): Read<nat> {
    if |h| >= 2 && |m| == 2 && |c| == 2 && |t| == 3 && Digits(h) && Digits(m) && Digits(c) && Digits(t)
       && Value(m) < 60 && Value(c) < 60
    then Reads(((Value(h) * 60 + Value(m)) * 60 + Value(c)) * 1000 + Value(t))
    else Unreadable
  }

  /** hh:mm:ss.ttt with two or more digits for the hours, in milliseconds. */
  function ReadTime(s: string): Read<nat> {
    var h := Cut(s, ":");
    if h.Whole? then Unreadable
    else
      var m := Cut(h.after, ":");
      if m.Whole? then Unreadable
      else
        var c := Cut(m.after, ".");
        if c.Whole? then Unreadable else ReadFields(h.before, m.before, c.before, c.after)
  }

  datatype Span = Span(start: nat, end: nat)

  function ReadTiming(line: string): Read<Span> {
    match Cut(line, " --> ")
    case Whole => Unreadable
    case Halves(a, b) =>
      var start, end := ReadTime(a), ReadTime(b);
      if start.Reads? && end.Reads? then Reads(Span(start.value, end.value)) else Unreadable
  }

  /** A rectangle of Media Fragments, x,y,w,h. */
  function ReadFragment(s: string): Read<Cell> {
    var x := Cut(s, ",");
    if x.Whole? then Unreadable
    else
      var y := Cut(x.after, ",");
      if y.Whole? then Unreadable
      else
        var w := Cut(y.after, ",");
        if w.Whole? then Unreadable
        else
          var a, b, c, d := ReadNumber(x.before), ReadNumber(y.before), ReadNumber(w.before), ReadNumber(w.after);
          if a.Reads? && b.Reads? && c.Reads? && d.Reads? then Reads(Cell(a.value, b.value, c.value, d.value)) else Unreadable
  }

  lemma NotADigit(s: string, c: char)
    requires Digits(s) && !IsDigit(c)
    ensures c !in s
  {
  }

  lemma TwoDigits(n: nat)
    requires n < 100
    ensures |Padded(n, 2)| == 2
  {
    assert Pow10(2) == 100;
    DecimalLength(n, 2);
  }

  lemma ClockReads(h: string, m: string, c: string, t: string)
    requires Digits(h) && Digits(m) && Digits(c)
    ensures ReadTime(Clock(h, m, c, t)) == ReadFields(h, m, c, t)
  {
    NotADigit(h, ':');
    NotADigit(m, ':');
    NotADigit(c, '.');
    CutAtFirst(h, ":", m + ":" + (c + "." + t));
    CutAtFirst(m, ":", c + "." + t);
    CutAtFirst(c, ".", t);
  }

  lemma FieldsRead(h: nat, m: nat, c: nat)
    requires m < 60 && c < 60
    ensures ReadTime(Clock(Padded(h, 2), Padded(m, 2), Padded(c, 2), Padded(0, 3))) == Reads(((h * 60 + m) * 60 + c) * 1000)
  {
    TwoDigits(m);
    TwoDigits(c);
    PaddedReads(h, 2);
    PaddedReads(m, 2);
    PaddedReads(c, 2);
    PaddedReads(0, 3);
    assert |Padded(0, 3)| == 3;
    ClockReads(Padded(h, 2), Padded(m, 2), Padded(c, 2), Padded(0, 3));
  }

  lemma TimeReads(seconds: nat)
    ensures ReadTime(VttTime(seconds)) == Reads(1000 * seconds)
  {
    HoursMinutesSeconds(seconds);
    FieldsRead(seconds / 3600, seconds % 3600 / 60, seconds % 60);
  }

  lemma HoursMinutesSeconds(seconds: nat)
    ensures seconds % 3600 / 60 < 60 && (seconds / 3600 * 60 + seconds % 3600 / 60) * 60 + seconds % 60 == seconds
  {
  }

  /** A printed time holds digits and separators only. */
  lemma TimeIsSimple(seconds: nat, x: char)
    requires !IsDigit(x) && x != ':' && x != '.'
    ensures x !in VttTime(seconds)
  {
    NotADigit(Padded(seconds / 3600, 2), x);
    NotADigit(Padded(seconds % 3600 / 60, 2), x);
    NotADigit(Padded(seconds % 60, 2), x);
    NotADigit(Padded(0, 3), x);
  }

  lemma TimingReads(i: nat, interval: nat)
    ensures ReadTiming(Timing(i, interval)) == Reads(Span(1000 * Moment(i, interval), 1000 * Moment(i + 1, interval)))
  {
    var a, b := Moment(i, interval), Moment(i + 1, interval);
    TimeIsSimple(a, ' ');
    CutAtFirst(VttTime(a), " --> ", VttTime(b));
    TimeReads(a);
    TimeReads(b);
  }

  lemma NumberReads(n: nat)
    ensures ReadNumber(Decimal(n)) == Reads(n) && ',' !in Decimal(n)
  {
    DecimalReads(n);
    NotADigit(Decimal(n), ',');
  }

  lemma FragmentReads(t: Cell)
    ensures ReadFragment(Fragment(t)) == Reads(t)
  {
    NumberReads(t.x);
    NumberReads(t.y);
    NumberReads(t.width);
    NumberReads(t.height);
    var x, y, w, h := Decimal(t.x), Decimal(t.y), Decimal(t.width), Decimal(t.height);
    CutAtFirst(x, ",", y + "," + (w + "," + h));
    CutAtFirst(y, ",", w + "," + h);
    CutAtFirst(w, ",", h);
  }

  /** The lines of the i-th cue. */
  lemma {:induction false} CueAt(i: nat, count: nat, timing: nat -> string, payload: nat -> string)
    requires i < count
    ensures |Cues(count, timing, payload)| == 2 + 3 * count
    ensures Cues(count, timing, payload)[2 + 3 * i] == timing(i)
    ensures Cues(count, timing, payload)[3 + 3 * i] == payload(i)
    ensures Cues(count, timing, payload)[4 + 3 * i] == ""
  {
    if i < count - 1 {
      CueAt(i, count - 1, timing, payload);
    } else if i > 0 {
      CueAt(i - 1, count - 1, timing, payload);
    }
  }

  lemma {:induction false} IndexHeader(count: nat, timing: nat -> string, payload: nat -> string)
    ensures |Cues(count, timing, payload)| >= 2
    ensures Cues(count, timing, payload)[..2] == ["WEBVTT", ""]
  {
    if count > 0 { IndexHeader(count - 1, timing, payload); }
  }

  /** A cue's payload points at a cell of a sheet. */
  ghost predicate PointsAt(payload: string, sheet: string, c: Cell) {
    exists fragment :: payload == sheet + "#xywh=" + fragment && ReadFragment(fragment) == Reads(c)
  }

  lemma PayloadPoints(i: nat, s: Sheet, sheet: string)
    requires s.columns > 0
    ensures PointsAt(Payload(i, s, sheet), sheet, CellOf(i, s))
  {
    FragmentReads(CellOf(i, s));
  }

  /**
   What a player finds in the index: cue i is for exactly the moments numbered i when counted by the interval, and
   it points at cell i of the sheet.
   */
  lemma IndexMapsMoments(ms: nat, i: nat, count: nat, s: Sheet, sheet: string)
    requires s.columns > 0 && s.interval > 0 && i < count
    ensures |IndexLines(count, s, sheet)| == 2 + 3 * count
    ensures ReadTiming(IndexLines(count, s, sheet)[2 + 3 * i]).Reads?
    ensures var span := ReadTiming(IndexLines(count, s, sheet)[2 + 3 * i]).value;
            span.start <= ms < span.end <==> i == ms / (1000 * s.interval)
    ensures PointsAt(IndexLines(count, s, sheet)[3 + 3 * i], sheet, CellOf(i, s))
    ensures IndexLines(count, s, sheet)[4 + 3 * i] == ""
  {
    CueAt(i, count, Timings(s), Payloads(s, sheet));
    TimingReads(i, s.interval);
    PayloadPoints(i, s, sheet);
    SpanHolds(ms, i, s.interval);
  }

  lemma SpanHolds(ms: nat, i: nat, interval: nat)
    requires interval > 0
    ensures 1000 * Moment(i, interval) <= ms < 1000 * Moment(i + 1, interval) <==> i == ms / (1000 * interval)
  {
    var d := 1000 * interval;
    assert ms == d * (ms / d) + ms % d;
    assert 1000 * (i * interval) == d * i && 1000 * ((i + 1) * interval) == d * i + d;
    if d * i <= ms < d * i + d { QuotientUnique(ms, d, i); }
  }

  // ---- rewriting the index ----

  /** Go's int. */
  const INT_RANGE: nat := 0x8000_0000_0000_0000

  /** The numbers it prints are in that range. */
  ghost predicate InRange(count: nat, s: Sheet) {
    s.interval * count < INT_RANGE && s.width * (count + 1) < INT_RANGE && s.height * (count + 1) < INT_RANGE
  }

  lemma ShortNumber(n: nat)
    requires n < INT_RANGE
    ensures |Decimal(n)| <= 19 && |Padded(n, 2)| <= 19
  {
    TenTo19();
    DecimalLength(n, 19);
  }

  lemma TenTo19()
    ensures Pow10(19) >= INT_RANGE
  {
    assert Pow10(5) == 100000;
    assert Pow10(10) == 10 * Pow10(9) == 100 * Pow10(8) == 1000 * Pow10(7) == 10000 * Pow10(6) == 100000 * Pow10(5);
    assert Pow10(15) == 10 * Pow10(14) == 100 * Pow10(13) == 1000 * Pow10(12) == 10000 * Pow10(11) == 100000 * Pow10(10);
    assert Pow10(19) == 10 * Pow10(18) == 100 * Pow10(17) == 1000 * Pow10(16) == 10000 * Pow10(15);
  }

  /** Text that scanning and trimming leave alone. */
  ghost predicate Short(s: string) {
    |s| <= 400 && '\n' !in s && '\r' !in s
  }

  lemma ShortIsPlain(s: string)
    requires Short(s)
    ensures Plain(s, MAX_LINE)
  {
    BytesAtMost(s);
  }

  lemma TimeIsShort(seconds: nat)
    requires seconds < INT_RANGE
    ensures Short(VttTime(seconds)) && |VttTime(seconds)| <= 40 && '#' !in VttTime(seconds)
  {
    ShortNumber(seconds / 3600);
    TwoDigits(seconds % 3600 / 60);
    TwoDigits(seconds % 60);
    assert |Padded(0, 3)| == 3;
    TimeIsSimple(seconds, '\n');
    TimeIsSimple(seconds, '\r');
    TimeIsSimple(seconds, '#');
  }

  lemma TimingIsStructure(i: nat, interval: nat)
    requires interval * (i + 1) < INT_RANGE
    ensures Short(Timing(i, interval)) && Parse(Timing(i, interval)) == Structure
  {
    MulMonotone(interval, i, i + 1);
    assert interval * i == Moment(i, interval) && interval * (i + 1) == Moment(i + 1, interval);
    TimeIsShort(Moment(i, interval));
    TimeIsShort(Moment(i + 1, interval));
    ArrowIsStructure(VttTime(Moment(i, interval)), VttTime(Moment(i + 1, interval)));
  }

  lemma ArrowIsStructure(a: string, b: string)
    requires Short(a) && Short(b) && |a| <= 40 && |b| <= 40 && '#' !in a && '#' !in b
    ensures Short(a + " --> " + b) && Parse(a + " --> " + b) == Structure
  {
    NotARegion(a + " --> " + b);
  }

  lemma NumberIsShort(n: nat)
    requires n < INT_RANGE
    ensures |Decimal(n)| <= 19 && '\n' !in Decimal(n) && '\r' !in Decimal(n)
  {
    ShortNumber(n);
    NotADigit(Decimal(n), '\n');
    NotADigit(Decimal(n), '\r');
  }

  lemma FragmentIsShort(c: Cell)
    requires c.x < INT_RANGE && c.y < INT_RANGE && c.width < INT_RANGE && c.height < INT_RANGE
    ensures var f := Fragment(c); f != "" && |f| <= 100 && Short(f) && IsDigit(f[|f| - 1])
  {
    NumberIsShort(c.x);
    NumberIsShort(c.y);
    NumberIsShort(c.width);
    NumberIsShort(c.height);
  }

  lemma CellInRange(i: nat, count: nat, s: Sheet)
    requires i < count && s.columns > 0 && InRange(count, s)
    ensures var c := CellOf(i, s); c.x < INT_RANGE && c.y < INT_RANGE && c.width < INT_RANGE && c.height < INT_RANGE
  {
    var a, b := i % s.columns, i / s.columns;
    assert i == s.columns * b + a;
    MulMonotone(b, 1, s.columns);
    MulMonotone(s.width, a, count + 1);
    MulMonotone(s.height, b, count + 1);
    MulMonotone(s.width, 1, count + 1);
    MulMonotone(s.height, 1, count + 1);
  }

  lemma PayloadIsRegion(i: nat, count: nat, s: Sheet, sheet: string)
    requires i < count && s.columns > 0 && InRange(count, s) && SafeFile(sheet)
    ensures Short(Payload(i, s, sheet)) && Parse(Payload(i, s, sheet)) == Region(sheet, Fragment(CellOf(i, s)))
  {
    var f := Fragment(CellOf(i, s));
    CellInRange(i, count, s);
    FragmentIsShort(CellOf(i, s));
    ARegion(sheet, f);
    RegionIsShort(sheet, f);
  }

  lemma RegionIsShort(sheet: string, f: string)
    requires SafeFile(sheet) && Short(f) && |f| <= 100
    ensures Short(sheet + REGION + f)
  {
    assert '\n' !in sheet && '\r' !in sheet;
  }

  lemma {:induction false} CuesPlain(count: nat, timing: nat -> string, payload: nat -> string)
    requires forall i: nat | i < count :: Short(timing(i)) && Short(payload(i))
    ensures forall line | line in Cues(count, timing, payload) :: Plain(line, MAX_LINE)
  {
    if count == 0 {
      ShortIsPlain("WEBVTT");
      ShortIsPlain("");
    } else {
      CuesPlain(count - 1, timing, payload);
      ShortIsPlain(timing(count - 1));
      ShortIsPlain(payload(count - 1));
      ShortIsPlain("");
    }
  }

  /** What the rewriter makes of cue i: its timing stays, and its payload names the signed sheet instead. */
  ghost predicate Resigned(i: nat, timing: nat -> string, payload: nat -> string, payload': nat -> string, sheet: string,
                           prefix: string, sign: Signer)
  {
    && Parse(timing(i)) == Structure
    && Parse(payload(i)).Region? && Parse(payload(i)).sheet == sheet
    && RewriteLine(payload(i), prefix, sign) == Text(payload'(i) + "\n")
  }

  /** The rewriter one line on. */
  lemma Passed(lines: seq<string>, line: string, prefix: string, sign: Signer, out: string, one: string)
    requires Separately(lines, prefix, sign) == Text(out) && RewriteLine(line, prefix, sign) == Text(one)
    ensures Separately(lines + [line], prefix, sign) == Text(out + one)
    ensures Asked(lines + [line], prefix, sign) == AskedToo(Asked(lines, prefix, sign), Parse(line))
  {
    assert (lines + [line])[..|lines|] == lines && (lines + [line])[|lines|] == line;
  }

  lemma StructurePassed(lines: seq<string>, line: string, prefix: string, sign: Signer, out: string)
    requires Separately(lines, prefix, sign) == Text(out) && Parse(line) == Structure
    ensures Separately(lines + [line], prefix, sign) == Text(out + (line + "\n"))
    ensures Asked(lines + [line], prefix, sign) == Asked(lines, prefix, sign)
  {
    Passed(lines, line, prefix, sign, out, line + "\n");
  }

  lemma HeaderRewritten(prefix: string, sign: Signer)
    ensures RewrittenTo(Header(), Header(), prefix, sign, []) && Asked(Header(), prefix, sign) == []
  {
    assert Header() == [] + ["WEBVTT"] + [""];
    NotARegion("WEBVTT");
    NotARegion("");
    JoinOne([], "WEBVTT");
    JoinOne([] + ["WEBVTT"], "");
    StructurePassed([], "WEBVTT", prefix, sign, "");
    StructurePassed([] + ["WEBVTT"], "", prefix, sign, Join([] + ["WEBVTT"]));
  }

  /** The rewriter one cue on. */
  lemma CuePassed(lines: seq<string>, a: string, b: string, prefix: string, sign: Signer, out: string, b': string)
    requires Separately(lines, prefix, sign) == Text(out)
    requires Parse(a) == Structure && RewriteLine(b, prefix, sign) == Text(b')
    ensures Separately(lines + [a] + [b] + [""], prefix, sign) == Text(out + (a + "\n") + b' + ("" + "\n"))
    ensures Asked(lines + [a] + [b] + [""], prefix, sign) == AskedToo(Asked(lines, prefix, sign), Parse(b))
  {
    var more, after := lines + [a], out + (a + "\n");
    StructurePassed(lines, a, prefix, sign, out);
    Passed(more, b, prefix, sign, after, b');
    BlankPassed(more + [b], prefix, sign, after + b');
  }

  lemma BlankPassed(lines: seq<string>, prefix: string, sign: Signer, out: string)
    requires Separately(lines, prefix, sign) == Text(out)
    ensures Separately(lines + [""], prefix, sign) == Text(out + ("" + "\n"))
    ensures Asked(lines + [""], prefix, sign) == Asked(lines, prefix, sign)
  {
    NotARegion("");
    StructurePassed(lines, "", prefix, sign, out);
  }

  /** Asking again for a sheet already asked for is no first use. */
  lemma SameSheet(asked: seq<string>, line: Line)
    requires line.Region? && (FirstUses(asked) == [] || FirstUses(asked) == [line.sheet])
    ensures FirstUses(AskedToo(asked, line)) == [line.sheet]
  {
    FirstUsesDistinct(asked);
    assert (asked + [line.sheet])[..|asked|] == asked;
    if asked != [] { assert asked[0] in FirstUses(asked); }
  }

  /** Rewriting these lines gives those, having asked for one sheet at most. */
  ghost predicate RewrittenTo(lines: seq<string>, lines': seq<string>, prefix: string, sign: Signer, uses: seq<string>) {
    && Separately(lines, prefix, sign) == Text(Join(lines'))
    && FirstUses(Asked(lines, prefix, sign)) == uses
  }

  lemma CueStep(lines: seq<string>, lines': seq<string>, i: nat, timing: nat -> string, payload: nat -> string,
                payload': nat -> string, sheet: string, prefix: string, sign: Signer, uses: seq<string>)
    requires Resigned(i, timing, payload, payload', sheet, prefix, sign)
    requires RewrittenTo(lines, lines', prefix, sign, uses) && (uses == [] || uses == [sheet])
    ensures RewrittenTo(lines + [timing(i)] + [payload(i)] + [""], lines' + [timing(i)] + [payload'(i)] + [""], prefix, sign, [sheet])
  {
    CuePassed(lines, timing(i), payload(i), prefix, sign, Join(lines'), payload'(i) + "\n");
    JoinThree(lines', timing(i), payload'(i), "");
    SameSheet(Asked(lines, prefix, sign), Parse(payload(i)));
  }

  /** A relation between two indexes that a cue more, at i, keeps. */
  ghost predicate KeptBy(P: (seq<string>, seq<string>, bool) -> bool, i: nat, timing: nat -> string, payload: nat -> string,
                         payload': nat -> string, lines: seq<string>, lines': seq<string>, any: bool)
  {
    P(lines, lines', any) ==>
      P(lines + [timing(i)] + [payload(i)] + [""], lines' + [timing(i)] + [payload'(i)] + [""], true)
  }

  /** Induction along the cues of two indexes with the same timings. */
  lemma {:induction false} AlongCues(count: nat, timing: nat -> string, payload: nat -> string, payload': nat -> string,
                                     P: (seq<string>, seq<string>, bool) -> bool)
    requires P(Header(), Header(), false)
    requires forall i: nat, lines, lines', any {:trigger KeptBy(P, i, timing, payload, payload', lines, lines', any)} | i < count ::
               KeptBy(P, i, timing, payload, payload', lines, lines', any)
    ensures P(Cues(count, timing, payload), Cues(count, timing, payload'), count > 0)
  {
    if count > 0 {
      var i := count - 1;
      AlongCues(i, timing, payload, payload', P);
      assert KeptBy(P, i, timing, payload, payload', Cues(i, timing, payload), Cues(i, timing, payload'), i > 0);
    }
  }

  lemma CuesRewritten(count: nat, timing: nat -> string, payload: nat -> string, payload': nat -> string, sheet: string,
                      prefix: string, sign: Signer)
    requires forall i: nat | i < count :: Resigned(i, timing, payload, payload', sheet, prefix, sign)
    ensures RewrittenTo(Cues(count, timing, payload), Cues(count, timing, payload'), prefix, sign, if count == 0 then [] else [sheet])
  {
    var P := (lines, lines', any: bool) => RewrittenTo(lines, lines', prefix, sign, if any then [sheet] else []);
    HeaderRewritten(prefix, sign);
    forall i: nat, lines, lines', any | i < count
      ensures KeptBy(P, i, timing, payload, payload', lines, lines', any)
    {
      if P(lines, lines', any) {
        CueStep(lines, lines', i, timing, payload, payload', sheet, prefix, sign, if any then [sheet] else []);
      }
    }
    AlongCues(count, timing, payload, payload', P);
  }

  /** The index of a sheet, rewritten, is the index of the signed sheet: every timing and every region is kept. */
  lemma IndexRewritten(count: nat, s: Sheet, sheet: string, prefix: string, sign: Signer, url: string)
    requires s.columns > 0 && InRange(count, s) && SafeFile(sheet) && sign(prefix + "/" + sheet) == Text(url)
    ensures Rewritten(Join(IndexLines(count, s, sheet)), prefix, sign) == Text(Join(IndexLines(count, s, url)))
    ensures FirstUses(Asked(Scan(Join(IndexLines(count, s, sheet)), MAX_LINE).lines, prefix, sign)) ==
            if count == 0 then [] else [sheet]
  {
    var timing, payload, payload' := Timings(s), Payloads(s, sheet), Payloads(s, url);
    forall i: nat | i < count
      ensures Short(timing(i)) && Short(payload(i)) && Resigned(i, timing, payload, payload', sheet, prefix, sign)
    {
      CueResigned(i, count, s, sheet, prefix, sign, url);
    }
    IndexScans(count, timing, payload);
    CuesRewritten(count, timing, payload, payload', sheet, prefix, sign);
  }

  lemma {:induction false} FirstPayload(count: nat, timing: nat -> string, payload: nat -> string)
    requires count > 0
    ensures |Cues(count, timing, payload)| >= 5
    ensures Cues(count, timing, payload)[..3] == Header() + [timing(0)]
    ensures Cues(count, timing, payload)[3] == payload(0)
  {
    if count > 1 {
      FirstPayload(count - 1, timing, payload);
    } else {
      assert Cues(0, timing, payload) == Header();
    }
  }

  /** If the signer refuses, so does the rewriter, after the one call. */
  lemma IndexRefused(count: nat, s: Sheet, sheet: string, prefix: string, sign: Signer, e: RewriteError)
    requires count > 0 && s.columns > 0 && InRange(count, s) && SafeFile(sheet) && sign(prefix + "/" + sheet) == Fails(e)
    ensures Rewritten(Join(IndexLines(count, s, sheet)), prefix, sign) == Fails(e)
    ensures FirstUses(Asked(Scan(Join(IndexLines(count, s, sheet)), MAX_LINE).lines, prefix, sign)) == [sheet]
  {
    var timing, payload := Timings(s), Payloads(s, sheet);
    forall i: nat | i < count ensures Short(timing(i)) && Short(payload(i)) {
      CueIsShort(i, count, s, sheet);
    }
    IndexScans(count, timing, payload);
    CueIsShort(0, count, s, sheet);
    FirstPayload(count, timing, payload);
    HeadPassed(timing(0), prefix, sign);
    RefusedAt(Cues(count, timing, payload), 3, prefix, sign);
    SameSheet([], Parse(payload(0)));
  }

  lemma HeadPassed(a: string, prefix: string, sign: Signer)
    requires Parse(a) == Structure
    ensures Separately(Header() + [a], prefix, sign).Text? && Asked(Header() + [a], prefix, sign) == []
  {
    HeaderRewritten(prefix, sign);
    StructurePassed(Header(), a, prefix, sign, Join(Header()));
  }

  lemma RefusedAt(lines: seq<string>, i: nat, prefix: string, sign: Signer)
    requires i < |lines| && Separately(lines[..i], prefix, sign).Text? && Asked(lines[..i], prefix, sign) == []
    requires Parse(lines[i]).Region? && RewriteLine(lines[i], prefix, sign).Fails?
    ensures Separately(lines, prefix, sign) == RewriteLine(lines[i], prefix, sign)
    ensures Asked(lines, prefix, sign) == [Parse(lines[i]).sheet]
  {
    OneMore(lines, i, prefix, sign);
    FailureIsFinal(lines, i + 1, prefix, sign);
  }

  lemma CueIsShort(i: nat, count: nat, s: Sheet, sheet: string)
    requires i < count && s.columns > 0 && InRange(count, s) && SafeFile(sheet)
    ensures Short(Timings(s)(i)) && Short(Payloads(s, sheet)(i))
    ensures Parse(Timings(s)(i)) == Structure && Parse(Payloads(s, sheet)(i)) == Region(sheet, Fragment(CellOf(i, s)))
  {
    MulMonotone(s.interval, i + 1, count);
    TimingIsStructure(i, s.interval);
    PayloadIsRegion(i, count, s, sheet);
  }

  lemma CueResigned(i: nat, count: nat, s: Sheet, sheet: string, prefix: string, sign: Signer, url: string)
    requires i < count && s.columns > 0 && InRange(count, s) && SafeFile(sheet) && sign(Key(prefix, sheet)) == Text(url)
    ensures Short(Timings(s)(i)) && Short(Payloads(s, sheet)(i))
    ensures Resigned(i, Timings(s), Payloads(s, sheet), Payloads(s, url), sheet, prefix, sign)
  {
    CueIsShort(i, count, s, sheet);
  }

  lemma IndexScans(count: nat, timing: nat -> string, payload: nat -> string)
    requires forall i: nat | i < count :: Short(timing(i)) && Short(payload(i))
    ensures Scan(Join(Cues(count, timing, payload)), MAX_LINE) == Scanned(Cues(count, timing, payload), true)
  {
    var lines := Cues(count, timing, payload);
    CuesPlain(count, timing, payload);
    ScanJoin(lines, "", MAX_LINE);
    assert Join(lines) + "" == Join(lines) && lines + [] == lines;
  }
}
