/**
 The few text routines the sprite index and its rewriter use: numbers as fmt prints them, strings.Cut,
 strings.TrimSpace and bufio.ScanLines. A string is its sequence of code points.
 */
module Texts {

  // ---- numbers ----

  predicate IsDigit(c: char) {
    '0' <= c <= '9'
  }

  predicate Digits(s: string) {
    forall i | 0 <= i < |s| :: IsDigit(s[i])
  }

  function Digit(n: nat): (c: char)
    requires n < 10
    ensures IsDigit(c)
  {
    '0' + n as char
  }

  /** What %d prints for a number that is not negative. */
  function Decimal(n: nat): (s: string)
    ensures s != "" && Digits(s)
  {
    if n < 10 then [Digit(n)] else Decimal(n / 10) + [Digit(n % 10)]
  }

  /** What %0<width>d prints. */
  function Padded(n: nat, width: nat): (s: string)
    ensures s != "" && |s| >= width && Digits(s)
  {
    Pad(Decimal(n), width)
  }

  function Pad(d: string, width: nat): (s: string)
    requires Digits(d)
    ensures |s| == (if |d| >= width then |d| else width) && Digits(s)
  {
    if |d| >= width then d else Zeros(width - |d|) + d
  }

  function Zeros(k: nat): (s: string)
    ensures |s| == k && forall i | 0 <= i < k :: s[i] == '0'
  {
    seq(k, i => '0')
  }

  /** The number a reader sees in a run of digits. */
  function Value(s: string): nat
    requires Digits(s)
  {
    if s == "" then 0 else 10 * Value(s[..|s| - 1]) + (s[|s| - 1] - '0') as nat
  }

  lemma {:induction false} DecimalReads(n: nat)
    ensures Value(Decimal(n)) == n
  {
    if n >= 10 {
      DecimalReads(n / 10);
      assert Decimal(n)[..|Decimal(n)| - 1] == Decimal(n / 10);
    } else {
      assert Decimal(n)[..0] == "";
    }
  }

  lemma {:induction false} LeadingZeros(zeros: string, s: string)
    requires (forall i | 0 <= i < |zeros| :: zeros[i] == '0') && Digits(s)
    ensures Value(zeros + s) == Value(s)
    decreases |zeros| + |s|
  {
    if s != "" {
      assert (zeros + s)[..|zeros + s| - 1] == zeros + s[..|s| - 1];
      LeadingZeros(zeros, s[..|s| - 1]);
    } else if zeros != "" {
      assert (zeros + s)[..|zeros + s| - 1] == zeros[..|zeros| - 1] + s;
      LeadingZeros(zeros[..|zeros| - 1], s);
    }
  }

  lemma PadReads(d: string, width: nat)
    requires Digits(d)
    ensures Value(Pad(d, width)) == Value(d)
  {
    if |d| < width { LeadingZeros(Zeros(width - |d|), d); }
  }

  lemma PaddedReads(n: nat, width: nat)
    ensures Value(Padded(n, width)) == n
  {
    DecimalReads(n);
    PadReads(Decimal(n), width);
  }

  function Pow10(k: nat): (p: nat)
    ensures p >= 1
  {
    if k == 0 then 1 else 10 * Pow10(k - 1)
  }

  lemma {:induction false} DecimalLength(n: nat, k: nat)
    requires k >= 1 && n < Pow10(k)
    ensures |Decimal(n)| <= k
  {
    if n >= 10 {
      assert k >= 2 by { assert Pow10(1) == 10 * Pow10(0); }
      DecimalLength(n / 10, k - 1);
    }
  }

  // ---- strings.Cut ----

  datatype Halves = Whole | Halves(before: string, after: string)

  /** Around the first occurrence of sep, if there is one. */
  function Cut(s: string, sep: string): Halves {
    if |s| < |sep| then Whole
    else if s[..|sep|] == sep then Halves("", s[|sep|..])
    else if s == "" then Whole
    else
      match Cut(s[1..], sep)
      case Whole => Whole
      case Halves(a, b) => Halves([s[0]] + a, b)
  }

  lemma {:induction false} CutAtFirst(before: string, sep: string, after: string)
    requires sep != "" && sep[0] !in before
    ensures Cut(before + sep + after, sep) == Halves(before, after)
  {
    var s := before + sep + after;
    if before == "" {
      assert s[..|sep|] == sep && s[|sep|..] == after;
    } else {
      assert s[0] == before[0];
      assert s[..|sep|][0] == before[0];
      assert s[1..] == before[1..] + sep + after;
      CutAtFirst(before[1..], sep, after);
      assert [before[0]] + before[1..] == before;
    }
  }

  lemma {:induction false} CutNowhere(s: string, sep: string)
    requires sep != "" && sep[0] !in s
    ensures Cut(s, sep) == Whole
  {
    if |s| >= |sep| {
      assert s[..|sep|][0] == s[0];
      CutNowhere(s[1..], sep);
    }
  }

  ghost predicate OccursAt(s: string, sep: string, i: nat) {
    i + |sep| <= |s| && s[i..i + |sep|] == sep
  }

  /** s reads a, then sep for the first time, then b. */
  ghost predicate SplitsAt(s: string, a: string, sep: string, b: string) {
    s == a + sep + b && forall i: nat | i < |a| :: !OccursAt(s, sep, i)
  }

  /** strings.Cut splits around the first occurrence. */
  lemma CutMeans(s: string, sep: string, a: string, b: string)
    requires sep != ""
    ensures Cut(s, sep) == Halves(a, b) <==> SplitsAt(s, a, sep, b)
  {
    if Cut(s, sep) == Halves(a, b) { CutSplits(s, sep); }
    if SplitsAt(s, a, sep, b) { SplitCuts(s, sep, a, b); }
  }

  lemma OccursLater(c: char, rest: string, sep: string, i: nat)
    ensures OccursAt([c] + rest, sep, i + 1) <==> OccursAt(rest, sep, i)
  {
    if i + |sep| <= |rest| { assert ([c] + rest)[i + 1..i + 1 + |sep|] == rest[i..i + |sep|]; }
  }

  lemma SplitsLater(c: char, rest: string, a: string, sep: string, b: string)
    requires SplitsAt(rest, a, sep, b) && !OccursAt([c] + rest, sep, 0)
    ensures SplitsAt([c] + rest, [c] + a, sep, b)
  {
    assert [c] + rest == [c] + a + sep + b;
    forall i: nat | i < |a| + 1 ensures !OccursAt([c] + rest, sep, i) {
      if i > 0 { OccursLater(c, rest, sep, i - 1); }
    }
  }

  lemma {:induction false} CutSplits(s: string, sep: string)
    requires sep != "" && Cut(s, sep).Halves?
    ensures SplitsAt(s, Cut(s, sep).before, sep, Cut(s, sep).after)
  {
    if s[..|sep|] == sep {
      assert s == "" + sep + s[|sep|..];
    } else {
      CutSplits(s[1..], sep);
      assert s == [s[0]] + s[1..] && s[0..0 + |sep|] == s[..|sep|];
      SplitsLater(s[0], s[1..], Cut(s[1..], sep).before, sep, Cut(s[1..], sep).after);
    }
  }

  lemma {:induction false} SplitCuts(s: string, sep: string, a: string, b: string)
    requires sep != "" && SplitsAt(s, a, sep, b)
    ensures Cut(s, sep) == Halves(a, b)
  {
    if a == "" {
      assert s[..|sep|] == sep && s[|sep|..] == b;
    } else {
      assert !OccursAt(s, sep, 0);
      assert s[..|sep|] != sep by { assert s[0..0 + |sep|] == s[..|sep|]; }
      assert s[1..] == a[1..] + sep + b && s == [a[0]] + s[1..];
      forall i: nat | i < |a[1..]| ensures !OccursAt(s[1..], sep, i) {
        OccursLater(a[0], s[1..], sep, i);
      }
      SplitCuts(s[1..], sep, a[1..], b);
      assert a == [a[0]] + a[1..];
    }
  }

  // ---- strings.TrimSpace ----

  /** unicode.IsSpace. */
  predicate IsSpace(c: char) {
    || '\t' <= c <= '\r' || c == ' ' || c == '\U{85}' || c == '\U{A0}' || c == '\U{1680}' || '\U{2000}' <= c <= '\U{200A}'
    || c == '\U{2028}' || c == '\U{2029}' || c == '\U{202F}' || c == '\U{205F}' || c == '\U{3000}'
  }

  function TrimLeft(s: string): (t: string)
    ensures forall c | c in t :: c in s
  {
    if s != "" && IsSpace(s[0]) then TrimLeft(s[1..]) else s
  }

  function TrimRight(s: string): (t: string)
    ensures forall c | c in t :: c in s
  {
    if s != "" && IsSpace(s[|s| - 1]) then TrimRight(s[..|s| - 1]) else s
  }

  function TrimSpace(s: string): (t: string)
    ensures forall c | c in t :: c in s
  {
    TrimRight(TrimLeft(s))
  }

  ghost predicate Blank(s: string) {
    forall i | 0 <= i < |s| :: IsSpace(s[i])
  }

  /** Only space is trimmed, and no space is left at either end. */
  lemma TrimSpaceMeans(s: string) returns (before: string, after: string)
    ensures s == before + TrimSpace(s) + after && Blank(before) && Blank(after)
    ensures TrimSpace(s) != "" ==> !IsSpace(TrimSpace(s)[0]) && !IsSpace(TrimSpace(s)[|TrimSpace(s)| - 1])
  {
    before := LeftTrimmed(s);
    after := RightTrimmed(TrimLeft(s));
    Thirds(s, before, TrimLeft(s), TrimSpace(s), after);
  }

  lemma Thirds(s: string, a: string, left: string, b: string, c: string)
    requires s == a + left && left == b + c
    ensures s == a + b + c
    ensures b != "" ==> left != "" && b[0] == left[0]
  {
  }

  lemma {:induction false} LeftTrimmed(s: string) returns (before: string)
    ensures s == before + TrimLeft(s) && Blank(before)
    ensures TrimLeft(s) != "" ==> !IsSpace(TrimLeft(s)[0])
  {
    before := "";
    if s != "" && IsSpace(s[0]) {
      var more := LeftTrimmed(s[1..]);
      before := [s[0]] + more;
      assert s == [s[0]] + s[1..];
    }
  }

  lemma {:induction false} RightTrimmed(s: string) returns (after: string)
    ensures s == TrimRight(s) + after && Blank(after)
    ensures TrimRight(s) != "" ==> !IsSpace(TrimRight(s)[|TrimRight(s)| - 1])
  {
    after := "";
    var n := |s| - 1;
    if s != "" && IsSpace(s[n]) {
      var more := RightTrimmed(s[..n]);
      after := more + [s[n]];
      assert s == s[..n] + [s[n]];
    }
  }

  // ---- bufio.ScanLines ----

  function LineEnd(s: string): (e: nat)
    ensures e <= |s| && '\n' !in s[..e] && (e < |s| ==> s[e] == '\n')
  {
    if s == "" || s[0] == '\n' then 0
    else
      var e := LineEnd(s[1..]);
      assert s[..e + 1] == [s[0]] + s[1..][..e];
      e + 1
  }

  /** The text up to the next newline, which is left out. */
  function RawLine(s: string): string {
    s[..LineEnd(s)]
  }

  function AfterLine(s: string): (t: string)
    ensures s != "" ==> |t| < |s|
  {
    if LineEnd(s) < |s| then s[LineEnd(s) + 1..] else ""
  }

  /** A line drops one carriage return at its end. */
  function DropCR(line: string): string {
    if line != "" && line[|line| - 1] == '\r' then line[..|line| - 1] else line
  }

  function Utf8(c: char): nat {
    if c < '\U{80}' then 1 else if c < '\U{800}' then 2 else if c < '\U{10000}' then 3 else 4
  }

  function Bytes(s: string): nat {
    if s == "" then 0 else Bytes(s[..|s| - 1]) + Utf8(s[|s| - 1])
  }

  lemma {:induction false} BytesAtMost(s: string)
    ensures Bytes(s) <= 4 * |s|
  {
    if s != "" { BytesAtMost(s[..|s| - 1]); }
  }

  /** What a scanner hands out, and whether it reached the end rather than a line past its limit. */
  datatype Scanned = Scanned(lines: seq<string>, ended: bool)

  function Scan(body: string, limit: nat): Scanned
    decreases |body|
  {
    if body == "" then Scanned([], true)
    else if Bytes(RawLine(body)) >= limit then Scanned([], false)
    else
      var rest := Scan(AfterLine(body), limit);
      Scanned([DropCR(RawLine(body))] + rest.lines, rest.ended)
  }

  function Join(lines: seq<string>): string {
    if lines == [] then "" else Join(lines[..|lines| - 1]) + lines[|lines| - 1] + "\n"
  }

  /** A line that scanning gives back as it was. */
  ghost predicate Plain(line: string, limit: nat) {
    '\n' !in line && '\r' !in line && Bytes(line) < limit
  }

  lemma {:induction false} LineEndOf(line: string, tail: string)
    requires '\n' !in line
    ensures LineEnd(line + "\n" + tail) == |line|
  {
    if line != "" {
      assert (line + "\n" + tail)[1..] == line[1..] + "\n" + tail;
      LineEndOf(line[1..], tail);
    }
  }

  lemma ScanFirst(line: string, tail: string, limit: nat)
    requires Plain(line, limit)
    ensures Scan(line + "\n" + tail, limit) == Scanned([line] + Scan(tail, limit).lines, Scan(tail, limit).ended)
  {
    LineEndOf(line, tail);
    assert RawLine(line + "\n" + tail) == line && AfterLine(line + "\n" + tail) == tail;
    assert DropCR(line) == line;
  }

  lemma Regroup(lines: seq<string>, more: seq<string>)
    requires lines != []
    ensures lines[..|lines| - 1] + ([lines[|lines| - 1]] + more) == lines + more
  {
  }

  lemma {:induction false} ScanJoin(lines: seq<string>, tail: string, limit: nat)
    requires forall line | line in lines :: Plain(line, limit)
    ensures Scan(Join(lines) + tail, limit) == Scanned(lines + Scan(tail, limit).lines, Scan(tail, limit).ended)
  {
    if lines == [] {
      assert Join(lines) + tail == tail;
    } else {
      var front, last := lines[..|lines| - 1], lines[|lines| - 1];
      var more := last + "\n" + tail;
      assert Join(lines) + tail == Join(front) + more;
      ScanJoin(front, more, limit);
      ScanFirst(last, tail, limit);
      Regroup(lines, Scan(tail, limit).lines);
    }
  }

  /** A carriage return goes with its newline. */
  lemma ScanReturn(line: string, tail: string, limit: nat)
    requires '\n' !in line && Bytes(line + "\r") < limit
    ensures Scan(line + "\r" + "\n" + tail, limit) == Scanned([line] + Scan(tail, limit).lines, Scan(tail, limit).ended)
  {
    var raw := line + "\r";
    LineEndOf(raw, tail);
    var body := raw + "\n" + tail;
    assert RawLine(body) == raw && AfterLine(body) == tail;
    assert DropCR(raw) == line;
  }

  /** The last line needs no newline. */
  lemma ScanLast(line: string, limit: nat)
    requires line != "" && Plain(line, limit)
    ensures Scan(line, limit) == Scanned([line], true)
  {
    WholeLine(line);
    assert RawLine(line) == line && AfterLine(line) == "";
    assert DropCR(line) == line;
    assert Scan("", limit) == Scanned([], true);
  }

  lemma {:induction false} WholeLine(line: string)
    requires '\n' !in line
    ensures LineEnd(line) == |line|
  {
    if line != "" { WholeLine(line[1..]); }
  }

  /** A line past the limit ends the scan. */
  lemma LongLine(line: string, tail: string, limit: nat)
    requires '\n' !in line && Bytes(line) >= limit && line != ""
    ensures Scan(line + "\n" + tail, limit) == Scanned([], false)
  {
    LineEndOf(line, tail);
    assert RawLine(line + "\n" + tail) == line;
  }
}
