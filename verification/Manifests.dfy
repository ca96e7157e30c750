/**
 internal/playback/manifest.go: signing the sheets a scrubbing index points at.
 */
module Manifests {

  import opened Texts

  const REGION: string := "#xywh="
  const MAX_LINE: nat := 4 * 1024 * 1024

  /** No two dots in a row. */
  predicate HasDots(s: string) {
    exists i :: 0 <= i < |s| - 1 && s[i] == '.' && s[i + 1] == '.'
  }

  predicate SafeFile(name: string) {
    && 1 <= |name| <= 128 && !HasDots(name)
    && forall c | c in name :: 'a' <= c <= 'z' || 'A' <= c <= 'Z' || IsDigit(c) || c == '-' || c == '_' || c == '.'
  }

  datatype RewriteError = ErrTooLong | ErrSign

  datatype Rewrite = Text(text: string) | Fails(error: RewriteError)

  /** The signer, asked for an object key. */
  type Signer = string -> Rewrite

  datatype Line = Structure | Region(sheet: string, fragment: string)

  /** A cue payload names a sheet and a region of it; everything else is structure. */
  function Parse(line: string): Line {
    match Cut(TrimSpace(line), REGION)
    case Whole => Structure
    case Halves(name, fragment) => if SafeFile(name) then Region(name, fragment) else Structure
  }

  function Key(prefix: string, sheet: string): string {
    prefix + "/" + sheet
  }

  /** One line on its own, signed afresh. */
  function RewriteLine(line: string, prefix: string, sign: Signer): Rewrite {
    match Parse(line)
    case Structure => Text(line + "\n")
    case Region(sheet, fragment) =>
      match sign(Key(prefix, sheet))
      case Fails(e) => Fails(e)
      case Text(url) => Text(url + REGION + fragment + "\n")
  }

  /** The specification: every cue signed separately, in order, up to the first failure. */
  function Separately(lines: seq<string>, prefix: string, sign: Signer): Rewrite {
    if lines == [] then Text("")
    else
      var before := Separately(lines[..|lines| - 1], prefix, sign);
      if before.Fails? then before
      else
        var one := RewriteLine(lines[|lines| - 1], prefix, sign);
        if one.Fails? then one else Text(before.text + one.text)
  }

  function Rewritten(body: string, prefix: string, sign: Signer): Rewrite {
    var scan := Scan(body, MAX_LINE);
    var r := Separately(scan.lines, prefix, sign);
    if r.Text? && !scan.ended then Fails(ErrTooLong) else r
  }

  /** The sheets that signing separately asks for, with repetitions. */
  function Asked(lines: seq<string>, prefix: string, sign: Signer): seq<string> {
    if lines == [] then []
    else
      var front, last := lines[..|lines| - 1], Parse(lines[|lines| - 1]);
      if Separately(front, prefix, sign).Fails? then Asked(front, prefix, sign)
      else AskedToo(Asked(front, prefix, sign), last)
  }

  function AskedToo(asked: seq<string>, line: Line): seq<string> {
    if line.Structure? then asked else asked + [line.sheet]
  }

  /** Each name at its first occurrence. */
  function FirstUses(names: seq<string>): seq<string> {
    if names == [] then []
    else
      var front, last := names[..|names| - 1], names[|names| - 1];
      FirstUses(front) + if last in front then [] else [last]
  }

  /** So a list of first uses repeats nothing and leaves nothing out. */
  lemma {:induction false} FirstUsesDistinct(names: seq<string>)
    ensures var uses := FirstUses(names);
            && (forall i, j | 0 <= i < j < |uses| :: uses[i] != uses[j])
            && (forall n :: n in uses <==> n in names)
  {
    if names != [] {
      FirstUsesDistinct(names[..|names| - 1]);
      assert names == names[..|names| - 1] + [names[|names| - 1]];
    }
  }

  /** Nothing is written or asked for after a failure. */
  lemma {:induction false} FailureIsFinal(lines: seq<string>, i: nat, prefix: string, sign: Signer)
    requires i <= |lines| && Separately(lines[..i], prefix, sign).Fails?
    ensures Separately(lines, prefix, sign) == Separately(lines[..i], prefix, sign)
    ensures Asked(lines, prefix, sign) == Asked(lines[..i], prefix, sign)
  {
    if i == |lines| {
      assert lines[..i] == lines;
    } else {
      assert lines[..|lines| - 1][..i] == lines[..i];
      FailureIsFinal(lines[..|lines| - 1], i, prefix, sign);
    }
  }

  ghost function Names(names: seq<string>): set<string> {
    set n | n in names
  }

  ghost predicate Memo(signed: map<string, string>, prefix: string, sign: Signer) {
    forall n | n in signed :: sign(Key(prefix, n)) == Text(signed[n])
  }

  /** One turn of the loop asks only for a sheet it does not know, and knows it from then on. */
  ghost predicate Turn(line: Line, ok: bool, known: set<string>, known': set<string>, calls: seq<string>) {
    match line
    case Structure => known' == known && calls == []
    case Region(sheet, _) =>
      && calls == (if sheet in known then [] else [sheet])
      && (ok ==> known' == known + {sheet})
  }

  method SignLine(line: string, prefix: string, sign: Signer, memo: map<string, string>)
    returns (one: Rewrite, signed: map<string, string>, calls: seq<string>)
    requires Memo(memo, prefix, sign)
    ensures one == RewriteLine(line, prefix, sign) && Memo(signed, prefix, sign)
    ensures Turn(Parse(line), one.Text?, memo.Keys, signed.Keys, calls)
  {
    signed, calls := memo, [];
    match Parse(line) {
      case Structure =>
        one := Text(line + "\n");
      case Region(sheet, fragment) =>
        if sheet !in signed {
          calls := [sheet];
          var answer := sign(Key(prefix, sheet));
          if answer.Fails? {
            return answer, memo, calls;
          }
          signed := signed[sheet := answer.text];
        }
        one := Text(signed[sheet] + REGION + fragment + "\n");
    }
  }

  /** The specification, one line longer. */
  lemma OneMore(lines: seq<string>, i: nat, prefix: string, sign: Signer)
    requires i < |lines| && Separately(lines[..i], prefix, sign).Text?
    ensures var before, one := Separately(lines[..i], prefix, sign), RewriteLine(lines[i], prefix, sign);
            Separately(lines[..i + 1], prefix, sign) == if one.Fails? then one else Text(before.text + one.text)
    ensures Asked(lines[..i + 1], prefix, sign) == AskedToo(Asked(lines[..i], prefix, sign), Parse(lines[i]))
  {
    assert lines[..i + 1][..i] == lines[..i] && lines[..i + 1][i] == lines[i];
  }

  lemma OneMoreUse(asked: seq<string>, line: Line, ok: bool, known': set<string>, more: seq<string>)
    requires Turn(line, ok, Names(asked), known', more)
    ensures FirstUses(AskedToo(asked, line)) == FirstUses(asked) + more
    ensures ok ==> known' == Names(AskedToo(asked, line))
  {
    if line.Region? {
      assert (asked + [line.sheet])[..|asked|] == asked;
      assert Names(asked + [line.sheet]) == Names(asked) + {line.sheet};
    }
  }

  /** The loop after some lines. */
  ghost predicate SoFar(lines: seq<string>, prefix: string, sign: Signer, r: Rewrite, calls: seq<string>) {
    && Separately(lines, prefix, sign) == r
    && calls == FirstUses(Asked(lines, prefix, sign))
  }

  ghost predicate Knows(lines: seq<string>, prefix: string, sign: Signer, known: set<string>) {
    known == Names(Asked(lines, prefix, sign))
  }

  lemma TurnDone(lines: seq<string>, i: nat, prefix: string, sign: Signer, out: string, calls: seq<string>,
                 known: set<string>, one: Rewrite, known': set<string>, more: seq<string>)
    requires i < |lines| && SoFar(lines[..i], prefix, sign, Text(out), calls) && Knows(lines[..i], prefix, sign, known)
    requires one == RewriteLine(lines[i], prefix, sign) && Turn(Parse(lines[i]), one.Text?, known, known', more)
    ensures one.Text? ==> SoFar(lines[..i + 1], prefix, sign, Text(out + one.text), calls + more)
    ensures one.Text? ==> Knows(lines[..i + 1], prefix, sign, known')
    ensures one.Fails? ==> SoFar(lines, prefix, sign, one, calls + more)
  {
    OneMore(lines, i, prefix, sign);
    OneMoreUse(Asked(lines[..i], prefix, sign), Parse(lines[i]), one.Text?, known', more);
    if one.Fails? { FailureIsFinal(lines, i + 1, prefix, sign); }
  }

  /**
   The rewriter with its memo map: the answer is the one signing each cue separately gives, and the signer is called
   once for each sheet, when the sheet first appears.
   */
  method RewriteVTT(body: string, prefix: string, sign: Signer) returns (r: Rewrite, calls: seq<string>)
    ensures r == Rewritten(body, prefix, sign)
    ensures calls == FirstUses(Asked(Scan(body, 4 * 1024 * 1024).lines, prefix, sign))
  {
    var scanner := Scan(body, MAX_LINE);
    r, calls := RewriteLines(scanner.lines, prefix, sign);
    if r.Text? && !scanner.ended {
      r := Fails(ErrTooLong);
    }
  }

  method RewriteLines(lines: seq<string>, prefix: string, sign: Signer) returns (r: Rewrite, calls: seq<string>)
    ensures SoFar(lines, prefix, sign, r, calls)
  {
    var out, signed: map<string, string> := "", map[];
    calls := [];
    for i := 0 to |lines|
      invariant SoFar(lines[..i], prefix, sign, Text(out), calls)
      invariant Memo(signed, prefix, sign) && Knows(lines[..i], prefix, sign, signed.Keys)
    {
      var one, known, more := SignLine(lines[i], prefix, sign, signed);
      TurnDone(lines, i, prefix, sign, out, calls, signed.Keys, one, known.Keys, more);
      signed, calls := known, calls + more;
      if one.Fails? {
        return one, calls;
      }
      out := out + one.text;
    }
    assert lines[..|lines|] == lines;
    r := Text(out);
  }

  // ---- what may be named, and what is a region ----

  /** A name that could leave the package's own prefix is refused; the names the packager and the sprite use are not. */
  lemma SafeFileBounds(name: string)
    ensures '/' in name || '\\' in name || (exists a, b: string :: name == a + ".." + b) ==> !SafeFile(name)
    ensures name == "" || |name| > 128 ==> !SafeFile(name)
    ensures (exists c :: c in name && !('a' <= c <= 'z' || 'A' <= c <= 'Z' || '0' <= c <= '9') && c != '-' && c != '_' && c != '.')
            ==> !SafeFile(name)
    ensures 1 <= |name| <= 128 && (forall c | c in name :: 'a' <= c <= 'z' || 'A' <= c <= 'Z' || '0' <= c <= '9' || c == '-' || c == '_')
            ==> SafeFile(name)
  {
    if a, b: string :| name == a + ".." + b {
      assert name[|a|] == '.' && name[|a| + 1] == '.';
      assert HasDots(name);
    }
    if HasDots(name) {
      var i :| 0 <= i < |name| - 1 && name[i] == '.' && name[i + 1] == '.';
      assert name[i] in name;
    }
  }

  /** One dot between such parts, as in a file name with an extension, is safe too. */
  lemma SafeFileWithExtension(a: string, b: string)
    requires SafeFile(a) && SafeFile(b) && '.' !in a && '.' !in b && |a| + |b| < 128
    ensures SafeFile(a + "." + b)
  {
    var name := a + "." + b;
    forall i | 0 <= i < |name| ensures i != |a| ==> name[i] != '.' {
      if i < |a| { assert name[i] == a[i] && a[i] in a; }
      if i > |a| { assert name[i] == b[i - |a| - 1] && b[i - |a| - 1] in b; }
    }
  }

  /** A line is a region exactly if, trimmed, it reads a safe name, the first "#xywh=" in it, and a fragment. */
  lemma RegionMeans(line: string, name: string, fragment: string)
    ensures Parse(line) == Region(name, fragment) <==> SplitsAt(TrimSpace(line), name, "#xywh=", fragment) && SafeFile(name)
  {
    CutMeans(TrimSpace(line), "#xywh=", name, fragment);
  }

  // ---- lines the rewriter meets in an index ----

  lemma NotARegion(line: string)
    requires '#' !in line
    ensures Parse(line) == Structure
  {
    CutNowhere(TrimSpace(line), REGION);
  }

  lemma ARegion(sheet: string, fragment: string)
    requires SafeFile(sheet) && fragment != "" && !IsSpace(fragment[|fragment| - 1])
    ensures Parse(sheet + REGION + fragment) == Region(sheet, fragment)
  {
    var line := sheet + REGION + fragment;
    assert line[0] == sheet[0] && line[0] in sheet;
    assert line[|line| - 1] == fragment[|fragment| - 1];
    assert TrimSpace(line) == line;
    CutAtFirst(sheet, REGION, fragment);
  }
}
